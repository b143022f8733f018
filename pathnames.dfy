/**
 * The output file name of `resize_image` (main.py:18-20):
 * `os.path.join(output_folder, f"{name}_resized{ext}")` where
 * `name, ext = os.path.splitext(os.path.basename(path))`.
 *
 * `os.path` is modelled as CPython's `posixpath`, the module it names on
 * POSIX systems: the separator is '/', the extension separator '.', and
 * there is no alternative separator. Windows' `ntpath` is not modelled.
 */
module PathNames {

  /** The literal inserted between the stem and the extension (main.py:20). */
  const Suffix: string := "_resized"

  /** The suffix starts with '_' and holds neither '.' nor '/'. */
  lemma SuffixChars()
    ensures |Suffix| == 8 && Suffix[0] == '_'
    ensures forall k :: 0 <= k < |Suffix| ==> Suffix[k] != '.' && Suffix[k] != '/'
  {
  }

  /** A file name split into its stem and its extension, as `splitext` returns them. */
  datatype SplitPath = SplitPath(root: string, ext: string)

  /** `s.rfind(c)`: the index of the last `c` in `s`, or -1 when there is none. */
  function LastIndexOf(s: string, c: char): (r: int)
    ensures -1 <= r < |s|
    ensures r >= 0 ==> s[r] == c
    ensures forall k :: r < k < |s| ==> s[k] != c
    decreases |s|
  {
    if |s| == 0 then -1
    else if s[|s| - 1] == c then |s| - 1
    else LastIndexOf(s[..|s| - 1], c)
  }

  /** `LastIndexOf` is the last occurrence: any occurrence with none after it is that one. */
  lemma LastIndexOfAt(s: string, c: char, d: int)
    requires 0 <= d < |s| && s[d] == c
    requires forall k :: d < k < |s| ==> s[k] != c
    ensures LastIndexOf(s, c) == d
  {
  }

  /** `s` contains no path separator. */
  predicate NoSlash(s: string)
  {
    forall k :: 0 <= k < |s| ==> s[k] != '/'
  }

  lemma NoSlashAppend(a: string, b: string)
    ensures NoSlash(a + b) <==> NoSlash(a) && NoSlash(b)
  {
    assert forall k :: 0 <= k < |a| ==> (a + b)[k] == a[k];
    assert forall k :: 0 <= k < |b| ==> (a + b)[|a| + k] == b[k];
    if NoSlash(a) && NoSlash(b) {
      forall k | 0 <= k < |a + b|
        ensures (a + b)[k] != '/'
      {
        if k >= |a| {
          assert (a + b)[k] == b[k - |a|];
        }
      }
    }
  }

  /**
   * `os.path.basename(p)`: everything after the last '/', that is the longest
   * suffix of `p` without a '/'.
   */
  function Basename(p: string): (r: string)
    ensures |r| <= |p| && r == p[|p| - |r|..]
    ensures NoSlash(r)
    ensures |r| < |p| ==> p[|p| - |r| - 1] == '/'
  {
    var start := LastIndexOf(p, '/') + 1;
    assert forall k :: 0 <= k < |p| - start ==> p[start..][k] == p[start + k];
    p[start..]
  }

  /** A name with no '/' is its own base name, behind any directory prefix. */
  lemma BasenameOfJoined(dir: string, name: string)
    requires dir == [] || dir[|dir| - 1] == '/'
    requires NoSlash(name)
    ensures Basename(dir + name) == name
  {
    var p := dir + name;
    if |dir| == 0 {
      assert p == name;
      LastIndexOfNone(p, '/');
    } else {
      LastIndexOfAt(p, '/', |dir| - 1);
    }
  }

  lemma LastIndexOfNone(s: string, c: char)
    requires forall k :: 0 <= k < |s| ==> s[k] != c
    ensures LastIndexOf(s, c) == -1
  {
  }

  /**
   * `posixpath.splitext(p)`: split at the last '.' after the last '/', unless
   * everything between that '/' and that '.' is a dot (a leading-dot name such as
   * `.bashrc` has no extension).
   */
  function SplitExt(p: string): (r: SplitPath)
    ensures r.root + r.ext == p
    ensures r.ext == [] || r.ext[0] == '.'
    ensures forall k :: 0 < k < |r.ext| ==> r.ext[k] != '.' && r.ext[k] != '/'
  {
    var sepIndex := LastIndexOf(p, '/');
    var dotIndex := LastIndexOf(p, '.');
    if dotIndex > sepIndex && exists k :: sepIndex < k < dotIndex && p[k] != '.' then
      SplitPath(p[..dotIndex], p[dotIndex..])
    else
      SplitPath(p, [])
  }

  /**
   * Independent description of where an extension starts: a '.' with neither
   * '.' nor '/' after it, preceded in its own path component by some other character.
   */
  ghost predicate ExtensionAt(p: string, d: int)
  {
    && 0 <= d < |p| && p[d] == '.'
    && (forall k :: d < k < |p| ==> p[k] != '.' && p[k] != '/')
    && (exists j :: 0 <= j < d && p[j] != '.' && p[j] != '/' &&
          forall k :: j < k < d ==> p[k] != '/')
  }

  /** `SplitExt` splits exactly at an extension start, and finds one whenever there is one. */
  lemma SplitExtMeaning(p: string)
    ensures SplitExt(p).ext != [] <==> exists d :: ExtensionAt(p, d)
    ensures forall d :: ExtensionAt(p, d) ==> SplitExt(p) == SplitPath(p[..d], p[d..])
  {
    var sepIndex := LastIndexOf(p, '/');
    var dotIndex := LastIndexOf(p, '.');
    if SplitExt(p).ext != [] {
      var k :| sepIndex < k < dotIndex && p[k] != '.';
      assert ExtensionAt(p, dotIndex);
    }
    forall d | ExtensionAt(p, d)
      ensures SplitExt(p) == SplitPath(p[..d], p[d..])
    {
      LastIndexOfAt(p, '.', d);
      var j :| 0 <= j < d && p[j] != '.' && p[j] != '/' && forall k :: j < k < d ==> p[k] != '/';
      assert sepIndex < j;
    }
  }

  /**
   * `posixpath.join(a, b)`: `b` itself when it is absolute, otherwise `a`
   * followed by `b`, with one '/' put between them when `a` is non-empty and
   * does not already end in one.
   */
  function Join(a: string, b: string): (r: string)
    ensures |b| > 0 && b[0] == '/' ==> r == b
    ensures !(|b| > 0 && b[0] == '/') ==>
      && |a| + |b| <= |r| <= |a| + |b| + 1
      && r[..|a|] == a && r[|r| - |b|..] == b
      && (|r| == |a| + |b| <==> a == [] || a[|a| - 1] == '/')
      && (|r| == |a| + |b| + 1 ==> r[|a|] == '/')
  {
    if |b| > 0 && b[0] == '/' then b
    else if a == [] || a[|a| - 1] == '/' then a + b
    else a + "/" + b
  }

  /** The stem and extension `resize_image` takes from `path` (main.py:18-19). */
  function StemAndExt(path: string): (r: SplitPath)
    ensures r.root + r.ext == Basename(path)
  {
    SplitExt(Basename(path))
  }

  /** The output file name `f"{name}_resized{ext}"` (main.py:20). */
  function OutputName(path: string): (r: string)
    ensures NoSlash(r)
    ensures |r| >= |Suffix|
  {
    var s := StemAndExt(path);
    NoSlashAppend(s.root, s.ext);
    SuffixChars();
    NoSlashAppend(s.root, Suffix);
    NoSlashAppend(s.root + Suffix, s.ext);
    s.root + Suffix + s.ext
  }

  /** The output path `os.path.join(output_folder, ...)` (main.py:20). */
  function OutputPath(outputFolder: string, path: string): (r: string)
    ensures |outputFolder| + |OutputName(path)| <= |r| <= |outputFolder| + |OutputName(path)| + 1
    ensures r[..|outputFolder|] == outputFolder
    ensures r[|r| - |OutputName(path)|..] == OutputName(path)
    ensures |r| == |outputFolder| + |OutputName(path)| <==>
      outputFolder == [] || outputFolder[|outputFolder| - 1] == '/'
    ensures |r| == |outputFolder| + |OutputName(path)| + 1 ==> r[|outputFolder|] == '/'
  {
    var name := OutputName(path);
    SuffixChars();
    assert name[0] != '/';
    Join(outputFolder, name)
  }

  /** The output file sits directly in the output folder: its base name is `OutputName`. */
  lemma {:induction false} OutputPathInFolder(outputFolder: string, path: string)
    ensures Basename(OutputPath(outputFolder, path)) == OutputName(path)
  {
    var a, name := outputFolder, OutputName(path);
    var r := OutputPath(outputFolder, path);
    SuffixChars();
    assert |name| > 0 && name[0] != '/';
    var dir := r[..|r| - |name|];
    assert r == dir + name;
    if a == [] || a[|a| - 1] == '/' {
      assert dir == r[..|a|];
    } else {
      assert dir[|dir| - 1] == r[|a|];
    }
    BasenameOfJoined(dir, name);
  }

  /** Inserting the suffix before an extension keeps that extension. */
  lemma SuffixKeepsExtension(root: string, ext: string)
    requires ExtensionAt(root + ext, |root|)
    ensures ExtensionAt(root + Suffix + ext, |root| + |Suffix|)
  {
    var n, out := root + ext, root + Suffix + ext;
    var e := |root| + |Suffix|;
    SuffixChars();
    assert out[e] == '.';
    assert forall k :: e < k < |out| ==> out[k] == n[k - |Suffix|];
    assert out[|root|] == '_';
    assert forall k :: |root| < k < e ==> out[k] == Suffix[k - |root|];
  }

  /** An extension start in the suffixed name was one already in the name. */
  lemma ExtensionBeforeSuffix(n: string, d: int)
    requires ExtensionAt(n + Suffix, d)
    ensures ExtensionAt(n, d)
  {
    var out := n + Suffix;
    SuffixChars();
    assert forall k :: |n| <= k < |out| ==> out[k] == Suffix[k - |n|];
    assert d < |n|;
    assert forall k :: 0 <= k < |n| ==> out[k] == n[k];
    var j :| 0 <= j < d && out[j] != '.' && out[j] != '/' && forall k :: j < k < d ==> out[k] != '/';
    assert n[j] != '.' && n[j] != '/' && forall k :: j < k < d ==> n[k] != '/';
  }

  /** Appending the suffix to a name without an extension does not create one. */
  lemma SuffixAddsNoExtension(n: string)
    requires forall d :: !ExtensionAt(n, d)
    ensures forall d :: !ExtensionAt(n + Suffix, d)
  {
    forall d | ExtensionAt(n + Suffix, d)
      ensures ExtensionAt(n, d)
    {
      ExtensionBeforeSuffix(n, d);
    }
  }

  /**
   * Splitting the output name again gives back the source's extension and the
   * suffixed stem: the output keeps the input's extension, case and all.
   */
  lemma {:induction false} OutputNameSplits(path: string)
    ensures SplitExt(OutputName(path)) == SplitPath(StemAndExt(path).root + Suffix, StemAndExt(path).ext)
  {
    var n := Basename(path);
    var s := StemAndExt(path);
    var out := OutputName(path);
    var stem := s.root + Suffix;
    SplitExtMeaning(n);
    SplitExtMeaning(out);
    if s.ext != [] {
      var d :| ExtensionAt(n, d);
      assert d == |s.root|;
      SuffixKeepsExtension(s.root, s.ext);
      assert out[..|stem|] == stem && out[|stem|..] == s.ext;
    } else {
      assert out == n + Suffix;
      SuffixAddsNoExtension(n);
    }
  }

  /**
   * Two inputs are written to the same output path exactly when their base names
   * coincide: the naming never merges different names, and inputs from different
   * folders with one base name overwrite each other.
   */
  lemma {:induction false} OutputCollision(outputFolder: string, p1: string, p2: string)
    ensures OutputPath(outputFolder, p1) == OutputPath(outputFolder, p2) <==> Basename(p1) == Basename(p2)
  {
    if OutputPath(outputFolder, p1) == OutputPath(outputFolder, p2) {
      OutputPathInFolder(outputFolder, p1);
      OutputPathInFolder(outputFolder, p2);
      OutputNameInjective(p1, p2);
    }
  }

  /** Different base names never give the same output name. */
  lemma {:induction false} OutputNameInjective(p1: string, p2: string)
    ensures OutputName(p1) == OutputName(p2) ==> Basename(p1) == Basename(p2)
  {
    if OutputName(p1) != OutputName(p2) {
      return;
    }
    OutputNameSplits(p1);
    OutputNameSplits(p2);
    var s1, s2 := StemAndExt(p1), StemAndExt(p2);
    assert s1.root + Suffix == s2.root + Suffix;
    assert s1.root == (s1.root + Suffix)[..|s1.root|];
    assert s1.root == s2.root;
  }

  /** A leading-dot name has no extension. */
  lemma LeadingDotExample()
    ensures SplitExt(".bashrc") == SplitPath(".bashrc", "")
  {
    LastIndexOfNone(".bashrc", '/');
    LastIndexOfAt(".bashrc", '.', 0);
  }

  /** Of a double extension only the last part is the extension. */
  lemma DoubleExtensionExample()
    ensures SplitExt("archive.tar.gz") == SplitPath("archive.tar", ".gz")
  {
    LastIndexOfNone("archive.tar.gz", '/');
    LastIndexOfAt("archive.tar.gz", '.', 11);
    assert "archive.tar.gz"[0] != '.';
  }

  lemma PhotoBasename()
    ensures Basename("/in/photo.JPG") == "photo.JPG"
  {
    LastIndexOfAt("/in/photo.JPG", '/', 3);
  }

  lemma PhotoSplit()
    ensures SplitExt("photo.JPG") == SplitPath("photo", ".JPG")
  {
    LastIndexOfNone("photo.JPG", '/');
    LastIndexOfAt("photo.JPG", '.', 5);
    assert "photo.JPG"[0] != '.';
  }

  lemma PhotoOutputName()
    ensures OutputName("/in/photo.JPG") == "photo_resized.JPG"
  {
    PhotoBasename();
    PhotoSplit();
    assert StemAndExt("/in/photo.JPG") == SplitPath("photo", ".JPG");
    assert "photo" + Suffix + ".JPG" == "photo_resized.JPG";
  }

  lemma PhotoJoin()
    ensures Join("/out", "photo_resized.JPG") == "/out/photo_resized.JPG"
  {
    assert "/out" + "/" + "photo_resized.JPG" == "/out/photo_resized.JPG";
  }

  /** `photo.JPG` under `/in` becomes `photo_resized.JPG` under `/out`. */
  lemma PhotoExample()
    ensures OutputPath("/out", "/in/photo.JPG") == "/out/photo_resized.JPG"
  {
    PhotoOutputName();
    PhotoJoin();
  }
}
