/**
 * The batch driver: the extension filter of `process_images` (main.py:30),
 * the progress loop it shares with `start_resize_selected` (main.py:32-38,
 * main.py:90-96), and the completion message.
 */
module Batch {
  import opened Wrappers
  import opened Geometry
  import opened PathNames
  import opened Transform

  /* ---------- The extension filter (main.py:30) ---------- */

  /** The suffixes `process_images` accepts, after lower-casing the path. */
  const ImageExtensions: seq<string> := [".jpg", ".jpeg", ".png", ".bmp", ".gif"]

  /** `str.lower()` on one character; only 'A'..'Z' can matter for the suffixes above. */
  function LowerChar(c: char): char
  {
    if 'A' <= c <= 'Z' then (c as int + 32) as char else c
  }

  function Lower(s: string): (r: string)
    ensures |r| == |s|
  {
    seq(|s|, i requires 0 <= i < |s| => LowerChar(s[i]))
  }

  predicate EndsWith(s: string, suffix: string)
  {
    |suffix| <= |s| && s[|s| - |suffix|..] == suffix
  }

  /** Lower-casing works character by character, so it commutes with taking a tail. */
  lemma LowerTail(p: string)
    ensures forall j :: 0 <= j <= |p| ==> Lower(p)[j..] == Lower(p[j..])
  {
    forall j | 0 <= j <= |p|
      ensures Lower(p)[j..] == Lower(p[j..])
    {
      assert forall k :: 0 <= k < |p| - j ==> Lower(p)[j..][k] == Lower(p[j..])[k];
    }
  }

  /**
   * `p.lower().endswith((".jpg", ".jpeg", ".png", ".bmp", ".gif"))`
   */
  predicate IsImagePath(p: string)
  {
    exists e :: e in ImageExtensions && EndsWith(Lower(p), e)
  }

  /** Only the last few characters of the path decide, read without regard to case. */
  lemma ImagePathByTail(p: string)
    ensures IsImagePath(p) <==>
      exists e :: e in ImageExtensions && |e| <= |p| && Lower(p[|p| - |e|..]) == e
  {
    LowerTail(p);
  }

  /**
   * The list comprehension of main.py:30: the image paths of `paths`, in their
   * order, each as often as it occurs there, and nothing else.
   */
  function FilterImagePaths(paths: seq<string>): (r: seq<string>)
    ensures |r| <= |paths|
  {
    if paths == [] then []
    else (if IsImagePath(paths[0]) then [paths[0]] else []) + FilterImagePaths(paths[1..])
  }

  /** Each image path is kept as often as it is listed; every other path is dropped. */
  lemma {:induction false} FilterCounts(paths: seq<string>)
    ensures forall p :: multiset(FilterImagePaths(paths))[p] == if IsImagePath(p) then multiset(paths)[p] else 0
  {
    if paths != [] {
      assert paths == [paths[0]] + paths[1..];
      FilterCounts(paths[1..]);
    }
  }

  /** The filter keeps the order of its input: it distributes over concatenation. */
  lemma {:induction false} FilterAppend(a: seq<string>, b: seq<string>)
    ensures FilterImagePaths(a + b) == FilterImagePaths(a) + FilterImagePaths(b)
  {
    if a != [] {
      var head := if IsImagePath(a[0]) then [a[0]] else [];
      assert (a + b)[0] == a[0] && (a + b)[1..] == a[1..] + b;
      assert FilterImagePaths(a + b) == head + FilterImagePaths(a[1..] + b);
      FilterAppend(a[1..], b);
    } else {
      assert a + b == b;
    }
  }

  /** One path on its own is kept exactly when it is an image path. */
  lemma FilterSingle(p: string)
    ensures FilterImagePaths([p]) == if IsImagePath(p) then [p] else []
  {
    assert [p][1..] == [];
  }

  lemma LowerAppend(a: string, b: string)
    ensures Lower(a + b) == Lower(a) + Lower(b)
  {
  }

  /**
   * The comparison ignores case: a name ending in any capitalisation of an
   * accepted extension (`.JPG`, `.Jpeg`, ...) is kept.
   */
  lemma AnyCaseOfExtensionKept(stem: string, ext: string)
    requires Lower(ext) in ImageExtensions
    ensures IsImagePath(stem + ext)
  {
    var lowered := Lower(stem + ext);
    LowerAppend(stem, ext);
    assert lowered[|lowered| - |ext|..] == Lower(ext);
    assert EndsWith(lowered, Lower(ext));
  }

  /** A name with an unrelated extension, or none, is dropped. */
  lemma TextFileDropped()
    ensures !IsImagePath("/in/notes.txt")
  {
    var lowered := Lower("/in/notes.txt");
    assert lowered[|lowered| - 1] == 't';
    forall e | e in ImageExtensions
      ensures !EndsWith(lowered, e)
    {
      assert e[|e| - 1] != 't';
    }
  }

  /* ---------- Progress (main.py:35, main.py:93) ---------- */

  /** `(i / total) * 100` after item `i` (counted from 1) of `total`. */
  function Progress(i: nat, total: nat): (p: real)
    requires 0 < total
    ensures p * total as real == i as real * 100.0
    ensures 0 < i ==> 0.0 < p
    ensures i <= total ==> p <= 100.0
  {
    (i as real / total as real) * 100.0
  }

  /** Every value the loop gives the progress bar, in order. */
  function ProgressTrace(total: nat): (t: seq<real>)
    ensures |t| == total
  {
    seq(total, k requires 0 <= k < total => Progress(k + 1, total))
  }

  /** Dividing by a positive count keeps the order of the numerators. */
  lemma DivOrder(a: real, b: real, n: real)
    requires a < b && n > 0.0
    ensures a / n < b / n
  {
    assert b / n - a / n == (b - a) / n;
  }

  /**
   * The progress bar only moves forward, stays within (0, 100], and stands at
   * 100 after the last item.
   */
  lemma ProgressRises(total: nat)
    ensures forall j, k :: 0 <= j < k < total ==> ProgressTrace(total)[j] < ProgressTrace(total)[k]
    ensures forall k :: 0 <= k < total ==> 0.0 < ProgressTrace(total)[k] <= 100.0
    ensures total > 0 ==> ProgressTrace(total)[total - 1] == 100.0
  {
    var t := ProgressTrace(total);
    var n := total as real;
    forall j, k | 0 <= j < k < total
      ensures t[j] < t[k]
    {
      DivOrder((j + 1) as real, (k + 1) as real, n);
    }
    forall k | 0 <= k < total
      ensures 0.0 < t[k] <= 100.0
    {
      DivOrder(0.0, (k + 1) as real, n);
      if k + 1 < total {
        DivOrder((k + 1) as real, n, n);
      }
      assert n / n == 1.0;
    }
    if total > 0 {
      ProgressComplete(total);
    }
  }

  lemma ProgressComplete(total: nat)
    requires 0 < total
    ensures Progress(total, total) == 100.0
  {
    assert total as real / total as real == 1.0;
  }

  lemma TraceStep(total: nat, i: nat)
    requires 0 < i <= total
    ensures ProgressTrace(total)[..i] == ProgressTrace(total)[..i - 1] + [Progress(i, total)]
  {
  }

  /** The progress bar the loops update (`progress_bar["value"]`). */
  class ProgressBar {
    var value: real
    ghost var history: seq<real>  // every value assigned so far, in order

    constructor ()
      ensures value == 0.0 && history == []
    {
      value := 0.0;
      history := [];
    }

    /** `progress_bar["value"] = v` */
    method SetValue(v: real)
      modifies this
      ensures value == v && history == old(history) + [v]
    {
      value := v;
      history := history + [v];
    }
  }

  /* ---------- The completion message (main.py:38, main.py:96) ---------- */

  function DigitChar(d: nat): char
    requires d < 10
  {
    ('0' as int + d) as char
  }

  predicate IsDigit(c: char)
  {
    '0' <= c <= '9'
  }

  /** `str(n)` for a count: decimal digits, no leading zero. */
  function Decimal(n: nat): (s: string)
    ensures |s| >= 1 && forall k :: 0 <= k < |s| ==> IsDigit(s[k])
    ensures s[0] == '0' ==> n == 0
    ensures |s| > 1 ==> s[0] != '0'
    decreases n
  {
    if n < 10 then [DigitChar(n)] else Decimal(n / 10) + [DigitChar(n % 10)]
  }

  /** Reads a string of decimal digits back as a number. */
  function ParseDecimal(s: string): nat
    requires forall k :: 0 <= k < |s| ==> IsDigit(s[k])
  {
    if s == [] then 0
    else
      assert IsDigit(s[|s| - 1]);
      ParseDecimal(s[..|s| - 1]) * 10 + (s[|s| - 1] as int - '0' as int)
  }

  lemma {:induction false} DecimalRoundTrip(n: nat)
    ensures ParseDecimal(Decimal(n)) == n
    decreases n
  {
    if n >= 10 {
      var s := Decimal(n);
      assert s[..|s| - 1] == Decimal(n / 10);
      DecimalRoundTrip(n / 10);
    }
  }

  /** `f"Resized {total} images!"` */
  function DoneMessage(total: nat): (m: string)
    ensures |m| > 16 && m[..8] == "Resized " && m[|m| - 8..] == " images!"
    ensures forall k :: 8 <= k < |m| - 8 ==> IsDigit(m[k])
    ensures ParseDecimal(m[8..|m| - 8]) == total
    ensures m[8..|m| - 8] == Decimal(total)
  {
    var digits := Decimal(total);
    var m := "Resized " + digits + " images!";
    assert m[8..|m| - 8] == digits;
    DecimalRoundTrip(total);
    m
  }

  /** An empty batch still reports itself, with the count 0. */
  lemma EmptyBatchMessage()
    ensures DoneMessage(0) == "Resized 0 images!"
  {
  }

  /** Different counts give different messages: the message states the count. */
  lemma {:induction false} DoneMessageNamesCount(a: nat, b: nat)
    requires DoneMessage(a) == DoneMessage(b)
    ensures a == b
  {
    var ma, mb := DoneMessage(a), DoneMessage(b);
    assert Decimal(a) == ma[8..|ma| - 8];
    assert Decimal(b) == mb[8..|mb| - 8];
    DecimalRoundTrip(a);
    DecimalRoundTrip(b);
  }

  /** A prefix one longer is the shorter prefix plus the next element. */
  lemma PrefixStep<T>(s: seq<T>, i: nat)
    requires i < |s|
    ensures s[..i + 1] == s[..i] + [s[i]]
  {
  }

  /* ---------- The loops (main.py:32-38, main.py:90-96) ---------- */

  /**
   * What `resize_image` returns for each path in turn, each call with its own
   * file-system outcome: the reference for the loops below.  Item `k`'s outcome
   * depends on path `k` and its own I/O only, so a failing item never affects
   * the others.
   */
  function ResizeEach(paths: seq<string>, outputFolder: string, target: Size,
                      keepAspect: bool, cropToFit: bool, io: seq<ItemIO>): (r: seq<Option<Saved>>)
    requires Positive(target) && |io| == |paths|
    ensures |r| == |paths|
  {
    seq(|paths|, k requires 0 <= k < |paths| => ResizeImage(paths[k], outputFolder, target, keepAspect, cropToFit, io[k]))
  }

  /**
   * Item `k` is saved exactly when its own file decodes, its own save succeeds
   * and, when cropping, its own size has no zero side; it is then saved under
   * the output path of path `k`.
   */
  lemma ResizeEachOutcomes(paths: seq<string>, outputFolder: string, target: Size,
                           keepAspect: bool, cropToFit: bool, io: seq<ItemIO>)
    requires Positive(target) && |io| == |paths|
    ensures forall k :: 0 <= k < |paths| ==>
      var r := ResizeEach(paths, outputFolder, target, keepAspect, cropToFit, io);
      && (r[k].Some? <==> io[k].decoded.Some? && io[k].saveSucceeds && (cropToFit ==> Positive(io[k].decoded.value)))
      && (r[k].Some? ==> r[k].value.outputPath == OutputPath(outputFolder, paths[k]))
  {
  }

  /**
   * The loop shared by both entry points: call `resize_image` on every path in
   * order (its failures come back as None and never stop the loop), set the
   * progress after each one, and report the number of paths, not of successes.
   * `outcomes` holds what each call returned, which the Python code discards.
   */
  method ResizeAll(paths: seq<string>, outputFolder: string, target: Size,
                   keepAspect: bool, cropToFit: bool, io: seq<ItemIO>, bar: ProgressBar)
    returns (outcomes: seq<Option<Saved>>, message: string)
    requires Positive(target) && |io| == |paths|
    modifies bar
    ensures outcomes == ResizeEach(paths, outputFolder, target, keepAspect, cropToFit, io)
    ensures bar.history == old(bar.history) + ProgressTrace(|paths|)
    ensures bar.value == if |paths| == 0 then old(bar.value) else 100.0
    ensures message == DoneMessage(|paths|)
  {
    var total := |paths|;
    ghost var all := ResizeEach(paths, outputFolder, target, keepAspect, cropToFit, io);
    outcomes := [];
    var i := 0;
    while i < total
      invariant 0 <= i <= total
      invariant outcomes == all[..i]
      invariant bar.history == old(bar.history) + ProgressTrace(total)[..i]
      invariant bar.value == if i == 0 then old(bar.value) else Progress(i, total)
    {
      // the enumerate counter starts at 1, so item i is reported as i + 1
      var outcome := ResizeImage(paths[i], outputFolder, target, keepAspect, cropToFit, io[i]);
      assert outcome == all[i];
      PrefixStep(all, i);
      outcomes := outcomes + [outcome];
      bar.SetValue(Progress(i + 1, total));
      TraceStep(total, i + 1);
      i := i + 1;
    }
    assert all[..total] == all;
    assert ProgressTrace(total)[..total] == ProgressTrace(total);
    if total > 0 {
      ProgressComplete(total);
    }
    message := DoneMessage(total);
  }

  /**
   * `process_images` (main.py:28-38) on the paths the directory listing
   * returned: keep the image paths, then run the loop over them.
   */
  method ProcessImages(listed: seq<string>, outputFolder: string, target: Size,
                       keepAspect: bool, cropToFit: bool, io: seq<ItemIO>, bar: ProgressBar)
    returns (outcomes: seq<Option<Saved>>, message: string)
    requires Positive(target) && |io| == |FilterImagePaths(listed)|
    modifies bar
    ensures var paths := FilterImagePaths(listed);
      && outcomes == ResizeEach(paths, outputFolder, target, keepAspect, cropToFit, io)
      && bar.history == old(bar.history) + ProgressTrace(|paths|)
      && bar.value == (if paths == [] then old(bar.value) else 100.0)
      && message == DoneMessage(|paths|)
  {
    var paths := FilterImagePaths(listed);
    outcomes, message := ResizeAll(paths, outputFolder, target, keepAspect, cropToFit, io, bar);
  }

  /**
   * The batch part of `start_resize` (main.py:59-62): reset the progress bar
   * to 0, then `process_images`.
   */
  method StartResize(listed: seq<string>, outputFolder: string, target: Size,
                     keepAspect: bool, cropToFit: bool, io: seq<ItemIO>, bar: ProgressBar)
    returns (outcomes: seq<Option<Saved>>, message: string)
    requires Positive(target) && |io| == |FilterImagePaths(listed)|
    modifies bar
    ensures outcomes == ResizeEach(FilterImagePaths(listed), outputFolder, target, keepAspect, cropToFit, io)
    ensures bar.history == old(bar.history) + [0.0] + ProgressTrace(|FilterImagePaths(listed)|)
    ensures bar.value == if FilterImagePaths(listed) == [] then 0.0 else 100.0
    ensures message == DoneMessage(|FilterImagePaths(listed)|)
  {
    bar.SetValue(0.0);
    outcomes, message := ProcessImages(listed, outputFolder, target, keepAspect, cropToFit, io, bar);
  }

  /**
   * The batch part of `start_resize_selected` (main.py:73-96): nothing happens
   * for an empty selection; otherwise the loop runs over the selected paths
   * as given, without filtering and without resetting the progress bar.
   */
  method ResizeSelected(selected: seq<string>, outputFolder: string, target: Size,
                        keepAspect: bool, cropToFit: bool, io: seq<ItemIO>, bar: ProgressBar)
    returns (outcomes: seq<Option<Saved>>, message: Option<string>)
    requires Positive(target) && |io| == |selected|
    modifies bar
    ensures selected == [] ==>
      message == None && outcomes == [] && bar.history == old(bar.history) && bar.value == old(bar.value)
    ensures selected != [] ==> message == Some(DoneMessage(|selected|))
    ensures selected != [] ==> bar.history == old(bar.history) + ProgressTrace(|selected|)
    ensures selected != [] ==> bar.value == 100.0
    ensures outcomes == ResizeEach(selected, outputFolder, target, keepAspect, cropToFit, io)
  {
    if selected == [] {
      return [], None;
    }
    var done;
    outcomes, done := ResizeAll(selected, outputFolder, target, keepAspect, cropToFit, io, bar);
    message := Some(done);
  }
}
