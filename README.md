# Batch Image Resizer — a Dafny model of its core

The Batch Image Resizer is a small Tk application (`main.py`). It resizes every image in a folder, or a hand-picked set of files, to one target size, writes each result next to the others in an output folder as `<stem>_resized<ext>`, and moves a progress bar as it goes. This project models the non-GUI part of `main.py`:

- `geometry.dfy` (module `Geometry`): `resize_and_crop`, the "crop to fill" geometry. The source is resized so that it covers the target, and then the centred target-sized box is cut out of it.
- `pathnames.dfy` (module `PathNames`): how `resize_image` derives the output path with `os.path.basename`, `os.path.splitext` and `os.path.join`, following CPython's `posixpath` rules (the module `os.path` names on POSIX systems).
- `transform.dfy` (module `Transform`): `resize_image`. It covers:
  - the precedence of the two check boxes (crop first, then keep-aspect, else stretch);
  - the PIL calls made, with their sizes, recorded as a `Plan`;
  - the conversion of every exception into `None`.
- `batch.dfy` (module `Batch`): the extension filter of `process_images`, and the loop shared by `process_images` and `start_resize_selected`. That loop calls `resize_image` per path, sets the progress bar to `(i / total) * 100` after each one, and ends with the message `Resized {total} images!`. The progress bar is a class, `ProgressBar`, whose `value` the loop updates in place. A ghost `history` field records every value it was given.
- `wrappers.dfy`: the `Option` type used for Python's `None`.

Foreign calls are inputs of the model: decoding a file with PIL, its size, and whether `save` succeeds. For each path in the batch, an `ItemIO` value says whether `Image.open` succeeds and with what size, and whether `img.save` returns normally. The Python code compares floating-point aspect ratios. The model compares them exactly, by cross-multiplication. `int(...)` of a positive ratio product becomes integer division.

Some facts about `main.py` that the model keeps:

- `main.py` has no brightness stage. The suffix is always the literal `_resized` (main.py:20).
- An empty folder still shows `Resized 0 images!` (main.py:32-38); the loop simply runs zero times.
- The count in the message is the number of paths attempted, not the number saved (main.py:38, main.py:96).
- A failing file is only printed (main.py:24); nothing counts the failures.
- Only `start_resize_selected` returns early on an empty selection (main.py:73-74).

## Model

| member | source | states |
|---|---|---|
| Geometry.CoverSize | main.py:101-112 | When the source is strictly wider than the target, the cover height is the target height and the width is the truncated product of the ratio and the target height. Otherwise the cover width is the target width and the height is truncated the same way. Both sides are at least the target's. |
| Geometry.CenteredBox | main.py:117-120 | The crop box has exactly the target's size and lies inside the cover. The left margin equals the right one or is one less, and the same holds for top and bottom (floor division by 2). |
| Geometry.CenteredBoxUnique | main.py:117-120 | Any box of the target's size whose margins satisfy those two conditions is the box `CenteredBox` computes. |
| Geometry.ResizeAndCrop | main.py:99-123 | The cover is `CoverSize` and the box is `CenteredBox` of that cover. The result is a cover at least the target plus a box of exactly the target size inside it. A wider source is cropped only horizontally (top 0, bottom = target height). Any other source is cropped only vertically (left 0, right = target width). |
| Geometry.ScaledSourceSameCrop | main.py:101-112 | Only the aspect ratio of the source matters: scaling both source sides by `k > 0` gives the same cover and box. |
| Geometry.EqualRatioNoCrop | main.py:109-112 | A source with exactly the target's ratio takes the "taller (or equal ratio)" branch. It is resized straight to the target and the box is the whole image. |
| Geometry.WideSourceExample | main.py:99-123 | 200x100 to 100x100 resizes to 200x100 and crops (50, 0, 150, 100). |
| Geometry.OddSurplusExample | main.py:117-120 | 301x100 to 100x100 crops (100, 0, 200, 100): the odd extra pixel goes to the right. |
| PathNames.SuffixChars | main.py:20 | The inserted `_resized` holds no '.' and no '/'. |
| PathNames.LastIndexOf | main.py:18-19 | Returns the last index holding the character, or -1 when there is none. |
| PathNames.LastIndexOfAt | main.py:18-19 | An occurrence with no later occurrence is the one `LastIndexOf` returns. |
| PathNames.LastIndexOfNone | main.py:18-19 | A string without the character gives -1. |
| PathNames.NoSlashAppend | main.py:20 | A concatenation has no '/' exactly when neither part has one. |
| PathNames.Basename | main.py:18 | `os.path.basename` is the suffix of the path without '/', and it is preceded by a '/' whenever it is not the whole path. |
| PathNames.BasenameOfJoined | main.py:18 | A name without '/' after a directory prefix ending in '/' (or after no prefix) is its own base name. |
| PathNames.SplitExt | main.py:19 | `os.path.splitext`: stem + extension is the input, and the extension is empty or a '.' followed by neither '.' nor '/'. |
| PathNames.SplitExtMeaning | main.py:19 | An extension is split off exactly when some '.' has no '.' or '/' after it and some other character before it in the same component. The split is then at that '.'. |
| PathNames.Join | main.py:20 | `os.path.join`: an absolute second part is returned as is. Otherwise the result starts with the folder and ends with the name, with at most one '/' added between them. |
| PathNames.StemAndExt | main.py:18-19 | The stem and extension put back together give the base name of the input path. |
| PathNames.OutputName | main.py:18-20 | The output file name holds no '/', so it always stays inside the output folder. |
| PathNames.OutputPathInFolder | main.py:18-20 | The base name of the output path is `<stem>_resized<ext>`: the file is written directly into the output folder. |
| PathNames.SuffixKeepsExtension | main.py:20 | Inserting `_resized` before an extension keeps that extension where `splitext` finds it. |
| PathNames.ExtensionBeforeSuffix | main.py:20 | Any extension start found in `name + "_resized"` lies inside `name`, where it is also an extension start. |
| PathNames.SuffixAddsNoExtension | main.py:20 | Appending `_resized` to a name without an extension does not create one. |
| PathNames.OutputNameSplits | main.py:18-20 | Splitting the output name again yields the original stem with `_resized` appended and the original extension, with its case unchanged. |
| PathNames.OutputPath | main.py:20 | The output path is the output folder, then one '/' exactly when the folder is non-empty and does not already end in '/', then the output name. |
| PathNames.OutputNameInjective | main.py:18-20 | Equal output names come only from equal base names. |
| PathNames.OutputCollision | main.py:18-20 | Two inputs get the same output path exactly when their base names are equal, so files of the same name from different folders overwrite each other. |
| PathNames.LeadingDotExample | main.py:19 | `.bashrc` has no extension. |
| PathNames.DoubleExtensionExample | main.py:19 | `archive.tar.gz` splits as `archive.tar` and `.gz`. |
| PathNames.PhotoBasename | main.py:18 | The base name of `/in/photo.JPG` is `photo.JPG`. |
| PathNames.PhotoSplit | main.py:19 | `photo.JPG` splits as `photo` and `.JPG`. |
| PathNames.PhotoOutputName | main.py:18-20 | `/in/photo.JPG` is saved under the name `photo_resized.JPG`. |
| PathNames.PhotoJoin | main.py:20 | Joining `/out` and `photo_resized.JPG` inserts one '/'. |
| PathNames.PhotoExample | main.py:18-20 | `/in/photo.JPG` with output folder `/out` is saved as `/out/photo_resized.JPG`. |
| Transform.SelectMode | main.py:11-16 | Crop-to-fill exactly when "crop" is set, keep-aspect exactly when only "keep aspect" is set, and stretch exactly when neither is set. |
| Transform.PlanFor | main.py:11-16 | The plan fails exactly in crop mode with a zero-sized source (ZeroDivisionError in main.py:101/112). Crop mode plans the `ResizeAndCrop` geometry, keep-aspect plans `thumbnail` bounded by the target, and stretch plans `resize` to the target. In crop and stretch modes the saved size is the target. |
| Transform.ResizeImage | main.py:8-25 | Returns a path exactly when the file decodes, the save succeeds and, in crop mode, the source has no zero side; otherwise it returns None. The path returned is the derived output path. The plan follows the mode precedence with the crop geometry above. Crop and stretch save exactly the target size; keep-aspect saves a thumbnail bounded by the target. |
| Transform.CropOverridesKeepAspect | main.py:11-14 | With "crop" set, the "keep aspect" box makes no difference to the outcome. |
| Transform.CropExample | main.py:8-25 | A 200x100 `/in/photo.JPG` cropped to 100x100 is resized to 200x100, cropped at (50, 0, 150, 100) and saved as `/out/photo_resized.JPG`. |
| Batch.Lower | main.py:30 | Lower-casing keeps the length. |
| Batch.LowerTail | main.py:30 | Lower-casing a tail of the path gives the same tail of the lower-cased path. |
| Batch.IsImagePath | main.py:30 | `p.lower().endswith(...)` over the five accepted extensions. |
| Batch.ImagePathByTail | main.py:30 | A path is an image path exactly when its last 4 or 5 characters, lower-cased, spell an accepted extension; nothing before them matters. |
| Batch.FilterImagePaths | main.py:30 | The filtered listing is never longer than the listing. |
| Batch.FilterCounts | main.py:30 | Keeps every image path as often as it occurs in the listing and drops every other path. |
| Batch.FilterAppend | main.py:30 | The filter distributes over concatenation, so it keeps the listing's order. |
| Batch.FilterSingle | main.py:30 | A single path is kept exactly when its lower-cased form ends in an accepted extension. |
| Batch.LowerAppend | main.py:30 | Lower-casing distributes over concatenation. |
| Batch.AnyCaseOfExtensionKept | main.py:30 | A name ending in any capitalisation of `.jpg`, `.jpeg`, `.png`, `.bmp` or `.gif` is kept. |
| Batch.TextFileDropped | main.py:30 | `/in/notes.txt` is dropped. |
| Batch.Progress | main.py:35 | `(i / total) * 100` is the percentage: times `total` it gives `100 * i`. It is positive after the first item and at most 100 up to the last. |
| Batch.ProgressTrace | main.py:33-35 | The loop gives the bar one value per item. |
| Batch.ProgressRises | main.py:33-35 | The progress values rise strictly, lie in (0, 100] and end at exactly 100. |
| Batch.ProgressComplete | main.py:35 | After the last item the progress is 100. |
| Batch.TraceStep | main.py:33-35 | Each iteration appends the next progress value to those before it. |
| Batch.ProgressBar.constructor | main.py:147 | A new `ttk.Progressbar` stands at 0 and has been given no value yet. |
| Batch.ProgressBar.SetValue | main.py:35 | Sets the bar's value and records it after the earlier ones. |
| Batch.Decimal | main.py:38 | `str(total)`: at least one decimal digit, and a leading '0' only in the one-digit text "0". |
| Batch.DecimalRoundTrip | main.py:38 | Reading the digits back gives the count. |
| Batch.DoneMessage | main.py:38 | The message is `Resized `, then exactly `str(total)`, then ` images!`. Reading those digits back gives the count. |
| Batch.EmptyBatchMessage | main.py:32-38 | A folder with no image files still ends with exactly `Resized 0 images!`. |
| Batch.DoneMessageNamesCount | main.py:38 | Different counts give different completion messages. |
| Batch.ResizeEach | main.py:32-34 | One outcome per path; item `k`'s outcome is `resize_image` on path `k` with its own I/O, the reference for the loops. |
| Batch.ResizeEachOutcomes | main.py:8-25 | Item `k` is saved exactly when its own file decodes, its own save succeeds and, when cropping, its own size has no zero side. It is then saved under path `k`'s output path, so a failing item affects no other. |
| Batch.ResizeAll | main.py:32-38 | After the loop, item `k`'s outcome is `resize_image` on path `k` with its own I/O, so a failure never stops the loop or changes another item. The bar has received exactly the progress sequence and ends at 100, or is untouched for no paths. The message names the number of paths attempted. |
| Batch.ProcessImages | main.py:28-38 | Runs the loop on the filtered listing: outcomes, progress history, final value and message as for `ResizeAll` on the image paths. |
| Batch.StartResize | main.py:59-62 | The bar is first reset to 0, then `process_images` runs. The final value is 0 for a folder without images and 100 otherwise. |
| Batch.ResizeSelected | main.py:73-96 | An empty selection changes nothing and shows no message. Otherwise the loop runs over the selection as given, without filtering and without resetting the bar, and the message names its length. |

## Left out

- The Tk user interface (dialogs, check boxes, the window layout), `messagebox` and `root.update_idletasks()` are not modelled. The message is returned as a string instead of being shown.
- `glob.glob(os.path.join(input_folder, "*.*"))` is a directory listing. Its result is a parameter (`listed`) of `ProcessImages` and `StartResize`.
- The choice of folders and sizes in `start_resize` and `start_resize_selected` (main.py:41-57, main.py:65-86) is not modelled. The early returns when a dialog is cancelled or a size is zero happen before any batch work; only the empty-selection return (main.py:73-74) is modelled.
- Geometry.ResizeAndCrop: the model computes the ratio comparison and the `int(...)` truncations exactly, while Python computes `img_ratio` as a rounded double. Whenever the exact product in main.py:108 or the exact quotient in main.py:112 is an integer, the double result can fall just below it, and `int` then gives one pixel less than the model. This happens for ratios far apart: 13x3 cropped to 27x27 gives a cover width of 116 in Python (box left 44) and 117 in the model (box left 45), and 3x17 cropped to 21x1 gives a cover height of 118 in Python and 119 in the model. For a source with exactly the target's ratio, this can make the cover one pixel smaller than the target in Python. The box then reaches outside the cover: 3x59 to 3x59 gives a 3x58 cover and a box from -1 to 58, which Geometry.EqualRatioNoCrop does not reflect. The branch taken at main.py:105 agrees with the model for image-sized integers: equal ratios give equal doubles, and different ratios of such sizes stay apart after rounding.
- Batch.Progress: progress values are exact reals, not IEEE doubles.
- Transform.ResizeImage: `thumbnail` picks its own size within the bound; the model records only the bound it is given. Pixel data, resampling (LANCZOS) and the encoders are not modelled.
- Transform.ResizeImage: the target size is required to be positive. Negative sizes entered in the dialog reach PIL, and what PIL then does is not part of this model.
- Transform.ResizeImage: exceptions raised by PIL inside `resize`, `thumbnail` or `crop` for a decodable image are not modelled. Only decoding, the zero-size division and saving can fail.
- Batch.ResizeAll: `crop_var.get()` is read again for every item in the source. The model reads it once, which is the same unless the box is toggled during a batch.
- PathNames.OutputPath: the name derivation follows CPython's `posixpath` (POSIX systems). On Windows `os.path` is `ntpath`, which also splits at '\\', handles drive letters and joins with '\\'; that variant is not modelled.
- Batch.ResizeAll: the failure message printed by `resize_image` (main.py:24) is not modelled.
- Batch.Lower: only ASCII letters are lower-cased, where Python lower-cases all of Unicode. The filter's verdict is still the same for every name. Each accepted extension is ASCII, and besides 'A'-'Z' only the Kelvin sign (to 'k') and 'İ' (to 'i' plus a combining dot) lower-case to anything containing an ASCII letter. 'k' occurs in no extension. The combining dot matches no extension character, so a window that matches lies wholly after any 'İ'. Such a window is therefore identical in both lower-casings.
