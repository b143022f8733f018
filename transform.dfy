/**
 * `resize_image` (main.py:8-25): open one image, apply the fit mode the two
 * check boxes select, save it under the derived output name, and turn every
 * exception into `None`.
 *
 * PIL's `open`, `resize`, `thumbnail`, `crop` and `save` are foreign calls.
 * The model records which of them are made with which sizes (a `Plan`), and
 * takes the outcome of the file operations (whether the file decodes, and to
 * what size; whether the save succeeds) as an input.
 */
module Transform {
  import opened Wrappers
  import opened Geometry
  import opened PathNames

  /** The fit strategy selected by the "Crop to Fit" and "Keep Aspect Ratio" boxes. */
  datatype FitMode = CropToFill | KeepAspect | Stretch

  /** The PIL calls made on the opened image, with their size arguments. */
  datatype Plan =
    | CoverAndCrop(geometry: CoverCrop)  // resize_and_crop: resize to the cover, then crop
    | Thumbnail(bound: Size)             // img.thumbnail(target_size)
    | Resize(size: Size)                 // img.resize(target_size)

  /** What the file system and the codec do for one path. */
  datatype ItemIO = ItemIO(
    decoded: Option<Size>,  // the size `Image.open` reports, or None when it raises
    saveSucceeds: bool      // whether `img.save` returns normally
  )

  /** A successful call: the path returned and the PIL calls that produced the file. */
  datatype Saved = Saved(outputPath: string, plan: Plan)

  /** Mode precedence of main.py:11-16: crop first, then keep-aspect, else stretch. */
  function SelectMode(keepAspect: bool, cropToFit: bool): (m: FitMode)
    ensures m == CropToFill <==> cropToFit
    ensures m == KeepAspect <==> !cropToFit && keepAspect
    ensures m == Stretch <==> !cropToFit && !keepAspect
  {
    if cropToFit then CropToFill
    else if keepAspect then KeepAspect
    else Stretch
  }

  /**
   * The geometry step of one mode, or None when it raises: `resize_and_crop`
   * divides by the source height (main.py:101) and then by the source ratio
   * (main.py:112), so a zero-sized source raises ZeroDivisionError.
   */
  function PlanFor(mode: FitMode, src: Size, target: Size): (r: Option<Plan>)
    requires Positive(target)
    ensures r.None? <==> mode == CropToFill && !Positive(src)
    ensures r.Some? ==> (r.value.CoverAndCrop? <==> mode == CropToFill)
    ensures r.Some? ==> (r.value.Thumbnail? <==> mode == KeepAspect)
    ensures r.Some? ==> (r.value.Resize? <==> mode == Stretch)
    ensures r.Some? && mode == CropToFill ==> r.value.geometry == ResizeAndCrop(src, target)
    ensures r.Some? && mode != KeepAspect ==> PlannedSize(r.value) == Some(target)
    ensures r.Some? && mode == KeepAspect ==> r.value.bound == target
  {
    match mode
    case CropToFill => if Positive(src) then Some(CoverAndCrop(ResizeAndCrop(src, target))) else None
    case KeepAspect => Some(Thumbnail(target))
    case Stretch => Some(Resize(target))
  }

  /**
   * The size of the saved image when the plan fixes it; `thumbnail` picks its own
   * size within the bound, which the model does not specify.
   */
  function PlannedSize(plan: Plan): Option<Size>
  {
    match plan
    case CoverAndCrop(g) => Some(Size(g.box.right - g.box.left, g.box.bottom - g.box.top))
    case Thumbnail(_) => None
    case Resize(s) => Some(s)
  }

  /**
   * `resize_image`: the output path when the file opens, the geometry does not
   * raise and the save succeeds; None otherwise.  In the crop and stretch modes
   * the saved image is exactly the target size.
   */
  function ResizeImage(path: string, outputFolder: string, target: Size,
                       keepAspect: bool, cropToFit: bool, io: ItemIO): (r: Option<Saved>)
    requires Positive(target)
    ensures r.Some? <==>
      io.decoded.Some? && io.saveSucceeds && (cropToFit ==> Positive(io.decoded.value))
    ensures r.Some? ==> r.value.outputPath == OutputPath(outputFolder, path)
    ensures r.Some? ==> (r.value.plan.CoverAndCrop? <==> cropToFit)
    ensures r.Some? ==> (r.value.plan.Thumbnail? <==> !cropToFit && keepAspect)
    ensures r.Some? && cropToFit ==>
      r.value.plan.geometry == ResizeAndCrop(io.decoded.value, target)
    ensures r.Some? && !r.value.plan.Thumbnail? ==> PlannedSize(r.value.plan) == Some(target)
    ensures r.Some? && r.value.plan.Thumbnail? ==> r.value.plan.bound == target
  {
    match io.decoded
    case None => None
    case Some(src) =>
      match PlanFor(SelectMode(keepAspect, cropToFit), src, target)
      case None => None
      case Some(plan) =>
        if io.saveSucceeds then Some(Saved(OutputPath(outputFolder, path), plan)) else None
  }

  /**
   * The "Crop to Fit" box overrides "Keep Aspect Ratio": with crop set, the
   * other box makes no difference to the outcome.
   */
  lemma CropOverridesKeepAspect(path: string, outputFolder: string, target: Size, io: ItemIO)
    requires Positive(target)
    ensures ResizeImage(path, outputFolder, target, true, true, io)
         == ResizeImage(path, outputFolder, target, false, true, io)
  {
  }

  /**
   * A 200x100 image cropped to 100x100 is resized to 200x100 and cropped at
   * (50, 0, 150, 100), then saved as `/out/photo_resized.JPG`.
   */
  lemma CropExample()
    ensures ResizeImage("/in/photo.JPG", "/out", Size(100, 100), false, true,
                        ItemIO(Some(Size(200, 100)), true))
         == Some(Saved("/out/photo_resized.JPG",
                       CoverAndCrop(CoverCrop(Size(200, 100), Box(50, 0, 150, 100)))))
  {
    PhotoExample();
    WideSourceExample();
  }
}
