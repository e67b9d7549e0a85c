/**
 * The integer geometry of the preprocessing chain: the target size that
 * short_size_resize passes to cv::resize, the four numbers central_crop
 * passes to cv::Rect, and the size of the region the crop yields. Pixel
 * values are not modelled.
 */
module Geometry {
  import opened Wrappers

  /** Width and height in pixels, in the order of cv::Size. */
  datatype Size = Size(width: nat, height: nat)

  /** A cv::Rect: the top-left corner, then the width and the height. */
  datatype Rect = Rect(x: int, y: int, width: int, height: int)

  /** The OpenCV assertions the preprocessing can trip; none is caught, so each ends the process. */
  datatype GeometryError =
    | EmptySource   // cv::resize on an image with no pixels
    | RoiOutside    // Mat::operator()(Rect) with a rectangle not inside the image

  /** The length the short side is resized to. */
  const ShortSide: nat := 256

  /**
   * New (width, height) for short_size_resize: the short side becomes 256
   * and the long side long * 256 / short, truncated; a square becomes
   * 256 x 256. An empty image (what imread returns for a file it cannot
   * read) is rejected by cv::resize.
   */
  function ShortSizeResize(img: Size): (r: Result<Size, GeometryError>)
    ensures r.Failure? <==> img.width == 0 || img.height == 0
    ensures r.Success? && img.width == img.height ==> r.value == Size(ShortSide, ShortSide)
    ensures r.Success? && img.height > img.width ==>
      r.value.width == ShortSide && r.value.height >= ShortSide &&
      r.value.height * img.width <= img.height * ShortSide < (r.value.height + 1) * img.width
    ensures r.Success? && img.width > img.height ==>
      r.value.height == ShortSide && r.value.width >= ShortSide &&
      r.value.width * img.height <= img.width * ShortSide < (r.value.width + 1) * img.height
  {
    if img.width == 0 || img.height == 0 then Failure(EmptySource)
    else if img.height > img.width then
      ScaledSide(img.height, img.width);
      Success(Size(ShortSide, img.height * ShortSide / img.width))
    else if img.height < img.width then
      ScaledSide(img.width, img.height);
      Success(Size(img.width * ShortSide / img.height, ShortSide))
    else
      Success(Size(ShortSide, ShortSide))
  }

  /** The truncated long side is at least 256 and within one pixel of the exact proportion. */
  lemma ScaledSide(long: nat, short: nat)
    requires 0 < short < long
    ensures var q := long * ShortSide / short;
      q >= ShortSide && q * short <= long * ShortSide < (q + 1) * short
  {
    var n := long * ShortSide;
    var q := n / short;
    var m := n % short;
    assert n == q * short + m && 0 <= m < short;
    assert (q + 1) * short == q * short + short;
  }

  /** `n / 2` on a C `int`: division truncates toward zero. */
  function Half(n: int): (h: int)
    ensures n >= 0 ==> 0 <= 2 * h <= n < 2 * h + 2
    ensures n < 0 ==> 2 * h - 2 < n <= 2 * h <= 0
  {
    if n >= 0 then n / 2 else -((-n) / 2)
  }

  /**
   * The rectangle central_crop builds: left_x, top_y, right_x and bottom_y,
   * passed in that order to cv::Rect, whose last two parameters are a width
   * and a height, not a corner.
   */
  function CropRect(img: Size, cropWidth: int, cropHeight: int): (r: Rect)
    ensures r.x + r.width == 2 * (img.width / 2) <= img.width
    ensures r.y + r.height == 2 * (img.height / 2) <= img.height
    ensures 0 <= r.x <==> Half(cropWidth) <= img.width / 2
    ensures 0 <= r.y <==> Half(cropHeight) <= img.height / 2
  {
    var centreY := img.height / 2;
    var centreX := img.width / 2;
    var leftX := centreX - Half(cropWidth);
    var rightX := centreX + Half(cropWidth);
    var topY := centreY - Half(cropHeight);
    var bottomY := centreY + Half(cropHeight);
    Rect(leftX, topY, rightX, bottomY)
  }

  /** The condition under which OpenCV accepts a region of interest of an image. */
  predicate InsideImage(r: Rect, img: Size) {
    0 <= r.x && 0 <= r.width && r.x + r.width <= img.width &&
    0 <= r.y && 0 <= r.height && r.y + r.height <= img.height
  }

  /**
   * Size of the image central_crop leaves: the region of CropRect when it is
   * inside the image. Its width is centre_x + crop_width / 2, not crop_width.
   */
  function CentralCrop(img: Size, cropWidth: int, cropHeight: int): (r: Result<Size, GeometryError>)
    ensures r.Success? <==>
      -(img.width / 2) <= Half(cropWidth) <= img.width / 2 &&
      -(img.height / 2) <= Half(cropHeight) <= img.height / 2
    ensures r.Success? ==>
      r.value == Size(img.width / 2 + Half(cropWidth), img.height / 2 + Half(cropHeight))
  {
    var rect := CropRect(img, cropWidth, cropHeight);
    if InsideImage(rect, img) then Success(Size(rect.width, rect.height))
    else Failure(RoiOutside)
  }

  /** preprocessing without the mean subtraction: resize the short side, then crop to the tensor size. */
  function Preprocess(img: Size, tensorWidth: int, tensorHeight: int): (r: Result<Size, GeometryError>)
    ensures 0 <= tensorWidth <= ShortSide && 0 <= tensorHeight <= ShortSide ==>
      (r.Success? <==> img.width > 0 && img.height > 0)
  {
    match ShortSizeResize(img)
    case Failure(e) => Failure(e)
    case Success(resized) => CentralCrop(resized, tensorWidth, tensorHeight)
  }

  /**
   * After the resize, a crop no larger than 256 x 256 has its corner inside
   * the image and does not run past the right or bottom edge.
   */
  lemma ResizedImageFitsCrop(img: Size, tensorWidth: int, tensorHeight: int)
    requires img.width > 0 && img.height > 0
    requires 0 <= tensorWidth <= ShortSide && 0 <= tensorHeight <= ShortSide
    ensures ShortSizeResize(img).Success?
    ensures var resized := ShortSizeResize(img).value;
      var r := CropRect(resized, tensorWidth, tensorHeight);
      0 <= r.x && 0 <= r.y && r.x + r.width <= resized.width && r.y + r.height <= resized.height
  {
  }

  /**
   * The rectangle central_crop evidently means: the same corners, with the
   * width and height taken as their differences.
   */
  function IntendedCropRect(img: Size, cropWidth: int, cropHeight: int): (r: Rect)
    ensures r.width == 2 * Half(cropWidth) && r.height == 2 * Half(cropHeight)
  {
    var corners := CropRect(img, cropWidth, cropHeight);
    Rect(corners.x, corners.y, corners.width - corners.x, corners.height - corners.y)
  }

  /** central_crop with the intended rectangle. */
  function IntendedCentralCrop(img: Size, cropWidth: int, cropHeight: int): (r: Result<Size, GeometryError>)
    ensures 0 <= cropWidth <= img.width && 0 <= cropHeight <= img.height ==>
      r == Success(Size(2 * (cropWidth / 2), 2 * (cropHeight / 2)))
    ensures r.Success? ==> r.value.width == 2 * Half(cropWidth) && r.value.height == 2 * Half(cropHeight)
  {
    var rect := IntendedCropRect(img, cropWidth, cropHeight);
    if InsideImage(rect, img) then Success(Size(rect.width, rect.height))
    else Failure(RoiOutside)
  }

  /**
   * As written, cropping a 256 x 256 image for a 224 x 224 input tensor
   * yields a 240 x 240 region; the intended crop yields 224 x 224.
   */
  lemma CropAsWrittenIsNotTensorSized()
    ensures CropRect(Size(256, 256), 224, 224) == Rect(16, 16, 240, 240)
    ensures CentralCrop(Size(256, 256), 224, 224) == Success(Size(240, 240))
    ensures IntendedCentralCrop(Size(256, 256), 224, 224) == Success(Size(224, 224))
  {
  }

  /**
   * For an even crop size that fits the image, the intended crop has exactly
   * that size, while the crop as written has it only when the crop is as
   * wide (or as high) as the image's even part.
   */
  lemma {:induction false} CropSizeComparison(img: Size, cropWidth: int, cropHeight: int)
    requires 0 <= cropWidth <= img.width && 0 <= cropHeight <= img.height
    requires cropWidth % 2 == 0 && cropHeight % 2 == 0
    ensures IntendedCentralCrop(img, cropWidth, cropHeight) == Success(Size(cropWidth, cropHeight))
    ensures CentralCrop(img, cropWidth, cropHeight).Success?
    ensures CentralCrop(img, cropWidth, cropHeight).value.width == cropWidth <==> cropWidth == 2 * (img.width / 2)
    ensures CentralCrop(img, cropWidth, cropHeight).value.height == cropHeight <==> cropHeight == 2 * (img.height / 2)
  {
  }
}
