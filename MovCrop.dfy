/**
 The 9:16 centre crop of crop-mov-to-9-16.js.

 For each video the script reads the frame size and picks one of two
 branches: a frame wider than 9:16 loses equal strips on the left and right
 and keeps its full height; any other frame (an exact 9:16 frame included)
 loses equal strips at the top and bottom and keeps its full width. Every
 quantity is rounded down.

 The script compares `width / height > 9 / 16` in floating point and divides
 with `Math.floor`. For non-negative integers these are the integer test
 `16 * width > 9 * height` and Dafny's `/`; the integer test also agrees with
 the floating-point one when a dimension is zero (Infinity and NaN compare the
 same way), so every natural width and height is accepted.
 */
module MovCrop {
  import Decimal

  /** A crop rectangle: its size and its top-left corner in the source frame. */
  datatype CropRegion = CropRegion(width: nat, height: nat, x: nat, y: nat)

  /** The frame is wider than 9:16 (width / height > 9 / 16). */
  predicate WiderThanPortrait(width: nat, height: nat) {
    16 * width > 9 * height
  }

  predicate InsideFrame(c: CropRegion, width: nat, height: nat) {
    c.x + c.width <= width && c.y + c.height <= height
  }

  /** Left margin and right margin differ by at most one pixel, the right one being the larger; likewise top and bottom. */
  predicate Centred(c: CropRegion, width: nat, height: nat)
    requires InsideFrame(c, width, height)
  {
    var right, bottom := width - c.x - c.width, height - c.y - c.height;
    c.x <= right <= c.x + 1 && c.y <= bottom <= c.y + 1
  }

  function ComputeCrop(width: nat, height: nat): (c: CropRegion)
    ensures InsideFrame(c, width, height)
    ensures Centred(c, width, height)
    // wide frame: full height kept, the width is the widest one not above 9:16
    ensures WiderThanPortrait(width, height) ==>
      c.height == height && c.y == 0 && 16 * c.width <= 9 * c.height < 16 * (c.width + 1)
    // otherwise: full width kept, the height is the tallest one not above 16:9 of it
    ensures !WiderThanPortrait(width, height) ==>
      c.width == width && c.x == 0 && 9 * c.height <= 16 * c.width < 9 * (c.height + 1)
  {
    if WiderThanPortrait(width, height) then
      var cropWidth := height * 9 / 16;
      CropRegion(cropWidth, height, (width - cropWidth) / 2, 0)
    else
      var cropHeight := width * 16 / 9;
      CropRegion(width, cropHeight, 0, (height - cropHeight) / 2)
  }

  /** An exact 9:16 frame is not cropped at all. */
  lemma ExactPortraitIsWholeFrame(width: nat, height: nat)
    requires 16 * width == 9 * height
    ensures ComputeCrop(width, height) == CropRegion(width, height, 0, 0)
  {
  }

  /**
   No 9:16-or-narrower strip of the full height is wider than the wide-branch
   crop, and no 9:16-or-shorter band of the full width is taller than the
   tall-branch crop: the crop removes as little as the rounding allows.
   */
  lemma CropIsLargest(width: nat, height: nat, other: nat)
    ensures var c := ComputeCrop(width, height);
      (WiderThanPortrait(width, height) && 16 * other <= 9 * height ==> other <= c.width) &&
      (!WiderThanPortrait(width, height) && 9 * other <= 16 * width ==> other <= c.height)
  {
  }

  /** The transcoder's filter argument: `crop=W:H:X:Y,scale=1080:1920`. */
  function CropFilter(c: CropRegion): string {
    "crop=" + (Decimal.NatToString(c.width) + [':'] + (Decimal.NatToString(c.height) + [':'] + (Decimal.NatToString(c.x) + [':'] + (Decimal.NatToString(c.y) + [','] + "scale=1080:1920"))))
  }

  /** Distinct crops give distinct filter arguments: the four numbers can be read back. */
  lemma CropFilterInjective(c: CropRegion, d: CropRegion)
    requires CropFilter(c) == CropFilter(d)
    ensures c == d
  {
    var tail := "scale=1080:1920";
    var cy, dy := Decimal.NatToString(c.y) + [','] + tail, Decimal.NatToString(d.y) + [','] + tail;
    var cx, dx := Decimal.NatToString(c.x) + [':'] + cy, Decimal.NatToString(d.x) + [':'] + dy;
    var ch, dh := Decimal.NatToString(c.height) + [':'] + cx, Decimal.NatToString(d.height) + [':'] + dx;
    assert CropFilter(c)[5..] == Decimal.NatToString(c.width) + [':'] + ch;
    assert CropFilter(d)[5..] == Decimal.NatToString(d.width) + [':'] + dh;
    Decimal.NumberThenSeparator(c.width, d.width, ':', ch, dh);
    Decimal.NumberThenSeparator(c.height, d.height, ':', cx, dx);
    Decimal.NumberThenSeparator(c.x, d.x, ':', cy, dy);
    Decimal.NumberThenSeparator(c.y, d.y, ',', tail, tail);
  }

  /** A landscape 1920x1080 video: keep a 607x1080 strip starting 656 pixels from the left. */
  lemma LandscapeHdCrop()
    ensures ComputeCrop(1920, 1080) == CropRegion(607, 1080, 656, 0)
  {
  }

  /** ... which the script hands to the transcoder as `crop=607:1080:656:0`. */
  lemma LandscapeHdFilter()
    ensures CropFilter(CropRegion(607, 1080, 656, 0)) == "crop=607:1080:656:0,scale=1080:1920"
  {
    LandscapeHdDigits();
  }

  lemma LandscapeHdDigits()
    ensures Decimal.NatToString(607) == "607" && Decimal.NatToString(1080) == "1080"
    ensures Decimal.NatToString(656) == "656" && Decimal.NatToString(0) == "0"
  {
    assert Decimal.NatToString(60) == "60";
    assert Decimal.NatToString(108) == "108" by { assert Decimal.NatToString(10) == "10"; }
    assert Decimal.NatToString(65) == "65";
  }
}
