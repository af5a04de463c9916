/**
 The geometry of process.js: every thumbnail becomes a 1080x1920 portrait
 canvas holding a blurred, full-bleed copy of the picture with the whole
 picture scaled to fit ("contain") and centred on top of it.

 `Math.round(a * (b / c))` is modelled as exact rational rounding with halves
 rounded up, `(2 * a * b + c) / (2 * c)`; `Math.floor(n / 2)` is Dafny's `/`
 by 2, which rounds towards minus infinity like `Math.floor`.
 */
module PortraitThumbnail {

  const PortraitWidth: nat := 1080
  const PortraitHeight: nat := 1920

  /** A raster size in pixels. */
  datatype Size = Size(width: nat, height: nat)

  /** Where an image of a given size is placed on the canvas (its top-left corner). */
  datatype Layer = Layer(left: int, top: int, size: Size)

  /** A flattened output: a canvas and the layers drawn on it, bottom first. */
  datatype Composite = Composite(canvas: Size, layers: seq<Layer>)

  // ---------------------------------------------------------------------------
  // getTargetSize: classify the aspect ratio width / height
  // ---------------------------------------------------------------------------

  const UltraWide := Size(2048, 1024)
  const Landscape := Size(1792, 1024)
  const NearSquare := Size(1280, 1280)
  const Portrait := Size(1024, 1536)

  /**
   The size class of a picture: ratio > 2, ratio > 1.5, ratio > 1, anything
   else. The floating-point tests on width / height are the integer tests
   below; with a zero height (ratio Infinity, or NaN for 0/0) they still agree.
   */
  function TargetSize(width: nat, height: nat): (t: Size)
    ensures t in {UltraWide, Landscape, NearSquare, Portrait}
  {
    if width > 2 * height then UltraWide
    else if 2 * width > 3 * height then Landscape
    else if width > height then NearSquare
    else Portrait
  }

  /** Each of the four sizes is chosen exactly on its band of aspect ratios. */
  lemma TargetSizeBands(width: nat, height: nat)
    ensures TargetSize(width, height) == UltraWide <==> width > 2 * height
    ensures TargetSize(width, height) == Landscape <==> 2 * width > 3 * height && width <= 2 * height
    ensures TargetSize(width, height) == NearSquare <==> width > height && 2 * width <= 3 * height
    ensures TargetSize(width, height) == Portrait <==> width <= height
  {
  }

  lemma MulLeft(k: nat, x: nat, y: nat)
    requires x <= y
    ensures k * x <= k * y
  {
  }

  /** If width1 / height1 <= width2 / height2 and width1 / height1 > p / q, then width2 / height2 > p / q. */
  lemma RatioAboveIsUpwardClosed(width1: nat, height1: nat, width2: nat, height2: nat, p: nat, q: nat)
    requires height1 > 0 && height2 > 0
    requires width1 * height2 <= width2 * height1
    requires q * width1 > p * height1
    ensures q * width2 > p * height2
  {
    if q * width2 <= p * height2 {
      MulLeft(height1, q * width2, p * height2);
      MulLeft(q, width1 * height2, width2 * height1);
      MulLeft(height2, p * height1 + 1, q * width1);
      assert false;
    }
  }

  /**
   A wider picture never gets a narrower target: the classification is
   monotone in the aspect ratio (compared as fractions).
   */
  lemma TargetSizeMonotone(width1: nat, height1: nat, width2: nat, height2: nat)
    requires height1 > 0 && height2 > 0
    requires width1 * height2 <= width2 * height1
    ensures var t1, t2 := TargetSize(width1, height1), TargetSize(width2, height2);
      t1.width * t2.height <= t2.width * t1.height
  {
    if width1 > 2 * height1 {
      RatioAboveIsUpwardClosed(width1, height1, width2, height2, 2, 1);
    } else if 2 * width1 > 3 * height1 {
      RatioAboveIsUpwardClosed(width1, height1, width2, height2, 3, 2);
    } else if width1 > height1 {
      RatioAboveIsUpwardClosed(width1, height1, width2, height2, 1, 1);
    }
  }

  // ---------------------------------------------------------------------------
  // Contain fit on the 1080x1920 canvas
  // ---------------------------------------------------------------------------

  /** `Math.round(a * (b / c))`: the integer nearest to a * b / c, halves rounded up. */
  function RoundedScale(a: nat, b: nat, c: nat): (r: nat)
    requires c > 0
    ensures c * (2 * r) <= 2 * a * b + c < c * (2 * r) + 2 * c
  {
    (2 * a * b + c) / (2 * c)
  }

  /** The width-bound height is too tall: then the height-bound width is at most the canvas width. */
  lemma HeightBoundWidthFits(width: nat, height: nat)
    requires width > 0 && height > 0
    requires RoundedScale(height, PortraitWidth, width) > PortraitHeight
    ensures RoundedScale(width, PortraitHeight, height) <= PortraitWidth
  {
    var byWidth := RoundedScale(height, PortraitWidth, width);
    var r := RoundedScale(width, PortraitHeight, height);
    MulLeft(width, 2 * 1921, 2 * byWidth);
    // so the picture is taller than 3841:2160
    assert 3841 * width <= 2160 * height;
    if r > PortraitWidth {
      MulLeft(height, 2 * 1081, 2 * r);
      // and yet no taller than 3840:2161
      assert false;
    }
  }

  /**
   The scaled size of the main picture: width 1080 first; if the height that
   goes with it exceeds 1920, height 1920 and the width that goes with it.
   The picture fits the canvas and touches it on at least one axis.
   */
  function ScaleToFit(width: nat, height: nat): (s: Size)
    requires width > 0 && height > 0
    ensures s.width <= PortraitWidth && s.height <= PortraitHeight
    ensures RoundedScale(height, PortraitWidth, width) <= PortraitHeight ==> s.width == PortraitWidth
    ensures RoundedScale(height, PortraitWidth, width) > PortraitHeight ==> s.height == PortraitHeight
  {
    var scaledHeight := RoundedScale(height, PortraitWidth, width);
    if scaledHeight > PortraitHeight then
      HeightBoundWidthFits(width, height);
      Size(RoundedScale(width, PortraitHeight, height), PortraitHeight)
    else
      Size(PortraitWidth, scaledHeight)
  }

  /**
   Scaling keeps the aspect ratio up to rounding: the derived side is within
   half a pixel of the exact proportional length.
   */
  lemma ScaleToFitKeepsAspect(width: nat, height: nat)
    requires width > 0 && height > 0
    ensures var s := ScaleToFit(width, height);
      if RoundedScale(height, PortraitWidth, width) <= PortraitHeight then
        s.width == PortraitWidth &&
        width * (2 * s.height) <= 2 * height * PortraitWidth + width < width * (2 * s.height) + 2 * width
      else
        s.height == PortraitHeight &&
        height * (2 * s.width) <= 2 * width * PortraitHeight + height < height * (2 * s.width) + 2 * height
  {
  }

  /** Rounding n * c / c gives back n. */
  lemma RoundedScaleByOne(n: nat, c: nat)
    requires c > 0
    ensures RoundedScale(n, c, c) == n
  {
    var r := RoundedScale(n, c, c);
    assert 2 * n * c == c * (2 * n);
    if r > n {
      MulLeft(c, 2 * n + 2, 2 * r);
      assert false;
    } else if r < n {
      MulLeft(c, 2 * r + 2, 2 * n);
      assert false;
    }
  }

  /** A picture narrower than the canvas and exactly as tall is too tall once scaled to width 1080. */
  lemma FullHeightNarrowIsHeightBound(width: nat)
    requires 0 < width < PortraitWidth
    ensures RoundedScale(PortraitHeight, PortraitWidth, width) > PortraitHeight
  {
    var r := RoundedScale(PortraitHeight, PortraitWidth, width);
    if r <= PortraitHeight {
      MulLeft(width, 2 * r + 2, 2 * 1921);
      assert false;
    }
  }

  /** Fitting an already fitted picture again changes nothing (as long as no side was rounded to zero). */
  lemma ScaleToFitIdempotent(width: nat, height: nat)
    requires width > 0 && height > 0
    requires ScaleToFit(width, height).width > 0 && ScaleToFit(width, height).height > 0
    ensures var s := ScaleToFit(width, height); ScaleToFit(s.width, s.height) == s
  {
    var s := ScaleToFit(width, height);
    if s.width == PortraitWidth {
      RoundedScaleByOne(s.height, PortraitWidth);
    } else {
      FullHeightNarrowIsHeightBound(s.width);
      RoundedScaleByOne(s.width, PortraitHeight);
    }
  }

  // ---------------------------------------------------------------------------
  // Centring and the two-layer composite
  // ---------------------------------------------------------------------------

  function Max(a: int, b: int): int {
    if a >= b then a else b
  }

  /**
   `Math.max(0, Math.floor((1080 - w) / 2))` and the same for the height:
   centred, with the extra pixel of an odd margin going to the right and the
   bottom; an oversized side is pinned to 0.
   */
  function CentredPosition(s: Size): (layer: Layer)
    ensures layer.size == s && layer.left >= 0 && layer.top >= 0
    ensures s.width <= PortraitWidth ==>
      layer.left + s.width <= PortraitWidth &&
      layer.left <= PortraitWidth - layer.left - s.width <= layer.left + 1
    ensures s.height <= PortraitHeight ==>
      layer.top + s.height <= PortraitHeight &&
      layer.top <= PortraitHeight - layer.top - s.height <= layer.top + 1
    ensures s.width > PortraitWidth ==> layer.left == 0
    ensures s.height > PortraitHeight ==> layer.top == 0
  {
    Layer(Max(0, (PortraitWidth - s.width) / 2), Max(0, (PortraitHeight - s.height) / 2), s)
  }

  predicate InsideCanvas(layer: Layer, canvas: Size) {
    0 <= layer.left && layer.left + layer.size.width <= canvas.width &&
    0 <= layer.top && layer.top + layer.size.height <= canvas.height
  }

  /**
   The output of processImage for a picture of the given size: the blurred
   background covers the canvas, and the fitted picture sits centred on it.
   */
  function PortraitComposite(width: nat, height: nat): (c: Composite)
    requires width > 0 && height > 0
    ensures c.canvas == Size(PortraitWidth, PortraitHeight)
    ensures |c.layers| == 2 && c.layers[0] == Layer(0, 0, c.canvas)
    ensures forall i :: 0 <= i < |c.layers| ==> InsideCanvas(c.layers[i], c.canvas)
    // the main picture is drawn at its fitted, aspect-preserving size (ScaleToFitKeepsAspect)
    ensures c.layers[1].size == ScaleToFit(width, height)
    ensures var main := c.layers[1];
      main.size.width <= c.canvas.width && main.size.height <= c.canvas.height &&
      (main.size.width == c.canvas.width || main.size.height == c.canvas.height) &&
      main.left <= c.canvas.width - main.left - main.size.width <= main.left + 1 &&
      main.top <= c.canvas.height - main.top - main.size.height <= main.top + 1
  {
    var canvas := Size(PortraitWidth, PortraitHeight);
    Composite(canvas, [Layer(0, 0, canvas), CentredPosition(ScaleToFit(width, height))])
  }

  /** A 2000x1000 picture is drawn 1080x540 at left 0, top 690. */
  lemma WideExample()
    ensures PortraitComposite(2000, 1000).layers[1] == Layer(0, 690, Size(1080, 540))
  {
  }

  /** A 500x2000 picture is drawn 480x1920 at left 300, top 0. */
  lemma TallExample()
    ensures PortraitComposite(500, 2000).layers[1] == Layer(300, 0, Size(480, 1920))
  {
  }
}
