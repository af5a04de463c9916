# Portrait conversion tools: the geometry and the counting

The repository holds Node.js scripts that turn landscape media into 9:16
portrait media. This model covers the parts of them that compute something:

- `crop-mov-to-9-16.js` picks the `.mov` files of a folder. For each video it
  computes the largest centred 9:16 rectangle of the frame and passes it to
  ffmpeg as `crop=W:H:X:Y,scale=1080:1920`. This is module `MovCrop`, plus the
  name test in module `FileFilter`.
- `process.js`:
  - `getTargetSize` sorts a picture into one of four size bands by aspect
    ratio (module `PortraitThumbnail`).
  - `processImage` scales the main picture to fit a 1080x1920 canvas, centres
    it and stacks it on a full-canvas background layer (module
    `PortraitThumbnail`).
  - `listAllImageSizes` counts how many `.jpg` pictures have each
    `WIDTHxHEIGHT` size (module `SizeHistogram`).
- Module `Decimal` renders numbers in decimal the way JavaScript template
  strings do for numbers below 10^21 (from there on JavaScript switches to
  exponent notation). It proves that the rendered numbers can be read back, which is
  why distinct crops give distinct ffmpeg arguments and distinct sizes give
  distinct histogram keys.

The floating-point arithmetic of the scripts is stated exactly on integers:
- `width / height > 9 / 16` becomes `16 * width > 9 * height`.
- `Math.floor` of a non-negative quotient becomes Dafny's `/`.
- `Math.round(a * (b / c))` becomes `(2ab + c) / (2c)`. This is the exact
  quotient rounded half up, as `Math.round` rounds. The script computes
  `b / c` in floating point first, so it can round an exact tie down (see
  "## Left out").
- The size bands `ratio > 2`, `> 1.5`, `> 1` become `w > 2h`, `2w > 3h`,
  `w > h`.

The JavaScript `Map` of the histogram is modelled as its keys in insertion
order plus a map from key to count. `CountSizes` is the counting loop. It is
proved to produce `FirstSeen` and `CountMap` of the keys of the successful
reads. `HistogramOfOutcomes` then states what those mean in terms of the
pictures.

## Model

| member | source | states |
|---|---|---|
| MovCrop.ComputeCrop | crop-mov-to-9-16.js:24-37 | The crop lies inside the frame and is centred, with an odd extra pixel on the right or bottom. A frame wider than 9:16 keeps its full height and the widest width not above 9:16. Any other frame keeps its full width and the tallest height not above 16:9 of it. |
| MovCrop.ExactPortraitIsWholeFrame | crop-mov-to-9-16.js:25-36 | An exact 9:16 frame is left uncropped, at offset (0, 0). |
| MovCrop.CropIsLargest | crop-mov-to-9-16.js:28-34 | No wider 9:16 strip fits the height of a wide frame, and no taller one fits the width of a tall frame. |
| MovCrop.CropFilter | crop-mov-to-9-16.js:40 | The filter argument `crop=${cropWidth}:${cropHeight}:${x}:${y},scale=1080:1920`. `CropFilterInjective` states that the crop can be read back from it. |
| MovCrop.CropFilterInjective | crop-mov-to-9-16.js:40 | Two crops with the same ffmpeg filter argument are the same crop. |
| MovCrop.LandscapeHdCrop | crop-mov-to-9-16.js:25-30 | A 1920x1080 video is cropped to 607x1080 at x = 656. |
| MovCrop.LandscapeHdFilter | crop-mov-to-9-16.js:40 | For a 1920x1080 video the filter argument is `crop=607:1080:656:0,scale=1080:1920`. |
| FileFilter.ToLower | crop-mov-to-9-16.js:12 | Lower-casing keeps the length and leaves no upper-case letter. Each upper-case letter becomes the lower-case letter at the same place in the alphabet, and every other character is kept. |
| FileFilter.ToLowerIdempotent | crop-mov-to-9-16.js:12 | Lower-casing twice is the same as lower-casing once. |
| FileFilter.HasExtension | crop-mov-to-9-16.js:12 | The name test `name.toLowerCase().endsWith(ext)`. Its meaning is stated by `HasExtensionOnTail`. |
| FileFilter.HasExtensionOnTail | process.js:138 | A name has the extension exactly when it is at least as long as the extension and its last characters lower-case to the extension. |
| FileFilter.SelectByExtension | crop-mov-to-9-16.js:12 | Every selected name is in the listing and has the extension, whatever its case. Every listed name with the extension is selected. |
| FileFilter.SelectKeepsOrder | crop-mov-to-9-16.js:12 | Filtering a listing made of two parts gives the filtered first part followed by the filtered second part, so the listing's order is kept. |
| FileFilter.SelectCounts | process.js:148 | A matching name is kept as many times as it is listed, and any other name is dropped. |
| FileFilter.SelectIdempotent | process.js:148 | Filtering a filtered listing again changes nothing. |
| FileFilter.ExtensionIgnoresCase | crop-mov-to-9-16.js:12 | A name and its lower-cased form match the extension alike. |
| FileFilter.MovFiles | crop-mov-to-9-16.js:12 | A listed name is kept exactly when it ends in `.mov` in any case. |
| FileFilter.JpgFiles | process.js:148 | A listed name is kept exactly when it ends in `.jpg` in any case. |
| FileFilter.UpperCaseMovMatches | crop-mov-to-9-16.js:12 | `Clip.MOV` counts as a `.mov` file. |
| FileFilter.TextFileDoesNotMatch | crop-mov-to-9-16.js:12 | `notes.txt` does not count as a `.mov` file. |
| FileFilter.LowerCaseMovMatches | crop-mov-to-9-16.js:12 | `b.mov` counts as a `.mov` file. |
| FileFilter.MixedCaseListing | crop-mov-to-9-16.js:12 | From `Clip.MOV`, `notes.txt`, `b.mov` and `mov`, the first and third are kept, in that order. |
| PortraitThumbnail.TargetSize | process.js:31-48 | The target is always one of the four sizes 2048x1024, 1792x1024, 1280x1280 and 1024x1536. |
| PortraitThumbnail.TargetSizeBands | process.js:35-47 | Each target size is chosen exactly on its ratio band: above 2, above 1.5 up to 2, above 1 up to 1.5, and at most 1. |
| PortraitThumbnail.RatioAboveIsUpwardClosed | process.js:35-41 | A picture at least as wide, relative to its height, as one above a ratio threshold is also above it. |
| PortraitThumbnail.TargetSizeMonotone | process.js:33-47 | A wider picture never gets a narrower target: the band order follows the aspect ratio. |
| PortraitThumbnail.RoundedScale | process.js:67 | `Math.round(a * (b / c))` with halves rounded up: the result is within half a unit of a * b / c. |
| PortraitThumbnail.HeightBoundWidthFits | process.js:69-72 | When the width-bound height is over 1920, the height-bound width is at most 1080. |
| PortraitThumbnail.ScaleToFit | process.js:66-72 | The scaled picture fits 1080x1920. It is 1080 wide when the width-bound height fits, and 1920 tall otherwise. |
| PortraitThumbnail.ScaleToFitKeepsAspect | process.js:66-72 | The derived side is within half a pixel of the exact proportional length. |
| PortraitThumbnail.RoundedScaleByOne | process.js:67 | Scaling by c / c rounds back to the original length. |
| PortraitThumbnail.FullHeightNarrowIsHeightBound | process.js:69 | A picture narrower than 1080 and exactly 1920 tall is too tall once scaled to width 1080. |
| PortraitThumbnail.ScaleToFitIdempotent | process.js:66-72 | Fitting an already fitted picture again returns the same size, as long as no side was rounded to zero. |
| PortraitThumbnail.CentredPosition | process.js:77-78 | The offsets are non-negative. A side that fits is centred inside the canvas, with the odd pixel on the right or bottom. An oversized side is placed at 0. |
| PortraitThumbnail.PortraitComposite | process.js:63-120 | The output is a 1080x1920 canvas with two layers. The background covers the canvas at (0, 0). The main picture has exactly its fitted size `ScaleToFit(width, height)`, fits inside the canvas, touches one axis and is centred. |
| PortraitThumbnail.WideExample | process.js:66-78 | A 2000x1000 picture becomes a 1080x540 layer at top 690. |
| PortraitThumbnail.TallExample | process.js:66-78 | A 500x2000 picture becomes a 480x1920 layer at left 300. |
| Decimal.DigitValue | process.js:154 | A digit character's value renders back to the same character. |
| Decimal.NatToString | process.js:154 | The rendering `${n}` of a natural number. Its properties are stated by `NatToStringIsCanonical` and `ParseNatToString`. |
| Decimal.NatToStringIsCanonical | process.js:154 | A number renders as a non-empty string of digits without a leading zero, and only zero renders as `0`. |
| Decimal.ParseNatToString | process.js:154 | Reading a rendered number back gives the number. |
| Decimal.NatToStringInjective | process.js:154 | Distinct numbers render differently. |
| Decimal.NumberThenSeparator | process.js:154 | A number followed by a non-digit separator is read back unambiguously, together with the rest of the string. |
| SizeHistogram.SizeKey | process.js:154 | The histogram key `${metadata.width}x${metadata.height}`. `SizeKeyInjective` states that the size can be read back from it. |
| SizeHistogram.SizeKeyInjective | process.js:154 | Two sizes share a `WIDTHxHEIGHT` key only when they are the same size. |
| SizeHistogram.SuccessfulKeysCount | process.js:150-158 | Each successful read yields one key, and a failed read yields none. |
| SizeHistogram.FirstSeenListsEachKeyOnce | process.js:155 | The Map's key order lists each key once, and exactly the keys that were seen. |
| SizeHistogram.Get | process.js:155 | `sizeMap.get(key) \|\| 0`: a missing key counts as 0. Its meaning is stated by `CountMapCounts`. |
| SizeHistogram.CountMapCounts | process.js:155 | Each key's count is the number of times it was set, and only keys that were set are present. |
| SizeHistogram.TotalIgnoresUnlisted | process.js:155 | The count of a key missing from the key order does not affect the total. |
| SizeHistogram.TotalIncrement | process.js:155 | Adding one to a listed key's count adds one to the total. |
| SizeHistogram.TotalIsNumberOfKeys | process.js:150-158 | The counts of the distinct keys add up to the number of keys counted. |
| SizeHistogram.KeyCountIsSizeCount | process.js:153-155 | A size's key is counted once for each picture read with that size. |
| SizeHistogram.SuccessfulKeysStep | process.js:152-157 | One more read adds its key when it succeeds and nothing when it fails. |
| SizeHistogram.HistogramOfOutcomes | process.js:150-164 | Each size's count is the number of pictures of that size. Only sizes that were read have a key, every count is positive, each key is listed once, and the counts add up to the number of successful reads. |
| SizeHistogram.CountSizes | process.js:146-159 | The loop ends with the first-seen key order and the per-key counts of the successful reads. |

## Left out

- Running ffprobe and ffmpeg, the sharp operations, reading directories and console logging are left out. The frame and picture sizes are parameters. A metadata read that throws is the `Failed` outcome.
- The parse of ffprobe's `WxH` output (crop-mov-to-9-16.js:19-21) is left out. Its malformed outputs, which become NaN in the script, are not modelled.
- Output path construction with `path.join` and `path.basename` is left out, because it is string plumbing for the file system.
- The callback loop at process.js:131-143 is left out, because it is fire-and-forget concurrency. Its name test at line 138 is the same as `FileFilter.JpgFiles`.
- The resize, blur, brightness and JPEG encoding steps (process.js:81-122) are left out. `PortraitThumbnail.PortraitComposite` keeps only the geometry of the two layers.
- The printing of the histogram (process.js:160-164) is left out. Its order is the key order `SizeHistogram.FirstSeen`.
- `TARGET_SIZES` and the other constants before line 25 of process.js are not modelled. compose-video.js and remove-background.js are not part of this model.
- FileFilter.ToLower: only ASCII letters are lower-cased. JavaScript's Unicode case mapping, including mappings that change the length, is not modelled.
- PortraitThumbnail.RoundedScale: rounds the exact quotient a * b / c half up. The script first computes `b / c` in floating point, and the product can land just below an exact .5 tie. Such ties occur at ordinary picture sizes, where the script then rounds down. For example, for a 496x403 picture `403 * (1080 / 496)` evaluates to 877.4999999999999, so the script gives height 877 and the model gives 878. The floating-point arithmetic is not modelled.
- PortraitThumbnail.ScaleToFit: requires a positive width and height, as decoded image metadata has. On zero dimensions the script's arithmetic gives 0x1920 for a zero width, 1080x0 for a zero height, and a NaN height for 0x0. These cases are not modelled.
- PortraitThumbnail.ScaleToFitIdempotent: requires that neither scaled side rounded to zero, which can happen for extreme aspect ratios such as 1x5000. sharp would then reject the resize.
- MovCrop.ComputeCrop: a crop side can round down to zero for extremely thin frames, which ffmpeg would reject. This follows the script's arithmetic as written.
