# PDF compressor core, in Dafny

A model of `PDFCompressor` from `pdf_compressor.py`, which turns every page of a
PDF into a downscaled JPEG and stitches the JPEGs back into a new PDF. The
rasteriser (PyMuPDF), the image library (PIL), img2pdf and PyPDF2 are foreign
code; the model keeps what the module itself decides:

- `quality.dfy` (`QualityMapper`): the encoder quality `min(max(2q, 40), 80)`
  and the resize scale `max(q / 60, 0.5)`, for every integer `q`, and the
  range of a double, outside which the unused `target_dpi` computation
  raises OverflowError.
- `image_resize.dfy` (`ImageResize`): `_compress_image`, the target width and
  height of the resize with their floors (1200 and the aspect-preserving
  height), the resampling and the RGBA/palette-to-RGB conversion of the
  image's pixel data, and the exceptions of the size computation:
  ZeroDivisionError on an image of width 0, and OverflowError when a scaled
  side or the aspect height is not a finite double.
- `pipeline.dfy` (`Pipeline`): what one source page becomes and at which step
  it can raise, the map-then-collect of all pages, the first failing page,
  and the scratch files (`temp_{i}.jpg`, `temp_{i}.pdf`) a run leaves.
- `size_format.dfy` (`SizeFormat`): the unit `_format_size` picks, by byte
  thresholds.
- `compressor.dfy` (`Compressor`): the class with the scratch directory as a
  field, `Compress` (the `compress_pdf` page loop with its writer accumulator
  and temp-file bookkeeping, proved against the `Pipeline` specification) and
  `FormatSize` (the division loop, proved against `SizeFormat`).

The foreign calls are the fields of a `Library` value passed to the page
loop: `rasterize` (the pixmap with its samples), `encodeJpeg`, `imageToPdf`,
`firstPage` each return `None` where the library would raise, `imaging`
holds PIL's resampling and RGB conversion as functions of the image, and
`pdfSize` gives the size of the written file. Every image carries its pixel
data, so what a page becomes depends on that page's own content. The files the compressor opens and writes are a `Disk` object:
the documents PyMuPDF can open and the paths that can be written.

Temporary files are not removed on every exit path. `compress_pdf` removes a
page's two scratch files only after the page has been appended, so a page that
raises after its JPEG was saved (line 46) leaves the JPEG, and, if it raises
after line 53, also its one-page PDF, in the scratch
directory (`ScratchAfter`, `ScratchAfterBounds`). A later successful run on
the same compressor overwrites and removes such leftovers only for page
indices it reaches. The scaled sizes are truncated with `int()`, not rounded.

## Model

| member | source | states |
|---|---|---|
| `QualityMapper.ImageQuality` | pdf_compressor.py:29 | the encoder quality lies in [40, 80] for every integer quality, equals twice the quality exactly when 20 <= quality <= 40, is 40 below and 80 above that range |
| `QualityMapper.ScaleFactor` | pdf_compressor.py:90 | the scale is at least 0.5, equals 0.5 exactly when quality <= 30, and is quality/60 from 30 on |
| `QualityMapper.TargetDpiRaises` | pdf_compressor.py:28 | `int(150 * (quality / 30))` never raises for qualities within one million of 0 (in particular not for 0) |
| `QualityMapper.TargetDpiOverflowBoundary` | pdf_compressor.py:28 | line 28 raises exactly when quality lies beyond a fifth of the largest double on either side: 10^308 and -10^308 raise, 10^307 does not |
| `QualityMapper.ImageQualityMonotone` | pdf_compressor.py:29 | a higher quality never gives a lower encoder quality |
| `QualityMapper.ScaleFactorMonotone` | pdf_compressor.py:90 | a higher quality never gives a lower scale |
| `QualityMapper.QualityScenarios` | pdf_compressor.py:29 | quality 30 gives encoder quality 60 and scale 0.5 (line 90), quality 0 gives 40 and 0.5 rather than 0, quality 100 gives 80 |
| `ImageResize.ScaledTruncates` | pdf_compressor.py:90-92 | in exact arithmetic, the scaled side `Scaled` (`int(pixels * max(quality / 60, 0.5))`) is the floor of the real product, so it lies within one below it |
| `ImageResize.AspectHeightTruncates` | pdf_compressor.py:96 | in exact arithmetic, the aspect height `AspectHeight` (`int(1200 * (height / width))`) is the floor of the real value and equals the integer quotient (1200*height) div width |
| `ImageResize.FitsScaledIsFitsFloat` | pdf_compressor.py:90-92 | the scaled-side test `FitsScaled` of `ResizeRaises` holds exactly when `pixels * max(quality / 60, 0.5)` is within the range of a double |
| `ImageResize.AspectFitsFloat` | pdf_compressor.py:96 | the aspect test of `ResizeRaises` holds exactly when `1200 * (height / width)` is within the range of a double |
| `ImageResize.TargetDims` | pdf_compressor.py:90-96 | the new width is at least 1200 and at least the truncated scaled width and is one of the two; the new height is at least the aspect height and at least the truncated scaled height and is one of the two |
| `ImageResize.NormalizeMode` | pdf_compressor.py:102-103 | the mode after conversion is never RGBA or P; every other mode is kept |
| `ImageResize.Resize` | pdf_compressor.py:99 | the LANCZOS resize yields exactly the requested width and height, keeps the mode, and holds the resampler's pixels for this image and size |
| `ImageResize.ToRgb` | pdf_compressor.py:102-103 | an RGBA or palette image is converted to RGB pixel data of the same size; any other image is returned unchanged |
| `ImageResize.CompressImage` | pdf_compressor.py:87-105 | fails exactly when `ResizeRaises`: a width of 0 (ZeroDivisionError at line 96), or a scaled side (lines 91-92) or aspect height (line 96) beyond the range of a double (OverflowError); otherwise returns the input image resampled to the target dimensions and then converted to RGB, at least 1200 wide, in the normalised mode |
| `ImageResize.ResizeRaisesOnlyOnZeroWidth` | pdf_compressor.py:87-96 | for page images up to 10^9 pixels a side and qualities up to 10^290, the size computation raises exactly when the width is 0 |
| `ImageResize.HugeQualityRaises` | pdf_compressor.py:91 | at quality 10^307 line 28 does not raise but line 91 does, on a page image 1200 pixels wide |
| `ImageResize.HalfScaleWidth` | pdf_compressor.py:90-96 | in exact arithmetic, at quality <= 30 the width is max(width div 2, 1200) and the height max(height div 2, (1200*height) div width) |
| `ImageResize.TargetDimsMonotone` | pdf_compressor.py:90-96 | raising the quality never shrinks the target width or height |
| `ImageResize.A4AtDefaultQuality` | pdf_compressor.py:90-96 | a page image of 892 x 1263 pixels at quality 30 is resized to 1200 x 1699 |
| `Pipeline.FromBytes` | pdf_compressor.py:39 | `Image.frombytes("RGB", ...)` gives an RGB image of the pixmap's size holding the pixmap's samples |
| `Pipeline.PreparedImage` | pdf_compressor.py:36-42 | the image that reaches the encoder is RGB, at least 1200 wide, of the target dimensions of the rendered page, and holds the resampling of that page's own samples; after a successful render it is missing exactly when the size computation raises (`ResizeRaises`) |
| `Pipeline.TranscodePage` | pdf_compressor.py:33-57 | the steps run in order and a page fails at exactly the first step that raises: rendering, the size computation, JPEG encoding, img2pdf, or reading the one-page PDF back; it is done exactly when all five succeed, and is then the page read back |
| `Pipeline.SameSizePagesDiffer` | pdf_compressor.py:36-57 | with a library that passes the bytes through, two pages whose renders have the same size but different samples transcode to different pages |
| `Pipeline.EncoderInput` | pdf_compressor.py:29-46 | a page that is transcoded was encoded from an RGB image at least 1200 wide at a quality in [40, 80] |
| `Pipeline.TranscodeAll` | pdf_compressor.py:31-57 | a successful collection has exactly as many pages as the source |
| `Pipeline.FirstFailure` | pdf_compressor.py:31-57 | every page before the returned index transcodes and the page at it (if any) raises |
| `Pipeline.FirstFailureAt` | pdf_compressor.py:31-57 | a page that raises after only successful pages is the first failure and makes the whole collection fail |
| `Pipeline.TranscodeAllSound` | pdf_compressor.py:31-57 | in a successful collection, output page i is the transcoding of source page i |
| `Pipeline.TranscodeAllComplete` | pdf_compressor.py:31-57 | when every page transcodes, the collection succeeds with those pages in source order |
| `Pipeline.TranscodeAllCollects` | pdf_compressor.py:31-57 | the collection succeeds with `out` if and only if `out` has one page per source page and page i of `out` is the transcoding of source page i |
| `Pipeline.TranscodeAllFails` | pdf_compressor.py:31-57 | the collection fails if and only if some page raises |
| `Pipeline.InScratch` | pdf_compressor.py:45-61 | the scratch names of the first n pages are exactly the names whose page index is below n |
| `Pipeline.Leftover` | pdf_compressor.py:45-61 | a failing page leaves only files of its own index, leaves its PDF only together with its JPEG, and leaves nothing new when it fails before the JPEG was saved |
| `Pipeline.ScratchAfter` | pdf_compressor.py:45-61 | after the loop no scratch file of a page before the failing one remains, the only new files belong to the page that raised, and files of later pages that were there before are kept |
| `Pipeline.ScratchAfterBounds` | pdf_compressor.py:45-61 | after a clean run no file of any source page remains, and a directory holding none of them is left unchanged |
| `SizeFormat.UnitIndex` | pdf_compressor.py:107-113 | bytes below 1024 are shown in B, and TB is used exactly from 1024^4 bytes on |
| `SizeFormat.UnitIndexIsSmallest` | pdf_compressor.py:107-113 | the unit is the smallest k below 4 with size/1024^k < 1024, and TB when there is none |
| `SizeFormat.DividedBelow` | pdf_compressor.py:110-112 | after k divisions the value is below 1024 exactly when the size is below 1024^(k+1) |
| `SizeFormat.ShownValueInRange` | pdf_compressor.py:107-113 | a size from 1 byte up to below 1024^4 is shown as a number in [1, 1024) |
| `Compressor.PdfCompressor.constructor` | pdf_compressor.py:10-11 | a new compressor has an empty scratch directory |
| `Compressor.PdfCompressor.Compress` | pdf_compressor.py:13-85 | the output file is written, with one transcoded page per source page in order, exactly when the input opens, line 28 does not overflow, every page transcodes and the output is writable, and nothing else on disk changes; the result is true exactly when the output was written and the input's size (read after the write) is non-zero; the scratch directory ends as `ScratchAfter` says |
| `Compressor.PdfCompressor.FormatSize` | pdf_compressor.py:107-113 | the division loop returns the size divided by 1024^k and the name of unit k, with k the threshold rank `UnitIndex` |

## Left out

- Rasterisation by PyMuPDF, the LANCZOS resampling, the RGB conversion, JPEG encoding and the img2pdf and PyPDF2 container work: foreign library calls, modelled only as the fields of `Library` and `Imaging` (a result or a failure, and pixel data as a function of the image).
- Pipeline.FromBytes: assumes the pixmap's samples fill the image; a buffer too short for `Image.frombytes` is counted as a failing `rasterize`.
- ImageResize.TargetDims: computes in exact arithmetic; Python's binary floating point can round `quality / 60`, `width * scale` or `1200 * (height / width)` to just below an integer and so give one pixel less than the model.
- ImageResize.ScaledTruncates: exact arithmetic; Python's `int(2570 * (42 / 60))` is 1798, one pixel below the floor 1799 of the exact product, because 42 / 60 rounds down.
- ImageResize.AspectHeightTruncates: exact arithmetic; Python's `int(1200 * (11 / 15))` is 879, one pixel below (1200*11) div 15 = 880.
- ImageResize.HalfScaleWidth: exact arithmetic; for a 600 x 603 image at quality 30 Python computes height 1205, one pixel below the 1206 stated here.
- ImageResize.CompressImage: the overflow test compares the exact value with the largest double; a result within half a unit in the last place above it, which rounds down to that double, and the effect of the intermediate rounding of `quality / 60` and `height / width` are not modelled.
- QualityMapper.TargetDpiRaises: the same approximation at the overflow boundary of `150 * (quality / 30)`.
- ImageResize.Resize: assumed to succeed for every target size; what PIL does for a target height of 0 (an empty page image) is not modelled.
- `target_dpi` (line 28): its value is never used, so only whether computing it raises OverflowError is modelled (`TargetDpiRaises`).
- `compression_ratio` and the `%.2f` rendering (lines 73-77, 111, 113): floating-point reporting. Only the division by the input's size is kept, because a zero size raises after the output is written and turns the result into false.
- SizeFormat.UnitIndex and Compressor.PdfCompressor.FormatSize: exact real division instead of floating-point division.
- Compressor.PdfCompressor.Compress: a failing `PdfWriter.write` on an opened output path may leave a truncated file; the model writes the output all at once or not at all.
- Compressor.PdfCompressor.Compress: assumes that writing `temp_{i}.pdf` (lines 52-53) and both `os.remove` calls (lines 60-61) succeed; a remove that raised would make `compress_pdf` return false after the page was appended, which the model cannot produce.
- Pipeline.Leftover: assumes Pillow's `Image.save` removes a `temp_{i}.jpg` it created when the JPEG encoder raises (it opens the path before encoding); a stale `temp_{i}.jpg` from an earlier run is left truncated but present, which the model keeps as part of the directory's previous contents.
- The scratch directory itself is never deleted by the source; the model has no directory lifecycle beyond its contents.
- Console output (`print`, `traceback`), `main()` (lines 115-135) and `compress_pdf_cli.py`: console and argument-parsing plumbing.
