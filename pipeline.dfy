/**
 * The per-page transcoding of `compress_pdf` (pdf_compressor.py lines 31-61)
 * as a specification: what one source page becomes, where it can fail, which
 * scratch files a failure leaves, and what the whole page list becomes.
 * The libraries (PyMuPDF, PIL's JPEG encoder, img2pdf, PyPDF2) are opaque
 * functions that may fail; pages and images are carried as their bytes.
 */
module Pipeline {
  import opened Wrappers
  import opened QualityMapper
  import opened ImageResize

  type Bytes = seq<bv8>

  /** A PDF page as an abstract value (its content stream). */
  datatype Page = Page(content: Bytes)

  /** The pixmap PyMuPDF renders: its size and its RGB samples. */
  datatype Pixmap = Pixmap(width: nat, height: nat, samples: Bytes)

  /** The foreign calls of the page loop, each of which may raise. */
  datatype Library = Library(
    rasterize: Page -> Option<Pixmap>,        // get_pixmap at 1.5x (line 36)
    imaging: Imaging,                         // PIL's resample and RGB conversion (lines 99, 103)
    encodeJpeg: (Raster, int) -> Option<Bytes>, // Image.save as JPEG at the given quality (line 46)
    imageToPdf: Bytes -> Option<Bytes>,       // img2pdf.convert (lines 50-51)
    firstPage: Bytes -> Option<Page>,         // PdfReader(...).pages[0] (line 56)
    pdfSize: seq<Page> -> nat)                // byte size of what PdfWriter.write produces (line 65)

  /** `Image.frombytes("RGB", [pix.width, pix.height], pix.samples)` (line 39). */
  function FromBytes(pix: Pixmap): (r: Raster)
    ensures r.mode == RGB && r.width == pix.width && r.height == pix.height && r.pixels == pix.samples
  {
    Raster(pix.width, pix.height, RGB, pix.samples)
  }

  /** The step of a page at which an exception was raised. */
  datatype Stage = Rasterize | Resize | Encode | Wrap | Read

  datatype PageOutcome = Done(page: Page) | Failed(stage: Stage)

  /** Scratch files are named `temp_{page}.jpg` and `temp_{page}.pdf` (lines 45, 49). */
  datatype Ext = Jpg | Pdf
  datatype TempFile = TempFile(page: nat, ext: Ext)

  /**
   * The image handed to the JPEG encoder: the rendered page after
   * `_compress_image`, its own samples resampled to the target size.
   */
  function PreparedImage(lib: Library, src: Page, quality: int): (r: Option<Raster>)
    ensures r.Some? ==> lib.rasterize(src).Some? && lib.rasterize(src).value.width > 0
    ensures r.Some? ==> var pix := lib.rasterize(src).value;
      var size := TargetDims(pix.width, pix.height, quality);
      Dims(r.value.width, r.value.height) == size
      && r.value.pixels == lib.imaging.resample(FromBytes(pix), size)
    ensures r.Some? ==> r.value.mode == RGB && r.value.width >= MinWidth
    ensures lib.rasterize(src).Some? ==> var pix := lib.rasterize(src).value;
      (r.None? <==> ResizeRaises(pix.width, pix.height, quality))
  {
    match lib.rasterize(src)
    case None => None
    case Some(pix) => CompressImage(lib.imaging, FromBytes(pix), quality)
  }

  /** The JPEG bytes of line 46, when every step up to it succeeds. */
  function EncodedJpeg(lib: Library, src: Page, quality: int): Option<Bytes>
  {
    match PreparedImage(lib, src, quality)
    case None => None
    case Some(image) => lib.encodeJpeg(image, ImageQuality(quality))
  }

  /** The one-page PDF of lines 50-53, when every step up to it succeeds. */
  function WrappedPdf(lib: Library, src: Page, quality: int): Option<Bytes>
  {
    match EncodedJpeg(lib, src, quality)
    case None => None
    case Some(jpeg) => lib.imageToPdf(jpeg)
  }

  /** The page read back at line 56, when every step up to it succeeds. */
  function ReadPage(lib: Library, src: Page, quality: int): Option<Page>
  {
    match WrappedPdf(lib, src, quality)
    case None => None
    case Some(pdf) => lib.firstPage(pdf)
  }

  /**
   * One iteration of the page loop (lines 33-57), up to the append. The steps
   * run in order: a page fails at the first step that raises, and is done
   * exactly when all of them succeed.
   */
  function TranscodePage(lib: Library, src: Page, quality: int): (r: PageOutcome)
    ensures r == Failed(Rasterize) <==> lib.rasterize(src).None?
    ensures r == Failed(Resize) <==> lib.rasterize(src).Some? && PreparedImage(lib, src, quality).None?
    ensures r == Failed(Encode) <==> PreparedImage(lib, src, quality).Some? && EncodedJpeg(lib, src, quality).None?
    ensures r == Failed(Wrap) <==> EncodedJpeg(lib, src, quality).Some? && WrappedPdf(lib, src, quality).None?
    ensures r == Failed(Read) <==> WrappedPdf(lib, src, quality).Some? && ReadPage(lib, src, quality).None?
    ensures r.Done? <==> ReadPage(lib, src, quality).Some?
    ensures r.Done? ==> r.page == ReadPage(lib, src, quality).value
  {
    if lib.rasterize(src).None? then Failed(Rasterize)
    else match PreparedImage(lib, src, quality)
      case None => Failed(Resize)
      case Some(image) =>
        match lib.encodeJpeg(image, ImageQuality(quality))
        case None => Failed(Encode)
        case Some(jpeg) =>
          match lib.imageToPdf(jpeg)
          case None => Failed(Wrap)
          case Some(pdf) =>
            match lib.firstPage(pdf)
            case None => Failed(Read)
            case Some(page) => Done(page)
  }

  /**
   * A library whose every step passes the data through: a page of one byte
   * renders to a 1 x 1 RGB pixmap whose three samples repeat that byte, and
   * each later step keeps the bytes it is given.
   */
  function PassThrough(): Library
  {
    Library(
      (src: Page) => Some(Pixmap(1, 1, src.content + src.content + src.content)),
      Imaging((image: Raster, size: Dims) => image.pixels, (image: Raster) => image.pixels),
      (image: Raster, q: int) => Some(image.pixels),
      (jpeg: Bytes) => Some(jpeg),
      (pdf: Bytes) => Some(Page(pdf)),
      (pages: seq<Page>) => |pages|)
  }

  /**
   * With a library that passes the bytes through, two pages whose renders
   * have the same size but different samples transcode to different pages:
   * each page's own pixels reach the encoder.
   */
  lemma SameSizePagesDiffer()
    ensures PassThrough().rasterize(Page([0])).value.width == PassThrough().rasterize(Page([1])).value.width
    ensures PassThrough().rasterize(Page([0])).value.height == PassThrough().rasterize(Page([1])).value.height
    ensures PassThrough().rasterize(Page([0])).value.samples != PassThrough().rasterize(Page([1])).value.samples
    ensures TranscodePage(PassThrough(), Page([0]), 30) == Done(Page([0, 0, 0]))
    ensures TranscodePage(PassThrough(), Page([1]), 30) == Done(Page([1, 1, 1]))
  {
    ResizeRaisesOnlyOnZeroWidth(1, 1, 30);
    assert [0 as bv8] + [0] + [0] == [0, 0, 0];
    assert [1 as bv8] + [1] + [1] == [1, 1, 1];
    assert PreparedImage(PassThrough(), Page([0]), 30).value.pixels == [0, 0, 0];
    assert PreparedImage(PassThrough(), Page([1]), 30).value.pixels == [1, 1, 1];
  }

  /** The JPEG is encoded at a clamped quality from an RGB image at least 1200 pixels wide. */
  lemma EncoderInput(lib: Library, src: Page, quality: int)
    requires TranscodePage(lib, src, quality).Done?
    ensures PreparedImage(lib, src, quality).Some?
    ensures var image := PreparedImage(lib, src, quality).value;
      image.mode == RGB && image.width >= MinWidth
      && lib.encodeJpeg(image, ImageQuality(quality)).Some?
      && 40 <= ImageQuality(quality) <= 80
  {
  }

  /** Map-then-collect over the pages: every page transcoded, in order, or None. */
  function TranscodeAll(lib: Library, pages: seq<Page>, quality: int): (r: Option<seq<Page>>)
    ensures r.Some? ==> |r.value| == |pages|
    decreases |pages|
  {
    if pages == [] then Some([])
    else match TranscodePage(lib, pages[0], quality)
      case Failed(_) => None
      case Done(page) =>
        match TranscodeAll(lib, pages[1..], quality)
        case None => None
        case Some(rest) => Some([page] + rest)
  }

  /** Index of the first page whose transcoding raises, or the page count. */
  function FirstFailure(lib: Library, pages: seq<Page>, quality: int): (k: nat)
    ensures k <= |pages|
    ensures forall j :: 0 <= j < k ==> TranscodePage(lib, pages[j], quality).Done?
    ensures k < |pages| ==> TranscodePage(lib, pages[k], quality).Failed?
    decreases |pages|
  {
    if pages == [] then 0
    else if TranscodePage(lib, pages[0], quality).Failed? then 0
    else 1 + FirstFailure(lib, pages[1..], quality)
  }

  /** A successful collection holds, at each index, the transcoding of the source page there. */
  lemma {:induction false} TranscodeAllSound(lib: Library, pages: seq<Page>, quality: int, out: seq<Page>)
    requires TranscodeAll(lib, pages, quality) == Some(out)
    ensures forall j :: 0 <= j < |pages| ==> TranscodePage(lib, pages[j], quality) == Done(out[j])
    decreases |pages|
  {
    if pages != [] {
      var rest := TranscodeAll(lib, pages[1..], quality).value;
      TranscodeAllSound(lib, pages[1..], quality, rest);
      assert out == [out[0]] + rest;
      forall j | 1 <= j < |pages| ensures TranscodePage(lib, pages[j], quality) == Done(out[j]) {
        assert pages[j] == pages[1..][j - 1] && out[j] == rest[j - 1];
      }
    }
  }

  /** Pages that all transcode are collected, in order. */
  lemma {:induction false} TranscodeAllComplete(lib: Library, pages: seq<Page>, quality: int, out: seq<Page>)
    requires |out| == |pages|
    requires forall j :: 0 <= j < |pages| ==> TranscodePage(lib, pages[j], quality) == Done(out[j])
    ensures TranscodeAll(lib, pages, quality) == Some(out)
    decreases |pages|
  {
    if pages != [] {
      forall j | 0 <= j < |pages| - 1 ensures TranscodePage(lib, pages[1..][j], quality) == Done(out[1..][j]) {
        assert pages[1..][j] == pages[j + 1] && out[1..][j] == out[j + 1];
      }
      TranscodeAllComplete(lib, pages[1..], quality, out[1..]);
      assert TranscodePage(lib, pages[0], quality) == Done(out[0]);
      assert out == [out[0]] + out[1..];
    }
  }

  /** The output holds exactly one page per source page, each the transcoding of the page at its index. */
  lemma TranscodeAllCollects(lib: Library, pages: seq<Page>, quality: int, out: seq<Page>)
    ensures TranscodeAll(lib, pages, quality) == Some(out)
        <==> |out| == |pages| && forall j :: 0 <= j < |pages| ==> TranscodePage(lib, pages[j], quality) == Done(out[j])
  {
    if TranscodeAll(lib, pages, quality) == Some(out) {
      TranscodeAllSound(lib, pages, quality, out);
    }
    if |out| == |pages| && forall j :: 0 <= j < |pages| ==> TranscodePage(lib, pages[j], quality) == Done(out[j]) {
      TranscodeAllComplete(lib, pages, quality, out);
    }
  }

  /** The page loop finishes exactly when no page raises. */
  lemma {:induction false} TranscodeAllFails(lib: Library, pages: seq<Page>, quality: int)
    ensures TranscodeAll(lib, pages, quality).None? <==> FirstFailure(lib, pages, quality) < |pages|
    decreases |pages|
  {
    if pages != [] {
      TranscodeAllFails(lib, pages[1..], quality);
    }
  }

  /** A page that raises is the first failure, so the whole run does not write. */
  lemma FirstFailureAt(lib: Library, pages: seq<Page>, quality: int, i: nat)
    requires i < |pages|
    requires forall j :: 0 <= j < i ==> TranscodePage(lib, pages[j], quality).Done?
    requires TranscodePage(lib, pages[i], quality).Failed?
    ensures FirstFailure(lib, pages, quality) == i
    ensures TranscodeAll(lib, pages, quality).None?
  {
    TranscodeAllFails(lib, pages, quality);
  }

  /** The scratch files of pages 0 .. n-1. */
  function Scratch(n: nat): set<TempFile>
  {
    if n == 0 then {} else Scratch(n - 1) + {TempFile(n - 1, Jpg), TempFile(n - 1, Pdf)}
  }

  lemma {:induction false} InScratch(n: nat, f: TempFile)
    ensures f in Scratch(n) <==> f.page < n
  {
    if n > 0 {
      InScratch(n - 1, f);
      assert Scratch(n) == Scratch(n - 1) + {TempFile(n - 1, Jpg), TempFile(n - 1, Pdf)};
      if f.page == n - 1 {
        assert f == TempFile(f.page, f.ext);
        assert f.ext.Jpg? || f.ext.Pdf?;
      }
    }
  }

  /**
   * The scratch files a page leaves behind when its step `stage` raises:
   * the JPEG once it was saved (line 46), the one-page PDF once it was
   * written (lines 52-53). A JPEG encoder that raises leaves no new file,
   * because `Image.save` removes a file it created before re-raising.
   */
  function Leftover(stage: Stage, page: nat): (r: set<TempFile>)
    ensures forall f :: f in r ==> f.page == page
    ensures TempFile(page, Pdf) in r ==> TempFile(page, Jpg) in r
    ensures r == {} <==> stage in {Rasterize, Resize, Encode}
  {
    match stage
    case Rasterize => {}
    case Resize => {}
    case Encode => {}
    case Wrap => {TempFile(page, Jpg)}
    case Read => {TempFile(page, Jpg), TempFile(page, Pdf)}
  }

  /**
   * Contents of the scratch directory after the page loop over `pages`,
   * starting from `before`: the files of every completed page are gone, and
   * the page that raised (if any) leaves what it had written.
   */
  function ScratchAfter(lib: Library, pages: seq<Page>, quality: int, before: set<TempFile>): (r: set<TempFile>)
    ensures forall f :: f in r ==> f.page >= FirstFailure(lib, pages, quality)
    ensures forall f :: (f in r && f !in before ==> f.page == FirstFailure(lib, pages, quality) < |pages|)
    ensures forall f :: (f in before && f.page >= FirstFailure(lib, pages, quality) ==> f in r)
  {
    var k := FirstFailure(lib, pages, quality);
    assert forall f :: f in Scratch(k) <==> f.page < k by {
      forall f ensures f in Scratch(k) <==> f.page < k {
        InScratch(k, f);
      }
    }
    if k < |pages| then (before - Scratch(k)) + Leftover(TranscodePage(lib, pages[k], quality).stage, k)
    else before - Scratch(k)
  }

  /**
   * After a clean run no scratch file of any source page remains, and a
   * scratch directory holding no file of these pages is left as it was.
   */
  lemma ScratchAfterBounds(lib: Library, pages: seq<Page>, quality: int, before: set<TempFile>)
    ensures TranscodeAll(lib, pages, quality).Some? ==>
      forall f :: (f in ScratchAfter(lib, pages, quality, before) ==> f in before && f.page >= |pages|)
    ensures TranscodeAll(lib, pages, quality).Some? && (forall f :: f in before ==> f.page >= |pages|)
      ==> ScratchAfter(lib, pages, quality, before) == before
  {
    TranscodeAllFails(lib, pages, quality);
  }
}
