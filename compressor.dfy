/**
 * `PDFCompressor` of pdf_compressor.py: the page loop of `compress_pdf`
 * (lines 13-85) with its output accumulator and scratch-directory
 * bookkeeping, and the unit loop of `_format_size` (lines 107-113).
 * Every exception the body can raise ends in `return False` (lines 81-85).
 */
module Compressor {
  import opened Wrappers
  import opened QualityMapper
  import opened ImageResize
  import opened Pipeline
  import opened SizeFormat

  type Path = string

  /** A PDF file: its pages and its size in bytes. */
  datatype Document = Document(pages: seq<Page>, size: nat)

  /** The files the compressor opens and writes, outside its scratch directory. */
  class Disk {
    /** The PDF files PyMuPDF can open, by path. */
    var docs: map<Path, Document>
    /** The paths `open(path, 'wb')` and `PdfWriter.write` succeed on. */
    var writable: set<Path>

    constructor (docs: map<Path, Document>, writable: set<Path>)
      ensures this.docs == docs && this.writable == writable
    {
      this.docs := docs;
      this.writable := writable;
    }
  }

  /** Whether `compress_pdf` gets as far as writing the output file. */
  ghost predicate WritesOutput(docs: map<Path, Document>, writable: set<Path>, lib: Library,
                               inputPath: Path, outputPath: Path, quality: int)
  {
    && inputPath in docs
    && !TargetDpiRaises(quality)
    && TranscodeAll(lib, docs[inputPath].pages, quality).Some?
    && outputPath in writable
  }

  class PdfCompressor {
    /** The files in `self.temp_dir` (line 11). */
    var tempFiles: set<TempFile>

    /** `tempfile.mkdtemp()` makes a new, empty directory. */
    constructor ()
      ensures tempFiles == {}
    {
      tempFiles := {};
    }

    /**
     * `compress_pdf`: transcode every page in order into the writer, write
     * the output only after the last page, and return true only once the
     * output is written and the size report has not raised.
     */
    method Compress(disk: Disk, lib: Library, inputPath: Path, outputPath: Path, quality: int)
      returns (ok: bool)
      modifies this, disk`docs
      ensures disk.docs ==
        if WritesOutput(old(disk.docs), disk.writable, lib, inputPath, outputPath, quality)
        then
          var out := TranscodeAll(lib, old(disk.docs)[inputPath].pages, quality).value;
          old(disk.docs)[outputPath := Document(out, lib.pdfSize(out))]
        else old(disk.docs)
      ensures ok <==> WritesOutput(old(disk.docs), disk.writable, lib, inputPath, outputPath, quality)
                      && disk.docs[inputPath].size > 0
      ensures ok ==> |disk.docs[outputPath].pages| == |old(disk.docs)[inputPath].pages|
      ensures ok ==> forall i :: 0 <= i < |disk.docs[outputPath].pages| ==>
        TranscodePage(lib, old(disk.docs)[inputPath].pages[i], quality) == Done(disk.docs[outputPath].pages[i])
      ensures inputPath !in old(disk.docs) || TargetDpiRaises(quality) ==> tempFiles == old(tempFiles)
      ensures inputPath in old(disk.docs) && !TargetDpiRaises(quality) ==>
        tempFiles == ScratchAfter(lib, old(disk.docs)[inputPath].pages, quality, old(tempFiles))
    {
      if inputPath !in disk.docs {
        return false;  // fitz.open raises
      }
      if TargetDpiRaises(quality) {
        return false;  // int() of an infinite target_dpi raises
      }
      var pages := disk.docs[inputPath].pages;
      var outPages: seq<Page> := [];
      var imageQuality := ImageQuality(quality);
      var i := 0;
      while i < |pages|
        invariant 0 <= i <= |pages|
        invariant |outPages| == i
        invariant forall j :: 0 <= j < i ==> TranscodePage(lib, pages[j], quality) == Done(outPages[j])
        invariant tempFiles == old(tempFiles) - Scratch(i)
        invariant disk.docs == old(disk.docs)
      {
        var pix := lib.rasterize(pages[i]);
        if pix.None? {
          FirstFailureAt(lib, pages, quality, i);
          return false;
        }
        var image := CompressImage(lib.imaging, FromBytes(pix.value), quality);
        if image.None? {
          FirstFailureAt(lib, pages, quality, i);
          return false;
        }
        var jpeg := lib.encodeJpeg(image.value, imageQuality);
        if jpeg.None? {
          FirstFailureAt(lib, pages, quality, i);
          return false;
        }
        tempFiles := tempFiles + {TempFile(i, Jpg)};
        var pdf := lib.imageToPdf(jpeg.value);
        if pdf.None? {
          FirstFailureAt(lib, pages, quality, i);
          return false;
        }
        tempFiles := tempFiles + {TempFile(i, Pdf)};
        var page := lib.firstPage(pdf.value);
        if page.None? {
          FirstFailureAt(lib, pages, quality, i);
          return false;
        }
        outPages := outPages + [page.value];
        tempFiles := tempFiles - {TempFile(i, Jpg)};
        tempFiles := tempFiles - {TempFile(i, Pdf)};
        i := i + 1;
      }
      TranscodeAllCollects(lib, pages, quality, outPages);
      TranscodeAllFails(lib, pages, quality);
      if outputPath !in disk.writable {
        return false;  // open or write of the output raises
      }
      disk.docs := disk.docs[outputPath := Document(outPages, lib.pdfSize(outPages))];
      // line 73 divides by the input's size, read after the write
      ok := disk.docs[inputPath].size > 0;
    }

    /**
     * `_format_size`: divide by 1024 until the value drops below 1024, at
     * most four times, and name the unit reached.
     */
    method FormatSize(size: real) returns (value: real, unit: string)
      ensures UnitIndex(size) <= 4 && unit == UnitName(UnitIndex(size))
      ensures value == size / Scale(UnitIndex(size))
    {
      value := size;
      var i := 0;
      while i < |UnitNames|
        invariant 0 <= i <= 4
        invariant value == size / Scale(i)
        invariant i <= UnitIndex(size)
      {
        DividedBelow(size, i);
        if value < 1024.0 {
          return value, UnitNames[i];
        }
        value := value / 1024.0;
        i := i + 1;
      }
      unit := "TB";
    }
  }
}
