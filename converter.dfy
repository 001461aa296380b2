/**
 * `convert_office_to_pdf` (pdf_bot3.py:28-61): runs LibreOffice on an
 * Office document and reports the PDF it is expected to have written.
 * The subprocess itself is an input: how it ended and which files it wrote.
 */
module Converter {
  import opened Optional
  import opened PyStr
  import opened PosixPath

  /** How `subprocess.run([... 'libreoffice' ...], check=True, timeout=60)` ended. */
  datatype ConverterRun =
    | Completed(written: set<string>)  // exit status 0 within the timeout; the files it wrote
    | NonZeroExit                      // `subprocess.CalledProcessError`
    | TimedOut                         // `subprocess.TimeoutExpired`
    | OtherFailure                     // any other exception, e.g. the binary is missing

  /** The working directory's files once the run is over. */
  function FilesAfter(run: ConverterRun, before: set<string>): (after: set<string>)
    ensures before <= after
  {
    if run.Completed? then before + run.written else before
  }

  /** `os.path.join(output_dir, os.path.splitext(os.path.basename(office_path))[0] + '.pdf')` */
  function ConvertedPdfPath(officePath: string, outputDir: string): string
  {
    Join(outputDir, Stem(Basename(officePath)) + ".pdf")
  }

  /**
   * The converted PDF's path when LibreOffice exited cleanly and that file
   * exists afterwards (`os.path.exists` over `FilesAfter`); `None` for a
   * missing file and for every exception the function catches.
   */
  function ConvertOfficeToPdf(officePath: string, outputDir: string, run: ConverterRun, before: set<string>)
    : (r: Option<string>)
    ensures r.Some? <==> run.Completed? && ConvertedPdfPath(officePath, outputDir) in FilesAfter(run, before)
    ensures r.Some? ==> r.value == ConvertedPdfPath(officePath, outputDir)
  {
    match run
    case Completed(written) =>
      var converted := ConvertedPdfPath(officePath, outputDir);
      if converted in before + written then Some(converted) else None
    case NonZeroExit => None
    case TimedOut => None
    case OtherFailure => None
  }

  /** The conversion only looks at the one path it expects: other files in the directory change nothing. */
  lemma ConversionIgnoresOtherFiles(officePath: string, outputDir: string, run: ConverterRun,
                                    before: set<string>, extra: set<string>)
    requires ConvertedPdfPath(officePath, outputDir) !in extra
    ensures FilesAfter(run, before + extra) == FilesAfter(run, before) + extra
    ensures ConvertOfficeToPdf(officePath, outputDir, run, before + extra) == ConvertOfficeToPdf(officePath, outputDir, run, before)
  {
  }

  /** `<stem>.pdf` of a separator-free name has no separator. */
  lemma PdfNameHasNoSep(name: string)
    requires Sep !in name
    ensures Sep !in Stem(name) + ".pdf"
  {
    var q := Stem(name) + ".pdf";
    NoSepInStem(name);
    forall k | 0 <= k < |q| ensures q[k] != Sep {
      if k < |Stem(name)| { assert q[k] == Stem(name)[k]; } else { assert q[k] == ".pdf"[k - |Stem(name)|]; }
    }
  }

  /** The converted file is `<stem>.pdf`, named by the stem of the document's own name. */
  lemma ConvertedPdfName(officePath: string, outputDir: string)
    ensures Basename(ConvertedPdfPath(officePath, outputDir)) == Stem(Basename(officePath)) + ".pdf"
    ensures EndsWith(ConvertedPdfPath(officePath, outputDir), ".pdf")
  {
    var base := Basename(officePath);
    var q := Stem(base) + ".pdf";
    BasenameHasNoSep(officePath);
    PdfNameHasNoSep(base);
    BasenameOfJoin(outputDir, q);
    JoinEndsWith(outputDir, q);
    assert q[|q| - 4..] == ".pdf";
    EndsWithTransitive(Join(outputDir, q), q, ".pdf");
  }

  /** For a document saved under `dir` by its own name, the PDF lands beside it as `<stem>.pdf`. */
  lemma ConvertedPdfOfSaved(dir: string, filename: string)
    requires Sep !in filename
    ensures ConvertedPdfPath(Join(dir, filename), dir) == Join(dir, Stem(filename) + ".pdf")
  {
    BasenameOfJoin(dir, filename);
  }
}
