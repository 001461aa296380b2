/**
 * What the handler guarantees: for one attachment (what it sends, when it
 * reports a failure, what success looks like), for one message (the
 * opening notice, the destination, the fallback notice), and across
 * attachments (a failure stays with its attachment).
 */
module PipelineFacts {
  import opened Optional
  import opened PyStr
  import opened PosixPath
  import opened Converter
  import opened Events
  import opened Classify
  import opened Pages
  import opened Chunking
  import opened Pipeline

  // ---------------------------------------------------------------------------
  // One attachment
  // ---------------------------------------------------------------------------

  /**
   * The sends made for the attachment `a`: all go to `dest`, each but the
   * uncaptioned continuation uploads names `a`,
   * a failure notice can only be the last of them, an error notice
   * carries the message of the exception that was raised, and the
   * unsupported notice is only sent for a name the filter rejects.
   */
  predicate Contained(dest: Dest, a: Attachment, s: seq<Send>)
  {
    (forall k :: 0 <= k < |s| ==> s[k].dest == dest && !IsMessageLevel(s[k].text)) &&
    (forall k :: 0 <= k < |s| && !s[k].text.Continuation? ==> s[k].text.file == a.filename) &&
    (forall k :: 0 <= k < |s| && IsFailureNotice(s[k].text) ==> k == |s| - 1) &&
    (forall k :: 0 <= k < |s| && s[k].text.ProcessingError? ==>
       a.fate.fault.Some? && s[k].text.error == a.fate.fault.value.message) &&
    (forall k :: 0 <= k < |s| && s[k].text.Unsupported? ==> !Qualifies(a.filename))
  }

  predicate NoFailureNotice(s: seq<Send>)
  {
    forall k :: 0 <= k < |s| ==> !IsFailureNotice(s[k].text)
  }

  lemma UploadsContained(dest: Dest, a: Attachment, paths: seq<string>, c: nat)
    requires c <= |UploadSends(dest, a.filename, paths)|
    ensures Contained(dest, a, UploadSends(dest, a.filename, paths)[..c])
    ensures NoFailureNotice(UploadSends(dest, a.filename, paths)[..c])
  {
    UploadSendsFacts(dest, a.filename, paths);
  }

  lemma ErrorLastContained(dest: Dest, a: Attachment, s: seq<Send>)
    requires Contained(dest, a, s) && NoFailureNotice(s) && a.fate.fault.Some?
    ensures Contained(dest, a, s + [ErrorNotice(dest, a)])
  {
  }

  lemma NoticeFirstContained(dest: Dest, a: Attachment, t: Text, s: seq<Send>)
    requires Contained(dest, a, s)
    requires !IsMessageLevel(t) && !t.Continuation? && !IsFailureNotice(t) && t.file == a.filename
    requires !t.Unsupported?
    ensures Contained(dest, a, [Send(dest, t, [])] + s)
  {
    var r := [Send(dest, t, [])] + s;
    assert forall k :: 1 <= k < |r| ==> r[k] == s[k - 1];
  }

  lemma SkipNoticeContained(dest: Dest, a: Attachment, t: Text, files: set<string>)
    requires !IsMessageLevel(t) && !t.Continuation? && t.file == a.filename && !t.ProcessingError?
    requires t.Unsupported? ==> !Qualifies(a.filename)
    ensures Contained(dest, a, SkipNotice(dest, a, t, files).sends)
  {
  }

  lemma RenderAndUploadContained(dest: Dest, dir: string, files: set<string>, a: Attachment, pdf: string)
    ensures Contained(dest, a, RenderAndUpload(dest, dir, files, a, pdf).sends)
  {
    var f := a.filename;
    if !RaisesAt(a, AtRender) && a.fate.pages == 0 {
      SkipNoticeContained(dest, a, NoImages(f, Basename(pdf)), files);
    } else if !RaisesAt(a, AtRender) {
      var n := a.fate.pages;
      var failPage := ImageSaveFailure(a);
      if !(failPage.Some? && failPage.value < n) {
        var paths := PagePaths(dir, f, n);
        var uploads := UploadSends(dest, f, paths);
        var failChunk := UploadFailure(a);
        if failChunk.Some? && failChunk.value < |uploads| {
          UploadsContained(dest, a, paths, failChunk.value);
          ErrorLastContained(dest, a, uploads[..failChunk.value]);
        } else {
          UploadsContained(dest, a, paths, |uploads|);
          assert uploads[..|uploads|] == uploads;
        }
      }
    }
  }

  lemma OfficeContained(dest: Dest, dir: string, after: set<string>, a: Attachment, converted: Option<string>)
    ensures Contained(dest, a, AfterConversion(dest, dir, after, a, converted).sends)
  {
    var f := a.filename;
    if converted.Some? && converted.value != [] && converted.value in after {
      if !RaisesAt(a, AtConvertedNotice) {
        var rest := RenderAndUpload(dest, dir, after, a, converted.value);
        RenderAndUploadContained(dest, dir, after, a, converted.value);
        NoticeFirstContained(dest, a, ConvertedTo(f, Basename(converted.value)), rest.sends);
      }
    } else {
      SkipNoticeContained(dest, a, ConversionFailed(f), after);
    }
  }

  lemma AfterReceiptContained(dest: Dest, dir: string, files: set<string>, a: Attachment)
    ensures Contained(dest, a, AfterReceipt(dest, dir, files, a).sends)
  {
    var f := a.filename;
    var b := BranchOf(f);
    if b == OfficeBranch {
      var run := a.fate.converter;
      OfficeContained(dest, dir, FilesAfter(run, files), a, ConvertOfficeToPdf(Join(dir, f), dir, run, files));
    } else if b == PdfBranch {
      RenderAndUploadContained(dest, dir, files, a, Join(dir, f));
    } else {
      SkipNoticeContained(dest, a, Unsupported(f), files);
    }
  }

  /** Every image the sends `s` carry is one of the attachment's own page images. */
  predicate ImagesOwned(dir: string, a: Attachment, s: seq<Send>)
  {
    forall k, j :: 0 <= k < |s| && 0 <= j < |s[k].files| ==> s[k].files[j] in PagePaths(dir, a.filename, a.fate.pages)
  }

  lemma ImagelessFirstOwned(dir: string, a: Attachment, t: Send, s: seq<Send>)
    requires t.files == [] && ImagesOwned(dir, a, s)
    ensures ImagesOwned(dir, a, [t] + s)
  {
    forall k, j | 0 <= k < |[t] + s| && 0 <= j < |([t] + s)[k].files|
      ensures ([t] + s)[k].files[j] in PagePaths(dir, a.filename, a.fate.pages)
    {
      assert ([t] + s)[k] == s[k - 1];
    }
  }

  /** Rendering and uploading send only the attachment's own page images. */
  lemma RenderImagesOwned(dest: Dest, dir: string, files: set<string>, a: Attachment, pdf: string)
    ensures ImagesOwned(dir, a, RenderAndUpload(dest, dir, files, a, pdf).sends)
  {
    var f := a.filename;
    var paths := PagePaths(dir, f, a.fate.pages);
    var uploads := UploadSends(dest, f, paths);
    UploadImagesFrom(dest, f, paths);
    var failChunk := UploadFailure(a);
    if failChunk.Some? && failChunk.value < |uploads| {
      var s := uploads[..failChunk.value] + [ErrorNotice(dest, a)];
      assert forall k :: 0 <= k < failChunk.value ==> s[k] == uploads[k];
    }
  }

  /** The Office branch after the conversion sends only the attachment's own page images. */
  lemma ConversionImagesOwned(dest: Dest, dir: string, after: set<string>, a: Attachment, converted: Option<string>)
    ensures ImagesOwned(dir, a, AfterConversion(dest, dir, after, a, converted).sends)
  {
    var f := a.filename;
    if converted.Some? && converted.value != [] && converted.value in after && !RaisesAt(a, AtConvertedNotice) {
      RenderImagesOwned(dest, dir, after, a, converted.value);
      ImagelessFirstOwned(dir, a, Send(dest, ConvertedTo(f, Basename(converted.value)), []),
                          RenderAndUpload(dest, dir, after, a, converted.value).sends);
    }
  }

  /**
   * A turn uploads only the attachment's own page images: the uncaptioned
   * continuation messages of line 156 belong to their attachment too.
   */
  lemma StepImagesOwned(dest: Dest, dir: string, files: set<string>, a: Attachment)
    ensures ImagesOwned(dir, a, AttachmentStep(dest, dir, files, a).sends)
  {
    var f := a.filename;
    var saved := files + {Join(dir, f)};
    if !RaisesAt(a, AtSave) && !RaisesAt(a, AtReceivedNotice) {
      var b := BranchOf(f);
      if b == OfficeBranch {
        var run := a.fate.converter;
        ConversionImagesOwned(dest, dir, FilesAfter(run, saved), a, ConvertOfficeToPdf(Join(dir, f), dir, run, saved));
      } else if b == PdfBranch {
        RenderImagesOwned(dest, dir, saved, a, Join(dir, f));
      }
      ImagelessFirstOwned(dir, a, Send(dest, Received(f), []), AfterReceipt(dest, dir, saved, a).sends);
    }
  }

  /**
   * Error containment for one attachment: everything it sends goes to the
   * destination, and every send but the continuation uploads names the
   * attachment (those carry its own images, `StepImagesOwned`); at most one failure notice is
   * sent, and nothing after it; an error notice reports the exception raised;
   * and the working directory only gains files.
   */
  lemma StepContained(dest: Dest, dir: string, files: set<string>, a: Attachment)
    ensures var r := AttachmentStep(dest, dir, files, a);
            Contained(dest, a, r.sends) && |r.sends| >= 1 && files <= r.files
  {
    StepKeepsFiles(dest, dir, files, a);
    if !RaisesAt(a, AtSave) && !RaisesAt(a, AtReceivedNotice) {
      var saved := files + {Join(dir, a.filename)};
      AfterReceiptContained(dest, dir, saved, a);
      NoticeFirstContained(dest, a, Received(a.filename), AfterReceipt(dest, dir, saved, a).sends);
    }
  }

  lemma StepKeepsFiles(dest: Dest, dir: string, files: set<string>, a: Attachment)
    ensures files <= AttachmentStep(dest, dir, files, a).files
  {
    if !RaisesAt(a, AtSave) && !RaisesAt(a, AtReceivedNotice) {
      AfterReceiptKeepsFiles(dest, dir, files + {Join(dir, a.filename)}, a);
    }
  }

  lemma AfterReceiptKeepsFiles(dest: Dest, dir: string, files: set<string>, a: Attachment)
    ensures files <= AfterReceipt(dest, dir, files, a).files
  {
    var f := a.filename;
    var b := BranchOf(f);
    if b == OfficeBranch {
      var run := a.fate.converter;
      ConversionKeepsFiles(dest, dir, FilesAfter(run, files), a, ConvertOfficeToPdf(Join(dir, f), dir, run, files));
    } else if b == PdfBranch {
      RenderKeepsFiles(dest, dir, files, a, Join(dir, f));
    }
  }

  lemma ConversionKeepsFiles(dest: Dest, dir: string, after: set<string>, a: Attachment, converted: Option<string>)
    ensures after <= AfterConversion(dest, dir, after, a, converted).files
  {
    if converted.Some? {
      RenderKeepsFiles(dest, dir, after, a, converted.value);
    }
  }

  lemma RenderKeepsFiles(dest: Dest, dir: string, files: set<string>, a: Attachment, pdf: string)
    ensures files <= RenderAndUpload(dest, dir, files, a, pdf).files
  {
  }

  /** An attachment without an exception never gets the error notice of line 162. */
  lemma NoFaultNoErrorNotice(dest: Dest, dir: string, files: set<string>, a: Attachment)
    requires a.fate.fault == None
    ensures forall s :: s in AttachmentStep(dest, dir, files, a).sends ==> !s.text.ProcessingError?
  {
    StepContained(dest, dir, files, a);
  }

  /** The "unsupported" notice of line 123 is only sent for names the filter would have dropped. */
  lemma UnsupportedOnlyForUnqualified(dest: Dest, dir: string, files: set<string>, a: Attachment)
    requires Qualifies(a.filename)
    ensures forall s :: s in AttachmentStep(dest, dir, files, a).sends ==> !s.text.Unsupported?
  {
    StepContained(dest, dir, files, a);
  }

  /** A PDF attachment that renders to `n >= 1` pages: receipt, then the pages in chunks of ten. */
  lemma PdfAttachmentUploaded(dest: Dest, dir: string, files: set<string>, a: Attachment)
    requires IsPdfName(a.filename) && a.fate.fault == None && a.fate.pages >= 1
    ensures var paths := PagePaths(dir, a.filename, a.fate.pages);
            AttachmentStep(dest, dir, files, a) ==
              Step([Send(dest, Received(a.filename), [])] + UploadSends(dest, a.filename, paths),
                   files + {Join(dir, a.filename)} + SetOf(paths))
  {
    PdfIsNotOffice(a.filename);
  }

  /**
   * An Office attachment that LibreOffice converts and that renders to
   * `n >= 1` pages: receipt, the conversion notice naming `<stem>.pdf`, then
   * the pages in chunks of ten.
   */
  lemma OfficeAttachmentUploaded(dest: Dest, dir: string, files: set<string>, a: Attachment)
    requires IsOfficeName(a.filename) && Sep !in a.filename
    requires a.fate.fault == None && a.fate.pages >= 1 && a.fate.converter.Completed?
    requires Join(dir, Stem(a.filename) + ".pdf") in files + {Join(dir, a.filename)} + a.fate.converter.written
    ensures var paths := PagePaths(dir, a.filename, a.fate.pages);
            var saved := files + {Join(dir, a.filename)};
            AttachmentStep(dest, dir, files, a) ==
              Step([Send(dest, Received(a.filename), [])] +
                   ([Send(dest, ConvertedTo(a.filename, Stem(a.filename) + ".pdf"), [])] +
                    UploadSends(dest, a.filename, paths)),
                   FilesAfter(a.fate.converter, saved) + SetOf(paths))
  {
    var f := a.filename;
    var pdf := Join(dir, Stem(f) + ".pdf");
    var saved := files + {Join(dir, f)};
    var after := FilesAfter(a.fate.converter, saved);
    ConversionOfSaved(dir, f, a.fate.converter, saved);
    OfficeStepUnfold(dest, dir, files, a);
    ConvertedUploaded(dest, dir, after, a, pdf);
  }

  /** The document saved as `dir/filename` converts to `dir/<stem>.pdf` when that file exists afterwards. */
  lemma ConversionOfSaved(dir: string, filename: string, run: ConverterRun, saved: set<string>)
    requires Sep !in filename && run.Completed?
    requires Join(dir, Stem(filename) + ".pdf") in saved + run.written
    ensures var pdf := Join(dir, Stem(filename) + ".pdf");
            ConvertOfficeToPdf(Join(dir, filename), dir, run, saved) == Some(pdf) &&
            pdf != [] && pdf in FilesAfter(run, saved) && Basename(pdf) == Stem(filename) + ".pdf"
  {
    var original := Join(dir, filename);
    ConvertedPdfOfSaved(dir, filename);
    ConvertedPdfName(original, dir);
    BasenameOfJoin(dir, filename);
  }

  /** The start of an Office attachment's turn: save, acknowledge, then what the conversion's result leads to. */
  lemma OfficeStepUnfold(dest: Dest, dir: string, files: set<string>, a: Attachment)
    requires IsOfficeName(a.filename) && !RaisesAt(a, AtSave) && !RaisesAt(a, AtReceivedNotice)
    ensures var saved := files + {Join(dir, a.filename)};
            var run := a.fate.converter;
            var x := AfterConversion(dest, dir, FilesAfter(run, saved), a,
                                     ConvertOfficeToPdf(Join(dir, a.filename), dir, run, saved));
            AttachmentStep(dest, dir, files, a) == Step([Send(dest, Received(a.filename), [])] + x.sends, x.files)
  {
  }

  /** A converted PDF that exists and renders without exception: the conversion notice, then the uploads. */
  lemma ConvertedUploaded(dest: Dest, dir: string, after: set<string>, a: Attachment, pdf: string)
    requires pdf != [] && pdf in after && a.fate.fault == None && a.fate.pages >= 1
    ensures var paths := PagePaths(dir, a.filename, a.fate.pages);
            AfterConversion(dest, dir, after, a, Some(pdf)) ==
              Step([Send(dest, ConvertedTo(a.filename, Basename(pdf)), [])] + UploadSends(dest, a.filename, paths),
                   after + SetOf(paths))
  {
  }

  /** An Office attachment whose conversion reports `None`: receipt, then the conversion-failure notice. */
  lemma OfficeConversionFailureReported(dest: Dest, dir: string, files: set<string>, a: Attachment)
    requires IsOfficeName(a.filename) && a.fate.fault == None
    requires ConvertOfficeToPdf(Join(dir, a.filename), dir, a.fate.converter, files + {Join(dir, a.filename)}) == None
    ensures AttachmentStep(dest, dir, files, a).sends ==
              [Send(dest, Received(a.filename), []), Send(dest, ConversionFailed(a.filename), [])]
  {
    OfficeStepUnfold(dest, dir, files, a);
  }

  /** A PDF that renders to no image at all: receipt, then the notice of line 138 naming the file. */
  lemma EmptyRenderingReported(dest: Dest, dir: string, files: set<string>, a: Attachment)
    requires IsPdfName(a.filename) && Sep !in a.filename && a.fate.fault == None && a.fate.pages == 0
    ensures AttachmentStep(dest, dir, files, a).sends ==
              [Send(dest, Received(a.filename), []), Send(dest, NoImages(a.filename, a.filename), [])]
  {
    PdfIsNotOffice(a.filename);
    BasenameOfJoin(dir, a.filename);
  }

  /**
   * Exceptions in a PDF attachment's processing: what was sent before the
   * raising statement stays sent, the error notice follows, and nothing else.
   */
  lemma PdfExceptionReported(dest: Dest, dir: string, files: set<string>, a: Attachment, e: string)
    requires IsPdfName(a.filename)
    ensures var f := a.filename;
            var err := Send(dest, ProcessingError(f, e), []);
            var got := Send(dest, Received(f), []);
            var uploads := UploadSends(dest, f, PagePaths(dir, f, a.fate.pages));
            var s := AttachmentStep(dest, dir, files, a).sends;
            (a.fate.fault == Some(Fault(AtSave, e)) ==> s == [err]) &&
            (a.fate.fault == Some(Fault(AtReceivedNotice, e)) ==> s == [err]) &&
            (a.fate.fault == Some(Fault(AtRender, e)) ==> s == [got, err]) &&
            (a.fate.fault == Some(Fault(AtSkipNotice, e)) && a.fate.pages == 0 ==> s == [got, err]) &&
            (forall p: nat :: a.fate.fault == Some(Fault(AtImageSave(p), e)) && p < a.fate.pages ==> s == [got, err]) &&
            (forall c: nat :: a.fate.fault == Some(Fault(AtUpload(c), e)) && c < |uploads| ==>
               s == [got] + uploads[..c] + [err])
  {
    PdfIsNotOffice(a.filename);
  }

  /** An exception in `attachment.save` or in the receipt notice: the error notice alone, whatever the file. */
  lemma EarlyExceptionReported(dest: Dest, dir: string, files: set<string>, a: Attachment, e: string)
    ensures var err := Send(dest, ProcessingError(a.filename, e), []);
            var s := AttachmentStep(dest, dir, files, a).sends;
            (a.fate.fault == Some(Fault(AtSave, e)) ==> s == [err]) &&
            (a.fate.fault == Some(Fault(AtReceivedNotice, e)) ==> s == [err])
  {
  }

  /**
   * Exceptions after a successful conversion, once the converted PDF is
   * known: the conversion notice is sent unless it is what raises, then
   * whatever was sent before the raising statement, then the error notice.
   */
  lemma ConvertedExceptionReported(dest: Dest, dir: string, after: set<string>, a: Attachment, pdf: string, e: string)
    requires pdf != [] && pdf in after
    ensures var f := a.filename;
            var err := Send(dest, ProcessingError(f, e), []);
            var conv := Send(dest, ConvertedTo(f, Basename(pdf)), []);
            var uploads := UploadSends(dest, f, PagePaths(dir, f, a.fate.pages));
            var s := AfterConversion(dest, dir, after, a, Some(pdf)).sends;
            (a.fate.fault == Some(Fault(AtConvertedNotice, e)) ==> s == [err]) &&
            (a.fate.fault == Some(Fault(AtRender, e)) ==> s == [conv, err]) &&
            (a.fate.fault == Some(Fault(AtSkipNotice, e)) && a.fate.pages == 0 ==> s == [conv, err]) &&
            (forall p: nat :: a.fate.fault == Some(Fault(AtImageSave(p), e)) && p < a.fate.pages ==> s == [conv, err]) &&
            (forall c: nat :: a.fate.fault == Some(Fault(AtUpload(c), e)) && c < |uploads| ==>
               s == [conv] + (uploads[..c] + [err]))
  {
  }

  /**
   * Exceptions in an Office attachment's turn when LibreOffice produces
   * `<stem>.pdf`: what was sent before the raising statement stays sent,
   * the error notice follows, and nothing else.
   */
  lemma OfficeExceptionReported(dest: Dest, dir: string, files: set<string>, a: Attachment, e: string)
    requires IsOfficeName(a.filename) && Sep !in a.filename && a.fate.converter.Completed?
    requires Join(dir, Stem(a.filename) + ".pdf") in files + {Join(dir, a.filename)} + a.fate.converter.written
    ensures var f := a.filename;
            var err := Send(dest, ProcessingError(f, e), []);
            var got := Send(dest, Received(f), []);
            var conv := Send(dest, ConvertedTo(f, Stem(f) + ".pdf"), []);
            var uploads := UploadSends(dest, f, PagePaths(dir, f, a.fate.pages));
            var s := AttachmentStep(dest, dir, files, a).sends;
            (a.fate.fault == Some(Fault(AtSave, e)) ==> s == [err]) &&
            (a.fate.fault == Some(Fault(AtReceivedNotice, e)) ==> s == [err]) &&
            (a.fate.fault == Some(Fault(AtConvertedNotice, e)) ==> s == [got] + [err]) &&
            (a.fate.fault == Some(Fault(AtRender, e)) ==> s == [got] + [conv, err]) &&
            (a.fate.fault == Some(Fault(AtSkipNotice, e)) && a.fate.pages == 0 ==> s == [got] + [conv, err]) &&
            (forall p: nat :: a.fate.fault == Some(Fault(AtImageSave(p), e)) && p < a.fate.pages ==> s == [got] + [conv, err]) &&
            (forall c: nat :: a.fate.fault == Some(Fault(AtUpload(c), e)) && c < |uploads| ==>
               s == [got] + ([conv] + (uploads[..c] + [err])))
  {
    var f := a.filename;
    var pdf := Join(dir, Stem(f) + ".pdf");
    var saved := files + {Join(dir, f)};
    var after := FilesAfter(a.fate.converter, saved);
    if a.fate.fault.Some? && a.fate.fault.value.at != AtSave && a.fate.fault.value.at != AtReceivedNotice {
      ConversionOfSaved(dir, f, a.fate.converter, saved);
      OfficeStepUnfold(dest, dir, files, a);
      ConvertedExceptionReported(dest, dir, after, a, pdf, e);
    }
  }

  /** An exception in the conversion-failure notice of line 118: the receipt, then the error notice. */
  lemma FailureNoticeExceptionReported(dest: Dest, dir: string, files: set<string>, a: Attachment, e: string)
    requires IsOfficeName(a.filename) && a.fate.fault == Some(Fault(AtSkipNotice, e))
    requires ConvertOfficeToPdf(Join(dir, a.filename), dir, a.fate.converter, files + {Join(dir, a.filename)}) == None
    ensures AttachmentStep(dest, dir, files, a).sends ==
              [Send(dest, Received(a.filename), []), Send(dest, ProcessingError(a.filename, e), [])]
  {
    OfficeStepUnfold(dest, dir, files, a);
  }

  // ---------------------------------------------------------------------------
  // One message
  // ---------------------------------------------------------------------------

  /** Every send of the loop goes to one destination and is about one attachment. */
  lemma {:induction false} RunSends(dest: Dest, dir: string, files: set<string>, atts: seq<Attachment>)
    decreases |atts|
    ensures var s := Run(dest, dir, files, atts).sends;
            forall k :: 0 <= k < |s| ==> s[k].dest == dest && !IsMessageLevel(s[k].text)
  {
    if atts != [] {
      var first := AttachmentStep(dest, dir, files, atts[0]);
      StepContained(dest, dir, files, atts[0]);
      RunSends(dest, dir, first.files, atts[1..]);
      assert Run(dest, dir, files, atts).sends == first.sends + Run(dest, dir, first.files, atts[1..]).sends;
    }
  }

  /** No attachment that passed the filter is ever called unsupported. */
  lemma {:induction false} RunNeverUnsupported(dest: Dest, dir: string, files: set<string>, atts: seq<Attachment>)
    requires forall k :: 0 <= k < |atts| ==> Qualifies(atts[k].filename)
    decreases |atts|
    ensures forall s :: s in Run(dest, dir, files, atts).sends ==> !s.text.Unsupported?
  {
    if atts != [] {
      var first := AttachmentStep(dest, dir, files, atts[0]);
      UnsupportedOnlyForUnqualified(dest, dir, files, atts[0]);
      RunNeverUnsupported(dest, dir, first.files, atts[1..]);
      assert Run(dest, dir, files, atts).sends == first.sends + Run(dest, dir, first.files, atts[1..]).sends;
    }
  }

  /**
   * Once attachments qualify, the first send is the status notice counting
   * them, in the thread or (as the fallback notice) in the channel; every
   * later send goes to the destination chosen once, the thread if
   * `create_thread` returned one and the channel otherwise.
   */
  lemma OpeningAndDestination(m: Message)
    requires !m.fromSelf && Kept(m.attachments) != []
    ensures var t := MessageTrace(m);
            |t| >= 1 && t[0] == Opening(m.thread, CountQualifying(m.attachments)) &&
            forall k :: 1 <= k < |t| ==> t[k].dest == Destination(m.thread) && !IsMessageLevel(t[k].text)
  {
    KeptLength(m.attachments);
    RunSends(Destination(m.thread), m.tempDir, {}, Kept(m.attachments));
  }

  /** The fallback notice is sent exactly when a thread was wanted and its start notice did not go out, and then once, first, to the channel. */
  lemma FallbackNoticeOnce(m: Message)
    ensures var t := MessageTrace(m);
            (exists k :: 0 <= k < |t| && t[k].text.FallbackNotice?) <==>
              (!m.fromSelf && Kept(m.attachments) != [] && m.thread != ThreadCreated)
    ensures var t := MessageTrace(m);
            forall k :: 0 <= k < |t| && t[k].text.FallbackNotice? ==>
              k == 0 && t[k] == Send(Channel, FallbackNotice(|Kept(m.attachments)|), [])
  {
    var t := MessageTrace(m);
    if !m.fromSelf && Kept(m.attachments) != [] {
      OpeningAndDestination(m);
      KeptLength(m.attachments);
      if m.thread != ThreadCreated {
        assert t[0].text.FallbackNotice?;
      }
    }
  }

  /** For a message with qualifying attachments, the "unsupported format" notice of line 123 is never sent. */
  lemma UnsupportedBranchUnreachable(m: Message)
    ensures forall s :: s in MessageTrace(m) ==> !s.text.Unsupported?
  {
    if !m.fromSelf && Kept(m.attachments) != [] {
      var kept := Kept(m.attachments);
      KeptMembers(m.attachments);
      assert forall k :: 0 <= k < |kept| ==> kept[k] in kept;
      RunNeverUnsupported(Destination(m.thread), m.tempDir, {}, kept);
    }
  }

  // ---------------------------------------------------------------------------
  // Across attachments
  // ---------------------------------------------------------------------------

  /** The path whose existence decides whether an Office attachment counts as converted (lines 46, 113). */
  function Probe(dir: string, a: Attachment): string
  {
    ConvertedPdfPath(Join(dir, a.filename), dir)
  }

  /** Files that are not the attachment's probe do not change how it is handled; they stay in the directory. */
  lemma StepIgnoresUnprobedFiles(dest: Dest, dir: string, files: set<string>, extra: set<string>, a: Attachment)
    requires IsOfficeName(a.filename) ==> Probe(dir, a) !in extra
    ensures var r := AttachmentStep(dest, dir, files, a);
            AttachmentStep(dest, dir, files + extra, a) == Step(r.sends, r.files + extra)
  {
    var saved := files + {Join(dir, a.filename)};
    assert files + extra + {Join(dir, a.filename)} == saved + extra;
    if !RaisesAt(a, AtSave) && !RaisesAt(a, AtReceivedNotice) {
      AfterReceiptIgnoresUnprobedFiles(dest, dir, saved, extra, a);
    }
  }

  lemma AfterReceiptIgnoresUnprobedFiles(dest: Dest, dir: string, files: set<string>, extra: set<string>, a: Attachment)
    requires IsOfficeName(a.filename) ==> Probe(dir, a) !in extra
    ensures var r := AfterReceipt(dest, dir, files, a);
            AfterReceipt(dest, dir, files + extra, a) == Step(r.sends, r.files + extra)
  {
    var f := a.filename;
    var original := Join(dir, f);
    if BranchOf(f) == OfficeBranch {
      var run := a.fate.converter;
      ConversionIgnoresOtherFiles(original, dir, run, files, extra);
      var converted := ConvertOfficeToPdf(original, dir, run, files);
      ConversionIgnoresExtraFiles(dest, dir, FilesAfter(run, files), extra, a, converted);
    } else if BranchOf(f) == PdfBranch {
      RenderIgnoresExtraFiles(dest, dir, files, extra, a, original);
    }
  }

  lemma ConversionIgnoresExtraFiles(dest: Dest, dir: string, after: set<string>, extra: set<string>, a: Attachment,
                                    converted: Option<string>)
    requires converted.Some? ==> converted.value !in extra
    ensures var r := AfterConversion(dest, dir, after, a, converted);
            AfterConversion(dest, dir, after + extra, a, converted) == Step(r.sends, r.files + extra)
  {
    if converted.Some? {
      RenderIgnoresExtraFiles(dest, dir, after, extra, a, converted.value);
    }
  }

  lemma RenderIgnoresExtraFiles(dest: Dest, dir: string, files: set<string>, extra: set<string>, a: Attachment, pdf: string)
    ensures var r := RenderAndUpload(dest, dir, files, a, pdf);
            RenderAndUpload(dest, dir, files + extra, a, pdf) == Step(r.sends, r.files + extra)
  {
    var f := a.filename;
    if !RaisesAt(a, AtRender) && a.fate.pages > 0 {
      var n := a.fate.pages;
      var failPage := ImageSaveFailure(a);
      if failPage.Some? && failPage.value < n {
        var pages := SetOf(PagePaths(dir, f, failPage.value));
        assert files + extra + pages == files + pages + extra;
      } else {
        var pages := SetOf(PagePaths(dir, f, n));
        assert files + extra + pages == files + pages + extra;
      }
    }
  }

  /**
   * Every path a turn can write: the saved attachment, what LibreOffice
   * wrote for an Office document, and the page images. A path outside this
   * set keeps whatever it held before the turn, contents included.
   */
  function Writes(dir: string, a: Attachment): set<string>
  {
    var run := a.fate.converter;
    {Join(dir, a.filename)} +
    (if IsOfficeName(a.filename) && run.Completed? then run.written else {}) +
    SetOf(PagePaths(dir, a.filename, a.fate.pages))
  }

  /** Rendering writes only page images. */
  lemma RenderWrites(dest: Dest, dir: string, files: set<string>, a: Attachment, pdf: string)
    ensures RenderAndUpload(dest, dir, files, a, pdf).files <= files + SetOf(PagePaths(dir, a.filename, a.fate.pages))
  {
    var f := a.filename;
    var n := a.fate.pages;
    var failPage := ImageSaveFailure(a);
    if !RaisesAt(a, AtRender) && n > 0 && failPage.Some? && failPage.value < n {
      PagePathsPrefix(dir, f, failPage.value, n);
    }
  }

  /** After the conversion, only page images are written. */
  lemma ConversionWrites(dest: Dest, dir: string, after: set<string>, a: Attachment, converted: Option<string>)
    ensures AfterConversion(dest, dir, after, a, converted).files <= after + SetOf(PagePaths(dir, a.filename, a.fate.pages))
  {
    if converted.Some? {
      RenderWrites(dest, dir, after, a, converted.value);
    }
  }

  /** A turn adds to the directory only paths in its footprint `Writes`. */
  lemma StepWrites(dest: Dest, dir: string, files: set<string>, a: Attachment)
    ensures AttachmentStep(dest, dir, files, a).files <= files + Writes(dir, a)
  {
    var f := a.filename;
    var saved := files + {Join(dir, f)};
    var pages := SetOf(PagePaths(dir, f, a.fate.pages));
    if !RaisesAt(a, AtSave) && !RaisesAt(a, AtReceivedNotice) {
      var b := BranchOf(f);
      if b == OfficeBranch {
        var run := a.fate.converter;
        ConversionWrites(dest, dir, FilesAfter(run, saved), a, ConvertOfficeToPdf(Join(dir, f), dir, run, saved));
      } else if b == PdfBranch {
        RenderWrites(dest, dir, saved, a, Join(dir, f));
      }
    }
  }

  /**
   * An attachment named `<stem>.pdf` always writes where the document
   * `<stem>.docx` (or any Office `<stem>.*`) has its PDF looked for, so
   * `ErrorIsolation` never applies to it before such a document, whether
   * or not the file was already there.
   */
  lemma SameStemPdfInFootprint(dir: string, a: Attachment, b: Attachment)
    requires Sep !in b.filename && a.filename == Stem(b.filename) + ".pdf"
    ensures Probe(dir, b) in Writes(dir, a)
  {
    ConvertedPdfOfSaved(dir, b.filename);
  }

  /** The loop version: files none of the attachments probe leave every send unchanged. */
  lemma {:induction false} RunIgnoresUnprobedFiles(dest: Dest, dir: string, files: set<string>, extra: set<string>,
                                                   atts: seq<Attachment>)
    requires forall b :: b in atts && IsOfficeName(b.filename) ==> Probe(dir, b) !in extra
    decreases |atts|
    ensures var r := Run(dest, dir, files, atts);
            Run(dest, dir, files + extra, atts) == Step(r.sends, r.files + extra)
  {
    if atts != [] {
      var a := atts[0];
      var first := AttachmentStep(dest, dir, files, a);
      StepIgnoresUnprobedFiles(dest, dir, files, extra, a);
      RunIgnoresUnprobedFiles(dest, dir, first.files, extra, atts[1..]);
      assert Run(dest, dir, files, atts) ==
             Step(first.sends + Run(dest, dir, first.files, atts[1..]).sends, Run(dest, dir, first.files, atts[1..]).files);
      assert Run(dest, dir, files + extra, atts) ==
             Step(first.sends + Run(dest, dir, first.files + extra, atts[1..]).sends,
                  Run(dest, dir, first.files + extra, atts[1..]).files);
    }
  }

  /**
   * Error isolation: the messages sent with the attachment `a` in the
   * middle of the list are the messages sent without it, with `a`'s own
   * messages inserted at its place; so the attachments after it are handled
   * exactly as if it were absent. This holds whenever `a` writes nothing
   * at a path that a later Office attachment's conversion is checked
   * against. That is the one way the shared working directory couples
   * attachments, whether `a` creates that file or overwrites it.
   */
  lemma ErrorIsolation(dest: Dest, dir: string, pre: seq<Attachment>, a: Attachment, post: seq<Attachment>)
    requires forall b :: b in post && IsOfficeName(b.filename) ==> Probe(dir, b) !in Writes(dir, a)
    ensures var before := Run(dest, dir, {}, pre);
            var withA := Run(dest, dir, {}, pre + [a] + post).sends;
            var withoutA := Run(dest, dir, {}, pre + post).sends;
            var own := AttachmentStep(dest, dir, before.files, a).sends;
            var later := Run(dest, dir, before.files, post).sends;
            withoutA == before.sends + later && withA == before.sends + own + later
  {
    var step := StepIn(dest, dir);
    var r := Run(dest, dir, {}, pre);
    var stepA := AttachmentStep(dest, dir, r.files, a);
    StepKeepsFiles(dest, dir, r.files, a);
    StepWrites(dest, dir, r.files, a);
    var extra := stepA.files - r.files;
    assert stepA.files == r.files + extra;
    assert extra <= Writes(dir, a);
    RunIgnoresUnprobedFiles(dest, dir, r.files, extra, post);
    FoldAppend(step, {}, pre, post);
    FoldAppend(step, {}, pre + [a], post);
    RunSnoc(dest, dir, pre, a);
    var tail := Run(dest, dir, r.files, post).sends;
    assert Run(dest, dir, {}, pre + post).sends == r.sends + tail;
    assert Run(dest, dir, {}, pre + [a] + post).sends == r.sends + stepA.sends + tail;
  }

  /**
   * A PDF attachment does not look at the directory, so whatever happened to
   * the attachments before it, it is handled exactly as on its own.
   */
  lemma PdfAttachmentIndependent(dest: Dest, dir: string, files: set<string>, b: Attachment)
    requires IsPdfName(b.filename)
    ensures AttachmentStep(dest, dir, files, b).sends == AttachmentStep(dest, dir, {}, b).sends
  {
    PdfIsNotOffice(b.filename);
    StepIgnoresUnprobedFiles(dest, dir, {}, files, b);
    assert {} + files == files;
  }

  /**
   * A failed Office conversion does not stop a PDF after it: the PDF is
   * received and all its pages are uploaded.
   */
  lemma FailedConversionThenPdf(dest: Dest, dir: string, a: Attachment, b: Attachment)
    requires IsOfficeName(a.filename) && a.fate.fault == None && !a.fate.converter.Completed?
    requires IsPdfName(b.filename) && b.fate.fault == None && b.fate.pages >= 1
    ensures Run(dest, dir, {}, [a, b]).sends ==
              [Send(dest, Received(a.filename), []), Send(dest, ConversionFailed(a.filename), []),
               Send(dest, Received(b.filename), [])] +
              UploadSends(dest, b.filename, PagePaths(dir, b.filename, b.fate.pages))
  {
    OfficeConversionFailureReported(dest, dir, {}, a);
    var first := AttachmentStep(dest, dir, {}, a);
    PdfAttachmentUploaded(dest, dir, first.files, b);
    var second := AttachmentStep(dest, dir, first.files, b);
    RunPair(dest, dir, a, b);
    assert first.sends + second.sends ==
           [Send(dest, Received(a.filename), []), Send(dest, ConversionFailed(a.filename), [])] + second.sends;
  }

  /** The attachment's own file is saved in the working directory before anything else can go wrong. */
  lemma StepSavesAttachment(dest: Dest, dir: string, files: set<string>, a: Attachment)
    requires !RaisesAt(a, AtSave)
    ensures Join(dir, a.filename) in AttachmentStep(dest, dir, files, a).files
  {
    if !RaisesAt(a, AtReceivedNotice) {
      AfterReceiptKeepsFiles(dest, dir, files + {Join(dir, a.filename)}, a);
    }
  }

  /** Two attachments in turn: the second starts from the directory the first left. */
  lemma RunPair(dest: Dest, dir: string, a: Attachment, b: Attachment)
    ensures var first := AttachmentStep(dest, dir, {}, a);
            var second := AttachmentStep(dest, dir, first.files, b);
            Run(dest, dir, {}, [a, b]) == Step(first.sends + second.sends, second.files)
  {
    var step := StepIn(dest, dir);
    var first := step({}, a);
    var second := step(first.files, b);
    assert [b][1..] == [];
    assert Fold(step, first.files, [b]) == Step(second.sends + [], second.files);
    assert second.sends + [] == second.sends;
    assert [a, b][1..] == [b];
    assert Fold(step, {}, [a, b]) == Step(first.sends + second.sends, second.files);
  }

  /** The PDF an Office document is converted to never has the document's own name. */
  lemma ConvertedNameDiffers(filename: string)
    requires IsOfficeName(filename)
    ensures Stem(filename) + ".pdf" != filename
  {
    var q := Stem(filename) + ".pdf";
    assert Lower(q)[|q| - 4..] == ".pdf";
    PdfIsNotOffice(q);
  }

  /**
   * The shared working directory couples attachments. A PDF attachment
   * named `<stem>.pdf` leaves that file exactly where a later Office
   * document `<stem>.docx` (say) is expected to put its conversion. So when
   * LibreOffice then exits cleanly without writing anything, the document
   * is announced as converted and the earlier PDF is rendered in its place
   * (here: to no pages). On its own the same document gets the
   * conversion-failure notice.
   */
  lemma SharedDirectoryCrossTalk(dest: Dest, dir: string, a: Attachment, b: Attachment)
    requires IsOfficeName(b.filename) && Sep !in b.filename
    requires b.fate == Fate(Completed({}), 0, None)
    requires a.filename == Stem(b.filename) + ".pdf" && !RaisesAt(a, AtSave)
    ensures AttachmentStep(dest, dir, {}, b).sends ==
              [Send(dest, Received(b.filename), []), Send(dest, ConversionFailed(b.filename), [])]
    ensures Run(dest, dir, {}, [a, b]).sends ==
              AttachmentStep(dest, dir, {}, a).sends +
              ([Send(dest, Received(b.filename), [])] + [Send(dest, ConvertedTo(b.filename, a.filename), []),
                                                        Send(dest, NoImages(b.filename, a.filename), [])])
  {
    EmptyConversionAlone(dest, dir, b);
    var first := AttachmentStep(dest, dir, {}, a);
    StepSavesAttachment(dest, dir, {}, a);
    EmptyConversionOverLeftover(dest, dir, first.files, b);
    RunPair(dest, dir, a, b);
  }

  /** A clean LibreOffice run that writes nothing, in a directory holding only the document: a failure. */
  lemma EmptyConversionAlone(dest: Dest, dir: string, b: Attachment)
    requires IsOfficeName(b.filename) && Sep !in b.filename
    requires b.fate == Fate(Completed({}), 0, None)
    ensures AttachmentStep(dest, dir, {}, b).sends ==
              [Send(dest, Received(b.filename), []), Send(dest, ConversionFailed(b.filename), [])]
  {
    var original := Join(dir, b.filename);
    var before: set<string> := {} + {original};
    ProbeIsNotTheDocument(dir, b.filename);
    assert ConvertedPdfPath(original, dir) !in before;
    assert ConvertOfficeToPdf(original, dir, b.fate.converter, before) == None;
    OfficeConversionFailureReported(dest, dir, {}, b);
  }

  /** An Office document's PDF is looked for at a path other than the document's own. */
  lemma ProbeIsNotTheDocument(dir: string, filename: string)
    requires IsOfficeName(filename) && Sep !in filename
    ensures ConvertedPdfPath(Join(dir, filename), dir) != Join(dir, filename)
  {
    ConvertedPdfOfSaved(dir, filename);
    ConvertedNameDiffers(filename);
    PdfNameHasNoSep(filename);
    BasenameOfJoin(dir, filename);
    BasenameOfJoin(dir, Stem(filename) + ".pdf");
  }

  /** The same run over a directory that already holds `<stem>.pdf`: announced as converted. */
  lemma EmptyConversionOverLeftover(dest: Dest, dir: string, files: set<string>, b: Attachment)
    requires IsOfficeName(b.filename) && Sep !in b.filename
    requires b.fate == Fate(Completed({}), 0, None)
    requires Join(dir, Stem(b.filename) + ".pdf") in files
    ensures var name := Stem(b.filename) + ".pdf";
            AttachmentStep(dest, dir, files, b).sends ==
              [Send(dest, Received(b.filename), [])] + [Send(dest, ConvertedTo(b.filename, name), []),
               Send(dest, NoImages(b.filename, name), [])]
  {
    var f := b.filename;
    var name := Stem(f) + ".pdf";
    var pdf := Join(dir, name);
    var saved := files + {Join(dir, f)};
    var run := b.fate.converter;
    var after := FilesAfter(run, saved);
    ConversionOfSaved(dir, f, run, saved);
    var converted := ConvertOfficeToPdf(Join(dir, f), dir, run, saved);
    assert converted == Some(pdf);
    OfficeStepUnfold(dest, dir, files, b);
    var x := AfterConversion(dest, dir, after, b, converted);
    assert AttachmentStep(dest, dir, files, b).sends == [Send(dest, Received(f), [])] + x.sends;
    ConvertedButEmpty(dest, dir, after, b, pdf);
    assert x.sends == [Send(dest, ConvertedTo(f, name), []), Send(dest, NoImages(f, name), [])];

  }

  /** A converted PDF that exists but renders to no page: the conversion notice, then the notice of line 138. */
  lemma ConvertedButEmpty(dest: Dest, dir: string, after: set<string>, a: Attachment, pdf: string)
    requires pdf != [] && pdf in after && a.fate.fault == None && a.fate.pages == 0
    ensures AfterConversion(dest, dir, after, a, Some(pdf)).sends ==
              [Send(dest, ConvertedTo(a.filename, Basename(pdf)), []), Send(dest, NoImages(a.filename, Basename(pdf)), [])]
  {
  }

  /**
   * For instance `report.pdf` followed by `report.docx`: the document,
   * which alone would be reported as not converted, is reported as
   * converted to `report.pdf`.
   */
  lemma CrossTalkReport(dest: Dest, dir: string, pdfFate: Fate)
    requires pdfFate.fault == None
    ensures var b := Attachment("report.docx", Fate(Completed({}), 0, None));
            AttachmentStep(dest, dir, {}, b).sends ==
              [Send(dest, Received("report.docx"), []), Send(dest, ConversionFailed("report.docx"), [])]
    ensures var a := Attachment("report.pdf", pdfFate);
            var b := Attachment("report.docx", Fate(Completed({}), 0, None));
            Run(dest, dir, {}, [a, b]).sends ==
              AttachmentStep(dest, dir, {}, a).sends +
              ([Send(dest, Received("report.docx"), [])] + [Send(dest, ConvertedTo("report.docx", "report.pdf"), []),
                                                           Send(dest, NoImages("report.docx", "report.pdf"), [])])
  {
    ReportNames();
    SharedDirectoryCrossTalk(dest, dir, Attachment("report.pdf", pdfFate), Attachment("report.docx", Fate(Completed({}), 0, None)));
  }

  lemma ReportNames()
    ensures IsOfficeName("report.docx") && Sep !in "report.docx" && Stem("report.docx") + ".pdf" == "report.pdf"
  {
    SplitExtReport();
    assert Lower("report.docx")[6..] == OfficeExtensions[1];
  }
}
