/**
 * `on_message` (pdf_bot3.py:63-168): the early exits, the destination,
 * and the loop that takes each qualifying attachment through saving,
 * conversion, rendering and upload, with every failure contained to its
 * attachment.
 *
 * The working directory is modelled as the set of paths that exist in it.
 * It matters because the existence checks at lines 46 and 113 read it, and
 * because files left by one attachment stay there for the next.
 */
module Pipeline {
  import opened Optional
  import opened PyStr
  import opened PosixPath
  import opened Converter
  import opened Events
  import opened Classify
  import opened Pages
  import opened Chunking

  /** What handling one attachment sends, and the working directory's files afterwards. */
  datatype Step = Step(sends: seq<Send>, files: set<string>)

  predicate RaisesAt(a: Attachment, p: RaisePoint)
  {
    a.fate.fault.Some? && a.fate.fault.value.at == p
  }

  /** The page whose `image.save` raises, if the exception is raised there. */
  function ImageSaveFailure(a: Attachment): Option<nat>
  {
    if a.fate.fault.Some? && a.fate.fault.value.at.AtImageSave? then Some(a.fate.fault.value.at.page) else None
  }

  /** The chunk whose upload raises, if the exception is raised there. */
  function UploadFailure(a: Attachment): Option<nat>
  {
    if a.fate.fault.Some? && a.fate.fault.value.at.AtUpload? then Some(a.fate.fault.value.at.chunk) else None
  }

  /** The notice of the `except` clause, lines 160-162. */
  function ErrorNotice(dest: Dest, a: Attachment): Send
  {
    Send(dest, ProcessingError(a.filename, if a.fate.fault.Some? then a.fate.fault.value.message else ""), [])
  }

  /** A notice sent right before `continue` (lines 118, 123, 138); if it raises, the `except` reports instead. */
  function SkipNotice(dest: Dest, a: Attachment, t: Text, files: set<string>): Step
  {
    if RaisesAt(a, AtSkipNotice) then Step([ErrorNotice(dest, a)], files) else Step([Send(dest, t, [])], files)
  }

  function SetOf(s: seq<string>): set<string>
  {
    set p | p in s
  }

  /** Lines 127-158, once the PDF to render is known. */
  function RenderAndUpload(dest: Dest, dir: string, files: set<string>, a: Attachment, pdf: string): Step
  {
    var f := a.filename;
    if RaisesAt(a, AtRender) then Step([ErrorNotice(dest, a)], files)
    else if a.fate.pages == 0 then SkipNotice(dest, a, NoImages(f, Basename(pdf)), files)
    else
      var n := a.fate.pages;
      var failPage := ImageSaveFailure(a);
      if failPage.Some? && failPage.value < n then
        Step([ErrorNotice(dest, a)], files + SetOf(PagePaths(dir, f, failPage.value)))
      else
        var paths := PagePaths(dir, f, n);
        var uploads := UploadSends(dest, f, paths);
        var saved := files + SetOf(paths);
        var failChunk := UploadFailure(a);
        if failChunk.Some? && failChunk.value < |uploads| then
          Step(uploads[..failChunk.value] + [ErrorNotice(dest, a)], saved)
        else Step(uploads, saved)
  }

  /** Lines 113-119 and 127-158 for an Office document, once the conversion has returned `converted`. */
  function AfterConversion(dest: Dest, dir: string, after: set<string>, a: Attachment, converted: Option<string>): Step
  {
    var f := a.filename;
    if converted.Some? && converted.value != [] && converted.value in after then
      if RaisesAt(a, AtConvertedNotice) then Step([ErrorNotice(dest, a)], after)
      else
        var rest := RenderAndUpload(dest, dir, after, a, converted.value);
        Step([Send(dest, ConvertedTo(f, Basename(converted.value)), [])] + rest.sends, rest.files)
    else SkipNotice(dest, a, ConversionFailed(f), after)
  }

  /** Lines 109-158, once the attachment is saved and its receipt acknowledged. */
  function AfterReceipt(dest: Dest, dir: string, files: set<string>, a: Attachment): Step
  {
    var f := a.filename;
    var original := Join(dir, f);
    match BranchOf(f)
    case OfficeBranch =>
      var run := a.fate.converter;
      AfterConversion(dest, dir, FilesAfter(run, files), a, ConvertOfficeToPdf(original, dir, run, files))
    case PdfBranch => RenderAndUpload(dest, dir, files, a, original)
    case UnsupportedBranch => SkipNotice(dest, a, Unsupported(f), files)
  }

  /** One turn of the loop of lines 100-168, for the attachment `a`. */
  function AttachmentStep(dest: Dest, dir: string, files: set<string>, a: Attachment): Step
  {
    if RaisesAt(a, AtSave) then Step([ErrorNotice(dest, a)], files)
    else
      var saved := files + {Join(dir, a.filename)};
      if RaisesAt(a, AtReceivedNotice) then Step([ErrorNotice(dest, a)], saved)
      else
        var rest := AfterReceipt(dest, dir, saved, a);
        Step([Send(dest, Received(a.filename), [])] + rest.sends, rest.files)
  }

  /** Runs a per-attachment step over `atts` in order, threading the directory's files through. */
  function Fold(step: (set<string>, Attachment) -> Step, files: set<string>, atts: seq<Attachment>): Step
    decreases |atts|
  {
    if atts == [] then Step([], files)
    else
      var first := step(files, atts[0]);
      var rest := Fold(step, first.files, atts[1..]);
      Step(first.sends + rest.sends, rest.files)
  }

  /** One turn of the loop, for the destination `dest` and the working directory `dir`. */
  function StepIn(dest: Dest, dir: string): (set<string>, Attachment) -> Step
  {
    (files: set<string>, a: Attachment) => AttachmentStep(dest, dir, files, a)
  }

  /** The whole loop of lines 100-168 over `atts`, starting from the directory's files `files`. */
  function Run(dest: Dest, dir: string, files: set<string>, atts: seq<Attachment>): Step
  {
    Fold(StepIn(dest, dir), files, atts)
  }

  /** `f"{message.author.display_name}さんのファイル画像変換"` */
  function ThreadName(authorName: string): string
  {
    authorName + "さんのファイル画像変換"
  }

  /** `target_channel = thread if thread else message.channel` */
  function Destination(t: ThreadOutcome): Dest
  {
    if t == CreateFailed then Channel else Thread
  }

  /** The status message of lines 86-94: into the thread, or the fallback notice into the channel. */
  function Opening(t: ThreadOutcome, count: nat): Send
  {
    if t == ThreadCreated then Send(Thread, StartNotice(count), []) else Send(Channel, FallbackNotice(count), [])
  }

  /** Everything `on_message` sends for the message `m`. */
  function MessageTrace(m: Message): seq<Send>
  {
    if m.fromSelf then []
    else
      var kept := Kept(m.attachments);
      if kept == [] then
        if StartsWith(m.content, "!hello") then [Send(Channel, Greeting, [])] else []
      else
        [Opening(m.thread, |kept|)] + Run(Destination(m.thread), m.tempDir, {}, kept).sends
  }

  // ---------------------------------------------------------------------------
  // The handler as the source runs it
  // ---------------------------------------------------------------------------

  /** The body of the `try` of lines 105-162 for one attachment. */
  method ProcessAttachment(dest: Dest, dir: string, files: set<string>, a: Attachment)
    returns (sends: seq<Send>, filesOut: set<string>)
    ensures Step(sends, filesOut) == AttachmentStep(dest, dir, files, a)
  {
    var f := a.filename;
    var originalFilePath := Join(dir, f);
    var error := ErrorNotice(dest, a);
    sends, filesOut := [], files;

    if RaisesAt(a, AtSave) { sends := [error]; return; }
    filesOut := filesOut + {originalFilePath};
    if RaisesAt(a, AtReceivedNotice) { sends := [error]; return; }
    sends := [Send(dest, Received(f), [])];

    var rest: seq<Send>;
    var filenameLower := Lower(f);
    if EndsWithAny(filenameLower, OfficeExtensions) {
      rest, filesOut := ConvertAndRender(dest, dir, filesOut, a);
    } else if EndsWith(filenameLower, PdfExtension) {
      var pdfToConvertPath := originalFilePath;
      // Line 127: the path is never empty here.
      if pdfToConvertPath == [] {
        assert false;
      }
      rest, filesOut := RenderAndUploadImages(dest, dir, filesOut, a, pdfToConvertPath);
    } else {
      var notice := SkipNotice(dest, a, Unsupported(f), filesOut);
      rest := notice.sends;
    }
    sends := sends + rest;
  }

  /** Lines 111-119 and then 127-158 for an Office document: convert it, then render the PDF. */
  method ConvertAndRender(dest: Dest, dir: string, files: set<string>, a: Attachment)
    returns (sends: seq<Send>, filesOut: set<string>)
    requires BranchOf(a.filename) == OfficeBranch
    ensures Step(sends, filesOut) == AfterReceipt(dest, dir, files, a)
  {
    var f := a.filename;
    var originalFilePath := Join(dir, f);
    var converted := ConvertOfficeToPdf(originalFilePath, dir, a.fate.converter, files);
    filesOut := FilesAfter(a.fate.converter, files);
    // Line 113; a non-empty path also makes the test of line 127 pass.
    if converted.Some? && converted.value != [] && converted.value in filesOut {
      var pdfToConvertPath := converted.value;
      // Line 127: the path is never empty here.
      if pdfToConvertPath == [] {
        assert false;
      }
      if RaisesAt(a, AtConvertedNotice) {
        sends := [ErrorNotice(dest, a)];
        return;
      }
      var notice := Send(dest, ConvertedTo(f, Basename(pdfToConvertPath)), []);
      var rest;
      rest, filesOut := RenderAndUploadImages(dest, dir, filesOut, a, pdfToConvertPath);
      sends := [notice] + rest;
    } else {
      sends := SkipNotice(dest, a, ConversionFailed(f), filesOut).sends;
    }
  }

  /** Lines 130-158 of the `try`: render the PDF, save the pages, upload them. */
  method RenderAndUploadImages(dest: Dest, dir: string, files: set<string>, a: Attachment, pdfToConvertPath: string)
    returns (sends: seq<Send>, filesOut: set<string>)
    ensures Step(sends, filesOut) == RenderAndUpload(dest, dir, files, a, pdfToConvertPath)
  {
    var f := a.filename;
    var error := ErrorNotice(dest, a);
    sends, filesOut := [], files;

    if RaisesAt(a, AtRender) { sends := sends + [error]; return; }
    var images := a.fate.pages;
    if images == 0 {
      sends := sends + SkipNotice(dest, a, NoImages(f, Basename(pdfToConvertPath)), filesOut).sends;
      return;
    }

    var imagePaths, saveRaised := SavePageImages(dir, f, images, ImageSaveFailure(a));
    filesOut := filesOut + SetOf(imagePaths);
    if saveRaised { sends := sends + [error]; return; }

    // Line 147: there is at least one image here, so the `else` of line 157 is never taken.
    if imagePaths != [] {
      var uploads, uploadRaised := UploadChunks(dest, f, imagePaths, UploadFailure(a));
      sends := sends + uploads;
      if uploadRaised { sends := sends + [error]; }
    } else {
      assert false;
    }
  }

  /**
   * `on_message` for the message `m`: what it sends, and the name of the
   * thread it asks Discord to create, if it gets that far.
   */
  method OnMessage(m: Message) returns (trace: seq<Send>, threadName: Option<string>)
    ensures trace == MessageTrace(m)
    ensures threadName == if !m.fromSelf && Kept(m.attachments) != [] then Some(ThreadName(m.authorName)) else None
    ensures m.fromSelf ==> trace == []
    ensures !m.fromSelf && Kept(m.attachments) == [] ==>
              trace == if StartsWith(m.content, "!hello") then [Send(Channel, Greeting, [])] else []
  {
    trace, threadName := [], None;
    if m.fromSelf { return; }

    var attachmentsToProcess := FilterAttachments(m.attachments);
    if attachmentsToProcess == [] {
      if StartsWith(m.content, "!hello") {
        trace := [Send(Channel, Greeting, [])];
      }
      return;
    }

    var n := |attachmentsToProcess|;
    threadName := Some(ThreadName(m.authorName));
    var thread := m.thread != CreateFailed;
    if m.thread == ThreadCreated {
      trace := [Send(Thread, StartNotice(n), [])];
    } else {
      trace := [Send(Channel, FallbackNotice(n), [])];
    }
    var targetChannel := if thread then Thread else Channel;

    var sends, _ := ProcessAll(targetChannel, m.tempDir, attachmentsToProcess);
    trace := trace + sends;
  }

  /** The loop of lines 99-168, in a fresh working directory. */
  method ProcessAll(dest: Dest, dir: string, atts: seq<Attachment>) returns (sends: seq<Send>, files: set<string>)
    ensures Step(sends, files) == Run(dest, dir, {}, atts)
  {
    sends, files := [], {};
    for i := 0 to |atts|
      invariant Run(dest, dir, {}, atts[..i]) == Step(sends, files)
    {
      var attachment := atts[i];
      var attachmentSends, filesAfter := ProcessAttachment(dest, dir, files, attachment);
      RunSnoc(dest, dir, atts[..i], attachment);
      assert atts[..i + 1] == atts[..i] + [attachment];
      sends, files := sends + attachmentSends, filesAfter;
    }
    assert atts[..|atts|] == atts;
  }

  // ---------------------------------------------------------------------------
  // What the loop guarantees
  // ---------------------------------------------------------------------------

  /** One more attachment adds its own step at the end. */
  lemma RunSnoc(dest: Dest, dir: string, xs: seq<Attachment>, a: Attachment)
    ensures var r := Run(dest, dir, {}, xs);
            var last := AttachmentStep(dest, dir, r.files, a);
            Run(dest, dir, {}, xs + [a]) == Step(r.sends + last.sends, last.files)
  {
    var step := StepIn(dest, dir);
    FoldAppend(step, {}, xs, [a]);
    var r := Fold(step, {}, xs);
    assert Fold(step, r.files, [a]) == Step(step(r.files, a).sends, step(r.files, a).files);
  }

  /** Running over two lists in turn is running over their concatenation. */
  lemma {:induction false} FoldAppend(step: (set<string>, Attachment) -> Step, files: set<string>,
                                      xs: seq<Attachment>, ys: seq<Attachment>)
    decreases |xs|
    ensures var r := Fold(step, files, xs);
            var s := Fold(step, r.files, ys);
            Fold(step, files, xs + ys) == Step(r.sends + s.sends, s.files)
  {
    if xs == [] {
      assert xs + ys == ys;
    } else {
      assert (xs + ys)[0] == xs[0];
      assert (xs + ys)[1..] == xs[1..] + ys;
      FoldAppend(step, step(files, xs[0]).files, xs[1..], ys);
    }
  }
}
