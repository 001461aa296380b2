# pdf_bot3: a Dafny model of the Discord file-to-image handler

`pdf_bot3.py` is a Discord bot. When a user posts PDF or Office attachments
(`.doc`, `.docx`, `.xls`, `.xlsx`, `.ppt`, `.pptx`), the bot opens a thread for
them. It converts each Office document to PDF with LibreOffice, renders every
PDF page to a PNG with Poppler, and posts the images back ten per message.

This project models the core of the bot:

- `on_message`: ignoring the bot's own messages, filtering the attachments,
  the `!hello` greeting, creating the thread and falling back to the
  channel, and the per-attachment loop. Each turn of the loop saves the
  file, acknowledges it, picks the Office or PDF branch, converts, renders,
  saves the pages and uploads them in chunks. Each turn's `try`/`except`
  turns any exception into an error notice, and the loop goes on.
- `convert_office_to_pdf`: which path it reports, and when it reports
  `None`.

The outside world is an input: the thread outcome, how LibreOffice ended and
which files it wrote, how many pages Poppler rendered, and where an exception
escaped. What the handler sends is its output, modelled as the sequence of
`Send`s it makes (destination, text, image paths).

The temporary directory is modelled as the set of paths that exist in it.
The existence checks at lines 46 and 113 read this set, and one attachment's
files stay in it while the next attachment is handled.

Module layout, following the program:

- `PyStr`: the `str` operations the handler uses (`lower`, `endswith` with
  a tuple, `startswith`, `rfind`, `str(n)`).
- `PosixPath`: `os.path.basename`, `os.path.join` and `os.path.splitext`
  with their POSIX meaning.
- `Converter`: `convert_office_to_pdf`.
- `Events`: the data model.
- `Classify`: the extension tests, the attachment filter and the branch
  choice.
- `Pages`: page-image names and the save loop.
- `Chunking`: the chunked upload loop.
- `Pipeline`: one attachment's turn and `on_message`, as specification
  functions and as the methods that follow the source statement by
  statement.
- `PipelineFacts`: what these components guarantee together.

Four results are worth knowing before the table:

- **Failures stay with their attachment.** Everything an attachment sends
  goes to the one destination. Every send but the uncaptioned continuation
  uploads of line 156 names that attachment, and those carry only its own
  page images (`StepImagesOwned`). Its failure notice, if any, is its last
  send (`StepContained`). The attachments that follow are handled exactly
  as if it had not been there (`ErrorIsolation`), provided it writes
  nothing at the path where a later Office document's PDF is looked for.
  Overwriting a file already there counts as writing it: the directory is
  modelled by which paths exist, and a turn's footprint (`Writes`: the
  saved attachment, what LibreOffice wrote, the page images) bounds what
  it can change (`StepWrites`).
- **That proviso is necessary.** The code does not give each attachment its
  own directory. So a PDF named `report.pdf` followed by `report.docx`,
  whose LibreOffice run exits cleanly without writing anything, has the
  document announced as "converted to report.pdf". The first attachment's
  PDF is then rendered in its place. On its own the document would get the
  conversion-failure notice (`SharedDirectoryCrossTalk`,
  `CrossTalkReport`). The per-attachment `try` isolates failures only up
  to this proviso, and the model follows the code.
- **Dead code.** The "unsupported format" branch (line 123) is never taken
  for a message: the filter already dropped those files
  (`UnsupportedBranchUnreachable`). The tests at lines 127 and 147 always
  pass, so line 128 and the `else` of line 157 are unreachable. The methods
  prove this with `assert false` in those branches. For line 127 that is one
  such branch in each of `ProcessAttachment` (the PDF path) and
  `ConvertAndRender` (the converted path, whose condition at line 113
  already requires a non-empty path).
- **Names.** The page images are named from
  `os.path.splitext(attachment.filename)[0]` (line 142), not from a
  basename. The converted PDF's name is the document's stem plus `.pdf`
  (`ConvertedPdfName`).

## Model

| member | source | states |
|---|---|---|
| PyStr.Lower | pdf_bot3.py:72 | lowering keeps the length (ASCII capitals only, see Left out) |
| PyStr.RFindFacts | pdf_bot3.py:116 | the index `rfind` returns holds the character and no later index does; -1 when absent; the search behind `os.path.basename` |
| PyStr.EndsWithTransitive | pdf_bot3.py:44-45 | a suffix of a suffix of a string is a suffix of it |
| PyStr.Decimal | pdf_bot3.py:143 | `str(i)` of a page number is a non-empty string of digits |
| PyStr.ParseDecimalOfDecimal | pdf_bot3.py:143 | reading the digits of `str(n)` back gives `n` |
| PyStr.DecimalInjective | pdf_bot3.py:143 | different page numbers are written differently |
| PosixPath.BasenameFacts | pdf_bot3.py:44 | `basename(p)` is a suffix of `p` without separators, and `p` itself when `p` has none |
| PosixPath.BasenameIsSuffix | pdf_bot3.py:44 | `basename(p)` is a suffix of `p` |
| PosixPath.BasenameHasNoSep | pdf_bot3.py:44 | `basename(p)` contains no separator |
| PosixPath.BasenameOfPlainName | pdf_bot3.py:44 | a path without separators is its own basename |
| PosixPath.JoinEndsWith | pdf_bot3.py:45 | `join(a, b)` ends with `b` |
| PosixPath.BasenameOfJoin | pdf_bot3.py:101 | a name saved by `join(dir, name)` has `name` as its basename |
| PosixPath.JoinInjective | pdf_bot3.py:143 | joining onto one directory keeps different relative names apart |
| PosixPath.SplitExtFacts | pdf_bot3.py:44 | `splitext` splits the path into two parts that concatenate back to it; the extension is empty or a dot followed by neither dot nor separator |
| PosixPath.NoSepInStem | pdf_bot3.py:142 | the stem of a separator-free name has no separator |
| PosixPath.LastDotOfExtension | pdf_bot3.py:44 | in a separator-free name followed by an extension, the last dot is the one that starts the extension and there is no separator |
| PosixPath.SplitExtOfName | pdf_bot3.py:44 | a name `q + e` with an extension `e` and not only dots in `q` splits into `(q, e)` |
| PosixPath.SplitExtOfDotName | pdf_bot3.py:44 | a name whose only characters before the last extension are dots has no extension |
| PosixPath.SplitExtReport | pdf_bot3.py:142 | `splitext("report.docx") == ("report", ".docx")` |
| PosixPath.SplitExtHiddenName | pdf_bot3.py:142 | `splitext(".pdf") == (".pdf", "")` |
| Converter.FilesAfter | pdf_bot3.py:39-42 | the LibreOffice run only adds files to the directory |
| Converter.ConvertOfficeToPdf | pdf_bot3.py:28-61 | the result is a path exactly when LibreOffice exited 0 in time and the expected PDF exists afterwards; that path is `join(output_dir, stem(basename(office_path)) + ".pdf")`; `None` for a missing file and for each caught exception |
| Converter.ConversionIgnoresOtherFiles | pdf_bot3.py:39-47 | files other than the expected PDF change neither the directory's growth nor the result |
| Converter.ConvertedPdfName | pdf_bot3.py:44-45 | the reported PDF is named `<stem>.pdf` and ends with `.pdf` |
| Converter.ConvertedPdfOfSaved | pdf_bot3.py:101-112 | for a document saved in `dir` under its own name, the PDF is looked for at `dir/<stem>.pdf` |
| Events.Render | pdf_bot3.py:79-162 | every per-file text begins with the attachment's filename |
| Classify.PdfIsNotOffice | pdf_bot3.py:17 | no filename both ends with `.pdf` and with an Office extension |
| Classify.BranchOf | pdf_bot3.py:109-124 | an attachment takes the Office branch iff its lowered name has an Office extension, the PDF branch iff it ends with `.pdf`, and the `else` iff it fails the filter |
| Classify.KeptAppend | pdf_bot3.py:70-74 | the filter works element by element: filtering a concatenation filters each part |
| Classify.KeptMembers | pdf_bot3.py:70-74 | an attachment is kept iff it is in the message and its name qualifies |
| Classify.KeptLength | pdf_bot3.py:88 | the kept list's length is the number of qualifying attachments, the count in the status notice |
| Classify.FilterAttachments | pdf_bot3.py:70-74 | the loop yields exactly the qualifying attachments in their original order |
| Classify.QualifyingExamples | pdf_bot3.py:72-73 | `Report.PDF` and `slides.PptX` qualify; `notes.pdf.txt` does not |
| Pages.PagePaths | pdf_bot3.py:141-145 | one path per rendered page |
| Pages.PagePathsSnoc | pdf_bot3.py:141-145 | one more page adds its path at the end |
| Pages.PagePathsPrefix | pdf_bot3.py:141-145 | the first `k` pages' paths are a prefix of the paths of `n >= k` pages |
| Pages.PageNameIndex | pdf_bot3.py:143 | the page number can be read back from `<stem>_page_<i>.png` |
| Pages.PageNameInjective | pdf_bot3.py:143 | different pages get different names |
| Pages.PagePathsDistinct | pdf_bot3.py:141-145 | no page image overwrites another of the same attachment |
| Pages.PagePathBasename | pdf_bot3.py:143 | the uploaded file for page `i` is named `<stem>_page_<i>.png` |
| Pages.SavePageImages | pdf_bot3.py:141-145 | the save loop raises iff the failing page exists; it collects the paths of page 0 up to the failing page, or of all pages |
| Chunking.FlattenChunks | pdf_bot3.py:149-150 | the chunks, in order, are exactly the image list |
| Chunking.ChunkCount | pdf_bot3.py:149 | there are `ceil(n / 10)` chunks |
| Chunking.ChunkMembers | pdf_bot3.py:149-150 | every element of every chunk comes from the list |
| Chunking.UploadImagesFrom | pdf_bot3.py:147-156 | every image an upload message carries is one of the images being uploaded |
| Chunking.ChunkAt | pdf_bot3.py:149-150 | the slice `image_paths[i:i+10]` at `i = 10k` is chunk `k` |
| Chunking.ChunkSizes | pdf_bot3.py:148-152 | every chunk holds 1 to 10 images, all but the last exactly 10, so the test at line 152 always passes |
| Chunking.TwentyThreeImages | pdf_bot3.py:148-150 | 23 images go out as 10, 10 and 3 |
| Chunking.UploadSendsFacts | pdf_bot3.py:147-156 | the uploads go to one destination and carry exactly the images in order; the caption is on the first message and on no other |
| Chunking.UploadChunks | pdf_bot3.py:147-156 | the upload loop raises iff the failing chunk exists; it sends the chunks before it, or all of them |
| Pipeline.ProcessAttachment | pdf_bot3.py:100-162 | one turn of the loop: its sends and the new directory are those of the step function, over every branch and raise point |
| Pipeline.ConvertAndRender | pdf_bot3.py:110-119 | the Office branch: conversion notice and rendering when the PDF exists, the failure notice otherwise |
| Pipeline.RenderAndUploadImages | pdf_bot3.py:130-158 | rendering, the no-image notice, the page saves and the chunked upload |
| Pipeline.OnMessage | pdf_bot3.py:63-96 | nothing for the bot's own messages; with nothing to process only the greeting for `!hello`; otherwise the thread is requested under `<name>さんのファイル画像変換`, then the opening notice and the loop's sends |
| Pipeline.ProcessAll | pdf_bot3.py:99-168 | the loop over the kept attachments, threading the directory through |
| Pipeline.RunSnoc | pdf_bot3.py:100 | the loop over one more attachment adds that attachment's turn at the end |
| Pipeline.FoldAppend | pdf_bot3.py:100 | the loop over two lists in turn is the loop over their concatenation |
| PipelineFacts.UploadsContained | pdf_bot3.py:147-156 | every prefix of the uploads stays in the destination, has the file's name on its captioned first message (continuations carry no text) and has no failure notice |
| PipelineFacts.ErrorLastContained | pdf_bot3.py:160-162 | an error notice after failure-free sends keeps them contained |
| PipelineFacts.NoticeFirstContained | pdf_bot3.py:107 | a progress notice before contained sends keeps them contained |
| PipelineFacts.SkipNoticeContained | pdf_bot3.py:118-139 | the notice before `continue`, or the error notice instead of it, is contained |
| PipelineFacts.RenderAndUploadContained | pdf_bot3.py:130-162 | rendering and upload send only contained messages |
| PipelineFacts.OfficeContained | pdf_bot3.py:112-119 | the Office branch sends only contained messages, whatever the conversion returned |
| PipelineFacts.AfterReceiptContained | pdf_bot3.py:109-162 | every branch sends only contained messages |
| PipelineFacts.StepImagesOwned | pdf_bot3.py:147-156 | every image a turn uploads, continuation messages included, is one of that attachment's own page images |
| PipelineFacts.RenderImagesOwned | pdf_bot3.py:130-156 | rendering and uploading send only the attachment's own page images |
| PipelineFacts.ConversionImagesOwned | pdf_bot3.py:113-156 | the Office branch after the conversion sends only the attachment's own page images |
| PipelineFacts.StepContained | pdf_bot3.py:105-162 | each attachment sends at least one message; all go to the destination, and all but the uncaptioned continuation uploads name it; a failure notice can only come last; an error notice carries the raised exception's text; the unsupported notice only for a name the filter rejects; the directory only grows |
| PipelineFacts.StepKeepsFiles | pdf_bot3.py:99-168 | no turn removes a file from the directory |
| PipelineFacts.AfterReceiptKeepsFiles | pdf_bot3.py:109-158 | the branches remove no file |
| PipelineFacts.ConversionKeepsFiles | pdf_bot3.py:112-158 | conversion and rendering remove no file |
| PipelineFacts.RenderKeepsFiles | pdf_bot3.py:130-158 | rendering and saving remove no file |
| PipelineFacts.NoFaultNoErrorNotice | pdf_bot3.py:160-162 | without an exception no error notice is sent |
| PipelineFacts.UnsupportedOnlyForUnqualified | pdf_bot3.py:122-124 | a qualifying attachment never gets the unsupported notice |
| PipelineFacts.PdfAttachmentUploaded | pdf_bot3.py:105-156 | a PDF with `n >= 1` pages and no exception: the receipt, then all pages in chunks of ten; the directory gains the PDF and the page images |
| PipelineFacts.OfficeAttachmentUploaded | pdf_bot3.py:105-156 | an Office document LibreOffice converts and that renders to `n >= 1` pages: the receipt, "converted to `<stem>.pdf`", then the pages |
| PipelineFacts.ConversionOfSaved | pdf_bot3.py:44-47 | a run that leaves `dir/<stem>.pdf` in place reports that path, which is non-empty, exists, and has basename `<stem>.pdf` |
| PipelineFacts.OfficeStepUnfold | pdf_bot3.py:105-112 | an Office turn without early exception is the receipt followed by what the conversion's result leads to |
| PipelineFacts.ConvertedUploaded | pdf_bot3.py:113-156 | an existing converted PDF with pages: the conversion notice, then the uploads |
| PipelineFacts.OfficeConversionFailureReported | pdf_bot3.py:112-119 | a conversion that returns `None`: the receipt, then the failure notice, nothing else |
| PipelineFacts.EmptyRenderingReported | pdf_bot3.py:137-139 | a PDF without pages: the receipt, then the notice naming the file twice |
| PipelineFacts.EarlyExceptionReported | pdf_bot3.py:105-162 | an exception in `attachment.save` or in the receipt notice gives the error notice alone, for any file |
| PipelineFacts.PdfExceptionReported | pdf_bot3.py:105-162 | for each place an exception can be raised in a PDF's turn (save, receipt, rendering, the no-image notice of line 138, a page save, a chunk upload): what was sent before it, then the error notice, nothing else |
| PipelineFacts.ConvertedExceptionReported | pdf_bot3.py:113-162 | after a conversion that produced an existing PDF: an exception at the conversion notice, the rendering, the no-image notice, a page save or a chunk upload sends what came before it (the conversion notice, the earlier chunks), then the error notice, nothing else |
| PipelineFacts.OfficeExceptionReported | pdf_bot3.py:105-162 | for each place an exception can be raised in an Office document's turn that LibreOffice converts (save, receipt, conversion notice, rendering, the no-image notice of line 138, a page save, a chunk upload): what was sent before it, then the error notice, nothing else |
| PipelineFacts.FailureNoticeExceptionReported | pdf_bot3.py:117-162 | an exception in the conversion-failure notice gives the receipt, then the error notice |
| PipelineFacts.RunSends | pdf_bot3.py:96-168 | every send of the loop goes to the one destination and is about an attachment |
| PipelineFacts.RunNeverUnsupported | pdf_bot3.py:100-124 | over qualifying attachments the loop never sends the unsupported notice |
| PipelineFacts.OpeningAndDestination | pdf_bot3.py:84-96 | the first send is the status notice counting the qualifying attachments; every later send goes to the thread if one was created, else to the channel |
| PipelineFacts.FallbackNoticeOnce | pdf_bot3.py:86-91 | the fallback notice is sent iff there are attachments to process and a thread or its first message failed; then exactly once, first, to the channel, with the count |
| PipelineFacts.UnsupportedBranchUnreachable | pdf_bot3.py:122-124 | no message ever gets the unsupported notice |
| PipelineFacts.StepIgnoresUnprobedFiles | pdf_bot3.py:46 | files other than the one an Office document's PDF is looked for at do not change its turn; they stay |
| PipelineFacts.AfterReceiptIgnoresUnprobedFiles | pdf_bot3.py:109-158 | the same, for the branches |
| PipelineFacts.ConversionIgnoresExtraFiles | pdf_bot3.py:113-158 | the same, once the conversion's result is known |
| PipelineFacts.RenderIgnoresExtraFiles | pdf_bot3.py:130-158 | rendering does not look at the directory |
| PipelineFacts.RunIgnoresUnprobedFiles | pdf_bot3.py:99-168 | the loop's sends do not depend on files that none of its Office documents looks for |
| PipelineFacts.StepWrites | pdf_bot3.py:101-145 | a turn adds to the directory only its saved file, what LibreOffice wrote for an Office document, and its page images |
| PipelineFacts.RenderWrites | pdf_bot3.py:130-145 | rendering adds only page images, at most the attachment's own |
| PipelineFacts.ConversionWrites | pdf_bot3.py:113-145 | after the conversion returns, the turn adds only page images |
| PipelineFacts.SameStemPdfInFootprint | pdf_bot3.py:44-46 | an attachment named `<stem>.pdf` writes where an Office `<stem>.*` document's PDF is looked for, so isolation is never claimed for it before such a document |
| PipelineFacts.ErrorIsolation | pdf_bot3.py:100-162 | inserting an attachment inserts its own sends at its place and changes no other send, provided it writes (creates or overwrites) nothing where a later Office document's PDF is looked for |
| PipelineFacts.PdfAttachmentIndependent | pdf_bot3.py:120-121 | a PDF's turn sends the same whatever the directory holds |
| PipelineFacts.FailedConversionThenPdf | pdf_bot3.py:100-162 | a failed LibreOffice run does not stop the PDF after it from being fully uploaded |
| PipelineFacts.StepSavesAttachment | pdf_bot3.py:106 | unless saving raises, the attachment's file is in the directory afterwards |
| PipelineFacts.RunPair | pdf_bot3.py:100 | two attachments: the second starts from the directory the first left |
| PipelineFacts.ProbeIsNotTheDocument | pdf_bot3.py:44-46 | an Office document's PDF is looked for at a path other than the document's own |
| PipelineFacts.ReportNames | pdf_bot3.py:44 | `report.docx` is an Office name whose PDF is `report.pdf` |
| PipelineFacts.ConvertedNameDiffers | pdf_bot3.py:44 | an Office document's converted name is never its own name |
| PipelineFacts.SharedDirectoryCrossTalk | pdf_bot3.py:99-119 | a `<stem>.pdf` attachment before `<stem>.docx` turns that document's empty conversion into a reported conversion; alone it is a failure |
| PipelineFacts.EmptyConversionAlone | pdf_bot3.py:46-50 | a clean run that writes nothing, in a directory holding only the document, is reported as a failure |
| PipelineFacts.EmptyConversionOverLeftover | pdf_bot3.py:113-138 | the same run in a directory already holding `<stem>.pdf` is reported as a conversion to `<stem>.pdf` |
| PipelineFacts.ConvertedButEmpty | pdf_bot3.py:116-138 | an existing converted PDF without pages: the conversion notice, then the no-image notice |
| Converter.PdfNameHasNoSep | pdf_bot3.py:44 | `<stem>.pdf` of a separator-free name has no separator |
| PipelineFacts.CrossTalkReport | pdf_bot3.py:113-118 | `report.pdf` then `report.docx`: the document is announced as converted to `report.pdf`, where alone it would fail |

## Left out

- The Discord runtime is not modelled: login, `on_ready`, the event loop,
  `await`, and the construction of `discord.File`. Sends are recorded in
  order, and concurrency between messages is not modelled.
- The LibreOffice command line is not modelled: its arguments, the `LANG`
  environment and the 60-second timeout are fixed by the source. The run is
  an input that says how it ended and, for a run that exits cleanly, which
  files it wrote.
- Converter.FilesAfter: a LibreOffice run that exits non-zero, times out or
  fails to start is assumed to write nothing. A run killed at 60 seconds or
  one that fails after writing could leave `<stem>.pdf` behind, and the
  model does not capture that leftover.
- Paths follow POSIX `os.path` (`posixpath`) only, and the file system is
  assumed case-sensitive. On Windows (`ntpath`) `\` and drive letters also
  split paths, and `os.path.exists` at lines 46 and 113 is usually
  case-insensitive, so a leftover `Report.pdf` would satisfy the lookup for
  `report.docx`. The model does not capture either.
- `convert_from_path` is not modelled; its result is an input (the number
  of pages, or the exception it raises). The choice between the
  `POPPLER_PATH` call and the plain call (lines 132-135) does not change
  what the handler sends.
- PNG encoding and the image contents are not modelled.
- The `print` calls, loading `.env` and reading `DISCORD_BOT_TOKEN` are not
  modelled: they are all I/O, and none of them affects what is sent.
- The cleanup of the temporary directory is not modelled. Each message gets
  a fresh, empty directory, and what happens to it afterwards is not
  modelled.
- The `discord.Forbidden` handler (lines 92-94) is not modelled:
  `Forbidden` is a subclass of `HTTPException`, so the earlier handler
  always catches it first.
- PyStr.Lower: lowers only ASCII capitals. Python's full Unicode lowering
  produces none of the letters of `.pdf` or the Office extensions from a
  non-ASCII character, so the extension tests come out the same.
- Only the raise points listed in `Events.RaisePoint` are modelled. The
  greeting, the fallback notice, the error notice of line 162 and the
  `create_thread` call other than its `HTTPException` are assumed to
  succeed; an exception there would escape `on_message`.
- Exceptions that are not `Exception` (`BaseException`, cancellation) are
  not modelled.
- A partial file left by a save or a page save that raises is not modelled.
- File contents are not modelled: the directory is the set of paths that
  exist, and each attachment's conversion and rendering outcome is an input
  of its own. What a later turn reads is therefore fixed only when no
  earlier turn writes the path it reads, which is why `ErrorIsolation`
  asks that the inserted attachment's footprint (`Writes`) avoid every
  later Office document's lookup path, rather than only that no new file
  appears there.
- At most one exception per attachment is modelled, which is all the
  `try` can see: the first one ends the turn.
