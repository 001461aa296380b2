/**
 * What one `on_message` call sees and does. The Discord message and its
 * attachments are inputs. The outside world's answers are inputs too: whether
 * the thread was created, how LibreOffice ended, how many pages Poppler
 * rendered, and where an exception escaped. What the handler sends is the
 * output, as a sequence of `Send`s in the order they are made.
 */
module Events {
  import opened PyStr
  import Converter
  import opened Optional

  /** Where a send goes: the thread made for the message, or the message's own channel. */
  datatype Dest = Thread | Channel

  /** The text of each send the handler makes, with the values it formats in. */
  datatype Text =
    | Greeting                                        // line 79
    | StartNotice(count: nat)                         // line 88
    | FallbackNotice(count: nat)                      // line 91
    | Received(file: string)                          // line 107
    | ConvertedTo(file: string, pdfName: string)      // line 116
    | ConversionFailed(file: string)                  // line 118
    | Unsupported(file: string)                       // line 123
    | NoImages(file: string, pdfName: string)         // line 138
    | ImagesCaption(file: string)                     // line 154
    | Continuation                                    // line 156, files only
    | ProcessingError(file: string, error: string)    // line 162

  /** One `send` call: destination, text and the attached image paths. */
  datatype Send = Send(dest: Dest, text: Text, files: seq<string>)

  /** The notices that tell the user a file could not be turned into images. */
  predicate IsFailureNotice(t: Text)
  {
    t.ConversionFailed? || t.Unsupported? || t.NoImages? || t.ProcessingError?
  }

  /** The messages sent once per message rather than once per attachment. */
  predicate IsMessageLevel(t: Text)
  {
    t.Greeting? || t.StartNotice? || t.FallbackNotice?
  }

  /** The text as the user reads it. Every per-file text begins with the attachment's name. */
  function Render(t: Text): (r: string)
    ensures !IsMessageLevel(t) && !t.Continuation? ==> StartsWith(r, t.file)
  {
    match t
    case Greeting => "こんにちは！"
    case StartNotice(n) => Decimal(n) + "個のファイルを画像に変換します..."
    case FallbackNotice(n) =>
      Decimal(n) + "個のファイルを画像に変換します... (スレッド作成に失敗したため、このチャンネルに投稿します)"
    case Received(f) => f + " を受信しました。処理中です..."
    case ConvertedTo(f, pdf) => f + " をPDFに変換しました: " + pdf
    case ConversionFailed(f) => f + " のPDFへの変換に失敗しました。"
    case Unsupported(f) => f + " は対応していないファイル形式です。"
    case NoImages(f, pdf) => f + " (PDF: " + pdf + ") から画像を抽出できませんでした。"
    case ImagesCaption(f) => f + " の変換画像："
    case Continuation => ""
    case ProcessingError(f, e) => f + " の処理中にエラーが発生しました: " + e
  }

  /** The statement inside the per-attachment `try` (lines 105-158) at which an exception escapes. */
  datatype RaisePoint =
    | AtSave                    // `attachment.save`, line 106
    | AtReceivedNotice          // the send at line 107
    | AtConvertedNotice         // the send at line 116
    | AtSkipNotice              // the send at line 118, 123 or 138, whichever is reached
    | AtRender                  // `convert_from_path`, lines 132-135
    | AtImageSave(page: nat)    // `image.save` of that page, line 144
    | AtUpload(chunk: nat)      // the send of that chunk of images, line 154 or 156

  /** An exception: where it is raised and what `str(e)` gives. */
  datatype Fault = Fault(at: RaisePoint, message: string)

  /** What the outside world does with one attachment. */
  datatype Fate = Fate(
    converter: Converter.ConverterRun,  // the LibreOffice run; consulted for Office files only
    pages: nat,                         // the number of images `convert_from_path` returns
    fault: Option<Fault>)               // the exception that escapes the `try`, if any

  /** A Discord attachment, by its filename, together with its fate. */
  datatype Attachment = Attachment(filename: string, fate: Fate)

  /** How `message.create_thread` and the first `thread.send` (lines 86-88) go. */
  datatype ThreadOutcome =
    | ThreadCreated      // both succeed
    | CreateFailed       // `create_thread` raises `HTTPException`
    | StartNoticeFailed  // the thread exists, but sending into it raises `HTTPException`

  /** The parts of a `discord.Message` the handler reads, and the temporary directory it gets. */
  datatype Message = Message(
    fromSelf: bool,          // `message.author == client.user`
    authorName: string,     // `message.author.display_name`
    content: string,
    attachments: seq<Attachment>,
    thread: ThreadOutcome,
    tempDir: string)        // the path `tempfile.TemporaryDirectory()` yields
}
