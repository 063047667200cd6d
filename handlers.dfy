/**
 * The Telegram handlers: the authorization check, the print-job pipeline of
 * `handle_file`, and the `/status` and `/start` commands.
 *
 * The outside world is passed in and handed back: the set of paths that exist
 * on disk, the replies sent to the user (`outbox`, in order), and a trace of the
 * side effects (download, prepare, print, remove) in the order they happen.
 * What `prepare_for_printing`, `print_file` and `get_printing_queue` do is an
 * input too: each is given as the outcome the handler sees.
 */
module Handlers {
  import opened Wrappers

  /** The keys of `bot.messages.MESSAGES` the handlers reply with. */
  datatype Reply =
    | NoAuth
    | Unprintable
    | Failed
    | Unsupported
    | PrintingFailed
    | SentToPrinter
    | PrintQueue(queue: string)
    | EmptyQueue
    | StatusFailed
    | StartReply

  /** `context.bot_data.get("allowed_users")`: absent or `None`, an iterable of
      ids (possibly empty), or some value that is not iterable, truthy or not. */
  datatype AllowedUsers =
    | NoneSet
    | Ids(ids: seq<int>)
    | NotIterable(truthy: bool)

  datatype BotData = BotData(allowedUsers: AllowedUsers, printerName: Option<string>)

  datatype Auth = Auth(valid: bool, replies: seq<Reply>)

  /** Python's `not allowed_users`. */
  predicate Unrestricted(a: AllowedUsers) {
    a.NoneSet? || (a.Ids? && a.ids == []) || (a.NotIterable? && !a.truthy)
  }

  /** `_is_user_valid`: no restriction lets everyone in silently; a value that
      is not iterable shuts everyone out; otherwise membership decides. Every
      refusal sends exactly one `no_auth` reply, and nothing else is sent. */
  function IsUserValid(allowed: AllowedUsers, userId: int): (r: Auth)
    ensures r.valid <==> Unrestricted(allowed) || (allowed.Ids? && userId in allowed.ids)
    ensures r.replies == (if r.valid then [] else [NoAuth])
  {
    if Unrestricted(allowed) then Auth(true, [])
    else if allowed.NotIterable? then Auth(false, [NoAuth])
    else if userId !in allowed.ids then Auth(false, [NoAuth])
    else Auth(true, [])
  }

  /** A truthy value that is not iterable denies every user (fail-closed). */
  lemma NotIterableDeniesAll(userId: int)
    ensures IsUserValid(NotIterable(true), userId) == Auth(false, [NoAuth])
  {
  }

  // ---------------------------------------------------------------------------
  // handle_file

  /** A Telegram document; the Bot API may leave its file name out. */
  datatype Document = Document(fileId: string, fileName: Option<string>)

  /** An incoming message: its document, if any, and the file ids of its photo
      sizes, smallest first (an empty list when it carries no photo). */
  datatype Message = Message(document: Option<Document>, photo: seq<string>)

  /** What `prepare_for_printing(file_path)` does: returns the printable path,
      raises `UnprintableTypeError` or `FileNotFoundError` (both caught), or
      raises anything else (not caught). */
  datatype PrepareOutcome =
    | Prepared(path: string)
    | UnprintableType
    | PrepareFileNotFound
    | PrepareOtherError

  /** What `print_file` does: returns, raises `PrintingError` (caught), or raises
      anything else (not caught). */
  datatype PrintOutcome =
    | Printed
    | PrintingError
    | PrintOtherError

  /** A side effect of the handler on the world. */
  datatype Effect =
    | Download(path: string)
    | Prepare(path: string)
    | Print(path: string, printer: Option<string>)
    | Remove(path: string)

  /** A document without a file name: the handler's assertion on the name
      fails before anything is downloaded. */
  predicate NamelessDocument(msg: Message) {
    msg.document.Some? && msg.document.value.fileName.None?
  }

  /** Where the attachment is downloaded: `/tmp/<file name>` for a named
      document, `/tmp/photo_<file id>.jpg` for the largest photo size; `None`
      when the message carries neither, or carries a nameless document. */
  function DownloadPath(msg: Message): Option<string> {
    if msg.document.Some? then
      (if msg.document.value.fileName.Some? then Some("/tmp/" + msg.document.value.fileName.value) else None)
    else if msg.photo != [] then Some("/tmp/photo_" + msg.photo[|msg.photo| - 1] + ".jpg")
    else None
  }

  /** The path handed to the printer: what preparation returned for a document,
      and otherwise the download itself, including after a caught preparation
      error. */
  function PrintablePath(msg: Message, prepare: PrepareOutcome): string
    requires DownloadPath(msg).Some?
  {
    if msg.document.Some? && prepare.Prepared? then prepare.path else DownloadPath(msg).value
  }

  /** Whether an uncaught preparation error ends the handler early. */
  predicate PrepareEscapes(msg: Message, prepare: PrepareOutcome) {
    msg.document.Some? && msg.document.value.fileName.Some? && prepare.PrepareOtherError?
  }

  /** Whether the handler gets as far as the print attempt. */
  predicate ReachesPrint(botData: BotData, userId: int, msg: Message, prepare: PrepareOutcome) {
    IsUserValid(botData.allowedUsers, userId).valid && DownloadPath(msg).Some? && !PrepareEscapes(msg, prepare)
  }

  /** The reply sent after a caught preparation error. */
  function PrepareReplies(msg: Message, prepare: PrepareOutcome): seq<Reply> {
    if msg.document.None? then []
    else match prepare
      case UnprintableType => [Unprintable]
      case PrepareFileNotFound => [Failed]
      case _ => []
  }

  /** The reply sent after the print attempt. */
  function PrintReplies(printed: PrintOutcome): seq<Reply> {
    match printed
    case Printed => [SentToPrinter]
    case PrintingError => [PrintingFailed]
    case PrintOtherError => []
  }

  /** Everything `handle_file` replies, in order. It does not depend on the
      file system or on how cleanup goes. */
  function HandleFileReplies(botData: BotData, userId: int, msg: Message,
                             prepare: PrepareOutcome, printed: PrintOutcome): seq<Reply>
  {
    var auth := IsUserValid(botData.allowedUsers, userId);
    if !auth.valid then auth.replies
    else if NamelessDocument(msg) then []
    else if DownloadPath(msg).None? then [Unsupported]
    else if PrepareEscapes(msg, prepare) then []
    else PrepareReplies(msg, prepare) + PrintReplies(printed)
  }

  /** What the `finally` block leaves: the paths still on disk, the removals it
      made, and whether an `os.remove` raised (swallowed, skipping the rest). */
  datatype Cleanup = Cleanup(files: set<string>, removed: seq<Effect>, raised: bool)

  /** The `finally` block: remove the download if it exists, then the printable
      artifact if it is a different, existing path; one `try` covers both, so a
      failing first removal skips the second. `failing` holds the paths whose
      removal raises. */
  function CleanupAfterPrint(files: set<string>, filePath: string, printablePath: string,
                             failing: set<string>): Cleanup
  {
    var first := filePath != [] && filePath in files;
    if first && filePath in failing then Cleanup(files, [], true)
    else
      var files1 := if first then files - {filePath} else files;
      var removed1 := if first then [Remove(filePath)] else [];
      if printablePath != [] && printablePath != filePath && printablePath in files1 then
        if printablePath in failing then Cleanup(files1, removed1, true)
        else Cleanup(files1 - {printablePath}, removed1 + [Remove(printablePath)], false)
      else Cleanup(files1, removed1, false)
  }

  /** The paths on disk when the `finally` block starts: the download, and what
      preparation returned. */
  function FilesAtPrint(files: set<string>, msg: Message, prepare: PrepareOutcome): set<string>
    requires DownloadPath(msg).Some?
  {
    files + {DownloadPath(msg).value} + {PrintablePath(msg, prepare)}
  }

  /** `handle_file(update, context)`. `escaped` is set when an exception leaves
      the handler. */
  method HandleFile(botData: BotData, userId: int, msg: Message, prepare: PrepareOutcome,
                    printed: PrintOutcome, failing: set<string>, files: set<string>)
    returns (filesOut: set<string>, outbox: seq<Reply>, trace: seq<Effect>, escaped: bool)
    ensures outbox == HandleFileReplies(botData, userId, msg, prepare, printed)
    ensures !IsUserValid(botData.allowedUsers, userId).valid ==>
              outbox == [NoAuth] && trace == [] && filesOut == files && !escaped
    ensures IsUserValid(botData.allowedUsers, userId).valid && msg.document.None? && msg.photo == [] ==>
              outbox == [Unsupported] && trace == [] && filesOut == files && !escaped
    ensures IsUserValid(botData.allowedUsers, userId).valid && NamelessDocument(msg) ==>
              outbox == [] && trace == [] && filesOut == files && escaped
    ensures IsUserValid(botData.allowedUsers, userId).valid && PrepareEscapes(msg, prepare) ==>
              && trace == [Download(DownloadPath(msg).value), Prepare(DownloadPath(msg).value)]
              && filesOut == files + {DownloadPath(msg).value} && escaped
    ensures ReachesPrint(botData, userId, msg, prepare) ==>
              var filePath := DownloadPath(msg).value;
              var printable := PrintablePath(msg, prepare);
              var cleanup := CleanupAfterPrint(FilesAtPrint(files, msg, prepare), filePath, printable, failing);
              && trace == [Download(filePath)]
                          + (if msg.document.Some? then [Prepare(filePath)] else [])
                          + [Print(printable, botData.printerName)]
                          + cleanup.removed
              && filesOut == cleanup.files
              && (escaped <==> printed.PrintOtherError?)
  {
    filesOut, outbox, trace, escaped := files, [], [], false;
    var auth := IsUserValid(botData.allowedUsers, userId);
    outbox := outbox + auth.replies;
    if !auth.valid {
      return;
    }

    var filePath: string;
    var printablePath: string;
    if msg.document.Some? {
      var doc := msg.document.value;
      if doc.fileName.None? {
        // `assert doc.file_name is not None` raises
        escaped := true;
        return;
      }
      filePath := "/tmp/" + doc.fileName.value;
      filesOut := filesOut + {filePath};
      trace := trace + [Download(filePath)];
      printablePath := filePath;
      trace := trace + [Prepare(filePath)];
      match prepare {
        case Prepared(path) =>
          printablePath := path;
          filesOut := filesOut + {path};
        case UnprintableType =>
          outbox := outbox + [Unprintable];
        case PrepareFileNotFound =>
          outbox := outbox + [Failed];
        case PrepareOtherError =>
          escaped := true;
          return;
      }
    } else if msg.photo != [] {
      var photo := msg.photo[|msg.photo| - 1];
      filePath := "/tmp/photo_" + photo + ".jpg";
      printablePath := filePath;
      filesOut := filesOut + {filePath};
      trace := trace + [Download(filePath)];
    } else {
      outbox := outbox + [Unsupported];
      return;
    }

    assert ReachesPrint(botData, userId, msg, prepare);
    assert filePath == DownloadPath(msg).value && printablePath == PrintablePath(msg, prepare);
    assert outbox == PrepareReplies(msg, prepare);
    assert filesOut == FilesAtPrint(files, msg, prepare);
    assert trace == [Download(filePath)] + (if msg.document.Some? then [Prepare(filePath)] else []);
    trace := trace + [Print(printablePath, botData.printerName)];
    match printed {
      case Printed =>
        outbox := outbox + [SentToPrinter];
      case PrintingError =>
        outbox := outbox + [PrintingFailed];
      case PrintOtherError =>
        escaped := true;
    }

    // finally: cleanup, with any exception swallowed
    var cleanup := CleanUp(filesOut, filePath, printablePath, failing);
    filesOut := cleanup.files;
    trace := trace + cleanup.removed;
  }

  /** The `finally` block of `handle_file`, step by step. */
  method CleanUp(files: set<string>, filePath: string, printablePath: string, failing: set<string>)
    returns (c: Cleanup)
    ensures c == CleanupAfterPrint(files, filePath, printablePath, failing)
  {
    var remaining := files;
    var removed: seq<Effect> := [];
    var raised := false;
    if filePath != [] && filePath in remaining {
      if filePath in failing {
        raised := true;
      } else {
        remaining := remaining - {filePath};
        removed := removed + [Remove(filePath)];
      }
    }
    if !raised && printablePath != [] && printablePath != filePath && printablePath in remaining {
      if printablePath in failing {
        raised := true;
      } else {
        remaining := remaining - {printablePath};
        removed := removed + [Remove(printablePath)];
      }
    }
    c := Cleanup(remaining, removed, raised);
  }

  /** Without failing removals, cleanup leaves neither the download nor the
      printable artifact on disk, and reports no error. */
  lemma CleanupRemovesArtifacts(files: set<string>, filePath: string, printablePath: string, failing: set<string>)
    requires filePath !in failing && printablePath !in failing
    ensures var c := CleanupAfterPrint(files, filePath, printablePath, failing);
            && !c.raised
            && (filePath != [] ==> filePath !in c.files)
            && (printablePath != [] ==> printablePath !in c.files)
  {
  }

  /** Cleanup touches nothing but the two artifact paths, only ever removes, and
      its removals are exactly the paths that disappeared, each removed once. */
  lemma CleanupOnlyRemovesArtifacts(files: set<string>, filePath: string, printablePath: string, failing: set<string>)
    ensures var c := CleanupAfterPrint(files, filePath, printablePath, failing);
            && c.files <= files
            && (forall x :: x != filePath && x != printablePath ==> (x in c.files <==> x in files))
            && |c.removed| <= 2
            && (forall i :: 0 <= i < |c.removed| ==> c.removed[i].Remove? && c.removed[i].path in files - c.files)
            && (forall x :: x in files - c.files ==> Remove(x) in c.removed)
            && (|c.removed| == 2 ==> c.removed[0] != c.removed[1])
  {
  }

  /** The printable artifact is removed only when it differs from the download:
      the same path is never removed twice. */
  lemma CleanupSamePathOnce(files: set<string>, filePath: string, failing: set<string>)
    requires filePath != [] && filePath in files && filePath !in failing
    ensures CleanupAfterPrint(files, filePath, filePath, failing) == Cleanup(files - {filePath}, [Remove(filePath)], false)
  {
  }

  /** A removal that raises is swallowed and skips what is left of cleanup. */
  lemma CleanupStopsAtFirstFailure(files: set<string>, filePath: string, printablePath: string, failing: set<string>)
    requires filePath != [] && filePath in files && filePath in failing
    ensures CleanupAfterPrint(files, filePath, printablePath, failing) == Cleanup(files, [], true)
  {
  }

  /** Cleanup is idempotent: running it again removes nothing and raises nothing. */
  lemma CleanupIdempotent(files: set<string>, filePath: string, printablePath: string, failing: set<string>)
    requires filePath !in failing && printablePath !in failing
    ensures var c := CleanupAfterPrint(files, filePath, printablePath, failing);
            CleanupAfterPrint(c.files, filePath, printablePath, failing) == Cleanup(c.files, [], false)
  {
    CleanupRemovesArtifacts(files, filePath, printablePath, failing);
  }

  /** A job that reaches the printer, with no failing removal, leaves the disk as
      it found it, less anything that already sat at the artifact paths. (An
      empty printable path is falsy and is never removed.) */
  lemma JobLeavesNoArtifacts(botData: BotData, userId: int, msg: Message, prepare: PrepareOutcome,
                             files: set<string>, failing: set<string>)
    requires ReachesPrint(botData, userId, msg, prepare)
    requires DownloadPath(msg).value !in failing && PrintablePath(msg, prepare) !in failing
    requires PrintablePath(msg, prepare) != []
    ensures var filePath := DownloadPath(msg).value;
            var printable := PrintablePath(msg, prepare);
            var after := CleanupAfterPrint(FilesAtPrint(files, msg, prepare), filePath, printable, failing);
            after.files == files - {filePath, printable} && !after.raised
  {
    var filePath := DownloadPath(msg).value;
    var printable := PrintablePath(msg, prepare);
    var before := FilesAtPrint(files, msg, prepare);
    var after := CleanupAfterPrint(before, filePath, printable, failing);
    assert filePath != [];
    CleanupRemovesArtifacts(before, filePath, printable, failing);
    CleanupOnlyRemovesArtifacts(before, filePath, printable, failing);
  }

  /** Once the print is attempted, exactly one of `sent_to_printer` and
      `printing_failed` is sent, last, according to the print outcome; before it
      comes at most the reply to a caught preparation error. */
  lemma PrintAttemptRepliesOnce(botData: BotData, userId: int, msg: Message,
                                prepare: PrepareOutcome, printed: PrintOutcome)
    requires ReachesPrint(botData, userId, msg, prepare) && !printed.PrintOtherError?
    ensures var replies := HandleFileReplies(botData, userId, msg, prepare, printed);
            && 1 <= |replies| <= 2
            && replies[|replies| - 1] == (if printed.Printed? then SentToPrinter else PrintingFailed)
            && (|replies| == 2 ==> replies[0] == Unprintable || replies[0] == Failed)
            && multiset(replies)[SentToPrinter] + multiset(replies)[PrintingFailed] == 1
  {
    var pre := PrepareReplies(msg, prepare);
    assert HandleFileReplies(botData, userId, msg, prepare, printed) == pre + PrintReplies(printed);
    assert pre == [] || pre == [Unprintable] || pre == [Failed];
    OneFinalReply(pre, if printed.Printed? then SentToPrinter else PrintingFailed);
  }

  /** A caught-error reply or none, followed by one print reply, holds that
      print reply once and last. */
  lemma OneFinalReply(pre: seq<Reply>, last: Reply)
    requires pre == [] || pre == [Unprintable] || pre == [Failed]
    requires last == SentToPrinter || last == PrintingFailed
    ensures var replies := pre + [last];
            && 1 <= |replies| <= 2
            && replies[|replies| - 1] == last
            && (|replies| == 2 ==> replies[0] == Unprintable || replies[0] == Failed)
            && multiset(replies)[SentToPrinter] + multiset(replies)[PrintingFailed] == 1
  {
    assert multiset(pre + [last]) == multiset(pre) + multiset{last};
  }

  /** After a caught `UnprintableTypeError` or `FileNotFoundError` the handler
      does not stop: it still prints, and prints the download itself. */
  lemma CaughtPrepareErrorStillPrints(botData: BotData, userId: int, msg: Message,
                                      prepare: PrepareOutcome, printed: PrintOutcome)
    requires IsUserValid(botData.allowedUsers, userId).valid && msg.document.Some?
    requires msg.document.value.fileName.Some?
    requires prepare.UnprintableType? || prepare.PrepareFileNotFound?
    ensures ReachesPrint(botData, userId, msg, prepare)
    ensures PrintablePath(msg, prepare) == DownloadPath(msg).value
    ensures HandleFileReplies(botData, userId, msg, prepare, printed)
            == (if prepare.UnprintableType? then [Unprintable] else [Failed]) + PrintReplies(printed)
  {
  }

  /** A photo is downloaded under its largest size's file id and printed as is. */
  lemma PhotoPrintedAsDownloaded(msg: Message, prepare: PrepareOutcome)
    requires msg.document.None? && msg.photo != []
    ensures DownloadPath(msg) == Some("/tmp/photo_" + msg.photo[|msg.photo| - 1] + ".jpg")
    ensures PrintablePath(msg, prepare) == DownloadPath(msg).value
  {
  }

  // ---------------------------------------------------------------------------
  // status and start

  /** What `get_printing_queue()` does: returns the queue listing, raises
      `PrinterStatusRetrievalError` (caught), or raises anything else (not
      caught). */
  datatype QueueOutcome =
    | QueueListing(text: string)
    | QueueRetrievalError
    | QueueOtherError

  /** `status(update, context)`: `queried` tells whether the queue was asked,
      `escaped` whether an exception leaves the handler. */
  method Status(botData: BotData, userId: int, queue: QueueOutcome)
    returns (outbox: seq<Reply>, queried: bool, escaped: bool)
    ensures !IsUserValid(botData.allowedUsers, userId).valid ==> outbox == [NoAuth] && !queried && !escaped
    ensures IsUserValid(botData.allowedUsers, userId).valid ==> queried
    ensures escaped <==> IsUserValid(botData.allowedUsers, userId).valid && queue.QueueOtherError?
    ensures escaped ==> outbox == []
    ensures IsUserValid(botData.allowedUsers, userId).valid && !queue.QueueOtherError? ==>
              && |outbox| == 1
              && (outbox[0] == StatusFailed <==> queue.QueueRetrievalError?)
              && (outbox[0] == EmptyQueue <==> queue == QueueListing([]))
              && (outbox[0].PrintQueue? <==> queue.QueueListing? && queue.text != [])
              && (outbox[0].PrintQueue? ==> outbox[0].queue == queue.text)
  {
    var auth := IsUserValid(botData.allowedUsers, userId);
    outbox := auth.replies;
    queried, escaped := false, false;
    if !auth.valid {
      return;
    }
    queried := true;
    match queue {
      case QueueListing(text) =>
        if text != [] {
          outbox := outbox + [PrintQueue(text)];
        } else {
          outbox := outbox + [EmptyQueue];
        }
      case QueueRetrievalError =>
        outbox := outbox + [StatusFailed];
      case QueueOtherError =>
        escaped := true;
    }
  }

  /** `start(update, context)`: the greeting for an allowed user, the refusal
      otherwise, one reply either way. */
  method Start(botData: BotData, userId: int) returns (outbox: seq<Reply>)
    ensures outbox == (if IsUserValid(botData.allowedUsers, userId).valid then [StartReply] else [NoAuth])
  {
    var auth := IsUserValid(botData.allowedUsers, userId);
    outbox := auth.replies;
    if !auth.valid {
      return;
    }
    outbox := outbox + [StartReply];
  }
}
