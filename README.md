# printbot core, modelled in Dafny

printbot is a Telegram bot that prints the documents and photos its users send
it. This project models the core of the bot and proves properties of it:

- **Settings** (`bot/settings.py`): reading the environment into the bot's
  configuration. That covers the comma-separated list of allowed Telegram user
  ids and its validation, the page-confirmation limit with its default of 20,
  the debug switch, the required bot token, and the printer choice (the debug
  printer, "PDF" unless set, when debugging, otherwise `PRINTER_NAME`, which may
  be unset). It also covers the log level, looked up by name after `strip()` and
  `upper()`, with INFO as the fallback. The environment is a map from variable
  names to values. A missing key is an unset variable; an empty value is set
  but empty, which `os.getenv(name, default)` does not replace by the default.
- **Exceptions** (`bot/exceptions.py`): the settings errors, their class
  hierarchy as `except` clauses see it, and the exact text of their messages.
- **Conversion** (`bot/helpers.py`): `convert_to_pdf` with its guards in source
  order, the exact `soffice` command line, and the output path derived with
  `os.path.splitext`. `run_cmd` maps how the converter process ended (its exit
  status, or an `OSError`) to a completed run or a `CommandError`, and
  `convert_to_pdf` goes through it.
  `shutil.which` is a lookup in a map of installed tools, and `os.path.isfile`
  is membership in a set of existing files, taken before and after the command.
- **Handlers** (`bot/handlers.py`): the user check, the print-job pipeline of
  `handle_file`, and the `/status` and `/start` commands. They are methods over
  the set of existing paths. They return the replies sent, in order, and a trace
  of side effects (download, prepare, print, remove). The results of
  `prepare_for_printing`, `print_file`, `get_printing_queue` and of each
  `os.remove` are inputs.

Python's own semantics are written out where the results depend on them:
- `str.isspace`, `strip`, `split` on one character, `join`, and ASCII
  `lower`/`upper` (module `PyStr`);
- `int()` on a string: surrounding whitespace, an optional sign, single
  underscores between digits, leading zeros, and the 4300-digit limit
  (module `PyInt`);
- `posixpath.dirname` and `posixpath.splitext` (module `PosixPath`).

Files: `wrappers.dfy` (Option, Result), `pystr.dfy`, `pyint.dfy`,
`posixpath.dfy`, `exceptions.dfy`, `settings.dfy`, `helpers.dfy`,
`handlers.dfy`.

## Model

| member | source | states |
|---|---|---|
| PyStr.IsSpace | bot/settings.py:87-93 | definition of `str.isspace()` for one character, the whitespace `strip()` removes; characterised by StripIsCleanInfix, StripEmptyIff |
| PyStr.TrimLeft | bot/settings.py:90 | the leading characters removed all satisfy the predicate, and the result is a suffix that does not start with one |
| PyStr.TrimRight | bot/settings.py:90 | the trailing characters removed all satisfy the predicate, and the result is a prefix that does not end with one |
| PyStr.Strip | bot/settings.py:87-93 | definition of `str.strip()`; characterised by StripIsCleanInfix, StripKeepsOnly, StripEmptyIff, StripIdempotent |
| PyStr.StripIsCleanInfix | bot/settings.py:90 | `strip()` returns a middle slice of its input, with only whitespace cut on either side, and the result neither starts nor ends with whitespace |
| PyStr.StripKeepsOnly | bot/settings.py:90 | `strip()` never introduces a character that was not in its input |
| PyStr.StripEmptyIff | bot/settings.py:90 | `strip()` gives the empty string exactly when the input is all whitespace |
| PyStr.StripIdempotent | bot/settings.py:90 | stripping twice is the same as stripping once |
| PyStr.Split | bot/settings.py:90 | `split(",")` yields at least one piece, and no piece contains the separator |
| PyStr.Join | bot/exceptions.py:16 | definition of `sep.join(parts)`; characterised by JoinSplit, SplitJoin, JoinKeepsParts, JoinOffsetsIncrease |
| PyStr.JoinSplit | bot/settings.py:90 | joining the pieces of `split(c)` with `c` gives back the original string |
| PyStr.SplitJoin | bot/settings.py:90 | splitting a join of separator-free parts gives back exactly the parts |
| PyStr.JoinKeepsParts | bot/exceptions.py:16 | every part sits unchanged in the joined string, at its computed offset |
| PyStr.JoinOffsetsIncrease | bot/exceptions.py:16 | a later part starts after an earlier part and its separator end |
| PyStr.Lower | bot/settings.py:145 | definition of `str.lower()` on ASCII letters; characterised by ValidateBoolIff |
| PyStr.Upper | bot/settings.py:36 | definition of `str.upper()` on ASCII letters; characterised by ValidateLogLevelAnyCase |
| PyInt.ParseInt | bot/settings.py:56 | definition of `int(text)`; characterised by ParseIntIff, ParseIntAccepts, ParseFormat, ParseIntRejectsForeign |
| PyInt.ParseSigned | bot/settings.py:56 | definition of `int()` on text with no surrounding whitespace; characterised by ParseIntIff, ParseIntAccepts |
| PyInt.FormatInt | bot/settings.py:56 | definition of `str(n)`, the inverse `int()` is checked against; characterised by ParseFormat |
| PyInt.FormatNat | bot/settings.py:56 | `str(n)` of a natural number is a non-empty run of digits without a leading zero (unless it is "0") |
| PyInt.FormatNatValue | bot/settings.py:56 | the digits of `str(n)` read back as `n` |
| PyInt.ParseFormat | bot/settings.py:56 | `int(str(n)) == n` for every integer of at most 4300 digits |
| PyInt.ParseIntAccepts | bot/settings.py:56 | a digit run (single underscores between digits allowed) with an optional `+` or `-`, padded with whitespace `int()` skips, parses to its decimal value with the sign applied |
| PyInt.ParseIntIff | bot/settings.py:56 | `int()` succeeds exactly when the text is whitespace, an optional sign, a digit run of at most 4300 digits, then whitespace; the result is that number |
| PyInt.ParseIntRejectsForeign | bot/settings.py:117 | any character other than a digit, a sign, an underscore or int() whitespace makes `int()` fail |
| Exceptions.Message | bot/exceptions.py:8-16 | definition of the two messages; characterised by MissingEnvVarMessage, IncorrectUserIdMessage, IncorrectUserIdMessageOrder |
| Exceptions.IsSubclass | bot/exceptions.py:1-16 | definition of `issubclass` over the declared hierarchy; characterised by SettingsErrorCatchesBoth |
| Exceptions.Catches | bot/exceptions.py:1-16 | definition of what an `except` clause catches; characterised by SettingsErrorCatchesBoth |
| Exceptions.SettingsErrorCatchesBoth | bot/exceptions.py:1-16 | `except SettingsError` catches both settings errors, and each subclass catches exactly its own error |
| Exceptions.MissingEnvVarMessage | bot/exceptions.py:8-9 | the missing-variable message reads back the variable's name, and it is not an id-list message |
| Exceptions.IncorrectUserIdMessage | bot/exceptions.py:15-16 | the incorrect-id message reads back exactly the ids joined by ", ", and it is not a missing-variable message |
| Exceptions.IncorrectUserIdMessageOrder | bot/exceptions.py:15-16 | every listed id appears unchanged in the message, in list order |
| Settings.Getenv | bot/settings.py:50 | definition of `os.getenv(name)`; characterised by ValidateRequiredStr, ValidateIntFallsBack |
| Settings.GetenvOr | bot/settings.py:20-24 | definition of `os.getenv(name, default)`, whose default replaces only an unset variable; characterised by LoadLogSettings, PrinterSelection |
| Settings.KeepNonEmpty | bot/settings.py:90 | the filter keeps only non-empty pieces and never grows the list |
| Settings.KeepNonEmptyOrder | bot/settings.py:90 | the filter keeps the non-empty pieces in order, with their multiplicities |
| Settings.ParseCommaSeparated | bot/settings.py:87-93 | definition of `_parse_comma_separated`; characterised by ParseCommaSeparatedNoneIff, ParseCommaSeparatedPieces |
| Settings.ParseCommaSeparatedNoneIff | bot/settings.py:87-93 | the parse gives `None` exactly when the variable is unset or holds only commas and whitespace |
| Settings.ParseCommaSeparatedPieces | bot/settings.py:87-93 | otherwise the pieces are non-empty, comma-free and stripped; they are exactly the non-empty stripped fields, in order and with multiplicities |
| Settings.BadIdsRejected | bot/settings.py:113-122 | no piece is reported exactly when every piece parses as an int, and every reported piece fails to parse |
| Settings.GoodIdsValues | bot/settings.py:113-124 | accepted plus rejected pieces account for all pieces; with no rejection the ids are the pieces' int values, in order |
| Settings.BadIdsInOrder | bot/settings.py:115-119 | the rejected pieces keep their original order |
| Settings.BadIdsComplete | bot/settings.py:115-122 | every piece that fails to parse is reported once for each time it occurs (so "abc,abc" reports "abc" twice), and no piece that parses is reported |
| Settings.TgUsers | bot/settings.py:108-124 | definition of what `_validate_tg_users` returns or raises; characterised by TgUsersOutcome, and computed by ValidateTgUsers |
| Settings.TgUsersOutcome | bot/settings.py:108-124 | `None` exactly when the parse is `None`; all ids in order when every piece parses; otherwise `IncorrectUserIDError` naming all rejected pieces |
| Settings.ValidateTgUsers | bot/settings.py:108-124 | the loop over the pieces computes exactly that outcome: it collects ids and rejects, and raises only after the full scan |
| Settings.ScanIds | bot/settings.py:113-119 | the scan puts every piece in exactly one list, in order: the `int()` values of the accepted pieces and the rejected pieces themselves |
| Settings.ValidateInt | bot/settings.py:49-58 | definition of `_validate_int`; characterised by ValidateIntReadsFormatted, ValidateIntFallsBack |
| Settings.ValidateIntReadsFormatted | bot/settings.py:49-58 | a variable holding `str(n)` yields `n`, whatever the default |
| Settings.ValidateIntFallsBack | bot/settings.py:49-58 | the default is used exactly when the variable is unset or holds no number `int()` accepts; otherwise the result is that number |
| Settings.ValidateIntReadsPadded | bot/settings.py:49-58 | a value such as " 30 ", "+30" or "3_0" yields its number, whatever the default |
| Settings.ValidateBool | bot/settings.py:143-145 | definition of `_validate_bool`; characterised by ValidateBoolIff |
| Settings.ValidateBoolIff | bot/settings.py:143-145 | the switch is on exactly when the variable spells "1", "t", "true", "y" or "yes" in any letter case |
| Settings.ValidateRequiredStr | bot/settings.py:147-162 | it fails exactly when the variable is unset or empty, then with `MissingEnvVarError` whose message names the variable; otherwise it returns the value |
| Settings.ValidateLogLevel | bot/settings.py:29-38 | the result is always a standard logging level; it is INFO when the variable is unset or empty, and INFO when its stripped, upper-cased text names no level |
| Settings.ValidateLogLevelReadsName | bot/settings.py:29-38 | a variable holding a level's canonical name yields that level |
| Settings.ValidateLogLevelAnyCase | bot/settings.py:29-38 | the lookup ignores ASCII letter case and surrounding whitespace: any spelling of a level name in any case, padded with whitespace, yields that level |
| Settings.LoadLogSettings | bot/settings.py:20-27 | the level is the validated `LOG_LEVEL`; a set format and a set date format are used as given, even when empty; an unset one takes its default |
| Settings.NewPrintContext | bot/settings.py:41-47 | raises what the user-id validation raises; otherwise it holds the given printer, the validated ids and the page limit (default 20) |
| Settings.NewSettings | bot/settings.py:134-141 | a missing token is reported before a bad user list; it succeeds exactly when both are fine, with the token, debug flag, debug printer name ("PDF" unless set), chosen printer, ids and page limit in place |
| Settings.ChosenPrinter | bot/settings.py:136-141 | definition of the printer `Settings()` hands to the print context; characterised by PrinterSelection |
| Settings.PrinterSelection | bot/settings.py:136-141 | debugging picks the debug printer ("PDF" when unset); otherwise `PRINTER_NAME`, and `None` when it is unset |
| Helpers.RunCmd | bot/helpers.py:21-25 | the command completes exactly when the process exits with status 0; any failure becomes a `CommandError` carrying its cause |
| Helpers.ConvertToPdf | bot/helpers.py:28-73 | definition of `convert_to_pdf`; characterised by the Helpers lemmas below |
| Helpers.FindConverter | bot/helpers.py:44-48 | definition of `shutil.which("soffice") or shutil.which("libreoffice")`; characterised by CommandShape, NoConverterNoRun |
| Helpers.ConvertCommand | bot/helpers.py:50-59 | definition of the conversion command line; characterised by CommandShape |
| Helpers.PdfPath | bot/helpers.py:68 | definition of the output path; characterised by PdfPathReplacesExtension, ConvertSucceedsIff |
| Helpers.MissingInputFirst | bot/helpers.py:41-42 | a missing input raises `FileNotFoundError("File not found: <path>")` and nothing runs |
| Helpers.NoConverterNoRun | bot/helpers.py:44-48 | with neither `soffice` nor `libreoffice` installed, it raises `FileConversionError` and nothing runs |
| Helpers.CommandShape | bot/helpers.py:44-62 | something runs exactly when the input exists and a converter is found; then the command is the seven-word line, with `soffice` preferred and the input's directory as output |
| Helpers.CommandErrorIsConversionError | bot/helpers.py:61-66 | a command that fails to start or exits non-zero is reported as `FileConversionError` whose message names the command and the cause |
| Helpers.MissingOutputIsConversionError | bot/helpers.py:68-71 | a command that completes without producing the PDF is reported as `FileConversionError("Conversion did not produce a PDF file")` |
| Helpers.ConvertSucceedsIff | bot/helpers.py:28-73 | success exactly when the input exists, a converter is found, the command exits with status 0 and the derived PDF exists; the result is that PDF, in the input's directory; a failure is `FileNotFoundError` exactly when the input is missing, and `FileConversionError` otherwise |
| Helpers.PdfPathReplacesExtension | bot/helpers.py:68 | the output is the input's `splitext` root followed by ".pdf"; when the input has an extension, `splitext` of the output gives the same root and ".pdf" (an input such as "/tmp/" has none, and "/tmp/.pdf" has none either) |
| PosixPath.RFind | bot/helpers.py:50 | the index of the last occurrence of the character, or -1 when it does not occur |
| PosixPath.Splitext | bot/helpers.py:68 | definition of `posixpath.splitext`; characterised by SplitextParts, SplitextFindsExtension, SplitextExtensionAtLastDot |
| PosixPath.SplitextParts | bot/helpers.py:68 | root plus extension is the path; the extension is empty or a dot followed by no dot and no slash |
| PosixPath.SplitextFindsExtension | bot/helpers.py:68 | a dot in the last component with a non-dot before it in that component makes `splitext` find an extension; leading dots alone never do |
| PosixPath.SplitextExtensionAtLastDot | bot/helpers.py:68 | conversely, a found extension starts at the last dot, which lies in the last component after a non-dot character |
| PosixPath.Dirname | bot/helpers.py:50 | definition of `posixpath.dirname`; characterised by DirnameSpec, ReplaceExtensionKeepsDirname |
| PosixPath.DirnameSpec | bot/helpers.py:50 | `dirname` is a prefix that is empty exactly when there is no slash; after it come only slashes and then a slash-free last component; a result made only of slashes is the whole head up to the last slash, as `dirname("//x")` is `"//"` |
| PosixPath.ReplaceExtensionKeepsDirname | bot/helpers.py:50-68 | replacing the extension keeps the directory, so the PDF lands next to the input |
| Handlers.IsUserValid | bot/handlers.py:30-64 | a user is allowed exactly when there is no restriction or the user is listed; a refusal sends exactly one `no_auth` reply, and an allowed user gets no reply |
| Handlers.DownloadPath | bot/handlers.py:77-143 | definition of where `handle_file` downloads a document or photo, or `None` for an unsupported message or a document without a file name; characterised by PhotoPrintedAsDownloaded, HandleFile |
| Handlers.PrintablePath | bot/handlers.py:98-130 | definition of the path sent to the printer; characterised by CaughtPrepareErrorStillPrints, PhotoPrintedAsDownloaded |
| Handlers.FilesAtPrint | bot/handlers.py:92-131 | definition of the paths on disk when printing starts; characterised by HandleFile, JobLeavesNoArtifacts |
| Handlers.HandleFileReplies | bot/handlers.py:67-167 | definition of the replies `handle_file` sends; characterised by PrintAttemptRepliesOnce, CaughtPrepareErrorStillPrints and HandleFile |
| Handlers.HandleFile | bot/handlers.py:67-183 | the replies depend only on the user check, the message and the prepare and print outcomes; a refused user or an unsupported message causes no effect; a document without a file name fails the assertion at bot/handlers.py:80, so the handler ends with no reply, no download and nothing to clean up; the trace runs download, prepare, print, then cleanup; an uncaught prepare error leaves the download on disk |
| Handlers.CleanUp | bot/handlers.py:168-183 | the removals it performs, the files it leaves and whether it swallowed an error are those of the cleanup specification that the lemmas below characterise |
| Handlers.CleanupAfterPrint | bot/handlers.py:168-183 | definition of the `finally` block; characterised by the Cleanup lemmas below |
| Handlers.CleanupRemovesArtifacts | bot/handlers.py:168-183 | when no removal fails, neither the download nor the printable artifact is left on disk |
| Handlers.CleanupOnlyRemovesArtifacts | bot/handlers.py:168-183 | cleanup touches only the two artifact paths and only removes; its removals are exactly the paths that disappeared, each removed once |
| Handlers.CleanupSamePathOnce | bot/handlers.py:174-180 | when the printable path is the download, it is removed once |
| Handlers.CleanupStopsAtFirstFailure | bot/handlers.py:170-183 | a failing first removal is swallowed and skips the second |
| Handlers.CleanupIdempotent | bot/handlers.py:170-180 | running cleanup again removes nothing and raises nothing |
| Handlers.JobLeavesNoArtifacts | bot/handlers.py:67-183 | a job that reaches the printer, with no failing removal, leaves the disk as it found it, minus anything already at the artifact paths |
| Handlers.PrintAttemptRepliesOnce | bot/handlers.py:152-167 | after a print attempt, exactly one of `sent_to_printer` / `printing_failed` is sent, last, matching the outcome |
| Handlers.CaughtPrepareErrorStillPrints | bot/handlers.py:98-116 | after a caught `UnprintableTypeError` or `FileNotFoundError` the handler still prints, and prints the raw download |
| Handlers.PhotoPrintedAsDownloaded | bot/handlers.py:118-131 | a photo is downloaded under the largest size's file id and printed as downloaded |
| Handlers.Status | bot/handlers.py:186-211 | a refused user gets `no_auth` and the queue is not queried; otherwise one reply: the queue when it is non-empty, `empty_queue` when it is empty, `status_failed` on a retrieval error, nothing when another exception escapes |
| Handlers.Start | bot/handlers.py:214-222 | one reply: the greeting for an allowed user, `no_auth` otherwise |

## Left out

- PyInt.ParseInt: accepts ASCII decimal digits only; `int()` also accepts other Unicode decimal digits.
- PyInt.ParseInt: the 4300-digit limit is fixed; the limit Python reads from `PYTHONINTMAXSTRDIGITS` or `sys.set_int_max_str_digits` is not modelled.
- PyStr.Lower: maps ASCII letters only. `_validate_bool` is still exact, because no other character lower-cases to a letter of "true" or "yes".
- PyStr.Upper: maps ASCII letters only. A few non-ASCII characters that `str.upper()` turns into ASCII (dotless i, long s, some ligatures) would reach a level name in Python but not in the model.
- Settings.ValidateLogLevel: inherits the ASCII-only `upper()`, so a level name spelled with a non-ASCII character that `str.upper()` maps to ASCII reads as INFO in the model.
- Handlers.HandleFile: a failure of `get_file` or `download_to_drive` is not modelled; the download always succeeds and creates the file.
- Handlers.HandleFile: a failing `reply_text` is not modelled; each reply is sent.
- Handlers.HandleFile: the assertions that `update.effective_user` and `update.message` are set (bot/handlers.py:29-30, :75) are not modelled; every update carries a user id and a message.
- Handlers.HandleFile: the path `prepare_for_printing` returns is taken to exist on disk when printing starts, as `convert_to_pdf` guarantees for its result (bot/helpers.py:70-73). The branch of the cleanup where that path does not exist (bot/handlers.py:177) is therefore reached only through `CleanupAfterPrint` and its lemmas, not from `HandleFile`. An empty returned path is then also recorded as a file on disk.
- Handlers.HandleFile: `os.path.exists` is membership in the set of existing paths; races with other processes are not modelled.
- `prepare_for_printing` and `get_printing_queue`: `bot/handlers.py` imports them from `bot/helpers.py`, which does not define them. The same holds for `PrintingError`, `UnprintableTypeError`, `PrinterStatusRetrievalError`, `CommandError` and `FileConversionError`, which `bot/exceptions.py` does not define. The model takes their outcomes as inputs.
- `print_file` in `bot/helpers.py` is an empty stub. The handler model takes its outcome as an input, so the printing-error paths stay in view.
- `is_allowed` in `bot/helpers.py` is an empty stub used only by `bot/bot.py`; it is not modelled.
- `bot/bot.py` is an earlier draft of the handlers; it is not part of this model.
- `build_app` is not part of this model: the application builder, handler registration and keyboard are Telegram plumbing. The handlers take `bot_data` as an input. `build_app` reads `settings.allowed_users` and `settings.printer_name` (bot/handlers.py:228, 235), but `Settings` keeps those inside `print_context` (bot/settings.py:139-141).
- Loading of the `.env` file (bot/settings.py:9-17) is left out; the environment is an input.
- Logging (`bot/logger.py` and every log call) is left out: it has no effect on results.
- `PrintContext.__repr__` is left out: it is display only.
- `bot/main.py` is left out: it is start-up plumbing.
- The page-count confirmation step and any content classification are not part of this model: the handlers shown do not perform them.
- Concurrency between handlers and Telegram's event loop is not modelled.
- `_validate_int`'s `TypeError` branch is left out: `os.getenv` returns a string, so `int()` never raises `TypeError` there.
