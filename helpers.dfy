/**
 * `run_cmd` and `convert_to_pdf`. The operating system is an input: the set of
 * paths that are regular files before and after the converter runs, the
 * `shutil.which` lookup table, and how the converter process ended.
 */
module Helpers {
  import opened Wrappers
  import opened PyStr
  import opened PosixPath

  /** How a child process ended, as `subprocess.run` reports it: its exit
      status, or the `OSError` that kept it from starting. */
  datatype ProcessEnd =
    | Exited(code: int)
    | OsError

  /** What `run_cmd` gives back: the finished process, or a `CommandError`
      wrapping the `OSError` or `CalledProcessError`. */
  datatype CommandOutcome =
    | Completed
    | CommandError(cause: string)

  /** `run_cmd(command)` runs with `check=True`, so a non-zero exit raises as
      well as an `OSError`; `detail` is the text of the underlying exception. */
  function RunCmd(end: ProcessEnd, detail: string): (r: CommandOutcome)
    ensures r == Completed <==> end == Exited(0)
    ensures r.CommandError? ==> r.cause == detail
  {
    if end == Exited(0) then Completed else CommandError(detail)
  }

  datatype ConversionError =
    | FileNotFound(message: string)
    | FileConversionError(message: string)

  /** One call of `convert_to_pdf`: the command it ran, if it got that far, and
      the path it returned or the error it raised. */
  datatype Conversion = Conversion(ran: Option<seq<string>>, result: Result<string, ConversionError>)

  const NoToolMessage := "LibreOffice (soffice) is not installed or not in PATH"
  const NoOutputMessage := "Conversion did not produce a PDF file"

  /** `shutil.which(name)`. */
  function Which(path: map<string, string>, name: string): Option<string> {
    if name in path then Some(path[name]) else None
  }

  /** Python truthiness of an optional string. */
  predicate Truthy(v: Option<string>) {
    v.Some? && v.value != []
  }

  /** `shutil.which("soffice") or shutil.which("libreoffice")`. */
  function FindConverter(path: map<string, string>): Option<string> {
    if Truthy(Which(path, "soffice")) then Which(path, "soffice") else Which(path, "libreoffice")
  }

  /** The argument vector of the conversion command. */
  function ConvertCommand(tool: string, inputPath: string): seq<string> {
    [tool, "--headless", "--convert-to", "pdf", "--outdir", Dirname(inputPath), inputPath]
  }

  /** `os.path.splitext(input_path)[0] + ".pdf"`. */
  function PdfPath(inputPath: string): string {
    Splitext(inputPath).0 + ".pdf"
  }

  /** `convert_to_pdf(input_path)`, its guards taken in the source's order. */
  function ConvertToPdf(
    inputPath: string,
    filesBefore: set<string>,
    path: map<string, string>,
    end: ProcessEnd,
    detail: string,
    filesAfter: set<string>): Conversion
  {
    if inputPath !in filesBefore then
      Conversion(None, Failure(FileNotFound("File not found: " + inputPath)))
    else
      var soffice := FindConverter(path);
      if !Truthy(soffice) then
        Conversion(None, Failure(FileConversionError(NoToolMessage)))
      else
        var cmd := ConvertCommand(soffice.value, inputPath);
        match RunCmd(end, detail)
        case CommandError(e) =>
          Conversion(Some(cmd), Failure(FileConversionError(
            "Failure while running the conversion command " + Join(cmd, " ") + ": " + e)))
        case Completed =>
          var pdfPath := PdfPath(inputPath);
          if pdfPath !in filesAfter then
            Conversion(Some(cmd), Failure(FileConversionError(NoOutputMessage)))
          else
            Conversion(Some(cmd), Success(pdfPath))
  }

  /** A missing input is reported first: no lookup result or command outcome
      matters and nothing runs. */
  lemma MissingInputFirst(inputPath: string, filesBefore: set<string>, path: map<string, string>,
                          end: ProcessEnd, detail: string, filesAfter: set<string>)
    requires inputPath !in filesBefore
    ensures ConvertToPdf(inputPath, filesBefore, path, end, detail, filesAfter)
            == Conversion(None, Failure(FileNotFound("File not found: " + inputPath)))
  {
  }

  /** Without `soffice` or `libreoffice` on the PATH the conversion fails before
      running anything. */
  lemma NoConverterNoRun(inputPath: string, filesBefore: set<string>, path: map<string, string>,
                         end: ProcessEnd, detail: string, filesAfter: set<string>)
    requires inputPath in filesBefore
    requires "soffice" !in path && "libreoffice" !in path
    ensures ConvertToPdf(inputPath, filesBefore, path, end, detail, filesAfter)
            == Conversion(None, Failure(FileConversionError(NoToolMessage)))
  {
  }

  /** When anything runs, it is exactly the seven-word conversion command for the
      converter found, `soffice` preferred over `libreoffice`, writing into the
      input's directory. */
  lemma CommandShape(inputPath: string, filesBefore: set<string>, path: map<string, string>,
                     end: ProcessEnd, detail: string, filesAfter: set<string>)
    ensures var c := ConvertToPdf(inputPath, filesBefore, path, end, detail, filesAfter);
            c.ran.Some? <==> inputPath in filesBefore && Truthy(FindConverter(path))
    ensures var c := ConvertToPdf(inputPath, filesBefore, path, end, detail, filesAfter);
            c.ran.Some? ==>
              && |c.ran.value| == 7
              && c.ran.value[0] == (if Truthy(Which(path, "soffice")) then path["soffice"] else path["libreoffice"])
              && c.ran.value[1] == "--headless" && c.ran.value[2] == "--convert-to"
              && c.ran.value[3] == "pdf" && c.ran.value[4] == "--outdir"
              && c.ran.value[5] == Dirname(inputPath)
              && c.ran.value[6] == inputPath
  {
    ConvertRan(inputPath, filesBefore, path, end, detail, filesAfter);
  }

  /** The command `convert_to_pdf` runs, if any. */
  lemma ConvertRan(inputPath: string, filesBefore: set<string>, path: map<string, string>,
                   end: ProcessEnd, detail: string, filesAfter: set<string>)
    ensures ConvertToPdf(inputPath, filesBefore, path, end, detail, filesAfter).ran
            == if inputPath in filesBefore && Truthy(FindConverter(path))
               then Some(ConvertCommand(FindConverter(path).value, inputPath))
               else None
  {
  }

  /** A failed command is reported as a `FileConversionError`, never as success. */
  lemma CommandErrorIsConversionError(inputPath: string, filesBefore: set<string>, path: map<string, string>,
                                      end: ProcessEnd, detail: string, filesAfter: set<string>)
    requires inputPath in filesBefore && Truthy(FindConverter(path))
    requires end != Exited(0)
    ensures var c := ConvertToPdf(inputPath, filesBefore, path, end, detail, filesAfter);
            && c.result.Failure? && c.result.error.FileConversionError?
            && c.result.error.message
               == "Failure while running the conversion command " + Join(c.ran.value, " ") + ": " + detail
  {
  }

  /** A command that completes without leaving the derived PDF behind is a
      `FileConversionError`, not a missing file. */
  lemma MissingOutputIsConversionError(inputPath: string, filesBefore: set<string>, path: map<string, string>,
                                       detail: string, filesAfter: set<string>)
    requires inputPath in filesBefore && Truthy(FindConverter(path))
    requires PdfPath(inputPath) !in filesAfter
    ensures ConvertToPdf(inputPath, filesBefore, path, Exited(0), detail, filesAfter).result
            == Failure(FileConversionError(NoOutputMessage))
  {
  }

  /** The conversion succeeds exactly when the input is a file, a converter is
      found, the command exits with status 0 and the derived PDF then exists;
      the path it returns is that PDF, an existing file in the input's own
      directory. A failure is a `FileNotFoundError` exactly when the input is
      missing, and a `FileConversionError` otherwise. */
  lemma ConvertSucceedsIff(inputPath: string, filesBefore: set<string>, path: map<string, string>,
                           end: ProcessEnd, detail: string, filesAfter: set<string>)
    ensures var c := ConvertToPdf(inputPath, filesBefore, path, end, detail, filesAfter);
            c.result.Success? <==> && inputPath in filesBefore && Truthy(FindConverter(path))
                                   && end == Exited(0) && PdfPath(inputPath) in filesAfter
    ensures var c := ConvertToPdf(inputPath, filesBefore, path, end, detail, filesAfter);
            c.result.Failure? ==> (c.result.error.FileNotFound? <==> inputPath !in filesBefore)
    ensures var c := ConvertToPdf(inputPath, filesBefore, path, end, detail, filesAfter);
            c.result.Success? ==> && c.result.value == PdfPath(inputPath)
                                  && c.result.value in filesAfter
                                  && Dirname(c.result.value) == Dirname(inputPath)
  {
    ReplaceExtensionKeepsDirname(inputPath, ".pdf");
  }

  /** The output path is the input with its last extension, as `splitext` finds
      it, replaced by ".pdf"; when the input's last component has a real
      extension, `splitext` of the output gives the same root and ".pdf". */
  lemma PdfPathReplacesExtension(inputPath: string)
    ensures PdfPath(inputPath) == Splitext(inputPath).0 + ".pdf"
    ensures Splitext(inputPath).1 != [] ==> Splitext(PdfPath(inputPath)) == (Splitext(inputPath).0, ".pdf")
  {
    var root := Splitext(inputPath).0;
    var q := root + ".pdf";
    if Splitext(inputPath).1 != [] {
      SplitextParts(inputPath);
      var j := RFind(inputPath, '/');
      var dot := RFind(inputPath, '.');
      assert root == inputPath[..dot];
      assert forall k :: j < k < |q| ==> q[k] != '/' by {
        forall k | j < k < |q|
          ensures q[k] != '/'
        {
          if k < |root| {
            assert q[k] == inputPath[k];
          }
        }
      }
      RFindIs(q, '/', j);
      RFindIs(q, '.', |root|);
      var w :| j + 1 <= w < dot && inputPath[w] != '.';
      assert q[w] == inputPath[w];
      assert q[..|root|] == root;
    }
  }
}
