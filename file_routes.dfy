/**
 * The three file routes: text extraction from an upload
 * (src/app/api/quotes/upload/route.ts) and from a stored document
 * (src/app/api/files/process/route.ts), both choosing the parser by the file
 * name's extension, and serving a stored document inline
 * (src/app/api/files/view/route.ts) with a content type chosen by its
 * extension.
 */
module FileRoutes {

  import opened Wrappers
  import opened Text
  import opened Js
  import opened Http
  import ExcelText

  type Bytes = seq<bv8>

  /** The parsers: PDF text extraction, and workbook decoding, whose outcome `ExcelText` renders. */
  datatype Parsers = Parsers(
    pdf: Bytes -> Result<string, Thrown>,
    decodeWorkbook: Bytes -> Option<seq<ExcelText.DecodedSheet>>)

  datatype FileKind = Pdf | Excel

  const Unsupported: string := "Filtypen stöds inte. Ladda upp PDF eller Excel."
  const ProcessFailed: string := "Kunde inte bearbeta filen. Kontrollera att filen är giltig."

  /** The dispatch on the lower-cased name: '.pdf', then '.xlsx' or '.xls'; anything else is unsupported. */
  function KindOf(name: string): (k: Option<FileKind>)
    ensures k == Some(Pdf) <==> EndsWith(ToLower(name), ".pdf")
    ensures k == Some(Excel) <==> !EndsWith(ToLower(name), ".pdf") && (EndsWith(ToLower(name), ".xlsx") || EndsWith(ToLower(name), ".xls"))
    ensures k.None? <==> !EndsWith(ToLower(name), ".pdf") && !EndsWith(ToLower(name), ".xlsx") && !EndsWith(ToLower(name), ".xls")
  {
    var lower := ToLower(name);
    if EndsWith(lower, ".pdf") then Some(Pdf)
    else if EndsWith(lower, ".xlsx") || EndsWith(lower, ".xls") then Some(Excel)
    else None
  }

  /** The dispatch ignores case: a name and its lower-cased form are parsed alike. */
  lemma KindIgnoresCase(name: string)
    ensures KindOf(name) == KindOf(ToLower(name))
  {
    LowerIdempotent(name);
  }

  /** A name ending in an upper-case '.XLS' is read as a workbook, and '.PDF' as a PDF. */
  lemma UpperCaseExtensions(stem: string)
    ensures KindOf(stem + ".XLS") == Some(Excel)
    ensures KindOf(stem + ".PDF") == Some(Pdf)
  {
    var x := ToLower(stem + ".XLS");
    assert x[|x| - 4..] == ".xls";
    var p := ToLower(stem + ".PDF");
    assert p[|p| - 4..] == ".pdf";
  }

  /** The text a workbook gives: `parseExcel(buffer).text`, which throws when decoding fails. */
  function WorkbookText(parsers: Parsers, content: Bytes): (r: Result<string, Thrown>)
    ensures parsers.decodeWorkbook(content).None? ==> r == Failure(ErrorInstance(ExcelText.ReadFailureMessage))
    ensures parsers.decodeWorkbook(content).Some? ==> r == Success(Trim(ExcelText.SheetsText(parsers.decodeWorkbook(content).value)))
  {
    match parsers.decodeWorkbook(content)
    case None => Failure(ErrorInstance(ExcelText.ReadFailureMessage))
    case Some(sheets) => Success(Trim(ExcelText.SheetsText(sheets)))
  }

  /** The text of a supported file, or the parser's exception. */
  function Extract(parsers: Parsers, kind: FileKind, content: Bytes): Result<string, Thrown> {
    match kind
    case Pdf => parsers.pdf(content)
    case Excel => WorkbookText(parsers, content)
  }

  /** The uploaded form field `file`. */
  datatype Upload = Upload(name: string, size: nat, content: Bytes)

  datatype Extracted = Extracted(fileName: string, fileSize: nat, extractedText: string)

  /**
   * quotes/upload POST: 500 when the form cannot be read; 400 without a
   * file or for an unsupported name; 500 when the parser throws; otherwise
   * the original name, the size and the text. `form` is the form's `file`
   * entry, `Failure` when `formData()` throws.
   */
  function UploadPost(form: Result<Option<Upload>, Thrown>, parsers: Parsers): (resp: Response<Extracted>)
    ensures form.Failure? ==> resp == Error(500, ProcessFailed)
    ensures form == Success(None) ==> resp == Error(400, "Ingen fil uppladdad")
    ensures form.Success? && form.value.Some? ==>
      var file := form.value.value;
      (KindOf(file.name).None? ==> resp == Error(400, Unsupported))
      && (KindOf(file.name).Some? ==>
            var text := Extract(parsers, KindOf(file.name).value, file.content);
            (text.Failure? ==> resp == Error(500, ProcessFailed))
            && (text.Success? ==> resp == Ok(Extracted(file.name, file.size, text.value))))
  {
    match form
    case Failure(_) => Error(500, ProcessFailed)
    case Success(None) => Error(400, "Ingen fil uppladdad")
    case Success(Some(file)) =>
      match KindOf(file.name)
      case None => Error(400, Unsupported)
      case Some(kind) =>
        match Extract(parsers, kind, file.content)
        case Failure(_) => Error(500, ProcessFailed)
        case Success(text) => Ok(Extracted(file.name, file.size, text))
  }

  /** The success body of files/process: the request's name and path, and the text. */
  datatype Processed = Processed(fileName: Value, filePath: Value, extractedText: string)

  /**
   * files/process POST: 401 without the `session_id` cookie; 500 for an
   * unreadable body; 400 unless both `filePath` and `fileName` are given;
   * 500 when the download fails, before the name is looked at; 400 for an
   * unsupported name; 500 when the parser throws. `download` is the storage
   * download of the given path.
   */
  function ProcessPost(hasSession: bool, body: Option<Value>, download: Value -> Result<Bytes, Thrown>, parsers: Parsers)
    : (resp: Response<Processed>)
    ensures !hasSession ==> resp == Error(401, "Ej inloggad")
    ensures hasSession && (body.None? || IsNullish(body.value)) ==> resp == Error(500, ProcessFailed)
    ensures hasSession && body.Some? && !IsNullish(body.value) ==>
      var path := Get(body.value, "filePath");
      var name := Get(body.value, "fileName");
      (!Truthy(path) || !Truthy(name) ==> resp == Error(400, "Filsökväg och filnamn krävs"))
      && (Truthy(path) && Truthy(name) && download(path).Failure? ==> resp == Error(500, "Kunde inte hämta filen från lagring"))
      && (Truthy(path) && Truthy(name) && download(path).Success? ==>
            (!name.Str? ==> resp == Error(500, ProcessFailed))
            && (name.Str? && KindOf(name.s).None? ==> resp == Error(400, Unsupported))
            && (name.Str? && KindOf(name.s).Some? ==>
                  var text := Extract(parsers, KindOf(name.s).value, download(path).value);
                  (text.Failure? ==> resp == Error(500, ProcessFailed))
                  && (text.Success? ==> resp == Ok(Processed(name, path, text.value)))))
  {
    if !hasSession then Error(401, "Ej inloggad")
    else if body.None? || IsNullish(body.value) then Error(500, ProcessFailed)
    else
      var path := Get(body.value, "filePath");
      var name := Get(body.value, "fileName");
      if !Truthy(path) || !Truthy(name) then Error(400, "Filsökväg och filnamn krävs")
      else
        match download(path)
        case Failure(_) => Error(500, "Kunde inte hämta filen från lagring")
        case Success(content) =>
          if !name.Str? then Error(500, ProcessFailed)
          else
            match KindOf(name.s)
            case None => Error(400, Unsupported)
            case Some(kind) =>
              match Extract(parsers, kind, content)
              case Failure(_) => Error(500, ProcessFailed)
              case Success(text) => Ok(Processed(name, path, text))
  }

  /** Both extraction routes read the same name the same way and agree on the text. */
  lemma RoutesAgree(file: Upload, path: Value, parsers: Parsers, download: Value -> Result<Bytes, Thrown>)
    requires Truthy(path) && file.name != "" && download(path) == Success(file.content)
    ensures var up := UploadPost(Success(Some(file)), parsers);
      var pr := ProcessPost(true, Some(Obj(map["filePath" := path, "fileName" := Str(file.name)])), download, parsers);
      (up.Ok? <==> pr.Ok?) && (up.Ok? ==> up.body.extractedText == pr.body.extractedText)
  {
  }

  const OctetStream: string := "application/octet-stream"

  /** `filePath.split('.').pop()?.toLowerCase()`: the lower-cased text after the last dot, all of the path without one. */
  function Extension(path: string): string {
    ToLower(AfterLast(path, '.'))
  }

  /** The Content-Type for a stored document. */
  function ContentType(path: string): (t: string)
    ensures Extension(path) == "pdf" <==> t == "application/pdf"
    ensures Extension(path) == "xlsx" <==> t == "application/vnd.openxmlformats-officedocument.spreadsheetml.sheet"
    ensures Extension(path) == "xls" <==> t == "application/vnd.ms-excel"
    ensures Extension(path) !in {"pdf", "xlsx", "xls"} <==> t == OctetStream
  {
    var ext := Extension(path);
    if ext == "pdf" then "application/pdf"
    else if ext == "xlsx" then "application/vnd.openxmlformats-officedocument.spreadsheetml.sheet"
    else if ext == "xls" then "application/vnd.ms-excel"
    else OctetStream
  }

  /** Without a dot the whole path is the extension, so a path that is just "pdf" is served as a PDF. */
  lemma DotlessPath()
    ensures ContentType("pdf") == "application/pdf"
    ensures ContentType("docs/report") == OctetStream
  {
    assert LastIndexOf("pdf", '.') == None;
    assert LastIndexOf("docs/report", '.') == None;
    assert ToLower("docs/report") == "docs/report";
  }

  /** The served name: the text after the last '/', with no '/' left in it. */
  function DownloadName(path: string): (n: string)
    ensures forall j :: 0 <= j < |n| ==> n[j] != '/'
    ensures EndsWith(path, n)
    ensures |n| < |path| ==> path[|path| - |n| - 1] == '/'
  {
    AfterLast(path, '/')
  }

  datatype Served = Served(contentType: string, disposition: string, content: Bytes)

  /**
   * files/view GET: 401 without the cookie; 400 without `path`; 404 when
   * the download fails; otherwise the stored bytes, unchanged, shown inline.
   */
  function ViewGet(authed: bool, path: Option<string>, download: string -> Result<Bytes, Thrown>): (resp: Response<Served>)
    ensures !authed ==> resp == Error(401, "Ej inloggad")
    ensures authed && (path.None? || path.value == "") ==> resp == Error(400, "Filväg krävs")
    ensures authed && path.Some? && path.value != "" && download(path.value).Failure? ==> resp == Error(404, "Kunde inte hämta filen")
    ensures authed && path.Some? && path.value != "" && download(path.value).Success? ==>
      resp.Ok? && resp.body.content == download(path.value).value
      && resp.body.contentType == ContentType(path.value)
      && resp.body.disposition == "inline; filename=\"" + DownloadName(path.value) + "\""
  {
    if !authed then Error(401, "Ej inloggad")
    else if path.None? || path.value == "" then Error(400, "Filväg krävs")
    else
      match download(path.value)
      case Failure(_) => Error(404, "Kunde inte hämta filen")
      case Success(content) =>
        Ok(Served(ContentType(path.value), "inline; filename=\"" + DownloadName(path.value) + "\"", content))
  }
}
