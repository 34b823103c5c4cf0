/**
 * Producing one plaque document: the client's `generateDocxUsingTemplate` (app.js) and the
 * server's `generateDocxBuffer` with the `/api/generate/docx` and `/api/generate/pdf` routes
 * (api/server.js). The archive reader, the template engine and both PDF converters are
 * foreign code and are parameters; what is modelled is which template is used, which
 * options it is rendered with, which of their failures reach the caller and with which
 * message, the order in which the converters are tried, and every reply.
 */
module Generate {
  import opened Wrappers
  import opened Requests
  import opened Templates
  import Export

  type Bytes = Export.Bytes

  /** A template archive and the text of its `word/document.xml` part, when it has one. */
  datatype Template = Template(archive: Bytes, documentXml: Option<string>)

  /** The part's text; a missing part reads as the empty text (the `catch {}` around `asText`). */
  function DocumentXml(t: Template): string {
    match t.documentXml
    case None => ""
    case Some(x) => x
  }

  /** `setData` with `ITEM`/`VALOR`, `render` and `generate` on a constructed template: the document, or the message thrown. */
  type Renderer = (Template, Options, string, string) -> Result<Bytes, string>

  /**
   * The template library, foreign code: `unzip` is `new PizZip(bytes)` (the archive, or the
   * message it throws on bytes that are not a ZIP), `compile` is `new Docxtemplater(zip, opts)`
   * (the message it throws, or None when it constructs), and `render` renders the result.
   */
  datatype DocxLibrary = DocxLibrary(unzip: Bytes -> Result<Template, string>,
                                     compile: (Template, Options) -> Option<string>,
                                     render: Renderer)

  // ------------------------------------------------------------------ the client

  const TemplateNotFound := "template docx não encontrado"
  const NoPlaceholders := "template sem placeholders"
  const PlaceholdersMissing := "placeholders ausentes: use {{ITEM}} e {{VALOR}} no .docx"

  /**
   * `generateDocxUsingTemplate`. `fetch` stands for `fetchArrayBuffer` (None where it
   * answers null; the static server answers a missing `.docx` with `index.html`, which
   * arrives as bytes that `unzip` refuses). The archive reader's and the constructor's
   * messages propagate as thrown; a render failure is reported with a fixed message.
   */
  function ClientGenerateDocx(model: string, item: string, valor: string,
                              fetch: string -> Option<Bytes>, lib: DocxLibrary): (r: Result<Bytes, string>)
    ensures fetch(ClientTemplatePath(model)).None? ==> r == Failure(TemplateNotFound)
    ensures r.Success? ==> fetch(ClientTemplatePath(model)).Some? && lib.unzip(fetch(ClientTemplatePath(model)).value).Success?
  {
    match fetch(ClientTemplatePath(model))
    case None => Failure(TemplateNotFound)
    case Some(ab) =>
      match lib.unzip(ab)
      case Failure(message) => Failure(message)
      case Success(t) =>
        match ClientTemplateOptions(DocumentXml(t))
        case Failure(message) => Failure(message)
        case Success(opts) =>
          match lib.compile(t, opts)
          case Some(message) => Failure(message)
          case None =>
            match lib.render(t, opts, item, valor)
            case Failure(_) => Failure(PlaceholdersMissing)
            case Success(doc) => Success(doc)
  }

  /**
   * Every outcome of the client: a missing template, the archive reader's message, no
   * placeholder, the constructor's message, the fixed render message, or the document
   * rendered with the options the server's `detectDelimiters` chooses for the same text.
   */
  lemma ClientGenerateOutcomes(model: string, item: string, valor: string, fetch: string -> Option<Bytes>, lib: DocxLibrary)
    ensures var r := ClientGenerateDocx(model, item, valor, fetch, lib);
      var a := fetch(ClientTemplatePath(model));
      (a.None? ==> r == Failure(TemplateNotFound))
      && (a.Some? && lib.unzip(a.value).Failure? ==> r == Failure(lib.unzip(a.value).error))
      && (a.Some? && lib.unzip(a.value).Success? ==>
            var t := lib.unzip(a.value).value;
            var o := DetectDelimiters(DocumentXml(t));
            ((forall style :: !HasStyle(DocumentXml(t), style)) ==> r == Failure(NoPlaceholders))
            && ((exists style :: HasStyle(DocumentXml(t), style)) ==>
                  (lib.compile(t, o).Some? ==> r == Failure(lib.compile(t, o).value))
                  && (lib.compile(t, o).None? && lib.render(t, o, item, valor).Failure? ==> r == Failure(PlaceholdersMissing))
                  && (lib.compile(t, o).None? && lib.render(t, o, item, valor).Success? ==> r == lib.render(t, o, item, valor))))
  {
    var a := fetch(ClientTemplatePath(model));
    if a.Some? && lib.unzip(a.value).Success? {
      ClientAgreesWithServer(DocumentXml(lib.unzip(a.value).value));
    }
  }

  // ------------------------------------------------------------------ the server

  /** Constructing the template engine over the archive with the options, then rendering: the document, or the first message thrown. */
  function CompileAndRender(lib: DocxLibrary, t: Template, opts: Options, item: string, valor: string): (r: Result<Bytes, string>)
    ensures lib.compile(t, opts).Some? ==> r == Failure(lib.compile(t, opts).value)
    ensures lib.compile(t, opts).None? ==> r == lib.render(t, opts, item, valor)
  {
    match lib.compile(t, opts)
    case Some(message) => Failure(message)
    case None => lib.render(t, opts, item, valor)
  }

  /**
   * `generateDocxBuffer`. `files` stands for the file system (None where the path does
   * not exist); every failure of the library propagates with its own message, and the
   * options are always the ones `detectDelimiters` chooses.
   */
  function GenerateDocxBuffer(root: string, model: string, item: string, valor: string,
                              files: string -> Option<Bytes>, lib: DocxLibrary): (r: Result<Bytes, string>)
    ensures files(TemplatePathForModel(root, model)).None? ==> r == Failure("Template DOCX não encontrado")
    ensures files(TemplatePathForModel(root, model)).Some? && lib.unzip(files(TemplatePathForModel(root, model)).value).Failure? ==>
      r == Failure(lib.unzip(files(TemplatePathForModel(root, model)).value).error)
    ensures files(TemplatePathForModel(root, model)).Some? && lib.unzip(files(TemplatePathForModel(root, model)).value).Success? ==>
      var t := lib.unzip(files(TemplatePathForModel(root, model)).value).value;
      r == CompileAndRender(lib, t, DetectDelimiters(DocumentXml(t)), item, valor)
  {
    var p := TemplatePathForModel(root, model);
    match files(p)
    case None => Failure("Template DOCX não encontrado")
    case Some(content) =>
      match lib.unzip(content)
      case Failure(message) => Failure(message)
      case Success(t) => CompileAndRender(lib, t, DetectDelimiters(DocumentXml(t)), item, valor)
  }

  /**
   * Unlike the client, the server renders a template that holds no placeholder at all, with
   * the base options (bare single braces), instead of refusing it.
   */
  lemma ServerRendersWithoutPlaceholders(root: string, model: string, item: string, valor: string,
                                         files: string -> Option<Bytes>, lib: DocxLibrary, t: Template)
    requires files(TemplatePathForModel(root, model)).Some?
    requires lib.unzip(files(TemplatePathForModel(root, model)).value) == Success(t)
    requires forall style :: !HasStyle(DocumentXml(t), style)
    ensures GenerateDocxBuffer(root, model, item, valor, files, lib) == CompileAndRender(lib, t, BaseOptions, item, valor)
    ensures ClientTemplateOptions(DocumentXml(t)).Failure?
  {
  }

  /**
   * Where the client fetches the bytes the server reads, a document the client produces
   * is exactly the one the server produces.
   */
  lemma ClientDocumentIsServerDocument(root: string, model: string, item: string, valor: string,
                                       fetch: string -> Option<Bytes>, files: string -> Option<Bytes>, lib: DocxLibrary)
    requires fetch(ClientTemplatePath(model)) == files(TemplatePathForModel(root, model))
    requires ClientGenerateDocx(model, item, valor, fetch, lib).Success?
    ensures GenerateDocxBuffer(root, model, item, valor, files, lib) == ClientGenerateDocx(model, item, valor, fetch, lib)
  {
    ClientGenerateOutcomes(model, item, valor, fetch, lib);
  }

  /** The fields of a generate request. */
  datatype GenerateBody = GenerateBody(model: Field, item: Field, valor: Field)

  predicate Complete(b: GenerateBody) { Truthy(b.model) && Truthy(b.item) && Truthy(b.valor) }

  /** A file sent as an attachment, or an error status with its `error` text. */
  datatype FileReply = Attachment(contentType: string, fileName: string, data: Bytes) | Fail(status: nat, message: string)

  const DocxType := "application/vnd.openxmlformats-officedocument.wordprocessingml.document"
  const PdfType := "application/pdf"
  const InvalidParameters := "Parâmetros inválidos"

  /** `e.message || fallback`. */
  function MessageOr(message: string, fallback: string): string {
    if message == "" then fallback else message
  }

  /** The name in `Content-Disposition`. */
  function AttachmentName(b: GenerateBody, ext: string): string
    requires Complete(b)
  {
    b.model.s + "-item-" + b.item.s + ext
  }

  /** `POST /api/generate/docx`. */
  function DocxRoute(b: GenerateBody, root: string, files: string -> Option<Bytes>, lib: DocxLibrary): (r: FileReply)
    ensures !Complete(b) ==> r == Fail(400, InvalidParameters)
    ensures r.Attachment? ==> r.contentType == DocxType
  {
    if !Complete(b) then Fail(400, InvalidParameters)
    else
      match GenerateDocxBuffer(root, b.model.s, b.item.s, b.valor.s, files, lib)
      case Failure(message) => Fail(500, MessageOr(message, "Falha ao gerar DOCX"))
      case Success(doc) => Attachment(DocxType, AttachmentName(b, ".docx"), doc)
  }

  /** The server names an attachment exactly as the client's batch export names that card's archive entry. */
  lemma AttachmentNameMatchesEntry(b: GenerateBody, kind: Export.Kind)
    requires Complete(b)
    ensures AttachmentName(b, Export.Extension(kind)) == Export.EntryName(Export.Card(b.item.s, b.model.s, b.valor.s), kind)
  {
  }

  /**
   * A complete request gets the rendered document under the name the client's batch
   * export stores it under; otherwise a 500 carries the thrown message, or a default one.
   */
  lemma DocxRouteOutcomes(b: GenerateBody, root: string, files: string -> Option<Bytes>, lib: DocxLibrary)
    requires Complete(b)
    ensures var r := DocxRoute(b, root, files, lib);
      var g := GenerateDocxBuffer(root, b.model.s, b.item.s, b.valor.s, files, lib);
      (r.Attachment? <==> g.Success?)
      && (r.Attachment? ==>
            r.data == g.value && r.fileName == Export.EntryName(Export.Card(b.item.s, b.model.s, b.valor.s), Export.Docx))
      && (g.Failure? ==> r.status == 500 && (r.message == g.error || (g.error == "" && r.message == "Falha ao gerar DOCX")))
  {
    AttachmentNameMatchesEntry(b, Export.Docx);
  }

  /** The hint returned when the local conversion fails, depending on whether Gotenberg is configured. */
  function PdfHint(gotenbergConfigured: bool): string {
    if gotenbergConfigured then "Falha via Gotenberg e sem LibreOffice. Verifique GOTENBERG_URL e o /health do serviço Gotenberg."
    else "Falha ao converter para PDF. Configure GOTENBERG_URL ou instale o LibreOffice."
  }

  /** The local LibreOffice conversion, the fallback. */
  function LocalConversion(b: GenerateBody, doc: Bytes, gotenbergUrl: string, libre: Bytes -> Option<Bytes>): FileReply
    requires Complete(b)
  {
    match libre(doc)
    case None => Fail(500, PdfHint(gotenbergUrl != ""))
    case Some(pdf) => Attachment(PdfType, AttachmentName(b, ".pdf"), pdf)
  }

  /**
   * `POST /api/generate/pdf`. `gotenbergUrl` is `GOTENBERG_URL` ('' when unset),
   * `gotenberg` the remote conversion (or the error it throws) and `libre` the local one.
   */
  function PdfRoute(b: GenerateBody, root: string, files: string -> Option<Bytes>, lib: DocxLibrary,
                    gotenbergUrl: string, gotenberg: Bytes -> Result<Bytes, string>, libre: Bytes -> Option<Bytes>): (r: FileReply)
    ensures !Complete(b) ==> r == Fail(400, InvalidParameters)
    ensures r.Attachment? ==> r.contentType == PdfType
  {
    if !Complete(b) then Fail(400, InvalidParameters)
    else
      match GenerateDocxBuffer(root, b.model.s, b.item.s, b.valor.s, files, lib)
      case Failure(message) => Fail(500, MessageOr(message, "Falha ao gerar PDF"))
      case Success(doc) =>
        if gotenbergUrl != "" && gotenberg(doc).Success? then Attachment(PdfType, AttachmentName(b, ".pdf"), gotenberg(doc).value)
        else LocalConversion(b, doc, gotenbergUrl, libre)
  }

  /**
   * The PDF comes from Gotenberg when it is configured and succeeds; otherwise from the
   * local conversion; when that fails too, the hint says whether Gotenberg was configured.
   */
  lemma PdfFallbackOrder(b: GenerateBody, root: string, files: string -> Option<Bytes>, lib: DocxLibrary,
                         gotenbergUrl: string, gotenberg: Bytes -> Result<Bytes, string>, libre: Bytes -> Option<Bytes>)
    requires Complete(b) && GenerateDocxBuffer(root, b.model.s, b.item.s, b.valor.s, files, lib).Success?
    ensures var doc := GenerateDocxBuffer(root, b.model.s, b.item.s, b.valor.s, files, lib).value;
      var r := PdfRoute(b, root, files, lib, gotenbergUrl, gotenberg, libre);
      (gotenbergUrl != "" && gotenberg(doc).Success? ==> r.Attachment? && r.data == gotenberg(doc).value)
      && (gotenbergUrl == "" || gotenberg(doc).Failure? ==> r == LocalConversion(b, doc, gotenbergUrl, libre))
  {
  }

  /** The local conversion sends its PDF, or a 500 whose hint says whether Gotenberg was configured. */
  lemma LocalConversionOutcomes(b: GenerateBody, doc: Bytes, gotenbergUrl: string, libre: Bytes -> Option<Bytes>)
    requires Complete(b)
    ensures var r := LocalConversion(b, doc, gotenbergUrl, libre);
      (libre(doc).Some? ==> r.Attachment? && r.data == libre(doc).value && r.contentType == PdfType)
      && (libre(doc).None? ==> r == Fail(500, PdfHint(gotenbergUrl != "")))
  {
  }

  /** Whichever converter produced it, the PDF is named as the client's batch export names that card's entry. */
  lemma PdfFileName(b: GenerateBody, root: string, files: string -> Option<Bytes>, lib: DocxLibrary,
                    gotenbergUrl: string, gotenberg: Bytes -> Result<Bytes, string>, libre: Bytes -> Option<Bytes>)
    requires PdfRoute(b, root, files, lib, gotenbergUrl, gotenberg, libre).Attachment?
    ensures Complete(b)
    ensures PdfRoute(b, root, files, lib, gotenbergUrl, gotenberg, libre).fileName
         == Export.EntryName(Export.Card(b.item.s, b.model.s, b.valor.s), Export.Pdf)
  {
    AttachmentNameMatchesEntry(b, Export.Pdf);
  }

  /** Without `GOTENBERG_URL` the remote converter is never consulted. */
  lemma GotenbergUnusedWhenUnset(b: GenerateBody, root: string, files: string -> Option<Bytes>, lib: DocxLibrary,
                                 g1: Bytes -> Result<Bytes, string>, g2: Bytes -> Result<Bytes, string>, libre: Bytes -> Option<Bytes>)
    ensures PdfRoute(b, root, files, lib, "", g1, libre) == PdfRoute(b, root, files, lib, "", g2, libre)
  {
  }

  /** A failed render reaches the PDF client as a 500 with the renderer's message, before any conversion. */
  lemma PdfRenderFailure(b: GenerateBody, root: string, files: string -> Option<Bytes>, lib: DocxLibrary,
                         gotenbergUrl: string, gotenberg: Bytes -> Result<Bytes, string>, libre: Bytes -> Option<Bytes>)
    requires Complete(b) && GenerateDocxBuffer(root, b.model.s, b.item.s, b.valor.s, files, lib).Failure?
    ensures var m := GenerateDocxBuffer(root, b.model.s, b.item.s, b.valor.s, files, lib).error;
      PdfRoute(b, root, files, lib, gotenbergUrl, gotenberg, libre) == Fail(500, MessageOr(m, "Falha ao gerar PDF"))
    ensures files(TemplatePathForModel(root, b.model.s)).None? ==>
      PdfRoute(b, root, files, lib, gotenbergUrl, gotenberg, libre) == Fail(500, "Template DOCX não encontrado")
  {
  }
}
