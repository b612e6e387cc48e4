# pdfserver: a Dafny model of the HTML/PDF message converters

pdfserver renders a typed "PDF output" object through Thymeleaf templates and
hands the result either to the HTTP response as HTML or to Flying Saucer's
`ITextRenderer` to produce a PDF. This project models the sequential logic
under that glue and proves its properties:

- **context building and template resolution** (`ThymeleafMessageConverter.process`):
  the context binds `"record"` to the output, then the output's
  `PdfContextConfigurer.init` hook edits it; the template caches are cleared
  when the engine is initialised and `alwaysReload` is set; the template
  path is `pathPrefix + templateName`;
- **the fragment merger** (`processList`, `mergeHtml`): the first parsed
  fragment becomes the document, and each later fragment's first `body`
  children are appended, in order, to the document's first `body`, in place;
- **the two converters' dispatch** (`PdfResponseConverter`,
  `HtmlMessageConverter`): merged versus single outputs, the PDF content
  formatter (applied by the overridden `process`, hence to every merged
  fragment too), response headers, the `Content-Disposition` value, the
  renderer's fixed call order and its swallowed `DocumentException`;
- **the merged output** (`BasicMergedPdfOutput`): a name and an ordered list
  of parts, and no template name.

Foreign libraries are abstract: the template engine is a render function
`(path, context) -> Option<string>`, the HTML parser a function
`string -> Option<Node>`, the JAXP transformer a function
`Option<Node> -> Option<string>`, and the PDF renderer an object that records
its calls and throws on the calls a given predicate picks. A DOM is a value
tree (`Dom.Node`); XPath `//body` evaluated as a NODE is `Dom.FindBody`, the
first `body` element in document order.

Files: `wrappers.dfy` (Option/Result/Outcome, errors), `outputs.dfy`
(outputs and configurer hooks), `dom.dfy` (the DOM and the in-place
document), `http.dfy` (the response), `thymeleaf.dfy` (the base converter),
`merge_properties.dfy` and `context_properties.dfy` (its lemmas), `pdf.dfy`,
`html.dfy`.

In the table, paths of `impl/` files are under
`src/main/java/io/github/gzsombor/pdfserver/impl/`, and `api/` under
`src/main/java/io/github/gzsombor/pdfserver/api/`.

## Model

| member | source | states |
|---|---|---|
| Outputs.BasicMergedPdfOutput | src/main/java/io/github/gzsombor/pdfserver/api/BasicMergedPdfOutput.java:11-14 | the constructor yields a merged output |
| Outputs.TemplateName | src/main/java/io/github/gzsombor/pdfserver/api/BasicMergedPdfOutput.java:17-19 | getTemplateName fails exactly for a merged output, with the missing-template error; a single output returns its template name |
| Outputs.MergedOutputAccessors | src/main/java/io/github/gzsombor/pdfserver/api/BasicMergedPdfOutput.java:11-29 | getOutputName is exactly the constructor's name, whatever the parts are called; getIndividualPdfs is the constructor's list, same order and size; getTemplateName always fails |
| Outputs.ConfigureSplit | src/main/java/io/github/gzsombor/pdfserver/impl/ThymeleafMessageConverter.java:100-102 | the hook's edits apply in order: editing with a then b is editing with a, then with b |
| Outputs.ConfigureKeepsUntouched | src/main/java/io/github/gzsombor/pdfserver/impl/ThymeleafMessageConverter.java:100-102 | hook edits that never name a variable leave its binding as it was |
| Outputs.LastWriteWins | src/main/java/io/github/gzsombor/pdfserver/impl/ThymeleafMessageConverter.java:100-102 | the last hook write to a variable decides its binding |
| Dom.FindBodySelectsABody | src/main/java/io/github/gzsombor/pdfserver/impl/ThymeleafMessageConverter.java:146-153 | the `//body` lookup returns the children of a body element of the tree, and finds one whenever the tree has a body element anywhere; null only for a tree without one |
| Dom.FirstBodyOfIsEarliest | src/main/java/io/github/gzsombor/pdfserver/impl/ThymeleafMessageConverter.java:122 | the scan over a node list finds a body exactly when the list holds a body element, and then returns the children of the earliest one: no body element comes before it |
| Dom.FindBodyIsFirstInDocumentOrder | src/main/java/io/github/gzsombor/pdfserver/impl/ThymeleafMessageConverter.java:146-150 | `//body` evaluated as a single NODE: the lookup equals that scan over the tree's nodes in document order, so it yields the first body element in document order, and nothing when there is none |
| ContextProperties.RecordBound | src/main/java/io/github/gzsombor/pdfserver/impl/ThymeleafMessageConverter.java:98-102 | unless the configurer writes "record", the context binds "record" to the rendered output |
| ContextProperties.ConfigurerOverridesRecord | src/main/java/io/github/gzsombor/pdfserver/impl/ThymeleafMessageConverter.java:98-102 | the hook runs after the binding, so its last write to "record" wins |
| ContextProperties.TemplateResolvedUnderPrefix | src/main/java/io/github/gzsombor/pdfserver/impl/ThymeleafMessageConverter.java:48 | the engine renders the template at pathPrefix + templateName, last of the calls process makes; with the default empty prefix that is the template name |
| ContextProperties.ClearedBeforeRender | src/main/java/io/github/gzsombor/pdfserver/impl/ThymeleafMessageConverter.java:104-108 | one process call clears the caches once exactly when the engine is initialised and alwaysReload is set, and before rendering |
| ContextProperties.ClearedOncePerPart | src/main/java/io/github/gzsombor/pdfserver/impl/ThymeleafMessageConverter.java:104-106 | processing a list never clears without alwaysReload (the default); with it, it clears once per part on an initialised engine, and once per part but the first when the first part is what initialises the engine |
| Dom.FindBodyAfterExtend | src/main/java/io/github/gzsombor/pdfserver/impl/ThymeleafMessageConverter.java:146-158 | appending to the first body keeps that body first in document order and grows its children by exactly the appended nodes; a tree without a body is untouched |
| Dom.ExtendByNothing | src/main/java/io/github/gzsombor/pdfserver/impl/ThymeleafMessageConverter.java:155 | appending no children changes nothing (a fragment with an empty body) |
| Dom.ExtendTwice | src/main/java/io/github/gzsombor/pdfserver/impl/ThymeleafMessageConverter.java:155-159 | appending a then b to the body equals appending a + b, in that order |
| Dom.Document.AppendToBody | src/main/java/io/github/gzsombor/pdfserver/impl/ThymeleafMessageConverter.java:158 | appendChild: the node becomes the last child of the document's body, existing children unchanged |
| Thymeleaf.TemplateEngine.IsInitialized | src/main/java/io/github/gzsombor/pdfserver/impl/ThymeleafMessageConverter.java:104 | reports the engine's current initialised state |
| Thymeleaf.TemplateEngine.ClearAllCaches | src/main/java/io/github/gzsombor/pdfserver/impl/ThymeleafMessageConverter.java:105 | a cache clear is recorded in the engine's call log; the initialised state is unchanged |
| Thymeleaf.TemplateEngine.Process | src/main/java/io/github/gzsombor/pdfserver/impl/ThymeleafMessageConverter.java:108 | the engine renders the path with the context, records the call, and is initialised from then on |
| Thymeleaf.ThymeleafMessageConverter.constructor | src/main/java/io/github/gzsombor/pdfserver/impl/ThymeleafMessageConverter.java:43-61 | alwaysReload starts false and pathPrefix starts empty |
| Thymeleaf.ThymeleafMessageConverter.SetAlwaysReload | src/main/java/io/github/gzsombor/pdfserver/impl/ThymeleafMessageConverter.java:63-65 | sets alwaysReload, nothing else |
| Thymeleaf.ThymeleafMessageConverter.SetPathPrefix | src/main/java/io/github/gzsombor/pdfserver/impl/ThymeleafMessageConverter.java:79-81 | sets pathPrefix, nothing else |
| Thymeleaf.ThymeleafMessageConverter.Process | src/main/java/io/github/gzsombor/pdfserver/impl/ThymeleafMessageConverter.java:97-109 | the result is the engine's render of pathPrefix + templateName under the built context (a merged output fails after the cache clear); the engine saw a clear iff it was already initialised and alwaysReload is set, then that render, and is initialised afterwards iff it was or the output is single |
| Thymeleaf.ThymeleafMessageConverter.ParseHtml | src/main/java/io/github/gzsombor/pdfserver/impl/ThymeleafMessageConverter.java:111-115 | a fresh document holding the parsed tree, or a parse error |
| Thymeleaf.ThymeleafMessageConverter.ProcessList | src/main/java/io/github/gzsombor/pdfserver/impl/ThymeleafMessageConverter.java:117-137 | the in-place loop returns exactly what ListSpec prescribes (no document, the first error, or a fresh merged document); the engine saw the calls of exactly the parts attempted (all on success, up to the failing part otherwise), each part clearing the caches according to the engine state the earlier parts left |
| Thymeleaf.ThymeleafMessageConverter.MergeHtml | src/main/java/io/github/gzsombor/pdfserver/impl/ThymeleafMessageConverter.java:145-160 | base without body fails first, then a fragment without body fails naming its template, and the document is untouched; otherwise the fragment's body children are appended in order to the document's body; the fragment is never changed |
| Thymeleaf.ThymeleafMessageConverter.DocumentToString | src/main/java/io/github/gzsombor/pdfserver/impl/ThymeleafMessageConverter.java:162-168 | the transformer's text, or the transform error |
| Thymeleaf.FragmentOf | src/main/java/io/github/gzsombor/pdfserver/impl/ThymeleafMessageConverter.java:124-125 | only a single output renders to a fragment |
| Thymeleaf.Merge | src/main/java/io/github/gzsombor/pdfserver/impl/ThymeleafMessageConverter.java:145-160 | mergeHtml on values: fails iff either body is missing, the base's check first; on success the merged body is the base body followed by the fragment body |
| Thymeleaf.ListSpec | src/main/java/io/github/gzsombor/pdfserver/impl/ThymeleafMessageConverter.java:117-137 | a successful processList yields a document exactly when the list is not empty |
| Thymeleaf.PartsAttempted | src/main/java/io/github/gzsombor/pdfserver/impl/ThymeleafMessageConverter.java:123-132 | the number of parts processList hands to process: all of them on success, otherwise up to and including the first that fails: that prefix fails and the prefix one part shorter succeeds |
| Thymeleaf.AttemptedUpTo | src/main/java/io/github/gzsombor/pdfserver/impl/ThymeleafMessageConverter.java:123-132 | if part i is the first to fail, processList's result is that failure and exactly i + 1 parts were attempted |
| Thymeleaf.ThymeleafMessageConverter.ProcessPart | src/main/java/io/github/gzsombor/pdfserver/impl/ThymeleafMessageConverter.java:124-131 | one turn of processList's loop: the part is processed and parsed, then kept as the document if it is the first or merged into it in place; ListSpec, the engine log and the initialised state each advance by exactly that part |
| Thymeleaf.FirstPartInitialises | src/main/java/io/github/gzsombor/pdfserver/impl/ThymeleafMessageConverter.java:104-108 | a list whose first part is a single output leaves the engine initialised, since rendering it initialises the engine |
| Thymeleaf.StaysInitialised | src/main/java/io/github/gzsombor/pdfserver/impl/ThymeleafMessageConverter.java:104-108 | an initialised engine stays initialised whatever parts are processed |
| Thymeleaf.FailureIsFinal | src/main/java/io/github/gzsombor/pdfserver/impl/ThymeleafMessageConverter.java:117-137 | once a part raises an error, the later parts change nothing: the error aborts processList |
| MergeProperties.EmptyListHasNoDocument | src/main/java/io/github/gzsombor/pdfserver/impl/ThymeleafMessageConverter.java:119-133 | an empty list yields no document (Java null) |
| MergeProperties.SingleFragmentUnchanged | src/main/java/io/github/gzsombor/pdfserver/impl/ThymeleafMessageConverter.java:126-128 | a one-element list yields its parsed fragment unchanged, body or no body, or that part's error |
| MergeProperties.SuccessRendersEveryPart | src/main/java/io/github/gzsombor/pdfserver/impl/ThymeleafMessageConverter.java:123-133 | a successful merge processed and parsed every part, and has a document iff the list is non-empty |
| MergeProperties.MergeConcatenatesBodies | src/main/java/io/github/gzsombor/pdfserver/impl/ThymeleafMessageConverter.java:123-132 | when every part renders with a body, the merge succeeds and the document is the first fragment (all outside its body kept) with the later bodies appended to its body, so its body is every part's body in input order |
| MergeProperties.MergeNeedsEveryBody | src/main/java/io/github/gzsombor/pdfserver/impl/ThymeleafMessageConverter.java:146-159 | conversely, a merge of two or more parts succeeds only if every fragment has a body, and its body is then their concatenation |
| MergeProperties.MissingBaseBodyReported | src/main/java/io/github/gzsombor/pdfserver/impl/ThymeleafMessageConverter.java:146-149 | a first fragment without a body fails the first merge; no document |
| MergeProperties.MissingFragmentBodyReported | src/main/java/io/github/gzsombor/pdfserver/impl/ThymeleafMessageConverter.java:150-153 | the first later fragment without a body fails the merge with an error naming its template; no document |
| MergeProperties.NestedMergedFails | src/main/java/io/github/gzsombor/pdfserver/impl/ThymeleafMessageConverter.java:124 | a merged part fails the merge (with the missing-template error if all earlier parts went through); there is no flattening |
| MergeProperties.MergedInsideMergedFails | src/main/java/io/github/gzsombor/pdfserver/api/BasicMergedPdfOutput.java:18 | a BasicMergedPdfOutput placed among another's parts makes processList fail |
| Pdf.Attempted | src/main/java/io/github/gzsombor/pdfserver/impl/PdfResponseConverter.java:72-81 | the renderer steps that run on a document are a prefix of the fixed order, none but the last throws on that document, and a run stops early only at a step that throws |
| Pdf.AttemptedRendererSteps | src/main/java/io/github/gzsombor/pdfserver/impl/PdfResponseConverter.java:75-78 | the four steps setup, layout, createPDF, finishPDF run in that order up to the first that throws |
| Pdf.Sanitise | src/main/java/io/github/gzsombor/pdfserver/impl/PdfResponseConverter.java:68 | replacing '"' by '_' keeps the length, turns every '"' into '_' and leaves every other character in place |
| Pdf.DispositionWellQuoted | src/main/java/io/github/gzsombor/pdfserver/impl/PdfResponseConverter.java:68 | the value is `attachment; filename="` + sanitised name + `.pdf"`, and its only quotes are the two around the file name |
| Pdf.PdfRenderer.Perform | src/main/java/io/github/gzsombor/pdfserver/impl/PdfResponseConverter.java:75-78 | a renderer call is recorded, the setup call hands over the document, and the result reports whether the call threw on that document |
| Pdf.PdfResponseConverter.constructor | src/main/java/io/github/gzsombor/pdfserver/impl/PdfResponseConverter.java:28-31 | the content formatter starts as the identity |
| Pdf.PdfResponseConverter.SetContentFormatter | src/main/java/io/github/gzsombor/pdfserver/impl/PdfResponseConverter.java:39-41 | replaces the formatter (None for null) |
| Pdf.PdfResponseConverter.Process | src/main/java/io/github/gzsombor/pdfserver/impl/PdfResponseConverter.java:59-63 | the formatter applied to the base process result, or the raw result when the formatter is null; the engine calls and state are those of the base process |
| Pdf.PdfResponseConverter.WritePdf | src/main/java/io/github/gzsombor/pdfserver/impl/PdfResponseConverter.java:65-82 | content type application/pdf first; Content-Disposition set iff forDownload and the name is not null; then the body is opened; the renderer runs its steps in order and a DocumentException is swallowed |
| Pdf.PdfResponseConverter.RunRenderer | src/main/java/io/github/gzsombor/pdfserver/impl/PdfResponseConverter.java:72-81 | a fresh renderer whose calls are the fixed steps up to the first that throws |
| Pdf.PdfResponseConverter.WriteInternal | src/main/java/io/github/gzsombor/pdfserver/impl/PdfResponseConverter.java:44-57 | a merged output reaches the renderer as the processList DOM (formatter applied per fragment), a single one as formatted text; it fails iff rendering or merging fails, never for a renderer error; no disposition header is set; the engine saw one process call for a single output, the attempted parts' calls for a merged one |
| Pdf.IdentityFormatterChangesNothing | src/main/java/io/github/gzsombor/pdfserver/impl/PdfResponseConverter.java:30 | with the default formatter x -> x, processList's result is that of an unformatted pipeline |
| Html.HtmlMessageConverter.constructor | src/main/java/io/github/gzsombor/pdfserver/impl/HtmlMessageConverter.java:23-25 | keeps the base converter |
| Html.HtmlMessageConverter.WriteAsHtml | src/main/java/io/github/gzsombor/pdfserver/impl/HtmlMessageConverter.java:48-53 | content type text/html first, then the body is opened and the content written |
| Html.HtmlMessageConverter.WriteInternal | src/main/java/io/github/gzsombor/pdfserver/impl/HtmlMessageConverter.java:28-46 | a merged output is merged then serialised, a single output's process result written as it is; any error (merge, render or transform) leaves the response untouched; the engine saw one process call for a single output, the attempted parts' calls for a merged one |
| Html.SingleWrittenVerbatim | src/main/java/io/github/gzsombor/pdfserver/impl/HtmlMessageConverter.java:42-44 | a single output's text is the engine's render, with no formatter |
| Html.NestedMergedNotWritten | src/main/java/io/github/gzsombor/pdfserver/impl/HtmlMessageConverter.java:30-33 | a merged output with a merged part is never written |
| Html.MergedWrittenAsSerialisedConcatenation | src/main/java/io/github/gzsombor/pdfserver/impl/HtmlMessageConverter.java:30-37 | with all bodies present, the text is the transformer's output for the first fragment with the later bodies appended to its body (a tree whose body is all the parts' bodies in order), or the transform error |
| Http.OutputMessage.SetHeader | src/main/java/io/github/gzsombor/pdfserver/impl/PdfResponseConverter.java:66-69 | a header is set, replacing any earlier value, and recorded; the body is unchanged |
| Http.OutputMessage.OpenBody | src/main/java/io/github/gzsombor/pdfserver/impl/PdfResponseConverter.java:70 | the body stream is handed out and recorded; headers and body unchanged |
| Http.OutputMessage.Write | src/main/java/io/github/gzsombor/pdfserver/impl/HtmlMessageConverter.java:50-51 | the text is appended to the body and recorded; headers unchanged |

Three behaviours of the code are worth noting: the PDF content formatter runs
on every merged fragment as well as on single outputs, because processList
calls the overridden process; the disposition header is guarded by a non-null
name only, so an empty name still yields one; and the caches are cleared only
on an engine that is already initialised.

## Left out

- Thymeleaf template evaluation, XMLResource parsing, the XPath engine and the JAXP transformer: abstract functions supplied at construction.
- Flying Saucer layout and PDF bytes: the model records the renderer calls and their input only; the bytes written to the response body on the PDF path are not modelled.
- What Flying Saucer or the transformer do with the null document of an empty merged list: foreign; the model hands them `None`.
- A renderer call other than setup before any setup: writePdf never makes one, so the stand-in renderer requires the setup first.
- Exceptions other than DocumentException from the renderer (they would propagate) and the XPathExpressionException a constant `//body` cannot raise.
- HTTP I/O: output streams, UTF-8 encoding, flush and I/O errors of the writer; the response is a record of headers, written text and an event trace. Header names are matched exactly, not case-insensitively.
- Template cache concurrency: a cache clear is an entry in the engine's call log.
- Thymeleaf's lazy initialisation is modelled as "the first template processed initialises the engine"; other ways of initialising it (an explicit initialize call, configuration at startup) are the engine's starting state.
- Logging, the context locale, `supports`, `readInternal` and the plain getters and `setTemplateEngine`: Spring plumbing with no logic.
- Java nulls for template names and path prefixes (Java would concatenate "null"); output names may be null (None).
- Node identity: deep cloning and adoption are value copies, so aliasing between the fragment and the document is not represented.
- XML namespaces: `//body` is matched by tag name.
- Element attributes, comments and processing instructions: a node is an element (tag and children) or text, so the merged tree is exact only for these; nothing the merge computes depends on the rest.
- The configurer hook is a sequence of context edits (set, remove, clear), not arbitrary code.
- Thymeleaf.ThymeleafMessageConverter.MergeHtml: the error for a base document without a body carries no text; the source's message concatenates the variable just found null.
- The PdfOutput, MergedPdfOutput and PdfContextConfigurer interfaces are the `Output` datatype's constructors and its configurer field.
- The org.vermillionalbatros and org.vermillionalbatross packages: an older copy of the same converters.
- Test models, fixtures and integration tests: floating-point totals, Spring wiring and PDF text extraction.
