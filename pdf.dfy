/**
 * PdfResponseConverter: renders an output to HTML (through the content
 * formatter) and drives Flying Saucer's ITextRenderer over it.
 */
module Pdf {
  import opened Wrappers
  import opened Errors
  import opened Outputs
  import opened Dom
  import opened Thymeleaf
  import opened Http

  const PdfMediaType: string := "application/pdf"
  const DispositionPrefix: string := "attachment; filename=\""
  const DispositionSuffix: string := ".pdf\""

  /** What the renderer is given: a DOM (setDocument) or HTML text (setDocumentFromString). */
  datatype RenderInput = DomInput(document: Option<Node>) | StringInput(html: string)

  /** A call on the renderer: the setup that hands it its input, then layout, createPDF, finishPDF. */
  datatype RendererCall = Setup(input: RenderInput) | Layout | CreatePdf | FinishPdf

  function RendererSteps(input: RenderInput): seq<RendererCall>
  {
    [Setup(input), Layout, CreatePdf, FinishPdf]
  }

  /**
   * The steps that run on the document input when each of them may throw
   * (fails(input, step)): all of them in order, up to and including the
   * first one that throws.
   */
  function Attempted(input: RenderInput, steps: seq<RendererCall>, fails: (RenderInput, RendererCall) -> bool)
    : (r: seq<RendererCall>)
    ensures |r| <= |steps| && r == steps[..|r|]
    ensures forall i :: 0 <= i < |r| - 1 ==> !fails(input, r[i])
    ensures |r| < |steps| ==> r != [] && fails(input, r[|r| - 1])
    ensures steps != [] ==> r != []
    decreases |steps|
  {
    if steps == [] then []
    else if fails(input, steps[0]) then [steps[0]]
    else [steps[0]] + Attempted(input, steps[1..], fails)
  }

  /** name.replace('"', '_'). */
  function Sanitise(name: string): (r: string)
    ensures |r| == |name|
    ensures forall i :: 0 <= i < |name| ==> r[i] == if name[i] == '"' then '_' else name[i]
    decreases |name|
  {
    if name == [] then []
    else [if name[0] == '"' then '_' else name[0]] + Sanitise(name[1..])
  }

  /** The Content-Disposition value for a download named name. */
  function Disposition(name: string): string
  {
    DispositionPrefix + Sanitise(name) + DispositionSuffix
  }

  /**
   * The header value is the fixed prefix, the sanitised name and ".pdf" in
   * quotes; the only quote characters are the two that delimit the file name,
   * whatever the name holds.
   */
  lemma DispositionWellQuoted(name: string)
    ensures |Disposition(name)| == |name| + 27
    ensures Disposition(name)[..22] == DispositionPrefix
    ensures Disposition(name)[22..|name| + 22] == Sanitise(name)
    ensures Disposition(name)[|name| + 22..] == DispositionSuffix
    ensures forall i :: 0 <= i < |Disposition(name)| ==>
              (Disposition(name)[i] == '"' <==> i == 21 || i == |name| + 26)
  {
    var v := Disposition(name);
    var s := Sanitise(name);
    assert v == DispositionPrefix + s + DispositionSuffix;
    forall i | 0 <= i < |v|
      ensures v[i] == '"' <==> i == 21 || i == |name| + 26
    {
      if i < 22 {
        assert v[i] == DispositionPrefix[i];
      } else if i < |name| + 22 {
        assert v[i] == s[i - 22];
      } else {
        assert v[i] == DispositionSuffix[i - |name| - 22];
      }
    }
  }

  /** The renderer's fixed four steps, spelled out: the run stops right after the first that throws. */
  lemma AttemptedRendererSteps(input: RenderInput, fails: (RenderInput, RendererCall) -> bool)
    ensures Attempted(input, RendererSteps(input), fails) ==
            if fails(input, Setup(input)) then [Setup(input)]
            else if fails(input, Layout) then [Setup(input), Layout]
            else if fails(input, CreatePdf) then [Setup(input), Layout, CreatePdf]
            else [Setup(input), Layout, CreatePdf, FinishPdf]
  {
    var steps := RendererSteps(input);
    assert steps[1..] == [Layout, CreatePdf, FinishPdf];
    assert steps[1..][1..] == [CreatePdf, FinishPdf];
    assert steps[1..][1..][1..] == [FinishPdf];
    assert steps[1..][1..][1..][1..] == [];
    assert Attempted(input, [FinishPdf], fails) == [FinishPdf];
    assert Attempted(input, [CreatePdf, FinishPdf], fails) ==
           if fails(input, CreatePdf) then [CreatePdf] else [CreatePdf, FinishPdf];
    assert Attempted(input, [Layout, CreatePdf, FinishPdf], fails) ==
           if fails(input, Layout) then [Layout] else [Layout] + Attempted(input, [CreatePdf, FinishPdf], fails);
  }

  /** The headers writePdf leaves behind. */
  function PdfHeaders(headers: map<string, string>, forDownload: bool, name: Option<string>): map<string, string>
  {
    var typed := headers[ContentType := PdfMediaType];
    if forDownload && name.Some? then typed[ContentDisposition := Disposition(name.value)] else typed
  }

  /** What writePdf does to the response before the renderer runs. */
  function PdfTrace(forDownload: bool, name: Option<string>): seq<Event>
  {
    [HeaderSet(ContentType, PdfMediaType)]
    + (if forDownload && name.Some? then [HeaderSet(ContentDisposition, Disposition(name.value))] else [])
    + [BodyOpened]
  }

  /** setContentFormatter's default: x -> x. */
  function Identity(s: string): string
  {
    s
  }

  /** What writeInternal hands the renderer for t, or the error it raises first. */
  function PdfInput(p: Pipeline, t: Output): Result<RenderInput, Error>
  {
    match t
    case Merged(_, parts) =>
      (match ListSpec(p, parts)
       case Failure(e) => Failure(e)
       case Success(d) => Success(DomInput(d)))
    case Single(_, _, _) =>
      (match Processed(p, t)
       case Failure(e) => Failure(e)
       case Success(html) => Success(StringInput(html)))
  }

  /**
   * A stand-in for Flying Saucer's ITextRenderer. The setup call hands it its
   * document; fails says which calls throw a DocumentException on which
   * document. Every call is recorded.
   */
  class PdfRenderer {
    const fails: (RenderInput, RendererCall) -> bool
    var document: Option<RenderInput>
    var calls: seq<RendererCall>

    constructor (fails: (RenderInput, RendererCall) -> bool)
      ensures this.fails == fails && document == None && calls == []
    {
      this.fails := fails;
      document := None;
      calls := [];
    }

    /** One call; layout and the later steps run on the document the setup handed over. */
    method Perform(call: RendererCall) returns (ok: bool)
      requires call.Setup? || document.Some?
      modifies this
      ensures document == if call.Setup? then Some(call.input) else old(document)
      ensures calls == old(calls) + [call]
      ensures ok == !fails(document.value, call)
    {
      if call.Setup? {
        document := Some(call.input);
      }
      calls := calls + [call];
      ok := !fails(document.value, call);
    }
  }

  class PdfResponseConverter {
    const base: ThymeleafMessageConverter
    const rendererFails: (RenderInput, RendererCall) -> bool
    var contentFormatter: Option<string -> string>

    constructor (base: ThymeleafMessageConverter, rendererFails: (RenderInput, RendererCall) -> bool)
      ensures this.base == base && this.rendererFails == rendererFails
      ensures contentFormatter == Some(Identity)
    {
      this.base := base;
      this.rendererFails := rendererFails;
      contentFormatter := Some(Identity);
    }

    /** setContentFormatter; None is Java's null. */
    method SetContentFormatter(contentFormatter: Option<string -> string>)
      modifies this
      ensures this.contentFormatter == contentFormatter
    {
      this.contentFormatter := contentFormatter;
    }

    /** The override of process: the base result through the content formatter, if one is set. */
    method Process(o: Output) returns (r: Result<string, Error>)
      modifies base.engine
      ensures r == Processed(base.Pipe(contentFormatter), o)
      ensures base.engine.log == old(base.engine.log) + EngineCalls(old(base.ClearsCache()), base.pathPrefix, o)
      ensures base.engine.initialized == (old(base.engine.initialized) || o.Single?)
    {
      var content := base.Process(o);
      if content.Failure? {
        return Failure(content.error);
      }
      return Success(if contentFormatter.Some? then contentFormatter.value(content.value) else content.value);
    }

    /**
     * writePdf: set the headers, open the body, then run the renderer's steps
     * in order. A DocumentException from any step ends the run and is only
     * logged: no error reaches the caller.
     */
    method WritePdf(msg: OutputMessage, forDownload: bool, name: Option<string>, setup: RenderInput)
      returns (renderer: PdfRenderer)
      modifies msg
      ensures fresh(renderer)
      ensures msg.headers == PdfHeaders(old(msg.headers), forDownload, name)
      ensures msg.body == old(msg.body)
      ensures msg.trace == old(msg.trace) + PdfTrace(forDownload, name)
      ensures renderer.calls == Attempted(setup, RendererSteps(setup), rendererFails)
    {
      msg.SetHeader(ContentType, PdfMediaType);
      if forDownload && name.Some? {
        msg.SetHeader(ContentDisposition, Disposition(name.value));
      }
      msg.OpenBody();
      renderer := RunRenderer(setup);
    }

    /** The try block of writePdf: a new renderer, set up, then laid out, created and finished. */
    method RunRenderer(setup: RenderInput) returns (renderer: PdfRenderer)
      ensures fresh(renderer)
      ensures renderer.calls == Attempted(setup, RendererSteps(setup), rendererFails)
    {
      renderer := new PdfRenderer(rendererFails);
      var ok := renderer.Perform(Setup(setup));
      if ok {
        ok := renderer.Perform(Layout);
      }
      if ok {
        ok := renderer.Perform(CreatePdf);
      }
      if ok {
        ok := renderer.Perform(FinishPdf);
      }
      AttemptedRendererSteps(setup, rendererFails);
    }

    /**
     * writeInternal: a merged output goes through processList and reaches the
     * renderer as a DOM, any other through process and as text; the download
     * flag is always false.
     */
    method WriteInternal(t: Output, msg: OutputMessage) returns (r: Outcome<Error>, renderer: PdfRenderer?)
      modifies base.engine, msg
      ensures r.Fail? <==> PdfInput(base.Pipe(contentFormatter), t).Failure?
      ensures r.Fail? ==> r.error == PdfInput(base.Pipe(contentFormatter), t).error
      ensures r.Fail? ==> renderer == null && msg.headers == old(msg.headers) && msg.trace == old(msg.trace)
      ensures r.Pass? ==> renderer != null && fresh(renderer)
      ensures r.Pass? ==> msg.headers == old(msg.headers)[ContentType := PdfMediaType]
      ensures r.Pass? ==> msg.trace == old(msg.trace) + [HeaderSet(ContentType, PdfMediaType), BodyOpened]
      ensures r.Pass? ==> renderer.calls ==
                          Attempted(PdfInput(base.Pipe(contentFormatter), t).value,
                                    RendererSteps(PdfInput(base.Pipe(contentFormatter), t).value), rendererFails)
      ensures msg.body == old(msg.body)
      ensures t.Single? ==>
                base.engine.log == old(base.engine.log) + EngineCalls(old(base.ClearsCache()), base.pathPrefix, t) &&
                base.engine.initialized
      ensures t.Merged? ==>
                var attempted := t.pdfs[..PartsAttempted(base.Pipe(contentFormatter), t.pdfs)];
                base.engine.log == old(base.engine.log) +
                                   ListCalls(old(base.engine.initialized), base.alwaysReload, base.pathPrefix, attempted) &&
                base.engine.initialized == InitialisedAfter(old(base.engine.initialized), attempted)
    {
      if t.Merged? {
        var parts := IndividualPdfs(t);
        var document := base.ProcessList(parts, contentFormatter);
        if document.Failure? {
          return Fail(document.error), null;
        }
        var dom := if document.value == null then None else Some(document.value.root);
        renderer := WritePdf(msg, false, OutputName(t), DomInput(dom));
      } else {
        var content := Process(t);
        if content.Failure? {
          return Fail(content.error), null;
        }
        renderer := WritePdf(msg, false, OutputName(t), StringInput(content.value));
      }
      r := Pass;
    }
  }

  /** With the default formatter x -> x, processing and merging see the templates' output unchanged. */
  lemma {:induction false} IdentityFormatterChangesNothing(p: Pipeline, parts: seq<Output>)
    requires p.post == Some(Identity)
    ensures ListSpec(p, parts) == ListSpec(p.(post := None), parts)
    decreases |parts|
  {
    if parts != [] {
      var last := parts[|parts| - 1];
      IdentityFormatterChangesNothing(p, parts[..|parts| - 1]);
      assert Processed(p, last) == Processed(p.(post := None), last);
    }
  }
}
