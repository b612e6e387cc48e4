/** HtmlMessageConverter: writes the rendered, possibly merged, HTML as the response body. */
module Html {
  import opened Wrappers
  import opened Errors
  import opened Outputs
  import opened Dom
  import opened Thymeleaf
  import opened Http
  import MergeProperties

  const HtmlMediaType: string := "text/html"

  /** The text writeInternal writes for t, or the error it raises first. */
  function HtmlContent(p: Pipeline, serialise: Option<Node> -> Option<string>, t: Output): Result<string, Error>
  {
    match t
    case Merged(_, parts) =>
      (match ListSpec(p, parts)
       case Failure(e) => Failure(e)
       case Success(d) =>
         (match serialise(d)
          case None => Failure(TransformFailure)
          case Some(text) => Success(text)))
    case Single(_, _, _) => Processed(p, t)
  }

  class HtmlMessageConverter {
    const base: ThymeleafMessageConverter

    constructor (base: ThymeleafMessageConverter)
      ensures this.base == base
    {
      this.base := base;
    }

    /** writeAsHtml: the content type first, then the content through the body stream. */
    method WriteAsHtml(msg: OutputMessage, content: string)
      modifies msg
      ensures msg.headers == old(msg.headers)[ContentType := HtmlMediaType]
      ensures msg.body == old(msg.body) + content
      ensures msg.trace == old(msg.trace) + [HeaderSet(ContentType, HtmlMediaType), BodyOpened, Wrote(content)]
    {
      msg.SetHeader(ContentType, HtmlMediaType);
      msg.OpenBody();
      msg.Write(content);
    }

    /**
     * writeInternal: a merged output is merged, serialised and written; any
     * other output's process result is written as it is. process is not
     * overridden here, so no formatter runs.
     */
    method WriteInternal(t: Output, msg: OutputMessage) returns (r: Outcome<Error>)
      modifies base.engine, msg
      ensures r.Fail? <==> HtmlContent(base.Pipe(None), base.serialise, t).Failure?
      ensures r.Fail? ==> r.error == HtmlContent(base.Pipe(None), base.serialise, t).error
      ensures r.Fail? ==> msg.headers == old(msg.headers) && msg.body == old(msg.body) && msg.trace == old(msg.trace)
      ensures r.Pass? ==> msg.headers == old(msg.headers)[ContentType := HtmlMediaType]
      ensures r.Pass? ==> msg.body == old(msg.body) + HtmlContent(base.Pipe(None), base.serialise, t).value
      ensures r.Pass? ==> msg.trace == old(msg.trace) +
                          [HeaderSet(ContentType, HtmlMediaType), BodyOpened,
                           Wrote(HtmlContent(base.Pipe(None), base.serialise, t).value)]
      ensures t.Single? ==>
                base.engine.log == old(base.engine.log) + EngineCalls(old(base.ClearsCache()), base.pathPrefix, t) &&
                base.engine.initialized
      ensures t.Merged? ==>
                var attempted := t.pdfs[..PartsAttempted(base.Pipe(None), t.pdfs)];
                base.engine.log == old(base.engine.log) +
                                   ListCalls(old(base.engine.initialized), base.alwaysReload, base.pathPrefix, attempted) &&
                base.engine.initialized == InitialisedAfter(old(base.engine.initialized), attempted)
    {
      if t.Merged? {
        var parts := IndividualPdfs(t);
        var document := base.ProcessList(parts, None);
        if document.Failure? {
          return Fail(document.error);
        }
        var content := base.DocumentToString(document.value);
        if content.Failure? {
          return Fail(content.error);
        }
        WriteAsHtml(msg, content.value);
      } else {
        var content := base.Process(t);
        if content.Failure? {
          return Fail(content.error);
        }
        WriteAsHtml(msg, content.value);
      }
      r := Pass;
    }
  }

  /** A single output's text is exactly what the template engine rendered for it. */
  lemma SingleWrittenVerbatim(p: Pipeline, serialise: Option<Node> -> Option<string>, t: Output)
    requires t.Single? && p.post.None?
    ensures HtmlContent(p, serialise, t) == Rendered(p.render, p.prefix, t)
  {
  }

  /** A merged output with a merged part is never written: nested merging fails. */
  lemma NestedMergedNotWritten(p: Pipeline, serialise: Option<Node> -> Option<string>, name: Option<string>, pdfs: seq<Output>, k: nat)
    requires k < |pdfs| && pdfs[k].Merged?
    ensures HtmlContent(p, serialise, BasicMergedPdfOutput(name, pdfs)).Failure?
  {
    MergeProperties.NestedMergedFails(p, pdfs, k);
  }

  /**
   * When the parts all render with bodies, the written text, if the
   * transformer accepts the document, is the serialisation of the first
   * fragment with the later bodies appended to its body, a tree whose body is
   * the concatenation of all the parts' bodies.
   */
  lemma MergedWrittenAsSerialisedConcatenation(
    p: Pipeline, serialise: Option<Node> -> Option<string>, name: Option<string>,
    pdfs: seq<Output>, bodies: seq<seq<Node>>)
    requires |pdfs| >= 1 && |bodies| == |pdfs|
    requires forall i :: 0 <= i < |pdfs| ==> BodyChildren(p, pdfs[i]) == Some(bodies[i])
    ensures FragmentOf(p, pdfs[0]).Success?
    ensures FindBody(ExtendBody(FragmentOf(p, pdfs[0]).value, Flatten(bodies[1..]))) == Some(Flatten(bodies))
    ensures HtmlContent(p, serialise, BasicMergedPdfOutput(name, pdfs)) ==
            var d := ExtendBody(FragmentOf(p, pdfs[0]).value, Flatten(bodies[1..]));
            if serialise(Some(d)).Some? then Success(serialise(Some(d)).value) else Failure(TransformFailure)
  {
    MergeProperties.MergeConcatenatesBodies(p, pdfs, bodies);
  }
}
