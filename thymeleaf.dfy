/**
 * ThymeleafMessageConverter: builds the template context, asks the template
 * engine for the HTML of one output, and merges the HTML of several outputs
 * into one document.
 */
module Thymeleaf {
  import opened Wrappers
  import opened Errors
  import opened Outputs
  import opened Dom

  /** The context variable every template sees its output under. */
  const RecordKey: string := "record"

  /** A call the converter makes on the template engine. */
  datatype EngineEvent = CachesCleared | TemplateProcessed(path: string, context: Context)

  /**
   * A stand-in for the SpringTemplateEngine. What a template renders to is the
   * function render (None: the template cannot be found or evaluated); the
   * engine records, in order, the calls it receives. It initialises itself
   * lazily, on the first template it processes.
   */
  class TemplateEngine {
    const render: (string, Context) -> Option<string>
    var initialized: bool
    var log: seq<EngineEvent>

    constructor (render: (string, Context) -> Option<string>, initialized: bool)
      ensures this.render == render && this.initialized == initialized && log == []
    {
      this.render := render;
      this.initialized := initialized;
      log := [];
    }

    method IsInitialized() returns (b: bool)
      ensures b == initialized
    {
      b := initialized;
    }

    /** getCacheManager().clearAllCaches(). */
    method ClearAllCaches()
      modifies this
      ensures log == old(log) + [CachesCleared]
      ensures initialized == old(initialized)
    {
      log := log + [CachesCleared];
    }

    method Process(path: string, context: Context) returns (r: Option<string>)
      modifies this
      ensures r == render(path, context)
      ensures log == old(log) + [TemplateProcessed(path, context)]
      ensures initialized
    {
      r := render(path, context);
      log := log + [TemplateProcessed(path, context)];
      initialized := true;
    }
  }

  /**
   * The context process builds for o: the output itself under "record", then
   * the configurer's edits, if o has a configurer.
   */
  function ContextFor(o: Output): Context
  {
    var seeded := map[RecordKey := OutputValue(o)];
    if o.Single? && o.configurer.Some? then Configure(seeded, o.configurer.value) else seeded
  }

  function TemplatePath(prefix: string, name: string): string
  {
    prefix + name
  }

  /** The engine calls one process call makes: an optional cache clear, then the render. */
  function EngineCalls(clear: bool, prefix: string, o: Output): seq<EngineEvent>
  {
    (if clear then [CachesCleared] else []) +
    match TemplateName(o)
    case Success(name) => [TemplateProcessed(TemplatePath(prefix, name), ContextFor(o))]
    case Failure(_) => []
  }

  /**
   * Whether the engine is initialised after processing parts, starting from
   * initialized: a single output reaches the engine and initialises it, a
   * merged one fails before that.
   */
  predicate InitialisedAfter(initialized: bool, parts: seq<Output>)
    decreases |parts|
  {
    if parts == [] then initialized
    else InitialisedAfter(initialized, parts[..|parts| - 1]) || parts[|parts| - 1].Single?
  }

  /** The engine is initialised after a list whose first part is a single output. */
  lemma {:induction false} FirstPartInitialises(initialized: bool, parts: seq<Output>)
    requires parts != [] && parts[0].Single?
    ensures InitialisedAfter(initialized, parts)
    decreases |parts|
  {
    if |parts| > 1 {
      var init := parts[..|parts| - 1];
      assert init[0] == parts[0];
      FirstPartInitialises(initialized, init);
    }
  }

  /** Once initialised, the engine stays initialised. */
  lemma {:induction false} StaysInitialised(parts: seq<Output>)
    ensures InitialisedAfter(true, parts)
    decreases |parts|
  {
    if parts != [] {
      StaysInitialised(parts[..|parts| - 1]);
    }
  }

  /**
   * The engine calls of processing parts one after the other, on an engine
   * whose initialised state is initialized at first and with alwaysReload
   * set to reload.
   */
  function ListCalls(initialized: bool, reload: bool, prefix: string, parts: seq<Output>): seq<EngineEvent>
    decreases |parts|
  {
    if parts == [] then []
    else
      var init := parts[..|parts| - 1];
      ListCalls(initialized, reload, prefix, init)
      + EngineCalls(reload && InitialisedAfter(initialized, init), prefix, parts[|parts| - 1])
  }

  /** What the base class's process returns for o. */
  function Rendered(render: (string, Context) -> Option<string>, prefix: string, o: Output): Result<string, Error>
  {
    match TemplateName(o)
    case Failure(e) => Failure(e)
    case Success(name) =>
      var path := TemplatePath(prefix, name);
      match render(path, ContextFor(o))
      case None => Failure(TemplateFailure(path))
      case Some(html) => Success(html)
  }

  /**
   * Everything that decides what processList produces: the engine's render
   * function, the path prefix, what a subclass's override of process does to
   * the base result (post; None when process is not overridden) and the HTML
   * parser (None: the text does not parse).
   */
  datatype Pipeline = Pipeline(
    render: (string, Context) -> Option<string>,
    prefix: string,
    post: Option<string -> string>,
    parse: string -> Option<Node>)

  function Format(post: Option<string -> string>, html: string): string
  {
    if post.Some? then post.value(html) else html
  }

  /** What the (possibly overridden) process returns for o. */
  function Processed(p: Pipeline, o: Output): Result<string, Error>
  {
    match Rendered(p.render, p.prefix, o)
    case Failure(e) => Failure(e)
    case Success(html) => Success(Format(p.post, html))
  }

  /** The parsed fragment of o: processed, then parsed. */
  function FragmentOf(p: Pipeline, o: Output): (r: Result<Node, Error>)
    ensures r.Success? ==> o.Single?
  {
    match Processed(p, o)
    case Failure(e) => Failure(e)
    case Success(html) => if p.parse(html).Some? then Success(p.parse(html).value) else Failure(ParseFailure)
  }

  /** mergeHtml as a function: the base with the fragment's body children appended to its body. */
  function Merge(base: Node, fragment: Node, templateName: string): (r: Result<Node, Error>)
    ensures r.Failure? <==> FindBody(base).None? || FindBody(fragment).None?
    ensures FindBody(base).None? ==> r == Failure(MissingBaseBody)
    ensures r.Failure? && FindBody(base).Some? ==> r.error == MissingFragmentBody(templateName)
    ensures r.Success? ==> FindBody(r.value) == Some(FindBody(base).value + FindBody(fragment).value)
  {
    if FindBody(base).None? then Failure(MissingBaseBody)
    else if FindBody(fragment).None? then Failure(MissingFragmentBody(templateName))
    else
      FindBodyAfterExtend(base, FindBody(fragment).value);
      Success(ExtendBody(base, FindBody(fragment).value))
  }

  /** One iteration of processList: the first fragment becomes the document, later ones are merged in. */
  function Step(acc: Option<Node>, p: Pipeline, o: Output): Result<Option<Node>, Error>
  {
    match FragmentOf(p, o)
    case Failure(e) => Failure(e)
    case Success(fragment) =>
      if acc.None? then Success(Some(fragment))
      else match Merge(acc.value, fragment, o.templateName)
        case Failure(e) => Failure(e)
        case Success(merged) => Success(Some(merged))
  }

  /** processList as a function: None for an empty list, the first error raised, or the merged tree. */
  function ListSpec(p: Pipeline, parts: seq<Output>): (r: Result<Option<Node>, Error>)
    ensures r.Success? ==> (r.value.Some? <==> |parts| > 0)
    decreases |parts|
  {
    if parts == [] then Success(None)
    else match ListSpec(p, parts[..|parts| - 1])
      case Failure(e) => Failure(e)
      case Success(acc) => Step(acc, p, parts[|parts| - 1])
  }

  /**
   * How many parts processList hands to process: all of them when it
   * succeeds, otherwise up to and including the part that raises the error.
   */
  function PartsAttempted(p: Pipeline, parts: seq<Output>): (k: nat)
    ensures k <= |parts|
    ensures ListSpec(p, parts).Success? ==> k == |parts|
    ensures ListSpec(p, parts).Failure? ==>
              0 < k && ListSpec(p, parts[..k]).Failure? && ListSpec(p, parts[..k - 1]).Success?
    decreases |parts|
  {
    if parts == [] then 0
    else
      var init := parts[..|parts| - 1];
      if ListSpec(p, init).Failure? then
        var k := PartsAttempted(p, init);
        assert init[..k] == parts[..k] && init[..k - 1] == parts[..k - 1];
        k
      else
        assert parts[..|parts|] == parts && parts[..|parts| - 1] == init;
        |parts|
  }

  /** The body children of o's fragment, if it renders, parses and has a body. */
  function BodyChildren(p: Pipeline, o: Output): Option<seq<Node>>
  {
    match FragmentOf(p, o)
    case Failure(_) => None
    case Success(fragment) => FindBody(fragment)
  }

  /** One more part: the spec and the engine calls both take one more step. */
  lemma ListSnoc(p: Pipeline, parts: seq<Output>, i: nat)
    requires i < |parts|
    ensures ListSpec(p, parts[..i]).Failure? ==> ListSpec(p, parts[..i + 1]) == ListSpec(p, parts[..i])
    ensures ListSpec(p, parts[..i]).Success? ==>
              ListSpec(p, parts[..i + 1]) == Step(ListSpec(p, parts[..i]).value, p, parts[i])
  {
    assert parts[..i + 1][..i] == parts[..i];
  }

  /** Appending to the engine's log one call sequence after the other. */
  lemma LogAppend(log: seq<EngineEvent>, calls: seq<EngineEvent>, called: seq<EngineEvent>)
    ensures (log + calls) + called == log + (calls + called)
  {
  }

  /** One more part: the engine calls and the engine's initialised state take one more step. */
  lemma CallsSnoc(initialized: bool, reload: bool, prefix: string, parts: seq<Output>, i: nat)
    requires i < |parts|
    ensures ListCalls(initialized, reload, prefix, parts[..i + 1]) ==
            ListCalls(initialized, reload, prefix, parts[..i])
            + EngineCalls(reload && InitialisedAfter(initialized, parts[..i]), prefix, parts[i])
    ensures InitialisedAfter(initialized, parts[..i + 1]) ==
            (InitialisedAfter(initialized, parts[..i]) || parts[i].Single?)
  {
    assert parts[..i + 1][..i] == parts[..i];
  }

  /** processList attempts i + 1 parts exactly when part i is the first to raise an error. */
  lemma AttemptedUpTo(p: Pipeline, parts: seq<Output>, i: nat)
    requires i < |parts|
    requires ListSpec(p, parts[..i]).Success? && ListSpec(p, parts[..i + 1]).Failure?
    ensures ListSpec(p, parts) == ListSpec(p, parts[..i + 1])
    ensures PartsAttempted(p, parts) == i + 1
    ensures parts[..PartsAttempted(p, parts)] == parts[..i + 1]
  {
    FailureIsFinal(p, parts, i + 1);
    var k := PartsAttempted(p, parts);
    if k < i + 1 {
      assert parts[..i][..k] == parts[..k];
      FailureIsFinal(p, parts[..i], k);
      assert false;
    } else if k > i + 1 {
      var before := parts[..k - 1];
      assert before[..i + 1] == parts[..i + 1];
      assert ListSpec(p, before).Success?;
      FailureIsFinal(p, before, i + 1);
      assert false;
    }
  }

  /** Once processList has raised an error, the parts after it change nothing. */
  lemma {:induction false} FailureIsFinal(p: Pipeline, parts: seq<Output>, k: nat)
    requires k <= |parts|
    requires ListSpec(p, parts[..k]).Failure?
    ensures ListSpec(p, parts) == ListSpec(p, parts[..k])
    decreases |parts| - k
  {
    if k < |parts| {
      var next := parts[..k + 1];
      assert next[..k] == parts[..k];
      FailureIsFinal(p, parts, k + 1);
    } else {
      assert parts[..k] == parts;
    }
  }

  class ThymeleafMessageConverter {
    const engine: TemplateEngine
    /** XMLResource.load(...).getDocument(). */
    const parse: string -> Option<Node>
    /** The JAXP identity Transformer; None is a TransformerException. */
    const serialise: Option<Node> -> Option<string>
    var alwaysReload: bool
    var pathPrefix: string

    constructor (engine: TemplateEngine, parse: string -> Option<Node>, serialise: Option<Node> -> Option<string>)
      ensures this.engine == engine && this.parse == parse && this.serialise == serialise
      ensures !alwaysReload && pathPrefix == ""
    {
      this.engine := engine;
      this.parse := parse;
      this.serialise := serialise;
      alwaysReload := false;
      pathPrefix := "";
    }

    method SetAlwaysReload(alwaysReload: bool)
      modifies this
      ensures this.alwaysReload == alwaysReload && pathPrefix == old(pathPrefix)
    {
      this.alwaysReload := alwaysReload;
    }

    method SetPathPrefix(path: string)
      modifies this
      ensures pathPrefix == path && alwaysReload == old(alwaysReload)
    {
      pathPrefix := path;
    }

    /** The collaborators and settings processList runs with, given process's override. */
    function Pipe(post: Option<string -> string>): Pipeline
      reads this
    {
      Pipeline(engine.render, pathPrefix, post, parse)
    }

    /** Whether a process call clears the template caches first. */
    function ClearsCache(): bool
      reads this, engine
    {
      engine.initialized && alwaysReload
    }

    method Process(o: Output) returns (r: Result<string, Error>)
      modifies engine
      ensures r == Rendered(engine.render, pathPrefix, o)
      ensures engine.log == old(engine.log) + EngineCalls(old(ClearsCache()), pathPrefix, o)
      ensures engine.initialized == (old(engine.initialized) || o.Single?)
    {
      var context := map[RecordKey := OutputValue(o)];
      if o.Single? && o.configurer.Some? {
        context := Configure(context, o.configurer.value);
      }
      var initialized := engine.IsInitialized();
      if initialized && alwaysReload {
        engine.ClearAllCaches();
      }
      var name := TemplateName(o);
      if name.Failure? {
        return Failure(name.error);
      }
      var path := TemplatePath(pathPrefix, name.value);
      var html := engine.Process(path, context);
      if html.None? {
        return Failure(TemplateFailure(path));
      }
      return Success(html.value);
    }

    method ParseHtml(content: string) returns (r: Result<Document, Error>)
      ensures parse(content).None? ==> r == Failure(ParseFailure)
      ensures parse(content).Some? ==> r.Success? && fresh(r.value) && r.value.root == parse(content).value
    {
      var dom := parse(content);
      if dom.None? {
        return Failure(ParseFailure);
      }
      var document := new Document(dom.value);
      return Success(document);
    }

    /**
     * processList. post is what the running subclass's override of process
     * does after the base process (None when it is not overridden).
     */
    method ProcessList(parts: seq<Output>, post: Option<string -> string>) returns (r: Result<Document?, Error>)
      modifies engine
      ensures r.Failure? ==> ListSpec(Pipe(post), parts) == Failure(r.error)
      ensures r.Success? ==> ListSpec(Pipe(post), parts) == Success(if r.value == null then None else Some(r.value.root))
      ensures r.Success? && r.value != null ==> fresh(r.value)
      ensures engine.log == old(engine.log) +
              ListCalls(old(engine.initialized), alwaysReload, pathPrefix, parts[..PartsAttempted(Pipe(post), parts)])
      ensures engine.initialized == InitialisedAfter(old(engine.initialized), parts[..PartsAttempted(Pipe(post), parts)])
      ensures r.Success? ==> engine.log == old(engine.log) + ListCalls(old(engine.initialized), alwaysReload, pathPrefix, parts)
    {
      ghost var pipe, log0, init0 := Pipe(post), engine.log, engine.initialized;
      assert parts[..0] == [];
      var document: Document? := null;
      var i := 0;
      while i < |parts|
        invariant 0 <= i <= |parts|
        invariant ListSpec(pipe, parts[..i]) == Success(if document == null then None else Some(document.root))
        invariant document != null ==> fresh(document)
        invariant engine.log == log0 + ListCalls(init0, alwaysReload, pathPrefix, parts[..i])
        invariant engine.initialized == InitialisedAfter(init0, parts[..i])
      {
        var next := ProcessPart(document, parts, i, post, pipe, log0, init0);
        if next.Failure? {
          AttemptedUpTo(pipe, parts, i);
          return Failure(next.error);
        }
        document := next.value;
        i := i + 1;
      }
      assert parts[..i] == parts;
      assert Pipe(post) == pipe;
      assert PartsAttempted(pipe, parts) == |parts|;
      return Success(document);
    }

    /**
     * One iteration of processList's loop: process and parse the part, then
     * keep it as the document if it is the first, or merge it into the
     * document otherwise.
     */
    method ProcessPart(document: Document?, parts: seq<Output>, i: nat, post: Option<string -> string>,
                       ghost pipe: Pipeline, ghost log0: seq<EngineEvent>, ghost init0: bool)
      returns (r: Result<Document?, Error>)
      requires i < |parts| && pipe == Pipe(post)
      requires ListSpec(pipe, parts[..i]) == Success(if document == null then None else Some(document.root))
      requires engine.log == log0 + ListCalls(init0, alwaysReload, pathPrefix, parts[..i])
      requires engine.initialized == InitialisedAfter(init0, parts[..i])
      modifies engine, document
      ensures r.Failure? ==> ListSpec(pipe, parts[..i + 1]) == Failure(r.error)
      ensures r.Success? ==> r.value != null && ListSpec(pipe, parts[..i + 1]) == Success(Some(r.value.root))
      ensures r.Success? && document != null ==> r.value == document
      ensures r.Success? && document == null ==> r.value != null && fresh(r.value)
      ensures engine.log == log0 + ListCalls(init0, alwaysReload, pathPrefix, parts[..i + 1])
      ensures engine.initialized == InitialisedAfter(init0, parts[..i + 1])
    {
      ListSnoc(pipe, parts, i);
      CallsSnoc(init0, alwaysReload, pathPrefix, parts, i);
      LogAppend(log0, ListCalls(init0, alwaysReload, pathPrefix, parts[..i]), EngineCalls(ClearsCache(), pathPrefix, parts[i]));
      var part := parts[i];
      var raw := Process(part);
      if raw.Failure? {
        return Failure(raw.error);
      }
      var fragment := ParseHtml(Format(post, raw.value));
      if fragment.Failure? {
        return Failure(fragment.error);
      }
      if document == null {
        return Success(fragment.value);
      }
      var merged := MergeHtml(document, fragment.value, part.templateName);
      if merged.Fail? {
        return Failure(merged.error);
      }
      return Success(document);
    }

    /**
     * mergeHtml: locate both bodies, then append each child of the fragment's
     * body, in order, to the document's body. Cloning and adopting a value
     * tree copies it, so the fragment is never touched.
     */
    method MergeHtml(document: Document, fragment: Document, templateName: string) returns (r: Outcome<Error>)
      requires document != fragment
      modifies document
      ensures r.Pass? ==> Merge(old(document.root), fragment.root, templateName) == Success(document.root)
      ensures r.Fail? ==> Merge(old(document.root), fragment.root, templateName) == Failure(r.error)
      ensures r.Fail? ==> document.root == old(document.root)
      ensures fragment.root == old(fragment.root)
    {
      var documentBody := FindBody(document.root);
      if documentBody.None? {
        return Fail(MissingBaseBody);
      }
      var newBody := FindBody(fragment.root);
      if newBody.None? {
        return Fail(MissingFragmentBody(templateName));
      }
      var childNodes := newBody.value;
      ghost var base := document.root;
      ExtendByNothing(base);
      assert documentBody.value + childNodes[..0] == documentBody.value;
      var i := 0;
      while i < |childNodes|
        invariant 0 <= i <= |childNodes|
        invariant document.root == ExtendBody(base, childNodes[..i])
        invariant FindBody(document.root) == Some(documentBody.value + childNodes[..i])
      {
        var toAppend := childNodes[i];
        document.AppendToBody(toAppend);
        ExtendTwice(base, childNodes[..i], [toAppend]);
        assert childNodes[..i + 1] == childNodes[..i] + [toAppend];
        assert documentBody.value + childNodes[..i + 1] == documentBody.value + childNodes[..i] + [toAppend];
        i := i + 1;
      }
      assert childNodes[..i] == childNodes;
      return Pass;
    }

    /** documentToString; a null document is handed to the transformer as it is. */
    method DocumentToString(document: Document?) returns (r: Result<string, Error>)
      ensures r == match serialise(if document == null then None else Some(document.root))
                   case None => Failure(TransformFailure)
                   case Some(text) => Success(text)
    {
      var dom := if document == null then None else Some(document.root);
      match serialise(dom) {
        case None => r := Failure(TransformFailure);
        case Some(text) => r := Success(text);
      }
    }
  }
}
