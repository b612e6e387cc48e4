/** What process promises about the context, the template path and cache clearing. */
module ContextProperties {
  import opened Wrappers
  import opened Errors
  import opened Outputs
  import opened Thymeleaf

  /** Unless its configurer writes "record", the context binds "record" to the output itself. */
  lemma RecordBound(o: Output)
    requires o.Single? && o.configurer.Some? ==>
             forall i :: 0 <= i < |o.configurer.value| ==> !Touches(o.configurer.value[i], RecordKey)
    ensures RecordKey in ContextFor(o) && ContextFor(o)[RecordKey] == OutputValue(o)
  {
    if o.Single? && o.configurer.Some? {
      ConfigureKeepsUntouched(map[RecordKey := OutputValue(o)], o.configurer.value, RecordKey);
    }
  }

  /** The configurer runs after the binding, so its own write to "record" wins. */
  lemma ConfigurerOverridesRecord(o: Output, before: seq<ContextEdit>, v: Value, after: seq<ContextEdit>)
    requires o.Single? && o.configurer == Some(before + [SetVariable(RecordKey, v)] + after)
    requires forall i :: 0 <= i < |after| ==> !Touches(after[i], RecordKey)
    ensures RecordKey in ContextFor(o) && ContextFor(o)[RecordKey] == v
  {
    LastWriteWins(map[RecordKey := OutputValue(o)], before, v, after, RecordKey);
  }

  /**
   * A single output is rendered from the template at prefix + its template
   * name; with the default empty prefix that is the template name itself.
   */
  lemma TemplateResolvedUnderPrefix(clear: bool, prefix: string, o: Output)
    requires o.Single?
    ensures EngineCalls(clear, prefix, o)[|EngineCalls(clear, prefix, o)| - 1]
            == TemplateProcessed(prefix + o.templateName, ContextFor(o))
    ensures prefix == "" ==> TemplatePath(prefix, o.templateName) == o.templateName
  {
  }

  function CountClears(log: seq<EngineEvent>): nat
    decreases |log|
  {
    if log == [] then 0 else (if log[0] == CachesCleared then 1 else 0) + CountClears(log[1..])
  }

  lemma {:induction false} CountClearsAppend(a: seq<EngineEvent>, b: seq<EngineEvent>)
    ensures CountClears(a + b) == CountClears(a) + CountClears(b)
    decreases |a|
  {
    if a == [] {
      assert a + b == b;
    } else {
      assert (a + b)[1..] == a[1..] + b;
      CountClearsAppend(a[1..], b);
    }
  }

  /** One process call clears the caches exactly when the engine is initialised and reloading is on, and before rendering. */
  lemma ClearedBeforeRender(clear: bool, prefix: string, o: Output)
    ensures CountClears(EngineCalls(clear, prefix, o)) == if clear then 1 else 0
    ensures clear ==> EngineCalls(clear, prefix, o)[0] == CachesCleared
  {
    var rest := match TemplateName(o)
      case Success(name) => [TemplateProcessed(TemplatePath(prefix, name), ContextFor(o))]
      case Failure(_) => [];
    assert EngineCalls(clear, prefix, o) == (if clear then [CachesCleared] else []) + rest;
    CountClearsAppend(if clear then [CachesCleared] else [], rest);
    assert CountClears(rest) == 0;
  }

  /**
   * Processing a list clears the caches once per part when reloading is on
   * and the engine is initialised, once per part but the first when the first
   * part is the one that initialises the engine, and never without reloading,
   * in particular never with the default alwaysReload = false.
   */
  lemma {:induction false} ClearedOncePerPart(initialized: bool, reload: bool, prefix: string, parts: seq<Output>)
    ensures !reload ==> CountClears(ListCalls(initialized, reload, prefix, parts)) == 0
    ensures reload && initialized ==> CountClears(ListCalls(initialized, reload, prefix, parts)) == |parts|
    ensures reload && !initialized && parts != [] && parts[0].Single? ==>
              CountClears(ListCalls(initialized, reload, prefix, parts)) == |parts| - 1
    decreases |parts|
  {
    if parts != [] {
      var n := |parts|;
      var init := parts[..n - 1];
      var clear := reload && InitialisedAfter(initialized, init);
      ClearedOncePerPart(initialized, reload, prefix, init);
      CountClearsAppend(ListCalls(initialized, reload, prefix, init), EngineCalls(clear, prefix, parts[n - 1]));
      ClearedBeforeRender(clear, prefix, parts[n - 1]);
      if initialized {
        StaysInitialised(init);
      }
      if n >= 2 && parts[0].Single? {
        assert init[0] == parts[0];
        FirstPartInitialises(initialized, init);
      }
    }
  }
}
