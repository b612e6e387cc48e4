/**
 * The documents the converters render (PdfOutput, MergedPdfOutput and
 * BasicMergedPdfOutput) and the effect of a PdfContextConfigurer hook on a
 * template context.
 */
module Outputs {
  import opened Wrappers
  import opened Errors

  /** A value bound to a variable of a template context. */
  datatype Value = OutputValue(output: Output) | Plain(text: string)

  /** A template context: variable name to bound value (Thymeleaf's Context). */
  type Context = map<string, Value>

  /** One call that a PdfContextConfigurer's init makes on the context. */
  datatype ContextEdit =
    | SetVariable(name: string, value: Value)
    | RemoveVariable(name: string)
    | ClearVariables

  /**
   * A renderable document. A Single output has a template, an output name
   * (Java's null is None) and, when it also implements PdfContextConfigurer,
   * the edits its init hook makes. A Merged output is a BasicMergedPdfOutput:
   * a name and the ordered list of its parts, and no template of its own.
   */
  datatype Output =
    | Single(templateName: string, outputName: Option<string>, configurer: Option<seq<ContextEdit>>)
    | Merged(outputName: Option<string>, pdfs: seq<Output>)

  /** The BasicMergedPdfOutput constructor: it keeps both arguments as given. */
  function BasicMergedPdfOutput(outputName: Option<string>, pdfs: seq<Output>): (o: Output)
    ensures o.Merged?
  {
    Merged(outputName, pdfs)
  }

  /** PdfOutput.getOutputName. */
  function OutputName(o: Output): Option<string>
  {
    o.outputName
  }

  /** PdfOutput.getTemplateName; a merged output always throws. */
  function TemplateName(o: Output): (r: Result<string, Error>)
    ensures r.Failure? <==> o.Merged?
    ensures r.Failure? ==> r.error == NoTemplateName
    ensures o.Single? ==> r == Success(o.templateName)
  {
    match o
    case Single(name, _, _) => Success(name)
    case Merged(_, _) => Failure(NoTemplateName)
  }

  /** MergedPdfOutput.getIndividualPdfs. */
  function IndividualPdfs(o: Output): seq<Output>
    requires o.Merged?
  {
    o.pdfs
  }

  /**
   * A BasicMergedPdfOutput reports exactly the name and the list it was built
   * with, whatever its parts are called, and has no template name.
   */
  lemma MergedOutputAccessors(name: Option<string>, pdfs: seq<Output>)
    ensures OutputName(BasicMergedPdfOutput(name, pdfs)) == name
    ensures IndividualPdfs(BasicMergedPdfOutput(name, pdfs)) == pdfs
    ensures |IndividualPdfs(BasicMergedPdfOutput(name, pdfs))| == |pdfs|
    ensures TemplateName(BasicMergedPdfOutput(name, pdfs)) == Failure(NoTemplateName)
  {
  }

  /** Whether an edit can change the binding of variable k. */
  predicate Touches(e: ContextEdit, k: string)
  {
    match e
    case SetVariable(n, _) => n == k
    case RemoveVariable(n) => n == k
    case ClearVariables => true
  }

  function ApplyEdit(ctx: Context, e: ContextEdit): Context
  {
    match e
    case SetVariable(n, v) => ctx[n := v]
    case RemoveVariable(n) => ctx - {n}
    case ClearVariables => map[]
  }

  /** The context after an init hook has made its edits, in order. */
  function Configure(ctx: Context, edits: seq<ContextEdit>): Context
    decreases |edits|
  {
    if edits == [] then ctx else Configure(ApplyEdit(ctx, edits[0]), edits[1..])
  }

  lemma {:induction false} ConfigureSplit(ctx: Context, a: seq<ContextEdit>, b: seq<ContextEdit>)
    ensures Configure(ctx, a + b) == Configure(Configure(ctx, a), b)
    decreases |a|
  {
    if a == [] {
      assert a + b == b;
    } else {
      assert (a + b)[1..] == a[1..] + b;
      ConfigureSplit(ApplyEdit(ctx, a[0]), a[1..], b);
    }
  }

  /** Edits that never name k leave k's binding as it was. */
  lemma {:induction false} ConfigureKeepsUntouched(ctx: Context, edits: seq<ContextEdit>, k: string)
    requires k in ctx
    requires forall i :: 0 <= i < |edits| ==> !Touches(edits[i], k)
    ensures k in Configure(ctx, edits) && Configure(ctx, edits)[k] == ctx[k]
    decreases |edits|
  {
    if edits != [] {
      ConfigureKeepsUntouched(ApplyEdit(ctx, edits[0]), edits[1..], k);
    }
  }

  /** The last write to a variable decides its binding. */
  lemma LastWriteWins(ctx: Context, before: seq<ContextEdit>, v: Value, after: seq<ContextEdit>, k: string)
    requires forall i :: 0 <= i < |after| ==> !Touches(after[i], k)
    ensures k in Configure(ctx, before + [SetVariable(k, v)] + after)
    ensures Configure(ctx, before + [SetVariable(k, v)] + after)[k] == v
  {
    var mid := Configure(ctx, before + [SetVariable(k, v)]);
    ConfigureSplit(ctx, before + [SetVariable(k, v)], after);
    ConfigureSplit(ctx, before, [SetVariable(k, v)]);
    assert [SetVariable(k, v)][1..] == [];
    assert mid == Configure(ctx, before)[k := v];
    ConfigureKeepsUntouched(mid, after, k);
  }
}
