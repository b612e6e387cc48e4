/** What processList promises about the document it returns, and when it fails. */
module MergeProperties {
  import opened Wrappers
  import opened Errors
  import opened Outputs
  import opened Dom
  import opened Thymeleaf

  /** An empty list yields no document. */
  lemma EmptyListHasNoDocument(p: Pipeline)
    ensures ListSpec(p, []) == Success(None)
  {
  }

  /**
   * A one-element list yields that part's parsed fragment unchanged, whether
   * or not it has a body: bodies are only looked up when merging.
   */
  lemma SingleFragmentUnchanged(p: Pipeline, o: Output)
    ensures FragmentOf(p, o).Success? ==> ListSpec(p, [o]) == Success(Some(FragmentOf(p, o).value))
    ensures FragmentOf(p, o).Failure? ==> ListSpec(p, [o]) == Failure(FragmentOf(p, o).error)
  {
    assert [o][..0] == [];
  }

  /**
   * A successful run rendered and parsed every part, and yields a document
   * exactly when the list is not empty.
   */
  lemma {:induction false} SuccessRendersEveryPart(p: Pipeline, parts: seq<Output>)
    requires ListSpec(p, parts).Success?
    ensures ListSpec(p, parts).value.Some? <==> |parts| > 0
    ensures forall i :: 0 <= i < |parts| ==> FragmentOf(p, parts[i]).Success?
    decreases |parts|
  {
    if parts != [] {
      var init := parts[..|parts| - 1];
      SuccessRendersEveryPart(p, init);
      forall i | 0 <= i < |parts|
        ensures FragmentOf(p, parts[i]).Success?
      {
        if i < |parts| - 1 {
          assert init[i] == parts[i];
        }
      }
    }
  }

  /**
   * When every part renders to a fragment with a body, the merge succeeds and
   * the document's body holds the first fragment's body children followed by
   * each later fragment's, in input order, with nothing dropped or reordered.
   * The document itself is the first fragment (its head and everything else
   * outside the body kept) with the later bodies appended to its body.
   */
  lemma {:induction false} MergeConcatenatesBodies(p: Pipeline, parts: seq<Output>, bodies: seq<seq<Node>>)
    requires |parts| >= 1 && |bodies| == |parts|
    requires forall i :: 0 <= i < |parts| ==> BodyChildren(p, parts[i]) == Some(bodies[i])
    ensures FragmentOf(p, parts[0]).Success?
    ensures ListSpec(p, parts) == Success(Some(ExtendBody(FragmentOf(p, parts[0]).value, Flatten(bodies[1..]))))
    ensures FindBody(ListSpec(p, parts).value.value) == Some(Flatten(bodies))
    decreases |parts|
  {
    var n := |parts|;
    var init := parts[..n - 1];
    assert BodyChildren(p, parts[0]) == Some(bodies[0]);
    var first := FragmentOf(p, parts[0]).value;
    if n == 1 {
      assert parts == [parts[0]];
      SingleFragmentUnchanged(p, parts[0]);
      assert bodies[1..] == [];
      ExtendByNothing(first);
      assert Flatten(bodies) == bodies[0] + Flatten(bodies[1..]) == bodies[0];
    } else {
      MergeConcatenatesBodies(p, init, bodies[..n - 1]);
      assert init[0] == parts[0];
      var d := ListSpec(p, init).value.value;
      assert d == ExtendBody(first, Flatten(bodies[..n - 1][1..]));
      FindBodyAfterExtend(d, bodies[n - 1]);
      ExtendTwice(first, Flatten(bodies[..n - 1][1..]), bodies[n - 1]);
      assert bodies[..n - 1][1..] == bodies[1..n - 1];
      FlattenDropLast(bodies, 1);
      FlattenDropLast(bodies, 0);
      assert bodies[0..] == bodies && bodies[0..n - 1] == bodies[..n - 1];
    }
  }

  /**
   * Conversely, a merge of two or more parts succeeds only if every part's
   * fragment (the first one included) has a body, and its body is then the
   * concatenation of theirs.
   */
  lemma {:induction false} MergeNeedsEveryBody(p: Pipeline, parts: seq<Output>)
    requires |parts| >= 2 && ListSpec(p, parts).Success?
    ensures forall i :: 0 <= i < |parts| ==> BodyChildren(p, parts[i]).Some?
    ensures ListSpec(p, parts).value.Some?
    ensures FindBody(ListSpec(p, parts).value.value) ==
            Some(Flatten(seq(|parts|, i requires 0 <= i < |parts| => BodyChildren(p, parts[i]).value)))
    decreases |parts|
  {
    var n := |parts|;
    var init := parts[..n - 1];
    assert ListSpec(p, init).Success?;
    SuccessRendersEveryPart(p, init);
    var acc := ListSpec(p, init).value;
    assert acc.Some?;
    assert FindBody(acc.value).Some? && BodyChildren(p, parts[n - 1]).Some?;
    if n - 1 >= 2 {
      MergeNeedsEveryBody(p, init);
    } else {
      assert init == [parts[0]];
      SingleFragmentUnchanged(p, parts[0]);
    }
    forall i | 0 <= i < n
      ensures BodyChildren(p, parts[i]).Some?
    {
      if i < n - 1 {
        assert init[i] == parts[i];
      }
    }
    var bodies := seq(n, i requires 0 <= i < n => BodyChildren(p, parts[i]).value);
    MergeConcatenatesBodies(p, parts, bodies);
  }

  /** A first fragment without a body makes the first merge fail. */
  lemma MissingBaseBodyReported(p: Pipeline, parts: seq<Output>)
    requires |parts| >= 2
    requires FragmentOf(p, parts[0]).Success? && BodyChildren(p, parts[0]).None?
    requires FragmentOf(p, parts[1]).Success?
    ensures ListSpec(p, parts) == Failure(MissingBaseBody)
  {
    assert parts[..1] == [parts[0]];
    SingleFragmentUnchanged(p, parts[0]);
    ListSnoc(p, parts, 1);
    FailureIsFinal(p, parts, 2);
  }

  /**
   * The first later fragment without a body makes the merge fail with an
   * error naming that fragment's template.
   */
  lemma MissingFragmentBodyReported(p: Pipeline, parts: seq<Output>, k: nat)
    requires 1 <= k < |parts|
    requires forall i :: 0 <= i < k ==> BodyChildren(p, parts[i]).Some?
    requires FragmentOf(p, parts[k]).Success? && BodyChildren(p, parts[k]).None?
    ensures ListSpec(p, parts) == Failure(MissingFragmentBody(parts[k].templateName))
  {
    var bodies := seq(k, i requires 0 <= i < k => BodyChildren(p, parts[i]).value);
    forall i | 0 <= i < k
      ensures BodyChildren(p, parts[..k][i]) == Some(bodies[i])
    {
      assert parts[..k][i] == parts[i];
    }
    MergeConcatenatesBodies(p, parts[..k], bodies);
    ListSnoc(p, parts, k);
    FailureIsFinal(p, parts, k + 1);
  }

  /**
   * A merged output among the parts makes the merge fail: it has no template
   * name, and nested merged outputs are not flattened. If every part before it
   * went through, the error is the missing template name.
   */
  lemma NestedMergedFails(p: Pipeline, parts: seq<Output>, k: nat)
    requires k < |parts| && parts[k].Merged?
    ensures ListSpec(p, parts).Failure?
    ensures ListSpec(p, parts[..k]).Success? ==> ListSpec(p, parts) == Failure(NoTemplateName)
  {
    ListSnoc(p, parts, k);
    if ListSpec(p, parts[..k]).Failure? {
      FailureIsFinal(p, parts, k);
    } else {
      FailureIsFinal(p, parts, k + 1);
    }
  }

  /** Outputs built with BasicMergedPdfOutput do not nest: a merged part fails the merge. */
  lemma MergedInsideMergedFails(p: Pipeline, name: Option<string>, pdfs: seq<Output>, k: nat)
    requires k < |pdfs| && pdfs[k].Merged?
    ensures ListSpec(p, IndividualPdfs(BasicMergedPdfOutput(name, pdfs))).Failure?
  {
    NestedMergedFails(p, pdfs, k);
  }
}
