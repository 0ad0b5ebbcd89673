/** Annotating evaluation results in place: every result of group `i` gets
    the `i`-th question, generated response and staff answer. The same loop
    ends evaluator.py and evaluate_deepeval_haystack.py. */
module Annotation {
  import opened Json

  const OriginalQuestion := "original_question"
  const LlmResponse := "llm_response"
  const StaffAnswer := "staff_answer"
  const NoStaffAnswer := "No staff answer provided"

  /** A table of evaluation results: one group per evaluated question. */
  type Groups = seq<seq<FieldMap>>

  /** How the loop ended: normally, or with an IndexError in group `group`. */
  datatype Outcome = Completed | IndexError(group: nat)

  /** `staff if staff else "No staff answer provided"` */
  function StaffOrDefault(staff: Json): (r: Json)
    ensures Truthy(r)
    ensures Truthy(staff) ==> r == staff
    ensures !Truthy(staff) ==> r == JString(NoStaffAnswer)
  {
    if Truthy(staff) then staff else JString(NoStaffAnswer)
  }

  /** One result map after its three assignments. */
  function Annotated(result: FieldMap, query: Json, response: Json, staff: Json): (r: FieldMap)
    ensures r.Keys == result.Keys + {OriginalQuestion, LlmResponse, StaffAnswer}
    ensures r[OriginalQuestion] == query && r[LlmResponse] == response && Truthy(r[StaffAnswer])
  {
    result[OriginalQuestion := query][LlmResponse := response][StaffAnswer := StaffOrDefault(staff)]
  }

  /** Group `i` can be annotated without an IndexError: it is empty (the inner
      loop never indexes), or `i` is in range of all three lists. */
  predicate GroupFits(group: seq<FieldMap>, i: nat, queries: seq<Json>, answers: seq<Json>,
                      staffAnswers: seq<Json>)
  {
    group == [] || (i < |queries| && i < |answers| && i < |staffAnswers|)
  }

  predicate Fits(groups: Groups, queries: seq<Json>, answers: seq<Json>, staffAnswers: seq<Json>) {
    forall i :: 0 <= i < |groups| ==> GroupFits(groups[i], i, queries, answers, staffAnswers)
  }

  function AnnotatedGroup(group: seq<FieldMap>, i: nat, queries: seq<Json>, answers: seq<Json>,
                          staffAnswers: seq<Json>): seq<FieldMap>
    requires GroupFits(group, i, queries, answers, staffAnswers)
  {
    seq(|group|, j requires 0 <= j < |group| => Annotated(group[j], queries[i], answers[i], staffAnswers[i]))
  }

  /** The table after a loop that completed. Groups and results keep their
      number and order; every result of group `i` holds the three annotations
      of position `i`, and every other key keeps its value. */
  function AnnotatedTable(groups: Groups, queries: seq<Json>, answers: seq<Json>,
                          staffAnswers: seq<Json>): (t: Groups)
    requires Fits(groups, queries, answers, staffAnswers)
    ensures |t| == |groups|
    ensures forall i :: 0 <= i < |t| ==> |t[i]| == |groups[i]|
    ensures forall i, j :: 0 <= i < |t| && 0 <= j < |t[i]| ==>
              && i < |queries| && i < |answers| && i < |staffAnswers|
              && t[i][j].Keys == groups[i][j].Keys + {OriginalQuestion, LlmResponse, StaffAnswer}
              && t[i][j][OriginalQuestion] == queries[i]
              && t[i][j][LlmResponse] == answers[i]
              && (Truthy(staffAnswers[i]) ==> t[i][j][StaffAnswer] == staffAnswers[i])
              && (!Truthy(staffAnswers[i]) ==> t[i][j][StaffAnswer] == JString(NoStaffAnswer))
    ensures forall i, j, key ::
              (0 <= i < |t| && 0 <= j < |t[i]| && key in groups[i][j]
               && key != OriginalQuestion && key != LlmResponse && key != StaffAnswer) ==>
              t[i][j][key] == groups[i][j][key]
  {
    seq(|groups|, i requires 0 <= i < |groups| =>
      assert GroupFits(groups[i], i, queries, answers, staffAnswers);
      AnnotatedGroup(groups[i], i, queries, answers, staffAnswers))
  }

  /** The first result of the failing group `f` when the IndexError struck:
      the assignments before the failing index expression have happened. */
  function Interrupted(result: FieldMap, f: nat, queries: seq<Json>, answers: seq<Json>): FieldMap {
    if f < |queries| && f < |answers| then result[OriginalQuestion := queries[f]][LlmResponse := answers[f]]
    else if f < |queries| then result[OriginalQuestion := queries[f]]
    else result
  }

  /** The evaluator's `results`: a list of groups of result dicts, which the
      annotation loop updates in place. */
  class EvaluationResults {
    var groups: Groups

    constructor (groups: Groups)
      ensures this.groups == groups
    {
      this.groups := groups;
    }

    /** The nested annotation loop. It completes exactly when every non-empty
        group's index is in range of the three lists; otherwise the first such
        group raises IndexError at its first result, and the table is left as
        the loop left it. */
    method Annotate(queries: seq<Json>, answers: seq<Json>, staffAnswers: seq<Json>) returns (outcome: Outcome)
      modifies this
      ensures outcome == Completed <==> Fits(old(groups), queries, answers, staffAnswers)
      ensures outcome == Completed ==> groups == AnnotatedTable(old(groups), queries, answers, staffAnswers)
      ensures outcome.IndexError? ==>
                var f := outcome.group;
                && f < |old(groups)|
                && !GroupFits(old(groups)[f], f, queries, answers, staffAnswers)
                && Fits(old(groups)[..f], queries, answers, staffAnswers)
                && groups == AnnotatedTable(old(groups)[..f], queries, answers, staffAnswers)
                             + [[Interrupted(old(groups)[f][0], f, queries, answers)] + old(groups)[f][1..]]
                             + old(groups)[f + 1..]
    {
      ghost var before := groups;
      var i := 0;
      while i < |groups|
        invariant 0 <= i <= |groups| == |before|
        invariant forall g :: 0 <= g < i ==> GroupFits(before[g], g, queries, answers, staffAnswers)
        invariant forall g :: 0 <= g < i ==>
                    groups[g] == AnnotatedGroup(before[g], g, queries, answers, staffAnswers)
        invariant forall g :: i <= g < |groups| ==> groups[g] == before[g]
      {
        var fits := AnnotateGroup(i, queries, answers, staffAnswers);
        if !fits {
          outcome := IndexError(i);
          InterruptedState(before, groups, i, queries, answers, staffAnswers);
          return;
        }
        i := i + 1;
      }
      outcome := Completed;
      assert groups == AnnotatedTable(before, queries, answers, staffAnswers);
    }

    /** The inner loop over group `i`: it annotates every result of the group,
        or raises IndexError at the group's first result when `i` is out of
        range of one of the lists. Other groups are not touched. */
    method AnnotateGroup(i: nat, queries: seq<Json>, answers: seq<Json>, staffAnswers: seq<Json>)
      returns (fits: bool)
      requires i < |groups|
      modifies this
      ensures |groups| == |old(groups)|
      ensures forall g :: 0 <= g < |groups| && g != i ==> groups[g] == old(groups)[g]
      ensures fits <==> GroupFits(old(groups)[i], i, queries, answers, staffAnswers)
      ensures fits ==> groups[i] == AnnotatedGroup(old(groups)[i], i, queries, answers, staffAnswers)
      ensures !fits ==> groups[i] == [Interrupted(old(groups)[i][0], i, queries, answers)] + old(groups)[i][1..]
    {
      ghost var group := groups[i];
      var j := 0;
      while j < |groups[i]|
        invariant |groups| == |old(groups)| && i < |groups|
        invariant 0 <= j <= |groups[i]| == |group|
        invariant j > 0 ==> GroupFits(group, i, queries, answers, staffAnswers)
        invariant forall k :: 0 <= k < j ==>
                    groups[i][k] == Annotated(group[k], queries[i], answers[i], staffAnswers[i])
        invariant forall k :: j <= k < |groups[i]| ==> groups[i][k] == group[k]
        invariant forall g :: 0 <= g < |groups| && g != i ==> groups[g] == old(groups)[g]
      {
        if i >= |queries| {
          assert groups[i] == [Interrupted(group[0], i, queries, answers)] + group[1..];
          return false;
        }
        groups := groups[i := groups[i][j := groups[i][j][OriginalQuestion := queries[i]]]];
        if i >= |answers| {
          assert groups[i] == [Interrupted(group[0], i, queries, answers)] + group[1..];
          return false;
        }
        groups := groups[i := groups[i][j := groups[i][j][LlmResponse := answers[i]]]];
        if i >= |staffAnswers| {
          assert groups[i] == [Interrupted(group[0], i, queries, answers)] + group[1..];
          return false;
        }
        groups := groups[i := groups[i][j := groups[i][j][StaffAnswer := StaffOrDefault(staffAnswers[i])]]];
        j := j + 1;
      }
      assert groups[i] == AnnotatedGroup(group, i, queries, answers, staffAnswers);
      return true;
    }
  }

  /** The table at an IndexError in group `f`, as a sequence equation. */
  lemma InterruptedState(before: Groups, now: Groups, f: nat, queries: seq<Json>, answers: seq<Json>,
                         staffAnswers: seq<Json>)
    requires f < |before| == |now| && before[f] != []
    requires forall g :: 0 <= g < f ==> GroupFits(before[g], g, queries, answers, staffAnswers)
    requires forall g :: 0 <= g < f ==> now[g] == AnnotatedGroup(before[g], g, queries, answers, staffAnswers)
    requires forall g :: f < g < |now| ==> now[g] == before[g]
    requires now[f] == [Interrupted(before[f][0], f, queries, answers)] + before[f][1..]
    ensures Fits(before[..f], queries, answers, staffAnswers)
    ensures now == AnnotatedTable(before[..f], queries, answers, staffAnswers)
                   + [[Interrupted(before[f][0], f, queries, answers)] + before[f][1..]]
                   + before[f + 1..]
  {
  }

  /** Running the loop again on an annotated table changes nothing: the three
      keys are overwritten with the values they already hold. */
  lemma AnnotationIdempotent(groups: Groups, queries: seq<Json>, answers: seq<Json>, staffAnswers: seq<Json>)
    requires Fits(groups, queries, answers, staffAnswers)
    ensures Fits(AnnotatedTable(groups, queries, answers, staffAnswers), queries, answers, staffAnswers)
    ensures AnnotatedTable(AnnotatedTable(groups, queries, answers, staffAnswers), queries, answers, staffAnswers)
            == AnnotatedTable(groups, queries, answers, staffAnswers)
  {
    var t := AnnotatedTable(groups, queries, answers, staffAnswers);
    assert Fits(t, queries, answers, staffAnswers) by {
      forall i | 0 <= i < |t| ensures GroupFits(t[i], i, queries, answers, staffAnswers) {
        assert GroupFits(groups[i], i, queries, answers, staffAnswers);
      }
    }
    var tt := AnnotatedTable(t, queries, answers, staffAnswers);
    forall i, j | 0 <= i < |t| && 0 <= j < |t[i]| ensures tt[i][j] == t[i][j] {
      var r := t[i][j];
      var staff := StaffOrDefault(staffAnswers[i]);
      assert r == Annotated(groups[i][j], queries[i], answers[i], staffAnswers[i]);
      assert tt[i][j] == Annotated(r, queries[i], answers[i], staffAnswers[i]);
      assert tt[i][j].Keys == r.Keys;
    }
    forall i | 0 <= i < |t| ensures tt[i] == t[i] {
    }
  }

  /** When there are no more groups than queries, responses and staff
      answers, the loop cannot raise. */
  lemma FitsWhenGroupsWithinLengths(groups: Groups, queries: seq<Json>, answers: seq<Json>,
                                     staffAnswers: seq<Json>)
    requires |groups| <= |queries| && |groups| <= |answers| && |groups| <= |staffAnswers|
    ensures Fits(groups, queries, answers, staffAnswers)
  {
  }

  /** For staff answers that are strings, the fallback text is written
      exactly when the staff answer is empty (unless the staff answer is that
      very text). */
  lemma StaffFallbackExactlyWhenEmpty(groups: Groups, queries: seq<Json>, answers: seq<Json>,
                                      staffAnswers: seq<Json>, i: nat, j: nat, text: string)
    requires Fits(groups, queries, answers, staffAnswers)
    requires i < |groups| && j < |groups[i]|
    requires i < |staffAnswers| && staffAnswers[i] == JString(text) && text != NoStaffAnswer
    ensures var t := AnnotatedTable(groups, queries, answers, staffAnswers);
            (t[i][j][StaffAnswer] == JString(NoStaffAnswer) <==> text == "")
            && (text != "" ==> t[i][j][StaffAnswer] == JString(text))
  {
  }
}
