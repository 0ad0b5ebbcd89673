/** Flattening a list of RAG pipeline outputs into one record per generated
    answer (`serialize_pipeline_results` in utils.py). Writing the records to
    a file is not part of this model: the records are returned instead. */
module Serialize {
  import opened Json

  /** A Haystack answer: `fields` is what `dataclasses.asdict(answer)` gives,
      `documents` is the answer's `documents` attribute, each document already
      rendered as its field map. */
  datatype Answer = Answer(fields: FieldMap, documents: seq<FieldMap>)

  /** One pipeline run's output: component name, then output name, to value.
      Only the answer lists matter here. */
  type PipelineResult = map<string, map<string, seq<Answer>>>

  /** `result.get("answer_builder", {}).get("answers", [])` */
  function AnswersOf(result: PipelineResult): (answers: seq<Answer>)
    ensures answers != [] ==>
              && "answer_builder" in result && "answers" in result["answer_builder"]
              && answers == result["answer_builder"]["answers"]
    ensures "answer_builder" !in result || "answers" !in result["answer_builder"] ==> answers == []
  {
    if "answer_builder" in result && "answers" in result["answer_builder"]
    then result["answer_builder"]["answers"]
    else []
  }

  /** All answers of all results: result order, then answer order. */
  function Flatten(results: seq<PipelineResult>): (answers: seq<Answer>)
    ensures results == [] ==> answers == []
    ensures |results| == 1 ==> answers == AnswersOf(results[0])
    decreases |results|
  {
    if results == [] then []
    else
      var n := |results| - 1;
      Flatten(results[..n]) + AnswersOf(results[n])
  }

  /** The record written for one answer: its field map, with the `documents`
      entry (when there is one) replaced by the documents' field maps. */
  function Record(answer: Answer): (r: FieldMap)
    ensures r.Keys == answer.fields.Keys
    ensures forall key :: key in r && key != "documents" ==> r[key] == answer.fields[key]
    ensures "documents" in r ==>
              && r["documents"].JArray?
              && |r["documents"].items| == |answer.documents|
              && forall i :: 0 <= i < |answer.documents| ==>
                   r["documents"].items[i] == JObject(answer.documents[i])
  {
    if "documents" in answer.fields
    then answer.fields["documents" := JArray(Objects(answer.documents))]
    else answer.fields
  }

  /** The loop of `serialize_pipeline_results`: one record per answer, in
      flattened order. */
  method SerializePipelineResults(results: seq<PipelineResult>) returns (records: seq<FieldMap>)
    ensures |records| == |Flatten(results)|
    ensures forall k :: 0 <= k < |records| ==> records[k] == Record(Flatten(results)[k])
  {
    records := [];
    for i := 0 to |results|
      invariant |records| == |Flatten(results[..i])|
      invariant forall k :: 0 <= k < |records| ==> records[k] == Record(Flatten(results[..i])[k])
    {
      var answers := AnswersOf(results[i]);
      assert Flatten(results[..i + 1]) == Flatten(results[..i]) + answers by {
        assert results[..i + 1][..i] == results[..i];
      }
      for j := 0 to |answers|
        invariant |records| == |Flatten(results[..i])| + j
        invariant forall k :: 0 <= k < |records| ==>
                    records[k] == Record((Flatten(results[..i]) + answers[..j])[k])
      {
        var answerDict := answers[j].fields;
        if "documents" in answerDict {
          answerDict := answerDict["documents" := JArray(Objects(answers[j].documents))];
        }
        records := records + [answerDict];
      }
      assert answers[..|answers|] == answers;
    }
    assert results[..|results|] == results;
  }

  /** Flattening distributes over concatenation of result lists. */
  lemma {:induction false} FlattenAppend(xs: seq<PipelineResult>, ys: seq<PipelineResult>)
    ensures Flatten(xs + ys) == Flatten(xs) + Flatten(ys)
    decreases |ys|
  {
    if ys == [] {
      assert xs + ys == xs;
    } else {
      var n := |ys| - 1;
      calc {
        Flatten(xs + ys);
        { assert (xs + ys)[..|xs + ys| - 1] == xs + ys[..n]; }
        Flatten(xs + ys[..n]) + AnswersOf(ys[n]);
        { FlattenAppend(xs, ys[..n]); }
        Flatten(xs) + Flatten(ys[..n]) + AnswersOf(ys[n]);
      }
    }
  }

  /** Answer `j` of result `i` sits in the flattened list right after the
      answers of results `0 .. i-1`. */
  lemma {:induction false} FlattenAt(results: seq<PipelineResult>, i: nat, j: nat)
    requires i < |results| && j < |AnswersOf(results[i])|
    ensures |Flatten(results[..i])| + j < |Flatten(results)|
    ensures Flatten(results)[|Flatten(results[..i])| + j] == AnswersOf(results[i])[j]
    decreases |results|
  {
    var n := |results| - 1;
    var prefix := results[..n];
    assert Flatten(results) == Flatten(prefix) + AnswersOf(results[n]);
    if i < n {
      FlattenAt(prefix, i, j);
      assert prefix[..i] == results[..i];
      assert prefix[i] == results[i];
    } else {
      assert results[..i] == prefix;
    }
  }

  /** Conversely, every flattened answer is answer `j` of some result `i`. */
  lemma {:induction false} FlattenFrom(results: seq<PipelineResult>, k: nat)
    requires k < |Flatten(results)|
    ensures exists i: nat, j: nat :: i < |results| && j < |AnswersOf(results[i])| &&
              k == |Flatten(results[..i])| + j && Flatten(results)[k] == AnswersOf(results[i])[j]
    decreases |results|
  {
    var n := |results| - 1;
    var prefix := Flatten(results[..n]);
    assert results[..n][..n] == results[..n];
    if k < |prefix| {
      FlattenFrom(results[..n], k);
      var i: nat, j: nat :| i < n && j < |AnswersOf(results[..n][i])| &&
        k == |Flatten(results[..n][..i])| + j && prefix[k] == AnswersOf(results[..n][i])[j];
      assert results[..n][..i] == results[..i];
      assert Flatten(results)[k] == AnswersOf(results[i])[j];
    } else {
      assert Flatten(results)[k] == AnswersOf(results[n])[k - |prefix|];
    }
  }

  /** A result without an `answer_builder` output, or whose `answer_builder`
      output has no `answers`, contributes no record. */
  lemma ResultWithoutAnswersAddsNothing(before: seq<PipelineResult>, result: PipelineResult,
                                         after: seq<PipelineResult>)
    requires "answer_builder" !in result || "answers" !in result["answer_builder"]
    ensures Flatten(before + [result] + after) == Flatten(before + after)
  {
    assert AnswersOf(result) == [];
    assert Flatten([result]) == [] by {
      assert [result][..0] == [];
    }
    FlattenAppend(before + [result], after);
    FlattenAppend(before, [result]);
    FlattenAppend(before, after);
  }
}
