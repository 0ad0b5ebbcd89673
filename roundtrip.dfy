/** Serializing pipeline results and reading the records back. The file in
    between is modelled by `Dump`: `json.dump` followed by `json.load` gives
    back the same list of objects. */
module RoundTrip {
  import opened Json
  import opened Serialize
  import opened ReadBack

  /** The JSON array that `json.dump` writes for a list of records. */
  function Dump(records: seq<FieldMap>): Json {
    JArray(Objects(records))
  }

  /** A record written for an answer reads back as that answer's query, its
      generated text, and the contents of its documents. */
  lemma RecordReadsBack(answer: Answer)
    ensures ReadEntry(JObject(Record(answer))) ==
            Ok(Row(Get(answer.fields, "query", JString("")),
                   if "documents" in answer.fields then Contents(answer.documents) else [],
                   Get(answer.fields, "data", JString(""))))
  {
    ContentsOfObjects(answer.documents);
  }

  /** Reading what serialization produced gives, at every position `k`, the
      query, the generated text and the document contents of the `k`-th
      flattened answer, and never raises. */
  lemma RoundTrip(results: seq<PipelineResult>, records: seq<FieldMap>)
    requires |records| == |Flatten(results)|
    requires forall k :: 0 <= k < |records| ==> records[k] == Record(Flatten(results)[k])
    ensures ReadSerialized(Dump(records)).Ok?
    ensures var c := ReadSerialized(Dump(records)).value;
            var answers := Flatten(results);
            && |c.queries| == |c.documents| == |c.answers| == |answers|
            && forall k :: 0 <= k < |answers| ==>
                 && c.queries[k] == Get(answers[k].fields, "query", JString(""))
                 && c.answers[k] == Get(answers[k].fields, "data", JString(""))
                 && c.documents[k] == (if "documents" in answers[k].fields
                                       then Contents(answers[k].documents) else [])
  {
    var entries := Objects(records);
    forall k | 0 <= k < |entries|
      ensures ReadEntry(entries[k]).Ok?
      ensures ReadEntry(entries[k]).value.query == Get(Flatten(results)[k].fields, "query", JString(""))
      ensures ReadEntry(entries[k]).value.answer == Get(Flatten(results)[k].fields, "data", JString(""))
      ensures ReadEntry(entries[k]).value.documents ==
                (if "documents" in Flatten(results)[k].fields then Contents(Flatten(results)[k].documents) else [])
    {
      RecordReadsBack(Flatten(results)[k]);
    }
    ReadRowsAt(entries);
  }
}
