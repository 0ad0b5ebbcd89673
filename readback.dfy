/** Reading serialized answer records back into three parallel columns
    (`read_serialized_data` in utils.py). The model starts from the JSON value
    `json.load` returned; opening and parsing the file are not modelled.
    Python's duck typing on that value is modelled exactly, including the
    exceptions it raises on values of an unexpected type. */
module ReadBack {
  import opened Json

  /** The exceptions the reading loop can raise on an unexpected JSON shape. */
  datatype ReadError =
    | NotIterable       // TypeError: iterating a number, a boolean or null
    | NoGetMethod       // AttributeError: an entry that is not a dict has no `get`
    | NoMembershipTest  // TypeError: `"content" in doc` on a number, a boolean or null
    | NotSubscriptable  // TypeError: `doc["content"]` on a str or a list

  datatype Result<T> = Ok(value: T) | Err(error: ReadError)

  /** The three lists `read_serialized_data` returns. */
  datatype Columns = Columns(queries: seq<Json>, documents: seq<seq<Json>>, answers: seq<Json>)

  /** What one entry contributes to each of the three lists. */
  datatype Row = Row(query: Json, documents: seq<Json>, answer: Json)

  const NoColumns := Columns([], [], [])

  /** One step of the comprehension `[doc["content"] for doc in docs if "content" in doc]`:
      the list `doc` adds, or the exception it raises. */
  function PickContent(doc: Json): (r: Result<seq<Json>>)
    ensures doc.JObject? ==> r.Ok?
    ensures r.Ok? ==> |r.value| <= 1
    ensures r.Ok? && r.value != [] ==> doc.JObject? && "content" in doc.fields && r.value == [doc.fields["content"]]
    ensures (doc.JNull? || doc.JBool? || doc.JNumber?) ==> r == Err(NoMembershipTest)
  {
    match doc
    case JObject(fields) => Ok(if "content" in fields then [fields["content"]] else [])
    // list membership compares elements; a list holding "content" passes and cannot be indexed by a str
    case JArray(items) => if JString("content") in items then Err(NotSubscriptable) else Ok([])
    // str membership is a substring test; a str that passes cannot be indexed by a str
    case JString(s) => if Contains(s, "content") then Err(NotSubscriptable) else Ok([])
    case _ => Err(NoMembershipTest)
  }

  /** The comprehension over a list of documents, left to right: the first
      exception wins. */
  function ContentsOf(docs: seq<Json>): (r: Result<seq<Json>>)
    ensures (forall i :: 0 <= i < |docs| ==> docs[i].JObject?) ==> r.Ok?
    ensures r.Ok? ==> |r.value| <= |docs|
    ensures r.Ok? && (forall i :: 0 <= i < |docs| ==> !(docs[i].JObject? && "content" in docs[i].fields)) ==>
              r.value == []
    decreases |docs|
  {
    if docs == [] then Ok([])
    else
      assert forall i :: 0 <= i < |docs| - 1 ==> docs[..|docs| - 1][i] == docs[i];
      match ContentsOf(docs[..|docs| - 1])
      case Err(e) => Err(e)
      case Ok(prefix) =>
        match PickContent(docs[|docs| - 1])
        case Err(e) => Err(e)
        case Ok(picked) => Ok(prefix + picked)
  }

  /** The comprehension over whatever `entry.get("documents", [])` returned. */
  function DocumentContents(v: Json): (r: Result<seq<Json>>)
    ensures (v.JNull? || v.JBool? || v.JNumber?) ==> r == Err(NotIterable)
    ensures (v.JString? || v.JObject?) && r.Ok? ==> r.value == []
    ensures v.JString? ==> r.Ok?
    ensures v.JObject? ==> (r.Ok? <==> forall key :: key in v.fields ==> !Contains(key, "content"))
  {
    match v
    case JArray(docs) => ContentsOf(docs)
    // iterating a dict yields its keys; a key containing "content" passes the test and cannot be indexed
    case JObject(fields) =>
      if exists key :: key in fields && Contains(key, "content") then Err(NotSubscriptable) else Ok([])
    // iterating a str yields one-character strs, none of which contains "content"
    case JString(_) => Ok([])
    case _ => Err(NotIterable)
  }

  /** One iteration of the reading loop. */
  function ReadEntry(entry: Json): (r: Result<Row>)
    ensures !entry.JObject? ==> r == Err(NoGetMethod)
    ensures entry.JObject? && "query" in entry.fields && r.Ok? ==> r.value.query == entry.fields["query"]
    ensures entry.JObject? && "query" !in entry.fields && r.Ok? ==> r.value.query == JString("")
    ensures entry.JObject? && "data" in entry.fields && r.Ok? ==> r.value.answer == entry.fields["data"]
    ensures entry.JObject? && "data" !in entry.fields && r.Ok? ==> r.value.answer == JString("")
    ensures entry.JObject? && "documents" !in entry.fields ==> r.Ok? && r.value.documents == []
  {
    match entry
    case JObject(fields) =>
      (match DocumentContents(Get(fields, "documents", JArray([])))
       case Err(e) => Err(e)
       case Ok(docs) => Ok(Row(Get(fields, "query", JString("")), docs, Get(fields, "data", JString("")))))
    case _ => Err(NoGetMethod)
  }

  /** The reading loop over a list of entries; the first exception wins. */
  function ReadRows(entries: seq<Json>): (r: Result<Columns>)
    ensures r.Ok? ==> |r.value.queries| == |entries| && |r.value.documents| == |entries|
                      && |r.value.answers| == |entries|
    decreases |entries|
  {
    if entries == [] then Ok(NoColumns)
    else
      match ReadRows(entries[..|entries| - 1])
      case Err(e) => Err(e)
      case Ok(c) =>
        match ReadEntry(entries[|entries| - 1])
        case Err(e) => Err(e)
        case Ok(row) => Ok(Columns(c.queries + [row.query], c.documents + [row.documents], c.answers + [row.answer]))
  }

  /** `read_serialized_data` on the loaded JSON value. Iterating a dict or a
      str yields strs, which have no `get`; an empty one yields nothing. */
  function ReadSerialized(data: Json): (r: Result<Columns>)
    ensures r.Ok? ==> |r.value.queries| == |r.value.documents| == |r.value.answers|
    ensures !data.JArray? && r.Ok? ==> r.value == NoColumns
    ensures (data.JNull? || data.JBool? || data.JNumber?) ==> r == Err(NotIterable)
  {
    match data
    case JArray(entries) => ReadRows(entries)
    case JObject(fields) => if |fields| == 0 then Ok(NoColumns) else Err(NoGetMethod)
    case JString(s) => if s == "" then Ok(NoColumns) else Err(NoGetMethod)
    case _ => Err(NotIterable)
  }

  /** Once an entry has raised, later entries change nothing. */
  lemma {:induction false} ReadRowsErrorSticks(xs: seq<Json>, ys: seq<Json>)
    requires ReadRows(xs).Err?
    ensures ReadRows(xs + ys) == ReadRows(xs)
    decreases |ys|
  {
    if ys == [] {
      assert xs + ys == xs;
    } else {
      var n := |ys| - 1;
      assert (xs + ys)[..|xs + ys| - 1] == xs + ys[..n];
      ReadRowsErrorSticks(xs, ys[..n]);
    }
  }

  /** The loop of `read_serialized_data`, appending to three lists. */
  method ReadSerializedData(data: Json) returns (r: Result<Columns>)
    ensures r == ReadSerialized(data)
  {
    if !data.JArray? {
      match data {
        case JObject(fields) => r := if |fields| == 0 then Ok(NoColumns) else Err(NoGetMethod);
        case JString(s) => r := if s == "" then Ok(NoColumns) else Err(NoGetMethod);
        case _ => r := Err(NotIterable);
      }
      return;
    }
    var entries := data.items;
    var queries: seq<Json> := [];
    var documents: seq<seq<Json>> := [];
    var answers: seq<Json> := [];
    for k := 0 to |entries|
      invariant ReadRows(entries[..k]) == Ok(Columns(queries, documents, answers))
    {
      assert entries[..k + 1][..k] == entries[..k];
      if !entries[k].JObject? {
        ReadRowsErrorSticks(entries[..k + 1], entries[k + 1..]);
        assert entries[..k + 1] + entries[k + 1..] == entries;
        return Err(NoGetMethod);
      }
      var entry := entries[k].fields;
      var query := Get(entry, "query", JString(""));
      queries := queries + [query];
      var docs := DocumentContents(Get(entry, "documents", JArray([])));
      if docs.Err? {
        ReadRowsErrorSticks(entries[..k + 1], entries[k + 1..]);
        assert entries[..k + 1] + entries[k + 1..] == entries;
        return Err(docs.error);
      }
      documents := documents + [docs.value];
      var answerData := Get(entry, "data", JString(""));
      answers := answers + [answerData];
    }
    assert entries[..|entries|] == entries;
    r := Ok(Columns(queries, documents, answers));
  }

  /** The read succeeds exactly when every entry reads, and then position `k`
      of each list is what entry `k` gives. */
  lemma {:induction false} ReadRowsAt(entries: seq<Json>)
    ensures ReadRows(entries).Ok? <==> forall k :: 0 <= k < |entries| ==> ReadEntry(entries[k]).Ok?
    ensures ReadRows(entries).Ok? ==>
              forall k :: 0 <= k < |entries| ==>
                && ReadRows(entries).value.queries[k] == ReadEntry(entries[k]).value.query
                && ReadRows(entries).value.documents[k] == ReadEntry(entries[k]).value.documents
                && ReadRows(entries).value.answers[k] == ReadEntry(entries[k]).value.answer
    decreases |entries|
  {
    if entries != [] {
      var n := |entries| - 1;
      var prefix := entries[..n];
      ReadRowsAt(prefix);
      if ReadRows(prefix).Err? {
        var k :| 0 <= k < n && ReadEntry(prefix[k]).Err?;
        assert ReadEntry(entries[k]).Err?;
      } else if ReadEntry(entries[n]).Ok? {
        var c, row := ReadRows(prefix).value, ReadEntry(entries[n]).value;
        var r := ReadRows(entries).value;
        assert r == Columns(c.queries + [row.query], c.documents + [row.documents], c.answers + [row.answer]);
        forall k | 0 <= k < |entries|
          ensures ReadEntry(entries[k]).Ok?
          ensures r.queries[k] == ReadEntry(entries[k]).value.query
          ensures r.documents[k] == ReadEntry(entries[k]).value.documents
          ensures r.answers[k] == ReadEntry(entries[k]).value.answer
        {
          if k < n {
            assert prefix[k] == entries[k];
          }
        }
      }
    }
  }

  /** When the read fails, it fails with the exception of the first entry
      that cannot be read. */
  lemma {:induction false} ReadRowsFirstError(entries: seq<Json>)
    requires ReadRows(entries).Err?
    ensures exists k :: 0 <= k < |entries| && ReadEntry(entries[k]).Err?
                        && ReadRows(entries).error == ReadEntry(entries[k]).error
                        && forall k' :: 0 <= k' < k ==> ReadEntry(entries[k']).Ok?
    decreases |entries|
  {
    var n := |entries| - 1;
    assert forall k :: 0 <= k < n ==> entries[..n][k] == entries[k];
    if ReadRows(entries[..n]).Err? {
      ReadRowsFirstError(entries[..n]);
    } else {
      ReadRowsAt(entries[..n]);
      assert ReadEntry(entries[n]).Err?;
    }
  }

  /** A missing `query`, `data` or `documents` key yields "", "" or [] at that
      position rather than an exception. */
  lemma MissingFieldsDefault(entries: seq<Json>, k: nat)
    requires ReadRows(entries).Ok? && k < |entries| && entries[k].JObject?
    ensures "query" !in entries[k].fields ==> ReadRows(entries).value.queries[k] == JString("")
    ensures "data" !in entries[k].fields ==> ReadRows(entries).value.answers[k] == JString("")
    ensures "documents" !in entries[k].fields ==> ReadRows(entries).value.documents[k] == []
  {
    ReadRowsAt(entries);
  }

  /** The positions of the documents that have a `content` key, in order. */
  function ContentIndices(docs: seq<FieldMap>): (idx: seq<nat>)
    ensures forall j :: 0 <= j < |idx| ==> idx[j] < |docs| && "content" in docs[idx[j]]
    ensures forall j, j' :: 0 <= j < j' < |idx| ==> idx[j] < idx[j']
    ensures forall i :: 0 <= i < |docs| && "content" in docs[i] ==> i in idx
    decreases |docs|
  {
    if docs == [] then []
    else
      var n := |docs| - 1;
      ContentIndices(docs[..n]) + (if "content" in docs[n] then [n] else [])
  }

  /** The `content` values of exactly the documents that have one, in order. */
  function Contents(docs: seq<FieldMap>): seq<Json> {
    var idx := ContentIndices(docs);
    seq(|idx|, j requires 0 <= j < |idx| => docs[idx[j]]["content"])
  }

  /** On a list of document objects the comprehension never raises, and keeps
      the `content` of exactly the documents that have one, in order. */
  lemma {:induction false} ContentsOfObjects(docs: seq<FieldMap>)
    ensures ContentsOf(Objects(docs)) == Ok(Contents(docs))
    decreases |docs|
  {
    if docs != [] {
      var n := |docs| - 1;
      assert Objects(docs)[..n] == Objects(docs[..n]);
      ContentsOfObjects(docs[..n]);
      var items := Objects(docs);
      var tail: seq<Json> := if "content" in docs[n] then [docs[n]["content"]] else [];
      assert items[..|items| - 1] == Objects(docs[..n]);
      assert PickContent(items[|items| - 1]) == Ok(tail);
      assert ContentsOf(items) == Ok(Contents(docs[..n]) + tail);
      ContentsSnoc(docs);
    } else {
      assert Objects(docs) == [];
      assert ContentIndices(docs) == [];
      assert Contents(docs) == [];
    }
  }

  /** `Contents` of a non-empty list: that of all but the last document,
      followed by the last document's `content` when it has one. */
  lemma ContentsSnoc(docs: seq<FieldMap>)
    requires docs != []
    ensures var n := |docs| - 1;
            Contents(docs) == Contents(docs[..n]) + (if "content" in docs[n] then [docs[n]["content"]] else [])
  {
    var n := |docs| - 1;
    var idx := ContentIndices(docs[..n]);
    var tail: seq<Json> := if "content" in docs[n] then [docs[n]["content"]] else [];
    assert ContentIndices(docs) == idx + (if "content" in docs[n] then [n] else []);
    var whole := Contents(docs);
    var front := Contents(docs[..n]);
    assert |whole| == |front| + |tail|;
    forall j | 0 <= j < |whole| ensures whole[j] == (front + tail)[j] {
      if j < |idx| {
        assert docs[..n][idx[j]] == docs[idx[j]];
      }
    }
  }
}
