# Answer serialization and result annotation of a Haystack RAG evaluation workflow

The repository runs a retrieval-augmented-generation pipeline built with
Haystack over course documents. It scores the generated answers with LLM-graded
evaluators. Almost all of it is pipeline wiring around third-party components.
This project models the repository's own data-handling logic:

- **Answer flattening** (`serialize_pipeline_results` in `utils.py`). The
  function walks a list of pipeline outputs. It takes each output's
  `answer_builder.answers` and turns each answer into a field map, in which the
  `documents` entry becomes a list of document field maps. The result is one
  flat record per answer. Module `Serialize`.
- **Read-back** (`read_serialized_data` in `utils.py`). The function takes the
  loaded record list and builds three parallel lists: queries (default `""`);
  the `content` values of the documents that have one; generated answer texts
  (`data`, default `""`). Module `ReadBack` models this, including what
  Python's duck typing does with values of an unexpected type (a non-dict
  entry, a `documents` value that is a string, a dict or `null`, a document
  that is a string or a list). Each such case ends in the same value or the
  same exception as in Python.
- **Round trip** (module `RoundTrip`). Reading back what flattening produced
  gives, position by position, each flattened answer's `query`, `data` and
  document contents. It never raises, provided the file comes back as it was
  written: `utils.py` writes it as UTF-8 but reads it in the platform's default
  encoding, so this holds when that default is UTF-8 or the data is ASCII.
- **Result annotation** (the nested loop at the end of `evaluator.py`, repeated
  verbatim in `evaluate_deepeval_haystack.py`). Every result dict of group `i`
  gets `original_question`, `llm_response` and `staff_answer` for position
  `i`. An empty (falsy) staff answer is replaced by
  `"No staff answer provided"`. Module `Annotation` models the results list as
  a class whose field the loop updates. The model covers the loop's
  `IndexError` when a non-empty group has no matching entry, together with the
  partly annotated state the exception leaves.

JSON values are modelled by the datatype `Json.Json`. `dict.get` with a
default, Python truthiness and the substring test `p in s` are written out in
module `Json`.

Other scripts import `serialize_generated_answer` and
`read_serialized_generated_answer` from `utils` and `utils.serializing`. Their
source is not part of this model, so they are not modelled. The model follows
`utils.py` as written.

## Model

| member | source | states |
|---|---|---|
| `Serialize.AnswersOf` | utils.py:8 | a non-empty answer list is exactly the `answers` output of the `answer_builder` component; a result missing either key yields no answers |
| `Serialize.Flatten` | utils.py:7-10 | no results flatten to no answers; a single result flattens to exactly its own answer list |
| `Serialize.Record` | utils.py:11-14 | a record has exactly the answer's keys; every key other than `documents` keeps its value; `documents`, when present, becomes an array of the answer's document field maps of the same length and order |
| `Serialize.SerializePipelineResults` | utils.py:5-14 | the loop emits exactly one record per answer, in flattened order (result order, then answer order), record `k` being the record of the `k`-th flattened answer |
| `Serialize.FlattenAppend` | utils.py:7-14 | flattening the concatenation of two result lists concatenates their flattened answers |
| `Serialize.FlattenAt` | utils.py:7-10 | answer `j` of result `i` is at position (number of answers of results before `i`) + `j` of the flattened list |
| `Serialize.FlattenFrom` | utils.py:7-10 | every flattened position holds answer `j` of some result `i`, at that same position |
| `Serialize.ResultWithoutAnswersAddsNothing` | utils.py:8 | a result with no `answer_builder` output, or no `answers` under it, contributes no record and raises nothing |
| `ReadBack.PickContent` | utils.py:31-33 | one document contributes at most one value: a dict never raises and contributes its `content` exactly when it has that key; a number, boolean or `null` raises `TypeError` on the membership test |
| `ReadBack.ContentsOf` | utils.py:31-33 | the comprehension over a list never yields more values than there are documents; on a list of dicts it never raises; when it does not raise and no document is a dict with `content`, it yields nothing |
| `ReadBack.DocumentContents` | utils.py:31-33 | a `documents` value that is a number, boolean or `null` raises `TypeError` (not iterable); a string yields nothing; a dict yields nothing and raises exactly when one of its keys contains `content` |
| `ReadBack.ReadEntry` | utils.py:28-37 | an entry that is not a dict raises `AttributeError` (no `get`); when a dict reads, its row holds its `query` and `data` values, `""` for a missing one; and an entry without `documents` always reads, with no contents |
| `ReadBack.ReadSerialized` | utils.py:25-38 | a successful read returns three lists of equal length; a loaded value that is not a list reads as three empty lists when it reads at all; a number, boolean or `null` raises `TypeError` (not iterable) |
| `ReadBack.ReadRows` | utils.py:27-37 | a successful read returns three lists whose lengths all equal the number of entries |
| `ReadBack.ReadSerializedData` | utils.py:20-38 | the appending loop returns what the read specification gives for the loaded value, both the three lists and the exception raised on an unexpected shape |
| `ReadBack.ReadRowsErrorSticks` | utils.py:27-37 | once an entry raises, later entries do not change the outcome |
| `ReadBack.ReadRowsAt` | utils.py:27-37 | the read succeeds exactly when every entry reads, and position `k` of each list is entry `k`'s query, document contents and answer text |
| `ReadBack.ReadRowsFirstError` | utils.py:27-37 | a failed read fails with the exception of the first entry that cannot be read |
| `ReadBack.MissingFieldsDefault` | utils.py:28-36 | an entry missing `query`, `data` or `documents` yields `""`, `""` or `[]` at its position instead of an exception |
| `ReadBack.ContentIndices` | utils.py:31-33 | the kept positions are strictly increasing and are exactly the documents that have a `content` key |
| `ReadBack.ContentsOfObjects` | utils.py:31-34 | on a list of document objects the comprehension never raises and yields the `content` of exactly the documents that have one, in their original order |
| `RoundTrip.RecordReadsBack` | utils.py:10-37 | the record written for an answer reads back as the answer's `query` and `data` (default `""`) and its documents' contents (`[]` without a `documents` field) |
| `RoundTrip.RoundTrip` | utils.py:5-38 | reading the serialized records, loaded back as written (`Dump`), never raises and gives, at every index `k`, the query, generated text and document contents of the `k`-th flattened answer |
| `Annotation.StaffOrDefault` | evaluator.py:49-51 | the written staff answer is always truthy: the staff answer itself when truthy, `"No staff answer provided"` otherwise |
| `Annotation.Annotated` | evaluator.py:47-51 | one result dict after the three assignments: its keys are the old keys plus `original_question`, `llm_response` and `staff_answer`, which hold the question, the response and a truthy staff answer |
| `Annotation.AnnotatedTable` | evaluate_deepeval_haystack.py:91-97 | after the loop the group count and each group's result count are unchanged; each result of group `i` has `original_question == queries[i]`, `llm_response == answers[i]`, `staff_answer` equal to `staff_answers[i]` when truthy and to `"No staff answer provided"` otherwise; every other key keeps its value |
| `Annotation.EvaluationResults.Annotate` | evaluator.py:45-51 | the in-place loop completes exactly when every non-empty group's index is within all three lists, and then leaves the annotated table; otherwise it raises `IndexError` at the first such group, after annotating the earlier groups and making the assignments that precede the failing index in that group's first result |
| `Annotation.EvaluationResults.AnnotateGroup` | evaluator.py:46-51 | the inner loop over group `i` annotates every result of the group exactly when the group is empty or `i` is within all three lists; otherwise it raises at the group's first result after the assignments before the failing index; other groups are untouched |
| `Annotation.AnnotationIdempotent` | evaluator.py:45-51 | annotating an already annotated table with the same lists changes nothing |
| `Annotation.FitsWhenGroupsWithinLengths` | evaluator.py:45-49 | a group count at most the lengths of `queries`, `answers` and `staff_answers` guarantees the loop does not raise |
| `Annotation.StaffFallbackExactlyWhenEmpty` | evaluate_deepeval_haystack.py:95-97 | for a string staff answer, the fallback text is written exactly when it is empty, and the staff answer itself otherwise |

## Left out

- File I/O: opening `serialized_data.json`, `json.dump` and `json.load`. Flattening returns its records. Reading starts from the loaded JSON value. `RoundTrip.Dump` stands for a dump followed by a load, taken to give back the same list of objects. Parse errors and a missing file are therefore not modelled. The file is written as UTF-8 (utils.py:16) but read in the platform's default encoding (utils.py:25). `RoundTrip.Dump` is therefore faithful only when that default is UTF-8 or the data is ASCII; otherwise the load can raise `UnicodeDecodeError` or give back different strings.
- `dataclasses.asdict`: an answer is given as the field map `asdict` returns plus its `documents` attribute, each document as its field map.
- Field values that are not JSON (a document's embedding array, dataframe or binary blob): `json.dump` would raise on them. The model types every field as a JSON value.
- Pipeline outputs other than answer lists: a pipeline result is typed as component name to output name to a list of answers, so an `answer_builder.answers` value that is not a list of answers cannot occur.
- Floating point: JSON integers and floats are one real-valued number case; NaN and infinities are not modelled.
- Aliasing of result dicts: the annotation loop's groups are values, so a dict object that appears twice in the results list is modelled as two independent maps.
- The lookup `evaluation_results["evaluator"]["results"]` on the evaluator pipeline's output: the class holds that results list directly.
- Everything else in `evaluator.py` and `evaluate_deepeval_haystack.py` (API-key prompt, argument parsing, evaluator and pipeline construction, the LLM wrapper and its JSON schema): external calls with no local logic.
- `read_input_json`, `serialize_generated_answer`, `read_serialized_generated_answer`, `metric_to_params` and `serialize_evaluation_results`: they are imported from `utils`/`utils.serializing`, whose source is not part of this model, so they are not modelled.
- Pipeline construction, model loading, retrieval, generation and evaluator scripts (the other files): orchestration of third-party libraries.
