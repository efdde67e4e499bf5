/**
  The persisted question store: a JSON list of objects with the keys
  `question_type`, `question`, `answer` and `choices`. A key that is absent
  from an object is `None`; the three text keys hold strings when present.
*/
module Store {
  import opened Wrappers

  /** The JSON values a `choices` entry takes: null, a string, or a list. */
  datatype Json = Null | Str(s: string) | List(items: seq<Json>)

  /** One object of the store. */
  datatype StoredRecord = StoredRecord(
    questionType: Option<string>,
    question: Option<string>,
    answer: Option<string>,
    choices: Option<Json>)

  /** A list of strings as JSON. */
  function Strs(xs: seq<string>): (r: seq<Json>)
    ensures |r| == |xs|
    ensures forall k :: 0 <= k < |xs| ==> r[k] == Str(xs[k])
  {
    seq(|xs|, k requires 0 <= k < |xs| => Str(xs[k]))
  }

  /** The one-level-nested shape `[[...]]` that imports and multiple-choice saves write. */
  function Wrap(items: seq<Json>): (j: Json)
    ensures IsWrapped(j) && Inner(j) == items
  {
    List([List(items)])
  }

  predicate IsWrapped(j: Json) {
    j.List? && |j.items| == 1 && j.items[0].List?
  }

  function Inner(j: Json): seq<Json>
    requires IsWrapped(j)
  {
    j.items[0].items
  }

  /**
    Two records agree except that the wrapped choice lists may be in a
    different order: the effect of `random.shuffle` / `random.sample`.
  */
  predicate SameUpToChoiceOrder(r: StoredRecord, s: StoredRecord) {
    r.questionType == s.questionType && r.question == s.question && r.answer == s.answer &&
    (r.choices == s.choices ||
     (r.choices.Some? && s.choices.Some? && IsWrapped(r.choices.value) && IsWrapped(s.choices.value) &&
      multiset(Inner(r.choices.value)) == multiset(Inner(s.choices.value))))
  }

  /** Pointwise SameUpToChoiceOrder. */
  predicate SameRecordsUpToChoiceOrder(rs: seq<StoredRecord>, ss: seq<StoredRecord>) {
    |rs| == |ss| && forall k :: 0 <= k < |rs| ==> SameUpToChoiceOrder(rs[k], ss[k])
  }

  lemma SameRecordsRefl(rs: seq<StoredRecord>)
    ensures SameRecordsUpToChoiceOrder(rs, rs)
  {
  }

  /** Agreement extends to one more record at the end of both lists. */
  lemma SameRecordsAppend(rs: seq<StoredRecord>, ss: seq<StoredRecord>, r: StoredRecord, s: StoredRecord)
    requires SameRecordsUpToChoiceOrder(rs, ss) && SameUpToChoiceOrder(r, s)
    ensures SameRecordsUpToChoiceOrder(rs + [r], ss + [s])
  {
    var a, b := rs + [r], ss + [s];
    forall k | 0 <= k < |a| ensures SameUpToChoiceOrder(a[k], b[k]) {
      if k < |rs| {
        assert a[k] == rs[k] && b[k] == ss[k];
      }
    }
  }
}
