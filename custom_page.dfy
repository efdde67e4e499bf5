/**
  The custom-question screen (screens/Custom_Page.py): the text
  normalisation used for duplicate detection, the PDF import
  `files_chosen`, the removal of a saved question and the Save button.
  The JSON file is passed in as its decoded contents (`None` when it
  cannot be read or decoded; which failures each operation catches is
  said at the operation) and the new contents are returned.
*/
module CustomPage {
  import opened Wrappers
  import opened Text
  import opened Store
  import opened Scanner
  import opened Random

  const MultipleChoice: string := "Multiple Choice"
  const TrueFalse: string := "True/False"
  const ShortAnswer: string := "Short Answer"

  // ---------------------------------------------------------------
  // normalize_text
  // ---------------------------------------------------------------

  /** `normalize_text`: curly quotes become straight ones and surrounding whitespace is stripped. */
  function Normalize(s: string): string {
    if s == "" then "" else Strip(ReplaceQuotes(s))
  }

  /** The result has no whitespace at either end. */
  lemma NormalizeTrimmed(s: string)
    ensures Normalize(s) == [] || (!IsSpace(Normalize(s)[0]) && !IsSpace(Normalize(s)[|Normalize(s)| - 1]))
  {
    StripEnds(ReplaceQuotes(s));
  }

  /** The result has no curly quotes, and its other characters come from `s`. */
  lemma NormalizeChars(s: string)
    ensures forall c :: c in Normalize(s) ==> !IsCurlyQuote(c) && (c in s || c == '\'' || c == '"')
  {
    StripChars(ReplaceQuotes(s));
    ReplaceQuotesChars(s);
  }

  /** Only an all-whitespace string normalises to the empty string. */
  lemma NormalizeEmpty(s: string)
    ensures Normalize(s) == [] <==> AllSpace(s)
  {
    var q := ReplaceQuotes(s);
    StripEmpty(q);
    assert AllSpace(q) == AllSpace(s);
  }

  lemma NormalizeIdempotent(s: string)
    ensures Normalize(Normalize(s)) == Normalize(s)
  {
    var r := Normalize(s);
    if r != "" {
      NormalizeChars(s);
      NormalizeTrimmed(s);
      assert ReplaceQuotes(r) == r;
      StripTrimmed(r);
    }
  }

  /** The duplicate-detection key: `normalize_text(q).lower()`. */
  function Key(q: string): string {
    Lower(Normalize(q))
  }

  /** Normalising a question first does not change its key: the stored question has the key it was imported under. */
  lemma KeyOfNormalized(q: string)
    ensures Key(Normalize(q)) == Key(q)
  {
    NormalizeIdempotent(q);
  }

  // ---------------------------------------------------------------
  // answers of an imported block
  // ---------------------------------------------------------------

  /** `[normalize_text(a) for a in parts if a.strip()]`. */
  function Answers(parts: seq<string>): (r: seq<string>)
    ensures |r| <= |parts|
    ensures forall x :: x in r ==> x != ""
    decreases |parts|
  {
    if parts == [] then []
    else
      var rest := Answers(parts[1..]);
      if Strip(parts[0]) != "" then
        StripEmpty(parts[0]);
        NormalizeEmpty(parts[0]);
        [Normalize(parts[0])] + rest
      else rest
  }

  /** There is an answer exactly when some piece is not all whitespace. */
  lemma {:induction false} AnswersNonEmpty(parts: seq<string>)
    ensures Answers(parts) != [] <==> exists k :: 0 <= k < |parts| && !AllSpace(parts[k])
    decreases |parts|
  {
    if parts != [] {
      AnswersNonEmpty(parts[1..]);
      StripEmpty(parts[0]);
      if exists k :: 0 <= k < |parts| && !AllSpace(parts[k]) {
        var k :| 0 <= k < |parts| && !AllSpace(parts[k]);
        if k > 0 {
          assert parts[1..][k - 1] == parts[k];
        }
      }
      if exists k :: 0 <= k < |parts[1..]| && !AllSpace(parts[1..][k]) {
        var k :| 0 <= k < |parts[1..]| && !AllSpace(parts[1..][k]);
        assert parts[k + 1] == parts[1..][k];
      }
    }
  }

  /** Pieces without a comma give answers without a comma. */
  lemma {:induction false} AnswersCommaFree(parts: seq<string>)
    requires forall x :: x in parts ==> ',' !in x
    ensures forall x :: x in Answers(parts) ==> ',' !in x
    decreases |parts|
  {
    if parts != [] {
      assert forall x :: x in parts[1..] ==> x in parts;
      AnswersCommaFree(parts[1..]);
      NormalizeChars(parts[0]);
    }
  }

  /** The answers of a block: its comma-separated, non-blank, normalised pieces. */
  function AnswerList(block: string): seq<string> {
    Answers(Split(block, ','))
  }

  /** The block has a character that is neither whitespace nor a comma. */
  predicate HasAnswer(block: string) {
    exists k :: 0 <= k < |block| && !IsSpace(block[k]) && block[k] != ','
  }

  /** Every answer is non-empty and comma-free; there is one exactly when the block has an answer character. */
  lemma AnswerListFacts(block: string)
    ensures forall x :: x in AnswerList(block) ==> x != "" && ',' !in x
    ensures AnswerList(block) != [] <==> HasAnswer(block)
  {
    var parts := Split(block, ',');
    AnswersCommaFree(parts);
    AnswersNonEmpty(parts);
    if AnswerList(block) != [] {
      var k :| 0 <= k < |parts| && !AllSpace(parts[k]);
      var j :| 0 <= j < |parts[k]| && !IsSpace(parts[k][j]);
      var c := parts[k][j];
      InJoin(parts, ',', c);
      var i :| 0 <= i < |block| && block[i] == c;
    }
    if HasAnswer(block) {
      var i :| 0 <= i < |block| && !IsSpace(block[i]) && block[i] != ',';
      var c := block[i];
      InJoin(parts, ',', c);
      var k :| 0 <= k < |parts| && c in parts[k];
      assert !AllSpace(parts[k]);
    }
  }

  // ---------------------------------------------------------------
  // files_chosen: one imported block
  // ---------------------------------------------------------------

  /** The three question types. */
  datatype Kind = MultipleChoiceKind | TrueFalseKind | ShortAnswerKind

  function TypeName(k: Kind): string {
    match k
    case MultipleChoiceKind => MultipleChoice
    case TrueFalseKind => TrueFalse
    case ShortAnswerKind => ShortAnswer
  }

  /** Several answers make a multiple-choice question, a lone `True` or `False` a true/false one. */
  function Classify(answers: seq<string>): Kind
    requires answers != []
  {
    if |answers| > 1 then MultipleChoiceKind
    else if answers[0] == "True" || answers[0] == "False" then TrueFalseKind
    else ShortAnswerKind
  }

  /**
    The record an import appends for a block, with the multiple-choice
    answers in their order in the document (the import shuffles them).
  */
  function ImportedRecord(question: string, answers: seq<string>): StoredRecord
    requires answers != []
  {
    var choices :=
      match Classify(answers)
      case MultipleChoiceKind => Wrap(Strs(answers))
      case TrueFalseKind => Wrap(Strs(["True", "False"]))
      case ShortAnswerKind => List([Null]);
    StoredRecord(Some(TypeName(Classify(answers))), Some(Normalize(question)), Some(answers[0]), Some(choices))
  }

  /**
    The appended record keeps the normalised question and the first answer;
    its choices are `[None]` exactly for a short-answer question, and
    otherwise the choice list wrapped in a one-element list.
  */
  lemma ImportedRecordShape(question: string, answers: seq<string>)
    requires answers != []
    ensures var r := ImportedRecord(question, answers);
      && r.question == Some(Normalize(question)) && r.answer == Some(answers[0])
      && r.questionType == Some(TypeName(Classify(answers)))
      && r.choices.Some?
      && (Classify(answers) == ShortAnswerKind <==> r.choices.value == List([Null]))
      && (Classify(answers) == ShortAnswerKind <==> !IsWrapped(r.choices.value))
      && (Classify(answers) == MultipleChoiceKind ==> Inner(r.choices.value) == Strs(answers))
      && (Classify(answers) == TrueFalseKind ==> Inner(r.choices.value) == Strs(["True", "False"]))
  {
  }

  /** Giving a multiple-choice record its answers in another order changes it only up to choice order. */
  lemma ShuffledRecord(question: string, answers: seq<string>, shuffled: seq<Json>)
    requires |answers| > 1 && multiset(shuffled) == multiset(Strs(answers))
    ensures var r := ImportedRecord(question, answers);
      SameUpToChoiceOrder(r.(choices := Some(Wrap(shuffled))), r)
  {
  }

  /** The keys of the questions already stored. */
  function ExistingKeys(data: seq<StoredRecord>): set<string> {
    set r | r in data && r.question.Some? :: Key(r.question.value)
  }

  lemma ExistingKeysAppend(data: seq<StoredRecord>, r: StoredRecord)
    ensures ExistingKeys(data + [r]) == ExistingKeys(data) + (if r.question.Some? then {Key(r.question.value)} else {})
  {
    var both := data + [r];
    forall x | x in ExistingKeys(both)
      ensures x in ExistingKeys(data) + (if r.question.Some? then {Key(r.question.value)} else {})
    {
      var y :| y in both && y.question.Some? && x == Key(y.question.value);
      if y != r { assert y in data; }
    }
    forall x | x in ExistingKeys(data) ensures x in ExistingKeys(both) {
      var y :| y in data && y.question.Some? && x == Key(y.question.value);
      assert y in both;
    }
    if r.question.Some? {
      assert r in both;
    }
  }

  /**
    What the loop body of files_chosen computes from a block alone: its
    key, and the record to append, or `None` when `answers[0]` would raise
    IndexError because the block has no answers.
  */
  datatype Entry = Entry(key: string, record: Option<StoredRecord>)

  function EntryOf(b: Block): Entry {
    var answers := AnswerList(b.answer);
    Entry(Key(b.question), if answers == [] then None else Some(ImportedRecord(b.question, answers)))
  }

  function Entries(bs: seq<Block>): (es: seq<Entry>)
    ensures |es| == |bs|
    ensures forall k :: 0 <= k < |bs| ==> es[k] == EntryOf(bs[k])
  {
    seq(|bs|, k requires 0 <= k < |bs| => EntryOf(bs[k]))
  }

  /** The record of an entry has a question, and the entry's key is that question's key. */
  predicate Keyed(e: Entry) {
    e.record.Some? ==> e.record.value.question.Some? && Key(e.record.value.question.value) == e.key
  }

  predicate AllKeyed(es: seq<Entry>) {
    forall k :: 0 <= k < |es| ==> Keyed(es[k])
  }

  lemma EntriesKeyed(bs: seq<Block>)
    ensures AllKeyed(Entries(bs))
  {
    forall k | 0 <= k < |bs| ensures Keyed(Entries(bs)[k]) {
      KeyOfNormalized(bs[k].question);
    }
  }

  /** A block gives no record exactly when it has no answer. */
  lemma EntryOfFails(b: Block)
    ensures EntryOf(b).record.None? <==> !HasAnswer(b.answer)
  {
    AnswerListFacts(b.answer);
  }

  /** The loop state of files_chosen: the records, the key set and the count of new questions. */
  datatype ImportState = ImportState(data: seq<StoredRecord>, keys: set<string>, added: nat)

  function Initial(data: seq<StoredRecord>): ImportState {
    ImportState(data, ExistingKeys(data), 0)
  }

  /** The key set is that of the stored records. */
  predicate Consistent(st: ImportState) {
    st.keys == ExistingKeys(st.data)
  }

  /** One pass of the loop body: a known key is skipped, otherwise the record is appended or the import crashes. */
  function Step(st: ImportState, e: Entry): Option<ImportState> {
    if e.key in st.keys then Some(st)
    else
      match e.record
      case None => None
      case Some(r) => Some(ImportState(st.data + [r], st.keys + {e.key}, st.added + 1))
  }

  /** A step keeps the key set equal to the keys of the stored records. */
  lemma StepConsistent(st: ImportState, e: Entry)
    requires Consistent(st) && Keyed(e) && Step(st, e).Some?
    ensures Consistent(Step(st, e).value)
  {
    if e.key !in st.keys {
      ExistingKeysAppend(st.data, e.record.value);
    }
  }

  /** The block loop of files_chosen. */
  function Run(st: ImportState, es: seq<Entry>): Option<ImportState>
    decreases |es|
  {
    if es == [] then Some(st)
    else
      match Step(st, es[0])
      case None => None
      case Some(next) => Run(next, es[1..])
  }

  /** `files_chosen` on the stored records `data` and the blocks `bs`. */
  function Import(data: seq<StoredRecord>, bs: seq<Block>): Option<ImportState> {
    Run(Initial(data), Entries(bs))
  }

  /**
    The loop only appends: the old records stay in front, the count is
    the number of records appended, and every key ends up known.
  */
  lemma {:induction false} RunAppends(st: ImportState, es: seq<Entry>)
    requires Run(st, es).Some?
    ensures var fin := Run(st, es).value;
      && st.added <= fin.added
      && |fin.data| == |st.data| + (fin.added - st.added)
      && fin.data[..|st.data|] == st.data
      && st.keys <= fin.keys
      && forall k :: 0 <= k < |es| ==> es[k].key in fin.keys
    decreases |es|
  {
    if es != [] {
      var next := Step(st, es[0]).value;
      RunAppends(next, es[1..]);
      var fin := Run(st, es).value;
      assert fin.data[..|next.data|][..|st.data|] == fin.data[..|st.data|];
      assert forall k :: 1 <= k < |es| ==> es[k] == es[1..][k - 1];
    }
  }

  /** A run from a consistent state ends in a consistent state. */
  lemma {:induction false} RunConsistent(st: ImportState, es: seq<Entry>)
    requires Consistent(st) && AllKeyed(es) && Run(st, es).Some?
    ensures Consistent(Run(st, es).value)
    decreases |es|
  {
    if es != [] {
      StepConsistent(st, es[0]);
      assert forall k :: 1 <= k < |es| ==> es[1..][k - 1] == es[k];
      RunConsistent(Step(st, es[0]).value, es[1..]);
    }
  }

  /** The record at `i` has a question whose key no record before it has. */
  predicate FreshAt(data: seq<StoredRecord>, i: nat)
    requires i < |data|
  {
    data[i].question.Some? && Key(data[i].question.value) !in ExistingKeys(data[..i])
  }

  /** Every record from index `n` on has a question whose key no record before it has. */
  predicate FreshFrom(data: seq<StoredRecord>, n: nat) {
    forall i :: n <= i < |data| ==> FreshAt(data, i)
  }

  /** A step from a consistent state appends only a record whose key is new. */
  lemma StepKeepsFresh(st: ImportState, e: Entry, n: nat)
    requires Consistent(st) && Keyed(e) && Step(st, e).Some?
    requires n <= |st.data| && FreshFrom(st.data, n)
    ensures FreshFrom(Step(st, e).value.data, n)
  {
    if e.key !in st.keys {
      var r := e.record.value;
      var d := st.data + [r];
      forall i | n <= i < |d| ensures FreshAt(d, i) {
        assert d[..i] == if i < |st.data| then st.data[..i] else st.data;
        if i < |st.data| {
          assert FreshAt(st.data, i);
        }
      }
    }
  }

  lemma {:induction false} RunKeepsFresh(st: ImportState, es: seq<Entry>, n: nat)
    requires Consistent(st) && AllKeyed(es) && Run(st, es).Some?
    requires n <= |st.data| && FreshFrom(st.data, n)
    ensures FreshFrom(Run(st, es).value.data, n)
    decreases |es|
  {
    if es != [] {
      var next := Step(st, es[0]).value;
      StepConsistent(st, es[0]);
      StepKeepsFresh(st, es[0], n);
      assert AllKeyed(es[1..]) by {
        assert forall k :: 1 <= k < |es| ==> es[1..][k - 1] == es[k];
      }
      assert |st.data| <= |next.data|;
      RunKeepsFresh(next, es[1..], n);
    }
  }

  /** Every record the loop appends has a question whose key no record before it has. */
  lemma RunAppendsFresh(st: ImportState, es: seq<Entry>)
    requires Consistent(st) && AllKeyed(es) && Run(st, es).Some?
    ensures FreshFrom(Run(st, es).value.data, |st.data|)
  {
    RunKeepsFresh(st, es, |st.data|);
  }

  /** Blocks whose keys are all known change nothing. */
  lemma {:induction false} RunAllKnown(st: ImportState, es: seq<Entry>)
    requires forall k :: 0 <= k < |es| ==> es[k].key in st.keys
    ensures Run(st, es) == Some(st)
    decreases |es|
  {
    if es != [] {
      assert forall k :: 1 <= k < |es[1..]| + 1 ==> es[1..][k - 1] == es[k];
      RunAllKnown(st, es[1..]);
    }
  }

  /** Entries that all have a record never crash the loop. */
  lemma {:induction false} RunSucceeds(st: ImportState, es: seq<Entry>)
    requires forall k :: 0 <= k < |es| ==> es[k].record.Some?
    ensures Run(st, es).Some?
    decreases |es|
  {
    if es != [] {
      assert forall k :: 1 <= k < |es[1..]| + 1 ==> es[1..][k - 1] == es[k];
      RunSucceeds(Step(st, es[0]).value, es[1..]);
    }
  }

  /**
    A run from a consistent state only appends, and the records it appends
    have questions with distinct keys, none of them among the keys it
    started with.
  */
  lemma RunAddsNewDistinct(st: ImportState, es: seq<Entry>)
    requires Consistent(st) && AllKeyed(es) && Run(st, es).Some?
    ensures var fin := Run(st, es).value.data;
      && |st.data| <= |fin| && fin[..|st.data|] == st.data
      && (forall i :: |st.data| <= i < |fin| ==> fin[i].question.Some? && Key(fin[i].question.value) !in ExistingKeys(st.data))
      && (forall i, j :: |st.data| <= i < j < |fin| ==> Key(fin[i].question.value) != Key(fin[j].question.value))
  {
    RunAppends(st, es);
    RunAppendsFresh(st, es);
    var fin := Run(st, es).value.data;
    forall i | |st.data| <= i < |fin|
      ensures fin[i].question.Some? && Key(fin[i].question.value) !in ExistingKeys(st.data)
    {
      assert FreshAt(fin, i);
      assert fin[..i][..|st.data|] == st.data;
      assert forall r :: r in st.data ==> r in fin[..i];
    }
    forall i, j | |st.data| <= i < j < |fin|
      ensures Key(fin[i].question.value) != Key(fin[j].question.value)
    {
      assert FreshAt(fin, j);
      assert fin[i] in fin[..j];
    }
  }

  /**
    The import only appends; the records it appends have questions with
    distinct keys, none of them among the keys already stored.
  */
  lemma ImportAddsNewDistinct(data: seq<StoredRecord>, bs: seq<Block>)
    requires Import(data, bs).Some?
    ensures var fin := Import(data, bs).value.data;
      && |data| <= |fin| && fin[..|data|] == data
      && (forall i :: |data| <= i < |fin| ==> fin[i].question.Some? && Key(fin[i].question.value) !in ExistingKeys(data))
      && (forall i, j :: |data| <= i < j < |fin| ==> Key(fin[i].question.value) != Key(fin[j].question.value))
  {
    EntriesKeyed(bs);
    RunAddsNewDistinct(Initial(data), Entries(bs));
  }

  /** The import changes the count exactly by the number of records it appends. */
  lemma ImportCount(data: seq<StoredRecord>, bs: seq<Block>)
    requires Import(data, bs).Some?
    ensures |Import(data, bs).value.data| == |data| + Import(data, bs).value.added
  {
    RunAppends(Initial(data), Entries(bs));
  }

  /** Importing the same blocks into the result of an import adds nothing and changes nothing. */
  lemma ReimportAddsNothing(data: seq<StoredRecord>, bs: seq<Block>)
    requires Import(data, bs).Some?
    ensures Import(Import(data, bs).value.data, bs) == Some(Initial(Import(data, bs).value.data))
  {
    var es := Entries(bs);
    var fin := Import(data, bs).value;
    EntriesKeyed(bs);
    RunAppends(Initial(data), es);
    RunConsistent(Initial(data), es);
    RunAllKnown(Initial(fin.data), es);
  }

  /** Blocks that all have an answer never crash the import. */
  lemma ImportSucceeds(data: seq<StoredRecord>, bs: seq<Block>)
    requires forall k :: 0 <= k < |bs| ==> HasAnswer(bs[k].answer)
    ensures Import(data, bs).Some?
  {
    forall k | 0 <= k < |bs| ensures Entries(bs)[k].record.Some? {
      EntryOfFails(bs[k]);
    }
    RunSucceeds(Initial(data), Entries(bs));
  }

  /** The first block with a new question and no answer crashes the import. */
  lemma ImportCrashes(data: seq<StoredRecord>, b: Block, bs: seq<Block>)
    requires Key(b.question) !in ExistingKeys(data) && !HasAnswer(b.answer)
    ensures Import(data, [b] + bs).None?
  {
    EntryOfFails(b);
    assert Entries([b] + bs)[0] == EntryOf(b);
  }

  // ---------------------------------------------------------------
  // files_chosen: the document text
  // ---------------------------------------------------------------

  /** A chosen file; `pages` is `None` when opening or reading the PDF raised. */
  datatype Document = Document(path: string, pages: Option<seq<string>>)

  /** `filepath.lower().endswith(".pdf")`. */
  predicate IsPdf(path: string) {
    EndsWith(Lower(path), ".pdf")
  }

  /** What the page loop extracts: each non-blank page followed by a newline. */
  function PagesText(pages: seq<string>): string
    decreases |pages|
  {
    if pages == [] then ""
    else
      var page := pages[|pages| - 1];
      PagesText(pages[..|pages| - 1]) + (if Strip(page) != "" then page + "\n" else "")
  }

  /** What one file contributes: nothing when it is not a PDF or cannot be read. */
  function DocumentText(d: Document): string {
    if !IsPdf(d.path) || d.pages.None? then "" else PagesText(d.pages.value) + "\n"
  }

  /** `all_pdf_text` after the file loop. */
  function DocumentsText(docs: seq<Document>): string
    decreases |docs|
  {
    if docs == [] then "" else DocumentsText(docs[..|docs| - 1]) + DocumentText(docs[|docs| - 1])
  }

  lemma {:induction false} PagesTextAppend(a: seq<string>, b: seq<string>)
    ensures PagesText(a + b) == PagesText(a) + PagesText(b)
    decreases |b|
  {
    if b != [] {
      var init := b[..|b| - 1];
      assert (a + b)[..|a + b| - 1] == a + init;
      PagesTextAppend(a, init);
    } else {
      assert a + b == a;
    }
  }

  /** Files are read independently and their texts concatenated in order. */
  lemma {:induction false} DocumentsTextAppend(a: seq<Document>, b: seq<Document>)
    ensures DocumentsText(a + b) == DocumentsText(a) + DocumentsText(b)
    decreases |b|
  {
    if b != [] {
      var init := b[..|b| - 1];
      assert (a + b)[..|a + b| - 1] == a + init;
      DocumentsTextAppend(a, init);
    } else {
      assert a + b == a;
    }
  }

  /** Blank pages contribute nothing. */
  lemma {:induction false} BlankPagesIgnored(pages: seq<string>)
    requires forall k :: 0 <= k < |pages| ==> AllSpace(pages[k])
    ensures PagesText(pages) == ""
    decreases |pages|
  {
    if pages != [] {
      BlankPagesIgnored(pages[..|pages| - 1]);
    }
  }

  /** The text the pattern is run on: CRLF line ends made LF, then stripped. */
  function ImportText(docs: seq<Document>): string {
    Strip(ReplaceCrlf(DocumentsText(docs)))
  }

  /** The page loop of files_chosen for one opened PDF. */
  method ExtractPages(pages: seq<string>) returns (extracted: string)
    ensures extracted == PagesText(pages)
  {
    extracted := "";
    var j := 0;
    while j < |pages|
      invariant 0 <= j <= |pages|
      invariant extracted == PagesText(pages[..j])
    {
      var txt := pages[j];
      assert pages[..j + 1][..j] == pages[..j];
      if Strip(txt) != "" {
        extracted := extracted + (txt + "\n");
      }
      j := j + 1;
    }
    assert pages[..j] == pages;
  }

  /** The file loop of files_chosen: non-PDF and unreadable files are skipped. */
  method ReadDocuments(docs: seq<Document>) returns (all: string)
    ensures all == DocumentsText(docs)
  {
    all := "";
    var i := 0;
    while i < |docs|
      invariant 0 <= i <= |docs|
      invariant all == DocumentsText(docs[..i])
    {
      var d := docs[i];
      if IsPdf(d.path) && d.pages.Some? {
        var extracted := ExtractPages(d.pages.value);
        all := all + extracted + "\n";
      }
      assert docs[..i + 1][..i] == docs[..i];
      i := i + 1;
    }
    assert docs[..i] == docs;
  }

  /** What files_chosen leads to. */
  datatype ImportOutcome =
    | NoFiles                                        // returns before touching the file
    | Crashed                                        // IndexError: the file is not written
    | Imported(data: seq<StoredRecord>, added: nat)  // the file is rewritten with `data`

  /**
    `files_chosen(filepaths)`. The stored records are read (an unreadable
    file counts as empty), the text of the PDFs is scanned for blocks, and
    each block whose key is new is appended. The result is Import's, except
    for the order of the shuffled multiple-choice answers.
  */
  method FilesChosen(docs: seq<Document>, stored: Option<seq<StoredRecord>>, rng: Rng) returns (out: ImportOutcome)
    modifies rng
    ensures docs == [] <==> out == NoFiles
    ensures docs != [] ==>
      match Import(stored.GetOr([]), Blocks(ImportText(docs)))
      case None => out == Crashed
      case Some(fin) => out.Imported? && SameRecordsUpToChoiceOrder(out.data, fin.data) && out.added == fin.added
  {
    if docs == [] {
      return NoFiles;
    }
    var existing := stored.GetOr([]);
    var all := ReadDocuments(docs);
    var blocks := Blocks(Strip(ReplaceCrlf(all)));
    out := AddBlocks(existing, blocks, rng);
  }

  /**
    The block loop of files_chosen on the stored records `existing`: each
    block whose key is new is appended, with its multiple-choice answers
    shuffled.
  */
  method AddBlocks(existing: seq<StoredRecord>, blocks: seq<Block>, rng: Rng) returns (out: ImportOutcome)
    modifies rng
    ensures
      match Import(existing, blocks)
      case None => out == Crashed
      case Some(fin) => out.Imported? && SameRecordsUpToChoiceOrder(out.data, fin.data) && out.added == fin.added
  {
    var keys := ExistingKeys(existing);
    ghost var es := Entries(blocks);
    var data := existing;
    var added := 0;
    ghost var spec := Initial(existing);
    SameRecordsRefl(existing);
    var k := 0;
    while k < |blocks|
      invariant 0 <= k <= |blocks|
      invariant Run(spec, es[k..]) == Run(Initial(existing), es)
      invariant keys == spec.keys && added == spec.added
      invariant SameRecordsUpToChoiceOrder(data, spec.data)
    {
      var b := blocks[k];
      ghost var e := EntryOf(b);
      assert es[k..][0] == e && es[k..][1..] == es[k + 1..];
      var cleaned := Key(b.question);
      assert cleaned == e.key;
      if cleaned !in keys {
        var answers := AnswerList(b.answer);
        if answers == [] {
          assert e.record.None?;
          return Crashed;
        }
        var record := ImportedRecord(b.question, answers);
        assert e.record == Some(record);
        if |answers| > 1 {
          var shuffled := rng.Shuffle(Strs(answers));
          ShuffledRecord(b.question, answers, shuffled);
          record := record.(choices := Some(Wrap(shuffled)));
        }
        assert SameUpToChoiceOrder(record, e.record.value);
        SameRecordsAppend(data, spec.data, record, e.record.value);
        data := data + [record];
        keys := keys + {cleaned};
        added := added + 1;
      }
      spec := Step(spec, e).value;
      k := k + 1;
    }
    return Imported(data, added);
  }

  // ---------------------------------------------------------------
  // remove_question
  // ---------------------------------------------------------------

  /** `s.strip().lower()`: how remove_question compares questions. */
  function Cleaned(s: string): string {
    Lower(Strip(s))
  }

  /** The key a stored question is compared under: `q.get("question", "").strip().lower()`. */
  function RemovalKey(r: StoredRecord): string {
    Cleaned(r.question.GetOr(""))
  }

  /** `[q for q in data if q.get("question", "").strip().lower() != q_clean]`. */
  function KeepOthers(data: seq<StoredRecord>, qClean: string): (r: seq<StoredRecord>)
    ensures |r| <= |data|
    ensures forall x :: x in r <==> x in data && RemovalKey(x) != qClean
    decreases |data|
  {
    if data == [] then []
    else
      var rest := KeepOthers(data[1..], qClean);
      assert forall x :: x in data <==> x == data[0] || x in data[1..];
      if RemovalKey(data[0]) != qClean then [data[0]] + rest else rest
  }

  /** The records remove_question keeps when asked to remove `qText`. */
  function RemoveQuestion(data: seq<StoredRecord>, qText: string): seq<StoredRecord> {
    KeepOthers(data, Cleaned(qText))
  }

  /** Removal keeps the order of the records it keeps: it distributes over concatenation. */
  lemma {:induction false} KeepOthersAppend(a: seq<StoredRecord>, b: seq<StoredRecord>, qClean: string)
    ensures KeepOthers(a + b, qClean) == KeepOthers(a, qClean) + KeepOthers(b, qClean)
    decreases |a|
  {
    if a == [] {
      assert a + b == b;
    } else {
      assert (a + b)[1..] == a[1..] + b;
      KeepOthersAppend(a[1..], b, qClean);
    }
  }

  /** Nothing is removed when no record matches. */
  lemma {:induction false} KeepOthersKeeps(data: seq<StoredRecord>, qClean: string)
    requires forall k :: 0 <= k < |data| ==> RemovalKey(data[k]) != qClean
    ensures KeepOthers(data, qClean) == data
    decreases |data|
  {
    if data != [] {
      assert forall k :: 1 <= k < |data| ==> data[1..][k - 1] == data[k];
      KeepOthersKeeps(data[1..], qClean);
    }
  }

  /** Removing the same question twice is removing it once. */
  lemma RemoveQuestionIdempotent(data: seq<StoredRecord>, qText: string)
    ensures RemoveQuestion(RemoveQuestion(data, qText), qText) == RemoveQuestion(data, qText)
  {
    var r := RemoveQuestion(data, qText);
    assert forall k :: 0 <= k < |r| ==> r[k] in r;
    KeepOthersKeeps(r, Cleaned(qText));
  }

  /** `remove_question`: an unreadable file is left alone (the exception is caught). */
  function RemoveFromStore(stored: Option<seq<StoredRecord>>, qText: string): (r: Option<seq<StoredRecord>>)
    ensures r.None? <==> stored.None?
    ensures r.Some? ==> forall x :: x in r.value <==> x in stored.value && RemovalKey(x) != Cleaned(qText)
  {
    match stored
    case None => None
    case Some(data) => Some(RemoveQuestion(data, qText))
  }

  // ---------------------------------------------------------------
  // on_save
  // ---------------------------------------------------------------

  const FillAllFields: string := "Please fill in all fields."
  const SavedMessage: string := "Question successfully saved!"
  const SelectAnswer: string := "Select Answer"

  /** The texts of the form's widgets. */
  datatype Form = Form(
    questionType: string,       // questionTypeSpinner.text
    question: string,           // questionInput.text
    answer: string,             // answerInput.text, shown for short answers only
    choiceInputs: seq<string>,  // the texts of answer_inputs, shown for multiple choice
    dropdown: string)           // answer_dropdown.text, shown for true/false

  /** `[i.text.strip() for i in self.answer_inputs if i.text.strip()]`. */
  function FilledChoices(inputs: seq<string>): (r: seq<string>)
    ensures |r| <= |inputs|
    ensures forall k :: 0 <= k < |r| ==> r[k] != ""
    ensures (forall k :: 0 <= k < |inputs| ==> Strip(inputs[k]) != "") ==>
      r == seq(|inputs|, k requires 0 <= k < |inputs| => Strip(inputs[k]))
    decreases |inputs|
  {
    if inputs == [] then []
    else
      var rest := FilledChoices(inputs[1..]);
      if Strip(inputs[0]) != "" then [Strip(inputs[0])] + rest else rest
  }

  /** The validation of on_save as written: a true/false question is checked against the hidden short-answer field. */
  predicate AcceptsAsWritten(f: Form) {
    if f.questionType == ShortAnswer || f.questionType == TrueFalse then f.question != "" && f.answer != ""
    else if f.questionType == MultipleChoice then
      f.question != "" && forall k :: 0 <= k < |f.choiceInputs| ==> Strip(f.choiceInputs[k]) != ""
    else true
  }

  /** The validation on_save evidently means: a true/false question needs an answer chosen in the dropdown. */
  predicate Accepts(f: Form) {
    if f.questionType == ShortAnswer then f.question != "" && f.answer != ""
    else if f.questionType == TrueFalse then f.question != "" && (f.dropdown == "True" || f.dropdown == "False")
    else if f.questionType == MultipleChoice then
      f.question != "" && forall k :: 0 <= k < |f.choiceInputs| ==> Strip(f.choiceInputs[k]) != ""
    else true
  }

  /** The record on_save appends, with the multiple-choice answers in input order (on_save shuffles them). */
  function FormRecord(f: Form): StoredRecord {
    if f.questionType == MultipleChoice then
      var filled := FilledChoices(f.choiceInputs);
      StoredRecord(Some(f.questionType), Some(f.question), Some(if filled != [] then filled[0] else ""),
                   Some(Wrap(Strs(filled))))
    else if f.questionType == TrueFalse then
      StoredRecord(Some(f.questionType), Some(f.question), Some(if f.dropdown != SelectAnswer then f.dropdown else ""),
                   Some(List(Strs(["True", "False"]))))
    else
      StoredRecord(Some(f.questionType), Some(f.question), Some(Strip(f.answer)), Some(Null))
  }

  /** As written, a true/false question with a chosen answer is refused when the hidden field is empty. */
  lemma TrueFalseRefusedAsWritten()
    ensures !AcceptsAsWritten(Form(TrueFalse, "Q", "", [], "True"))
    ensures Accepts(Form(TrueFalse, "Q", "", [], "True"))
  {
  }

  /** As written, a true/false question with no answer chosen is saved with an empty answer when the hidden field is not empty. */
  lemma TrueFalseSavedWithoutAnswerAsWritten()
    ensures AcceptsAsWritten(Form(TrueFalse, "Q", "x", [], SelectAnswer))
    ensures FormRecord(Form(TrueFalse, "Q", "x", [], SelectAnswer)).answer == Some("")
    ensures !Accepts(Form(TrueFalse, "Q", "x", [], SelectAnswer))
  {
  }

  /**
    With the corrected validation a true/false question is accepted exactly when
    it has a question and a chosen answer, and it is saved with that answer.
  */
  lemma TrueFalseAccepted(f: Form)
    requires f.questionType == TrueFalse
    ensures Accepts(f) <==> f.question != "" && (f.dropdown == "True" || f.dropdown == "False")
    ensures Accepts(f) ==> FormRecord(f).answer == Some(f.dropdown) && FormRecord(f).answer.value in {"True", "False"}
  {
  }

  /** An accepted multiple-choice form is saved with its first input as answer and all inputs as choices. */
  lemma MultipleChoiceSaved(f: Form)
    requires f.questionType == MultipleChoice && Accepts(f) && f.choiceInputs != []
    ensures FormRecord(f).answer == Some(Strip(f.choiceInputs[0]))
    ensures Inner(FormRecord(f).choices.value) == Strs(seq(|f.choiceInputs|, k requires 0 <= k < |f.choiceInputs| => Strip(f.choiceInputs[k])))
  {
  }

  /** The record on_save builds from the form `f`: FormRecord's, with `random.sample` reordering the multiple-choice answers. */
  method ShuffledFormRecord(f: Form, rng: Rng) returns (record: StoredRecord)
    modifies rng
    ensures SameUpToChoiceOrder(record, FormRecord(f))
  {
    record := FormRecord(f);
    if f.questionType == MultipleChoice {
      var shuffled := rng.Shuffle(Inner(record.choices.value));
      record := record.(choices := Some(Wrap(shuffled)));
    }
  }

  /** The form of the custom-question screen. */
  class QuestionForm {
    var questionType: string
    var question: string
    var answer: string
    var choiceInputs: seq<string>
    var dropdown: string
    var status: string

    function Contents(): Form
      reads this
    {
      Form(questionType, question, answer, choiceInputs, dropdown)
    }

    /** The screen opens on a short-answer question with empty fields. */
    constructor ()
      ensures Contents() == Form(ShortAnswer, "", "", [], SelectAnswer) && status == ""
    {
      questionType := ShortAnswer;
      question := "";
      answer := "";
      choiceInputs := [];
      dropdown := SelectAnswer;
      status := "";
    }

    /** `update_answer_inputs`: choosing a type brings up that type's fresh answer widgets. */
    method SelectType(t: string)
      modifies this
      ensures questionType == t && question == old(question) && answer == old(answer) && status == old(status)
      ensures t == MultipleChoice ==> choiceInputs == ["", "", "", ""] && dropdown == old(dropdown)
      ensures t == TrueFalse ==> dropdown == SelectAnswer && choiceInputs == old(choiceInputs)
      ensures t != MultipleChoice && t != TrueFalse ==> choiceInputs == old(choiceInputs) && dropdown == old(dropdown)
    {
      questionType := t;
      if t == MultipleChoice {
        choiceInputs := ["", "", "", ""];
      } else if t == TrueFalse {
        dropdown := SelectAnswer;
      }
    }

    /**
      The saving half of on_save: the form's record is appended to the
      stored records (`None`, a missing or malformed file, counts as empty,
      as load_questions_data catches those two errors), and the question
      and answer fields, and the inputs of a multiple-choice form, are cleared.
    */
    method Save(stored: Option<seq<StoredRecord>>, rng: Rng) returns (written: seq<StoredRecord>)
      modifies this, rng
      ensures questionType == old(questionType) && dropdown == old(dropdown)
      ensures |written| == |stored.GetOr([])| + 1
      ensures written[..|stored.GetOr([])|] == stored.GetOr([])
      ensures SameUpToChoiceOrder(written[|stored.GetOr([])|], FormRecord(old(Contents())))
      ensures question == "" && answer == "" && status == SavedMessage
      ensures old(questionType) == MultipleChoice ==> choiceInputs == seq(|old(choiceInputs)|, k => "")
      ensures old(questionType) != MultipleChoice ==> choiceInputs == old(choiceInputs)
    {
      var record := ShuffledFormRecord(Contents(), rng);
      if questionType == MultipleChoice {
        choiceInputs := seq(|choiceInputs|, k => "");
      }
      var data := stored.GetOr([]);
      written := data + [record];
      assert written[..|data|] == data;
      question := "";
      answer := "";
      status := SavedMessage;
    }

    /**
      `on_save` as written: a form AcceptsAsWritten refuses only shows a
      message; any other is saved. A true/false form is therefore judged by
      the hidden short-answer field, and saved with an empty answer when no
      value was chosen in the dropdown.
    */
    method OnSave(stored: Option<seq<StoredRecord>>, rng: Rng) returns (written: Option<seq<StoredRecord>>)
      modifies this, rng
      ensures questionType == old(questionType) && dropdown == old(dropdown)
      ensures !AcceptsAsWritten(old(Contents())) ==>
        && written.None?
        && Contents() == old(Contents())
        && status == FillAllFields
      ensures AcceptsAsWritten(old(Contents())) ==>
        && written.Some?
        && |written.value| == |stored.GetOr([])| + 1
        && written.value[..|stored.GetOr([])|] == stored.GetOr([])
        && SameUpToChoiceOrder(written.value[|stored.GetOr([])|], FormRecord(old(Contents())))
        && question == "" && answer == "" && status == SavedMessage
        && (old(questionType) == MultipleChoice ==> choiceInputs == seq(|old(choiceInputs)|, k => ""))
        && (old(questionType) != MultipleChoice ==> choiceInputs == old(choiceInputs))
    {
      if !AcceptsAsWritten(Contents()) {
        status := FillAllFields;
        return None;
      }
      var data := Save(stored, rng);
      written := Some(data);
    }

    /**
      `on_save` with the validation it evidently means: a true/false form
      needs a value chosen in the dropdown, so every saved true/false
      question has `True` or `False` as its answer.
    */
    method OnSaveCorrected(stored: Option<seq<StoredRecord>>, rng: Rng) returns (written: Option<seq<StoredRecord>>)
      modifies this, rng
      ensures questionType == old(questionType) && dropdown == old(dropdown)
      ensures !Accepts(old(Contents())) ==>
        && written.None?
        && Contents() == old(Contents())
        && status == FillAllFields
      ensures Accepts(old(Contents())) ==>
        && written.Some?
        && |written.value| == |stored.GetOr([])| + 1
        && written.value[..|stored.GetOr([])|] == stored.GetOr([])
        && SameUpToChoiceOrder(written.value[|stored.GetOr([])|], FormRecord(old(Contents())))
        && (old(questionType) == TrueFalse ==> written.value[|stored.GetOr([])|].answer.value in {"True", "False"})
        && question == "" && answer == "" && status == SavedMessage
    {
      if !Accepts(Contents()) {
        status := FillAllFields;
        return None;
      }
      var data := Save(stored, rng);
      written := Some(data);
    }
  }
}
