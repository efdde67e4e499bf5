/**
  A hand-written scanner for the block pattern of `files_chosen`,

      Question\s*\d*:\s*(.*?)\nAnswer:\s*(.*?)(?=\nQuestion|\Z)

  compiled with `re.DOTALL` and run by `re.findall`: matches are tried at
  every position from left to right, and after a match the scan resumes
  where the match ended. A match is reported by the positions of its parts
  so that its properties can be stated against the text.
*/
module Scanner {
  import opened Wrappers
  import opened Text

  const QuestionMarker: string := "Question"
  const AnswerMarker: string := "\nAnswer:"
  const NextMarker: string := "\nQuestion"

  /**
    One match: `Question` at `start`, whitespace up to `digits`, digits up to
    `colon`, whitespace up to `qStart`, group 1 is `[qStart, qEnd)`,
    `\nAnswer:` at `qEnd`, whitespace up to `aStart`, group 2 is
    `[aStart, aEnd)`, and the match ends at `aEnd`.
  */
  datatype Match = Match(start: nat, digits: nat, colon: nat, qStart: nat, qEnd: nat, aStart: nat, aEnd: nat)

  predicate SpaceBetween(t: string, lo: nat, hi: nat)
    requires lo <= hi <= |t|
  {
    forall k :: lo <= k < hi ==> IsSpace(t[k])
  }

  predicate DigitsBetween(t: string, lo: nat, hi: nat)
    requires lo <= hi <= |t|
  {
    forall k :: lo <= k < hi ==> IsDigit(t[k])
  }

  /** What a match of the pattern is, read off the pattern piece by piece. */
  predicate WellFormed(t: string, m: Match) {
    && StartsAt(t, QuestionMarker, m.start)
    && m.start + |QuestionMarker| <= m.digits <= m.colon < |t|
    && SpaceBetween(t, m.start + |QuestionMarker|, m.digits)
    && DigitsBetween(t, m.digits, m.colon)
    && t[m.colon] == ':'
    && m.colon + 1 <= m.qStart <= m.qEnd
    // the question ends at the first `\nAnswer:` after it starts
    && StartsAt(t, AnswerMarker, m.qEnd)
    && SpaceBetween(t, m.colon + 1, m.qStart)
    && (forall k :: m.qStart <= k < m.qEnd ==> !StartsAt(t, AnswerMarker, k))
    && m.qEnd + |AnswerMarker| <= m.aStart <= m.aEnd <= |t|
    && SpaceBetween(t, m.qEnd + |AnswerMarker|, m.aStart)
    && (m.aStart < |t| ==> !IsSpace(t[m.aStart]))
    // the answer ends at the next `\nQuestion` or at the end of the text
    && (m.aEnd == |t| || StartsAt(t, NextMarker, m.aEnd))
    && (forall k :: m.aStart <= k < m.aEnd ==> !StartsAt(t, NextMarker, k))
  }

  /** The positions of a match are ordered and lie inside the text; a match is never empty. */
  predicate InBounds(t: string, m: Match) {
    m.start < m.qStart <= m.qEnd < m.aStart <= m.aEnd <= |t|
  }

  /** The end of group 2 for an answer starting at `a`: the lazy `(.*?)` before `(?=\nQuestion|\Z)`. */
  function AnswerEnd(t: string, a: nat): (e: nat)
    requires a <= |t|
    ensures a <= e <= |t|
    ensures e == |t| || StartsAt(t, NextMarker, e)
    ensures forall k :: a <= k < e ==> !StartsAt(t, NextMarker, k)
  {
    match Find(t, NextMarker, a)
    case Some(e) => e
    case None => |t|
  }

  /** The match that begins at `p`, if any, following the pattern's greedy and lazy choices. */
  function MatchAt(t: string, p: nat): (r: Option<Match>)
    ensures r.Some? ==> r.value.start == p && InBounds(t, r.value)
  {
    if !StartsAt(t, QuestionMarker, p) then None
    else
      var d := SkipSpace(t, p + |QuestionMarker|);
      var colon := SkipDigits(t, d);
      if colon == |t| || t[colon] != ':' then None
      else
        var c := SkipSpace(t, colon + 1);
        var found := Find(t, AnswerMarker, c);
        if found.Some? then
          var a := SkipSpace(t, found.value + |AnswerMarker|);
          Some(Match(p, d, colon, c, found.value, a, AnswerEnd(t, a)))
        else if c > colon + 1 && StartsAt(t, AnswerMarker, c - 1) then
          // `\s*` gives back the newline that begins `\nAnswer:`; group 1 is empty
          var a := SkipSpace(t, c - 1 + |AnswerMarker|);
          Some(Match(p, d, colon, c - 1, c - 1, a, AnswerEnd(t, a)))
        else None
  }

  /** Every match MatchAt reports has the shape of the pattern. */
  lemma MatchAtWellFormed(t: string, p: nat)
    requires MatchAt(t, p).Some?
    ensures WellFormed(t, MatchAt(t, p).value)
  {
  }

  /** A table of the match (if any) beginning at each position of `t`. */
  predicate ValidTable(t: string, table: seq<Option<Match>>) {
    |table| == |t| &&
    forall p :: 0 <= p < |t| && table[p].Some? ==> table[p].value.start == p && InBounds(t, table[p].value)
  }

  function MatchTable(t: string): (table: seq<Option<Match>>)
    ensures ValidTable(t, table)
    ensures forall p :: 0 <= p < |t| ==> table[p] == MatchAt(t, p)
  {
    seq(|t|, p requires 0 <= p < |t| => MatchAt(t, p))
  }

  /**
    The scan loop of `re.findall` from position `from`: try each position in
    turn, report the match found there and resume at its end.
  */
  function Scan(t: string, table: seq<Option<Match>>, from: nat): (ms: seq<Match>)
    requires ValidTable(t, table)
    ensures forall i :: 0 <= i < |ms| ==> InBounds(t, ms[i]) && table[ms[i].start] == Some(ms[i])
    ensures forall i :: 0 <= i < |ms| ==> from <= ms[i].start
    ensures forall i, j :: 0 <= i < j < |ms| ==> ms[i].aEnd <= ms[j].start
    decreases |t| - from
  {
    if from >= |t| then []
    else
      match table[from]
      case None => Scan(t, table, from + 1)
      case Some(m) =>
        var rest := Scan(t, table, m.aEnd);
        var ms := [m] + rest;
        assert forall i :: 0 < i < |ms| ==> ms[i] == rest[i - 1];
        ms
  }

  /**
    `re.findall(pattern, t, flags=re.DOTALL)`, as the matches it finds: each
    is the match beginning at its start, and they do not overlap and come out
    in text order.
  */
  function FindAll(t: string): (ms: seq<Match>)
    ensures forall i :: 0 <= i < |ms| ==> InBounds(t, ms[i]) && MatchAt(t, ms[i].start) == Some(ms[i])
    ensures forall i, j :: 0 <= i < j < |ms| ==> ms[i].aEnd <= ms[j].start
  {
    Scan(t, MatchTable(t), 0)
  }

  /** Every match `re.findall` reports has the shape of the pattern. */
  lemma FindAllWellFormed(t: string, i: nat)
    requires i < |FindAll(t)|
    ensures WellFormed(t, FindAll(t)[i])
  {
    MatchAtWellFormed(t, FindAll(t)[i].start);
  }

  /** A position the scan does not cover cannot begin a match. */
  lemma {:induction false} ScanSkipsNothing(t: string, table: seq<Option<Match>>, from: nat, k: nat)
    requires ValidTable(t, table)
    requires from <= k < |t|
    requires forall m :: m in Scan(t, table, from) ==> !(m.start <= k < m.aEnd)
    ensures table[k].None?
    decreases |t| - from
  {
    match table[from]
    case None =>
      if k > from {
        ScanSkipsNothing(t, table, from + 1, k);
      }
    case Some(m) =>
      var rest := Scan(t, table, m.aEnd);
      assert Scan(t, table, from) == [m] + rest;
      assert m in Scan(t, table, from);
      ScanSkipsNothing(t, table, m.aEnd, k);
  }

  /**
    Nothing is skipped: a position that lies inside none of the matches
    `re.findall` reports does not begin a match of the pattern.
  */
  lemma FindAllSkipsNothing(t: string, k: nat)
    requires k < |t|
    requires forall m :: m in FindAll(t) ==> !(m.start <= k < m.aEnd)
    ensures MatchAt(t, k).None?
  {
    ScanSkipsNothing(t, MatchTable(t), 0, k);
  }

  /** A question/answer pair: the two groups of one match. */
  datatype Block = Block(question: string, answer: string)

  function BlockOf(t: string, m: Match): Block
    requires InBounds(t, m)
  {
    Block(t[m.qStart..m.qEnd], t[m.aStart..m.aEnd])
  }

  /** `re.findall(pattern, t, flags=re.DOTALL)`: the `(question, answer)` pairs in text order. */
  function Blocks(t: string): (bs: seq<Block>)
    ensures |bs| == |FindAll(t)|
    ensures forall i :: 0 <= i < |bs| ==> bs[i] == BlockOf(t, FindAll(t)[i])
  {
    var ms := FindAll(t);
    seq(|ms|, i requires 0 <= i < |ms| => BlockOf(t, ms[i]))
  }

  /**
    A `Question:` marker that is followed, anywhere later, by `\nAnswer:`
    always begins a match, even when only whitespace separates the two.
  */
  lemma MarkerWithAnswerMatches(t: string, p: nat)
    requires StartsAt(t, QuestionMarker + ":", p)
    requires Find(t, AnswerMarker, p + |QuestionMarker| + 1).Some?
    ensures MatchAt(t, p).Some?
  {
    assert t[p..p + 8] == (QuestionMarker + ":")[..8];
    assert t[p + 8] == (QuestionMarker + ":")[8];
    assert StartsAt(t, QuestionMarker, p);
    var colon := p + |QuestionMarker|;
    assert SkipSpace(t, colon) == colon && SkipDigits(t, colon) == colon;
    var c := SkipSpace(t, colon + 1);
    var q0 := Find(t, AnswerMarker, colon + 1).value;
    if Find(t, AnswerMarker, c).None? {
      // the only `\nAnswer:` inside the whitespace run starts at its last character
      assert q0 < c;
      assert t[q0 + 1] == AnswerMarker[1];
      assert q0 + 1 >= c;
    }
  }
}
