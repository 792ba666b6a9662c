/** The relation extractor's data shaping: dependency-matcher results are projected
    onto the document's token texts as (source, relation, target) rows, and exact
    duplicate rows are dropped keeping the first. */
module Triples {
  import opened Results
  import opened Distinct

  /** One row of the relation table. */
  datatype Triple = Triple(source: string, relation: string, target: string)

  /** One matcher result: the pattern's id and the matched token positions in pattern
      order, which for the subject-verb-object pattern is (predicate, subject, object). */
  datatype Match = Match(matchId: int, tokenIds: seq<int>)

  /** Python raises `IndexError` while reading the match at position `matchPos`. */
  datatype Error = IndexError(matchPos: nat)

  /** The three parallel lists the table is assembled from. */
  datatype Columns = Columns(source: seq<string>, relation: seq<string>, target: seq<string>)

  /** The element Python reads for `xs[i]` on a sequence of length `n`: a negative
      position counts from the end; anything else out of range raises. */
  function PyIndex(n: nat, i: int): (r: Option<nat>)
    ensures r.Some? <==> -(n as int) <= i < n
    ensures r.Some? ==> r.value < n && (r.value == i || r.value == i + n)
  {
    if 0 <= i < n then Some(i) else if -(n as int) <= i < 0 then Some(i + n) else None
  }

  /** The match's three token positions exist and lie within the document. */
  predicate Resolvable(docLen: nat, m: Match) {
    && |m.tokenIds| >= 3
    && PyIndex(docLen, m.tokenIds[0]).Some?
    && PyIndex(docLen, m.tokenIds[1]).Some?
    && PyIndex(docLen, m.tokenIds[2]).Some?
  }

  predicate AllResolvable(docLen: nat, matches: seq<Match>) {
    forall i :: 0 <= i < |matches| ==> Resolvable(docLen, matches[i])
  }

  /** The text of the token at Python position `i`. */
  function TokenAt(doc: seq<string>, i: int): string
    requires PyIndex(|doc|, i).Some?
  {
    doc[PyIndex(|doc|, i).value]
  }

  /** The row a match stands for: subject as source, predicate as relation, object as target. */
  function RowOf(doc: seq<string>, m: Match): Triple
    requires Resolvable(|doc|, m)
  {
    Triple(TokenAt(doc, m.tokenIds[1]), TokenAt(doc, m.tokenIds[0]), TokenAt(doc, m.tokenIds[2]))
  }

  /** The rows before de-duplication, one per match, in matcher order. */
  function Projected(doc: seq<string>, matches: seq<Match>): (rows: seq<Triple>)
    requires AllResolvable(|doc|, matches)
    ensures |rows| == |matches|
  {
    seq(|matches|, i requires 0 <= i < |matches| => RowOf(doc, matches[i]))
  }

  /** The table built from three equally long columns, one row per position. */
  function Rows(cols: Columns): (rows: seq<Triple>)
    requires |cols.source| == |cols.relation| == |cols.target|
    ensures |rows| == |cols.source|
  {
    seq(|cols.source|, i requires 0 <= i < |cols.source| =>
      Triple(cols.source[i], cols.relation[i], cols.target[i]))
  }

  /** The position of the first match that cannot be read. */
  predicate FirstUnresolvable(docLen: nat, matches: seq<Match>, pos: nat) {
    && pos < |matches|
    && !Resolvable(docLen, matches[pos])
    && forall i :: 0 <= i < pos ==> Resolvable(docLen, matches[i])
  }

  /** The column-building loops: the token positions of every match are collected,
      then each match appends its subject, predicate and object texts to the
      source, relation and target columns. */
  method BuildColumns(doc: seq<string>, matches: seq<Match>) returns (res: Result<Columns, Error>)
    ensures res.Ok? <==> AllResolvable(|doc|, matches)
    ensures res.Err? ==> FirstUnresolvable(|doc|, matches, res.error.matchPos)
    ensures res.Ok? ==> |res.value.source| == |res.value.relation| == |res.value.target| == |matches|
    ensures res.Ok? ==> forall i :: 0 <= i < |matches| ==>
      && res.value.source[i] == TokenAt(doc, matches[i].tokenIds[1])
      && res.value.relation[i] == TokenAt(doc, matches[i].tokenIds[0])
      && res.value.target[i] == TokenAt(doc, matches[i].tokenIds[2])
  {
    var tokenIds: seq<seq<int>> := [];
    for i := 0 to |matches|
      invariant |tokenIds| == i
      invariant forall k :: 0 <= k < i ==> tokenIds[k] == matches[k].tokenIds
    {
      tokenIds := tokenIds + [matches[i].tokenIds];
    }
    var source: seq<string> := [];
    var relation: seq<string> := [];
    var target: seq<string> := [];
    for i := 0 to |tokenIds|
      invariant |source| == |relation| == |target| == i
      invariant forall k :: 0 <= k < i ==> Resolvable(|doc|, matches[k])
      invariant forall k :: 0 <= k < i ==>
        && source[k] == TokenAt(doc, matches[k].tokenIds[1])
        && relation[k] == TokenAt(doc, matches[k].tokenIds[0])
        && target[k] == TokenAt(doc, matches[k].tokenIds[2])
    {
      var ids := tokenIds[i];
      if |ids| < 3 {
        return Err(IndexError(i));
      }
      var s := PyIndex(|doc|, ids[1]);
      var p := PyIndex(|doc|, ids[0]);
      var o := PyIndex(|doc|, ids[2]);
      if s.None? || p.None? || o.None? {
        return Err(IndexError(i));
      }
      source := source + [doc[s.value]];
      relation := relation + [doc[p.value]];
      target := target + [doc[o.value]];
    }
    res := Ok(Columns(source, relation, target));
  }

  /** The relation table for a parsed document and its matches: the projected rows
      with exact duplicates dropped, or the error the projection raises. */
  method GetTriples(doc: seq<string>, matches: seq<Match>) returns (res: Result<seq<Triple>, Error>)
    ensures res.Ok? <==> AllResolvable(|doc|, matches)
    ensures res.Err? ==> FirstUnresolvable(|doc|, matches, res.error.matchPos)
    ensures res.Ok? ==> res.value == Dedup(Projected(doc, matches))
    ensures res.Ok? ==> NoDuplicates(res.value)
    ensures res.Ok? ==> forall i :: 0 <= i < |matches| ==> RowOf(doc, matches[i]) in res.value
    ensures res.Ok? ==> forall k :: 0 <= k < |res.value| ==>
      exists i :: 0 <= i < |matches| && Resolvable(|doc|, matches[i]) && res.value[k] == RowOf(doc, matches[i])
    ensures res.Ok? ==> forall k, l :: 0 <= k < l < |res.value| ==>
      FirstIndex(Projected(doc, matches), res.value[k]) < FirstIndex(Projected(doc, matches), res.value[l])
    ensures res.Ok? && |matches| == 0 ==> res.value == []
  {
    var cols := BuildColumns(doc, matches);
    if cols.Err? {
      return Err(cols.error);
    }
    var table := Rows(cols.value);
    assert table == Projected(doc, matches);
    var kept := Dedup(table);
    DedupKeepsFirstOccurrenceOrder(table);
    assert forall i :: 0 <= i < |matches| ==> table[i] == RowOf(doc, matches[i]);
    forall k | 0 <= k < |kept|
      ensures exists i :: 0 <= i < |matches| && Resolvable(|doc|, matches[i]) && kept[k] == RowOf(doc, matches[i])
    {
      var i := FirstIndex(table, kept[k]);
      assert kept[k] == RowOf(doc, matches[i]);
    }
    res := Ok(kept);
  }

  /** Running the de-duplication again on the relation table changes nothing. */
  lemma TableDedupIdempotent(doc: seq<string>, matches: seq<Match>)
    requires AllResolvable(|doc|, matches)
    ensures Dedup(Dedup(Projected(doc, matches))) == Dedup(Projected(doc, matches))
  {
    DedupIdempotent(Projected(doc, matches));
  }

  /** A repeated sentence yields a repeated match, which collapses to a single row. */
  lemma RepeatedMatchCollapses(doc: seq<string>, m: Match)
    requires Resolvable(|doc|, m)
    ensures Dedup(Projected(doc, [m, m])) == [RowOf(doc, m)]
  {
    var rows := Projected(doc, [m, m]);
    assert rows == [RowOf(doc, m), RowOf(doc, m)];
    assert rows[..1] == [RowOf(doc, m)];
    assert rows[..1][..0] == [];
  }

  /** "Alice sees Bob.": the one subject-verb-object match becomes the row
      (Alice, sees, Bob). */
  lemma SingleSentenceRow()
    ensures RowOf(["Alice", "sees", "Bob", "."], Match(0, [1, 0, 2])) == Triple("Alice", "sees", "Bob")
  {
  }
}
