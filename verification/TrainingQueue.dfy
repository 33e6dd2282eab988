/** The training example queue (src/cache/training_queue.rs): append rows, export each of them once. */
module TrainingQueue {
  import opened Prelude

  datatype TrainingSource = LlmRephrasing | UserConfirmed | OriginalQuery

  datatype TrainingExample = TrainingExample(query: string, intentLabel: string, source: TrainingSource, createdAt: int)

  function SourceText(s: TrainingSource): string {
    match s
    case LlmRephrasing => "llm_rephrasing"
    case UserConfirmed => "user_confirmed"
    case OriginalQuery => "original_query"
  }

  /** Any other text reads as a rephrasing. */
  function ParseSource(text: string): TrainingSource {
    if text == "user_confirmed" then UserConfirmed
    else if text == "original_query" then OriginalQuery
    else LlmRephrasing
  }

  lemma {:induction false} SourceRoundTrip(s: TrainingSource)
    ensures ParseSource(SourceText(s)) == s
  {
    assert |"user_confirmed"| == 14 == |"llm_rephrasing"|;
    assert "llm_rephrasing"[0] == 'l' && "user_confirmed"[0] == 'u' && "original_query"[0] == 'o';
  }

  datatype Row = Row(id: int, query: string, intentLabel: string, source: string, exported: bool, createdAt: int)

  function ExampleOf(row: Row): TrainingExample {
    TrainingExample(row.query, row.intentLabel, ParseSource(row.source), row.createdAt)
  }

  /** AUTOINCREMENT without deletions. */
  function NextId(rows: seq<Row>): int { if rows == [] then 1 else rows[|rows| - 1].id + 1 }

  function RowFor(rows: seq<Row>, x: TrainingExample): Row {
    Row(NextId(rows), x.query, x.intentLabel, SourceText(x.source), false, x.createdAt)
  }

  /** The rows that were not exported, in id order. */
  function PendingRows(rows: seq<Row>): seq<Row> {
    if rows == [] then []
    else
      var n := |rows| - 1;
      if rows[n].exported then PendingRows(rows[..n]) else PendingRows(rows[..n]) + [rows[n]]
  }

  function Examples(rows: seq<Row>): (xs: seq<TrainingExample>)
    ensures |xs| == |rows|
  {
    if rows == [] then [] else Examples(rows[..|rows| - 1]) + [ExampleOf(rows[|rows| - 1])]
  }

  function Pending(rows: seq<Row>): seq<TrainingExample> { Examples(PendingRows(rows)) }

  /** The UPDATE of the export: every row up to the id becomes exported. */
  function MarkUpTo(rows: seq<Row>, maxId: int): (r: seq<Row>)
    ensures |r| == |rows|
  {
    if rows == [] then []
    else
      var n := |rows| - 1;
      MarkUpTo(rows[..n], maxId) + [if rows[n].id <= maxId then rows[n].(exported := true) else rows[n]]
  }

  function AfterExport(rows: seq<Row>): seq<Row> {
    var pending := PendingRows(rows);
    if pending == [] then rows else MarkUpTo(rows, pending[|pending| - 1].id)
  }

  class TrainingQueue {
    var rows: seq<Row>

    constructor ()
      ensures rows == []
    {
      rows := [];
    }

    method Enqueue(query: string, intentLabel: string, source: TrainingSource, now: int)
      modifies this
      ensures rows == old(rows) + [RowFor(old(rows), TrainingExample(query, intentLabel, source, now))]
    {
      rows := rows + [Row(NextId(rows), query, intentLabel, SourceText(source), false, now)];
    }

    /** `clock(k)` is the reading of the k-th insertion. */
    method EnqueueRephrasings(originalQuery: string, intentLabel: string, rephrasings: seq<string>, clock: nat -> int)
      returns (count: nat)
      modifies this
      ensures count == 1 + |rephrasings|
      ensures rows == EnqueueAll(old(rows), RephrasingExamples(originalQuery, intentLabel, rephrasings, clock))
    {
      ghost var xs := RephrasingExamples(originalQuery, intentLabel, rephrasings, clock);
      Enqueue(originalQuery, intentLabel, OriginalQuery, clock(0));
      assert xs[..1][..0] == [] && EnqueueAll(old(rows), xs[..0]) == old(rows);
      for k := 0 to |rephrasings|
        invariant rows == EnqueueAll(old(rows), xs[..k + 1])
      {
        EnqueueNext(old(rows), xs, k + 1);
        Enqueue(rephrasings[k], intentLabel, LlmRephrasing, clock(k + 1));
      }
      assert xs[..|rephrasings| + 1] == xs;
      count := 1 + |rephrasings|;
    }

    method PendingCount() returns (n: nat)
      ensures n == |Pending(rows)|
    {
      n := 0;
      for i := 0 to |rows|
        invariant n == |PendingRows(rows[..i])|
      {
        assert rows[..i + 1][..i] == rows[..i];
        if !rows[i].exported {
          n := n + 1;
        }
      }
      assert rows[..|rows|] == rows;
    }

    method ExportBatch() returns (batch: seq<TrainingExample>)
      modifies this
      ensures batch == Pending(old(rows)) && rows == AfterExport(old(rows))
    {
      var pending := [];
      for i := 0 to |rows|
        invariant rows == old(rows) && pending == PendingRows(rows[..i])
      {
        assert rows[..i + 1][..i] == rows[..i];
        if !rows[i].exported {
          pending := pending + [rows[i]];
        }
      }
      assert rows[..|rows|] == rows;
      if pending != [] {
        rows := MarkUpTo(rows, pending[|pending| - 1].id);
      }
      batch := Examples(pending);
    }
  }

  function EnqueueAll(rows: seq<Row>, xs: seq<TrainingExample>): seq<Row> {
    if xs == [] then rows
    else
      var before := EnqueueAll(rows, xs[..|xs| - 1]);
      before + [RowFor(before, xs[|xs| - 1])]
  }

  lemma {:induction false} EnqueueNext(rows: seq<Row>, xs: seq<TrainingExample>, k: nat)
    requires k < |xs|
    ensures var before := EnqueueAll(rows, xs[..k]); EnqueueAll(rows, xs[..k + 1]) == before + [RowFor(before, xs[k])]
  {
    assert xs[..k + 1][..k] == xs[..k];
  }

  function RephrasingExamples(query: string, label': string, rephrasings: seq<string>, clock: nat -> int): (xs: seq<TrainingExample>)
    ensures |xs| == 1 + |rephrasings| && xs[0] == TrainingExample(query, label', OriginalQuery, clock(0))
    ensures forall k :: 0 <= k < |rephrasings| ==> xs[k + 1] == TrainingExample(rephrasings[k], label', LlmRephrasing, clock(k + 1))
  {
    [TrainingExample(query, label', OriginalQuery, clock(0))]
    + seq(|rephrasings|, k requires 0 <= k < |rephrasings| => TrainingExample(rephrasings[k], label', LlmRephrasing, clock(k + 1)))
  }

  // ---------------------------------------------------------------------------------------
  // Every run
  // ---------------------------------------------------------------------------------------

  datatype Operation = Add(x: TrainingExample) | Export

  function Step(rows: seq<Row>, op: Operation): seq<Row> {
    match op
    case Add(x) => rows + [RowFor(rows, x)]
    case Export => AfterExport(rows)
  }

  ghost function RunFrom(rows: seq<Row>, ops: seq<Operation>): seq<Row>
    decreases |ops|
  {
    if ops == [] then rows else RunFrom(Step(rows, ops[0]), ops[1..])
  }

  /** Everything the exports of a run return, one batch after the other. */
  ghost function ExportedBy(rows: seq<Row>, ops: seq<Operation>): seq<TrainingExample>
    decreases |ops|
  {
    if ops == [] then []
    else (if ops[0].Export? then Pending(rows) else []) + ExportedBy(Step(rows, ops[0]), ops[1..])
  }

  /** Everything a run enqueues. */
  ghost function EnqueuedBy(ops: seq<Operation>): seq<TrainingExample> {
    if ops == [] then [] else (if ops[0].Add? then [ops[0].x] else []) + EnqueuedBy(ops[1..])
  }

  /** Ids grow, and the exported rows come first. */
  ghost predicate Good(rows: seq<Row>) {
    && (forall i, j :: 0 <= i < j < |rows| ==> rows[i].id < rows[j].id)
    && (forall i, j :: 0 <= i < j < |rows| && rows[j].exported ==> rows[i].exported)
  }

  lemma {:induction false} PendingOfAppend(rows: seq<Row>, row: Row)
    ensures Pending(rows + [row]) == Pending(rows) + if row.exported then [] else [ExampleOf(row)]
  {
    assert (rows + [row])[..|rows|] == rows;
    var p := PendingRows(rows);
    assert (p + [row])[..|p|] == p;
    assert Pending(rows) + [] == Pending(rows);
  }

  lemma {:induction false} AddStep(rows: seq<Row>, x: TrainingExample)
    requires Good(rows)
    ensures Good(Step(rows, Add(x))) && Pending(Step(rows, Add(x))) == Pending(rows) + [x]
  {
    var row := RowFor(rows, x);
    SourceRoundTrip(x.source);
    PendingOfAppend(rows, row);
    assert ExampleOf(row) == x;
    GoodAppend(rows, row);
  }

  lemma {:induction false} GoodAppend(rows: seq<Row>, row: Row)
    requires Good(rows) && !row.exported && (rows != [] ==> row.id > rows[|rows| - 1].id)
    ensures Good(rows + [row])
  {
    assert forall i :: 0 <= i < |rows| ==> rows[i].id <= rows[|rows| - 1].id;
  }

  lemma {:induction false} LastPendingIsLast(rows: seq<Row>)
    requires Good(rows) && PendingRows(rows) != []
    ensures var p := PendingRows(rows); p[|p| - 1] == rows[|rows| - 1]
  {
    var n := |rows| - 1;
    if rows[n].exported {
      AllExported(rows);
    }
  }

  lemma {:induction false} AllExported(rows: seq<Row>)
    requires forall i :: 0 <= i < |rows| ==> rows[i].exported
    ensures PendingRows(rows) == []
  {
    if rows != [] {
      AllExported(rows[..|rows| - 1]);
    }
  }

  lemma {:induction false} MarkedRows(rows: seq<Row>, maxId: int)
    ensures var r := MarkUpTo(rows, maxId);
            forall i :: 0 <= i < |rows| ==> r[i] == if rows[i].id <= maxId then rows[i].(exported := true) else rows[i]
  {
    if rows != [] {
      MarkedRows(rows[..|rows| - 1], maxId);
    }
  }

  /** An export leaves nothing pending: the id of the last pending row covers all rows. */
  lemma {:induction false} ExportStep(rows: seq<Row>)
    requires Good(rows)
    ensures Good(AfterExport(rows)) && Pending(AfterExport(rows)) == []
  {
    var p := PendingRows(rows);
    if p != [] {
      LastPendingIsLast(rows);
      MarkedRows(rows, p[|p| - 1].id);
      AllExported(AfterExport(rows));
    }
  }

  /**
   * Exactly once and in order: what a run exports, followed by what is still pending, is what was
   * pending before, followed by what the run enqueued.
   */
  lemma {:induction false} ExportedExactlyOnce(rows: seq<Row>, ops: seq<Operation>)
    requires Good(rows)
    ensures Good(RunFrom(rows, ops))
    ensures ExportedBy(rows, ops) + Pending(RunFrom(rows, ops)) == Pending(rows) + EnqueuedBy(ops)
    decreases |ops|
  {
    if ops == [] {
      assert [] + Pending(rows) == Pending(rows) + [];
    } else {
      var next := Step(rows, ops[0]);
      match ops[0] {
        case Add(x) =>
          AddStep(rows, x);
          ExportedExactlyOnce(next, ops[1..]);
          Regroup(Pending(rows), [x], EnqueuedBy(ops[1..]));
          Prepended([], ExportedBy(next, ops[1..]));
        case Export =>
          ExportStep(rows);
          ExportedExactlyOnce(next, ops[1..]);
          Regroup(Pending(rows), ExportedBy(next, ops[1..]), Pending(RunFrom(next, ops[1..])));
          Prepended([], EnqueuedBy(ops[1..]));
      }
    }
  }

  /** From the empty queue on, the exported examples are a prefix of the enqueued ones, and a second export in a row is empty. */
  lemma {:induction false} ExportsAreAPrefix(ops: seq<Operation>)
    ensures ExportedBy([], ops) <= EnqueuedBy(ops)
    ensures ExportedBy([], ops) + Pending(RunFrom([], ops)) == EnqueuedBy(ops)
    ensures Pending(AfterExport(RunFrom([], ops))) == []
  {
    ExportedExactlyOnce([], ops);
    assert [] + EnqueuedBy(ops) == EnqueuedBy(ops);
    ExportStep(RunFrom([], ops));
  }

  /** The stored texts of the sources; any other text reads as a rephrasing. */
  lemma {:induction false} SourceTexts(text: string)
    ensures ParseSource(text).UserConfirmed? <==> text == "user_confirmed"
    ensures ParseSource(text).OriginalQuery? <==> text == "original_query"
    ensures SourceText(LlmRephrasing) == "llm_rephrasing"
  {
    assert "original_query"[0] == 'o' && "user_confirmed"[0] == 'u';
  }
}
