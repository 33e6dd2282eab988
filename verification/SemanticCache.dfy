/**
 * The semantic work cache (src/cache/semantic_cache.rs): best-match lookup with adaptive thresholds,
 * outcome recording that disables unreliable entries, and an audit log.
 */
module SemanticCache {
  import opened Prelude
  import opened EmbeddingCodec
  import opened Similarity
  import opened ParameterExtraction

  const STORED_THRESHOLD: real := 0.95
  const MIN_SUCCESS_RATE: real := 0.6
  const RELAX_AFTER_HITS: nat := 5

  datatype CachedWork = CachedWork(
    id: string,
    description: string,
    originalTask: string,
    rationale: string,
    improvementNotes: Option<string>,
    parameters: seq<Parameter>,
    implementation: string,
    hitCount: nat,
    successCount: nat,
    failureCount: nat,
    createdAt: int,
    lastUsedAt: int,
    similarityThreshold: real,
    enabled: bool)
  {
    function SuccessRate(): real { Rate(successCount, failureCount) }

    function EffectiveThreshold(): real {
      if hitCount >= RELAX_AFTER_HITS && SuccessRate() > 0.9 then
        if similarityThreshold - 0.03 >= 0.88 then similarityThreshold - 0.03 else 0.88
      else if SuccessRate() < 0.8 then
        if similarityThreshold + 0.03 <= 0.98 then similarityThreshold + 0.03 else 0.98
      else similarityThreshold
    }
  }

  function Rate(successes: nat, failures: nat): real {
    if successes + failures == 0 then 1.0 else successes as real / (successes + failures) as real
  }

  datatype Row = Row(work: CachedWork, embedding: seq<Byte>)

  datatype Action = Created | Hit | Success | Failure | Disabled | Invalidated

  datatype Event = Event(entryId: string, action: Action)

  /** Square root, the value of an `f32` bit pattern, the regex engine, and whether the database enforces foreign keys. */
  datatype Env = Env(sqrt: real -> real, value: Word -> real, find: Finder, foreignKeys: bool)

  datatype Table = Table(rows: seq<Row>, log: seq<Event>)

  datatype Operation =
    | Store(id: string, description: string, originalTask: string, rationale: string, notes: Option<string>,
            parameters: seq<Parameter>, implementation: string, embedding: seq<Word>, now: int)
    | Lookup(query: seq<Word>, now: int)
    | RecordOutcome(id: string, success: bool)
    | Invalidate(id: string)

  // ---------------------------------------------------------------------------------------
  // The operations on tables
  // ---------------------------------------------------------------------------------------

  function Values(env: Env, words: seq<Word>): (v: seq<real>)
    ensures |v| == |words| && forall i :: 0 <= i < |words| ==> v[i] == env.value(words[i])
  {
    if words == [] then [] else [env.value(words[0])] + Values(env, words[1..])
  }

  function SimilarityTo(env: Env, row: Row, query: seq<Word>): real {
    Cosine(Values(env, query), Values(env, BytesToF32(row.embedding)), env.sqrt)
  }

  predicate Qualifies(env: Env, row: Row, query: seq<Word>) {
    row.work.enabled && SimilarityTo(env, row, query) >= row.work.EffectiveThreshold()
  }

  /** The similarity of a row that may answer, none for the others. */
  function Score(env: Env, row: Row, query: seq<Word>): Option<real> {
    if Qualifies(env, row, query) then Some(SimilarityTo(env, row, query)) else None
  }

  function Scores(env: Env, rows: seq<Row>, query: seq<Word>): (s: seq<Option<real>>)
    ensures |s| == |rows|
  {
    if rows == [] then [] else [Score(env, rows[0], query)] + Scores(env, rows[1..], query)
  }

  lemma {:induction false} ScoresAt(env: Env, rows: seq<Row>, query: seq<Word>, i: nat)
    requires i < |rows|
    ensures Scores(env, rows, query)[i] == Score(env, rows[i], query)
  {
    if i > 0 {
      ScoresAt(env, rows[1..], query, i - 1);
    }
  }

  /** A scan in which a later score has to be greater to win. */
  function FirstMaximum(scores: seq<Option<real>>, n: nat): (r: Option<nat>)
    requires n <= |scores|
    ensures r.Some? ==> r.value < n && scores[r.value].Some?
  {
    if n == 0 then None
    else
      var best := FirstMaximum(scores, n - 1);
      if scores[n - 1].None? || (best.Some? && scores[n - 1].value <= scores[best.value].value) then best
      else Some(n - 1)
  }

  /** The scan over the first `n` rows. */
  function Best(env: Env, rows: seq<Row>, query: seq<Word>, n: nat): (r: Option<nat>)
    requires n <= |rows|
    ensures r.Some? ==> r.value < n
  {
    FirstMaximum(Scores(env, rows, query), n)
  }

  function FindRow(rows: seq<Row>, id: string): (r: Option<nat>)
    ensures r.Some? ==> r.value < |rows| && rows[r.value].work.id == id
    ensures r.None? ==> forall i :: 0 <= i < |rows| ==> rows[i].work.id != id
  {
    if rows == [] then None
    else if rows[|rows| - 1].work.id == id then Some(|rows| - 1)
    else FindRow(rows[..|rows| - 1], id)
  }

  function NewRow(op: Operation): Row
    requires op.Store?
  {
    Row(CachedWork(op.id, op.description, op.originalTask, op.rationale, op.notes, op.parameters, op.implementation,
                   0, 0, 0, op.now, op.now, STORED_THRESHOLD, true),
        F32ToBytes(op.embedding))
  }

  function WithHit(row: Row, now: int): Row {
    row.(work := row.work.(hitCount := row.work.hitCount + 1, lastUsedAt := now))
  }

  function WithOutcome(row: Row, success: bool): Row {
    if success then row.(work := row.work.(successCount := row.work.successCount + 1))
    else row.(work := row.work.(failureCount := row.work.failureCount + 1))
  }

  predicate Unreliable(row: Row) {
    row.work.successCount + row.work.failureCount >= 3 && row.work.SuccessRate() < MIN_SUCCESS_RATE
  }

  function WithoutUse(row: Row): Row { row.(work := row.work.(enabled := false)) }

  /** An event for an id without a row is refused if foreign keys are enforced. */
  function LogUnknown(env: Env, t: Table, id: string, action: Action): Table {
    if env.foreignKeys then t else t.(log := t.log + [Event(id, action)])
  }

  function Step(env: Env, t: Table, op: Operation): Table {
    match op
    case Store(_, _, _, _, _, _, _, _, _) => Table(t.rows + [NewRow(op)], t.log + [Event(op.id, Created)])
    case Lookup(query, now) =>
      (match Best(env, t.rows, query, |t.rows|)
       case None => t
       case Some(i) => Table(t.rows[i := WithHit(t.rows[i], now)], t.log + [Event(t.rows[i].work.id, Hit)]))
    case RecordOutcome(id, success) =>
      (match FindRow(t.rows, id)
       case None => LogUnknown(env, t, id, if success then Success else Failure)
       case Some(i) =>
         var row := WithOutcome(t.rows[i], success);
         var log := t.log + [Event(id, if success then Success else Failure)];
         if !success && Unreliable(row) then Table(t.rows[i := WithoutUse(row)], log + [Event(id, Disabled)])
         else Table(t.rows[i := row], log))
    case Invalidate(id) =>
      (match FindRow(t.rows, id)
       case None => LogUnknown(env, t, id, Invalidated)
       case Some(i) => Table(t.rows[i := WithoutUse(t.rows[i])], t.log + [Event(id, Invalidated)]))
  }

  datatype CacheLookup = CacheHit(entry: CachedWork, similarity: real, extractedParams: map<string, string>) | CacheMiss

  class SemanticCache {
    var rows: seq<Row>
    var log: seq<Event>
    const env: Env

    function Contents(): Table
      reads this
    {
      Table(rows, log)
    }

    constructor (env: Env)
      ensures this.env == env && Contents() == Table([], [])
    {
      this.env, rows, log := env, [], [];
    }

    method LogEvent(id: string, action: Action) returns (ok: bool)
      modifies this`log
      ensures ok <==> FindRow(rows, id).Some? || !env.foreignKeys
      ensures log == old(log) + if ok then [Event(id, action)] else []
    {
      ok := FindRow(rows, id).Some? || !env.foreignKeys;
      if ok {
        log := log + [Event(id, action)];
      }
    }

    method StoreEntry(op: Operation)
      requires op.Store? && Fresh(Contents(), op.id)
      modifies this
      ensures Contents() == Step(env, old(Contents()), op)
    {
      rows := rows + [NewRow(op)];
      var ok := LogEvent(op.id, Created);
    }

    method ScoreRow(i: nat, query: seq<Word>) returns (score: Option<real>)
      requires i < |rows|
      ensures score == Scores(env, rows, query)[i]
    {
      ScoresAt(env, rows, query, i);
      var row := rows[i];
      score := None;
      if row.work.enabled {
        var s := CosineSimilarity(Values(env, query), Values(env, BytesToF32(row.embedding)), env.sqrt);
        if s >= row.work.EffectiveThreshold() {
          score := Some(s);
        }
      }
    }

    /** The brute-force scan over the enabled entries. */
    method FindBest(query: seq<Word>) returns (best: Option<nat>, similarity: real)
      ensures best == Best(env, rows, query, |rows|)
      ensures best.Some? ==> similarity == SimilarityTo(env, rows[best.value], query)
    {
      ghost var scores := Scores(env, rows, query);
      best, similarity := None, 0.0;
      for n := 0 to |rows|
        invariant best == FirstMaximum(scores, n)
        invariant best.Some? ==> scores[best.value] == Some(similarity)
      {
        var score := ScoreRow(n, query);
        if score.Some? && !(best.Some? && score.value <= similarity) {
          best, similarity := Some(n), score.value;
        }
      }
      if best.Some? {
        ScoresAt(env, rows, query, best.value);
      }
    }

    /** `text` is the task text from which the parameters of a hit are extracted. */
    method LookupEntry(query: seq<Word>, text: string, now: int) returns (r: CacheLookup)
      requires ValidFinder(env.find, text)
      modifies this
      ensures Contents() == Step(env, old(Contents()), Lookup(query, now))
      ensures match Best(env, old(rows), query, |old(rows)|)
              case None => r == CacheMiss
              case Some(i) =>
                var entry := old(rows)[i].work;
                r == CacheHit(entry, SimilarityTo(env, old(rows)[i], query),
                              Extraction(text, entry.parameters, Some(entry.originalTask), env.find))
      ensures IsSqrt(env.sqrt) && Good(old(Contents())) ==>
                (r.CacheHit? <==> exists i :: 0 <= i < |old(rows)| && Near(env, old(rows)[i], query))
    {
      if IsSqrt(env.sqrt) && Good(Contents()) {
        assert forall i :: 0 <= i < |rows| ==> GoodRow(rows[i], log);
        LookupFindsNear(env, rows, query);
      }
      var best, similarity := FindBest(query);
      if best.None? {
        return CacheMiss;
      }
      var i := best.value;
      var entry := rows[i].work;
      rows := rows[i := WithHit(rows[i], now)];
      assert rows[i].work.id == entry.id;
      var ok := LogEvent(entry.id, Hit);
      var params := ExtractParameters(text, entry.parameters, Some(entry.originalTask), env.find);
      r := CacheHit(entry, similarity, params);
    }

    /** `ok` is false for an unknown id: the log refuses the event, or the read-back of the counters finds no row. */
    method Record(id: string, success: bool) returns (ok: bool)
      modifies this
      ensures Contents() == Step(env, old(Contents()), RecordOutcome(id, success))
      ensures ok <==> FindRow(old(rows), id).Some? || (success && !env.foreignKeys)
    {
      var found := FindRow(rows, id);
      if found.None? {
        ok := LogEvent(id, if success then Success else Failure);
        ok := ok && success;
        return;
      }
      var i := found.value;
      rows := rows[i := WithOutcome(rows[i], success)];
      assert rows[i].work.id == id;
      ok := LogEvent(id, if success then Success else Failure);
      if !success {
        var total := rows[i].work.successCount + rows[i].work.failureCount;
        var rate := if total > 0 then rows[i].work.successCount as real / total as real else 1.0;
        if total >= 3 && rate < MIN_SUCCESS_RATE {
          rows := rows[i := WithoutUse(rows[i])];
          assert rows[i].work.id == id;
          var logged := LogEvent(id, Disabled);
        }
      }
    }

    method InvalidateEntry(id: string) returns (ok: bool)
      modifies this
      ensures Contents() == Step(env, old(Contents()), Invalidate(id))
      ensures ok <==> FindRow(old(rows), id).Some? || !env.foreignKeys
    {
      var found := FindRow(rows, id);
      if found.Some? {
        rows := rows[found.value := WithoutUse(rows[found.value])];
        assert rows[found.value].work.id == id;
      }
      ok := LogEvent(id, Invalidated);
    }
  }

  // ---------------------------------------------------------------------------------------
  // Thresholds and lookups
  // ---------------------------------------------------------------------------------------

  lemma {:induction false} QuotientCompare(a: real, b: real, c: real)
    requires b > 0.0
    ensures a / b < c <==> a < c * b
  {
    var q := a / b;
    assert q * b == a;
    assert (c - q) * b == c * b - a;
  }

  /** Stored entries accept similarities from 0.92, 0.95 or 0.98 on. */
  lemma {:induction false} StoredThresholdRange(w: CachedWork)
    requires w.similarityThreshold == STORED_THRESHOLD
    ensures w.EffectiveThreshold() == 0.92 || w.EffectiveThreshold() == 0.95 || w.EffectiveThreshold() == 0.98
  {
  }

  /**
   * The threshold of a stored entry in whole numbers: relaxed from five hits on with more than nine
   * successes in ten outcomes, or with none recorded; tightened below four successes in five.
   */
  lemma {:induction false} StoredThresholdIs(w: CachedWork)
    requires w.similarityThreshold == STORED_THRESHOLD
    ensures var total := w.successCount + w.failureCount;
            var relaxed, tightened := w.hitCount >= 5 && (total == 0 || 10 * w.successCount > 9 * total), total > 0 && 5 * w.successCount < 4 * total;
            w.EffectiveThreshold() == if relaxed then 0.92 else if tightened then 0.98 else 0.95
  {
    var total := w.successCount + w.failureCount;
    if total > 0 {
      QuotientCompare(w.successCount as real, total as real, 0.8);
      QuotientExceeds(w.successCount as real, total as real, 0.9);
    }
  }

  lemma {:induction false} QuotientExceeds(a: real, b: real, c: real)
    requires b > 0.0
    ensures a / b > c <==> a > c * b
  {
    var q := a / b;
    assert q * b == a;
    assert (q - c) * b == a - c * b;
  }

  ghost predicate Relaxes(w: CachedWork) { w.hitCount >= RELAX_AFTER_HITS && w.SuccessRate() > 0.9 }

  ghost predicate Tightens(w: CachedWork) { w.SuccessRate() < 0.8 }

  /** Adaptation goes the announced way exactly for base thresholds from 0.88 to 0.98; outside, the clamps reverse it. */
  lemma {:induction false} AdaptationDirection(w: CachedWork)
    ensures Relaxes(w) ==> (w.EffectiveThreshold() <= w.similarityThreshold <==> w.similarityThreshold >= 0.88)
    ensures Tightens(w) ==> (w.EffectiveThreshold() >= w.similarityThreshold <==> w.similarityThreshold <= 0.98)
    ensures !Relaxes(w) && !Tightens(w) ==> w.EffectiveThreshold() == w.similarityThreshold
  {
  }

  lemma {:induction false} FirstMaximumIs(scores: seq<Option<real>>, n: nat)
    requires n <= |scores|
    ensures var best := FirstMaximum(scores, n);
            && (best.None? <==> forall i :: 0 <= i < n ==> scores[i].None?)
            && (best.Some? ==>
                  && (forall i :: 0 <= i < n && scores[i].Some? ==> scores[i].value <= scores[best.value].value)
                  && (forall i :: 0 <= i < best.value && scores[i].Some? ==> scores[i].value < scores[best.value].value))
  {
    if n > 0 {
      FirstMaximumIs(scores, n - 1);
    }
  }

  /** The scan finds the first row of maximal similarity among the qualifying ones, and misses only if there is none. */
  lemma {:induction false} BestIsFirstMaximum(env: Env, rows: seq<Row>, query: seq<Word>)
    ensures var best := Best(env, rows, query, |rows|);
            && (best.None? <==> forall i :: 0 <= i < |rows| ==> !Qualifies(env, rows[i], query))
            && (best.Some? ==>
                  && Qualifies(env, rows[best.value], query)
                  && (forall i :: 0 <= i < |rows| && Qualifies(env, rows[i], query) ==>
                        SimilarityTo(env, rows[i], query) <= SimilarityTo(env, rows[best.value], query))
                  && (forall i :: 0 <= i < best.value && Qualifies(env, rows[i], query) ==>
                        SimilarityTo(env, rows[i], query) < SimilarityTo(env, rows[best.value], query)))
  {
    var scores := Scores(env, rows, query);
    FirstMaximumIs(scores, |rows|);
    forall i | 0 <= i < |rows|
      ensures scores[i] == Score(env, rows[i], query)
    {
      ScoresAt(env, rows, query, i);
    }
  }

  /** The entry is in use and the query reaches its threshold: a statement about dot products and squared norms alone. */
  ghost predicate Near(env: Env, row: Row, query: seq<Word>) {
    row.work.enabled && Reaches(Values(env, query), Values(env, BytesToF32(row.embedding)), row.work.EffectiveThreshold())
  }

  lemma {:induction false} QualifiesIff(env: Env, row: Row, query: seq<Word>)
    requires IsSqrt(env.sqrt) && row.work.similarityThreshold == STORED_THRESHOLD
    ensures Qualifies(env, row, query) <==> Near(env, row, query)
  {
    StoredThresholdRange(row.work);
    CosineReachesIff(Values(env, query), Values(env, BytesToF32(row.embedding)), env.sqrt, row.work.EffectiveThreshold());
  }

  /** A hit is counted once and stamped in the row that answers, and leaves the other rows alone; a miss leaves everything alone. */
  lemma {:induction false} LookupTouchesOneRow(env: Env, t: Table, query: seq<Word>, now: int, i: nat)
    requires i < |t.rows|
    ensures var t', best := Step(env, t, Lookup(query, now)), Best(env, t.rows, query, |t.rows|);
            && |t'.rows| == |t.rows|
            && (best != Some(i) ==> t'.rows[i] == t.rows[i])
            && (best == Some(i) ==> t'.rows[i].work.hitCount == t.rows[i].work.hitCount + 1 && t'.rows[i].work.lastUsedAt == now)
            && (best.None? ==> t' == t)
  {
  }

  /** A lookup hits exactly if the query is near some row, and what it finds is near. */
  lemma {:induction false} LookupFindsNear(env: Env, rows: seq<Row>, query: seq<Word>)
    requires IsSqrt(env.sqrt) && forall i :: 0 <= i < |rows| ==> rows[i].work.similarityThreshold == STORED_THRESHOLD
    ensures var best := Best(env, rows, query, |rows|);
            && (best.Some? <==> exists i :: 0 <= i < |rows| && Near(env, rows[i], query))
            && (best.Some? ==> Near(env, rows[best.value], query))
  {
    BestIsFirstMaximum(env, rows, query);
    forall i | 0 <= i < |rows|
      ensures Qualifies(env, rows[i], query) <==> Near(env, rows[i], query)
    {
      QualifiesIff(env, rows[i], query);
    }
  }

  // ---------------------------------------------------------------------------------------
  // Every run of operations
  // ---------------------------------------------------------------------------------------

  ghost predicate Fresh(t: Table, id: string) {
    && (forall i :: 0 <= i < |t.rows| ==> t.rows[i].work.id != id)
    && (forall i :: 0 <= i < |t.log| ==> t.log[i].entryId != id)
  }

  ghost function Count(log: seq<Event>, e: Event): nat {
    if log == [] then 0 else Count(log[..|log| - 1], e) + if log[|log| - 1] == e then 1 else 0
  }

  /** The counters of a row are the numbers of its log rows. */
  ghost predicate CountersMatch(row: Row, log: seq<Event>) {
    && row.work.hitCount == Count(log, Event(row.work.id, Hit))
    && row.work.successCount == Count(log, Event(row.work.id, Success))
    && row.work.failureCount == Count(log, Event(row.work.id, Failure))
  }

  /** An entry in use has at most two failures, or at least three successes for every two failures. */
  ghost predicate Reliable(row: Row) {
    row.work.failureCount <= 2 || 2 * row.work.successCount >= 3 * row.work.failureCount
  }

  ghost predicate GoodRow(row: Row, log: seq<Event>) {
    && CountersMatch(row, log)
    && row.work.similarityThreshold == STORED_THRESHOLD
    && (row.work.enabled ==> Reliable(row))
  }

  ghost predicate Good(t: Table) {
    && (forall i, j :: 0 <= i < j < |t.rows| ==> t.rows[i].work.id != t.rows[j].work.id)
    && (forall i :: 0 <= i < |t.rows| ==> GoodRow(t.rows[i], t.log))
  }

  ghost predicate Permitted(t: Table, op: Operation) { op.Store? ==> Fresh(t, op.id) }

  lemma {:induction false} CountAppend(log: seq<Event>, added: Event, e: Event)
    ensures Count(log + [added], e) == Count(log, e) + if added == e then 1 else 0
  {
    assert (log + [added])[..|log|] == log;
  }

  lemma {:induction false} OtherRowUnaffected(row: Row, log: seq<Event>, added: Event)
    requires GoodRow(row, log) && (added.entryId != row.work.id || added.action in {Created, Disabled, Invalidated})
    ensures GoodRow(row, log + [added])
  {
    CountAppend(log, added, Event(row.work.id, Hit));
    CountAppend(log, added, Event(row.work.id, Success));
    CountAppend(log, added, Event(row.work.id, Failure));
  }

  lemma {:induction false} CountOfAbsent(log: seq<Event>, e: Event)
    requires forall i :: 0 <= i < |log| ==> log[i].entryId != e.entryId
    ensures Count(log, e) == 0
  {
    if log != [] {
      CountOfAbsent(log[..|log| - 1], e);
    }
  }

  /** The three kinds of counted event, each with the row change that goes with it. */
  lemma {:induction false} CountedEvent(row: Row, log: seq<Event>, row': Row, action: Action)
    requires GoodRow(row, log)
    requires || (action == Hit && exists now :: row' == WithHit(row, now))
             || (action == Success && row' == WithOutcome(row, true))
             || (action == Failure && row' == WithOutcome(row, false))
    ensures CountersMatch(row', log + [Event(row.work.id, action)]) && row'.work.similarityThreshold == STORED_THRESHOLD
    ensures action != Failure ==> GoodRow(row', log + [Event(row.work.id, action)])
  {
    var id := row.work.id;
    CountAppend(log, Event(id, action), Event(id, Hit));
    CountAppend(log, Event(id, action), Event(id, Success));
    CountAppend(log, Event(id, action), Event(id, Failure));
  }

  lemma {:induction false} UnreliableIs(row: Row)
    ensures Unreliable(row) <==> row.work.successCount + row.work.failureCount >= 3 && 2 * row.work.successCount < 3 * row.work.failureCount
  {
    var total := row.work.successCount + row.work.failureCount;
    if total > 0 {
      QuotientCompare(row.work.successCount as real, total as real, MIN_SUCCESS_RATE);
    }
  }

  /** One row changes together with its log rows, the others stay. */
  lemma {:induction false} ChangeOneRow(t: Table, i: nat, row: Row, added: Event)
    requires Good(t) && i < |t.rows| && row.work.id == t.rows[i].work.id == added.entryId
    requires GoodRow(row, t.log + [added])
    ensures Good(Table(t.rows[i := row], t.log + [added]))
  {
    forall j | 0 <= j < |t.rows| && j != i
      ensures GoodRow(t.rows[j], t.log + [added])
    {
      OtherRowUnaffected(t.rows[j], t.log, added);
    }
  }

  lemma {:induction false} StoreKeepsGood(env: Env, t: Table, op: Operation)
    requires Good(t) && op.Store? && Fresh(t, op.id)
    ensures Good(Step(env, t, op))
  {
    var added := Event(op.id, Created);
    forall i | 0 <= i < |t.rows|
      ensures GoodRow(t.rows[i], t.log + [added])
    {
      OtherRowUnaffected(t.rows[i], t.log, added);
    }
    CountOfAbsent(t.log, Event(op.id, Hit));
    CountOfAbsent(t.log, Event(op.id, Success));
    CountOfAbsent(t.log, Event(op.id, Failure));
    OtherRowUnaffected(NewRow(op), t.log, added);
  }

  lemma {:induction false} UnknownKeepsGood(env: Env, t: Table, id: string, action: Action)
    requires Good(t) && FindRow(t.rows, id).None?
    ensures Good(LogUnknown(env, t, id, action))
  {
    forall i | 0 <= i < |t.rows|
      ensures GoodRow(t.rows[i], t.log + [Event(id, action)])
    {
      OtherRowUnaffected(t.rows[i], t.log, Event(id, action));
    }
  }

  lemma {:induction false} OutcomeKeepsGood(env: Env, t: Table, id: string, success: bool)
    requires Good(t) && FindRow(t.rows, id).Some?
    ensures Good(Step(env, t, RecordOutcome(id, success)))
  {
    var i := FindRow(t.rows, id).value;
    var row := WithOutcome(t.rows[i], success);
    var action := if success then Success else Failure;
    CountedEvent(t.rows[i], t.log, row, action);
    UnreliableIs(row);
    if !success && Unreliable(row) {
      ChangeOneRow(t, i, WithoutUse(row), Event(id, Failure));
      var t' := Table(t.rows[i := WithoutUse(row)], t.log + [Event(id, Failure)]);
      OtherRowUnaffected(WithoutUse(row), t'.log, Event(id, Disabled));
      ChangeOneRow(t', i, WithoutUse(row), Event(id, Disabled));
      assert t'.rows[i := WithoutUse(row)] == t'.rows;
    } else {
      ChangeOneRow(t, i, row, Event(id, action));
    }
  }

  lemma {:induction false} StepKeepsGood(env: Env, t: Table, op: Operation)
    requires Good(t) && Permitted(t, op)
    ensures Good(Step(env, t, op))
  {
    match op
    case Store(_, _, _, _, _, _, _, _, _) => StoreKeepsGood(env, t, op);
    case Lookup(query, now) =>
      var best := Best(env, t.rows, query, |t.rows|);
      if best.Some? {
        var row := t.rows[best.value];
        CountedEvent(row, t.log, WithHit(row, now), Hit);
        ChangeOneRow(t, best.value, WithHit(row, now), Event(row.work.id, Hit));
      }
    case RecordOutcome(id, success) =>
      if FindRow(t.rows, id).None? {
        UnknownKeepsGood(env, t, id, if success then Success else Failure);
      } else {
        OutcomeKeepsGood(env, t, id, success);
      }
    case Invalidate(id) =>
      if FindRow(t.rows, id).None? {
        UnknownKeepsGood(env, t, id, Invalidated);
      } else {
        var i := FindRow(t.rows, id).value;
        OtherRowUnaffected(t.rows[i], t.log, Event(id, Invalidated));
        ChangeOneRow(t, i, WithoutUse(t.rows[i]), Event(id, Invalidated));
      }
  }

  /** The table after a run. */
  ghost function RunFrom(env: Env, t: Table, ops: seq<Operation>): Table
    decreases |ops|
  {
    if ops == [] then t else RunFrom(env, Step(env, t, ops[0]), ops[1..])
  }

  ghost predicate PermittedRun(env: Env, t: Table, ops: seq<Operation>)
    decreases |ops|
  {
    ops == [] || (Permitted(t, ops[0]) && PermittedRun(env, Step(env, t, ops[0]), ops[1..]))
  }

  /** In every run the counters agree with the log and every entry in use is reliable. */
  lemma {:induction false} RunsStayGood(env: Env, t: Table, ops: seq<Operation>)
    requires Good(t) && PermittedRun(env, t, ops)
    ensures Good(RunFrom(env, t, ops))
    decreases |ops|
  {
    if ops != [] {
      StepKeepsGood(env, t, ops[0]);
      RunsStayGood(env, Step(env, t, ops[0]), ops[1..]);
    }
  }

  /** What never changes about a row, and that a disabled one stays disabled. */
  ghost predicate Continues(row: Row, row': Row) {
    && row'.work.id == row.work.id && row'.embedding == row.embedding && row'.work.parameters == row.work.parameters
    && row'.work.description == row.work.description && row'.work.originalTask == row.work.originalTask
    && row'.work.rationale == row.work.rationale && row'.work.improvementNotes == row.work.improvementNotes
    && row'.work.implementation == row.work.implementation && row'.work.createdAt == row.work.createdAt
    && (!row.work.enabled ==> !row'.work.enabled)
  }

  lemma {:induction false} StepContinues(env: Env, t: Table, op: Operation)
    ensures var t' := Step(env, t, op);
            |t.rows| <= |t'.rows| && forall i :: 0 <= i < |t.rows| ==> Continues(t.rows[i], t'.rows[i])
  {
    var t' := Step(env, t, op);
    forall i | 0 <= i < |t.rows|
      ensures Continues(t.rows[i], t'.rows[i])
    {
    }
  }

  /** Rows are never removed, moved or revived. */
  lemma {:induction false} DisabledStaysDisabled(env: Env, t: Table, ops: seq<Operation>)
    ensures var t' := RunFrom(env, t, ops);
            |t.rows| <= |t'.rows| && forall i :: 0 <= i < |t.rows| ==> Continues(t.rows[i], t'.rows[i])
    decreases |ops|
  {
    if ops != [] {
      StepContinues(env, t, ops[0]);
      var mid := Step(env, t, ops[0]);
      DisabledStaysDisabled(env, mid, ops[1..]);
      var t' := RunFrom(env, t, ops);
      assert forall i :: 0 <= i < |t.rows| ==> Continues(t.rows[i], mid.rows[i]) && Continues(mid.rows[i], t'.rows[i]);
    }
  }

  /** So a disabled row is never the answer of a later lookup. */
  lemma {:induction false} DisabledIsNeverReturned(env: Env, t: Table, ops: seq<Operation>, i: nat, query: seq<Word>)
    requires i < |t.rows| && !t.rows[i].work.enabled
    ensures var t' := RunFrom(env, t, ops);
            Best(env, t'.rows, query, |t'.rows|) != Some(i)
  {
    DisabledStaysDisabled(env, t, ops);
    BestIsFirstMaximum(env, RunFrom(env, t, ops).rows, query);
  }

  /** In any reachable table, looking up the nonzero embedding of an enabled entry is a hit with similarity exactly 1. */
  lemma {:induction false} OwnEmbeddingHits(env: Env, t: Table, i: nat, words: seq<Word>)
    requires IsSqrt(env.sqrt) && Good(t)
    requires i < |t.rows| && t.rows[i].work.enabled && t.rows[i].embedding == F32ToBytes(words) && NonZero(Values(env, words))
    ensures var best := Best(env, t.rows, words, |t.rows|);
            best.Some? && t.rows[best.value].work.enabled && SimilarityTo(env, t.rows[best.value], words) == 1.0
  {
    DecodeEncode(words);
    CosineOfSelf(Values(env, words), env.sqrt);
    StoredThresholdRange(t.rows[i].work);
    assert Qualifies(env, t.rows[i], words);
    BestIsFirstMaximum(env, t.rows, words);
    var best := Best(env, t.rows, words, |t.rows|).value;
    CosineBounds(Values(env, words), Values(env, BytesToF32(t.rows[best].embedding)), env.sqrt);
  }

  /** The row holds what the operation was given. */
  ghost predicate IsWhatWasStored(row: Row, op: Operation)
    requires op.Store?
  {
    var w := row.work;
    && w.id == op.id && w.description == op.description && w.originalTask == op.originalTask && w.rationale == op.rationale
    && w.improvementNotes == op.notes && w.parameters == op.parameters && w.implementation == op.implementation
    && w.createdAt == op.now && BytesToF32(row.embedding) == op.embedding
  }

  /** From the empty cache on: whatever happens after an entry was stored, it is found by its own embedding until it is disabled. */
  lemma {:induction false} StoredEntryIsFound(env: Env, before: seq<Operation>, op: Operation, after: seq<Operation>)
    requires IsSqrt(env.sqrt) && op.Store? && NonZero(Values(env, op.embedding))
    requires PermittedRun(env, Table([], []), before) && Permitted(RunFrom(env, Table([], []), before), op)
    requires PermittedRun(env, Step(env, RunFrom(env, Table([], []), before), op), after)
    ensures var t := RunFrom(env, Table([], []), before);
            var t', i := RunFrom(env, Step(env, t, op), after), |t.rows|;
            && i < |t'.rows| && IsWhatWasStored(t'.rows[i], op)
            && (t'.rows[i].work.enabled ==>
                  var best := Best(env, t'.rows, op.embedding, |t'.rows|);
                  best.Some? && SimilarityTo(env, t'.rows[best.value], op.embedding) == 1.0)
  {
    var t := RunFrom(env, Table([], []), before);
    RunsStayGood(env, Table([], []), before);
    var stored := Step(env, t, op);
    StepKeepsGood(env, t, op);
    var t', i := RunFrom(env, stored, after), |t.rows|;
    RunsStayGood(env, stored, after);
    DisabledStaysDisabled(env, stored, after);
    assert stored.rows[i] == NewRow(op) && Continues(stored.rows[i], t'.rows[i]);
    DecodeEncode(op.embedding);
    if t'.rows[i].work.enabled {
      OwnEmbeddingHits(env, t', i, op.embedding);
    }
  }
}
