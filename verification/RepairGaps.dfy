/** The ordered repair statements over persisted rows and parse runs, and exactly which tables
    they bring to what the parse-count audit accepts. */
module RepairGaps {
  import opened AuditTypes
  import opened HouseInventory

  datatype Status =
    | Success | NoTxs | Invalid
    | ZeroRows | Error | FailedParse | RejectedRun | Invalidated
    | Unknown(name: string)

  datatype ParseRun = ParseRun(docId: DocId, parser: Option<string>, engines: Option<string>, status: Status,
                               raw: Option<int>, count: Option<int>, error: Option<string>,
                               gen: Option<string>, sha: Option<string>)
  {
    predicate Bound() {
      gen.Some? && sha.Some?
    }

    /** What step 2d keeps for good. */
    predicate Settled() {
      status.Success? || status.NoTxs?
    }
  }

  datatype Row = Row(docId: DocId, source: Source, gen: Option<string>, sha: Option<string>, body: string)

  const QUARANTINED: string := "all extracted rows quarantined for invalid chronology"

  // ---- the statements -------------------------------------------------------------------------

  /** SQL equality on the identity: a NULL generation or digest matches nothing. */
  predicate Owns(p: ParseRun, t: Row, sourceOf: SourceMap) {
    p.Bound() && t.docId == p.docId && t.gen == p.gen && t.sha == p.sha
    && t.source == sourceOf(p.parser, p.engines)
  }

  function Persisted(rows: seq<Row>, p: ParseRun, sourceOf: SourceMap): (n: nat)
    ensures n <= |rows|
  {
    if rows == [] then 0
    else Persisted(rows[..|rows| - 1], p, sourceOf) + if Owns(p, rows[|rows| - 1], sourceOf) then 1 else 0
  }

  predicate SuccessOwns(runs: seq<ParseRun>, t: Row, sourceOf: SourceMap) {
    exists i :: 0 <= i < |runs| && runs[i].status.Success? && Owns(runs[i], t, sourceOf)
  }

  predicate Stale(runs: seq<ParseRun>, t: Row, sourceOf: SourceMap) {
    && (t.source == HousePdf || t.source == GeminiOcr) && t.gen.Some? && t.sha.Some?
    && !SuccessOwns(runs, t, sourceOf)
  }

  function KeptRows(rows: seq<Row>, runs: seq<ParseRun>, sourceOf: SourceMap): seq<Row> {
    if rows == [] then []
    else
      var last := rows[|rows| - 1];
      var before := KeptRows(rows[..|rows| - 1], runs, sourceOf);
      if Stale(runs, last, sourceOf) then before else before + [last]
  }

  function Recount(p: ParseRun, rows: seq<Row>, sourceOf: SourceMap): ParseRun {
    if p.status.Success? then p.(count := Some(Persisted(rows, p, sourceOf))) else p
  }

  function Demote(p: ParseRun, rows: seq<Row>, sourceOf: SourceMap): ParseRun {
    if p.status.Success? && Persisted(rows, p, sourceOf) == 0
    then p.(status := ZeroRows, count := Some(0), error := Some(QUARANTINED))
    else p
  }

  /** Steps 2b and 2c on one run. */
  function Settle(p: ParseRun, rows: seq<Row>, sourceOf: SourceMap): ParseRun {
    Demote(Recount(p, rows, sourceOf), rows, sourceOf)
  }

  function SettledRuns(runs: seq<ParseRun>, rows: seq<Row>, sourceOf: SourceMap): seq<ParseRun> {
    seq(|runs|, i requires 0 <= i < |runs| => Settle(runs[i], rows, sourceOf))
  }

  /** A settled run of the same document and generation makes any other run obsolete. */
  predicate Obsolete(p: ParseRun, all: seq<ParseRun>) {
    !p.Settled() && exists i :: 0 <= i < |all| && Supersedes(all[i], p)
  }

  predicate Supersedes(terminal: ParseRun, p: ParseRun) {
    terminal.Settled() && terminal.docId == p.docId && p.gen.Some? && terminal.gen == p.gen
  }

  function Pruned(runs: seq<ParseRun>, all: seq<ParseRun>): seq<ParseRun> {
    if runs == [] then []
    else
      var last := runs[|runs| - 1];
      var before := Pruned(runs[..|runs| - 1], all);
      if Obsolete(last, all) then before else before + [last]
  }

  function RepairedRuns(rows: seq<Row>, runs: seq<ParseRun>, sourceOf: SourceMap): seq<ParseRun> {
    var settled := SettledRuns(runs, KeptRows(rows, runs, sourceOf), sourceOf);
    Pruned(settled, settled)
  }

  // ---- the program ------------------------------------------------------------------------------

  class Tables {
    var rows: seq<Row>
    var runs: seq<ParseRun>

    constructor (rows0: seq<Row>, runs0: seq<ParseRun>)
      ensures rows == rows0 && runs == runs0
    {
      rows, runs := rows0, runs0;
    }

    /** Step 2a: retire source rows that no bound success run owns. */
    method RetireStaleRows(sourceOf: SourceMap)
      modifies this`rows
      ensures rows == KeptRows(old(rows), runs, sourceOf)
    {
      var kept: seq<Row> := [];
      for i := 0 to |rows|
        invariant kept == KeptRows(rows[..i], runs, sourceOf)
      {
        assert rows[..i + 1][..i] == rows[..i];
        if !Stale(runs, rows[i], sourceOf) {
          kept := kept + [rows[i]];
        }
      }
      assert rows[..|rows|] == rows;
      rows := kept;
    }

    /** Step 2b: every success run counts the rows it owns. */
    method RecountSuccesses(sourceOf: SourceMap)
      modifies this`runs
      ensures |runs| == |old(runs)|
      ensures forall i :: 0 <= i < |runs| ==> runs[i] == Recount(old(runs)[i], rows, sourceOf)
    {
      for i := 0 to |runs|
        invariant |runs| == |old(runs)| && rows == old(rows)
        invariant forall k :: 0 <= k < i ==> runs[k] == Recount(old(runs)[k], rows, sourceOf)
        invariant forall k :: i <= k < |runs| ==> runs[k] == old(runs)[k]
      {
        runs := runs[i := Recount(runs[i], rows, sourceOf)];
      }
    }

    /** Step 2c: successes whose rows are all gone become unresolved. */
    method DemoteEmptySuccesses(sourceOf: SourceMap)
      modifies this`runs
      ensures |runs| == |old(runs)|
      ensures forall i :: 0 <= i < |runs| ==> runs[i] == Demote(old(runs)[i], rows, sourceOf)
    {
      for i := 0 to |runs|
        invariant |runs| == |old(runs)| && rows == old(rows)
        invariant forall k :: 0 <= k < i ==> runs[k] == Demote(old(runs)[k], rows, sourceOf)
        invariant forall k :: i <= k < |runs| ==> runs[k] == old(runs)[k]
      {
        runs := runs[i := Demote(runs[i], rows, sourceOf)];
      }
    }

    /** Step 2d: keep only settled runs where one exists. */
    method PruneRuns()
      modifies this`runs
      ensures runs == Pruned(old(runs), old(runs))
    {
      var kept: seq<ParseRun> := [];
      for i := 0 to |runs|
        invariant kept == Pruned(runs[..i], runs)
      {
        assert runs[..i + 1][..i] == runs[..i];
        if !Obsolete(runs[i], runs) {
          kept := kept + [runs[i]];
        }
      }
      assert runs[..|runs|] == runs;
      runs := kept;
    }

    method Repair(sourceOf: SourceMap)
      modifies this
      ensures rows == KeptRows(old(rows), old(runs), sourceOf)
      ensures runs == RepairedRuns(old(rows), old(runs), sourceOf)
    {
      RetireStaleRows(sourceOf);
      ghost var first := runs;
      RecountSuccesses(sourceOf);
      DemoteEmptySuccesses(sourceOf);
      assert runs == SettledRuns(first, rows, sourceOf);
      PruneRuns();
    }
  }

  // ---- what one statement leaves ------------------------------------------------------------------

  lemma {:induction false} PersistedSome(rows: seq<Row>, p: ParseRun, sourceOf: SourceMap)
    ensures Persisted(rows, p, sourceOf) > 0 <==> exists i :: 0 <= i < |rows| && Owns(p, rows[i], sourceOf)
  {
    if rows != [] {
      var last := |rows| - 1;
      PersistedSome(rows[..last], p, sourceOf);
      if i :| 0 <= i < last && Owns(p, rows[..last][i], sourceOf) {
        assert Owns(p, rows[i], sourceOf);
      }
      if i :| 0 <= i < |rows| && Owns(p, rows[i], sourceOf) {
        if i < last {
          assert Owns(p, rows[..last][i], sourceOf);
        }
      }
    }
  }

  lemma {:induction false} KeptExact(rows: seq<Row>, runs: seq<ParseRun>, sourceOf: SourceMap, t: Row)
    ensures t in KeptRows(rows, runs, sourceOf) <==> t in rows && !Stale(runs, t, sourceOf)
  {
    if rows != [] {
      var last := |rows| - 1;
      KeptExact(rows[..last], runs, sourceOf, t);
      assert rows == rows[..last] + [rows[last]];
    }
  }

  /** Two runs with the same identity and source own the same rows. */
  predicate SameOwner(p: ParseRun, q: ParseRun, sourceOf: SourceMap) {
    p.Bound() && p.docId == q.docId && p.gen == q.gen && p.sha == q.sha
    && sourceOf(p.parser, p.engines) == sourceOf(q.parser, q.engines)
  }

  predicate HasSuccessTwin(runs: seq<ParseRun>, p: ParseRun, sourceOf: SourceMap) {
    exists i :: 0 <= i < |runs| && runs[i].status.Success? && SameOwner(runs[i], p, sourceOf)
  }

  lemma OwnedIsStale(runs: seq<ParseRun>, p: ParseRun, t: Row, sourceOf: SourceMap)
    requires Owns(p, t, sourceOf) && sourceOf(p.parser, p.engines) in {HousePdf, GeminiOcr}
    ensures Stale(runs, t, sourceOf) <==> !HasSuccessTwin(runs, p, sourceOf)
  {
    if SuccessOwns(runs, t, sourceOf) {
      var i :| 0 <= i < |runs| && runs[i].status.Success? && Owns(runs[i], t, sourceOf);
      assert SameOwner(runs[i], p, sourceOf);
    }
    if HasSuccessTwin(runs, p, sourceOf) {
      var i :| 0 <= i < |runs| && runs[i].status.Success? && SameOwner(runs[i], p, sourceOf);
      assert Owns(runs[i], t, sourceOf);
    }
  }

  /** After step 2a a run has the rows it had before if some success shares its identity and
      source, and none otherwise. */
  lemma {:induction false} PersistedAfter(rows: seq<Row>, runs: seq<ParseRun>, p: ParseRun, sourceOf: SourceMap)
    requires sourceOf(p.parser, p.engines) in {HousePdf, GeminiOcr}
    ensures Persisted(KeptRows(rows, runs, sourceOf), p, sourceOf)
         == if HasSuccessTwin(runs, p, sourceOf) then Persisted(rows, p, sourceOf) else 0
  {
    if rows != [] {
      var last := rows[|rows| - 1];
      var before := KeptRows(rows[..|rows| - 1], runs, sourceOf);
      PersistedAfter(rows[..|rows| - 1], runs, p, sourceOf);
      assert (before + [last])[..|before|] == before;
      if Owns(p, last, sourceOf) {
        OwnedIsStale(runs, p, last, sourceOf);
      }
    }
  }

  lemma {:induction false} PrunedExact(runs: seq<ParseRun>, all: seq<ParseRun>, p: ParseRun)
    ensures p in Pruned(runs, all) <==> p in runs && !Obsolete(p, all)
  {
    if runs != [] {
      var last := |runs| - 1;
      PrunedExact(runs[..last], all, p);
      assert runs == runs[..last] + [runs[last]];
    }
  }

  /** Whether a run is still a success after step 2c. */
  predicate StaysSuccess(rows: seq<Row>, p: ParseRun, sourceOf: SourceMap) {
    p.status.Success? && Persisted(rows, p, sourceOf) > 0
  }

  /** The map takes every run to one of the two House families. */
  ghost predicate HouseMap(sourceOf: SourceMap) {
    forall p, e :: sourceOf(p, e) in {HousePdf, GeminiOcr}
  }

  lemma SelfTwin(runs: seq<ParseRun>, p: ParseRun, sourceOf: SourceMap)
    requires p in runs && p.status.Success? && p.Bound()
    ensures HasSuccessTwin(runs, p, sourceOf)
  {
    var i :| 0 <= i < |runs| && runs[i] == p;
    assert SameOwner(runs[i], p, sourceOf);
  }

  lemma {:induction false} UnboundOwnsNothing(rows: seq<Row>, p: ParseRun, sourceOf: SourceMap)
    requires !p.Bound()
    ensures Persisted(rows, p, sourceOf) == 0
  {
    if rows != [] {
      UnboundOwnsNothing(rows[..|rows| - 1], p, sourceOf);
    }
  }

  /** A success owns after step 2a exactly what it owned before. */
  lemma SuccessKeepsRows(rows: seq<Row>, runs: seq<ParseRun>, p: ParseRun, sourceOf: SourceMap)
    requires HouseMap(sourceOf) && p in runs && p.status.Success?
    ensures Persisted(KeptRows(rows, runs, sourceOf), p, sourceOf) == Persisted(rows, p, sourceOf)
  {
    if p.Bound() {
      PersistedAfter(rows, runs, p, sourceOf);
      SelfTwin(runs, p, sourceOf);
    } else {
      UnboundOwnsNothing(rows, p, sourceOf);
      UnboundOwnsNothing(KeptRows(rows, runs, sourceOf), p, sourceOf);
    }
  }

  lemma {:induction false} SameRows(rows: seq<Row>, p: ParseRun, q: ParseRun, sourceOf: SourceMap)
    requires q.docId == p.docId && q.gen == p.gen && q.sha == p.sha
    requires sourceOf(q.parser, q.engines) == sourceOf(p.parser, p.engines)
    ensures Persisted(rows, q, sourceOf) == Persisted(rows, p, sourceOf)
  {
    if rows != [] {
      SameRows(rows[..|rows| - 1], p, q, sourceOf);
    }
  }

  /** What steps 2b and 2c make of one run of the table. */
  lemma SettledAs(rows: seq<Row>, runs: seq<ParseRun>, p: ParseRun, sourceOf: SourceMap)
    requires HouseMap(sourceOf) && p in runs
    ensures var q := Settle(p, KeptRows(rows, runs, sourceOf), sourceOf);
            && q == (if StaysSuccess(rows, p, sourceOf) then p.(count := Some(Persisted(rows, p, sourceOf)))
                     else if p.status.Success? then p.(status := ZeroRows, count := Some(0), error := Some(QUARANTINED))
                     else p)
            && (q.Settled() <==> p.status.NoTxs? || StaysSuccess(rows, p, sourceOf))
  {
    var kept := KeptRows(rows, runs, sourceOf);
    if p.status.Success? {
      SuccessKeepsRows(rows, runs, p, sourceOf);
      SameRows(kept, p, Recount(p, kept, sourceOf), sourceOf);
    }
  }

  // ---- the repaired tables --------------------------------------------------------------------------

  /** A settled run of the document and generation survives in the input. */
  predicate Superseded(rows: seq<Row>, runs: seq<ParseRun>, p: ParseRun, sourceOf: SourceMap) {
    exists i :: 0 <= i < |runs| && (runs[i].status.NoTxs? || StaysSuccess(rows, runs[i], sourceOf))
             && runs[i].docId == p.docId && p.gen.Some? && runs[i].gen == p.gen
  }

  /** Whether step 2d leaves what has become of the run. */
  predicate Stays(rows: seq<Row>, runs: seq<ParseRun>, p: ParseRun, sourceOf: SourceMap) {
    p.status.NoTxs? || StaysSuccess(rows, p, sourceOf) || !Superseded(rows, runs, p, sourceOf)
  }

  lemma ObsoleteExactly(rows: seq<Row>, runs: seq<ParseRun>, p: ParseRun, sourceOf: SourceMap)
    requires HouseMap(sourceOf) && p in runs
    ensures var kept := KeptRows(rows, runs, sourceOf);
            Obsolete(Settle(p, kept, sourceOf), SettledRuns(runs, kept, sourceOf))
            <==> !p.status.NoTxs? && !StaysSuccess(rows, p, sourceOf) && Superseded(rows, runs, p, sourceOf)
  {
    var kept := KeptRows(rows, runs, sourceOf);
    var settled, q := SettledRuns(runs, kept, sourceOf), Settle(p, kept, sourceOf);
    SettledAs(rows, runs, p, sourceOf);
    if i :| 0 <= i < |settled| && Supersedes(settled[i], q) {
      SettledAs(rows, runs, runs[i], sourceOf);
      assert (runs[i].status.NoTxs? || StaysSuccess(rows, runs[i], sourceOf)) && runs[i].docId == p.docId;
    }
    if Superseded(rows, runs, p, sourceOf) {
      var i :| 0 <= i < |runs| && (runs[i].status.NoTxs? || StaysSuccess(rows, runs[i], sourceOf))
            && runs[i].docId == p.docId && p.gen.Some? && runs[i].gen == p.gen;
      SettledAs(rows, runs, runs[i], sourceOf);
      assert Supersedes(settled[i], q);
    }
  }

  /** The runs left by the repair, one input run each. */
  lemma RepairedExact(rows: seq<Row>, runs: seq<ParseRun>, sourceOf: SourceMap, q: ParseRun)
    requires HouseMap(sourceOf)
    ensures q in RepairedRuns(rows, runs, sourceOf)
       <==> exists p :: p in runs && q == Settle(p, KeptRows(rows, runs, sourceOf), sourceOf)
                     && Stays(rows, runs, p, sourceOf)
  {
    var kept := KeptRows(rows, runs, sourceOf);
    var settled := SettledRuns(runs, kept, sourceOf);
    PrunedExact(settled, settled, q);
    if q in settled && !Obsolete(q, settled) {
      var i :| 0 <= i < |settled| && settled[i] == q;
      ObsoleteExactly(rows, runs, runs[i], sourceOf);
      assert runs[i] in runs && q == Settle(runs[i], kept, sourceOf);
    }
    if p :| p in runs && q == Settle(p, kept, sourceOf)
            && Stays(rows, runs, p, sourceOf) {
      ObsoleteExactly(rows, runs, p, sourceOf);
      var i :| 0 <= i < |runs| && runs[i] == p;
      assert settled[i] == q;
    }
  }

  /** Of each run the repair leaves what it has become, unless that is neither a success nor no_txs and a
      run of one of these kinds, of the same document and generation, is left instead. */
  lemma OnlySupersededDropped(rows: seq<Row>, runs: seq<ParseRun>, p: ParseRun, sourceOf: SourceMap)
    requires p in runs
    ensures var left := RepairedRuns(rows, runs, sourceOf);
            var q := Settle(p, KeptRows(rows, runs, sourceOf), sourceOf);
            q in left
            <==> (q.status.Success? || q.status.NoTxs? || q.gen.None?
                  || forall t :: t in left && (t.status.Success? || t.status.NoTxs?) ==>
                       t.docId != q.docId || t.gen != q.gen)
  {
    var settled := SettledRuns(runs, KeptRows(rows, runs, sourceOf), sourceOf);
    var left, q := RepairedRuns(rows, runs, sourceOf), Settle(p, KeptRows(rows, runs, sourceOf), sourceOf);
    var k :| 0 <= k < |runs| && runs[k] == p;
    assert settled[k] == q;
    PrunedExact(settled, settled, q);
    if i :| 0 <= i < |settled| && Supersedes(settled[i], q) {
      PrunedExact(settled, settled, settled[i]);
    }
    forall t | t in left
      ensures t in settled
    {
      PrunedExact(settled, settled, t);
    }
  }

  /** For every starting table, a success left by the repair is bound and counts exactly its
      positive number of persisted rows, and a run that is neither success nor no_txs has none. */
  lemma RepairReconciles(rows: seq<Row>, runs: seq<ParseRun>, sourceOf: SourceMap, q: ParseRun)
    requires HouseMap(sourceOf) && q in RepairedRuns(rows, runs, sourceOf)
    ensures var n := Persisted(KeptRows(rows, runs, sourceOf), q, sourceOf);
            && (q.status.Success? ==> q.Bound() && n > 0 && q.count == Some(n))
            && (!q.Settled() ==> n == 0)
  {
    var kept := KeptRows(rows, runs, sourceOf);
    RepairedExact(rows, runs, sourceOf, q);
    var p :| p in runs && q == Settle(p, kept, sourceOf)
          && Stays(rows, runs, p, sourceOf);
    SettledAs(rows, runs, p, sourceOf);
    SameRows(kept, p, q, sourceOf);
    if q.status.Success? {
      SuccessKeepsRows(rows, runs, p, sourceOf);
      if !p.Bound() {
        UnboundOwnsNothing(rows, p, sourceOf);
      }
    } else if !q.Settled() {
      UnsettledOwnsNothing(rows, runs, p, sourceOf);
    }
  }

  lemma UnsettledOwnsNothing(rows: seq<Row>, runs: seq<ParseRun>, p: ParseRun, sourceOf: SourceMap)
    requires HouseMap(sourceOf) && p in runs && !p.status.NoTxs? && !StaysSuccess(rows, p, sourceOf)
    requires !Superseded(rows, runs, p, sourceOf)
    ensures Persisted(KeptRows(rows, runs, sourceOf), p, sourceOf) == 0
  {
    if !p.Bound() {
      UnboundOwnsNothing(KeptRows(rows, runs, sourceOf), p, sourceOf);
    } else {
      PersistedAfter(rows, runs, p, sourceOf);
      TwinSupersedes(rows, runs, p, sourceOf);
    }
  }

  lemma TwinSupersedes(rows: seq<Row>, runs: seq<ParseRun>, p: ParseRun, sourceOf: SourceMap)
    ensures p.Bound() && HasSuccessTwin(runs, p, sourceOf) && Persisted(rows, p, sourceOf) > 0
         ==> Superseded(rows, runs, p, sourceOf)
  {
    if p.Bound() && HasSuccessTwin(runs, p, sourceOf) && Persisted(rows, p, sourceOf) > 0 {
      var i :| 0 <= i < |runs| && runs[i].status.Success? && SameOwner(runs[i], p, sourceOf);
      SameRows(rows, p, runs[i], sourceOf);
      assert StaysSuccess(rows, runs[i], sourceOf);
    }
  }

  /** The repair deletes no row that a success run owns, and no row of another source. */
  lemma RepairLosesNothingOwned(rows: seq<Row>, runs: seq<ParseRun>, sourceOf: SourceMap, t: Row)
    requires HouseMap(sourceOf) && t in rows
    ensures t in KeptRows(rows, runs, sourceOf)
       <==> t.source.Elsewhere? || t.gen.None? || t.sha.None?
            || exists p :: p in RepairedRuns(rows, runs, sourceOf) && p.status.Success? && Owns(p, t, sourceOf)
  {
    KeptExact(rows, runs, sourceOf, t);
    if SuccessOwns(runs, t, sourceOf) {
      OwnerSurvives(rows, runs, sourceOf, t);
    }
    if p :| p in RepairedRuns(rows, runs, sourceOf) && p.status.Success? && Owns(p, t, sourceOf) {
      RepairedExact(rows, runs, sourceOf, p);
      var q :| q in runs && p == Settle(q, KeptRows(rows, runs, sourceOf), sourceOf);
      var i :| 0 <= i < |runs| && runs[i] == q;
      assert Owns(runs[i], t, sourceOf);
    }
  }

  lemma OwnerSurvives(rows: seq<Row>, runs: seq<ParseRun>, sourceOf: SourceMap, t: Row)
    requires HouseMap(sourceOf) && t in rows && SuccessOwns(runs, t, sourceOf)
    ensures exists p :: p in RepairedRuns(rows, runs, sourceOf) && p.status.Success? && Owns(p, t, sourceOf)
  {
    var i :| 0 <= i < |runs| && runs[i].status.Success? && Owns(runs[i], t, sourceOf);
    var k :| 0 <= k < |rows| && rows[k] == t;
    PersistedSome(rows, runs[i], sourceOf);
    var q := Settle(runs[i], KeptRows(rows, runs, sourceOf), sourceOf);
    SettledAs(rows, runs, runs[i], sourceOf);
    RepairedExact(rows, runs, sourceOf, q);
    assert runs[i] in runs && Owns(q, t, sourceOf);
  }

  // ---- repeating the repair ----------------------------------------------------------------------------

  lemma {:induction false} NothingStale(rows: seq<Row>, runs: seq<ParseRun>, sourceOf: SourceMap)
    requires forall i :: 0 <= i < |rows| ==> !Stale(runs, rows[i], sourceOf)
    ensures KeptRows(rows, runs, sourceOf) == rows
  {
    if rows != [] {
      NothingStale(rows[..|rows| - 1], runs, sourceOf);
    }
  }

  lemma {:induction false} NothingObsolete(runs: seq<ParseRun>, all: seq<ParseRun>)
    requires forall i :: 0 <= i < |runs| ==> !Obsolete(runs[i], all)
    ensures Pruned(runs, all) == runs
  {
    if runs != [] {
      NothingObsolete(runs[..|runs| - 1], all);
    }
  }

  lemma RowsStay(rows: seq<Row>, runs: seq<ParseRun>, sourceOf: SourceMap)
    requires HouseMap(sourceOf)
    ensures var kept, left := KeptRows(rows, runs, sourceOf), RepairedRuns(rows, runs, sourceOf);
            KeptRows(kept, left, sourceOf) == kept
  {
    var kept, left := KeptRows(rows, runs, sourceOf), RepairedRuns(rows, runs, sourceOf);
    forall i | 0 <= i < |kept|
      ensures !Stale(left, kept[i], sourceOf)
    {
      KeptExact(rows, runs, sourceOf, kept[i]);
      if SuccessOwns(runs, kept[i], sourceOf) {
        OwnerSurvives(rows, runs, sourceOf, kept[i]);
        var p :| p in left && p.status.Success? && Owns(p, kept[i], sourceOf);
        var k :| 0 <= k < |left| && left[k] == p;
        assert Owns(left[k], kept[i], sourceOf);
      }
    }
    NothingStale(kept, left, sourceOf);
  }

  lemma RunsStay(rows: seq<Row>, runs: seq<ParseRun>, sourceOf: SourceMap)
    requires HouseMap(sourceOf)
    ensures var kept, left := KeptRows(rows, runs, sourceOf), RepairedRuns(rows, runs, sourceOf);
            SettledRuns(left, kept, sourceOf) == left && Pruned(left, left) == left
  {
    var kept, left := KeptRows(rows, runs, sourceOf), RepairedRuns(rows, runs, sourceOf);
    var settled := SettledRuns(runs, kept, sourceOf);
    forall i | 0 <= i < |left|
      ensures Settle(left[i], kept, sourceOf) == left[i] && !Obsolete(left[i], left)
    {
      RepairReconciles(rows, runs, sourceOf, left[i]);
      PrunedExact(settled, settled, left[i]);
      if k :| 0 <= k < |left| && Supersedes(left[k], left[i]) {
        PrunedExact(settled, settled, left[k]);
        var j :| 0 <= j < |settled| && settled[j] == left[k];
        assert Supersedes(settled[j], left[i]);
      }
    }
    NothingObsolete(left, left);
  }

  /** Repeating the repair changes nothing, for every starting table. */
  lemma RepairIsIdempotent(rows: seq<Row>, runs: seq<ParseRun>, sourceOf: SourceMap)
    requires HouseMap(sourceOf)
    ensures var kept, left := KeptRows(rows, runs, sourceOf), RepairedRuns(rows, runs, sourceOf);
            KeptRows(kept, left, sourceOf) == kept && RepairedRuns(kept, left, sourceOf) == left
  {
    RowsStay(rows, runs, sourceOf);
    RunsStay(rows, runs, sourceOf);
  }

  // ---- the audit ---------------------------------------------------------------------------------------

  datatype Violation =
    | Unrecognized | CountDiffers | SuccessNeedsRows | NoTxsHasRows | InvalidHasRows | FailedHasCount
    | FailedHasRows | UnknownStatus | NegativeRaw

  predicate Nameless(p: ParseRun) {
    Empty(p.parser) && Empty(p.engines)
  }

  predicate NonPositive(n: Option<int>) {
    n.None? || n.value <= 0
  }

  /** A bound run the audit has nothing to say about. */
  predicate Reconciled(rows: seq<Row>, p: ParseRun, sourceOf: SourceMap) {
    var n := Persisted(rows, p, sourceOf);
    && !Nameless(p) && !p.status.Unknown? && !(p.raw.Some? && p.raw.value < 0)
    && p.count == Some(n)
    && (if p.status.Success? then n > 0 && !NonPositive(p.raw) else n == 0)
    && (p.status.NoTxs? ==> p.raw == Some(0))
  }

  method CheckRun(rows: seq<Row>, p: ParseRun, sourceOf: SourceMap) returns (violations: seq<Violation>)
    requires p.Bound()
    ensures violations == [] <==> Reconciled(rows, p, sourceOf)
  {
    violations := [];
    if Nameless(p) {
      return [Unrecognized];
    }
    var persisted := Persisted(rows, p, sourceOf);
    match p.status {
      case Success | NoTxs | Invalid =>
        if p.count != Some(persisted) {
          violations := violations + [CountDiffers];
        }
        if p.status.Success? && (NonPositive(p.raw) || NonPositive(p.count)) {
          violations := violations + [SuccessNeedsRows];
        }
        if p.status.NoTxs? && (p.raw != Some(0) || p.count != Some(0)) {
          violations := violations + [NoTxsHasRows];
        }
        if p.status.Invalid? && p.count != Some(0) {
          violations := violations + [InvalidHasRows];
        }
      case Unknown(_) =>
        violations := violations + [UnknownStatus];
      case _ =>
        if p.count != Some(0) {
          violations := violations + [FailedHasCount];
        }
        if persisted != 0 {
          violations := violations + [FailedHasRows];
        }
    }
    if p.raw.Some? && p.raw.value < 0 {
      violations := violations + [NegativeRaw];
    }
  }

  ghost predicate AuditClean(rows: seq<Row>, runs: seq<ParseRun>, sourceOf: SourceMap) {
    forall p :: p in runs && p.Bound() ==> Reconciled(rows, p, sourceOf)
  }

  method CheckParseCounts(rows: seq<Row>, runs: seq<ParseRun>, sourceOf: SourceMap) returns (violations: seq<Violation>)
    ensures violations == [] <==> AuditClean(rows, runs, sourceOf)
  {
    violations := [];
    for i := 0 to |runs|
      invariant violations == [] <==> AuditClean(rows, runs[..i], sourceOf)
    {
      assert runs[..i + 1] == runs[..i] + [runs[i]];
      if runs[i].Bound() {
        var more := CheckRun(rows, runs[i], sourceOf);
        violations := violations + more;
      }
    }
    assert runs[..|runs|] == runs;
  }

  // ---- what a clean audit means -----------------------------------------------------------------------

  /** Where in the table a run's rows are. */
  ghost function PlacesOf(rows: seq<Row>, p: ParseRun, sourceOf: SourceMap): set<nat> {
    set k: nat | k < |rows| && Owns(p, rows[k], sourceOf)
  }

  lemma {:induction false} PersistedIsPlaces(rows: seq<Row>, p: ParseRun, sourceOf: SourceMap)
    ensures Persisted(rows, p, sourceOf) == |PlacesOf(rows, p, sourceOf)|
  {
    if rows == [] {
      assert PlacesOf(rows, p, sourceOf) == {};
    } else {
      var last := |rows| - 1;
      PersistedIsPlaces(rows[..last], p, sourceOf);
      assert PlacesOf(rows, p, sourceOf)
          == PlacesOf(rows[..last], p, sourceOf) + if Owns(p, rows[last], sourceOf) then {last} else {};
    }
  }

  /** A run the audit promises to be accounted for: named, of a known status, with the count of its rows
      in the table, which only a success may have, and a raw count that fits. */
  ghost predicate Accounted(rows: seq<Row>, p: ParseRun, sourceOf: SourceMap) {
    var owned := |PlacesOf(rows, p, sourceOf)|;
    && ((p.parser.Some? && p.parser.value != "") || (p.engines.Some? && p.engines.value != ""))
    && match p.status
       case Success => owned > 0 && p.count == Some(owned) && p.raw.Some? && p.raw.value > 0
       case NoTxs => owned == 0 && p.count == Some(0) && p.raw == Some(0)
       case Unknown(_) => false
       case _ => owned == 0 && p.count == Some(0) && (p.raw.Some? ==> p.raw.value >= 0)
  }

  /** The audit of any tables is clean exactly when each bound run is accounted for. */
  lemma CleanExactly(rows: seq<Row>, runs: seq<ParseRun>, sourceOf: SourceMap)
    ensures AuditClean(rows, runs, sourceOf)
       <==> forall p :: p in runs && p.gen.Some? && p.sha.Some? ==> Accounted(rows, p, sourceOf)
  {
    forall p | p in runs
      ensures Reconciled(rows, p, sourceOf) <==> Accounted(rows, p, sourceOf)
    {
      PersistedIsPlaces(rows, p, sourceOf);
    }
  }

  /** In a clean table no other count of a bound run would pass. */
  lemma OtherCountShows(rows: seq<Row>, runs: seq<ParseRun>, i: nat, count: Option<int>, sourceOf: SourceMap)
    requires AuditClean(rows, runs, sourceOf) && i < |runs| && runs[i].Bound() && count != runs[i].count
    ensures !AuditClean(rows, runs[i := runs[i].(count := count)], sourceOf)
  {
    var p := runs[i].(count := count);
    SameRows(rows, runs[i], p, sourceOf);
    assert runs[i] in runs && runs[i := p][i] in runs[i := p];
  }

  lemma {:induction false} PersistedAppend(a: seq<Row>, b: seq<Row>, p: ParseRun, sourceOf: SourceMap)
    ensures Persisted(a + b, p, sourceOf) == Persisted(a, p, sourceOf) + Persisted(b, p, sourceOf)
    decreases |b|
  {
    if b == [] {
      assert a + b == a;
    } else {
      assert (a + b)[..|a| + |b| - 1] == a + b[..|b| - 1];
      PersistedAppend(a, b[..|b| - 1], p, sourceOf);
    }
  }

  lemma OneRow(t: Row, p: ParseRun, sourceOf: SourceMap)
    ensures Persisted([t], p, sourceOf) == if Owns(p, t, sourceOf) then 1 else 0
  {
    assert [t][..0] == [];
  }

  /** Nor would it pass with a row of a bound run lost, or with one more. */
  lemma OtherRowShows(before: seq<Row>, t: Row, after: seq<Row>, runs: seq<ParseRun>, p: ParseRun, sourceOf: SourceMap)
    requires p in runs && Owns(p, t, sourceOf)
    ensures !(AuditClean(before + [t] + after, runs, sourceOf) && AuditClean(before + after, runs, sourceOf))
  {
    PersistedAppend(before + [t], after, p, sourceOf);
    PersistedAppend(before, [t], p, sourceOf);
    PersistedAppend(before, after, p, sourceOf);
    OneRow(t, p, sourceOf);
  }

  /** A bound run that is not a success owns nothing. */
  lemma OnlySuccessesOwn(rows: seq<Row>, runs: seq<ParseRun>, p: ParseRun, t: Row, sourceOf: SourceMap)
    requires AuditClean(rows, runs, sourceOf) && p in runs && t in rows && Owns(p, t, sourceOf)
    ensures p.status.Success? && p.count.Some? && p.count.value > 0
  {
    var k :| 0 <= k < |rows| && rows[k] == t;
    PersistedSome(rows, p, sourceOf);
  }

  /** Where in the table the rows of the bound successes are. */
  ghost function OwnedPlaces(rows: seq<Row>, runs: seq<ParseRun>, sourceOf: SourceMap): set<nat> {
    set k: nat | k < |rows| && exists i :: 0 <= i < |runs| && runs[i].status.Success? && Owns(runs[i], rows[k], sourceOf)
  }

  /** The counts of the bound successes, added up. */
  function CountTotal(runs: seq<ParseRun>): int {
    if runs == [] then 0
    else
      var last := runs[|runs| - 1];
      CountTotal(runs[..|runs| - 1])
        + if last.status.Success? && last.Bound() then last.count.GetOr(0) else 0
  }

  ghost predicate NoneShared(runs: seq<ParseRun>, sourceOf: SourceMap) {
    forall i, j :: 0 <= i < j < |runs| && runs[i].status.Success? && runs[j].status.Success? ==>
      !SameOwner(runs[i], runs[j], sourceOf)
  }

  lemma OwnedSnoc(rows: seq<Row>, runs: seq<ParseRun>, p: ParseRun, sourceOf: SourceMap)
    requires NoneShared(runs + [p], sourceOf)
    ensures var mine := if p.status.Success? then PlacesOf(rows, p, sourceOf) else {};
            OwnedPlaces(rows, runs + [p], sourceOf) == OwnedPlaces(rows, runs, sourceOf) + mine
            && OwnedPlaces(rows, runs, sourceOf) !! mine
  {
    var all := runs + [p];
    var mine := if p.status.Success? then PlacesOf(rows, p, sourceOf) else {};
    forall k: nat | k < |rows|
      ensures k in OwnedPlaces(rows, all, sourceOf) <==> k in OwnedPlaces(rows, runs, sourceOf) || k in mine
    {
      if i :| 0 <= i < |all| && all[i].status.Success? && Owns(all[i], rows[k], sourceOf) {
        if i < |runs| {
          assert runs[i] == all[i];
        }
      }
      if i :| 0 <= i < |runs| && runs[i].status.Success? && Owns(runs[i], rows[k], sourceOf) {
        assert all[i] == runs[i];
      }
      if k in mine {
        assert all[|runs|] == p;
      }
    }
    forall k | k in mine
      ensures k !in OwnedPlaces(rows, runs, sourceOf)
    {
      forall i | 0 <= i < |runs| && runs[i].status.Success?
        ensures !Owns(runs[i], rows[k], sourceOf)
      {
        assert all[i] == runs[i] && all[|runs|] == p;
        assert !SameOwner(all[i], all[|runs|], sourceOf);
      }
    }
  }

  /** In a clean table where no two successes have the same owner, the counts of the bound successes add
      up to exactly the rows that some bound success owns. */
  lemma {:induction false} CountsAddUp(rows: seq<Row>, runs: seq<ParseRun>, sourceOf: SourceMap)
    requires AuditClean(rows, runs, sourceOf) && NoneShared(runs, sourceOf)
    ensures CountTotal(runs) == |OwnedPlaces(rows, runs, sourceOf)|
  {
    if runs == [] {
      assert OwnedPlaces(rows, runs, sourceOf) == {};
    } else {
      var last := |runs| - 1;
      var p := runs[last];
      assert runs == runs[..last] + [p];
      CountsAddUp(rows, runs[..last], sourceOf);
      OwnedSnoc(rows, runs[..last], p, sourceOf);
      PersistedIsPlaces(rows, p, sourceOf);
      if !p.Bound() {
        assert PlacesOf(rows, p, sourceOf) == {};
      }
    }
  }

  /** What the audit of the repaired tables asks of a run of the input. */
  predicate Repairable(rows: seq<Row>, runs: seq<ParseRun>, p: ParseRun, sourceOf: SourceMap) {
    var named := !Nameless(p) && !(p.raw.Some? && p.raw.value < 0);
    if StaysSuccess(rows, p, sourceOf) then named && !NonPositive(p.raw)
    else if p.status.NoTxs? then
      named && p.raw == Some(0) && p.count == Some(0)
      && (Persisted(rows, p, sourceOf) == 0 || !HasSuccessTwin(runs, p, sourceOf))
    else
      Superseded(rows, runs, p, sourceOf)
      || (named && !p.status.Unknown? && (p.status.Success? || p.count == Some(0)))
  }

  lemma ReconciledAfter(rows: seq<Row>, runs: seq<ParseRun>, p: ParseRun, sourceOf: SourceMap)
    requires HouseMap(sourceOf) && p in runs && p.Bound() && Stays(rows, runs, p, sourceOf)
    ensures var kept := KeptRows(rows, runs, sourceOf);
            Reconciled(kept, Settle(p, kept, sourceOf), sourceOf) <==> Repairable(rows, runs, p, sourceOf)
  {
    var kept := KeptRows(rows, runs, sourceOf);
    SettledAs(rows, runs, p, sourceOf);
    SameRows(kept, p, Settle(p, kept, sourceOf), sourceOf);
    if StaysSuccess(rows, p, sourceOf) {
      SuccessKeepsRows(rows, runs, p, sourceOf);
    } else if p.status.NoTxs? {
      PersistedAfter(rows, runs, p, sourceOf);
    } else {
      UnsettledOwnsNothing(rows, runs, p, sourceOf);
    }
  }

  /** The audit of the repaired tables is clean exactly when every bound input run is repairable,
      a condition on the tables before the repair. */
  lemma RepairPassesAuditExactly(rows: seq<Row>, runs: seq<ParseRun>, sourceOf: SourceMap)
    requires HouseMap(sourceOf)
    ensures AuditClean(KeptRows(rows, runs, sourceOf), RepairedRuns(rows, runs, sourceOf), sourceOf)
       <==> forall p :: p in runs && p.Bound() ==> Repairable(rows, runs, p, sourceOf)
  {
    var kept, left := KeptRows(rows, runs, sourceOf), RepairedRuns(rows, runs, sourceOf);
    if AuditClean(kept, left, sourceOf) {
      forall p | p in runs && p.Bound()
        ensures Repairable(rows, runs, p, sourceOf)
      {
        if Stays(rows, runs, p, sourceOf) {
          RepairedExact(rows, runs, sourceOf, Settle(p, kept, sourceOf));
          ReconciledAfter(rows, runs, p, sourceOf);
        }
      }
    }
    if forall p :: p in runs && p.Bound() ==> Repairable(rows, runs, p, sourceOf) {
      forall q | q in left && q.Bound()
        ensures Reconciled(kept, q, sourceOf)
      {
        RepairedExact(rows, runs, sourceOf, q);
        var p :| p in runs && q == Settle(p, kept, sourceOf) && Stays(rows, runs, p, sourceOf);
        ReconciledAfter(rows, runs, p, sourceOf);
      }
    }
  }

  /** In any tables, a no_txs run beside a success of the same identity and source that owns rows
      fails the audit after every repair. */
  lemma NoTxsTwinNeverPasses(rows: seq<Row>, runs: seq<ParseRun>, success: ParseRun, none: ParseRun, sourceOf: SourceMap)
    requires HouseMap(sourceOf) && success in runs && none in runs
    requires success.status.Success? && none.status.NoTxs? && SameOwner(success, none, sourceOf)
    requires Persisted(rows, success, sourceOf) > 0
    ensures !AuditClean(KeptRows(rows, runs, sourceOf), RepairedRuns(rows, runs, sourceOf), sourceOf)
  {
    var i :| 0 <= i < |runs| && runs[i] == success;
    assert SameOwner(runs[i], none, sourceOf);
    SameRows(rows, success, none, sourceOf);
    RepairPassesAuditExactly(rows, runs, sourceOf);
    assert !Repairable(rows, runs, none, sourceOf);
  }

  /** In any tables, a success recorded before generations existed loses its status, whatever rows it
      had, and no other run makes it obsolete. */
  lemma LegacySuccessDemoted(rows: seq<Row>, runs: seq<ParseRun>, p: ParseRun, sourceOf: SourceMap)
    requires HouseMap(sourceOf) && p in runs && p.status.Success? && p.gen.None?
    ensures p !in RepairedRuns(rows, runs, sourceOf)
    ensures p.(status := ZeroRows, count := Some(0), error := Some(QUARANTINED)) in RepairedRuns(rows, runs, sourceOf)
  {
    UnboundOwnsNothing(rows, p, sourceOf);
    SettledAs(rows, runs, p, sourceOf);
    RepairedExact(rows, runs, sourceOf, Settle(p, KeptRows(rows, runs, sourceOf), sourceOf));
    if p in RepairedRuns(rows, runs, sourceOf) {
      RepairReconciles(rows, runs, sourceOf, p);
    }
  }
}
