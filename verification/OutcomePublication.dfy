/** Attaching outcomes to a sealed capture: several writers race to publish one CSV with a receipt
    that binds its bytes, each file is linked exclusively, and any writer may crash anywhere. */
module OutcomePublication {
  import opened AuditTypes

  /** What a receipt binds besides the bytes: the decision, the frame and the capture's seal. */
  datatype Binding = Binding(decision: string, frame: string, capture: string)

  /** A receipt; the digest of the CSV stands for its bytes. */
  datatype Receipt = Receipt(binding: Binding, generatedOn: int, csv: string)

  /** 1 November 2028, as a day number. */
  const UNSEAL_AFTER: int := 21489

  // ---- the checks ------------------------------------------------------------------------------

  predicate Dated(r: Receipt, today: int) {
    UNSEAL_AFTER <= r.generatedOn <= today
  }

  /** A receipt already there is reused only for the same binding and bytes, whatever day it was
      written on after the unseal. */
  predicate SameReceipt(existing: Receipt, mine: Receipt, today: int) {
    existing.binding == mine.binding && existing.csv == mine.csv && Dated(existing, today)
  }

  /** The reader's test of a published pair against the capture it expects. */
  predicate ReaderAccepts(csv: string, receipt: Receipt, expected: Binding, today: int) {
    receipt.binding == expected && receipt.csv == csv && Dated(receipt, today)
  }

  // ---- the protocol ------------------------------------------------------------------------------

  type Writer = nat

  datatype Pc =
    | Idle
    | Working(binding: Binding, csv: string)
    | Checking(mine: Receipt)
    | Linking(mine: Receipt)
    | Receipted(mine: Receipt)

  /** The published files, the clock, and the writers. */
  datatype Sys = Sys(receipt: Option<Receipt>, csv: Option<string>, today: int, pcs: map<Writer, Pc>)

  datatype Event =
    | Begin(binding: Binding, csv: string) | Stamp | CheckReceipt | LinkReceipt | LinkCsv | Crash | Tick(days: nat)

  function PcOf(s: Sys, a: Writer): Pc {
    if a in s.pcs then s.pcs[a] else Idle
  }

  function At(s: Sys, a: Writer, pc: Pc): Sys {
    s.(pcs := s.pcs[a := pc])
  }

  /** One step of one writer; a refused writer goes back to idle and leaves the files alone. */
  function Step(s: Sys, a: Writer, e: Event): Option<Sys> {
    match (e, PcOf(s, a))
    case (Begin(binding, csv), Idle) =>
      Some(if s.today >= UNSEAL_AFTER && s.csv.None? then At(s, a, Working(binding, csv)) else s)
    case (Stamp, Working(binding, csv)) =>
      Some(At(s, a, Checking(Receipt(binding, s.today, csv))))
    case (CheckReceipt, Checking(mine)) =>
      Some(At(s, a, if s.receipt.None? then Linking(mine)
                    else if SameReceipt(s.receipt.value, mine, s.today) then Receipted(mine)
                    else Idle))
    case (LinkReceipt, Linking(mine)) =>
      Some(if s.receipt.None? then At(s.(receipt := Some(mine)), a, Receipted(mine))
           else At(s, a, if SameReceipt(s.receipt.value, mine, s.today) then Receipted(mine) else Idle))
    case (LinkCsv, Receipted(mine)) =>
      Some(if s.csv.None? then At(s.(csv := Some(mine.csv)), a, Idle) else At(s, a, Idle))
    case (Crash, _) => Some(At(s, a, Idle))
    case (Tick(days), _) => Some(s.(today := s.today + days))
    case _ => None
  }

  datatype Move = Move(writer: Writer, event: Event)

  function Run(s: Sys, moves: seq<Move>): Option<Sys> {
    if moves == [] then Some(s)
    else
      var before := Run(s, moves[..|moves| - 1]);
      if before.None? then None
      else Step(before.value, moves[|moves| - 1].writer, moves[|moves| - 1].event)
  }

  function Initial(today: int): Sys {
    Sys(None, None, today, map[])
  }

  // ---- the invariant ---------------------------------------------------------------------------------

  predicate Relies(s: Sys, pc: Pc) {
    match pc
    case Idle => true
    case Working(_, _) => s.today >= UNSEAL_AFTER
    case Checking(mine) => Dated(mine, s.today)
    case Linking(mine) => Dated(mine, s.today)
    case Receipted(mine) => s.receipt.Some? && s.receipt.value.binding == mine.binding && s.receipt.value.csv == mine.csv
  }

  ghost predicate Inv(s: Sys) {
    && (s.receipt.Some? ==> Dated(s.receipt.value, s.today))
    && (s.csv.Some? ==> s.receipt.Some? && s.receipt.value.csv == s.csv.value)
    && forall a :: a in s.pcs ==> Relies(s, s.pcs[a])
  }

  /** Published files stay as they are, and the clock does not go back. */
  predicate Kept(s: Sys, t: Sys) {
    && (s.receipt.Some? ==> t.receipt == s.receipt)
    && (s.csv.Some? ==> t.csv == s.csv)
    && s.today <= t.today
  }

  lemma StepKeeps(s: Sys, a: Writer, e: Event, t: Sys)
    requires Inv(s) && Step(s, a, e) == Some(t)
    ensures Inv(t) && Kept(s, t)
  {
    assert Relies(s, PcOf(s, a)) by { assert a in s.pcs ==> Relies(s, s.pcs[a]); }
    forall b | b in t.pcs
      ensures Relies(t, t.pcs[b])
    {
      if b != a {
        assert b in s.pcs && Relies(s, s.pcs[b]);
      }
    }
  }

  lemma {:induction false} RunsKeep(s: Sys, moves: seq<Move>)
    requires Inv(s)
    ensures Run(s, moves).Some? ==> Inv(Run(s, moves).value) && Kept(s, Run(s, moves).value)
  {
    if moves != [] && Run(s, moves).Some? {
      var last := |moves| - 1;
      RunsKeep(s, moves[..last]);
      StepKeeps(Run(s, moves[..last]).value, moves[last].writer, moves[last].event, Run(s, moves).value);
    }
  }

  ghost predicate Reached(today: int, moves: seq<Move>, s: Sys) {
    Run(Initial(today), moves) == Some(s)
  }

  /** Over every run, receipt and CSV are never replaced, and a published CSV has the bytes its
      receipt binds. */
  lemma PublishedIsBound(today: int, moves: seq<Move>, s: Sys, more: seq<Move>, t: Sys)
    requires Reached(today, moves, s) && Run(s, more) == Some(t)
    ensures Kept(s, t)
    ensures t.csv.Some? ==> t.receipt.Some? && t.receipt.value.csv == t.csv.value
  {
    RunsKeep(Initial(today), moves);
    RunsKeep(s, more);
  }

  // ---- interrupted attempts -----------------------------------------------------------------------------

  /** One writer alone, from start to end. */
  function Solo(a: Writer, binding: Binding, csv: string): seq<Move> {
    [Move(a, Begin(binding, csv)), Move(a, Stamp), Move(a, CheckReceipt), Move(a, LinkCsv)]
  }

  lemma RunStep(s: Sys, moves: seq<Move>, m: Move)
    ensures Run(s, moves + [m])
         == if Run(s, moves).None? then None else Step(Run(s, moves).value, m.writer, m.event)
  {
    assert (moves + [m])[..|moves|] == moves;
  }

  /** After a crash between the receipt and the CSV, a retry publishes exactly when it brings the
      same bytes for the same capture, on any later day. */
  lemma RetryFinishesExactly(today: int, moves: seq<Move>, s: Sys, a: Writer, binding: Binding, csv: string)
    requires Reached(today, moves, s) && s.receipt.Some? && s.csv.None? && PcOf(s, a).Idle?
    ensures (Run(s, Solo(a, binding, csv)).Some? && Run(s, Solo(a, binding, csv)).value.csv == Some(csv))
       <==> binding == s.receipt.value.binding && csv == s.receipt.value.csv
  {
    RunsKeep(Initial(today), moves);
    var solo := Solo(a, binding, csv);
    var one, two, three := [solo[0]], [solo[0], solo[1]], [solo[0], solo[1], solo[2]];
    RunStep(s, [], solo[0]);
    assert [] + [solo[0]] == one;
    RunStep(s, one, solo[1]);
    assert one + [solo[1]] == two;
    RunStep(s, two, solo[2]);
    assert two + [solo[2]] == three;
    RunStep(s, three, solo[3]);
    assert three + [solo[3]] == solo;
  }

  /** A writer that lost the race for the receipt goes on exactly when it brings the same bytes for the
      same capture as the winner. */
  lemma LoserFinishesExactly(today: int, moves: seq<Move>, s: Sys, a: Writer)
    requires Reached(today, moves, s) && s.receipt.Some? && s.csv.None? && PcOf(s, a).Linking?
    ensures var mine, end := PcOf(s, a).mine, Run(s, [Move(a, LinkReceipt), Move(a, LinkCsv)]);
            (end.Some? && end.value.csv == Some(mine.csv))
            <==> mine.binding == s.receipt.value.binding && mine.csv == s.receipt.value.csv
  {
    RunsKeep(Initial(today), moves);
    var link, publish := Move(a, LinkReceipt), Move(a, LinkCsv);
    RunStep(s, [], link);
    assert [] + [link] == [link];
    RunStep(s, [link], publish);
    assert [link] + [publish] == [link, publish];
  }

  /** Alone and after the unseal day a writer publishes: its bytes, under a receipt of that day for its
      capture. */
  lemma FirstWriterPublishes(today: int, moves: seq<Move>, s: Sys, a: Writer, binding: Binding, csv: string)
    requires Reached(today, moves, s) && s.receipt.None? && PcOf(s, a).Idle? && s.today >= UNSEAL_AFTER
    ensures var full := [Move(a, Begin(binding, csv)), Move(a, Stamp), Move(a, CheckReceipt), Move(a, LinkReceipt),
                         Move(a, LinkCsv)];
            && Run(s, full).Some?
            && Run(s, full).value.csv == Some(csv) && Run(s, full).value.receipt == Some(Receipt(binding, s.today, csv))
  {
    RunsKeep(Initial(today), moves);
    var all := [Move(a, Begin(binding, csv)), Move(a, Stamp), Move(a, CheckReceipt), Move(a, LinkReceipt), Move(a, LinkCsv)];
    RunStep(s, [], all[0]);
    assert [] + [all[0]] == all[..1];
    RunStep(s, all[..1], all[1]);
    assert all[..1] + [all[1]] == all[..2];
    RunStep(s, all[..2], all[2]);
    assert all[..2] + [all[2]] == all[..3];
    RunStep(s, all[..3], all[3]);
    assert all[..3] + [all[3]] == all[..4];
    RunStep(s, all[..4], all[4]);
    assert all[..4] + [all[4]] == all;
  }

  /** The writer whose step publishes the CSV carries the receipt's bytes and binding. */
  predicate Finishes(s: Sys, m: Move) {
    && m.event.LinkCsv? && s.csv.None? && s.receipt.Some?
    && var pc := PcOf(s, m.writer);
       pc.Receipted? && pc.mine.binding == s.receipt.value.binding && pc.mine.csv == s.receipt.value.csv
  }

  lemma PublishingStep(s: Sys, m: Move, t: Sys)
    requires Inv(s) && Step(s, m.writer, m.event) == Some(t) && s.csv.None? && t.csv.Some?
    ensures Finishes(s, m) && t.csv.value == s.receipt.value.csv
  {
    assert Relies(s, PcOf(s, m.writer)) by { assert m.writer in s.pcs ==> Relies(s, s.pcs[m.writer]); }
  }

  /** Over every interleaving, an interrupted attempt is finished by a writer that brought exactly the
      receipt's bytes for exactly its capture, and nobody else. */
  lemma {:induction false} FinishedByTheReceipted(s: Sys, more: seq<Move>)
    requires Inv(s) && s.receipt.Some? && s.csv.None?
    requires Run(s, more).Some? && Run(s, more).value.csv.Some?
    ensures Run(s, more).value.csv.value == s.receipt.value.csv
    ensures exists k :: 0 <= k < |more| && Run(s, more[..k]).Some? && Finishes(Run(s, more[..k]).value, more[k])
                     && Run(s, more[..k]).value.receipt == s.receipt
  {
    var last := |more| - 1;
    RunsKeep(s, more[..last]);
    var t := Run(s, more[..last]).value;
    if t.csv.None? {
      PublishingStep(t, more[last], Run(s, more).value);
    } else {
      FinishedByTheReceipted(s, more[..last]);
      StepKeeps(t, more[last].writer, more[last].event, Run(s, more).value);
      var k :| 0 <= k < last && Run(s, more[..last][..k]).Some? && Finishes(Run(s, more[..last][..k]).value, more[..last][k])
            && Run(s, more[..last][..k]).value.receipt == s.receipt;
      assert more[..last][..k] == more[..k];
    }
  }

  lemma InterruptedIsFinishedAsBound(today: int, moves: seq<Move>, s: Sys, more: seq<Move>, t: Sys)
    requires Reached(today, moves, s) && s.receipt.Some? && s.csv.None? && Run(s, more) == Some(t) && t.csv.Some?
    ensures t.csv.value == s.receipt.value.csv
    ensures exists k :: 0 <= k < |more| && Run(s, more[..k]).Some? && Finishes(Run(s, more[..k]).value, more[k])
                     && Run(s, more[..k]).value.receipt == s.receipt
  {
    RunsKeep(Initial(today), moves);
    FinishedByTheReceipted(s, more);
  }

  /** The reader accepts a published pair, now and on any later day, exactly for the capture the
      receipt was written for. */
  lemma ReaderAgrees(today: int, moves: seq<Move>, s: Sys, expected: Binding, day: int)
    requires Reached(today, moves, s) && s.csv.Some? && day >= s.today
    ensures s.receipt.Some?
    ensures ReaderAccepts(s.csv.value, s.receipt.value, expected, day) <==> expected == s.receipt.value.binding
  {
    RunsKeep(Initial(today), moves);
  }

  /** The reader takes nothing else: other bytes, another capture, or a receipt from before the unseal or
      from the future are rejected, whatever the files. */
  lemma TamperingShows(csv: string, receipt: Receipt, expected: Binding, day: int)
    requires ReaderAccepts(csv, receipt, expected, day)
    ensures forall other: string :: ReaderAccepts(other, receipt, expected, day) ==> other == csv
    ensures forall other: Receipt :: ReaderAccepts(csv, other, expected, day) ==>
              other.binding == receipt.binding && other.csv == receipt.csv
    ensures forall other: Binding :: ReaderAccepts(csv, receipt, other, day) ==> other == expected
    ensures forall other: int :: ReaderAccepts(csv, receipt, expected, other) ==> other >= receipt.generatedOn
    ensures forall on: int :: ReaderAccepts(csv, receipt.(generatedOn := on), expected, day) <==> UNSEAL_AFTER <= on <= day
  {
  }

  /** A receipt on disk is reused for no other capture and no other bytes, and not if it is dated before the unseal
      or ahead of the clock. */
  lemma ReuseExactly(existing: Receipt, binding: Binding, csv: string, on: int, today: int)
    ensures SameReceipt(existing, Receipt(binding, on, csv), today)
       <==> existing == Receipt(binding, existing.generatedOn, csv) && UNSEAL_AFTER <= existing.generatedOn <= today
  {
  }

  /** Once the CSV is published nobody starts another attempt. */
  lemma {:induction false} NoLaterAttempt(s: Sys, more: seq<Move>, a: Writer)
    requires Inv(s) && s.csv.Some? && PcOf(s, a).Idle? && Run(s, more).Some?
    ensures PcOf(Run(s, more).value, a).Idle?
  {
    if more != [] {
      NoLaterAttempt(s, more[..|more| - 1], a);
      RunsKeep(s, more[..|more| - 1]);
    }
  }

  /** A writer may die anywhere, and time may pass; neither touches the files. */
  lemma InterruptionsHappen(s: Sys, a: Writer, days: nat)
    ensures var dead, later := Step(s, a, Crash), Step(s, a, Tick(days));
            && dead.Some? && dead.value == s.(pcs := dead.value.pcs) && PcOf(dead.value, a).Idle?
            && (forall b :: b != a ==> PcOf(dead.value, b) == PcOf(s, b))
            && later == Some(s.(today := s.today + days))
  {
  }

  /** The clock showed a day at some moment of the run. */
  ghost predicate Showed(today: int, moves: seq<Move>, day: int) {
    exists k :: 0 <= k <= |moves| && Run(Initial(today), moves[..k]).Some? && Run(Initial(today), moves[..k]).value.today == day
  }

  ghost predicate DaysShown(today: int, moves: seq<Move>, s: Sys) {
    && (s.receipt.Some? ==> Showed(today, moves, s.receipt.value.generatedOn))
    && forall a :: a in s.pcs && (s.pcs[a].Checking? || s.pcs[a].Linking?) ==> Showed(today, moves, s.pcs[a].mine.generatedOn)
  }

  /** A receipt is dated on a day of its own run, not before the writer began and not ahead. */
  lemma {:induction false} ReceiptIsDatedThen(today: int, moves: seq<Move>, s: Sys)
    requires Reached(today, moves, s)
    ensures DaysShown(today, moves, s)
  {
    if moves != [] {
      var last := |moves| - 1;
      var before := Run(Initial(today), moves[..last]).value;
      ReceiptIsDatedThen(today, moves[..last], before);
      forall day | Showed(today, moves[..last], day)
        ensures Showed(today, moves, day)
      {
        var k :| 0 <= k <= last && Run(Initial(today), moves[..last][..k]).Some?
              && Run(Initial(today), moves[..last][..k]).value.today == day;
        assert moves[..last][..k] == moves[..k];
      }
      assert Showed(today, moves, before.today) by { assert Run(Initial(today), moves[..last]) == Some(before); }
    }
  }

  /** Nothing is published before the unseal day. */
  lemma SealedUntil(today: int, moves: seq<Move>, s: Sys)
    requires Reached(today, moves, s) && (s.receipt.Some? || s.csv.Some?)
    ensures s.today >= UNSEAL_AFTER && s.receipt.Some? && s.receipt.value.generatedOn >= UNSEAL_AFTER
  {
    RunsKeep(Initial(today), moves);
  }
}
