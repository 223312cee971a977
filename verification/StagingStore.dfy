/** Publishing into a staging root: immutable rows, archived envelopes, and an atomic replacement
    of the active envelope, with a crash possible between any two file operations. */
module StagingStore {
  import opened AuditTypes
  import opened StagingTypes

  // ---- file operations ------------------------------------------------------------------------

  /** A hard link never replaces; a rename always does. Both are atomic. */
  datatype FileOp = Link(path: Path, content: Content) | Replace(path: Path, content: Content)

  function Apply(files: Files, op: FileOp): Files {
    match op
    case Link(p, c) => if p in files then files else files[p := c]
    case Replace(p, c) => files[p := c]
  }

  function ApplyAll(files: Files, ops: seq<FileOp>): Files {
    if ops == [] then files else Apply(ApplyAll(files, ops[..|ops| - 1]), ops[|ops| - 1])
  }

  predicate Conflicts(files: Files, p: Path, c: Content) {
    p in files && files[p] != c
  }

  /** The operations a call performs, and whether it then succeeds. */
  datatype Plan = Plan(ops: seq<FileOp>, ok: bool)

  // ---- the two calls --------------------------------------------------------------------------

  function Rebound(e: Envelope, rows: seq<StagedRow>): Envelope {
    e.(rowsFile := ImmutableRows(e.docId, Rows(rows)), rowsSha := Rows(rows))
  }

  predicate RowsFit(e: Envelope, rows: seq<StagedRow>) {
    e.rowCount == |rows| && forall i :: 0 <= i < |rows| ==> rows[i].docId == e.docId
  }

  ghost predicate ActiveIsValid(files: Files, d: DocId) {
    DocFile(d) in files ==>
      files[DocFile(d)].Env? && files[DocFile(d)].env.docId == d && ValidPair(files, files[DocFile(d)].env)
  }

  ghost function PublishPlan(files: Files, e: Envelope, rows: seq<StagedRow>): Plan {
    var d, payload := e.docId, Rows(rows);
    if !RowsFit(e, rows) || !ActiveIsValid(files, d) then Plan([], false)
    else if Conflicts(files, ImmutableRows(d, payload), payload) then Plan([], false)
    else
      var linked := Link(ImmutableRows(d, payload), payload);
      if !ValidPair(Apply(files, linked), Rebound(e, rows)) then Plan([linked], false)
      else if DocFile(d) !in files then Plan([linked, Replace(DocFile(d), Env(Rebound(e, rows)))], true)
      else
        var active := files[DocFile(d)];
        if Conflicts(files, Attempt(d, active), active) then Plan([linked], false)
        else Plan([linked, Link(Attempt(d, active), active), Replace(DocFile(d), Env(Rebound(e, rows)))], true)
  }

  predicate SameProof(e: Envelope, f: Envelope) {
    e.docId == f.docId && e.artifact == f.artifact && e.rowCount == f.rowCount
    && e.rowsFile == f.rowsFile && e.rowsSha == f.rowsSha
  }

  ghost function ReplacePlan(files: Files, d: DocId, e: Envelope): Plan {
    if DocFile(d) !in files || !ActiveIsValid(files, d) || !SameProof(files[DocFile(d)].env, e) then Plan([], false)
    else
      var active := files[DocFile(d)];
      if Conflicts(files, Attempt(d, active), active) then Plan([], false)
      else Plan([Link(Attempt(d, active), active), Replace(DocFile(d), Env(e))], true)
  }

  // ---- the program ------------------------------------------------------------------------------

  datatype Outcome = Done | Refused | Crashed

  /** What a plan leaves when the process survives only so many file operations. */
  function Cut(files: Files, plan: Plan, budget: nat): Files {
    ApplyAll(files, plan.ops[..Min(budget, |plan.ops|)])
  }

  function CutOutcome(plan: Plan, budget: nat): Outcome {
    if budget < |plan.ops| then Crashed else if plan.ok then Done else Refused
  }

  class Root {
    var files: Files
    /** How many file operations the process still survives. */
    var budget: nat

    constructor (initial: Files, steps: nat)
      ensures files == initial && budget == steps
    {
      files, budget := initial, steps;
    }

    /** One atomic file operation, unless the process has died. */
    method Perform(op: FileOp) returns (alive: bool)
      modifies this
      ensures alive <==> old(budget) > 0
      ensures alive ==> files == Apply(old(files), op) && budget == old(budget) - 1
      ensures !alive ==> files == old(files) && budget == 0
    {
      if budget == 0 {
        return false;
      }
      match op {
        case Link(p, c) =>
          if p !in files {
            files := files[p := c];
          }
        case Replace(p, c) =>
          files := files[p := c];
      }
      budget := budget - 1;
      return true;
    }

    method ValidateActive(d: DocId) returns (ok: bool)
      ensures ok <==> ActiveIsValid(files, d)
    {
      if DocFile(d) !in files {
        return true;
      }
      var active := files[DocFile(d)];
      if !active.Env? || active.env.docId != d {
        return false;
      }
      ok := ValidateStagedPair(files, active.env);
    }

    method PublishDocument(e: Envelope, rows: seq<StagedRow>) returns (outcome: Outcome)
      modifies this
      ensures var plan := PublishPlan(old(files), e, rows);
              files == Cut(old(files), plan, old(budget)) && outcome == CutOutcome(plan, old(budget))
    {
      ghost var before, steps := files, budget;
      ghost var plan := PublishPlan(files, e, rows);
      var d, payload := e.docId, Rows(rows);
      var valid := ValidateActive(d);
      if !RowsFit(e, rows) || !valid || Conflicts(files, ImmutableRows(d, payload), payload) {
        NoOps(before, plan, steps);
        return Refused;
      }
      var active := if DocFile(d) in files then Some(files[DocFile(d)]) else None;
      var alive := Perform(Link(ImmutableRows(d, payload), payload));
      CutSteps(before, plan, steps);
      if !alive {
        return Crashed;
      }
      var fits := ValidateStagedPair(files, Rebound(e, rows));
      if !fits {
        return Refused;
      }
      if active.Some? {
        if Conflicts(files, Attempt(d, active.value), active.value) {
          return Refused;
        }
        alive := Perform(Link(Attempt(d, active.value), active.value));
        if !alive {
          return Crashed;
        }
      }
      alive := Perform(Replace(DocFile(d), Env(Rebound(e, rows))));
      outcome := if alive then Done else Crashed;
    }

    method ReplaceEnvelope(d: DocId, e: Envelope) returns (outcome: Outcome)
      modifies this
      ensures var plan := ReplacePlan(old(files), d, e);
              files == Cut(old(files), plan, old(budget)) && outcome == CutOutcome(plan, old(budget))
    {
      ghost var before, steps := files, budget;
      ghost var plan := ReplacePlan(files, d, e);
      var valid := ValidateActive(d);
      if DocFile(d) !in files || !valid || !SameProof(files[DocFile(d)].env, e)
         || Conflicts(files, Attempt(d, files[DocFile(d)]), files[DocFile(d)]) {
        NoOps(before, plan, steps);
        return Refused;
      }
      CutSteps(before, plan, steps);
      var active := files[DocFile(d)];
      var alive := Perform(Link(Attempt(d, active), active));
      if !alive {
        return Crashed;
      }
      alive := Perform(Replace(DocFile(d), Env(e)));
      if !alive {
        return Crashed;
      }
      ReplacedStaysValid(before, d, e);
      var checked := ValidateStagedPair(files, e);
      outcome := if checked then Done else Refused;
    }
  }

  lemma NoOps(files: Files, plan: Plan, budget: nat)
    requires plan.ops == []
    ensures Cut(files, plan, budget) == files
  {
  }

  /** Cutting a plan of up to three operations after each of them. */
  lemma CutSteps(files: Files, plan: Plan, budget: nat)
    requires 1 <= |plan.ops| <= 3
    ensures var ops := plan.ops;
            && (budget == 0 ==> Cut(files, plan, budget) == files)
            && (budget == 1 || (budget > 1 && |ops| == 1) ==> Cut(files, plan, budget) == Apply(files, ops[0]))
            && (|ops| >= 2 && (budget == 2 || (budget > 2 && |ops| == 2)) ==>
                  Cut(files, plan, budget) == Apply(Apply(files, ops[0]), ops[1]))
            && (|ops| == 3 && budget >= 3 ==>
                  Cut(files, plan, budget) == Apply(Apply(Apply(files, ops[0]), ops[1]), ops[2]))
  {
    var ops := plan.ops;
    assert ops[..0] == [];
    assert ops[..1][..0] == [];
    assert ApplyAll(files, ops[..1]) == Apply(files, ops[0]);
    if |ops| >= 2 {
      assert ops[..2][..1] == ops[..1];
      assert ApplyAll(files, ops[..2]) == Apply(Apply(files, ops[0]), ops[1]);
    }
    if |ops| == 3 {
      assert ops[..3][..2] == ops[..2];
    }
    assert ops[..|ops|] == ops;
  }

  // ---- the invariant -------------------------------------------------------------------------------

  /** Immutable files hold what their name digests. */
  ghost predicate NamesTruthful(files: Files) {
    forall p :: p in files && Immutable(p) ==> files[p] == p.sha
  }

  /** Every active envelope has its rows file, matching in digest, count and identity. */
  ghost predicate ActiveValid(files: Files) {
    forall d :: ActiveIsValid(files, d)
  }

  ghost predicate Sound(files: Files) {
    NamesTruthful(files) && ActiveValid(files)
  }

  /** Immutable and legacy files stay as they are, and an active envelope is still active or
      archived. */
  ghost predicate Evolves(files: Files, later: Files) {
    && (forall p :: p in files && !p.DocFile? ==> p in later && later[p] == files[p])
    && (forall d :: DocFile(d) in files ==>
          || (DocFile(d) in later && later[DocFile(d)] == files[DocFile(d)])
          || (Attempt(d, files[DocFile(d)]) in later && later[Attempt(d, files[DocFile(d)])] == files[DocFile(d)]))
  }

  lemma EvolvesTransitive(a: Files, b: Files, c: Files)
    requires Evolves(a, b) && Evolves(b, c)
    ensures Evolves(a, c)
  {
  }

  lemma ValidStays(files: Files, later: Files, e: Envelope)
    requires ValidPair(files, e) && Evolves(files, later)
    ensures ValidPair(later, e)
  {
    assert e.rowsFile in later && later[e.rowsFile] == files[e.rowsFile];
  }

  /** Linking an immutable file under its own digest is always safe. */
  lemma LinkIsSafe(files: Files, p: Path, c: Content)
    requires Sound(files) && Immutable(p) && p.sha == c
    ensures Sound(Apply(files, Link(p, c))) && Evolves(files, Apply(files, Link(p, c)))
    ensures p in Apply(files, Link(p, c)) && Apply(files, Link(p, c))[p] == c
  {
    var later := Apply(files, Link(p, c));
    forall d
      ensures ActiveIsValid(later, d)
    {
      assert ActiveIsValid(files, d);
      if DocFile(d) in files {
        ValidStays(files, later, files[DocFile(d)].env);
      }
    }
  }

  /** Replacing an envelope is safe once its own pair is valid and the old one is archived. */
  lemma ReplaceIsSafe(files: Files, d: DocId, e: Envelope)
    requires Sound(files) && e.docId == d && ValidPair(files, e)
    requires DocFile(d) in files ==> Attempt(d, files[DocFile(d)]) in files
    ensures var later := Apply(files, Replace(DocFile(d), Env(e)));
            Sound(later) && Evolves(files, later)
  {
    var later := files[DocFile(d) := Env(e)];
    assert Evolves(files, later);
    forall x
      ensures ActiveIsValid(later, x)
    {
      assert ActiveIsValid(files, x);
      if x == d {
        ValidStays(files, later, e);
      } else if DocFile(x) in files {
        ValidStays(files, later, files[DocFile(x)].env);
      }
    }
  }

  lemma ReplacedStaysValid(files: Files, d: DocId, e: Envelope)
    requires DocFile(d) in files && ActiveIsValid(files, d) && SameProof(files[DocFile(d)].env, e)
    ensures var active := files[DocFile(d)];
            ValidPair(Apply(Apply(files, Link(Attempt(d, active), active)), Replace(DocFile(d), Env(e))), e)
  {
  }

  ghost predicate Safe(files: Files, later: Files) {
    Sound(later) && Evolves(files, later)
  }

  lemma SafeChain(a: Files, b: Files, c: Files)
    requires Safe(a, b) && Safe(b, c)
    ensures Safe(a, c)
  {
    EvolvesTransitive(a, b, c);
  }

  /** Publication keeps the root sound wherever it stops. */
  lemma PublishIsSafe(files: Files, e: Envelope, rows: seq<StagedRow>, budget: nat)
    requires Sound(files)
    ensures Safe(files, Cut(files, PublishPlan(files, e, rows), budget))
  {
    var plan := PublishPlan(files, e, rows);
    var d, payload := e.docId, Rows(rows);
    if plan.ops == [] {
      NoOps(files, plan, budget);
    } else {
      CutSteps(files, plan, budget);
      LinkIsSafe(files, ImmutableRows(d, payload), payload);
      var one := Apply(files, plan.ops[0]);
      if |plan.ops| == 2 {
        ReplaceIsSafe(one, d, Rebound(e, rows));
        SafeChain(files, one, Apply(one, plan.ops[1]));
      } else if |plan.ops| == 3 {
        var active := files[DocFile(d)];
        LinkIsSafe(one, Attempt(d, active), active);
        var two := Apply(one, plan.ops[1]);
        SafeChain(files, one, two);
        ValidStays(one, two, Rebound(e, rows));
        ReplaceIsSafe(two, d, Rebound(e, rows));
        SafeChain(files, two, Apply(two, plan.ops[2]));
      }
    }
  }

  /** So does the replacement of an envelope's classification. */
  lemma ReplacementIsSafe(files: Files, d: DocId, e: Envelope, budget: nat)
    requires Sound(files)
    ensures Safe(files, Cut(files, ReplacePlan(files, d, e), budget))
  {
    var plan := ReplacePlan(files, d, e);
    if plan.ops == [] {
      NoOps(files, plan, budget);
    } else {
      CutSteps(files, plan, budget);
      assert ActiveIsValid(files, d);
      var active := files[DocFile(d)];
      LinkIsSafe(files, Attempt(d, active), active);
      var one := Apply(files, plan.ops[0]);
      assert ValidPair(files, e);
      ValidStays(files, one, e);
      ReplaceIsSafe(one, d, e);
      SafeChain(files, one, Apply(one, plan.ops[1]));
    }
  }

  // ---- whole runs --------------------------------------------------------------------------------------

  /** One call, allowed to survive a given number of file operations. */
  datatype Call =
    | Publish(e: Envelope, rows: seq<StagedRow>, budget: nat)
    | Reclassify(d: DocId, e: Envelope, budget: nat)

  ghost function AfterCall(files: Files, call: Call): Files {
    match call
    case Publish(e, rows, budget) => Cut(files, PublishPlan(files, e, rows), budget)
    case Reclassify(d, e, budget) => Cut(files, ReplacePlan(files, d, e), budget)
  }

  ghost function AfterCalls(files: Files, calls: seq<Call>): Files {
    if calls == [] then files else AfterCall(AfterCalls(files, calls[..|calls| - 1]), calls[|calls| - 1])
  }

  lemma {:induction false} RunsStaySound(files: Files, calls: seq<Call>)
    requires Sound(files)
    ensures Sound(AfterCalls(files, calls))
  {
    if calls != [] {
      var last := |calls| - 1;
      RunsStaySound(files, calls[..last]);
      CallIsSafe(AfterCalls(files, calls[..last]), calls[last]);
    }
  }

  /** After any calls, each cut anywhere, the root is sound, immutable files are unchanged and
      every envelope that was active at any point of the run is active or archived. */
  lemma {:induction false} RunsAreSafe(files: Files, calls: seq<Call>, k: nat)
    requires Sound(files) && k <= |calls|
    ensures Safe(AfterCalls(files, calls[..k]), AfterCalls(files, calls))
    decreases |calls|
  {
    RunsStaySound(files, calls);
    if k == |calls| {
      assert calls[..k] == calls;
    } else {
      var last := |calls| - 1;
      RunsAreSafe(files, calls[..last], k);
      assert calls[..last][..k] == calls[..k];
      SafeAfter(AfterCalls(files, calls[..k]), AfterCalls(files, calls[..last]), calls[last]);
      OneMoreCall(files, calls);
    }
  }

  lemma SafeAfter(a: Files, b: Files, call: Call)
    requires Safe(a, b)
    ensures Safe(a, AfterCall(b, call))
  {
    CallIsSafe(b, call);
    SafeChain(a, b, AfterCall(b, call));
  }

  lemma OneMoreCall(files: Files, calls: seq<Call>)
    requires calls != []
    ensures AfterCalls(files, calls) == AfterCall(AfterCalls(files, calls[..|calls| - 1]), calls[|calls| - 1])
  {
  }

  lemma CallIsSafe(files: Files, call: Call)
    requires Sound(files)
    ensures Safe(files, AfterCall(files, call))
  {
    match call
    case Publish(e, rows, budget) => PublishIsSafe(files, e, rows, budget);
    case Reclassify(d, e, budget) => ReplacementIsSafe(files, d, e, budget);
  }

  /** On a sound root a publication is refused exactly for rows that are not the envelope's, so a crashed
      one can always be repeated to the end. */
  lemma PublicationSucceeds(files: Files, e: Envelope, rows: seq<StagedRow>)
    requires Sound(files)
    ensures PublishPlan(files, e, rows).ok <==> e.rowCount == |rows| && RowsBound(rows, e)
  {
    var d, payload := e.docId, Rows(rows);
    assert ActiveIsValid(files, d);
    LinkIsSafe(files, ImmutableRows(d, payload), payload);
    assert RowsBound(rows, Rebound(e, rows)) <==> RowsBound(rows, e) by {
      assert forall r :: RowOwned(r, Rebound(e, rows)) <==> RowOwned(r, e);
    }
    if RowsBound(rows, e) {
      assert forall i :: 0 <= i < |rows| ==> RowOwned(rows[i], e);
    }
  }

  // ---- what a call leaves alone, on any root ------------------------------------------------------

  /** A publication touches its document only: it adds the rows under their digest and the archived
      envelope, and puts the new envelope in place as its last act, if it is not refused. */
  ghost predicate OnlyPublishes(files: Files, later: Files, e: Envelope, rows: seq<StagedRow>) {
    var d := e.docId;
    && (forall p :: p in files && p != DocFile(d) ==> p in later && later[p] == files[p])
    && (forall p :: p in later && p !in files && p != DocFile(d) ==>
          && (p == ImmutableRows(d, Rows(rows)) || (DocFile(d) in files && p == Attempt(d, files[DocFile(d)])))
          && later[p] == p.sha)
    && (if DocFile(d) in files then DocFile(d) in later && (later[DocFile(d)] == files[DocFile(d)] || Published(files, later, e, rows))
        else DocFile(d) !in later || Published(files, later, e, rows))
  }

  /** The new envelope is active, bound to the rows, which are stored under their digest, and the envelope it
      took the place of is archived. */
  ghost predicate Published(files: Files, later: Files, e: Envelope, rows: seq<StagedRow>) {
    var d, name := e.docId, ImmutableRows(e.docId, Rows(rows));
    && DocFile(d) in later && later[DocFile(d)] == Env(e.(rowsFile := name, rowsSha := Rows(rows)))
    && name in later && later[name] == Rows(rows)
    && (DocFile(d) in files ==>
          Attempt(d, files[DocFile(d)]) in later && later[Attempt(d, files[DocFile(d)])] == files[DocFile(d)])
  }

  /** On any root, damaged ones too, and wherever it stops. */
  lemma PublicationFrame(files: Files, e: Envelope, rows: seq<StagedRow>, budget: nat)
    ensures OnlyPublishes(files, Cut(files, PublishPlan(files, e, rows), budget), e, rows)
    ensures CutOutcome(PublishPlan(files, e, rows), budget).Done? ==>
              Published(files, Cut(files, PublishPlan(files, e, rows), budget), e, rows)
  {
    var plan := PublishPlan(files, e, rows);
    if plan.ops == [] {
      NoOps(files, plan, budget);
    } else {
      CutSteps(files, plan, budget);
    }
  }

  /** A root whose active envelope does not match its rows is left as it is, and so is any root for rows of
      another document or number. */
  lemma DamageIsLeftAlone(files: Files, e: Envelope, rows: seq<StagedRow>, budget: nat)
    requires !ActiveIsValid(files, e.docId) || e.rowCount != |rows| || exists i :: 0 <= i < |rows| && rows[i].docId != e.docId
    ensures Cut(files, PublishPlan(files, e, rows), budget) == files
    ensures !PublishPlan(files, e, rows).ok
  {
    NoOps(files, PublishPlan(files, e, rows), budget);
  }

  /** A call that survives three file operations, which is all it performs, says whether it was refused; one that
      survives fewer may have died. */
  lemma OutcomeSays(files: Files, e: Envelope, rows: seq<StagedRow>, d: DocId, budget: nat)
    ensures var publish, replace := PublishPlan(files, e, rows), ReplacePlan(files, d, e);
            && (budget >= 3 ==> CutOutcome(publish, budget) == if publish.ok then Done else Refused)
            && (budget >= 2 ==> CutOutcome(replace, budget) == if replace.ok then Done else Refused)
            && (budget == 0 ==> !CutOutcome(publish, budget).Done? && !CutOutcome(replace, budget).Done?)
  {
  }

  /** A replacement touches one envelope: it archives it, and puts one with the same row proof in its place. */
  lemma ReplacementFrame(files: Files, d: DocId, e: Envelope, budget: nat)
    ensures var later := Cut(files, ReplacePlan(files, d, e), budget);
            && (forall p :: p in files && p != DocFile(d) ==> p in later && later[p] == files[p])
            && (forall p :: p in later && p !in files ==>
                  DocFile(d) in files && p == Attempt(d, files[DocFile(d)]) && later[p] == files[DocFile(d)])
            && (DocFile(d) in files ==>
                  && DocFile(d) in later
                  && (later[DocFile(d)] != files[DocFile(d)] ==>
                        && later[DocFile(d)] == Env(e) && ActiveIsValid(files, d) && ValidPair(files, e)
                        && Attempt(d, files[DocFile(d)]) in later
                        && later[Attempt(d, files[DocFile(d)])] == files[DocFile(d)]))
            && (CutOutcome(ReplacePlan(files, d, e), budget).Done? ==>
                  DocFile(d) in later && later[DocFile(d)] == Env(e))
            && (Sound(files) ==>
                  (ReplacePlan(files, d, e).ok
                   <==> (DocFile(d) in files && files[DocFile(d)].Env?
                         && files[DocFile(d)].env == e.(meta := files[DocFile(d)].env.meta))))
  {
    var plan := ReplacePlan(files, d, e);
    if plan.ops == [] {
      NoOps(files, plan, budget);
    } else {
      CutSteps(files, plan, budget);
      var f := files[DocFile(d)].env;
      assert ValidPair(files, e) by {
        assert forall r :: RowOwned(r, f) <==> RowOwned(r, e);
      }
    }
  }

  /** Repeating a publication that crashed reaches the same active envelope as an uninterrupted one. */
  lemma RetryConverges(files: Files, e: Envelope, rows: seq<StagedRow>, crash: nat, budget: nat)
    requires Sound(files) && RowsFit(e, rows) && RowsBound(rows, e) && budget >= 3
    ensures var cut := Cut(files, PublishPlan(files, e, rows), crash);
            var end := Cut(cut, PublishPlan(cut, e, rows), budget);
            DocFile(e.docId) in end && end[DocFile(e.docId)] == Env(Rebound(e, rows))
  {
    var cut := Cut(files, PublishPlan(files, e, rows), crash);
    PublishIsSafe(files, e, rows, crash);
    PublicationSucceeds(cut, e, rows);
    CutSteps(cut, PublishPlan(cut, e, rows), budget);
  }
}
