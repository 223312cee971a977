/** The two-way reconciliation of the zero-transaction rule over a staging root: what counts as
    evidence, what a run does to each envelope, and why it may be interrupted and repeated. */
module Reclassify {
  import opened AuditTypes
  import opened StagingTypes
  import opened StagingStore

  // ---- page evidence ----------------------------------------------------------------------------

  /** All readings recorded for one page, in order; true is "reports no transactions". */
  function ReadingsOf(reasons: seq<Reason>, n: int): seq<bool> {
    if reasons == [] then []
    else
      var last := reasons[|reasons| - 1];
      var before := ReadingsOf(reasons[..|reasons| - 1], n);
      if last.Page? && last.n == n then before + [last.nothing] else before
  }

  ghost predicate IsEvidence(pages: map<int, seq<bool>>, reasons: seq<Reason>) {
    forall n :: (if n in pages then pages[n] else []) == ReadingsOf(reasons, n) && (n in pages ==> pages[n] != [])
  }

  method PageEvidence(reasons: seq<Reason>) returns (pages: map<int, seq<bool>>, malformed: bool)
    ensures IsEvidence(pages, reasons)
    ensures malformed <==> Malformed in reasons
  {
    pages, malformed := map[], false;
    for i := 0 to |reasons|
      invariant IsEvidence(pages, reasons[..i])
      invariant malformed <==> Malformed in reasons[..i]
    {
      assert reasons[..i + 1] == reasons[..i] + [reasons[i]];
      EvidenceGrows(pages, reasons[..i], reasons[i]);
      match reasons[i] {
        case Page(n, nothing) =>
          pages := pages[n := (if n in pages then pages[n] else []) + [nothing]];
        case Malformed => malformed := true;
        case _ =>
      }
    }
    assert reasons[..|reasons|] == reasons;
  }

  lemma EvidenceGrows(pages: map<int, seq<bool>>, reasons: seq<Reason>, r: Reason)
    requires IsEvidence(pages, reasons)
    ensures r.Page? ==> IsEvidence(pages[r.n := (if r.n in pages then pages[r.n] else []) + [r.nothing]], reasons + [r])
    ensures !r.Page? ==> IsEvidence(pages, reasons + [r])
  {
    assert (reasons + [r])[..|reasons|] == reasons;
    forall n
      ensures ReadingsOf(reasons + [r], n) == if r.Page? && r.n == n then ReadingsOf(reasons, n) + [r.nothing] else ReadingsOf(reasons, n)
    {
    }
  }

  /** Every page of the document has exactly one reading, that it reports nothing, and no other
      page is mentioned. */
  ghost predicate AllNothing(reasons: seq<Reason>, count: int) {
    && (forall n :: 1 <= n <= count ==> ReadingsOf(reasons, n) == [true])
    && (forall n :: ReadingsOf(reasons, n) != [] ==> 1 <= n <= count)
  }

  function OneTo(n: nat): (pages: set<int>)
    ensures forall i :: i in pages <==> 1 <= i <= n
    ensures |pages| == n
  {
    if n == 0 then {} else OneTo(n - 1) + {n}
  }

  /** Counting the pages and checking each of them is checking every page of the document. */
  method IsAllNothing(reasons: seq<Reason>, count: int) returns (all: bool)
    requires count >= 1
    ensures all <==> AllNothing(reasons, count)
  {
    var pages, _ := PageEvidence(reasons);
    all := |pages.Keys| == count && forall n :: n in pages ==> 1 <= n <= count && pages[n] == [true];
    if all {
      assert pages.Keys <= OneTo(count);
      SubsetOfSameSize(pages.Keys, OneTo(count));
    }
    if AllNothing(reasons, count) {
      AllNothingKeys(pages, reasons, count);
    }
  }

  lemma AllNothingKeys(pages: map<int, seq<bool>>, reasons: seq<Reason>, count: int)
    requires IsEvidence(pages, reasons) && AllNothing(reasons, count)
    ensures pages.Keys == OneTo(if count < 0 then 0 else count)
    ensures forall n :: n in pages ==> pages[n] == [true]
  {
    forall n
      ensures n in pages <==> 1 <= n <= count
      ensures n in pages ==> pages[n] == [true]
    {
      assert ReadingsOf(reasons, n) == if n in pages then pages[n] else [];
    }
  }

  // ---- the page inventory -------------------------------------------------------------------------

  function UpTo(n: nat): seq<int> {
    seq(n, i => i + 1)
  }

  ghost predicate PagesOnce(all: seq<int>, count: int) {
    && (forall i :: 0 <= i < |all| ==> 1 <= all[i] <= count)
    && (forall i, j :: 0 <= i < j < |all| ==> all[i] != all[j])
  }

  /** Covered and uncovered pages together are each page of the document once. */
  ghost predicate Partition(covered: seq<int>, uncovered: seq<int>, count: int) {
    |covered + uncovered| == count && PagesOnce(covered + uncovered, count)
  }

  function Members(s: seq<int>): set<int> {
    set i | 0 <= i < |s| :: s[i]
  }

  lemma {:induction false} DistinctSize(s: seq<int>)
    requires forall i, j :: 0 <= i < j < |s| ==> s[i] != s[j]
    ensures |Members(s)| == |s|
  {
    if s != [] {
      var last := |s| - 1;
      DistinctSize(s[..last]);
      assert Members(s) == Members(s[..last]) + {s[last]};
      assert s[last] !in Members(s[..last]);
    }
  }

  /** A partition covers every page. */
  lemma PartitionCovers(covered: seq<int>, uncovered: seq<int>, count: nat)
    requires Partition(covered, uncovered, count)
    ensures Members(covered + uncovered) == OneTo(count)
  {
    var all := covered + uncovered;
    DistinctSize(all);
    assert Members(all) <= OneTo(count);
    SubsetOfSameSize(Members(all), OneTo(count));
  }

  /** The check page by page: in range and seen once. */
  method CheckPages(all: seq<int>, count: nat) returns (ok: bool, seen: set<int>)
    ensures ok <==> PagesOnce(all, count)
    ensures ok ==> seen == Members(all)
  {
    seen := {};
    for i := 0 to |all|
      invariant seen == Members(all[..i])
      invariant forall k :: 0 <= k < i ==> 1 <= all[k] <= count
      invariant forall j, k :: 0 <= j < k < i ==> all[j] != all[k]
    {
      if all[i] < 1 || all[i] > count || all[i] in seen {
        return false, seen;
      }
      MembersGrow(all, i);
      seen := seen + {all[i]};
    }
    assert all[..|all|] == all;
    ok := true;
  }

  lemma MembersGrow(s: seq<int>, i: nat)
    requires i < |s|
    ensures Members(s[..i + 1]) == Members(s[..i]) + {s[i]}
  {
    assert s[..i + 1] == s[..i] + [s[i]];
  }

  method SortPages(pages: set<int>, count: nat) returns (sorted: seq<int>)
    requires pages == OneTo(count)
    ensures sorted == UpTo(count)
  {
    sorted := [];
    for n := 1 to count + 1
      invariant sorted == UpTo(n - 1)
    {
      if n in pages {
        sorted := sorted + [n];
      }
    }
  }

  /** The inventory check and the sorted page list it returns: always 1 to count. */
  method PageInventory(meta: Meta) returns (pages: Option<seq<int>>)
    ensures pages.Some? <==>
      meta.pageCount.Some? && meta.pageCount.value >= 1 && Partition(meta.covered, meta.uncovered, meta.pageCount.value)
    ensures pages.Some? ==> pages.value == UpTo(meta.pageCount.value)
  {
    if meta.pageCount.None? || meta.pageCount.value < 1 {
      return None;
    }
    var count := meta.pageCount.value;
    if |meta.covered| + |meta.uncovered| != count {
      return None;
    }
    var ok, seen := CheckPages(meta.covered + meta.uncovered, count);
    if !ok {
      return None;
    }
    PartitionCovers(meta.covered, meta.uncovered, count);
    var sorted := SortPages(seen, count);
    return Some(sorted);
  }

  lemma UpToOnce(n: nat)
    ensures PagesOnce(UpTo(n), n)
  {
  }

  lemma UpToPartition(n: nat)
    ensures Partition(UpTo(n), [], n) && Partition([], UpTo(n), n)
  {
    UpToOnce(n);
    assert UpTo(n) + [] == UpTo(n) && [] + UpTo(n) == UpTo(n);
  }

  // ---- one envelope ----------------------------------------------------------------------------------

  predicate Marked(m: Meta) {
    Marker in m.reasons
  }

  /** The envelopes a run looks at: zero-transaction claims and ones demoted earlier. */
  predicate Candidate(m: Meta) {
    m.status.NoTransactions? || (m.status.Unresolved? && Marked(m))
  }

  /** What the preflight demands of an envelope whose row proof is valid. */
  ghost predicate Admissible(e: Envelope) {
    var m := e.meta;
    && (m.pageCount.None? ==> m.status.Unresolved? && m.covered == [] && m.uncovered == [])
    && (m.pageCount.Some? ==>
          && m.pageCount.value >= 1 && Partition(m.covered, m.uncovered, m.pageCount.value)
          && (m.status.Resolved? || m.status.NoTransactions? ==> m.uncovered == [])
          && (m.status.Unresolved? && Marked(m) ==> m.covered == []))
    && (Candidate(m) ==> m.pageCount.Some? && Malformed !in m.reasons && e.rowCount == 0)
  }

  function Unmarked(reasons: seq<Reason>): seq<Reason> {
    if reasons == [] then []
    else
      var before := Unmarked(reasons[..|reasons| - 1]);
      if reasons[|reasons| - 1].Marker? then before else before + [reasons[|reasons| - 1]]
  }

  function Demoted(m: Meta): Meta
    requires m.pageCount.Some? && m.pageCount.value >= 0
  {
    m.(status := Unresolved, uncovered := UpTo(m.pageCount.value), covered := [],
       reasons := if Marked(m) then m.reasons else m.reasons + [Marker])
  }

  function Restored(m: Meta): Meta
    requires m.pageCount.Some? && m.pageCount.value >= 0
  {
    m.(status := NoTransactions, uncovered := [], covered := UpTo(m.pageCount.value), reasons := Unmarked(m.reasons))
  }

  /** What a run makes of an admissible envelope: claims without evidence are demoted, demoted
      envelopes with evidence are restored. */
  ghost function Reconciled(e: Envelope): Envelope
    requires Admissible(e)
  {
    if !Candidate(e.meta) then e
    else if e.meta.status.NoTransactions? then
      if AllNothing(e.meta.reasons, e.meta.pageCount.value) then e else e.(meta := Demoted(e.meta))
    else if AllNothing(e.meta.reasons, e.meta.pageCount.value) then e.(meta := Restored(e.meta))
    else e
  }

  method Preflight(e: Envelope) returns (ok: bool)
    requires e.rowCount >= 0
    ensures ok <==> Admissible(e)
  {
    var m := e.meta;
    if m.pageCount.None? {
      if !m.status.Unresolved? || m.covered != [] || m.uncovered != [] {
        return false;
      }
    } else {
      var pages := PageInventory(m);
      if pages.None? {
        return false;
      }
      var count := m.pageCount.value;
      if (m.status.Resolved? || m.status.NoTransactions?) && (|m.covered| != count || m.uncovered != []) {
        return false;
      }
      if m.status.Unresolved? && Marked(m) && (m.covered != [] || |m.uncovered| != count) {
        return false;
      }
    }
    if Candidate(m) {
      if m.pageCount.None? {
        return false;
      }
      var _, malformed := PageEvidence(m.reasons);
      if malformed {
        return false;
      }
    }
    return !Candidate(m) || e.rowCount == 0;
  }

  /** One envelope of the second pass. */
  method Reclassified(e: Envelope) returns (r: Envelope)
    requires Admissible(e)
    ensures r == Reconciled(e)
  {
    var m := e.meta;
    if !Candidate(m) {
      return e;
    }
    var count := m.pageCount.value;
    var all := IsAllNothing(m.reasons, count);
    if m.status.NoTransactions? {
      if all {
        return e;
      }
      m := m.(status := Unresolved);
      m := m.(uncovered := UpTo(count), covered := []);
      if !Marked(e.meta) {
        m := m.(reasons := m.reasons + [Marker]);
      }
      return e.(meta := m);
    }
    if all {
      m := m.(status := NoTransactions, uncovered := [], covered := UpTo(count));
      m := m.(reasons := Unmarked(m.reasons));
      return e.(meta := m);
    }
    return e;
  }

  // ---- what a run keeps ---------------------------------------------------------------------------------

  lemma {:induction false} UnmarkedExact(reasons: seq<Reason>, n: int)
    ensures Marker !in Unmarked(reasons)
    ensures ReadingsOf(Unmarked(reasons), n) == ReadingsOf(reasons, n)
    ensures Malformed !in reasons ==> Malformed !in Unmarked(reasons)
  {
    if reasons != [] {
      var last := |reasons| - 1;
      UnmarkedExact(reasons[..last], n);
      var before := Unmarked(reasons[..last]);
      assert (before + [reasons[last]])[..|before|] == before;
    }
  }

  lemma MarkerIsNoReading(reasons: seq<Reason>, n: int)
    ensures ReadingsOf(reasons + [Marker], n) == ReadingsOf(reasons, n)
  {
    assert (reasons + [Marker])[..|reasons|] == reasons;
  }

  /** A run never changes the evidence it judges by. */
  lemma EvidenceKept(e: Envelope, n: int)
    requires Admissible(e)
    ensures ReadingsOf(Reconciled(e).meta.reasons, n) == ReadingsOf(e.meta.reasons, n)
  {
    UnmarkedExact(e.meta.reasons, n);
    MarkerIsNoReading(e.meta.reasons, n);
  }

  lemma EvidenceKeptAll(e: Envelope)
    requires Admissible(e) && e.meta.pageCount.Some?
    ensures AllNothing(Reconciled(e).meta.reasons, e.meta.pageCount.value)
       <==> AllNothing(e.meta.reasons, e.meta.pageCount.value)
  {
    forall n
      ensures ReadingsOf(Reconciled(e).meta.reasons, n) == ReadingsOf(e.meta.reasons, n)
    {
      EvidenceKept(e, n);
    }
  }

  /** The row proof is untouched and the pages stay partitioned. */
  lemma ProofAndPagesKept(e: Envelope)
    requires Admissible(e)
    ensures SameProof(Reconciled(e), e) && Reconciled(e).meta.pageCount == e.meta.pageCount
    ensures e.meta.pageCount.Some? ==>
      Partition(Reconciled(e).meta.covered, Reconciled(e).meta.uncovered, e.meta.pageCount.value)
  {
    if e.meta.pageCount.Some? {
      UpToPartition(e.meta.pageCount.value);
    }
  }

  /** A second run never fails its own preflight. */
  lemma StaysAdmissible(e: Envelope)
    requires Admissible(e)
    ensures Admissible(Reconciled(e))
  {
    ProofAndPagesKept(e);
    UnmarkedExact(e.meta.reasons, 0);
  }

  /** A second run changes nothing. */
  lemma ReconcilingIsIdempotent(e: Envelope)
    requires Admissible(e)
    ensures Admissible(Reconciled(e)) && Reconciled(Reconciled(e)) == Reconciled(e)
  {
    StaysAdmissible(e);
    if e.meta.pageCount.Some? {
      EvidenceKeptAll(e);
    }
  }

  /** After a run a document claims no transactions exactly when it was a candidate and each of
      its pages has exactly one reading, that it reports nothing. */
  lemma ClaimsHaveEvidence(e: Envelope)
    requires Admissible(e)
    ensures Reconciled(e).meta.status.NoTransactions?
       <==> Candidate(e.meta) && AllNothing(e.meta.reasons, e.meta.pageCount.value)
    ensures Reconciled(e).meta.status.NoTransactions? ==>
      AllNothing(Reconciled(e).meta.reasons, e.meta.pageCount.value) && Reconciled(e).rowCount == 0
  {
    if e.meta.pageCount.Some? {
      EvidenceKeptAll(e);
    }
  }

  // ---- what counts as evidence, read off the reasons -------------------------------------------------

  predicate IsPage(r: Reason, n: int) {
    r.Page? && r.n == n
  }

  predicate HasPage(reasons: seq<Reason>, n: int) {
    exists i :: 0 <= i < |reasons| && IsPage(reasons[i], n)
  }

  /** Every reading reports nothing on a page of the document, and each page has one and only one. */
  ghost predicate StandsOn(reasons: seq<Reason>, count: int) {
    && (forall i :: 0 <= i < |reasons| && reasons[i].Page? ==> 1 <= reasons[i].n <= count && reasons[i].nothing)
    && (forall i, j :: 0 <= i < j < |reasons| && reasons[i].Page? && reasons[j].Page? ==> reasons[i].n != reasons[j].n)
    && (forall n :: 1 <= n <= count ==> HasPage(reasons, n))
  }

  /** The readings of a page, by the places of its reasons. */
  ghost function PagePlaces(reasons: seq<Reason>, n: int): set<nat> {
    set i: nat | i < |reasons| && IsPage(reasons[i], n)
  }

  lemma {:induction false} ReadingsArePlaces(reasons: seq<Reason>, n: int)
    ensures |ReadingsOf(reasons, n)| == |PagePlaces(reasons, n)|
    ensures forall i :: 0 <= i < |reasons| && IsPage(reasons[i], n) ==> reasons[i].nothing in ReadingsOf(reasons, n)
  {
    if reasons == [] {
      assert PagePlaces(reasons, n) == {};
    } else {
      var last := |reasons| - 1;
      ReadingsArePlaces(reasons[..last], n);
      assert PagePlaces(reasons, n) == PagePlaces(reasons[..last], n) + if IsPage(reasons[last], n) then {last} else {};
      forall i | 0 <= i < |reasons| && IsPage(reasons[i], n)
        ensures reasons[i].nothing in ReadingsOf(reasons, n)
      {
        if i < last {
          assert reasons[..last][i] == reasons[i];
        }
      }
    }
  }

  lemma OneReading(reasons: seq<Reason>, count: int, i: nat)
    requires StandsOn(reasons, count) && i < |reasons| && reasons[i].Page?
    ensures ReadingsOf(reasons, reasons[i].n) == [true]
  {
    var n := reasons[i].n;
    ReadingsArePlaces(reasons, n);
    forall j: nat
      ensures j in PagePlaces(reasons, n) <==> j == i
    {
    }
    assert PagePlaces(reasons, n) == {i};
  }

  lemma StandsMeansAll(reasons: seq<Reason>, count: int)
    requires StandsOn(reasons, count)
    ensures AllNothing(reasons, count)
  {
    forall n
      ensures 1 <= n <= count ==> ReadingsOf(reasons, n) == [true]
      ensures ReadingsOf(reasons, n) != [] ==> 1 <= n <= count
    {
      ReadingsArePlaces(reasons, n);
      if HasPage(reasons, n) {
        var i :| 0 <= i < |reasons| && IsPage(reasons[i], n);
        OneReading(reasons, count, i);
      } else {
        assert PagePlaces(reasons, n) == {};
      }
    }
  }

  lemma AllMeansStands(reasons: seq<Reason>, count: int)
    requires AllNothing(reasons, count)
    ensures StandsOn(reasons, count)
  {
    forall i: nat | i < |reasons| && reasons[i].Page?
      ensures 1 <= reasons[i].n <= count && reasons[i].nothing
      ensures PagePlaces(reasons, reasons[i].n) == {i}
    {
      var n := reasons[i].n;
      ReadingsArePlaces(reasons, n);
      assert i in PagePlaces(reasons, n);
      assert ReadingsOf(reasons, n) == [true];
      SubsetOfSameSize({i}, PagePlaces(reasons, n));
    }
    forall i, j | 0 <= i < j < |reasons| && reasons[i].Page? && reasons[j].Page?
      ensures reasons[i].n != reasons[j].n
    {
      assert PagePlaces(reasons, reasons[i].n) == {i};
      assert j in PagePlaces(reasons, reasons[j].n);
    }
    forall n | 1 <= n <= count
      ensures HasPage(reasons, n)
    {
      ReadingsArePlaces(reasons, n);
      assert PagePlaces(reasons, n) != {};
      var i :| i in PagePlaces(reasons, n);
      assert IsPage(reasons[i], n);
    }
  }

  /** After a run a document claims no transactions exactly when it was a claim, or one demoted earlier, and its
      reasons hold one reading of each page, that it reports nothing, and no other reading. */
  lemma ClaimStandsExactly(e: Envelope)
    requires Admissible(e)
    ensures Reconciled(e).meta.status.NoTransactions?
       <==> (e.meta.status.NoTransactions? || (e.meta.status.Unresolved? && Marker in e.meta.reasons))
            && e.meta.pageCount.Some? && StandsOn(e.meta.reasons, e.meta.pageCount.value)
  {
    if e.meta.pageCount.Some? {
      if AllNothing(e.meta.reasons, e.meta.pageCount.value) {
        AllMeansStands(e.meta.reasons, e.meta.pageCount.value);
      }
      if StandsOn(e.meta.reasons, e.meta.pageCount.value) {
        StandsMeansAll(e.meta.reasons, e.meta.pageCount.value);
      }
    }
  }

  // ---- what else a run leaves and changes ------------------------------------------------------------

  /** The reasons besides the marker, in order. */
  function Others(reasons: seq<Reason>): seq<Reason> {
    if reasons == [] then []
    else if reasons[0] == Marker then Others(reasons[1..])
    else [reasons[0]] + Others(reasons[1..])
  }

  lemma {:induction false} OthersSnoc(reasons: seq<Reason>, r: Reason)
    ensures Others(reasons + [r]) == Others(reasons) + if r == Marker then [] else [r]
  {
    if reasons == [] {
      assert [] + [r] == [r];
      assert Others([r]) == if r == Marker then [] else [r] + Others([r][1..]);
    } else {
      assert (reasons + [r])[1..] == reasons[1..] + [r];
      OthersSnoc(reasons[1..], r);
    }
  }

  lemma {:induction false} UnmarkedIsOthers(reasons: seq<Reason>)
    ensures Unmarked(reasons) == Others(reasons)
    ensures Others(Unmarked(reasons)) == Others(reasons)
  {
    if reasons != [] {
      var last := |reasons| - 1;
      UnmarkedIsOthers(reasons[..last]);
      assert reasons == reasons[..last] + [reasons[last]];
      OthersSnoc(reasons[..last], reasons[last]);
      OthersSnoc(Unmarked(reasons[..last]), reasons[last]);
    }
  }

  /** A run rewrites status, pages and marker alone. A demoted claim is marked, so that it can be restored, and covers
      no page; a restored one is unmarked and covers all of them; every other reason stays, in order. */
  lemma RewrittenExactly(e: Envelope)
    requires Admissible(e)
    ensures var was, now := e.meta, Reconciled(e).meta;
            && Others(now.reasons) == Others(was.reasons)
            && now.year == was.year && now.canary == was.canary && now.note == was.note && now.pageCount == was.pageCount
            && (now.status == was.status ==> now == was)
            && (now.status != was.status ==>
                  if now.status.Unresolved?
                  then was.status.NoTransactions? && now.covered == []
                       && now.reasons == (if Marker in was.reasons then was.reasons else was.reasons + [Marker])
                       && now.uncovered == seq(was.pageCount.value, i => i + 1)
                  else now.status.NoTransactions? && was.status.Unresolved? && Marker in was.reasons
                       && Marker !in now.reasons && now.uncovered == [] && now.covered == seq(was.pageCount.value, i => i + 1))
  {
    UnmarkedIsOthers(e.meta.reasons);
    UnmarkedExact(e.meta.reasons, 0);
    OthersSnoc(e.meta.reasons, Marker);
  }

  /** The pages are consistent: without a count none is listed, and only for an unresolved document; with one,
      each page is listed once, covered under a claim or a resolved reading, uncovered after a demotion. */
  ghost predicate PagesFit(m: Meta) {
    if m.pageCount.None? then m.status.Unresolved? && |m.covered| == 0 && |m.uncovered| == 0
    else
      && m.pageCount.value > 0
      && |m.covered| + |m.uncovered| == m.pageCount.value
      && (forall n :: n in m.covered + m.uncovered <==> 1 <= n <= m.pageCount.value)
      && (m.status.Unresolved? || |m.uncovered| == 0)
      && (m.status.Unresolved? && Marker in m.reasons ==> |m.covered| == 0)
  }

  /** The preflight lets an envelope through exactly when its pages are consistent and, for a claim or one demoted
      earlier, they are counted, there are no rows and every reading can be read. */
  lemma AdmissibleExactly(e: Envelope)
    ensures Admissible(e)
       <==> PagesFit(e.meta)
            && (e.meta.status.NoTransactions? || (e.meta.status.Unresolved? && Marker in e.meta.reasons) ==>
                  e.meta.pageCount.Some? && e.rowCount == 0 && Malformed !in e.meta.reasons)
  {
    if e.meta.pageCount.Some? && e.meta.pageCount.value > 0 {
      PartitionExactly(e.meta.covered, e.meta.uncovered, e.meta.pageCount.value);
    }
  }

  lemma PartitionExactly(covered: seq<int>, uncovered: seq<int>, count: nat)
    ensures Partition(covered, uncovered, count)
       <==> |covered| + |uncovered| == count && forall n :: n in covered + uncovered <==> 1 <= n <= count
  {
    var all := covered + uncovered;
    if Partition(covered, uncovered, count) {
      PartitionCovers(covered, uncovered, count);
      forall n
        ensures n in all <==> 1 <= n <= count
      {
        assert n in all <==> n in Members(all);
      }
    }
    if |all| == count && forall n :: n in all <==> 1 <= n <= count {
      AllPagesOnce(all, count);
    }
  }

  /** As many places as pages, and every page at some place: each page is there once and nothing else is. */
  lemma AllPagesOnce(all: seq<int>, count: nat)
    requires |all| == count && forall n :: 1 <= n <= count ==> n in all
    ensures PagesOnce(all, count)
  {
    var pages := OneTo(count);
    forall n | n in pages
      ensures n in Members(all)
    {
      assert 1 <= n <= count && n in all;
      var i :| 0 <= i < |all| && all[i] == n;
    }
    MembersAtMost(all);
    SubsetOfSameSize(pages, Members(all));
    forall i | 0 <= i < |all|
      ensures 1 <= all[i] <= count
    {
      assert all[i] in Members(all);
    }
    forall i, j | 0 <= i < j < |all|
      ensures all[i] != all[j]
    {
      if all[i] == all[j] {
        RepeatIsSmaller(all, i, j);
      }
    }
  }

  lemma {:induction false} MembersAtMost(s: seq<int>)
    ensures |Members(s)| <= |s|
    ensures forall t: set<int> :: t <= Members(s) ==> |t| <= |Members(s)|
  {
    if s == [] {
      assert Members(s) == {};
    } else {
      MembersAtMost(s[..|s| - 1]);
      assert Members(s) == Members(s[..|s| - 1]) + {s[|s| - 1]};
    }
    forall t: set<int> | t <= Members(s)
      ensures |t| <= |Members(s)|
    {
      assert Members(s) == t + (Members(s) - t);
    }
  }

  lemma RepeatIsSmaller(s: seq<int>, i: nat, j: nat)
    requires i < j < |s| && s[i] == s[j]
    ensures |Members(s)| < |s|
  {
    var rest := s[..j] + s[j + 1..];
    forall n
      ensures n in Members(s) <==> n in Members(rest)
    {
      if k :| 0 <= k < |s| && s[k] == n {
        var m := if k == j then i else k;
        assert s[m] == n && rest[if m < j then m else m - 1] == n;
      }
      if k :| 0 <= k < |rest| && rest[k] == n {
        assert s[if k < j then k else k + 1] == n;
      }
    }
    assert Members(s) == Members(rest);
    MembersAtMost(rest);
  }

  // ---- a run over the root ---------------------------------------------------------------------------------

  ghost predicate Fit(files: Files, d: DocId) {
    DocFile(d) in files && ActiveIsValid(files, d) && Admissible(files[DocFile(d)].env)
  }

  ghost predicate AllFit(files: Files, docs: seq<DocId>) {
    forall i :: 0 <= i < |docs| ==> Fit(files, docs[i])
  }

  /** The document's envelope is as it was, or as a run would leave it. */
  ghost predicate Underway(files: Files, later: Files, d: DocId) {
    Fit(files, d) ==>
      DocFile(d) in later
      && (later[DocFile(d)] == files[DocFile(d)] || later[DocFile(d)] == Env(Reconciled(files[DocFile(d)].env)))
  }

  ghost predicate Finished(files: Files, later: Files, d: DocId) {
    Fit(files, d) ==> DocFile(d) in later && later[DocFile(d)] == Env(Reconciled(files[DocFile(d)].env))
  }

  ghost predicate Progress(files: Files, later: Files, docs: seq<DocId>, k: nat) {
    && (Sound(files) ==> Sound(later)) && Evolves(files, later) && k <= |docs|
    && (forall i :: 0 <= i < k ==> Finished(files, later, docs[i]))
    && (forall i :: k <= i < |docs| ==> DocFile(docs[i]) in files ==>
          DocFile(docs[i]) in later && later[DocFile(docs[i])] == files[DocFile(docs[i])])
  }

  ghost predicate Distinct(docs: seq<DocId>) {
    forall i, j :: 0 <= i < j < |docs| ==> docs[i] != docs[j]
  }

  /** The archive name of the active envelope is taken by other bytes, which only a damaged root
      shows. */
  predicate Blocked(files: Files, d: DocId) {
    DocFile(d) in files && Conflicts(files, Attempt(d, files[DocFile(d)]), files[DocFile(d)])
  }

  lemma SoundNotBlocked(files: Files, d: DocId)
    requires Sound(files)
    ensures !Blocked(files, d)
  {
  }

  /** An unblocked replacement changes the one envelope and archives it, on any root. */
  lemma ReplacementEvolves(files: Files, d: DocId, e: Envelope, budget: nat)
    requires DocFile(d) in files && ActiveIsValid(files, d) && SameProof(files[DocFile(d)].env, e)
    ensures var plan := ReplacePlan(files, d, e);
            && Evolves(files, Cut(files, plan, budget))
            && (Sound(files) ==> Sound(Cut(files, plan, budget)))
            && (if Blocked(files, d) then plan.ops == [] && !plan.ok else plan.ok && |plan.ops| == 2)
  {
    var plan := ReplacePlan(files, d, e);
    if Sound(files) {
      ReplacementIsSafe(files, d, e, budget);
    }
    if Blocked(files, d) {
      NoOps(files, plan, budget);
    } else {
      CutSteps(files, plan, budget);
    }
  }

  lemma SameActiveValid(start: Files, now: Files, d: DocId)
    requires Evolves(start, now) && DocFile(d) in start && ActiveIsValid(start, d)
    requires DocFile(d) in now && now[DocFile(d)] == start[DocFile(d)]
    ensures ActiveIsValid(now, d)
  {
    ValidStays(start, now, start[DocFile(d)].env);
  }

  lemma OneReplaced(start: Files, now: Files, docs: seq<DocId>, k: nat, e: Envelope, budget: nat)
    requires AllFit(start, docs) && Distinct(docs) && k < |docs|
    requires Progress(start, now, docs, k)
    requires e == Reconciled(start[DocFile(docs[k])].env)
    ensures var plan := ReplacePlan(now, docs[k], e);
            var next := Cut(now, plan, budget);
            if Blocked(now, docs[k]) then plan.ops == [] && !plan.ok && next == now
            else plan.ok && |plan.ops| == 2 && Progress(start, next, docs, if budget >= 2 then k + 1 else k)
  {
    var d := docs[k];
    assert Fit(start, d);
    ProofAndPagesKept(start[DocFile(d)].env);
    SameActiveValid(start, now, d);
    ReplacementEvolves(now, d, e, budget);
    var plan := ReplacePlan(now, d, e);
    EvolvesTransitive(start, now, Cut(now, plan, budget));
    if Blocked(now, d) {
      NoOps(now, plan, budget);
    } else {
      OthersUntouched(now, plan, d, e, budget);
      OthersDiffer(docs, k);
    }
  }

  lemma OthersDiffer(docs: seq<DocId>, k: nat)
    requires Distinct(docs) && k < |docs|
    ensures forall i :: 0 <= i < |docs| && i != k ==> docs[i] != docs[k]
  {
    forall i | 0 <= i < |docs| && i != k
      ensures docs[i] != docs[k]
    {
      if i < k {
        assert docs[i] != docs[k];
      } else {
        assert docs[k] != docs[i];
      }
    }
  }

  lemma OthersUntouched(now: Files, plan: Plan, d: DocId, e: Envelope, budget: nat)
    requires DocFile(d) in now && ActiveIsValid(now, d) && plan == ReplacePlan(now, d, e) && |plan.ops| == 2
    ensures var next := Cut(now, plan, budget);
            && (forall x :: x != d ==> (DocFile(x) in next <==> DocFile(x) in now))
            && (forall x :: x != d && DocFile(x) in now ==> next[DocFile(x)] == now[DocFile(x)])
            && DocFile(d) in next && next[DocFile(d)] == if budget >= 2 then Env(e) else now[DocFile(d)]
  {
    CutSteps(now, plan, budget);
  }

  method PreflightAll(root: Root, docs: seq<DocId>) returns (fit: bool)
    requires forall i :: 0 <= i < |docs| ==> DocFile(docs[i]) in root.files
    ensures fit <==> AllFit(root.files, docs)
  {
    for i := 0 to |docs|
      invariant forall k :: 0 <= k < i ==> Fit(root.files, docs[k])
    {
      var valid := root.ValidateActive(docs[i]);
      if !valid {
        return false;
      }
      var ok := Preflight(root.files[DocFile(docs[i])].env);
      if !ok {
        return false;
      }
    }
    return true;
  }

  /** The whole reconciliation: every envelope is checked before any is rewritten, then each is
      rewritten in turn. Whatever happens, every envelope is as it was or as the run leaves it. A
      sound root is refused exactly when some envelope fails the checks, and then nothing changes; on
      a damaged one an occupied archive name also stops the run. */
  method ReclassifyNoTxs(root: Root, docs: seq<DocId>) returns (outcome: Outcome)
    requires Distinct(docs) && forall i :: 0 <= i < |docs| ==> DocFile(docs[i]) in root.files
    modifies root
    ensures Evolves(old(root.files), root.files) && (Sound(old(root.files)) ==> Sound(root.files))
    ensures !AllFit(old(root.files), docs) ==> outcome.Refused? && root.files == old(root.files)
    ensures AllFit(old(root.files), docs) && outcome.Refused? ==>
      !Sound(old(root.files)) && exists i :: 0 <= i < |docs| && Blocked(root.files, docs[i])
    ensures forall i :: 0 <= i < |docs| ==> Underway(old(root.files), root.files, docs[i])
    ensures outcome.Done? ==> forall i :: 0 <= i < |docs| ==> Finished(old(root.files), root.files, docs[i])
  {
    ghost var start := root.files;
    var fit := PreflightAll(root, docs);
    if !fit {
      return Refused;
    }
    for i := 0 to |docs|
      invariant Progress(start, root.files, docs, i)
    {
      outcome := RewriteOne(root, docs, i, start);
      HalfwayUnderway(start, root.files, docs, if outcome.Done? then i + 1 else i);
      if !outcome.Done? {
        return;
      }
    }
    HalfwayUnderway(start, root.files, docs, |docs|);
    return Done;
  }

  /** The second pass over one document. */
  method RewriteOne(root: Root, docs: seq<DocId>, i: nat, ghost start: Files) returns (outcome: Outcome)
    requires i < |docs| && AllFit(start, docs) && Distinct(docs) && Progress(start, root.files, docs, i)
    modifies root
    ensures Progress(start, root.files, docs, if outcome.Done? then i + 1 else i)
    ensures outcome.Refused? ==> !Sound(start) && Blocked(root.files, docs[i])
  {
    NextIsUntouched(start, root.files, docs, i);
    var d := docs[i];
    var e := root.files[DocFile(d)].env;
    var r := Reclassified(e);
    if r == e {
      NothingToRewrite(start, root.files, docs, i);
      return Done;
    }
    OneReplaced(start, root.files, docs, i, r, root.budget);
    if Sound(start) {
      SoundNotBlocked(root.files, d);
    }
    outcome := root.ReplaceEnvelope(d, r);
  }

  lemma NextIsUntouched(start: Files, now: Files, docs: seq<DocId>, i: nat)
    requires i < |docs| && AllFit(start, docs) && Progress(start, now, docs, i)
    ensures Fit(start, docs[i]) && DocFile(docs[i]) in now && now[DocFile(docs[i])] == start[DocFile(docs[i])]
  {
    assert Fit(start, docs[i]);
  }

  lemma NothingToRewrite(start: Files, now: Files, docs: seq<DocId>, i: nat)
    requires i < |docs| && Progress(start, now, docs, i) && Fit(start, docs[i])
    requires Reconciled(start[DocFile(docs[i])].env) == start[DocFile(docs[i])].env
    ensures Progress(start, now, docs, i + 1)
  {
  }

  lemma HalfwayUnderway(start: Files, now: Files, docs: seq<DocId>, k: nat)
    requires Progress(start, now, docs, k)
    ensures forall i :: 0 <= i < |docs| ==> Underway(start, now, docs[i])
  {
  }

  /** An interrupted run passes its own preflight when repeated, and ends exactly where an
      uninterrupted run would have. */
  lemma InterruptedRunsConverge(start: Files, now: Files, docs: seq<DocId>, i: nat)
    requires Evolves(start, now) && AllFit(start, docs) && i < |docs|
    requires forall k :: 0 <= k < |docs| ==> Underway(start, now, docs[k])
    ensures Fit(now, docs[i])
    ensures Reconciled(now[DocFile(docs[i])].env) == Reconciled(start[DocFile(docs[i])].env)
  {
    var d := docs[i];
    assert Fit(start, d) && Underway(start, now, d);
    ReconcilingIsIdempotent(start[DocFile(d)].env);
    ProofAndPagesKept(start[DocFile(d)].env);
    ValidStays(start, now, start[DocFile(d)].env);
    SameProofValid(now, start[DocFile(d)].env, now[DocFile(d)].env);
  }

  lemma SameProofValid(files: Files, e: Envelope, f: Envelope)
    requires ValidPair(files, e) && SameProof(f, e)
    ensures ValidPair(files, f)
  {
    assert forall r :: RowOwned(r, f) <==> RowOwned(r, e);
  }
}
