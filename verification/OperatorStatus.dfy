/** The operator's own status: rolling up all CredentialsRequests into the ClusterOperator, and writing it. */
module OperatorStatus {
  import opened Wrappers
  import opened Conditions
  import opened Naming
  import opened Store
  import opened Runs
  import opened OperatorConditions

  // ---- Counting ----

  const FAILURE_TYPES := [
    InsufficientCloudCreds, MissingTargetNamespace, CredentialsProvisionFailure, CredentialsDeprovisionFailure]

  /** One of the four failure conditions is True. */
  predicate IsFailing(r: Request) {
    exists i | 0 <= i < |FAILURE_TYPES| :: IsTrue(r.status.conditions, FAILURE_TYPES[i])
  }

  predicate IsUnprovisioned(r: Request) {
    !r.status.provisioned
  }

  function Count(reqs: seq<Request>, p: Request -> bool): nat {
    if reqs == [] then 0 else Count(reqs[..|reqs| - 1], p) + if p(reqs[|reqs| - 1]) then 1 else 0
  }

  ghost function Positions(reqs: seq<Request>, p: Request -> bool): set<int> {
    set i | 0 <= i < |reqs| && p(reqs[i])
  }

  lemma PositionsSnoc(reqs: seq<Request>, p: Request -> bool)
    requires reqs != []
    ensures var last := |reqs| - 1;
      Positions(reqs, p) == Positions(reqs[..last], p) + (if p(reqs[last]) then {last} else {})
  {
    var init := reqs[..|reqs| - 1];
    assert forall i :: 0 <= i < |init| ==> init[i] == reqs[i];
  }

  /** The count is the number of positions that satisfy p. */
  lemma {:induction false} CountIsExact(reqs: seq<Request>, p: Request -> bool)
    ensures Count(reqs, p) == |Positions(reqs, p)| <= |reqs|
    ensures Count(reqs, p) > 0 <==> exists i :: 0 <= i < |reqs| && p(reqs[i])
  {
    if reqs != [] {
      CountIsExact(reqs[..|reqs| - 1], p);
      PositionsSnoc(reqs, p);
    }
    if Positions(reqs, p) != {} {
      var i :| i in Positions(reqs, p);
      assert p(reqs[i]);
    } else {
      assert forall i :: 0 <= i < |reqs| && p(reqs[i]) ==> i in Positions(reqs, p);
    }
  }

  lemma {:induction false} CountRemove(reqs: seq<Request>, i: nat, p: Request -> bool)
    requires i < |reqs|
    ensures Count(reqs, p) == Count(reqs[..i] + reqs[i + 1..], p) + if p(reqs[i]) then 1 else 0
  {
    var last, init := |reqs| - 1, reqs[..|reqs| - 1];
    if i == last {
      assert reqs[..i] + reqs[i + 1..] == init;
    } else {
      var less := reqs[..i] + reqs[i + 1..];
      CountRemove(init, i, p);
      assert less[..|less| - 1] == init[..i] + init[i + 1..];
      assert less[|less| - 1] == reqs[last];
    }
  }

  /** Counting does not depend on the order. */
  lemma {:induction false} CountPermuted(a: seq<Request>, b: seq<Request>, p: Request -> bool)
    requires multiset(a) == multiset(b)
    ensures |a| == |b| && Count(a, p) == Count(b, p)
  {
    assert |multiset(a)| == |multiset(b)|;
    if a != [] {
      var x, init := a[|a| - 1], a[..|a| - 1];
      assert a == init + [x];
      assert x in multiset(b);
      var i :| 0 <= i < |b| && b[i] == x;
      var less := b[..i] + b[i + 1..];
      assert b == b[..i] + [x] + b[i + 1..];
      assert multiset(less) == multiset(b) - multiset{x};
      CountRemove(b, i, p);
      CountPermuted(init, less, p);
    }
  }

  // ---- The three conditions ----

  function Decimal(n: nat): string {
    if n < 10 then ["0123456789"[n]] else Decimal(n / 10) + ["0123456789"[n % 10]]
  }

  /** A number, a blank and the rest of a text. */
  function Phrase(n: nat, rest: string): string {
    Decimal(n) + " " + rest
  }

  function FailingCondition(failing: nat, total: nat): OperatorCondition {
    if failing > 0 then
      OperatorCondition(Failing, StatusTrue, "CredentialsFailing",
                        Phrase(failing, "of " + Phrase(total, "credentials requests are failing to sync.")), 0)
    else
      OperatorCondition(Failing, StatusFalse, "NoCredentialsFailing", "No credentials requests reporting errors.", 0)
  }

  function ProgressingCondition(unprovisioned: nat, failing: nat, total: nat): OperatorCondition
    requires unprovisioned <= total
  {
    if unprovisioned > 0 || failing > 0 then
      var errors := Phrase(failing, "reporting errors.");
      OperatorCondition(Progressing, StatusTrue, "Reconciling",
                        Phrase(total - unprovisioned,
                               "of " + Phrase(total, "credentials requests provisioned, " + errors)), 0)
    else
      OperatorCondition(Progressing, StatusFalse, "ReconcilingComplete",
                        Phrase(total,
                               "of " + Phrase(total, "credentials requests provisioned and reconciled.")), 0)
  }

  lemma {:induction false} DecimalDigits(n: nat)
    ensures Decimal(n) != "" && ' ' !in Decimal(n)
    ensures n >= 10 ==> |Decimal(n)| > 1
  {
    if n >= 10 {
      DecimalDigits(n / 10);
    }
  }

  /** The number that a sequence of digits stands for. */
  function ReadDigits(s: string): int {
    if s == "" then 0 else 10 * ReadDigits(s[..|s| - 1]) + (s[|s| - 1] as int - '0' as int)
  }

  /** What is written is what is meant. */
  lemma {:induction false} DecimalReads(n: nat)
    ensures ReadDigits(Decimal(n)) == n
  {
    var digits := "0123456789";
    assert forall i :: 0 <= i < 10 ==> digits[i] as int == '0' as int + i;
    var s := Decimal(n);
    if n < 10 {
      assert s[..0] == "";
    } else {
      DecimalReads(n / 10);
      assert s[..|s| - 1] == Decimal(n / 10);
    }
  }

  /** The first blank comes no earlier than after the first word. */
  lemma BlankAfterWord(a: string, b: string, x: string, y: string)
    requires a + " " + x == b + " " + y && ' ' !in b
    ensures |b| <= |a|
  {
    var s := b + " " + y;
    assert forall k :: 0 <= k < |b| ==> s[k] == b[k];
    assert (a + " " + x)[|a|] == ' ';
  }

  /** Two phrases that are equal agree on both parts. */
  lemma PhraseTells(m: nat, n: nat, x: string, y: string)
    requires Phrase(m, x) == Phrase(n, y)
    ensures m == n && x == y
  {
    var a, b := Decimal(m), Decimal(n);
    DecimalDigits(m);
    DecimalDigits(n);
    BlankAfterWord(a, b, x, y);
    BlankAfterWord(b, a, y, x);
    var s, t := Phrase(m, x), Phrase(n, y);
    assert s[..|a|] == a && t[..|b|] == b;
    assert s[|a| + 1..] == x && t[|b| + 1..] == y;
    DecimalReads(m);
    DecimalReads(n);
  }

  lemma AfterPrefix(p: string, x: string, y: string)
    requires p + x == p + y
    ensures x == y
  {
    assert (p + x)[|p|..] == x && (p + y)[|p|..] == y;
  }

  /** The Failing message tells how many requests of how many fail. */
  lemma FailingMessageTells(f: nat, total: nat, g: nat, other: nat)
    requires f > 0 && g > 0 && FailingCondition(f, total).message == FailingCondition(g, other).message
    ensures f == g && total == other
  {
    var tail := "credentials requests are failing to sync.";
    PhraseTells(f, g, "of " + Phrase(total, tail), "of " + Phrase(other, tail));
    AfterPrefix("of ", Phrase(total, tail), Phrase(other, tail));
    PhraseTells(total, other, tail, tail);
  }

  /** The Progressing message tells how many requests of how many are provisioned and how many fail. */
  lemma ProgressingMessageTells(u: nat, f: nat, total: nat, v: nat, g: nat, other: nat)
    requires u <= total && v <= other && u + f > 0 && v + g > 0
    requires ProgressingCondition(u, f, total).message == ProgressingCondition(v, g, other).message
    ensures u == v && f == g && total == other
  {
    var errors := "reporting errors.";
    var x := "credentials requests provisioned, " + Phrase(f, errors);
    var y := "credentials requests provisioned, " + Phrase(g, errors);
    PhraseTells(total - u, other - v, "of " + Phrase(total, x), "of " + Phrase(other, y));
    AfterPrefix("of ", Phrase(total, x), Phrase(other, y));
    PhraseTells(total, other, x, y);
    AfterPrefix("credentials requests provisioned, ", Phrase(f, errors), Phrase(g, errors));
    PhraseTells(f, g, errors, errors);
  }

  const AVAILABLE := OperatorCondition(Available, StatusTrue, "", "", 0)

  /** The clock values read by one sync. */
  datatype Clock = Clock(failing: nat, progressing: nat, available: nat, forced: nat)

  ghost function WantedFailing(reqs: seq<Request>): OperatorCondition {
    FailingCondition(Count(reqs, IsFailing), |reqs|)
  }

  ghost function WantedProgressing(reqs: seq<Request>): OperatorCondition {
    CountIsExact(reqs, IsUnprovisioned);
    ProgressingCondition(Count(reqs, IsUnprovisioned), Count(reqs, IsFailing), |reqs|)
  }

  ghost function RollUp(cs: seq<OperatorCondition>, reqs: seq<Request>, clock: Clock): seq<OperatorCondition> {
    Put(Put(Put(cs, WantedFailing(reqs).(lastTransition := clock.failing)),
            WantedProgressing(reqs).(lastTransition := clock.progressing)),
        AVAILABLE.(lastTransition := clock.available))
  }

  /** The inner loop of computeStatusConditions. */
  method FoundFailure(r: Request) returns (found: bool)
    ensures found == IsFailing(r)
  {
    found := false;
    for j := 0 to |FAILURE_TYPES|
      invariant !found && forall k :: 0 <= k < j ==> !IsTrue(r.status.conditions, FAILURE_TYPES[k])
    {
      var at := FindCredentialsRequestCondition(r.status.conditions, FAILURE_TYPES[j]);
      if at.Some? && r.status.conditions[at.value].status == StatusTrue {
        found := true;
        assert IsTrue(r.status.conditions, FAILURE_TYPES[j]);
        break;
      }
    }
  }

  /** computeStatusConditions. */
  method ComputeStatusConditions(conditions: seq<OperatorCondition>, reqs: seq<Request>, clock: Clock)
    returns (cs: seq<OperatorCondition>)
    ensures cs == RollUp(conditions, reqs, clock)
  {
    var failing := 0;
    for i := 0 to |reqs|
      invariant failing == Count(reqs[..i], IsFailing)
    {
      var found := FoundFailure(reqs[i]);
      if found {
        failing := failing + 1;
      }
      assert reqs[..i + 1][..i] == reqs[..i];
    }
    assert reqs[..|reqs|] == reqs;
    cs := SetStatusCondition(conditions, FailingCondition(failing, |reqs|), clock.failing);

    var unprovisioned := 0;
    for i := 0 to |reqs|
      invariant unprovisioned == Count(reqs[..i], IsUnprovisioned) <= i
    {
      if !reqs[i].status.provisioned {
        unprovisioned := unprovisioned + 1;
      }
      assert reqs[..i + 1][..i] == reqs[..i];
    }
    cs := SetStatusCondition(cs, ProgressingCondition(unprovisioned, failing, |reqs|), clock.progressing);
    cs := SetStatusCondition(cs, AVAILABLE, clock.available);
  }

  /** The list has exactly one entry of this type, and this is its status. */
  ghost predicate Reports(cs: seq<OperatorCondition>, kind: OperatorConditionType, status: ConditionStatus) {
    UniqueKinds(cs) && exists i :: 0 <= i < |cs| && cs[i].kind == kind && cs[i].status == status
  }

  lemma SameReports(cs: seq<OperatorCondition>, c: OperatorCondition)
    requires UniqueKinds(cs) && HasSame(cs, c)
    ensures forall status :: Reports(cs, c.kind, status) <==> status == c.status
  {
    var i :| 0 <= i < |cs| && Same(cs[i], c);
    assert cs[i].kind == c.kind && cs[i].status == c.status;
  }

  lemma FailingMeans(reqs: seq<Request>)
    ensures WantedFailing(reqs).kind == Failing
    ensures WantedFailing(reqs).status == StatusTrue <==> exists i :: 0 <= i < |reqs| && IsFailing(reqs[i])
    ensures WantedFailing(reqs).status == StatusFalse <==> forall i :: 0 <= i < |reqs| ==> !IsFailing(reqs[i])
  {
    CountIsExact(reqs, IsFailing);
  }

  lemma ProgressingMeans(reqs: seq<Request>)
    ensures WantedProgressing(reqs).kind == Progressing
    ensures WantedProgressing(reqs).status == StatusTrue
            <==> exists i :: 0 <= i < |reqs| && (IsFailing(reqs[i]) || IsUnprovisioned(reqs[i]))
    ensures WantedProgressing(reqs).status == StatusFalse
            <==> forall i :: 0 <= i < |reqs| ==> !IsFailing(reqs[i]) && !IsUnprovisioned(reqs[i])
  {
    CountIsExact(reqs, IsFailing);
    CountIsExact(reqs, IsUnprovisioned);
  }

  /** All three are there with the content they should have. */
  ghost predicate UpToDate(cs: seq<OperatorCondition>, reqs: seq<Request>) {
    HasSame(cs, WantedFailing(reqs)) && HasSame(cs, WantedProgressing(reqs)) && HasSame(cs, AVAILABLE)
  }

  lemma TimeIsIgnored(cs: seq<OperatorCondition>, c: OperatorCondition, t: nat)
    ensures HasSame(cs, c.(lastTransition := t)) <==> HasSame(cs, c)
  {
    var d := c.(lastTransition := t);
    if HasSame(cs, c) {
      var i :| 0 <= i < |cs| && Same(cs[i], c);
      assert Same(cs[i], d);
    }
    if HasSame(cs, d) {
      var i :| 0 <= i < |cs| && Same(cs[i], d);
      assert Same(cs[i], c);
    }
  }

  /** No entry is dropped or moved, and those of other types are as they were. */
  ghost predicate PlacesKept(a: seq<OperatorCondition>, b: seq<OperatorCondition>) {
    && |a| <= |b|
    && forall i :: 0 <= i < |a| ==> b[i].kind == a[i].kind && (a[i].kind.OtherType? ==> b[i] == a[i])
  }

  lemma PutPlaces(cs: seq<OperatorCondition>, c: OperatorCondition)
    requires !c.kind.OtherType?
    ensures PlacesKept(cs, Put(cs, c))
  {
  }

  /** Setting three conditions of different types leaves all three there. */
  lemma ThreePuts(cs: seq<OperatorCondition>, f: OperatorCondition, g: OperatorCondition, a: OperatorCondition)
    requires UniqueKinds(cs) && f.kind != g.kind && g.kind != a.kind && a.kind != f.kind
    ensures var r := Put(Put(Put(cs, f), g), a); UniqueKinds(r) && HasSame(r, f) && HasSame(r, g) && HasSame(r, a)
  {
    var one := Put(cs, f);
    var two := Put(one, g);
    PutFrame(cs, f);
    PutFrame(one, g);
    PutFrame(two, a);
    PutKeepsSame(one, f, g);
    PutKeepsSame(two, f, a);
    PutKeepsSame(two, g, a);
  }

  lemma ThreePlaces(cs: seq<OperatorCondition>, f: OperatorCondition, g: OperatorCondition, a: OperatorCondition)
    requires !f.kind.OtherType? && !g.kind.OtherType? && !a.kind.OtherType?
    ensures PlacesKept(cs, Put(Put(Put(cs, f), g), a))
  {
    PutPlaces(cs, f);
    PutPlaces(Put(cs, f), g);
    PutPlaces(Put(Put(cs, f), g), a);
  }

  lemma RollUpIsUpToDate(cs: seq<OperatorCondition>, reqs: seq<Request>, clock: Clock)
    requires UniqueKinds(cs)
    ensures UniqueKinds(RollUp(cs, reqs, clock)) && UpToDate(RollUp(cs, reqs, clock), reqs)
    ensures PlacesKept(cs, RollUp(cs, reqs, clock))
  {
    var f := WantedFailing(reqs).(lastTransition := clock.failing);
    var g := WantedProgressing(reqs).(lastTransition := clock.progressing);
    var a := AVAILABLE.(lastTransition := clock.available);
    ThreePuts(cs, f, g, a);
    ThreePlaces(cs, f, g, a);
    var r := RollUp(cs, reqs, clock);
    TimeIsIgnored(r, WantedFailing(reqs), clock.failing);
    TimeIsIgnored(r, WantedProgressing(reqs), clock.progressing);
    TimeIsIgnored(r, AVAILABLE, clock.available);
  }

  /** What the three conditions mean: Failing iff some request reports one of the four failures, Progressing iff some
      request is failing or unprovisioned, Available always; entries of other types and their order are kept. */
  lemma RollUpCorrect(cs: seq<OperatorCondition>, reqs: seq<Request>, clock: Clock)
    requires UniqueKinds(cs)
    ensures var r := RollUp(cs, reqs, clock);
      && (Reports(r, Failing, StatusTrue) <==> exists i :: 0 <= i < |reqs| && IsFailing(reqs[i]))
      && (Reports(r, Failing, StatusFalse) <==> forall i :: 0 <= i < |reqs| ==> !IsFailing(reqs[i]))
      && (Reports(r, Progressing, StatusTrue) <==>
            exists i :: 0 <= i < |reqs| && (IsFailing(reqs[i]) || IsUnprovisioned(reqs[i])))
      && (Reports(r, Progressing, StatusFalse) <==>
            forall i :: 0 <= i < |reqs| ==> !IsFailing(reqs[i]) && !IsUnprovisioned(reqs[i]))
      && Reports(r, Available, StatusTrue)
      && UniqueKinds(r) && PlacesKept(cs, r)
  {
    var r := RollUp(cs, reqs, clock);
    RollUpIsUpToDate(cs, reqs, clock);
    SameReports(r, WantedFailing(reqs));
    SameReports(r, WantedProgressing(reqs));
    SameReports(r, AVAILABLE);
    FailingMeans(reqs);
    ProgressingMeans(reqs);
  }

  /** The roll-up does not depend on the order in which the requests are listed. */
  lemma RollUpPermuted(cs: seq<OperatorCondition>, a: seq<Request>, b: seq<Request>, clock: Clock)
    requires multiset(a) == multiset(b)
    ensures RollUp(cs, a, clock) == RollUp(cs, b, clock)
  {
    WantedPermuted(a, b);
  }

  lemma WantedPermuted(a: seq<Request>, b: seq<Request>)
    requires multiset(a) == multiset(b)
    ensures WantedFailing(a) == WantedFailing(b) && WantedProgressing(a) == WantedProgressing(b)
  {
    CountPermuted(a, b, IsFailing);
    CountPermuted(a, b, IsUnprovisioned);
  }

  /** The two failures that do not tell against what was provisioned. */
  predicate IsSetBack(r: Request) {
    IsTrue(r.status.conditions, MissingTargetNamespace) || IsTrue(r.status.conditions, CredentialsDeprovisionFailure)
  }

  predicate IsUnprovisionedOrSetBack(r: Request) {
    IsUnprovisioned(r) || IsSetBack(r)
  }

  /** In every run a stored request that is provisioned fails, if it does, for a missing namespace or in
      deprovisioning only: one that is provisioned with provisioning errors does not occur, and is never counted. */
  lemma ProvisionedWithoutErrors(s0: Cluster, acts: seq<Action>, names: seq<Name>, reqs: seq<Request>)
    requires Run(s0, acts) && |names| == |reqs|
    requires forall i :: 0 <= i < |reqs| ==> Stored(Exec(s0, acts), names[i]) == Some(reqs[i])
    ensures forall i :: 0 <= i < |reqs| && !IsUnprovisioned(reqs[i]) ==> (IsFailing(reqs[i]) <==> IsSetBack(reqs[i]))
    ensures Count(reqs, IsFailing) <= Count(reqs, IsUnprovisionedOrSetBack)
  {
    forall i | 0 <= i < |reqs| && !IsUnprovisioned(reqs[i]) ensures IsFailing(reqs[i]) <==> IsSetBack(reqs[i]) {
      StoredStatus(s0, acts, names[i]);
      FailingCases(reqs[i]);
    }
    forall i | 0 <= i < |reqs| && IsFailing(reqs[i]) ensures IsUnprovisionedOrSetBack(reqs[i]) {
    }
    CountMonotone(reqs, IsFailing, IsUnprovisionedOrSetBack);
  }

  lemma FailingCases(r: Request)
    ensures IsFailing(r) <==>
      || IsTrue(r.status.conditions, InsufficientCloudCreds)
      || IsTrue(r.status.conditions, CredentialsProvisionFailure)
      || IsSetBack(r)
  {
    assert FAILURE_TYPES[0] == InsufficientCloudCreds && FAILURE_TYPES[1] == MissingTargetNamespace;
    assert FAILURE_TYPES[2] == CredentialsProvisionFailure && FAILURE_TYPES[3] == CredentialsDeprovisionFailure;
  }

  lemma {:induction false} CountMonotone(reqs: seq<Request>, p: Request -> bool, q: Request -> bool)
    requires forall i :: 0 <= i < |reqs| && p(reqs[i]) ==> q(reqs[i])
    ensures Count(reqs, p) <= Count(reqs, q)
  {
    if reqs != [] {
      CountMonotone(reqs[..|reqs| - 1], p, q);
    }
  }

  // ---- Writing it ----

  datatype OperandVersion = OperandVersion(name: string, version: string)

  datatype OperatorState = OperatorState(conditions: seq<OperatorCondition>, versions: seq<OperandVersion>)

  /** What getOperatorState finds; without the operator's namespace there are no requests. */
  datatype Listing = Unreadable | NoNamespace | Listed(items: seq<Request>) {
    function Requests(): seq<Request> {
      if Listed? then items else []
    }
  }

  method FindClusterOperatorCondition(cs: seq<OperatorCondition>, kind: OperatorConditionType) returns (r: Option<nat>)
    ensures r.Some? ==>
      r.value < |cs| && cs[r.value].kind == kind && forall j :: 0 <= j < r.value ==> cs[j].kind != kind
    ensures r.None? <==> !HasKind(cs, kind)
  {
    for i := 0 to |cs|
      invariant forall j :: 0 <= j < i ==> cs[j].kind != kind
    {
      if cs[i].kind == kind {
        return Some(i);
      }
    }
    return None;
  }

  /** The first entry of type Progressing gets the time t. */
  ghost predicate Bumped(cs: seq<OperatorCondition>, t: nat, r: seq<OperatorCondition>) {
    exists i :: 0 <= i < |cs| && cs[i].kind == Progressing && r == cs[i := cs[i].(lastTransition := t)]
                && forall j :: 0 <= j < i ==> cs[j].kind != Progressing
  }

  function Versions(release: string): seq<OperandVersion> {
    [OperandVersion("operator", release)]
  }

  /** Different releases report different versions. */
  lemma VersionsTellReleases(a: string, b: string)
    ensures Versions(a) == Versions(b) <==> a == b
    ensures |Versions(a)| == 1 && Versions(a)[0].name == "operator" && Versions(a)[0].version == a
  {
    if Versions(a) == Versions(b) {
      assert Versions(a)[0] == Versions(b)[0];
    }
  }

  /** next is what a sync computes from st; a changed version forces the time of Progressing. */
  ghost predicate Computes(st: OperatorState, reqs: seq<Request>, release: string, clock: Clock, next: OperatorState) {
    && next.versions == Versions(release)
    && if st.versions == Versions(release) then next.conditions == RollUp(st.conditions, reqs, clock)
       else Bumped(RollUp(st.conditions, reqs, clock), clock.forced, next.conditions)
  }

  ghost predicate NeedsWrite(st: OperatorState, next: OperatorState) {
    !Covers(st.conditions, next.conditions) || st.versions != next.versions
  }

  lemma PutKeepsKind(cs: seq<OperatorCondition>, c: OperatorCondition, k: OperatorConditionType)
    requires HasKind(cs, k) || c.kind == k
    ensures HasKind(Put(cs, c), k)
  {
    var r := Put(cs, c);
    if i :| 0 <= i < |cs| && cs[i].kind == k {
      assert r[i].kind == k;
    } else {
      assert r[|cs|].kind == k;
    }
  }

  class ClusterOperator {
    var state: OperatorState
    ghost var writes: nat

    constructor (state: OperatorState)
      ensures this.state == state && writes == 0
    {
      this.state, writes := state, 0;
    }

    /** syncOperatorStatus, for an existing ClusterOperator; accepted says whether the API server takes the write.
        The lookup of Progressing always finds an entry. */
    method SyncOperatorStatus(listing: Listing, release: string, clock: Clock, accepted: bool)
      returns (ok: bool, ghost next: OperatorState)
      modifies this
      ensures listing.Unreadable? ==> !ok && state == old(state) && writes == old(writes)
      ensures !listing.Unreadable? ==>
        && Computes(old(state), listing.Requests(), release, clock, next)
        && ok == (accepted || !NeedsWrite(old(state), next))
        && state == (if NeedsWrite(old(state), next) && accepted then next else old(state))
        && writes == old(writes) + (if NeedsWrite(old(state), next) && accepted then 1 else 0)
    {
      next := state;
      if listing.Unreadable? {
        return false, next;
      }
      var conditions := ComputeStatusConditions(state.conditions, listing.Requests(), clock);
      var versions := Versions(release);
      if state.versions != versions {
        assert HasKind(conditions, Progressing) by {
          var one := Put(state.conditions, WantedFailing(listing.Requests()).(lastTransition := clock.failing));
          var c := WantedProgressing(listing.Requests()).(lastTransition := clock.progressing);
          PutKeepsKind(one, c, Progressing);
          PutKeepsKind(Put(one, c), AVAILABLE.(lastTransition := clock.available), Progressing);
        }
        var progressing := FindClusterOperatorCondition(conditions, Progressing);
        conditions := conditions[progressing.value := conditions[progressing.value].(lastTransition := clock.forced)];
      }
      next := OperatorState(conditions, versions);
      var equal := ConditionsEqual(state.conditions, conditions);
      if !equal || state.versions != versions {
        if !accepted {
          return false, next;
        }
        state, writes := OperatorState(conditions, versions), writes + 1;
      }
      return true, next;
    }
  }

  // ---- Quiescence ----

  /** The state says what it should. */
  ghost predicate Quiescent(st: OperatorState, reqs: seq<Request>, release: string) {
    UniqueKinds(st.conditions) && UpToDate(st.conditions, reqs) && st.versions == Versions(release)
  }

  /** A quiescent state is recomputed as it is. */
  lemma QuiescentStays(st: OperatorState, reqs: seq<Request>, release: string, clock: Clock, next: OperatorState)
    requires Quiescent(st, reqs, release) && Computes(st, reqs, release, clock, next)
    ensures next == st && !NeedsWrite(st, next)
  {
    var cs := st.conditions;
    PutAgain(cs, WantedFailing(reqs), WantedFailing(reqs).(lastTransition := clock.failing));
    PutAgain(cs, WantedProgressing(reqs), WantedProgressing(reqs).(lastTransition := clock.progressing));
    PutAgain(cs, AVAILABLE, AVAILABLE.(lastTransition := clock.available));
    ComparisonIsEquivalence(cs, cs, cs);
  }

  lemma BumpedKeeps(cs: seq<OperatorCondition>, t: nat, r: seq<OperatorCondition>, c: OperatorCondition)
    requires Bumped(cs, t, r) && UniqueKinds(cs) && HasSame(cs, c)
    ensures UniqueKinds(r) && HasSame(r, c)
  {
    var i :| 0 <= i < |cs| && Same(cs[i], c);
    assert Same(r[i], c);
  }

  /** What a sync computes is quiescent. */
  lemma ComputedIsQuiescent(st: OperatorState, reqs: seq<Request>, release: string, clock: Clock, next: OperatorState)
    requires UniqueKinds(st.conditions) && Computes(st, reqs, release, clock, next)
    ensures Quiescent(next, reqs, release)
  {
    RollUpIsUpToDate(st.conditions, reqs, clock);
    if st.versions != Versions(release) {
      var r := RollUp(st.conditions, reqs, clock);
      BumpedKeeps(r, clock.forced, next.conditions, WantedFailing(reqs));
      BumpedKeeps(r, clock.forced, next.conditions, WantedProgressing(reqs));
      BumpedKeeps(r, clock.forced, next.conditions, AVAILABLE);
    }
  }

  lemma CoversKeepsSame(a: seq<OperatorCondition>, b: seq<OperatorCondition>, c: OperatorCondition)
    requires Covers(b, a) && HasSame(b, c)
    ensures HasSame(a, c)
  {
    var i :| 0 <= i < |b| && Same(b[i], c);
    assert HasSame(a, b[i]);
    var j :| 0 <= j < |a| && Same(a[j], b[i]);
    assert Same(a[j], c);
  }

  /** A state that compares as equal to what it should be is quiescent. */
  lemma UnwrittenIsQuiescent(st: OperatorState, reqs: seq<Request>, release: string, next: OperatorState)
    requires UniqueKinds(st.conditions) && Quiescent(next, reqs, release) && !NeedsWrite(st, next)
    ensures Quiescent(st, reqs, release)
  {
    ComparisonIsEquivalence(st.conditions, next.conditions, next.conditions);
    CoversKeepsSame(st.conditions, next.conditions, WantedFailing(reqs));
    CoversKeepsSame(st.conditions, next.conditions, WantedProgressing(reqs));
    CoversKeepsSame(st.conditions, next.conditions, AVAILABLE);
  }

  /** A sync writes exactly when the stored state is not quiescent. */
  lemma WritesUnlessQuiescent(st: OperatorState, reqs: seq<Request>, release: string, clock: Clock, next: OperatorState)
    requires UniqueKinds(st.conditions) && Computes(st, reqs, release, clock, next)
    ensures NeedsWrite(st, next) <==> !Quiescent(st, reqs, release)
  {
    ComputedIsQuiescent(st, reqs, release, clock, next);
    if !NeedsWrite(st, next) {
      UnwrittenIsQuiescent(st, reqs, release, next);
    }
    if Quiescent(st, reqs, release) {
      QuiescentStays(st, reqs, release, clock, next);
    }
  }

  /** One sync as it is seen from outside: what was listed, whether a write would be taken, and the state it leaves. */
  datatype Sync = Sync(reqs: seq<Request>, clock: Clock, accepted: bool, next: OperatorState)

  /** The state before the i-th sync; a refused or unneeded write leaves it. */
  ghost function Before(st: OperatorState, syncs: seq<Sync>): OperatorState {
    if syncs == [] then st
    else
      var prev, x := Before(st, syncs[..|syncs| - 1]), syncs[|syncs| - 1];
      if NeedsWrite(prev, x.next) && x.accepted then x.next else prev
  }

  ghost predicate Happened(st: OperatorState, release: string, syncs: seq<Sync>) {
    forall i :: 0 <= i < |syncs| ==>
      Computes(Before(st, syncs[..i]), syncs[i].reqs, release, syncs[i].clock, syncs[i].next)
  }

  ghost function Written(st: OperatorState, syncs: seq<Sync>): nat {
    if syncs == [] then 0
    else
      var prev, x := syncs[..|syncs| - 1], syncs[|syncs| - 1];
      Written(st, prev) + if NeedsWrite(Before(st, prev), x.next) && x.accepted then 1 else 0
  }

  lemma {:induction false} HappenedPrefix(st: OperatorState, release: string, syncs: seq<Sync>)
    requires syncs != [] && Happened(st, release, syncs)
    ensures Happened(st, release, syncs[..|syncs| - 1])
  {
    var prev := syncs[..|syncs| - 1];
    forall i | 0 <= i < |prev|
      ensures Computes(Before(st, prev[..i]), prev[i].reqs, release, prev[i].clock, prev[i].next)
    {
      assert prev[..i] == syncs[..i] && prev[i] == syncs[i];
      assert Computes(Before(st, syncs[..i]), syncs[i].reqs, release, syncs[i].clock, syncs[i].next);
    }
  }

  lemma OneMoreSync(st: OperatorState, release: string, reqs: seq<Request>, x: Sync)
    requires UniqueKinds(st.conditions) && Computes(st, x.reqs, release, x.clock, x.next)
    requires multiset(x.reqs) == multiset(reqs)
    ensures Quiescent(x.next, reqs, release)
    ensures NeedsWrite(st, x.next) <==> !Quiescent(st, reqs, release)
  {
    WantedPermuted(x.reqs, reqs);
    ComputedIsQuiescent(st, x.reqs, release, x.clock, x.next);
    WritesUnlessQuiescent(st, x.reqs, release, x.clock, x.next);
  }

  /** While the requests, up to their order, and the release stay the same, any number of syncs at any times writes at
      most once, and the state is quiescent from that write on. */
  lemma {:induction false} AtMostOneWrite(st: OperatorState, release: string, reqs: seq<Request>, syncs: seq<Sync>)
    requires UniqueKinds(st.conditions) && Happened(st, release, syncs)
    requires forall i :: 0 <= i < |syncs| ==> multiset(syncs[i].reqs) == multiset(reqs)
    ensures Written(st, syncs) <= 1
    ensures UniqueKinds(Before(st, syncs).conditions)
    ensures Written(st, syncs) == 1 ==> Quiescent(Before(st, syncs), reqs, release)
    ensures Written(st, syncs) == 0 ==> Before(st, syncs) == st
  {
    if syncs != [] {
      var last := |syncs| - 1;
      var prev, x := syncs[..last], syncs[last];
      HappenedPrefix(st, release, syncs);
      AtMostOneWrite(st, release, reqs, prev);
      assert Computes(Before(st, syncs[..last]), x.reqs, release, x.clock, x.next);
      OneMoreSync(Before(st, prev), release, reqs, x);
    }
  }
}
