/** Whole runs: any interleaving of allowed operator steps with environment steps, from a cluster without requests. */
module Runs {
  import opened Wrappers
  import opened Conditions
  import opened Naming
  import opened Store
  import opened Goals
  import opened Protocol

  function Exec(s: Cluster, acts: seq<Action>): Cluster {
    if acts == [] then s else Apply(Exec(s, acts[..|acts| - 1]), acts[|acts| - 1])
  }

  /** Every step is allowed where it is made, and justified by what was made before. */
  ghost predicate Legal(s: Cluster, acts: seq<Action>) {
    acts == [] ||
    var before, last := acts[..|acts| - 1], acts[|acts| - 1];
    Legal(s, before) && Allowed(Exec(s, before), last) && Justified(s, before, last)
  }

  /** The root secret that a reported success goes by was stored at some earlier moment. */
  ghost predicate Justified(s0: Cluster, before: seq<Action>, a: Action) {
    a.Report? && a.success.Some? ==> SeenInRun(s0, before, a.success.value.saw)
  }

  /** The root secret was stored as saw at some moment of the run. */
  ghost predicate SeenInRun(s0: Cluster, acts: seq<Action>, saw: Option<Secret>) {
    saw.Some? ==> exists k :: 0 <= k <= |acts| && RootAt(s0, acts, k) == saw
  }

  ghost function RootAt(s0: Cluster, acts: seq<Action>, k: nat): Option<Secret>
    requires k <= |acts|
  {
    var s := At(s0, acts, k);
    if ROOT_CREDS in s.secrets then Some(s.secrets[ROOT_CREDS]) else None
  }

  /** acts is a run from s0. */
  ghost predicate Run(s0: Cluster, acts: seq<Action>) {
    Initial(s0) && Legal(s0, acts)
  }

  /** The state after the first k steps. */
  function At(s0: Cluster, acts: seq<Action>, k: nat): Cluster
    requires k <= |acts|
  {
    Exec(s0, acts[..k])
  }

  lemma {:induction false} RunInv(s0: Cluster, acts: seq<Action>)
    requires Run(s0, acts)
    ensures Inv(Exec(s0, acts))
  {
    if acts == [] {
      InitialInv(s0);
    } else {
      RunInv(s0, acts[..|acts| - 1]);
      StepKeepsInv(Exec(s0, acts[..|acts| - 1]), acts[|acts| - 1]);
    }
  }

  lemma {:induction false} RunPrefix(s0: Cluster, acts: seq<Action>, k: nat)
    requires Run(s0, acts) && k <= |acts|
    ensures Run(s0, acts[..k])
    ensures k < |acts| ==> Allowed(At(s0, acts, k), acts[k]) && Justified(s0, acts[..k], acts[k])
    ensures k < |acts| ==> At(s0, acts, k + 1) == Apply(At(s0, acts, k), acts[k])
  {
    if k == |acts| {
      assert acts[..k] == acts;
    } else {
      var shorter := acts[..|acts| - 1];
      RunPrefix(s0, shorter, k);
      assert shorter[..k] == acts[..k];
      var upTo := acts[..k + 1];
      assert upTo[..|upTo| - 1] == acts[..k] && upTo[|upTo| - 1] == acts[k];
      if k < |shorter| {
        assert shorter[..k + 1] == upTo;
      } else {
        assert shorter == acts[..k];
      }
    }
  }

  lemma RunInvAt(s0: Cluster, acts: seq<Action>, k: nat)
    requires Run(s0, acts) && k <= |acts|
    ensures Inv(At(s0, acts, k))
  {
    RunPrefix(s0, acts, k);
    RunInv(s0, acts[..k]);
  }

  // ---- No orphaned cloud user ----

  /** u is named in the stored status of a request that still exists and still carries the deprovision finalizer. */
  ghost predicate NamedUnderFinalizer(s: Cluster, u: string) {
    exists n :: Guarded(Stored(s, n)) && Stored(s, n).value.status.user == u
  }

  /** In every state of every run each user the operator created is named by a request that will deprovision it. */
  lemma NoOrphanedUser(s0: Cluster, acts: seq<Action>, k: nat, u: string)
    requires Run(s0, acts) && k <= |acts|
    requires u in At(s0, acts, k).minted && u in At(s0, acts, k).users
    ensures NamedUnderFinalizer(At(s0, acts, k), u)
  {
    var s := At(s0, acts, k);
    RunInvAt(s0, acts, k);
    assert UserOK(s, u);
    assert Guarded(Stored(s, s.claims[u].n));
  }

  /** Every claimed name was persisted by the object that claims it. */
  ghost predicate ClaimsWitnessed(s: Cluster) {
    forall u :: u in s.claims ==> exists j :: Witness(s, u, j)
  }

  ghost predicate Witness(s: Cluster, u: string, j: nat)
    requires u in s.claims
  {
    var c := s.claims[u];
    && j < |Hist(s, c.n)| && Hist(s, c.n)[j].Some?
    && Hist(s, c.n)[j].value.uid == c.uid && Hist(s, c.n)[j].value.status.user == u
  }

  lemma AppendGrows(s: Cluster, n: Name, v: Option<Request>, m: Name)
    ensures Hist(s, m) <= Hist(Append(s, n, v), m)
  {
  }

  lemma EnvGrows(s: Cluster, e: EnvAction, m: Name)
    ensures Hist(s, m) <= Hist(EnvApply(s, e), m)
    ensures EnvApply(s, e).claims == s.claims
  {
    if OnRequest(e) && Hist(s, e.n) != [] && EnvVersion(Hist(s, e.n), e).Some? {
      AppendGrows(s, e.n, EnvVersion(Hist(s, e.n), e).value, m);
    }
  }

  /** Versions are never rewritten. */
  lemma StepGrows(s: Cluster, a: Action, m: Name)
    ensures Hist(s, m) <= Hist(Apply(s, a), m)
    ensures !a.Write? ==> Apply(s, a).claims == s.claims
  {
    if a.Env? {
      EnvGrows(s, a.e, m);
    }
  }

  lemma StepWitnessed(s: Cluster, a: Action)
    requires ClaimsWitnessed(s)
    ensures ClaimsWitnessed(Apply(s, a))
  {
    var t := Apply(s, a);
    if a.Write? && a.op.WriteStatus? {
      StatusWitnessed(s, a.n, a.rv, a.op.status);
    } else {
      forall u | u in t.claims ensures exists j :: Witness(t, u, j) {
        StepGrows(s, a, t.claims[u].n);
        assert u in s.claims;
        var j :| Witness(s, u, j);
        assert Witness(t, u, j);
      }
    }
  }

  lemma StatusWitnessed(s: Cluster, n: Name, rv: nat, st: Status)
    requires ClaimsWitnessed(s)
    ensures ClaimsWitnessed(WriteApply(s, n, rv, WriteStatus(st)))
  {
    var t := WriteApply(s, n, rv, WriteStatus(st));
    if IsCurrent(s, n, rv) && Stored(s, n).Some? {
      var v := Some(Stored(s, n).value.(status := st));
      forall u | u in t.claims ensures exists j :: Witness(t, u, j) {
        AppendGrows(s, n, v, t.claims[u].n);
        if u in s.claims {
          var j :| Witness(s, u, j);
          assert Witness(t, u, j);
        } else {
          assert Hist(t, n)[|Hist(s, n)|] == v;
          assert Witness(t, u, |Hist(s, n)|);
        }
      }
    }
  }

  lemma {:induction false} RunWitnessed(s0: Cluster, acts: seq<Action>)
    requires Run(s0, acts)
    ensures ClaimsWitnessed(Exec(s0, acts))
  {
    if acts != [] {
      RunWitnessed(s0, acts[..|acts| - 1]);
      StepWitnessed(Exec(s0, acts[..|acts| - 1]), acts[|acts| - 1]);
    }
  }

  lemma WitnessesAgree(s: Cluster, u: string, v: string, i: nat, j: nat)
    requires Inv(s) && u in s.claims && v in s.claims && s.claims[u] == s.claims[v]
    requires i <= j && Witness(s, u, i) && Witness(s, v, j)
    ensures u == v
  {
    var h := Hist(s, s.claims[u].n);
    assert ReqOK(s, s.claims[u].n);
    assert h[i].value.uid <= i;
    assert Evolves(h[i].value, h[j].value);
    assert u != "";
  }

  /** One object never has two users, and one user name never serves two objects: the users the operator created
      in a run are in one-to-one correspondence with the objects they were created for. */
  lemma OneUserPerRequest(s0: Cluster, acts: seq<Action>, u: string, v: string)
    requires Run(s0, acts)
    requires u in Exec(s0, acts).minted && v in Exec(s0, acts).minted
    ensures u in Exec(s0, acts).claims && v in Exec(s0, acts).claims
    ensures Exec(s0, acts).claims[u] == Exec(s0, acts).claims[v] <==> u == v
  {
    var s := Exec(s0, acts);
    RunInv(s0, acts);
    assert u in s.claims && v in s.claims;
    if s.claims[u] == s.claims[v] {
      RunWitnessed(s0, acts);
      var i :| Witness(s, u, i);
      var j :| Witness(s, v, j);
      if i <= j {
        WitnessesAgree(s, u, v, i, j);
      } else {
        WitnessesAgree(s, v, u, j, i);
      }
    }
  }

  /** A user name is at most 64 characters and comes with the policy name derived from it, in every stored version. */
  lemma StoredNames(s0: Cluster, acts: seq<Action>, n: Name, j: nat)
    requires Run(s0, acts)
    requires j < |Hist(Exec(s0, acts), n)| && Hist(Exec(s0, acts), n)[j].Some?
    ensures var st := Hist(Exec(s0, acts), n)[j].value.status;
      && |st.user| <= 64 && |st.policy| <= 128
      && st.policy == if st.user == "" then "" else PolicyName(st.user)
  {
    RunInv(s0, acts);
    assert ReqOK(Exec(s0, acts), n);
    assert VersionOK(Exec(s0, acts), n, Hist(Exec(s0, acts), n)[j].value);
  }

  /** Every user name sent to IAM has at most 64 characters, and every policy name is the one derived from it. */
  lemma SentNames(s0: Cluster, acts: seq<Action>, k: nat)
    requires Run(s0, acts) && k < |acts| && acts[k].Iam?
    ensures 0 < |acts[k].u| <= 64
    ensures acts[k].call.PutPolicy? || acts[k].call.DeletePolicy? ==>
      acts[k].call.policy == PolicyName(acts[k].u) && |acts[k].call.policy| <= 128
  {
    var s, a := At(s0, acts, k), acts[k];
    RunPrefix(s0, acts, k);
    RunInvAt(s0, acts, k);
    assert WorksFor(s, a.n, a.rv, a.u);
    assert ReqOK(s, a.n);
    assert VersionOK(s, a.n, Version(s, a.n, a.rv));
  }

  // ---- Deprovisioning ----

  /** Whenever removing the finalizer takes effect, the recorded user and the target secret are gone. */
  lemma FinalizerSafety(s0: Cluster, acts: seq<Action>, k: nat)
    requires Run(s0, acts) && k < |acts| && acts[k].Write? && acts[k].op.RemoveFinalizer?
    requires At(s0, acts, k + 1) != At(s0, acts, k)
    ensures var before, n := At(s0, acts, k), acts[k].n;
      && Stored(before, n).Some? && Stored(before, n).value.deleted && Cleared(before, Stored(before, n).value)
  {
    var s, n := At(s0, acts, k), acts[k].n;
    RunPrefix(s0, acts, k);
    RunInvAt(s0, acts, k);
    ShownDeleted(s, n, acts[k].rv);
  }

  /** The operator never deletes a user, nor its policy, whose request is stored and not marked for deletion. */
  lemma NoPrematureDelete(s0: Cluster, acts: seq<Action>, k: nat, n: Name)
    requires Run(s0, acts) && k < |acts| && acts[k].Iam? && (acts[k].call.DeleteUser? || acts[k].call.DeletePolicy?)
    requires Stored(At(s0, acts, k), n).Some? && Stored(At(s0, acts, k), n).value.status.user == acts[k].u
    ensures Stored(At(s0, acts, k), n).value.deleted
  {
    var s, a := At(s0, acts, k), acts[k];
    RunPrefix(s0, acts, k);
    RunInvAt(s0, acts, k);
    NamedUser(s, a.n, a.rv, a.u);
    var h := Hist(s, n);
    assert ReqOK(s, n);
    assert VersionOK(s, n, h[|h| - 1].value);
    assert Evolves(h[a.rv].value, h[|h| - 1].value);
  }

  // ---- Access keys ----

  /** A minted user has at most one key, issued by AWS, at every moment; and when the operator asks for a key the
      user has none, so the quota of two is never met. */
  lemma KeyConservation(s0: Cluster, acts: seq<Action>, k: nat, u: string)
    requires Run(s0, acts) && k <= |acts|
    requires var s := At(s0, acts, k); u in s.minted && u in s.users
    ensures var s := At(s0, acts, k);
      && |s.users[u].keys| <= 1
      && (forall id :: id in s.users[u].keys ==> id in s.issued && s.issued[id] == s.users[u].keys[id])
    ensures k < |acts| && acts[k].Iam? && acts[k].call.CreateKey? && acts[k].u == u ==>
      At(s0, acts, k).users[u].keys == map[]
  {
    RunInvAt(s0, acts, k);
    RunPrefix(s0, acts, k);
    assert UserOK(At(s0, acts, k), u);
  }

  lemma UserChangeIsCall(s: Cluster, a: Action)
    requires !a.Env? && Apply(s, a).users != s.users
    ensures a.Iam?
  {
  }

  /** Every step of the operator that changes the users goes through the root client and works on the user named by a
      stored version of the request it is made for. */
  lemma RootClientOnly(s0: Cluster, acts: seq<Action>, k: nat)
    requires Run(s0, acts) && k < |acts| && !acts[k].Env?
    requires At(s0, acts, k + 1).users != At(s0, acts, k).users
    ensures acts[k].Iam? && acts[k].via == Root && acts[k].u in At(s0, acts, k).claims
      && At(s0, acts, k).claims[acts[k].u].n == acts[k].n
  {
    var s, a := At(s0, acts, k), acts[k];
    RunPrefix(s0, acts, k);
    UserChangeIsCall(s, a);
    RunInvAt(s0, acts, k);
    assert WorksFor(s, a.n, a.rv, a.u);
    NamedUser(s, a.n, a.rv, a.u);
  }

  /** The annotation on every secret the operator writes maps back to exactly the request it was written for. */
  lemma SecretsMapBack(s0: Cluster, acts: seq<Action>, k: nat)
    requires Run(s0, acts) && k < |acts| && acts[k].Keep? && !acts[k].put.DeleteSecret?
    requires '/' !in acts[k].n.ns && '/' !in acts[k].n.name
    ensures acts[k].put.annotations.owner.Some? && SplitKey(acts[k].put.annotations.owner.value) == Some(acts[k].n)
  {
    RunPrefix(s0, acts, k);
    OwnerRoundTrip(acts[k].n);
  }

  /** No secret write of the operator touches a mode annotation. */
  lemma SecretsKeepMode(s0: Cluster, acts: seq<Action>, k: nat)
    requires Run(s0, acts) && k < |acts| && acts[k].Keep? && acts[k].k in At(s0, acts, k + 1).secrets
    ensures var s, t, x := At(s0, acts, k), At(s0, acts, k + 1), acts[k].k;
      t.secrets[x].annotations.mode == if x in s.secrets then s.secrets[x].annotations.mode else None
  {
    RunPrefix(s0, acts, k);
  }

  // ---- Status ----

  /** In every run the stored conditions have unique types, exclude each other as they should, and exclude Provisioned:
      a request that is provisioned and reports a provision failure is never stored. */
  lemma StoredStatus(s0: Cluster, acts: seq<Action>, n: Name)
    requires Run(s0, acts) && Stored(Exec(s0, acts), n).Some?
    ensures var st := Stored(Exec(s0, acts), n).value.status;
      && UniqueTypes(st.conditions)
      && !(IsTrue(st.conditions, InsufficientCloudCreds) && IsTrue(st.conditions, CredentialsProvisionFailure))
      && (st.provisioned ==>
            && !IsTrue(st.conditions, InsufficientCloudCreds)
            && !IsTrue(st.conditions, CredentialsProvisionFailure))
  {
    var s := Exec(s0, acts);
    RunInv(s0, acts);
    assert ReqOK(s, n);
    assert VersionOK(s, n, Stored(s, n).value);
  }

  // ---- The skip ----

  /** Step m reported success for exactly this spec at this generation of this object, which was the stored version,
      and the outcome of a successful sync held there, judged by a root secret that was stored at some moment
      before. */
  ghost predicate SucceededOn(s0: Cluster, acts: seq<Action>, m: nat, x: SyncRecord)
    requires m < |acts|
  {
    && acts[m].Report? && acts[m].success.Some? && acts[m].n == x.n
    && var s, rv, how := At(s0, acts, m), acts[m].rv, acts[m].success.value;
      && IsCurrent(s, x.n, rv) && Provisionable(Stored(s, x.n))
      && var r := Stored(s, x.n).value;
        && r.uid == x.uid && r.generation == x.generation && r.spec == x.spec && s.now == x.at
        && Outcome(s, how.infra, how.uuid, x.n, rv, r, how.saw) && SeenInRun(s0, acts[..m], how.saw)
  }

  lemma StepSynced(s: Cluster, a: Action)
    ensures !(a.Report? && a.success.Some?) ==> Apply(s, a).synced == s.synced
  {
  }

  /** A step that adds a sync record reports the success it stands for. */
  lemma ReportSucceeds(s0: Cluster, acts: seq<Action>, x: SyncRecord)
    requires Run(s0, acts) && acts != []
    ensures x in Exec(s0, acts).synced && x !in Exec(s0, acts[..|acts| - 1]).synced ==>
      SucceededOn(s0, acts, |acts| - 1, x)
  {
    var last := |acts| - 1;
    RunPrefix(s0, acts, last);
    StepSynced(At(s0, acts, last), acts[last]);
  }

  lemma {:induction false} SyncedSucceeded(s0: Cluster, acts: seq<Action>, x: SyncRecord)
    requires Run(s0, acts) && x in Exec(s0, acts).synced
    ensures exists m :: 0 <= m < |acts| && SucceededOn(s0, acts, m, x)
  {
    if acts != [] {
      var prev := acts[..|acts| - 1];
      StepSynced(Exec(s0, prev), acts[|acts| - 1]);
      if x in Exec(s0, prev).synced {
        SyncedSucceeded(s0, prev, x);
        var m :| 0 <= m < |prev| && SucceededOn(s0, prev, m, x);
        assert prev[..m] == acts[..m] && prev[m] == acts[m];
        assert SucceededOn(s0, acts, m, x);
      } else {
        ReportSucceeds(s0, acts, x);
      }
    }
  }

  /** The recorded generation never exceeds the generation, and equality means that at some step of the run the actuator
      had brought about, and reported, what a sync of exactly the stored spec is for. */
  lemma SkipIsSound(s0: Cluster, acts: seq<Action>, n: Name)
    requires Run(s0, acts) && Stored(Exec(s0, acts), n).Some?
    ensures var r := Stored(Exec(s0, acts), n).value;
      && r.status.lastSyncGeneration <= r.generation
      && (r.status.lastSyncGeneration == r.generation ==>
            && r.status.lastSyncTime.Some?
            && exists m :: 0 <= m < |acts| && SucceededOn(s0, acts, m, RecordOf(n, r)))
  {
    var s := Exec(s0, acts);
    RunInv(s0, acts);
    assert ReqOK(s, n);
    var r := Stored(s, n).value;
    assert VersionOK(s, n, r);
    if r.status.lastSyncGeneration == r.generation {
      SyncedSucceeded(s0, acts, RecordOf(n, r));
    }
  }

  /** The sync that a version records. */
  function RecordOf(n: Name, r: Request): SyncRecord
    requires r.status.lastSyncTime.Some?
  {
    SyncRecord(n, r.uid, r.generation, r.spec, r.status.lastSyncTime.value)
  }

  /** Less than 3600 seconds before this time, at some step of the run, the actuator had brought about and reported what
      a sync of exactly this spec at this generation of this object is for. */
  ghost predicate SyncedWithinTheHour(s0: Cluster, acts: seq<Action>, n: Name, r: Request, when: nat) {
    exists m :: && 0 <= m < |acts| && when < At(s0, acts, m).now + 3600
                && SucceededOn(s0, acts, m, SyncRecord(n, r.uid, r.generation, r.spec, At(s0, acts, m).now))
  }

  /** What the skip rests on: every version that passes the skip test, stored or stale, was synced within the hour. */
  lemma SkippedWasSynced(s0: Cluster, acts: seq<Action>, n: Name, j: nat, when: nat)
    requires Run(s0, acts) && j < |Hist(Exec(s0, acts), n)| && Hist(Exec(s0, acts), n)[j].Some?
    requires SkipTest(Hist(Exec(s0, acts), n)[j].value, when)
    ensures SyncedWithinTheHour(s0, acts, n, Hist(Exec(s0, acts), n)[j].value, when)
  {
    var s := Exec(s0, acts);
    var r := Hist(s, n)[j].value;
    RunInv(s0, acts);
    assert ReqOK(s, n);
    assert VersionOK(s, n, r);
    SyncedSucceeded(s0, acts, RecordOf(n, r));
    var m :| 0 <= m < |acts| && SucceededOn(s0, acts, m, RecordOf(n, r));
    assert At(s0, acts, m).now == r.status.lastSyncTime.value;
  }

  /** The actuator does not succeed for n in the steps from i on and before k. */
  ghost predicate NoSuccess(acts: seq<Action>, i: nat, k: nat, n: Name)
    requires k <= |acts|
  {
    forall j :: i <= j < k ==> !IsSuccess(acts[j], n)
  }

  predicate IsSuccess(a: Action, n: Name) {
    a.Report? && a.success.Some? && a.n == n
  }

  lemma StepOwed(s: Cluster, a: Action, n: Name)
    requires n in s.owed && !IsSuccess(a, n)
    ensures n in Apply(s, a).owed
  {
  }

  lemma {:induction false} StaysOwed(s0: Cluster, acts: seq<Action>, m: nat, k: nat, n: Name)
    requires Run(s0, acts) && m <= k <= |acts|
    requires n in At(s0, acts, m).owed
    requires NoSuccess(acts, m, k, n)
    ensures n in At(s0, acts, k).owed
  {
    if m < k {
      StaysOwed(s0, acts, m, k - 1, n);
      RunPrefix(s0, acts, k - 1);
      StepOwed(At(s0, acts, k - 1), acts[k - 1], n);
    }
  }

  lemma StepCaught(s: Cluster, a: Action, n: Name)
    requires n in s.caught && !IsSuccess(a, n) && !(a.Read? && a.n == n)
    ensures n in Apply(s, a).caught
  {
  }

  lemma {:induction false} StaysCaught(s0: Cluster, acts: seq<Action>, m: nat, k: nat, n: Name)
    requires Run(s0, acts) && m <= k <= |acts|
    requires n in At(s0, acts, m).caught
    requires NoSuccess(acts, m, k, n) && forall i :: m <= i < k ==> !(acts[i].Read? && acts[i].n == n)
    ensures n in At(s0, acts, k).caught
  {
    if m < k {
      StaysCaught(s0, acts, m, k - 1, n);
      RunPrefix(s0, acts, k - 1);
      StepCaught(At(s0, acts, k - 1), acts[k - 1], n);
    }
  }

  /** What the worker was shown fails the skip test, and it decides: so nothing can be skipped. */
  lemma CaughtNothingToSkip(s: Cluster, n: Name, rv: nat)
    requires Inv(s) && MayBegin(s, n, rv) && n in s.caught
    ensures NothingToSkip(s, n)
  {
    var h := Hist(s, n);
    assert ReqOK(s, n);
    SkipExpires(h[rv].value, s.now);
    forall j | SeenAt(s, n) <= j < |h| && h[j].Some? ensures !SkipTest(h[j].value, s.now) {
      SkipExpires(h[j].value, s.now);
    }
  }

  lemma CaughtUpCallOwes(s0: Cluster, acts: seq<Action>, r: nat, b: nat, n: Name, at: nat)
    requires Run(s0, acts) && r < b < |acts|
    requires acts[r] == Read(n, at) && NoNewerSync(At(s0, acts, r), n, at)
    requires acts[b].Begin? && acts[b].n == n && forall i :: r < i < b ==> !(acts[i].Read? && acts[i].n == n)
    requires NoSuccess(acts, r + 1, b, n)
    ensures n in At(s0, acts, b + 1).owed
  {
    RunPrefix(s0, acts, r);
    StaysCaught(s0, acts, r + 1, b, n);
    RunPrefix(s0, acts, b);
    RunInvAt(s0, acts, b);
    CaughtNothingToSkip(At(s0, acts, b), n, acts[b].rv);
  }

  /** A sync that fails is retried. Let the worker read version at of a request in step r, no newer version recording a
      sync of its own generation within the hour, and call the actuator for it in step b. Then, whatever the environment
      and the operator do, no version the worker may be shown passes the skip test until the actuator succeeds. */
  lemma FailureIsRetried(s0: Cluster, acts: seq<Action>, r: nat, b: nat, k: nat, n: Name, at: nat, j: nat)
    requires Run(s0, acts) && r < b < k <= |acts|
    requires acts[r] == Read(n, at) && NoNewerSync(At(s0, acts, r), n, at)
    requires acts[b].Begin? && acts[b].n == n && forall i :: r < i < b ==> !(acts[i].Read? && acts[i].n == n)
    requires NoSuccess(acts, r + 1, k, n)
    requires var s := At(s0, acts, k); SeenAt(s, n) <= j < |Hist(s, n)| && Hist(s, n)[j].Some?
    ensures !SkipTest(Hist(At(s0, acts, k), n)[j].value, At(s0, acts, k).now)
  {
    CaughtUpCallOwes(s0, acts, r, b, n, at);
    StaysOwed(s0, acts, b + 1, k, n);
    RunInvAt(s0, acts, k);
    assert ReqOK(At(s0, acts, k), n);
    assert NothingToSkip(At(s0, acts, k), n);
  }

  /** The run ends with the worker being shown a version that passes the skip test. */
  ghost predicate ShowsSkippable(s0: Cluster, acts: seq<Action>, n: Name, at: nat) {
    var t := Exec(s0, acts);
    Run(s0, acts) && SeenAt(t, n) == at < |Hist(t, n)| && Hist(t, n)[at].Some? && SkipTest(Hist(t, n)[at].value, t.now)
  }

  /** The condition is needed: if the actuator is called while a version newer than the one shown passes the skip test,
      the run can go on with a failure and with a read that shows such a version. */
  lemma FailureMayBeSkipped(s0: Cluster, acts: seq<Action>, n: Name, rv: nat) returns (at: nat)
    requires Run(s0, acts) && |acts| > 0 && acts[|acts| - 1] == Begin(n, rv)
    requires !NoNewerSync(Exec(s0, acts), n, rv)
    ensures rv < at && ShowsSkippable(s0, acts + [Report(n, rv, None)] + [Read(n, at)], n, at)
  {
    var last := |acts| - 1;
    RunPrefix(s0, acts, last);
    assert acts[..last + 1] == acts;
    var s := Exec(s0, acts);
    assert Hist(s, n) == Hist(At(s0, acts, last), n) && SeenAt(s, n) == rv;
    var h := Hist(s, n);
    at :| rv < at < |h| && h[at].Some? && SkipTest(h[at].value, s.now);
    var failed := acts + [Report(n, rv, None)];
    Extend(s0, acts, Report(n, rv, None));
    Extend(s0, failed, Read(n, at));
    assert Hist(Exec(s0, failed + [Read(n, at)]), n)[at] == h[at];
  }

  lemma Extend(s0: Cluster, acts: seq<Action>, a: Action)
    requires Run(s0, acts) && Allowed(Exec(s0, acts), a) && Justified(s0, acts, a)
    ensures Run(s0, acts + [a]) && Exec(s0, acts + [a]) == Apply(Exec(s0, acts), a)
  {
    var more := acts + [a];
    assert more[..|more| - 1] == acts && more[|more| - 1] == a;
  }

  /** Every run that goes on from a call of the actuator without a success leaves nothing to skip. */
  ghost predicate Retried(s0: Cluster, acts: seq<Action>, n: Name) {
    forall all: seq<Action> :: acts <= all && Run(s0, all) && NoSuccess(all, |acts|, |all|, n) ==>
      NothingToSkip(Exec(s0, all), n)
  }

  /** When the actuator is called, a failure is sure to be retried if and only if no version newer than the one shown
      records a sync of its own generation within the hour. */
  lemma RetryIsExact(s0: Cluster, acts: seq<Action>, n: Name, rv: nat)
    requires Run(s0, acts) && |acts| > 0 && acts[|acts| - 1] == Begin(n, rv)
    ensures Retried(s0, acts, n) <==> NoNewerSync(Exec(s0, acts), n, rv)
  {
    if NoNewerSync(Exec(s0, acts), n, rv) {
      CallOwes(s0, acts, n, rv);
      OwedRetried(s0, acts, n);
    } else {
      var at := FailureMayBeSkipped(s0, acts, n, rv);
      SkippableNotRetried(s0, acts, acts + [Report(n, rv, None)] + [Read(n, at)], n, at);
    }
  }

  lemma SkippableNotRetried(s0: Cluster, acts: seq<Action>, all: seq<Action>, n: Name, at: nat)
    requires acts <= all && NoSuccess(all, |acts|, |all|, n) && ShowsSkippable(s0, all, n, at)
    ensures !Retried(s0, acts, n)
  {
    assert !NothingToSkip(Exec(s0, all), n);
  }

  lemma CallOwes(s0: Cluster, acts: seq<Action>, n: Name, rv: nat)
    requires Run(s0, acts) && |acts| > 0 && acts[|acts| - 1] == Begin(n, rv) && NoNewerSync(Exec(s0, acts), n, rv)
    ensures n in Exec(s0, acts).owed
  {
    var last := |acts| - 1;
    RunPrefix(s0, acts, last);
    assert acts[..last + 1] == acts;
    BeginOwes(At(s0, acts, last), n, rv);
  }

  lemma BeginOwes(s: Cluster, n: Name, rv: nat)
    requires MayBegin(s, n, rv) && NoNewerSync(BeginApply(s, n), n, rv)
    ensures n in BeginApply(s, n).owed
  {
    assert Hist(BeginApply(s, n), n) == Hist(s, n);
  }

  lemma OwedRetried(s0: Cluster, acts: seq<Action>, n: Name)
    requires n in Exec(s0, acts).owed
    ensures Retried(s0, acts, n)
  {
    forall all: seq<Action> | acts <= all && Run(s0, all) && NoSuccess(all, |acts|, |all|, n)
      ensures NothingToSkip(Exec(s0, all), n)
    {
      assert all[..|acts|] == acts && all[..|all|] == all;
      StaysOwed(s0, all, |acts|, |all|, n);
      RunInv(s0, all);
      assert ReqOK(Exec(s0, all), n);
    }
  }

  /** What makes the condition hold: the version the worker was shown fails the skip test, and no later version of the
      object records another sync. */
  lemma CaughtUpReadsNothingToSkip(s: Cluster, n: Name, now: nat)
    requires Inv(s) && now <= s.now && SeenAt(s, n) < |Hist(s, n)|
    requires Hist(s, n)[SeenAt(s, n)].Some? && !SkipTest(Hist(s, n)[SeenAt(s, n)].value, now)
    requires forall j :: SeenAt(s, n) <= j < |Hist(s, n)| ==>
      && Hist(s, n)[j].Some? && Hist(s, n)[j].value.uid == Hist(s, n)[SeenAt(s, n)].value.uid
      && Hist(s, n)[j].value.status.lastSyncTime == Hist(s, n)[SeenAt(s, n)].value.status.lastSyncTime
      && Hist(s, n)[j].value.status.lastSyncGeneration == Hist(s, n)[SeenAt(s, n)].value.status.lastSyncGeneration
    ensures NothingToSkip(s, n)
  {
    var h, seen := Hist(s, n), SeenAt(s, n);
    assert ReqOK(s, n);
    forall j | seen <= j < |h| && h[j].Some? ensures !SkipTest(h[j].value, s.now) {
      assert VersionOK(s, n, h[seen].value);
      assert h[seen].value.uid <= seen;
      assert Evolves(h[seen].value, h[j].value);
    }
  }

  // ---- All of it, at every moment ----

  /** What holds at moment k of a run: no user is orphaned, every user has at most one key, and that one was issued by
      AWS, and if step k takes a finalizer off, nothing of that request is left. */
  ghost predicate SafeAt(s0: Cluster, acts: seq<Action>, k: nat)
    requires k <= |acts|
  {
    var s := At(s0, acts, k);
    && (forall u :: u in s.minted && u in s.users ==>
          && NamedUnderFinalizer(s, u) && |s.users[u].keys| <= 1
          && forall id :: id in s.users[u].keys ==> id in s.issued && s.issued[id] == s.users[u].keys[id])
    && (k < |acts| && acts[k].Write? && acts[k].op.RemoveFinalizer? && At(s0, acts, k + 1) != s ==>
          Stored(s, acts[k].n).Some? && Stored(s, acts[k].n).value.deleted && Cleared(s, Stored(s, acts[k].n).value))
  }

  /** Every run is safe at every moment. */
  lemma RunIsSafe(s0: Cluster, acts: seq<Action>, k: nat)
    requires Run(s0, acts) && k <= |acts|
    ensures SafeAt(s0, acts, k)
  {
    var s := At(s0, acts, k);
    forall u | u in s.minted && u in s.users
      ensures NamedUnderFinalizer(s, u) && |s.users[u].keys| <= 1
      ensures forall id :: id in s.users[u].keys ==> id in s.issued && s.issued[id] == s.users[u].keys[id]
    {
      NoOrphanedUser(s0, acts, k, u);
      KeyConservation(s0, acts, k, u);
    }
    if k < |acts| && acts[k].Write? && acts[k].op.RemoveFinalizer? && At(s0, acts, k + 1) != s {
      FinalizerSafety(s0, acts, k);
    }
  }
}
