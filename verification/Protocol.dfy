/** What every step of the operator and of its environment keeps, and what follows for whole runs. */
module Protocol {
  import opened Wrappers
  import opened Conditions
  import opened Naming
  import opened Store
  import opened Goals

  // ---- The invariant ----

  /** InsufficientCloudCreds and CredentialsProvisionFailure exclude each other, and Provisioned excludes both. */
  ghost predicate StatusOK(st: Status) {
    && UniqueTypes(st.conditions)
    && !(IsTrue(st.conditions, InsufficientCloudCreds) && IsTrue(st.conditions, CredentialsProvisionFailure))
    && (st.provisioned ==>
          && !IsTrue(st.conditions, InsufficientCloudCreds)
          && !IsTrue(st.conditions, CredentialsProvisionFailure))
  }

  /** b is a later version of the object a. */
  ghost predicate Evolves(a: Request, b: Request) {
    && a.uid == b.uid
    && (a.deleted ==> b.deleted)
    && a.generation <= b.generation
    && (a.generation == b.generation ==> a.spec == b.spec)
    && (a.status.user != "" ==> b.status.user == a.status.user)
    && (Deprovision in a.finalizers && Deprovision !in b.finalizers ==> b.deleted)
  }

  /** The versions of one incarnation are contiguous, from the index that is its uid, and each evolves from the
      earlier ones. */
  ghost predicate HistOK(h: seq<Option<Request>>) {
    && (forall k :: 0 <= k < |h| && h[k].Some? ==> h[k].value.uid <= k)
    && (forall j, k :: 0 <= j <= k < |h| && h[k].Some? && h[k].value.uid <= j ==>
          h[j].Some? && Evolves(h[j].value, h[k].value))
  }

  ghost predicate Provisionable(v: Option<Request>) {
    v.Some? && !v.value.deleted && Deprovision in v.value.finalizers
  }

  /** As long as the worker has not been shown a deletion, the finalizer it was shown is still there. */
  ghost predicate Watch(h: seq<Option<Request>>, seen: nat) {
    forall j, k :: seen <= j <= k < |h| && Provisionable(h[j]) ==> Guarded(h[k]) && h[k].value.uid == h[j].value.uid
  }

  ghost predicate VersionOK(s: Cluster, n: Name, r: Request) {
    && StatusOK(r.status)
    && (r.status.user == "" ==> r.status.policy == "")
    && (r.status.user != "" ==>
          && |r.status.user| <= 64 && r.status.policy == PolicyName(r.status.user)
          && r.status.user in s.claims && s.claims[r.status.user] == Claim(n, r.uid))
    && r.status.lastSyncGeneration <= r.generation
    && (r.status.lastSyncGeneration == r.generation ==>
          && r.status.lastSyncTime.Some?
          && SyncRecord(n, r.uid, r.generation, r.spec, r.status.lastSyncTime.value) in s.synced)
  }

  ghost predicate ReqOK(s: Cluster, n: Name) {
    var h := Hist(s, n);
    && SeenAt(s, n) < |h|
    && HistOK(h)
    && Watch(h, SeenAt(s, n))
    && (forall j :: 0 <= j < |h| && h[j].Some? ==> VersionOK(s, n, h[j].value))
    && (n in s.caught ==> ShownDecides(s, n))
    && (n in s.owed ==> NothingToSkip(s, n))
  }

  /** The moment from which on a version does not pass the skip test. */
  ghost function Expiry(v: Option<Request>): nat {
    if v.Some? && v.value.generation == v.value.status.lastSyncGeneration && v.value.status.lastSyncTime.Some?
    then v.value.status.lastSyncTime.value + HOUR else 0
  }

  lemma SkipExpires(r: Request, now: nat)
    ensures SkipTest(r, now) <==> now < Expiry(Some(r))
  {
  }

  /** A version the worker may still be shown does not pass the skip test, now or later, unless the last shown one
      does. */
  ghost predicate ShownDecides(s: Cluster, n: Name) {
    var h, seen := Hist(s, n), SeenAt(s, n);
    forall j :: seen <= j < |h| ==> Expiry(h[j]) <= s.now || Expiry(h[j]) <= Expiry(h[seen])
  }

  /** u is the user named by a stored request that still carries the deprovision finalizer. */
  ghost predicate Owned(s: Cluster, u: string)
    requires u in s.claims
  {
    var c := s.claims[u];
    Guarded(Stored(s, c.n)) && Stored(s, c.n).value.uid == c.uid && Stored(s, c.n).value.status.user == u
  }

  ghost predicate UserOK(s: Cluster, u: string)
    requires u in s.users
  {
    && u in s.minted && u in s.claims && Owned(s, u)
    && |s.users[u].keys| <= 1
    && s.users[u].policies.Keys <= {PolicyName(u)}
    && (forall id :: id in s.users[u].keys ==> id in s.issued && s.issued[id] == s.users[u].keys[id])
  }

  ghost predicate IamOK(s: Cluster) {
    && s.claims.Keys <= s.drawn && "" !in s.claims
    && s.minted <= s.claims.Keys
    && (forall u :: u in s.users && u in s.drawn ==> UserOK(s, u))
  }

  ghost predicate SecretsOK(s: Cluster) {
    forall k :: k in s.secrets ==> PairKept(s.issued, s.secrets[k].data) && s.secrets[k].version < s.nextVersion
  }

  ghost predicate Inv(s: Cluster) {
    (forall n :: ReqOK(s, n)) && IamOK(s) && SecretsOK(s)
  }

  /** Before the operator's first step: any users, secrets and namespaces, no request. The versions of secrets are
      numbered upwards. */
  ghost predicate Initial(s: Cluster) {
    && s.history == map[] && s.seen == map[] && s.drawn == {} && s.claims == map[]
    && s.minted == {} && s.issued == map[] && s.synced == {} && s.caught == {} && s.owed == {}
    && forall k :: k in s.secrets ==> s.secrets[k].version < s.nextVersion
  }

  lemma InitialInv(s: Cluster)
    requires Initial(s)
    ensures Inv(s)
  {
    forall n ensures ReqOK(s, n) {
      assert Hist(s, n) == [None];
    }
  }

  // ---- What the operator may do, told from the version it holds ----

  /** The worker holds version rv: it is of the same incarnation as the version the worker was shown. */
  ghost predicate Holds(s: Cluster, n: Name, rv: nat) {
    var h := Hist(s, n);
    && SeenAt(s, n) <= rv < |h| && h[rv].Some? && h[SeenAt(s, n)].Some?
    && h[rv].value.uid == h[SeenAt(s, n)].value.uid
  }

  ghost function Version(s: Cluster, n: Name, rv: nat): Request
    requires Holds(s, n, rv)
  {
    Hist(s, n)[rv].value
  }

  ghost predicate MayClaim(s: Cluster, u: string) {
    u in s.drawn && u !in s.claims && 0 < |u| <= 64
  }

  /** A status write keeps the user name or, on a version without one, introduces a drawn name. */
  ghost predicate KeepsName(s: Cluster, n: Name, rv: nat, st: Status)
    requires Holds(s, n, rv)
  {
    var b := Version(s, n, rv).status;
    || (st.user == b.user && st.policy == b.policy)
    || (&& b.user == "" && st.user != "" && st.policy == PolicyName(st.user)
        && (IsCurrent(s, n, rv) ==> MayClaim(s, st.user)))
  }

  /** A status write keeps the last-sync fields or, if it takes effect, records a success that was reported for
      exactly the version it replaces while that was stored, with the time of that report. */
  ghost predicate KeepsSync(s: Cluster, n: Name, rv: nat, st: Status)
    requires Holds(s, n, rv)
  {
    var b := Version(s, n, rv);
    || (st.lastSyncTime == b.status.lastSyncTime && st.lastSyncGeneration == b.status.lastSyncGeneration)
    || (&& st.lastSyncGeneration == b.generation && n !in s.caught && n !in s.owed
        && (IsCurrent(s, n, rv) ==>
              && st.lastSyncTime.Some?
              && SyncRecord(n, b.uid, b.generation, b.spec, st.lastSyncTime.value) in s.synced))
  }

  /** The user is the one named by the version in hand, which is not deleted and carries the finalizer. */
  ghost predicate MayProvision(s: Cluster, n: Name, rv: nat, via: Access, u: string) {
    via == Root && WorksFor(s, n, rv, u) && Provisionable(Hist(s, n)[rv])
  }

  ghost predicate MayDeprovision(s: Cluster, n: Name, rv: nat, via: Access, u: string) {
    via == Root && WorksFor(s, n, rv, u) && Version(s, n, rv).deleted
  }

  ghost predicate MayCall(s: Cluster, n: Name, rv: nat, via: Access, u: string, call: UserOp) {
    match call
    case CreateUser => MayProvision(s, n, rv, via, u)
    case TagUser(_, _) => MayProvision(s, n, rv, via, u)
    case PutPolicy(policy, _) => MayProvision(s, n, rv, via, u) && policy == Version(s, n, rv).status.policy
    case CreateKey(_, _) => MayProvision(s, n, rv, via, u) && (u in s.users ==> s.users[u].keys == map[])
    case DeleteKey(_) => MayProvision(s, n, rv, via, u) || MayDeprovision(s, n, rv, via, u)
    case DeletePolicy(policy) => MayDeprovision(s, n, rv, via, u) && policy == Version(s, n, rv).status.policy
    case DeleteUser => MayDeprovision(s, n, rv, via, u)
  }

  /** A target secret is written for a provisionable version, with the annotation naming its owner and without touching
      the mode, and deleted for a deleted one. */
  ghost predicate MayKeep(s: Cluster, n: Name, rv: nat, k: Name, put: SecretOp) {
    && Holds(s, n, rv) && k == Version(s, n, rv).spec.secretRef
    && match put
       case DeleteSecret => Version(s, n, rv).deleted
       case CreateSecret(annotations, data) => MayStore(s, n, rv, annotations, data) && annotations.mode.None?
       case UpdateSecret(version, annotations, data) =>
         && MayStore(s, n, rv, annotations, data)
         && (k in s.secrets && s.secrets[k].version == version ==> annotations.mode == s.secrets[k].annotations.mode)
  }

  ghost predicate MayStore(s: Cluster, n: Name, rv: nat, annotations: Annotations, data: Option<Data>)
    requires Holds(s, n, rv)
  {
    Provisionable(Hist(s, n)[rv]) && annotations.owner == Some(OwnerAnnotation(n)) && PairKept(s.issued, data)
  }

  /** The actuator is called for the version last shown, which does not pass the skip test. */
  ghost predicate MayBegin(s: Cluster, n: Name, rv: nat) {
    Holds(s, n, rv) && rv == SeenAt(s, n) && !SkipTest(Version(s, n, rv), s.now)
  }

  /** Success is reported where the sync of the version in hand had its outcome. */
  ghost predicate MayReport(s: Cluster, n: Name, rv: nat, success: Option<Success>) {
    && Holds(s, n, rv)
    && (success.Some? ==>
          && Provisionable(Hist(s, n)[rv])
          && Outcome(s, success.value.infra, success.value.uuid, n, rv, Version(s, n, rv), success.value.saw))
  }

  ghost predicate MayWrite(s: Cluster, n: Name, rv: nat, op: RequestOp) {
    && Holds(s, n, rv)
    && match op
       case WriteStatus(st) => StatusOK(st) && KeepsName(s, n, rv, st) && KeepsSync(s, n, rv, st)
       case AddFinalizer => !Version(s, n, rv).deleted
       case RemoveFinalizer =>
         && Hist(s, n)[SeenAt(s, n)].value.deleted
         && (IsCurrent(s, n, rv) ==> Cleared(s, Version(s, n, rv)))
  }

  /** The guard of every step. Environment steps are always allowed; operator steps are guarded by what the
      version in hand says, by what the actuator found out about AWS, and by whose client is used. */
  ghost predicate Allowed(s: Cluster, a: Action) {
    match a
    case Env(_) => true
    case DrawName(u) => u !in s.drawn && u !in s.users
    case Read(n, at) => SeenAt(s, n) <= at < |Hist(s, n)|
    case Write(n, rv, op) => MayWrite(s, n, rv, op)
    case Iam(n, rv, via, u, call) => MayCall(s, n, rv, via, u, call)
    case Keep(n, rv, k, put) => MayKeep(s, n, rv, k, put)
    case Begin(n, rv) => MayBegin(s, n, rv)
    case Report(n, rv, success) => MayReport(s, n, rv, success)
  }

  /** Nothing the operator made for this version is left: no user, hence no policy and no key, and no target secret. */
  ghost predicate Cleared(s: Cluster, r: Request) {
    (r.status.user != "" ==> r.status.user !in s.users) && r.spec.secretRef !in s.secrets
  }

  ghost predicate WorksFor(s: Cluster, n: Name, rv: nat, u: string) {
    Holds(s, n, rv) && u != "" && u == Version(s, n, rv).status.user
  }

  // ---- Every step keeps the invariant ----

  lemma EvolvesTrans(a: Request, b: Request, c: Request)
    requires Evolves(a, b) && Evolves(b, c)
    ensures Evolves(a, c)
  {
  }

  /** Appending a version that evolves from the last one, starts a new incarnation, or ends one. */
  lemma HistAppend(h: seq<Option<Request>>, v: Option<Request>)
    requires h != [] && HistOK(h)
    requires v.Some? ==> || (v.value.uid == |h| && h[|h| - 1].None?)
                         || (h[|h| - 1].Some? && Evolves(h[|h| - 1].value, v.value))
    ensures HistOK(h + [v])
  {
    var g := h + [v];
    forall j, k | 0 <= j <= k < |g| && g[k].Some? && g[k].value.uid <= j
      ensures g[j].Some? && Evolves(g[j].value, g[k].value)
    {
      if k < |h| {
        assert g[k] == h[k] && g[j] == h[j];
      } else if j < |h| {
        var last := |h| - 1;
        assert h[last].Some? && h[last].value.uid <= j;
        EvolvesTrans(h[j].value, h[last].value, v.value);
      }
    }
  }

  lemma WatchAppend(h: seq<Option<Request>>, seen: nat, v: Option<Request>)
    requires h != [] && Watch(h, seen) && seen < |h|
    requires || (forall j :: seen <= j < |h| ==> !Provisionable(h[j]))
             || (Guarded(h[|h| - 1]) ==> Guarded(v) && v.value.uid == h[|h| - 1].value.uid)
    ensures Watch(h + [v], seen)
  {
    var g := h + [v];
    forall j, k | seen <= j <= k < |g| && Provisionable(g[j])
      ensures Guarded(g[k]) && g[k].value.uid == g[j].value.uid
    {
      if k < |h| {
        assert g[k] == h[k] && g[j] == h[j];
      } else if j < |h| {
        assert g[j] == h[j] && Provisionable(h[j]);
        assert Guarded(h[|h| - 1]);
      }
    }
  }

  /** What does not touch a request's versions keeps what is known of them. */
  lemma ReqFrame(s: Cluster, t: Cluster, n: Name)
    requires ReqOK(s, n)
    requires Hist(t, n) == Hist(s, n) && SeenAt(t, n) >= SeenAt(s, n) && SeenAt(t, n) < |Hist(s, n)|
    requires s.now <= t.now && s.synced <= t.synced
    requires forall u :: u in s.claims ==> u in t.claims && t.claims[u] == s.claims[u]
    requires n in t.caught ==> (n in s.caught && SeenAt(t, n) == SeenAt(s, n)) || ShownDecides(t, n)
    requires n in t.owed ==> n in s.owed || NothingToSkip(t, n)
    ensures ReqOK(t, n)
  {
  }

  /** The request that got a new version. */
  lemma AppendedOK(s: Cluster, t: Cluster, n: Name, v: Option<Request>)
    requires ReqOK(s, n)
    requires t.history == s.history[n := Hist(s, n) + [v]] && t.seen == s.seen && t.now == s.now
    requires t.synced == s.synced && t.caught == s.caught && t.owed == s.owed
    requires forall u :: u in s.claims ==> u in t.claims && t.claims[u] == s.claims[u]
    requires v.Some? ==>
      && VersionOK(t, n, v.value)
      && (n in s.caught || n in s.owed ==> Expiry(v) <= Expiry(Stored(s, n)))
      && (|| (v.value.uid == |Hist(s, n)| && Stored(s, n).None?)
          || (Stored(s, n).Some? && Evolves(Stored(s, n).value, v.value)))
    requires || (forall j :: SeenAt(s, n) <= j < |Hist(s, n)| ==> !Provisionable(Hist(s, n)[j]))
             || (Guarded(Stored(s, n)) ==> Guarded(v) && v.value.uid == Stored(s, n).value.uid)
    ensures ReqOK(t, n)
  {
    var h := Hist(s, n);
    HistAppend(h, v);
    WatchAppend(h, SeenAt(s, n), v);
    assert Hist(t, n) == h + [v];
    forall j | 0 <= j < |h + [v]| && (h + [v])[j].Some? ensures VersionOK(t, n, (h + [v])[j].value) {
      if j < |h| {
        assert VersionOK(s, n, h[j].value);
      }
    }
    if n in s.caught {
      AppendShownDecides(s, t, n, v);
    }
    if n in s.owed {
      AppendNothingToSkip(s, t, n, v);
    }
  }

  lemma AppendShownDecides(s: Cluster, t: Cluster, n: Name, v: Option<Request>)
    requires SeenAt(s, n) < |Hist(s, n)| && ShownDecides(s, n) && Expiry(v) <= Expiry(Stored(s, n))
    requires Hist(t, n) == Hist(s, n) + [v] && SeenAt(t, n) == SeenAt(s, n) && t.now == s.now
    ensures ShownDecides(t, n)
  {
    var h, g := Hist(s, n), Hist(t, n);
    forall j | SeenAt(s, n) <= j < |g| ensures Expiry(g[j]) <= s.now || Expiry(g[j]) <= Expiry(g[SeenAt(s, n)]) {
      if j < |h| {
        assert g[j] == h[j];
      } else {
        assert Expiry(h[|h| - 1]) <= s.now || Expiry(h[|h| - 1]) <= Expiry(h[SeenAt(s, n)]);
      }
    }
  }

  lemma AppendNothingToSkip(s: Cluster, t: Cluster, n: Name, v: Option<Request>)
    requires SeenAt(s, n) < |Hist(s, n)| && NothingToSkip(s, n) && Expiry(v) <= Expiry(Stored(s, n))
    requires Hist(t, n) == Hist(s, n) + [v] && SeenAt(t, n) == SeenAt(s, n) && t.now == s.now
    ensures NothingToSkip(t, n)
  {
    var h, g := Hist(s, n), Hist(t, n);
    forall j | SeenAt(s, n) <= j < |g| && g[j].Some? ensures !SkipTest(g[j].value, t.now) {
      if j < |h| {
        assert g[j] == h[j];
      }
    }
  }

  /** A new version of one request. */
  lemma AppendKeeps(s: Cluster, t: Cluster, n: Name, v: Option<Request>)
    requires forall m :: ReqOK(s, m)
    requires t.history == s.history[n := Hist(s, n) + [v]] && t.seen == s.seen && t.now == s.now
    requires t.synced == s.synced && t.caught == s.caught && t.owed == s.owed
    requires forall u :: u in s.claims ==> u in t.claims && t.claims[u] == s.claims[u]
    requires v.Some? ==>
      && VersionOK(t, n, v.value)
      && (n in s.caught || n in s.owed ==> Expiry(v) <= Expiry(Stored(s, n)))
      && (|| (v.value.uid == |Hist(s, n)| && Stored(s, n).None?)
          || (Stored(s, n).Some? && Evolves(Stored(s, n).value, v.value)))
    requires || (forall j :: SeenAt(s, n) <= j < |Hist(s, n)| ==> !Provisionable(Hist(s, n)[j]))
             || (Guarded(Stored(s, n)) ==> Guarded(v) && v.value.uid == Stored(s, n).value.uid)
    ensures forall m :: ReqOK(t, m)
  {
    AppendedOK(s, t, n, v);
    forall m ensures ReqOK(t, m) {
      if m != n {
        ReqFrame(s, t, m);
      }
    }
  }

  /** Users stay owned when a new version keeps the finalizer and the name. */
  lemma AppendOwned(s: Cluster, t: Cluster, n: Name, v: Option<Request>)
    requires IamOK(s)
    requires t.history == s.history[n := Hist(s, n) + [v]]
    requires t.users == s.users && t.drawn == s.drawn && t.minted == s.minted && t.issued == s.issued
    requires t.claims.Keys <= s.drawn && "" !in t.claims
    requires forall u :: u in s.claims ==> u in t.claims && t.claims[u] == s.claims[u]
    requires Guarded(Stored(s, n)) && Stored(s, n).value.status.user in s.users
             && Stored(s, n).value.status.user in s.claims ==>
      Guarded(v) && v.value.uid == Stored(s, n).value.uid && v.value.status.user == Stored(s, n).value.status.user
    ensures IamOK(t)
  {
    assert Stored(t, n) == v;
    forall u | u in t.users && u in t.drawn ensures UserOK(t, u) {
      assert UserOK(s, u);
      if s.claims[u].n != n {
        assert Stored(t, s.claims[u].n) == Stored(s, s.claims[u].n);
      }
    }
  }

  /** A version made by the environment: same status, same uid, and it keeps the operator's finalizer. */
  lemma EnvVersionKeeps(s: Cluster, n: Name, r: Request)
    requires Inv(s) && Stored(s, n).Some?
    requires Evolves(Stored(s, n).value, r) && r.status == Stored(s, n).value.status
    requires Deprovision in r.finalizers <==> Deprovision in Stored(s, n).value.finalizers
    requires r.generation == Stored(s, n).value.generation || r.generation == Stored(s, n).value.generation + 1
    ensures Inv(Append(s, n, Finish(r))) && Inv(Append(s, n, Some(r)))
  {
    var r0 := Stored(s, n).value;
    assert ReqOK(s, n);
    assert VersionOK(s, n, r0);
    var h := Hist(s, n);
    assert h[|h| - 1] == Some(r0);
    var vs := [Finish(r), Some(r)];
    forall v | v in vs ensures Inv(Append(s, n, v)) {
      var t := Append(s, n, v);
      assert v.Some? ==> VersionOK(t, n, v.value) && Expiry(v) <= Expiry(Stored(s, n));
      AppendKeeps(s, t, n, v);
      AppendOwned(s, t, n, v);
    }
    assert vs[0] in vs && vs[1] in vs;
  }

  /** Steps that leave all requests and all drawn users alone. */
  lemma OutsideKeeps(s: Cluster, t: Cluster)
    requires Inv(s)
    requires t.history == s.history && t.seen == s.seen && t.drawn == s.drawn && t.claims == s.claims
    requires t.minted == s.minted && t.issued == s.issued && t.synced == s.synced && t.caught == s.caught
    requires t.owed == s.owed
    requires s.now <= t.now
    requires forall u :: u in s.drawn ==>
      (u in t.users <==> u in s.users) && (u in t.users ==> t.users[u] == s.users[u])
    requires forall k :: k in t.secrets ==>
      PairKept(s.issued, t.secrets[k].data) && t.secrets[k].version < t.nextVersion
    ensures Inv(t)
  {
    forall n ensures ReqOK(t, n) {
      ReqFrame(s, t, n);
    }
    forall u | u in t.users && u in t.drawn ensures UserOK(t, u) {
      assert UserOK(s, u);
    }
  }

  lemma SubmitKeeps(s: Cluster, n: Name, spec: Spec, fs: set<Finalizer>)
    requires Inv(s) && Stored(s, n).None?
    ensures Inv(Append(s, n, Some(Request(|Hist(s, n)|, 1, false, fs, spec, EMPTY_STATUS))))
  {
    assert ReqOK(s, n);
    var r := Request(|Hist(s, n)|, 1, false, fs, spec, EMPTY_STATUS);
    var t := Append(s, n, Some(r));
    AppendKeeps(s, t, n, Some(r));
    AppendOwned(s, t, n, Some(r));
  }

  /** The version the environment makes of r before a finished object goes away. */
  ghost function EnvEdit(r: Request, e: EnvAction): Request {
    match e
    case Edit(_, spec) => r.(spec := spec, generation := r.generation + 1)
    case MarkDeleted(_) => r.(deleted := true, generation := r.generation + 1)
    case AddForeignFinalizer(_, f) => r.(finalizers := r.finalizers + {Foreign(f)})
    case DropForeignFinalizer(_, f) => r.(finalizers := r.finalizers - {Foreign(f)})
    case _ => r
  }

  lemma EnvEditShape(h: seq<Option<Request>>, e: EnvAction)
    requires OnRequest(e) && h != [] && h[|h| - 1].Some? && EnvVersion(h, e).Some?
    ensures var r := h[|h| - 1].value;
      && Evolves(r, EnvEdit(r, e)) && EnvEdit(r, e).status == r.status
      && (Deprovision in EnvEdit(r, e).finalizers <==> Deprovision in r.finalizers)
      && r.generation <= EnvEdit(r, e).generation <= r.generation + 1
      && (EnvVersion(h, e).value == Finish(EnvEdit(r, e)) || EnvVersion(h, e).value == Some(EnvEdit(r, e)))
  {
  }

  /** An environment step on one request. */
  lemma EnvRequestKeeps(s: Cluster, e: EnvAction)
    requires OnRequest(e) && Inv(s)
    ensures Inv(EnvApply(s, e))
  {
    assert ReqOK(s, e.n);
    if EnvVersion(Hist(s, e.n), e).Some? {
      if Stored(s, e.n).None? {
        SubmitKeeps(s, e.n, e.spec, e.finalizers);
      } else {
        EnvEditShape(Hist(s, e.n), e);
        EnvVersionKeeps(s, e.n, EnvEdit(Stored(s, e.n).value, e));
      }
    }
  }

  lemma SecretWriteKeeps(s: Cluster, k: Name, annotations: Annotations, data: Option<Data>)
    requires Inv(s) && PairKept(s.issued, data)
    ensures Inv(StoreSecret(s, k, annotations, data))
  {
    OutsideKeeps(s, StoreSecret(s, k, annotations, data));
  }

  lemma ForeignUserKeeps(s: Cluster, u: string, user: Option<User>)
    requires Inv(s) && u !in s.drawn
    ensures Inv(s.(users := if user.Some? then s.users[u := user.value] else s.users - {u}))
  {
    OutsideKeeps(s, s.(users := if user.Some? then s.users[u := user.value] else s.users - {u}));
  }

  lemma EnvKeepsInv(s: Cluster, e: EnvAction)
    requires Inv(s)
    ensures Inv(EnvApply(s, e))
  {
    if OnRequest(e) {
      EnvRequestKeeps(s, e);
    } else if e.PutSecret? {
      if PairKept(s.issued, e.data) {
        SecretWriteKeeps(s, e.k, e.annotations, e.data);
      }
    } else if e.SetForeignUser? {
      if e.u !in s.drawn {
        ForeignUserKeeps(s, e.u, e.user);
      }
    } else {
      OutsideKeeps(s, EnvApply(s, e));
    }
  }

  // ---- Operator steps ----

  /** The version a status write stores is well formed and evolves from the one it replaces. */
  lemma StatusWriteVersion(s: Cluster, n: Name, rv: nat, st: Status)
    requires Inv(s) && MayWrite(s, n, rv, WriteStatus(st)) && IsCurrent(s, n, rv)
    ensures Stored(s, n).Some?
    ensures var r := Stored(s, n).value; Evolves(r, r.(status := st))
    ensures var t := WriteApply(s, n, rv, WriteStatus(st));
      && VersionOK(t, n, Stored(s, n).value.(status := st))
      && t.claims.Keys <= s.drawn && "" !in t.claims
      && t == Append(s, n, Some(Stored(s, n).value.(status := st))).(claims := t.claims)
      && (forall u :: u in s.claims ==> u in t.claims && t.claims[u] == s.claims[u])
    ensures Stored(s, n).value.status.user in s.claims ==> st.user == Stored(s, n).value.status.user
  {
    assert ReqOK(s, n);
    assert VersionOK(s, n, Stored(s, n).value);
  }

  /** A status write does not make a request skippable whose sync is owed or may yet be found to be. */
  lemma StatusWriteOwed(s: Cluster, n: Name, rv: nat, st: Status)
    requires MayWrite(s, n, rv, WriteStatus(st)) && IsCurrent(s, n, rv) && (n in s.caught || n in s.owed)
    ensures Expiry(Some(Stored(s, n).value.(status := st))) <= Expiry(Stored(s, n))
  {
  }

  lemma StatusWriteKeeps(s: Cluster, n: Name, rv: nat, st: Status)
    requires Inv(s) && MayWrite(s, n, rv, WriteStatus(st))
    ensures Inv(WriteApply(s, n, rv, WriteStatus(st)))
  {
    var t := WriteApply(s, n, rv, WriteStatus(st));
    if IsCurrent(s, n, rv) {
      StatusWriteVersion(s, n, rv, st);
      if n in s.caught || n in s.owed {
        StatusWriteOwed(s, n, rv, st);
      }
      var v := Some(Stored(s, n).value.(status := st));
      AppendKeeps(s, t, n, v);
      AppendOwned(s, t, n, v);
    }
  }

  lemma AddFinalizerKeeps(s: Cluster, n: Name, rv: nat)
    requires Inv(s) && Holds(s, n, rv)
    ensures Inv(WriteApply(s, n, rv, AddFinalizer))
  {
    var t := WriteApply(s, n, rv, AddFinalizer);
    if IsCurrent(s, n, rv) {
      assert ReqOK(s, n);
      var r := Stored(s, n).value;
      assert VersionOK(s, n, r);
      var v := r.(finalizers := r.finalizers + {Deprovision});
      assert VersionOK(t, n, v);
      assert Expiry(Some(v)) <= Expiry(Stored(s, n));
      AppendKeeps(s, t, n, Some(v));
      AppendOwned(s, t, n, Some(v));
    }
  }

  /** Once the worker was shown a deleted version, so are all versions of that object it may still be shown. */
  lemma ShownDeleted(s: Cluster, n: Name, rv: nat)
    requires Inv(s) && Holds(s, n, rv) && IsCurrent(s, n, rv) && Hist(s, n)[SeenAt(s, n)].value.deleted
    ensures forall j :: SeenAt(s, n) <= j < |Hist(s, n)| ==> Hist(s, n)[j].Some? && Hist(s, n)[j].value.deleted
  {
    var h, seen := Hist(s, n), SeenAt(s, n);
    assert ReqOK(s, n);
    forall j | seen <= j < |h| ensures h[j].Some? && h[j].value.deleted {
      assert h[seen].value.uid <= seen;
      assert Evolves(h[j].value, h[rv].value);
      assert Evolves(h[seen].value, h[j].value);
    }
  }

  lemma RemoveFinalizerKeeps(s: Cluster, n: Name, rv: nat)
    requires Inv(s) && MayWrite(s, n, rv, RemoveFinalizer)
    ensures Inv(WriteApply(s, n, rv, RemoveFinalizer))
  {
    var t := WriteApply(s, n, rv, RemoveFinalizer);
    if IsCurrent(s, n, rv) {
      ShownDeleted(s, n, rv);
      var r := Stored(s, n).value;
      var v := Finish(r.(finalizers := r.finalizers - {Deprovision}));
      assert v.Some? ==> VersionOK(t, n, v.value) by {
        assert ReqOK(s, n);
        assert VersionOK(s, n, r);
      }
      assert v.Some? ==> Expiry(v) <= Expiry(Stored(s, n));
      AppendKeeps(s, t, n, v);
      AppendOwned(s, t, n, v);
    }
  }

  /** A provisionable version in hand proves that its user name is still recorded under the finalizer. */
  lemma EvidenceIsCurrent(s: Cluster, n: Name, rv: nat, u: string)
    requires Inv(s) && WorksFor(s, n, rv, u) && Provisionable(Hist(s, n)[rv])
    ensures u in s.claims && s.claims[u] == Claim(n, Version(s, n, rv).uid) && Owned(s, u)
  {
    var h := Hist(s, n);
    assert ReqOK(s, n);
    assert VersionOK(s, n, h[rv].value);
    var last := |h| - 1;
    assert Guarded(h[last]) && h[last].value.uid == h[rv].value.uid;
    assert h[last].value.uid <= rv;
    assert Evolves(h[rv].value, h[last].value);
  }

  /** The name in hand was drawn and claimed, with the policy name derived from it. */
  lemma NamedUser(s: Cluster, n: Name, rv: nat, u: string)
    requires Inv(s) && WorksFor(s, n, rv, u)
    ensures u in s.drawn && u in s.claims && s.claims[u] == Claim(n, Version(s, n, rv).uid)
    ensures Version(s, n, rv).status.policy == PolicyName(u)
    ensures u in s.users ==> UserOK(s, u)
  {
    assert ReqOK(s, n);
    assert VersionOK(s, n, Hist(s, n)[rv].value);
  }

  /** A change to the users alone. */
  lemma UsersKeep(s: Cluster, t: Cluster)
    requires Inv(s)
    requires t == s.(users := t.users, minted := t.minted, issued := t.issued)
    requires t.minted <= s.claims.Keys
    requires forall u :: u in t.users && u in t.drawn ==> UserOK(t, u)
    requires SecretsOK(t)
    ensures Inv(t)
  {
    forall n ensures ReqOK(t, n) {
      ReqFrame(s, t, n);
    }
  }

  /** A user that is not touched. */
  lemma OtherUserOK(s: Cluster, t: Cluster, v: string)
    requires v in s.users && v in t.users && t.users[v] == s.users[v] && UserOK(s, v)
    requires t.history == s.history && t.claims == s.claims && s.minted <= t.minted
    requires forall id :: id in s.issued ==> id in t.issued && t.issued[id] == s.issued[id]
    ensures UserOK(t, v)
  {
    assert Stored(t, s.claims[v].n) == Stored(s, s.claims[v].n);
  }

  /** A change to one user. */
  lemma OneUserKeeps(s: Cluster, t: Cluster, u: string)
    requires Inv(s) && t == s.(users := t.users, minted := t.minted, issued := t.issued)
    requires s.minted <= t.minted <= s.claims.Keys && SecretsOK(t)
    requires forall v :: v in t.users && v != u ==> v in s.users && t.users[v] == s.users[v]
    requires forall id :: id in s.issued ==> id in t.issued && t.issued[id] == s.issued[id]
    requires u in t.users && u in t.drawn ==> UserOK(t, u)
    ensures Inv(t)
  {
    forall v | v in t.users && v in t.drawn ensures UserOK(t, v) {
      if v != u {
        OtherUserOK(s, t, v);
      }
    }
    UsersKeep(s, t);
  }

  lemma CreatedUserOK(s: Cluster, n: Name, rv: nat, u: string)
    requires Inv(s) && MayProvision(s, n, rv, Root, u) && u !in s.users
    ensures var t := IamApply(s, u, CreateUser); u in t.users && UserOK(t, u) && s.minted <= t.minted <= s.claims.Keys
  {
    EvidenceIsCurrent(s, n, rv, u);
    var t := IamApply(s, u, CreateUser);
    assert Stored(t, s.claims[u].n) == Stored(s, s.claims[u].n);
  }

  lemma CreateUserKeeps(s: Cluster, n: Name, rv: nat, u: string)
    requires Inv(s) && MayProvision(s, n, rv, Root, u)
    ensures Inv(IamApply(s, u, CreateUser))
  {
    if u !in s.users {
      CreatedUserOK(s, n, rv, u);
      OneUserKeeps(s, IamApply(s, u, CreateUser), u);
    }
  }

  /** A change to one existing user that keeps its own part of the invariant. */
  lemma EditUserKeeps(s: Cluster, u: string, user: User, issued: map<string, string>)
    requires Inv(s) && u in s.users
    requires |user.keys| <= 1
    requires user.policies.Keys <= s.users[u].policies.Keys + {PolicyName(u)}
    requires forall id :: id in s.issued ==> id in issued && issued[id] == s.issued[id]
    requires forall id :: id in user.keys ==> id in issued && issued[id] == user.keys[id]
    requires forall k :: k in s.secrets ==> PairKept(issued, s.secrets[k].data)
    ensures Inv(WithUser(s, u, user).(issued := issued))
  {
    var t := WithUser(s, u, user).(issued := issued);
    if u in s.drawn {
      assert UserOK(s, u);
      assert Stored(t, s.claims[u].n) == Stored(s, s.claims[u].n);
    }
    OneUserKeeps(s, t, u);
  }

  lemma CreateKeyKeeps(s: Cluster, u: string, id: string, secret: string)
    requires Inv(s) && u in s.drawn && (u in s.users ==> s.users[u].keys == map[])
    ensures Inv(IamApply(s, u, CreateKey(id, secret)))
  {
    if MayIssue(s, u, id, secret) {
      assert UserOK(s, u);
      var user := EditUser(s.users[u], CreateKey(id, secret));
      assert user.keys == map[id := secret];
      EditUserKeeps(s, u, user, s.issued[id := secret]);
    }
  }

  lemma DeleteUserKeeps(s: Cluster, u: string)
    requires Inv(s)
    ensures Inv(IamApply(s, u, DeleteUser))
  {
    if Deletable(s, u) {
      OneUserKeeps(s, s.(users := s.users - {u}), u);
    }
  }

  /** The edits of an existing user that neither create nor delete anything but tags, the policy and keys. */
  lemma EditKeeps(s: Cluster, u: string, call: UserOp)
    requires Inv(s) && u in s.drawn && u in s.users
    requires call.TagUser? || (call.PutPolicy? && call.policy == PolicyName(u)) || call.DeletePolicy? || call.DeleteKey?
    ensures Inv(IamApply(s, u, call))
  {
    assert UserOK(s, u);
    var user := EditUser(s.users[u], call);
    assert |user.keys| <= 1 by {
      if call.DeleteKey? {
        assert user.keys.Keys == s.users[u].keys.Keys - {call.id};
      }
    }
    assert user.policies.Keys <= s.users[u].policies.Keys + {PolicyName(u)};
    EditUserKeeps(s, u, user, s.issued);
  }

  /** A read that is caught up with the last sync decides for all newer versions. */
  lemma CaughtUpDecides(s: Cluster, t: Cluster, n: Name, at: nat)
    requires at < |Hist(s, n)| && NoNewerSync(s, n, at) && Hist(t, n) == Hist(s, n) && SeenAt(t, n) == at
    requires t.now == s.now
    ensures ShownDecides(t, n)
  {
  }

  lemma ReadKeeps(s: Cluster, n: Name, at: nat)
    requires Inv(s) && SeenAt(s, n) <= at < |Hist(s, n)|
    ensures Inv(ReadApply(s, n, at))
  {
    var t := ReadApply(s, n, at);
    if NoNewerSync(s, n, at) {
      CaughtUpDecides(s, t, n, at);
    }
    forall m ensures ReqOK(t, m) {
      assert ReqOK(s, m);
      ReqFrame(s, t, m);
    }
    assert IamOK(t) by {
      forall u | u in t.users && u in t.drawn ensures UserOK(t, u) {
        assert UserOK(s, u);
        assert Owned(t, u);
      }
    }
  }

  lemma RecordKeeps(s: Cluster, t: Cluster)
    requires Inv(s)
    requires t == s.(drawn := t.drawn, synced := t.synced, caught := t.caught, owed := t.owed)
    requires s.drawn <= t.drawn && (forall u :: u in t.drawn && u !in s.drawn ==> u !in s.users)
    requires s.synced <= t.synced && t.caught <= s.caught
    requires forall n :: n in t.owed ==> n in s.owed || NothingToSkip(s, n)
    ensures Inv(t)
  {
    forall m ensures ReqOK(t, m) {
      assert NothingToSkip(t, m) == NothingToSkip(s, m);
      ReqFrame(s, t, m);
    }
    assert IamOK(t) by {
      forall u | u in t.users && u in t.drawn ensures UserOK(t, u) {
        assert UserOK(s, u);
        assert Owned(t, u);
      }
    }
  }

  /** Every allowed step on a user keeps the invariant. */
  lemma CloudStepKeeps(s: Cluster, n: Name, rv: nat, u: string, call: UserOp)
    requires Inv(s) && MayCall(s, n, rv, Root, u, call)
    ensures Inv(IamApply(s, u, call))
  {
    NamedUser(s, n, rv, u);
    match call
    case CreateUser => CreateUserKeeps(s, n, rv, u);
    case CreateKey(id, secret) => CreateKeyKeeps(s, u, id, secret);
    case DeleteUser => DeleteUserKeeps(s, u);
    case _ =>
      if u in s.users {
        EditKeeps(s, u, call);
      }
  }

  lemma SecretStepKeeps(s: Cluster, n: Name, rv: nat, k: Name, put: SecretOp)
    requires Inv(s) && MayKeep(s, n, rv, k, put)
    ensures Inv(SecretApply(s, k, put))
  {
    if put.DeleteSecret? {
      OutsideKeeps(s, s.(secrets := s.secrets - {k}));
    } else {
      SecretWriteKeeps(s, k, put.annotations, put.data);
    }
  }

  lemma WriteStepKeeps(s: Cluster, n: Name, rv: nat, op: RequestOp)
    requires Inv(s) && MayWrite(s, n, rv, op)
    ensures Inv(WriteApply(s, n, rv, op))
  {
    match op
    case WriteStatus(st) => StatusWriteKeeps(s, n, rv, st);
    case AddFinalizer => AddFinalizerKeeps(s, n, rv);
    case RemoveFinalizer => RemoveFinalizerKeeps(s, n, rv);
  }

  /** Every allowed step keeps the invariant. */
  lemma StepKeepsInv(s: Cluster, a: Action)
    requires Inv(s) && Allowed(s, a)
    ensures Inv(Apply(s, a))
  {
    match a
    case Env(e) => EnvKeepsInv(s, e);
    case DrawName(_) => RecordKeeps(s, Apply(s, a));
    case Read(n, at) => ReadKeeps(s, n, at);
    case Write(n, rv, op) => WriteStepKeeps(s, n, rv, op);
    case Iam(n, rv, _, u, call) => CloudStepKeeps(s, n, rv, u, call);
    case Keep(n, rv, k, put) => SecretStepKeeps(s, n, rv, k, put);
    case Begin(n, _) => RecordKeeps(s, BeginApply(s, n));
    case Report(n, rv, success) => RecordKeeps(s, ReportApply(s, n, rv, success));
  }
}
