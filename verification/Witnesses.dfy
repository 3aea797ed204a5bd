/** Concrete runs that show where the assumptions are needed and where the operator falls short. Each run consists of
    the steps that reconciles of one request make, from a cluster that has root credentials; a call that is refused
    without effect makes no step. */
module Witnesses {
  import opened Wrappers
  import opened Naming
  import opened Store
  import opened Goals
  import opened Protocol
  import opened Runs
  import opened Actuator

  const CR := Name("operators", "registry")
  const TARGET := Name("registry", "cloud-creds")
  const SPEC := Spec(TARGET, Some([]))

  // The names drawn by successive reconciles.
  const U1 := "cluster-registry-aaaaa"
  const U2 := "cluster-registry-bbbbb"
  const U3 := "cluster-registry-ccccc"
  const U4 := "cluster-registry-ddddd"

  lemma DifferentNames()
    ensures U1 != U2 && U1 != U3 && U1 != U4 && U2 != U3 && U2 != U4 && U3 != U4 && |U2| == 22
  {
    assert U1[17] == 'a' && U2[17] == 'b' && U3[17] == 'c' && U4[17] == 'd';
  }

  function RootSecret(mode: Mode): Secret {
    Secret(0, Annotations(None, None, Some(mode), map[]), Some(Data(Some("root-id"), Some("root-secret"), map[])))
  }

  /** A secret that is where the target is to be, with or without a Data map. */
  function OldSecret(data: Option<Data>): Secret {
    Secret(0, Annotations(None, None, None, map[]), data)
  }

  const NO_KEYS := Data(None, None, map[])

  /** A cluster with root credentials of this mode and no request yet. */
  function Start(mode: Mode): Cluster {
    Cluster(map[], map[], {"registry"}, map[ROOT_CREDS := RootSecret(mode)], 1, map[], 0,
            {}, map[], {}, map[], {}, {}, {})
  }

  function StartWith(mode: Mode, target: Secret): Cluster {
    Start(mode).(secrets := map[ROOT_CREDS := RootSecret(mode), TARGET := target])
  }

  ghost predicate Ready(s0: Cluster) {
    && Initial(s0) && s0.namespaces == {"registry"} && s0.users == map[] && s0.now == 0
  }

  // ---- States, told by what happened to the request ----

  ghost function State(s0: Cluster, h: seq<Option<Request>>, seen: nat, drawn: set<string>, claims: map<string, Claim>,
                       caught: set<Name>, owed: set<Name>): Cluster
  {
    s0.(history := map[CR := h], seen := map[CR := seen], drawn := drawn, claims := claims,
        caught := caught, owed := owed)
  }

  /** The start of a reconcile: a name is drawn and a version is shown. */
  lemma Show(s0: Cluster, acts: seq<Action>, h: seq<Option<Request>>, seen: nat, drawn: set<string>,
             claims: map<string, Claim>,
             caught: set<Name>, owed: set<Name>, u: string, at: nat)
    requires Run(s0, acts) && Ready(s0) && Exec(s0, acts) == State(s0, h, seen, drawn, claims, caught, owed)
    requires u !in drawn && seen <= at < |h|
    ensures Run(s0, acts + [DrawName(u)] + [Read(CR, at)])
    ensures Exec(s0, acts + [DrawName(u)] + [Read(CR, at)]) ==
            State(s0, h, at, drawn + {u}, claims,
                  if NoNewerSync(Exec(s0, acts), CR, at) then caught + {CR} else caught - {CR}, owed)
  {
    var s := Exec(s0, acts);
    Extend(s0, acts, DrawName(u));
    var t := Exec(s0, acts + [DrawName(u)]);
    assert Hist(t, CR) == h && Hist(s, CR) == h && SeenAt(t, CR) == seen;
    Extend(s0, acts + [DrawName(u)], Read(CR, at));
    assert t.seen[CR := at] == map[CR := at];
  }

  const SUBMITTED := Request(1, 1, false, {}, SPEC, EMPTY_STATUS)
  const ADOPTED := SUBMITTED.(finalizers := {Deprovision})
  const NAMED := ADOPTED.(status := EMPTY_STATUS.(user := U2, policy := PolicyName(U2)))
  const SYNCED :=
    ADOPTED.(status := EMPTY_STATUS.(provisioned := true, lastSyncTime := Some(0), lastSyncGeneration := 1))

  const SUBMIT := [Env(Submit(CR, SPEC, {}))]
  const ADOPT := SUBMIT + [DrawName(U1)] + [Read(CR, 1)] + [Write(CR, 1, AddFinalizer)]

  lemma SubmittedRun(s0: Cluster)
    requires Ready(s0)
    ensures Run(s0, SUBMIT)
    ensures Exec(s0, SUBMIT) == s0.(history := map[CR := [None, Some(SUBMITTED)]])
  {
    assert Run(s0, []);
    Extend(s0, [], SUBMIT[0]);
    assert [] + [SUBMIT[0]] == SUBMIT;
    assert Hist(s0, CR) + [Some(SUBMITTED)] == [None, Some(SUBMITTED)];
  }

  /** The request is submitted and the first reconcile adds the finalizer. */
  lemma AdoptedRun(s0: Cluster)
    requires Ready(s0)
    ensures Run(s0, ADOPT)
    ensures Exec(s0, ADOPT) == State(s0, [None, Some(SUBMITTED), Some(ADOPTED)], 1, {U1}, map[], {CR}, {})
  {
    SubmittedRun(s0);
    var h := [None, Some(SUBMITTED)];
    Extend(s0, SUBMIT, DrawName(U1));
    var drawn := SUBMIT + [DrawName(U1)];
    assert Hist(Exec(s0, drawn), CR) == h;
    Extend(s0, drawn, Read(CR, 1));
    var s := Exec(s0, drawn + [Read(CR, 1)]);
    assert s.seen == map[CR := 1] && s.caught == {CR} && s.drawn == {U1} && Hist(s, CR) == h;
    Extend(s0, drawn + [Read(CR, 1)], Write(CR, 1, AddFinalizer));
    var t := Exec(s0, ADOPT);
    assert SUBMITTED.finalizers + {Deprovision} == {Deprovision};
    assert h + [Some(ADOPTED)] == [None, Some(SUBMITTED), Some(ADOPTED)];
    assert t.history == map[CR := [None, Some(SUBMITTED), Some(ADOPTED)]];
  }

  const CALLED := ADOPT + [DrawName(U2)] + [Read(CR, 2)] + [Begin(CR, 2)]

  /** The second reconcile calls the actuator. */
  lemma CalledRun(s0: Cluster)
    requires Ready(s0)
    ensures Run(s0, CALLED)
    ensures Exec(s0, CALLED) == State(s0, [None, Some(SUBMITTED), Some(ADOPTED)], 2, {U1, U2}, map[], {CR}, {CR})
  {
    AdoptedRun(s0);
    DifferentNames();
    var h := [None, Some(SUBMITTED), Some(ADOPTED)];
    Show(s0, ADOPT, h, 1, {U1}, map[], {CR}, {}, U2, 2);
    var shown := ADOPT + [DrawName(U2)] + [Read(CR, 2)];
    var s := Exec(s0, shown);
    assert Hist(s, CR) == h && SeenAt(s, CR) == 2;
    assert {U1} + {U2} == {U1, U2} && {CR} + {CR} == {CR};
    Extend(s0, shown, Begin(CR, 2));
    assert NothingToSkip(s, CR);
    assert {} + {CR} == {CR};
  }

  const PERSISTED := CALLED + [Write(CR, 2, WriteStatus(NAMED.status))]

  ghost function Persisted(s0: Cluster): Cluster {
    State(s0, [None, Some(SUBMITTED), Some(ADOPTED), Some(NAMED)], 2, {U1, U2}, map[U2 := Claim(CR, 1)], {CR}, {CR})
  }

  /** ... and, in mint mode, the user name is persisted. */
  lemma PersistedRun(s0: Cluster)
    requires Ready(s0)
    ensures Run(s0, PERSISTED) && Exec(s0, PERSISTED) == Persisted(s0)
  {
    CalledRun(s0);
    PersistStep(s0);
    Extend(s0, CALLED, Write(CR, 2, WriteStatus(NAMED.status)));
  }

  lemma PersistStep(s0: Cluster)
    requires Ready(s0)
    ensures var s := State(s0, [None, Some(SUBMITTED), Some(ADOPTED)], 2, {U1, U2}, map[], {CR}, {CR});
      && MayWrite(s, CR, 2, WriteStatus(NAMED.status))
      && WriteApply(s, CR, 2, WriteStatus(NAMED.status)) == Persisted(s0)
  {
    DifferentNames();
    var h := [None, Some(SUBMITTED), Some(ADOPTED)];
    var s := State(s0, h, 2, {U1, U2}, map[], {CR}, {CR});
    assert Hist(s, CR) == h;
    assert MayClaim(s, U2);
    assert StatusOK(NAMED.status);
    var t := WriteApply(s, CR, 2, WriteStatus(NAMED.status));
    assert h + [Some(NAMED)] == [None, Some(SUBMITTED), Some(ADOPTED), Some(NAMED)];
    assert t.history == map[CR := [None, Some(SUBMITTED), Some(ADOPTED), Some(NAMED)]];
    assert t.claims == map[U2 := Claim(CR, 1)];
  }

  // ---- Recovery is not always possible ----

  /** Everything a fault-free mint reconcile of n needs is there. */
  ghost predicate DueForMint(s: Cluster, n: Name, keyId: string, keySecret: string) {
    && Provisionable(Stored(s, n)) && Stored(s, n).value.spec.secretRef.ns in s.namespaces
    && !SkipTest(Stored(s, n).value, s.now)
    && MintClear(s, Stored(s, n).value, keyId, keySecret)
  }

  lemma ReadyWith(mode: Mode, target: Secret)
    requires target.version == 0
    ensures Ready(Start(mode)) && Ready(StartWith(mode, target))
  {
  }

  /** The root credentials serve for a mint. */
  lemma ClearForMint(s: Cluster, r: Request)
    requires ROOT_CREDS in s.secrets && s.secrets[ROOT_CREDS] == RootSecret(Mint) && RO_CREDS !in s.secrets
    requires r.spec == SPEC
    requires s.issued == map[] && forall k :: k in s.secrets && k != ROOT_CREDS ==> KeyId(s.secrets[k].data) == ""
    ensures MintClear(s, r, "new-id", "new-secret")
  {
    assert |"root-id"| == 7 && |"new-id"| == 6 && |RO_CREDS.ns| != |TARGET.ns|;
    assert CredsIn(s, ROOT_CREDS) == Some(("root-id", "root-secret"));
    forall k | k in s.secrets && s.secrets[k].data.Some? ensures s.secrets[k].data.value.id != Some("new-id") {
    }
  }

  /** A run reaches a live request with a recorded user and an existing target secret whose user does not exist: the
      secret was there before the request, and the call that creates the user was refused. Everything a mint needs is
      there, and yet every fault-free reconcile fails (Reconcile). */
  lemma StuckIsReachable() returns (s0: Cluster, acts: seq<Action>)
    ensures Run(s0, acts) && DueForMint(Exec(s0, acts), CR, "new-id", "new-secret")
    ensures Stuck(Exec(s0, acts), Stored(Exec(s0, acts), CR).value)
  {
    s0 := StartWith(Mint, OldSecret(Some(NO_KEYS)));
    ReadyWith(Mint, OldSecret(Some(NO_KEYS)));
    PersistedRun(s0);
    Extend(s0, PERSISTED, Report(CR, 3, None));
    acts := PERSISTED + [Report(CR, 3, None)];
    StuckThere(s0);
    assert Exec(s0, acts) == Persisted(s0);
  }

  lemma StuckThere(s0: Cluster)
    requires s0 == StartWith(Mint, OldSecret(Some(NO_KEYS)))
    ensures DueForMint(Persisted(s0), CR, "new-id", "new-secret")
    ensures Stuck(Persisted(s0), Stored(Persisted(s0), CR).value)
  {
    var s := Persisted(s0);
    assert Stored(s, CR) == Some(NAMED);
    assert |RO_CREDS.ns| != |TARGET.ns| && |RO_CREDS.ns| != |ROOT_CREDS.ns|;
    ClearForMint(s, NAMED);
  }

  /** A run reaches a live request that is not stuck and whose target secret has a nil Data map, with everything a
      mint needs: the next fault-free reconcile panics (Reconcile). */
  lemma NilDataIsReachable() returns (s0: Cluster, acts: seq<Action>)
    ensures Run(s0, acts) && DueForMint(Exec(s0, acts), CR, "new-id", "new-secret")
    ensures var s := Exec(s0, acts); !Stuck(s, Stored(s, CR).value) && NilTarget(s, Stored(s, CR).value)
  {
    acts := ADOPT;
    s0 := StartWith(Mint, OldSecret(None));
    ReadyWith(Mint, OldSecret(None));
    AdoptedRun(s0);
    var s := Exec(s0, ADOPT);
    assert Stored(s, CR) == Some(ADOPTED);
    assert |RO_CREDS.ns| != |TARGET.ns| && |RO_CREDS.ns| != |ROOT_CREDS.ns|;
    ClearForMint(s, ADOPTED);
  }

  // ---- Why cached reads must not go backwards ----

  /** Like Legal, but a read may return any version at all. */
  ghost predicate LegalUnordered(s: Cluster, acts: seq<Action>) {
    acts == [] ||
    var before, last := acts[..|acts| - 1], acts[|acts| - 1];
    && LegalUnordered(s, before) && Justified(s, before, last)
    && (Allowed(Exec(s, before), last) || (last.Read? && last.at < |Hist(Exec(s, before), last.n)|))
  }

  lemma ExtendUnordered(s0: Cluster, acts: seq<Action>, a: Action)
    requires LegalUnordered(s0, acts) && Justified(s0, acts, a)
    requires Allowed(Exec(s0, acts), a) || (a.Read? && a.at < |Hist(Exec(s0, acts), a.n)|)
    ensures LegalUnordered(s0, acts + [a]) && Exec(s0, acts + [a]) == Apply(Exec(s0, acts), a)
  {
    var more := acts + [a];
    assert more[..|more| - 1] == acts && more[|more| - 1] == a;
  }

  lemma {:induction false} RunUnordered(s0: Cluster, acts: seq<Action>)
    requires Run(s0, acts)
    ensures LegalUnordered(s0, acts)
  {
    if acts != [] {
      RunUnordered(s0, acts[..|acts| - 1]);
    }
  }

  const DELETED := NAMED.(deleted := true, generation := 2)
  const MARKED := PERSISTED + [Report(CR, 3, None)] + [Env(MarkDeleted(CR))]

  /** The call that creates the user is refused, and the request is marked for deletion. */
  lemma MarkedRun(s0: Cluster)
    requires Ready(s0)
    ensures Run(s0, MARKED)
    ensures Exec(s0, MARKED) ==
            State(s0, [None, Some(SUBMITTED), Some(ADOPTED), Some(NAMED), Some(DELETED)], 2, {U1, U2},
                  map[U2 := Claim(CR, 1)], {CR}, {CR})
  {
    PersistedRun(s0);
    Extend(s0, PERSISTED, Report(CR, 3, None));
    var failed := PERSISTED + [Report(CR, 3, None)];
    assert Exec(s0, failed) == Persisted(s0);
    MarkStep(s0);
    Extend(s0, failed, Env(MarkDeleted(CR)));
  }

  lemma MarkStep(s0: Cluster)
    ensures EnvApply(Persisted(s0), MarkDeleted(CR)) ==
            State(s0, [None, Some(SUBMITTED), Some(ADOPTED), Some(NAMED), Some(DELETED)], 2, {U1, U2},
                  map[U2 := Claim(CR, 1)], {CR}, {CR})
  {
    var h := [None, Some(SUBMITTED), Some(ADOPTED), Some(NAMED)];
    assert Hist(Persisted(s0), CR) == h;
    assert h + [Some(DELETED)] == [None, Some(SUBMITTED), Some(ADOPTED), Some(NAMED), Some(DELETED)];
    assert EnvApply(Persisted(s0), MarkDeleted(CR)).history == map[CR := h + [Some(DELETED)]];
  }

  const GONE :=
    MARKED + [DrawName(U3)] + [Read(CR, 4)]
    + [Iam(CR, 4, Root, U2, DeletePolicy(PolicyName(U2)))] + [Write(CR, 4, RemoveFinalizer)]

  /** The third reconcile finds no policy, no user and no target secret, and removes the finalizer. */
  lemma GoneRun(s0: Cluster)
    requires s0 == Start(Mint)
    ensures Run(s0, GONE)
    ensures Exec(s0, GONE) ==
            State(s0, [None, Some(SUBMITTED), Some(ADOPTED), Some(NAMED), Some(DELETED), None], 4, {U1, U2, U3},
                  map[U2 := Claim(CR, 1)], {CR}, {CR})
  {
    ReadyWith(Mint, OldSecret(None));
    MarkedRun(s0);
    DifferentNames();
    var h := [None, Some(SUBMITTED), Some(ADOPTED), Some(NAMED), Some(DELETED)];
    Show(s0, MARKED, h, 2, {U1, U2}, map[U2 := Claim(CR, 1)], {CR}, {CR}, U3, 4);
    var shown := MARKED + [DrawName(U3)] + [Read(CR, 4)];
    assert {U1, U2} + {U3} == {U1, U2, U3} && {CR} + {CR} == {CR};
    var s := State(s0, h, 4, {U1, U2, U3}, map[U2 := Claim(CR, 1)], {CR}, {CR});
    RemoveStep(s0);
    Extend(s0, shown, Iam(CR, 4, Root, U2, DeletePolicy(PolicyName(U2))));
    Extend(s0, shown + [Iam(CR, 4, Root, U2, DeletePolicy(PolicyName(U2)))], Write(CR, 4, RemoveFinalizer));
  }

  lemma RemoveStep(s0: Cluster)
    requires s0 == Start(Mint)
    ensures var s := State(s0, [None, Some(SUBMITTED), Some(ADOPTED), Some(NAMED), Some(DELETED)], 4, {U1, U2, U3},
                           map[U2 := Claim(CR, 1)], {CR}, {CR});
      && MayCall(s, CR, 4, Root, U2, DeletePolicy(PolicyName(U2))) && IamApply(s, U2, DeletePolicy(PolicyName(U2))) == s
      && MayWrite(s, CR, 4, RemoveFinalizer)
      && WriteApply(s, CR, 4, RemoveFinalizer) ==
         s.(history := map[CR := [None, Some(SUBMITTED), Some(ADOPTED), Some(NAMED), Some(DELETED), None]])
  {
    var h := [None, Some(SUBMITTED), Some(ADOPTED), Some(NAMED), Some(DELETED)];
    var s := State(s0, h, 4, {U1, U2, U3}, map[U2 := Claim(CR, 1)], {CR}, {CR});
    assert Hist(s, CR) == h;
    assert |TARGET.ns| != |ROOT_CREDS.ns|;
    assert DELETED.finalizers - {Deprovision} == {};
    assert h + [None] == [None, Some(SUBMITTED), Some(ADOPTED), Some(NAMED), Some(DELETED), None];
    assert WriteApply(s, CR, 4, RemoveFinalizer).history == map[CR := h + [None]];
  }

  /** The operator created this user, and no request will deprovision it. */
  ghost predicate Orphaned(s: Cluster, u: string) {
    u in s.minted && u in s.users && !NamedUnderFinalizer(s, u)
  }

  /** If a cached read could go back to an older version, there would be a run that leaves a user nobody will delete:
      the fourth reconcile is shown the version that still names the user, and creates it. */
  lemma BackwardReadOrphans() returns (s0: Cluster, acts: seq<Action>)
    ensures Initial(s0) && LegalUnordered(s0, acts) && Orphaned(Exec(s0, acts), U2)
  {
    s0 := Start(Mint);
    GoneRun(s0);
    RunUnordered(s0, GONE);
    DifferentNames();
    var h := [None, Some(SUBMITTED), Some(ADOPTED), Some(NAMED), Some(DELETED), None];
    var drawn := GONE + [DrawName(U4)];
    ExtendUnordered(s0, GONE, DrawName(U4));
    assert Hist(Exec(s0, drawn), CR) == h;
    var stale := drawn + [Read(CR, 3)];
    ExtendUnordered(s0, drawn, Read(CR, 3));
    acts := OrphanSteps(s0, stale, h);
  }

  lemma OrphanSteps(s0: Cluster, stale: seq<Action>, h: seq<Option<Request>>) returns (acts: seq<Action>)
    requires Initial(s0) && LegalUnordered(s0, stale)
    requires h == [None, Some(SUBMITTED), Some(ADOPTED), Some(NAMED), Some(DELETED), None]
    requires var s := Exec(s0, stale); s.history == map[CR := h] && SeenAt(s, CR) == 3 && s.users == map[]
    ensures LegalUnordered(s0, acts) && Orphaned(Exec(s0, acts), U2)
  {
    var s := Exec(s0, stale);
    var begun := stale + [Begin(CR, 3)];
    OrphanStates(s, h);
    ExtendUnordered(s0, stale, Begin(CR, 3));
    acts := begun + [Iam(CR, 3, Root, U2, CreateUser)];
    ExtendUnordered(s0, begun, Iam(CR, 3, Root, U2, CreateUser));
  }

  lemma OrphanStates(s: Cluster, h: seq<Option<Request>>)
    requires h == [None, Some(SUBMITTED), Some(ADOPTED), Some(NAMED), Some(DELETED), None]
    requires s.history == map[CR := h] && SeenAt(s, CR) == 3 && s.users == map[]
    ensures MayBegin(s, CR, 3) && MayCall(BeginApply(s, CR), CR, 3, Root, U2, CreateUser)
    ensures Orphaned(IamApply(BeginApply(s, CR), U2, CreateUser), U2)
  {
    assert Hist(s, CR) == h;
    var b := BeginApply(s, CR);
    assert Hist(b, CR) == h;
    var t := IamApply(b, U2, CreateUser);
    assert Stored(t, CR).None?;
    assert forall n :: n != CR ==> Hist(t, n) == [None];
  }

  // ---- A mode that nobody knows ----

  function Succeed(saw: Secret): Action {
    Report(CR, 2, Some(Success("cluster", "uuid", Some(saw))))
  }

  const RECORD := Write(CR, 2, WriteStatus(SYNCED.status))

  /** Reporting a success and recording it in the request. */
  lemma RecordSteps(s0: Cluster, acts: seq<Action>, s: Cluster, saw: Secret)
    requires Run(s0, acts) && Exec(s0, acts) == s && Ready(s0) && s.now == 0
    requires s.history == map[CR := [None, Some(SUBMITTED), Some(ADOPTED)]] && SeenAt(s, CR) == 2
    requires Outcome(s, "cluster", "uuid", CR, 2, ADOPTED, Some(saw)) && ROOT_CREDS in s0.secrets
    requires s0.secrets[ROOT_CREDS] == saw
    ensures var more := acts + [Succeed(saw)] + [RECORD];
      && Run(s0, more) && Exec(s0, more).history == map[CR := [None, Some(SUBMITTED), Some(ADOPTED), Some(SYNCED)]]
      && Exec(s0, more) == s.(history := Exec(s0, more).history, synced := Exec(s0, more).synced,
                              caught := s.caught - {CR}, owed := s.owed - {CR})
  {
    assert Hist(s, CR) == [None, Some(SUBMITTED), Some(ADOPTED)];
    assert acts[..0] == [];
    assert RootAt(s0, acts, 0) == Some(saw);
    var report := Succeed(saw);
    Extend(s0, acts, report);
    RecordStep(Exec(s0, acts + [report]));
    Extend(s0, acts + [report], Write(CR, 2, WriteStatus(SYNCED.status)));
  }

  lemma RecordStep(s: Cluster)
    requires s.history == map[CR := [None, Some(SUBMITTED), Some(ADOPTED)]] && SeenAt(s, CR) == 2
    requires SyncRecord(CR, 1, 1, SPEC, 0) in s.synced && CR !in s.caught && CR !in s.owed
    ensures MayWrite(s, CR, 2, WriteStatus(SYNCED.status))
    ensures WriteApply(s, CR, 2, WriteStatus(SYNCED.status)) ==
            s.(history := map[CR := [None, Some(SUBMITTED), Some(ADOPTED), Some(SYNCED)]])
  {
    var h := [None, Some(SUBMITTED), Some(ADOPTED)];
    assert Hist(s, CR) == h;
    assert StatusOK(SYNCED.status);
    assert h + [Some(SYNCED)] == [None, Some(SUBMITTED), Some(ADOPTED), Some(SYNCED)];
    assert WriteApply(s, CR, 2, WriteStatus(SYNCED.status)).history == map[CR := h + [Some(SYNCED)]];
  }

  /** A live request is recorded as provisioned and synced while there is neither a user nor its target secret. */
  ghost predicate ProvisionedInNameOnly(s: Cluster, n: Name) {
    && Provisionable(Stored(s, n)) && Stored(s, n).value.status.provisioned
    && Stored(s, n).value.status.lastSyncGeneration == Stored(s, n).value.generation
    && s.users == map[] && Stored(s, n).value.spec.secretRef !in s.secrets
  }

  /** With an annotation that is none of the three modes, a run ends with a request that is recorded as synced and
      provisioned while there is neither a user nor a target secret. */
  lemma UnknownModeIsRecorded() returns (s0: Cluster, acts: seq<Action>)
    ensures Run(s0, acts) && ProvisionedInNameOnly(Exec(s0, acts), CR)
  {
    var mode := OtherMode("manual");
    s0 := Start(mode);
    ReadyWith(mode, OldSecret(None));
    CalledRun(s0);
    RecordSteps(s0, CALLED, Exec(s0, CALLED), RootSecret(mode));
    acts := CALLED + [Succeed(RootSecret(mode))] + [RECORD];
    assert Stored(Exec(s0, acts), CR) == Some(SYNCED);
    assert |TARGET.ns| != |ROOT_CREDS.ns|;
  }

  // ---- Passing through without a key pair ----

  const KEYLESS := RootSecret(Passthrough).(data := Some(NO_KEYS))
  const ANNOTATE := UpdateSecret(0, Annotations(Some(OwnerAnnotation(CR)), Some(NoPolicy), None, map[]), Some(NO_KEYS))

  /** A live request is recorded as provisioned and synced while its target secret holds no key. */
  ghost predicate ProvisionedWithoutKey(s: Cluster, n: Name) {
    && Provisionable(Stored(s, n)) && Stored(s, n).value.status.provisioned
    && Stored(s, n).value.status.lastSyncGeneration == Stored(s, n).value.generation
    && Stored(s, n).value.spec.secretRef in s.secrets && KeyId(s.secrets[Stored(s, n).value.spec.secretRef].data) == ""
  }

  /** With a root secret in passthrough mode that holds no key pair, and a target secret that is there already, a run
      ends with a request that is recorded as synced and provisioned while its target secret holds no key. */
  lemma KeylessPassthroughIsRecorded() returns (s0: Cluster, acts: seq<Action>)
    ensures Run(s0, acts) && ProvisionedWithoutKey(Exec(s0, acts), CR)
  {
    s0 := StartWith(Passthrough, OldSecret(Some(NO_KEYS)));
    s0 := s0.(secrets := s0.secrets[ROOT_CREDS := KEYLESS]);
    assert |TARGET.ns| != |ROOT_CREDS.ns|;
    CalledRun(s0);
    var s := Exec(s0, CALLED);
    assert Hist(s, CR) == [None, Some(SUBMITTED), Some(ADOPTED)];
    assert MayKeep(s, CR, 2, TARGET, ANNOTATE);
    Extend(s0, CALLED, Keep(CR, 2, TARGET, ANNOTATE));
    var kept := CALLED + [Keep(CR, 2, TARGET, ANNOTATE)];
    RecordSteps(s0, kept, Exec(s0, kept), KEYLESS);
    acts := kept + [Succeed(KEYLESS)] + [RECORD];
    assert Stored(Exec(s0, acts), CR) == Some(SYNCED);
  }

  // ---- A failed sync may be skipped afterwards ----

  const PASS := CreateSecret(Annotations(Some(OwnerAnnotation(CR)), Some(NoPolicy), None, map[]),
                             Some(Data(Some("root-id"), Some("root-secret"), map[])))

  const PASSED := CALLED + [Keep(CR, 2, TARGET, PASS)]

  /** In passthrough mode the target secret is created ... */
  lemma PassedRun(s0: Cluster)
    requires s0 == Start(Passthrough)
    ensures Run(s0, PASSED)
    ensures Exec(s0, PASSED) == State(s0, [None, Some(SUBMITTED), Some(ADOPTED)], 2, {U1, U2}, map[], {CR}, {CR})
                                .(secrets := s0.secrets[TARGET := Secret(1, PASS.annotations, PASS.data)],
                                  nextVersion := 2)
  {
    ReadyWith(Passthrough, OldSecret(None));
    CalledRun(s0);
    var s := Exec(s0, CALLED);
    assert Hist(s, CR) == [None, Some(SUBMITTED), Some(ADOPTED)];
    assert |TARGET.ns| != |ROOT_CREDS.ns|;
    Extend(s0, CALLED, Keep(CR, 2, TARGET, PASS));
  }

  const RECORDED := PASSED + [Succeed(RootSecret(Passthrough))] + [RECORD]
  const STALE := RECORDED + [DrawName(U3)] + [Read(CR, 2)] + [Begin(CR, 2)]

  lemma RecordedRun(s0: Cluster)
    requires s0 == Start(Passthrough)
    ensures Run(s0, RECORDED)
    ensures var s := Exec(s0, RECORDED);
      && s.history == map[CR := [None, Some(SUBMITTED), Some(ADOPTED), Some(SYNCED)]] && SeenAt(s, CR) == 2
      && s.now == 0 && s.namespaces == {"registry"} && s.users == map[] && s.drawn == {U1, U2}
  {
    ReadyWith(Passthrough, OldSecret(None));
    PassedRun(s0);
    RecordSteps(s0, PASSED, Exec(s0, PASSED), RootSecret(Passthrough));
  }

  /** ... and the success is recorded, but the third reconcile is shown the version before that and calls the
      actuator. */
  lemma StaleRun(s0: Cluster)
    requires s0 == Start(Passthrough)
    ensures Run(s0, STALE)
    ensures Hist(Exec(s0, STALE), CR) == [None, Some(SUBMITTED), Some(ADOPTED), Some(SYNCED)]
    ensures Exec(s0, STALE).now == 0
    ensures SeenAt(Exec(s0, STALE), CR) == 2 && Exec(s0, STALE).namespaces == {"registry"}
  {
    RecordedRun(s0);
    DifferentNames();
    var h := [None, Some(SUBMITTED), Some(ADOPTED), Some(SYNCED)];
    Extend(s0, RECORDED, DrawName(U3));
    assert Hist(Exec(s0, RECORDED + [DrawName(U3)]), CR) == h;
    Extend(s0, RECORDED + [DrawName(U3)], Read(CR, 2));
    var t := Exec(s0, RECORDED + [DrawName(U3)] + [Read(CR, 2)]);
    assert Hist(t, CR) == h && SeenAt(t, CR) == 2;
    Extend(s0, RECORDED + [DrawName(U3)] + [Read(CR, 2)], Begin(CR, 2));
  }

  /** A run reaches a failure of the actuator after which the worker is shown a live version, its namespace there,
      that passes the skip test: the failing reconcile had been shown a version older than the operator's own record
      of an earlier success. */
  lemma StaleFailureIsReachable() returns (s0: Cluster, acts: seq<Action>)
    ensures |acts| > 0 && acts[|acts| - 1] == Begin(CR, 2)
    ensures ShowsSkippable(s0, acts + [Report(CR, 2, None)] + [Read(CR, 3)], CR, 3)
    ensures var s := Exec(s0, acts + [Report(CR, 2, None)] + [Read(CR, 3)]);
      Provisionable(Hist(s, CR)[3]) && Hist(s, CR)[3].value.spec.secretRef.ns in s.namespaces
  {
    s0, acts := Start(Passthrough), STALE;
    StaleRun(s0);
    var h := [None, Some(SUBMITTED), Some(ADOPTED), Some(SYNCED)];
    assert h[3] == Some(SYNCED) && SkipTest(SYNCED, 0);
    Extend(s0, STALE, Report(CR, 2, None));
    var failed := STALE + [Report(CR, 2, None)];
    assert Hist(Exec(s0, failed), CR) == h;
    Extend(s0, failed, Read(CR, 3));
    assert Hist(Exec(s0, failed + [Read(CR, 3)]), CR) == h;
  }
}
