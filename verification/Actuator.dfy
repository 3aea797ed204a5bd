/** The AWS actuator: its long sequences of external calls, each with an error exit, against the World. */
module Actuator {
  import opened Wrappers
  import opened Conditions
  import opened Naming
  import opened Policies
  import opened Store
  import opened Goals
  import opened Protocol
  import opened Runs
  import opened Runtime

  /** The errors the actuator returns: plain ones, those with a condition as their reason, and the panics. */
  datatype Err = NoError | Plain | ActuatorError(reason: ConditionType) | Panic

  // ---- What the operator's calls leave alone while it works for one request ----

  /** Versions are only added, the cached view stays, and a target secret is at most lost, unless its request
      changed. */
  ghost predicate Steady(a: Cluster, b: Cluster) {
    && b.seen == a.seen && b.drawn == a.drawn && b.claims == a.claims && b.synced == a.synced
    && b.caught == a.caught && b.owed == a.owed && a.now <= b.now && SecretsRenewed(a, b)
    && (forall n :: Hist(a, n) <= Hist(b, n))
    && (forall n :: Hist(b, n) == Hist(a, n) && Guarded(Stored(a, n)) ==>
          SecretKept(a, b, Stored(a, n).value.spec.secretRef))
  }

  lemma SteadyTrans(a: Cluster, b: Cluster, c: Cluster)
    requires Steady(a, b) && Steady(b, c)
    ensures Steady(a, c)
  {
    forall n | Hist(c, n) == Hist(a, n) && Guarded(Stored(a, n))
      ensures SecretKept(a, c, Stored(a, n).value.spec.secretRef)
    {
      assert Hist(a, n) <= Hist(b, n) <= Hist(c, n);
      assert Hist(b, n) == Hist(a, n);
    }
  }

  lemma RelySteady(a: Cluster, b: Cluster)
    requires Rely(a, b)
    ensures Steady(a, b)
  {
  }

  /** A call to IAM followed by the environment. */
  lemma CallSteady(a: Cluster, u: string, call: UserOp, b: Cluster)
    requires Rely(a, b) || Rely(IamApply(a, u, call), b)
    ensures Steady(a, b)
  {
    var m := IamApply(a, u, call);
    assert forall n :: Hist(m, n) == Hist(a, n);
    if Rely(m, b) {
      forall n | Hist(b, n) == Hist(a, n) && Guarded(Stored(a, n))
        ensures SecretKept(a, b, Stored(a, n).value.spec.secretRef)
      {
        assert SecretKept(m, b, Stored(m, n).value.spec.secretRef);
      }
    }
  }

  // ---- The version the actuator works on ----

  /** The working copy agrees with the stored version rv on everything but its status, and that version is not deleted
      and carries the finalizer. This stays true whatever happens to the request later. */
  ghost predicate Working(s: Cluster, n: Name, rv: nat, r: Request) {
    && Holds(s, n, rv) && Provisionable(Hist(s, n)[rv])
    && r == Version(s, n, rv).(status := r.status)
    && r.status.user == Version(s, n, rv).status.user && r.status.policy == Version(s, n, rv).status.policy
  }

  ghost predicate Equipped(s: Cluster, n: Name, rv: nat, r: Request) {
    Working(s, n, rv, r) && r.status.user != ""
  }

  /** Versions are only added and the cached view stays. */
  ghost predicate Advances(a: Cluster, b: Cluster) {
    && b.seen == a.seen && b.drawn == a.drawn && b.synced == a.synced && b.caught == a.caught && b.owed == a.owed
    && a.now <= b.now
    && forall n :: Hist(a, n) <= Hist(b, n)
  }

  lemma WorkingStays(a: Cluster, b: Cluster, n: Name, rv: nat, r: Request)
    requires Working(a, n, rv, r) && Advances(a, b)
    ensures Working(b, n, rv, r)
  {
    assert Hist(a, n) <= Hist(b, n);
  }

  lemma EquippedStays(a: Cluster, b: Cluster, n: Name, rv: nat, r: Request)
    requires Equipped(a, n, rv, r) && Steady(a, b)
    ensures Equipped(b, n, rv, r)
  {
    assert Hist(a, n) <= Hist(b, n);
  }

  lemma EquippedUser(s: Cluster, n: Name, rv: nat, r: Request)
    requires Inv(s) && Equipped(s, n, rv, r)
    ensures MayProvision(s, n, rv, Root, r.status.user)
    ensures r.status.user in s.drawn && r.status.policy == PolicyName(r.status.user)
    ensures r.status.user in s.users ==> UserOK(s, r.status.user)
  {
    NamedUser(s, n, rv, r.status.user);
  }

  // ---- Clients ----

  function CredsIn(s: Cluster, k: Name): Option<(string, string)> {
    if k in s.secrets && s.secrets[k].data.Some? && s.secrets[k].data.value.id.Some?
       && s.secrets[k].data.value.secret.Some?
    then Some((s.secrets[k].data.value.id.value, s.secrets[k].data.value.secret.value))
    else None
  }

  predicate UsableCreds(c: Option<(string, string)>) {
    c.Some? && c.value.0 != "" && c.value.1 != ""
  }

  /** LoadCredsFromSecret: the key pair of a secret; Missing only when the secret itself is missing. */
  method LoadCreds(w: World, k: Name) returns (r: Got<(string, string)>)
    requires w.Valid()
    modifies w
    ensures w.Paused()
    ensures r.Found? ==> CredsIn(old(w.s), k) == Some(r.value)
    ensures r.Missing? ==> k !in old(w.s).secrets
    ensures old(w.Quiet()) ==>
      r == if k !in old(w.s).secrets then Missing
           else match CredsIn(old(w.s), k) case Some(c) => Found(c) case None => Broken
  {
    var g := w.GetSecret(k);
    r := match g
         case Missing => Missing
         case Broken => Broken
         case Found(x) =>
           if x.data.Some? && x.data.value.id.Some? && x.data.value.secret.Some?
           then Found((x.data.value.id.value, x.data.value.secret.value)) else Broken;
  }

  /** buildRootAWSClient. */
  method BuildRootClient(w: World) returns (c: Option<Client>)
    requires w.Valid()
    modifies w
    ensures w.Paused()
    ensures c.Some? ==>
      && c.value.access == Root
      && CredsIn(old(w.s), Name("kube-system", "aws-creds")) == Some((c.value.id, c.value.secret))
    ensures old(w.Quiet()) ==>
      c == match CredsIn(old(w.s), ROOT_CREDS) case Some(k) => Some(Client(Root, k.0, k.1)) case None => None
  {
    var k := LoadCreds(w, ROOT_CREDS);
    label loaded:
    if !k.Found? {
      return None;
    }
    var ok := w.Attempt();
    RelyTrans(old(w.s), old@loaded(w.s), w.s);
    c := if ok then Some(Client(Root, k.value.0, k.value.1)) else None;
  }

  /** The client that the quiet buildReadAWSClient yields. */
  function ReadClient(s: Cluster, r: Request): Option<Client> {
    var root := match CredsIn(s, ROOT_CREDS) case Some(k) => Some(Client(Root, k.0, k.1)) case None => None;
    if r.spec.secretRef == RO_CREDS || RO_CREDS !in s.secrets then root
    else match CredsIn(s, RO_CREDS)
         case Some(k) => Some(Client(ReadOnly, k.0, k.1))
         case None => Some(Client(ReadOnly, "", ""))
  }

  predicate CanRead(s: Cluster, r: Request) {
    ReadClient(s, r).Some? && ReadClient(s, r).value.Usable()
  }

  predicate CanWrite(s: Cluster) {
    UsableCreds(CredsIn(s, ROOT_CREDS))
  }

  /** buildReadAWSClient: the read-only credentials, or the root ones for the operator's own request, when the read-only
      secret is missing, and when AWS rejects the read-only token. Any other trouble with the read-only secret is
      passed over and yields a client with empty credentials. rejected tells whether AWS rejected the token. */
  method BuildReadClient(w: World, r: Request) returns (c: Option<Client>, ghost rejected: bool)
    requires w.Valid()
    modifies w
    ensures w.Paused()
    ensures c.Some? ==> c.value.access == Root || c.value.access == ReadOnly
    ensures c.Some? && (rejected || r.spec.secretRef == RO_CREDS) ==> c.value.access == Root
    ensures c.Some? && c.value.access == ReadOnly ==>
      c.value == Client(ReadOnly, "", "") || CredsIn(old(w.s), RO_CREDS) == Some((c.value.id, c.value.secret))
    ensures old(w.Quiet()) ==> c == ReadClient(old(w.s), r) && !rejected
  {
    var id, secret, access := "", "", ReadOnly;
    rejected := false;
    if r.spec.secretRef == RO_CREDS {
      var k := LoadCreds(w, ROOT_CREDS);
      if !k.Found? {
        return None, rejected;
      }
      id, secret, access := k.value.0, k.value.1, Root;
    } else {
      var k := LoadCreds(w, RO_CREDS);
      if k.Missing? {
        label missing:
        c := BuildRootClient(w);
        RelyTrans(old(w.s), old@missing(w.s), w.s);
        return;
      }
      if k.Found? {
        id, secret := k.value.0, k.value.1;
      }
    }
    label loaded:
    var ok := w.Attempt();
    RelyTrans(old(w.s), old@loaded(w.s), w.s);
    if !ok {
      return None, rejected;
    }
    label built:
    var probe := w.GetUser(Client(access, id, secret), r.status.user);
    RelyTrans(old(w.s), old@built(w.s), w.s);
    if probe.InvalidToken? {
      rejected := true;
      label fallback:
      c := BuildRootClient(w);
      RelyTrans(old(w.s), old@fallback(w.s), w.s);
    } else {
      c := Some(Client(access, id, secret));
    }
  }

  // ---- Deciding whether anything is to be done ----

  /** Exists: a recorded user and a target secret. None is an error. */
  method Exists(w: World, r: Request) returns (exists?: Option<bool>)
    requires w.Valid()
    modifies w
    ensures w.Paused()
    ensures exists? == Some(true) ==> r.status.user != "" && r.spec.secretRef in old(w.s).secrets
    ensures exists? == Some(false) ==> r.status.user == "" || r.spec.secretRef !in old(w.s).secrets
    ensures old(w.Quiet()) ==> exists? == Some(r.status.user != "" && r.spec.secretRef in old(w.s).secrets)
  {
    if r.status.user == "" {
      return Some(false);
    }
    var g := w.GetSecret(r.spec.secretRef);
    exists? := match g case Found(_) => Some(true) case Missing => Some(false) case Broken => None;
  }

  /** loadExistingSecret: any read error counts as "no secret". */
  method LoadExistingSecret(w: World, k: Name) returns (x: Option<Secret>)
    requires w.Valid()
    modifies w
    ensures w.Paused()
    ensures x.Some? ==> k in old(w.s).secrets && x.value == old(w.s).secrets[k]
    ensures x.Some? ==> PairKept(w.s.issued, x.value.data) && x.value.version < old(w.s).nextVersion
    ensures old(w.Quiet()) ==> (x.Some? <==> k in old(w.s).secrets)
  {
    var g := w.GetSecret(k);
    x := match g case Found(v) => Some(v) case _ => None;
  }

  /** What was read from the target secret still holds if the request has not changed and the secret is still there. */
  ghost predicate StillThere(s: Cluster, n: Name, rv: nat, k: Name, x: Option<Secret>) {
    && (IsCurrent(s, n, rv) && k in s.secrets ==> x == Some(s.secrets[k]))
    && (x.Some? ==> SameVersionSame(s, k, x.value))
  }

  /** A stored secret of the version of x is x. */
  ghost predicate SameVersionSame(s: Cluster, k: Name, x: Secret) {
    x.version < s.nextVersion && (k in s.secrets && s.secrets[k].version == x.version ==> s.secrets[k] == x)
  }

  lemma StillThereStays(a: Cluster, b: Cluster, n: Name, rv: nat, r: Request, x: Option<Secret>)
    requires Working(a, n, rv, r) && Steady(a, b) && StillThere(a, n, rv, r.spec.secretRef, x)
    ensures StillThere(b, n, rv, r.spec.secretRef, x)
  {
    if IsCurrent(b, n, rv) {
      assert Hist(a, n) <= Hist(b, n);
      assert Hist(a, n) == Hist(b, n);
    }
  }

  datatype Verdict = UpToDate | Outdated | Undecided

  /** The request names a user and has a target secret, but the user does not exist. */
  predicate Stuck(s: Cluster, r: Request) {
    r.status.user != "" && r.spec.secretRef in s.secrets && r.status.user !in s.users
  }

  /** awsPolicyEqualsDesiredPolicy; an error reads as "not equal". */
  method PolicyEqualsDesired(w: World, c: Client, r: Request, desired: Document) returns (equal: bool)
    requires w.Valid()
    modifies w
    ensures w.Paused()
    ensures equal ==>
      && r.status.user in old(w.s).users && r.status.policy in old(w.s).users[r.status.user].policies
      && old(w.s).users[r.status.user].policies[r.status.policy] == desired
    ensures old(w.Quiet()) && c.Usable() && r.status.user in old(w.s).users ==>
      (equal <==> r.status.policy in old(w.s).users[r.status.user].policies
                  && old(w.s).users[r.status.user].policies[r.status.policy] == desired)
  {
    var reply := w.GetUserPolicy(c, r.status.user, r.status.policy);
    equal := reply.Answer? && reply.value == desired;
  }

  /** The checks of needsUpdate on the keys and the policy of the minted user. */
  method KeysVerdict(w: World, read: Client, n: Name, rv: nat, r: Request, arn: string, id: string) returns (v: Verdict)
    requires w.Valid() && Equipped(w.s, n, rv, r) && r.spec.provider.Some?
    requires r.status.user in w.s.users && w.s.users[r.status.user].arn == arn
    modifies w
    ensures w.Paused()
    ensures SameUser(old(w.s), w.s, r.status.user)
    ensures v.UpToDate? ==>
      && id != "" && id in w.s.users[r.status.user].keys
      && HasPolicy(w.s.users[r.status.user], r.status.policy, r.spec.provider.value)
    ensures old(w.Quiet()) && read.Usable() ==>
      && !v.Undecided?
      && (v.UpToDate? <==>
            && id != "" && id in w.s.users[r.status.user].keys
            && HasPolicy(w.s.users[r.status.user], r.status.policy, r.spec.provider.value))
  {
    w.Known();
    EquippedUser(w.s, n, rv, r);
    var keys := w.ListAccessKeys(read, r.status.user);
    assert SameUser(old(w.s), w.s, r.status.user);
    if !keys.Answer? {
      return Undecided;
    }
    if id == "" || id !in keys.value {
      return Outdated;
    }
    label listed:
    var desired := BuildDesiredPolicy(r.spec.provider.value, arn);
    var equal := PolicyEqualsDesired(w, read, r, desired);
    RelyTrans(old(w.s), old@listed(w.s), w.s);
    assert SameUser(old(w.s), w.s, r.status.user);
    v := if equal then UpToDate else Outdated;
  }

  /** The checks of needsUpdate on the minted user and its keys and policy, once the target secret is loaded. */
  method UserVerdict(w: World, read: Client, n: Name, rv: nat, r: Request, id: string) returns (v: Verdict)
    requires w.Valid() && Equipped(w.s, n, rv, r) && r.spec.provider.Some?
    modifies w
    ensures w.Paused()
    ensures v.UpToDate? ==> CloudInSync(w.s, w.infra, w.uuid, r) && id != "" && id in w.s.users[r.status.user].keys
    ensures old(w.Quiet()) && read.Usable() ==>
      && (v.Undecided? <==> r.status.user !in w.s.users)
      && (v.UpToDate? <==> CloudInSync(w.s, w.infra, w.uuid, r) && id != "" && id in w.s.users[r.status.user].keys)
    ensures old(w.Quiet()) && !read.Usable() ==> v.Undecided?
  {
    w.Known();
    EquippedUser(w.s, n, rv, r);
    var got := w.GetUser(read, r.status.user);
    if !got.Answer? {
      return Undecided;
    }
    label user:
    var uuid := w.LoadClusterUUID();
    RelyTrans(old(w.s), old@user(w.s), w.s);
    assert SameUser(old(w.s), w.s, r.status.user);
    if uuid.None? {
      return Undecided;
    }
    if !HasExpectedTag(got.value, w.infra, uuid.value) {
      return Outdated;
    }
    label tagged:
    RelySteady(old(w.s), w.s);
    EquippedStays(old(w.s), w.s, n, rv, r);
    v := KeysVerdict(w, read, n, rv, r, got.value.arn, id);
    RelyTrans(old(w.s), old@tagged(w.s), w.s);
    assert SameUser(old(w.s), w.s, r.status.user);
  }

  /** Decodes the provider spec and builds the client to read with. */
  method PrepareToRead(w: World, r: Request) returns (read: Option<Client>)
    requires w.Valid()
    modifies w
    ensures w.Paused()
    ensures read.Some? ==> r.spec.provider.Some?
    ensures old(w.Quiet()) ==> read == if r.spec.provider.Some? then ReadClient(w.s, r) else None
  {
    var ok := w.Attempt();
    if !ok || r.spec.provider.None? {
      return None;
    }
    label decoded:
    ghost var rejected;
    read, rejected := BuildReadClient(w, r);
    RelyTrans(old(w.s), old@decoded(w.s), w.s);
  }

  /** The part of needsUpdate behind Exists. Its branch for requests without a user, which simulates the policy of
      passed-through credentials, is never reached: Exists implies a recorded user. */
  method JudgeExisting(w: World, n: Name, rv: nat, r: Request) returns (v: Verdict)
    requires w.Valid() && Equipped(w.s, n, rv, r)
    modifies w
    ensures w.Paused()
    ensures v.UpToDate? ==>
      && CloudInSync(w.s, w.infra, w.uuid, r) && |w.s.users[r.status.user].keys| == 1
      && (IsCurrent(w.s, n, rv) && r.spec.secretRef in w.s.secrets ==> SecretInSync(w.s, r))
    ensures old(w.Quiet()) ==> (v.UpToDate? <==> CanRead(w.s, r) && InSync(w.s, w.infra, w.uuid, r))
    ensures old(w.Quiet()) ==>
      (v.Undecided? <==> !(CanRead(w.s, r) && r.spec.provider.Some? && r.status.user in w.s.users))
  {
    var x := LoadExistingSecret(w, r.spec.secretRef);
    RelySteady(old(w.s), w.s);
    label loaded:
    var read := PrepareToRead(w, r);
    RelyTrans(old(w.s), old@loaded(w.s), w.s);
    if read.None? {
      return Undecided;
    }
    RelySteady(old(w.s), w.s);
    EquippedStays(old(w.s), w.s, n, rv, r);
    if r.status.user == "" {
      // The simulation of passed-through credentials would go here.
      assert false;
    }
    label ready:
    var id := if x.Some? then KeyId(x.value.data) else "";
    v := UserVerdict(w, read.value, n, rv, r, id);
    RelyTrans(old(w.s), old@ready(w.s), w.s);
    if v.UpToDate? {
      RelySteady(old(w.s), w.s);
      EquippedStays(old(w.s), w.s, n, rv, r);
      OneKeyHeld(w, n, rv, r, id);
      StillThereStays(old(w.s), w.s, n, rv, r, x);
    }
  }

  /** A live key of the user in hand is its only one. */
  lemma OneKeyHeld(w: World, n: Name, rv: nat, r: Request, id: string)
    requires w.Valid() && Equipped(w.s, n, rv, r)
    requires r.status.user in w.s.users && id in w.s.users[r.status.user].keys
    ensures |w.s.users[r.status.user].keys| == 1
  {
    w.Known();
    EquippedUser(w.s, n, rv, r);
    OneKey(w.s.users[r.status.user].keys, id);
  }

  /** A fault-free needsUpdate finds something to do. */
  predicate NeedsWork(s: Cluster, infra: string, uuid: string, r: Request) {
    || r.status.user == "" || r.spec.secretRef !in s.secrets
    || (CanRead(s, r) && r.spec.provider.Some? && r.status.user in s.users && !InSync(s, infra, uuid, r))
  }

  /** needsUpdate. */
  method NeedsUpdate(w: World, n: Name, rv: nat, r: Request) returns (v: Verdict)
    requires w.Valid() && (r.status.user != "" ==> Equipped(w.s, n, rv, r))
    modifies w
    ensures w.Paused()
    ensures v.UpToDate? ==>
      && CloudInSync(w.s, w.infra, w.uuid, r) && |w.s.users[r.status.user].keys| == 1
      && (IsCurrent(w.s, n, rv) && r.spec.secretRef in w.s.secrets ==> SecretInSync(w.s, r))
    ensures old(w.Quiet()) ==> (v.UpToDate? <==> CanRead(w.s, r) && InSync(w.s, w.infra, w.uuid, r))
    ensures old(w.Quiet()) ==> (v.Outdated? <==> NeedsWork(w.s, w.infra, w.uuid, r))
    ensures old(w.Quiet()) && CanRead(w.s, r) && r.spec.provider.Some? ==> (v.Undecided? <==> Stuck(w.s, r))
  {
    var exists? := Exists(w, r);
    if exists?.None? {
      return Undecided;
    }
    if !exists?.value {
      return Outdated;
    }
    label present:
    RelySteady(old(w.s), w.s);
    EquippedStays(old(w.s), w.s, n, rv, r);
    v := JudgeExisting(w, n, rv, r);
    RelyTrans(old(w.s), old@present(w.s), w.s);
  }

  lemma OneKey(keys: map<string, string>, id: string)
    requires |keys| <= 1 && id in keys
    ensures |keys| == 1 && keys.Keys == {id}
  {
    assert keys.Keys == {id} + (keys.Keys - {id});
    assert |keys.Keys| == 1 + |keys.Keys - {id}|;
  }

  // ---- Minting ----

  /** Nothing but IAM has changed. */
  ghost predicate CloudOnly(a: Cluster, b: Cluster) {
    b == a.(users := b.users, minted := b.minted, issued := b.issued)
  }

  ghost predicate RootIfAny(root: Option<Client>) {
    root.Some? ==> root.value.access == Root
  }

  predicate UsableClient(c: Option<Client>) {
    c.Some? && c.value.Usable()
  }

  /** After a call to IAM on the user in hand, that user is as the call left it. */
  lemma CallOnUser(a: Cluster, u: string, call: UserOp, b: Cluster)
    requires u in a.drawn && Rely(IamApply(a, u, call), b)
    ensures SameUser(IamApply(a, u, call), b, u)
  {
  }

  /** The part of syncMint that looks the user up and creates it if it is not there. createUser answers nothing when the
      user already exists, and the caller dereferences that answer: the Panic, which is never returned. */
  method EnsureUser(w: World, root: Option<Client>, read: Client, n: Name, rv: nat, r: Request)
    returns (err: Err, user: User)
    requires w.Valid() && Equipped(w.s, n, rv, r) && RootIfAny(root)
    modifies w
    ensures w.Valid() && Steady(old(w.s), w.s) && w.Onward()
    ensures err.NoError? ==> r.status.user in w.s.users && user == w.s.users[r.status.user]
    ensures err.NoError? || err.Plain?
    ensures old(w.Quiet()) ==> CloudOnly(old(w.s), w.s) && w.s.issued == old(w.s).issued
    ensures old(w.Quiet()) && UsableClient(root) && read.Usable() ==> err.NoError?
    ensures old(w.Quiet()) && !read.Usable() ==> err.Plain? && w.s.users == old(w.s).users
    ensures old(w.Quiet()) && !UsableClient(root) ==>
      w.s.users == old(w.s).users && (err.NoError? ==> r.status.user in old(w.s).users)
  {
    user := User("", map[], map[], map[]);
    w.Known();
    EquippedUser(w.s, n, rv, r);
    var got := w.GetUser(read, r.status.user);
    RelySteady(old(w.s), w.s);
    assert SameUser(old(w.s), w.s, r.status.user);
    if got.Answer? {
      return NoError, got.value;
    }
    if !got.NoSuchEntity? || root.None? {
      return Plain, user;
    }
    label absent:
    EquippedStays(old(w.s), w.s, n, rv, r);
    w.Known();
    EquippedUser(w.s, n, rv, r);
    var made := w.CallIam(root.value, n, rv, r.status.user, CreateUser);
    CallSteady(old@absent(w.s), r.status.user, CreateUser, w.s);
    SteadyTrans(old(w.s), old@absent(w.s), w.s);
    if made.AlreadyExists? {
      return Panic, user;
    }
    if !made.Answer? {
      return Plain, user;
    }
    CallOnUser(old@absent(w.s), r.status.user, CreateUser, w.s);
    return NoError, User(ArnOf(r.status.user), map[], map[], map[]);
  }

  /** IAM takes a change to the tags or the policies of a user that exists. */
  lemma EditAnswered(s: Cluster, u: string, call: UserOp)
    requires u in s.users && (call.TagUser? || call.PutPolicy?)
    ensures ReplyOf(s, u, call).Answer? && IamApply(s, u, call) == WithUser(s, u, EditUser(s.users[u], call))
  {
  }

  /** A change to the tags or the policy of the user in hand. */
  method EditMinted(w: World, root: Client, n: Name, rv: nat, r: Request, call: UserOp) returns (err: Err)
    requires w.Valid() && Equipped(w.s, n, rv, r) && root.access == Root && r.status.user in w.s.users
    requires call.TagUser? || (call.PutPolicy? && call.policy == r.status.policy)
    modifies w
    ensures w.Valid() && Steady(old(w.s), w.s) && w.Onward()
    ensures err.NoError? ==>
      r.status.user in w.s.users && w.s.users[r.status.user] == EditUser(old(w.s).users[r.status.user], call)
    ensures err.NoError? || err.Plain?
    ensures old(w.Quiet()) ==>
      CloudOnly(old(w.s), w.s) && w.s.issued == old(w.s).issued && (root.Usable() ==> err.NoError?)
    ensures old(w.Quiet()) && !root.Usable() ==> err.Plain? && w.s.users == old(w.s).users
  {
    w.Known();
    EquippedUser(w.s, n, rv, r);
    EditAnswered(w.s, r.status.user, call);
    var reply := w.CallIam(root, n, rv, r.status.user, call);
    CallSteady(old(w.s), r.status.user, call, w.s);
    if !reply.Answer? {
      return Plain;
    }
    CallOnUser(old(w.s), r.status.user, call, w.s);
    return NoError;
  }

  /** The part of syncMint that tags the user. */
  method EnsureTag(w: World, root: Option<Client>, n: Name, rv: nat, r: Request, user: User) returns (err: Err)
    requires w.Valid() && Equipped(w.s, n, rv, r) && RootIfAny(root)
    requires r.status.user in w.s.users && user == w.s.users[r.status.user]
    modifies w
    ensures w.Valid() && Steady(old(w.s), w.s) && w.Onward()
    ensures err.NoError? ==>
      && r.status.user in w.s.users && HasExpectedTag(w.s.users[r.status.user], w.infra, w.uuid)
      && w.s.users[r.status.user].arn == user.arn
    ensures err.NoError? || err.Plain?
    ensures old(w.Quiet()) ==> CloudOnly(old(w.s), w.s) && w.s.issued == old(w.s).issued
    ensures old(w.Quiet()) && UsableClient(root) ==> err.NoError?
    ensures old(w.Quiet()) && !UsableClient(root) ==>
      w.s.users == old(w.s).users && (err.NoError? ==> HasExpectedTag(user, w.infra, w.uuid))
  {
    w.Known();
    EquippedUser(w.s, n, rv, r);
    var uuid := w.LoadClusterUUID();
    RelySteady(old(w.s), w.s);
    assert SameUser(old(w.s), w.s, r.status.user);
    if uuid.None? {
      return Plain;
    }
    if HasExpectedTag(user, w.infra, uuid.value) {
      return NoError;
    }
    if root.None? {
      return Plain;
    }
    label untagged:
    EquippedStays(old(w.s), w.s, n, rv, r);
    err := EditMinted(w, root.value, n, rv, r, TagUser(TagKey(w.infra), TagValue(w.infra, uuid.value)));
    SteadyTrans(old(w.s), old@untagged(w.s), w.s);
  }

  /** The part of syncMint that compares the policy and sets it. */
  method EnsurePolicy(w: World, root: Option<Client>, read: Client, n: Name, rv: nat, r: Request, arn: string)
    returns (err: Err)
    requires w.Valid() && Equipped(w.s, n, rv, r) && RootIfAny(root) && r.spec.provider.Some?
    requires r.status.user in w.s.users && arn == w.s.users[r.status.user].arn
    modifies w
    ensures w.Valid() && Steady(old(w.s), w.s) && w.Onward()
    ensures err.NoError? ==>
      && r.status.user in w.s.users && HasPolicy(w.s.users[r.status.user], r.status.policy, r.spec.provider.value)
      && w.s.users[r.status.user] == old(w.s).users[r.status.user].(policies := w.s.users[r.status.user].policies)
    ensures err.NoError? || err.Plain?
    ensures old(w.Quiet()) ==> CloudOnly(old(w.s), w.s) && w.s.issued == old(w.s).issued
    ensures old(w.Quiet()) && UsableClient(root) ==> err.NoError?
    ensures old(w.Quiet()) && !UsableClient(root) ==>
      w.s.users == old(w.s).users
  {
    w.Known();
    EquippedUser(w.s, n, rv, r);
    var desired := BuildDesiredPolicy(r.spec.provider.value, arn);
    var equal := PolicyEqualsDesired(w, read, r, desired);
    RelySteady(old(w.s), w.s);
    assert SameUser(old(w.s), w.s, r.status.user);
    if equal {
      return NoError;
    }
    if root.None? {
      return Plain;
    }
    label different:
    EquippedStays(old(w.s), w.s, n, rv, r);
    err := EditMinted(w, root.value, n, rv, r, PutPolicy(r.status.policy, desired));
    SteadyTrans(old(w.s), old@different(w.s), w.s);
  }

  /** The operator works for the user named by version rv, to provision it or to deprovision it. */
  ghost predicate Mandate(s: Cluster, n: Name, rv: nat, u: string) {
    WorksFor(s, n, rv, u) && (Provisionable(Hist(s, n)[rv]) || Version(s, n, rv).deleted)
  }

  lemma MandateStays(a: Cluster, b: Cluster, n: Name, rv: nat, u: string)
    requires Mandate(a, n, rv, u) && Steady(a, b)
    ensures Mandate(b, n, rv, u)
  {
    assert Hist(a, n) <= Hist(b, n);
  }

  method DeleteAccessKey(w: World, c: Client, n: Name, rv: nat, u: string, id: string) returns (ok: bool)
    requires w.Valid() && Mandate(w.s, n, rv, u) && c.access == Root
    requires u in w.s.users && id in w.s.users[u].keys
    modifies w
    ensures w.Valid() && Steady(old(w.s), w.s) && w.Onward() && w.s.issued == old(w.s).issued
    ensures ok ==> u in w.s.users && w.s.users[u] == old(w.s).users[u].(keys := old(w.s).users[u].keys - {id})
    ensures old(w.Quiet()) ==> CloudOnly(old(w.s), w.s)
    ensures old(w.Quiet()) && c.Usable() ==> ok
    ensures old(w.Quiet()) && !c.Usable() ==> !ok && w.s.users == old(w.s).users
  {
    w.Known();
    NamedUser(w.s, n, rv, u);
    var reply := w.CallIam(c, n, rv, u, DeleteKey(id));
    CallSteady(old(w.s), u, DeleteKey(id), w.s);
    ok := reply.Answer?;
    if ok {
      CallOnUser(old(w.s), u, DeleteKey(id), w.s);
    }
  }

  /** Taking away the first of the remaining ids. */
  lemma RestOfKeys(ids: seq<string>, i: nat, keys: map<string, string>)
    requires i < |ids| && NoRepeats(ids) && forall id :: id in keys <==> id in ids[i..]
    ensures ids[i] in keys && forall id :: id in keys - {ids[i]} <==> id in ids[i + 1..]
  {
    assert ids[i..] == [ids[i]] + ids[i + 1..];
  }

  /** deleteAllAccessKeys: deletes the listed keys one by one. */
  method DeleteAllAccessKeys(w: World, c: Client, n: Name, rv: nat, u: string, ids: seq<string>) returns (ok: bool)
    requires w.Valid() && Mandate(w.s, n, rv, u) && c.access == Root
    requires u in w.s.users && NoRepeats(ids) && forall id :: id in ids <==> id in w.s.users[u].keys
    modifies w
    ensures w.Valid() && Steady(old(w.s), w.s) && w.Onward() && w.s.issued == old(w.s).issued
    ensures ok ==> u in w.s.users && w.s.users[u] == old(w.s).users[u].(keys := map[])
    ensures old(w.Quiet()) ==> CloudOnly(old(w.s), w.s)
    ensures old(w.Quiet()) && c.Usable() ==> ok
    ensures old(w.Quiet()) && !c.Usable() ==> w.s.users == old(w.s).users
  {
    for i := 0 to |ids|
      invariant w.Valid() && Steady(old(w.s), w.s) && w.Onward() && w.s.issued == old(w.s).issued
      invariant old(w.Quiet()) ==> CloudOnly(old(w.s), w.s) && (!c.Usable() ==> w.s.users == old(w.s).users)
      invariant u in w.s.users && w.s.users[u] == old(w.s).users[u].(keys := w.s.users[u].keys)
      invariant forall id :: id in w.s.users[u].keys <==> id in ids[i..]
    {
      label before:
      MandateStays(old(w.s), w.s, n, rv, u);
      RestOfKeys(ids, i, w.s.users[u].keys);
      ok := DeleteAccessKey(w, c, n, rv, u, ids[i]);
      SteadyTrans(old(w.s), old@before(w.s), w.s);
      if !ok {
        return;
      }
    }
    assert w.s.users[u].keys == map[] by {
      assert forall id :: id !in w.s.users[u].keys;
    }
    ok := true;
  }

  /** The part of syncMint that decides on the access key: it keeps the one in the target secret if that is live, and
      otherwise deletes all keys and asks for a new one, which is (keyId, keySecret). */
  method EnsureKey(w: World, root: Option<Client>, read: Client, n: Name, rv: nat, r: Request, keyId: string,
                   keySecret: string)
    returns (err: Err, x: Option<Secret>, id: string, secret: string)
    requires w.Valid() && Equipped(w.s, n, rv, r) && RootIfAny(root) && r.status.user in w.s.users
    modifies w
    ensures w.Valid() && Steady(old(w.s), w.s) && w.Onward()
    ensures err.NoError? ==>
      && r.status.user in w.s.users
      && w.s.users[r.status.user] == old(w.s).users[r.status.user].(keys := w.s.users[r.status.user].keys)
      && (x.Some? ==> StillThere(w.s, n, rv, r.spec.secretRef, x))
    ensures err.NoError? && id == "" ==>
      && secret == "" && x.Some? && KeyId(x.value.data) != "" && KeyId(x.value.data) in w.s.users[r.status.user].keys
      && PairKept(w.s.issued, x.value.data)
    ensures err.NoError? && id != "" ==>
      secret != "" && w.s.users[r.status.user].keys == map[id := secret] && id in w.s.issued && w.s.issued[id] == secret
    ensures err.NoError? || err.Plain?
    ensures old(w.Quiet()) ==> CloudOnly(old(w.s), w.s)
    ensures old(w.Quiet()) && err.NoError? ==>
      ReadAs(old(w.s), r.spec.secretRef, x)
    ensures old(w.Quiet()) && UsableClient(root) && read.Usable() && FreshKey(old(w.s), keyId, keySecret) ==>
      err.NoError?
    ensures old(w.Quiet()) && !UsableClient(root) ==>
      w.s.users == old(w.s).users && (err.NoError? ==> SecretInSync(old(w.s), r))
  {
    x, id, secret := None, "", "";
    var u := r.status.user;
    w.Known();
    EquippedUser(w.s, n, rv, r);
    var keys := w.ListAccessKeys(read, u);
    RelySteady(old(w.s), w.s);
    assert SameUser(old(w.s), w.s, u);
    if !keys.Answer? {
      return Plain, x, id, secret;
    }
    EquippedStays(old(w.s), w.s, n, rv, r);
    label listed:
    err, x, id, secret := KeepOrReplaceKey(w, root, n, rv, r, keys.value, keyId, keySecret);
    SteadyTrans(old(w.s), old@listed(w.s), w.s);
  }

  /** Keeps the key in the target secret if it is among the listed ones. */
  method KeepOrReplaceKey(w: World, root: Option<Client>, n: Name, rv: nat, r: Request, ids: seq<string>,
                          keyId: string, keySecret: string)
    returns (err: Err, x: Option<Secret>, id: string, secret: string)
    requires w.Valid() && Equipped(w.s, n, rv, r) && RootIfAny(root) && r.status.user in w.s.users
    requires NoRepeats(ids) && forall id :: id in ids <==> id in w.s.users[r.status.user].keys
    modifies w
    ensures w.Valid() && Steady(old(w.s), w.s) && w.Onward()
    ensures err.NoError? ==>
      && r.status.user in w.s.users
      && w.s.users[r.status.user] == old(w.s).users[r.status.user].(keys := w.s.users[r.status.user].keys)
      && (x.Some? ==> StillThere(w.s, n, rv, r.spec.secretRef, x))
    ensures err.NoError? && id == "" ==>
      && secret == "" && x.Some? && KeyId(x.value.data) != "" && KeyId(x.value.data) in w.s.users[r.status.user].keys
      && PairKept(w.s.issued, x.value.data)
    ensures err.NoError? && id != "" ==>
      secret != "" && w.s.users[r.status.user].keys == map[id := secret] && id in w.s.issued && w.s.issued[id] == secret
    ensures err.NoError? || err.Plain?
    ensures old(w.Quiet()) ==> CloudOnly(old(w.s), w.s)
    ensures old(w.Quiet()) && err.NoError? ==>
      ReadAs(old(w.s), r.spec.secretRef, x)
    ensures old(w.Quiet()) && UsableClient(root) && FreshKey(old(w.s), keyId, keySecret) ==> err.NoError?
    ensures old(w.Quiet()) && !UsableClient(root) ==>
      w.s.users == old(w.s).users && (err.NoError? ==> SecretInSync(old(w.s), r))
  {
    id, secret := "", "";
    w.Known();
    EquippedUser(w.s, n, rv, r);
    x := LoadExistingSecret(w, r.spec.secretRef);
    RelySteady(old(w.s), w.s);
    EquippedStays(old(w.s), w.s, n, rv, r);
    assert SameUser(old(w.s), w.s, r.status.user);
    if x.Some? {
      StillThereStays(old(w.s), w.s, n, rv, r, x);
    }
    if x.Some? && KeyId(x.value.data) != "" && KeyId(x.value.data) in ids {
      return NoError, x, id, secret;
    }
    if root.None? {
      return Plain, x, id, secret;
    }
    label loaded:
    var made := ReplaceKey(w, root.value, n, rv, r, ids, keyId, keySecret);
    SteadyTrans(old(w.s), old@loaded(w.s), w.s);
    if x.Some? {
      StillThereStays(old@loaded(w.s), w.s, n, rv, r, x);
    }
    if !made {
      return Plain, x, id, secret;
    }
    return NoError, x, keyId, keySecret;
  }

  /** Deletes the listed keys and creates the new one. */
  method ReplaceKey(w: World, root: Client, n: Name, rv: nat, r: Request, ids: seq<string>, keyId: string,
                    keySecret: string)
    returns (ok: bool)
    requires w.Valid() && Equipped(w.s, n, rv, r) && root.access == Root
    requires r.status.user in w.s.users && NoRepeats(ids)
    requires forall id :: id in ids <==> id in w.s.users[r.status.user].keys
    modifies w
    ensures w.Valid() && Steady(old(w.s), w.s) && w.Onward()
    ensures ok ==>
      && keyId != "" && keySecret != "" && keyId in w.s.issued && w.s.issued[keyId] == keySecret
      && r.status.user in w.s.users
      && w.s.users[r.status.user] == old(w.s).users[r.status.user].(keys := map[keyId := keySecret])
    ensures old(w.Quiet()) ==> CloudOnly(old(w.s), w.s)
    ensures old(w.Quiet()) && root.Usable() && FreshKey(old(w.s), keyId, keySecret) ==> ok
    ensures old(w.Quiet()) && !root.Usable() ==> !ok && w.s.users == old(w.s).users
  {
    var u := r.status.user;
    w.Known();
    EquippedUser(w.s, n, rv, r);
    ok := DeleteAllAccessKeys(w, root, n, rv, u, ids);
    if !ok {
      return;
    }
    label cleared:
    EquippedStays(old(w.s), w.s, n, rv, r);
    ok := CreateAccessKey(w, root, n, rv, r, keyId, keySecret);
    SteadyTrans(old(w.s), old@cleared(w.s), w.s);
  }

  /** createAccessKey, on a user without keys. */
  method CreateAccessKey(w: World, root: Client, n: Name, rv: nat, r: Request, keyId: string, keySecret: string)
    returns (ok: bool)
    requires w.Valid() && Equipped(w.s, n, rv, r) && root.access == Root
    requires r.status.user in w.s.users && w.s.users[r.status.user].keys == map[]
    modifies w
    ensures w.Valid() && Steady(old(w.s), w.s) && w.Onward()
    ensures ok ==>
      && keyId != "" && keySecret != "" && keyId in w.s.issued && w.s.issued[keyId] == keySecret
      && r.status.user in w.s.users
      && w.s.users[r.status.user] == old(w.s).users[r.status.user].(keys := map[keyId := keySecret])
    ensures old(w.Quiet()) ==> CloudOnly(old(w.s), w.s)
    ensures old(w.Quiet()) && root.Usable() && FreshKey(old(w.s), keyId, keySecret) ==> ok
    ensures old(w.Quiet()) && !root.Usable() ==> !ok && w.s.users == old(w.s).users
  {
    var u := r.status.user;
    w.Known();
    EquippedUser(w.s, n, rv, r);
    var call := CreateKey(keyId, keySecret);
    var reply := w.CallIam(root, n, rv, u, call);
    CallSteady(old(w.s), u, call, w.s);
    ok := reply.Answer?;
    if ok {
      CallOnUser(old(w.s), u, call, w.s);
      assert old(w.s).users[u].keys[keyId := keySecret] == map[keyId := keySecret];
    }
  }

  // ---- The target secret ----

  function WrittenData(x: Option<Secret>, id: string, secret: string): Option<Data> {
    if x.None? then Some(Data(Some(id), Some(secret), map[]))
    else if id != "" && secret != "" && x.value.data.Some? then
      Some(x.value.data.value.(id := Some(id), secret := Some(secret)))
    else x.value.data
  }

  function WrittenAnnotations(x: Option<Secret>, n: Name, text: PolicyText): Annotations {
    if x.None? then Annotations(Some(OwnerAnnotation(n)), Some(text), None, map[])
    else x.value.annotations.(owner := Some(OwnerAnnotation(n)), lastPolicy := Some(text))
  }

  /** What is written to an existing secret keeps its other entries and annotations, and the mode; it names the owner
      and the applied policy, and the key pair is replaced exactly if a full one is given. */
  lemma WrittenKeepsRest(x: Option<Secret>, n: Name, text: PolicyText, id: string, secret: string)
    ensures var a, d := WrittenAnnotations(x, n, text), WrittenData(x, id, secret);
      && a.owner == Some(n.ns + "/" + n.name) && a.lastPolicy == Some(text)
      && (x.None? ==> d == Some(Data(Some(id), Some(secret), map[])) && a.rest == map[] && a.mode.None?)
      && (x.Some? ==>
            && a.rest == x.value.annotations.rest && a.mode == x.value.annotations.mode
            && (d.Some? <==> x.value.data.Some?) && (d.Some? ==> d.value.rest == x.value.data.value.rest)
            && (d.Some? && id != "" && secret != "" ==> d.value.id == Some(id) && d.value.secret == Some(secret))
            && (id == "" || secret == "" ==> d == x.value.data))
  {
  }

  /** The target secret, if the request has not changed and the secret is still there, is as it was written. */
  ghost predicate SecretWritten(s: Cluster, n: Name, rv: nat, k: Name, annotations: Annotations, data: Option<Data>) {
    IsCurrent(s, n, rv) && k in s.secrets ==> s.secrets[k].annotations == annotations && s.secrets[k].data == data
  }

  /** A secret write followed by the environment. */
  lemma SecretWriteAdvances(a: Cluster, k: Name, put: SecretOp, b: Cluster)
    requires Rely(a, b) || Rely(SecretApply(a, k, put), b)
    ensures Advances(a, b) && b.claims == a.claims && b.issued == a.issued
    ensures UsersKept(a, b)
  {
    var m := SecretApply(a, k, put);
    assert forall n :: Hist(m, n) == Hist(a, n);
    if Rely(m, b) {
      UsersKeptTrans(a, m, b);
    }
  }

  lemma SecretWriteLands(a: Cluster, n: Name, rv: nat, r: Request, put: SecretOp, b: Cluster)
    requires Working(a, n, rv, r) && !put.DeleteSecret? && Accepts(a, r.spec.secretRef, put)
    requires Rely(SecretApply(a, r.spec.secretRef, put), b)
    ensures SecretWritten(b, n, rv, r.spec.secretRef, put.annotations, put.data)
  {
    var m := SecretApply(a, r.spec.secretRef, put);
    if IsCurrent(b, n, rv) {
      assert Hist(m, n) <= Hist(b, n);
      assert Hist(m, n) == Hist(b, n) && Hist(m, n) == Hist(a, n);
      assert SecretKept(m, b, Stored(m, n).value.spec.secretRef);
    }
  }

  /** The secret x holds all that would be written to it. */
  ghost predicate WritesNothing(x: Option<Secret>, n: Name, text: PolicyText, id: string, secret: string) {
    x.Some? && WrittenAnnotations(x, n, text) == x.value.annotations && WrittenData(x, id, secret) == x.value.data
  }

  /** The target secret is as it was read. */
  ghost predicate ReadAs(s: Cluster, k: Name, x: Option<Secret>) {
    x == if k in s.secrets then Some(s.secrets[k]) else None
  }

  /** syncAccessKeySecret. It panics when it must store a key pair in a secret whose Data map is nil. */
  method SyncAccessKeySecret(w: World, n: Name, rv: nat, r: Request, id: string, secret: string, x: Option<Secret>,
                             text: PolicyText)
    returns (err: Err)
    requires w.Valid() && Working(w.s, n, rv, r)
    requires x.Some? ==> StillThere(w.s, n, rv, r.spec.secretRef, x)
    requires x.Some? || (id != "" && secret != "") ==> PairKept(w.s.issued, WrittenData(x, id, secret))
    modifies w
    ensures w.Valid() && Advances(old(w.s), w.s) && w.s.claims == old(w.s).claims && w.Onward()
    ensures UsersKept(old(w.s), w.s)
    ensures err.NoError? ==>
      && (x.None? ==> id != "" && secret != "")
      && SecretWritten(w.s, n, rv, r.spec.secretRef, WrittenAnnotations(x, n, text), WrittenData(x, id, secret))
    ensures err.Panic? <==> x.Some? && id != "" && secret != "" && x.value.data.None?
    ensures x.None? && (id == "" || secret == "") ==>
      err == ActuatorError(CredentialsProvisionFailure) && w.s == old(w.s) && w.log == old(w.log)
    ensures old(w.Quiet()) ==> w.s == old(w.s).(secrets := w.s.secrets, nextVersion := w.s.nextVersion)
    ensures old(w.Quiet()) && ReadAs(old(w.s), r.spec.secretRef, x) ==>
      && (err.NoError? || err.Panic? || (x.None? && (id == "" || secret == "")))
      && (err.NoError? ==> r.spec.secretRef in w.s.secrets)
    ensures old(w.Quiet()) && err.NoError? && WritesNothing(x, n, text, id, secret) ==>
      w.s == old(w.s) && w.log == old(w.log)
  {
    var annotations, data := WrittenAnnotations(x, n, text), WrittenData(x, id, secret);
    if x.None? {
      if id == "" || secret == "" {
        return ActuatorError(CredentialsProvisionFailure);
      }
      var put := CreateSecret(annotations, data);
      var ok := w.WriteSecret(n, rv, r.spec.secretRef, put);
      SecretWriteAdvances(old(w.s), r.spec.secretRef, put, w.s);
      if !ok {
        return Plain;
      }
      SecretWriteLands(old(w.s), n, rv, r, put, w.s);
      return NoError;
    }
    if id != "" && secret != "" && x.value.data.None? {
      return Panic;
    }
    if annotations != x.value.annotations || data != x.value.data {
      var put := UpdateSecret(x.value.version, annotations, data);
      var ok := w.WriteSecret(n, rv, r.spec.secretRef, put);
      SecretWriteAdvances(old(w.s), r.spec.secretRef, put, w.s);
      if !ok {
        return ActuatorError(CredentialsProvisionFailure);
      }
      SecretWriteLands(old(w.s), n, rv, r, put, w.s);
    }
    return NoError;
  }

  // ---- Status writes ----

  /** What the working copy may differ in from version rv so that its status can be written. */
  ghost predicate Tracks(s: Cluster, n: Name, rv: nat, r: Request) {
    && Holds(s, n, rv) && r == Version(s, n, rv).(status := r.status)
    && MayWrite(s, n, rv, WriteStatus(r.status))
  }

  ghost predicate SameSync(a: Status, b: Status) {
    a.lastSyncTime == b.lastSyncTime && a.lastSyncGeneration == b.lastSyncGeneration
  }

  /** A copy that can be written and that keeps the recorded sync. */
  ghost predicate Writable(s: Cluster, n: Name, rv: nat, r: Request) {
    Tracks(s, n, rv, r) && SameSync(r.status, Version(s, n, rv).status)
  }

  /** A working copy whose status is well formed and keeps the recorded sync. */
  ghost predicate Aligned(s: Cluster, n: Name, rv: nat, r: Request) {
    Working(s, n, rv, r) && StatusOK(r.status) && SameSync(r.status, Version(s, n, rv).status)
  }

  lemma AlignedStays(a: Cluster, b: Cluster, n: Name, rv: nat, r: Request)
    requires Aligned(a, n, rv, r) && Advances(a, b)
    ensures Aligned(b, n, rv, r) && Writable(b, n, rv, r)
  {
    assert Hist(a, n) <= Hist(b, n);
  }

  lemma SteadyAdvances(a: Cluster, b: Cluster)
    requires Steady(a, b)
    ensures Advances(a, b)
  {
  }

  lemma AdvancesTrans(a: Cluster, b: Cluster, c: Cluster)
    requires Advances(a, b) && Advances(b, c)
    ensures Advances(a, c)
  {
    forall n ensures Hist(a, n) <= Hist(c, n) {
      assert Hist(a, n) <= Hist(b, n) <= Hist(c, n);
    }
  }

  /** A write of a request followed by the environment. */
  lemma WriteAdvances(a: Cluster, n: Name, rv: nat, op: RequestOp, b: Cluster)
    requires Rely(a, b) || Rely(WriteApply(a, n, rv, op), b)
    ensures Advances(a, b)
    ensures UsersKept(a, b)
  {
    var m := WriteApply(a, n, rv, op);
    forall x ensures Hist(a, x) <= Hist(b, x) {
      assert Hist(a, x) <= Hist(m, x);
    }
    if Rely(m, b) {
      UsersKeptTrans(a, m, b);
    }
  }

  /** A status write that was refused, or whose answer was lost, can be tried again with the same copy. */
  lemma FailedWriteTracks(a: Cluster, n: Name, rv: nat, r: Request, b: Cluster)
    requires Tracks(a, n, rv, r) && Inv(a)
    requires Rely(a, b) || Rely(WriteApply(a, n, rv, WriteStatus(r.status)), b)
    ensures Tracks(b, n, rv, r)
  {
    var m := WriteApply(a, n, rv, WriteStatus(r.status));
    WriteAdvances(a, n, rv, WriteStatus(r.status), b);
    assert Hist(a, n) <= Hist(b, n);
    if IsCurrent(b, n, rv) {
      assert Hist(a, n) == Hist(b, n);
      assert Hist(m, n) <= Hist(b, n) ==> |Hist(m, n)| <= |Hist(a, n)|;
    }
  }

  /** A status write that succeeded: the copy is the version after the one it was based on. */
  lemma WriteLands(a: Cluster, n: Name, rv: nat, r: Request, b: Cluster)
    requires Tracks(a, n, rv, r) && IsCurrent(a, n, rv)
    requires Rely(WriteApply(a, n, rv, WriteStatus(r.status)), b)
    ensures Holds(b, n, rv + 1) && Version(b, n, rv + 1) == r && Tracks(b, n, rv + 1, r)
  {
    var m := WriteApply(a, n, rv, WriteStatus(r.status));
    assert Hist(m, n) == Hist(a, n) + [Some(r)];
    assert Hist(m, n) <= Hist(b, n);
    assert Hist(b, n)[rv + 1] == Some(r);
    assert Hist(b, n)[SeenAt(b, n)] == Hist(a, n)[SeenAt(a, n)];
  }

  /** Status().Update: writes the status of the copy under its resourceVersion, which a success refreshes. */
  method UpdateStatus(w: World, cr: Copy) returns (ok: bool)
    requires w.Valid() && Tracks(w.s, cr.name, cr.rv, cr.r)
    modifies w, cr`rv
    ensures w.Valid() && Advances(old(w.s), w.s) && w.Onward()
    ensures UsersKept(old(w.s), w.s)
    ensures Tracks(w.s, cr.name, cr.rv, cr.r)
    ensures ok ==> cr.rv == old(cr.rv) + 1 && Version(w.s, cr.name, cr.rv) == cr.r
    ensures !ok ==> cr.rv == old(cr.rv)
    ensures old(w.Quiet()) ==>
      && w.s == WriteApply(old(w.s), cr.name, old(cr.rv), WriteStatus(cr.r.status))
      && ok == IsCurrent(old(w.s), cr.name, old(cr.rv))
  {
    ok := WriteCopy(w, cr.name, cr.rv, cr.r);
    if ok {
      cr.rv := cr.rv + 1;
    }
  }

  /** The write behind UpdateStatus. */
  method WriteCopy(w: World, n: Name, rv: nat, r: Request) returns (ok: bool)
    requires w.Valid() && Tracks(w.s, n, rv, r)
    modifies w
    ensures w.Valid() && Advances(old(w.s), w.s) && w.Onward()
    ensures UsersKept(old(w.s), w.s)
    ensures ok ==> Holds(w.s, n, rv + 1) && Version(w.s, n, rv + 1) == r && Tracks(w.s, n, rv + 1, r)
    ensures !ok ==> Tracks(w.s, n, rv, r)
    ensures old(w.Quiet()) ==>
      w.s == WriteApply(old(w.s), n, rv, WriteStatus(r.status)) && ok == IsCurrent(old(w.s), n, rv)
  {
    w.Known();
    ok := w.UpdateRequest(n, rv, WriteStatus(r.status));
    WriteAdvances(old(w.s), n, rv, WriteStatus(r.status), w.s);
    if ok {
      WriteLands(old(w.s), n, rv, r, w.s);
    } else {
      FailedWriteTracks(old(w.s), n, rv, r, w.s);
    }
  }

  /** The part of syncMint that generates the user and policy names and persists them before anything is created. name
      is what generateUserName yields. The branch that completes a record with a user and no policy name is never
      reached. */
  method EnsureName(w: World, cr: Copy, name: Option<string>) returns (ok: bool)
    requires w.Valid() && Aligned(w.s, cr.name, cr.rv, cr.r)
    requires cr.r.status.user == "" && name.Some? ==> MayClaim(w.s, name.value)
    modifies w, cr
    ensures w.Valid() && Advances(old(w.s), w.s) && w.Onward()
    ensures old(w.Quiet()) ==> w.s.now == old(w.s).now
    ensures Writable(w.s, cr.name, cr.rv, cr.r)
    ensures ok ==> Equipped(w.s, cr.name, cr.rv, cr.r) && Aligned(w.s, cr.name, cr.rv, cr.r)
    ensures cr.r == old(cr.r).(status := old(cr.r).status.(user := cr.r.status.user, policy := cr.r.status.policy))
    ensures cr.rv == old(cr.rv) || old(cr.r).status.user == "" != cr.r.status.user
    ensures old(cr.r).status.user != "" ==> ok && cr.r == old(cr.r) && cr.rv == old(cr.rv) && w.s == old(w.s)
    ensures old(w.Quiet()) && IsCurrent(old(w.s), cr.name, old(cr.rv)) && name.Some? ==>
      && ok && IsCurrent(w.s, cr.name, cr.rv)
      && w.s == old(w.s).(history := w.s.history, claims := w.s.claims)
    ensures old(cr.r).status.user == "" && ok ==> cr.r.status.user !in w.s.users
    ensures old(cr.r).status.user == "" && name.None? ==> !ok && cr.r == old(cr.r) && w.s == old(w.s)
  {
    if cr.r.status.user == "" {
      if name.None? {
        AlignedStays(w.s, w.s, cr.name, cr.rv, cr.r);
        return false;
      }
      NewNameAbsent(w, name.value);
      cr.r := cr.r.(status := cr.r.status.(user := name.value, policy := PolicyName(name.value)));
      label named:
      assert Tracks(w.s, cr.name, cr.rv, cr.r);
      ok := UpdateStatus(w, cr);
      assert Hist(old(w.s), cr.name) <= Hist(w.s, cr.name);
      return;
    }
    AlignedStays(w.s, w.s, cr.name, cr.rv, cr.r);
    if cr.r.status.policy == "" {
      // The missing policy name would be filled in and persisted here.
      w.Known();
      EquippedUser(w.s, cr.name, cr.rv, cr.r);
      assert false;
    }
    ok := true;
  }

  /** A name that is about to be claimed names no user. */
  lemma NewNameAbsent(w: World, u: string)
    requires w.Valid() && MayClaim(w.s, u)
    ensures u !in w.s.users
  {
    w.Known();
  }

  /** With these credentials a fault-free mint sync goes through to the target secret. */
  predicate MintReady(s: Cluster, r: Request) {
    CanRead(s, r) && CanWrite(s) && r.spec.provider.Some?
  }

  /** The part of syncMint between recording the name and writing the target secret. */
  method Provision(w: World, n: Name, rv: nat, r: Request, keyId: string, keySecret: string)
    returns (err: Err, doc: Document, x: Option<Secret>, id: string, secret: string)
    requires w.Valid() && Equipped(w.s, n, rv, r) && r.spec.provider.Some?
    modifies w
    ensures w.Valid() && Steady(old(w.s), w.s) && w.Onward()
    ensures err.NoError? || err.Plain?
    ensures err.NoError? ==>
      && CloudInSync(w.s, w.infra, w.uuid, r)
      && doc == DesiredPolicy(r.spec.provider.value, w.s.users[r.status.user].arn)
      && (x.Some? ==> StillThere(w.s, n, rv, r.spec.secretRef, x))
    ensures err.NoError? && id == "" ==>
      && secret == "" && x.Some? && KeyId(x.value.data) != "" && KeyId(x.value.data) in w.s.users[r.status.user].keys
      && PairKept(w.s.issued, x.value.data)
    ensures err.NoError? && id != "" ==>
      secret != "" && w.s.users[r.status.user].keys == map[id := secret] && id in w.s.issued && w.s.issued[id] == secret
    ensures old(w.Quiet()) ==> CloudOnly(old(w.s), w.s)
    ensures old(w.Quiet()) && err.NoError? ==>
      ReadAs(old(w.s), r.spec.secretRef, x)
    ensures old(w.Quiet()) && MintReady(old(w.s), r) && FreshKey(old(w.s), keyId, keySecret) ==> err.NoError?
    ensures old(w.Quiet()) && !(CanRead(old(w.s), r) && CanWrite(old(w.s))) ==>
      && w.s.users == old(w.s).users
      && (err.NoError? ==> CanRead(old(w.s), r) && InSync(old(w.s), w.infra, w.uuid, r))
  {
    err, doc, x, id, secret := Plain, Document("", []), None, "", "";
    var root, read := BuildClients(w, r);
    RelySteady(old(w.s), w.s);
    if read.None? {
      return;
    }
    label built:
    EquippedStays(old(w.s), w.s, n, rv, r);
    var arn;
    err, arn := SetUpUser(w, root, read.value, n, rv, r);
    SteadyTrans(old(w.s), old@built(w.s), w.s);
    if !err.NoError? {
      return;
    }
    label configured:
    EquippedStays(old(w.s), w.s, n, rv, r);
    doc := BuildDesiredPolicy(r.spec.provider.value, arn);
    err, x, id, secret := EnsureKey(w, root, read.value, n, rv, r, keyId, keySecret);
    SteadyTrans(old(w.s), old@configured(w.s), w.s);
  }

  /** Both clients of syncMint; a missing root client is tolerated until it is needed. */
  method BuildClients(w: World, r: Request) returns (root: Option<Client>, read: Option<Client>)
    requires w.Valid()
    modifies w
    ensures w.Paused() && RootIfAny(root)
    ensures old(w.Quiet()) ==>
      && read == ReadClient(w.s, r)
      && root == match CredsIn(w.s, ROOT_CREDS) case Some(k) => Some(Client(Root, k.0, k.1)) case None => None
  {
    root := BuildRootClient(w);
    label rooted:
    ghost var rejected;
    read, rejected := BuildReadClient(w, r);
    RelyTrans(old(w.s), old@rooted(w.s), w.s);
  }

  /** The user, its tag and its policy. */
  method SetUpUser(w: World, root: Option<Client>, read: Client, n: Name, rv: nat, r: Request)
    returns (err: Err, arn: string)
    requires w.Valid() && Equipped(w.s, n, rv, r) && RootIfAny(root) && r.spec.provider.Some?
    modifies w
    ensures w.Valid() && Steady(old(w.s), w.s) && w.Onward()
    ensures err.NoError? ==> CloudInSync(w.s, w.infra, w.uuid, r) && w.s.users[r.status.user].arn == arn
    ensures err.NoError? || err.Plain?
    ensures old(w.Quiet()) ==> CloudOnly(old(w.s), w.s) && w.s.issued == old(w.s).issued
    ensures old(w.Quiet()) && UsableClient(root) && read.Usable() ==> err.NoError?
    ensures old(w.Quiet()) && !(UsableClient(root) && read.Usable()) ==>
      w.s.users == old(w.s).users && (err.NoError? ==> read.Usable())
  {
    var user;
    err, user := EnsureUser(w, root, read, n, rv, r);
    arn := user.arn;
    if !err.NoError? {
      return;
    }
    label there:
    EquippedStays(old(w.s), w.s, n, rv, r);
    err := ConfigureUser(w, root, read, n, rv, r, user);
    SteadyTrans(old(w.s), old@there(w.s), w.s);
  }

  /** Tag and policy. */
  method ConfigureUser(w: World, root: Option<Client>, read: Client, n: Name, rv: nat, r: Request, user: User)
    returns (err: Err)
    requires w.Valid() && Equipped(w.s, n, rv, r) && RootIfAny(root) && r.spec.provider.Some?
    requires r.status.user in w.s.users && user == w.s.users[r.status.user]
    modifies w
    ensures w.Valid() && Steady(old(w.s), w.s) && w.Onward()
    ensures err.NoError? ==> CloudInSync(w.s, w.infra, w.uuid, r) && w.s.users[r.status.user].arn == user.arn
    ensures err.NoError? || err.Plain?
    ensures old(w.Quiet()) ==> CloudOnly(old(w.s), w.s) && w.s.issued == old(w.s).issued
    ensures old(w.Quiet()) && UsableClient(root) ==> err.NoError?
    ensures old(w.Quiet()) && !UsableClient(root) ==> w.s.users == old(w.s).users
  {
    err := EnsureTag(w, root, n, rv, r, user);
    if !err.NoError? {
      return;
    }
    label tagged:
    EquippedStays(old(w.s), w.s, n, rv, r);
    err := EnsurePolicy(w, root, read, n, rv, r, user.arn);
    SteadyTrans(old(w.s), old@tagged(w.s), w.s);
  }

  /** The target secret is there with a nil Data map. */
  predicate NilTarget(s: Cluster, r: Request) {
    r.spec.secretRef in s.secrets && s.secrets[r.spec.secretRef].data.None?
  }

  /** What a settled target secret holds is exactly the user's one key, with the secret value AWS issued alongside
      it. */
  lemma StoredPair(s: Cluster, infra: string, uuid: string, n: Name, rv: nat, r: Request)
    requires Inv(s) && Equipped(s, n, rv, r) && Settled(s, infra, uuid, n, rv, r) && SecretInSync(s, r)
    ensures var d := s.secrets[r.spec.secretRef].data;
      && d.Some? && d.value.id.Some? && d.value.secret.Some?
      && s.users[r.status.user].keys == map[d.value.id.value := d.value.secret.value]
  {
    EquippedUser(s, n, rv, r);
    var keys, d := s.users[r.status.user].keys, s.secrets[r.spec.secretRef].data;
    OneKey(keys, KeyId(d));
    assert PairKept(s.issued, d);
  }

  /** A mint sync lacks something that it needs in any case: credentials, a provider spec that can be decoded, or a
      name. */
  predicate Lacking(s: Cluster, r: Request, named: bool) {
    !(MintReady(s, r) && (named || r.status.user != ""))
  }

  /** Whether a fault-free mint sync can succeed depends on the credentials, on a free key id and on the target secret
      only. */
  ghost predicate QuietMint(s: Cluster, r: Request, keyId: string, keySecret: string) {
    MintReady(s, r) && FreshKey(s, keyId, keySecret)
  }

  /** After the key was settled at state a and the target secret written by state b. */
  lemma MintSettles(a: Cluster, b: Cluster, infra: string, uuid: string, n: Name, rv: nat, r: Request, key: string,
                    annotations: Annotations, data: Option<Data>)
    requires Inv(a) && Equipped(a, n, rv, r) && CloudInSync(a, infra, uuid, r) && key in a.users[r.status.user].keys
    requires Advances(a, b) && SameUser(a, b, r.status.user)
    requires key != "" && KeyId(data) == key && SecretWritten(b, n, rv, r.spec.secretRef, annotations, data)
    ensures Settled(b, infra, uuid, n, rv, r)
    ensures IsCurrent(b, n, rv) && r.spec.secretRef in b.secrets ==>
      InSync(b, infra, uuid, r) && b.secrets[r.spec.secretRef].annotations == annotations
  {
    WorkingStays(a, b, n, rv, r);
    EquippedUser(a, n, rv, r);
    OneKey(a.users[r.status.user].keys, key);
  }

  /** The data written for a key pair, or kept when there is none, holds that key. */
  lemma WrittenKey(issued: map<string, string>, x: Option<Secret>, id: string, secret: string)
    requires id == "" ==> secret == "" && x.Some? && PairKept(issued, x.value.data)
    requires id != "" ==> secret != "" && id in issued && issued[id] == secret
    ensures PairKept(issued, WrittenData(x, id, secret))
    ensures id == "" ==> WrittenData(x, id, secret) == x.value.data
    ensures id != "" && (x.Some? ==> x.value.data.Some?) ==> KeyId(WrittenData(x, id, secret)) == id
  {
  }

  /** The target secret, if the request has not changed and the secret is still there, names its owner and carries the
      document that was applied. */
  ghost predicate MintAnnotated(s: Cluster, n: Name, rv: nat, r: Request) {
    IsCurrent(s, n, rv) && r.spec.secretRef in s.secrets && r.spec.provider.Some? && r.status.user in s.users ==>
      var notes := s.secrets[r.spec.secretRef].annotations;
      && notes.owner == Some(OwnerAnnotation(n))
      && notes.lastPolicy == Some(Applied(DesiredPolicy(r.spec.provider.value, s.users[r.status.user].arn)))
  }

  /** The part of syncMint after recording the name. */
  method FinishMint(w: World, n: Name, rv: nat, r: Request, keyId: string, keySecret: string) returns (err: Err)
    requires w.Valid() && Equipped(w.s, n, rv, r) && r.spec.provider.Some?
    modifies w
    ensures w.Valid() && Advances(old(w.s), w.s) && w.Onward()
    ensures old(w.Quiet()) ==> w.s.now == old(w.s).now
    ensures err.NoError? ==> Settled(w.s, w.infra, w.uuid, n, rv, r) && MintAnnotated(w.s, n, rv, r)
    ensures old(w.Quiet()) ==> w.s.history == old(w.s).history
    ensures old(w.Quiet() && IsCurrent(w.s, n, rv) && QuietMint(w.s, r, keyId, keySecret)) ==>
      && (err.NoError? <==> !NilTarget(old(w.s), r)) && (err.Panic? <==> NilTarget(old(w.s), r))
      && (err.NoError? ==> InSync(w.s, w.infra, w.uuid, r))
    ensures old(w.Quiet() && !(CanRead(w.s, r) && CanWrite(w.s))
                && !(CanRead(w.s, r) && InSync(w.s, w.infra, w.uuid, r))) ==>
      err.Plain? && w.s.users == old(w.s).users && w.s.secrets == old(w.s).secrets
  {
    var doc, x, id, secret;
    err, doc, x, id, secret := Provision(w, n, rv, r, keyId, keySecret);
    SteadyAdvances(old(w.s), w.s);
    if !err.NoError? {
      return;
    }
    label provisioned:
    EquippedStays(old(w.s), w.s, n, rv, r);
    w.Known();
    EquippedUser(w.s, n, rv, r);
    WrittenKey(w.s.issued, x, id, secret);
    err := SyncAccessKeySecret(w, n, rv, r, id, secret, x, Applied(doc));
    AdvancesTrans(old(w.s), old@provisioned(w.s), w.s);
    if err.NoError? {
      MintSettles(old@provisioned(w.s), w.s, w.infra, w.uuid, n, rv, r, if id == "" then KeyId(x.value.data) else id,
                  WrittenAnnotations(x, n, Applied(doc)), WrittenData(x, id, secret));
    }
  }

  /** syncMint. name is what generateUserName yields and (keyId, keySecret) is the key AWS issues if asked. */
  method SyncMint(w: World, cr: Copy, name: Option<string>, keyId: string, keySecret: string) returns (err: Err)
    requires w.Valid() && Aligned(w.s, cr.name, cr.rv, cr.r)
    requires cr.r.status.user == "" && name.Some? ==> MayClaim(w.s, name.value)
    modifies w, cr
    ensures w.Valid() && Advances(old(w.s), w.s) && w.Onward()
    ensures old(w.Quiet()) ==> w.s.now == old(w.s).now
    ensures Writable(w.s, cr.name, cr.rv, cr.r) && (err.NoError? ==> Aligned(w.s, cr.name, cr.rv, cr.r))
    ensures cr.r == old(cr.r).(status := old(cr.r).status.(user := cr.r.status.user, policy := cr.r.status.policy))
    ensures cr.rv == old(cr.rv) || old(cr.r).status.user == "" != cr.r.status.user
    ensures err.NoError? ==>
      Settled(w.s, w.infra, w.uuid, cr.name, cr.rv, cr.r) && MintAnnotated(w.s, cr.name, cr.rv, cr.r)
    ensures err.NoError? ==>
      var tags := w.s.users[cr.r.status.user].tags;
      if w.infra != "" then
        "kubernetes.io/cluster/" + w.infra in tags && tags["kubernetes.io/cluster/" + w.infra] == "owned"
      else "openshiftClusterID" in tags && tags["openshiftClusterID"] == w.uuid
    ensures old(w.Quiet() && IsCurrent(w.s, cr.name, cr.rv) && !Lacking(w.s, cr.r, name.Some?)
                && FreshKey(w.s, keyId, keySecret)) ==>
      && (err.NoError? <==> !NilTarget(old(w.s), old(cr.r))) && (err.Panic? <==> NilTarget(old(w.s), old(cr.r)))
      && IsCurrent(w.s, cr.name, cr.rv)
      && (err.NoError? ==> InSync(w.s, w.infra, w.uuid, cr.r))
    ensures old(w.Quiet() && IsCurrent(w.s, cr.name, cr.rv) && Lacking(w.s, cr.r, name.Some?)
                && !(CanRead(w.s, cr.r) && InSync(w.s, w.infra, w.uuid, cr.r))) ==>
      && err.Plain? && w.s.users == old(w.s).users && w.s.secrets == old(w.s).secrets
      && IsCurrent(w.s, cr.name, cr.rv)
  {
    if cr.r.spec.provider.None? {
      AlignedStays(w.s, w.s, cr.name, cr.rv, cr.r);
      return Plain;
    }
    var named := EnsureName(w, cr, name);
    if !named {
      return Plain;
    }
    label named:
    err := FinishMint(w, cr.name, cr.rv, cr.r, keyId, keySecret);
    AdvancesTrans(old(w.s), old@named(w.s), w.s);
    AlignedStays(old@named(w.s), w.s, cr.name, cr.rv, cr.r);
    if err.NoError? {
      ExpectedTag(w.s.users[cr.r.status.user], w.infra, w.uuid);
    }
  }

  // ---- Passing through ----

  /** The secret k was annotated as passed through, but its data is what it was. */
  ghost predicate AnnotatedOnly(a: Cluster, b: Cluster, n: Name, k: Name) {
    && k in a.secrets && k in b.secrets && b.secrets[k].data == a.secrets[k].data
    && b.secrets[k].annotations.owner == Some(OwnerAnnotation(n))
    && b.secrets[k].annotations.lastPolicy == Some(NoPolicy)
  }

  /** Writing the root key pair passes it through; without one the data stays as it was. */
  lemma WrittenPasses(s: Cluster, n: Name, rv: nat, r: Request, root: Secret, x: Option<Secret>)
    requires RootPairWritten(s, n, rv, r.spec.secretRef, root, x)
    requires IsCurrent(s, n, rv) && r.spec.secretRef in s.secrets
    ensures HasKeyPair(root) && (x.Some? ==> x.value.data.Some?) ==> PassedThrough(s, n, r, root)
    ensures !HasKeyPair(root) && x.Some? ==>
      && s.secrets[r.spec.secretRef].data == x.value.data
      && s.secrets[r.spec.secretRef].annotations.owner == Some(OwnerAnnotation(n))
      && s.secrets[r.spec.secretRef].annotations.lastPolicy == Some(NoPolicy)
  {
  }

  lemma WrittenPairKept(issued: map<string, string>, root: Secret, x: Option<Secret>)
    requires PairKept(issued, root.data) && (x.Some? ==> PairKept(issued, x.value.data))
    ensures x.Some? || HasKeyPair(root) ==> PairKept(issued, WrittenData(x, KeyId(root.data), KeySecret(root.data)))
  {
  }

  /** A secret that carries the root key pair already is not changed. */
  lemma PassedUnchanged(s: Cluster, n: Name, r: Request, root: Secret)
    requires HasKeyPair(root) && PassedThrough(s, n, r, root)
    ensures WritesNothing(Some(s.secrets[r.spec.secretRef]), n, NoPolicy, KeyId(root.data), KeySecret(root.data))
  {
  }

  /** What a fault-free sync by passthrough does to the current version. */
  ghost predicate Passed(a: Cluster, b: Cluster, n: Name, rv: nat, before: Request, after: Request, root: Secret,
                         err: Err) {
    && (err.NoError? <==> !NilTarget(a, before)) && (err.Panic? <==> NilTarget(a, before))
    && after == before && b.users == a.users && IsCurrent(b, n, rv)
    && (err.NoError? ==> PassedThrough(b, n, before, root))
  }

  /** What a fault-free sync by passthrough does if there is no root key pair: it fails if there is no target secret,
      and otherwise succeeds without storing any key. */
  ghost predicate PassedNothing(a: Cluster, b: Cluster, n: Name, rv: nat, before: Request, after: Request, err: Err) {
    && after == before && b.users == a.users && IsCurrent(b, n, rv)
    && if before.spec.secretRef in a.secrets then err.NoError? && AnnotatedOnly(a, b, n, before.spec.secretRef)
       else b == a && err == ActuatorError(CredentialsProvisionFailure)
  }

  ghost predicate PassOutcome(a: Cluster, b: Cluster, n: Name, rv: nat, before: Request, after: Request, root: Secret,
                              err: Err)
  {
    if HasKeyPair(root) then Passed(a, b, n, rv, before, after, root, err)
    else PassedNothing(a, b, n, rv, before, after, err)
  }

  /** syncPassthrough. */
  method SyncPassthrough(w: World, n: Name, rv: nat, r: Request, root: Secret) returns (err: Err)
    requires w.Valid() && Working(w.s, n, rv, r) && PairKept(w.s.issued, root.data)
    modifies w
    ensures w.Valid() && Advances(old(w.s), w.s) && w.s.claims == old(w.s).claims && w.Onward()
    ensures old(w.Quiet()) ==> w.s.now == old(w.s).now
    ensures err.NoError? && HasKeyPair(root) && IsCurrent(w.s, n, rv) && r.spec.secretRef in w.s.secrets ==>
      PassedThrough(w.s, n, r, root)
    ensures err.NoError? || err.Panic? || err == ActuatorError(CredentialsProvisionFailure)
    ensures old(w.Quiet() && PassedThrough(w.s, n, r, root)) && HasKeyPair(root) ==>
      err.NoError? && w.s == old(w.s) && w.log == old(w.log)
    ensures old(w.Quiet()) ==> w.s.history == old(w.s).history
    ensures old(w.Quiet() && IsCurrent(w.s, n, rv)) ==>
      PassOutcome(old(w.s), w.s, n, rv, r, r, root, err)
  {
    ghost var x;
    err, x := LoadAndStore(w, n, rv, r, root);
    PassMeans(old(w.s), w.s, n, rv, r, root, x, err);
  }

  /** Reads the target secret, as x, and writes the root key pair to it. */
  method LoadAndStore(w: World, n: Name, rv: nat, r: Request, root: Secret) returns (err: Err, ghost x: Option<Secret>)
    requires w.Valid() && Working(w.s, n, rv, r) && PairKept(w.s.issued, root.data)
    modifies w
    ensures w.Valid() && Advances(old(w.s), w.s) && w.s.claims == old(w.s).claims && w.Onward()
    ensures err.NoError? ==> RootPairWritten(w.s, n, rv, r.spec.secretRef, root, x)
    ensures err.NoError? || err.Panic? || err == ActuatorError(CredentialsProvisionFailure)
    ensures err.Panic? <==> HasKeyPair(root) && x.Some? && x.value.data.None?
    ensures old(w.Quiet()) ==> w.s.history == old(w.s).history && w.s.now == old(w.s).now
    ensures old(w.Quiet()) ==>
      ReadAs(old(w.s), r.spec.secretRef, x) && StoreResult(old(w.s), w.s, r, root, x, err)
    ensures old(w.Quiet() && PassedThrough(w.s, n, r, root)) && HasKeyPair(root) ==>
      err.NoError? && w.s == old(w.s) && w.log == old(w.log)
  {
    var target := LoadExistingSecret(w, r.spec.secretRef);
    x := target;
    RelySteady(old(w.s), w.s);
    SteadyAdvances(old(w.s), w.s);
    WorkingStays(old(w.s), w.s, n, rv, r);
    if x.Some? {
      StillThereStays(old(w.s), w.s, n, rv, r, x);
    }
    label loaded:
    if HasKeyPair(root) && PassedThrough(w.s, n, r, root) {
      PassedUnchanged(w.s, n, r, root);
    }
    err := StoreRootPair(w, n, rv, r, root, target);
    AdvancesTrans(old(w.s), old@loaded(w.s), w.s);
  }

  /** How a fault-free write of the root key pair to the target secret, read as x, comes out. */
  ghost predicate StoreResult(a: Cluster, b: Cluster, r: Request, root: Secret, x: Option<Secret>, err: Err) {
    && b == a.(secrets := b.secrets, nextVersion := b.nextVersion)
    && (err.Panic? <==> HasKeyPair(root) && x.Some? && x.value.data.None?)
    && if HasKeyPair(root) || x.Some? then
         (err.NoError? || err.Panic?) && (err.NoError? ==> r.spec.secretRef in b.secrets)
       else err == ActuatorError(CredentialsProvisionFailure) && b == a
  }

  lemma PassMeans(a: Cluster, b: Cluster, n: Name, rv: nat, r: Request, root: Secret, x: Option<Secret>, err: Err)
    requires err.NoError? ==> RootPairWritten(b, n, rv, r.spec.secretRef, root, x)
    requires err.Panic? <==> HasKeyPair(root) && x.Some? && x.value.data.None?
    ensures err.NoError? && HasKeyPair(root) && IsCurrent(b, n, rv) && r.spec.secretRef in b.secrets ==>
      PassedThrough(b, n, r, root)
    ensures IsCurrent(a, n, rv) && ReadAs(a, r.spec.secretRef, x) && StoreResult(a, b, r, root, x, err) ==>
      PassOutcome(a, b, n, rv, r, r, root, err)
  {
    if err.NoError? && IsCurrent(b, n, rv) && r.spec.secretRef in b.secrets {
      WrittenPasses(b, n, rv, r, root, x);
    }
    if IsCurrent(a, n, rv) && ReadAs(a, r.spec.secretRef, x) && StoreResult(a, b, r, root, x, err) {
      PassResult(a, b, n, rv, r, root, x, err);
    }
  }

  lemma PassResult(a: Cluster, b: Cluster, n: Name, rv: nat, r: Request, root: Secret, x: Option<Secret>, err: Err)
    requires IsCurrent(a, n, rv) && ReadAs(a, r.spec.secretRef, x) && StoreResult(a, b, r, root, x, err)
    requires err.NoError? ==> RootPairWritten(b, n, rv, r.spec.secretRef, root, x)
    ensures PassOutcome(a, b, n, rv, r, r, root, err)
  {
    assert Hist(b, n) == Hist(a, n);
    if err.NoError? {
      WrittenPasses(b, n, rv, r, root, x);
    }
  }

  /** Writes the root key pair to the target secret, which was read as x. */
  method StoreRootPair(w: World, n: Name, rv: nat, r: Request, root: Secret, x: Option<Secret>) returns (err: Err)
    requires w.Valid() && Working(w.s, n, rv, r) && PairKept(w.s.issued, root.data)
    requires x.Some? ==> StillThere(w.s, n, rv, r.spec.secretRef, x) && PairKept(w.s.issued, x.value.data)
    modifies w
    ensures w.Valid() && Advances(old(w.s), w.s) && w.s.claims == old(w.s).claims && w.Onward()
    ensures err.NoError? ==> RootPairWritten(w.s, n, rv, r.spec.secretRef, root, x)
    ensures err.NoError? || err.Panic? || err == ActuatorError(CredentialsProvisionFailure)
    ensures err.Panic? <==> HasKeyPair(root) && x.Some? && x.value.data.None?
    ensures old(w.Quiet()) ==> w.s.history == old(w.s).history && w.s.now == old(w.s).now
    ensures old(w.Quiet()) && ReadAs(old(w.s), r.spec.secretRef, x) ==> StoreResult(old(w.s), w.s, r, root, x, err)
    ensures old(w.Quiet()) && err.NoError? && WritesNothing(x, n, NoPolicy, KeyId(root.data), KeySecret(root.data)) ==>
      w.s == old(w.s) && w.log == old(w.log)
  {
    WrittenPairKept(w.s.issued, root, x);
    var e := SyncAccessKeySecret(w, n, rv, r, KeyId(root.data), KeySecret(root.data), x, NoPolicy);
    err := if e.NoError? || e.Panic? then e else ActuatorError(CredentialsProvisionFailure);
  }

  /** The target secret, read as x, is as it is written when the root credentials are passed through. */
  ghost predicate RootPairWritten(s: Cluster, n: Name, rv: nat, k: Name, root: Secret, x: Option<Secret>) {
    SecretWritten(s, n, rv, k, WrittenAnnotations(x, n, NoPolicy),
                  WrittenData(x, KeyId(root.data), KeySecret(root.data)))
  }

  // ---- sync ----

  /** The call failed for this reason and left everything as it was. */
  ghost predicate Unmoved(a: Cluster, b: Cluster, before: Request, after: Request, err: Err, reason: ConditionType) {
    b == a && after == before && err == ActuatorError(reason)
  }

  /** The mint failed before it could change a user or a secret. */
  ghost predicate Unminted(a: Cluster, b: Cluster, n: Name, rv: nat, err: Err) {
    && err == ActuatorError(CredentialsProvisionFailure)
    && b.users == a.users && b.secrets == a.secrets && IsCurrent(b, n, rv)
  }

  /** The call succeeded and left everything as it was. */
  ghost predicate Idle(a: Cluster, b: Cluster, before: Request, after: Request, err: Err) {
    b == a && after == before && err.NoError?
  }

  /** The part of sync that provisions, by the mode of the root secret. */
  method SyncByMode(w: World, cr: Copy, name: Option<string>, keyId: string, keySecret: string, root: Secret)
    returns (err: Err)
    requires w.Valid() && Aligned(w.s, cr.name, cr.rv, cr.r) && root.annotations.mode.Some?
    requires PairKept(w.s.issued, root.data)
    requires cr.r.status.user == "" && name.Some? ==> MayClaim(w.s, name.value)
    modifies w, cr
    ensures w.Valid() && Advances(old(w.s), w.s) && w.Onward()
    ensures old(w.Quiet()) ==> w.s.now == old(w.s).now
    ensures Writable(w.s, cr.name, cr.rv, cr.r) && (err.NoError? ==> Aligned(w.s, cr.name, cr.rv, cr.r))
    ensures cr.r == old(cr.r).(status := old(cr.r).status.(user := cr.r.status.user, policy := cr.r.status.policy))
    ensures cr.rv == old(cr.rv) || old(cr.r).status.user == "" != cr.r.status.user
    ensures err.NoError? ==> Outcome(w.s, w.infra, w.uuid, cr.name, cr.rv, cr.r, Some(root))
    ensures !err.Plain?
    ensures err.ActuatorError? ==> err.reason == InsufficientCloudCreds || err.reason == CredentialsProvisionFailure
    ensures old(w.Quiet() && PassedThrough(w.s, cr.name, cr.r, root)) && HasKeyPair(root)
            && root.annotations.mode == Some(Passthrough) ==>
      err.NoError? && w.s == old(w.s) && w.log == old(w.log)
    ensures root.annotations.mode.value.OtherMode? ==> Idle(old(w.s), w.s, old(cr.r), cr.r, err)
    ensures root.annotations.mode == Some(Insufficient) ==>
      Unmoved(old(w.s), w.s, old(cr.r), cr.r, err, InsufficientCloudCreds)
    ensures old(w.Quiet() && IsCurrent(w.s, cr.name, cr.rv)) ==>
      ByRoot(old(w.s), w.s, w.infra, w.uuid, cr.name, cr.rv, old(cr.r), cr.r, name.Some?, keyId, keySecret, err, root)
    ensures err == ActuatorError(InsufficientCloudCreds) <==> root.annotations.mode == Some(Insufficient)
  {
    AlignedStays(w.s, w.s, cr.name, cr.rv, cr.r);
    match root.annotations.mode.value
    case Insufficient => err := ActuatorError(InsufficientCloudCreds);
    case Passthrough =>
      err := SyncPassthrough(w, cr.name, cr.rv, cr.r, root);
      AlignedStays(old(w.s), w.s, cr.name, cr.rv, cr.r);
    case Mint =>
      var e := SyncMint(w, cr, name, keyId, keySecret);
      err := if e.NoError? || e.Panic? then e else ActuatorError(CredentialsProvisionFailure);
    case OtherMode(_) => err := NoError;
  }

  /** The first half of sync: the infrastructure name and needsUpdate. None is the plain error of the former. */
  method Assess(w: World, n: Name, rv: nat, r: Request) returns (v: Option<Verdict>)
    requires w.Valid() && Working(w.s, n, rv, r)
    modifies w
    ensures w.Paused()
    ensures v == Some(UpToDate) ==> Settled(w.s, w.infra, w.uuid, n, rv, r)
    ensures old(w.Quiet()) ==> v.Some? && (v.value.UpToDate? <==> CanRead(w.s, r) && InSync(w.s, w.infra, w.uuid, r))
    ensures old(w.Quiet()) ==> (v.value.Outdated? <==> NeedsWork(w.s, w.infra, w.uuid, r))
    ensures old(w.Quiet()) && CanRead(w.s, r) && r.spec.provider.Some? ==> (v.value.Undecided? <==> Stuck(w.s, r))
  {
    var infra := w.LoadInfrastructureName();
    RelySteady(old(w.s), w.s);
    SteadyAdvances(old(w.s), w.s);
    WorkingStays(old(w.s), w.s, n, rv, r);
    if infra.None? {
      return None;
    }
    label named:
    var verdict := NeedsUpdate(w, n, rv, r);
    RelyTrans(old(w.s), old@named(w.s), w.s);
    RelySteady(old(w.s), w.s);
    SteadyAdvances(old(w.s), w.s);
    WorkingStays(old(w.s), w.s, n, rv, r);
    v := Some(verdict);
  }

  /** The second half of sync: the root secret and its mode. */
  method SyncOutdated(w: World, cr: Copy, name: Option<string>, keyId: string, keySecret: string)
    returns (err: Err, saw: Option<Secret>)
    requires w.Valid() && Aligned(w.s, cr.name, cr.rv, cr.r)
    requires cr.r.status.user == "" && name.Some? ==> MayClaim(w.s, name.value)
    modifies w, cr
    ensures w.Valid() && Advances(old(w.s), w.s) && w.Onward()
    ensures old(w.Quiet()) ==> w.s.now == old(w.s).now
    ensures Writable(w.s, cr.name, cr.rv, cr.r) && (err.NoError? ==> Aligned(w.s, cr.name, cr.rv, cr.r))
    ensures cr.r == old(cr.r).(status := old(cr.r).status.(user := cr.r.status.user, policy := cr.r.status.policy))
    ensures cr.rv == old(cr.rv) || old(cr.r).status.user == "" != cr.r.status.user
    ensures err.NoError? ==> saw.Some? && Outcome(w.s, w.infra, w.uuid, cr.name, cr.rv, cr.r, saw)
    ensures SeenInRun(w.init, w.log, saw)
    ensures !err.Plain?
    ensures err.ActuatorError? ==> err.reason == InsufficientCloudCreds || err.reason == CredentialsProvisionFailure
    ensures old(w.Quiet() && RootMode(w.s).None?) ==> w.s == old(w.s) && w.log == old(w.log) && !err.NoError?
    ensures old(w.Quiet() && RootPasses(w.s) && PassedThrough(w.s, cr.name, cr.r, w.s.secrets[ROOT_CREDS])) ==>
      err.NoError? && w.s == old(w.s) && w.log == old(w.log)
    ensures old(w.Quiet() && IsCurrent(w.s, cr.name, cr.rv)) ==>
      ByMode(old(w.s), w.s, w.infra, w.uuid, cr.name, cr.rv, old(cr.r), cr.r, name.Some?, keyId, keySecret, err)
    ensures err == ActuatorError(InsufficientCloudCreds) <==>
      saw.Some? && saw.value.annotations.mode == Some(Insufficient)
  {
    saw := None;
    var root := w.GetSecret(ROOT_CREDS);
    RelySteady(old(w.s), w.s);
    SteadyAdvances(old(w.s), w.s);
    AlignedStays(old(w.s), w.s, cr.name, cr.rv, cr.r);
    if !root.Found? || root.value.annotations.mode.None? {
      return ActuatorError(CredentialsProvisionFailure), saw;
    }
    label moded:
    saw := Some(root.value);
    err := SyncByMode(w, cr, name, keyId, keySecret, root.value);
    AdvancesTrans(old(w.s), old@moded(w.s), w.s);
    RootSeen(w.init, old(w.log), w.log, root.value);
  }

  lemma RootSeen(init: Cluster, before: seq<Action>, log: seq<Action>, x: Secret)
    requires before <= log && ROOT_CREDS in Exec(init, before).secrets && Exec(init, before).secrets[ROOT_CREDS] == x
    ensures SeenInRun(init, log, Some(x))
  {
    assert log[..|before|] == before;
    assert RootAt(init, log, |before|) == Some(x);
  }

  /** Nothing stands in the way of a fault-free mint. */
  ghost predicate MintClear(s: Cluster, r: Request, keyId: string, keySecret: string) {
    QuietMint(s, r, keyId, keySecret) && RootMode(s) == Some(Mint)
  }

  /** What a fault-free sync that has something to do does to the current version, by the mode of the root secret.
      Minting, given all it needs, succeeds and ends in sync exactly unless the target secret's Data map is nil, and
      fails without touching a user or a secret if it lacks something;
      insufficient credentials change nothing; passing through puts the root key pair in the target secret, or without
      one fails or succeeds without storing a key; an unknown mode succeeds without doing anything; and without a mode
      it fails without doing anything. */
  ghost predicate ByMode(a: Cluster, b: Cluster, infra: string, uuid: string, n: Name, rv: nat, before: Request,
                         after: Request, named: bool, keyId: string, keySecret: string, err: Err)
  {
    if RootMode(a).None? then Unmoved(a, b, before, after, err, CredentialsProvisionFailure)
    else ByRoot(a, b, infra, uuid, n, rv, before, after, named, keyId, keySecret, err, a.secrets[ROOT_CREDS])
  }

  /** ... given the root secret, which has a mode. */
  ghost predicate ByRoot(a: Cluster, b: Cluster, infra: string, uuid: string, n: Name, rv: nat, before: Request,
                         after: Request, named: bool, keyId: string, keySecret: string, err: Err, root: Secret)
    requires root.annotations.mode.Some?
  {
    match root.annotations.mode.value
    case Insufficient => Unmoved(a, b, before, after, err, InsufficientCloudCreds)
    case OtherMode(_) => Idle(a, b, before, after, err)
    case Passthrough => PassOutcome(a, b, n, rv, before, after, root, err)
    case Mint =>
      if Lacking(a, before, named) then
        !(CanRead(a, before) && InSync(a, infra, uuid, before)) ==> Unminted(a, b, n, rv, err)
      else
        FreshKey(a, keyId, keySecret) ==>
          && (err.NoError? <==> !NilTarget(a, before)) && (err.Panic? <==> NilTarget(a, before))
          && IsCurrent(b, n, rv) && (err.NoError? ==> InSync(b, infra, uuid, after))
  }

  /** What a fault-free sync of the current version does. Where there is nothing to do it succeeds if in sync, and where
      the state cannot be judged it fails; neither changes anything. */
  ghost predicate Synced(a: Cluster, b: Cluster, infra: string, uuid: string, n: Name, rv: nat, before: Request,
                         after: Request, named: bool, keyId: string, keySecret: string, err: Err)
  {
    && b.now == a.now && (b == a && after == before ==> IsCurrent(b, n, rv))
    && if NeedsWork(a, infra, uuid, before) then
         ByMode(a, b, infra, uuid, n, rv, before, after, named, keyId, keySecret, err)
       else if CanRead(a, before) && InSync(a, infra, uuid, before) then Idle(a, b, before, after, err)
       else Unmoved(a, b, before, after, err, CredentialsProvisionFailure)
  }

  /** Fault-free minting, exactly: given all it needs it succeeds, and ends in sync, exactly unless the recorded user is
      missing behind an existing target secret or that secret's Data map is nil; in the latter case alone it panics. */
  lemma MintExact(a: Cluster, b: Cluster, infra: string, uuid: string, n: Name, rv: nat, before: Request,
                  after: Request, named: bool, keyId: string, keySecret: string, err: Err)
    requires Synced(a, b, infra, uuid, n, rv, before, after, named, keyId, keySecret, err)
    requires MintClear(a, before, keyId, keySecret) && (named || before.status.user != "")
    ensures err.NoError? <==> !Stuck(a, before) && !NilTarget(a, before)
    ensures err.Panic? <==> !Stuck(a, before) && NilTarget(a, before)
    ensures IsCurrent(b, n, rv) && (err.NoError? ==> InSync(b, infra, uuid, after))
  {
  }

  /** sync, behind both Create and Update. saw is the root secret it read, if the request was not up to date. */
  method Sync(w: World, cr: Copy, name: Option<string>, keyId: string, keySecret: string)
    returns (err: Err, saw: Option<Secret>)
    requires w.Valid() && Aligned(w.s, cr.name, cr.rv, cr.r)
    requires cr.r.status.user == "" && name.Some? ==> MayClaim(w.s, name.value)
    modifies w, cr
    ensures w.Valid() && Advances(old(w.s), w.s) && w.Onward()
    ensures old(w.Quiet()) ==> w.s.now == old(w.s).now
    ensures Writable(w.s, cr.name, cr.rv, cr.r) && (err.NoError? ==> Aligned(w.s, cr.name, cr.rv, cr.r))
    ensures cr.r == old(cr.r).(status := old(cr.r).status.(user := cr.r.status.user, policy := cr.r.status.policy))
    ensures cr.rv == old(cr.rv) || old(cr.r).status.user == "" != cr.r.status.user
    ensures err.NoError? ==> Outcome(w.s, w.infra, w.uuid, cr.name, cr.rv, cr.r, saw)
    ensures SeenInRun(w.init, w.log, saw)
    ensures err.ActuatorError? ==> err.reason == InsufficientCloudCreds || err.reason == CredentialsProvisionFailure
    // In sync already: nothing is written.
    ensures old(w.Quiet() && CanRead(w.s, cr.r) && InSync(w.s, w.infra, w.uuid, cr.r)) ==>
      err.NoError? && w.s == old(w.s) && w.log == old(w.log) && cr.r == old(cr.r)
    // Admin credentials removed: nothing is written, and being in sync is what success means.
    ensures old(w.Quiet() && ROOT_CREDS !in w.s.secrets) ==>
      && w.s == old(w.s) && w.log == old(w.log)
      && (err.NoError? <==> old(CanRead(w.s, cr.r) && InSync(w.s, w.infra, w.uuid, cr.r)))
    // Fault-free on the current version: by the mode of the root secret.
    ensures old(w.Quiet() && IsCurrent(w.s, cr.name, cr.rv)) ==>
      Synced(old(w.s), w.s, w.infra, w.uuid, cr.name, cr.rv, old(cr.r), cr.r, name.Some?, keyId, keySecret, err)
    // A repeated passthrough sync writes nothing.
    ensures old(w.Quiet() && NeedsWork(w.s, w.infra, w.uuid, cr.r) && RootPasses(w.s)
                && PassedThrough(w.s, cr.name, cr.r, w.s.secrets[ROOT_CREDS])) ==>
      err.NoError? && w.s == old(w.s) && w.log == old(w.log)
    ensures err == ActuatorError(InsufficientCloudCreds) <==>
      saw.Some? && saw.value.annotations.mode == Some(Insufficient)
  {
    saw := None;
    AlignedStays(w.s, w.s, cr.name, cr.rv, cr.r);
    var v := Assess(w, cr.name, cr.rv, cr.r);
    RelySteady(old(w.s), w.s);
    SteadyAdvances(old(w.s), w.s);
    AlignedStays(old(w.s), w.s, cr.name, cr.rv, cr.r);
    if v.None? {
      return Plain, saw;
    }
    if v.value.Undecided? {
      return ActuatorError(CredentialsProvisionFailure), saw;
    }
    if v.value.UpToDate? {
      return NoError, saw;
    }
    label outdated:
    err, saw := SyncOutdated(w, cr, name, keyId, keySecret);
    AdvancesTrans(old(w.s), old@outdated(w.s), w.s);
  }

  /** The root secret says passthrough and holds a key pair. */
  predicate RootPasses(s: Cluster) {
    RootMode(s) == Some(Passthrough) && HasKeyPair(s.secrets[ROOT_CREDS])
  }

  function RootMode(s: Cluster): Option<Mode> {
    if ROOT_CREDS in s.secrets then s.secrets[ROOT_CREDS].annotations.mode else None
  }

  /** Idempotence: a sync that succeeded, under whatever faults, followed by a fault-free one. If the request is
      unchanged, its target secret still there and the user it was settled for can be read, the second finds nothing to
      do and writes nothing. mid and midLog are the state and the run between the two. */
  method SyncTwice(w: World, cr: Copy, name: Option<string>, keyId: string, keySecret: string, nextId: string,
                   nextSecret: string)
    returns (first: Err, second: Err, saw: Option<Secret>, ghost mid: Cluster, ghost midLog: seq<Action>,
             ghost calm: bool)
    requires w.Valid() && Aligned(w.s, cr.name, cr.rv, cr.r)
    requires cr.r.status.user == "" && name.Some? ==> MayClaim(w.s, name.value)
    modifies w, cr
    ensures w.Valid() && w.Onward()
    ensures && first.NoError? && (saw.None? || saw.value.annotations.mode == Some(Mint))
            && calm && IsCurrent(mid, cr.name, cr.rv) && cr.r.spec.secretRef in mid.secrets && CanRead(mid, cr.r) ==>
      second.NoError? && w.s == mid && w.log == midLog
  {
    second := Plain;
    first, saw := Sync(w, cr, name, keyId, keySecret);
    mid, midLog, calm := w.s, w.log, w.Quiet();
    if !first.NoError? {
      return;
    }
    var again;
    second, again := Sync(w, cr, None, nextId, nextSecret);
  }

  // ---- Delete ----

  /** The working copy of a deleted version. */
  ghost predicate Deleting(s: Cluster, n: Name, rv: nat, r: Request) {
    && Holds(s, n, rv) && Version(s, n, rv).deleted && r == Version(s, n, rv).(status := r.status)
    && r.status.user == Version(s, n, rv).status.user && r.status.policy == Version(s, n, rv).status.policy
  }

  /** Removes the inline policy of the user; a missing user or policy is no error. */
  method DeleteUserPolicy(w: World, c: Client, n: Name, rv: nat, r: Request) returns (ok: bool)
    requires w.Valid() && Deleting(w.s, n, rv, r) && r.status.user != "" && c.access == Root
    modifies w
    ensures w.Valid() && Steady(old(w.s), w.s) && w.Onward()
    ensures old(w.Quiet()) ==> CloudOnly(old(w.s), w.s)
    ensures ok && r.status.user in w.s.users ==> w.s.users[r.status.user].policies == map[]
    ensures old(w.Quiet()) ==> (ok <==> c.Usable())
  {
    var u, call := r.status.user, DeletePolicy(r.status.policy);
    w.Known();
    NamedUser(w.s, n, rv, u);
    var reply := w.CallIam(c, n, rv, u, call);
    CallSteady(old(w.s), u, call, w.s);
    ok := reply.Answer? || reply.NoSuchEntity?;
    if ok {
      CallOnUser(old(w.s), u, call, w.s);
      if u in old(w.s).users {
        assert (old(w.s).users[u].policies - {r.status.policy}).Keys == {};
      }
    }
  }

  /** Deletes the user; a missing user is no error, and IAM refuses a user that still has keys or policies. */
  method DeleteIamUser(w: World, c: Client, n: Name, rv: nat, r: Request) returns (ok: bool)
    requires w.Valid() && Deleting(w.s, n, rv, r) && r.status.user != "" && c.access == Root
    modifies w
    ensures w.Valid() && Steady(old(w.s), w.s) && w.Onward()
    ensures old(w.Quiet()) ==> CloudOnly(old(w.s), w.s)
    ensures ok ==> r.status.user !in w.s.users
    ensures old(w.Quiet() && Deletable(w.s, r.status.user)) && c.Usable() ==> ok
  {
    var u := r.status.user;
    w.Known();
    NamedUser(w.s, n, rv, u);
    var reply := w.CallIam(c, n, rv, u, DeleteUser);
    CallSteady(old(w.s), u, DeleteUser, w.s);
    ok := reply.Answer? || reply.NoSuchEntity?;
    if ok {
      CallOnUser(old(w.s), u, DeleteUser, w.s);
    }
  }

  lemma DeletingStays(a: Cluster, b: Cluster, n: Name, rv: nat, r: Request)
    requires Deleting(a, n, rv, r) && Advances(a, b)
    ensures Deleting(b, n, rv, r)
  {
    assert Hist(a, n) <= Hist(b, n);
  }

  /** Delete: whichever way it returns without an error, the recorded user is gone. */
  method Delete(w: World, n: Name, rv: nat, r: Request) returns (ok: bool)
    requires w.Valid() && Deleting(w.s, n, rv, r)
    modifies w
    ensures w.Valid() && Steady(old(w.s), w.s) && w.Onward()
    ensures ok && r.status.user != "" ==> r.status.user !in w.s.users
    ensures old(w.Quiet()) ==> CloudOnly(old(w.s), w.s)
    ensures old(w.Quiet()) ==> (ok <==> r.status.user == "" || CanWrite(old(w.s)))
  {
    if r.status.user == "" {
      return true;
    }
    var infra := w.LoadInfrastructureName();
    RelySteady(old(w.s), w.s);
    if infra.None? {
      return false;
    }
    label named:
    var root := BuildRootClient(w);
    RelySteady(old@named(w.s), w.s);
    SteadyTrans(old(w.s), old@named(w.s), w.s);
    if root.None? {
      return false;
    }
    label rooted:
    SteadyAdvances(old(w.s), w.s);
    DeletingStays(old(w.s), w.s, n, rv, r);
    ok := DeleteUserPolicy(w, root.value, n, rv, r);
    SteadyTrans(old(w.s), old@rooted(w.s), w.s);
    if !ok {
      return;
    }
    label stripped:
    SteadyAdvances(old(w.s), w.s);
    DeletingStays(old(w.s), w.s, n, rv, r);
    ok := DeleteKeysAndUser(w, root.value, n, rv, r);
    SteadyTrans(old(w.s), old@stripped(w.s), w.s);
  }

  /** The rest of Delete, once the policy is gone. */
  method DeleteKeysAndUser(w: World, c: Client, n: Name, rv: nat, r: Request) returns (ok: bool)
    requires w.Valid() && Deleting(w.s, n, rv, r) && r.status.user != "" && c.access == Root
    modifies w
    ensures w.Valid() && Steady(old(w.s), w.s) && w.Onward()
    ensures ok ==> r.status.user !in w.s.users
    ensures old(w.Quiet()) ==> CloudOnly(old(w.s), w.s)
    ensures old(w.Quiet() && (r.status.user in w.s.users ==> w.s.users[r.status.user].policies == map[]))
            && c.Usable() ==>
      ok
  {
    var u := r.status.user;
    w.Known();
    NamedUser(w.s, n, rv, u);
    var keys := w.ListAccessKeys(c, u);
    RelySteady(old(w.s), w.s);
    assert SameUser(old(w.s), w.s, u);
    if keys.NoSuchEntity? {
      return true;
    }
    if !keys.Answer? {
      return false;
    }
    label listed:
    SteadyAdvances(old(w.s), w.s);
    DeletingStays(old(w.s), w.s, n, rv, r);
    ok := DeleteAllAccessKeys(w, c, n, rv, u, keys.value);
    SteadyTrans(old(w.s), old@listed(w.s), w.s);
    if !ok {
      return;
    }
    label cleared:
    SteadyAdvances(old(w.s), w.s);
    DeletingStays(old(w.s), w.s, n, rv, r);
    ok := DeleteIamUser(w, c, n, rv, r);
    SteadyTrans(old(w.s), old@cleared(w.s), w.s);
  }
}
