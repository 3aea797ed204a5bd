/** The two stores the operator works on, as one value, and the effect of every atomic call on them.

    A CredentialsRequest is kept as the list of all its stored versions: its resourceVersion is an index in
    that list, a write carrying a resourceVersion takes effect only if it is the last index, and a cached
    read returns some version that is not older than the last one the worker was shown. */
module Store {
  import opened Wrappers
  import opened Conditions
  import opened Naming
  import opened Policies

  // ---- Kubernetes objects ----

  /** The operator's own finalizer, and those of others. */
  datatype Finalizer = Deprovision | Foreign(name: string)

  /** provider is None when the raw provider spec is missing or cannot be decoded. */
  datatype Spec = Spec(secretRef: Name, provider: Option<seq<Statement>>)

  /** user and policy are the decoded AWS provider status; both are empty when there is none. */
  datatype Status = Status(
    provisioned: bool,
    lastSyncTime: Option<nat>,
    lastSyncGeneration: nat,
    user: string,
    policy: string,
    conditions: seq<Condition>)

  /** uid tells apart objects that reuse a name: it is the index at which the object was first stored. */
  datatype Request = Request(
    uid: nat,
    generation: nat,
    deleted: bool,
    finalizers: set<Finalizer>,
    spec: Spec,
    status: Status)

  const EMPTY_STATUS := Status(false, None, 0, "", "", [])

  datatype Mode = Mint | Passthrough | Insufficient | OtherMode(value: string)

  /** The policy-last-applied annotation: empty in passthrough mode, else the applied document. */
  datatype PolicyText = NoPolicy | Applied(doc: Document)

  datatype Annotations = Annotations(
    owner: Option<string>,
    lastPolicy: Option<PolicyText>,
    mode: Option<Mode>,
    rest: map<string, string>)

  /** The two data entries the operator knows, and all others. */
  datatype Data = Data(id: Option<string>, secret: Option<string>, rest: map<string, string>)

  /** data is None when the secret's Data map is nil. */
  datatype Secret = Secret(version: nat, annotations: Annotations, data: Option<Data>)

  const ROOT_CREDS := Name("kube-system", "aws-creds")
  const RO_CREDS := Name("openshift-cloud-credential-operator", "cloud-credential-operator-iam-ro-creds")

  // ---- AWS IAM ----

  datatype User = User(
    arn: string,
    tags: map<string, string>,
    policies: map<string, Document>,
    keys: map<string, string>)

  function ArnOf(user: string): string {
    "arn:aws:iam::account:user/" + user
  }

  // ---- The state of a run ----

  /** Which request, in which incarnation, has persisted a user name. */
  datatype Claim = Claim(n: Name, uid: nat)

  /** What a sync that reports success worked with: the names of the cluster and the root secret it read, if it read
      it. */
  datatype Success = Success(infra: string, uuid: string, saw: Option<Secret>)

  /** The actuator reported success for this spec at this generation of this object at this time. */
  datatype SyncRecord = SyncRecord(n: Name, uid: nat, generation: nat, spec: Spec, at: nat)

  /** The fields from drawn on are history variables: they record what happened and steer nothing. */
  datatype Cluster = Cluster(
    history: map<Name, seq<Option<Request>>>,
    seen: map<Name, nat>,
    namespaces: set<string>,
    secrets: map<Name, Secret>,
    nextVersion: nat,
    users: map<string, User>,
    now: nat,
    drawn: set<string>,
    claims: map<string, Claim>,
    minted: set<string>,
    issued: map<string, string>,
    synced: set<SyncRecord>,
    caught: set<Name>,
    owed: set<Name>)

  function Hist(s: Cluster, n: Name): seq<Option<Request>> {
    if n in s.history then s.history[n] else [None]
  }

  function SeenAt(s: Cluster, n: Name): nat {
    if n in s.seen then s.seen[n] else 0
  }

  /** The stored version of a request. */
  function Stored(s: Cluster, n: Name): Option<Request> {
    var h := Hist(s, n);
    if h == [] then None else h[|h| - 1]
  }

  predicate IsCurrent(s: Cluster, n: Name, rv: nat) {
    rv + 1 == |Hist(s, n)|
  }

  predicate Guarded(r: Option<Request>) {
    r.Some? && Deprovision in r.value.finalizers
  }

  // ---- Environment steps ----

  datatype EnvAction =
    | Submit(n: Name, spec: Spec, finalizers: set<Finalizer>)
    | Edit(n: Name, spec: Spec)
    | MarkDeleted(n: Name)
    | AddForeignFinalizer(n: Name, f: string)
    | DropForeignFinalizer(n: Name, f: string)
    | Tick(seconds: nat)
    | SetNamespaces(ns: set<string>)
    | PutSecret(k: Name, annotations: Annotations, data: Option<Data>)
    | DropSecret(k: Name)
    | SetForeignUser(u: string, user: Option<User>)

  function Append(s: Cluster, n: Name, v: Option<Request>): Cluster {
    s.(history := s.history[n := Hist(s, n) + [v]])
  }

  /** A deleted object goes away with its last finalizer. */
  function Finish(r: Request): Option<Request> {
    if r.deleted && r.finalizers == {} then None else Some(r)
  }

  /** k is the target of a request that carries the operator's finalizer. */
  predicate IsTarget(s: Cluster, k: Name) {
    exists n | n in s.history :: Guarded(Stored(s, n)) && Stored(s, n).value.spec.secretRef == k
  }

  /** A key id that was issued to the operator comes with the secret value issued alongside it. */
  predicate PairKept(issued: map<string, string>, d: Option<Data>) {
    d.Some? && d.value.id.Some? && d.value.id.value in issued ==> d.value.secret == Some(issued[d.value.id.value])
  }

  predicate OnRequest(e: EnvAction) {
    e.Submit? || e.Edit? || e.MarkDeleted? || e.AddForeignFinalizer? || e.DropForeignFinalizer?
  }

  /** The version the environment stores for a request, if the action is possible. */
  function EnvVersion(h: seq<Option<Request>>, e: EnvAction): Option<Option<Request>>
    requires OnRequest(e) && h != []
  {
    match h[|h| - 1]
    case None => if e.Submit? then Some(Some(Request(|h|, 1, false, e.finalizers, e.spec, EMPTY_STATUS))) else None
    case Some(r) =>
      match e
      case Edit(_, spec) =>
        if r.spec == spec then None else Some(Some(r.(spec := spec, generation := r.generation + 1)))
      case MarkDeleted(_) =>
        if r.deleted then None else Some(Finish(r.(deleted := true, generation := r.generation + 1)))
      case AddForeignFinalizer(_, f) =>
        if r.deleted then None else Some(Some(r.(finalizers := r.finalizers + {Foreign(f)})))
      case DropForeignFinalizer(_, f) => Some(Finish(r.(finalizers := r.finalizers - {Foreign(f)})))
      case _ => None
  }

  /** What the environment does to the stores; an action that is not possible, or that the assumptions on the
      environment exclude, has no effect. */
  function EnvApply(s: Cluster, e: EnvAction): Cluster {
    if OnRequest(e) then
      if Hist(s, e.n) != [] && EnvVersion(Hist(s, e.n), e).Some? then
        Append(s, e.n, EnvVersion(Hist(s, e.n), e).value)
      else s
    else EnvOutside(s, e)
  }

  function EnvOutside(s: Cluster, e: EnvAction): (t: Cluster)
    requires !OnRequest(e)
    ensures t == s.(now := t.now, namespaces := t.namespaces, secrets := t.secrets, nextVersion := t.nextVersion,
                    users := t.users)
    ensures s.now <= t.now
  {
    match e
    case Tick(d) => s.(now := s.now + d)
    case SetNamespaces(ns) => s.(namespaces := ns)
    case PutSecret(k, annotations, data) =>
      if IsTarget(s, k) || !PairKept(s.issued, data) then s else StoreSecret(s, k, annotations, data)
    case DropSecret(k) => s.(secrets := s.secrets - {k})
    case SetForeignUser(u, user) =>
      if u in s.drawn then s
      else s.(users := if user.Some? then s.users[u := user.value] else s.users - {u})
  }

  // ---- Operator steps ----

  /** Whose credentials an AWS client carries. */
  datatype Access = Root | ReadOnly | Tenant

  datatype RequestOp = WriteStatus(status: Status) | AddFinalizer | RemoveFinalizer

  datatype UserOp =
    | CreateUser
    | TagUser(key: string, value: string)
    | PutPolicy(policy: string, doc: Document)
    | DeletePolicy(policy: string)
    | CreateKey(id: string, secret: string)
    | DeleteKey(id: string)
    | DeleteUser

  datatype SecretOp =
    | CreateSecret(annotations: Annotations, data: Option<Data>)
    | UpdateSecret(version: nat, annotations: Annotations, data: Option<Data>)
    | DeleteSecret

  /** A step of a run. Every write of the operator names the request it is made for and the version held of it; a
      write to AWS also says through whose client it goes. Begin is the call of the actuator for a version that did
      not pass the skip test, and Report its verdict: a success or a failure. */
  datatype Action =
    | Env(e: EnvAction)
    | DrawName(name: string)
    | Read(n: Name, at: nat)
    | Write(n: Name, rv: nat, op: RequestOp)
    | Iam(n: Name, rv: nat, via: Access, u: string, call: UserOp)
    | Keep(n: Name, rv: nat, k: Name, put: SecretOp)
    | Begin(n: Name, rv: nat)
    | Report(n: Name, rv: nat, success: Option<Success>)

  /** AWS issues only ids that nothing refers to yet. */
  predicate FreshKey(s: Cluster, id: string, secret: string) {
    && id != "" && secret != "" && id !in s.issued
    && forall k | k in s.secrets :: s.secrets[k].data.Some? ==> s.secrets[k].data.value.id != Some(id)
  }

  const HOUR: nat := 3600

  /** The test that ends a reconcile early: this generation was synced less than an hour ago. */
  predicate SkipTest(r: Request, now: nat) {
    && r.generation == r.status.lastSyncGeneration
    && r.status.lastSyncTime.Some? && r.status.lastSyncTime.value + HOUR > now
  }

  /** No version that the worker may still be shown passes the skip test. */
  predicate NothingToSkip(s: Cluster, n: Name) {
    var h := Hist(s, n);
    forall j | SeenAt(s, n) <= j < |h| :: h[j].Some? ==> !SkipTest(h[j].value, s.now)
  }

  /** No version newer than the given one records a sync of its own generation within the last hour. */
  predicate NoNewerSync(s: Cluster, n: Name, at: nat) {
    var h := Hist(s, n);
    forall j | at < j < |h| :: h[j].Some? ==> !SkipTest(h[j].value, s.now)
  }

  /** The API server's answer to a write that carries a resourceVersion: it takes effect on the current version only. */
  function WriteApply(s: Cluster, n: Name, rv: nat, op: RequestOp): (t: Cluster)
    ensures t == s.(history := t.history, claims := t.claims)
    ensures t.history == s.history || (IsCurrent(s, n, rv) && t.history == s.history[n := Hist(s, n) + [Stored(t, n)]])
    ensures t.claims == s.claims || (op.WriteStatus? && op.status.user !in s.claims)
  {
    if IsCurrent(s, n, rv) && Stored(s, n).Some? then
      var r := Stored(s, n).value;
      match op
      case WriteStatus(st) =>
        var t := Append(s, n, Some(r.(status := st)));
        if st.user != "" && st.user !in s.claims then t.(claims := s.claims[st.user := Claim(n, r.uid)]) else t
      case AddFinalizer => Append(s, n, Some(r.(finalizers := r.finalizers + {Deprovision})))
      case RemoveFinalizer => Append(s, n, Finish(r.(finalizers := r.finalizers - {Deprovision})))
    else s
  }

  function StoreSecret(s: Cluster, k: Name, annotations: Annotations, data: Option<Data>): Cluster {
    s.(secrets := s.secrets[k := Secret(s.nextVersion, annotations, data)], nextVersion := s.nextVersion + 1)
  }

  function SecretApply(s: Cluster, k: Name, put: SecretOp): (t: Cluster)
    ensures t == s.(secrets := t.secrets, nextVersion := t.nextVersion)
  {
    match put
    case CreateSecret(annotations, data) => if k in s.secrets then s else StoreSecret(s, k, annotations, data)
    case UpdateSecret(version, annotations, data) =>
      if k in s.secrets && s.secrets[k].version == version then StoreSecret(s, k, annotations, data) else s
    case DeleteSecret => s.(secrets := s.secrets - {k})
  }

  /** IAM refuses to delete a user that still has keys or inline policies. */
  predicate Deletable(s: Cluster, u: string) {
    u in s.users && s.users[u].keys == map[] && s.users[u].policies == map[]
  }

  /** Users are allowed at most two keys. */
  predicate MayIssue(s: Cluster, u: string, id: string, secret: string) {
    u in s.users && |s.users[u].keys| < 2 && FreshKey(s, id, secret)
  }

  function WithUser(s: Cluster, u: string, user: User): Cluster {
    s.(users := s.users[u := user])
  }

  function EditUser(user: User, call: UserOp): User {
    match call
    case TagUser(key, value) => user.(tags := user.tags[key := value])
    case PutPolicy(policy, doc) => user.(policies := user.policies[policy := doc])
    case DeletePolicy(policy) => user.(policies := user.policies - {policy})
    case CreateKey(id, secret) => user.(keys := user.keys[id := secret])
    case DeleteKey(id) => user.(keys := user.keys - {id})
    case _ => user
  }

  function IamApply(s: Cluster, u: string, call: UserOp): (t: Cluster)
    ensures t == s.(users := t.users, minted := t.minted, issued := t.issued)
  {
    match call
    case CreateUser =>
      if u in s.users then s else WithUser(s, u, User(ArnOf(u), map[], map[], map[])).(minted := s.minted + {u})
    case DeleteUser => if Deletable(s, u) then s.(users := s.users - {u}) else s
    case CreateKey(id, secret) =>
      if MayIssue(s, u, id, secret) then
        WithUser(s, u, EditUser(s.users[u], call)).(issued := s.issued[id := secret])
      else s
    case _ => if u in s.users then WithUser(s, u, EditUser(s.users[u], call)) else s
  }

  /** The worker is shown a version; caught remembers for which requests that was at least as new as the last sync. */
  function ReadApply(s: Cluster, n: Name, at: nat): (t: Cluster)
    ensures t == s.(seen := t.seen, caught := t.caught)
  {
    s.(seen := s.seen[n := at], caught := if NoNewerSync(s, n, at) then s.caught + {n} else s.caught - {n})
  }

  /** The actuator is called; owed remembers for which requests nothing can be skipped until it succeeds. */
  function BeginApply(s: Cluster, n: Name): (t: Cluster)
    ensures t == s.(owed := t.owed)
  {
    if NothingToSkip(s, n) then s.(owed := s.owed + {n}) else s
  }

  /** The actuator's verdict on the version it was given. A success is recorded for the version that is stored only. */
  function ReportApply(s: Cluster, n: Name, rv: nat, success: Option<Success>): (t: Cluster)
    ensures t == s.(synced := t.synced, caught := t.caught, owed := t.owed)
  {
    if success.None? then s
    else
      var r := Stored(s, n);
      var record := if IsCurrent(s, n, rv) && r.Some?
                    then {SyncRecord(n, r.value.uid, r.value.generation, r.value.spec, s.now)} else {};
      s.(synced := s.synced + record, caught := s.caught - {n}, owed := s.owed - {n})
  }

  function Apply(s: Cluster, a: Action): Cluster {
    match a
    case Env(e) => EnvApply(s, e)
    case DrawName(u) => s.(drawn := s.drawn + {u})
    case Read(n, at) => ReadApply(s, n, at)
    case Write(n, rv, op) => WriteApply(s, n, rv, op)
    case Iam(_, _, _, u, call) => IamApply(s, u, call)
    case Keep(_, _, k, put) => SecretApply(s, k, put)
    case Begin(n, _) => BeginApply(s, n)
    case Report(n, rv, success) => ReportApply(s, n, rv, success)
  }
}
