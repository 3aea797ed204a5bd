/** The cluster and the cloud as the running operator meets them: every call may fail before or after taking effect,
    and the environment may act after every call. Which of this happens is read from a script, so what is proved of a
    method for every script holds for every behaviour of the environment. */
module Runtime {
  import opened Wrappers
  import opened Naming
  import opened Policies
  import opened Store
  import opened Protocol
  import opened Runs

  // ---- What the environment leaves alone while the worker is between two calls ----

  ghost predicate SameUser(a: Cluster, b: Cluster, u: string) {
    (u in b.users <==> u in a.users) && (u in a.users ==> b.users[u] == a.users[u])
  }

  ghost predicate SecretKept(a: Cluster, b: Cluster, k: Name) {
    k in b.secrets ==> k in a.secrets && b.secrets[k] == a.secrets[k]
  }

  /** No user whose name was ever drawn has changed. */
  ghost predicate UsersKept(a: Cluster, b: Cluster) {
    forall u :: u in a.drawn ==> SameUser(a, b, u)
  }

  lemma UsersKeptTrans(a: Cluster, b: Cluster, c: Cluster)
    requires UsersKept(a, b) && UsersKept(b, c) && b.drawn == a.drawn
    ensures UsersKept(a, c)
  {
    forall u | u in a.drawn ensures SameUser(a, c, u) {
      assert SameUser(a, b, u) && SameUser(b, c, u);
    }
  }

  /** Every secret is as it was or has a new version. */
  ghost predicate SecretsRenewed(a: Cluster, b: Cluster) {
    && a.nextVersion <= b.nextVersion
    && forall k :: k in b.secrets ==>
         (k in a.secrets && b.secrets[k] == a.secrets[k]) || a.nextVersion <= b.secrets[k].version
  }

  /** b is reached from a by environment steps. */
  ghost predicate Rely(a: Cluster, b: Cluster) {
    && b.seen == a.seen && b.drawn == a.drawn && b.claims == a.claims && b.minted == a.minted && b.issued == a.issued
    && b.synced == a.synced && b.caught == a.caught && b.owed == a.owed && a.now <= b.now && SecretsRenewed(a, b)
    && (forall n :: Hist(a, n) <= Hist(b, n))
    && UsersKept(a, b)
    && (forall n :: Hist(b, n) == Hist(a, n) && Guarded(Stored(a, n)) ==>
          SecretKept(a, b, Stored(a, n).value.spec.secretRef))
  }

  lemma RelyTrans(a: Cluster, b: Cluster, c: Cluster)
    requires Rely(a, b) && Rely(b, c)
    ensures Rely(a, c)
  {
    UsersKeptTrans(a, b, c);
    forall n | Hist(c, n) == Hist(a, n) && Guarded(Stored(a, n))
      ensures SecretKept(a, c, Stored(a, n).value.spec.secretRef)
    {
      assert Hist(a, n) <= Hist(b, n) <= Hist(c, n);
      assert Hist(b, n) == Hist(a, n);
    }
  }

  lemma EnvRequestRely(s: Cluster, e: EnvAction)
    requires OnRequest(e)
    ensures Rely(s, EnvApply(s, e))
  {
    var t := EnvApply(s, e);
    assert t == s.(history := t.history);
    forall n ensures Hist(s, n) <= Hist(t, n) {
      EnvGrows(s, e, n);
    }
  }

  /** Outside the requests the environment leaves drawn users and the targets of guarded requests alone. */
  lemma EnvOutsideSpares(s: Cluster, e: EnvAction)
    requires !OnRequest(e)
    ensures UsersKept(s, EnvOutside(s, e))
    ensures forall k :: IsTarget(s, k) ==> SecretKept(s, EnvOutside(s, e), k)
  {
  }

  lemma EnvOutsideRenews(s: Cluster, e: EnvAction)
    requires !OnRequest(e)
    ensures SecretsRenewed(s, EnvOutside(s, e))
  {
  }

  lemma EnvStepRely(s: Cluster, e: EnvAction)
    ensures Rely(s, EnvApply(s, e))
  {
    if OnRequest(e) {
      EnvRequestRely(s, e);
    } else {
      EnvOutsideSpares(s, e);
      EnvOutsideRenews(s, e);
      OutsideRely(s, EnvOutside(s, e));
    }
  }

  lemma OutsideRely(s: Cluster, t: Cluster)
    requires t == s.(now := t.now, namespaces := t.namespaces, secrets := t.secrets, nextVersion := t.nextVersion,
                     users := t.users)
    requires s.now <= t.now && UsersKept(s, t) && SecretsRenewed(s, t)
    requires forall k :: IsTarget(s, k) ==> SecretKept(s, t, k)
    ensures Rely(s, t)
  {
    assert forall n :: Hist(t, n) == Hist(s, n);
    forall n | Guarded(Stored(s, n)) ensures SecretKept(s, t, Stored(s, n).value.spec.secretRef) {
      assert n in s.history;
      assert IsTarget(s, Stored(s, n).value.spec.secretRef);
    }
  }

  // ---- Calls ----

  datatype Fault = Fine | Refused | Lost | TokenRejected

  /** How one call goes: its fate, how far a cached read lags behind, and what the environment does next. */
  datatype Slot = Slot(fault: Fault, lag: nat, env: seq<EnvAction>)

  const CALM := Slot(Fine, 0, [])

  /** The answer to an API read. */
  datatype Got<+T> = Found(value: T) | Missing | Broken

  /** The answer to an IAM call. */
  datatype Reply<+T> = Answer(value: T) | NoSuchEntity | AlreadyExists | InvalidToken | Failed

  datatype Client = Client(access: Access, id: string, secret: string) {
    /** Static credentials with an empty part are refused before any request is sent. */
    predicate Usable() {
      id != "" && secret != ""
    }
  }

  /** IAM's answer to a write that reaches it. */
  function ReplyOf(s: Cluster, u: string, call: UserOp): Reply<()> {
    match call
    case CreateUser => if u in s.users then AlreadyExists else Answer(())
    case _ =>
      if u !in s.users then NoSuchEntity
      else match call
           case DeletePolicy(policy) => if policy in s.users[u].policies then Answer(()) else NoSuchEntity
           case DeleteKey(id) => if id in s.users[u].keys then Answer(()) else NoSuchEntity
           case CreateKey(id, secret) => if MayIssue(s, u, id, secret) then Answer(()) else Failed
           case DeleteUser => if Deletable(s, u) then Answer(()) else Failed
           case _ => Answer(())
  }

  /** The API server's answer to a secret write that reaches it. */
  predicate Accepts(s: Cluster, k: Name, put: SecretOp) {
    match put
    case CreateSecret(_, _) => k !in s.secrets
    case UpdateSecret(version, _, _) => k in s.secrets && s.secrets[k].version == version
    case DeleteSecret => k in s.secrets
  }

  ghost predicate NoRepeats(ids: seq<string>) {
    forall i, j :: 0 <= i < j < |ids| ==> ids[i] != ids[j]
  }

  class World {
    const infra: string
    const uuid: string
    const script: nat -> Slot
    ghost const init: Cluster
    ghost var log: seq<Action>
    var s: Cluster
    var tick: nat

    /** The log is a run of the protocol and leads to the present state. */
    ghost predicate Valid()
      reads this
    {
      Run(init, log) && s == Exec(init, log)
    }

    /** Every state of a run satisfies the invariant. */
    lemma Known()
      requires Valid()
      ensures Inv(s)
    {
      RunInv(init, log);
    }

    /** No call fails and the environment does nothing from here on. */
    ghost predicate Quiet()
      reads this`tick
    {
      forall t: nat :: tick <= t ==> script(t) == CALM
    }

    /** The run has been continued. */
    twostate predicate Onward()
      reads this
    {
      old(tick) <= tick && old(log) <= log
    }

    /** Only the environment has moved. */
    twostate predicate Paused()
      reads this
    {
      && Valid() && Rely(old(s), s) && Onward()
      && (old(Quiet()) ==> s == old(s) && log == old(log))
    }

    constructor (s0: Cluster, infra: string, uuid: string, script: nat -> Slot)
      requires Initial(s0)
      ensures Valid() && s == s0 && log == [] && init == s0
      ensures this.infra == infra && this.uuid == uuid && this.script == script && tick == 0
    {
      this.infra, this.uuid, this.script := infra, uuid, script;
      init, log, s, tick := s0, [], s0, 0;
    }

    /** One step of the run. */
    method Do(a: Action)
      requires Valid() && Allowed(s, a) && Justified(init, log, a)
      modifies this`s, this`log
      ensures Valid() && s == Apply(old(s), a) && log == old(log) + [a]
    {
      s, log := Apply(s, a), log + [a];
      assert log[..|log| - 1] == old(log);
    }

    /** One step of the environment. */
    method Suffer(e: EnvAction)
      requires Valid()
      modifies this`s, this`log
      ensures Valid() && Rely(old(s), s) && log == old(log) + [Env(e)]
    {
      EnvStepRely(s, e);
      Do(Env(e));
    }

    /** The end of a call: the environment acts. */
    method Settle()
      requires Valid()
      modifies this
      ensures Paused() && tick == old(tick) + 1
    {
      var acts := script(tick).env;
      for i := 0 to |acts|
        invariant Valid() && Rely(old(s), s) && tick == old(tick) && old(log) <= log
        invariant i == 0 ==> s == old(s) && log == old(log)
      {
        label before:
        Suffer(acts[i]);
        RelyTrans(old(s), old@before(s), s);
      }
      tick := tick + 1;
    }

    /** Any read of the API server or local preparation that yields a value or an error. */
    method Attempt() returns (ok: bool)
      requires Valid()
      modifies this
      ensures Paused()
      ensures old(Quiet()) ==> ok
    {
      ok := script(tick).fault == Fine;
      Settle();
    }

    method LoadInfrastructureName() returns (r: Option<string>)
      requires Valid()
      modifies this
      ensures Paused()
      ensures r.Some? ==> r.value == infra
      ensures old(Quiet()) ==> r.Some?
    {
      var ok := Attempt();
      r := if ok then Some(infra) else None;
    }

    method LoadClusterUUID() returns (r: Option<string>)
      requires Valid()
      modifies this
      ensures Paused()
      ensures r.Some? ==> r.value == uuid
      ensures old(Quiet()) ==> r.Some?
    {
      var ok := Attempt();
      r := if ok then Some(uuid) else None;
    }

    method GetNamespace(ns: string) returns (r: Got<()>)
      requires Valid()
      modifies this
      ensures Paused()
      ensures r.Found? ==> ns in old(s).namespaces
      ensures r.Missing? ==> ns !in old(s).namespaces
      ensures old(Quiet()) ==> r == if ns in old(s).namespaces then Found(()) else Missing
    {
      r := if script(tick).fault != Fine then Broken else if ns in s.namespaces then Found(()) else Missing;
      Settle();
    }

    method GetSecret(k: Name) returns (r: Got<Secret>)
      requires Valid()
      modifies this
      ensures Paused()
      ensures r.Found? ==> k in old(s).secrets && r.value == old(s).secrets[k]
      ensures r.Found? ==> PairKept(s.issued, r.value.data) && r.value.version < old(s).nextVersion
      ensures r.Missing? ==> k !in old(s).secrets
      ensures old(Quiet()) ==> !r.Broken?
    {
      Known();
      r := if script(tick).fault != Fine then Broken else if k in s.secrets then Found(s.secrets[k]) else Missing;
      Settle();
    }

    /** A cached read: some version not older than the last one shown; its index is the resourceVersion. */
    method GetRequest(n: Name) returns (r: Got<Request>, rv: nat)
      requires Valid()
      modifies this
      ensures Valid() && Onward()
      ensures r.Broken? ==> Paused()
      ensures !r.Broken? ==>
        && SeenAt(old(s), n) <= rv < |Hist(old(s), n)|
        && Rely(ReadApply(old(s), n, rv), s)
        && r == match Hist(old(s), n)[rv] case Some(x) => Found(x) case None => Missing
      ensures old(Quiet()) ==>
        && !r.Broken? && rv + 1 == |Hist(old(s), n)| && s == ReadApply(old(s), n, rv)
        && log == old(log) + [Read(n, rv)]
    {
      Known();
      assert ReqOK(s, n);
      var last, lag := |Hist(s, n)| - 1, script(tick).lag;
      rv := if last - lag >= SeenAt(s, n) then last - lag else SeenAt(s, n);
      if script(tick).fault != Fine {
        r := Broken;
      } else {
        r := match Hist(s, n)[rv] case Some(x) => Found(x) case None => Missing;
        Do(Read(n, rv));
      }
      Settle();
    }

    /** A write of a request, carrying the resourceVersion rv. */
    method UpdateRequest(n: Name, rv: nat, op: RequestOp) returns (ok: bool)
      requires Valid() && MayWrite(s, n, rv, op)
      modifies this
      ensures Valid() && Onward()
      ensures ok ==> IsCurrent(old(s), n, rv) && Rely(WriteApply(old(s), n, rv, op), s)
      ensures !ok ==> Rely(old(s), s) || Rely(WriteApply(old(s), n, rv, op), s)
      ensures old(Quiet()) ==>
        && ok == IsCurrent(old(s), n, rv) && s == WriteApply(old(s), n, rv, op) && log == old(log) + [Write(n, rv, op)]
    {
      var fault := script(tick).fault;
      ok := fault == Fine && IsCurrent(s, n, rv);
      if fault == Fine || fault == Lost {
        Do(Write(n, rv, op));
      }
      Settle();
    }

    method WriteSecret(n: Name, rv: nat, k: Name, put: SecretOp) returns (ok: bool)
      requires Valid() && MayKeep(s, n, rv, k, put)
      modifies this
      ensures Valid() && Onward()
      ensures ok ==> Accepts(old(s), k, put) && Rely(SecretApply(old(s), k, put), s)
      ensures !ok ==> Rely(old(s), s) || Rely(SecretApply(old(s), k, put), s)
      ensures old(Quiet()) ==>
        && ok == Accepts(old(s), k, put) && s == SecretApply(old(s), k, put) && log == old(log) + [Keep(n, rv, k, put)]
    {
      var fault := script(tick).fault;
      ok := fault == Fine && Accepts(s, k, put);
      if fault == Fine || fault == Lost {
        Do(Keep(n, rv, k, put));
      }
      Settle();
    }

    // ---- IAM ----

    method GetUser(c: Client, u: string) returns (r: Reply<User>)
      requires Valid()
      modifies this
      ensures Paused() && !r.AlreadyExists?
      ensures r.Answer? ==> u in old(s).users && r.value == old(s).users[u]
      ensures r.NoSuchEntity? ==> u !in old(s).users
      ensures old(Quiet()) && c.Usable() ==> r.Answer? || r.NoSuchEntity?
      ensures !c.Usable() ==> r.Failed?
      ensures old(Quiet()) ==> !r.InvalidToken?
    {
      r := if !c.Usable() then Failed
           else match script(tick).fault
                case TokenRejected => InvalidToken
                case Fine => if u in s.users then Answer(s.users[u]) else NoSuchEntity
                case _ => Failed;
      Settle();
    }

    method GetUserPolicy(c: Client, u: string, policy: string) returns (r: Reply<Document>)
      requires Valid()
      modifies this
      ensures Paused()
      ensures r.Answer? ==>
        u in old(s).users && policy in old(s).users[u].policies && r.value == old(s).users[u].policies[policy]
      ensures r.NoSuchEntity? ==> u !in old(s).users || policy !in old(s).users[u].policies
      ensures old(Quiet()) && c.Usable() ==> r.Answer? || r.NoSuchEntity?
    {
      r := if !c.Usable() || script(tick).fault != Fine then Failed
           else if u in s.users && policy in s.users[u].policies then Answer(s.users[u].policies[policy])
           else NoSuchEntity;
      Settle();
    }

    /** The key ids come in no particular order. */
    method ListAccessKeys(c: Client, u: string) returns (r: Reply<seq<string>>)
      requires Valid()
      modifies this
      ensures Paused()
      ensures r.Answer? ==>
        u in old(s).users && NoRepeats(r.value) && (forall id :: id in r.value <==> id in old(s).users[u].keys)
      ensures r.NoSuchEntity? ==> u !in old(s).users
      ensures old(Quiet()) && c.Usable() ==> r.Answer? || r.NoSuchEntity?
    {
      if !c.Usable() || script(tick).fault != Fine {
        r := Failed;
      } else if u !in s.users {
        r := NoSuchEntity;
      } else {
        var rest, ids := s.users[u].keys.Keys, [];
        while rest != {}
          invariant rest <= s.users[u].keys.Keys
          invariant NoRepeats(ids) && forall id :: id in ids <==> id in s.users[u].keys.Keys - rest
        {
          var id :| id in rest;
          assert id !in ids;
          rest, ids := rest - {id}, ids + [id];
        }
        r := Answer(ids);
      }
      Settle();
    }

    /** A write to IAM through client c. */
    method CallIam(c: Client, n: Name, rv: nat, u: string, call: UserOp) returns (r: Reply<()>)
      requires Valid() && MayCall(s, n, rv, c.access, u, call)
      modifies this
      ensures Valid() && Onward()
      ensures r.Answer? ==> ReplyOf(old(s), u, call).Answer? && Rely(IamApply(old(s), u, call), s)
      ensures !r.Answer? ==> Rely(old(s), s) || Rely(IamApply(old(s), u, call), s)
      ensures r.NoSuchEntity? || r.AlreadyExists? ==>
        r == ReplyOf(old(s), u, call) && Rely(IamApply(old(s), u, call), s)
      ensures old(Quiet()) && c.Usable() ==>
        && r == ReplyOf(old(s), u, call) && s == IamApply(old(s), u, call)
        && log == old(log) + [Iam(n, rv, c.access, u, call)]
      ensures old(Quiet()) && !c.Usable() ==> r.Failed? && s == old(s) && log == old(log)
    {
      var fault := script(tick).fault;
      r := if !c.Usable() then Failed
           else match fault
                case Fine => ReplyOf(s, u, call)
                case TokenRejected => InvalidToken
                case _ => Failed;
      if c.Usable() && (fault == Fine || fault == Lost) {
        Do(Iam(n, rv, c.access, u, call));
      }
      Settle();
    }

    // ---- Bookkeeping ----

    method Reserve(u: string)
      requires Valid() && u !in s.drawn && u !in s.users
      modifies this`s, this`log
      ensures Valid() && s == Apply(old(s), DrawName(u)) && log == old(log) + [DrawName(u)]
    {
      Do(DrawName(u));
    }
  }

  /** The working copy of a request that a reconcile changes in place; rv is its resourceVersion. */
  class Copy {
    const name: Name
    var rv: nat
    var r: Request

    constructor (name: Name, rv: nat, r: Request)
      ensures this.name == name && this.rv == rv && this.r == r
    {
      this.name, this.rv, this.r := name, rv, r;
    }
  }
}
