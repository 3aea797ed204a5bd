/** The controller that annotates the root secret with the mode its credentials allow, and what the mode means for
    sync. */
module Annotator {
  import opened Wrappers
  import opened Naming
  import opened Store
  import opened Goals
  import opened Protocol
  import opened Runs
  import opened Actuator
  import opened Permissions

  predicate KnownMode(m: Mode) {
    m.Mint? || m.Passthrough? || m.Insufficient?
  }

  /** Which of the annotator's calls go through. */
  datatype Calls = Calls(infra: bool, client: bool, describe: bool, simulate: bool, describeAgain: bool,
                         simulateAgain: bool, write: bool)

  /** The working copy of the root secret. */
  class SecretCopy {
    var secret: Secret

    constructor (secret: Secret)
      ensures this.secret == secret
    {
      this.secret := secret;
    }

    /** updateSecretAnnotations: changes the annotation in place; the answer is that of the write that follows. */
    method UpdateSecretAnnotations(mode: Mode, accepted: bool) returns (ok: bool)
      modifies this
      ensures secret == old(secret).(annotations := old(secret).annotations.(mode := Some(mode)))
      ensures ok == accepted
    {
      secret := secret.(annotations := secret.annotations.(mode := Some(mode)));
      ok := accepted;
    }
  }

  predicate HasBothKeys(x: Secret) {
    x.data.Some? && x.data.value.id.Some? && x.data.value.secret.Some?
  }

  /** The mode written for credentials that belong to p: a secret without both keys and one whose check fails are
      insufficient, and None means that nothing is written. */
  ghost function Verdict(x: Secret, p: Principal, calls: Calls): Option<Mode> {
    if !HasBothKeys(x) then Some(Insufficient)
    else if !calls.infra || !calls.client then None
    else if !calls.describe then Some(Insufficient)
    else if p.isRoot then Some(Mint)
    else if !calls.simulate || !CanCheck(p, p) then Some(Insufficient)
    else if MayAll(p, MINTING_ACTIONS) then Some(Mint)
    else if !calls.describeAgain || !calls.simulateAgain then Some(Insufficient)
    else if MayAll(p, PASSTHROUGH_ACTIONS) then Some(Passthrough)
    else Some(Insufficient)
  }

  /** validateCloudCredsSecret, for credentials that belong to p. Whatever it writes is one of the three modes. When all
      calls go through it writes exactly the mode that the granted actions call for, also when a missing permission to
      describe or simulate makes a check fail. */
  method ValidateCloudCredsSecret(c: SecretCopy, p: Principal, calls: Calls) returns (mode: Option<Mode>, ok: bool)
    modifies c
    ensures mode == Verdict(old(c.secret), p, calls) && (mode.Some? ==> KnownMode(mode.value))
    ensures c.secret == match mode
                        case None => old(c.secret)
                        case Some(m) => old(c.secret).(annotations := old(c.secret).annotations.(mode := Some(m)))
    ensures old(HasBothKeys(c.secret)) && calls.infra && calls.client
            && calls.describe && calls.simulate && calls.describeAgain && calls.simulateAgain ==>
      mode == Some(ModeOf(p)) && (ok <==> calls.write && (p.isRoot || CanCheck(p, p)))
    ensures mode.None? <==> old(HasBothKeys(c.secret)) && !(calls.infra && calls.client)
    ensures ok ==> calls.write
    ensures ok && old(HasBothKeys(c.secret)) ==>
      && calls.infra && calls.client && calls.describe && (p.isRoot || calls.simulate)
      && (mode != Some(Mint) ==> calls.describeAgain && calls.simulateAgain)
    ensures mode == Some(Mint) || mode == Some(Passthrough) ==>
      old(c.secret.data.Some? && c.secret.data.value.id.Some? && c.secret.data.value.secret.Some?)
  {
    ListsCoverTheCheck(p);
    if !HasBothKeys(c.secret) {
      ok := c.UpdateSecretAnnotations(Insufficient, calls.write);
      return Some(Insufficient), ok;
    }
    if !calls.infra || !calls.client {
      return None, false;
    }
    var check := CheckPermissionsAgainstActions(p, MINTING_ACTIONS, calls.describe, calls.simulate);
    if check.CheckError? {
      ok := c.UpdateSecretAnnotations(Insufficient, calls.write);
      return Some(Insufficient), false;
    }
    if check.Sufficient? {
      ok := c.UpdateSecretAnnotations(Mint, calls.write);
      return Some(Mint), ok;
    }
    check := CheckPermissionsAgainstActions(p, PASSTHROUGH_ACTIONS, calls.describeAgain, calls.simulateAgain);
    if check.CheckError? {
      ok := c.UpdateSecretAnnotations(Insufficient, calls.write);
      return Some(Insufficient), false;
    }
    if check.Sufficient? {
      ok := c.UpdateSecretAnnotations(Passthrough, calls.write);
      return Some(Passthrough), ok;
    }
    ok := c.UpdateSecretAnnotations(Insufficient, calls.write);
    return Some(Insufficient), ok;
  }

  // ---- What the actuator makes of the mode ----

  ghost predicate ModeFine(m: Option<Mode>) {
    m.Some? ==> KnownMode(m.value)
  }

  /** Annotations that could replace those of the root secret: without a mode, with the present one or with one that the
      annotator writes. */
  ghost predicate FromAnnotator(s: Cluster, k: Name, annotations: Annotations) {
    k == ROOT_CREDS ==> ModeFine(annotations.mode) || annotations.mode == RootMode(s)
  }

  /** An assumption on the environment alone: the operator's own secret writes never touch the mode. */
  ghost predicate LeavesModeToAnnotator(s: Cluster, a: Action) {
    match a
    case Env(PutSecret(k, annotations, _)) => FromAnnotator(s, k, annotations)
    case _ => true
  }

  lemma EnvKeepsMode(s: Cluster, e: EnvAction)
    requires ModeFine(RootMode(s)) && LeavesModeToAnnotator(s, Env(e))
    ensures ModeFine(RootMode(EnvApply(s, e)))
  {
    if e.PutSecret? || e.DropSecret? {
      assert EnvApply(s, e) == EnvOutside(s, e);
    } else {
      EnvKeepsSecrets(s, e);
    }
  }

  lemma EnvKeepsSecrets(s: Cluster, e: EnvAction)
    requires !e.PutSecret? && !e.DropSecret?
    ensures EnvApply(s, e).secrets == s.secrets
  {
  }

  lemma KeepKeepsMode(s: Cluster, n: Name, rv: nat, k: Name, put: SecretOp)
    requires ModeFine(RootMode(s)) && MayKeep(s, n, rv, k, put)
    ensures ModeFine(RootMode(SecretApply(s, k, put)))
  {
  }

  lemma OthersKeepSecrets(s: Cluster, a: Action)
    requires !a.Env? && !a.Keep?
    ensures Apply(s, a).secrets == s.secrets
  {
  }

  lemma StepKeepsMode(s: Cluster, a: Action)
    requires ModeFine(RootMode(s)) && LeavesModeToAnnotator(s, a) && Allowed(s, a)
    ensures ModeFine(RootMode(Apply(s, a)))
  {
    match a
    case Env(e) => EnvKeepsMode(s, e);
    case Keep(n, rv, k, put) => KeepKeepsMode(s, n, rv, k, put);
    case _ => OthersKeepSecrets(s, a);
  }

  /** Nobody in the environment but the annotator writes the mode. */
  ghost predicate OnlyAnnotated(s0: Cluster, acts: seq<Action>) {
    ModeFine(RootMode(s0)) && forall k :: 0 <= k < |acts| ==> LeavesModeToAnnotator(At(s0, acts, k), acts[k])
  }

  lemma {:induction false} ModesStayKnown(s0: Cluster, acts: seq<Action>, k: nat)
    requires Run(s0, acts) && OnlyAnnotated(s0, acts) && k <= |acts|
    ensures ModeFine(RootMode(At(s0, acts, k)))
  {
    if k == 0 {
      assert acts[..0] == [];
    } else {
      ModesStayKnown(s0, acts, k - 1);
      RunPrefix(s0, acts, k - 1);
      StepKeepsMode(At(s0, acts, k - 1), acts[k - 1]);
    }
  }

  /** If only the annotator writes the mode, a successful sync means one of two things: the recorded user is in sync, or
      the root secret said passthrough and, if it holds a key pair, the target secret carries it. */
  lemma ModeDispatch(s0: Cluster, acts: seq<Action>, infra: string, uuid: string, n: Name, rv: nat, r: Request,
                     saw: Option<Secret>)
    requires Run(s0, acts) && OnlyAnnotated(s0, acts) && SeenInRun(s0, acts, saw)
    requires Outcome(Exec(s0, acts), infra, uuid, n, rv, r, saw)
    requires IsCurrent(Exec(s0, acts), n, rv) && r.spec.secretRef in Exec(s0, acts).secrets
    ensures var s := Exec(s0, acts);
      || InSync(s, infra, uuid, r)
      || (&& saw.Some? && saw.value.annotations.mode == Some(Passthrough)
          && (HasKeyPair(saw.value) ==> PassedThrough(s, n, r, saw.value)))
  {
    SeenModeKnown(s0, acts, saw);
  }

  lemma SeenModeKnown(s0: Cluster, acts: seq<Action>, saw: Option<Secret>)
    requires Run(s0, acts) && OnlyAnnotated(s0, acts) && SeenInRun(s0, acts, saw)
    ensures saw.Some? ==> ModeFine(saw.value.annotations.mode)
  {
    if saw.Some? {
      var k :| 0 <= k <= |acts| && RootAt(s0, acts, k) == saw;
      ModesStayKnown(s0, acts, k);
    }
  }

  /** What the skip relies on: if only the annotator writes the mode, a stored request whose generation is the
      recorded one was stored with exactly its spec, in sync or passed through, at the step that reported the sync,
      unless its target secret had just been lost. */
  lemma SyncedMeansProvided(s0: Cluster, acts: seq<Action>, n: Name)
    requires Run(s0, acts) && OnlyAnnotated(s0, acts) && Stored(Exec(s0, acts), n).Some?
    requires var r := Stored(Exec(s0, acts), n).value; r.status.lastSyncGeneration == r.generation
    ensures exists m :: 0 <= m < |acts| && ProvidedAt(s0, acts, m, n, Stored(Exec(s0, acts), n).value.spec)
  {
    var r := Stored(Exec(s0, acts), n).value;
    SkipIsSound(s0, acts, n);
    var m :| 0 <= m < |acts| && SucceededOn(s0, acts, m, RecordOf(n, r));
    RunPrefix(s0, acts, m);
    OnlyAnnotatedPrefix(s0, acts, m);
    SeenModeKnown(s0, acts[..m], acts[m].success.value.saw);
    assert ProvidedAt(s0, acts, m, n, r.spec);
  }

  /** At step m the stored version of n had this spec and was in sync, or held the root key pair of a root secret in
      passthrough mode; the target secret may have been lost since it was written. */
  ghost predicate ProvidedAt(s0: Cluster, acts: seq<Action>, m: nat, n: Name, spec: Spec)
    requires m < |acts|
  {
    && acts[m].Report? && acts[m].success.Some? && acts[m].n == n && Stored(At(s0, acts, m), n).Some?
    && var s, how, r := At(s0, acts, m), acts[m].success.value, Stored(At(s0, acts, m), n).value;
      && r.spec == spec
      && (|| (&& CloudInSync(s, how.infra, how.uuid, r)
              && (spec.secretRef in s.secrets ==> InSync(s, how.infra, how.uuid, r)))
          || (&& how.saw.Some? && how.saw.value.annotations.mode == Some(Passthrough)
              && (HasKeyPair(how.saw.value) && spec.secretRef in s.secrets ==> PassedThrough(s, n, r, how.saw.value))))
  }

  lemma OnlyAnnotatedPrefix(s0: Cluster, acts: seq<Action>, m: nat)
    requires OnlyAnnotated(s0, acts) && m <= |acts|
    ensures OnlyAnnotated(s0, acts[..m])
  {
    forall k | 0 <= k < m ensures LeavesModeToAnnotator(At(s0, acts[..m], k), acts[..m][k]) {
      assert acts[..m][..k] == acts[..k];
    }
  }

  /** A mode is only ever written for credentials that have what it takes, in a secret that holds both entries. */
  lemma VerdictIsEarned(x: Secret, p: Principal, calls: Calls)
    ensures Verdict(x, p, calls) == Some(Mint) ==> MayAll(p, MINTING_ACTIONS)
    ensures Verdict(x, p, calls) == Some(Passthrough) ==> MayAll(p, PASSTHROUGH_ACTIONS) && !MayAll(p, MINTING_ACTIONS)
    ensures Verdict(x, p, calls) == Some(Mint) || Verdict(x, p, calls) == Some(Passthrough) ==>
      x.data.Some? && x.data.value.id.Some? && x.data.value.secret.Some?
  {
    ListsCoverTheCheck(p);
  }

  /** Under any one outcome of the calls, granting more permissions never lowers the mode that is written. */
  lemma VerdictNeverLower(x: Secret, p: Principal, q: Principal, calls: Calls)
    requires (p.isRoot ==> q.isRoot) && p.grants <= q.grants
    ensures Verdict(x, p, calls).Some? <==> Verdict(x, q, calls).Some?
    ensures Verdict(x, p, calls).Some? ==> Rank(Verdict(x, p, calls).value) <= Rank(Verdict(x, q, calls).value)
  {
    ListsCoverTheCheck(p);
    ListsCoverTheCheck(q);
    assert forall a :: p.May(a) ==> q.May(a);
  }
}
