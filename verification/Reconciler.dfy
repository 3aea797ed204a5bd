/** The CredentialsRequest controller: one reconcile of one request, and the single worker that runs them. */
module Reconciler {
  import opened Wrappers
  import opened Conditions
  import opened Naming
  import opened Store
  import opened Goals
  import opened Protocol
  import opened Runs
  import opened Runtime
  import opened Actuator

  // ---- The four condition setters; text is the error message, which is not modelled further ----

  function MissingNamespace(missing: bool, ns: string, now: nat): Setting {
    if missing then
      Setting(MissingTargetNamespace, StatusTrue, "NamespaceMissing",
              "target namespace " + ns + " not found", UpdateIfReasonOrMessageChange, now)
    else
      Setting(MissingTargetNamespace, StatusFalse, "NamespaceExists",
              "target namespace " + ns + " found", UpdateNever, now)
  }

  function InsufficientCreds(insufficient: bool, now: nat): Setting {
    if insufficient then
      Setting(InsufficientCloudCreds, StatusTrue, "CloudCredsInsufficient",
              "cloud creds are insufficient to satisfy CredentialsRequest", UpdateIfReasonOrMessageChange, now)
    else
      Setting(InsufficientCloudCreds, StatusFalse, "CloudCredsSufficient",
              "cloud credentials sufficient for minting or passthrough", UpdateNever, now)
  }

  function ProvisionFailed(failed: bool, text: string, now: nat): Setting {
    if failed then
      Setting(CredentialsProvisionFailure, StatusTrue, "CredentialsProvisionFailure", "failed to grant creds: " + text,
              UpdateIfReasonOrMessageChange, now)
    else
      Setting(CredentialsProvisionFailure, StatusFalse, "CredentialsProvisionSuccess",
              "successfully granted credentials request", UpdateNever, now)
  }

  function DeprovisionFailed(failed: bool, text: string, now: nat): Setting {
    if failed then
      Setting(CredentialsDeprovisionFailure, StatusTrue, "CloudCredDeprovisionFailure",
              "failed to deprovision resource: " + text, UpdateIfReasonOrMessageChange, now)
    else
      Setting(CredentialsDeprovisionFailure, StatusFalse, "CloudCredDeprovisionSuccess",
              "deprovisioned cloud credential resource(s)", UpdateNever, now)
  }

  /** The settings tell what they are about: whether it is so, for which namespace, and with which error. */
  lemma SettingsTell(a: string, b: string, now: nat)
    ensures MissingNamespace(true, a, now).message == MissingNamespace(true, b, now).message <==> a == b
    ensures ProvisionFailed(true, a, now).message == ProvisionFailed(true, b, now).message <==> a == b
    ensures DeprovisionFailed(true, a, now).message == DeprovisionFailed(true, b, now).message <==> a == b
    ensures forall so: bool ::
      && (MissingNamespace(so, a, now).status == if so then StatusTrue else StatusFalse)
      && (InsufficientCreds(so, now).status == if so then StatusTrue else StatusFalse)
      && (ProvisionFailed(so, a, now).status == if so then StatusTrue else StatusFalse)
      && (DeprovisionFailed(so, a, now).status == if so then StatusTrue else StatusFalse)
  {
    var m, p, d := "target namespace ", "failed to grant creds: ", "failed to deprovision resource: ";
    var x, y := m + a + " not found", m + b + " not found";
    assert x[|m|..|x| - 10] == a && y[|m|..|y| - 10] == b;
    assert (p + a)[|p|..] == a && (p + b)[|p|..] == b;
    assert (d + a)[|d|..] == a && (d + b)[|d|..] == b;
  }

  /** A condition that does not enter the exclusions of StatusOK. */
  lemma OtherConditionOK(st: Status, x: Setting)
    requires StatusOK(st) && (x.kind == MissingTargetNamespace || x.kind == CredentialsDeprovisionFailure)
    ensures StatusOK(st.(conditions := Set(st.conditions, x)))
  {
    SetFrame(st.conditions, x);
    SetReads(st.conditions, x, InsufficientCloudCreds);
    SetReads(st.conditions, x, CredentialsProvisionFailure);
  }

  /** Sets one condition of the working copy in place. */
  method SetCondition(cr: Copy, x: Setting)
    modifies cr`r
    ensures cr.r == old(cr.r).(status := old(cr.r).status.(conditions := Set(old(cr.r).status.conditions, x)))
  {
    var cs := SetCredentialsRequestCondition(cr.r.status.conditions, x);
    cr.r := cr.r.(status := cr.r.status.(conditions := cs));
  }

  /** updateActuatorConditions: sets the condition that is the reason, if any, and clears the other. */
  method UpdateActuatorConditions(cr: Copy, reason: Option<ConditionType>, text: string, now: nat)
    requires UniqueTypes(cr.r.status.conditions)
    modifies cr`r
    ensures cr.r == old(cr.r).(status := old(cr.r).status.(conditions := cr.r.status.conditions))
    ensures UniqueTypes(cr.r.status.conditions)
    ensures IsTrue(cr.r.status.conditions, CredentialsProvisionFailure) <==> reason == Some(CredentialsProvisionFailure)
    ensures IsTrue(cr.r.status.conditions, InsufficientCloudCreds) <==> reason == Some(InsufficientCloudCreds)
    ensures IsTrue(cr.r.status.conditions, MissingTargetNamespace)
            <==> IsTrue(old(cr.r).status.conditions, MissingTargetNamespace)
    ensures reason == Some(CredentialsProvisionFailure) ==>
      Shows(cr.r.status.conditions, ProvisionFailed(true, text, now))
    ensures reason == Some(InsufficientCloudCreds) ==> Shows(cr.r.status.conditions, InsufficientCreds(true, now))
  {
    var failed, short := ProvisionFailed(reason == Some(CredentialsProvisionFailure), text, now),
                         InsufficientCreds(reason == Some(InsufficientCloudCreds), now);
    TwoSets(cr.r.status.conditions, failed, short, MissingTargetNamespace);
    SetCondition(cr, failed);
    SetCondition(cr, short);
  }

  /** Two sets of different types after each other. */
  lemma TwoSets(cs: seq<Condition>, x: Setting, y: Setting, other: ConditionType)
    requires UniqueTypes(cs) && x.kind != y.kind && other != x.kind && other != y.kind
    ensures var r := Set(Set(cs, x), y);
      && UniqueTypes(r) && (IsTrue(r, other) <==> IsTrue(cs, other))
      && (IsTrue(r, x.kind) <==> x.status == StatusTrue) && (IsTrue(r, y.kind) <==> y.status == StatusTrue)
      && (x.check == UpdateIfReasonOrMessageChange && x.status == StatusTrue ==> Shows(r, x))
      && (y.check == UpdateIfReasonOrMessageChange && y.status == StatusTrue ==> Shows(r, y))
  {
    var m := Set(cs, x);
    SetFrame(cs, x);
    SetFrame(m, y);
    SetReads(cs, x, other);
    SetReads(m, y, other);
    SetReads(m, y, x.kind);
    SetFind(cs, x, x.kind);
    SetFind(m, y, x.kind);
    SetFind(m, y, y.kind);
    if x.status == StatusTrue {
      SetByCheck(cs, x);
    }
    if y.status == StatusTrue {
      SetByCheck(m, y);
    }
  }

  /** updateStatus: writes the status if it differs from the one that was read. */
  method UpdateStatusIfChanged(w: World, cr: Copy, orig: Request) returns (ok: bool)
    requires w.Valid() && Tracks(w.s, cr.name, cr.rv, cr.r)
    modifies w, cr`rv
    ensures w.Valid() && Advances(old(w.s), w.s) && w.Onward()
    ensures UsersKept(old(w.s), w.s)
    ensures Tracks(w.s, cr.name, cr.rv, cr.r)
    ensures cr.rv == old(cr.rv) || Version(w.s, cr.name, cr.rv) == cr.r
    ensures cr.r.status == orig.status ==> ok && w.s == old(w.s) && w.log == old(w.log) && cr.rv == old(cr.rv)
    ensures cr.r.status != orig.status && ok ==> cr.rv == old(cr.rv) + 1
    ensures old(w.Quiet() && IsCurrent(w.s, cr.name, cr.rv)) ==>
      && ok && IsCurrent(w.s, cr.name, cr.rv)
      && w.s == old(w.s).(history := w.s.history, claims := w.s.claims)
      && (cr.r.status != orig.status || Version(old(w.s), cr.name, old(cr.rv)) == cr.r ==>
            Stored(w.s, cr.name) == Some(cr.r))
    ensures old(cr.rv) <= cr.rv
  {
    ok := true;
    if cr.r.status != orig.status {
      ok := UpdateStatus(w, cr);
    }
  }

  // ---- Deprovisioning ----

  /** The version in hand is the one that was shown as deleted, and it is still guarded by the finalizer. */
  ghost predicate Ending(s: Cluster, cr: Copy)
    reads cr
  {
    && Deleting(s, cr.name, cr.rv, cr.r) && Deprovision in cr.r.finalizers
    && Hist(s, cr.name)[SeenAt(s, cr.name)].value.deleted
    && StatusOK(cr.r.status) && SameSync(cr.r.status, Version(s, cr.name, cr.rv).status)
  }

  lemma EndingStays(a: Cluster, b: Cluster, cr: Copy)
    requires Ending(a, cr) && Advances(a, b)
    ensures Ending(b, cr) && Tracks(b, cr.name, cr.rv, cr.r)
  {
    assert Hist(a, cr.name) <= Hist(b, cr.name);
  }

  /** If the request has not changed, its target secret is gone. */
  ghost predicate TargetGone(s: Cluster, n: Name, rv: nat, k: Name) {
    IsCurrent(s, n, rv) ==> k !in s.secrets
  }

  /** The user of a copy has been drawn. */
  lemma DrawnUser(w: World, n: Name, rv: nat, r: Request)
    requires w.Valid() && Deleting(w.s, n, rv, r)
    ensures r.status.user != "" ==> r.status.user in w.s.drawn
  {
    w.Known();
    if r.status.user != "" {
      NamedUser(w.s, n, rv, r.status.user);
    }
  }

  /** A deleted user stays deleted while no drawn user changes. */
  lemma StaysGone(a: Cluster, b: Cluster, u: string)
    requires UsersKept(a, b) && u in a.drawn && u !in a.users
    ensures u !in b.users
  {
    assert SameUser(a, b, u);
  }

  /** Deletes the target secret, which was there when last looked at. */
  method RemoveTarget(w: World, cr: Copy) returns (ok: bool)
    requires w.Valid() && Ending(w.s, cr)
    modifies w
    ensures w.Valid() && Advances(old(w.s), w.s) && w.Onward() && UsersKept(old(w.s), w.s)
    ensures ok ==> TargetGone(w.s, cr.name, cr.rv, cr.r.spec.secretRef)
    ensures old(w.Quiet()) ==>
      && w.s == old(w.s).(secrets := old(w.s).secrets - {cr.r.spec.secretRef})
      && ok == (cr.r.spec.secretRef in old(w.s).secrets)
  {
    var k := cr.r.spec.secretRef;
    ok := w.WriteSecret(cr.name, cr.rv, k, DeleteSecret);
    SecretWriteAdvances(old(w.s), k, DeleteSecret, w.s);
    if ok {
      ghost var m := SecretApply(old(w.s), k, DeleteSecret);
      EndingStays(old(w.s), m, cr);
      GoneStays(m, w.s, cr);
    }
  }

  /** Deletes the target secret if it is there. */
  method DeleteTarget(w: World, cr: Copy) returns (ok: bool)
    requires w.Valid() && Ending(w.s, cr)
    modifies w
    ensures w.Valid() && Advances(old(w.s), w.s) && w.Onward() && UsersKept(old(w.s), w.s)
    ensures ok ==> TargetGone(w.s, cr.name, cr.rv, cr.r.spec.secretRef)
    ensures old(w.Quiet()) ==> ok && w.s == old(w.s).(secrets := old(w.s).secrets - {cr.r.spec.secretRef})
  {
    var g := w.GetSecret(cr.r.spec.secretRef);
    RelySteady(old(w.s), w.s);
    SteadyAdvances(old(w.s), w.s);
    if g.Broken? {
      return false;
    }
    if g.Missing? {
      GoneStays(old(w.s), w.s, cr);
      return true;
    }
    label found:
    EndingStays(old(w.s), w.s, cr);
    ok := RemoveTarget(w, cr);
    AdvancesTrans(old(w.s), old@found(w.s), w.s);
    UsersKeptTrans(old(w.s), old@found(w.s), w.s);
  }

  lemma GoneStays(a: Cluster, b: Cluster, cr: Copy)
    requires Ending(a, cr) && Rely(a, b) && cr.r.spec.secretRef !in a.secrets
    ensures TargetGone(b, cr.name, cr.rv, cr.r.spec.secretRef)
  {
    if IsCurrent(b, cr.name, cr.rv) {
      assert Hist(a, cr.name) <= Hist(b, cr.name);
      assert Hist(a, cr.name) == Hist(b, cr.name);
      assert SecretKept(a, b, Stored(a, cr.name).value.spec.secretRef);
    }
  }

  /** Records how the deletion went in the condition and writes the status. */
  method RecordDeletion(w: World, cr: Copy, orig: Request, x: Setting) returns (ok: bool)
    requires w.Valid() && Ending(w.s, cr) && x.kind == CredentialsDeprovisionFailure
    requires Version(w.s, cr.name, cr.rv) == orig && cr.r == orig
    modifies w, cr
    ensures w.Valid() && Advances(old(w.s), w.s) && w.Onward() && UsersKept(old(w.s), w.s)
    ensures Ending(w.s, cr) && cr.r == orig.(status := orig.status.(conditions := Set(orig.status.conditions, x)))
    ensures old(w.Quiet() && IsCurrent(w.s, cr.name, cr.rv)) ==>
      && IsCurrent(w.s, cr.name, cr.rv) && Stored(w.s, cr.name) == Some(cr.r)
      && w.s == old(w.s).(history := w.s.history, claims := w.s.claims)
    ensures old(cr.rv) <= cr.rv
  {
    OtherConditionOK(cr.r.status, x);
    SetCondition(cr, x);
    EndingStays(w.s, w.s, cr);
    ok := UpdateStatusIfChanged(w, cr, orig);
    assert Hist(old(w.s), cr.name) <= Hist(w.s, cr.name);
  }

  /** What one fault-free reconcile makes of a deleted request: if the root credentials can be used, or are not
      needed, it finishes deprovisioning; else it records the failure and keeps the finalizer. */
  ghost predicate DeleteSpec(a: Cluster, b: Cluster, n: Name, r: Request, err: Err) {
    if r.status.user == "" || CanWrite(a) then
      err.NoError? && !Guarded(Stored(b, n)) && Cleared(b, r)
    else
      err.Plain? && Guarded(Stored(b, n)) && IsTrue(Stored(b, n).value.status.conditions, CredentialsDeprovisionFailure)
  }

  /** The branch of Reconcile for a deleted request with the finalizer. */
  method ReconcileDelete(w: World, cr: Copy, orig: Request, text: string) returns (err: Err)
    requires w.Valid() && Ending(w.s, cr) && cr.r == orig && Version(w.s, cr.name, cr.rv) == orig
    modifies w, cr
    ensures w.Valid() && w.Onward()
    ensures err.NoError? || err.Plain?
    ensures old(w.Quiet() && IsCurrent(w.s, cr.name, cr.rv)) ==> DeleteSpec(old(w.s), w.s, cr.name, orig, err)
    ensures err.NoError? ==>
      exists j :: old(cr.rv) < j < |Hist(w.s, cr.name)| && !Guarded(Hist(w.s, cr.name)[j])
  {
    var deleted := DeleteAndRecord(w, cr, orig, text);
    if !deleted {
      return Plain;
    }
    err := RemoveRequest(w, cr);
  }

  /** Calls Delete of the actuator and records how it went. */
  method DeleteAndRecord(w: World, cr: Copy, orig: Request, text: string) returns (deleted: bool)
    requires w.Valid() && Ending(w.s, cr) && cr.r == orig && Version(w.s, cr.name, cr.rv) == orig
    modifies w, cr
    ensures w.Valid() && w.Onward() && Ending(w.s, cr)
    ensures cr.r == orig.(status := orig.status.(conditions := cr.r.status.conditions))
    ensures deleted && orig.status.user != "" ==> orig.status.user !in w.s.users
    ensures old(w.Quiet() && IsCurrent(w.s, cr.name, cr.rv)) ==>
      && (deleted <==> orig.status.user == "" || CanWrite(old(w.s)))
      && IsCurrent(w.s, cr.name, cr.rv) && Stored(w.s, cr.name) == Some(cr.r)
      && (!deleted ==> IsTrue(cr.r.status.conditions, CredentialsDeprovisionFailure))
    ensures old(cr.rv) <= cr.rv
  {
    deleted := Delete(w, cr.name, cr.rv, cr.r);
    SteadyAdvances(old(w.s), w.s);
    EndingStays(old(w.s), w.s, cr);
    DrawnUser(w, cr.name, cr.rv, orig);
    label deleted:
    var x := DeprovisionFailed(!deleted, text, w.s.now);
    SetReads(orig.status.conditions, x, CredentialsDeprovisionFailure);
    var written := RecordDeletion(w, cr, orig, x);
    if deleted && orig.status.user != "" {
      StaysGone(old@deleted(w.s), w.s, orig.status.user);
    }
  }

  /** Deletes the target secret and then removes the finalizer. */
  method RemoveRequest(w: World, cr: Copy) returns (err: Err)
    requires w.Valid() && Ending(w.s, cr) && (cr.r.status.user != "" ==> cr.r.status.user !in w.s.users)
    modifies w
    ensures w.Valid() && w.Onward()
    ensures err.NoError? || err.Plain?
    ensures old(w.Quiet() && IsCurrent(w.s, cr.name, cr.rv)) ==>
      err.NoError? && !Guarded(Stored(w.s, cr.name)) && Cleared(w.s, cr.r)
    ensures err.NoError? ==> cr.rv + 1 < |Hist(w.s, cr.name)| && !Guarded(Hist(w.s, cr.name)[cr.rv + 1])
  {
    var ok := ClearTarget(w, cr);
    if !ok {
      return Plain;
    }
    err := RemoveDeprovisionFinalizer(w, cr);
  }

  /** Deletes the target secret of a request whose user is gone. */
  method ClearTarget(w: World, cr: Copy) returns (ok: bool)
    requires w.Valid() && Ending(w.s, cr) && (cr.r.status.user != "" ==> cr.r.status.user !in w.s.users)
    modifies w
    ensures w.Valid() && w.Onward() && Ending(w.s, cr)
    ensures cr.r.status.user != "" ==> cr.r.status.user !in w.s.users
    ensures ok ==> TargetGone(w.s, cr.name, cr.rv, cr.r.spec.secretRef)
    ensures old(w.Quiet()) ==>
      && ok && cr.r.spec.secretRef !in w.s.secrets && w.s.users == old(w.s).users && w.s.history == old(w.s).history
  {
    DrawnUser(w, cr.name, cr.rv, cr.r);
    ok := DeleteTarget(w, cr);
    EndingStays(old(w.s), w.s, cr);
    if cr.r.status.user != "" {
      StaysGone(old(w.s), w.s, cr.r.status.user);
    }
  }

  /** With the user and the target secret gone, the finalizer may come off. */
  lemma MayRemove(s: Cluster, cr: Copy)
    requires Ending(s, cr) && TargetGone(s, cr.name, cr.rv, cr.r.spec.secretRef)
    requires cr.r.status.user != "" ==> cr.r.status.user !in s.users
    ensures MayWrite(s, cr.name, cr.rv, RemoveFinalizer)
  {
  }

  /** removeDeprovisionFinalizer, on a deleted request of which nothing is left. */
  method RemoveDeprovisionFinalizer(w: World, cr: Copy) returns (err: Err)
    requires w.Valid() && Ending(w.s, cr) && TargetGone(w.s, cr.name, cr.rv, cr.r.spec.secretRef)
    requires cr.r.status.user != "" ==> cr.r.status.user !in w.s.users
    modifies w
    ensures w.Valid() && w.Onward()
    ensures err.NoError? || err.Plain?
    ensures err.NoError? ==> cr.rv + 1 < |Hist(w.s, cr.name)| && !Guarded(Hist(w.s, cr.name)[cr.rv + 1])
    ensures old(w.Quiet() && IsCurrent(w.s, cr.name, cr.rv)) ==>
      && err.NoError? && !Guarded(Stored(w.s, cr.name))
      && w.s.users == old(w.s).users && w.s.secrets == old(w.s).secrets
  {
    MayRemove(w.s, cr);
    err := DropFinalizer(w, cr.name, cr.rv);
  }

  /** The write behind RemoveDeprovisionFinalizer. */
  method DropFinalizer(w: World, n: Name, rv: nat) returns (err: Err)
    requires w.Valid() && MayWrite(w.s, n, rv, RemoveFinalizer)
    modifies w
    ensures w.Valid() && w.Onward()
    ensures err.NoError? || err.Plain?
    ensures err.NoError? ==> rv + 1 < |Hist(w.s, n)| && !Guarded(Hist(w.s, n)[rv + 1])
    ensures old(w.Quiet() && IsCurrent(w.s, n, rv)) ==>
      && err.NoError? && !Guarded(Stored(w.s, n))
      && w.s.users == old(w.s).users && w.s.secrets == old(w.s).secrets
  {
    var ok := w.UpdateRequest(n, rv, RemoveFinalizer);
    if ok {
      WroteFinalizer(old(w.s), n, rv, RemoveFinalizer, w.s);
    }
    err := if ok then NoError else Plain;
  }

  /** What a write of the finalizers that took effect leaves. */
  lemma WroteFinalizer(a: Cluster, n: Name, rv: nat, op: RequestOp, b: Cluster)
    requires IsCurrent(a, n, rv) && Stored(a, n).Some? && (op.AddFinalizer? || op.RemoveFinalizer?)
    requires Rely(WriteApply(a, n, rv, op), b)
    ensures rv + 1 < |Hist(b, n)| && (Guarded(Hist(b, n)[rv + 1]) <==> op.AddFinalizer?)
    ensures var m := WriteApply(a, n, rv, op);
      m.users == a.users && m.secrets == a.secrets && Stored(m, n) == Hist(b, n)[rv + 1]
  {
    var m := WriteApply(a, n, rv, op);
    assert Hist(m, n) <= Hist(b, n);
    assert |Hist(m, n)| == rv + 2;
  }

  // ---- Provisioning ----

  /** What the sync of the copy had to bring about is there. */
  ghost predicate Achieved(w: World, cr: Copy, saw: Option<Secret>)
    reads w, cr
  {
    && Aligned(w.s, cr.name, cr.rv, cr.r) && Outcome(w.s, w.infra, w.uuid, cr.name, cr.rv, cr.r, saw)
    && SeenInRun(w.init, w.log, saw)
  }

  /** The outcome depends on the version the copy was made of only. */
  lemma OutcomeOfVersion(s: Cluster, infra: string, uuid: string, n: Name, rv: nat, r: Request, saw: Option<Secret>)
    requires Working(s, n, rv, r) && Outcome(s, infra, uuid, n, rv, r, saw)
    ensures Outcome(s, infra, uuid, n, rv, Version(s, n, rv), saw)
  {
  }

  /** The success of the actuator enters the run; the copy can still be written. */
  method NoteSuccess(w: World, cr: Copy, saw: Option<Secret>)
    requires w.Valid() && Achieved(w, cr, saw)
    modifies w`s, w`log
    ensures w.Valid() && w.Onward() && Writable(w.s, cr.name, cr.rv, cr.r)
    ensures w.s == old(w.s).(synced := w.s.synced, caught := w.s.caught, owed := w.s.owed)
    ensures cr.name !in w.s.caught && cr.name !in w.s.owed
    ensures IsCurrent(w.s, cr.name, cr.rv) ==>
      SyncRecord(cr.name, cr.r.uid, cr.r.generation, cr.r.spec, w.s.now) in w.s.synced
  {
    OutcomeOfVersion(w.s, w.infra, w.uuid, cr.name, cr.rv, cr.r, saw);
    w.Do(Report(cr.name, cr.rv, Some(Success(w.infra, w.uuid, saw))));
  }

  /** The failure of the actuator enters the run. */
  method NoteFailure(w: World, n: Name, rv: nat)
    requires w.Valid() && Holds(w.s, n, rv)
    modifies w`s, w`log
    ensures w.Valid() && w.Onward() && w.s == old(w.s)
  {
    w.Do(Report(n, rv, None));
  }

  /** A copy whose user is still the one that was read is a copy of exactly the version that was read. */
  ghost predicate BasedOn(s: Cluster, cr: Copy, orig: Request)
    reads cr
  {
    && Holds(s, cr.name, cr.rv)
    && (cr.r.status.user == orig.status.user ==>
          Version(s, cr.name, cr.rv) == orig && cr.r == orig.(status := cr.r.status))
  }

  /** The stored request has this spec and says that its generation was synced at this time. */
  ghost predicate Recorded(s: Cluster, n: Name, spec: Spec, now: nat) {
    && Stored(s, n).Some? && Stored(s, n).value.spec == spec && Stored(s, n).value.status.provisioned
    && Stored(s, n).value.status.lastSyncGeneration == Stored(s, n).value.generation
    && Stored(s, n).value.status.lastSyncTime == Some(now)
    && !IsTrue(Stored(s, n).value.status.conditions, MissingTargetNamespace)
  }

  /** The stored request is the synced one, recorded as such. */
  ghost predicate RecordedAs(m: Cluster, b: Cluster, n: Name, after: Request) {
    && b.users == m.users && b.secrets == m.secrets && Recorded(b, n, after.spec, m.now)
    && Stored(b, n).value == after.(status := Stored(b, n).value.status)
    && Stored(b, n).value.status.user == after.status.user && Stored(b, n).value.status.policy == after.status.policy
  }

  /** The stored request carries this failure and is not provisioned. */
  ghost predicate Marked(s: Cluster, n: Name, reason: ConditionType) {
    && Stored(s, n).Some? && !Stored(s, n).value.status.provisioned
    && IsTrue(Stored(s, n).value.status.conditions, reason)
    && !IsTrue(Stored(s, n).value.status.conditions, MissingTargetNamespace)
  }

  /** The stored request is the failed one: a reason is recorded as a condition and costs it Provisioned but not its
      sync record; any other error leaves the stored request alone. */
  ghost predicate FailedAs(m: Cluster, b: Cluster, n: Name, after: Request, why: Err, err: Err) {
    && err == why && b.users == m.users && b.secrets == m.secrets
    && (if why.ActuatorError? then
          && Marked(b, n, why.reason) && Stored(b, n).value == after.(status := Stored(b, n).value.status)
          && Stored(b, n).value.status.user == after.status.user && SameSync(Stored(b, n).value.status, after.status)
        else b.history == m.history)
  }

  /** The sync worked: the actuator's conditions are cleared and the generation that was synced is recorded. */
  method RecordSuccess(w: World, cr: Copy, orig: Request, saw: Option<Secret>) returns (err: Err)
    requires w.Valid() && Achieved(w, cr, saw) && cr.r.generation == orig.generation
    requires !IsTrue(cr.r.status.conditions, MissingTargetNamespace)
    modifies w, cr
    ensures w.Valid() && w.Onward()
    ensures err.NoError? || err.Plain?
    ensures cr.name !in w.s.owed
    ensures IsCurrent(old(w.s), cr.name, old(cr.rv)) ==>
      SyncRecord(cr.name, old(cr.r).uid, old(cr.r).generation, old(cr.r).spec, old(w.s).now) in w.s.synced
    ensures old(w.Quiet() && IsCurrent(w.s, cr.name, cr.rv) && BasedOn(w.s, cr, orig)) ==>
      err.NoError? && RecordedAs(old(w.s), w.s, cr.name, old(cr.r))
    ensures err.NoError? && old(BasedOn(w.s, cr, orig)) ==> StoredAsSynced(w.s, cr.name, old(cr.r))
  {
    NoteSuccess(w, cr, saw);
    UpdateActuatorConditions(cr, None, "", w.s.now);
    cr.r := cr.r.(status := cr.r.status.(provisioned := true, lastSyncTime := Some(w.s.now),
                                         lastSyncGeneration := orig.generation));
    assert Tracks(w.s, cr.name, cr.rv, cr.r);
    label marked:
    var ok := UpdateStatusIfChanged(w, cr, orig);
    err := if ok then NoError else Plain;
    if ok && old(BasedOn(w.s, cr, orig)) {
      assert Hist(old@marked(w.s), cr.name) <= Hist(w.s, cr.name);
      assert SaysSynced(Hist(w.s, cr.name)[cr.rv], old(cr.r));
    }
  }

  /** The sync failed: a reason from the actuator is recorded as a condition; any other error ends the reconcile at
      once. */
  method RecordFailure(w: World, cr: Copy, orig: Request, why: Err, text: string) returns (err: Err)
    requires w.Valid() && Writable(w.s, cr.name, cr.rv, cr.r) && !why.NoError?
    requires why.ActuatorError? ==> why.reason == InsufficientCloudCreds || why.reason == CredentialsProvisionFailure
    requires !IsTrue(cr.r.status.conditions, MissingTargetNamespace)
    modifies w, cr
    ensures w.Valid() && w.Onward() && !err.NoError?
    ensures w.s.owed == old(w.s).owed && (err.ActuatorError? || err.Panic? ==> err == why)
    ensures old(w.Quiet() && IsCurrent(w.s, cr.name, cr.rv) && BasedOn(w.s, cr, orig)) ==>
      FailedAs(old(w.s), w.s, cr.name, old(cr.r), why, err)
    ensures old(w.Quiet() && IsCurrent(w.s, cr.name, cr.rv) && BasedOn(w.s, cr, orig)) && why.ActuatorError? ==>
      && Stored(w.s, cr.name).Some?
      && Shows(Stored(w.s, cr.name).value.status.conditions, FailureSetting(why.reason, text, old(w.s).now))
  {
    NoteFailure(w, cr.name, cr.rv);
    cr.r := cr.r.(status := cr.r.status.(provisioned := false));
    if !why.ActuatorError? {
      return why;
    }
    MarkFailure(cr, why.reason, text, w.s.now);
    assert Tracks(w.s, cr.name, cr.rv, cr.r);
    var ok := UpdateStatusIfChanged(w, cr, orig);
    err := if ok then why else Plain;
  }

  /** The condition that a failure for this reason sets. */
  function FailureSetting(reason: ConditionType, text: string, now: nat): Setting {
    if reason == InsufficientCloudCreds then InsufficientCreds(true, now) else ProvisionFailed(true, text, now)
  }

  /** The conditions of an unprovisioned copy after a failure for this reason. */
  method MarkFailure(cr: Copy, reason: ConditionType, text: string, now: nat)
    requires UniqueTypes(cr.r.status.conditions) && !cr.r.status.provisioned
    requires reason == InsufficientCloudCreds || reason == CredentialsProvisionFailure
    modifies cr`r
    ensures cr.r == old(cr.r).(status := old(cr.r).status.(conditions := cr.r.status.conditions))
    ensures StatusOK(cr.r.status) && IsTrue(cr.r.status.conditions, reason)
    ensures Shows(cr.r.status.conditions, FailureSetting(reason, text, now))
    ensures IsTrue(cr.r.status.conditions, MissingTargetNamespace)
            <==> IsTrue(old(cr.r).status.conditions, MissingTargetNamespace)
  {
    UpdateActuatorConditions(cr, Some(reason), text, now);
  }

  /** The copy differs from the version that was read, orig, in its conditions only. */
  ghost predicate Fresh(s: Cluster, cr: Copy, orig: Request)
    reads cr
  {
    && Aligned(s, cr.name, cr.rv, cr.r) && Version(s, cr.name, cr.rv) == orig
    && cr.r.status == orig.status.(conditions := cr.r.status.conditions)
  }

  lemma FreshStays(a: Cluster, b: Cluster, cr: Copy, orig: Request)
    requires Fresh(a, cr, orig) && Advances(a, b)
    ensures Fresh(b, cr, orig)
  {
    AlignedStays(a, b, cr.name, cr.rv, cr.r);
    assert Hist(a, cr.name) <= Hist(b, cr.name);
  }

  /** What one fault-free sync makes of a live request, by the mode of the root secret. Minting ends in sync and
      recorded, exactly unless the request is stuck or its target has a nil Data map; insufficient credentials end
      marked as such; passing through ends with the root key pair in the target, exactly unless that has a nil Data
      map, and without such a pair ends recorded as synced, no key stored, if there is a target; with an unknown mode
      nothing is done and the request ends recorded as synced. A request that is in sync and readable is recorded as
      synced, with or without root credentials; one that is not, and cannot be provided for, ends marked with the
      provision failure. */
  ghost predicate SyncSpec(a: Cluster, b: Cluster, infra: string, uuid: string, n: Name, r: Request, named: bool,
                           keyId: string, keySecret: string, err: Err)
  {
    && (MintClear(a, r, keyId, keySecret) && (named || r.status.user != "") ==> MintSpec(a, b, infra, uuid, n, r, err))
    && (NeedsWork(a, infra, uuid, r) ==> ModeSpec(a, b, n, r, named, err))
    && (!NeedsWork(a, infra, uuid, r) ==> RestSpec(a, b, infra, uuid, n, r, err))
  }

  ghost predicate MintSpec(a: Cluster, b: Cluster, infra: string, uuid: string, n: Name, r: Request, err: Err) {
    && (err.NoError? <==> !Stuck(a, r) && !NilTarget(a, r)) && (err.Panic? <==> !Stuck(a, r) && NilTarget(a, r))
    && (err.NoError? ==> Recorded(b, n, r.spec, a.now) && InSync(b, infra, uuid, Stored(b, n).value))
  }

  ghost predicate ModeSpec(a: Cluster, b: Cluster, n: Name, r: Request, named: bool, err: Err) {
    match RootMode(a)
    case None => Unprovided(a, b, n, err, CredentialsProvisionFailure)
    case Some(Insufficient) => Unprovided(a, b, n, err, InsufficientCloudCreds)
    case Some(OtherMode(_)) =>
      err.NoError? && Recorded(b, n, r.spec, a.now) && b.users == a.users && b.secrets == a.secrets
    case Some(Passthrough) =>
      if HasKeyPair(a.secrets[ROOT_CREDS]) then
        && (err.NoError? <==> !NilTarget(a, r)) && (err.Panic? <==> NilTarget(a, r)) && b.users == a.users
        && (err.NoError? ==>
              Recorded(b, n, r.spec, a.now) && PassedThrough(b, n, Stored(b, n).value, a.secrets[ROOT_CREDS]))
      else if r.spec.secretRef in a.secrets then
        err.NoError? && Recorded(b, n, r.spec, a.now) && AnnotatedOnly(a, b, n, r.spec.secretRef) && b.users == a.users
      else Unprovided(a, b, n, err, CredentialsProvisionFailure)
    case Some(Mint) => Lacking(a, r, named) ==> Unprovided(a, b, n, err, CredentialsProvisionFailure)
  }

  ghost predicate RestSpec(a: Cluster, b: Cluster, infra: string, uuid: string, n: Name, r: Request, err: Err) {
    if CanRead(a, r) && InSync(a, infra, uuid, r) then
      && err.NoError? && Recorded(b, n, r.spec, a.now) && InSync(b, infra, uuid, Stored(b, n).value)
      && b.users == a.users && b.secrets == a.secrets
    else Unprovided(a, b, n, err, CredentialsProvisionFailure)
  }

  /** The reconcile ends with this failure recorded, and nothing else changed. */
  ghost predicate Unprovided(a: Cluster, b: Cluster, n: Name, err: Err, reason: ConditionType) {
    err == ActuatorError(reason) && Marked(b, n, reason) && b.users == a.users && b.secrets == a.secrets
  }

  /** Bookkeeping does not enter into what a sync does. */
  lemma SameSyncSpec(a: Cluster, m: Cluster, b: Cluster, infra: string, uuid: string, n: Name, r: Request, named: bool,
                     keyId: string, keySecret: string, err: Err)
    requires m == a.(seen := m.seen, drawn := m.drawn, caught := m.caught, owed := m.owed)
    requires SyncSpec(m, b, infra, uuid, n, r, named, keyId, keySecret, err)
    ensures SyncSpec(a, b, infra, uuid, n, r, named, keyId, keySecret, err)
  {
    SameFacts(a, m, infra, uuid, r, keyId, keySecret);
  }

  lemma SameFacts(a: Cluster, m: Cluster, infra: string, uuid: string, r: Request, keyId: string, keySecret: string)
    requires m == a.(seen := m.seen, drawn := m.drawn, caught := m.caught, owed := m.owed)
    ensures NeedsWork(m, infra, uuid, r) == NeedsWork(a, infra, uuid, r) && RootMode(m) == RootMode(a)
    ensures InSync(m, infra, uuid, r) == InSync(a, infra, uuid, r) && CanRead(m, r) == CanRead(a, r)
    ensures MintClear(m, r, keyId, keySecret) == MintClear(a, r, keyId, keySecret)
    ensures Stuck(m, r) == Stuck(a, r) && NilTarget(m, r) == NilTarget(a, r)
  {
  }

  /** How far a reconcile came: it ended before the skip test, the version shown passed it, or the actuator was
      called. */
  datatype Course = Elsewhere | Skipped(shown: nat, when: nat) | Called(shown: nat, when: nat, failed: bool)

  /** The actuator is called for the version that was read, which did not pass the skip test. */
  method BeginSync(w: World, cr: Copy, orig: Request)
    requires w.Valid() && Fresh(w.s, cr, orig) && cr.rv == SeenAt(w.s, cr.name) && !SkipTest(orig, w.s.now)
    modifies w`s, w`log
    ensures w.Valid() && w.Onward() && w.s == BeginApply(old(w.s), cr.name) && Fresh(w.s, cr, orig)
    ensures cr.name in old(w.s).caught ==> cr.name in w.s.owed
  {
    CallNothingToSkip(w, cr.name, cr.rv);
    w.Do(Begin(cr.name, cr.rv));
    FreshFrame(old(w.s), w.s, cr, orig);
  }

  lemma CallNothingToSkip(w: World, n: Name, rv: nat)
    requires w.Valid() && MayBegin(w.s, n, rv)
    ensures n in w.s.caught ==> NothingToSkip(w.s, n)
  {
    w.Known();
    if n in w.s.caught {
      CaughtNothingToSkip(w.s, n, rv);
    }
  }

  lemma FreshFrame(a: Cluster, b: Cluster, cr: Copy, orig: Request)
    requires Fresh(a, cr, orig) && Hist(b, cr.name) == Hist(a, cr.name) && SeenAt(b, cr.name) == SeenAt(a, cr.name)
    ensures Fresh(b, cr, orig)
  {
  }

  /** Some stored version of this object says that this generation and spec of it is provisioned and synced. */
  ghost predicate StoredAsSynced(s: Cluster, n: Name, r: Request) {
    exists j :: 0 <= j < |Hist(s, n)| && SaysSynced(Hist(s, n)[j], r)
  }

  ghost predicate SaysSynced(v: Option<Request>, r: Request) {
    && v.Some? && v.value.uid == r.uid && v.value.generation == r.generation && v.value.spec == r.spec
    && v.value.status.provisioned && v.value.status.lastSyncGeneration == r.generation
  }

  /** A verdict of the actuator: whether it failed shows in the error, and a failure leaves what is owed. */
  ghost predicate Judged(a: Cluster, b: Cluster, n: Name, r: Request, failed: bool, err: Err) {
    && (err.NoError? ==> StoredAsSynced(b, n, r))
    && (if failed then !err.NoError? && (n in a.owed ==> n in b.owed) else err.NoError? || err.Plain?)
  }

  /** The rest of a reconcile once nothing allows it to be skipped. */
  method ReconcileSync(w: World, cr: Copy, orig: Request, name: Option<string>, keyId: string, keySecret: string,
                       text: string)
    returns (err: Err, ghost failed: bool)
    requires w.Valid() && Fresh(w.s, cr, orig)
    requires cr.r.status.user == "" && name.Some? ==> MayClaim(w.s, name.value)
    requires !IsTrue(cr.r.status.conditions, MissingTargetNamespace)
    modifies w, cr
    ensures w.Valid() && w.Onward() && Judged(old(w.s), w.s, cr.name, orig, failed, err)
    ensures old(w.Quiet() && IsCurrent(w.s, cr.name, cr.rv)) ==>
      SyncSpec(old(w.s), w.s, w.infra, w.uuid, cr.name, orig, name.Some?, keyId, keySecret, err)
  {
    var exists? := Exists(w, cr.r);
    RelySteady(old(w.s), w.s);
    SteadyAdvances(old(w.s), w.s);
    FreshStays(old(w.s), w.s, cr, orig);
    if exists?.None? {
      NoteFailure(w, cr.name, cr.rv);
      return Plain, true;
    }
    err, failed := SyncAndRecord(w, cr, orig, name, keyId, keySecret, text);
  }

  /** Create and Update of the actuator, which are both Sync, and the record of how it went. */
  method SyncAndRecord(w: World, cr: Copy, orig: Request, name: Option<string>, keyId: string, keySecret: string,
                       text: string)
    returns (err: Err, ghost failed: bool)
    requires w.Valid() && Fresh(w.s, cr, orig)
    requires cr.r.status.user == "" && name.Some? ==> MayClaim(w.s, name.value)
    requires !IsTrue(cr.r.status.conditions, MissingTargetNamespace)
    modifies w, cr
    ensures w.Valid() && w.Onward() && Judged(old(w.s), w.s, cr.name, orig, failed, err)
    ensures old(w.Quiet() && IsCurrent(w.s, cr.name, cr.rv)) ==>
      SyncSpec(old(w.s), w.s, w.infra, w.uuid, cr.name, orig, name.Some?, keyId, keySecret, err)
  {
    ghost var before := cr.r;
    var e, saw := Sync(w, cr, name, keyId, keySecret);
    label synced:
    failed := !e.NoError?;
    ghost var after, rv := cr.r, cr.rv;
    assert Hist(old(w.s), cr.name) <= Hist(w.s, cr.name);
    assert BasedOn(w.s, cr, orig);
    err := Record(w, cr, orig, e, saw, text);
    if old(w.Quiet() && IsCurrent(w.s, cr.name, cr.rv)) {
      RecordMeetsSpec(old(w.s), old@synced(w.s), w.s, w.infra, w.uuid, cr.name, rv, before, after, name.Some?,
                      keyId, keySecret, e, err);
      OnlyConditionsDiffer(old(w.s), w.s, w.infra, w.uuid, cr.name, before, orig, name.Some?, keyId, keySecret, err);
    }
  }

  /** How the sync went is recorded. */
  ghost predicate Tells(m: Cluster, b: Cluster, n: Name, after: Request, e: Err, err: Err) {
    if e.NoError? then err.NoError? && RecordedAs(m, b, n, after) else FailedAs(m, b, n, after, e, err)
  }

  /** The part of Reconcile that records how the sync went. */
  method Record(w: World, cr: Copy, orig: Request, e: Err, saw: Option<Secret>, text: string) returns (err: Err)
    requires w.Valid() && Writable(w.s, cr.name, cr.rv, cr.r) && cr.r.generation == orig.generation
    requires e.NoError? ==> Achieved(w, cr, saw)
    requires e.ActuatorError? ==> e.reason == InsufficientCloudCreds || e.reason == CredentialsProvisionFailure
    requires !IsTrue(cr.r.status.conditions, MissingTargetNamespace)
    modifies w, cr
    ensures w.Valid() && w.Onward() && (err.NoError? ==> e.NoError?) && (err.ActuatorError? || err.Panic? ==> err == e)
    ensures e.NoError? ==> cr.name !in w.s.owed
    ensures e.NoError? && IsCurrent(old(w.s), cr.name, old(cr.rv)) ==>
      SyncRecord(cr.name, old(cr.r).uid, old(cr.r).generation, old(cr.r).spec, old(w.s).now) in w.s.synced
    ensures !e.NoError? ==> w.s.owed == old(w.s).owed
    ensures old(w.Quiet() && IsCurrent(w.s, cr.name, cr.rv) && BasedOn(w.s, cr, orig)) ==>
      Tells(old(w.s), w.s, cr.name, old(cr.r), e, err)
    ensures err.NoError? && old(BasedOn(w.s, cr, orig)) ==> StoredAsSynced(w.s, cr.name, old(cr.r))
  {
    if e.NoError? {
      err := RecordSuccess(w, cr, orig, saw);
    } else {
      err := RecordFailure(w, cr, orig, e, text);
    }
  }

  /** Conditions do not enter into what a sync does. */
  lemma OnlyConditionsDiffer(s: Cluster, b: Cluster, infra: string, uuid: string, n: Name, r: Request, orig: Request,
                             named: bool, keyId: string, keySecret: string, err: Err)
    requires r == orig.(status := r.status) && r.status == orig.status.(conditions := r.status.conditions)
    requires SyncSpec(s, b, infra, uuid, n, r, named, keyId, keySecret, err)
    ensures SyncSpec(s, b, infra, uuid, n, orig, named, keyId, keySecret, err)
  {
    assert NeedsWork(s, infra, uuid, r) == NeedsWork(s, infra, uuid, orig);
    assert MintClear(s, r, keyId, keySecret) == MintClear(s, orig, keyId, keySecret);
    assert Stuck(s, r) == Stuck(s, orig) && NilTarget(s, r) == NilTarget(s, orig);
    assert CanRead(s, r) == CanRead(s, orig) && InSync(s, infra, uuid, r) == InSync(s, infra, uuid, orig);
  }

  /** Being in sync survives the record. */
  lemma RecordedInSync(m: Cluster, b: Cluster, infra: string, uuid: string, n: Name, after: Request)
    requires RecordedAs(m, b, n, after) && InSync(m, infra, uuid, after)
    ensures InSync(b, infra, uuid, Stored(b, n).value)
  {
  }

  /** From what the sync did and how that was recorded to what the reconcile did, by the mode ... */
  lemma RecordMeetsMode(a: Cluster, m: Cluster, b: Cluster, infra: string, uuid: string, n: Name, rv: nat,
                        before: Request, after: Request, named: bool, keyId: string, keySecret: string,
                        e: Err, err: Err)
    requires ByMode(a, m, infra, uuid, n, rv, before, after, named, keyId, keySecret, e) && m.now == a.now
    requires NeedsWork(a, infra, uuid, before)
    requires after == before.(status := after.status) && (m == a && after == before ==> IsCurrent(m, n, rv))
    requires IsCurrent(m, n, rv) ==> Tells(m, b, n, after, e, err)
    ensures ModeSpec(a, b, n, before, named, err)
  {
  }

  /** ... where there is nothing to do ... */
  lemma RecordMeetsRest(a: Cluster, m: Cluster, b: Cluster, infra: string, uuid: string, n: Name, rv: nat,
                        before: Request, after: Request, named: bool, keyId: string, keySecret: string,
                        e: Err, err: Err)
    requires Synced(a, m, infra, uuid, n, rv, before, after, named, keyId, keySecret, e)
    requires !NeedsWork(a, infra, uuid, before) && (IsCurrent(m, n, rv) ==> Tells(m, b, n, after, e, err))
    ensures RestSpec(a, b, infra, uuid, n, before, err)
  {
    if e.NoError? {
      RecordedInSync(m, b, infra, uuid, n, after);
    }
  }

  /** ... and where everything for a mint is there. */
  lemma RecordMeetsMint(a: Cluster, m: Cluster, b: Cluster, infra: string, uuid: string, n: Name, rv: nat,
                        before: Request, after: Request, named: bool, keyId: string, keySecret: string,
                        e: Err, err: Err)
    requires Synced(a, m, infra, uuid, n, rv, before, after, named, keyId, keySecret, e)
    requires MintClear(a, before, keyId, keySecret) && (named || before.status.user != "")
    requires after == before.(status := after.status)
    requires IsCurrent(m, n, rv) ==> Tells(m, b, n, after, e, err)
    ensures MintSpec(a, b, infra, uuid, n, before, err)
  {
    MintExact(a, m, infra, uuid, n, rv, before, after, named, keyId, keySecret, e);
    if e.NoError? {
      RecordedInSync(m, b, infra, uuid, n, after);
    }
  }

  lemma RecordMeetsSpec(a: Cluster, m: Cluster, b: Cluster, infra: string, uuid: string, n: Name, rv: nat,
                        before: Request, after: Request, named: bool, keyId: string, keySecret: string,
                        e: Err, err: Err)
    requires Synced(a, m, infra, uuid, n, rv, before, after, named, keyId, keySecret, e)
    requires after == before.(status := after.status) && (IsCurrent(m, n, rv) ==> Tells(m, b, n, after, e, err))
    ensures SyncSpec(a, b, infra, uuid, n, before, named, keyId, keySecret, err)
  {
    if MintClear(a, before, keyId, keySecret) && (named || before.status.user != "") {
      RecordMeetsMint(a, m, b, infra, uuid, n, rv, before, after, named, keyId, keySecret, e, err);
    }
    if NeedsWork(a, infra, uuid, before) {
      RecordMeetsMode(a, m, b, infra, uuid, n, rv, before, after, named, keyId, keySecret, e, err);
    } else {
      RecordMeetsRest(a, m, b, infra, uuid, n, rv, before, after, named, keyId, keySecret, e, err);
    }
  }

  /** Nothing has changed but what the worker was shown. */
  ghost predicate Still(a: Cluster, b: Cluster) {
    b.history == a.history && b.users == a.users && b.secrets == a.secrets
  }

  /** What one fault-free reconcile makes of a request that is live and carries the finalizer. A missing namespace is
      recorded and ends it; a recent sync of the same generation ends it without any write. */
  ghost predicate LiveSpec(a: Cluster, b: Cluster, infra: string, uuid: string, n: Name, r: Request, named: bool,
                           keyId: string, keySecret: string, err: Err, c: Course)
  {
    if r.spec.secretRef.ns !in a.namespaces then
      && err.NoError? && c.Elsewhere? && b.users == a.users && b.secrets == a.secrets
      && Stored(b, n).Some? && IsTrue(Stored(b, n).value.status.conditions, MissingTargetNamespace)
      && var x := MissingNamespace(true, r.spec.secretRef.ns, a.now);
        Stored(b, n) == Some(r.(status := r.status.(conditions := Set(r.status.conditions, x))))
    else if SkipTest(r, a.now) then err.NoError? && c.Skipped? && Still(a, b)
    else c.Called? && SyncSpec(a, b, infra, uuid, n, r, named, keyId, keySecret, err)
  }

  /** What is known of a reconcile that was shown version rv, however the calls went. The skip test was put to exactly
      that version; where a sync was owed it did not pass; and a failure of the actuator makes a sync owed if the
      version shown was caught up with the last sync. */
  ghost predicate Coursed(a: Cluster, b: Cluster, n: Name, rv: nat, r: Request, err: Err, c: Course) {
    && (!c.Elsewhere? ==> c.shown == rv && a.now <= c.when && (c.Skipped? <==> SkipTest(r, c.when)))
    && (c.Skipped? ==> err.NoError?)
    && (n in a.owed ==> !c.Skipped?)
    && (c.Called? && c.failed ==> !err.NoError? && (n in a.caught ==> n in b.owed))
    && (c.Called? && err.NoError? ==> StoredAsSynced(b, n, r))
    && (err.ActuatorError? || err.Panic? ==> c.Called? && c.failed)
  }

  /** The branch of Reconcile for a request that is not deleted and carries the finalizer. */
  method ReconcileLive(w: World, cr: Copy, orig: Request, name: Option<string>, keyId: string, keySecret: string,
                       text: string)
    returns (err: Err, ghost c: Course)
    requires w.Valid() && Fresh(w.s, cr, orig) && cr.r == orig && cr.rv == SeenAt(w.s, cr.name)
    requires cr.r.status.user == "" && name.Some? ==> MayClaim(w.s, name.value)
    modifies w, cr
    ensures w.Valid() && w.Onward() && Coursed(old(w.s), w.s, cr.name, old(cr.rv), orig, err, c)
    ensures c.Skipped? ==> SyncedWithinTheHour(w.init, w.log, cr.name, orig, c.when)
    ensures old(w.Quiet() && IsCurrent(w.s, cr.name, cr.rv)) ==>
      LiveSpec(old(w.s), w.s, w.infra, w.uuid, cr.name, orig, name.Some?, keyId, keySecret, err, c)
  {
    c := Elsewhere;
    var ns := w.GetNamespace(cr.r.spec.secretRef.ns);
    RelySteady(old(w.s), w.s);
    SteadyAdvances(old(w.s), w.s);
    FreshStays(old(w.s), w.s, cr, orig);
    if ns.Broken? {
      return Plain, c;
    }
    SetMissingNamespace(w, cr, orig, ns.Missing?);
    if ns.Missing? {
      var ok := UpdateStatusIfChanged(w, cr, orig);
      err := if ok then NoError else Plain;
      return;
    }
    err, c := ReconcileFound(w, cr, orig, name, keyId, keySecret, text);
  }

  /** The part of ReconcileLive behind the namespace gate: the skip test and the sync. */
  method ReconcileFound(w: World, cr: Copy, orig: Request, name: Option<string>, keyId: string, keySecret: string,
                        text: string)
    returns (err: Err, ghost c: Course)
    requires w.Valid() && Fresh(w.s, cr, orig) && cr.rv == SeenAt(w.s, cr.name)
    requires cr.r.status.user == "" && name.Some? ==> MayClaim(w.s, name.value)
    requires !IsTrue(cr.r.status.conditions, MissingTargetNamespace)
    modifies w, cr
    ensures w.Valid() && w.Onward() && Coursed(old(w.s), w.s, cr.name, old(cr.rv), orig, err, c) && !c.Elsewhere?
    ensures c.when == old(w.s).now
    ensures c.Skipped? ==> SyncedWithinTheHour(w.init, w.log, cr.name, orig, c.when)
    ensures SkipTest(orig, old(w.s).now) ==> err.NoError? && w.s == old(w.s)
    ensures old(w.Quiet() && IsCurrent(w.s, cr.name, cr.rv)) && !SkipTest(orig, old(w.s).now) ==>
      SyncSpec(old(w.s), w.s, w.infra, w.uuid, cr.name, orig, name.Some?, keyId, keySecret, err)
  {
    ghost var when, rv := w.s.now, cr.rv;
    if SkipTest(cr.r, w.s.now) {
      w.Known();
      SkippedNotOwed(w.s, cr.name, cr.rv);
      SkippedWasSynced(w.init, w.log, cr.name, cr.rv, when);
      return NoError, Skipped(rv, when);
    }
    BeginSync(w, cr, orig);
    label begun:
    ghost var failed;
    err, failed := ReconcileSync(w, cr, orig, name, keyId, keySecret, text);
    c := Called(rv, when, failed);
    if old(w.Quiet() && IsCurrent(w.s, cr.name, cr.rv)) {
      SameSyncSpec(old(w.s), old@begun(w.s), w.s, w.infra, w.uuid, cr.name, orig, name.Some?, keyId, keySecret, err);
    }
  }

  lemma SkippedNotOwed(s: Cluster, n: Name, rv: nat)
    requires Inv(s) && Holds(s, n, rv) && SkipTest(Version(s, n, rv), s.now)
    ensures n !in s.owed
  {
    assert ReqOK(s, n);
  }

  /** setMissingTargetNamespaceCondition, on a copy just read. */
  method SetMissingNamespace(w: World, cr: Copy, orig: Request, missing: bool)
    requires w.Valid() && Fresh(w.s, cr, orig) && cr.r == orig
    modifies cr`r
    ensures Fresh(w.s, cr, orig) && Writable(w.s, cr.name, cr.rv, cr.r)
    ensures cr.r == orig.(status := orig.status.(conditions :=
                            Set(orig.status.conditions, MissingNamespace(missing, orig.spec.secretRef.ns, w.s.now))))
    ensures IsTrue(cr.r.status.conditions, MissingTargetNamespace) <==> missing
  {
    var x := MissingNamespace(missing, cr.r.spec.secretRef.ns, w.s.now);
    OtherConditionOK(cr.r.status, x);
    SetReads(cr.r.status.conditions, x, MissingTargetNamespace);
    SetCondition(cr, x);
    AlignedStays(w.s, w.s, cr.name, cr.rv, cr.r);
  }

  // ---- Reconcile ----

  /** Right after a read that found version rv, the copy is that version. */
  lemma JustRead(s0: Cluster, acts: seq<Action>, a: Cluster, n: Name, rv: nat, b: Cluster)
    requires Run(s0, acts) && a == Exec(s0, acts)
    requires SeenAt(a, n) <= rv < |Hist(a, n)| && Hist(a, n)[rv].Some? && Rely(ReadApply(a, n, rv), b)
    ensures ShownIn(a, b, n, rv, Hist(a, n)[rv].value) && b.drawn == a.drawn
  {
    RunInv(s0, acts);
    var m := ReadApply(a, n, rv);
    assert Hist(m, n) == Hist(a, n);
    assert Hist(m, n) <= Hist(b, n);
    assert ReqOK(a, n);
    assert VersionOK(a, n, Hist(a, n)[rv].value);
  }

  /** b is what a is after the worker was shown version rv, which is r. */
  ghost predicate ShownIn(a: Cluster, b: Cluster, n: Name, rv: nat, r: Request) {
    && SeenAt(a, n) <= rv < |Hist(a, n)| && Hist(a, n)[rv] == Some(r)
    && SeenAt(b, n) == rv && Holds(b, n, rv) && Version(b, n, rv) == r && StatusOK(r.status)
    && b.owed == a.owed && b.claims == a.claims && a.now <= b.now && (NoNewerSync(a, n, rv) ==> n in b.caught)
  }

  lemma ShownView(a: Cluster, m: Cluster, b: Cluster, n: Name, rv: nat, r: Request)
    requires m == a.(drawn := m.drawn) && ShownIn(m, b, n, rv, r)
    ensures ShownIn(a, b, n, rv, r)
  {
  }

  /** What one fault-free reconcile makes of a request without the finalizer that is not deleted: it adds the
      finalizer. */
  ghost predicate AdoptSpec(a: Cluster, b: Cluster, n: Name, r: Request, err: Err) {
    && err.NoError? && b.users == a.users && b.secrets == a.secrets
    && Stored(b, n) == Some(r.(finalizers := r.finalizers + {Deprovision}))
  }

  /** addDeprovisionFinalizer, on a request that is not deleted. */
  method AddDeprovisionFinalizer(w: World, n: Name, rv: nat) returns (err: Err)
    requires w.Valid() && Holds(w.s, n, rv) && !Version(w.s, n, rv).deleted
    modifies w
    ensures w.Valid() && w.Onward()
    ensures err.NoError? || err.Plain?
    ensures err.NoError? ==> rv + 1 < |Hist(w.s, n)| && Guarded(Hist(w.s, n)[rv + 1])
    ensures old(w.Quiet() && IsCurrent(w.s, n, rv)) ==> AdoptSpec(old(w.s), w.s, n, Version(old(w.s), n, rv), err)
  {
    var ok := w.UpdateRequest(n, rv, AddFinalizer);
    if ok {
      WroteFinalizer(old(w.s), n, rv, AddFinalizer, w.s);
    }
    err := if ok then NoError else Plain;
  }

  /** What a reconcile draws on: the random suffix of a user name, the key AWS would issue, the text of an error. */
  datatype Item = Item(n: Name, suffix: string, keyId: string, keySecret: string, text: string)

  /** The random name is one that nobody uses. */
  ghost predicate FreshName(s: Cluster, name: Option<string>) {
    name.Some? ==> name.value !in s.drawn && name.value !in s.users
  }

  /** What one fault-free reconcile does, case by case. */
  ghost predicate ReconcileSpec(a: Cluster, b: Cluster, infra: string, uuid: string, i: Item, r: Request, named: bool,
                                err: Err, c: Course) {
    if r.deleted then
      c.Elsewhere? && if Deprovision in r.finalizers then DeleteSpec(a, b, i.n, r, err) else err.NoError? && Still(a, b)
    else if Deprovision !in r.finalizers then c.Elsewhere? && AdoptSpec(a, b, i.n, r, err)
    else LiveSpec(a, b, infra, uuid, i.n, r, named, i.keyId, i.keySecret, err, c)
  }

  /** Reconcile, after the name is drawn and the request is read. */
  method ReconcileRead(w: World, i: Item, name: Option<string>, rv: nat, orig: Request)
    returns (err: Err, ghost c: Course)
    requires w.Valid() && SeenAt(w.s, i.n) == rv && Holds(w.s, i.n, rv) && Version(w.s, i.n, rv) == orig
    requires StatusOK(orig.status)
    requires name.Some? ==> MayClaim(w.s, name.value)
    modifies w
    ensures w.Valid() && w.Onward() && Coursed(old(w.s), w.s, i.n, rv, orig, err, c)
    ensures c.Skipped? ==> SyncedWithinTheHour(w.init, w.log, i.n, orig, c.when)
    ensures old(w.Quiet() && IsCurrent(w.s, i.n, rv)) ==>
      ReconcileSpec(old(w.s), w.s, w.infra, w.uuid, i, orig, name.Some?, err, c)
  {
    c := Elsewhere;
    var cr := new Copy(i.n, rv, orig);
    if orig.deleted {
      if Deprovision in orig.finalizers {
        err := ReconcileDelete(w, cr, orig, i.text);
        return;
      }
      return NoError, c;
    }
    if Deprovision !in orig.finalizers {
      err := AddDeprovisionFinalizer(w, i.n, rv);
      return;
    }
    err, c := ReconcileLive(w, cr, orig, name, i.keyId, i.keySecret, i.text);
  }

  /** Reading the request and reserving a name change nothing that decides how a reconcile goes. */
  lemma SameView(a: Cluster, m: Cluster, b: Cluster, infra: string, uuid: string, i: Item, r: Request, named: bool,
                 err: Err, c: Course)
    requires OnlyShown(a, m)
    requires ReconcileSpec(m, b, infra, uuid, i, r, named, err, c)
    ensures ReconcileSpec(a, b, infra, uuid, i, r, named, err, c)
  {
    if SyncSpec(m, b, infra, uuid, i.n, r, named, i.keyId, i.keySecret, err) {
      SameSyncSpec(a, m, b, infra, uuid, i.n, r, named, i.keyId, i.keySecret, err);
    }
  }

  /** What is known of every reconcile, however the calls went. It puts the skip test to the version it was shown,
      which was readable before; a request for which a sync is owed is not skipped; and when the actuator fails, a
      sync is owed unless a version newer than the one shown records a sync of its own generation within the hour. */
  ghost predicate ReconcileCourse(a: Cluster, b: Cluster, n: Name, err: Err, c: Course) {
    && (!c.Elsewhere? ==>
          && SeenAt(a, n) <= c.shown < |Hist(a, n)| && Hist(a, n)[c.shown].Some? && a.now <= c.when
          && var r := Hist(a, n)[c.shown].value;
            (c.Skipped? <==>
               && r.generation == r.status.lastSyncGeneration
               && r.status.lastSyncTime.Some? && c.when < r.status.lastSyncTime.value + 3600))
    && (n in a.owed ==> !c.Skipped?)
    && (c.Called? && c.failed ==> !err.NoError? && (NoNewerSync(a, n, c.shown) ==> n in b.owed))
    && (c.Called? && err.NoError? ==> StoredAsSynced(b, n, Hist(a, n)[c.shown].value))
    && (err.ActuatorError? || err.Panic? ==> c.Called? && c.failed)
  }

  lemma CourseFromRead(a: Cluster, m: Cluster, b: Cluster, n: Name, rv: nat, r: Request, err: Err, c: Course)
    requires ShownIn(a, m, n, rv, r)
    requires Coursed(m, b, n, rv, r, err, c)
    ensures ReconcileCourse(a, b, n, err, c)
  {
  }

  /** What one fault-free reconcile does: nothing if the request is not there. */
  ghost predicate StoredSpec(a: Cluster, b: Cluster, infra: string, uuid: string, i: Item, named: bool, err: Err,
                             c: Course)
  {
    match Stored(a, i.n)
    case None => err.NoError? && c.Elsewhere? && Still(a, b)
    case Some(r) => ReconcileSpec(a, b, infra, uuid, i, r, named, err, c)
  }

  /** Reconcile, after the name is drawn in state a. */
  method ReconcileNamed(w: World, i: Item, name: Option<string>, ghost a: Cluster) returns (err: Err, ghost c: Course)
    requires w.Valid() && (name.Some? ==> MayClaim(w.s, name.value)) && w.s == a.(drawn := w.s.drawn)
    modifies w
    ensures w.Valid() && w.Onward() && ReconcileCourse(a, w.s, i.n, err, c)
    ensures c.Skipped? ==> SyncedWithinTheHour(w.init, w.log, i.n, Hist(a, i.n)[c.shown].value, c.when)
    ensures old(w.Quiet()) && !c.Elsewhere? ==> c.shown + 1 == |Hist(a, i.n)|
    ensures old(w.Quiet()) ==> StoredSpec(a, w.s, w.infra, w.uuid, i, name.Some?, err, c)
  {
    c := Elsewhere;
    var r, rv := Fetch(w, i.n, a);
    if r.Broken? {
      return Plain, c;
    }
    if r.Missing? {
      return NoError, c;
    }
    err, c := ReconcileShown(w, i, name, rv, r.value, a);
  }

  /** Reconcile, after version rv, which is r, was shown; the name was drawn in state a. */
  method ReconcileShown(w: World, i: Item, name: Option<string>, rv: nat, r: Request, ghost a: Cluster)
    returns (err: Err, ghost c: Course)
    requires w.Valid() && ShownIn(a, w.s, i.n, rv, r) && (name.Some? ==> MayClaim(w.s, name.value))
    modifies w
    ensures w.Valid() && w.Onward() && ReconcileCourse(a, w.s, i.n, err, c) && (!c.Elsewhere? ==> c.shown == rv)
    ensures c.Skipped? ==> SyncedWithinTheHour(w.init, w.log, i.n, r, c.when)
    ensures old(w.Quiet() && IsCurrent(w.s, i.n, rv) && OnlyShown(a, w.s)) ==>
      ReconcileSpec(a, w.s, w.infra, w.uuid, i, r, name.Some?, err, c)
  {
    err, c := ReconcileRead(w, i, name, rv, r);
    CourseFromRead(a, old(w.s), w.s, i.n, rv, r, err, c);
    if old(w.Quiet() && IsCurrent(w.s, i.n, rv) && OnlyShown(a, w.s)) {
      SameView(a, old(w.s), w.s, w.infra, w.uuid, i, r, name.Some?, err, c);
    }
  }

  /** A name was drawn and a version shown, and nothing else happened. */
  ghost predicate OnlyShown(a: Cluster, b: Cluster) {
    b == a.(seen := b.seen, drawn := b.drawn, caught := b.caught)
  }

  /** Reads the request, after a name was drawn in state a. */
  method Fetch(w: World, n: Name, ghost a: Cluster) returns (r: Got<Request>, rv: nat)
    requires w.Valid() && w.s == a.(drawn := w.s.drawn)
    modifies w
    ensures w.Valid() && w.Onward()
    ensures r.Found? ==> w.s.drawn == old(w.s).drawn
    ensures r.Found? ==> ShownIn(a, w.s, n, rv, r.value)
    ensures old(w.Quiet()) ==>
      && w.Quiet() && !r.Broken? && rv + 1 == |Hist(a, n)|
      && OnlyShown(a, w.s)
      && r == match Stored(a, n) case Some(x) => Found(x) case None => Missing
  {
    assert Hist(w.s, n) == Hist(a, n) && SeenAt(w.s, n) == SeenAt(a, n);
    r, rv := w.GetRequest(n);
    if r.Found? {
      JustRead(w.init, old(w.log), old(w.s), n, rv, w.s);
      ShownView(a, old(w.s), w.s, n, rv, r.value);
    }
  }

  /** Reconcile. However the calls go, it takes a course as ReconcileCourse says; fault-free it does what
      StoredSpec says, from every state that any run may have led to. */
  method Reconcile(w: World, i: Item) returns (err: Err, ghost c: Course)
    requires w.Valid() && |i.suffix| == 5 && FreshName(w.s, GenerateUserName(w.infra, i.n.name, i.suffix))
    modifies w
    ensures w.Valid() && w.Onward() && ReconcileCourse(old(w.s), w.s, i.n, err, c)
    ensures c.Skipped? ==> SyncedWithinTheHour(w.init, w.log, i.n, Hist(old(w.s), i.n)[c.shown].value, c.when)
    ensures old(w.Quiet()) && !c.Elsewhere? ==> c.shown + 1 == |Hist(old(w.s), i.n)|
    ensures old(w.Quiet()) ==> StoredSpec(old(w.s), w.s, w.infra, w.uuid, i, i.n.name != "", err, c)
  {
    var name := DrawUserName(w, i);
    err, c := ReconcileNamed(w, i, name, old(w.s));
  }

  /** Two reconciles of one request. If the actuator fails in the first, and no version newer than the one it was
      shown records a sync of its own generation within the hour, the second is not skipped, however its calls go. And
      a fault-free second one is skipped exactly if the stored version between the two, mid, passes the skip test. If
      the name drawn for the second is in use by then there is no second reconcile: two is Elsewhere, calm is false,
      and what is said of two holds trivially. */
  method ReconcileTwice(w: World, i: Item, j: Item)
    returns (first: Err, ghost one: Course, second: Err, ghost two: Course, ghost mid: Cluster, ghost calm: bool)
    requires w.Valid() && i.n == j.n && |i.suffix| == 5 && |j.suffix| == 5
    requires FreshName(w.s, GenerateUserName(w.infra, i.n.name, i.suffix))
    modifies w
    ensures w.Valid() && w.Onward()
    ensures one.Called? && one.failed && NoNewerSync(old(w.s), i.n, one.shown) ==> !two.Skipped?
    ensures first.ActuatorError? || first.Panic? ==> one.Called? && one.failed
    ensures old(w.Quiet()) && (first.ActuatorError? || first.Panic?) ==> !two.Skipped?
    ensures calm ==>
      (two.Skipped? <==>
         && Provisionable(Stored(mid, i.n)) && Stored(mid, i.n).value.spec.secretRef.ns in mid.namespaces
         && SkipTest(Stored(mid, i.n).value, mid.now))
  {
    first, one := Reconcile(w, i);
    mid, calm := w.s, w.Quiet();
    var name := GenerateUserName(w.infra, j.n.name, j.suffix);
    second, two := Plain, Elsewhere;
    if name.Some? && (name.value in w.s.drawn || name.value in w.s.users) {
      // A name in use is not drawn.
      calm := false;
      return;
    }
    second, two := Reconcile(w, j);
  }

  /** Draws the user name that generateUserName would yield. */
  method DrawUserName(w: World, i: Item) returns (name: Option<string>)
    requires w.Valid() && |i.suffix| == 5 && FreshName(w.s, GenerateUserName(w.infra, i.n.name, i.suffix))
    modifies w
    ensures w.Valid() && w.Onward() && w.tick == old(w.tick)
    ensures name.Some? <==> i.n.name != ""
    ensures w.s == old(w.s).(drawn := w.s.drawn) && (name.Some? ==> MayClaim(w.s, name.value))
  {
    name := GenerateUserName(w.infra, i.n.name, i.suffix);
    if name.Some? {
      w.Known();
      assert name.value !in w.s.claims;
      w.Reserve(name.value);
    }
  }

  /** The single worker, given the requests that come up and what chance yields for each; an item whose random name is
      in use is one that does not occur. Whatever fails and whatever the environment does, every moment of the
      run is safe. */
  method RunOperator(w: World, schedule: seq<Item>)
    requires w.Valid() && forall j :: 0 <= j < |schedule| ==> |schedule[j].suffix| == 5
    modifies w
    ensures w.Valid() && w.Onward()
    ensures forall k :: 0 <= k <= |w.log| ==> SafeAt(w.init, w.log, k)
  {
    for j := 0 to |schedule|
      invariant w.Valid() && w.Onward()
    {
      var name := GenerateUserName(w.infra, schedule[j].n.name, schedule[j].suffix);
      if name.None? || (name.value !in w.s.drawn && name.value !in w.s.users) {
        var err;
        ghost var c;
        err, c := Reconcile(w, schedule[j]);
      }
    }
    forall k | 0 <= k <= |w.log| ensures SafeAt(w.init, w.log, k) {
      RunIsSafe(w.init, w.log, k);
    }
  }
}
