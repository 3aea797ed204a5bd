/** The conditions kept in a CredentialsRequest's status. */
module Conditions {
  import opened Wrappers

  datatype ConditionType =
    | InsufficientCloudCreds
    | MissingTargetNamespace
    | CredentialsProvisionFailure
    | CredentialsDeprovisionFailure

  datatype ConditionStatus = StatusTrue | StatusFalse | StatusUnknown

  datatype Condition = Condition(
    kind: ConditionType,
    status: ConditionStatus,
    reason: string,
    message: string,
    lastTransition: nat,
    lastProbe: nat)

  /** The three update checks, as a closed set. */
  datatype UpdateCheck = UpdateAlways | UpdateIfReasonOrMessageChange | UpdateNever {
    predicate Fires(oldReason: string, oldMessage: string, newReason: string, newMessage: string) {
      match this
      case UpdateAlways => true
      case UpdateIfReasonOrMessageChange => oldReason != newReason || oldMessage != newMessage
      case UpdateNever => false
    }
  }

  /** One call of SetCredentialsRequestCondition, with the clock value it reads. */
  datatype Setting = Setting(
    kind: ConditionType,
    status: ConditionStatus,
    reason: string,
    message: string,
    check: UpdateCheck,
    at: nat)

  ghost predicate UniqueTypes(cs: seq<Condition>) {
    forall i, j :: 0 <= i < j < |cs| ==> cs[i].kind != cs[j].kind
  }

  /** The first condition of a type, if any. */
  function Find(cs: seq<Condition>, kind: ConditionType): (r: Option<nat>)
    ensures r.Some? ==> r.value < |cs| && cs[r.value].kind == kind
    ensures r.Some? ==> forall i :: 0 <= i < r.value ==> cs[i].kind != kind
    ensures r.None? <==> forall i :: 0 <= i < |cs| ==> cs[i].kind != kind
  {
    if cs == [] then None
    else if cs[0].kind == kind then Some(0)
    else
      var r := Find(cs[1..], kind);
      assert forall i :: 0 < i < |cs| ==> cs[i] == cs[1..][i - 1];
      if r.Some? then Some(r.value + 1) else None
  }

  predicate IsTrue(cs: seq<Condition>, kind: ConditionType) {
    var r := Find(cs, kind);
    r.Some? && cs[r.value].status == StatusTrue
  }

  function Refreshed(c: Condition, x: Setting): Condition {
    if c.status != x.status || x.check.Fires(c.reason, c.message, x.reason, x.message) then
      Condition(c.kind, x.status, x.reason, x.message,
                if c.status != x.status then x.at else c.lastTransition, x.at)
    else c
  }

  function Set(cs: seq<Condition>, x: Setting): seq<Condition> {
    var r := Find(cs, x.kind);
    if r.None? then
      if x.status == StatusTrue then cs + [Condition(x.kind, x.status, x.reason, x.message, x.at, x.at)] else cs
    else cs[r.value := Refreshed(cs[r.value], x)]
  }

  /** FindCredentialsRequestCondition: a left-to-right search; the returned index stands for the pointer into the
      slice. */
  method FindCredentialsRequestCondition(cs: seq<Condition>, kind: ConditionType) returns (r: Option<nat>)
    ensures r == Find(cs, kind)
  {
    for i := 0 to |cs|
      invariant forall j :: 0 <= j < i ==> cs[j].kind != kind
    {
      if cs[i].kind == kind {
        return Some(i);
      }
    }
    return None;
  }

  /** SetCredentialsRequestCondition: appends a new True condition or changes the found one field by field. */
  method SetCredentialsRequestCondition(conditions: seq<Condition>, x: Setting) returns (cs: seq<Condition>)
    ensures cs == Set(conditions, x)
  {
    cs := conditions;
    var existing := FindCredentialsRequestCondition(cs, x.kind);
    if existing.None? {
      if x.status == StatusTrue {
        cs := cs + [Condition(x.kind, x.status, x.reason, x.message, x.at, x.at)];
      }
    } else {
      var c := cs[existing.value];
      if c.status != x.status || x.check.Fires(c.reason, c.message, x.reason, x.message) {
        if c.status != x.status {
          c := c.(lastTransition := x.at);
        }
        c := c.(status := x.status);
        c := c.(reason := x.reason);
        c := c.(message := x.message);
        c := c.(lastProbe := x.at);
      }
      cs := cs[existing.value := c];
    }
  }

  function Kinds(cs: seq<Condition>): seq<ConditionType> {
    seq(|cs|, i requires 0 <= i < |cs| => cs[i].kind)
  }

  /** A set touches at most the condition of its own type: types stay unique, no entry is dropped or moved. */
  lemma {:induction false} SetFrame(cs: seq<Condition>, x: Setting)
    requires UniqueTypes(cs)
    ensures UniqueTypes(Set(cs, x))
    ensures Kinds(cs) <= Kinds(Set(cs, x))
    ensures forall i :: 0 <= i < |cs| && cs[i].kind != x.kind ==> Set(cs, x)[i] == cs[i]
  {
  }

  /** After a set, its own type is True exactly when requested True; every other type reads as before. */
  lemma {:induction false} SetReads(cs: seq<Condition>, x: Setting, k: ConditionType)
    requires UniqueTypes(cs)
    ensures k != x.kind ==> IsTrue(Set(cs, x), k) == IsTrue(cs, k)
    ensures IsTrue(Set(cs, x), x.kind) <==> x.status == StatusTrue
  {
    var after := Set(cs, x);
    SetFrame(cs, x);
    var at, own := Find(cs, k), Find(cs, x.kind);
    if at.Some? {
      assert after[at.value].kind == k;
      FindUnique(after, k);
    }
    FindUnique(after, x.kind);
    if own.Some? {
      assert after[own.value].kind == x.kind;
    } else if x.status == StatusTrue {
      assert after[|cs|].kind == x.kind;
    }
  }

  lemma {:induction false} FindUnique(cs: seq<Condition>, k: ConditionType)
    requires UniqueTypes(cs)
    ensures forall i :: 0 <= i < |cs| && cs[i].kind == k ==> Find(cs, k) == Some(i)
  {
  }

  // ---- Any sequence of sets under a clock that never goes back ----

  function SetAll(xs: seq<Setting>): seq<Condition> {
    if xs == [] then [] else Set(SetAll(xs[..|xs| - 1]), xs[|xs| - 1])
  }

  ghost predicate MonotoneClock(xs: seq<Setting>) {
    forall i, j :: 0 <= i <= j < |xs| ==> xs[i].at <= xs[j].at
  }

  /** What a condition of one type should say, told from the requests alone: absent until first requested True,
      then the latest requested status, the time of the request that last changed it, and the reason, message and time
      of the last request that was let through. */
  datatype Account = Absent | Held(status: ConditionStatus, since: nat, reason: string, message: string, probed: nat)

  function Retell(told: Account, x: Setting, kind: ConditionType): Account {
    if x.kind != kind then told
    else match told
         case Absent => if x.status == StatusTrue then Held(StatusTrue, x.at, x.reason, x.message, x.at) else Absent
         case Held(status, since, reason, message, _) =>
           if x.status != status then Held(x.status, x.at, x.reason, x.message, x.at)
           else if x.check.Fires(reason, message, x.reason, x.message) then
             Held(status, since, x.reason, x.message, x.at)
           else told
  }

  function Tell(xs: seq<Setting>, kind: ConditionType): Account {
    if xs == [] then Absent else Retell(Tell(xs[..|xs| - 1], kind), xs[|xs| - 1], kind)
  }

  ghost predicate Agrees(cs: seq<Condition>, kind: ConditionType, told: Account) {
    var r := Find(cs, kind);
    match told
    case Absent => r.None?
    case Held(status, since, reason, message, probed) =>
      && r.Some? && cs[r.value].status == status && cs[r.value].lastTransition == since
      && cs[r.value].reason == reason && cs[r.value].message == message && cs[r.value].lastProbe == probed
  }

  ghost predicate TimesOrdered(cs: seq<Condition>, now: nat) {
    forall i :: 0 <= i < |cs| ==> cs[i].lastTransition <= cs[i].lastProbe <= now
  }

  /** Where a type is found after a set. */
  lemma {:induction false} SetFind(cs: seq<Condition>, x: Setting, kind: ConditionType)
    requires UniqueTypes(cs)
    ensures Find(Set(cs, x), kind) == if Find(cs, kind).Some? || kind != x.kind then Find(cs, kind)
                                      else if x.status == StatusTrue then Some(|cs|) else None
  {
    var after, at := Set(cs, x), Find(cs, kind);
    SetFrame(cs, x);
    FindUnique(after, kind);
    if at.Some? {
      SetKeepsKind(cs, x, at.value);
    } else if kind == x.kind && x.status == StatusTrue {
      assert after[|cs|].kind == kind;
    } else {
      assert forall i :: 0 <= i < |after| ==> after[i].kind != kind;
    }
  }

  lemma {:induction false} SetKeepsKind(cs: seq<Condition>, x: Setting, i: nat)
    requires UniqueTypes(cs) && i < |cs|
    ensures i < |Set(cs, x)| && Set(cs, x)[i].kind == cs[i].kind
  {
  }

  /** One set, against one more told request. */
  lemma {:induction false} SetAgrees(cs: seq<Condition>, x: Setting, kind: ConditionType, told: Account)
    requires UniqueTypes(cs) && Agrees(cs, kind, told)
    ensures Agrees(Set(cs, x), kind, Retell(told, x, kind))
  {
    SetFind(cs, x, kind);
    SetFrame(cs, x);
  }

  /** Over any sequence of sets, every condition is exactly as told and its times are ordered. */
  lemma {:induction false} ConditionTimes(xs: seq<Setting>)
    requires MonotoneClock(xs)
    ensures UniqueTypes(SetAll(xs))
    ensures forall kind :: Agrees(SetAll(xs), kind, Tell(xs, kind))
    ensures TimesOrdered(SetAll(xs), if xs == [] then 0 else xs[|xs| - 1].at)
  {
    if xs != [] {
      var prev, x := xs[..|xs| - 1], xs[|xs| - 1];
      ConditionTimes(prev);
      SetFrame(SetAll(prev), x);
      if |prev| > 0 {
        assert prev[|prev| - 1] == xs[|xs| - 2];
      }
      forall kind ensures Agrees(SetAll(xs), kind, Tell(xs, kind)) {
        SetAgrees(SetAll(prev), x, kind, Tell(prev, kind));
      }
    }
  }

  /** i is the request that created the condition or last changed its status. */
  ghost predicate IsLatestFlip(xs: seq<Setting>, kind: ConditionType, i: nat)
    requires i < |xs|
  {
    && xs[i].kind == kind
    && (var before := Find(SetAll(xs[..i]), kind); before.None? || SetAll(xs[..i])[before.value].status != xs[i].status)
    && (forall j :: i < j < |xs| && xs[j].kind == kind ==> xs[j].status == xs[i].status)
  }

  /** A condition of the setting's type is there and says what the setting says. */
  ghost predicate Shows(cs: seq<Condition>, x: Setting) {
    var at := Find(cs, x.kind);
    && at.Some? && cs[at.value].status == x.status && cs[at.value].reason == x.reason
    && cs[at.value].message == x.message
  }

  /** What the update checks mean. After a set that is to be made on any change of reason or message, a condition that
      is there says what the setting says, and it was probed then if it said anything else before; a set that is
      always made also probes it; and a set that is never made without a change of status leaves the same status
      untouched. */
  lemma {:induction false} SetByCheck(cs: seq<Condition>, x: Setting)
    requires UniqueTypes(cs) && Find(Set(cs, x), x.kind).Some?
    ensures x.check != UpdateNever ==> Shows(Set(cs, x), x)
    ensures !Shows(cs, x) && x.check != UpdateNever ==> Set(cs, x)[Find(Set(cs, x), x.kind).value].lastProbe == x.at
    ensures x.check == UpdateAlways ==> Set(cs, x)[Find(Set(cs, x), x.kind).value].lastProbe == x.at
    ensures x.check != UpdateAlways && Shows(cs, x) ==> Set(cs, x) == cs
    ensures x.check == UpdateNever && Find(cs, x.kind).Some? && cs[Find(cs, x.kind).value].status == x.status ==>
      Set(cs, x) == cs
  {
    SetFind(cs, x, x.kind);
  }

  /** Over any sequence of sets: a condition that is there says what the latest set for its type said, if that was to be
      made on any change of reason or message. */
  lemma {:induction false} LatestSetShows(xs: seq<Setting>, i: nat)
    requires i < |xs| && xs[i].check != UpdateNever && Find(SetAll(xs), xs[i].kind).Some?
    requires forall j :: i < j < |xs| ==> xs[j].kind != xs[i].kind
    ensures Shows(SetAll(xs), xs[i])
  {
    var last := |xs| - 1;
    var prev := xs[..last];
    SetAllUnique(prev);
    if i == last {
      SetByCheck(SetAll(prev), xs[last]);
    } else {
      assert prev[i] == xs[i];
      SetFind(SetAll(prev), xs[last], xs[i].kind);
      SetFrame(SetAll(prev), xs[last]);
      LatestSetShows(prev, i);
    }
  }

  lemma {:induction false} SetAllUnique(xs: seq<Setting>)
    ensures UniqueTypes(SetAll(xs))
  {
    if xs != [] {
      SetAllUnique(xs[..|xs| - 1]);
      SetFrame(SetAll(xs[..|xs| - 1]), xs[|xs| - 1]);
    }
  }

  /** The transition time of a condition is the time of the request that created it or last changed its status, and the
      condition has the status of that request: before it the condition was absent or had another status, and no later
      request for its type asked for another one. */
  lemma {:induction false} TransitionIsLatestFlip(xs: seq<Setting>, kind: ConditionType)
    requires Find(SetAll(xs), kind).Some?
    ensures var c := SetAll(xs)[Find(SetAll(xs), kind).value];
      exists i :: 0 <= i < |xs| && IsLatestFlip(xs, kind, i) && xs[i].at == c.lastTransition && xs[i].status == c.status
  {
    var last := |xs| - 1;
    var prev, x := xs[..last], xs[last];
    var cs := SetAll(prev);
    SetAllUnique(prev);
    SetTransition(cs, x, kind);
    if Flips(cs, x, kind) {
      assert IsLatestFlip(xs, kind, last);
    } else {
      TransitionIsLatestFlip(prev, kind);
      var c := cs[Find(cs, kind).value];
      var i :| && 0 <= i < |prev| && IsLatestFlip(prev, kind, i)
               && prev[i].at == c.lastTransition && prev[i].status == c.status;
      FlipStaysLatest(xs, kind, i);
    }
  }

  /** The request creates the condition or changes its status. */
  ghost predicate Flips(cs: seq<Condition>, x: Setting, kind: ConditionType) {
    x.kind == kind && (Find(cs, kind).None? || cs[Find(cs, kind).value].status != x.status)
  }

  lemma {:induction false} SetTransition(cs: seq<Condition>, x: Setting, kind: ConditionType)
    requires UniqueTypes(cs) && Find(Set(cs, x), kind).Some?
    ensures var c := Set(cs, x)[Find(Set(cs, x), kind).value];
      if Flips(cs, x, kind) then c.lastTransition == x.at && c.status == x.status
      else && Find(cs, kind).Some? && (x.kind == kind ==> x.status == c.status)
           && c.lastTransition == cs[Find(cs, kind).value].lastTransition && c.status == cs[Find(cs, kind).value].status
  {
    SetFind(cs, x, kind);
    SetFrame(cs, x);
  }

  lemma {:induction false} FlipStaysLatest(xs: seq<Setting>, kind: ConditionType, i: nat)
    requires i < |xs| - 1 && IsLatestFlip(xs[..|xs| - 1], kind, i)
    requires xs[|xs| - 1].kind == kind ==> xs[|xs| - 1].status == xs[i].status
    ensures IsLatestFlip(xs, kind, i)
  {
    var prev := xs[..|xs| - 1];
    assert prev[..i] == xs[..i];
    assert forall j :: 0 <= j < |prev| ==> prev[j] == xs[j];
  }

  /** Entries are never dropped or reordered: those of every earlier moment keep their places. */
  lemma {:induction false} EntriesKeepPlaces(xs: seq<Setting>, m: nat)
    requires m <= |xs|
    ensures Kinds(SetAll(xs[..m])) <= Kinds(SetAll(xs))
  {
    if m == |xs| {
      assert xs[..m] == xs;
    } else {
      var prev := xs[..|xs| - 1];
      SetAllUnique(prev);
      EntriesKeepPlaces(prev, m);
      assert prev[..m] == xs[..m];
      SetFrame(SetAll(prev), xs[|xs| - 1]);
    }
  }

  /** A condition that is not True is only there because its type was once requested True. */
  lemma {:induction false} NonTrueWasTrue(xs: seq<Setting>, kind: ConditionType)
    requires Find(SetAll(xs), kind).Some?
    ensures exists i :: 0 <= i < |xs| && xs[i].kind == kind && xs[i].status == StatusTrue
  {
    var prev, x := xs[..|xs| - 1], xs[|xs| - 1];
    if !(x.kind == kind && x.status == StatusTrue) {
      SetAllUnique(prev);
      SetFind(SetAll(prev), x, kind);
      NonTrueWasTrue(prev, kind);
      var i :| 0 <= i < |prev| && prev[i].kind == kind && prev[i].status == StatusTrue;
      assert xs[i] == prev[i];
    }
  }
}
