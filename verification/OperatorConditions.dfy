/** The conditions of a ClusterOperator: setting one and comparing two lists. */
module OperatorConditions {
  import opened Conditions

  datatype OperatorConditionType = Failing | Progressing | Available | OtherType(name: string)

  datatype OperatorCondition = OperatorCondition(
    kind: OperatorConditionType,
    status: ConditionStatus,
    reason: string,
    message: string,
    lastTransition: nat)

  /** Equal in everything but the transition time. */
  predicate Same(a: OperatorCondition, b: OperatorCondition) {
    a.kind == b.kind && a.status == b.status && a.reason == b.reason && a.message == b.message
  }

  ghost predicate UniqueKinds(cs: seq<OperatorCondition>) {
    forall i, j :: 0 <= i < j < |cs| ==> cs[i].kind != cs[j].kind
  }

  ghost predicate HasKind(cs: seq<OperatorCondition>, k: OperatorConditionType) {
    exists i :: 0 <= i < |cs| && cs[i].kind == k
  }

  ghost predicate HasSame(cs: seq<OperatorCondition>, c: OperatorCondition) {
    exists i :: 0 <= i < |cs| && Same(cs[i], c)
  }

  function Replace(cs: seq<OperatorCondition>, c: OperatorCondition): (r: seq<OperatorCondition>)
    ensures |r| == |cs|
    ensures forall i :: 0 <= i < |cs| ==> r[i] == if cs[i].kind == c.kind then c else cs[i]
  {
    if cs == [] then [] else [if cs[0].kind == c.kind then c else cs[0]] + Replace(cs[1..], c)
  }

  /** Setting c, which carries the present time: nothing changes if it is there with the same content. */
  ghost function Put(cs: seq<OperatorCondition>, c: OperatorCondition): seq<OperatorCondition> {
    if HasSame(cs, c) then cs
    else if HasKind(cs, c.kind) then Replace(cs, c)
    else cs + [c]
  }

  /** SetStatusCondition, with the clock value it stamps. */
  method SetStatusCondition(oldConditions: seq<OperatorCondition>, condition: OperatorCondition, now: nat)
    returns (cs: seq<OperatorCondition>)
    ensures cs == Put(oldConditions, condition.(lastTransition := now))
  {
    var c := condition.(lastTransition := now);
    cs := [];
    var found := false;
    for i := 0 to |oldConditions|
      invariant |cs| == i
      invariant forall j :: 0 <= j < i ==> cs[j] == if oldConditions[j].kind == c.kind then c else oldConditions[j]
      invariant found <==> exists j :: 0 <= j < i && oldConditions[j].kind == c.kind
      invariant forall j :: 0 <= j < i ==> !Same(oldConditions[j], c)
    {
      if c.kind == oldConditions[i].kind {
        var o := oldConditions[i];
        if c.status == o.status && c.reason == o.reason && c.message == o.message {
          return oldConditions;
        }
        found := true;
        cs := cs + [c];
      } else {
        cs := cs + [oldConditions[i]];
      }
    }
    if !found {
      assert cs == oldConditions;
      cs := cs + [c];
    } else {
      assert cs == Replace(oldConditions, c);
    }
  }

  function KindsOf(cs: seq<OperatorCondition>): seq<OperatorConditionType> {
    seq(|cs|, i requires 0 <= i < |cs| => cs[i].kind)
  }

  lemma PutKinds(cs: seq<OperatorCondition>, c: OperatorCondition)
    requires UniqueKinds(cs)
    ensures UniqueKinds(Put(cs, c)) && KindsOf(cs) <= KindsOf(Put(cs, c))
  {
  }

  lemma PutHasSame(cs: seq<OperatorCondition>, c: OperatorCondition)
    ensures HasSame(Put(cs, c), c)
  {
    var r := Put(cs, c);
    if !HasSame(cs, c) {
      if i :| 0 <= i < |cs| && cs[i].kind == c.kind {
        assert Same(r[i], c);
      } else {
        assert Same(r[|cs|], c);
      }
    }
  }

  lemma PutEntries(cs: seq<OperatorCondition>, c: OperatorCondition)
    requires UniqueKinds(cs)
    ensures |cs| <= |Put(cs, c)| && forall i :: 0 <= i < |cs| && cs[i].kind != c.kind ==> Put(cs, c)[i] == cs[i]
    ensures forall i :: 0 <= i < |Put(cs, c)| && Put(cs, c)[i].kind == c.kind ==>
      && Same(Put(cs, c)[i], c)
      && Put(cs, c)[i].lastTransition == (if i < |cs| && Same(cs[i], c) then cs[i].lastTransition else c.lastTransition)
  {
  }

  /** Types stay unique, no entry is dropped or moved, other types keep their entries, and an entry that already says
      the same keeps its time. */
  lemma PutFrame(cs: seq<OperatorCondition>, c: OperatorCondition)
    requires UniqueKinds(cs)
    ensures UniqueKinds(Put(cs, c)) && KindsOf(cs) <= KindsOf(Put(cs, c)) && HasSame(Put(cs, c), c)
    ensures |cs| <= |Put(cs, c)| && forall i :: 0 <= i < |cs| && cs[i].kind != c.kind ==> Put(cs, c)[i] == cs[i]
    ensures forall i :: 0 <= i < |Put(cs, c)| && Put(cs, c)[i].kind == c.kind ==>
      && Same(Put(cs, c)[i], c)
      && Put(cs, c)[i].lastTransition == (if i < |cs| && Same(cs[i], c) then cs[i].lastTransition else c.lastTransition)
  {
    PutKinds(cs, c);
    PutHasSame(cs, c);
    PutEntries(cs, c);
  }

  /** Setting the same content later changes nothing. */
  lemma PutAgain(cs: seq<OperatorCondition>, c: OperatorCondition, d: OperatorCondition)
    requires HasSame(cs, c) && Same(c, d)
    ensures Put(cs, d) == cs
  {
    var i :| 0 <= i < |cs| && Same(cs[i], c);
    assert Same(cs[i], d);
  }

  /** Setting another type keeps what was there with the same content. */
  lemma PutKeepsSame(cs: seq<OperatorCondition>, c: OperatorCondition, d: OperatorCondition)
    requires HasSame(cs, c) && d.kind != c.kind
    ensures HasSame(Put(cs, d), c)
  {
    var i :| 0 <= i < |cs| && Same(cs[i], c);
    assert Same(Put(cs, d)[i], c);
  }

  // ---- Comparing ----

  ghost predicate Covers(a: seq<OperatorCondition>, b: seq<OperatorCondition>) {
    |a| == |b| && forall i :: 0 <= i < |a| ==> HasSame(b, a[i])
  }

  /** ConditionsEqual. */
  method ConditionsEqual(oldConditions: seq<OperatorCondition>, newConditions: seq<OperatorCondition>)
    returns (equal: bool)
    ensures equal <==> Covers(oldConditions, newConditions)
  {
    if |newConditions| != |oldConditions| {
      return false;
    }
    for i := 0 to |oldConditions|
      invariant forall k :: 0 <= k < i ==> HasSame(newConditions, oldConditions[k])
    {
      var a, found := oldConditions[i], false;
      for j := 0 to |newConditions|
        invariant !found && forall k :: 0 <= k < j ==> !Same(newConditions[k], a)
      {
        var b := newConditions[j];
        if a.kind == b.kind && a.status == b.status && a.reason == b.reason && a.message == b.message {
          found := true;
          assert Same(newConditions[j], a);
          break;
        }
      }
      if !found {
        return false;
      }
    }
    return true;
  }

  /** The list without its transition times. */
  function Contents(cs: seq<OperatorCondition>): (r: seq<OperatorCondition>)
    ensures |r| == |cs| && forall i :: 0 <= i < |cs| ==> r[i] == cs[i].(lastTransition := 0)
  {
    seq(|cs|, i requires 0 <= i < |cs| => cs[i].(lastTransition := 0))
  }

  /** One list is a rearrangement of the other, ignoring times. */
  ghost predicate Permuted(a: seq<OperatorCondition>, b: seq<OperatorCondition>) {
    multiset(Contents(a)) == multiset(Contents(b))
  }

  /** No two entries say the same. */
  ghost predicate NoDuplicates(cs: seq<OperatorCondition>) {
    forall i, j :: 0 <= i < j < |cs| ==> !Same(cs[i], cs[j])
  }

  ghost predicate Distinct(xs: seq<OperatorCondition>) {
    forall i, j :: 0 <= i < j < |xs| ==> xs[i] != xs[j]
  }

  lemma {:induction false} DistinctOnce(xs: seq<OperatorCondition>, x: OperatorCondition)
    requires Distinct(xs)
    ensures multiset(xs)[x] <= 1
  {
    if xs != [] {
      var rest := xs[1..];
      DistinctOnce(rest, x);
      assert xs == [xs[0]] + rest;
      assert forall j :: 0 <= j < |rest| ==> rest[j] == xs[j + 1] != xs[0];
      assert xs[0] !in rest;
    }
  }

  /** Pigeonhole: distinct entries that all occur in a list of the same length fill it. */
  lemma Fills(xs: seq<OperatorCondition>, ys: seq<OperatorCondition>)
    requires Distinct(xs) && |xs| == |ys| && forall i :: 0 <= i < |xs| ==> xs[i] in ys
    ensures multiset(xs) == multiset(ys)
  {
    var a, b := multiset(xs), multiset(ys);
    forall x ensures a[x] <= b[x] {
      DistinctOnce(xs, x);
      if a[x] > 0 {
        assert x in xs;
        assert x in ys;
        assert b[x] > 0;
      }
    }
    assert b == a + (b - a);
    assert |b| == |a| + |b - a|;
    assert |b - a| == 0;
  }

  /** A rearrangement always compares as equal. */
  lemma PermutedCovers(a: seq<OperatorCondition>, b: seq<OperatorCondition>)
    requires Permuted(a, b)
    ensures Covers(a, b)
  {
    var x, y := Contents(a), Contents(b);
    assert |multiset(x)| == |multiset(y)|;
    forall i | 0 <= i < |a| ensures HasSame(b, a[i]) {
      assert x[i] in multiset(x);
      assert x[i] in y;
      var j :| 0 <= j < |y| && y[j] == x[i];
      assert Same(b[j], a[i]);
    }
  }

  /** On a first list without duplicates, comparing as equal means being a rearrangement. */
  lemma CoversPermuted(a: seq<OperatorCondition>, b: seq<OperatorCondition>)
    requires NoDuplicates(a)
    ensures Covers(a, b) <==> Permuted(a, b)
  {
    var x, y := Contents(a), Contents(b);
    if Covers(a, b) {
      forall i, j | 0 <= i < j < |x| ensures x[i] != x[j] {
        assert !Same(a[i], a[j]);
      }
      forall i | 0 <= i < |x| ensures x[i] in y {
        assert HasSame(b, a[i]);
        var j :| 0 <= j < |b| && Same(b[j], a[i]);
        assert y[j] == x[i];
      }
      Fills(x, y);
    }
    if Permuted(a, b) {
      PermutedCovers(a, b);
    }
  }

  /** A message longer than all messages of the list. */
  function LongMessage(cs: seq<OperatorCondition>): (m: string)
    ensures forall i :: 0 <= i < |cs| ==> |cs[i].message| < |m|
  {
    if cs == [] then "x"
    else
      var m := LongMessage(cs[1..]);
      assert forall i :: 1 <= i < |cs| ==> cs[i] == cs[1..][i - 1];
      m + cs[0].message
  }

  /** A list in which the j-th entry repeats the i-th compares as equal to one it is no rearrangement of. */
  lemma DuplicateMisleads(a: seq<OperatorCondition>, i: nat, j: nat)
    requires i < j < |a| && Same(a[i], a[j])
    ensures exists b :: Covers(a, b) && !Permuted(a, b)
  {
    var odd := a[j].(message := LongMessage(a));
    var b := a[j := odd];
    forall k | 0 <= k < |a| ensures HasSame(b, a[k]) {
      if k == j {
        assert Same(b[i], a[k]);
      } else {
        assert Same(b[k], a[k]);
      }
    }
    assert Covers(a, b);
    OddOneOut(a, b, j);
  }

  /** A list with an entry whose message does not occur in another is no rearrangement of it. */
  lemma OddOneOut(a: seq<OperatorCondition>, b: seq<OperatorCondition>, j: nat)
    requires j < |b| && forall k :: 0 <= k < |a| ==> a[k].message != b[j].message
    ensures !Permuted(a, b)
  {
    var x, y := Contents(a), Contents(b);
    forall k | 0 <= k < |x| ensures x[k] != y[j] {
      assert x[k].message == a[k].message;
    }
    assert y[j] in multiset(y) && y[j] !in multiset(x);
  }

  /** Exactly on the lists without duplicates does the comparison mean what it says. */
  lemma ComparisonIsExact(a: seq<OperatorCondition>)
    ensures (forall b :: Covers(a, b) <==> Permuted(a, b)) <==> NoDuplicates(a)
  {
    if NoDuplicates(a) {
      forall b ensures Covers(a, b) <==> Permuted(a, b) {
        CoversPermuted(a, b);
      }
    } else {
      var i, j :| 0 <= i < j < |a| && Same(a[i], a[j]);
      DuplicateMisleads(a, i, j);
    }
  }

  /** On type-unique lists the comparison is an equivalence. */
  lemma ComparisonIsEquivalence(a: seq<OperatorCondition>, b: seq<OperatorCondition>, c: seq<OperatorCondition>)
    requires UniqueKinds(a) && UniqueKinds(b) && UniqueKinds(c)
    ensures Covers(a, a)
    ensures Covers(a, b) <==> Covers(b, a)
    ensures Covers(a, b) && Covers(b, c) ==> Covers(a, c)
  {
    CoversPermuted(a, a);
    CoversPermuted(a, b);
    CoversPermuted(b, a);
    CoversPermuted(b, c);
    CoversPermuted(a, c);
  }

  /** Without uniqueness it is not even symmetric. */
  lemma ComparisonIsNotSymmetric()
    ensures exists a, b :: Covers(a, b) && !Covers(b, a)
  {
    var x := OperatorCondition(Failing, StatusTrue, "", "", 0);
    var y := OperatorCondition(Available, StatusTrue, "", "", 0);
    var a, b := [x, x], [x, y];
    assert HasSame(b, a[0]) by { assert Same(b[0], a[0]); }
    assert HasSame(b, a[1]) by { assert Same(b[0], a[1]); }
    assert Covers(a, b);
    assert !HasSame(a, b[1]);
  }
}
