/** Names sent to AWS and the annotation that ties a secret to its CredentialsRequest. */
module Naming {
  import opened Wrappers

  /** A namespaced Kubernetes name. */
  datatype Name = Name(ns: string, name: string)

  function Truncate(s: string, limit: nat): (r: string)
    ensures r <= s && |r| <= limit
  {
    if |s| > limit then s[..limit] else s
  }

  /** generateUserName, with its random suffix as a parameter; None is its "empty credential name" error. */
  function GenerateUserName(infra: string, credential: string, suffix: string): (r: Option<string>)
    ensures r.None? <==> credential == ""
    ensures r.Some? && |suffix| == 5 ==> 0 < |r.value| <= 64
  {
    if credential == "" then None
    else
      var prefix := if infra != "" then Truncate(infra, 20) + "-" else "";
      Some(prefix + Truncate(credential, 37) + "-" + suffix)
  }

  /** Different random suffixes give different names, and the name starts with the cluster's name, as far as it is
      used. */
  lemma UserNameParts(infra: string, credential: string, a: string, b: string)
    requires credential != "" && |a| == |b|
    ensures GenerateUserName(infra, credential, a) == GenerateUserName(infra, credential, b) <==> a == b
    ensures infra != "" ==>
      (if |infra| > 20 then infra[..20] else infra) + "-" <= GenerateUserName(infra, credential, a).value
    ensures a <= GenerateUserName(infra, credential, a).value[|GenerateUserName(infra, credential, a).value| - |a|..]
  {
    var x, y := GenerateUserName(infra, credential, a).value, GenerateUserName(infra, credential, b).value;
    assert x[|x| - |a|..] == a;
    assert y[|y| - |b|..] == b;
  }

  /** Names that fit are used whole. */
  lemma UserNameWhole(infra: string, credential: string, suffix: string)
    requires 0 < |infra| <= 20 && 0 < |credential| <= 37
    ensures GenerateUserName(infra, credential, suffix) == Some(infra + "-" + credential + "-" + suffix)
    ensures GenerateUserName("", credential, suffix) == Some(credential + "-" + suffix)
  {
    assert "" + credential == credential;
  }

  /** getPolicyName. */
  function PolicyName(user: string): (r: string)
    ensures |r| == |user| + 7 && r[..|user|] == user && r[|user|..] == "-policy"
  {
    user + "-policy"
  }

  lemma {:induction false} PolicyNameInjective(a: string, b: string)
    requires PolicyName(a) == PolicyName(b)
    ensures a == b
  {
    assert PolicyName(a)[..|a|] == a;
    assert PolicyName(b)[..|b|] == b;
  }

  /** The value of the credentials-request annotation. */
  function OwnerAnnotation(n: Name): string {
    n.ns + "/" + n.name
  }

  /** strings.Split(s, "/"). */
  function SplitSlash(s: string): (parts: seq<string>)
    ensures |parts| >= 1
  {
    if s == "" then [""]
    else
      var rest := SplitSlash(s[1..]);
      if s[0] == '/' then [""] + rest
      else [[s[0]] + rest[0]] + rest[1..]
  }

  /** cache.SplitMetaNamespaceKey: a bare name has no namespace, two parts are namespace and name, more is an error. */
  function SplitKey(key: string): Option<Name> {
    var parts := SplitSlash(key);
    if |parts| == 1 then Some(Name("", parts[0]))
    else if |parts| == 2 then Some(Name(parts[0], parts[1]))
    else None
  }

  lemma {:induction false} SplitNoSlash(s: string)
    requires '/' !in s
    ensures SplitSlash(s) == [s]
  {
    if s != "" {
      SplitNoSlash(s[1..]);
      assert [s[0]] + s[1..] == s;
    }
  }

  function Slashes(s: string): nat {
    if s == "" then 0 else (if s[0] == '/' then 1 else 0) + Slashes(s[1..])
  }

  lemma {:induction false} SplitCount(s: string)
    ensures |SplitSlash(s)| == Slashes(s) + 1
  {
    if s != "" {
      SplitCount(s[1..]);
    }
  }

  lemma {:induction false} SlashesAdd(a: string, b: string)
    ensures Slashes(a + b) == Slashes(a) + Slashes(b)
  {
    if a == "" {
      assert a + b == b;
    } else {
      SlashesAdd(a[1..], b);
      assert (a + b)[1..] == a[1..] + b;
    }
  }

  lemma {:induction false} SlashesZero(s: string)
    ensures Slashes(s) == 0 <==> '/' !in s
  {
    if s != "" {
      SlashesZero(s[1..]);
      assert s == [s[0]] + s[1..];
    }
  }

  lemma {:induction false} SplitAtSlash(a: string, b: string)
    requires '/' !in a
    ensures SplitSlash(a + "/" + b) == [a] + SplitSlash(b)
  {
    var whole := a + "/" + b;
    if a == "" {
      assert whole[1..] == b;
    } else {
      SplitAtSlash(a[1..], b);
      assert whole[1..] == a[1..] + "/" + b;
      assert [a[0]] + a[1..] == a;
    }
  }

  /** The annotation written on a secret maps back to exactly the owning request, precisely for slash-free names. */
  lemma OwnerRoundTrip(n: Name)
    ensures SplitKey(OwnerAnnotation(n)) == Some(n) <==> '/' !in n.ns && '/' !in n.name
  {
    var key := OwnerAnnotation(n);
    SlashesZero(n.ns);
    SlashesZero(n.name);
    SlashesAdd(n.ns + "/", n.name);
    SlashesAdd(n.ns, "/");
    assert Slashes("/") == 1;
    SplitCount(key);
    if '/' !in n.ns && '/' !in n.name {
      SplitAtSlash(n.ns, n.name);
      SplitNoSlash(n.name);
    }
  }
}
