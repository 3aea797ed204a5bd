/** What the operator is to bring about for a request, told from the state of the two stores. */
module Goals {
  import opened Wrappers
  import opened Naming
  import opened Policies
  import opened Store

  // ---- In sync ----

  function TagKey(infra: string): string {
    if infra != "" then "kubernetes.io/cluster/" + infra else "openshiftClusterID"
  }

  function TagValue(infra: string, uuid: string): string {
    if infra != "" then "owned" else uuid
  }

  /** userHasExpectedTags. */
  predicate HasExpectedTag(user: User, infra: string, uuid: string) {
    TagKey(infra) in user.tags && user.tags[TagKey(infra)] == TagValue(infra, uuid)
  }

  /** What the tag says: with an infrastructure name the user is owned by that cluster, without one it carries the
      id. */
  lemma ExpectedTag(user: User, infra: string, uuid: string)
    ensures infra != "" ==>
      (HasExpectedTag(user, infra, uuid) <==>
         "kubernetes.io/cluster/" + infra in user.tags && user.tags["kubernetes.io/cluster/" + infra] == "owned")
    ensures infra == "" ==>
      (HasExpectedTag(user, infra, uuid) <==>
         "openshiftClusterID" in user.tags && user.tags["openshiftClusterID"] == uuid)
  {
  }

  /** A user that is tagged for one cluster alone does not have the tag expected by another. */
  lemma TagsTellClustersApart(user: User, a: string, b: string, uuidA: string, uuidB: string)
    requires a != b && user.tags == map[TagKey(a) := TagValue(a, uuidA)]
    ensures !HasExpectedTag(user, b, uuidB)
  {
    if a != "" && b != "" {
      assert TagKey(a)[|"kubernetes.io/cluster/"|..] == a && TagKey(b)[|"kubernetes.io/cluster/"|..] == b;
    } else {
      assert "kubernetes.io/cluster/"[0] == 'k' && "openshiftClusterID"[0] == 'o';
      assert TagKey(a)[0] != TagKey(b)[0];
    }
  }

  predicate HasPolicy(user: User, policy: string, entries: seq<Statement>) {
    policy in user.policies && user.policies[policy] == DesiredPolicy(entries, user.arn)
  }

  function KeyId(data: Option<Data>): string {
    if data.Some? && data.value.id.Some? then data.value.id.value else ""
  }

  function KeySecret(data: Option<Data>): string {
    if data.Some? && data.value.secret.Some? then data.value.secret.value else ""
  }

  /** The user exists, is tagged for this cluster and carries exactly the requested policy. */
  predicate CloudInSync(s: Cluster, infra: string, uuid: string, r: Request) {
    && r.status.user != "" && r.status.user in s.users && r.spec.provider.Some?
    && HasExpectedTag(s.users[r.status.user], infra, uuid)
    && HasPolicy(s.users[r.status.user], r.status.policy, r.spec.provider.value)
  }

  /** The target secret holds the id of a live key of the user. */
  predicate SecretInSync(s: Cluster, r: Request) {
    && r.spec.secretRef in s.secrets && r.status.user in s.users
    && var id := KeyId(s.secrets[r.spec.secretRef].data); id != "" && id in s.users[r.status.user].keys
  }

  predicate InSync(s: Cluster, infra: string, uuid: string, r: Request) {
    CloudInSync(s, infra, uuid, r) && SecretInSync(s, r)
  }

  /** The user is in sync and, unless the request changed or the secret was lost since, so is the target secret. */
  ghost predicate Settled(s: Cluster, infra: string, uuid: string, n: Name, rv: nat, r: Request) {
    && CloudInSync(s, infra, uuid, r) && |s.users[r.status.user].keys| == 1
    && (IsCurrent(s, n, rv) && r.spec.secretRef in s.secrets ==> SecretInSync(s, r))
  }

  // ---- Passed through ----

  /** The target secret carries the root key pair, annotated with its owner and an empty policy. */
  ghost predicate PassedThrough(s: Cluster, n: Name, r: Request, root: Secret) {
    && r.spec.secretRef in s.secrets
    && var x := s.secrets[r.spec.secretRef];
      && x.annotations.owner == Some(OwnerAnnotation(n)) && x.annotations.lastPolicy == Some(NoPolicy)
      && x.data.Some? && x.data.value.id == Some(KeyId(root.data)) && x.data.value.secret == Some(KeySecret(root.data))
  }

  predicate HasKeyPair(root: Secret) {
    KeyId(root.data) != "" && KeySecret(root.data) != ""
  }

  // ---- What a successful sync means ----

  /** What a successful sync did, judged by the root secret it read, if it had to read it. */
  ghost predicate Outcome(s: Cluster, infra: string, uuid: string, n: Name, rv: nat, r: Request, saw: Option<Secret>) {
    if saw.None? then Settled(s, infra, uuid, n, rv, r)
    else match saw.value.annotations.mode
         case None => false
         case Some(Mint) => Settled(s, infra, uuid, n, rv, r)
         case Some(Passthrough) =>
           HasKeyPair(saw.value) && IsCurrent(s, n, rv) && r.spec.secretRef in s.secrets ==>
             PassedThrough(s, n, r, saw.value)
         case Some(Insufficient) => false
         case Some(OtherMode(_)) => true
  }
}
