/** What a set of AWS credentials may do, and the check of it by policy simulation. */
module Permissions {
  import opened Policies
  import opened Store

  const MINTING_ACTIONS := [
    "iam:CreateAccessKey", "iam:CreateUser", "iam:DeleteAccessKey", "iam:DeleteUser", "iam:DeleteUserPolicy",
    "iam:GetUser", "iam:GetUserPolicy", "iam:ListAccessKeys", "iam:PutUserPolicy", "iam:TagUser",
    "iam:SimulatePrincipalPolicy"]

  // The passed-through credentials serve the check itself, the ingress, image registry and cluster API operators, and
  // the operator's own read-only user; the list for the cluster API names all but its first action twice.
  const QUERY_ACTIONS := ["iam:GetUser", "iam:SimulatePrincipalPolicy"]

  const INGRESS_ACTIONS := [
    "elasticloadbalancing:DescribeLoadBalancers", "route53:ListHostedZones", "route53:ChangeResourceRecordSets",
    "tag:GetResources"]

  const REGISTRY_ACTIONS := [
    "s3:CreateBucket", "s3:DeleteBucket", "s3:PutBucketTagging", "s3:GetBucketTagging", "s3:PutEncryptionConfiguration",
    "s3:GetEncryptionConfiguration", "s3:PutLifecycleConfiguration", "s3:GetLifecycleConfiguration",
    "s3:GetBucketLocation", "s3:ListBucket", "s3:HeadBucket", "s3:GetObject", "s3:PutObject", "s3:DeleteObject",
    "s3:ListBucketMultipartUploads", "s3:AbortMultipartUpload"]

  const MACHINE_ACTIONS := [
    "ec2:DescribeVpcs", "ec2:DescribeSubnets", "ec2:DescribeAvailabilityZones", "ec2:DescribeSecurityGroups",
    "ec2:RunInstances", "ec2:DescribeInstances", "ec2:TerminateInstances",
    "elasticloadbalancing:RegisterInstancesWithLoadBalancer", "elasticloadbalancing:DescribeLoadBalancers",
    "elasticloadbalancing:DescribeTargetGroups", "elasticloadbalancing:RegisterTargets"]

  const READ_ACTIONS := ["iam:GetUser", "iam:GetUserPolicy", "iam:ListAccessKeys"]

  const PASSTHROUGH_ACTIONS :=
    QUERY_ACTIONS + INGRESS_ACTIONS + REGISTRY_ACTIONS
    + ["ec2:DescribeImages"] + MACHINE_ACTIONS + MACHINE_ACTIONS + READ_ACTIONS

  /** The IAM action that a change to a user needs. */
  function ActionOf(call: UserOp): string {
    match call
    case CreateUser => "iam:CreateUser"
    case TagUser(_, _) => "iam:TagUser"
    case PutPolicy(_, _) => "iam:PutUserPolicy"
    case DeletePolicy(_) => "iam:DeleteUserPolicy"
    case CreateKey(_, _) => "iam:CreateAccessKey"
    case DeleteKey(_) => "iam:DeleteAccessKey"
    case DeleteUser => "iam:DeleteUser"
  }

  /** Credentials that qualify for mint mode may make every change and every read that the actuator makes. */
  lemma MintCoversTheActuator(p: Principal, call: UserOp)
    requires MayAll(p, MINTING_ACTIONS)
    ensures p.May(ActionOf(call)) && p.May("iam:GetUser") && p.May("iam:GetUserPolicy") && p.May("iam:ListAccessKeys")
  {
    var m := MINTING_ACTIONS;
    assert m[0] == "iam:CreateAccessKey" && m[1] == "iam:CreateUser" && m[2] == "iam:DeleteAccessKey";
    assert m[3] == "iam:DeleteUser" && m[4] == "iam:DeleteUserPolicy" && m[5] == "iam:GetUser";
    assert m[6] == "iam:GetUserPolicy" && m[7] == "iam:ListAccessKeys" && m[8] == "iam:PutUserPolicy";
    assert m[9] == "iam:TagUser";
    assert forall i :: 0 <= i < |m| ==> m[i] in m;
  }

  /** Whom credentials belong to: the account's root user may do everything, others what they are granted. */
  datatype Principal = Principal(isRoot: bool, grants: set<string>) {
    predicate May(action: string) {
      isRoot || action in grants
    }
  }

  datatype Evaluation = Evaluation(action: string, decision: string)

  datatype Check = Sufficient | Short | CheckError

  /** IAM's simulation: one result per action asked about. */
  function Simulate(target: Principal, actions: seq<string>): (results: seq<Evaluation>)
    ensures |results| == |actions|
    ensures forall i :: 0 <= i < |actions| ==>
      results[i].action == actions[i] && (results[i].decision == "allowed" <==> target.May(actions[i]))
  {
    assert "allowed"[0] != "implicitDeny"[0];
    seq(|actions|, i requires 0 <= i < |actions| =>
      Evaluation(actions[i], if target.May(actions[i]) then "allowed" else "implicitDeny"))
  }

  /** The action occurs in one of the statements, whatever the effect of that statement. */
  ghost predicate Mentions(entries: seq<Statement>, action: string) {
    exists i :: 0 <= i < |entries| && action in entries[i].actions
  }

  /** The credentials can be described and their policy simulated, with query doing the asking. */
  predicate CanCheck(query: Principal, target: Principal) {
    target.May("iam:GetUser") && query.May("iam:SimulatePrincipalPolicy")
  }

  /** The loops that flatten the statements. */
  method FlattenActions(entries: seq<Statement>) returns (allowList: seq<string>)
    ensures forall a :: a in allowList <==> Mentions(entries, a)
  {
    allowList := [];
    for i := 0 to |entries|
      invariant forall a :: a in allowList <==> Mentions(entries[..i], a)
    {
      ghost var before := allowList;
      for j := 0 to |entries[i].actions|
        invariant forall a :: a in allowList <==> a in before || a in entries[i].actions[..j]
      {
        allowList := allowList + [entries[i].actions[j]];
      }
      assert entries[i].actions[..|entries[i].actions|] == entries[i].actions;
      assert entries[..i + 1] == entries[..i] + [entries[i]];
    }
    assert entries[..|entries|] == entries;
  }

  /** CheckPermissionsUsingQueryClient: true exactly for the root user or when every action mentioned is allowed. The
      flags say whether the two calls go through. */
  method CheckPermissionsUsingQueryClient(query: Principal, target: Principal, entries: seq<Statement>,
                                          describes: bool, simulates: bool)
    returns (r: Check)
    ensures r.Sufficient? <==>
      && describes
      && (|| target.isRoot
          || (simulates && CanCheck(query, target) && forall a :: Mentions(entries, a) ==> target.May(a)))
    ensures r.CheckError? <==> !describes || (!target.isRoot && !(simulates && CanCheck(query, target)))
  {
    if !describes || !target.May("iam:GetUser") {
      return CheckError;
    }
    if target.isRoot {
      return Sufficient;
    }
    var allowList := FlattenActions(entries);
    if !simulates || !query.May("iam:SimulatePrincipalPolicy") {
      return CheckError;
    }
    var results := Simulate(target, allowList);
    var allClear := true;
    for i := 0 to |results|
      invariant allClear <==> forall j :: 0 <= j < i ==> target.May(allowList[j])
    {
      if results[i].decision != "allowed" {
        allClear := false;
      }
    }
    if !allClear {
      ghost var j :| 0 <= j < |allowList| && !target.May(allowList[j]);
      assert allowList[j] in allowList;
      return Short;
    }
    return Sufficient;
  }

  /** CheckPermissionsAgainstActions, on the credentials' own behalf. */
  method CheckPermissionsAgainstActions(p: Principal, actions: seq<string>, describes: bool, simulates: bool)
    returns (r: Check)
    ensures r.Sufficient? <==>
      describes && (p.isRoot || (simulates && CanCheck(p, p) && forall a :: a in actions ==> p.May(a)))
    ensures r.CheckError? <==> !describes || (!p.isRoot && !(simulates && CanCheck(p, p)))
  {
    var entries := [Statement("Allow", actions, "*")];
    assert forall a :: a in actions ==> a in entries[0].actions && Mentions(entries, a);
    r := CheckPermissionsUsingQueryClient(p, p, entries, describes, simulates);
  }

  ghost predicate MayAll(p: Principal, actions: seq<string>) {
    forall a :: a in actions ==> p.May(a)
  }

  /** What credentials are good for, by the actions they allow alone. */
  ghost function ModeOf(p: Principal): Mode {
    if MayAll(p, MINTING_ACTIONS) then Mint
    else if MayAll(p, PASSTHROUGH_ACTIONS) then Passthrough
    else Insufficient
  }

  /** Both lists ask for the two actions that the check itself needs. */
  lemma ListsCoverTheCheck(p: Principal)
    ensures MayAll(p, MINTING_ACTIONS) || MayAll(p, PASSTHROUGH_ACTIONS) ==> CanCheck(p, p)
    ensures p.isRoot ==> CanCheck(p, p) && MayAll(p, MINTING_ACTIONS)
  {
    assert MINTING_ACTIONS[5] == "iam:GetUser" && MINTING_ACTIONS[10] == "iam:SimulatePrincipalPolicy";
    assert QUERY_ACTIONS[0] == "iam:GetUser" && QUERY_ACTIONS[1] == "iam:SimulatePrincipalPolicy";
    assert QUERY_ACTIONS[0] in PASSTHROUGH_ACTIONS && QUERY_ACTIONS[1] in PASSTHROUGH_ACTIONS;
  }

  function Rank(m: Mode): nat {
    match m
    case Mint => 2
    case Passthrough => 1
    case _ => 0
  }

  /** Granting more permissions never lowers the mode. */
  lemma MoreGrantsNeverLower(p: Principal, q: Principal)
    requires p.isRoot ==> q.isRoot
    requires p.grants <= q.grants
    ensures Rank(ModeOf(p)) <= Rank(ModeOf(q))
  {
    assert forall a :: p.May(a) ==> q.May(a);
    assert MayAll(p, MINTING_ACTIONS) ==> MayAll(q, MINTING_ACTIONS);
    assert MayAll(p, PASSTHROUGH_ACTIONS) ==> MayAll(q, PASSTHROUGH_ACTIONS);
  }
}
