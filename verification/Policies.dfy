/** The inline policy the actuator attaches to a minted user. */
module Policies {
  datatype Statement = Statement(effect: string, actions: seq<string>, resource: string)
  datatype Document = Document(version: string, statements: seq<Statement>)

  function GetUserStatement(arn: string): Statement {
    Statement("Allow", ["iam:GetUser"], arn)
  }

  function DesiredPolicy(entries: seq<Statement>, arn: string): Document {
    Document("2012-10-17", entries + [GetUserStatement(arn)])
  }

  /** getDesiredUserPolicy: copies the requested entries one by one, then adds the self-lookup statement. */
  method BuildDesiredPolicy(entries: seq<Statement>, arn: string) returns (doc: Document)
    ensures doc == DesiredPolicy(entries, arn)
  {
    doc := Document("2012-10-17", []);
    for i := 0 to |entries|
      invariant doc == Document("2012-10-17", entries[..i])
    {
      var e := entries[i];
      doc := doc.(statements := doc.statements + [Statement(e.effect, e.actions, e.resource)]);
    }
    assert entries[..|entries|] == entries;
    doc := doc.(statements := doc.statements + [GetUserStatement(arn)]);
  }

  /** No two requests or users share a desired document. */
  lemma DesiredPolicyInjective(e1: seq<Statement>, arn1: string, e2: seq<Statement>, arn2: string)
    requires DesiredPolicy(e1, arn1) == DesiredPolicy(e2, arn2)
    ensures e1 == e2 && arn1 == arn2
  {
    var s1, s2 := e1 + [GetUserStatement(arn1)], e2 + [GetUserStatement(arn2)];
    assert s1[..|s1| - 1] == e1 && s2[..|s2| - 1] == e2;
    assert s1[|s1| - 1] == GetUserStatement(arn1) && s2[|s2| - 1] == GetUserStatement(arn2);
  }

  // Evaluation under deny-overrides, for any pattern matching of actions and resources.
  type Matcher = (string, string) -> bool

  predicate Applies(st: Statement, matchAction: Matcher, matchResource: Matcher, action: string, resource: string) {
    && matchResource(st.resource, resource)
    && exists i :: 0 <= i < |st.actions| && matchAction(st.actions[i], action)
  }

  predicate SomeApplies(effect: string, sts: seq<Statement>, ma: Matcher, mr: Matcher, action: string,
                        resource: string) {
    exists i :: 0 <= i < |sts| && sts[i].effect == effect && Applies(sts[i], ma, mr, action, resource)
  }

  predicate Permits(sts: seq<Statement>, ma: Matcher, mr: Matcher, action: string, resource: string) {
    && !SomeApplies("Deny", sts, ma, mr, action, resource)
    && SomeApplies("Allow", sts, ma, mr, action, resource)
  }

  /** The attached document decides every (action, resource) as the requested entries do, except that it
      also permits looking up the user itself wherever the entries do not deny it. */
  lemma DesiredPolicyDecides(entries: seq<Statement>, arn: string, ma: Matcher, mr: Matcher, action: string,
                             resource: string)
    ensures Permits(DesiredPolicy(entries, arn).statements, ma, mr, action, resource)
       <==> || Permits(entries, ma, mr, action, resource)
            || (&& ma("iam:GetUser", action) && mr(arn, resource)
                && !SomeApplies("Deny", entries, ma, mr, action, resource))
  {
    var own := GetUserStatement(arn);
    var all := entries + [own];
    assert own.actions[0] == "iam:GetUser";
    assert Applies(own, ma, mr, action, resource) <==> ma("iam:GetUser", action) && mr(arn, resource);
    assert all[|entries|] == own;
    assert forall i :: 0 <= i < |entries| ==> all[i] == entries[i];
    assert "Deny"[0] != "Allow"[0];
    assert SomeApplies("Deny", all, ma, mr, action, resource)
           <==> SomeApplies("Deny", entries, ma, mr, action, resource) by {
      if SomeApplies("Deny", entries, ma, mr, action, resource) {
        var i :| 0 <= i < |entries| && entries[i].effect == "Deny" && Applies(entries[i], ma, mr, action, resource);
        assert all[i] == entries[i];
      }
    }
    if SomeApplies("Allow", entries, ma, mr, action, resource) {
      var i :| 0 <= i < |entries| && entries[i].effect == "Allow" && Applies(entries[i], ma, mr, action, resource);
      assert all[i] == entries[i];
    }
  }
}
