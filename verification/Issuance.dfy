/** The authority and the credential helper together: where every signed credential came from. */
module Issuance {
  import opened Evm
  import opened Credentials
  import opened KeyAuthorityModel
  import opened KeyInterleaving

  /** The log shows this child being delegated by this call. */
  ghost predicate DelegatedBy(e: Entry, child: ChildKey) {
    && e.op.Delegates() && SpecFault(e.op).None? && e.op.Spec() == child.spec && e.op.generated == Some(child.signer)
    && e.response == Delegated(child.(revoked := false))
  }

  /** Every child the authority holds after replaying a log was delegated in that log. */
  lemma {:induction false} ChildComesFromLog(a: Authority, log: seq<Entry>, keyId: string) returns (j: nat)
    requires a.children == map[] && Explained(a, log) && keyId in Replay(a, log).children
    ensures j < |log| && DelegatedBy(log[j], Replay(a, log).children[keyId])
  {
    var n := |log| - 1;
    var before, child := Replay(a, log[..n]), Replay(a, log).children[keyId];
    if keyId in before.children && before.children[keyId].(revoked := false) == child.(revoked := false) {
      j := ChildComesFromLog(a, log[..n], keyId);
    } else {
      j := n;
    }
  }

  /** A signing follows from its call's decision. */
  ghost predicate SignedAsDecided(w: World, sg: Signing) {
    && sg.call in w.calls && w.calls[sg.call].op.Issue? && w.calls[sg.call].op.request == sg.request && ValidRequest(sg.request)
    && !InFlight(w, sg.call) && w.calls[sg.call].phase.response == Authorized(sg.child)
  }

  ghost predicate AllAsDecided(w: World) {
    forall i :: 0 <= i < |w.signed| ==> SignedAsDecided(w, w.signed[i])
  }

  lemma {:induction false} EverySigningAsDecided(w: World, trace: seq<Step>)
    requires AllAsDecided(w)
    ensures AllAsDecided(Exec(w, trace))
  {
    if trace != [] {
      var before, step := Exec(w, trace[..|trace| - 1]), trace[|trace| - 1];
      EverySigningAsDecided(w, trace[..|trace| - 1]);
      if Enabled(before, step) {
        StepSignsAsDecided(before, step);
      }
    }
  }

  lemma StepSignsAsDecided(w: World, step: Step)
    requires Enabled(w, step) && AllAsDecided(w)
    ensures AllAsDecided(Next(w, step))
  {
    var w' := Next(w, step);
    forall i | 0 <= i < |w'.signed| ensures SignedAsDecided(w', w'.signed[i]) {
      if i < |w.signed| {
        assert w'.signed[i] == w.signed[i] && SignedAsDecided(w, w.signed[i]);
      }
    }
  }

  /** The state of the authority when the call at this place of the log took effect. */
  function AuthorityAt(root: Option<Signer>, w: World, at: nat): Authority
    requires at < |w.log|
  {
    Replay(Start(root).authority, w.log[..at])
  }

  /**
   The child was made by an earlier DelegateFor for just this learner, skill, policy and scope, and
   when the call was checked neither it nor the root was revoked, and it had not expired.
   */
  ghost predicate DulyDelegated(root: Option<Signer>, w: World, sg: Signing, at: nat)
    requires sg.call in w.calls && w.calls[sg.call].op.Issue? && at < |w.log|
  {
    var op, a := w.calls[sg.call].op, AuthorityAt(root, w, at);
    && RootAvailable(a) && op.keyId in a.children && a.children[op.keyId] == sg.child && !sg.child.revoked
    && sg.child.spec.scope == op.scope && sg.child.spec.subject == sg.request.learnerId
    && sg.child.spec.skill == sg.request.skillId && sg.child.spec.policy == sg.request.policyVersion
    && op.now < sg.child.spec.expiresAt
    && exists j :: 0 <= j < at && w.log[j].op.DelegateFor? && DelegatedBy(w.log[j], sg.child)
  }

  /**
   Under every interleaving, every credential the authority signs was duly delegated, at the place in
   the log where its Issue call took effect, and it verifies under the child's key. A child made by
   Delegate never signs anything.
   */
  lemma EveryCredentialHasItsDelegation(u: Suite, root: Option<Signer>, trace: seq<Step>, i: nat, nonce: nat)
    requires u.Sound() && i < |Exec(Start(root), trace).signed|
    ensures var w := Exec(Start(root), trace);
      var sg := w.signed[i];
      var c := SignedCredential(u, sg.child.signer, sg.request, nonce);
      && SignedAsDecided(w, sg) && w.calls[sg.call].phase.at < |w.log|
      && w.log[w.calls[sg.call].phase.at] == Entry(sg.call, w.calls[sg.call].op, Authorized(sg.child))
      && DulyDelegated(root, w, sg, w.calls[sg.call].phase.at)
      && c.subject.learnerId == sg.child.spec.subject && c.subject.skillId == sg.child.spec.skill
      && c.subject.policyVersion == sg.child.spec.policy
      && Verify(u, c, PublicHalf(u, sg.child.signer))
  {
    var w := Exec(Start(root), trace);
    var sg := w.signed[i];
    EverySigningAsDecided(Start(root), trace);
    assert SignedAsDecided(w, sg);
    ExecIsLinear(root, trace);
    AuthorizedIsDuly(root, w, sg);
    SignedCredentialVerifies(u, sg.child.signer, sg.request, nonce);
  }

  lemma AuthorizedIsDuly(root: Option<Signer>, w: World, sg: Signing)
    requires Linear(Start(root).authority, w) && SignedAsDecided(w, sg)
    ensures w.calls[sg.call].phase.at < |w.log| && DulyDelegated(root, w, sg, w.calls[sg.call].phase.at)
  {
    var at, op := w.calls[sg.call].phase.at, w.calls[sg.call].op;
    ExplainedAt(Start(root).authority, w.log, at);
    assert Alone(AuthorityAt(root, w, at), op).1 == Authorized(sg.child);
    var j := ChildComesFromLog(Start(root).authority, w.log[..at], op.keyId);
    assert sg.request.learnerId != "" by { assert Blank(""); }
    assert w.log[..at][j] == w.log[j];
  }

  /**
   The last part of KeyAuthority.Issue, after the lock was released: it gives a credential exactly when
   the Return step signs, and the credential is the one of that signing.
   */
  method FinishIssue(u: Suite, w: World, id: CallId, contextDone: bool, nonce: nat) returns (credential: Option<Credential>)
    requires Enabled(w, Return(id, contextDone)) && w.calls[id].op.Issue? && w.calls[id].phase.response.Authorized?
    ensures var signed, child, request := Next(w, Return(id, contextDone)).signed, w.calls[id].phase.response.child, w.calls[id].op.request;
      && (credential.Some? <==> signed == w.signed + [Signing(id, child, request)])
      && (credential.None? <==> signed == w.signed)
      && (credential.Some? ==> credential.value == SignedCredential(u, child.signer, request, nonce))
  {
    var c := w.calls[id];
    var error;
    credential, error := Credentials.Issue(u, contextDone, Some(c.phase.response.child.signer), c.op.request, nonce);
  }
}
