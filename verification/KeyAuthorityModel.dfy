/**
 The issuer's key authority. Each lock section is one method; the sequential meaning of a whole call,
 run with nobody else around, is the function Alone.
 */
module KeyAuthorityModel {
  import opened Evm
  import opened Credentials

  const GITHUB_DEPLOYMENT := "github-deployment"
  const WEB_PAGE := "web-page"

  datatype DelegationSpec = DelegationSpec(scope: string, subject: string, skill: string, policy: string, expiresAt: Time)

  datatype ChildKey = ChildKey(parentKeyId: string, spec: DelegationSpec, signer: Signer, revoked: bool)

  datatype Authority = Authority(root: Option<Signer>, rootRevoked: bool, children: map<string, ChildKey>)

  datatype Refusal =
    | ContextDone
    | UnsupportedScope
    | MissingFields
    | ExpiryNotInFuture
    | RootUnavailable
    | KeyGenerationFailed
    | RootRevokedDuringDelegation
    | NotAuthorized
    | KeyNotFound

  datatype Response =
    | Delegated(child: ChildKey)
    | Answer(yes: bool)
    | Authorized(child: ChildKey)
    | Done
    | Refused(why: Refusal)

  /** A call, with what its environment will hand it: clock readings and the generated child signer. */
  datatype Op =
    | Delegate(contextDone: bool, scope: string, now: Time, generated: Option<Signer>)
    | DelegateFor(contextDone: bool, spec: DelegationSpec, now: Time, generated: Option<Signer>)
    | CanIssueFor(keyId: string, scope: string, subject: string, skill: string, policy: string, now: Time)
    | Issue(contextDone: bool, keyId: string, scope: string, request: IssueRequest, now: Time)
    | Revoke(keyId: string)
    | RevokeRoot
  {
    predicate Delegates() {
      Delegate? || DelegateFor?
    }

    /** Delegate passes only a scope on; the other fields keep Go's zero values. */
    function Spec(): DelegationSpec
      requires Delegates()
    {
      if Delegate? then DelegationSpec(scope, "", "", "", 0) else spec
    }
  }

  function RootId(a: Authority): string {
    if a.root.Some? then a.root.value.keyId else ""
  }

  predicate RootAvailable(a: Authority) {
    a.root.Some? && !a.rootRevoked
  }

  /** The checks of delegate before it first takes the lock. */
  function SpecFault(op: Op): Option<Refusal>
    requires op.Delegates()
  {
    var spec := op.Spec();
    if op.contextDone then Some(Refusal.ContextDone)
    else if spec.scope != GITHUB_DEPLOYMENT && spec.scope != WEB_PAGE then Some(UnsupportedScope)
    else if op.DelegateFor? && (spec.subject == "" || spec.skill == "" || spec.policy == "" || spec.expiresAt == 0) then Some(MissingFields)
    else if op.DelegateFor? && spec.expiresAt <= op.now then Some(ExpiryNotInFuture)
    else None
  }

  function NewChild(a: Authority, op: Op): ChildKey
    requires op.Delegates() && op.generated.Some?
  {
    ChildKey(RootId(a), op.Spec(), op.generated.value, false)
  }

  predicate Permits(a: Authority, keyId: string, scope: string, subject: string, skill: string, policy: string, now: Time) {
    && RootAvailable(a) && keyId in a.children
    && var child := a.children[keyId];
       && !child.revoked && child.spec.scope == scope
       && (if child.spec.subject == "" then subject == "" && skill == "" && policy == ""
           else child.spec.subject == subject && child.spec.skill == skill && child.spec.policy == policy && now < child.spec.expiresAt)
  }

  function Installed(a: Authority, child: ChildKey): Authority {
    a.(children := a.children[child.signer.keyId := child])
  }

  /** A whole call run alone. For Issue this is the authorization decision; signing follows from it. */
  function Alone(a: Authority, op: Op): (Authority, Response) {
    match op
    case CanIssueFor(keyId, scope, subject, skill, policy, now) => (a, Answer(Permits(a, keyId, scope, subject, skill, policy, now)))
    case Issue(contextDone, keyId, scope, r, now) =>
      if contextDone then (a, Refused(Refusal.ContextDone))
      else if Permits(a, keyId, scope, r.learnerId, r.skillId, r.policyVersion, now) then (a, Authorized(a.children[keyId]))
      else (a, Refused(NotAuthorized))
    case Revoke(keyId) =>
      if keyId !in a.children then (a, Refused(KeyNotFound))
      else (a.(children := a.children[keyId := a.children[keyId].(revoked := true)]), Done)
    case RevokeRoot => (a.(rootRevoked := true), Done)
    case _ =>
      if SpecFault(op).Some? then (a, Refused(SpecFault(op).value))
      else if !RootAvailable(a) then (a, Refused(RootUnavailable))
      else if op.generated.None? then (a, Refused(KeyGenerationFailed))
      else (Installed(a, NewChild(a, op)), Delegated(NewChild(a, op)))
  }

  /** When a delegation succeeds, and the child it installs under the generated key id. */
  lemma DelegationSucceedsIff(a: Authority, op: Op)
    requires op.Delegates()
    ensures var (a', response) := Alone(a, op);
      && (response.Delegated? <==>
            && !op.contextDone && op.Spec().scope in {GITHUB_DEPLOYMENT, WEB_PAGE}
            && (op.DelegateFor? ==> "" !in {op.spec.subject, op.spec.skill, op.spec.policy} && op.spec.expiresAt != 0 && op.now < op.spec.expiresAt)
            && a.root.Some? && !a.rootRevoked && op.generated.Some?)
      && (response.Delegated? ==>
            && response.child == ChildKey(a.root.value.keyId, op.Spec(), op.generated.value, false)
            && a' == a.(children := a.children[op.generated.value.keyId := response.child]))
      && (!response.Delegated? ==> response.Refused? && a' == a)
  {
  }

  /**
   When Issue is authorized: the root stands, and the child is known, not revoked, of that scope, made
   for just this learner, skill and policy, and not expired. A child made without a learner serves
   only a request without learner, skill and policy.
   */
  lemma IssueAuthorizedIff(a: Authority, op: Op)
    requires op.Issue?
    ensures var (a', response) := Alone(a, op);
      && a' == a && (response.Authorized? || response.Refused?)
      && (response.Authorized? <==>
            && !op.contextDone && a.root.Some? && !a.rootRevoked && op.keyId in a.children
            && var spec := a.children[op.keyId].spec;
            && !a.children[op.keyId].revoked && spec.scope == op.scope
            && (if spec.subject == "" then op.request.learnerId == op.request.skillId == op.request.policyVersion == ""
                else spec.subject == op.request.learnerId && spec.skill == op.request.skillId
                     && spec.policy == op.request.policyVersion && op.now < spec.expiresAt))
      && (response.Authorized? ==> response.child == a.children[op.keyId])
  {
  }

  /** No valid request is authorized under a child made without a learner. */
  lemma ValidRequestNeedsNamedChild(a: Authority, op: Op)
    requires op.Issue? && ValidRequest(op.request) && Alone(a, op).1.Authorized?
    ensures var spec := a.children[op.keyId].spec;
      && spec.subject == op.request.learnerId != "" && spec.skill == op.request.skillId && spec.policy == op.request.policyVersion
      && op.now < spec.expiresAt
  {
    assert Blank("");
  }

  class KeyAuthority {
    const root: Option<Signer>
    var rootRevoked: bool
    var children: map<string, ChildKey>

    function State(): Authority
      reads this
    {
      Authority(root, rootRevoked, children)
    }

    constructor (root: Option<Signer>)
      ensures this.root == root && State() == Authority(root, false, map[])
    {
      this.root, rootRevoked, children := root, false, map[];
    }

    /** The read-lock section of delegate. */
    method ReadRoot() returns (available: bool, rootId: string)
      ensures available == RootAvailable(State()) && rootId == RootId(State())
    {
      available := root.Some? && !rootRevoked;
      rootId := "";
      if root.Some? { rootId := root.value.keyId; }
    }

    /** The write-lock section of delegate. */
    method Install(child: ChildKey) returns (refused: Option<Refusal>)
      modifies this
      ensures old(rootRevoked) ==> refused == Some(RootRevokedDuringDelegation) && State() == old(State())
      ensures !old(rootRevoked) ==> refused == None && State() == Installed(old(State()), child)
    {
      if rootRevoked { return Some(RootRevokedDuringDelegation); }
      children := children[child.signer.keyId := child];
      return None;
    }

    /** Both sections in a row, when nobody comes between them. */
    method Delegate(op: Op) returns (response: Response)
      requires op.Delegates()
      modifies this
      ensures (State(), response) == Alone(old(State()), op)
    {
      var fault := SpecFault(op);
      if fault.Some? { return Refused(fault.value); }
      var available, rootId := ReadRoot();
      if !available { return Refused(RootUnavailable); }
      if op.generated.None? { return Refused(KeyGenerationFailed); }
      var child := ChildKey(rootId, op.Spec(), op.generated.value, false);
      var refused := Install(child);
      return if refused.Some? then Refused(RootRevokedDuringDelegation) else Delegated(child);
    }

    method CanIssueFor(keyId: string, scope: string, subject: string, skill: string, policy: string, now: Time) returns (yes: bool)
      ensures yes == Permits(State(), keyId, scope, subject, skill, policy, now)
    {
      if root.None? || rootRevoked { return false; }
      if keyId !in children || children[keyId].revoked || children[keyId].spec.scope != scope { return false; }
      var spec := children[keyId].spec;
      if spec.subject == "" { return subject == "" && skill == "" && policy == ""; }
      return spec.subject == subject && spec.skill == skill && spec.policy == policy && now < spec.expiresAt;
    }

    /** The legacy check, which asks for no person, skill or policy. */
    method CanIssue(keyId: string, scope: string, now: Time) returns (yes: bool)
      ensures yes <==> RootAvailable(State()) && keyId in children && !children[keyId].revoked
                       && children[keyId].spec.scope == scope && children[keyId].spec.subject == ""
    {
      yes := CanIssueFor(keyId, scope, "", "", "", now);
    }

    /** The read-lock section of Issue: pick the child and decide. */
    method Authorize(op: Op) returns (response: Response)
      requires op.Issue?
      ensures (State(), response) == Alone(State(), op)
    {
      if op.contextDone { return Refused(Refusal.ContextDone); }
      var allowed := CanIssueFor(op.keyId, op.scope, op.request.learnerId, op.request.skillId, op.request.policyVersion, op.now);
      if op.keyId !in children || !allowed { return Refused(NotAuthorized); }
      return Authorized(children[op.keyId]);
    }

    /** The whole call: the decision, and then, with the lock released, the low-level helper under the child's signer. */
    method Issue(u: Suite, op: Op, contextDone: bool, nonce: nat) returns (credential: Option<Credential>, response: Response)
      requires op.Issue?
      ensures response == Alone(State(), op).1
      ensures credential.Some? <==> response.Authorized? && !contextDone && ValidRequest(op.request)
      ensures credential.Some? ==> credential.value == SignedCredential(u, response.child.signer, op.request, nonce)
    {
      response := Authorize(op);
      if response.Refused? { return None, response; }
      var error;
      credential, error := Credentials.Issue(u, contextDone, Some(response.child.signer), op.request, nonce);
    }

    method Revoke(keyId: string) returns (response: Response)
      modifies this
      ensures (State(), response) == Alone(old(State()), Op.Revoke(keyId))
      ensures response == if keyId in old(children) then Done else Refused(KeyNotFound)
      ensures rootRevoked == old(rootRevoked) && children.Keys == old(children).Keys
      ensures forall other :: other in children ==>
                children[other] == if other == keyId then old(children)[other].(revoked := true) else old(children)[other]
    {
      if keyId !in children { return Refused(KeyNotFound); }
      var child := children[keyId];
      child := child.(revoked := true);
      children := children[keyId := child];
      return Done;
    }

    method RevokeRoot()
      modifies this
      ensures (State(), Done) == Alone(old(State()), Op.RevokeRoot)
      ensures rootRevoked && children == old(children)
    {
      rootRevoked := true;
    }
  }
}
