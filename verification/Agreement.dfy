/**
 The Go authority says that the Solidity registry records the same state. Both are driven here by the
 same history of grants, withdrawals and root stops, and their answers compared. Each side is shown
 to answer from the history alone, which gives the exact condition under which the answers differ.
 */
module Agreement {
  import opened Evm
  import opened Credentials
  import opened RecordBook
  import Go = KeyAuthorityModel
  import Sol = SkillRegistryModel

  /** One administrative action, carried out on both sides. */
  datatype Action =
    | Grant(key: string, scope: Scope, now: Timestamp)
    | GrantFor(key: string, scope: Scope, subject: string, skill: string, policy: string, expiresAt: Uint64, now: Timestamp)
    | Withdraw(key: string, now: Timestamp)
    | StopRoot

  /** How the chain names what the authority names by strings. */
  datatype Naming = Naming(child: string -> Address, word: string -> Bytes32)

  /** The key ids and the other strings a history and a question use. */
  datatype Lexicon = Lexicon(keys: set<string>, words: set<string>)

  /**
   On the names in use, hashing does not collide and only the empty string is the zero word; distinct
   keys have distinct nonzero addresses, none of them the root's.
   */
  ghost predicate Separates(naming: Naming, root: Address, lex: Lexicon) {
    && (forall x, y :: x in lex.words && y in lex.words && x != y ==> naming.word(x) != naming.word(y))
    && (forall x :: x in lex.words ==> (naming.word(x) == 0 <==> x == ""))
    && (forall x, y :: x in lex.keys && y in lex.keys && x != y ==> naming.child(x) != naming.child(y))
    && (forall x :: x in lex.keys ==> naming.child(x) != 0 && naming.child(x) != root)
  }

  predicate Uses(lex: Lexicon, action: Action) {
    match action
    case GrantFor(key, _, subject, skill, policy, _, _) =>
      key in lex.keys && subject in lex.words && skill in lex.words && policy in lex.words
    case StopRoot => true
    case _ => action.key in lex.keys
  }

  /** A Unix time in seconds as a Go time. */
  function GoTime(t: Uint64): Time {
    (t + 62135596800) * 1000000000
  }

  function GoScope(scope: Scope): string {
    match scope
    case GitHubDeployment => Go.GITHUB_DEPLOYMENT
    case WebPage => Go.WEB_PAGE
  }

  function Mask(scope: Scope): Uint8 {
    match scope
    case GitHubDeployment => 1
    case WebPage => 2
  }

  function GoOp(action: Action): Go.Op {
    match action
    case Grant(key, scope, now) => Go.Delegate(false, GoScope(scope), GoTime(now), Some(Signer(key, 0)))
    case GrantFor(key, scope, subject, skill, policy, expiresAt, now) =>
      Go.DelegateFor(false, Go.DelegationSpec(GoScope(scope), subject, skill, policy, GoTime(expiresAt)), GoTime(now), Some(Signer(key, 0)))
    case Withdraw(key, _) => Go.Revoke(key)
    case StopRoot => Go.RevokeRoot
  }

  /** The registry has nothing like a root revocation: its state stays. */
  function SolApply(d: Sol.Deployment, naming: Naming, s: Sol.State, action: Action): Sol.State {
    match action
    case Grant(key, scope, now) =>
      Sol.Apply(d, s, Sol.Tx(d.root, now, Sol.DelegateIssuer(naming.child(key), Mask(scope))))
    case GrantFor(key, scope, subject, skill, policy, expiresAt, now) =>
      Sol.Apply(d, s, Sol.Tx(d.root, now, Sol.DelegateIssuerFor(naming.child(key), Mask(scope), naming.word(subject),
                                                                 naming.word(skill), naming.word(policy), expiresAt)))
    case Withdraw(key, now) => Sol.Apply(d, s, Sol.Tx(d.root, now, Sol.RevokeIssuer(naming.child(key))))
    case StopRoot => s
  }

  function GoRun(root: Signer, actions: seq<Action>): Go.Authority {
    if actions == [] then Go.Authority(Some(root), false, map[])
    else Go.Alone(GoRun(root, actions[..|actions| - 1]), GoOp(actions[|actions| - 1])).0
  }

  function SolRun(d: Sol.Deployment, naming: Naming, actions: seq<Action>): Sol.State {
    if actions == [] then Sol.INITIAL
    else SolApply(d, naming, SolRun(d, naming, actions[..|actions| - 1]), actions[|actions| - 1])
  }

  /** The delegation checks the registry applies to an attestation of one skill. */
  predicate SolPermits(d: Sol.Deployment, s: Sol.State, child: Address, scope: Scope, subject: Bytes32, skill: Bytes32,
                       program: Bytes32, now: Timestamp)
  {
    && Sol.IsScopedIssuer(d, s, child, scope)
    && Sol.MatchFault(Sol.DelegationOf(s, child), child, now, subject, program, [skill]).None?
  }

  // ------------------------------------------------ reading the history

  /** The action goes through on both sides: a scoped grant needs its three names and a future expiry. */
  predicate Effective(action: Action) {
    match action
    case GrantFor(_, _, subject, skill, policy, expiresAt, now) => subject != "" && skill != "" && policy != "" && now < expiresAt
    case _ => true
  }

  predicate IsAbout(action: Action, key: string) {
    !action.StopRoot? && action.key == key
  }

  /** The grant that the last effective action about this key made, if it made one. */
  function LastGrant(actions: seq<Action>, key: string): (g: Option<Action>)
    ensures g.Some? ==> (g.value.Grant? || g.value.GrantFor?) && g.value.key == key && Effective(g.value) && g.value in actions
  {
    if actions == [] then None
    else
      var last := actions[|actions| - 1];
      if Effective(last) && IsAbout(last, key) then (if last.Withdraw? then None else Some(last))
      else LastGrant(actions[..|actions| - 1], key)
  }

  predicate Stopped(actions: seq<Action>) {
    StopRoot in actions
  }

  datatype Question = Question(key: string, scope: Scope, subject: string, skill: string, policy: string, now: Timestamp) {
    predicate In(lex: Lexicon) {
      key in lex.keys && subject in lex.words && skill in lex.words && policy in lex.words
    }

    /** It names no learner, no skill and no policy: what CanIssue asks. */
    predicate Anonymous() {
      subject == "" && skill == "" && policy == ""
    }
  }

  /** The grant takes in the question. A broad grant takes in every question of its scope. */
  predicate Takes(grant: Action, q: Question) {
    match grant
    case Grant(_, scope, _) => scope == q.scope
    case GrantFor(_, scope, subject, skill, policy, expiresAt, _) =>
      scope == q.scope && subject == q.subject && skill == q.skill && policy == q.policy && q.now < expiresAt
    case _ => false
  }

  predicate Covered(actions: seq<Action>, q: Question) {
    var g := LastGrant(actions, q.key);
    g.Some? && Takes(g.value, q)
  }

  predicate GoAnswer(root: Signer, actions: seq<Action>, q: Question) {
    Go.Permits(GoRun(root, actions), q.key, GoScope(q.scope), q.subject, q.skill, q.policy, GoTime(q.now))
  }

  predicate SolAnswer(d: Sol.Deployment, naming: Naming, actions: seq<Action>, q: Question) {
    SolPermits(d, SolRun(d, naming, actions), naming.child(q.key), q.scope, naming.word(q.subject), naming.word(q.skill),
               naming.word(q.policy), q.now)
  }

  // ---------------------------------------------------- the registry side

  /** The delegation a grant leaves on chain. */
  function OnChain(naming: Naming, grant: Action): Sol.DelegatedIssuer
    requires grant.Grant? || grant.GrantFor?
  {
    match grant
    case Grant(_, scope, _) => Sol.DelegatedIssuer(Mask(scope), true, 0, 0, 0, 0)
    case GrantFor(_, scope, subject, skill, policy, expiresAt, _) =>
      Sol.DelegatedIssuer(Mask(scope), true, naming.word(subject), naming.word(skill), naming.word(policy), expiresAt)
  }

  ghost predicate ChainHolds(naming: Naming, s: Sol.State, key: string, g: Option<Action>)
    requires g.Some? ==> g.value.Grant? || g.value.GrantFor?
  {
    var held := Sol.DelegationOf(s, naming.child(key));
    if g.Some? then held == OnChain(naming, g.value) else !held.active
  }

  ghost predicate AllUse(lex: Lexicon, actions: seq<Action>) {
    forall i :: 0 <= i < |actions| ==> Uses(lex, actions[i])
  }

  lemma {:induction false} ChainHoldsLastGrant(d: Sol.Deployment, naming: Naming, actions: seq<Action>, lex: Lexicon, key: string)
    requires Separates(naming, d.root, lex) && AllUse(lex, actions) && key in lex.keys
    ensures ChainHolds(naming, SolRun(d, naming, actions), key, LastGrant(actions, key))
  {
    if actions != [] {
      var before, last := actions[..|actions| - 1], actions[|actions| - 1];
      ChainHoldsLastGrant(d, naming, before, lex, key);
      ChainStep(d, naming, SolRun(d, naming, before), last, lex, key);
    }
  }

  lemma ChainStep(d: Sol.Deployment, naming: Naming, s: Sol.State, action: Action, lex: Lexicon, key: string)
    requires Separates(naming, d.root, lex) && Uses(lex, action) && key in lex.keys
    ensures Sol.DelegationOf(SolApply(d, naming, s, action), naming.child(key)) ==
              if !Effective(action) || !IsAbout(action, key) then Sol.DelegationOf(s, naming.child(key))
              else if action.Withdraw? then Sol.DelegationOf(s, naming.child(key)).(active := false, scopeMask := 0)
              else OnChain(naming, action)
  {
    if !action.StopRoot? && action.key != key {
      assert naming.child(action.key) != naming.child(key);
    }
  }

  /** The chain permits exactly what the last effective grant takes in, whatever the Go root does. */
  lemma ChainReadsHistory(d: Sol.Deployment, naming: Naming, actions: seq<Action>, lex: Lexicon, q: Question)
    requires Separates(naming, d.root, lex) && AllUse(lex, actions) && q.In(lex)
    ensures SolAnswer(d, naming, actions, q) <==> Covered(actions, q)
  {
    ChainHoldsLastGrant(d, naming, actions, lex, q.key);
    var g := LastGrant(actions, q.key);
    if g.Some? && g.value.GrantFor? {
      var i :| 0 <= i < |actions| && actions[i] == g.value;
      assert Uses(lex, actions[i]);
      SingletonsEqual(naming.word(q.skill), naming.word(g.value.skill));
    }
  }

  lemma SingletonsEqual(x: Bytes32, y: Bytes32)
    ensures [x] == [y] <==> x == y
  {
    assert [x][0] == x && [y][0] == y;
  }

  // ------------------------------------------------------- the Go side

  function InGo(grant: Action): Go.DelegationSpec
    requires grant.Grant? || grant.GrantFor?
  {
    GoOp(grant).Spec()
  }

  ghost predicate GoHolds(a: Go.Authority, key: string, g: Option<Action>)
    requires g.Some? ==> g.value.Grant? || g.value.GrantFor?
  {
    if g.Some? then key in a.children && !a.children[key].revoked && a.children[key].spec == InGo(g.value)
    else key in a.children ==> a.children[key].revoked
  }

  lemma {:induction false} GoHoldsLastGrant(root: Signer, actions: seq<Action>, key: string)
    ensures var a := GoRun(root, actions);
      a.root == Some(root) && (a.rootRevoked <==> Stopped(actions)) && (!Stopped(actions) ==> GoHolds(a, key, LastGrant(actions, key)))
  {
    if actions != [] {
      var before, last := actions[..|actions| - 1], actions[|actions| - 1];
      GoHoldsLastGrant(root, before, key);
      assert actions == before + [last];
      assert Stopped(actions) <==> Stopped(before) || last == StopRoot;
      GoStep(GoRun(root, before), last, key);
    }
  }

  lemma GoStep(a: Go.Authority, action: Action, key: string)
    requires a.root.Some?
    ensures var a' := Go.Alone(a, GoOp(action)).0;
      && a'.root == a.root && (a'.rootRevoked <==> a.rootRevoked || action.StopRoot?)
      && (!a'.rootRevoked ==>
            if !Effective(action) || !IsAbout(action, key) then
              (key in a'.children <==> key in a.children) && (key in a.children ==> a'.children[key] == a.children[key])
            else if action.Withdraw? then key in a'.children ==> a'.children[key].revoked
            else key in a'.children && !a'.children[key].revoked && a'.children[key].spec == InGo(action))
  {
  }

  /** Go permits what the last effective grant takes in, until its root is stopped, and broad grants only anonymously. */
  lemma GoReadsHistory(root: Signer, actions: seq<Action>, q: Question)
    ensures GoAnswer(root, actions, q) <==>
              !Stopped(actions) && Covered(actions, q) && (LastGrant(actions, q.key).value.Grant? ==> q.Anonymous())
  {
    GoHoldsLastGrant(root, actions, q.key);
    ScopesDiffer();
  }

  lemma ScopesDiffer()
    ensures GoScope(GitHubDeployment) != GoScope(WebPage)
  {
    assert GoScope(GitHubDeployment)[0] != GoScope(WebPage)[0];
  }

  // -------------------------------------------------------- agreement

  /**
   The exact condition, for every history and every question, read off the history: the two sides
   differ exactly when the chain permits it and either the Go root was stopped, or the grant is a
   broad one and the question names a learner, a skill or a policy.
   */
  lemma AgreeIff(d: Sol.Deployment, naming: Naming, root: Signer, actions: seq<Action>, lex: Lexicon, q: Question)
    requires Separates(naming, d.root, lex) && AllUse(lex, actions) && q.In(lex)
    ensures GoAnswer(root, actions, q) == SolAnswer(d, naming, actions, q) <==>
              !(Covered(actions, q) && (Stopped(actions) || (LastGrant(actions, q.key).value.Grant? && !q.Anonymous())))
  {
    ChainReadsHistory(d, naming, actions, lex, q);
    GoReadsHistory(root, actions, q);
  }

  ghost predicate LiveBroad(a: Go.Authority, key: string, scope: Scope) {
    key in a.children && !a.children[key].revoked && a.children[key].spec.subject == "" && a.children[key].spec.scope == GoScope(scope)
  }

  /**
   The same read off the Go state, for histories without a stop: agreement on a question exactly
   when the child is not a live broad one of that scope, or the question is anonymous.
   */
  lemma AgreeUnlessBroad(d: Sol.Deployment, naming: Naming, root: Signer, actions: seq<Action>, lex: Lexicon, q: Question)
    requires Separates(naming, d.root, lex) && AllUse(lex, actions) && q.In(lex)
    requires !Stopped(actions)
    ensures GoAnswer(root, actions, q) == SolAnswer(d, naming, actions, q) <==>
              !(LiveBroad(GoRun(root, actions), q.key, q.scope) && !q.Anonymous())
  {
    AgreeIff(d, naming, root, actions, lex, q);
    GoHoldsLastGrant(root, actions, q.key);
    ScopesDiffer();
  }

  /**
   Once the Go root is stopped the two sides agree on a question exactly when the last effective
   action about its key is not a grant that takes it in; Go itself permits nothing any more.
   */
  lemma StoppedRootDiverges(d: Sol.Deployment, naming: Naming, root: Signer, before: seq<Action>, after: seq<Action>,
                            lex: Lexicon, q: Question)
    requires var all := before + [StopRoot] + after; Separates(naming, d.root, lex) && AllUse(lex, all) && q.In(lex)
    ensures var all := before + [StopRoot] + after;
      && !GoAnswer(root, all, q)
      && (GoAnswer(root, all, q) == SolAnswer(d, naming, all, q) <==> !Covered(all, q))
  {
    var all := before + [StopRoot] + after;
    assert all[|before|] == StopRoot;
    GoReadsHistory(root, all, q);
    AgreeIff(d, naming, root, all, lex, q);
  }

  // -------------------------------------------------- runs that differ

  /** A broad child, asked about a learner: the chain says yes and Go says no. */
  lemma BroadChildDiffers(d: Sol.Deployment, naming: Naming, root: Signer, key: string)
    requires Separates(naming, d.root, Lexicon({key}, {"s", "k", "p"}))
    ensures var actions, q := [Grant(key, WebPage, 1)], Question(key, WebPage, "s", "k", "p", 2);
      !GoAnswer(root, actions, q) && SolAnswer(d, naming, actions, q)
  {
    var actions, q := [Grant(key, WebPage, 1)], Question(key, WebPage, "s", "k", "p", 2);
    assert LastGrant(actions, key) == Some(actions[0]);
    ChainReadsHistory(d, naming, actions, Lexicon({key}, {"s", "k", "p"}), q);
    GoReadsHistory(root, actions, q);
  }

  /** A scoped child after a root stop: the chain still says yes and Go says no. */
  lemma StoppedRootDiffers(d: Sol.Deployment, naming: Naming, root: Signer, key: string)
    requires Separates(naming, d.root, Lexicon({key}, {"s", "k", "p"}))
    ensures var actions, q := [GrantFor(key, WebPage, "s", "k", "p", 9, 1), StopRoot], Question(key, WebPage, "s", "k", "p", 2);
      !GoAnswer(root, actions, q) && SolAnswer(d, naming, actions, q)
  {
    var actions, q := [GrantFor(key, WebPage, "s", "k", "p", 9, 1), StopRoot], Question(key, WebPage, "s", "k", "p", 2);
    assert actions[..1] == [actions[0]] && LastGrant(actions[..1], key) == Some(actions[0]);
    assert LastGrant(actions, key) == Some(actions[0]);
    ChainReadsHistory(d, naming, actions, Lexicon({key}, {"s", "k", "p"}), q);
    GoReadsHistory(root, actions, q);
  }
}
