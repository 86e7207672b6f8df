/** Theorems about whole runs of SkillRegistry: who could have caused what, and what survives. */
module SkillRegistryHistory {
  import opened Evm
  import opened RecordBook
  import opened SkillRegistryModel
  import opened SkillRegistryInvariants

  // -------------------------------------------------------------- purge

  function Without(txs: seq<Tx>, c: Address): seq<Tx> {
    if txs == [] then []
    else
      var rest, last := Without(txs[..|txs| - 1], c), txs[|txs| - 1];
      if last.sender == c then rest else rest + [last]
  }

  predicate Delegates(call: Call, c: Address) {
    match call
    case DelegateIssuer(child, _) => child == c
    case DelegateIssuerFor(child, _, _, _, _, _) => child == c
    case _ => false
  }

  /** No delegation to c goes through; anybody may try and revert. */
  ghost predicate NeverDelegated(d: Deployment, s: State, txs: seq<Tx>, c: Address) {
    forall i :: 0 <= i < |txs| && Delegates(txs[i].call, c) ==> Fault(d, Run(d, s, txs[..i]), txs[i]).Some?
  }

  /** An address that holds no delegation and issued no record. It may well be a bound holder. */
  ghost predicate Outsider(s: State, c: Address) {
    !DelegationOf(s, c).active && forall id :: id in s.book.records ==> s.book.records[id].issuer != c
  }

  lemma OutsiderReverts(d: Deployment, s: State, tx: Tx)
    requires Outsider(s, tx.sender) && tx.sender != d.root
    ensures Fault(d, s, tx).Some?
  {
  }

  lemma StepKeepsOutsider(d: Deployment, s: State, tx: Tx, c: Address)
    requires Outsider(s, c) && c != d.root && tx.sender != c
    requires Delegates(tx.call, c) ==> Fault(d, s, tx).Some?
    ensures Outsider(Apply(d, s, tx), c)
  {
    var s' := Apply(d, s, tx);
    forall id | id in s'.book.records ensures s'.book.records[id].issuer != c {
      assert id in s.book.records ==> s.book.records[id].issuer != c;
    }
  }

  /**
   Deleting every transaction sent by an address the root never delegates to changes nothing. The
   address may be bound as a holder any number of times: a holder cannot issue, update or revoke.
   */
  lemma {:induction false} Purge(d: Deployment, s: State, txs: seq<Tx>, c: Address)
    requires c != d.root && Outsider(s, c) && NeverDelegated(d, s, txs, c)
    ensures Run(d, s, txs) == Run(d, s, Without(txs, c))
    ensures Outsider(Run(d, s, txs), c)
  {
    if txs != [] {
      var before, last := txs[..|txs| - 1], txs[|txs| - 1];
      PrefixOfPrefix(txs, |txs| - 1);
      Purge(d, s, before, c);
      if last.sender == c {
        OutsiderReverts(d, Run(d, s, before), last);
      } else {
        var kept := Without(before, c);
        assert (kept + [last])[..|kept|] == kept;
        StepKeepsOutsider(d, Run(d, s, before), last, c);
      }
    }
  }

  // --------------------------------------------------------- provenance

  predicate TouchesDelegation(call: Call, c: Address) {
    Delegates(call, c) || (call.RevokeIssuer? && call.child == c)
  }

  /** The transaction at position j went through. */
  ghost predicate WentThrough(d: Deployment, txs: seq<Tx>, j: nat)
    requires j < |txs|
  {
    Fault(d, Run(d, INITIAL, txs[..j]), txs[j]).None?
  }

  /** Read off the log alone: before position n, the last word of the root about c was to grant g, at position j. */
  ghost predicate GrantStands(d: Deployment, txs: seq<Tx>, j: nat, n: nat, c: Address, g: DelegatedIssuer)
    requires n <= |txs|
  {
    && j < n && txs[j].sender == d.root && WentThrough(d, txs, j)
    && txs[j].call == (if g.subject == 0 then DelegateIssuer(c, g.scopeMask)
                       else DelegateIssuerFor(c, g.scopeMask, g.subject, g.skill, g.program, g.expiresAt))
    && forall k :: j < k < n && txs[k].sender == d.root && TouchesDelegation(txs[k].call, c) ==> !WentThrough(d, txs, k)
  }

  lemma PrefixOfPrefix(txs: seq<Tx>, n: nat)
    requires n <= |txs|
    ensures forall j :: 0 <= j <= n ==> txs[..n][..j] == txs[..j]
  {
  }

  /** Whatever delegation storage shows as active is a grant of the root that still stands in the log. */
  lemma {:induction false} ActiveDelegationWasGranted(d: Deployment, txs: seq<Tx>, c: Address)
    requires DelegationOf(Run(d, INITIAL, txs), c).active
    ensures exists j: nat :: GrantStands(d, txs, j, |txs|, c, DelegationOf(Run(d, INITIAL, txs), c))
  {
    if txs != [] {
      var n := |txs| - 1;
      var before, tx, s := txs[..n], txs[n], Run(d, INITIAL, txs[..n]);
      PrefixOfPrefix(txs, n);
      var g := DelegationOf(Run(d, INITIAL, txs), c);
      if WentThrough(d, txs, n) && TouchesDelegation(tx.call, c) {
        assert GrantStands(d, txs, n, |txs|, c, g);
      } else {
        assert DelegationOf(s, c) == g;
        ActiveDelegationWasGranted(d, before, c);
        var j: nat :| GrantStands(d, before, j, n, c, g);
        assert GrantStands(d, txs, j, |txs|, c, g);
      }
    }
  }

  /** The form in which each kind of grant is held. */
  ghost predicate GrantForm(g: DelegatedIssuer) {
    g.active && (g.subject == 0 ==> g == DelegatedIssuer(g.scopeMask, true, 0, 0, 0, 0))
  }

  /** Storage shows a delegation as active exactly when it is a grant of the root that stands in the log. */
  lemma {:induction false} ActiveDelegationIffGranted(d: Deployment, txs: seq<Tx>, c: Address, g: DelegatedIssuer)
    ensures DelegationOf(Run(d, INITIAL, txs), c) == g && g.active <==>
              GrantForm(g) && exists j: nat :: GrantStands(d, txs, j, |txs|, c, g)
  {
    if DelegationOf(Run(d, INITIAL, txs), c) == g && g.active {
      ActiveDelegationWasGranted(d, txs, c);
      ActiveHasGrantForm(d, txs, c);
    }
    forall j: nat | GrantForm(g) && GrantStands(d, txs, j, |txs|, c, g) ensures DelegationOf(Run(d, INITIAL, txs), c) == g {
      StandingGrantIsHeld(d, txs, j, c, g);
    }
  }

  lemma {:induction false} ActiveHasGrantForm(d: Deployment, txs: seq<Tx>, c: Address)
    ensures DelegationOf(Run(d, INITIAL, txs), c).active ==> GrantForm(DelegationOf(Run(d, INITIAL, txs), c))
  {
    if txs != [] {
      ActiveHasGrantForm(d, txs[..|txs| - 1], c);
    }
  }

  lemma {:induction false} StandingGrantIsHeld(d: Deployment, txs: seq<Tx>, j: nat, c: Address, g: DelegatedIssuer)
    requires GrantForm(g) && GrantStands(d, txs, j, |txs|, c, g)
    ensures DelegationOf(Run(d, INITIAL, txs), c) == g
  {
    var n := |txs| - 1;
    PrefixOfPrefix(txs, n);
    if j < n {
      assert GrantStands(d, txs[..n], j, n, c, g);
      StandingGrantIsHeld(d, txs[..n], j, c, g);
      assert txs[n].sender == d.root && TouchesDelegation(txs[n].call, c) ==> !WentThrough(d, txs, n);
    } else {
      assert WentThrough(d, txs, n);
    }
  }

  /** This transaction records r under this id. */
  ghost predicate Recording(d: Deployment, s: State, tx: Tx, id: Bytes32, r: Attestation) {
    var c := tx.call;
    && Fault(d, s, tx).None? && id !in s.book.records && tx.now == r.issuedAt && tx.sender == r.issuer
    && (c.AttestWithProof? || c.SupersedeWithProof?) && c.input.commitment == r.credential && d.proves(c.proof, c.input)
    && (if c.AttestWithProof? then
          && r.issuer != d.root && id == d.idOf(c.subject, c.credential)
          && r.subject == c.subject && r.credential == c.credential && r.evidence == c.evidence
          && r.program == c.program && r.scope == c.scope && r.skills == c.skills
        else
          && r.issuer == d.root && c.predecessor in s.book.records
          && var previous := s.book.records[c.predecessor];
             && previous.active && id == d.idOf(previous.subject, c.credential)
             && r.subject == previous.subject && r.skills == previous.skills && r.scope == previous.scope
             && r.credential == c.credential && r.evidence == c.evidence && r.program == c.program)
  }

  /** The transaction at position i recorded r under its id. */
  ghost predicate RecordedAt(d: Deployment, txs: seq<Tx>, i: nat, id: Bytes32, r: Attestation)
    requires i < |txs|
  {
    Recording(d, Run(d, INITIAL, txs[..i]), txs[i], id, r)
  }

  /** A replacement names as its predecessor the record its call named; an attested record has none. */
  ghost predicate LinkedBy(call: Call, b: Book, id: Bytes32) {
    if call.SupersedeWithProof? then id in b.predecessorOf && b.predecessorOf[id] == call.predecessor
    else id !in b.predecessorOf
  }

  /** Every record of every run has one recording call behind it, with a proof the verifier accepted. */
  lemma {:induction false} EveryRecordWasRecorded(d: Deployment, txs: seq<Tx>, id: Bytes32) returns (i: nat)
    requires d.Valid() && id in Run(d, INITIAL, txs).book.records
    ensures i < |txs| && RecordedAt(d, txs, i, id, Run(d, INITIAL, txs).book.records[id])
    ensures LinkedBy(txs[i].call, Run(d, INITIAL, txs).book, id)
  {
    var n := |txs| - 1;
    var before := txs[..n];
    var s := Run(d, INITIAL, before);
    PrefixOfPrefix(txs, n);
    if id in s.book.records {
      i := EveryRecordWasRecorded(d, before, id);
      StepKeepsRecording(d, s, txs[n], id);
    } else {
      i := n;
      ReachableSound(d, before);
      NewlyRecorded(d, s, txs[n], id);
    }
  }

  lemma StepKeepsRecording(d: Deployment, s: State, tx: Tx, id: Bytes32)
    requires id in s.book.records
    ensures var b, b' := s.book, Apply(d, s, tx).book;
      && id in b'.records && SameClaim(b.records[id], b'.records[id])
      && (forall call :: LinkedBy(call, b, id) ==> LinkedBy(call, b', id))
  {
  }

  lemma NewlyRecorded(d: Deployment, s: State, tx: Tx, id: Bytes32)
    requires LineageAgrees(d.root, s.book) && id !in s.book.records && id in Apply(d, s, tx).book.records
    ensures Recording(d, s, tx, id, Apply(d, s, tx).book.records[id])
    ensures LinkedBy(tx.call, Apply(d, s, tx).book, id)
  {
  }

  lemma AttestIsAllowed(d: Deployment, s: State, tx: Tx)
    requires tx.call.AttestWithProof? && Fault(d, s, tx).None?
    ensures Allows(DelegationOf(s, tx.sender), tx.call.scope, tx.now, tx.call.subject, tx.call.program, tx.call.skills)
  {
  }

  /**
   Every record the root did not issue was recorded by an issuer holding, at that moment, a
   delegation the root had granted and not taken back, and within what that delegation allowed.
   */
  lemma EveryRecordHasAuthority(d: Deployment, txs: seq<Tx>, id: Bytes32)
    requires d.Valid() && id in Run(d, INITIAL, txs).book.records
    requires Run(d, INITIAL, txs).book.records[id].issuer != d.root
    ensures var r := Run(d, INITIAL, txs).book.records[id];
      exists i: nat :: i < |txs| && RecordedAt(d, txs, i, id, r) && AttestedUnderGrant(d, txs, i)
  {
    var i := EveryRecordWasRecorded(d, txs, id);
    GrantBehindAttest(d, txs, i);
  }

  /** The call at position i was an attest within a grant that stood at that moment. */
  ghost predicate AttestedUnderGrant(d: Deployment, txs: seq<Tx>, i: nat)
    requires i < |txs|
  {
    var c := txs[i].call;
    && c.AttestWithProof?
    && exists j: nat, g :: GrantStands(d, txs, j, i, txs[i].sender, g) && Allows(g, c.scope, txs[i].now, c.subject, c.program, c.skills)
  }

  lemma GrantBehindAttest(d: Deployment, txs: seq<Tx>, i: nat)
    requires i < |txs| && WentThrough(d, txs, i) && txs[i].call.AttestWithProof?
    ensures AttestedUnderGrant(d, txs, i)
  {
    var s, c := Run(d, INITIAL, txs[..i]), txs[i].sender;
    var g := DelegationOf(s, c);
    AttestIsAllowed(d, s, txs[i]);
    ActiveDelegationWasGranted(d, txs[..i], c);
    var j: nat :| GrantStands(d, txs[..i], j, i, c, g);
    PrefixOfPrefix(txs, i);
    assert GrantStands(d, txs, j, i, c, g);
  }

  /** The root's own records are exactly the ones that replaced another. */
  lemma RootIssuesExactlyReplacements(d: Deployment, txs: seq<Tx>, id: Bytes32)
    requires d.Valid() && id in Run(d, INITIAL, txs).book.records
    ensures var b := Run(d, INITIAL, txs).book;
      && (b.records[id].issuer == d.root <==> id in b.predecessorOf)
      && (id in b.predecessorOf ==>
            b.predecessorOf[id] in b.records && Replaces(d.root, b.records[b.predecessorOf[id]], b.records[id]))
  {
    ReachableSound(d, txs);
  }

  /** The transaction at position i deactivated the record: a revocation by the root or its issuer, or the root's supersede. */
  ghost predicate DeactivatedAt(d: Deployment, txs: seq<Tx>, i: nat, id: Bytes32, r: Attestation)
    requires i < |txs|
  {
    && WentThrough(d, txs, i) && txs[i].now == r.revokedAt
    && match txs[i].call
       case RevokeAttestation(id') => id' == id && (txs[i].sender == d.root || txs[i].sender == r.issuer)
       case SupersedeWithProof(p, _, _, _, _, _) => p == id && txs[i].sender == d.root
       case _ => false
  }

  /** No record goes inactive by any other hand, and its revocation time is the time of that transaction. */
  lemma {:induction false} EveryDeactivationHasAuthority(d: Deployment, txs: seq<Tx>, id: Bytes32)
    requires id in Run(d, INITIAL, txs).book.records && !Run(d, INITIAL, txs).book.records[id].active
    ensures exists i: nat :: i < |txs| && DeactivatedAt(d, txs, i, id, Run(d, INITIAL, txs).book.records[id])
  {
    if txs != [] {
      var n := |txs| - 1;
      var before := txs[..n];
      var r := Run(d, INITIAL, txs).book.records[id];
      PrefixOfPrefix(txs, n);
      if id in Run(d, INITIAL, before).book.records && Run(d, INITIAL, before).book.records[id] == r {
        EveryDeactivationHasAuthority(d, before, id);
        var i: nat :| i < n && DeactivatedAt(d, before, i, id, r);
        assert DeactivatedAt(d, txs, i, id, r);
      } else {
        NewlyInactive(d, Run(d, INITIAL, before), txs[n], id);
        assert DeactivatedAt(d, txs, n, id, r);
      }
    }
  }

  lemma NewlyInactive(d: Deployment, s: State, tx: Tx, id: Bytes32)
    requires id in Apply(d, s, tx).book.records && !Apply(d, s, tx).book.records[id].active
    requires id in s.book.records ==> s.book.records[id] != Apply(d, s, tx).book.records[id]
    ensures var r := Apply(d, s, tx).book.records[id];
      && Fault(d, s, tx).None? && tx.now == r.revokedAt
      && match tx.call
         case RevokeAttestation(id') => id' == id && (tx.sender == d.root || tx.sender == r.issuer)
         case SupersedeWithProof(p, _, _, _, _, _) => p == id && tx.sender == d.root
         case _ => false
  {
  }

  // ---------------------------------------------------- holder stability

  /** The transaction at position i bound this holder to this record, within the rules. */
  ghost predicate BoundAt(d: Deployment, txs: seq<Tx>, i: nat, id: Bytes32, binding: HolderBinding)
    requires i < |txs|
  {
    var s := Run(d, INITIAL, txs[..i]);
    && WentThrough(d, txs, i) && txs[i].call == BindHolder(id, binding.holder, binding.expiresAt)
    && binding.holder != 0 && txs[i].now < binding.expiresAt
    && s.book.Active(id) && ManagesHolders(d, s, txs[i].sender, s.book.records[id])
  }

  /** Every active binding was made by a transaction naming that record; none is inherited. */
  lemma {:induction false} HolderWasBound(d: Deployment, txs: seq<Tx>, id: Bytes32)
    requires BindingOf(Run(d, INITIAL, txs), id).active
    ensures exists i: nat :: i < |txs| && BoundAt(d, txs, i, id, BindingOf(Run(d, INITIAL, txs), id))
  {
    if txs != [] {
      var n := |txs| - 1;
      var before, binding := txs[..n], BindingOf(Run(d, INITIAL, txs), id);
      PrefixOfPrefix(txs, n);
      if BindingOf(Run(d, INITIAL, before), id) == binding {
        HolderWasBound(d, before, id);
        var i: nat :| i < n && BoundAt(d, before, i, id, binding);
        assert BoundAt(d, txs, i, id, binding);
      } else {
        assert BoundAt(d, txs, n, id, binding);
      }
    }
  }

  /** The three calls that end a binding, when they go through. */
  ghost predicate EndsBinding(d: Deployment, s: State, tx: Tx, id: Bytes32) {
    && Fault(d, s, tx).None?
    && match tx.call
       case RevokeHolderBinding(id') => id' == id
       case RevokeAttestation(id') => id' == id
       case SupersedeWithProof(p, _, _, _, _, _) => p == id
       case _ => false
  }

  /** A live binding survives a transaction exactly when that transaction is not one of the three. */
  lemma HolderSurvivesStepIff(d: Deployment, s: State, tx: Tx, id: Bytes32, holder: Address, later: Timestamp)
    requires IsHolderAuthorized(s, id, holder, tx.now) && later < BindingOf(s, id).expiresAt
    ensures IsHolderAuthorized(Apply(d, s, tx), id, holder, later) <==> !EndsBinding(d, s, tx, id)
    ensures !EndsBinding(d, s, tx, id) ==> BindingOf(Apply(d, s, tx), id) == BindingOf(s, id)
  {
  }

  /**
   Once a holder is authorized, nobody can replace it or cut it short, over any run up to the expiry
   of the binding, except by revoking that binding or revoking or superseding that attestation.
   */
  lemma {:induction false} HolderIsStable(d: Deployment, s: State, txs: seq<Tx>, id: Bytes32, holder: Address,
                                          now: Timestamp, later: Timestamp)
    requires IsHolderAuthorized(s, id, holder, now)
    requires forall i :: 0 <= i < |txs| ==> txs[i].now < BindingOf(s, id).expiresAt
    requires forall i :: 0 <= i < |txs| ==> !EndsBinding(d, Run(d, s, txs[..i]), txs[i], id)
    requires later < BindingOf(s, id).expiresAt
    ensures IsHolderAuthorized(Run(d, s, txs), id, holder, later)
    ensures BindingOf(Run(d, s, txs), id) == BindingOf(s, id)
  {
    if txs != [] {
      var n := |txs| - 1;
      PrefixOfPrefix(txs, n);
      HolderIsStable(d, s, txs[..n], id, holder, now, txs[n].now);
      HolderSurvivesStepIff(d, Run(d, s, txs[..n]), txs[n], id, holder, later);
    }
  }

  /** A successor is born without a holder, whatever its predecessor had. */
  lemma SuccessorStartsUnbound(d: Deployment, s: State, tx: Tx, holder: Address, now: Timestamp)
    requires d.Valid() && Sound(d, s) && tx.call.SupersedeWithProof? && Fault(d, s, tx).None?
    ensures var p := tx.call.predecessor;
      var s' := Apply(d, s, tx);
      && p in s'.book.successorOf && s'.book.IsCurrent(s'.book.successorOf[p]) && !s'.book.IsCurrent(p)
      && !IsHolderAuthorized(s', s'.book.successorOf[p], holder, now)
      && !IsHolderAuthorized(s', p, holder, now)
  {
    SupersedeLeavesTip(d, s, tx);
  }

  lemma SupersedeLeavesTip(d: Deployment, s: State, tx: Tx)
    requires LineageAgrees(d.root, s.book) && tx.call.SupersedeWithProof? && Fault(d, s, tx).None?
    ensures var p := tx.call.predecessor;
      var s' := Apply(d, s, tx);
      && p in s.book.records && p in s'.book.successorOf && s'.book.successorOf[p] !in s.book.records
      && s'.book.IsCurrent(s'.book.successorOf[p]) && !s'.book.Active(p) && s'.holders == s.holders
  {
  }

  // --------------------------------------------------- issuer revocation

  /** The delegation gives c the scope bit. */
  predicate HasScope(s: State, c: Address, scope: Scope) {
    DelegationOf(s, c).active && Covers(DelegationOf(s, c).scopeMask, scope)
  }

  predicate GrantsScope(call: Call, c: Address, scope: Scope) {
    match call
    case DelegateIssuer(child, mask) => child == c && Covers(mask, scope)
    case DelegateIssuerFor(child, mask, _, _, _, _) => child == c && Covers(mask, scope)
    case _ => false
  }

  /** No call that gives c the scope goes through; anybody may try and revert. */
  ghost predicate NeverGranted(d: Deployment, s: State, txs: seq<Tx>, c: Address, scope: Scope) {
    forall i :: 0 <= i < |txs| && GrantsScope(txs[i].call, c, scope) ==> Fault(d, Run(d, s, txs[..i]), txs[i]).Some?
  }

  lemma {:induction false} ScopeStaysLost(d: Deployment, s: State, txs: seq<Tx>, c: Address, scope: Scope)
    requires !HasScope(s, c, scope) && NeverGranted(d, s, txs, c, scope)
    ensures !HasScope(Run(d, s, txs), c, scope)
  {
    if txs != [] {
      PrefixOfPrefix(txs, |txs| - 1);
      ScopeStaysLost(d, s, txs[..|txs| - 1], c, scope);
    }
  }

  ghost predicate Powerless(d: Deployment, s: State, c: Address, scope: Scope) {
    RecordsUnverified(d, s, c, scope) && CannotAttest(d, s, c, scope) && CannotManageHolders(d, s, c, scope)
  }

  ghost predicate RecordsUnverified(d: Deployment, s: State, c: Address, scope: Scope) {
    forall id, evidence | id in s.book.records && s.book.records[id].issuer == c && s.book.records[id].scope == scope ::
      !VerifyAttestation(d, s, id, evidence)
  }

  ghost predicate CannotAttest(d: Deployment, s: State, c: Address, scope: Scope) {
    forall tx: Tx | tx.sender == c && tx.call.AttestWithProof? && tx.call.scope == scope ::
      Fault(d, s, tx) == Some(UnauthorizedIssuer(c, scope))
  }

  ghost predicate CannotManageHolders(d: Deployment, s: State, c: Address, scope: Scope) {
    forall tx: Tx | tx.sender == c && (tx.call.BindHolder? || tx.call.RevokeHolderBinding?) ::
      tx.call.id in s.book.records && s.book.records[tx.call.id].scope == scope ==> Fault(d, s, tx).Some?
  }

  lemma ScopelessCannotAttest(d: Deployment, s: State, c: Address, scope: Scope)
    requires c != d.root && !HasScope(s, c, scope)
    ensures RecordsUnverified(d, s, c, scope) && CannotAttest(d, s, c, scope)
  {
  }

  lemma ScopelessCannotManageHolders(d: Deployment, s: State, c: Address, scope: Scope)
    requires c != d.root && !HasScope(s, c, scope)
    ensures CannotManageHolders(d, s, c, scope)
  {
  }

  /**
   After revokeIssuer(c), and until c is delegated the scope again: every record of c in that scope
   fails verification, and c can neither attest in it nor manage the holders of such records.
   */
  lemma RevokedIssuerIsPowerless(d: Deployment, s: State, revoke: Tx, txs: seq<Tx>, c: Address, scope: Scope)
    requires revoke.call == RevokeIssuer(c) && revoke.sender == d.root && c != d.root
    requires NeverGranted(d, Apply(d, s, revoke), txs, c, scope)
    ensures Powerless(d, Run(d, Apply(d, s, revoke), txs), c, scope)
  {
    ScopeStaysLost(d, Apply(d, s, revoke), txs, c, scope);
    ScopelessCannotAttest(d, Run(d, Apply(d, s, revoke), txs), c, scope);
    ScopelessCannotManageHolders(d, Run(d, Apply(d, s, revoke), txs), c, scope);
  }

  /** The call itself leaves the verification of everybody else's records as it was. */
  lemma RevocationIsLocal(d: Deployment, s: State, revoke: Tx, c: Address, id: Bytes32, evidence: Bytes32)
    requires revoke.call == RevokeIssuer(c)
    requires id in s.book.records && s.book.records[id].issuer != c
    ensures VerifyAttestation(d, Apply(d, s, revoke), id, evidence) == VerifyAttestation(d, s, id, evidence)
  {
  }
}
