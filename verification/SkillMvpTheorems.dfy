/** What every run of SkillMVPRegistry keeps. */
module SkillMvpTheorems {
  import opened Evm
  import opened RecordBook
  import opened LineageLedger
  import opened SkillMvpModel

  ghost predicate IdsDerived(d: MvpDeployment, s: MvpState) {
    forall id :: id in s.attestations ==>
      id == d.idOf(s.attestations[id].subject, s.attestations[id].skill, s.attestations[id].program, s.attestations[id].evidence)
  }

  ghost predicate HoldersKnown(s: MvpState) {
    forall id :: id in s.holders ==> id in s.attestations && (s.holders[id].active ==> s.holders[id].holder != 0)
  }

  lemma KnownStaysKnown(d: MvpDeployment, s: MvpState, tx: MvpTx)
    ensures s.attestations.Keys <= Apply(d, s, tx).attestations.Keys
  {
  }

  ghost predicate Sound(d: MvpDeployment, s: MvpState) {
    Consistent(d.root, s.Book()) && IdsDerived(d, s) && HoldersKnown(s)
  }

  lemma StepEditIsPossible(d: MvpDeployment, s: MvpState, tx: MvpTx)
    requires d.Valid() && RecordsSound(s.Book())
    ensures Possible(d.root, s.Book(), StepEdit(d, s, tx))
  {
  }

  /** The concrete step, seen through the book, is the edit. */
  lemma StepIsEdit(d: MvpDeployment, s: MvpState, tx: MvpTx)
    ensures var e := StepEdit(d, s, tx);
      && (e.Extended? ==> e.predecessor in s.Book().records) && (e.Closed? ==> e.id in s.Book().records)
      && Apply(d, s, tx).Book() == Edited(s.Book(), e)
  {
    if Fault(d, s, tx).None? {
      match tx.call
      case Attest(subject, skill, program, evidence) =>
        var id := d.idOf(subject, skill, program, evidence);
        SeenUpdated(s.attestations, id, MvpAttestation(subject, skill, program, evidence, tx.sender, tx.now, 0, true));
        OneSkillPointing(s.index, subject, skill, id);
      case Supersede(p, program, evidence) =>
        var r, id := s.attestations[p], SuccessorId(d, s, tx.call);
        var r' := MvpAttestation(r.subject, r.skill, program, evidence, d.root, tx.now, 0, true);
        SeenUpdated(s.attestations, id, r');
        SeenUpdated(s.attestations[id := r'], p, r.(active := false, revokedAt := tx.now));
        OneSkillPointing(s.index, r.subject, r.skill, id);
      case RevokeAttestation(id) =>
        var r := s.attestations[id];
        SeenUpdated(s.attestations, id, r.(active := false, revokedAt := tx.now));
        OneSkillCleared(s.index, r.subject, r.skill, id);
      case _ =>
    }
  }

  lemma SeenUpdated(table: map<Bytes32, MvpAttestation>, id: Bytes32, r: MvpAttestation)
    ensures SeenAll(table[id := r]) == SeenAll(table)[id := Seen(r)]
  {
  }

  lemma OneSkillPointing(index: map<Slot, Bytes32>, subject: Bytes32, skill: Bytes32, id: Bytes32)
    ensures Pointing(index, subject, [skill], id) == index[(subject, skill) := id]
  {
  }

  lemma OneSkillCleared(index: map<Slot, Bytes32>, subject: Bytes32, skill: Bytes32, id: Bytes32)
    ensures Cleared(index, subject, [skill], id) ==
              if (subject, skill) in index && index[(subject, skill)] == id then index - {(subject, skill)} else index
  {
  }

  lemma StepSound(d: MvpDeployment, s: MvpState, tx: MvpTx)
    requires d.Valid() && Sound(d, s)
    ensures Sound(d, Apply(d, s, tx)) && Grows(s.Book(), Apply(d, s, tx).Book())
  {
    StepEditIsPossible(d, s, tx);
    StepIsEdit(d, s, tx);
    EditKeepsConsistent(d.root, s.Book(), StepEdit(d, s, tx));
    EditGrows(d.root, s.Book(), StepEdit(d, s, tx));
    StepKeepsIds(d, s, tx);
    StepKeepsHolders(d, s, tx);
  }

  lemma StepKeepsIds(d: MvpDeployment, s: MvpState, tx: MvpTx)
    requires IdsDerived(d, s)
    ensures IdsDerived(d, Apply(d, s, tx))
  {
  }

  lemma StepKeepsHolders(d: MvpDeployment, s: MvpState, tx: MvpTx)
    requires HoldersKnown(s)
    ensures HoldersKnown(Apply(d, s, tx))
  {
    KnownStaysKnown(d, s, tx);
  }

  lemma {:induction false} RunSound(d: MvpDeployment, s: MvpState, txs: seq<MvpTx>)
    requires d.Valid() && Sound(d, s)
    ensures Sound(d, Run(d, s, txs)) && Grows(s.Book(), Run(d, s, txs).Book())
  {
    if txs != [] {
      var before := Run(d, s, txs[..|txs| - 1]);
      RunSound(d, s, txs[..|txs| - 1]);
      StepSound(d, before, txs[|txs| - 1]);
      GrowsTransitive(s.Book(), before.Book(), Run(d, s, txs).Book());
    }
  }

  lemma ReachableSound(d: MvpDeployment, txs: seq<MvpTx>)
    requires d.Valid()
    ensures Sound(d, Run(d, MVP_INITIAL, txs))
  {
    RunSound(d, MVP_INITIAL, txs);
  }

  // -------------------------------------------------- ledger refinement

  function LedgerOf(d: MvpDeployment, txs: seq<MvpTx>): Ledger {
    if txs == [] then []
    else
      var before := txs[..|txs| - 1];
      Noted(LedgerOf(d, before), StepEdit(d, Run(d, MVP_INITIAL, before), txs[|txs| - 1]))
  }

  /** This registry too refines the ledger of disjoint chains, one move a transaction. */
  lemma {:induction false} RunRefinesLedger(d: MvpDeployment, txs: seq<MvpTx>)
    requires d.Valid()
    ensures Represents(Run(d, MVP_INITIAL, txs).Book(), LedgerOf(d, txs))
    ensures txs != [] ==>
      var before := txs[..|txs| - 1];
      Move(LedgerOf(d, before), StepEdit(d, Run(d, MVP_INITIAL, before), txs[|txs| - 1]), LedgerOf(d, txs))
  {
    if txs != [] {
      var before, tx := txs[..|txs| - 1], txs[|txs| - 1];
      var s := Run(d, MVP_INITIAL, before);
      RunRefinesLedger(d, before);
      ReachableSound(d, before);
      StepEditIsPossible(d, s, tx);
      StepIsEdit(d, s, tx);
      EditIsMove(d.root, s.Book(), LedgerOf(d, before), StepEdit(d, s, tx));
    }
  }

  lemma ReadBackLedger(d: MvpDeployment, txs: seq<MvpTx>)
    requires d.Valid()
    ensures ReadsBackAs(Run(d, MVP_INITIAL, txs).Book(), LedgerOf(d, txs))
  {
    RunRefinesLedger(d, txs);
    ReachableSound(d, txs);
    RebuiltChainsAreTheLedger(d.root, Run(d, MVP_INITIAL, txs).Book(), LedgerOf(d, txs));
  }

  // --------------------------------------------------------- permanence

  /** Records keep their claim for ever, current means active, and what is not current never is again. */
  lemma RecordsArePermanent(d: MvpDeployment, earlier: seq<MvpTx>, later: seq<MvpTx>, id: Bytes32)
    requires d.Valid() && id in Run(d, MVP_INITIAL, earlier).attestations
    ensures var s := Run(d, MVP_INITIAL, earlier);
      var s' := Run(d, s, later);
      && id in s'.attestations
      && s'.attestations[id] == s.attestations[id].(active := s'.attestations[id].active, revokedAt := s'.attestations[id].revokedAt)
      && (s.Book().IsCurrent(id) <==> s.attestations[id].active)
      && (!s.Book().IsCurrent(id) ==> !s'.Book().IsCurrent(id) && s'.attestations[id].revokedAt == s.attestations[id].revokedAt != 0)
      && (id in s.successorOf ==> id in s'.successorOf && s'.successorOf[id] == s.successorOf[id])
  {
    var s := Run(d, MVP_INITIAL, earlier);
    var s' := Run(d, s, later);
    ReachableSound(d, earlier);
    RunSound(d, s, later);
    CurrentIffActive(d.root, s.Book(), id);
    assert id in s.Book().records && SameClaim(s.Book().records[id], s'.Book().records[id]);
    assert [s.attestations[id].skill][0] == [s'.attestations[id].skill][0];
    assert SoundRecord(id, s.Book().records[id]);
    assert id in s.Book().successorOf ==> id in s'.Book().successorOf;
  }

  // --------------------------------------------------------- provenance

  /** Read off the log: before position n the last word of the root about c was to grant g, at position j. */
  ghost predicate GrantStands(d: MvpDeployment, txs: seq<MvpTx>, j: nat, n: nat, c: Address, g: MvpDelegation)
    requires n <= |txs|
  {
    && j < n && txs[j].sender == d.root && WentThrough(d, txs, j)
    && txs[j].call == MvpCall.DelegateIssuerFor(c, g.subject, g.skill, g.program, g.expiresAt)
    && forall k :: j < k < n && WentThrough(d, txs, k) ==> !TouchesDelegation(txs[k].call, c)
  }

  ghost predicate WentThrough(d: MvpDeployment, txs: seq<MvpTx>, j: nat)
    requires j < |txs|
  {
    Fault(d, Run(d, MVP_INITIAL, txs[..j]), txs[j]).None?
  }

  predicate TouchesDelegation(call: MvpCall, c: Address) {
    (call.DelegateIssuerFor? || call.RevokeIssuer?) && call.child == c
  }

  lemma PrefixOfPrefix(txs: seq<MvpTx>, n: nat)
    requires n <= |txs|
    ensures forall j :: 0 <= j <= n ==> txs[..n][..j] == txs[..j]
  {
  }

  lemma {:induction false} ActiveDelegationWasGranted(d: MvpDeployment, txs: seq<MvpTx>, c: Address)
    requires DelegationOf(Run(d, MVP_INITIAL, txs), c).active
    ensures exists j: nat :: GrantStands(d, txs, j, |txs|, c, DelegationOf(Run(d, MVP_INITIAL, txs), c))
  {
    if txs != [] {
      var n := |txs| - 1;
      var before, g := txs[..n], DelegationOf(Run(d, MVP_INITIAL, txs), c);
      PrefixOfPrefix(txs, n);
      if WentThrough(d, txs, n) && TouchesDelegation(txs[n].call, c) {
        assert GrantStands(d, txs, n, |txs|, c, g);
      } else {
        assert DelegationOf(Run(d, MVP_INITIAL, before), c) == g;
        ActiveDelegationWasGranted(d, before, c);
        var j: nat :| GrantStands(d, before, j, n, c, g);
        assert GrantStands(d, txs, j, |txs|, c, g);
      }
    }
  }

  /** The transaction at position i attested r under a grant to its issuer that stood and covered it. */
  ghost predicate AttestedUnderGrant(d: MvpDeployment, txs: seq<MvpTx>, i: nat, r: MvpAttestation)
    requires i < |txs|
  {
    && WentThrough(d, txs, i) && txs[i].sender == r.issuer && txs[i].now == r.issuedAt
    && txs[i].call == MvpCall.Attest(r.subject, r.skill, r.program, r.evidence)
    && exists j: nat :: j < i && txs[j].call.DelegateIssuerFor? && r.issuedAt < txs[j].call.expiresAt
         && GrantStands(d, txs, j, i, r.issuer, MvpDelegation(r.subject, r.skill, r.program, txs[j].call.expiresAt, true))
  }

  lemma AttestHasGrant(d: MvpDeployment, txs: seq<MvpTx>, i: nat, r: MvpAttestation)
    requires i < |txs| && WentThrough(d, txs, i) && txs[i].sender == r.issuer && txs[i].now == r.issuedAt
    requires txs[i].call == MvpCall.Attest(r.subject, r.skill, r.program, r.evidence)
    ensures AttestedUnderGrant(d, txs, i, r)
  {
    var g := DelegationOf(Run(d, MVP_INITIAL, txs[..i]), r.issuer);
    ActiveDelegationWasGranted(d, txs[..i], r.issuer);
    var j: nat :| GrantStands(d, txs[..i], j, i, r.issuer, g);
    PrefixOfPrefix(txs, i);
    assert GrantStands(d, txs, j, i, r.issuer, g);
  }

  /**
   Every record that replaces no other was attested by its issuer under a grant of the root that still
   stood, for exactly this learner, skill and program, before its expiry.
   */
  lemma {:induction false} EveryRecordHasAuthority(d: MvpDeployment, txs: seq<MvpTx>, id: Bytes32)
    requires d.Valid() && id in Run(d, MVP_INITIAL, txs).attestations && id !in Run(d, MVP_INITIAL, txs).predecessorOf
    ensures exists i: nat :: i < |txs| &&
              var r := Run(d, MVP_INITIAL, txs).attestations[id]; AttestedUnderGrant(d, txs, i, r.(active := true, revokedAt := 0))
  {
    var n := |txs| - 1;
    var before, s, s' := txs[..n], Run(d, MVP_INITIAL, txs[..n]), Run(d, MVP_INITIAL, txs);
    PrefixOfPrefix(txs, n);
    var r := s'.attestations[id].(active := true, revokedAt := 0);
    FirstWritten(d, s, txs[n], id);
    if id in s.attestations {
      EveryRecordHasAuthority(d, before, id);
      var i: nat :| i < n && AttestedUnderGrant(d, before, i, r);
      AttestHasGrant(d, txs, i, r);
    } else {
      AttestHasGrant(d, txs, n, r);
    }
  }

  lemma FirstWritten(d: MvpDeployment, s: MvpState, tx: MvpTx, id: Bytes32)
    requires id in Apply(d, s, tx).attestations && id !in Apply(d, s, tx).predecessorOf
    ensures id !in s.predecessorOf
    ensures var r := Apply(d, s, tx).attestations[id];
      if id in s.attestations then r.(active := true, revokedAt := 0) == s.attestations[id].(active := true, revokedAt := 0)
      else Fault(d, s, tx).None? && tx.sender == r.issuer && tx.now == r.issuedAt
           && tx.call == MvpCall.Attest(r.subject, r.skill, r.program, r.evidence)
  {
  }

  // -------------------------------------------------------------- purge

  function Without(txs: seq<MvpTx>, c: Address): seq<MvpTx> {
    if txs == [] then []
    else
      var rest, last := Without(txs[..|txs| - 1], c), txs[|txs| - 1];
      if last.sender == c then rest else rest + [last]
  }

  /** No delegation to c goes through; anybody may try and revert. */
  ghost predicate NeverDelegated(d: MvpDeployment, s: MvpState, txs: seq<MvpTx>, c: Address) {
    forall i :: 0 <= i < |txs| && txs[i].call.DelegateIssuerFor? && Fault(d, Run(d, s, txs[..i]), txs[i]).None? ==>
      txs[i].call.child != c
  }

  ghost predicate Outsider(s: MvpState, c: Address) {
    !DelegationOf(s, c).active && forall id :: id in s.attestations ==> s.attestations[id].issuer != c
  }

  /** Transactions of an address the root never delegates to, holder or not, leave no trace. */
  lemma {:induction false} Purge(d: MvpDeployment, s: MvpState, txs: seq<MvpTx>, c: Address)
    requires c != d.root && Outsider(s, c) && NeverDelegated(d, s, txs, c)
    ensures Run(d, s, txs) == Run(d, s, Without(txs, c))
    ensures Outsider(Run(d, s, txs), c)
  {
    if txs != [] {
      var before, last := txs[..|txs| - 1], txs[|txs| - 1];
      PrefixOfPrefix(txs, |txs| - 1);
      Purge(d, s, before, c);
      var kept := Without(before, c);
      assert (kept + [last])[..|kept|] == kept;
      StepByOthersKeepsOutsider(d, Run(d, s, before), last, c);
    }
  }

  lemma StepByOthersKeepsOutsider(d: MvpDeployment, s: MvpState, tx: MvpTx, c: Address)
    requires Outsider(s, c) && c != d.root
    requires tx.call.DelegateIssuerFor? && Fault(d, s, tx).None? ==> tx.call.child != c
    ensures Outsider(Apply(d, s, tx), c)
    ensures tx.sender == c ==> Fault(d, s, tx).Some?
  {
  }

  // ------------------------------------------- who issues root records

  ghost predicate RootAttested(d: MvpDeployment, txs: seq<MvpTx>, i: nat)
    requires i < |txs|
  {
    txs[i].sender == d.root && txs[i].call.Attest? && WentThrough(d, txs, i)
  }

  ghost predicate NoRootAttest(d: MvpDeployment, txs: seq<MvpTx>) {
    forall i :: 0 <= i < |txs| ==> !RootAttested(d, txs, i)
  }

  lemma NoRootAttestStep(d: MvpDeployment, txs: seq<MvpTx>)
    requires txs != []
    ensures var n := |txs| - 1; NoRootAttest(d, txs) <==> NoRootAttest(d, txs[..n]) && !RootAttested(d, txs, n)
  {
    var n := |txs| - 1;
    PrefixOfPrefix(txs, n);
    assert forall i :: 0 <= i < n ==> RootAttested(d, txs, i) == RootAttested(d, txs[..n], i);
  }

  /**
   The exact condition for the root to have issued just the records that replace another, as it
   always does in the larger registry: no attest sent by the root itself ever went through.
   */
  lemma {:induction false} RootIssuesReplacementsIff(d: MvpDeployment, txs: seq<MvpTx>)
    requires d.Valid()
    ensures RootReplaces(d.root, Run(d, MVP_INITIAL, txs).Book()) <==> NoRootAttest(d, txs)
  {
    if txs != [] {
      var before, last := txs[..|txs| - 1], txs[|txs| - 1];
      RootIssuesReplacementsIff(d, before);
      ReachableSound(d, before);
      StepRootReplacesIff(d, Run(d, MVP_INITIAL, before), last);
      NoRootAttestStep(d, txs);
    }
  }

  lemma StepRootReplacesIff(d: MvpDeployment, s: MvpState, tx: MvpTx)
    requires d.Valid() && Sound(d, s)
    ensures RootReplaces(d.root, Apply(d, s, tx).Book()) <==>
              RootReplaces(d.root, s.Book()) && !(tx.sender == d.root && tx.call.Attest? && Fault(d, s, tx).None?)
  {
    StepEditIsPossible(d, s, tx);
    StepIsEdit(d, s, tx);
    EditRootReplacesIff(d.root, s.Book(), StepEdit(d, s, tx));
    OpenedByRoot(d, s, tx);
  }

  lemma OpenedByRoot(d: MvpDeployment, s: MvpState, tx: MvpTx)
    ensures StepEdit(d, s, tx).Opened? && StepEdit(d, s, tx).record.issuer == d.root <==>
              tx.sender == d.root && tx.call.Attest? && Fault(d, s, tx).None?
  {
  }

  /** In particular it is so as long as no delegation of the root to itself goes through. */
  lemma RootIssuesReplacementsUnlessSelfDelegated(d: MvpDeployment, txs: seq<MvpTx>)
    requires d.Valid() && NeverDelegated(d, MVP_INITIAL, txs, d.root)
    ensures !DelegationOf(Run(d, MVP_INITIAL, txs), d.root).active
    ensures RootReplaces(d.root, Run(d, MVP_INITIAL, txs).Book())
  {
    RootIssuesReplacementsIff(d, txs);
    forall i | 0 <= i < |txs| ensures !RootAttested(d, txs, i) {
      PrefixOfPrefix(txs, i);
      NotSelfDelegated(d, txs[..i]);
    }
    NotSelfDelegated(d, txs);
  }

  lemma {:induction false} NotSelfDelegated(d: MvpDeployment, txs: seq<MvpTx>)
    requires NeverDelegated(d, MVP_INITIAL, txs, d.root)
    ensures !DelegationOf(Run(d, MVP_INITIAL, txs), d.root).active
  {
    if txs != [] {
      PrefixOfPrefix(txs, |txs| - 1);
      NotSelfDelegated(d, txs[..|txs| - 1]);
    }
  }

  /** The condition is needed: a root that delegates to itself can issue a record that replaces nothing. */
  lemma SelfDelegatedRootOpensAChain(d: MvpDeployment)
    requires d.Valid() && d.root != 0
    ensures var txs := [MvpTx(d.root, 1, MvpCall.DelegateIssuerFor(d.root, 1, 2, 3, 9)), MvpTx(d.root, 2, MvpCall.Attest(1, 2, 3, 4))];
      var s := Run(d, MVP_INITIAL, txs);
      var id := d.idOf(1, 2, 3, 4);
      id in s.attestations && s.attestations[id].issuer == d.root && id !in s.predecessorOf
  {
    var txs := [MvpTx(d.root, 1, MvpCall.DelegateIssuerFor(d.root, 1, 2, 3, 9)), MvpTx(d.root, 2, MvpCall.Attest(1, 2, 3, 4))];
    assert txs[..1] == [txs[0]] && txs[..1][..0] == [];
    assert Run(d, MVP_INITIAL, txs[..1]) == Apply(d, MVP_INITIAL, txs[0]);
  }

  // --------------------------------------------------- holder bindings

  /** The transaction at position i bound this holder to this record. */
  ghost predicate BoundAt(d: MvpDeployment, txs: seq<MvpTx>, i: nat, id: Bytes32, binding: HolderBinding)
    requires i < |txs|
  {
    var s := Run(d, MVP_INITIAL, txs[..i]);
    && Fault(d, s, txs[i]).None?
    && txs[i].call == MvpCall.BindHolder(id, binding.holder, binding.expiresAt)
    && binding.holder != 0 && txs[i].now < binding.expiresAt
    && s.Book().Active(id) && Manages(d, txs[i].sender, s.attestations[id])
  }

  /**
   A holder is only ever authorized on a record to which the root or that record's issuer bound it,
   by a transaction naming that record. In particular a successor inherits no holder.
   */
  lemma {:induction false} HolderWasBound(d: MvpDeployment, txs: seq<MvpTx>, id: Bytes32)
    requires BindingOf(Run(d, MVP_INITIAL, txs), id).active
    ensures exists i: nat :: i < |txs| && BoundAt(d, txs, i, id, BindingOf(Run(d, MVP_INITIAL, txs), id))
  {
    if txs != [] {
      var n := |txs| - 1;
      var before := txs[..n];
      assert forall j :: 0 <= j <= n ==> before[..j] == txs[..j];
      var binding := BindingOf(Run(d, MVP_INITIAL, txs), id);
      if BindingOf(Run(d, MVP_INITIAL, before), id) == binding {
        HolderWasBound(d, before, id);
        var i: nat :| i < |before| && BoundAt(d, before, i, id, binding);
        assert BoundAt(d, txs, i, id, binding);
      } else {
        NewBindingNamesIt(d, Run(d, MVP_INITIAL, before), txs[n], id);
        assert BoundAt(d, txs, n, id, binding);
      }
    }
  }

  lemma NewBindingNamesIt(d: MvpDeployment, s: MvpState, tx: MvpTx, id: Bytes32)
    requires BindingOf(Apply(d, s, tx), id).active && BindingOf(Apply(d, s, tx), id) != BindingOf(s, id)
    ensures var binding := BindingOf(Apply(d, s, tx), id);
      && Fault(d, s, tx).None? && tx.call == MvpCall.BindHolder(id, binding.holder, binding.expiresAt)
      && binding.holder != 0 && tx.now < binding.expiresAt
      && s.Book().Active(id) && Manages(d, tx.sender, s.attestations[id])
  {
  }
}
