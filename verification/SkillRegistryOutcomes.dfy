/**
 Each call of SkillRegistry from the outside: exactly when it goes through, and what a reader of the
 registry sees afterwards. Whenever it does not go through, nothing changes.
 */
module SkillRegistryOutcomes {
  import opened Evm
  import opened RecordBook
  import opened SkillRegistryModel
  import opened SkillRegistryInvariants

  lemma RevertChangesNothing(d: Deployment, s: State, tx: Tx)
    ensures Fault(d, s, tx).Some? ==> Apply(d, s, tx) == s
  {
  }

  // --------------------------------------------------------- delegation

  lemma DelegateSucceedsIff(d: Deployment, s: State, tx: Tx)
    requires tx.call.DelegateIssuer?
    ensures var c := tx.call;
      && (Fault(d, s, tx).None? <==> tx.sender == d.root && c.child != 0 && c.scopeMask in {1, 2, 3})
      && (Fault(d, s, tx).None? ==>
            Apply(d, s, tx) == s.(delegated := s.delegated[c.child := DelegatedIssuer(c.scopeMask, true, 0, 0, 0, 0)]))
  {
  }

  lemma DelegateForSucceedsIff(d: Deployment, s: State, tx: Tx)
    requires tx.call.DelegateIssuerFor?
    ensures var c := tx.call;
      && (Fault(d, s, tx).None? <==>
            tx.sender == d.root && c.scopeMask in {1, 2, 3} && 0 !in {c.child, c.subject, c.skill, c.program} && tx.now < c.expiresAt)
      && (Fault(d, s, tx).None? ==>
            Apply(d, s, tx) ==
              s.(delegated := s.delegated[c.child := DelegatedIssuer(c.scopeMask, true, c.subject, c.skill, c.program, c.expiresAt)]))
  {
  }

  lemma RevokeIssuerSucceedsIff(d: Deployment, s: State, tx: Tx, other: Address, scope: Scope)
    requires tx.call.RevokeIssuer?
    ensures Fault(d, s, tx).None? <==> tx.sender == d.root
    ensures Fault(d, s, tx).None? ==>
      var s' := Apply(d, s, tx);
      && s'.book == s.book && s'.holders == s.holders
      && IsScopedIssuer(d, s', other, scope) ==
           if other == tx.call.child then other == d.root else IsScopedIssuer(d, s, other, scope)
  {
  }

  /** Public verification: the record is active, with that evidence, and its issuer is the root or now holds the scope bit. */
  lemma VerifyAttestationIff(d: Deployment, s: State, id: Bytes32, evidence: Bytes32)
    ensures VerifyAttestation(d, s, id, evidence) <==>
              id in s.book.records &&
              var r := s.book.records[id];
              r.active && r.evidence == evidence && (r.issuer == d.root || HoldsBit(s, r.issuer, r.scope))
  {
  }

  // ------------------------------------------------------------ records

  /** A successful attest records exactly its arguments, and the new record is current, verifiable and shown for each skill. */
  lemma AttestOutcome(d: Deployment, s: State, tx: Tx)
    requires d.Valid() && Sound(d, s) && tx.call.AttestWithProof? && Fault(d, s, tx).None?
    ensures var c, s' := tx.call, Apply(d, s, tx);
      var id := d.idOf(c.subject, c.credential);
      && id in s'.book.records && s'.book.IsCurrent(id)
      && s'.book.records[id] ==
           Attestation(c.subject, c.credential, c.evidence, c.program, tx.sender, c.scope, tx.now, 0, true, c.skills)
      && ShowsSkills(s'.book, c.subject, c.skills, id) && OnlyChanges(s.book, s'.book, {id}, c.subject, c.skills)
      && (forall evidence :: VerifyAttestation(d, s', id, evidence) <==> evidence == c.evidence)
      && s'.delegated == s.delegated && s'.holders == s.holders
      && s'.book.successorOf == s.book.successorOf && s'.book.predecessorOf == s.book.predecessorOf
  {
    StepEditIsPossible(d, s, tx);
    OpenedShows(d.root, s.book, EditOf(d, s, tx));
    AttestRecords(d, s, tx);
    AttestKeepsIssuer(d, s, tx);
  }

  lemma AttestRecords(d: Deployment, s: State, tx: Tx)
    requires tx.call.AttestWithProof? && Fault(d, s, tx).None?
    ensures var c, s' := tx.call, Apply(d, s, tx);
      var id := d.idOf(c.subject, c.credential);
      && id in s'.book.records
      && s'.book.records[id] ==
           Attestation(c.subject, c.credential, c.evidence, c.program, tx.sender, c.scope, tx.now, 0, true, c.skills)
      && s'.delegated == s.delegated && s'.holders == s.holders
      && s'.book.successorOf == s.book.successorOf && s'.book.predecessorOf == s.book.predecessorOf
  {
  }

  lemma AttestKeepsIssuer(d: Deployment, s: State, tx: Tx)
    requires tx.call.AttestWithProof? && Fault(d, s, tx).None?
    ensures IsScopedIssuer(d, Apply(d, s, tx), tx.sender, tx.call.scope)
  {
  }

  /** When a supersede goes through: the root replaces an active record by a fresh one with an accepted proof. */
  lemma SupersedeSucceedsIff(d: Deployment, s: State, tx: Tx)
    requires tx.call.SupersedeWithProof?
    ensures var c := tx.call;
      Fault(d, s, tx).None? <==>
        && tx.sender == d.root
        && c.predecessor in s.book.records && s.book.records[c.predecessor].active
        && 0 !in {c.credential, c.evidence, c.program}
        && c.input.commitment == c.credential && d.proves(c.proof, c.input)
        && forall id :: id in s.book.records ==> id != d.idOf(s.book.records[c.predecessor].subject, c.credential)
  {
  }

  /** It hands every skill over to the new record, which keeps subject, skills and scope, and it alone verifies. */
  lemma SupersedeOutcome(d: Deployment, s: State, tx: Tx)
    requires d.Valid() && Sound(d, s) && tx.call.SupersedeWithProof? && Fault(d, s, tx).None?
    ensures var c, s' := tx.call, Apply(d, s, tx);
      var p, r := c.predecessor, s.book.records[c.predecessor];
      var id := d.idOf(r.subject, c.credential);
      && p in s'.book.records && id in s'.book.records && s'.book.IsCurrent(id) && !s'.book.IsCurrent(p)
      && s'.book.records[p] == r.(active := false, revokedAt := tx.now)
      && s'.book.records[id] ==
           Attestation(r.subject, c.credential, c.evidence, c.program, d.root, r.scope, tx.now, 0, true, r.skills)
      && ShowsSkills(s'.book, r.subject, r.skills, id) && OnlyChanges(s.book, s'.book, {p, id}, r.subject, r.skills)
      && (forall evidence :: (VerifyAttestation(d, s', id, evidence) <==> evidence == c.evidence) && !VerifyAttestation(d, s', p, evidence))
      && s'.book.successorOf == s.book.successorOf[p := id] && s'.book.predecessorOf == s.book.predecessorOf[id := p]
      && s'.delegated == s.delegated && s'.holders == s.holders
  {
    StepEditIsPossible(d, s, tx);
    ExtendedShows(d.root, s.book, EditOf(d, s, tx));
  }

  /** When a revocation goes through: an active record, by the root or the record's own issuer. */
  lemma RevokeSucceedsIff(d: Deployment, s: State, tx: Tx)
    requires tx.call.RevokeAttestation?
    ensures Fault(d, s, tx).None? <==>
              tx.call.id in s.book.records && s.book.records[tx.call.id].active
              && tx.sender in {d.root, s.book.records[tx.call.id].issuer}
  {
  }

  /** It deactivates that record alone, and none of its skills is shown any more. */
  lemma RevokeOutcome(d: Deployment, s: State, tx: Tx)
    requires d.Valid() && Sound(d, s) && tx.call.RevokeAttestation? && Fault(d, s, tx).None?
    ensures var id, s' := tx.call.id, Apply(d, s, tx);
      var r := s.book.records[id];
      && id in s'.book.records && s'.book.records[id] == r.(active := false, revokedAt := tx.now)
      && ShowsNoSkill(s'.book, r.subject, r.skills) && OnlyChanges(s.book, s'.book, {id}, r.subject, r.skills)
      && (forall evidence :: !VerifyAttestation(d, s', id, evidence))
      && s'.delegated == s.delegated && s'.holders == s.holders
      && s'.book.successorOf == s.book.successorOf && s'.book.predecessorOf == s.book.predecessorOf
  {
    ClosedShows(d.root, s.book, EditOf(d, s, tx));
  }

  // ------------------------------------------------------------ holders

  /** When a holder is bound: an active record without live binding, by the root or by its issuer while it holds the scope bit. */
  lemma BindSucceedsIff(d: Deployment, s: State, tx: Tx)
    requires tx.call.BindHolder?
    ensures var id := tx.call.id;
      Fault(d, s, tx).None? <==>
        && id in s.book.records && s.book.records[id].active
        && tx.call.holder != 0 && tx.now < tx.call.expiresAt
        && ManagesHolders(d, s, tx.sender, s.book.records[id])
        && !(id in s.holders && s.holders[id].active && tx.now < s.holders[id].expiresAt)
  {
  }

  /** From then on that holder, and nobody else, is authorized on that record, until the expiry. */
  lemma BindOutcome(d: Deployment, s: State, tx: Tx, id: Bytes32, holder: Address, t: Timestamp)
    requires tx.call.BindHolder? && Fault(d, s, tx).None?
    ensures var c, s' := tx.call, Apply(d, s, tx);
      && s'.book == s.book && s'.delegated == s.delegated
      && IsHolderAuthorized(s', id, holder, t) ==
           if id == c.id then holder == c.holder && t < c.expiresAt else IsHolderAuthorized(s, id, holder, t)
  {
  }

  /** When a binding is revoked: there is an active one, and the caller is one who could have made it. */
  lemma UnbindSucceedsIff(d: Deployment, s: State, tx: Tx)
    requires tx.call.RevokeHolderBinding?
    ensures var id := tx.call.id;
      Fault(d, s, tx).None? <==>
        && id in s.book.records && ManagesHolders(d, s, tx.sender, s.book.records[id])
        && id in s.holders && s.holders[id].active
  {
  }

  /** From then on nobody is authorized on that record; everything else stays. */
  lemma UnbindOutcome(d: Deployment, s: State, tx: Tx, id: Bytes32, holder: Address, t: Timestamp)
    requires tx.call.RevokeHolderBinding? && Fault(d, s, tx).None?
    ensures var s' := Apply(d, s, tx);
      && s'.book == s.book && s'.delegated == s.delegated
      && IsHolderAuthorized(s', id, holder, t) == (id != tx.call.id && IsHolderAuthorized(s, id, holder, t))
  {
  }
}
