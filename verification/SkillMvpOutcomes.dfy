/**
 Each call of SkillMVPRegistry from the outside: exactly when it goes through, and what a reader of
 the registry sees afterwards. Whenever it does not go through, nothing changes.
 */
module SkillMvpOutcomes {
  import opened Evm
  import opened RecordBook
  import opened SkillMvpModel
  import opened SkillMvpTheorems

  lemma RevertChangesNothing(d: MvpDeployment, s: MvpState, tx: MvpTx)
    ensures Fault(d, s, tx).Some? ==> Apply(d, s, tx) == s
  {
  }

  // --------------------------------------------------------- delegation

  lemma DelegateSucceedsIff(d: MvpDeployment, s: MvpState, tx: MvpTx)
    requires tx.call.DelegateIssuerFor?
    ensures var c := tx.call;
      && (Fault(d, s, tx).None? <==>
            tx.sender == d.root && 0 !in {c.child, c.subject, c.skill, c.program} && tx.now < c.expiresAt)
      && (Fault(d, s, tx).None? ==>
            Apply(d, s, tx) ==
              s.(delegated := s.delegated[c.child := MvpDelegation(c.subject, c.skill, c.program, c.expiresAt, true)]))
  {
  }

  /** This address may attest this learner, skill and program at this time. */
  ghost predicate MayAttest(s: MvpState, c: Address, now: Timestamp, subject: Bytes32, skill: Bytes32, program: Bytes32) {
    && c in s.delegated && s.delegated[c].active && now < s.delegated[c].expiresAt
    && s.delegated[c].subject == subject && s.delegated[c].skill == skill && s.delegated[c].program == program
  }

  /** Revoking an issuer takes every permission from that address and from no other, and nothing else changes. */
  lemma RevokeIssuerOutcome(d: MvpDeployment, s: MvpState, tx: MvpTx, c: Address, now: Timestamp,
                            subject: Bytes32, skill: Bytes32, program: Bytes32)
    requires tx.call.RevokeIssuer?
    ensures var s' := Apply(d, s, tx);
      && (Fault(d, s, tx).None? <==> tx.sender == d.root)
      && s' == s.(delegated := s'.delegated)
      && (MayAttest(s', c, now, subject, skill, program) <==>
            MayAttest(s, c, now, subject, skill, program) && !(tx.sender == d.root && c == tx.call.child))
  {
  }

  // ------------------------------------------------------------ records

  /** When an attest goes through: a standing matching grant, a fresh id, and no active record of that learner and skill. */
  lemma AttestSucceedsIff(d: MvpDeployment, s: MvpState, tx: MvpTx)
    requires d.Valid() && Sound(d, s) && tx.call.Attest?
    ensures var c := tx.call;
      Fault(d, s, tx).None? <==>
        && MayAttest(s, tx.sender, tx.now, c.subject, c.skill, c.program)
        && 0 !in {c.subject, c.skill, c.program, c.evidence}
        && d.idOf(c.subject, c.skill, c.program, c.evidence) !in s.attestations
        && forall id :: id in s.attestations && s.attestations[id].active ==>
             s.attestations[id].subject != c.subject || s.attestations[id].skill != c.skill
  {
    ActiveIffIndexed(d, s, tx.call.subject, tx.call.skill);
  }

  lemma ActiveIffIndexed(d: MvpDeployment, s: MvpState, subject: Bytes32, skill: Bytes32)
    requires Sound(d, s)
    ensures (subject, skill) in s.index <==>
              exists id :: id in s.attestations && s.attestations[id].active
                           && s.attestations[id].subject == subject && s.attestations[id].skill == skill
  {
    var b := s.Book();
    if (subject, skill) in s.index {
      assert b.Active(b.index[(subject, skill)]) && skill in b.records[b.index[(subject, skill)]].skills;
    }
    forall id | id in s.attestations && s.attestations[id].active && s.attestations[id].subject == subject && s.attestations[id].skill == skill
      ensures (subject, skill) in s.index
    {
      assert b.Active(id) && b.records[id].skills[0] == skill;
    }
  }

  /** A successful attest records exactly its arguments; the record is current and shown for its learner and skill. */
  lemma AttestOutcome(d: MvpDeployment, s: MvpState, tx: MvpTx)
    requires d.Valid() && Sound(d, s) && tx.call.Attest? && Fault(d, s, tx).None?
    ensures var c, s' := tx.call, Apply(d, s, tx);
      var id := d.idOf(c.subject, c.skill, c.program, c.evidence);
      && id in s'.attestations && s'.Book().IsCurrent(id)
      && s'.attestations[id] == MvpAttestation(c.subject, c.skill, c.program, c.evidence, tx.sender, tx.now, 0, true)
      && ShowsSkills(s'.Book(), c.subject, [c.skill], id) && OnlyChanges(s.Book(), s'.Book(), {id}, c.subject, [c.skill])
      && s'.delegated == s.delegated && s'.holders == s.holders
      && s'.successorOf == s.successorOf && s'.predecessorOf == s.predecessorOf
  {
    StepEditIsPossible(d, s, tx);
    StepIsEdit(d, s, tx);
    OpenedShows(d.root, s.Book(), StepEdit(d, s, tx));
  }

  /** When a supersede goes through: the root replaces an active record by one with a fresh id. */
  lemma SupersedeSucceedsIff(d: MvpDeployment, s: MvpState, tx: MvpTx)
    requires tx.call.Supersede?
    ensures Fault(d, s, tx).None? <==> tx.sender == d.root && Replaceable(d, s, tx.call.predecessor, tx.call.program, tx.call.evidence)
  {
  }

  /** An active record whose successor would carry a program and evidence and have an id nobody has. */
  predicate Replaceable(d: MvpDeployment, s: MvpState, p: Bytes32, program: Bytes32, evidence: Bytes32) {
    && p in s.attestations && s.attestations[p].active && program != 0 && evidence != 0
    && d.idOf(s.attestations[p].subject, s.attestations[p].skill, program, evidence) !in s.attestations
  }

  /** It hands learner and skill over to the new record, which the root issues and which alone is shown. */
  lemma SupersedeOutcome(d: MvpDeployment, s: MvpState, tx: MvpTx)
    requires d.Valid() && Sound(d, s) && tx.call.Supersede? && Fault(d, s, tx).None?
    ensures var c, s' := tx.call, Apply(d, s, tx);
      var p, r := c.predecessor, s.attestations[c.predecessor];
      var id := d.idOf(r.subject, r.skill, c.program, c.evidence);
      && p in s'.attestations && id in s'.attestations && s'.Book().IsCurrent(id) && !s'.Book().IsCurrent(p)
      && s'.attestations[p] == r.(active := false, revokedAt := tx.now)
      && s'.attestations[id] == MvpAttestation(r.subject, r.skill, c.program, c.evidence, d.root, tx.now, 0, true)
      && ShowsSkills(s'.Book(), r.subject, [r.skill], id) && OnlyChanges(s.Book(), s'.Book(), {p, id}, r.subject, [r.skill])
      && s'.successorOf == s.successorOf[p := id] && s'.predecessorOf == s.predecessorOf[id := p]
      && s'.delegated == s.delegated && s'.holders == s.holders
  {
    SupersedeWrites(d, s, tx);
    SupersedeShows(d, s, tx);
  }

  lemma SupersedeWrites(d: MvpDeployment, s: MvpState, tx: MvpTx)
    requires tx.call.Supersede? && Fault(d, s, tx).None?
    ensures var c, s' := tx.call, Apply(d, s, tx);
      var p, r := c.predecessor, s.attestations[c.predecessor];
      var id := d.idOf(r.subject, r.skill, c.program, c.evidence);
      && p in s'.attestations && id in s'.attestations
      && s'.attestations[p] == r.(active := false, revokedAt := tx.now)
      && s'.attestations[id] == MvpAttestation(r.subject, r.skill, c.program, c.evidence, d.root, tx.now, 0, true)
      && s'.successorOf == s.successorOf[p := id] && s'.predecessorOf == s.predecessorOf[id := p]
      && s'.delegated == s.delegated && s'.holders == s.holders
  {
  }

  lemma SupersedeShows(d: MvpDeployment, s: MvpState, tx: MvpTx)
    requires d.Valid() && Consistent(d.root, s.Book()) && tx.call.Supersede? && Fault(d, s, tx).None?
    ensures var p, r, b' := tx.call.predecessor, s.attestations[tx.call.predecessor], Apply(d, s, tx).Book();
      var id := SuccessorId(d, s, tx.call);
      && b'.IsCurrent(id) && !b'.IsCurrent(p)
      && ShowsSkills(b', r.subject, [r.skill], id) && OnlyChanges(s.Book(), b', {p, id}, r.subject, [r.skill])
  {
    StepEditIsPossible(d, s, tx);
    StepIsEdit(d, s, tx);
    ExtendedShows(d.root, s.Book(), StepEdit(d, s, tx));
  }

  /** When a revocation goes through: an active record, by the root or the record's own issuer. */
  lemma RevokeSucceedsIff(d: MvpDeployment, s: MvpState, tx: MvpTx)
    requires tx.call.RevokeAttestation?
    ensures Fault(d, s, tx).None? <==>
              tx.call.id in s.attestations && s.attestations[tx.call.id].active
              && tx.sender in {d.root, s.attestations[tx.call.id].issuer}
  {
  }

  /** It deactivates that record alone, and its skill is no longer shown. */
  lemma RevokeOutcome(d: MvpDeployment, s: MvpState, tx: MvpTx)
    requires d.Valid() && Sound(d, s) && tx.call.RevokeAttestation? && Fault(d, s, tx).None?
    ensures var id, s' := tx.call.id, Apply(d, s, tx);
      var r := s.attestations[id];
      && id in s'.attestations && s'.attestations[id] == r.(active := false, revokedAt := tx.now)
      && ShowsNoSkill(s'.Book(), r.subject, [r.skill]) && OnlyChanges(s.Book(), s'.Book(), {id}, r.subject, [r.skill])
      && s'.delegated == s.delegated && s'.holders == s.holders
      && s'.successorOf == s.successorOf && s'.predecessorOf == s.predecessorOf
  {
    StepEditIsPossible(d, s, tx);
    StepIsEdit(d, s, tx);
    ClosedShows(d.root, s.Book(), StepEdit(d, s, tx));
  }

  // ------------------------------------------------------------ holders

  /** When a holder is bound: an active record without live binding, by the root or that record's issuer. */
  lemma BindSucceedsIff(d: MvpDeployment, s: MvpState, tx: MvpTx)
    requires tx.call.BindHolder?
    ensures var id := tx.call.id;
      Fault(d, s, tx).None? <==>
        && id in s.attestations && s.attestations[id].active
        && tx.call.holder != 0 && tx.now < tx.call.expiresAt
        && tx.sender in {d.root, s.attestations[id].issuer}
        && !(id in s.holders && s.holders[id].active && tx.now < s.holders[id].expiresAt)
  {
  }

  /** From then on that holder, and nobody else, is authorized on that record, until the expiry. */
  lemma BindOutcome(d: MvpDeployment, s: MvpState, tx: MvpTx, id: Bytes32, holder: Address, t: Timestamp)
    requires tx.call.BindHolder? && Fault(d, s, tx).None?
    ensures var c, s' := tx.call, Apply(d, s, tx);
      && s'.Book() == s.Book() && s'.delegated == s.delegated
      && IsHolderAuthorized(s', id, holder, t) ==
           if id == c.id then holder == c.holder && t < c.expiresAt else IsHolderAuthorized(s, id, holder, t)
  {
  }

  /** When a binding is revoked: the record is known and the caller may manage it, even with nothing bound. */
  lemma UnbindSucceedsIff(d: MvpDeployment, s: MvpState, tx: MvpTx)
    requires tx.call.RevokeHolderBinding?
    ensures Fault(d, s, tx).None? <==>
              tx.call.id in s.attestations && tx.sender in {d.root, s.attestations[tx.call.id].issuer}
  {
  }

  /** From then on nobody is authorized on that record; everything else stays. */
  lemma UnbindOutcome(d: MvpDeployment, s: MvpState, tx: MvpTx, id: Bytes32, holder: Address, t: Timestamp)
    requires tx.call.RevokeHolderBinding? && Fault(d, s, tx).None?
    ensures var s' := Apply(d, s, tx);
      && s'.Book() == s.Book() && s'.delegated == s.delegated
      && IsHolderAuthorized(s', id, holder, t) == (id != tx.call.id && IsHolderAuthorized(s, id, holder, t))
  {
  }
}
