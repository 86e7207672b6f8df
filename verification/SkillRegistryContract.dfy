/** The contract: storage updated in place, loops that write as they check, rollback on revert. */
module SkillRegistryContract {
  import opened Evm
  import opened RecordBook
  import opened SkillRegistryModel

  class SkillRegistry {
    const deployment: Deployment

    var delegatedIssuers: map<Address, DelegatedIssuer>
    var attestations: map<Bytes32, Attestation>
    var holderBindings: map<Bytes32, HolderBinding>
    var activeSkillAttestation: map<Slot, Bytes32>
    var successorOf: map<Bytes32, Bytes32>
    var predecessorOf: map<Bytes32, Bytes32>

    function Storage(): State
      reads this
    {
      State(Book(attestations, activeSkillAttestation, successorOf, predecessorOf), delegatedIssuers, holderBindings)
    }

    constructor (deployment: Deployment)
      ensures this.deployment == deployment && Storage() == INITIAL
    {
      this.deployment := deployment;
      delegatedIssuers, attestations, holderBindings := map[], map[], map[];
      activeSkillAttestation, successorOf, predecessorOf := map[], map[], map[];
    }

    /** Deployment: the sender becomes the root, and a zero verifier address is refused. */
    static method Deploy(sender: Address, verifier: Address, idOf: (Bytes32, Bytes32) -> Bytes32,
                         verifiers: Address -> (seq<Bytes32>, PublicInput) -> bool)
      returns (registry: SkillRegistry?, error: Option<Error>)
      ensures verifier == 0 ==> registry == null && error == Some(InvalidAddress)
      ensures verifier != 0 ==>
                && error == None && registry != null && fresh(registry) && registry.Storage() == INITIAL
                && registry.deployment == Deployment(sender, idOf, verifiers(verifier))
    {
      if verifier == 0 { return null, Some(InvalidAddress); }
      registry := new SkillRegistry(Deployment(sender, idOf, verifiers(verifier)));
      error := None;
    }

    method DelegateIssuer(sender: Address, now: Timestamp, child: Address, scopeMask: Uint8) returns (error: Option<Error>)
      modifies this
      ensures var tx := Tx(sender, now, Call.DelegateIssuer(child, scopeMask));
        error == Fault(deployment, old(Storage()), tx) && Storage() == Apply(deployment, old(Storage()), tx)
    {
      if sender != deployment.root { return Some(OnlyRootIssuer); }
      if child == 0 || scopeMask == 0 || scopeMask > 3 { return Some(InvalidAddress); }
      delegatedIssuers := delegatedIssuers[child := DelegatedIssuer(scopeMask, true, 0, 0, 0, 0)];
      return None;
    }

    method DelegateIssuerFor(sender: Address, now: Timestamp, child: Address, scopeMask: Uint8,
                             subject: Bytes32, skill: Bytes32, program: Bytes32, expiresAt: Uint64)
      returns (error: Option<Error>)
      modifies this
      ensures var tx := Tx(sender, now, Call.DelegateIssuerFor(child, scopeMask, subject, skill, program, expiresAt));
        error == Fault(deployment, old(Storage()), tx) && Storage() == Apply(deployment, old(Storage()), tx)
    {
      if sender != deployment.root { return Some(OnlyRootIssuer); }
      if child == 0 || scopeMask == 0 || scopeMask > 3 || subject == 0 || skill == 0 || program == 0 || expiresAt <= now {
        return Some(InvalidDelegation);
      }
      delegatedIssuers := delegatedIssuers[child := DelegatedIssuer(scopeMask, true, subject, skill, program, expiresAt)];
      return None;
    }

    method RevokeIssuer(sender: Address, now: Timestamp, child: Address) returns (error: Option<Error>)
      modifies this
      ensures var tx := Tx(sender, now, Call.RevokeIssuer(child));
        error == Fault(deployment, old(Storage()), tx) && Storage() == Apply(deployment, old(Storage()), tx)
    {
      if sender != deployment.root { return Some(OnlyRootIssuer); }
      var issuer := DelegationOf(Storage(), child);
      issuer := issuer.(active := false);
      issuer := issuer.(scopeMask := 0);
      delegatedIssuers := delegatedIssuers[child := issuer];
      return None;
    }

    method AttestWithProof(sender: Address, now: Timestamp, subject: Bytes32, credential: Bytes32, evidence: Bytes32,
                           program: Bytes32, scope: Scope, skills: seq<Bytes32>, proof: seq<Bytes32>, input: PublicInput)
      returns (error: Option<Error>)
      modifies this
      ensures var tx := Tx(sender, now, Call.AttestWithProof(subject, credential, evidence, program, scope, skills, proof, input));
        error == Fault(deployment, old(Storage()), tx) && Storage() == Apply(deployment, old(Storage()), tx)
    {
      if sender == deployment.root { return Some(RootUpdateRequiresPredecessor); }
      if !IsScopedIssuer(deployment, Storage(), sender, scope) { return Some(UnauthorizedIssuer(sender, scope)); }
      var mismatch := RequireDelegationMatch(DelegationOf(Storage(), sender), sender, now, subject, program, skills);
      if mismatch.Some? { return mismatch; }
      if subject == 0 || credential == 0 || program == 0 || evidence == 0 { return Some(InvalidCommitment); }
      if |skills| == 0 { return Some(EmptySkills); }
      if input.commitment != credential { return Some(PublicCommitmentMismatch); }
      if !deployment.proves(proof, input) { return Some(ProofRejected); }
      var id := deployment.idOf(subject, credential);
      if id in attestations { return Some(DuplicateAttestation(id)); }

      error := RecordOrRollBack(id, Attestation(subject, credential, evidence, program, sender, scope, now, 0, true, []), skills);
    }

    /** The writes of attestWithProof. A revert half way through the loop undoes all of them. */
    method RecordOrRollBack(id: Bytes32, record: Attestation, skills: seq<Bytes32>) returns (error: Option<Error>)
      requires record.skills == []
      modifies this`attestations, this`activeSkillAttestation
      ensures error == SkillsFault(old(activeSkillAttestation), record.subject, skills)
      ensures error.Some? ==> attestations == old(attestations) && activeSkillAttestation == old(activeSkillAttestation)
      ensures error.None? ==>
                && attestations == old(attestations)[id := record.(skills := skills)]
                && activeSkillAttestation == Pointing(old(activeSkillAttestation), record.subject, skills, id)
    {
      var savedRecords, savedIndex := attestations, activeSkillAttestation;
      attestations := attestations[id := record];
      ghost var n;
      error, n := RecordSkills(id, record.subject, skills);
      FaultIsAt(savedIndex, record.subject, skills, n);
      if error.Some? {
        attestations, activeSkillAttestation := savedRecords, savedIndex;
      }
    }

    /**
     The recording loop. It stops at the first bad skill, at position n, and finds a repeated skill
     through the entries it has itself just written.
     */
    method RecordSkills(id: Bytes32, subject: Bytes32, skills: seq<Bytes32>) returns (error: Option<Error>, ghost n: nat)
      requires id in attestations && attestations[id].skills == []
      modifies this`attestations, this`activeSkillAttestation
      ensures n <= |skills| && CleanBefore(old(activeSkillAttestation), subject, skills, n)
      ensures error.None? <==> n == |skills|
      ensures error.Some? ==> BadSkill(old(activeSkillAttestation), subject, skills, n) && error.value == SkillError(subject, skills[n])
      ensures error.None? ==>
                && attestations == old(attestations)[id := old(attestations)[id].(skills := skills)]
                && activeSkillAttestation == Pointing(old(activeSkillAttestation), subject, skills, id)
    {
      ghost var records, index := attestations, activeSkillAttestation;
      var i := 0;
      while i < |skills|
        invariant 0 <= i <= |skills| && CleanBefore(index, subject, skills, i)
        invariant Listed(records, index, id, subject, skills[..i])
      {
        var skill := skills[i];
        PointingDomain(index, subject, skills[..i], id, skill);
        if skill == 0 { return Some(InvalidCommitment), i; }
        if (subject, skill) in activeSkillAttestation { return Some(SkillAlreadyActive(subject, skill)), i; }
        ListSkill(id, subject, skill, records, index, skills, i);
        i := i + 1;
      }
      assert skills[..i] == skills;
      return None, i;
    }

    /** How far a loop has come: the record lists these skills and the index names it for each. */
    ghost predicate Listed(records: map<Bytes32, Attestation>, index: map<Slot, Bytes32>, id: Bytes32, subject: Bytes32,
                           skills: seq<Bytes32>)
      requires id in records
      reads this
    {
      && attestations == records[id := records[id].(skills := skills)]
      && activeSkillAttestation == Pointing(index, subject, skills, id)
    }

    /** One turn of either loop: push the skill, then point the index at the record. */
    method ListSkill(id: Bytes32, subject: Bytes32, skill: Bytes32, ghost records: map<Bytes32, Attestation>,
                     ghost index: map<Slot, Bytes32>, ghost skills: seq<Bytes32>, ghost i: nat)
      requires id in records && i < |skills| && skill == skills[i] && Listed(records, index, id, subject, skills[..i])
      modifies this`attestations, this`activeSkillAttestation
      ensures Listed(records, index, id, subject, skills[..i + 1])
    {
      assert skills[..i + 1] == skills[..i] + [skill];
      PointingStep(index, subject, skills, i, id);
      LastUpdateWins(records, id, attestations[id], records[id].(skills := skills[..i + 1]));
      attestations := attestations[id := attestations[id].(skills := attestations[id].skills + [skill])];
      activeSkillAttestation := activeSkillAttestation[(subject, skill) := id];
    }

    method RequireDelegationMatch(delegation: DelegatedIssuer, issuer: Address, now: Timestamp, subject: Bytes32,
                                  program: Bytes32, skills: seq<Bytes32>)
      returns (error: Option<Error>)
      ensures error == MatchFault(delegation, issuer, now, subject, program, skills)
    {
      if delegation.subject == 0 { return None; }
      if now >= delegation.expiresAt { return Some(DelegationExpired(issuer)); }
      if delegation.subject != subject { return Some(DelegationSubjectMismatch(issuer)); }
      if delegation.program != program { return Some(DelegationProgramMismatch(issuer)); }
      if |skills| != 1 || skills[0] != delegation.skill { return Some(DelegationSkillMismatch(issuer)); }
      return None;
    }

    method SupersedeWithProof(sender: Address, now: Timestamp, predecessor: Bytes32, credential: Bytes32,
                              evidence: Bytes32, program: Bytes32, proof: seq<Bytes32>, input: PublicInput)
      returns (error: Option<Error>)
      modifies this
      ensures var tx := Tx(sender, now, Call.SupersedeWithProof(predecessor, credential, evidence, program, proof, input));
        error == Fault(deployment, old(Storage()), tx) && Storage() == Apply(deployment, old(Storage()), tx)
    {
      if sender != deployment.root { return Some(OnlyRootIssuer); }
      if predecessor !in attestations { return Some(UnknownAttestation(predecessor)); }
      if !attestations[predecessor].active { return Some(AlreadyRevoked(predecessor)); }
      if credential == 0 || evidence == 0 || program == 0 { return Some(InvalidCommitment); }
      if input.commitment != credential { return Some(PublicCommitmentMismatch); }
      if !deployment.proves(proof, input) { return Some(ProofRejected); }
      var previous := attestations[predecessor];
      var successor := deployment.idOf(previous.subject, credential);
      if successor in attestations { return Some(DuplicateAttestation(successor)); }

      attestations := attestations[successor :=
        Attestation(previous.subject, credential, evidence, program, deployment.root, previous.scope, now, 0, true, [])];
      CarrySkills(predecessor, successor);
      attestations := attestations[predecessor := attestations[predecessor].(active := false)];
      attestations := attestations[predecessor := attestations[predecessor].(revokedAt := now)];
      successorOf := successorOf[predecessor := successor];
      predecessorOf := predecessorOf[successor := predecessor];
      return None;
    }

    /** The loop that reads one record's skills while it pushes onto another's. */
    method CarrySkills(predecessor: Bytes32, successor: Bytes32)
      requires predecessor in attestations && successor in attestations && predecessor != successor
      requires attestations[successor].skills == []
      modifies this`attestations, this`activeSkillAttestation
      ensures var skills := old(attestations)[predecessor].skills;
        && attestations == old(attestations)[successor := old(attestations)[successor].(skills := skills)]
        && activeSkillAttestation ==
             Pointing(old(activeSkillAttestation), old(attestations)[predecessor].subject, skills, successor)
    {
      ghost var subject, skills := attestations[predecessor].subject, attestations[predecessor].skills;
      ghost var records, index := attestations, activeSkillAttestation;
      var i := 0;
      while i < |attestations[predecessor].skills|
        invariant 0 <= i <= |skills|
        invariant predecessor in attestations && attestations[predecessor] == records[predecessor]
        invariant Listed(records, index, successor, subject, skills[..i])
      {
        ListSkill(successor, attestations[predecessor].subject, attestations[predecessor].skills[i], records, index, skills, i);
        i := i + 1;
      }
      assert skills[..i] == skills;
    }

    method RevokeAttestation(sender: Address, now: Timestamp, id: Bytes32) returns (error: Option<Error>)
      modifies this
      ensures var tx := Tx(sender, now, Call.RevokeAttestation(id));
        error == Fault(deployment, old(Storage()), tx) && Storage() == Apply(deployment, old(Storage()), tx)
    {
      if id !in attestations { return Some(UnknownAttestation(id)); }
      if !attestations[id].active { return Some(AlreadyRevoked(id)); }
      if sender != deployment.root && sender != attestations[id].issuer { return Some(OnlyRootIssuer); }
      attestations := attestations[id := attestations[id].(active := false)];
      attestations := attestations[id := attestations[id].(revokedAt := now)];
      ClearSkills(id);
      return None;
    }

    /** The loop that deletes this record's index entries, and only those that still name it. */
    method ClearSkills(id: Bytes32)
      requires id in attestations
      modifies this`activeSkillAttestation
      ensures activeSkillAttestation ==
                Cleared(old(activeSkillAttestation), attestations[id].subject, attestations[id].skills, id)
    {
      var subject, skills := attestations[id].subject, attestations[id].skills;
      var i := 0;
      while i < |skills|
        invariant 0 <= i <= |skills|
        invariant activeSkillAttestation == Cleared(old(activeSkillAttestation), subject, skills[..i], id)
      {
        var slot := (subject, skills[i]);
        if slot in activeSkillAttestation && activeSkillAttestation[slot] == id {
          activeSkillAttestation := activeSkillAttestation - {slot};
        }
        assert skills[..i + 1] == skills[..i] + [skills[i]];
        i := i + 1;
      }
      assert skills[..i] == skills;
    }

    method BindHolder(sender: Address, now: Timestamp, id: Bytes32, holder: Address, expiresAt: Uint64)
      returns (error: Option<Error>)
      modifies this
      ensures var tx := Tx(sender, now, Call.BindHolder(id, holder, expiresAt));
        error == Fault(deployment, old(Storage()), tx) && Storage() == Apply(deployment, old(Storage()), tx)
    {
      if id !in attestations { return Some(UnknownAttestation(id)); }
      if !attestations[id].active || holder == 0 || expiresAt <= now { return Some(InvalidHolderBinding); }
      if !MayBindHolder(deployment, Storage(), sender, attestations[id]) {
        return Some(UnauthorizedHolderBindingIssuer(sender));
      }
      var binding := BindingOf(Storage(), id);
      if binding.active && binding.expiresAt > now { return Some(HolderBindingActive(id)); }
      binding := binding.(holder := holder);
      binding := binding.(expiresAt := expiresAt);
      binding := binding.(active := true);
      holderBindings := holderBindings[id := binding];
      return None;
    }

    method RevokeHolderBinding(sender: Address, now: Timestamp, id: Bytes32) returns (error: Option<Error>)
      modifies this
      ensures var tx := Tx(sender, now, Call.RevokeHolderBinding(id));
        error == Fault(deployment, old(Storage()), tx) && Storage() == Apply(deployment, old(Storage()), tx)
    {
      if id !in attestations { return Some(UnknownAttestation(id)); }
      if !MayBindHolder(deployment, Storage(), sender, attestations[id]) {
        return Some(UnauthorizedHolderBindingIssuer(sender));
      }
      var binding := BindingOf(Storage(), id);
      if !binding.active { return Some(InvalidHolderBinding); }
      holderBindings := holderBindings[id := binding.(active := false)];
      return None;
    }
  }
}
