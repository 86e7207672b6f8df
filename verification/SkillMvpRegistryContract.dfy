/** The small contract: the same storage shape, updated in place, with no loops. */
module SkillMvpRegistryContract {
  import opened Evm
  import opened RecordBook
  import opened SkillMvpModel

  class SkillMVPRegistry {
    const deployment: MvpDeployment

    var delegatedIssuers: map<Address, MvpDelegation>
    var attestations: map<Bytes32, MvpAttestation>
    var holderBindings: map<Bytes32, HolderBinding>
    var activeSkillAttestation: map<Slot, Bytes32>
    var predecessorOf: map<Bytes32, Bytes32>
    var successorOf: map<Bytes32, Bytes32>

    function Storage(): MvpState
      reads this
    {
      MvpState(attestations, activeSkillAttestation, successorOf, predecessorOf, delegatedIssuers, holderBindings)
    }

    constructor (deployment: MvpDeployment)
      ensures this.deployment == deployment && Storage() == MVP_INITIAL
    {
      this.deployment := deployment;
      delegatedIssuers, attestations, holderBindings := map[], map[], map[];
      activeSkillAttestation, predecessorOf, successorOf := map[], map[], map[];
    }

    method DelegateIssuerFor(sender: Address, now: Timestamp, child: Address, subject: Bytes32, skill: Bytes32,
                             program: Bytes32, expiresAt: Uint64)
      returns (error: Option<MvpError>)
      modifies this
      ensures var tx := MvpTx(sender, now, MvpCall.DelegateIssuerFor(child, subject, skill, program, expiresAt));
        error == Fault(deployment, old(Storage()), tx) && Storage() == Apply(deployment, old(Storage()), tx)
    {
      if sender != deployment.root { return Some(OnlyRootIssuer); }
      if child == 0 { return Some(InvalidAddress); }
      if subject == 0 || skill == 0 || program == 0 { return Some(InvalidCommitment); }
      if expiresAt <= now { return Some(InvalidExpiry); }
      delegatedIssuers := delegatedIssuers[child := MvpDelegation(subject, skill, program, expiresAt, true)];
      return None;
    }

    method RevokeIssuer(sender: Address, now: Timestamp, child: Address) returns (error: Option<MvpError>)
      modifies this
      ensures var tx := MvpTx(sender, now, MvpCall.RevokeIssuer(child));
        error == Fault(deployment, old(Storage()), tx) && Storage() == Apply(deployment, old(Storage()), tx)
    {
      if sender != deployment.root { return Some(OnlyRootIssuer); }
      delegatedIssuers := delegatedIssuers[child := DelegationOf(Storage(), child).(active := false)];
      return None;
    }

    method Attest(sender: Address, now: Timestamp, subject: Bytes32, skill: Bytes32, program: Bytes32, evidence: Bytes32)
      returns (error: Option<MvpError>)
      modifies this
      ensures var tx := MvpTx(sender, now, MvpCall.Attest(subject, skill, program, evidence));
        error == Fault(deployment, old(Storage()), tx) && Storage() == Apply(deployment, old(Storage()), tx)
    {
      if subject == 0 || skill == 0 || program == 0 || evidence == 0 { return Some(InvalidCommitment); }
      var delegation := DelegationOf(Storage(), sender);
      if !delegation.active || delegation.expiresAt <= now || delegation.subject != subject ||
        delegation.skill != skill || delegation.program != program {
        return Some(UnauthorizedIssuer(sender));
      }
      if (subject, skill) in activeSkillAttestation { return Some(SkillAlreadyActive(subject, skill)); }
      var id := deployment.idOf(subject, skill, program, evidence);
      if id in attestations { return Some(DuplicateAttestation(id)); }
      attestations := attestations[id := MvpAttestation(subject, skill, program, evidence, sender, now, 0, true)];
      activeSkillAttestation := activeSkillAttestation[(subject, skill) := id];
      return None;
    }

    method Supersede(sender: Address, now: Timestamp, predecessor: Bytes32, program: Bytes32, evidence: Bytes32)
      returns (error: Option<MvpError>)
      modifies this
      ensures var tx := MvpTx(sender, now, MvpCall.Supersede(predecessor, program, evidence));
        error == Fault(deployment, old(Storage()), tx) && Storage() == Apply(deployment, old(Storage()), tx)
    {
      if sender != deployment.root { return Some(OnlyRootIssuer); }
      if predecessor !in attestations { return Some(UnknownAttestation(predecessor)); }
      if !attestations[predecessor].active { return Some(AlreadyRevoked(predecessor)); }
      if program == 0 || evidence == 0 { return Some(InvalidCommitment); }
      var previous := attestations[predecessor];
      var successor := deployment.idOf(previous.subject, previous.skill, program, evidence);
      if successor in attestations { return Some(DuplicateAttestation(successor)); }
      attestations := attestations[successor :=
        MvpAttestation(previous.subject, previous.skill, program, evidence, deployment.root, now, 0, true)];
      attestations := attestations[predecessor := attestations[predecessor].(active := false)];
      attestations := attestations[predecessor := attestations[predecessor].(revokedAt := now)];
      activeSkillAttestation := activeSkillAttestation[(previous.subject, previous.skill) := successor];
      successorOf := successorOf[predecessor := successor];
      predecessorOf := predecessorOf[successor := predecessor];
      return None;
    }

    method RevokeAttestation(sender: Address, now: Timestamp, id: Bytes32) returns (error: Option<MvpError>)
      modifies this
      ensures var tx := MvpTx(sender, now, MvpCall.RevokeAttestation(id));
        error == Fault(deployment, old(Storage()), tx) && Storage() == Apply(deployment, old(Storage()), tx)
    {
      if id !in attestations { return Some(UnknownAttestation(id)); }
      if !attestations[id].active { return Some(AlreadyRevoked(id)); }
      if sender != deployment.root && sender != attestations[id].issuer { return Some(UnauthorizedIssuer(sender)); }
      attestations := attestations[id := attestations[id].(active := false)];
      attestations := attestations[id := attestations[id].(revokedAt := now)];
      var slot := (attestations[id].subject, attestations[id].skill);
      if slot in activeSkillAttestation && activeSkillAttestation[slot] == id {
        activeSkillAttestation := activeSkillAttestation - {slot};
      }
      return None;
    }

    method BindHolder(sender: Address, now: Timestamp, id: Bytes32, holder: Address, expiresAt: Uint64)
      returns (error: Option<MvpError>)
      modifies this
      ensures var tx := MvpTx(sender, now, MvpCall.BindHolder(id, holder, expiresAt));
        error == Fault(deployment, old(Storage()), tx) && Storage() == Apply(deployment, old(Storage()), tx)
    {
      if id !in attestations { return Some(UnknownAttestation(id)); }
      if !attestations[id].active || holder == 0 { return Some(InvalidAddress); }
      if expiresAt <= now { return Some(InvalidExpiry); }
      if sender != deployment.root && sender != attestations[id].issuer { return Some(UnauthorizedIssuer(sender)); }
      var binding := BindingOf(Storage(), id);
      if binding.active && binding.expiresAt > now { return Some(HolderBindingActive(id)); }
      holderBindings := holderBindings[id := HolderBinding(holder, expiresAt, true)];
      return None;
    }

    method RevokeHolderBinding(sender: Address, now: Timestamp, id: Bytes32) returns (error: Option<MvpError>)
      modifies this
      ensures var tx := MvpTx(sender, now, MvpCall.RevokeHolderBinding(id));
        error == Fault(deployment, old(Storage()), tx) && Storage() == Apply(deployment, old(Storage()), tx)
    {
      if id !in attestations { return Some(UnknownAttestation(id)); }
      if sender != deployment.root && sender != attestations[id].issuer { return Some(UnauthorizedIssuer(sender)); }
      holderBindings := holderBindings[id := BindingOf(Storage(), id).(active := false)];
      return None;
    }
  }
}
