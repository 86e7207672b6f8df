/** The issuer's command line over SkillMVPRegistry: issue, upgrade, verify. Each contract call is one transaction. */
module CommandLine {
  import opened Evm
  import opened RecordBook
  import opened SkillMvpModel
  import opened SkillMvpRegistryContract
  import Theorems = SkillMvpTheorems
  import Outcomes = SkillMvpOutcomes
  import opened Credentials

  /** keccak256 over the tagged string, known only not to be zero; the evidence hash is computed beforehand. */
  datatype Hashes = Hashes(commitment: (string, string) -> Bytes32) {
    ghost predicate Valid() {
      forall kind, value :: commitment(kind, value) != 0
    }
  }

  /** The flags after parsing. A holder that is not a hex address is None. */
  datatype IssueFlags = IssueFlags(learnerId: string, skillId: string, evidence: string, progress: int, milestone: string,
                                   holder: Option<Address>)

  predicate ValidFlags(f: IssueFlags) {
    !Blank(f.learnerId) && !Blank(f.skillId) && !Blank(f.evidence) && 0 <= f.progress <= 100 && !Blank(f.milestone) && f.holder.Some?
  }

  datatype Verification = Verification(hasSkill: bool, id: Bytes32, current: bool)

  /** What verify reports about a state. */
  function Verified(s: MvpState, subject: Bytes32, skill: Bytes32): Verification {
    var id := s.Book().CurrentId(subject, skill);
    Verification(s.Book().HasSkill(subject, skill), id, id != 0 && s.Book().IsCurrent(id))
  }

  /** The whole condition for issue to go through on a fresh registry. */
  predicate IssueGoesThrough(f: IssueFlags, child: Address, evidence: Bytes32, expiresAt: Uint64,
                             t1: Timestamp, t2: Timestamp, t3: Timestamp)
  {
    && ValidFlags(f) && child != 0 && f.holder != Some(0) && evidence != 0
    && t1 < expiresAt && t2 < expiresAt && t3 < expiresAt
  }

  /**
   Deploy, delegate a fresh child, attest with it, bind the holder with it. On success verify reports
   the new record, and the holder is authorized on it until the expiry.
   */
  method IssueOnHardhat(d: MvpDeployment, h: Hashes, f: IssueFlags, child: Address, evidence: Bytes32, expiresAt: Uint64,
                        t1: Timestamp, t2: Timestamp, t3: Timestamp)
    returns (registry: SkillMVPRegistry?, id: Option<Bytes32>)
    requires d.Valid() && h.Valid()
    ensures id.Some? <==> IssueGoesThrough(f, child, evidence, expiresAt, t1, t2, t3)
    ensures registry == null <==> !ValidFlags(f)
    ensures registry != null ==> fresh(registry) && registry.deployment == d && Theorems.Sound(d, registry.Storage())
    ensures id.Some? ==>
              var subject, skill := h.commitment("subject", f.learnerId), h.commitment("skill", f.skillId);
              && registry != null && registry.Storage().attestations.Keys == {id.value}
              && Verified(registry.Storage(), subject, skill) == Verification(true, id.value, true)
              && var program := h.commitment("program", f.skillId + "-v1");
              && id.value == d.idOf(subject, skill, program, evidence)
              && registry.Storage().attestations[id.value] == MvpAttestation(subject, skill, program, evidence, child, t2, 0, true)
              && forall now: Timestamp :: now < expiresAt ==> IsHolderAuthorized(registry.Storage(), id.value, f.holder.value, now)
  {
    if !ValidFlags(f) { return null, None; }
    var r := new SkillMVPRegistry(d);
    registry := r;
    Theorems.ReachableSound(d, []);
    var subject := h.commitment("subject", f.learnerId);
    var skill := h.commitment("skill", f.skillId);
    var program := h.commitment("program", f.skillId + "-v1");
    ghost var s0 := r.Storage();
    var error := r.DelegateIssuerFor(d.root, t1, child, subject, skill, program, expiresAt);
    DelegationOnFresh(d, t1, child, subject, skill, program, expiresAt);
    Theorems.StepSound(d, s0, MvpTx(d.root, t1, MvpCall.DelegateIssuerFor(child, subject, skill, program, expiresAt)));
    if error.Some? { return r, None; }
    ghost var s1 := r.Storage();
    error := r.Attest(child, t2, subject, skill, program, evidence);
    AttestOnDelegated(d, t2, child, subject, skill, program, expiresAt, evidence);
    Theorems.StepSound(d, s1, MvpTx(child, t2, MvpCall.Attest(subject, skill, program, evidence)));
    if error.Some? { return r, None; }
    ghost var s2 := r.Storage();
    var attestation := d.idOf(subject, skill, program, evidence);
    error := r.BindHolder(child, t3, attestation, f.holder.value, expiresAt);
    BindOnAttested(d, s2, t3, child, attestation, subject, skill, f.holder.value, expiresAt);
    Theorems.StepSound(d, s2, MvpTx(child, t3, MvpCall.BindHolder(attestation, f.holder.value, expiresAt)));
    if error.Some? { return r, None; }
    return r, Some(attestation);
  }

  function DelegatedState(child: Address, subject: Bytes32, skill: Bytes32, program: Bytes32, expiresAt: Uint64): MvpState {
    MVP_INITIAL.(delegated := map[child := MvpDelegation(subject, skill, program, expiresAt, true)])
  }

  lemma DelegationOnFresh(d: MvpDeployment, now: Timestamp, child: Address, subject: Bytes32, skill: Bytes32,
                          program: Bytes32, expiresAt: Uint64)
    requires subject != 0 && skill != 0 && program != 0
    ensures var tx := MvpTx(d.root, now, MvpCall.DelegateIssuerFor(child, subject, skill, program, expiresAt));
      && (Fault(d, MVP_INITIAL, tx).None? <==> child != 0 && now < expiresAt)
      && (Fault(d, MVP_INITIAL, tx).None? ==> Apply(d, MVP_INITIAL, tx) == DelegatedState(child, subject, skill, program, expiresAt))
  {
  }

  lemma AttestOnDelegated(d: MvpDeployment, now: Timestamp, child: Address, subject: Bytes32, skill: Bytes32, program: Bytes32,
                          expiresAt: Uint64, evidence: Bytes32)
    requires subject != 0 && skill != 0 && program != 0
    ensures var tx := MvpTx(child, now, MvpCall.Attest(subject, skill, program, evidence));
      var s := DelegatedState(child, subject, skill, program, expiresAt);
      var id := d.idOf(subject, skill, program, evidence);
      && (Fault(d, s, tx).None? <==> evidence != 0 && now < expiresAt)
      && (Fault(d, s, tx).None? ==>
            && Attested(Apply(d, s, tx), id, child, subject, skill)
            && Apply(d, s, tx).attestations[id] == MvpAttestation(subject, skill, program, evidence, child, now, 0, true))
  {
  }

  /** One active record, by this child, and no holder yet. */
  ghost predicate Attested(s: MvpState, id: Bytes32, child: Address, subject: Bytes32, skill: Bytes32) {
    && s.attestations.Keys == {id} && s.attestations[id].active && s.attestations[id].issuer == child
    && s.index == map[(subject, skill) := id] && s.successorOf == map[] && s.holders == map[]
  }

  lemma BindOnAttested(d: MvpDeployment, s: MvpState, now: Timestamp, child: Address, id: Bytes32, subject: Bytes32, skill: Bytes32,
                       holder: Address, expiresAt: Uint64)
    ensures var tx := MvpTx(child, now, MvpCall.BindHolder(id, holder, expiresAt));
      Attested(s, id, child, subject, skill) && id != 0 ==>
        && (Fault(d, s, tx).None? <==> holder != 0 && now < expiresAt)
        && (Fault(d, s, tx).None? ==>
              var s' := Apply(d, s, tx);
              && s'.attestations == s.attestations && Verified(s', subject, skill) == Verification(true, id, true)
              && forall t: Timestamp :: t < expiresAt ==> IsHolderAuthorized(s', id, holder, t))
  {
  }

  datatype UpgradeFlags = UpgradeFlags(predecessor: Bytes32, skillId: string, evidence: string, progress: int, milestone: string)

  predicate ValidUpgrade(f: UpgradeFlags) {
    !Blank(f.skillId) && !Blank(f.evidence) && 0 <= f.progress <= 100 && !Blank(f.milestone)
  }

  /** A holder to bind on the successor, with the transaction's time and the binding's expiry. */
  datatype NewHolder = NewHolder(holder: Address, expiresAt: Uint64, now: Timestamp)

  /** What others get mined between the calls of one upgrade. */
  datatype Others = Others(beforeRead: seq<MvpTx>, beforeBind: seq<MvpTx>, beforeCheck: seq<MvpTx>)

  /** One transaction of somebody else's. */
  method Send(registry: SkillMVPRegistry, tx: MvpTx)
    modifies registry
    ensures registry.Storage() == Apply(registry.deployment, old(registry.Storage()), tx)
  {
    var error;
    match tx.call
    case DelegateIssuerFor(child, subject, skill, program, expiresAt) =>
      error := registry.DelegateIssuerFor(tx.sender, tx.now, child, subject, skill, program, expiresAt);
    case RevokeIssuer(child) => error := registry.RevokeIssuer(tx.sender, tx.now, child);
    case Attest(subject, skill, program, evidence) => error := registry.Attest(tx.sender, tx.now, subject, skill, program, evidence);
    case Supersede(p, program, evidence) => error := registry.Supersede(tx.sender, tx.now, p, program, evidence);
    case RevokeAttestation(id) => error := registry.RevokeAttestation(tx.sender, tx.now, id);
    case BindHolder(id, holder, expiresAt) => error := registry.BindHolder(tx.sender, tx.now, id, holder, expiresAt);
    case RevokeHolderBinding(id) => error := registry.RevokeHolderBinding(tx.sender, tx.now, id);
  }

  /** The blocks that pass between two calls of the command line. */
  method Pass(registry: SkillMVPRegistry, txs: seq<MvpTx>)
    modifies registry
    ensures registry.Storage() == Run(registry.deployment, old(registry.Storage()), txs)
  {
    ghost var d, s := registry.deployment, registry.Storage();
    for i := 0 to |txs|
      invariant registry.Storage() == Run(d, s, txs[..i])
    {
      Send(registry, txs[i]);
      assert txs[..i + 1][..i] == txs[..i];
    }
    assert txs[..|txs|] == txs;
  }

  /** The mapping read back: zero where nothing was written. */
  function SuccessorOf(s: MvpState, p: Bytes32): Bytes32 {
    if p in s.successorOf then s.successorOf[p] else 0
  }

  datatype UpgradeResult = UpgradeResult(state: MvpState, successor: Option<Bytes32>, current: bool)

  /** The states an upgrade goes through: the supersede, the read, perhaps the bind, the check, and others in between. */
  function UpgradeRun(d: MvpDeployment, s: MvpState, supersede: MvpTx, o: Others, bind: Option<NewHolder>): UpgradeResult
    requires supersede.call.Supersede?
  {
    if Fault(d, s, supersede).Some? then UpgradeResult(s, None, false)
    else AfterSupersede(d, Apply(d, s, supersede), supersede.call.predecessor, o, bind)
  }

  function AfterSupersede(d: MvpDeployment, s: MvpState, p: Bytes32, o: Others, bind: Option<NewHolder>): UpgradeResult {
    var s' := Run(d, s, o.beforeRead);
    BindAndCheck(d, s', SuccessorOf(s', p), o, bind)
  }

  function BindTx(d: MvpDeployment, id: Bytes32, b: NewHolder): MvpTx {
    MvpTx(d.root, b.now, MvpCall.BindHolder(id, b.holder, b.expiresAt))
  }

  function BindAndCheck(d: MvpDeployment, s: MvpState, next: Bytes32, o: Others, bind: Option<NewHolder>): UpgradeResult {
    var s' := Run(d, s, o.beforeBind);
    if bind.None? then Checked(d, s', o, next)
    else
      var tx := BindTx(d, next, bind.value);
      if Fault(d, s', tx).Some? then UpgradeResult(s', None, false) else Checked(d, Apply(d, s', tx), o, next)
  }

  function Checked(d: MvpDeployment, s: MvpState, o: Others, next: Bytes32): UpgradeResult {
    var s' := Run(d, s, o.beforeCheck);
    UpgradeResult(s', Some(next), s'.Book().IsCurrent(next))
  }

  /** Supersede, read the successor back, perhaps bind a holder, and ask whether it is current. */
  method UpgradeOnHardhat(registry: SkillMVPRegistry, h: Hashes, f: UpgradeFlags, evidence: Bytes32, now: Timestamp,
                          bind: Option<NewHolder>, o: Others)
    returns (successor: Option<Bytes32>, current: bool)
    modifies registry
    ensures !ValidUpgrade(f) ==> successor == None && registry.Storage() == old(registry.Storage())
    ensures var program := h.commitment("program", f.skillId + "-v2");
      var tx := MvpTx(registry.deployment.root, now, MvpCall.Supersede(f.predecessor, program, evidence));
      ValidUpgrade(f) ==>
        UpgradeResult(registry.Storage(), successor, current) == UpgradeRun(registry.deployment, old(registry.Storage()), tx, o, bind)
    ensures var d, s, program := registry.deployment, old(registry.Storage()), h.commitment("program", f.skillId + "-v2");
      d.Valid() && Theorems.Sound(d, s) && o == Others([], [], []) ==>
        && (successor.Some? <==> ValidUpgrade(f) && UpgradeGoesThrough(d, s, f.predecessor, program, evidence, bind))
        && (successor.Some? ==>
              && current && successor == Some(d.idOf(s.attestations[f.predecessor].subject, s.attestations[f.predecessor].skill, program, evidence))
              && UpgradedTo(d, s, UpgradeResult(registry.Storage(), successor, current), f.predecessor, successor.value, bind))
  {
    if !ValidUpgrade(f) { return None, false; }
    var program := h.commitment("program", f.skillId + "-v2");
    if registry.deployment.Valid() && Theorems.Sound(registry.deployment, registry.Storage()) {
      UndisturbedUpgradeIsCurrent(registry.deployment, registry.Storage(), now, f.predecessor, program, evidence, bind);
    }
    var error := registry.Supersede(registry.deployment.root, now, f.predecessor, program, evidence);
    if error.Some? { return None, false; }
    Pass(registry, o.beforeRead);
    var next := SuccessorOf(registry.Storage(), f.predecessor);
    Pass(registry, o.beforeBind);
    if bind.Some? {
      error := registry.BindHolder(registry.deployment.root, bind.value.now, next, bind.value.holder, bind.value.expiresAt);
      if error.Some? { return None, false; }
    }
    Pass(registry, o.beforeCheck);
    return Some(next), registry.Storage().Book().IsCurrent(next);
  }

  /** The successor stands in its predecessor's place, about this learner and skill. */
  ghost predicate Stands(d: MvpDeployment, s: MvpState, p: Bytes32, id: Bytes32, subject: Bytes32, skill: Bytes32) {
    && Theorems.Sound(d, s) && p in s.successorOf && s.successorOf[p] == id && !s.Book().IsCurrent(p) && About(s, id, subject, skill)
  }

  /** The link from a superseded record to its successor outlives everything. */
  lemma StandsForEver(d: MvpDeployment, s: MvpState, txs: seq<MvpTx>, p: Bytes32, id: Bytes32, subject: Bytes32, skill: Bytes32)
    requires d.Valid() && Stands(d, s, p, id, subject, skill)
    ensures Stands(d, Run(d, s, txs), p, id, subject, skill)
  {
    var s' := Run(d, s, txs);
    Theorems.RunSound(d, s, txs);
    assert p in s.Book().successorOf && id in s.Book().records;
    assert SameClaim(s.Book().records[id], s'.Book().records[id]);
    assert [s.attestations[id].skill][0] == [s'.attestations[id].skill][0];
  }

  lemma StandsAfterOne(d: MvpDeployment, s: MvpState, tx: MvpTx, p: Bytes32, id: Bytes32, subject: Bytes32, skill: Bytes32)
    requires d.Valid() && Stands(d, s, p, id, subject, skill)
    ensures Stands(d, Apply(d, s, tx), p, id, subject, skill)
  {
    assert [tx][..0] == [] && Run(d, s, []) == s;
    assert Run(d, s, [tx]) == Apply(d, s, tx);
    StandsForEver(d, s, [tx], p, id, subject, skill);
  }

  lemma SupersedeStands(d: MvpDeployment, s: MvpState, tx: MvpTx)
    requires d.Valid() && Theorems.Sound(d, s) && tx.call.Supersede? && Fault(d, s, tx).None?
    ensures var p, id, s' := tx.call.predecessor, SuccessorId(d, s, tx.call), Apply(d, s, tx);
      Stands(d, s', p, id, s.attestations[p].subject, s.attestations[p].skill) && s'.Book().IsCurrent(id)
  {
    Theorems.StepSound(d, s, tx);
    SupersedeTakesOver(d, s, tx);
  }

  /** A successor that stands is reported by verify exactly while it has not itself been revoked or superseded. */
  lemma StandingSuccessorAnswers(d: MvpDeployment, s: MvpState, p: Bytes32, id: Bytes32, subject: Bytes32, skill: Bytes32)
    requires d.Valid() && Stands(d, s, p, id, subject, skill)
    ensures s.Book().IsCurrent(id) <==> s.attestations[id].active
    ensures s.Book().IsCurrent(id) ==> Verified(s, subject, skill) == Verification(true, id, true)
  {
    CurrentIffActive(d.root, s.Book(), id);
    if s.Book().IsCurrent(id) {
      CurrentLeadsToItself(d, s, id);
    }
  }

  /**
   Whatever others do in between, a reported successor is the fresh record that took the predecessor's
   place for good, about the same learner and skill. It is reported current exactly while it has not
   been revoked or superseded in turn, and then verify reports it too.
   */
  lemma UpgradeReportsSuccessor(d: MvpDeployment, s: MvpState, tx: MvpTx, o: Others, bind: Option<NewHolder>)
    requires d.Valid() && Theorems.Sound(d, s) && tx.call.Supersede? && UpgradeRun(d, s, tx, o, bind).successor.Some?
    ensures var r := UpgradeRun(d, s, tx, o, bind);
      && Fault(d, s, tx).None?
      && var previous := s.attestations[tx.call.predecessor];
         Reports(d, r, tx.call.predecessor, SuccessorId(d, s, tx.call), previous.subject, previous.skill)
  {
    var p, id, r := tx.call.predecessor, SuccessorId(d, s, tx.call), s.attestations[tx.call.predecessor];
    SupersedeStands(d, s, tx);
    AfterSupersedeReports(d, Apply(d, s, tx), o, bind, p, id, r.subject, r.skill);
  }

  lemma AfterSupersedeReports(d: MvpDeployment, s: MvpState, o: Others, bind: Option<NewHolder>,
                              p: Bytes32, id: Bytes32, subject: Bytes32, skill: Bytes32)
    requires d.Valid() && Stands(d, s, p, id, subject, skill) && AfterSupersede(d, s, p, o, bind).successor.Some?
    ensures Reports(d, AfterSupersede(d, s, p, o, bind), p, id, subject, skill)
  {
    StandsForEver(d, s, o.beforeRead, p, id, subject, skill);
    BindAndCheckStands(d, Run(d, s, o.beforeRead), o, bind, p, id, subject, skill);
  }

  /** The upgrade names the standing successor, and calls it current just while it is active, when verify names it too. */
  ghost predicate Reports(d: MvpDeployment, r: UpgradeResult, p: Bytes32, id: Bytes32, subject: Bytes32, skill: Bytes32) {
    && Stands(d, r.state, p, id, subject, skill) && r.successor == Some(id) && (r.current <==> r.state.attestations[id].active)
    && (r.current ==> Verified(r.state, subject, skill) == Verification(true, id, true))
  }

  lemma BindAndCheckStands(d: MvpDeployment, s: MvpState, o: Others, bind: Option<NewHolder>,
                           p: Bytes32, id: Bytes32, subject: Bytes32, skill: Bytes32)
    requires d.Valid() && Stands(d, s, p, id, subject, skill) && BindAndCheck(d, s, id, o, bind).successor.Some?
    ensures Reports(d, BindAndCheck(d, s, id, o, bind), p, id, subject, skill)
  {
    var s' := Run(d, s, o.beforeBind);
    var s'' := if bind.None? then s' else Apply(d, s', BindTx(d, id, bind.value));
    assert BindAndCheck(d, s, id, o, bind) == Checked(d, s'', o, id);
    assert Stands(d, s'', p, id, subject, skill) by {
      StandsForEver(d, s, o.beforeBind, p, id, subject, skill);
      if bind.Some? { StandsAfterOne(d, s', BindTx(d, id, bind.value), p, id, subject, skill); }
    }
    CheckedStands(d, s'', o, p, id, subject, skill);
  }

  lemma CheckedStands(d: MvpDeployment, s: MvpState, o: Others, p: Bytes32, id: Bytes32, subject: Bytes32, skill: Bytes32)
    requires d.Valid() && Stands(d, s, p, id, subject, skill)
    ensures Reports(d, Checked(d, s, o, id), p, id, subject, skill)
  {
    StandsForEver(d, s, o.beforeCheck, p, id, subject, skill);
    StandingSuccessorAnswers(d, Run(d, s, o.beforeCheck), p, id, subject, skill);
  }

  /**
   The whole condition for an upgrade with nobody in between: the predecessor can be replaced, and a
   holder to bind is an address with an expiry in the future.
   */
  ghost predicate UpgradeGoesThrough(d: MvpDeployment, s: MvpState, p: Bytes32, program: Bytes32, evidence: Bytes32, bind: Option<NewHolder>) {
    Outcomes.Replaceable(d, s, p, program, evidence) && (bind.Some? ==> bind.value.holder != 0 && bind.value.now < bind.value.expiresAt)
  }

  /** Verify reports the successor, which has just the holder asked for, until the expiry. */
  ghost predicate UpgradedTo(d: MvpDeployment, s: MvpState, r: UpgradeResult, p: Bytes32, id: Bytes32, bind: Option<NewHolder>)
    requires p in s.attestations
  {
    && r.successor == Some(id) && r.current
    && Verified(r.state, s.attestations[p].subject, s.attestations[p].skill) == Verification(true, id, true)
    && forall holder, t: Timestamp :: IsHolderAuthorized(r.state, id, holder, t) <==>
         bind.Some? && holder == bind.value.holder && t < bind.value.expiresAt
  }

  /** When nobody comes between, exactly when an upgrade goes through, and what it leaves. */
  lemma UndisturbedUpgradeIsCurrent(d: MvpDeployment, s: MvpState, now: Timestamp, p: Bytes32, program: Bytes32, evidence: Bytes32,
                                    bind: Option<NewHolder>)
    requires d.Valid() && Theorems.Sound(d, s)
    ensures var tx := MvpTx(d.root, now, MvpCall.Supersede(p, program, evidence));
      var r := UpgradeRun(d, s, tx, Others([], [], []), bind);
      && (r.successor.Some? <==> UpgradeGoesThrough(d, s, p, program, evidence, bind))
      && (r.successor.Some? ==> UpgradedTo(d, s, r, p, SuccessorId(d, s, tx.call), bind))
      && (!Outcomes.Replaceable(d, s, p, program, evidence) ==> r.state == s)
  {
    var tx := MvpTx(d.root, now, MvpCall.Supersede(p, program, evidence));
    if Outcomes.Replaceable(d, s, p, program, evidence) {
      SupersedeTakesOver(d, s, tx);
      BindingOnSuccessor(d, Apply(d, s, tx), p, s.attestations[p].subject, s.attestations[p].skill, bind);
    }
  }

  lemma BindingOnSuccessor(d: MvpDeployment, s: MvpState, p: Bytes32, subject: Bytes32, skill: Bytes32, bind: Option<NewHolder>)
    requires p in s.successorOf && s.Book().IsCurrent(s.successorOf[p]) && BindingOf(s, s.successorOf[p]) == NO_BINDING
    requires Verified(s, subject, skill) == Verification(true, s.successorOf[p], true)
    ensures var r, id := AfterSupersede(d, s, p, Others([], [], []), bind), s.successorOf[p];
      && (r.successor.Some? <==> (bind.Some? ==> bind.value.holder != 0 && bind.value.now < bind.value.expiresAt))
      && (r.successor.Some? ==>
            && r.successor == Some(id) && r.current && Verified(r.state, subject, skill) == Verification(true, id, true)
            && forall holder, t: Timestamp :: IsHolderAuthorized(r.state, id, holder, t) <==>
                 bind.Some? && holder == bind.value.holder && t < bind.value.expiresAt)
  {
    var id := s.successorOf[p];
    assert AfterSupersede(d, s, p, Others([], [], []), bind) == BindAndCheck(d, s, id, Others([], [], []), bind);
    if bind.Some? {
      var tx := BindTx(d, id, bind.value);
      Outcomes.BindSucceedsIff(d, s, tx);
      if Fault(d, s, tx).None? {
        assert Apply(d, s, tx).Book() == s.Book();
        forall holder, t: Timestamp ensures IsHolderAuthorized(Apply(d, s, tx), id, holder, t) <==> holder == bind.value.holder && t < bind.value.expiresAt {
          Outcomes.BindOutcome(d, s, tx, id, holder, t);
        }
      }
    }
  }

  /** What a successful supersede means to a reader. */
  lemma SupersedeTakesOver(d: MvpDeployment, s: MvpState, tx: MvpTx)
    requires d.Valid() && Theorems.Sound(d, s) && tx.call.Supersede? && Fault(d, s, tx).None?
    ensures var p, id, s' := tx.call.predecessor, SuccessorId(d, s, tx.call), Apply(d, s, tx);
      && s.Book().IsCurrent(p) && !s'.Book().IsCurrent(p) && s'.Book().IsCurrent(id) && id !in s.attestations
      && s'.successorOf == s.successorOf[p := id] && BindingOf(s', id) == NO_BINDING
      && About(s', id, s.attestations[p].subject, s.attestations[p].skill)
      && Verified(s, s.attestations[p].subject, s.attestations[p].skill).id == p
      && Verified(s', s.attestations[p].subject, s.attestations[p].skill) == Verification(true, id, true)
  {
    var p, id, s' := tx.call.predecessor, SuccessorId(d, s, tx.call), Apply(d, s, tx);
    Theorems.StepSound(d, s, tx);
    CurrentIffActive(d.root, s.Book(), p);
    CurrentIffActive(d.root, s'.Book(), id);
    assert s.Book().Active(p) && s.attestations[p].skill in s.Book().records[p].skills;
  }

  /**
   verify: two view calls, and a third only when there is a current id, with others' transactions in
   between. The id answers for the moment of the second call. A current id was current then too, and
   with nobody in between the three answers coincide.
   */
  method VerifyOnHardhat(registry: SkillMVPRegistry, h: Hashes, learnerId: string, skillId: string,
                         second: seq<MvpTx>, third: seq<MvpTx>)
    returns (v: Option<Verification>)
    modifies registry
    ensures v.None? <==> Blank(learnerId) || Blank(skillId)
    ensures var d, s0 := registry.deployment, old(registry.Storage());
      var s1 := Run(d, s0, second);
      var s2 := Run(d, s1, third);
      var subject, skill := h.commitment("subject", learnerId), h.commitment("skill", skillId);
      v.Some? ==>
        && v.value.hasSkill == s0.Book().HasSkill(subject, skill) && v.value.id == s1.Book().CurrentId(subject, skill)
        && v.value.current == (v.value.id != 0 && s2.Book().IsCurrent(v.value.id))
        && (d.Valid() && Theorems.Sound(d, s0) ==>
              && (v.value.id != 0 <==> s1.Book().HasSkill(subject, skill))
              && (v.value.current ==> s1.Book().IsCurrent(v.value.id))
              && (second == [] && third == [] ==> v.value.hasSkill == v.value.current == (v.value.id != 0)))
  {
    if Blank(learnerId) || Blank(skillId) { return None; }
    ghost var d, s0 := registry.deployment, registry.Storage();
    var subject, skill := h.commitment("subject", learnerId), h.commitment("skill", skillId);
    var hasSkill := registry.Storage().Book().HasSkill(subject, skill);
    Pass(registry, second);
    var id := registry.Storage().Book().CurrentId(subject, skill);
    Pass(registry, third);
    var current := false;
    if id != 0 { current := registry.Storage().Book().IsCurrent(id); }
    if d.Valid() && Theorems.Sound(d, s0) {
      Theorems.RunSound(d, s0, second);
      HasSkillIffListed(d.root, Run(d, s0, second).Book(), subject, skill);
    }
    return Some(Verification(hasSkill, id, current));
  }

  /** In every reachable contract state the three answers of verify coincide. */
  lemma AnswersCoincide(d: MvpDeployment, txs: seq<MvpTx>, subject: Bytes32, skill: Bytes32)
    requires d.Valid()
    ensures var v := Verified(Run(d, MVP_INITIAL, txs), subject, skill); v.hasSkill == v.current == (v.id != 0)
  {
    Theorems.ReachableSound(d, txs);
    HasSkillIffListed(d.root, Run(d, MVP_INITIAL, txs).Book(), subject, skill);
  }

  // -------------------------------------------------- a line of upgrades

  /** One upgrade by the root, after whatever anybody else did in between. */
  datatype Upgrade = Upgrade(between: seq<MvpTx>, now: Timestamp, program: Bytes32, evidence: Bytes32)

  /** The others, then the root's supersede of the last id; none if that reverts. */
  function UpgradeOnce(d: MvpDeployment, s: MvpState, ids: seq<Bytes32>, u: Upgrade): Option<(MvpState, seq<Bytes32>)>
    requires ids != []
  {
    var s1 := Run(d, s, u.between);
    var tx := MvpTx(d.root, u.now, MvpCall.Supersede(ids[|ids| - 1], u.program, u.evidence));
    if Fault(d, s1, tx).Some? then None else Some((Apply(d, s1, tx), ids + [SuccessorId(d, s1, tx.call)]))
  }

  /** The state and the ids so far, each upgrade fed the previous successor. None once one fails. */
  function Upgraded(d: MvpDeployment, s: MvpState, first: Bytes32, ups: seq<Upgrade>): (r: Option<(MvpState, seq<Bytes32>)>)
    ensures r.Some? ==> |r.value.1| == |ups| + 1
  {
    if ups == [] then Some((s, [first]))
    else
      var before := Upgraded(d, s, first, ups[..|ups| - 1]);
      if before.None? then None else UpgradeOnce(d, before.value.0, before.value.1, ups[|ups| - 1])
  }

  ghost predicate Lineage(s: MvpState, ids: seq<Bytes32>) {
    && Distinct(ids)
    && (forall i :: 0 <= i < |ids| ==> ids[i] in s.attestations)
    && (forall i :: 0 <= i < |ids| - 1 ==> Superseded(s, ids, i))
  }

  ghost predicate Superseded(s: MvpState, ids: seq<Bytes32>, i: nat)
    requires i < |ids| - 1
  {
    ids[i] in s.successorOf && s.successorOf[ids[i]] == ids[i + 1] && !s.Book().IsCurrent(ids[i])
  }

  /**
   After any number of successful upgrades, whatever others do in between, verify reports the last
   successor for the learner and skill of the first record, every earlier id is superseded for good,
   and the last successor has no holder but one bound to it.
   */
  lemma {:induction false} UpgradesLeadToTip(d: MvpDeployment, s: MvpState, first: Bytes32, ups: seq<Upgrade>)
    requires d.Valid() && Theorems.Sound(d, s) && s.Book().IsCurrent(first) && Upgraded(d, s, first, ups).Some?
    ensures var (s', ids) := Upgraded(d, s, first, ups).value;
      && ids[0] == first && LeadsToTip(d, s', ids, s.attestations[first].subject, s.attestations[first].skill)
      && (ups != [] ==> BindingOf(s', ids[|ups|]) == NO_BINDING)
  {
    if ups == [] {
      CurrentLeadsToItself(d, s, first);
    } else {
      UpgradesLeadToTip(d, s, first, ups[..|ups| - 1]);
      var (s0, ids) := Upgraded(d, s, first, ups[..|ups| - 1]).value;
      OneMoreUpgrade(d, s0, ids, ups[|ups| - 1], s.attestations[first].subject, s.attestations[first].skill);
    }
  }

  /** The id of the record this upgrade would make in the line that starts at first. */
  function LineId(d: MvpDeployment, s: MvpState, first: Bytes32, u: Upgrade): Bytes32
    requires first in s.attestations
  {
    d.idOf(s.attestations[first].subject, s.attestations[first].skill, u.program, u.evidence)
  }

  /** Every upgrade carries a program and evidence, and the ids they lead to are new and all different. */
  ghost predicate Upgradable(d: MvpDeployment, s: MvpState, first: Bytes32, ups: seq<Upgrade>)
    requires first in s.attestations
  {
    && (forall i :: 0 <= i < |ups| ==> ups[i].program != 0 && ups[i].evidence != 0 && LineId(d, s, first, ups[i]) !in s.attestations)
    && (forall i, j :: 0 <= i < j < |ups| ==> LineId(d, s, first, ups[i]) != LineId(d, s, first, ups[j]))
  }

  function LineIds(d: MvpDeployment, s: MvpState, first: Bytes32, ups: seq<Upgrade>): set<Bytes32>
    requires first in s.attestations
  {
    set i | 0 <= i < |ups| :: LineId(d, s, first, ups[i])
  }

  lemma UpgradableStep(d: MvpDeployment, s: MvpState, first: Bytes32, ups: seq<Upgrade>)
    requires first in s.attestations && ups != []
    ensures var n := |ups| - 1;
      var id := LineId(d, s, first, ups[n]);
      && LineIds(d, s, first, ups) == LineIds(d, s, first, ups[..n]) + {id}
      && (Upgradable(d, s, first, ups) <==>
            && Upgradable(d, s, first, ups[..n]) && ups[n].program != 0 && ups[n].evidence != 0
            && id !in s.attestations.Keys + LineIds(d, s, first, ups[..n]))
  {
    var n := |ups| - 1;
    assert ups == ups[..n] + [ups[n]];
    forall i | 0 <= i < n ensures LineId(d, s, first, ups[i]) in LineIds(d, s, first, ups[..n]) {
      assert ups[..n][i] == ups[i];
    }
  }

  /** With nobody in between, exactly when a whole line of upgrades goes through, and the ids it returns. */
  lemma {:induction false} UpgradesGoThroughIff(d: MvpDeployment, s: MvpState, first: Bytes32, ups: seq<Upgrade>)
    requires d.Valid() && Theorems.Sound(d, s) && s.Book().IsCurrent(first)
    requires forall i :: 0 <= i < |ups| ==> ups[i].between == []
    ensures Upgraded(d, s, first, ups).Some? <==> Upgradable(d, s, first, ups)
    ensures Upgraded(d, s, first, ups).Some? ==> FollowsLine(d, s, first, ups)
  {
    if ups != [] {
      var n := |ups| - 1;
      UpgradesGoThroughIff(d, s, first, ups[..n]);
      UpgradableStep(d, s, first, ups);
      if Upgraded(d, s, first, ups[..n]).Some? {
        UpgradesLeadToTip(d, s, first, ups[..n]);
        OneMoreInLine(d, s, first, ups);
      }
    }
  }

  /** The ids after these upgrades, and the records known then, are those of the line. */
  ghost predicate FollowsLine(d: MvpDeployment, s: MvpState, first: Bytes32, ups: seq<Upgrade>)
    requires first in s.attestations && Upgraded(d, s, first, ups).Some?
  {
    var (s', ids) := Upgraded(d, s, first, ups).value;
    && (forall i :: 0 <= i < |ups| ==> ids[i + 1] == LineId(d, s, first, ups[i]))
    && s'.attestations.Keys == s.attestations.Keys + LineIds(d, s, first, ups)
  }

  ghost predicate EndsActive(s: MvpState, ids: seq<Bytes32>, subject: Bytes32, skill: Bytes32) {
    ids != [] && About(s, ids[|ids| - 1], subject, skill) && s.attestations[ids[|ids| - 1]].active
  }

  lemma OneMoreInLine(d: MvpDeployment, s: MvpState, first: Bytes32, ups: seq<Upgrade>)
    requires first in s.attestations && ups != [] && ups[|ups| - 1].between == []
    requires var before := Upgraded(d, s, first, ups[..|ups| - 1]);
      before.Some? && FollowsLine(d, s, first, ups[..|ups| - 1])
      && EndsActive(before.value.0, before.value.1, s.attestations[first].subject, s.attestations[first].skill)
    ensures var u := ups[|ups| - 1];
      Upgraded(d, s, first, ups).Some? <==>
        && u.program != 0 && u.evidence != 0
        && LineId(d, s, first, u) !in s.attestations.Keys + LineIds(d, s, first, ups[..|ups| - 1])
    ensures Upgraded(d, s, first, ups).Some? ==> FollowsLine(d, s, first, ups)
  {
    var n := |ups| - 1;
    var (s', ids) := Upgraded(d, s, first, ups[..n]).value;
    UpgradableStep(d, s, first, ups);
    OneMoreGoesThroughIff(d, s', ids, ups[n], s.attestations[first].subject, s.attestations[first].skill);
    forall i | 0 <= i < n ensures ids[i + 1] == LineId(d, s, first, ups[i]) {
      assert ups[..n][i] == ups[i];
    }
  }

  lemma OneMoreGoesThroughIff(d: MvpDeployment, s: MvpState, ids: seq<Bytes32>, u: Upgrade, subject: Bytes32, skill: Bytes32)
    requires EndsActive(s, ids, subject, skill) && u.between == []
    ensures var id := d.idOf(subject, skill, u.program, u.evidence);
      && (UpgradeOnce(d, s, ids, u).Some? <==> u.program != 0 && u.evidence != 0 && id !in s.attestations)
      && (UpgradeOnce(d, s, ids, u).Some? ==>
            var (s', ids') := UpgradeOnce(d, s, ids, u).value;
            ids' == ids + [id] && s'.attestations.Keys == s.attestations.Keys + {id})
  {
  }

  lemma CurrentLeadsToItself(d: MvpDeployment, s: MvpState, first: Bytes32)
    requires d.Valid() && Theorems.Sound(d, s) && s.Book().IsCurrent(first)
    ensures LeadsToTip(d, s, [first], s.attestations[first].subject, s.attestations[first].skill)
  {
    assert s.Book().Active(first) && s.attestations[first].skill in s.Book().records[first].skills;
  }

  lemma OneMoreUpgrade(d: MvpDeployment, s: MvpState, ids: seq<Bytes32>, u: Upgrade, subject: Bytes32, skill: Bytes32)
    requires d.Valid() && LeadsToTip(d, s, ids, subject, skill) && UpgradeOnce(d, s, ids, u).Some?
    ensures var (s', ids') := UpgradeOnce(d, s, ids, u).value;
      && |ids'| == |ids| + 1 && ids'[0] == ids[0] && LeadsToTip(d, s', ids', subject, skill)
      && BindingOf(s', ids'[|ids|]) == NO_BINDING
  {
    var s1 := Run(d, s, u.between);
    InterferenceKeepsLineage(d, s, ids, u.between);
    UpgradeExtends(d, s1, MvpTx(d.root, u.now, MvpCall.Supersede(ids[|ids| - 1], u.program, u.evidence)), ids);
  }

  /** The ids are a line of superseded records ending at one that verify reports for this learner and skill. */
  ghost predicate LeadsToTip(d: MvpDeployment, s: MvpState, ids: seq<Bytes32>, subject: Bytes32, skill: Bytes32) {
    && Theorems.Sound(d, s) && Lineage(s, ids) && ids != [] && About(s, ids[|ids| - 1], subject, skill)
    && Verified(s, subject, skill) == Verification(true, ids[|ids| - 1], true)
  }

  predicate About(s: MvpState, id: Bytes32, subject: Bytes32, skill: Bytes32) {
    id in s.attestations && s.attestations[id].subject == subject && s.attestations[id].skill == skill
  }

  lemma InterferenceKeepsLineage(d: MvpDeployment, s: MvpState, ids: seq<Bytes32>, txs: seq<MvpTx>)
    requires d.Valid() && Theorems.Sound(d, s) && Lineage(s, ids)
    ensures Theorems.Sound(d, Run(d, s, txs)) && Lineage(Run(d, s, txs), ids)
    ensures forall id, subject, skill :: About(s, id, subject, skill) ==> About(Run(d, s, txs), id, subject, skill)
  {
    var s' := Run(d, s, txs);
    Theorems.RunSound(d, s, txs);
    LineageKept(d, s, s', ids);
    forall id, subject, skill | About(s, id, subject, skill) ensures About(s', id, subject, skill) {
      assert SameClaim(s.Book().records[id], s'.Book().records[id]);
      assert [s.attestations[id].skill][0] == [s'.attestations[id].skill][0];
    }
  }

  lemma UpgradeExtends(d: MvpDeployment, s: MvpState, tx: MvpTx, ids: seq<Bytes32>)
    requires d.Valid() && Theorems.Sound(d, s) && Lineage(s, ids) && ids != []
    requires tx.call.Supersede? && tx.call.predecessor == ids[|ids| - 1] && Fault(d, s, tx).None?
    ensures var r, id := s.attestations[tx.call.predecessor], SuccessorId(d, s, tx.call);
      LeadsToTip(d, Apply(d, s, tx), ids + [id], r.subject, r.skill) && BindingOf(Apply(d, s, tx), id) == NO_BINDING
  {
    var s', id := Apply(d, s, tx), SuccessorId(d, s, tx.call);
    assert Lineage(s', ids + [id]) by { LineageExtended(d, s, tx, ids); }
    assert Theorems.Sound(d, s') by { Theorems.StepSound(d, s, tx); }
    SupersedeTakesOver(d, s, tx);
  }

  lemma LineageKept(d: MvpDeployment, s: MvpState, s': MvpState, ids: seq<Bytes32>)
    requires Consistent(d.root, s.Book()) && Grows(s.Book(), s'.Book()) && Lineage(s, ids)
    ensures Lineage(s', ids)
  {
    forall i | 0 <= i < |ids| ensures ids[i] in s'.attestations {
      assert ids[i] in s.Book().records;
    }
    forall i | 0 <= i < |ids| - 1 ensures Superseded(s', ids, i) {
      assert Superseded(s, ids, i) && ids[i] in s.Book().successorOf;
    }
  }

  lemma LineageExtended(d: MvpDeployment, s: MvpState, tx: MvpTx, ids: seq<Bytes32>)
    requires d.Valid() && Theorems.Sound(d, s) && Lineage(s, ids) && ids != []
    requires tx.call.Supersede? && tx.call.predecessor == ids[|ids| - 1] && Fault(d, s, tx).None?
    ensures Lineage(Apply(d, s, tx), ids + [SuccessorId(d, s, tx.call)])
  {
    var s', id := Apply(d, s, tx), SuccessorId(d, s, tx.call);
    assert Lineage(s', ids) by {
      Theorems.StepSound(d, s, tx);
      LineageKept(d, s, s', ids);
    }
    assert id !in s.attestations && id in s'.attestations && LastSuperseded(s', ids, id) by { SupersedeTakesOver(d, s, tx); }
    AppendToLineage(s, s', ids, id);
  }

  ghost predicate LastSuperseded(s: MvpState, ids: seq<Bytes32>, id: Bytes32)
    requires ids != []
  {
    var last := ids[|ids| - 1];
    last in s.successorOf && s.successorOf[last] == id && !s.Book().IsCurrent(last)
  }

  lemma AppendToLineage(s: MvpState, s': MvpState, ids: seq<Bytes32>, id: Bytes32)
    requires ids != [] && Lineage(s, ids) && Lineage(s', ids)
    requires id !in s.attestations && id in s'.attestations && LastSuperseded(s', ids, id)
    ensures Lineage(s', ids + [id])
  {
    forall i | 0 <= i < |ids| ensures Superseded(s', ids + [id], i) {
      assert i < |ids| - 1 ==> Superseded(s', ids, i);
    }
  }
}
