/** The specification of SkillMVPRegistry: one skill a record, no proof, no scope. */
module SkillMvpModel {
  import opened Evm
  import opened RecordBook

  datatype MvpDeployment = MvpDeployment(root: Address, idOf: (Bytes32, Bytes32, Bytes32, Bytes32) -> Bytes32) {
    /** keccak256 is only known never to give the zero word. */
    ghost predicate Valid() {
      forall subject, skill, program, evidence :: idOf(subject, skill, program, evidence) != 0
    }
  }

  datatype MvpAttestation = MvpAttestation(
    subject: Bytes32,
    skill: Bytes32,
    program: Bytes32,
    evidence: Bytes32,
    issuer: Address,
    issuedAt: Uint64,
    revokedAt: Uint64,
    active: bool
  )

  datatype MvpDelegation = MvpDelegation(subject: Bytes32, skill: Bytes32, program: Bytes32, expiresAt: Uint64, active: bool)

  const NO_MVP_DELEGATION := MvpDelegation(0, 0, 0, 0, false)

  datatype MvpState = MvpState(
    attestations: map<Bytes32, MvpAttestation>,
    index: map<Slot, Bytes32>,
    successorOf: map<Bytes32, Bytes32>,
    predecessorOf: map<Bytes32, Bytes32>,
    delegated: map<Address, MvpDelegation>,
    holders: map<Bytes32, HolderBinding>
  ) {
    /** The same storage seen as a book: each record lists its one skill. */
    function Book(): Book {
      RecordBook.Book(SeenAll(attestations), index, successorOf, predecessorOf)
    }
  }

  function Seen(r: MvpAttestation): Attestation {
    Attestation(r.subject, 0, r.evidence, r.program, r.issuer, GitHubDeployment, r.issuedAt, r.revokedAt, r.active, [r.skill])
  }

  function SeenAll(table: map<Bytes32, MvpAttestation>): map<Bytes32, Attestation> {
    map id | id in table :: Seen(table[id])
  }

  const MVP_INITIAL := MvpState(map[], map[], map[], map[], map[], map[])

  datatype MvpCall =
    | DelegateIssuerFor(child: Address, subject: Bytes32, skill: Bytes32, program: Bytes32, expiresAt: Uint64)
    | RevokeIssuer(child: Address)
    | Attest(subject: Bytes32, skill: Bytes32, program: Bytes32, evidence: Bytes32)
    | Supersede(predecessor: Bytes32, program: Bytes32, evidence: Bytes32)
    | RevokeAttestation(id: Bytes32)
    | BindHolder(id: Bytes32, holder: Address, expiresAt: Uint64)
    | RevokeHolderBinding(id: Bytes32)

  datatype MvpTx = MvpTx(sender: Address, now: Timestamp, call: MvpCall)

  datatype MvpError =
    | OnlyRootIssuer
    | UnauthorizedIssuer(issuer: Address)
    | InvalidAddress
    | InvalidCommitment
    | InvalidExpiry
    | UnknownAttestation(id: Bytes32)
    | DuplicateAttestation(id: Bytes32)
    | SkillAlreadyActive(subject: Bytes32, skill: Bytes32)
    | AlreadyRevoked(id: Bytes32)
    | HolderBindingActive(id: Bytes32)

  function DelegationOf(s: MvpState, child: Address): MvpDelegation {
    if child in s.delegated then s.delegated[child] else NO_MVP_DELEGATION
  }

  function BindingOf(s: MvpState, id: Bytes32): HolderBinding {
    if id in s.holders then s.holders[id] else NO_BINDING
  }

  predicate Manages(d: MvpDeployment, sender: Address, r: MvpAttestation) {
    sender == d.root || sender == r.issuer
  }

  predicate IsHolderAuthorized(s: MvpState, id: Bytes32, holder: Address, now: Timestamp) {
    s.Book().HolderAuthorized(s.holders, id, holder, now)
  }

  predicate DelegationAllows(g: MvpDelegation, now: Timestamp, subject: Bytes32, skill: Bytes32, program: Bytes32) {
    g.active && now < g.expiresAt && g.subject == subject && g.skill == skill && g.program == program
  }

  function Fault(d: MvpDeployment, s: MvpState, tx: MvpTx): Option<MvpError> {
    match tx.call
    case DelegateIssuerFor(child, subject, skill, program, expiresAt) =>
      if tx.sender != d.root then Some(OnlyRootIssuer)
      else if child == 0 then Some(InvalidAddress)
      else if subject == 0 || skill == 0 || program == 0 then Some(InvalidCommitment)
      else if expiresAt <= tx.now then Some(InvalidExpiry)
      else None
    case RevokeIssuer(child) => if tx.sender != d.root then Some(OnlyRootIssuer) else None
    case Attest(subject, skill, program, evidence) =>
      var id := d.idOf(subject, skill, program, evidence);
      if subject == 0 || skill == 0 || program == 0 || evidence == 0 then Some(InvalidCommitment)
      else if !DelegationAllows(DelegationOf(s, tx.sender), tx.now, subject, skill, program) then Some(UnauthorizedIssuer(tx.sender))
      else if (subject, skill) in s.index then Some(SkillAlreadyActive(subject, skill))
      else if id in s.attestations then Some(DuplicateAttestation(id))
      else None
    case Supersede(p, program, evidence) =>
      if tx.sender != d.root then Some(OnlyRootIssuer)
      else if p !in s.attestations then Some(UnknownAttestation(p))
      else if !s.attestations[p].active then Some(AlreadyRevoked(p))
      else if program == 0 || evidence == 0 then Some(InvalidCommitment)
      else
        var id := d.idOf(s.attestations[p].subject, s.attestations[p].skill, program, evidence);
        if id in s.attestations then Some(DuplicateAttestation(id)) else None
    case RevokeAttestation(id) =>
      if id !in s.attestations then Some(UnknownAttestation(id))
      else if !s.attestations[id].active then Some(AlreadyRevoked(id))
      else if !Manages(d, tx.sender, s.attestations[id]) then Some(UnauthorizedIssuer(tx.sender))
      else None
    case BindHolder(id, holder, expiresAt) =>
      if id !in s.attestations then Some(UnknownAttestation(id))
      else if !s.attestations[id].active || holder == 0 then Some(InvalidAddress)
      else if expiresAt <= tx.now then Some(InvalidExpiry)
      else if !Manages(d, tx.sender, s.attestations[id]) then Some(UnauthorizedIssuer(tx.sender))
      else if BindingOf(s, id).active && BindingOf(s, id).expiresAt > tx.now then Some(HolderBindingActive(id))
      else None
    case RevokeHolderBinding(id) =>
      if id !in s.attestations then Some(UnknownAttestation(id))
      else if !Manages(d, tx.sender, s.attestations[id]) then Some(UnauthorizedIssuer(tx.sender))
      else None
  }

  /** The id a successful supersede gives its new record. */
  function SuccessorId(d: MvpDeployment, s: MvpState, call: MvpCall): Bytes32
    requires call.Supersede? && call.predecessor in s.attestations
  {
    d.idOf(s.attestations[call.predecessor].subject, s.attestations[call.predecessor].skill, call.program, call.evidence)
  }

  function Written(d: MvpDeployment, s: MvpState, tx: MvpTx): map<Bytes32, MvpAttestation>
    requires Fault(d, s, tx).None?
  {
    match tx.call
    case Attest(subject, skill, program, evidence) =>
      s.attestations[d.idOf(subject, skill, program, evidence) :=
        MvpAttestation(subject, skill, program, evidence, tx.sender, tx.now, 0, true)]
    case Supersede(p, program, evidence) =>
      var r := s.attestations[p];
      s.attestations[SuccessorId(d, s, tx.call) := MvpAttestation(r.subject, r.skill, program, evidence, d.root, tx.now, 0, true)]
                    [p := r.(active := false, revokedAt := tx.now)]
    case RevokeAttestation(id) => s.attestations[id := s.attestations[id].(active := false, revokedAt := tx.now)]
    case _ => s.attestations
  }

  function Reindexed(d: MvpDeployment, s: MvpState, tx: MvpTx): map<Slot, Bytes32>
    requires Fault(d, s, tx).None?
  {
    match tx.call
    case Attest(subject, skill, program, evidence) => s.index[(subject, skill) := d.idOf(subject, skill, program, evidence)]
    case Supersede(p, _, _) => s.index[(s.attestations[p].subject, s.attestations[p].skill) := SuccessorId(d, s, tx.call)]
    case RevokeAttestation(id) =>
      var slot := (s.attestations[id].subject, s.attestations[id].skill);
      if slot in s.index && s.index[slot] == id then s.index - {slot} else s.index
    case _ => s.index
  }

  function Granted(s: MvpState, call: MvpCall): map<Address, MvpDelegation> {
    match call
    case DelegateIssuerFor(child, subject, skill, program, expiresAt) =>
      s.delegated[child := MvpDelegation(subject, skill, program, expiresAt, true)]
    case RevokeIssuer(child) => s.delegated[child := DelegationOf(s, child).(active := false)]
    case _ => s.delegated
  }

  function Bound(s: MvpState, call: MvpCall): map<Bytes32, HolderBinding> {
    match call
    case BindHolder(id, holder, expiresAt) => s.holders[id := HolderBinding(holder, expiresAt, true)]
    case RevokeHolderBinding(id) => s.holders[id := BindingOf(s, id).(active := false)]
    case _ => s.holders
  }

  function Effect(d: MvpDeployment, s: MvpState, tx: MvpTx): MvpState
    requires Fault(d, s, tx).None?
  {
    MvpState(
      Written(d, s, tx),
      Reindexed(d, s, tx),
      if tx.call.Supersede? then s.successorOf[tx.call.predecessor := SuccessorId(d, s, tx.call)] else s.successorOf,
      if tx.call.Supersede? then s.predecessorOf[SuccessorId(d, s, tx.call) := tx.call.predecessor] else s.predecessorOf,
      Granted(s, tx.call),
      Bound(s, tx.call))
  }

  function Apply(d: MvpDeployment, s: MvpState, tx: MvpTx): MvpState {
    if Fault(d, s, tx).Some? then s else Effect(d, s, tx)
  }

  function Run(d: MvpDeployment, s: MvpState, txs: seq<MvpTx>): MvpState {
    if txs == [] then s else Apply(d, Run(d, s, txs[..|txs| - 1]), txs[|txs| - 1])
  }

  /** What the transaction does to the book; nothing when it reverts. */
  function StepEdit(d: MvpDeployment, s: MvpState, tx: MvpTx): Edit {
    if Fault(d, s, tx).Some? then Untouched
    else
      match tx.call
      case Attest(subject, skill, program, evidence) =>
        Opened(d.idOf(subject, skill, program, evidence),
               Seen(MvpAttestation(subject, skill, program, evidence, tx.sender, tx.now, 0, true)))
      case Supersede(p, program, evidence) =>
        var r := s.attestations[p];
        Extended(p, SuccessorId(d, s, tx.call),
                 Seen(MvpAttestation(r.subject, r.skill, program, evidence, d.root, tx.now, 0, true)), tx.now)
      case RevokeAttestation(id) => Closed(id, tx.now)
      case _ => Untouched
  }
}
