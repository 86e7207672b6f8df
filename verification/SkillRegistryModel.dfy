/**
 The specification of SkillRegistry: which calls revert and with which error, and what the
 successful ones do to storage. The contract itself, with its loops and its rollback, is the
 class in SkillRegistryContract.dfy.
 */
module SkillRegistryModel {
  import opened Evm
  import opened RecordBook

  /** What is fixed when the contract is deployed, plus the two functions it calls but does not define. */
  datatype Deployment = Deployment(
    root: Address,
    idOf: (Bytes32, Bytes32) -> Bytes32,
    proves: (seq<Bytes32>, PublicInput) -> bool
  ) {
    /** keccak256 is only known never to give the zero word. */
    ghost predicate Valid() {
      forall subject, credential :: idOf(subject, credential) != 0
    }
  }

  datatype PublicInput = PublicInput(commitment: Bytes32, threshold: Bytes32)

  datatype DelegatedIssuer = DelegatedIssuer(
    scopeMask: Uint8,
    active: bool,
    subject: Bytes32,
    skill: Bytes32,
    program: Bytes32,
    expiresAt: Uint64
  )

  const NO_DELEGATION := DelegatedIssuer(0, false, 0, 0, 0, 0)

  datatype State = State(
    book: Book,
    delegated: map<Address, DelegatedIssuer>,
    holders: map<Bytes32, HolderBinding>
  )

  const INITIAL := State(EMPTY_BOOK, map[], map[])

  datatype Call =
    | DelegateIssuer(child: Address, scopeMask: Uint8)
    | DelegateIssuerFor(child: Address, scopeMask: Uint8, subject: Bytes32, skill: Bytes32, program: Bytes32, expiresAt: Uint64)
    | RevokeIssuer(child: Address)
    | AttestWithProof(subject: Bytes32, credential: Bytes32, evidence: Bytes32, program: Bytes32, scope: Scope,
                      skills: seq<Bytes32>, proof: seq<Bytes32>, input: PublicInput)
    | SupersedeWithProof(predecessor: Bytes32, credential: Bytes32, evidence: Bytes32, program: Bytes32,
                         proof: seq<Bytes32>, input: PublicInput)
    | RevokeAttestation(id: Bytes32)
    | BindHolder(id: Bytes32, holder: Address, expiresAt: Uint64)
    | RevokeHolderBinding(id: Bytes32)

  datatype Tx = Tx(sender: Address, now: Timestamp, call: Call)

  datatype Error =
    | OnlyRootIssuer
    | UnauthorizedIssuer(issuer: Address, scope: Scope)
    | InvalidAddress
    | EmptySkills
    | InvalidCommitment
    | DuplicateAttestation(id: Bytes32)
    | UnknownAttestation(id: Bytes32)
    | AlreadyRevoked(id: Bytes32)
    | PublicCommitmentMismatch
    | ProofRejected
    | SkillAlreadyActive(subject: Bytes32, skill: Bytes32)
    | RootUpdateRequiresPredecessor
    | DelegationExpired(issuer: Address)
    | DelegationSubjectMismatch(issuer: Address)
    | DelegationSkillMismatch(issuer: Address)
    | DelegationProgramMismatch(issuer: Address)
    | InvalidDelegation
    | UnauthorizedHolderBindingIssuer(issuer: Address)
    | HolderBindingActive(id: Bytes32)
    | InvalidHolderBinding

  // ------------------------------------------------- authorization views

  function DelegationOf(s: State, child: Address): DelegatedIssuer {
    if child in s.delegated then s.delegated[child] else NO_DELEGATION
  }

  /** Bit 0 of a scope mask is GitHubDeployment and bit 1 is WebPage. */
  predicate Covers(scopeMask: Uint8, scope: Scope) {
    match scope
    case GitHubDeployment => scopeMask % 2 == 1
    case WebPage => scopeMask / 2 % 2 == 1
  }

  predicate IsScopedIssuer(d: Deployment, s: State, issuer: Address, scope: Scope) {
    issuer == d.root || (DelegationOf(s, issuer).active && Covers(DelegationOf(s, issuer).scopeMask, scope))
  }

  function MatchFault(g: DelegatedIssuer, issuer: Address, now: Timestamp, subject: Bytes32, program: Bytes32,
                      skills: seq<Bytes32>): Option<Error>
  {
    if g.subject == 0 then None
    else if now >= g.expiresAt then Some(DelegationExpired(issuer))
    else if g.subject != subject then Some(DelegationSubjectMismatch(issuer))
    else if g.program != program then Some(DelegationProgramMismatch(issuer))
    else if skills != [g.skill] then Some(DelegationSkillMismatch(issuer))
    else None
  }

  predicate VerifyAttestation(d: Deployment, s: State, id: Bytes32, evidence: Bytes32) {
    && s.book.Active(id) && s.book.records[id].evidence == evidence
    && IsScopedIssuer(d, s, s.book.records[id].issuer, s.book.records[id].scope)
  }

  predicate MayBindHolder(d: Deployment, s: State, sender: Address, r: Attestation) {
    sender == d.root || (sender == r.issuer && IsScopedIssuer(d, s, sender, r.scope))
  }

  function BindingOf(s: State, id: Bytes32): HolderBinding {
    if id in s.holders then s.holders[id] else NO_BINDING
  }

  predicate IsHolderAuthorized(s: State, id: Bytes32, holder: Address, now: Timestamp) {
    s.book.HolderAuthorized(s.holders, id, holder, now)
  }

  // -------------------------------------------------------------- faults

  /** A skill the recording loop would stop at, given that it got that far. */
  predicate BadSkill(index: map<Slot, Bytes32>, subject: Bytes32, skills: seq<Bytes32>, i: nat)
    requires i < |skills|
  {
    skills[i] == 0 || (subject, skills[i]) in index || skills[i] in skills[..i]
  }

  function FirstBad(index: map<Slot, Bytes32>, subject: Bytes32, skills: seq<Bytes32>, start: nat): (n: nat)
    requires start <= |skills|
    ensures start <= n <= |skills|
    ensures forall i :: start <= i < n ==> !BadSkill(index, subject, skills, i)
    ensures n < |skills| ==> BadSkill(index, subject, skills, n)
    decreases |skills| - start
  {
    if start == |skills| || BadSkill(index, subject, skills, start) then start
    else FirstBad(index, subject, skills, start + 1)
  }

  function SkillError(subject: Bytes32, skill: Bytes32): Error {
    if skill == 0 then InvalidCommitment else SkillAlreadyActive(subject, skill)
  }

  function SkillsFault(index: map<Slot, Bytes32>, subject: Bytes32, skills: seq<Bytes32>): Option<Error> {
    var n := FirstBad(index, subject, skills, 0);
    if n == |skills| then None else Some(SkillError(subject, skills[n]))
  }

  /** No skill before position n would stop the loop. */
  ghost predicate CleanBefore(index: map<Slot, Bytes32>, subject: Bytes32, skills: seq<Bytes32>, n: nat)
    requires n <= |skills|
  {
    forall i :: 0 <= i < n ==> !BadSkill(index, subject, skills, i)
  }

  lemma FaultIsAt(index: map<Slot, Bytes32>, subject: Bytes32, skills: seq<Bytes32>, n: nat)
    requires n <= |skills| && CleanBefore(index, subject, skills, n)
    requires n < |skills| ==> BadSkill(index, subject, skills, n)
    ensures SkillsFault(index, subject, skills) == if n == |skills| then None else Some(SkillError(subject, skills[n]))
  {
    assert FirstBad(index, subject, skills, 0) == n;
  }

  function AttestFault(d: Deployment, s: State, tx: Tx): Option<Error>
    requires tx.call.AttestWithProof?
  {
    var c := tx.call;
    var id := d.idOf(c.subject, c.credential);
    if tx.sender == d.root then Some(RootUpdateRequiresPredecessor)
    else if !IsScopedIssuer(d, s, tx.sender, c.scope) then Some(UnauthorizedIssuer(tx.sender, c.scope))
    else
      var mismatch := MatchFault(DelegationOf(s, tx.sender), tx.sender, tx.now, c.subject, c.program, c.skills);
      if mismatch.Some? then mismatch
      else if c.subject == 0 || c.credential == 0 || c.program == 0 || c.evidence == 0 then Some(InvalidCommitment)
      else if c.skills == [] then Some(EmptySkills)
      else if c.input.commitment != c.credential then Some(PublicCommitmentMismatch)
      else if !d.proves(c.proof, c.input) then Some(ProofRejected)
      else if id in s.book.records then Some(DuplicateAttestation(id))
      else SkillsFault(s.book.index, c.subject, c.skills)
  }

  function SupersedeFault(d: Deployment, s: State, tx: Tx): Option<Error>
    requires tx.call.SupersedeWithProof?
  {
    var c := tx.call;
    if tx.sender != d.root then Some(OnlyRootIssuer)
    else if c.predecessor !in s.book.records then Some(UnknownAttestation(c.predecessor))
    else if !s.book.records[c.predecessor].active then Some(AlreadyRevoked(c.predecessor))
    else if c.credential == 0 || c.evidence == 0 || c.program == 0 then Some(InvalidCommitment)
    else if c.input.commitment != c.credential then Some(PublicCommitmentMismatch)
    else if !d.proves(c.proof, c.input) then Some(ProofRejected)
    else
      var id := d.idOf(s.book.records[c.predecessor].subject, c.credential);
      if id in s.book.records then Some(DuplicateAttestation(id)) else None
  }

  function Fault(d: Deployment, s: State, tx: Tx): Option<Error> {
    var records := s.book.records;
    match tx.call
    case DelegateIssuer(child, mask) =>
      if tx.sender != d.root then Some(OnlyRootIssuer)
      else if child == 0 || mask == 0 || mask > 3 then Some(InvalidAddress)
      else None
    case DelegateIssuerFor(child, mask, subject, skill, program, expiresAt) =>
      if tx.sender != d.root then Some(OnlyRootIssuer)
      else if child == 0 || mask == 0 || mask > 3 || subject == 0 || skill == 0 || program == 0 || expiresAt <= tx.now
      then Some(InvalidDelegation)
      else None
    case RevokeIssuer(child) => if tx.sender != d.root then Some(OnlyRootIssuer) else None
    case AttestWithProof(_, _, _, _, _, _, _, _) => AttestFault(d, s, tx)
    case SupersedeWithProof(_, _, _, _, _, _) => SupersedeFault(d, s, tx)
    case RevokeAttestation(id) =>
      if id !in records then Some(UnknownAttestation(id))
      else if !records[id].active then Some(AlreadyRevoked(id))
      else if tx.sender != d.root && tx.sender != records[id].issuer then Some(OnlyRootIssuer)
      else None
    case BindHolder(id, holder, expiresAt) =>
      if id !in records then Some(UnknownAttestation(id))
      else if !records[id].active || holder == 0 || expiresAt <= tx.now then Some(InvalidHolderBinding)
      else if !MayBindHolder(d, s, tx.sender, records[id]) then Some(UnauthorizedHolderBindingIssuer(tx.sender))
      else if BindingOf(s, id).active && BindingOf(s, id).expiresAt > tx.now then Some(HolderBindingActive(id))
      else None
    case RevokeHolderBinding(id) =>
      if id !in records then Some(UnknownAttestation(id))
      else if !MayBindHolder(d, s, tx.sender, records[id]) then Some(UnauthorizedHolderBindingIssuer(tx.sender))
      else if !BindingOf(s, id).active then Some(InvalidHolderBinding)
      else None
  }

  // ------------------------------------------------------------- effects

  /** What a successful call does to the records, the index and the lineage maps. */
  function EditOf(d: Deployment, s: State, tx: Tx): Edit
    requires Fault(d, s, tx).None?
  {
    match tx.call
    case AttestWithProof(subject, credential, evidence, program, scope, skills, _, _) =>
      Opened(d.idOf(subject, credential),
             Attestation(subject, credential, evidence, program, tx.sender, scope, tx.now, 0, true, skills))
    case SupersedeWithProof(p, credential, evidence, program, _, _) =>
      var previous := s.book.records[p];
      Extended(p, d.idOf(previous.subject, credential),
               Attestation(previous.subject, credential, evidence, program, d.root, previous.scope, tx.now, 0, true, previous.skills),
               tx.now)
    case RevokeAttestation(id) => Closed(id, tx.now)
    case _ => Untouched
  }

  /** The delegation a successful call leaves for one child address, if it sets one. */
  function Granted(s: State, call: Call): map<Address, DelegatedIssuer> {
    match call
    case DelegateIssuer(child, mask) => s.delegated[child := DelegatedIssuer(mask, true, 0, 0, 0, 0)]
    case DelegateIssuerFor(child, mask, subject, skill, program, expiresAt) =>
      s.delegated[child := DelegatedIssuer(mask, true, subject, skill, program, expiresAt)]
    case RevokeIssuer(child) => s.delegated[child := DelegationOf(s, child).(active := false, scopeMask := 0)]
    case _ => s.delegated
  }

  function Bound(s: State, call: Call): map<Bytes32, HolderBinding> {
    match call
    case BindHolder(id, holder, expiresAt) => s.holders[id := HolderBinding(holder, expiresAt, true)]
    case RevokeHolderBinding(id) => s.holders[id := BindingOf(s, id).(active := false)]
    case _ => s.holders
  }

  /** One transaction: a reverted call leaves storage as it was. */
  function Apply(d: Deployment, s: State, tx: Tx): State {
    if Fault(d, s, tx).Some? then s
    else State(Edited(s.book, EditOf(d, s, tx)), Granted(s, tx.call), Bound(s, tx.call))
  }

  /** Any transactions, by anyone, at any times, in this order. */
  function Run(d: Deployment, s: State, txs: seq<Tx>): State {
    if txs == [] then s else Apply(d, Run(d, s, txs[..|txs| - 1]), txs[|txs| - 1])
  }
}
