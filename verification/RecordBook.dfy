/**
 The part of contract storage that both registries share: the record table and its three
 redundant views, which are the (subject, skill) index and the two lineage maps.

 A Solidity mapping reads as zero where it was never written; here a key is absent instead.
 Whatever a transaction does to this storage is one of three edits, so what every edit keeps,
 every transaction of either registry keeps.
 */
module RecordBook {
  import opened Evm

  datatype Scope = GitHubDeployment | WebPage

  datatype Attestation = Attestation(
    subject: Bytes32,
    credential: Bytes32,
    evidence: Bytes32,
    program: Bytes32,
    issuer: Address,
    scope: Scope,
    issuedAt: Uint64,
    revokedAt: Uint64,
    active: bool,
    skills: seq<Bytes32>
  ) {
    function Deactivate(now: Timestamp): Attestation {
      this.(active := false, revokedAt := now)
    }
  }

  datatype HolderBinding = HolderBinding(holder: Address, expiresAt: Uint64, active: bool)

  const NO_BINDING := HolderBinding(0, 0, false)

  /** A key of the nested index mapping: subject first, skill second. */
  type Slot = (Bytes32, Bytes32)

  datatype Book = Book(
    records: map<Bytes32, Attestation>,
    index: map<Slot, Bytes32>,
    successorOf: map<Bytes32, Bytes32>,
    predecessorOf: map<Bytes32, Bytes32>
  ) {
    predicate Active(id: Bytes32) {
      id in records && records[id].active
    }

    /** What the views of both contracts answer. */
    predicate HasSkill(subject: Bytes32, skill: Bytes32) {
      (subject, skill) in index && Active(index[(subject, skill)])
    }

    predicate IsCurrent(id: Bytes32) {
      Active(id) && id !in successorOf
    }

    function CurrentId(subject: Bytes32, skill: Bytes32): Bytes32 {
      if (subject, skill) in index then index[(subject, skill)] else 0
    }

    predicate HolderAuthorized(holders: map<Bytes32, HolderBinding>, id: Bytes32, holder: Address, now: Timestamp) {
      var binding := if id in holders then holders[id] else NO_BINDING;
      Active(id) && binding.active && binding.holder == holder && now < binding.expiresAt
    }
  }

  const EMPTY_BOOK := Book(map[], map[], map[], map[])

  // ---------------------------------------------------------------- edits

  datatype Edit =
    | Untouched
    | Opened(id: Bytes32, record: Attestation)
    | Extended(predecessor: Bytes32, id: Bytes32, record: Attestation, now: Timestamp)
    | Closed(id: Bytes32, now: Timestamp)

  function Pointing(index: map<Slot, Bytes32>, subject: Bytes32, skills: seq<Bytes32>, id: Bytes32): map<Slot, Bytes32> {
    index + map skill | skill in skills :: (subject, skill) := id
  }

  lemma PointingStep(index: map<Slot, Bytes32>, subject: Bytes32, skills: seq<Bytes32>, i: nat, id: Bytes32)
    requires i < |skills|
    ensures Pointing(index, subject, skills[..i + 1], id) == Pointing(index, subject, skills[..i], id)[(subject, skills[i]) := id]
  {
    assert skills[..i + 1] == skills[..i] + [skills[i]];
  }

  lemma PointingDomain(index: map<Slot, Bytes32>, subject: Bytes32, skills: seq<Bytes32>, id: Bytes32, skill: Bytes32)
    ensures (subject, skill) in Pointing(index, subject, skills, id) <==> (subject, skill) in index || skill in skills
  {
  }

  function Cleared(index: map<Slot, Bytes32>, subject: Bytes32, skills: seq<Bytes32>, id: Bytes32): map<Slot, Bytes32> {
    map slot | slot in index && !(slot.0 == subject && slot.1 in skills && index[slot] == id) :: index[slot]
  }

  ghost predicate FreshRecord(id: Bytes32, record: Attestation) {
    && id != 0 && record.subject != 0 && record.issuedAt != 0
    && record.active && record.revokedAt == 0
    && record.skills != [] && 0 !in record.skills && Distinct(record.skills)
  }

  ghost predicate Possible(root: Address, b: Book, e: Edit) {
    match e
    case Untouched => true
    case Opened(id, record) =>
      && id !in b.records && FreshRecord(id, record)
      && forall skill :: skill in record.skills ==> (record.subject, skill) !in b.index
    case Extended(p, id, record, now) =>
      && b.Active(p) && id !in b.records && FreshRecord(id, record)
      && record.issuer == root && record.issuedAt == now
      && record.subject == b.records[p].subject && record.skills == b.records[p].skills && record.scope == b.records[p].scope
    case Closed(id, now) => b.Active(id)
  }

  function Edited(b: Book, e: Edit): Book
    requires e.Extended? ==> e.predecessor in b.records
    requires e.Closed? ==> e.id in b.records
  {
    match e
    case Untouched => b
    case Opened(id, record) =>
      b.(records := b.records[id := record], index := Pointing(b.index, record.subject, record.skills, id))
    case Extended(p, id, record, now) =>
      Book(b.records[id := record][p := b.records[p].Deactivate(now)],
           Pointing(b.index, record.subject, record.skills, id),
           b.successorOf[p := id],
           b.predecessorOf[id := p])
    case Closed(id, now) =>
      b.(records := b.records[id := b.records[id].Deactivate(now)],
         index := Cleared(b.index, b.records[id].subject, b.records[id].skills, id))
  }

  // ------------------------------------------------ what every edit keeps

  ghost predicate SoundRecord(id: Bytes32, r: Attestation) {
    && id != 0 && r.subject != 0 && r.issuedAt != 0
    && (r.active <==> r.revokedAt == 0)
    && r.skills != [] && 0 !in r.skills && Distinct(r.skills)
  }

  /** The index names exactly the active records, under exactly the skills they list. */
  ghost predicate IndexAgrees(b: Book) {
    && (forall slot :: slot in b.index ==>
          b.Active(b.index[slot]) && slot.0 == b.records[b.index[slot]].subject && slot.1 in b.records[b.index[slot]].skills)
    && (forall id, skill :: b.Active(id) && skill in b.records[id].skills ==>
          (b.records[id].subject, skill) in b.index && b.index[(b.records[id].subject, skill)] == id)
  }

  ghost predicate Replaces(root: Address, before: Attestation, after: Attestation) {
    && !before.active && before.revokedAt == after.issuedAt && after.issuer == root
    && after.subject == before.subject && after.skills == before.skills && after.scope == before.scope
  }

  /** The lineage maps are inverse partial injections between known records. */
  ghost predicate LineageAgrees(root: Address, b: Book) {
    && (forall p :: p in b.successorOf ==>
          && p in b.records && b.successorOf[p] in b.records
          && b.successorOf[p] in b.predecessorOf && b.predecessorOf[b.successorOf[p]] == p
          && Replaces(root, b.records[p], b.records[b.successorOf[p]]))
    && (forall q :: q in b.predecessorOf ==>
          b.predecessorOf[q] in b.successorOf && b.successorOf[b.predecessorOf[q]] == q)
  }

  ghost predicate RecordsSound(b: Book) {
    forall id :: id in b.records ==> SoundRecord(id, b.records[id])
  }

  ghost predicate Consistent(root: Address, b: Book) {
    RecordsSound(b) && IndexAgrees(b) && LineageAgrees(root, b)
  }

  lemma EditKeepsConsistent(root: Address, b: Book, e: Edit)
    requires Consistent(root, b) && Possible(root, b, e)
    ensures Consistent(root, Edited(b, e))
  {
    assert RecordsSound(Edited(b, e)) by { EditKeepsRecords(root, b, e); }
    assert IndexAgrees(Edited(b, e)) by { EditKeepsIndex(root, b, e); }
    assert LineageAgrees(root, Edited(b, e)) by { EditKeepsLineage(root, b, e); }
  }

  lemma EditKeepsRecords(root: Address, b: Book, e: Edit)
    requires RecordsSound(b) && Possible(root, b, e)
    ensures RecordsSound(Edited(b, e))
  {
  }

  lemma EditKeepsIndex(root: Address, b: Book, e: Edit)
    requires IndexAgrees(b) && Possible(root, b, e)
    ensures IndexAgrees(Edited(b, e))
  {
    var b' := Edited(b, e);
    forall id, skill | b'.Active(id) && skill in b'.records[id].skills
      ensures (b'.records[id].subject, skill) in b'.index && b'.index[(b'.records[id].subject, skill)] == id
    {
      if id in b.records {
        assert b.Active(id) && b.index[(b.records[id].subject, skill)] == id;
      }
    }
    forall slot | slot in b'.index
      ensures b'.Active(b'.index[slot]) && slot.0 == b'.records[b'.index[slot]].subject && slot.1 in b'.records[b'.index[slot]].skills
    {
      if slot in b.index && b'.index[slot] == b.index[slot] {
        assert b.Active(b.index[slot]);
      }
    }
  }

  lemma EditKeepsLineage(root: Address, b: Book, e: Edit)
    requires LineageAgrees(root, b) && Possible(root, b, e)
    ensures LineageAgrees(root, Edited(b, e))
  {
    var b' := Edited(b, e);
    forall p | p in b'.successorOf
      ensures p in b'.records && b'.successorOf[p] in b'.records
      ensures b'.successorOf[p] in b'.predecessorOf && b'.predecessorOf[b'.successorOf[p]] == p
      ensures Replaces(root, b'.records[p], b'.records[b'.successorOf[p]])
    {
      assert p in b.successorOf || (e.Extended? && p == e.predecessor);
    }
    forall q | q in b'.predecessorOf
      ensures b'.predecessorOf[q] in b'.successorOf && b'.successorOf[b'.predecessorOf[q]] == q
    {
      assert q in b.predecessorOf || (e.Extended? && q == e.id);
    }
  }

  /** The root issues exactly the records that replace another. */
  ghost predicate RootReplaces(root: Address, b: Book) {
    forall id :: id in b.records ==> (b.records[id].issuer == root <==> id in b.predecessorOf)
  }

  /** An edit breaks that exactly when it opens a record of the root's, and nothing repairs it. */
  lemma EditRootReplacesIff(root: Address, b: Book, e: Edit)
    requires LineageAgrees(root, b) && Possible(root, b, e)
    ensures RootReplaces(root, Edited(b, e)) <==> RootReplaces(root, b) && !(e.Opened? && e.record.issuer == root)
  {
    OldRecordsKeepOrigin(root, b, e);
    NewRecordOrigin(root, b, e);
    OriginsDecide(root, b, Edited(b, e), e);
  }

  lemma OriginsDecide(root: Address, b: Book, b': Book, e: Edit)
    requires (forall id :: id in b.records ==> SameOrigin(b, b', id)) && NewOrigin(root, b, b', e)
    ensures RootReplaces(root, b') <==> RootReplaces(root, b) && !(e.Opened? && e.record.issuer == root)
  {
    if RootReplaces(root, b') {
      forall id | id in b.records ensures b.records[id].issuer == root <==> id in b.predecessorOf {
        assert SameOrigin(b, b', id);
      }
    }
  }

  predicate SameOrigin(b: Book, b': Book, id: Bytes32) {
    && id in b.records && id in b'.records && b'.records[id].issuer == b.records[id].issuer
    && (id in b'.predecessorOf <==> id in b.predecessorOf)
  }

  /** A new record is the one the edit brings, and it has a predecessor just when it extends. */
  ghost predicate NewOrigin(root: Address, b: Book, b': Book, e: Edit) {
    && (forall id :: id in b'.records && id !in b.records ==> (e.Opened? || e.Extended?) && id == e.id)
    && (e.Opened? ==> e.id in b'.records && e.id !in b'.predecessorOf && b'.records[e.id].issuer == e.record.issuer)
    && (e.Extended? ==> e.id in b'.records && e.id in b'.predecessorOf && b'.records[e.id].issuer == root)
  }

  lemma OldRecordsKeepOrigin(root: Address, b: Book, e: Edit)
    requires Possible(root, b, e)
    ensures forall id :: id in b.records ==> SameOrigin(b, Edited(b, e), id)
  {
  }

  lemma NewRecordOrigin(root: Address, b: Book, e: Edit)
    requires LineageAgrees(root, b) && Possible(root, b, e)
    ensures NewOrigin(root, b, Edited(b, e), e)
  {
  }

  // ---------------------------------------------------------- permanence

  /** The fields a record keeps for ever. */
  ghost predicate SameClaim(r: Attestation, r': Attestation) {
    r' == r.(active := r'.active, revokedAt := r'.revokedAt)
  }

  /**
   What may happen to a book over time: records are never removed and keep their claim, a
   deactivated record keeps its revocation time, and lineage links are never rewritten.
   */
  ghost predicate Grows(b: Book, b': Book) {
    RecordsKept(b, b') && LinksKept(b, b')
  }

  ghost predicate RecordsKept(b: Book, b': Book) {
    forall id :: id in b.records ==>
      && id in b'.records && SameClaim(b.records[id], b'.records[id])
      && (!b.records[id].active ==> b'.records[id] == b.records[id])
  }

  ghost predicate LinksKept(b: Book, b': Book) {
    && (forall p :: p in b.successorOf ==> p in b'.successorOf && b'.successorOf[p] == b.successorOf[p])
    && (forall q :: q in b.predecessorOf ==> q in b'.predecessorOf && b'.predecessorOf[q] == b.predecessorOf[q])
  }

  lemma EditGrows(root: Address, b: Book, e: Edit)
    requires LineageAgrees(root, b) && Possible(root, b, e)
    ensures Grows(b, Edited(b, e))
  {
    assert RecordsKept(b, Edited(b, e)) by { EditKeepsClaims(root, b, e); }
    assert LinksKept(b, Edited(b, e)) by { EditKeepsLinks(root, b, e); }
  }

  lemma EditKeepsClaims(root: Address, b: Book, e: Edit)
    requires Possible(root, b, e)
    ensures RecordsKept(b, Edited(b, e))
  {
  }

  lemma EditKeepsLinks(root: Address, b: Book, e: Edit)
    requires LineageAgrees(root, b) && Possible(root, b, e)
    ensures LinksKept(b, Edited(b, e))
  {
  }

  lemma GrowsTransitive(a: Book, b: Book, c: Book)
    requires Grows(a, b) && Grows(b, c)
    ensures Grows(a, c)
  {
  }

  /** In a consistent book a current record is simply an active one. */
  lemma CurrentIffActive(root: Address, b: Book, id: Bytes32)
    requires Consistent(root, b)
    ensures b.IsCurrent(id) <==> b.Active(id)
  {
  }

  /** The index answers for one active record at most, and answers whenever there is one. */
  lemma HasSkillIffListed(root: Address, b: Book, subject: Bytes32, skill: Bytes32)
    requires Consistent(root, b)
    ensures b.HasSkill(subject, skill) <==>
            exists id :: b.Active(id) && b.records[id].subject == subject && skill in b.records[id].skills
    ensures forall id :: b.Active(id) && b.records[id].subject == subject && skill in b.records[id].skills ==>
              id == b.CurrentId(subject, skill)
    ensures b.CurrentId(subject, skill) != 0 <==> b.HasSkill(subject, skill)
    ensures b.HasSkill(subject, skill) ==> b.IsCurrent(b.CurrentId(subject, skill))
  {
  }

  // ------------------------------------------- what an edit shows a reader

  /** Outside these records and slots a reader sees what was there before. */
  ghost predicate OnlyChanges(b: Book, b': Book, ids: set<Bytes32>, subject: Bytes32, skills: seq<Bytes32>) {
    && (forall id :: id !in ids ==> (id in b'.records <==> id in b.records) && (id in b.records ==> b'.records[id] == b.records[id]))
    && (forall subject', skill :: subject' != subject || skill !in skills ==>
          b'.CurrentId(subject', skill) == b.CurrentId(subject', skill) && b'.HasSkill(subject', skill) == b.HasSkill(subject', skill))
  }

  ghost predicate ShowsSkills(b: Book, subject: Bytes32, skills: seq<Bytes32>, id: Bytes32) {
    forall skill :: skill in skills ==> b.HasSkill(subject, skill) && b.CurrentId(subject, skill) == id
  }

  ghost predicate ShowsNoSkill(b: Book, subject: Bytes32, skills: seq<Bytes32>) {
    forall skill :: skill in skills ==> !b.HasSkill(subject, skill) && b.CurrentId(subject, skill) == 0
  }

  lemma OpenedShows(root: Address, b: Book, e: Edit)
    requires Consistent(root, b) && e.Opened? && Possible(root, b, e)
    ensures ShowsSkills(Edited(b, e), e.record.subject, e.record.skills, e.id)
    ensures OnlyChanges(b, Edited(b, e), {e.id}, e.record.subject, e.record.skills)
    ensures Edited(b, e).IsCurrent(e.id)
  {
    PointingShows(b, Edited(b, e), e.record.subject, e.record.skills, e.id);
  }

  /** Repointing the index changes what it names for these skills only. */
  lemma PointingShows(b: Book, b': Book, subject: Bytes32, skills: seq<Bytes32>, id: Bytes32)
    requires b'.index == Pointing(b.index, subject, skills, id)
    ensures forall skill :: skill in skills ==> b'.CurrentId(subject, skill) == id && (subject, skill) in b'.index
    ensures forall subject', skill :: subject' != subject || skill !in skills ==>
              b'.CurrentId(subject', skill) == b.CurrentId(subject', skill)
              && ((subject', skill) in b'.index <==> (subject', skill) in b.index)
  {
    forall skill | skill in skills ensures (subject, skill) in b'.index && b'.index[(subject, skill)] == id {
      PointingDomain(b.index, subject, skills, id, skill);
    }
  }

  lemma ExtendedShows(root: Address, b: Book, e: Edit)
    requires Consistent(root, b) && e.Extended? && Possible(root, b, e)
    ensures ShowsSkills(Edited(b, e), e.record.subject, e.record.skills, e.id)
    ensures OnlyChanges(b, Edited(b, e), {e.predecessor, e.id}, e.record.subject, e.record.skills)
    ensures Edited(b, e).IsCurrent(e.id) && !Edited(b, e).IsCurrent(e.predecessor)
  {
    assert e.id !in b.successorOf;
    PointingShows(b, Edited(b, e), e.record.subject, e.record.skills, e.id);
    assert forall subject, skill :: subject != e.record.subject || skill !in e.record.skills ==>
        Edited(b, e).HasSkill(subject, skill) == b.HasSkill(subject, skill)
    by { ExtendedKeepsOthers(b, e); }
  }

  lemma ExtendedKeepsOthers(b: Book, e: Edit)
    requires IndexAgrees(b) && e.Extended? && e.predecessor in b.records && e.id !in b.records
    requires e.record.subject == b.records[e.predecessor].subject && e.record.skills == b.records[e.predecessor].skills
    ensures forall subject, skill :: subject != e.record.subject || skill !in e.record.skills ==>
              Edited(b, e).HasSkill(subject, skill) == b.HasSkill(subject, skill)
  {
    forall subject, skill | subject != e.record.subject || skill !in e.record.skills
      ensures Edited(b, e).HasSkill(subject, skill) == b.HasSkill(subject, skill)
    {
      PointingDomain(b.index, e.record.subject, e.record.skills, e.id, skill);
      if (subject, skill) in b.index {
        assert b.Active(b.index[(subject, skill)]) && b.index[(subject, skill)] != e.predecessor;
      }
    }
  }

  lemma ClosedShows(root: Address, b: Book, e: Edit)
    requires Consistent(root, b) && e.Closed? && Possible(root, b, e)
    ensures ShowsNoSkill(Edited(b, e), b.records[e.id].subject, b.records[e.id].skills)
    ensures OnlyChanges(b, Edited(b, e), {e.id}, b.records[e.id].subject, b.records[e.id].skills)
  {
    var b', r := Edited(b, e), b.records[e.id];
    forall skill | skill in r.skills ensures (r.subject, skill) !in b'.index {
      assert b.Active(e.id) && b.index[(r.subject, skill)] == e.id;
    }
    forall subject, skill | subject != r.subject || skill !in r.skills
      ensures b'.HasSkill(subject, skill) == b.HasSkill(subject, skill) && b'.CurrentId(subject, skill) == b.CurrentId(subject, skill)
    {
      assert (subject, skill) in b'.index <==> (subject, skill) in b.index;
    }
  }
}
