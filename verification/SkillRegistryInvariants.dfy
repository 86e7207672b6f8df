/** What every transaction of SkillRegistry keeps, and the ledger of chains every run amounts to. */
module SkillRegistryInvariants {
  import opened Evm
  import opened RecordBook
  import opened LineageLedger
  import opened SkillRegistryModel

  ghost predicate IdsDerived(d: Deployment, b: Book) {
    forall id :: id in b.records ==> id == d.idOf(b.records[id].subject, b.records[id].credential)
  }

  ghost predicate HoldersKnown(s: State) {
    forall id :: id in s.holders ==> id in s.book.records && s.holders[id].holder != 0
  }

  /** The invariant of the whole storage. */
  ghost predicate Sound(d: Deployment, s: State) {
    Consistent(d.root, s.book) && RootReplaces(d.root, s.book) && IdsDerived(d, s.book) && HoldersKnown(s)
  }

  /** The edit a transaction makes; none when it reverts. */
  function StepEdit(d: Deployment, s: State, tx: Tx): Edit {
    if Fault(d, s, tx).None? then EditOf(d, s, tx) else Untouched
  }

  lemma NoFaultMeansCleanSkills(index: map<Slot, Bytes32>, subject: Bytes32, skills: seq<Bytes32>)
    ensures SkillsFault(index, subject, skills).None? <==>
              && 0 !in skills && Distinct(skills)
              && forall skill :: skill in skills ==> (subject, skill) !in index
  {
    if SkillsFault(index, subject, skills).None? {
      forall skill | skill in skills ensures skill != 0 && (subject, skill) !in index {
        var i :| 0 <= i < |skills| && skills[i] == skill;
        assert !BadSkill(index, subject, skills, i);
      }
      forall i, j | 0 <= i < j < |skills| ensures skills[i] != skills[j] {
        assert skills[i] in skills[..j] && !BadSkill(index, subject, skills, j);
      }
    } else {
      var n := FirstBad(index, subject, skills, 0);
      if skills[n] in skills[..n] {
        var i :| 0 <= i < n && skills[i] == skills[n];
        assert !Distinct(skills);
      }
    }
  }

  lemma StepEditIsPossible(d: Deployment, s: State, tx: Tx)
    requires d.Valid() && Sound(d, s)
    ensures Possible(d.root, s.book, StepEdit(d, s, tx))
    ensures Apply(d, s, tx).book == Edited(s.book, StepEdit(d, s, tx))
  {
    if tx.call.AttestWithProof? {
      NoFaultMeansCleanSkills(s.book.index, tx.call.subject, tx.call.skills);
    }
  }

  lemma StepSound(d: Deployment, s: State, tx: Tx)
    requires d.Valid() && Sound(d, s)
    ensures Sound(d, Apply(d, s, tx)) && Grows(s.book, Apply(d, s, tx).book)
  {
    StepEditIsPossible(d, s, tx);
    EditKeepsConsistent(d.root, s.book, StepEdit(d, s, tx));
    EditGrows(d.root, s.book, StepEdit(d, s, tx));
    EditRootReplacesIff(d.root, s.book, StepEdit(d, s, tx));
    StepKeepsIds(d, s, tx);
    StepKeepsHoldersKnown(d, s, tx);
  }

  lemma StepKeepsIds(d: Deployment, s: State, tx: Tx)
    requires IdsDerived(d, s.book)
    ensures IdsDerived(d, Apply(d, s, tx).book)
  {
  }

  lemma StepKeepsHoldersKnown(d: Deployment, s: State, tx: Tx)
    requires HoldersKnown(s)
    ensures HoldersKnown(Apply(d, s, tx))
  {
  }

  /** Every state any run reaches is sound, and its book has only grown. */
  lemma {:induction false} RunSound(d: Deployment, s: State, txs: seq<Tx>)
    requires d.Valid() && Sound(d, s)
    ensures Sound(d, Run(d, s, txs)) && Grows(s.book, Run(d, s, txs).book)
  {
    if txs != [] {
      var before := Run(d, s, txs[..|txs| - 1]);
      RunSound(d, s, txs[..|txs| - 1]);
      StepSound(d, before, txs[|txs| - 1]);
      GrowsTransitive(s.book, before.book, Run(d, s, txs).book);
    }
  }

  lemma ReachableSound(d: Deployment, txs: seq<Tx>)
    requires d.Valid()
    ensures Sound(d, Run(d, INITIAL, txs))
  {
    RunSound(d, INITIAL, txs);
  }

  // -------------------------------------------------- ledger refinement

  /** The abstract ledger after a run from deployment. */
  function LedgerOf(d: Deployment, txs: seq<Tx>): Ledger {
    if txs == [] then []
    else
      var before := txs[..|txs| - 1];
      Noted(LedgerOf(d, before), StepEdit(d, Run(d, INITIAL, before), txs[|txs| - 1]))
  }

  /** The registry refines the ledger: every transaction is one ledger move, or none if it reverts. */
  lemma {:induction false} RunRefinesLedger(d: Deployment, txs: seq<Tx>)
    requires d.Valid()
    ensures Represents(Run(d, INITIAL, txs).book, LedgerOf(d, txs))
    ensures txs != [] ==>
      var before := txs[..|txs| - 1];
      Move(LedgerOf(d, before), StepEdit(d, Run(d, INITIAL, before), txs[|txs| - 1]), LedgerOf(d, txs))
  {
    if txs != [] {
      var before, tx := txs[..|txs| - 1], txs[|txs| - 1];
      var s := Run(d, INITIAL, before);
      RunRefinesLedger(d, before);
      ReachableSound(d, before);
      StepEditIsPossible(d, s, tx);
      EditIsMove(d.root, s.book, LedgerOf(d, before), StepEdit(d, s, tx));
    }
  }

  /** After any run the storage maps, read back, are exactly the chains of the ledger. */
  lemma ReadBackLedger(d: Deployment, txs: seq<Tx>)
    requires d.Valid()
    ensures ReadsBackAs(Run(d, INITIAL, txs).book, LedgerOf(d, txs))
  {
    RunRefinesLedger(d, txs);
    ReachableSound(d, txs);
    RebuiltChainsAreTheLedger(d.root, Run(d, INITIAL, txs).book, LedgerOf(d, txs));
  }

  // --------------------------------------------------------- the views

  /**
   After any run, by anyone: hasSkill says that some active record of that subject lists the
   skill, there is at most one, the index names it, and it is current.
   */
  lemma HasSkillMeansOneActiveRecord(d: Deployment, txs: seq<Tx>, subject: Bytes32, skill: Bytes32)
    requires d.Valid()
    ensures var b := Run(d, INITIAL, txs).book;
      && (b.HasSkill(subject, skill) <==>
            exists id :: b.Active(id) && b.records[id].subject == subject && skill in b.records[id].skills)
      && (forall id :: b.Active(id) && b.records[id].subject == subject && skill in b.records[id].skills ==>
            id == b.CurrentId(subject, skill) && id != 0 && b.IsCurrent(id))
      && (b.CurrentId(subject, skill) != 0 ==> b.HasSkill(subject, skill))
  {
    ReachableSound(d, txs);
    HasSkillIffListed(d.root, Run(d, INITIAL, txs).book, subject, skill);
  }

  /**
   A record known at some point is known for ever with the same claim, and once it is not current
   it is never current again. Current and active are the same thing in every reachable state.
   */
  lemma RecordsArePermanent(d: Deployment, earlier: seq<Tx>, later: seq<Tx>, id: Bytes32)
    requires d.Valid() && id in Run(d, INITIAL, earlier).book.records
    ensures var b := Run(d, INITIAL, earlier).book;
      var b' := Run(d, Run(d, INITIAL, earlier), later).book;
      && id in b'.records && SameClaim(b.records[id], b'.records[id])
      && (b.IsCurrent(id) <==> b.Active(id))
      && (!b.IsCurrent(id) ==> !b'.IsCurrent(id) && b'.records[id].revokedAt == b.records[id].revokedAt != 0)
      && (id in b.successorOf ==> id in b'.successorOf && b'.successorOf[id] == b.successorOf[id])
  {
    ReachableSound(d, earlier);
    RunSound(d, Run(d, INITIAL, earlier), later);
    CurrentIffActive(d.root, Run(d, INITIAL, earlier).book, id);
  }

  // ------------------------------------------------- when attest succeeds

  /** Of a scope mask, bit 0 stands for GitHubDeployment and bit 1 for WebPage. */
  ghost predicate BitSet(scopeMask: Uint8, scope: Scope) {
    if scope == GitHubDeployment then scopeMask % 2 == 1 else scopeMask % 4 >= 2
  }

  ghost predicate HoldsBit(s: State, c: Address, scope: Scope) {
    c in s.delegated && s.delegated[c].active && BitSet(s.delegated[c].scopeMask, scope)
  }

  /** The root, or that record's own issuer while it holds the record's scope bit. */
  ghost predicate ManagesHolders(d: Deployment, s: State, sender: Address, r: Attestation) {
    sender == d.root || (sender == r.issuer && HoldsBit(s, sender, r.scope))
  }

  /** What a delegation lets its holder attest. */
  ghost predicate Allows(g: DelegatedIssuer, scope: Scope, now: Timestamp, subject: Bytes32, program: Bytes32, skills: seq<Bytes32>) {
    && g.active && BitSet(g.scopeMask, scope)
    && (g.subject != 0 ==> now < g.expiresAt && subject == g.subject && program == g.program && skills == [g.skill])
  }

  /** The whole condition under which attestWithProof goes through; otherwise nothing changes. */
  lemma AttestSucceedsIff(d: Deployment, s: State, tx: Tx)
    requires d.Valid() && Sound(d, s) && tx.call.AttestWithProof?
    ensures var c := tx.call;
      Fault(d, s, tx).None? <==>
        && tx.sender != d.root
        && Allows(DelegationOf(s, tx.sender), c.scope, tx.now, c.subject, c.program, c.skills)
        && c.subject != 0 && c.credential != 0 && c.program != 0 && c.evidence != 0
        && c.input.commitment == c.credential && d.proves(c.proof, c.input)
        && (forall id :: id in s.book.records ==>
              id != d.idOf(c.subject, c.credential))
        && c.skills != [] && 0 !in c.skills && Distinct(c.skills)
        && (forall id, skill :: s.book.Active(id) && s.book.records[id].subject == c.subject && skill in c.skills ==>
              skill !in s.book.records[id].skills)
    ensures Fault(d, s, tx).Some? ==> Apply(d, s, tx) == s
  {
    var c := tx.call;
    NoFaultMeansCleanSkills(s.book.index, c.subject, c.skills);
    assert (forall skill :: skill in c.skills ==> (c.subject, skill) !in s.book.index) <==>
      (forall id, skill :: s.book.Active(id) && s.book.records[id].subject == c.subject && skill in c.skills ==>
        skill !in s.book.records[id].skills)
    by {
      forall skill | skill in c.skills
        ensures (c.subject, skill) in s.book.index <==>
          exists id :: s.book.Active(id) && s.book.records[id].subject == c.subject && skill in s.book.records[id].skills
      {
        HasSkillIffListed(d.root, s.book, c.subject, skill);
      }
    }
  }
}
