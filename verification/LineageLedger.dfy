/**
 The abstract meaning of a book: a ledger of disjoint chains of records. Opening starts a chain
 of one record, extending appends to a chain whose tip is active, closing retires a chain.
 Represents says that the storage maps and the ledger tell the same story.
 */
module LineageLedger {
  import opened Evm
  import opened RecordBook

  /** The records of one claim, oldest first. The chain is live while its last record is active. */
  datatype Chain = Chain(subject: Bytes32, skills: seq<Bytes32>, scope: Scope, ids: seq<Bytes32>, live: bool)

  type Ledger = seq<Chain>

  predicate HasTip(c: Chain, id: Bytes32) {
    c.live && c.ids != [] && c.ids[|c.ids| - 1] == id
  }

  function Noted(ledger: Ledger, e: Edit): Ledger {
    match e
    case Untouched => ledger
    case Opened(id, r) => ledger + [Chain(r.subject, r.skills, r.scope, [id], true)]
    case Extended(p, id, r, now) =>
      seq(|ledger|, i requires 0 <= i < |ledger| =>
        if HasTip(ledger[i], p) then ledger[i].(ids := ledger[i].ids + [id]) else ledger[i])
    case Closed(id, now) =>
      seq(|ledger|, i requires 0 <= i < |ledger| =>
        if HasTip(ledger[i], id) then ledger[i].(live := false) else ledger[i])
  }

  /** The moves of the abstract machine, each with its own guard stated on chains alone. */
  ghost predicate Move(ledger: Ledger, e: Edit, ledger': Ledger) {
    match e
    case Untouched => ledger' == ledger
    case Opened(id, r) =>
      && (forall i, skill :: 0 <= i < |ledger| && ledger[i].live && ledger[i].subject == r.subject && skill in r.skills ==>
            skill !in ledger[i].skills)
      && (forall i :: 0 <= i < |ledger| ==> id !in ledger[i].ids)
      && ledger' == ledger + [Chain(r.subject, r.skills, r.scope, [id], true)]
    case Extended(p, id, r, now) =>
      && (forall i :: 0 <= i < |ledger| ==> id !in ledger[i].ids)
      && exists i :: 0 <= i < |ledger| && HasTip(ledger[i], p) && ledger' == ledger[i := ledger[i].(ids := ledger[i].ids + [id])]
    case Closed(id, now) =>
      exists i :: 0 <= i < |ledger| && HasTip(ledger[i], id) && ledger' == ledger[i := ledger[i].(live := false)]
  }

  ghost predicate Place(ledger: Ledger, i: int, j: int) {
    0 <= i < |ledger| && 0 <= j < |ledger[i].ids|
  }

  function IdAt(ledger: Ledger, i: int, j: int): Bytes32
    requires Place(ledger, i, j)
  {
    ledger[i].ids[j]
  }

  /** No record stands in two places. */
  ghost predicate Disjoint(ledger: Ledger) {
    forall i, j, m, n :: Place(ledger, i, j) && Place(ledger, m, n) && IdAt(ledger, i, j) == IdAt(ledger, m, n) ==>
      i == m && j == n
  }

  /** The record standing at a place, its activity and its two links are as the chain says. */
  ghost predicate Stands(b: Book, c: Chain, j: int)
    requires 0 <= j < |c.ids|
  {
    var id := c.ids[j];
    var tip := j + 1 == |c.ids|;
    && id in b.records
    && b.records[id].subject == c.subject && b.records[id].skills == c.skills && b.records[id].scope == c.scope
    && b.records[id].active == (c.live && tip)
    && (if tip then id !in b.successorOf else id in b.successorOf && b.successorOf[id] == c.ids[j + 1])
    && (if j == 0 then id !in b.predecessorOf else id in b.predecessorOf && b.predecessorOf[id] == c.ids[j - 1])
  }

  ghost predicate Listed(ledger: Ledger, id: Bytes32) {
    exists i, j :: Place(ledger, i, j) && IdAt(ledger, i, j) == id
  }

  ghost predicate LaidOut(b: Book, ledger: Ledger) {
    && (forall i :: 0 <= i < |ledger| ==> ledger[i].ids != [])
    && Disjoint(ledger)
    && (forall i, j :: Place(ledger, i, j) ==> Stands(b, ledger[i], j))
  }

  ghost predicate Represents(b: Book, ledger: Ledger) {
    LaidOut(b, ledger) && forall id :: id in b.records ==> Listed(ledger, id)
  }

  // ------------------------------------------------------- refinement

  lemma TipIsUnique(b: Book, ledger: Ledger, id: Bytes32) returns (i: int)
    requires Represents(b, ledger) && b.Active(id)
    ensures 0 <= i < |ledger| && HasTip(ledger[i], id)
    ensures forall m :: 0 <= m < |ledger| && HasTip(ledger[m], id) ==> m == i
  {
    var m, n :| Place(ledger, m, n) && IdAt(ledger, m, n) == id;
    assert Stands(b, ledger[m], n);
    i := m;
    forall k | 0 <= k < |ledger| && HasTip(ledger[k], id) ensures k == i {
      assert Place(ledger, k, |ledger[k].ids| - 1) && IdAt(ledger, k, |ledger[k].ids| - 1) == id;
    }
  }

  /** Every edit of a consistent book is a move of the ledger, and the two stay in step. */
  lemma EditIsMove(root: Address, b: Book, ledger: Ledger, e: Edit)
    requires Consistent(root, b) && Represents(b, ledger) && Possible(root, b, e)
    ensures Move(ledger, e, Noted(ledger, e))
    ensures Represents(Edited(b, e), Noted(ledger, e))
  {
    match e
    case Untouched =>
    case Opened(id, r) => OpenIsMove(root, b, ledger, e);
    case Extended(p, id, r, now) => ExtendIsMove(root, b, ledger, e);
    case Closed(id, now) => CloseIsMove(root, b, ledger, e);
  }

  lemma FreshIsUnlisted(b: Book, ledger: Ledger, id: Bytes32)
    requires LaidOut(b, ledger) && id !in b.records
    ensures forall i :: 0 <= i < |ledger| ==> id !in ledger[i].ids
  {
    forall i, j | Place(ledger, i, j) ensures ledger[i].ids[j] != id {
      assert Stands(b, ledger[i], j);
    }
  }

  lemma OpenIsMove(root: Address, b: Book, ledger: Ledger, e: Edit)
    requires Consistent(root, b) && Represents(b, ledger) && Possible(root, b, e) && e.Opened?
    ensures Move(ledger, e, Noted(ledger, e))
    ensures Represents(Edited(b, e), Noted(ledger, e))
  {
    FreshIsUnlisted(b, ledger, e.id);
    OpenedSkillsAreFree(root, b, ledger, e);
    OpenedLaidOut(root, b, ledger, e);
    forall id | id in Edited(b, e).records ensures Listed(Noted(ledger, e), id) {
      OpenedListed(ledger, e, id);
    }
  }

  lemma OpenedSkillsAreFree(root: Address, b: Book, ledger: Ledger, e: Edit)
    requires IndexAgrees(b) && LaidOut(b, ledger) && Possible(root, b, e) && e.Opened?
    ensures forall i, skill :: 0 <= i < |ledger| && ledger[i].live && ledger[i].subject == e.record.subject && skill in e.record.skills ==>
              skill !in ledger[i].skills
  {
    forall i, skill | 0 <= i < |ledger| && ledger[i].live && ledger[i].subject == e.record.subject && skill in e.record.skills
      ensures skill !in ledger[i].skills
    {
      var tip := |ledger[i].ids| - 1;
      assert Place(ledger, i, tip) && Stands(b, ledger[i], tip);
      assert b.Active(ledger[i].ids[tip]);
    }
  }

  lemma OpenedLaidOut(root: Address, b: Book, ledger: Ledger, e: Edit)
    requires LaidOut(b, ledger) && Possible(root, b, e) && e.Opened?
    requires e.id !in b.successorOf && e.id !in b.predecessorOf
    requires forall i :: 0 <= i < |ledger| ==> e.id !in ledger[i].ids
    ensures LaidOut(Edited(b, e), Noted(ledger, e))
  {
    var ledger', n := Noted(ledger, e), |ledger|;
    forall i, j | Place(ledger', i, j)
      ensures Stands(Edited(b, e), ledger'[i], j)
      ensures i < n ==> Place(ledger, i, j) && IdAt(ledger, i, j) == IdAt(ledger', i, j) != e.id
    {
      if i < n {
        assert Place(ledger, i, j) && Stands(b, ledger[i], j) && IdAt(ledger, i, j) in ledger[i].ids;
      }
    }
  }

  lemma OpenedListed(ledger: Ledger, e: Edit, id: Bytes32)
    requires e.Opened? && (id == e.id || Listed(ledger, id))
    ensures Listed(Noted(ledger, e), id)
  {
    var ledger' := Noted(ledger, e);
    if id == e.id {
      assert Place(ledger', |ledger|, 0) && IdAt(ledger', |ledger|, 0) == id;
    } else {
      var i, j :| Place(ledger, i, j) && IdAt(ledger, i, j) == id;
      assert Place(ledger', i, j) && IdAt(ledger', i, j) == id;
    }
  }

  lemma ExtendIsMove(root: Address, b: Book, ledger: Ledger, e: Edit)
    requires Consistent(root, b) && Represents(b, ledger) && Possible(root, b, e) && e.Extended?
    ensures Move(ledger, e, Noted(ledger, e))
    ensures Represents(Edited(b, e), Noted(ledger, e))
  {
    FreshIsUnlisted(b, ledger, e.id);
    var t := TipIsUnique(b, ledger, e.predecessor);
    var c := ledger[t].(ids := ledger[t].ids + [e.id]);
    assert Noted(ledger, e) == ledger[t := c];
    assert LaidOut(Edited(b, e), ledger[t := c]) by {
      ExtendedStands(root, b, ledger, e, t);
      AppendKeepsDisjoint(ledger, t, e.id);
    }
    forall id | id in Edited(b, e).records ensures Listed(ledger[t := c], id) {
      ExtendedListed(ledger, t, e.id, id);
    }
  }

  lemma ExtendedListed(ledger: Ledger, t: int, newest: Bytes32, id: Bytes32)
    requires 0 <= t < |ledger| && (id == newest || Listed(ledger, id))
    ensures Listed(ledger[t := ledger[t].(ids := ledger[t].ids + [newest])], id)
  {
    var c := ledger[t].(ids := ledger[t].ids + [newest]);
    if id == newest {
      assert Place(ledger[t := c], t, |ledger[t].ids|) && IdAt(ledger[t := c], t, |ledger[t].ids|) == id;
    } else {
      ListedKept(ledger, t, c, id);
    }
  }

  lemma ExtendedStands(root: Address, b: Book, ledger: Ledger, e: Edit, t: int)
    requires LaidOut(b, ledger) && Possible(root, b, e) && e.Extended? && e.id !in b.successorOf
    requires 0 <= t < |ledger| && HasTip(ledger[t], e.predecessor)
    requires forall i :: 0 <= i < |ledger| ==> e.id !in ledger[i].ids
    ensures var ledger' := ledger[t := ledger[t].(ids := ledger[t].ids + [e.id])];
      forall i, j :: Place(ledger', i, j) ==> Stands(Edited(b, e), ledger'[i], j)
  {
    var len := |ledger[t].ids|;
    var ledger' := ledger[t := ledger[t].(ids := ledger[t].ids + [e.id])];
    assert Place(ledger, t, len - 1) && IdAt(ledger, t, len - 1) == e.predecessor;
    forall i, j | Place(ledger', i, j) ensures Stands(Edited(b, e), ledger'[i], j) {
      if i == t {
        assert Place(ledger, t, if j < len then j else len - 1);
        assert j < len ==> Stands(b, ledger[t], j) && IdAt(ledger, t, j) in ledger[t].ids;
        assert j < len - 1 ==> IdAt(ledger, t, j) != e.predecessor;
        AppendedStands(b, ledger[t], e, j);
      } else {
        assert Place(ledger, i, j) && IdAt(ledger, i, j) != e.predecessor && IdAt(ledger, i, j) in ledger[i].ids;
        OtherStands(b, ledger[i], e, j);
      }
    }
  }

  lemma AppendedStands(b: Book, c: Chain, e: Edit, j: int)
    requires e.Extended? && HasTip(c, e.predecessor) && 0 <= j <= |c.ids|
    requires Stands(b, c, |c.ids| - 1) && e.id !in b.records && e.id !in b.successorOf && e.id !in c.ids
    requires e.record.active
    requires e.record.subject == c.subject && e.record.skills == c.skills && e.record.scope == c.scope
    requires j < |c.ids| ==> Stands(b, c, j) && (c.ids[j] == e.predecessor ==> j == |c.ids| - 1)
    ensures Stands(Edited(b, e), c.(ids := c.ids + [e.id]), j)
  {
  }

  lemma OtherStands(b: Book, c: Chain, e: Edit, j: int)
    requires 0 <= j < |c.ids| && Stands(b, c, j)
    requires e.Extended? && c.ids[j] != e.predecessor && c.ids[j] != e.id && e.predecessor in b.records
    ensures Stands(Edited(b, e), c, j)
  {
  }

  lemma AppendKeepsDisjoint(ledger: Ledger, t: int, id: Bytes32)
    requires Disjoint(ledger) && 0 <= t < |ledger|
    requires forall i :: 0 <= i < |ledger| ==> id !in ledger[i].ids
    ensures Disjoint(ledger[t := ledger[t].(ids := ledger[t].ids + [id])])
  {
    var ledger' := ledger[t := ledger[t].(ids := ledger[t].ids + [id])];
    forall i, j | Place(ledger', i, j)
      ensures (Place(ledger, i, j) && IdAt(ledger, i, j) == IdAt(ledger', i, j) != id)
           || (i == t && j == |ledger[t].ids| && IdAt(ledger', i, j) == id)
    {
      if j < |ledger[i].ids| {
        assert ledger[i].ids[j] in ledger[i].ids;
      }
    }
  }

  lemma ListedKept(ledger: Ledger, t: int, c: Chain, id: Bytes32)
    requires 0 <= t < |ledger| && ledger[t].ids <= c.ids && Listed(ledger, id)
    ensures Listed(ledger[t := c], id)
  {
    var i, j :| Place(ledger, i, j) && IdAt(ledger, i, j) == id;
    assert Place(ledger[t := c], i, j) && IdAt(ledger[t := c], i, j) == id;
  }

  lemma CloseIsMove(root: Address, b: Book, ledger: Ledger, e: Edit)
    requires Consistent(root, b) && Represents(b, ledger) && Possible(root, b, e) && e.Closed?
    ensures Move(ledger, e, Noted(ledger, e))
    ensures Represents(Edited(b, e), Noted(ledger, e))
  {
    var t := TipIsUnique(b, ledger, e.id);
    var c := ledger[t].(live := false);
    assert Noted(ledger, e) == ledger[t := c];
    ClosedStands(b, ledger, e, t);
    forall id | id in Edited(b, e).records ensures Listed(ledger[t := c], id) {
      ListedKept(ledger, t, c, id);
    }
  }

  lemma ClosedStands(b: Book, ledger: Ledger, e: Edit, t: int)
    requires LaidOut(b, ledger) && e.Closed? && b.Active(e.id)
    requires 0 <= t < |ledger| && HasTip(ledger[t], e.id)
    ensures var ledger' := ledger[t := ledger[t].(live := false)];
      && Disjoint(ledger')
      && forall i, j :: Place(ledger', i, j) ==> Stands(Edited(b, e), ledger'[i], j)
  {
    var tip := |ledger[t].ids| - 1;
    var ledger' := ledger[t := ledger[t].(live := false)];
    assert Place(ledger, t, tip) && IdAt(ledger, t, tip) == e.id;
    forall i, j | Place(ledger', i, j)
      ensures Stands(Edited(b, e), ledger'[i], j)
      ensures Place(ledger, i, j) && IdAt(ledger, i, j) == IdAt(ledger', i, j)
    {
      assert Place(ledger, i, j) && Stands(b, ledger[i], j);
      assert IdAt(ledger, i, j) == e.id ==> i == t && j == tip;
    }
  }

  // ------------------------------------------- reading the maps back

  /** The walk a reader makes from one record along the successor map. */
  function Walk(successorOf: map<Bytes32, Bytes32>, id: Bytes32, fuel: nat): seq<Bytes32>
    decreases fuel
  {
    if id in successorOf && fuel > 0 then [id] + Walk(successorOf, successorOf[id], fuel - 1) else [id]
  }

  lemma {:induction false} WalkFollowsChain(b: Book, ledger: Ledger, i: int, j: int, fuel: nat)
    requires LaidOut(b, ledger) && Place(ledger, i, j)
    requires |ledger[i].ids| <= j + 1 + fuel
    ensures Walk(b.successorOf, ledger[i].ids[j], fuel) == ledger[i].ids[j..]
    decreases fuel
  {
    assert Stands(b, ledger[i], j);
    if j + 1 < |ledger[i].ids| {
      WalkFollowsChain(b, ledger, i, j + 1, fuel - 1);
      assert ledger[i].ids[j..] == [ledger[i].ids[j]] + ledger[i].ids[j + 1..];
    }
  }

  lemma ChainFits(b: Book, ledger: Ledger, i: int)
    requires LaidOut(b, ledger) && 0 <= i < |ledger|
    ensures Distinct(ledger[i].ids) && |ledger[i].ids| <= |b.records|
  {
    var ids := ledger[i].ids;
    forall j, k | 0 <= j < k < |ids| ensures ids[j] != ids[k] {
      assert Place(ledger, i, j) && Place(ledger, i, k) && (IdAt(ledger, i, j) == IdAt(ledger, i, k) ==> j == k);
    }
    forall j | 0 <= j < |ids| ensures ids[j] in b.records.Keys {
      assert Place(ledger, i, j) && Stands(b, ledger[i], j);
    }
    DistinctFits(ids, b.records.Keys);
    assert |b.records.Keys| == |b.records|;
  }

  ghost predicate WalkReachesTip(b: Book, id: Bytes32, walk: seq<Bytes32>)
    requires id in b.records
  {
    && walk != [] && walk[0] == id && Distinct(walk)
    && (forall k :: 0 <= k < |walk| ==> walk[k] in b.records && (b.Active(walk[k]) ==> k == |walk| - 1))
    && var tip := walk[|walk| - 1];
       && tip !in b.successorOf
       && (b.Active(tip) ==> forall skill :: skill in b.records[id].skills ==> b.CurrentId(b.records[id].subject, skill) == tip)
  }

  /**
   From any known record the walk ends within |records| steps, repeats no record, and stops at a
   record without successor. When that record is active the index names it for every skill listed.
   */
  lemma WalkEndsAtTip(root: Address, b: Book, ledger: Ledger, id: Bytes32)
    requires Consistent(root, b) && Represents(b, ledger) && id in b.records
    ensures WalkReachesTip(b, id, Walk(b.successorOf, id, |b.records|))
  {
    var i, j :| Place(ledger, i, j) && IdAt(ledger, i, j) == id;
    ChainFits(b, ledger, i);
    WalkFollowsChain(b, ledger, i, j, |b.records|);
    ChainTailReachesTip(b, ledger, i, j);
  }

  lemma ChainTailReachesTip(b: Book, ledger: Ledger, i: int, j: int)
    requires IndexAgrees(b) && LaidOut(b, ledger) && Place(ledger, i, j)
    ensures ledger[i].ids[j] in b.records && WalkReachesTip(b, ledger[i].ids[j], ledger[i].ids[j..])
  {
    var id, walk, tip := ledger[i].ids[j], ledger[i].ids[j..], |ledger[i].ids| - 1;
    ChainFits(b, ledger, i);
    assert Stands(b, ledger[i], j) && Place(ledger, i, tip) && Stands(b, ledger[i], tip);
    forall k | 0 <= k < |walk| ensures walk[k] in b.records && (b.Active(walk[k]) ==> k == |walk| - 1) {
      assert Place(ledger, i, j + k) && Stands(b, ledger[i], j + k);
    }
    assert walk[|walk| - 1] == ledger[i].ids[tip];
    if b.Active(ledger[i].ids[tip]) {
      forall skill | skill in b.records[id].skills
        ensures b.CurrentId(b.records[id].subject, skill) == ledger[i].ids[tip]
      {
        assert skill in b.records[ledger[i].ids[tip]].skills;
      }
    }
  }

  /** A record that starts a lineage: known, and nobody's successor. */
  ghost predicate Head(b: Book, id: Bytes32) {
    id in b.records && id !in b.predecessorOf
  }

  ghost predicate StartsAtHead(b: Book, c: Chain) {
    c.ids != [] && Head(b, c.ids[0]) && Walk(b.successorOf, c.ids[0], |b.records|) == c.ids
  }

  ghost predicate ChainsStartAtHeads(b: Book, ledger: Ledger) {
    forall i :: 0 <= i < |ledger| ==> StartsAtHead(b, ledger[i])
  }

  ghost predicate HeadsStartChains(b: Book, ledger: Ledger) {
    forall id :: Head(b, id) ==> exists i :: 0 <= i < |ledger| && ledger[i].ids == Walk(b.successorOf, id, |b.records|)
  }

  ghost predicate WalksReachTips(b: Book) {
    forall id :: id in b.records ==> WalkReachesTip(b, id, Walk(b.successorOf, id, |b.records|))
  }

  /** The chains rebuilt from the maps, one per head, are the chains of the ledger, and every walk reaches its tip. */
  ghost predicate ReadsBackAs(b: Book, ledger: Ledger) {
    ChainsStartAtHeads(b, ledger) && HeadsStartChains(b, ledger) && WalksReachTips(b)
  }

  lemma RebuiltChainsAreTheLedger(root: Address, b: Book, ledger: Ledger)
    requires Consistent(root, b) && Represents(b, ledger)
    ensures ReadsBackAs(b, ledger)
  {
    assert ChainsStartAtHeads(b, ledger) by {
      forall i | 0 <= i < |ledger| ensures StartsAtHead(b, ledger[i]) { ChainIsRebuilt(b, ledger, i); }
    }
    assert HeadsStartChains(b, ledger) by { EveryHeadStartsAChain(b, ledger); }
    assert WalksReachTips(b) by {
      forall id | id in b.records ensures WalkReachesTip(b, id, Walk(b.successorOf, id, |b.records|)) {
        WalkEndsAtTip(root, b, ledger, id);
      }
    }
  }

  lemma EveryHeadStartsAChain(b: Book, ledger: Ledger)
    requires Represents(b, ledger)
    ensures HeadsStartChains(b, ledger)
  {
    forall id | Head(b, id)
      ensures exists i :: 0 <= i < |ledger| && ledger[i].ids == Walk(b.successorOf, id, |b.records|)
    {
      HeadStartsAChain(b, ledger, id);
    }
  }

  lemma ChainIsRebuilt(b: Book, ledger: Ledger, i: int)
    requires LaidOut(b, ledger) && 0 <= i < |ledger|
    ensures StartsAtHead(b, ledger[i])
  {
    assert Place(ledger, i, 0) && Stands(b, ledger[i], 0);
    ChainFits(b, ledger, i);
    WalkFollowsChain(b, ledger, i, 0, |b.records|);
  }

  lemma HeadStartsAChain(b: Book, ledger: Ledger, id: Bytes32)
    requires Represents(b, ledger) && Head(b, id)
    ensures exists i :: 0 <= i < |ledger| && ledger[i].ids == Walk(b.successorOf, id, |b.records|)
  {
    var i, j :| Place(ledger, i, j) && IdAt(ledger, i, j) == id;
    assert Stands(b, ledger[i], j);
    ChainIsRebuilt(b, ledger, i);
    assert ledger[i].ids == Walk(b.successorOf, id, |b.records|);
  }

  /** The index in the ledger's terms: the tips of the live chains, under the skills of the chain. */
  lemma IndexIsLiveTips(root: Address, b: Book, ledger: Ledger, subject: Bytes32, skill: Bytes32, id: Bytes32)
    requires Consistent(root, b) && Represents(b, ledger)
    ensures id != 0 && b.CurrentId(subject, skill) == id <==>
            exists i :: 0 <= i < |ledger| && HasTip(ledger[i], id) && ledger[i].subject == subject && skill in ledger[i].skills
  {
    if id != 0 && b.CurrentId(subject, skill) == id {
      assert b.Active(id);
      var i := TipIsUnique(b, ledger, id);
      assert Place(ledger, i, |ledger[i].ids| - 1) && Stands(b, ledger[i], |ledger[i].ids| - 1);
    }
    forall i | 0 <= i < |ledger| && HasTip(ledger[i], id) && ledger[i].subject == subject && skill in ledger[i].skills
      ensures id != 0 && b.CurrentId(subject, skill) == id
    {
      assert Place(ledger, i, |ledger[i].ids| - 1) && Stands(b, ledger[i], |ledger[i].ids| - 1);
      assert b.Active(id);
    }
  }
}
