/**
 Any number of calls in flight on one key authority, each lock section one atomic step. What every
 interleaving keeps, and why it looks as if the calls had run one after another.
 */
module KeyInterleaving {
  import opened Evm
  import opened Credentials
  import opened KeyAuthorityModel

  type CallId = nat

  /**
   Where a call is. RootSeen holds the child a delegation has generated but not installed. Decided
   and Returned remember the call's place in the log.
   */
  datatype Phase = Started | RootSeen(child: ChildKey) | Decided(response: Response, at: nat) | Returned(response: Response, at: nat)

  datatype Call = Call(op: Op, phase: Phase, beganAt: nat)

  datatype Entry = Entry(call: CallId, op: Op, response: Response)

  /** A credential that was signed: by which child, on what request. */
  datatype Signing = Signing(call: CallId, child: ChildKey, request: IssueRequest)

  /** The log lists the calls in the order in which they took effect. It observes and is never read. */
  datatype World = World(authority: Authority, calls: map<CallId, Call>, log: seq<Entry>, signed: seq<Signing>)

  datatype Step = Begin(call: CallId, op: Op) | Section(call: CallId) | Return(call: CallId, contextDone: bool)

  function Start(root: Option<Signer>): World {
    World(Authority(root, false, map[]), map[], [], [])
  }

  predicate InFlight(w: World, id: CallId) {
    id in w.calls && (w.calls[id].phase.Started? || w.calls[id].phase.RootSeen?)
  }

  predicate Enabled(w: World, step: Step) {
    match step
    case Begin(id, op) => id !in w.calls
    case Section(id) => InFlight(w, id)
    case Return(id, _) => id in w.calls && w.calls[id].phase.Decided?
  }

  function Decide(w: World, id: CallId, authority: Authority, response: Response): World
    requires id in w.calls
  {
    var c := w.calls[id];
    World(authority, w.calls[id := c.(phase := Decided(response, |w.log|))], w.log + [Entry(id, c.op, response)], w.signed)
  }

  /** One critical section of one call. Everything but a delegation needs just one. */
  function RunSection(w: World, id: CallId): World
    requires InFlight(w, id)
  {
    var op, a := w.calls[id].op, w.authority;
    if !op.Delegates() then Decide(w, id, Alone(a, op).0, Alone(a, op).1)
    else if w.calls[id].phase.Started? then
      if SpecFault(op).Some? then Decide(w, id, a, Refused(SpecFault(op).value))
      else if !RootAvailable(a) then Decide(w, id, a, Refused(RootUnavailable))
      else if op.generated.None? then Decide(w, id, a, Refused(KeyGenerationFailed))
      else w.(calls := w.calls[id := w.calls[id].(phase := RootSeen(NewChild(a, op)))])
    else
      var child := w.calls[id].phase.child;
      if a.rootRevoked then Decide(w, id, a, Refused(RootRevokedDuringDelegation))
      else Decide(w, id, Installed(a, child), Delegated(child))
  }

  /** Signing happens here, after the lock was released. */
  function Next(w: World, step: Step): World
    requires Enabled(w, step)
  {
    match step
    case Begin(id, op) => w.(calls := w.calls[id := Call(op, Started, |w.log|)])
    case Section(id) => RunSection(w, id)
    case Return(id, contextDone) =>
      var c := w.calls[id];
      var signs := c.op.Issue? && c.phase.response.Authorized? && !contextDone && ValidRequest(c.op.request);
      w.(calls := w.calls[id := c.(phase := Returned(c.phase.response, c.phase.at))],
         signed := if signs then w.signed + [Signing(id, c.phase.response.child, c.op.request)] else w.signed)
  }

  /** A step that is not enabled does not happen. */
  function Exec(w: World, trace: seq<Step>): World {
    if trace == [] then w
    else
      var before, step := Exec(w, trace[..|trace| - 1]), trace[|trace| - 1];
      if Enabled(before, step) then Next(before, step) else before
  }

  // ------------------------------------------------------ linearizability

  /** The authority after running the logged calls alone, one after another. */
  function Replay(a: Authority, log: seq<Entry>): Authority {
    if log == [] then a else Alone(Replay(a, log[..|log| - 1]), log[|log| - 1].op).0
  }

  /** The only difference a caller can see: which of two messages reports a revoked root. */
  function Plain(r: Response): Response {
    if r == Refused(RootRevokedDuringDelegation) then Refused(RootUnavailable) else r
  }

  /** Each logged response is the one the call gives when it runs alone in that place. */
  ghost predicate Explained(a: Authority, log: seq<Entry>) {
    log == [] ||
    (var before, e := log[..|log| - 1], log[|log| - 1];
     Explained(a, before) && Alone(Replay(a, before), e.op).1 == Plain(e.response))
  }

  /** Each call has at most one log entry, has it exactly when it is decided, and not from before it began. */
  ghost predicate LogMatchesCalls(w: World) {
    && (forall id :: id in w.calls ==>
          var c := w.calls[id];
          && c.beganAt <= |w.log|
          && (!InFlight(w, id) ==> c.beganAt <= c.phase.at < |w.log| && w.log[c.phase.at] == Entry(id, c.op, c.phase.response)))
    && (forall i :: 0 <= i < |w.log| ==>
          && w.log[i].call in w.calls && !InFlight(w, w.log[i].call)
          && w.calls[w.log[i].call].phase.at == i)
  }

  /** A delegation past its first section has passed its checks, and there is a root. */
  ghost predicate RootSeenOk(w: World) {
    forall id :: id in w.calls && w.calls[id].phase.RootSeen? ==>
      var op := w.calls[id].op;
      && op.Delegates() && SpecFault(op).None? && op.generated.Some? && w.authority.root.Some?
      && w.calls[id].phase.child == NewChild(w.authority, op)
  }

  ghost predicate Linear(a: Authority, w: World) {
    && Replay(a, w.log) == w.authority && Explained(a, w.log)
    && LogMatchesCalls(w) && RootSeenOk(w)
  }

  lemma DecideKeepsExplained(a: Authority, log: seq<Entry>, e: Entry)
    requires Explained(a, log)
    requires Alone(Replay(a, log), e.op).1 == Plain(e.response)
    ensures Explained(a, log + [e])
    ensures Replay(a, log + [e]) == Alone(Replay(a, log), e.op).0
  {
    assert (log + [e])[..|log|] == log;
  }

  lemma {:induction false} ExplainedAt(a: Authority, log: seq<Entry>, i: nat)
    requires Explained(a, log) && i < |log|
    ensures Alone(Replay(a, log[..i]), log[i].op).1 == Plain(log[i].response) && Explained(a, log[..i])
  {
    var n := |log| - 1;
    if i < n {
      ExplainedAt(a, log[..n], i);
      assert log[..n][..i] == log[..i];
    }
  }

  /** Taking effect in one section is running alone at that moment. */
  lemma DecideKeepsLinear(a: Authority, w: World, id: CallId, authority: Authority, response: Response)
    requires Linear(a, w) && InFlight(w, id)
    requires Alone(w.authority, w.calls[id].op) == (authority, Plain(response))
    ensures Linear(a, Decide(w, id, authority, response))
  {
    var w' := Decide(w, id, authority, response);
    assert Replay(a, w'.log) == authority && Explained(a, w'.log) by {
      DecideKeepsExplained(a, w.log, Entry(id, w.calls[id].op, response));
    }
    assert LogMatchesCalls(w') by { DecideKeepsLogMatching(w, id, authority, response); }
    assert RootSeenOk(w') by {
      AloneIsPlain(w.authority, w.calls[id].op);
      DecideKeepsRootSeen(w, id, authority, response);
    }
  }

  lemma DecideKeepsRootSeen(w: World, id: CallId, authority: Authority, response: Response)
    requires RootSeenOk(w) && InFlight(w, id) && authority.root == w.authority.root
    ensures RootSeenOk(Decide(w, id, authority, response))
  {
  }

  lemma DecideKeepsLogMatching(w: World, id: CallId, authority: Authority, response: Response)
    requires LogMatchesCalls(w) && InFlight(w, id)
    ensures LogMatchesCalls(Decide(w, id, authority, response))
  {
  }

  lemma StepKeepsLinear(a: Authority, w: World, step: Step)
    requires Linear(a, w) && Enabled(w, step)
    ensures Linear(a, Next(w, step))
  {
    if step.Section? {
      SectionKeepsLinear(a, w, step.call);
    } else {
      QuietStepKeepsLogMatching(w, step);
    }
  }

  lemma SectionKeepsLinear(a: Authority, w: World, id: CallId)
    requires Linear(a, w) && InFlight(w, id)
    ensures Linear(a, RunSection(w, id))
  {
    var op, s := w.calls[id].op, w.authority;
    AloneIsPlain(s, op);
    if !op.Delegates() {
      DecideKeepsLinear(a, w, id, Alone(s, op).0, Alone(s, op).1);
    } else if w.calls[id].phase.Started? {
      if SpecFault(op).None? && RootAvailable(s) && op.generated.Some? {
        ReadingRootKeepsLogMatching(w, id);
      } else {
        DecideKeepsLinear(a, w, id, s, Alone(s, op).1);
      }
    } else if s.rootRevoked {
      DecideKeepsLinear(a, w, id, s, Refused(RootRevokedDuringDelegation));
    } else {
      DecideKeepsLinear(a, w, id, Alone(s, op).0, Alone(s, op).1);
    }
  }

  lemma AloneIsPlain(a: Authority, op: Op)
    ensures Plain(Alone(a, op).1) == Alone(a, op).1 && Alone(a, op).0.root == a.root
  {
  }

  lemma ReadingRootKeepsLogMatching(w: World, id: CallId)
    requires LogMatchesCalls(w) && InFlight(w, id) && w.calls[id].op.Delegates() && w.calls[id].op.generated.Some?
    ensures LogMatchesCalls(w.(calls := w.calls[id := w.calls[id].(phase := RootSeen(NewChild(w.authority, w.calls[id].op)))]))
  {
  }

  lemma QuietStepKeepsLogMatching(w: World, step: Step)
    requires LogMatchesCalls(w) && Enabled(w, step) && !step.Section?
    ensures LogMatchesCalls(Next(w, step))
  {
  }

  lemma {:induction false} ExecIsLinear(root: Option<Signer>, trace: seq<Step>)
    ensures Linear(Start(root).authority, Exec(Start(root), trace))
  {
    if trace != [] {
      ExecIsLinear(root, trace[..|trace| - 1]);
      var before, step := Exec(Start(root), trace[..|trace| - 1]), trace[|trace| - 1];
      if Enabled(before, step) {
        StepKeepsLinear(Start(root).authority, before, step);
      }
    }
  }

  /** What later steps cannot change about a call. */
  ghost predicate Follows(w: World, w': World) {
    && w.log <= w'.log
    && (forall id :: id in w.calls ==>
          && id in w'.calls && w'.calls[id].op == w.calls[id].op && w'.calls[id].beganAt == w.calls[id].beganAt
          && (!InFlight(w, id) ==>
                && !InFlight(w', id) && w'.calls[id].phase.response == w.calls[id].phase.response
                && w'.calls[id].phase.at == w.calls[id].phase.at))
    && (w.authority.rootRevoked ==> w'.authority.rootRevoked)
  }

  lemma {:induction false} ExecFollows(w: World, trace: seq<Step>)
    ensures Follows(w, Exec(w, trace))
  {
    if trace != [] {
      ExecFollows(w, trace[..|trace| - 1]);
    }
  }

  /**
   Every interleaving is linearizable. Run alone in log order, the calls leave the same authority and
   give the same responses; every decided call is in the log once; and a call that was decided before
   another began comes before it.
   */
  lemma Linearizable(root: Option<Signer>, early: seq<Step>, late: seq<Step>)
    ensures var w, w' := Exec(Start(root), early), Exec(Exec(Start(root), early), late);
      && Replay(Start(root).authority, w'.log) == w'.authority
      && Explained(Start(root).authority, w'.log)
      && LogMatchesCalls(w')
      && (forall x, y :: x in w.calls && !InFlight(w, x) && y !in w.calls && y in w'.calls && !InFlight(w', y) ==>
            x in w'.calls && !InFlight(w', x) && w'.calls[x].phase.at < w'.calls[y].phase.at)
  {
    var w, w' := Exec(Start(root), early), Exec(Exec(Start(root), early), late);
    ExecIsLinear(root, early);
    ExecFollows(w, late);
    ExecConcat(Start(root), early, late);
    ExecIsLinear(root, early + late);
    BeganAfter(w, late);
  }

  lemma {:induction false} ExecConcat(w: World, early: seq<Step>, late: seq<Step>)
    ensures Exec(Exec(w, early), late) == Exec(w, early + late)
  {
    if late == [] {
      assert early + late == early;
    } else {
      ExecConcat(w, early, late[..|late| - 1]);
      assert (early + late)[..|early + late| - 1] == early + late[..|late| - 1];
    }
  }

  lemma {:induction false} BeganAfter(w: World, trace: seq<Step>)
    ensures var w' := Exec(w, trace);
      |w.log| <= |w'.log| && forall id :: id in w'.calls && id !in w.calls ==> |w.log| <= w'.calls[id].beganAt
  {
    if trace != [] {
      BeganAfter(w, trace[..|trace| - 1]);
    }
  }

  /** A section answers otherwise than the call alone exactly when a delegation finds the root revoked since its first section. */
  lemma SectionDiffersIff(a: Authority, w: World, id: CallId)
    requires Linear(a, w) && InFlight(w, id) && !InFlight(RunSection(w, id), id)
    ensures RunSection(w, id).calls[id].phase.response != Alone(w.authority, w.calls[id].op).1 <==>
              w.calls[id].phase.RootSeen? && w.authority.rootRevoked
  {
  }

  /**
   The same for every log entry of every run: step k decided it, and its response differs from that of
   the call run alone in that place exactly when at step k the call was past its first section and the
   root had been revoked.
   */
  lemma {:induction false} ResponseDiffersIff(root: Option<Signer>, trace: seq<Step>, i: nat) returns (k: nat)
    requires i < |Exec(Start(root), trace).log|
    ensures k < |trace|
    ensures var w, log := Exec(Start(root), trace[..k]), Exec(Start(root), trace).log;
      && trace[k] == Section(log[i].call) && InFlight(w, log[i].call) && w.calls[log[i].call].op == log[i].op && w.log == log[..i]
      && (log[i].response != Alone(Replay(Start(root).authority, log[..i]), log[i].op).1 <==>
            w.calls[log[i].call].phase.RootSeen? && w.authority.rootRevoked)
  {
    var n := |trace| - 1;
    var w, w' := Exec(Start(root), trace[..n]), Exec(Start(root), trace);
    if Enabled(w, trace[n]) { StepLogs(w, trace[n]); }
    if i < |w.log| {
      k := ResponseDiffersIff(root, trace[..n], i);
      assert trace[..n][..k] == trace[..k] && w'.log[..i] == w.log[..i];
    } else {
      k := n;
      ExecIsLinear(root, trace[..n]);
      SectionDiffersIff(Start(root).authority, w, trace[n].call);
      assert w'.log[..i] == w.log;
    }
  }

  /** A step adds one entry to the log, that of the call it decides, or none. */
  lemma StepLogs(w: World, step: Step)
    requires Enabled(w, step)
    ensures var w' := Next(w, step);
      w'.log == w.log || (step.Section? && !InFlight(w', step.call) && step.call in w'.calls
                          && w'.log == w.log + [Entry(step.call, w.calls[step.call].op, w'.calls[step.call].phase.response)])
  {
  }

  /** A delegation, and a root revocation that gets in between its two sections. */
  function Race(delegate: Op): seq<Step> {
    [Begin(0, delegate), Section(0), Begin(1, RevokeRoot), Section(1), Section(0)]
  }

  /** The one visible difference is real: a root revoked between the two sections shows another message. */
  lemma MessageTellsTheRace(root: Signer, child: Signer)
    ensures var delegate := Delegate(false, WEB_PAGE, 1, Some(child));
      var w := Exec(Start(Some(root)), Race(delegate));
      && |w.log| == 2 && w.log[1] == Entry(0, delegate, Refused(RootRevokedDuringDelegation))
      && Alone(Replay(Start(Some(root)).authority, w.log[..1]), delegate).1 == Refused(RootUnavailable)
  {
    var delegate := Delegate(false, WEB_PAGE, 1, Some(child));
    var trace, w0 := Race(delegate), Start(Some(root));
    RaceHalfWay(root, delegate);
    var w4 := Exec(w0, trace[..4]);
    ExecStep(w0, trace, 4);
    assert trace[..5] == trace && w4.log[..0] == [];
    assert Exec(w0, trace).log[..1] == w4.log;
  }

  lemma RaceHalfWay(root: Signer, delegate: Op)
    requires delegate.Delegates() && SpecFault(delegate).None? && delegate.generated.Some?
    ensures var w := Exec(Start(Some(root)), Race(delegate)[..4]);
      && w.log == [Entry(1, RevokeRoot, Done)] && w.authority == Authority(Some(root), true, map[])
      && 0 in w.calls && w.calls[0].op == delegate && w.calls[0].phase.RootSeen?
  {
    var trace, w0 := Race(delegate), Start(Some(root));
    RaceStarts(root, delegate);
    var w2 := Exec(w0, trace[..2]);
    ExecStep(w0, trace, 2);
    var w3 := Exec(w0, trace[..3]);
    assert w3.log == [] && w3.calls[0] == w2.calls[0] && w3.calls[1].op == RevokeRoot && w3.authority == w2.authority;
    ExecStep(w0, trace, 3);
  }

  lemma RaceStarts(root: Signer, delegate: Op)
    requires delegate.Delegates() && SpecFault(delegate).None? && delegate.generated.Some?
    ensures var w := Exec(Start(Some(root)), Race(delegate)[..2]);
      && w.log == [] && w.authority == Authority(Some(root), false, map[]) && w.calls.Keys == {0}
      && w.calls[0].op == delegate && w.calls[0].phase.RootSeen?
  {
    var trace, w0 := Race(delegate), Start(Some(root));
    assert trace[..0] == [];
    ExecStep(w0, trace, 0);
    assert Exec(w0, trace[..1]) == w0.(calls := map[0 := Call(delegate, Started, 0)]);
    ExecStep(w0, trace, 1);
  }

  lemma ExecStep(w: World, trace: seq<Step>, n: nat)
    requires n < |trace| && Enabled(Exec(w, trace[..n]), trace[n])
    ensures Exec(w, trace[..n + 1]) == Next(Exec(w, trace[..n]), trace[n])
  {
    assert trace[..n + 1][..n] == trace[..n];
  }

  // ------------------------------------------------------------- signing

  /** What one call signed, in order. */
  function SigningsOf(signed: seq<Signing>, id: CallId): seq<Signing> {
    if signed == [] then []
    else SigningsOf(signed[..|signed| - 1], id) + if signed[|signed| - 1].call == id then [signed[|signed| - 1]] else []
  }

  lemma SigningsOfAppend(signed: seq<Signing>, sg: Signing, id: CallId)
    ensures SigningsOf(signed + [sg], id) == SigningsOf(signed, id) + if sg.call == id then [sg] else []
  {
    assert (signed + [sg])[..|signed|] == signed;
  }

  predicate HasReturned(w: World, id: CallId) {
    id in w.calls && w.calls[id].phase.Returned?
  }

  /** What a call with this decision signs if its context is then still live, or done. */
  function Due(id: CallId, op: Op, decision: Response, contextDone: bool): seq<Signing> {
    if op.Issue? && decision.Authorized? && !contextDone && ValidRequest(op.request)
    then [Signing(id, decision.child, op.request)] else []
  }

  /** A call that has not returned has signed nothing. */
  lemma {:induction false} NothingSignedBeforeReturn(root: Option<Signer>, trace: seq<Step>, id: CallId)
    requires !HasReturned(Exec(Start(root), trace), id)
    ensures SigningsOf(Exec(Start(root), trace).signed, id) == []
  {
    if trace != [] {
      var before, step := Exec(Start(root), trace[..|trace| - 1]), trace[|trace| - 1];
      NothingSignedBeforeReturn(root, trace[..|trace| - 1], id);
      if Enabled(before, step) { StepSignings(before, step, id); }
    }
  }

  lemma StepSignings(w: World, step: Step, id: CallId)
    requires Enabled(w, step)
    ensures SigningsOf(Next(w, step).signed, id) ==
              SigningsOf(w.signed, id) +
              if step.Return? && step.call == id then Due(id, w.calls[id].op, w.calls[id].phase.response, step.contextDone) else []
  {
    if step.Return? {
      var c := w.calls[step.call];
      if c.op.Issue? && c.phase.response.Authorized? {
        SigningsOfAppend(w.signed, Signing(step.call, c.phase.response.child, c.op.request), id);
      }
    }
  }

  /**
   Under every interleaving, a call that returned did so at one step k, and it signed exactly once, its
   own request by the child its decision named, when it is an authorized Issue of a valid request whose
   context was live at that step; in every other case it signed nothing.
   */
  lemma {:induction false} ReturnedCallSigned(root: Option<Signer>, trace: seq<Step>, id: CallId) returns (k: nat)
    requires HasReturned(Exec(Start(root), trace), id)
    ensures k < |trace| && trace[k].Return? && trace[k].call == id && Enabled(Exec(Start(root), trace[..k]), trace[k])
    ensures var w := Exec(Start(root), trace);
      SigningsOf(w.signed, id) == Due(id, w.calls[id].op, w.calls[id].phase.response, trace[k].contextDone)
  {
    var n := |trace| - 1;
    var before, step := Exec(Start(root), trace[..n]), trace[n];
    if HasReturned(before, id) {
      k := ReturnedCallSigned(root, trace[..n], id);
      assert trace[..n][..k] == trace[..k];
      if Enabled(before, step) { ReturnedStays(before, step, id); }
    } else {
      k := n;
      NothingSignedBeforeReturn(root, trace[..n], id);
      ReturnsNow(before, step, id);
    }
  }

  lemma ReturnedStays(w: World, step: Step, id: CallId)
    requires Enabled(w, step) && HasReturned(w, id)
    ensures id in Next(w, step).calls && Next(w, step).calls[id] == w.calls[id]
    ensures SigningsOf(Next(w, step).signed, id) == SigningsOf(w.signed, id)
  {
    StepSignings(w, step, id);
  }

  lemma ReturnsNow(w: World, step: Step, id: CallId)
    requires Enabled(w, step) && !HasReturned(w, id) && HasReturned(Next(w, step), id) && SigningsOf(w.signed, id) == []
    ensures step.Return? && step.call == id
    ensures var c := Next(w, step).calls[id]; SigningsOf(Next(w, step).signed, id) == Due(id, c.op, c.phase.response, step.contextDone)
  {
    StepSignings(w, step, id);
  }

  /** With nobody in between, a call returns what it gives alone and leaves the authority as it does alone. */
  lemma UndisturbedCallRunsAlone(w: World, id: CallId, op: Op, contextDone: bool)
    requires id !in w.calls
    ensures var w' := Exec(w, [Begin(id, op), Section(id), Section(id), Return(id, contextDone)]);
      && HasReturned(w', id) && w'.calls[id].op == op
      && (w'.authority, w'.calls[id].phase.response) == Alone(w.authority, op)
      && w'.signed == w.signed + Due(id, op, Alone(w.authority, op).1, contextDone)
  {
    var trace := [Begin(id, op), Section(id), Section(id), Return(id, contextDone)];
    assert trace[..0] == [] && trace[..4] == trace;
    ExecStep(w, trace, 0);
    var w1 := Exec(w, trace[..1]);
    SectionsInARow(w1, id);
    SectionsExec(w, trace, id);
    ExecStep(w, trace, 3);
  }

  /** A section that finds its call decided does not happen. */
  lemma SectionsExec(w: World, trace: seq<Step>, id: CallId)
    requires |trace| > 3 && trace[1] == trace[2] == Section(id) && InFlight(Exec(w, trace[..1]), id)
    ensures var w2 := RunSection(Exec(w, trace[..1]), id);
      Exec(w, trace[..3]) == if InFlight(w2, id) then RunSection(w2, id) else w2
  {
    ExecStep(w, trace, 1);
    assert trace[..3][..2] == trace[..2];
  }

  lemma SectionsInARow(w: World, id: CallId)
    requires InFlight(w, id) && w.calls[id].phase.Started?
    ensures var w2 := RunSection(w, id);
      var w3 := if InFlight(w2, id) then RunSection(w2, id) else w2;
      && id in w3.calls && w3.calls[id].phase.Decided? && w3.calls[id].op == w.calls[id].op && w3.signed == w.signed
      && (w3.authority, w3.calls[id].phase.response) == Alone(w.authority, w.calls[id].op)
  {
  }

  // ------------------------------------------------------- emergency stop

  /** Issue calls that had passed their check but not yet signed. */
  function Cleared(w: World): set<CallId> {
    set id | id in w.calls && w.calls[id].op.Issue? && w.calls[id].phase.Decided? && w.calls[id].phase.response.Authorized?
  }

  /** The same children, which may only have been revoked. */
  ghost predicate OnlyRevoked(a: Authority, a': Authority) {
    && a'.children.Keys == a.children.Keys
    && forall keyId :: keyId in a.children ==>
         a'.children[keyId] == a.children[keyId] || a'.children[keyId] == a.children[keyId].(revoked := true)
  }

  /** What was signed since w: each by a call cleared at w, no two by the same call, and none still to sign. */
  ghost predicate SignedByCleared(w: World, w': World) {
    && w.signed <= w'.signed
    && (forall k :: |w.signed| <= k < |w'.signed| ==> w'.signed[k].call in Cleared(w) - Cleared(w'))
    && (forall j, k :: |w.signed| <= j < k < |w'.signed| ==> w'.signed[j].call != w'.signed[k].call)
  }

  ghost predicate NoneDelegatedSince(w: World, w': World) {
    w.log <= w'.log && forall i :: |w.log| <= i < |w'.log| ==> !w'.log[i].response.Delegated?
  }

  /**
   After the root is revoked, in whatever is then in flight: no child is ever installed, new or over an
   old one, no delegation succeeds, every check is false for ever, and only the Issue calls already
   cleared still sign, each at most once.
   */
  lemma {:induction false} RootRevocationStops(w: World, trace: seq<Step>)
    requires w.authority.rootRevoked
    ensures var w' := Exec(w, trace);
      && w'.authority.rootRevoked && OnlyRevoked(w.authority, w'.authority) && NoneDelegatedSince(w, w')
      && (forall keyId, scope, subject, skill, policy, now :: !Permits(w'.authority, keyId, scope, subject, skill, policy, now))
      && Cleared(w') <= Cleared(w) && SignedByCleared(w, w')
      && |w'.signed| + |Cleared(w')| <= |w.signed| + |Cleared(w)|
  {
    if trace != [] {
      var before, step := Exec(w, trace[..|trace| - 1]), trace[|trace| - 1];
      RootRevocationStops(w, trace[..|trace| - 1]);
      if Enabled(before, step) {
        ChildrenAfterRevocation(before, step);
        SigningAfterRevocation(before, step);
      }
    }
  }

  lemma ChildrenAfterRevocation(w: World, step: Step)
    requires w.authority.rootRevoked && Enabled(w, step)
    ensures var w' := Next(w, step);
      w'.authority.rootRevoked && OnlyRevoked(w.authority, w'.authority) && NoneDelegatedSince(w, w')
  {
  }

  lemma SigningAfterRevocation(w: World, step: Step)
    requires w.authority.rootRevoked && Enabled(w, step)
    ensures var w' := Next(w, step);
      && Cleared(w') <= Cleared(w) && |w'.signed| + |Cleared(w')| <= |w.signed| + |Cleared(w)|
      && (w'.signed == w.signed
          || exists sg :: w'.signed == w.signed + [sg] && sg.call in Cleared(w) && sg.call !in Cleared(w'))
  {
    if step.Return? && step.call in Cleared(w) {
      assert Cleared(Next(w, step)) == Cleared(w) - {step.call};
    } else {
      NothingMoreCleared(w, step);
    }
  }

  lemma NothingMoreCleared(w: World, step: Step)
    requires w.authority.rootRevoked && Enabled(w, step) && !(step.Return? && step.call in Cleared(w))
    ensures Cleared(Next(w, step)) == Cleared(w) && Next(w, step).signed == w.signed
  {
    var w' := Next(w, step);
    assert forall id :: id in w.calls && id != step.call ==> w'.calls[id] == w.calls[id];
    assert step.call !in Cleared(w) && step.call !in Cleared(w');
  }

  // ----------------------------------------------------- child revocation

  /** No delegation still to be installed carries this key id: generated ids are fresh. */
  ghost predicate Unused(w: World, trace: seq<Step>, keyId: string) {
    && (forall id :: InFlight(w, id) && w.calls[id].op.Delegates() && w.calls[id].op.generated.Some? ==>
          w.calls[id].op.generated.value.keyId != keyId)
    && (forall id :: id in w.calls && w.calls[id].phase.RootSeen? ==> w.calls[id].phase.child.signer.keyId != keyId)
    && (forall i :: 0 <= i < |trace| && trace[i].Begin? && trace[i].op.Delegates() && trace[i].op.generated.Some? ==>
          trace[i].op.generated.value.keyId != keyId)
  }

  /** A revoked child stays revoked and permits nothing for ever, whatever is in flight, as long as its id is not generated again. */
  lemma {:induction false} ChildRevocationIsFinal(w: World, trace: seq<Step>, keyId: string)
    requires keyId in w.authority.children && w.authority.children[keyId].revoked && Unused(w, trace, keyId)
    ensures var w' := Exec(w, trace);
      && keyId in w'.authority.children && w'.authority.children[keyId] == w.authority.children[keyId]
      && Unused(w', [], keyId)
      && forall scope, subject, skill, policy, now :: !Permits(w'.authority, keyId, scope, subject, skill, policy, now)
  {
    if trace != [] {
      ChildRevocationIsFinal(w, trace[..|trace| - 1], keyId);
    }
  }
}
