/** The relay hub as an interleaved system: every Arrive call is a goroutine, every lock
    section, channel close, timer firing and connection close is one step
    (relay/relay.go). */
module Hubs {
  /** An Arrive call; it stands for its connection, and for its waiting slot if it makes one. */
  type Call = nat

  datatype Phase =
    | Waiting                 // in the select
    | TimedOut                // the timer case was taken; the lock section is still to come
    | Expired                 // lock section done; its connection is still to be closed
    | Closing(waiter: Call)   // took the waiter's slot; its channel is still to be closed
    | Pumping(waiter: Call)
    | Returned

  datatype Arrival = Arrival(sid: string, role: string, phase: Phase)

  /** `waiting` and `calls` are the hub's and the goroutines' own; the rest records history:
      how often a slot's channel was closed, who was paired with whom, which timers fired,
      which pumps ended, and which connections the hub has closed. */
  datatype Hub = Hub(
    waiting: map<string, Call>, calls: map<Call, Arrival>,
    closes: map<Call, nat>, partner: map<Call, Call>, fired: set<Call>, ended: set<Call>, shut: set<Call>)

  const EMPTY := Hub(map[], map[], map[], map[], {}, {}, {})

  predicate GoodRole(role: string) {
    role == "agent" || role == "client"
  }

  datatype Step =
    | Enter(call: Call, sid: string, role: string)
    | Signal(call: Call)
    | Wake(call: Call)
    | Fire(call: Call)
    | Expire(call: Call)
    | Hangup(call: Call)
    | EndPump(call: Call)

  predicate InPhase(h: Hub, call: Call, phase: Phase) {
    call in h.calls && h.calls[call].phase == phase
  }

  function Closes(h: Hub, call: Call): nat {
    if call in h.closes then h.closes[call] else 0
  }

  /** When a step can be taken. A call enters once; the select may take either ready case. */
  predicate Can(h: Hub, step: Step) {
    match step
    case Enter(c, _, _) => c !in h.calls
    case Signal(c) => c in h.calls && h.calls[c].phase.Closing?
    case Wake(c) => InPhase(h, c, Waiting) && Closes(h, c) > 0
    case Fire(c) => InPhase(h, c, Waiting)
    case Expire(c) => InPhase(h, c, TimedOut)
    case Hangup(c) => InPhase(h, c, Expired)
    case EndPump(c) => c in h.calls && h.calls[c].phase.Pumping?
  }

  function Refuse(h: Hub, c: Call, sid: string, role: string): Hub {
    h.(calls := h.calls[c := Arrival(sid, role, Returned)], shut := h.shut + {c})
  }

  function Pair(h: Hub, w: Call, c: Call, sid: string, role: string): Hub {
    h.(waiting := h.waiting - {sid}, calls := h.calls[c := Arrival(sid, role, Closing(w))],
        partner := h.partner[w := c][c := w])
  }

  function Wait(h: Hub, c: Call, sid: string, role: string): Hub {
    h.(waiting := h.waiting[sid := c], calls := h.calls[c := Arrival(sid, role, Waiting)])
  }

  function Enters(h: Hub, c: Call, sid: string, role: string): Hub {
    if !GoodRole(role) then Refuse(h, c, sid, role)
    else if sid in h.waiting && h.waiting[sid] in h.calls then
      if h.calls[h.waiting[sid]].role == role then Refuse(h, c, sid, role) else Pair(h, h.waiting[sid], c, sid, role)
    else Wait(h, c, sid, role)
  }

  function Moved(h: Hub, c: Call, phase: Phase): Hub
    requires c in h.calls
  {
    h.(calls := h.calls[c := h.calls[c].(phase := phase)])
  }

  function Next(h: Hub, step: Step): Hub
    requires Can(h, step)
  {
    match step
    case Enter(c, sid, role) => Enters(h, c, sid, role)
    case Signal(c) =>
      var w := h.calls[c].phase.waiter;
      Moved(h, c, Pumping(w)).(closes := h.closes[w := Closes(h, w) + 1])
    case Wake(c) => Moved(h, c, Returned)
    case Fire(c) => Moved(h, c, TimedOut).(fired := h.fired + {c})
    case Expire(c) =>
      var sid := h.calls[c].sid;
      Moved(h, c, Expired).(waiting := if sid in h.waiting && h.waiting[sid] == c then h.waiting - {sid} else h.waiting)
    case Hangup(c) => Moved(h, c, Returned).(shut := h.shut + {c})
    case EndPump(c) =>
      var w := h.calls[c].phase.waiter;
      Moved(h, c, Returned).(ended := h.ended + {c}, shut := h.shut + {c, w})
  }

  // ---------------------------------------------------------------- runs

  ghost predicate Legal(steps: seq<Step>) {
    steps == [] || (var n := |steps| - 1; Legal(steps[..n]) && Can(After(steps[..n]), steps[n]))
  }

  ghost function After(steps: seq<Step>): Hub {
    if steps == [] then EMPTY else
      var n := |steps| - 1;
      var h := After(steps[..n]);
      if Can(h, steps[n]) then Next(h, steps[n]) else h
  }

  /** A call whose slot is, or was until its own lock section, waiting for a peer. */
  predicate Pending(phase: Phase) {
    phase == Waiting || phase == TimedOut
  }

  /** Whoever is in the waiting table is a pending call of that sid, and has no partner. */
  ghost predicate TableInv(h: Hub) {
    forall sid | sid in h.waiting ::
      var c := h.waiting[sid];
      c in h.calls && h.calls[c].sid == sid && Pending(h.calls[c].phase) && GoodRole(h.calls[c].role) && c !in h.partner
  }

  /** Pairs are mutual, of one sid and of opposite roles. */
  ghost predicate PairInv(h: Hub) {
    forall c | c in h.partner ::
      var d := h.partner[c];
      && c in h.calls && d in h.calls && c != d
      && d in h.partner && h.partner[d] == c
      && h.calls[c].sid == h.calls[d].sid
      && GoodRole(h.calls[c].role) && GoodRole(h.calls[d].role) && h.calls[c].role != h.calls[d].role
  }

  /** What each goroutine's own position says. */
  ghost predicate CallInv(h: Hub, c: Call)
    requires c in h.calls
  {
    match h.calls[c].phase
    case Waiting => Listed(h, c) || c in h.partner
    case TimedOut => c in h.fired && (Listed(h, c) || c in h.partner)
    case Expired => c in h.fired
    case Closing(w) => c in h.partner && h.partner[c] == w && Idles(h, w) && Closes(h, w) == 0
    case Pumping(w) => c in h.partner && h.partner[c] == w && Idles(h, w) && Closes(h, w) == 1
    case Returned => true
  }

  /** Not the goroutine that owns a pair. */
  predicate Idles(h: Hub, c: Call) {
    c in h.calls && !h.calls[c].phase.Closing? && !h.calls[c].phase.Pumping?
  }

  predicate Listed(h: Hub, c: Call)
    requires c in h.calls
  {
    h.calls[c].sid in h.waiting && h.waiting[h.calls[c].sid] == c
  }

  /** A channel is closed at most once, and only by the partner of its slot. */
  ghost predicate CloseInv(h: Hub) {
    forall w | w in h.closes ::
      h.closes[w] <= 1 && (h.closes[w] > 0 ==>
          w in h.partner && h.partner[w] in h.calls && !h.calls[h.partner[w]].phase.Closing?)
  }

  /** A paired connection is closed by the end of a pump of its pair, or by its own stale
      timer once that has run to its end. */
  predicate ShutWhilePaired(h: Hub, c: Call)
    requires c in h.calls && c in h.partner
  {
    c in h.ended || h.partner[c] in h.ended || (c in h.fired && h.calls[c].phase == Returned)
  }

  ghost predicate ShutInv(h: Hub) {
    && h.shut <= h.calls.Keys && h.fired <= h.calls.Keys
    && (forall c | c in h.shut && c !in h.partner :: h.calls[c].phase == Returned)
    && forall c | c in h.shut && c in h.partner :: c in h.calls && ShutWhilePaired(h, c)
  }

  /** What has ended is closed: both ends of an ended pump, and whoever timed out and returned. */
  ghost predicate EndInv(h: Hub) {
    && (forall c | c in h.ended :: c in h.partner && c in h.shut && h.partner[c] in h.shut)
    && (forall c | c in h.calls && h.calls[c].phase == Returned && c !in h.partner :: c in h.shut)
    && forall c | c in h.fired :: c in h.calls &&
          (h.calls[c].phase == TimedOut || h.calls[c].phase == Expired || (h.calls[c].phase == Returned && c in h.shut))
  }

  ghost predicate Inv(h: Hub) {
    && TableInv(h) && PairInv(h) && CloseInv(h) && ShutInv(h) && EndInv(h)
    && h.partner.Keys <= h.calls.Keys && h.closes.Keys <= h.calls.Keys
    && forall c | c in h.calls :: CallInv(h, c)
  }

  lemma RefuseKeepsInv(h: Hub, c: Call, sid: string, role: string)
    requires Inv(h) && c !in h.calls
    ensures Inv(Refuse(h, c, sid, role))
  {
    var n := Refuse(h, c, sid, role);
    forall d | d in n.calls ensures CallInv(n, d) {
      if d in h.calls {
        assert CallInv(h, d);
      }
    }
  }

  lemma PairKeepsInv(h: Hub, c: Call, sid: string, role: string)
    requires Inv(h) && c !in h.calls && GoodRole(role)
    requires sid in h.waiting && h.calls[h.waiting[sid]].role != role
    ensures Inv(Pair(h, h.waiting[sid], c, sid, role))
  {
    var n := Pair(h, h.waiting[sid], c, sid, role);
    PairTables(h, c, sid, role);
    PairShuts(h, c, sid, role);
    PairKeepsCloses(h, c, sid, role);
    forall d | d in n.calls ensures CallInv(n, d) {
      PairKeepsCall(h, c, sid, role, d);
    }
  }

  lemma PairKeepsCall(h: Hub, c: Call, sid: string, role: string, d: Call)
    requires TableInv(h) && c !in h.calls && sid in h.waiting && Closes(h, h.waiting[sid]) == 0
    requires d in h.calls ==> CallInv(h, d)
    requires d == c || d in h.calls
    ensures CallInv(Pair(h, h.waiting[sid], c, sid, role), d)
  {}

  lemma PairKeepsCloses(h: Hub, c: Call, sid: string, role: string)
    requires Inv(h) && c !in h.calls && sid in h.waiting
    ensures CloseInv(Pair(h, h.waiting[sid], c, sid, role)) && Closes(h, h.waiting[sid]) == 0
  {}

  lemma PairTables(h: Hub, c: Call, sid: string, role: string)
    requires Inv(h) && c !in h.calls && GoodRole(role)
    requires sid in h.waiting && h.calls[h.waiting[sid]].role != role
    ensures var n := Pair(h, h.waiting[sid], c, sid, role); TableInv(n) && PairInv(n)
  {}

  lemma PairShuts(h: Hub, c: Call, sid: string, role: string)
    requires Inv(h) && c !in h.calls && sid in h.waiting
    ensures var n := Pair(h, h.waiting[sid], c, sid, role); ShutInv(n) && EndInv(n)
  {}

  lemma WaitKeepsInv(h: Hub, c: Call, sid: string, role: string)
    requires Inv(h) && c !in h.calls && GoodRole(role) && sid !in h.waiting
    ensures Inv(Wait(h, c, sid, role))
  {
    var n := Wait(h, c, sid, role);
    WaitTables(h, c, sid, role);
    forall d | d in n.calls ensures CallInv(n, d) {
      if d in h.calls {
        assert CallInv(h, d);
      }
    }
  }

  lemma WaitTables(h: Hub, c: Call, sid: string, role: string)
    requires Inv(h) && c !in h.calls && GoodRole(role) && sid !in h.waiting
    ensures var n := Wait(h, c, sid, role); TableInv(n) && PairInv(n) && CloseInv(n) && ShutInv(n) && EndInv(n)
  {}

  lemma EnterKeepsInv(h: Hub, c: Call, sid: string, role: string)
    requires Inv(h) && c !in h.calls
    ensures Inv(Enters(h, c, sid, role))
  {
    if !GoodRole(role) || (sid in h.waiting && h.calls[h.waiting[sid]].role == role) {
      RefuseKeepsInv(h, c, sid, role);
    } else if sid in h.waiting {
      PairKeepsInv(h, c, sid, role);
    } else {
      WaitKeepsInv(h, c, sid, role);
    }
  }

  lemma SignalKeepsInv(h: Hub, c: Call)
    requires Inv(h) && Can(h, Signal(c))
    ensures Inv(Next(h, Signal(c)))
  {
    var n := Next(h, Signal(c));
    assert CallInv(h, c);
    SignalTables(h, c);
    SignalShuts(h, c);
    forall d | d in n.calls ensures CallInv(n, d) {
      assert CallInv(h, d);
      SignalKeepsCall(h, c, d);
    }
  }

  lemma SignalKeepsCall(h: Hub, c: Call, d: Call)
    requires Can(h, Signal(c)) && PairInv(h) && d in h.calls && CallInv(h, d) && CallInv(h, c)
    ensures CallInv(Next(h, Signal(c)), d)
  {
    assert d in h.partner ==> h.partner[h.partner[d]] == d;
  }

  lemma SignalTables(h: Hub, c: Call)
    requires Can(h, Signal(c)) && CallInv(h, c) && TableInv(h) && PairInv(h) && CloseInv(h)
    ensures var n := Next(h, Signal(c)); TableInv(n) && PairInv(n) && CloseInv(n)
  {}

  lemma SignalShuts(h: Hub, c: Call)
    requires Can(h, Signal(c)) && CallInv(h, c) && PairInv(h) && ShutInv(h) && EndInv(h)
    ensures var n := Next(h, Signal(c)); ShutInv(n) && EndInv(n)
  {}

  /** The steps that move no goroutine but their own, and leave table and channels alone. */
  predicate IsOwnMove(step: Step) {
    step.Wake? || step.Fire? || step.Hangup? || step.EndPump?
  }

  lemma OwnMoveKeepsCall(h: Hub, step: Step, d: Call)
    requires IsOwnMove(step) && Can(h, step) && d in h.calls && CallInv(h, d) && CallInv(h, step.call)
    ensures CallInv(Next(h, step), d)
  {}

  lemma OwnMoveKeepsTable(h: Hub, step: Step)
    requires IsOwnMove(step) && Can(h, step) && CloseInv(h) && TableInv(h)
    ensures TableInv(Next(h, step))
  {}

  lemma OwnMoveKeepsPairs(h: Hub, step: Step)
    requires IsOwnMove(step) && Can(h, step) && PairInv(h)
    ensures PairInv(Next(h, step))
  {}

  lemma OwnMoveKeepsCloses(h: Hub, step: Step)
    requires IsOwnMove(step) && Can(h, step) && CloseInv(h)
    ensures CloseInv(Next(h, step))
  {}

  lemma OwnMoveKeepsShut(h: Hub, step: Step)
    requires IsOwnMove(step) && Can(h, step) && CallInv(h, step.call) && PairInv(h) && ShutInv(h)
    ensures ShutInv(Next(h, step))
  {}

  lemma OwnMoveKeepsEnds(h: Hub, step: Step)
    requires IsOwnMove(step) && Can(h, step) && CallInv(h, step.call) && CloseInv(h) && EndInv(h)
    ensures EndInv(Next(h, step))
  {}

  lemma OwnMoveKeepsInv(h: Hub, step: Step)
    requires Inv(h) && Can(h, step) && IsOwnMove(step)
    ensures Inv(Next(h, step))
  {
    assert CallInv(h, step.call);
    OwnMoveKeepsTable(h, step);
    OwnMoveKeepsPairs(h, step);
    OwnMoveKeepsCloses(h, step);
    OwnMoveKeepsShut(h, step);
    OwnMoveKeepsEnds(h, step);
    forall d | d in h.calls ensures CallInv(Next(h, step), d) {
      assert CallInv(h, d);
      OwnMoveKeepsCall(h, step, d);
    }
  }

  lemma ExpireKeepsInv(h: Hub, c: Call)
    requires Inv(h) && Can(h, Expire(c))
    ensures Inv(Next(h, Expire(c)))
  {
    assert CallInv(h, c);
    ExpireTables(h, c);
    forall d | d in h.calls ensures CallInv(Next(h, Expire(c)), d) {
      assert CallInv(h, d);
      ExpireKeepsCall(h, c, d);
    }
  }

  lemma ExpireKeepsCall(h: Hub, c: Call, d: Call)
    requires Can(h, Expire(c)) && d in h.calls && CallInv(h, d) && CallInv(h, c)
    ensures CallInv(Next(h, Expire(c)), d)
  {}

  lemma ExpireTables(h: Hub, c: Call)
    requires Can(h, Expire(c)) && CallInv(h, c) && TableInv(h) && PairInv(h) && CloseInv(h) && ShutInv(h) && EndInv(h)
    ensures var n := Next(h, Expire(c)); TableInv(n) && PairInv(n) && CloseInv(n) && ShutInv(n) && EndInv(n)
  {}

  lemma StepKeepsInv(h: Hub, step: Step)
    requires Inv(h) && Can(h, step)
    ensures Inv(Next(h, step))
  {
    match step
    case Enter(c, sid, role) => EnterKeepsInv(h, c, sid, role);
    case Signal(c) => SignalKeepsInv(h, c);
    case Expire(c) => ExpireKeepsInv(h, c);
    case _ => OwnMoveKeepsInv(h, step);
  }

  lemma {:induction false} RunKeepsInv(steps: seq<Step>)
    requires Legal(steps)
    ensures Inv(After(steps))
  {
    if steps != [] {
      RunKeepsInv(steps[..|steps| - 1]);
      StepKeepsInv(After(steps[..|steps| - 1]), steps[|steps| - 1]);
    }
  }

  // ---------------------------------------------------------------- what every run guarantees

  /** Main result: whenever a goroutine is about to close a waiter's channel, that channel is
      still open, so no interleaving closes a channel twice. */
  lemma {:induction false} ChannelsCloseOnce(steps: seq<Step>, c: Call)
    requires Legal(steps) && Can(After(steps), Signal(c))
    ensures Closes(After(steps), After(steps).calls[c].phase.waiter) == 0
  {
    RunKeepsInv(steps);
    assert CallInv(After(steps), c);
  }

  /** Once the pump of a pair runs, the waiter's channel has been closed, so a waiter that is
      still in its select can leave it. */
  lemma {:induction false} PumpingReleasesTheWaiter(steps: seq<Step>, c: Call)
    requires Legal(steps) && IsPumping(After(steps), c)
    ensures var h := After(steps); var w := h.calls[c].phase.waiter;
            Closes(h, w) == 1 && (InPhase(h, w, Waiting) ==> Can(h, Wake(w)))
  {
    RunKeepsInv(steps);
    assert CallInv(After(steps), c);
  }

  /** Whoever returns without a partner has had its connection closed: refused or timed out. */
  lemma {:induction false} UnpairedAreClosed(steps: seq<Step>, c: Call)
    requires Legal(steps) && InPhase(After(steps), c, Returned) && c !in After(steps).partner
    ensures c in After(steps).shut
  {
    RunKeepsInv(steps);
  }

  predicate IsPumping(h: Hub, c: Call) {
    c in h.calls && h.calls[c].phase.Pumping?
  }

  /** The pump of `c` joins it to another connection of the same sid and the opposite role. */
  predicate JoinsPeers(h: Hub, c: Call)
    requires IsPumping(h, c)
  {
    var v := h.calls[c].phase.waiter;
    && v in h.calls && v != c && h.calls[v].sid == h.calls[c].sid
    && GoodRole(h.calls[v].role) && GoodRole(h.calls[c].role) && h.calls[v].role != h.calls[c].role
  }

  /** The pumps of `c` and `d` have no connection in common. */
  predicate Apart(h: Hub, c: Call, d: Call)
    requires IsPumping(h, c) && IsPumping(h, d)
  {
    var v, w := h.calls[c].phase.waiter, h.calls[d].phase.waiter;
    c != d && c != w && v != d && v != w
  }

  lemma InvKeepsPumpsApart(h: Hub, c: Call, d: Call)
    requires Inv(h) && IsPumping(h, c) && IsPumping(h, d)
    ensures JoinsPeers(h, c) && (c != d ==> Apart(h, c, d))
  {
    assert CallInv(h, c) && CallInv(h, d);
    assert h.partner[h.partner[c]] == c && h.partner[h.partner[d]] == d;
  }

  /** Main result: a pump joins two connections of one sid and opposite roles, and no two
      running pumps have a connection in common. */
  lemma {:induction false} PumpsAreDisjointPairs(steps: seq<Step>, c: Call, d: Call)
    requires Legal(steps) && IsPumping(After(steps), c) && IsPumping(After(steps), d)
    ensures JoinsPeers(After(steps), c) && (c != d ==> Apart(After(steps), c, d))
  {
    RunKeepsInv(steps);
    InvKeepsPumpsApart(After(steps), c, d);
  }

  lemma StepKeepsPair(h: Hub, step: Step, c: Call)
    requires Inv(h) && Can(h, step) && c in h.partner
    ensures c in Next(h, step).partner && Next(h, step).partner[c] == h.partner[c]
  {}

  /** Once paired, a connection keeps its partner through every continuation of the run, so it
      is pumped in one pair at most. */
  lemma {:induction false} PairsAreForGood(steps: seq<Step>, more: seq<Step>, c: Call)
    requires Legal(steps + more) && c in After(steps).partner
    ensures c in After(steps + more).partner && After(steps + more).partner[c] == After(steps).partner[c]
  {
    var all := steps + more;
    if more == [] {
      assert all == steps;
    } else {
      var n := |more| - 1;
      assert all[..|all| - 1] == steps + more[..n] && all[|all| - 1] == more[n];
      PairsAreForGood(steps, more[..n], c);
      RunKeepsInv(steps + more[..n]);
      StepKeepsPair(After(steps + more[..n]), more[n], c);
    }
  }

  /** Main result: the table holds pending calls of the right sid only, so no slot stays in it
      once its Arrive has returned; and a pending call outside the table has a partner, so no
      waiter is forgotten. */
  lemma {:induction false} TableIsThePendingCalls(steps: seq<Step>, c: Call)
    requires Legal(steps) && c in After(steps).calls
    ensures var h := After(steps); var a := h.calls[c];
            && (forall sid | sid in h.waiting && h.waiting[sid] == c :: sid == a.sid && Pending(a.phase))
            && (Pending(a.phase) ==> (Listed(h, c) <==> c !in h.partner))
  {
    RunKeepsInv(steps);
    assert CallInv(After(steps), c);
  }

  /** A timeout, however stale, takes nobody else's slot out of the table. */
  lemma {:induction false} TimeoutSparesOthers(steps: seq<Step>, c: Call, sid: string)
    requires Legal(steps) && Can(After(steps), Expire(c)) && sid in After(steps).waiting
    ensures var h := After(steps); var n := Next(h, Expire(c));
            if h.waiting[sid] == c then sid !in n.waiting else sid in n.waiting && n.waiting[sid] == h.waiting[sid]
  {
    RunKeepsInv(steps);
  }

  /** Exact condition: a connection that has a partner is closed if and only if a pump of the
      pair has ended, or its own timer had fired and its Arrive has returned. */
  lemma {:induction false} PairedAreShutByPumpOrTimer(steps: seq<Step>, c: Call)
    requires Legal(steps) && c in After(steps).partner
    ensures var h := After(steps); c in h.calls && (c in h.shut <==> ShutWhilePaired(h, c))
  {
    RunKeepsInv(steps);
    PairedIsShut(After(steps), c);
  }

  lemma PairedIsShut(h: Hub, c: Call)
    requires Inv(h) && c in h.partner
    ensures c in h.calls && (c in h.shut <==> ShutWhilePaired(h, c))
  {
    assert h.partner[h.partner[c]] == c;
  }

  lemma Snoc(steps: seq<Step>, step: Step)
    requires Legal(steps) && Can(After(steps), step)
    ensures Legal(steps + [step]) && After(steps + [step]) == Next(After(steps), step)
  {
    assert (steps + [step])[..|steps|] == steps;
  }

  /** The second case does happen: a waiter whose timer fires just before its peer arrives is
      paired, and then closes the paired connection before any byte is pumped. */
  lemma StaleTimerCutsAPair()
    ensures exists steps ::
              && Legal(steps)
              && var h := After(steps);
              && 0 in h.partner && h.partner[0] == 1 && 0 in h.shut && h.ended == {} && InPhase(h, 1, Closing(0))
  {
    var s1 := [] + [Enter(0, "s", "agent")];
    Snoc([], Enter(0, "s", "agent"));
    var s2 := s1 + [Fire(0)];
    Snoc(s1, Fire(0));
    var s3 := s2 + [Enter(1, "s", "client")];
    Snoc(s2, Enter(1, "s", "client"));
    var s4 := s3 + [Expire(0)];
    Snoc(s3, Expire(0));
    var s5 := s4 + [Hangup(0)];
    Snoc(s4, Hangup(0));
  }
}
