/** The offer and acknowledgement exchange between client look-ups and agent loops as an
    interleaved system: each lock section, channel operation and write is one step
    (signal/client.go, signal/agent.go). */
module Introductions {
  type Id = nat

  datatype Message = Error | Absent | Peer(sid: string, direct: string) | Direct(direct: string)

  datatype Phase =
    | Registered             // in the pending table; the offer is still to be sent
    | Offered                // in the two-second select
    | Peering(direct: string)
    | Lingering              // in the 50-millisecond select
    | Late(direct: string)
    | Leaving                // the deferred delete is still to come
    | Ended                  // opened and over
    | Answered               // error or absent, never opened

  /** A client's look-up with its ack channel: `buf` is the channel, `accepted` all it ever
      took, `got` what the look-up received from it, `outbox` what was written to the client. */
  datatype Lookup = Lookup(sid: string, phase: Phase, buf: seq<string>, accepted: seq<string>, got: seq<string>,
      outbox: seq<Message>)

  /** An agent's offer-ack between finding the channel and the non-blocking send, and after. */
  datatype Ack = Ignored(sid: string) | Found(lookup: Id, direct: string) | Sent(lookup: Id) | Dropped(lookup: Id)

  datatype Desk = Desk(pending: map<string, Id>, lookups: map<Id, Lookup>, acks: map<Id, Ack>, offers: map<string, Id>)

  const EMPTY := Desk(map[], map[], map[], map[])
  const CAPACITY := 2

  datatype Step =
    | Answer(id: Id, message: Message)
    | Open(id: Id, sid: string)
    | Offer(id: Id)
    | Receive(id: Id)
    | GiveUp(id: Id)
    | WritePeer(id: Id)
    | ReceiveLate(id: Id)
    | StopLingering(id: Id)
    | WriteDirect(id: Id)
    | Leave(id: Id)
    | Look(ack: Id, sid: string, direct: string)
    | Send(ack: Id)

  predicate In(d: Desk, id: Id, phase: Phase) {
    id in d.lookups && d.lookups[id].phase == phase
  }

  /** A session id is a fresh UUID: no look-up has had it before. */
  ghost predicate Can(d: Desk, step: Step) {
    match step
    case Answer(id, m) => id !in d.lookups && (m == Error || m == Absent)
    case Open(id, sid) =>
      && id !in d.lookups
      && forall l | l in d.lookups :: d.lookups[l].phase != Answered ==> d.lookups[l].sid != sid
    case Offer(id) => In(d, id, Registered)
    case Receive(id) => In(d, id, Offered) && d.lookups[id].buf != []
    case GiveUp(id) => In(d, id, Offered)
    case WritePeer(id) => id in d.lookups && d.lookups[id].phase.Peering?
    case ReceiveLate(id) => In(d, id, Lingering) && d.lookups[id].buf != []
    case StopLingering(id) => In(d, id, Lingering)
    case WriteDirect(id) => id in d.lookups && d.lookups[id].phase.Late?
    case Leave(id) => In(d, id, Leaving)
    case Look(a, _, _) => a !in d.acks
    case Send(a) => a in d.acks && d.acks[a].Found? && d.acks[a].lookup in d.lookups
  }

  function Set(d: Desk, id: Id, l: Lookup): Desk {
    d.(lookups := d.lookups[id := l])
  }

  /** The look-up's own moves. */
  function Moved(l: Lookup, step: Step): Lookup {
    match step
    case Offer(_) => l.(phase := Offered)
    case Receive(_) =>
      if l.buf == [] then l else
        l.(phase := Peering(l.buf[0]), got := l.got + [l.buf[0]], buf := l.buf[1..])
    case GiveUp(_) => l.(phase := Peering(""))
    case WritePeer(_) =>
      if !l.phase.Peering? then l else
        l.(phase := if l.phase.direct == "" then Lingering else Leaving,
            outbox := l.outbox + [Peer(l.sid, l.phase.direct)])
    case ReceiveLate(_) =>
      if l.buf == [] then l else
        l.(phase := if l.buf[0] == "" then Leaving else Late(l.buf[0]), got := l.got + [l.buf[0]], buf := l.buf[1..])
    case StopLingering(_) => l.(phase := Leaving)
    case WriteDirect(_) =>
      if !l.phase.Late? then l else l.(phase := Leaving, outbox := l.outbox + [Direct(l.phase.direct)])
    case Leave(_) => l.(phase := Ended)
    case _ => l
  }

  /** The non-blocking send. */
  function Took(l: Lookup, direct: string): Lookup {
    if |l.buf| >= CAPACITY then l else l.(buf := l.buf + [direct], accepted := l.accepted + [direct])
  }

  ghost function Next(d: Desk, step: Step): Desk
    requires Can(d, step)
  {
    match step
    case Answer(id, m) => Set(d, id, Lookup("", Answered, [], [], [], [m]))
    case Open(id, sid) => Set(d, id, Lookup(sid, Registered, [], [], [], [])).(pending := d.pending[sid := id])
    case Offer(id) => Set(d, id, Moved(d.lookups[id], step)).(offers := d.offers[d.lookups[id].sid := id])
    case Leave(id) => Set(d, id, Moved(d.lookups[id], step)).(pending := d.pending - {d.lookups[id].sid})
    case Look(a, sid, direct) =>
      d.(acks := d.acks[a := if sid in d.pending then Found(d.pending[sid], direct) else Ignored(sid)])
    case Send(a) =>
      var id := d.acks[a].lookup;
      var l := d.lookups[id];
      Set(d, id, Took(l, d.acks[a].direct)).(acks := d.acks[a := if |l.buf| >= CAPACITY then Dropped(id) else Sent(id)])
    case _ => Set(d, step.id, Moved(d.lookups[step.id], step))
  }

  // ---------------------------------------------------------------- invariants

  /** What the client has been told, by position and by what was received. */
  predicate Told(l: Lookup) {
    match l.phase
    case Answered => l.outbox == [Error] || l.outbox == [Absent]
    case Registered => l.outbox == [] && l.got == []
    case Offered => l.outbox == [] && l.got == []
    case Peering(d) => l.outbox == [] && (l.got == [d] || (l.got == [] && d == ""))
    case Lingering => l.outbox == [Peer(l.sid, "")] && (l.got == [] || l.got == [""])
    case Late(d) => l.outbox == [Peer(l.sid, "")] && d != "" && (l.got == [d] || l.got == ["", d])
    case Leaving => Complete(l)
    case Ended => Complete(l)
  }

  /** A finished conversation: a peer; or a peer without a direct, then one direct. */
  predicate Complete(l: Lookup) {
    || (|l.got| == 1 && l.got[0] != "" && l.outbox == [Peer(l.sid, l.got[0])])
    || (l.outbox == [Peer(l.sid, "")] && (forall g | g in l.got :: g == "") && |l.got| <= 2)
    || (1 <= |l.got| <= 2 && l.got[|l.got| - 1] != "" && (|l.got| == 2 ==> l.got[0] == "")
        && l.outbox == [Peer(l.sid, ""), Direct(l.got[|l.got| - 1])])
  }

  predicate InFlight(phase: Phase) {
    phase != Ended && phase != Answered
  }

  ghost predicate LookupInv(d: Desk, id: Id)
    requires id in d.lookups
  {
    var l := d.lookups[id];
    && Told(l)
    && |l.buf| <= CAPACITY && l.accepted == l.got + l.buf
    && (InFlight(l.phase) ==> l.sid in d.pending && d.pending[l.sid] == id)
    && (l.phase != Registered && l.phase != Answered ==> l.sid in d.offers && d.offers[l.sid] == id)
  }

  ghost predicate AckInv(d: Desk, a: Id)
    requires a in d.acks
  {
    match d.acks[a]
    case Ignored(_) => true
    case Found(id, _) => id in d.lookups
    case Sent(id) => id in d.lookups
    case Dropped(id) => id in d.lookups && |d.lookups[id].accepted| >= CAPACITY
  }

  /** No two look-ups have had one sid. */
  ghost predicate SidInv(d: Desk) {
    forall i, j | i in d.lookups && j in d.lookups && i != j ::
      d.lookups[i].phase != Answered && d.lookups[j].phase != Answered ==> d.lookups[i].sid != d.lookups[j].sid
  }

  /** The pending table holds look-ups in flight only; an offered sid belongs to an opened one. */
  ghost predicate TableInv(d: Desk) {
    && (forall sid | sid in d.pending ::
          d.pending[sid] in d.lookups && d.lookups[d.pending[sid]].sid == sid
              && InFlight(d.lookups[d.pending[sid]].phase))
    && (forall sid | sid in d.offers ::
          d.offers[sid] in d.lookups && d.lookups[d.offers[sid]].sid == sid
              && d.lookups[d.offers[sid]].phase != Answered)
    && (forall sid | sid in d.offers && sid in d.pending :: d.offers[sid] == d.pending[sid])
  }

  ghost predicate Inv(d: Desk) {
    && TableInv(d) && SidInv(d)
    && (forall id | id in d.lookups :: LookupInv(d, id))
    && (forall a | a in d.acks :: AckInv(d, a))
  }

  /** A move of an open look-up: not its opening, and not its end. */
  predicate IsMove(step: Step) {
    step.Offer? || step.Receive? || step.GiveUp? || step.WritePeer? || step.ReceiveLate? || step.StopLingering?
        || step.WriteDirect?
  }

  lemma ReceiveTells(l: Lookup, step: Step)
    requires l.buf != [] && Told(l) && l.accepted == l.got + l.buf
    requires (step.Receive? && l.phase == Offered) || (step.ReceiveLate? && l.phase == Lingering)
    ensures var m := Moved(l, step); Told(m) && m.accepted == m.got + m.buf
  {
    assert l.buf == [l.buf[0]] + l.buf[1..];
  }

  lemma MoveTells(d: Desk, step: Step)
    requires IsMove(step) && Can(d, step) && Told(d.lookups[step.id])
    requires d.lookups[step.id].accepted == d.lookups[step.id].got + d.lookups[step.id].buf
    ensures var l, m := d.lookups[step.id], Moved(d.lookups[step.id], step);
            && Told(m) && m.sid == l.sid && InFlight(l.phase) && InFlight(m.phase)
            && m.accepted == l.accepted && |m.buf| <= |l.buf| && m.accepted == m.got + m.buf
  {
    if step.Receive? || step.ReceiveLate? {
      ReceiveTells(d.lookups[step.id], step);
    }
  }

  lemma MoveKeepsLookup(d: Desk, step: Step, id: Id)
    requires IsMove(step) && Can(d, step) && id in d.lookups
    requires LookupInv(d, id) && LookupInv(d, step.id) && SidInv(d)
    ensures LookupInv(Next(d, step), id)
  {
    MoveTells(d, step);
  }

  /** A step opens a look-up under a fresh sid, or renames none. */
  lemma StepKeepsName(d: Desk, step: Step, i: Id)
    requires Can(d, step) && i in Next(d, step).lookups
    requires IsMove(step) ==> LookupInv(d, step.id)
    ensures var l := Next(d, step).lookups[i];
            if i in d.lookups then l.sid == d.lookups[i].sid
                && (l.phase == Answered <==> d.lookups[i].phase == Answered)
            else (step.Answer? && l.phase == Answered) || (step.Open? && step.id == i && l.sid == step.sid)
  {
    if IsMove(step) {
      MoveTells(d, step);
    }
  }

  lemma StepKeepsSids(d: Desk, step: Step)
    requires Can(d, step) && SidInv(d)
    requires IsMove(step) ==> LookupInv(d, step.id)
    ensures SidInv(Next(d, step))
  {
    var n := Next(d, step);
    forall i, j | i in n.lookups && j in n.lookups && i != j
      ensures n.lookups[i].phase != Answered && n.lookups[j].phase != Answered ==> n.lookups[i].sid != n.lookups[j].sid
    {
      StepKeepsName(d, step, i);
      StepKeepsName(d, step, j);
    }
  }

  lemma MoveKeepsTable(d: Desk, step: Step)
    requires IsMove(step) && Can(d, step) && TableInv(d) && LookupInv(d, step.id)
    ensures TableInv(Next(d, step))
  {
    MoveTells(d, step);
  }

  lemma MoveKeepsInv(d: Desk, step: Step)
    requires IsMove(step) && Can(d, step) && Inv(d)
    ensures Inv(Next(d, step))
  {
    assert LookupInv(d, step.id);
    MoveKeepsTable(d, step);
    StepKeepsSids(d, step);
    MoveTells(d, step);
    forall id | id in d.lookups ensures LookupInv(Next(d, step), id) {
      MoveKeepsLookup(d, step, id);
    }
    forall a | a in d.acks ensures AckInv(Next(d, step), a) {
      assert AckInv(d, a);
    }
  }

  lemma OpenKeepsLookup(d: Desk, step: Step, id: Id)
    requires (step.Answer? || step.Open?) && Can(d, step) && TableInv(d)
    requires id in d.lookups ==> LookupInv(d, id)
    ensures id in Next(d, step).lookups ==> LookupInv(Next(d, step), id)
  {}

  lemma OpenKeepsTable(d: Desk, step: Step)
    requires (step.Answer? || step.Open?) && Can(d, step) && TableInv(d)
    ensures TableInv(Next(d, step))
  {}

  lemma OpenKeepsInv(d: Desk, step: Step)
    requires (step.Answer? || step.Open?) && Can(d, step) && Inv(d)
    ensures Inv(Next(d, step))
  {
    OpenKeepsTable(d, step);
    StepKeepsSids(d, step);
    forall id | id in Next(d, step).lookups ensures LookupInv(Next(d, step), id) {
      OpenKeepsLookup(d, step, id);
    }
    forall a | a in d.acks ensures AckInv(Next(d, step), a) {
      assert AckInv(d, a);
    }
  }

  lemma LeaveKeepsInv(d: Desk, id: Id)
    requires Can(d, Leave(id)) && Inv(d)
    ensures Inv(Next(d, Leave(id)))
  {
    assert LookupInv(d, id);
    StepKeepsSids(d, Leave(id));
    LeaveKeepsTable(d, id);
    forall i | i in d.lookups ensures LookupInv(Next(d, Leave(id)), i) {
      LeaveKeepsLookup(d, id, i);
    }
    forall a | a in d.acks ensures AckInv(Next(d, Leave(id)), a) {
      assert AckInv(d, a);
    }
  }

  lemma LeaveKeepsLookup(d: Desk, id: Id, i: Id)
    requires Can(d, Leave(id)) && i in d.lookups && LookupInv(d, i) && LookupInv(d, id) && SidInv(d)
    ensures LookupInv(Next(d, Leave(id)), i)
  {}

  lemma LeaveKeepsTable(d: Desk, id: Id)
    requires Can(d, Leave(id)) && TableInv(d) && LookupInv(d, id)
    ensures TableInv(Next(d, Leave(id)))
  {}

  lemma LookKeepsInv(d: Desk, step: Step)
    requires step.Look? && Can(d, step) && Inv(d)
    ensures Inv(Next(d, step))
  {
    var n := Next(d, step);
    StepKeepsSids(d, step);
    forall id | id in n.lookups ensures LookupInv(n, id) {
      assert LookupInv(d, id);
    }
    forall a | a in n.acks ensures AckInv(n, a) {
      if a in d.acks {
        assert AckInv(d, a);
      }
    }
  }

  lemma SendKeepsLookup(d: Desk, step: Step, id: Id)
    requires step.Send? && Can(d, step) && id in d.lookups && LookupInv(d, id)
    ensures LookupInv(Next(d, step), id)
  {}

  lemma SendKeepsTable(d: Desk, step: Step)
    requires step.Send? && Can(d, step) && TableInv(d)
    ensures TableInv(Next(d, step))
  {}

  lemma SendKeepsAck(d: Desk, step: Step, a: Id)
    requires step.Send? && Can(d, step) && a in d.acks && AckInv(d, a) && LookupInv(d, d.acks[step.ack].lookup)
    ensures AckInv(Next(d, step), a)
  {}

  lemma SendKeepsInv(d: Desk, step: Step)
    requires step.Send? && Can(d, step) && Inv(d)
    ensures Inv(Next(d, step))
  {
    SendKeepsTable(d, step);
    StepKeepsSids(d, step);
    forall id | id in d.lookups ensures LookupInv(Next(d, step), id) {
      SendKeepsLookup(d, step, id);
    }
    forall a | a in d.acks ensures AckInv(Next(d, step), a) {
      SendKeepsAck(d, step, a);
    }
  }

  lemma StepKeepsInv(d: Desk, step: Step)
    requires Can(d, step) && Inv(d)
    ensures Inv(Next(d, step))
  {
    if IsMove(step) {
      MoveKeepsInv(d, step);
    } else if step.Leave? {
      LeaveKeepsInv(d, step.id);
    } else if step.Look? {
      LookKeepsInv(d, step);
    } else if step.Send? {
      SendKeepsInv(d, step);
    } else {
      OpenKeepsInv(d, step);
    }
  }

  // ---------------------------------------------------------------- runs

  ghost function After(steps: seq<Step>): Desk {
    if steps == [] then EMPTY else
      var n := |steps| - 1;
      var d := After(steps[..n]);
      if Can(d, steps[n]) then Next(d, steps[n]) else d
  }

  ghost predicate Legal(steps: seq<Step>) {
    steps == [] || (var n := |steps| - 1; Legal(steps[..n]) && Can(After(steps[..n]), steps[n]))
  }

  lemma {:induction false} RunKeepsInv(steps: seq<Step>)
    requires Legal(steps)
    ensures Inv(After(steps))
  {
    if steps != [] {
      RunKeepsInv(steps[..|steps| - 1]);
      StepKeepsInv(After(steps[..|steps| - 1]), steps[|steps| - 1]);
    }
  }

  /** Main result: the pending table holds exactly the look-ups in flight. */
  lemma {:induction false} PendingIsInFlight(steps: seq<Step>, sid: string, id: Id)
    requires Legal(steps)
    ensures var d := After(steps);
            (sid in d.pending && d.pending[sid] == id) <==>
            (id in d.lookups && d.lookups[id].sid == sid && InFlight(d.lookups[id].phase))
  {
    RunKeepsInv(steps);
    if id in After(steps).lookups {
      assert LookupInv(After(steps), id);
    }
  }

  /** Main result: a look-up is registered before its offer goes out, so an acknowledgement of
      an offered sid finds no channel only once that look-up has ended. */
  lemma {:induction false} AnswersFindTheirLookup(steps: seq<Step>, sid: string)
    requires Legal(steps) && sid in After(steps).offers
    ensures PendingOrOver(After(steps), sid)
  {
    RunKeepsInv(steps);
    OfferedIsPendingOrOver(After(steps), sid);
  }

  predicate PendingOrOver(d: Desk, sid: string)
    requires sid in d.offers
  {
    var id := d.offers[sid];
    id in d.lookups && (if sid in d.pending then d.pending[sid] == id else d.lookups[id].phase == Ended)
  }

  lemma OfferedIsPendingOrOver(d: Desk, sid: string)
    requires Inv(d) && sid in d.offers
    ensures PendingOrOver(d, sid)
  {
    assert LookupInv(d, d.offers[sid]);
  }

  /** Main result: an acknowledgement finds exactly the look-up in flight under its sid, and is
      ignored when there is none. */
  lemma {:induction false} AckFindsItsLookup(steps: seq<Step>, a: Id, sid: string, direct: string, id: Id)
    requires Legal(steps) && Can(After(steps), Look(a, sid, direct))
    ensures var d := After(steps); var ack := Next(d, Look(a, sid, direct)).acks[a];
            && (ack == Found(id, direct) <==>
                  id in d.lookups && d.lookups[id].sid == sid && InFlight(d.lookups[id].phase))
            && (ack == Ignored(sid) <==> sid !in d.pending)
  {
    PendingIsInFlight(steps, sid, id);
  }

  /** No client is given a peer before the offer has gone out to the agent. */
  lemma {:induction false} PeersWereOffered(steps: seq<Step>, id: Id)
    requires Legal(steps) && id in After(steps).lookups
    requires exists m | m in After(steps).lookups[id].outbox :: m.Peer?
    ensures var d := After(steps); var sid := d.lookups[id].sid; sid in d.offers && d.offers[sid] == id
  {
    RunKeepsInv(steps);
    assert LookupInv(After(steps), id);
  }

  /** Main result: the agent loop never waits on a channel, and the send drops an
      acknowledgement only when two others were accepted on that channel before it. */
  lemma {:induction false} FirstTwoAcksAreKept(steps: seq<Step>, a: Id)
    requires Legal(steps) && Can(After(steps), Send(a))
    ensures KeepsEarlyAck(After(steps), a)
  {
    RunKeepsInv(steps);
    EarlyAckIsKept(After(steps), a);
  }

  /** Sending `a` ends it one way or the other, and well if fewer than two came before. */
  ghost predicate KeepsEarlyAck(d: Desk, a: Id)
    requires Can(d, Send(a))
  {
    var n := Next(d, Send(a));
    var id := d.acks[a].lookup;
    && (n.acks[a] == Sent(id) || n.acks[a] == Dropped(id))
    && (|d.lookups[id].accepted| < 2 ==>
          n.acks[a] == Sent(id) && n.lookups[id].accepted == d.lookups[id].accepted + [d.acks[a].direct])
  }

  lemma EarlyAckIsKept(d: Desk, a: Id)
    requires Inv(d) && Can(d, Send(a))
    ensures KeepsEarlyAck(d, a)
  {
    assert LookupInv(d, d.acks[a].lookup);
  }

  /** What a client may be shown: nothing yet; an error; absent; a peer; or a peer without a
      direct and then one direct that is not empty. */
  predicate Fine(l: Lookup) {
    || l.outbox == []
    || l.outbox == [Error]
    || l.outbox == [Absent]
    || (|l.outbox| == 1 && l.outbox[0].Peer? && l.outbox[0].sid == l.sid)
    || (|l.outbox| == 2 && l.outbox[0] == Peer(l.sid, "") && l.outbox[1].Direct? && l.outbox[1].direct != "")
  }

  /** Every direct it was shown came from an agent, and is the first or second accepted. */
  predicate FromAgent(l: Lookup) {
    forall m | m in l.outbox ::
      (m.Peer? && m.direct != "" ==> |l.accepted| > 0 && m.direct == l.accepted[0]) &&
      (m.Direct? ==> exists i | 0 <= i < |l.accepted| && i < 2 :: m.direct == l.accepted[i])
  }

  /** Main result: in every interleaving each client sees one of those conversations only, and
      what it received is a prefix of what was accepted, in order. */
  lemma {:induction false} ClientSeesOneConversation(steps: seq<Step>, id: Id)
    requires Legal(steps) && id in After(steps).lookups
    ensures var l := After(steps).lookups[id];
            Fine(l) && FromAgent(l) && l.got <= l.accepted && (l.phase == Ended ==> Complete(l))
  {
    RunKeepsInv(steps);
    assert LookupInv(After(steps), id);
    ToldIsFine(After(steps).lookups[id]);
  }

  lemma ToldIsFine(l: Lookup)
    requires Told(l) && l.accepted == l.got + l.buf
    ensures Fine(l) && FromAgent(l)
  {
    assert l.got <= l.accepted;
    forall m | m in l.outbox && m.Direct?
      ensures exists i | 0 <= i < |l.accepted| && i < 2 :: m.direct == l.accepted[i]
    {
      assert m.direct == l.got[|l.got| - 1] == l.accepted[|l.got| - 1];
    }
  }
}
