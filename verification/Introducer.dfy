/** The introducer's shared objects: the pending table and the ack channels of
    signal/client.go and signal/agent.go. */
module Introducers {
  import opened Options
  import opened Introductions

  /** A buffered channel of two acknowledgements. */
  class AckChannel {
    var buf: seq<string>

    constructor ()
      ensures buf == []
    {
      buf := [];
    }
  }

  class Introducer {
    var pending: map<string, AckChannel>

    ghost var steps: seq<Step>              // the run this object has been through
    ghost var desk: Desk                    // where that run has led
    ghost var channels: map<Id, AckChannel>  // one for every look-up opened
    ghost var owner: map<AckChannel, Id>

    ghost predicate Valid()
      reads this, owner.Keys
    {
      Legal(steps) && desk == After(steps) && Linked(desk)
    }

    /** The object agrees with the state `d`. */
    ghost predicate Linked(d: Desk)
      reads this, owner.Keys
    {
      && pending.Keys == d.pending.Keys
      && (forall sid | sid in pending :: d.pending[sid] in channels && channels[d.pending[sid]] == pending[sid])
      && (forall id | id in channels ::
            && id in d.lookups && channels[id] in owner && owner[channels[id]] == id
            && channels[id].buf == d.lookups[id].buf)
    }

    /** Records a step that has just been taken. */
    ghost method Take(step: Step)
      requires Legal(steps) && desk == After(steps) && Can(desk, step) && Linked(Next(desk, step))
      modifies this`steps, this`desk
      ensures Valid() && desk == Next(old(desk), step) && steps == old(steps) + [step]
    {
      Snoc(steps, step);
      steps, desk := steps + [step], Next(desk, step);
    }

    constructor ()
      ensures Valid() && steps == []
    {
      pending, channels, owner := map[], map[], map[];
      steps, desk := [], EMPTY;
    }

    /** Client: the channel goes into the table before the offer goes out. */
    method Register(id: Id, sid: string) returns (ch: AckChannel)
      requires Valid() && Can(desk, Open(id, sid))
      modifies this
      ensures Valid() && steps == old(steps) + [Open(id, sid)]
      ensures fresh(ch) && sid in pending && pending[sid] == ch
      ensures channels == old(channels)[id := ch]
    {
      ch := NewChannel(id, sid);
      Take(Open(id, sid));
    }

    method NewChannel(id: Id, sid: string) returns (ch: AckChannel)
      requires Linked(desk) && Can(desk, Open(id, sid))
      modifies this`pending, this`channels, this`owner
      ensures fresh(ch) && pending == old(pending)[sid := ch] && channels == old(channels)[id := ch]
      ensures Linked(Next(desk, Open(id, sid)))
    {
      ch := new AckChannel();
      pending, channels, owner := pending[sid := ch], channels[id := ch], owner[ch := id];
    }

    /** Client: the deferred delete. */
    method Deregister(id: Id, sid: string)
      requires Valid() && Can(desk, Leave(id)) && desk.lookups[id].sid == sid
      modifies this`steps, this`desk, this`pending
      ensures Valid() && steps == old(steps) + [Leave(id)]
      ensures pending == old(pending) - {sid}
    {
      DropChannel(id, sid);
      Take(Leave(id));
    }

    method DropChannel(id: Id, sid: string)
      requires Linked(desk) && Can(desk, Leave(id)) && desk.lookups[id].sid == sid
      modifies this`pending
      ensures pending == old(pending) - {sid} && Linked(Next(desk, Leave(id)))
    {
      pending := pending - {sid};
    }

    /** Client: takes one acknowledgement from its channel, in either select. */
    method Receive(ch: AckChannel, id: Id, ghost step: Step) returns (direct: string)
      requires Valid() && id in channels && channels[id] == ch
      requires (step == Step.Receive(id) || step == ReceiveLate(id)) && Can(desk, step)
      modifies this`steps, this`desk, ch
      ensures Valid() && steps == old(steps) + [step]
      ensures old(ch.buf) == [direct] + ch.buf
    {
      direct := ch.buf[0];
      ch.buf := ch.buf[1..];
      Take(step);
    }

    /** Agent: looks the channel up under the lock. */
    method Find(ack: Id, sid: string, direct: string) returns (ch: Option<AckChannel>)
      requires Valid() && Can(desk, Look(ack, sid, direct))
      modifies this`steps, this`desk
      ensures Valid() && steps == old(steps) + [Look(ack, sid, direct)]
      ensures ch == if sid in pending then Some(pending[sid]) else None
    {
      ch := if sid in pending then Some(pending[sid]) else None;
      Take(Look(ack, sid, direct));
    }

    /** Agent: the send that never blocks. */
    method TrySend(ch: AckChannel, ack: Id, direct: string) returns (sent: bool)
      requires Valid() && Can(desk, Send(ack)) && desk.acks[ack].direct == direct
      requires desk.acks[ack].lookup in channels && channels[desk.acks[ack].lookup] == ch
      modifies this`steps, this`desk, ch
      ensures Valid() && steps == old(steps) + [Send(ack)]
      ensures sent <==> |old(ch.buf)| < CAPACITY
      ensures ch.buf == if sent then old(ch.buf) + [direct] else old(ch.buf)
    {
      sent := |ch.buf| < 2;
      if sent {
        ch.buf := ch.buf + [direct];
      }
      Take(Send(ack));
    }
  }

  lemma Snoc(steps: seq<Step>, step: Step)
    requires Legal(steps) && Can(After(steps), step)
    ensures Legal(steps + [step]) && After(steps + [step]) == Next(After(steps), step)
  {
    assert (steps + [step])[..|steps|] == steps;
  }
}
