/** The Hub object of relay/relay.go: the three places where Arrive touches shared state, and
    the copy loop of one pump direction. */
module Relays {
  import opened Octets
  import opened Hubs

  /** A waiting slot; `closed` is the state of its `paired` channel. */
  class WaitSlot {
    const call: Call
    const role: string
    var closed: bool

    constructor (call: Call, role: string)
      ensures this.call == call && this.role == role && !closed
    {
      this.call, this.role := call, role;
      closed := false;
    }
  }

  datatype Joined = BadRole | Duplicate | Paired(peer: WaitSlot) | Parked(slot: WaitSlot)

  class HubObject {
    var waiting: map<string, WaitSlot>

    ghost var steps: seq<Step>            // the run this object has been through
    ghost var hub: Hub                    // where that run has led
    ghost var slots: map<Call, WaitSlot>  // every slot ever made

    ghost predicate Valid()
      reads this, slots.Values
    {
      Legal(steps) && hub == After(steps) && Linked(hub)
    }

    /** The object agrees with the state `h`. */
    ghost predicate Linked(h: Hub)
      reads this, slots.Values
    {
      && waiting.Keys == h.waiting.Keys
      && (forall sid | sid in waiting :: h.waiting[sid] in slots && slots[h.waiting[sid]] == waiting[sid])
      && (forall c | c in slots ::
            && c in h.calls && slots[c].call == c && slots[c].role == h.calls[c].role
            && slots[c].closed == (Closes(h, c) > 0))
    }

    /** Records a step that has just been taken. */
    ghost method Take(step: Step)
      requires Legal(steps) && hub == After(steps) && Can(hub, step) && Linked(Next(hub, step))
      modifies this`steps, this`hub
      ensures Valid() && hub == Next(old(hub), step) && steps == old(steps) + [step]
    {
      Snoc(steps, step);
      steps, hub := steps + [step], Next(hub, step);
    }

    constructor ()
      ensures Valid() && steps == []
    {
      waiting, hub, slots, steps := map[], EMPTY, map[], [];
    }

    /** Arrive up to its first unlock. */
    method Join(sid: string, role: string, call: Call) returns (r: Joined)
      requires Valid() && call !in hub.calls
      modifies this
      ensures Valid() && steps == old(steps) + [Enter(call, sid, role)]
      ensures match r
              case BadRole => !GoodRole(role)
              case Duplicate => sid in old(waiting) && old(waiting)[sid].role == role
              case Paired(peer) => sid in old(waiting) && peer == old(waiting)[sid] && !peer.closed && sid !in waiting
              case Parked(slot) => sid !in old(waiting) && sid in waiting && waiting[sid] == slot && slot.call == call
    {
      if role != "agent" && role != "client" {
        Take(Enter(call, sid, role));
        return BadRole;
      }
      if sid in waiting {
        var existing := waiting[sid];
        WaitersAreUnpaired(steps, sid);
        if existing.role == role {
          Take(Enter(call, sid, role));
          return Duplicate;
        }
        TakeOver(sid, role, call);
        return Paired(existing);
      }
      var s := Park(sid, role, call);
      return Parked(s);
    }

    /** The branch that finds a peer: its slot leaves the table before it is signalled. */
    method TakeOver(sid: string, role: string, call: Call)
      requires Valid() && call !in hub.calls && GoodRole(role) && sid in waiting
      requires hub.waiting[sid] in hub.calls && hub.calls[hub.waiting[sid]].role != role
      modifies this`steps, this`hub, this`waiting
      ensures Valid() && steps == old(steps) + [Enter(call, sid, role)]
      ensures waiting == old(waiting) - {sid}
    {
      DeleteFor(sid, Enter(call, sid, role));
      Take(Enter(call, sid, role));
    }

    /** The branch that finds nobody. */
    method Park(sid: string, role: string, call: Call) returns (s: WaitSlot)
      requires Valid() && call !in hub.calls && GoodRole(role) && sid !in waiting
      modifies this
      ensures Valid() && steps == old(steps) + [Enter(call, sid, role)]
      ensures waiting == old(waiting)[sid := s] && s.call == call
    {
      NewcomersAreUnpaired(steps, call);
      s := Seat(sid, role, call);
      Take(Enter(call, sid, role));
    }

    /** Takes an entry out of the table, as the step about to be recorded does. */
    method DeleteFor(sid: string, ghost step: Step)
      requires Linked(hub) && Can(hub, step) && Unlists(hub, step, sid)
      modifies this`waiting
      ensures Linked(Next(hub, step)) && waiting == old(waiting) - {sid}
    {
      waiting := waiting - {sid};
    }

    /** Puts a new slot into the table. */
    method Seat(sid: string, role: string, call: Call) returns (s: WaitSlot)
      requires Linked(hub) && call !in hub.calls && Closes(hub, call) == 0 && GoodRole(role) && sid !in waiting
      modifies this`waiting, this`slots
      ensures Linked(Next(hub, Enter(call, sid, role))) && waiting == old(waiting)[sid := s] && s.call == call
    {
      s := new WaitSlot(call, role);
      waiting, slots := waiting[sid := s], slots[call := s];
    }

    /** close(existing.paired): closing a closed channel would panic. */
    method ClosePaired(call: Call, peer: WaitSlot)
      requires Valid() && Can(hub, Signal(call))
      requires hub.calls[call].phase.waiter in slots && peer == slots[hub.calls[call].phase.waiter]
      modifies this`steps, this`hub, peer
      ensures !old(peer.closed) && peer.closed
      ensures Valid() && steps == old(steps) + [Signal(call)]
    {
      ChannelsCloseOnce(steps, call);
      peer.closed := true;
      Take(Signal(call));
    }

    /** The timer branch's lock section: it deletes the entry only if it is its own. */
    method ExpireSlot(sid: string, s: WaitSlot, call: Call)
      requires Valid() && Can(hub, Expire(call)) && hub.calls[call].sid == sid
      requires call in slots && slots[call] == s
      modifies this`steps, this`hub, this`waiting
      ensures Valid() && steps == old(steps) + [Expire(call)]
      ensures waiting == if sid in old(waiting) && old(waiting)[sid] == s then old(waiting) - {sid} else old(waiting)
    {
      if sid in waiting && waiting[sid] == s {
        DeleteFor(sid, Expire(call));
      }
      Take(Expire(call));
    }
  }

  /** The step takes `sid` out of the table and closes no channel. */
  ghost predicate Unlists(h: Hub, step: Step, sid: string)
    requires Can(h, step)
  {
    var n := Next(h, step);
    && n.waiting == h.waiting - {sid} && n.closes == h.closes
    && forall d | d in h.calls :: d in n.calls && n.calls[d].role == h.calls[d].role
  }

  lemma NewcomersAreUnpaired(steps: seq<Step>, c: Call)
    requires Legal(steps) && c !in After(steps).calls
    ensures Closes(After(steps), c) == 0
  {
    RunKeepsInv(steps);
  }

  lemma WaitersAreUnpaired(steps: seq<Step>, sid: string)
    requires Legal(steps) && sid in After(steps).waiting
    ensures After(steps).waiting[sid] in After(steps).calls && Closes(After(steps), After(steps).waiting[sid]) == 0
  {
    RunKeepsInv(steps);
  }

  // ---------------------------------------------------------------- the pump

  datatype Frame = Frame(kind: nat, data: Bytes)

  const MAX_RELAY_MESSAGE: nat := 1_048_576

  function Total(frames: seq<Frame>): nat {
    if frames == [] then 0 else Total(frames[..|frames| - 1]) + |frames[|frames| - 1].data|
  }

  /** Whether the pump forwards frame k, having forwarded all before it: it fits a message,
      the direction stays within its byte cap, and the write succeeds. */
  predicate Passes(frames: seq<Frame>, maxBytes: int, writes: nat -> bool, k: nat)
    requires k < |frames|
  {
    && |frames[k].data| <= MAX_RELAY_MESSAGE
    && (maxBytes > 0 ==> Total(frames[..k + 1]) <= maxBytes)
    && writes(k)
  }

  /** What is metered of the frame that ends the pump, if there is one: it counts if it fits a
      message. */
  function Refused(frames: seq<Frame>, k: nat): nat {
    if k < |frames| && |frames[k].data| <= MAX_RELAY_MESSAGE then |frames[k].data| else 0
  }

  /** One direction of a pair: `frames` is what the source will deliver before its connection
      fails, beginning with what was queued before pairing; `writes(k)` tells whether the
      k-th write succeeds. */
  method Pump(frames: seq<Frame>, maxBytes: int, writes: nat -> bool) returns (sent: seq<Frame>, metered: nat)
    ensures |sent| <= |frames| && sent == frames[..|sent|]
    ensures forall k | 0 <= k < |sent| :: Passes(frames, maxBytes, writes, k)
    ensures |sent| < |frames| ==> !Passes(frames, maxBytes, writes, |sent|)
    ensures metered == Total(sent) + Refused(frames, |sent|)
  {
    sent, metered := [], 0;
    var n := 0;
    for i := 0 to |frames|
      invariant sent == frames[..i] && n == metered == Total(sent)
      invariant forall k | 0 <= k < i :: Passes(frames, maxBytes, writes, k)
    {
      var data := frames[i].data;
      assert frames[..i + 1][..i] == frames[..i];
      if |data| > MAX_RELAY_MESSAGE {
        return;
      }
      n := n + |data|;
      metered := metered + |data|;
      if maxBytes > 0 && n > maxBytes {
        return;
      }
      if !writes(i) {
        return;
      }
      sent := sent + [frames[i]];
    }
  }

  /** Main result about any outcome the pump allows: forwarded bytes stay within the cap, what
      is metered exceeds what is forwarded by one message at most, and so the int64 counter
      cannot overflow under any cap up to 2^63 - 1 - 2^20. */
  lemma PumpStaysWithinCap(frames: seq<Frame>, maxBytes: int, writes: nat -> bool, sent: seq<Frame>, metered: nat)
    requires |sent| <= |frames| && sent == frames[..|sent|]
    requires forall k | 0 <= k < |sent| :: Passes(frames, maxBytes, writes, k)
    requires metered == Total(sent) + Refused(frames, |sent|)
    ensures maxBytes > 0 ==> Total(sent) <= maxBytes
    ensures Total(sent) <= metered <= Total(sent) + MAX_RELAY_MESSAGE
    ensures 0 < maxBytes <= 0x7FFF_FFFF_FFFF_FFFF - MAX_RELAY_MESSAGE ==> metered <= 0x7FFF_FFFF_FFFF_FFFF
  {
    if sent != [] {
      assert Passes(frames, maxBytes, writes, |sent| - 1);
    }
  }

  lemma {:induction false} TotalGrows(frames: seq<Frame>, k: nat)
    requires k <= |frames|
    ensures Total(frames[..k]) <= Total(frames)
  {
    if k < |frames| {
      var n := |frames| - 1;
      assert frames[..n][..k] == frames[..k];
      TotalGrows(frames[..n], k);
    } else {
      assert frames[..k] == frames;
    }
  }

  /** And the pump does not stop early: if no frame exceeds 1 MiB, all of them together stay
      within the cap, or there is none, and every write succeeds, then all go through. */
  lemma {:induction false} EverythingGoesThrough(frames: seq<Frame>, maxBytes: int, writes: nat -> bool,
      sent: seq<Frame>)
    requires |sent| <= |frames| && (|sent| < |frames| ==> !Passes(frames, maxBytes, writes, |sent|))
    requires forall k | 0 <= k < |frames| :: |frames[k].data| <= 1024 * 1024 && writes(k)
    requires maxBytes <= 0 || Total(frames) <= maxBytes
    ensures |sent| == |frames|
  {
    if |sent| < |frames| {
      TotalGrows(frames, |sent| + 1);
    }
  }
}
