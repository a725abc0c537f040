/** The Manager object of ticket/ticket.go, proved against the values of module Tickets. */
module TicketManagers {
  import opened Clock
  import opened Options
  import opened Octets
  import Tickets

  class Manager {
    const crypto: Tickets.Crypto
    var key: Bytes                // priv; pub is crypto.pub(key)
    var prevPub: Option<Bytes>
    var prevUntil: Instant
    var rotated: Instant
    var used: map<string, int>

    function State(): Tickets.Mgr
      reads this
    {
      Tickets.Mgr(key, prevPub, prevUntil, rotated, used)
    }

    constructor (crypto: Tickets.Crypto, key: Bytes, now: Instant)
      ensures this.crypto == crypto && State() == Tickets.New(key, now)
    {
      this.crypto := crypto;
      this.key, rotated, used := key, now, map[];
      prevPub, prevUntil := None, ZERO_TIME;
    }

    method Issue(sid: string, role: string, ttl: Duration, now: Instant) returns (text: string)
      ensures text == Tickets.Issue(crypto, State(), sid, role, ttl, now)
    {
      var life := ttl;
      if life <= 0 || life > Tickets.MAX_ISSUE_TTL {
        life := Tickets.MAX_ISSUE_TTL;
      }
      var raw := crypto.marshal(Tickets.Ticket(sid, Unix(now + life), role));
      text := Encode(raw) + "." + Encode(crypto.sign(key, raw));
    }

    method Verify(text: string, now: Instant) returns (verdict: Tickets.Verdict)
      modifies this`used
      ensures verdict == Tickets.Judge(crypto, old(State()), text, now)
      ensures State() == Tickets.Verify(crypto, old(State()), text, now)
    {
      var parts := Tickets.FindDot(text);
      if parts.None? {
        return Tickets.Refused(Tickets.BadText);
      }
      var raw, sig := Decode(parts.value.0), Decode(parts.value.1);
      if raw.None? || sig.None? {
        return Tickets.Refused(Tickets.BadText);
      }
      if !crypto.verify(crypto.pub(key), raw.value, sig.value) {
        if prevPub.None? || !crypto.verify(prevPub.value, raw.value, sig.value) {
          return Tickets.Refused(Tickets.BadSignature);
        }
      }
      var t := crypto.unmarshal(raw.value);
      if t.None? {
        return Tickets.Refused(Tickets.BadPayload);
      }
      if Unix(now) > t.value.exp {
        return Tickets.Refused(Tickets.Expired);
      }
      if text in used {
        return Tickets.Refused(Tickets.Reused);
      }
      used := used[text := t.value.exp];
      return Tickets.Accepted(t.value);
    }

    /** Sweep; `next` is the private key that GenerateKey makes, if it succeeds. */
    method Sweep(now: Instant, next: Option<Bytes>)
      modifies this
      ensures State() == Tickets.Sweep(crypto, old(State()), now, next)
    {
      MaybeRotate(now, next);
      if prevPub.Some? && now >= prevUntil {
        prevPub, prevUntil := None, ZERO_TIME;
      }
      Prune(now);
    }

    method MaybeRotate(now: Instant, next: Option<Bytes>)
      modifies this
      ensures State() == Tickets.Rotate(crypto, old(State()), now, next)
    {
      if now - rotated < HOUR || next.None? {
        return;
      }
      prevPub := Some(crypto.pub(key));
      prevUntil := now + Tickets.MAX_ISSUE_TTL + SECOND;
      key := next.value;
      rotated := now;
    }

    /** Sweep's loop over the used texts, in arbitrary order. */
    method Prune(now: Instant)
      modifies this`used
      ensures used == Tickets.Unexpired(old(used), now, {})
    {
      ghost var was := used;
      var todo := used.Keys;
      while todo != {}
        invariant todo <= was.Keys && used == Tickets.Unexpired(was, now, todo)
        decreases todo
      {
        var text :| text in todo;
        if Unix(now) > used[text] {
          used := used - {text};
        }
        todo := todo - {text};
      }
    }
  }
}
