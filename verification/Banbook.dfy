/** The Banbook object of ratelimit/guard.go, proved against the values of module Bans. */
module Banbooks {
  import opened Clock
  import opened Options
  import opened Bans
  import opened Addresses

  class BanEntry {
    var strikes: nat
    var softStrikes: nat
    var until: Instant
    var lastStrike: Instant
    var rejected: nat
    var lastSeen: Instant

    constructor ()
      ensures Value() == NEW_ENTRY
    {
      strikes, softStrikes, rejected := 0, 0, 0;
      until, lastStrike, lastSeen := ZERO_TIME, ZERO_TIME, ZERO_TIME;
    }

    function Value(): Entry
      reads this
    {
      Entry(strikes, softStrikes, until, lastStrike, rejected, lastSeen)
    }
  }

  class Banbook {
    const net: Net
    const policy: Policy
    var entries: map<string, BanEntry>
    var strikesTotal: int
    var bansActive: int
    var rejectedBanned: int
    var evictions: int

    ghost var book: Book                    // the value this object stands for
    ghost var owner: map<BanEntry, string>  // no two keys share an entry

    ghost predicate Valid()
      reads this, owner.Keys
    {
      && CountersAgree()
      && book.entries.Keys == entries.Keys && Holds(entries.Keys)
      && "" !in entries
    }

    ghost predicate CountersAgree()
      reads this
    {
      && book.strikesTotal == strikesTotal && book.bansActive == bansActive
      && book.rejectedBanned == rejectedBanned && book.evictions == evictions
    }

    ghost predicate Holds(keys: set<string>)
      reads this, owner.Keys
    {
      forall key | key in keys ::
        && key in entries && key in book.entries
        && entries[key] in owner && owner[entries[key]] == key
        && entries[key].Value() == book.entries[key]
    }

    /** Moves the value on by the change of one entry; the counters are already in step. */
    ghost method Commit(next: Book, key: string, value: Entry)
      requires next.entries == book.entries[key := value]
      requires key != "" && key in entries
      requires book.entries.Keys + {key} == entries.Keys && Holds(entries.Keys - {key}) && "" !in entries
      requires entries[key] in owner && owner[entries[key]] == key && entries[key].Value() == value
      requires next.strikesTotal == strikesTotal && next.bansActive == bansActive
      requires next.rejectedBanned == rejectedBanned && next.evictions == evictions
      modifies this`book
      ensures Valid() && book == next
    {
      book := next;
    }

    /** Moves the value on by the loss of one entry. */
    ghost method Lose(next: Book, key: string)
      requires next.entries == book.entries - {key} && book.entries.Keys - {key} == entries.Keys
      requires Holds(entries.Keys) && "" !in entries
      requires next.strikesTotal == strikesTotal && next.bansActive == bansActive
      requires next.rejectedBanned == rejectedBanned && next.evictions == evictions
      modifies this`book
      ensures Valid() && book == next
    {
      book := next;
    }

    constructor (net: Net)
      ensures Valid() && book == EMPTY && owner == map[]
      ensures this.net == net && policy == DEFAULT_POLICY
    {
      this.net := net;
      policy := DEFAULT_POLICY;
      entries, owner, book := map[], map[], EMPTY;
      strikesTotal, bansActive, rejectedBanned, evictions := 0, 0, 0, 0;
    }

    method Blocked(address: string, now: Instant) returns (banned: bool, until: Instant)
      requires Valid()
      modifies this`book, owner.Keys
      ensures Valid()
      ensures address == "" ==> !banned && book == old(book)
      ensures address != "" ==>
                var key := BanKey(net, address);
                && book == Look(old(book), key, now)
                && BanOf(old(book), key, now) == if banned then Some(until) else None
    {
      if address == "" {
        return false, ZERO_TIME;
      }
      var key := ComputeBanKey(net, address);
      if key !in entries {
        return false, ZERO_TIME;
      }
      var e := entries[key];
      e.lastSeen := now;
      Commit(Look(book, key, now), key, e.Value());
      if e.until > now {
        return true, e.until;
      }
      return false, ZERO_TIME;
    }

    method NoteRejected(address: string, now: Instant)
      requires Valid()
      modifies this`book, this`rejectedBanned, owner.Keys
      ensures Valid()
      ensures book == if address == "" then old(book) else Reject(old(book), BanKey(net, address), now)
    {
      if address == "" {
        return;
      }
      var key := ComputeBanKey(net, address);
      rejectedBanned := rejectedBanned + 1;
      if key in entries && entries[key].until > now {
        var e := entries[key];
        e.lastSeen := now;
        e.rejected := e.rejected + 1;
        Commit(Reject(book, key, now), key, e.Value());
      } else {
        book := Reject(book, key, now);
      }
    }

    /** The two calls every ban check makes on a canonical key. */
    method Check(key: string, now: Instant) returns (banned: bool, until: Instant)
      requires Valid() && BanKey(net, key) == key
      modifies this`book, this`rejectedBanned, owner.Keys
      ensures Valid() && book == Checked(old(book), key, now)
      ensures if key == "" then !banned else BanOf(old(book), key, now) == if banned then Some(until) else None
    {
      banned, until := Blocked(key, now);
      if banned {
        NoteRejected(key, now);
      }
    }

    /** SoftStrike and Strike, told apart by `soft`. */
    method StrikeKey(address: string, soft: bool, now: Instant) returns (dur: nat, ghost victim: Option<string>)
      requires Valid() && Bounded(policy, book)
      modifies this, owner.Keys
      ensures Valid() && fresh(owner.Keys - old(owner.Keys))
      ensures address == "" ==> dur == 0 && book == old(book)
      ensures address != "" ==>
                var key := BanKey(net, address); var op := Op.Strike(key, soft, now, victim);
                && Possible(policy, old(book), op)
                && book == Apply(policy, old(book), op)
                && dur == Sentence(policy, Evict(old(book), victim, now), key, soft, now)
    {
      victim := None;
      if address == "" {
        return 0, None;
      }
      var key := ComputeBanKey(net, address);
      if key in entries {
        dur := StrikeStored(key, soft, now);
      } else {
        victim := EnsureCapacity(now);
        dur := StrikeNew(key, soft, now);
      }
    }

    /** The rest of strike for a key without an entry. */
    method StrikeNew(key: string, soft: bool, now: Instant) returns (dur: nat)
      requires Valid() && key != "" && key !in entries
      modifies this
      ensures Valid() && fresh(owner.Keys - old(owner.Keys)) && old(owner.Keys) <= owner.Keys
      ensures dur == Sentence(policy, old(book), key, soft, now)
      ensures book == Punish(policy, old(book), key, soft, now)
    {
      var e := new BanEntry();
      dur := StrikeEntry(e, soft, now);
      Insert(key, e, soft, now);
    }

    /** Puts a struck entry into the table, and counts it. */
    method Insert(key: string, e: BanEntry, soft: bool, now: Instant)
      requires Valid() && key != "" && key !in entries && e !in owner
      requires e.Value() == Struck(policy, NEW_ENTRY, soft, now)
      modifies this`entries, this`owner, this`strikesTotal, this`bansActive, this`book
      ensures Valid() && owner == old(owner)[e := key]
      ensures book == Punish(policy, old(book), key, soft, now)
    {
      entries, owner := entries[key := e], owner[e := key];
      strikesTotal := strikesTotal + 1;
      bansActive := bansActive + 1;
      Commit(Punish(policy, book, key, soft, now), key, e.Value());
    }

    /** The rest of strike for a stored entry. */
    method StrikeStored(key: string, soft: bool, now: Instant) returns (dur: nat)
      requires Valid() && key in entries
      modifies this`book, this`strikesTotal, this`bansActive, owner.Keys
      ensures Valid()
      ensures dur == Sentence(policy, old(book), key, soft, now)
      ensures book == Punish(policy, old(book), key, soft, now)
    {
      var e := entries[key];
      assert e.Value() == book.entries[key];
      var wasBanned := e.until > now;
      dur := StrikeEntry(e, soft, now);
      strikesTotal := strikesTotal + 1;
      if !wasBanned {
        bansActive := bansActive + 1;
      }
      Commit(Punish(policy, book, key, soft, now), key, e.Value());
    }

    /** The decay reset, and the part of strikeLocked that picks the rung and writes the entry. */
    method StrikeEntry(e: BanEntry, soft: bool, now: Instant) returns (dur: nat)
      modifies e
      ensures dur == Term(policy, old(e.Value()), soft, now)
      ensures e.Value() == Struck(policy, old(e.Value()), soft, now)
    {
      if (e.strikes > 0 || e.softStrikes > 0) && now - e.lastStrike > policy.strikeDecay {
        e.strikes := 0;
        e.softStrikes := 0;
        e.rejected := 0;
      }
      e.lastStrike := now;
      e.lastSeen := now;
      e.rejected := 0;
      var ladder: seq<nat>;
      var idx: nat;
      if soft {
        e.softStrikes := e.softStrikes + 1;
        ladder := policy.softLadder;
        idx := e.softStrikes - 1;
      } else {
        e.strikes := e.strikes + 1;
        ladder := policy.ladder;
        idx := e.strikes - 1;
      }
      if |ladder| == 0 {
        ladder := SOFT_LADDER;
      }
      if idx >= |ladder| {
        idx := |ladder| - 1;
      }
      dur := ladder[idx];
      e.until := now + dur;
    }

    /** ensureCapacityLocked. The table holds at most maxKeys entries, so the first pass
        returns after its first deletion. */
    method EnsureCapacity(now: Instant) returns (ghost victim: Option<string>)
      requires Valid() && Bounded(policy, book)
      modifies this`entries, this`book, this`bansActive, this`evictions
      ensures Valid() && entries.Keys <= old(entries.Keys)
      ensures book == Evict(old(book), victim, now)
      ensures victim.Some? <==> Full(policy, old(book))
      ensures victim.Some? ==> MayEvict(policy, old(book), now, victim.value)
    {
      SameSize(entries, book.entries);
      if policy.maxKeys <= 0 || |entries| < policy.maxKeys {
        return None;
      }
      var key := FirstIdle(now);
      if key == "" {
        key := Cheapest(now);
      }
      Discard(key, now);
      return Some(key);
    }

    /** The end of either pass: the gauge forgets a ban that still ran. */
    method Discard(key: string, now: Instant)
      requires Valid() && key in entries
      modifies this`entries, this`book, this`bansActive, this`evictions
      ensures Valid() && entries.Keys == old(entries.Keys) - {key}
      ensures book == Evict(old(book), Some(key), now)
    {
      assert entries[key].Value() == book.entries[key];
      if entries[key].until > now {
        bansActive := bansActive - 1;
      }
      evictions := evictions + 1;
      entries := entries - {key};
      Lose(Evict(book, Some(key), now), key);
    }

    static lemma SameSize<A, B>(m: map<string, A>, n: map<string, B>)
      requires m.Keys == n.Keys
      ensures |m| == |n|
    {
      assert |m| == |m.Keys| && |n| == |n.Keys|;
    }

    /** The first pass, in arbitrary order: an entry that is neither banned nor recent. */
    method FirstIdle(now: Instant) returns (victim: string)
      requires Valid()
      ensures victim != "" ==> victim in entries && Idle(policy, book.entries[victim], now)
      ensures victim == "" ==> forall k | k in book.entries :: !Idle(policy, book.entries[k], now)
    {
      victim := "";
      var todo := entries.Keys;
      while todo != {}
        invariant todo <= entries.Keys
        invariant forall k | k in book.entries.Keys - todo :: !Idle(policy, book.entries[k], now)
        decreases todo
      {
        var key :| key in todo;
        todo := todo - {key};
        var e := entries[key];
        assert e.Value() == book.entries[key];
        if e.until > now {
          continue;
        }
        if now - e.lastStrike > policy.strikeDecay && now - e.lastSeen > policy.strikeDecay {
          return key;
        }
      }
    }

    /** The second pass: a key whose ban ends first, an unbanned key counting as its last sighting. */
    method Cheapest(now: Instant) returns (victim: string)
      requires Valid() && entries != map[]
      ensures victim in entries
      ensures forall k | k in book.entries :: Rank(book.entries[victim], now) <= Rank(book.entries[k], now)
    {
      var first, best := true, ZERO_TIME;
      victim := "";
      var todo := entries.Keys;
      while todo != {}
        invariant todo <= entries.Keys
        invariant first <==> todo == entries.Keys
        invariant !first ==> victim in entries && best == Rank(book.entries[victim], now)
        invariant !first ==> forall k | k in book.entries.Keys - todo :: best <= Rank(book.entries[k], now)
        decreases todo
      {
        var key :| key in todo;
        todo := todo - {key};
        assert entries[key].Value() == book.entries[key];
        var cand := entries[key].until;
        if cand <= now {
          cand := entries[key].lastSeen;
        }
        if first || cand < best {
          first, best, victim := false, cand, key;
        }
      }
    }

    method Sweep(now: Instant)
      requires Valid()
      modifies this`entries, this`book, this`bansActive
      ensures Valid()
      ensures book == Tidied(policy, old(book), now)
    {
      var active := SweepEntries(now);
      bansActive, book := active, book.(bansActive := active);
    }

    /** Sweep's loop, in arbitrary order. */
    method SweepEntries(now: Instant) returns (active: nat)
      requires Valid()
      modifies this`entries, this`book
      ensures Valid() && active == |Live(old(book), now)|
      ensures book == old(book).(entries := Kept(policy, old(book).entries, now, {}))
    {
      ghost var b := book;
      active := 0;
      var todo := entries.Keys;
      CountAll(policy, b, now);
      while todo != {}
        invariant Valid() && todo <= b.entries.Keys
        invariant book == b.(entries := Kept(policy, b.entries, now, todo))
        invariant active == Counted(b, now, todo)
        decreases todo
      {
        var key :| key in todo;
        KeepOne(policy, b, now, todo, key);
        var live := SweepKey(key, now);
        active := active + if live then 1 else 0;
        todo := todo - {key};
      }
    }

    /** The body of Sweep's loop: reports a running ban, drops an idle entry. */
    method SweepKey(key: string, now: Instant) returns (live: bool)
      requires Valid() && key in entries
      modifies this`entries, this`book
      ensures Valid() && live == (old(book).entries[key].until > now)
      ensures book == if Idle(policy, old(book).entries[key], now)
                      then old(book).(entries := old(book).entries - {key}) else old(book)
    {
      var e := entries[key];
      assert e.Value() == book.entries[key];
      if e.until > now {
        return true;
      }
      if now - e.lastStrike > policy.strikeDecay && now - e.lastSeen > policy.strikeDecay {
        entries := entries - {key};
        Lose(book.(entries := book.entries - {key}), key);
      }
      return false;
    }
  }
}
