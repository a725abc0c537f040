/** The per-key sliding window (ratelimit/window.go). */
module Windows {
  import opened Clock

  type Hits = map<string, seq<Instant>>

  /** The timestamps strictly after `cut`, in order. */
  function Recent(times: seq<Instant>, cut: int): (kept: seq<Instant>)
    ensures |kept| <= |times|
  {
    if times == [] then [] else
      var n := |times| - 1;
      var kept := Recent(times[..n], cut);
      if times[n] > cut then kept + [times[n]] else kept
  }

  function HitsOf(h: Hits, key: string): seq<Instant> {
    if key in h then h[key] else []
  }

  /** One call of Allow: the new table and the verdict. */
  function Record(h: Hits, limit: int, window: Duration, key: string, now: Instant): (Hits, bool) {
    if limit <= 0 then (h, true) else
      var kept := Recent(HitsOf(h, key), now - window);
      if |kept| >= limit then (h[key := kept], false) else (h[key := kept + [now]], true)
  }

  /** The table once all keys but `todo` have been filtered, and dropped if nothing is left. */
  function Filtered(h: Hits, cut: int, todo: set<string>): Hits {
    map key | key in h && (key in todo || Recent(h[key], cut) != []) ::
      if key in todo then h[key] else Recent(h[key], cut)
  }

  /** One call of Sweep. */
  function Purge(h: Hits, window: Duration, now: Instant): Hits {
    Filtered(h, now - window, {})
  }

  lemma FilterOne(h: Hits, cut: int, todo: set<string>, key: string)
    requires key in h && key in todo
    ensures var f := Filtered(h, cut, todo);
            && key in f && f[key] == h[key]
            && Filtered(h, cut, todo - {key}) ==
               if Recent(h[key], cut) == [] then f - {key} else f[key := Recent(h[key], cut)]
  {}

  // ---------------------------------------------------------------- runs

  datatype Op = Hit(key: string, at: Instant) | Tidy(at: Instant)

  /** The clock never goes back over the run, up to a reading of `now`. */
  ghost predicate Ordered(ops: seq<Op>, now: Instant) {
    ops == [] || (var n := |ops| - 1; ops[n].at <= now && Ordered(ops[..n], ops[n].at))
  }

  function Apply(h: Hits, limit: int, window: Duration, op: Op): Hits {
    match op
    case Hit(key, at) => Record(h, limit, window, key, at).0
    case Tidy(at) => Purge(h, window, at)
  }

  function Run(limit: int, window: Duration, ops: seq<Op>): Hits {
    if ops == [] then map[] else
      Apply(Run(limit, window, ops[..|ops| - 1]), limit, window, ops[|ops| - 1])
  }

  /** How many timestamps lie in the half-open interval (lo, hi]. */
  function CountIn(times: seq<Instant>, lo: int, hi: int): (n: nat)
    ensures n <= |times|
  {
    if times == [] then 0 else
      var n := |times| - 1;
      CountIn(times[..n], lo, hi) + if lo < times[n] <= hi then 1 else 0
  }

  /** The history specification: which hits of `key` a limiter without any table accepts.
      It looks at nothing but the earlier accepted hits of the same key. */
  function Accepted(limit: int, window: Duration, ops: seq<Op>, key: string): seq<Instant> {
    if ops == [] then [] else
      Accept(Accepted(limit, window, ops[..|ops| - 1], key), limit, window, ops[|ops| - 1], key)
  }

  function Accept(before: seq<Instant>, limit: int, window: Duration, op: Op, key: string): seq<Instant> {
    if op.Hit? && op.key == key && CountIn(before, op.at - window, op.at) < limit then before + [op.at] else before
  }

  /** The verdict on a hit at `now` after a run. */
  predicate Granted(limit: int, window: Duration, ops: seq<Op>, key: string, now: Instant) {
    Record(Run(limit, window, ops), limit, window, key, now).1
  }

  /** How many hits of `key` were accepted in the window (now - window, now]. */
  function Spent(limit: int, window: Duration, ops: seq<Op>, key: string, now: Instant): nat {
    CountIn(Accepted(limit, window, ops, key), now - window, now)
  }

  function OnlyKey(ops: seq<Op>, key: string): seq<Op> {
    if ops == [] then [] else
      var n := |ops| - 1;
      var before := OnlyKey(ops[..n], key);
      if ops[n].Hit? && ops[n].key == key then before + [ops[n]] else before
  }

  lemma SnocOnlyKey(ops: seq<Op>, op: Op, key: string)
    ensures OnlyKey(ops + [op], key) == if op.Hit? && op.key == key then OnlyKey(ops, key) + [op] else OnlyKey(ops, key)
  {
    assert (ops + [op])[..|ops|] == ops;
  }

  lemma SnocRun(limit: int, window: Duration, ops: seq<Op>, op: Op)
    ensures Run(limit, window, ops + [op]) == Apply(Run(limit, window, ops), limit, window, op)
  {
    assert (ops + [op])[..|ops|] == ops;
  }

  lemma SnocOrdered(ops: seq<Op>, op: Op)
    requires Ordered(ops, op.at)
    ensures Ordered(ops + [op], op.at)
  {
    assert (ops + [op])[..|ops|] == ops;
  }

  lemma SpentAfterHit(limit: int, window: Duration, ops: seq<Op>, key: string, at: Instant)
    requires window > 0
    ensures var n := Spent(limit, window, ops, key, at);
            Spent(limit, window, ops + [Hit(key, at)], key, at) == n + if n < limit then 1 else 0
  {
    assert (ops + [Hit(key, at)])[..|ops|] == ops;
    SnocCount(Accepted(limit, window, ops, key), at, at - window, at);
  }

  lemma {:induction false} RecentMembers(times: seq<Instant>, cut: int, t: Instant)
    ensures t in Recent(times, cut) <==> t in times && t > cut
  {
    if times != [] {
      var n := |times| - 1;
      assert times == times[..n] + [times[n]];
      RecentMembers(times[..n], cut, t);
    }
  }

  lemma SnocRecent(times: seq<Instant>, t: Instant, cut: int)
    ensures Recent(times + [t], cut) == if t > cut then Recent(times, cut) + [t] else Recent(times, cut)
  {
    assert (times + [t])[..|times|] == times;
  }

  lemma SnocCount(times: seq<Instant>, t: Instant, lo: int, hi: int)
    ensures CountIn(times + [t], lo, hi) == CountIn(times, lo, hi) + if lo < t <= hi then 1 else 0
  {
    assert (times + [t])[..|times|] == times;
  }

  lemma {:induction false} RecentOfRecent(times: seq<Instant>, early: int, late: int)
    requires early <= late
    ensures Recent(Recent(times, early), late) == Recent(times, late)
  {
    if times != [] {
      var n := |times| - 1;
      RecentOfRecent(times[..n], early, late);
      SnocRecent(Recent(times[..n], early), times[n], late);
    }
  }

  lemma {:induction false} RecentCounts(times: seq<Instant>, cut: int, now: Instant)
    requires forall t :: t in times ==> t <= now
    ensures |Recent(times, cut)| == CountIn(times, cut, now)
  {
    if times != [] {
      var n := |times| - 1;
      assert times[n] in times && forall t :: t in times[..n] ==> t in times;
      RecentCounts(times[..n], cut, now);
    }
  }

  lemma {:induction false} AcceptedAreHits(limit: int, window: Duration, ops: seq<Op>, key: string, now: Instant)
    requires Ordered(ops, now)
    ensures forall t :: t in Accepted(limit, window, ops, key) ==> t <= now
  {
    if ops != [] {
      AcceptedAreHits(limit, window, ops[..|ops| - 1], key, ops[|ops| - 1].at);
    }
  }

  /** One key's timestamps after one operation. */
  lemma HitsAfter(h: Hits, limit: int, window: Duration, op: Op, key: string)
    requires limit > 0
    ensures var kept := Recent(HitsOf(h, key), op.at - window);
            HitsOf(Apply(h, limit, window, op), key) ==
            if op.Hit? && op.key != key then HitsOf(h, key)
            else if op.Hit? && |kept| < limit then kept + [op.at]
            else kept
  {}

  lemma SameCount(times: seq<Instant>, a: seq<Instant>, window: Duration, at: Instant)
    requires (forall t :: t in a ==> t <= at) && Recent(times, at - window) == Recent(a, at - window)
    ensures |Recent(times, at - window)| == CountIn(a, at - window, at)
  {
    RecentCounts(a, at - window, at);
  }

  lemma SameRecent(times: seq<Instant>, a: seq<Instant>, window: Duration, at: Instant, cut: int)
    requires at - window <= cut && Recent(times, cut) == Recent(a, cut)
    ensures var kept := Recent(times, at - window);
            && Recent(kept, cut) == Recent(a, cut)
            && Recent(kept + [at], cut) == Recent(a + [at], cut)
  {
    RecentOfRecent(times, at - window, cut);
    SnocRecent(Recent(times, at - window), at, cut);
    SnocRecent(a, at, cut);
  }

  /** One key's timestamps before and after an operation at `at` that concerns them. */
  lemma TimesTrack(times: seq<Instant>, times': seq<Instant>, a: seq<Instant>, a': seq<Instant>,
                   window: Duration, at: Instant, cut: int, hit: bool)
    requires at - window <= cut && Recent(times, cut) == Recent(a, cut)
    requires times' == if hit then Recent(times, at - window) + [at] else Recent(times, at - window)
    requires a' == if hit then a + [at] else a
    ensures Recent(times', cut) == Recent(a', cut)
  {
    SameRecent(times, a, window, at, cut);
  }

  lemma StepTracksHistory(h: Hits, a: seq<Instant>, limit: int, window: Duration, op: Op, key: string, cut: int)
    requires limit > 0 && op.at - window <= cut
    requires forall t :: t in a ==> t <= op.at
    requires Recent(HitsOf(h, key), op.at - window) == Recent(a, op.at - window)
    requires Recent(HitsOf(h, key), cut) == Recent(a, cut)
    ensures Recent(HitsOf(Apply(h, limit, window, op), key), cut) == Recent(Accept(a, limit, window, op, key), cut)
  {
    HitsAfter(h, limit, window, op, key);
    SameCount(HitsOf(h, key), a, window, op.at);
    if op.Tidy? || op.key == key {
      var hit := op.Hit? && CountIn(a, op.at - window, op.at) < limit;
      TimesTrack(HitsOf(h, key), HitsOf(Apply(h, limit, window, op), key), a, Accept(a, limit, window, op, key),
                 window, op.at, cut, hit);
    }
  }

  /** From `cut` on, the table and the history hold the same hits. */
  ghost predicate Tracks(limit: int, window: Duration, ops: seq<Op>, key: string, cut: int) {
    Recent(HitsOf(Run(limit, window, ops), key), cut) == Recent(Accepted(limit, window, ops, key), cut)
  }

  lemma LastTracks(limit: int, window: Duration, ops: seq<Op>, key: string, cut: int)
    requires limit > 0 && ops != []
    requires var n := |ops| - 1;
             && Ordered(ops[..n], ops[n].at) && ops[n].at - window <= cut
             && Tracks(limit, window, ops[..n], key, cut)
             && Tracks(limit, window, ops[..n], key, ops[n].at - window)
    ensures Tracks(limit, window, ops, key, cut)
  {
    var n := |ops| - 1;
    AcceptedAreHits(limit, window, ops[..n], key, ops[n].at);
    StepTracksHistory(
      Run(limit, window, ops[..n]), Accepted(limit, window, ops[..n], key), limit, window, ops[n], key, cut);
  }

  /** The table never loses a hit that can still matter, and invents none. */
  lemma {:induction false} TableTracksHistory(
      limit: int, window: Duration, ops: seq<Op>, key: string, now: Instant, cut: int)
    requires limit > 0 && Ordered(ops, now) && now - window <= cut
    ensures Tracks(limit, window, ops, key, cut)
  {
    if ops != [] {
      var n := |ops| - 1;
      TableTracksHistory(limit, window, ops[..n], key, ops[n].at, cut);
      TableTracksHistory(limit, window, ops[..n], key, ops[n].at, ops[n].at - window);
      LastTracks(limit, window, ops, key, cut);
    }
  }

  /** Main result: in every run at nondecreasing times, sweeps included, a hit is accepted
      exactly when fewer than `limit` hits of its key were accepted in (now - window, now]. */
  lemma {:induction false} WindowRefinesHistory(limit: int, window: Duration, ops: seq<Op>, key: string, now: Instant)
    requires limit > 0 && Ordered(ops, now)
    ensures Granted(limit, window, ops, key, now) <==> Spent(limit, window, ops, key, now) < limit
  {
    TableTracksHistory(limit, window, ops, key, now, now - window);
    AcceptedAreHits(limit, window, ops, key, now);
    VerdictBy(Run(limit, window, ops), Accepted(limit, window, ops, key), limit, window, key, now);
  }

  lemma VerdictBy(h: Hits, a: seq<Instant>, limit: int, window: Duration, key: string, now: Instant)
    requires limit > 0 && Recent(HitsOf(h, key), now - window) == Recent(a, now - window)
    requires forall t :: t in a ==> t <= now
    ensures Record(h, limit, window, key, now).1 <==> CountIn(a, now - window, now) < limit
  {
    RecentCounts(a, now - window, now);
  }

  lemma PurgedKey(h: Hits, window: Duration, now: Instant, key: string)
    ensures var kept := Recent(HitsOf(h, key), now - window);
            && (key in Purge(h, window, now) <==> kept != [])
            && (kept != [] ==> Purge(h, window, now)[key] == kept)
  {}

  lemma PurgedBy(h: Hits, a: seq<Instant>, window: Duration, key: string, now: Instant)
    requires Recent(HitsOf(h, key), now - window) == Recent(a, now - window)
    requires forall t :: t in a ==> t <= now
    ensures key in Purge(h, window, now) <==> CountIn(a, now - window, now) > 0
    ensures key in Purge(h, window, now) ==> Purge(h, window, now)[key] == Recent(a, now - window)
  {
    RecentCounts(a, now - window, now);
    PurgedKey(h, window, now, key);
  }

  /** A swept table holds exactly the keys with a hit accepted in the window, and of each
      exactly those hits. */
  lemma {:induction false} SweptTableIsRecent(limit: int, window: Duration, ops: seq<Op>, now: Instant, key: string)
    requires limit > 0 && Ordered(ops, now)
    ensures key in Purge(Run(limit, window, ops), window, now) <==> Spent(limit, window, ops, key, now) > 0
    ensures key in Purge(Run(limit, window, ops), window, now) ==>
              Purge(Run(limit, window, ops), window, now)[key]
              == Recent(Accepted(limit, window, ops, key), now - window)
  {
    TableTracksHistory(limit, window, ops, key, now, now - window);
    AcceptedAreHits(limit, window, ops, key, now);
    PurgedBy(Run(limit, window, ops), Accepted(limit, window, ops, key), window, key, now);
  }

  lemma {:induction false} CountShrinks(times: seq<Instant>, lo: int, hi: int, lo': int, hi': int)
    requires lo' <= lo && (hi <= hi' || forall t :: t in times ==> t <= hi')
    ensures CountIn(times, lo, hi) <= CountIn(times, lo', hi')
  {
    if times != [] {
      var n := |times| - 1;
      assert times[n] in times && forall t :: t in times[..n] ==> t in times;
      CountShrinks(times[..n], lo, hi, lo', hi');
    }
  }

  /** Every half-open interval of window length holds at most `limit` accepted hits. */
  lemma {:induction false} RateIsBounded(limit: int, window: Duration, ops: seq<Op>, key: string, now: Instant,
      end: int)
    requires limit > 0 && Ordered(ops, now)
    ensures CountIn(Accepted(limit, window, ops, key), end - window, end) <= limit
  {
    if ops != [] {
      var n := |ops| - 1;
      var at, a := ops[n].at, Accepted(limit, window, ops[..n], key);
      RateIsBounded(limit, window, ops[..n], key, at, end);
      SnocCount(a, at, end - window, end);
      AcceptedAreHits(limit, window, ops[..n], key, at);
      if at <= end {
        CountShrinks(a, end - window, end, at - window, at);
      }
    }
  }

  /** Keys do not affect each other, and sweeping affects no key. */
  lemma {:induction false} KeysAreIndependent(limit: int, window: Duration, ops: seq<Op>, key: string)
    ensures Accepted(limit, window, ops, key) == Accepted(limit, window, OnlyKey(ops, key), key)
  {
    if ops != [] {
      var n := |ops| - 1;
      KeysAreIndependent(limit, window, ops[..n], key);
      var before := OnlyKey(ops[..n], key);
      assert (before + [ops[n]])[..|before|] == before;
    }
  }

  lemma {:induction false} OnlyKeyIsOrdered(ops: seq<Op>, key: string, now: Instant)
    requires Ordered(ops, now)
    ensures Ordered(OnlyKey(ops, key), now)
  {
    if ops != [] {
      var n := |ops| - 1;
      OnlyKeyIsOrdered(ops[..n], key, ops[n].at);
      var before := OnlyKey(ops[..n], key);
      if ops[n].Hit? && ops[n].key == key {
        assert (before + [ops[n]])[..|before|] == before;
      } else {
        LaterIsOrdered(before, ops[n].at, now);
      }
    }
  }

  lemma LaterIsOrdered(ops: seq<Op>, now: Instant, later: Instant)
    requires Ordered(ops, now) && now <= later
    ensures Ordered(ops, later)
  {}

  /** Hence the verdict on a hit is the one it would get if all other keys' operations and all
      sweeps were struck from the run. */
  lemma VerdictIsLocal(limit: int, window: Duration, ops: seq<Op>, key: string, now: Instant)
    requires limit > 0 && Ordered(ops, now)
    ensures Granted(limit, window, ops, key, now) <==> Granted(limit, window, OnlyKey(ops, key), key, now)
    ensures Granted(limit, window, ops, key, now) <==> Spent(limit, window, OnlyKey(ops, key), key, now) < limit
  {
    OnlyKeyIsOrdered(ops, key, now);
    WindowRefinesHistory(limit, window, ops, key, now);
    WindowRefinesHistory(limit, window, OnlyKey(ops, key), key, now);
    KeysAreIndependent(limit, window, ops, key);
  }

  /** A limit of zero or less is unlimited and stores nothing. */
  lemma {:induction false} UnlimitedStoresNothing(limit: int, window: Duration, ops: seq<Op>, key: string, now: Instant)
    requires limit <= 0
    ensures Run(limit, window, ops) == map[]
    ensures Granted(limit, window, ops, key, now)
  {
    if ops != [] {
      UnlimitedStoresNothing(limit, window, ops[..|ops| - 1], key, now);
    }
  }

  // ---------------------------------------------------------------- the class

  /** A Go slice: a prefix of a backing array whose length is the capacity. */
  datatype Slice = Slice(buf: array<Instant>, len: nat)

  /** The filter loop of Allow and Sweep, writing the survivors over the prefix of the
      array it is still reading. */
  method Compact(s: Slice, cut: int) returns (kept: Slice)
    requires s.len <= s.buf.Length
    modifies s.buf
    ensures kept.buf == s.buf && kept.len <= s.len
    ensures kept.buf[..kept.len] == Recent(old(s.buf[..s.len]), cut)
  {
    var n := 0;
    for i := 0 to s.len
      invariant n <= i
      invariant s.buf[..n] == Recent(old(s.buf[..i]), cut)
      invariant forall j | i <= j < s.len :: s.buf[j] == old(s.buf[j])
    {
      var t := s.buf[i];
      assert old(s.buf[..i + 1])[..i] == old(s.buf[..i]);
      if t > cut {
        s.buf[n] := t;
        n := n + 1;
        assert s.buf[..n] == s.buf[..n - 1] + [t];
      }
    }
    kept := Slice(s.buf, n);
  }

  /** Go's append of one element: in place when there is capacity, else into a new array. */
  method Append(s: Slice, t: Instant) returns (r: Slice)
    requires s.len <= s.buf.Length
    modifies s.buf
    ensures r.len == s.len + 1 <= r.buf.Length
    ensures if s.len < s.buf.Length then r.buf == s.buf else fresh(r.buf)
    ensures r.buf[..r.len] == old(s.buf[..s.len]) + [t]
  {
    var buf := s.buf;
    if s.len == buf.Length {
      buf := new Instant[2 * s.len + 1];
      for i := 0 to s.len
        invariant buf[..i] == s.buf[..i]
        invariant s.buf[..] == old(s.buf[..])
      {
        buf[i] := s.buf[i];
      }
    }
    buf[s.len] := t;
    r := Slice(buf, s.len + 1);
  }

  class Window {
    const limit: int
    const window: Duration
    var hits: map<string, Slice>

    ghost var contents: Hits

    ghost var owner: map<array<Instant>, string>  // no two keys share a backing array

    ghost predicate Valid()
      reads this, owner.Keys
    {
      window > 0 && contents.Keys == hits.Keys && Holds(hits.Keys)
    }

    /** Each of `keys` owns its backing array, whose prefix is its recorded contents. */
    ghost predicate Holds(keys: set<string>)
      reads this, owner.Keys
    {
      forall key | key in keys ::
        && key in hits && key in contents
        && hits[key].buf in owner && owner[hits[key].buf] == key
        && hits[key].len <= hits[key].buf.Length
        && contents[key] == hits[key].buf[..hits[key].len]
    }

    constructor (limit: int, window: Duration)
      ensures Valid() && contents == map[] && owner == map[]
      ensures this.limit == limit && this.window == (if window <= 0 then MINUTE else window)
    {
      this.limit := limit;
      this.window := if window <= 0 then MINUTE else window;
      hits := map[];
      contents, owner := map[], map[];
    }

    /** Writes the slice back, or deletes the key when nothing is left. */
    method Store(key: string, s: Slice)
      requires window > 0 && contents.Keys == hits.Keys && Holds(hits.Keys - {key})
      requires s.len <= s.buf.Length && (s.buf in owner ==> owner[s.buf] == key)
      modifies this
      ensures Valid() && owner == old(owner)[s.buf := key]
      ensures contents == if s.len == 0 then old(contents) - {key} else old(contents)[key := s.buf[..s.len]]
    {
      owner := owner[s.buf := key];
      if s.len == 0 {
        hits, contents := hits - {key}, contents - {key};
      } else {
        hits, contents := hits[key := s], contents[key := s.buf[..s.len]];
      }
    }

    method Allow(key: string, now: Instant) returns (ok: bool)
      requires Valid()
      modifies this, owner.Keys
      ensures Valid() && fresh(owner.Keys - old(owner.Keys))
      ensures (contents, ok) == Record(old(contents), limit, window, key, now)
    {
      if limit <= 0 {
        return true;
      }
      var cut := now - window;
      var prev: Slice;
      if key in hits {
        prev := hits[key];
      } else {
        var none := new Instant[0];
        prev := Slice(none, 0);
      }
      assert prev.buf[..prev.len] == HitsOf(contents, key);
      var kept := Compact(prev, cut);
      if kept.len >= limit {
        Store(key, kept);
        return false;
      }
      var grown := Append(kept, now);
      Store(key, grown);
      return true;
    }

    /** The body of Sweep's loop over the table. */
    method PurgeKey(key: string, cut: int)
      requires Valid() && key in hits
      modifies this, owner.Keys
      ensures Valid() && owner == old(owner)
      ensures contents == var kept := Recent(old(contents)[key], cut);
                          if kept == [] then old(contents) - {key} else old(contents)[key := kept]
    {
      var kept := Compact(hits[key], cut);
      Store(key, kept);
    }

    method Sweep(now: Instant)
      requires Valid()
      modifies this, owner.Keys
      ensures Valid() && owner == old(owner)
      ensures contents == Purge(old(contents), window, now)
    {
      ghost var was := contents;
      var cut := now - window;
      var todo := hits.Keys;
      while todo != {}
        invariant Valid() && owner == old(owner)
        invariant todo <= was.Keys && contents == Filtered(was, cut, todo)
        decreases todo
      {
        var key :| key in todo;
        FilterOne(was, cut, todo, key);
        PurgeKey(key, cut);
        todo := todo - {key};
      }
    }
  }
}
