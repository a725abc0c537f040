/** Progressive bans as a value: what each Banbook operation does to the table, and what a
    whole run of operations guarantees (ratelimit/guard.go). */
module Bans {
  import opened Clock
  import opened Options

  datatype Entry = Entry(strikes: nat, softStrikes: nat, until: Instant, lastStrike: Instant, rejected: nat,
      lastSeen: Instant)

  datatype Book = Book(entries: map<string, Entry>, strikesTotal: int, bansActive: int, rejectedBanned: int,
      evictions: int)

  datatype Policy = Policy(ladder: seq<nat>, softLadder: seq<nat>, strikeDecay: Duration, maxKeys: int)

  const DEFAULT_LADDER: seq<nat> := [MINUTE, 5 * MINUTE, 15 * MINUTE, HOUR, 24 * HOUR]
  const SOFT_LADDER: seq<nat> := [MINUTE, 5 * MINUTE, 15 * MINUTE]
  const DEFAULT_POLICY := Policy(DEFAULT_LADDER, SOFT_LADDER, 24 * HOUR, 10_000)
  const EMPTY := Book(map[], 0, 0, 0, 0)
  const NEW_ENTRY := Entry(0, 0, ZERO_TIME, ZERO_TIME, 0, ZERO_TIME)

  /** The n-th rung of a ladder, the last one repeating; an empty ladder is the soft one. */
  function Rung(ladder: seq<nat>, n: nat): nat
    requires n > 0
  {
    var rungs := if ladder == [] then SOFT_LADDER else ladder;
    if n - 1 >= |rungs| then rungs[|rungs| - 1] else rungs[n - 1]
  }

  function Ladder(p: Policy, soft: bool): seq<nat> {
    if soft then p.softLadder else p.ladder
  }

  // ---------------------------------------------------------------- one operation

  /** The answer of Blocked: the expiry of a running ban. */
  function BanOf(b: Book, key: string, now: Instant): Option<Instant> {
    if key in b.entries && b.entries[key].until > now then Some(b.entries[key].until) else None
  }

  function Look(b: Book, key: string, now: Instant): Book {
    if key in b.entries then b.(entries := b.entries[key := b.entries[key].(lastSeen := now)]) else b
  }

  function Reject(b: Book, key: string, now: Instant): Book {
    var counted := b.(rejectedBanned := b.rejectedBanned + 1);
    if BanOf(b, key, now) == None then counted else
      var e := b.entries[key];
      counted.(entries := b.entries[key := e.(lastSeen := now, rejected := e.rejected + 1)])
  }

  /** Blocked and, if it said yes, NoteRejected: what CheckBan does. No key, no effect. */
  function Checked(b: Book, key: string, now: Instant): Book {
    if key == "" then b else
      var seen := Look(b, key, now);
      if BanOf(b, key, now).Some? then Reject(seen, key, now) else seen
  }

  /** A clean period longer than the decay forgets earlier strikes. */
  function Decayed(p: Policy, e: Entry, now: Instant): Entry {
    if (e.strikes > 0 || e.softStrikes > 0) && now - e.lastStrike > p.strikeDecay
    then e.(strikes := 0, softStrikes := 0, rejected := 0) else e
  }

  function EntryOf(b: Book, key: string): Entry {
    if key in b.entries then b.entries[key] else NEW_ENTRY
  }

  /** The duration a strike at `now` imposes on an entry. */
  function Term(p: Policy, e: Entry, soft: bool, now: Instant): nat {
    var d := Decayed(p, e, now);
    Rung(Ladder(p, soft), 1 + if soft then d.softStrikes else d.strikes)
  }

  function Struck(p: Policy, e: Entry, soft: bool, now: Instant): Entry {
    var d := Decayed(p, e, now);
    Entry(d.strikes + (if soft then 0 else 1), d.softStrikes + (if soft then 1 else 0), now + Term(p, e, soft, now),
        now, 0, now)
  }

  function Sentence(p: Policy, b: Book, key: string, soft: bool, now: Instant): nat {
    Term(p, EntryOf(b, key), soft, now)
  }

  /** A strike, once there is room for its key. */
  function Punish(p: Policy, b: Book, key: string, soft: bool, now: Instant): Book {
    b.(entries := b.entries[key := Struck(p, EntryOf(b, key), soft, now)],
       strikesTotal := b.strikesTotal + 1,
       bansActive := b.bansActive + if EntryOf(b, key).until > now then 0 else 1)
  }

  /** An entry the first eviction pass and Sweep may drop: no running ban, no strike and no
      sign of life within the decay period. */
  predicate Idle(p: Policy, e: Entry, now: Instant) {
    e.until <= now && now - e.lastStrike > p.strikeDecay && now - e.lastSeen > p.strikeDecay
  }

  /** What the second eviction pass minimises. */
  function Rank(e: Entry, now: Instant): Instant {
    if e.until > now then e.until else e.lastSeen
  }

  predicate Full(p: Policy, b: Book) {
    p.maxKeys > 0 && |b.entries| >= p.maxKeys
  }

  /** The entries that ensureCapacityLocked may evict, whatever order the map is ranged in. */
  ghost predicate MayEvict(p: Policy, b: Book, now: Instant, victim: string) {
    && victim in b.entries
    && (|| Idle(p, b.entries[victim], now)
        || forall k | k in b.entries ::
             !Idle(p, b.entries[k], now) && Rank(b.entries[victim], now) <= Rank(b.entries[k], now))
  }

  /** The cap on tracked keys; zero or less is no cap. */
  predicate Bounded(p: Policy, b: Book) {
    p.maxKeys > 0 ==> |b.entries| <= p.maxKeys
  }

  function Evict(b: Book, victim: Option<string>, now: Instant): Book {
    if victim.None? then b else
      b.(entries := b.entries - {victim.value},
         bansActive := b.bansActive - (if BanOf(b, victim.value, now).Some? then 1 else 0),
         evictions := b.evictions + 1)
  }

  function Live(b: Book, now: Instant): set<string> {
    set k | k in b.entries && b.entries[k].until > now
  }

  /** The table once all keys but `todo` have been looked at, and dropped if idle. */
  function Kept(p: Policy, entries: map<string, Entry>, now: Instant, todo: set<string>): map<string, Entry> {
    map k | k in entries && (k in todo || !Idle(p, entries[k], now)) :: entries[k]
  }

  function Tidied(p: Policy, b: Book, now: Instant): Book {
    b.(entries := Kept(p, b.entries, now, {}), bansActive := |Live(b, now)|)
  }

  /** The gauge Sweep has counted once all keys but `todo` have been looked at. */
  function Counted(b: Book, now: Instant, todo: set<string>): nat {
    |Live(b, now) - todo|
  }

  lemma CountAll(p: Policy, b: Book, now: Instant)
    ensures Counted(b, now, b.entries.Keys) == 0 && Counted(b, now, {}) == |Live(b, now)|
    ensures Kept(p, b.entries, now, b.entries.Keys) == b.entries
  {
    assert Live(b, now) - {} == Live(b, now);
    assert Live(b, now) - b.entries.Keys == {};
  }

  lemma KeepOne(p: Policy, b: Book, now: Instant, todo: set<string>, key: string)
    requires key in b.entries && key in todo
    ensures var m := Kept(p, b.entries, now, todo);
            && key in m && m[key] == b.entries[key]
            && Kept(p, b.entries, now, todo - {key}) == if Idle(p, b.entries[key], now) then m - {key} else m
    ensures Counted(b, now, todo - {key}) == Counted(b, now, todo) + if b.entries[key].until > now then 1 else 0
  {
    var live := Live(b, now);
    assert live - (todo - {key}) == if key in live then (live - todo) + {key} else live - todo;
  }

  // ---------------------------------------------------------------- runs

  /** One operation on canonical keys. A strike records which entry, if any, it evicted. */
  datatype Op =
    | Check(key: string, at: Instant)
    | Note(key: string, at: Instant)
    | Strike(key: string, soft: bool, at: Instant, victim: Option<string>)
    | Tidy(at: Instant)

  function Apply(p: Policy, b: Book, op: Op): Book {
    match op
    case Check(key, at) => Look(b, key, at)
    case Note(key, at) => Reject(b, key, at)
    case Strike(key, soft, at, victim) => Punish(p, Evict(b, victim, at), key, soft, at)
    case Tidy(at) => Tidied(p, b, at)
  }

  /** Whether the code can take this step: it evicts exactly when a new key meets a full table. */
  ghost predicate Possible(p: Policy, b: Book, op: Op) {
    match op
    case Check(key, _) => key != ""
    case Note(key, _) => key != ""
    case Strike(key, _, at, victim) =>
      && key != ""
      && (victim.Some? <==> key !in b.entries && Full(p, b))
      && (victim.Some? ==> MayEvict(p, b, at, victim.value))
    case Tidy(_) => true
  }

  function Run(p: Policy, ops: seq<Op>): Book {
    if ops == [] then EMPTY else Apply(p, Run(p, ops[..|ops| - 1]), ops[|ops| - 1])
  }

  /** A run of the code on a clock that never goes back, up to a reading of `now`. */
  ghost predicate History(p: Policy, ops: seq<Op>, now: Instant) {
    ops == [] ||
    var n := |ops| - 1;
    ops[n].at <= now && History(p, ops[..n], ops[n].at) && Possible(p, Run(p, ops[..n]), ops[n])
  }

  /** What every run keeps. */
  ghost predicate Inv(p: Policy, b: Book, now: Instant) {
    && "" !in b.entries
    && (forall k | k in b.entries ::
          var e := b.entries[k]; e.strikes + e.softStrikes > 0 && e.lastStrike <= e.lastSeen <= now)
    && Bounded(p, b)
    && |Live(b, now)| <= b.bansActive
  }

  lemma FewerLive(small: set<string>, big: set<string>)
    requires small <= big
    ensures |small| <= |big|
    ensures forall x | x in big && x !in small :: |small| < |big|
  {
    var rest := big - small;
    assert big == small + rest;
  }

  lemma EvictKeepsInv(p: Policy, b: Book, now: Instant, victim: string)
    requires Inv(p, b, now) && victim in b.entries
    ensures Inv(p, Evict(b, Some(victim), now), now)
    ensures |Evict(b, Some(victim), now).entries| == |b.entries| - 1
  {
    var r := Evict(b, Some(victim), now);
    assert r.entries.Keys == b.entries.Keys - {victim};
    assert Live(r, now) == Live(b, now) - {victim};
  }

  lemma PunishKeepsInv(p: Policy, b: Book, key: string, soft: bool, now: Instant)
    requires Inv(p, b, now) && key != "" && (key !in b.entries ==> !Full(p, b))
    ensures Inv(p, Punish(p, b, key, soft, now), now)
  {
    var r := Punish(p, b, key, soft, now);
    assert r.entries.Keys == b.entries.Keys + {key};
    FewerLive(Live(r, now), Live(b, now) + {key});
    if EntryOf(b, key).until > now {
      assert Live(b, now) + {key} == Live(b, now);
    }
  }

  lemma TidyKeepsInv(p: Policy, b: Book, now: Instant)
    requires Inv(p, b, now)
    ensures Inv(p, Tidied(p, b, now), now)
    ensures Live(Tidied(p, b, now), now) == Live(b, now)
  {
    var r := Tidied(p, b, now);
    FewerLive(r.entries.Keys, b.entries.Keys);
    assert Live(r, now) == Live(b, now);
  }

  lemma TimeKeepsInv(p: Policy, b: Book, now: Instant, later: Instant)
    requires Inv(p, b, now) && now <= later
    ensures Inv(p, b, later)
  {
    FewerLive(Live(b, later), Live(b, now));
  }

  lemma TouchKeepsInv(p: Policy, b: Book, key: string, now: Instant)
    requires Inv(p, b, now)
    ensures Inv(p, Look(b, key, now), now) && Inv(p, Reject(b, key, now), now)
  {
    assert Look(b, key, now).entries.Keys == b.entries.Keys == Reject(b, key, now).entries.Keys;
    assert Live(Look(b, key, now), now) == Live(b, now) == Live(Reject(b, key, now), now);
  }

  lemma StepKeepsInv(p: Policy, b: Book, op: Op)
    requires Inv(p, b, op.at) && Possible(p, b, op)
    ensures Inv(p, Apply(p, b, op), op.at)
  {
    match op
    case Check(key, at) => TouchKeepsInv(p, b, key, at);
    case Note(key, at) => TouchKeepsInv(p, b, key, at);
    case Strike(key, soft, at, victim) =>
      if victim.Some? {
        EvictKeepsInv(p, b, at, victim.value);
      }
      PunishKeepsInv(p, Evict(b, victim, at), key, soft, at);
    case Tidy(at) => TidyKeepsInv(p, b, at);
  }

  /** What a Banbook needs of its own past to run the next strike. */
  lemma StepKeepsBound(p: Policy, b: Book, op: Op)
    requires Bounded(p, b) && Possible(p, b, op)
    ensures Bounded(p, Apply(p, b, op))
  {
    var r := Apply(p, b, op);
    assert |b.entries| == |b.entries.Keys| && |r.entries| == |r.entries.Keys|;
    match op
    case Check(_, _) => assert r.entries.Keys == b.entries.Keys;
    case Note(_, _) => assert r.entries.Keys == b.entries.Keys;
    case Tidy(_) => FewerLive(r.entries.Keys, b.entries.Keys);
    case Strike(key, _, at, victim) =>
      assert r.entries.Keys == Evict(b, victim, at).entries.Keys + {key};
      if victim.Some? {
        assert Evict(b, victim, at).entries.Keys == b.entries.Keys - {victim.value};
      }
  }

  lemma CheckKeepsBound(p: Policy, b: Book, key: string, now: Instant)
    requires Bounded(p, b)
    ensures Bounded(p, Checked(b, key, now))
  {
    if key != "" {
      StepKeepsBound(p, b, Check(key, now));
      StepKeepsBound(p, Look(b, key, now), Note(key, now));
    }
  }

  lemma {:induction false} RunKeepsInv(p: Policy, ops: seq<Op>, now: Instant)
    requires History(p, ops, now)
    ensures Inv(p, Run(p, ops), now)
  {
    if ops != [] {
      var n := |ops| - 1;
      RunKeepsInv(p, ops[..n], ops[n].at);
      StepKeepsInv(p, Run(p, ops[..n]), ops[n]);
      TimeKeepsInv(p, Run(p, ops), ops[n].at, now);
    }
  }

  // ---------------------------------------------------------------- capacity, eviction, gauge

  /** The table never outgrows its cap, whatever entries the map range offers for eviction. */
  lemma {:induction false} TableIsBounded(p: Policy, ops: seq<Op>, now: Instant)
    requires History(p, ops, now) && p.maxKeys > 0
    ensures |Run(p, ops).entries| <= p.maxKeys
  {
    RunKeepsInv(p, ops, now);
  }

  /** An active ban is evicted only when every entry is an active ban, and then it is one
      that expires first; an unbanned victim is idle or was seen least recently. */
  lemma {:induction false} EvictionIsOptimal(p: Policy, ops: seq<Op>, now: Instant, victim: string)
    requires History(p, ops, now) && MayEvict(p, Run(p, ops), now, victim)
    ensures var b := Run(p, ops); var v := b.entries[victim];
            if v.until > now then
              forall k | k in b.entries :: b.entries[k].until > now && v.until <= b.entries[k].until
            else
              Idle(p, v, now) || forall k | k in b.entries && b.entries[k].until <= now ::
                  v.lastSeen <= b.entries[k].lastSeen
  {
    RunKeepsInv(p, ops, now);
    var b := Run(p, ops);
    if !Idle(p, b.entries[victim], now) {
      assert forall k | k in b.entries :: Rank(b.entries[victim], now) <= Rank(b.entries[k], now);
    }
  }

  /** The gauge never under-counts running bans, at the last step or any time after it, and
      is exact right after a sweep. */
  lemma {:induction false} GaugeCoversLiveBans(p: Policy, ops: seq<Op>, now: Instant)
    requires History(p, ops, now)
    ensures 0 <= |Live(Run(p, ops), now)| <= Run(p, ops).bansActive
    ensures ops != [] && ops[|ops| - 1] == Tidy(now) ==> Run(p, ops).bansActive == |Live(Run(p, ops), now)|
  {
    RunKeepsInv(p, ops, now);
    if ops != [] && ops[|ops| - 1] == Tidy(now) {
      RunKeepsInv(p, ops[..|ops| - 1], now);
      TidyKeepsInv(p, Run(p, ops[..|ops| - 1]), now);
    }
  }
}
