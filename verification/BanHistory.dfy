/** What a ban book answers, told from the strike history alone: the book's table, its
    sweeps and its look-ups cannot be observed, and an eviction is seen only by the key that
    was evicted, and only if its ban still ran or its strikes still counted. */
module BanHistory {
  import opened Clock
  import opened Options
  import opened Bans

  datatype Blow = Blow(soft: bool, at: Instant)

  /** The strikes against one key, oldest first. */
  function BlowsOf(ops: seq<Op>, key: string): seq<Blow> {
    if ops == [] then [] else
      var n := |ops| - 1;
      BlowsOf(ops[..n], key) + NewBlow(ops[n], key)
  }

  function NewBlow(op: Op, key: string): seq<Blow> {
    if op.Strike? && op.key == key then [Blow(op.soft, op.at)] else []
  }

  predicate Evicts(op: Op, key: string) {
    op.Strike? && op.victim == Some(key)
  }

  /** The strikes against one key since its entry was last evicted, oldest first. */
  function Since(ops: seq<Op>, key: string): seq<Blow> {
    if ops == [] then [] else
      var n := |ops| - 1;
      (if Evicts(ops[n], key) then [] else Since(ops[..n], key)) + NewBlow(ops[n], key)
  }

  /** The strikes of the decay period still running at `now`: the longest suffix without a
      gap longer than the decay. */
  function Streak(decay: Duration, blows: seq<Blow>, now: Instant): seq<Blow> {
    if blows == [] || now - blows[|blows| - 1].at > decay then [] else
      var n := |blows| - 1;
      Streak(decay, blows[..n], blows[n].at) + [blows[n]]
  }

  function OfKind(blows: seq<Blow>, soft: bool): nat {
    if blows == [] then 0 else
      var n := |blows| - 1;
      OfKind(blows[..n], soft) + if blows[n].soft == soft then 1 else 0
  }

  /** The rung a strike at `now` lands on: its number among its kind in the decay period. */
  function NextRung(p: Policy, blows: seq<Blow>, soft: bool, now: Instant): nat {
    Rung(Ladder(p, soft), 1 + OfKind(Streak(p.strikeDecay, blows, now), soft))
  }

  /** When the ban of a strike history ends; zero for no history. */
  function BanEnd(p: Policy, blows: seq<Blow>): Instant {
    if blows == [] then ZERO_TIME else
      var n := |blows| - 1;
      blows[n].at + NextRung(p, blows[..n], blows[n].soft, blows[n].at)
  }

  lemma SnocKind(blows: seq<Blow>, b: Blow, soft: bool)
    ensures OfKind(blows + [b], soft) == OfKind(blows, soft) + if b.soft == soft then 1 else 0
  {
    assert (blows + [b])[..|blows|] == blows;
  }

  lemma SnocStreak(decay: Duration, blows: seq<Blow>, b: Blow)
    requires decay >= 0
    ensures Streak(decay, blows + [b], b.at) == Streak(decay, blows, b.at) + [b]
  {
    assert (blows + [b])[..|blows|] == blows;
  }

  /** A full table in which the first eviction pass finds nothing to drop. */
  ghost predicate Crowded(p: Policy, b: Book, now: Instant) {
    Full(p, b) && forall k | k in b.entries :: !Idle(p, b.entries[k], now)
  }

  /** No new key is struck while the table is crowded, so no eviction needs the second pass. */
  ghost predicate Roomy(p: Policy, ops: seq<Op>) {
    ops == [] ||
    var n := |ops| - 1;
    && Roomy(p, ops[..n])
    && (ops[n].Strike? && ops[n].key !in Run(p, ops[..n]).entries ==> !Crowded(p, Run(p, ops[..n]), ops[n].at))
  }

  /** Nothing is left of these strikes: no ban, and none that the decay has not forgotten. */
  predicate Over(p: Policy, blows: seq<Blow>, now: Instant) {
    blows == [] || (BanEnd(p, blows) <= now && now - blows[|blows| - 1].at > p.strikeDecay)
  }

  /** Whenever the key's entry was evicted, nothing was left of its strikes. */
  ghost predicate Spared(p: Policy, ops: seq<Op>, key: string) {
    ops == [] ||
    var n := |ops| - 1;
    Spared(p, ops[..n], key) && (Evicts(ops[n], key) ==> Over(p, BlowsOf(ops[..n], key), ops[n].at))
  }

  ghost predicate Tallies(p: Policy, e: Entry, blows: seq<Blow>) {
    && blows != []
    && var last := blows[|blows| - 1];
    && e.until == BanEnd(p, blows)
    && e.lastStrike == last.at
    && e.strikes == OfKind(Streak(p.strikeDecay, blows, last.at), false)
    && e.softStrikes == OfKind(Streak(p.strikeDecay, blows, last.at), true)
  }

  /** The stored entry of a key says what the history says; a missing entry is a history
      whose ban is over and whose strikes have decayed. */
  ghost predicate Agrees(p: Policy, b: Book, key: string, blows: seq<Blow>, now: Instant) {
    if key in b.entries then Tallies(p, b.entries[key], blows)
    else Over(p, blows, now)
  }

  /** An entry is made by a strike, and strikes are not forgotten but by decay. */
  predicate Marked(b: Book, key: string) {
    key in b.entries ==> b.entries[key].strikes + b.entries[key].softStrikes > 0
  }

  lemma StreakFromEntry(p: Policy, b: Book, key: string, blows: seq<Blow>, now: Instant)
    requires p.strikeDecay >= 0 && Marked(b, key) && Agrees(p, b, key, blows, now)
    ensures var e := Decayed(p, EntryOf(b, key), now);
            && e.strikes == OfKind(Streak(p.strikeDecay, blows, now), false)
            && e.softStrikes == OfKind(Streak(p.strikeDecay, blows, now), true)
  {}

  lemma PunishAgrees(p: Policy, b: Book, key: string, blows: seq<Blow>, now: Instant, soft: bool)
    requires p.strikeDecay >= 0 && Marked(b, key) && Agrees(p, b, key, blows, now)
    ensures Agrees(p, Punish(p, b, key, soft, now), key, blows + [Blow(soft, now)], now)
  {
    StreakFromEntry(p, b, key, blows, now);
    StruckTallies(p, EntryOf(b, key), blows, now, soft);
  }

  lemma StruckTallies(p: Policy, e: Entry, blows: seq<Blow>, now: Instant, soft: bool)
    requires p.strikeDecay >= 0
    requires var d := Decayed(p, e, now); var streak := Streak(p.strikeDecay, blows, now);
             d.strikes == OfKind(streak, false) && d.softStrikes == OfKind(streak, true)
    ensures Tallies(p, Struck(p, e, soft, now), blows + [Blow(soft, now)])
  {
    CountsAfterBlow(p, blows, Blow(soft, now));
  }

  /** What one more blow does to the streak, its counts, and the end of the ban. */
  lemma CountsAfterBlow(p: Policy, blows: seq<Blow>, blow: Blow)
    requires p.strikeDecay >= 0
    ensures var after := blows + [blow]; var streak := Streak(p.strikeDecay, blows, blow.at);
            && after[|after| - 1] == blow
            && BanEnd(p, after) == blow.at + NextRung(p, blows, blow.soft, blow.at)
            && OfKind(Streak(p.strikeDecay, after, blow.at), false) ==
                OfKind(streak, false) + (if blow.soft then 0 else 1)
            && OfKind(Streak(p.strikeDecay, after, blow.at), true) ==
                OfKind(streak, true) + (if blow.soft then 1 else 0)
  {
    var after := blows + [blow];
    assert after[..|blows|] == blows && after[|after| - 1] == blow;
    SnocStreak(p.strikeDecay, blows, blow);
    SnocKind(Streak(p.strikeDecay, blows, blow.at), blow, false);
    SnocKind(Streak(p.strikeDecay, blows, blow.at), blow, true);
  }

  lemma EvictAgrees(p: Policy, b: Book, victim: Option<string>, key: string, blows: seq<Blow>, now: Instant)
    requires Agrees(p, b, key, blows, now) && (victim == Some(key) ==> Over(p, blows, now))
    ensures Agrees(p, Evict(b, victim, now), key, blows, now)
  {}

  lemma StrikeAgrees(p: Policy, b: Book, op: Op, key: string, blows: seq<Blow>)
    requires p.strikeDecay >= 0 && op.Strike? && Marked(b, key) && Agrees(p, b, key, blows, op.at)
    requires Evicts(op, key) ==> Over(p, blows, op.at)
    ensures Agrees(p, Apply(p, b, op), key, blows + NewBlow(op, key), op.at)
  {
    EvictAgrees(p, b, op.victim, key, blows, op.at);
    if op.key == key {
      PunishAgrees(p, Evict(b, op.victim, op.at), key, blows, op.at, op.soft);
    } else {
      assert blows + [] == blows;
    }
  }

  /** Steps other than strikes leave the entry's tallies alone, or drop it when idle. */
  lemma QuietAgrees(p: Policy, b: Book, op: Op, key: string, blows: seq<Blow>)
    requires !op.Strike? && Agrees(p, b, key, blows, op.at)
    ensures Agrees(p, Apply(p, b, op), key, blows, op.at)
  {
    if op.Tidy? && key in b.entries && Idle(p, b.entries[key], op.at) {
      IdleIsOver(p, b, key, blows, op.at);
    }
  }

  lemma StepAgrees(p: Policy, b: Book, op: Op, key: string, blows: seq<Blow>)
    requires p.strikeDecay >= 0 && Marked(b, key) && Agrees(p, b, key, blows, op.at)
    requires Evicts(op, key) ==> Over(p, blows, op.at)
    ensures Agrees(p, Apply(p, b, op), key, blows + NewBlow(op, key), op.at)
  {
    if op.Strike? {
      StrikeAgrees(p, b, op, key, blows);
    } else {
      QuietAgrees(p, b, op, key, blows);
      assert blows + NewBlow(op, key) == blows;
    }
  }

  lemma ForgottenAgrees(p: Policy, b: Book, op: Op, key: string)
    requires p.strikeDecay >= 0 && Evicts(op, key)
    ensures Agrees(p, Apply(p, b, op), key, NewBlow(op, key), op.at)
  {
    if op.key == key {
      PunishAgrees(p, Evict(b, op.victim, op.at), key, [], op.at, op.soft);
      assert [] + [Blow(op.soft, op.at)] == [Blow(op.soft, op.at)];
    }
  }

  lemma LaterAgrees(p: Policy, b: Book, key: string, blows: seq<Blow>, now: Instant, later: Instant)
    requires Agrees(p, b, key, blows, now) && now <= later
    ensures Agrees(p, b, key, blows, later)
  {}

  lemma {:induction false} BookAgreesSince(p: Policy, ops: seq<Op>, key: string, now: Instant)
    requires p.strikeDecay >= 0 && History(p, ops, now)
    ensures Agrees(p, Run(p, ops), key, Since(ops, key), now) && Marked(Run(p, ops), key)
  {
    if ops != [] {
      var n := |ops| - 1;
      var b := Run(p, ops[..n]);
      BookAgreesSince(p, ops[..n], key, ops[n].at);
      if Evicts(ops[n], key) {
        ForgottenAgrees(p, b, ops[n], key);
        assert [] + NewBlow(ops[n], key) == NewBlow(ops[n], key);
      } else {
        StepAgrees(p, b, ops[n], key, Since(ops[..n], key));
      }
      LaterAgrees(p, Run(p, ops), key, Since(ops, key), ops[n].at, now);
    }
  }

  lemma {:induction false} BookAgrees(p: Policy, ops: seq<Op>, key: string, now: Instant)
    requires p.strikeDecay >= 0 && History(p, ops, now) && Spared(p, ops, key)
    ensures Agrees(p, Run(p, ops), key, BlowsOf(ops, key), now)
  {
    if ops != [] {
      var n := |ops| - 1;
      BookAgrees(p, ops[..n], key, ops[n].at);
      BookAgreesSince(p, ops[..n], key, ops[n].at);
      StepAgrees(p, Run(p, ops[..n]), ops[n], key, BlowsOf(ops[..n], key));
      LaterAgrees(p, Run(p, ops), key, BlowsOf(ops, key), ops[n].at, now);
    }
  }

  /** The ban that strikes dictate. */
  function BanBy(p: Policy, blows: seq<Blow>, now: Instant): Option<Instant> {
    if BanEnd(p, blows) > now then Some(BanEnd(p, blows)) else None
  }

  /** The answers that strikes dictate: the ban, and the length of the next one. */
  predicate Dictated(p: Policy, b: Book, key: string, blows: seq<Blow>, now: Instant, soft: bool) {
    && BanOf(b, key, now) == BanBy(p, blows, now)
    && Sentence(p, b, key, soft, now) == NextRung(p, blows, soft, now)
  }

  lemma AgreedIsDictated(p: Policy, b: Book, key: string, blows: seq<Blow>, now: Instant, soft: bool)
    requires p.strikeDecay >= 0 && Marked(b, key) && Agrees(p, b, key, blows, now)
    ensures Dictated(p, b, key, blows, now, soft)
  {
    StreakFromEntry(p, b, key, blows, now);
  }

  /** Main result: in every run, every answer of the book is the one dictated by the strikes
      against that key since its entry was last evicted. The n-th strike of a kind within a
      decay period lands on rung min(n, length) of that kind's ladder. */
  lemma {:induction false} HistoryDecides(p: Policy, ops: seq<Op>, key: string, now: Instant, soft: bool)
    requires p.strikeDecay >= 0 && History(p, ops, now)
    ensures Dictated(p, Run(p, ops), key, Since(ops, key), now, soft)
  {
    BookAgreesSince(p, ops, key, now);
    AgreedIsDictated(p, Run(p, ops), key, Since(ops, key), now, soft);
  }

  /** All its strikes dictate them if, whenever the key's own entry was evicted, nothing was
      left of its strikes; what happens to other keys does not matter. */
  lemma {:induction false} WholeHistoryDecides(p: Policy, ops: seq<Op>, key: string, now: Instant, soft: bool)
    requires p.strikeDecay >= 0 && History(p, ops, now) && Spared(p, ops, key)
    ensures Dictated(p, Run(p, ops), key, BlowsOf(ops, key), now, soft)
  {
    BookAgrees(p, ops, key, now);
    BookAgreesSince(p, ops, key, now);
    AgreedIsDictated(p, Run(p, ops), key, BlowsOf(ops, key), now, soft);
  }

  /** Every later rung differs from the first, so that a forgotten strike shows. */
  ghost predicate LaterRungsDiffer(p: Policy) {
    forall soft, n: nat | n > 1 :: Rung(Ladder(p, soft), n) != Rung(Ladder(p, soft), 1)
  }

  lemma WiredRungsDiffer()
    ensures LaterRungsDiffer(DEFAULT_POLICY)
  {}

  /** The book says what these strikes dictate, about the ban and about either ladder. */
  ghost predicate Knows(p: Policy, b: Book, key: string, blows: seq<Blow>, now: Instant) {
    forall soft :: Dictated(p, b, key, blows, now, soft)
  }

  lemma EvictedIsUnknown(p: Policy, b: Book, op: Op, key: string)
    requires Possible(p, b, op) && Evicts(op, key)
    ensures op.key != key && key !in Apply(p, b, op).entries
  {}

  /** A book without the key says what its strikes dictate exactly when nothing is left of
      them. */
  lemma UnknownIsDictatedExactly(p: Policy, b: Book, key: string, blows: seq<Blow>, now: Instant)
    requires p.strikeDecay >= 0 && LaterRungsDiffer(p) && key !in b.entries
    ensures Knows(p, b, key, blows, now) <==> Over(p, blows, now)
  {
    if Over(p, blows, now) {
      forall soft ensures Dictated(p, b, key, blows, now, soft) {
        AgreedIsDictated(p, b, key, blows, now, soft);
      }
    } else if BanEnd(p, blows) <= now {
      var n := |blows| - 1;
      var soft := blows[n].soft;
      SnocKind(Streak(p.strikeDecay, blows[..n], blows[n].at), blows[n], soft);
      assert OfKind(Streak(p.strikeDecay, blows, now), soft) > 0;
      assert Sentence(p, b, key, soft, now) == Rung(Ladder(p, soft), 1);
      assert !Dictated(p, b, key, blows, now, soft);
    } else {
      assert !Dictated(p, b, key, blows, now, true);
    }
  }

  /** Right after every operation of the run the book says what all strikes against the key
      dictate. */
  ghost predicate AlwaysKnown(p: Policy, ops: seq<Op>, key: string) {
    ops == [] ||
    var n := |ops| - 1;
    AlwaysKnown(p, ops[..n], key) && Knows(p, Run(p, ops), key, BlowsOf(ops, key), ops[n].at)
  }

  /** Exact condition: a book remembers all strikes against a key, throughout a run, if and
      only if it never evicts the key while its ban runs or its strikes count. */
  lemma {:induction false} RemembersExactly(p: Policy, ops: seq<Op>, key: string, now: Instant)
    requires p.strikeDecay >= 0 && LaterRungsDiffer(p) && History(p, ops, now)
    ensures AlwaysKnown(p, ops, key) <==> Spared(p, ops, key)
  {
    if ops != [] {
      var n := |ops| - 1;
      RemembersExactly(p, ops[..n], key, ops[n].at);
      if Evicts(ops[n], key) {
        EvictionForgetsExactly(p, ops, key);
      }
      if Spared(p, ops, key) {
        forall soft ensures Dictated(p, Run(p, ops), key, BlowsOf(ops, key), ops[n].at, soft) {
          WholeHistoryDecides(p, ops, key, ops[n].at, soft);
        }
      }
    }
  }

  /** Exact condition: right after an eviction of the key the book still says what all its
      strikes dictate if and only if nothing was left of them. */
  lemma {:induction false} EvictionForgetsExactly(p: Policy, ops: seq<Op>, key: string)
    requires p.strikeDecay >= 0 && LaterRungsDiffer(p)
    requires ops != [] && Evicts(ops[|ops| - 1], key) && History(p, ops, ops[|ops| - 1].at)
    ensures var n := |ops| - 1; var now := ops[n].at;
            && BlowsOf(ops, key) == BlowsOf(ops[..n], key)
            && (Knows(p, Run(p, ops), key, BlowsOf(ops, key), now) <==> Over(p, BlowsOf(ops[..n], key), now))
  {
    var n := |ops| - 1;
    EvictedIsUnknown(p, Run(p, ops[..n]), ops[n], key);
    assert BlowsOf(ops[..n], key) + [] == BlowsOf(ops[..n], key);
    UnknownIsDictatedExactly(p, Run(p, ops), key, BlowsOf(ops, key), ops[n].at);
  }

  /** Evictions of the first pass always spare the key: a run in which no new key is struck
      while the table is crowded spares every key. */
  lemma {:induction false} RoomySpares(p: Policy, ops: seq<Op>, key: string, now: Instant)
    requires p.strikeDecay >= 0 && History(p, ops, now) && Roomy(p, ops)
    ensures Spared(p, ops, key)
  {
    if ops != [] {
      var n := |ops| - 1;
      RoomySpares(p, ops[..n], key, ops[n].at);
      BookAgrees(p, ops[..n], key, ops[n].at);
      if Evicts(ops[n], key) {
        IdleIsOver(p, Run(p, ops[..n]), key, BlowsOf(ops[..n], key), ops[n].at);
      }
    }
  }

  lemma IdleIsOver(p: Policy, b: Book, key: string, blows: seq<Blow>, now: Instant)
    requires key in b.entries && Idle(p, b.entries[key], now) && Agrees(p, b, key, blows, now)
    ensures Over(p, blows, now)
  {}

  /** A run without a cap evicts nothing. */
  lemma {:induction false} UncappedSpares(p: Policy, ops: seq<Op>, key: string, now: Instant)
    requires p.maxKeys <= 0 && History(p, ops, now)
    ensures Spared(p, ops, key)
  {
    if ops != [] {
      UncappedSpares(p, ops[..|ops| - 1], key, ops[|ops| - 1].at);
    }
  }

  // ---------------------------------------------------------------- sweeping and eviction are invisible

  /** A run as its callers see it: no sweeps, and no record of what was evicted. */
  function Observed(ops: seq<Op>): seq<Op> {
    if ops == [] then [] else
      var n := |ops| - 1;
      match ops[n]
      case Tidy(_) => Observed(ops[..n])
      case Strike(key, soft, at, _) => Observed(ops[..n]) + [Strike(key, soft, at, None)]
      case _ => Observed(ops[..n]) + [ops[n]]
  }

  lemma SnocBlows(ops: seq<Op>, op: Op, key: string)
    ensures BlowsOf(ops + [op], key) == BlowsOf(ops, key) + NewBlow(op, key)
  {
    assert (ops + [op])[..|ops|] == ops;
  }

  lemma {:induction false} BlowsAreObserved(ops: seq<Op>, key: string)
    ensures BlowsOf(Observed(ops), key) == BlowsOf(ops, key)
  {
    if ops != [] {
      var n := |ops| - 1;
      BlowsAreObserved(ops[..n], key);
      if ops[n].Strike? {
        SnocBlows(Observed(ops[..n]), ops[n].(victim := None), key);
      } else {
        SnocBlows(Observed(ops[..n]), ops[n], key);
      }
    }
  }

  /** Main result: a capped book that is swept at arbitrary times and evicts what it must, and
      an unbounded book that is never swept, answer alike for every key that was not itself
      evicted while its ban ran or its strikes counted. */
  lemma {:induction false} SweepingIsInvisible(p: Policy, ops: seq<Op>, unswept: seq<Op>, key: string, now: Instant,
      soft: bool)
    requires p.strikeDecay >= 0
    requires History(p, ops, now) && Spared(p, ops, key)
    requires History(p.(maxKeys := 0), unswept, now)
    requires Observed(ops) == Observed(unswept)
    ensures SameAnswers(p, Run(p, ops), p.(maxKeys := 0), Run(p.(maxKeys := 0), unswept), key, now, soft)
  {
    var q := p.(maxKeys := 0);
    BlowsAreObserved(ops, key);
    BlowsAreObserved(unswept, key);
    UncappedSpares(q, unswept, key, now);
    WholeHistoryDecides(p, ops, key, now, soft);
    WholeHistoryDecides(q, unswept, key, now, soft);
    CapDoesNotMatter(p, q, BlowsOf(ops, key), soft, now);
  }

  predicate SameAnswers(p: Policy, b: Book, q: Policy, b': Book, key: string, now: Instant, soft: bool) {
    BanOf(b, key, now) == BanOf(b', key, now) && Sentence(p, b, key, soft, now) == Sentence(q, b', key, soft, now)
  }

  /** Two books under ladders and a decay in common answer alike for a key when they saw the
      same strikes against it since its last eviction, whatever else befell them. */
  lemma {:induction false} OnlyBlowsMatter(p: Policy, q: Policy, ops: seq<Op>, ops': seq<Op>, key: string,
      now: Instant, soft: bool)
    requires p.strikeDecay >= 0 && q == p.(maxKeys := q.maxKeys)
    requires History(p, ops, now) && History(q, ops', now)
    requires Since(ops, key) == Since(ops', key)
    ensures SameAnswers(p, Run(p, ops), q, Run(q, ops'), key, now, soft)
  {
    HistoryDecides(p, ops, key, now, soft);
    HistoryDecides(q, ops', key, now, soft);
    CapDoesNotMatter(p, q, Since(ops, key), soft, now);
  }

  lemma CapDoesNotMatter(p: Policy, q: Policy, blows: seq<Blow>, soft: bool, now: Instant)
    requires q == p.(maxKeys := q.maxKeys)
    ensures BanEnd(p, blows) == BanEnd(q, blows)
    ensures NextRung(p, blows, soft, now) == NextRung(q, blows, soft, now)
  {}

  // ---------------------------------------------------------------- who is in the table

  /** When the key was last seen: struck, checked, or noted while its ban ran. */
  function Sighted(p: Policy, ops: seq<Op>, key: string): Instant {
    if ops == [] then ZERO_TIME else
      var n := |ops| - 1;
      if Sees(p, ops[..n], ops[n], key) then ops[n].at else Sighted(p, ops[..n], key)
  }

  predicate Sees(p: Policy, before: seq<Op>, op: Op, key: string) {
    match op
    case Check(k, _) => k == key
    case Strike(k, _, _, _) => k == key
    case Note(k, at) => k == key && BanBy(p, Since(before, key), at).Some?
    case Tidy(_) => false
  }

  /** The key is not banned, and was neither struck nor seen within the decay. */
  predicate Quiet(p: Policy, ops: seq<Op>, key: string, now: Instant) {
    var blows := Since(ops, key);
    blows != [] ==>
      && BanEnd(p, blows) <= now
      && now - blows[|blows| - 1].at > p.strikeDecay
      && now - Sighted(p, ops, key) > p.strikeDecay
  }

  /** The key has been struck, and neither been evicted since nor been quiet at a sweep. */
  predicate Tracked(p: Policy, ops: seq<Op>, key: string) {
    ops != [] &&
    var n := |ops| - 1;
    match ops[n]
    case Strike(k, _, _, victim) => k == key || (Tracked(p, ops[..n], key) && victim != Some(key))
    case Tidy(at) => Tracked(p, ops[..n], key) && !Quiet(p, ops[..n], key, at)
    case _ => Tracked(p, ops[..n], key)
  }

  /** The book's entry of the key, if any, is what the operations say. */
  ghost predicate Listed(p: Policy, b: Book, ops: seq<Op>, key: string) {
    && (key in b.entries <==> Tracked(p, ops, key))
    && (key in b.entries ==> b.entries[key].lastSeen == Sighted(p, ops, key))
  }

  lemma IdleIsQuiet(p: Policy, b: Book, ops: seq<Op>, key: string, now: Instant)
    requires Listed(p, b, ops, key) && Agrees(p, b, key, Since(ops, key), now) && key in b.entries
    ensures Idle(p, b.entries[key], now) <==> Quiet(p, ops, key, now)
  {}

  lemma SweepLists(p: Policy, b: Book, before: seq<Op>, at: Instant, key: string)
    requires Listed(p, b, before, key) && Agrees(p, b, key, Since(before, key), at)
    ensures Listed(p, Tidied(p, b, at), before + [Tidy(at)], key)
  {
    assert (before + [Tidy(at)])[..|before|] == before;
    if key in b.entries {
      IdleIsQuiet(p, b, before, key, at);
    }
  }

  lemma StrikeLists(p: Policy, b: Book, before: seq<Op>, op: Op, key: string)
    requires op.Strike? && Possible(p, b, op) && Listed(p, b, before, key)
    ensures Listed(p, Apply(p, b, op), before + [op], key)
  {
    assert (before + [op])[..|before|] == before;
  }

  lemma CheckLists(p: Policy, b: Book, before: seq<Op>, seen: string, at: Instant, key: string)
    requires Listed(p, b, before, key)
    ensures Listed(p, Look(b, seen, at), before + [Check(seen, at)], key)
  {
    assert (before + [Check(seen, at)])[..|before|] == before;
  }

  lemma NoteLists(p: Policy, b: Book, before: seq<Op>, noted: string, at: Instant, key: string)
    requires Listed(p, b, before, key) && BanOf(b, key, at) == BanBy(p, Since(before, key), at)
    ensures Listed(p, Reject(b, noted, at), before + [Note(noted, at)], key)
  {
    assert (before + [Note(noted, at)])[..|before|] == before;
    if noted == key {
      assert Sees(p, before, Note(noted, at), key) <==> BanOf(b, key, at).Some?;
    }
  }

  lemma StepLists(p: Policy, b: Book, before: seq<Op>, op: Op, key: string)
    requires Possible(p, b, op) && Listed(p, b, before, key)
    requires Agrees(p, b, key, Since(before, key), op.at)
    requires BanOf(b, key, op.at) == BanBy(p, Since(before, key), op.at)
    ensures Listed(p, Apply(p, b, op), before + [op], key)
  {
    match op
    case Tidy(at) => SweepLists(p, b, before, at, key);
    case Strike(_, _, _, _) => StrikeLists(p, b, before, op, key);
    case Check(seen, at) => CheckLists(p, b, before, seen, at, key);
    case Note(noted, at) => NoteLists(p, b, before, noted, at, key);
  }

  /** Main result: in every run the book holds exactly the keys that were struck and have
      neither been evicted nor been quiet at a sweep since, and remembers for each when it was
      last seen. */
  lemma {:induction false} TableByHistory(p: Policy, ops: seq<Op>, key: string, now: Instant)
    requires p.strikeDecay >= 0 && History(p, ops, now)
    ensures Listed(p, Run(p, ops), ops, key)
  {
    if ops != [] {
      var n := |ops| - 1;
      TableByHistory(p, ops[..n], key, ops[n].at);
      BookAgreesSince(p, ops[..n], key, ops[n].at);
      HistoryDecides(p, ops[..n], key, ops[n].at, false);
      StepLists(p, Run(p, ops[..n]), ops[..n], ops[n], key);
      assert ops == ops[..n] + [ops[n]];
    }
  }

  /** What ranks a key for the second eviction pass: the end of its ban, or else when it was
      last seen. */
  function Turn(p: Policy, ops: seq<Op>, key: string, now: Instant): Instant {
    var ban := BanBy(p, Since(ops, key), now);
    if ban.Some? then ban.value else Sighted(p, ops, key)
  }

  lemma {:induction false} RankIsTurn(p: Policy, ops: seq<Op>, key: string, now: Instant)
    requires p.strikeDecay >= 0 && History(p, ops, now)
    ensures var b := Run(p, ops);
            && (key in b.entries <==> Tracked(p, ops, key))
            && (key in b.entries ==>
                  && Rank(b.entries[key], now) == Turn(p, ops, key, now)
                  && (Idle(p, b.entries[key], now) <==> Quiet(p, ops, key, now)))
  {
    TableByHistory(p, ops, key, now);
    BookAgreesSince(p, ops, key, now);
    HistoryDecides(p, ops, key, now, false);
    if key in Run(p, ops).entries {
      IdleIsQuiet(p, Run(p, ops), ops, key, now);
    }
  }

  /** A quiet key; or, when no key is quiet, one whose turn comes first. */
  ghost predicate FairVictim(p: Policy, ops: seq<Op>, now: Instant, victim: string) {
    && Tracked(p, ops, victim)
    && (|| Quiet(p, ops, victim, now)
        || forall k | Tracked(p, ops, k) ::
             !Quiet(p, ops, k, now) && Turn(p, ops, victim, now) <= Turn(p, ops, k, now))
  }

  /** Main result: the keys that may be evicted are told from the operations alone: bans by
      their ends, and unbanned keys by when they were last seen. */
  lemma {:induction false} EvictionByHistory(p: Policy, ops: seq<Op>, now: Instant, victim: string)
    requires p.strikeDecay >= 0 && History(p, ops, now)
    ensures MayEvict(p, Run(p, ops), now, victim) <==> FairVictim(p, ops, now, victim)
  {
    RankIsTurn(p, ops, victim, now);
    forall k
      ensures k in Run(p, ops).entries <==> Tracked(p, ops, k)
      ensures k in Run(p, ops).entries ==>
                && Rank(Run(p, ops).entries[k], now) == Turn(p, ops, k, now)
                && (Idle(p, Run(p, ops).entries[k], now) <==> Quiet(p, ops, k, now))
    {
      RankIsTurn(p, ops, k, now);
    }
  }

  // ---------------------------------------------------------------- counters and gauge

  function Strikes(ops: seq<Op>): nat {
    if ops == [] then 0 else Strikes(ops[..|ops| - 1]) + if ops[|ops| - 1].Strike? then 1 else 0
  }

  function Evictions(ops: seq<Op>): nat {
    if ops == [] then 0 else
      var n := |ops| - 1;
      Evictions(ops[..n]) + if ops[n].Strike? && ops[n].victim.Some? then 1 else 0
  }

  function Notes(ops: seq<Op>): nat {
    if ops == [] then 0 else Notes(ops[..|ops| - 1]) + if ops[|ops| - 1].Note? then 1 else 0
  }

  /** The counters count the strikes, the evictions and the noted rejections of the run. */
  lemma {:induction false} CountersCount(p: Policy, ops: seq<Op>)
    ensures var b := Run(p, ops);
            b.strikesTotal == Strikes(ops) && b.evictions == Evictions(ops) && b.rejectedBanned == Notes(ops)
  {
    if ops != [] {
      CountersCount(p, ops[..|ops| - 1]);
    }
  }

  function StruckKeys(ops: seq<Op>): set<string> {
    if ops == [] then {} else
      var n := |ops| - 1;
      StruckKeys(ops[..n]) + if ops[n].Strike? then {ops[n].key} else {}
  }

  /** The keys banned at `now`, by their strikes. */
  function Banned(p: Policy, ops: seq<Op>, now: Instant): set<string> {
    set k | k in StruckKeys(ops) && BanBy(p, Since(ops, k), now).Some?
  }

  /** The gauge, told from the operations: recounted by a sweep; one more for a strike on a key
      that is not banned, one less for the eviction of a key that is. */
  function Gauge(p: Policy, ops: seq<Op>): int {
    if ops == [] then 0 else
      var n := |ops| - 1;
      match ops[n]
      case Strike(key, _, at, victim) =>
        Gauge(p, ops[..n])
        + (if BanBy(p, Since(ops[..n], key), at).Some? then 0 else 1)
        - (if victim.Some? && BanBy(p, Since(ops[..n], victim.value), at).Some? then 1 else 0)
      case Tidy(at) => |Banned(p, ops[..n], at)|
      case _ => Gauge(p, ops[..n])
  }

  lemma {:induction false} SinceMeansStruck(ops: seq<Op>, key: string)
    requires Since(ops, key) != []
    ensures key in StruckKeys(ops)
  {
    var n := |ops| - 1;
    if NewBlow(ops[n], key) == [] {
      SinceMeansStruck(ops[..n], key);
    }
  }

  lemma {:induction false} LiveAreBanned(p: Policy, ops: seq<Op>, now: Instant)
    requires p.strikeDecay >= 0 && History(p, ops, now)
    ensures Live(Run(p, ops), now) == Banned(p, ops, now)
  {
    forall k ensures k in Live(Run(p, ops), now) <==> k in Banned(p, ops, now) {
      HistoryDecides(p, ops, k, now, false);
      if Since(ops, k) != [] {
        SinceMeansStruck(ops, k);
      }
    }
  }

  lemma StrikeMovesGauge(p: Policy, b: Book, op: Op)
    requires op.Strike? && Possible(p, b, op)
    ensures Apply(p, b, op).bansActive ==
            b.bansActive
            + (if BanOf(b, op.key, op.at).Some? then 0 else 1)
            - (if op.victim.Some? && BanOf(b, op.victim.value, op.at).Some? then 1 else 0)
  {}

  lemma {:induction false} GaugeByHistory(p: Policy, ops: seq<Op>, now: Instant)
    requires p.strikeDecay >= 0 && History(p, ops, now)
    ensures Run(p, ops).bansActive == Gauge(p, ops)
  {
    if ops != [] {
      var n := |ops| - 1;
      GaugeByHistory(p, ops[..n], ops[n].at);
      match ops[n] {
        case Strike(key, _, at, victim) =>
          HistoryDecides(p, ops[..n], key, at, false);
          if victim.Some? {
            HistoryDecides(p, ops[..n], victim.value, at, false);
          }
          StrikeMovesGauge(p, Run(p, ops[..n]), ops[n]);
        case Tidy(at) => LiveAreBanned(p, ops[..n], at);
        case _ =>
      }
    }
  }

  // ---------------------------------------------------------------- ladders

  ghost predicate Climbing(ladder: seq<nat>) {
    forall i, j | 0 <= i <= j < |ladder| :: ladder[i] <= ladder[j]
  }

  /** A key struck only softly is never banned beyond 15 minutes after its last strike. */
  lemma SoftBansStayShort(blows: seq<Blow>)
    requires blows != [] && blows[|blows| - 1].soft
    ensures BanEnd(DEFAULT_POLICY, blows) <= blows[|blows| - 1].at + 15 * MINUTE
  {}

  /** For a key struck by one kind only, a further strike never moves the end of the ban
      earlier, even when it comes after a decay reset and starts the ladder again. */
  lemma OneKindNeverShortens(p: Policy, blows: seq<Blow>, soft: bool, now: Instant)
    requires p.strikeDecay >= 0 && blows != [] && blows[|blows| - 1].at <= now
    requires blows[|blows| - 1].soft == soft
    requires Climbing(Ladder(p, soft)) && Ladder(p, soft) != []
    requires forall r | r in Ladder(p, soft) :: r <= p.strikeDecay
    ensures BanEnd(p, blows) <= BanEnd(p, blows + [Blow(soft, now)])
  {
    var n := |blows| - 1;
    var before := Streak(p.strikeDecay, blows[..n], blows[n].at);
    var rung := 1 + OfKind(before, soft);
    assert BanEnd(p, blows) == blows[n].at + Rung(Ladder(p, soft), rung);
    CountsAfterBlow(p, blows, Blow(soft, now));
    if now - blows[n].at <= p.strikeDecay {
      SnocKind(before, blows[n], soft);
      assert NextRung(p, blows, soft, now) == Rung(Ladder(p, soft), rung + 1);
      RungsClimb(Ladder(p, soft), rung);
    } else {
      RungIsInLadder(Ladder(p, soft), rung);
    }
  }

  lemma RungsClimb(ladder: seq<nat>, n: nat)
    requires Climbing(ladder) && ladder != [] && n > 0
    ensures Rung(ladder, n) <= Rung(ladder, n + 1)
  {}

  lemma RungIsInLadder(ladder: seq<nat>, n: nat)
    requires ladder != [] && n > 0
    ensures Rung(ladder, n) in ladder
  {}

  /** Ladders that climb and hold no rung longer than the decay, as the wired ones do. */
  ghost predicate Sane(p: Policy) {
    forall soft :: var l := Ladder(p, soft); l != [] && Climbing(l) && forall r | r in l :: r <= p.strikeDecay
  }

  lemma WiredLaddersAreSane()
    ensures Sane(DEFAULT_POLICY)
  {}

  function Count(e: Entry, soft: bool): nat {
    if soft then e.softStrikes else e.strikes
  }

  lemma TalliedUntil(p: Policy, e: Entry, blows: seq<Blow>)
    requires p.strikeDecay >= 0 && Tallies(p, e, blows)
    ensures var soft := blows[|blows| - 1].soft;
            Count(e, soft) > 0 && e.until == e.lastStrike + Rung(Ladder(p, soft), Count(e, soft))
  {
    var n := |blows| - 1;
    assert blows == blows[..n] + [blows[n]];
    CountsAfterBlow(p, blows[..n], blows[n]);
  }

  /** With `last` the kind of the last strike: a strike of this kind would cut the entry's ban
      short if and only if `last` is the other kind, and less time has passed since than the
      rung it landed on exceeds the rung to come. All but `last` can be read off the entry
      before the strike. */
  predicate ShortensWhen(p: Policy, e: Entry, last: bool, soft: bool, now: Instant) {
    && Count(e, last) > 0
    && (Struck(p, e, soft, now).until < e.until
        <==> && last != soft
             && now - e.lastStrike
                < Rung(Ladder(p, last), Count(e, last)) - Rung(Ladder(p, soft), Count(e, soft) + 1))
  }

  lemma SaneRung(p: Policy, soft: bool, n: nat)
    requires Sane(p) && n > 0
    ensures Rung(Ladder(p, soft), n) <= p.strikeDecay && Rung(Ladder(p, soft), n) <= Rung(Ladder(p, soft), n + 1)
  {
    RungsClimb(Ladder(p, soft), n);
    RungIsInLadder(Ladder(p, soft), n);
  }

  lemma TermInPeriod(p: Policy, e: Entry, soft: bool, now: Instant)
    requires now - e.lastStrike <= p.strikeDecay
    ensures Term(p, e, soft, now) == Rung(Ladder(p, soft), Count(e, soft) + 1)
  {}

  lemma ShortensEntry(p: Policy, e: Entry, blows: seq<Blow>, soft: bool, now: Instant)
    requires p.strikeDecay >= 0 && Sane(p) && Tallies(p, e, blows) && e.lastStrike <= now
    ensures ShortensWhen(p, e, blows[|blows| - 1].soft, soft, now)
  {
    TalliedUntil(p, e, blows);
    ShortensAfterRung(p, e, blows[|blows| - 1].soft, soft, now);
  }

  lemma ShortensAfterRung(p: Policy, e: Entry, last: bool, soft: bool, now: Instant)
    requires Sane(p) && Count(e, last) > 0 && e.lastStrike <= now
    requires e.until == e.lastStrike + Rung(Ladder(p, last), Count(e, last))
    ensures ShortensWhen(p, e, last, soft, now)
  {
    SaneRung(p, last, Count(e, last));
    assert Struck(p, e, soft, now).until == now + Term(p, e, soft, now);
    if now - e.lastStrike <= p.strikeDecay {
      TermInPeriod(p, e, soft, now);
    }
  }

  lemma {:induction false} StrikesArePast(p: Policy, ops: seq<Op>, key: string, now: Instant)
    requires History(p, ops, now) && key in Run(p, ops).entries
    ensures Run(p, ops).entries[key].lastStrike <= now
  {
    RunKeepsInv(p, ops, now);
  }

  /** Exact condition: in every run, a strike cuts a key's ban short exactly then. */
  lemma {:induction false} ShortensAcrossKinds(p: Policy, ops: seq<Op>, key: string, soft: bool, now: Instant)
    requires p.strikeDecay >= 0 && Sane(p) && History(p, ops, now) && key in Run(p, ops).entries
    ensures var blows := Since(ops, key);
            blows != [] && ShortensWhen(p, Run(p, ops).entries[key], blows[|blows| - 1].soft, soft, now)
  {
    BookAgreesSince(p, ops, key, now);
    StrikesArePast(p, ops, key, now);
    ShortensEntry(p, Run(p, ops).entries[key], Since(ops, key), soft, now);
  }

  // ---------------------------------------------------------------- witnesses

  lemma SnocHistory(p: Policy, ops: seq<Op>, op: Op)
    requires History(p, ops, op.at) && Possible(p, Run(p, ops), op)
    ensures History(p, ops + [op], op.at) && Run(p, ops + [op]) == Apply(p, Run(p, ops), op)
  {
    assert (ops + [op])[..|ops|] == ops;
  }

  /** An entry that has seen `n` strikes of the long ladder in one instant, and its book. */
  function HardEntry(n: nat, t: Instant): Entry
    requires n <= 5
  {
    if n == 0 then NEW_ENTRY else Entry(n, 0, t + DEFAULT_LADDER[n - 1], t, 0, t)
  }

  function HardBook(n: nat, t: Instant): Book
    requires n <= 5
  {
    if n == 0 then EMPTY else Book(map["k" := HardEntry(n, t)], n, 1, 0, 0)
  }

  lemma HardStrike(n: nat, t: Instant)
    requires n < 5
    ensures Struck(DEFAULT_POLICY, HardEntry(n, t), false, t) == HardEntry(n + 1, t)
    ensures HardEntry(n, t).until > t <==> n > 0
  {
    assert Rung(DEFAULT_LADDER, n + 1) == DEFAULT_LADDER[n];
  }

  lemma HardPunish(n: nat, t: Instant)
    requires n < 5
    ensures Punish(DEFAULT_POLICY, HardBook(n, t), "k", false, t) == HardBook(n + 1, t)
  {
    HardStrike(n, t);
    var b := HardBook(n, t);
    assert EntryOf(b, "k") == HardEntry(n, t);
    assert b.entries["k" := HardEntry(n + 1, t)] == map["k" := HardEntry(n + 1, t)];
  }

  lemma HardRoom(n: nat, t: Instant)
    requires n <= 5
    ensures !Full(DEFAULT_POLICY, HardBook(n, t))
  {
    assert |HardBook(n, t).entries| <= 1;
  }

  lemma OneMoreStrike(ops: seq<Op>, n: nat, t: Instant)
    requires n < 5 && History(DEFAULT_POLICY, ops, t) && Run(DEFAULT_POLICY, ops) == HardBook(n, t)
    ensures var all := ops + [Strike("k", false, t, None)];
            History(DEFAULT_POLICY, all, t) && Run(DEFAULT_POLICY, all) == HardBook(n + 1, t)
  {
    var op := Strike("k", false, t, None);
    HardPunish(n, t);
    HardRoom(n, t);
    assert Possible(DEFAULT_POLICY, HardBook(n, t), op);
    SnocHistory(DEFAULT_POLICY, ops, op);
  }

  /** It does happen: after a fourth strike of the long ladder has banned a key for an hour,
      a soft strike in the same instant leaves it banned for a minute. */
  lemma SoftStrikeCutsAnHourToAMinute(t: Instant)
    ensures var hard := Strike("k", false, t, None);
            var four := [hard, hard, hard, hard]; var five := four + [Strike("k", true, t, None)];
            && History(DEFAULT_POLICY, five, t)
            && BanOf(Run(DEFAULT_POLICY, four), "k", t) == Some(t + HOUR)
            && BanOf(Run(DEFAULT_POLICY, five), "k", t) == Some(t + MINUTE)
  {
    var hard := Strike("k", false, t, None);
    OneMoreStrike([], 0, t);
    OneMoreStrike([] + [hard], 1, t);
    OneMoreStrike([] + [hard] + [hard], 2, t);
    OneMoreStrike([] + [hard] + [hard] + [hard], 3, t);
    assert [] + [hard] + [hard] + [hard] + [hard] == [hard, hard, hard, hard];
    SnocHistory(DEFAULT_POLICY, [hard, hard, hard, hard], Strike("k", true, t, None));
  }

  /** The i-th of as many keys as there may be. */
  function Key(i: nat): (key: string)
    ensures |key| == i + 1
  {
    seq(i + 1, _ => 'k')
  }

  /** A strike against each of `n` keys, all in one instant. */
  function Flood(n: nat, t: Instant): seq<Op> {
    if n == 0 then [] else Flood(n - 1, t) + [Strike(Key(n - 1), false, t, None)]
  }

  /** The book holds `n` keys, all banned for a minute from `t`. */
  ghost predicate Flooded(b: Book, n: nat, t: Instant) {
    && |b.entries| == n
    && (n > 0 ==> Key(0) in b.entries)
    && forall k | k in b.entries :: 0 < |k| <= n && b.entries[k] == HardEntry(1, t)
  }

  lemma FloodOne(b: Book, n: nat, t: Instant)
    requires Flooded(b, n, t)
    ensures Key(n) !in b.entries && Flooded(Punish(DEFAULT_POLICY, b, Key(n), false, t), n + 1, t)
  {
    HardStrike(0, t);
    assert Key(n) !in b.entries;
    var r := Punish(DEFAULT_POLICY, b, Key(n), false, t);
    assert r.entries == b.entries[Key(n) := HardEntry(1, t)];
    assert r.entries.Keys == b.entries.Keys + {Key(n)};
  }

  lemma {:induction false} FloodFills(n: nat, t: Instant)
    requires n <= DEFAULT_POLICY.maxKeys
    ensures History(DEFAULT_POLICY, Flood(n, t), t) && Flooded(Run(DEFAULT_POLICY, Flood(n, t)), n, t)
  {
    if n > 0 {
      FloodFills(n - 1, t);
      FloodOne(Run(DEFAULT_POLICY, Flood(n - 1, t)), n - 1, t);
      SnocHistory(DEFAULT_POLICY, Flood(n - 1, t), Strike(Key(n - 1), false, t, None));
    }
  }

  /** One key more, struck while the bans run or after, and the first key has to go. */
  function FloodOver(n: nat, t: Instant, later: Instant): seq<Op> {
    Flood(n, t) + [Strike(Key(n), false, later, Some(Key(0)))]
  }

  lemma FirstMayGo(b: Book, n: nat, t: Instant, later: Instant)
    requires Flooded(b, n, t) && n == DEFAULT_POLICY.maxKeys && t <= later <= t + 24 * HOUR
    ensures Possible(DEFAULT_POLICY, b, Strike(Key(n), false, later, Some(Key(0))))
  {
    assert Key(n) !in b.entries;
    forall k | k in b.entries
      ensures !Idle(DEFAULT_POLICY, b.entries[k], later) && Rank(b.entries[Key(0)], later) <= Rank(b.entries[k], later)
    {
      assert b.entries[k] == b.entries[Key(0)] == HardEntry(1, t);
    }
  }

  lemma FloodEvicts(n: nat, t: Instant, later: Instant)
    requires n == DEFAULT_POLICY.maxKeys && t <= later <= t + 24 * HOUR
    ensures History(DEFAULT_POLICY, Flood(n, t), later) && History(DEFAULT_POLICY, FloodOver(n, t, later), later)
    ensures var b := Run(DEFAULT_POLICY, Flood(n, t)); Key(0) in b.entries && b.entries[Key(0)] == HardEntry(1, t)
    ensures Key(0) !in Run(DEFAULT_POLICY, FloodOver(n, t, later)).entries
  {
    FloodFills(n, t);
    LaterHistory(DEFAULT_POLICY, Flood(n, t), t, later);
    FirstMayGo(Run(DEFAULT_POLICY, Flood(n, t)), n, t, later);
    SnocHistory(DEFAULT_POLICY, Flood(n, t), Strike(Key(n), false, later, Some(Key(0))));
    var last := Strike(Key(n), false, later, Some(Key(0)));
    EvictedIsUnknown(DEFAULT_POLICY, Run(DEFAULT_POLICY, Flood(n, t)), last, Key(0));
  }

  lemma LaterHistory(p: Policy, ops: seq<Op>, now: Instant, later: Instant)
    requires History(p, ops, now) && now <= later
    ensures History(p, ops, later)
  {}

  /** So does the loss of a ban: when the table is full of banned keys, a strike against one
      more key ends the first ban. */
  lemma FullTableForgetsABan(n: nat, t: Instant)
    requires n == DEFAULT_POLICY.maxKeys
    ensures History(DEFAULT_POLICY, FloodOver(n, t, t), t)
    ensures BanOf(Run(DEFAULT_POLICY, Flood(n, t)), Key(0), t) == Some(t + MINUTE)
    ensures BanOf(Run(DEFAULT_POLICY, FloodOver(n, t, t)), Key(0), t) == None
  {
    FloodEvicts(n, t, t);
  }

  /** And the loss of a strike: a minute later, when the bans are over, one more key makes the
      book forget that the first key has been struck, and its next ban is the first rung. */
  lemma FullTableForgetsAStrike(n: nat, t: Instant)
    requires n == DEFAULT_POLICY.maxKeys
    ensures var later := t + MINUTE;
            && History(DEFAULT_POLICY, FloodOver(n, t, later), later)
            && Sentence(DEFAULT_POLICY, Run(DEFAULT_POLICY, Flood(n, t)), Key(0), false, later) == 5 * MINUTE
            && Sentence(DEFAULT_POLICY, Run(DEFAULT_POLICY, FloodOver(n, t, later)), Key(0), false, later) == MINUTE
  {
    FloodEvicts(n, t, t + MINUTE);
  }
}
