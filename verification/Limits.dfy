/** Several limiters over one ban book: the shared state of /v1/client, /v1/agent and
    /v1/relay as a value, and what its runs guarantee (ratelimit/guard.go, server/wire.go,
    signal/handler.go). */
module Limits {
  import opened Clock
  import opened Options
  import opened Bans
  import Windows
  import H = BanHistory

  /** A limiter's soft window. */
  datatype Gauge = Gauge(limit: int, window: Duration)

  /** A hit on a counter in the soft window; a strike against `key` once that is full. */
  function CountStep(p: Policy, b: Book, h: Windows.Hits, g: Gauge, counter: string, key: string, soft: bool,
      now: Instant, victim: Option<string>):
    (Book, Windows.Hits, bool)
  {
    var (hits, ok) := Windows.Record(h, g.limit, g.window, counter, now);
    (if ok || key == "" then b else Apply(p, b, Strike(key, soft, now, victim)), hits, ok)
  }

  /** The strike inside, if there is one, evicts as the code can. */
  ghost predicate CountPossible(p: Policy, b: Book, h: Windows.Hits, g: Gauge, counter: string, key: string,
      soft: bool, now: Instant, victim: Option<string>) {
    key != "" && !Windows.Record(h, g.limit, g.window, counter, now).1 ==>
        Possible(p, b, Strike(key, soft, now, victim))
  }

  /** One call of Limiter.Allow on a canonical key. */
  function AllowStep(p: Policy, b: Book, h: Windows.Hits, g: Gauge, key: string, now: Instant, victim: Option<string>):
    (Book, Windows.Hits, bool)
  {
    var seen := Checked(b, key, now);
    if key != "" && BanOf(b, key, now).Some? then (seen, h, false)
    else CountStep(p, seen, h, g, key, key, true, now, victim)
  }

  ghost predicate AllowPossible(p: Policy, b: Book, h: Windows.Hits, g: Gauge, key: string, now: Instant,
      victim: Option<string>) {
    (key != "" && BanOf(b, key, now).Some?) || CountPossible(p, Checked(b, key, now), h, g, key, key, true, now, victim)
  }

  /** One call of Admit: the ban pre-check, Allow, and a last look for the Retry-After. */
  function AdmitStep(p: Policy, b: Book, h: Windows.Hits, g: Gauge, key: string, now: Instant, victim: Option<string>):
    (Book, Windows.Hits, bool)
  {
    if key != "" && BanOf(b, key, now).Some? then (Checked(b, key, now), h, false)
    else AdmitUnbanned(p, Checked(b, key, now), h, g, key, now, victim)
  }

  /** The rest of Admit, once the pre-check has found no ban. */
  function AdmitUnbanned(
      p: Policy, b: Book, h: Windows.Hits, g: Gauge, key: string, now: Instant, victim: Option<string>):
    (Book, Windows.Hits, bool)
  {
    var (b', h', ok) := AllowStep(p, b, h, g, key, now, victim);
    (if ok || key == "" then b' else Look(b', key, now), h', ok)
  }

  ghost predicate AdmitPossible(p: Policy, b: Book, h: Windows.Hits, g: Gauge, key: string, now: Instant,
      victim: Option<string>) {
    (key != "" && BanOf(b, key, now).Some?) || AllowPossible(p, Checked(b, key, now), h, g, key, now, victim)
  }

  /** Checking for a ban first changes no verdict and no window, and whoever is turned away is under a
      running ban, the one the Retry-After speaks of. */
  lemma TurnedAwayMeansBanned(p: Policy, b: Book, h: Windows.Hits, g: Gauge, key: string, now: Instant,
      victim: Option<string>)
    requires key != "" && RungsCover(p, 1)
    ensures AdmitStep(p, b, h, g, key, now, victim).1 == AllowStep(p, b, h, g, key, now, victim).1
    ensures AdmitStep(p, b, h, g, key, now, victim).2 == AllowStep(p, b, h, g, key, now, victim).2
    ensures !AdmitStep(p, b, h, g, key, now, victim).2 ==>
        BanOf(AdmitStep(p, b, h, g, key, now, victim).0, key, now).Some?
    ensures AdmitStep(p, b, h, g, key, now, victim).2 ==>
        BanOf(AdmitStep(p, b, h, g, key, now, victim).0, key, now).None?
  {
    var seen := Checked(Checked(b, key, now), key, now);
    StrikeBans(p, seen, key, true, now, victim);
  }

  lemma StrikeBans(p: Policy, b: Book, key: string, soft: bool, now: Instant, victim: Option<string>)
    requires RungsCover(p, 1)
    ensures BanOf(Apply(p, b, Strike(key, soft, now, victim)), key, now).Some?
  {
    var d := Decayed(p, EntryOf(Evict(b, victim, now), key), now);
    var n: nat := 1 + if soft then d.softStrikes else d.strikes;
    assert Rung(Ladder(p, soft), n) >= 1;
  }

  /** A fault counted in a soft window under its own counter; an auth strike once that is full. */
  function FaultStep(p: Policy, b: Book, h: Windows.Hits, g: Gauge, counter: string, key: string, now: Instant,
      victim: Option<string>):
    (Book, Windows.Hits)
  {
    var (b', h', _) := CountStep(p, b, h, g, counter, key, false, now, victim);
    (b', h')
  }

  ghost predicate FaultPossible(p: Policy, b: Book, h: Windows.Hits, g: Gauge, counter: string, key: string,
      now: Instant, victim: Option<string>) {
    CountPossible(p, b, h, g, counter, key, false, now, victim)
  }

  // ---------------------------------------------------------------- counters in one window

  const PROTO := "proto:"
  const BAD_TICKET := "badticket:"

  /** Not one of the prefixed counters. Every address is plain, with or without a zone: up to
      its first colon, dot or percent sign it has hexadecimal digits only, and each prefix has
      a 't' before its colon. */
  predicate Plain(key: string) {
    !(PROTO <= key) && !(BAD_TICKET <= key)
  }

  /** What the agent window counts: registrations, protocol faults, bad tickets. */
  datatype Use =
    | Rate(key: string, at: Instant)
    | Fault(key: string, at: Instant)
    | BadTicket(key: string, at: Instant)
    | Idle(at: Instant)

  function Counter(u: Use): string
    requires !u.Idle?
  {
    match u
    case Rate(key, _) => key
    case Fault(key, _) => PROTO + key
    case BadTicket(key, _) => BAD_TICKET + key
  }

  function WindowOp(u: Use): Windows.Op {
    if u.Idle? then Windows.Tidy(u.at) else Windows.Hit(Counter(u), u.at)
  }

  function WindowOps(uses: seq<Use>): seq<Windows.Op> {
    if uses == [] then [] else WindowOps(uses[..|uses| - 1]) + [WindowOp(uses[|uses| - 1])]
  }

  predicate SameBudget(u: Use, v: Use) {
    match (u, v)
    case (Rate(k, _), Rate(l, _)) => k == l
    case (Fault(k, _), Fault(l, _)) => k == l
    case (BadTicket(k, _), BadTicket(l, _)) => k == l
    case _ => false
  }

  function OwnUses(uses: seq<Use>, u: Use): seq<Use> {
    if uses == [] then [] else
      var n := |uses| - 1;
      if SameBudget(uses[n], u) then OwnUses(uses[..n], u) + [uses[n]] else OwnUses(uses[..n], u)
  }

  ghost predicate PlainRates(uses: seq<Use>) {
    forall i | 0 <= i < |uses| :: uses[i].Rate? ==> Plain(uses[i].key)
  }

  lemma CountersAreDistinct(u: Use, v: Use)
    requires !u.Idle? && !v.Idle?
    requires (u.Rate? ==> Plain(u.key)) && (v.Rate? ==> Plain(v.key))
    ensures Counter(u) == Counter(v) <==> SameBudget(u, v)
  {
    assert PROTO <= PROTO + u.key && BAD_TICKET <= BAD_TICKET + u.key;
    assert PROTO <= PROTO + v.key && BAD_TICKET <= BAD_TICKET + v.key;
    assert (PROTO + u.key)[0] == 'p' && (PROTO + v.key)[0] == 'p';
    assert (BAD_TICKET + u.key)[0] == 'b' && (BAD_TICKET + v.key)[0] == 'b';
    assert (PROTO + u.key)[6..] == u.key && (PROTO + v.key)[6..] == v.key;
    assert (BAD_TICKET + u.key)[10..] == u.key && (BAD_TICKET + v.key)[10..] == v.key;
  }

  lemma SnocOps(uses: seq<Use>, u: Use)
    ensures WindowOps(uses + [u]) == WindowOps(uses) + [WindowOp(u)]
  {
    assert (uses + [u])[..|uses|] == uses;
  }

  lemma {:induction false} OwnUsesAreOnlyKey(uses: seq<Use>, u: Use)
    requires PlainRates(uses) && !u.Idle? && (u.Rate? ==> Plain(u.key))
    ensures Windows.OnlyKey(WindowOps(uses), Counter(u)) == WindowOps(OwnUses(uses, u))
  {
    if uses != [] {
      var n := |uses| - 1;
      OwnUsesAreOnlyKey(uses[..n], u);
      Windows.SnocOnlyKey(WindowOps(uses[..n]), WindowOp(uses[n]), Counter(u));
      SnocOps(OwnUses(uses[..n], u), uses[n]);
      if !uses[n].Idle? {
        CountersAreDistinct(uses[n], u);
      }
    }
  }

  /** Main result: whether a fault, a bad ticket or a registration finds its budget spent
      depends on the earlier uses of that same kind and key alone. */
  lemma {:induction false} BudgetsAreSeparate(g: Gauge, uses: seq<Use>, u: Use)
    requires g.limit > 0 && PlainRates(uses) && !u.Idle? && (u.Rate? ==> Plain(u.key))
    requires Windows.Ordered(WindowOps(uses), u.at)
    ensures Windows.Granted(g.limit, g.window, WindowOps(uses), Counter(u), u.at)
       <==> Windows.Spent(g.limit, g.window, WindowOps(OwnUses(uses, u)), Counter(u), u.at) < g.limit
  {
    OwnUsesAreOnlyKey(uses, u);
    Windows.VerdictIsLocal(g.limit, g.window, WindowOps(uses), Counter(u), u.at);
  }

  /** The strikes a book has counted once a fault has been counted after these operations. */
  function StrikesAfter(
      p: Policy, b: Book, g: Gauge, ops: seq<Windows.Op>, counter: string, key: string, now: Instant,
      victim: Option<string>): int
  {
    FaultStep(p, b, Windows.Run(g.limit, g.window, ops), g, counter, key, now, victim).0.strikesTotal
  }

  /** How many faults of this key were accepted in the window before `now`. */
  function FaultsSpent(g: Gauge, uses: seq<Use>, key: string, now: Instant): nat {
    Windows.Spent(g.limit, g.window, WindowOps(OwnUses(uses, Fault(key, now))), PROTO + key, now)
  }

  /** A protocol fault strikes exactly when `limit` faults of that key, and of no other key
      or kind, were recorded in the window before it. */
  lemma {:induction false} FaultStrikesExactly(p: Policy, b: Book, g: Gauge, uses: seq<Use>, key: string,
      now: Instant, victim: Option<string>)
    requires g.limit > 0 && PlainRates(uses) && key != ""
    requires Windows.Ordered(WindowOps(uses), now)
    ensures StrikesAfter(p, b, g, WindowOps(uses), PROTO + key, key, now, victim)
            == b.strikesTotal + if FaultsSpent(g, uses, key, now) >= g.limit then 1 else 0
  {
    BudgetsAreSeparate(g, uses, Fault(key, now));
    StrikeCounts(p, b, g, WindowOps(uses), PROTO + key, key, now, victim);
  }

  /** A bad ticket strikes exactly when `limit` bad tickets were recorded under that very
      address text in the window before it, whatever key the address is struck under. */
  lemma {:induction false} BadTicketStrikesExactly(
      p: Policy, b: Book, g: Gauge, uses: seq<Use>, address: string, key: string, now: Instant, victim: Option<string>)
    requires g.limit > 0 && PlainRates(uses) && key != ""
    requires Windows.Ordered(WindowOps(uses), now)
    ensures StrikesAfter(p, b, g, WindowOps(uses), BAD_TICKET + address, key, now, victim)
            == b.strikesTotal + if BadTicketsSpent(g, uses, address, now) >= g.limit then 1 else 0
  {
    BudgetsAreSeparate(g, uses, BadTicket(address, now));
    StrikeCounts(p, b, g, WindowOps(uses), BAD_TICKET + address, key, now, victim);
  }

  /** How many bad tickets of this address text were accepted in the window before `now`. */
  function BadTicketsSpent(g: Gauge, uses: seq<Use>, address: string, now: Instant): nat {
    Windows.Spent(g.limit, g.window, WindowOps(OwnUses(uses, BadTicket(address, now))), BAD_TICKET + address, now)
  }

  /** `n` bad tickets of one address, all in one instant. */
  function BadTickets(address: string, n: nat, at: Instant): seq<Use> {
    if n == 0 then [] else BadTickets(address, n - 1, at) + [BadTicket(address, at)]
  }

  lemma {:induction false} BadTicketsAreOrdered(address: string, n: nat, at: Instant)
    ensures Windows.Ordered(WindowOps(BadTickets(address, n, at)), at)
  {
    if n > 0 {
      BadTicketsAreOrdered(address, n - 1, at);
      SnocOps(BadTickets(address, n - 1, at), BadTicket(address, at));
      Windows.SnocOrdered(WindowOps(BadTickets(address, n - 1, at)), WindowOp(BadTicket(address, at)));
    }
  }

  lemma {:induction false} BadTicketsAreNoRates(address: string, n: nat, at: Instant)
    ensures PlainRates(BadTickets(address, n, at))
  {
    if n > 0 {
      BadTicketsAreNoRates(address, n - 1, at);
    }
  }

  lemma SnocOwnUses(uses: seq<Use>, use: Use, u: Use)
    ensures OwnUses(uses + [use], u) == if SameBudget(use, u) then OwnUses(uses, u) + [use] else OwnUses(uses, u)
  {
    assert (uses + [use])[..|uses|] == uses;
  }

  lemma {:induction false} OwnBadTickets(address: string, other: string, n: nat, at: Instant)
    ensures OwnUses(BadTickets(address, n, at), BadTicket(other, at)) ==
            if other == address then BadTickets(address, n, at) else []
  {
    if n > 0 {
      OwnBadTickets(address, other, n - 1, at);
      SnocOwnUses(BadTickets(address, n - 1, at), BadTicket(address, at), BadTicket(other, at));
    }
  }

  lemma {:induction false} BadTicketsSpend(g: Gauge, address: string, n: nat, at: Instant)
    requires g.window > 0 && n <= g.limit
    ensures Windows.Spent(g.limit, g.window, WindowOps(BadTickets(address, n, at)), BAD_TICKET + address, at) == n
  {
    if n > 0 {
      BadTicketsSpend(g, address, n - 1, at);
      SnocOps(BadTickets(address, n - 1, at), BadTicket(address, at));
      Windows.SpentAfterHit(
        g.limit, g.window, WindowOps(BadTickets(address, n - 1, at)), BAD_TICKET + address, at);
    }
  }

  lemma {:induction false} BadTicketsSpendOwnBudget(g: Gauge, address: string, other: string, n: nat, at: Instant)
    requires g.window > 0 && n <= g.limit
    ensures BadTicketsSpent(g, BadTickets(address, n, at), other, at) == if other == address then n else 0
  {
    OwnBadTickets(address, other, n, at);
    BadTicketsSpend(g, address, n, at);
  }

  lemma StrikeCounts(p: Policy, b: Book, g: Gauge, ops: seq<Windows.Op>, counter: string, key: string, now: Instant,
      victim: Option<string>)
    requires key != ""
    ensures StrikesAfter(p, b, g, ops, counter, key, now, victim)
            == b.strikesTotal + if Windows.Granted(g.limit, g.window, ops, counter, now) then 0 else 1
  {}

  /** When faults of this key were noted. */
  function FaultTimes(uses: seq<Use>, key: string): seq<Instant> {
    if uses == [] then [] else
      var n := |uses| - 1;
      var before := FaultTimes(uses[..n], key);
      if uses[n] == Fault(key, uses[n].at) then before + [uses[n].at] else before
  }

  /** The counter of a key's faults accepts no more than were noted. */
  lemma {:induction false} AcceptedFaultsWereNoted(g: Gauge, uses: seq<Use>, key: string, lo: int, hi: int)
    requires PlainRates(uses)
    ensures Windows.CountIn(Windows.Accepted(g.limit, g.window, WindowOps(uses), PROTO + key), lo, hi)
         <= Windows.CountIn(FaultTimes(uses, key), lo, hi)
  {
    if uses != [] {
      var n := |uses| - 1;
      var u, ops := uses[n], WindowOps(uses[..n]);
      AcceptedFaultsWereNoted(g, uses[..n], key, lo, hi);
      assert (ops + [WindowOp(u)])[..|ops|] == ops;
      Windows.SnocCount(Windows.Accepted(g.limit, g.window, ops, PROTO + key), u.at, lo, hi);
      Windows.SnocCount(FaultTimes(uses[..n], key), u.at, lo, hi);
      if !u.Idle? {
        CountersAreDistinct(u, Fault(key, u.at));
      }
    }
  }

  /** A strike for a fault is founded on `limit` noted faults of that key. */
  lemma {:induction false} StrikeNeedsFaults(p: Policy, b: Book, g: Gauge, uses: seq<Use>, key: string, now: Instant,
      victim: Option<string>)
    requires g.limit > 0 && PlainRates(uses)
    requires Windows.Ordered(WindowOps(uses), now)
    ensures Strikes(p, b, g, uses, key, now, victim) ==>
              Windows.CountIn(FaultTimes(uses, key), now - g.window, now) >= g.limit
  {
    if Strikes(p, b, g, uses, key, now, victim) {
      StrikesWhenFull(p, b, g, WindowOps(uses), PROTO + key, key, now, victim);
      Windows.WindowRefinesHistory(g.limit, g.window, WindowOps(uses), PROTO + key, now);
      AcceptedFaultsWereNoted(g, uses, key, now - g.window, now);
    }
  }

  lemma StrikesWhenFull(p: Policy, b: Book, g: Gauge, ops: seq<Windows.Op>, counter: string, key: string, now: Instant,
      victim: Option<string>)
    requires StrikesAfter(p, b, g, ops, counter, key, now, victim) != b.strikesTotal
    ensures !Windows.Granted(g.limit, g.window, ops, counter, now)
  {}

  /** A fault noted now, after these uses of the window, strikes its key. */
  predicate Strikes(p: Policy, b: Book, g: Gauge, uses: seq<Use>, key: string, now: Instant, victim: Option<string>) {
    StrikesAfter(p, b, g, WindowOps(uses), PROTO + key, key, now, victim) != b.strikesTotal
  }

  // ---------------------------------------------------------------- the shared system

  datatype Sys = Sys(book: Book, tables: seq<Windows.Hits>)

  /** One step of the wired server. Addresses are canonical, `i` names a limiter. */
  datatype Act =
    | Admit(i: nat, key: string, at: Instant, victim: Option<string>)
    | Guard(key: string, at: Instant)
    | Peek(key: string, at: Instant)
    | Blame(i: nat, counter: string, key: string, at: Instant, victim: Option<string>)
    | SweepAll(at: Instant)

  function SweepTables(tables: seq<Windows.Hits>, gauges: seq<Gauge>, now: Instant): (r: seq<Windows.Hits>)
    requires |tables| == |gauges|
    ensures |r| == |tables|
    ensures forall i | 0 <= i < |r| :: r[i] == Windows.Purge(tables[i], gauges[i].window, now)
  {
    seq(|tables|, i requires 0 <= i < |tables| => Windows.Purge(tables[i], gauges[i].window, now))
  }

  function Next(p: Policy, gauges: seq<Gauge>, s: Sys, act: Act): (r: Sys)
    requires |s.tables| == |gauges|
    ensures |r.tables| == |gauges|
  {
    match act
    case Admit(i, key, at, victim) =>
      if i >= |gauges| then s else
        var (b, h, _) := AllowStep(p, s.book, s.tables[i], gauges[i], key, at, victim);
        Sys(b, s.tables[i := h])
    case Guard(key, at) =>
      s.(book := Checked(s.book, key, at))
    case Peek(key, at) =>
      s.(book := Look(s.book, key, at))
    case Blame(i, counter, key, at, victim) =>
      if i >= |gauges| then s else
        var (b, h) := FaultStep(p, s.book, s.tables[i], gauges[i], counter, key, at, victim);
        Sys(b, s.tables[i := h])
    case SweepAll(at) => Sys(Tidied(p, s.book, at), SweepTables(s.tables, gauges, at))
  }

  ghost predicate CanAct(p: Policy, gauges: seq<Gauge>, s: Sys, act: Act)
    requires |s.tables| == |gauges|
  {
    match act
    case Admit(i, key, at, victim) =>
      i < |gauges| && Plain(key) && AllowPossible(p, s.book, s.tables[i], gauges[i], key, at, victim)
    case Guard(_, _) => true
    case Peek(_, _) => true
    case Blame(i, counter, key, at, victim) =>
      i < |gauges| && !Plain(counter) && FaultPossible(p, s.book, s.tables[i], gauges[i], counter, key, at, victim)
    case SweepAll(_) => true
  }

  function After(p: Policy, gauges: seq<Gauge>, acts: seq<Act>): (s: Sys)
    ensures |s.tables| == |gauges|
  {
    if acts == [] then Sys(EMPTY, seq(|gauges|, _ => map[])) else
      Next(p, gauges, After(p, gauges, acts[..|acts| - 1]), acts[|acts| - 1])
  }

  ghost predicate SysHistory(p: Policy, gauges: seq<Gauge>, acts: seq<Act>, now: Instant) {
    acts == [] ||
    var n := |acts| - 1;
    && acts[n].at <= now
    && SysHistory(p, gauges, acts[..n], acts[n].at)
    && CanAct(p, gauges, After(p, gauges, acts[..n]), acts[n])
  }

  /** A ban that has been imposed: when its strike fell, and when it ends. */
  datatype Ban = Ban(struck: Instant, end: Instant)

  /** The last ban of a key, kept after its entry has left the book, unless the entry was
      evicted while the ban ran. */
  function Remember(last: Option<Ban>, b: Book, b': Book, key: string, now: Instant): Option<Ban> {
    if key in b'.entries then Some(Ban(b'.entries[key].lastStrike, b'.entries[key].until))
    else if BanOf(b, key, now).Some? then None
    else last
  }

  function LastBan(p: Policy, gauges: seq<Gauge>, acts: seq<Act>, key: string): Option<Ban> {
    if acts == [] then None else
      var n := |acts| - 1;
      Remember(LastBan(p, gauges, acts[..n], key), After(p, gauges, acts[..n]).book, After(p, gauges, acts).book, key,
          acts[n].at)
  }

  /** The last ban is the stored one, or over; every stored rate hit of the key is from before
      its strike or after its end. */
  ghost predicate NoHitInsideBan(s: Sys, i: nat, last: Option<Ban>, key: string, window: Duration, now: Instant)
    requires i < |s.tables|
  {
    && (forall t | t in Windows.HitsOf(s.tables[i], key) :: t <= now)
    && (key in s.book.entries ==> last == Some(Ban(s.book.entries[key].lastStrike, s.book.entries[key].until)))
    && (last.Some? ==>
          && last.value.struck <= now
          && last.value.struck + window <= last.value.end
          && (key in s.book.entries || last.value.end <= now)
          && forall t | t in Windows.HitsOf(s.tables[i], key) :: t <= last.value.struck || t >= last.value.end)
  }

  ghost predicate RungsCover(p: Policy, window: Duration) {
    forall soft, n: nat | n > 0 :: window <= Rung(Ladder(p, soft), n)
  }

  /** What a table may gain in one step: nothing, or the present instant. */
  ghost predicate OnlyGains(h: Windows.Hits, h': Windows.Hits, key: string, now: Instant, may: bool) {
    forall t | t in Windows.HitsOf(h', key) :: t in Windows.HitsOf(h, key) || (may && t == now)
  }

  lemma RecordGains(h: Windows.Hits, g: Gauge, counter: string, key: string, now: Instant)
    ensures var (h', ok) := Windows.Record(h, g.limit, g.window, counter, now);
            OnlyGains(h, h', key, now, ok && counter == key)
  {
    var (h', ok) := Windows.Record(h, g.limit, g.window, counter, now);
    forall t | t in Windows.HitsOf(h', key)
      ensures t in Windows.HitsOf(h, key) || (ok && counter == key && t == now)
    {
      if counter == key {
        Windows.RecentMembers(Windows.HitsOf(h, key), now - g.window, t);
      }
    }
  }

  lemma PurgeGains(h: Windows.Hits, window: Duration, key: string, now: Instant)
    ensures OnlyGains(h, Windows.Purge(h, window, now), key, now, false)
  {
    forall t | t in Windows.HitsOf(Windows.Purge(h, window, now), key) ensures t in Windows.HitsOf(h, key) {
      Windows.RecentMembers(Windows.HitsOf(h, key), now - window, t);
    }
  }

  /** What a book may do to one entry in one step: nothing but bookkeeping, drop it, or strike it. */
  ghost predicate EntryMoves(p: Policy, b: Book, b': Book, key: string, now: Instant) {
    key in b'.entries ==>
      var e' := b'.entries[key];
      || (key in b.entries && e'.until == b.entries[key].until && e'.lastStrike == b.entries[key].lastStrike)
      || (e'.lastStrike == now && exists soft, n: nat | n > 0 :: e'.until == now + Rung(Ladder(p, soft), n))
  }

  lemma StrikeMoves(p: Policy, b: Book, struck: string, soft: bool, now: Instant, victim: Option<string>, key: string)
    ensures EntryMoves(p, b, Apply(p, b, Strike(struck, soft, now, victim)), key, now)
  {
    if struck == key {
      var d := Decayed(p, EntryOf(Evict(b, victim, now), key), now);
      var n: nat := 1 + if soft then d.softStrikes else d.strikes;
      assert Apply(p, b, Strike(struck, soft, now, victim)).entries[key].until == now + Rung(Ladder(p, soft), n);
    }
  }

  lemma MoveKeeps(p: Policy, s: Sys, s': Sys, i: nat, last: Option<Ban>, key: string, window: Duration, now: Instant,
      may: bool)
    requires i < |s.tables| == |s'.tables| && window >= 0 && RungsCover(p, window)
    requires NoHitInsideBan(s, i, last, key, window, now)
    requires OnlyGains(s.tables[i], s'.tables[i], key, now, may)
    requires EntryMoves(p, s.book, s'.book, key, now)
    requires may ==> BanOf(s.book, key, now).None?
    requires may && key in s'.book.entries ==>
               key in s.book.entries && s'.book.entries[key].until == s.book.entries[key].until
    ensures NoHitInsideBan(s', i, Remember(last, s.book, s'.book, key, now), key, window, now)
  {}

  lemma ActKeeps(p: Policy, gauges: seq<Gauge>, s: Sys, act: Act, i: nat, last: Option<Ban>, key: string,
      window: Duration)
    requires |s.tables| == |gauges| && CanAct(p, gauges, s, act)
    requires i < |gauges| && Plain(key) && key != "" && window >= 0 && RungsCover(p, window)
    requires NoHitInsideBan(s, i, last, key, window, act.at)
    ensures var s' := Next(p, gauges, s, act);
            NoHitInsideBan(s', i, Remember(last, s.book, s'.book, key, act.at), key, window, act.at)
  {
    var s' := Next(p, gauges, s, act);
    match act {
      case Admit(j, k, at, victim) =>
        var ok := AllowStep(p, s.book, s.tables[j], gauges[j], k, at, victim).2;
        RecordGains(s.tables[j], gauges[j], k, key, at);
        StrikeMoves(p, Checked(s.book, k, at), k, true, at, victim, key);
        MoveKeeps(p, s, s', i, last, key, window, at, ok && k == key && i == j);
      case Guard(k, at) =>
        MoveKeeps(p, s, s', i, last, key, window, at, false);
      case Peek(k, at) =>
        MoveKeeps(p, s, s', i, last, key, window, at, false);
      case Blame(j, counter, k, at, victim) =>
        RecordGains(s.tables[j], gauges[j], counter, key, at);
        StrikeMoves(p, s.book, k, false, at, victim, key);
        MoveKeeps(p, s, s', i, last, key, window, at, false);
      case SweepAll(at) =>
        PurgeGains(s.tables[i], gauges[i].window, key, at);
        MoveKeeps(p, s, s', i, last, key, window, at, false);
    }
  }

  lemma {:induction false} SysKeeps(p: Policy, gauges: seq<Gauge>, acts: seq<Act>, now: Instant, i: nat, key: string)
    requires SysHistory(p, gauges, acts, now)
    requires i < |gauges| && Plain(key) && key != "" && gauges[i].window >= 0 && RungsCover(p, gauges[i].window)
    ensures NoHitInsideBan(After(p, gauges, acts), i, LastBan(p, gauges, acts, key), key, gauges[i].window, now)
  {
    if acts != [] {
      var n := |acts| - 1;
      SysKeeps(p, gauges, acts[..n], acts[n].at, i, key);
      ActKeeps(p, gauges, After(p, gauges, acts[..n]), acts[n], i, LastBan(p, gauges, acts[..n], key), key,
          gauges[i].window);
    }
  }

  /** Allow answers by the hits accepted since `end`: yes if there are none, no only if `limit`
      of them still lie in the window. */
  ghost predicate FreshVerdict(p: Policy, b: Book, h: Windows.Hits, g: Gauge, key: string, end: Instant, now: Instant,
      victim: Option<string>) {
    var since := Windows.Recent(Windows.HitsOf(h, key), end - 1);
    && AllowStep(p, b, h, g, key, now, victim).2 == (|Windows.Recent(since, now - g.window)| < g.limit)
    && (since == [] ==> AllowStep(p, b, h, g, key, now, victim).2)
  }

  /** Main result, no double punishment: in every run of the limiters sharing a book whose
      rungs are at least a window long, once a key's last ban is over, the verdict of Allow
      counts only the hits accepted since it ended, whether or not the book still holds the
      entry. A ban whose entry was evicted while it ran is no longer one. */
  lemma OnlyFreshHitsCount(p: Policy, gauges: seq<Gauge>, acts: seq<Act>, now: Instant, i: nat, key: string,
      victim: Option<string>)
    requires SysHistory(p, gauges, acts, now)
    requires i < |gauges| && Plain(key) && key != "" && gauges[i].limit > 0
    requires gauges[i].window >= 0 && RungsCover(p, gauges[i].window)
    requires var last := LastBan(p, gauges, acts, key); last.Some? && last.value.end <= now
    ensures var s := After(p, gauges, acts);
            FreshVerdict(p, s.book, s.tables[i], gauges[i], key, LastBan(p, gauges, acts, key).value.end, now, victim)
  {
    SysKeeps(p, gauges, acts, now, i, key);
    VerdictAfterBan(p, After(p, gauges, acts), i, gauges[i], LastBan(p, gauges, acts, key).value, key, now, victim);
  }

  lemma VerdictAfterBan(p: Policy, s: Sys, i: nat, g: Gauge, last: Ban, key: string, now: Instant,
      victim: Option<string>)
    requires i < |s.tables| && key != "" && g.limit > 0
    requires NoHitInsideBan(s, i, Some(last), key, g.window, now) && last.end <= now
    ensures FreshVerdict(p, s.book, s.tables[i], g, key, last.end, now, victim)
  {
    var hits: seq<Instant>, end: int := Windows.HitsOf(s.tables[i], key), last.end;
    SameRecent(hits, end - 1, now - g.window);
    VerdictOf(p, s.book, s.tables[i], g, key, now, victim);
  }

  lemma VerdictOf(p: Policy, b: Book, h: Windows.Hits, g: Gauge, key: string, now: Instant, victim: Option<string>)
    requires key != "" && BanOf(b, key, now).None? && g.limit > 0
    ensures AllowStep(p, b, h, g, key, now, victim).2 ==
        (|Windows.Recent(Windows.HitsOf(h, key), now - g.window)| < g.limit)
  {}

  /** Dropping first what a later cut drops anyway, or what is not there, changes nothing. */
  lemma {:induction false} SameRecent(times: seq<Instant>, first: int, cut: int)
    requires forall t | t in times :: t > first || t <= cut
    ensures Windows.Recent(Windows.Recent(times, first), cut) == Windows.Recent(times, cut)
  {
    if times != [] {
      var n := |times| - 1;
      assert times[n] in times && forall t | t in times[..n] :: t in times;
      SameRecent(times[..n], first, cut);
      Windows.SnocRecent(Windows.Recent(times[..n], first), times[n], cut);
    }
  }

  /** The wired server meets the assumption: every rung is at least the one-minute window. */
  lemma WiredRungsCover()
    ensures RungsCover(DEFAULT_POLICY, MINUTE)
  {}

  // ---------------------------------------------------------------- what the limiters do to book and windows

  /** A ban check, as operations on the book. */
  function CheckedOps(b: Book, key: string, at: Instant): seq<Op> {
    if key == "" then []
    else if BanOf(b, key, at).Some? then [Check(key, at), Note(key, at)]
    else [Check(key, at)]
  }

  /** A counted hit, as operations on the book: a strike if the window is full. */
  function CountOps(h: Windows.Hits, g: Gauge, counter: string, key: string, soft: bool, at: Instant,
      victim: Option<string>): seq<Op>
  {
    if key == "" || Windows.Record(h, g.limit, g.window, counter, at).1 then [] else [Strike(key, soft, at, victim)]
  }

  predicate Turned(b: Book, key: string, at: Instant) {
    key != "" && BanOf(b, key, at).Some?
  }

  /** The operations on the book inside a step: a full rate window strikes softly, a full
      fault counter strikes on the long ladder. */
  function BookOps(gauges: seq<Gauge>, s: Sys, act: Act): seq<Op>
    requires |s.tables| == |gauges|
  {
    match act
    case Admit(i, key, at, victim) =>
      CheckedOps(s.book, key, at)
      + if i >= |gauges| || Turned(s.book, key, at) then []
        else CountOps(s.tables[i], gauges[i], key, key, true, at, victim)
    case Guard(key, at) => CheckedOps(s.book, key, at)
    case Peek(key, at) => if key == "" then [] else [Check(key, at)]
    case Blame(i, counter, key, at, victim) =>
      if i >= |gauges| then [] else CountOps(s.tables[i], gauges[i], counter, key, false, at, victim)
    case SweepAll(at) => [Tidy(at)]
  }

  /** The operations on the i-th window inside a step: whoever is banned is not counted. */
  function WindowActs(s: Sys, act: Act, i: nat): seq<Windows.Op> {
    match act
    case Admit(j, key, at, _) => if j == i && !Turned(s.book, key, at) then [Windows.Hit(key, at)] else []
    case Blame(j, counter, _, at, _) => if j == i then [Windows.Hit(counter, at)] else []
    case SweepAll(at) => [Windows.Tidy(at)]
    case _ => []
  }

  function BookRun(p: Policy, gauges: seq<Gauge>, acts: seq<Act>): seq<Op> {
    if acts == [] then [] else
      var n := |acts| - 1;
      BookRun(p, gauges, acts[..n]) + BookOps(gauges, After(p, gauges, acts[..n]), acts[n])
  }

  function WindowRun(p: Policy, gauges: seq<Gauge>, acts: seq<Act>, i: nat): seq<Windows.Op> {
    if acts == [] then [] else
      var n := |acts| - 1;
      WindowRun(p, gauges, acts[..n], i) + WindowActs(After(p, gauges, acts[..n]), acts[n], i)
  }

  /** The book is the one that these operations lead to. */
  ghost predicate Follows(p: Policy, b: Book, ops: seq<Op>, now: Instant) {
    History(p, ops, now) && b == Run(p, ops)
  }

  lemma OneFollows(p: Policy, b: Book, ops: seq<Op>, op: Op)
    requires Follows(p, b, ops, op.at) && Possible(p, b, op)
    ensures Follows(p, Bans.Apply(p, b, op), ops + [op], op.at)
  {
    H.SnocHistory(p, ops, op);
  }

  lemma CheckedFollows(p: Policy, b: Book, ops: seq<Op>, key: string, at: Instant)
    requires Follows(p, b, ops, at)
    ensures Follows(p, Checked(b, key, at), ops + CheckedOps(b, key, at), at)
  {
    if key == "" {
      assert ops + [] == ops;
    } else {
      OneFollows(p, b, ops, Check(key, at));
      if BanOf(b, key, at).Some? {
        OneFollows(p, Look(b, key, at), ops + [Check(key, at)], Note(key, at));
        assert ops + [Check(key, at)] + [Note(key, at)] == ops + [Check(key, at), Note(key, at)];
      }
    }
  }

  lemma CountFollows(p: Policy, b: Book, ops: seq<Op>, h: Windows.Hits, g: Gauge, counter: string, key: string,
      soft: bool, at: Instant, victim: Option<string>)
    requires Follows(p, b, ops, at) && CountPossible(p, b, h, g, counter, key, soft, at, victim)
    ensures Follows(p, CountStep(p, b, h, g, counter, key, soft, at, victim).0,
                    ops + CountOps(h, g, counter, key, soft, at, victim), at)
  {
    if key == "" || Windows.Record(h, g.limit, g.window, counter, at).1 {
      assert ops + [] == ops;
    } else {
      OneFollows(p, b, ops, Strike(key, soft, at, victim));
    }
  }

  lemma AllowFollows(p: Policy, b: Book, ops: seq<Op>, h: Windows.Hits, g: Gauge, key: string, at: Instant,
      victim: Option<string>)
    requires Follows(p, b, ops, at) && AllowPossible(p, b, h, g, key, at, victim)
    ensures Follows(p, AllowStep(p, b, h, g, key, at, victim).0,
                    ops + (CheckedOps(b, key, at)
                           + if Turned(b, key, at) then [] else CountOps(h, g, key, key, true, at, victim)), at)
  {
    var checks := CheckedOps(b, key, at);
    CheckedFollows(p, b, ops, key, at);
    if Turned(b, key, at) {
      assert checks + [] == checks;
    } else {
      CountFollows(p, Checked(b, key, at), ops + checks, h, g, key, key, true, at, victim);
      assert ops + checks + CountOps(h, g, key, key, true, at, victim)
          == ops + (checks + CountOps(h, g, key, key, true, at, victim));
    }
  }

  lemma LookFollows(p: Policy, b: Book, ops: seq<Op>, key: string, at: Instant)
    requires Follows(p, b, ops, at)
    ensures Follows(p, Look(b, key, at), ops + if key == "" then [] else [Check(key, at)], at)
  {
    if key == "" {
      RunKeepsInv(p, ops, at);
      assert ops + [] == ops;
    } else {
      OneFollows(p, b, ops, Check(key, at));
    }
  }

  lemma ActFollows(p: Policy, gauges: seq<Gauge>, s: Sys, act: Act, ops: seq<Op>)
    requires |s.tables| == |gauges| && CanAct(p, gauges, s, act) && Follows(p, s.book, ops, act.at)
    ensures Follows(p, Next(p, gauges, s, act).book, ops + BookOps(gauges, s, act), act.at)
  {
    match act
    case Admit(i, key, at, victim) => AllowFollows(p, s.book, ops, s.tables[i], gauges[i], key, at, victim);
    case Guard(key, at) => CheckedFollows(p, s.book, ops, key, at);
    case Peek(key, at) => LookFollows(p, s.book, ops, key, at);
    case Blame(i, counter, key, at, victim) =>
      CountFollows(p, s.book, ops, s.tables[i], gauges[i], counter, key, false, at, victim);
    case SweepAll(at) => OneFollows(p, s.book, ops, Tidy(at));
  }

  /** Main result: every run of the limiters is a run of the book they share, so all that holds
      of strike histories holds here. */
  lemma {:induction false} BookFollows(p: Policy, gauges: seq<Gauge>, acts: seq<Act>, now: Instant)
    requires SysHistory(p, gauges, acts, now)
    ensures Follows(p, After(p, gauges, acts).book, BookRun(p, gauges, acts), now)
  {
    if acts != [] {
      var n := |acts| - 1;
      BookFollows(p, gauges, acts[..n], acts[n].at);
      ActFollows(p, gauges, After(p, gauges, acts[..n]), acts[n], BookRun(p, gauges, acts[..n]));
      H.LaterHistory(p, BookRun(p, gauges, acts), acts[n].at, now);
    }
  }

  lemma AllowCounts(p: Policy, b: Book, h: Windows.Hits, g: Gauge, key: string, at: Instant, victim: Option<string>)
    ensures AllowStep(p, b, h, g, key, at, victim).1 ==
            if Turned(b, key, at) then h else Windows.Apply(h, g.limit, g.window, Windows.Hit(key, at))
  {}

  lemma FaultCounts(p: Policy, b: Book, h: Windows.Hits, g: Gauge, counter: string, key: string, at: Instant,
      victim: Option<string>)
    ensures FaultStep(p, b, h, g, counter, key, at, victim).1
            == Windows.Apply(h, g.limit, g.window, Windows.Hit(counter, at))
  {}

  /** The i-th table after one step. */
  lemma TableAfter(p: Policy, gauges: seq<Gauge>, s: Sys, act: Act, i: nat)
    requires |s.tables| == |gauges| && i < |gauges|
    ensures var ops := WindowActs(s, act, i); var h := Next(p, gauges, s, act).tables[i];
            if ops == [] then h == s.tables[i]
            else
              && |ops| == 1 && ops[0].at == act.at
              && h == Windows.Apply(s.tables[i], gauges[i].limit, gauges[i].window, ops[0])
  {
    match act
    case Admit(j, key, at, victim) =>
      if j == i {
        AllowCounts(p, s.book, s.tables[i], gauges[i], key, at, victim);
      }
    case Blame(j, counter, key, at, victim) =>
      if j == i {
        FaultCounts(p, s.book, s.tables[i], gauges[i], counter, key, at, victim);
      }
    case _ =>
  }

  lemma WindowActFollows(p: Policy, gauges: seq<Gauge>, s: Sys, act: Act, i: nat, ops: seq<Windows.Op>)
    requires |s.tables| == |gauges| && i < |gauges| && Windows.Ordered(ops, act.at)
    requires s.tables[i] == Windows.Run(gauges[i].limit, gauges[i].window, ops)
    ensures Next(p, gauges, s, act).tables[i]
            == Windows.Run(gauges[i].limit, gauges[i].window, ops + WindowActs(s, act, i))
    ensures Windows.Ordered(ops + WindowActs(s, act, i), act.at)
  {
    var more := WindowActs(s, act, i);
    TableAfter(p, gauges, s, act, i);
    if more == [] {
      assert ops + more == ops;
    } else {
      assert more == [more[0]];
      Windows.SnocRun(gauges[i].limit, gauges[i].window, ops, more[0]);
      Windows.SnocOrdered(ops, more[0]);
    }
  }

  /** And of each window, so all that holds of windows holds here. */
  lemma {:induction false} WindowFollows(p: Policy, gauges: seq<Gauge>, acts: seq<Act>, now: Instant, i: nat)
    requires SysHistory(p, gauges, acts, now) && i < |gauges|
    ensures After(p, gauges, acts).tables[i]
            == Windows.Run(gauges[i].limit, gauges[i].window, WindowRun(p, gauges, acts, i))
    ensures Windows.Ordered(WindowRun(p, gauges, acts, i), now)
  {
    if acts != [] {
      var n := |acts| - 1;
      WindowFollows(p, gauges, acts[..n], acts[n].at, i);
      WindowActFollows(p, gauges, After(p, gauges, acts[..n]), acts[n], i, WindowRun(p, gauges, acts[..n], i));
      Windows.LaterIsOrdered(WindowRun(p, gauges, acts, i), acts[n].at, now);
    }
  }

  /** Main result: in every run of the limiters over one book, a caller is admitted if and only
      if the strikes against its key dictate no ban, and fewer than `limit` of its hits were
      accepted in the window. */
  lemma {:induction false} AdmittedExactly(
      p: Policy, gauges: seq<Gauge>, acts: seq<Act>, now: Instant, i: nat, key: string, victim: Option<string>)
    requires p.strikeDecay >= 0 && SysHistory(p, gauges, acts, now) && i < |gauges| && key != ""
    ensures var s := After(p, gauges, acts);
            AllowStep(p, s.book, s.tables[i], gauges[i], key, now, victim).2 <==>
              && H.BanBy(p, H.Since(BookRun(p, gauges, acts), key), now).None?
              && (gauges[i].limit <= 0 || HitsSpent(p, gauges, acts, i, key, now) < gauges[i].limit)
  {
    BookFollows(p, gauges, acts, now);
    WindowFollows(p, gauges, acts, now, i);
    H.HistoryDecides(p, BookRun(p, gauges, acts), key, now, true);
    if gauges[i].limit > 0 {
      Windows.WindowRefinesHistory(gauges[i].limit, gauges[i].window, WindowRun(p, gauges, acts, i), key, now);
    }
  }

  /** How many hits of the key the i-th window accepted in the window before `now`. */
  function HitsSpent(p: Policy, gauges: seq<Gauge>, acts: seq<Act>, i: nat, key: string, now: Instant): nat
    requires i < |gauges|
  {
    Windows.Spent(gauges[i].limit, gauges[i].window, WindowRun(p, gauges, acts, i), key, now)
  }

  // ---------------------------------------------------------------- which ladder is climbed

  /** The wired rungs, by the number of strikes of the kind that still count. */
  lemma WiredRungs(n: nat)
    ensures Rung(Ladder(DEFAULT_POLICY, false), n + 1) == FaultTerm(n)
    ensures Rung(Ladder(DEFAULT_POLICY, true), n + 1) == RateTerm(n)
  {}

  function FaultTerm(n: nat): nat {
    if n == 0 then 60 * SECOND else if n == 1 then 300 * SECOND else if n == 2 then 900 * SECOND
    else if n == 3 then 3_600 * SECOND else 86_400 * SECOND
  }

  function RateTerm(n: nat): nat {
    if n == 0 then 60 * SECOND else if n == 1 then 300 * SECOND else 900 * SECOND
  }

  /** The end of the ban that a strike imposes, by how many of its kind still count. */
  function Imposed(ops: seq<Op>, key: string, soft: bool, now: Instant): Instant {
    var n := H.OfKind(H.Streak(24 * HOUR, H.Since(ops, key), now), soft);
    now + if soft then RateTerm(n) else FaultTerm(n)
  }

  lemma StrikeImposes(p: Policy, b: Book, key: string, soft: bool, at: Instant, victim: Option<string>)
    requires Possible(p, b, Strike(key, soft, at, victim)) && Sentence(p, b, key, soft, at) > 0
    ensures BanOf(Bans.Apply(p, b, Strike(key, soft, at, victim)), key, at)
            == Some(at + Sentence(p, b, key, soft, at))
  {
    assert EntryOf(Evict(b, victim, at), key) == EntryOf(b, key);
  }

  lemma {:induction false} WiredSentence(ops: seq<Op>, b: Book, key: string, soft: bool, at: Instant)
    requires Follows(DEFAULT_POLICY, b, ops, at)
    ensures Sentence(DEFAULT_POLICY, b, key, soft, at) > 0
    ensures at + Sentence(DEFAULT_POLICY, b, key, soft, at) == Imposed(ops, key, soft, at)
  {
    H.HistoryDecides(DEFAULT_POLICY, ops, key, at, soft);
    WiredRungs(H.OfKind(H.Streak(24 * HOUR, H.Since(ops, key), at), soft));
  }

  lemma {:induction false} WiredStrikeBans(
      ops: seq<Op>, b: Book, key: string, soft: bool, at: Instant, victim: Option<string>)
    requires Follows(DEFAULT_POLICY, b, ops, at) && Possible(DEFAULT_POLICY, b, Strike(key, soft, at, victim))
    ensures BanOf(Bans.Apply(DEFAULT_POLICY, b, Strike(key, soft, at, victim)), key, at)
            == Some(Imposed(ops, key, soft, at))
  {
    WiredSentence(ops, b, key, soft, at);
    StrikeImposes(DEFAULT_POLICY, b, key, soft, at, victim);
  }

  lemma FullCounterStrikes(p: Policy, b: Book, h: Windows.Hits, g: Gauge, counter: string, key: string, now: Instant,
      victim: Option<string>)
    requires key != "" && !Windows.Record(h, g.limit, g.window, counter, now).1
    requires FaultPossible(p, b, h, g, counter, key, now, victim)
    ensures Possible(p, b, Strike(key, false, now, victim))
    ensures FaultStep(p, b, h, g, counter, key, now, victim).0 == Bans.Apply(p, b, Strike(key, false, now, victim))
  {}

  /** Main result: in every run of the wired server, a fault that finds its counter full bans
      for 1, 5, 15 or 60 minutes, and from the fifth strike within the decay on for a day. */
  lemma {:induction false} FaultsClimbToADay(gauges: seq<Gauge>, acts: seq<Act>, i: nat, counter: string, key: string,
      now: Instant, victim: Option<string>)
    requires SysHistory(DEFAULT_POLICY, gauges, acts, now) && i < |gauges| && key != ""
    requires var s := After(DEFAULT_POLICY, gauges, acts); var g := gauges[i];
             && FaultPossible(DEFAULT_POLICY, s.book, s.tables[i], g, counter, key, now, victim)
             && !Windows.Record(s.tables[i], g.limit, g.window, counter, now).1
    ensures var s := After(DEFAULT_POLICY, gauges, acts);
            BanOf(FaultStep(DEFAULT_POLICY, s.book, s.tables[i], gauges[i], counter, key, now, victim).0, key, now)
            == Some(Imposed(BookRun(DEFAULT_POLICY, gauges, acts), key, false, now))
  {
    var s := After(DEFAULT_POLICY, gauges, acts);
    BookFollows(DEFAULT_POLICY, gauges, acts, now);
    FullCounterStrikes(DEFAULT_POLICY, s.book, s.tables[i], gauges[i], counter, key, now, victim);
    WiredStrikeBans(BookRun(DEFAULT_POLICY, gauges, acts), s.book, key, false, now, victim);
  }

  lemma FullWindowStrikes(p: Policy, b: Book, h: Windows.Hits, g: Gauge, key: string, now: Instant,
      victim: Option<string>)
    requires key != "" && BanOf(b, key, now).None? && !Windows.Record(h, g.limit, g.window, key, now).1
    requires AllowPossible(p, b, h, g, key, now, victim)
    ensures Possible(p, Look(b, key, now), Strike(key, true, now, victim))
    ensures AllowStep(p, b, h, g, key, now, victim).0
            == Bans.Apply(p, Look(b, key, now), Strike(key, true, now, victim))
  {}

  lemma SinceIgnoresChecks(ops: seq<Op>, key: string, now: Instant)
    ensures H.Since(ops + [Check(key, now)], key) == H.Since(ops, key)
  {
    assert (ops + [Check(key, now)])[..|ops|] == ops;
  }

  lemma {:induction false} WiredTripBans(ops: seq<Op>, b: Book, h: Windows.Hits, g: Gauge, key: string, now: Instant,
      victim: Option<string>)
    requires Follows(DEFAULT_POLICY, b, ops, now)
    requires key != "" && BanOf(b, key, now).None? && !Windows.Record(h, g.limit, g.window, key, now).1
    requires AllowPossible(DEFAULT_POLICY, b, h, g, key, now, victim)
    ensures BanOf(AllowStep(DEFAULT_POLICY, b, h, g, key, now, victim).0, key, now) ==
        Some(Imposed(ops, key, true, now))
  {
    OneFollows(DEFAULT_POLICY, b, ops, Check(key, now));
    FullWindowStrikes(DEFAULT_POLICY, b, h, g, key, now, victim);
    WiredStrikeBans(ops + [Check(key, now)], Look(b, key, now), key, true, now, victim);
    SinceIgnoresChecks(ops, key, now);
  }

  /** Main result: a caller that finds its rate window full is banned for 1, 5 or 15 minutes,
      by the rate strikes that still count against it. */
  lemma {:induction false} RateTripsClimbToAQuarter(gauges: seq<Gauge>, acts: seq<Act>, i: nat, key: string,
      now: Instant,
      victim: Option<string>)
    requires SysHistory(DEFAULT_POLICY, gauges, acts, now) && i < |gauges| && key != ""
    requires var s := After(DEFAULT_POLICY, gauges, acts); var g := gauges[i];
             && BanOf(s.book, key, now).None?
             && AllowPossible(DEFAULT_POLICY, s.book, s.tables[i], g, key, now, victim)
             && !Windows.Record(s.tables[i], g.limit, g.window, key, now).1
    ensures var s := After(DEFAULT_POLICY, gauges, acts);
            BanOf(AllowStep(DEFAULT_POLICY, s.book, s.tables[i], gauges[i], key, now, victim).0, key, now)
            == Some(Imposed(BookRun(DEFAULT_POLICY, gauges, acts), key, true, now))
  {
    var s := After(DEFAULT_POLICY, gauges, acts);
    BookFollows(DEFAULT_POLICY, gauges, acts, now);
    WiredTripBans(BookRun(DEFAULT_POLICY, gauges, acts), s.book, s.tables[i], gauges[i], key, now, victim);
  }

  ghost predicate NeverBlamed(acts: seq<Act>, key: string) {
    acts == [] || (var n := |acts| - 1; NeverBlamed(acts[..n], key) && !(acts[n].Blame? && acts[n].key == key))
  }

  /** All these strikes are soft, and past. */
  ghost predicate SoftOnly(blows: seq<H.Blow>, now: Instant) {
    forall i | 0 <= i < |blows| :: blows[i].soft && blows[i].at <= now
  }

  lemma OneStaysSoft(ops: seq<Op>, op: Op, key: string, now: Instant)
    requires SoftOnly(H.Since(ops, key), now) && op.at <= now
    requires op.Strike? && op.key == key ==> op.soft
    ensures SoftOnly(H.Since(ops + [op], key), now)
  {
    assert (ops + [op])[..|ops|] == ops;
  }

  /** A step that is no blame of the key strikes it softly, if at all. */
  predicate Mild(op: Op, key: string, at: Instant) {
    op.at == at && (op.Strike? && op.key == key ==> op.soft)
  }

  lemma ActIsMild(gauges: seq<Gauge>, s: Sys, act: Act, key: string)
    requires |s.tables| == |gauges| && !(act.Blame? && act.key == key)
    ensures forall op | op in BookOps(gauges, s, act) :: Mild(op, key, act.at)
  {}

  lemma {:induction false} MildStaysSoft(ops: seq<Op>, more: seq<Op>, key: string, now: Instant)
    requires SoftOnly(H.Since(ops, key), now) && forall op | op in more :: Mild(op, key, now)
    ensures SoftOnly(H.Since(ops + more, key), now)
  {
    if more == [] {
      assert ops + more == ops;
    } else {
      var n := |more| - 1;
      assert forall op | op in more[..n] :: op in more;
      MildStaysSoft(ops, more[..n], key, now);
      assert more[n] in more;
      OneStaysSoft(ops + more[..n], more[n], key, now);
      assert ops + more == ops + more[..n] + [more[n]];
    }
  }

  lemma {:induction false} UnblamedStaysSoft(p: Policy, gauges: seq<Gauge>, acts: seq<Act>, key: string, now: Instant)
    requires SysHistory(p, gauges, acts, now) && NeverBlamed(acts, key)
    ensures SoftOnly(H.Since(BookRun(p, gauges, acts), key), now)
  {
    if acts != [] {
      var n := |acts| - 1;
      UnblamedStaysSoft(p, gauges, acts[..n], key, acts[n].at);
      var s := After(p, gauges, acts[..n]);
      ActIsMild(gauges, s, acts[n], key);
      MildStaysSoft(BookRun(p, gauges, acts[..n]), BookOps(gauges, s, acts[n]), key, acts[n].at);
    }
  }

  /** Main result: a key that is never blamed for a fault is never banned beyond 15 minutes
      from now, however often it trips its rate limits. */
  lemma {:induction false} RateTripsStayShort(gauges: seq<Gauge>, acts: seq<Act>, key: string, now: Instant)
    requires SysHistory(DEFAULT_POLICY, gauges, acts, now) && NeverBlamed(acts, key)
    ensures var ban := BanOf(After(DEFAULT_POLICY, gauges, acts).book, key, now);
            ban.Some? ==> ban.value <= now + 15 * MINUTE
  {
    var blows := H.Since(BookRun(DEFAULT_POLICY, gauges, acts), key);
    BookFollows(DEFAULT_POLICY, gauges, acts, now);
    UnblamedStaysSoft(DEFAULT_POLICY, gauges, acts, key, now);
    H.HistoryDecides(DEFAULT_POLICY, BookRun(DEFAULT_POLICY, gauges, acts), key, now, true);
    if blows != [] {
      H.SoftBansStayShort(blows);
    }
  }
}
