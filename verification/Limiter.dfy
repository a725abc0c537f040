/** The objects that admit requests: Limiter (ratelimit/guard.go, ratelimit/http.go), the
    fault counter of the introducer (signal/handler.go) and the bad-ticket counter of the
    relay (server/wire.go). */
module Limiters {
  import opened Clock
  import opened Options
  import opened Bans
  import opened Addresses
  import opened Banbooks
  import opened W = Windows
  import opened Limits

  /** Admit's outcome: proceed, or 429 with a Retry-After in seconds. */
  datatype Admission = Proceed | TooMany(retryAfter: nat)

  /** Whole seconds until the end of a ban, with 60 standing for less than one. */
  function RetryAfter(until: Instant, now: Instant): (secs: nat)
    ensures secs > 0 && (until - now < SECOND ==> secs == 60)
    ensures until - now >= SECOND ==> secs * SECOND <= until - now < (secs + 1) * SECOND
  {
    if until - now < SECOND then 60 else (until - now) / SECOND
  }

  /** What a Retry-After counts down to: the end of the ban, or a minute from now. */
  function EndOf(b: Book, key: string, now: Instant): Instant {
    if BanOf(b, key, now).Some? then BanOf(b, key, now).value else now + MINUTE
  }

  function Answer(b: Book, key: string, now: Instant, ok: bool): Admission {
    if ok then Proceed else TooMany(RetryAfter(EndOf(b, key, now), now))
  }

  /** Limiter with a book and a soft window, as /v1/client and /v1/agent use it. */
  class Limiter {
    const bans: Banbook
    const soft: Window

    constructor (bans: Banbook, soft: Window)
      ensures this.bans == bans && this.soft == soft
    {
      this.bans, this.soft := bans, soft;
    }

    ghost predicate Valid()
      reads this, bans, bans.owner.Keys, soft, soft.owner.Keys
    {
      bans.Valid() && Bounded(bans.policy, bans.book) && soft.Valid()
    }

    ghost function Gauge(): Limits.Gauge {
      Limits.Gauge(soft.limit, soft.window)
    }

    method CheckBan(address: string, now: Instant) returns (banned: bool, until: Instant)
      requires Valid() && Canonical(bans.net, address)
      modifies bans`book, bans`rejectedBanned, bans.owner.Keys
      ensures Valid()
      ensures var key := BanKey(bans.net, address);
              && bans.book == Checked(old(bans.book), key, now)
              && if key == "" then !banned else BanOf(old(bans.book), key, now) == if banned then Some(until) else None
    {
      var key := ComputeBanKey(bans.net, address);
      CheckKeepsBound(bans.policy, bans.book, key, now);
      banned, until := bans.Check(key, now);
    }

    method Allow(address: string, now: Instant) returns (ok: bool, ghost victim: Option<string>)
      requires Valid() && Canonical(bans.net, address)
      modifies bans, bans.owner.Keys, soft, soft.owner.Keys
      ensures Valid()
      ensures fresh(bans.owner.Keys - old(bans.owner.Keys)) && fresh(soft.owner.Keys - old(soft.owner.Keys))
      ensures var key := BanKey(bans.net, address);
              && AllowPossible(bans.policy, old(bans.book), old(soft.contents), Gauge(), key, now, victim)
              && (bans.book, soft.contents, ok) ==
                 AllowStep(bans.policy, old(bans.book), old(soft.contents), Gauge(), key, now, victim)
    {
      var key := ComputeBanKey(bans.net, address);
      var banned, _ := CheckBan(address, now);
      if banned {
        return false, None;
      }
      ok, victim := Count(key, key, true, now);
    }

    /** A hit in the soft window; a strike if that is full. */
    method Count(counter: string, address: string, mild: bool, now: Instant)
      returns (ok: bool, ghost victim: Option<string>)
      requires Valid() && Canonical(bans.net, address)
      modifies bans, bans.owner.Keys, soft, soft.owner.Keys
      ensures Valid()
      ensures fresh(bans.owner.Keys - old(bans.owner.Keys)) && fresh(soft.owner.Keys - old(soft.owner.Keys))
      ensures var key := BanKey(bans.net, address);
              && CountPossible(bans.policy, old(bans.book), old(soft.contents), Gauge(), counter, key, mild, now,
                  victim)
              && (bans.book, soft.contents, ok) ==
                 CountStep(bans.policy, old(bans.book), old(soft.contents), Gauge(), counter, key, mild, now, victim)
    {
      ok := soft.Allow(counter, now);
      victim := None;
      if !ok {
        victim := Strike(address, mild, now);
      }
    }

    /** SoftStrike or Strike on the shared book. */
    method Strike(address: string, mild: bool, now: Instant) returns (ghost victim: Option<string>)
      requires Valid()
      modifies bans, bans.owner.Keys
      ensures Valid() && fresh(bans.owner.Keys - old(bans.owner.Keys))
      ensures address == "" ==> bans.book == old(bans.book)
      ensures address != "" ==>
                var op := Bans.Strike(BanKey(bans.net, address), mild, now, victim);
                && Possible(bans.policy, old(bans.book), op)
                && bans.book == Bans.Apply(bans.policy, old(bans.book), op)
    {
      ghost var b := bans.book;
      var _, v := bans.StrikeKey(address, mild, now);
      victim := v;
      if address != "" {
        StepKeepsBound(bans.policy, b, Bans.Strike(BanKey(bans.net, address), mild, now, victim));
      }
    }

    /** Admit, with the HTTP answer as a value. */
    method Admit(address: string, now: Instant) returns (answer: Admission, ghost victim: Option<string>)
      requires Valid() && Canonical(bans.net, address)
      modifies bans, bans.owner.Keys, soft, soft.owner.Keys
      ensures Valid()
      ensures var key := BanKey(bans.net, address);
              var (b, h, ok) := AdmitStep(bans.policy, old(bans.book), old(soft.contents), Gauge(), key, now, victim);
              && AdmitPossible(bans.policy, old(bans.book), old(soft.contents), Gauge(), key, now, victim)
              && bans.book == b && soft.contents == h && answer == Answer(b, key, now, ok)
    {
      victim := None;
      var banned, until := CheckBan(address, now);
      if banned {
        return TooMany(RetryAfter(until, now)), None;
      }
      answer, victim := AllowOrWait(address, now);
    }

    method AllowOrWait(address: string, now: Instant) returns (answer: Admission, ghost victim: Option<string>)
      requires Valid() && Canonical(bans.net, address)
      modifies bans, bans.owner.Keys, soft, soft.owner.Keys
      ensures Valid()
      ensures var key := BanKey(bans.net, address);
              && AllowPossible(bans.policy, old(bans.book), old(soft.contents), Gauge(), key, now, victim)
              && (bans.book, soft.contents, answer == Proceed)
                 == AdmitUnbanned(bans.policy, old(bans.book), old(soft.contents), Gauge(), key, now, victim)
              && answer == Answer(bans.book, key, now, answer == Proceed)
    {
      var ok, v := Allow(address, now);
      victim := v;
      if ok {
        return Proceed, victim;
      }
      var until := BanEndOrMinute(address, now);
      return TooMany(RetryAfter(until, now)), victim;
    }

    /** Admit's second look at the book. */
    method BanEndOrMinute(address: string, now: Instant) returns (until: Instant)
      requires Valid() && Canonical(bans.net, address)
      modifies bans`book, bans.owner.Keys
      ensures Valid()
      ensures var key := BanKey(bans.net, address);
              && bans.book == (if key == "" then old(bans.book) else Look(old(bans.book), key, now))
              && until == EndOf(bans.book, key, now)
    {
      ghost var key := BanKey(bans.net, address);
      if key != "" {
        StepKeepsBound(bans.policy, bans.book, Check(key, now));
      }
      until := now + MINUTE;
      var b, u := bans.Blocked(address, now);
      if b {
        until := u;
      }
    }

    method NoteFault(address: string, now: Instant) returns (ghost victim: Option<string>)
      requires Valid() && Canonical(bans.net, address)
      modifies bans, bans.owner.Keys, soft, soft.owner.Keys
      ensures Valid()
      ensures address == "" ==> bans.book == old(bans.book) && soft.contents == old(soft.contents)
      ensures address != "" ==>
                var key := BanKey(bans.net, address);
                && FaultPossible(bans.policy, old(bans.book), old(soft.contents), Gauge(), PROTO + key, key, now,
                    victim)
                && (bans.book, soft.contents) ==
                   FaultStep(bans.policy, old(bans.book), old(soft.contents), Gauge(), PROTO + key, key, now, victim)
    {
      victim := None;
      if address == "" {
        return;
      }
      var key := ComputeBanKey(bans.net, address);
      var _, v := Count(PROTO + key, address, false, now);
      victim := v;
    }

    method NoteBadTicket(address: string, now: Instant) returns (ghost victim: Option<string>)
      requires Valid() && Canonical(bans.net, address)
      modifies bans, bans.owner.Keys, soft, soft.owner.Keys
      ensures Valid()
      ensures var key := BanKey(bans.net, address);
              && FaultPossible(bans.policy, old(bans.book), old(soft.contents), Gauge(), BAD_TICKET + address, key,
                  now, victim)
              && (bans.book, soft.contents) ==
                 FaultStep(bans.policy, old(bans.book), old(soft.contents), Gauge(), BAD_TICKET + address, key, now,
                     victim)
    {
      var _, v := Count(BAD_TICKET + address, address, false, now);
      victim := v;
    }
  }

  /** Whoever Admit turns away is told to come back when the ban it is under ends, to the
      second; or in a minute, when less than a second is left. */
  lemma TurnedAwayUntilTheBanEnds(p: Policy, b: Book, h: Hits, g: Limits.Gauge, key: string, now: Instant,
      victim: Option<string>)
    requires key != "" && RungsCover(p, 1)
    ensures var (b', _, ok) := AdmitStep(p, b, h, g, key, now, victim); var answer := Answer(b', key, now, ok);
            if ok then answer == Proceed && BanOf(b', key, now).None?
            else
              && BanOf(b', key, now).Some? && answer.TooMany?
              && var left := BanOf(b', key, now).value - now;
              if left < SECOND then answer.retryAfter == 60
              else answer.retryAfter * SECOND <= left < (answer.retryAfter + 1) * SECOND
  {
    TurnedAwayMeansBanned(p, b, h, g, key, now, victim);
  }

  /** Two addresses of one IPv6 /64 share one entry in the book, but not the budget of bad
      tickets: when `limit` of the first have come in, one more from it strikes the key they
      share, and one from the second does not. */
  lemma OneRangeTwoBudgets(net: Net, ip1: string, ip2: string, p: Policy, b: Book, g: Limits.Gauge, now: Instant,
      victim: Option<string>)
    requires ip1 != ip2 && net.parse(ip1).V6? && net.parse(ip2).V6? && net.parse(ip1).v6[..8] == net.parse(ip2).v6[..8]
    requires g.limit > 0 && g.window > 0
    ensures BanKey(net, ip1) == BanKey(net, ip2) != ""
    ensures var h := W.Run(g.limit, g.window, WindowOps(BadTickets(ip1, g.limit, now)));
            var key := BanKey(net, ip1);
            && FaultStep(p, b, h, g, BAD_TICKET + ip1, key, now, victim).0.strikesTotal == b.strikesTotal + 1
            && FaultStep(p, b, h, g, BAD_TICKET + ip2, key, now, victim).0.strikesTotal == b.strikesTotal
  {
    assert Prefix(net.parse(ip1).v6) == Prefix(net.parse(ip2).v6);
    var uses := BadTickets(ip1, g.limit, now);
    BadTicketsAreOrdered(ip1, g.limit, now);
    BadTicketsAreNoRates(ip1, g.limit, now);
    BadTicketsSpendOwnBudget(g, ip1, ip1, g.limit, now);
    BadTicketsSpendOwnBudget(g, ip1, ip2, g.limit, now);
    BadTicketStrikesExactly(p, b, g, uses, ip1, BanKey(net, ip1), now, victim);
    BadTicketStrikesExactly(p, b, g, uses, ip2, BanKey(net, ip1), now, victim);
  }
}
