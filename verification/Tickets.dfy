/** Relay tickets: issue, verify once, rotate the signing key, forget the used ones
    (ticket/ticket.go). The state is a value; every operation takes its clock reading. */
module Tickets {
  import opened Clock
  import opened Options
  import opened Octets

  datatype Ticket = Ticket(sid: string, exp: int, role: string)

  /** Ed25519 and the JSON codec, as black boxes. `pub` is the public half of a private key. */
  datatype Crypto = Crypto(
    pub: Bytes -> Bytes, sign: (Bytes, Bytes) -> Bytes, verify: (Bytes, Bytes, Bytes) -> bool,
    marshal: Ticket -> Bytes, unmarshal: Bytes -> Option<Ticket>)

  /** All that is assumed of them: signatures verify, and marshalling loses nothing. */
  ghost predicate Sound(c: Crypto) {
    && (forall key, m :: c.verify(c.pub(key), m, c.sign(key, m)))
    && (forall t :: c.unmarshal(c.marshal(t)) == Some(t))
  }

  datatype Mgr = Mgr(key: Bytes, prevPub: Option<Bytes>, prevUntil: Instant, rotated: Instant, used: map<string, int>)

  const MAX_ISSUE_TTL: Duration := 30 * SECOND

  function New(key: Bytes, now: Instant): Mgr {
    Mgr(key, None, ZERO_TIME, now, map[])
  }

  // ---------------------------------------------------------------- the ticket text

  /** The text before the first dot, and the text after it. */
  function SplitDot(s: string): Option<(string, string)> {
    if s == "" then None
    else if s[0] == '.' then Some(("", s[1..]))
    else
      match SplitDot(s[1..])
      case None => None
      case Some((a, b)) => Some(([s[0]] + a, b))
  }

  /** splitDot's index loop. */
  method FindDot(s: string) returns (r: Option<(string, string)>)
    ensures r == SplitDot(s)
  {
    var i := 0;
    assert s[..0] == "" && s[0..] == s && forall a: string :: "" + a == a;
    while i < |s| && s[i] != '.'
      invariant 0 <= i <= |s|
      invariant SplitDot(s) == match SplitDot(s[i..]) case None => None case Some((a, b)) => Some((s[..i] + a, b))
    {
      assert s[i..][1..] == s[i + 1..];
      assert forall a: string :: s[..i] + ([s[i]] + a) == s[..i + 1] + a;
      i := i + 1;
    }
    if i == |s| {
      return None;
    }
    assert s[i..][1..] == s[i + 1..] && s[..i] + "" == s[..i];
    return Some((s[..i], s[i + 1..]));
  }

  lemma {:induction false} SplitJoined(a: string, b: string)
    requires '.' !in a
    ensures SplitDot(a + "." + b) == Some((a, b))
  {
    if a == "" {
      assert ("" + "." + b)[1..] == b;
    } else {
      SplitJoined(a[1..], b);
      assert (a + "." + b)[1..] == a[1..] + "." + b;
      assert [a[0]] + a[1..] == a;
    }
  }

  function Text(raw: Bytes, sig: Bytes): string {
    Encode(raw) + "." + Encode(sig)
  }

  /** What Verify reads from a text before it looks at any key. */
  function Read(s: string): Option<(Bytes, Bytes)> {
    match SplitDot(s)
    case None => None
    case Some((a, b)) =>
      match (Decode(a), Decode(b))
      case (Some(raw), Some(sig)) => Some((raw, sig))
      case _ => None
  }

  /** The ticket text is read back exactly, for all payload and signature bytes. */
  lemma TextRoundTrip(raw: Bytes, sig: Bytes)
    ensures Read(Text(raw, sig)) == Some((raw, sig))
  {
    OnlySymbols(raw, '.');
    SplitJoined(Encode(raw), Encode(sig));
    RoundTrip(raw);
    RoundTrip(sig);
  }

  /** The text that Issue would write for what this text says. */
  predicate Canonical(s: string) {
    Read(s).Some? ==> s == Text(Read(s).value.0, Read(s).value.1)
  }

  /** Not every text is: the decoder skips a line break at the end. */
  lemma LineBreakReadsAlike(raw: Bytes, sig: Bytes)
    ensures Read(Text(raw, sig) + "\n") == Some((raw, sig))
  {
    OnlySymbols(raw, '.');
    SplitJoined(Encode(raw), Encode(sig) + "\n");
    assert Text(raw, sig) + "\n" == Encode(raw) + "." + (Encode(sig) + "\n");
    RoundTrip(raw);
    RoundTrip(sig);
    BreakAtEnd(Encode(sig));
  }

  /** The ticket a text stands for, whoever signed it. */
  function TicketOf(c: Crypto, s: string): Option<Ticket> {
    match Read(s)
    case None => None
    case Some((raw, _)) => c.unmarshal(raw)
  }

  lemma IssuedReadsBack(c: Crypto, m: Mgr, sid: string, role: string, ttl: Duration, now: Instant)
    requires Sound(c)
    ensures TicketOf(c, Issue(c, m, sid, role, ttl, now)) == Some(Stamp(sid, role, ttl, now))
  {
    var raw := c.marshal(Stamp(sid, role, ttl, now));
    TextRoundTrip(raw, c.sign(m.key, raw));
  }

  // ---------------------------------------------------------------- one operation

  function Lifetime(ttl: Duration): Duration {
    if ttl <= 0 || ttl > MAX_ISSUE_TTL then MAX_ISSUE_TTL else ttl
  }

  function Stamp(sid: string, role: string, ttl: Duration, now: Instant): Ticket {
    Ticket(sid, Unix(now + Lifetime(ttl)), role)
  }

  function Issue(c: Crypto, m: Mgr, sid: string, role: string, ttl: Duration, now: Instant): string {
    var raw := c.marshal(Stamp(sid, role, ttl, now));
    Text(raw, c.sign(m.key, raw))
  }

  datatype Refusal = BadText | BadSignature | BadPayload | Expired | Reused
  datatype Verdict = Accepted(ticket: Ticket) | Refused(why: Refusal)

  function Signed(c: Crypto, m: Mgr, raw: Bytes, sig: Bytes): bool {
    c.verify(c.pub(m.key), raw, sig) || (m.prevPub.Some? && c.verify(m.prevPub.value, raw, sig))
  }

  function Judge(c: Crypto, m: Mgr, s: string, now: Instant): Verdict {
    match Read(s)
    case None => Refused(BadText)
    case Some((raw, sig)) =>
      if !Signed(c, m, raw, sig) then Refused(BadSignature) else
        match c.unmarshal(raw)
        case None => Refused(BadPayload)
        case Some(t) =>
          if Unix(now) > t.exp then Refused(Expired)
          else if s in m.used then Refused(Reused)
          else Accepted(t)
  }

  function Verify(c: Crypto, m: Mgr, s: string, now: Instant): Mgr {
    match Judge(c, m, s, now)
    case Accepted(t) => m.(used := m.used[s := t.exp])
    case Refused(_) => m
  }

  /** A due rotation, if a fresh key could be made. */
  function Rotate(c: Crypto, m: Mgr, now: Instant, next: Option<Bytes>): Mgr {
    if now - m.rotated < HOUR || next.None? then m else
      Mgr(next.value, Some(c.pub(m.key)), now + MAX_ISSUE_TTL + SECOND, now, m.used)
  }

  function DropPrev(m: Mgr, now: Instant): Mgr {
    if m.prevPub.Some? && now >= m.prevUntil then m.(prevPub := None, prevUntil := ZERO_TIME) else m
  }

  /** The used texts once all but `todo` have been looked at, and dropped if expired. */
  function Unexpired(used: map<string, int>, now: Instant, todo: set<string>): map<string, int> {
    map s | s in used && (s in todo || Unix(now) <= used[s]) :: used[s]
  }

  function Sweep(c: Crypto, m: Mgr, now: Instant, next: Option<Bytes>): Mgr {
    var r := DropPrev(Rotate(c, m, now, next), now);
    r.(used := Unexpired(m.used, now, {}))
  }

  // ---------------------------------------------------------------- runs

  datatype Op =
    | Grant(sid: string, role: string, ttl: Duration, at: Instant)
    | Present(text: string, at: Instant)
    | Tidy(at: Instant, next: Option<Bytes>)

  function Apply(c: Crypto, m: Mgr, op: Op): Mgr {
    match op
    case Grant(_, _, _, _) => m
    case Present(text, at) => Verify(c, m, text, at)
    case Tidy(at, next) => Sweep(c, m, at, next)
  }

  function Run(c: Crypto, m: Mgr, ops: seq<Op>): Mgr {
    if ops == [] then m else Apply(c, Run(c, m, ops[..|ops| - 1]), ops[|ops| - 1])
  }

  /** The clock never goes back from `start` over the run and up to `now`. */
  ghost predicate Ordered(start: Instant, ops: seq<Op>, now: Instant) {
    if ops == [] then start <= now else
      var n := |ops| - 1; ops[n].at <= now && Ordered(start, ops[..n], ops[n].at)
  }

  ghost predicate NeverPresented(ops: seq<Op>, text: string) {
    ops == [] || (var n := |ops| - 1; NeverPresented(ops[..n], text) && !(ops[n].Present? && ops[n].text == text))
  }

  // ---------------------------------------------------------------- no valid ticket is lost

  lemma {:induction false} NotUsed(c: Crypto, m: Mgr, ops: seq<Op>, text: string)
    requires text !in m.used && NeverPresented(ops, text)
    ensures text !in Run(c, m, ops).used
  {
    if ops != [] {
      NotUsed(c, m, ops[..|ops| - 1], text);
    }
  }

  /** The key that signed at `issued` still counts, until the grace period is over. */
  ghost predicate StillCounts(c: Crypto, m: Mgr, key: Bytes, issued: Instant, now: Instant) {
    now < issued + MAX_ISSUE_TTL + SECOND ==>
      || m.key == key
      || (m.prevPub == Some(c.pub(key)) && issued <= m.rotated && issued + MAX_ISSUE_TTL + SECOND <= m.prevUntil)
  }

  lemma StepStillCounts(c: Crypto, m: Mgr, op: Op, key: Bytes, issued: Instant)
    requires StillCounts(c, m, key, issued, op.at) && issued <= op.at
    ensures StillCounts(c, Apply(c, m, op), key, issued, op.at)
  {}

  lemma {:induction false} KeyStillCounts(c: Crypto, m: Mgr, ops: seq<Op>, issued: Instant, now: Instant)
    requires Ordered(issued, ops, now)
    ensures StillCounts(c, Run(c, m, ops), m.key, issued, now)
  {
    if ops != [] {
      var n := |ops| - 1;
      KeyStillCounts(c, m, ops[..n], issued, ops[n].at);
      OrderedSpan(issued, ops[..n], ops[n].at);
    }
  }

  lemma {:induction false} OrderedSpan(start: Instant, ops: seq<Op>, now: Instant)
    requires Ordered(start, ops, now)
    ensures start <= now
  {
    if ops != [] {
      OrderedSpan(start, ops[..|ops| - 1], ops[|ops| - 1].at);
    }
  }

  /** The expiry is floored to a second, so a ticket dies within the grace of 31 seconds. */
  lemma ExpiryIsWithinGrace(sid: string, role: string, ttl: Duration, issued: Instant, now: Instant)
    requires Unix(now) <= Stamp(sid, role, ttl, issued).exp
    ensures now < issued + MAX_ISSUE_TTL + SECOND
  {
    var e := Stamp(sid, role, ttl, issued).exp;
    assert now < (e + 1 + UNIX_EPOCH) * SECOND;
    assert e - 1 < e;
    assert !(Unix(issued + Lifetime(ttl)) <= e - 1);
    assert (e - 1) * SECOND == e * SECOND - SECOND;
    assert issued + Lifetime(ttl) >= (e + UNIX_EPOCH) * SECOND;
  }

  /** The reading `r` is ticket `t`, signed at `issued` with the present key. */
  ghost predicate Minted(c: Crypto, m: Mgr, r: (Bytes, Bytes), t: Ticket, issued: Instant) {
    && c.unmarshal(r.0) == Some(t)
    && c.verify(c.pub(m.key), r.0, r.1)
    && forall now: Instant :: Unix(now) <= t.exp ==> now < issued + MAX_ISSUE_TTL + SECOND
  }

  lemma IssueMints(c: Crypto, m: Mgr, sid: string, role: string, ttl: Duration, issued: Instant)
    requires Sound(c)
    ensures var r := Read(Issue(c, m, sid, role, ttl, issued));
            r.Some? && Minted(c, m, r.value, Stamp(sid, role, ttl, issued), issued)
  {
    var t := Stamp(sid, role, ttl, issued);
    var raw := c.marshal(t);
    TextRoundTrip(raw, c.sign(m.key, raw));
    forall now: Instant | Unix(now) <= t.exp ensures now < issued + MAX_ISSUE_TTL + SECOND {
      ExpiryIsWithinGrace(sid, role, ttl, issued, now);
    }
  }

  lemma MintedStaysSigned(c: Crypto, m: Mgr, r: (Bytes, Bytes), t: Ticket, issued: Instant, ops: seq<Op>, now: Instant)
    requires Minted(c, m, r, t, issued) && Ordered(issued, ops, now) && Unix(now) <= t.exp
    ensures Signed(c, Run(c, m, ops), r.0, r.1)
  {
    KeyStillCounts(c, m, ops, issued, now);
  }

  /** A text that nobody has presented is honoured until the ticket expires, whatever became
      of other texts. */
  lemma {:induction false} HonouredOnFirstUse(c: Crypto, m: Mgr, r: (Bytes, Bytes), t: Ticket, issued: Instant,
      ops: seq<Op>, now: Instant, text: string)
    requires Minted(c, m, r, t, issued) && Ordered(issued, ops, now)
    requires Read(text) == Some(r) && text !in m.used && NeverPresented(ops, text)
    ensures Judge(c, Run(c, m, ops), text, now) == Accepted(t) <==> Unix(now) <= t.exp
  {
    NotUsed(c, m, ops, text);
    if Unix(now) <= t.exp {
      MintedStaysSigned(c, m, r, t, issued, ops, now);
    }
  }

  /** Main result: in every run on a clock that never goes back, whatever sweeps rotate or
      drop keys, a ticket that was issued and never presented is accepted at exactly the
      instants its floored expiry allows, and says what Issue signed. */
  lemma {:induction false} NoTicketIsLost(
      c: Crypto, key: Bytes, start: Instant, before: seq<Op>,
      sid: string, role: string, ttl: Duration, issued: Instant, between: seq<Op>, now: Instant)
    requires Sound(c) && Ordered(start, before, issued) && Ordered(issued, between, now)
    requires var text := Issue(c, Run(c, New(key, start), before), sid, role, ttl, issued);
             NeverPresented(before, text) && NeverPresented(between, text)
    ensures var m := Run(c, New(key, start), before); var t := Stamp(sid, role, ttl, issued);
            Judge(c, Run(c, m, between), Issue(c, m, sid, role, ttl, issued), now) == Accepted(t)
            <==> Unix(now) <= t.exp
  {
    var m := Run(c, New(key, start), before);
    var text := Issue(c, m, sid, role, ttl, issued);
    IssueMints(c, m, sid, role, ttl, issued);
    NotUsed(c, New(key, start), before, text);
    HonouredOnFirstUse(c, m, Read(text).value, Stamp(sid, role, ttl, issued), issued, between, now, text);
  }

  // ---------------------------------------------------------------- single use

  /** The text has been spent: remembered, or past its expiry for good. */
  ghost predicate SpentBy(c: Crypto, m: Mgr, text: string, now: Instant) {
    && TicketOf(c, text).Some?
    && (Unix(now) > TicketOf(c, text).value.exp || (text in m.used && m.used[text] == TicketOf(c, text).value.exp))
  }

  lemma UnixIsMonotone(early: Instant, late: Instant)
    requires early <= late
    ensures Unix(early) <= Unix(late)
  {
    var e := Unix(late);
    assert e * SECOND == Unix(late) * SECOND;
  }

  lemma StepStaysSpent(c: Crypto, m: Mgr, op: Op, text: string)
    requires SpentBy(c, m, text, op.at)
    ensures SpentBy(c, Apply(c, m, op), text, op.at)
  {
    match op
    case Grant(_, _, _, _) =>
    case Tidy(at, key) => SweepForgetsExactlyTheExpired(c, m, at, key, text);
    case Present(other, at) => AcceptedMeansRead(c, m, other, at);
  }

  lemma AcceptedMeansRead(c: Crypto, m: Mgr, text: string, now: Instant)
    ensures Judge(c, m, text, now).Accepted? ==>
              && TicketOf(c, text) == Some(Judge(c, m, text, now).ticket)
              && Unix(now) <= TicketOf(c, text).value.exp
  {}

  lemma SpentIsRefused(c: Crypto, m: Mgr, text: string, now: Instant)
    requires SpentBy(c, m, text, now)
    ensures Judge(c, m, text, now).Refused?
  {
    AcceptedMeansRead(c, m, text, now);
  }

  lemma LaterStaysSpent(c: Crypto, m: Mgr, text: string, now: Instant, later: Instant)
    requires SpentBy(c, m, text, now) && now <= later
    ensures SpentBy(c, m, text, later)
  {
    UnixIsMonotone(now, later);
  }

  lemma {:induction false} StaysSpent(c: Crypto, m: Mgr, ops: seq<Op>, text: string, start: Instant, now: Instant)
    requires SpentBy(c, m, text, start) && Ordered(start, ops, now)
    ensures SpentBy(c, Run(c, m, ops), text, now)
  {
    if ops == [] {
      LaterStaysSpent(c, m, text, start, now);
    } else {
      var n := |ops| - 1;
      StaysSpent(c, m, ops[..n], text, start, ops[n].at);
      StepStaysSpent(c, Run(c, m, ops[..n]), ops[n], text);
      LaterStaysSpent(c, Run(c, m, ops), text, ops[n].at, now);
    }
  }

  /** Right after a sweep the manager remembers unexpired texts only, and all of those. */
  lemma SweepForgetsExactlyTheExpired(c: Crypto, m: Mgr, now: Instant, next: Option<Bytes>, text: string)
    ensures text in Sweep(c, m, now, next).used <==> text in m.used && Unix(now) <= m.used[text]
    ensures text in Sweep(c, m, now, next).used ==> Sweep(c, m, now, next).used[text] == m.used[text]
  {}

  /** Main result: once Verify accepts a text, no later Verify accepts it, although sweeps
      forget used texts; a text is forgotten only when the expiry test refuses it anyway. */
  lemma {:induction false} SingleUse(c: Crypto, m: Mgr, text: string, first: Instant, between: seq<Op>, again: Instant)
    requires Judge(c, m, text, first).Accepted? && Ordered(first, between, again)
    ensures Judge(c, Run(c, Verify(c, m, text, first), between), text, again).Refused?
  {
    AcceptedMeansRead(c, m, text, first);
    StaysSpent(c, Verify(c, m, text, first), between, text, first, again);
    SpentIsRefused(c, Run(c, Verify(c, m, text, first), between), text, again);
  }

  // ---------------------------------------------------------------- single use, per ticket

  /** Whether the operation presents a text that reads as `r`. */
  predicate Presents(op: Op, r: (Bytes, Bytes)) {
    op.Present? && Read(op.text) == Some(r)
  }

  ghost predicate NeverRead(ops: seq<Op>, r: (Bytes, Bytes)) {
    ops == [] || (var n := |ops| - 1; NeverRead(ops[..n], r) && !Presents(ops[n], r))
  }

  /** How often a run admits the ticket that reads as `r`. */
  function Admissions(c: Crypto, m: Mgr, ops: seq<Op>, r: (Bytes, Bytes)): nat {
    if ops == [] then 0 else
      var n := |ops| - 1;
      Admissions(c, m, ops[..n], r) +
      if Presents(ops[n], r) && Judge(c, Run(c, m, ops[..n]), ops[n].text, ops[n].at).Accepted? then 1 else 0
  }

  /** The texts under which the ticket was presented by its expiry. */
  function InTime(ops: seq<Op>, r: (Bytes, Bytes), exp: int): set<string> {
    if ops == [] then {} else
      var n := |ops| - 1;
      InTime(ops[..n], r, exp) + if Presents(ops[n], r) && Unix(ops[n].at) <= exp then {ops[n].text} else {}
  }

  ghost predicate Unused(m: Mgr, r: (Bytes, Bytes)) {
    forall text | text in m.used :: Read(text) != Some(r)
  }

  lemma {:induction false} NeverReadIsUnused(c: Crypto, m: Mgr, ops: seq<Op>, r: (Bytes, Bytes))
    requires Unused(m, r) && NeverRead(ops, r)
    ensures Unused(Run(c, m, ops), r)
  {
    if ops != [] {
      NeverReadIsUnused(c, m, ops[..|ops| - 1], r);
    }
  }

  /** A text of a minted ticket that has been presented is spent, accepted or not. */
  lemma {:induction false} PresentedIsSpent(c: Crypto, m: Mgr, r: (Bytes, Bytes), t: Ticket, issued: Instant,
      ops: seq<Op>, now: Instant, text: string)
    requires Minted(c, m, r, t, issued) && Ordered(issued, ops, now)
    requires Read(text) == Some(r) && text !in m.used && !NeverPresented(ops, text)
    ensures SpentBy(c, Run(c, m, ops), text, now)
  {
    var n := |ops| - 1;
    var before := Run(c, m, ops[..n]);
    if NeverPresented(ops[..n], text) {
      HonouredOnFirstUse(c, m, r, t, issued, ops[..n], ops[n].at, text);
    } else {
      PresentedIsSpent(c, m, r, t, issued, ops[..n], ops[n].at, text);
      StepStaysSpent(c, before, ops[n], text);
    }
    LaterStaysSpent(c, Run(c, m, ops), text, ops[n].at, now);
  }

  /** Exact condition, per text: a text of an issued ticket is accepted if and only if the
      ticket has not expired and this very text was not presented before. */
  lemma {:induction false} HonouredExactlyOnce(c: Crypto, m: Mgr, r: (Bytes, Bytes), t: Ticket, issued: Instant,
      ops: seq<Op>, now: Instant, text: string)
    requires Minted(c, m, r, t, issued) && Ordered(issued, ops, now)
    requires Read(text) == Some(r) && text !in m.used
    ensures Judge(c, Run(c, m, ops), text, now) == Accepted(t) <==> Unix(now) <= t.exp && NeverPresented(ops, text)
  {
    if NeverPresented(ops, text) {
      HonouredOnFirstUse(c, m, r, t, issued, ops, now, text);
    } else {
      PresentedIsSpent(c, m, r, t, issued, ops, now, text);
      SpentIsRefused(c, Run(c, m, ops), text, now);
    }
  }

  lemma {:induction false} PresentedInTime(ops: seq<Op>, r: (Bytes, Bytes), exp: int, start: Instant, now: Instant,
      text: string)
    requires Ordered(start, ops, now) && Read(text) == Some(r) && Unix(now) <= exp
    ensures NeverPresented(ops, text) <==> text !in InTime(ops, r, exp)
  {
    if ops != [] {
      var n := |ops| - 1;
      UnixIsMonotone(ops[n].at, now);
      PresentedInTime(ops[..n], r, exp, start, ops[n].at, text);
    }
  }

  lemma AcceptedIsTheTicket(c: Crypto, m: Mgr, r: (Bytes, Bytes), t: Ticket, text: string, now: Instant)
    requires Read(text) == Some(r) && c.unmarshal(r.0) == Some(t)
    ensures Judge(c, m, text, now).Accepted? <==> Judge(c, m, text, now) == Accepted(t)
  {}

  lemma AddText(texts: set<string>, text: string)
    ensures |texts + {text}| == |texts| + if text in texts then 0 else 1
  {
    if text in texts {
      assert texts + {text} == texts;
    }
  }

  lemma {:induction false} AdmissionsCountTexts(c: Crypto, m: Mgr, r: (Bytes, Bytes), t: Ticket, issued: Instant,
      ops: seq<Op>, now: Instant)
    requires Minted(c, m, r, t, issued) && Ordered(issued, ops, now) && Unused(m, r)
    ensures Admissions(c, m, ops, r) == |InTime(ops, r, t.exp)|
  {
    if ops != [] {
      var n := |ops| - 1;
      AdmissionsCountTexts(c, m, r, t, issued, ops[..n], ops[n].at);
      if Presents(ops[n], r) {
        HonouredExactlyOnce(c, m, r, t, issued, ops[..n], ops[n].at, ops[n].text);
        AcceptedIsTheTicket(c, Run(c, m, ops[..n]), r, t, ops[n].text, ops[n].at);
        if Unix(ops[n].at) <= t.exp {
          PresentedInTime(ops[..n], r, t.exp, issued, ops[n].at, ops[n].text);
          AddText(InTime(ops[..n], r, t.exp), ops[n].text);
        }
      }
    }
  }

  /** Main result: in every run an issued ticket is admitted exactly as many times as there
      are different texts, reading alike, under which it is presented by its expiry. */
  lemma {:induction false} TicketAdmitsOncePerText(
      c: Crypto, key: Bytes, start: Instant, before: seq<Op>,
      sid: string, role: string, ttl: Duration, issued: Instant, between: seq<Op>, now: Instant)
    requires Sound(c) && Ordered(start, before, issued) && Ordered(issued, between, now)
    requires var r := Read(Issue(c, Run(c, New(key, start), before), sid, role, ttl, issued));
             r.Some? && NeverRead(before, r.value)
    ensures var m := Run(c, New(key, start), before); var r := Read(Issue(c, m, sid, role, ttl, issued)).value;
            Admissions(c, m, between, r) == |InTime(between, r, Stamp(sid, role, ttl, issued).exp)|
  {
    var m := Run(c, New(key, start), before);
    var r := Read(Issue(c, m, sid, role, ttl, issued)).value;
    IssueMints(c, m, sid, role, ttl, issued);
    NeverReadIsUnused(c, New(key, start), before, r);
    AdmissionsCountTexts(c, m, r, Stamp(sid, role, ttl, issued), issued, between, now);
  }

  lemma OneOrNone(texts: set<string>)
    ensures |texts| <= 1 <==> forall a, b | a in texts && b in texts :: a == b
  {
    if a :| a in texts {
      assert texts == {a} + (texts - {a});
      if b :| b in texts - {a} {
        assert texts == {a, b} + (texts - {a, b});
      }
    }
  }

  /** Exact condition: an issued ticket is used at most once if and only if it is presented,
      by its expiry, under one text only. */
  lemma {:induction false} SingleUsePerTicketExactly(c: Crypto, m: Mgr, r: (Bytes, Bytes), t: Ticket, issued: Instant,
      ops: seq<Op>, now: Instant)
    requires Minted(c, m, r, t, issued) && Ordered(issued, ops, now) && Unused(m, r)
    ensures Admissions(c, m, ops, r) <= 1 <==>
            forall a, b | a in InTime(ops, r, t.exp) && b in InTime(ops, r, t.exp) :: a == b
  {
    AdmissionsCountTexts(c, m, r, t, issued, ops, now);
    OneOrNone(InTime(ops, r, t.exp));
  }

  /** A run in which nothing but texts as Issue writes them is presented. */
  ghost predicate CanonicalTexts(ops: seq<Op>) {
    ops == [] || (var n := |ops| - 1; CanonicalTexts(ops[..n]) && (ops[n].Present? ==> Canonical(ops[n].text)))
  }

  lemma {:induction false} CanonicalInTime(ops: seq<Op>, r: (Bytes, Bytes), exp: int, text: string)
    requires CanonicalTexts(ops) && text in InTime(ops, r, exp)
    ensures text == Text(r.0, r.1)
  {
    var n := |ops| - 1;
    if text in InTime(ops[..n], r, exp) {
      CanonicalInTime(ops[..n], r, exp, text);
    }
  }

  /** Hence a ticket is used once at most if all texts presented are canonical. */
  lemma {:induction false} CanonicalTextsMakeSingleUse(c: Crypto, m: Mgr, r: (Bytes, Bytes), t: Ticket,
      issued: Instant, ops: seq<Op>, now: Instant)
    requires Minted(c, m, r, t, issued) && Ordered(issued, ops, now) && Unused(m, r) && CanonicalTexts(ops)
    ensures Admissions(c, m, ops, r) <= 1
  {
    SingleUsePerTicketExactly(c, m, r, t, issued, ops, now);
    forall a, b | a in InTime(ops, r, t.exp) && b in InTime(ops, r, t.exp) ensures a == b {
      CanonicalInTime(ops, r, t.exp, a);
      CanonicalInTime(ops, r, t.exp, b);
    }
  }

  /** It does happen otherwise: with a line break appended, the same ticket is admitted again. */
  lemma LineBreakAdmitsTwice(c: Crypto, key: Bytes, now: Instant, sid: string, role: string, ttl: Duration)
    requires Sound(c)
    ensures var m := New(key, now); var text := Issue(c, m, sid, role, ttl, now);
            Read(text).Some? && Admissions(c, m, [Present(text, now), Present(text + "\n", now)], Read(text).value) == 2
  {
    var m, t := New(key, now), Stamp(sid, role, ttl, now);
    var text := Issue(c, m, sid, role, ttl, now);
    var raw := c.marshal(t);
    IssueMints(c, m, sid, role, ttl, now);
    LineBreakReadsAlike(raw, c.sign(m.key, raw));
    TextRoundTrip(raw, c.sign(m.key, raw));
    var r := Read(text).value;
    var once := [Present(text, now)];
    var twice := [Present(text, now), Present(text + "\n", now)];
    assert once[..0] == [] && twice[..1] == once;
    assert Ordered(now, [], now) && Ordered(now, once, now);
    UnixIsMonotone(now, now + Lifetime(ttl));
    assert |text + "\n"| != |text|;
    assert InTime(once, r, t.exp) == {text};
    assert InTime(twice, r, t.exp) == {text, text + "\n"};
    AdmissionsCountTexts(c, m, r, t, now, twice, now);
  }

  // ---------------------------------------------------------------- whose signature counts, and until when

  /** A signing key, and since when it has been in force. */
  datatype Reign = Reign(key: Bytes, since: Instant)

  /** The keys that the run's sweeps have put in force: a sweep brings in the key it is offered
      when the one in force is an hour old. */
  function Reigns(key: Bytes, start: Instant, ops: seq<Op>): (reigns: seq<Reign>)
    ensures reigns != []
  {
    if ops == [] then [Reign(key, start)] else
      var n := |ops| - 1;
      var before := Reigns(key, start, ops[..n]);
      before + NewReign(before[|before| - 1], ops[n])
  }

  function NewReign(last: Reign, op: Op): seq<Reign> {
    if op.Tidy? && op.next.Some? && op.at >= last.since + HOUR then [Reign(op.next.value, op.at)] else []
  }

  function InForce(key: Bytes, start: Instant, ops: seq<Op>): Reign {
    var reigns := Reigns(key, start, ops);
    reigns[|reigns| - 1]
  }

  /** Whether a sweep took place at `from` or later. */
  predicate SweptFrom(ops: seq<Op>, from: Instant) {
    ops != [] && (var n := |ops| - 1; SweptFrom(ops[..n], from) || (ops[n].Tidy? && ops[n].at >= from))
  }

  /** The key before the one in force, until a sweep 31 seconds or more after it was replaced. */
  function Replaced(key: Bytes, start: Instant, ops: seq<Op>): Option<Bytes> {
    var reigns := Reigns(key, start, ops);
    var n := |reigns| - 1;
    if n == 0 || SweptFrom(ops, reigns[n].since + 31 * SECOND) then None else Some(reigns[n - 1].key)
  }

  /** The manager holds exactly the keys that its sweeps dictate. */
  ghost predicate HoldsKeys(c: Crypto, m: Mgr, key: Bytes, start: Instant, ops: seq<Op>) {
    var now, prior := InForce(key, start, ops), Replaced(key, start, ops);
    && m.key == now.key && m.rotated == now.since
    && m.prevPub == (if prior.Some? then Some(c.pub(prior.value)) else None)
    && (prior.Some? ==> m.prevUntil == now.since + 31 * SECOND)
  }

  lemma {:induction false} NotSweptYet(start: Instant, ops: seq<Op>, now: Instant, from: Instant)
    requires Ordered(start, ops, now) && now < from
    ensures !SweptFrom(ops, from)
  {
    if ops != [] {
      NotSweptYet(start, ops[..|ops| - 1], ops[|ops| - 1].at, from);
    }
  }

  lemma SnocReigns(key: Bytes, start: Instant, before: seq<Op>, op: Op)
    ensures Reigns(key, start, before + [op])
            == Reigns(key, start, before) + NewReign(InForce(key, start, before), op)
  {
    assert (before + [op])[..|before|] == before;
  }

  lemma SnocSwept(before: seq<Op>, op: Op, from: Instant)
    ensures SweptFrom(before + [op], from) <==> SweptFrom(before, from) || (op.Tidy? && op.at >= from)
  {
    assert (before + [op])[..|before|] == before;
  }

  lemma RotationReplaces(key: Bytes, start: Instant, before: seq<Op>, at: Instant, k: Bytes)
    requires Ordered(start, before, at) && at >= InForce(key, start, before).since + HOUR
    ensures var ops := before + [Tidy(at, Some(k))];
            && InForce(key, start, ops) == Reign(k, at)
            && Replaced(key, start, ops) == Some(InForce(key, start, before).key)
  {
    SnocReigns(key, start, before, Tidy(at, Some(k)));
    NotSweptYet(start, before, at, at + 31 * SECOND);
    SnocSwept(before, Tidy(at, Some(k)), at + 31 * SECOND);
  }

  lemma RotationHoldsKeys(c: Crypto, m: Mgr, key: Bytes, start: Instant, before: seq<Op>, at: Instant, k: Bytes)
    requires HoldsKeys(c, m, key, start, before) && Ordered(start, before, at)
    requires at >= InForce(key, start, before).since + HOUR
    ensures HoldsKeys(c, Sweep(c, m, at, Some(k)), key, start, before + [Tidy(at, Some(k))])
  {
    RotationReplaces(key, start, before, at, k);
  }

  lemma TidyingHoldsKeys(c: Crypto, m: Mgr, key: Bytes, start: Instant, before: seq<Op>, op: Op)
    requires HoldsKeys(c, m, key, start, before) && op.Tidy?
    requires NewReign(InForce(key, start, before), op) == []
    ensures HoldsKeys(c, Sweep(c, m, op.at, op.next), key, start, before + [op])
  {
    var reigns := Reigns(key, start, before);
    SnocReigns(key, start, before, op);
    assert reigns + [] == reigns;
    SnocSwept(before, op, reigns[|reigns| - 1].since + 31 * SECOND);
  }

  lemma SweepHoldsKeys(c: Crypto, m: Mgr, key: Bytes, start: Instant, before: seq<Op>, op: Op)
    requires HoldsKeys(c, m, key, start, before) && op.Tidy? && Ordered(start, before, op.at)
    ensures HoldsKeys(c, Sweep(c, m, op.at, op.next), key, start, before + [op])
  {
    if op.next.Some? && op.at >= InForce(key, start, before).since + HOUR {
      RotationHoldsKeys(c, m, key, start, before, op.at, op.next.value);
      assert op == Tidy(op.at, Some(op.next.value));
    } else {
      TidyingHoldsKeys(c, m, key, start, before, op);
    }
  }

  lemma OtherHoldsKeys(c: Crypto, m: Mgr, key: Bytes, start: Instant, before: seq<Op>, op: Op)
    requires HoldsKeys(c, m, key, start, before) && !op.Tidy?
    ensures HoldsKeys(c, Apply(c, m, op), key, start, before + [op])
  {
    var reigns := Reigns(key, start, before);
    SnocReigns(key, start, before, op);
    assert reigns + [] == reigns;
    SnocSwept(before, op, reigns[|reigns| - 1].since + 31 * SECOND);
  }

  lemma {:induction false} RunHoldsKeys(c: Crypto, key: Bytes, start: Instant, ops: seq<Op>, now: Instant)
    requires Ordered(start, ops, now)
    ensures HoldsKeys(c, Run(c, New(key, start), ops), key, start, ops)
  {
    if ops != [] {
      var n := |ops| - 1;
      var m := Run(c, New(key, start), ops[..n]);
      RunHoldsKeys(c, key, start, ops[..n], ops[n].at);
      assert ops == ops[..n] + [ops[n]];
      if ops[n].Tidy? {
        SweepHoldsKeys(c, m, key, start, ops[..n], ops[n]);
      } else {
        OtherHoldsKeys(c, m, key, start, ops[..n], ops[n]);
      }
    }
  }

  /** Main result: in every run, a ticket is signed with the key that the sweeps have put in
      force. */
  lemma IssueSignsWithKeyInForce(c: Crypto, key: Bytes, start: Instant, ops: seq<Op>,
      sid: string, role: string, ttl: Duration, now: Instant)
    requires Ordered(start, ops, now)
    ensures var raw := c.marshal(Stamp(sid, role, ttl, now));
            Read(Issue(c, Run(c, New(key, start), ops), sid, role, ttl, now))
            == Some((raw, c.sign(InForce(key, start, ops).key, raw)))
  {
    RunHoldsKeys(c, key, start, ops, now);
    var raw := c.marshal(Stamp(sid, role, ttl, now));
    TextRoundTrip(raw, c.sign(InForce(key, start, ops).key, raw));
  }

  /** The signature is by the key in force, or by the one it has replaced lately. */
  predicate Countersigned(c: Crypto, key: Bytes, start: Instant, ops: seq<Op>, raw: Bytes, sig: Bytes) {
    var prior := Replaced(key, start, ops);
    || c.verify(c.pub(InForce(key, start, ops).key), raw, sig)
    || (prior.Some? && c.verify(c.pub(prior.value), raw, sig))
  }

  /** The texts a run has admitted, told from the run's operations alone. */
  function Admitted(c: Crypto, key: Bytes, start: Instant, ops: seq<Op>): set<string>
    decreases |ops|, 0
  {
    if ops == [] then {} else
      var n := |ops| - 1;
      Admitted(c, key, start, ops[..n])
      + if ops[n].Present? && Admissible(c, key, start, ops[..n], ops[n].text, ops[n].at) then {ops[n].text} else {}
  }

  /** Well formed, signed by a key that counts, not expired, and not admitted before. */
  predicate Admissible(c: Crypto, key: Bytes, start: Instant, ops: seq<Op>, text: string, now: Instant)
    decreases |ops|, 1
  {
    && Read(text).Some?
    && Countersigned(c, key, start, ops, Read(text).value.0, Read(text).value.1)
    && TicketOf(c, text).Some?
    && Unix(now) <= TicketOf(c, text).value.exp
    && text !in Admitted(c, key, start, ops)
  }

  /** Every text admitted is spent, and every text remembered was admitted. */
  ghost predicate Remembers(c: Crypto, m: Mgr, key: Bytes, start: Instant, ops: seq<Op>, now: Instant) {
    && (forall text | text in m.used :: text in Admitted(c, key, start, ops))
    && (forall text | text in Admitted(c, key, start, ops) :: SpentBy(c, m, text, now))
  }

  lemma JudgedByHistory(c: Crypto, m: Mgr, key: Bytes, start: Instant, ops: seq<Op>, text: string, now: Instant)
    requires HoldsKeys(c, m, key, start, ops) && Remembers(c, m, key, start, ops, now)
    ensures Judge(c, m, text, now).Accepted? <==> Admissible(c, key, start, ops, text, now)
  {
    if text in Admitted(c, key, start, ops) {
      SpentIsRefused(c, m, text, now);
    }
  }

  lemma StepRemembers(c: Crypto, m: Mgr, key: Bytes, start: Instant, before: seq<Op>, op: Op)
    requires HoldsKeys(c, m, key, start, before) && Remembers(c, m, key, start, before, op.at)
    ensures Remembers(c, Apply(c, m, op), key, start, before + [op], op.at)
  {
    assert (before + [op])[..|before|] == before;
    forall text | text in Admitted(c, key, start, before) ensures SpentBy(c, Apply(c, m, op), text, op.at) {
      StepStaysSpent(c, m, op, text);
    }
    if op.Present? {
      JudgedByHistory(c, m, key, start, before, op.text, op.at);
      AcceptedMeansRead(c, m, op.text, op.at);
    }
  }

  lemma {:induction false} RunRemembers(c: Crypto, key: Bytes, start: Instant, ops: seq<Op>, now: Instant)
    requires Ordered(start, ops, now)
    ensures Remembers(c, Run(c, New(key, start), ops), key, start, ops, now)
  {
    if ops != [] {
      var n := |ops| - 1;
      var m := Run(c, New(key, start), ops[..n]);
      RunRemembers(c, key, start, ops[..n], ops[n].at);
      RunHoldsKeys(c, key, start, ops[..n], ops[n].at);
      StepRemembers(c, m, key, start, ops[..n], ops[n]);
      assert ops == ops[..n] + [ops[n]];
      forall text | text in Admitted(c, key, start, ops) ensures SpentBy(c, Run(c, New(key, start), ops), text, now) {
        LaterStaysSpent(c, Run(c, New(key, start), ops), text, ops[n].at, now);
      }
    }
  }

  /** Main result: in every run Verify accepts a text if and only if it is well formed, signed
      by a key that counts, not expired, and not admitted before. */
  lemma {:induction false} AcceptedExactly(
      c: Crypto, key: Bytes, start: Instant, ops: seq<Op>, text: string, now: Instant)
    requires Ordered(start, ops, now)
    ensures Judge(c, Run(c, New(key, start), ops), text, now).Accepted? <==> Admissible(c, key, start, ops, text, now)
  {
    RunHoldsKeys(c, key, start, ops, now);
    RunRemembers(c, key, start, ops, now);
    JudgedByHistory(c, Run(c, New(key, start), ops), key, start, ops, text, now);
  }

  /** Which of the five refusals is given, in the order of the tests. */
  lemma {:induction false} RefusedWhy(c: Crypto, key: Bytes, start: Instant, ops: seq<Op>, text: string, now: Instant)
    requires Ordered(start, ops, now) && !Admissible(c, key, start, ops, text, now)
    ensures var verdict := Judge(c, Run(c, New(key, start), ops), text, now);
            if Read(text).None? then verdict == Refused(BadText)
            else if !Countersigned(c, key, start, ops, Read(text).value.0, Read(text).value.1)
            then verdict == Refused(BadSignature)
            else if TicketOf(c, text).None? then verdict == Refused(BadPayload)
            else if Unix(now) > TicketOf(c, text).value.exp then verdict == Refused(Expired)
            else verdict == Refused(Reused)
  {
    AcceptedExactly(c, key, start, ops, text, now);
    RunHoldsKeys(c, key, start, ops, now);
  }

  /** Hence a text that no key of the manager's past or present verifies is refused. */
  lemma {:induction false} ForgeriesAreRefused(
      c: Crypto, key: Bytes, start: Instant, ops: seq<Op>, text: string, now: Instant)
    requires Ordered(start, ops, now)
    requires Read(text).Some? ==>
               forall r | r in Reigns(key, start, ops) ::
                   !c.verify(c.pub(r.key), Read(text).value.0, Read(text).value.1)
    ensures Judge(c, Run(c, New(key, start), ops), text, now).Refused?
  {
    AcceptedExactly(c, key, start, ops, text, now);
    var reigns := Reigns(key, start, ops);
    assert reigns[|reigns| - 1] in reigns;
    assert |reigns| > 1 ==> reigns[|reigns| - 2] in reigns;
  }

  /** No sweep from the rotation on comes an hour or more after it with a new key. */
  ghost predicate Unrotated(ops: seq<Op>, since: Instant) {
    ops == [] ||
    var n := |ops| - 1;
    Unrotated(ops[..n], since) && !(ops[n].Tidy? && ops[n].next.Some? && ops[n].at >= since + HOUR)
  }

  lemma {:induction false} ReignsStay(key: Bytes, start: Instant, before: seq<Op>, more: seq<Op>)
    requires Unrotated(more, InForce(key, start, before).since)
    ensures Reigns(key, start, before + more) == Reigns(key, start, before)
  {
    if more == [] {
      assert before + more == before;
    } else {
      var n := |more| - 1;
      assert (before + more)[..|before + more| - 1] == before + more[..n];
      ReignsStay(key, start, before, more[..n]);
    }
  }

  /** Main result: when the key in force is an hour old, a sweep that can make a new one puts
      it in force: every ticket issued until the next rotation is signed with it. */
  lemma {:induction false} RotationTakesEffect(
      c: Crypto, key: Bytes, start: Instant, before: seq<Op>, at: Instant, k: Bytes, more: seq<Op>,
      sid: string, role: string, ttl: Duration, now: Instant)
    requires at >= InForce(key, start, before).since + HOUR && Unrotated(more, at)
    requires Ordered(start, before + [Tidy(at, Some(k))] + more, now)
    ensures var ops := before + [Tidy(at, Some(k))] + more; var raw := c.marshal(Stamp(sid, role, ttl, now));
            Read(Issue(c, Run(c, New(key, start), ops), sid, role, ttl, now)) == Some((raw, c.sign(k, raw)))
  {
    var rotated := before + [Tidy(at, Some(k))];
    assert rotated[..|before|] == before;
    ReignsStay(key, start, rotated, more);
    IssueSignsWithKeyInForce(c, key, start, rotated + more, sid, role, ttl, now);
  }

  lemma {:induction false} SweptFromLater(before: seq<Op>, more: seq<Op>, from: Instant)
    requires SweptFrom(more, from)
    ensures SweptFrom(before + more, from)
  {
    var n := |more| - 1;
    assert (before + more)[..|before + more| - 1] == before + more[..n];
    if SweptFrom(more[..n], from) {
      SweptFromLater(before, more[..n], from);
    }
  }

  lemma OnlyKeyInForce(
      c: Crypto, key: Bytes, start: Instant, ops: seq<Op>, at: Instant, k: Bytes, text: string, now: Instant)
    requires InForce(key, start, ops) == Reign(k, at) && SweptFrom(ops, at + 31 * SECOND)
    requires Read(text).Some? ==> !c.verify(c.pub(k), Read(text).value.0, Read(text).value.1)
    ensures !Admissible(c, key, start, ops, text, now)
  {}

  /** Main result: once a sweep has come 31 seconds or more after a rotation, and until the next
      one, only the new key's signature counts. */
  lemma {:induction false} ReplacedKeysStopCounting(
      c: Crypto, key: Bytes, start: Instant, before: seq<Op>, at: Instant, k: Bytes, more: seq<Op>,
      text: string, now: Instant)
    requires at >= InForce(key, start, before).since + HOUR && Unrotated(more, at)
    requires SweptFrom(more, at + 31 * SECOND)
    requires Ordered(start, before + [Tidy(at, Some(k))] + more, now)
    requires Read(text).Some? ==> !c.verify(c.pub(k), Read(text).value.0, Read(text).value.1)
    ensures Judge(c, Run(c, New(key, start), before + [Tidy(at, Some(k))] + more), text, now).Refused?
  {
    var rotated := before + [Tidy(at, Some(k))];
    assert rotated[..|before|] == before;
    ReignsStay(key, start, rotated, more);
    SweptFromLater(rotated, more, at + 31 * SECOND);
    AcceptedExactly(c, key, start, rotated + more, text, now);
    OnlyKeyInForce(c, key, start, rotated + more, at, k, text, now);
  }

  /** Main result: an issued ticket lives as long as was asked for, 30 seconds at most, and
      less than a second longer. */
  lemma {:induction false} TicketsLiveAsLongAsAsked(
      c: Crypto, key: Bytes, start: Instant, before: seq<Op>,
      sid: string, role: string, ttl: Duration, issued: Instant, between: seq<Op>, now: Instant)
    requires Sound(c) && Ordered(start, before, issued) && Ordered(issued, between, now)
    requires var text := Issue(c, Run(c, New(key, start), before), sid, role, ttl, issued);
             NeverPresented(before, text) && NeverPresented(between, text)
    ensures var m := Run(c, New(key, start), before);
            var life := if 0 < ttl <= 30 * SECOND then ttl else 30 * SECOND;
            var verdict := Judge(c, Run(c, m, between), Issue(c, m, sid, role, ttl, issued), now);
            && (now <= issued + life ==> verdict.Accepted? && verdict.ticket.sid == sid && verdict.ticket.role == role)
            && (now >= issued + life + SECOND ==> verdict.Refused?)
  {
    NoTicketIsLost(c, key, start, before, sid, role, ttl, issued, between, now);
    var life := if 0 < ttl <= 30 * SECOND then ttl else 30 * SECOND;
    if now <= issued + life {
      UnixIsMonotone(now, issued + life);
    }
    if now >= issued + life + SECOND {
      UnixIsMonotone(issued + life + SECOND, now);
      NextSecond(issued + life);
      IssuedReadsBack(c, Run(c, New(key, start), before), sid, role, ttl, issued);
      AcceptedMeansRead(c, Run(c, Run(c, New(key, start), before), between),
                        Issue(c, Run(c, New(key, start), before), sid, role, ttl, issued), now);
    }
  }

  lemma NextSecond(t: Instant)
    ensures Unix(t + SECOND) > Unix(t)
  {
    var e := Unix(t);
    assert e * SECOND == Unix(t) * SECOND;
    assert t >= (e + UNIX_EPOCH) * SECOND by {
      assert (e - 1) * SECOND == e * SECOND - SECOND;
    }
  }
}
