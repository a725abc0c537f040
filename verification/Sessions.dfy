/** End to end: tickets issued by look-ups, spent on the relay, and paired by the hub, in any
    interleaving (signal/client.go, ticket/ticket.go, server/wire.go, relay/relay.go). */
module Sessions {
  import opened Clock
  import opened Options
  import Octets
  import Tickets
  import Hubs

  /** A session and a role: what a ticket is issued for. */
  type Seat = (string, string)

  /** `issued` is the text of the ticket for each seat, and `minted` the key that signed it and
      when; `spent` is the ticket text with which each relay connection was admitted. */
  datatype World = World(
    clock: Instant, mgr: Tickets.Mgr, hub: Hubs.Hub,
    issued: map<Seat, string>, minted: map<Seat, (Octets.Bytes, Instant)>, spent: map<Hubs.Call, string>)

  datatype Step =
    | Issue(sid: string, role: string, ttl: Duration, at: Instant)
    | Sweep(at: Instant, next: Option<Octets.Bytes>)
    | Dial(call: Hubs.Call, text: string, at: Instant)
    | Arrive(call: Hubs.Call)
    | Relay(step: Hubs.Step)

  function Start(key: Octets.Bytes, now: Instant): World {
    World(now, Tickets.New(key, now), Hubs.EMPTY, map[], map[], map[])
  }

  function Admits(c: Tickets.Crypto, w: World, text: string, at: Instant): bool {
    Tickets.Judge(c, w.mgr, text, at).Accepted?
  }

  /** The text says exactly what some issued text says: the same payload, the same signature. */
  ghost predicate Known(w: World, text: string) {
    exists k | k in w.issued :: Tickets.Read(w.issued[k]) == Tickets.Read(text)
  }

  /** The connection that dials with an accepted ticket is a new one, session ids are fresh,
      and the clock does not go back. That nobody else can sign is the assumption about
      signatures: what is accepted was issued, though perhaps not under this very text. */
  ghost predicate Can(c: Tickets.Crypto, w: World, step: Step) {
    match step
    case Issue(sid, role, _, at) => w.clock <= at && Hubs.GoodRole(role) && (sid, role) !in w.issued
    case Sweep(at, _) => w.clock <= at
    case Dial(call, text, at) =>
      w.clock <= at && call !in w.spent && call !in w.hub.calls && (Admits(c, w, text, at) ==> Known(w, text))
    case Arrive(call) => call in w.spent && call !in w.hub.calls && Tickets.TicketOf(c, w.spent[call]).Some?
    case Relay(s) => !s.Enter? && Hubs.Can(w.hub, s)
  }

  function TicketAt(c: Tickets.Crypto, w: World, call: Hubs.Call): Option<Tickets.Ticket> {
    if call in w.spent then Tickets.TicketOf(c, w.spent[call]) else None
  }

  ghost function Next(c: Tickets.Crypto, w: World, step: Step): World
    requires Can(c, w, step)
  {
    match step
    case Issue(sid, role, ttl, at) =>
      w.(clock := at, issued := w.issued[(sid, role) := Tickets.Issue(c, w.mgr, sid, role, ttl, at)],
         minted := w.minted[(sid, role) := (w.mgr.key, at)])
    case Sweep(at, next) => w.(clock := at, mgr := Tickets.Sweep(c, w.mgr, at, next))
    case Dial(call, text, at) =>
      w.(clock := at, mgr := Tickets.Verify(c, w.mgr, text, at),
         spent := if Admits(c, w, text, at) then w.spent[call := text] else w.spent)
    case Arrive(call) =>
      var t := Tickets.TicketOf(c, w.spent[call]).value;
      w.(hub := Hubs.Next(w.hub, Hubs.Enter(call, t.sid, t.role)))
    case Relay(s) => w.(hub := Hubs.Next(w.hub, s))
  }

  ghost function After(c: Tickets.Crypto, key: Octets.Bytes, start: Instant, steps: seq<Step>): World {
    if steps == [] then Start(key, start) else
      var n := |steps| - 1;
      var w := After(c, key, start, steps[..n]);
      if Can(c, w, steps[n]) then Next(c, w, steps[n]) else w
  }

  ghost predicate Legal(c: Tickets.Crypto, key: Octets.Bytes, start: Instant, steps: seq<Step>) {
    steps == [] ||
    var n := |steps| - 1;
    Legal(c, key, start, steps[..n]) && Can(c, After(c, key, start, steps[..n]), steps[n])
  }

  // ---------------------------------------------------------------- invariants

  /** The text issued for a session and role says so. */
  ghost predicate IssuedInv(c: Tickets.Crypto, w: World) {
    forall k | k in w.issued ::
      && Hubs.GoodRole(k.1)
      && var t := Tickets.TicketOf(c, w.issued[k]); t.Some? && t.value.sid == k.0 && t.value.role == k.1
  }

  /** An admitted connection spent a text of an issued ticket, nobody else spent that text,
      and nobody will again. */
  ghost predicate SpentInv(c: Tickets.Crypto, w: World) {
    && (forall call | call in w.spent ::
          Known(w, w.spent[call]) && Tickets.SpentBy(c, w.mgr, w.spent[call], w.clock))
    && (forall i, j | i in w.spent && j in w.spent && w.spent[i] == w.spent[j] :: i == j)
  }

  /** A call in the hub entered with the session and role of the ticket it spent. */
  ghost predicate EnteredInv(c: Tickets.Crypto, w: World) {
    forall call | call in w.hub.calls ::
      && call in w.spent
      && TicketAt(c, w, call).Some?
      && w.hub.calls[call].sid == TicketAt(c, w, call).value.sid
      && w.hub.calls[call].role == TicketAt(c, w, call).value.role
  }

  ghost predicate Inv(c: Tickets.Crypto, w: World) {
    IssuedInv(c, w) && SpentInv(c, w) && EnteredInv(c, w) && Hubs.Inv(w.hub)
  }

  /** No hub step changes the session or role of a call, and only Enter adds one. */
  lemma HubKeepsNames(h: Hubs.Hub, s: Hubs.Step, call: Hubs.Call)
    requires Hubs.Can(h, s)
    ensures call in Hubs.Next(h, s).calls <==> call in h.calls || (s.Enter? && s.call == call)
    ensures call in h.calls ==>
              && Hubs.Next(h, s).calls[call].sid == h.calls[call].sid
              && Hubs.Next(h, s).calls[call].role == h.calls[call].role
    ensures s.Enter? && s.call == call ==>
              Hubs.Next(h, s).calls[call].sid == s.sid && Hubs.Next(h, s).calls[call].role == s.role
  {}

  lemma IssueKeepsSpent(c: Tickets.Crypto, w: World, step: Step)
    requires SpentInv(c, w) && step.Issue? && Can(c, w, step)
    ensures SpentInv(c, Next(c, w, step))
  {
    var n := Next(c, w, step);
    forall call | call in n.spent
      ensures Known(n, n.spent[call]) && Tickets.SpentBy(c, n.mgr, n.spent[call], n.clock)
    {
      var k :| k in w.issued && Tickets.Read(w.issued[k]) == Tickets.Read(w.spent[call]);
      assert n.issued[k] == w.issued[k];
      Tickets.LaterStaysSpent(c, w.mgr, w.spent[call], w.clock, step.at);
    }
  }

  lemma IssueKeepsIssued(c: Tickets.Crypto, w: World, step: Step)
    requires Tickets.Sound(c) && IssuedInv(c, w) && step.Issue? && Can(c, w, step)
    ensures IssuedInv(c, Next(c, w, step))
  {
    Tickets.IssuedReadsBack(c, w.mgr, step.sid, step.role, step.ttl, step.at);
  }

  lemma IssueKeepsInv(c: Tickets.Crypto, w: World, step: Step)
    requires Tickets.Sound(c) && Inv(c, w) && step.Issue? && Can(c, w, step)
    ensures Inv(c, Next(c, w, step))
  {
    IssueKeepsSpent(c, w, step);
    IssueKeepsIssued(c, w, step);
  }

  lemma ManagerKeepsSpent(c: Tickets.Crypto, w: World, op: Tickets.Op, text: string)
    requires Tickets.SpentBy(c, w.mgr, text, w.clock) && w.clock <= op.at
    ensures Tickets.SpentBy(c, Tickets.Apply(c, w.mgr, op), text, op.at)
  {
    Tickets.LaterStaysSpent(c, w.mgr, text, w.clock, op.at);
    Tickets.StepStaysSpent(c, w.mgr, op, text);
  }

  /** An accepted text has been spent by nobody before, and is spent from now on. */
  lemma DialSpends(c: Tickets.Crypto, w: World, text: string, at: Instant, call: Hubs.Call)
    requires SpentInv(c, w) && w.clock <= at && Admits(c, w, text, at)
    ensures Tickets.SpentBy(c, Tickets.Verify(c, w.mgr, text, at), text, at)
    ensures call in w.spent ==> w.spent[call] != text
  {
    Tickets.AcceptedMeansRead(c, w.mgr, text, at);
    if call in w.spent && w.spent[call] == text {
      Tickets.LaterStaysSpent(c, w.mgr, text, w.clock, at);
      Tickets.SpentIsRefused(c, w.mgr, text, at);
    }
  }

  lemma OthersStaySpent(c: Tickets.Crypto, w: World, op: Tickets.Op)
    requires SpentInv(c, w) && w.clock <= op.at
    ensures forall call | call in w.spent :: Tickets.SpentBy(c, Tickets.Apply(c, w.mgr, op), w.spent[call], op.at)
  {
    forall call | call in w.spent
      ensures Tickets.SpentBy(c, Tickets.Apply(c, w.mgr, op), w.spent[call], op.at)
    {
      ManagerKeepsSpent(c, w, op, w.spent[call]);
    }
  }

  lemma NobodySpent(c: Tickets.Crypto, w: World, text: string, at: Instant)
    requires SpentInv(c, w) && w.clock <= at && Admits(c, w, text, at)
    ensures forall call | call in w.spent :: w.spent[call] != text
  {
    forall call | call in w.spent ensures w.spent[call] != text {
      DialSpends(c, w, text, at, call);
    }
  }

  lemma AcceptedDialKeepsSpent(c: Tickets.Crypto, w: World, step: Step)
    requires SpentInv(c, w) && step.Dial? && Can(c, w, step) && Admits(c, w, step.text, step.at)
    ensures SpentInv(c, Next(c, w, step))
  {
    OthersStaySpent(c, w, Tickets.Present(step.text, step.at));
    NobodySpent(c, w, step.text, step.at);
    DialSpends(c, w, step.text, step.at, step.call);
  }

  lemma DialKeepsSpent(c: Tickets.Crypto, w: World, step: Step)
    requires SpentInv(c, w) && step.Dial? && Can(c, w, step)
    ensures SpentInv(c, Next(c, w, step))
  {
    if Admits(c, w, step.text, step.at) {
      AcceptedDialKeepsSpent(c, w, step);
    } else {
      OthersStaySpent(c, w, Tickets.Present(step.text, step.at));
    }
  }

  lemma SweepKeepsInv(c: Tickets.Crypto, w: World, step: Step)
    requires Inv(c, w) && step.Sweep? && Can(c, w, step)
    ensures Inv(c, Next(c, w, step))
  {
    OthersStaySpent(c, w, Tickets.Tidy(step.at, step.next));
  }

  lemma DialKeepsInv(c: Tickets.Crypto, w: World, step: Step)
    requires Inv(c, w) && step.Dial? && Can(c, w, step)
    ensures Inv(c, Next(c, w, step))
  {
    DialKeepsSpent(c, w, step);
    DialKeepsEntered(c, w, step);
  }

  lemma DialKeepsEntered(c: Tickets.Crypto, w: World, step: Step)
    requires EnteredInv(c, w) && step.Dial? && Can(c, w, step)
    ensures EnteredInv(c, Next(c, w, step))
  {}

  lemma HubStepKeepsInv(c: Tickets.Crypto, w: World, step: Step)
    requires Inv(c, w) && (step.Arrive? || step.Relay?) && Can(c, w, step)
    ensures Inv(c, Next(c, w, step))
  {
    var s := if step.Relay? then step.step else
      var t := Tickets.TicketOf(c, w.spent[step.call]).value; Hubs.Enter(step.call, t.sid, t.role);
    var n := Next(c, w, step);
    Hubs.StepKeepsInv(w.hub, s);
    forall call | call in n.hub.calls
      ensures call in n.spent && TicketAt(c, n, call).Some?
      ensures n.hub.calls[call].sid == TicketAt(c, n, call).value.sid
          && n.hub.calls[call].role == TicketAt(c, n, call).value.role
    {
      HubKeepsNames(w.hub, s, call);
    }
  }

  lemma {:induction false} RunKeepsInv(c: Tickets.Crypto, key: Octets.Bytes, start: Instant, steps: seq<Step>)
    requires Tickets.Sound(c) && Legal(c, key, start, steps)
    ensures Inv(c, After(c, key, start, steps))
  {
    if steps != [] {
      var n := |steps| - 1;
      var w := After(c, key, start, steps[..n]);
      RunKeepsInv(c, key, start, steps[..n]);
      StepKeepsInv(c, w, steps[n]);
    }
  }

  lemma StepKeepsInv(c: Tickets.Crypto, w: World, step: Step)
    requires Tickets.Sound(c) && Inv(c, w) && Can(c, w, step)
    ensures Inv(c, Next(c, w, step))
  {
    match step
    case Issue(_, _, _, _) => IssueKeepsInv(c, w, step);
    case Sweep(_, _) => SweepKeepsInv(c, w, step);
    case Dial(_, _, _) => DialKeepsInv(c, w, step);
    case Arrive(_) => HubStepKeepsInv(c, w, step);
    case Relay(_) => HubStepKeepsInv(c, w, step);
  }

  // ---------------------------------------------------------------- what every run guarantees

  /** Two connections were admitted with texts of one ticket. */
  predicate Alike(w: World, i: Hubs.Call, j: Hubs.Call)
    requires i in w.spent && j in w.spent
  {
    Tickets.Read(w.spent[i]) == Tickets.Read(w.spent[j])
  }

  /** Two connections were admitted for one session and role. */
  predicate SameSeat(c: Tickets.Crypto, w: World, i: Hubs.Call, j: Hubs.Call) {
    var t, u := TicketAt(c, w, i), TicketAt(c, w, j);
    t.Some? && u.Some? && t.value.sid == u.value.sid && t.value.role == u.value.role
  }

  /** The connection spent a text of the ticket issued for this session and role. */
  predicate SpentTicketOf(w: World, i: Hubs.Call, sid: string, role: string) {
    i in w.spent && (sid, role) in w.issued && Tickets.Read(w.spent[i]) == Tickets.Read(w.issued[(sid, role)])
  }

  lemma SpentItsTicket(c: Tickets.Crypto, w: World, i: Hubs.Call)
    requires IssuedInv(c, w) && SpentInv(c, w) && i in w.spent
    ensures var t := TicketAt(c, w, i);
            t.Some? && Hubs.GoodRole(t.value.role) && SpentTicketOf(w, i, t.value.sid, t.value.role)
  {
    var k :| k in w.issued && Tickets.Read(w.issued[k]) == Tickets.Read(w.spent[i]);
    assert Tickets.TicketOf(c, w.issued[k]) == Tickets.TicketOf(c, w.spent[i]);
    assert k == (TicketAt(c, w, i).value.sid, TicketAt(c, w, i).value.role);
  }

  /** Two connections share a session and role exactly when they spent texts of one ticket,
      and they are one connection exactly when they spent one text. */
  lemma SameSeatIsAlike(c: Tickets.Crypto, w: World, i: Hubs.Call, j: Hubs.Call)
    requires IssuedInv(c, w) && SpentInv(c, w) && i in w.spent && j in w.spent
    ensures SameSeat(c, w, i, j) <==> Alike(w, i, j)
    ensures i == j <==> w.spent[i] == w.spent[j]
  {
    SpentItsTicket(c, w, i);
    SpentItsTicket(c, w, j);
  }

  // ---------------------------------------------------------------- what was dialled, and what was admitted

  /** Every text the manager remembers admitted a connection. */
  ghost predicate UsedInv(w: World) {
    forall text | text in w.mgr.used :: text in w.spent.Values
  }

  /** The ticket of this seat is one the manager would still know as its own. */
  ghost predicate MintInv(c: Tickets.Crypto, w: World, k: Seat)
    requires k in w.issued
  {
    && k in w.minted
    && var (key, at) := w.minted[k];
    && at <= w.clock
    && Tickets.StillCounts(c, w.mgr, key, at, w.clock)
    && SignedBy(c, w.issued[k], key, at)
  }

  /** The text is of a ticket that `key` signed at `at`, and that expires within the grace. */
  ghost predicate SignedBy(c: Tickets.Crypto, text: string, key: Octets.Bytes, at: Instant) {
    && Tickets.Read(text).Some? && Tickets.TicketOf(c, text).Some?
    && c.verify(c.pub(key), Tickets.Read(text).value.0, Tickets.Read(text).value.1)
    && forall now: Instant :: Clock.Unix(now) <= Tickets.TicketOf(c, text).value.exp ==>
        now < at + Tickets.MAX_ISSUE_TTL + SECOND
  }

  lemma IssueSigns(c: Tickets.Crypto, m: Tickets.Mgr, sid: string, role: string, ttl: Duration, at: Instant)
    requires Tickets.Sound(c)
    ensures SignedBy(c, Tickets.Issue(c, m, sid, role, ttl, at), m.key, at)
  {
    Tickets.IssueMints(c, m, sid, role, ttl, at);
    Tickets.IssuedReadsBack(c, m, sid, role, ttl, at);
  }

  lemma ClockKeepsCounting(c: Tickets.Crypto, m: Tickets.Mgr, key: Octets.Bytes, issued: Instant, now: Instant,
      later: Instant)
    requires Tickets.StillCounts(c, m, key, issued, now) && now <= later
    ensures Tickets.StillCounts(c, m, key, issued, later)
  {}

  lemma StepKeepsMint(c: Tickets.Crypto, w: World, step: Step, k: Seat)
    requires Tickets.Sound(c) && Can(c, w, step) && k in Next(c, w, step).issued
    requires k in w.issued ==> MintInv(c, w, k)
    ensures MintInv(c, Next(c, w, step), k)
  {
    if step.Issue? && k == (step.sid, step.role) {
      IssueSigns(c, w.mgr, step.sid, step.role, step.ttl, step.at);
    } else {
      var (key, at) := w.minted[k];
      match step
      case Issue(_, _, _, now) => ClockKeepsCounting(c, w.mgr, key, at, w.clock, now);
      case Sweep(now, next) =>
        ClockKeepsCounting(c, w.mgr, key, at, w.clock, now);
        Tickets.StepStillCounts(c, w.mgr, Tickets.Tidy(now, next), key, at);
      case Dial(_, text, now) =>
        ClockKeepsCounting(c, w.mgr, key, at, w.clock, now);
        Tickets.StepStillCounts(c, w.mgr, Tickets.Present(text, now), key, at);
      case _ =>
    }
  }

  lemma StepKeepsUsed(c: Tickets.Crypto, w: World, step: Step)
    requires UsedInv(w) && Can(c, w, step)
    ensures UsedInv(Next(c, w, step))
  {
    var n := Next(c, w, step);
    forall text | text in n.mgr.used ensures text in n.spent.Values {
      if step.Dial? && Admits(c, w, step.text, step.at) && text == step.text {
        assert n.spent[step.call] == text;
      } else {
        assert text in w.mgr.used;
        var call :| call in w.spent && w.spent[call] == text;
        assert n.spent[call] == text;
      }
    }
  }

  lemma {:induction false} RunKeepsMints(c: Tickets.Crypto, key: Octets.Bytes, start: Instant, steps: seq<Step>)
    requires Tickets.Sound(c) && Legal(c, key, start, steps)
    ensures UsedInv(After(c, key, start, steps))
    ensures forall k | k in After(c, key, start, steps).issued :: MintInv(c, After(c, key, start, steps), k)
  {
    if steps != [] {
      var n := |steps| - 1;
      var w := After(c, key, start, steps[..n]);
      RunKeepsMints(c, key, start, steps[..n]);
      StepKeepsUsed(c, w, steps[n]);
      forall k | k in After(c, key, start, steps).issued ensures MintInv(c, After(c, key, start, steps), k) {
        StepKeepsMint(c, w, steps[n], k);
      }
    }
  }

  /** The text is one of the ticket of this seat. */
  predicate IsTextOf(w: World, text: string, k: Seat) {
    k in w.issued && Tickets.Read(text) == Tickets.Read(w.issued[k])
  }

  /** The step dials a text of the seat's ticket by its expiry. */
  predicate DialsInTime(c: Tickets.Crypto, w: World, step: Step, k: Seat) {
    && step.Dial? && IsTextOf(w, step.text, k)
    && var t := Tickets.TicketOf(c, step.text); t.Some? && Clock.Unix(step.at) <= t.value.exp
  }

  /** The texts of the seat's ticket that were dialled once it was issued and by its expiry. */
  ghost function DialledInTime(c: Tickets.Crypto, key: Octets.Bytes, start: Instant, steps: seq<Step>,
      k: Seat): set<string> {
    if steps == [] then {} else
      var n := |steps| - 1;
      DialledInTime(c, key, start, steps[..n], k)
      + if DialsInTime(c, After(c, key, start, steps[..n]), steps[n], k) then {steps[n].text} else {}
  }

  /** The texts of the seat's ticket that admitted a connection. */
  function SpentTexts(w: World, k: Seat): set<string> {
    set call | call in w.spent && IsTextOf(w, w.spent[call], k) :: w.spent[call]
  }

  lemma InTimeIsSigned(c: Tickets.Crypto, w: World, text: string, at: Instant, k: Seat)
    requires w.clock <= at && k in w.issued && MintInv(c, w, k) && IsTextOf(w, text, k)
    requires Tickets.TicketOf(c, text).Some? && Clock.Unix(at) <= Tickets.TicketOf(c, text).value.exp
    ensures var r := Tickets.Read(text); r.Some? && Tickets.Signed(c, w.mgr, r.value.0, r.value.1)
  {
    var (key, issued) := w.minted[k];
    ClockKeepsCounting(c, w.mgr, key, issued, w.clock, at);
  }

  lemma AdmittedIffUnused(c: Tickets.Crypto, w: World, text: string, at: Instant, k: Seat)
    requires w.clock <= at && k in w.issued && MintInv(c, w, k) && IsTextOf(w, text, k)
    ensures Admits(c, w, text, at) <==>
            && Tickets.TicketOf(c, text).Some? && Clock.Unix(at) <= Tickets.TicketOf(c, text).value.exp
            && text !in w.mgr.used
  {
    if Tickets.TicketOf(c, text).Some? && Clock.Unix(at) <= Tickets.TicketOf(c, text).value.exp {
      InTimeIsSigned(c, w, text, at, k);
    }
  }

  /** A text of an issued ticket is admitted if and only if it comes in time and has not
      admitted a connection before. */
  lemma AdmittedExactly(c: Tickets.Crypto, w: World, step: Step, k: Seat)
    requires UsedInv(w) && SpentInv(c, w) && k in w.issued && MintInv(c, w, k)
    requires step.Dial? && Can(c, w, step) && IsTextOf(w, step.text, k)
    ensures Admits(c, w, step.text, step.at) <==> DialsInTime(c, w, step, k) && step.text !in SpentTexts(w, k)
  {
    AdmittedIffUnused(c, w, step.text, step.at, k);
    if Admits(c, w, step.text, step.at) {
      NobodySpent(c, w, step.text, step.at);
    }
  }

  /** An accepted text is of one seat's ticket only. */
  lemma TextOfOneSeat(c: Tickets.Crypto, w: World, text: string, k: Seat, l: Seat)
    requires IssuedInv(c, w) && IsTextOf(w, text, k) && IsTextOf(w, text, l)
    ensures k == l
  {
    assert Tickets.TicketOf(c, w.issued[k]) == Tickets.TicketOf(c, w.issued[l]);
  }

  lemma SameTexts(w: World, n: World, k: Seat)
    requires n.spent == w.spent
    requires forall call | call in w.spent :: IsTextOf(n, w.spent[call], k) <==> IsTextOf(w, w.spent[call], k)
    ensures SpentTexts(n, k) == SpentTexts(w, k)
  {}

  lemma OneMoreText(w: World, n: World, k: Seat, call: Hubs.Call, text: string)
    requires n.issued == w.issued && call !in w.spent && n.spent == w.spent[call := text]
    ensures SpentTexts(n, k) == SpentTexts(w, k) + if IsTextOf(w, text, k) then {text} else {}
  {
    assert n.spent[call] == text && forall i | i in w.spent :: n.spent[i] == w.spent[i];
  }

  lemma IssueKeepsTextOf(c: Tickets.Crypto, w: World, step: Step, k: Seat, text: string)
    requires step.Issue? && Can(c, w, step) && Known(w, text) && IssuedInv(c, Next(c, w, step))
    ensures IsTextOf(Next(c, w, step), text, k) <==> IsTextOf(w, text, k)
  {
    var n := Next(c, w, step);
    var l :| l in w.issued && Tickets.Read(w.issued[l]) == Tickets.Read(text);
    assert n.issued[l] == w.issued[l];
    if IsTextOf(n, text, k) {
      TextOfOneSeat(c, n, text, k, l);
    }
  }

  /** A ticket that is issued now has no text that has been spent. */
  lemma IssueAddsNoText(c: Tickets.Crypto, w: World, step: Step, k: Seat)
    requires Tickets.Sound(c) && IssuedInv(c, w) && SpentInv(c, w) && step.Issue? && Can(c, w, step)
    ensures SpentTexts(Next(c, w, step), k) == SpentTexts(w, k)
  {
    IssueKeepsIssued(c, w, step);
    forall call | call in w.spent
      ensures IsTextOf(Next(c, w, step), w.spent[call], k) <==> IsTextOf(w, w.spent[call], k)
    {
      IssueKeepsTextOf(c, w, step, k, w.spent[call]);
    }
    SameTexts(w, Next(c, w, step), k);
  }

  lemma DialAddsText(c: Tickets.Crypto, w: World, step: Step, k: Seat)
    requires Can(c, w, step) && step.Dial?
    ensures SpentTexts(Next(c, w, step), k) ==
            SpentTexts(w, k) + if Admits(c, w, step.text, step.at) && IsTextOf(w, step.text, k) then {step.text} else {}
  {
    if Admits(c, w, step.text, step.at) {
      OneMoreText(w, Next(c, w, step), k, step.call, step.text);
    } else {
      SameTexts(w, Next(c, w, step), k);
    }
  }

  lemma StepSpendsInTime(c: Tickets.Crypto, w: World, step: Step, k: Seat)
    requires Tickets.Sound(c) && Inv(c, w) && UsedInv(w) && Can(c, w, step)
    requires k in w.issued ==> MintInv(c, w, k)
    ensures SpentTexts(Next(c, w, step), k) == SpentTexts(w, k) + if DialsInTime(c, w, step, k) then {step.text} else {}
  {
    if step.Issue? {
      IssueAddsNoText(c, w, step, k);
    } else if step.Dial? {
      DialAddsText(c, w, step, k);
      if IsTextOf(w, step.text, k) {
        AdmittedExactly(c, w, step, k);
      }
    }
  }

  /** Main result: in every run, the texts of a ticket that admit a connection are exactly
      those dialled in time: the first dial of each is admitted, and no other. */
  lemma {:induction false} SpentIsDialledInTime(c: Tickets.Crypto, key: Octets.Bytes, start: Instant,
      steps: seq<Step>, k: Seat)
    requires Tickets.Sound(c) && Legal(c, key, start, steps)
    ensures SpentTexts(After(c, key, start, steps), k) == DialledInTime(c, key, start, steps, k)
  {
    if steps != [] {
      var n := |steps| - 1;
      SpentIsDialledInTime(c, key, start, steps[..n], k);
      RunKeepsInv(c, key, start, steps[..n]);
      RunKeepsMints(c, key, start, steps[..n]);
      StepSpendsInTime(c, After(c, key, start, steps[..n]), steps[n], k);
    }
  }

  // ---------------------------------------------------------------- one connection for each seat

  /** One connection at most holds each session and role. */
  ghost predicate OneEach(c: Tickets.Crypto, w: World) {
    forall i, j | i in w.spent && j in w.spent && SameSeat(c, w, i, j) :: i == j
  }

  /** No ticket was admitted under two texts. */
  ghost predicate OneTextEach(w: World) {
    forall i, j | i in w.spent && j in w.spent && Alike(w, i, j) :: w.spent[i] == w.spent[j]
  }

  /** One connection at most is admitted for each session and role if and only if no ticket is
      admitted under two texts. */
  lemma {:induction false} OneEachIsOneText(c: Tickets.Crypto, key: Octets.Bytes, start: Instant, steps: seq<Step>)
    requires Tickets.Sound(c) && Legal(c, key, start, steps)
    ensures OneEach(c, After(c, key, start, steps)) <==> OneTextEach(After(c, key, start, steps))
  {
    RunKeepsInv(c, key, start, steps);
    var w := After(c, key, start, steps);
    forall i, j | i in w.spent && j in w.spent
      ensures SameSeat(c, w, i, j) <==> Alike(w, i, j)
      ensures i == j <==> w.spent[i] == w.spent[j]
    {
      SameSeatIsAlike(c, w, i, j);
    }
  }

  /** The ticket of each seat is dialled in time under one text at most. */
  ghost predicate OneTextInTime(c: Tickets.Crypto, key: Octets.Bytes, start: Instant, steps: seq<Step>) {
    forall k, a, b | a in DialledInTime(c, key, start, steps, k) && b in DialledInTime(c, key, start, steps, k) ::
        a == b
  }

  /** Exact condition: in every run, one connection at most is admitted for each session and
      role if and only if no ticket is dialled in time under two texts. */
  lemma {:induction false} OnePerRoleExactly(c: Tickets.Crypto, key: Octets.Bytes, start: Instant, steps: seq<Step>)
    requires Tickets.Sound(c) && Legal(c, key, start, steps)
    ensures OneEach(c, After(c, key, start, steps)) <==> OneTextInTime(c, key, start, steps)
  {
    var w := After(c, key, start, steps);
    RunKeepsInv(c, key, start, steps);
    OneEachIsOneText(c, key, start, steps);
    if OneTextEach(w) {
      forall k, a, b | a in DialledInTime(c, key, start, steps, k) && b in DialledInTime(c, key, start, steps, k)
        ensures a == b
      {
        SpentIsDialledInTime(c, key, start, steps, k);
        var i :| i in w.spent && IsTextOf(w, w.spent[i], k) && w.spent[i] == a;
        var j :| j in w.spent && IsTextOf(w, w.spent[j], k) && w.spent[j] == b;
        assert Alike(w, i, j);
      }
    }
    if OneTextInTime(c, key, start, steps) {
      forall i, j | i in w.spent && j in w.spent && Alike(w, i, j) ensures w.spent[i] == w.spent[j] {
        SpentItsTicket(c, w, i);
        var t := TicketAt(c, w, i).value;
        SpentIsDialledInTime(c, key, start, steps, (t.sid, t.role));
        assert w.spent[i] in SpentTexts(w, (t.sid, t.role)) && w.spent[j] in SpentTexts(w, (t.sid, t.role));
      }
    }
  }

  /** Every text dialled is one that Issue could have written: a test that needs no key and no
      memory. */
  ghost predicate CanonicalDials(steps: seq<Step>) {
    steps == [] ||
    var n := |steps| - 1;
    CanonicalDials(steps[..n]) && (steps[n].Dial? ==> Tickets.Canonical(steps[n].text))
  }

  ghost predicate CanonicalSpent(w: World) {
    forall call | call in w.spent :: Tickets.Canonical(w.spent[call])
  }

  lemma {:induction false} CanonicalRun(c: Tickets.Crypto, key: Octets.Bytes, start: Instant, steps: seq<Step>)
    requires Legal(c, key, start, steps) && CanonicalDials(steps)
    ensures CanonicalSpent(After(c, key, start, steps))
  {
    if steps != [] {
      CanonicalRun(c, key, start, steps[..|steps| - 1]);
    }
  }

  lemma CanonicalIsOneText(c: Tickets.Crypto, w: World)
    requires IssuedInv(c, w) && SpentInv(c, w) && CanonicalSpent(w)
    ensures OneTextEach(w)
  {
    forall i, j | i in w.spent && j in w.spent && Alike(w, i, j) ensures w.spent[i] == w.spent[j] {
      SpentItsTicket(c, w, i);
      assert Tickets.Canonical(w.spent[i]) && Tickets.Canonical(w.spent[j]);
    }
  }

  /** Main result: if all texts dialled are canonical, one connection at most is admitted for
      each session and role. */
  lemma {:induction false} OnePerRole(c: Tickets.Crypto, key: Octets.Bytes, start: Instant, steps: seq<Step>)
    requires Tickets.Sound(c) && Legal(c, key, start, steps) && CanonicalDials(steps)
    ensures OneEach(c, After(c, key, start, steps)) && OneTextEach(After(c, key, start, steps))
  {
    RunKeepsInv(c, key, start, steps);
    CanonicalRun(c, key, start, steps);
    CanonicalIsOneText(c, After(c, key, start, steps));
    OneEachIsOneText(c, key, start, steps);
  }

  // ---------------------------------------------------------------- arrivals

  /** The call waits, or has just taken over a waiter. */
  predicate Seated(h: Hubs.Hub, call: Hubs.Call) {
    call in h.calls && (h.calls[call].phase == Hubs.Waiting || h.calls[call].phase.Closing?)
  }

  lemma EnterSeats(h: Hubs.Hub, call: Hubs.Call, sid: string, role: string)
    requires Hubs.GoodRole(role) && (sid in h.waiting ==> h.waiting[sid] in h.calls)
    ensures Seated(Hubs.Enters(h, call, sid, role), call)
        <==> !(sid in h.waiting && h.calls[h.waiting[sid]].role == role)
  {}

  /** Another connection, admitted with a text of the same ticket, waits in the hub. */
  predicate TwinWaits(c: Tickets.Crypto, w: World, call: Hubs.Call) {
    var t := TicketAt(c, w, call);
    && t.Some? && t.value.sid in w.hub.waiting
    && var twin := w.hub.waiting[t.value.sid];
    twin in w.spent && twin != call && Alike(w, twin, call)
  }

  lemma ArrivalIsSeated(c: Tickets.Crypto, w: World, call: Hubs.Call)
    requires Inv(c, w) && Can(c, w, Arrive(call))
    ensures Seated(Next(c, w, Arrive(call)).hub, call) <==> !TwinWaits(c, w, call)
  {
    var t := Tickets.TicketOf(c, w.spent[call]).value;
    SpentItsTicket(c, w, call);
    EnterSeats(w.hub, call, t.sid, t.role);
    if t.sid in w.hub.waiting {
      SameSeatIsAlike(c, w, w.hub.waiting[t.sid], call);
    }
  }

  /** Exact condition: through the relay handler the hub refuses an arrival if and only if
      another connection waits there that was admitted with a text of the same ticket. */
  lemma {:induction false} ArrivalIsRefusedExactly(c: Tickets.Crypto, key: Octets.Bytes, start: Instant,
      steps: seq<Step>, call: Hubs.Call)
    requires Tickets.Sound(c) && Legal(c, key, start, steps)
    requires Can(c, After(c, key, start, steps), Arrive(call))
    ensures !Seated(Next(c, After(c, key, start, steps), Arrive(call)).hub, call)
        <==> TwinWaits(c, After(c, key, start, steps), call)
  {
    RunKeepsInv(c, key, start, steps);
    ArrivalIsSeated(c, After(c, key, start, steps), call);
  }

  /** Main result: if all texts dialled are canonical, the hub never meets a bad role or a
      second connection of the same role; whoever arrives either waits or is paired. */
  lemma {:induction false} ArrivalsAreNeverRefused(c: Tickets.Crypto, key: Octets.Bytes, start: Instant,
      steps: seq<Step>, call: Hubs.Call)
    requires Tickets.Sound(c) && Legal(c, key, start, steps) && CanonicalDials(steps)
    requires Can(c, After(c, key, start, steps), Arrive(call))
    ensures Seated(Next(c, After(c, key, start, steps), Arrive(call)).hub, call)
  {
    RunKeepsInv(c, key, start, steps);
    ArrivalIsSeated(c, After(c, key, start, steps), call);
    OnePerRole(c, key, start, steps);
  }

  // ---------------------------------------------------------------- pairs

  /** The two sides of a pair spent texts of the two tickets issued for their session. */
  predicate JoinsTheTwoTickets(w: World, i: Hubs.Call)
    requires i in w.hub.partner && i in w.hub.calls && w.hub.partner[i] in w.hub.calls
  {
    var sid, j := w.hub.calls[i].sid, w.hub.partner[i];
    if w.hub.calls[i].role == "agent"
    then SpentTicketOf(w, i, sid, "agent") && SpentTicketOf(w, j, sid, "client")
    else SpentTicketOf(w, i, sid, "client") && SpentTicketOf(w, j, sid, "agent")
  }

  lemma PairJoins(c: Tickets.Crypto, w: World, i: Hubs.Call)
    requires Inv(c, w) && i in w.hub.partner
    ensures i in w.hub.calls && w.hub.partner[i] in w.hub.calls && JoinsTheTwoTickets(w, i)
  {
    var j := w.hub.partner[i];
    assert i in w.hub.calls && j in w.hub.calls;
    SpentItsTicket(c, w, i);
    SpentItsTicket(c, w, j);
  }

  /** Main result: in every run, whatever its texts, the hub pairs only connections that spent
      the two tickets of one session, one each. */
  lemma {:induction false} PairsJoinTheTwoTickets(c: Tickets.Crypto, key: Octets.Bytes, start: Instant,
      steps: seq<Step>, i: Hubs.Call)
    requires Tickets.Sound(c) && Legal(c, key, start, steps) && i in After(c, key, start, steps).hub.partner
    ensures var w := After(c, key, start, steps);
            i in w.hub.calls && w.hub.partner[i] in w.hub.calls && JoinsTheTwoTickets(w, i)
  {
    RunKeepsInv(c, key, start, steps);
    PairJoins(c, After(c, key, start, steps), i);
  }

  /** A paired connection of the session of `i` holds the seat of `i` or of its partner. */
  lemma SeatOfAPair(c: Tickets.Crypto, w: World, i: Hubs.Call, j: Hubs.Call)
    requires Inv(c, w) && i in w.hub.partner && j in w.hub.partner
    ensures i in w.hub.calls && j in w.hub.calls
    ensures w.hub.calls[i].sid == w.hub.calls[j].sid ==> SameSeat(c, w, i, j) || SameSeat(c, w, w.hub.partner[i], j)
  {
    var p := w.hub.partner[i];
    assert i in w.hub.calls && j in w.hub.calls && p in w.hub.calls;
    assert Hubs.GoodRole(w.hub.calls[j].role);
  }

  /** The connection spent a text of one of the two tickets of this pair, but neither of the
      texts that the pair spent. */
  predicate SpentAnotherText(w: World, i: Hubs.Call, j: Hubs.Call)
    requires i in w.hub.partner && i in w.spent && w.hub.partner[i] in w.spent && j in w.spent
  {
    var p := w.hub.partner[i];
    (Alike(w, j, i) || Alike(w, j, p)) && w.spent[j] != w.spent[i] && w.spent[j] != w.spent[p]
  }

  /** Exact condition: in every run, a paired connection belongs to the session of a pair and
      not to the pair if and only if it spent another text of one of its two tickets. */
  lemma {:induction false} PairedAgainExactly(c: Tickets.Crypto, key: Octets.Bytes, start: Instant, steps: seq<Step>,
      i: Hubs.Call, j: Hubs.Call)
    requires Tickets.Sound(c) && Legal(c, key, start, steps)
    requires var h := After(c, key, start, steps).hub; i in h.partner && j in h.partner
    ensures var w := After(c, key, start, steps); PairedAgain(w, i, j)
  {
    RunKeepsInv(c, key, start, steps);
    PairedAgainBy(c, After(c, key, start, steps), i, j);
  }

  ghost predicate PairedAgain(w: World, i: Hubs.Call, j: Hubs.Call)
    requires i in w.hub.partner && j in w.hub.partner
  {
    var p := w.hub.partner[i];
    && i in w.hub.calls && j in w.hub.calls && i in w.spent && j in w.spent && p in w.spent
    && (w.hub.calls[i].sid == w.hub.calls[j].sid && j != i && j != p <==> SpentAnotherText(w, i, j))
  }

  lemma PairedAgainBy(c: Tickets.Crypto, w: World, i: Hubs.Call, j: Hubs.Call)
    requires Inv(c, w) && i in w.hub.partner && j in w.hub.partner
    ensures PairedAgain(w, i, j)
  {
    var p := w.hub.partner[i];
    SeatOfAPair(c, w, i, j);
    assert i in w.hub.calls && j in w.hub.calls && p in w.hub.calls;
    assert i in w.spent && j in w.spent && p in w.spent;
    SameSeatIsAlike(c, w, j, i);
    SameSeatIsAlike(c, w, j, p);
    assert w.hub.calls[p].sid == w.hub.calls[i].sid;
  }

  /** Main result: if all texts dialled are canonical, a session is paired at most once, and
      that pair joins the connection that spent its agent ticket with the one that spent its
      client ticket. */
  lemma {:induction false} SessionsPairOnce(c: Tickets.Crypto, key: Octets.Bytes, start: Instant, steps: seq<Step>,
      i: Hubs.Call, j: Hubs.Call)
    requires Tickets.Sound(c) && Legal(c, key, start, steps) && CanonicalDials(steps)
    requires var h := After(c, key, start, steps).hub; i in h.partner && j in h.partner
    ensures var w := After(c, key, start, steps);
            && i in w.hub.calls && j in w.hub.calls && w.hub.partner[i] in w.hub.calls
            && JoinsTheTwoTickets(w, i)
            && (w.hub.calls[i].sid == w.hub.calls[j].sid ==> j == i || j == w.hub.partner[i])
  {
    RunKeepsInv(c, key, start, steps);
    var w := After(c, key, start, steps);
    PairJoins(c, w, i);
    SeatOfAPair(c, w, i, j);
    OnePerRole(c, key, start, steps);
    assert j in w.spent && i in w.spent && w.hub.partner[i] in w.spent;
  }

  // ---------------------------------------------------------------- a ticket under two texts

  lemma Snoc(c: Tickets.Crypto, key: Octets.Bytes, start: Instant, steps: seq<Step>, step: Step)
    requires Legal(c, key, start, steps) && Can(c, After(c, key, start, steps), step)
    ensures Legal(c, key, start, steps + [step])
    ensures After(c, key, start, steps + [step]) == Next(c, After(c, key, start, steps), step)
  {
    assert (steps + [step])[..|steps|] == steps;
  }

  /** The run in which an agent ticket is dialled twice, the second time with a line break. */
  function TwiceDialled(text: string, now: Instant): seq<Step> {
    [] + [Issue("s", "agent", 0, now)] + [Dial(0, text, now)] + [Dial(1, text + "\n", now)] + [Arrive(0)] + [Arrive(1)]
  }

  lemma BothTextsAreAccepted(c: Tickets.Crypto, key: Octets.Bytes, now: Instant)
    requires Tickets.Sound(c)
    ensures var m := Tickets.New(key, now); var text := Tickets.Issue(c, m, "s", "agent", 0, now);
            var t := Tickets.Stamp("s", "agent", 0, now);
            && Tickets.Read(text).Some? && Tickets.Read(text + "\n") == Tickets.Read(text)
            && Tickets.TicketOf(c, text) == Tickets.TicketOf(c, text + "\n") == Some(t)
            && Tickets.Judge(c, m, text, now) == Tickets.Accepted(t)
            && Tickets.Judge(c, Tickets.Verify(c, m, text, now), text + "\n", now) == Tickets.Accepted(t)
  {
    var m, t := Tickets.New(key, now), Tickets.Stamp("s", "agent", 0, now);
    var raw := c.marshal(t);
    Tickets.TextRoundTrip(raw, c.sign(m.key, raw));
    Tickets.LineBreakReadsAlike(raw, c.sign(m.key, raw));
    Tickets.UnixIsMonotone(now, now + Tickets.Lifetime(0));
    var text := Tickets.Issue(c, m, "s", "agent", 0, now);
    assert |text + "\n"| != |text|;
  }

  lemma BothTextsAreSpent(c: Tickets.Crypto, key: Octets.Bytes, now: Instant, text: string)
    requires Tickets.Sound(c) && text == Tickets.Issue(c, Tickets.New(key, now), "s", "agent", 0, now)
    ensures var steps := [] + [Issue("s", "agent", 0, now)] + [Dial(0, text, now)] + [Dial(1, text + "\n", now)];
            && Legal(c, key, now, steps)
            && After(c, key, now, steps).hub == Hubs.EMPTY
            && After(c, key, now, steps).spent == map[0 := text, 1 := text + "\n"]
  {
    BothTextsAreAccepted(c, key, now);
    var s1 := [] + [Issue("s", "agent", 0, now)];
    Snoc(c, key, now, [], Issue("s", "agent", 0, now));
    var s2 := s1 + [Dial(0, text, now)];
    assert After(c, key, now, s1).issued[("s", "agent")] == text;
    Snoc(c, key, now, s1, Dial(0, text, now));
    assert After(c, key, now, s2).issued[("s", "agent")] == text;
    Snoc(c, key, now, s2, Dial(1, text + "\n", now));
  }

  /** It does happen: dialled once as issued and once with a line break appended, one agent
      ticket brings two agents to the hub, which refuses the second. */
  lemma LineBreakReachesTheDuplicateBranch(c: Tickets.Crypto, key: Octets.Bytes, now: Instant)
    requires Tickets.Sound(c)
    ensures var steps := TwiceDialled(Tickets.Issue(c, Tickets.New(key, now), "s", "agent", 0, now), now);
            && Legal(c, key, now, steps)
            && var w := After(c, key, now, steps);
            && SameSeat(c, w, 0, 1) && "s" in w.hub.waiting && w.hub.waiting["s"] == 0
            && Hubs.InPhase(w.hub, 1, Hubs.Returned) && 1 in w.hub.shut
  {
    var text := Tickets.Issue(c, Tickets.New(key, now), "s", "agent", 0, now);
    BothTextsAreAccepted(c, key, now);
    BothTextsAreSpent(c, key, now, text);
    var steps := [] + [Issue("s", "agent", 0, now)] + [Dial(0, text, now)] + [Dial(1, text + "\n", now)];
    Snoc(c, key, now, steps, Arrive(0));
    Snoc(c, key, now, steps + [Arrive(0)], Arrive(1));
  }
}
