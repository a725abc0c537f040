/** Agent handlers as an interleaved system over one registry: handshake, registration,
    pings and the deferred removal (signal/agent.go). Every lock section, and every message
    read, is one step of one handler. */
module Agents {
  import opened Clock
  import opened Options
  import opened Octets
  import R = Registries
  import Bans
  import Windows
  import Limits

  type Conn = R.Conn

  /** A decoded hello. */
  datatype Hello = Hello(aid: string, rid: string, rids: seq<string>)

  /** A decoded prove; its fields are what their base64 stands for, if anything. */
  datatype Prove = Prove(pub: Option<Bytes>, sig: Option<Bytes>, mac: Option<Bytes>)

  /** The server's settings, its black boxes (trimming and lower-casing, BanKey, Ed25519, DeriveAID). */
  datatype Setup = Setup(
    ttl: nat, maxPerIP: int,
    normal: string -> string, banKey: string -> string, verify: (Bytes, Bytes, Bytes) -> bool, derive: Bytes -> string)

  const PUBLIC_KEY_SIZE := 32
  const MAC_SIZE := 32

  /** Why a handler ended. */
  datatype Why =
    | NotHello | NoAid | TooMany | NotProve | BadPub | BadSig | BadSignature | AidMismatch | BadMac | SlotTaken | Gone

  /** The endings that are counted against the address. */
  predicate Faulty(why: Why) {
    why == NotHello || why == NoAid || why == BadSignature || why == AidMismatch
  }

  // ---------------------------------------------------------------- the keys of a registration

  /** The handles in order of first mention, without blanks. */
  function Handles(mentioned: seq<string>): seq<string> {
    if mentioned == [] then [] else
      var n := |mentioned| - 1;
      var before := Handles(mentioned[..n]);
      if mentioned[n] == "" || mentioned[n] in before then before else before + [mentioned[n]]
  }

  function Normalised(s: Setup, texts: seq<string>): seq<string> {
    seq(|texts|, i requires 0 <= i < |texts| => s.normal(texts[i]))
  }

  function Rids(s: Setup, hello: Hello): seq<string> {
    Handles(Normalised(s, [hello.rid] + hello.rids))
  }

  /** collectRIDs. */
  method CollectRIDs(s: Setup, hello: Hello) returns (out: seq<string>)
    ensures out == Rids(s, hello)
  {
    ghost var all := Normalised(s, [hello.rid] + hello.rids);
    var seen: set<string> := {};
    out := [];
    for i := -1 to |hello.rids|
      invariant out == Handles(all[..i + 1])
      invariant forall t :: t in seen <==> t in out
    {
      var t := s.normal(if i < 0 then hello.rid else hello.rids[i]);
      assert all[..i + 2][..i + 1] == all[..i + 1] && all[i + 1] == t;
      if t != "" && t !in seen {
        seen := seen + {t};
        out := out + [t];
      }
    }
    assert all[..|hello.rids| + 1] == all;
  }

  /** No handle is listed twice, none is blank, and none that was mentioned is missing. */
  lemma {:induction false} HandlesAreDistinct(mentioned: seq<string>)
    ensures forall i, j | 0 <= i < j < |Handles(mentioned)| :: Handles(mentioned)[i] != Handles(mentioned)[j]
    ensures forall t :: t in Handles(mentioned) <==> t in mentioned && t != ""
  {
    if mentioned != [] {
      var n := |mentioned| - 1;
      HandlesAreDistinct(mentioned[..n]);
      assert mentioned == mentioned[..n] + [mentioned[n]];
    }
  }

  // ---------------------------------------------------------------- the proof of identity

  /** The complaint about a prove message, in the order of the checks; none if it passes. */
  function Complaint(s: Setup, aid: string, rids: seq<string>, nonce: Bytes, msg: Option<Prove>): Option<Why> {
    if msg.None? then Some(NotProve)
    else if msg.value.pub.None? || |msg.value.pub.value| != PUBLIC_KEY_SIZE then Some(BadPub)
    else if msg.value.sig.None? then Some(BadSig)
    else if !s.verify(msg.value.pub.value, nonce, msg.value.sig.value) then Some(BadSignature)
    else if s.derive(msg.value.pub.value) != aid then Some(AidMismatch)
    else if rids != [] && (msg.value.mac.None? || |msg.value.mac.value| != MAC_SIZE) then Some(BadMac)
    else None
  }

  /** Whether `sig` shows that the other side holds the key behind `aid`, on this nonce. */
  predicate Shows(s: Setup, aid: string, nonce: Bytes, pub: Bytes, sig: Bytes) {
    |pub| == PUBLIC_KEY_SIZE && s.verify(pub, nonce, sig) && s.derive(pub) == aid
  }

  /** The handler's checks with their early exits: it passes exactly when the identity is
      shown and the mac is well formed where one is due, and it is a fault exactly when a
      well-formed proof does not show the identity. */
  method CheckProof(s: Setup, aid: string, rids: seq<string>, nonce: Bytes, msg: Option<Prove>) returns (r: Option<Why>)
    ensures r == Complaint(s, aid, rids, nonce, msg)
    ensures r.None? <==> && msg.Some? && msg.value.pub.Some? && msg.value.sig.Some?
                         && Shows(s, aid, nonce, msg.value.pub.value, msg.value.sig.value)
                         && (rids == [] || (msg.value.mac.Some? && |msg.value.mac.value| == MAC_SIZE))
    ensures r.Some? && Faulty(r.value) <==>
            && msg.Some? && msg.value.pub.Some? && msg.value.sig.Some? && |msg.value.pub.value| == PUBLIC_KEY_SIZE
            && !Shows(s, aid, nonce, msg.value.pub.value, msg.value.sig.value)
  {
    if msg.None? {
      return Some(NotProve);
    }
    var pub, sig := msg.value.pub, msg.value.sig;
    if pub.None? || |pub.value| != 32 {
      return Some(BadPub);
    }
    if sig.None? {
      return Some(BadSig);
    }
    if !s.verify(pub.value, nonce, sig.value) {
      return Some(BadSignature);
    }
    if s.derive(pub.value) != aid {
      return Some(AidMismatch);
    }
    if |rids| > 0 {
      var mac := msg.value.mac;
      if mac.None? || |mac.value| != 32 {
        return Some(BadMac);
      }
    }
    return None;
  }

  // ---------------------------------------------------------------- one step

  datatype Phase =
    | Greeted                                  // its own slot is still to be looked for
    | Counting                                 // it has none; the count per address is to come
    | Cleared                                  // the challenge is to be sent
    | Challenged(nonce: Bytes)
    | Proved(nonce: Bytes, pub: Bytes, sig: Bytes)
    | Serving(nonce: Bytes, pub: Bytes, sig: Bytes, slot: R.Slot)
    | Leaving(nonce: Bytes, pub: Bytes, sig: Bytes, slot: R.Slot)   // the deferred removal is to come
    | Faulted(why: Why)                        // noteFault is to be called
    | Closed(why: Why)

  /** One handler; `blamed` is when it called noteFault. */
  datatype Visitor = Visitor(ip: string, aid: string, rids: seq<string>, phase: Phase, blamed: Option<Instant>)

  /** `nonces` holds every challenge made so far, `uses` all that the agents' soft window has
      been asked to count. */
  datatype Lobby = Lobby(reg: R.Reg, visitors: map<Conn, Visitor>, nonces: set<Bytes>, uses: seq<Limits.Use>)

  const EMPTY := Lobby(R.EMPTY, map[], {}, [])

  datatype Step =
    | Greet(conn: Conn, ip: string, hello: Option<Hello>)
    | Screen(conn: Conn, at: Instant)
    | Count(conn: Conn, at: Instant)
    | Challenge(conn: Conn, nonce: Bytes)
    | Examine(conn: Conn, prove: Option<Prove>)
    | Enlist(conn: Conn, slot: R.Slot, at: Instant)
    | Ping(conn: Conn, at: Instant)
    | Blame(conn: Conn, at: Instant)
    | Hangup(conn: Conn)
    | Leave(conn: Conn, at: Instant)
    | Find(key: string, at: Instant)
    | Tidy(at: Instant)
    | Other(use: Limits.Use)   // an admission, a bad ticket or a sweep, in the same window

  function Keys(v: Visitor): seq<string> {
    [v.aid] + v.rids
  }

  predicate Held(phase: Phase) {
    phase.Serving? || phase.Leaving?
  }

  predicate Ready(l: Lobby, conn: Conn) {
    conn in l.visitors && !l.visitors[conn].phase.Closed?
  }

  /** When a step can be taken. A challenge is fresh; a slot carries its handler's data. */
  predicate Can(l: Lobby, step: Step) {
    match step
    case Greet(c, _, _) => c !in l.visitors
    case Screen(c, _) => Ready(l, c) && l.visitors[c].phase.Greeted?
    case Count(c, _) => Ready(l, c) && l.visitors[c].phase.Counting?
    case Challenge(c, nonce) => Ready(l, c) && l.visitors[c].phase.Cleared? && nonce !in l.nonces
    case Examine(c, _) => Ready(l, c) && l.visitors[c].phase.Challenged?
    case Enlist(c, s, _) =>
      && Ready(l, c) && l.visitors[c].phase.Proved?
      && s.keys == Keys(l.visitors[c]) && s.conn == c && s.remoteIP == l.visitors[c].ip
    case Ping(c, _) => Ready(l, c) && l.visitors[c].phase.Serving?
    case Blame(c, _) => Ready(l, c) && l.visitors[c].phase.Faulted?
    case Hangup(c) =>
      && Ready(l, c)
      && (l.visitors[c].phase.Cleared? || l.visitors[c].phase.Challenged? || l.visitors[c].phase.Serving?)
    case Leave(c, _) => Ready(l, c) && l.visitors[c].phase.Leaving?
    case Find(_, _) => true
    case Tidy(_) => true
    case Other(use) => !use.Fault? && (use.Rate? ==> Limits.Plain(use.key))
  }

  /** A handler that ends; if that is a fault, it has yet to say so. */
  function Close(v: Visitor, why: Why): Visitor {
    v.(phase := if Faulty(why) then Faulted(why) else Closed(why))
  }

  /** The steps of no handler. */
  predicate IsForeign(step: Step) {
    step.Find? || step.Tidy? || step.Other?
  }

  /** The handler after the hello. */
  function Greeting(s: Setup, ip: string, msg: Option<Hello>): Visitor {
    if msg.None? then Close(Visitor(ip, "", [], Greeted, None), NotHello) else
      var phase := if s.maxPerIP > 0 then Greeted else Cleared;
      var v := Visitor(ip, s.normal(msg.value.aid), Rids(s, msg.value), phase, None);
      if v.aid == "" then Close(v, NoAid) else v
  }

  /** What the step does to its own handler. */
  function Moved(s: Setup, l: Lobby, step: Step): Visitor
    requires Can(l, step) && !IsForeign(step)
  {
    if step.Greet? then Greeting(s, step.ip, step.hello) else
      var v := l.visitors[step.conn];
      match step
      case Screen(_, at) =>
        var found := R.Get(l.reg, v.aid, at).1;
        v.(phase := if found.None? || found.value.remoteIP != v.ip then Counting else Cleared)
      case Count(_, at) =>
        if |R.ConnsAt(l.reg, v.ip, at)| >= s.maxPerIP then Close(v, TooMany) else v.(phase := Cleared)
      case Challenge(_, nonce) => v.(phase := Challenged(nonce))
      case Examine(_, prove) =>
        var why := Complaint(s, v.aid, v.rids, v.phase.nonce, prove);
        if why.Some? then Close(v, why.value)
        else v.(phase := Proved(v.phase.nonce, prove.value.pub.value, prove.value.sig.value))
      case Enlist(_, slot, at) =>
        if R.Upsert(l.reg, slot, s.ttl, at).1
        then v.(phase := Serving(v.phase.nonce, v.phase.pub, v.phase.sig, slot)) else Close(v, SlotTaken)
      case Ping(_, _) => v
      case Blame(_, at) => v.(phase := Closed(v.phase.why), blamed := Some(at))
      case Hangup(_) =>
        if v.phase.Serving? then v.(phase := Leaving(v.phase.nonce, v.phase.pub, v.phase.sig, v.phase.slot))
        else Close(v, Gone)
      case Leave(_, _) => Close(v, Gone)
  }

  /** The registry operation inside a step, if it has one. */
  function RegistryOps(l: Lobby, step: Step): seq<R.Op>
    requires Can(l, step)
  {
    match step
    case Screen(c, at) => [R.Lookup(l.visitors[c].aid, at)]
    case Enlist(_, slot, at) => [R.Register(slot, at)]
    case Ping(c, at) => [R.Ping(l.visitors[c].aid, at)]
    case Leave(c, at) => [R.Leave(l.visitors[c].aid, Some(c), at)]
    case Find(key, at) => [R.Lookup(key, at)]
    case Tidy(at) => [R.Tidy(at)]
    case _ => []
  }

  /** What a step adds to the window: noteFault counts nothing for an empty address. */
  function Uses(s: Setup, l: Lobby, step: Step): seq<Limits.Use>
    requires Can(l, step)
  {
    match step
    case Blame(c, at) => if l.visitors[c].ip == "" then [] else [Limits.Fault(s.banKey(l.visitors[c].ip), at)]
    case Other(use) => [use]
    case _ => []
  }

  function Next(s: Setup, l: Lobby, step: Step): Lobby
    requires Can(l, step)
  {
    var ops := RegistryOps(l, step);
    Lobby(
      if ops == [] then l.reg else R.Apply(l.reg, s.ttl, ops[0]),
      if IsForeign(step) then l.visitors else l.visitors[step.conn := Moved(s, l, step)],
      if step.Challenge? then l.nonces + {step.nonce} else l.nonces,
      l.uses + Uses(s, l, step))
  }

  // ---------------------------------------------------------------- runs

  ghost function After(s: Setup, steps: seq<Step>): Lobby {
    if steps == [] then EMPTY else
      var n := |steps| - 1;
      var l := After(s, steps[..n]);
      if Can(l, steps[n]) then Next(s, l, steps[n]) else l
  }

  ghost predicate Legal(s: Setup, steps: seq<Step>) {
    steps == [] || (var n := |steps| - 1; Legal(s, steps[..n]) && Can(After(s, steps[..n]), steps[n]))
  }

  /** The registry's side of a run. */
  ghost function Ops(s: Setup, steps: seq<Step>): seq<R.Op> {
    if steps == [] then [] else
      var n := |steps| - 1;
      var l := After(s, steps[..n]);
      Ops(s, steps[..n]) + if Can(l, steps[n]) then RegistryOps(l, steps[n]) else []
  }

  /** Past its one attempt to register. */
  predicate Tried(l: Lobby, conn: Conn) {
    conn in l.visitors && (Held(l.visitors[conn].phase) || l.visitors[conn].phase.Closed?)
  }

  lemma SnocRegistry(ttl: nat, ops: seq<R.Op>, op: R.Op)
    ensures R.Run(R.EMPTY, ttl, ops + [op]) == R.Apply(R.Run(R.EMPTY, ttl, ops), ttl, op)
    ensures R.Conns(ops + [op]) == R.Conns(ops) + if op.Register? then {op.slot.conn} else {}
    ensures R.OncePerConn(ops + [op]) <==> R.OncePerConn(ops) && (op.Register? ==> op.slot.conn !in R.Conns(ops))
  {
    assert (ops + [op])[..|ops|] == ops;
  }

  lemma StepRegistersOnce(s: Setup, l: Lobby, step: Step, ops: seq<R.Op>)
    requires Can(l, step) && l.reg == R.Run(R.EMPTY, s.ttl, ops)
    requires R.OncePerConn(ops) && forall c | c in R.Conns(ops) :: Tried(l, c)
    ensures var all := ops + RegistryOps(l, step);
            && Next(s, l, step).reg == R.Run(R.EMPTY, s.ttl, all)
            && R.OncePerConn(all) && forall c | c in R.Conns(all) :: Tried(Next(s, l, step), c)
  {
    var more := RegistryOps(l, step);
    StepKeepsTried(s, l, step, ops);
    if more == [] {
      assert ops + more == ops;
    } else {
      assert more == [more[0]];
      SnocRegistry(s.ttl, ops, more[0]);
    }
  }

  lemma StepKeepsTried(s: Setup, l: Lobby, step: Step, ops: seq<R.Op>)
    requires Can(l, step) && forall c | c in R.Conns(ops) :: Tried(l, c)
    ensures forall c | c in R.Conns(ops) :: Tried(Next(s, l, step), c)
    ensures step.Enlist? ==> Tried(Next(s, l, step), step.slot.conn)
  {}

  /** The handlers keep the promise the registry's ownership rests on: in every interleaving
      each connection registers at most once. */
  lemma {:induction false} HandlersRegisterOnce(s: Setup, steps: seq<Step>)
    requires Legal(s, steps)
    ensures After(s, steps).reg == R.Run(R.EMPTY, s.ttl, Ops(s, steps))
    ensures R.OncePerConn(Ops(s, steps))
    ensures forall c | c in R.Conns(Ops(s, steps)) :: Tried(After(s, steps), c)
  {
    if steps != [] {
      var n := |steps| - 1;
      HandlersRegisterOnce(s, steps[..n]);
      StepRegistersOnce(s, After(s, steps[..n]), steps[n], Ops(s, steps[..n]));
    }
  }

  /** The slot of a handler that holds one is its own, and its identity was shown on its own
      challenge. */
  predicate VisitorInv(s: Setup, c: Conn, v: Visitor) {
    && (v.phase.Faulted? ==> Faulty(v.phase.why))
    && (v.blamed.Some? <==> v.phase.Closed? && Faulty(v.phase.why))
    && (v.phase.Proved? || Held(v.phase) ==> Shows(s, v.aid, v.phase.nonce, v.phase.pub, v.phase.sig))
    && (Held(v.phase) ==> v.phase.slot.keys == Keys(v) && v.phase.slot.conn == c && v.phase.slot.remoteIP == v.ip)
  }

  /** The challenge a handler is, or was, waiting to see answered. */
  function Asked(p: Phase): Option<Bytes> {
    if p.Challenged? || p.Proved? || Held(p) then Some(p.nonce) else None
  }

  /** No two handlers were given one challenge. */
  ghost predicate NonceInv(l: Lobby) {
    && (forall c | c in l.visitors && Asked(l.visitors[c].phase).Some? :: Asked(l.visitors[c].phase).value in l.nonces)
    && forall c, d | c in l.visitors && d in l.visitors && c != d :: Apart(l.visitors[c], l.visitors[d])
  }

  predicate Apart(v: Visitor, w: Visitor) {
    Asked(v.phase).Some? ==> Asked(v.phase) != Asked(w.phase)
  }

  /** What a key leads to is the slot of a handler still at work. */
  predicate SlotHeld(l: Lobby, key: string)
    requires key in l.reg.slots
  {
    var c := l.reg.slots[key].conn;
    c in l.visitors && Held(l.visitors[c].phase) && l.visitors[c].phase.slot == l.reg.slots[key]
  }

  ghost predicate SlotInv(l: Lobby) {
    forall k | k in l.reg.slots :: SlotHeld(l, k)
  }

  ghost predicate Inv(s: Setup, l: Lobby) {
    && SlotInv(l) && NonceInv(l) && Limits.PlainRates(l.uses)
    && forall c | c in l.visitors :: VisitorInv(s, c, l.visitors[c])
  }

  lemma MoveKeepsVisitor(s: Setup, l: Lobby, step: Step)
    requires Can(l, step) && !IsForeign(step)
    requires step.conn in l.visitors ==> VisitorInv(s, step.conn, l.visitors[step.conn])
    ensures VisitorInv(s, step.conn, Moved(s, l, step))
  {}

  lemma StepKeepsVisitors(s: Setup, l: Lobby, step: Step, c: Conn)
    requires Can(l, step) && c in Next(s, l, step).visitors
    requires forall d | d in l.visitors :: VisitorInv(s, d, l.visitors[d])
    ensures VisitorInv(s, c, Next(s, l, step).visitors[c])
  {
    if !IsForeign(step) {
      MoveKeepsVisitor(s, l, step);
    }
  }

  lemma StepAsks(s: Setup, l: Lobby, step: Step, c: Conn)
    requires Can(l, step) && c in Next(s, l, step).visitors
    ensures var asked := Asked(Next(s, l, step).visitors[c].phase);
            || asked.None?
            || (c in l.visitors && asked == Asked(l.visitors[c].phase))
            || (step.Challenge? && c == step.conn && asked == Some(step.nonce) && step.nonce !in l.nonces)
  {}

  lemma StepKeepsNonces(s: Setup, l: Lobby, step: Step)
    requires Can(l, step) && NonceInv(l)
    ensures NonceInv(Next(s, l, step))
  {
    var n := Next(s, l, step).visitors;
    forall c | c in n && Asked(n[c].phase).Some? ensures Asked(n[c].phase).value in Next(s, l, step).nonces {
      StepAsks(s, l, step, c);
    }
    forall c, d | c in n && d in n && c != d ensures Apart(n[c], n[d]) {
      StepAsks(s, l, step, c);
      StepAsks(s, l, step, d);
      assert c in l.visitors && d in l.visitors ==> Apart(l.visitors[c], l.visitors[d]);
    }
  }

  lemma StepKeepsRates(s: Setup, l: Lobby, step: Step)
    requires Can(l, step) && Limits.PlainRates(l.uses)
    ensures Limits.PlainRates(Next(s, l, step).uses)
  {}

  /** Operations other than a registration bind nothing new. */
  lemma OthersOnlyUnbind(r: R.Reg, ttl: nat, op: R.Op, key: string)
    requires !op.Register? && key in R.Apply(r, ttl, op).slots
    ensures key in r.slots && R.Apply(r, ttl, op).slots[key] == r.slots[key]
  {}

  /** A registration binds its slot if it succeeds, and nothing else. */
  lemma RegisterOnlyBinds(r: R.Reg, ttl: nat, slot: R.Slot, at: Instant, key: string)
    requires key in R.Upsert(r, slot, ttl, at).0.slots
    ensures || (R.Upsert(r, slot, ttl, at).1 && R.Upsert(r, slot, ttl, at).0.slots[key] == slot)
            || (key in r.slots && R.Upsert(r, slot, ttl, at).0.slots[key] == r.slots[key])
  {
    R.ClearSpec(r, slot.conn, slot.keys, at);
  }

  /** The deferred removal takes every key, if the handler's slot is whole. */
  lemma RemovalIsComplete(s: Setup, l: Lobby, c: Conn, at: Instant, key: string)
    requires Can(l, Leave(c, at)) && SlotInv(l) && R.Owned(l.reg) && VisitorInv(s, c, l.visitors[c])
    ensures var r := R.Remove(l.reg, l.visitors[c].aid, Some(c)); key in r.slots ==> r.slots[key].conn != c
  {
    if key in l.reg.slots && l.reg.slots[key].conn == c {
      assert SlotHeld(l, key);
      assert R.Whole(l.reg, l.reg.slots[key]);
      assert l.visitors[c].aid in l.reg.slots[key].keys;
    }
  }

  lemma EnlistKeepsSlot(s: Setup, l: Lobby, step: Step, key: string)
    requires step.Enlist? && Can(l, step) && key in Next(s, l, step).reg.slots
    requires key in l.reg.slots ==> SlotHeld(l, key)
    ensures SlotHeld(Next(s, l, step), key)
  {
    RegisterOnlyBinds(l.reg, s.ttl, step.slot, step.at, key);
  }

  lemma OthersKeepSlot(s: Setup, l: Lobby, step: Step, key: string)
    requires !step.Enlist? && Can(l, step) && key in Next(s, l, step).reg.slots
    requires key in l.reg.slots ==> SlotHeld(l, key)
    requires step.Leave? ==> Next(s, l, step).reg.slots[key].conn != step.conn
    ensures SlotHeld(Next(s, l, step), key)
  {
    if RegistryOps(l, step) != [] {
      OthersOnlyUnbind(l.reg, s.ttl, RegistryOps(l, step)[0], key);
    }
  }

  lemma StepKeepsSlots(s: Setup, l: Lobby, step: Step)
    requires Can(l, step) && Inv(s, l) && R.Owned(l.reg)
    ensures SlotInv(Next(s, l, step))
  {
    forall k | k in Next(s, l, step).reg.slots ensures SlotHeld(Next(s, l, step), k) {
      if step.Enlist? {
        EnlistKeepsSlot(s, l, step, k);
      } else {
        if step.Leave? {
          RemovalIsComplete(s, l, step.conn, step.at, k);
        }
        OthersKeepSlot(s, l, step, k);
      }
    }
  }

  lemma {:induction false} RunKeepsInv(s: Setup, steps: seq<Step>)
    requires Legal(s, steps)
    ensures Inv(s, After(s, steps)) && R.Owned(After(s, steps).reg)
  {
    HandlersRegisterOnce(s, steps);
    R.OwnershipIsAllOrNothing(s.ttl, Ops(s, steps));
    if steps != [] {
      var n := |steps| - 1;
      var l := After(s, steps[..n]);
      RunKeepsInv(s, steps[..n]);
      StepKeepsSlots(s, l, steps[n]);
      StepKeepsNonces(s, l, steps[n]);
      StepKeepsRates(s, l, steps[n]);
      forall c | c in After(s, steps).visitors ensures VisitorInv(s, c, After(s, steps).visitors[c]) {
        StepKeepsVisitors(s, l, steps[n], c);
      }
    }
  }

  // ---------------------------------------------------------------- what every run guarantees

  /** The key leads to a handler at work, which mentioned it, and which has shown, on a
      challenge given to no other handler, that it holds the private key of its identity. */
  ghost predicate Vouched(s: Setup, l: Lobby, key: string)
    requires key in l.reg.slots
  {
    var slot := l.reg.slots[key];
    slot.conn in l.visitors &&
    var v := l.visitors[slot.conn];
    && Held(v.phase) && slot.keys == Keys(v) && key in Keys(v)
    && Shows(s, v.aid, v.phase.nonce, v.phase.pub, v.phase.sig)
    && forall d | d in l.visitors && d != slot.conn :: Apart(v, l.visitors[d])
  }

  /** Main result: in every interleaving of handlers, look-ups and sweeps, whatever a key
      leads to is vouched for. */
  lemma {:induction false} RegisteredHaveProved(s: Setup, steps: seq<Step>, key: string)
    requires Legal(s, steps) && key in After(s, steps).reg.slots
    ensures Vouched(s, After(s, steps), key)
  {
    RunKeepsInv(s, steps);
    InvVouches(s, After(s, steps), key);
  }

  lemma InvVouches(s: Setup, l: Lobby, key: string)
    requires Inv(s, l) && R.Owned(l.reg) && key in l.reg.slots
    ensures Vouched(s, l, key)
  {
    var c := l.reg.slots[key].conn;
    assert SlotHeld(l, key);
    assert VisitorInv(s, c, l.visitors[c]);
  }

  /** Main result: no slot outlives its handler; once a handler has returned, no key ever
      leads to its connection, even if its slot had expired and been replaced before. */
  lemma {:induction false} NoSlotOutlivesItsHandler(s: Setup, steps: seq<Step>, c: Conn, key: string)
    requires Legal(s, steps) && c in After(s, steps).visitors && After(s, steps).visitors[c].phase.Closed?
    requires key in After(s, steps).reg.slots
    ensures After(s, steps).reg.slots[key].conn != c
  {
    RunKeepsInv(s, steps);
    assert SlotHeld(After(s, steps), key);
  }

  // ---------------------------------------------------------------- faults

  /** The handler noted a fault against `key` within (lo, hi]. */
  predicate Blamed(s: Setup, v: Visitor, key: string, lo: int, hi: int) {
    v.ip != "" && s.banKey(v.ip) == key && v.blamed.Some? && lo < v.blamed.value <= hi
  }

  function Blamers(s: Setup, l: Lobby, key: string, lo: int, hi: int): set<Conn> {
    set c | c in l.visitors && Blamed(s, l.visitors[c], key, lo, hi)
  }

  lemma SnocFaults(uses: seq<Limits.Use>, use: Limits.Use, key: string)
    ensures Limits.FaultTimes(uses + [use], key) ==
            if use == Limits.Fault(key, use.at) then Limits.FaultTimes(uses, key) + [use.at]
            else Limits.FaultTimes(uses, key)
  {
    assert (uses + [use])[..|uses|] == uses;
  }

  /** The step notes a fault against this key. */
  predicate Notes(s: Setup, l: Lobby, step: Step, key: string)
    requires Can(l, step)
  {
    step.Blame? && l.visitors[step.conn].ip != "" && s.banKey(l.visitors[step.conn].ip) == key
  }

  lemma OthersStayAsBlamed(s: Setup, l: Lobby, step: Step, c: Conn, key: string, lo: int, hi: int)
    requires Can(l, step) && !(step.Blame? && step.conn == c)
    requires c in l.visitors || (step.Greet? && step.conn == c)
    ensures c in Next(s, l, step).visitors
    ensures Blamed(s, Next(s, l, step).visitors[c], key, lo, hi)
        <==> c in l.visitors && Blamed(s, l.visitors[c], key, lo, hi)
  {}

  /** Only a noted fault makes a blamer, and a handler is blamed once. */
  lemma StepMakesBlamers(s: Setup, l: Lobby, step: Step, key: string, lo: int, hi: int)
    requires Can(l, step)
    requires step.Blame? ==> l.visitors[step.conn].blamed.None?
    ensures step.Blame? ==> step.conn !in Blamers(s, l, key, lo, hi)
    ensures Blamers(s, Next(s, l, step), key, lo, hi) ==
            if Notes(s, l, step, key) && lo < step.at <= hi then Blamers(s, l, key, lo, hi) + {step.conn}
            else Blamers(s, l, key, lo, hi)
  {
    var n := Next(s, l, step);
    forall c | c in n.visitors
      ensures Blamed(s, n.visitors[c], key, lo, hi) <==>
              if step.Blame? && c == step.conn then Notes(s, l, step, key) && lo < step.at <= hi
              else c in l.visitors && Blamed(s, l.visitors[c], key, lo, hi)
    {
      if !(step.Blame? && c == step.conn) {
        OthersStayAsBlamed(s, l, step, c, key, lo, hi);
      }
    }
  }

  lemma StepNotesFault(s: Setup, l: Lobby, step: Step, key: string)
    requires Can(l, step)
    ensures Limits.FaultTimes(l.uses + Uses(s, l, step), key) ==
            if Notes(s, l, step, key) then Limits.FaultTimes(l.uses, key) + [step.at]
            else Limits.FaultTimes(l.uses, key)
  {
    var uses := Uses(s, l, step);
    if uses == [] {
      assert l.uses + uses == l.uses;
    } else {
      assert uses == [uses[0]];
      SnocFaults(l.uses, uses[0], key);
    }
  }

  /** One timestamp more in the interval is one connection more in the set. */
  lemma CountOneMore(times: seq<Instant>, conns: set<Conn>, c: Conn, at: Instant, lo: int, hi: int)
    requires Windows.CountIn(times, lo, hi) == |conns| && c !in conns
    ensures Windows.CountIn(times + [at], lo, hi) == |if lo < at <= hi then conns + {c} else conns|
  {
    Windows.SnocCount(times, at, lo, hi);
    assert |conns + {c}| == |conns| + 1;
  }

  lemma StepCountsFaults(s: Setup, l: Lobby, step: Step, key: string, lo: int, hi: int)
    requires Can(l, step)
    requires step.Blame? ==> l.visitors[step.conn].blamed.None?
    requires Windows.CountIn(Limits.FaultTimes(l.uses, key), lo, hi) == |Blamers(s, l, key, lo, hi)|
    ensures Windows.CountIn(Limits.FaultTimes(l.uses + Uses(s, l, step), key), lo, hi) ==
        |Blamers(s, Next(s, l, step), key, lo, hi)|
  {
    StepMakesBlamers(s, l, step, key, lo, hi);
    StepNotesFault(s, l, step, key);
    if Notes(s, l, step, key) {
      CountOneMore(Limits.FaultTimes(l.uses, key), Blamers(s, l, key, lo, hi), step.conn, step.at, lo, hi);
    }
  }

  lemma UnblamedBefore(s: Setup, steps: seq<Step>, step: Step)
    requires Legal(s, steps) && Can(After(s, steps), step)
    ensures step.Blame? ==> After(s, steps).visitors[step.conn].blamed.None?
  {
    RunKeepsInv(s, steps);
    if step.Blame? {
      assert VisitorInv(s, step.conn, After(s, steps).visitors[step.conn]);
    }
  }

  /** Main result: in every interleaving, the faults noted against a key in any interval are
      as many as the handlers of that key that ended by a fault in it, one each. */
  lemma {:induction false} FaultsAreCountedOnce(s: Setup, steps: seq<Step>, key: string, lo: int, hi: int)
    requires Legal(s, steps)
    ensures var l := After(s, steps);
            Windows.CountIn(Limits.FaultTimes(l.uses, key), lo, hi) == |Blamers(s, l, key, lo, hi)|
  {
    if steps != [] {
      var n := |steps| - 1;
      FaultsAreCountedOnce(s, steps[..n], key, lo, hi);
      UnblamedBefore(s, steps[..n], steps[n]);
      StepCountsFaults(s, After(s, steps[..n]), steps[n], key, lo, hi);
    }
  }

  /** The handler of this key has ended without a hello or an identity, or with a proof that
      does not show it. */
  predicate Offended(s: Setup, l: Lobby, c: Conn, key: string) {
    && c in l.visitors && s.banKey(l.visitors[c].ip) == key
    && l.visitors[c].phase.Closed? && Faulty(l.visitors[c].phase.why)
  }

  /** Main result: when the fault a handler notes strikes its key, `limit` other handlers of
      that key have ended by a fault within the window before it. Registrations, bad tickets
      and the faults of other keys do not help. */
  lemma {:induction false} StrikesNeedManyOffenders(s: Setup, steps: seq<Step>, c: Conn, now: Instant,
                                   p: Bans.Policy, b: Bans.Book, g: Limits.Gauge, victim: Option<string>)
    requires Legal(s, steps) && Can(After(s, steps), Blame(c, now)) && After(s, steps).visitors[c].ip != ""
    requires g.limit > 0 && Windows.Ordered(Limits.WindowOps(After(s, steps).uses), now)
    ensures var l := After(s, steps); var key := s.banKey(l.visitors[c].ip);
            && OthersOffended(s, l, c, key, now - g.window, now)
            && (Limits.Strikes(p, b, g, l.uses, key, now, victim) ==>
                  |Blamers(s, l, key, now - g.window, now)| >= g.limit)
  {
    var l := After(s, steps);
    var key := s.banKey(l.visitors[c].ip);
    RunKeepsInv(s, steps);
    BlamersOffended(s, l, c, key, now - g.window, now);
    StrikesNeedBlamers(s, steps, key, now, p, b, g, victim);
  }

  lemma {:induction false} RatesArePlain(s: Setup, steps: seq<Step>)
    requires Legal(s, steps)
    ensures Limits.PlainRates(After(s, steps).uses)
  {
    RunKeepsInv(s, steps);
  }

  lemma {:induction false} StrikesNeedBlamers(s: Setup, steps: seq<Step>, key: string, now: Instant,
      p: Bans.Policy, b: Bans.Book, g: Limits.Gauge, victim: Option<string>)
    requires Legal(s, steps) && g.limit > 0 && Windows.Ordered(Limits.WindowOps(After(s, steps).uses), now)
    ensures Limits.Strikes(p, b, g, After(s, steps).uses, key, now, victim) ==>
              |Blamers(s, After(s, steps), key, now - g.window, now)| >= g.limit
  {
    RatesArePlain(s, steps);
    FaultsAreCountedOnce(s, steps, key, now - g.window, now);
    StrikesNeedBlamersOf(s, After(s, steps), key, now, p, b, g, victim);
  }

  lemma {:induction false} StrikesNeedBlamersOf(s: Setup, l: Lobby, key: string, now: Instant,
      p: Bans.Policy, b: Bans.Book, g: Limits.Gauge, victim: Option<string>)
    requires g.limit > 0 && Limits.PlainRates(l.uses) && Windows.Ordered(Limits.WindowOps(l.uses), now)
    requires Windows.CountIn(Limits.FaultTimes(l.uses, key), now - g.window, now)
             == |Blamers(s, l, key, now - g.window, now)|
    ensures Limits.Strikes(p, b, g, l.uses, key, now, victim) ==> |Blamers(s, l, key, now - g.window, now)| >= g.limit
  {
    Limits.StrikeNeedsFaults(p, b, g, l.uses, key, now, victim);
  }

  /** The handlers blamed in this interval are others, and have all ended by a fault. */
  ghost predicate OthersOffended(s: Setup, l: Lobby, c: Conn, key: string, lo: int, hi: int) {
    c !in Blamers(s, l, key, lo, hi) && forall d | d in Blamers(s, l, key, lo, hi) :: Offended(s, l, d, key)
  }

  lemma BlamersOffended(s: Setup, l: Lobby, c: Conn, key: string, lo: int, hi: int)
    requires Inv(s, l) && c in l.visitors && l.visitors[c].phase.Faulted?
    ensures OthersOffended(s, l, c, key, lo, hi)
  {
    assert VisitorInv(s, c, l.visitors[c]);
    forall d | d in Blamers(s, l, key, lo, hi) ensures Offended(s, l, d, key) {
      assert VisitorInv(s, d, l.visitors[d]);
    }
  }

  /** Main result: of the handlers that have ended, those have noted a fault that sent no hello,
      named no identity, or gave a proof that does not show it. */
  lemma {:induction false} WhoIsBlamed(s: Setup, steps: seq<Step>, c: Conn)
    requires Legal(s, steps) && c in After(s, steps).visitors && After(s, steps).visitors[c].phase.Closed?
    ensures var v := After(s, steps).visitors[c]; var why := v.phase.why;
            v.blamed.Some? <==> why == NotHello || why == NoAid || why == BadSignature || why == AidMismatch
  {
    RunKeepsInv(s, steps);
    assert VisitorInv(s, c, After(s, steps).visitors[c]);
  }

  // ---------------------------------------------------------------- what a handler was told

  /** The address and the hello with which this connection came. */
  function GreetingOf(steps: seq<Step>, c: Conn): Option<(string, Option<Hello>)> {
    if steps == [] then None else
      var n := |steps| - 1;
      var before := GreetingOf(steps[..n], c);
      if before.None? && steps[n].Greet? && steps[n].conn == c then Some((steps[n].ip, steps[n].hello)) else before
  }

  predicate EndsBy(phase: Phase, why: Why) {
    phase == Faulted(why) || phase == Closed(why)
  }

  /** The handler goes by its normalised hello, and has ended for want of it if it must. */
  predicate Named(s: Setup, v: Visitor, ip: string, hello: Option<Hello>) {
    && v.ip == ip
    && (EndsBy(v.phase, NotHello) <==> hello.None?)
    && (EndsBy(v.phase, NoAid) <==> hello.Some? && s.normal(hello.value.aid) == "")
    && (hello.Some? ==> v.aid == s.normal(hello.value.aid) && v.rids == Rids(s, hello.value))
  }

  lemma MoveKeepsName(s: Setup, l: Lobby, step: Step, ip: string, hello: Option<Hello>)
    requires Can(l, step) && !IsForeign(step) && !step.Greet?
    requires Named(s, l.visitors[step.conn], ip, hello)
    ensures Named(s, Moved(s, l, step), ip, hello)
  {}

  /** In every run each handler goes by the hello it was sent: its keys are the normalised
      identity and then the normalised handles, and a blank identity ends it. */
  lemma {:induction false} NamedByHello(s: Setup, steps: seq<Step>, c: Conn)
    requires Legal(s, steps)
    ensures c in After(s, steps).visitors <==> GreetingOf(steps, c).Some?
    ensures GreetingOf(steps, c).Some? ==>
              Named(s, After(s, steps).visitors[c], GreetingOf(steps, c).value.0, GreetingOf(steps, c).value.1)
  {
    if steps != [] {
      var n := |steps| - 1;
      NamedByHello(s, steps[..n], c);
      if !IsForeign(steps[n]) && !steps[n].Greet? && steps[n].conn == c {
        var g := GreetingOf(steps[..n], c).value;
        MoveKeepsName(s, After(s, steps[..n]), steps[n], g.0, g.1);
      }
    }
  }

  // ---------------------------------------------------------------- the check per address

  /** The handlers of this address that can be reached at this instant. */
  function LiveHandlers(l: Lobby, ip: string, at: Instant): set<Conn> {
    set c | c in l.visitors && ReachableAt(l, c, at) && l.visitors[c].ip == ip
  }

  /** The handler's identity leads to its slot, which has not expired. */
  predicate ReachableAt(l: Lobby, c: Conn, at: Instant)
    requires c in l.visitors
  {
    var v := l.visitors[c];
    Held(v.phase) && R.IsLive(l.reg, v.aid, at) && l.reg.slots[v.aid] == v.phase.slot
  }

  /** Any live key leads to a handler that can be reached. */
  lemma LiveKeyIsOfHandler(s: Setup, l: Lobby, key: string, at: Instant)
    requires Inv(s, l) && R.Owned(l.reg) && R.IsLive(l.reg, key, at)
    ensures var slot := l.reg.slots[key]; var c := slot.conn;
            && c in l.visitors && ReachableAt(l, c, at) && l.visitors[c].ip == slot.remoteIP
            && key in Keys(l.visitors[c])
  {
    var slot := l.reg.slots[key];
    assert SlotHeld(l, key) && VisitorInv(s, slot.conn, l.visitors[slot.conn]);
    assert R.Whole(l.reg, slot);
    assert l.visitors[slot.conn].aid in slot.keys;
  }

  lemma CountIsOfHandlers(s: Setup, l: Lobby, ip: string, at: Instant)
    requires Inv(s, l) && R.Owned(l.reg)
    ensures R.ConnsAt(l.reg, ip, at) == LiveHandlers(l, ip, at)
  {
    forall c | c in R.ConnsAt(l.reg, ip, at) ensures c in LiveHandlers(l, ip, at) {
      var k :| R.IsLive(l.reg, k, at) && l.reg.slots[k].remoteIP == ip && l.reg.slots[k].conn == c;
      LiveKeyIsOfHandler(s, l, k, at);
    }
    forall c | c in LiveHandlers(l, ip, at) ensures c in R.ConnsAt(l.reg, ip, at) {
      var v := l.visitors[c];
      assert VisitorInv(s, c, v);
      assert R.IsLive(l.reg, v.aid, at) && l.reg.slots[v.aid].remoteIP == ip && l.reg.slots[v.aid].conn == c;
    }
  }

  /** Main result: a handler that reaches the count is turned away if and only if as many
      handlers of its address as are allowed can be reached. */
  lemma {:induction false} CountRefusesExactly(s: Setup, steps: seq<Step>, c: Conn, at: Instant)
    requires Legal(s, steps) && Can(After(s, steps), Count(c, at))
    ensures var l := After(s, steps);
            Next(s, l, Count(c, at)).visitors[c].phase ==
            if |LiveHandlers(l, l.visitors[c].ip, at)| >= s.maxPerIP then Closed(TooMany) else Cleared
  {
    RunKeepsInv(s, steps);
    CountIsOfHandlers(s, After(s, steps), After(s, steps).visitors[c].ip, at);
  }

  /** And it is spared the count if and only if its identity already leads to a handler of its
      own address. */
  lemma {:induction false} ScreenSparesExactly(s: Setup, steps: seq<Step>, c: Conn, at: Instant)
    requires Legal(s, steps) && Can(After(s, steps), Screen(c, at))
    ensures var l := After(s, steps); var v := l.visitors[c]; var phase := Next(s, l, Screen(c, at)).visitors[c].phase;
            && (phase == Cleared || phase == Counting)
            && (phase == Cleared <==> exists d | d in LiveHandlers(l, v.ip, at) :: v.aid in Keys(l.visitors[d]))
  {
    RunKeepsInv(s, steps);
    ScreenedBy(s, After(s, steps), c, at);
  }

  lemma ScreenedBy(s: Setup, l: Lobby, c: Conn, at: Instant)
    requires Inv(s, l) && R.Owned(l.reg) && Can(l, Screen(c, at))
    ensures var v := l.visitors[c];
            (R.IsLive(l.reg, v.aid, at) && l.reg.slots[v.aid].remoteIP == v.ip) <==>
            exists d | d in LiveHandlers(l, v.ip, at) :: v.aid in Keys(l.visitors[d])
  {
    var v := l.visitors[c];
    if R.IsLive(l.reg, v.aid, at) && l.reg.slots[v.aid].remoteIP == v.ip {
      LiveKeyIsOfHandler(s, l, v.aid, at);
      assert l.reg.slots[v.aid].conn in LiveHandlers(l, v.ip, at);
    }
    if d :| d in LiveHandlers(l, v.ip, at) && v.aid in Keys(l.visitors[d]) {
      assert VisitorInv(s, d, l.visitors[d]);
      assert R.Whole(l.reg, l.visitors[d].phase.slot);
    }
  }

  predicate Screened(steps: seq<Step>, c: Conn) {
    steps != [] && (var n := |steps| - 1; Screened(steps[..n], c) || (steps[n].Screen? && steps[n].conn == c))
  }

  /** Where agents per address are capped, nobody is challenged who was not screened first. */
  lemma {:induction false} ChallengedWereScreened(s: Setup, steps: seq<Step>, c: Conn)
    requires Legal(s, steps) && s.maxPerIP > 0 && c in After(s, steps).visitors
    ensures var phase := After(s, steps).visitors[c].phase;
            phase.Counting? || phase.Cleared? || Asked(phase).Some? ==> Screened(steps, c)
  {
    var n := |steps| - 1;
    if c in After(s, steps[..n]).visitors {
      ChallengedWereScreened(s, steps[..n], c);
    }
  }

  // ---------------------------------------------------------------- whoever pings stays reachable

  /** All keys of the slot lead to it, and it lasts until `end` at least. */
  ghost predicate Holds(r: R.Reg, slot: R.Slot, end: Instant) {
    (forall k | k in slot.keys :: k in r.slots && r.slots[k] == slot) && end <= R.Expiry(r, slot)
  }

  lemma RegisterKeepsHold(r: R.Reg, ttl: nat, other: R.Slot, at: Instant, slot: R.Slot, end: Instant)
    requires Holds(r, slot, end) && at <= end && other.conn != slot.conn
    ensures Holds(R.Upsert(r, other, ttl, at).0, slot, end)
  {
    R.ClearSpec(r, other.conn, other.keys, at);
    forall k | k in slot.keys ensures R.IsLive(r, k, at) {}
  }

  /** What others do, and sweeps and look-ups, leave a slot that has not expired alone. */
  lemma OpKeepsHold(r: R.Reg, ttl: nat, op: R.Op, slot: R.Slot, end: Instant)
    requires Holds(r, slot, end) && op.at <= end <= op.at + ttl
    requires op.Register? ==> op.slot.conn != slot.conn
    requires op.Leave? ==> op.conn.Some? && op.conn.value != slot.conn
    ensures Holds(R.Apply(r, ttl, op), slot, end)
  {
    if op.Register? {
      RegisterKeepsHold(r, ttl, op.slot, op.at, slot, end);
    }
  }

  lemma PingRenewsHold(r: R.Reg, ttl: nat, key: string, at: Instant, slot: R.Slot, end: Instant)
    requires Holds(r, slot, end) && key in slot.keys
    ensures Holds(R.Touch(r, key, ttl, at), slot, at + ttl)
  {}

  /** The handler serves with this slot, and holds it until `end` at least. */
  ghost predicate Serves(l: Lobby, c: Conn, slot: R.Slot, end: Instant) {
    && c in l.visitors && l.visitors[c].phase.Serving? && l.visitors[c].phase.slot == slot
    && slot.conn == c && slot.keys == Keys(l.visitors[c])
    && Holds(l.reg, slot, end)
  }

  /** When a step reads the clock for the registry. */
  function ClockOf(step: Step): Option<Instant> {
    match step
    case Screen(_, at) => Some(at)
    case Enlist(_, _, at) => Some(at)
    case Ping(_, at) => Some(at)
    case Leave(_, at) => Some(at)
    case Find(_, at) => Some(at)
    case Tidy(at) => Some(at)
    case _ => None
  }

  lemma RegistryOpsOfOthers(l: Lobby, step: Step, c: Conn)
    requires Can(l, step) && c in l.visitors && l.visitors[c].phase.Serving?
    ensures forall op | op in RegistryOps(l, step) ::
              && ClockOf(step) == Some(op.at)
              && (op.Register? ==> op.slot.conn != c)
              && (op.Leave? ==> op.conn.Some? && op.conn.value != c)
  {}

  lemma OtherKeepsServing(s: Setup, l: Lobby, step: Step, c: Conn, slot: R.Slot, end: Instant)
    requires Can(l, step) && Serves(l, c, slot, end) && step != Hangup(c) && !(step.Ping? && step.conn == c)
    requires ClockOf(step).Some? ==> ClockOf(step).value <= end <= ClockOf(step).value + s.ttl
    ensures Serves(Next(s, l, step), c, slot, end)
  {
    var ops := RegistryOps(l, step);
    RegistryOpsOfOthers(l, step, c);
    if ops != [] {
      assert ops[0] in ops;
      OpKeepsHold(l.reg, s.ttl, ops[0], slot, end);
    }
  }

  lemma OwnPingServes(s: Setup, l: Lobby, c: Conn, at: Instant, slot: R.Slot, end: Instant)
    requires Can(l, Ping(c, at)) && Serves(l, c, slot, end)
    ensures Serves(Next(s, l, Ping(c, at)), c, slot, at + s.ttl)
  {
    PingRenewsHold(l.reg, s.ttl, l.visitors[c].aid, at, slot, end);
  }

  lemma EnlistServes(s: Setup, l: Lobby, c: Conn, slot: R.Slot, at: Instant)
    requires Can(l, Enlist(c, slot, at)) && Next(s, l, Enlist(c, slot, at)).visitors[c].phase.Serving?
    ensures Serves(Next(s, l, Enlist(c, slot, at)), c, slot, at + s.ttl)
  {}

  /** When the handler last showed that it is alive: its latest ping, or else `first`. */
  function LastPing(steps: seq<Step>, c: Conn, first: Instant): Instant {
    if steps == [] then first else
      var n := |steps| - 1;
      if steps[n].Ping? && steps[n].conn == c then steps[n].at else LastPing(steps[..n], c, first)
  }

  /** The handler pings at least once per ttl and does not hang up: whatever happens does so at
      most one ttl after its latest ping. */
  ghost predicate Paced(ttl: nat, steps: seq<Step>, c: Conn, first: Instant) {
    steps == [] ||
    var n := |steps| - 1;
    && Paced(ttl, steps[..n], c, first)
    && steps[n] != Hangup(c)
    && (ClockOf(steps[n]).Some? ==>
          LastPing(steps[..n], c, first) <= ClockOf(steps[n]).value <= LastPing(steps[..n], c, first) + ttl)
  }

  lemma PacedKeepsServing(s: Setup, l: Lobby, step: Step, c: Conn, slot: R.Slot, last: Instant)
    requires Can(l, step) && Serves(l, c, slot, last + s.ttl) && step != Hangup(c)
    requires ClockOf(step).Some? ==> last <= ClockOf(step).value <= last + s.ttl
    ensures Serves(Next(s, l, step), c, slot, s.ttl + if step.Ping? && step.conn == c then step.at else last)
  {
    if step.Ping? && step.conn == c {
      OwnPingServes(s, l, c, step.at, slot, last + s.ttl);
    } else {
      OtherKeepsServing(s, l, step, c, slot, last + s.ttl);
    }
  }

  lemma LastStep(s: Setup, all: seq<Step>)
    requires Legal(s, all) && all != []
    ensures var n := |all| - 1; var l := After(s, all[..n]);
            Legal(s, all[..n]) && Can(l, all[n]) && After(s, all) == Next(s, l, all[n])
  {}

  lemma LastOf(s: Setup, before: seq<Step>, more: seq<Step>)
    requires Legal(s, before + more) && more != []
    ensures var n := |more| - 1; var l := After(s, before + more[..n]);
            && Legal(s, before + more[..n]) && Can(l, more[n])
            && After(s, before + more) == Next(s, l, more[n])
  {
    var all := before + more;
    LastStep(s, all);
    assert all[..|all| - 1] == before + more[..|more| - 1] && all[|all| - 1] == more[|more| - 1];
  }

  lemma {:induction false} ServesThroughout(
      s: Setup, before: seq<Step>, more: seq<Step>, c: Conn, slot: R.Slot, first: Instant)
    requires Legal(s, before + more) && Serves(After(s, before), c, slot, first + s.ttl)
    requires Paced(s.ttl, more, c, first)
    ensures Serves(After(s, before + more), c, slot, LastPing(more, c, first) + s.ttl)
  {
    if more == [] {
      assert before + more == before;
    } else {
      var n := |more| - 1;
      LastOf(s, before, more);
      ServesThroughout(s, before, more[..n], c, slot, first);
      PacedKeepsServing(s, After(s, before + more[..n]), more[n], c, slot, LastPing(more[..n], c, first));
    }
  }

  /** Main result: from its registration on, a handler that pings at least once per ttl, and
      does not hang up, can be reached under all its keys, whatever other handlers, look-ups
      and sweeps do. */
  lemma {:induction false} WhoPingsStaysReachable(s: Setup, before: seq<Step>, c: Conn, slot: R.Slot, first: Instant,
      more: seq<Step>, now: Instant, key: string)
    requires Legal(s, before + [Enlist(c, slot, first)] + more)
    requires var l := After(s, before + [Enlist(c, slot, first)]); c in l.visitors && l.visitors[c].phase.Serving?
    requires Paced(s.ttl, more, c, first) && now <= LastPing(more, c, first) + s.ttl
    requires key in slot.keys
    ensures R.Get(After(s, before + [Enlist(c, slot, first)] + more).reg, key, now).1 == Some(slot)
  {
    var joined := before + [Enlist(c, slot, first)];
    LegalPrefix(s, joined, more);
    assert joined[..|before|] == before;
    EnlistServes(s, After(s, before), c, slot, first);
    ServesThroughout(s, joined, more, c, slot, first);
  }

  lemma {:induction false} LegalPrefix(s: Setup, before: seq<Step>, more: seq<Step>)
    requires Legal(s, before + more)
    ensures Legal(s, before)
  {
    var all := before + more;
    if more == [] {
      assert all == before;
    } else {
      assert all[..|all| - 1] == before + more[..|more| - 1];
      LegalPrefix(s, before, more[..|more| - 1]);
    }
  }

  /** A single ping, by a handler whose identity still leads to its slot, even an expired one,
      makes it reachable under all its keys for one ttl. */
  lemma {:induction false} PingRenews(s: Setup, steps: seq<Step>, c: Conn, at: Instant, now: Instant, key: string)
    requires Legal(s, steps) && Can(After(s, steps), Ping(c, at)) && now <= at + s.ttl
    requires var l := After(s, steps); var v := l.visitors[c];
             v.aid in l.reg.slots && l.reg.slots[v.aid] == v.phase.slot && key in Keys(v)
    ensures var l := After(s, steps);
            R.Get(Next(s, l, Ping(c, at)).reg, key, now).1 == Some(l.visitors[c].phase.slot)
  {
    var l := After(s, steps);
    var v := l.visitors[c];
    RunKeepsInv(s, steps);
    assert VisitorInv(s, c, v) && R.Whole(l.reg, v.phase.slot);
    OwnPingServes(s, l, c, at, v.phase.slot, R.Expiry(l.reg, v.phase.slot));
  }
}
