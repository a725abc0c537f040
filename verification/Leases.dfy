/** The registry against a plain table of leases that is never tidied: lazy deletion,
    sweeping and slot sharing cannot be observed (registry/registry.go). */
module Leases {
  import opened Clock
  import opened Options
  import opened Registries

  /** What a key leads to, and until when. */
  datatype Lease = Lease(slot: Slot, until: Instant)
  type Table = map<string, Lease>

  predicate Running(m: Table, key: string, now: Instant) {
    key in m && now <= m[key].until
  }

  /** A registration is refused exactly when another connection holds a wanted key. */
  predicate Refuses(m: Table, s: Slot, now: Instant) {
    s.keys == [] || exists k | k in s.keys :: Running(m, k, now) && m[k].slot.conn != s.conn
  }

  function Register(m: Table, s: Slot, ttl: nat, now: Instant): Table {
    if Refuses(m, s, now) then m else
      map k | k in m.Keys + (set k | k in s.keys) :: if k in s.keys then Lease(s, now + ttl) else m[k]
  }

  /** A ping renews every running lease on the slot it reaches. */
  function Renew(m: Table, key: string, ttl: nat, now: Instant): Table {
    if !Running(m, key, now) then m else
      map k | k in m :: if m[k].slot == m[key].slot && now <= m[k].until then Lease(m[k].slot, now + ttl) else m[k]
  }

  function Drop(m: Table, key: string, conn: Option<Conn>, now: Instant): Table {
    if Running(m, key, now) && (conn.Some? ==> m[key].slot.conn == conn.value)
    then map k | k in m && m[k].slot != m[key].slot :: m[k]
    else m
  }

  function Find(m: Table, key: string, now: Instant): Option<Slot> {
    if Running(m, key, now) then Some(m[key].slot) else None
  }

  /** The plain table does nothing on look-ups and sweeps. */
  function Act(m: Table, ttl: nat, op: Op): Table {
    match op
    case Register(s, at) => Register(m, s, ttl, at)
    case Ping(key, at) => Renew(m, key, ttl, at)
    case Lookup(_, _) => m
    case Leave(key, conn, at) => Drop(m, key, conn, at)
    case Tidy(_) => m
  }

  function Ledger(ttl: nat, ops: seq<Op>): Table {
    if ops == [] then map[] else Act(Ledger(ttl, ops[..|ops| - 1]), ttl, ops[|ops| - 1])
  }

  /** Both lead every key to the same running lease. */
  ghost predicate Same(r: Reg, m: Table, now: Instant) {
    forall k :: SameAt(r, m, k, now)
  }

  ghost predicate SameAt(r: Reg, m: Table, k: string, now: Instant) {
    && (IsLive(r, k, now) <==> Running(m, k, now))
    && (IsLive(r, k, now) ==> m[k] == Lease(r.slots[k], Expiry(r, r.slots[k])))
  }

  /** The one thing a caller must not do: ping a key whose slot has expired unswept, which
      would revive it. */
  ghost predicate Civil(r: Reg, op: Op) {
    op.Ping? && op.key in r.slots ==> IsLive(r, op.key, op.at)
  }

  ghost predicate History(ttl: nat, ops: seq<Op>, now: Instant) {
    ops == [] ||
    var n := |ops| - 1;
    ops[n].at <= now && History(ttl, ops[..n], ops[n].at) && Civil(Run(EMPTY, ttl, ops[..n]), ops[n])
  }

  /** Bindings are to the slot's own keys. */
  ghost predicate Proper(r: Reg) {
    forall k | k in r.slots :: k in r.slots[k].keys
  }

  lemma StepKeepsProper(r: Reg, ttl: nat, op: Op)
    requires Proper(r)
    ensures Proper(Apply(r, ttl, op))
  {
    if op.Register? {
      ClearSpec(r, op.slot.conn, op.slot.keys, op.at);
    }
  }

  lemma RegisterSame(r: Reg, m: Table, s: Slot, ttl: nat, now: Instant)
    requires Same(r, m, now) && Proper(r)
    ensures Upsert(r, s, ttl, now).1 <==> !Refuses(m, s, now)
    ensures Same(Upsert(r, s, ttl, now).0, Register(m, s, ttl, now), now)
  {
    ClearSpec(r, s.conn, s.keys, now);
    assert forall k | k in s.keys :: SameAt(r, m, k, now);
    var u, v := Upsert(r, s, ttl, now).0, Register(m, s, ttl, now);
    forall k ensures SameAt(u, v, k, now) {
      assert SameAt(r, m, k, now);
    }
  }

  lemma LeaveSame(r: Reg, m: Table, key: string, conn: Option<Conn>, now: Instant)
    requires Same(r, m, now) && Proper(r)
    ensures Same(Remove(r, key, conn), Drop(m, key, conn, now), now)
  {
    assert SameAt(r, m, key, now);
    forall k ensures SameAt(Remove(r, key, conn), Drop(m, key, conn, now), k, now) {
      assert SameAt(r, m, k, now);
    }
  }

  /** Exact condition: a ping keeps the registry and the table in step if and only if the slot
      it reaches, if any, has not expired. */
  lemma PingSameExactly(r: Reg, m: Table, key: string, ttl: nat, now: Instant)
    requires Same(r, m, now) && Proper(r)
    ensures Same(Touch(r, key, ttl, now), Renew(m, key, ttl, now), now) <==> Civil(r, Op.Ping(key, now))
  {
    if Civil(r, Op.Ping(key, now)) {
      PingSame(r, m, key, ttl, now);
    } else {
      assert SameAt(r, m, key, now);
      assert !SameAt(Touch(r, key, ttl, now), Renew(m, key, ttl, now), key, now);
    }
  }

  lemma PingSame(r: Reg, m: Table, key: string, ttl: nat, now: Instant)
    requires Same(r, m, now) && (key in r.slots ==> IsLive(r, key, now))
    ensures Same(Touch(r, key, ttl, now), Renew(m, key, ttl, now), now)
  {
    assert SameAt(r, m, key, now);
    forall k ensures SameAt(Touch(r, key, ttl, now), Renew(m, key, ttl, now), k, now) {
      assert SameAt(r, m, k, now);
    }
  }

  lemma TidySame(r: Reg, m: Table, key: string, now: Instant)
    requires Same(r, m, now)
    ensures Same(Sweep(r, now), m, now) && Same(Get(r, key, now).0, m, now)
  {
    forall k ensures SameAt(Sweep(r, now), m, k, now) && SameAt(Get(r, key, now).0, m, k, now) {
      assert SameAt(r, m, k, now);
    }
  }

  lemma LaterSame(r: Reg, m: Table, now: Instant, later: Instant)
    requires Same(r, m, now) && now <= later
    ensures Same(r, m, later)
  {
    forall k ensures SameAt(r, m, k, later) {
      assert SameAt(r, m, k, now);
    }
  }

  lemma StepSame(r: Reg, m: Table, ttl: nat, op: Op)
    requires Same(r, m, op.at) && Proper(r) && Civil(r, op)
    ensures Same(Apply(r, ttl, op), Act(m, ttl, op), op.at)
  {
    match op
    case Register(s, at) => RegisterSame(r, m, s, ttl, at);
    case Ping(key, at) => PingSame(r, m, key, ttl, at);
    case Lookup(key, at) => TidySame(r, m, key, at);
    case Leave(key, conn, at) => LeaveSame(r, m, key, conn, at);
    case Tidy(at) => TidySame(r, m, "", at);
  }

  lemma {:induction false} RegistryMatchesLedger(ttl: nat, ops: seq<Op>, now: Instant)
    requires History(ttl, ops, now)
    ensures Same(Run(EMPTY, ttl, ops), Ledger(ttl, ops), now) && Proper(Run(EMPTY, ttl, ops))
  {
    if ops != [] {
      var n := |ops| - 1;
      var r := Run(EMPTY, ttl, ops[..n]);
      RegistryMatchesLedger(ttl, ops[..n], ops[n].at);
      StepSame(r, Ledger(ttl, ops[..n]), ttl, ops[n]);
      StepKeepsProper(r, ttl, ops[n]);
      LaterSame(Run(EMPTY, ttl, ops), Ledger(ttl, ops), ops[n].at, now);
    }
  }

  /** Right after every operation of the run, both lead every key to the same running lease. */
  ghost predicate AlwaysSame(ttl: nat, ops: seq<Op>) {
    ops == [] ||
    var n := |ops| - 1;
    AlwaysSame(ttl, ops[..n]) && Same(Run(EMPTY, ttl, ops), Ledger(ttl, ops), ops[n].at)
  }

  /** Exact condition: the registry stays in step with the plain table throughout a run if and
      only if no ping of the run reaches an expired slot. */
  lemma {:induction false} InStepExactly(ttl: nat, ops: seq<Op>, now: Instant)
    requires InOrder(ops, now)
    ensures AlwaysSame(ttl, ops) <==> History(ttl, ops, now)
  {
    if ops != [] {
      var n := |ops| - 1;
      InStepExactly(ttl, ops[..n], ops[n].at);
      if History(ttl, ops[..n], ops[n].at) {
        RegistryMatchesLedger(ttl, ops[..n], ops[n].at);
        StepSameExactly(Run(EMPTY, ttl, ops[..n]), Ledger(ttl, ops[..n]), ttl, ops[n]);
      }
    }
  }

  lemma StepSameExactly(r: Reg, m: Table, ttl: nat, op: Op)
    requires Same(r, m, op.at) && Proper(r)
    ensures Same(Apply(r, ttl, op), Act(m, ttl, op), op.at) <==> Civil(r, op)
  {
    if op.Ping? {
      PingSameExactly(r, m, op.key, ttl, op.at);
    } else {
      StepSame(r, m, ttl, op);
    }
  }

  /** Why pings must spare expired slots: Touch does not look at the expiry, so whether a
      look-up came first matters exactly when the slot under the key has expired. */
  lemma LookupMattersToPingExactly(r: Reg, key: string, ttl: nat, now: Instant)
    requires Proper(r)
    ensures (IsLive(Touch(Get(r, key, now).0, key, ttl, now), key, now) <==> IsLive(Touch(r, key, ttl, now), key, now))
       <==> !(key in r.slots && Dead(r, r.slots[key], now))
  {}

  /** It does happen: one nanosecond after its expiry a slot is revived by a ping, unless a
      look-up came first. */
  lemma LookupThenPingDiffers(s: Slot, ttl: nat, t: Instant)
    requires s.keys == ["a"]
    ensures var late := t + ttl + 1;
            var joined, ping, lookup := Op.Register(s, t), Op.Ping("a", late), Op.Lookup("a", late);
            && IsLive(Run(EMPTY, ttl, [joined, ping]), "a", late)
            && !IsLive(Run(EMPTY, ttl, [joined, lookup, ping]), "a", late)
  {
    var late := t + ttl + 1;
    var joined, ping, lookup := Op.Register(s, t), Op.Ping("a", late), Op.Lookup("a", late);
    assert [joined, ping][..1] == [joined];
    assert [joined, lookup, ping][..2] == [joined, lookup] && [joined, lookup][..1] == [joined];
    FirstRegistration(s, ttl, t);
    assert "a" in s.keys;
  }

  function ConnsOf(m: Table, ip: string, now: Instant): set<Conn> {
    set k | k in m && now <= m[k].until && m[k].slot.remoteIP == ip :: m[k].slot.conn
  }

  /** Main result: in every run, look-ups, registrations and the count per address answer as
      the plain table does, which no look-up and no sweep ever changes. */
  lemma {:induction false} AnswersAreTheLedgers(ttl: nat, ops: seq<Op>, now: Instant, key: string, s: Slot, ip: string)
    requires History(ttl, ops, now)
    ensures Get(Run(EMPTY, ttl, ops), key, now).1 == Find(Ledger(ttl, ops), key, now)
    ensures Upsert(Run(EMPTY, ttl, ops), s, ttl, now).1 <==> !Refuses(Ledger(ttl, ops), s, now)
    ensures ConnsAt(Run(EMPTY, ttl, ops), ip, now) == ConnsOf(Ledger(ttl, ops), ip, now)
  {
    RegistryMatchesLedger(ttl, ops, now);
    var r, m := Run(EMPTY, ttl, ops), Ledger(ttl, ops);
    assert SameAt(r, m, key, now);
    RegisterSame(r, m, s, ttl, now);
    SameConns(r, m, ip, now);
  }

  lemma SameConns(r: Reg, m: Table, ip: string, now: Instant)
    requires Same(r, m, now)
    ensures ConnsAt(r, ip, now) == ConnsOf(m, ip, now)
  {
    forall c | c in ConnsAt(r, ip, now) ensures c in ConnsOf(m, ip, now) {
      var k :| IsLive(r, k, now) && r.slots[k].remoteIP == ip && r.slots[k].conn == c;
      assert SameAt(r, m, k, now);
    }
    forall c | c in ConnsOf(m, ip, now) ensures c in ConnsAt(r, ip, now) {
      var k :| Running(m, k, now) && m[k].slot.remoteIP == ip && m[k].slot.conn == c;
      assert SameAt(r, m, k, now);
    }
  }

  // ---------------------------------------------------------------- leases are kept

  /** No expiry lies further ahead than one ttl. */
  ghost predicate WithinTtl(r: Reg, ttl: nat, now: Instant) {
    forall s | s in r.expiry :: r.expiry[s] <= now + ttl
  }

  ghost predicate InOrder(ops: seq<Op>, now: Instant) {
    ops == [] || (var n := |ops| - 1; ops[n].at <= now && InOrder(ops[..n], ops[n].at))
  }

  lemma {:induction false} EveryRunIsWithinTtl(ttl: nat, ops: seq<Op>, now: Instant)
    requires InOrder(ops, now)
    ensures WithinTtl(Run(EMPTY, ttl, ops), ttl, now)
  {
    if ops != [] {
      var n := |ops| - 1;
      EveryRunIsWithinTtl(ttl, ops[..n], ops[n].at);
      if ops[n].Register? {
        ClearSpec(Run(EMPTY, ttl, ops[..n]), ops[n].slot.conn, ops[n].slot.keys, ops[n].at);
      }
    }
  }

  /** The key leads to a slot of `conn` that lasts until `end` at least. */
  ghost predicate HeldBy(r: Reg, key: string, conn: Conn, end: Instant) {
    key in r.slots && r.slots[key].conn == conn && end <= Expiry(r, r.slots[key])
  }

  /** Nobody removes by hand what belongs to `conn`. */
  ghost predicate Spares(op: Op, conn: Conn) {
    op.Leave? ==> op.conn.Some? && op.conn.value != conn
  }

  lemma StepKeepsLease(r: Reg, ttl: nat, op: Op, key: string, conn: Conn, end: Instant)
    requires HeldBy(r, key, conn, end) && WithinTtl(r, ttl, op.at) && op.at <= end && Spares(op, conn)
    ensures HeldBy(Apply(r, ttl, op), key, conn, end) && WithinTtl(Apply(r, ttl, op), ttl, op.at)
  {
    if op.Register? {
      ClearSpec(r, op.slot.conn, op.slot.keys, op.at);
    }
  }

  ghost predicate Kept(ops: seq<Op>, from: Instant, conn: Conn, now: Instant) {
    if ops == [] then from <= now else
      var n := |ops| - 1; ops[n].at <= now && Kept(ops[..n], from, conn, ops[n].at) && Spares(ops[n], conn)
  }

  lemma {:induction false} LeaseSurvives(r: Reg, ttl: nat, ops: seq<Op>, key: string, conn: Conn, from: Instant,
      end: Instant, now: Instant)
    requires HeldBy(r, key, conn, end) && WithinTtl(r, ttl, from)
    requires Kept(ops, from, conn, now) && now <= end
    ensures HeldBy(Run(r, ttl, ops), key, conn, end) && WithinTtl(Run(r, ttl, ops), ttl, now)
  {
    if ops != [] {
      var n := |ops| - 1;
      LeaseSurvives(r, ttl, ops[..n], key, conn, from, end, ops[n].at);
      StepKeepsLease(Run(r, ttl, ops[..n]), ttl, ops[n], key, conn, end);
    }
  }

  /** Main result: a key bound to a connection keeps leading to it until its expiry, through
      any operations but a Remove for that connection or with nil; touches and renewed
      registrations by that connection only prolong it. */
  lemma {:induction false} LeaseHolds(ttl: nat, before: seq<Op>, from: Instant, ops: seq<Op>, key: string, now: Instant)
    requires InOrder(before, from) && IsLive(Run(EMPTY, ttl, before), key, from)
    requires var r := Run(EMPTY, ttl, before);
             Kept(ops, from, r.slots[key].conn, now) && now <= Expiry(r, r.slots[key])
    ensures var r := Run(EMPTY, ttl, before);
            var found := Get(Run(r, ttl, ops), key, now).1;
            found.Some? && found.value.conn == r.slots[key].conn
  {
    var r := Run(EMPTY, ttl, before);
    EveryRunIsWithinTtl(ttl, before, from);
    LeaseSurvives(r, ttl, ops, key, r.slots[key].conn, from, Expiry(r, r.slots[key]), now);
  }
}
