/** The agent registry as a value: many keys alias one slot, slots expire, dead ones go
    lazily (registry/registry.go). Slots are objects, compared by identity; only their
    expiry changes, so the value keeps it beside the key table. */
module Registries {
  import opened Clock
  import opened Options

  type Conn = nat

  class Slot {
    const keys: seq<string>
    const conn: Conn
    const remoteIP: string
    var expiresAt: Instant

    constructor (keys: seq<string>, conn: Conn, remoteIP: string)
      ensures this.keys == keys && this.conn == conn && this.remoteIP == remoteIP && expiresAt == ZERO_TIME
    {
      this.keys, this.conn, this.remoteIP := keys, conn, remoteIP;
      expiresAt := ZERO_TIME;
    }
  }

  datatype Reg = Reg(slots: map<string, Slot>, expiry: map<Slot, Instant>)

  const EMPTY := Reg(map[], map[])

  function Expiry(r: Reg, s: Slot): Instant {
    if s in r.expiry then r.expiry[s] else ZERO_TIME
  }

  predicate Dead(r: Reg, s: Slot, now: Instant) {
    now > Expiry(r, s)
  }

  predicate IsLive(r: Reg, key: string, now: Instant) {
    key in r.slots && !Dead(r, r.slots[key], now)
  }

  // ---------------------------------------------------------------- one operation

  /** deleteSlotLocked: drops the slot's own keys where they still lead to it. */
  function Unbind(r: Reg, s: Slot): Reg {
    r.(slots := map k | k in r.slots && !(k in s.keys && r.slots[k] == s) :: r.slots[k])
  }

  /** Upsert's pass over the wanted keys: dead slots go, another's live slot ends it. */
  function Clear(r: Reg, conn: Conn, keys: seq<string>, now: Instant): (Reg, bool)
    decreases keys
  {
    if keys == [] then (r, true) else
      var k := keys[0];
      if k !in r.slots then Clear(r, conn, keys[1..], now)
      else if Dead(r, r.slots[k], now) then Clear(Unbind(r, r.slots[k]), conn, keys[1..], now)
      else if r.slots[k].conn != conn then (r, false)
      else Clear(r, conn, keys[1..], now)
  }

  function Bind(slots: map<string, Slot>, s: Slot): map<string, Slot> {
    map k | k in slots.Keys + (set k | k in s.keys) :: if k in s.keys then s else slots[k]
  }

  function Upsert(r: Reg, s: Slot, ttl: nat, now: Instant): (Reg, bool) {
    if s.keys == [] then (r, false) else
      var (cleared, ok) := Clear(r, s.conn, s.keys, now);
      if !ok then (cleared, false) else (Reg(Bind(cleared.slots, s), cleared.expiry[s := now + ttl]), true)
  }

  function Touch(r: Reg, key: string, ttl: nat, now: Instant): Reg {
    if key in r.slots then r.(expiry := r.expiry[r.slots[key] := now + ttl]) else r
  }

  function Get(r: Reg, key: string, now: Instant): (Reg, Option<Slot>) {
    if key !in r.slots then (r, None)
    else if Dead(r, r.slots[key], now) then (Unbind(r, r.slots[key]), None)
    else (r, Some(r.slots[key]))
  }

  function Remove(r: Reg, key: string, conn: Option<Conn>): Reg {
    if key in r.slots && (conn.Some? ==> r.slots[key].conn == conn.value) then Unbind(r, r.slots[key]) else r
  }

  function Sweep(r: Reg, now: Instant): Reg {
    r.(slots := map k | k in r.slots && !Dead(r, r.slots[k], now) :: r.slots[k])
  }

  function ConnsAt(r: Reg, ip: string, now: Instant): set<Conn> {
    set k | k in r.slots && !Dead(r, r.slots[k], now) && r.slots[k].remoteIP == ip :: r.slots[k].conn
  }

  // ---------------------------------------------------------------- runs

  datatype Op =
    | Register(slot: Slot, at: Instant)
    | Ping(key: string, at: Instant)
    | Lookup(key: string, at: Instant)
    | Leave(key: string, conn: Option<Conn>, at: Instant)
    | Tidy(at: Instant)

  function Apply(r: Reg, ttl: nat, op: Op): Reg {
    match op
    case Register(s, at) => Upsert(r, s, ttl, at).0
    case Ping(key, at) => Touch(r, key, ttl, at)
    case Lookup(key, at) => Get(r, key, at).0
    case Leave(key, conn, _) => Remove(r, key, conn)
    case Tidy(at) => Sweep(r, at)
  }

  function Run(r: Reg, ttl: nat, ops: seq<Op>): Reg {
    if ops == [] then r else Apply(Run(r, ttl, ops[..|ops| - 1]), ttl, ops[|ops| - 1])
  }

  // ---------------------------------------------------------------- ownership

  /** Every registered slot is bound under exactly all of its keys. */
  ghost predicate Owned(r: Reg) {
    forall k | k in r.slots :: k in r.slots[k].keys && Whole(r, r.slots[k])
  }

  ghost predicate Whole(r: Reg, s: Slot) {
    forall k | k in s.keys :: k in r.slots && r.slots[k] == s
  }

  lemma UnbindKeepsOwned(r: Reg, s: Slot)
    requires Owned(r)
    ensures Owned(Unbind(r, s))
  {
    var u := Unbind(r, s);
    forall k | k in u.slots ensures k in u.slots[k].keys && Whole(u, u.slots[k]) {
      assert Whole(r, r.slots[k]);
    }
  }

  lemma {:induction false} ClearKeepsOwned(r: Reg, conn: Conn, keys: seq<string>, now: Instant)
    requires Owned(r)
    ensures Owned(Clear(r, conn, keys, now).0)
    decreases keys
  {
    if keys != [] {
      if keys[0] in r.slots && Dead(r, r.slots[keys[0]], now) {
        UnbindKeepsOwned(r, r.slots[keys[0]]);
        ClearKeepsOwned(Unbind(r, r.slots[keys[0]]), conn, keys[1..], now);
      } else {
        ClearKeepsOwned(r, conn, keys[1..], now);
      }
    }
  }

  /** Clearing takes away dead bindings only, and leaves the wanted keys free or with live
      slots of the same connection. */
  lemma {:induction false} ClearSpec(r: Reg, conn: Conn, keys: seq<string>, now: Instant)
    ensures var (c, ok) := Clear(r, conn, keys, now);
            && c.expiry == r.expiry
            && (forall k | k in c.slots :: k in r.slots && c.slots[k] == r.slots[k])
            && (forall k | IsLive(r, k, now) :: k in c.slots)
            && (ok <==> forall k | k in keys && IsLive(r, k, now) :: r.slots[k].conn == conn)
    decreases keys
  {
    if keys != [] {
      var k := keys[0];
      assert forall x :: x in keys <==> x == k || x in keys[1..];
      if k in r.slots && Dead(r, r.slots[k], now) {
        ClearSpec(Unbind(r, r.slots[k]), conn, keys[1..], now);
      } else {
        ClearSpec(r, conn, keys[1..], now);
      }
    }
  }

  /** After a successful pass every wanted key is free or live, if slots are whole. */
  lemma {:induction false} ClearLeavesLive(r: Reg, conn: Conn, keys: seq<string>, now: Instant)
    requires Owned(r) && Clear(r, conn, keys, now).1
    ensures var c := Clear(r, conn, keys, now).0;
            forall k | k in keys && k in c.slots :: IsLive(r, k, now)
    decreases keys
  {
    if keys != [] {
      var k := keys[0];
      assert forall x :: x in keys <==> x == k || x in keys[1..];
      ClearSpec(r, conn, keys, now);
      if k in r.slots && Dead(r, r.slots[k], now) {
        UnbindKeepsOwned(r, r.slots[k]);
        ClearLeavesLive(Unbind(r, r.slots[k]), conn, keys[1..], now);
        ClearSpec(Unbind(r, r.slots[k]), conn, keys[1..], now);
      } else {
        ClearLeavesLive(r, conn, keys[1..], now);
      }
    }
  }

  /** The live slots an Upsert of `s` would overwrite in part: not possible for another
      connection, but a connection that registers twice can do it to itself. */
  predicate Swallows(r: Reg, s: Slot, now: Instant) {
    forall k | k in s.keys :: IsLive(r, k, now) && r.slots[k] != s ==> forall x | x in r.slots[k].keys :: x in s.keys
  }

  /** Exact condition: a successful Upsert keeps every slot whole if and only if each live
      slot it overlaps has all its keys among the new ones. */
  lemma UpsertKeepsOwnedExactly(r: Reg, s: Slot, ttl: nat, now: Instant)
    requires Owned(r) && Upsert(r, s, ttl, now).1
    ensures Owned(Upsert(r, s, ttl, now).0) <==> Swallows(r, s, now)
  {
    var c, u := Clear(r, s.conn, s.keys, now).0, Upsert(r, s, ttl, now).0;
    ClearKeepsOwned(r, s.conn, s.keys, now);
    ClearSpec(r, s.conn, s.keys, now);
    ClearLeavesLive(r, s.conn, s.keys, now);
    if Swallows(r, s, now) {
      forall k | k in u.slots ensures k in u.slots[k].keys && Whole(u, u.slots[k]) {
        if k !in s.keys {
          assert Whole(c, c.slots[k]);
          if x :| x in c.slots[k].keys && x in s.keys {
            assert c.slots[x] == c.slots[k] && IsLive(r, x, now);
          }
        }
      }
    } else {
      var k :| k in s.keys && IsLive(r, k, now) && r.slots[k] != s && exists x | x in r.slots[k].keys :: x !in s.keys;
      var x :| x in r.slots[k].keys && x !in s.keys;
      assert Whole(c, c.slots[k]);
      assert u.slots[x] == r.slots[k] && u.slots[k] == s;
      assert !Whole(u, u.slots[x]);
    }
  }

  lemma {:induction false} ClearNothing(conn: Conn, keys: seq<string>, now: Instant)
    ensures Clear(EMPTY, conn, keys, now) == (EMPTY, true)
    decreases keys
  {
    if keys != [] {
      ClearNothing(conn, keys[1..], now);
    }
  }

  lemma FirstRegistration(s: Slot, ttl: nat, now: Instant)
    requires s.keys != []
    ensures var r := Run(EMPTY, ttl, [Register(s, now)]);
            && r.expiry == map[s := now + ttl]
            && (forall k :: k in r.slots <==> k in s.keys)
            && forall k | k in s.keys :: r.slots[k] == s
  {
    assert [Register(s, now)][..0] == [];
    ClearNothing(s.conn, s.keys, now);
  }

  /** It does happen: a connection that holds two keys registers again under the first alone,
      and its old slot stays bound under the second. */
  lemma SecondRegistrationSplits(s: Slot, t: Slot, ttl: nat, now: Instant)
    requires s != t && s.keys == ["a", "b"] && t.keys == ["a"] && s.conn == t.conn
    ensures var r := Run(EMPTY, ttl, [Register(s, now), Register(t, now)]);
            "a" in r.slots && r.slots["a"] == t && "b" in r.slots && r.slots["b"] == s && !Owned(r)
  {
    assert [Register(s, now), Register(t, now)][..1] == [Register(s, now)];
    FirstRegistration(s, ttl, now);
    var r := Run(EMPTY, ttl, [Register(s, now)]);
    assert "a" in s.keys && "b" in s.keys;
    assert "a" in t.keys && "b" !in t.keys;
    assert t.keys[1..] == [];
    assert Clear(r, t.conn, t.keys, now) == (r, true);
    var u := Run(EMPTY, ttl, [Register(s, now), Register(t, now)]);
    assert u.slots["b"] == s;
    assert !Whole(u, s);
  }

  /** A refused Upsert never removes the incumbent, or any other live binding. */
  lemma RefusalKeepsLive(r: Reg, s: Slot, ttl: nat, now: Instant, key: string)
    requires !Upsert(r, s, ttl, now).1 && IsLive(r, key, now)
    ensures var u := Upsert(r, s, ttl, now).0;
            key in u.slots && u.slots[key] == r.slots[key] && u.expiry == r.expiry
  {
    ClearSpec(r, s.conn, s.keys, now);
  }

  /** The connections that have registered so far. */
  function Conns(ops: seq<Op>): set<Conn> {
    if ops == [] then {} else
      var n := |ops| - 1;
      Conns(ops[..n]) + if ops[n].Register? then {ops[n].slot.conn} else {}
  }

  /** Each connection registers at most once, as the agent handler does. */
  ghost predicate OncePerConn(ops: seq<Op>) {
    ops == [] ||
    var n := |ops| - 1;
    OncePerConn(ops[..n]) && (ops[n].Register? ==> ops[n].slot.conn !in Conns(ops[..n]))
  }

  /** Ownership is whole, and each connection has one slot at most, from among `conns`. */
  ghost predicate Settled(r: Reg, conns: set<Conn>) {
    && Owned(r)
    && (forall k | k in r.slots :: r.slots[k].conn in conns)
    && (forall k, x | k in r.slots && x in r.slots && r.slots[k].conn == r.slots[x].conn :: r.slots[k] == r.slots[x])
  }

  lemma SweepKeepsOwned(r: Reg, now: Instant)
    requires Owned(r)
    ensures Owned(Sweep(r, now))
  {
    var u := Sweep(r, now);
    forall k | k in u.slots ensures Whole(u, u.slots[k]) {
      assert Whole(r, r.slots[k]);
    }
  }

  lemma RegisterKeepsSettled(r: Reg, s: Slot, ttl: nat, now: Instant, conns: set<Conn>)
    requires Settled(r, conns) && s.conn !in conns
    ensures Settled(Upsert(r, s, ttl, now).0, conns + {s.conn})
  {
    ClearKeepsOwned(r, s.conn, s.keys, now);
    ClearSpec(r, s.conn, s.keys, now);
    var u := Upsert(r, s, ttl, now);
    if u.1 {
      assert Swallows(r, s, now);
      UpsertKeepsOwnedExactly(r, s, ttl, now);
    }
  }

  lemma StepKeepsSettled(r: Reg, ttl: nat, op: Op, conns: set<Conn>)
    requires Settled(r, conns) && (op.Register? ==> op.slot.conn !in conns)
    ensures Settled(Apply(r, ttl, op), conns + if op.Register? then {op.slot.conn} else {})
  {
    match op
    case Register(s, at) => RegisterKeepsSettled(r, s, ttl, at, conns);
    case Ping(key, _) =>
    case Lookup(key, _) =>
      if key in r.slots {
        UnbindKeepsOwned(r, r.slots[key]);
      }
    case Leave(key, _, _) =>
      if key in r.slots {
        UnbindKeepsOwned(r, r.slots[key]);
      }
    case Tidy(at) => SweepKeepsOwned(r, at);
  }

  /** Main result: in every run in which each connection registers once, every registered
      slot is bound under exactly all of its keys, and no connection has two slots. */
  lemma {:induction false} OwnershipIsAllOrNothing(ttl: nat, ops: seq<Op>)
    requires OncePerConn(ops)
    ensures Settled(Run(EMPTY, ttl, ops), Conns(ops))
  {
    if ops != [] {
      var n := |ops| - 1;
      OwnershipIsAllOrNothing(ttl, ops[..n]);
      StepKeepsSettled(Run(EMPTY, ttl, ops[..n]), ttl, ops[n], Conns(ops[..n]));
    }
  }

  /** Distinct registered slots have disjoint key sets. */
  lemma SlotsAreDisjoint(ttl: nat, ops: seq<Op>, k: string, x: string)
    requires OncePerConn(ops)
    requires k in Run(EMPTY, ttl, ops).slots && x in Run(EMPTY, ttl, ops).slots
    ensures var r := Run(EMPTY, ttl, ops);
            r.slots[k] == r.slots[x] || forall y | y in r.slots[k].keys :: y !in r.slots[x].keys
  {
    OwnershipIsAllOrNothing(ttl, ops);
    var r := Run(EMPTY, ttl, ops);
    assert Whole(r, r.slots[k]) && Whole(r, r.slots[x]);
  }

  /** Whether the run offered this slot for registration. */
  ghost predicate Offered(ops: seq<Op>, s: Slot) {
    ops != [] && (var n := |ops| - 1; Offered(ops[..n], s) || (ops[n].Register? && ops[n].slot == s))
  }

  lemma {:induction false} OfferedConn(ops: seq<Op>, s: Slot)
    requires Offered(ops, s)
    ensures s.conn in Conns(ops)
  {
    var n := |ops| - 1;
    if Offered(ops[..n], s) {
      OfferedConn(ops[..n], s);
    }
  }

  lemma {:induction false} BoundWasOffered(ttl: nat, ops: seq<Op>, key: string)
    requires key in Run(EMPTY, ttl, ops).slots
    ensures Offered(ops, Run(EMPTY, ttl, ops).slots[key])
  {
    if ops != [] {
      var n := |ops| - 1;
      var r := Run(EMPTY, ttl, ops[..n]);
      if ops[n].Register? {
        ClearSpec(r, ops[n].slot.conn, ops[n].slot.keys, ops[n].at);
      }
      if key in r.slots {
        BoundWasOffered(ttl, ops[..n], key);
      }
    }
  }

  lemma {:induction false} OneSlotPerConn(ops: seq<Op>, s: Slot, t: Slot)
    requires OncePerConn(ops) && Offered(ops, s) && Offered(ops, t) && s.conn == t.conn
    ensures s == t
  {
    var n := |ops| - 1;
    if Offered(ops[..n], s) {
      OfferedConn(ops[..n], s);
      if Offered(ops[..n], t) {
        OneSlotPerConn(ops[..n], s, t);
      }
    } else if Offered(ops[..n], t) {
      OfferedConn(ops[..n], t);
    }
  }

  /** Main result: when the agent handler leaves by its first key, no key leads to its
      connection any more, even if its slot had expired and been replaced in between. */
  lemma LeavingRemovesEveryKey(ttl: nat, ops: seq<Op>, s: Slot, now: Instant, key: string)
    requires OncePerConn(ops) && Offered(ops, s) && s.keys != []
    ensures var r := Apply(Run(EMPTY, ttl, ops), ttl, Leave(s.keys[0], Some(s.conn), now));
            key in r.slots ==> r.slots[key].conn != s.conn
  {
    var r := Run(EMPTY, ttl, ops);
    OwnershipIsAllOrNothing(ttl, ops);
    if key in r.slots && r.slots[key].conn == s.conn {
      BoundWasOffered(ttl, ops, key);
      OneSlotPerConn(ops, r.slots[key], s);
      assert Whole(r, s);
    }
  }
}
