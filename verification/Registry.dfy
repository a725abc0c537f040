/** The Registry object of registry/registry.go, proved against the values of module
    Registries. */
module RegistryObjects {
  import opened Clock
  import opened Options
  import opened Registries

  class Registry {
    var slots: map<string, Slot>
    const ttl: nat

    ghost var reg: Reg  // the value this object stands for

    ghost predicate Valid()
      reads this, slots.Values
    {
      && reg.slots == slots
      && (forall k | k in slots :: k in slots[k].keys)
      && (forall k | k in slots :: slots[k].expiresAt == Expiry(reg, slots[k]))
    }

    constructor (ttl: nat)
      ensures Valid() && reg == EMPTY && this.ttl == ttl
    {
      this.ttl := ttl;
      slots, reg := map[], EMPTY;
    }

    /** deleteSlotLocked. */
    method DeleteSlot(s: Slot)
      requires Valid()
      modifies this
      ensures Valid() && reg == Unbind(old(reg), s)
    {
      ghost var was := reg;
      for i := 0 to |s.keys|
        invariant Valid() && reg == Without(was, s, s.keys[..i])
      {
        var k := s.keys[i];
        WithoutOne(was, s, s.keys[..i], k);
        assert s.keys[..i + 1] == s.keys[..i] + [k];
        if k in slots && slots[k] == s {
          slots := slots - {k};
          reg := reg.(slots := slots);
        }
      }
      assert s.keys[..|s.keys|] == s.keys;
    }

    method Upsert(s: Slot, now: Instant) returns (ok: bool)
      requires Valid()
      modifies this, s
      ensures Valid()
      ensures (reg, ok) == Registries.Upsert(old(reg), s, ttl, now)
    {
      if |s.keys| == 0 {
        return false;
      }
      ok := ClearKeys(s, now);
      if !ok {
        return false;
      }
      s.expiresAt := now + ttl;
      BindAll(s, now);
    }

    /** Upsert's pass over the wanted keys. */
    method ClearKeys(s: Slot, now: Instant) returns (ok: bool)
      requires Valid()
      modifies this
      ensures Valid()
      ensures (reg, ok) == Clear(old(reg), s.conn, s.keys, now)
    {
      var i := 0;
      while i < |s.keys|
        invariant 0 <= i <= |s.keys| && Valid()
        invariant Clear(old(reg), s.conn, s.keys, now) == Clear(reg, s.conn, s.keys[i..], now)
        decreases |s.keys| - i
      {
        var k := s.keys[i];
        assert s.keys[i..][0] == k && s.keys[i..][1..] == s.keys[i + 1..];
        i := i + 1;
        if k !in slots {
          continue;
        }
        var cur := slots[k];
        if now > cur.expiresAt {
          DeleteSlot(cur);
          continue;
        }
        if cur.conn != s.conn {
          return false;
        }
      }
      return true;
    }

    /** Upsert's closing loop, once the slot carries its new expiry. */
    method BindAll(s: Slot, now: Instant)
      requires reg.slots == slots && s.expiresAt == now + ttl
      requires forall k | k in slots :: k in slots[k].keys
      requires forall k | k in slots && slots[k] != s :: slots[k].expiresAt == Expiry(reg, slots[k])
      modifies this
      ensures Valid() && reg == Reg(Bind(old(reg).slots, s), old(reg).expiry[s := now + ttl])
    {
      ghost var was := slots;
      for i := 0 to |s.keys|
        invariant reg == old(reg)
        invariant forall k :: k in slots <==> k in was || k in s.keys[..i]
        invariant forall k | k in slots :: slots[k] == if k in s.keys[..i] then s else was[k]
      {
        slots := slots[s.keys[i] := s];
        assert s.keys[..i + 1] == s.keys[..i] + [s.keys[i]];
      }
      assert s.keys[..|s.keys|] == s.keys;
      reg := Reg(slots, reg.expiry[s := now + ttl]);
      assert slots == Bind(was, s);
    }

    method Touch(key: string, now: Instant) returns (ok: bool)
      requires Valid()
      modifies this`reg, slots.Values
      ensures Valid() && ok == (key in old(reg).slots)
      ensures reg == Registries.Touch(old(reg), key, ttl, now)
    {
      if key !in slots {
        return false;
      }
      slots[key].expiresAt := now + ttl;
      reg := reg.(expiry := reg.expiry[slots[key] := now + ttl]);
      return true;
    }

    method Get(key: string, now: Instant) returns (found: Option<Slot>)
      requires Valid()
      modifies this
      ensures Valid()
      ensures (reg, found) == Registries.Get(old(reg), key, now)
    {
      if key !in slots {
        return None;
      }
      var s := slots[key];
      if now > s.expiresAt {
        DeleteSlot(s);
        return None;
      }
      return Some(s);
    }

    method Remove(key: string, conn: Option<Conn>)
      requires Valid()
      modifies this
      ensures Valid() && reg == Registries.Remove(old(reg), key, conn)
    {
      if key !in slots {
        return;
      }
      var s := slots[key];
      if conn.Some? && s.conn != conn.value {
        return;
      }
      DeleteSlot(s);
    }

    /** Sweep: the map is ranged in arbitrary order while dead slots are deleted from it;
        a key deleted before its turn is not visited. */
    method Sweep(now: Instant) returns (n: nat)
      requires Valid()
      modifies this
      ensures Valid() && reg == Registries.Sweep(old(reg), now)
      ensures n == |DeadSlots(old(reg), now)|
    {
      ghost var was := reg;
      var todo := slots.Keys;
      var seen: set<Slot> := {};
      n := 0;
      while todo != {}
        invariant Valid() && Swept(was, reg, todo, seen, now) && n == |seen|
        decreases todo
      {
        var key :| key in todo;
        var s := slots[key];
        SweptOne(was, reg, todo, seen, now, key);
        var gone := DropIfDead(s, key, now);
        if gone {
          seen := seen + {s};
          n := n + 1;
          todo := todo * slots.Keys;
        } else {
          todo := todo - {key};
        }
      }
      AllSeen(was, reg, seen, now);
    }

    /** The body of Sweep's loop. */
    method DropIfDead(s: Slot, ghost key: string, now: Instant) returns (gone: bool)
      requires Valid() && key in slots && slots[key] == s
      modifies this
      ensures Valid() && gone == Dead(old(reg), s, now)
      ensures reg == if gone then Unbind(old(reg), s) else old(reg)
    {
      gone := now > s.expiresAt;
      if gone {
        DeleteSlot(s);
      }
    }

    method Len() returns (n: nat)
      requires Valid()
      ensures n == |reg.slots.Values|
    {
      n := |slots.Values|;
    }

    /** CountByIP: distinct connections, not keys. */
    method CountByIP(ip: string, now: Instant) returns (n: nat)
      requires Valid()
      ensures n == |ConnsAt(reg, ip, now)|
    {
      var seen: set<Conn> := {};
      var todo := slots.Keys;
      while todo != {}
        invariant todo <= slots.Keys
        invariant seen == set k | k in slots && k !in todo && !Dead(reg, slots[k], now) && slots[k].remoteIP == ip ::
            slots[k].conn
        decreases todo
      {
        var key :| key in todo;
        todo := todo - {key};
        var s := slots[key];
        if now > s.expiresAt {
          continue;
        }
        if s.remoteIP == ip {
          seen := seen + {s.conn};
        }
      }
      assert seen == ConnsAt(reg, ip, now);
      n := |seen|;
    }
  }

  function DeadSlots(r: Reg, now: Instant): set<Slot> {
    set k | k in r.slots && Dead(r, r.slots[k], now) :: r.slots[k]
  }

  /** The state of Sweep's loop: only slots in `seen` have gone, all of them dead, and no live
      key but those in `todo` is still to be looked at. */
  ghost predicate Swept(was: Reg, r: Reg, todo: set<string>, seen: set<Slot>, now: Instant) {
    && r.expiry == was.expiry && todo <= r.slots.Keys <= was.slots.Keys
    && (forall k | k in r.slots :: r.slots[k] == was.slots[k])
    && (forall k | k in r.slots.Keys - todo :: !Dead(was, was.slots[k], now))
    && (forall k | k in was.slots.Keys - r.slots.Keys :: was.slots[k] in seen)
    && forall s | s in seen :: s in DeadSlots(was, now) && forall k | k in r.slots :: r.slots[k] != s
  }

  lemma SweptOne(was: Reg, r: Reg, todo: set<string>, seen: set<Slot>, now: Instant, key: string)
    requires Swept(was, r, todo, seen, now) && key in todo
    requires forall k | k in r.slots :: k in r.slots[k].keys
    ensures var s := r.slots[key]; var u := Unbind(r, s);
            if Dead(r, s, now) then s !in seen && key !in u.slots && Swept(was, u, todo * u.slots.Keys, seen + {s}, now)
            else Swept(was, r, todo - {key}, seen, now)
  {}

  lemma AllSeen(was: Reg, r: Reg, seen: set<Slot>, now: Instant)
    requires Swept(was, r, {}, seen, now)
    ensures seen == DeadSlots(was, now) && r == Registries.Sweep(was, now)
  {
    assert forall k | k in was.slots && k !in r.slots :: was.slots[k] in DeadSlots(was, now);
  }

  /** The value once `gone`, the first keys of `s`, have been looked at. */
  function Without(r: Reg, s: Slot, gone: seq<string>): Reg {
    r.(slots := map k | k in r.slots && !(k in gone && r.slots[k] == s) :: r.slots[k])
  }

  lemma WithoutOne(r: Reg, s: Slot, gone: seq<string>, key: string)
    ensures var w := Without(r, s, gone);
            Without(r, s, gone + [key]) ==
            if key in w.slots && w.slots[key] == s then w.(slots := w.slots - {key}) else w
  {}
}
