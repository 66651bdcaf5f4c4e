/** The table region's fixed slots (src/slots.rs). A bitmap is the set of its bits. */
module Slots {
  import opened Arithmetic
  import opened Keys

  const MAX_SLOTS := 64

  /** `slots` slots of `blocks` blocks each, from block `base` on. */
  datatype Layout = Layout(base: nat, blocks: nat, slots: nat) {
    function SlotBase(slot: nat): nat {
      base + slot * blocks
    }

    /** The run lies in `slot`. */
    ghost predicate Inside(first: nat, count: nat, slot: nat) {
      count > 0 && slot < slots && SlotBase(slot) <= first && first + count <= SlotBase(slot + 1)
    }

    function SlotOf(first: nat, count: nat): (r: Option<nat>)
    {
      if blocks == 0 || first < base || count == 0 then None
      else
        var slot := (first - base) / blocks;
        if slot >= slots then None
        else if first + count <= base + (slot + 1) * blocks then Some(slot) else None
    }
  }

  /** `layout`. */
  function LayOut(start: nat, end: nat, slots: nat, minBlocks: nat): (r: Option<Layout>)
    ensures r.Some? ==>
              r.value.base == start && r.value.slots == slots && r.value.blocks > 0 && r.value.SlotBase(slots) <= end
    ensures r.None? <==>
              slots == 0 || slots > MAX_SLOTS || end <= start || (end - start) / slots == 0
                  || (end - start) / slots < minBlocks
  {
    if slots == 0 || slots > MAX_SLOTS || end <= start then None
    else
      var n := (end - start) / slots;
      assert slots * n <= end - start;
      if n == 0 || n < minBlocks then None else Some(Layout(start, n, slots))
  }

  lemma QuotientBounds(x: nat, n: nat)
    requires n > 0
    ensures (x / n) * n <= x < (x / n + 1) * n
  {
    assert x == n * (x / n) + x % n;
  }

  /** A region is laid out exactly when it has room for every slot with the blocks asked for, and then each slot is as
      large as it can be. */
  lemma LayOutExactly(start: nat, end: nat, slots: nat, minBlocks: nat)
    ensures LayOut(start, end, slots, minBlocks).Some? <==>
            0 < slots <= 64 && start + slots <= end && start + minBlocks * slots <= end
    ensures LayOut(start, end, slots, minBlocks).Some? ==>
              var l := LayOut(start, end, slots, minBlocks).value;
              minBlocks <= l.blocks && l.blocks * slots <= end - start < (l.blocks + 1) * slots
  {
    if 0 < slots && start < end {
      var x := end - start;
      QuotientBounds(x, slots);
      if minBlocks * slots <= x { DivAtLeast(x, slots, minBlocks); }
      if slots <= x { DivAtLeast(x, slots, 1); }
      if minBlocks <= x / slots { MulMonotone(minBlocks, x / slots, slots); }
      if 1 <= x / slots { MulMonotone(1, x / slots, slots); }
    }
  }

  /** `slot_of` finds the slot that holds the whole run, exactly when there is one. */
  lemma SlotOfExact(l: Layout, first: nat, count: nat, slot: nat)
    ensures l.SlotOf(first, count) == Some(slot) <==> l.Inside(first, count, slot)
  {
    if l.blocks > 0 && first >= l.base && count > 0 {
      var q := (first - l.base) / l.blocks;
      QuotientBounds(first - l.base, l.blocks);
      if slot < q {
        MulMonotone(slot + 1, q, l.blocks);
      } else if slot > q {
        MulMonotone(q + 1, slot, l.blocks);
      }
    }
  }

  /** Runs of different slots do not overlap. */
  lemma SlotsDisjoint(l: Layout, f1: nat, c1: nat, s1: nat, f2: nat, c2: nat, s2: nat)
    requires l.Inside(f1, c1, s1) && l.Inside(f2, c2, s2) && s1 != s2
    ensures f1 + c1 <= f2 || f2 + c2 <= f1
  {
    if s1 < s2 { MulMonotone(s1 + 1, s2, l.blocks); } else { MulMonotone(s2 + 1, s1, l.blocks); }
  }

  /** The slot tried after `i` others. */
  function Turn(hint: nat, slots: nat, i: nat): (s: nat)
    requires slots > 0
    ensures s < slots
  {
    (hint + i) % slots
  }

  /** Next-fit visits every slot. */
  lemma Rotation(hint: nat, slots: nat, s: nat) returns (i: nat)
    requires hint < slots && s < slots
    ensures i < slots && Turn(hint, slots, i) == s
  {
    i := if s >= hint then s - hint else s + slots - hint;
    if s < hint { assert (s + slots) % slots == s; }
  }

  lemma NextHint(slot: nat, slots: nat)
    requires slot < slots
    ensures (slot + 1) % slots == if slot + 1 == slots then 0 else slot + 1
  {}

  /** The slot is the first free one from the hint on, in rotation. */
  ghost predicate FirstFrom(slots: nat, hint: nat, taken: set<nat>, slot: nat) {
    slots > 0 && exists i :: 0 <= i < slots && slot == Turn(hint, slots, i)
                   && forall j :: 0 <= j < i ==> Turn(hint, slots, j) in taken
  }

  class SlotMap {
    const layout: Layout
    var used: set<nat>
    var reserved: set<nat>
    var hint: nat

    ghost predicate Valid()
      reads this
    {
      && layout.slots > 0 && hint < layout.slots && used !! reserved
      && (forall s :: s in used || s in reserved ==> s < layout.slots)
    }

    constructor (l: Layout)
      requires l.slots > 0
      ensures Valid() && layout == l && used == {} && reserved == {}
    {
      layout, used, reserved, hint := l, {}, {}, 0;
    }

    method MarkUsed(slot: nat) returns (ok: bool)
      requires Valid() && slot !in reserved
      modifies this`used
      ensures Valid() && ok == (slot < layout.slots && slot !in old(used))
      ensures used == if ok then old(used) + {slot} else old(used)
    {
      if slot >= layout.slots || slot in used {
        return false;
      }
      used := used + {slot};
      return true;
    }

    method FindFree() returns (r: Option<nat>)
      requires Valid()
      ensures r.Some? ==> r.value < layout.slots && r.value !in used && r.value !in reserved
      ensures r.None? ==> forall s :: 0 <= s < layout.slots ==> s in used || s in reserved
      ensures r.Some? ==> FirstFrom(layout.slots, hint, used + reserved, r.value)
    {
      for i := 0 to layout.slots
        invariant forall j :: 0 <= j < i ==>
                    Turn(hint, layout.slots, j) in used || Turn(hint, layout.slots, j) in reserved
      {
        var slot := Turn(hint, layout.slots, i);
        if slot !in used && slot !in reserved {
          assert forall j :: 0 <= j < i ==> Turn(hint, layout.slots, j) in used + reserved;
          return Some(slot);
        }
      }
      forall s | 0 <= s < layout.slots ensures s in used || s in reserved {
        var i := Rotation(hint, layout.slots, s);
      }
      return None;
    }

    method Claim(slot: nat)
      requires Valid() && slot < layout.slots && slot !in used && slot !in reserved
      modifies this`used, this`hint
      ensures Valid() && used == old(used) + {slot} && hint == if slot + 1 == layout.slots then 0 else slot + 1
    {
      NextHint(slot, layout.slots);
      used := used + {slot};
      hint := (slot + 1) % layout.slots;
    }

    method Reserve() returns (r: Option<nat>)
      requires Valid()
      modifies this`reserved, this`hint
      ensures Valid()
      ensures r.Some? ==> r.value !in used && r.value !in old(reserved) && reserved == old(reserved) + {r.value}
      ensures r.None? ==> reserved == old(reserved) && forall s :: 0 <= s < layout.slots ==> s in used || s in reserved
      ensures r.Some? ==> hint == if r.value + 1 == layout.slots then 0 else r.value + 1
    {
      hide FirstFrom;
      r := FindFree();
      if r.Some? {
        NextHint(r.value, layout.slots);
        reserved := reserved + {r.value};
        hint := (r.value + 1) % layout.slots;
      }
    }

    method Commit(slot: nat)
      requires Valid() && slot in reserved
      modifies this`used, this`reserved
      ensures Valid() && used == old(used) + {slot} && reserved == old(reserved) - {slot}
    {
      used, reserved := used + {slot}, reserved - {slot};
    }

    method Free(slot: nat)
      requires Valid()
      modifies this`used
      ensures Valid() && used == old(used) - {slot}
    {
      used := used - {slot};
    }
  }
}
