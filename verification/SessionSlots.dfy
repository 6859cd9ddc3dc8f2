/** The session registry: a fixed array of slots and a round-robin cursor
    (createNewSession and session_closed in libexio/AdminInterfaceImpl.cc). */
module SessionSlots {
  import opened SamTree

  const MAX_SESSIONS: nat := 2000
  const REG_SIZE: nat := 2001

  type Slot = Option<nat>

  /** The slot `i` places behind the cursor. */
  function Around(next: nat, i: nat): nat {
    (next + i) % REG_SIZE
  }

  /** Moving the cursor on by one, with its wrap. */
  lemma AroundNext(next: nat, i: nat)
    ensures Around(next, i) <= MAX_SESSIONS
    ensures Around(next, i + 1) == if Around(next, i) + 1 > MAX_SESSIONS then 0 else Around(next, i) + 1
    ensures Around(next, i + 1) == (Around(next, i) + 1) % REG_SIZE
  {
  }

  /** Slot 0 is never given out. */
  predicate Free(reg: seq<Slot>, k: nat) {
    0 < k < |reg| && reg[k].None?
  }

  /** The places before the `i`-th behind the cursor offer nothing. */
  predicate NothingBefore(reg: seq<Slot>, next: nat, i: nat) {
    forall j :: 0 <= j < i ==> !Free(reg, Around(next, j))
  }

  /** Every slot is some number of places behind the cursor, less than the size. */
  function PlacesBehind(next: nat, k: nat): (i: nat)
    requires next < REG_SIZE && k < REG_SIZE
    ensures i < REG_SIZE && Around(next, i) == k
  {
    if k >= next then k - next else k + REG_SIZE - next
  }

  lemma Exhausted(reg: seq<Slot>, next: nat)
    requires |reg| == REG_SIZE && next < REG_SIZE && NothingBefore(reg, next, REG_SIZE)
    ensures forall k :: 0 <= k < |reg| ==> !Free(reg, k)
  {
    forall k | 0 <= k < |reg| ensures !Free(reg, k) {
      assert !Free(reg, Around(next, PlacesBehind(next, k)));
    }
  }

  /** The slots in use, not counting slot 0. */
  function Used(slots: seq<Slot>): (n: nat)
    ensures n <= |slots|
  {
    if slots == [] then 0 else (if slots[0].Some? then 1 else 0) + Used(slots[1..])
  }

  lemma {:induction false} UsedIff(slots: seq<Slot>)
    ensures Used(slots) < |slots| <==> exists k :: 0 <= k < |slots| && slots[k].None?
  {
    if slots != [] {
      UsedIff(slots[1..]);
      if k :| 0 <= k < |slots[1..]| && slots[1..][k].None? { assert slots[k + 1].None?; }
      if k :| 0 < k < |slots| && slots[k].None? { assert slots[1..][k - 1].None?; }
    }
  }

  /** There is a free slot exactly while fewer than the maximum are in use. */
  lemma RoomIff(reg: seq<Slot>)
    requires |reg| == REG_SIZE
    ensures Used(reg[1..]) < MAX_SESSIONS <==> exists k :: 0 <= k < |reg| && Free(reg, k)
  {
    UsedIff(reg[1..]);
    if k :| 0 <= k < |reg| && Free(reg, k) { assert reg[1..][k - 1].None?; }
    if k :| 0 <= k < |reg[1..]| && reg[1..][k].None? { assert Free(reg, k + 1); }
  }

  /** Right after a slot was given out it is the last in line: any other free slot comes first. */
  lemma LastInLine(reg: seq<Slot>, slot: nat, i: nat)
    requires |reg| == REG_SIZE && 0 < slot < REG_SIZE && i < REG_SIZE
    requires Around((slot + 1) % REG_SIZE, i) == slot && NothingBefore(reg, (slot + 1) % REG_SIZE, i)
    ensures forall k :: 0 <= k < |reg| && k != slot ==> !Free(reg, k)
  {
    var next := (slot + 1) % REG_SIZE;
    forall k | 0 <= k < |reg| && k != slot ensures !Free(reg, k) {
      var j := PlacesBehind(next, k);
      assert i == REG_SIZE - 1;
      assert !Free(reg, Around(next, j));
    }
  }

  class SessionRegistry {
    const reg: array<Slot>
    var next: nat
    var createdCount: nat

    ghost predicate Valid()
      reads this, reg
    {
      reg.Length == REG_SIZE && next < REG_SIZE && reg[0].None?
    }

    constructor ()
      ensures Valid() && fresh(reg) && next == 1 && createdCount == 0
      ensures forall k :: 0 <= k < reg.Length ==> reg[k].None?
    {
      reg := new Slot[REG_SIZE](_ => None);
      next, createdCount := 1, 0;
    }

    /** The search loop: the first free slot in round-robin order, or 0 when there is none; the
        cursor ends up behind the slot found. */
    method FindSlot() returns (index: nat, ghost at: nat)
      requires Valid()
      modifies `next
      ensures Valid()
      ensures index == 0 <==> Used(reg[..][1..]) == MAX_SESSIONS
      ensures index != 0 ==> Free(reg[..], index) && next == (index + 1) % REG_SIZE
      ensures index != 0 ==> at < REG_SIZE && index == Around(old(next), at) && NothingBefore(reg[..], old(next), at)
      ensures index == 0 ==> next == old(next)
    {
      index := 0;
      var i := 0;
      ghost var all := reg[..];
      RoomIff(all);
      while i < REG_SIZE && index == 0
        invariant i <= REG_SIZE && next < REG_SIZE
        invariant index == 0 ==> next == Around(old(next), i) && NothingBefore(all, old(next), i)
        invariant index != 0 ==> i > 0 && Free(all, index) && index == Around(old(next), i - 1) && next == (index + 1) % REG_SIZE
        invariant index != 0 ==> NothingBefore(all, old(next), i - 1)
      {
        AroundNext(old(next), i);
        if next != 0 && reg[next].None? { index := next; }
        next := next + 1;
        if next > MAX_SESSIONS { next := 0; }
        i := i + 1;
      }
      at := i - if index == 0 then 0 else 1;
      if index == 0 { Exhausted(all, old(next)); }
    }

    /** `createNewSession`, as far as the registry goes: it fails exactly when every slot is in
        use, and otherwise takes a free slot and touches no other. */
    method Create(session: nat) returns (slot: Slot)
      requires Valid()
      modifies `next, `createdCount, reg
      ensures Valid()
      ensures slot.None? <==> old(Used(reg[..][1..])) == MAX_SESSIONS
      ensures createdCount == old(createdCount) + if slot.Some? then 1 else 0
      ensures slot.None? ==> reg[..] == old(reg[..])
      ensures slot.Some? ==> old(Free(reg[..], slot.value)) && reg[..] == old(reg[..])[slot.value := Some(session)]
    {
      var index, _ := FindSlot();
      if index == 0 {
        slot := None;
      } else {
        reg[index] := Some(session);
        createdCount := createdCount + 1;
        slot := Some(index);
      }
    }

    /** `session_closed`: the slot is free again. */
    method Close(slot: nat)
      requires Valid() && slot < REG_SIZE
      modifies reg
      ensures Valid() && reg[..] == old(reg[..])[slot := None]
    {
      reg[slot] := None;
    }
  }
}
