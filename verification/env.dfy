/** The environment table of kern/env.c: identifiers, the free list and envid2env. */
module Environments {

  const NENV: nat := 1024
  const GEN: nat := 0x1000           // 1 << ENVGENSHIFT
  const PERIOD: nat := 0x7FFFF       // generations before env_alloc starts over

  const E_BAD_ENV: int := 2
  const E_NO_FREE_ENV: int := 5

  datatype Status = FREE | DYING | RUNNABLE | RUNNING | NOT_RUNNABLE

  /** 32-bit two's complement wrap-around of a sum of two values below 2^31. */
  function Wrap32(n: int): int {
    if n >= 0x8000_0000 then n - 0x1_0000_0000 else n
  }

  function Envx(id: int): nat {
    id % NENV
  }

  /** The identifier env_alloc gives a slot whose last one was id. */
  function NextId(id: int, slot: nat): int {
    var sum := Wrap32(id + GEN);
    var generation := sum - sum % NENV;
    (if generation <= 0 then GEN else generation) + slot
  }

  /** The identifier of a slot after n allocations. */
  function IdAfter(slot: nat, n: nat): int {
    if n == 0 then 0 else NextId(IdAfter(slot, n - 1), slot)
  }

  lemma NextIdForm(slot: nat, g: nat)
    requires slot < NENV && 1 <= g <= PERIOD
    ensures NextId(GEN * g + slot, slot) == GEN * (if g == PERIOD then 1 else g + 1) + slot
  {
    var sum := Wrap32(GEN * g + slot + GEN);
    if g < PERIOD {
      assert sum == NENV * (4 * g + 4) + slot;
      LowBits(4 * g + 4, slot);
    } else {
      assert sum == slot - 0x8000_0000;
    }
  }

  lemma LowBits(q: int, r: int)
    requires 0 <= r < NENV
    ensures (NENV * q + r) % NENV == r
  {
  }

  lemma NextRemainder(x: nat)
    ensures (x + 1) % PERIOD == if x % PERIOD + 1 == PERIOD then 0 else x % PERIOD + 1
  {
  }

  /** In closed form: generations count up in steps of 4096 and start over after 524287. */
  lemma {:induction false} IdClosedForm(slot: nat, n: nat)
    requires slot < NENV && n >= 1
    ensures IdAfter(slot, n) == GEN * (1 + (n - 1) % PERIOD) + slot
  {
    hide NextId;
    if n > 1 {
      IdClosedForm(slot, n - 1);
      NextRemainder(n - 2);
      NextIdForm(slot, 1 + (n - 2) % PERIOD);
    } else {
      assert IdAfter(slot, 0) == 0;
      FirstId(slot);
    }
  }

  lemma FirstId(slot: nat)
    requires slot < NENV
    ensures NextId(0, slot) == GEN + slot
  {
  }

  /** Every allocated identifier is positive and names its slot. */
  lemma IdNamesSlot(slot: nat, n: nat)
    requires slot < NENV && n >= 1
    ensures 0 < IdAfter(slot, n) < 0x8000_0000 && Envx(IdAfter(slot, n)) == slot
  {
    hide IdAfter;
    IdClosedForm(slot, n);
    var k := 4 * (1 + (n - 1) % PERIOD);
    assert IdAfter(slot, n) == NENV * k + slot;
  }

  /** Two allocations of one slot share an identifier exactly when a multiple of 524287 lies between them. */
  lemma IdRepeatsIff(slot: nat, i: nat, j: nat)
    requires slot < NENV && 1 <= i <= j
    ensures IdAfter(slot, i) == IdAfter(slot, j) <==> (j - i) % PERIOD == 0
  {
    IdClosedForm(slot, i);
    IdClosedForm(slot, j);
    hide IdAfter;
    SameRemainder(i - 1, j - 1);
  }

  /** Division with remainder, spelt out. */
  lemma Divide(x: int) returns (q: int, r: int)
    ensures x == PERIOD * q + r && 0 <= r < PERIOD && r == x % PERIOD
  {
    q, r := x / PERIOD, x % PERIOD;
  }

  lemma SameRemainder(x: int, y: int)
    ensures (y - x) % PERIOD == 0 <==> x % PERIOD == y % PERIOD
  {
    var p, a := Divide(x);
    var q, b := Divide(y);
    var k, c := Divide(y - x);
    NoMultipleBetween(a, b, c, q - p - k);
  }

  lemma NoMultipleBetween(a: int, b: int, c: int, k: int)
    requires 0 <= a < PERIOD && 0 <= b < PERIOD && 0 <= c < PERIOD && PERIOD * k == c + a - b
    ensures c == 0 <==> a == b
  {
  }
}
