/** The binary search over debugging symbols in kern/kdebug.c. */
module Stabs {
  datatype Stab = Stab(ntype: int, value: nat)

  const TOP: nat := 0xFFFF_FFFF         // a stab at this address would wrap addr++ around

  /** Entry i is of the wanted type. */
  predicate Is(stabs: seq<Stab>, ntype: int, i: int) {
    0 <= i < |stabs| && stabs[i].ntype == ntype
  }

  /** The inner loop: the nearest entry of the type at or before m, not before l; l - 1 if none. */
  function Back(stabs: seq<Stab>, ntype: int, l: int, m: int): (k: int)
    requires 0 <= l && m < |stabs| && l - 1 <= m
    ensures l - 1 <= k <= m && (k >= l ==> Is(stabs, ntype, k)) && forall i :: k < i <= m && i >= l ==> !Is(stabs, ntype, i)
    decreases m - l
  {
    if m < l || stabs[m].ntype == ntype then m else Back(stabs, ntype, l, m - 1)
  }

  /** Entries with a value not below addr: what an exact match makes fewer. */
  ghost function NotBelow(stabs: seq<Stab>, addr: nat): set<int> {
    set i | 0 <= i < |stabs| && stabs[i].value >= addr
  }

  lemma BumpFewer(stabs: seq<Stab>, addr: nat, m: int)
    requires 0 <= m < |stabs| && stabs[m].value == addr
    ensures |NotBelow(stabs, addr + 1)| < |NotBelow(stabs, addr)|
  {
    var a, b := NotBelow(stabs, addr + 1), NotBelow(stabs, addr);
    assert m in b && m !in a && a <= b;
    Smaller(a, b - {m});
  }

  lemma Smaller(a: set<int>, b: set<int>)
    requires a <= b
    ensures |a| <= |b|
  {
    assert b == a + (b - a);
  }

  datatype Found = Found(left: int, right: int, any: bool)

  /** The outer loop from a given state on; *region_right always equals r. */
  ghost function Loop(stabs: seq<Stab>, ntype: int, l: int, r: int, addr: nat, left: int, any: bool): (f: Found)
    requires 0 <= l <= r + 1 <= |stabs| && 0 <= left
    ensures 0 <= f.left && f.right < |stabs|
    decreases |NotBelow(stabs, addr)|, r - l + 1
  {
    if l > r then Found(left, r, any)
    else
      var mid := (l + r) / 2;
      var m := Back(stabs, ntype, l, mid);
      if m < l then Loop(stabs, ntype, mid + 1, r, addr, left, any)
      else if stabs[m].value < addr then Loop(stabs, ntype, mid + 1, r, addr, m, true)
      else if stabs[m].value > addr then Loop(stabs, ntype, l, m - 1, addr, left, true)
      else
        BumpFewer(stabs, addr, m);
        Loop(stabs, ntype, m, r, addr + 1, m, true)
  }

  /** The whole search: the region (left, right) it leaves. */
  ghost function Search(stabs: seq<Stab>, ntype: int, left: int, right: int, addr: nat): (int, int)
    requires 0 <= left <= right + 1 <= |stabs|
  {
    var f := Loop(stabs, ntype, left, right, addr, left, false);
    if !f.any then (f.left, f.left - 1)
    else if f.right <= f.left then (f.right, f.right)
    else (var k := Back(stabs, ntype, f.left + 1, f.right); k, f.right)
  }

  /** The inner loop, also used to step back from the right end. */
  method ScanBack(stabs: seq<Stab>, ntype: int, l: int, from: int) returns (m: int)
    requires 0 <= l && from < |stabs| && l - 1 <= from
    ensures m == Back(stabs, ntype, l, from)
  {
    m := from;
    while m >= l && stabs[m].ntype != ntype
      invariant l - 1 <= m <= from && Back(stabs, ntype, l, m) == Back(stabs, ntype, l, from)
    {
      m := m - 1;
    }
  }

  /** stab_binsearch. */
  method BinSearch(stabs: seq<Stab>, ntype: int, left: int, right: int, addr: nat) returns (regionLeft: int, regionRight: int)
    requires 0 <= left <= right + 1 <= |stabs| && forall i :: 0 <= i < |stabs| ==> stabs[i].value < TOP
    ensures (regionLeft, regionRight) == Search(stabs, ntype, left, right, addr)
    ensures left <= right && Sorted(stabs, ntype, left, right) && SomeBelow(stabs, ntype, left, right, addr) ==>
              exists last: nat :: Answers(stabs, ntype, left, right, addr, last, regionLeft, regionRight)
    ensures left <= right && Sorted(stabs, ntype, left, right) && SomeBelow(stabs, ntype, left, right, addr)
            && !(Present(stabs, ntype, left, right, addr) && Present(stabs, ntype, left, right, addr + 1)) ==>
              Brackets(stabs, ntype, left, right, addr, regionLeft, regionRight)
    ensures NoneIn(stabs, ntype, left, right) ==> regionLeft == left && regionRight == left - 1
    ensures forall f: int :: FirstAbove(stabs, ntype, left, right, addr, f) ==> regionLeft == Min(left, f - 1) && regionRight == f - 1
  {
    hide NotBelow, Back, Sorted, SomeBelow, Present, Answers, Brackets, NoneIn, FirstAbove;
    var l, r, a, any := left, right, addr, false;
    regionLeft, regionRight := left, right;
    ghost var goal := Loop(stabs, ntype, left, right, addr, left, false);
    while l <= r
      invariant 0 <= l <= r + 1 <= |stabs| && regionRight == r && 0 <= regionLeft
      invariant Loop(stabs, ntype, l, r, a, regionLeft, any) == goal
      decreases |NotBelow(stabs, a)|, r - l + 1
    {
      var trueM := (l + r) / 2;
      var m := ScanBack(stabs, ntype, l, trueM);
      if m < l {
        l := trueM + 1;
        continue;
      }
      any := true;
      if stabs[m].value < a {
        regionLeft := m;
        l := trueM + 1;
      } else if stabs[m].value > a {
        regionRight := m - 1;
        r := m - 1;
      } else {
        BumpFewer(stabs, a, m);
        regionLeft := m;
        l := m;
        a := a + 1;
      }
    }
    if !any {
      regionRight := regionLeft - 1;
    } else if regionRight > regionLeft {
      regionLeft := ScanBack(stabs, ntype, regionLeft + 1, regionRight);
    } else {
      regionLeft := regionRight;
    }
    if NoneIn(stabs, ntype, left, right) {
      SearchNone(stabs, ntype, left, right, addr);
    }
    forall f: int | FirstAbove(stabs, ntype, left, right, addr, f)
      ensures regionLeft == Min(left, f - 1) && regionRight == f - 1
    {
      SearchAbove(stabs, ntype, left, right, addr, f);
    }
    if left <= right && Sorted(stabs, ntype, left, right) && SomeBelow(stabs, ntype, left, right, addr) {
      ghost var last := SearchAnswers(stabs, ntype, left, right, addr);
      if !(Present(stabs, ntype, left, right, addr) && Present(stabs, ntype, left, right, addr + 1)) {
        SearchBrackets(stabs, ntype, left, right, addr);
      }
    }
  }

  // What it finds

  /** The entries of the type between lo and hi are in order of address. */
  ghost predicate Sorted(stabs: seq<Stab>, ntype: int, lo: int, hi: int) {
    forall i, j :: lo <= i <= j <= hi && Is(stabs, ntype, i) && Is(stabs, ntype, j) ==> stabs[i].value <= stabs[j].value
  }

  ghost predicate Present(stabs: seq<Stab>, ntype: int, lo: int, hi: int, addr: nat) {
    exists i :: lo <= i <= hi && Is(stabs, ntype, i) && stabs[i].value == addr
  }

  /** Every address from lo up to, but not including, hi is the address of an entry. */
  ghost predicate PresentFrom(stabs: seq<Stab>, ntype: int, lo: int, hi: int, from: nat, upto: nat) {
    forall x: nat :: from <= x < upto ==> Present(stabs, ntype, lo, hi, x)
  }

  /** Where the loop stands: everything of the type before l is below addr, left is the last of it, and
      everything after r is above the target and not below addr - 1; addr has been raised only over
      addresses that are present, and left is then at addr - 1. */
  ghost predicate Standing(stabs: seq<Stab>, ntype: int, lo: int, hi: int, target: nat, l: int, r: int, addr: nat, left: int, any: bool) {
    && 0 <= lo <= l <= r + 1 <= hi + 1 <= |stabs| && Sorted(stabs, ntype, lo, hi)
    && target <= addr && PresentFrom(stabs, ntype, lo, hi, target, addr)
    && (forall i :: lo <= i < l && Is(stabs, ntype, i) ==> stabs[i].value < addr && i <= left)
    && (forall i :: r < i <= hi && Is(stabs, ntype, i) ==> stabs[i].value > target && stabs[i].value >= addr - 1)
    && (r == hi || Is(stabs, ntype, r + 1))
    && if Is(stabs, ntype, left) && any && stabs[left].value < addr
       then lo <= left <= l && left <= r && (addr > target ==> stabs[left].value == addr - 1)
       else left == lo && addr == target && forall i :: lo <= i < l ==> !Is(stabs, ntype, i)
  }

  /** The last entry of the type at or below addr, up to just before the next one of the type. */
  ghost predicate Brackets(stabs: seq<Stab>, ntype: int, lo: int, hi: int, addr: nat, left: int, right: int) {
    && lo <= left <= right <= hi && Is(stabs, ntype, left) && stabs[left].value <= addr
    && (forall i :: left < i <= right ==> !Is(stabs, ntype, i))
    && (right < hi ==> Is(stabs, ntype, right + 1) && stabs[right + 1].value > addr)
  }

  /** What the search answers when it has raised addr to last: two neighbouring entries of the type, the
      right one above addr and not below last - 1, the left one at last - 1 if last is above addr. */
  ghost predicate Answers(stabs: seq<Stab>, ntype: int, lo: int, hi: int, addr: nat, last: nat, left: int, right: int) {
    && addr <= last && PresentFrom(stabs, ntype, lo, hi, addr, last)
    && lo <= left <= right <= hi && Is(stabs, ntype, left)
    && (if last > addr then stabs[left].value == last - 1 else stabs[left].value <= addr)
    && (forall i :: left < i <= right ==> !Is(stabs, ntype, i))
    && (right < hi ==> Is(stabs, ntype, right + 1) && stabs[right + 1].value > addr && stabs[right + 1].value >= last - 1)
  }

  lemma StandSkip(stabs: seq<Stab>, ntype: int, lo: int, hi: int, target: nat, l: int, r: int, addr: nat, left: int, any: bool, mid: int)
    requires Standing(stabs, ntype, lo, hi, target, l, r, addr, left, any) && l <= mid <= r
    requires forall i :: l <= i <= mid ==> !Is(stabs, ntype, i)
    ensures Standing(stabs, ntype, lo, hi, target, mid + 1, r, addr, left, any)
  {
    hide Sorted, PresentFrom;
  }

  lemma StandBelow(stabs: seq<Stab>, ntype: int, lo: int, hi: int, target: nat, l: int, r: int, addr: nat, left: int, any: bool, mid: int, m: int)
    requires Standing(stabs, ntype, lo, hi, target, l, r, addr, left, any) && l <= m <= mid <= r
    requires Is(stabs, ntype, m) && stabs[m].value < addr && forall i :: m < i <= mid ==> !Is(stabs, ntype, i)
    ensures Standing(stabs, ntype, lo, hi, target, mid + 1, r, addr, m, true)
  {
    hide PresentFrom;
    forall i | lo <= i < mid + 1 && Is(stabs, ntype, i)
      ensures stabs[i].value < addr && i <= m
    {
    }
  }

  lemma StandAbove(stabs: seq<Stab>, ntype: int, lo: int, hi: int, target: nat, l: int, r: int, addr: nat, left: int, any: bool, m: int)
    requires Standing(stabs, ntype, lo, hi, target, l, r, addr, left, any) && l <= m <= r
    requires Is(stabs, ntype, m) && stabs[m].value > addr
    ensures Standing(stabs, ntype, lo, hi, target, l, m - 1, addr, left, true)
  {
    hide PresentFrom;
    forall i | m - 1 < i <= hi && Is(stabs, ntype, i)
      ensures stabs[i].value > addr
    {
    }
  }

  lemma StandExact(stabs: seq<Stab>, ntype: int, lo: int, hi: int, target: nat, l: int, r: int, addr: nat, left: int, any: bool, m: int)
    requires Standing(stabs, ntype, lo, hi, target, l, r, addr, left, any) && l <= m <= r
    requires Is(stabs, ntype, m) && stabs[m].value == addr
    ensures Standing(stabs, ntype, lo, hi, target, m, r, addr + 1, m, true)
  {
    assert Present(stabs, ntype, lo, hi, addr);
    forall i | lo <= i < m && Is(stabs, ntype, i)
      ensures stabs[i].value < addr + 1
    {
    }
    forall i | r < i <= hi && Is(stabs, ntype, i)
      ensures stabs[i].value >= addr
    {
    }
  }

  lemma StandEnd(stabs: seq<Stab>, ntype: int, lo: int, hi: int, target: nat, l: int, r: int, addr: nat, left: int, any: bool)
    requires Standing(stabs, ntype, lo, hi, target, l, r, addr, left, any) && l > r
    requires SomeBelow(stabs, ntype, lo, hi, target)
    ensures any && Answers(stabs, ntype, lo, hi, target, addr, left, r)
  {
    hide Sorted, PresentFrom;
    var e :| lo <= e <= hi && Is(stabs, ntype, e) && stabs[e].value <= target;
    assert e < l;
  }

  ghost predicate SomeBelow(stabs: seq<Stab>, ntype: int, lo: int, hi: int, addr: nat) {
    exists i :: lo <= i <= hi && Is(stabs, ntype, i) && stabs[i].value <= addr
  }

  lemma StandRange(stabs: seq<Stab>, ntype: int, lo: int, hi: int, target: nat, l: int, r: int, addr: nat, left: int, any: bool)
    requires Standing(stabs, ntype, lo, hi, target, l, r, addr, left, any)
    ensures 0 <= l <= r + 1 <= |stabs| && 0 <= left
  {
    hide Sorted, PresentFrom;
  }

  lemma {:induction false} LoopAnswers(stabs: seq<Stab>, ntype: int, lo: int, hi: int, target: nat, l: int, r: int, addr: nat, left: int, any: bool)
      returns (last: nat)
    requires Standing(stabs, ntype, lo, hi, target, l, r, addr, left, any) && SomeBelow(stabs, ntype, lo, hi, target)
    ensures 0 <= l <= r + 1 <= |stabs| && 0 <= left
    ensures var f := Loop(stabs, ntype, l, r, addr, left, any);
            f.any && Answers(stabs, ntype, lo, hi, target, last, f.left, f.right)
    decreases |NotBelow(stabs, addr)|, r - l + 1
  {
    hide NotBelow, Standing, SomeBelow, Answers, Back;
    StandRange(stabs, ntype, lo, hi, target, l, r, addr, left, any);
    if l > r {
      StandEnd(stabs, ntype, lo, hi, target, l, r, addr, left, any);
      last := addr;
    } else {
      var mid := (l + r) / 2;
      var m := Back(stabs, ntype, l, mid);
      if m < l {
        StandSkip(stabs, ntype, lo, hi, target, l, r, addr, left, any, mid);
        last := LoopAnswers(stabs, ntype, lo, hi, target, mid + 1, r, addr, left, any);
      } else if stabs[m].value < addr {
        StandBelow(stabs, ntype, lo, hi, target, l, r, addr, left, any, mid, m);
        last := LoopAnswers(stabs, ntype, lo, hi, target, mid + 1, r, addr, m, true);
      } else if stabs[m].value > addr {
        StandAbove(stabs, ntype, lo, hi, target, l, r, addr, left, any, m);
        last := LoopAnswers(stabs, ntype, lo, hi, target, l, m - 1, addr, left, true);
      } else {
        BumpFewer(stabs, addr, m);
        StandExact(stabs, ntype, lo, hi, target, l, r, addr, left, any, m);
        last := LoopAnswers(stabs, ntype, lo, hi, target, m, r, addr + 1, m, true);
      }
    }
  }

  /** For every ordered table with an entry at or below addr, whatever other entries lie in between:
      the answer is a pair of neighbours, off by exactly how far addr was raised over present addresses. */
  lemma SearchAnswers(stabs: seq<Stab>, ntype: int, lo: int, hi: int, addr: nat) returns (last: nat)
    requires 0 <= lo <= hi < |stabs| && Sorted(stabs, ntype, lo, hi) && SomeBelow(stabs, ntype, lo, hi, addr)
    ensures var (left, right) := Search(stabs, ntype, lo, hi, addr); Answers(stabs, ntype, lo, hi, addr, last, left, right)
  {
    hide Loop, NotBelow;
    last := LoopAnswers(stabs, ntype, lo, hi, addr, lo, hi, addr, lo, false);
  }

  /** The answer brackets addr if and only if addr was raised by at most one; and where no two entries
      have the same address, it always brackets the address just below the raised one. */
  lemma AnswerRightIff(stabs: seq<Stab>, ntype: int, lo: int, hi: int, addr: nat, last: nat, left: int, right: int)
    requires Answers(stabs, ntype, lo, hi, addr, last, left, right)
    ensures Brackets(stabs, ntype, lo, hi, addr, left, right) <==> last <= addr + 1
    ensures last > addr && (right < hi ==> stabs[right + 1].value != stabs[left].value) ==>
              Brackets(stabs, ntype, lo, hi, last - 1, left, right)
  {
    hide PresentFrom;
  }

  /** With the entries of the type in order, one of them at or below addr, and not both addr and
      addr + 1 among them, the search brackets addr. */
  lemma SearchBrackets(stabs: seq<Stab>, ntype: int, lo: int, hi: int, addr: nat)
    requires 0 <= lo <= hi < |stabs| && Sorted(stabs, ntype, lo, hi) && SomeBelow(stabs, ntype, lo, hi, addr)
    requires Present(stabs, ntype, lo, hi, addr) ==> !Present(stabs, ntype, lo, hi, addr + 1)
    ensures var (left, right) := Search(stabs, ntype, lo, hi, addr); Brackets(stabs, ntype, lo, hi, addr, left, right)
  {
    hide Loop, NotBelow, Search, Sorted, SomeBelow, Present, PresentFrom, Is;
    var last := SearchAnswers(stabs, ntype, lo, hi, addr);
    var (left, right) := Search(stabs, ntype, lo, hi, addr);
    AnswerRightIff(stabs, ntype, lo, hi, addr, last, left, right);
    if last > addr + 1 {
      RaisedOver(stabs, ntype, lo, hi, addr, last);
    }
  }

  lemma RaisedOver(stabs: seq<Stab>, ntype: int, lo: int, hi: int, addr: nat, last: nat)
    requires PresentFrom(stabs, ntype, lo, hi, addr, last) && addr + 1 < last
    ensures Present(stabs, ntype, lo, hi, addr) && Present(stabs, ntype, lo, hi, addr + 1)
  {
  }

  /** Adjacent addresses can mislead it: asked for 5 among 5 and 6, it answers with the entry at 6. */
  lemma AdjacentMisleads(ntype: int)
    ensures var stabs := [Stab(ntype, 5), Stab(ntype, 6)];
            Search(stabs, ntype, 0, 1, 5) == (1, 1) && !Brackets(stabs, ntype, 0, 1, 5, 1, 1)
  {
    var stabs := [Stab(ntype, 5), Stab(ntype, 6)];
    assert Loop(stabs, ntype, 2, 1, 7, 1, true) == Found(1, 1, true);
    assert Loop(stabs, ntype, 1, 1, 7, 1, true) == Found(1, 1, true);
    assert Loop(stabs, ntype, 1, 1, 6, 0, true) == Found(1, 1, true);
    assert Loop(stabs, ntype, 0, 1, 6, 0, true) == Found(1, 1, true);
    assert Loop(stabs, ntype, 0, 1, 5, 0, false) == Found(1, 1, true);
  }

  /** Equal addresses on top of adjacent ones: the answer of this search brackets no address at all,
      since both its neighbours are at 6. */
  lemma DuplicatesMislead(ntype: int, addr: nat)
    ensures var stabs := [Stab(ntype, 5), Stab(ntype, 6), Stab(ntype, 6), Stab(ntype, 7), Stab(ntype, 8)];
            Search(stabs, ntype, 0, 4, 5) == (1, 1) && !Brackets(stabs, ntype, 0, 4, addr, 1, 1)
  {
    hide NotBelow;
    var stabs := [Stab(ntype, 5), Stab(ntype, 6), Stab(ntype, 6), Stab(ntype, 7), Stab(ntype, 8)];
    assert Loop(stabs, ntype, 2, 1, 7, 1, true) == Found(1, 1, true);
    assert Loop(stabs, ntype, 1, 1, 7, 1, true) == Found(1, 1, true);
    assert Loop(stabs, ntype, 1, 1, 6, 0, true) == Found(1, 1, true);
    assert Loop(stabs, ntype, 0, 1, 6, 0, true) == Found(1, 1, true);
    assert Loop(stabs, ntype, 0, 1, 5, 0, true) == Found(1, 1, true);
    assert Loop(stabs, ntype, 0, 4, 5, 0, false) == Found(1, 1, true);
  }

  // When there is nothing to find

  function Min(a: int, b: int): int { if a < b then a else b }

  ghost predicate NoneIn(stabs: seq<Stab>, ntype: int, lo: int, hi: int) {
    forall i :: lo <= i <= hi ==> !Is(stabs, ntype, i)
  }

  /** Entry f is the first of the type in the range, and all of them are above addr. */
  ghost predicate FirstAbove(stabs: seq<Stab>, ntype: int, lo: int, hi: int, addr: nat, f: int) {
    && 0 <= lo <= f <= hi < |stabs| && Is(stabs, ntype, f) && NoneIn(stabs, ntype, lo, f - 1)
    && forall i :: lo <= i <= hi && Is(stabs, ntype, i) ==> stabs[i].value > addr
  }

  lemma {:induction false} LoopNone(stabs: seq<Stab>, ntype: int, l: int, r: int, addr: nat, left: int)
    requires 0 <= l <= r + 1 <= |stabs| && 0 <= left && NoneIn(stabs, ntype, l, r)
    ensures Loop(stabs, ntype, l, r, addr, left, false) == Found(left, r, false)
    decreases r - l + 1
  {
    hide NotBelow;
    if l <= r {
      var mid := (l + r) / 2;
      BackNone(stabs, ntype, l, mid);
      LoopNone(stabs, ntype, mid + 1, r, addr, left);
    }
  }

  lemma BackNone(stabs: seq<Stab>, ntype: int, l: int, m: int)
    requires 0 <= l <= m < |stabs| && NoneIn(stabs, ntype, l, m)
    ensures Back(stabs, ntype, l, m) == l - 1
  {
  }

  /** No entry of the type in the range: an empty region. */
  lemma SearchNone(stabs: seq<Stab>, ntype: int, lo: int, hi: int, addr: nat)
    requires 0 <= lo <= hi + 1 <= |stabs| && NoneIn(stabs, ntype, lo, hi)
    ensures Search(stabs, ntype, lo, hi, addr) == (lo, lo - 1)
  {
    hide Loop, NotBelow;
    LoopNone(stabs, ntype, lo, hi, addr, lo);
  }

  lemma {:induction false} LoopAbove(stabs: seq<Stab>, ntype: int, lo: int, hi: int, addr: nat, f: int, l: int, r: int, any: bool)
    requires FirstAbove(stabs, ntype, lo, hi, addr, f) && lo <= l <= r + 1 <= hi + 1
    requires (l <= f <= r) || (any && r == f - 1)
    ensures Loop(stabs, ntype, l, r, addr, lo, any) == Found(lo, f - 1, true)
    decreases r - l + 1
  {
    hide NotBelow;
    if l <= r {
      var mid := (l + r) / 2;
      var m := Back(stabs, ntype, l, mid);
      if m < l {
        LoopAbove(stabs, ntype, lo, hi, addr, f, mid + 1, r, any);
      } else {
        LoopAbove(stabs, ntype, lo, hi, addr, f, l, m - 1, true);
      }
    }
  }

  /** All entries of the type above addr: a region that ends before the first of them. */
  lemma SearchAbove(stabs: seq<Stab>, ntype: int, lo: int, hi: int, addr: nat, f: int)
    requires FirstAbove(stabs, ntype, lo, hi, addr, f)
    ensures Search(stabs, ntype, lo, hi, addr) == (Min(lo, f - 1), f - 1)
  {
    hide Loop, NotBelow;
    LoopAbove(stabs, ntype, lo, hi, addr, f, lo, hi, false);
    if f - 1 > lo {
      BackNone(stabs, ntype, lo + 1, f - 1);
    }
  }
}
