/**
 * The component bitmask of src/helpers/component-mask.ts.
 *
 * A mask is one 32-bit word. The source computes `1 << id` on JavaScript
 * numbers, which takes the shift count modulo 32, so component ids of 32 and
 * above alias the ids below 32. `Bit` models exactly that; the set-algebra
 * properties are stated for ids below `Width`, through `Members`.
 */
module ComponentMask {

  type Mask = bv32

  /** A bit position inside one mask word. */
  type Slot = bv5

  /** Number of distinct component ids one mask can tell apart. */
  const Width: nat := 32

  /** A freshly constructed mask. */
  const Empty: Mask := 0

  /** The shift count JavaScript uses for `1 << id`: `id` modulo 32. */
  function SlotOf(id: nat): Slot {
    if id == 0 then 0 else SlotOf(id - 1) + 1
  }

  function SlotBit(s: Slot): Mask {
    (1 as bv32) << s
  }

  /** The single-bit word `1 << id`. */
  function Bit(id: nat): Mask {
    SlotBit(SlotOf(id))
  }

  /** Every bit of `x` is set in `m`. */
  predicate Covers(m: Mask, x: Mask) {
    m & x == x
  }

  /** `includes(id)`. */
  predicate Includes(m: Mask, id: nat) {
    Covers(m, Bit(id))
  }

  /** The component ids below `Width` whose bit is set: the set a mask stands for. */
  function Members(m: Mask): set<nat> {
    set i: nat | i < Width && Includes(m, i)
  }

  /** The bit positions that a list of ids names (each id modulo 32). */
  function IdSet(ids: seq<nat>): set<nat> {
    set i | 0 <= i < |ids| :: ids[i] % 32
  }

  /** `set(id, enabled)`: sets or clears the bit of `id` and of no other id. */
  function Set(m: Mask, id: nat, enabled: bool): (r: Mask)
    ensures Includes(r, id) == enabled
    ensures forall j: nat :: j % 32 != id % 32 ==> Includes(r, j) == Includes(m, j)
  {
    var r := if enabled then m | Bit(id) else m & !Bit(id);
    SetKeepsOthers(m, id, enabled);
    r
  }

  /** `with(...ids)`: sets every listed id, left to right. */
  function With(m: Mask, ids: seq<nat>): (r: Mask)
    ensures forall i :: 0 <= i < |ids| ==> Includes(r, ids[i])
    ensures forall j: nat :: Includes(m, j) ==> Includes(r, j)
    ensures Members(r) == Members(m) + IdSet(ids)
    decreases |ids|
  {
    if |ids| == 0 then
      m
    else
      var first := Set(m, ids[0], true);
      SetMembers(m, ids[0], true);
      var r := With(first, ids[1..]);
      WithStep(m, ids, first, r);
      r
  }

  /** `includesAll(other)`: every member of `other` is a member of `m`. */
  predicate IncludesAll(m: Mask, other: Mask)
    ensures IncludesAll(m, other) <==> Members(other) <= Members(m)
  {
    SubsetIffNoRest(m, other, other & !m);
    m & other == other
  }

  /** `includesSome(other)`: the two masks share a member. */
  predicate IncludesSome(m: Mask, other: Mask)
    ensures IncludesSome(m, other) <==> Members(m) * Members(other) != {}
  {
    ZeroIffNoMembers(m & other);
    AndMembers(m, other);
    m & other != 0
  }

  /** `excludesAll(other)`: the two masks share no member. */
  predicate ExcludesAll(m: Mask, other: Mask)
    ensures ExcludesAll(m, other) <==> Members(m) * Members(other) == {}
  {
    ZeroIffNoMembers(m & other);
    AndMembers(m, other);
    m & other == 0
  }

  // ---------------------------------------------------------------------
  // Slots: `SlotOf` is `id % 32`

  lemma {:induction false} SlotOfAdd(a: nat, b: nat)
    ensures SlotOf(a + b) == SlotOf(a) + SlotOf(b)
    decreases b
  {
    if b > 0 {
      SlotOfAdd(a, b - 1);
    }
  }

  lemma {:induction false} SlotOfSmall(i: nat)
    requires i < Width
    ensures SlotOf(i) as int == i
  {
    if i > 0 {
      SlotOfSmall(i - 1);
    }
  }

  lemma {:induction false} SlotOfMod(i: nat)
    ensures SlotOf(i) == SlotOf(i % 32)
    decreases i
  {
    if i >= 32 {
      SlotOfMod(i - 32);
      SlotOfAdd(i - 32, 32);
      SlotOfAdd(1, 1);
      SlotOfAdd(2, 2);
      SlotOfAdd(4, 4);
      SlotOfAdd(8, 8);
      SlotOfAdd(16, 16);
    }
  }

  /** Two ids share a bit exactly when they agree modulo 32. */
  lemma SameSlotIffSameResidue(i: nat, j: nat)
    ensures SlotOf(i) == SlotOf(j) <==> i % 32 == j % 32
  {
    SlotOfMod(i);
    SlotOfMod(j);
    SlotOfSmall(i % 32);
    SlotOfSmall(j % 32);
  }

  // ---------------------------------------------------------------------
  // Slot-level facts. Each is stated for one bit position `s` of words
  // named by variables; every id-level lemma is one call to one of them.

  lemma SlotAnd(a: Mask, b: Mask, c: Mask, s: Slot)
    requires c == a & b
    ensures Covers(c, SlotBit(s)) <==> Covers(a, SlotBit(s)) && Covers(b, SlotBit(s))
  {
  }

  lemma SlotAndNot(a: Mask, b: Mask, c: Mask, s: Slot)
    requires c == a & !b
    ensures Covers(c, SlotBit(s)) <==> Covers(a, SlotBit(s)) && !Covers(b, SlotBit(s))
  {
  }

  lemma SlotSet(m: Mask, t: Slot, enabled: bool, r: Mask, s: Slot)
    requires r == if enabled then m | SlotBit(t) else m & !SlotBit(t)
    ensures Covers(r, SlotBit(s)) == if s == t then enabled else Covers(m, SlotBit(s))
  {
  }

  lemma SlotZero(s: Slot)
    ensures !Covers(0, SlotBit(s))
  {
  }

  /** A word that covers no single position is zero. */
  lemma NoSlotIsZero(a: Mask)
    requires forall s: Slot :: !Covers(a, SlotBit(s))
    ensures a == 0
  {
    assert !Covers(a, SlotBit(0)) && !Covers(a, SlotBit(1)) && !Covers(a, SlotBit(2)) && !Covers(a, SlotBit(3));
    assert !Covers(a, SlotBit(4)) && !Covers(a, SlotBit(5)) && !Covers(a, SlotBit(6)) && !Covers(a, SlotBit(7));
    assert !Covers(a, SlotBit(8)) && !Covers(a, SlotBit(9)) && !Covers(a, SlotBit(10)) && !Covers(a, SlotBit(11));
    assert !Covers(a, SlotBit(12)) && !Covers(a, SlotBit(13)) && !Covers(a, SlotBit(14)) && !Covers(a, SlotBit(15));
    assert !Covers(a, SlotBit(16)) && !Covers(a, SlotBit(17)) && !Covers(a, SlotBit(18)) && !Covers(a, SlotBit(19));
    assert !Covers(a, SlotBit(20)) && !Covers(a, SlotBit(21)) && !Covers(a, SlotBit(22)) && !Covers(a, SlotBit(23));
    assert !Covers(a, SlotBit(24)) && !Covers(a, SlotBit(25)) && !Covers(a, SlotBit(26)) && !Covers(a, SlotBit(27));
    assert !Covers(a, SlotBit(28)) && !Covers(a, SlotBit(29)) && !Covers(a, SlotBit(30)) && !Covers(a, SlotBit(31));
  }

  lemma SlotOfSlot(s: Slot)
    ensures SlotOf(s as int) == s
  {
    SlotOfSmall(s as int);
  }

  // ---------------------------------------------------------------------
  // Id-level facts

  lemma IncludesAnd(a: Mask, b: Mask, c: Mask, i: nat)
    requires c == a & b
    ensures Includes(c, i) <==> Includes(a, i) && Includes(b, i)
  {
    SlotAnd(a, b, c, SlotOf(i));
  }

  lemma IncludesAndNot(a: Mask, b: Mask, c: Mask, i: nat)
    requires c == a & !b
    ensures Includes(c, i) <==> Includes(a, i) && !Includes(b, i)
  {
    SlotAndNot(a, b, c, SlotOf(i));
  }

  lemma IncludesSet(m: Mask, id: nat, enabled: bool, r: Mask, j: nat)
    requires r == if enabled then m | Bit(id) else m & !Bit(id)
    ensures Includes(r, j) == if SlotOf(j) == SlotOf(id) then enabled else Includes(m, j)
  {
    SlotSet(m, SlotOf(id), enabled, r, SlotOf(j));
  }

  /** For ids the mask can tell apart, `set` changes the one bit and no other. */
  lemma IncludesAfterSet(m: Mask, id: nat, enabled: bool, j: nat)
    requires id < Width && j < Width
    ensures Includes(Set(m, id, enabled), j) == if j == id then enabled else Includes(m, j)
  {
    if j != id {
      assert j % 32 != id % 32;
    }
  }

  /** Setting a bit never clears another one. */
  lemma SetOnIsMonotone(m: Mask, id: nat)
    ensures forall j: nat :: Includes(m, j) ==> Includes(Set(m, id, true), j)
  {
    forall j: nat ensures Includes(m, j) ==> Includes(Set(m, id, true), j) {
      IncludesSet(m, id, true, Set(m, id, true), j);
    }
  }

  /** Setting a bit to the value it already has changes nothing. */
  lemma SetTwice(m: Mask, id: nat, enabled: bool)
    ensures Set(Set(m, id, enabled), id, enabled) == Set(m, id, enabled)
  {
    var r := Set(m, id, enabled);
    SetTwiceAt(m, id, enabled, r, Set(r, id, enabled));
  }

  lemma SetTwiceAt(m: Mask, id: nat, enabled: bool, r: Mask, r2: Mask)
    requires r == Set(m, id, enabled)
    requires r2 == Set(r, id, enabled)
    ensures r2 == r
  {
    var x := Bit(id);
    SetUnfolds(m, id, enabled, x, r);
    SetUnfolds(r, id, enabled, x, r2);
    ApplyTwice(m, x, enabled, r, r2);
  }

  lemma SetUnfolds(m: Mask, id: nat, enabled: bool, x: Mask, r: Mask)
    requires x == Bit(id)
    requires r == Set(m, id, enabled)
    ensures r == if enabled then m | x else m & !x
  {
  }

  /** Or-ing in, or masking out, the same word twice is doing it once. */
  lemma ApplyTwice(m: Mask, x: Mask, enabled: bool, r: Mask, r2: Mask)
    requires r == if enabled then m | x else m & !x
    requires r2 == if enabled then r | x else r & !x
    ensures r2 == r
  {
    if enabled {
      OrTwice(m, x, r);
    } else {
      AndNotTwice(m, x, r);
    }
  }

  lemma OrTwice(m: Mask, x: Mask, r: Mask)
    requires r == m | x
    ensures r | x == r
  {
  }

  lemma AndNotTwice(m: Mask, x: Mask, r: Mask)
    requires r == m & !x
    ensures r & !x == r
  {
  }

  lemma SetKeepsOthers(m: Mask, id: nat, enabled: bool)
    ensures var r := if enabled then m | Bit(id) else m & !Bit(id);
      && Includes(r, id) == enabled
      && (forall j: nat :: j % 32 != id % 32 ==> Includes(r, j) == Includes(m, j))
      && Members(r) == if enabled then Members(m) + {id % 32} else Members(m) - {id % 32}
  {
    var r := if enabled then m | Bit(id) else m & !Bit(id);
    forall j: nat ensures Includes(r, j) == if SlotOf(j) == SlotOf(id) then enabled else Includes(m, j) {
      IncludesSet(m, id, enabled, r, j);
    }
    forall j: nat ensures SlotOf(j) == SlotOf(id) <==> j % 32 == id % 32 {
      SameSlotIffSameResidue(j, id);
    }
    SameSlotIffSameResidue(id % 32, id);
  }

  /** In terms of members, `set` adds or removes the one position `id % 32`. */
  lemma SetMembers(m: Mask, id: nat, enabled: bool)
    ensures Members(Set(m, id, enabled)) == if enabled then Members(m) + {id % 32} else Members(m) - {id % 32}
  {
    SetKeepsOthers(m, id, enabled);
  }

  lemma AndMembers(a: Mask, b: Mask)
    ensures Members(a & b) == Members(a) * Members(b)
  {
    var c := a & b;
    forall i: nat | i < Width ensures Includes(c, i) <==> Includes(a, i) && Includes(b, i) {
      IncludesAnd(a, b, c, i);
    }
  }

  lemma AndNotMembers(a: Mask, b: Mask)
    ensures Members(a & !b) == Members(a) - Members(b)
  {
    var c := a & !b;
    forall i: nat | i < Width ensures Includes(c, i) <==> Includes(a, i) && !Includes(b, i) {
      IncludesAndNot(a, b, c, i);
    }
  }

  lemma WithStep(m: Mask, ids: seq<nat>, first: Mask, r: Mask)
    requires |ids| > 0
    requires Includes(first, ids[0])
    requires forall j: nat :: Includes(m, j) ==> Includes(first, j)
    requires Members(first) == Members(m) + {ids[0] % 32}
    requires forall i :: 0 <= i < |ids[1..]| ==> Includes(r, ids[1..][i])
    requires forall j: nat :: Includes(first, j) ==> Includes(r, j)
    requires Members(r) == Members(first) + IdSet(ids[1..])
    ensures forall i :: 0 <= i < |ids| ==> Includes(r, ids[i])
    ensures forall j: nat :: Includes(m, j) ==> Includes(r, j)
    ensures Members(r) == Members(m) + IdSet(ids)
  {
    IdSetSplit(ids);
    assert IdSet(ids[..1]) == {ids[0] % 32};
    forall i | 0 <= i < |ids| ensures Includes(r, ids[i]) {
      if i > 0 {
        assert ids[i] == ids[1..][i - 1];
      }
    }
  }

  /** `m & other == other` holds exactly when `other & !m` is zero. */
  lemma SubsetIffNoRest(m: Mask, other: Mask, rest: Mask)
    requires rest == other & !m
    ensures m & other == other <==> Members(other) <= Members(m)
  {
    if m & other == other {
      CoveredHasNoRest(m, other, rest);
    }
    if rest == 0 {
      NoRestIsCovered(m, other, rest);
    }
    ZeroIffNoMembers(rest);
    AndNotMembers(other, m);
  }

  lemma CoveredHasNoRest(m: Mask, other: Mask, rest: Mask)
    requires rest == other & !m && m & other == other
    ensures rest == 0
  {
  }

  lemma NoRestIsCovered(m: Mask, other: Mask, rest: Mask)
    requires rest == other & !m && rest == 0
    ensures m & other == other
  {
  }

  lemma IdSetSplit(ids: seq<nat>)
    requires |ids| > 0
    ensures IdSet(ids) == IdSet(ids[..1]) + IdSet(ids[1..])
  {
    forall x | x in IdSet(ids) ensures x in IdSet(ids[..1]) + IdSet(ids[1..]) {
      var i :| 0 <= i < |ids| && ids[i] % 32 == x;
      if i > 0 {
        assert ids[1..][i - 1] % 32 == x;
      }
    }
    forall x | x in IdSet(ids[1..]) ensures x in IdSet(ids) {
      var i :| 0 <= i < |ids[1..]| && ids[1..][i] % 32 == x;
      assert ids[i + 1] % 32 == x;
    }
  }

  /** A word is zero exactly when it has no member. */
  lemma ZeroIffNoMembers(a: Mask)
    ensures a == 0 <==> Members(a) == {}
  {
    if Members(a) == {} {
      forall s: Slot ensures !Covers(a, SlotBit(s)) {
        assert (s as int) !in Members(a);
        SlotOfSlot(s);
      }
      NoSlotIsZero(a);
    } else {
      var i :| i in Members(a);
      SlotZero(SlotOf(i));
    }
  }

  // ---------------------------------------------------------------------
  // Properties promised by the source and its tests

  /** A fresh mask includes no id at all. */
  lemma FreshIncludesNothing(id: nat)
    ensures !Includes(Empty, id)
    ensures Members(Empty) == {}
  {
    ZeroIffNoMembers(Empty);
  }

  /** The empty mask is included by every mask and intersects none. */
  lemma EmptyIncludedByAll(m: Mask)
    ensures IncludesAll(m, Empty)
    ensures !IncludesSome(m, Empty) && ExcludesAll(m, Empty)
  {
    FreshIncludesNothing(0);
  }

  /** `excludesAll` is exactly the negation of `includesSome`. */
  lemma ExcludesAllIsNotIncludesSome(m: Mask, other: Mask)
    ensures ExcludesAll(m, other) <==> !IncludesSome(m, other)
  {
  }

  /** `includes(id)` asks whether `id` modulo 32 is a member: every id reads the bit of its residue. */
  lemma IncludesIffMember(m: Mask, id: nat)
    ensures Includes(m, id) <==> id % 32 in Members(m)
  {
    SlotOfMod(id);
  }

  /** Ids 32 apart share one bit: the source's `1 << id` wraps around. */
  lemma ShiftWrapsAround(id: nat)
    ensures Includes(Set(Empty, id + 32, true), id)
    ensures !Includes(Set(Set(Empty, id, true), id + 32, false), id)
  {
    SameSlotIffSameResidue(id, id + 32);
  }
}
