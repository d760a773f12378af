/** The four 255-slot wheels of `base_timer` as values: key packing, placement of a key, the cascade
    between wheels, and the flat table of due ticks that the wheels encode. */
module Wheels {
  import opened Bits

  const SIZE: nat := 255
  const LEVELS: nat := 4

  type TimerId = x: nat | x < 0x1_0000_0000
  type Key = x: nat | x < 0x1_0000_0000_0000_0000

  /** A timer id and the tick on which it is due. */
  type Entry = (TimerId, int)

  datatype Wheel = Wheel(slots: seq<seq<Key>>, head: nat)

  type Wheels = seq<Wheel>

  // ----- keys -----
  // Module Packing proves that these are the shifts, masks and ors of the source.

  /** `slot << (8 * wheel)`. */
  function ShiftLeft(slot: nat, wheel: nat): nat
    requires wheel < LEVELS
  {
    if wheel == 0 then slot
    else if wheel == 1 then slot * 0x100
    else if wheel == 2 then slot * 0x1_0000
    else slot * 0x100_0000
  }

  function MakeKey(id: TimerId, slots: nat): Key
    requires slots < 0x1_0000_0000
  {
    id * 0x1_0000_0000 + slots
  }

  function GetSlot(key: Key, wheel: nat): nat
    requires wheel < LEVELS
  {
    if wheel == 0 then key % 0x100
    else if wheel == 1 then key / 0x100 % 0x100
    else if wheel == 2 then key / 0x1_0000 % 0x100
    else key / 0x100_0000 % 0x100
  }

  function KeyId(key: Key): TimerId {
    key / 0x1_0000_0000
  }

  /** A byte does not see what is packed above it. */
  lemma LowByte(hi: nat, lo: Key, j: nat)
    requires j < LEVELS && ShiftLeft(hi * 0x100, j) + lo < 0x1_0000_0000_0000_0000
    ensures GetSlot(ShiftLeft(hi * 0x100, j) + lo, j) == GetSlot(lo, j)
  {
    AddMultiple(hi * 0x100, lo, ShiftLeft(1, j));
    AddMultiple(hi, lo / ShiftLeft(1, j), 0x100);
  }

  /** Packing loses nothing: the id and every slot byte come back out of the key. */
  lemma KeyFields(id: TimerId, slots: nat)
    requires slots < 0x1_0000_0000
    ensures KeyId(MakeKey(id, slots)) == id
    ensures forall i :: 0 <= i < LEVELS ==> GetSlot(MakeKey(id, slots), i) == GetSlot(slots, i)
  {
    forall i | 0 <= i < LEVELS
      ensures GetSlot(MakeKey(id, slots), i) == GetSlot(slots, i)
    {
      if i == 0 {
        LowByte(id * 0x100_0000, slots, i);
      } else if i == 1 {
        LowByte(id * 0x1_0000, slots, i);
      } else if i == 2 {
        LowByte(id * 0x100, slots, i);
      } else {
        LowByte(id, slots, i);
      }
    }
  }

  // ----- placement -----

  /** Weight of level `i` in ticks: 255^i. */
  function Weight(i: nat): nat
    requires i <= LEVELS
  {
    if i == 0 then 1 else if i == 1 then 255 else if i == 2 then 65025 else if i == 3 then 16581375 else 4228250625
  }

  /** The mixed-radix value that the slot bytes of a key of level `level` stand for: an ordinary digit on
      wheel 0, "digit minus one" on the others. */
  function DigitSum(key: Key, level: nat): int
    requires level < LEVELS
  {
    GetSlot(key, 0)
    + (if level >= 1 then 255 * (GetSlot(key, 1) + 1) else 0)
    + (if level >= 2 then 65025 * (GetSlot(key, 2) + 1) else 0)
    + (if level >= 3 then 16581375 * (GetSlot(key, 3) + 1) else 0)
  }

  /** Reading of the heads up to `level`. */
  function Base(heads: seq<nat>, level: nat): int
    requires |heads| == LEVELS && level < LEVELS
  {
    heads[0]
    + (if level >= 1 then 255 * heads[1] else 0)
    + (if level >= 2 then 65025 * heads[2] else 0)
    + (if level >= 3 then 16581375 * heads[3] else 0)
  }

  /** One more than the largest reading of heads plus delay that the top wheel can hold. */
  const CAPACITY: int := 255 + 65025 + 256 * 16581375

  datatype Spot = Lost | Spot(level: nat, slots: nat)

  function Digit(total: nat): (slot: nat)
    requires total > 0
    ensures slot < SIZE
  {
    (total - 1) % SIZE
  }

  function Carry(total: nat): (carry: nat)
    requires total > 0
    ensures total == SIZE * carry + Digit(total) + 1
    ensures carry == 0 <==> total - Digit(total) < SIZE
  {
    (total - Digit(total)) / SIZE
  }

  /** The search loop of `insert_timer` from wheel `i` on, `count` being `slot_count` there. */
  function FindSpot(heads: seq<nat>, i: nat, count: nat, slots: nat): Spot
    requires |heads| == LEVELS && i <= LEVELS && count > 0
    decreases |heads| - i
  {
    if i == LEVELS then Lost
    else
      var total := count + heads[i];
      var slots' := slots + ShiftLeft(Digit(total), i);
      if total - Digit(total) < SIZE then Spot(i, slots')
      else FindSpot(heads, i + 1, Carry(total), slots')
  }

  ghost predicate ValidHeads(heads: seq<nat>) {
    |heads| == LEVELS && forall i :: 0 <= i < LEVELS ==> heads[i] < SIZE
  }

  ghost predicate SpotOk(heads: seq<nat>, n: nat, spot: Spot)
    requires ValidHeads(heads)
  {
    && spot.Spot?
    && spot.level < LEVELS
    && spot.slots < 0x1_0000_0000
    && (forall j :: 0 <= j <= spot.level ==> GetSlot(spot.slots, j) < SIZE)
    && heads[spot.level] <= GetSlot(spot.slots, spot.level)
    && DigitSum(spot.slots, spot.level) == n - 1 + Base(heads, spot.level)
  }

  // The digits behind a slot word, for the proof only.

  ghost predicate Digits(ds: seq<nat>) {
    |ds| <= LEVELS && forall j :: 0 <= j < |ds| ==> ds[j] < SIZE
  }

  ghost function Packed(ds: seq<nat>): nat
    requires |ds| <= LEVELS
  {
    (if |ds| > 0 then ds[0] else 0) + (if |ds| > 1 then 0x100 * ds[1] else 0)
    + (if |ds| > 2 then 0x1_0000 * ds[2] else 0) + (if |ds| > 3 then 0x100_0000 * ds[3] else 0)
  }

  ghost function Sum(ds: seq<nat>): int
    requires 0 < |ds| <= LEVELS
  {
    ds[0] + (if |ds| > 1 then 255 * (ds[1] + 1) else 0)
    + (if |ds| > 2 then 65025 * (ds[2] + 1) else 0) + (if |ds| > 3 then 16581375 * (ds[3] + 1) else 0)
  }

  /** The digits fixed so far and the carry account for the delay. */
  ghost predicate SearchOk(heads: seq<nat>, n: nat, count: nat, ds: seq<nat>)
    requires ValidHeads(heads)
  {
    && count > 0
    && Digits(ds)
    && if ds == [] then count == n
       else Sum(ds) + Weight(|ds|) * count == n - 1 + Base(heads, |ds| - 1)
  }

  lemma NextDigit(heads: seq<nat>, n: nat, count: nat, ds: seq<nat>, slot: nat, carry: nat)
    requires ValidHeads(heads) && |ds| < LEVELS && SearchOk(heads, n, count, ds)
    requires count + heads[|ds|] == SIZE * carry + slot + 1 && slot < SIZE
    ensures Digits(ds + [slot]) && Packed(ds + [slot]) == Packed(ds) + ShiftLeft(slot, |ds|)
    ensures Sum(ds + [slot]) + Weight(|ds| + 1) * carry == n - 1 + Base(heads, |ds|)
  {
    if |ds| == 0 {} else if |ds| == 1 {} else if |ds| == 2 {} else {}
  }

  ghost predicate Found(heads: seq<nat>, n: nat, spot: Spot, ds: seq<nat>)
    requires ValidHeads(heads)
  {
    && 0 < |ds| && Digits(ds)
    && match spot
       case Lost => n - 1 + Base(heads, 3) >= CAPACITY
       case Spot(level, slots) =>
         && level == |ds| - 1 && slots == Packed(ds)
         && Sum(ds) == n - 1 + Base(heads, level)
         && heads[level] <= ds[level]
  }

  lemma FindSpotUnfolds(heads: seq<nat>, i: nat, count: nat, slots: nat)
    requires |heads| == LEVELS && i < LEVELS && count > 0
    ensures FindSpot(heads, i, count, slots)
         == if Carry(count + heads[i]) == 0 then Spot(i, slots + ShiftLeft(Digit(count + heads[i]), i))
            else FindSpot(heads, i + 1, Carry(count + heads[i]), slots + ShiftLeft(Digit(count + heads[i]), i))
  {}

  lemma FindSpotRound(heads: seq<nat>, i: nat, count: nat, slots: nat, spot: Spot, slots': nat)
    requires |heads| == LEVELS && i < LEVELS && count > 0
    requires spot == FindSpot(heads, i, count, slots)
    requires slots' == slots + ShiftLeft(Digit(count + heads[i]), i)
    ensures spot == if Carry(count + heads[i]) == 0 then Spot(i, slots')
                    else FindSpot(heads, i + 1, Carry(count + heads[i]), slots')
  {
    FindSpotUnfolds(heads, i, count, slots);
  }

  lemma SearchRound(heads: seq<nat>, n: nat, count: nat, ds: seq<nat>, spot: Spot, found: seq<nat>)
    requires ValidHeads(heads) && |ds| < LEVELS && SearchOk(heads, n, count, ds)
    requires spot == FindSpot(heads, |ds|, count, Packed(ds))
    requires found == ds + [Digit(count + heads[|ds|])]
    ensures |found| == |ds| + 1
    ensures spot == if Carry(count + heads[|ds|]) == 0 then Spot(|ds|, Packed(found))
                    else FindSpot(heads, |found|, Carry(count + heads[|ds|]), Packed(found))
  {
    hide FindSpot, Packed, Sum, Base, Digits, Weight, ShiftLeft;
    var total := count + heads[|ds|];
    NextDigit(heads, n, count, ds, Digit(total), Carry(total));
    FindSpotRound(heads, |ds|, count, Packed(ds), spot, Packed(found));
  }

  lemma {:induction false} SpotFrom(heads: seq<nat>, n: nat, count: nat, ds: seq<nat>, spot: Spot)
    returns (found: seq<nat>)
    requires ValidHeads(heads) && SearchOk(heads, n, count, ds)
    requires spot == FindSpot(heads, |ds|, count, Packed(ds))
    ensures Found(heads, n, spot, found)
    decreases LEVELS - |ds|
  {
    found := ds;
    if |ds| < LEVELS {
      var total := count + heads[|ds|];
      found := ds + [Digit(total)];
      SearchRound(heads, n, count, ds, spot, found);
      NextDigit(heads, n, count, ds, Digit(total), Carry(total));
      if Carry(total) > 0 {
        found := SpotFrom(heads, n, Carry(total), found, spot);
      }
    }
  }

  lemma SumBounds(heads: seq<nat>, ds: seq<nat>)
    requires ValidHeads(heads) && Digits(ds) && ds != []
    ensures Sum(ds) - Base(heads, |ds| - 1) + Base(heads, 3) < CAPACITY
  {}

  lemma PackedDigit(ds: seq<nat>, j: nat)
    requires Digits(ds) && j < |ds|
    ensures Packed(ds) < 0x1_0000_0000 && GetSlot(Packed(ds), j) == ds[j]
  {
    var at := (k: nat) => if k < |ds| then ds[k] else 0;
    FourBytes(at(0), at(1), at(2), at(3));
  }

  lemma FourBytes(a: nat, b: nat, c: nat, d: nat)
    requires a < 256 && b < 256 && c < 256 && d < 256
    ensures var w := a + 0x100 * b + 0x1_0000 * c + 0x100_0000 * d;
      w < 0x1_0000_0000 && GetSlot(w, 0) == a && GetSlot(w, 1) == b && GetSlot(w, 2) == c && GetSlot(w, 3) == d
  {
    var w := a + 0x100 * b + 0x1_0000 * c + 0x100_0000 * d;
    assert w / 0x100 == b + 0x100 * c + 0x1_0000 * d;
    assert w / 0x1_0000 == c + 0x100 * d;
    assert w / 0x100_0000 == d;
  }

  /** `insert_timer` places a key exactly when the top wheel can hold it, and then the digits of the key stand
      for a delay of `n` ticks measured from the heads. */
  lemma SpotExact(heads: seq<nat>, n: nat)
    requires ValidHeads(heads) && n > 0
    ensures FindSpot(heads, 0, n, 0).Lost? <==> n - 1 + Base(heads, 3) >= CAPACITY
    ensures FindSpot(heads, 0, n, 0).Spot? ==> SpotOk(heads, n, FindSpot(heads, 0, n, 0))
    ensures FindSpot(heads, 0, n, 0).Spot? ==>
              (FindSpot(heads, 0, n, 0).level == 0 <==> n - 1 + heads[0] < SIZE)
  {
    var spot := FindSpot(heads, 0, n, 0);
    var ds := SpotFrom(heads, n, n, [], spot);
    if spot.Spot? {
      SumBounds(heads, ds);
      forall j | 0 <= j < |ds| ensures GetSlot(spot.slots, j) == ds[j] {
        PackedDigit(ds, j);
      }
    }
  }
}
