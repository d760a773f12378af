/** The arithmetic in which keys, timer flags and type tags are modelled is the bit manipulation of the source. */
module Packing {
  import opened Bits
  import opened Wheels
  import opened TimerBook
  import Codec
  import opened ServiceIds

  /** `(static_cast<uint64_t>(id) << 32) | slots` */
  lemma MakeKeyIsOr(id: TimerId, slots: nat)
    requires slots < 0x1_0000_0000
    ensures MakeKey(id, slots) == BitOr(id * Pow2(32), slots)
  {
    Pow2Values();
    OrDisjoint(id, slots, 32);
  }

  /** `slots |= slot << (i * 8)` while only the bytes below `i` are in use. */
  lemma AppendIsOr(slots: nat, slot: nat, i: nat)
    requires i < LEVELS && slots < ShiftLeft(1, i)
    ensures slots + ShiftLeft(slot, i) == BitOr(slots, ShiftLeft(slot, i))
    ensures ShiftLeft(slot, i) == slot * Pow2(8 * i)
  {
    Pow2Values();
    if i == 0 {
      OrAbove(slots, slot, 0);
    } else if i == 1 {
      OrAbove(slots, slot, 8);
    } else if i == 2 {
      OrAbove(slots, slot, 16);
    } else {
      OrAbove(slots, slot, 24);
    }
  }

  lemma OrAbove(lo: nat, hi: nat, k: nat)
    requires lo < Pow2(k)
    ensures BitOr(lo, hi * Pow2(k)) == lo + hi * Pow2(k)
  {
    OrDisjoint(hi, lo, k);
    OrCommutes(lo, hi * Pow2(k));
  }

  /** `(key >> (which_queue * 8)) & 0xFF` */
  lemma GetSlotIsMask(key: Key)
    ensures GetSlot(key, 0) == BitAnd(key, 0xFF)
    ensures GetSlot(key, 1) == BitAnd(key / 0x100, 0xFF)
    ensures GetSlot(key, 2) == BitAnd(key / 0x1_0000, 0xFF)
    ensures GetSlot(key, 3) == BitAnd(key / 0x100_0000, 0xFF)
  {
    Pow2Values();
    AndMask(key, 8);
    AndMask(key / 0x100, 8);
    AndMask(key / 0x1_0000, 8);
    AndMask(key / 0x100_0000, 8);
  }

  /** `times_ & removed`, `times_ & infinite`, `times_ & times_mask` and `times_ |= removed` */
  lemma FlagsAreBits(times: nat)
    ensures IsRemoved(times) <==> BitAnd(times, Pow2(29)) != 0
    ensures IsInfinite(times) <==> BitAnd(times, Pow2(30)) != 0
    ensures Counter(times) == BitAnd(times, TIMES_MASK)
    ensures SetRemoved(times) == BitOr(times, Pow2(29))
  {
    Pow2Values();
    AndBit(times, 29);
    AndBit(times, 30);
    AndMask(times, 28);
    OrBit(times, 29);
  }

  /** `(t) | (v) << 3`, and `type & 7`, `type >> 3` on the way back */
  lemma TagBits(t: nat, v: nat)
    requires t < 8 && v < 32
    ensures Codec.Combine(t, v) == BitOr(t, 8 * v)
    ensures BitAnd(Codec.Combine(t, v), 7) == t && Codec.Combine(t, v) / 8 == v
  {
    EightIsPow2();
    hide Pow2, BitOr, BitAnd;
    OrDisjoint(v, t, 3);
    OrCommutes(t, v * Pow2(3));
    AndMask(Codec.Combine(t, v), 3);
  }

  lemma EightIsPow2()
    ensures Pow2(3) == 8
  {}

  /** `res |= id() << WORKER_ID_SHIFT`, and `(serviceid >> WORKER_ID_SHIFT) & 0xFF` on the way back */
  lemma ServiceIdBits(w: WorkerNo, u: nat, serviceid: nat)
    ensures WORKER == Pow2(24) && Uuid(w, u) == BitOr(u % MAX_UUID + 1, w * WORKER)
    ensures WorkerId(serviceid) == BitAnd(serviceid / WORKER, 0xFF)
  {
    Pow2Values();
    OrAbove(u % MAX_UUID + 1, w, 24);
    AndMask(serviceid / WORKER, 8);
  }
}
