/** The search of `worker_timer` for an unused id, which walks the 32-bit numbers cyclically. */
module TimerIds {
  import opened Sets
  import opened Wheels

  const MAX_TIMER_NUM: nat := 0xFF_FFFF
  const ID_COUNT: nat := 0x1_0000_0000

  /** The `t`-th id after `start`, with uint32 wrap-around. */
  function Nth(start: TimerId, t: nat): TimerId {
    (start + t) % ID_COUNT
  }

  ghost function Visited(start: TimerId, j: nat): set<TimerId> {
    if j == 0 then {} else Visited(start, j - 1) + {Nth(start, j - 1)}
  }

  lemma {:induction false} VisitedHas(start: TimerId, j: nat, t: nat)
    requires t < j
    ensures Nth(start, t) in Visited(start, j)
  {
    if t < j - 1 {
      VisitedHas(start, j - 1, t);
    }
  }

  lemma VisitedAll(start: TimerId, j: nat)
    ensures forall t: nat :: t < j ==> Nth(start, t) in Visited(start, j)
  {
    forall t: nat | t < j ensures Nth(start, t) in Visited(start, j) {
      VisitedHas(start, j, t);
    }
  }

  lemma {:induction false} NotVisited(start: TimerId, j: nat, k: nat)
    requires j <= k < ID_COUNT
    ensures Nth(start, k) !in Visited(start, j)
  {
    if j > 0 {
      NotVisited(start, j - 1, k);
      NthDistinct(start, j - 1, k);
    }
  }

  lemma NthDistinct(start: TimerId, t: nat, k: nat)
    requires t < k < ID_COUNT
    ensures Nth(start, t) != Nth(start, k)
  {}

  lemma NthStep(start: TimerId, j: nat)
    ensures Nth(start, 0) == start && Visited(start, 0) == {}
    ensures Nth(start, j + 1) == (Nth(start, j) + 1) % ID_COUNT
    ensures Visited(start, j + 1) == Visited(start, j) + {Nth(start, j)}
  {}

  lemma {:induction false} VisitedSize(start: TimerId, j: nat)
    requires j <= ID_COUNT
    ensures |Visited(start, j)| == j
  {
    if j > 0 {
      VisitedSize(start, j - 1);
      NotVisited(start, j - 1, j - 1);
    }
  }

  /** As long as an id is free, fewer than all ids are in use. */
  lemma OneFree(live: set<TimerId>, id: TimerId)
    requires id !in live
    ensures |live| < ID_COUNT
  {
    hide Visited;
    var all := Visited(0, ID_COUNT);
    VisitedSize(0, ID_COUNT);
    forall x: TimerId ensures x in all {
      VisitedHas(0, ID_COUNT, x);
      assert Nth(0, x) == x;
    }
    SubsetSize(live + {id}, all);
  }

  /** After a whole turn without a free id all ids are in use, and the walk meets no other. */
  lemma NoneFree(live: set<TimerId>, start: TimerId)
    requires Visited(start, ID_COUNT) <= live
    ensures |live| >= ID_COUNT && forall t: nat :: Nth(start, t) in live
  {
    hide Visited;
    VisitedSize(start, ID_COUNT);
    SubsetSize(Visited(start, ID_COUNT), live);
    forall t: nat ensures Nth(start, t) in live {
      VisitedHas(start, ID_COUNT, t % ID_COUNT);
      WholeTurns(start, t, t / ID_COUNT);
    }
  }

  lemma WholeTurns(start: TimerId, t: nat, q: nat)
    requires q == t / ID_COUNT
    ensures Nth(start, t) == Nth(start, t % ID_COUNT)
  {}
}
