/** Service ids: a 16-bit number drawn from a worker's wrapping 32-bit counter, never 0, with the worker's id in the
    top byte. */
module ServiceIds {
  import opened Sets

  const MAX_UUID: nat := 0xFFFF
  const WORD: nat := 0x1_0000_0000
  const WORKER: nat := 0x100_0000

  /** Workers are numbered from 1. */
  type WorkerNo = w: nat | 0 < w < 0x100 witness 1

  /** What `uuid()` returns when the counter stands at `u`. */
  function Uuid(w: WorkerNo, u: nat): nat {
    u % MAX_UUID + 1 + w * WORKER
  }

  /** The `k`-th id drawn from here on; the counter wraps at 32 bits. */
  function Draw(w: WorkerNo, u: nat, k: nat): nat {
    Uuid(w, (u + k) % WORD)
  }

  function WorkerId(serviceid: nat): nat {
    serviceid / WORKER % 0x100
  }

  predicate WorkerIdValid(workerid: nat, workers: nat) {
    workerid > 0 && workerid <= workers
  }

  predicate IsId(w: WorkerNo, id: nat) {
    w * WORKER < id <= w * WORKER + MAX_UUID
  }

  /** The router finds the worker that drew an id, so two workers never draw the same one. */
  lemma IdMapsBack(w: WorkerNo, u: nat, id: nat)
    ensures IsId(w, Uuid(w, u))
    ensures IsId(w, id) ==> WorkerId(id) == w && 0 < id < WORD && id % WORKER != 0
    ensures IsId(w, id) ==> forall v: WorkerNo :: IsId(v, id) ==> v == w
  {
  }

  // Which ids a search of MAX_UUID draws can reach

  /** 2^32 is 1 modulo MAX_UUID: a search during which the counter wraps draws one id twice and misses one. */
  function Missed(w: WorkerNo, u: nat): (r: set<nat>)
    requires u < WORD
    ensures |r| <= 1
    ensures r == {} <==> u + MAX_UUID <= WORD
  {
    if u + MAX_UUID <= WORD then {} else {w * WORKER + MAX_UUID + 1 - (WORD - u)}
  }

  lemma WordModulo()
    ensures WORD == MAX_UUID * 0x1_0001 + 1
  {
  }

  lemma ModuloUnique(x: int, q: int, r: int)
    requires x == MAX_UUID * q + r && 0 <= r < MAX_UUID
    ensures x % MAX_UUID == r
  {
  }

  /** An id is among the next MAX_UUID draws exactly when it is not the missed one. */
  lemma DrawReaches(w: WorkerNo, u: nat, id: nat) returns (k: nat)
    requires u < WORD && IsId(w, id) && id !in Missed(w, u)
    ensures k < MAX_UUID && Draw(w, u, k) == id
  {
    var r := id - 1 - w * WORKER;
    if u + MAX_UUID <= WORD {
      k := StraightReaches(u, r);
    } else {
      k := WrappedReaches(u, r);
    }
  }

  lemma StraightReaches(u: nat, r: nat) returns (k: nat)
    requires u + MAX_UUID <= WORD && r < MAX_UUID
    ensures k < MAX_UUID && (u + k) % WORD % MAX_UUID == r
  {
    var d := r - u % MAX_UUID;
    k := if d < 0 then d + MAX_UUID else d;
    ModuloUnique(u + k, u / MAX_UUID + (if d < 0 then 1 else 0), r);
  }

  lemma WrappedReaches(u: nat, r: nat) returns (k: nat)
    requires u < WORD < u + MAX_UUID && r < MAX_UUID && r != MAX_UUID - (WORD - u)
    ensures k < MAX_UUID && (u + k) % WORD % MAX_UUID == r
  {
    var a := WORD - u;
    if r < MAX_UUID - a {
      k := a + r;
      assert (u + k) % WORD == r;
    } else {
      k := a + r - (MAX_UUID + 1);
      WordModulo();
      ModuloUnique(u + k, 0x1_0000, r);
    }
  }

  lemma DrawMisses(w: WorkerNo, u: nat, k: nat)
    requires u < WORD && k < MAX_UUID
    ensures IsId(w, Draw(w, u, k)) && Draw(w, u, k) !in Missed(w, u)
  {
    WordModulo();
    if u + MAX_UUID > WORD {
      var a := WORD - u;
      if k >= a {
        assert (u + k) % WORD == k - a;
      } else if a - k == 1 {
        ModuloUnique(u + k, 0x1_0001, 0);
      } else {
        ModuloUnique(u + k, 0x1_0000, MAX_UUID + 1 - (a - k));
      }
    }
  }

  // Counting

  function Upto(w: WorkerNo, n: nat): set<nat> {
    if n == 0 then {} else Upto(w, n - 1) + {w * WORKER + n}
  }

  lemma {:induction false} UptoSize(w: WorkerNo, n: nat)
    ensures |Upto(w, n)| == n
    ensures forall id: nat :: id in Upto(w, n) <==> w * WORKER < id <= w * WORKER + n
  {
    if n > 0 {
      UptoSize(w, n - 1);
    }
  }

  /** A worker has at most MAX_UUID live ids, and as many only when none is free. */
  lemma Pigeonhole(w: WorkerNo, live: set<nat>)
    requires forall id :: id in live ==> IsId(w, id)
    ensures |live| <= MAX_UUID
    ensures |live| == MAX_UUID <==> forall id :: IsId(w, id) ==> id in live
  {
    var all := Upto(w, MAX_UUID);
    UptoSize(w, MAX_UUID);
    assert live <= all;
    SubsetSize(live, all);
    if forall id :: IsId(w, id) ==> id in live {
      assert all == live;
    } else {
      var id: nat :| IsId(w, id) && id !in live;
      assert id in all;
    }
  }

  ghost predicate SomeDrawFree(w: WorkerNo, u: nat, live: set<nat>) {
    exists k: nat :: k < MAX_UUID && Draw(w, u, k) !in live
  }

  /** The search finds a free id exactly when the live ids, together with the one a wrapping search misses, do not take
      all ids; so always when two are free, and when one is free and the counter does not wrap. */
  lemma SearchSucceeds(w: WorkerNo, u: nat, live: set<nat>)
    requires u < WORD && forall id :: id in live ==> IsId(w, id)
    ensures SomeDrawFree(w, u, live) <==> |live + Missed(w, u)| < MAX_UUID
    ensures |live| < MAX_UUID - 1 ==> SomeDrawFree(w, u, live)
    ensures |live| < MAX_UUID && u + MAX_UUID <= WORD ==> SomeDrawFree(w, u, live)
  {
    var taken := live + Missed(w, u);
    Pigeonhole(w, taken);
    if SomeDrawFree(w, u, live) {
      var k: nat :| k < MAX_UUID && Draw(w, u, k) !in live;
      DrawMisses(w, u, k);
      assert Draw(w, u, k) !in taken;
    }
    if |taken| < MAX_UUID {
      var id :| IsId(w, id) && id !in taken;
      var k := DrawReaches(w, u, id);
      assert Draw(w, u, k) !in live;
    }
    assert taken == live + (Missed(w, u) - live);
    SubsetSize(Missed(w, u) - live, Missed(w, u));
  }

  /** With the counter about to wrap and one id free, the search fails although that id is not in use. */
  lemma WrapMissesFreeId(w: WorkerNo) returns (live: set<nat>, free: nat)
    ensures IsId(w, free) && free !in live && |live| == MAX_UUID - 1
    ensures (forall id :: id in live ==> IsId(w, id)) && !SomeDrawFree(w, WORD - 1, live)
  {
    free := w * WORKER + MAX_UUID;
    UptoSize(w, MAX_UUID - 1);
    live := Upto(w, MAX_UUID - 1);
    SearchSucceeds(w, WORD - 1, live);
    assert live + Missed(w, WORD - 1) == Upto(w, MAX_UUID);
    UptoSize(w, MAX_UUID);
  }
}
