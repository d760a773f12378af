/** Neither the order in which the runtime iterates over a table nor the array length it reports is part of a value. */
module Iteration {
  import opened Codec
  import opened RoundTrip

  function PairOf(e: Entry): multiset<(Value, Value)> {
    if e.key.Table? && !e.val.Nil? then multiset{(Abs(e.key), Abs(e.val))} else multiset{}
  }

  function TablePairs(es: seq<Entry>): multiset<(Value, Value)> {
    if es == [] then multiset{} else TablePairs(es[..|es| - 1]) + PairOf(es[|es| - 1])
  }

  lemma {:induction false} TablePairsRemove(es: seq<Entry>, k: nat)
    requires k < |es|
    ensures TablePairs(es) == TablePairs(es[..k] + es[k + 1..]) + PairOf(es[k])
  {
    hide PairOf;
    var n := |es| - 1;
    var less := es[..k] + es[k + 1..];
    if k == n {
      assert less == es[..n];
    } else {
      TablePairsRemove(es[..n], k);
      assert less[..n - 1] == es[..n][..k] + es[..n][k + 1..];
      assert less[n - 1] == es[n];
    }
  }

  lemma {:induction false} ByTableIs(t: LuaValue, n: nat)
    requires t.Table? && n <= |t.entries|
    ensures AbsEntries(t, n).byTable == TablePairs(t.entries[..n])
  {
    hide Abs, PairOf, RawSet;
    if n == 0 {
      assert t.entries[..0] == [];
    } else {
      ByTableIs(t, n - 1);
      var es, e := t.entries[..n], t.entries[n - 1];
      assert AbsEntries(t, n) == RawSet(AbsEntries(t, n - 1), Abs(e.key), Abs(e.val));
      RawSetPair(AbsEntries(t, n - 1), e);
      TablePairsLast(es, t.entries[..n - 1], e);
    }
  }

  lemma TablePairsLast(es: seq<Entry>, fs: seq<Entry>, e: Entry)
    requires es == fs + [e]
    ensures TablePairs(es) == TablePairs(fs) + PairOf(e)
  {
    hide PairOf;
    assert es[..|es| - 1] == fs;
  }

  lemma RawSetPair(c: Content, e: Entry)
    ensures RawSet(c, Abs(e.key), Abs(e.val)).byTable == c.byTable + PairOf(e)
  {
    assert e.key.Table? <==> Abs(e.key).VTable?;
    assert e.val.Nil? <==> Abs(e.val).VNil?;
  }

  lemma SameMap(f: map<Value, Value>, g: map<Value, Value>)
    requires forall x :: x in f ==> x in g && g[x] == f[x]
    requires forall x :: x in g ==> x in f
    ensures f == g
  {}

  /** The runtime may have shown the same value both times: the two differ in nothing but the array lengths it reports
      and the order in which it iterates, for the value itself and for every table inside it. */
  ghost predicate Same(v: LuaValue, u: LuaValue)
    decreases v, 1
  {
    if v.Table? then u.Table? && SameEntries(v, |v.entries|, u.entries) else v == u
  }

  /** The first `n` entries of a table can be paired off with the entries `fs`. */
  ghost predicate SameEntries(t: LuaValue, n: nat, fs: seq<Entry>)
    requires t.Table? && n <= |t.entries|
    decreases t, 0, n
  {
    if n == 0 then fs == []
    else
      var e := t.entries[n - 1];
      exists k :: 0 <= k < |fs| && Same(e.key, fs[k].key) && Same(e.val, fs[k].val)
                  && SameEntries(t, n - 1, fs[..k] + fs[k + 1..])
  }

  ghost predicate Alike(e: Entry, f: Entry) {
    Abs(e.key) == Abs(f.key) && Abs(e.val) == Abs(f.val)
  }

  ghost predicate Partnered(e: Entry, fs: seq<Entry>) {
    exists k :: 0 <= k < |fs| && Alike(e, fs[k])
  }

  /** What pairing off means once paired entries are known to have the same values. */
  ghost predicate Paired(es: seq<Entry>, fs: seq<Entry>) {
    && TablePairs(es) == TablePairs(fs)
    && (forall j :: 0 <= j < |es| ==> Partnered(es[j], fs))
    && (forall k :: 0 <= k < |fs| ==> Partnered(fs[k], es))
  }

  lemma PairedNone()
    ensures Paired([], [])
  {}

  lemma AlikePairs(e: Entry, f: Entry)
    requires Alike(e, f)
    ensures PairOf(e) == PairOf(f) && Alike(f, e)
  {
    assert (e.key.Table? <==> Abs(e.key).VTable?) && (e.val.Nil? <==> Abs(e.val).VNil?);
    assert (f.key.Table? <==> Abs(f.key).VTable?) && (f.val.Nil? <==> Abs(f.val).VNil?);
  }

  lemma PartneredIn(e: Entry, fs: seq<Entry>, gs: seq<Entry>)
    requires Partnered(e, fs) && forall f :: f in fs ==> f in gs
    ensures Partnered(e, gs)
  {
    hide Alike;
    var k :| 0 <= k < |fs| && Alike(e, fs[k]);
    assert fs[k] in gs;
    var l :| 0 <= l < |gs| && gs[l] == fs[k];
  }

  lemma PairedNext(es: seq<Entry>, e: Entry, fs: seq<Entry>, k: nat)
    requires k < |fs| && Alike(e, fs[k]) && Paired(es, fs[..k] + fs[k + 1..])
    ensures Paired(es + [e], fs)
  {
    var es', less := es + [e], fs[..k] + fs[k + 1..];
    AlikePairs(e, fs[k]);
    TablePairsRemove(fs, k);
    TablePairsLast(es', es, e);
    hide Alike, TablePairs, Partnered, PairOf, Abs;
    assert TablePairs(es') == TablePairs(fs);
    PairedForth(es, e, fs, k);
    PairedBackNext(es, e, fs, k);
  }

  lemma PairedForth(es: seq<Entry>, e: Entry, fs: seq<Entry>, k: nat)
    requires k < |fs| && Alike(e, fs[k]) && Paired(es, fs[..k] + fs[k + 1..])
    ensures forall j :: 0 <= j < |es| + 1 ==> Partnered((es + [e])[j], fs)
  {
    hide Alike, TablePairs, Partnered;
    PartneredBy(e, fs, k);
    forall j | 0 <= j < |es| ensures Partnered(es[j], fs) {
      PartneredIn(es[j], fs[..k] + fs[k + 1..], fs);
    }
  }

  lemma PairedBackNext(es: seq<Entry>, e: Entry, fs: seq<Entry>, k: nat)
    requires k < |fs| && Alike(fs[k], e) && Paired(es, fs[..k] + fs[k + 1..])
    ensures forall i :: 0 <= i < |fs| ==> Partnered(fs[i], es + [e])
  {
    hide Alike, TablePairs, Partnered;
    var less := fs[..k] + fs[k + 1..];
    forall i | 0 <= i < |fs| ensures Partnered(fs[i], es + [e]) {
      if i == k {
        PartneredBy(fs[k], es + [e], |es|);
      } else {
        assert fs[i] == less[if i < k then i else i - 1];
        PartneredIn(fs[i], es, es + [e]);
      }
    }
  }

  lemma PartneredBy(e: Entry, fs: seq<Entry>, k: nat)
    requires k < |fs| && Alike(e, fs[k])
    ensures Partnered(e, fs)
  {}

  lemma {:induction false} SameEntriesPaired(t: LuaValue, n: nat, fs: seq<Entry>)
    requires t.Table? && n <= |t.entries| && WellFormed(t) && SameEntries(t, n, fs)
    requires forall k :: 0 <= k < |fs| ==> WellFormed(fs[k].key) && WellFormed(fs[k].val)
    ensures Paired(t.entries[..n], fs)
    decreases t, 0, n
  {
    hide WellFormed, Abs, Paired;
    if n == 0 {
      PairedNone();
    } else {
      var e := t.entries[n - 1];
      EntryOk(t, n - 1);
      var k :| 0 <= k < |fs| && Same(e.key, fs[k].key) && Same(e.val, fs[k].val)
               && SameEntries(t, n - 1, fs[..k] + fs[k + 1..]);
      OrderIrrelevant(e.key, fs[k].key);
      OrderIrrelevant(e.val, fs[k].val);
      SameEntriesPaired(t, n - 1, fs[..k] + fs[k + 1..]);
      PairedNext(t.entries[..n - 1], e, fs, k);
      assert t.entries[..n] == t.entries[..n - 1] + [e];
    }
  }

  /** Neither the iteration order nor the reported array length of a table, at any depth, is part of a value. */
  lemma {:induction false} OrderIrrelevant(v: LuaValue, u: LuaValue)
    requires WellFormed(v) && WellFormed(u) && Same(v, u)
    ensures Abs(v) == Abs(u)
    decreases v, 1
  {
    hide AbsEntries, WellFormed, SameEntries;
    if v.Table? {
      TablesOrdered(v, u);
    }
  }

  lemma {:induction false} TablesOrdered(v: LuaValue, u: LuaValue)
    requires v.Table? && u.Table? && WellFormed(v) && WellFormed(u) && SameEntries(v, |v.entries|, u.entries)
    ensures AbsEntries(v, |v.entries|) == AbsEntries(u, |u.entries|)
    decreases v, 0, |v.entries| + 1
  {
    hide AbsEntries, WellFormed, Paired, SameEntries;
    forall k: nat | k < |u.entries| ensures WellFormed(u.entries[k].key) && WellFormed(u.entries[k].val) {
      EntryOk(u, k);
    }
    SameEntriesPaired(v, |v.entries|, u.entries);
    assert v.entries[..|v.entries|] == v.entries;
    PairedTables(v, u);
  }

  lemma PairedTables(v: LuaValue, u: LuaValue)
    requires v.Table? && u.Table? && WellFormed(v) && WellFormed(u) && Paired(v.entries, u.entries)
    ensures AbsEntries(v, |v.entries|) == AbsEntries(u, |u.entries|)
  {
    hide AbsEntries, WellFormed, Paired;
    SameByTable(v, u);
    FieldsWithin(v, u);
    PairedBack(v.entries, u.entries);
    FieldsWithin(u, v);
    SameMap(AbsEntries(v, |v.entries|).fields, AbsEntries(u, |u.entries|).fields);
  }

  lemma PairedBack(es: seq<Entry>, fs: seq<Entry>)
    requires Paired(es, fs)
    ensures Paired(fs, es)
  {
    hide Partnered, TablePairs;
  }

  lemma SameByTable(t: LuaValue, u: LuaValue)
    requires t.Table? && u.Table? && Paired(t.entries, u.entries)
    ensures AbsEntries(t, |t.entries|).byTable == AbsEntries(u, |u.entries|).byTable
  {
    hide AbsEntries, TablePairs, Partnered;
    ByTableIs(t, |t.entries|);
    ByTableIs(u, |u.entries|);
    assert t.entries[..|t.entries|] == t.entries && u.entries[..|u.entries|] == u.entries;
  }

  lemma FieldsWithin(t: LuaValue, u: LuaValue)
    requires t.Table? && u.Table? && WellFormed(t) && WellFormed(u) && Paired(t.entries, u.entries)
    ensures var f, g := AbsEntries(t, |t.entries|).fields, AbsEntries(u, |u.entries|).fields;
            forall x :: x in f ==> x in g && g[x] == f[x]
  {
    hide WellFormed, AbsEntries, TablePairs, Abs, Partnered, Stores;
    AbsStores(t, |t.entries|);
    AbsStores(u, |u.entries|);
    forall x | x in AbsEntries(t, |t.entries|).fields
      ensures x in AbsEntries(u, |u.entries|).fields
           && AbsEntries(u, |u.entries|).fields[x] == AbsEntries(t, |t.entries|).fields[x]
    {
      var j := StoredAt(AbsEntries(t, |t.entries|), t, x);
      assert Partnered(t.entries[j], u.entries);
      var k := PartnerStored(AbsEntries(u, |u.entries|), u, t.entries[j]);
    }
  }

  lemma StoredAt(c: Content, t: LuaValue, x: Value) returns (j: nat)
    requires t.Table? && Stores(c, t, Below(|t.entries|)) && x in c.fields
    ensures j < |t.entries| && !t.entries[j].key.Table?
    ensures Abs(t.entries[j].key) == x && c.fields[x] == Abs(t.entries[j].val)
  {
    hide Abs;
    j :| j < |t.entries| && !t.entries[j].key.Table? && Abs(t.entries[j].key) == x;
  }

  lemma PartnerStored(c: Content, u: LuaValue, e: Entry) returns (k: nat)
    requires u.Table? && Stores(c, u, Below(|u.entries|)) && Partnered(e, u.entries) && !e.key.Table?
    ensures Abs(e.key) in c.fields && c.fields[Abs(e.key)] == Abs(e.val)
  {
    var i :| 0 <= i < |u.entries| && Alike(e, u.entries[i]);
    assert (e.key.Table? <==> Abs(e.key).VTable?) && (u.entries[i].key.Table? <==> Abs(u.entries[i].key).VTable?);
    hide Abs;
    k := i;
  }

  /** A permutation of the entries, whatever length is reported, is one of these differences. */
  lemma {:induction false} PermutedIsSame(t: LuaValue, n: nat, fs: seq<Entry>)
    requires t.Table? && n <= |t.entries| && multiset(t.entries[..n]) == multiset(fs)
    ensures SameEntries(t, n, fs)
    decreases t, 0, n
  {
    if n == 0 {
      assert |multiset(fs)| == 0;
    } else {
      var es, e := t.entries[..n], t.entries[n - 1];
      var k := WithoutLast(es, fs);
      assert es[..n - 1] == t.entries[..n - 1];
      PermutedIsSame(t, n - 1, fs[..k] + fs[k + 1..]);
      SameReflexive(e.key);
      SameReflexive(e.val);
    }
  }

  lemma {:induction false} SameReflexive(v: LuaValue)
    ensures Same(v, v)
    decreases v, 1
  {
    if v.Table? {
      assert v.entries[..|v.entries|] == v.entries;
      PermutedIsSame(v, |v.entries|, v.entries);
    }
  }

  lemma WithoutLast(es: seq<Entry>, fs: seq<Entry>) returns (k: nat)
    requires multiset(es) == multiset(fs) && es != []
    ensures k < |fs| && fs[k] == es[|es| - 1]
    ensures multiset(es[..|es| - 1]) == multiset(fs[..k] + fs[k + 1..])
  {
    var n := |es| - 1;
    assert es == es[..n] + [es[n]];
    assert es[n] in multiset(fs);
    k :| 0 <= k < |fs| && fs[k] == es[n];
    assert fs == fs[..k] + [fs[k]] + fs[k + 1..];
    assert multiset(es[..n]) == multiset(es) - multiset{es[n]};
    assert multiset(fs[..k] + fs[k + 1..]) == multiset(fs) - multiset{es[n]};
  }

  // ----- and nothing else is lost -----

  function PairOne(e: Entry): (Value, Value) {
    (Abs(e.key), Abs(e.val))
  }

  function AllPairs(es: seq<Entry>): multiset<(Value, Value)> {
    if es == [] then multiset{} else AllPairs(es[..|es| - 1]) + multiset{PairOne(es[|es| - 1])}
  }

  lemma {:induction false} AllPairsRemove(es: seq<Entry>, k: nat)
    requires k < |es|
    ensures AllPairs(es) == AllPairs(es[..k] + es[k + 1..]) + multiset{PairOne(es[k])}
  {
    hide PairOne;
    var n := |es| - 1;
    var less := es[..k] + es[k + 1..];
    if k == n {
      assert less == es[..n];
    } else {
      AllPairsRemove(es[..n], k);
      assert less[..n - 1] == es[..n][..k] + es[..n][k + 1..];
      assert less[n - 1] == es[n];
    }
  }

  lemma {:induction false} PairFound(es: seq<Entry>, p: (Value, Value)) returns (k: nat)
    requires p in AllPairs(es)
    ensures k < |es| && PairOne(es[k]) == p
  {
    hide PairOne;
    var n := |es| - 1;
    if p in AllPairs(es[..n]) {
      k := PairFound(es[..n], p);
    } else {
      k := n;
    }
  }

  function FieldPairs(m: map<Value, Value>): multiset<(Value, Value)> {
    multiset(set x | x in m :: (x, m[x]))
  }

  lemma FieldCount(m: map<Value, Value>, p: (Value, Value))
    ensures FieldPairs(m)[p] == if p.0 in m && m[p.0] == p.1 then 1 else 0
  {
    var pairs := set x | x in m :: (x, m[x]);
    if p in pairs {
      var x :| x in m && p == (x, m[x]);
    } else if p.0 in m {
      assert (p.0, m[p.0]) in pairs;
    }
  }

  lemma FieldPairsAdd(m: map<Value, Value>, k: Value, v: Value)
    requires k !in m
    ensures FieldPairs(m[k := v]) == FieldPairs(m) + multiset{(k, v)}
  {
    hide FieldPairs;
    forall p: (Value, Value) ensures FieldPairs(m[k := v])[p] == (FieldPairs(m) + multiset{(k, v)})[p] {
      FieldCount(m, p);
      FieldCount(m[k := v], p);
      assert p == (k, v) <==> p.0 == k && p.1 == v;
    }
  }

  lemma RawSetPairs(c: Content, k: Value, v: Value)
    requires !v.VNil? && (!k.VTable? ==> k !in c.fields)
    ensures var c' := RawSet(c, k, v);
            FieldPairs(c'.fields) + c'.byTable == FieldPairs(c.fields) + c.byTable + multiset{(k, v)}
  {
    hide FieldPairs;
    if !k.VTable? {
      FieldPairsAdd(c.fields, k, v);
    }
  }

  /** A key that comes later is not yet in the table. */
  lemma KeyIsNew(t: LuaValue, n: nat)
    requires t.Table? && WellFormed(t) && n < |t.entries| && !t.entries[n].key.Table?
    ensures Abs(t.entries[n].key) !in AbsEntries(t, n).fields
  {
    AbsStores(t, n);
    if Abs(t.entries[n].key) in AbsEntries(t, n).fields {
      var j: nat :| j < n && !t.entries[j].key.Table? && Abs(t.entries[j].key) == Abs(t.entries[n].key);
      ScalarsApart(t.entries[j].key, t.entries[n].key);
      assert false;
    }
  }

  /** The content of a table accounts for every entry once. */
  lemma {:induction false} ContentPairs(t: LuaValue, n: nat)
    requires t.Table? && WellFormed(t) && n <= |t.entries|
    ensures AllPairs(t.entries[..n]) == FieldPairs(AbsEntries(t, n).fields) + AbsEntries(t, n).byTable
  {
    hide FieldPairs, RawSet, Abs, WellFormed;
    if n == 0 {
      NoPairs(t);
    } else {
      ContentPairs(t, n - 1);
      var es, e, c := t.entries[..n], t.entries[n - 1], AbsEntries(t, n - 1);
      assert es[..n - 1] == t.entries[..n - 1];
      KeyAndValue(t, n - 1);
      RawSetPairs(c, Abs(e.key), Abs(e.val));
      assert AbsEntries(t, n) == RawSet(c, Abs(e.key), Abs(e.val));
      assert AllPairs(es) == AllPairs(es[..n - 1]) + multiset{PairOne(e)};
    }
  }

  lemma NoPairs(t: LuaValue)
    requires t.Table?
    ensures AllPairs(t.entries[..0]) == FieldPairs(AbsEntries(t, 0).fields) + AbsEntries(t, 0).byTable
  {
    assert t.entries[..0] == [];
  }

  lemma KeyAndValue(t: LuaValue, n: nat)
    requires t.Table? && WellFormed(t) && n < |t.entries|
    ensures !Abs(t.entries[n].val).VNil?
    ensures !Abs(t.entries[n].key).VTable? ==> Abs(t.entries[n].key) !in AbsEntries(t, n).fields
  {
    var e := t.entries[n];
    assert (Abs(e.key).VTable? <==> e.key.Table?) && (Abs(e.val).VNil? <==> e.val.Nil?);
    if !e.key.Table? {
      KeyIsNew(t, n);
    }
  }

  lemma {:induction false} PairsSame(t: LuaValue, n: nat, fs: seq<Entry>)
    requires t.Table? && n <= |t.entries| && WellFormed(t)
    requires forall k :: 0 <= k < |fs| ==> WellFormed(fs[k].key) && WellFormed(fs[k].val)
    requires AllPairs(t.entries[..n]) == AllPairs(fs)
    ensures SameEntries(t, n, fs)
    decreases t, 0, n
  {
    hide Abs, WellFormed, AllPairs, PairOne;
    if n == 0 {
      AllPairsSize(t.entries[..0]);
      AllPairsSize(fs);
    } else {
      var e := t.entries[n - 1];
      assert t.entries[..n] == t.entries[..n - 1] + [e];
      var k := Cancel(t.entries[..n - 1], e, fs);
      EntryOk(t, n - 1);
      AbsMeansSame(e.key, fs[k].key);
      AbsMeansSame(e.val, fs[k].val);
      PairsSame(t, n - 1, fs[..k] + fs[k + 1..]);
    }
  }

  lemma {:induction false} AllPairsSize(es: seq<Entry>)
    ensures |AllPairs(es)| == |es|
  {
    if es != [] {
      AllPairsSize(es[..|es| - 1]);
    }
  }

  lemma AllPairsAppend(es: seq<Entry>, e: Entry)
    ensures AllPairs(es + [e]) == AllPairs(es) + multiset{PairOne(e)}
  {
    hide PairOne;
    assert (es + [e])[..|es|] == es;
  }

  lemma Cancel(es: seq<Entry>, e: Entry, fs: seq<Entry>) returns (k: nat)
    requires AllPairs(es + [e]) == AllPairs(fs)
    ensures k < |fs| && Abs(e.key) == Abs(fs[k].key) && Abs(e.val) == Abs(fs[k].val)
    ensures AllPairs(es) == AllPairs(fs[..k] + fs[k + 1..])
  {
    hide Abs, AllPairs;
    AllPairsAppend(es, e);
    k := PairFound(fs, PairOne(e));
    AllPairsRemove(fs, k);
    assert AllPairs(es) == AllPairs(es + [e]) - multiset{PairOne(e)};
    assert AllPairs(fs[..k] + fs[k + 1..]) == AllPairs(fs) - multiset{PairOne(fs[k])};
  }

  lemma {:induction false} AbsMeansSame(v: LuaValue, u: LuaValue)
    requires WellFormed(v) && WellFormed(u) && Abs(v) == Abs(u)
    ensures Same(v, u)
    decreases v, 1
  {
    if v.Table? {
      forall k: nat | k < |u.entries| ensures WellFormed(u.entries[k].key) && WellFormed(u.entries[k].val) {
        EntryOk(u, k);
      }
      ContentPairs(v, |v.entries|);
      ContentPairs(u, |u.entries|);
      assert v.entries[..|v.entries|] == v.entries && u.entries[..|u.entries|] == u.entries;
      PairsSame(v, |v.entries|, u.entries);
    } else {
      ScalarsApart(v, u);
    }
  }

  /** Two presentations have the same value if and only if they differ in iteration order and reported array lengths
      alone. */
  lemma SameIff(v: LuaValue, u: LuaValue)
    requires WellFormed(v) && WellFormed(u)
    ensures Abs(v) == Abs(u) <==> Same(v, u)
  {
    if Same(v, u) {
      OrderIrrelevant(v, u);
    } else if Abs(v) == Abs(u) {
      AbsMeansSame(v, u);
    }
  }
}
