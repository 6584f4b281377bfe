/** The layout of pb_Table: slots whose colliding entries are chained by relative offsets. */
module PbTableSpec {
  import opened Basics

  /** One slot. `next` is the distance to the next slot of the chain, 0 at its end; key 0 marks a free slot. */
  datatype Entry<V> = Entry(next: int, key: int, val: V)

  /** The main position of a key: a multiplicative hash cut to the size of the table, a power of two; slot 0 is kept for
      key 0. */
  function Slot(key: int, size: nat): (s: nat)
    requires size >= 2
    ensures key != 0 ==> 1 <= s
    ensures s < size
  {
    var h := (key * 2654435761) % size;
    if key != 0 && h == 0 then 1 else h
  }

  /** The sizes a table takes: 8, doubled any number of times. */
  predicate Doubled(size: nat) {
    size == 8 || (size > 8 && size % 2 == 0 && Doubled(size / 2))
  }

  /** The distance from the `i`-th slot of a chain to the next. */
  function Step(c: seq<nat>, i: nat): int
    requires i < |c|
  {
    if i + 1 < |c| then (c[i + 1] as int) - (c[i] as int) else 0
  }

  /** The `i`-th slot of the chain `c` of main position `m`. */
  ghost predicate Linked<V>(h: seq<Entry<V>>, c: seq<nat>, m: nat, i: nat) {
    && |h| >= 2 && i < |c| && 1 <= c[i] < |h| && h[c[i]].key != 0 && Slot(h[c[i]].key, |h|) == m
    && h[c[i]].next == Step(c, i)
  }

  /** `c` is the chain of main position `m`: it starts there, if it is not empty. */
  ghost predicate ChainOk<V>(h: seq<Entry<V>>, c: seq<nat>, m: nat) {
    && Distinct(c) && (c != [] ==> c[0] == m)
    && (forall i :: 0 <= i < |c| ==> Linked(h, c, m, i))
  }

  /** The chain with its `j`-th slot replaced by `f`. */
  function Moved(c: seq<nat>, j: nat, f: nat): (c': seq<nat>)
    requires j < |c|
    ensures |c'| == |c|
  {
    c[j := f]
  }

  ghost predicate Free<V>(e: Entry<V>) {
    e.key == 0 && e.next == 0
  }

  /** `chains` are the chains of all main positions, `wh` says where each key is, and the slots from `lastfree` on are
      taken. */
  ghost predicate Inv<V>(h: seq<Entry<V>>, chains: seq<seq<nat>>, wh: map<int, nat>, lastfree: nat) {
    && |h| >= 2 && |chains| == |h| && 1 <= lastfree <= |h| && Free(h[0])
    && (forall m :: 0 <= m < |h| ==> ChainOk(h, chains[m], m))
    && (forall s :: 1 <= s < |h| ==> Placed(h, chains, wh, s))
    && (forall k :: k in wh ==> k != 0 && 1 <= wh[k] < |h| && h[wh[k]].key == k)
    && (forall s :: lastfree <= s < |h| ==> h[s].key != 0)
  }

  /** A slot is free, or in the chain of its key, which is where the key is. */
  ghost predicate Placed<V>(h: seq<Entry<V>>, chains: seq<seq<nat>>, wh: map<int, nat>, s: nat) {
    && 1 <= s < |h| == |chains|
    && (h[s].key == 0 ==> h[s].next == 0)
    && (h[s].key != 0 ==> h[s].key in wh && wh[h[s].key] == s && s in chains[Slot(h[s].key, |h|)])
  }

  /** What the table holds: the payload of every key. */
  ghost function Content<V>(h: seq<Entry<V>>, wh: map<int, nat>): map<int, V>
    requires forall k :: k in wh ==> wh[k] < |h|
  {
    map k | k in wh :: h[wh[k]].val
  }

  // ----- chains -----

  /** A slot is in one chain only. */
  lemma {:induction false} OneChain<V>(h: seq<Entry<V>>, chains: seq<seq<nat>>, wh: map<int, nat>, lastfree: nat,
                                       m: nat, s: nat)
    requires Inv(h, chains, wh, lastfree) && m < |h| && s in chains[m]
    ensures 1 <= s < |h| && h[s].key != 0 && Slot(h[s].key, |h|) == m
  {
    hide Slot;
    var i :| 0 <= i < |chains[m]| && chains[m][i] == s;
    assert Linked(h, chains[m], m, i);
  }

  /** If any key has main position `m`, slot `m` holds such a key. */
  lemma {:induction false} HeadIsMain<V>(h: seq<Entry<V>>, chains: seq<seq<nat>>, wh: map<int, nat>, lastfree: nat,
                                         m: nat)
    requires Inv(h, chains, wh, lastfree) && m < |h| && chains[m] != []
    ensures 1 <= m && h[m].key != 0 && Slot(h[m].key, |h|) == m
  {
    hide Slot;
    assert Linked(h, chains[m], m, 0);
  }

  /** A chain is not touched by changes elsewhere. */
  lemma {:induction false} ChainKept<V>(h: seq<Entry<V>>, h': seq<Entry<V>>, c: seq<nat>, m: nat)
    requires ChainOk(h, c, m) && |h'| == |h|
    requires forall s :: s in c && s < |h| ==> h'[s].next == h[s].next && h'[s].key == h[s].key
    ensures ChainOk(h', c, m)
  {
    hide Slot;
    forall i | 0 <= i < |c| ensures Linked(h', c, m, i) {
      assert Linked(h, c, m, i) && c[i] in c;
    }
  }

  // ----- the three ways to insert a key -----

  /** A key with an empty payload is added, all other payloads are where their keys now are. */
  lemma {:induction false} ContentAdds<V>(h: seq<Entry<V>>, wh: map<int, nat>, h': seq<Entry<V>>, wh': map<int, nat>,
                                          key: int, zero: V)
    requires key !in wh && wh'.Keys == wh.Keys + {key}
    requires forall k :: k in wh ==> wh[k] < |h| && wh'[k] < |h'| && h'[wh'[k]].val == h[wh[k]].val
    requires wh'[key] < |h'| && h'[wh'[key]].val == zero
    ensures forall k :: k in wh' ==> wh'[k] < |h'|
    ensures Content(h', wh') == Content(h, wh)[key := zero]
  {
    assert forall k :: k in wh' ==> wh'[k] < |h'|;
    var m, m' := Content(h, wh), Content(h', wh');
    assert m'.Keys == m.Keys + {key};
    forall k | k in m' ensures m'[k] == m[key := zero][k] {
    }
  }

  /** The key goes to its free main position. */
  function PutAtMain<V>(h: seq<Entry<V>>, mp: nat, key: int, zero: V): seq<Entry<V>>
    requires mp < |h|
  {
    h[mp := Entry(h[mp].next, key, zero)]
  }

  lemma {:induction false} PutAtMainOk<V>(h: seq<Entry<V>>, chains: seq<seq<nat>>, wh: map<int, nat>, lastfree: nat,
                                          key: int, zero: V)
    requires Inv(h, chains, wh, lastfree) && key != 0 && key !in wh
    requires h[Slot(key, |h|)].key == 0
    ensures var mp := Slot(key, |h|);
      && Inv(PutAtMain(h, mp, key, zero), chains[mp := [mp]], wh[key := mp], lastfree)
      && Content(PutAtMain(h, mp, key, zero), wh[key := mp]) == Content(h, wh)[key := zero]
  {
    hide Slot;
    var mp := Slot(key, |h|);
    var h', chains', wh' := PutAtMain(h, mp, key, zero), chains[mp := [mp]], wh[key := mp];
    assert Placed(h, chains, wh, mp);
    forall m | 0 <= m < |h| ensures ChainOk(h', chains'[m], m) {
      if m == mp {
        assert Linked(h', [mp], mp, 0);
      } else {
        assert !(mp in chains[m]) by {
          if mp in chains[m] {
            OneChain(h, chains, wh, lastfree, m, mp);
          }
        }
        ChainKept(h, h', chains[m], m);
      }
    }
    forall s | 1 <= s < |h| ensures Placed(h', chains', wh', s) {
      assert Placed(h, chains, wh, s);
      if s != mp && h[s].key != 0 && Slot(h[s].key, |h|) == mp {
        HeadIsMain(h, chains, wh, lastfree, mp);
      }
    }
    ContentAdds(h, wh, h', wh', key, zero);
  }

  /** The entry at the main position belongs there: the key goes to the free slot `f`, second in the chain. */
  function PutSecond<V>(h: seq<Entry<V>>, mp: nat, f: nat, key: int, zero: V): seq<Entry<V>>
    requires mp < |h| && f < |h|
  {
    var n := h[mp].next;
    h[f := Entry(if n != 0 then (mp as int) - (f as int) + n else h[f].next, key, zero)]
     [mp := h[mp].(next := (f as int) - (mp as int))]
  }

  lemma {:induction false} PutSecondOk<V>(h: seq<Entry<V>>, chains: seq<seq<nat>>, wh: map<int, nat>, lastfree: nat,
                                          f: nat, key: int, zero: V)
    requires Inv(h, chains, wh, lastfree) && key != 0 && key !in wh && 1 <= f < |h| && Free(h[f])
    requires var mp := Slot(key, |h|); h[mp].key != 0 && Slot(h[mp].key, |h|) == mp
    ensures chains[Slot(key, |h|)] != []
    ensures var mp := Slot(key, |h|);
      var chains' := chains[mp := [mp, f] + chains[mp][1..]];
      && Inv(PutSecond(h, mp, f, key, zero), chains', wh[key := f], lastfree)
      && Content(PutSecond(h, mp, f, key, zero), wh[key := f]) == Content(h, wh)[key := zero]
  {
    hide Slot;
    var mp := Slot(key, |h|);
    assert Placed(h, chains, wh, mp) && Placed(h, chains, wh, f);
    var c := chains[mp];
    var c' := [mp, f] + c[1..];
    var h', chains', wh' := PutSecond(h, mp, f, key, zero), chains[mp := c'], wh[key := f];
    FreeSlotUnchained(h, chains, wh, lastfree, f);
    SecondChain(h, h', c, mp, f, key);
    forall m | 0 <= m < |h| ensures ChainOk(h', chains'[m], m) {
      if m != mp {
        if mp in chains[m] {
          OneChain(h, chains, wh, lastfree, m, mp);
        }
        ChainKept(h, h', chains[m], m);
      }
    }
    forall s | 1 <= s < |h| ensures Placed(h', chains', wh', s) {
      assert Placed(h, chains, wh, s);
      if s != f && s in c {
        InSecond(c, mp, f, s);
      }
    }
    ContentAdds(h, wh, h', wh', key, zero);
  }

  lemma {:induction false} InSecond(c: seq<nat>, mp: nat, f: nat, s: nat)
    requires c != [] && c[0] == mp && s in c
    ensures s in [mp, f] + c[1..]
  {
    assert c == [mp] + c[1..];
  }

  lemma {:induction false} FreeSlotUnchained<V>(h: seq<Entry<V>>, chains: seq<seq<nat>>, wh: map<int, nat>,
                                                lastfree: nat, f: nat)
    requires Inv(h, chains, wh, lastfree) && f < |h| && h[f].key == 0
    ensures forall m :: 0 <= m < |h| ==> f !in chains[m]
  {
    hide Slot;
    forall m | 0 <= m < |h| && f in chains[m] ensures false {
      OneChain(h, chains, wh, lastfree, m, f);
    }
  }

  /** The chain with `f` inserted behind its head. */
  lemma {:induction false} SecondChain<V>(h: seq<Entry<V>>, h': seq<Entry<V>>, c: seq<nat>, mp: nat, f: nat, key: int)
    requires ChainOk(h, c, mp) && mp in c && f !in c && |h'| == |h| && 1 <= f < |h| && key != 0 && Slot(key, |h|) == mp
    requires mp < |h| && h'[mp].key == h[mp].key && h'[mp].next == f - mp
    requires h'[f].key == key && h'[f].next == if h[mp].next != 0 then mp - f + h[mp].next else 0
    requires forall s :: 0 <= s < |h| && s != mp && s != f ==> h'[s] == h[s]
    ensures c != [] && ChainOk(h', [mp, f] + c[1..], mp)
  {
    hide Slot;
    var c' := [mp, f] + c[1..];
    forall i | 0 <= i < |c| ensures c[i] in c && Linked(h, c, mp, i) {
    }
    assert Linked(h, c, mp, 0);
    forall i | 0 <= i < |c'| ensures Linked(h', c', mp, i) {
      if i >= 2 {
        assert c'[i] == c[i - 1] && Linked(h, c, mp, i - 1);
        assert c[0] != c[i - 1];
      } else if i == 1 && |c| > 1 {
        assert c[0] != c[1] && c'[2] == c[1];
      }
    }
    SecondDistinct(c, mp, f);
  }

  lemma {:induction false} SecondDistinct(c: seq<nat>, mp: nat, f: nat)
    requires Distinct(c) && c != [] && c[0] == mp && f !in c
    ensures Distinct([mp, f] + c[1..])
  {
    var c' := [mp, f] + c[1..];
    forall i, j | 0 <= i < j < |c'| ensures c'[i] != c'[j] {
      if j >= 2 {
        assert c'[j] == c[j - 1] && c[j - 1] in c;
        if i == 0 {
          assert c[0] != c[j - 1];
        } else if i >= 2 {
          assert c'[i] == c[i - 1] && c[i - 1] != c[j - 1];
        }
      } else {
        assert c[0] in c;
      }
    }
  }

  /** The entry at the main position belongs elsewhere: it moves to the free slot `f`, and its predecessor is
      relinked. */
  function Relocate<V>(h: seq<Entry<V>>, mp: nat, prev: nat, f: nat, key: int, zero: V): seq<Entry<V>>
    requires mp < |h| && f < |h| && prev < |h|
  {
    var n := h[mp].next;
    h[prev := h[prev].(next := (f as int) - (prev as int))]
     [f := h[mp].(next := if n != 0 then n + (mp as int) - (f as int) else 0)]
     [mp := Entry(0, key, zero)]
  }

  lemma {:induction false} RelocateOk<V>(h: seq<Entry<V>>, chains: seq<seq<nat>>, wh: map<int, nat>, lastfree: nat,
                                         f: nat, j: nat, key: int, zero: V)
    requires Inv(h, chains, wh, lastfree) && key != 0 && key !in wh && 1 <= f < |h| && Free(h[f])
    requires var mp := Slot(key, |h|);
      && h[mp].key != 0 && Slot(h[mp].key, |h|) != mp
      && var c := chains[Slot(h[mp].key, |h|)]; 0 < j < |c| && c[j] == mp
    ensures chains[Slot(h[Slot(key, |h|)].key, |h|)][j - 1] < |h|
    ensures var mp := Slot(key, |h|);
      var on := Slot(h[mp].key, |h|);
      var c := chains[on];
      var chains' := chains[on := Moved(c, j, f)][mp := [mp]];
      var h' := Relocate(h, mp, c[j - 1], f, key, zero);
      && Inv(h', chains', wh[h[mp].key := f][key := mp], lastfree)
      && Content(h', wh[h[mp].key := f][key := mp]) == Content(h, wh)[key := zero]
  {
    hide Slot, Content;
    var mp := Slot(key, |h|);
    var on := Slot(h[mp].key, |h|);
    var c := chains[on];
    assert Linked(h, c, on, j - 1) && c[j - 1] != c[j];
    var prev := c[j - 1];
    var h', chains' := Relocate(h, mp, prev, f, key, zero), chains[on := Moved(c, j, f)][mp := [mp]];
    var wh' := wh[h[mp].key := f][key := mp];
    assert Placed(h, chains, wh, mp) && Placed(h, chains, wh, f);
    FreeSlotUnchained(h, chains, wh, lastfree, f);
    RelocatedChain(h, h', c, on, mp, f, j);
    forall m | 0 <= m < |h| ensures ChainOk(h', chains'[m], m) {
      if m == mp {
        assert Linked(h', [mp], mp, 0);
      } else if m != on {
        OtherChain(h, chains, wh, lastfree, m, on, mp, prev);
        ChainKept(h, h', chains[m], m);
      }
    }
    forall s | 1 <= s < |h| ensures Placed(h', chains', wh', s) {
      RelocatedPlaced(h, chains, wh, lastfree, f, j, key, zero, s);
    }
    ContentAdds(h, wh, h', wh', key, zero);
  }

  lemma {:induction false} RelocatedPlaced<V>(h: seq<Entry<V>>, chains: seq<seq<nat>>, wh: map<int, nat>, lastfree: nat,
                                              f: nat, j: nat, key: int, zero: V, s: nat)
    requires Inv(h, chains, wh, lastfree) && key != 0 && key !in wh && 1 <= f < |h| && Free(h[f]) && 1 <= s < |h|
    requires var mp := Slot(key, |h|);
      && h[mp].key != 0 && Slot(h[mp].key, |h|) != mp
      && var c := chains[Slot(h[mp].key, |h|)]; 0 < j < |c| && c[j] == mp && c[j - 1] < |h|
    ensures var mp := Slot(key, |h|);
      var on := Slot(h[mp].key, |h|);
      var c := chains[on];
      Placed(Relocate(h, mp, c[j - 1], f, key, zero), chains[on := Moved(c, j, f)][mp := [mp]],
        wh[h[mp].key := f][key := mp], s)
  {
    hide Slot;
    var mp := Slot(key, |h|);
    var on := Slot(h[mp].key, |h|);
    var c := chains[on];
    assert Linked(h, c, on, j - 1);
    if chains[mp] != [] {
      HeadIsMain(h, chains, wh, lastfree, mp);
    }
    assert Placed(h, chains, wh, s) && Placed(h, chains, wh, mp);
    if s == f {
      assert Moved(c, j, f)[j] == f;
    } else if s in c && s != mp {
      var i :| 0 <= i < |c| && c[i] == s;
      assert Moved(c, j, f)[i] == s;
    }
  }

  lemma {:induction false} OtherChain<V>(h: seq<Entry<V>>, chains: seq<seq<nat>>, wh: map<int, nat>, lastfree: nat,
                                         m: nat, on: nat, mp: nat, prev: nat)
    requires Inv(h, chains, wh, lastfree) && m < |h| && on < |h| && m != on && mp in chains[on] && prev in chains[on]
    ensures mp !in chains[m] && prev !in chains[m]
  {
    hide Slot;
    if mp in chains[m] {
      OneChain(h, chains, wh, lastfree, m, mp);
      OneChain(h, chains, wh, lastfree, on, mp);
    }
    if prev in chains[m] {
      OneChain(h, chains, wh, lastfree, m, prev);
      OneChain(h, chains, wh, lastfree, on, prev);
    }
  }

  /** The chain with its `j`-th slot moved to `f`. */
  lemma {:induction false} RelocatedChain<V>(h: seq<Entry<V>>, h': seq<Entry<V>>, c: seq<nat>, on: nat, mp: nat, f: nat,
                                             j: nat)
    requires ChainOk(h, c, on) && 0 < j < |c| && c[j] == mp < |h| && f !in c && |h'| == |h| && 1 <= f < |h|
    requires c[j - 1] < |h| && h'[c[j - 1]] == h[c[j - 1]].(next := f - c[j - 1])
    requires h'[f].key == h[mp].key && h'[f].next == if h[mp].next != 0 then h[mp].next + mp - f else 0
    requires forall s :: 0 <= s < |h| && s != mp && s != f && s != c[j - 1] ==> h'[s] == h[s]
    ensures ChainOk(h', Moved(c, j, f), on)
  {
    hide Slot;
    var c' := Moved(c, j, f);
    forall i | 0 <= i < |c| ensures c[i] in c {
    }
    assert Linked(h, c, on, j);
    forall i | 0 <= i < |c'| ensures Linked(h', c', on, i) {
      assert Linked(h, c, on, i);
      if i == j {
        if j + 1 < |c| {
          assert c[j] != c[j + 1];
        }
      } else {
        assert c[i] != c[j];
        if i != j - 1 {
          assert c[i] != c[j - 1];
        }
      }
    }
    forall i, k | 0 <= i < k < |c'| ensures c'[i] != c'[k] {
      assert c[i] != c[k];
    }
  }

  // ----- counting -----

  /** The keys of the slots from 1 to `n`. */
  function KeysTo<V>(h: seq<Entry<V>>, n: nat): set<int>
    requires n < |h|
  {
    if n == 0 then {} else KeysTo(h, n - 1) + {h[n].key}
  }

  lemma {:induction false} InKeysTo<V>(h: seq<Entry<V>>, n: nat, k: int)
    requires n < |h| && k in KeysTo(h, n)
    ensures exists s :: 1 <= s <= n && h[s].key == k
  {
    if k == h[n].key {
    } else {
      InKeysTo(h, n - 1, k);
    }
  }

  /** In a full table every slot but the first holds a key and is where that key is. */
  lemma {:induction false} FullSlot<V>(h: seq<Entry<V>>, chains: seq<seq<nat>>, wh: map<int, nat>, s: nat)
    requires Inv(h, chains, wh, 1) && 1 <= s < |h|
    ensures h[s].key != 0 && h[s].key in wh && wh[h[s].key] == s
    ensures forall k :: k in wh ==> wh[k] < |h|
  {
    hide Slot;
    assert Placed(h, chains, wh, s);
  }

  /** A table without free slots holds a key in every slot but the first. */
  lemma {:induction false} FullHolds<V>(h: seq<Entry<V>>, chains: seq<seq<nat>>, wh: map<int, nat>, n: nat)
    requires Inv(h, chains, wh, 1) && n < |h|
    ensures |KeysTo(h, n)| == n && KeysTo(h, n) <= wh.Keys
  {
    hide Inv;
    if n > 0 {
      FullHolds(h, chains, wh, n - 1);
      FullSlot(h, chains, wh, n);
      forall s | 1 <= s <= n - 1 ensures h[s].key != h[n].key {
        FullSlot(h, chains, wh, s);
      }
      if h[n].key in KeysTo(h, n - 1) {
        InKeysTo(h, n - 1, h[n].key);
      }
    }
  }

  // ----- payloads -----

  /** Writing a payload changes that payload alone. */
  lemma {:induction false} WritesPayload<V>(h: seq<Entry<V>>, chains: seq<seq<nat>>, wh: map<int, nat>, lastfree: nat,
                                            s: nat, v: V)
    requires Inv(h, chains, wh, lastfree) && s < |h|
    ensures var h' := h[s := h[s].(val := v)];
      && Inv(h', chains, wh, lastfree)
      && Content(h', wh) == if s == 0 || h[s].key == 0 then Content(h, wh) else Content(h, wh)[h[s].key := v]
  {
    hide Slot;
    var h' := h[s := h[s].(val := v)];
    forall m | 0 <= m < |h| ensures ChainOk(h', chains[m], m) {
      ChainKept(h, h', chains[m], m);
    }
    forall t | 1 <= t < |h| ensures Placed(h', chains, wh, t) {
      assert Placed(h, chains, wh, t);
    }
    if s > 0 {
      assert Placed(h, chains, wh, s);
    }
    var m, m' := Content(h, wh), Content(h', wh);
    assert forall k :: k in wh ==> h[wh[k]].key == k && (wh[k] == s <==> s > 0 && h[s].key == k);
    assert m'.Keys == m.Keys == wh.Keys;
    if s == 0 || h[s].key == 0 {
      forall k | k in m ensures m'[k] == m[k] {
      }
    } else {
      forall k | k in m ensures m'[k] == m[h[s].key := v][k] {
      }
    }
  }

  /** A new table: every slot free. */
  lemma {:induction false} EmptyInv<V>(h: seq<Entry<V>>, chains: seq<seq<nat>>)
    requires |h| >= 2 && |chains| == |h| && (forall s :: 0 <= s < |h| ==> Free(h[s])) &&
             (forall m :: 0 <= m < |h| ==> chains[m] == [])
    ensures Inv(h, chains, map[], |h|)
  {
  }

  // ----- looking up a key -----

  /** A key lies in the chain its main position starts, or is not in the table. */
  lemma {:induction false} ChainOfKey<V>(h: seq<Entry<V>>, chains: seq<seq<nat>>, wh: map<int, nat>, lastfree: nat,
                                         key: int)
    requires Inv(h, chains, wh, lastfree) && key in wh
    ensures var m := Slot(key, |h|);
      && h[m].key != 0 && Slot(h[m].key, |h|) == m && wh[key] in chains[m] && chains[m][0] == m
  {
    hide Slot;
    assert Placed(h, chains, wh, wh[key]);
    HeadIsMain(h, chains, wh, lastfree, Slot(key, |h|));
  }

  /** The index of a slot in its chain. */
  ghost function IndexIn(c: seq<nat>, s: nat): (i: nat)
    requires s in c
    ensures i < |c| && c[i] == s && (c[0] == s ==> i == 0)
  {
    if c[0] == s then 0 else 1 + IndexIn(c[1..], s)
  }

  /** Offsets lead from each slot of a chain to the next, and end it. */
  lemma {:induction false} Following<V>(h: seq<Entry<V>>, c: seq<nat>, m: nat, i: nat)
    requires ChainOk(h, c, m) && i < |c|
    ensures Linked(h, c, m, i) && (h[c[i]].next == 0 <==> i + 1 == |c|)
    ensures i + 1 < |c| ==> c[i] + h[c[i]].next == c[i + 1] && Linked(h, c, m, i + 1)
  {
    hide Slot;
    assert Linked(h, c, m, i);
    if i + 1 < |c| {
      assert c[i] != c[i + 1] && Linked(h, c, m, i + 1);
    }
  }

  /** A walk from the main position of a key to the end of the chain meets the key, if it is in the table. */
  lemma {:induction false} Met<V>(h: seq<Entry<V>>, chains: seq<seq<nat>>, wh: map<int, nat>, lastfree: nat, key: int,
                                  m: nat, i: nat)
    requires Inv(h, chains, wh, lastfree) && key in wh && m < |h| && h[Slot(key, |h|)].key != 0
    requires m == Slot(h[Slot(key, |h|)].key, |h|) && i < |chains[m]| && chains[m][i] == Slot(key, |h|)
    ensures exists j :: i <= j < |chains[m]| && chains[m][j] < |h| && h[chains[m][j]].key == key
  {
    hide Slot;
    ChainOfKey(h, chains, wh, lastfree, key);
    SameIndex(chains[m], 0, i);
    var j := IndexIn(chains[m], wh[key]);
    assert h[chains[m][j]].key == key;
  }

  lemma {:induction false} SameIndex(c: seq<nat>, i: nat, j: nat)
    requires Distinct(c) && i < |c| && j < |c| && c[i] == c[j]
    ensures i == j
  {
  }

  /** A key that such a walk does not meet is not in the table. */
  lemma {:induction false} NotMet<V>(h: seq<Entry<V>>, chains: seq<seq<nat>>, wh: map<int, nat>, lastfree: nat,
                                     key: int, m: nat, i: nat)
    requires Inv(h, chains, wh, lastfree) && key != 0 && m < |h| && h[Slot(key, |h|)].key != 0
    requires m == Slot(h[Slot(key, |h|)].key, |h|) && i < |chains[m]| && chains[m][i] == Slot(key, |h|)
    requires forall j :: i <= j < |chains[m]| ==> chains[m][j] < |h| && h[chains[m][j]].key != key
    ensures key !in wh
  {
    hide Slot;
    if key in wh {
      Met(h, chains, wh, lastfree, key, m, i);
    }
  }

  lemma {:induction false} MainIsFree<V>(h: seq<Entry<V>>, chains: seq<seq<nat>>, wh: map<int, nat>, lastfree: nat,
                                         key: int)
    requires Inv(h, chains, wh, lastfree) && key != 0 && h[Slot(key, |h|)].key == 0
    ensures key !in wh
  {
    hide Slot;
    if key in wh {
      ChainOfKey(h, chains, wh, lastfree, key);
    }
  }

  // ----- growing -----

  ghost predicate SubMap<V>(a: map<int, V>, b: map<int, V>) {
    forall k :: k in a ==> k in b && a[k] == b[k]
  }

  lemma {:induction false} UpdateTwice<V>(m: map<int, V>, k: int, a: V, b: V)
    ensures m[k := a][k := b] == m[k := b]
  {
    var twice, once := m[k := a][k := b], m[k := b];
    assert twice.Keys == once.Keys;
    assert forall j :: j in once.Keys ==> twice[j] == once[j];
  }

  lemma {:induction false} SubMapEmpty<V>(b: map<int, V>)
    ensures SubMap(map[], b)
  {
  }

  lemma {:induction false} SubMapAdds<V>(a: map<int, V>, b: map<int, V>, k: int)
    requires SubMap(a, b) && k in b
    ensures SubMap(a[k := b[k]], b)
  {
  }

  lemma {:induction false} SameMap<V>(a: map<int, V>, b: map<int, V>)
    requires SubMap(a, b) && a.Keys == b.Keys
    ensures a == b
  {
    assert forall k :: k in a.Keys ==> a[k] == b[k];
  }

  lemma {:induction false} DoubledOrder(a: nat, b: nat)
    requires Doubled(a) && Doubled(b) && a < b
    ensures 2 * a <= b
  {
    if a > 8 {
      DoubledOrder(a / 2, b / 2);
    }
  }

  /** The key of a slot is among the keys up to it, and all keys are among those of all slots. */
  lemma {:induction false} SlotInKeysTo<V>(h: seq<Entry<V>>, n: nat, s: nat)
    requires 1 <= s <= n < |h|
    ensures h[s].key in KeysTo(h, n)
  {
    if s < n {
      SlotInKeysTo(h, n - 1, s);
    }
  }

  lemma {:induction false} AllKeys<V>(h: seq<Entry<V>>, chains: seq<seq<nat>>, wh: map<int, nat>)
    requires Inv(h, chains, wh, 1)
    ensures KeysTo(h, |h| - 1) == wh.Keys && |wh| == |h| - 1
  {
    hide Slot;
    FullHolds(h, chains, wh, |h| - 1);
    forall k | k in wh ensures k in KeysTo(h, |h| - 1) {
      SlotInKeysTo(h, |h| - 1, wh[k]);
    }
    assert |wh.Keys| == |wh|;
  }

  /** The key of the next slot has not been met. */
  lemma {:induction false} NextIsNew<V>(h: seq<Entry<V>>, chains: seq<seq<nat>>, wh: map<int, nat>, i: nat)
    requires Inv(h, chains, wh, 1) && 1 <= i < |h|
    ensures h[i].key != 0 && h[i].key in wh && wh[h[i].key] == i && h[i].key !in KeysTo(h, i - 1)
    ensures KeysTo(h, i) == KeysTo(h, i - 1) + {h[i].key} && |KeysTo(h, i - 1)| == i - 1
    ensures h[i].key in Content(h, wh) && Content(h, wh)[h[i].key] == h[i].val
  {
    hide Inv;
    FullSlot(h, chains, wh, i);
    FullHolds(h, chains, wh, i - 1);
    forall s | 1 <= s <= i - 1 ensures h[s].key != h[i].key {
      FullSlot(h, chains, wh, s);
    }
    if h[i].key in KeysTo(h, i - 1) {
      InKeysTo(h, i - 1, h[i].key);
    }
  }

  /** Slot 0 holds key 0. */
  lemma {:induction false} FirstSlot<V>(h: seq<Entry<V>>, chains: seq<seq<nat>>, wh: map<int, nat>, lastfree: nat)
    requires Inv(h, chains, wh, lastfree) && |h| > 0
    ensures h[0].key == 0 && KeysBefore(h, 0) == KeysBefore(h, 1) == {}
  {
  }

  /** The key of the next slot is new, and joins those before it. */
  lemma {:induction false} NextKey<V>(h: seq<Entry<V>>, chains: seq<seq<nat>>, wh: map<int, nat>, i: nat)
    requires Inv(h, chains, wh, 1) && 1 <= i < |h|
    ensures h[i].key != 0 && h[i].key !in KeysBefore(h, i)
    ensures KeysBefore(h, i + 1) == KeysBefore(h, i) + {h[i].key} && |KeysBefore(h, i + 1)| == i
    ensures h[i].key in Content(h, wh) && Content(h, wh)[h[i].key] == h[i].val
  {
    NextIsNew(h, chains, wh, i);
    hide Inv, KeysTo, Content;
  }

  /** The keys of the first `i` slots. */
  function KeysBefore<V>(h: seq<Entry<V>>, i: nat): set<int>
    requires i <= |h|
  {
    if i == 0 then {} else KeysTo(h, i - 1)
  }

  /** A map that has all keys of a full table, with their payloads, is what the table holds. */
  lemma {:induction false} AllCopied<V>(h: seq<Entry<V>>, chains: seq<seq<nat>>, wh: map<int, nat>, held: map<int, V>)
    requires if |h| == 0 then wh == map[] else Inv(h, chains, wh, 1)
    requires held.Keys == KeysBefore(h, |h|) && SubMap(held, Content(h, wh))
    ensures held == Content(h, wh) && held.Keys == wh.Keys && (|h| > 0 ==> |wh| == |h| - 1)
  {
    hide Slot;
    if |h| > 0 {
      AllKeys(h, chains, wh);
    }
    assert Content(h, wh).Keys == wh.Keys;
    SameMap(held, Content(h, wh));
  }
}
