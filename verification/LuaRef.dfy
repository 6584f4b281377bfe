/** luaL_ref and luaL_unref: references allocated from a table, with the free list threaded through its slots. */
module LuaRef {
  import opened Basics

  datatype LuaValue = Nil | Num(n: int) | Other(id: int)

  const FREELIST: int := 0
  const REFNIL: int := -1

  /** The integer keys of a table; a key that is not there holds nil. */
  type Slots = map<int, LuaValue>

  function RawGet(t: Slots, k: int): LuaValue {
    if k in t then t[k] else Nil
  }

  function RawSet(t: Slots, k: int, v: LuaValue): (t': Slots)
    ensures forall i :: RawGet(t', i) == if i == k then v else RawGet(t, i)
  {
    t[k := v]
  }

  /** `lua_tointeger`: 0 for anything that is not an integer. */
  function ToInteger(v: LuaValue): int {
    if v.Num? then v.n else 0
  }

  /** What `lua_rawlen` may return: a border of the table. */
  predicate Border(t: Slots, n: nat) {
    (n == 0 || RawGet(t, n) != Nil) && RawGet(t, n + 1) == Nil
  }

  /** The free slots `free`, each holding the next, 0 or nothing at the end. */
  ghost predicate Threaded(t: Slots, head: LuaValue, free: seq<int>)
    decreases |free|
  {
    && !head.Other?
    && ToInteger(head) == (if |free| == 0 then 0 else free[0])
    && (|free| > 0 ==> Threaded(t, RawGet(t, free[0]), free[1..]))
  }

  /** The slots from 1 to `n` are live or free, and the live ones hold their values. */
  ghost predicate Inv(t: Slots, free: seq<int>, live: map<int, LuaValue>, n: nat) {
    && Threaded(t, RawGet(t, FREELIST), free) && Distinct(free)
    && (forall k :: k in free ==> 1 <= k <= n && k !in live)
    && (forall k :: k in live ==> 1 <= k <= n && live[k] != Nil && RawGet(t, k) == live[k])
    && (forall k :: 1 <= k <= n ==> k in live || k in free)
    && (forall k :: k > n ==> RawGet(t, k) == Nil)
  }

  /** With an empty free list the table has no holes: its only border is `n`. */
  lemma {:induction false} NoHoles(t: Slots, live: map<int, LuaValue>, n: nat, b: nat)
    requires Inv(t, [], live, n)
    ensures Border(t, b) <==> b == n
  {
    assert forall k :: 1 <= k <= n ==> k in live;
    if b < n {
      assert b + 1 in live;
    }
  }

  lemma {:induction false} ThreadedKept(t: Slots, t': Slots, head: LuaValue, free: seq<int>)
    requires Threaded(t, head, free) && forall k :: k in free ==> RawGet(t', k) == RawGet(t, k)
    ensures Threaded(t', head, free)
    decreases |free|
  {
    if free != [] {
      assert free[0] in free;
      ThreadedKept(t, t', RawGet(t, free[0]), free[1..]);
    }
  }

  /** The table after the first free slot has been taken for `v`. */
  function Taken(t: Slots, ref: int, v: LuaValue): Slots {
    RawSet(RawSet(t, FREELIST, RawGet(t, ref)), ref, v)
  }

  lemma {:induction false} TakesFree(t: Slots, free: seq<int>, live: map<int, LuaValue>, n: nat, v: LuaValue)
    requires Inv(t, free, live, n) && |free| > 0 && v != Nil
    ensures Inv(Taken(t, free[0], v), free[1..], live[free[0] := v], n)
  {
    var ref, rest := free[0], free[1..];
    assert ref in free;
    forall k | k in rest ensures k in free && k != ref {
      var i :| 0 <= i < |rest| && rest[i] == k;
      assert free[i + 1] == k && free[0] != free[i + 1];
    }
    ThreadedKept(t, Taken(t, ref, v), RawGet(t, ref), rest);
    forall k | 1 <= k <= n ensures k in live[ref := v] || k in rest {
      if k in free && k != ref {
        var i :| 0 <= i < |free| && free[i] == k;
        assert rest[i - 1] == k;
      }
    }
    assert Distinct(rest) by {
      forall i, j | 0 <= i < j < |rest| ensures rest[i] != rest[j] {
        assert free[i + 1] != free[j + 1];
      }
    }
  }

  lemma {:induction false} AddsSlot(t: Slots, live: map<int, LuaValue>, n: nat, v: LuaValue)
    requires Inv(t, [], live, n) && v != Nil
    ensures Inv(RawSet(t, n + 1, v), [], live[n + 1 := v], n + 1)
  {
  }

  /** The table after `ref` has been put at the head of the free list. */
  function Released(t: Slots, ref: int): Slots {
    RawSet(RawSet(t, ref, RawGet(t, FREELIST)), FREELIST, Num(ref))
  }

  lemma {:induction false} Releases(t: Slots, free: seq<int>, live: map<int, LuaValue>, n: nat, ref: int)
    requires Inv(t, free, live, n) && ref in live
    ensures Inv(Released(t, ref), [ref] + free, live - {ref}, n)
  {
    var t', f' := Released(t, ref), [ref] + free;
    ThreadedKept(t, t', RawGet(t, FREELIST), free);
    assert f'[1..] == free && RawGet(t', ref) == RawGet(t, FREELIST);
    forall k | 1 <= k <= n ensures k in live - {ref} || k in f' {
      if k in free {
        var i :| 0 <= i < |free| && free[i] == k;
        assert f'[i + 1] == k;
      } else if k == ref {
        assert f'[0] == k;
      }
    }
    assert Distinct(f') by {
      forall i, j | 0 <= i < j < |f'| ensures f'[i] != f'[j] {
        assert f'[j] == free[j - 1] && free[j - 1] in free;
        if i > 0 {
          assert f'[i] == free[i - 1] && free[i - 1] != free[j - 1];
        }
      }
    }
  }

  // ----- which references may be freed -----

  /** Freeing `ref` leaves a sound table: it is live, or the next one that would be added, or 0 while there is no
      free slot but perhaps the last one, which then holds nothing. */
  ghost predicate MayFree(t: Slots, free: seq<int>, live: map<int, LuaValue>, n: nat, ref: int) {
    || ref in live
    || ref == n + 1
    || (ref == FREELIST && (free == [] || (free == [n] && RawGet(t, n) == Nil)))
  }

  /** A table after `ref` has been freed is sound for the values still live. */
  ghost predicate Sound(t: Slots, free: seq<int>, live: map<int, LuaValue>, n: nat, ref: int) {
    Inv(Released(t, ref), free, live - {ref}, n)
  }

  lemma {:induction false} ThreadedOne(t: Slots, head: LuaValue, ref: int, free: seq<int>)
    requires head == Num(ref) && ref != 0 && Threaded(t, RawGet(t, ref), free)
    ensures Threaded(t, head, [ref] + free)
  {
    assert ([ref] + free)[1..] == free;
  }

  /** The slot behind the last one joins the free list. */
  lemma {:induction false} FreesNext(t: Slots, free: seq<int>, live: map<int, LuaValue>, n: nat)
    requires Inv(t, free, live, n)
    ensures Sound(t, [n + 1] + free, live, n + 1, n + 1)
  {
    var ref, t', f' := n + 1, Released(t, n + 1), [n + 1] + free;
    ThreadedKept(t, t', RawGet(t, FREELIST), free);
    ThreadedOne(t', Num(ref), ref, free);
    assert live - {ref} == live;
    DistinctOne(ref, free);
    forall k | 1 <= k <= n + 1 ensures k in live || k in f' {
      if k == ref {
        assert f'[0] == k;
      } else if k in free {
        var i :| 0 <= i < |free| && free[i] == k;
        assert f'[i + 1] == k;
      }
    }
  }

  lemma {:induction false} DistinctOne(x: int, s: seq<int>)
    requires Distinct(s) && x !in s
    ensures Distinct([x] + s)
  {
    var u := [x] + s;
    forall i, j | 0 <= i < j < |u| ensures u[i] != u[j] {
      assert u[j] == s[j - 1];
      if i > 0 {
        assert u[i] == s[i - 1];
      }
    }
  }

  /** Freeing 0 forgets the free list, which matters unless it is empty or holds one slot of nothing at the end. */
  lemma {:induction false} FreesHead(t: Slots, free: seq<int>, live: map<int, LuaValue>, n: nat)
    requires Inv(t, free, live, n)
    ensures free == [] ==> Sound(t, [], live, n, FREELIST)
    ensures free == [n] && RawGet(t, n) == Nil ==> n > 0 && Sound(t, [], live, n - 1, FREELIST)
  {
    assert live - {FREELIST} == live;
    if free == [n] {
      assert n in free;
      forall k | 1 <= k <= n - 1 ensures k in live {
        assert k in live || k in free;
      }
    }
  }

  lemma {:induction false} ChainEnds(t: Slots, head: LuaValue, free: seq<int>)
    requires Threaded(t, head, free) && 0 !in free
    ensures free == [] <==> ToInteger(head) == 0
  {
    if |free| > 0 {
      assert free[0] in free;
    }
  }

  lemma {:induction false} ChainGoesOn(t: Slots, head: LuaValue, free: seq<int>)
    requires Threaded(t, head, free) && 0 !in free && |free| > 1
    ensures free[0] in free && RawGet(t, free[0]) != Nil
  {
    assert free[1] in free;
    assert Threaded(t, RawGet(t, free[0]), free[1..]);
  }

  lemma {:induction false} FreeParts(t: Slots, free: seq<int>, live: map<int, LuaValue>, n: nat)
    requires Inv(t, free, live, n)
    ensures Threaded(t, RawGet(t, FREELIST), free) && Distinct(free) && 0 !in free
    ensures forall k :: k in free ==> 1 <= k <= n && k !in live
    ensures forall k :: k in live ==> 1 <= k <= n
    ensures forall k :: 1 <= k <= n ==> k in live || k in free
    ensures forall k :: k > n ==> RawGet(t, k) == Nil
  {
  }

  lemma {:induction false} SlotTaken(t: Slots, free: seq<int>, live: map<int, LuaValue>, n: nat, k: int)
    requires Inv(t, free, live, n) && 1 <= k <= n
    ensures k in live || k in free
  {
  }

  lemma {:induction false} RepeatsHead(free: seq<int>, ref: int)
    requires free != [] && free[0] == ref && ref in free[1..]
    ensures !Distinct(free)
  {
    var i :| 0 <= i < |free[1..]| && free[1..][i] == ref;
    assert free[0] == free[i + 1];
  }

  /** The chain through slots that did not change ends where it ended. */
  lemma {:induction false} SameChain(t: Slots, t': Slots, head: LuaValue, free: seq<int>, free': seq<int>)
    requires Threaded(t, head, free) && Threaded(t', head, free')
    requires 0 !in free && 0 !in free' && forall k :: k in free ==> RawGet(t', k) == RawGet(t, k)
    ensures free' == free
    decreases |free|
  {
    ChainEnds(t, head, free);
    ChainEnds(t', head, free');
    if free != [] {
      assert free[0] in free;
      SameChain(t, t', RawGet(t, free[0]), free[1..], free'[1..]);
      assert free == [free[0]] + free[1..] && free' == [free'[0]] + free'[1..];
    }
  }

  /** The chain reaches the first slot that did change. */
  lemma {:induction false} ReachesChanged(t: Slots, t': Slots, head: LuaValue, free: seq<int>, free': seq<int>,
                                        ref: int)
    requires Threaded(t, head, free) && Threaded(t', head, free') && ref in free && 0 !in free
    requires forall k :: k in free && k != ref ==> RawGet(t', k) == RawGet(t, k)
    ensures ref in free'
    decreases |free|
  {
    assert free[0] in free && free'[0] == free[0];
    if free[0] != ref {
      assert free == [free[0]] + free[1..];
      ReachesChanged(t, t', RawGet(t, free[0]), free[1..], free'[1..], ref);
      assert free' == [free'[0]] + free'[1..];
    }
  }

  lemma {:induction false} HeadOf(t: Slots, head: LuaValue, ref: int, free: seq<int>)
    requires head == Num(ref) && ref != 0 && Threaded(t, head, free)
    ensures free != [] && free[0] == ref && Threaded(t, RawGet(t, ref), free[1..]) && free == [ref] + free[1..]
  {
  }

  /** A slot already free, freed again, closes the free list to a ring. */
  lemma {:induction false} NotFreeAgain(t: Slots, free: seq<int>, live: map<int, LuaValue>, n: nat, ref: int,
                                        free': seq<int>, n': nat)
    requires Inv(t, free, live, n) && ref in free
    ensures !Sound(t, free', live, n', ref)
  {
    if Sound(t, free', live, n', ref) {
      hide Distinct, Inv;
      var t' := Released(t, ref);
      FreeParts(t, free, live, n);
      FreeParts(t', free', live - {ref}, n');
      HeadOf(t', Num(ref), ref, free');
      ReachesChanged(t, t', RawGet(t, FREELIST), free, free'[1..], ref);
      RepeatsHead(free', ref);
    }
  }

  lemma {:induction false} FreeBehind(t: Slots, free: seq<int>, live: map<int, LuaValue>, n: nat, ref: int,
                                      free': seq<int>, n': nat)
    requires Inv(t, free, live, n) && ref > n + 1 && Sound(t, free', live, n', ref)
    ensures free' == [ref] + free && ref <= n' && n + 1 !in free' && n + 1 !in live
  {
    var t' := Released(t, ref);
    FreeParts(t, free, live, n);
    FreeParts(t', free', live - {ref}, n');
    hide Inv, Sound;
    HeadOf(t', Num(ref), ref, free');
    var rest := free'[1..];
    assert forall k :: k in rest ==> k in free';
    SameChain(t, t', RawGet(t, FREELIST), free, rest);
  }

  /** A slot further behind leaves a gap in front of it. */
  lemma {:induction false} NotBehind(t: Slots, free: seq<int>, live: map<int, LuaValue>, n: nat, ref: int,
                                     free': seq<int>, n': nat)
    requires Inv(t, free, live, n) && ref > n + 1
    ensures !Sound(t, free', live, n', ref)
  {
    if Sound(t, free', live, n', ref) {
      hide Inv;
      var t', rest := Released(t, ref), free'[1..];
      FreeBehind(t, free, live, n, ref, free', n');
      SlotTaken(t', free', live - {ref}, n', n + 1);
    }
  }

  lemma {:induction false} NotHead(t: Slots, free: seq<int>, live: map<int, LuaValue>, n: nat, free': seq<int>, n': nat)
    requires Inv(t, free, live, n) && Sound(t, free', live, n', FREELIST)
    ensures free == [] || (free == [n] && RawGet(t, n) == Nil)
  {
    assert live - {FREELIST} == live;
    hide Inv, Threaded;
    var t' := Released(t, FREELIST);
    FreeParts(t, free, live, n);
    FreeParts(t', free', live - {FREELIST}, n');
    ChainEnds(t', Num(FREELIST), free');
    forall k | k in free ensures k > n' && RawGet(t, k) == Nil {
      assert k !in live;
    }
    if |free| > 1 {
      ChainGoesOn(t, RawGet(t, FREELIST), free);
    } else if |free| == 1 {
      assert free[0] in free;
      assert n in live || n in free;
      assert free == [free[0]];
    }
  }

  /** Exactly these references may be freed. */
  lemma {:induction false} UnrefSound(t: Slots, free: seq<int>, live: map<int, LuaValue>, n: nat, ref: int)
    requires Inv(t, free, live, n) && ref >= 0
    ensures (exists free', n': nat :: Sound(t, free', live, n', ref)) <==> MayFree(t, free, live, n, ref)
  {
    hide Inv, Threaded;
    if ref in live {
      Releases(t, free, live, n, ref);
      assert Sound(t, [ref] + free, live, n, ref);
    } else if ref == n + 1 {
      FreesNext(t, free, live, n);
    } else if ref == FREELIST {
      FreesHead(t, free, live, n);
      if free', n': nat :| Sound(t, free', live, n', ref) {
        NotHead(t, free, live, n, free', n');
      }
    } else {
      forall free', n': nat ensures !Sound(t, free', live, n', ref) {
        NotFreed(t, free, live, n, ref, free', n');
      }
      NotAdded(t, free, live, n, ref);
    }
  }

  lemma {:induction false} NotAdded(t: Slots, free: seq<int>, live: map<int, LuaValue>, n: nat, ref: int)
    requires ref !in live && ref > 0 && ref != n + 1
    ensures !MayFree(t, free, live, n, ref)
  {
  }

  lemma {:induction false} NotFreed(t: Slots, free: seq<int>, live: map<int, LuaValue>, n: nat, ref: int,
                                    free': seq<int>, n': nat)
    requires Inv(t, free, live, n) && ref > 0 && ref !in live && ref != n + 1
    ensures !Sound(t, free', live, n', ref)
  {
    if ref <= n {
      NotFreeAgain(t, free, live, n, ref, free', n');
    } else {
      NotBehind(t, free, live, n, ref, free', n');
    }
  }

  // ----- any table has a border -----

  /** The length operator has something to return. */
  lemma {:induction false} SomeBorder(t: Slots, n: nat, keys: set<int>) returns (b: nat)
    requires (n == 0 || RawGet(t, n) != Nil) && forall k :: k in t && k > n ==> k in keys
    ensures Border(t, b)
    decreases |keys|
  {
    b := n;
    if RawGet(t, n + 1) != Nil {
      b := SomeBorder(t, n + 1, keys - {n + 1});
    }
  }

  function At(values: seq<LuaValue>, k: int): LuaValue {
    if 1 <= k <= |values| then values[k - 1] else Nil
  }

  lemma {:induction false} HeadTells(t: Slots, free: seq<int>, live: map<int, LuaValue>, n: nat)
    requires Inv(t, free, live, n)
    ensures ToInteger(RawGet(t, FREELIST)) != 0 <==> |free| > 0
    ensures |free| > 0 ==> free[0] == ToInteger(RawGet(t, FREELIST)) && 1 <= free[0] <= n && free[0] !in live
  {
    if |free| > 0 {
      assert free[0] in free;
    }
  }

  class Registry {
    var t: Slots
    ghost var free: seq<int>
    ghost var live: map<int, LuaValue>
    ghost var n: nat

    ghost predicate Valid()
      reads this
    {
      Inv(t, free, live, n)
    }

    /** A table without holes and without a free list; what it holds is live. */
    constructor (values: seq<LuaValue>)
      requires Nil !in values
      ensures Valid() && n == |values|
      ensures forall k :: k in live <==> 1 <= k <= |values|
      ensures forall i :: 0 <= i < |values| ==> live[i + 1] == values[i]
    {
      t := map k | 1 <= k <= |values| :: At(values, k);
      free, n := [], |values|;
      live := map k | 1 <= k <= |values| :: At(values, k);
    }

    /** `luaL_ref`: the head of the free list, or one more than some border of the table. In a sound table the reference
        was not live, and all live references keep their values. */
    method Ref(v: LuaValue) returns (ref: int)
      modifies this
      ensures v == Nil ==> ref == REFNIL && t == old(t)
      ensures var head := ToInteger(RawGet(old(t), FREELIST));
        v != Nil ==>
          if head != 0 then ref == head && t == Taken(old(t), ref, v)
          else ref > 0 && Border(old(t), ref - 1) && t == RawSet(old(t), ref, v)
      ensures old(Valid()) ==>
        && Valid()
        && (v == Nil ==> live == old(live))
        && (v != Nil ==> ref > 0 && ref !in old(live) && live == old(live)[ref := v] && RawGet(t, ref) == v)
        && (forall k :: k in old(live) ==> RawGet(t, k) == RawGet(old(t), k))
    {
      hide Threaded, Distinct, Border;
      if v == Nil {
        return REFNIL;
      }
      ref := ToInteger(RawGet(t, FREELIST));
      ghost var sound := Valid();
      if sound {
        HeadTells(t, free, live, n);
      }
      if ref != 0 {
        if sound {
          TakesFree(t, free, live, n, v);
          free, live := free[1..], live[ref := v];
        }
        var next := RawGet(t, ref);
        t := RawSet(t, FREELIST, next);
      } else {
        ghost var some := SomeBorder(t, 0, t.Keys);
        var length: nat :| Border(t, length);
        ref := length + 1;
        if sound {
          assert free == [];
          NoHoles(t, live, n, length);
          AddsSlot(t, live, n, v);
          n, live := n + 1, live[ref := v];
        }
      }
      t := RawSet(t, ref, v);
    }

    /** `luaL_unref`: a negative reference changes nothing; any other is linked into the free list, which nothing
        checks. */
    method Unref(ref: int)
      requires Valid()
      modifies this
      ensures t == if ref >= 0 then Released(old(t), ref) else old(t)
      ensures ref < 0 ==> Valid() && live == old(live)
      ensures MayFree(old(t), old(free), old(live), old(n), ref) ==> Valid() && live == old(live) - {ref}
      ensures forall k :: k in old(live) && k != ref ==> RawGet(t, k) == RawGet(old(t), k)
    {
      hide Threaded, Distinct;
      if ref >= 0 {
        if ref in live {
          Releases(t, free, live, n, ref);
          free, live := [ref] + free, live - {ref};
        } else if ref == n + 1 {
          FreesNext(t, free, live, n);
          free, live, n := [ref] + free, live - {ref}, n + 1;
        } else if ref == FREELIST {
          FreesHead(t, free, live, n);
          if MayFree(t, free, live, n, ref) {
            n, free, live := if free == [] then n else n - 1, [], live - {ref};
          }
        }
        t := RawSet(t, ref, RawGet(t, FREELIST));
        t := RawSet(t, FREELIST, Num(ref));
      }
    }

    /** A live reference freed twice is handed out twice. */
    method FreeTwice(ref: int, v: LuaValue, w: LuaValue) returns (first: int, second: int)
      requires Valid() && ref in live && v != Nil && w != Nil
      modifies this
      ensures first == second == ref && RawGet(t, ref) == w
    {
      Unref(ref);
      assert Valid() && ref !in live;
      Unref(ref);
      first := Ref(v);
      second := Ref(w);
    }
  }
}
