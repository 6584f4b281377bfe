/** pb_Table as an object: its slots are written in place, and colliding entries are relocated. */
module PbTable {
  import opened PbTableSpec

  const MIN_SIZE: nat := 8

  class Table<V> {
    /** The payload of a new entry. */
    const zero: V
    /** The number of slots no table may exceed. */
    const limit: nat
    var hash: array<Entry<V>>
    var lastfree: nat
    var hasZero: bool
    ghost var chains: seq<seq<nat>>
    ghost var wh: map<int, nat>

    /** `pb_inittable`. */
    constructor (z: V, most: nat)
      ensures Valid() && fresh(hash) && zero == z && limit == most
      ensures hash.Length == 0 && Held() == map[] && !hasZero
    {
      zero, limit := z, most;
      hash := new Entry<V>[0];
      lastfree, hasZero := 0, false;
      chains, wh := [], map[];
    }

    /** The new table of `pb_resizetable`: `n` free slots. */
    constructor Sized(z: V, most: nat, n: nat, has: bool)
      requires Doubled(n)
      ensures Valid() && fresh(hash) && zero == z && limit == most
      ensures hash.Length == n && wh == map[] && hasZero == has && lastfree == n && ZeroPayload() == z &&
              Held() == map[]
    {
      zero, limit := z, most;
      hash := new Entry<V>[n](_ => Entry(0, 0, z));
      lastfree, hasZero := n, has;
      chains, wh := seq(n, _ => []), map[];
      new;
      EmptyInv(hash[..], chains);
    }

    ghost predicate Valid()
      reads this, hash
    {
      if hash.Length == 0 then wh == map[] && !hasZero
      else Doubled(hash.Length) && hash.Length >= 8 && Inv(hash[..], chains, wh, lastfree)
    }

    /** The payloads of the keys other than 0. */
    ghost function Held(): map<int, V>
      requires Valid()
      reads this, hash
    {
      Content(hash[..], wh)
    }

    /** The payload of key 0. */
    ghost function ZeroPayload(): V
      reads this, hash
    {
      if hash.Length == 0 then zero else hash[0].val
    }

    ghost predicate HasRoom(key: int)
      reads this, hash
    {
      hash.Length > 0 && (key == 0 || |wh| < hash.Length - 1)
    }

    /** `pb_gettable`: the slot of the key, or -1. */
    method Get(key: int) returns (r: int)
      requires Valid()
      ensures key == 0 ==> r == if hasZero then 0 else -1
      ensures key != 0 ==> r == if key in wh then wh[key] else -1
      ensures r >= 0 ==> r < hash.Length && hash[r].key == key
      ensures key != 0 ==> (r >= 0 <==> key in Held()) && (r >= 0 ==> hash[r].val == Held()[key])
    {
      if hash.Length == 0 {
        return -1;
      }
      if key == 0 {
        return if hasZero then 0 else -1;
      }
      var e := Slot(key, hash.Length);
      ghost var h := hash[..];
      assert Placed(h, chains, wh, e);
      if hash[e].key == 0 {
        MainIsFree(h, chains, wh, lastfree, key);
        return -1;
      }
      ghost var m, main := Slot(h[e].key, |h|), e;
      ghost var first := IndexIn(chains[m], e);
      ghost var i := first;
      while hash[e].key != key
        invariant h == hash[..] && 1 <= e < |h| && first <= i < |chains[m]| && chains[m][i] == e
        invariant forall j :: first <= j < i ==> chains[m][j] < |h| && h[chains[m][j]].key != key
        decreases |chains[m]| - i
      {
        Following(h, chains[m], m, i);
        if hash[e].next == 0 {
          NotMet(h, chains, wh, lastfree, key, m, first);
          return -1;
        }
        e, i := e + hash[e].next, i + 1;
      }
      assert Placed(h, chains, wh, e);
      return e;
    }

    /** A free slot, searched downwards from where the last search ended; 0 if there is none. The slot found is about to
        be taken. */
    method FindFree() returns (f: nat)
      requires Valid() && hash.Length > 0
      modifies this`lastfree
      ensures f < hash.Length && lastfree >= 1
      ensures f != 0 ==> Free(hash[f]) && f == lastfree && Inv(hash[..], chains, wh, f + 1)
      ensures f == 0 ==> lastfree == 1 && Valid()
    {
      while lastfree > 1
        invariant Valid()
        decreases lastfree
      {
        lastfree := lastfree - 1;
        assert Placed(hash[..], chains, wh, lastfree);
        if hash[lastfree].key == 0 && hash[lastfree].next == 0 {
          return lastfree;
        }
      }
      return 0;
    }

    /** The slot before `mp` in the chain of its entry, found by walking that chain from its main position. */
    method Predecessor(mp: nat) returns (on: nat, ghost j: nat)
      requires hash.Length >= 2 && lastfree + 1 <= hash.Length && Inv(hash[..], chains, wh, lastfree + 1)
      requires 1 <= mp < hash.Length && hash[mp].key != 0 && Slot(hash[mp].key, hash.Length) != mp
      ensures var c := chains[Slot(hash[mp].key, hash.Length)]; 0 < j < |c| && c[j] == mp && c[j - 1] == on
      ensures 1 <= on < hash.Length && on != mp && hash[on].key != 0
    {
      hide Slot;
      ghost var h := hash[..];
      on := Slot(hash[mp].key, hash.Length);
      ghost var m := on;
      assert Placed(h, chains, wh, mp);
      ghost var c := chains[m];
      j := IndexIn(c, mp);
      ghost var i := 0;
      Following(h, c, m, 0);
      while on + hash[on].next != mp
        invariant h == hash[..] && 0 <= i < j < |c| && c[i] == on && c[j] == mp && 1 <= on < |h|
        invariant on + h[on].next == c[i + 1]
        decreases j - i
      {
        Following(h, c, m, i + 1);
        on, i := on + hash[on].next, i + 1;
        assert c[i] != c[j];
      }
      SameIndex(c, i + 1, j);
      Following(h, c, m, i);
    }

    /** The colliding entry of main position `mp` moves to the free slot `lastfree`, and the key takes its place. */
    method MoveAway(mp: nat, key: int)
      requires hash.Length >= 2 && 1 <= lastfree < hash.Length && Inv(hash[..], chains, wh, lastfree + 1)
      requires key != 0 && key !in wh && Free(hash[lastfree])
      requires mp == Slot(key, hash.Length) && hash[mp].key != 0 && Slot(hash[mp].key, hash.Length) != mp
      modifies hash, `chains, `wh
      ensures Inv(hash[..], chains, wh, lastfree + 1) && hash[lastfree].key != 0 && hash[0] == old(hash[0])
      ensures key in wh && wh[key] == mp && wh.Keys == old(wh.Keys) + {key}
      ensures Content(hash[..], wh) == old(Content(hash[..], wh))[key := zero]
    {
      hide Slot;
      ghost var h, f := hash[..], lastfree;
      var on;
      ghost var j;
      on, j := Predecessor(mp);
      RelocateOk(h, chains, wh, f + 1, f, j, key, zero);
      ghost var m := Slot(h[mp].key, |h|);
      ghost var ch: seq<seq<nat>> := chains[m := Moved(chains[m], j, f)][mp := [mp]];
      ghost var w: map<int, nat> := wh[h[mp].key := f][key := mp];
      WriteMoved(mp, on, key);
      assert w.Keys == wh.Keys + {key} by {
        assert Placed(h, chains, wh, mp);
      }
      chains, wh := ch, w;
    }

    /** The writes of a relocation. */
    method WriteMoved(mp: nat, on: nat, key: int)
      requires mp < hash.Length && on < hash.Length && 1 <= lastfree < hash.Length && Free(hash[lastfree])
      requires on != mp && on != lastfree && mp != lastfree
      modifies hash
      ensures hash[..] == Relocate(old(hash[..]), mp, on, lastfree, key, zero)
    {
      hash[on] := hash[on].(next := lastfree - on);
      hash[lastfree] := hash[mp];
      if hash[mp].next != 0 {
        hash[lastfree] := hash[lastfree].(next := hash[lastfree].next + mp - lastfree);
        hash[mp] := hash[mp].(next := 0);
      }
      hash[mp] := Entry(hash[mp].next, key, zero);
    }

    /** The entry of main position `mp` belongs there: the key goes to the free slot `lastfree`, second in the chain. */
    method AddSecond(mp: nat, key: int)
      requires hash.Length >= 2 && 1 <= lastfree < hash.Length && Inv(hash[..], chains, wh, lastfree + 1)
      requires key != 0 && key !in wh && Free(hash[lastfree])
      requires mp == Slot(key, hash.Length) && hash[mp].key != 0 && Slot(hash[mp].key, hash.Length) == mp
      modifies hash, `chains, `wh
      ensures Inv(hash[..], chains, wh, lastfree + 1) && hash[lastfree].key != 0 && hash[0] == old(hash[0])
      ensures key in wh && wh[key] == lastfree && wh.Keys == old(wh.Keys) + {key}
      ensures Content(hash[..], wh) == old(Content(hash[..], wh))[key := zero]
    {
      hide Slot, Content;
      ghost var h, f := hash[..], lastfree;
      PutSecondOk(h, chains, wh, f + 1, f, key, zero);
      if hash[mp].next != 0 {
        hash[lastfree] := hash[lastfree].(next := mp - lastfree + hash[mp].next);
      }
      hash[mp] := hash[mp].(next := lastfree - mp);
      hash[lastfree] := Entry(hash[lastfree].next, key, zero);
      assert hash[..] == PutSecond(h, mp, f, key, zero);
      chains, wh := chains[mp := [mp, f] + chains[mp][1..]], wh[key := f];
    }

    /** The key goes to its main position, or to a free slot; -1 if there is none. */
    method Place(key: int) returns (slot: int)
      requires Valid() && hash.Length > 0 && key != 0 && key !in wh
      modifies this`lastfree, this`chains, this`wh, hash
      ensures Valid() && hash[0] == old(hash[0])
      ensures slot >= 0 ==> key in wh && slot == wh[key] && Held() == old(Held())[key := zero]
      ensures slot >= 0 ==> wh.Keys == old(wh.Keys) + {key}
      ensures slot < 0 ==> lastfree == 1 && wh == old(wh) && hash[..] == old(hash[..])
    {
      hide Slot, Content;
      var mp := Slot(key, hash.Length);
      if hash[mp].key == 0 {
        PutAtMainOk(hash[..], chains, wh, lastfree, key, zero);
        ghost var h := hash[..];
        hash[mp] := Entry(hash[mp].next, key, zero);
        assert hash[..] == PutAtMain(h, mp, key, zero);
        chains, wh := chains[mp := [mp]], wh[key := mp];
        return mp;
      }
      var f := FindFree();
      if f == 0 {
        return -1;
      }
      if Slot(hash[mp].key, hash.Length) != mp {
        MoveAway(mp, key);
        slot := mp;
      } else {
        AddSecond(mp, key);
        slot := f;
      }
    }

    /** `pbT_newkey`: the slot of the new key, or -1 if the table may not grow any more. */
    method NewKey(key: int) returns (slot: int)
      requires Valid() && (key != 0 ==> key !in wh)
      modifies this, hash
      ensures Valid() && (hash == old(hash) || fresh(hash))
      ensures slot >= 0 ==> slot < hash.Length && hash[slot].key == key && hash[slot].val == zero
      ensures slot >= 0 && key != 0 ==> key in wh && slot == wh[key] && Held() == old(Held())[key := zero]
      ensures slot >= 0 ==> wh.Keys == if key == 0 then old(wh.Keys) else old(wh.Keys) + {key}
      ensures slot >= 0 && key == 0 ==> slot == 0 && hasZero && Held() == old(Held())
      ensures key != 0 || slot < 0 ==> ZeroPayload() == old(ZeroPayload()) && (old(hasZero) ==> hasZero)
      ensures slot < 0 ==> Held() == old(Held())
      ensures slot < 0 ==> key != 0 && hash == old(hash) && 0 < hash.Length
      ensures slot < 0 ==> hash.Length >= limit && |wh| == hash.Length - 1
      ensures old(HasRoom(key)) ==> slot >= 0 && hash == old(hash) && (key != 0 ==> hasZero == old(hasZero))
      decreases if HasRoom(key) then 0 else 5
    {
      if hash.Length == 0 {
        var ok := Grow();
        if !ok {
          return -1;
        }
      }
      if key == 0 {
        hasZero := true;
        WritesPayload(hash[..], chains, wh, lastfree, 0, zero);
        ghost var h := hash[..];
        hash[0] := hash[0].(val := zero);
        assert hash[..] == h[0 := h[0].(val := zero)];
        return 0;
      }
      slot := Place(key);
      assert slot >= 0 ==> Held()[key] == hash[slot].val;
      if slot < 0 {
        AllKeys(hash[..], chains, wh);
        var ok := Grow();
        if ok {
          slot := NewKey(key);
        }
      }
    }

    /** `pb_resizetable` to twice the size, when no slot is free. */
    method Grow() returns (ok: bool)
      requires Valid() && (hash.Length > 0 ==> lastfree == 1)
      modifies this
      ensures Valid() && Held() == old(Held()) && wh.Keys == old(wh.Keys) && ZeroPayload() == old(ZeroPayload())
      ensures ok <==> old(hash.Length) == 0 || old(hash.Length) < limit
      ensures ok ==> fresh(hash) && hash.Length == (if old(hash.Length) == 0 then MIN_SIZE else 2 * old(hash.Length))
      ensures ok ==> |wh| < hash.Length - 1 && hasZero == (old(hash.Length) > 0)
      ensures !ok ==> hash == old(hash) && hasZero == old(hasZero)
      decreases 4
    {
      assert hash.Length > 0 ==> Doubled(hash.Length * 2);
      hide Inv, Content, Doubled;
      var newsize := NewSize(hash.Length * 2);
      if newsize < hash.Length * 2 {
        return false;
      }
      var nt := Rehashed(newsize);
      hash, lastfree, hasZero := nt.hash, nt.lastfree, nt.hasZero;
      chains, wh := nt.chains, nt.wh;
      return true;
    }

    /** The size `pb_resizetable` finds by doubling, which is too small beyond the limit. */
    method NewSize(size: nat) returns (newsize: nat)
      requires size > 0 ==> Doubled(size) && size > MIN_SIZE
      ensures Doubled(newsize) && (newsize < size <==> size > 0 && size / 2 >= limit)
      ensures newsize >= size ==> newsize == if size == 0 then MIN_SIZE else size
    {
      newsize := MIN_SIZE;
      while newsize < limit && newsize < size
        invariant Doubled(newsize) && (newsize <= size || (size == 0 && newsize == MIN_SIZE))
        invariant newsize == MIN_SIZE || newsize / 2 < limit
        decreases size - newsize
      {
        DoubledOrder(newsize, size);
        newsize := newsize * 2;
      }
      if newsize < size {
        DoubledOrder(newsize, size);
      }
    }

    /** The loop of `pb_resizetable`: every entry is inserted into the new table. */
    method Rehashed(newsize: nat) returns (nt: Table<V>)
      requires Valid() && (hash.Length > 0 ==> lastfree == 1) && Doubled(newsize) && newsize >= 2 * hash.Length
      ensures fresh(nt) && fresh(nt.hash) && nt.Valid() && nt.hash.Length == newsize && nt.zero == zero
      ensures nt.Held() == Held() && nt.wh.Keys == wh.Keys && |nt.wh| < newsize - 1
      ensures nt.ZeroPayload() == ZeroPayload() && nt.hasZero == (hash.Length > 0)
      decreases 3
    {
      hide Inv, KeysTo, KeysBefore, SubMap, Doubled, Content;
      nt := NewSized(newsize);
      var i := 0;
      while i < hash.Length
        invariant i <= hash.Length && fresh(nt) && fresh(nt.hash) && nt.Copying(this, i) && nt.hash.Length == newsize
      {
        nt.CopyEntry(this, i);
        i := i + 1;
      }
      AllCopied(hash[..], chains, wh, nt.Held());
    }

    /** The new table, empty as yet. */
    method NewSized(newsize: nat) returns (nt: Table<V>)
      requires Valid() && (hash.Length > 0 ==> lastfree == 1) && Doubled(newsize) && newsize >= 2 * hash.Length
      ensures fresh(nt) && fresh(nt.hash) && nt.hash.Length == newsize && nt.Copying(this, 0)
      decreases 0
    {
      nt := new Table<V>.Sized(zero, limit, newsize, hasZero);
      SubMapEmpty(Held());
    }

    /** The first `i` slots of `t` have been copied. */
    ghost predicate Copying(t: Table<V>, i: nat)
      reads this, hash, t, t.hash
    {
      && Valid() && t.Valid() && t != this && t.hash != hash && (t.hash.Length > 0 ==> t.lastfree == 1) &&
         i <= t.hash.Length
      && t.zero == zero && hash.Length >= 2 * t.hash.Length && hash.Length >= 8
      && |wh| <= (if i == 0 then 0 else i - 1) && Held().Keys == wh.Keys == KeysBefore(t.hash[..], i) &&
         SubMap(Held(), t.Held())
      && (if i > 0 then hasZero && ZeroPayload() == t.hash[0].val else hasZero == t.hasZero && ZeroPayload() == zero)
    }

    /** One entry of another table is inserted with its payload. */
    method CopyEntry(t: Table<V>, i: nat)
      requires Copying(t, i) && i < t.hash.Length
      modifies this, hash
      ensures Copying(t, i + 1) && hash == old(hash)
      decreases 2
    {
      if i == 0 {
        CopyZero(t);
      } else {
        CopyKey(t, i);
      }
    }

    /** Slot 0 is kept for key 0. */
    method CopyZero(t: Table<V>)
      requires Copying(t, 0) && t.hash.Length > 0
      modifies this, hash
      ensures Copying(t, 1) && hash == old(hash)
      decreases 1
    {
      FirstSlot(t.hash[..], t.chains, t.wh, t.lastfree);
      hide Slot, Inv, KeysBefore, KeysTo, SubMap, Content;
      ghost var other := t.hash[..];
      var slot := NewKey(t.hash[0].key);
      assert t.hash[..] == other;
      WritePayload(slot, t.hash[0].val);
    }

    /** The key of any other slot is new. */
    method CopyKey(t: Table<V>, i: nat)
      requires Copying(t, i) && 0 < i < t.hash.Length
      modifies this, hash
      ensures Copying(t, i + 1) && hash == old(hash)
      decreases 1
    {
      hide Slot, Inv, KeysBefore, KeysTo, SubMap, Content;
      ghost var other := t.hash[..];
      NextKey(other, t.chains, t.wh, i);
      SubMapAdds(Held(), t.Held(), other[i].key);
      var slot := NewKey(t.hash[i].key);
      assert t.hash[..] == other;
      FirstSlot(hash[..], chains, wh, lastfree);
      UpdateTwice(old(Held()), other[i].key, zero, other[i].val);
      WritePayload(slot, t.hash[i].val);
    }

    /** The payload of a slot is written through the pointer to it. */
    method WritePayload(slot: nat, v: V)
      requires Valid() && slot < hash.Length
      modifies hash
      ensures Valid() && hash[slot].key == old(hash[slot].key)
      ensures Held() == if slot == 0 || hash[slot].key == 0 then old(Held()) else old(Held())[hash[slot].key := v]
      ensures ZeroPayload() == if slot == 0 then v else old(ZeroPayload())
    {
      WritesPayload(hash[..], chains, wh, lastfree, slot, v);
      ghost var h := hash[..];
      hash[slot] := hash[slot].(val := v);
      assert hash[..] == h[slot := h[slot].(val := v)];
    }

    /** `pb_settable`: the slot of the key, which is new if it was not in the table. */
    method Set(key: int) returns (slot: int)
      requires Valid()
      modifies this, hash
      ensures Valid() && (hash == old(hash) || fresh(hash))
      ensures slot >= 0 ==> slot < hash.Length && hash[slot].key == key
      ensures slot >= 0 && key != 0 ==> key in Held() && hash[slot].val == Held()[key]
      ensures slot >= 0 && key != 0 ==> Held() == if key in old(Held()) then old(Held()) else old(Held())[key := zero]
      ensures key != 0 ==> ZeroPayload() == old(ZeroPayload()) && (old(hasZero) ==> hasZero)
      ensures slot >= 0 && key == 0 ==> slot == 0 && hasZero && Held() == old(Held())
      ensures slot >= 0 && key == 0 ==> ZeroPayload() == if old(hasZero) then old(ZeroPayload()) else zero
      ensures slot < 0 ==> Held() == old(Held()) && ZeroPayload() == old(ZeroPayload()) && (old(hasZero) ==> hasZero)
      ensures slot < 0 ==> key !in Held() && hash.Length >= limit && |wh| == hash.Length - 1
    {
      slot := Get(key);
      if slot >= 0 {
        return;
      }
      slot := NewKey(key);
    }

    /** An insertion as its callers make it: the slot is set and its payload written. */
    method Put(key: int, v: V) returns (ok: bool)
      requires Valid()
      modifies this, hash
      ensures Valid() && (hash == old(hash) || fresh(hash))
      ensures ok ==> Held() == if key == 0 then old(Held()) else old(Held())[key := v]
      ensures ok && key == 0 ==> hasZero && ZeroPayload() == v
      ensures ok && key != 0 ==> ZeroPayload() == old(ZeroPayload()) && (old(hasZero) ==> hasZero)
      ensures !ok ==> Held() == old(Held()) && ZeroPayload() == old(ZeroPayload()) && (old(hasZero) ==> hasZero)
      ensures !ok ==> key !in Held() && hash.Length >= limit && |wh| == hash.Length - 1
    {
      var slot := Set(key);
      if slot < 0 {
        return false;
      }
      WritePayload(slot, v);
      return true;
    }
  }

  // ----- histories of insertions -----

  /** What a history of insertions leaves: the last payload of every key other than 0. */
  function Written<V>(ops: seq<(int, V)>): map<int, V> {
    if ops == [] then map[]
    else
      var m, (k, v) := Written(ops[..|ops| - 1]), ops[|ops| - 1];
      if k == 0 then m else m[k := v]
  }

  /** The last payload of key 0, or `zero`. */
  function WrittenZero<V>(ops: seq<(int, V)>, zero: V): V {
    if ops == [] then zero
    else if ops[|ops| - 1].0 == 0 then ops[|ops| - 1].1
    else WrittenZero(ops[..|ops| - 1], zero)
  }

  lemma {:induction false} NothingWritten<V>(ops: seq<(int, V)>, zero: V)
    requires |ops| == 0
    ensures Written(ops) == map[] && WrittenZero(ops, zero) == zero
  {
  }

  lemma {:induction false} OneMoreWritten<V>(ops: seq<(int, V)>, i: nat, zero: V)
    requires i < |ops|
    ensures var (k, v) := ops[i];
      && Written(ops[..i + 1]) == (if k == 0 then Written(ops[..i]) else Written(ops[..i])[k := v])
      && WrittenZero(ops[..i + 1], zero) == (if k == 0 then v else WrittenZero(ops[..i], zero))
  {
    assert ops[..i + 1][..i] == ops[..i];
  }

  /** After any history of insertions, growing included, looking up a key other than 0 finds the entry that holds it,
      with the last payload written, exactly when it was inserted; the payload of key 0 is kept as well. */
  method Replay<V>(ops: seq<(int, V)>, zero: V, limit: nat) returns (t: Table<V>, done: nat)
    ensures fresh(t) && fresh(t.hash) && t.Valid() && done <= |ops|
    ensures t.Held() == Written(ops[..done]) && t.ZeroPayload() == WrittenZero(ops[..done], zero)
    ensures (exists i :: 0 <= i < done && ops[i].0 == 0) ==> t.hasZero
    ensures done < |ops| ==> t.hash.Length >= limit && |t.wh| == t.hash.Length - 1
  {
    hide Written, WrittenZero;
    t := new Table<V>(zero, limit);
    done := 0;
    NothingWritten(ops[..0], zero);
    while done < |ops|
      invariant fresh(t) && fresh(t.hash) && t.Valid() && done <= |ops|
      invariant t.Held() == Written(ops[..done]) && t.ZeroPayload() == WrittenZero(ops[..done], zero) &&
                t.zero == zero && t.limit == limit
      invariant (exists i :: 0 <= i < done && ops[i].0 == 0) ==> t.hasZero
    {
      OneMoreWritten(ops, done, zero);
      var ok := t.Put(ops[done].0, ops[done].1);
      if !ok {
        return;
      }
      done := done + 1;
    }
  }
}
