/** How much room `sproto_encode` needs, and the bound on the words of its header. */
module SprotoNeed {
  import opened SprotoSpec
  import opened SprotoRoundTrip

  /** `maxn` of `import_type`: a word for each field, and one for each place where tags are left out. */
  function MaxN(t: seq<Field>, last: int): nat {
    if t == [] then 0 else 1 + (if t[0].tag > last + 1 then 1 else 0) + MaxN(t[1..], t[0].tag)
  }

  function NeedBody(schema: Schema, k: Kind, v: Value): nat
    requires Typed(schema, k, v) && (k.Text? || k.Struct?)
    decreases v, 0
  {
    match k
    case Text => |v.s|
    case Struct(t) => NeedRecord(schema, schema[t], v.es)
  }

  function NeedBodies(schema: Schema, k: Kind, vs: seq<Value>): nat
    requires AllTyped(schema, k, vs) && (k.Text? || k.Struct?)
    decreases vs, 0
  {
    if vs == [] then 4 else 4 + NeedBody(schema, k, vs[0]) + NeedBodies(schema, k, vs[1..])
  }

  function NeedElements(schema: Schema, k: Kind, vs: seq<Value>): nat
    requires AllTyped(schema, k, vs)
    decreases vs, 1
  {
    match k
    case Integer | Double => 1 + 8 * |vs|
    case Boolean => |vs|
    case _ => NeedBodies(schema, k, vs)
  }

  function NeedCode(schema: Schema, f: Field, v: Value): nat
    requires if f.isArray then v.List? && AllTyped(schema, f.kind, v.vs) else Typed(schema, f.kind, v)
    decreases v, 1
  {
    if f.isArray then 4 + NeedElements(schema, f.kind, v.vs)
    else
      match f.kind
      case Integer | Double => 12
      case Boolean => 0
      case _ => 4 + NeedBody(schema, f.kind, v)
  }

  function NeedEntry(schema: Schema, t: seq<Field>, e: Entry): nat
    requires TypedEntry(schema, t, e)
    decreases e
  {
    NeedCode(schema, Lookup(t, e.tag).value, e.value)
  }

  function NeedEntries(schema: Schema, t: seq<Field>, es: seq<Entry>): nat
    requires TypedEntries(schema, t, es)
    decreases es, 0
  {
    if es == [] then 0 else NeedEntry(schema, t, es[0]) + NeedEntries(schema, t, es[1..])
  }

  function NeedRecord(schema: Schema, t: seq<Field>, es: seq<Entry>): nat
    requires TypedEntries(schema, t, es)
    decreases es, 1
  {
    2 + 2 * MaxN(t, -1) + NeedEntries(schema, t, es)
  }

  /** Each entry has its field in `u`. */
  ghost predicate HaveFields(es: seq<Entry>, u: seq<Field>) {
    forall e :: e in es ==> exists i :: 0 <= i < |u| && u[i].tag == e.tag
  }

  /** The first entry is for the first field or a later one; without those two, each has its field in the others. */
  lemma {:induction false} FirstHasField(es: seq<Entry>, u: seq<Field>)
    requires es != [] && HaveFields(es, u)
    requires forall i, j :: 0 <= i < j < |u| ==> u[i].tag < u[j].tag
    requires forall i, j :: 0 <= i < j < |es| ==> es[i].tag < es[j].tag
    ensures u != [] && u[0].tag <= es[0].tag
    ensures HaveFields(if u[0].tag == es[0].tag then es[1..] else es, u[1..])
  {
    assert es[0] in es;
    var i :| 0 <= i < |u| && u[i].tag == es[0].tag;
    var es' := if u[0].tag == es[0].tag then es[1..] else es;
    forall d | d in es' ensures exists j :: 0 <= j < |u[1..]| && u[1..][j].tag == d.tag {
      assert d in es;
      var j :| 0 <= j < |u| && u[j].tag == d.tag;
      assert j > 0;
      assert u[1..][j - 1] == u[j];
    }
  }

  /** The words for some fields of a type are no more than `maxn` counts, from the field after tag `prev` on. */
  lemma {:induction false} WordsWithin(schema: Schema, t: seq<Field>, u: seq<Field>, es: seq<Entry>, last: int,
                                       prev: int)
    requires TypedEntries(schema, t, es) && last <= prev && (es != [] ==> prev < es[0].tag)
    requires forall i, j :: 0 <= i < j < |u| ==> u[i].tag < u[j].tag
    requires forall i :: 0 <= i < |u| ==> prev < u[i].tag
    requires HaveFields(es, u)
    ensures |Words(schema, t, es, last)| <= 2 * MaxN(u, prev) + (if last < prev then 2 else 0)
    decreases |u|
  {
    if es != [] {
      hide Words, CodeOf, HaveFields, TypedEntries, WordBytes;
      var e := es[0];
      FirstOf(schema, t, es, last);
      Ascends(schema, t, es);
      FirstHasField(es, u);
      if u[0].tag == e.tag {
        WordsWithin(schema, t, u[1..], es[1..], e.tag, e.tag);
      } else {
        WordsWithin(schema, t, u[1..], es, last, u[0].tag);
      }
    }
  }

  lemma {:induction false} Ascends(schema: Schema, t: seq<Field>, es: seq<Entry>)
    requires TypedEntries(schema, t, es)
    ensures forall i, j :: 0 <= i < j < |es| ==> es[i].tag < es[j].tag
    decreases es
  {
    if es != [] {
      Ascends(schema, t, es[1..]);
      forall i, j | 0 <= i < j < |es| ensures es[i].tag < es[j].tag {
        if i > 0 {
          assert es[1..][i - 1].tag < es[1..][j - 1].tag;
        } else if j > 1 {
          assert es[1..][0].tag < es[1..][j - 1].tag;
        }
      }
    }
  }

  /** The words written for a record never number more than `maxn`. */
  lemma {:induction false} WordsFit(schema: Schema, t: seq<Field>, es: seq<Entry>)
    requires ValidSchema(schema) && t in schema && TypedEntries(schema, t, es)
    ensures |Words(schema, t, es, -1)| <= 2 * MaxN(t, -1)
  {
    assert ValidType(schema, t);
    forall e | e in es ensures exists i :: 0 <= i < |t| && t[i].tag == e.tag {
      EntryTyped(schema, t, es, e);
      var f := Lookup(t, e.tag).value;
      var i :| 0 <= i < |t| && t[i] == f;
    }
    WordsWithin(schema, t, t, es, -1, -1);
  }

  lemma {:induction false} EntryTyped(schema: Schema, t: seq<Field>, es: seq<Entry>, e: Entry)
    requires TypedEntries(schema, t, es) && e in es
    ensures TypedEntry(schema, t, e)
    decreases es
  {
    if e != es[0] {
      var i :| 0 <= i < |es| && es[i] == e;
      assert es[1..][i - 1] == e;
      EntryTyped(schema, t, es[1..], e);
    }
  }

  // ----- what is written fits what is needed -----

  lemma {:induction false} BodyWithin(schema: Schema, k: Kind, v: Value)
    requires ValidSchema(schema) && Typed(schema, k, v) && (k.Text? || k.Struct?)
    ensures |Body(schema, k, v)| <= NeedBody(schema, k, v)
    decreases v, 0
  {
    if k.Struct? {
      RecordWithin(schema, schema[k.t], v.es);
    }
  }

  lemma {:induction false} BodiesWithin(schema: Schema, k: Kind, vs: seq<Value>)
    requires ValidSchema(schema) && AllTyped(schema, k, vs) && (k.Text? || k.Struct?)
    ensures |Bodies(schema, k, vs)| <= NeedBodies(schema, k, vs)
    decreases vs, 0
  {
    if vs != [] {
      BodyWithin(schema, k, vs[0]);
      BodiesWithin(schema, k, vs[1..]);
    }
  }

  lemma {:induction false} NumbersLong(vs: seq<Value>, width: nat)
    ensures |Numbers(vs, width)| == width * |vs|
    decreases vs
  {
    if vs != [] {
      NumbersLong(vs[1..], width);
    }
  }

  lemma {:induction false} CodeWithin(schema: Schema, f: Field, v: Value)
    requires ValidSchema(schema)
    requires if f.isArray then v.List? && AllTyped(schema, f.kind, v.vs) else Typed(schema, f.kind, v)
    ensures Code(schema, f, v).Data? ==> |Code(schema, f, v).bytes| <= NeedCode(schema, f, v)
    decreases v, 1
  {
    if f.isArray {
      if f.kind.Integer? || f.kind.Double? {
        NumbersLong(v.vs, Width(f.kind, v.vs));
      } else if !f.kind.Boolean? {
        BodiesWithin(schema, f.kind, v.vs);
      }
    } else if f.kind.Text? || f.kind.Struct? {
      BodyWithin(schema, f.kind, v);
    }
  }

  lemma {:induction false} EntriesWithin(schema: Schema, t: seq<Field>, es: seq<Entry>)
    requires ValidSchema(schema) && TypedEntries(schema, t, es)
    ensures |Datas(schema, t, es)| <= NeedEntries(schema, t, es)
    decreases es, 0
  {
    if es != [] {
      EntryWithin(schema, t, es[0]);
      EntriesWithin(schema, t, es[1..]);
    }
  }

  lemma {:induction false} EntryWithin(schema: Schema, t: seq<Field>, e: Entry)
    requires ValidSchema(schema) && TypedEntry(schema, t, e)
    ensures CodeOf(schema, t, e).Data? ==> |CodeOf(schema, t, e).bytes| <= NeedEntry(schema, t, e)
    decreases e
  {
    CodeWithin(schema, Lookup(t, e.tag).value, e.value);
  }

  lemma {:induction false} RecordWithin(schema: Schema, t: seq<Field>, es: seq<Entry>)
    requires ValidSchema(schema) && t in schema && TypedEntries(schema, t, es)
    ensures |EncodeRecord(schema, t, es)| <= NeedRecord(schema, t, es)
    decreases es, 1
  {
    WordsFit(schema, t, es);
    EntriesWithin(schema, t, es);
  }
}
