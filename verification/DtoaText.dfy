/** `s2b` of dtoa.c: the digits of a decimal text, with a point among them, as a number. */
module DtoaText {
  import opened Basics
  import opened DtoaWords
  import opened DtoaBigint
  import opened DtoaRound

  predicate DecimalText(s: seq<char>) {
    forall i :: 0 <= i < |s| ==> '0' <= s[i] <= '9'
  }

  function DigitValues(s: seq<char>): (ds: seq<nat>)
    requires DecimalText(s)
    ensures |ds| == |s|
  {
    seq(|s|, i requires 0 <= i < |s| => s[i] as int - '0' as int)
  }

  /** The digits of a text: `nd0` of them before a point that takes `dplen` characters, the rest after it. */
  function WithoutPoint(s: seq<char>, nd0: nat, nd: nat, dplen: nat): (ds: seq<char>)
    requires nd0 <= nd && nd + dplen <= |s|
    ensures |ds| == nd
  {
    s[..nd0] + s[nd0 + dplen..nd + dplen]
  }

  /** `s2b`: `y9` is the value of the first nine digits, read by the caller; the others are multiplied in one by one. */
  method S2b(s: seq<char>, nd0: nat, nd: nat, y9: Word, dplen: nat) returns (b: Bigint)
    requires nd0 <= nd && nd + dplen <= |s| && DecimalText(WithoutPoint(s, nd0, nd, dplen))
    requires y9 == Decimal(DigitValues(WithoutPoint(s, nd0, nd, dplen))[..if nd < 9 then nd else 9])
    ensures fresh(b) && fresh(b.x) && b.Valid() && b.wds >= 1
    ensures b.Value() == Decimal(DigitValues(WithoutPoint(s, nd0, nd, dplen)))
  {
    hide Times, Pow, Val, Decimal;
    ghost var ds := DigitValues(WithoutPoint(s, nd0, nd, dplen));
    var x, k, y := (nd + 8) / 9, 0, 1;
    while x > y
      invariant y == TwoTo(k)
      decreases x - y
    {
      y, k := 2 * y, k + 1;
    }
    b := new Bigint.Balloc(k);
    b.x[0] := y9;
    b.wds := 1;
    OneDigit(b.x[..1], y9);
    var i, at := 9, dplen + 9;
    if 9 < nd0 {
      at := 9;
      while i < nd0
        invariant 9 <= i <= nd0 && at == i && b.Valid() && b.wds >= 1 && fresh(b) && fresh(b.x)
        invariant b.Value() == Decimal(ds[..i])
      {
        MoreDigits(ds, i);
        b.MultAdd(10, s[at] as int - '0' as int);
        at, i := at + 1, i + 1;
      }
      at := at + dplen;
    }
    assert nd >= 9 ==> b.Value() == Decimal(ds[..i]);
    while i < nd
      invariant i >= 9 && i >= nd0 && at == i + dplen && b.Valid() && b.wds >= 1 && fresh(b) && fresh(b.x)
      invariant if nd < 9 then b.Value() == y9 else i <= nd && b.Value() == Decimal(ds[..i])
    {
      MoreDigits(ds, i);
      b.MultAdd(10, s[at] as int - '0' as int);
      at, i := at + 1, i + 1;
    }
    assert ds[..nd] == ds;
  }

  lemma {:induction false} OneDigit(x: seq<Word>, w: Word)
    requires x == [w]
    ensures Val(x) == w
  {
    assert x == [] + [w];
    ValSnoc([], w);
  }

  lemma {:induction false} MoreDigits(ds: seq<nat>, i: nat)
    requires i < |ds|
    ensures Decimal(ds[..i + 1]) == Times(Decimal(ds[..i]), 10) + ds[i]
  {
    assert ds[..i + 1] == ds[..i] + [ds[i]];
    DecimalSnoc(ds[..i], ds[i]);
  }
}
