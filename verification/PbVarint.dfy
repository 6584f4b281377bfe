/** Base-128 varints: the value the bytes denote, the bytes a value is written as, and how readers accumulate it. */
module PbVarint {
  import opened Basics

  /** `b & 0x7F`. */
  function Low7(b: byte): byte {
    if b < 128 then b else b - 128
  }

  datatype Read = Bad | Good(value: nat, used: nat)

  /** The number at the front of `s`, seven bits a byte, least significant first, in at most `room` bytes. */
  function Varint(s: seq<byte>, room: nat): (r: Read)
    ensures r.Good? ==> 1 <= r.used <= |s| && r.used <= room
    decreases room
  {
    if |s| == 0 || room == 0 then Bad
    else if s[0] < 128 then Good(s[0], 1)
    else
      match Varint(s[1..], room - 1)
      case Bad => Bad
      case Good(v, u) => Good(s[0] - 128 + 128 * v, u + 1)
  }

  /** The shortest varint of a number. */
  function Digits(n: nat): (s: seq<byte>)
    ensures |s| >= 1
  {
    if n < 128 then [n] else [128 + n % 128] + Digits(n / 128)
  }

  function Reach(room: nat): (w: nat)
    ensures w >= 1
  {
    if room == 0 then 1 else 128 * Reach(room - 1)
  }

  lemma {:induction false} DigitsFit(n: nat, room: nat)
    requires room >= 1 && n < Reach(room)
    ensures |Digits(n)| <= room
  {
    if n >= 128 {
      DigitsFit(n / 128, room - 1);
    }
  }

  /** A 32-bit number takes at most five bytes, a 64-bit one at most ten. */
  lemma {:induction false} DigitCounts(n: nat)
    ensures n < WORD ==> |Digits(n)| <= 5
    ensures n < DWORD ==> |Digits(n)| <= 10
  {
    assert Reach(4) == 0x1000_0000;
    assert Reach(5) == 0x8_0000_0000;
    assert Reach(8) == 0x100_0000_0000_0000;
    assert Reach(10) == 0x40_0000_0000_0000_0000;
    if n < WORD {
      DigitsFit(n, 5);
    }
    if n < DWORD {
      DigitsFit(n, 10);
    }
  }

  /** Reading a written number gives the number and its length, whatever follows it. */
  lemma {:induction false} VarintRoundTrip(n: nat, rest: seq<byte>, room: nat)
    requires |Digits(n)| <= room
    ensures Varint(Digits(n) + rest, room) == Good(n, |Digits(n)|)
    decreases room
  {
    var s := Digits(n) + rest;
    if n >= 128 {
      VarintRoundTrip(n / 128, rest, room - 1);
      assert s[1..] == Digits(n / 128) + rest;
    }
  }

  /** What a reader that has accumulated `low` from `i` bytes will return when the bytes after them read as `r`. */
  function After(low: nat, i: nat, r: Read): Read {
    match r
    case Bad => Bad
    case Good(v, u) => Good(low + Scaled(v, i), i + u)
  }

  /** `v * 128^i`. */
  function Scaled(v: nat, i: nat): nat
    decreases i
  {
    if i == 0 then v else 128 * Scaled(v, i - 1)
  }

  lemma {:induction false} ScaledAdds(a: nat, b: nat, i: nat)
    ensures Scaled(a + b, i) == Scaled(a, i) + Scaled(b, i)
    decreases i
  {
    if i > 0 {
      ScaledAdds(a, b, i - 1);
    }
  }

  /** One more byte with its top bit set. */
  lemma {:induction false} MoreBytes(low: nat, i: nat, s: seq<byte>, room: nat)
    requires |s| > 0 && room > 0 && s[0] >= 128
    ensures After(low, i, Varint(s, room)) == After(low + Scaled(s[0] - 128, i), i + 1, Varint(s[1..], room - 1))
  {
    var r := Varint(s[1..], room - 1);
    if r.Good? {
      ScaledAdds(s[0] - 128, 128 * r.value, i);
      ScaledNext(r.value, i);
    }
  }

  lemma {:induction false} ScaledNext(v: nat, i: nat)
    ensures Scaled(128 * v, i) == Scaled(v, i + 1)
  {
    if i > 0 {
      ScaledNext(v, i - 1);
    }
  }

  /** From the sixth byte on, the low 32 bits stay as they are. */
  lemma {:induction false} HighBytes(low: nat, i: nat, v: nat)
    requires i >= 5
    ensures Low32(low + Scaled(v, i)) == Low32(low)
  {
    FiveBack(v, i);
    Multiple(low, 8 * Scaled(v, i - 5));
  }

  lemma {:induction false} FiveBack(v: nat, i: nat)
    requires i >= 5
    ensures Scaled(v, i) == 8 * Scaled(v, i - 5) * WORD
  {
    assert Scaled(v, i) == 128 * (128 * Scaled(v, i - 2));
    assert Scaled(v, i - 2) == 128 * (128 * Scaled(v, i - 4));
    assert Scaled(v, i - 4) == 128 * Scaled(v, i - 5);
  }

  lemma {:induction false} Multiple(low: nat, k: nat)
    ensures Low32(low + k * WORD) == Low32(low)
  {
    if k > 0 {
      Multiple(low, k - 1);
      Wraps(low + (k - 1) * WORD);
    }
  }

  lemma {:induction false} Wraps(n: nat)
    ensures (n + WORD) % WORD == n % WORD
  {
  }

  lemma {:induction false} ModAdd(low: nat, x: nat)
    ensures Low64(Low64(low) + x) == Low64(low + x)
  {
    ModTimes(low % DWORD + x, low / DWORD);
  }

  lemma {:induction false} ModTimes(n: nat, k: nat)
    ensures (n + k * DWORD) % DWORD == n % DWORD
  {
    if k > 0 {
      ModTimes(n, k - 1);
      ModOnce(n + (k - 1) * DWORD);
    }
  }

  lemma {:induction false} ModOnce(n: nat)
    ensures (n + DWORD) % DWORD == n % DWORD
  {
  }

  /** The first `j` bytes of `w` have their top bits set, and `low` has been accumulated from them. */
  ghost predicate Reading(w: seq<byte>, low: nat, j: nat) {
    j <= |w| && j <= 10 && Varint(w, 10) == After(low, j, Varint(w[j..], 10 - j))
  }

  lemma {:induction false} ReadingStarts(w: seq<byte>)
    ensures Reading(w, 0, 0)
  {
    assert w[0..] == w;
  }

  lemma {:induction false} ReadingOn(w: seq<byte>, low: nat, j: nat)
    requires Reading(w, low, j) && j < |w| && j < 10 && w[j] >= 128
    ensures Reading(w, low + Scaled(w[j] - 128, j), j + 1)
  {
    hide Scaled, Varint, After;
    assert w[j..][0] == w[j] && w[j..][1..] == w[j + 1..];
    MoreBytes(low, j, w[j..], 10 - j);
  }

  lemma {:induction false} ReadingEnds(w: seq<byte>, low: nat, j: nat)
    requires Reading(w, low, j) && j < |w| && j < 10 && w[j] < 128
    ensures Varint(w, 10) == Good(low + Scaled(w[j], j), j + 1)
  {
    hide Scaled;
    assert w[j..][0] == w[j];
  }

  lemma {:induction false} ReadingFails(w: seq<byte>, low: nat, j: nat)
    requires Reading(w, low, j) && (j == |w| || j == 10)
    ensures Varint(w, 10) == Bad
  {
    assert Varint(w[j..], 10 - j) == Bad;
  }

  lemma {:induction false} ShiftIn(x: nat, j: nat, i: nat)
    ensures Scaled(x, j + i) == Scaled(Scaled(x, i), j)
    decreases i
  {
    if i > 0 {
      ScaledNext(Scaled(x, i - 1), j);
      ShiftIn(x, j + 1, i - 1);
    }
  }

  /** The part that starts at byte `j` has collected `part` from `i` bytes. */
  ghost predicate Collected(w: seq<byte>, low: nat, j: nat, part: nat, i: nat) {
    Reading(w, low + Scaled(part, j), j + i)
  }

  /** The varint ends within the part, which has collected `part`, after `used` bytes. */
  ghost predicate Complete(w: seq<byte>, low: nat, j: nat, part: nat, used: nat) {
    Varint(w, 10) == Good(low + Scaled(part, j), used)
  }

  /** One more byte of a part. */
  lemma {:induction false} PartOn(w: seq<byte>, low: nat, j: nat, part: nat, i: nat)
    requires Collected(w, low, j, part, i) && j + i < |w| && j + i < 10
    ensures var more := part + Scaled(Low7(w[j + i]), i);
            if w[j + i] < 128 then Complete(w, low, j, more, j + i + 1) else Collected(w, low, j, more, i + 1)
  {
    hide Varint, Reading, Scaled;
    var x := Low7(w[j + i]);
    ShiftIn(x, j, i);
    ScaledAdds(part, Scaled(x, i), j);
    if w[j + i] < 128 {
      ReadingEnds(w, low + Scaled(part, j), j + i);
    } else {
      ReadingOn(w, low + Scaled(part, j), j + i);
    }
  }

  lemma {:induction false} PartStarts(w: seq<byte>, low: nat, j: nat)
    requires Reading(w, low, j)
    ensures Collected(w, low, j, 0, 0)
  {
    NothingScaled(j);
  }

  lemma {:induction false} NothingScaled(j: nat)
    ensures Scaled(0, j) == 0
  {
    if j > 0 {
      NothingScaled(j - 1);
    }
  }

  lemma {:induction false} Shifts(b: nat)
    ensures Scaled(b, 0) == b && Scaled(b, 1) == 0x80 * b && Scaled(b, 2) == 0x4000 * b && Scaled(b, 3) == 0x20_0000 * b
  {
    assert Scaled(b, 2) == 0x4000 * b;
  }

  lemma {:induction false} WordShifts(b: nat)
    ensures Scaled(b, 4) == 0x1000_0000 * b && Scaled(b, 8) == 0x100_0000_0000_0000 * b
  {
    assert Scaled(b, 2) == 0x4000 * b;
    assert Scaled(b, 4) == 0x1000_0000 * b;
    assert Scaled(b, 6) == 0x400_0000_0000 * b;
  }

  lemma {:induction false} LowTwice(n: nat)
    ensures Low32(Low64(n)) == Low32(n)
  {
    var k := n / DWORD;
    assert n == Low64(n) + k * DWORD == Low64(n) + k * WORD * WORD;
    Multiple(Low64(n), k * WORD);
  }

  /** Whatever starts with a written number reads as that number, and is read up to its end. */
  lemma {:induction false} WrittenReads(s: seq<byte>, n: u64)
    requires Digits(n) <= s
    ensures Varint(s, 10) == Good(n, |Digits(n)|) && Low64(n) == n && (n < WORD ==> Low32(n) == n)
  {
    DigitCounts(n);
    VarintRoundTrip(n, s[|Digits(n)|..], 10);
    assert s == Digits(n) + s[|Digits(n)|..];
    LowSmall(n);
  }
}
