/** `ldesencode` and `ldesdecode` of lua-crypt.c: a text is padded, encrypted block by block, and recovered. */
module Des {
  import opened Basics
  import opened DesSpec

  type Block = b: seq<bv8> | |b| == 8 witness seq(8, _ => 0)

  function Word(a: bv8, b: bv8, c: bv8, d: bv8): bv32 {
    (a as bv32 << 24) | (b as bv32 << 16) | (c as bv32 << 8) | (d as bv32)
  }

  function GetUint32(b: seq<bv8>, i: nat): bv32
    requires i + 4 <= |b|
  {
    Word(b[i], b[i + 1], b[i + 2], b[i + 3])
  }

  function Byte(n: bv32): bv8 {
    (n & 0xFF) as bv8
  }

  function PutUint32(n: bv32): (b: seq<bv8>)
    ensures |b| == 4
  {
    [Byte(n >> 24), Byte(n >> 16), Byte(n >> 8), Byte(n)]
  }

  function Words(b: Block): Halves {
    Halves(GetUint32(b, 0), GetUint32(b, 4))
  }

  function Bytes(h: Halves): Block {
    PutUint32(h.x) + PutUint32(h.y)
  }

  lemma {:induction false} FourBytes(n: bv32, a: bv8, b: bv8, c: bv8, d: bv8)
    requires n == (a as bv32 << 24) | (b as bv32 << 16) | (c as bv32 << 8) | (d as bv32)
    ensures Byte(n >> 24) == a && Byte(n >> 16) == b && Byte(n >> 8) == c && Byte(n) == d
  {
  }

  lemma {:induction false} BytesOfWord(a: bv8, b: bv8, c: bv8, d: bv8)
    ensures PutUint32(Word(a, b, c, d)) == [a, b, c, d]
  {
    FourBytes(Word(a, b, c, d), a, b, c, d);
    hide Byte, Word;
  }

  lemma {:induction false} WordOfBytes(n: bv32)
    ensures Word(Byte(n >> 24), Byte(n >> 16), Byte(n >> 8), Byte(n)) == n
  {
  }

  lemma {:induction false} WordPutGot(n: bv32)
    ensures GetUint32(PutUint32(n), 0) == n
  {
    hide Word, Byte;
    WordOfBytes(n);
  }

  lemma {:induction false} BlockBack(b: Block)
    ensures Bytes(Words(b)) == b
  {
    hide Word, PutUint32;
    BytesOfWord(b[0], b[1], b[2], b[3]);
    BytesOfWord(b[4], b[5], b[6], b[7]);
  }

  lemma {:induction false} HalvesBack(h: Halves)
    ensures Words(Bytes(h)) == h
  {
    hide Word, PutUint32;
    WordPutGot(h.x);
    WordPutGot(h.y);
  }

  function CryptBlock(sb: Boxes, sk: Subkeys, b: Block): Block {
    Bytes(Crypt(sb, sk, Words(b)))
  }

  function CryptAll(sb: Boxes, sk: Subkeys, s: seq<bv8>): (r: seq<bv8>)
    requires |s| % 8 == 0
    ensures |r| == |s|
  {
    if s == [] then [] else CryptAll(sb, sk, s[..|s| - 8]) + CryptBlock(sb, sk, s[|s| - 8..])
  }

  /** The text, one byte 0x80, and zeros up to a whole block. */
  function Pad(s: seq<bv8>): (r: seq<bv8>)
    ensures |r| % 8 == 0 && |r| == |s| / 8 * 8 + 8
  {
    s + [0x80] + seq(7 - |s| % 8, _ => 0)
  }

  /** How many bytes the padding takes, seen from its `k`-th byte from the end: at most the last block is looked at. The
      position is compared without sign, so the scan of a single block does not stop in front of it. */
  function Padding(d: seq<bv8>, k: nat): (r: Outcome<nat>)
    requires |d| >= 8 && 1 <= k <= 9
    ensures r.Done? ==> r.value <= 8
    decreases 9 - k
  {
    if k > 8 then if |d| == 8 then Outside else Refused
    else if d[|d| - k] == 0 then Padding(d, k + 1)
    else if d[|d| - k] == 0x80 then Done(k) else Refused
  }

  function Encode(sb: Boxes, sk: Subkeys, text: seq<bv8>): seq<bv8> {
    CryptAll(sb, sk, Pad(text))
  }

  function Decode(sb: Boxes, sk: Subkeys, text: seq<bv8>): Outcome<seq<bv8>> {
    if |text| % 8 != 0 || text == [] then Refused
    else
      var d := CryptAll(sb, Reversed(sk), text);
      match Padding(d, 1)
      case Refused => Refused
      case Outside => Outside
      case Done(n) => Done(d[..|d| - n])
  }

  lemma {:induction false} BlockCryptBack(sb: Boxes, sk: Subkeys, b: Block)
    ensures CryptBlock(sb, Reversed(sk), CryptBlock(sb, sk, b)) == b
  {
    hide Crypt, Words, Bytes, Reversed;
    BlockBack(b);
    HalvesBack(Crypt(sb, sk, Words(b)));
    CryptBack(sb, sk, Words(b));
  }

  lemma {:induction false} CryptAllBack(sb: Boxes, sk: Subkeys, s: seq<bv8>)
    requires |s| % 8 == 0
    ensures CryptAll(sb, Reversed(sk), CryptAll(sb, sk, s)) == s
  {
    if s != [] {
      hide Reversed, CryptBlock, CryptAll;
      var init, last := s[..|s| - 8], s[|s| - 8..];
      assert s == init + last;
      CryptAllSnoc(sb, sk, init, last);
      CryptAllSnoc(sb, Reversed(sk), CryptAll(sb, sk, init), CryptBlock(sb, sk, last));
      CryptAllBack(sb, sk, init);
      BlockCryptBack(sb, sk, last);
    }
  }

  lemma {:induction false} CryptAllSnoc(sb: Boxes, sk: Subkeys, s: seq<bv8>, b: Block)
    requires |s| % 8 == 0
    ensures CryptAll(sb, sk, s + b) == CryptAll(sb, sk, s) + CryptBlock(sb, sk, b)
  {
    hide CryptBlock;
    assert (s + b)[..|s|] == s && (s + b)[|s|..] == b;
  }

  lemma {:induction false} PaddingFound(s: seq<bv8>, k: nat)
    requires 1 <= k <= 8 - |s| % 8
    ensures Padding(Pad(s), k) == Done(8 - |s| % 8)
    decreases 9 - k
  {
    var d := Pad(s);
    if k < 8 - |s| % 8 {
      assert d[|d| - k] == 0;
      PaddingFound(s, k + 1);
    } else {
      assert d[|d| - k] == 0x80;
    }
  }

  /** Decoding what was encoded gives the text back, for every text, key and choice of S-boxes. */
  lemma {:induction false} TextRoundTrip(sb: Boxes, sk: Subkeys, text: seq<bv8>)
    ensures Decode(sb, sk, Encode(sb, sk, text)) == Done(text)
  {
    hide CryptAll;
    CryptAllBack(sb, sk, Pad(text));
    PaddingFound(text, 1);
    assert Pad(text)[..|text|] == text;
  }

  /** Where the scan for the padding ends, if it has seen nothing but zeros in `k - 1` bytes. */
  lemma {:induction false} ScanLeaves(d: seq<bv8>, k: nat)
    requires |d| >= 8 && 1 <= k <= 9
    ensures Padding(d, k).Outside? <==> |d| == 8 && forall i :: 0 <= i < 9 - k ==> d[i] == 0
    decreases 9 - k
  {
    if k <= 8 && d[|d| - k] == 0 {
      ScanLeaves(d, k + 1);
    } else if k <= 8 && |d| == 8 {
      assert d[8 - k] != 0;
    }
  }

  const ZEROS: Block := [0, 0, 0, 0, 0, 0, 0, 0]

  /** Exactly when decoding leaves its buffer: for a text of one block that decrypts to zeros. */
  lemma {:induction false} DecodeLeaves(sb: Boxes, sk: Subkeys, text: seq<bv8>)
    ensures Decode(sb, sk, text).Outside? <==> |text| == 8 && CryptBlock(sb, Reversed(sk), text) == ZEROS
  {
    hide CryptBlock, Reversed;
    if |text| % 8 == 0 && text != [] {
      hide CryptAll;
      var d := CryptAll(sb, Reversed(sk), text);
      ScanLeaves(d, 1);
      if |text| == 8 {
        OneBlock(sb, Reversed(sk), text);
      }
    }
  }

  lemma {:induction false} OneBlock(sb: Boxes, sk: Subkeys, b: Block)
    ensures CryptAll(sb, sk, b) == CryptBlock(sb, sk, b)
  {
    hide CryptBlock;
    CryptAllSnoc(sb, sk, [], b);
    assert [] + b == b;
    assert CryptAll(sb, sk, []) + CryptBlock(sb, sk, b) == CryptBlock(sb, sk, b);
  }

  /** There is such a text for every key. */
  lemma {:induction false} ZerosLeave(sb: Boxes, sk: Subkeys)
    ensures Decode(sb, sk, CryptBlock(sb, sk, ZEROS)) == Outside
  {
    hide CryptBlock, Reversed, Decode;
    BlockCryptBack(sb, sk, ZEROS);
    DecodeLeaves(sb, sk, CryptBlock(sb, sk, ZEROS));
  }

  // ----- the code -----

  /** `DES_ROUND(Y, X); DES_ROUND(X, Y)`, the subkey pointer at `2 * n`. */
  method TwoRounds(sb: Boxes, sk: Subkeys, n: nat, h: Halves, ghost start: Halves) returns (r: Halves)
    requires n + 2 <= 16 && n % 2 == 0 && h == Rounds(sb, sk, n, start)
    ensures r == Rounds(sb, sk, n + 2, start)
  {
    hide Mixed, Rounds, Xor;
    var x, y := h.x, h.y;
    x := Xor(x, Mixed(sb, y, sk[2 * n], sk[2 * n + 1]));
    EvenRound(sb, sk, n, start);
    y := Xor(y, Mixed(sb, x, sk[2 * n + 2], sk[2 * n + 3]));
    OddRound(sb, sk, n + 1, start);
    r := Halves(x, y);
  }

  lemma {:induction false} EvenRound(sb: Boxes, sk: Subkeys, n: nat, start: Halves)
    requires n < 16 && n % 2 == 0
    ensures var h := Rounds(sb, sk, n, start);
            Rounds(sb, sk, n + 1, start) == Halves(Xor(h.x, Mixed(sb, h.y, sk[2 * n], sk[2 * n + 1])), h.y)
  {
    hide Mixed, Rounds, Xor;
    NextRound(sb, sk, n + 1, start);
  }

  lemma {:induction false} OddRound(sb: Boxes, sk: Subkeys, n: nat, start: Halves)
    requires n < 16 && n % 2 == 1
    ensures var h := Rounds(sb, sk, n, start);
            Rounds(sb, sk, n + 1, start) == Halves(h.x, Xor(h.y, Mixed(sb, h.x, sk[2 * n], sk[2 * n + 1])))
  {
    hide Mixed, Rounds, Xor;
    NextRound(sb, sk, n + 1, start);
  }

  /** `des_crypt`: the block at `at` of `input` goes to `to` of `output`. */
  method DesCrypt(sb: Boxes, sk: Subkeys, input: seq<bv8>, at: nat, output: array<bv8>, to: nat)
    requires at + 8 <= |input| && to + 8 <= output.Length
    modifies output
    ensures output[..to] == old(output[..to]) && output[to..to + 8] == CryptBlock(sb, sk, input[at..at + 8])
  {
    hide Rounds, InitialPermutation, FinalPermutation, Word, Byte;
    ghost var b := input[at..at + 8];
    var h := InitialPermutation(Halves(GetUint32(input, at), GetUint32(input, at + 4)));
    assert h == InitialPermutation(Words(b));
    ghost var start := h;
    NoRounds(sb, sk, start);
    h := TwoRounds(sb, sk, 0, h, start);
    h := TwoRounds(sb, sk, 2, h, start);
    h := TwoRounds(sb, sk, 4, h, start);
    h := TwoRounds(sb, sk, 6, h, start);
    h := TwoRounds(sb, sk, 8, h, start);
    h := TwoRounds(sb, sk, 10, h, start);
    h := TwoRounds(sb, sk, 12, h, start);
    h := TwoRounds(sb, sk, 14, h, start);
    var f := FinalPermutation(Halves(h.y, h.x));
    assert f == Crypt(sb, sk, Words(b));
    PutWord(output, to, f.x);
    PutWord(output, to + 4, f.y);
    assert output[to..to + 8] == output[to..to + 4] + output[to + 4..to + 8];
  }

  /** `PUT_UINT32`. */
  method PutWord(output: array<bv8>, i: nat, n: bv32)
    requires i + 4 <= output.Length
    modifies output
    ensures output[..i] == old(output[..i]) && output[i..i + 4] == PutUint32(n)
  {
    hide Byte;
    output[i], output[i + 1], output[i + 2], output[i + 3] := Byte(n >> 24), Byte(n >> 16), Byte(n >> 8), Byte(n);
  }

  /** The loop over whole blocks, for both directions. */
  method CryptBlocks(sb: Boxes, sk: Subkeys, text: seq<bv8>, buffer: array<bv8>, end: nat) returns (i: nat)
    requires end <= |text| && |text| / 8 * 8 <= buffer.Length
    modifies buffer
    ensures i == end / 8 * 8 && buffer[..i] == CryptAll(sb, sk, text[..i])
  {
    hide CryptBlock, CryptAll;
    i := 0;
    NothingToCrypt(sb, sk);
    assert text[..0] == [] && buffer[..0] == [];
    while i + 7 < end
      invariant i % 8 == 0 && i <= end && buffer[..i] == CryptAll(sb, sk, text[..i])
    {
      DesCrypt(sb, sk, text, i, buffer, i);
      CryptAllSnoc(sb, sk, text[..i], text[i..i + 8]);
      assert text[..i] + text[i..i + 8] == text[..i + 8];
      assert buffer[..i + 8] == buffer[..i] + buffer[i..i + 8];
      i := i + 8;
    }
  }

  lemma {:induction false} NothingToCrypt(sb: Boxes, sk: Subkeys)
    ensures CryptAll(sb, sk, []) == []
  {
  }

  /** `ldesencode`, for a key already turned into subkeys. */
  method DesEncode(sb: Boxes, sk: Subkeys, text: seq<bv8>) returns (buffer: array<bv8>)
    ensures fresh(buffer) && buffer[..] == Encode(sb, sk, text)
  {
    hide CryptBlock, CryptAll;
    buffer := new bv8[|text| / 8 * 8 + 8];
    var i := CryptBlocks(sb, sk, text, buffer, |text|);
    var bytes, tail := |text| - i, new bv8[8];
    var j := 0;
    while j < 8
      invariant 0 <= j <= 8 && buffer[..i] == CryptAll(sb, sk, text[..i])
      invariant forall k :: 0 <= k < j ==> tail[k] == if k < bytes then text[i + k] else if k == bytes then 0x80 else 0
    {
      tail[j] := if j < bytes then text[i + j] else if j == bytes then 0x80 else 0;
      j := j + 1;
    }
    var last := tail[..];
    PadIs(text, last);
    DesCrypt(sb, sk, last, 0, buffer, i);
    assert last[0..8] == last;
    CryptAllSnoc(sb, sk, text[..i], last);
    assert Pad(text) == text[..i] + last;
    assert buffer[..] == buffer[..i] + buffer[i..i + 8];
    assert buffer[i..i + 8] == CryptBlock(sb, sk, last);
  }

  lemma {:induction false} PadIs(text: seq<bv8>, tail: seq<bv8>)
    requires |tail| == 8
    requires var i := |text| / 8 * 8;
             forall k :: 0 <= k < 8 ==>
               tail[k] == if k < |text| - i then text[i + k] else if k == |text| - i then 0x80 else 0
    ensures Pad(text) == text[..|text| / 8 * 8] + tail
  {
  }

  /** `ldesdecode`, for the subkeys of encryption. */
  method DesDecode(sb: Boxes, esk: Subkeys, text: seq<bv8>) returns (r: Outcome<seq<bv8>>)
    ensures r == Decode(sb, esk, text)
  {
    hide CryptBlock, CryptAll;
    if |text| % 8 != 0 || |text| == 0 {
      return Refused;
    }
    var sk := Reversed(esk);
    var buffer := new bv8[|text|];
    var whole := CryptBlocks(sb, sk, text, buffer, |text|);
    assert text[..whole] == text && buffer[..whole] == buffer[..];
    var padding, i := 1, |text| - 1;
    while i < 0 || i >= |text| - 8
      invariant |text| - 9 <= i < |text| && padding == |text| - i && padding <= 9
      invariant Padding(buffer[..], 1) == Padding(buffer[..], padding)
      decreases i
    {
      if i < 0 {
        return Outside;
      }
      if buffer[i] == 0 {
        padding := padding + 1;
      } else if buffer[i] == 0x80 {
        return Done(buffer[..|text| - padding]);
      } else {
        return Refused;
      }
      i := i - 1;
    }
    return Refused;
  }

  /** A text through `ldesencode` and `ldesdecode` comes back. */
  method EncodeThenDecode(sb: Boxes, sk: Subkeys, text: seq<bv8>) returns (r: Outcome<seq<bv8>>)
    ensures r == Done(text)
  {
    hide Encode, Decode;
    var buffer := DesEncode(sb, sk, text);
    TextRoundTrip(sb, sk, text);
    r := DesDecode(sb, sk, buffer[..]);
  }
}
