/** Machine words, optional values and a few facts that every part of the model uses. */
module Basics {

  type byte = b: int | 0 <= b < 0x100
  type u16 = n: int | 0 <= n < 0x1_0000
  type u32 = n: int | 0 <= n < 0x1_0000_0000
  type i32 = n: int | -0x8000_0000 <= n < 0x8000_0000
  type u64 = n: int | 0 <= n < 0x1_0000_0000_0000_0000

  /** The number of values of a 32-bit word, and of two. */
  const WORD: int := 0x1_0000_0000
  const DWORD: int := 0x1_0000_0000_0000_0000

  datatype Option<T> = None | Some(value: T)

  datatype Result<T> = Err | Ok(value: T)

  /** How decoding ends: refused, with bytes beyond the data read or handed on, or done. */
  datatype Outcome<T> = Refused | Outside | Done(value: T)

  function TwoTo(k: nat): (n: nat)
    ensures n > 0
  {
    if k == 0 then 1 else 2 * TwoTo(k - 1)
  }

  ghost predicate Distinct(s: seq<int>) {
    forall i, j :: 0 <= i < j < |s| ==> s[i] != s[j]
  }

  lemma {:induction false} Regroup<T>(a: seq<T>, b: seq<T>, c: seq<T>)
    ensures a + b + c == a + (b + c)
  {
  }

  /** Conversion to `uint32_t`. */
  function Low32(n: int): u32 {
    n % WORD
  }

  /** Conversion to `uint64_t`. */
  function Low64(n: int): u64 {
    n % DWORD
  }

  lemma {:induction false} LowSmall(n: nat)
    ensures n < WORD ==> Low32(n) == n
    ensures n < DWORD ==> Low64(n) == n
  {
  }

  function Signed32(value: u32): int {
    if value < 0x8000_0000 then value else value - WORD
  }

  function Signed64(value: u64): int {
    if value < 0x8000_0000_0000_0000 then value else value - DWORD
  }

  /** `k` bytes of `n`, least significant first. */
  function LittleEndian(n: nat, k: nat): (s: seq<byte>)
    ensures |s| == k
    decreases k
  {
    if k == 0 then [] else [n % 256] + LittleEndian(n / 256, k - 1)
  }

  function FromLittleEndian(s: seq<byte>): nat {
    if s == [] then 0 else s[0] + 256 * FromLittleEndian(s[1..])
  }

  function TwoFiftySixTo(k: nat): nat {
    if k == 0 then 1 else 256 * TwoFiftySixTo(k - 1)
  }

  lemma {:induction false} LittleEndianBack(n: nat, k: nat)
    requires n < TwoFiftySixTo(k)
    ensures FromLittleEndian(LittleEndian(n, k)) == n
    decreases k
  {
    if k > 0 {
      LittleEndianBack(n / 256, k - 1);
      assert LittleEndian(n, k)[1..] == LittleEndian(n / 256, k - 1);
    }
  }
}
