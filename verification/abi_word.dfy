/**
 * Bytes and 32-byte big-endian words, the unit of the Solidity contract ABI
 * encoding ("Formal Specification of the Encoding": every `uint<M>` is padded
 * on the left to 32 bytes, most significant byte first).
 */
module AbiWord {
  import opened RustTypes

  /** Number of bytes in one ABI word. */
  const WORD_SIZE: nat := 32

  /** 2^256: every `uint256` is below this. */
  const WORD_MODULUS: nat := 0x1_0000_0000_0000_0000_0000_0000_0000_0000_0000_0000_0000_0000_0000_0000_0000_0000

  /** A `uint256`. */
  type U256 = x: nat | x < WORD_MODULUS

  /** A `u8` / `uint8`. */
  type U8 = x: nat | x < 256

  /** A `bytes32` / `FixedBytes<32>`. */
  type Bytes32 = b: Bytes | |b| == 32 witness seq(32, _ => 0)

  /** A byte string whose length fits in the length word of a dynamic ABI value. */
  type DynBytes = b: Bytes | |b| < WORD_MODULUS

  /** 256^n, the number of values an n-byte big-endian integer can take. */
  function Pow256(n: nat): (r: nat)
    ensures r >= 1
  {
    if n == 0 then 1 else 256 * Pow256(n - 1)
  }

  lemma {:induction false} Pow256Add(a: nat, b: nat)
    ensures Pow256(a + b) == Pow256(a) * Pow256(b)
  {
    if a > 0 {
      Pow256Add(a - 1, b);
      assert Pow256(a + b) == 256 * Pow256(a - 1 + b);
    }
  }

  /** The word width used by `ToBigEndian(_, 32)` is exactly 2^256. */
  lemma Pow256Word()
    ensures Pow256(WORD_SIZE) == WORD_MODULUS
  {
    assert Pow256(4) == 0x1_0000_0000;
    Pow256Add(4, 4);
    Pow256Add(8, 8);
    Pow256Add(16, 16);
  }

  /** `n` zero bytes: the right-padding of a dynamic `bytes`/`string` value. */
  function Zeros(n: nat): (r: Bytes)
    ensures |r| == n
    ensures forall i :: 0 <= i < n ==> r[i] == 0
  {
    seq(n, _ => 0)
  }

  /** The low `n` bytes of `x`, most significant first (all of `x` when `x < 256^n`). */
  function ToBigEndian(x: nat, n: nat): (r: Bytes)
    ensures |r| == n
  {
    if n == 0 then [] else ToBigEndian(x / 256, n - 1) + [x % 256]
  }

  /** The unsigned integer a big-endian byte string denotes. */
  function FromBigEndian(s: Bytes): (r: nat)
    ensures r < Pow256(|s|)
  {
    if |s| == 0 then 0 else FromBigEndian(s[..|s| - 1]) * 256 + s[|s| - 1]
  }

  lemma {:induction false} FromToBigEndian(x: nat, n: nat)
    requires x < Pow256(n)
    ensures FromBigEndian(ToBigEndian(x, n)) == x
  {
    if n > 0 {
      var q := x / 256;
      var s := ToBigEndian(x, n);
      assert s == ToBigEndian(q, n - 1) + [x % 256];
      assert s[..n - 1] == ToBigEndian(q, n - 1);
      assert q < Pow256(n - 1);
      FromToBigEndian(q, n - 1);
      assert FromBigEndian(s) == q * 256 + x % 256;
    }
  }

  lemma {:induction false} ToFromBigEndian(s: Bytes)
    ensures ToBigEndian(FromBigEndian(s), |s|) == s
  {
    if |s| > 0 {
      var n := |s|;
      var f := FromBigEndian(s[..n - 1]);
      ToFromBigEndian(s[..n - 1]);
      assert (f * 256 + s[n - 1]) / 256 == f;
      assert (f * 256 + s[n - 1]) % 256 == s[n - 1];
      assert s == s[..n - 1] + [s[n - 1]];
    }
  }

  /**
   * The 32-byte ABI encoding of a `uint256` (and of any shorter `uint<M>`). A number
   * of 2^256 or more keeps only its low 256 bits, as a cast to `uint256` would.
   */
  function Word(x: nat): (r: Bytes)
    ensures |r| == WORD_SIZE
  {
    ToBigEndian(x, WORD_SIZE)
  }

  /** The `uint256` a 32-byte word holds. */
  function WordValue(w: Bytes): (r: U256)
    requires |w| == WORD_SIZE
  {
    Pow256Word();
    FromBigEndian(w)
  }

  /** Reading back a written word gives the original number. */
  lemma {:induction false} WordRoundTrip(x: U256)
    ensures WordValue(Word(x)) == x
  {
    Pow256Word();
    FromToBigEndian(x, WORD_SIZE);
  }

  /** Every 32-byte word is the encoding of the number it holds: words and `uint256`s are in bijection. */
  lemma {:induction false} WordOfValue(w: Bytes)
    requires |w| == WORD_SIZE
    ensures Word(WordValue(w)) == w
  {
    Pow256Word();
    ToFromBigEndian(w);
  }
}
