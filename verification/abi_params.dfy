/**
 * The Solidity contract ABI encoding of a parameter tuple `(T1, ..., Tk)`, as
 * produced by `abi_encode_params` and read back by `abi_decode_params`.
 *
 * The encoding is a head of k words followed by a tail. A static field (`uint256`,
 * `uint8`, `bytes32`) occupies its head word directly. A dynamic field (`bytes`,
 * `string`) puts in its head word the byte offset, from the start of the encoding,
 * of its tail entry; the tail entry is a length word, the bytes themselves and
 * zero right-padding up to a multiple of 32.
 */
module AbiParams {
  import opened Results
  import opened RustTypes
  import opened AbiWord

  /** The Solidity types the ITS payload structs use. */
  datatype SolType = Uint256 | Uint8 | FixedBytes32 | DynamicBytes | String

  /** A field value. `string` values are carried as their UTF-8 bytes, like `bytes`. */
  datatype Value = Uint(n: U256) | Fixed(fixed: Bytes32) | Dynamic(bytes: DynBytes)

  /** `v` is a value of Solidity type `t`. */
  predicate HasType(v: Value, t: SolType) {
    match t
    case Uint256 => v.Uint?
    case Uint8 => v.Uint? && v.n < 256
    case FixedBytes32 => v.Fixed?
    case DynamicBytes => v.Dynamic?
    case String => v.Dynamic?
  }

  predicate WellTyped(vs: seq<Value>, ts: seq<SolType>) {
    |vs| == |ts| && forall i :: 0 <= i < |vs| ==> HasType(vs[i], ts[i])
  }

  /** Every dynamic field of `vs` holds fewer than `limit` bytes. */
  predicate DynamicBelow(vs: seq<Value>, limit: nat) {
    forall i :: 0 <= i < |vs| && vs[i].Dynamic? ==> |vs[i].bytes| < limit
  }

  // ---------------------------------------------------------------------------
  // Layout: a tuple's bytes are one piece per field, laid end to end. These
  // definitions and lemmas take the piece-making function as a parameter, so
  // they speak only about where pieces go, not about what is in them.
  // ---------------------------------------------------------------------------

  /** The pieces `f(vs[0]), f(vs[1]), ...` laid end to end. */
  function Concat(f: Value -> Bytes, vs: seq<Value>): Bytes {
    if |vs| == 0 then [] else f(vs[0]) + Concat(f, vs[1..])
  }

  /** Where the piece of field `i` starts in `Concat(f, vs)`: the total size of the pieces before it. */
  function Offset(f: Value -> Bytes, vs: seq<Value>, i: nat): nat
    requires i <= |vs|
  {
    if i == 0 then 0 else |f(vs[0])| + Offset(f, vs[1..], i - 1)
  }

  /** Slicing inside the right operand of a concatenation. */
  lemma {:induction false} SliceRight(a: Bytes, b: Bytes, lo: nat, hi: nat)
    requires |a| <= lo <= hi <= |a| + |b|
    ensures (a + b)[lo..hi] == b[lo - |a|..hi - |a|]
  {
    assert forall k | 0 <= k < hi - lo :: (a + b)[lo..hi][k] == b[lo - |a| + k];
  }

  /** Slicing inside the left operand of a concatenation. */
  lemma {:induction false} SliceLeft(a: Bytes, b: Bytes, lo: nat, hi: nat)
    requires lo <= hi <= |a|
    ensures (a + b)[lo..hi] == a[lo..hi]
  {
    assert forall k | 0 <= k < hi - lo :: (a + b)[lo..hi][k] == a[lo + k];
  }

  /** A slice of a slice is a slice of the original. */
  lemma {:induction false} SliceOfSlice(s: Bytes, lo: nat, hi: nat, lo': nat, hi': nat)
    requires lo <= hi <= |s| && lo' <= hi' <= hi - lo
    ensures s[lo..hi][lo'..hi'] == s[lo + lo'..lo + hi']
  {
    assert forall k | 0 <= k < hi' - lo' :: s[lo..hi][lo'..hi'][k] == s[lo + lo' + k];
  }

  /** The piece of field `i` sits, whole, at its offset. */
  lemma {:induction false} ConcatAt(f: Value -> Bytes, vs: seq<Value>, i: nat)
    requires i < |vs|
    ensures Offset(f, vs, i) + |f(vs[i])| <= |Concat(f, vs)|
    ensures Concat(f, vs)[Offset(f, vs, i)..Offset(f, vs, i) + |f(vs[i])|] == f(vs[i])
  {
    var first := f(vs[0]);
    var rest := vs[1..];
    var others := Concat(f, rest);
    assert Concat(f, vs) == first + others;
    if i == 0 {
      SliceLeft(first, others, 0, |first|);
    } else {
      ConcatAt(f, rest, i - 1);
      assert rest[i - 1] == vs[i];
      var lo := Offset(f, vs, i);
      SliceRight(first, others, lo, lo + |f(vs[i])|);
    }
  }

  lemma {:induction false} MulSucc(a: nat, b: nat)
    ensures (a + 1) * b == a * b + b
  {
  }

  /** Pieces of at most `bound` bytes each add up to at most `|vs| * bound` bytes. */
  lemma {:induction false} ConcatBound(f: Value -> Bytes, vs: seq<Value>, bound: nat)
    requires forall k :: 0 <= k < |vs| ==> |f(vs[k])| <= bound
    ensures |Concat(f, vs)| <= |vs| * bound
  {
    if |vs| > 0 {
      var rest := vs[1..];
      assert forall k :: 0 <= k < |rest| ==> |f(rest[k])| <= bound by {
        forall k | 0 <= k < |rest|
          ensures |f(rest[k])| <= bound
        {
          assert rest[k] == vs[k + 1];
        }
      }
      ConcatBound(f, rest, bound);
      assert |f(vs[0])| <= bound;
      MulSucc(|rest|, bound);
    }
  }

  /** `h` makes one 32-byte word of every value and offset. */
  ghost predicate WordSized(h: (Value, nat) -> Bytes) {
    forall v, offset :: |h(v, offset)| == 32
  }

  /**
   * One word `h(vs[k], offset_k)` per field, where `offset_k` is `next` plus the
   * sizes of the pieces `f` makes of the fields before `k`.
   */
  function HeadsFrom(h: (Value, nat) -> Bytes, f: Value -> Bytes, vs: seq<Value>, next: nat): (r: Bytes)
    requires WordSized(h)
    ensures |r| == 32 * |vs|
  {
    if |vs| == 0 then [] else h(vs[0], next) + HeadsFrom(h, f, vs[1..], next + |f(vs[0])|)
  }

  /** Word `i` of the heads is the head of field `i`, given the offset of its piece. */
  lemma {:induction false} HeadsAt(h: (Value, nat) -> Bytes, f: Value -> Bytes, vs: seq<Value>, next: nat, i: nat)
    requires WordSized(h) && i < |vs|
    ensures HeadsFrom(h, f, vs, next)[32 * i..32 * i + 32] == h(vs[i], next + Offset(f, vs, i))
  {
    var rest := vs[1..];
    var next' := next + |f(vs[0])|;
    var first := h(vs[0], next);
    var others := HeadsFrom(h, f, rest, next');
    assert HeadsFrom(h, f, vs, next) == first + others;
    if i == 0 {
      SliceLeft(first, others, 0, 32);
    } else {
      HeadsAt(h, f, rest, next', i - 1);
      assert rest[i - 1] == vs[i];
      SliceRight(first, others, 32 * i, 32 * i + 32);
    }
  }

  /** In heads followed by pieces, word `i` is the head word of field `i`. */
  lemma {:induction false} LayoutHeadAt(h: (Value, nat) -> Bytes, f: Value -> Bytes, vs: seq<Value>, i: nat)
    requires WordSized(h) && i < |vs|
    ensures (HeadsFrom(h, f, vs, 32 * |vs|) + Concat(f, vs))[32 * i..32 * i + 32]
         == h(vs[i], 32 * |vs| + Offset(f, vs, i))
  {
    var heads := HeadsFrom(h, f, vs, 32 * |vs|);
    HeadsAt(h, f, vs, 32 * |vs|, i);
    SliceLeft(heads, Concat(f, vs), 32 * i, 32 * i + 32);
  }

  /** In heads followed by pieces, the piece of field `i` sits at the offset its head word holds. */
  lemma {:induction false} LayoutPieceAt(h: (Value, nat) -> Bytes, f: Value -> Bytes, vs: seq<Value>, i: nat)
    requires WordSized(h) && i < |vs|
    ensures 32 * |vs| + Offset(f, vs, i) + |f(vs[i])| <= |HeadsFrom(h, f, vs, 32 * |vs|) + Concat(f, vs)|
    ensures var offset := 32 * |vs| + Offset(f, vs, i);
      (HeadsFrom(h, f, vs, 32 * |vs|) + Concat(f, vs))[offset..offset + |f(vs[i])|] == f(vs[i])
  {
    var heads := HeadsFrom(h, f, vs, 32 * |vs|);
    var offset := 32 * |vs| + Offset(f, vs, i);
    ConcatAt(f, vs, i);
    SliceRight(heads, Concat(f, vs), offset, offset + |f(vs[i])|);
  }

  // ---------------------------------------------------------------------------
  // Encoding.
  // ---------------------------------------------------------------------------

  /** Zero bytes needed after `n` data bytes to reach a word boundary. */
  function PadLength(n: nat): nat {
    (32 - n % 32) % 32
  }

  /** `b` right-padded with zero bytes to a multiple of 32 bytes. */
  function Padded(b: Bytes): Bytes {
    b + Zeros(PadLength(|b|))
  }

  /** The tail entry of a field: length word and padded bytes for a dynamic value; nothing for a static one. */
  function Tail(v: Value): Bytes {
    match v
    case Dynamic(b) => Word(|b|) + Padded(b)
    case _ => []
  }

  /** The head word of a field whose tail entry (if any) starts at byte `offset`. */
  function Head(v: Value, offset: nat): (r: Bytes)
    ensures |r| == 32
  {
    match v
    case Uint(n) => Word(n)
    case Fixed(b) => b
    case Dynamic(_) => Word(offset)
  }

  lemma HeadWordSized()
    ensures WordSized(Head)
  {
    forall v, offset
      ensures |Head(v, offset)| == 32
    {
    }
  }

  /** The tail of the encoding: every field's tail entry, in field order. */
  function Tails(vs: seq<Value>): Bytes {
    Concat(Tail, vs)
  }

  /** The head of the encoding, when the tail starts at byte `next`. */
  function Heads(vs: seq<Value>, next: nat): (r: Bytes)
    ensures |r| == 32 * |vs|
  {
    HeadWordSized();
    HeadsFrom(Head, Tail, vs, next)
  }

  /** Every offset the encoding of `vs` writes fits in a `uint256`. */
  predicate Fits(vs: seq<Value>) {
    32 * |vs| + |Tails(vs)| < WORD_MODULUS
  }

  /** `abi_encode_params`: the tuple's heads followed by its tails. */
  function Encode(vs: seq<Value>): (r: Bytes)
    ensures |r| == 32 * |vs| + |Tails(vs)|
  {
    Heads(vs, 32 * |vs|) + Tails(vs)
  }

  // ---------------------------------------------------------------------------
  // Decoding.
  // ---------------------------------------------------------------------------

  /** The word starting at byte `pos`, if the payload is long enough to hold it. */
  function WordAt(payload: Bytes, pos: nat): (r: Option<U256>)
    ensures r.Some? <==> pos + 32 <= |payload|
  {
    if pos + 32 <= |payload| then
      Some(WordValue(payload[pos..pos + 32]))
    else None
  }

  /**
   * Decodes a dynamic value whose head word is at byte `head`: the head word
   * holds the offset of a length word, which is followed by that many bytes.
   */
  function DecodeDynamic(payload: Bytes, head: nat): (r: Option<DynBytes>)
    ensures r.Some? ==> head + 32 <= |payload| && |r.value| <= |payload|
  {
    match WordAt(payload, head)
    case None => None
    case Some(offset) =>
      match WordAt(payload, offset)
      case None => None
      case Some(len) =>
        if offset + 32 + len <= |payload| then Some(payload[offset + 32..offset + 32 + len]) else None
  }

  /**
   * Decodes field `i` of a tuple as a value of type `t`; `None` when a word it
   * needs lies outside the payload or a `uint8` word is out of range.
   */
  function DecodeField(t: SolType, payload: Bytes, i: nat): (r: Option<Value>)
    ensures r.Some? ==> HasType(r.value, t)
    ensures r.Some? ==> 32 * i + 32 <= |payload|
    ensures r.Some? && r.value.Dynamic? ==> |r.value.bytes| <= |payload|
  {
    var head := 32 * i;
    match t
    case Uint256 =>
      (match WordAt(payload, head)
       case None => None
       case Some(n) => Some(Uint(n)))
    case Uint8 =>
      (match WordAt(payload, head)
       case None => None
       case Some(n) => if n < 256 then Some(Uint(n)) else None)
    case FixedBytes32 =>
      if head + 32 <= |payload| then Some(Fixed(payload[head..head + 32])) else None
    case _ =>
      (match DecodeDynamic(payload, head)
       case None => None
       case Some(b) => Some(Dynamic(b)))
  }

  /** Prepending a value of type `t` to a tuple of types `ts` gives a tuple of types `[t] + ts`. */
  lemma {:induction false} ConsWellTyped(v: Value, vs: seq<Value>, t: SolType, ts: seq<SolType>, limit: nat)
    requires HasType(v, t) && WellTyped(vs, ts)
    requires DynamicBelow(vs, limit) && (v.Dynamic? ==> |v.bytes| < limit)
    ensures WellTyped([v] + vs, [t] + ts)
    ensures DynamicBelow([v] + vs, limit)
  {
    assert forall k :: 1 <= k < 1 + |vs| ==> ([v] + vs)[k] == vs[k - 1];
    assert forall k :: 1 <= k < 1 + |ts| ==> ([t] + ts)[k] == ts[k - 1];
  }

  /** Decodes fields `i..` of a tuple of types `ts`. */
  function DecodeFrom(ts: seq<SolType>, payload: Bytes, i: nat): (r: Option<seq<Value>>)
    requires i <= |ts|
    ensures r.Some? ==> WellTyped(r.value, ts[i..])
    ensures r.Some? ==> DynamicBelow(r.value, |payload| + 1)
    decreases |ts| - i
  {
    if i == |ts| then Some([])
    else
      match DecodeField(ts[i], payload, i)
      case None => None
      case Some(v) =>
        match DecodeFrom(ts, payload, i + 1)
        case None => None
        case Some(rest) =>
          SuffixCons(ts, i);
          ConsWellTyped(v, rest, ts[i], ts[i + 1..], |payload| + 1);
          Some([v] + rest)
  }

  /** `abi_decode_params`: the tuple of types `ts` encoded in `payload`, or `None` if it is malformed. */
  function Decode(ts: seq<SolType>, payload: Bytes): (r: Option<seq<Value>>)
    ensures r.Some? ==> WellTyped(r.value, ts)
    ensures r.Some? ==> DynamicBelow(r.value, |payload| + 1)
  {
    DecodeFrom(ts, payload, 0)
  }

  // ---------------------------------------------------------------------------
  // Round trip.
  // ---------------------------------------------------------------------------

  /** A payload holding the word of `x` at `pos` yields `x` there. */
  lemma {:induction false} WordAtWord(payload: Bytes, pos: nat, x: U256)
    requires pos + 32 <= |payload| && payload[pos..pos + 32] == Word(x)
    ensures WordAt(payload, pos) == Some(x)
  {
    WordRoundTrip(x);
  }

  /** The tail entry of a dynamic value starts with its length word, followed by its bytes. */
  lemma {:induction false} TailParts(b: DynBytes)
    ensures |Tail(Dynamic(b))| >= 32 + |b|
    ensures Tail(Dynamic(b))[..32] == Word(|b|)
    ensures Tail(Dynamic(b))[32..32 + |b|] == b
  {
    var w := Word(|b|);
    var p := Padded(b);
    assert Tail(Dynamic(b)) == w + p;
    SliceLeft(w, p, 0, 32);
    SliceLeft(b, Zeros(PadLength(|b|)), 0, |b|);
    SliceRight(w, p, 32, 32 + |b|);
  }

  /** A static field decodes to the value its head word holds. */
  lemma {:induction false} DecodeStaticField(t: SolType, payload: Bytes, i: nat, v: Value, offset: nat)
    requires HasType(v, t) && !v.Dynamic?
    requires 32 * i + 32 <= |payload| && payload[32 * i..32 * i + 32] == Head(v, offset)
    ensures DecodeField(t, payload, i) == Some(v)
  {
    if v.Uint? {
      WordAtWord(payload, 32 * i, v.n);
    }
  }

  /** A dynamic field whose head word holds `offset`, where a length word and the bytes sit, decodes to those bytes. */
  lemma {:induction false} DecodeDynamicField(t: SolType, payload: Bytes, i: nat, offset: U256, b: DynBytes)
    requires t.DynamicBytes? || t.String?
    requires 32 * i + 32 <= |payload| && payload[32 * i..32 * i + 32] == Word(offset)
    requires offset + 32 + |b| <= |payload|
    requires payload[offset..offset + 32] == Word(|b|)
    requires payload[offset + 32..offset + 32 + |b|] == b
    ensures DecodeField(t, payload, i) == Some(Dynamic(b))
  {
    WordAtWord(payload, 32 * i, offset);
    WordAtWord(payload, offset, |b|);
    assert DecodeDynamic(payload, 32 * i) == Some(b);
  }

  /** Where the tail entry of a dynamic value sits, its length word and its bytes sit. */
  lemma {:induction false} TailEntryParts(payload: Bytes, offset: nat, b: DynBytes)
    requires offset + |Tail(Dynamic(b))| <= |payload|
    requires payload[offset..offset + |Tail(Dynamic(b))|] == Tail(Dynamic(b))
    ensures offset + 32 + |b| <= |payload|
    ensures payload[offset..offset + 32] == Word(|b|)
    ensures payload[offset + 32..offset + 32 + |b|] == b
  {
    var entry := Tail(Dynamic(b));
    TailParts(b);
    SliceOfSlice(payload, offset, offset + |entry|, 0, 32);
    SliceOfSlice(payload, offset, offset + |entry|, 32, 32 + |b|);
  }

  /** Word `i` of the encoding is the head word of field `i`. */
  lemma {:induction false} EncodingHeadAt(vs: seq<Value>, i: nat)
    requires i < |vs|
    ensures Encode(vs)[32 * i..32 * i + 32] == Head(vs[i], 32 * |vs| + Offset(Tail, vs, i))
  {
    HeadWordSized();
    assert Encode(vs) == HeadsFrom(Head, Tail, vs, 32 * |vs|) + Concat(Tail, vs);
    LayoutHeadAt(Head, Tail, vs, i);
  }

  /** The tail entry of field `i` sits in the encoding at the offset its head word holds. */
  lemma {:induction false} EncodingTailAt(vs: seq<Value>, i: nat)
    requires i < |vs|
    ensures 32 * |vs| + Offset(Tail, vs, i) + |Tail(vs[i])| <= |Encode(vs)|
    ensures var offset := 32 * |vs| + Offset(Tail, vs, i);
      Encode(vs)[offset..offset + |Tail(vs[i])|] == Tail(vs[i])
  {
    HeadWordSized();
    assert Encode(vs) == HeadsFrom(Head, Tail, vs, 32 * |vs|) + Concat(Tail, vs);
    LayoutPieceAt(Head, Tail, vs, i);
  }

  /** Decoding field `i` of an encoded tuple gives back that field. */
  lemma {:induction false} DecodeFieldOfEncoding(vs: seq<Value>, ts: seq<SolType>, i: nat)
    requires WellTyped(vs, ts) && Fits(vs) && i < |vs|
    ensures DecodeField(ts[i], Encode(vs), i) == Some(vs[i])
  {
    var offset := 32 * |vs| + Offset(Tail, vs, i);
    EncodingHeadAt(vs, i);
    assert HasType(vs[i], ts[i]);
    if vs[i].Dynamic? {
      EncodingTailAt(vs, i);
      TailEntryParts(Encode(vs), offset, vs[i].bytes);
      DecodeDynamicField(ts[i], Encode(vs), i, offset, vs[i].bytes);
    } else {
      DecodeStaticField(ts[i], Encode(vs), i, vs[i], offset);
    }
  }

  /** One step of tuple decoding: field `i` followed by the fields after it. */
  lemma {:induction false} DecodeFromStep(ts: seq<SolType>, payload: Bytes, i: nat, v: Value, rest: seq<Value>)
    requires i < |ts|
    requires DecodeField(ts[i], payload, i) == Some(v) && DecodeFrom(ts, payload, i + 1) == Some(rest)
    ensures DecodeFrom(ts, payload, i) == Some([v] + rest)
  {
  }

  /** A suffix is its first element followed by the next suffix. */
  lemma {:induction false} SuffixCons<T>(vs: seq<T>, i: nat)
    requires i < |vs|
    ensures vs[i..] == [vs[i]] + vs[i + 1..]
  {
  }

  /** Fields `i..` of an encoded tuple decode to the values they were encoded from. */
  lemma {:induction false} DecodeEncodeFrom(vs: seq<Value>, ts: seq<SolType>, i: nat)
    requires WellTyped(vs, ts) && Fits(vs) && i <= |vs|
    ensures DecodeFrom(ts, Encode(vs), i) == Some(vs[i..])
    decreases |vs| - i
  {
    if i < |vs| {
      DecodeEncodeFrom(vs, ts, i + 1);
      DecodeFieldOfEncoding(vs, ts, i);
      DecodeFromStep(ts, Encode(vs), i, vs[i], vs[i + 1..]);
      SuffixCons(vs, i);
    } else {
      assert vs[i..] == [];
    }
  }

  /** Round trip: `abi_decode_params` inverts `abi_encode_params` on every well-typed tuple. */
  lemma {:induction false} DecodeEncode(vs: seq<Value>, ts: seq<SolType>)
    requires WellTyped(vs, ts) && Fits(vs)
    ensures Decode(ts, Encode(vs)) == Some(vs)
  {
    DecodeEncodeFrom(vs, ts, 0);
    assert vs[0..] == vs;
  }

  /** The first word of an encoded tuple is its first field, when that field is an integer. */
  lemma {:induction false} FirstWordOfEncoding(vs: seq<Value>)
    requires |vs| > 0 && vs[0].Uint?
    ensures |Encode(vs)| >= 32
    ensures Encode(vs)[..32] == Word(vs[0].n)
    ensures WordValue(Encode(vs)[..32]) == vs[0].n
  {
    EncodingHeadAt(vs, 0);
    assert Encode(vs)[..32] == Encode(vs)[0..32];
    WordRoundTrip(vs[0].n);
  }

  // ---------------------------------------------------------------------------
  // Size bounds: tuples whose dynamic fields are not huge always fit.
  // ---------------------------------------------------------------------------

  /** 2^70: comfortably above the encoding of a tuple of a few `usize`-long fields. */
  const SMALL_LIMIT: nat := 0x40_0000_0000_0000_0000

  /** Padding reaches the next word boundary and no further. */
  lemma {:induction false} PadLengthBounds(n: nat)
    ensures PadLength(n) < 32
    ensures (n + PadLength(n)) % 32 == 0
  {
    var q := n / 32;
    var r := n % 32;
    assert n == 32 * q + r;
    if r == 0 {
      assert PadLength(n) == 0;
    } else {
      assert PadLength(n) == 32 - r;
      assert n + PadLength(n) == 32 * (q + 1);
    }
  }

  /** A padded byte string is a whole number of words, less than one word longer than the bytes. */
  lemma {:induction false} PaddedLength(b: Bytes)
    ensures |b| <= |Padded(b)| < |b| + 32
    ensures |Padded(b)| % 32 == 0
  {
    assert |Padded(b)| == |b| + PadLength(|b|);
    PadLengthBounds(|b|);
  }

  /** A tail entry is one word for the length, then the padded bytes. */
  lemma {:induction false} TailLength(v: Value)
    ensures v.Dynamic? ==> 32 + |v.bytes| <= |Tail(v)| < 64 + |v.bytes|
    ensures !v.Dynamic? ==> |Tail(v)| == 0
  {
    if v.Dynamic? {
      assert |Tail(v)| == 32 + |Padded(v.bytes)|;
      PaddedLength(v.bytes);
    }
  }

  lemma {:induction false} TailsBound(vs: seq<Value>, limit: nat)
    requires DynamicBelow(vs, limit)
    ensures |Tails(vs)| <= |vs| * (limit + 64)
  {
    forall k | 0 <= k < |vs|
      ensures |Tail(vs[k])| <= limit + 64
    {
      TailLength(vs[k]);
    }
    ConcatBound(Tail, vs, limit + 64);
  }

  /** A tuple of at most eight fields, each dynamic one under 2^70 bytes, has every offset inside a `uint256`. */
  lemma {:induction false} SmallTupleFits(vs: seq<Value>)
    requires |vs| <= 8 && DynamicBelow(vs, SMALL_LIMIT)
    ensures Fits(vs)
  {
    TailsBound(vs, SMALL_LIMIT);
  }

  /** A tuple of at most eight fields, each dynamic one a Rust slice, encodes to fewer than 2^70 bytes. */
  lemma {:induction false} SliceTupleEncodingSmall(vs: seq<Value>)
    requires |vs| <= 8 && DynamicBelow(vs, USIZE_LIMIT)
    ensures Fits(vs)
    ensures |Encode(vs)| < SMALL_LIMIT
  {
    TailsBound(vs, USIZE_LIMIT);
  }
}
