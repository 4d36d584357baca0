/**
 * Generic helpers of the differ: optional comparison and minimum, optional
 * mapping, clamped slicing, the Murmur3-style hash and hex formatting.
 * `size_t` arithmetic is modelled on `nat` with explicit wrap-around where
 * the differ relies on it.
 */
module Utility {
  import opened Wrappers

  /** Number of distinct `size_t` values (64-bit platforms). */
  const SIZE_MODULUS: nat := 0x1_0000_0000_0000_0000
  /** `SIZE_MAX`, i.e. `(size_t)-1`. */
  const SIZE_MAX: nat := SIZE_MODULUS - 1

  function Min(a: int, b: int): (r: int)
    ensures r <= a && r <= b && (r == a || r == b)
  {
    if a <= b then a else b
  }

  function Max(a: int, b: int): (r: int)
    ensures r >= a && r >= b && (r == a || r == b)
  {
    if a >= b then a else b
  }

  /** `a - b` on `size_t`: wraps around below zero. */
  function SizeSub(a: nat, b: nat): (r: nat)
    ensures r <= SIZE_MAX
    ensures b <= a <= SIZE_MAX ==> r == a - b
    ensures a < b && b - a <= SIZE_MODULUS ==> r == SIZE_MODULUS - (b - a)
  {
    (a - b) % SIZE_MODULUS
  }

  /** `n - 1` on `size_t`: zero wraps around to `SIZE_MAX`. */
  function SizeDec(n: nat): (r: nat)
    ensures n == 0 ==> r == SIZE_MAX
    ensures n > 0 ==> r == n - 1
  {
    if n == 0 then SIZE_MAX else n - 1
  }

  /** `a + b` on `size_t`: wraps around past `SIZE_MAX`. */
  function SizeAdd(a: nat, b: nat): (r: nat)
    ensures r <= SIZE_MAX
    ensures a + b <= SIZE_MAX ==> r == a + b
    ensures SIZE_MAX < a + b < 2 * SIZE_MODULUS ==> r == a + b - SIZE_MODULUS
  {
    (a + b) % SIZE_MODULUS
  }

  /** `a * b` on `size_t`: wraps around modulo 2^64. */
  function SizeMul(a: nat, b: nat): (r: nat)
    ensures r <= SIZE_MAX
    ensures a * b <= SIZE_MAX ==> r == a * b
  {
    (a * b) % SIZE_MODULUS
  }

  // ---------------------------------------------------------------------
  // Optional comparison, minimum and mapping
  // ---------------------------------------------------------------------

  /**
   * Strict "less than" on optional values in which an absent value behaves
   * as +infinity: absent is never less, present is less than absent.
   */
  function CmpOptionals(a: Option<nat>, b: Option<nat>): (r: bool)
    ensures r ==> a.Some?
    ensures a.Some? && b.None? ==> r
    ensures a.Some? && b.Some? ==> (r <==> a.value < b.value)
  {
    if a.None? then false
    else if b.None? then true
    else a.value < b.value
  }

  /** The comparison is a strict order: irreflexive and transitive. */
  lemma CmpOptionalsIsStrictOrder(a: Option<nat>, b: Option<nat>, c: Option<nat>)
    ensures !CmpOptionals(a, a)
    ensures CmpOptionals(a, b) ==> !CmpOptionals(b, a)
    ensures CmpOptionals(a, b) && CmpOptionals(b, c) ==> CmpOptionals(a, c)
  {
  }

  /** Two-way minimum by a comparator; ties go to the second argument. */
  function Min2<T>(t1: T, t2: T, cmp: (T, T) -> bool): (r: T)
    ensures cmp(t1, t2) ==> r == t1
    ensures !cmp(t1, t2) ==> r == t2
  {
    if cmp(t1, t2) then t1 else t2
  }

  /** Three-way minimum by a comparator, folding through the two-way one. */
  function Min3<T>(t1: T, t2: T, t3: T, cmp: (T, T) -> bool): (r: T)
    ensures r == t1 || r == t2 || r == t3
  {
    if cmp(t1, t2) then Min2(t1, t3, cmp) else Min2(t2, t3, cmp)
  }

  /**
   * With the optional comparison, the three-way minimum is a least element:
   * no argument is strictly less than it, and it is absent exactly when all
   * three arguments are absent.
   */
  lemma Min3OptionalsIsLeast(a: Option<nat>, b: Option<nat>, c: Option<nat>)
    ensures var r := Min3(a, b, c, CmpOptionals);
      && !CmpOptionals(a, r) && !CmpOptionals(b, r) && !CmpOptionals(c, r)
      && (r.None? <==> a.None? && b.None? && c.None?)
  {
  }

  /** Maps a present value through `f`; keeps an absent value absent. */
  function Apply(value: Option<nat>, f: nat -> nat): (r: Option<nat>)
    ensures r.Some? <==> value.Some?
    ensures r.Some? ==> r.value == f(value.value)
  {
    match value
    case None => None
    case Some(v) => Some(f(v))
  }

  // ---------------------------------------------------------------------
  // Clamped slicing
  // ---------------------------------------------------------------------

  /**
   * Copy of `data[from .. to)`, clamped: empty when `from` is past the end
   * or `to < from`, and `to` is cut down to the size of `data`.
   */
  function VectorSlice<T>(data: seq<T>, from: nat, to: nat): (r: seq<T>)
    ensures from >= |data| || to < from ==> r == []
    ensures from < |data| && from <= to ==> |r| == Min(to, |data|) - from
    ensures forall k :: 0 <= k < |r| ==> from + k < |data| && r[k] == data[from + k]
  {
    if from >= |data| then []
    else if to < from then []
    else data[from .. Min(to, |data|)]
  }

  /** The elements in reverse order (`std::list::reverse`). */
  function Reversed<T>(xs: seq<T>): (r: seq<T>)
    ensures |r| == |xs|
    ensures forall k :: 0 <= k < |xs| ==> r[k] == xs[|xs| - 1 - k]
  {
    if xs == [] then [] else [xs[|xs| - 1]] + Reversed(xs[..|xs| - 1])
  }

  /** Reversing after appending puts the appended element first. */
  lemma ReversedAppend<T>(xs: seq<T>, x: T)
    ensures Reversed(xs + [x]) == [x] + Reversed(xs)
  {
    assert (xs + [x])[..|xs + [x]| - 1] == xs;
  }

  // ---------------------------------------------------------------------
  // Murmur3-style hash over C++ `char` collections
  // ---------------------------------------------------------------------

  /** Promotion of a (signed) C++ `char` to a 32-bit unsigned value. */
  function SignExtend(b: bv8): (r: bv32)
    ensures b < 0x80 ==> r as nat == b as nat
    ensures b >= 0x80 ==> r as nat == 0xFFFF_FF00 + b as nat
  {
    if b < 0x80 then b as bv32 else (b as bv32) | 0xFFFF_FF00
  }

  /** The low byte of a character: what the C++ `char` holds. */
  function CharToByte(c: char): bv8 {
    ((c as int) % 256) as bv8
  }

  /** The bytes of a string. */
  function Bytes(s: string): (r: seq<bv8>)
    ensures |r| == |s|
    ensures forall k :: 0 <= k < |s| ==> r[k] == CharToByte(s[k])
  {
    seq(|s|, k requires 0 <= k < |s| => CharToByte(s[k]))
  }

  const MURMUR_SEED: bv32 := 0x5aa6
  const SCRAMBLE_C1: bv32 := 0xcc9e2d51
  const SCRAMBLE_C2: bv32 := 0x1b873593
  const SCRAMBLE_N: bv32 := 0xe6546b64
  /** The padding character `'x'` used for an odd tail. */
  const PAD_BYTE: bv8 := 0x78

  /** Two chars packed into one 32-bit block, each promoted as a signed `char`. */
  function Pack(lo: bv8, hi: bv8): bv32 {
    SignExtend(lo) | (SignExtend(hi) << 8)
  }

  /** The block read at `idx`: two chars, the second padded with `'x'` past the end. */
  function Block(bytes: seq<bv8>, idx: nat): bv32
    requires idx < |bytes|
  {
    Pack(bytes[idx], if idx + 1 < |bytes| then bytes[idx + 1] else PAD_BYTE)
  }

  function Scramble(k: bv32): bv32 {
    var k1 := k ^ SCRAMBLE_C1;
    var k2 := (k1 << 15) | (k1 >> 17);
    k2 ^ SCRAMBLE_C2
  }

  /** One round of the hash: fold the scrambled block into the state. */
  function MixRound(hash: bv32, k: bv32): bv32 {
    var h1 := hash ^ Scramble(k);
    var h2 := (h1 << 13) | (h1 >> 19);
    (h2 ^ 5) + SCRAMBLE_N
  }

  /** The rounds from position `idx` on, two chars per round. */
  function RoundsFrom(bytes: seq<bv8>, idx: nat, hash: bv32): bv32 {
    RoundsWith(MixRound, bytes, idx, hash)
  }

  /**
   * The rounds from position `idx` on with the mixing step `mix`: the
   * order in which blocks are read does not depend on how they are mixed.
   */
  function RoundsWith(mix: (bv32, bv32) -> bv32, bytes: seq<bv8>, idx: nat, hash: bv32): bv32
    decreases |bytes| - idx
  {
    if idx >= |bytes| then hash
    else RoundsWith(mix, bytes, Min(idx + 2, |bytes|), mix(hash, Block(bytes, idx)))
  }

  /** Final avalanche, mixing in the number of chars consumed. */
  function Finalize(hash: bv32, count: nat): bv32 {
    var h0 := hash ^ ((count % 0x1_0000_0000) as bv32);
    var h1 := h0 ^ (h0 >> 16);
    var h2 := h1 * 0x85ebca6b;
    var h3 := h2 ^ (h2 >> 13);
    var h4 := h3 * 0xc2b2ae35;
    h4 ^ (h4 >> 16)
  }

  /** The hash value of a collection of chars; 0 for an empty one. */
  function Murmur3Hash(bytes: seq<bv8>): bv32 {
    if |bytes| == 0 then 0 else Finalize(RoundsFrom(bytes, 0, MURMUR_SEED), |bytes|)
  }

  /** The hash loop: two chars per round, the index clamped to the size. */
  method Murmur3(collection: seq<bv8>) returns (hash: bv32)
    ensures hash == Murmur3Hash(collection)
    ensures |collection| == 0 ==> hash == 0
  {
    if |collection| == 0 {
      return 0;
    }
    var idx: nat := 0;
    hash := MURMUR_SEED;
    while idx < |collection|
      invariant idx <= |collection|
      invariant RoundsFrom(collection, idx, hash) == RoundsFrom(collection, 0, MURMUR_SEED)
      decreases |collection| - idx
    {
      var k := Pack(collection[idx], if idx + 1 < |collection| then collection[idx + 1] else PAD_BYTE);
      hash := MixRound(hash, k);
      idx := idx + 2;
      if idx > |collection| {
        idx := |collection|;
      }
    }
    assert idx == |collection|;
    hash := Finalize(hash, idx);
  }

  /**
   * An odd tail is padded with `'x'`: the rounds over a collection of odd
   * length are those over the collection with one `'x'` appended.
   */
  lemma {:induction false} RoundsPadOddTail(mix: (bv32, bv32) -> bv32, bytes: seq<bv8>, idx: nat, hash: bv32)
    requires |bytes| % 2 == 1 && idx % 2 == 0 && idx <= |bytes|
    ensures RoundsWith(mix, bytes, idx, hash) == RoundsWith(mix, bytes + [PAD_BYTE], idx, hash)
    decreases |bytes| - idx
  {
    if idx + 1 == |bytes| {
      RoundsPadLast(mix, bytes, hash);
    } else {
      var padded := bytes + [PAD_BYTE];
      assert padded[idx] == bytes[idx] && padded[idx + 1] == bytes[idx + 1];
      var block := Pack(bytes[idx], bytes[idx + 1]);
      assert Block(bytes, idx) == block == Block(padded, idx);
      RoundsPadOddTail(mix, bytes, idx + 2, mix(hash, block));
    }
  }

  /** The last, single char of a collection is read as a block padded with `'x'`. */
  lemma RoundsPadLast(mix: (bv32, bv32) -> bv32, bytes: seq<bv8>, hash: bv32)
    requires |bytes| >= 1
    ensures RoundsWith(mix, bytes, |bytes| - 1, hash) == RoundsWith(mix, bytes + [PAD_BYTE], |bytes| - 1, hash)
  {
    var padded := bytes + [PAD_BYTE];
    var idx := |bytes| - 1;
    assert padded[idx] == bytes[idx] && padded[idx + 1] == PAD_BYTE;
    assert Block(bytes, idx) == Block(padded, idx);
    var h' := mix(hash, Block(bytes, idx));
    assert RoundsWith(mix, bytes, idx, hash) == RoundsWith(mix, bytes, |bytes|, h') == h';
    assert RoundsWith(mix, padded, idx, hash) == RoundsWith(mix, padded, |padded|, h') == h';
  }

  /** The hash of an odd-length collection equals the padded rounds, finalised with the true length. */
  lemma Murmur3PadsOddTail(bytes: seq<bv8>)
    requires |bytes| % 2 == 1
    ensures Murmur3Hash(bytes) == Finalize(RoundsFrom(bytes + [PAD_BYTE], 0, MURMUR_SEED), |bytes|)
  {
    RoundsPadOddTail(MixRound, bytes, 0, MURMUR_SEED);
  }

  /**
   * The hash consumes two chars per round: on an even-length prefix,
   * appending two more chars adds exactly one round.
   */
  lemma {:induction false} RoundsAppendPair(mix: (bv32, bv32) -> bv32, bytes: seq<bv8>, x: bv8, y: bv8, idx: nat, hash: bv32)
    requires |bytes| % 2 == 0 && idx % 2 == 0 && idx <= |bytes|
    ensures RoundsWith(mix, bytes + [x, y], idx, hash) == mix(RoundsWith(mix, bytes, idx, hash), Pack(x, y))
    decreases |bytes| - idx
  {
    var longer := bytes + [x, y];
    if idx == |bytes| {
      assert longer[idx] == x && longer[idx + 1] == y;
      assert Block(longer, idx) == Pack(x, y);
    } else {
      assert idx + 1 < |bytes|;
      assert longer[idx] == bytes[idx] && longer[idx + 1] == bytes[idx + 1];
      assert Block(longer, idx) == Block(bytes, idx);
      RoundsAppendPair(mix, bytes, x, y, idx + 2, mix(hash, Block(bytes, idx)));
    }
  }

  // ---------------------------------------------------------------------
  // Hex formatting
  // ---------------------------------------------------------------------

  function HexDigit(d: nat): (c: char)
    requires d < 16
    ensures IsHexDigit(c) && HexValue(c) == d
  {
    if d < 10 then ('0' as int + d) as char else ('a' as int + d - 10) as char
  }

  predicate IsHexDigit(c: char) {
    '0' <= c <= '9' || 'a' <= c <= 'f'
  }

  function HexValue(c: char): nat
    requires IsHexDigit(c)
  {
    if '0' <= c <= '9' then c as int - '0' as int else c as int - 'a' as int + 10
  }

  /** Lower-case hex digits of `n`, without leading zeros ("0" for zero). */
  function ToHex(n: nat): (r: string)
    ensures |r| >= 1 && forall k :: 0 <= k < |r| ==> IsHexDigit(r[k])
    decreases n
  {
    if n < 16 then [HexDigit(n)] else ToHex(n / 16) + [HexDigit(n % 16)]
  }

  /** Zero-padding to a minimal width, like `std::setfill('0') << std::setw(width)`. */
  function PadLeft(s: string, width: nat): (r: string)
    ensures |r| == Max(|s|, width)
    ensures r[|r| - |s|..] == s
    ensures forall k :: 0 <= k < |r| - |s| ==> r[k] == '0'
  {
    if |s| >= width then s else seq(width - |s|, _ => '0') + s
  }

  /**
   * `"0x"` followed by the hex digits of the 32-bit pattern `bits`,
   * zero-padded to `width` (the width is `2 * sizeof(T)` of the formatted type).
   */
  function NumberToHexString(bits: bv32, width: nat): (r: string)
    ensures |r| >= 2 + width && r[..2] == "0x"
    ensures forall k :: 2 <= k < |r| ==> IsHexDigit(r[k])
  {
    "0x" + PadLeft(ToHex(bits as nat), width)
  }

  /** Hex of a C++ `char`: it is promoted to `int` (sign-extended) first. */
  function ByteToHexString(b: bv8): string {
    NumberToHexString(SignExtend(b), 2)
  }

  /** Hex of a 32-bit unsigned value. */
  function U32ToHexString(h: bv32): string {
    NumberToHexString(h, 8)
  }

  /** Value of a string of hex digits (the empty string reads as 0). */
  function ParseHex(s: string): nat
    requires forall k :: 0 <= k < |s| ==> IsHexDigit(s[k])
  {
    if s == [] then 0 else ParseHex(s[..|s| - 1]) * 16 + HexValue(s[|s| - 1])
  }

  lemma {:induction false} ParseHexOfToHex(n: nat)
    ensures ParseHex(ToHex(n)) == n
    decreases n
  {
    if n >= 16 {
      var s := ToHex(n);
      assert s[..|s| - 1] == ToHex(n / 16);
      ParseHexOfToHex(n / 16);
    }
  }

  lemma {:induction false} ParseHexIgnoresLeadingZeros(zeros: string, s: string)
    requires forall k :: 0 <= k < |zeros| ==> zeros[k] == '0'
    requires forall k :: 0 <= k < |s| ==> IsHexDigit(s[k])
    ensures forall k :: 0 <= k < |zeros + s| ==> IsHexDigit((zeros + s)[k])
    ensures ParseHex(zeros + s) == ParseHex(s)
    decreases |s|
  {
    if s == [] {
      ParseHexOfZeros(zeros);
      assert zeros + s == zeros;
    } else {
      var init := s[..|s| - 1];
      assert (zeros + s)[..|zeros + s| - 1] == zeros + init;
      ParseHexIgnoresLeadingZeros(zeros, init);
    }
  }

  lemma {:induction false} ParseHexOfZeros(zeros: string)
    requires forall k :: 0 <= k < |zeros| ==> zeros[k] == '0'
    ensures ParseHex(zeros) == 0
    decreases |zeros|
  {
    if zeros != [] {
      ParseHexOfZeros(zeros[..|zeros| - 1]);
    }
  }

  /** Reading the digits after `"0x"` back gives the formatted bit pattern. */
  lemma HexStringRoundTrip(bits: bv32, width: nat)
    ensures var r := NumberToHexString(bits, width);
      ParseHex(r[2..]) == bits as nat
  {
    var digits := ToHex(bits as nat);
    var padded := PadLeft(digits, width);
    assert NumberToHexString(bits, width)[2..] == padded;
    var zeros := padded[..|padded| - |digits|];
    assert padded == zeros + digits;
    ParseHexIgnoresLeadingZeros(zeros, digits);
    ParseHexOfToHex(bits as nat);
  }

  /** Distinct 32-bit values have distinct hex strings. */
  lemma U32ToHexStringInjective(a: bv32, b: bv32)
    requires U32ToHexString(a) == U32ToHexString(b)
    ensures a == b
  {
    HexStringRoundTrip(a, 8);
    HexStringRoundTrip(b, 8);
    assert a as nat == b as nat;
    assert a == (a as nat) as bv32 && b == (b as nat) as bv32;
  }
}
