/**
  Perceptual hashes as bit vectors: the hexadecimal rendering that `str(hash)`
  produces and `hex_to_hash` reads back, and the Hamming distance that the
  subtraction of two hashes computes.
 */
module HashBits {
  import opened Wrappers

  type Bits = seq<bool>

  /** Width of every hash the four algorithms produce at their default size (8 x 8). */
  const HashWidth: nat := 64

  type Hash = b: Bits | |b| == HashWidth witness seq(64, _ => false)

  /** Value of one hexadecimal digit, in either case, or None for any other character. */
  function HexValue(c: char): (v: Option<nat>)
    ensures v.Some? ==> v.value < 16
  {
    if '0' <= c <= '9' then Some(c as int - '0' as int)
    else if 'a' <= c <= 'f' then Some(c as int - 'a' as int + 10)
    else if 'A' <= c <= 'F' then Some(c as int - 'A' as int + 10)
    else None
  }

  /** The lower-case digit for a nibble value, as the hash's string form writes it. */
  function HexChar(v: nat): (c: char)
    requires v < 16
    ensures HexValue(c) == Some(v)
  {
    if v < 10 then ('0' as int + v) as char else ('a' as int + v - 10) as char
  }

  /** The four bits of a nibble, most significant first. */
  function NibbleBits(v: nat): (b: Bits)
    requires v < 16
    ensures |b| == 4
  {
    [v >= 8, v % 8 >= 4, v % 4 >= 2, v % 2 == 1]
  }

  function NibbleValue(b: Bits): (v: nat)
    requires |b| == 4
    ensures v < 16 && NibbleBits(v) == b
  {
    (if b[0] then 8 else 0) + (if b[1] then 4 else 0) + (if b[2] then 2 else 0) + (if b[3] then 1 else 0)
  }

  /** `str(hash)`: one lower-case hex digit per four bits, most significant bits first. */
  function BitsToHex(b: Bits): (s: string)
    requires |b| % 4 == 0
    ensures |s| == |b| / 4
  {
    if b == [] then "" else [HexChar(NibbleValue(b[..4]))] + BitsToHex(b[4..])
  }

  function DecodeDigits(s: string): (r: Option<Bits>)
    ensures r.Some? <==> forall i :: 0 <= i < |s| ==> HexValue(s[i]).Some?
    ensures r.Some? ==> |r.value| == 4 * |s|
  {
    if s == [] then Some([])
    else
      var head, rest := HexValue(s[0]), DecodeDigits(s[1..]);
      assert forall i :: 1 <= i < |s| ==> s[i] == s[1..][i - 1];
      if head.Some? && rest.Some? then Some(NibbleBits(head.value) + rest.value) else None
  }

  /** `int(numpy.sqrt(n))`: the largest k whose square is at most n. */
  function IntSqrt(n: nat): nat
  {
    SqrtFrom(n, 0)
  }

  /** Search upward from k, whose square is known to be at most n. */
  function SqrtFrom(n: nat, k: nat): nat
    requires k * k <= n
    decreases n - k
  {
    if n < (k + 1) * (k + 1) then k
    else
      SquareAtLeast(k + 1);
      SqrtFrom(n, k + 1)
  }

  /** The root found is the largest k with k * k <= n, and it is positive for positive n. */
  lemma IntSqrtBounds(n: nat)
    ensures IntSqrt(n) * IntSqrt(n) <= n < (IntSqrt(n) + 1) * (IntSqrt(n) + 1)
    ensures 1 <= n ==> 1 <= IntSqrt(n)
  {
    SqrtFromBounds(n, 0);
  }

  lemma {:induction false} SqrtFromBounds(n: nat, k: nat)
    requires k * k <= n
    ensures SqrtFrom(n, k) * SqrtFrom(n, k) <= n < (SqrtFrom(n, k) + 1) * (SqrtFrom(n, k) + 1)
    ensures k <= SqrtFrom(n, k)
    decreases n - k
  {
    if (k + 1) * (k + 1) <= n {
      SquareAtLeast(k + 1);
      SqrtFromBounds(n, k + 1);
    }
  }

  lemma SquareAtLeast(m: nat)
    ensures m <= m * m
  {
    if m > 0 {
      assert m * m == m * (m - 1) + m;
    }
  }

  lemma SquareMonotone(a: nat, b: nat)
    requires a <= b
    ensures a * a <= b * b
  {
    assert a * a <= a * b by {
      assert a * b - a * a == a * (b - a);
    }
    assert a * b <= b * b by {
      assert b * b - a * b == b * (b - a);
    }
  }

  /** The integer square root is the one k with k * k <= n < (k + 1) * (k + 1). */
  lemma SqrtUnique(n: nat, k: nat)
    requires k * k <= n < (k + 1) * (k + 1)
    ensures IntSqrt(n) == k
  {
    var r := IntSqrt(n);
    IntSqrtBounds(n);
    if r < k {
      SquareMonotone(r + 1, k);
    } else if r > k {
      SquareMonotone(k + 1, r);
    }
  }

  predicate IsSquare(n: nat)
  {
    IntSqrt(n) * IntSqrt(n) == n
  }

  /** `len` bits cut into rows of `size` bits leave no shorter last row (no row fits in size 0). */
  predicate WholeRows(len: nat, size: nat)
  {
    if size == 0 || len < size then len == 0 else WholeRows(len - size, size)
  }

  lemma {:induction false} SquareWholeRows(k: nat, n: nat)
    requires n > 0
    ensures WholeRows(k * n, n)
  {
    if k > 0 {
      assert k * n == (k - 1) * n + n;
      SquareWholeRows(k - 1, n);
    }
  }

  function Zeros(n: nat): Bits
  {
    seq(n, _ => false)
  }

  /** The binary digits of a number without leading zeros, as `'{:b}'` prints them (none for zero). */
  function StripZeros(b: Bits): Bits
  {
    if b == [] || b[0] then b else StripZeros(b[1..])
  }

  /** Stripping removes only leading zeros, and leaves none. */
  lemma {:induction false} StripZerosSpec(b: Bits)
    ensures |StripZeros(b)| <= |b|
    ensures StripZeros(b) == [] || StripZeros(b)[0]
    ensures b == Zeros(|b| - |StripZeros(b)|) + StripZeros(b)
  {
    if b != [] && !b[0] {
      var r := StripZeros(b[1..]);
      StripZerosSpec(b[1..]);
      assert Zeros(|b| - |r|) == [false] + Zeros(|b| - 1 - |r|);
      assert b == [b[0]] + b[1..];
    } else {
      assert Zeros(0) + b == b;
    }
  }

  /** `'{:0>{width}b}'`: left-padded with zeros to at least `width` digits. */
  function PadTo(b: Bits, width: nat): Bits
  {
    if |b| < width then Zeros(width - |b|) + b else b
  }

  /** Padding adds only leading zeros, up to the width and no further. */
  lemma PadToSpec(b: Bits, width: nat)
    ensures |PadTo(b, width)| == if |b| < width then width else |b|
    ensures PadTo(b, width) == Zeros(|PadTo(b, width)| - |b|) + b
  {
    assert Zeros(0) + b == b;
  }

  /**
    `hex_to_hash`: the value of the digits, printed in binary and zero-padded
    to `hash_size * hash_size` bits, where `hash_size = int(sqrt(4 * len(s)))`,
    then cut into rows of `hash_size` bits. Parsing an empty string or a
    non-hexadecimal character raises, and so does a last row shorter than the
    others (a value wider than the square whose width is no multiple of
    `hash_size`); each is modelled as None.
   */
  function HexToBits(s: string): (r: Option<Bits>)
  {
    if s == [] then None
    else match DecodeDigits(s)
      case None => None
      case Some(digits) =>
        var size := IntSqrt(4 * |s|);
        var bits := PadTo(StripZeros(digits), size * size);
        if WholeRows(|bits|, size) then Some(bits) else None
  }

  /**
    A string parses exactly when it is non-empty, every character is a
    hexadecimal digit, and its value fits the square or fills whole rows.
   */
  lemma HexToBitsAccepts(s: string)
    ensures HexToBits(s).Some? <==>
      && s != []
      && (forall i :: 0 <= i < |s| ==> HexValue(s[i]).Some?)
      && var n, v := IntSqrt(4 * |s|), |StripZeros(DecodeDigits(s).value)|;
         v <= n * n || WholeRows(v, n)
  {
    if s != [] && DecodeDigits(s).Some? {
      var n := IntSqrt(4 * |s|);
      IntSqrtBounds(4 * |s|);
      SquareAtLeast(n);
      var sq: nat := n * n;
      var t := StripZeros(DecodeDigits(s).value);
      var bits := PadTo(t, sq);
      PadToSpec(t, sq);
      assert HexToBits(s) == if WholeRows(|bits|, n) then Some(bits) else None;
      if |t| <= sq {
        SquareWholeRows(n, n);
      }
    }
  }

  /**
    A parsed hash has the value of its digits, and is `hash_size * hash_size`
    bits wide unless the value needs more.
   */
  lemma HexToBitsValue(s: string)
    requires HexToBits(s).Some?
    ensures DecodeDigits(s).Some?
    ensures StripZeros(HexToBits(s).value) == StripZeros(DecodeDigits(s).value)
    ensures var n, v := IntSqrt(4 * |s|), |StripZeros(DecodeDigits(s).value)|;
      |HexToBits(s).value| == if v <= n * n then n * n else v
  {
    var n := IntSqrt(4 * |s|);
    SquareAtLeast(n);
    var sq: nat := n * n;
    var t := StripZeros(DecodeDigits(s).value);
    var r := HexToBits(s).value;
    PadToSpec(t, sq);
    assert r == PadTo(t, sq);
    StripZerosOfZeros(|r| - |t|, t);
    StripZerosSpec(DecodeDigits(s).value);
    assert StripZeros(t) == t;
  }

  /** Leading zeros do not change the value. */
  lemma {:induction false} StripZerosOfZeros(k: nat, b: Bits)
    ensures StripZeros(Zeros(k) + b) == StripZeros(b)
  {
    if k > 0 {
      assert (Zeros(k) + b)[1..] == Zeros(k - 1) + b;
      StripZerosOfZeros(k - 1, b);
    } else {
      assert Zeros(k) + b == b;
    }
  }

  /** When four bits per digit make a square, parsing gives exactly the bits of the digits. */
  lemma SquareWidthDecodes(s: string)
    requires s != [] && IsSquare(4 * |s|) && DecodeDigits(s).Some?
    ensures HexToBits(s) == DecodeDigits(s)
  {
    var digits := DecodeDigits(s).value;
    var n := IntSqrt(4 * |s|);
    var sq: nat := n * n;
    assert sq == |digits|;
    assert PadTo(StripZeros(digits), sq) == digits by { PadStripped(digits); }
    assert WholeRows(sq, n) by {
      IntSqrtBounds(4 * |s|);
      SquareWholeRows(n, n);
    }
  }

  /** Padding the significant bits back to the original width restores the bits. */
  lemma PadStripped(b: Bits)
    ensures PadTo(StripZeros(b), |b|) == b
  {
    StripZerosSpec(b);
    PadToSpec(StripZeros(b), |b|);
  }

  /** Reading back the string form of a hash whose width is a square gives the hash itself. */
  lemma HexRoundTrip(b: Bits)
    requires |b| % 4 == 0 && b != [] && IsSquare(|b|)
    ensures HexToBits(BitsToHex(b)) == Some(b)
  {
    DigitsRoundTrip(b);
    SquareWidthDecodes(BitsToHex(b));
  }

  /** In particular for the 64-bit (8 x 8) hashes the program stores. */
  lemma HashRoundTrip(b: Hash)
    ensures HexToBits(BitsToHex(b)) == Some(b)
  {
    SqrtUnique(64, 8);
    HexRoundTrip(b);
  }

  /** A leading '0' digit contributes four zero bits. */
  lemma DecodeLeadingZero(t: string)
    requires DecodeDigits(t).Some?
    ensures DecodeDigits("0" + t) == Some(Zeros(4) + DecodeDigits(t).value)
  {
    assert ("0" + t)[1..] == t;
    assert NibbleBits(0) == Zeros(4);
  }

  /** One extra leading '0' digit still parses to the same 64 bits, since `int(sqrt(68))` is 8. */
  lemma LeadingZeroDigitKeepsHash(b: Hash)
    ensures HexToBits("0" + BitsToHex(b)) == Some(b)
  {
    DigitsRoundTrip(b);
    DecodeLeadingZero(BitsToHex(b));
    SqrtUnique(68, 8);
    StripZerosOfZeros(4, b);
    PadStripped(b);
    SquareWholeRows(8, 8);
  }

  /** At a width that is not a square the round trip fails: the 8 bits 00001111 read back as 1111. */
  lemma RoundTripNeedsSquareWidth()
    ensures var b := [false, false, false, false, true, true, true, true];
      HexToBits(BitsToHex(b)) == Some([true, true, true, true]) && [true, true, true, true] != b
  {
    var b := [false, false, false, false, true, true, true, true];
    var ones := [true, true, true, true];
    DigitsRoundTrip(b);
    SqrtUnique(8, 2);
    assert b == Zeros(4) + ones;
    StripZerosOfZeros(4, ones);
    assert StripZeros(b) == ones;
    assert PadTo(ones, 4) == ones;
  }

  /** Four bits per digit, read back: the digits of a hash decode to its bits. */
  lemma {:induction false} DigitsRoundTrip(b: Bits)
    requires |b| % 4 == 0
    ensures DecodeDigits(BitsToHex(b)) == Some(b)
  {
    if b != [] {
      var s := BitsToHex(b);
      DigitsRoundTrip(b[4..]);
      assert s[1..] == BitsToHex(b[4..]);
      assert b[..4] + b[4..] == b;
    }
  }

  /** Bitwise exclusive or of two hashes of one width. */
  function Xor(a: Bits, b: Bits): (r: Bits)
    requires |a| == |b|
    ensures |r| == |a|
    ensures forall i :: 0 <= i < |a| ==> r[i] == (a[i] != b[i])
  {
    seq(|a|, i requires 0 <= i < |a| => a[i] != b[i])
  }

  /** Number of set bits. */
  function PopCount(s: Bits): (n: nat)
    ensures n <= |s|
    ensures n == 0 <==> forall i :: 0 <= i < |s| ==> !s[i]
  {
    if s == [] then 0
    else
      assert forall i :: 1 <= i < |s| ==> s[i] == s[1..][i - 1];
      (if s[0] then 1 else 0) + PopCount(s[1..])
  }

  /**
    Hamming distance, what `hash1 - hash2` returns for two hashes of the same
    size: the number of positions where the bits differ.
   */
  function Distance(a: Bits, b: Bits): (d: nat)
    requires |a| == |b|
    ensures d <= |a|
  {
    PopCount(Xor(a, b))
  }

  /** Two hashes of one width are at distance zero exactly when they are equal. */
  lemma DistanceZeroIffEqual(a: Bits, b: Bits)
    requires |a| == |b|
    ensures Distance(a, b) == 0 <==> a == b
  {
    var x := Xor(a, b);
    assert (forall i :: 0 <= i < |a| ==> !x[i]) ==> a == b;
  }

  /** The distance does not depend on which hash is subtracted from which. */
  lemma DistanceSymmetric(a: Bits, b: Bits)
    requires |a| == |b|
    ensures Distance(a, b) == Distance(b, a)
  {
    assert Xor(a, b) == Xor(b, a);
  }

  /** The triangle inequality: the distance is a metric on hashes of one width. */
  lemma {:induction false} TriangleInequality(a: Bits, b: Bits, c: Bits)
    requires |a| == |b| == |c|
    ensures Distance(a, c) <= Distance(a, b) + Distance(b, c)
  {
    if a != [] {
      TriangleInequality(a[1..], b[1..], c[1..]);
      assert Xor(a, c)[1..] == Xor(a[1..], c[1..]);
      assert Xor(a, b)[1..] == Xor(a[1..], b[1..]);
      assert Xor(b, c)[1..] == Xor(b[1..], c[1..]);
    }
  }
}
