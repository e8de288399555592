/** The encodings byte by byte: which bytes a written value has, and which value given bytes have. */
module StreamBytes {
  import opened Blocks
  import opened ByteArrays
  import opened Codec
  import opened Streams

  /** The range is checked before the current block is looked at. */
  lemma ReadOutcome(v: View, n: nat)
    requires v.pos <= |v.data| <= v.cap
    ensures ReadBytes(v, n) == Stop(OutOfRange, v.pos) <==> v.pos + n > |v.data|
    ensures ReadBytes(v, n) == Stop(NullDeref, v.pos) <==> v.pos + n <= |v.data| && v.pos == v.cap
    ensures v.pos + n <= |v.data| && v.pos < v.cap ==>
      var r := ReadBytes(v, n);
      r.Got? && r.pos == v.pos + n && |r.value| == n && forall i :: 0 <= i < n ==> r.value[i] == v.data[v.pos + i]
  {
  }

  // ---- fixed width ----

  /** Digit `i` of `n` in base 256; for a negative `n`, of its two's complement. */
  function Digit(n: int, i: nat): byte {
    n / Pow256(i) % 256
  }

  /** Dividing by 256 drops the last digit, of negative numbers too. */
  lemma DivDiv(n: int, p: nat)
    requires 0 < p
    ensures n / 256 / p == n / (256 * p)
  {
    var q, r := n / 256 / p, n / 256 % p;
    assert n / 256 == q * p + r;
    assert q * (256 * p) == 256 * (q * p);
    QuotientIs(n, 256 * p, q);
  }

  lemma QuotientIs(n: int, m: nat, q: int)
    requires 0 < m && q * m <= n < q * m + m
    ensures n / m == q
  {
    var d, r := n / m, n % m;
    assert n == d * m + r;
    assert (d - q) * m == d * m - q * m;
    SmallMultiple(d - q, m);
  }

  /** The bytes of `n` are the digits of `v`, which may be its negative reading. */
  lemma {:induction false} LittleByte(w: nat, v: int, n: nat, i: nat)
    requires i < w && (n == v || n == v + Pow256(w))
    ensures LittleEndian(w, n)[i] == Digit(v, i)
  {
    if i > 0 {
      LittleByte(w - 1, v / 256, n / 256, i - 1);
      DivDiv(v, Pow256(i - 1));
    }
  }

  /** The most significant byte comes first in big-endian order and last in little-endian order. */
  lemma StoredByte(w: nat, v: int, n: nat, i: nat)
    requires i < w && (n == v || n == v + Pow256(w))
    ensures Stored(SmallEndian, w, n)[i] == Digit(v, i)
    ensures Stored(BigEndian, w, n)[i] == Digit(v, w - 1 - i)
  {
    LittleByte(w, v, n, i);
    LittleByte(w, v, n, w - 1 - i);
  }

  /** Bytes that are loaded are the digits of the value they load to. */
  lemma LoadedByte(s: seq<byte>, i: nat)
    requires i < |s|
    ensures s[i] == Digit(Loaded(SmallEndian, s), i) == Digit(Loaded(BigEndian, s), |s| - 1 - i)
  {
    StoreLoadedLittle(s);
    StoreLoadedLittle(Reverse(s));
    ReverseTwice(s);
    StoredByte(|s|, Loaded(SmallEndian, s), Loaded(SmallEndian, s), i);
    StoredByte(|s|, Loaded(BigEndian, s), Loaded(BigEndian, s), i);
  }

  /** Where the bytes of an integer of width `w` stand. */
  function Place(e: Endian, w: nat, i: nat): nat
    requires i < w
  {
    if e.BigEndian? then w - 1 - i else i
  }

  /** A fixed-width integer, signed or not, is written as the base-256 digits of its two's complement. */
  lemma FixedByte(e: Endian, w: nat, signed: bool, v: int, i: nat)
    requires InRange(Fixed(w, signed, v)) && i < w
    ensures |Encoded(e, Fixed(w, signed, v))| == w
    ensures Encoded(e, Fixed(w, signed, v))[i] == Digit(v, Place(e, w, i))
  {
    StoredByte(w, v, if signed then AsUnsigned(w, v) else v, i);
  }

  // ---- varints ----

  lemma SevenPow(k: nat)
    ensures Pow2(7 * (k + 1)) == 128 * Pow2(7 * k)
  {
    Pow2Add(7, 7 * k);
    assert Pow2(7) == 2 * (2 * (2 * (2 * (2 * (2 * (2 * Pow2(0)))))));
  }

  lemma DivDiv128(n: nat, p: nat)
    requires 0 < p
    ensures n / 128 / p == n / (128 * p)
  {
    var q, r := n / 128 / p, n / 128 % p;
    assert n / 128 == q * p + r;
    assert q * (128 * p) == 128 * (q * p);
    BlockAndOffset(q, 128 * p, n);
  }

  /** Seven bits a byte, the low ones first, and the high bit on every byte but the last. */
  lemma {:induction false} VarintByte(n: nat, i: nat)
    requires i < |Varint(n)|
    ensures Varint(n)[i] == n / Pow2(7 * i) % 128 + if i + 1 < |Varint(n)| then 128 else 0
  {
    if i > 0 {
      VarintByte(n / 128, i - 1);
      SevenPow(i - 1);
      DivDiv128(n, Pow2(7 * (i - 1)));
    }
  }

  /** As many bytes as the value needs, and no more. */
  lemma {:induction false} VarintMinimal(n: nat)
    ensures n < Pow2(7 * |Varint(n)|)
    ensures |Varint(n)| > 1 ==> Pow2(7 * (|Varint(n)| - 1)) <= n
  {
    SevenPow(|Varint(n)| - 1);
    if n >= 128 {
      VarintMinimal(n / 128);
      SevenPow(|Varint(n)| - 2);
    }
  }

  /** The value of bytes of seven bits, the low ones first. */
  function SevenValue(s: seq<byte>): nat {
    if s == [] then 0 else s[0] % 128 + 128 * SevenValue(s[1..])
  }

  lemma {:induction false} TruncateShl(bits: nat, b: nat, i: nat)
    requires i <= bits
    ensures Truncate(bits, Shl(b, i)) == Shl(Truncate(bits - i, b), i)
  {
    if i > 0 {
      TruncateShl(bits - 1, b, i - 1);
    }
  }

  /** Low bits that are there already are not cut. */
  lemma {:induction false} TruncateHigh(bits: nat, i: nat, b: nat, acc: nat)
    requires i <= bits && acc < Pow2(i)
    ensures Truncate(bits, acc + Shl(b, i)) == acc + Shl(Truncate(bits - i, b), i)
  {
    if i > 0 {
      assert (acc + 2 * Shl(b, i - 1)) / 2 == acc / 2 + Shl(b, i - 1);
      TruncateHigh(bits - 1, i - 1, b, acc / 2);
    }
  }

  lemma SplitSeven(b: nat, n: nat, i: nat)
    ensures Shl(b + 128 * n, i) == Shl(b, i) + Shl(n, i + 7)
  {
    assert Shl(n, 7) == 128 * n by {
      ShlIsProduct(n, 7);
      assert Pow2(7) == 2 * (2 * (2 * (2 * (2 * (2 * (2 * Pow2(0)))))));
    }
    ShlAdd(b, Shl(n, 7), i);
    ShlTwice(n, i, 7);
  }

  /** Seven more bits above the `i` read so far, as far as they fit. */
  lemma OrSeven(bits: nat, i: nat, b: nat, acc: nat)
    requires i < bits && acc < Pow2(i) && b < 128
    ensures var or := Bitwise(Or, acc, ShiftLeft(bits, b, i));
      or == Truncate(bits, acc + Shl(b, i)) && (i + 7 < bits ==> or == acc + Shl(b, i) < Pow2(i + 7))
  {
    TruncateShl(bits, b, i);
    OrDisjoint(acc, Truncate(bits - i, b), i);
    TruncateHigh(bits, i, b, acc);
    ShlAtLeast(b, i);
    if i + 7 < bits {
      Pow2Mono(i + 7, bits);
      TruncateSmall(bits, acc + Shl(b, i));
    }
  }

  /** Bytes that one read consumes: all but the last say that more follow, unless the width is reached. */
  ghost predicate OneVarint(s: seq<byte>, bits: int) {
    && s != [] && (forall j :: 0 <= j < |s| - 1 ==> s[j] >= 128) && 7 * (|s| - 1) < bits
    && (s[|s| - 1] < 128 || 7 * |s| >= bits)
  }

  lemma AtTail(v: View, s: seq<byte>)
    requires At(v, s) && s != []
    ensures ReadBytes(v, 1) == Got([s[0]], v.pos + 1) && At(v.(pos := v.pos + 1), s[1..])
  {
    var e := v.pos + |s|;
    assert v.data[v.pos..e][0] == v.data[v.pos];
    assert v.data[v.pos..v.pos + 1] == [v.data[v.pos]];
    assert v.data[v.pos..e][1..] == v.data[v.pos + 1..e];
  }

  /** One turn of the reading loop. */
  lemma ReadTurn(v: View, bits: nat, i: nat, acc: nat, s: seq<byte>)
    requires At(v, s) && s != [] && i < bits
    ensures At(v.(pos := v.pos + 1), s[1..])
    ensures var or := Bitwise(Or, acc, ShiftLeft(bits, s[0] % 128, i));
      ReadVarint(v, bits, i, acc) ==
        if s[0] < 128 then Got(or, v.pos + 1) else ReadVarint(v.(pos := v.pos + 1), bits, i + 7, or)
  {
    AtTail(v, s);
  }

  lemma LastSeven(v: View, bits: nat, i: nat, acc: nat, s: seq<byte>)
    requires At(v, s) && i < bits && acc < Pow2(i) && OneVarint(s, bits - i) && |s| == 1
    ensures ReadVarint(v, bits, i, acc) == Got(Truncate(bits, acc + Shl(SevenValue(s), i)), v.pos + 1)
  {
    var b := s[0] % 128;
    var or := Bitwise(Or, acc, ShiftLeft(bits, b, i));
    assert ReadVarint(v, bits, i, acc) == Got(or, v.pos + 1) by {
      ReadTurn(v, bits, i, acc, s);
    }
    assert or == Truncate(bits, acc + Shl(b, i)) by {
      OrSeven(bits, i, b, acc);
    }
    SevenOne(s);
  }

  lemma SevenOne(s: seq<byte>)
    requires |s| == 1
    ensures SevenValue(s) == s[0] % 128
  {
    assert s[1..] == [];
  }

  lemma SevenMore(s: seq<byte>, i: nat)
    requires s != []
    ensures Shl(SevenValue(s), i) == Shl(s[0] % 128, i) + Shl(SevenValue(s[1..]), i + 7)
  {
    SplitSeven(s[0] % 128, SevenValue(s[1..]), i);
  }

  lemma OneVarintTail(s: seq<byte>, bits: int)
    requires OneVarint(s, bits) && |s| > 1
    ensures OneVarint(s[1..], bits - 7) && s[0] >= 128 && bits > 7
  {
    assert forall j :: 0 <= j < |s| - 2 ==> s[1..][j] == s[j + 1];
  }

  /** After a byte with the high bit, reading goes on with seven more bits. */
  lemma MoreSeven(v: View, bits: nat, i: nat, acc: nat, s: seq<byte>) returns (got: nat)
    requires At(v, s) && i < bits && acc < Pow2(i) && OneVarint(s, bits - i) && |s| > 1
    ensures At(v.(pos := v.pos + 1), s[1..]) && i + 7 < bits && OneVarint(s[1..], bits - (i + 7)) && got < Pow2(i + 7)
    ensures ReadVarint(v, bits, i, acc) == ReadVarint(v.(pos := v.pos + 1), bits, i + 7, got)
    ensures got + Shl(SevenValue(s[1..]), i + 7) == acc + Shl(SevenValue(s), i)
  {
    SevenMore(s, i);
    OneVarintTail(s, bits - i);
    ReadTurn(v, bits, i, acc, s);
    OrSeven(bits, i, s[0] % 128, acc);
    got := acc + Shl(s[0] % 128, i);
  }

  lemma {:induction false} ReadSeven(v: View, bits: nat, i: nat, acc: nat, s: seq<byte>)
    requires At(v, s) && i < bits && acc < Pow2(i) && OneVarint(s, bits - i)
    ensures ReadVarint(v, bits, i, acc) == Got(Truncate(bits, acc + Shl(SevenValue(s), i)), v.pos + |s|)
    decreases |s|
  {
    if |s| == 1 {
      LastSeven(v, bits, i, acc, s);
    } else {
      var got := MoreSeven(v, bits, i, acc, s);
      ReadSeven(v.(pos := v.pos + 1), bits, i + 7, got, s[1..]);
    }
  }

  /**
   * Whatever the bytes are, not only those a writer produced: a read takes them up to the first without the
   * high bit or to the width, and returns their value cut to the width.
   */
  lemma VarintMeaning(v: View, bits: nat, s: seq<byte>)
    requires 0 < bits && At(v, s) && OneVarint(s, bits)
    ensures ReadVarint(v, bits, 0, 0) == Got(Truncate(bits, SevenValue(s)), v.pos + |s|)
  {
    ReadSeven(v, bits, 0, 0, s);
  }

  // ---- strings ----

  lemma TruncateEight(k: nat, n: nat)
    ensures Truncate(k + 8, n) == n % 256 + 256 * Truncate(k, n / 256)
  {
    Pow256IsPow2(1);
    TruncateHigh(k + 8, 8, n / 256, n % 256);
    ShlIsProduct(n / 256, 8);
    ShlIsProduct(Truncate(k, n / 256), 8);
  }

  lemma {:induction false} LittleTruncate(w: nat, n: nat)
    ensures LittleEndian(w, Truncate(8 * w, n)) == LittleEndian(w, n)
  {
    if w > 0 {
      var rest := Truncate(8 * (w - 1), n / 256);
      TruncateEight(8 * (w - 1), n);
      LowByte(w - 1, n % 256, rest);
      LittleTruncate(w - 1, n / 256);
    }
  }

  /** The bytes of a length are the low digits of the length itself. */
  lemma LengthByte(e: Endian, w: nat, n: nat, i: nat)
    requires i < w
    ensures Stored(e, w, Truncate(8 * w, n))[i] == Digit(n, Place(e, w, i))
  {
    LittleTruncate(w, n);
    StoredByte(w, n, n, i);
  }

  function LengthWidth(p: Prefix): nat
    requires p != Vint
  {
    match p case F16 => 2 case F32 => 4 case F64 => 8
  }

  /** Two, four or eight bytes of length, cut to its low digits, and then the string itself. */
  lemma TextBytes(e: Endian, p: Prefix, s: seq<byte>)
    requires |s| < Pow256(8) && p != Vint
    ensures var w, text := LengthWidth(p), Encoded(e, Text(p, s));
      |text| == w + |s| && text[w..] == s && forall i :: 0 <= i < w ==> text[i] == Digit(|s|, Place(e, w, i))
  {
    var w := LengthWidth(p);
    forall i | 0 <= i < w
      ensures LengthBytes(e, p, |s|)[i] == Digit(|s|, Place(e, w, i))
    {
      LengthByte(e, w, |s|, i);
    }
  }

  /** Or a varint, which is never cut. */
  lemma VintBytes(e: Endian, s: seq<byte>)
    requires |s| < Pow256(8)
    ensures Encoded(e, Text(Vint, s)) == Varint(|s|) + s
  {
  }
}
