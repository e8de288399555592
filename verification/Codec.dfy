/** Byte order, base-128 varints and ZigZag: the value encodings of `ByteArray`. */
module Codec {
  import opened Blocks
  import opened ByteArrays

  function Pow2(k: nat): (r: nat)
    ensures 0 < r
  {
    if k == 0 then 1 else 2 * Pow2(k - 1)
  }

  function Pow256(w: nat): (r: nat)
    ensures 0 < r
  {
    if w == 0 then 1 else 256 * Pow256(w - 1)
  }

  lemma {:induction false} Pow2Add(a: nat, b: nat)
    ensures Pow2(a + b) == Pow2(a) * Pow2(b)
  {
    if a > 0 {
      Pow2Add(a - 1, b);
      calc {
        Pow2(a + b);
        2 * Pow2(a - 1 + b);
        2 * (Pow2(a - 1) * Pow2(b));
        (2 * Pow2(a - 1)) * Pow2(b);
      }
    }
  }

  // ---- byte order ----

  function LittleEndian(w: nat, n: nat): (r: seq<byte>)
    ensures |r| == w
  {
    if w == 0 then [] else [n % 256] + LittleEndian(w - 1, n / 256)
  }

  function FromLittleEndian(s: seq<byte>): (r: nat)
  {
    if s == [] then 0 else s[0] + 256 * FromLittleEndian(s[1..])
  }

  function Reverse(s: seq<byte>): (r: seq<byte>)
    ensures |r| == |s|
    ensures forall i :: 0 <= i < |s| ==> r[i] == s[|s| - 1 - i]
  {
    if s == [] then [] else Reverse(s[1..]) + [s[0]]
  }

  /** The bytes of an integer of width `w` in the given order. */
  function Stored(e: Endian, w: nat, n: nat): (r: seq<byte>)
    ensures |r| == w
  {
    if e.SmallEndian? then LittleEndian(w, n) else Reverse(LittleEndian(w, n))
  }

  function Loaded(e: Endian, s: seq<byte>): nat {
    if e.SmallEndian? then FromLittleEndian(s) else FromLittleEndian(Reverse(s))
  }

  /** `n` moved up by `w` bytes. */
  function Up(n: nat, w: nat): nat {
    if w == 0 then n else 256 * Up(n, w - 1)
  }

  lemma {:induction false} UpBound(n: nat, w: nat)
    requires n < 256
    ensures Up(n, w) <= 255 * Pow256(w)
  {
    if w > 0 {
      UpBound(n, w - 1);
    }
  }

  /** An integer whose bytes are those of `n` in the opposite order. */
  function ByteSwap(w: nat, n: nat): (r: nat)
    ensures r < Pow256(w)
  {
    if w == 0 then 0 else
    UpBound(n % 256, w - 1);
    Up(n % 256, w - 1) + ByteSwap(w - 1, n / 256)
  }

  /** The most significant byte comes last in little-endian order. */
  lemma {:induction false} TopByte(w: nat, a: nat, n: nat)
    requires a < 256 && n < Pow256(w)
    ensures LittleEndian(w + 1, Up(a, w) + n) == LittleEndian(w, n) + [a]
  {
    if w == 0 {
      assert LittleEndian(1, a) == [a];
    } else {
      var m := Up(a, w - 1);
      assert (256 * m + n) % 256 == n % 256 && (256 * m + n) / 256 == m + n / 256;
      TopByte(w - 1, a, n / 256);
    }
  }

  /** Swapping the value reverses its bytes. */
  lemma {:induction false} SwapReverses(w: nat, n: nat)
    ensures LittleEndian(w, ByteSwap(w, n)) == Reverse(LittleEndian(w, n))
  {
    if w > 0 {
      var k, low, high := w - 1, n % 256, n / 256;
      calc {
        LittleEndian(w, ByteSwap(w, n));
        LittleEndian(k + 1, Up(low, k) + ByteSwap(k, high));
        { TopByte(k, low, ByteSwap(k, high)); }
        LittleEndian(k, ByteSwap(k, high)) + [low];
        { SwapReverses(k, high); }
        Reverse(LittleEndian(k, high)) + [low];
        { ReverseCons(low, LittleEndian(k, high)); }
        Reverse([low] + LittleEndian(k, high));
      }
    }
  }

  lemma ReverseCons(b: byte, s: seq<byte>)
    ensures Reverse([b] + s) == Reverse(s) + [b]
  {
    assert ([b] + s)[1..] == s;
  }

  lemma ReverseTwice(s: seq<byte>)
    ensures Reverse(Reverse(s)) == s
  {
  }

  lemma {:induction false} LoadLittle(w: nat, n: nat)
    ensures FromLittleEndian(LittleEndian(w, n)) == n % Pow256(w)
  {
    if w > 0 {
      LoadLittle(w - 1, n / 256);
      assert LittleEndian(w, n)[1..] == LittleEndian(w - 1, n / 256);
      ModSplit(n, Pow256(w - 1));
    }
  }

  lemma ModSplit(n: nat, p: nat)
    requires 0 < p
    ensures n % (256 * p) == n % 256 + 256 * (n / 256 % p)
  {
    var q, r := n / 256, n % 256;
    var u, v := q / p, q % p;
    assert q == u * p + v;
    calc {
      n;
      256 * q + r;
      256 * (u * p) + 256 * v + r;
      { assert 256 * (u * p) == u * (256 * p); }
      u * (256 * p) + (256 * v + r);
    }
    BlockAndOffset(u, 256 * p, n);
  }

  /** Loading what was stored gives the value truncated to the width. */
  lemma LoadStored(e: Endian, w: nat, n: nat)
    ensures Loaded(e, Stored(e, w, n)) == n % Pow256(w)
  {
    ReverseTwice(LittleEndian(w, n));
    LoadLittle(w, n);
  }

  lemma LoadSmall(w: nat, n: nat)
    requires n < Pow256(w)
    ensures FromLittleEndian(LittleEndian(w, n)) == n
  {
    LoadLittle(w, n);
  }

  lemma SwapTwice(w: nat, n: nat)
    requires n < Pow256(w)
    ensures ByteSwap(w, ByteSwap(w, n)) == n
  {
    var s := ByteSwap(w, n);
    SwapReverses(w, n);
    SwapReverses(w, s);
    ReverseTwice(LittleEndian(w, n));
    LoadSmall(w, ByteSwap(w, s));
    LoadSmall(w, n);
  }

  /** The value as it must stand in the host's memory: swapped when the wanted order is not the host's. */
  function HostValue(host: Endian, e: Endian, w: nat, n: nat): nat {
    if e != host then ByteSwap(w, n) else n
  }

  /** The bytes copied from the host's memory are those of the wanted order, on either kind of host. */
  lemma StoreOnHost(host: Endian, e: Endian, w: nat, n: nat)
    ensures Stored(host, w, HostValue(host, e, w, n)) == Stored(e, w, n)
  {
    SwapReverses(w, n);
    ReverseTwice(LittleEndian(w, n));
  }

  /** Copying the stored bytes back into the host's memory and swapping again gives the value. */
  lemma LoadOnHost(host: Endian, e: Endian, w: nat, n: nat)
    requires n < Pow256(w)
    ensures HostValue(host, e, w, Loaded(host, Stored(e, w, n))) == n
  {
    var m := HostValue(host, e, w, n);
    StoreOnHost(host, e, w, n);
    SwapTwice(w, n);
    ReverseTwice(LittleEndian(w, m));
    LoadSmall(w, m);
  }

  /** Every byte string of width `w` is the image of exactly the value it loads to. */
  lemma {:induction false} StoreLoadedLittle(s: seq<byte>)
    ensures FromLittleEndian(s) < Pow256(|s|)
    ensures LittleEndian(|s|, FromLittleEndian(s)) == s
  {
    if s != [] {
      var b, m, w := s[0], FromLittleEndian(s[1..]), |s| - 1;
      StoreLoadedLittle(s[1..]);
      LowByte(w, b, m);
      assert s == [b] + s[1..];
      assert b + 256 * m < 256 * Pow256(w);
    }
  }

  lemma LowByte(w: nat, b: byte, m: nat)
    ensures LittleEndian(w + 1, b + 256 * m) == [b] + LittleEndian(w, m)
  {
    assert (b + 256 * m) % 256 == b && (b + 256 * m) / 256 == m;
  }

  /** Reading any bytes gives their value in the wanted order, on either kind of host. */
  lemma ReadOnHost(host: Endian, e: Endian, s: seq<byte>)
    ensures Loaded(e, s) < Pow256(|s|)
    ensures HostValue(host, e, |s|, Loaded(host, s)) == Loaded(e, s)
  {
    StoreLoadedLittle(s);
    StoreLoadedLittle(Reverse(s));
    ReverseTwice(s);
    LoadOnHost(host, e, |s|, Loaded(e, s));
  }

  // ---- two's complement ----

  predicate FitsSigned(w: nat, v: int) {
    0 <= 2 * v + Pow256(w) && 2 * v < Pow256(w)
  }

  function AsUnsigned(w: nat, v: int): int {
    if v < 0 then v + Pow256(w) else v
  }

  function AsSigned(w: nat, n: nat): int {
    if 2 * n >= Pow256(w) then n - Pow256(w) else n
  }

  // ---- bit operations on naturals ----

  datatype BitOp = And | AndNot | Or | Xor

  function Bit(op: BitOp, x: nat, y: nat): (b: nat)
    ensures b < 2
  {
    match op
    case And => if x == 1 && y == 1 then 1 else 0
    case AndNot => if x == 1 && y == 0 then 1 else 0
    case Or => if x == 1 || y == 1 then 1 else 0
    case Xor => if x != y then 1 else 0
  }

  /** The operators `a & b`, `a & ~b`, `a | b` and `a ^ b`. */
  function Bitwise(op: BitOp, a: nat, b: nat): nat {
    if a == 0 && b == 0 then 0 else Bit(op, a % 2, b % 2) + 2 * Bitwise(op, a / 2, b / 2)
  }

  lemma {:induction false} OrZero(a: nat)
    ensures Bitwise(Or, a, 0) == a && Bitwise(Or, 0, a) == a
  {
    if a > 0 {
      OrZero(a / 2);
    }
  }

  /** `n << i` without loss of bits. */
  function Shl(n: nat, i: nat): nat {
    if i == 0 then n else 2 * Shl(n, i - 1)
  }

  /** Operands without a common bit: or is addition. */
  lemma {:induction false} OrDisjoint(a: nat, b: nat, k: nat)
    requires a < Pow2(k)
    ensures Bitwise(Or, a, Shl(b, k)) == a + Shl(b, k)
  {
    if k == 0 {
      OrZero(b);
    } else {
      OrDisjoint(a / 2, b, k - 1);
    }
  }

  /** Xor with all ones is the complement. */
  lemma {:induction false} XorOnes(a: nat, k: nat)
    requires a < Pow2(k)
    ensures Bitwise(Xor, a, Pow2(k) - 1) == Pow2(k) - 1 - a
  {
    if k > 0 {
      XorOnes(a / 2, k - 1);
      var ones := Pow2(k - 1) - 1;
      assert Pow2(k) - 1 == 2 * ones + 1;
      assert (2 * ones + 1) % 2 == 1 && (2 * ones + 1) / 2 == ones;
    }
  }

  lemma {:induction false} XorZero(a: nat)
    ensures Bitwise(Xor, a, 0) == a
  {
    if a > 0 {
      XorZero(a / 2);
    }
  }

  // ---- base-128 varints ----

  function Varint(n: nat): (r: seq<byte>)
    ensures |r| > 0
  {
    if n < 128 then [n] else [n % 128 + 128] + Varint(n / 128)
  }

  /** `value << i` in an unsigned type of `bits` bits. */
  function ShiftLeft(bits: nat, b: nat, i: nat): nat {
    Truncate(bits, Shl(b, i))
  }

  /** The low `bits` bits. */
  function Truncate(bits: nat, x: nat): nat {
    if bits == 0 then 0 else x % 2 + 2 * Truncate(bits - 1, x / 2)
  }

  lemma {:induction false} TruncateSmall(bits: nat, x: nat)
    requires x < Pow2(bits)
    ensures Truncate(bits, x) == x
  {
    if bits > 0 {
      TruncateSmall(bits - 1, x / 2);
    }
  }

  lemma {:induction false} TruncateBound(bits: nat, x: nat)
    ensures Truncate(bits, x) < Pow2(bits) && Truncate(bits, x) <= x
  {
    if bits > 0 {
      TruncateBound(bits - 1, x / 2);
    }
  }

  /** `readUint32` and `readUint64` from bit `i` on: at most bits / 7 + 1 bytes are read. */
  function ReadVarint(v: View, bits: nat, i: nat, acc: nat): (r: Read<nat>)
    requires v.pos <= |v.data|
    ensures v.pos <= r.pos <= |v.data|
    decreases bits + 7 - i
  {
    if i >= bits then Got(acc, v.pos)
    else
      match ReadBytes(v, 1)
      case Stop(why, p) => Stop(why, p)
      case Got(s, p) =>
        if s[0] < 128 then Got(Bitwise(Or, acc, ShiftLeft(bits, s[0], i)), p)
        else ReadVarint(v.(pos := p), bits, i + 7, Bitwise(Or, acc, ShiftLeft(bits, s[0] % 128, i)))
  }

  ghost predicate At(v: View, s: seq<byte>) {
    v.pos + |s| <= |v.data| <= v.cap && v.data[v.pos..v.pos + |s|] == s
  }

  lemma SmallMod(x: int, m: int)
    requires 0 <= x < m
    ensures x % m == x
  {
  }

  lemma ShiftFits(bits: nat, i: nat, n: nat, acc: nat)
    requires acc < Pow2(i) && Shl(n, i) + acc < Pow2(bits)
    ensures Bitwise(Or, acc, ShiftLeft(bits, n, i)) == acc + Shl(n, i)
  {
    TruncateSmall(bits, Shl(n, i));
    OrDisjoint(acc, n, i);
  }

  lemma {:induction false} Pow2Mono(a: nat, b: nat)
    requires a <= b
    ensures Pow2(a) <= Pow2(b)
  {
    if a < b {
      Pow2Mono(a, b - 1);
    }
  }

  lemma {:induction false} ShlIsProduct(a: nat, i: nat)
    ensures Shl(a, i) == a * Pow2(i)
  {
    if i > 0 {
      ShlIsProduct(a, i - 1);
    }
  }

  lemma {:induction false} ShlAdd(a: nat, b: nat, i: nat)
    ensures Shl(a + b, i) == Shl(a, i) + Shl(b, i)
  {
    if i > 0 {
      ShlAdd(a, b, i - 1);
    }
  }

  lemma {:induction false} ShlTwice(a: nat, i: nat, j: nat)
    ensures Shl(Shl(a, j), i) == Shl(a, i + j)
  {
    if i > 0 {
      ShlTwice(a, i - 1, j);
    }
  }

  lemma {:induction false} ShlAtLeast(a: nat, i: nat)
    ensures Shl(a, i) >= a
    ensures a >= 1 ==> Shl(a, i) >= Pow2(i)
    ensures a <= 127 ==> Shl(a, i) + Pow2(i) <= Pow2(i + 7)
  {
    if i > 0 {
      ShlAtLeast(a, i - 1);
      assert Pow2(i + 7) == 2 * Pow2(i - 1 + 7);
    } else {
      assert Pow2(7) == 2 * (2 * (2 * (2 * (2 * (2 * (2 * Pow2(0)))))));
    }
  }

  /** Splitting off the seven low bits of the value still to be read. */
  lemma SevenBits(i: nat, n: nat)
    ensures Shl(n, i) == Shl(n % 128, i) + Shl(n / 128, i + 7)
  {
    var q, r := n / 128, n % 128;
    assert Shl(q, 7) == 128 * q by {
      ShlIsProduct(q, 7);
      assert Pow2(7) == 2 * (2 * (2 * (2 * (2 * (2 * (2 * Pow2(0)))))));
    }
    ShlAdd(r, Shl(q, 7), i);
    ShlTwice(q, i, 7);
  }

  /** After one byte with the continuation bit: the bits read so far, and that more bits are in reach. */
  lemma NextSeven(bits: nat, i: nat, n: nat, acc: nat)
    requires acc < Pow2(i) && Shl(n, i) + acc < Pow2(bits) && 128 <= n
    ensures var got := acc + Shl(n % 128, i);
      && got < Pow2(bits) && got < Pow2(i + 7) && i + 7 < bits
      && Shl(n / 128, i + 7) + got == Shl(n, i) + acc
  {
    SevenBits(i, n);
    ShlAtLeast(n % 128, i);
    ShlAtLeast(n / 128, i + 7);
    if bits <= i + 7 {
      Pow2Mono(bits, i + 7);
    }
  }

  /** One reading step at the start of an encoding. */
  lemma VarintHead(v: View, n: nat)
    requires At(v, Varint(n))
    ensures ReadBytes(v, 1) == Got([Varint(n)[0]], v.pos + 1)
    ensures n >= 128 ==> At(v.(pos := v.pos + 1), Varint(n / 128))
  {
    var s, e := Varint(n), v.pos + |Varint(n)|;
    assert v.data[v.pos..e][0] == v.data[v.pos];
    assert v.data[v.pos..v.pos + 1] == [v.data[v.pos]];
    if n >= 128 {
      assert s[1..] == Varint(n / 128);
      assert v.data[v.pos..e][1..] == v.data[v.pos + 1..e];
    }
  }

  /** The decoder consumes exactly the bytes the encoder produced and returns the value. */
  lemma {:induction false} VarintRoundTrip(v: View, bits: nat, i: nat, acc: nat, n: nat)
    requires At(v, Varint(n))
    requires acc < Pow2(i) && Shl(n, i) + acc < Pow2(bits) && i < bits
    ensures ReadVarint(v, bits, i, acc) == Got(acc + Shl(n, i), v.pos + |Varint(n)|)
    decreases n
  {
    VarintHead(v, n);
    if n < 128 {
      ShiftFits(bits, i, n, acc);
    } else {
      NextSeven(bits, i, n, acc);
      ShiftFits(bits, i, n % 128, acc);
      VarintRoundTrip(v.(pos := v.pos + 1), bits, i + 7, acc + Shl(n % 128, i), n / 128);
    }
  }

  lemma {:induction false} VarintLength(n: nat, k: nat)
    requires 0 < k && n < Pow2(7 * k)
    ensures |Varint(n)| <= k
  {
    if n >= 128 {
      Pow2Add(7, 7 * (k - 1));
      assert Pow2(7) == 2 * (2 * (2 * (2 * (2 * (2 * (2 * Pow2(0)))))));
      VarintLength(n / 128, k - 1);
    }
  }

  /** No encoding is a proper prefix of another. */
  lemma {:induction false} VarintPrefixFree(a: nat, b: nat)
    requires Varint(a) <= Varint(b)
    ensures a == b
  {
    assert Varint(a)[0] == Varint(b)[0];
    if a >= 128 {
      assert Varint(a)[1..] <= Varint(b)[1..];
      VarintPrefixFree(a / 128, b / 128);
    }
  }

  // ---- ZigZag ----

  /** `EncodeZigzag` on wrapping machine integers: -v and 2v are taken modulo the word. */
  function ZigzagEncode(w: nat, v: int): (r: nat)
    requires FitsSigned(w, v)
    ensures r < Pow256(w)
    ensures r == if v < 0 then -2 * v - 1 else 2 * v
  {
    var m := Pow256(w);
    SmallMod(if v < 0 then -v else 0, m);
    SmallMod(if v < 0 then -v * 2 - 1 else v * 2, m);
    if v < 0 then (-v % m * 2 - 1) % m else v * 2 % m
  }

  /** `DecodeZigzag`: (n >> 1) ^ -(n & 1), read back as a signed integer. */
  function ZigzagDecode(w: nat, n: nat): int {
    AsSigned(w, Bitwise(Xor, n / 2, if n % 2 == 0 then 0 else Pow256(w) - 1))
  }

  lemma {:induction false} Pow256IsPow2(w: nat)
    ensures Pow256(w) == Pow2(8 * w)
  {
    if w > 0 {
      Pow256IsPow2(w - 1);
      Pow2Add(8, 8 * (w - 1));
      assert Pow2(8) == 2 * (2 * (2 * (2 * (2 * (2 * (2 * (2 * Pow2(0))))))));
    }
  }

  /** Decoding inverts encoding for every signed integer of the width. */
  lemma ZigzagRoundTrip(w: nat, v: int)
    requires 0 < w && FitsSigned(w, v)
    ensures ZigzagDecode(w, ZigzagEncode(w, v)) == v
  {
    var n := ZigzagEncode(w, v);
    Pow256IsPow2(w);
    XorZero(n / 2);
    XorOnes(n / 2, 8 * w);
  }

  /** Encoding inverts decoding, so ZigZag is a bijection onto the unsigned integers of the width. */
  lemma ZigzagOnto(w: nat, n: nat)
    requires 0 < w && n < Pow256(w)
    ensures FitsSigned(w, ZigzagDecode(w, n)) && ZigzagEncode(w, ZigzagDecode(w, n)) == n
  {
    Pow256IsPow2(w);
    XorZero(n / 2);
    XorOnes(n / 2, 8 * w);
  }
}
