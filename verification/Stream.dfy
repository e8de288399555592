/** Typed values written to and read from a `ByteArray`, and the round trip of a whole stream. */
module Streams {
  import opened Blocks
  import opened ByteArrays
  import opened Codec

  datatype Prefix = F16 | F32 | F64 | Vint

  /** What a reading call is asked for. Widths are in bytes; floats travel as bit patterns. */
  datatype Kind =
    | FixedKind(w: nat, signed: bool)
    | VarintKind(w: nat)
    | ZigzagKind(w: nat)
    | TextKind(prefix: Prefix)

  datatype Value =
    | Fixed(w: nat, signed: bool, v: int)
    | Unsigned(w: nat, n: nat)
    | Signed(w: nat, v: int)
    | Text(prefix: Prefix, s: seq<byte>)

  function KindOf(x: Value): Kind {
    match x
    case Fixed(w, signed, _) => FixedKind(w, signed)
    case Unsigned(w, _) => VarintKind(w)
    case Signed(w, _) => ZigzagKind(w)
    case Text(prefix, _) => TextKind(prefix)
  }

  predicate ValidKind(k: Kind) {
    match k
    case FixedKind(w, _) => w in {1, 2, 4, 8}
    case VarintKind(w) => w in {4, 8}
    case ZigzagKind(w) => w in {4, 8}
    case TextKind(_) => true
  }

  /** The value is one of its C++ type. */
  predicate InRange(x: Value) {
    && ValidKind(KindOf(x))
    && match x
       case Fixed(w, signed, v) => if signed then FitsSigned(w, v) else 0 <= v < Pow256(w)
       case Unsigned(w, n) => n < Pow256(w)
       case Signed(w, v) => FitsSigned(w, v)
       case Text(_, s) => |s| < Pow256(8)
  }

  function PrefixWidth(p: Prefix): nat {
    match p case F16 => 2 case F32 => 4 case F64 => 8 case Vint => 8
  }

  /** The length survives its prefix: a longer string is written with a truncated length. */
  predicate LengthFits(x: Value) {
    x.Text? ==> |x.s| < Pow256(PrefixWidth(x.prefix))
  }

  function LengthBytes(e: Endian, p: Prefix, n: nat): seq<byte> {
    if p.Vint? then Varint(n) else Stored(e, PrefixWidth(p), Truncate(8 * PrefixWidth(p), n))
  }

  /** The bytes of a value, by the order of the stream alone. */
  function Encoded(e: Endian, x: Value): seq<byte>
    requires InRange(x)
  {
    match x
    case Fixed(w, signed, v) => Stored(e, w, if signed then AsUnsigned(w, v) else v)
    case Unsigned(_, n) => Varint(n)
    case Signed(w, v) => Varint(ZigzagEncode(w, v))
    case Text(p, s) => LengthBytes(e, p, |s|) + s
  }

  /** The length in front of a string. */
  function ReadLength(e: Endian, p: Prefix, v: View): (r: Read<nat>)
    requires v.pos <= |v.data|
    ensures v.pos <= r.pos <= |v.data|
  {
    if p.Vint? then ReadVarint(v, 64, 0, 0) else ReadNumber(e, PrefixWidth(p), v)
  }

  function ReadNumber(e: Endian, w: nat, v: View): (r: Read<nat>)
    requires v.pos <= |v.data|
    ensures v.pos <= r.pos <= |v.data|
  {
    match ReadBytes(v, w)
    case Stop(why, p) => Stop(why, p)
    case Got(s, p) => Got(Loaded(e, s), p)
  }

  /** A reading call on the flat view. */
  function Decoded(e: Endian, k: Kind, v: View): (r: Read<Value>)
    requires ValidKind(k) && v.pos <= |v.data|
    ensures v.pos <= r.pos <= |v.data|
  {
    match k
    case FixedKind(w, signed) =>
      (match ReadNumber(e, w, v)
       case Stop(why, p) => Stop(why, p)
       case Got(n, p) => Got(Fixed(w, signed, if signed then AsSigned(w, n) else n), p))
    case VarintKind(w) =>
      (match ReadVarint(v, 8 * w, 0, 0)
       case Stop(why, p) => Stop(why, p)
       case Got(n, p) => Got(Unsigned(w, n), p))
    case ZigzagKind(w) =>
      (match ReadVarint(v, 8 * w, 0, 0)
       case Stop(why, p) => Stop(why, p)
       case Got(n, p) => Got(Signed(w, ZigzagDecode(w, n)), p))
    case TextKind(prefix) =>
      match ReadLength(e, prefix, v)
      case Stop(why, p) => Stop(why, p)
      case Got(n, p) =>
        match ReadBytes(v.(pos := p), n)
        case Stop(why, q) => Stop(why, q)
        case Got(s, q) => Got(Text(prefix, s), q)
  }

  lemma NumberRoundTrip(e: Endian, w: nat, n: nat, v: View)
    requires n < Pow256(w) && 0 < w && At(v, Stored(e, w, n))
    ensures ReadNumber(e, w, v) == Got(n, v.pos + w)
  {
    LoadStored(e, w, n);
    SmallMod(n, Pow256(w));
  }

  lemma UnsignedRoundTrip(w: nat, n: nat, v: View)
    requires 0 < w && n < Pow256(w) && At(v, Varint(n))
    ensures ReadVarint(v, 8 * w, 0, 0) == Got(n, v.pos + |Varint(n)|)
  {
    Pow256IsPow2(w);
    VarintRoundTrip(v, 8 * w, 0, 0, n);
  }

  lemma LengthRoundTrip(e: Endian, p: Prefix, n: nat, v: View)
    requires n < Pow256(8) && At(v, LengthBytes(e, p, n))
    ensures ReadLength(e, p, v) == Got(Truncate(8 * PrefixWidth(p), n), v.pos + |LengthBytes(e, p, n)|)
  {
    var w := PrefixWidth(p);
    Pow256IsPow2(w);
    if p.Vint? {
      TruncateSmall(8 * w, n);
      UnsignedRoundTrip(w, n, v);
    } else {
      TruncateBound(8 * w, n);
      NumberRoundTrip(e, w, Truncate(8 * w, n), v);
    }
  }

  /** An empty string at the very end of the last block: the code then dereferences a null block. */
  predicate EmptyTextAtEnd(x: Value, end: nat, cap: nat) {
    x.Text? && x.s == [] && end == cap
  }

  /** Reading back one value: exactly when it is returned, and what happens otherwise. */
  lemma ValueRoundTrip(e: Endian, x: Value, v: View)
    requires InRange(x) && At(v, Encoded(e, x))
    ensures var end := v.pos + |Encoded(e, x)|; var r := Decoded(e, KindOf(x), v);
      && (LengthFits(x) && !EmptyTextAtEnd(x, end, v.cap) ==> r == Got(x, end))
      && (EmptyTextAtEnd(x, end, v.cap) ==> r == Stop(NullDeref, end))
      && (!LengthFits(x) ==> !(r.Got? && r.value == x))
  {
    match x
    case Fixed(w, signed, n) => FixedRoundTrip(e, w, signed, n, v);
    case Unsigned(w, n) => UnsignedRoundTrip(w, n, v);
    case Signed(w, n) =>
      ZigzagRoundTrip(w, n);
      UnsignedRoundTrip(w, ZigzagEncode(w, n), v);
    case Text(p, s) => TextValueRoundTrip(e, p, s, v);
  }

  lemma TextValueRoundTrip(e: Endian, p: Prefix, s: seq<byte>, v: View)
    requires |s| < Pow256(8) && At(v, LengthBytes(e, p, |s|) + s)
    ensures var end := v.pos + |LengthBytes(e, p, |s|)| + |s|; var r := Decoded(e, TextKind(p), v);
      && (|s| < Pow256(PrefixWidth(p)) && !(s == [] && end == v.cap) ==> r == Got(Text(p, s), end))
      && (s == [] && end == v.cap ==> r == Stop(NullDeref, end))
      && (|s| >= Pow256(PrefixWidth(p)) ==> !(r.Got? && r.value == Text(p, s)))
  {
    TextRoundTrip(e, p, s, v);
    CutLength(p, |s|);
    assert s[..|s|] == s;
  }

  lemma FixedRoundTrip(e: Endian, w: nat, signed: bool, n: int, v: View)
    requires InRange(Fixed(w, signed, n)) && At(v, Encoded(e, Fixed(w, signed, n)))
    ensures Decoded(e, FixedKind(w, signed), v) == Got(Fixed(w, signed, n), v.pos + w)
  {
    NumberRoundTrip(e, w, if signed then AsUnsigned(w, n) else n, v);
  }

  /** The length field keeps the low bits of the length: all of it exactly when it fits. */
  lemma CutLength(p: Prefix, n: nat)
    ensures var m := Truncate(8 * PrefixWidth(p), n); m <= n && (m == n <==> n < Pow256(PrefixWidth(p)))
  {
    var w := PrefixWidth(p);
    Pow256IsPow2(w);
    TruncateBound(8 * w, n);
    if n < Pow256(w) {
      TruncateSmall(8 * w, n);
    }
  }

  lemma TextRoundTrip(e: Endian, p: Prefix, s: seq<byte>, v: View)
    requires |s| < Pow256(8) && At(v, LengthBytes(e, p, |s|) + s)
    ensures var m := Truncate(8 * PrefixWidth(p), |s|); var mid := v.pos + |LengthBytes(e, p, |s|)|;
      && m <= |s|
      && Decoded(e, TextKind(p), v) == if mid == v.cap then Stop(NullDeref, mid) else Got(Text(p, s[..m]), mid + m)
  {
    var l, m := LengthBytes(e, p, |s|), Truncate(8 * PrefixWidth(p), |s|);
    CutLength(p, |s|);
    LengthOfText(e, p, l, s, v, m);
    TextTail(e, p, l, s, v, m);
  }

  /** The length in front of a text is read back as far as its field goes. */
  lemma LengthOfText(e: Endian, p: Prefix, l: seq<byte>, s: seq<byte>, v: View, m: nat)
    requires |s| < Pow256(8) && l == LengthBytes(e, p, |s|) && At(v, l + s) && m == Truncate(8 * PrefixWidth(p), |s|)
    ensures ReadLength(e, p, v) == Got(m, v.pos + |l|)
  {
    AtSplit(v, l + s, l, s);
    LengthRoundTrip(e, p, |s|, v);
  }

  lemma SliceOfSlice(s: seq<byte>, a: nat, n: nat, b: nat, m: nat)
    requires b + m <= n && a + n <= |s|
    ensures s[a..a + n][b..b + m] == s[a + b..a + b + m]
  {
    var x, y := s[a..a + n][b..b + m], s[a + b..a + b + m];
    assert |x| == |y|;
    assert forall i :: 0 <= i < |x| ==> x[i] == s[a..a + n][b + i] == s[a + (b + i)] == y[i];
  }

  lemma AtSplit(v: View, all: seq<byte>, a: seq<byte>, b: seq<byte>)
    requires At(v, all) && all == a + b
    ensures At(v, a) && At(v.(pos := v.pos + |a|), b)
  {
    assert all[0..|a|] == a && all[|a|..|a| + |b|] == b;
    SliceOfSlice(v.data, v.pos, |all|, 0, |a|);
    SliceOfSlice(v.data, v.pos, |all|, |a|, |b|);
  }

  lemma ReadPrefix(v: View, s: seq<byte>, m: nat)
    requires At(v, s) && m <= |s|
    ensures ReadBytes(v, m) == if v.pos == v.cap then Stop(NullDeref, v.pos) else Got(s[..m], v.pos + m)
  {
    SliceOfSlice(v.data, v.pos, |s|, 0, m);
    assert s[0..m] == s[..m];
  }

  /** With the length `m` read back, the body is the next `m` bytes. */
  lemma TextTail(e: Endian, p: Prefix, l: seq<byte>, s: seq<byte>, v: View, m: nat)
    requires At(v, l + s) && m <= |s| && ReadLength(e, p, v) == Got(m, v.pos + |l|)
    ensures var mid := v.pos + |l|;
      Decoded(e, TextKind(p), v) == if mid == v.cap then Stop(NullDeref, mid) else Got(Text(p, s[..m]), mid + m)
  {
    AtSplit(v, l + s, l, s);
    var u := v.(pos := v.pos + |l|);
    ReadPrefix(u, s, m);
    TextStep(e, p, v, u, m);
  }

  lemma TextStep(e: Endian, p: Prefix, v: View, u: View, m: nat)
    requires v.pos <= |v.data| && u.pos <= |u.data| && u == v.(pos := u.pos) && ReadLength(e, p, v) == Got(m, u.pos)
    ensures Decoded(e, TextKind(p), v) ==
      (match ReadBytes(u, m) case Stop(why, q) => Stop(why, q) case Got(s, q) => Got(Text(p, s), q))
  {
  }

  // ---- the writing and reading calls ----

  /** `writeFint*` and `writeFuint*`: swap if the orders differ, then copy from the host's memory. */
  method WriteNumber(ba: ByteArray, host: Endian, w: nat, n: nat)
    requires ba.Valid()
    modifies ba, ba.blocks
    ensures ba.Valid() && ba.OnlyGrew()
    ensures WriteEffect(ba.baseSize, old(ba.AsFlat()), Stored(ba.endian, w, n), ba.AsFlat())
  {
    var value := n;
    if ba.endian != host {
      value := ByteSwap(w, n);
    }
    StoreOnHost(host, ba.endian, w, n);
    ba.Write(Stored(host, w, value));
  }

  /** `writeUint32` and `writeUint64`: the bytes are collected in a buffer of 5 or 10. */
  method WriteVarint(ba: ByteArray, w: nat, n: nat)
    requires ba.Valid() && w in {4, 8} && n < Pow256(w)
    modifies ba, ba.blocks
    ensures ba.Valid() && ba.OnlyGrew()
    ensures WriteEffect(ba.baseSize, old(ba.AsFlat()), Varint(n), ba.AsFlat())
  {
    var bytes := VarintBytes(w, n);
    ba.Write(bytes);
  }

  method VarintBytes(w: nat, n: nat) returns (bytes: seq<byte>)
    requires w in {4, 8} && n < Pow256(w)
    ensures bytes == Varint(n) && |bytes| <= (if w == 4 then 5 else 10)
  {
    var temp := new byte[if w == 4 then 5 else 10];
    VarintFits(w, n);
    var i, value := 0, n;
    while value >= 0x80
      invariant 0 <= i && i + |Varint(value)| == |Varint(n)| <= temp.Length
      invariant temp[..i] + Varint(value) == Varint(n)
    {
      ghost var rest := Varint(value);
      assert rest == [value % 128 + 128] + Varint(value / 128);
      temp[i] := value % 128 + 128;
      i := i + 1;
      value := value / 128;
    }
    temp[i] := value;
    i := i + 1;
    assert temp[..i] == temp[..i - 1] + [value];
    bytes := temp[..i];
  }

  /** Five bytes hold any 32-bit value, ten bytes any 64-bit value. */
  lemma VarintFits(w: nat, n: nat)
    requires w in {4, 8} && n < Pow256(w)
    ensures |Varint(n)| <= if w == 4 then 5 else 10
  {
    Pow256IsPow2(w);
    Pow2Mono(32, 35);
    Pow2Mono(64, 70);
    VarintLength(n, if w == 4 then 5 else 10);
  }

  /** `writeStringF16`, `F32`, `F64` and `Vint`: the length, cut to its width, then the bytes. */
  method WriteText(ba: ByteArray, host: Endian, p: Prefix, s: seq<byte>)
    requires ba.Valid() && |s| < Pow256(8)
    modifies ba, ba.blocks
    ensures ba.Valid() && ba.OnlyGrew()
    ensures WriteEffect(ba.baseSize, old(ba.AsFlat()), LengthBytes(ba.endian, p, |s|) + s, ba.AsFlat())
  {
    if p.Vint? {
      WriteVarint(ba, 8, |s|);
    } else {
      WriteNumber(ba, host, PrefixWidth(p), Truncate(8 * PrefixWidth(p), |s|));
    }
    ghost var mid := ba.AsFlat();
    ba.Write(s);
    WriteTwice(ba.baseSize, old(ba.AsFlat()), LengthBytes(ba.endian, p, |s|), mid, s, ba.AsFlat());
  }

  method WriteValue(ba: ByteArray, host: Endian, x: Value)
    requires ba.Valid() && InRange(x)
    modifies ba, ba.blocks
    ensures ba.Valid() && ba.OnlyGrew()
    ensures WriteEffect(ba.baseSize, old(ba.AsFlat()), Encoded(ba.endian, x), ba.AsFlat())
  {
    match x
    case Fixed(w, signed, v) => WriteNumber(ba, host, w, if signed then AsUnsigned(w, v) else v);
    case Unsigned(w, n) => WriteVarint(ba, w, n);
    case Signed(w, v) => WriteVarint(ba, w, ZigzagEncode(w, v));
    case Text(p, s) => WriteText(ba, host, p, s);
  }

  /** `readFint*` and `readFuint*`: copy into the host's memory, swap if the orders differ. */
  method LoadNumber(ba: ByteArray, host: Endian, w: nat) returns (r: Read<nat>)
    requires ba.Valid()
    modifies ba`position, ba`cur
    ensures ba.Valid() && r == ReadNumber(ba.endian, w, old(ba.AsView()))
    ensures ba.AsView() == old(ba.AsView()).(pos := r.pos)
  {
    var got := ba.Read(w);
    if got.Stop? { return Stop(got.why, got.pos); }
    var n := Loaded(host, got.value);
    if ba.endian != host {
      n := ByteSwap(w, n);
    }
    ReadOnHost(host, ba.endian, got.value);
    return Got(n, got.pos);
  }

  /** `readUint32` and `readUint64`: seven bits a byte until a byte below 0x80 or the width is reached. */
  method LoadVarint(ba: ByteArray, w: nat) returns (r: Read<nat>)
    requires ba.Valid()
    modifies ba`position, ba`cur
    ensures ba.Valid() && r == ReadVarint(old(ba.AsView()), 8 * w, 0, 0)
    ensures ba.AsView() == old(ba.AsView()).(pos := r.pos)
  {
    var result, i := 0, 0;
    while i < 8 * w
      invariant 0 <= i && 0 <= result && ba.Valid()
      invariant ba.AsView() == old(ba.AsView()).(pos := ba.AsView().pos)
      invariant ReadVarint(ba.AsView(), 8 * w, i, result) == ReadVarint(old(ba.AsView()), 8 * w, 0, 0)
    {
      var more;
      r, more := LoadSeven(ba, 8 * w, i, result);
      if r.Stop? || !more { return; }
      result := r.value;
      i := i + 7;
    }
    return Got(result, ba.position);
  }

  /** One turn of the loop: the next seven bits, and whether the byte says that more follow. */
  method LoadSeven(ba: ByteArray, bits: nat, i: nat, result: nat) returns (r: Read<nat>, more: bool)
    requires ba.Valid() && i < bits
    modifies ba`position, ba`cur
    ensures ba.Valid() && ba.AsView() == old(ba.AsView()).(pos := r.pos)
    ensures ReadVarint(old(ba.AsView()), bits, i, result) ==
      if r.Got? && more then ReadVarint(ba.AsView(), bits, i + 7, r.value) else r
  {
    var got := ba.Read(1);
    if got.Stop? { return Stop(got.why, got.pos), false; }
    var b := got.value[0];
    if b < 0x80 {
      return Got(Bitwise(Or, result, ShiftLeft(bits, b, i)), got.pos), false;
    }
    return Got(Bitwise(Or, result, ShiftLeft(bits, b % 128, i)), got.pos), true;
  }

  method LoadLength(ba: ByteArray, host: Endian, p: Prefix) returns (r: Read<nat>)
    requires ba.Valid()
    modifies ba`position, ba`cur
    ensures ba.Valid() && r == ReadLength(ba.endian, p, old(ba.AsView()))
    ensures ba.AsView() == old(ba.AsView()).(pos := r.pos)
  {
    if p.Vint? {
      r := LoadVarint(ba, 8);
    } else {
      r := LoadNumber(ba, host, PrefixWidth(p));
    }
  }

  method LoadText(ba: ByteArray, host: Endian, p: Prefix) returns (r: Read<Value>)
    requires ba.Valid()
    modifies ba`position, ba`cur
    ensures ba.Valid() && r == Decoded(ba.endian, TextKind(p), old(ba.AsView()))
    ensures ba.AsView() == old(ba.AsView()).(pos := r.pos)
  {
    var len := LoadLength(ba, host, p);
    if len.Stop? { return Stop(len.why, len.pos); }
    r := LoadBody(ba, p, len.value, old(ba.AsView()));
  }

  /** The bytes of a string behind its length, which was read from `v`. */
  method LoadBody(ba: ByteArray, p: Prefix, n: nat, ghost v: View) returns (r: Read<Value>)
    requires ba.Valid() && v.pos <= |v.data| && ba.AsView() == v.(pos := ba.AsView().pos)
    requires ReadLength(ba.endian, p, v) == Got(n, ba.AsView().pos)
    modifies ba`position, ba`cur
    ensures ba.Valid() && r == Decoded(ba.endian, TextKind(p), v) && ba.AsView() == v.(pos := r.pos)
  {
    TextStep(ba.endian, p, v, ba.AsView(), n);
    var body := ba.Read(n);
    if body.Stop? { return Stop(body.why, body.pos); }
    return Got(Text(p, body.value), body.pos);
  }

  method ReadValue(ba: ByteArray, host: Endian, k: Kind) returns (r: Read<Value>)
    requires ba.Valid() && ValidKind(k)
    modifies ba`position, ba`cur
    ensures ba.Valid() && r == Decoded(ba.endian, k, old(ba.AsView()))
    ensures ba.AsView() == old(ba.AsView()).(pos := r.pos)
  {
    match k
    case FixedKind(w, signed) =>
      var n := LoadNumber(ba, host, w);
      if n.Stop? { return Stop(n.why, n.pos); }
      return Got(Fixed(w, signed, if signed then AsSigned(w, n.value) else n.value), n.pos);
    case VarintKind(w) =>
      var n := LoadVarint(ba, w);
      if n.Stop? { return Stop(n.why, n.pos); }
      return Got(Unsigned(w, n.value), n.pos);
    case ZigzagKind(w) =>
      var n := LoadVarint(ba, w);
      if n.Stop? { return Stop(n.why, n.pos); }
      return Got(Signed(w, ZigzagDecode(w, n.value)), n.pos);
    case TextKind(p) =>
      r := LoadText(ba, host, p);
  }

  // ---- whole streams ----

  ghost predicate AllInRange(xs: seq<Value>) {
    forall i :: 0 <= i < |xs| ==> InRange(xs[i])
  }

  function Concat(parts: seq<seq<byte>>): seq<byte> {
    if parts == [] then [] else parts[0] + Concat(parts[1..])
  }

  function EncodedEach(e: Endian, xs: seq<Value>): (parts: seq<seq<byte>>)
    requires AllInRange(xs)
    ensures |parts| == |xs| && forall i :: 0 <= i < |xs| ==> parts[i] == Encoded(e, xs[i])
  {
    seq(|xs|, i requires 0 <= i < |xs| => Encoded(e, xs[i]))
  }

  /** The bytes of a whole stream. */
  function EncodedAll(e: Endian, xs: seq<Value>): seq<byte>
    requires AllInRange(xs)
  {
    Concat(EncodedEach(e, xs))
  }

  lemma {:induction false} ConcatAppend(parts: seq<seq<byte>>, last: seq<byte>)
    ensures Concat(parts + [last]) == Concat(parts) + last
  {
    if parts == [] {
      assert [last][1..] == [];
      assert Concat([last]) == last + [] == last;
    } else {
      ConcatAppend(parts[1..], last);
      assert (parts + [last])[1..] == parts[1..] + [last];
      assert parts[0] + (Concat(parts[1..]) + last) == parts[0] + Concat(parts[1..]) + last;
    }
  }

  lemma EncodedAllAppend(e: Endian, xs: seq<Value>, y: Value)
    requires AllInRange(xs) && InRange(y)
    ensures EncodedAll(e, xs + [y]) == EncodedAll(e, xs) + Encoded(e, y)
  {
    assert EncodedEach(e, xs + [y]) == EncodedEach(e, xs) + [Encoded(e, y)];
    ConcatAppend(EncodedEach(e, xs), Encoded(e, y));
  }

  lemma EncodedAllCons(e: Endian, xs: seq<Value>)
    requires AllInRange(xs) && xs != []
    ensures EncodedAll(e, xs) == Encoded(e, xs[0]) + EncodedAll(e, xs[1..])
  {
    assert EncodedEach(e, xs)[1..] == EncodedEach(e, xs[1..]);
  }

  function KindsOf(xs: seq<Value>): (ks: seq<Kind>)
    ensures |ks| == |xs| && forall i :: 0 <= i < |xs| ==> ks[i] == KindOf(xs[i])
  {
    if xs == [] then [] else [KindOf(xs[0])] + KindsOf(xs[1..])
  }

  ghost predicate AllValid(ks: seq<Kind>) {
    forall i :: 0 <= i < |ks| ==> ValidKind(ks[i])
  }

  /** Reading a list of kinds one after the other; the first failure ends it. */
  ghost function DecodedAll(e: Endian, ks: seq<Kind>, v: View): (r: Read<seq<Value>>)
    requires AllValid(ks) && v.pos <= |v.data|
  {
    if ks == [] then Got([], v.pos)
    else
      match Decoded(e, ks[0], v)
      case Stop(why, p) => Stop(why, p)
      case Got(x, p) =>
        match DecodedAll(e, ks[1..], v.(pos := p))
        case Stop(why, q) => Stop(why, q)
        case Got(ys, q) => Got([x] + ys, q)
  }

  /** The stream can be read back: no length was cut, and no empty string ends at the capacity. */
  ghost predicate Readable(xs: seq<Value>, end: nat, cap: nat) {
    && (forall i :: 0 <= i < |xs| ==> LengthFits(xs[i]))
    && (xs != [] ==> !EmptyTextAtEnd(xs[|xs| - 1], end, cap))
  }

  lemma {:induction false} EncodedAllPositive(e: Endian, xs: seq<Value>)
    requires AllInRange(xs) && xs != []
    ensures |EncodedAll(e, xs)| > 0
  {
    EncodedAllCons(e, xs);
    match xs[0]
    case Text(p, s) => assert |LengthBytes(e, p, |s|)| > 0;
    case Fixed(_, _, _) =>
    case Unsigned(_, _) =>
    case Signed(_, _) =>
  }

  /** A stream at the cursor is its first value, with the rest of the stream behind it. */
  lemma StreamSplit(e: Endian, xs: seq<Value>, v: View)
    requires AllInRange(xs) && xs != [] && At(v, EncodedAll(e, xs)) && v.pos + |EncodedAll(e, xs)| == |v.data|
    ensures At(v, Encoded(e, xs[0])) && AllInRange(xs[1..])
    ensures At(v.(pos := v.pos + |Encoded(e, xs[0])|), EncodedAll(e, xs[1..]))
    ensures v.pos + |Encoded(e, xs[0])| + |EncodedAll(e, xs[1..])| == |v.data|
  {
    var all, head, rest := EncodedAll(e, xs), Encoded(e, xs[0]), EncodedAll(e, xs[1..]);
    assert all == head + rest by { EncodedAllCons(e, xs); }
    AtSplit(v, all, head, rest);
  }

  /** Reading the same kinds back returns the same values exactly when the stream is readable. */
  lemma {:induction false} StreamRoundTrip(e: Endian, xs: seq<Value>, v: View)
    requires AllInRange(xs) && At(v, EncodedAll(e, xs)) && v.pos + |EncodedAll(e, xs)| == |v.data|
    ensures DecodedAll(e, KindsOf(xs), v) == Got(xs, |v.data|) <==> Readable(xs, |v.data|, v.cap)
  {
    if xs != [] {
      var u := v.(pos := v.pos + |Encoded(e, xs[0])|);
      StreamSplit(e, xs, v);
      StreamRoundTrip(e, xs[1..], u);
      HeadRoundTrip(e, xs[0], v, |v.data|, xs[1..]);
      ReadableSplit(xs, |v.data|, v.cap);
      StepRoundTrip(e, xs, v, u);
    }
  }

  /**
   * The first value of a stream that ends at `end` is read back unless its length was cut or it is an
   * empty last string.
   */
  lemma HeadRoundTrip(e: Endian, x: Value, v: View, end: nat, rest: seq<Value>)
    requires InRange(x) && AllInRange(rest) && At(v, Encoded(e, x)) && end <= v.cap
    requires v.pos + |Encoded(e, x)| + |EncodedAll(e, rest)| == end
    ensures var r := Decoded(e, KindOf(x), v);
      && (r.Got? && r.value == x ==> r == Got(x, v.pos + |Encoded(e, x)|))
      && (r.Got? && r.value == x <==> LengthFits(x) && (rest == [] ==> !EmptyTextAtEnd(x, end, v.cap)))
  {
    ValueRoundTrip(e, x, v);
    if rest != [] {
      EncodedAllPositive(e, rest);
    }
  }

  lemma ReadableSplit(xs: seq<Value>, end: nat, cap: nat)
    requires xs != []
    ensures Readable(xs, end, cap) <==>
      && LengthFits(xs[0]) && Readable(xs[1..], end, cap)
      && (|xs| == 1 ==> !EmptyTextAtEnd(xs[0], end, cap))
  {
    assert forall i :: 0 < i < |xs| ==> xs[i] == xs[1..][i - 1];
  }

  /** The first value and the rest of the stream are decided independently. */
  lemma StepRoundTrip(e: Endian, xs: seq<Value>, v: View, u: View)
    requires xs != [] && AllValid(KindsOf(xs)) && v.pos <= |v.data| && u.pos <= |u.data| && u == v.(pos := u.pos)
    requires Decoded(e, KindOf(xs[0]), v).Got? && Decoded(e, KindOf(xs[0]), v).value == xs[0] ==>
      Decoded(e, KindOf(xs[0]), v) == Got(xs[0], u.pos)
    ensures DecodedAll(e, KindsOf(xs), v) == Got(xs, |v.data|) <==>
      && Decoded(e, KindOf(xs[0]), v) == Got(xs[0], u.pos)
      && AllValid(KindsOf(xs[1..])) && DecodedAll(e, KindsOf(xs[1..]), u) == Got(xs[1..], |v.data|)
  {
    assert KindsOf(xs)[1..] == KindsOf(xs[1..]);
    assert xs == [xs[0]] + xs[1..];
  }

  /** All values, one call after the other. */
  method WriteAll(ba: ByteArray, host: Endian, xs: seq<Value>)
    requires ba.Valid() && AllInRange(xs)
    modifies ba, ba.blocks
    ensures ba.Valid() && ba.OnlyGrew()
    ensures WriteEffect(ba.baseSize, old(ba.AsFlat()), EncodedAll(ba.endian, xs), ba.AsFlat())
  {
    ghost var s := ba.AsFlat();
    var i := 0;
    while i < |xs|
      invariant 0 <= i <= |xs| && ba.Valid() && ba.OnlyGrew()
      invariant WriteEffect(ba.baseSize, s, EncodedAll(ba.endian, xs[..i]), ba.AsFlat())
    {
      WriteNext(ba, host, xs, i, s);
      i := i + 1;
    }
    assert xs[..i] == xs;
  }

  /** One more value behind the first `i`. */
  method WriteNext(ba: ByteArray, host: Endian, xs: seq<Value>, i: nat, ghost s: Flat)
    requires ba.Valid() && AllInRange(xs) && i < |xs|
    requires WriteEffect(ba.baseSize, s, EncodedAll(ba.endian, xs[..i]), ba.AsFlat())
    modifies ba, ba.blocks
    ensures ba.Valid() && ba.OnlyGrew()
    ensures WriteEffect(ba.baseSize, s, EncodedAll(ba.endian, xs[..i + 1]), ba.AsFlat())
  {
    ghost var mid, d := ba.AsFlat(), EncodedAll(ba.endian, xs[..i]);
    WriteValue(ba, host, xs[i]);
    assert xs[..i + 1] == xs[..i] + [xs[i]];
    EncodedAllAppend(ba.endian, xs[..i], xs[i]);
    WriteTwice(ba.baseSize, s, d, mid, Encoded(ba.endian, xs[i]), ba.AsFlat());
  }

  /** A reading run that has already produced `got`. */
  ghost function Before(got: seq<Value>, r: Read<seq<Value>>): (all: Read<seq<Value>>)
    ensures got == [] ==> all == r
  {
    if r.Got? then
      assert [] + r.value == r.value;
      Got(got + r.value, r.pos)
    else r
  }

  lemma BeforeOne(e: Endian, ks: seq<Kind>, v: View, got: seq<Value>)
    requires ks != [] && AllValid(ks) && v.pos <= |v.data|
    ensures var x := Decoded(e, ks[0], v);
      Before(got, DecodedAll(e, ks, v)) ==
        if x.Got? then Before(got + [x.value], DecodedAll(e, ks[1..], v.(pos := x.pos))) else Stop(x.why, x.pos)
  {
    var x := Decoded(e, ks[0], v);
    if x.Got? {
      var rest := DecodedAll(e, ks[1..], v.(pos := x.pos));
      if rest.Got? {
        assert got + ([x.value] + rest.value) == got + [x.value] + rest.value;
      }
    }
  }

  /** All kinds, one call after the other, up to the first failure. */
  method ReadAll(ba: ByteArray, host: Endian, ks: seq<Kind>) returns (r: Read<seq<Value>>)
    requires ba.Valid() && AllValid(ks)
    modifies ba`position, ba`cur
    ensures ba.Valid() && r == DecodedAll(ba.endian, ks, old(ba.AsView()))
    ensures r.Got? ==> ba.position == r.pos
  {
    ghost var all := DecodedAll(ba.endian, ks, ba.AsView());
    var i, got := 0, [];
    assert ks[0..] == ks;
    while i < |ks|
      invariant 0 <= i <= |ks| && ba.Valid()
      invariant Before(got, DecodedAll(ba.endian, ks[i..], ba.AsView())) == all
    {
      var x := ReadNext(ba, host, ks, i, got);
      if x.Stop? { return Stop(x.why, x.pos); }
      got := got + [x.value];
      i := i + 1;
    }
    assert got + [] == got;
    return Got(got, ba.position);
  }

  /** One more kind after the first `i`. */
  method ReadNext(ba: ByteArray, host: Endian, ks: seq<Kind>, i: nat, ghost got: seq<Value>) returns (x: Read<Value>)
    requires ba.Valid() && AllValid(ks) && i < |ks|
    modifies ba`position, ba`cur
    ensures ba.Valid() && (x.Stop? ==>
      Before(got, DecodedAll(ba.endian, ks[i..], old(ba.AsView()))) == Stop(x.why, x.pos))
    ensures x.Got? ==>
      Before(got, DecodedAll(ba.endian, ks[i..], old(ba.AsView())))
      == Before(got + [x.value], DecodedAll(ba.endian, ks[i + 1..], ba.AsView()))
  {
    assert ks[i..][1..] == ks[i + 1..];
    BeforeOne(ba.endian, ks[i..], ba.AsView(), got);
    x := ReadValue(ba, host, ks[i]);
  }

  /** No length was cut, and the stream does not end with an empty string at the end of a block. */
  ghost predicate ReadBack(base: nat, e: Endian, xs: seq<Value>)
    requires 0 < base && AllInRange(xs)
  {
    && (forall i :: 0 <= i < |xs| ==> LengthFits(xs[i]))
    && !(xs != [] && xs[|xs| - 1].Text? && xs[|xs| - 1].s == [] && |EncodedAll(e, xs)| % base == 0)
  }

  /** A fresh buffer that holds the stream and nothing else, with the cursor at its start. */
  method WriteFresh(base: nat, host: Endian, e: Endian, xs: seq<Value>) returns (ba: ByteArray)
    requires 0 < base && AllInRange(xs)
    ensures fresh(ba) && ba.Valid() && ba.endian == e
    ensures ba.AsView() == View(EncodedAll(e, xs), 0, Grown(base, base, |EncodedAll(e, xs)|))
  {
    ba := new ByteArray(base);
    ba.endian := e;
    WriteAll(ba, host, xs);
    var o := ba.SetPosition(0);
  }

  /**
   * Writing any list of values into a fresh buffer of any block size, moving the cursor back to the
   * start and reading the same kinds returns the same values and leaves nothing to read, exactly
   * when no string was longer than its length field can say and the stream does not end with an
   * empty string that fills the last block to its end.
   */
  method RoundTrip(base: nat, host: Endian, e: Endian, xs: seq<Value>) returns (r: Read<seq<Value>>)
    requires 0 < base && AllInRange(xs)
    ensures r == Got(xs, |EncodedAll(e, xs)|) <==> ReadBack(base, e, xs)
  {
    var ba := WriteFresh(base, host, e, xs);
    r := ReadAll(ba, host, KindsOf(xs));
    FreshRoundTrip(base, e, xs);
  }

  /** What can be read back from a buffer that holds nothing but the stream, from its start. */
  lemma FreshRoundTrip(base: nat, e: Endian, xs: seq<Value>)
    requires 0 < base && AllInRange(xs)
    ensures var n := |EncodedAll(e, xs)|; var v := View(EncodedAll(e, xs), 0, Grown(base, base, n));
      DecodedAll(e, KindsOf(xs), v) == Got(xs, n) <==> ReadBack(base, e, xs)
  {
    var n := |EncodedAll(e, xs)|;
    var v := View(EncodedAll(e, xs), 0, Grown(base, base, n));
    assert v.data[0..n] == EncodedAll(e, xs);
    StreamRoundTrip(e, xs, v);
    if xs != [] {
      EncodedAllPositive(e, xs);
      FullBlocks(base, n);
    }
  }

  // ---- instances of what goes wrong ----

  /** A full buffer: reading nothing, a window up to the end, and moving to the end. */
  method NullBlocks() returns (read: Read<seq<byte>>, window: Outcome, moved: Outcome)
    ensures read == Stop(NullDeref, 1) && window == NullDeref && moved == NullDeref
  {
    var ba := new ByteArray(1);
    ba.Write([7]);
    assert ba.capacity == 1 && ba.position == 1 && ba.size == 1;
    read := ba.Read(0);
    var o := ba.SetPosition(0);
    var ws, n;
    window, ws, n := ba.GetReadBuf(1);
    moved := ba.SetPosition(1);
  }

  /** An empty string whose length fills the only block is not read back. */
  lemma EmptyTextIsLost(e: Endian)
    ensures AllInRange([Text(F32, [])]) && !ReadBack(4, e, [Text(F32, [])])
  {
    var xs := [Text(F32, [])];
    EncodedAllCons(e, xs);
    assert xs[1..] == [] && |EncodedAll(e, [])| == 0;
    assert |Encoded(e, xs[0])| == 4;
  }

  /** A string of 65536 bytes does not fit a length of two bytes. */
  lemma LongTextIsLost(base: nat, e: Endian, s: seq<byte>)
    requires 0 < base && |s| == 65536
    ensures AllInRange([Text(F16, s)]) && !ReadBack(base, e, [Text(F16, s)])
  {
    assert Pow256(2) == 256 * (256 * Pow256(0));
    assert Pow256(4) == 256 * (256 * Pow256(2)) && Pow256(6) == 256 * (256 * Pow256(4));
    assert Pow256(8) == 256 * (256 * Pow256(6));
    assert !LengthFits([Text(F16, s)][0]);
  }
}
