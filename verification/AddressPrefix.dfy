/** Prefix masks of IPv4 and IPv6 addresses, and the bit count that recovers a prefix length. */
module AddressPrefix {
  import opened Codec

  // ---- bits of unsigned integers ----

  lemma BitwiseStep(op: BitOp, a: nat, x: nat, b: nat, y: nat)
    requires x < 2 && y < 2
    ensures Bitwise(op, 2 * a + x, 2 * b + y) == Bit(op, x, y) + 2 * Bitwise(op, a, b)
  {
  }

  lemma Halves(n: nat, k: nat) returns (h: nat, x: nat)
    requires k > 0
    ensures n == 2 * h + x && x < 2 && (n < Pow2(k) ==> h < Pow2(k - 1))
  {
    h, x := n / 2, n % 2;
  }

  /** One more low bit on both sides. */
  lemma PartsStep(op: BitOp, a: nat, s: nat, x: nat, b: nat, s': nat, y: nat, t: nat)
    requires x < 2 && y < 2 && Bitwise(op, a + s, b + s') == Bitwise(op, a, b) + t
    ensures Bitwise(op, 2 * a + x + 2 * s, 2 * b + y + 2 * s') == Bitwise(op, 2 * a + x, 2 * b + y) + 2 * t
  {
    BitwiseStep(op, a + s, x, b + s', y);
    BitwiseStep(op, a, x, b, y);
    assert 2 * (a + s) + x == 2 * a + x + 2 * s && 2 * (b + s') + y == 2 * b + y + 2 * s';
  }

  /** The operators work on low and high parts separately. */
  lemma {:induction false} BitwiseParts(op: BitOp, k: nat, l: nat, h: nat, l': nat, h': nat)
    requires l < Pow2(k) && l' < Pow2(k)
    ensures Bitwise(op, l + Shl(h, k), l' + Shl(h', k)) == Bitwise(op, l, l') + Shl(Bitwise(op, h, h'), k)
  {
    if k > 0 {
      var a, x := Halves(l, k);
      var b, y := Halves(l', k);
      BitwiseParts(op, k - 1, a, h, b, h');
      PartsStep(op, a, Shl(h, k - 1), x, b, Shl(h', k - 1), y, Shl(Bitwise(op, h, h'), k - 1));
    } else {
      assert Bitwise(op, 0, 0) == 0;
    }
  }

  lemma {:induction false} BitwiseBound(op: BitOp, k: nat, a: nat, b: nat)
    requires a < Pow2(k) && b < Pow2(k)
    ensures Bitwise(op, a, b) < Pow2(k)
  {
    if k > 0 {
      BitwiseBound(op, k - 1, a / 2, b / 2);
    }
  }

  // ---- network prefixes as numbers ----

  /** `a` without its low `k` bits. */
  function Drop(a: nat, k: nat): nat {
    if k == 0 then a else Drop(a / 2, k - 1)
  }

  /** `a` with its low `k` bits cleared, and with them set. */
  function Clear(a: nat, k: nat): nat {
    if k == 0 then a else 2 * Clear(a / 2, k - 1)
  }

  function Fill(a: nat, k: nat): nat {
    if k == 0 then a else 2 * Fill(a / 2, k - 1) + 1
  }

  lemma {:induction false} FillsLow(a: nat, k: nat)
    ensures Bitwise(Or, a, Pow2(k) - 1) == Fill(a, k)
  {
    if k == 0 {
      OrZero(a);
    } else {
      FillsLow(a / 2, k - 1);
      BitwiseStep(Or, a / 2, a % 2, Pow2(k - 1) - 1, 1);
    }
  }

  /** ANDing with the mask of `n - k` leading ones clears the same bits. */
  lemma {:induction false} AndClears(a: nat, k: nat, n: nat)
    requires k <= n && a < Pow2(n)
    ensures Pow2(k) <= Pow2(n) && Bitwise(And, a, Pow2(n) - Pow2(k)) == Clear(a, k)
  {
    if k == 0 {
      AllOnes(a, n);
    } else {
      AndClears(a / 2, k - 1, n - 1);
      BitwiseStep(And, a / 2, a % 2, Pow2(n - 1) - Pow2(k - 1), 0);
    }
  }

  lemma {:induction false} AllOnes(a: nat, n: nat)
    requires a < Pow2(n)
    ensures Bitwise(And, a, Pow2(n) - 1) == a
  {
    if n > 0 {
      AllOnes(a / 2, n - 1);
      BitwiseStep(And, a / 2, a % 2, Pow2(n - 1) - 1, 1);
    }
  }

  /** The addresses with the prefix of `a` are exactly those from the subnet address to the broadcast address. */
  lemma {:induction false} PrefixIsRange(a: nat, b: nat, k: nat)
    ensures Drop(a, k) == Drop(b, k) <==> Clear(a, k) <= b <= Fill(a, k)
  {
    if k > 0 {
      PrefixIsRange(a / 2, b / 2, k - 1);
    }
  }

  /** All addresses of a network have the same subnet and broadcast address, and these are among them. */
  lemma {:induction false} PrefixCanonical(a: nat, b: nat, k: nat)
    ensures Drop(a, k) == Drop(b, k) <==> Clear(a, k) == Clear(b, k)
    ensures Drop(a, k) == Drop(b, k) <==> Fill(a, k) == Fill(b, k)
    ensures Drop(Clear(a, k), k) == Drop(a, k) == Drop(Fill(a, k), k)
    ensures Fill(a, k) == Clear(a, k) + Pow2(k) - 1
  {
    if k > 0 {
      PrefixCanonical(a / 2, b / 2, k - 1);
    }
  }

  // ---- counting ones ----

  /** The number of ones in the binary notation. */
  function Ones(x: nat): nat {
    if x == 0 then 0 else x % 2 + Ones(x / 2)
  }

  lemma {:induction false} AndSelf(a: nat)
    ensures Bitwise(And, a, a) == a
  {
    if a > 0 {
      AndSelf(a / 2);
    }
  }

  lemma OnesDouble(h: nat)
    ensures Ones(2 * h) == Ones(h) && Ones(2 * h + 1) == Ones(h) + 1
  {
  }

  /** Only one of the two numbers is odd. */
  lemma AndMixed(a: nat, b: nat, r: nat)
    requires Bitwise(And, a, b) == r
    ensures Bitwise(And, 2 * a + 1, 2 * b) == 2 * r && Bitwise(And, 2 * a, 2 * b + 1) == 2 * r
  {
    BitwiseStep(And, a, 1, b, 0);
    BitwiseStep(And, a, 0, b, 1);
  }

  /** `y` is `x` without its lowest one. */
  predicate LowestCleared(x: nat, y: nat) {
    y < x && Ones(y) + 1 == Ones(x)
  }

  lemma ClearOdd(h: nat)
    ensures Bitwise(And, 2 * h + 1, 2 * h) == 2 * h && LowestCleared(2 * h + 1, 2 * h)
  {
    AndSelf(h);
    AndMixed(h, h, h);
    OnesDouble(h);
  }

  lemma ClearEven(h: nat, r: nat)
    requires h > 0 && Bitwise(And, h, h - 1) == r && LowestCleared(h, r)
    ensures Bitwise(And, 2 * h, 2 * h - 1) == 2 * r && LowestCleared(2 * h, 2 * r)
  {
    AndMixed(h, h - 1, r);
    OnesDouble(h);
    OnesDouble(r);
  }

  lemma {:induction false} ClearLowest(x: nat)
    requires x > 0
    ensures LowestCleared(x, Bitwise(And, x, x - 1))
  {
    var h := x / 2;
    if x == 2 * h + 1 {
      ClearOdd(h);
    } else {
      ClearLowest(h);
      ClearEven(h, Bitwise(And, h, h - 1));
    }
  }

  /** `CountBytes`: clear the lowest one until nothing is left. */
  method CountBytes(val: nat) returns (count: nat)
    ensures count == Ones(val)
  {
    var v := val;
    count := 0;
    while v != 0
      invariant count + Ones(v) == Ones(val)
      decreases v
    {
      ClearLowest(v);
      v := Bitwise(And, v, v - 1);
      count := count + 1;
    }
  }

  /** The mask of `n - k` leading ones has that many ones. */
  lemma {:induction false} MaskOnes(k: nat, n: nat)
    requires k <= n
    ensures Pow2(k) <= Pow2(n) && Ones(Pow2(n) - Pow2(k)) == n - k
  {
    if k > 0 {
      MaskOnes(k - 1, n - 1);
    } else if n > 0 {
      MaskOnes(0, n - 1);
      var m := Pow2(n - 1) - 1;
      assert Pow2(n) - Pow2(0) == 2 * m + 1;
    }
  }

  lemma {:induction false} OnesParts(k: nat, l: nat, h: nat)
    requires l < Pow2(k)
    ensures Ones(l + Shl(h, k)) == Ones(l) + Ones(h)
  {
    if k > 0 {
      OnesParts(k - 1, l / 2, h);
    }
  }

  // ---- byte order ----

  lemma {:induction false} UpIsShl(n: nat, w: nat)
    ensures Up(n, w) == Shl(n, 8 * w)
  {
    if w > 0 {
      UpIsShl(n, w - 1);
      ShlEight(n, 8 * (w - 1));
    }
  }

  lemma ShlEight(n: nat, k: nat)
    ensures Shl(n, k + 8) == 256 * Shl(n, k)
  {
    assert Shl(n, k + 2) == 4 * Shl(n, k);
    assert Shl(n, k + 4) == 4 * Shl(n, k + 2);
    assert Shl(n, k + 6) == 4 * Shl(n, k + 4);
  }

  lemma EightBits()
    ensures Pow2(8) == 256
  {
    assert Pow2(2) == 4 && Pow2(4) == 4 * Pow2(2) && Pow2(6) == 4 * Pow2(4) && Pow2(8) == 4 * Pow2(6);
  }

  lemma ByteParts(op: BitOp, l: nat, h: nat, l': nat, h': nat)
    requires l < 256 && l' < 256
    ensures Bitwise(op, l + 256 * h, l' + 256 * h') == Bitwise(op, l, l') + 256 * Bitwise(op, h, h')
    ensures Bitwise(op, l, l') < 256
  {
    EightBits();
    ShlEight(h, 0);
    ShlEight(h', 0);
    ShlEight(Bitwise(op, h, h'), 0);
    BitwiseParts(op, 8, l, h, l', h');
    BitwiseBound(op, 8, l, l');
  }

  lemma SwapStep(w: nat, l: nat, h: nat)
    requires w > 0 && l < 256
    ensures ByteSwap(w, l + 256 * h) == Up(l, w - 1) + ByteSwap(w - 1, h)
  {
    assert (l + 256 * h) % 256 == l && (l + 256 * h) / 256 == h;
  }

  lemma TopParts(op: BitOp, w: nat, t: nat, s: nat, t': nat, s': nat)
    requires s < Pow256(w) && s' < Pow256(w)
    ensures Bitwise(op, Up(t, w) + s, Up(t', w) + s') == Up(Bitwise(op, t, t'), w) + Bitwise(op, s, s')
  {
    Pow256IsPow2(w);
    UpIsShl(t, w);
    UpIsShl(t', w);
    UpIsShl(Bitwise(op, t, t'), w);
    BitwiseParts(op, 8 * w, s, t, s', t');
  }

  lemma LowAndHigh(a: nat) returns (l: nat, h: nat)
    ensures l < 256 && a == l + 256 * h && h == a / 256
  {
    l, h := a % 256, a / 256;
  }

  /** The operators work byte by byte, so they do not care about byte order. */
  lemma {:induction false} SwapBitwise(op: BitOp, w: nat, a: nat, b: nat)
    ensures ByteSwap(w, Bitwise(op, a, b)) == Bitwise(op, ByteSwap(w, a), ByteSwap(w, b))
  {
    if w > 0 {
      var l, h := LowAndHigh(a);
      var l', h' := LowAndHigh(b);
      SwapBitwise(op, w - 1, h, h');
      SwapAt(op, w, a, l, h, b, l', h');
    } else {
      assert Bitwise(op, 0, 0) == 0;
    }
  }

  lemma SwapOfBitwise(op: BitOp, w: nat, l: nat, h: nat, l': nat, h': nat)
    requires w > 0 && l < 256 && l' < 256
    ensures ByteSwap(w, Bitwise(op, l + 256 * h, l' + 256 * h'))
      == Up(Bitwise(op, l, l'), w - 1) + ByteSwap(w - 1, Bitwise(op, h, h'))
  {
    ByteParts(op, l, h, l', h');
    SwapStep(w, Bitwise(op, l, l'), Bitwise(op, h, h'));
  }

  lemma BitwiseOfSwap(op: BitOp, w: nat, l: nat, h: nat, l': nat, h': nat)
    requires w > 0 && l < 256 && l' < 256
    ensures Bitwise(op, ByteSwap(w, l + 256 * h), ByteSwap(w, l' + 256 * h'))
      == Up(Bitwise(op, l, l'), w - 1) + Bitwise(op, ByteSwap(w - 1, h), ByteSwap(w - 1, h'))
  {
    SwapStep(w, l, h);
    SwapStep(w, l', h');
    TopParts(op, w - 1, l, ByteSwap(w - 1, h), l', ByteSwap(w - 1, h'));
  }

  lemma OnesTop(w: nat, t: nat, s: nat)
    requires s < Pow256(w)
    ensures Ones(Up(t, w) + s) == Ones(s) + Ones(t)
  {
    Pow256IsPow2(w);
    UpIsShl(t, w);
    OnesParts(8 * w, s, t);
  }

  lemma OnesByte(l: nat, h: nat)
    requires l < 256
    ensures Ones(l + 256 * h) == Ones(l) + Ones(h)
  {
    EightBits();
    ShlEight(h, 0);
    OnesParts(8, l, h);
  }

  lemma {:induction false} SwapOnes(w: nat, a: nat)
    requires a < Pow256(w)
    ensures Ones(ByteSwap(w, a)) == Ones(a)
  {
    if w > 0 {
      var l, h := LowAndHigh(a);
      SwapOnes(w - 1, h);
      SwapStep(w, l, h);
      OnesTop(w - 1, l, ByteSwap(w - 1, h));
      OnesByte(l, h);
    }
  }

  lemma SwapAt(op: BitOp, w: nat, a: nat, l: nat, h: nat, b: nat, l': nat, h': nat)
    requires w > 0 && l < 256 && l' < 256 && a == l + 256 * h && b == l' + 256 * h'
    requires ByteSwap(w - 1, Bitwise(op, h, h')) == Bitwise(op, ByteSwap(w - 1, h), ByteSwap(w - 1, h'))
    ensures ByteSwap(w, Bitwise(op, a, b)) == Bitwise(op, ByteSwap(w, a), ByteSwap(w, b))
  {
    SwapOfBitwise(op, w, l, h, l', h');
    BitwiseOfSwap(op, w, l, h, l', h');
  }

  lemma {:induction false} UpOnes(w: nat)
    ensures Up(255, w) == 255 * Pow256(w)
  {
    if w > 0 {
      UpOnes(w - 1);
    }
  }

  lemma {:induction false} SwapAllOnes(w: nat)
    ensures ByteSwap(w, Pow256(w) - 1) == Pow256(w) - 1
  {
    if w > 0 {
      var p := Pow256(w - 1);
      assert (256 * p - 1) % 256 == 255 && (256 * p - 1) / 256 == p - 1;
      UpOnes(w - 1);
      SwapAllOnes(w - 1);
    }
  }

  lemma {:induction false} Complement(x: nat, n: nat)
    requires x < Pow2(n)
    ensures Bitwise(AndNot, Pow2(n) - 1, x) == Pow2(n) - 1 - x
  {
    if n > 0 {
      Complement(x / 2, n - 1);
      BitwiseStep(AndNot, Pow2(n - 1) - 1, 1, x / 2, x % 2);
    }
  }

  // ---- IPv4 ----

  /** A prefix function answers null, has no defined behaviour, or gives an address. */
  datatype Answer<T> = Null | Undefined | Address(value: T)

  /** The byte order of the host and the size of the word that holds the address, which is 4. */
  datatype Host = Host(little: bool, size: nat) {
    function Bits(): nat {
      8 * size
    }

    predicate Fits(n: nat) {
      n < Pow2(Bits())
    }

    /** `byteswapOnSmallEndian`. */
    function Swap(n: nat): nat {
      if little then ByteSwap(size, n) else n
    }

    function Not(x: nat): nat
      requires Fits(x)
    {
      Pow2(Bits()) - 1 - x
    }

    lemma SwapSwap(n: nat)
      requires Fits(n)
      ensures Fits(Swap(n)) && Swap(Swap(n)) == n
    {
      Pow256IsPow2(size);
      SwapTwice(size, n);
    }

    lemma SwapOp(op: BitOp, a: nat, b: nat)
      ensures Swap(Bitwise(op, a, b)) == Bitwise(op, Swap(a), Swap(b))
    {
      SwapBitwise(op, size, a, b);
    }

    lemma SwapNot(x: nat)
      requires Fits(x)
      ensures Fits(Swap(x)) && Swap(Not(x)) == Not(Swap(x))
    {
      SwapSwap(x);
      Pow256IsPow2(size);
      Complement(x, Bits());
      SwapOp(AndNot, Pow2(Bits()) - 1, x);
      SwapAllOnes(size);
      Complement(Swap(x), Bits());
    }

    lemma SwapCount(x: nat)
      requires Fits(x)
      ensures Ones(Swap(x)) == Ones(x)
    {
      Pow256IsPow2(size);
      SwapOnes(size, x);
    }
  }

  type Host4 = h: Host | h.size == 4 witness Host(true, 4)

  /** `CreateHostMask<T>` for a type of `n` bits. */
  function HostMask(n: nat, len: nat): nat
    requires len <= n
  {
    Pow2(n - len) - 1
  }

  lemma HostMaskFits(h: Host, len: nat)
    requires len <= h.Bits()
    ensures h.Fits(HostMask(h.Bits(), len)) && h.Fits(h.Swap(HostMask(h.Bits(), len)))
  {
    MaskOnes(h.Bits() - len, h.Bits());
    h.SwapSwap(HostMask(h.Bits(), len));
  }

  /**
   * The three prefix functions of `IPv4Address` on the stored word. The mask is an int shift by
   * 32 - len, which is defined for a shift below 31.
   */
  function Broadcast4(h: Host4, word: nat, len: nat): Answer<nat> {
    if len > 32 then Null else if len < 2 then Undefined
    else Address(Bitwise(Or, word, h.Swap(HostMask(h.Bits(), len))))
  }

  function Subnet4(h: Host4, word: nat, len: nat): Answer<nat> {
    if len > 32 then Null else if len < 2 then Undefined
    else
      HostMaskFits(h, len);
      Address(Bitwise(And, word, h.Not(h.Swap(HostMask(h.Bits(), len)))))
  }

  function Mask4(h: Host4, len: nat): Answer<nat> {
    if len > 32 then Null else if len < 2 then Undefined
    else
      HostMaskFits(h, len);
      Address(h.Not(h.Swap(HostMask(h.Bits(), len))))
  }

  /** The mask is `len` leading ones in network byte order, and counting its ones gives `len` back. */
  lemma MaskIsPrefix(h: Host, len: nat)
    requires len <= h.Bits()
    ensures Pow2(h.Bits() - len) <= Pow2(h.Bits()) && h.Fits(h.Swap(HostMask(h.Bits(), len)))
    ensures var mask := h.Not(h.Swap(HostMask(h.Bits(), len)));
      h.Swap(mask) == Pow2(h.Bits()) - Pow2(h.Bits() - len) && Ones(mask) == len
  {
    HostMaskFits(h, len);
    var host := HostMask(h.Bits(), len);
    h.SwapSwap(host);
    h.SwapNot(h.Swap(host));
    MaskOnes(h.Bits() - len, h.Bits());
    h.SwapCount(h.Not(h.Swap(host)));
  }

  lemma MaskIsPrefix4(h: Host4, len: nat, mask: nat)
    requires Mask4(h, len) == Address(mask)
    ensures h.Fits(mask) && Pow2(h.Bits() - len) <= Pow2(h.Bits())
    ensures h.Swap(mask) == Pow2(h.Bits()) - Pow2(h.Bits() - len) && Ones(mask) == len
  {
    MaskIsPrefix(h, len);
  }

  lemma MaskClears(h: Host, word: nat, mask: nat, k: nat)
    requires h.Fits(word) && k <= h.Bits() && Pow2(k) <= Pow2(h.Bits()) && h.Swap(mask) == Pow2(h.Bits()) - Pow2(k)
    ensures h.Swap(Bitwise(And, word, mask)) == Clear(h.Swap(word), k)
  {
    h.SwapSwap(word);
    h.SwapOp(And, word, mask);
    AndClears(h.Swap(word), k, h.Bits());
  }

  lemma PrefixClears(h: Host, word: nat, len: nat)
    requires h.Fits(word) && len <= h.Bits()
    ensures h.Fits(h.Swap(HostMask(h.Bits(), len)))
    ensures h.Swap(Bitwise(And, word, h.Not(h.Swap(HostMask(h.Bits(), len))))) == Clear(h.Swap(word), h.Bits() - len)
  {
    MaskIsPrefix(h, len);
    MaskClears(h, word, h.Not(h.Swap(HostMask(h.Bits(), len))), h.Bits() - len);
  }

  lemma PrefixFills(h: Host, word: nat, len: nat)
    requires h.Fits(word) && len <= h.Bits()
    ensures h.Swap(Bitwise(Or, word, h.Swap(HostMask(h.Bits(), len)))) == Fill(h.Swap(word), h.Bits() - len)
  {
    HostMaskFits(h, len);
    var host := HostMask(h.Bits(), len);
    h.SwapSwap(host);
    h.SwapOp(Or, word, h.Swap(host));
    FillsLow(h.Swap(word), h.Bits() - len);
  }

  /** The low bits are cleared for the subnet and set for the broadcast address. */
  lemma Prefix4(h: Host4, word: nat, len: nat)
    requires h.Fits(word) && 2 <= len <= 32
    ensures h.Swap(Subnet4(h, word, len).value) == Clear(h.Swap(word), 32 - len)
    ensures h.Swap(Broadcast4(h, word, len).value) == Fill(h.Swap(word), 32 - len)
  {
    PrefixClears(h, word, len);
    PrefixFills(h, word, len);
  }

  /** Subnet is address AND mask, broadcast is address OR NOT mask, on the stored words. */
  lemma MaskLaws4(h: Host4, word: nat, len: nat, mask: nat)
    requires Mask4(h, len) == Address(mask)
    ensures h.Fits(mask)
    ensures Subnet4(h, word, len) == Address(Bitwise(And, word, mask))
    ensures Broadcast4(h, word, len) == Address(Bitwise(Or, word, h.Not(mask)))
  {
    HostMaskFits(h, len);
  }

  /** In network byte order the network of an address is the range from its subnet to its broadcast address. */
  lemma Network4(h: Host4, word: nat, other: nat, len: nat, sub: nat, bcast: nat)
    requires h.Fits(word) && h.Fits(other)
    requires Subnet4(h, word, len) == Address(sub) && Broadcast4(h, word, len) == Address(bcast)
    ensures h.Swap(sub) <= h.Swap(word) <= h.Swap(bcast)
    ensures Drop(h.Swap(word), 32 - len) == Drop(h.Swap(other), 32 - len)
      <==> h.Swap(sub) <= h.Swap(other) <= h.Swap(bcast)
    ensures Drop(h.Swap(word), 32 - len) == Drop(h.Swap(other), 32 - len)
      <==> h.Swap(sub) == h.Swap(Subnet4(h, other, len).value)
  {
    Prefix4(h, word, len);
    Prefix4(h, other, len);
    PrefixIsRange(h.Swap(word), h.Swap(word), 32 - len);
    PrefixIsRange(h.Swap(word), h.Swap(other), 32 - len);
    PrefixCanonical(h.Swap(word), h.Swap(other), 32 - len);
  }

  /** Taking either address of one already taken changes nothing. */
  lemma Idempotent4(h: Host4, word: nat, len: nat, sub: nat, bcast: nat)
    requires h.Fits(word) && Subnet4(h, word, len) == Address(sub) && Broadcast4(h, word, len) == Address(bcast)
    ensures h.Fits(sub) && Subnet4(h, sub, len) == Address(sub)
    ensures h.Fits(bcast) && Broadcast4(h, bcast, len) == Address(bcast)
  {
    HostMaskFits(h, len);
    var host := h.Swap(HostMask(h.Bits(), len));
    Absorb(And, word, h.Not(host), h.Bits());
    Absorb(Or, word, host, h.Bits());
  }

  lemma {:induction false} Absorb(op: BitOp, a: nat, x: nat, n: nat)
    requires a < Pow2(n) && x < Pow2(n)
    ensures Bitwise(op, a, x) < Pow2(n)
    ensures op == And || op == Or ==> Bitwise(op, Bitwise(op, a, x), x) == Bitwise(op, a, x)
  {
    if n > 0 {
      Absorb(op, a / 2, x / 2, n - 1);
      BitwiseStep(op, a / 2, a % 2, x / 2, x % 2);
      BitwiseStep(op, Bitwise(op, a / 2, x / 2), Bit(op, a % 2, x % 2), x / 2, x % 2);
    }
  }

  // ---- IPv6 ----

  predicate IsBytes(bs: seq<nat>) {
    forall i :: 0 <= i < |bs| ==> bs[i] < 256
  }

  /** Bytes in network order as a number. */
  function Value(bs: seq<nat>): nat {
    if bs == [] then 0 else bs[|bs| - 1] + 256 * Value(bs[..|bs| - 1])
  }

  function Edit(fill: bool, a: nat, k: nat): nat {
    if fill then Fill(a, k) else Clear(a, k)
  }

  lemma {:induction false} EditLow(fill: bool, b: nat, h: nat, j: nat, k: nat)
    requires k <= j
    ensures Edit(fill, b + Shl(h, j), k) == Edit(fill, b, k) + Shl(h, j)
  {
    if k > 0 {
      assert (b + 2 * Shl(h, j - 1)) / 2 == b / 2 + Shl(h, j - 1);
      EditLow(fill, b / 2, h, j - 1, k - 1);
    }
  }

  lemma {:induction false} EditHigh(fill: bool, b: nat, h: nat, j: nat, k: nat)
    requires j <= k && b < Pow2(j)
    ensures Edit(fill, b + Shl(h, j), k) == (if fill then Pow2(j) - 1 else 0) + Shl(Edit(fill, h, k - j), j)
  {
    if j > 0 {
      assert (b + 2 * Shl(h, j - 1)) / 2 == b / 2 + Shl(h, j - 1);
      EditHigh(fill, b / 2, h, j - 1, k - 1);
    }
  }

  /** What one byte becomes when the low `k` bits of the number are cleared or set; `low` bytes follow it. */
  function EditByte(fill: bool, b: nat, k: int): nat {
    if k <= 0 then b else if k >= 8 then (if fill then 255 else 0) else Edit(fill, b, k)
  }

  lemma EditValue1(fill: bool, b: nat, h: nat, k: nat)
    requires b < 256
    ensures Edit(fill, b + 256 * h, k) == EditByte(fill, b, k) + 256 * (if k <= 8 then h else Edit(fill, h, k - 8))
  {
    EightBits();
    ShlEight(h, 0);
    if k < 8 {
      EditLow(fill, b, h, 8, k);
    } else {
      EditHigh(fill, b, h, 8, k);
      ShlEight(Edit(fill, h, k - 8), 0);
    }
  }

  /** Editing byte by byte edits the number. */
  lemma {:induction false} EditValue(fill: bool, bs: seq<nat>, r: seq<nat>, k: nat)
    requires IsBytes(bs) && |r| == |bs|
    requires forall i :: 0 <= i < |bs| ==> r[i] == EditByte(fill, bs[i], k - 8 * (|bs| - 1 - i))
    requires k <= 8 * |bs|
    ensures Value(r) == Edit(fill, Value(bs), k)
  {
    if bs != [] {
      var n := |bs| - 1;
      var rest := if k <= 8 then 0 else k - 8;
      EditRest(fill, bs, r, k, rest);
      EditValue(fill, bs[..n], r[..n], rest);
      EditValue1(fill, bs[n], Value(bs[..n]), k);
      assert Value(r) == r[n] + 256 * Value(r[..n]) && Value(bs) == bs[n] + 256 * Value(bs[..n]);
    }
  }

  /** The bytes before the last are edited as a shorter number. */
  lemma EditRest(fill: bool, bs: seq<nat>, r: seq<nat>, k: nat, rest: nat)
    requires bs != [] && |r| == |bs| && rest == if k <= 8 then 0 else k - 8
    requires forall i :: 0 <= i < |bs| ==> r[i] == EditByte(fill, bs[i], k - 8 * (|bs| - 1 - i))
    ensures var n := |bs| - 1;
      forall i :: 0 <= i < n ==> r[..n][i] == EditByte(fill, bs[..n][i], rest - 8 * (n - 1 - i))
  {
  }

  /** On the byte where prefix and host part meet, the bit operators do what `EditByte` says. */
  lemma BorderByte(b: nat, r: nat)
    requires b < 256 && r < 8
    ensures HostMask(8, r) < 256 && Bitwise(And, b, 255 - HostMask(8, r)) == EditByte(false, b, 8 - r)
    ensures Bitwise(Or, b, HostMask(8, r)) == EditByte(true, b, 8 - r)
    ensures EditByte(false, b, 8 - r) < 256 && EditByte(true, b, 8 - r) < 256
  {
    EightBits();
    var k := 8 - r;
    MaskOnes(k, 8);
    AndClears(b, k, 8);
    FillsLow(b, k);
    assert Pow2(8) - Pow2(k) == 255 - HostMask(8, r);
    EditValue1(false, b, 0, k);
    EditValue1(true, b, 0, k);
    BitwiseBound(And, 8, b, 255 - HostMask(8, r));
    BitwiseBound(Or, 8, b, HostMask(8, r));
  }

  /** `bs` with byte `q` changed to `border` and the bytes after it to `rest`. */
  lemma EditedAt(fill: bool, bs: seq<nat>, q: nat, r: nat, out: seq<nat>)
    requires |bs| == 16 == |out| && IsBytes(bs) && q < 16 && r < 8
    requires forall i :: 0 <= i < q ==> out[i] == bs[i]
    requires out[q] == EditByte(fill, bs[q], 8 - r)
    requires forall i :: q < i < 16 ==> out[i] == if fill then 255 else 0
    ensures Value(out) == Edit(fill, Value(bs), 128 - 8 * q - r)
  {
    EditValue(fill, bs, out, 128 - 8 * q - r);
  }

  /** `IPv6Address::subnetAddress`; a length of 128 indexes past the 16 bytes. */
  method Subnet6(bs: seq<nat>, len: nat) returns (a: Answer<seq<nat>>)
    requires |bs| == 16 && IsBytes(bs)
    ensures a == Null <==> len > 128
    ensures a == Undefined <==> len == 128
    ensures len < 128 ==> |a.value| == 16 && IsBytes(a.value) && Value(a.value) == Clear(Value(bs), 128 - len)
  {
    if len > 128 {
      return Null;
    }
    if len == 128 {
      return Undefined;
    }
    var q, r := len / 8, len % 8;
    BorderByte(bs[q], r);
    var out := bs[q := Bitwise(And, bs[q], 255 - HostMask(8, r))];
    for i := q + 1 to 16
      invariant |out| == 16 && out[q] == EditByte(false, bs[q], 8 - r)
      invariant forall j :: 0 <= j < q ==> out[j] == bs[j]
      invariant forall j :: q < j < i ==> out[j] == 0
    {
      out := out[i := 0];
    }
    EditedAt(false, bs, q, r, out);
    return Address(out);
  }

  /** `IPv6Address::broadcastAddress`. */
  method Broadcast6(bs: seq<nat>, len: nat) returns (a: Answer<seq<nat>>)
    requires |bs| == 16 && IsBytes(bs)
    ensures a == Null <==> len > 128
    ensures a == Undefined <==> len == 128
    ensures len < 128 ==> |a.value| == 16 && IsBytes(a.value) && Value(a.value) == Fill(Value(bs), 128 - len)
  {
    if len > 128 {
      return Null;
    }
    if len == 128 {
      return Undefined;
    }
    var q, r := len / 8, len % 8;
    BorderByte(bs[q], r);
    var out := bs[q := Bitwise(Or, bs[q], HostMask(8, r))];
    for i := q + 1 to 16
      invariant |out| == 16 && out[q] == EditByte(true, bs[q], 8 - r)
      invariant forall j :: 0 <= j < q ==> out[j] == bs[j]
      invariant forall j :: q < j < i ==> out[j] == 255
    {
      out := out[i := 255];
    }
    EditedAt(true, bs, q, r, out);
    return Address(out);
  }

  function Repeat(b: nat, n: nat): (r: seq<nat>)
    ensures |r| == n && forall i :: 0 <= i < n ==> r[i] == b
  {
    seq(n, _ => b)
  }

  lemma {:induction false} OnesValue(n: nat)
    ensures Value(Repeat(255, n)) == Pow2(8 * n) - 1
  {
    if n > 0 {
      assert Repeat(255, n)[..n - 1] == Repeat(255, n - 1);
      OnesValue(n - 1);
      Pow256IsPow2(n);
      Pow256IsPow2(n - 1);
    }
  }

  lemma {:induction false} ClearOnes(n: nat, k: nat)
    requires k <= n
    ensures Pow2(k) <= Pow2(n) && Clear(Pow2(n) - 1, k) == Pow2(n) - Pow2(k)
  {
    if k > 0 {
      ClearOnes(n - 1, k - 1);
      assert (2 * Pow2(n - 1) - 1) / 2 == Pow2(n - 1) - 1;
    } else {
      MaskOnes(k, n);
    }
  }

  lemma {:induction false} AndFlip(a: nat, b: nat)
    ensures Bitwise(And, a, b) == Bitwise(And, b, a)
  {
    if a > 0 || b > 0 {
      AndFlip(a / 2, b / 2);
    }
  }

  lemma MaskBorder(r: nat)
    requires r < 8
    ensures HostMask(8, r) < 256 && 255 - HostMask(8, r) == EditByte(false, 255, 8 - r)
  {
    EightBits();
    BorderByte(255, r);
    AllOnes(255 - HostMask(8, r), 8);
    AndFlip(255 - HostMask(8, r), 255);
  }

  /** Leading bytes 255, the border byte and zeros: as many leading ones as the prefix is long. */
  lemma MaskValue(q: nat, r: nat, out: seq<nat>, bits: nat)
    requires q < 16 == |out| && r < 8 && bits == 128
    requires forall i :: 0 <= i < q ==> out[i] == 255
    requires out[q] == EditByte(false, 255, 8 - r)
    requires forall i :: q < i < 16 ==> out[i] == 0
    ensures Pow2(bits - 8 * q - r) <= Pow2(bits) && Value(out) == Pow2(bits) - Pow2(bits - 8 * q - r)
  {
    EditedAt(false, Repeat(255, 16), q, r, out);
    OnesValue(16);
    ClearOnes(bits, bits - 8 * q - r);
  }

  /** `IPv6Address::subnetMask`. */
  method Mask6(len: nat) returns (a: Answer<seq<nat>>)
    ensures a == Null <==> len > 128
    ensures a == Undefined <==> len == 128
    ensures len < 128 ==>
      |a.value| == 16 && IsBytes(a.value) && Value(a.value) + Pow2(128 - len) == Pow2(128)
  {
    if len > 128 {
      return Null;
    }
    if len == 128 {
      return Undefined;
    }
    var q, r := len / 8, len % 8;
    MaskBorder(r);
    var out := Repeat(0, 16)[q := 255 - HostMask(8, r)];
    for i := 0 to q
      invariant |out| == 16 && out[q] == 255 - HostMask(8, r)
      invariant forall j :: 0 <= j < i ==> out[j] == 255
      invariant forall j :: q < j < 16 ==> out[j] == 0
      invariant forall j :: i <= j < q ==> out[j] == 0
    {
      out := out[i := 255];
    }
    MaskValue(q, r, out, 128);
    return Address(out);
  }

  function TotalOnes(bs: seq<nat>): nat {
    if bs == [] then 0 else TotalOnes(bs[..|bs| - 1]) + Ones(bs[|bs| - 1])
  }

  lemma {:induction false} TotalOnesValue(bs: seq<nat>)
    requires IsBytes(bs)
    ensures TotalOnes(bs) == Ones(Value(bs))
  {
    if bs != [] {
      var n := |bs| - 1;
      TotalOnesValue(bs[..n]);
      EightBits();
      ShlEight(Value(bs[..n]), 0);
      OnesParts(8, bs[n], Value(bs[..n]));
    }
  }

  /** The loop over the sixteen bytes of a netmask. */
  method PrefixLength6(bs: seq<nat>) returns (len: nat)
    requires IsBytes(bs)
    ensures len == Ones(Value(bs))
  {
    len := 0;
    for i := 0 to |bs|
      invariant len == TotalOnes(bs[..i])
    {
      var n := CountBytes(bs[i]);
      assert bs[..i + 1][..i] == bs[..i];
      len := len + n;
    }
    assert bs[..|bs|] == bs;
    TotalOnesValue(bs);
  }

  /** Counting the ones of the mask made for a length gives that length. */
  method MaskRoundTrip6(len: nat) returns (n: nat)
    requires len < 128
    ensures n == len
  {
    var m := Mask6(len);
    n := PrefixLength6(m.value);
    MaskOnes(128 - len, 128);
  }

  lemma {:induction false} ValueBound(bs: seq<nat>)
    requires IsBytes(bs)
    ensures Value(bs) < Pow256(|bs|)
  {
    if bs != [] {
      ValueBound(bs[..|bs| - 1]);
    }
  }

  lemma ClearTwice(a: nat, k: nat)
    ensures Clear(Clear(a, k), k) == Clear(a, k) && Fill(Fill(a, k), k) == Fill(a, k)
  {
    PrefixCanonical(a, Clear(a, k), k);
    PrefixCanonical(a, Fill(a, k), k);
  }

  lemma SixteenBytes(bs: seq<nat>, n: nat)
    requires |bs| == 16 && IsBytes(bs) && n == 8 * |bs|
    ensures Value(bs) < Pow2(n)
  {
    ValueBound(bs);
    Pow256IsPow2(|bs|);
  }

  lemma NetworkLaws(a: nat, mask: nat, k: nat, n: nat, other: nat)
    requires a < Pow2(n) && k <= n && mask + Pow2(k) == Pow2(n)
    ensures Clear(a, k) == Bitwise(And, a, mask) && Fill(a, k) == Bitwise(Or, a, Pow2(n) - 1 - mask)
    ensures Drop(a, k) == Drop(other, k) <==> Clear(a, k) <= other <= Fill(a, k)
    ensures Ones(mask) == n - k
  {
    AndClears(a, k, n);
    FillsLow(a, k);
    PrefixIsRange(a, other, k);
    MaskOnes(k, n);
  }

  /** The prefix algebra on the three addresses of an IPv6 network. */
  method Network6(bs: seq<nat>, len: nat, other: nat) returns (sub: seq<nat>, bcast: seq<nat>, mask: seq<nat>)
    requires |bs| == 16 && IsBytes(bs) && len < 128
    ensures IsBytes(sub) && IsBytes(bcast) && IsBytes(mask) && |sub| == |bcast| == |mask| == 16
    ensures Value(sub) == Bitwise(And, Value(bs), Value(mask)) && Ones(Value(mask)) == len
    ensures Value(mask) < Pow2(128) && Value(bcast) == Bitwise(Or, Value(bs), Pow2(128) - 1 - Value(mask))
    ensures Drop(Value(bs), 128 - len) == Drop(other, 128 - len) <==> Value(sub) <= other <= Value(bcast)
  {
    var a := Subnet6(bs, len);
    sub := a.value;
    a := Broadcast6(bs, len);
    bcast := a.value;
    a := Mask6(len);
    mask := a.value;
    SixteenBytes(bs, 128);
    NetworkLaws(Value(bs), Value(mask), 128 - len, 128, other);
  }

  lemma {:induction false} ValueInjective(a: seq<nat>, b: seq<nat>)
    requires |a| == |b| && IsBytes(a) && IsBytes(b) && Value(a) == Value(b)
    ensures a == b
  {
    if a != [] {
      var n := |a| - 1;
      var x, y := Value(a[..n]), Value(b[..n]);
      assert a[n] + 256 * x == b[n] + 256 * y;
      ValueInjective(a[..n], b[..n]);
      assert a == a[..n] + [a[n]] && b == b[..n] + [b[n]];
    }
  }

  /** The subnet address of a subnet address is itself, and so is the broadcast address of a broadcast address. */
  method Idempotent6(bs: seq<nat>, len: nat) returns (sub: seq<nat>, sub2: seq<nat>, bcast: seq<nat>, bcast2: seq<nat>)
    requires |bs| == 16 && IsBytes(bs) && len < 128
    ensures IsBytes(sub) && |sub| == 16 && Value(sub) == Clear(Value(bs), 128 - len)
    ensures IsBytes(bcast) && |bcast| == 16 && Value(bcast) == Fill(Value(bs), 128 - len)
    ensures sub2 == sub && bcast2 == bcast
  {
    ClearTwice(Value(bs), 128 - len);
    var a := Subnet6(bs, len);
    sub := a.value;
    a := Subnet6(sub, len);
    sub2 := a.value;
    ValueInjective(sub, sub2);
    a := Broadcast6(bs, len);
    bcast := a.value;
    a := Broadcast6(bcast, len);
    bcast2 := a.value;
    ValueInjective(bcast, bcast2);
  }
}
