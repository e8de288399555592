/** Byte strings and the arithmetic of equally sized blocks. */
module Blocks {

  type byte = b: int | 0 <= b < 256

  lemma SmallMultiple(k: int, b: int)
    requires 0 < b && -b < k * b < b
    ensures k == 0
  {
  }

  /** A position has one block index and one offset. */
  lemma BlockAndOffset(i: nat, b: nat, pos: nat)
    requires i * b <= pos < i * b + b
    ensures pos / b == i && pos % b == pos - i * b
  {
    var q, r := pos / b, pos % b;
    assert q * b + r == pos;
    calc {
      (q - i) * b;
      q * b - i * b;
      pos - r - i * b;
    }
    SmallMultiple(q - i, b);
  }

  /** The least whole number of blocks of `b` bytes that holds `n` bytes, in bytes. */
  function RoundUp(b: nat, n: nat): (r: nat)
    requires 0 < b
    ensures n <= r < n + b
  {
    if n == 0 then 0 else if n <= b then b else b + RoundUp(b, n - b)
  }

  /** Capacity after `need` bytes must fit: whole blocks are added, no more than needed. */
  function Grown(b: nat, cap: nat, need: nat): (r: nat)
    requires 0 < b
    ensures cap <= r && need <= r
  {
    if need <= cap then cap else cap + RoundUp(b, need - cap)
  }

  lemma {:induction false} RoundUpAgain(b: nat, m: nat, n: nat)
    requires 0 < b && m <= n
    ensures RoundUp(b, n) == if n <= RoundUp(b, m) then RoundUp(b, m) else RoundUp(b, m) + RoundUp(b, n - RoundUp(b, m))
  {
    if m > b {
      RoundUpAgain(b, m - b, n - b);
    }
  }

  /** Growing in two steps reaches the capacity of growing at once. */
  lemma GrownTwice(b: nat, cap: nat, p: nat, q: nat)
    requires 0 < b && p <= q
    ensures Grown(b, Grown(b, cap, p), q) == Grown(b, cap, q)
  {
    if cap < p {
      RoundUpAgain(b, p - cap, q - cap);
    }
  }

  lemma ModShift(n: nat, b: nat)
    requires 0 < b <= n
    ensures (n - b) % b == n % b
  {
    var q, r := (n - b) / b, (n - b) % b;
    assert n - b == q * b + r;
    assert (q + 1) * b == q * b + b;
    BlockAndOffset(q + 1, b, n);
  }

  /** A stream of `n` bytes fills its blocks to the last byte exactly when `n` is a multiple of the block size. */
  lemma {:induction false} FullBlocks(b: nat, n: nat)
    requires 0 < b && 0 < n
    ensures Grown(b, b, n) == RoundUp(b, n)
    ensures Grown(b, b, n) == n <==> n % b == 0
  {
    if n > b {
      FullBlocks(b, n - b);
      ModShift(n, b);
    }
  }

  /** The bytes in `k` blocks, by repeated addition: keeps products out of the heap proofs. */
  ghost function Span(k: nat, b: nat): nat {
    if k == 0 then 0 else Span(k - 1, b) + b
  }

  lemma {:induction false} SpanIsProduct(k: nat, b: nat)
    ensures Span(k, b) == k * b
  {
    if k > 0 {
      SpanIsProduct(k - 1, b);
      assert k * b == (k - 1) * b + b;
    }
  }

  /** Rounding up gives the only multiple of `b` in reach. */
  lemma {:induction false} RoundUpIsSpan(b: nat, n: nat, k: nat)
    requires 0 < b && n <= Span(k, b) < n + b
    ensures RoundUp(b, n) == Span(k, b)
  {
    if n > b {
      RoundUpIsSpan(b, n - b, k - 1);
    }
  }

  /** The block count the code computes: ceil(extra / b). */
  method CeilDiv(extra: nat, b: nat) returns (k: nat)
    requires 0 < b
    ensures Span(k, b) == RoundUp(b, extra)
    ensures 0 < extra ==> 0 < k
  {
    k := (extra + b - 1) / b;
    SpanIsProduct(k, b);
    RoundUpIsSpan(b, extra, k);
  }
}
