/**
 * The growing list of fixed-size blocks with a cursor (`ByteArray`), proved to behave as one flat
 * byte sequence. Undefined behaviour of the original (following a null block) is an outcome.
 */
module ByteArrays {
  import opened Blocks

  datatype Endian = SmallEndian | BigEndian

  /** How a call ends: normally, by the out_of_range exception, or by dereferencing a null block. */
  datatype Outcome = Done | OutOfRange | NullDeref

  /** What a reader sees: the used bytes, the cursor and the total capacity. */
  datatype View = View(data: seq<byte>, pos: nat, cap: nat)

  /** Result of a reading call, with the cursor it leaves behind. */
  datatype Read<+T> = Got(value: T, pos: nat) | Stop(why: Outcome, pos: nat)

  /** `read` on the flat view: the bound is tested first, then the current block is dereferenced. */
  function ReadBytes(v: View, n: nat): Read<seq<byte>>
    requires v.pos <= |v.data|
  {
    if n > |v.data| - v.pos then Stop(OutOfRange, v.pos)
    else if v.pos == v.cap then Stop(NullDeref, v.pos)
    else Got(v.data[v.pos..v.pos + n], v.pos + n)
  }

  function Max(a: nat, b: nat): nat {
    if a < b then b else a
  }

  /** `after` is `before` with `d` copied over the bytes from `p` on. */
  ghost predicate Overwritten(before: seq<byte>, p: nat, d: seq<byte>, after: seq<byte>) {
    && p + |d| <= |before| == |after|
    && forall k :: 0 <= k < |after| ==> after[k] == if p <= k < p + |d| then d[k - p] else before[k]
  }

  lemma OverwriteMore(before: seq<byte>, p: nat, buf: seq<byte>, k: nat, n: nat, mid: seq<byte>, after: seq<byte>)
    requires k + n <= |buf|
    requires Overwritten(before, p, buf[..k], mid) && Overwritten(mid, p + k, buf[k..k + n], after)
    ensures after == Overwrite(before, p, buf[..k + n])
  {
  }

  lemma Slices(s: seq<byte>, a: nat, b: nat, c: nat)
    requires a <= b <= c <= |s|
    ensures s[a..b] + s[b..c] == s[a..c]
    ensures s[..c][a..b] == s[a..b]
  {
  }

  /** Copying `d` over the bytes of `f` from `p` on. */
  ghost function Overwrite(f: seq<byte>, p: nat, d: seq<byte>): (r: seq<byte>)
    requires p + |d| <= |f|
    ensures Overwritten(f, p, d, r)
  {
    seq(|f|, k requires 0 <= k < |f| => if p <= k < p + |d| then d[k - p] else f[k])
  }

  /** `d` stands at `p`, and every other byte that was there is still the same; the end may have grown. */
  ghost predicate Written(before: seq<byte>, p: nat, d: seq<byte>, after: seq<byte>) {
    && p <= |before| <= |after| && p + |d| <= |after|
    && after[p..p + |d|] == d
    && forall k :: 0 <= k < |before| && !(p <= k < p + |d|) ==> after[k] == before[k]
  }

  lemma OverwriteIsWritten(before: seq<byte>, grown: seq<byte>, p: nat, d: seq<byte>)
    requires before <= grown && p <= |before| && p + |d| <= |grown|
    ensures Written(before, p, d, Overwrite(grown, p, d))
  {
  }

  /** Block `i` starts at place `start[i]` of the flat view; the last entry is the capacity. */
  ghost predicate Starts(start: seq<nat>, n: nat, b: nat) {
    && |start| == n + 1 && start[0] == 0
    && (forall i, j {:trigger start[i], start[j]} :: 0 <= i < j <= n ==> start[i] + b <= start[j])
    && (forall i, j {:trigger start[i], start[j]} :: 0 <= i < j <= n && j == i + 1 ==> start[i] + b == start[j])
  }

  lemma {:induction false} StartIsProduct(start: seq<nat>, n: nat, b: nat, i: nat)
    requires Starts(start, n, b) && i <= n
    ensures start[i] == i * b
  {
    if i > 0 {
      StartIsProduct(start, n, b, i - 1);
      assert i * b == (i - 1) * b + b;
    }
  }

  /** `f` holds the bytes of every block from the block's place on. */
  ghost predicate Laid(bs: seq<array<byte>>, start: seq<nat>, b: nat, f: seq<byte>)
    reads bs
  {
    && Starts(start, |bs|, b) && |f| == start[|bs|]
    && (forall i :: 0 <= i < |bs| ==> bs[i].Length == b)
    && (forall i, j {:trigger bs[i][j]} :: 0 <= i < |bs| && 0 <= j < b ==>
          start[i] + j < |f| && f[start[i] + j] == bs[i][j])
  }

  lemma LaidAppend(bs: seq<array<byte>>, start: seq<nat>, b: nat, f: seq<byte>, block: array<byte>)
    requires Laid(bs, start, b, f) && block.Length == b
    ensures Laid(bs + [block], start + [|f| + b], b, f + block[..])
  {
    var bs', start', f' := bs + [block], start + [|f| + b], f + block[..];
    forall i, j | 0 <= i < |bs'| && 0 <= j < b
      ensures start'[i] + j < |f'| && f'[start'[i] + j] == bs'[i][j]
    {
      if i < |bs| {
        assert bs'[i] == bs[i] && start'[i] == start[i];
        assert f[start[i] + j] == bs[i][j];
      } else {
        assert start'[i] == |f| && f'[|f| + j] == block[..][j];
      }
    }
  }

  method Memcpy(dst: array<byte>, at: nat, src: seq<byte>)
    requires at + |src| <= dst.Length
    modifies dst
    ensures forall k :: 0 <= k < dst.Length ==> dst[k] == if at <= k < at + |src| then src[k - at] else old(dst[k])
  {
    forall k | 0 <= k < |src| {
      dst[at + k] := src[k];
    }
  }

  /** The flat state of a `ByteArray`. */
  datatype Flat = Flat(bytes: seq<byte>, pos: nat, size: nat, cap: nat)

  /** Effect of writing `d` at the cursor of a flat state with blocks of `b` bytes. */
  ghost predicate WriteEffect(b: nat, s: Flat, d: seq<byte>, t: Flat)
    requires 0 < b
  {
    && t.pos == s.pos + |d| && t.size == Max(s.size, t.pos) && t.cap == Grown(b, s.cap, t.pos)
    && Written(s.bytes, s.pos, d, t.bytes)
  }

  lemma WrittenTwice(f: seq<byte>, p: nat, d: seq<byte>, g: seq<byte>, e: seq<byte>, h: seq<byte>)
    requires Written(f, p, d, g) && Written(g, p + |d|, e, h)
    ensures Written(f, p, d + e, h)
  {
    var q, r := p + |d|, p + |d| + |e|;
    forall k | 0 <= k < |d|
      ensures h[p..r][k] == d[k]
    {
      assert g[p..q][k] == g[p + k];
    }
    forall k | 0 <= k < |e|
      ensures h[p..r][|d| + k] == e[k]
    {
      assert h[q..r][k] == h[q + k];
    }
    assert h[p..r] == d + e;
  }

  /** Writing `d` and then `e` is writing d + e. */
  lemma WriteTwice(b: nat, s: Flat, d: seq<byte>, t: Flat, e: seq<byte>, u: Flat)
    requires 0 < b && WriteEffect(b, s, d, t) && WriteEffect(b, t, e, u)
    ensures WriteEffect(b, s, d + e, u)
  {
    GrownTwice(b, s.cap, t.pos, u.pos);
    WrittenTwice(s.bytes, s.pos, d, t.bytes, e, u.bytes);
  }

  /** A window into a block, as handed to readv and writev. */
  datatype Iovec = Iovec(block: nat, off: nat, len: nat)

  /** Window `w` starts at place p of the flat view and stays inside one block. */
  ghost predicate Covers(start: seq<nat>, b: nat, w: Iovec, p: nat) {
    w.block + 1 < |start| && w.off + w.len <= b && p == start[w.block] + w.off
  }

  /** The windows cover places p to q of the flat view, in order and without gap or overlap. */
  ghost predicate Tiles(start: seq<nat>, b: nat, ws: seq<Iovec>, p: nat, q: nat) {
    if ws == [] then p == q
    else Covers(start, b, ws[0], p) && Tiles(start, b, ws[1..], p + ws[0].len, q)
  }

  lemma {:induction false} TilesAppend(start: seq<nat>, b: nat, ws: seq<Iovec>, p: nat, m: nat, w: Iovec)
    requires Tiles(start, b, ws, p, m) && Covers(start, b, w, m)
    ensures Tiles(start, b, ws + [w], p, m + w.len)
  {
    if ws != [] {
      TilesAppend(start, b, ws[1..], p + ws[0].len, m, w);
      assert (ws + [w])[1..] == ws[1..] + [w];
    }
  }

  lemma {:induction false} TilesInside(start: seq<nat>, b: nat, ws: seq<Iovec>, p: nat, q: nat, t: nat)
    requires Tiles(start, b, ws, p, q) && t < |ws|
    ensures ws[t].block + 1 < |start| && ws[t].off + ws[t].len <= b
    ensures p <= start[ws[t].block] + ws[t].off && start[ws[t].block] + ws[t].off + ws[t].len <= q
  {
    TilesForward(start, b, ws[1..], p + ws[0].len, q);
    if t > 0 {
      TilesInside(start, b, ws[1..], p + ws[0].len, q, t - 1);
    }
  }

  lemma {:induction false} TilesForward(start: seq<nat>, b: nat, ws: seq<Iovec>, p: nat, q: nat)
    requires Tiles(start, b, ws, p, q)
    ensures p <= q
  {
    if ws != [] {
      TilesForward(start, b, ws[1..], p + ws[0].len, q);
    }
  }

  /** Two windows of a tiling are disjoint, the earlier one lying wholly before the later one. */
  lemma {:induction false} TilesDisjoint(start: seq<nat>, b: nat, ws: seq<Iovec>, p: nat, q: nat, s: nat, t: nat)
    requires Tiles(start, b, ws, p, q) && s < t < |ws|
    ensures ws[s].block + 1 < |start| && ws[t].block + 1 < |start|
    ensures start[ws[s].block] + ws[s].off + ws[s].len <= start[ws[t].block] + ws[t].off
  {
    if s == 0 {
      TilesInside(start, b, ws[1..], p + ws[0].len, q, t - 1);
    } else {
      TilesDisjoint(start, b, ws[1..], p + ws[0].len, q, s - 1, t - 1);
    }
  }

  /** The bytes under the windows, end to end: what writev sends. */
  ghost function Gathered(bs: seq<array<byte>>, ws: seq<Iovec>): seq<byte>
    reads bs
  {
    if ws == [] then []
    else Under(bs, ws[0]) + Gathered(bs, ws[1..])
  }

  ghost function Under(bs: seq<array<byte>>, w: Iovec): seq<byte>
    reads bs
  {
    if w.block < |bs| && w.off + w.len <= bs[w.block].Length then bs[w.block][w.off..w.off + w.len] else []
  }

  lemma {:induction false} GatherTiles(bs: seq<array<byte>>, start: seq<nat>, b: nat, f: seq<byte>,
                                       ws: seq<Iovec>, p: nat, q: nat)
    requires forall w, at: nat :: Covers(start, b, w, at) ==> at + w.len <= |f| && Under(bs, w) == f[at..at + w.len]
    requires Tiles(start, b, ws, p, q) && q <= |f|
    ensures p <= q && Gathered(bs, ws) == f[p..q]
  {
    if ws != [] {
      GatherTiles(bs, start, b, f, ws[1..], p + ws[0].len, q);
      Slices(f, p, p + ws[0].len, q);
    }
  }

  class ByteArray {
    const baseSize: nat
    var position: nat
    var capacity: nat
    var size: nat
    var endian: Endian
    var blocks: seq<array<byte>>  // the list from m_root on
    var cur: nat                  // the block under the cursor; |blocks| stands for the null pointer
    ghost var start: seq<nat>     // where each block starts in the flat view
    ghost var flat: seq<byte>     // all bytes of all blocks, end to end

    /** The list: blocks of one size, pairwise distinct, laid end to end. */
    ghost predicate Chain()
      reads this, blocks
    {
      && 0 < baseSize && 0 < |blocks|
      && (forall i, j {:trigger blocks[i], blocks[j]} :: 0 <= i < j < |blocks| ==> blocks[i] != blocks[j])
      && Laid(blocks, start, baseSize, flat) && capacity == |flat|
    }

    /** The cursor stands inside block `cur`, or at the very end, where `cur` is null. */
    ghost predicate Cursor()
      reads this
    {
      && cur <= |blocks| && cur < |start| && start[cur] <= position < start[cur] + baseSize
      && (cur == |blocks| ==> position == capacity)
    }

    ghost predicate Valid()
      reads this, blocks
    {
      Chain() && position <= size <= capacity && Cursor()
    }

    ghost function AsFlat(): Flat
      reads this
    {
      Flat(flat, position, size, capacity)
    }

    /** Blocks are only ever added, and the added ones are new. */
    twostate predicate OnlyGrew()
      reads this
    {
      && old(blocks) <= blocks && (forall i :: |old(blocks)| <= i < |blocks| ==> fresh(blocks[i]))
      && endian == old(endian)
    }

    ghost function AsView(): View
      reads this, blocks
      requires Valid()
    {
      View(flat[..size], position, capacity)
    }

    /** In every valid state `cur` is block position / base, null exactly at capacity. */
    lemma CursorBlock()
      requires Valid()
      ensures capacity == |blocks| * baseSize && position <= size <= capacity
      ensures cur == position / baseSize && (cur == |blocks| <==> position == capacity)
    {
      StartIsProduct(start, |blocks|, baseSize, cur);
      StartIsProduct(start, |blocks|, baseSize, |blocks|);
      BlockAndOffset(cur, baseSize, position);
    }

    /** Byte `j` of block `i` is byte i * base + j of the flat view. */
    lemma FlatIsBlocks(i: nat, j: nat)
      requires Valid() && i < |blocks| && j < baseSize
      ensures i * baseSize + j < |flat| == |blocks| * baseSize
      ensures flat[i * baseSize + j] == blocks[i][j]
    {
      StartIsProduct(start, |blocks|, baseSize, i);
      StartIsProduct(start, |blocks|, baseSize, |blocks|);
      assert blocks[i][j] == flat[start[i] + j];
    }

    /** The offset inside the current block, as the code computes it. */
    method OffsetInBlock() returns (npos: nat)
      requires Chain() && Cursor()
      ensures npos == position - start[cur]
    {
      StartIsProduct(start, |blocks|, baseSize, cur);
      BlockAndOffset(cur, baseSize, position);
      npos := position % baseSize;
    }

    constructor (base: nat)
      requires 0 < base
      ensures Valid() && baseSize == base && capacity == base
      ensures position == 0 && size == 0 && endian == BigEndian
      ensures fresh(blocks)
    {
      baseSize := base;
      position, capacity, size := 0, base, 0;
      endian := BigEndian;
      var block := new byte[base];
      blocks, cur := [block], 0;
      start, flat := [0, base], block[..];
    }

    /** `clear`: back to one block; its bytes stay as they are but none of them is in use. */
    method Clear()
      requires Valid()
      modifies this
      ensures Valid() && blocks == old(blocks)[..1] && endian == old(endian)
      ensures AsView() == View([], 0, baseSize)
    {
      position, size := 0, 0;
      capacity := baseSize;
      assert start[0] + baseSize == start[1];
      flat, start := flat[..baseSize], start[..2];
      blocks, cur := blocks[..1], 0;
    }

    /** One turn of the growing loop: a fresh block is linked behind the last one. */
    method AppendBlock()
      requires Chain()
      modifies this`capacity, this`blocks, this`start, this`flat
      ensures Chain() && |blocks| == |old(blocks)| + 1 && old(blocks) <= blocks
      ensures capacity == old(capacity) + baseSize && old(flat) <= flat && old(start) <= start
      ensures fresh(blocks[|old(blocks)|])
    {
      var block := new byte[baseSize];
      LaidAppend(blocks, start, baseSize, flat, block);
      start := start + [capacity + baseSize];
      blocks, flat := blocks + [block], flat + block[..];
      capacity := capacity + baseSize;
    }

    /** The growing loop. */
    method AppendBlocks(count: nat)
      requires Chain()
      modifies this`capacity, this`blocks, this`start, this`flat
      ensures Chain() && |blocks| == |old(blocks)| + count && old(blocks) <= blocks
      ensures capacity == old(capacity) + Span(count, baseSize)
      ensures old(flat) <= flat && old(start) <= start
      ensures forall i :: |old(blocks)| <= i < |blocks| ==> fresh(blocks[i])
    {
      var k := 0;
      while k < count
        invariant 0 <= k <= count
        invariant Chain() && |blocks| == |old(blocks)| + k && capacity == old(capacity) + Span(k, baseSize)
        invariant old(blocks) <= blocks && old(flat) <= flat && old(start) <= start
        invariant forall i :: |old(blocks)| <= i < |blocks| ==> fresh(blocks[i])
      {
        AppendBlock();
        k := k + 1;
      }
    }

    /** memcpy into block `c`, seen in the flat view. */
    method CopyIn(c: nat, off: nat, src: seq<byte>)
      requires Chain() && c < |blocks| && off + |src| <= baseSize
      modifies this`flat, blocks[c]
      ensures Chain() && Overwritten(old(flat), start[c] + off, src, flat)
    {
      ghost var f, p := flat, start[c] + off;
      assert start[c] + baseSize <= start[|blocks|];
      Memcpy(blocks[c], off, src);
      flat := Overwrite(f, p, src);
      forall i, j | 0 <= i < |blocks| && 0 <= j < baseSize
        ensures start[i] + j < |flat| && flat[start[i] + j] == blocks[i][j]
      {
        assert old(blocks[i][j]) == old(blocks[i][j]);
        assert start[i] + j < |f| && f[start[i] + j] == old(blocks[i][j]);
        if i != c {
          assert blocks[i] != blocks[c];
          assert blocks[i][j] == old(blocks[i][j]);
          assert start[i] + baseSize <= start[c] || start[c] + baseSize <= start[i];
        }
      }
    }
  
    /** `addCapacity`: just enough blocks for `want` bytes past the cursor; no byte moves. */
    method AddCapacity(want: nat)
      requires Valid()
      modifies this`cur, this`capacity, this`blocks, this`start, this`flat
      ensures Valid() && capacity == Grown(baseSize, old(capacity), position + want)
      ensures old(blocks) <= blocks && old(flat) <= flat
      ensures forall i :: |old(blocks)| <= i < |blocks| ==> fresh(blocks[i])
    {
      var remain := capacity - position;
      if want == 0 || remain >= want { return; }
      var first := |blocks|;
      var count := CeilDiv(want - remain, baseSize);
      AppendBlocks(count);
      if remain == 0 {
        cur := first;
      }
    }

    /** Copy into the current block and advance, to the next block when this one is full. */
    method Put(npos: nat, src: seq<byte>)
      requires Chain() && Cursor() && cur < |blocks|
      requires npos == position - start[cur] && npos + |src| <= baseSize
      modifies this`position, this`cur, this`flat, blocks[cur]
      ensures Chain() && Cursor() && position == old(position) + |src|
      ensures npos + |src| == baseSize ==> position == start[cur]
      ensures Overwritten(old(flat), old(position), src, flat)
    {
      assert start[cur] + baseSize == start[cur + 1];
      CopyIn(cur, npos, src);
      position := position + |src|;
      if blocks[cur].Length == npos + |src| {
        cur := cur + 1;
      }
    }

    lemma Room()
      requires Chain() && Cursor() && position < capacity
      ensures cur < |blocks| && blocks[cur].Length == baseSize
    {
    }

    /** One turn of the copying loop: the next `n` bytes of `buf`, of which `k` are already in place. */
    method PutPart(buf: seq<byte>, k: nat, n: nat, npos: nat, ghost f: seq<byte>, ghost p: nat)
      requires Chain() && Cursor() && cur < |blocks| && k + n <= |buf| && position == p + k
      requires npos == position - start[cur] && npos + n <= baseSize
      requires p + |buf| <= |f| && flat == Overwrite(f, p, buf[..k])
      modifies this`position, this`cur, this`flat, blocks[cur]
      ensures Chain() && Cursor() && position == p + k + n
      ensures npos + n == baseSize ==> position == start[cur]
      ensures flat == Overwrite(f, p, buf[..k + n])
    {
      ghost var mid := flat;
      Put(npos, buf[k..k + n]);
      OverwriteMore(f, p, buf, k, n, mid, flat);
    }

    /** The loop body: all that fits into the current block, then on to the next one if bytes are left. */
    method FillBlock(buf: seq<byte>, k: nat, npos: nat, ncap: nat, ghost f: seq<byte>, ghost p: nat)
      returns (n: nat, npos': nat, ncap': nat)
      requires Chain() && Cursor() && position == p + k && k < |buf| && p + |buf| <= |f| == capacity
      requires npos == position - start[cur] && ncap == baseSize - npos
      requires flat == Overwrite(f, p, buf[..k])
      modifies this`position, this`cur, this`flat, blocks
      ensures Chain() && Cursor() && 0 < n && k + n <= |buf| && position == p + k + n
      ensures k + n < |buf| ==> npos' == position - start[cur] && ncap' == baseSize - npos'
      ensures flat == Overwrite(f, p, buf[..k + n])
    {
      Room();
      var rest := |buf| - k;
      n, npos', ncap' := if ncap >= rest then rest else ncap, 0, 0;
      PutPart(buf, k, n, npos, f, p);
      if n < rest {
        Room();
        ncap' := blocks[cur].Length;
      }
    }

    /** The copying loop of `write`: room for all of `buf` has been made. */
    method Fill(buf: seq<byte>)
      requires Chain() && Cursor() && position + |buf| <= capacity && buf != []
      modifies this`position, this`cur, this`flat, blocks
      ensures Chain() && Cursor() && position == old(position) + |buf|
      ensures flat == Overwrite(old(flat), old(position), buf)
    {
      Room();
      ghost var f, p := flat, position;
      var npos := OffsetInBlock();
      var ncap := blocks[cur].Length - npos;
      var bpos := 0;
      assert flat == Overwrite(f, p, buf[..0]);
      while bpos < |buf|
        invariant 0 <= bpos <= |buf| && position == p + bpos
        invariant Chain() && Cursor()
        invariant bpos < |buf| ==> npos == position - start[cur] && ncap == baseSize - npos
        invariant flat == Overwrite(f, p, buf[..bpos])
      {
        var n;
        n, npos, ncap := FillBlock(buf, bpos, npos, ncap, f, p);
        bpos := bpos + n;
      }
      assert buf[..bpos] == buf;
    }

    /** `write` puts `buf` at the cursor of the flat view and touches no other byte. */
    method Write(buf: seq<byte>)
      requires Valid()
      modifies this`position, this`size, this`capacity, this`cur, this`blocks, this`start, this`flat, blocks
      ensures Valid() && OnlyGrew() && WriteEffect(baseSize, old(AsFlat()), buf, AsFlat())
    {
      if |buf| == 0 { return; }
      ghost var grown := MakeRoomAndFill(buf);
      OverwriteIsWritten(old(flat), grown, old(position), buf);
      size := if position > size then position else size;
    }

    method MakeRoomAndFill(buf: seq<byte>) returns (ghost grown: seq<byte>)
      requires Valid() && buf != []
      modifies this`position, this`capacity, this`cur, this`blocks, this`start, this`flat, blocks
      ensures Chain() && Cursor() && position == old(position) + |buf|
      ensures capacity == Grown(baseSize, old(capacity), position)
      ensures old(blocks) <= blocks && forall i :: |old(blocks)| <= i < |blocks| ==> fresh(blocks[i])
      ensures old(flat) <= grown && position <= |grown| && flat == Overwrite(grown, old(position), buf)
    {
      AddCapacity(|buf|);
      grown := flat;
      Fill(buf);
    }

    /** Bytes inside one block, seen in the flat view. */
    lemma BlockSlice(c: nat, off: nat, n: nat)
      requires Chain() && c < |blocks| && off + n <= baseSize
      ensures start[c] + off + n <= |flat| && blocks[c].Length == baseSize
      ensures blocks[c][off..off + n] == flat[start[c] + off..start[c] + off + n]
    {
      assert start[c] + baseSize <= start[|blocks|];
      var part := blocks[c][off..off + n];
      assert forall j :: 0 <= j < n ==> part[j] == blocks[c][off + j];
    }

    /** One turn of the reading loop: `n` more bytes behind `got`, to the next block when this one is used up. */
    method TakePart(npos: nat, n: nat, got: seq<byte>, ghost p: nat) returns (out: seq<byte>)
      requires Chain() && Cursor() && cur < |blocks|
      requires npos == position - start[cur] && npos + n <= baseSize
      requires position == p + |got| && got == flat[p..position]
      modifies this`position, this`cur
      ensures Chain() && Cursor() && position == old(position) + n <= capacity
      ensures npos + n == baseSize ==> position == start[cur]
      ensures |out| == |got| + n && out == flat[p..position]
    {
      assert start[cur] + baseSize == start[cur + 1];
      BlockSlice(cur, npos, n);
      Slices(flat, p, position, position + n);
      out := got + blocks[cur][npos..npos + n];
      position := position + n;
      if blocks[cur].Length == npos + n {
        cur := cur + 1;
      }
    }

    /** `read` returns what the flat view holds at the cursor and only moves the cursor. */
    method Read(n: nat) returns (r: Read<seq<byte>>)
      requires Valid()
      modifies this`position, this`cur
      ensures Valid() && r == ReadBytes(old(AsView()), n)
      ensures AsView() == old(AsView()).(pos := r.pos)
    {
      if n > size - position { return Stop(OutOfRange, position); }
      if cur == |blocks| { return Stop(NullDeref, position); }
      ghost var p := position;
      var out := CopyOut(n);
      Slices(flat, p, p + n, size);
      return Got(out, position);
    }

    /** The copying loop of `read`: all `n` bytes are there. */
    method CopyOut(n: nat) returns (out: seq<byte>)
      requires Chain() && Cursor() && cur < |blocks| && position + n <= capacity
      modifies this`position, this`cur
      ensures Chain() && Cursor() && position == old(position) + n && out == flat[old(position)..position]
    {
      var npos := OffsetInBlock();
      var ncap := blocks[cur].Length - npos;
      var rest := n;
      out := [];
      while rest > 0
        invariant 0 <= rest && |out| + rest == n && position == old(position) + |out|
        invariant Chain() && Cursor()
        invariant rest > 0 ==> npos == position - start[cur] && ncap == baseSize - npos
        invariant out == flat[old(position)..position]
      {
        Room();
        var m := if ncap >= rest then rest else ncap;
        out := TakePart(npos, m, out, old(position));
        rest := rest - m;
        if rest > 0 {
          Room();
          ncap, npos := blocks[cur].Length, 0;
        }
      }
    }

    /** `setPosition`: the guard lets `val == capacity` through, and then the walk runs off the list. */
    method SetPosition(val: nat) returns (o: Outcome)
      requires Valid()
      modifies this`position, this`size, this`cur
      ensures o == OutOfRange <==> old(capacity) < val
      ensures o == NullDeref <==> old(capacity) == val
      ensures o == OutOfRange ==> unchanged(this)
      ensures o == Done ==> Valid() && position == val && size == Max(old(size), val)
    {
      if val > capacity { return OutOfRange; }
      position := val;
      size := if position > size then position else size;
      cur := 0;
      var left := val;
      while left >= blocks[cur].Length
        invariant cur < |blocks| && 0 <= left && left + start[cur] == val
        invariant position == val && size == Max(old(size), val)
        decreases left
      {
        assert start[cur] + baseSize == start[cur + 1];
        left := left - blocks[cur].Length;
        cur := cur + 1;
        if cur == |blocks| { return NullDeref; }
      }
      assert start[cur] + baseSize <= start[|blocks|];
      return Done;
    }
  
    /** The windows of a tiling hold exactly the bytes of the flat view that `read` would return. */
    lemma GatheredIsFlat(ws: seq<Iovec>, p: nat, q: nat)
      requires Chain() && q <= capacity && Tiles(start, baseSize, ws, p, q)
      ensures p <= q && Gathered(blocks, ws) == flat[p..q]
    {
      forall w, at: nat | Covers(start, baseSize, w, at)
        ensures at + w.len <= |flat| && Under(blocks, w) == flat[at..at + w.len]
      {
        BlockSlice(w.block, w.off, w.len);
      }
      GatherTiles(blocks, start, baseSize, flat, ws, p, q);
    }

    /** `getWriteBuf`: room is made and the windows cover the next `want` places; no byte changes. */
    method GetWriteBuf(want: nat) returns (ws: seq<Iovec>)
      requires Valid()
      modifies this`cur, this`capacity, this`blocks, this`start, this`flat
      ensures Valid() && capacity == Grown(baseSize, old(capacity), position + want)
      ensures old(blocks) <= blocks && old(flat) <= flat
      ensures forall i :: |old(blocks)| <= i < |blocks| ==> fresh(blocks[i])
      ensures Tiles(start, baseSize, ws, position, position + want)
    {
      ws := [];
      if want == 0 { return; }
      AddCapacity(want);
      ws := WriteWindows(want);
    }

    method WriteWindows(want: nat) returns (ws: seq<Iovec>)
      requires Valid() && 0 < want && position + want <= capacity
      ensures Tiles(start, baseSize, ws, position, position + want)
    {
      ws := [];
      var npos := OffsetInBlock();
      Room();
      var c, ncap, left := cur, blocks[cur].Length - npos, want;
      while left > 0
        invariant 0 <= left <= want
        invariant Tiles(start, baseSize, ws, position, position + (want - left))
        invariant left > 0 ==> 0 <= c < |blocks| && ncap == baseSize - npos && 0 <= npos < baseSize
        invariant left > 0 ==> start[c] + npos == position + (want - left)
      {
        assert start[c] + baseSize == start[c + 1];
        var w := Iovec(c, npos, if ncap >= left then left else ncap);
        TilesAppend(start, baseSize, ws, position, position + (want - left), w);
        if ncap >= left {
          left := 0;
        } else {
          left := left - ncap;
          c, npos := c + 1, 0;
          ncap := blocks[c].Length;
        }
        ws := ws + [w];
      }
    }

    /** `getReadBuf`: the loop steps to the next block when a block is used up exactly, also at the very end. */
    method GetReadBuf(want: nat) returns (o: Outcome, ws: seq<Iovec>, n: nat)
      requires Valid()
      ensures n == if want > size - position then size - position else want
      ensures o == if 0 < n && position + n == capacity then NullDeref else Done
      ensures o == Done ==> Tiles(start, baseSize, ws, position, position + n)
    {
      n := if want > size - position then size - position else want;
      ws, o := [], Done;
      if n == 0 { return; }
      o, ws := ReadWindows(n);
    }

    method ReadWindows(n: nat) returns (o: Outcome, ws: seq<Iovec>)
      requires Valid() && 0 < n <= size - position
      ensures o == if position + n == capacity then NullDeref else Done
      ensures o == Done ==> Tiles(start, baseSize, ws, position, position + n)
    {
      ws, o := [], Done;
      Room();
      var npos := OffsetInBlock();
      var c, ncap, left := cur, blocks[cur].Length - npos, n;
      while left > 0
        invariant 0 <= left <= n
        invariant Tiles(start, baseSize, ws, position, position + (n - left))
        invariant 0 <= c < |blocks| && ncap == baseSize - npos && 0 <= npos < baseSize
        invariant start[c] + npos <= position + (n - left) < start[c] + baseSize
        invariant left > 0 ==> start[c] + npos == position + (n - left)
      {
        assert start[c] + baseSize == start[c + 1] <= start[|blocks|];
        var w := Iovec(c, npos, if ncap > left then left else ncap);
        TilesAppend(start, baseSize, ws, position, position + (n - left), w);
        ws := ws + [w];
        if ncap > left {
          left := 0;
        } else {
          left := left - ncap;
          c := c + 1;
          if c == |blocks| { return NullDeref, ws; }
          npos, ncap := 0, blocks[c].Length;
        }
      }
      assert start[c] + baseSize <= start[|blocks|];
    }
  }
}
