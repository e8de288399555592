/** The zero-copy users of the windows: receiving into and sending out of a `ByteArray`. */
module SocketStreams {
  import opened Blocks
  import opened ByteArrays

  /** One window of readv: the next bytes of `data`, as many as fit. */
  method ScatterOne(ba: ByteArray, w: Iovec, data: seq<byte>, done: nat,
                    ghost f: seq<byte>, ghost p: nat, ghost at: nat)
    returns (n: nat)
    requires ba.Valid() && Covers(ba.start, ba.baseSize, w, at)
    requires done <= |data| && p + |data| <= |f| && ba.flat == Overwrite(f, p, data[..done])
    requires done < |data| ==> at == p + done
    modifies ba`flat, ba.blocks
    ensures ba.Valid() && n == if w.len <= |data| - done then w.len else |data| - done
    ensures ba.flat == Overwrite(f, p, data[..done + n])
  {
    n := if w.len <= |data| - done then w.len else |data| - done;
    ghost var mid := ba.flat;
    ba.CopyIn(w.block, w.off, data[done..done + n]);
    if done < |data| {
      OverwriteMore(f, p, data, done, n, mid, ba.flat);
    } else {
      assert ba.flat == mid;
    }
  }

  /** readv: `data` goes into the windows in order, as far as it reaches. */
  method Scatter(ba: ByteArray, ws: seq<Iovec>, data: seq<byte>, ghost p: nat, ghost q: nat)
    requires ba.Valid() && Tiles(ba.start, ba.baseSize, ws, p, q)
    requires p + |data| <= q <= ba.capacity
    modifies ba`flat, ba.blocks
    ensures ba.Valid() && ba.flat == Overwrite(old(ba.flat), p, data)
  {
    ghost var f, at := ba.flat, p;
    var t, done := 0, 0;
    assert f == Overwrite(f, p, data[..0]);
    while t < |ws|
      invariant 0 <= t <= |ws| && 0 <= done <= |data| && 0 <= at
      invariant Tiles(ba.start, ba.baseSize, ws[t..], at, q)
      invariant if done < |data| then at == p + done else at >= p + done
      invariant ba.Valid() && ba.flat == Overwrite(f, p, data[..done])
    {
      assert ws[t..][1..] == ws[t + 1..];
      var n := ScatterOne(ba, ws[t], data, done, f, p, at);
      done, at := done + n, at + ws[t].len;
      t := t + 1;
    }
    assert data[..done] == data;
  }

  method FillWindows(ba: ByteArray, want: nat, data: seq<byte>)
    requires ba.Valid() && |data| <= want
    modifies ba`capacity, ba`cur, ba`blocks, ba`start, ba`flat, ba.blocks
    ensures ba.Valid() && ba.capacity == Grown(ba.baseSize, old(ba.capacity), ba.position + want)
    ensures Written(old(ba.flat), ba.position, data, ba.flat)
  {
    var ws := ba.GetWriteBuf(want);
    ghost var grown := ba.flat;
    Scatter(ba, ws, data, ba.position, ba.position + want);
    OverwriteIsWritten(old(ba.flat), grown, ba.position, data);
  }

  /**
   * `SocketStream::read`: receiving `data` through the windows has the effect of writing it at the
   * cursor, unless it ends exactly at the capacity, where moving the cursor runs off the list.
   */
  method Receive(ba: ByteArray, want: nat, data: seq<byte>) returns (o: Outcome)
    requires ba.Valid() && |data| <= want
    modifies ba`position, ba`size, ba`capacity, ba`cur, ba`blocks, ba`start, ba`flat, ba.blocks
    ensures ba.capacity == Grown(ba.baseSize, old(ba.capacity), old(ba.position) + want)
    ensures o == if data != [] && old(ba.position) + |data| == ba.capacity then NullDeref else Done
    ensures o == Done ==> ba.Valid() && ba.position == old(ba.position) + |data|
    ensures o == Done ==> ba.size == Max(old(ba.size), ba.position)
    ensures Written(old(ba.flat), old(ba.position), data, ba.flat)
  {
    FillWindows(ba, want, data);
    o := Done;
    if |data| > 0 {
      o := ba.SetPosition(ba.position + |data|);
    }
  }

  /**
   * `SocketStream::write`: the windows offer what `read` would return; the kernel takes the first
   * `taken` bytes and the cursor moves past them. Offering up to the capacity dereferences null.
   */
  method Send(ba: ByteArray, want: nat, taken: nat) returns (o: Outcome, ghost offered: seq<byte>)
    requires ba.Valid()
    requires taken <= want && taken <= ba.size - ba.position
    modifies ba`position, ba`size, ba`cur
    ensures var n := if want > old(ba.size) - old(ba.position) then old(ba.size) - old(ba.position) else want;
      && o == (if 0 < n && old(ba.position) + n == ba.capacity then NullDeref else Done)
      && (o == Done ==>
            && ba.Valid() && ba.position == old(ba.position) + taken && ba.size == old(ba.size)
            && offered == ba.flat[old(ba.position)..old(ba.position) + n])
  {
    var ws, n;
    o, ws, n := ba.GetReadBuf(want);
    offered := [];
    if o != Done { return; }
    ba.GatheredIsFlat(ws, ba.position, ba.position + n);
    offered := Gathered(ba.blocks, ws);
    if taken > 0 {
      o := ba.SetPosition(ba.position + taken);
    }
  }
}
