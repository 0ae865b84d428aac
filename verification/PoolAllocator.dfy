/** MemoryPoolAllocator of allocators.h: a bump allocator over a linked list of chunks. */
module PoolAllocator {
  class Chunk {
    const capacity: nat
    const data: array<bv8>
    var size: nat
    var next: Chunk?

    constructor (capacity: nat, next: Chunk?)
      ensures this.capacity == capacity == data.Length && size == 0 && this.next == next && fresh(data)
    {
      this.capacity, size, this.next := capacity, 0, next;
      data := new bv8[capacity];
    }
  }

  /** An address: a chunk and an offset into its data, which follows its header. */
  datatype Ptr = Null | Ptr(chunk: Chunk, offset: nat)

  /** What was handed out: the aligned size of a block that Malloc returned, with any growth in place. */
  datatype Block = Block(chunk: Chunk, offset: nat, size: nat)

  /** RAPIDJSON_ALIGN: the next multiple of eight. */
  function Align(n: nat): (r: nat)
    ensures n <= r < n + 8 && r % 8 == 0
  {
    n + 7 - (n + 7) % 8
  }

  lemma AlignTwice(n: nat)
    requires n % 8 == 0
    ensures Align(n) == n
  {
  }

  lemma AlignMonotone(n: nat, m: nat)
    requires Align(m) < Align(n)
    ensures m < n
  {
  }

  lemma AlignFits(n: nat, m: nat)
    requires n <= m && m % 8 == 0
    ensures Align(n) <= m
  {
  }

  predicate Apart(a: Block, b: Block)
  {
    a.chunk != b.chunk || a.offset + a.size <= b.offset || b.offset + b.size <= a.offset
  }

  function Total(bs: seq<Block>): nat { if bs == [] then 0 else Total(bs[..|bs| - 1]) + bs[|bs| - 1].size }

  /** The blocks with one more at `p`, unless `p` is null. */
  function With(bs: seq<Block>, p: Ptr, size: nat): seq<Block>
  {
    if p == Null then bs else bs + [Block(p.chunk, p.offset, size)]
  }

  lemma {:induction false} TotalGrows(bs: seq<Block>, k: nat, b: Block)
    requires k < |bs|
    ensures Total(bs[k := b]) == Total(bs) - bs[k].size + b.size
    decreases |bs|
  {
    var n := |bs| - 1;
    if k == n {
      assert bs[k := b][..n] == bs[..n];
    } else {
      assert bs[k := b][..n] == bs[..n][k := b];
      TotalGrows(bs[..n], k, b);
    }
  }

  function Used(cs: seq<Chunk>): nat
    reads cs
  {
    if cs == [] then 0 else cs[0].size + Used(cs[1..])
  }

  function Room(cs: seq<Chunk>): nat { if cs == [] then 0 else cs[0].capacity + Room(cs[1..]) }

  ghost predicate LinkAt(cs: seq<Chunk>, i: nat)
    requires i < |cs|
    reads cs
  {
    && cs[i].next == (if i + 1 < |cs| then cs[i + 1] else null)
    && cs[i].size <= cs[i].capacity == cs[i].data.Length
  }

  /** The chunks from the head on, each with memory of its own. */
  ghost predicate Linked(cs: seq<Chunk>)
    reads cs
  {
    && (forall i {:trigger LinkAt(cs, i)} :: 0 <= i < |cs| ==> LinkAt(cs, i))
    && (forall i, j :: 0 <= i < |cs| && 0 <= j < |cs| && cs[i].data == cs[j].data ==> i == j)
  }

  ghost predicate InChunk(cs: seq<Chunk>, b: Block)
    reads cs
  {
    b.chunk in cs && 0 < b.size && b.size % 8 == 0 && b.offset + b.size <= b.chunk.size
  }

  /** Every block lies inside its chunk, and no two overlap. */
  ghost predicate Placed(cs: seq<Chunk>, bs: seq<Block>)
    reads cs
  {
    && (forall k :: 0 <= k < |bs| ==> InChunk(cs, bs[k]))
    && (forall j, k :: 0 <= j < k < |bs| ==> Apart(bs[j], bs[k]))
  }

  class Pool {
    var chunkHead: Chunk?
    const chunkCapacity: nat
    const userBuffer: Chunk?
    ghost var chunks: seq<Chunk>
    ghost var blocks: seq<Block>

    ghost predicate Listed()
      reads this, chunks
    {
      && chunkHead == (if chunks == [] then null else chunks[0])
      && Linked(chunks)
      && (userBuffer != null ==> chunks != [] && chunks[|chunks| - 1] == userBuffer)
    }

    ghost predicate Valid()
      reads this, chunks
    {
      Listed() && Placed(chunks, blocks) && Used(chunks) == Total(blocks)
    }

    ghost function Datas(): set<object>
      reads this
    {
      set c | c in chunks :: c.data
    }

    /** A block whose bytes are what they were. */
    twostate predicate Kept(b: Block)
      reads b.chunk.data
    {
      b.offset + b.size <= b.chunk.data.Length && b.chunk.data[b.offset..b.offset + b.size] == old(b.chunk.data[b.offset..b.offset + b.size])
    }

    /** The block that `p` points at the start of. */
    ghost predicate Points(p: Ptr, k: nat)
      reads this
    {
      p.Ptr? && k < |blocks| && blocks[k].chunk == p.chunk && blocks[k].offset == p.offset
    }

    constructor (chunkCapacity: nat)
      ensures Valid() && chunks == [] && blocks == [] && this.chunkCapacity == chunkCapacity && userBuffer == null
    {
      chunkHead, this.chunkCapacity, userBuffer := null, chunkCapacity, null;
      chunks, blocks := [], [];
    }

    /** With a user-supplied buffer as the first chunk. */
    constructor WithBuffer(size: nat, chunkCapacity: nat)
      requires size > 0
      ensures Valid() && |chunks| == 1 && fresh(chunks[0]) && fresh(chunks[0].data) && userBuffer == chunks[0]
      ensures blocks == [] && this.chunkCapacity == chunkCapacity && chunks[0].capacity == size
    {
      var c := new Chunk(size, null);
      chunkHead, this.chunkCapacity, userBuffer := c, chunkCapacity, c;
      chunks, blocks := [c], [];
    }

    method Size() returns (size: nat)
      requires Valid()
      ensures size == Used(chunks) == Total(blocks)
    {
      size := 0;
      var c := chunkHead;
      ghost var i := 0;
      while c != null
        invariant 0 <= i <= |chunks| && c == (if i < |chunks| then chunks[i] else null)
        invariant size + Used(chunks[i..]) == Used(chunks)
        decreases |chunks| - i
      {
        assert LinkAt(chunks, i) && chunks[i..][1..] == chunks[i + 1..];
        size := size + c.size;
        c := c.next;
        i := i + 1;
      }
    }

    method Capacity() returns (capacity: nat)
      requires Valid()
      ensures capacity == Room(chunks) && Total(blocks) <= capacity
    {
      capacity := 0;
      var c := chunkHead;
      ghost var i := 0;
      while c != null
        invariant 0 <= i <= |chunks| && c == (if i < |chunks| then chunks[i] else null)
        invariant capacity + Room(chunks[i..]) == Room(chunks)
        decreases |chunks| - i
      {
        assert LinkAt(chunks, i) && chunks[i..][1..] == chunks[i + 1..];
        capacity := capacity + c.capacity;
        c := c.next;
        i := i + 1;
      }
      UsedFits(0);
    }

    lemma {:induction false} UsedFits(i: nat)
      requires Listed() && i <= |chunks|
      ensures Used(chunks[i..]) <= Room(chunks[i..])
      decreases |chunks| - i
    {
      if i < |chunks| {
        assert LinkAt(chunks, i) && chunks[i..][1..] == chunks[i + 1..];
        UsedFits(i + 1);
      }
    }

    /** A new chunk in front; `granted` is whether the base allocator had the memory. */
    method AddChunk(capacity: nat, granted: bool) returns (ok: bool)
      requires Valid()
      modifies this
      ensures Valid() && ok == granted && blocks == old(blocks)
      ensures if ok then |chunks| == |old(chunks)| + 1 && chunks[1..] == old(chunks) && fresh(chunks[0]) && fresh(chunks[0].data)
                && chunks[0].capacity == capacity && chunks[0].size == 0
              else chunks == old(chunks)
    {
      if !granted {
        return false;
      }
      var chunk := new Chunk(capacity, chunkHead);
      LinkedCons(chunk, chunks);
      Prepend(chunk);
      ok := true;
    }

    method Prepend(chunk: Chunk)
      requires Valid() && Linked([chunk] + chunks) && chunk.size == 0
      modifies `chunkHead, `chunks
      ensures Valid() && chunks == [chunk] + old(chunks)
    {
      chunkHead := chunk;
      assert ([chunk] + chunks)[1..] == chunks;
      chunks := [chunk] + chunks;
    }

    lemma LinkedCons(c: Chunk, cs: seq<Chunk>)
      requires Linked(cs) && c.next == (if cs == [] then null else cs[0]) && c.size <= c.capacity == c.data.Length
      requires forall i :: 0 <= i < |cs| ==> cs[i].data != c.data
      ensures Linked([c] + cs)
    {
      var all := [c] + cs;
      forall i | 0 <= i < |all|
        ensures LinkAt(all, i)
      {
        assert i > 0 ==> LinkAt(cs, i - 1);
      }
    }

    /** One more block of aligned size at the end of the head chunk. */
    method Bump(size: nat) returns (p: Ptr)
      requires Valid() && size > 0 && size % 8 == 0 && chunkHead != null && chunkHead.size + size <= chunkHead.capacity
      modifies chunkHead`size, `blocks
      ensures Valid() && p == Ptr(chunkHead, old(chunkHead.size))
      ensures blocks == old(blocks) + [Block(chunkHead, old(chunkHead.size), size)]
    {
      p := Ptr(chunkHead, chunkHead.size);
      ghost var b := Block(chunkHead, p.offset, size);
      forall k | 0 <= k < |blocks| ensures Apart(blocks[k], b) { assert InChunk(chunks, blocks[k]); }
      Resize(chunkHead.size + size);
      assert InChunk(chunks, b);
      PlacedMore(chunks, blocks, b);
      Hand(blocks + [b]);
    }

    /** Records what is handed out now. */
    ghost method Hand(bs: seq<Block>)
      requires Listed() && Placed(chunks, bs) && Used(chunks) == Total(bs)
      modifies `blocks
      ensures Valid() && blocks == bs
    {
      blocks := bs;
    }

    lemma PlacedGrown(cs: seq<Chunk>, bs: seq<Block>, k: nat, b: Block)
      requires Placed(cs, bs) && k < |bs| && InChunk(cs, b) && forall j :: 0 <= j < |bs| && j != k ==> Apart(bs[j], b)
      ensures Placed(cs, bs[k := b])
    {
    }

    lemma PlacedMore(cs: seq<Chunk>, bs: seq<Block>, b: Block)
      requires Placed(cs, bs) && InChunk(cs, b) && forall k :: 0 <= k < |bs| ==> Apart(bs[k], b)
      ensures Placed(cs, bs + [b]) && Total(bs + [b]) == Total(bs) + b.size
    {
      assert (bs + [b])[..|bs|] == bs;
    }

    /** Moves the end of the head chunk further on. */
    method Resize(size: nat)
      requires Listed() && chunkHead != null && chunkHead.size <= size <= chunkHead.capacity
      modifies chunkHead`size
      ensures Listed() && Used(chunks) == old(Used(chunks)) + size - old(chunkHead.size) && chunkHead.size == size
      ensures old(Placed(chunks, blocks)) ==> Placed(chunks, blocks)
    {
      ghost var rest := chunks[1..];
      forall i | 0 <= i < |chunks| ensures LinkAt(chunks, i) { }
      chunkHead.size := size;
      forall i | 0 <= i < |chunks| ensures LinkAt(chunks, i) { assert old(LinkAt(chunks, i)); }
      assert chunkHead !in rest;
    }

    /** Room for `size` more bytes at the end of the head chunk. */
    ghost predicate Fits(size: nat)
      reads this, chunks
      requires Valid()
    {
      chunkHead != null && chunkHead.size + size <= chunkHead.capacity
    }

    /** A new block, apart from all others; null for no bytes and when the base allocator fails. */
    method Malloc(size: nat, granted: bool) returns (p: Ptr)
      requires Valid()
      modifies this, chunks
      ensures Valid()
      ensures p == Null <==> size == 0 || (!granted && !old(Fits(Align(size))))
      ensures blocks == With(old(blocks), p, Align(size))
      ensures p.Ptr? ==> p.chunk == chunkHead && p.chunk == chunks[0]
      ensures chunks == old(chunks) || (|chunks| > 0 && chunks[1..] == old(chunks) && fresh(chunks[0]) && fresh(chunks[0].data))
      ensures p.Ptr? ==> p.offset + Align(size) <= p.chunk.data.Length && (p.chunk.data in old(Datas()) || fresh(p.chunk.data))
      ensures forall b :: b in old(blocks) ==> Kept(b)
    {
      AllFit();
      if size == 0 {
        return Null;
      }
      var aligned := Align(size);
      if chunkHead == null || chunkHead.size + aligned > chunkHead.capacity {
        var ok := AddChunk(if chunkCapacity > aligned then chunkCapacity else aligned, granted);
        if !ok { return Null; }
      }
      p := Bump(aligned);
      BlockFits(|blocks| - 1);
    }

    /** memcpy, into a block that begins where nothing else is. */
    method Copy(to: Ptr, from: Ptr, n: nat)
      requires to.Ptr? && from.Ptr? && to.offset + n <= to.chunk.data.Length && from.offset + n <= from.chunk.data.Length
      requires to.chunk == from.chunk ==> to.offset + n <= from.offset || from.offset + n <= to.offset
      requires to.chunk != from.chunk ==> to.chunk.data != from.chunk.data
      modifies to.chunk.data
      ensures to.chunk.data[to.offset..to.offset + n] == old(from.chunk.data[from.offset..from.offset + n])
      ensures forall b :: old(allocated(b)) && Aside(b, Block(to.chunk, to.offset, n)) ==> Kept(b)
    {
      var target, source := to.chunk.data, from.chunk.data;
      forall i | 0 <= i < n {
        target[to.offset + i] := source[from.offset + i];
      }
    }

    /** Only the last block of the head chunk grows where it is, and only into the room left there. */
    ghost predicate GrowsInPlace(k: nat, original: nat, aligned: nat)
      reads this, chunks
      requires Valid() && k < |blocks|
    {
      && original < aligned && blocks[k].size == original
      && blocks[k].chunk == chunkHead && blocks[k].offset + blocks[k].size == chunkHead.size
      && Fits(aligned - original)
    }

    /** Grows the block where it is. */
    method GrowLast(original: nat, aligned: nat, ghost k: nat)
      requires Valid() && k < |blocks| && aligned % 8 == 0 && GrowsInPlace(k, original, aligned)
      modifies `blocks, chunkHead`size
      ensures Valid() && blocks == old(blocks)[k := Block(chunkHead, old(blocks[k].offset), aligned)]
    {
      ghost var b := Block(chunkHead, blocks[k].offset, aligned);
      LastBlock(k);
      TotalGrows(blocks, k, b);
      Resize(chunkHead.size + (aligned - original));
      assert InChunk(chunks, blocks[k]);
      assert InChunk(chunks, b);
      PlacedGrown(chunks, blocks, k, b);
      Hand(blocks[k := b]);
    }

    /** Grows the block in place if it can. */
    method Extend(p: Ptr, original: nat, aligned: nat, ghost k: nat) returns (done: bool)
      requires Valid() && Points(p, k) && original <= blocks[k].size && original < aligned && aligned % 8 == 0
      modifies this`blocks, chunks
      ensures Valid() && done == old(GrowsInPlace(k, original, aligned))
      ensures blocks == if done then old(blocks)[k := Block(p.chunk, p.offset, aligned)] else old(blocks)
      ensures forall b :: b in old(blocks) ==> Kept(b)
      ensures p.offset + original <= p.chunk.data.Length && Holds(p, original) == old(Holds(p, original))
    {
      AllFit();
      assert InChunk(chunks, blocks[k]) && blocks[k] in blocks;
      done := false;
      if p.chunk == chunkHead && p.offset + original == chunkHead.size {
        var increment := aligned - original;
        if chunkHead.size + increment <= chunkHead.capacity {
          GrowLast(original, aligned, k);
          done := true;
        }
      }
    }

    /** Nothing lies past the end of the head chunk's last block. */
    lemma LastBlock(k: nat)
      requires Valid() && k < |blocks| && blocks[k].chunk == chunkHead && blocks[k].offset + blocks[k].size == chunkHead.size
      ensures forall j :: 0 <= j < |blocks| && j != k && blocks[j].chunk == chunkHead ==> blocks[j].offset + blocks[j].size <= blocks[k].offset
    {
      forall j | 0 <= j < |blocks| && j != k && blocks[j].chunk == chunkHead
        ensures blocks[j].offset + blocks[j].size <= blocks[k].offset
      {
        assert InChunk(chunks, blocks[j]) && InChunk(chunks, blocks[k]);
        assert j < k ==> Apart(blocks[j], blocks[k]);
        assert k < j ==> Apart(blocks[k], blocks[j]);
      }
    }

    lemma BlockFits(k: nat)
      requires Valid() && k < |blocks|
      ensures blocks[k].offset + blocks[k].size <= blocks[k].chunk.data.Length && blocks[k].chunk.data in Datas()
    {
      assert InChunk(chunks, blocks[k]);
      var i :| 0 <= i < |chunks| && chunks[i] == blocks[k].chunk;
      assert LinkAt(chunks, i);
    }

    lemma AllFit()
      requires Valid()
      ensures forall b :: b in blocks ==> b.offset + b.size <= b.chunk.data.Length && b.chunk.data in Datas()
    {
      forall b | b in blocks
        ensures b.offset + b.size <= b.chunk.data.Length && b.chunk.data in Datas()
      {
        var k :| 0 <= k < |blocks| && blocks[k] == b;
        BlockFits(k);
      }
    }

    /** Blocks that share memory share the chunk, so they lie apart in it. */
    lemma ApartInData(j: nat, k: nat)
      requires Valid() && j < k < |blocks| && blocks[j].chunk.data == blocks[k].chunk.data
      ensures blocks[j].chunk == blocks[k].chunk
      ensures blocks[j].offset + blocks[j].size <= blocks[k].offset || blocks[k].offset + blocks[k].size <= blocks[j].offset
    {
      assert InChunk(chunks, blocks[j]) && InChunk(chunks, blocks[k]) && Apart(blocks[j], blocks[k]);
      var x :| 0 <= x < |chunks| && chunks[x] == blocks[j].chunk;
      var y :| 0 <= y < |chunks| && chunks[y] == blocks[k].chunk;
      assert chunks[x].data == chunks[y].data;
    }

    /** Where writing the block `a` leaves `b` alone. */
    ghost predicate Aside(b: Block, a: Block)
    {
      && b.offset + b.size <= b.chunk.data.Length
      && (b.chunk.data == a.chunk.data ==> b.chunk == a.chunk && (b.offset + b.size <= a.offset || a.offset + a.size <= b.offset))
    }

    lemma NewestAside()
      requires Valid() && |blocks| > 0
      ensures forall j :: 0 <= j < |blocks| - 1 ==> Aside(blocks[j], blocks[|blocks| - 1])
    {
      var last := |blocks| - 1;
      forall j | 0 <= j < last
        ensures Aside(blocks[j], blocks[last])
      {
        BlockFits(j);
        if blocks[j].chunk.data == blocks[last].chunk.data { ApartInData(j, last); }
      }
    }

    /** memcpy from block `k` into the block that came after the others. */
    method CopyBlock(r: Ptr, p: Ptr, n: nat, ghost k: nat, ghost others: seq<Block>)
      requires Valid() && blocks != [] && others == blocks[..|blocks| - 1] && k < |others| && Points(p, k) && Points(r, |others|)
      requires n <= blocks[k].size && n <= blocks[|others|].size
      modifies r.chunk.data
      ensures p.offset + n <= p.chunk.data.Length && r.offset + n <= r.chunk.data.Length
      ensures Holds(r, n) == old(Holds(p, n))
      ensures Valid()
      ensures forall b :: b in others ==> Kept(b)
    {
      ghost var last := |others|;
      NewestAside();
      BlockFits(last);
      assert Aside(blocks[k], blocks[last]);
      assert forall j :: 0 <= j < last ==> Aside(blocks[j], Block(r.chunk, r.offset, n));
      Copy(r, p, n);
    }

    /** The new place: a block after all others, of which none has moved. */
    method NewPlace(p: Ptr, original: nat, aligned: nat, granted: bool, ghost k: nat) returns (r: Ptr)
      requires Valid() && Points(p, k) && original <= blocks[k].size && original < aligned && aligned % 8 == 0
      modifies this, chunks
      ensures Valid() && blocks == With(old(blocks), r, aligned) && Points(p, k)
      ensures forall b :: b in old(blocks) ==> Kept(b)
      ensures p.offset + original <= p.chunk.data.Length && Holds(p, original) == old(Holds(p, original))
      ensures r.Ptr? ==> Points(r, |old(blocks)|) && blocks[..|old(blocks)|] == old(blocks)
      ensures r.Ptr? ==> r.offset + original <= r.chunk.data.Length && (r.chunk.data in old(Datas()) || fresh(r.chunk.data))
    {
      BlockFits(k);
      assert blocks[k] in blocks;
      AlignTwice(aligned);
      HoldsPrefix(p, original, blocks[k].size);
      r := Malloc(aligned, granted);
      HoldsPrefix(p, original, old(blocks[k].size));
    }

    /** Malloc, memcpy, and no free. */
    method Relocate(p: Ptr, original: nat, aligned: nat, granted: bool, ghost k: nat) returns (r: Ptr)
      requires Valid() && Points(p, k) && original <= blocks[k].size && original < aligned && aligned % 8 == 0
      modifies this, chunks, Datas()
      ensures Valid() && blocks == With(old(blocks), r, aligned)
      ensures forall b :: b in old(blocks) ==> Kept(b)
      ensures p.offset + original <= p.chunk.data.Length
      ensures r.Ptr? ==> (r.offset + original <= r.chunk.data.Length && Holds(r, original) == old(Holds(p, original)))
    {
      ghost var was := blocks;
      r := NewPlace(p, original, aligned, granted, k);
      if r.Ptr? && original > 0 {
        CopyBlock(r, p, original, k, was);
      }
    }

    /** The growing half of Realloc: in place, or elsewhere. */
    method Enlarge(p: Ptr, original: nat, aligned: nat, granted: bool, ghost k: nat) returns (r: Ptr)
      requires Valid() && Points(p, k) && original <= blocks[k].size && original < aligned && aligned % 8 == 0
      modifies this, chunks, Datas()
      ensures Valid()
      ensures if old(GrowsInPlace(k, original, aligned)) then r == p && blocks == old(blocks)[k := Block(p.chunk, p.offset, aligned)]
              else blocks == With(old(blocks), r, aligned)
      ensures p.offset + original <= p.chunk.data.Length
      ensures r.Ptr? ==> r.offset + original <= r.chunk.data.Length && Holds(r, original) == old(Holds(p, original))
      ensures forall b :: b in old(blocks) ==> Kept(b)
    {
      AllFit();
      assert blocks[k] in blocks;
      var done := Extend(p, original, aligned, k);
      if done {
        return p;
      }
      r := Relocate(p, original, aligned, granted, k);
    }

    /** `p` is null or points at block `k`, whose size the caller remembers as `originalSize`. */
    method Realloc(p: Ptr, originalSize: nat, newSize: nat, granted: bool, ghost k: nat) returns (r: Ptr)
      requires Valid() && (p.Ptr? ==> Points(p, k) && originalSize <= blocks[k].size)
      modifies this, chunks, Datas()
      ensures Valid()
      ensures
        if p == Null then blocks == With(old(blocks), r, Align(newSize))
        else if newSize == 0 || Align(newSize) <= Align(originalSize) then blocks == old(blocks) && r == if newSize == 0 then Null else p
        else if old(GrowsInPlace(k, Align(originalSize), Align(newSize))) then
          r == p && blocks == old(blocks)[k := Block(p.chunk, p.offset, Align(newSize))]
        else blocks == With(old(blocks), r, Align(newSize))
      ensures p.Ptr? && r.Ptr? ==> var n := if originalSize < newSize then originalSize else newSize;
        && p.offset + n <= p.chunk.data.Length && r.offset + n <= r.chunk.data.Length && Holds(r, n) == old(Holds(p, n))
      ensures forall b :: b in old(blocks) ==> Kept(b)
    {
      AllFit();
      if p == Null {
        r := Malloc(newSize, granted);
        return;
      }
      assert blocks[k] in blocks;
      if newSize == 0 {
        return Null;
      }
      BlockAligned(k, originalSize);
      var original, aligned := Align(originalSize), Align(newSize);
      if original >= aligned {
        return p;
      }
      AlignMonotone(newSize, originalSize);
      HoldsPrefix(p, originalSize, original);
      r := Enlarge(p, original, aligned, granted, k);
      if r.Ptr? { HoldsPrefix(r, originalSize, original); }
    }

    lemma HoldsPrefix(p: Ptr, n: nat, m: nat)
      requires n <= m && p.Ptr? && p.offset + m <= p.chunk.data.Length
      ensures Holds(p, n) == Holds(p, m)[..n]
    {
    }

    lemma BlockAligned(k: nat, n: nat)
      requires Valid() && k < |blocks| && n <= blocks[k].size
      ensures Align(n) <= blocks[k].size
    {
      assert InChunk(chunks, blocks[k]);
      AlignFits(n, blocks[k].size);
    }

    ghost function Holds(p: Ptr, n: nat): seq<bv8>
      requires p.Ptr? && p.offset + n <= p.chunk.data.Length
      reads p.chunk.data
    {
      p.chunk.data[p.offset..p.offset + n]
    }

    /** Frees every chunk but the user's buffer, and empties that. */
    method Clear()
      requires Valid()
      modifies this, chunks
      ensures Valid() && blocks == [] && Used(chunks) == 0
      ensures chunks == if userBuffer == null then [] else [userBuffer]
    {
      ghost var was := chunks;
      ghost var i := 0;
      while chunkHead != null && chunkHead != userBuffer
        invariant 0 <= i <= |was| && Linked(was) && (userBuffer != null ==> i < |was| && was[|was| - 1] == userBuffer)
        invariant chunkHead == if i < |was| then was[i] else null
        decreases |was| - i
      {
        assert LinkAt(was, i);
        chunkHead := chunkHead.next;
        i := i + 1;
      }
      if i < |was| { assert was[i].data == was[|was| - 1].data; }
      chunks, blocks := was[i..], [];
      assert userBuffer != null ==> LinkAt(was, i);
      if chunkHead != null && chunkHead == userBuffer {
        chunkHead.size := 0;
      }
    }
  }
}
