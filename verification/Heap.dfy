// The private first-fit heap, as it lies in memory: one byte array in which the
// block headers and the payloads share the same bytes.
module Layouts {
  import opened Words
  import opened Memory
  import opened Blocks

  const NEXT: nat := 0     // field offsets inside a header
  const SIZE: nat := 4
  const USED: nat := 8

  ghost predicate Header(m: seq<uint8>, b: Block, next: int) {
    && b.off + HDR <= |m|
    && Load32(m, b.off + NEXT) == next
    && Load32(m, b.off + SIZE) == b.size
    && (m[b.off + USED] != 0 <==> b.used)
  }

  // The address of block i, or of whatever follows the list.
  ghost function Link(base: nat, bs: seq<Block>, i: nat, after: nat): nat {
    if i < |bs| then base + bs[i].off else after
  }

  // The list starting at bs[0] is written out in m, each header pointing to the
  // next and the last one to after.
  ghost predicate Layout(m: seq<uint8>, base: nat, bs: seq<Block>, after: nat) {
    forall k: nat | k < |bs| :: HeaderAt(m, base, bs, k, after)
  }

  // A whole pool at address base, threaded by blocks bs.
  ghost predicate Threaded(m: seq<uint8>, base: nat, bs: seq<Block>) {
    && HDR <= |m| < HALF && 0 < base && base % ALIGN == 0 && base + |m| <= WORD
    && Tiles(bs, 0, |m|) && Aligned(bs) && Layout(m, base, bs, 0)
  }

  // ... with no two neighbours free, and the live payloads at hand.
  ghost predicate Consistent(m: seq<uint8>, base: nat, bs: seq<Block>, live: map<Block, seq<uint8>>) {
    Threaded(m, base, bs) && Coalesced(bs) && live == Payloads(m, bs)
  }

  ghost predicate HeaderAt(m: seq<uint8>, base: nat, bs: seq<Block>, k: nat, after: nat)
    requires k < |bs|
  {
    Header(m, bs[k], Link(base, bs, k + 1, after))
  }

  lemma HeaderFrame(m: seq<uint8>, m': seq<uint8>, lo: nat, hi: nat, b: Block, next: int)
    requires SameOutside(m, m', lo, hi) && Header(m, b, next)
    requires b.off + HDR <= lo || hi <= b.off
    ensures Header(m', b, next)
  {
  }

  // Three stores that make a new header.
  lemma HeaderStores(m0: seq<uint8>, m1: seq<uint8>, m2: seq<uint8>, m3: seq<uint8>, b: Block, next: int)
    requires b.off + HDR <= |m0|
    requires SameOutside(m0, m1, b.off + NEXT, b.off + NEXT + 4) && Load32(m1, b.off + NEXT) == next
    requires SameOutside(m1, m2, b.off + SIZE, b.off + SIZE + 4) && Load32(m2, b.off + SIZE) == b.size
    requires SameOutside(m2, m3, b.off + USED, b.off + USED + 1) && (m3[b.off + USED] != 0 <==> b.used)
    ensures Header(m3, b, next) && SameOutside(m0, m3, b.off, b.off + HDR)
  {
  }

  // Two stores that relink and resize an old one.
  lemma FieldStores(m0: seq<uint8>, m1: seq<uint8>, m2: seq<uint8>, b: Block, old_: int, next: int, size: nat)
    requires Header(m0, b, old_)
    requires SameOutside(m0, m1, b.off + NEXT, b.off + NEXT + 4) && Load32(m1, b.off + NEXT) == next
    requires SameOutside(m1, m2, b.off + SIZE, b.off + SIZE + 4) && Load32(m2, b.off + SIZE) == size
    ensures Header(m2, b.(size := size), next) && SameOutside(m0, m2, b.off, b.off + HDR)
  {
  }

  // ... after those of the block split off its end.
  lemma SplitStores(m0: seq<uint8>, m3: seq<uint8>, m4: seq<uint8>, m5: seq<uint8>, b: Block, rest: Block,
                    next: int, link: int, size: nat)
    requires Header(m0, b, next) && b.off + HDR <= rest.off && rest.off + HDR <= b.End()
    requires Header(m3, rest, next) && SameOutside(m0, m3, rest.off, rest.off + HDR)
    requires SameOutside(m3, m4, b.off + NEXT, b.off + NEXT + 4) && Load32(m4, b.off + NEXT) == link
    requires SameOutside(m4, m5, b.off + SIZE, b.off + SIZE + 4) && Load32(m5, b.off + SIZE) == size
    ensures Header(m5, b.(size := size), link) && Header(m5, rest, next)
    ensures SameOutside(m0, m5, b.off, b.End())
  {
    HeaderFrame(m0, m3, rest.off, rest.off + HDR, b, next);
    FieldStores(m3, m4, m5, b, next, link, size);
    HeaderFrame(m3, m5, b.off, b.off + HDR, rest, next);
  }

  // Setting the flag of a header keeps its other fields.
  lemma FlagUpdate(m: seq<uint8>, m': seq<uint8>, b: Block, next: int)
    requires Header(m, b, next) && SameOutside(m, m', b.off + USED, b.off + USED + 1)
    ensures Header(m', b.(used := m'[b.off + USED] != 0), next)
    ensures SameOutside(m, m', b.off, b.off + HDR)
  {
  }

  // Rewriting the headers of blocks i..j, and nothing outside those blocks,
  // replaces just that part of the list.
  lemma SpliceLayout(m: seq<uint8>, m': seq<uint8>, base: nat, bs: seq<Block>, i: nat, j: nat, mid: seq<Block>)
    requires Tiles(bs, 0, |m|) && i < j <= |bs| && mid != [] && mid[0].off == bs[i].off
    requires Layout(m, base, bs, 0) && SameOutside(m, m', bs[i].off, bs[j - 1].End())
    requires Layout(m', base, mid, Link(base, bs, j, 0))
    ensures Layout(m', base, bs[..i] + mid + bs[j..], 0)
  {
    var cs := bs[..i] + mid + bs[j..];
    var d := i + |mid|;
    forall k: nat | k < |cs| ensures HeaderAt(m', base, cs, k, 0) {
      if k < i {
        LayoutFrame(m, m', base, bs, i, j, k);
      } else if k < d {
        assert HeaderAt(m', base, mid, k - i, Link(base, bs, j, 0));
      } else {
        LayoutFrame(m, m', base, bs, i, j, k - d + j);
      }
    }
  }

  lemma LayoutFrame(m: seq<uint8>, m': seq<uint8>, base: nat, bs: seq<Block>, i: nat, j: nat, k: nat)
    requires Tiles(bs, 0, |m|) && i < j <= |bs| && Layout(m, base, bs, 0)
    requires SameOutside(m, m', bs[i].off, bs[j - 1].End())
    requires k < |bs| && (k < i || j <= k)
    ensures HeaderAt(m', base, bs, k, 0)
  {
    if k < i { Ordered(bs, 0, |m|, k, i); } else { Ordered(bs, 0, |m|, j - 1, k); }
    assert HeaderAt(m, base, bs, k, 0);
    HeaderFrame(m, m', bs[i].off, bs[j - 1].End(), bs[k], Link(base, bs, k + 1, 0));
  }

  // The bytes each live block holds.
  function Payloads(m: seq<uint8>, bs: seq<Block>): (r: map<Block, seq<uint8>>) {
    map b | b in Used(bs) && b.End() <= |m| :: m[b.off + HDR..b.End()]
  }

  // Rewriting blocks i..j leaves the payload of every other block alone.
  lemma SplicePayloads(m: seq<uint8>, m': seq<uint8>, bs: seq<Block>, i: nat, j: nat, mid: seq<Block>)
    requires Tiles(bs, 0, |m|) && i < j <= |bs| && SameOutside(m, m', bs[i].off, bs[j - 1].End())
    ensures forall b | b in bs[..i] + bs[j..] && b.used ::
              b in Payloads(m, bs) && b in Payloads(m', bs[..i] + mid + bs[j..])
              && Payloads(m', bs[..i] + mid + bs[j..])[b] == Payloads(m, bs)[b]
  {
    forall b | b in bs[..i] + bs[j..]
      ensures b in bs && b.End() <= |m| && (b.End() <= bs[i].off || bs[j - 1].End() <= b.off)
    {
      var k :| 0 <= k < |bs| && bs[k] == b && (k < i || j <= k);
      Bounds(bs, 0, |m|, k);
      if k < i { Ordered(bs, 0, |m|, k, i); } else { Ordered(bs, 0, |m|, j - 1, k); }
    }
  }

  // The headers malloc leaves where free block b was.
  lemma CarvedHeaders(m: seq<uint8>, base: nat, b: Block, size: nat, next: nat)
    requires size <= b.size
    requires if b.size >= size + HDR + ALIGN
             then Header(m, Block(b.off, size, true), base + b.off + HDR + size)
                  && Header(m, Block(b.off + HDR + size, b.size - size - HDR, false), next)
             else Header(m, b.(used := true), next)
    ensures Layout(m, base, Carve(b, size), next)
  {
    var mid := Carve(b, size);
    assert HeaderAt(m, base, mid, 0, next);
    assert |mid| == 2 ==> HeaderAt(m, base, mid, 1, next);
  }

  // Once they are written malloc is done: one more allocation, and every other
  // one as it was.
  lemma Carved(m: seq<uint8>, m': seq<uint8>, base: nat, bs: seq<Block>, i: nat, size: nat)
    requires Threaded(m, base, bs) && Coalesced(bs) && i < |bs| && !bs[i].used && size <= bs[i].size
    requires size % ALIGN == 0
    requires SameOutside(m, m', bs[i].off, bs[i].End())
    requires Layout(m', base, Carve(bs[i], size), Link(base, bs, i + 1, 0))
    ensures var cs := AllocAt(bs, i, size);
            && Threaded(m', base, cs) && Coalesced(cs)
            && i < |cs| && cs[i] == Carve(bs[i], size)[0] && cs[i] !in Payloads(m, bs)
            && cs[i] in Payloads(m', cs) && Payloads(m', cs) == Payloads(m, bs)[cs[i] := Payloads(m', cs)[cs[i]]]
  {
    SpliceLayout(m, m', base, bs, i, i + 1, Carve(bs[i], size));
    AllocAddsOneLiveBlock(bs, |m|, i, size);
    Bounds(AllocAt(bs, i, size), 0, |m|, i);
    CarvedPayloads(m, m', bs, i, size);
  }

  lemma CarvedPayloads(m: seq<uint8>, m': seq<uint8>, bs: seq<Block>, i: nat, size: nat)
    requires Tiles(bs, 0, |m|) && i < |bs| && !bs[i].used && size <= bs[i].size
    requires SameOutside(m, m', bs[i].off, bs[i].End())
    requires var cs := AllocAt(bs, i, size); cs[i].End() <= |m| && Used(cs) == Used(bs) + {cs[i]} && cs[i] !in Used(bs)
    ensures var cs := AllocAt(bs, i, size);
            && cs[i] in Used(cs)
            && Payloads(m', cs) == Payloads(m, bs)[cs[i] := Payloads(m', cs)[cs[i]]]
  {
    var cs := AllocAt(bs, i, size);
    SplicePayloads(m, m', bs, i, i + 1, Carve(bs[i], size));
    assert bs == bs[..i] + [bs[i]] + bs[i + 1..];
    forall b | b in Used(bs) ensures b in bs[..i] + bs[i + 1..] {
    }
  }

  // What the walk of malloc comes to.
  lemma FitFound(m: seq<uint8>, base: nat, bs: seq<Block>, live: map<Block, seq<uint8>>, size: nat)
    requires Consistent(m, base, bs, live) && 0 < size
    ensures var i := FirstFit(bs, size);
            && (i == |bs| <==> NoRoom(bs, |m|, size))
            && (i < |bs| ==> LowestFit(bs, |m|, bs[i].off, size)
                             && (base + bs[i].off + HDR) % ALIGN == 0 && base + bs[i].off + HDR < WORD)
  {
    FirstFitIsComplete(bs, |m|, size);
  }

  lemma Neighbours(m: seq<uint8>, base: nat, bs: seq<Block>, i: nat)
    requires Threaded(m, base, bs) && i < |bs|
    ensures bs[i].End() <= |m| && Header(m, bs[i], Link(base, bs, i + 1, 0))
    ensures i + 1 < |bs| ==> bs[i].End() == bs[i + 1].off && bs[i + 1].End() <= |m|
                             && Header(m, bs[i + 1], Link(base, bs, i + 2, 0))
  {
    Bounds(bs, 0, |m|, i);
    assert HeaderAt(m, base, bs, i, 0);
    if i + 1 < |bs| {
      assert Abut(bs, i);
      Bounds(bs, 0, |m|, i + 1);
      assert HeaderAt(m, base, bs, i + 1, 0);
    }
  }

  // The list after block i has swallowed block i + 1.
  function JoinAt(bs: seq<Block>, i: nat): seq<Block>
    requires i + 1 < |bs|
  {
    bs[..i] + [Joined(bs[i], bs[i + 1])] + bs[i + 2..]
  }

  lemma JoinedBlocks(bs: seq<Block>, n: nat, i: nat)
    requires Tiles(bs, 0, n) && Aligned(bs) && i + 1 < |bs| && !bs[i].used && !bs[i + 1].used
    ensures Tiles(JoinAt(bs, i), 0, n) && Aligned(JoinAt(bs, i))
    ensures JoinAt(bs, i)[..i] + Merge(JoinAt(bs, i)[i..]) == bs[..i] + Merge(bs[i..])
    ensures Used(JoinAt(bs, i)) == Used(bs) == Used(bs[..i] + bs[i + 2..])
  {
    var b := Joined(bs[i], bs[i + 1]);
    assert Abut(bs, i);
    SpliceTiles(bs, 0, n, i, i + 2, [b]);
    assert bs[i..][2..] == bs[i + 2..] && JoinAt(bs, i)[i..] == [b] + bs[i + 2..];
    assert bs == bs[..i] + [bs[i], bs[i + 1]] + bs[i + 2..];
  }

  // One step of the coalescing walk.
  lemma JoinStep(m: seq<uint8>, m': seq<uint8>, base: nat, bs: seq<Block>, i: nat)
    requires Threaded(m, base, bs) && i + 1 < |bs| && !bs[i].used && !bs[i + 1].used
    requires Header(m', Joined(bs[i], bs[i + 1]), Link(base, bs, i + 2, 0))
    requires SameOutside(m, m', bs[i].off, bs[i].off + HDR) && bs[i].End() == bs[i + 1].off
    ensures Threaded(m', base, JoinAt(bs, i)) && Payloads(m', JoinAt(bs, i)) == Payloads(m, bs)
  {
    var b := Joined(bs[i], bs[i + 1]);
    assert HeaderAt(m', base, [b], 0, Link(base, bs, i + 2, 0));
    JoinedBlocks(bs, |m|, i);
    SpliceLayout(m, m', base, bs, i, i + 2, [b]);
    SplicePayloads(m, m', bs, i, i + 2, [b]);
  }

  lemma MergeKeepsFirst(bs: seq<Block>)
    requires 2 <= |bs| && (bs[0].used || bs[1].used)
    ensures Merge(bs) == [bs[0]] + Merge(bs[1..])
  {
  }

  lemma SkipStep(bs: seq<Block>, i: nat)
    requires i + 1 < |bs| && (bs[i].used || bs[i + 1].used)
    ensures bs[..i + 1] + Merge(bs[i + 1..]) == bs[..i] + Merge(bs[i..])
  {
    hide Merge;
    var rest := bs[i..];
    assert rest[0] == bs[i] && rest[1] == bs[i + 1] && rest[1..] == bs[i + 1..];
    MergeKeepsFirst(rest);
    assert bs[..i + 1] == bs[..i] + [bs[i]];
  }

  // The first write of free: block i is no longer used.
  lemma MarkStep(m: seq<uint8>, m': seq<uint8>, base: nat, bs: seq<Block>, i: nat)
    requires Threaded(m, base, bs) && i < |bs| && bs[i].used && bs[i].End() <= |m|
    requires SameOutside(m, m', bs[i].off + USED, bs[i].off + USED + 1) && m'[bs[i].off + USED] == 0
    ensures Threaded(m', base, Unmark(bs, i)) && Payloads(m', Unmark(bs, i)) == Payloads(m, bs) - {bs[i]}
  {
    var b := bs[i].(used := false);
    assert HeaderAt(m, base, bs, i, 0);
    FlagUpdate(m, m', bs[i], Link(base, bs, i + 1, 0));
    assert HeaderAt(m', base, [b], 0, Link(base, bs, i + 1, 0));
    UnmarkRemovesOneLiveBlock(bs, 0, |m|, i);
    SpliceLayout(m, m', base, bs, i, i + 1, [b]);
    SplicePayloads(m, m', bs, i, i + 1, [b]);
  }

  // Distinct live blocks share no byte.
  lemma LiveBlocksAreDisjoint(bs: seq<Block>, n: nat, b: Block, c: Block)
    requires Tiles(bs, 0, n) && b in bs && c in bs && b != c
    ensures b.End() <= c.off || c.End() <= b.off
  {
    var j, k :| 0 <= j < |bs| && 0 <= k < |bs| && bs[j] == b && bs[k] == c;
    if j < k { Ordered(bs, 0, n, j, k); } else { Ordered(bs, 0, n, k, j); }
  }

  lemma DisjointPayloads(m: seq<uint8>, base: nat, bs: seq<Block>, live: map<Block, seq<uint8>>, b: Block, c: Block)
    requires Consistent(m, base, bs, live) && b in live && c in live && b != c
    ensures b.End() <= c.off || c.End() <= b.off
  {
    LiveBlocksAreDisjoint(bs, |m|, b, c);
  }

  lemma LiveBlockBounds(m: seq<uint8>, base: nat, bs: seq<Block>, live: map<Block, seq<uint8>>, b: Block)
    requires Consistent(m, base, bs, live) && b in live
    ensures b.End() <= |m| && live[b] == m[b.off + HDR..b.End()]
  {
  }

  // A caller writing inside its own payload damages no header and no other
  // payload.
  lemma PayloadWrite(m: seq<uint8>, m': seq<uint8>, base: nat, bs: seq<Block>, b: Block)
    requires Threaded(m, base, bs) && b in Used(bs)
    requires SameOutside(m, m', b.off + HDR, b.End())
    ensures Threaded(m', base, bs)
    ensures b in Payloads(m', bs) && Payloads(m', bs) == Payloads(m, bs)[b := Payloads(m', bs)[b]]
  {
    var i :| 0 <= i < |bs| && bs[i] == b;
    Bounds(bs, 0, |m|, i);
    forall k: nat | k < |bs| ensures HeaderAt(m', base, bs, k, 0) {
      assert HeaderAt(m, base, bs, k, 0);
      if k < i { Ordered(bs, 0, |m|, k, i); } else if i < k { Ordered(bs, 0, |m|, i, k); }
      HeaderFrame(m, m', b.off + HDR, b.End(), bs[k], Link(base, bs, k + 1, 0));
    }
    forall c | c in Payloads(m, bs) && c != b ensures Payloads(m', bs)[c] == Payloads(m, bs)[c] {
      LiveBlocksAreDisjoint(bs, |m|, b, c);
    }
  }

  lemma CallerWrite(m: seq<uint8>, m': seq<uint8>, base: nat, bs: seq<Block>, live: map<Block, seq<uint8>>, b: Block)
    requires Consistent(m, base, bs, live) && b in live
    requires SameOutside(m, m', b.off + HDR, b.End())
    ensures b.End() <= |m| && live[b] == m[b.off + HDR..b.End()]
    ensures Consistent(m', base, bs, live[b := m'[b.off + HDR..b.End()]])
  {
    PayloadWrite(m, m', base, bs, b);
  }

  // A store into the pool, seen in the payload it falls in.
  lemma PayloadWord(m: seq<uint8>, m': seq<uint8>, b: Block, i: nat)
    requires b.End() <= |m| && i + 4 <= b.size
    requires SameOutside(m, m', b.off + HDR + i, b.off + HDR + i + 4)
    ensures SameOutside(m[b.off + HDR..b.End()], m'[b.off + HDR..b.End()], i, i + 4)
    ensures Load32(m'[b.off + HDR..b.End()], i) == Load32(m', b.off + HDR + i)
  {
  }

  lemma CopiedPrefix(m: seq<uint8>, m': seq<uint8>, b: Block, c: Block)
    requires b.End() <= |m| && c.End() <= |m'| && b.size <= c.size
    requires m'[c.off + HDR..c.off + HDR + b.size] == m[b.off + HDR..b.End()]
    ensures m[b.off + HDR..b.End()] <= m'[c.off + HDR..c.End()]
  {
    assert m'[c.off + HDR..c.End()][..b.size] == m'[c.off + HDR..c.off + HDR + b.size];
  }

  lemma PayloadKeys(m: seq<uint8>, base: nat, bs: seq<Block>)
    requires Threaded(m, base, bs)
    ensures Payloads(m, bs).Keys == Used(bs)
  {
    forall b | b in Used(bs) ensures b.End() <= |m| {
      var k :| 0 <= k < |bs| && bs[k] == b;
      Bounds(bs, 0, |m|, k);
    }
  }
}

module HeapMemory {
  import opened Words
  import opened Memory
  import opened Blocks
  import opened Layouts

  const SIZE_MAX := WORD - 1

  // MM_HALOW_BLOCK_ROUND, wrap-around included.
  function Round(n: word): word {
    Wrap(n + (ALIGN - 1)) / ALIGN * ALIGN
  }

  // The size guard of malloc is what keeps rounding from wrapping.
  lemma RoundIsExactUnlessItWraps(n: word)
    ensures n <= Round(n) <==> n <= WORD - ALIGN
    ensures n <= WORD - ALIGN ==> Round(n) % ALIGN == 0 && n <= Round(n) < n + ALIGN
    ensures n > WORD - ALIGN ==> Round(n) == 0
  {
  }

  lemma RoundedAlready(n: word)
    requires n % ALIGN == 0
    ensures Round(n) == n
  {
  }

  // The three stores that make a header.
  method WriteHeader(mem: Memory, off: nat, next: word, size: word, used: bool)
    requires mem.Valid() && off + HDR <= |mem.bytes|
    modifies mem, mem.data
    ensures mem.Valid() && Header(mem.bytes, Block(off, size, used), next)
    ensures SameOutside(old(mem.bytes), mem.bytes, off, off + HDR)
  {
    ghost var m0 := mem.bytes;
    mem.Set32(off + NEXT, next);
    ghost var m1 := mem.bytes;
    mem.Set32(off + SIZE, size);
    ghost var m2 := mem.bytes;
    mem.Set(off + USED, if used then 1 else 0);
    HeaderStores(m0, m1, m2, mem.bytes, Block(off, size, used), next);
  }

  // Cut the end off free block b, leaving it size bytes.
  method Split(mem: Memory, base: nat, size: word, ghost b: Block, off: nat, ghost next: word)
    requires mem.Valid() && |mem.bytes| < HALF && base + |mem.bytes| <= WORD
    requires off == b.off && b.End() <= |mem.bytes| && size + HDR + ALIGN <= b.size
    requires Header(mem.bytes, b, next) && !b.used
    modifies mem, mem.data
    ensures mem.Valid()
    ensures Header(mem.bytes, Block(b.off, size, false), base + b.off + HDR + size)
    ensures Header(mem.bytes, Block(b.off + HDR + size, b.size - size - HDR, false), next)
    ensures SameOutside(old(mem.bytes), mem.bytes, b.off, b.End())
  {
    var split := off + HDR + size;
    ghost var rest := Block(b.off + HDR + size, b.size - size - HDR, false);
    ghost var m0 := mem.bytes;
    WriteHeader(mem, split, mem.Get32(off + NEXT), mem.Get32(off + SIZE) - size - HDR, false);
    ghost var m3 := mem.bytes;
    mem.Set32(off + NEXT, base + split);
    ghost var m4 := mem.bytes;
    mem.Set32(off + SIZE, size);
    SplitStores(m0, m3, m4, mem.bytes, b, rest, next, base + split, size);
  }

  method MarkUsed(mem: Memory, off: nat, ghost b: Block, ghost next: word)
    requires mem.Valid() && off == b.off && Header(mem.bytes, b, next)
    modifies mem, mem.data
    ensures mem.Valid() && Header(mem.bytes, b.(used := true), next)
    ensures SameOutside(old(mem.bytes), mem.bytes, b.off, b.off + HDR)
  {
    ghost var m := mem.bytes;
    mem.Set(off + USED, 1);
    FlagUpdate(m, mem.bytes, b, next);
  }

  // Mark free block b used, splitting it first if the rest is worth keeping.
  method Cut(mem: Memory, base: nat, size: word, ghost b: Block, off: nat, ghost next: word)
    requires mem.Valid() && |mem.bytes| < HALF && base + |mem.bytes| <= WORD
    requires off == b.off && b.End() <= |mem.bytes| && size <= b.size
    requires Header(mem.bytes, b, next) && !b.used
    modifies mem, mem.data
    ensures mem.Valid()
    ensures Layout(mem.bytes, base, Carve(b, size), next)
    ensures SameOutside(old(mem.bytes), mem.bytes, b.off, b.End())
  {
    hide Header, SameOutside, Load32;
    ghost var m0 := mem.bytes;
    if SizeOf(mem, off, b, next) >= size + HDR + ALIGN {
      Split(mem, base, size, b, off, next);
      ghost var m, rest := mem.bytes, Block(b.off + HDR + size, b.size - size - HDR, false);
      MarkUsed(mem, off, Block(b.off, size, false), base + b.off + HDR + size);
      HeaderFrame(m, mem.bytes, off, off + HDR, rest, next);
      OutsideBoth(m0, m, mem.bytes, b.off, b.off + HDR, b.End());
    } else {
      MarkUsed(mem, off, b, next);
      NothingWritten(m0, b.off, b.End());
      OutsideBoth(m0, m0, mem.bytes, b.off, b.off + HDR, b.End());
    }
    CarvedHeaders(mem.bytes, base, b, size, next);
  }

  function SizeOf(mem: Memory, off: nat, ghost b: Block, ghost next: word): (size: word)
    requires mem.Valid() && off == b.off && Header(mem.bytes, b, next)
    reads mem, mem.data
    ensures size == b.size
  {
    mem.Get32(off + SIZE)
  }

  lemma NothingWritten(m: seq<uint8>, lo: nat, hi: nat)
    ensures SameOutside(m, m, lo, hi)
  {
  }

  lemma OutsideBoth(m0: seq<uint8>, m1: seq<uint8>, m2: seq<uint8>, lo: nat, mid: nat, hi: nat)
    requires lo <= mid <= hi && SameOutside(m0, m1, lo, hi) && SameOutside(m1, m2, lo, mid)
    ensures SameOutside(m0, m2, lo, hi)
  {
  }

  // Let free block b, at off, swallow its successor c.
  method Join(mem: Memory, off: nat, nextOff: nat, ghost b: Block, ghost c: Block, ghost after: word)
    requires mem.Valid() && |mem.bytes| < HALF && b.End() == c.off && c.End() <= |mem.bytes|
    requires off == b.off && nextOff == c.off && !b.used
    requires Load32(mem.bytes, off + SIZE) == b.size && mem.bytes[off + USED] == 0 && Header(mem.bytes, c, after)
    modifies mem, mem.data
    ensures mem.Valid()
    ensures Header(mem.bytes, Joined(b, c), after)
    ensures SameOutside(old(mem.bytes), mem.bytes, b.off, b.off + HDR)
  {
    mem.Set32(off + SIZE, mem.Get32(off + SIZE) + HDR + mem.Get32(nextOff + SIZE));
    mem.Set32(off + NEXT, mem.Get32(nextOff + NEXT));
  }

  // The body of the coalescing loop, at block i.
  method CoalesceStep(mem: Memory, base: nat, cur: nat, next: nat, ghost bs: seq<Block>, ghost i: nat)
    returns (cur': nat, ghost bs': seq<Block>, ghost i': nat)
    requires mem.Valid() && Threaded(mem.bytes, base, bs) && i + 1 < |bs|
    requires cur == base + bs[i].off && next == base + bs[i + 1].off
    modifies mem, mem.data
    ensures mem.Valid() && Threaded(mem.bytes, base, bs') && i' < |bs'| && cur' == base + bs'[i'].off
    ensures |bs'| - i' < |bs| - i
    ensures bs'[..i'] + Merge(bs'[i'..]) == bs[..i] + Merge(bs[i..])
    ensures Payloads(mem.bytes, bs') == old(Payloads(mem.bytes, bs))
  {
    ghost var m := mem.bytes;
    Neighbours(m, base, bs, i);
    if mem.Get(cur - base + USED) == 0 && mem.Get(next - base + USED) == 0 {
      Join(mem, cur - base, next - base, bs[i], bs[i + 1], Link(base, bs, i + 2, 0));
      JoinStep(m, mem.bytes, base, bs, i);
      JoinedBlocks(bs, |m|, i);
      return cur, JoinAt(bs, i), i;
    } else {
      SkipStep(bs, i);
      return next, bs, i + 1;
    }
  }

  // The coalescing walk of free, over the whole list.
  method Coalesce(mem: Memory, base: nat, head: nat, ghost marked: seq<Block>) returns (ghost bs: seq<Block>)
    requires mem.Valid() && Threaded(mem.bytes, base, marked) && head == base
    modifies mem, mem.data
    ensures mem.Valid() && Threaded(mem.bytes, base, bs)
    ensures bs == Merge(marked) && Payloads(mem.bytes, bs) == old(Payloads(mem.bytes, marked))
  {
    bs := marked;
    ghost var i: nat := 0;
    Neighbours(mem.bytes, base, bs, i);
    var cur, next := head, mem.Get32(head - base + NEXT);
    while cur != 0 && next != 0
      invariant mem.Valid() && Threaded(mem.bytes, base, bs)
      invariant i < |bs| && cur == base + bs[i].off && next == Link(base, bs, i + 1, 0)
      invariant bs[..i] + Merge(bs[i..]) == Merge(marked)
      invariant Payloads(mem.bytes, bs) == old(Payloads(mem.bytes, marked))
      decreases |bs| - i
    {
      cur, bs, i := CoalesceStep(mem, base, cur, next, bs, i);
      Neighbours(mem.bytes, base, bs, i);
      next := mem.Get32(cur - base + NEXT);
    }
  }

  // The product of calloc, and the test that it is one.
  method Product(nitems: word, size: word) returns (fits: bool, total: word)
    ensures fits <==> nitems * size <= SIZE_MAX
    ensures fits ==> total == nitems * size
  {
    if nitems != 0 {
      DivisionTest(SIZE_MAX, size, nitems);
      if size > SIZE_MAX / nitems {
        return false, 0;
      }
    }
    return true, Wrap(nitems * size);
  }

  lemma InsertThenRemove<K, V>(m: map<K, V>, c: K, v: V, b: K)
    requires b != c
    ensures m[c := v] - {b} == (m - {b})[c := v]
  {
  }

  class Heap {
    const poolSize: nat              // MM_HALOW_HEAP_SIZE
    var mem: Memory?                 // mm_halow_heap_mem; null before init and after deinit
    var base: nat                    // the address of its first byte
    var head: nat                    // mm_halow_heap_head, 0 for NULL
    ghost var blocks: seq<Block>     // the list threaded through mem
    ghost var live: map<Block, seq<uint8>>  // each live allocation with the bytes it holds

    ghost predicate Valid()
      reads this, mem, if mem == null then {} else {mem.data}
    {
      && HDR <= poolSize < HALF
      && (mem == null ==> head == 0 && blocks == [] && live == map[])
      && (mem != null ==>
           && mem.Valid() && |mem.bytes| == poolSize
           && head == base && 0 < base && base + poolSize <= WORD
           && live.Keys == Used(blocks)
           && Consistent(mem.bytes, base, blocks, live))
    }

    // p is the address handed out for live block b.
    ghost predicate Points(p: nat, b: Block)
      reads this
    {
      b in Used(blocks) && p == base + b.off + HDR
    }

    constructor (poolSize: nat)
      requires HDR <= poolSize < HALF
      ensures Valid() && mem == null && this.poolSize == poolSize
    {
      this.poolSize := poolSize;
      mem, base, head, blocks, live := null, 0, 0, [], map[];
    }

    // -- Init and deinit -------------------------------------------------------

    // pool is what mm_halow_port_heap_alloc() returned, at address addr.
    method Init(pool: Memory?, addr: nat) returns (ok: bool)
      requires Valid()
      requires pool != null ==> pool.Valid() && |pool.bytes| == poolSize
      requires 0 < addr && addr % ALIGN == 0 && addr + poolSize <= WORD
      modifies this, pool, if pool == null then {} else {pool.data}
      ensures Valid()
      ensures ok <==> old(mem) != null || pool != null
      ensures ok && old(mem) == null ==>
                mem == pool && base == addr && blocks == [Block(0, poolSize - HDR, false)]
      ensures !(ok && old(mem) == null) ==> mem == old(mem) && blocks == old(blocks) && live == old(live)
    {
      if mem != null {
        return true;
      }
      if pool == null {
        return false;
      }
      mem, base, head := pool, addr, addr;
      WriteHeader(mem, 0, 0, poolSize - HDR, false);
      blocks, live := [Block(0, poolSize - HDR, false)], map[];
      assert HeaderAt(mem.bytes, base, blocks, 0, 0);
      return true;
    }

    method Deinit()
      requires Valid()
      modifies this
      ensures Valid() && mem == null && live == map[]
    {
      mem, head, blocks, live := null, 0, [], map[];
    }

    // -- malloc ----------------------------------------------------------------

    method Malloc(size: word) returns (p: word, ghost b: Block)
      requires Valid()
      modifies this`blocks, this`live, mem, if mem == null then {} else {mem.data}
      ensures Valid()
      // Null exactly when there is no pool, the size is out of range, or no
      // stretch of the pool free of live bytes could hold header and payload.
      ensures p == 0 <==> mem == null || size == 0 || size > poolSize || NoRoom(old(blocks), poolSize, Round(size))
      ensures p == 0 ==> blocks == old(blocks) && live == old(live)
      // Otherwise one new allocation, at the lowest address that fits, big
      // enough, aligned, and nothing live has moved or changed.
      ensures p != 0 ==>
        && Points(p, b) && p % ALIGN == 0
        && size <= b.size < Round(size) + HDR + ALIGN
        && LowestFit(old(blocks), poolSize, b.off, Round(size))
        && b !in old(live) && live == old(live)[b := live[b]]
        && blocks == AfterMalloc(old(blocks), Round(size))
    {
      hide Consistent, LowestFit, NoRoom, AfterMalloc, Canonical, Used;
      if size == 0 {
        return 0, Block(0, 0, false);
      }
      if size > poolSize {
        return 0, Block(0, 0, false);
      }
      RoundIsExactUnlessItWraps(size);
      var size := Round(size);
      if head == 0 {
        return 0, Block(0, 0, false);
      }
      p, b := Place(size);
    }

    // The loop of malloc, for a size already rounded.
    method Place(size: word) returns (p: word, ghost b: Block)
      requires Valid() && mem != null && 0 < size && size % ALIGN == 0
      modifies this`blocks, this`live, mem, mem.data
      ensures Valid()
      ensures p == 0 <==> NoRoom(old(blocks), poolSize, size)
      ensures p == 0 ==> blocks == old(blocks) && live == old(live)
      ensures p != 0 ==>
        && Points(p, b) && p % ALIGN == 0 && size <= b.size < size + HDR + ALIGN
        && LowestFit(old(blocks), poolSize, b.off, size)
        && b !in old(live) && live == old(live)[b := live[b]]
        && blocks == AfterMalloc(old(blocks), size)
    {
      hide Consistent, NoRoom, LowestFit, Used;
      FitFound(mem.bytes, base, blocks, live, size);
      var cur := Search(size);
      if cur == 0 {
        return 0, Block(0, 0, false);
      }
      b := Take(cur, size, FirstFit(blocks, size));
      return cur + HDR, b;
    }

    // The walk of malloc's loop, down to the block it breaks at.
    method Search(size: word) returns (cur: nat)
      requires Valid() && mem != null
      ensures cur == Link(base, blocks, FirstFit(blocks, size), 0)
    {
      cur := head;
      ghost var i: nat := 0;
      while cur != 0
        invariant i <= FirstFit(blocks, size) && cur == Link(base, blocks, i, 0)
        decreases |blocks| - i
      {
        Bounds(blocks, 0, poolSize, i);
        assert HeaderAt(mem.bytes, base, blocks, i, 0);
        if mem.Get(cur - base + USED) != 0 || mem.Get32(cur - base + SIZE) < size {
          cur := mem.Get32(cur - base + NEXT);
          i := i + 1;
          continue;
        }
        return;
      }
    }

    // The rest of its body: split block i if worthwhile, and hand it out.
    method Take(cur: nat, size: word, ghost i: nat) returns (ghost b: Block)
      requires Valid() && mem != null && i < |blocks| && cur == base + blocks[i].off
      requires !blocks[i].used && 0 < size <= blocks[i].size && size % ALIGN == 0
      modifies mem, mem.data
      modifies this`blocks, this`live
      ensures Valid()
      ensures blocks == AllocAt(old(blocks), i, size) && i < |blocks| && blocks[i] == b
      ensures b.used && b.off == old(blocks)[i].off && size <= b.size < size + HDR + ALIGN
      ensures b !in old(live) && b in live && live == old(live)[b := live[b]]
    {
      ghost var m, bs := mem.bytes, blocks;
      Bounds(bs, 0, poolSize, i);
      assert HeaderAt(m, base, bs, i, 0);
      Cut(mem, base, size, bs[i], cur - base, Link(base, bs, i + 1, 0));
      Carved(m, mem.bytes, base, bs, i, size);
      blocks := AllocAt(bs, i, size);
      live := Payloads(mem.bytes, blocks);
      PayloadKeys(mem.bytes, base, blocks);
      b := blocks[i];
    }

    // -- free ------------------------------------------------------------------

    method Free(p: nat, ghost b: Block)
      requires Valid()
      requires p == 0 || mem == null || Points(p, b)
      modifies this`blocks, this`live, mem, if mem == null then {} else {mem.data}
      ensures Valid()
      ensures p == 0 || mem == null ==> blocks == old(blocks) && live == old(live)
      ensures p != 0 && mem != null ==>
        && blocks == FreeAt(old(blocks), IndexOf(old(blocks), b))
        && live == old(live) - {b}
    {
      if p == 0 || head == 0 {
        return;
      }
      ghost var m, i := mem.bytes, IndexOf(blocks, b);
      Bounds(blocks, 0, poolSize, i);
      FreeRemovesOneLiveBlock(blocks, poolSize, i);
      mem.Set(p - HDR - base + USED, 0);
      MarkStep(m, mem.bytes, base, blocks, i);
      blocks := Coalesce(mem, base, head, Unmark(blocks, i));
      live := Payloads(mem.bytes, blocks);
      PayloadKeys(mem.bytes, base, blocks);
    }

    // -- What callers do with their memory -------------------------------------

    method Write(p: nat, i: nat, v: uint8, ghost b: Block)
      requires Valid() && mem != null && Points(p, b) && i < b.size
      modifies this`live, mem, mem.data
      ensures Valid()
      ensures b in old(live) && |old(live)[b]| == b.size && live == old(live)[b := old(live)[b][i := v]]
    {
      hide Consistent;
      ghost var m := mem.bytes;
      LiveBlockBounds(m, base, blocks, live, b);
      mem.Set(p - base + i, v);
      CallerWrite(m, mem.bytes, base, blocks, live, b);
      live := live[b := mem.bytes[b.off + HDR..b.End()]];
    }

    // The same for an aligned 32-bit word.
    method Write32(p: nat, i: nat, v: word, ghost b: Block)
      requires Valid() && mem != null && Points(p, b) && 4 * i + 4 <= b.size
      modifies this`live, mem, mem.data
      ensures Valid() && b in old(live) && b in live && live == old(live)[b := live[b]] && |live[b]| == b.size
      ensures SameOutside(old(live)[b], live[b], 4 * i, 4 * i + 4) && Load32(live[b], 4 * i) == v
    {
      hide Consistent;
      ghost var m := mem.bytes;
      LiveBlockBounds(m, base, blocks, live, b);
      mem.Set32(p - base + 4 * i, v);
      CallerWrite(m, mem.bytes, base, blocks, live, b);
      live := live[b := mem.bytes[b.off + HDR..b.End()]];
      PayloadWord(m, mem.bytes, b, 4 * i);
    }

    method Read32(p: nat, i: nat, ghost b: Block) returns (v: word)
      requires Valid() && mem != null && Points(p, b) && 4 * i + 4 <= b.size
      ensures b in live && |live[b]| == b.size && v == Load32(live[b], 4 * i)
    {
      hide Consistent;
      LiveBlockBounds(mem.bytes, base, blocks, live, b);
      v := mem.Get32(p - base + 4 * i);
    }

    // -- calloc and realloc ----------------------------------------------------

    method Calloc(nitems: word, size: word) returns (p: word, ghost b: Block)
      requires Valid()
      modifies this`blocks, this`live, mem, if mem == null then {} else {mem.data}
      ensures Valid()
      // Fails when the product does not fit in a size_t, or malloc would.
      ensures p == 0 <==>
        var total := nitems * size;
        || total > SIZE_MAX || mem == null || total == 0 || total > poolSize
        || NoRoom(old(blocks), poolSize, Round(total))
      ensures p == 0 ==> blocks == old(blocks) && live == old(live)
      ensures p != 0 ==>
        var total := nitems * size;
        && Points(p, b) && b !in old(live) && b in live && live == old(live)[b := live[b]]
        && total <= |live[b]| && forall i | 0 <= i < total :: live[b][i] == 0
    {
      hide NoRoom, LowestFit, Round;
      hide Heap.Valid, Heap.Points;
      var fits, total := Product(nitems, size);
      if !fits {
        return 0, Block(0, 0, false);
      }
      p, b := ZeroedMalloc(total);
    }

    method ZeroedMalloc(total: word) returns (p: word, ghost b: Block)
      requires Valid()
      modifies this`blocks, this`live, mem, if mem == null then {} else {mem.data}
      ensures Valid()
      ensures p == 0 <==>
        || mem == null || total == 0 || total > poolSize
        || NoRoom(old(blocks), poolSize, Round(total))
      ensures p == 0 ==> blocks == old(blocks) && live == old(live)
      ensures p != 0 ==>
        && Points(p, b) && b !in old(live) && b in live && live == old(live)[b := live[b]]
        && total <= |live[b]| && forall i | 0 <= i < total :: live[b][i] == 0
    {
      hide Consistent, NoRoom, LowestFit, AfterMalloc;
      p, b := Malloc(total);
      if p != 0 {
        Zero(p, total, b);
      }
    }

    method Zero(p: nat, n: nat, ghost b: Block)
      requires Valid() && mem != null && Points(p, b) && n <= b.size
      modifies this`live, mem, mem.data
      ensures Valid() && b in live && b in old(live) && live == old(live)[b := live[b]]
      ensures n <= |live[b]| && forall i | 0 <= i < n :: live[b][i] == 0
    {
      hide Consistent;
      ghost var m := mem.bytes;
      LiveBlockBounds(m, base, blocks, live, b);
      mem.Fill(p - base, n, 0);
      CallerWrite(m, mem.bytes, base, blocks, live, b);
      live := live[b := mem.bytes[b.off + HDR..b.End()]];
    }

    method Realloc(p: nat, size: word, ghost b: Block) returns (q: nat, ghost c: Block)
      requires Valid()
      requires p == 0 || (mem != null && Points(p, b))
      modifies this`blocks, this`live, mem, if mem == null then {} else {mem.data}
      ensures Valid()
      ensures p != 0 && size == 0 ==> q == 0 && live == old(live) - {b}
      ensures p != 0 && 0 < size <= b.size ==> q == p && c == b && blocks == old(blocks) && live == old(live)
      // Growing keeps every byte of the old block, or fails and keeps the block.
      ensures p != 0 && b.size < size ==>
        (q == 0 <==> size > poolSize || NoRoom(old(blocks), poolSize, Round(size)))
      ensures p != 0 && b.size < size && q == 0 ==> blocks == old(blocks) && live == old(live)
      ensures p != 0 && b.size < size && q != 0 ==>
        && Points(q, c) && c !in old(live) && size <= c.size
        && c in live && live == (old(live) - {b})[c := live[c]]
        && b in old(live) && old(live)[b] <= live[c]
      ensures p == 0 ==>
        (q == 0 <==> mem == null || size == 0 || size > poolSize || NoRoom(old(blocks), poolSize, Round(size)))
      ensures p == 0 && q == 0 ==> blocks == old(blocks) && live == old(live)
      ensures p == 0 && q != 0 ==>
        && Points(q, c) && c !in old(live) && size <= c.size
        && c in live && live == old(live)[c := live[c]]
    {
      hide NoRoom, LowestFit, AfterMalloc;
      c := b;
      if p == 0 {
        q, c := Malloc(size);
        return;
      }
      if size == 0 {
        Free(p, b);
        return 0, c;
      }
      Neighbours(mem.bytes, base, blocks, IndexOf(blocks, b));
      var oldSize := mem.Get32(p - HDR - base + SIZE);
      if oldSize >= size {
        return p, c;
      }
      q, c := Grow(p, oldSize, size, b);
    }

    // The last lines of realloc: a bigger block, a copy, and the old one freed.
    method Grow(p: nat, oldSize: nat, size: word, ghost b: Block) returns (q: nat, ghost c: Block)
      requires Valid() && mem != null && Points(p, b) && oldSize == b.size < size
      modifies this`blocks, this`live, mem, mem.data
      ensures Valid() && b in old(live)
      ensures q == 0 <==> size > poolSize || NoRoom(old(blocks), poolSize, Round(size))
      ensures q == 0 ==> blocks == old(blocks) && live == old(live)
      ensures q != 0 ==>
        && Points(q, c) && c !in old(live) && size <= c.size
        && c in live && live == (old(live) - {b})[c := live[c]] && old(live)[b] <= live[c]
    {
      hide Consistent, NoRoom, LowestFit, AfterMalloc, FreeAt, IndexOf, Used;
      ghost var before := live;
      q, c := Malloc(size);
      if q != 0 {
        assert b in before && c !in before;
        Move(q, p, oldSize, b, c);
        assert live == before[c := live[c]];
        ghost var bytes := live[c];
        Free(p, b);
        InsertThenRemove(before, c, bytes, b);
      }
    }

    // memcpy between two live payloads.
    method Move(dst: nat, src: nat, n: nat, ghost b: Block, ghost c: Block)
      requires Valid() && mem != null && Points(src, b) && Points(dst, c) && b != c
      requires n == b.size <= c.size
      modifies this`live, mem, mem.data
      ensures Valid() && b in old(live) && c in live && c in old(live)
      ensures live == old(live)[c := live[c]] && old(live)[b] <= live[c]
    {
      hide Consistent;
      ghost var m := mem.bytes;
      LiveBlockBounds(m, base, blocks, live, b);
      LiveBlockBounds(m, base, blocks, live, c);
      DisjointPayloads(m, base, blocks, live, b, c);
      mem.Copy(dst - base, src - base, n);
      CallerWrite(m, mem.bytes, base, blocks, live, c);
      CopiedPrefix(m, mem.bytes, b, c);
      live := live[c := mem.bytes[c.off + HDR..c.End()]];
    }
  }
}
