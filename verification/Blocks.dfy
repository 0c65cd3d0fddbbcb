// The block list of the private first-fit heap, as a value: the reference
// against which the in-place list of Heap.dfy is proved.
module Blocks {
  import opened Lists

  const HDR: nat := 16    // sizeof(mm_halow_block_t) on the 32-bit target, rounded up
  const ALIGN: nat := 8

  datatype Block = Block(off: nat, size: nat, used: bool) {
    function End(): nat {
      off + HDR + size
    }
  }

  // -- Well-formed lists -------------------------------------------------------

  // The blocks cover [lo, hi) exactly, in address order.
  ghost predicate Tiles(bs: seq<Block>, lo: nat, hi: nat) {
    && bs != []
    && bs[0].off == lo
    && bs[|bs| - 1].End() == hi
    && forall i: nat | i + 1 < |bs| :: Abut(bs, i)
  }

  ghost predicate Abut(bs: seq<Block>, i: nat)
    requires i + 1 < |bs|
  {
    bs[i].End() == bs[i + 1].off
  }

  // No two neighbours are both free.
  ghost predicate Coalesced(bs: seq<Block>) {
    forall i: nat | i + 1 < |bs| :: Separate(bs, i)
  }

  ghost predicate Separate(bs: seq<Block>, i: nat)
    requires i + 1 < |bs|
  {
    bs[i].used || bs[i + 1].used
  }

  ghost predicate Aligned(bs: seq<Block>) {
    forall i | 0 <= i < |bs| :: bs[i].off % ALIGN == 0
  }

  ghost predicate Canonical(bs: seq<Block>, n: nat) {
    Tiles(bs, 0, n) && Coalesced(bs) && Aligned(bs)
  }

  // The allocations a block list stands for.
  function Used(bs: seq<Block>): set<Block> {
    set b | b in bs && b.used
  }

  lemma {:induction false} Ordered(bs: seq<Block>, lo: nat, hi: nat, i: nat, j: nat)
    requires Tiles(bs, lo, hi) && i < j < |bs|
    ensures bs[i].End() <= bs[j].off
    decreases j - i
  {
    if i + 1 < j {
      Ordered(bs, lo, hi, i, j - 1);
      assert Abut(bs, j - 1);
    } else {
      assert Abut(bs, i);
    }
  }

  lemma Bounds(bs: seq<Block>, lo: nat, hi: nat, i: nat)
    requires Tiles(bs, lo, hi) && i < |bs|
    ensures lo <= bs[i].off && bs[i].End() <= hi
  {
    if 0 < i { Ordered(bs, lo, hi, 0, i); }
    if i < |bs| - 1 { Ordered(bs, lo, hi, i, |bs| - 1); }
  }

  lemma OccursOnce(bs: seq<Block>, lo: nat, hi: nat, i: nat)
    requires Tiles(bs, lo, hi) && i < |bs|
    ensures bs[i] !in bs[..i] + bs[i + 1..]
  {
    forall k | 0 <= k < |bs| && k != i ensures bs[k] != bs[i] {
      if k < i { Ordered(bs, lo, hi, k, i); } else { Ordered(bs, lo, hi, i, k); }
    }
  }

  lemma OnlyBlockEndsThePool(bs: seq<Block>, lo: nat, hi: nat)
    requires Tiles(bs, lo, hi)
    ensures |bs| == 1 <==> bs[0].End() == hi
  {
    if 1 < |bs| { Ordered(bs, lo, hi, 0, |bs| - 1); }
  }

  lemma TailTiles(bs: seq<Block>, lo: nat, hi: nat)
    requires Tiles(bs, lo, hi) && 1 < |bs|
    ensures Tiles(bs[1..], bs[0].End(), hi)
    ensures Used(bs[1..]) == Used(bs) - {bs[0]}
    ensures Coalesced(bs) ==> Coalesced(bs[1..])
  {
    forall i: nat | i + 1 < |bs[1..]| && Coalesced(bs) ensures Separate(bs[1..], i) {
      assert Separate(bs, i + 1);
    }
    forall i: nat | i + 1 < |bs[1..]| ensures Abut(bs[1..], i) {
      assert Abut(bs, i + 1);
    }
    assert Abut(bs, 0);
    forall b | b in bs[1..] ensures b != bs[0] {
      var j :| 0 <= j < |bs[1..]| && bs[1..][j] == b;
      Ordered(bs, lo, hi, 0, j + 1);
    }
    assert bs == [bs[0]] + bs[1..];
  }

  // Replacing blocks i..j by a tiling of the same stretch.
  lemma SpliceTiles(bs: seq<Block>, lo: nat, hi: nat, i: nat, j: nat, mid: seq<Block>)
    requires Tiles(bs, lo, hi) && Aligned(bs) && i < j <= |bs|
    requires Tiles(mid, bs[i].off, bs[j - 1].End()) && Aligned(mid)
    ensures Tiles(bs[..i] + mid + bs[j..], lo, hi) && Aligned(bs[..i] + mid + bs[j..])
  {
    var cs := bs[..i] + mid + bs[j..];
    var d := i + |mid|;
    forall k | 0 <= k < |cs| ensures cs[k].off % ALIGN == 0 {
      if d <= k { assert cs[k] == bs[k - d + j]; }
    }
    forall k: nat | k + 1 < |cs| ensures Abut(cs, k) {
      if k < i {
        assert Abut(bs, k);
      } else if k < d - 1 {
        assert Abut(mid, k - i);
      } else {
        assert Abut(bs, k - d + j);
      }
    }
  }

  // -- Canonicity --------------------------------------------------------------

  // With no two adjacent free blocks, the whole list -- free blocks included --
  // is determined by the set of live blocks.
  lemma {:induction false} ListIsDeterminedByLiveBlocks(xs: seq<Block>, ys: seq<Block>, lo: nat, hi: nat)
    requires Tiles(xs, lo, hi) && Tiles(ys, lo, hi)
    requires Coalesced(xs) && Coalesced(ys)
    requires Used(xs) == Used(ys)
    ensures xs == ys
    decreases |xs|
  {
    SameFirstBlock(xs, ys, lo, hi);
    OnlyBlockEndsThePool(xs, lo, hi);
    OnlyBlockEndsThePool(ys, lo, hi);
    if 1 < |xs| {
      TailTiles(xs, lo, hi);
      TailTiles(ys, lo, hi);
      ListIsDeterminedByLiveBlocks(xs[1..], ys[1..], xs[0].End(), hi);
      assert xs == [xs[0]] + xs[1..] && ys == [ys[0]] + ys[1..];
    }
  }

  lemma SameFirstBlock(xs: seq<Block>, ys: seq<Block>, lo: nat, hi: nat)
    requires Tiles(xs, lo, hi) && Tiles(ys, lo, hi)
    requires Coalesced(xs) && Coalesced(ys)
    requires Used(xs) == Used(ys)
    ensures xs[0] == ys[0]
  {
    if xs[0].used {
      var _ := FindOff(ys, lo, hi, xs[0]);
    } else if ys[0].used {
      var _ := FindOff(xs, lo, hi, ys[0]);
    } else {
      SecondBlockNotLater(xs, ys, lo, hi);
      SecondBlockNotLater(ys, xs, lo, hi);
    }
  }

  // A live block at the front of one list is the front of the other.
  lemma FindOff(ys: seq<Block>, lo: nat, hi: nat, b: Block) returns (j: nat)
    requires Tiles(ys, lo, hi) && b in Used(ys)
    ensures j < |ys| && ys[j] == b
    ensures b.off == lo ==> j == 0
  {
    j :| 0 <= j < |ys| && ys[j] == b;
    if 0 < j { Ordered(ys, lo, hi, 0, j); }
  }

  lemma SecondBlockNotLater(xs: seq<Block>, ys: seq<Block>, lo: nat, hi: nat)
    requires Tiles(xs, lo, hi) && Tiles(ys, lo, hi)
    requires Coalesced(xs) && Used(xs) == Used(ys)
    requires !xs[0].used && !ys[0].used
    ensures ys[0].End() <= xs[0].End()
  {
    if 1 < |xs| {
      assert Separate(xs, 0) && Abut(xs, 0);
      assert xs[1] in Used(xs);
      var j := FindOff(ys, lo, hi, xs[1]);
      assert j != 0;
      Ordered(ys, lo, hi, 0, j);
    } else {
      Bounds(ys, lo, hi, 0);
    }
  }

  // -- Free --------------------------------------------------------------------

  // Two free neighbours as one.
  function Joined(b: Block, c: Block): Block {
    Block(b.off, b.size + HDR + c.size, false)
  }

  // The coalescing walk over the whole list.
  function Merge(bs: seq<Block>): seq<Block>
    decreases |bs|
  {
    if |bs| < 2 then bs
    else if !bs[0].used && !bs[1].used then
      Merge([Joined(bs[0], bs[1])] + bs[2..])
    else [bs[0]] + Merge(bs[1..])
  }

  lemma {:induction false} MergeKeepsLiveBlocks(bs: seq<Block>, lo: nat, hi: nat)
    requires Tiles(bs, lo, hi) && Aligned(bs)
    ensures Tiles(Merge(bs), lo, hi) && Aligned(Merge(bs)) && Coalesced(Merge(bs))
    ensures Used(Merge(bs)) == Used(bs)
    ensures Merge(bs)[0].used == bs[0].used
    decreases |bs|
  {
    if |bs| < 2 {
    } else if !bs[0].used && !bs[1].used {
      MergedPairTiles(bs, lo, hi);
      MergeKeepsLiveBlocks([Joined(bs[0], bs[1])] + bs[2..], lo, hi);
    } else {
      TailTiles(bs, lo, hi);
      MergeKeepsLiveBlocks(bs[1..], bs[0].End(), hi);
      KeptBlockTiles(bs[0], Merge(bs[1..]), hi);
      assert bs == [bs[0]] + bs[1..];
    }
  }

  lemma KeptBlockTiles(b: Block, m: seq<Block>, hi: nat)
    requires Tiles(m, b.End(), hi) && Aligned(m) && Coalesced(m) && b.off % ALIGN == 0 && (b.used || m[0].used)
    ensures Tiles([b] + m, b.off, hi) && Aligned([b] + m) && Coalesced([b] + m)
    ensures Used([b] + m) == Used([b]) + Used(m)
  {
    var r := [b] + m;
    forall i: nat | i + 1 < |r| ensures Abut(r, i) && Separate(r, i) {
      if 0 < i { assert Abut(m, i - 1) && Separate(m, i - 1); }
    }
  }

  lemma MergedPairTiles(bs: seq<Block>, lo: nat, hi: nat)
    requires Tiles(bs, lo, hi) && Aligned(bs) && 2 <= |bs| && !bs[0].used && !bs[1].used
    ensures var cs := [Joined(bs[0], bs[1])] + bs[2..];
            Tiles(cs, lo, hi) && Aligned(cs) && Used(cs) == Used(bs)
  {
    assert Abut(bs, 0);
    SpliceTiles(bs, lo, hi, 0, 2, [Joined(bs[0], bs[1])]);
    assert bs[..0] + [Joined(bs[0], bs[1])] + bs[2..] == [Joined(bs[0], bs[1])] + bs[2..];
    assert bs == [bs[0], bs[1]] + bs[2..];
  }

  // What free does to the list when handed the payload of block i.
  function FreeAt(bs: seq<Block>, i: nat): seq<Block>
    requires i < |bs|
  {
    Merge(Unmark(bs, i))
  }

  // The first write of free.
  function Unmark(bs: seq<Block>, i: nat): (cs: seq<Block>)
    requires i < |bs|
  {
    bs[..i] + [bs[i].(used := false)] + bs[i + 1..]
  }

  lemma UnmarkRemovesOneLiveBlock(bs: seq<Block>, lo: nat, hi: nat, i: nat)
    requires Tiles(bs, lo, hi) && Aligned(bs) && i < |bs| && bs[i].used
    ensures Tiles(Unmark(bs, i), lo, hi) && Aligned(Unmark(bs, i))
    ensures Used(Unmark(bs, i)) == Used(bs) - {bs[i]} == Used(bs[..i] + bs[i + 1..])
  {
    SpliceTiles(bs, lo, hi, i, i + 1, [bs[i].(used := false)]);
    OccursOnce(bs, lo, hi, i);
    assert bs == bs[..i] + [bs[i]] + bs[i + 1..];
  }

  lemma FreeRemovesOneLiveBlock(bs: seq<Block>, n: nat, i: nat)
    requires Canonical(bs, n) && i < |bs| && bs[i].used
    ensures Canonical(FreeAt(bs, i), n)
    ensures Used(FreeAt(bs, i)) == Used(bs) - {bs[i]}
  {
    UnmarkRemovesOneLiveBlock(bs, 0, n, i);
    MergeKeepsLiveBlocks(Unmark(bs, i), 0, n);
  }

  // -- Allocation --------------------------------------------------------------

  // The first free block of at least n bytes; |bs| when there is none.
  function FirstFit(bs: seq<Block>, n: nat): (i: nat)
    ensures i <= |bs|
    ensures forall k | 0 <= k < i :: bs[k].used || bs[k].size < n
    ensures i < |bs| ==> !bs[i].used && bs[i].size >= n
  {
    if bs == [] then 0
    else if !bs[0].used && bs[0].size >= n then 0
    else 1 + FirstFit(bs[1..], n)
  }

  // What malloc leaves in place of free block b when it takes n bytes: the rest
  // is split off when it can hold a header and something useful.
  function Carve(b: Block, n: nat): (mid: seq<Block>)
    requires n <= b.size
    ensures Tiles(mid, b.off, b.End()) && Coalesced(mid)
    ensures mid[0].used && Used(mid) == {mid[0]}
    ensures n <= mid[0].size < n + HDR + ALIGN
    ensures b.off % ALIGN == 0 && n % ALIGN == 0 ==> Aligned(mid)
  {
    if b.size >= n + HDR + ALIGN then
      [Block(b.off, n, true), Block(b.off + HDR + n, b.size - n - HDR, false)]
    else
      [b.(used := true)]
  }

  function AllocAt(bs: seq<Block>, i: nat, n: nat): seq<Block>
    requires i < |bs| && n <= bs[i].size
  {
    bs[..i] + Carve(bs[i], n) + bs[i + 1..]
  }

  // What a malloc of n bytes, already rounded, does to the list.
  function AfterMalloc(bs: seq<Block>, n: nat): seq<Block> {
    if FirstFit(bs, n) == |bs| then bs else AllocAt(bs, FirstFit(bs, n), n)
  }

  lemma CarveStaysCoalesced(bs: seq<Block>, i: nat, mid: seq<Block>)
    requires Coalesced(bs) && i < |bs| && !bs[i].used
    requires mid != [] && Coalesced(mid) && mid[0].used
    ensures Coalesced(bs[..i] + mid + bs[i + 1..])
  {
    var cs := bs[..i] + mid + bs[i + 1..];
    var d := |mid| - 1;
    forall k: nat | k + 1 < |cs| ensures Separate(cs, k) {
      if k < i {
        assert Separate(bs, k);
      } else if k < i + d {
        assert Separate(mid, k - i);
      } else {
        assert Separate(bs, k - d);
      }
    }
  }

  lemma AllocAddsOneLiveBlock(bs: seq<Block>, n: nat, i: nat, size: nat)
    requires Canonical(bs, n) && i < |bs| && !bs[i].used && size <= bs[i].size && size % ALIGN == 0
    ensures var cs := AllocAt(bs, i, size);
            && Canonical(cs, n)
            && cs[i].used && cs[i].off == bs[i].off && cs[i] !in Used(bs)
            && size <= cs[i].size < size + HDR + ALIGN
            && Used(cs) == Used(bs) + {cs[i]}
  {
    var mid := Carve(bs[i], size);
    SpliceTiles(bs, 0, n, i, i + 1, mid);
    CarveStaysCoalesced(bs, i, mid);
    assert bs == bs[..i] + [bs[i]] + bs[i + 1..];
    forall b | b in Used(bs) ensures b.off != bs[i].off {
      var k :| 0 <= k < |bs| && bs[k] == b;
      if k < i { Ordered(bs, 0, n, k, i); } else { Ordered(bs, 0, n, i, k); }
    }
    var cs := AllocAt(bs, i, size);
    assert Used(cs) == Used(bs[..i]) + Used(mid) + Used(bs[i + 1..]);
    assert Used(bs) == Used(bs[..i]) + Used(bs[i + 1..]);
  }

  // -- Completeness ------------------------------------------------------------

  // A header and size bytes at a would touch no byte of any live block, header
  // or payload.
  ghost predicate Vacant(live: set<Block>, n: nat, a: nat, size: nat) {
    a + HDR + size <= n && forall b | b in live :: a + HDR + size <= b.off || b.End() <= a
  }

  lemma {:induction false} BlockContaining(bs: seq<Block>, lo: nat, hi: nat, a: nat) returns (k: nat)
    requires Tiles(bs, lo, hi) && lo <= a < hi
    ensures k < |bs| && bs[k].off <= a < bs[k].End()
    decreases |bs|
  {
    if a < bs[0].End() {
      k := 0;
    } else {
      TailTiles(bs, lo, hi);
      var j := BlockContaining(bs[1..], bs[0].End(), hi, a);
      k := j + 1;
    }
  }

  // A vacant stretch lies inside one free block, because free neighbours have
  // been merged.
  lemma VacantLiesInOneFreeBlock(bs: seq<Block>, n: nat, a: nat, size: nat) returns (k: nat)
    requires Canonical(bs, n) && Vacant(Used(bs), n, a, size)
    ensures k < |bs| && !bs[k].used && bs[k].off <= a && a + HDR + size <= bs[k].End()
  {
    k := BlockContaining(bs, 0, n, a);
    var b := bs[k];
    assert b.used ==> b in Used(bs);
    if k < |bs| - 1 {
      assert Abut(bs, k) && Separate(bs, k);
      assert bs[k + 1].used ==> bs[k + 1] in Used(bs);
    }
  }

  ghost predicate NoRoom(bs: seq<Block>, n: nat, size: nat) {
    forall a: nat :: !Vacant(Used(bs), n, a, size)
  }

  ghost predicate LowestFit(bs: seq<Block>, n: nat, off: nat, size: nat) {
    Vacant(Used(bs), n, off, size) && forall a: nat | Vacant(Used(bs), n, a, size) :: off <= a
  }

  // First fit fails exactly when no vacant stretch of the pool could hold a
  // header and the rounded size, and otherwise takes the lowest such address.
  lemma FirstFitIsComplete(bs: seq<Block>, n: nat, size: nat)
    requires Canonical(bs, n)
    ensures FirstFit(bs, size) == |bs| <==> NoRoom(bs, n, size)
    ensures FirstFit(bs, size) < |bs| ==> LowestFit(bs, n, bs[FirstFit(bs, size)].off, size)
  {
    var i := FirstFit(bs, size);
    forall a: nat | Vacant(Used(bs), n, a, size) ensures i < |bs| && bs[i].off <= a {
      var k := VacantLiesInOneFreeBlock(bs, n, a, size);
      if i < k { Ordered(bs, 0, n, i, k); }
    }
    if i < |bs| {
      Bounds(bs, 0, n, i);
      forall b | b in Used(bs) ensures bs[i].off + HDR + size <= b.off || b.End() <= bs[i].off {
        var k :| 0 <= k < |bs| && bs[k] == b;
        if k < i { Ordered(bs, 0, n, k, i); } else { Ordered(bs, 0, n, i, k); }
      }
      assert Vacant(Used(bs), n, bs[i].off, size);
    }
  }

  // -- Round trips -------------------------------------------------------------

  lemma FreeUndoesMalloc(bs: seq<Block>, n: nat, i: nat, size: nat)
    requires Canonical(bs, n) && i < |bs| && !bs[i].used && size <= bs[i].size && size % ALIGN == 0
    ensures FreeAt(AllocAt(bs, i, size), i) == bs
  {
    var cs := AllocAt(bs, i, size);
    AllocAddsOneLiveBlock(bs, n, i, size);
    FreeRemovesOneLiveBlock(cs, n, i);
    assert Used(FreeAt(cs, i)) == Used(bs);
    ListIsDeterminedByLiveBlocks(FreeAt(cs, i), bs, 0, n);
  }

  function IndexOf(bs: seq<Block>, b: Block): (i: nat)
    requires b in bs
    ensures i < |bs| && bs[i] == b
  {
    if bs[0] == b then 0 else 1 + IndexOf(bs[1..], b)
  }

  // Freeing a sequence of blocks one call after another.
  function FreeAll(bs: seq<Block>, victims: seq<Block>): seq<Block>
    decreases |victims|
  {
    if victims == [] || victims[0] !in bs then bs
    else FreeAll(FreeAt(bs, IndexOf(bs, victims[0])), victims[1..])
  }

  lemma {:induction false} FreeAllRemovesExactlyTheVictims(bs: seq<Block>, n: nat, victims: seq<Block>)
    requires Canonical(bs, n) && Distinct(victims) && forall v | v in victims :: v in Used(bs)
    ensures Canonical(FreeAll(bs, victims), n)
    ensures Used(FreeAll(bs, victims)) == Used(bs) - set v | v in victims
    decreases |victims|
  {
    if victims != [] {
      assert victims[0] in victims;
      var cs := FreeAt(bs, IndexOf(bs, victims[0]));
      FreeRemovesOneLiveBlock(bs, n, IndexOf(bs, victims[0]));
      forall v | v in victims[1..] ensures v in Used(cs) {
        var j :| 0 <= j < |victims[1..]| && victims[1..][j] == v;
        assert victims[0] != victims[j + 1];
      }
      FreeAllRemovesExactlyTheVictims(cs, n, victims[1..]);
      assert victims == [victims[0]] + victims[1..];
    }
  }

  // The order of frees is immaterial, down to the last header.
  lemma FreeOrderIsImmaterial(bs: seq<Block>, n: nat, xs: seq<Block>, ys: seq<Block>)
    requires Canonical(bs, n) && Distinct(xs) && Distinct(ys)
    requires forall v | v in xs :: v in Used(bs)
    requires forall v :: v in xs <==> v in ys
    ensures FreeAll(bs, xs) == FreeAll(bs, ys)
  {
    FreeAllRemovesExactlyTheVictims(bs, n, xs);
    FreeAllRemovesExactlyTheVictims(bs, n, ys);
    ListIsDeterminedByLiveBlocks(FreeAll(bs, xs), FreeAll(bs, ys), 0, n);
  }

  // Freeing every live block, in any order, gives back the single block the
  // pool started as.
  lemma FreeingEverythingRestoresThePool(bs: seq<Block>, n: nat, xs: seq<Block>)
    requires HDR <= n && Canonical(bs, n) && Distinct(xs)
    requires forall v :: v in xs <==> v in Used(bs)
    ensures FreeAll(bs, xs) == [Block(0, n - HDR, false)]
  {
    FreeAllRemovesExactlyTheVictims(bs, n, xs);
    ListIsDeterminedByLiveBlocks(FreeAll(bs, xs), [Block(0, n - HDR, false)], 0, n);
  }
}
