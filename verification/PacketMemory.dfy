// Packet memory as one context sees it: counted data packets with flow control,
// and the reserved pools that keep command traffic alive.
module PacketMemory {
  import opened Lists
  import FlowControl

  // A packet remembers, in its ops, where it came from.
  datatype Packet =
    | TxCommand(block: nat)
    | RxCommand(block: nat)
    | TxData(addr: nat)
    | RxData(addr: nat)
    | RxHeap(addr: nat)      // a receive command that no reserved block could hold

  // -- A reserved pool ---------------------------------------------------------

  function Elements(s: seq<nat>): set<nat> {
    set x | x in s
  }

  // Every carved block is on the free list once, or in one packet, and not both.
  ghost predicate Conserved(blocks: set<nat>, free: seq<nat>, held: set<nat>) {
    Distinct(free) && Elements(free) !! held && Elements(free) + held == blocks
  }

  lemma {:induction false} DistinctLength(s: seq<nat>)
    requires Distinct(s)
    ensures |Elements(s)| == |s|
  {
    if s != [] {
      DistinctLength(s[1..]);
      assert s == [s[0]] + s[1..];
      assert Elements(s) == {s[0]} + Elements(s[1..]);
    }
  }

  // The free list is full length exactly when no packet holds a block.
  lemma FullListMeansNoneHeld(blocks: set<nat>, free: seq<nat>, held: set<nat>)
    requires Conserved(blocks, free, held)
    ensures |free| + |held| == |blocks|
    ensures |free| == |blocks| <==> held == {}
  {
    DistinctLength(free);
    assert |Elements(free) + held| == |Elements(free)| + |held|;
  }

  lemma Dequeued(blocks: set<nat>, free: seq<nat>, held: set<nat>)
    requires Conserved(blocks, free, held) && free != []
    ensures Conserved(blocks, free[1..], held + {free[0]}) && free[0] !in held
  {
    assert free == [free[0]] + free[1..];
    assert Elements(free) == {free[0]} + Elements(free[1..]);
    assert free[0] in Elements(free);
  }

  lemma Appended(blocks: set<nat>, free: seq<nat>, held: set<nat>, b: nat)
    requires Conserved(blocks, free, held) && b in held
    ensures Conserved(blocks, free + [b], held - {b})
  {
    assert forall x | x in free :: x in Elements(free);
    assert Elements(free + [b]) == Elements(free) + {b};
  }

  class PacketMemory {
    const txLimit: nat               // MM_HALOW_TX_BLOCKS
    const rxLimit: nat               // MM_HALOW_RX_BLOCKS
    const txMax: nat                 // MMHAL_WLAN_MMPKT_TX_MAX_SIZE
    const rxMax: nat                 // MMHAL_WLAN_MMPKT_RX_MAX_SIZE

    var txAllocated: int
    var txPaused: bool
    var rxAllocated: int
    var txCommandFree: seq<nat>
    var rxCommandFree: seq<nat>
    var calls: nat                   // runs of the flow control callback

    const txPoolLen: nat             // blocks in each pool; 0 when it could not be had
    const rxPoolLen: nat
    ghost const txBlocks: set<nat>   // the blocks carved out of each pool
    ghost const rxBlocks: set<nat>
    ghost var txHeld: set<nat>       // blocks in packets handed out and not freed
    ghost var rxHeld: set<nat>
    ghost var txOut: set<nat>        // the same for packets from the heap
    ghost var rxOut: set<nat>
    ghost var rxHeap: set<nat>

    ghost predicate Valid()
      reads this
    {
      && 3 <= txLimit && 2 <= rxLimit
      && txAllocated == |txOut| <= txLimit
      && rxAllocated == |rxOut| <= rxLimit
      && Conserved(txBlocks, txCommandFree, txHeld)
      && Conserved(rxBlocks, rxCommandFree, rxHeld)
      && |txBlocks| == txPoolLen && |rxBlocks| == rxPoolLen
      && (txPaused ==> txAllocated >= txLimit - 2)
      && (txAllocated == txLimit ==> txPaused)
    }

    // p has been handed out and not freed.
    ghost predicate IsOut(p: Packet)
      reads this
    {
      match p
      case TxCommand(b) => b in txHeld
      case RxCommand(b) => b in rxHeld
      case TxData(a) => a in txOut
      case RxData(a) => a in rxOut
      case RxHeap(a) => a in rxHeap
    }

    // Nothing that shutting down waits for is out.
    ghost predicate Idle()
      reads this
    {
      txOut == {} && rxOut == {} && txHeld == {} && rxHeld == {}
    }

    // mmhal_wlan_pktmem_init(); a pool that could not be had has no blocks.
    constructor (txLimit: nat, rxLimit: nat, txMax: nat, rxMax: nat, tx: seq<nat>, rx: seq<nat>)
      requires 3 <= txLimit && 2 <= rxLimit && Distinct(tx) && Distinct(rx)
      ensures Valid() && !txPaused && txHeld == rxHeld == txOut == rxOut == rxHeap == {}
      ensures txCommandFree == tx && rxCommandFree == rx
      ensures this.txLimit == txLimit && this.rxLimit == rxLimit && this.txMax == txMax && this.rxMax == rxMax
      ensures txPoolLen == |tx| && rxPoolLen == |rx| && calls == 0
    {
      this.txLimit, this.rxLimit, this.txMax, this.rxMax := txLimit, rxLimit, txMax, rxMax;
      txAllocated, txPaused, rxAllocated, calls := 0, false, 0, 0;
      txCommandFree, rxCommandFree := tx, rx;
      txPoolLen, rxPoolLen := |tx|, |rx|;
      txBlocks, rxBlocks := Elements(tx), Elements(rx);
      txHeld, rxHeld, txOut, rxOut, rxHeap := {}, {}, {}, {}, {};
      DistinctLength(tx);
      DistinctLength(rx);
    }

    // -- Transmit --------------------------------------------------------------

    // mm_halow_pool_alloc() on the transmit pool.  fits: mmpkt_init_buf() found
    // the block big enough.
    method TxPoolAlloc(fits: bool) returns (pkt: Option<Packet>)
      requires Valid()
      modifies this`txCommandFree, this`txHeld
      ensures Valid()
      ensures pkt.Some? <==> fits && old(txCommandFree) != []
      ensures pkt.Some? ==>
        && pkt.value == TxCommand(old(txCommandFree)[0]) && pkt.value.block !in old(txHeld)
        && txHeld == old(txHeld) + {pkt.value.block}
      ensures pkt.None? ==> txHeld == old(txHeld)
    {
      hide Conserved;
      if txCommandFree == [] {
        return None;
      }
      Dequeued(txBlocks, txCommandFree, txHeld);
      var b := txCommandFree[0];
      txCommandFree := txCommandFree[1..];
      txHeld := txHeld + {b};
      if !fits {
        // Too big: the block goes back by way of its own free.
        FreeTxCommand(b);
        return None;
      }
      return Some(TxCommand(b));
    }

    // mm_halow_tx_command_free()
    method FreeTxCommand(b: nat)
      requires Valid() && b in txHeld
      modifies this`txCommandFree, this`txHeld
      ensures Valid() && txHeld == old(txHeld) - {b} && txCommandFree == old(txCommandFree) + [b]
    {
      hide Conserved;
      Appended(txBlocks, txCommandFree, txHeld, b);
      txCommandFree := txCommandFree + [b];
      txHeld := txHeld - {b};
    }

    // mmhal_wlan_alloc_mmpkt_for_tx().  heap: what mmpkt_alloc_on_heap() would
    // return, which is no address already in use.
    method AllocTx(command: bool, start: nat, end: nat, meta: nat, fits: bool, heap: Option<nat>)
      returns (pkt: Option<Packet>)
      requires Valid() && (heap.Some? ==> heap.value !in txOut)
      modifies this`txCommandFree, this`txHeld, this`txAllocated, this`txPaused, this`calls, this`txOut
      ensures Valid()
      ensures var ok := start <= txMax && end <= txMax && meta <= txMax;
        pkt == if !ok then None
               else if command && fits && old(txCommandFree) != [] then Some(TxCommand(old(txCommandFree)[0]))
               else if old(txAllocated) < txLimit && heap.Some? then Some(TxData(heap.value))
               else None
      ensures pkt.Some? && pkt.value.TxCommand? ==> pkt.value.block !in old(txHeld)
      ensures txHeld == if pkt.Some? && pkt.value.TxCommand? then old(txHeld) + {pkt.value.block} else old(txHeld)
      ensures txOut == if pkt.Some? && pkt.value.TxData? then old(txOut) + {heap.value} else old(txOut)
      // Transmission is paused by the packet that uses up the last allocation, as it
      // is by a call in FlowControl that nobody else gets in the way of.
      ensures FlowControl.PausedByAlloc(txLimit, txAllocated, old(txPaused), txPaused)
      ensures calls == old(calls) + if txPaused == old(txPaused) then 0 else 1
    {
      hide Conserved;
      if !(start <= txMax && end <= txMax && meta <= txMax) {
        return None;
      }
      if command {
        pkt := TxPoolAlloc(fits);
        if pkt.Some? {
          return;
        }
      }
      pkt := AllocTxData(heap);
    }

    method AllocTxData(heap: Option<nat>) returns (pkt: Option<Packet>)
      requires Valid() && (heap.Some? ==> heap.value !in txOut)
      modifies this`txAllocated, this`txPaused, this`calls, this`txOut
      ensures Valid()
      ensures pkt == if old(txAllocated) < txLimit && heap.Some? then Some(TxData(heap.value)) else None
      ensures txOut == if pkt.Some? then old(txOut) + {heap.value} else old(txOut)
      ensures FlowControl.PausedByAlloc(txLimit, txAllocated, old(txPaused), txPaused)
      ensures calls == old(calls) + if txPaused == old(txPaused) then 0 else 1
    {
      hide Conserved;
      var was := txAllocated;
      txAllocated := txAllocated + 1;
      if was >= txLimit {
        txAllocated := txAllocated - 1;
        return None;
      }
      if heap.None? {
        txAllocated := txAllocated - 1;
        return None;
      }
      txOut := txOut + {heap.value};
      if txAllocated > txLimit - 1 {
        if !txPaused {
          txPaused := true;
          calls := calls + 1;
        }
      }
      return Some(TxData(heap.value));
    }

    // mm_halow_tx_data_free()
    method FreeTxData(a: nat)
      requires Valid() && a in txOut
      modifies this`txAllocated, this`txPaused, this`calls, this`txOut
      ensures Valid() && txOut == old(txOut) - {a}
      ensures FlowControl.PausedByFree(txLimit, txAllocated, old(txPaused), txPaused)
      ensures calls == old(calls) + if txPaused == old(txPaused) then 0 else 1
    {
      hide Conserved;
      var was := txAllocated;
      txAllocated := txAllocated - 1;
      assert was > 0;
      txOut := txOut - {a};
      if txAllocated < txLimit - 2 {
        if txPaused {
          txPaused := false;
          calls := calls + 1;
        }
      }
    }

    // -- Receive ---------------------------------------------------------------

    method RxPoolAlloc(fits: bool) returns (pkt: Option<Packet>)
      requires Valid()
      modifies this`rxCommandFree, this`rxHeld
      ensures Valid()
      ensures pkt.Some? <==> fits && old(rxCommandFree) != []
      ensures pkt.Some? ==>
        && pkt.value == RxCommand(old(rxCommandFree)[0]) && pkt.value.block !in old(rxHeld)
        && rxHeld == old(rxHeld) + {pkt.value.block}
      ensures pkt.None? ==> rxHeld == old(rxHeld)
    {
      hide Conserved;
      if rxCommandFree == [] {
        return None;
      }
      Dequeued(rxBlocks, rxCommandFree, rxHeld);
      var b := rxCommandFree[0];
      rxCommandFree := rxCommandFree[1..];
      rxHeld := rxHeld + {b};
      if !fits {
        FreeRxCommand(b);
        return None;
      }
      return Some(RxCommand(b));
    }

    // mm_halow_rx_command_free()
    method FreeRxCommand(b: nat)
      requires Valid() && b in rxHeld
      modifies this`rxCommandFree, this`rxHeld
      ensures Valid() && rxHeld == old(rxHeld) - {b} && rxCommandFree == old(rxCommandFree) + [b]
    {
      hide Conserved;
      Appended(rxBlocks, rxCommandFree, rxHeld, b);
      rxCommandFree := rxCommandFree + [b];
      rxHeld := rxHeld - {b};
    }

    // mmhal_wlan_alloc_mmpkt_for_rx(): a command that no reserved block serves is
    // allocated from the heap uncounted, however much data is out.
    method AllocRx(command: bool, capacity: nat, meta: nat, fits: bool, heap: Option<nat>)
      returns (pkt: Option<Packet>)
      requires Valid() && (heap.Some? ==> heap.value !in rxOut && heap.value !in rxHeap)
      modifies this`rxCommandFree, this`rxHeld, this`rxAllocated, this`rxOut, this`rxHeap
      ensures Valid()
      ensures !(capacity <= rxMax && meta <= rxMax) ==> pkt.None?
      ensures capacity <= rxMax && meta <= rxMax && command ==>
        pkt == if fits && old(rxCommandFree) != [] then Some(RxCommand(old(rxCommandFree)[0]))
               else if heap.Some? then Some(RxHeap(heap.value)) else None
      ensures capacity <= rxMax && meta <= rxMax && !command ==>
        pkt == if old(rxAllocated) < rxLimit && heap.Some? then Some(RxData(heap.value)) else None
      ensures pkt.Some? && pkt.value.RxCommand? ==> pkt.value.block !in old(rxHeld)
      ensures rxHeld == if pkt.Some? && pkt.value.RxCommand? then old(rxHeld) + {pkt.value.block} else old(rxHeld)
      ensures rxOut == if pkt.Some? && pkt.value.RxData? then old(rxOut) + {heap.value} else old(rxOut)
      ensures rxHeap == if pkt.Some? && pkt.value.RxHeap? then old(rxHeap) + {heap.value} else old(rxHeap)
    {
      hide Conserved, Distinct, Elements;
      if !(capacity <= rxMax && meta <= rxMax) {
        return None;
      }
      if command {
        pkt := AllocRxCommand(fits, heap);
        return;
      }
      pkt := AllocRxData(heap);
    }

    method AllocRxCommand(fits: bool, heap: Option<nat>) returns (pkt: Option<Packet>)
      requires Valid() && (heap.Some? ==> heap.value !in rxHeap)
      modifies this`rxCommandFree, this`rxHeld, this`rxHeap
      ensures Valid()
      ensures pkt == if fits && old(rxCommandFree) != [] then Some(RxCommand(old(rxCommandFree)[0]))
                     else if heap.Some? then Some(RxHeap(heap.value)) else None
      ensures pkt.Some? && pkt.value.RxCommand? ==> pkt.value.block !in old(rxHeld)
      ensures rxHeld == if pkt.Some? && pkt.value.RxCommand? then old(rxHeld) + {pkt.value.block} else old(rxHeld)
      // One from the heap is out, and shutting down would not know.
      ensures pkt.Some? && pkt.value.RxHeap? ==> IsOut(pkt.value) && Idle() == old(Idle())
      ensures rxHeap == if pkt.Some? && pkt.value.RxHeap? then old(rxHeap) + {heap.value} else old(rxHeap)
    {
      hide Conserved;
      pkt := RxPoolAlloc(fits);
      if pkt.None? && heap.Some? {
        rxHeap := rxHeap + {heap.value};
        pkt := Some(RxHeap(heap.value));
      }
    }

    method AllocRxData(heap: Option<nat>) returns (pkt: Option<Packet>)
      requires Valid() && (heap.Some? ==> heap.value !in rxOut)
      modifies this`rxAllocated, this`rxOut
      ensures Valid()
      ensures pkt == if old(rxAllocated) < rxLimit && heap.Some? then Some(RxData(heap.value)) else None
      ensures rxOut == if pkt.Some? then old(rxOut) + {heap.value} else old(rxOut)
    {
      hide Conserved;
      var was := rxAllocated;
      rxAllocated := rxAllocated + 1;
      if was >= rxLimit {
        rxAllocated := rxAllocated - 1;
        return None;
      }
      if heap.None? {
        rxAllocated := rxAllocated - 1;
        return None;
      }
      rxOut := rxOut + {heap.value};
      return Some(RxData(heap.value));
    }

    // mm_halow_rx_data_free()
    method FreeRxData(a: nat)
      requires Valid() && a in rxOut
      modifies this`rxAllocated, this`rxOut
      ensures Valid() && rxOut == old(rxOut) - {a}
    {
      hide Conserved;
      rxAllocated := rxAllocated - 1;
      rxOut := rxOut - {a};
    }

    // Not one of the driver's own: the packet goes back to the heap, uncounted.
    method FreeRxHeap(a: nat)
      requires Valid() && a in rxHeap
      modifies this`rxHeap
      ensures Valid() && rxHeap == old(rxHeap) - {a}
    {
      rxHeap := rxHeap - {a};
    }

    // -- Freeing any packet ----------------------------------------------------

    // ops->free_mmpkt(): each packet goes back to the source it came from, to no
    // other, and no other packet is affected.
    method Free(p: Packet)
      requires Valid() && IsOut(p)
      modifies this`txCommandFree, this`rxCommandFree, this`txHeld, this`rxHeld, this`txAllocated, this`rxAllocated,
        this`txPaused, this`calls, this`txOut, this`rxOut, this`rxHeap
      ensures Valid() && !IsOut(p) && forall q: Packet | q != p :: IsOut(q) == old(IsOut(q))
      ensures txCommandFree == if p.TxCommand? then old(txCommandFree) + [p.block] else old(txCommandFree)
      ensures rxCommandFree == if p.RxCommand? then old(rxCommandFree) + [p.block] else old(rxCommandFree)
      ensures txAllocated == old(txAllocated) - if p.TxData? then 1 else 0
      ensures rxAllocated == old(rxAllocated) - if p.RxData? then 1 else 0
      ensures txPaused <==> old(txPaused) && !(p.TxData? && txAllocated < txLimit - 2)
    {
      hide Conserved;
      match p
      case TxCommand(b) => FreeTxCommand(b);
      case RxCommand(b) => FreeRxCommand(b);
      case TxData(a) => FreeTxData(a);
      case RxData(a) => FreeRxData(a);
      case RxHeap(a) => FreeRxHeap(a);
    }

    // -- Shutting down ---------------------------------------------------------

    // The test in mmhal_wlan_pktmem_deinit(): true exactly when the reserved
    // pools can be given back.  Receive commands on the heap are not waited for.
    method Drained() returns (d: bool)
      requires Valid()
      ensures d <==> Idle()
      // So that no packet at all is out exactly when no receive command is on the heap.
      ensures d ==> ((forall p: Packet :: !IsOut(p)) <==> rxHeap == {})
    {
      FullListMeansNoneHeld(txBlocks, txCommandFree, txHeld);
      FullListMeansNoneHeld(rxBlocks, rxCommandFree, rxHeld);
      NoneOutside();
      d := txAllocated == 0 && rxAllocated == 0 && |txCommandFree| == txPoolLen && |rxCommandFree| == rxPoolLen;
    }

    lemma NoneOutside()
      ensures Idle() ==> ((forall p: Packet :: !IsOut(p)) <==> rxHeap == {})
    {
      if Idle() && rxHeap != {} {
        var a :| a in rxHeap;
        assert IsOut(RxHeap(a));
      }
    }
  }
}
