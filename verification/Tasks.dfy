// The task table: a static array of slots, the list threaded through them in
// creation order, and the stacks taken from the private heap.
module TaskLists {
  import opened Lists
  import opened Words
  import opened Memory
  import opened Blocks

  const FILL: word := 0xA5A5A5A5

  datatype State = Ready | Dead

  // One slot.  next is a slot number, or the size of the table for NULL; stack
  // is NULL in a slot that is not in use.
  datatype Task = Task(sp: nat, next: nat, stack: nat, words: nat, entry: word, arg: word, state: State)

  function At(order: seq<nat>, k: int, none: nat): nat {
    if 0 <= k < |order| then order[k] else none
  }

  ghost predicate LinkAt(table: seq<Task>, order: seq<nat>, k: nat)
    requires k < |order|
  {
    order[k] < |table| && table[order[k]].next == At(order, k + 1, |table|)
  }

  // The list at head runs through exactly those slots, in that order: it is
  // finite, has no cycle, and visits nothing twice.
  ghost predicate Threads(table: seq<Task>, head: nat, order: seq<nat>) {
    && head == At(order, 0, |table|) && Distinct(order)
    && forall k: nat | k < |order| :: LinkAt(table, order, k)
  }

  // The slots on the list are exactly those in use.
  ghost predicate InUse(table: seq<Task>, order: seq<nat>) {
    && (forall i | i in order :: i < |table|)
    && forall i: nat | i < |table| :: table[i].stack != 0 <==> i in order
  }

  // Each one's stack is its own block of the heap.
  ghost predicate Owns(table: seq<Task>, order: seq<nat>, own: map<nat, Block>, live: set<Block>, base: nat,
                       context: nat) {
    && (forall i :: i in own <==> i in order)
    && (forall i | i in own :: i < |table| && StackAt(table[i], own[i], base, context) && own[i] in live)
    && forall i, j | i in own && j in own && i != j :: own[i] != own[j]
  }

  ghost predicate StackAt(t: Task, b: Block, base: nat, context: nat) {
    t.stack == base + b.off + HDR && t.words % 2 == 0 && context <= t.words && 4 * t.words <= b.size
  }

  ghost predicate SameStacks(table: seq<Task>, table': seq<Task>) {
    && |table'| == |table|
    && forall i: nat | i < |table| :: table'[i].stack == table[i].stack && table'[i].words == table[i].words
  }

  lemma StacksKept(table: seq<Task>, table': seq<Task>, order: seq<nat>, own: map<nat, Block>, live: set<Block>,
                   base: nat, context: nat)
    requires SameStacks(table, table') && InUse(table, order) && Owns(table, order, own, live, base, context)
    ensures InUse(table', order) && Owns(table', order, own, live, base, context)
  {
  }

  // The slot taken off the list is cleared, and its stack freed.
  lemma Retired(table: seq<Task>, head: nat, kept: seq<nat>, i: nat, rest: seq<nat>, own: map<nat, Block>,
                live: set<Block>, base: nat, context: nat)
    requires Threads(table, head, kept + rest) && Distinct(kept + [i] + rest) && i < |table|
    requires InUse(table, kept + [i] + rest) && Owns(table, kept + [i] + rest, own, live, base, context)
    ensures var table' := Cleared(table, i);
            && Threads(table', head, kept + rest) && InUse(table', kept + rest)
            && i in own && Owns(table', kept + rest, own - {i}, live - {own[i]}, base, context)
  {
    var was, now, n := kept + [i] + rest, kept + rest, |kept|;
    assert was[n] == i;
    forall j ensures j in now <==> j in was && j != i {
      if j in now {
        var k :| 0 <= k < |now| && now[k] == j;
        assert j == was[if k < n then k else k + 1];
      }
    }
    KeepsThreads(table, Cleared(table, i), head, now);
  }

  function Unhooked(table: seq<Task>, i: nat, last: nat): seq<Task>
    requires i < |table|
  {
    if last < |table| then table[last := table[last].(next := table[i].next)] else table
  }

  function Cleared(table: seq<Task>, i: nat): seq<Task>
    requires i < |table|
  {
    table[i := table[i].(stack := 0, next := |table|)]
  }

  lemma StackIsLive(table: seq<Task>, order: seq<nat>, own: map<nat, Block>, live: set<Block>, base: nat,
                    context: nat, i: nat)
    requires Owns(table, order, own, live, base, context) && i in order && i < |table|
    ensures i in own && own[i] in live && table[i].stack == base + own[i].off + HDR
    ensures table[i].words % 2 == 0 && context <= table[i].words && 4 * table[i].words <= own[i].size
  {
  }

  // The tasks not dead, in their order.
  function Alive(table: seq<Task>, order: seq<nat>): (r: seq<nat>)
    ensures forall i :: i in r <==> i in order && (i < |table| ==> table[i].state.Ready?)
    ensures |r| <= |order|
    decreases |order|
  {
    if order == [] then [] else
      var n := |order| - 1;
      var r := Alive(table, order[..n]);
      if order[n] < |table| && table[order[n]].state.Dead? then r else r + [order[n]]
  }

  ghost function Stacks(own: map<nat, Block>, ids: set<nat>): set<Block> {
    set i | i in ids && i in own :: own[i]
  }

  ghost function Dying(table: seq<Task>, order: seq<nat>): set<nat> {
    set i | i in order && i < |table| && table[i].state.Dead?
  }

  // The table, its list, and the heap as far as the stacks go.
  datatype Ledger = Ledger(table: seq<Task>, order: seq<nat>, own: map<nat, Block>, live: map<Block, seq<uint8>>)

  // How far a reap has got, having been through the tasks in done: those alive
  // are still listed, with the rest; the dead are off the list, their slots free
  // and their stacks given back; and nothing else has changed.
  ghost predicate Reaped(was: Ledger, done: seq<nat>, rest: seq<nat>, now: Ledger) {
    var dead := Dying(was.table, done);
    && now.order == Alive(was.table, done) + rest
    && now.own == was.own - dead
    && now.live == was.live - Stacks(was.own, dead)
    && SlotsReaped(was.table, now.table, dead)
  }

  ghost predicate SlotsReaped(was: seq<Task>, table: seq<Task>, dead: set<nat>) {
    && |table| == |was|
    && forall i: nat | i < |was| ::
         table[i] == if i in dead then was[i].(stack := 0, next := |was|) else was[i].(next := table[i].next)
  }

  lemma ReapedNone(was: Ledger)
    ensures Reaped(was, [], was.order, was)
  {
    assert Dying(was.table, []) == {} && Stacks(was.own, {}) == {};
    assert Alive(was.table, []) + was.order == was.order;
  }

  // One more task behind.
  lemma OneMore(was: Ledger, done: seq<nat>, i: nat)
    requires i < |was.table|
    ensures Alive(was.table, done + [i]) ==
            Alive(was.table, done) + if was.table[i].state.Dead? then [] else [i]
    ensures var dead := Dying(was.table, done);
            Dying(was.table, done + [i]) == if was.table[i].state.Dead? then dead + {i} else dead
  {
    assert (done + [i])[..|done|] == done;
  }

  lemma SlotReaped(was: seq<Task>, table: seq<Task>, dead: set<nat>, i: nat, last: nat)
    requires SlotsReaped(was, table, dead) && i < |was| && last !in dead
    ensures SlotsReaped(was, Cleared(Unhooked(table, i, last), i), dead + {i})
  {
  }

  lemma ReapedDead(was: Ledger, done: seq<nat>, i: nat, rest: seq<nat>, now: Ledger, last: nat)
    requires Reaped(was, done, [i] + rest, now) && i < |was.table| == |now.table| && was.table[i].state.Dead?
    requires i in was.own && i !in done && last !in Dying(was.table, done)
    ensures Reaped(was, done + [i], rest,
                   Ledger(Cleared(Unhooked(now.table, i, last), i), Alive(was.table, done) + rest, now.own - {i},
                          now.live - {was.own[i]}))
  {
    hide SlotsReaped, Alive, Unhooked, Cleared, Dying;
    var dead := Dying(was.table, done);
    OneMore(was, done, i);
    SlotReaped(was.table, now.table, dead, i, last);
    assert Stacks(was.own, dead + {i}) == Stacks(was.own, dead) + {was.own[i]};
  }

  lemma ReapedAlive(was: Ledger, done: seq<nat>, i: nat, rest: seq<nat>, now: Ledger)
    requires Reaped(was, done, [i] + rest, now) && i < |was.table| && was.table[i].state.Ready?
    ensures Reaped(was, done + [i], rest, now)
  {
    hide SlotsReaped, Alive, Dying, Stacks;
    OneMore(was, done, i);
    assert Alive(was.table, done) + ([i] + rest) == Alive(was.table, done) + [i] + rest;
  }

  // What the loop of reap knows of the task it has come to.
  lemma Reaching(was: Ledger, done: seq<nat>, i: nat, rest: seq<nat>, now: Ledger, head: nat)
    requires Reaped(was, done, [i] + rest, now) && Threads(now.table, head, now.order)
    requires Sound(was) && was.order == done + [i] + rest
    ensures i < |was.table| == |now.table| && i !in done && i in was.own
    ensures now.table[i].state == was.table[i].state && now.table[i].next == At(rest, 0, |now.table|)
    ensures now.order == Alive(was.table, done) + ([i] + rest)
    ensures i in now.own && now.own[i] == was.own[i]
  {
    hide Alive, Stacks, InUse;
    var n, k := |done|, |Alive(was.table, done)|;
    assert was.order[n] == i;
    InUseBounds(was.table, was.order, i);
    assert forall d :: 0 <= d < n ==> was.order[d] == done[d];
    assert now.order[k] == i;
    assert LinkAt(now.table, now.order, k);
    assert At(now.order, k + 1, |now.table|) == At(rest, 0, |now.table|);
  }

  ghost predicate Sound(was: Ledger) {
    && Distinct(was.order) && InUse(was.table, was.order)
    && forall j :: j in was.own <==> j in was.order
  }

  // The walk is at its end when it reads NULL.
  lemma AtTheEnd(was: Ledger, done: seq<nat>, rest: seq<nat>)
    requires Sound(was) && was.order == done + rest
    ensures At(rest, 0, |was.table|) == |was.table| <==> rest == []
    ensures rest != [] ==> rest[0] < |was.table|
    ensures rest != [] ==> [rest[0]] + rest[1..] == rest && was.order == done + [rest[0]] + rest[1..]
  {
    hide InUse;
    if rest != [] {
      assert rest[0] in was.order;
      InUseBounds(was.table, was.order, rest[0]);
    }
  }

  lemma InUseBounds(table: seq<Task>, order: seq<nat>, i: nat)
    requires InUse(table, order) && i in order
    ensures i < |table| && table[i].stack != 0
  {
  }

  // The last task kept is not one of the dead.
  lemma LastKept(table: seq<Task>, done: seq<nat>)
    ensures var kept := Alive(table, done);
            At(kept, |kept| - 1, |table|) !in Dying(table, done)
  {
    var kept := Alive(table, done);
    assert kept != [] ==> kept[|kept| - 1] in kept;
  }

  // A new task: its saved stack pointer, and the one it will have once its
  // context is popped, are 8-byte aligned and inside its stack.
  ghost predicate Started(t: Task, entry: word, arg: word, words: nat, stack: nat, context: nat) {
    && t.entry == entry && t.arg == arg && t.state.Ready? && t.words == words && t.stack == stack
    && t.sp + 4 * context == stack + 4 * words && stack <= t.sp && t.sp % 8 == 0 && (t.sp + 4 * context) % 8 == 0
  }

  // malloc has a block for a stack of that many words, as it is asked for: with
  // the size in bytes taken modulo 2^32.
  ghost predicate Room(blocks: seq<Block>, poolSize: nat, words: nat) {
    var size := Wrap(4 * words);
    0 < size <= poolSize && !NoRoom(blocks, poolSize, size)
  }

  // A slot filled in, and put at the end of the list.
  function Filled(table: seq<Task>, order: seq<nat>, i: nat, t: Task): seq<Task>
    requires i < |table| && (order != [] ==> order[|order| - 1] < |table|)
  {
    var now := table[i := t];
    if order == [] then now else now[order[|order| - 1] := now[order[|order| - 1]].(next := i)]
  }

  lemma FilledTwice(table: seq<Task>, order: seq<nat>, i: nat, t: Task)
    requires i < |table| && (order != [] ==> order[|order| - 1] < |table|)
    ensures Filled(table[i := t], order, i, t) == Filled(table, order, i, t)
  {
    assert table[i := t][i := t] == table[i := t];
  }

  // What installing task t in slot i comes to.
  lemma Enroll(table: seq<Task>, head: nat, order: seq<nat>, own: map<nat, Block>, live: map<Block, seq<uint8>>,
               base: nat, context: nat, i: nat, t: Task, b: Block, live': map<Block, seq<uint8>>)
    requires Threads(table, head, order) && InUse(table, order) && Owns(table, order, own, live.Keys, base, context)
    requires i < |table| && table[i].stack == 0 && t.next == |table| && t.stack != 0
    requires StackAt(t, b, base, context) && b !in live && b in live' && live' == live[b := live'[b]]
    ensures order != [] ==> order[|order| - 1] < |table|
    ensures var now := Ledger(Filled(table, order, i, t), order + [i], own[i := b], live');
            && Enrolled(Ledger(table, order, own, live), now, i, b) && now.table[i] == t
            && Threads(table[i := t], head, order)
            && Threads(now.table, if order == [] then i else head, now.order)
            && InUse(now.table, now.order) && Owns(now.table, now.order, now.own, live'.Keys, base, context)
  {
    hide Threads, Owns, InUse, Filled;
    Enlisted(table, head, order, own, live.Keys, base, context, i, t, b);
    LastIsListed(table, head, order, i, t);
    FilledAt(table, order, i, t);
    assert live'.Keys == live.Keys + {b};
  }

  // Slot i has been put to use for a new task, with new block b for its stack.
  ghost predicate Enrolled(was: Ledger, now: Ledger, i: nat, b: Block) {
    && i < |was.table| == |now.table| && i !in was.order && b !in was.live && b in now.live
    && (was.order != [] ==> was.order[|was.order| - 1] < |was.table|)
    && now.table == Filled(was.table, was.order, i, now.table[i]) && now.table[i].next == |was.table|
    && now.order == was.order + [i] && now.own == was.own[i := b] && now.live == was.live[b := now.live[b]]
  }

  ghost predicate Full(table: seq<Task>, i: nat) {
    i <= |table| && forall k :: 0 <= k < i ==> table[k].stack != 0
  }

  lemma FilledAt(table: seq<Task>, order: seq<nat>, i: nat, t: Task)
    requires i < |table| && i !in order && (order != [] ==> order[|order| - 1] < |table|)
    ensures Filled(table, order, i, t)[i] == t && |Filled(table, order, i, t)| == |table|
  {
    if order != [] { assert order[|order| - 1] in order; }
  }

  lemma Enlisted(table: seq<Task>, head: nat, order: seq<nat>, own: map<nat, Block>, live: set<Block>, base: nat,
                 context: nat,
                 i: nat, t: Task, b: Block)
    requires Threads(table, head, order) && InUse(table, order) && Owns(table, order, own, live, base, context)
    requires i < |table| && table[i].stack == 0 && t.next == |table| && StackAt(t, b, base, context) && b !in live
    ensures order != [] ==> order[|order| - 1] < |table|
    ensures i !in order && InUse(Filled(table, order, i, t), order + [i])
    ensures Owns(Filled(table, order, i, t), order + [i], own[i := b], live + {b}, base, context)
  {
    if order != [] { assert order[|order| - 1] in order; }
  }

  lemma LastIsListed(table: seq<Task>, head: nat, order: seq<nat>, i: nat, t: Task)
    requires Threads(table, head, order) && InUse(table, order) && i < |table| && i !in order && t.next == |table|
    requires t.stack != 0
    ensures order != [] ==> order[|order| - 1] < |table|
    ensures Threads(table[i := t], head, order)
    ensures Threads(Filled(table, order, i, t), if order == [] then i else head, order + [i])
  {
    if order != [] { assert order[|order| - 1] in order; }
    KeepsThreads(table, table[i := t], head, order);
    var now := table[i := t];
    Appended(now, Filled(table, order, i, t), head, order, i);
  }

  // -- Linking -----------------------------------------------------------------

  lemma Appended(table: seq<Task>, table': seq<Task>, head: nat, order: seq<nat>, i: nat)
    requires Threads(table, head, order) && i < |table| && i !in order && table[i].next == |table|
    requires var n := |order|;
             && (0 < n ==> order[n - 1] < |table|)
             && table' == if n == 0 then table else table[order[n - 1] := table[order[n - 1]].(next := i)]
    ensures Threads(table', if order == [] then i else head, order + [i])
  {
    var now := order + [i];
    forall k: nat | k < |now| ensures LinkAt(table', now, k) {
      if k < |order| {
        assert LinkAt(table, order, k);
        assert order[k] in order && (k < |order| - 1 ==> order[k] != order[|order| - 1]);
      }
    }
  }

  // Unhooking slot order[k]: its predecessor takes over its link.
  lemma Unlinked(table: seq<Task>, table': seq<Task>, head: nat, kept: seq<nat>, i: nat, rest: seq<nat>)
    requires Threads(table, head, kept + [i] + rest) && |table'| == |table| && i < |table|
    requires forall j: nat | j < |table| && j != i && (kept != [] ==> j != kept[|kept| - 1]) :: table'[j] == table[j]
    requires kept != [] ==> kept[|kept| - 1] < |table'| && table'[kept[|kept| - 1]].next == table[i].next
    ensures Threads(table', if kept == [] then table[i].next else head, kept + rest)
  {
    var was, now, n := kept + [i] + rest, kept + rest, |kept|;
    assert LinkAt(table, was, n);
    forall j, k | 0 <= j < k < |now| ensures now[j] != now[k] {
      assert now[j] == was[if j < n then j else j + 1] && now[k] == was[if k < n then k else k + 1];
    }
    forall k: nat | k < |now| ensures LinkAt(table', now, k) {
      var w := if k < n then k else k + 1;
      assert LinkAt(table, was, w);
      assert now[k] == was[w] && was[w] != was[n];
      assert 0 < n && k != n - 1 ==> was[w] != was[n - 1];
    }
  }

  // What the list is does not depend on anything but the links.
  lemma KeepsThreads(table: seq<Task>, table': seq<Task>, head: nat, order: seq<nat>)
    requires Threads(table, head, order) && |table'| == |table|
    requires forall i | i in order && i < |table| :: table'[i].next == table[i].next
    ensures Threads(table', head, order)
  {
    forall k: nat | k < |order| ensures LinkAt(table', order, k) {
      assert LinkAt(table, order, k) && order[k] in order;
    }
  }

  // -- Stack images ------------------------------------------------------------

  ghost predicate Holds(stack: seq<uint8>, i: nat, v: word) {
    4 * i + 4 <= |stack| && Load32(stack, 4 * i) == v
  }

  lemma StillHolds(stack: seq<uint8>, stack': seq<uint8>, i: nat, v: word, k: nat)
    requires Holds(stack, k, v) && SameOutside(stack, stack', 4 * i, 4 * i + 4) && k != i
    ensures Holds(stack', k, v)
  {
  }

  // A stack as it is created: painted, but for a context at the top that holds
  // zeros and the trampoline in the slot popped into pc.
  function Initial(words: nat, context: nat, trampoline: word, k: nat): word {
    if k + context < words then FILL else if k + 1 == words then trampoline else 0
  }

  ghost predicate Fresh(stack: seq<uint8>, words: nat, context: nat, trampoline: word) {
    forall k: nat | k < words :: Holds(stack, k, Initial(words, context, trampoline, k))
  }

  ghost predicate Painted(stack: seq<uint8>, n: nat) {
    forall k: nat | k < n :: Holds(stack, k, FILL)
  }

  ghost predicate Zeroed(stack: seq<uint8>, lo: nat, n: nat) {
    forall k: nat | lo <= k < n :: Holds(stack, k, 0)
  }

  lemma NothingYet(stack: seq<uint8>, lo: nat)
    ensures Painted(stack, 0) && Zeroed(stack, lo, lo)
  {
  }

  lemma PaintedOne(stack: seq<uint8>, stack': seq<uint8>, n: nat)
    requires Painted(stack, n) && SameOutside(stack, stack', 4 * n, 4 * n + 4)
    requires 4 * n + 4 <= |stack'| && Load32(stack', 4 * n) == FILL
    ensures Painted(stack', n + 1)
  {
    hide SameOutside, Load32;
    forall k: nat | k < n ensures Holds(stack', k, FILL) {
      StillHolds(stack, stack', n, FILL, k);
    }
  }

  lemma FewerPainted(stack: seq<uint8>, lo: nat, n: nat)
    requires Painted(stack, n) && lo <= n
    ensures Painted(stack, lo) && Zeroed(stack, lo, lo)
  {
  }

  lemma ZeroedOne(stack: seq<uint8>, stack': seq<uint8>, lo: nat, n: nat)
    requires lo <= n && Painted(stack, lo) && Zeroed(stack, lo, n)
    requires SameOutside(stack, stack', 4 * n, 4 * n + 4) && 4 * n + 4 <= |stack'| && Load32(stack', 4 * n) == 0
    ensures Painted(stack', lo) && Zeroed(stack', lo, n + 1)
  {
    hide SameOutside, Load32;
    forall k: nat | k < lo ensures Holds(stack', k, FILL) {
      StillHolds(stack, stack', n, FILL, k);
    }
    forall k: nat | lo <= k < n ensures Holds(stack', k, 0) {
      StillHolds(stack, stack', n, 0, k);
    }
  }

  lemma ContextBuilt(stack: seq<uint8>, stack': seq<uint8>, words: nat, context: nat, trampoline: word)
    requires 0 < context <= words && Painted(stack, words - context) && Zeroed(stack, words - context, words)
    requires SameOutside(stack, stack', 4 * (words - 1), 4 * (words - 1) + 4)
    requires 4 * words <= |stack'| && Load32(stack', 4 * (words - 1)) == trampoline
    ensures Fresh(stack', words, context, trampoline)
  {
    hide SameOutside, Load32;
    forall k: nat | k < words ensures Holds(stack', k, Initial(words, context, trampoline, k)) {
      if k < words - 1 {
        StillHolds(stack, stack', words - 1, Initial(words, context, trampoline, k), k);
      }
    }
  }

  // How much of a stack has never been written: the words still painted at its
  // low end.
  ghost predicate Untouched(stack: seq<uint8>, words: nat, n: nat) {
    n <= words && 4 * words <= |stack| && Painted(stack, n) && (n < words ==> !Holds(stack, n, FILL))
  }

  // All but the context, on a stack just created.
  lemma FreshIsUntouched(stack: seq<uint8>, words: nat, context: nat, trampoline: word, n: nat)
    requires Fresh(stack, words, context, trampoline) && 1 < context <= words && Untouched(stack, words, n)
    ensures n == words - context
  {
    var k := words - context;
    assert Holds(stack, k, Initial(words, context, trampoline, k));
    assert n < words ==> Holds(stack, n, Initial(words, context, trampoline, n));
    assert k < n ==> Holds(stack, k, FILL);
  }

  // The rounding of a requested stack size.
  function StackWords(words: word, context: nat): nat {
    var even := Wrap(words + 1) / 2 * 2;
    if even < context then context else even
  }

  // MM_HALOW_CONTEXT_WORDS, without and with the FPU.
  predicate IsContext(context: nat) {
    context == 10 || context == 26
  }

  // Even, room for a context, and no smaller than asked unless the request is
  // the largest word, which wraps.
  lemma StackWordsAreEnough(words: word, context: nat)
    requires IsContext(context)
    ensures var n := StackWords(words, context);
            && n % 2 == 0 && context <= n
            && (words <= n <==> words != WORD - 1)
            && (words != WORD - 1 && context <= words ==> n <= words + 1)
  {
  }

  // The words that fit a 32-bit size in bytes.
  const ADDRESSABLE: nat := 0x4000_0000

  lemma StackBytes(n: nat)
    requires n % 2 == 0
    ensures Wrap(4 * n) % ALIGN == 0
    ensures Wrap(4 * n) == 4 * n <==> n < ADDRESSABLE
  {
    assert 4 * n == 8 * (n / 2);
  }

  // The block malloc finds holds what is painted on it exactly below 2^30 words;
  // so painting stays inside it exactly then, or when there is none.
  lemma PaintStaysInside(bs: seq<Block>, poolSize: nat, n: nat)
    requires Canonical(bs, poolSize) && poolSize < HALF && n % 2 == 0
    ensures var size := Wrap(4 * n);
            Room(bs, poolSize, n) ==>
              && FirstFit(bs, size) < |bs|
              && (4 * n <= AllocAt(bs, FirstFit(bs, size), size)[FirstFit(bs, size)].size <==> n < ADDRESSABLE)
  {
    var size := Wrap(4 * n);
    StackBytes(n);
    if Room(bs, poolSize, n) {
      FirstFitIsComplete(bs, poolSize, size);
      var i := FirstFit(bs, size);
      AllocAddsOneLiveBlock(bs, poolSize, i, size);
      Bounds(AllocAt(bs, i, size), 0, poolSize, i);
    }
  }

  // Asked for 2^30 + 1 words, create paints 2^30 + 2 on a block of 8 bytes or so;
  // for 2^30 it gets none.
  lemma ALargeStackOverruns(poolSize: nat, context: nat)
    requires IsContext(context) && HDR + 8 <= poolSize < HALF
    ensures var bs, n := [Block(0, poolSize - HDR, false)], StackWords(ADDRESSABLE + 1, context);
            n == ADDRESSABLE + 2 && Wrap(4 * n) == 8 && Room(bs, poolSize, n)
    ensures StackWords(ADDRESSABLE, context) == ADDRESSABLE && Wrap(4 * ADDRESSABLE) == 0
  {
    var bs := [Block(0, poolSize - HDR, false)];
    assert Wrap(4 * (ADDRESSABLE + 2)) == 8;
    assert Vacant(Used(bs), poolSize, 0, 8);
  }

  // -- The heap, seen from the tasks -------------------------------------------

  // Live allocations that are not stacks, with their bytes.
  ghost function Others(l: Ledger): map<Block, seq<uint8>> {
    l.live - l.own.Values
  }

  ghost predicate Accounted(l: Ledger) {
    && (forall i :: i in l.own <==> i in l.order)
    && (forall i | i in l.own :: l.own[i] in l.live)
    && forall i, j | i in l.own && j in l.own && i != j :: l.own[i] != l.own[j]
  }

  // One call of task create, task delete, or reap.
  ghost predicate TaskStep(was: Ledger, now: Ledger) {
    || (exists i, b :: Enrolled(was, now, i, b))
    || (was.order == now.order && was.own == now.own && was.live == now.live)
    || Reaped(was, was.order, [], now)
  }

  // The tasks come and go without touching anything else in the heap.
  lemma StepKeepsOthers(was: Ledger, now: Ledger)
    requires Accounted(was) && TaskStep(was, now)
    ensures Others(now) == Others(was) && Accounted(now)
  {
    hide Enrolled, Reaped, Others, Accounted;
    if i, b :| Enrolled(was, now, i, b) {
      EnrollKeepsOthers(was, now, i, b);
    } else if Reaped(was, was.order, [], now) {
      ReapKeepsOthers(was, now);
    } else {
      SameOthers(was, now);
    }
  }

  lemma SameOthers(was: Ledger, now: Ledger)
    requires Accounted(was) && was.order == now.order && was.own == now.own && was.live == now.live
    ensures Others(now) == Others(was) && Accounted(now)
  {
  }

  lemma EnrollKeepsOthers(was: Ledger, now: Ledger, i: nat, b: Block)
    requires Accounted(was) && Enrolled(was, now, i, b)
    ensures Others(now) == Others(was) && Accounted(now)
  {
    hide Filled;
    assert now.own[i] == b;
    forall x ensures x in now.own.Values <==> x in was.own.Values || x == b {
      if x in was.own.Values {
        var k :| k in was.own && was.own[k] == x;
        assert now.own[k] == x;
      }
    }
  }

  lemma ReapKeepsOthers(was: Ledger, now: Ledger)
    requires Accounted(was) && Reaped(was, was.order, [], now)
    ensures Others(now) == Others(was) && Accounted(now)
  {
    hide SlotsReaped;
    var dead := Dying(was.table, was.order);
    forall x ensures x in was.own.Values <==> x in now.own.Values || x in Stacks(was.own, dead) {
      if x in was.own.Values {
        var k :| k in was.own && was.own[k] == x;
        assert k in dead || (k in now.own && now.own[k] == x);
      }
    }
  }

  // A history of the tasks alone leaves the rest of the heap as it was.
  lemma {:induction false} HistoryKeepsOthers(ls: seq<Ledger>)
    requires ls != [] && Accounted(ls[0])
    requires forall k: nat | k + 1 < |ls| :: TaskStep(ls[k], ls[k + 1])
    ensures Others(ls[|ls| - 1]) == Others(ls[0]) && Accounted(ls[|ls| - 1])
    decreases |ls|
  {
    hide TaskStep, Others, Accounted;
    if 1 < |ls| {
      var n := |ls| - 1;
      HistoryKeepsOthers(ls[..n]);
      StepKeepsOthers(ls[n - 1], ls[n]);
    }
  }

  // With no tasks before or after and the same other allocations, the heap's
  // block list is the same, down to the last header.
  lemma NoTasksLeaveNoTrace(before: Ledger, after: Ledger, bs: seq<Block>, cs: seq<Block>, n: nat)
    requires Accounted(before) && before.order == [] && Canonical(bs, n) && Used(bs) == before.live.Keys
    requires Accounted(after) && after.order == [] && Canonical(cs, n) && Used(cs) == after.live.Keys
    requires Others(before).Keys == Others(after).Keys
    ensures bs == cs
  {
    assert before.own == map[] && after.own == map[];
    assert Others(before) == before.live && Others(after) == after.live;
    ListIsDeterminedByLiveBlocks(bs, cs, 0, n);
  }

  // No two stacks share a byte, and all are inside the pool.
  lemma StacksAreDisjoint(table: seq<Task>, order: seq<nat>, own: map<nat, Block>, bs: seq<Block>, n: nat, base: nat,
                          context: nat, i: nat, j: nat)
    requires Canonical(bs, n) && Owns(table, order, own, Used(bs), base, context) && i in order && j in order
    ensures i < |table| && j < |table|
    ensures base <= table[i].stack && table[i].stack + 4 * table[i].words <= base + n
    ensures i != j ==> table[i].stack + 4 * table[i].words <= table[j].stack
                       || table[j].stack + 4 * table[j].words <= table[i].stack
  {
    var b, c := own[i], own[j];
    Bounds(bs, 0, n, IndexOf(bs, b));
    if i != j {
      var x, y := IndexOf(bs, b), IndexOf(bs, c);
      if x < y { Ordered(bs, 0, n, x, y); } else { Ordered(bs, 0, n, y, x); }
    }
  }
}

module TaskTables {
  import opened Lists
  import opened Words
  import opened Memory
  import opened Blocks
  import opened HeapMemory
  import opened TaskLists

  class TaskTable {
    const context: nat               // MM_HALOW_CONTEXT_WORDS
    const trampoline: word           // the address of the entry trampoline
    const heap: Heap
    const slots: array<Task>         // mm_halow_tasks
    var list: nat                    // mm_halow_task_list
    var woken: bool
    ghost var order: seq<nat>        // the slots on the list
    ghost var own: map<nat, Block>   // the heap block each one's stack is

    ghost predicate Valid()
      reads this, slots, heap, heap.mem, if heap.mem == null then {} else {heap.mem.data}
    {
      && IsContext(context) && heap.Valid() && heap.mem != null
      && Threads(slots[..], list, order) && InUse(slots[..], order)
      && Owns(slots[..], order, own, Used(heap.blocks), heap.base, context)
    }

    // The live blocks that are not stacks.
    ghost function Others(): set<Block>
      reads this, heap
    {
      heap.live.Keys - own.Values
    }

    ghost function Books(): Ledger
      reads this, slots, heap
    {
      Ledger(slots[..], order, own, heap.live)
    }

    constructor (max: nat, context: nat, trampoline: word, heap: Heap)
      requires heap.Valid() && heap.mem != null && IsContext(context)
      ensures Valid() && order == [] && this.heap == heap && slots.Length == max && fresh(slots)
    {
      this.context, this.trampoline, this.heap := context, trampoline, heap;
      slots := new Task[max](i => Task(0, max, 0, 0, 0, 0, Ready));
      list, woken, order, own := max, false, [], map[];
    }

    // The books balance, so that what is proved of the ledgers holds of the table.
    lemma BooksBalance()
      requires Valid()
      ensures Accounted(Books()) && Canonical(heap.blocks, heap.poolSize) && Used(heap.blocks) == heap.live.Keys
    {
    }

    // However the tasks of this table have come and gone since a time when there
    // were none: once there are none again, and as long as nobody else has used the
    // heap meanwhile, its block list is what it was then.
    lemma HistoryLeavesNoTrace(ls: seq<Ledger>, bs: seq<Block>)
      requires Valid() && order == []
      requires ls != [] && Accounted(ls[0]) && ls[0].order == [] && ls[|ls| - 1] == Books()
      requires forall k: nat | k + 1 < |ls| :: TaskStep(ls[k], ls[k + 1])
      requires Canonical(bs, heap.poolSize) && Used(bs) == ls[0].live.Keys
      ensures heap.blocks == bs
    {
      hide TaskStep;
      BooksBalance();
      HistoryKeepsOthers(ls);
      NoTasksLeaveNoTrace(ls[0], Books(), bs, heap.blocks, heap.poolSize);
    }

    // -- Creating --------------------------------------------------------------

    method FindFree() returns (i: nat)
      ensures i <= slots.Length && (i < slots.Length ==> slots[i].stack == 0)
      ensures forall k :: 0 <= k < i ==> slots[k].stack != 0
    {
      i := 0;
      while i < slots.Length && slots[i].stack != 0
        invariant i <= slots.Length && forall k :: 0 <= k < i ==> slots[k].stack != 0
      {
        i := i + 1;
      }
    }

    lemma PointsLive(p: nat, b: Block)
      requires heap.Valid() && heap.mem != null && heap.Points(p, b)
      ensures b in heap.live
    {
    }

    method Paint(p: nat, n: nat, ghost b: Block)
      requires heap.Valid() && heap.mem != null && heap.Points(p, b) && 4 * n <= b.size
      modifies heap`live, heap.mem, heap.mem.data
      ensures heap.Valid() && b in heap.live && heap.live == old(heap.live)[b := heap.live[b]]
      ensures Painted(heap.live[b], n)
    {
      hide Painted, SameOutside, Load32;
      hide Heap.Valid;
      PointsLive(p, b);
      ghost var was := heap.live;
      NothingYet(was[b], 0);
      for k := 0 to n
        invariant heap.Valid() && b in heap.live && heap.live == was[b := heap.live[b]]
        invariant Painted(heap.live[b], k)
      {
        ghost var s := heap.live[b];
        heap.Write32(p, k, FILL, b);
        PaintedOne(s, heap.live[b], k);
      }
    }

    // The context a new task starts from: zeros, and the trampoline on top.
    method BuildContext(p: nat, n: nat, ghost b: Block)
      requires heap.Valid() && heap.mem != null && heap.Points(p, b) && 4 * n <= b.size && 0 < context <= n
      requires b in heap.live && Painted(heap.live[b], n)
      modifies heap`live, heap.mem, heap.mem.data
      ensures heap.Valid() && b in heap.live && heap.live == old(heap.live)[b := heap.live[b]]
      ensures Fresh(heap.live[b], n, context, trampoline)
    {
      hide Painted, Zeroed, SameOutside, Fresh, Load32;
      hide Heap.Valid;
      ClearContext(p, n - context, n, b);
      ghost var s := heap.live[b];
      heap.Write32(p, n - 1, trampoline, b);
      ContextBuilt(s, heap.live[b], n, context, trampoline);
    }

    method ClearContext(p: nat, lo: nat, n: nat, ghost b: Block)
      requires heap.Valid() && heap.mem != null && heap.Points(p, b) && 4 * n <= b.size && lo <= n
      requires b in heap.live && Painted(heap.live[b], n)
      modifies heap`live, heap.mem, heap.mem.data
      ensures heap.Valid() && b in heap.live && heap.live == old(heap.live)[b := heap.live[b]]
      ensures Painted(heap.live[b], lo) && Zeroed(heap.live[b], lo, n)
    {
      hide Painted, Zeroed, SameOutside, Load32;
      hide Heap.Valid;
      ghost var was := heap.live;
      FewerPainted(was[b], lo, n);
      for k := lo to n
        invariant heap.Valid() && b in heap.live && heap.live == was[b := heap.live[b]]
        invariant Painted(heap.live[b], lo) && Zeroed(heap.live[b], lo, k)
      {
        ghost var s := heap.live[b];
        heap.Write32(p, k, 0, b);
        ZeroedOne(s, heap.live[b], lo, k);
      }
    }

    // *tail = task
    method Append(i: nat)
      requires Threads(slots[..], list, order) && i < slots.Length
      modifies this`list, slots
      ensures order != [] ==> order[|order| - 1] < slots.Length
      ensures list == if order == [] then i else old(list)
      ensures slots[..] == Filled(old(slots[..]), order, i, old(slots[i]))
    {
      var last, task := slots.Length, list;
      ghost var k: nat := 0;
      while task != slots.Length
        invariant k <= |order| && task == At(order, k, slots.Length) && last == At(order, k - 1, slots.Length)
        decreases |order| - k
      {
        assert LinkAt(slots[..], order, k) && slots[..][task] == slots[task];
        last := task;
        task := slots[task].next;
        k := k + 1;
      }
      assert k < |order| ==> LinkAt(slots[..], order, k);
      assert 0 < k ==> LinkAt(slots[..], order, k - 1);
      if last == slots.Length {
        list := i;
      } else {
        slots[last] := slots[last].(next := i);
      }
    }

    // mm_halow_sched_task_create(); the size of the table is NULL.
    method Create(entry: word, arg: word, size: word) returns (i: nat, overrun: bool, ghost b: Block)
      requires Valid()
      modifies this`list, this`order, this`own, this`woken, slots, heap`blocks, heap`live, heap.mem, heap.mem.data
      ensures Valid() && i <= slots.Length
      // NULL when every slot is taken, or the heap has no room for the stack;
      // nothing has changed then.
      ensures i == slots.Length <==>
                Full(old(slots[..]), slots.Length) || !Room(old(heap.blocks), heap.poolSize, StackWords(size, context))
      ensures i == slots.Length ==> !overrun
      ensures i == slots.Length ==> Books() == old(Books()) && list == old(list) && heap.blocks == old(heap.blocks)
      // Otherwise the painting runs off the end of the block exactly for a stack of
      // 2^30 words or more; the model stops there, with the block allocated.
      ensures i < slots.Length ==> (overrun <==> ADDRESSABLE <= StackWords(size, context))
      ensures overrun ==> b in heap.live && 4 * StackWords(size, context) > b.size
      // If not, the first free slot goes on the end of the list, with a new block of
      // the heap for a stack, and a context ready to be switched to.
      ensures i < slots.Length && !overrun ==>
        && Full(old(slots[..]), i) && Enrolled(old(Books()), Books(), i, b) && woken
        && Started(slots[i], entry, arg, StackWords(size, context), heap.base + b.off + HDR, context)
        && Fresh(heap.live[b], StackWords(size, context), context, trampoline)
      ensures !overrun ==> TaskStep(old(Books()), Books())
    {
      hide Heap.Valid, Enrolled, Reaped, Threads, InUse, Owns, StackWords, Started, Fresh, Room;
      ghost var n := StackWords(size, context);
      StackWordsAreEnough(size, context);
      i := FindFree();
      if i < slots.Length {
        i, overrun, b := Install(i, entry, arg, StackWords(size, context));
      } else {
        overrun, b := false, Block(0, 0, false);
      }
    }

    // The rest of it, once a slot has been found free.
    method Install(slot: nat, entry: word, arg: word, n: nat) returns (i: nat, overrun: bool, ghost b: Block)
      requires Valid() && slot < slots.Length && slots[slot].stack == 0 && context <= n && n % 2 == 0
      modifies this`list, this`order, this`own, this`woken, slots, heap`blocks, heap`live, heap.mem, heap.mem.data
      ensures Valid() && (i == slot || i == slots.Length)
      ensures i == slots.Length <==> !Room(old(heap.blocks), heap.poolSize, n)
      ensures i == slots.Length ==> Books() == old(Books()) && list == old(list) && heap.blocks == old(heap.blocks)
      ensures i == slots.Length ==> !overrun
      ensures i < slots.Length ==> (overrun <==> ADDRESSABLE <= n)
      ensures overrun ==> b in heap.live && 4 * n > b.size
      ensures i < slots.Length && !overrun ==>
        && Enrolled(old(Books()), Books(), i, b) && woken
        && Started(slots[i], entry, arg, n, heap.base + b.off + HDR, context)
        && Fresh(heap.live[b], n, context, trampoline)
    {
      hide Threads, InUse, Owns, Room, Fresh, Painted, Enrolled, Started;
      hide Heap.Valid;
      LiveIsUsed();
      ghost var was := heap.live;
      var p;
      p, overrun, b := NewStack(n);
      if p == 0 {
        return slots.Length, false, b;
      }
      if overrun {
        StillValid(was, b);
        return slot, true, b;
      }
      Enter(slot, entry, arg, n, p, b, was);
      return slot, false, b;
    }

    lemma LiveIsUsed()
      requires heap.Valid() && heap.mem != null
      ensures heap.live.Keys == Used(heap.blocks)
    {
    }

    // Fill in slot i, and link it in.  was is the heap before its stack was allocated.
    method Enter(i: nat, entry: word, arg: word, n: nat, p: word, ghost b: Block, ghost was: map<Block, seq<uint8>>)
      requires heap.Valid() && heap.mem != null && IsContext(context) && Threads(slots[..], list, order)
      requires InUse(slots[..], order) && Owns(slots[..], order, own, was.Keys, heap.base, context)
      requires i < slots.Length && slots[i].stack == 0 && context <= n && n % 2 == 0
      requires heap.Points(p, b) && 0 < p && p % 8 == 0 && 4 * n <= b.size && b !in was && b in heap.live
      requires heap.live == was[b := heap.live[b]] && Painted(heap.live[b], n)
      modifies this`list, this`order, this`own, this`woken, slots, heap`live, heap.mem, heap.mem.data
      ensures Valid() && woken && Enrolled(old(Ledger(slots[..], order, own, was)), Books(), i, b)
      ensures Started(slots[i], entry, arg, n, heap.base + b.off + HDR, context)
      ensures Fresh(heap.live[b], n, context, trampoline)
    {
      hide Threads, InUse, Owns, Fresh, Painted, Enrolled, Filled;
      hide Heap.Valid;
      ghost var table := slots[..];
      slots[i] := Task(p + 4 * (n - context), slots.Length, p, n, entry, arg, Ready);
      ghost var t := slots[i];
      BuildContext(p, n, b);
      Enroll(table, list, order, own, was, heap.base, context, i, t, b, heap.live);
      assert slots[..] == table[i := t];
      FilledTwice(table, order, i, t);
      Append(i);
      order, own, woken := order + [i], own[i := b], true;
      LiveIsUsed();
    }

    // A block more in the heap takes nothing from the table.
    lemma StillValid(was: map<Block, seq<uint8>>, b: Block)
      requires heap.Valid() && heap.mem != null && heap.live.Keys == was.Keys + {b} && IsContext(context)
      requires Threads(slots[..], list, order) && InUse(slots[..], order)
      requires Owns(slots[..], order, own, was.Keys, heap.base, context)
      ensures Valid()
    {
      hide Threads, InUse;
      LiveIsUsed();
    }

    // malloc, and the loop that paints what it returns.  Of a block too small for
    // that, the model paints nothing.
    method NewStack(n: nat) returns (p: word, overrun: bool, ghost b: Block)
      requires heap.Valid() && heap.mem != null && 0 < n && n % 2 == 0
      modifies heap`blocks, heap`live, heap.mem, heap.mem.data
      ensures heap.Valid()
      ensures p == 0 <==> !Room(old(heap.blocks), heap.poolSize, n)
      ensures p == 0 ==> heap.blocks == old(heap.blocks) && heap.live == old(heap.live) && !overrun
      ensures p != 0 ==>
        && heap.Points(p, b) && p % 8 == 0 && b !in old(heap.live) && b in heap.live
        && heap.live == old(heap.live)[b := heap.live[b]]
        && (overrun <==> ADDRESSABLE <= n) && (overrun <==> 4 * n > b.size)
        && (!overrun ==> Painted(heap.live[b], n))
    {
      hide NoRoom, LowestFit, AfterMalloc, Painted, Wrap, Round;
      hide Heap.Valid;
      overrun := false;
      StackBytes(n);
      RoundedAlready(Wrap(4 * n));
      p, b := heap.Malloc(Wrap(4 * n));
      if p != 0 {
        InPool(b);
        if n < ADDRESSABLE {
          Paint(p, n, b);
        } else {
          overrun := true;
        }
      }
    }

    lemma InPool(b: Block)
      requires heap.Valid() && heap.mem != null && b in Used(heap.blocks)
      ensures b.size <= heap.poolSize < HALF && b in heap.live
    {
      Bounds(heap.blocks, 0, heap.poolSize, IndexOf(heap.blocks, b));
    }

    // mm_halow_sched_stack_free_words() on a task
    method FreeWords(i: nat) returns (n: nat)
      requires Valid() && i in order
      ensures i in own && own[i] in heap.live && i < slots.Length && Untouched(heap.live[own[i]], slots[i].words, n)
    {
      hide Threads;
      ghost var b := own[i];
      n := 0;
      while n < slots[i].words
        invariant n <= slots[i].words && Painted(heap.live[b], n)
      {
        var v := heap.Read32(slots[i].stack, n, b);
        if v != FILL {
          return;
        }
        n := n + 1;
      }
    }

    // -- Deleting --------------------------------------------------------------

    // mm_halow_sched_task_delete(), its changes to the table.  task is NULL for
    // the task running, cur, which then leaves by a context switch.
    method Delete(task: nat, cur: nat)
      requires Valid() && (task == slots.Length || task in order) && (cur == slots.Length || cur in order)
      modifies slots, this`woken
      ensures Valid()
      ensures TaskStep(old(Books()), Books())
      ensures var i := if task == slots.Length then cur else task;
              && (i == slots.Length ==> woken == old(woken) && slots[..] == old(slots[..]))
              && (i != slots.Length ==> woken && i < slots.Length
                                        && slots[..] == old(slots[..])[i := old(slots[..])[i].(state := Dead)])
    {
      hide Threads, Owns;
      var i := task;
      if task == slots.Length {
        i := cur;
        if i == slots.Length {
          return;
        }
      }
      ghost var was := slots[..];
      slots[i] := slots[i].(state := Dead);
      woken := true;
      KeepsThreads(was, slots[..], list, order);
      StacksKept(was, slots[..], order, own, Used(heap.blocks), heap.base, context);
    }

    // -- Reaping ---------------------------------------------------------------

    // *prev = next
    method Unhook(i: nat, last: nat, next: nat, ghost kept: seq<nat>, ghost rest: seq<nat>)
      requires Threads(slots[..], list, kept + [i] + rest)
      requires i < slots.Length && next == slots[i].next && last == At(kept, |kept| - 1, slots.Length)
      modifies this`list, slots
      ensures Threads(slots[..], list, kept + rest)
      ensures slots[..] == Unhooked(old(slots[..]), i, last)
      ensures Distinct(kept + [i] + rest) && SameStacks(old(slots[..]), slots[..])
      ensures (last < slots.Length ==> last != i)
    {
      ghost var was, all, n := slots[..], kept + [i] + rest, |kept|;
      if kept != [] {
        assert LinkAt(was, all, n - 1) && all[n - 1] == last && all[n] == i;
      }
      if last == slots.Length {
        list := next;
      } else {
        slots[last] := slots[last].(next := next);
      }
      Unlinked(was, slots[..], old(list), kept, i, rest);
    }

    // The branch of the loop that unlinks slot i, after the task in slot last if
    // there is one, and frees its stack.
    method Unlink(i: nat, last: nat, next: nat, ghost kept: seq<nat>, ghost rest: seq<nat>)
      requires Valid() && order == kept + [i] + rest
      requires i < slots.Length && next == slots[i].next && last == At(kept, |kept| - 1, slots.Length)
      modifies this`list, this`order, this`own, slots, heap`blocks, heap`live, heap.mem, heap.mem.data
      ensures Valid() && order == kept + rest && own == old(own) - {i}
      ensures i in old(own) && heap.live == old(heap.live) - {old(own)[i]}
      ensures slots[..] == Cleared(Unhooked(old(slots[..]), i, last), i)
    {
      hide Threads, Owns, InUse, SameStacks, Distinct, FreeAt, IndexOf, Unhooked, At;
      ghost var was, used := slots[..], Used(heap.blocks);
      Unhook(i, last, next, kept, rest);
      ghost var now := slots[..];
      StacksKept(was, now, order, own, used, heap.base, context);
      Retired(now, list, kept, i, rest, own, used, heap.base, context);
      StackIsLive(now, order, own, used, heap.base, context, i);
      heap.Free(slots[i].stack, own[i]);
      slots[i] := slots[i].(stack := 0, next := slots.Length);
      order, own := kept + rest, own - {i};
    }

    // The body of the loop, at the task in slot i.
    method Visit(ghost was: Ledger, ghost done: seq<nat>, i: nat, next: nat, last: nat, ghost rest: seq<nat>)
      returns (last': nat)
      requires Valid() && Reaped(was, done, [i] + rest, Books())
      requires Sound(was) && was.order == done + [i] + rest
      requires last == At(Alive(was.table, done), |Alive(was.table, done)| - 1, slots.Length)
      requires i < slots.Length && next == slots[i].next
      modifies this`list, this`order, this`own, slots, heap`blocks, heap`live, heap.mem, heap.mem.data
      ensures Valid() && Reaped(was, done + [i], rest, Books()) && next == At(rest, 0, slots.Length)
      ensures last' == At(Alive(was.table, done + [i]), |Alive(was.table, done + [i])| - 1, slots.Length)
    {
      hide Reaped, Owns, InUse, Distinct, Unhooked, Cleared, Alive, Dying, Sound;
      ghost var kept := Alive(was.table, done);
      Reaching(was, done, i, rest, Books(), list);
      OneMore(was, done, i);
      LastKept(was.table, done);
      if slots[i].state.Dead? {
        ReapedDead(was, done, i, rest, Books(), last);
        assert kept + ([i] + rest) == kept + [i] + rest;
        Unlink(i, last, next, kept, rest);
        last' := last;
      } else {
        ReapedAlive(was, done, i, rest, Books());
        last' := i;
      }
    }

    // mm_halow_sched_reap()
    method Reap()
      requires Valid()
      modifies this`list, this`order, this`own, slots, heap`blocks, heap`live, heap.mem, heap.mem.data
      ensures Valid()
      ensures Reaped(old(Books()), old(order), [], Books()) && TaskStep(old(Books()), Books())
    {
      ghost var was := Books();
      assert Sound(was);
      WalkAll(was);
    }

    method WalkAll(ghost was: Ledger)
      requires Valid() && Sound(was) && was == Books()
      modifies this`list, this`order, this`own, slots, heap`blocks, heap`live, heap.mem, heap.mem.data
      ensures Valid() && Reaped(was, was.order, [], Books())
    {
      hide Reaped, Owns, Sound, InUse, Distinct, Alive;
      ghost var done, rest := [], order;
      ReapedNone(was);
      var last, task := slots.Length, list;
      while task != slots.Length
        invariant Valid() && Sound(was) && was.order == done + rest && task == At(rest, 0, slots.Length)
        invariant Reaped(was, done, rest, Books()) && |was.table| == slots.Length
        invariant var kept := Alive(was.table, done); last == At(kept, |kept| - 1, slots.Length)
        decreases |rest|
      {
        AtTheEnd(was, done, rest);
        var next := slots[task].next;
        last := Visit(was, done, task, next, last, rest[1..]);
        done, rest, task := done + [task], rest[1..], next;
      }
      AtTheEnd(was, done, rest);
      assert done + [] == done;
    }
  }
}
