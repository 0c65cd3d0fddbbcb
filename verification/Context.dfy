// The context switch, as what it does to a word-addressed memory, and what a
// task can rely on across it.
module Context {
  import opened Words
  import opened Blocks
  import opened TaskLists

  // The registers a switch preserves, from the one saved at the lowest address:
  // d8-d15 where there is an FPU, r3-r11, and lr (read back into pc).  sp counts
  // words.
  datatype Cpu = Cpu(ram: seq<word>, regs: seq<word>, sp: nat)

  function Splice(m: seq<word>, at: nat, s: seq<word>): (r: seq<word>)
    requires at + |s| <= |m|
    ensures |r| == |m|
  {
    m[..at] + s + m[at + |s|..]
  }

  // mm_halow_context_switch(): push, change stacks, pop.
  function Switched(c: Cpu, to: nat): Cpu
    requires |c.regs| <= c.sp <= |c.ram| && to + |c.regs| <= |c.ram|
  {
    var n := |c.regs|;
    var ram := Splice(c.ram, c.sp - n, c.regs);
    Cpu(ram, ram[to..to + n], to + n)
  }

  class Core {
    const ram: array<word>
    const regs: array<word>
    var sp: nat

    ghost function Now(): Cpu
      reads this, ram, regs
    {
      Cpu(ram[..], regs[..], sp)
    }

    constructor (ram: array<word>, regs: array<word>, sp: nat)
      ensures this.ram == ram && this.regs == regs && this.sp == sp
    {
      this.ram, this.regs, this.sp := ram, regs, sp;
    }

    // Returns what is stored through from_sp.
    method Switch(to: nat) returns (from: nat)
      requires ram != regs && regs.Length <= sp <= ram.Length && to + regs.Length <= ram.Length
      modifies this, ram, regs
      ensures Now() == Switched(old(Now()), to) && from + regs.Length == old(sp)
    {
      hide Splice;
      Push();
      from := sp;
      sp := to;
      Pop();
    }

    method Push()
      requires ram != regs && regs.Length <= sp <= ram.Length
      modifies this`sp, ram
      ensures sp + regs.Length == old(sp) && ram[..] == Splice(old(ram[..]), sp, regs[..])
    {
      ghost var top := sp;
      var k := regs.Length;
      while k > 0
        invariant 0 <= k <= regs.Length && sp == top - (regs.Length - k)
        invariant forall j :: 0 <= j < ram.Length ==>
                    ram[j] == if sp <= j < top then regs[j - (top - regs.Length)] else old(ram[j])
      {
        k := k - 1;
        sp := sp - 1;
        ram[sp] := regs[k];
      }
    }

    method Pop()
      requires ram != regs && sp + regs.Length <= ram.Length
      modifies this`sp, regs
      ensures sp == old(sp) + regs.Length && regs[..] == ram[old(sp)..sp]
    {
      for k := 0 to regs.Length
        invariant sp == old(sp) + k && forall j :: 0 <= j < k ==> regs[j] == ram[old(sp) + j]
      {
        regs[k] := ram[sp];
        sp := sp + 1;
      }
    }
  }

  // -- Contexts ----------------------------------------------------------------

  datatype Area = Area(lo: nat, hi: nat)

  datatype Left = Left(regs: seq<word>, sp: nat)

  // The context running, where each of the others left off, the stack of each,
  // and (a record kept for the proof) with what registers and sp each left.
  datatype World = World(cpu: Cpu, cur: nat, saved: map<nat, nat>, area: map<nat, Area>, left: map<nat, Left>)

  ghost predicate Apart(a: Area, b: Area) {
    a.hi <= b.lo || b.hi <= a.lo
  }

  // Nothing in a has been written.
  ghost predicate Spared(m: seq<word>, m': seq<word>, a: Area) {
    |m'| == |m| && forall k | 0 <= k < |m| && a.lo <= k < a.hi :: m'[k] == m[k]
  }

  // A stack pointer, 8-byte aligned, with room below it to save a context.
  ghost predicate Balanced(sp: nat, a: Area, n: nat) {
    a.lo + n <= sp <= a.hi && sp % 2 == 0
  }

  ghost predicate Parked(w: World, n: nat, i: nat)
    requires i in w.saved && i in w.left && i in w.area
  {
    var l := w.left[i];
    && |l.regs| == n && Balanced(l.sp, w.area[i], n) && w.saved[i] + n == l.sp
    && w.area[i].hi <= |w.cpu.ram| && w.cpu.ram[w.saved[i]..l.sp] == l.regs
  }

  // Everybody has a stack apart from all others, and whoever is not running is parked.
  ghost predicate Inv(w: World, n: nat) {
    && n % 2 == 0 && |w.cpu.regs| == n && Placed(w) && AllApart(w.area)
    && w.area[w.cur].hi <= |w.cpu.ram| && Balanced(w.cpu.sp, w.area[w.cur], n)
    && forall i | i in w.saved :: Parked(w, n, i)
  }

  ghost predicate Placed(w: World) {
    w.cur !in w.saved && w.area.Keys == w.saved.Keys + {w.cur} && w.left.Keys == w.saved.Keys
  }

  ghost predicate AllApart(area: map<nat, Area>) {
    forall i, j | i in area && j in area && i != j :: Apart(area[i], area[j])
  }

  // -- Steps -------------------------------------------------------------------

  // The context running computes: its registers and the memory are anyone's
  // guess, but it spares the stacks of the others, and leaves room on its own
  // for a context.
  ghost predicate Works(w: World, v: World, n: nat) {
    && w.cur in w.area && v == w.(cpu := v.cpu) && |v.cpu.regs| == n && |v.cpu.ram| == |w.cpu.ram|
    && Balanced(v.cpu.sp, w.area[w.cur], n)
    && forall i | i in w.saved && i in w.area :: Spared(w.cpu.ram, v.cpu.ram, w.area[i])
  }

  ghost predicate Switches(w: World, v: World, to: nat) {
    && to in w.saved && |w.cpu.regs| <= w.cpu.sp <= |w.cpu.ram| && w.saved[to] + |w.cpu.regs| <= |w.cpu.ram|
    && v == World(Switched(w.cpu, w.saved[to]), to, (w.saved - {to})[w.cur := w.cpu.sp - |w.cpu.regs|], w.area,
                  (w.left - {to})[w.cur := Left(w.cpu.regs, w.cpu.sp)])
  }

  // What a new task is started from.
  function Entry(n: nat, trampoline: word): seq<word>
    requires 0 < n
  {
    seq(n - 1, _ => 0) + [trampoline]
  }

  // A new context, on a stack apart from all others.
  ghost predicate Creates(w: World, v: World, n: nat, i: nat, a: Area, trampoline: word) {
    && i !in w.area && 0 < n && a.hi <= |w.cpu.ram| && Balanced(a.hi, a, n)
    && (forall j | j in w.area :: Apart(a, w.area[j]))
    && |v.cpu.ram| == |w.cpu.ram| && v.cpu.ram[a.hi - n..a.hi] == Entry(n, trampoline)
    && (forall j | j in w.area :: Spared(w.cpu.ram, v.cpu.ram, w.area[j]))
    && v == World(w.cpu.(ram := v.cpu.ram), w.cur, w.saved[i := a.hi - n], w.area[i := a],
                  w.left[i := Left(Entry(n, trampoline), a.hi)])
  }

  // A context that will not be switched to again gives up its stack.
  ghost predicate Removes(w: World, v: World, i: nat) {
    i in w.saved && v == w.(saved := w.saved - {i}, area := w.area - {i}, left := w.left - {i})
  }

  ghost predicate Next(w: World, v: World, n: nat) {
    || Works(w, v, n)
    || (exists to :: Switches(w, v, to))
    || (exists i, a, t :: Creates(w, v, n, i, a, t))
    || (exists i :: Removes(w, v, i))
  }

  // -- Safety ------------------------------------------------------------------

  // A context whose stack is spared stays parked.
  lemma StaysParked(w: World, v: World, n: nat, i: nat)
    requires i in w.saved && i in w.left && i in w.area && Parked(w, n, i)
    requires i in v.saved && i in v.left && i in v.area
    requires v.saved[i] == w.saved[i] && v.left[i] == w.left[i] && v.area[i] == w.area[i]
    requires Spared(w.cpu.ram, v.cpu.ram, w.area[i])
    ensures Parked(v, n, i)
  {
    var lo, hi := w.saved[i], w.left[i].sp;
    assert v.cpu.ram[lo..hi] == w.cpu.ram[lo..hi];
  }

  lemma WorksKeeps(w: World, v: World, n: nat)
    requires Inv(w, n) && Works(w, v, n)
    ensures Inv(v, n)
  {
    hide Parked, Spared, Apart;
    forall i | i in v.saved ensures Parked(v, n, i) {
      StaysParked(w, v, n, i);
    }
  }

  // The push of a switch goes below the stack pointer, inside the stack left.
  lemma SpliceSpares(m: seq<word>, at: nat, s: seq<word>, a: Area, b: Area)
    requires a.lo <= at && at + |s| <= a.hi <= |m| && Apart(a, b)
    ensures Spared(m, Splice(m, at, s), b) && Splice(m, at, s)[at..at + |s|] == s
  {
  }

  // Switching to a context resumes it with exactly the registers and stack
  // pointer it left with, and parks the one that was running.
  lemma SwitchResumes(w: World, v: World, n: nat, to: nat)
    requires Inv(w, n) && Switches(w, v, to)
    ensures v.cpu.regs == w.left[to].regs && v.cpu.sp == w.left[to].sp
    ensures Inv(v, n)
  {
    hide Parked, Spared, Apart, Splice;
    var at := w.cpu.sp - n;
    forall i | i in w.saved ensures Spared(w.cpu.ram, v.cpu.ram, w.area[i]) {
      SpliceSpares(w.cpu.ram, at, w.cpu.regs, w.area[w.cur], w.area[i]);
    }
    ParkedFrame(w, v, n, to);
    SpliceSpares(w.cpu.ram, at, w.cpu.regs, w.area[w.cur], w.area[to]);
    JustLeft(w, v, n);
    forall i | i in v.saved ensures Parked(v, n, i) {
      if i != w.cur { StaysParked(w, v, n, i); }
    }
    assert v.area.Keys == v.saved.Keys + {v.cur};
  }

  lemma ParkedFrame(w: World, v: World, n: nat, to: nat)
    requires to in w.saved && to in w.left && to in w.area && Parked(w, n, to)
    requires Spared(w.cpu.ram, v.cpu.ram, w.area[to])
    ensures w.left[to].sp == w.saved[to] + n <= |v.cpu.ram| && v.cpu.ram[w.saved[to]..w.left[to].sp] == w.left[to].regs
    ensures |w.left[to].regs| == n && Balanced(w.left[to].sp, w.area[to], n) && w.area[to].hi <= |w.cpu.ram|
  {
    assert v.cpu.ram[w.saved[to]..w.left[to].sp] == w.cpu.ram[w.saved[to]..w.left[to].sp];
  }

  lemma JustLeft(w: World, v: World, n: nat)
    requires |w.cpu.regs| == n && w.cur in w.area && w.area[w.cur].hi <= |w.cpu.ram|
    requires Balanced(w.cpu.sp, w.area[w.cur], n)
    requires |v.cpu.ram| == |w.cpu.ram| && v.cpu.ram[w.cpu.sp - n..w.cpu.sp] == w.cpu.regs
    requires w.cur in v.saved && w.cur in v.left && w.cur in v.area
    requires v.saved[w.cur] == w.cpu.sp - n && v.left[w.cur] == Left(w.cpu.regs, w.cpu.sp)
    requires v.area[w.cur] == w.area[w.cur]
    ensures Parked(v, n, w.cur)
  {
  }

  lemma CreatesKeeps(w: World, v: World, n: nat, i: nat, a: Area, trampoline: word)
    requires Inv(w, n) && Creates(w, v, n, i, a, trampoline)
    ensures Inv(v, n)
  {
    hide Spared, Parked, Balanced, Entry, Apart, AllApart;
    AreasStayApart(w.area, i, a);
    NewlyParked(w, v, n, i, a, trampoline);
    OthersStayParked(w, v, n, i, a, trampoline);
  }

  lemma OthersStayParked(w: World, v: World, n: nat, i: nat, a: Area, trampoline: word)
    requires Inv(w, n) && Creates(w, v, n, i, a, trampoline)
    ensures forall j | j in w.saved :: j in v.saved && j in v.left && j in v.area && Parked(v, n, j)
  {
    hide Spared, Parked, Balanced, Entry, Apart, AllApart;
    forall j | j in w.saved ensures j in v.saved && j in v.left && j in v.area && Parked(v, n, j) {
      StaysParked(w, v, n, j);
    }
  }

  lemma AreasStayApart(area: map<nat, Area>, i: nat, a: Area)
    requires i !in area && AllApart(area) && forall j | j in area :: Apart(a, area[j])
    ensures AllApart(area[i := a])
  {
  }

  lemma NewlyParked(w: World, v: World, n: nat, i: nat, a: Area, trampoline: word)
    requires Creates(w, v, n, i, a, trampoline)
    ensures Parked(v, n, i)
  {
    hide Spared, Apart;
  }

  lemma RemovesKeeps(w: World, v: World, n: nat, i: nat)
    requires Inv(w, n) && Removes(w, v, i)
    ensures Inv(v, n)
  {
    hide Apart, Balanced, Parked;
    forall j | j in v.saved ensures Parked(v, n, j) {
      StaysParked(w, v, n, j);
    }
  }

  lemma NextInv(w: World, v: World, n: nat)
    requires Inv(w, n) && Next(w, v, n)
    ensures Inv(v, n)
  {
    hide Inv, Works, Switches, Creates, Removes;
    if Works(w, v, n) {
      WorksKeeps(w, v, n);
    } else if to :| Switches(w, v, to) {
      SwitchResumes(w, v, n, to);
    } else if i, a, t :| Creates(w, v, n, i, a, t) {
      CreatesKeeps(w, v, n, i, a, t);
    } else {
      var i :| Removes(w, v, i);
      RemovesKeeps(w, v, n, i);
    }
  }

  // -- Runs --------------------------------------------------------------------

  ghost predicate StepAt(ws: seq<World>, n: nat, k: nat)
    requires k + 1 < |ws|
  {
    Next(ws[k], ws[k + 1], n)
  }

  ghost predicate Run(ws: seq<World>, n: nat) {
    ws != [] && Inv(ws[0], n) && forall k: nat | k + 1 < |ws| :: StepAt(ws, n, k)
  }

  lemma {:induction false} RunInv(ws: seq<World>, n: nat, k: nat)
    requires Run(ws, n) && k < |ws|
    ensures Inv(ws[k], n)
    decreases k
  {
    hide Inv, Next;
    if k > 0 {
      RunInv(ws, n, k - 1);
      assert StepAt(ws, n, k - 1);
      NextInv(ws[k - 1], ws[k], n);
    }
  }

  // A context parked before and after a step has the same to go back to.
  lemma LeftStays(w: World, v: World, n: nat, c: nat)
    requires Inv(w, n) && Next(w, v, n) && c in w.saved && c in v.saved
    ensures c in w.left && c in v.left && v.left[c] == w.left[c]
  {
    hide Parked, Spared, Apart, Balanced, Entry, Switched;
  }

  ghost predicate ParkedFrom(ws: seq<World>, c: nat, j: nat, k: nat) {
    j <= k < |ws| && forall m | j <= m <= k :: c in ws[m].saved
  }

  lemma {:induction false} LeftThroughout(ws: seq<World>, n: nat, c: nat, j: nat, k: nat)
    requires Run(ws, n) && ParkedFrom(ws, c, j, k)
    ensures c in ws[j].left && c in ws[k].left && ws[k].left[c] == ws[j].left[c]
    decreases k - j
  {
    hide Inv, Next;
    RunInv(ws, n, k);
    if j < k {
      LeftThroughout(ws, n, c, j, k - 1);
      RunInv(ws, n, k - 1);
      assert StepAt(ws, n, k - 1);
      LeftStays(ws[k - 1], ws[k], n, c);
    } else {
      ParkedHasLeft(ws[k], n, c);
    }
  }

  lemma ParkedHasLeft(w: World, n: nat, c: nat)
    requires Inv(w, n) && c in w.saved
    ensures c in w.left
  {
  }

  lemma ResumedBySwitch(w: World, v: World, n: nat, c: nat)
    requires Inv(w, n) && Next(w, v, n) && c in w.saved && v.cur == c
    ensures Switches(w, v, c)
  {
  }

  // However the steps of all contexts interleave, a context that switches away
  // has its own registers and stack pointer back when it next runs.
  lemma ResumesAsItLeft(ws: seq<World>, n: nat, c: nat, j: nat, k: nat, to: nat)
    requires Run(ws, n) && ParkedFrom(ws, c, j + 1, k) && k + 1 < |ws|
    requires ws[j].cur == c && Switches(ws[j], ws[j + 1], to)
    requires ws[k + 1].cur == c
    ensures ws[k + 1].cpu.regs == ws[j].cpu.regs && ws[k + 1].cpu.sp == ws[j].cpu.sp
  {
    hide Inv, Next, Switched;
    LeftThroughout(ws, n, c, j + 1, k);
    RunInv(ws, n, k);
    assert StepAt(ws, n, k);
    ResumedBySwitch(ws[k], ws[k + 1], n, c);
    SwitchResumes(ws[k], ws[k + 1], n, c);
  }

  // A new context first runs in the trampoline, with its whole stack free.
  lemma StartsInTheTrampoline(ws: seq<World>, n: nat, c: nat, a: Area, trampoline: word, j: nat, k: nat)
    requires Run(ws, n) && ParkedFrom(ws, c, j + 1, k) && k + 1 < |ws|
    requires Creates(ws[j], ws[j + 1], n, c, a, trampoline) && ws[k + 1].cur == c
    ensures |ws[k + 1].cpu.regs| == n > 0 && ws[k + 1].cpu.regs[n - 1] == trampoline
    ensures ws[k + 1].cpu.sp == a.hi && a.hi % 2 == 0
  {
    hide Inv, Next, Switched;
    LeftThroughout(ws, n, c, j + 1, k);
    RunInv(ws, n, k);
    assert StepAt(ws, n, k);
    ResumedBySwitch(ws[k], ws[k + 1], n, c);
    SwitchResumes(ws[k], ws[k + 1], n, c);
  }

  // -- The stacks are the heap's -----------------------------------------------

  // The stack of a task, in words.
  function StackArea(t: Task): Area {
    Area(t.stack / 4, t.stack / 4 + t.words)
  }

  lemma BytesToWords(s: nat, w: nat, t: nat, v: nat)
    requires s % 8 == 0 && t % 8 == 0 && (s + 4 * w <= t || t + 4 * v <= s)
    ensures s / 4 * 4 == s && s / 4 % 2 == 0 && (s / 4 + w <= t / 4 || t / 4 + v <= s / 4)
  {
  }

  lemma StackIsAligned(table: seq<Task>, order: seq<nat>, own: map<nat, Block>, bs: seq<Block>, base: nat,
                       context: nat, i: nat)
    requires Aligned(bs) && Owns(table, order, own, Used(bs), base, context) && base % ALIGN == 0 && i in order
    ensures i < |table| && table[i].stack % 8 == 0 && table[i].words % 2 == 0
  {
    var b := own[i];
    assert bs[IndexOf(bs, b)].off % ALIGN == 0;
    assert table[i].stack == base + b.off + HDR;
  }

  // The stacks of distinct tasks are apart because the heap's blocks are.
  lemma StackAreasAreApart(table: seq<Task>, order: seq<nat>, own: map<nat, Block>, bs: seq<Block>, n: nat, base: nat,
                           context: nat, i: nat, j: nat)
    requires Canonical(bs, n) && Owns(table, order, own, Used(bs), base, context) && base % ALIGN == 0
    requires i in order && j in order && i != j
    ensures i < |table| && j < |table| && Apart(StackArea(table[i]), StackArea(table[j]))
    ensures 4 * StackArea(table[i]).lo == table[i].stack && StackArea(table[i]).hi % 2 == 0
  {
    hide Tiles, Coalesced, Aligned, Owns, Used;
    StacksAreDisjoint(table, order, own, bs, n, base, context, i, j);
    StackIsAligned(table, order, own, bs, base, context, i);
    StackIsAligned(table, order, own, bs, base, context, j);
    BytesToWords(table[i].stack, table[i].words, table[j].stack, table[j].words);
  }

  // The context a task is created with is one a switch restores.
  lemma FreshIsAnEntry(stack: seq<uint8>, words: nat, n: nat, trampoline: word, k: nat)
    requires Fresh(stack, words, n, trampoline) && 0 < n <= words && k < n
    ensures Holds(stack, words - n + k, Entry(n, trampoline)[k])
  {
    assert Holds(stack, words - n + k, Initial(words, n, trampoline, words - n + k));
  }
}
