// The right to service the transceiver: claims that nest within a context and
// exclude the other one.
module Claims {
  import opened Lists

  datatype Owner = Nobody | Thread | Irq

  const DEPTHS: nat := 256         // the values of the uint8_t depth

  // The two variables, and how many claims each context has open: granted and
  // not yet released.
  datatype State = State(owner: Owner, depth: nat, thread: nat, irq: nat)

  // A call to claim, or a release of a claim granted before.
  datatype Op = Enter(irq: bool) | Leave(irq: bool)

  const START := State(Nobody, 0, 0, 0)

  function Me(irq: bool): Owner {
    if irq then Irq else Thread
  }

  function Open(s: State, irq: bool): nat {
    if irq then s.irq else s.thread
  }

  function WithOpen(s: State, irq: bool, n: nat): State {
    if irq then s.(irq := n) else s.(thread := n)
  }

  predicate Granted(s: State, irq: bool) {
    s.owner == Nobody || s.owner == Me(irq)
  }

  // The uint8_t depth, one up.
  function Deeper(depth: nat): nat {
    (depth + 1) % DEPTHS
  }

  lemma DeeperIsMore(depth: nat)
    ensures depth + 1 < DEPTHS ==> Deeper(depth) == depth + 1
    ensures Deeper(depth) < DEPTHS && Deeper(DEPTHS - 1) == 0
  {
  }

  function Claimed(s: State, irq: bool): State {
    if Granted(s, irq)
    then WithOpen(s, irq, Open(s, irq) + 1).(owner := Me(irq), depth := Deeper(s.depth))
    else s
  }

  function Released(s: State, irq: bool): State {
    var r := WithOpen(s, irq, if Open(s, irq) > 0 then Open(s, irq) - 1 else 0);
    if s.depth == 0 then r
    else r.(depth := s.depth - 1, owner := if s.depth == 1 then Nobody else s.owner)
  }

  function Do(s: State, op: Op): State {
    match op
    case Enter(irq) => Claimed(s, irq)
    case Leave(irq) => Released(s, irq)
  }

  // Releases are of claims that were granted.
  predicate Proper(s: State, op: Op) {
    op.Leave? ==> Open(s, op.irq) > 0
  }

  // What the claims are for: nobody owns the transceiver exactly when no claim
  // is open, the depth counts the open claims, and only the owner has any.
  predicate Sound(s: State) {
    && (s.owner == Nobody <==> s.depth == 0) && s.depth == s.thread + s.irq
    && (s.thread > 0 ==> s.owner == Thread) && (s.irq > 0 ==> s.owner == Irq)
  }

  class Service {
    var owner: Owner                 // mm_halow_service_owner
    var depth: nat                   // mm_halow_service_depth
    var cur: Option<nat>             // mm_halow_task_cur
    ghost var thread: nat
    ghost var irq: nat

    ghost function Now(): State
      reads this
    {
      State(owner, depth, thread, irq)
    }

    constructor ()
      ensures Now() == START && cur == None
    {
      owner, depth, cur, thread, irq := Nobody, 0, None, 0, 0;
    }

    // mm_halow_sched_claim()
    method Claim(inIrq: bool) returns (claimed: bool)
      modifies this`owner, this`depth, this`thread, this`irq
      ensures claimed == Granted(old(Now()), inIrq) && Now() == Claimed(old(Now()), inIrq)
    {
      var me := if inIrq then Irq else Thread;
      claimed := owner == Nobody || owner == me;
      if claimed {
        owner := me;
        depth := Deeper(depth);
        if inIrq { irq := irq + 1; } else { thread := thread + 1; }
      }
    }

    // mm_halow_sched_release()
    method Release(ghost inIrq: bool)
      modifies this`owner, this`depth, this`thread, this`irq
      ensures Now() == Released(old(Now()), inIrq)
    {
      if inIrq { irq := if irq > 0 then irq - 1 else 0; } else { thread := if thread > 0 then thread - 1 else 0; }
      if depth > 0 {
        depth := depth - 1;
        if depth == 0 {
          owner := Nobody;
        }
      }
    }

    // How both callers begin, mm_halow_poll_func() and mm_halow_sched_yield(): they
    // stand aside when a task is running, and otherwise ask for a claim.
    method Begin(inIrq: bool) returns (claimed: bool)
      modifies this`owner, this`depth, this`thread, this`irq
      ensures claimed <==> cur.None? && Granted(old(Now()), inIrq)
      ensures Now() == if cur.None? then Claimed(old(Now()), inIrq) else old(Now())
    {
      if cur.Some? {
        return false;
      }
      claimed := Claim(inIrq);
    }
  }

  // -- Runs --------------------------------------------------------------------

  function After(ops: seq<Op>): State
    decreases |ops|
  {
    if ops == [] then START else Do(After(ops[..|ops| - 1]), ops[|ops| - 1])
  }

  // Any interleaving of what the two contexts do, as long as they release only
  // what they were granted.
  ghost predicate Disciplined(ops: seq<Op>) {
    forall k | 0 <= k < |ops| :: Proper(After(ops[..k]), ops[k])
  }

  ghost predicate SoundThroughout(ops: seq<Op>) {
    forall k | 0 <= k <= |ops| :: Sound(After(ops[..k]))
  }

  ghost predicate Shallow(ops: seq<Op>) {
    forall k | 0 <= k <= |ops| :: After(ops[..k]).thread + After(ops[..k]).irq < DEPTHS
  }

  lemma StepIsSound(s: State, op: Op)
    requires Sound(s) && Proper(s, op) && Do(s, op).thread + Do(s, op).irq < DEPTHS
    ensures Sound(Do(s, op))
  {
    hide Deeper;
    DeeperIsMore(s.depth);
  }

  lemma {:induction false} DepthIsSmall(ops: seq<Op>)
    ensures After(ops).depth < DEPTHS
    decreases |ops|
  {
    hide Deeper;
    if ops != [] {
      DepthIsSmall(ops[..|ops| - 1]);
      DeeperIsMore(After(ops[..|ops| - 1]).depth);
    }
  }

  lemma StartIsSound()
    ensures Sound(START)
  {
  }

  lemma {:induction false} ShallowIsSound(ops: seq<Op>, k: nat)
    requires Disciplined(ops) && Shallow(ops) && k <= |ops|
    ensures Sound(After(ops[..k]))
    decreases k
  {
    hide Sound, Do;
    if k == 0 {
      assert ops[..0] == [];
      StartIsSound();
    } else {
      ShallowIsSound(ops, k - 1);
      assert ops[..k][..k - 1] == ops[..k - 1];
      assert Do(After(ops[..k - 1]), ops[k - 1]) == After(ops[..k]);
      StepIsSound(After(ops[..k - 1]), ops[k - 1]);
    }
  }

  // The claims do their job, throughout any interleaving, exactly when fewer
  // than 256 are ever open at once.
  lemma SoundExactlyWhenShallow(ops: seq<Op>)
    requires Disciplined(ops)
    ensures SoundThroughout(ops) <==> Shallow(ops)
  {
    if Shallow(ops) {
      forall k | 0 <= k <= |ops| ensures Sound(After(ops[..k])) {
        ShallowIsSound(ops, k);
      }
    }
    if SoundThroughout(ops) {
      forall k | 0 <= k <= |ops| ensures After(ops[..k]).thread + After(ops[..k]).irq < DEPTHS {
        DepthIsSmall(ops[..k]);
        assert Sound(After(ops[..k]));
      }
    }
  }

  // ... and then the two contexts never both hold one, one is refused exactly
  // while the other holds one, and when none is open either may have one.
  lemma ClaimsExclude(ops: seq<Op>, irq: bool)
    requires Disciplined(ops) && Shallow(ops)
    ensures var s := After(ops);
            && (s.thread == 0 || s.irq == 0)
            && (Granted(s, irq) <==> Open(s, !irq) == 0)
            && (s.owner == Nobody <==> s.thread + s.irq == 0)
  {
    assert ops[..|ops|] == ops;
    ShallowIsSound(ops, |ops|);
  }

  function ReleasedTimes(s: State, irq: bool, n: nat): State
    decreases n
  {
    if n == 0 then s else ReleasedTimes(Released(s, irq), irq, n - 1)
  }

  // The 256th nested claim wraps the depth to zero: after that the releases of
  // all of them do nothing, and the context that made them owns the transceiver
  // with no claim open, so that the other is refused.
  lemma NestedTooDeep(s: State, irq: bool)
    requires Sound(s) && Open(s, irq) == DEPTHS - 1
    ensures var t := ReleasedTimes(Claimed(s, irq), irq, DEPTHS);
            t.thread + t.irq == 0 && t.owner == Me(irq) && !Granted(t, !irq)
  {
    ReleasesAreLost(Claimed(s, irq), irq, DEPTHS);
  }

  lemma {:induction false} ReleasesAreLost(s: State, irq: bool, n: nat)
    requires s.depth == 0 && n <= Open(s, irq)
    ensures ReleasedTimes(s, irq, n) == WithOpen(s, irq, Open(s, irq) - n)
    decreases n
  {
    if n > 0 { ReleasesAreLost(Released(s, irq), irq, n - 1); }
  }
}

// The same claims in their setting: a thread, the interrupt that preempts it, and
// the scheduler that one of them runs, with a task's code on its own stack.
module Servicing {
  import opened Lists
  import opened Claims

  // Contexts are named by whether they are the interrupt.
  datatype World = World(
    claims: State,
    cur: Option<nat>,              // mm_halow_task_cur
    runner: Option<bool>,          // the context inside mm_halow_sched_run(), if any
    inIrq: bool,                   // the interrupt has preempted the thread
    threadPassed: bool,            // has found no task current, and is about to claim
    irqPassed: bool,
    onTask: nat)                   // claims ever granted while a task was current

  // What the context now executing does: it comes to a poll or a yield, in a task
  // or outside; claims, having passed; releases; and runs the scheduler.
  datatype Event = Preempt | Return | Check | Claim | Release
                 | BeginRun | SwitchTo(task: nat) | SwitchBack | EndRun

  function Passed(w: World): bool {
    if w.inIrq then w.irqPassed else w.threadPassed
  }

  function WithPassed(w: World, passed: bool): World {
    if w.inIrq then w.(irqPassed := passed) else w.(threadPassed := passed)
  }

  predicate Runs(w: World) {
    w.runner == Some(w.inIrq)
  }

  predicate Enabled(w: World, e: Event) {
    match e
    case Preempt => !w.inIrq
    case Return => w.inIrq && w.claims.irq == 0 && !w.irqPassed && !Runs(w)
    // From a task's code, or from code on the main stack that is not the loop of
    // the scheduler.
    case Check => !Passed(w) && (Runs(w) ==> w.cur.Some?)
    case Claim => Passed(w)
    case Release => Open(w.claims, w.inIrq) > 0 && !Passed(w) && !Runs(w)
    // Both callers run the scheduler under their claim.
    case BeginRun => Open(w.claims, w.inIrq) > 0 && !Passed(w) && w.runner.None? && w.cur.None?
    case SwitchTo(_) => Runs(w) && w.cur.None?
    case SwitchBack => Runs(w) && w.cur.Some?
    case EndRun => Runs(w) && w.cur.None?
  }

  function Next(w: World, e: Event): World {
    match e
    case Preempt => w.(inIrq := true)
    case Return => w.(inIrq := false)
    case Check => if w.cur.Some? then w else WithPassed(w, true)
    case Claim =>
      WithPassed(w, false).(claims := Claimed(w.claims, w.inIrq),
                            onTask := w.onTask + if w.cur.Some? && Granted(w.claims, w.inIrq) then 1 else 0)
    case Release => w.(claims := Released(w.claims, w.inIrq))
    case BeginRun => w.(runner := Some(w.inIrq))
    case SwitchTo(task) => w.(cur := Some(task))
    case SwitchBack => w.(cur := None)
    case EndRun => w.(runner := None)
  }

  const QUIET := World(START, None, None, false, false, false, 0)

  ghost predicate Run(ws: seq<World>) {
    ws != [] && ws[0] == QUIET && forall k: nat | k + 1 < |ws| :: Follows(ws[k], ws[k + 1])
  }

  ghost predicate Follows(w: World, w': World) {
    exists e :: Enabled(w, e) && w' == Next(w, e)
  }

  // Whoever has passed the check and can act on it has no task current; a run of
  // the scheduler is under a claim of its context's.
  predicate Inv(w: World) {
    && w.onTask == 0
    && (w.cur.Some? ==> w.runner.Some?)
    && (w.runner == Some(true) ==> w.inIrq && !w.irqPassed && w.claims.irq > 0)
    && (w.runner == Some(false) ==> !w.threadPassed && w.claims.thread > 0)
    && (w.irqPassed ==> w.inIrq && w.cur.None?)
    && (w.threadPassed ==> w.cur.None? || w.runner == Some(true))
  }

  lemma NextInv(w: World, e: Event)
    requires Inv(w) && Enabled(w, e)
    ensures Inv(Next(w, e))
  {
  }

  lemma {:induction false} RunInv(ws: seq<World>, k: nat)
    requires Run(ws) && k < |ws|
    ensures Inv(ws[k])
    decreases k
  {
    hide Inv, Next, Enabled;
    if k == 0 {
      QuietInv();
    } else {
      RunInv(ws, k - 1);
      assert Follows(ws[k - 1], ws[k - 1 + 1]);
      var e :| Enabled(ws[k - 1], e) && ws[k] == Next(ws[k - 1], e);
      NextInv(ws[k - 1], e);
    }
  }

  lemma QuietInv()
    ensures Inv(QUIET)
  {
  }

  // No claim is ever made while a task is current, on whichever stack, so none is
  // parked when the task gives up its turn -- though the test and the claim are
  // two steps, and tasks run, and poll and yield, under claims.
  lemma NoClaimOnATask(ws: seq<World>, k: nat)
    requires Run(ws) && k < |ws|
    ensures ws[k].onTask == 0
    ensures Passed(ws[k]) ==> ws[k].cur.None?
  {
    RunInv(ws, k);
  }

  function Last(ws: seq<World>): World
    requires ws != []
  {
    ws[|ws| - 1]
  }

  lemma Happens(ws: seq<World>, e: Event) returns (vs: seq<World>)
    requires Run(ws) && Enabled(Last(ws), e)
    ensures Run(vs) && ws <= vs && Last(vs) == Next(Last(ws), e)
  {
    hide Enabled, Next;
    vs := ws + [Next(Last(ws), e)];
    assert Follows(Last(ws), Last(vs));
    forall k: nat | k + 1 < |vs| ensures Follows(vs[k], vs[k + 1]) {
      if k + 1 < |ws| { assert Follows(ws[k], ws[k + 1]); }
    }
  }

  // All this happens: the interrupt comes between the thread's test and its claim,
  // and runs the scheduler, whose task polls in vain; when it is done the thread,
  // still going by its test, has its claim, and runs a task in its turn, which the
  // interrupt finds current and leaves to it.
  lemma InterruptedRun(task: nat) returns (during: seq<World>, after: seq<World>)
    ensures Run(during) && during <= after && Run(after)
    ensures var w := Last(during);
            w.inIrq && w.threadPassed && w.cur == Some(task) && w.runner == Some(true)
            && w.claims == State(Irq, 1, 0, 1)
    ensures var w := Last(after);
            w.inIrq && !w.irqPassed && w.cur == Some(task) && w.runner == Some(false)
            && w.claims == State(Thread, 1, 1, 0)
  {
    hide Run;
    QuietRun();
    during := Happens([QUIET], Check);
    during := Happens(during, Preempt);
    during := Happens(during, Check);
    during := Happens(during, Event.Claim);
    during := Happens(during, BeginRun);
    during := Happens(during, SwitchTo(task));
    during := Happens(during, Check);
    after := Happens(during, SwitchBack);
    after := Happens(after, EndRun);
    after := Happens(after, Event.Release);
    after := Happens(after, Return);
    after := Happens(after, Event.Claim);
    after := Happens(after, BeginRun);
    after := Happens(after, SwitchTo(task));
    after := Happens(after, Preempt);
    after := Happens(after, Check);
  }

  lemma QuietRun()
    ensures Run([QUIET])
  {
  }

  ghost predicate Shallow(ws: seq<World>) {
    forall k | 0 <= k < |ws| :: ws[k].claims.thread + ws[k].claims.irq < DEPTHS
  }

  lemma NextIsSound(w: World, e: Event)
    requires Sound(w.claims) && Enabled(w, e) && Next(w, e).claims.thread + Next(w, e).claims.irq < DEPTHS
    ensures Sound(Next(w, e).claims)
  {
    hide Sound, Claimed, Released, Deeper;
    if e.Claim? {
      StepIsSound(w.claims, Enter(w.inIrq));
    } else if e.Release? {
      StepIsSound(w.claims, Leave(w.inIrq));
    }
  }

  lemma {:induction false} WorldsAreSound(ws: seq<World>, k: nat)
    requires Run(ws) && Shallow(ws) && k < |ws|
    ensures Sound(ws[k].claims)
    decreases k
  {
    hide Sound, Next, Enabled;
    if k == 0 {
      QuietIsSound();
    } else {
      WorldsAreSound(ws, k - 1);
      assert Follows(ws[k - 1], ws[k - 1 + 1]);
      var e :| Enabled(ws[k - 1], e) && ws[k] == Next(ws[k - 1], e);
      NextIsSound(ws[k - 1], e);
    }
  }

  lemma QuietIsSound()
    ensures Sound(QUIET.claims)
  {
  }

  // While one context runs the scheduler, or a task, the other can have no claim
  // and be granted none.
  lemma RunsExclude(ws: seq<World>, k: nat, irq: bool)
    requires Run(ws) && Shallow(ws) && k < |ws| && ws[k].runner == Some(irq)
    ensures Open(ws[k].claims, !irq) == 0 && !Granted(ws[k].claims, !irq)
  {
    RunInv(ws, k);
    WorldsAreSound(ws, k);
  }
}
