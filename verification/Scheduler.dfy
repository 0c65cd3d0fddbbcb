// The scheduler as it is written: static variables, a pass loop around a walk of
// the task list, and the gate in front of it.  The ghost history records every
// atomic step, and the methods are proved to take only steps of SchedMachine,
// whatever other contexts do between their statements.
module Scheduling {
  import opened Words
  import opened Config
  import opened SchedMachine
  import opened SchedProofs
  import opened RunProofs

  predicate External(step: Step) {
    step.Tick? || step.Disturb? || step.OtherWakes? || step.OtherCreates? || step.OtherKills?
  }

  // h is a run of the machine, and ends in s.
  ghost predicate Reached(h: seq<State>, s: State) {
    Run(h) && h[|h| - 1] == s && Inv(s) && Fair(s)
  }

  // h ends with the step that left a pass.
  ghost predicate PassOver(h: seq<State>, woke: bool) {
    2 <= |h| && AtEnd(h[|h| - 2]) && !InPass(h[|h| - 1].pc) && (woke <==> WokenSince(h, |h| - 2))
  }

  lemma LastIsNow(h: seq<State>, s: State)
    requires Reached(h, s)
    ensures h != [] && h[|h| - 1] == s
  {
  }

  // The clock, and what tasks and other contexts share.
  datatype World = World(now: nat, avail: map<nat, nat>, dead: set<nat>, owed: nat)

  // What the program does not keep: where control is, and what the machine counts.
  datatype Book = Book(pc: Control, due: nat, passStart: nat, pass: nat, log: seq<nat>, turns: nat)

  class Scheduler {
    var woken: bool               // mm_halow_sched_woken
    var wakeAt: word              // mm_halow_sched_wake_at
    var deadline: word            // mm_halow_sched_deadline
    var running: bool             // mm_halow_sched_running
    var tasks: seq<Task>          // mm_halow_task_list
    var world: World
    var book: Book
    ghost var history: seq<State>

    function Now(): State
      reads this
    {
      State(world.now, woken, wakeAt, book.due, tasks, world.avail, world.dead, world.owed,
            book.pc, book.pass, book.passStart, deadline, book.log, book.turns)
    }

    ghost predicate Valid()
      reads this
    {
      && Reached(history, Now())
      && (running <==> !book.pc.Idle?)
      && |tasks| <= MAX_TASKS && book.pass <= PASSES
      && (book.pc.Running? ==> book.pc.i < |tasks|)
    }

    // mm_halow_sched_deinit(), which is also the power-on state.
    constructor (clock: nat, avail: map<nat, nat>, dead: set<nat>)
      ensures Valid() && !running && tasks == [] && !woken
    {
      woken, wakeAt, deadline, running, tasks := false, Wrap(clock + HALF - 1), 0, false, [];
      world, book := World(clock, avail, dead, 0), Book(Idle, clock + HALF - 1, clock, 0, [], 0);
      new;
      history := [Now()];
      InitInv(Now());
    }

    // Enter the state just reached from s, by the given step, in the history.
    ghost method Record(s: State, step: Step)
      requires Reached(history, s) && Next(s, Now(), step)
      modifies this`history
      ensures Reached(history, Now()) && history == old(history) + [Now()]
      ensures |tasks| <= MAX_TASKS && book.pass <= PASSES && (book.pc.Running? ==> book.pc.i < |tasks|)
      ensures book.pc.Idle? ==> book.turns <= Quota(PASSES)
    {
      hide Next;
      NextInv(s, Now(), step);
      NextFair(s, Now(), step);
      assert Follows(s, Now());
      var h := history + [Now()];
      forall i: nat | i + 1 < |h| ensures Follows(h[i], h[i + 1]) {
        if i + 1 < |history| { assert Follows(history[i], history[i + 1]); }
      }
      history := h;
    }

    // Let the machine move to s'.
    method Become(s': State, step: Step)
      requires Valid() && Next(Now(), s', step) && (s'.pc.Idle? <==> book.pc.Idle?)
      modifies this
      ensures Valid() && Now() == s' && old(history) <= history && running == old(running)
    {
      hide Reached, Next;
      ghost var s := Now();
      woken, wakeAt, deadline, tasks := s'.woken, s'.wakeAt, s'.runEnd, s'.tasks;
      world := World(s'.now, s'.avail, s'.dead, s'.owed);
      book := Book(s'.pc, s'.due, s'.passStart, s'.pass, s'.log, s'.turns);
      Record(s, step);
    }

    // Between any two statements: time passes, and interrupts and threads do
    // anything they may, any number of times.
    method Interfere()
      requires Valid()
      modifies this
      ensures Valid() && old(history) <= history && running == old(running)
      ensures book.pc == old(book.pc) && book.pass == old(book.pass) && |tasks| >= |old(tasks)|
    {
      hide Reached;
      var n: nat := *;
      while n > 0
        invariant Valid() && old(history) <= history && running == old(running)
        invariant book.pc == old(book.pc) && book.pass == old(book.pass) && |tasks| >= |old(tasks)|
      {
        var s': State, step: Step := *, *;
        if External(step) && Next(Now(), s', step) {
          ExternalKeepsControl(Now(), s', step);
          Become(s', step);
        }
        n := n - 1;
      }
    }

    lemma ExternalKeepsControl(s: State, s': State, step: Step)
      requires External(step) && Next(s, s', step)
      ensures s'.pc == s.pc && s'.pass == s.pass && |s'.tasks| >= |s.tasks|
    {
    }

    // mm_halow_context_switch() into task i, which runs until it switches back:
    // any number of actions of its own, and any calls into the scheduler.
    method SwitchTo(i: nat)
      requires Valid() && running && book.pc.Running? && book.pc.i == i
      modifies this
      ensures Valid() && running && old(history) <= history && book.pc == Scanning(i + 1) && book.pass == old(book.pass)
    {
      hide Reached;
      var n: nat := *;
      while book.pc.Running?
        invariant Valid() && running && old(history) <= history && book.pass == old(book.pass)
        invariant if book.pc.Running? then book.pc.i == i else book.pc == Scanning(i + 1)
        decreases n, Rank(book.pc)
      {
        var s': State, act: Action := *, *;
        if n > 0 {
          n := n - 1;
          if Next(Now(), s', Turn(act)) {
            TurnStaysInPass(Now(), s', act);
            Become(s', Turn(act));
          }
          Interfere();
        } else if book.pc.phase.Busy? {
          Become(Now().(woken := true, tasks := Rest(tasks, i, Yielded), pc := Scanning(i + 1)), Turn(Yield));
        } else {
          Become(Proceeded(Now(), i, book.pc.phase), Turn(Proceed));
        }
      }
    }

    lemma TurnStaysInPass(s: State, s': State, act: Action)
      requires Next(s, s', Turn(act))
      ensures s'.pass == s.pass
      ensures if s'.pc.Running? then s'.pc.i == s.pc.i else s'.pc == Scanning(s.pc.i + 1)
    {
    }

    // How many more statements a call into the scheduler has to run.
    function Rank(c: Control): nat {
      if !c.Running? then 0
      else match c.phase
        case Busy => 1
        case Leaving => 1
        case Parking(_) => 1
        case Owing => 2
        case Retesting(_) => 3
        case Timing(_) => 4
        case Testing(_) => 5
        case Sleeping(_, _) => 6
    }

    // mm_halow_sched_wake(), from a thread.
    method Wake()
      requires Valid() && world.owed > 0
      modifies this
      ensures Valid() && woken && world.owed == old(world.owed) - 1 && running == old(running)
    {
      hide Reached;
      ghost var s := Now();
      woken := true;
      world := world.(owed := world.owed - 1);
      Record(s, OtherWakes);
    }

    // mm_halow_sched_pending()
    method IsPending() returns (p: bool)
      requires Valid()
      ensures p == Pending(Now())
      // Between runs, a no means no task could do anything with a turn, unless some
      // context still owes its wake call.
      ensures !p && !running && world.owed == 0 && AllKeepTime(tasks) ==> NothingToDo(Now())
    {
      p := woken || Signed(Wrap(Wrap(world.now) - wakeAt)) >= 0;
      if !p && !running && world.owed == 0 && AllKeepTime(tasks) {
        IdleMeansNothingToDo(Now());
      }
    }

    // mm_halow_sched_run()
    method RunTasks()
      requires Valid()
      modifies this
      ensures Valid() && old(history) <= history && running == old(running)
      ensures !running ==> book.turns <= Quota(PASSES)
      // Unless one is under way already, a whole run is made: it begins now, and its
      // passes come to an end because nothing was woken in the last, or they were as
      // many as there may be, or the time was up.
      ensures if running then Now() == old(Now()) else WholeRun(history, |old(history)|)
    {
      hide Reached, Next;
      if running {
        return;
      }
      Start();
      ghost var h := history;
      Interfere();
      while book.pass < PASSES && !(Signed(Wrap(Wrap(world.now) - deadline)) >= 0)
        invariant Valid() && running && old(history) <= history && book.pc.PassTop? && h <= history
        decreases PASSES - book.pass
      {
        Enter();
        var woke := OnePass();
        if !woke {
          break;
        }
      }
      if book.pc.PassTop? {
        Leave();
      }
      Interfere();
      Reap();
      RunOver(h, history, Now());
    }

    // h is the history to where the run began, and h' to where it is over.
    lemma RunOver(h: seq<State>, h': seq<State>, s: State)
      requires 2 <= |h| && h <= h' && h[|h| - 2].pc.Idle? && h[|h| - 1].pc.PassTop?
      requires Reached(h', s) && s.pc.Idle?
      ensures WholeRun(h', |h| - 1)
    {
      hide Run, Inv, Fair;
      RunsFinish(h', |h| - 1, |h| - 1);
    }

    method Start()
      requires Valid() && !running
      modifies this
      ensures Valid() && running && old(history) <= history && book.pc.PassTop?
      ensures 2 <= |history| == |old(history)| + 1
      ensures history[|history| - 2].pc.Idle? && history[|history| - 1].pc.PassTop?
    {
      hide Reached;
      ghost var s := Now();
      LastIsNow(history, s);
      running := true;
      deadline := Wrap(world.now + BUDGET);
      book := book.(pc := PassTop, pass := 0, log := [], turns := 0);
      Record(s, StartRun);
      LastIsNow(history, Now());
    }

    // The two ways out of the loop condition.
    method Enter()
      requires Valid() && running && book.pc.PassTop?
      requires book.pass < PASSES && Signed(Wrap(Wrap(world.now) - deadline)) < 0
      modifies this`book, this`history
      ensures Valid() && old(history) <= history && book.pc.Entering? && book.pass == old(book.pass)
    {
      hide Reached;
      ghost var s := Now();
      book := book.(pc := Entering);
      Record(s, TopOfPass);
    }

    method Leave()
      requires Valid() && running && book.pc.PassTop?
      requires book.pass >= PASSES || Signed(Wrap(Wrap(world.now) - deadline)) >= 0
      modifies this`book, this`history
      ensures Valid() && old(history) <= history && book.pc.Reaping?
    {
      hide Reached;
      ghost var s := Now();
      book := book.(pc := Reaping(0));
      Record(s, TopOfPass);
    }

    // mm_halow_sched_reap(), and the last line of the run.  Others may act between
    // one task and the next.
    method Reap()
      requires Valid() && running && book.pc.Reaping?
      modifies this
      ensures Valid() && !running && old(history) <= history
      ensures book.turns <= Quota(PASSES)
      // A dead task still listed is one killed since, and somebody will say so.
      ensures woken || world.owed > 0 || forall k: nat | k < |tasks| :: !tasks[k].point.Dead?
    {
      hide Reached;
      var n: nat := *;
      while book.pc.Reaping?
        invariant Valid() && old(history) <= history && (book.pc.Reaping? || book.pc.Idle?)
        decreases n, Unreaped(book.pc, |tasks|)
      {
        ReapOne(book.pc.i);
        if n > 0 {
          n := n - 1;
          if running {
            Interfere();
          }
        }
      }
      NoneLeft(history, Now());
    }

    function Unreaped(c: Control, n: nat): nat {
      if !c.Reaping? then 0 else if c.i < n then n - c.i + 1 else 1
    }

    lemma NoneLeft(h: seq<State>, s: State)
      requires Reached(h, s) && s.pc.Idle?
      ensures s.turns <= Quota(PASSES)
      ensures s.woken || s.owed > 0 || forall k: nat | k < |s.tasks| :: !s.tasks[k].point.Dead?
    {
      forall k: nat | k < |s.tasks| && !s.woken && s.owed == 0 ensures !s.tasks[k].point.Dead? {
        assert TaskOk(s, k);
      }
    }

    // The body of the loop, at task i.
    method ReapOne(i: nat)
      requires Valid() && running && book.pc == Reaping(i)
      modifies this
      ensures Valid() && old(history) <= history && Now() == ReapNext(old(Now()), i)
    {
      hide Reached;
      ghost var s := Now();
      if i >= |tasks| {
        running := false;
        book := book.(pc := Idle);
      } else {
        var last := i + 1 == |tasks|;
        var next := if tasks[i].point.Dead? then i else i + 1;
        if tasks[i].point.Dead? {
          tasks := Removed(tasks, i);
        }
        running := !last;
        book := book.(pc := if last then Idle else Reaping(next));
      }
      Record(s, Step.Reap);
    }

    // The body of the pass loop; false when nothing was woken during the pass.
    method OnePass() returns (woke: bool)
      requires Valid() && running && book.pc.Entering?
      modifies this
      ensures Valid() && running && old(history) <= history
      ensures if woke then book.pc.PassTop? && book.pass == old(book.pass) + 1 else book.pc.Reaping?
      // The pass went on to the end of the list, and another follows exactly when
      // somebody has called wake since it began.
      ensures PassOver(history, woke)
    {
      hide Reached, Next;
      Interfere();
      ClearWoken();
      Interfere();
      WakeAtReset();
      Interfere();
      var i := 0;
      while i < |tasks|
        invariant Valid() && running && old(history) <= history && book.pc == Scanning(i)
        invariant book.pass == old(book.pass)
        decreases MAX_TASKS - i
      {
        if tasks[i].point.Dead? {
          Skip(i);
        } else {
          GiveTurn(i);
        }
        i := i + 1;
        Interfere();
      }
      woke := EndPass();
    }

    method ClearWoken()
      requires Valid() && running && book.pc.Entering?
      modifies this
      ensures Valid() && running && old(history) <= history && book.pc.Clearing? && book.pass == old(book.pass)
    {
      hide Reached;
      ghost var s := Now();
      woken := false;
      book := book.(pc := Clearing);
      Record(s, Step.ClearWoken);
    }

    // mm_halow_sched_wake_at_reset()
    method WakeAtReset()
      requires Valid() && running && book.pc.Clearing?
      modifies this
      ensures Valid() && running && old(history) <= history && book.pc == Scanning(0) && book.pass == old(book.pass)
    {
      hide Reached;
      ghost var s := Now();
      wakeAt := Wrap(world.now + HALF - 1);
      book := book.(due := world.now + HALF - 1, passStart := world.now, log := [], pc := Scanning(0));
      Record(s, ResetWakeAt);
    }

    method Skip(i: nat)
      requires Valid() && running && book.pc == Scanning(i) && i < |tasks| && tasks[i].point.Dead?
      modifies this`book, this`history
      ensures Valid() && old(history) <= history && book.pc == Scanning(i + 1) && book.pass == old(book.pass)
    {
      hide Reached;
      ghost var s := Now();
      book := book.(pc := Scanning(i + 1));
      Record(s, Scan);
    }

    method GiveTurn(i: nat)
      requires Valid() && running && book.pc == Scanning(i) && i < |tasks| && !tasks[i].point.Dead?
      modifies this
      ensures Valid() && running && old(history) <= history
      ensures book.pc == Scanning(i + 1) && book.pass == old(book.pass)
    {
      hide Reached;
      ghost var s := Now();
      book := book.(log := book.log + [i], turns := book.turns + 1, pc := Running(i, Resumed(tasks[i].point)));
      Record(s, Scan);
      SwitchTo(i);
    }

    method EndPass() returns (woke: bool)
      requires Valid() && running && book.pc.Scanning? && book.pc.i >= |tasks|
      modifies this`book, this`history
      ensures Valid() && old(history) <= history
      ensures if woke then book.pc.PassTop? && book.pass == old(book.pass) + 1 else book.pc.Reaping?
      ensures PassOver(history, woke)
    {
      hide Reached;
      ghost var s := Now();
      LastIsNow(history, s);
      woke := woken;
      if woke {
        book := book.(pass := book.pass + 1, pc := PassTop);
      } else {
        book := book.(pc := Reaping(0));
      }
      Record(s, Scan);
      JustOver(history, Now(), woke);
    }

    lemma JustOver(h: seq<State>, s: State, woke: bool)
      requires Reached(h, s) && 2 <= |h| && AtEnd(h[|h| - 2]) && !InPass(s.pc) && woke == h[|h| - 2].woken
      ensures PassOver(h, woke)
    {
      RunTallied(h, |h| - 2);
    }

    // mm_halow_poll_func(): skip the run when nothing could come of it.  Whether
    // the driver is up, the claim is granted, and any of the other three reasons to
    // go ahead holds is the caller's to say; a task is current while one runs.
    method Poll(initted: bool, claimed: bool, requested: bool, irqPending: bool, timerPending: bool) returns (ran: bool)
      requires Valid()
      modifies this
      ensures Valid() && old(history) <= history && running == old(running)
      ensures ran <==> initted && !old(book.pc.Running?) && claimed
                       && (requested || irqPending || timerPending || old(Pending(Now())))
      ensures ran && !running ==> exists k :: |old(history)| <= k && WholeRun(history, k)
      ensures !ran ==> Now() == old(Now())
      // What is skipped for want of a reason could have come to nothing.
      ensures !ran && initted && claimed && !running && world.owed == 0 && AllKeepTime(tasks) ==> NothingToDo(Now())
    {
      hide Reached;
      if !initted {
        return false;
      }
      if book.pc.Running? {
        return false;
      }
      if !claimed {
        return false;
      }
      var p := IsPending();
      if !requested && !irqPending && !timerPending && !p {
        return false;
      }
      Interfere();          // the interrupts and the timers are seen to
      RunTasks();
      return true;
    }
  }
}
