// The scheduler's invariant, and what follows from it for every run.
module SchedProofs {
  import opened Words
  import opened Config
  import opened SchedMachine

  // -- Clock arithmetic inside the half window ---------------------------------

  lemma PendingIsDue(now: nat, due: nat)
    requires now < due + HALF && due < now + HALF
    ensures Signed(Wrap(Wrap(now) - Wrap(due))) >= 0 <==> now >= due
  {
    SignedDifference(now, due);
  }

  lemma WaitTimesOut(now: nat, start: nat, t: nat)
    requires start <= now < start + WORD && t <= CAP
    ensures Wrap(now - start) >= t <==> now >= start + t
  {
  }

  // A time the program sees as not yet come, less than 2^32 ms ahead and not long
  // past, is to come within 2^31 ms; and the other way round.
  lemma NotYet(now: nat, at: nat)
    requires now - HALF < at < now + WORD
    ensures Signed(Wrap(Wrap(now) - Wrap(at))) < 0 <==> now < at <= now + HALF
  {
    SignedDifference(now, at);
    SignedDifference(now + WORD, at);
    WrapPeriod(now, 1);
  }

  // -- Preservation ------------------------------------------------------------

  lemma InitInv(s: State)
    requires Init(s)
    ensures Inv(s)
  {
  }

  lemma TickInv(s: State, s': State)
    requires Inv(s) && Next(s, s', Tick)
    ensures Inv(s')
  {
    forall k: nat | k < |s'.tasks| ensures TaskOk(s', k) { assert TaskOk(s, k); }
  }

  lemma DisturbInv(s: State, s': State, a: map<nat, nat>)
    requires Inv(s) && Next(s, s', Disturb(a))
    ensures Inv(s')
  {
    forall k: nat | k < |s'.tasks| ensures TaskOk(s', k) { assert TaskOk(s, k); }
  }

  lemma OtherWakesInv(s: State, s': State)
    requires Inv(s) && Next(s, s', OtherWakes)
    ensures Inv(s')
  {
    forall k: nat | k < |s'.tasks| ensures TaskOk(s', k) { assert TaskOk(s, k); }
  }

  lemma OtherCreatesInv(s: State, s': State, id: nat)
    requires Inv(s) && Next(s, s', OtherCreates(id))
    ensures Inv(s')
  {
    forall k: nat | k < |s'.tasks| ensures TaskOk(s', k) {
      if k < |s.tasks| { assert TaskOk(s, k); }
    }
  }

  lemma OtherKillsInv(s: State, s': State, k0: nat)
    requires Inv(s) && Next(s, s', OtherKills(k0))
    ensures Inv(s')
  {
    forall k: nat | k < |s'.tasks| ensures TaskOk(s', k) { assert TaskOk(s, k); }
  }

  lemma StartRunInv(s: State, s': State)
    requires Inv(s) && Next(s, s', StartRun)
    ensures Inv(s')
  {
    forall k: nat | k < |s'.tasks| ensures TaskOk(s', k) { assert TaskOk(s, k); }
  }

  lemma TopOfPassInv(s: State, s': State)
    requires Inv(s) && Next(s, s', TopOfPass)
    ensures Inv(s')
  {
    forall k: nat | k < |s'.tasks| ensures TaskOk(s', k) { assert TaskOk(s, k); }
  }

  lemma ClearWokenInv(s: State, s': State)
    requires Inv(s) && Next(s, s', ClearWoken)
    ensures Inv(s')
  {
    forall k: nat | k < |s'.tasks| ensures TaskOk(s', k) { assert TaskOk(s, k); }
  }

  lemma ResetWakeAtInv(s: State, s': State)
    requires Inv(s) && Next(s, s', ResetWakeAt)
    ensures Inv(s')
  {
    forall k: nat | k < |s'.tasks| ensures TaskOk(s', k) { assert TaskOk(s, k); }
  }

  lemma ScanInv(s: State, s': State)
    requires Inv(s) && Next(s, s', Scan)
    ensures Inv(s')
  {
    forall k: nat | k < |s'.tasks| ensures TaskOk(s', k) { assert TaskOk(s, k); }
    var i := s.pc.i;
    if i < |s.tasks| {
      assert TaskOk(s, i);
    }
  }

  lemma ReapInv(s: State, s': State)
    requires Inv(s) && Next(s, s', Reap)
    ensures Inv(s')
  {
    ReapTasks(s, s');
    ReapEarliest(s, s');
    hide Wrap, Signed, TaskOk, EarliestOk;
  }

  lemma ReapTasks(s: State, s': State)
    requires Inv(s) && Next(s, s', Reap)
    ensures forall k: nat | k < |s'.tasks| :: TaskOk(s', k)
  {
    hide TaskOk, EarliestOk, ClockOk, TurnOk;
    forall k: nat | k < |s'.tasks| ensures TaskOk(s', k) {
      ReapedTask(s, s', if s'.tasks == s.tasks || k < s.pc.i then k else k + 1, k);
    }
  }

  lemma ReapedTask(s: State, s': State, j: nat, k: nat)
    requires j < |s.tasks| && TaskOk(s, j) && k < |s'.tasks| && s'.tasks[k] == s.tasks[j]
    requires s.pc.Reaping? && (s'.pc.Idle? || s'.pc.Reaping?) && s' == s.(tasks := s'.tasks, pc := s'.pc)
    requires s'.pc.Idle? || k < s'.pc.i ==> j < s.pc.i || !s.tasks[j].point.Dead?
    ensures TaskOk(s', k)
  {
    hide Wrap, Signed;
  }

  lemma ReapEarliest(s: State, s': State)
    requires Inv(s) && Next(s, s', Reap)
    ensures EarliestOk(s')
  {
    hide Wrap, Signed, TaskOk;
    if k: nat :| k < |s.tasks| && Deadline(s.tasks[k], s.due) {
      var j := if s'.tasks == s.tasks || k < s.pc.i then k else k - 1;
      assert Deadline(s'.tasks[j], s'.due);
    }
  }

  lemma OwnCodeInv(s: State, s': State, act: Action)
    requires Inv(s) && Next(s, s', Turn(act)) && s.pc.phase.Busy?
    ensures Inv(s')
  {
    forall k: nat | k < |s'.tasks| ensures TaskOk(s', k) {
      if k < |s.tasks| { assert TaskOk(s, k); }
    }
  }

  lemma WakeInv(s: State, s': State)
    requires Inv(s) && Next(s, s', Turn(Proceed)) && (s.pc.phase.Owing? || s.pc.phase.Leaving?)
    ensures Inv(s')
  {
    forall k: nat | k < |s'.tasks| ensures TaskOk(s', k) { assert TaskOk(s, k); }
  }

  lemma CallConditionInv(s: State, s': State)
    requires Inv(s) && Next(s, s', Turn(Proceed)) && (s.pc.phase.Testing? || s.pc.phase.Retesting?)
    ensures Inv(s')
  {
    CallConditionTasks(s, s');
    CallConditionTurn(s, s');
    hide Wrap, Signed, TaskOk, TurnOk, Holds;
  }

  lemma CallConditionTasks(s: State, s': State)
    requires Inv(s) && Next(s, s', Turn(Proceed)) && (s.pc.phase.Testing? || s.pc.phase.Retesting?)
    ensures forall k: nat | k < |s'.tasks| :: TaskOk(s', k)
  {
    hide Wrap, Signed, TurnOk, EarliestOk, JustBegun;
    forall k: nat | k < |s'.tasks| ensures TaskOk(s', k) { assert TaskOk(s, k); }
  }

  lemma CallConditionTurn(s: State, s': State)
    requires Inv(s) && Next(s, s', Turn(Proceed)) && (s.pc.phase.Testing? || s.pc.phase.Retesting?)
    ensures TurnOk(s')
  {
    hide Wrap, Signed, EarliestOk, TaskOk;
    if s.pc.phase.Testing? && JustBegun(s, s.pc.phase.w) && s.pc.phase.w.on.Clock? {
      NotYet(s.now, s.pc.phase.w.on.at);
    }
  }

  lemma SecondReadInv(s: State, s': State)
    requires Inv(s) && Next(s, s', Turn(Proceed)) && s.pc.phase.Sleeping?
    ensures Inv(s')
  {
    hide Wrap, Signed;
    forall k: nat | k < |s'.tasks| ensures TaskOk(s', k) { assert TaskOk(s, k); }
  }

  lemma CompareClockInv(s: State, s': State, w: Wait)
    requires Inv(s) && Next(s, s', Turn(Proceed)) && s.pc.phase == Timing(w)
    ensures Inv(s')
  {
    WaitTimesOut(s.now, w.start, w.timeout.value);
    forall k: nat | k < |s'.tasks| ensures TaskOk(s', k) { assert TaskOk(s, k); }
  }

  // The comparison in park picks the earlier of the two unbounded times.
  lemma ParkKeepsTheEarlierDeadline(s: State, w: Wait)
    requires Inv(s) && s.pc.Running? && s.pc.phase == Parking(w) && w.timeout.Some?
    ensures var s', at := Park(s, s.pc.i, w), w.start + w.timeout.value;
            s'.due == (if at < s.due then at else s.due) && s'.wakeAt == Wrap(s'.due) && s.passStart < at
  {
    SignedDifference(w.start + w.timeout.value, s.due);
  }

  lemma ParkInv(s: State, s': State, w: Wait)
    requires Inv(s) && Next(s, s', Turn(Proceed)) && s.pc.phase == Parking(w)
    ensures Inv(s')
  {
    if w.timeout.Some? { ParkKeepsTheEarlierDeadline(s, w); }
    hide Wrap, Signed;
    ParkTasks(s, s', w);
    ParkEarliest(s, s', w);
    hide TaskOk, EarliestOk;
  }

  lemma ParkTasks(s: State, s': State, w: Wait)
    requires Inv(s) && Next(s, s', Turn(Proceed)) && s.pc.phase == Parking(w)
    requires w.timeout.Some? ==> s'.due <= s.due && s'.due <= w.start + w.timeout.value
    requires w.timeout.None? ==> s'.due == s.due
    ensures forall k: nat | k < |s'.tasks| :: TaskOk(s', k)
  {
    hide Wrap, Signed, EarliestOk;
    forall k: nat | k < |s'.tasks| ensures TaskOk(s', k) { assert TaskOk(s, k); }
  }

  lemma ParkEarliest(s: State, s': State, w: Wait)
    requires Inv(s) && Next(s, s', Turn(Proceed)) && s.pc.phase == Parking(w)
    requires s'.due == s.due || (w.timeout.Some? && s'.due == w.start + w.timeout.value)
    ensures EarliestOk(s')
  {
    hide Wrap, Signed, TaskOk;
    var i := s.pc.i;
    assert s.tasks[i].point.Dead? || Deadline(s'.tasks[i], s'.due) || s'.due == s.due;
    if k: nat :| k < i && Deadline(s.tasks[k], s.due) {
      assert s'.tasks[k] == s.tasks[k];
    }
  }

  lemma TaskInv(s: State, s': State, act: Action)
    requires Inv(s) && Next(s, s', Turn(act))
    ensures Inv(s')
  {
    hide Inv;
    match s.pc.phase
    case Busy => OwnCodeInv(s, s', act);
    case Owing => WakeInv(s, s');
    case Leaving => WakeInv(s, s');
    case Sleeping(first, duration) => SecondReadInv(s, s');
    case Testing(w) => CallConditionInv(s, s');
    case Timing(w) => CompareClockInv(s, s', w);
    case Retesting(w) => CallConditionInv(s, s');
    case Parking(w) => ParkInv(s, s', w);
  }

  lemma NextInv(s: State, s': State, step: Step)
    requires Inv(s) && Next(s, s', step)
    ensures Inv(s')
  {
    hide Inv;
    match step
    case Tick => TickInv(s, s');
    case Disturb(a) => DisturbInv(s, s', a);
    case OtherWakes => OtherWakesInv(s, s');
    case OtherCreates(id) => OtherCreatesInv(s, s', id);
    case OtherKills(k) => OtherKillsInv(s, s', k);
    case StartRun => StartRunInv(s, s');
    case TopOfPass => TopOfPassInv(s, s');
    case ClearWoken => ClearWokenInv(s, s');
    case ResetWakeAt => ResetWakeAtInv(s, s');
    case Scan => ScanInv(s, s');
    case Reap => ReapInv(s, s');
    case Turn(act) => TaskInv(s, s', act);
  }

  // -- Fairness ----------------------------------------------------------------

  ghost predicate Increasing(log: seq<nat>, bound: nat) {
    && (forall a, b | 0 <= a < b < |log| :: log[a] < log[b])
    && (|log| > 0 ==> log[|log| - 1] < bound)
  }

  // The turns there can be in so many passes.
  function Quota(passes: nat): nat {
    passes * MAX_TASKS
  }

  lemma QuotaGrows(p: nat, q: nat)
    requires p < q
    ensures Quota(p) + MAX_TASKS == Quota(p + 1) <= Quota(q)
  {
    assert (p + 1) * MAX_TASKS == p * MAX_TASKS + MAX_TASKS;
    MulMonotone(p + 1, q, MAX_TASKS);
  }

  // Within a pass: turns have been given in list order, at most one each, and
  // every task already passed over had one or is dead.
  ghost predicate Fair(s: State) {
    && s.pass <= PASSES
    && (s.pc.Idle? || s.pc.Reaping? ==> s.turns <= Quota(PASSES))
    && (s.pc.PassTop? ==> s.turns <= Quota(s.pass))
    && (s.pc.Entering? || s.pc.Clearing? ==> s.pass < PASSES && s.turns <= Quota(s.pass))
    && (InPass(s.pc) ==>
         && s.pass < PASSES && s.turns <= Quota(s.pass) + |s.log|
         && Increasing(s.log, s.pc.i + if s.pc.Running? then 1 else 0)
         && (s.pc.Running? ==> s.pc.i in s.log)
         && forall k: nat | k < s.pc.i && k < |s.tasks| :: Served(s, k))
  }

  ghost predicate Served(s: State, k: nat)
    requires k < |s.tasks|
  {
    k in s.log || s.tasks[k].point.Dead?
  }

  lemma {:induction false} IncreasingIsShort(log: seq<nat>, bound: nat)
    requires Increasing(log, bound)
    ensures |log| <= bound
    decreases |log|
  {
    if log != [] {
      var n := |log| - 1;
      assert n > 0 ==> log[n - 1] < log[n];
      IncreasingIsShort(log[..n], log[n]);
    }
  }

  // Steps that leave the log alone, or that start it afresh.
  lemma OtherStepFair(s: State, s': State, step: Step)
    requires Fair(s) && Next(s, s', step) && !step.Scan? && Swept(s) <= |s.tasks| <= MAX_TASKS
    requires step.Turn? ==> s'.log == s.log && s'.turns == s.turns && s'.pass == s.pass
    requires step.Turn? ==> |s.tasks| <= |s'.tasks|
    requires step.Turn? ==> InPass(s'.pc) && s'.pc.i == s.pc.i + if s'.pc.Running? then 0 else 1
    requires step.Turn? ==>
               forall k: nat | k < |s.tasks| && k != s.pc.i && s.tasks[k].point.Dead? :: s'.tasks[k].point.Dead?
    ensures Fair(s')
  {
    hide Quota;
    if s.pass < PASSES { QuotaGrows(s.pass, PASSES); }
    if InPass(s.pc) {
      IncreasingIsShort(s.log, s.pc.i + if s.pc.Running? then 1 else 0);
      forall k: nat | InPass(s'.pc) && k < s'.pc.i && k < |s'.tasks| ensures Served(s', k) {
        if k < s.pc.i { assert Served(s, k); }
      }
    }
  }

  lemma ScanFair(s: State, s': State)
    requires Fair(s) && Next(s, s', Scan) && Swept(s) <= |s.tasks| <= MAX_TASKS
    ensures Fair(s')
  {
    hide Quota;
    IncreasingIsShort(s.log, s.pc.i);
    if s.pass < PASSES { QuotaGrows(s.pass, PASSES); }
    forall k: nat | InPass(s'.pc) && k < s'.pc.i && k < |s'.tasks| ensures Served(s', k) {
      if k < s.pc.i { assert Served(s, k); }
    }
  }

  // No task code revives a dead task or touches the log.
  lemma TurnKeepsLog(s: State, s': State, act: Action)
    requires Next(s, s', Turn(act)) && TurnOk(s)
    ensures s'.log == s.log && s'.turns == s.turns && s'.pass == s.pass && |s.tasks| <= |s'.tasks|
    ensures InPass(s'.pc) && s'.pc.i == s.pc.i + if s'.pc.Running? then 0 else 1
    ensures forall k: nat | k < |s.tasks| && k != s.pc.i && s.tasks[k].point.Dead? :: s'.tasks[k].point.Dead?
  {
  }

  lemma NextFair(s: State, s': State, step: Step)
    requires Inv(s) && Fair(s) && Next(s, s', step)
    ensures Fair(s')
  {
    if step.Scan? {
      ScanFair(s, s');
    } else {
      if step.Turn? { TurnKeepsLog(s, s', step.act); }
      hide Fair, TaskStep, TaskOk, ClockOk, TurnOk, EarliestOk;
      OtherStepFair(s, s', step);
    }
  }

  // -- Runs --------------------------------------------------------------------

  // A finite history from power-on, with any interleaving of contexts.
  ghost predicate Run(tr: seq<State>) {
    tr != [] && Init(tr[0]) && forall i: nat | i + 1 < |tr| :: Follows(tr[i], tr[i + 1])
  }

  ghost predicate Follows(s: State, s': State) {
    exists step :: Next(s, s', step)
  }

  lemma {:induction false} RunInv(tr: seq<State>, i: nat)
    requires Run(tr) && i < |tr|
    ensures Inv(tr[i]) && Fair(tr[i])
  {
    if i == 0 {
      InitInv(tr[0]);
    } else {
      RunInv(tr, i - 1);
      assert Follows(tr[i - 1], tr[i - 1 + 1]);
      var step :| Next(tr[i - 1], tr[i], step);
      NextInv(tr[i - 1], tr[i], step);
      NextFair(tr[i - 1], tr[i], step);
    }
  }

  // Not a sleeper whose two reads of the clock came too far apart.
  predicate KeepsTime(t: Task) {
    t.point.Parked? ==> Kept(t.point.w)
  }

  predicate AllKeepTime(ts: seq<Task>) {
    forall k: nat | k < |ts| :: KeepsTime(ts[k])
  }

  // No lost wake-up: at any moment of any run when the scheduler is idle, a task
  // that could make progress is one mm_halow_sched_pending() owns up to, or some
  // context has changed something and is yet to make its wake call.
  lemma NoLostWakeup(tr: seq<State>, i: nat, k: nat)
    requires Run(tr) && i < |tr| && tr[i].pc.Idle? && k < |tr[i].tasks| && CanProgress(tr[i], k)
    requires KeepsTime(tr[i].tasks[k])
    ensures Pending(tr[i]) || tr[i].owed > 0
  {
    RunInv(tr, i);
    IdleProgressIsSignalled(tr[i], k);
  }

  lemma IdleProgressIsSignalled(s: State, k: nat)
    requires Inv(s) && s.pc.Idle? && k < |s.tasks| && CanProgress(s, k) && KeepsTime(s.tasks[k])
    ensures Pending(s) || s.owed > 0
  {
    assert TaskOk(s, k);
    PendingIsDue(s.now, s.due);
    if s.tasks[k].point.Parked? {
      var w := s.tasks[k].point.w;
      if w.timeout.Some? { WaitTimesOut(s.now, w.start, w.timeout.value); }
      if w.on.Clock? && s.now < s.due { NotYet(s.now, w.on.at); }
    }
  }

  // due is the least of the parked tasks' deadlines and 2^31 - 1 ms after the
  // last pass began.
  ghost predicate IsEarliest(s: State, due: nat) {
    && due <= s.passStart + HALF - 1
    && (forall k: nat | k < |s.tasks| :: NotBefore(s.tasks[k], due))
    && (due == s.passStart + HALF - 1 || exists k: nat :: k < |s.tasks| && Deadline(s.tasks[k], due))
  }

  predicate NotBefore(t: Task, due: nat) {
    t.point.Parked? && t.point.w.timeout.Some? ==> due <= t.point.w.start + t.point.w.timeout.value
  }

  // With nothing woken, wake_at stands for the earliest deadline there is, and
  // pending turns true exactly when that time comes.
  lemma WakeAtIsTheEarliestDeadline(tr: seq<State>, i: nat)
    requires Run(tr) && i < |tr| && tr[i].pc.Idle? && !tr[i].woken && tr[i].owed == 0
    ensures tr[i].wakeAt == Wrap(tr[i].due) && IsEarliest(tr[i], tr[i].due)
    ensures Pending(tr[i]) <==> tr[i].now >= tr[i].due
  {
    RunInv(tr, i);
    var s := tr[i];
    PendingIsDue(s.now, s.due);
    forall k: nat | k < |s.tasks| ensures NotBefore(s.tasks[k], s.due) {
      assert TaskOk(s, k);
    }
  }

  // Every pass, as it ends, has given each task in the list that is not dead
  // exactly one turn, in creation order -- tasks created during the pass too.
  lemma EveryPassIsFair(tr: seq<State>, i: nat)
    requires Run(tr) && i < |tr| && tr[i].pc.Scanning? && tr[i].pc.i == |tr[i].tasks|
    ensures var s := tr[i];
            && (forall a, b | 0 <= a < b < |s.log| :: s.log[a] < s.log[b])
            && (forall k: nat | k < |s.tasks| && !s.tasks[k].point.Dead? :: k in s.log)
  {
    RunInv(tr, i);
    forall k: nat | k < |tr[i].tasks| && !tr[i].tasks[k].point.Dead? ensures k in tr[i].log {
      assert Served(tr[i], k);
    }
  }

  // However many tasks the tasks create, a run is over within this many turns.
  lemma RunsAreBounded(tr: seq<State>, i: nat)
    requires Run(tr) && i < |tr|
    ensures tr[i].turns <= Quota(PASSES)
  {
    RunInv(tr, i);
    hide Quota;
    if tr[i].pass < PASSES { QuotaGrows(tr[i].pass, PASSES); }
    if InPass(tr[i].pc) {
      IncreasingIsShort(tr[i].log, tr[i].pc.i + if tr[i].pc.Running? then 1 else 0);
    }
  }

  // -- The gate is only an optimisation ----------------------------------------

  predicate Internal(step: Step) {
    step.StartRun? || step.TopOfPass? || step.ClearWoken? || step.ResetWakeAt? || step.Scan? || step.Reap? || step.Turn?
  }

  ghost predicate Undisturbed(s: State, s': State) {
    exists step :: Next(s, s', step) && Internal(step)
  }

  // s0 ran on undisturbed, and every task is where s0 had it.
  predicate Still(s0: State, s: State) {
    && s.tasks == s0.tasks && s.avail == s0.avail && s.dead == s0.dead && s.now == s0.now
    && !s.woken && s.owed == 0
    && (s.pc.Running? ==>
         && s.pc.i < |s.tasks|
         && match s.pc.phase
            case Testing(w) => s.tasks[s.pc.i].point == Parked(w)
            case Timing(w) => s.tasks[s.pc.i].point == Parked(w) && w.timeout.Some?
            case Parking(w) => s.tasks[s.pc.i].point == Parked(w)
            case _ => false)
  }

  predicate NothingToDo(s: State) {
    forall k: nat | k < |s.tasks| :: !CanProgress(s, k) && !s.tasks[k].point.Dead?
  }

  lemma InternalStepIsStill(s0: State, s: State, s': State, step: Step)
    requires NothingToDo(s0) && Still(s0, s) && Next(s, s', step) && Internal(step)
    ensures Still(s0, s')
  {
    hide Wrap, Signed, Consume;
    if (s.pc.Scanning? || s.pc.Running? || s.pc.Reaping?) && s.pc.i < |s.tasks| {
      assert !CanProgress(s0, s.pc.i) && !s0.tasks[s.pc.i].point.Dead?;
      if s.pc.Running? && s.pc.phase.Parking? {
        assert SetPoint(s.tasks, s.pc.i, Parked(s.pc.phase.w)) == s.tasks;
      }
    }
  }

  lemma IdleMeansNothingToDo(s: State)
    requires Inv(s) && s.pc.Idle? && !Pending(s) && s.owed == 0 && AllKeepTime(s.tasks)
    ensures NothingToDo(s)
  {
    hide CanProgress, Pending, TaskOk, KeepsTime;
    forall k: nat | k < |s.tasks| ensures !CanProgress(s, k) && !s.tasks[k].point.Dead? {
      IdleAndDead(s, k);
      if CanProgress(s, k) { IdleProgressIsSignalled(s, k); }
    }
  }

  lemma IdleAndDead(s: State, k: nat)
    requires Inv(s) && s.pc.Idle? && !Pending(s) && s.owed == 0 && k < |s.tasks|
    ensures !s.tasks[k].point.Dead?
  {
    hide Wrap, Signed;
    assert TaskOk(s, k);
  }

  lemma StillAtFirst(s: State)
    requires s.pc.Idle? && !Pending(s) && s.owed == 0
    ensures Still(s, s)
  {
  }

  // When the poll finds nothing pending and no wake call is outstanding, the
  // pass it skips would have left every task, and all they share, as they are --
  // at each of its steps, however far it got.
  lemma {:induction false} SkippedPassChangesNothing(tr: seq<State>, i: nat, rest: seq<State>, j: nat)
    requires Run(tr) && i < |tr| && tr[i].pc.Idle? && !Pending(tr[i]) && tr[i].owed == 0 && AllKeepTime(tr[i].tasks)
    requires rest != [] && rest[0] == tr[i] && j < |rest|
    requires forall m: nat | m + 1 < |rest| :: Undisturbed(rest[m], rest[m + 1])
    ensures Still(tr[i], rest[j])
    decreases j
  {
    hide Inv, Next, Pending, Still, KeepsTime;
    RunInv(tr, i);
    IdleMeansNothingToDo(tr[i]);
    StillAtFirst(tr[i]);
    if j > 0 {
      SkippedPassChangesNothing(tr, i, rest, j - 1);
      assert Undisturbed(rest[j - 1], rest[j - 1 + 1]);
      var step :| Next(rest[j - 1], rest[j], step) && Internal(step);
      InternalStepIsStill(tr[i], rest[j - 1], rest[j], step);
    }
  }

  // -- Where it stops holding --------------------------------------------------

  // The deadline is seen by polls less than 2^31 ms late, and missed by the next
  // 2^31 ms of them.
  lemma LatePollsMissTheDeadline(now: nat, due: nat)
    requires due <= now
    ensures Signed(Wrap(Wrap(now) - Wrap(due))) >= 0 <==> (now - due) % WORD < HALF
  {
    WrapDifference(now, due);
  }
}
