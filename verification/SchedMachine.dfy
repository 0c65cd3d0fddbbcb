// The cooperative scheduler as a state machine.  One step is one atomic action
// of the scheduler, of the running task, or of any other context: interrupts and
// threads may act between any two steps.  Times are unbounded here; what the
// program keeps in 32-bit variables is kept modulo 2^32.
module SchedMachine {
  import opened Lists
  import opened Words
  import opened Config

  // What a wait is for: a token that is taken (a semaphore count, a queue item or
  // free slot, a notification, an unlocked mutex), a time, or another task's end.
  datatype Cond = Token(r: nat) | Clock(at: nat) | Joined(id: nat)

  datatype Wait = Wait(on: Cond, start: nat, timeout: Option<nat>)

  // Where a task stands while it is not running.
  datatype Point = Fresh | Yielded | Parked(w: Wait) | Dead

  datatype Task = Task(id: nat, point: Point)

  // Where the running task stands.  Owing and Leaving: it has changed something
  // and is about to call mm_halow_sched_wake().  Sleeping: it has read the clock in
  // mmosal_task_sleep(), and its wait is about to read it again.  The rest are the
  // statements of the loop in mm_halow_sched_wait().
  datatype Phase = Busy | Owing | Leaving | Sleeping(first: nat, duration: word)
                 | Testing(w: Wait) | Timing(w: Wait) | Retesting(w: Wait) | Parking(w: Wait)

  datatype Control = Idle | PassTop | Entering | Clearing | Scanning(i: nat) | Running(i: nat, phase: Phase)
                   | Reaping(i: nat)

  datatype State = State(
    now: nat,
    woken: bool,                   // mm_halow_sched_woken
    wakeAt: word,                  // mm_halow_sched_wake_at
    due: nat,                      // the unbounded time wakeAt stands for
    tasks: seq<Task>,              // mm_halow_task_list
    avail: map<nat, nat>,          // tokens to be had
    dead: set<nat>,                // tasks that have ended
    owed: nat,                     // other contexts between a change and its wake
    pc: Control,
    pass: nat,                     // passes completed in this run
    passStart: nat,
    runEnd: word,                  // mm_halow_sched_deadline
    log: seq<nat>,                 // turns given in this pass, as list positions
    turns: nat)                    // turns given in this run

  datatype Action = Act(avail: map<nat, nat>) | Create(id: nat) | Kill(k: nat) | Exit | Yield
                  | BeginWait(on: Cond, timeout: Option<nat>) | BeginSleep(duration: word) | Proceed

  datatype Step = Tick | Disturb(avail: map<nat, nat>) | OtherWakes | OtherCreates(id: nat) | OtherKills(k: nat)
                | StartRun | TopOfPass | ClearWoken | ResetWakeAt | Scan | Reap | Turn(act: Action)

  function Tokens(s: State, r: nat): nat {
    if r in s.avail then s.avail[r] else 0
  }

  predicate Holds(s: State, c: Cond) {
    match c
    case Token(r) => Tokens(s, r) > 0
    case Clock(at) => Signed(Wrap(Wrap(s.now) - Wrap(at))) >= 0
    case Joined(id) => id in s.dead
  }

  // A successful call of the condition takes what it found.
  function Consume(s: State, c: Cond): map<nat, nat> {
    if c.Token? && Tokens(s, c.r) > 0 then s.avail[c.r := Tokens(s, c.r) - 1] else s.avail
  }

  predicate TimedOut(s: State, w: Wait) {
    w.timeout.Some? && Wrap(s.now - w.start) >= w.timeout.value
  }

  // mm_halow_sched_pending()
  predicate Pending(s: State) {
    s.woken || Signed(Wrap(Wrap(s.now) - s.wakeAt)) >= 0
  }

  // Given a turn now, task k would do something other than park again.
  predicate CanProgress(s: State, k: nat)
    requires k < |s.tasks|
  {
    match s.tasks[k].point
    case Fresh => true
    case Yielded => true
    case Parked(w) => Holds(s, w.on) || TimedOut(s, w)
    case Dead => false
  }

  function SetPoint(ts: seq<Task>, k: nat, p: Point): seq<Task>
    requires k < |ts|
  {
    ts[k := ts[k].(point := p)]
  }

  // Task k gives up its turn.  If it has been marked dead meanwhile it stays so,
  // and is not resumed.
  function Rest(ts: seq<Task>, k: nat, p: Point): seq<Task>
    requires k < |ts|
  {
    if ts[k].point.Dead? then ts else SetPoint(ts, k, p)
  }

  function Removed(ts: seq<Task>, k: nat): seq<Task>
    requires k < |ts|
  {
    ts[..k] + ts[k + 1..]
  }

  // -- Assumption about time ---------------------------------------------------

  predicate InPass(pc: Control) {
    pc.Scanning? || pc.Running?
  }

  // A pass lasts less than 2^31 - CAP ms, and outside one the poll is called
  // before wake_at is 2^31 ms overdue (it is called every millisecond).
  predicate Timely(s: State) {
    if InPass(s.pc) then s.now < s.passStart + HALF - CAP else s.now < s.due + HALF
  }

  // -- Steps -------------------------------------------------------------------

  predicate Next(s: State, s': State, step: Step) {
    match step
    case Tick => s' == s.(now := s.now + 1) && Timely(s')
    case Disturb(a) => s' == s.(avail := a, owed := s.owed + 1)
    case OtherWakes => s.owed > 0 && s' == s.(owed := s.owed - 1, woken := true)
    case OtherCreates(id) =>
      |s.tasks| < MAX_TASKS && s' == s.(tasks := s.tasks + [Task(id, Fresh)], owed := s.owed + 1)
    case OtherKills(k) =>
      && k < |s.tasks|
      && s' == s.(tasks := SetPoint(s.tasks, k, Dead), dead := s.dead + {s.tasks[k].id}, owed := s.owed + 1)
    case StartRun =>
      s.pc.Idle? && s' == s.(pc := PassTop, pass := 0, runEnd := Wrap(s.now + BUDGET), log := [], turns := 0)
    case TopOfPass =>
      && s.pc.PassTop?
      && s' == if s.pass < PASSES && Signed(Wrap(Wrap(s.now) - s.runEnd)) < 0
               then s.(pc := Entering)
               else s.(pc := Reaping(0))
    case ClearWoken => s.pc.Entering? && s' == s.(woken := false, pc := Clearing)
    case ResetWakeAt =>
      && s.pc.Clearing?
      && s' == s.(due := s.now + HALF - 1, wakeAt := Wrap(s.now + HALF - 1), passStart := s.now,
                  log := [], pc := Scanning(0))
    case Scan => s.pc.Scanning? && s' == ScanNext(s, s.pc.i)
    case Reap => s.pc.Reaping? && s' == ReapNext(s, s.pc.i)
    case Turn(act) => s.pc.Running? && s.pc.i < |s.tasks| && TaskStep(s, s', s.pc.i, s.pc.phase, act)
  }

  // One test of the loop over the task list.
  function ScanNext(s: State, i: nat): State {
    if i >= |s.tasks| then
      if s.woken then s.(pass := s.pass + 1, pc := PassTop) else s.(pc := Reaping(0))
    else if s.tasks[i].point.Dead? then s.(pc := Scanning(i + 1))
    else s.(pc := Running(i, Resumed(s.tasks[i].point)), log := s.log + [i], turns := s.turns + 1)
  }

  // One turn of the loop in mm_halow_sched_reap(); the run is over with its last.
  function ReapNext(s: State, i: nat): State {
    if i >= |s.tasks| then s.(pc := Idle)
    else
      var dead := s.tasks[i].point.Dead?;
      s.(tasks := if dead then Removed(s.tasks, i) else s.tasks,
         pc := if i + 1 == |s.tasks| then Idle else Reaping(if dead then i else i + 1))
  }

  // A parked task resumes at the top of its wait loop.
  function Resumed(p: Point): Phase {
    if p.Parked? then Testing(p.w) else Busy
  }

  predicate TaskStep(s: State, s': State, i: nat, ph: Phase, act: Action)
    requires i < |s.tasks|
  {
    if ph.Busy? then OwnCode(s, s', i, act) else act.Proceed? && s' == Proceeded(s, i, ph)
  }

  // The next statement of the task's call into the scheduler.
  function Proceeded(s: State, i: nat, ph: Phase): State
    requires i < |s.tasks|
  {
    match ph
    case Busy => s
    case Sleeping(first, duration) => s.(pc := Running(i, Testing(SleepWait(first, duration, s.now))))
    case Owing => s.(woken := true, pc := Running(i, Busy))
    case Leaving => s.(woken := true, pc := Scanning(i + 1))
    case Testing(w) =>
      if Holds(s, w.on) then s.(avail := Consume(s, w.on), pc := Running(i, Owing))
      else if w.timeout == Some(0) then s.(pc := Running(i, Busy))
      else if w.timeout.None? then s.(pc := Running(i, Parking(w)))
      else s.(pc := Running(i, Timing(w)))
    case Timing(w) => s.(pc := Running(i, if TimedOut(s, w) then Retesting(w) else Parking(w)))
    case Retesting(w) =>
      if Holds(s, w.on) then s.(avail := Consume(s, w.on), pc := Running(i, Owing))
      else s.(pc := Running(i, Busy))
    case Parking(w) => Park(s, i, w)
  }

  // mm_halow_sched_park()
  function Park(s: State, i: nat, w: Wait): State
    requires i < |s.tasks|
  {
    var s1 := s.(tasks := Rest(s.tasks, i, Parked(w)), pc := Scanning(i + 1));
    if w.timeout.None? then s1
    else
      var at := w.start + w.timeout.value;
      if Signed(Wrap(Wrap(at) - s.wakeAt)) < 0 then s1.(wakeAt := Wrap(at), due := at) else s1
  }

  // What a task may do between scheduler calls.
  predicate OwnCode(s: State, s': State, i: nat, act: Action)
    requires i < |s.tasks|
  {
    match act
    case Act(a) => s' == s.(avail := a, pc := Running(i, Owing))
    case Create(id) =>
      |s.tasks| < MAX_TASKS && s' == s.(tasks := s.tasks + [Task(id, Fresh)], pc := Running(i, Owing))
    case Kill(k) =>
      k < |s.tasks|
      && s' == s.(tasks := SetPoint(s.tasks, k, Dead), dead := s.dead + {s.tasks[k].id}, pc := Running(i, Owing))
    case Exit =>
      s' == s.(tasks := SetPoint(s.tasks, i, Dead), dead := s.dead + {s.tasks[i].id}, pc := Running(i, Leaving))
    case Yield => s' == s.(woken := true, tasks := Rest(s.tasks, i, Yielded), pc := Scanning(i + 1))
    case BeginWait(on, timeout) =>
      && !on.Clock? && (timeout.Some? ==> timeout.value <= CAP)
      && s' == s.(pc := Running(i, Testing(Wait(on, s.now, timeout))))
    case BeginSleep(duration) => duration > 0 && s' == s.(pc := Running(i, Sleeping(s.now, duration)))
    case Proceed => false
  }

  // -- Sleeping ----------------------------------------------------------------

  // What a wait of so many milliseconds is capped to; UINT32_MAX is for ever.
  function Capped(ms: word): Option<nat> {
    if ms == WORD - 1 then None else Some(if ms < CAP then ms else CAP)
  }

  // The wait of a sleep whose first read of the clock was first, begun at its second.
  function SleepWait(first: nat, duration: word, second: nat): Wait {
    Wait(Clock(first + duration), second, Capped(duration))
  }

  // The two reads were no further apart than the capped wait leaves over.
  predicate Kept(w: Wait) {
    w.on.Clock? ==> w.timeout.Some? && w.start + w.timeout.value <= w.on.at
  }

  predicate Init(s: State) {
    && s.tasks == [] && !s.woken && s.owed == 0 && s.pc.Idle?
    && s.passStart == s.now && s.due == s.now + HALF - 1 && s.wakeAt == Wrap(s.due)
    && s.pass == 0 && s.log == [] && s.turns == 0
  }

  // -- The inductive invariant -------------------------------------------------

  // Somebody has woken the scheduler, or is about to.
  predicate Signalled(s: State) {
    s.woken || s.owed > 0 || (s.pc.Running? && (s.pc.phase.Owing? || s.pc.phase.Leaving?))
  }

  // False, and only some other step can make it true.
  predicate Blocked(s: State, c: Cond) {
    match c
    case Token(r) => Tokens(s, r) == 0
    case Clock(_) => true
    case Joined(id) => id !in s.dead
  }

  // How much of the list this pass has dealt with.
  function Swept(s: State): nat {
    if InPass(s.pc) then s.pc.i else |s.tasks|
  }

  // The same, counted from when woken was last cleared.
  function Visited(s: State): nat {
    if s.pc.Clearing? then 0 else Swept(s)
  }

  predicate Deadline(t: Task, at: nat) {
    t.point.Parked? && t.point.w.timeout.Some? && t.point.w.start + t.point.w.timeout.value == at
  }

  predicate TaskOk(s: State, k: nat)
    requires k < |s.tasks|
  {
    var p := s.tasks[k].point;
    && (k < Visited(s) ==> p.Dead? || Signalled(s) || (p.Parked? && Blocked(s, p.w.on)))
    && (p.Parked? ==> WaitOk(s.now, p.w) && Recent(s, p.w))
    && (p.Parked? && p.w.timeout.Some? && k < Swept(s) ==> s.due <= p.w.start + p.w.timeout.value)
    && (s.pc.Idle? || (s.pc.Reaping? && k < s.pc.i) ==> p.Dead? ==> Signalled(s))
  }

  // A wait that has found its condition false: timeouts are capped, and a sleeper
  // is timed and its time was still to come, no more than 2^31 ms away.
  predicate WaitOk(now: nat, w: Wait) {
    && WaitBegun(now, w)
    && (w.on.Clock? ==> w.timeout.Some? && w.start < w.on.at <= now + HALF)
  }

  predicate WaitBegun(now: nat, w: Wait) {
    w.start <= now && (w.timeout.Some? ==> w.timeout.value <= CAP)
  }

  // A sleep whose wait has yet to call its condition: its first read of the clock
  // was in this pass, and one that would wait for ever has 2^32 - 1 ms to go.
  predicate JustBegun(s: State, w: Wait) {
    && WaitBegun(s.now, w)
    && (w.on.Clock? ==> s.passStart < w.on.at < w.start + WORD)
    && (w.on.Clock? && w.timeout.None? ==> w.on.at >= s.passStart + WORD - 1)
  }

  // The wait ends no earlier than 2^31 ms before this pass began.
  predicate Recent(s: State, w: Wait) {
    w.timeout.Some? ==> s.passStart < w.start + w.timeout.value + HALF
  }

  predicate TurnOk(s: State) {
    s.pc.Running? ==>
      && s.pc.i < |s.tasks|
      && (s.tasks[s.pc.i].point.Dead? ==> Signalled(s))
      && match s.pc.phase
         case Leaving => s.tasks[s.pc.i].point.Dead?
         case Sleeping(first, duration) => s.passStart <= first <= s.now && duration > 0
         case Testing(w) => (WaitOk(s.now, w) || JustBegun(s, w)) && Recent(s, w)
         case Timing(w) => WaitOk(s.now, w) && Recent(s, w) && w.timeout.Some? && (Blocked(s, w.on) || Signalled(s))
         case Parking(w) =>
           && WaitOk(s.now, w) && (Blocked(s, w.on) || Signalled(s))
           && (w.timeout.Some? ==> s.passStart < w.start + w.timeout.value)
         case _ => true
  }

  predicate ClockOk(s: State) {
    && s.wakeAt == Wrap(s.due)
    && s.passStart <= s.now && s.passStart < s.due < s.passStart + HALF
    && Timely(s)
  }

  // wake_at is as far off as it was set, or some parked task's deadline.
  predicate EarliestOk(s: State) {
    s.pc.Clearing? || Signalled(s) || s.due == s.passStart + HALF - 1
    || exists k: nat :: k < Swept(s) && k < |s.tasks| && Deadline(s.tasks[k], s.due)
  }

  predicate Inv(s: State) {
    && ClockOk(s)
    && Swept(s) <= |s.tasks| <= MAX_TASKS
    && (forall k: nat | k < |s.tasks| :: TaskOk(s, k))
    && TurnOk(s)
    && EarliestOk(s)
  }
}
