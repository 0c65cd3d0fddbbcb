// What a run of the scheduler makes of its passes and its tasks, told from the
// states of its history alone: when one pass follows another and when the run
// stops, who leaves the list, what a wait takes and when it gives up.
module RunProofs {
  import opened Words
  import opened Config
  import opened Lists
  import opened SchedMachine
  import opened SchedProofs

  // -- Reading a history -------------------------------------------------------

  // From s to s' somebody calls mm_halow_sched_wake(), or the task running yields.
  predicate WakeCall(s: State, s': State) {
    || s'.owed < s.owed
    || (s.pc.Running? && s'.pc != s.pc
        && (s.pc.phase.Owing? || s.pc.phase.Leaving? || (s.pc.phase.Busy? && s'.pc.Scanning?)))
  }

  predicate PassBegins(s: State, s': State) {
    s.pc.Entering? && s'.pc.Clearing?
  }

  // There has been a wake call since the last pass began.
  predicate WokenSince(tr: seq<State>, i: nat)
    requires i < |tr|
  {
    i > 0 && !PassBegins(tr[i - 1], tr[i]) && (WokenSince(tr, i - 1) || WakeCall(tr[i - 1], tr[i]))
  }

  // The passes begun in the run under way.
  function Passes(tr: seq<State>, i: nat): nat
    requires i < |tr|
  {
    if i == 0 || tr[i].pc.Idle? then 0
    else Passes(tr, i - 1) + if PassBegins(tr[i - 1], tr[i]) then 1 else 0
  }

  // The clock as the run under way began.
  function Began(tr: seq<State>, i: nat): nat
    requires i < |tr|
  {
    if i == 0 || tr[i].pc.Idle? then tr[i].now else Began(tr, i - 1)
  }

  // The budget is spent, to a comparison of 32-bit times: from BUDGET on, for
  // 2^31 ms in every 2^32.
  predicate OutOfTime(elapsed: int) {
    elapsed >= BUDGET && (elapsed - BUDGET) % WORD < HALF
  }

  predicate MorePassesDue(tr: seq<State>, i: nat)
    requires i < |tr|
  {
    Passes(tr, i) < PASSES && !OutOfTime(tr[i].now - Began(tr, i))
  }

  predicate AtEnd(s: State) {
    s.pc.Scanning? && s.pc.i >= |s.tasks|
  }

  lemma BudgetSpent(now: nat, began: nat)
    requires began <= now
    ensures Signed(Wrap(Wrap(now) - Wrap(began + BUDGET))) >= 0 <==> OutOfTime(now - began)
    ensures now < began + BUDGET ==> !OutOfTime(now - began)
  {
    WrapDifference(now, began + BUDGET);
    if now < began + BUDGET { SignedDifference(now, began + BUDGET); }
  }

  // What the program keeps, against what has happened.
  ghost predicate Tallied(s: State, woken: bool, passes: nat, began: nat) {
    && (s.woken <==> woken) && began <= s.now
    && (!s.pc.Idle? ==> s.runEnd == Wrap(began + BUDGET))
    && (!s.pc.Idle? && !s.pc.Reaping? ==> passes == s.pass + if s.pc.Clearing? || InPass(s.pc) then 1 else 0)
  }

  lemma NextTallied(s: State, s': State, step: Step, woken: bool, passes: nat, began: nat)
    requires Next(s, s', step) && Tallied(s, woken, passes, began) && (s.pc.Idle? ==> passes == 0 && began == s.now)
    ensures Tallied(s', !PassBegins(s, s') && (woken || WakeCall(s, s')),
                 if s'.pc.Idle? then 0 else passes + if PassBegins(s, s') then 1 else 0,
                 if s'.pc.Idle? then s'.now else began)
  {
    if step.Turn? {
      TurnTallied(s, s', step.act);
      hide TaskStep;
    }
    hide Wrap, Signed, Timely;
  }

  // Within a turn woken is set by exactly the steps that are wake calls.
  lemma TurnTallied(s: State, s': State, act: Action)
    requires Next(s, s', Turn(act))
    ensures s'.woken == (s.woken || WakeCall(s, s')) && !PassBegins(s, s') && s'.now == s.now
    ensures InPass(s'.pc) && s'.pass == s.pass && s'.runEnd == s.runEnd
  {
    hide Wrap, Signed, Holds, TimedOut, Consume;
  }

  lemma {:induction false} RunTallied(tr: seq<State>, i: nat)
    requires Run(tr) && i < |tr|
    ensures Tallied(tr[i], WokenSince(tr, i), Passes(tr, i), Began(tr, i))
  {
    if i > 0 {
      RunTallied(tr, i - 1);
      assert Follows(tr[i - 1], tr[i - 1 + 1]);
      var step :| Next(tr[i - 1], tr[i], step);
      NextTallied(tr[i - 1], tr[i], step, WokenSince(tr, i - 1), Passes(tr, i - 1), Began(tr, i - 1));
    }
  }

  // -- When a run goes on and when it stops ------------------------------------

  // A pass goes on to the end of the list, and ends the run's passes exactly when
  // nobody has called wake since it began; a further pass is made exactly when the
  // number of passes and the time allow.
  lemma PassesFollowWakes(tr: seq<State>, i: nat)
    requires Run(tr) && i + 1 < |tr|
    ensures InPass(tr[i].pc) && !InPass(tr[i + 1].pc) ==>
              AtEnd(tr[i]) && tr[i + 1].pc == if WokenSince(tr, i) then PassTop else Reaping(0)
    ensures tr[i].pc.PassTop? && !tr[i + 1].pc.PassTop? ==>
              tr[i + 1].pc == if MorePassesDue(tr, i) then Entering else Reaping(0)
  {
    hide Wrap, Signed, Inv, Fair, WokenSince, Passes, Began, OutOfTime, Next, TurnOk;
    RunTallied(tr, i);
    RunInv(tr, i);
    TurnInInv(tr[i]);
    assert Follows(tr[i], tr[i + 1]);
    var step :| Next(tr[i], tr[i + 1], step);
    ScanEnds(tr[i], tr[i + 1], step);
    BudgetSpent(tr[i].now, Began(tr, i));
  }

  lemma ScanEnds(s: State, s': State, step: Step)
    requires Next(s, s', step) && TurnOk(s)
    ensures InPass(s.pc) && !InPass(s'.pc) ==> AtEnd(s) && s'.pc == if s.woken then PassTop else Reaping(0)
    ensures s.pc.PassTop? && !s'.pc.PassTop? ==>
              s'.pc == if s.pass < PASSES && Signed(Wrap(Wrap(s.now) - s.runEnd)) < 0 then Entering else Reaping(0)
  {
    hide Wrap, Signed, Holds, TimedOut, Consume, Timely;
  }

  // Why the run makes no further pass.
  ghost predicate Over(tr: seq<State>, e: nat)
    requires e < |tr|
  {
    || (AtEnd(tr[e]) && !WokenSince(tr, e))
    || (tr[e].pc.PassTop? && (Passes(tr, e) == PASSES || tr[e].now >= Began(tr, e) + BUDGET))
  }

  // A run that has come to the reap had nothing woken as its last pass ended, or
  // had made its number of passes, or had spent its time.
  lemma RunsStopForAReason(tr: seq<State>, e: nat)
    requires Run(tr) && e + 1 < |tr| && !tr[e].pc.Reaping? && tr[e + 1].pc.Reaping?
    ensures Over(tr, e)
  {
    PassesFollowWakes(tr, e);
    RunTallied(tr, e);
    RunInv(tr, e);
    assert Follows(tr[e], tr[e + 1]);
    var step :| Next(tr[e], tr[e + 1], step);
    hide Wrap, Signed, Inv, WokenSince, Passes, Began;
    TheWayToReap(tr[e], tr[e + 1], step);
  }

  lemma TheWayToReap(s: State, s': State, step: Step)
    requires Next(s, s', step) && TurnOk(s) && !s.pc.Reaping?
    ensures s'.pc.Reaping? ==> s.pc.PassTop? || InPass(s.pc)
    ensures s'.pc.Idle? ==> s.pc.Idle?
  {
    hide Wrap, Signed, Holds, TimedOut, Consume, Timely;
  }

  // The run begun at b made its passes, and came from e to the reap.
  ghost predicate Finished(tr: seq<State>, b: nat, e: nat) {
    && 0 < b <= e && e + 1 < |tr| && tr[b - 1].pc.Idle? && tr[b].pc.PassTop?
    && (forall j | b <= j <= e :: !tr[j].pc.Idle? && !tr[j].pc.Reaping?) && tr[e + 1].pc.Reaping?
    && Over(tr, e) && Began(tr, e) == tr[b - 1].now
  }

  // The run begun at b is over, and went as it should.
  ghost predicate WholeRun(tr: seq<State>, b: nat) {
    exists e :: Finished(tr, b, e)
  }

  lemma {:induction false} BeganThen(tr: seq<State>, b: nat, e: nat)
    requires 0 < b <= e < |tr| && tr[b - 1].pc.Idle? && forall j | b <= j <= e :: !tr[j].pc.Idle?
    ensures Began(tr, e) == tr[b - 1].now
    decreases e
  {
    if e > b { BeganThen(tr, b, e - 1); }
  }

  // A run that is over has been through its passes.
  lemma {:induction false} RunsFinish(tr: seq<State>, b: nat, e: nat)
    requires Run(tr) && 0 < b <= e < |tr| && tr[b - 1].pc.Idle? && tr[b].pc.PassTop? && tr[|tr| - 1].pc.Idle?
    requires forall j | b <= j <= e :: !tr[j].pc.Idle? && !tr[j].pc.Reaping?
    ensures WholeRun(tr, b)
    decreases |tr| - e
  {
    hide Over, Began, Inv, Fair, Next, TurnOk;
    if tr[e + 1].pc.Reaping? {
      RunsStopForAReason(tr, e);
      BeganThen(tr, b, e);
      assert Finished(tr, b, e);
    } else {
      RunInv(tr, e);
      assert Follows(tr[e], tr[e + 1]);
      var step :| Next(tr[e], tr[e + 1], step);
      TurnInInv(tr[e]);
      TheWayToReap(tr[e], tr[e + 1], step);
      RunsFinish(tr, b, e + 1);
    }
  }

  lemma TurnInInv(s: State)
    requires Inv(s)
    ensures TurnOk(s)
  {
  }

  // -- The list and the dead ---------------------------------------------------

  // Task k of s is task j of s', and no more alive than it was.
  predicate Carried(s: State, k: nat, s': State, j: nat) {
    && k < |s.tasks| && j < |s'.tasks| && s'.tasks[j].id == s.tasks[k].id
    && (s.tasks[k].point.Dead? ==> s'.tasks[j].point.Dead?)
  }

  // A task leaves the list only when dead, alone, and with the others in order.
  ghost predicate ListKept(s: State, s': State) {
    || (|s.tasks| <= |s'.tasks| && forall k: nat | k < |s.tasks| :: Carried(s, k, s', k))
    || (|s'.tasks| == |s.tasks| - 1
        && exists d: nat :: d < |s.tasks| && s.tasks[d].point.Dead? && CarriedBut(s, d, s'))
  }

  // Where what is now at j was, before the task at d left.
  function Before(d: nat, j: nat): nat {
    if j < d then j else j + 1
  }

  predicate CarriedBut(s: State, d: nat, s': State) {
    forall j: nat | j < |s'.tasks| :: Carried(s, Before(d, j), s', j)
  }

  lemma OnlyTheDeadLeave(tr: seq<State>, i: nat)
    requires Run(tr) && i + 1 < |tr|
    ensures ListKept(tr[i], tr[i + 1])
  {
    hide Next, Carried;
    assert Follows(tr[i], tr[i + 1]);
    var step :| Next(tr[i], tr[i + 1], step);
    if step.Reap? {
      ReapKeepsTheLiving(tr[i], tr[i + 1]);
    } else {
      NobodyElseReaps(tr[i], tr[i + 1], step);
    }
  }

  lemma ReapKeepsTheLiving(s: State, s': State)
    requires Next(s, s', Reap)
    ensures ListKept(s, s')
  {
    hide Wrap, Signed;
    var d := s.pc.i;
    if d < |s.tasks| && s.tasks[d].point.Dead? {
      assert CarriedBut(s, d, s');
    }
  }

  lemma NobodyElseReaps(s: State, s': State, step: Step)
    requires Next(s, s', step) && !step.Reap?
    ensures |s.tasks| <= |s'.tasks| && forall k: nat | k < |s.tasks| :: Carried(s, k, s', k)
  {
    hide Wrap, Signed, Holds, TimedOut, Consume, Timely;
  }

  lemma {:induction false} StaysListed(tr: seq<State>, i: nat, j: nat, k: nat)
    requires Run(tr) && i <= j < |tr| && k < |tr[i].tasks| && forall m | i <= m < j :: !tr[m].pc.Reaping?
    ensures Carried(tr[i], k, tr[j], k)
    decreases j
  {
    hide Next;
    if i < j {
      StaysListed(tr, i, j - 1, k);
      assert Follows(tr[j - 1], tr[j - 1 + 1]);
      var step :| Next(tr[j - 1], tr[j], step);
      if step.Reap? { ReapsOnlyReaping(tr[j - 1], tr[j], step); }
      NobodyElseReaps(tr[j - 1], tr[j], step);
      assert Carried(tr[j - 1], k, tr[j], k);
    }
  }

  lemma ReapsOnlyReaping(s: State, s': State, step: Step)
    requires Next(s, s', step) && step.Reap?
    ensures s.pc.Reaping?
  {
  }

  // Whoever creates a task, and whenever, it is listed with the others, and has a
  // turn in the first pass to end from then on unless it is dead by then.
  lemma NewTasksHaveATurn(tr: seq<State>, i: nat, j: nat, id: nat)
    requires Run(tr) && i < j < |tr| && AtEnd(tr[j]) && forall m | i < m < j :: !tr[m].pc.Reaping?
    requires Next(tr[i], tr[i + 1], OtherCreates(id)) || Next(tr[i], tr[i + 1], Turn(Create(id)))
    ensures var k, s := |tr[i].tasks|, tr[j];
            k < |s.tasks| && s.tasks[k].id == id && (s.tasks[k].point.Dead? || k in s.log)
  {
    NewlyListed(tr[i], tr[i + 1], id);
    hide Next;
    StaysListed(tr, i + 1, j, |tr[i].tasks|);
    RunInv(tr, j);
    EveryPassIsFair(tr, j);
  }

  lemma NewlyListed(s: State, s': State, id: nat)
    requires Next(s, s', OtherCreates(id)) || Next(s, s', Turn(Create(id)))
    ensures |s.tasks| < |s'.tasks| && s'.tasks[|s.tasks|].id == id
  {
  }

  // By state i some listed task of that id has been marked dead.
  ghost predicate Ended(tr: seq<State>, i: nat, id: nat)
    requires i < |tr|
  {
    exists j: nat :: j <= i && Task(id, Dead) in tr[j].tasks
  }

  // From s to s' exactly the tasks newly marked dead are counted among the ended.
  lemma DeadStep(s: State, s': State, step: Step, id: nat)
    requires Next(s, s', step)
    ensures id in s'.dead && id !in s.dead ==> Task(id, Dead) in s'.tasks
    ensures Task(id, Dead) in s'.tasks ==> id in s'.dead || Task(id, Dead) in s.tasks
    ensures id in s.dead ==> id in s'.dead
  {
    hide Wrap, Signed, Timely;
    if step.Turn? {
      DeadTurn(s, s', step.act, id);
      hide TaskStep;
    } else {
      NoneElse(s.tasks, s'.tasks, Task(id, Dead));
      if step.OtherKills? { assert s'.tasks[step.k] == Task(s.tasks[step.k].id, Dead); }
    }
  }

  lemma NoneElse(ts: seq<Task>, ts': seq<Task>, t: Task)
    ensures t in ts' && t !in ts ==> exists j: nat :: j < |ts'| && ts'[j] == t && (j < |ts| ==> ts[j] != t)
  {
    if t in ts' && t !in ts {
      var j: nat :| j < |ts'| && ts'[j] == t;
      assert j < |ts| ==> ts[j] in ts;
    }
  }

  lemma DeadTurn(s: State, s': State, act: Action, id: nat)
    requires Next(s, s', Turn(act))
    ensures id in s'.dead && id !in s.dead ==> Task(id, Dead) in s'.tasks
    ensures Task(id, Dead) in s'.tasks ==> id in s'.dead || Task(id, Dead) in s.tasks
    ensures id in s.dead ==> id in s'.dead
  {
    hide Wrap, Signed, Holds, TimedOut, Consume;
    NoneElse(s.tasks, s'.tasks, Task(id, Dead));
    if s.pc.phase.Busy? && (act.Kill? || act.Exit?) {
      var k := if act.Kill? then act.k else s.pc.i;
      assert s'.tasks[k] == Task(s.tasks[k].id, Dead);
    }
  }

  // Those who join see as ended exactly the tasks marked dead so far, as soon as
  // they are and for good, whoever marked them.
  lemma {:induction false} TheEndedAreTheDead(tr: seq<State>, i: nat, id: nat)
    requires Run(tr) && i < |tr|
    ensures id in tr[i].dead <==> id in tr[0].dead || Ended(tr, i, id)
  {
    if i > 0 {
      TheEndedAreTheDead(tr, i - 1, id);
      assert Follows(tr[i - 1], tr[i - 1 + 1]);
      var step :| Next(tr[i - 1], tr[i], step);
      DeadStep(tr[i - 1], tr[i], step, id);
    }
  }

  // -- Waits -------------------------------------------------------------------

  // What a condition waits for has come: a time, within half of each turn of the
  // clock; the end of a task, exactly when it has been marked dead.
  lemma ConditionsMeanWhatTheySay(tr: seq<State>, i: nat, at: nat, id: nat)
    requires Run(tr) && i < |tr|
    ensures Holds(tr[i], Clock(at)) <==> (tr[i].now - at) % WORD < HALF
    ensures Holds(tr[i], Joined(id)) <==> id in tr[0].dead || Ended(tr, i, id)
  {
    WrapDifference(tr[i].now, at);
    TheEndedAreTheDead(tr, i, id);
  }

  // Every token there was but one of r's.
  ghost predicate OneTaken(s: State, s': State, r: nat) {
    forall q: nat :: Tokens(s', q) == Tokens(s, q) - if q == r then 1 else 0
  }

  // A statement of a call into the scheduler leaves the tokens alone, unless it is
  // a call of the condition of a wait that finds it true: that takes one of the
  // tokens waited for, if it is a token, and always goes on to call wake.
  lemma WaitsTakeWhatTheyFind(s: State, s': State)
    requires s.pc.Running? && !s.pc.phase.Busy? && Next(s, s', Turn(Proceed))
    ensures if s'.pc.Running? && s'.pc.phase.Owing?
            then (s.pc.phase.Testing? || s.pc.phase.Retesting?) && Holds(s, s.pc.phase.w.on)
                 && if s.pc.phase.w.on.Token? then OneTaken(s, s', s.pc.phase.w.on.r) else s'.avail == s.avail
            else s'.avail == s.avail
                 && (s.pc.phase.Testing? || s.pc.phase.Retesting? ==> !Holds(s, s.pc.phase.w.on))
  {
    hide Wrap, Signed, TimedOut;
  }

  // In every run a timed wait that compares the clock goes on to ask a last time
  // exactly when its time has come, in unbounded time, and parks otherwise; and it
  // parks with its own deadline.
  lemma WaitsGiveUpOnTime(tr: seq<State>, i: nat, k: nat, w: Wait)
    requires Run(tr) && i + 1 < |tr| && tr[i].pc == Running(k, Timing(w)) && tr[i + 1].pc != tr[i].pc
    ensures w.timeout.Some? && tr[i + 1].now == tr[i].now
    ensures tr[i + 1].pc == Running(k, if tr[i].now >= w.start + w.timeout.value then Retesting(w) else Parking(w))
  {
    RunInv(tr, i);
    assert Follows(tr[i], tr[i + 1]);
    var step :| Next(tr[i], tr[i + 1], step);
    WaitTimesOut(tr[i].now, w.start, w.timeout.value);
  }
}
