// mmosal_task_sleep() reads the clock twice: once for the time it sleeps until,
// and again as its wait begins.  When that can cost a sleeper its wake-up.
module SleepProofs {
  import opened Lists
  import opened Words
  import opened Config
  import opened SchedMachine
  import opened SchedProofs

  // A sleep's second read of the clock.
  predicate SecondRead(s: State, s': State) {
    s.pc.Running? && s.pc.phase.Sleeping? && s'.pc.Running? && s'.pc.phase.Testing?
  }

  function Min(a: nat, b: nat): nat {
    if a < b then a else b
  }

  // A sleep of duration ms whose reads are gap ms apart: the wait's own timeout
  // does not outlast it, or it is over before its wait begins.
  predicate Spares(duration: nat, gap: nat) {
    gap + Min(duration, CAP) <= duration || duration <= gap
  }

  predicate SparesAt(s: State, s': State) {
    SecondRead(s, s') ==> s.pc.phase.first <= s.now && Spares(s.pc.phase.duration, s.now - s.pc.phase.first)
  }

  // Idle, with a sleeper whose time has come, and nobody to know it.
  ghost predicate Misses(s: State, k: nat) {
    && s.pc.Idle? && k < |s.tasks| && s.tasks[k].point.Parked? && s.tasks[k].point.w.on.Clock?
    && CanProgress(s, k) && !Pending(s) && s.owed == 0
  }

  ghost predicate NeverMisses(tr: seq<State>) {
    forall i: nat, k: nat | i < |tr| :: !Misses(tr[i], k)
  }

  // -- Sleeps that spare enough are never missed ---------------------------------

  predicate Careful(s: State) {
    && AllKeepTime(s.tasks)
    && (s.pc.Running? ==>
          match s.pc.phase
          case Testing(w) => Kept(w) || w.timeout.None? || w.on.at <= w.start
          case Timing(w) => Kept(w)
          case Parking(w) => Kept(w)
          case _ => true)
  }

  lemma CarefulTurn(s: State, s': State, act: Action)
    requires Inv(s) && Inv(s') && Careful(s) && Next(s, s', Turn(act)) && SparesAt(s, s')
    ensures Careful(s')
  {
    hide Wrap, Signed, TaskOk, ClockOk, EarliestOk, Holds, TimedOut;
    assert forall k: nat | k < |s.tasks| :: KeepsTime(s.tasks[k]);
  }

  lemma CarefulScan(s: State, s': State)
    requires Careful(s) && Next(s, s', Scan)
    ensures Careful(s')
  {
    hide Wrap, Signed;
    assert s.pc.i < |s.tasks| ==> KeepsTime(s.tasks[s.pc.i]);
  }

  lemma CarefulReap(s: State, s': State)
    requires Careful(s) && Next(s, s', Reap)
    ensures Careful(s')
  {
    hide Kept;
    forall k: nat | k < |s'.tasks| ensures KeepsTime(s'.tasks[k]) {
      assert KeepsTime(s.tasks[if s'.tasks == s.tasks || k < s.pc.i then k else k + 1]);
    }
  }

  lemma CarefulOther(s: State, s': State, step: Step)
    requires Careful(s) && Next(s, s', step) && !step.Turn? && !step.Scan? && !step.Reap?
    ensures Careful(s')
  {
    hide Kept, Wrap, Signed;
    forall k: nat | k < |s'.tasks| ensures KeepsTime(s'.tasks[k]) {
      if k < |s.tasks| { assert KeepsTime(s.tasks[k]); }
    }
  }

  lemma CarefulNext(s: State, s': State, step: Step)
    requires Inv(s) && Careful(s) && Next(s, s', step) && SparesAt(s, s')
    ensures Careful(s')
  {
    hide Inv, Careful, Next, SparesAt;
    NextInv(s, s', step);
    match step
    case Turn(act) => CarefulTurn(s, s', act);
    case Scan => CarefulScan(s, s');
    case Reap => CarefulReap(s, s');
    case _ => CarefulOther(s, s', step);
  }

  ghost predicate AllSpare(tr: seq<State>) {
    forall i: nat | i + 1 < |tr| :: SparesAt(tr[i], tr[i + 1])
  }

  lemma {:induction false} CarefulThroughout(tr: seq<State>, i: nat)
    requires Run(tr) && AllSpare(tr) && i < |tr|
    ensures Careful(tr[i])
    decreases i
  {
    hide Inv, Careful, Next, SparesAt;
    if i == 0 {
      CarefulAtFirst(tr[0]);
    } else {
      CarefulThroughout(tr, i - 1);
      RunInv(tr, i - 1);
      assert Follows(tr[i - 1], tr[i - 1 + 1]) && SparesAt(tr[i - 1], tr[i - 1 + 1]);
      var step :| Next(tr[i - 1], tr[i], step);
      CarefulNext(tr[i - 1], tr[i], step);
    }
  }

  lemma CarefulAtFirst(s: State)
    requires Init(s)
    ensures Careful(s)
  {
  }

  // Whatever else goes on, as long as every sleep spares enough.
  lemma SparingSleepersAreNeverMissed(tr: seq<State>)
    requires Run(tr) && AllSpare(tr)
    ensures NeverMisses(tr)
  {
    hide Inv, Next;
    forall i: nat, k: nat | i < |tr| && k < |tr[i].tasks| ensures !Misses(tr[i], k) {
      CarefulThroughout(tr, i);
      assert KeepsTime(tr[i].tasks[k]);
      if tr[i].pc.Idle? && CanProgress(tr[i], k) { NoLostWakeup(tr, i, k); }
    }
  }

  // -- Any other sleep can be ----------------------------------------------------

  // Every sleep in the run is of that duration, with its reads that far apart.
  ghost predicate AllAre(tr: seq<State>, duration: nat, gap: nat) {
    forall i: nat | i + 1 < |tr| :: IsOne(tr[i], tr[i + 1], duration, gap)
  }

  predicate IsOne(s: State, s': State, duration: nat, gap: nat) {
    SecondRead(s, s') ==> s.pc.phase.duration == duration && s.now == s.pc.phase.first + gap
  }

  ghost predicate Shows(tr: seq<State>, duration: nat, gap: nat, s: State) {
    Run(tr) && AllAre(tr, duration, gap) && tr[|tr| - 1] == s
  }

  lemma Then(tr: seq<State>, d: nat, g: nat, s: State, s': State, step: Step) returns (tr': seq<State>)
    requires Shows(tr, d, g, s) && Next(s, s', step) && IsOne(s, s', d, g)
    ensures Shows(tr', d, g, s')
  {
    hide Next, Init, IsOne;
    tr' := tr + [s'];
    assert Follows(s, s');
    forall i: nat | i + 1 < |tr'| ensures Follows(tr'[i], tr'[i + 1]) && IsOne(tr'[i], tr'[i + 1], d, g) {
      if i + 1 < |tr| { assert Follows(tr[i], tr[i + 1]) && IsOne(tr[i], tr[i + 1], d, g); }
    }
  }

  // One task, in a run that began at time 0.
  function Alone(now: nat, due: nat, owed: nat, woken: bool, point: Point, pc: Control, log: seq<nat>): State {
    State(now, woken, Wrap(due), due, [Task(0, point)], map[], {}, owed, pc, 0, 0, Wrap(BUDGET), log, |log|)
  }

  const RESET: nat := HALF - 1

  lemma {:induction false} Ticks(tr: seq<State>, d: nat, g: nat, s: State, ms: nat) returns (tr': seq<State>)
    requires Shows(tr, d, g, s)
    requires if InPass(s.pc) then s.now + ms < s.passStart + HALF - CAP else s.now + ms < s.due + HALF
    ensures Shows(tr', d, g, s.(now := s.now + ms))
    decreases ms
  {
    hide Shows;
    if ms == 0 {
      tr' := tr;
    } else {
      var t := s.(now := s.now + 1);
      tr' := Then(tr, d, g, s, t, Tick);
      tr' := Ticks(tr', d, g, t, ms - 1);
    }
  }

  // Power on; a task is created, and the scheduler begins a pass and runs it.
  lemma PowerOn(d: nat, g: nat) returns (tr: seq<State>)
    ensures Shows(tr, d, g, Alone(0, RESET, 0, false, Fresh, Scanning(0), []))
  {
    hide Shows;
    tr := First(d, g);
    var s0 := Alone(0, RESET, 0, false, Fresh, Idle, []).(tasks := []);
    var s1 := Alone(0, RESET, 1, false, Fresh, Idle, []);
    tr := Then(tr, d, g, s0, s1, OtherCreates(0));
    var s2 := Alone(0, RESET, 0, true, Fresh, Idle, []);
    tr := Then(tr, d, g, s1, s2, OtherWakes);
    var s3 := s2.(pc := PassTop);
    tr := Then(tr, d, g, s2, s3, StartRun);
    var s4 := s2.(pc := Entering);
    tr := Then(tr, d, g, s3, s4, TopOfPass);
    var s5 := Alone(0, RESET, 0, false, Fresh, Clearing, []);
    tr := Then(tr, d, g, s4, s5, ClearWoken);
    tr := Then(tr, d, g, s5, s5.(pc := Scanning(0)), ResetWakeAt);
  }

  lemma First(d: nat, g: nat) returns (tr: seq<State>)
    ensures Shows(tr, d, g, Alone(0, RESET, 0, false, Fresh, Idle, []).(tasks := []))
  {
    tr := [Alone(0, RESET, 0, false, Fresh, Idle, []).(tasks := [])];
  }

  lemma ReadsTwice(d: nat, g: nat) returns (tr: seq<State>)
    requires 0 < d < WORD && g < HALF - CAP
    ensures Shows(tr, d, g, Alone(g, RESET, 0, false, Fresh, Running(0, Sleeping(0, d)), [0]))
  {
    hide Shows;
    tr := PowerOn(d, g);
    var s0 := Alone(0, RESET, 0, false, Fresh, Scanning(0), []);
    var s1 := Alone(0, RESET, 0, false, Fresh, Running(0, Busy), [0]);
    assert [] + [0] == [0];
    tr := Then(tr, d, g, s0, s1, Scan);
    var s2 := s1.(pc := Running(0, Sleeping(0, d)));
    tr := Then(tr, d, g, s1, s2, Turn(BeginSleep(d)));
    tr := Ticks(tr, d, g, s2, g);
  }

  // It sleeps, its two reads of the clock gap apart, and parks.
  lemma GoesToSleep(d: nat, g: nat) returns (tr: seq<State>)
    requires 0 < d < WORD && g < HALF - CAP && d - Min(d, CAP) < g < d
    ensures Shows(tr, d, g, Alone(g, g + Min(d, CAP), 0, false, Parked(SleepWait(0, d, g)), Scanning(1), [0]))
  {
    hide Shows;
    tr := ReadsTwice(d, g);
    var w := SleepWait(0, d, g);
    var s3 := Alone(g, RESET, 0, false, Fresh, Running(0, Sleeping(0, d)), [0]);
    var s4 := s3.(pc := Running(0, Testing(w)));
    tr := Then(tr, d, g, s3, s4, Turn(Proceed));
    NotYet(g, d);
    var s5 := s3.(pc := Running(0, Timing(w)));
    tr := Then(tr, d, g, s4, s5, Turn(Proceed));
    var s6 := s3.(pc := Running(0, Parking(w)));
    tr := Then(tr, d, g, s5, s6, Turn(Proceed));
    SignedDifference(g + Min(d, CAP), RESET);
    var s7 := Alone(g, g + Min(d, CAP), 0, false, Parked(w), Scanning(1), [0]);
    tr := Then(tr, d, g, s6, s7, Turn(Proceed));
  }

  // The run ends; and when the time slept until comes, nothing is pending.
  lemma MissedRun(d: nat, g: nat) returns (tr: seq<State>)
    requires 0 < d < WORD && g < HALF - CAP && !Spares(d, g)
    ensures Run(tr) && AllAre(tr, d, g) && Misses(tr[|tr| - 1], 0)
  {
    hide Shows;
    tr := GoesToSleep(d, g);
    var due, p := g + Min(d, CAP), Parked(SleepWait(0, d, g));
    var s0 := Alone(g, due, 0, false, p, Scanning(1), [0]);
    var s1 := s0.(pc := Reaping(0));
    tr := Then(tr, d, g, s0, s1, Scan);
    var s2 := s0.(pc := Idle);
    tr := Then(tr, d, g, s1, s2, Reap);
    tr := Ticks(tr, d, g, s2, d - g);
    PendingIsDue(d, due);
    ShowsRun(tr, d, g, s2.(now := d));
  }

  lemma ShowsRun(tr: seq<State>, d: nat, g: nat, s: State)
    requires Shows(tr, d, g, s)
    ensures Run(tr) && AllAre(tr, d, g) && tr[|tr| - 1] == s
  {
  }

  // Sleeps of a duration, with their two reads a time apart (inside one pass), are
  // never missed, in any run with no others, exactly when the wait's timeout does
  // not outlast the sleep, or the sleep is over before its wait begins: for one no
  // longer than the cap, when the reads agree or are the whole sleep apart.
  lemma SleepsAreNeverMissedExactlyWhenTheySpare(d: nat, g: nat)
    requires 0 < d < WORD && g < HALF - CAP
    ensures (forall tr: seq<State> | Run(tr) && AllAre(tr, d, g) :: NeverMisses(tr)) <==> Spares(d, g)
  {
    if Spares(d, g) {
      forall tr: seq<State> | Run(tr) && AllAre(tr, d, g) ensures NeverMisses(tr) {
        forall i: nat | i + 1 < |tr| ensures SparesAt(tr[i], tr[i + 1]) {
          assert IsOne(tr[i], tr[i + 1], d, g);
        }
        SparingSleepersAreNeverMissed(tr);
      }
    } else {
      var tr := MissedRun(d, g);
      assert !NeverMisses(tr);
    }
  }
}
