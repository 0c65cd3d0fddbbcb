// The poll's gate over whole runs: a scheduler that skips the runs the gate says
// nothing could come of does with its tasks exactly what one that never skips does.
module GateProofs {
  import opened Words
  import opened Config
  import opened SchedMachine
  import opened SchedProofs

  // What happens to the scheduler that never skips: a step, or a whole run that
  // the gated one skips, state by state and undisturbed.
  datatype Part = Did(step: Step, to: State) | Extra(block: seq<State>)

  ghost predicate Block(a: State, block: seq<State>) {
    && block != [] && block[0] == a && a.pc.Idle? && block[|block| - 1].pc.Idle?
    && forall m: nat | m + 1 < |block| :: Undisturbed(block[m], block[m + 1])
  }

  ghost predicate Happens(a: State, parts: seq<Part>)
    decreases |parts|
  {
    parts == [] ||
    match parts[0]
    case Did(step, to) => Next(a, to, step) && Happens(to, parts[1..])
    case Extra(block) => Block(a, block) && Happens(block[|block| - 1], parts[1..])
  }

  function Always(a: State, parts: seq<Part>): State
    decreases |parts|
  {
    if parts == [] then a
    else match parts[0] {
      case Did(_, to) => Always(to, parts[1..])
      case Extra(block) => Always(if block == [] then a else block[|block| - 1], parts[1..])
    }
  }

  // The gated scheduler, taking a step the other one takes to the given state.
  function Likewise(g: State, step: Step, to: State): State {
    match step
    case Tick => g.(now := to.now)
    case Disturb(_) => g.(avail := to.avail, owed := to.owed)
    case OtherWakes => g.(owed := to.owed, woken := true)
    case OtherCreates(_) => g.(tasks := to.tasks, owed := to.owed)
    case OtherKills(_) => g.(tasks := to.tasks, dead := to.dead, owed := to.owed)
    case StartRun => g.(pc := to.pc, pass := to.pass, runEnd := to.runEnd, log := to.log, turns := to.turns)
    case TopOfPass => g.(pc := to.pc)
    case ClearWoken => g.(woken := false, pc := to.pc)
    case Reap => g.(tasks := to.tasks, pc := to.pc)
    case _ => to
  }

  function Gated(g: State, parts: seq<Part>): State
    decreases |parts|
  {
    if parts == [] then g
    else if parts[0].Extra? then Gated(g, parts[1..])
    else Gated(Likewise(g, parts[0].step, parts[0].to), parts[1..])
  }

  // It skips only what its gate shuts out, with no wake call owed; it is polled in
  // time; and no sleeper's two reads of the clock are too far apart.
  ghost predicate Skips(g: State, parts: seq<Part>)
    decreases |parts|
  {
    parts == [] ||
    if parts[0].Extra? then !Pending(g) && g.owed == 0 && AllKeepTime(g.tasks) && Skips(g, parts[1..])
    else
      var g' := Likewise(g, parts[0].step, parts[0].to);
      Timely(g') && Skips(g', parts[1..])
  }

  // Alike to the tasks and to everybody else; and in all else too from when a pass
  // has read the clock.
  ghost predicate Agree(a: State, g: State) {
    && a.now == g.now && a.tasks == g.tasks && a.avail == g.avail && a.dead == g.dead && a.owed == g.owed
    && a.pc == g.pc
    && (a.woken ==> g.woken)
    && (!a.pc.Idle? ==> a.pass == g.pass && a.runEnd == g.runEnd && a.log == g.log && a.turns == g.turns)
    && (a.pc.Clearing? ==> a.woken == g.woken)
    && (InPass(a.pc) ==> a == g)
  }

  lemma AgreeingStep(a: State, g: State, a': State, step: Step)
    requires Agree(a, g) && Next(a, a', step) && Timely(Likewise(g, step, a'))
    ensures Next(g, Likewise(g, step, a'), step) && Agree(a', Likewise(g, step, a'))
  {
    hide TaskStep, ScanNext, Wrap, Signed, Removed, SetPoint;
  }

  lemma SkippedRun(a: State, g: State, block: seq<State>, j: nat)
    requires Agree(a, g) && Inv(g) && Block(a, block) && !Pending(g) && g.owed == 0 && AllKeepTime(g.tasks)
    requires j < |block|
    ensures Still(a, block[j])
    decreases j
  {
    hide Inv, Pending;
    IdleMeansNothingToDo(g);
    SameProgress(a, g);
    NotWoken(g);
    if j > 0 {
      SkippedRun(a, g, block, j - 1);
      assert Undisturbed(block[j - 1], block[j - 1 + 1]);
      var step :| Next(block[j - 1], block[j], step) && Internal(step);
      InternalStepIsStill(a, block[j - 1], block[j], step);
    }
  }

  lemma NotWoken(g: State)
    requires !Pending(g)
    ensures !g.woken
  {
  }

  lemma SameProgress(a: State, g: State)
    requires Agree(a, g) && NothingToDo(g)
    ensures NothingToDo(a)
  {
    forall k: nat | k < |a.tasks| ensures !CanProgress(a, k) && !a.tasks[k].point.Dead? {
      assert CanProgress(a, k) == CanProgress(g, k);
    }
  }

  ghost predicate IsRun(g: State, parts: seq<Part>)
    decreases |parts|
  {
    parts == [] ||
    if parts[0].Extra? then IsRun(g, parts[1..])
    else
      var g' := Likewise(g, parts[0].step, parts[0].to);
      Next(g, g', parts[0].step) && IsRun(g', parts[1..])
  }

  // Over any history, whatever happens during the runs that are not skipped: the
  // steps of the gated scheduler are steps of the machine, and it leaves tasks,
  // tokens and the dead exactly as they would have been.
  lemma {:induction false} GateIsAnOptimisation(a: State, g: State, parts: seq<Part>)
    requires Agree(a, g) && Inv(g) && Happens(a, parts) && Skips(g, parts)
    ensures IsRun(g, parts) && Agree(Always(a, parts), Gated(g, parts))
    decreases |parts|
  {
    hide Inv, Next, Agree, Likewise, Pending, Still;
    if parts != [] {
      match parts[0]
      case Did(step, to) =>
        AgreeingStep(a, g, to, step);
        NextInv(g, Likewise(g, step, to), step);
        GateIsAnOptimisation(to, Likewise(g, step, to), parts[1..]);
      case Extra(block) =>
        SkippedRun(a, g, block, |block| - 1);
        AgreesStill(a, g, block[|block| - 1]);
        GateIsAnOptimisation(block[|block| - 1], g, parts[1..]);
    }
  }

  lemma AgreesStill(a: State, g: State, a': State)
    requires Agree(a, g) && a.pc.Idle? && a'.pc.Idle? && Still(a, a') && g.owed == 0
    ensures Agree(a', g)
  {
  }
}
