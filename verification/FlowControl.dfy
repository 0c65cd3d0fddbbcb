// Transmit flow control, at the granularity of its atomic operations.  Any number
// of contexts allocate and free data packets; one step is one atomic operation on
// the shared counter or flag.
module FlowControl {

  // Where a context stands in mmhal_wlan_alloc_mmpkt_for_tx() (the first line) or
  // in mm_halow_tx_data_free().
  datatype Pc = Away | Allocating | BackingOut | CheckPause | Pausing | CallPause
              | CheckUnpause | Unpausing | CallUnpause

  datatype State = State(
    count: int,              // tx_data_allocated
    paused: bool,            // tx_data_paused
    ctx: seq<Pc>,
    held: nat,               // packets handed out and not yet freed
    flips: nat,              // times the flag has changed
    calls: nat)              // times the callback has run

  datatype Choice = Alloc | Free | HeapServes | HeapFails | Go

  function Move(s: State, i: nat, p: Pc): State
    requires i < |s.ctx|
  {
    s.(ctx := s.ctx[i := p])
  }

  // Context i takes one step; n is MM_HALOW_TX_BLOCKS.
  function Step(n: nat, s: State, i: nat, c: Choice): State
    requires i < |s.ctx| && Enabled(s, i, c)
  {
    match s.ctx[i]
    case Away =>
      if c.Alloc? then Move(s, i, if s.count >= n then BackingOut else Allocating).(count := s.count + 1)
      else Move(s, i, CheckUnpause).(count := s.count - 1, held := s.held - 1)
    case Allocating => Move(s, i, if c.HeapServes? then CheckPause else BackingOut)
    case BackingOut => Move(s, i, Away).(count := s.count - 1)
    case CheckPause =>
      if s.count > n - 1 then Move(s, i, Pausing) else Move(s, i, Away).(held := s.held + 1)
    case Pausing =>
      if s.paused then Move(s, i, Away).(held := s.held + 1)
      else Move(s, i, CallPause).(paused := true, flips := s.flips + 1)
    case CallPause => Move(s, i, Away).(held := s.held + 1, calls := s.calls + 1)
    case CheckUnpause => Move(s, i, if s.count < n - 2 then Unpausing else Away)
    case Unpausing =>
      if s.paused then Move(s, i, CallUnpause).(paused := false, flips := s.flips + 1) else Move(s, i, Away)
    case CallUnpause => Move(s, i, Away).(calls := s.calls + 1)
  }

  predicate Enabled(s: State, i: nat, c: Choice)
    requires i < |s.ctx|
  {
    match s.ctx[i]
    case Away => c.Alloc? || (c.Free? && s.held > 0)
    case Allocating => c.HeapServes? || c.HeapFails?
    case _ => c.Go?
  }

  predicate Init(k: nat, s: State) {
    s == State(0, false, seq(k, _ => Away), 0, 0, 0)
  }

  ghost predicate Follows(n: nat, s: State, s': State) {
    exists i: nat, c: Choice :: i < |s.ctx| && Enabled(s, i, c) && s' == Step(n, s, i, c)
  }

  // A history of k contexts interleaved in any way.
  ghost predicate Run(n: nat, k: nat, tr: seq<State>) {
    tr != [] && Init(k, tr[0]) && forall j: nat | j + 1 < |tr| :: Follows(n, tr[j], tr[j + 1])
  }

  function Last(tr: seq<State>): State
    requires tr != []
  {
    tr[|tr| - 1]
  }

  // -- Counting contexts -------------------------------------------------------

  function Total(ctx: seq<Pc>, f: Pc -> nat): nat {
    if ctx == [] then 0 else f(ctx[0]) + Total(ctx[1..], f)
  }

  lemma {:induction false} TotalUpdate(ctx: seq<Pc>, i: nat, p: Pc, f: Pc -> nat)
    requires i < |ctx|
    ensures Total(ctx[i := p], f) + f(ctx[i]) == Total(ctx, f) + f(p)
  {
    if i == 0 {
      assert ctx[0 := p][1..] == ctx[1..];
    } else {
      assert ctx[i := p][1..] == ctx[1..][i - 1 := p];
      TotalUpdate(ctx[1..], i - 1, p, f);
    }
  }

  lemma {:induction false} TotalAtMost(ctx: seq<Pc>, f: Pc -> nat)
    requires forall p :: f(p) <= 1
    ensures Total(ctx, f) <= |ctx|
  {
    if ctx != [] { TotalAtMost(ctx[1..], f); }
  }

  lemma {:induction false} TotalZero(k: nat, ctx: seq<Pc>, f: Pc -> nat)
    requires f(Away) == 0 && forall j | 0 <= j < |ctx| :: ctx[j] == Away
    ensures Total(ctx, f) == 0
  {
    if ctx != [] { TotalZero(k, ctx[1..], f); }
  }

  // Has its packet, not yet handed out.
  function Delivering(p: Pc): nat {
    if p.CheckPause? || p.Pausing? || p.CallPause? then 1 else 0
  }

  // Counted, without a packet.
  function Reserving(p: Pc): nat {
    if p.Allocating? then 1 else 0
  }

  // Counted in excess of the bound, or for nothing.
  function Withdrawing(p: Pc): nat {
    if p.BackingOut? then 1 else 0
  }

  function MidFree(p: Pc): nat {
    if p.CheckUnpause? || p.Unpausing? then 1 else 0
  }

  function Calling(p: Pc): nat {
    if p.CallPause? || p.CallUnpause? then 1 else 0
  }

  function Outstanding(s: State): nat {
    s.held + Total(s.ctx, Delivering)
  }

  // -- What every run keeps ----------------------------------------------------

  ghost predicate Inv(n: nat, k: nat, s: State) {
    && |s.ctx| == k
    && s.count == Outstanding(s) + Total(s.ctx, Reserving) + Total(s.ctx, Withdrawing)
    && Outstanding(s) + Total(s.ctx, Reserving) <= n
    && s.calls + Total(s.ctx, Calling) == s.flips
    && (s.flips % 2 == 1 <==> s.paused)
    && (k <= n - 2 ==> !Stuck(s))
  }

  // Paused, with no packet outstanding whose return would unpause, and no free
  // under way that still might.
  predicate Stuck(s: State) {
    s.paused && Outstanding(s) == 0 && Total(s.ctx, MidFree) == 0
  }

  lemma StepCounts(n: nat, k: nat, s: State, i: nat, c: Choice)
    requires 3 <= n && Inv(n, k, s) && i < k && Enabled(s, i, c)
    ensures var s' := Step(n, s, i, c);
            && |s'.ctx| == k
            && s'.count == Outstanding(s') + Total(s'.ctx, Reserving) + Total(s'.ctx, Withdrawing)
            && Outstanding(s') + Total(s'.ctx, Reserving) <= n
  {
    hide Total, Stuck;
    var p := Step(n, s, i, c).ctx[i];
    Moved(s.ctx, i, p, Delivering);
    Moved(s.ctx, i, p, Reserving);
    Moved(s.ctx, i, p, Withdrawing);
  }

  lemma StepCallbacks(n: nat, k: nat, s: State, i: nat, c: Choice)
    requires Inv(n, k, s) && i < k && Enabled(s, i, c)
    ensures var s' := Step(n, s, i, c);
            && s'.calls + Total(s'.ctx, Calling) == s'.flips
            && (s'.flips % 2 == 1 <==> s'.paused)
  {
    hide Total, Stuck;
    Moved(s.ctx, i, Step(n, s, i, c).ctx[i], Calling);
  }

  lemma StepIsNotStuck(n: nat, k: nat, s: State, i: nat, c: Choice)
    requires k <= n - 2 && Inv(n, k, s) && i < k && Enabled(s, i, c)
    ensures !Stuck(Step(n, s, i, c))
  {
    hide Total;
    var p := Step(n, s, i, c).ctx[i];
    Moved(s.ctx, i, p, Delivering);
    Moved(s.ctx, i, p, MidFree);
    OthersCounted(s.ctx, i);
  }

  lemma StepInv(n: nat, k: nat, s: State, i: nat, c: Choice)
    requires 3 <= n && Inv(n, k, s) && i < k && Enabled(s, i, c)
    ensures Inv(n, k, Step(n, s, i, c))
  {
    hide Total, Stuck, Step;
    StepCounts(n, k, s, i, c);
    StepCallbacks(n, k, s, i, c);
    if k <= n - 2 { StepIsNotStuck(n, k, s, i, c); }
  }

  lemma Moved(ctx: seq<Pc>, i: nat, p: Pc, f: Pc -> nat)
    requires i < |ctx|
    ensures Total(ctx[i := p], f) + f(ctx[i]) == Total(ctx, f) + f(p)
    ensures Total(ctx, f) >= f(ctx[i]) && Total(ctx[i := p], f) >= f(p)
  {
    TotalUpdate(ctx, i, p, f);
    TotalAtLeast(ctx, i, f);
    TotalAtLeast(ctx[i := p], i, f);
  }

  lemma {:induction false} TotalAtLeast(ctx: seq<Pc>, i: nat, f: Pc -> nat)
    requires i < |ctx|
    ensures Total(ctx, f) >= f(ctx[i])
  {
    if i > 0 { TotalAtLeast(ctx[1..], i - 1, f); }
  }

  // The other contexts can hold up at most k - 1 units of the counter.
  lemma OthersCounted(ctx: seq<Pc>, i: nat)
    requires i < |ctx|
    ensures Total(ctx, Reserving) + Total(ctx, Withdrawing) + MidFree(ctx[i]) <= |ctx|
  {
    var f := (p: Pc) => if p.Allocating? || p.BackingOut? then 1 else 0;
    TotalSum(ctx, Reserving, Withdrawing, f);
    TotalUpdate(ctx, i, BackingOut, f);
    TotalAtMost(ctx[i := BackingOut], f);
  }

  lemma {:induction false} TotalSum(ctx: seq<Pc>, f: Pc -> nat, g: Pc -> nat, h: Pc -> nat)
    requires forall p :: h(p) == f(p) + g(p)
    ensures Total(ctx, h) == Total(ctx, f) + Total(ctx, g)
  {
    if ctx != [] { TotalSum(ctx[1..], f, g, h); }
  }

  lemma {:induction false} RunInv(n: nat, k: nat, tr: seq<State>, j: nat)
    requires 3 <= n && Run(n, k, tr) && j < |tr|
    ensures Inv(n, k, tr[j])
  {
    if j == 0 {
      var ctx := tr[0].ctx;
      TotalZero(k, ctx, Delivering);
      TotalZero(k, ctx, Reserving);
      TotalZero(k, ctx, Withdrawing);
      TotalZero(k, ctx, MidFree);
      TotalZero(k, ctx, Calling);
    } else {
      RunInv(n, k, tr, j - 1);
      assert Follows(n, tr[j - 1], tr[j - 1 + 1]);
      var i: nat, c :| i < |tr[j - 1].ctx| && Enabled(tr[j - 1], i, c) && tr[j] == Step(n, tr[j - 1], i, c);
      StepInv(n, k, tr[j - 1], i, c);
    }
  }

  // The data path never has more than n packets out, whatever the interleaving,
  // and a free never finds the counter at zero.
  lemma PacketsAreBounded(n: nat, k: nat, tr: seq<State>)
    requires 3 <= n && Run(n, k, tr)
    ensures Outstanding(Last(tr)) <= n
    ensures Last(tr).held > 0 ==> Last(tr).count > 0
  {
    RunInv(n, k, tr, |tr| - 1);
  }

  // The callback runs exactly once for each change of the flag: as many times as
  // the flag has changed, less the contexts about to call it.
  lemma OneCallPerChange(n: nat, k: nat, tr: seq<State>)
    requires 3 <= n && Run(n, k, tr)
    ensures Last(tr).calls + Total(Last(tr).ctx, Calling) == Last(tr).flips
    ensures Last(tr).flips % 2 == 1 <==> Last(tr).paused
  {
    RunInv(n, k, tr, |tr| - 1);
  }

  // -- When a pause can outlive its packets ------------------------------------

  // Context 0 is away, contexts 1..b are about to back out, the rest are away.
  ghost predicate At(s: State, k: nat, held: nat, b: nat, paused: bool) {
    && |s.ctx| == k && b < k && s.held == held && s.count == held + b && s.paused == paused
    && forall j | 0 <= j < k :: s.ctx[j] == if 1 <= j <= b then BackingOut else Away
  }

  lemma Extend(n: nat, k: nat, tr: seq<State>, i: nat, c: Choice) returns (tr': seq<State>)
    requires Run(n, k, tr) && i < |Last(tr).ctx| && Enabled(Last(tr), i, c)
    ensures Run(n, k, tr') && Last(tr') == Step(n, Last(tr), i, c)
  {
    tr' := tr + [Step(n, Last(tr), i, c)];
    forall j: nat | j + 1 < |tr'| ensures Follows(n, tr'[j], tr'[j + 1]) {
      if j + 1 < |tr| { assert Follows(n, tr[j], tr[j + 1]); }
    }
  }

  // Context i allocates until every packet is out, which pauses transmission.
  lemma {:induction false} FillUp(n: nat, k: nat, tr: seq<State>, i: nat, h: nat) returns (tr': seq<State>)
    requires 3 <= n && Run(n, k, tr) && h < n && i < |Last(tr).ctx| && Last(tr).ctx[i] == Away
    requires Last(tr).count == Last(tr).held == h && !Last(tr).paused
    ensures Run(n, k, tr') && Last(tr').ctx == Last(tr).ctx
    ensures Last(tr').count == Last(tr').held == n && Last(tr').paused
    decreases n - h
  {
    tr' := Extend(n, k, tr, i, Alloc);
    tr' := Extend(n, k, tr', i, HeapServes);
    tr' := Extend(n, k, tr', i, Go);
    if h + 1 < n {
      assert Last(tr').ctx == Last(tr).ctx;
      tr' := FillUp(n, k, tr', i, h + 1);
    } else {
      tr' := Extend(n, k, tr', i, Go);
      tr' := Extend(n, k, tr', i, Go);
      assert Last(tr').ctx == Last(tr).ctx;
    }
  }

  // The others, finding none left, add to the counter and have yet to back out.
  lemma {:induction false} CrowdIn(n: nat, k: nat, tr: seq<State>, b: nat) returns (tr': seq<State>)
    requires Run(n, k, tr) && 2 <= n && b <= n - 2 < k && At(Last(tr), k, n, b, true)
    ensures Run(n, k, tr') && At(Last(tr'), k, n, n - 2, true)
    decreases n - b
  {
    tr' := tr;
    if b < n - 2 {
      tr' := Extend(n, k, tr, b + 1, Alloc);
      tr' := CrowdIn(n, k, tr', b + 1);
    }
  }

  // Context 0 frees every packet; each time the counter looks too high to unpause.
  lemma {:induction false} Drain(n: nat, k: nat, tr: seq<State>, h: nat) returns (tr': seq<State>)
    requires 3 <= n && Run(n, k, tr) && n - 2 < k && At(Last(tr), k, h, n - 2, true)
    ensures Run(n, k, tr') && At(Last(tr'), k, 0, n - 2, true)
    decreases h
  {
    tr' := tr;
    if h > 0 {
      tr' := Extend(n, k, tr, 0, Free);
      tr' := Extend(n, k, tr', 0, Go);
      tr' := Drain(n, k, tr', h - 1);
    }
  }

  lemma {:induction false} BackOut(n: nat, k: nat, tr: seq<State>, b: nat) returns (tr': seq<State>)
    requires Run(n, k, tr) && b < k && At(Last(tr), k, 0, b, true)
    ensures Run(n, k, tr') && At(Last(tr'), k, 0, 0, true)
    decreases b
  {
    tr' := tr;
    if b > 0 {
      tr' := Extend(n, k, tr, b, Go);
      tr' := BackOut(n, k, tr', b - 1);
    }
  }

  lemma StuckRun(n: nat, k: nat) returns (tr: seq<State>)
    requires 3 <= n && n - 2 < k
    ensures Run(n, k, tr) && At(Last(tr), k, 0, 0, true) && Stuck(Last(tr))
  {
    tr := [State(0, false, seq(k, _ => Away), 0, 0, 0)];
    tr := FillUp(n, k, tr, 0, 0);
    tr := CrowdIn(n, k, tr, 0);
    tr := Drain(n, k, tr, n);
    tr := BackOut(n, k, tr, n - 2);
    TotalZero(k, Last(tr).ctx, Delivering);
    TotalZero(k, Last(tr).ctx, MidFree);
  }

  // With k contexts and n packets a pause is always one some packet's return can
  // undo exactly when k is at most n - 2, the unpause threshold: with one context
  // more, transmission can end up paused with every packet free and nobody left
  // to notice.
  lemma NeverStuckExactlyBelowTheThreshold(n: nat, k: nat)
    requires 3 <= n
    ensures (forall tr: seq<State> | Run(n, k, tr) :: !Stuck(Last(tr))) <==> k <= n - 2
  {
    if k <= n - 2 {
      forall tr: seq<State> | Run(n, k, tr) ensures !Stuck(Last(tr)) {
        RunInv(n, k, tr, |tr| - 1);
      }
    } else {
      var tr := StuckRun(n, k);
      assert Run(n, k, tr) && Stuck(Last(tr));
    }
  }

  // -- When the flag is set ----------------------------------------------------

  predicate Unmoved(s: State) {
    && !s.paused && s.flips == 0
    && forall j | 0 <= j < |s.ctx| :: !s.ctx[j].Pausing? && !s.ctx[j].CallPause? && !s.ctx[j].CallUnpause?
  }

  // Transmission has never been paused if the counter has never stood at n: with
  // all but one of the packets out it goes on.
  lemma {:induction false} NoPauseBelowTheLimit(n: nat, k: nat, tr: seq<State>)
    requires Run(n, k, tr) && forall j: nat | j < |tr| :: tr[j].count < n
    ensures Unmoved(Last(tr))
    decreases |tr|
  {
    if |tr| > 1 {
      var init := tr[..|tr| - 1];
      NoPauseBelowTheLimit(n, k, init);
      assert Follows(n, tr[|tr| - 2], tr[|tr| - 2 + 1]);
    }
  }

  predicate AllAway(s: State) {
    forall j | 0 <= j < |s.ctx| :: s.ctx[j] == Away
  }

  // One context on its own: the packets it holds are those counted, short of the
  // one it may be allocating, and while all are out transmission is paused.
  predicate Alone(n: nat, s: State) {
    if |s.ctx| != 1 then |s.ctx| == 0 && s.held == 0 else
      && (s.held == n ==> s.paused)
      && match s.ctx[0]
         case Away => s.count == s.held <= n
         case BackingOut => s.count == s.held + 1 <= n + 1
         case Allocating => s.count == s.held + 1 <= n
         case CheckPause => s.count == s.held + 1 <= n
         case Pausing => s.count == s.held + 1 == n
         case CallPause => s.count == s.held + 1 == n && s.paused
         case CheckUnpause => s.count == s.held < n
         case Unpausing => s.count == s.held < n - 2
         case CallUnpause => s.count == s.held < n - 2
  }

  lemma {:induction false} RunAlone(n: nat, k: nat, tr: seq<State>, j: nat)
    requires 3 <= n && k <= 1 && Run(n, k, tr) && j < |tr|
    ensures Alone(n, tr[j]) && |tr[j].ctx| == k
  {
    if j > 0 {
      RunAlone(n, k, tr, j - 1);
      assert Follows(n, tr[j - 1], tr[j - 1 + 1]);
    }
  }

  // Context 0 decides to unpause, and only then context 1 takes every packet: the
  // pause that makes is undone, and all packets are out with transmission going on.
  lemma UnpausedRun(n: nat, k: nat) returns (tr: seq<State>)
    requires 3 <= n && 2 <= k
    ensures Run(n, k, tr) && AllAway(Last(tr)) && Last(tr).held == n && !Last(tr).paused
  {
    tr := [State(0, false, seq(k, _ => Away), 0, 0, 0)];
    tr := Extend(n, k, tr, 0, Alloc);
    tr := Extend(n, k, tr, 0, HeapServes);
    tr := Extend(n, k, tr, 0, Go);
    tr := Extend(n, k, tr, 0, Free);
    tr := Extend(n, k, tr, 0, Go);
    tr := FillUp(n, k, tr, 1, 0);
    tr := Extend(n, k, tr, 0, Go);
    tr := Extend(n, k, tr, 0, Go);
  }

  // Whenever all packets are out and nobody is mid-way transmission is paused, in
  // every interleaving, exactly when there is no more than one context.
  lemma FullMeansPausedExactlyAlone(n: nat, k: nat)
    requires 3 <= n
    ensures (forall tr: seq<State> | Run(n, k, tr) && AllAway(Last(tr)) && Last(tr).held == n :: Last(tr).paused)
            <==> k <= 1
  {
    if k <= 1 {
      forall tr: seq<State> | Run(n, k, tr) && AllAway(Last(tr)) && Last(tr).held == n ensures Last(tr).paused {
        RunAlone(n, k, tr, |tr| - 1);
      }
    } else {
      var tr := UnpausedRun(n, k);
      assert Run(n, k, tr) && AllAway(Last(tr)) && Last(tr).held == n && !Last(tr).paused;
    }
  }

  // -- One call at a time ------------------------------------------------------

  // What an allocation made alone, with so many packets out after it, does to the
  // flag; and what a free does.
  predicate PausedByAlloc(n: nat, out: int, was: bool, paused: bool) {
    paused <==> was || out == n
  }

  predicate PausedByFree(n: nat, out: int, was: bool, paused: bool) {
    paused <==> was && out >= n - 2
  }

  // Part of the way through the call the only context began in state a.
  predicate Midway(n: nat, a: State, s: State) {
    && |s.ctx| == 1
    && var alloc := a.(count := a.count + 1, ctx := s.ctx);
       var free := a.(count := a.count - 1, held := s.held, ctx := s.ctx);
       match s.ctx[0]
       case Away => false
       case BackingOut => s == alloc
       case Allocating => s == alloc && a.held < n
       case CheckPause => s == alloc && a.held < n
       case Pausing => s == alloc && a.held + 1 == n
       case CallPause => s == alloc.(paused := true, flips := a.flips + 1) && a.held + 1 == n && !a.paused
       case CheckUnpause => s == free && s.held == a.held - 1
       case Unpausing => s == free && s.held == a.held - 1 < n - 2
       case CallUnpause =>
         s == free.(paused := false, flips := a.flips + 1) && s.held == a.held - 1 < n - 2 && a.paused
  }

  predicate Freeing(p: Pc) {
    p.CheckUnpause? || p.Unpausing? || p.CallUnpause?
  }

  ghost predicate OneCall(tr: seq<State>, i: nat, j: nat) {
    && i < j < |tr| && AllAway(tr[i]) && AllAway(tr[j]) && forall m | i < m < j :: !AllAway(tr[m])
  }

  lemma CallBegins(n: nat, a: State, c: Choice)
    requires |a.ctx| == 1 && a.ctx[0] == Away && Enabled(a, 0, c) && Alone(n, a)
    ensures var s := Step(n, a, 0, c); Midway(n, a, s) && (s.ctx[0].BackingOut? <==> c.Alloc? && a.held == n)
  {
  }

  lemma CallGoesOn(n: nat, a: State, s: State, c: Choice)
    requires |a.ctx| == 1 && Alone(n, a) && a.ctx[0] == Away && Midway(n, a, s) && Enabled(s, 0, c)
    ensures var s' := Step(n, s, 0, c);
            if s'.ctx[0] == Away then Returned(n, a, s', Freeing(s.ctx[0]))
            else Midway(n, a, s') && (Freeing(s'.ctx[0]) <==> Freeing(s.ctx[0]))
  {
  }

  // What the call that a begins comes to.
  predicate Returned(n: nat, a: State, b: State, freeing: bool) {
    && b.calls == a.calls + (if b.paused == a.paused then 0 else 1)
    && if freeing then b.held == a.held - 1 && PausedByFree(n, b.held, a.paused, b.paused)
       else a.held <= b.held <= a.held + 1 && PausedByAlloc(n, b.held, a.paused, b.paused)
  }

  lemma OnlyStep(n: nat, s: State, s': State) returns (c: Choice)
    requires Follows(n, s, s') && |s.ctx| == 1
    ensures Enabled(s, 0, c) && s' == Step(n, s, 0, c) && |s'.ctx| == 1
  {
    var i: nat, d: Choice :| i < |s.ctx| && Enabled(s, i, d) && s' == Step(n, s, i, d);
    c := d;
  }

  lemma {:induction false} CallIsMidway(n: nat, tr: seq<State>, i: nat, m: nat)
    requires 3 <= n && Run(n, 1, tr) && i < m < |tr| && AllAway(tr[i]) && forall l | i < l <= m :: !AllAway(tr[l])
    ensures Midway(n, tr[i], tr[m]) && (Freeing(tr[m].ctx[0]) <==> Freeing(tr[i + 1].ctx[0]))
    decreases m
  {
    hide Run, Midway, Alone, Step, Enabled;
    RunAlone(n, 1, tr, i);
    RunAlone(n, 1, tr, m - 1);
    StepAt(n, tr, m - 1);
    var c := OnlyStep(n, tr[m - 1], tr[m]);
    if m > i + 1 {
      CallIsMidway(n, tr, i, m - 1);
      CallGoesOn(n, tr[i], tr[m - 1], c);
    } else {
      CallBegins(n, tr[i], c);
    }
  }

  lemma StepAt(n: nat, tr: seq<State>, j: nat)
    requires Run(n, 1, tr) && j + 1 < |tr|
    ensures Follows(n, tr[j], tr[j + 1])
  {
  }

  // The only context's calls, one after another, each do what a call made alone
  // does: a free takes one packet from those out, an allocation adds at most one,
  // is refused outright exactly when all are out, and the flag and the callbacks
  // follow.
  lemma OneCallAlone(n: nat, tr: seq<State>, i: nat, j: nat)
    requires 3 <= n && Run(n, 1, tr) && OneCall(tr, i, j)
    ensures |tr[i + 1].ctx| == 1 && Returned(n, tr[i], tr[j], Freeing(tr[i + 1].ctx[0]))
    ensures tr[i + 1].ctx[0].BackingOut? <==> !Freeing(tr[i + 1].ctx[0]) && tr[i].held == n
  {
    hide Run, Midway, Alone, Step, Enabled, Returned;
    RunAlone(n, 1, tr, i);
    RunAlone(n, 1, tr, i + 1);
    RunAlone(n, 1, tr, j - 1);
    StepAt(n, tr, i);
    var c := OnlyStep(n, tr[i], tr[i + 1]);
    CallBegins(n, tr[i], c);
    CallFrees(n, tr[i], c);
    CallIsMidway(n, tr, i, j - 1);
    StepAt(n, tr, j - 1);
    var d := OnlyStep(n, tr[j - 1], tr[j]);
    CallGoesOn(n, tr[i], tr[j - 1], d);
  }

  lemma CallFrees(n: nat, a: State, c: Choice)
    requires |a.ctx| == 1 && a.ctx[0] == Away && Enabled(a, 0, c)
    ensures var p := Step(n, a, 0, c).ctx[0]; p != Away && (Freeing(p) <==> c.Free?) && (c.Free? || c.Alloc?)
  {
  }
}
