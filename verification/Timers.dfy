// The OSAL timers: a linked list walked by the poll, while the callbacks it makes
// rearrange the list under it.
module Timers {
  import opened Lists
  import opened Words

  datatype Timer = Timer(period: word, expiresAt: word, autoReload: bool, active: bool)

  // What a callback may do.
  datatype Op = Create(id: nat, period: word, autoReload: bool) | Delete(id: nat) | Start(id: nat) | Stop(id: nat)
              | ChangePeriod(id: nat, period: word) | Elapse(ms: nat)

  // active && (int32_t)(now - timer->expires_at) >= 0
  predicate Due(now: word, t: Timer) {
    t.active && Signed(Wrap(now - t.expiresAt)) >= 0
  }

  // What firing leaves of a timer, before its callback: one with auto-reload set
  // for a period from this tick, and any other stopped.
  function Expired(t: Timer, now: word): Timer {
    if t.autoReload then t.(expiresAt := Wrap(now + t.period)) else t.(active := false)
  }

  // Set at time from, to go off after period: then, for 2^31 ms, and -- as far as
  // half the clock's range goes -- not before.
  ghost predicate GoesOff(t: Timer, from: nat, period: word) {
    && (forall now: nat | from + period <= now < from + period + HALF :: Due(Wrap(now), t))
    && ((forall now: nat | from <= now < from + period :: !Due(Wrap(now), t)) <==> period <= HALF)
  }

  ghost predicate NeverDue(t: Timer) {
    forall now :: !Due(now, t)
  }

  lemma DueFromThen(now: nat, at: int, t: Timer)
    requires t.active && t.expiresAt == Wrap(at)
    ensures Due(Wrap(now), t) <==> (now - at) % WORD < HALF
  {
    WrapDifference(now, at);
  }

  lemma SetGoesOff(t: Timer, from: nat, period: word)
    requires t.active && t.expiresAt == Wrap(from + period)
    ensures GoesOff(t, from, period)
  {
    forall now: nat | from + period <= now < from + period + HALF ensures Due(Wrap(now), t) {
      DueFromThen(now, from + period, t);
    }
    if period <= HALF {
      forall now: nat | from <= now < from + period ensures !Due(Wrap(now), t) {
        SignedDifference(now, from + period);
      }
    } else {
      WrapPeriod(0 - period, 1);
      DueFromThen(from, from + period, t);
      assert Due(Wrap(from), t);
    }
  }

  // A timer that fires at time from goes off again once its period has passed, if
  // it is reloaded, and otherwise no more; and keeps its period and kind.
  lemma FiringResets(t: Timer, from: nat)
    requires t.active
    ensures var e := Expired(t, Wrap(from));
            && (if t.autoReload then GoesOff(e, from, t.period) else NeverDue(e))
            && e.period == t.period && e.autoReload == t.autoReload
  {
    if t.autoReload {
      WrapOfSum(from, t.period);
      SetGoesOff(Expired(t, Wrap(from)), from, t.period);
    }
  }

  lemma WrapOfSum(a: int, b: int)
    ensures Wrap(Wrap(a) + b) == Wrap(a + b)
  {
    WrapPeriod(Wrap(a) + b, a / WORD);
  }

  // One that has fired is due again at once exactly when it is reloaded for a
  // period of nothing, or of more than half the clock's range.
  lemma DueAgainAtOnce(now: word, t: Timer)
    requires t.active
    ensures Due(now, Expired(t, now)) <==> t.autoReload && (t.period == 0 || t.period > HALF)
  {
    WrapDifference(now, now + t.period);
    assert Wrap(now) == now;
  }

  // -- The list ----------------------------------------------------------------

  // The node at id and all that follow it.
  function From(list: seq<nat>, id: nat): seq<nat> {
    if list == [] then [] else if list[0] == id then list else From(list[1..], id)
  }

  function Without(list: seq<nat>, id: nat): seq<nat> {
    if list == [] then [] else if list[0] == id then Without(list[1..], id) else [list[0]] + Without(list[1..], id)
  }

  // s is t with some members left out.
  ghost predicate Sub(s: seq<nat>, t: seq<nat>)
    decreases |t|
  {
    s == [] || (t != [] && if s[0] == t[0] then Sub(s[1..], t[1..]) else Sub(s, t[1..]))
  }

  lemma {:induction false} SubSelf(s: seq<nat>)
    ensures Sub(s, s)
  {
    if s != [] { SubSelf(s[1..]); }
  }

  lemma {:induction false} SubMembers(s: seq<nat>, t: seq<nat>)
    requires Sub(s, t)
    ensures |s| <= |t| && forall x | x in s :: x in t
    ensures Distinct(t) ==> Distinct(s)
    decreases |t|
  {
    if s != [] {
      assert s == [s[0]] + s[1..] && t == [t[0]] + t[1..];
      if s[0] == t[0] { SubMembers(s[1..], t[1..]); } else { SubMembers(s, t[1..]); }
      if Distinct(t) {
        assert t[0] !in t[1..];
        assert s[0] == t[0] ==> s[0] !in s[1..];
      }
    }
  }

  lemma {:induction false} SubRest(s: seq<nat>, t: seq<nat>)
    requires Sub(s, t) && s != []
    ensures Sub(s[1..], t)
    decreases |t|
  {
    if s[0] == t[0] {
      if 1 < |s| && s[1] == t[0] { SubRest(s[1..], t[1..]); }
    } else {
      SubRest(s, t[1..]);
      if 1 < |s| && s[1] == t[0] { SubRest(s[1..], t[1..]); }
    }
  }

  lemma SubSkip(s: seq<nat>, x: nat, t: seq<nat>)
    requires Sub(s, t)
    ensures Sub(s, [x] + t)
  {
    assert ([x] + t)[1..] == t;
    if s != [] { SubRest(s, t); }
  }

  lemma {:induction false} SubTrans(s: seq<nat>, t: seq<nat>, u: seq<nat>)
    requires Sub(s, t) && Sub(t, u)
    ensures Sub(s, u)
    decreases |u|
  {
    if s != [] {
      if t[0] == u[0] {
        if s[0] == t[0] { SubTrans(s[1..], t[1..], u[1..]); } else { SubTrans(s, t[1..], u[1..]); }
      } else {
        SubTrans(s, t, u[1..]);
        if s[0] == u[0] { SubRest(s, u[1..]); }
      }
    }
  }

  lemma {:induction false} SubAfter(p: seq<nat>, s: seq<nat>, t: seq<nat>)
    requires Sub(s, t)
    ensures Sub(p + s, p + t)
    decreases |p|
  {
    if p == [] {
      assert p + s == s && p + t == t;
    } else {
      assert (p + s)[1..] == p[1..] + s && (p + t)[1..] == p[1..] + t;
      SubAfter(p[1..], s, t);
    }
  }

  ghost predicate Precedes(t: seq<nat>, x: nat, y: nat) {
    exists i, j :: 0 <= i < j < |t| && t[i] == x && t[j] == y
  }

  lemma {:induction false} SubPrecedes(s: seq<nat>, t: seq<nat>, i: nat, j: nat)
    requires Sub(s, t) && i < j < |s|
    ensures Precedes(t, s[i], s[j])
    decreases |t|
  {
    if s[0] == t[0] && i == 0 {
      SubMembers(s[1..], t[1..]);
      assert s[1..][j - 1] in t[1..];
      var k :| 0 <= k < |t[1..]| && t[1..][k] == s[j];
      assert t[0] == s[i] && t[k + 1] == s[j];
    } else {
      var x, y := s[i], s[j];
      if s[0] == t[0] { SubPrecedes(s[1..], t[1..], i - 1, j - 1); } else { SubPrecedes(s, t[1..], i, j); }
      var k, l :| 0 <= k < l < |t[1..]| && t[1..][k] == x && t[1..][l] == y;
      assert t[k + 1] == x && t[l + 1] == y;
    }
  }

  lemma {:induction false} FromIsSub(list: seq<nat>, id: nat)
    ensures Sub(From(list, id), list)
    ensures id in list <==> From(list, id) != []
    ensures id in list ==> From(list, id)[0] == id
    ensures Distinct(list) ==> Distinct(From(list, id))
  {
    SubSelf(list);
    if list != [] && list[0] != id {
      FromIsSub(list[1..], id);
      assert list == [list[0]] + list[1..];
      SubSkip(From(list, id), list[0], list[1..]);
    }
  }

  lemma {:induction false} WithoutMembers(list: seq<nat>, id: nat)
    ensures forall x :: x in Without(list, id) <==> x in list && x != id
    ensures Sub(Without(list, id), list)
    ensures Distinct(list) ==> Distinct(Without(list, id))
  {
    if list != [] {
      WithoutMembers(list[1..], id);
      assert list == [list[0]] + list[1..];
      var w := Without(list[1..], id);
      if list[0] == id {
        SubSkip(w, id, list[1..]);
      } else {
        assert ([list[0]] + w)[1..] == w;
      }
      SubMembers(Without(list, id), list);
    }
  }

  lemma {:induction false} WithoutKeepsSuffix(list: seq<nat>, id: nat, victim: nat)
    requires id != victim
    ensures From(Without(list, victim), id) == Without(From(list, id), victim)
  {
    if list != [] && list[0] != id {
      WithoutKeepsSuffix(list[1..], id, victim);
      if list[0] != victim {
        var w := Without(list[1..], victim);
        assert ([list[0]] + w)[1..] == w;
      }
    }
  }

  // What follows a node, found again from its successor.
  lemma {:induction false} FromSuccessor(list: seq<nat>, id: nat)
    requires Distinct(list) && 1 < |From(list, id)|
    ensures From(list, From(list, id)[1]) == From(list, id)[1..]
  {
    var next := From(list, id)[1];
    if list[0] == id {
      assert list[0] != list[1];
    } else {
      FromSuccessor(list[1..], id);
      FromIsSub(list[1..], id);
      SubMembers(From(list[1..], id), list[1..]);
      assert next in list[1..];
    }
  }

  lemma PrependKeepsSuffix(list: seq<nat>, id: nat, added: nat)
    requires Distinct(list) && added !in list && id != added
    ensures Distinct([added] + list) && From([added] + list, id) == From(list, id)
  {
    assert ([added] + list)[1..] == list;
  }

  // The timers that are due, in list order.
  function DueList(list: seq<nat>, timers: map<nat, Timer>, now: word): seq<nat> {
    if list == [] then []
    else (if list[0] in timers && Due(now, timers[list[0]]) then [list[0]] else []) + DueList(list[1..], timers, now)
  }

  lemma {:induction false} DueListIsEmpty(list: seq<nat>, timers: map<nat, Timer>, now: word)
    ensures DueList(list, timers, now) == [] <==>
              forall i | 0 <= i < |list| :: list[i] in timers ==> !Due(now, timers[list[i]])
  {
    if list != [] { DueListIsEmpty(list[1..], timers, now); }
  }

  lemma DueListCons(id: nat, rest: seq<nat>, timers: map<nat, Timer>, now: word)
    requires id in timers
    ensures DueList([id] + rest, timers, now) ==
            (if Due(now, timers[id]) then [id] else []) + DueList(rest, timers, now)
  {
    assert ([id] + rest)[1..] == rest;
  }

  lemma {:induction false} SameDueList(list: seq<nat>, timers: map<nat, Timer>, timers': map<nat, Timer>, now: word)
    requires forall x | x in list :: x in timers && x in timers' && timers[x] == timers'[x]
    ensures DueList(list, timers, now) == DueList(list, timers', now)
  {
    if list != [] { SameDueList(list[1..], timers, timers', now); }
  }

  predicate Silent(env: seq<seq<Op>>) {
    forall k | 0 <= k < |env| :: env[k] == []
  }

  // The list after id has been dealt with, as the walk will see it.
  function Ahead(list: seq<nat>, next: Option<nat>): seq<nat> {
    if next.None? then [] else From(list, next.value)
  }

  // timer->next
  function Successor(list: seq<nat>, id: nat): Option<nat> {
    var rest := From(list, id);
    if |rest| > 1 then Some(rest[1]) else None
  }

  lemma NextIsTail(list: seq<nat>, id: nat)
    requires Distinct(list) && id in list
    ensures var next := Successor(list, id);
            && From(list, id) == [id] + Ahead(list, next) && id !in Ahead(list, next)
            && next != Some(id) && (next.Some? ==> next.value in list)
  {
    FromIsSub(list, id);
    var rest := From(list, id);
    assert rest == [id] + rest[1..];
    SubMembers(rest, list);
    if |rest| > 1 {
      FromSuccessor(list, id);
      assert rest[1] in rest;
    }
  }

  // -- What callbacks do ---------------------------------------------------------

  // The list and its timers, the clock, and how often each timer has been started
  // and has fired since it was created.
  datatype Desk = Desk(list: seq<nat>, timers: map<nat, Timer>, now: nat, starts: map<nat, nat>, fires: map<nat, nat>)

  // A call is of a timer that is listed; a new one is at an address not in use.
  predicate Allowed(d: Desk, op: Op) {
    match op
    case Create(id, _, _) => id !in d.list
    case Elapse(_) => true
    case _ => op.id in d.list && op.id in d.timers && op.id in d.starts
  }

  function Done(d: Desk, op: Op): Desk {
    if !Allowed(d, op) then d
    else match op {
      case Create(id, period, autoReload) =>
        Desk([id] + d.list, d.timers[id := Timer(period, 0, autoReload, false)], d.now,
             d.starts[id := 0], d.fires[id := 0])
      case Delete(id) => d.(list := Without(d.list, id))
      case Start(id) =>
        var t := d.timers[id];
        d.(timers := d.timers[id := t.(expiresAt := Wrap(d.now + t.period), active := true)],
           starts := d.starts[id := d.starts[id] + 1])
      case Stop(id) => d.(timers := d.timers[id := d.timers[id].(active := false)])
      case ChangePeriod(id, period) =>
        var t := d.timers[id].(period := period);
        d.(timers := d.timers[id := if t.active then t.(expiresAt := Wrap(d.now + period)) else t])
      case Elapse(ms) => d.(now := d.now + ms)
    }
  }

  function DoneAll(d: Desk, ops: seq<Op>): Desk
    decreases |ops|
  {
    if ops == [] then d else Done(DoneAll(d, ops[..|ops| - 1]), ops[|ops| - 1])
  }

  predicate Touches(op: Op, id: nat) {
    !op.Elapse? && op.id == id
  }

  ghost predicate TouchedBy(ops: seq<Op>, id: nat) {
    exists j :: 0 <= j < |ops| && Touches(ops[j], id)
  }

  lemma TouchedByMore(ops: seq<Op>, op: Op, id: nat)
    ensures TouchedBy(ops + [op], id) <==> TouchedBy(ops, id) || Touches(op, id)
  {
    var all := ops + [op];
    assert all[|ops|] == op && forall j :: 0 <= j < |ops| ==> all[j] == ops[j];
  }

  // -- What each call means ------------------------------------------------------

  // The timer has been started n times since it was created.
  predicate Counted(d: Desk, id: nat, n: nat) {
    id in d.starts && d.starts[id] == n
  }

  // Left be, a timer stays as it is, and where it is, while the clock runs on.
  lemma {:induction false} UntouchedStays(d: Desk, ops: seq<Op>, id: nat)
    requires !TouchedBy(ops, id)
    ensures var s := DoneAll(d, ops);
            && s.now >= d.now && (id in s.list <==> id in d.list) && (id in s.timers <==> id in d.timers)
            && (id in d.timers ==> s.timers[id] == d.timers[id])
            && (forall n :: Counted(d, id, n) ==> Counted(s, id, n))
    decreases |ops|
  {
    if ops != [] {
      var init, last := ops[..|ops| - 1], ops[|ops| - 1];
      assert ops == init + [last];
      TouchedByMore(init, last, id);
      UntouchedStays(d, init, id);
      WithoutMembers(DoneAll(d, init).list, if last.Elapse? then 0 else last.id);
    }
  }

  // What comes of op, made at desk d, in s, the timer called having been left be since.
  ghost predicate Meant(d: Desk, op: Op, s: Desk)
    requires Allowed(d, op)
  {
    match op
    case Elapse(ms) => s.now >= d.now + ms
    case Delete(id) => id !in s.list
    case Create(id, period, autoReload) =>
      && id in s.list && id in s.timers && NeverDue(s.timers[id])
      && s.timers[id].period == period && s.timers[id].autoReload == autoReload && Counted(s, id, 0)
    case Start(id) =>
      && SameTimer(d, id, s, d.timers[id].period) && GoesOff(s.timers[id], d.now, d.timers[id].period)
      && Counted(s, id, d.starts[id] + 1)
    case Stop(id) =>
      SameTimer(d, id, s, d.timers[id].period) && NeverDue(s.timers[id]) && Counted(s, id, d.starts[id])
    case ChangePeriod(id, period) =>
      && SameTimer(d, id, s, period) && Counted(s, id, d.starts[id])
      && if d.timers[id].active then GoesOff(s.timers[id], d.now, period) else NeverDue(s.timers[id])
  }

  predicate SameTimer(d: Desk, id: nat, s: Desk, period: word) {
    && id in d.timers && id in s.list && id in s.timers
    && s.timers[id].autoReload == d.timers[id].autoReload && s.timers[id].period == period
  }

  // A timer started goes off when its period has passed, and not before; one new
  // or stopped does not go off; one deleted is gone; and a change of period starts
  // again exactly a timer that is running -- until the next call on that timer,
  // however much is done elsewhere meanwhile.
  lemma CallsMean(d: Desk, op: Op, ops: seq<Op>)
    requires Allowed(d, op) && (op.Elapse? || !TouchedBy(ops, op.id))
    ensures Meant(d, op, DoneAll(Done(d, op), ops))
  {
    hide DoneAll, TouchedBy, GoesOff, Distinct;
    CallMeans(d, op);
    if op.Elapse? {
      ClockRunsOn(Done(d, op), ops);
    } else {
      UntouchedStays(Done(d, op), ops, op.id);
    }
  }

  lemma CallMeans(d: Desk, op: Op)
    requires Allowed(d, op)
    ensures Meant(d, op, Done(d, op))
  {
    hide GoesOff, Wrap;
    match op
    case Delete(id) => WithoutMembers(d.list, id);
    case Start(id) => SetGoesOff(Done(d, op).timers[id], d.now, d.timers[id].period);
    case ChangePeriod(id, period) =>
      if d.timers[id].active { SetGoesOff(Done(d, op).timers[id], d.now, period); }
    case _ =>
  }

  lemma {:induction false} ClockRunsOn(d: Desk, ops: seq<Op>)
    ensures DoneAll(d, ops).now >= d.now
    decreases |ops|
  {
    if ops != [] { ClockRunsOn(d, ops[..|ops| - 1]); }
  }

  // A call affects no other timer.
  lemma OthersStay(d: Desk, op: Op)
    ensures forall x | x in d.timers && !Touches(op, x) ::
              var s := Done(d, op); x in s.timers && s.timers[x] == d.timers[x] && (x in s.list <==> x in d.list)
  {
    if op.Delete? { WithoutMembers(d.list, op.id); }
  }

  // Of the timers ahead, those ops leave be are still ahead, and as they were.
  ghost predicate Spared(ahead: seq<nat>, timers: map<nat, Timer>, ahead': seq<nat>, timers': map<nat, Timer>,
                         ops: seq<Op>) {
    forall x | x in ahead && x in timers && !TouchedBy(ops, x) :: x in ahead' && x in timers' && timers'[x] == timers[x]
  }

  lemma NothingSpares(ahead: seq<nat>, timers: map<nat, Timer>)
    ensures Spared(ahead, timers, ahead, timers, []) && Sub(ahead, ahead)
  {
    SubSelf(ahead);
  }

  // One more thing done, short of deleting the node the walk stands before.
  lemma OpKeepsAhead(d: Desk, op: Op, next: Option<nat>)
    requires Distinct(d.list) && (next.Some? ==> next.value in d.list) && Allowed(d, op)
    requires op.Delete? ==> next != Some(op.id)
    ensures var list' := Done(d, op).list;
            && (next.Some? ==> next.value in list') && Sub(Ahead(list', next), Ahead(d.list, next))
            && forall x | x in Ahead(d.list, next) && !Touches(op, x) :: x in Ahead(list', next)
  {
    SubSelf(Ahead(d.list, next));
    if next.Some? {
      if op.Create? { PrependKeepsSuffix(d.list, next.value, op.id); }
      if op.Delete? {
        WithoutKeepsSuffix(d.list, next.value, op.id);
        WithoutMembers(d.list, op.id);
        WithoutMembers(From(d.list, next.value), op.id);
      }
    }
  }

  lemma SparesOneMore(ahead: seq<nat>, timers: map<nat, Timer>, d: Desk, op: Op, next: Option<nat>, ops: seq<Op>)
    requires Distinct(d.list) && (next.Some? ==> next.value in d.list) && (op.Delete? ==> next != Some(op.id))
    requires Spared(ahead, timers, Ahead(d.list, next), d.timers, ops) && Sub(Ahead(d.list, next), ahead)
    ensures Spared(ahead, timers, Ahead(Done(d, op).list, next), Done(d, op).timers, ops + [op])
    ensures Sub(Ahead(Done(d, op).list, next), ahead)
  {
    hide Sub, Distinct, Ahead, Without, From, Wrap, TouchedBy;
    var d' := Done(d, op);
    if Allowed(d, op) {
      OpKeepsAhead(d, op, next);
      SubTrans(Ahead(d'.list, next), Ahead(d.list, next), ahead);
    }
    forall x | x in ahead && x in timers && !TouchedBy(ops + [op], x)
      ensures x in Ahead(d'.list, next) && x in d'.timers && d'.timers[x] == timers[x] {
      TouchedByMore(ops, op, x);
    }
  }

  // -- How far the walk has got ----------------------------------------------------

  // Those that have fired, then those ahead, are the list as it was with some
  // members left out.
  ghost predicate Walked(ahead: seq<nat>, fired: seq<nat>, before: seq<nat>) {
    Distinct(before) && Sub(fired + ahead, before)
  }

  // What was due is what has fired and what is due ahead.
  predicate OnTrack(ahead: seq<nat>, fired: seq<nat>, timers: map<nat, Timer>, now: word, due: seq<nat>) {
    fired + DueList(ahead, timers, now) == due
  }

  // A callback made in this walk, of a timer listed before id, has touched id.
  ghost predicate TouchedBefore(env: seq<seq<Op>>, fired: seq<nat>, before: seq<nat>, id: nat) {
    exists k :: 0 <= k < |fired| && TouchedAt(env, fired, before, id, k)
  }

  ghost predicate TouchedAt(env: seq<seq<Op>>, fired: seq<nat>, before: seq<nat>, id: nat, k: nat) {
    k < |fired| && k < |env| && TouchedBy(env[k], id) && Precedes(before, fired[k], id)
  }

  // Each timer that was due has fired, or is ahead and still as it was, or has been
  // touched by the callback of one before it.
  ghost predicate Reckoned(due: seq<nat>, was: map<nat, Timer>, ahead: seq<nat>, timers: map<nat, Timer>,
                           fired: seq<nat>,
                           env: seq<seq<Op>>, before: seq<nat>) {
    forall id | id in due && id in was :: IsReckoned(id, was, ahead, timers, fired, env, before)
  }

  ghost predicate IsReckoned(id: nat, was: map<nat, Timer>, ahead: seq<nat>, timers: map<nat, Timer>, fired: seq<nat>,
                             env: seq<seq<Op>>, before: seq<nat>)
    requires id in was
  {
    id in fired || (id in ahead && id in timers && timers[id] == was[id]) || TouchedBefore(env, fired, before, id)
  }

  lemma StillTouched(env: seq<seq<Op>>, fired: seq<nat>, before: seq<nat>, id: nat, more: nat)
    requires TouchedBefore(env, fired, before, id)
    ensures TouchedBefore(env, fired + [more], before, id)
  {
    var k :| 0 <= k < |fired| && TouchedAt(env, fired, before, id, k);
    assert TouchedAt(env, fired + [more], before, id, k);
  }

  function OpsAt(env: seq<seq<Op>>, k: nat): seq<Op> {
    if k < |env| then env[k] else []
  }

  // Node id has fired, and its callback has been made.
  lemma ReckonedFiring(due: seq<nat>, was: map<nat, Timer>, id: nat, ahead: seq<nat>, timers: map<nat, Timer>,
                       fired: seq<nat>,
                       env: seq<seq<Op>>, before: seq<nat>, mid: map<nat, Timer>,
                       ahead': seq<nat>, timers': map<nat, Timer>)
    requires Reckoned(due, was, [id] + ahead, timers, fired, env, before) && Walked([id] + ahead, fired, before)
    requires forall x | x != id && x in timers :: x in mid && mid[x] == timers[x]
    requires Spared(ahead, mid, ahead', timers', OpsAt(env, |fired|))
    ensures Reckoned(due, was, ahead', timers', fired + [id], env, before)
  {
    hide Spared, TouchedBefore, TouchedBy, Sub, Precedes;
    forall x | x in due && x in was ensures IsReckoned(x, was, ahead', timers', fired + [id], env, before) {
      assert IsReckoned(x, was, [id] + ahead, timers, fired, env, before);
      if x in fired || x == id {
        assert x in fired + [id];
      } else if TouchedBefore(env, fired, before, x) {
        StillTouched(env, fired, before, x, id);
      } else {
        assert x in ahead;
        SparedOrTouched(x, id, ahead, mid, fired, env, before, ahead', timers');
      }
    }
  }

  lemma SparedOrTouched(x: nat, id: nat, ahead: seq<nat>, timers: map<nat, Timer>, fired: seq<nat>,
                        env: seq<seq<Op>>, before: seq<nat>, ahead': seq<nat>, timers': map<nat, Timer>)
    requires x in ahead && x in timers && Walked([id] + ahead, fired, before)
    requires Spared(ahead, timers, ahead', timers', OpsAt(env, |fired|))
    ensures (x in ahead' && x in timers' && timers'[x] == timers[x]) || TouchedBefore(env, fired + [id], before, x)
  {
    hide Sub, TouchedBy;
    var k := |fired|;
    if TouchedBy(OpsAt(env, k), x) {
      NothingTouches(x);
      var all := fired + ([id] + ahead);
      var j :| 0 <= j < |ahead| && ahead[j] == x;
      assert all[k] == id && all[k + 1 + j] == x;
      SubPrecedes(all, before, k, k + 1 + j);
      assert TouchedAt(env, fired + [id], before, x, k);
    }
  }

  lemma NothingTouches(id: nat)
    ensures !TouchedBy([], id)
  {
  }

  // Node id is not due, and the walk goes by.
  lemma ReckonedPassing(due: seq<nat>, was: map<nat, Timer>, id: nat, ahead: seq<nat>, timers: map<nat, Timer>,
                        fired: seq<nat>,
                        env: seq<seq<Op>>, before: seq<nat>, now: word)
    requires Reckoned(due, was, [id] + ahead, timers, fired, env, before)
    requires id in timers && !Due(now, timers[id]) && (id in due && id in was ==> Due(now, was[id]))
    ensures Reckoned(due, was, ahead, timers, fired, env, before)
  {
    hide Due, TouchedBefore;
    forall x | x in due && x in was ensures IsReckoned(x, was, ahead, timers, fired, env, before) {
      assert IsReckoned(x, was, [id] + ahead, timers, fired, env, before);
    }
  }

  lemma {:induction false} DueListMembers(list: seq<nat>, timers: map<nat, Timer>, now: word)
    ensures forall id :: id in DueList(list, timers, now) <==> id in list && id in timers && Due(now, timers[id])
  {
    hide Due;
    if list != [] {
      DueListMembers(list[1..], timers, now);
      assert list == [list[0]] + list[1..];
    }
  }

  lemma WalkBegins(list: seq<nat>, timers: map<nat, Timer>, now: word, cur: Option<nat>, env: seq<seq<Op>>)
    requires Distinct(list) && cur == if list == [] then None else Some(list[0])
    ensures Ahead(list, cur) == list && Walked(list, [], list)
    ensures OnTrack(list, [], timers, now, DueList(list, timers, now))
    ensures Reckoned(DueList(list, timers, now), timers, list, timers, [], env, list)
  {
    SubSelf(list);
    assert [] + list == list;
    DueListMembers(list, timers, now);
    assert forall id | id in list && id in timers :: IsReckoned(id, timers, list, timers, [], env, list);
  }

  lemma WalkEnds(fired: seq<nat>, before: seq<nat>)
    requires Walked([], fired, before)
    ensures Sub(fired, before) && Distinct(fired)
  {
    assert fired + [] == fired;
    SubMembers(fired, before);
  }

  // Each one due has fired, or been touched.
  ghost predicate Settled(due: seq<nat>, was: map<nat, Timer>, fired: seq<nat>, env: seq<seq<Op>>, before: seq<nat>) {
    forall id | id in due && id in was :: id in fired || TouchedBefore(env, fired, before, id)
  }

  lemma AllSettled(due: seq<nat>, was: map<nat, Timer>, timers: map<nat, Timer>, fired: seq<nat>, env: seq<seq<Op>>,
                   before: seq<nat>)
    requires Reckoned(due, was, [], timers, fired, env, before)
    ensures Settled(due, was, fired, env, before)
  {
    hide TouchedBefore;
    forall id | id in due && id in was ensures id in fired || TouchedBefore(env, fired, before, id) {
      assert IsReckoned(id, was, [], timers, fired, env, before);
    }
  }

  // Passing node id, whether or not it fires.
  lemma WalkStep(fired: seq<nat>, id: nat, ahead: seq<nat>, ahead': seq<nat>, before: seq<nat>)
    requires Walked([id] + ahead, fired, before) && Sub(ahead', ahead)
    ensures Walked(ahead', fired, before) && Walked(ahead', fired + [id], before) && Walked([], fired + [id], before)
    ensures |ahead'| < |[id] + ahead| && id !in fired
  {
    hide Sub, Distinct;
    var all := fired + ([id] + ahead);
    SubMembers(ahead', ahead);
    SubSkip(ahead', id, ahead);
    SubAfter(fired, ahead', [id] + ahead);
    SubTrans(fired + ahead', all, before);
    SubAfter(fired + [id], ahead', ahead);
    SubNothing(ahead);
    SubAfter(fired + [id], [], ahead);
    assert fired + [id] + ahead == all;
    SubTrans(fired + [id] + ahead', all, before);
    SubTrans(fired + [id] + [], all, before);
    SubMembers(all, before);
    NoneTwice(fired, id, ahead);
  }

  lemma SubNothing(t: seq<nat>)
    ensures Sub([], t)
  {
  }

  lemma NoneTwice(s: seq<nat>, x: nat, t: seq<nat>)
    requires Distinct(s + ([x] + t))
    ensures x !in s
  {
    var all := s + ([x] + t);
    assert all[|s|] == x && forall k :: 0 <= k < |s| ==> all[k] == s[k];
  }

  lemma SameDueListAhead(list: seq<nat>, next: Option<nat>, id: nat, timers: map<nat, Timer>, timers': map<nat,
                         Timer>, now: word)
    requires id !in Ahead(list, next)
    requires forall x | x in list && x != id :: x in timers && x in timers' && timers[x] == timers'[x]
    ensures DueList(Ahead(list, next), timers, now) == DueList(Ahead(list, next), timers', now)
  {
    if next.Some? {
      FromIsSub(list, next.value);
      SubMembers(From(list, next.value), list);
    }
    SameDueList(Ahead(list, next), timers, timers', now);
  }

  // Those fired have been reloaded or stopped, and the others left alone.
  ghost predicate Fired(was: map<nat, Timer>, timers: map<nat, Timer>, fired: seq<nat>, now: word) {
    && timers.Keys == was.Keys
    && forall x | x in was :: timers[x] == if x in fired then Expired(was[x], now) else was[x]
  }

  lemma FiredOne(was: map<nat, Timer>, timers: map<nat, Timer>, timers': map<nat, Timer>, fired: seq<nat>, id: nat,
                 now: word,
                 fires: bool)
    requires Fired(was, timers, fired, now) && id in timers && id !in fired
    requires timers' == if fires then timers[id := Expired(timers[id], now)] else timers
    ensures Fired(was, timers', if fires then fired + [id] else fired, now)
  {
  }

  // What fired in a walk at time from is due in a later one exactly when it is
  // reloaded and its period has passed since, up to half the clock's range.
  lemma DueAgainAfterItsPeriod(was: map<nat, Timer>, timers: map<nat, Timer>, fired: seq<nat>, from: nat,
                               list: seq<nat>, id: nat, now: nat)
    requires Fired(was, timers, fired, Wrap(from)) && id in fired && id in was && was[id].active && id in list
    requires was[id].period <= HALF && from <= now < from + was[id].period + HALF
    ensures id in DueList(list, timers, Wrap(now)) <==> was[id].autoReload && now >= from + was[id].period
  {
    hide Due, Wrap, DueList, Expired;
    FiringResets(was[id], from);
    DueListMembers(list, timers, Wrap(now));
  }

  // The k'th callback deletes the timer saved as the next.
  predicate Hits(env: seq<seq<Op>>, k: nat, next: Option<nat>) {
    next.Some? && Delete(next.value) in OpsAt(env, k)
  }

  class TimerService {
    var now: nat                       // the millisecond clock, unwrapped
    var list: seq<nat>                 // mm_halow_timer_list
    var timers: map<nat, Timer>
    var woken: bool
    ghost var starts: map<nat, nat>    // per timer, since it was created
    ghost var fires: map<nat, nat>

    // A one-shot fires at most once per start.
    ghost predicate Valid()
      reads this
    {
      Distinct(list) && forall id | id in list :: Accounted(id)
    }

    ghost predicate Accounted(id: nat)
      reads this
    {
      && id in timers && id in starts && id in fires
      && (!timers[id].autoReload ==> fires[id] + (if timers[id].active then 1 else 0) <= starts[id])
    }

    ghost function Books(): Desk
      reads this
    {
      Desk(list, timers, now, starts, fires)
    }

    constructor (clock: nat)
      ensures Valid() && list == []
    {
      now, list, timers, woken, starts, fires := clock, [], map[], false, map[], map[];
    }

    // -- The calls -------------------------------------------------------------

    method Apply(op: Op)
      requires Valid() && Allowed(Books(), op)
      modifies this`now, this`list, this`timers, this`starts, this`fires
      ensures Valid() && Books() == Done(old(Books()), op)
      // The timer called goes off when it should, and no other is affected.
      ensures Meant(old(Books()), op, Books())
      ensures forall x | x in old(timers) && !Touches(op, x) ::
                x in timers && timers[x] == old(timers)[x] && (x in list <==> x in old(list))
    {
      hide Done, Distinct, Meant;
      ghost var d := Books();
      Perform(op);
      CallMeans(d, op);
      OthersStay(d, op);
    }

    method Perform(op: Op)
      requires Valid() && Allowed(Books(), op)
      modifies this`now, this`list, this`timers, this`starts, this`fires
      ensures Valid() && Books() == Done(old(Books()), op)
    {
      hide Wrap, Signed, Distinct;
      match op
      case Create(id, period, autoReload) =>
        timers := timers[id := Timer(period, 0, autoReload, false)];
        starts, fires := starts[id := 0], fires[id := 0];
        PrependKeepsSuffix(list, id + 1, id);
        list := [id] + list;
      case Delete(id) =>
        WithoutMembers(list, id);
        list := Without(list, id);
      case Start(id) =>
        timers := timers[id := timers[id].(expiresAt := Wrap(now + timers[id].period), active := true)];
        starts := starts[id := starts[id] + 1];
      case Stop(id) =>
        timers := timers[id := timers[id].(active := false)];
      case ChangePeriod(id, period) =>
        var t := timers[id].(period := period);
        timers := timers[id := if t.active then t.(expiresAt := Wrap(now + period)) else t];
      case Elapse(ms) =>
        now := now + ms;
    }

    // mm_halow_osal_timer_pending()
    method IsPending() returns (p: bool)
      requires Valid()
      ensures p <==> DueList(list, timers, Wrap(now)) != []
    {
      var t := Wrap(now);
      DueListIsEmpty(list, timers, t);
      for i := 0 to |list|
        invariant forall j | 0 <= j < i :: list[j] in timers && !Due(t, timers[list[j]])
      {
        assert Accounted(list[i]);
        if Due(t, timers[list[i]]) {
          return true;
        }
      }
      return false;
    }

    // A callback doing what it likes while the walk stands before next.  It must
    // not delete that node: dangling tells when it did.
    method Callback(ops: seq<Op>, next: Option<nat>) returns (dangling: bool)
      requires Valid() && (next.Some? ==> next.value in list)
      modifies this`now, this`list, this`timers, this`starts, this`fires
      ensures Valid()
      ensures dangling <==> next.Some? && Delete(next.value) in ops
      ensures !dangling ==>
        && Books() == DoneAll(old(Books()), ops) && (next.Some? ==> next.value in list)
        && Sub(Ahead(list, next), old(Ahead(list, next)))
        && Spared(old(Ahead(list, next)), old(timers), Ahead(list, next), timers, ops)
    {
      hide Done, Allowed, Sub, Spared, Distinct, Ahead;
      ghost var ahead, was := Ahead(list, next), timers;
      NothingSpares(ahead, was);
      for i := 0 to |ops|
        invariant Valid() && (next.Some? ==> next.value in list && Delete(next.value) !in ops[..i])
        invariant Books() == DoneAll(old(Books()), ops[..i])
        invariant Sub(Ahead(list, next), ahead) && Spared(ahead, was, Ahead(list, next), timers, ops[..i])
      {
        assert ops[..i + 1] == ops[..i] + [ops[i]] && ops[..i + 1][..i] == ops[..i];
        if ops[i].Delete? && next == Some(ops[i].id) {
          return true;
        }
        SparesOneMore(ahead, was, Books(), ops[i], next, ops[..i]);
        if MayDo(ops[i]) {
          NextStaysListed(Books(), ops[i], next);
          Apply(ops[i]);
        } else {
          NotDone(Books(), ops[i]);
        }
      }
      assert ops[..|ops|] == ops;
      return false;
    }

    // Whether the caller of a timer function has a timer to call it with.
    predicate MayDo(op: Op)
      requires Valid()
      reads this
      ensures MayDo(op) <==> Allowed(Books(), op)
    {
      match op
      case Create(id, _, _) => id !in list
      case Elapse(_) => true
      case _ => assert op.id in list ==> Accounted(op.id); op.id in list
    }

    // -- The walk --------------------------------------------------------------

    // mm_halow_osal_timer_poll(); env says what each callback in turn does, and
    // saved is the node the walk saved before each.
    method Poll(env: seq<seq<Op>>) returns (fired: seq<nat>, dangling: bool, ghost saved: seq<Option<nat>>)
      requires Valid()
      modifies this
      ensures Valid()
      // Timers listed at the start fire at most once each, in list order, and no other does.
      ensures Sub(fired, old(list)) && Distinct(fired)
      // Something fires exactly when pending says so.
      ensures fired != [] <==> old(DueList(list, timers, Wrap(now))) != []
      ensures fired != [] && !dangling ==> woken
      // The walk runs off the list exactly when a callback deletes the node saved
      // before it, which is never its own: a timer may delete itself.
      ensures |saved| == |fired| && forall k | 0 <= k < |fired| :: saved[k] != Some(fired[k])
      ensures dangling <==> exists k :: 0 <= k < |fired| && Hits(env, k, saved[k])
      ensures fired != [] ==> saved[0] == Successor(old(list), fired[0])
      // Each timer that was due fires, unless the callback of one before it in the
      // list has stopped, restarted, changed or deleted it.
      ensures !dangling ==> Settled(old(DueList(list, timers, Wrap(now))), old(timers), fired, env, old(list))
      // With callbacks that leave the timers be, exactly those due fire.
      ensures Silent(env) ==>
        && !dangling && list == old(list) && fired == old(DueList(list, timers, Wrap(now)))
        && Fired(old(timers), timers, fired, old(Wrap(now)))
    {
      hide Distinct, Wrap, Due, DueList, Sub, From, Ahead, Walked, OnTrack, Silent, Reckoned, Successor, Hits;
      var t := Wrap(now);
      ghost var before, was, due := list, timers, DueList(list, timers, t);
      var cur := if list == [] then None else Some(list[0]);
      fired, dangling, saved := [], false, [];
      WalkBegins(list, timers, t, cur, env);
      DueListMembers(list, timers, t);
      while cur.Some?
        invariant Valid() && (cur.Some? ==> cur.value in list) && |saved| == |fired|
        invariant Walked(Ahead(list, cur), fired, before) && (fired != [] ==> woken && due != [])
        invariant Reckoned(due, was, Ahead(list, cur), timers, fired, env, before)
        invariant fired == [] || Silent(env) ==> list == before && OnTrack(Ahead(list, cur), fired, timers, t, due)
        invariant Silent(env) ==> Fired(was, timers, fired, t)
        invariant forall k | 0 <= k < |fired| :: saved[k] != Some(fired[k]) && !Hits(env, k, saved[k])
        invariant fired != [] ==> saved[0] == Successor(before, fired[0])
        decreases |Ahead(list, cur)|
      {
        var id := cur.value;
        ghost var done, now' := fired, timers;
        NextIsTail(list, id);
        cur, fired, dangling := Visit(t, id, fired, env, before, due, was);
        if fired != done { saved := saved + [cur]; }
        if dangling {
          WalkEnds(fired, before);
          assert Hits(env, |done|, saved[|done|]);
          return;
        }
        if Silent(env) { FiredOne(was, now', timers, done, id, t, fired != done); }
      }
      AheadOfNone(list);
      WalkEnds(fired, before);
      TrackEnds(fired, timers, t, due);
      AllSettled(due, was, timers, fired, env, before);
    }

    // The body of the walk, at node id.
    method Visit(t: word, id: nat, fired: seq<nat>, env: seq<seq<Op>>,
                 ghost before: seq<nat>, ghost due: seq<nat>, ghost was: map<nat, Timer>)
      returns (next: Option<nat>, fired': seq<nat>, dangling: bool)
      requires Valid() && id in list
      requires Walked(Ahead(list, Some(id)), fired, before) && (fired != [] ==> woken && due != [])
      requires Reckoned(due, was, Ahead(list, Some(id)), timers, fired, env, before)
      requires id in due && id in was ==> Due(t, was[id])
      requires fired == [] || Silent(env) ==> list == before && OnTrack(Ahead(list, Some(id)), fired, timers, t, due)
      modifies this
      ensures Valid() && id !in fired && id in old(timers)
      ensures next == Successor(old(list), id) && fired' == if Due(t, old(timers)[id]) then fired + [id] else fired
      ensures dangling <==> fired' != fired && Hits(env, |fired|, next)
      ensures Walked(if dangling then [] else Ahead(list, next), fired', before)
      ensures (fired' != [] ==> due != []) && (Silent(env) ==> !dangling)
      ensures !dangling ==>
        && (next.Some? ==> next.value in list) && (fired' != [] ==> woken)
        && |Ahead(list, next)| < |old(Ahead(list, Some(id)))|
        && Reckoned(due, was, Ahead(list, next), timers, fired', env, before)
        && (fired' == [] || Silent(env) ==> list == before && OnTrack(Ahead(list, next), fired', timers, t, due))
      ensures Silent(env) ==>
        timers == if fired' == fired then old(timers) else old(timers)[id := Expired(old(timers)[id], t)]
    {
      hide Distinct, Wrap, Due, DueList, Sub, From, Ahead, Walked, Reckoned, Successor, Spared, DoneAll, OpsAt, Expired;
      next := NextOf(id);
      NextIsTail(list, id);
      ghost var ahead, timers0 := Ahead(list, next), timers;
      DueListCons(id, ahead, timers, t);
      assert Accounted(id);
      AheadOfSome(list, id);
      SubSelf(ahead);
      WalkStep(fired, id, ahead, ahead, before);
      if Due(t, timers[id]) {
        ghost var mid := timers[id := Expired(timers[id], t)];
        dangling := Fire(t, id, next, OpsAt(env, |fired|));
        fired' := fired + [id];
        if !dangling {
          WalkStep(fired, id, ahead, Ahead(list, next), before);
          ReckonedFiring(due, was, id, ahead, timers0, fired, env, before, mid, Ahead(list, next), timers);
        }
        woken := woken || !dangling;
        if Silent(env) {
          SilentOps(env, |fired|);
          SameDueListAhead(list, next, id, timers0, timers, t);
        }
      } else {
        fired', dangling := fired, false;
        ReckonedPassing(due, was, id, ahead, timers, fired, env, before, t);
      }
    }

    method NextOf(id: nat) returns (next: Option<nat>)
      requires Valid() && id in list
      ensures next == Successor(list, id)
    {
      var rest := From(list, id);
      next := if |rest| > 1 then Some(rest[1]) else None;
    }

    // Reload or retire the timer, then call it back.
    method Fire(t: word, id: nat, next: Option<nat>, ops: seq<Op>) returns (dangling: bool)
      requires Valid() && id in list && id in timers && Due(t, timers[id]) && (next.Some? ==> next.value in list)
      modifies this`now, this`list, this`timers, this`starts, this`fires
      ensures Valid() && id in old(fires)
      ensures dangling <==> next.Some? && Delete(next.value) in ops
      ensures var mid := old(timers)[id := Expired(old(timers)[id], t)];
        !dangling ==>
          // The timer has been reloaded or stopped, and counted, and the callback made.
          && Books() == DoneAll(Desk(old(list), mid, old(now), old(starts), old(fires)[id := old(fires)[id] + 1]), ops)
          && (next.Some? ==> next.value in list) && Sub(Ahead(list, next), old(Ahead(list, next)))
          && Spared(old(Ahead(list, next)), mid, Ahead(list, next), timers, ops)
    {
      hide Sub, Spared, DoneAll, Ahead, Wrap, Signed;
      assert Accounted(id);
      var timer := timers[id];
      if timer.autoReload {
        timers := timers[id := timer.(expiresAt := Wrap(t + timer.period))];
      } else {
        timers := timers[id := timer.(active := false)];
      }
      fires := fires[id := fires[id] + 1];
      assert forall x | x in list :: old(Accounted(x)) ==> Accounted(x);
      dangling := Callback(ops, next);
    }
  }

  lemma AheadOfNone(list: seq<nat>)
    ensures Ahead(list, None) == []
  {
  }

  lemma AheadOfSome(list: seq<nat>, id: nat)
    ensures Ahead(list, Some(id)) == From(list, id)
  {
  }

  lemma TrackEnds(fired: seq<nat>, timers: map<nat, Timer>, now: word, due: seq<nat>)
    ensures OnTrack([], fired, timers, now, due) ==> fired == due
  {
  }

  lemma SilentOps(env: seq<seq<Op>>, k: nat)
    requires Silent(env)
    ensures OpsAt(env, k) == [] && forall d: Desk :: DoneAll(d, []) == d
  {
  }

  lemma NotDone(d: Desk, op: Op)
    requires !Allowed(d, op)
    ensures Done(d, op) == d
  {
  }

  lemma NextStaysListed(d: Desk, op: Op, next: Option<nat>)
    requires Distinct(d.list) && (next.Some? ==> next.value in d.list) && Allowed(d, op)
    requires op.Delete? ==> next != Some(op.id)
    ensures next.Some? ==> next.value in Done(d, op).list
  {
    if op.Delete? { WithoutMembers(d.list, op.id); }
  }

  // The walk standing at a listed timer is spoiled by a callback that deletes the
  // next one, and not by one that deletes that timer itself.
  lemma OnlyTheSuccessorMatters(list: seq<nat>, id: nat)
    requires Distinct(list) && id in list && Successor(list, id).Some?
    ensures var next := Successor(list, id);
            Hits([[Delete(next.value)]], 0, next) && !Hits([[Delete(id)]], 0, next)
  {
    NextIsTail(list, id);
  }
}
