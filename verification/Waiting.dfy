// mm_halow_sched_wait() and the primitives that block through it, from the point
// of view of one caller.  What the rest of the system does while it is parked is
// an input: one list of events for each time it parks.
module Waiting {
  import opened Words
  import opened Config
  import opened Lists

  const FOREVER: word := WORD - 1        // MMOSAL_WAIT_FOREVER, UINT32_MAX

  // -- What can be waited for --------------------------------------------------

  datatype Object =
    | Sem(count: nat, max: nat)          // mmosal_sem
    | Semb(signalled: bool)              // mmosal_semb
    | Mutex(locked: bool, owner: Option<nat>, takenMs: word)  // mmosal_mutex
    | Notification(pending: word)        // a task's notify count
    | Channel(items: seq<seq<uint8>>, capacity: nat)          // mmosal_queue

  // Tokens to be had.
  function Units(o: Object): nat {
    match o
    case Sem(n, _) => n
    case Semb(b) => if b then 1 else 0
    case Mutex(b, _, _) => if b then 0 else 1
    case Notification(n) => n
    case Channel(items, _) => |items|
  }

  // The condition functions: one atomic test and take, by task who (or by none).
  function Take(o: Object, who: Option<nat>, now: word): Object {
    match o
    case Sem(n, m) => if n > 0 then Sem(n - 1, m) else o
    case Semb(_) => Semb(false)
    case Mutex(b, _, _) => if b then o else Mutex(true, who, now)
    case Notification(n) => if n != 0 then Notification(n - 1) else o
    case Channel(items, m) => if items != [] then Channel(items[1..], m) else o
  }

  // mmosal_sem_give(), _semb_give(), _mutex_release(), _task_notify(); and the push
  // of an item.
  function Give(o: Object, item: seq<uint8>): Object {
    match o
    case Sem(n, m) => if n < m then Sem(n + 1, m) else o
    case Semb(_) => Semb(true)
    case Mutex(_, _, t) => Mutex(false, None, t)
    case Notification(n) => Notification(Wrap(n + 1))
    case Channel(items, m) => if |items| < m then Channel(items + [item], m) else o
  }

  predicate Accepts(o: Object) {
    match o
    case Sem(n, m) => n < m
    case Semb(b) => !b
    case Mutex(b, _, _) => b
    case Notification(_) => true
    case Channel(items, m) => |items| < m
  }

  // A take that finds a token removes exactly one, and one that does not, none.
  lemma TakeIsExact(o: Object, who: Option<nat>, now: word)
    ensures Units(Take(o, who, now)) == if Units(o) > 0 then Units(o) - 1 else 0
    ensures Units(o) == 0 ==> Take(o, who, now) == o
  {
  }

  // An accepted give adds exactly one token, except that the notification count
  // wraps from 2^32 - 1 to none; a refused give adds none.
  lemma GiveIsExact(o: Object, item: seq<uint8>)
    ensures !Accepts(o) ==> Units(Give(o, item)) == Units(o)
    ensures Accepts(o) ==> (Units(Give(o, item)) == Units(o) + 1 <==> o != Notification(WORD - 1))
  {
  }

  // Tokens to be had and tokens taken are those there were and those given -- to
  // within the width of a notification count.
  ghost predicate Conserved(o: Object, initial: nat, gives: nat, takes: nat) {
    if o.Notification? then Wrap(Units(o) + takes) == Wrap(initial + gives)
    else Units(o) + takes == initial + gives
  }

  lemma GiveConserves(o: Object, item: seq<uint8>, initial: nat, gives: nat, takes: nat)
    requires Conserved(o, initial, gives, takes)
    ensures Conserved(Give(o, item), initial, if Accepts(o) then gives + 1 else gives, takes)
  {
    WrapSuccessor(Units(o) + takes, initial + gives);
    if o.Notification? && o.pending == WORD - 1 {
      WrapPeriod(takes, 1);
    }
  }

  lemma TakeConserves(o: Object, who: Option<nat>, now: word, initial: nat, gives: nat, takes: nat)
    requires Conserved(o, initial, gives, takes)
    ensures Conserved(Take(o, who, now), initial, gives, if Units(o) > 0 then takes + 1 else takes)
  {
  }

  lemma WrapSuccessor(a: int, b: int)
    requires Wrap(a) == Wrap(b)
    ensures Wrap(a + 1) == Wrap(b + 1)
  {
  }

  // First in, first out: what was pushed is what was popped and what is still held.
  ghost predicate InOrder(o: Object, pushed: seq<seq<uint8>>, popped: seq<seq<uint8>>) {
    o.Channel? ==> pushed == popped + o.items
  }

  function Pushed(o: Object, item: seq<uint8>): seq<seq<uint8>> {
    if o.Channel? && Accepts(o) then [item] else []
  }

  function Popped(o: Object): seq<seq<uint8>> {
    if o.Channel? && o.items != [] then [o.items[0]] else []
  }

  lemma StaysInOrder(o: Object, pushed: seq<seq<uint8>>, popped: seq<seq<uint8>>, item: seq<uint8>, who: Option<nat>,
                     now: word)
    requires InOrder(o, pushed, popped)
    ensures InOrder(Give(o, item), pushed + Pushed(o, item), popped)
    ensures InOrder(Take(o, who, now), pushed, popped + Popped(o))
  {
  }

  predicate SameKind(o: Object, p: Object) {
    match o
    case Sem(_, m) => p.Sem? && p.max == m
    case Semb(_) => p.Semb?
    case Mutex(_, _, _) => p.Mutex?
    case Notification(_) => p.Notification?
    case Channel(_, m) => p.Channel? && p.capacity == m
  }

  lemma KindKept(o: Object, item: seq<uint8>, who: Option<nat>, now: word)
    ensures SameKind(o, Give(o, item)) && SameKind(o, Take(o, who, now))
  {
  }

  // -- What a caller is told ---------------------------------------------------

  // A give left o as r, and said ok: only a full semaphore and a full queue refuse.
  predicate Gave(o: Object, item: seq<uint8>, r: Object, ok: bool) {
    match o
    case Sem(n, m) => (ok <==> n < m) && r == Sem(if ok then n + 1 else n, m)
    case Semb(_) => ok && r == Semb(true)
    case Mutex(_, _, _) => ok && r.Mutex? && !r.locked && r.owner == None
    case Notification(n) => ok && r == Notification(if n < WORD - 1 then n + 1 else 0)
    case Channel(items, m) => (ok <==> |items| < m) && r == Channel(if ok then items + [item] else items, m)
  }

  // A condition called for who left o as r, and said ok.
  predicate Took(o: Object, who: Option<nat>, now: word, r: Object, ok: bool) {
    match o
    case Sem(n, m) => (ok <==> n > 0) && r == Sem(if ok then n - 1 else n, m)
    case Semb(b) => (ok <==> b) && r == Semb(false)
    case Mutex(b, _, _) => (ok <==> !b) && r == if ok then Mutex(true, who, now) else o
    case Notification(n) => (ok <==> n > 0) && r == Notification(if ok then n - 1 else n)
    case Channel(items, m) => (ok <==> items != []) && r == Channel(if ok then items[1..] else items, m)
  }

  // -- Histories ---------------------------------------------------------------

  datatype Use = Given(item: seq<uint8>) | Taken(who: Option<nat>, at: word)

  function Used(o: Object, uses: seq<Use>): Object
    decreases |uses|
  {
    if uses == [] then o else
      var was := Used(o, uses[..|uses| - 1]);
      match uses[|uses| - 1]
      case Given(item) => Give(was, item)
      case Taken(who, at) => Take(was, who, at)
  }

  // Over any gives and takes a semaphore holds no more than its maximum, or than it
  // was created with, and refuses a give only then; created within its maximum, it
  // refuses one exactly when it holds that.
  lemma {:induction false} SemaphoreStaysWithin(initial: nat, max: nat, uses: seq<Use>)
    ensures var s := Used(Sem(initial, max), uses);
            && s.Sem? && s.max == max && (s.count <= max || s.count <= initial)
            && (Accepts(s) <==> s.count < max)
            && (initial <= max ==> s.count <= max && (!Accepts(s) <==> s.count == max))
    decreases |uses|
  {
    if uses != [] { SemaphoreStaysWithin(initial, max, uses[..|uses| - 1]); }
  }

  // A binary semaphore is signalled, and a mutex unlocked, exactly when the last
  // use of it was a give; a semaphore whose last use was a give is not empty,
  // unless its maximum is nothing.
  lemma {:induction false} TheLastUseShows(o: Object, uses: seq<Use>)
    requires uses != []
    ensures var r, given := Used(o, uses), uses[|uses| - 1].Given?;
            && (o.Semb? ==> r == Semb(given))
            && (o.Mutex? ==> r.Mutex? && r.locked == !given)
            && (o.Sem? && given && o.max > 0 ==> Units(r) > 0)
    decreases |uses|
  {
    var init := uses[..|uses| - 1];
    if init != [] { TheLastUseShows(o, init); }
    UsedKind(o, init);
  }

  lemma {:induction false} UsedKind(o: Object, uses: seq<Use>)
    ensures SameKind(o, Used(o, uses))
    decreases |uses|
  {
    if uses != [] { UsedKind(o, uses[..|uses| - 1]); }
  }

  // What a wait is for: a token; room in a queue, for an item; or a time.
  datatype Cond = Token | Room(item: seq<uint8>) | Deadline(at: word)

  // mm_halow_deadline_passed()
  predicate Passed(now: nat, at: word) {
    Signed(Wrap(Wrap(now) - at)) >= 0
  }

  predicate Ready(o: Object, c: Cond, now: nat) {
    match c
    case Token => Units(o) > 0
    case Room(_) => o.Channel? && Accepts(o)
    case Deadline(at) => Passed(now, at)
  }

  datatype Event = Ticks(ms: nat) | OtherGives(item: seq<uint8>) | OtherTakes(who: Option<nat>) | Teardown(on: bool)

  datatype Outcome = Returned(ok: bool) | StillParked

  // What those events make of the object, and how long they take.
  function ObjectAfter(o: Object, now: nat, events: seq<Event>): Object
    decreases |events|
  {
    if events == [] then o else
      var init := events[..|events| - 1];
      var was := ObjectAfter(o, now, init);
      match events[|events| - 1]
      case OtherGives(item) => Give(was, item)
      case OtherTakes(who) => Take(was, who, Wrap(now + Span(init)))
      case _ => was
  }

  function Span(events: seq<Event>): nat
    decreases |events|
  {
    if events == [] then 0 else
      var e := events[|events| - 1];
      Span(events[..|events| - 1]) + if e.Ticks? then e.ms else 0
  }

  predicate NoTeardown(env: seq<seq<Event>>) {
    forall i, j | 0 <= i < |env| && 0 <= j < |env[i]| :: env[i][j] != Teardown(true)
  }

  predicate Quiet(events: seq<Event>) {
    forall j | 0 <= j < |events| :: events[j] != Teardown(true)
  }

  lemma QuietEvents(env: seq<seq<Event>>, k: nat)
    requires k < |env|
    ensures NoTeardown(env) ==> Quiet(env[k])
  {
  }

  // Measured modulo 2^32 an interval never looks longer than it is.
  lemma ElapsedAtLeast(now: nat, began: nat)
    requires began <= now
    ensures Wrap(Wrap(now) - Wrap(began)) == Wrap(now - began) <= now - began
  {
    WrapDifference(now, began);
  }

  // The depth counter, a uint16_t, going up and down again.
  function Deeper(d: int): int { (d + 1) % 0x1_0000 }

  function Shallower(d: int): int { (d + 0xFFFF) % 0x1_0000 }

  lemma DepthRestored(d: int)
    requires 0 <= d < 0x1_0000
    ensures Shallower(Deeper(d)) == d && 0 <= Deeper(d) < 0x1_0000
  {
  }

  function Min(a: int, b: int): int {
    if a < b then a else b
  }

  class Kernel {
    var now: nat                  // the millisecond clock, unwrapped
    var teardown: bool            // mm_halow_sched_teardown
    var woken: bool               // mm_halow_sched_woken
    var obj: Object
    var me: Option<nat>           // the task calling, if it is one
    var received: seq<uint8>      // what the last pop copied out
    var waitDepth: int            // mm_halow_wait_depth, a uint16_t
    ghost var initial: nat        // tokens to begin with
    ghost var gives: nat          // gives that were accepted
    ghost var takes: nat          // takes that succeeded
    ghost var mine: nat           // takes, and pushes, of this caller that succeeded
    ghost var pushed: seq<seq<uint8>>  // items, if it is a queue, in all
    ghost var popped: seq<seq<uint8>>
    ghost var lastCall: bool      // what the last call of the condition returned

    ghost predicate Valid()
      reads this
    {
      0 <= waitDepth < 0x1_0000 && Conserved(obj, initial, gives, takes) && InOrder(obj, pushed, popped)
    }

    constructor (clock: nat, o: Object, me: Option<nat>)
      ensures Valid() && obj == o && now == clock && mine == 0 && gives == 0 && takes == 0 && popped == []
    {
      now, teardown, woken, obj, this.me, received, waitDepth := clock, false, false, o, me, [], 0;
      initial, gives, takes, mine, lastCall := Units(o), 0, 0, 0, false;
      pushed, popped := if o.Channel? then o.items else [], [];
    }

    // What a successful wait leaves: a mutex is the caller's, since now; an item
    // pushed is the last in; one popped is the last out; a time has come.
    ghost predicate Got(c: Cond)
      reads this`obj, this`me, this`now, this`popped, this`received
    {
      match c
      case Token =>
        && (obj.Mutex? ==> obj == Mutex(true, me, Wrap(now)))
        && (obj.Channel? ==> popped != [] && popped[|popped| - 1] == received)
      case Room(item) => obj.Channel? && obj.items != [] && obj.items[|obj.items| - 1] == item
      case Deadline(at) => Passed(now, at)
    }

    // -- Atomic operations -----------------------------------------------------

    // Returns what the caller is told: only a semaphore and a queue can refuse.
    method GiveOne(item: seq<uint8>) returns (ok: bool)
      requires Valid()
      modifies this`obj, this`woken, this`gives, this`pushed
      ensures Valid() && obj == Give(old(obj), item)
      ensures Gave(old(obj), item, obj, ok)
      ensures gives == if Accepts(old(obj)) then old(gives) + 1 else old(gives)
      ensures pushed == old(pushed) + Pushed(old(obj), item)
      ensures woken == (old(woken) || ok)
    {
      hide Conserved, InOrder;
      var accepted := Accepts(obj);
      GiveConserves(obj, item, initial, gives, takes);
      StaysInOrder(obj, pushed, popped, item, me, 0);
      if accepted { gives := gives + 1; }
      pushed := pushed + Pushed(obj, item);
      ok := accepted || !(obj.Sem? || obj.Channel?);
      obj := Give(obj, item);
      if ok {
        woken := true;
      }
    }

    method TakeOne(who: Option<nat>) returns (ok: bool)
      requires Valid()
      modifies this`obj, this`takes, this`popped
      ensures Valid() && obj == Take(old(obj), who, Wrap(now)) && ok == (Units(old(obj)) > 0)
      ensures Took(old(obj), who, Wrap(now), obj, ok)
      ensures popped == old(popped) + Popped(old(obj))
    {
      hide Conserved, InOrder;
      ok := Units(obj) > 0;
      TakeConserves(obj, who, Wrap(now), initial, gives, takes);
      StaysInOrder(obj, pushed, popped, [], who, Wrap(now));
      if ok { takes := takes + 1; }
      popped := popped + Popped(obj);
      obj := Take(obj, who, Wrap(now));
    }

    // cond(arg)
    method Call(c: Cond) returns (ok: bool)
      requires Valid()
      modifies this`obj, this`woken, this`gives, this`takes, this`pushed, this`popped,
        this`mine, this`received, this`lastCall
      ensures Valid() && lastCall == ok && ok == Ready(old(obj), c, now)
      ensures obj == if ok && c.Token? then Take(old(obj), me, Wrap(now))
                     else if ok && c.Room? then Give(old(obj), c.item) else old(obj)
      ensures mine == if ok && !c.Deadline? then old(mine) + 1 else old(mine)
      // A pop copies out the item pushed first of those held.
      ensures ok && c.Token? && old(obj).Channel? ==>
                received == old(obj).items[0] && popped == old(popped) + [received]
      ensures ok && c.Room? ==> pushed == old(pushed) + [c.item]
      ensures match c
              case Token => Took(old(obj), me, Wrap(now), obj, ok)
              case Room(item) =>
                if old(obj).Channel? then Gave(old(obj), item, obj, ok) else !ok && obj == old(obj)
              case Deadline(at) => (ok <==> Passed(now, at)) && obj == old(obj)
      ensures (ok ==> Got(c)) && SameKind(old(obj), obj)
    {
      hide Conserved, InOrder, Passed;
      ok := Ready(obj, c, now);
      lastCall := ok;
      KindKept(obj, if c.Room? then c.item else [], me, Wrap(now));
      match c
      case Token =>
        if obj.Channel? && ok { received := obj.items[0]; }
        TakeIsExact(obj, me, Wrap(now));
        var _ := TakeOne(me);
        if ok { mine := mine + 1; }
      case Room(item) =>
        if ok {
          var _ := GiveOne(item);
          mine := mine + 1;
        }
      case Deadline(_) =>
    }

    // All that happens elsewhere before the caller goes on: in mm_halow_sched_park()
    // until its next turn, or between two of its statements.
    method Elsewhere(events: seq<Event>)
      requires Valid()
      modifies this`now, this`teardown, this`woken, this`obj, this`gives, this`takes, this`pushed, this`popped
      ensures Valid() && now >= old(now)
      ensures Quiet(events) && !old(teardown) ==> !teardown
      ensures obj == ObjectAfter(old(obj), old(now), events) && now == old(now) + Span(events)
      ensures SameKind(old(obj), obj)
    {
      hide Give, Take, Conserved, InOrder, Wrap;
      for i := 0 to |events|
        invariant Valid() && now >= old(now)
        invariant Quiet(events) && !old(teardown) ==> !teardown
        invariant obj == ObjectAfter(old(obj), old(now), events[..i]) && now == old(now) + Span(events[..i])
        invariant SameKind(old(obj), obj)
      {
        assert events[..i + 1][..i] == events[..i];
        match events[i]
        case Ticks(ms) => now := now + ms;
        case OtherGives(item) =>
          KindKept(obj, item, me, Wrap(now));
          var _ := GiveOne(item);
        case OtherTakes(who) =>
          KindKept(obj, [], who, Wrap(now));
          var _ := TakeOne(who);
        case Teardown(on) => teardown := on;
      }
      assert events[..|events|] == events;
    }

    // Time is up: ask again, in case it came while that was found out.
    method LastChance(c: Cond, late: seq<Event>) returns (ok: bool)
      requires Valid()
      modifies this
      ensures Valid() && waitDepth == old(waitDepth) && me == old(me)
      ensures lastCall == ok && now >= old(now) && (Quiet(late) && !old(teardown) ==> !teardown)
      ensures mine == if ok && !c.Deadline? then old(mine) + 1 else old(mine)
      ensures (if ok then Got(c) else !Ready(obj, c, now)) && SameKind(old(obj), obj)
    {
      hide Conserved, InOrder, Passed, Take, Give, Units, Quiet, ObjectAfter, Span;
      Elsewhere(late);
      ok := Call(c);
    }

    // -- The wait loop ---------------------------------------------------------

    // env: what happens elsewhere during each turn the caller gives up; late: what
    // happens while it finds that its time is up.
    method Wait(c: Cond, timeout: word, env: seq<seq<Event>>, late: seq<Event>) returns (r: Outcome, ghost began: nat)
      requires Valid()
      modifies this
      ensures Valid()
      // True exactly when its last call of the condition succeeded, and then, and
      // only then, one token has been taken or one item pushed.
      ensures r.Returned? ==> r.ok == lastCall && waitDepth == old(waitDepth)
      ensures mine == if !c.Deadline? && r == Returned(true) then old(mine) + 1 else old(mine)
      ensures r == Returned(true) ==> woken && Got(c)
      // A finite wait gives up no earlier than its capped timeout.
      ensures r == Returned(false) && timeout != FOREVER ==> now - old(now) >= Min(timeout, CAP)
      // One that waits forever gives up only in teardown, and not before the cap.
      ensures timeout == FOREVER && !old(teardown) && NoTeardown(env) ==> r != Returned(false)
      // And then there is nothing to be had, even if it came at the last moment.
      ensures r == Returned(false) ==> !Ready(obj, c, now)
      ensures r == Returned(false) && timeout == FOREVER ==> old(now) <= began && now - began >= CAP
      // It stays parked only while there is nothing to take and time in hand.
      ensures r.StillParked? ==> !Ready(obj, c, now)
      ensures old(now) <= now && me == old(me) && SameKind(old(obj), obj)
      ensures !old(teardown) && NoTeardown(env) && Quiet(late) ==> !teardown
      ensures r.StillParked? && timeout != FOREVER ==> Wrap(now - old(now)) < Min(timeout, CAP)
      // A zero timeout asks once, and does not park.
      ensures timeout == 0 ==> r.Returned? && now == old(now)
    {
      hide Conserved, InOrder, Ready, Passed, Wrap, Signed, Take, Give, Units, Got, Deeper, Shallower;
      hide NoTeardown, Quiet;
      DepthRestored(waitDepth);
      var forever := timeout == FOREVER;
      var t := timeout;
      if t > CAP && (!forever || teardown) {
        t := CAP;
      }
      var counted := me.None?;
      if counted {
        waitDepth := Deeper(waitDepth);
      }
      r, began := Loop(c, t, forever, env, late);
      if r.StillParked? {
        return;
      }
      if counted {
        waitDepth := Shallower(waitDepth);
      }
      if r.ok {
        woken := true;
      }
    }

    // Its loop, for a timeout of t; began is when the interval measured began.
    method Loop(c: Cond, timeout: word, forever: bool, env: seq<seq<Event>>, late: seq<Event>)
      returns (r: Outcome, ghost began: nat)
      requires Valid() && (forever ==> timeout == FOREVER || timeout == CAP)
      modifies this
      ensures Valid() && old(now) <= now
      ensures r.Returned? ==> r.ok == lastCall
      ensures mine == if !c.Deadline? && r == Returned(true) then old(mine) + 1 else old(mine)
      ensures if r == Returned(true) then Got(c) else !Ready(obj, c, now)
      ensures waitDepth == old(waitDepth) && me == old(me) && SameKind(old(obj), obj)
      ensures !forever && r == Returned(false) ==> now - old(now) >= timeout
      ensures !forever && r.StillParked? ==> Wrap(now - old(now)) < timeout
      ensures forever && r == Returned(false) ==> old(now) <= began && now - began >= CAP
      ensures forever && timeout != 0 && !old(teardown) && NoTeardown(env) ==> r != Returned(false)
      ensures !old(teardown) && NoTeardown(env) && Quiet(late) ==> !teardown
      ensures timeout == 0 ==> r.Returned? && now == old(now)
    {
      hide Conserved, InOrder, Ready, Passed, Wrap, Signed, Take, Give, Units, Got;
      hide NoTeardown, Quiet, ObjectAfter, Span;
      var start, t, endless := Wrap(now), timeout, forever;
      began := now;
      var k: nat := 0;
      while true
        invariant Valid() && k <= |env| && old(now) <= began <= now && start == Wrap(began) && mine == old(mine)
        invariant !old(teardown) && NoTeardown(env) ==> !teardown && endless == forever
        invariant endless ==> forever && t == timeout
        invariant !forever ==> t == timeout && began == old(now)
        invariant forever && !endless ==> t == CAP
        invariant timeout == 0 ==> now == old(now) && t == 0
        invariant SameKind(old(obj), obj) && waitDepth == old(waitDepth) && me == old(me)
        decreases |env| - k
      {
        var satisfied := Call(c);
        if satisfied || t == 0 {
          return Returned(satisfied), began;
        }
        if endless {
          if !teardown {
            if k == |env| {
              return StillParked, began;
            }
            QuietEvents(env, k);
            Elsewhere(env[k]);
            k := k + 1;
            continue;
          }
          t, start, endless := CAP, Wrap(now), false;
          began := now;
        }
        ElapsedAtLeast(now, began);
        if Wrap(Wrap(now) - start) >= t {
          satisfied := LastChance(c, late);
          return Returned(satisfied), began;
        }
        if k == |env| {
          return StillParked, began;
        }
        QuietEvents(env, k);
        Elsewhere(env[k]);
        k := k + 1;
      }
    }

    // -- Callers ---------------------------------------------------------------

    // mmosal_mutex_get(): to lock forever is to wait nine seconds, complain, and
    // then wait forever.
    method MutexGet(timeout: word, env: seq<seq<Event>>, more: seq<seq<Event>>, late: seq<Event>) returns (r: Outcome)
      requires Valid() && obj.Mutex?
      modifies this
      ensures Valid()
      ensures mine == if r == Returned(true) then old(mine) + 1 else old(mine)
      ensures timeout == FOREVER && !old(teardown) && NoTeardown(env) && NoTeardown(more) && Quiet(late) ==>
                r != Returned(false)
      // It is this caller's, since now, or somebody's.
      ensures r == Returned(true) ==> obj == Mutex(true, me, Wrap(now))
      ensures r != Returned(true) ==> Units(obj) == 0
      ensures r == Returned(false) && timeout != FOREVER ==> now - old(now) >= Min(timeout, CAP)
    {
      hide Conserved, InOrder, NoTeardown;
      ghost var began;
      if timeout == FOREVER {
        r, began := Wait(Token, 9000, env, late);
        if r != Returned(false) {
          return;
        }
      }
      r, began := Wait(Token, timeout, more, late);
    }

    // mmosal_queue_pop()
    method QueuePop(timeout: word, env: seq<seq<Event>>, late: seq<Event>) returns (r: Outcome, item: seq<uint8>)
      requires Valid() && obj.Channel?
      modifies this
      ensures Valid() && obj.Channel?
      // Items come out in the order they went in, and this is the last to have come.
      ensures pushed == popped + obj.items
      ensures if r == Returned(true) then popped != [] && item == popped[|popped| - 1] else obj.items == []
      ensures r == Returned(false) && timeout != FOREVER ==> now - old(now) >= Min(timeout, CAP)
    {
      hide Conserved;
      ghost var began;
      r, began := Wait(Token, timeout, env, late);
      item := received;
    }

    // mmosal_queue_push()
    method QueuePush(item: seq<uint8>, timeout: word, env: seq<seq<Event>>, late: seq<Event>) returns (r: Outcome)
      requires Valid() && obj.Channel?
      modifies this
      ensures Valid() && obj.Channel? && obj.capacity == old(obj.capacity)
      ensures pushed == popped + obj.items
      ensures if r == Returned(true) then pushed != [] && pushed[|pushed| - 1] == item else |obj.items| >= obj.capacity
      ensures r == Returned(false) && timeout != FOREVER ==> now - old(now) >= Min(timeout, CAP)
    {
      hide Conserved;
      ghost var began;
      r, began := Wait(Room(item), timeout, env, late);
    }

    // mmosal_task_sleep(); gap is what happens between its two reads of the clock.
    method Sleep(duration: word, gap: seq<Event>, env: seq<seq<Event>>, late: seq<Event>) returns (r: Outcome,
                 ghost second: nat)
      requires Valid()
      modifies this
      ensures Valid() && mine == old(mine)
      // No shorter than asked for, up to the cap and to half the clock's range.
      ensures r.Returned? && duration <= HALF ==> now - old(now) >= Min(duration, CAP)
      // And no longer, from the second read, than the capped wait.
      ensures r.StillParked? ==> 0 < duration && old(now) <= second <= now && !Passed(now, Wrap(old(now) + duration))
      ensures r.StillParked? && duration != FOREVER ==> Wrap(now - second) < Min(duration, CAP)
    {
      hide Conserved, Wrap, Signed, Quiet, NoTeardown, Passed;
      second := now;
      if duration == 0 {
        Elsewhere(gap);          // a yield
        return Returned(true), second;
      }
      var at := Wrap(now + duration);
      ghost var first := now;
      Elsewhere(gap);
      second := now;
      ghost var began;
      r, began := SleepUntil(first, at, duration, env, late);
    }

    method SleepUntil(ghost first: nat, at: word, duration: word, env: seq<seq<Event>>, late: seq<Event>)
      returns (r: Outcome, ghost began: nat)
      requires Valid() && first <= now && 0 < duration && at == Wrap(first + duration)
      modifies this
      ensures Valid() && mine == old(mine)
      ensures r.Returned? && duration <= HALF ==> now - first >= Min(duration, CAP)
      ensures r.StillParked? ==> !Passed(now, at)
      ensures r.StillParked? && duration != FOREVER ==> Wrap(now - old(now)) < Min(duration, CAP)
      ensures old(now) <= now
    {
      r, began := Wait(Deadline(at), duration, env, late);
      DeadlineIsExact(now, first, duration);
    }
  }

  // Whether the sleeper's deadline has passed, as its condition sees it.
  lemma DeadlineIsExact(now: nat, first: nat, duration: word)
    requires first <= now
    ensures now < first + duration <= first + HALF ==> !Passed(now, Wrap(first + duration))
  {
    SignedDifference(now, first + duration);
  }

  // A sleep of more than half the clock's range is over before it begins.
  lemma SleepIsOverAtOnce(now: nat, duration: word)
    ensures Passed(now, Wrap(now + duration)) <==> duration == 0 || duration > HALF
  {
    WrapDifference(now, now + duration);
  }
}

// The mutex, which does not check who releases it.
module Mutexes {
  datatype Op = Lock(t: nat) | Unlock(t: nat)

  // holders: the tasks whose lock succeeded and who have not released it since.
  datatype State = State(locked: bool, holders: set<nat>)

  function Apply(s: State, op: Op): State {
    match op
    case Lock(t) => if s.locked then s else State(true, s.holders + {t})
    case Unlock(t) => State(false, s.holders - {t})
  }

  function Run(s: State, ops: seq<Op>): State
    decreases |ops|
  {
    if ops == [] then s else Run(Apply(s, ops[0]), ops[1..])
  }

  // Every release is by a task that holds the mutex.
  ghost predicate Disciplined(s: State, ops: seq<Op>)
    decreases |ops|
  {
    ops == [] || ((ops[0].Unlock? ==> ops[0].t in s.holders) && Disciplined(Apply(s, ops[0]), ops[1..]))
  }

  ghost predicate Exclusive(s: State) {
    (s.locked <==> s.holders != {}) && forall t, u | t in s.holders && u in s.holders :: t == u
  }

  lemma {:induction false} DisciplineKeepsOneHolder(s: State, ops: seq<Op>)
    requires Exclusive(s) && Disciplined(s, ops)
    ensures Exclusive(Run(s, ops))
    decreases |ops|
  {
    if ops != [] {
      DisciplineKeepsOneHolder(Apply(s, ops[0]), ops[1..]);
    }
  }

  ghost predicate ExclusiveThroughout(s: State, ops: seq<Op>) {
    forall k | 0 <= k <= |ops| :: Exclusive(Run(s, ops[..k]))
  }

  // Every release is by the only holder, if there is one.
  ghost predicate OnlyByHolders(s: State, ops: seq<Op>)
    decreases |ops|
  {
    ops == [] || ((ops[0].Unlock? ==> s.holders <= {ops[0].t}) && OnlyByHolders(Apply(s, ops[0]), ops[1..]))
  }

  lemma OneOp(s: State, op: Op)
    requires Exclusive(s)
    ensures Exclusive(Apply(s, op)) <==> (op.Unlock? ==> s.holders <= {op.t})
  {
    if op.Unlock? {
      assert Apply(s, op).holders == {} <==> s.holders <= {op.t};
    }
  }

  // From a state in which it holds, exclusion holds all along exactly when nobody
  // releases the mutex while somebody else holds it; releasing it free is harmless.
  lemma {:induction false} ExclusionIsUpToReleases(s: State, ops: seq<Op>)
    requires Exclusive(s)
    ensures ExclusiveThroughout(s, ops) <==> OnlyByHolders(s, ops)
    decreases |ops|
  {
    hide Exclusive, Apply;
    if ops == [] {
      assert forall k | 0 <= k <= |ops| :: ops[..k] == [];
    } else {
      var op, rest := ops[0], ops[1..];
      var t := Apply(s, op);
      forall k | 0 <= k <= |rest| ensures Run(s, ops[..k + 1]) == Run(t, rest[..k]) {
        assert ops[..k + 1][0] == op && ops[..k + 1][1..] == rest[..k];
      }
      assert Run(t, rest[..0]) == t && Run(s, ops[..0]) == s;
      OneOp(s, op);
      if Exclusive(t) {
        ExclusionIsUpToReleases(t, rest);
        forall k | 0 <= k <= |ops| && ExclusiveThroughout(t, rest) ensures Exclusive(Run(s, ops[..k])) {
          if k > 0 { assert Exclusive(Run(t, rest[..k - 1])); }
        }
        forall k | 0 <= k <= |rest| && ExclusiveThroughout(s, ops) ensures Exclusive(Run(t, rest[..k])) {
          assert Exclusive(Run(s, ops[..k + 1]));
        }
      } else {
        assert !Exclusive(Run(s, ops[..1]));
      }
    }
  }

  // One release of a held mutex by another task: it reads free, and is held.
  lemma ForeignReleaseBreaksExclusion(s: State, t: nat)
    requires Exclusive(s) && s.locked && t !in s.holders
    ensures !Exclusive(Apply(s, Unlock(t)))
  {
    OneOp(s, Unlock(t));
  }
}
