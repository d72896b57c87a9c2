/** Stop-the-world memory growth: any number of threads share one mutex (held shared while they
    run), one stop flag and one condition variable. A step system over all interleavings. */
module GrowthProtocol {
  import opened Wasm

  /** Where a thread is, in the order of the source.
      `Outside`: not inside `Run`. `Running`: executing, the mutex held shared. `Syncing`: in `TrySync`,
      the flag was read as set. `Blocked`: in `cond.wait`. `Woken`: woken, about to take the mutex
      again. Then `GrowMemory`: `Flagging` has given the mutex back, `Flagged` has set the flag and
      waits for the mutex, `Holding` has it exclusively, `Growing` has cleared the flag and is inside
      `growMemory`, `Releasing` has left it, `Notifying` has released the mutex, `Relocking` has called
      `notify_all` and wants the mutex shared again. */
  datatype Pc = Outside | Running | Syncing | Blocked | Woken
    | Flagging | Flagged | Holding | Growing | Releasing | Notifying | Relocking

  datatype World = World(flag: bool, shared: set<nat>, owner: Option<nat>, pcs: seq<Pc>)

  datatype Action = Enter | Leave | LoadFlag | Wait | Wake | Relock
    | GiveBack | SetFlag | LockExclusive | ClearFlag | Grow | Unlock | NotifyAll

  predicate At(w: World, t: nat, pc: Pc) {
    t < |w.pcs| && w.pcs[t] == pc
  }

  function Move(w: World, t: nat, pc: Pc): World
    requires t < |w.pcs|
  {
    w.(pcs := w.pcs[t := pc])
  }

  /** `notify_all` wakes every waiter. */
  function WakeAll(pcs: seq<Pc>): (r: seq<Pc>)
    ensures |r| == |pcs|
  {
    seq(|pcs|, k requires 0 <= k < |pcs| => if pcs[k] == Blocked then Woken else pcs[k])
  }

  /** May thread `t` do `a` now? The mutex is granted shared while nobody owns it, and exclusively
      while moreover nobody shares it. */
  predicate Enabled(w: World, t: nat, a: Action) {
    t < |w.pcs| &&
    match a
    case Enter => w.pcs[t] == Outside && w.owner.None?
    case Leave => w.pcs[t] == Running
    case LoadFlag => w.pcs[t] == Running
    case Wait => w.pcs[t] == Syncing
    case Wake => w.pcs[t] == Blocked  // spurious
    case Relock => (w.pcs[t] == Woken || w.pcs[t] == Relocking) && w.owner.None?
    case GiveBack => w.pcs[t] == Running
    case SetFlag => w.pcs[t] == Flagging
    case LockExclusive => w.pcs[t] == Flagged && w.owner.None? && w.shared == {}
    case ClearFlag => w.pcs[t] == Holding
    case Grow => w.pcs[t] == Growing
    case Unlock => w.pcs[t] == Releasing
    case NotifyAll => w.pcs[t] == Notifying
  }

  function Do(w: World, t: nat, a: Action): World
    requires Enabled(w, t, a)
  {
    match a
    case Enter => Move(w, t, Running).(shared := w.shared + {t})
    case Leave => Move(w, t, Outside).(shared := w.shared - {t})
    case LoadFlag => if w.flag then Move(w, t, Syncing) else w
    case Wait => Move(w, t, Blocked).(shared := w.shared - {t})
    case Wake => Move(w, t, Woken)
    case Relock => Move(w, t, Running).(shared := w.shared + {t})
    case GiveBack => Move(w, t, Flagging).(shared := w.shared - {t})
    case SetFlag => Move(w, t, Flagged).(flag := true)
    case LockExclusive => Move(w, t, Holding).(owner := Some(t))
    case ClearFlag => Move(w, t, Growing).(flag := false)
    case Grow => Move(w, t, Releasing)
    case Unlock => Move(w, t, Notifying).(owner := None)
    case NotifyAll => Move(w, t, Relocking).(pcs := WakeAll(w.pcs[t := Relocking]))
  }

  predicate Start(w: World) {
    !w.flag && w.shared == {} && w.owner.None? && forall t :: 0 <= t < |w.pcs| ==> w.pcs[t] == Outside
  }

  datatype Event = Event(thread: nat, action: Action)

  /** The world after a schedule, if every event of it was possible in its turn. */
  function After(w: World, events: seq<Event>): Option<World>
    decreases |events|
  {
    if events == [] then Some(w)
    else if !Enabled(w, events[0].thread, events[0].action) then None
    else After(Do(w, events[0].thread, events[0].action), events[1..])
  }

  /* ---- the invariant ---- */

  predicate Shares(pc: Pc) {
    pc == Running || pc == Syncing
  }

  predicate Owns(pc: Pc) {
    pc == Holding || pc == Growing || pc == Releasing
  }

  /** Has set the flag and not yet cleared it. */
  predicate SetIt(pc: Pc) {
    pc == Flagged || pc == Holding
  }

  /** On its way to `notify_all`, having set the flag. */
  predicate Owes(pc: Pc) {
    pc == Flagged || Owns(pc) || pc == Notifying
  }

  predicate SharedAgrees(w: World) {
    && (forall t :: t in w.shared ==> t < |w.pcs|)
    && (forall t :: 0 <= t < |w.pcs| ==> (t in w.shared <==> Shares(w.pcs[t])))
  }

  predicate OwnerAgrees(w: World) {
    && (forall t :: 0 <= t < |w.pcs| ==> (w.owner == Some(t) <==> Owns(w.pcs[t])))
    && (w.owner.Some? ==> w.owner.value < |w.pcs| && w.shared == {})
  }

  predicate LocksAgree(w: World) {
    SharedAgrees(w) && OwnerAgrees(w)
  }

  predicate FlagOwned(w: World) {
    w.flag ==> exists g :: 0 <= g < |w.pcs| && SetIt(w.pcs[g])
  }

  /** A thread that saw the flag and still holds the mutex keeps a grower waiting for it. */
  predicate SeenIsPending(w: World) {
    (exists t :: 0 <= t < |w.pcs| && w.pcs[t] == Syncing) ==> exists g :: 0 <= g < |w.pcs| && w.pcs[g] == Flagged
  }

  predicate WaitersOwed(w: World) {
    (exists t :: 0 <= t < |w.pcs| && w.pcs[t] == Blocked) ==> exists g :: 0 <= g < |w.pcs| && Owes(w.pcs[g])
  }

  predicate Inv(w: World) {
    LocksAgree(w) && FlagOwned(w) && SeenIsPending(w) && WaitersOwed(w)
  }

  lemma SharedStays(w: World, t: nat, a: Action)
    requires SharedAgrees(w) && Enabled(w, t, a)
    ensures SharedAgrees(Do(w, t, a))
  {
  }

  lemma OwnerStays(w: World, t: nat, a: Action)
    requires LocksAgree(w) && Enabled(w, t, a)
    ensures OwnerAgrees(Do(w, t, a))
  {
  }

  lemma FlagStays(w: World, t: nat, a: Action)
    requires Inv(w) && Enabled(w, t, a)
    ensures FlagOwned(Do(w, t, a))
  {
    var v := Do(w, t, a);
    if v.flag {
      if a.SetFlag? { assert SetIt(v.pcs[t]); }
      else {
        var g :| 0 <= g < |w.pcs| && SetIt(w.pcs[g]);
        assert SetIt(v.pcs[g]);
      }
    }
  }

  lemma PendingStays(w: World, t: nat, a: Action)
    requires Inv(w) && Enabled(w, t, a)
    ensures SeenIsPending(Do(w, t, a))
  {
    var v := Do(w, t, a);
    if s :| 0 <= s < |v.pcs| && v.pcs[s] == Syncing {
      if w.pcs[s] == Syncing {
        var g :| 0 <= g < |w.pcs| && w.pcs[g] == Flagged;
        assert v.pcs[g] == Flagged;
      } else {
        var g :| 0 <= g < |w.pcs| && SetIt(w.pcs[g]);
        assert w.pcs[g] == Flagged by { assert s in w.shared; }
        assert v.pcs[g] == Flagged;
      }
    }
  }

  lemma OwedStays(w: World, t: nat, a: Action)
    requires Inv(w) && Enabled(w, t, a)
    ensures WaitersOwed(Do(w, t, a))
  {
    var v := Do(w, t, a);
    if s :| 0 <= s < |v.pcs| && v.pcs[s] == Blocked {
      if a.Wait? && s == t {
        var g :| 0 <= g < |w.pcs| && w.pcs[g] == Flagged;
        assert Owes(v.pcs[g]);
      } else {
        var g :| 0 <= g < |w.pcs| && Owes(w.pcs[g]);
        assert Owes(v.pcs[g]);
      }
    }
  }

  lemma SameThreads(w: World, t: nat, a: Action)
    requires Enabled(w, t, a)
    ensures |Do(w, t, a).pcs| == |w.pcs|
  {
  }

  lemma InvStays(w: World, t: nat, a: Action)
    requires Inv(w) && Enabled(w, t, a)
    ensures Inv(Do(w, t, a)) && |Do(w, t, a).pcs| == |w.pcs|
  {
    SameThreads(w, t, a);
    hide Enabled, Do, SharedAgrees, OwnerAgrees, FlagOwned, SeenIsPending, WaitersOwed;
    SharedStays(w, t, a);
    OwnerStays(w, t, a);
    FlagStays(w, t, a);
    PendingStays(w, t, a);
    OwedStays(w, t, a);
  }

  lemma {:induction false} InvAlways(w: World, events: seq<Event>)
    requires Inv(w) && After(w, events).Some?
    ensures Inv(After(w, events).value) && |After(w, events).value.pcs| == |w.pcs|
    decreases |events|
  {
    hide Inv, Enabled, Do;
    if events != [] {
      InvStays(w, events[0].thread, events[0].action);
      InvAlways(Do(w, events[0].thread, events[0].action), events[1..]);
    }
  }

  /** In every reachable world: while one thread is inside `growMemory` no other holds the mutex, shared
      or not; while the flag is set some grower has set it and not cleared it; and every thread in
      `cond.wait` is owed a `notify_all` by a grower that has not reached it, so no wake-up is lost. */
  lemma Safety(start: World, events: seq<Event>)
    requires Start(start) && After(start, events).Some?
    ensures
      var w := After(start, events).value;
      && (forall g, t :: 0 <= g < |w.pcs| && 0 <= t < |w.pcs| && t != g && w.pcs[g] == Growing ==>
            t !in w.shared && !Shares(w.pcs[t]) && w.owner == Some(g) && !Owns(w.pcs[t]))
      && (w.flag ==> exists g :: 0 <= g < |w.pcs| && SetIt(w.pcs[g]))
      && (forall t :: 0 <= t < |w.pcs| && w.pcs[t] == Blocked ==> exists g :: 0 <= g < |w.pcs| && Owes(w.pcs[g]))
  {
    InvAlways(start, events);
  }

  /* ---- nobody waits for ever: a schedule that wakes ---- */

  /** How far a grower is from having notified. */
  function Distance(pc: Pc): nat {
    match pc
    case Flagged => 5
    case Holding => 4
    case Growing => 3
    case Releasing => 2
    case Notifying => 1
    case _ => 0
  }

  function Forward(pc: Pc): Action {
    match pc
    case Flagged => LockExclusive
    case Holding => ClearFlag
    case Growing => Grow
    case Releasing => Unlock
    case _ => NotifyAll
  }

  lemma OneEvent(w: World, e: Event, rest: seq<Event>)
    requires Enabled(w, e.thread, e.action)
    ensures After(w, [e] + rest) == After(Do(w, e.thread, e.action), rest)
  {
    assert ([e] + rest)[1..] == rest;
  }

  predicate Orderly(events: seq<Event>) {
    forall k :: 0 <= k < |events| ==> !events[k].action.Wake? && !events[k].action.Enter?
  }

  /** `events` lead from `w` to a world where `t` runs, with no spurious wake-up and no new entry. */
  predicate LeadsToRunning(w: World, t: nat, events: seq<Event>) {
    After(w, events).Some? && At(After(w, events).value, t, Running) && Orderly(events)
  }

  lemma Prepended(w: World, t: nat, e: Event, rest: seq<Event>)
    requires Enabled(w, e.thread, e.action) && !e.action.Wake? && !e.action.Enter?
    requires LeadsToRunning(Do(w, e.thread, e.action), t, rest)
    ensures LeadsToRunning(w, t, [e] + rest)
  {
    hide Enabled, Do;
    OneEvent(w, e, rest);
  }

  /** No wake-up is lost: from any world in which `t` waits, the grower that owes it a `notify_all`
      can get there and `t` then runs again, without a spurious wake-up and without new entries. */
  lemma {:induction false} Awakes(w: World, t: nat, g: nat) returns (events: seq<Event>)
    requires Inv(w) && At(w, t, Blocked) && g < |w.pcs| && Owes(w.pcs[g])
    ensures LeadsToRunning(w, t, events)
    decreases |w.shared|, Distance(w.pcs[g])
  {
    hide LeadsToRunning, FlagOwned, SeenIsPending, WaitersOwed;
    if w.pcs[g] == Flagged && w.owner.Some? {
      events := Awakes(w, t, w.owner.value);
    } else if w.pcs[g] == Flagged && w.shared != {} {
      var j, e := Drains(w);
      hide Inv, Enabled, Do;
      events := Awakes(Do(w, j, e.action), t, g);
      Prepended(w, t, e, events);
      events := [e] + events;
    } else {
      var e := Event(g, Forward(w.pcs[g]));
      Advances(w, t, g);
      hide Inv, Enabled, Do;
      if w.pcs[g] == Notifying {
        events := Returns(Do(w, g, e.action), t);
      } else {
        events := Awakes(Do(w, g, e.action), t, g);
      }
      Prepended(w, t, e, events);
      events := [e] + events;
    }
  }

  /** One thread fewer holds the mutex shared; waiters and growers stay where they are. */
  lemma Drains(w: World) returns (j: nat, e: Event)
    requires Inv(w) && w.shared != {}
    ensures e.thread == j && Enabled(w, j, e.action) && !e.action.Wake? && !e.action.Enter?
    ensures var v := Do(w, j, e.action);
      && Inv(v) && |v.shared| < |w.shared| && |v.pcs| == |w.pcs|
      && forall k :: 0 <= k < |w.pcs| && !Shares(w.pcs[k]) ==> v.pcs[k] == w.pcs[k]
  {
    j :| j in w.shared;
    e := Event(j, if w.pcs[j] == Running then Leave else Wait);
    InvStays(w, j, e.action);
    var v := Do(w, j, e.action);
    assert v.shared == w.shared - {j} && |v.shared| < |w.shared|;
  }

  /** The grower takes its next step. */
  lemma Advances(w: World, t: nat, g: nat)
    requires Inv(w) && At(w, t, Blocked) && g < |w.pcs| && Owes(w.pcs[g])
    requires w.pcs[g] == Flagged ==> w.owner.None? && w.shared == {}
    ensures var a := Forward(w.pcs[g]); Enabled(w, g, a) && !a.Wake? && !a.Enter?
    ensures
      var v := Do(w, g, Forward(w.pcs[g]));
      && Inv(v) && v.shared == w.shared && |v.pcs| == |w.pcs|
      && (if w.pcs[g] == Notifying then At(v, t, Woken)
          else At(v, t, Blocked) && Owes(v.pcs[g]) && Distance(v.pcs[g]) < Distance(w.pcs[g]))
  {
    InvStays(w, g, Forward(w.pcs[g]));
  }

  /** A woken thread gets the mutex back once whoever owns it has released it. */
  lemma {:induction false} Returns(w: World, t: nat) returns (events: seq<Event>)
    requires Inv(w) && At(w, t, Woken)
    ensures LeadsToRunning(w, t, events)
    decreases if w.owner.Some? && w.owner.value < |w.pcs| then Distance(w.pcs[w.owner.value]) else 0
  {
    if w.owner.None? {
      assert LeadsToRunning(Do(w, t, Relock), t, []);
      Prepended(w, t, Event(t, Relock), []);
      events := [Event(t, Relock)] + [];
    } else {
      var o := w.owner.value;
      var e := Event(o, Forward(w.pcs[o]));
      InvStays(w, o, e.action);
      events := Returns(Do(w, o, e.action), t);
      Prepended(w, t, e, events);
      events := [e] + events;
    }
  }

  /** In every reachable world every waiting thread can be woken. */
  lemma NoWakeUpLost(start: World, events: seq<Event>, t: nat) returns (more: seq<Event>)
    requires Start(start) && After(start, events).Some? && At(After(start, events).value, t, Blocked)
    ensures LeadsToRunning(After(start, events).value, t, more)
  {
    InvAlways(start, events);
    var w := After(start, events).value;
    var g :| 0 <= g < |w.pcs| && Owes(w.pcs[g]);
    more := Awakes(w, t, g);
  }

  /* ---- the flag stops everybody ---- */

  /** A thread that polls the flag while it is set can do nothing but wait; one that polls it while it
      is clear goes on as before. */
  lemma PollingStops(w: World, t: nat, a: Action)
    requires At(w, t, Running)
    ensures
      var v := Do(w, t, LoadFlag);
      && (w.flag ==> (Enabled(v, t, a) <==> a == Wait) && !At(v, t, Running))
      && (!w.flag ==> v == w)
  {
  }

  /** Whatever the others do, it has not moved until it does wait; and once it waits, only a
      `notify_all` or a spurious wake-up moves it. */
  lemma {:induction false} Stopped(w: World, t: nat, events: seq<Event>)
    requires After(w, events).Some?
    ensures At(w, t, Syncing) && (forall k :: 0 <= k < |events| ==> events[k] != Event(t, Wait)) ==>
      At(After(w, events).value, t, Syncing)
    ensures At(w, t, Blocked) && (forall k :: 0 <= k < |events| ==> events[k] != Event(t, Wake) && events[k].action != NotifyAll) ==>
      At(After(w, events).value, t, Blocked)
    decreases |events|
  {
    if events != [] {
      var v := Do(w, events[0].thread, events[0].action);
      SameThreads(w, events[0].thread, events[0].action);
      Stopped(v, t, events[1..]);
      assert forall k :: 0 <= k < |events[1..]| ==> events[1..][k] == events[k + 1];
    }
  }

  /** A waiting thread may wake without a `notify_all`, and is then let back in as soon as nobody owns the
      mutex: the original does not look at the flag again before it goes on. */
  lemma WakesAnyTime(w: World, t: nat)
    requires At(w, t, Blocked) && w.owner.None?
    ensures Enabled(w, t, Wake) && Enabled(Do(w, t, Wake), t, Relock)
    ensures At(Do(Do(w, t, Wake), t, Relock), t, Running)
  {
  }

  /** Only polling reads the flag: anything else a thread may do, it may do whether the flag is set or
      not, and to the same effect. So threads enter, leave and start to grow past a set flag. */
  lemma OnlyPollingReads(w: World, t: nat, a: Action, flag: bool)
    requires a != LoadFlag
    ensures Enabled(w, t, a) <==> Enabled(w.(flag := flag), t, a)
    ensures Enabled(w, t, a) ==> Do(w.(flag := flag), t, a).(flag := flag) == Do(w, t, a).(flag := flag)
    ensures Enabled(w, t, a) && a != SetFlag && a != ClearFlag ==> Do(w, t, a).flag == w.flag
  {
  }

  /** Some thread is between taking the mutex exclusively and releasing it. */
  predicate Owned(w: World) {
    exists g :: 0 <= g < |w.pcs| && w.pcs[g] in {Holding, Growing, Releasing}
  }

  lemma WhoHolds(w: World)
    requires LocksAgree(w)
    ensures w.owner.Some? <==> Owned(w)
    ensures w.shared == {} <==> forall g :: 0 <= g < |w.pcs| ==> w.pcs[g] !in {Running, Syncing}
  {
    if w.owner.Some? { assert w.pcs[w.owner.value] in {Holding, Growing, Releasing}; }
    if j :| j in w.shared { assert Shares(w.pcs[j]); }
  }

  /** When the mutex is granted in a reachable world, in terms of where the threads stand: shared unless
      some thread owns it, exclusively unless moreover some thread runs or is about to wait. */
  lemma MutexGranted(start: World, events: seq<Event>, t: nat)
    requires Start(start) && After(start, events).Some? && t < |start.pcs|
    ensures
      var w := After(start, events).value;
      && |w.pcs| == |start.pcs|
      && (w.pcs[t] == Outside ==> (Enabled(w, t, Enter) <==> !Owned(w)))
      && (w.pcs[t] == Woken || w.pcs[t] == Relocking ==> (Enabled(w, t, Relock) <==> !Owned(w)))
      && (w.pcs[t] == Flagged ==>
           (Enabled(w, t, LockExclusive) <==> !Owned(w) && forall g :: 0 <= g < |w.pcs| ==> w.pcs[g] !in {Running, Syncing}))
  {
    hide After, Owned;
    InvAlways(start, events);
    WhoHolds(After(start, events).value);
  }

  /** Threads that hold the mutex poll the flag and wait, an owner finishes, and `g` takes the mutex;
      nobody enters, leaves, wakes, or gives the mutex back to grow. */
  predicate Halting(g: nat, e: Event) {
    e.action == LoadFlag || e.action == Wait || e.action == ClearFlag || e.action == Grow || e.action == Unlock || e == Event(g, LockExclusive)
  }

  predicate LeadsToHolding(w: World, g: nat, events: seq<Event>) {
    && After(w, events).Some? && At(After(w, events).value, g, Holding)
    && forall k :: 0 <= k < |events| ==> Halting(g, events[k])
  }

  lemma HaltingFirst(w: World, g: nat, e: Event, rest: seq<Event>)
    requires Enabled(w, e.thread, e.action) && Halting(g, e) && LeadsToHolding(Do(w, e.thread, e.action), g, rest)
    ensures LeadsToHolding(w, g, [e] + rest)
  {
    hide Enabled, Do, Halting;
    OneEvent(w, e, rest);
  }

  /** One thread that holds the mutex shared sees the flag and waits. */
  lemma OneWaits(w: World, g: nat, j: nat) returns (events: seq<Event>, v: World)
    requires Inv(w) && At(w, g, Flagged) && w.flag && w.owner.None? && j in w.shared
    ensures After(w, events) == Some(v) && Inv(v) && At(v, g, Flagged) && v.flag && v.owner.None? && v.shared == w.shared - {j}
    ensures forall k :: 0 <= k < |events| ==> events[k].thread == j && (events[k].action == LoadFlag || events[k].action == Wait)
  {
    assert Shares(w.pcs[j]);
    if w.pcs[j] == Running {
      var x := Do(w, j, LoadFlag);
      InvStays(w, j, LoadFlag);
      InvStays(x, j, Wait);
      v := Do(x, j, Wait);
      events := [Event(j, LoadFlag)] + ([Event(j, Wait)] + []);
      OneEvent(x, Event(j, Wait), []);
      OneEvent(w, Event(j, LoadFlag), [Event(j, Wait)] + []);
    } else {
      InvStays(w, j, Wait);
      v := Do(w, j, Wait);
      events := [Event(j, Wait)] + [];
      OneEvent(w, Event(j, Wait), []);
    }
  }

  lemma {:induction false} AfterBoth(w: World, xs: seq<Event>, ys: seq<Event>)
    requires After(w, xs).Some?
    ensures After(w, xs + ys) == After(After(w, xs).value, ys)
    decreases |xs|
  {
    hide Enabled, Do;
    if xs == [] {
      assert xs + ys == ys;
    } else {
      assert (xs + ys)[1..] == xs[1..] + ys;
      AfterBoth(Do(w, xs[0].thread, xs[0].action), xs[1..], ys);
    }
  }

  lemma {:induction false} AllWait(w: World, g: nat) returns (events: seq<Event>)
    requires Inv(w) && At(w, g, Flagged) && w.flag && w.owner.None?
    ensures LeadsToHolding(w, g, events)
    decreases |w.shared|
  {
    if w.shared == {} {
      var e := Event(g, LockExclusive);
      assert LeadsToHolding(Do(w, g, LockExclusive), g, []);
      HaltingFirst(w, g, e, []);
      events := [e] + [];
    } else {
      var j :| j in w.shared;
      var first, v := OneWaits(w, g, j);
      hide Inv, Enabled, Do;
      var rest := AllWait(v, g);
      AfterBoth(w, first, rest);
      events := first + rest;
    }
  }

  /** An owner finishes; meanwhile nobody holds the mutex shared. */
  lemma {:induction false} OwnerFinishes(w: World, g: nat) returns (events: seq<Event>)
    requires Inv(w) && At(w, g, Flagged) && (w.owner.Some? || w.shared == {})
    ensures LeadsToHolding(w, g, events)
    decreases if w.owner.Some? && w.owner.value < |w.pcs| then Distance(w.pcs[w.owner.value]) else 0
  {
    if w.owner.None? {
      var e := Event(g, LockExclusive);
      assert LeadsToHolding(Do(w, g, LockExclusive), g, []);
      HaltingFirst(w, g, e, []);
      events := [e] + [];
    } else {
      var o := w.owner.value;
      var e := Event(o, Forward(w.pcs[o]));
      InvStays(w, o, e.action);
      events := OwnerFinishes(Do(w, o, e.action), g);
      HaltingFirst(w, g, e, events);
      events := [e] + events;
    }
  }

  /** The stop flag stops: from every reachable world in which it is set and `g` waits for the mutex, `g`
      can get it without any thread entering, leaving, waking or growing on its own account; the
      threads that run do nothing but poll the flag and wait. */
  lemma FlagStopsAll(start: World, events: seq<Event>, g: nat) returns (more: seq<Event>)
    requires Start(start) && After(start, events).Some?
    requires After(start, events).value.flag && At(After(start, events).value, g, Flagged)
    ensures LeadsToHolding(After(start, events).value, g, more)
  {
    InvAlways(start, events);
    var w := After(start, events).value;
    if w.owner.Some? { more := OwnerFinishes(w, g); } else { more := AllWait(w, g); }
  }

  /* ---- the flag itself ---- */

  predicate OneGrower(w: World) {
    forall g, h :: 0 <= g < |w.pcs| && 0 <= h < |w.pcs| && SetIt(w.pcs[g]) && SetIt(w.pcs[h]) ==> g == h
  }

  /** Never two growers between setting the flag and clearing it. */
  predicate OneAtATime(w: World, events: seq<Event>)
    decreases |events|
  {
    OneGrower(w) &&
    (events != [] && Enabled(w, events[0].thread, events[0].action) ==>
       OneAtATime(Do(w, events[0].thread, events[0].action), events[1..]))
  }

  predicate FlagExact(w: World) {
    w.flag <==> exists g :: 0 <= g < |w.pcs| && SetIt(w.pcs[g])
  }

  /** Thread `t` is about to clear a flag that another grower has set as well. */
  predicate Loses(w: World, t: nat, a: Action) {
    a.ClearFlag? && exists g :: 0 <= g < |w.pcs| && g != t && SetIt(w.pcs[g])
  }

  /** The one step that makes the flag wrong: clearing it while another grower still counts on it. */
  lemma FlagExactStep(w: World, t: nat, a: Action)
    requires FlagExact(w) && Enabled(w, t, a)
    ensures FlagExact(Do(w, t, a)) <==> !Loses(w, t, a)
  {
    var v := Do(w, t, a);
    if a.SetFlag? {
      assert SetIt(v.pcs[t]);
    } else if a.ClearFlag? {
      assert forall g :: 0 <= g < |v.pcs| && g != t ==> v.pcs[g] == w.pcs[g];
    } else {
      assert forall g :: 0 <= g < |w.pcs| ==> SetIt(v.pcs[g]) == SetIt(w.pcs[g]);
    }
  }

  /** The flag is exact in every world of a schedule, the first and the last included. */
  predicate AlwaysExact(w: World, events: seq<Event>)
    decreases |events|
  {
    FlagExact(w) &&
    (events != [] && Enabled(w, events[0].thread, events[0].action) ==>
       AlwaysExact(Do(w, events[0].thread, events[0].action), events[1..]))
  }

  /** Some event of the schedule clears the flag while another grower counts on it. */
  predicate SomeLoss(w: World, events: seq<Event>)
    decreases |events|
  {
    && events != [] && Enabled(w, events[0].thread, events[0].action)
    && (Loses(w, events[0].thread, events[0].action) ||
        SomeLoss(Do(w, events[0].thread, events[0].action), events[1..]))
  }

  /** In every world of a schedule the flag says exactly that a growth is being waited for, if and only
      if nobody ever clears it while another grower counts on it. */
  lemma {:induction false} FlagExactIff(w: World, events: seq<Event>)
    requires FlagExact(w)
    ensures AlwaysExact(w, events) <==> !SomeLoss(w, events)
    decreases |events|
  {
    hide FlagExact, Loses, Do, Enabled;
    if events != [] {
      var t, a := events[0].thread, events[0].action;
      if Enabled(w, t, a) {
        FlagExactStep(w, t, a);
        if FlagExact(Do(w, t, a)) { FlagExactIff(Do(w, t, a), events[1..]); }
        else { NotExact(Do(w, t, a), events[1..]); }
      }
    }
  }

  lemma NotExact(w: World, events: seq<Event>)
    requires !FlagExact(w)
    ensures !AlwaysExact(w, events)
  {
  }

  /** In particular from the start: no flag, no grower. */
  lemma FlagFromStart(start: World, events: seq<Event>)
    requires Start(start)
    ensures AlwaysExact(start, events) <==> !SomeLoss(start, events)
  {
    FlagExactIff(start, events);
  }

  /** With one grower at a time nothing is lost. */
  lemma {:induction false} FlagIsExact(w: World, events: seq<Event>)
    requires FlagExact(w) && OneAtATime(w, events)
    ensures AlwaysExact(w, events)
    ensures After(w, events).Some? ==> FlagExact(After(w, events).value)
    decreases |events|
  {
    if events != [] && Enabled(w, events[0].thread, events[0].action) {
      FlagExactStep(w, events[0].thread, events[0].action);
      FlagIsExact(Do(w, events[0].thread, events[0].action), events[1..]);
    }
  }

  /** With two, the first to finish clears the flag of the second: a grower waits for the mutex and
      no running thread is told to stop. */
  lemma FlagCanBeLost(start: World) returns (events: seq<Event>)
    requires Start(start) && |start.pcs| >= 2
    ensures After(start, events).Some?
    ensures var w := After(start, events).value; !w.flag && At(w, 0, Growing) && At(w, 1, Flagged)
  {
    hide After;
    var w0, w1 := Two(start, false, {}, None, Outside, Outside), Two(start, false, {0}, None, Running, Outside);
    var w2, w3 := Two(start, false, {0, 1}, None, Running, Running), Two(start, false, {1}, None, Flagging, Running);
    var w4, w5 := Two(start, false, {}, None, Flagging, Flagging), Two(start, true, {}, None, Flagged, Flagging);
    var w6, w7 := Two(start, true, {}, None, Flagged, Flagged), Two(start, true, {}, Some(0), Holding, Flagged);
    var w8 := Two(start, false, {}, Some(0), Growing, Flagged);
    assert start == w0;
    Entering(start);
    Growers(start);
    NoEvents(w8);
    hide Do, Enabled;
    OneEvent(w7, Event(0, ClearFlag), []);
    OneEvent(w6, Event(0, LockExclusive), [Event(0, ClearFlag)] + []);
    events := [Event(0, LockExclusive)] + ([Event(0, ClearFlag)] + []);
    OneEvent(w5, Event(1, SetFlag), events);
    events := [Event(1, SetFlag)] + events;
    OneEvent(w4, Event(0, SetFlag), events);
    events := [Event(0, SetFlag)] + events;
    OneEvent(w3, Event(1, GiveBack), events);
    events := [Event(1, GiveBack)] + events;
    OneEvent(w2, Event(0, GiveBack), events);
    events := [Event(0, GiveBack)] + events;
    OneEvent(w1, Event(1, Enter), events);
    events := [Event(1, Enter)] + events;
    OneEvent(w0, Event(0, Enter), events);
    events := [Event(0, Enter)] + events;
  }

  /** The worlds of two threads. */
  function Two(start: World, flag: bool, shared: set<nat>, owner: Option<nat>, pc0: Pc, pc1: Pc): World
    requires |start.pcs| >= 2
  {
    World(flag, shared, owner, start.pcs[0 := pc0][1 := pc1])
  }

  predicate Goes(w: World, t: nat, a: Action, v: World) {
    Enabled(w, t, a) && Do(w, t, a) == v
  }

  lemma Entering(start: World)
    requires |start.pcs| >= 2
    ensures Goes(Two(start, false, {}, None, Outside, Outside), 0, Enter, Two(start, false, {0}, None, Running, Outside))
    ensures Goes(Two(start, false, {0}, None, Running, Outside), 1, Enter, Two(start, false, {0, 1}, None, Running, Running))
    ensures Goes(Two(start, false, {0, 1}, None, Running, Running), 0, GiveBack, Two(start, false, {1}, None, Flagging, Running))
    ensures Goes(Two(start, false, {1}, None, Flagging, Running), 1, GiveBack, Two(start, false, {}, None, Flagging, Flagging))
  {
    assert {0, 1} - {0} == {1} && {0} + {1} == {0, 1};
  }

  lemma Growers(start: World)
    requires |start.pcs| >= 2
    ensures Goes(Two(start, false, {}, None, Flagging, Flagging), 0, SetFlag, Two(start, true, {}, None, Flagged, Flagging))
    ensures Goes(Two(start, true, {}, None, Flagged, Flagging), 1, SetFlag, Two(start, true, {}, None, Flagged, Flagged))
    ensures Goes(Two(start, true, {}, None, Flagged, Flagged), 0, LockExclusive, Two(start, true, {}, Some(0), Holding, Flagged))
    ensures Goes(Two(start, true, {}, Some(0), Holding, Flagged), 0, ClearFlag, Two(start, false, {}, Some(0), Growing, Flagged))
  {
  }

  lemma NoEvents(w: World)
    ensures After(w, []) == Some(w)
  {
  }
}
