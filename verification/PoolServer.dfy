/** The prethreaded server: the main thread accepts connections and puts them in a ring, and a pool of threads takes
    them out, all under one mutex and one condition variable. */
module PoolServer {
  import opened Ring

  const MAXNCLI: nat := 32

  datatype Owner = Nobody | Main | Worker(i: nat)

  /** Where the main thread is: in accept; with a connection, about to lock; holding the mutex before the put, between
      the put and the signal, and before the unlock; or gone, because the ring was full. */
  datatype MainPc = Accepting | MainLocking(fd: int) | Putting(fd: int) | Signalling | MainUnlocking | Quit

  /** Where a thread of the pool is. `at` is which connection it has, counting from 0 in the order they were
      accepted. */
  datatype Pc =
    | Locking
    | Testing
    | Asleep
    | Woken(signalled: bool)
    | Taking
    | Took(fd: int, at: nat)
    | Counting(fd: int, at: nat)
    | Serving(fd: int, at: nat)

  datatype Event =
    | Accept(fd: int)
    | MainLock
    | Put
    | Signal(to: nat)
    | MainUnlock
    | Lock(i: nat)
    | Test(i: nat)
    | Take(i: nat)
    | Unlock(i: nat)
    | CountOne(i: nat)
    | Close(i: nat)
    | WakeSpuriously(i: nat)

  /** `accepted` are the connections put in the ring so far, `takers` the threads that took them, in order. */
  datatype State = State(
    clifd: seq<int>, iget: nat, iput: nat, mutex: Owner, main: MainPc, threads: seq<Pc>, counts: seq<nat>,
    accepted: seq<int>, takers: seq<nat>)

  function Start(nthreads: nat, clifd: seq<int>): State
  {
    State(clifd, 0, 0, Nobody, Accepting, seq(nthreads, _ => Locking), seq(nthreads, _ => 0), [], [])
  }

  predicate IsAsleep(pc: Pc) { pc == Asleep }

  predicate IsSignalled(pc: Pc) { pc == Woken(true) }

  function Count(threads: seq<Pc>, p: Pc -> bool): nat
  {
    if threads == [] then 0
    else Count(threads[..|threads| - 1], p) + if p(threads[|threads| - 1]) then 1 else 0
  }

  predicate Enabled(s: State, e: Event)
  {
    s.main != Quit &&
    match e
    case Accept(_) => s.main == Accepting
    case MainLock => s.main.MainLocking? && s.mutex == Nobody
    case Put => s.main.Putting? && |s.clifd| == MAXNCLI && s.iput < MAXNCLI
    // a signal wakes one of the threads that sleep, if any does
    case Signal(to) =>
      s.main == Signalling && (Count(s.threads, IsAsleep) > 0 ==> to < |s.threads| && s.threads[to] == Asleep)
    case MainUnlock => s.main == MainUnlocking
    case Lock(i) => i < |s.threads| && (s.threads[i] == Locking || s.threads[i].Woken?) && s.mutex == Nobody
    case Test(i) => i < |s.threads| && s.threads[i] == Testing
    case Take(i) => i < |s.threads| && s.threads[i] == Taking && |s.clifd| == MAXNCLI && s.iget < MAXNCLI
    case Unlock(i) => i < |s.threads| && s.threads[i].Took?
    case CountOne(i) => i < |s.threads| == |s.counts| && s.threads[i].Counting?
    case Close(i) => i < |s.threads| && s.threads[i].Serving?
    case WakeSpuriously(i) => i < |s.threads| && s.threads[i] == Asleep
  }

  predicate OfMain(e: Event) { e.Accept? || e.MainLock? || e.Put? || e.Signal? || e.MainUnlock? }

  function Next(s: State, e: Event): State
    requires Enabled(s, e)
  {
    match e
    case Accept(fd) => s.(main := MainLocking(fd))
    case MainLock => s.(main := Putting(s.main.fd), mutex := Main)
    case Put =>
      var iput := Advance(s.iput, MAXNCLI);
      s.(clifd := s.clifd[s.iput := s.main.fd], iput := iput, accepted := s.accepted + [s.main.fd],
         main := if iput == s.iget then Quit else Signalling)
    case Signal(to) =>
      s.(main := MainUnlocking,
         threads := if Count(s.threads, IsAsleep) > 0 then s.threads[to := Woken(true)] else s.threads)
    case MainUnlock => s.(main := Accepting, mutex := Nobody)
    case Lock(i) => s.(threads := s.threads[i := Testing], mutex := Worker(i))
    case Test(i) =>
      if s.iget == s.iput then s.(threads := s.threads[i := Asleep], mutex := Nobody)
      else s.(threads := s.threads[i := Taking])
    case Take(i) =>
      s.(threads := s.threads[i := Took(s.clifd[s.iget], |s.takers|)], iget := Advance(s.iget, MAXNCLI),
         takers := s.takers + [i])
    case Unlock(i) =>
      s.(threads := s.threads[i := Counting(s.threads[i].fd, s.threads[i].at)], mutex := Nobody)
    case CountOne(i) =>
      s.(threads := s.threads[i := Serving(s.threads[i].fd, s.threads[i].at)], counts := s.counts[i := s.counts[i] + 1])
    case Close(i) => s.(threads := s.threads[i := Locking])
    case WakeSpuriously(i) => s.(threads := s.threads[i := Woken(false)])
  }

  /** All the states of a run, from the start of the program on. */
  ghost predicate IsRun(states: seq<State>, events: seq<Event>)
  {
    && |states| == |events| + 1 && |states[0].clifd| == MAXNCLI
    && states[0] == Start(|states[0].threads|, states[0].clifd)
    && forall k :: 0 <= k < |events| ==> Enabled(states[k], events[k]) && states[k + 1] == Next(states[k], events[k])
  }

  // ----- the invariant

  /** The ring holds exactly the connections accepted and not yet taken, in the order they were accepted. */
  ghost predicate RingHolds(s: State)
  {
    && |s.clifd| == MAXNCLI && s.iget < MAXNCLI && s.iput < MAXNCLI
    && |s.takers| <= |s.accepted| <= |s.takers| + MAXNCLI
    && (|s.accepted| == |s.takers| + MAXNCLI <==> s.main == Quit)
    && s.iput == Place(s.iget, |s.accepted| - |s.takers|, MAXNCLI)
    && forall j :: |s.takers| <= j < |s.accepted| ==> s.clifd[Place(s.iget, j - |s.takers|, MAXNCLI)] == s.accepted[j]
  }

  predicate MainInside(pc: MainPc) { pc.Putting? || pc == Signalling || pc == MainUnlocking || pc == Quit }

  predicate Inside(pc: Pc) { pc == Testing || pc == Taking || pc.Took? }

  /** Whoever is between a lock and an unlock has the mutex. */
  ghost predicate Exclusive(s: State)
  {
    && (MainInside(s.main) <==> s.mutex == Main)
    && (s.mutex.Worker? ==> s.mutex.i < |s.threads|)
    && forall i :: 0 <= i < |s.threads| ==> (Inside(s.threads[i]) <==> s.mutex == Worker(i))
  }

  predicate Has(pc: Pc) { pc.Took? || pc.Counting? || pc.Serving? }

  /** A thread has the connection that it took. */
  ghost predicate Given(s: State)
  {
    && |s.takers| <= |s.accepted|
    && forall i :: 0 <= i < |s.threads| && Has(s.threads[i]) ==>
         var pc := s.threads[i]; pc.at < |s.takers| && s.takers[pc.at] == i && s.accepted[pc.at] == pc.fd
  }

  /** A thread that saw the ring not empty still finds it so. */
  ghost predicate TakingFinds(s: State)
  {
    forall i :: 0 <= i < |s.threads| && s.threads[i] == Taking ==> |s.accepted| > |s.takers|
  }

  /** Whether the mutex is held by someone who is about to take a connection, or to signal for one. */
  predicate Attending(s: State)
  {
    s.main == Signalling || (s.mutex.Worker? && s.mutex.i < |s.threads| && !s.threads[s.mutex.i].Took?)
  }

  /** While a thread sleeps, every connection that waits has someone on the way to it. */
  ghost predicate NoneForgotten(s: State)
  {
    Count(s.threads, IsAsleep) > 0 && s.main != Quit ==>
      |s.accepted| - |s.takers| <= Count(s.threads, IsSignalled) + if Attending(s) then 1 else 0
  }

  function TakenBy(takers: seq<nat>, i: nat): nat
  {
    if takers == [] then 0
    else TakenBy(takers[..|takers| - 1], i) + if takers[|takers| - 1] == i then 1 else 0
  }

  /** The count of a thread is that of the connections it took, but for one it has only just taken. */
  ghost predicate Counted(s: State)
  {
    && |s.counts| == |s.threads|
    && forall i :: 0 <= i < |s.threads| ==>
         s.counts[i] + (if s.threads[i].Took? || s.threads[i].Counting? then 1 else 0) == TakenBy(s.takers, i)
  }

  ghost predicate Inv(s: State)
  {
    RingHolds(s) && Exclusive(s) && Given(s) && TakingFinds(s) && NoneForgotten(s) && Counted(s)
  }

  // ----- every step keeps it

  lemma {:induction false} CountUpdate(threads: seq<Pc>, i: nat, pc: Pc, p: Pc -> bool)
    requires i < |threads|
    ensures Count(threads[i := pc], p) + (if p(threads[i]) then 1 else 0) == Count(threads, p) + if p(pc) then 1 else 0
  {
    var n := |threads| - 1;
    if i < n {
      CountUpdate(threads[..n], i, pc, p);
      assert threads[i := pc][..n] == threads[..n][i := pc];
    } else {
      assert threads[i := pc][..n] == threads[..n];
    }
  }

  lemma {:induction false} CountNone(threads: seq<Pc>, p: Pc -> bool)
    ensures Count(threads, p) == 0 <==> forall i :: 0 <= i < |threads| ==> !p(threads[i])
  {
    if threads != [] {
      CountNone(threads[..|threads| - 1], p);
      assert threads == threads[..|threads| - 1] + [threads[|threads| - 1]];
    }
  }

  lemma RingKept(s: State, e: Event)
    requires RingHolds(s) && Enabled(s, e) && TakingFinds(s)
    ensures RingHolds(Next(s, e))
  {
    hide Count;
    match e
    case Put =>
      PutKept(s);
    case Take(i) =>
      assert s.clifd[Place(s.iget, 0, MAXNCLI)] == s.accepted[|s.takers|];
    case _ =>
  }

  lemma PutKept(s: State)
    requires RingHolds(s) && Enabled(s, Put)
    ensures RingHolds(Next(s, Put))
    // the program gives up exactly when 31 connections wait already
    ensures Next(s, Put).main == Quit <==> |s.accepted| - |s.takers| == 31
  {
    var q := |s.accepted| - |s.takers|;
    assert Advance(Place(s.iget, q, MAXNCLI), MAXNCLI) == Place(s.iget, q + 1, MAXNCLI);
    assert Place(s.iget, q + 1, MAXNCLI) == s.iget <==> q == MAXNCLI - 1;
  }

  lemma ExclusiveKept(s: State, e: Event)
    requires Exclusive(s) && Enabled(s, e)
    ensures Exclusive(Next(s, e))
  {
    hide Count;
  }

  lemma GivenKept(s: State, e: Event)
    requires Given(s) && Enabled(s, e) && RingHolds(s) && TakingFinds(s)
    ensures Given(Next(s, e))
  {
    if e.Take? {
      assert s.clifd[Place(s.iget, 0, MAXNCLI)] == s.accepted[|s.takers|];
    }
    hide Count, RingHolds;
  }

  lemma TakingKept(s: State, e: Event)
    requires TakingFinds(s) && Enabled(s, e) && RingHolds(s) && Exclusive(s)
    ensures TakingFinds(Next(s, e))
  {
    hide Count;
  }

  /** The program's test for an empty ring is exact as long as it runs. */
  lemma EmptyTest(s: State)
    requires RingHolds(s) && s.main != Quit
    ensures s.iget == s.iput <==> |s.accepted| == |s.takers|
  {
  }

  lemma ForgottenByMain(s: State, e: Event)
    requires Inv(s) && Enabled(s, e) && OfMain(e)
    ensures NoneForgotten(Next(s, e))
  {
    hide RingHolds, Given, Counted, TakingFinds, Count, Place;
    if e.Signal? && Count(s.threads, IsAsleep) > 0 {
      CountUpdate(s.threads, e.to, Woken(true), IsAsleep);
      CountUpdate(s.threads, e.to, Woken(true), IsSignalled);
    }
  }

  lemma ForgottenByTest(s: State, e: Event)
    requires Inv(s) && Enabled(s, e) && e.Test?
    ensures NoneForgotten(Next(s, e))
  {
    EmptyTest(s);
    hide RingHolds, Given, Counted, TakingFinds, Count, Place;
    CountUpdate(s.threads, e.i, Next(s, e).threads[e.i], IsAsleep);
    CountUpdate(s.threads, e.i, Next(s, e).threads[e.i], IsSignalled);
  }

  lemma ForgottenByThread(s: State, e: Event)
    requires NoneForgotten(s) && Exclusive(s) && Enabled(s, e) && !OfMain(e) && !e.Test?
    ensures NoneForgotten(Next(s, e))
  {
    hide Count, Place;
    CountUpdate(s.threads, e.i, Next(s, e).threads[e.i], IsAsleep);
    CountUpdate(s.threads, e.i, Next(s, e).threads[e.i], IsSignalled);
  }

  lemma CountedKept(s: State, e: Event)
    requires Counted(s) && Enabled(s, e)
    ensures Counted(Next(s, e))
  {
    if e.Take? {
      forall j | 0 <= j < |s.threads|
        ensures TakenBy(s.takers + [e.i], j) == TakenBy(s.takers, j) + if j == e.i then 1 else 0
      {
        assert (s.takers + [e.i])[..|s.takers|] == s.takers;
      }
    }
    hide Count, TakenBy;
  }

  lemma StepKeeps(s: State, e: Event)
    requires Inv(s) && Enabled(s, e)
    ensures Inv(Next(s, e))
  {
    RingKept(s, e);
    ExclusiveKept(s, e);
    GivenKept(s, e);
    TakingKept(s, e);
    if OfMain(e) {
      ForgottenByMain(s, e);
    } else if e.Test? {
      ForgottenByTest(s, e);
    } else {
      ForgottenByThread(s, e);
    }
    CountedKept(s, e);
    hide Counted, RingHolds, Exclusive, Given, TakingFinds, NoneForgotten;
  }

  lemma AllLocking(n: nat)
    ensures Count(seq(n, _ => Locking), IsAsleep) == 0
  {
    CountNone(seq(n, _ => Locking), IsAsleep);
  }

  lemma StartHolds(nthreads: nat, clifd: seq<int>)
    requires |clifd| == MAXNCLI
    ensures Inv(Start(nthreads, clifd))
  {
    AllLocking(nthreads);
  }

  lemma {:induction false} RunKeeps(states: seq<State>, events: seq<Event>, k: nat)
    requires IsRun(states, events) && k < |states|
    ensures Inv(states[k])
  {
    if k > 0 {
      RunKeeps(states, events, k - 1);
      StepKeeps(states[k - 1], events[k - 1]);
      hide Inv, Next, Enabled;
    } else {
      StartHolds(|states[0].threads|, states[0].clifd);
    }
  }

  // ----- what it means

  /** No wakeup is lost: when the mutex is free and a thread sleeps, every connection that waits has a thread of its
      own that was signalled and has still to get the mutex. */
  lemma NoLostWakeup(s: State, i: nat)
    requires Inv(s) && s.mutex == Nobody && i < |s.threads| && s.threads[i] == Asleep
    ensures |s.accepted| - |s.takers| <= Count(s.threads, IsSignalled)
  {
    CountNone(s.threads, IsAsleep);
  }

  /** So the pool never sleeps on a connection: while one waits, the main thread is at work or some thread is awake. */
  lemma NeverAllAsleep(s: State)
    requires Inv(s) && |s.threads| > 0 && |s.accepted| > |s.takers|
    ensures s.mutex == Main || exists i :: 0 <= i < |s.threads| && s.threads[i] != Asleep
  {
    if s.mutex == Nobody && s.threads[0] == Asleep {
      NoLostWakeup(s, 0);
      CountNone(s.threads, IsSignalled);
    }
  }

  /** The descriptors that accept gave, in order. */
  function Descriptors(events: seq<Event>): seq<int>
  {
    if events == [] then []
    else
      var e := events[|events| - 1];
      Descriptors(events[..|events| - 1]) + if e.Accept? then [e.fd] else []
  }

  /** The threads that took a connection out of the ring, in order. */
  function Takes(events: seq<Event>): seq<nat>
  {
    if events == [] then []
    else
      var e := events[|events| - 1];
      Takes(events[..|events| - 1]) + if e.Take? then [e.i] else []
  }

  /** The descriptor that the main thread has accepted and not put in the ring yet. */
  function InHand(pc: MainPc): seq<int>
  {
    if pc.MainLocking? || pc.Putting? then [pc.fd] else []
  }

  lemma InHandKept(s: State, e: Event)
    requires Enabled(s, e)
    ensures var t := Next(s, e);
            t.accepted + InHand(t.main) == s.accepted + InHand(s.main) + if e.Accept? then [e.fd] else []
    ensures Next(s, e).takers == s.takers + if e.Take? then [e.i] else []
  {
    hide Count, Advance;
  }

  lemma LastEvent(events: seq<Event>, n: nat)
    requires 0 < n <= |events|
    ensures var e := events[n - 1];
            && Descriptors(events[..n]) == Descriptors(events[..n - 1]) + (if e.Accept? then [e.fd] else [])
            && Takes(events[..n]) == Takes(events[..n - 1]) + if e.Take? then [e.i] else []
  {
    assert events[..n][..n - 1] == events[..n - 1];
  }

  /** In every run, what has gone into the ring, and then what the main thread still has in hand, are the descriptors
      that accept gave, in order; and they are taken out by the threads in the order on record. */
  lemma {:induction false} AcceptedInOrder(states: seq<State>, events: seq<Event>, n: nat)
    requires IsRun(states, events) && n < |states|
    ensures states[n].accepted + InHand(states[n].main) == Descriptors(events[..n])
    ensures states[n].takers == Takes(events[..n])
  {
    if n == 0 {
      assert events[..0] == [];
    } else {
      AcceptedInOrder(states, events, n - 1);
      InHandKept(states[n - 1], events[n - 1]);
      LastEvent(events, n);
      hide Next, Enabled, Descriptors, Takes, InHand;
    }
  }

  /** So a thread that has the `k`-th connection is the one that took the `k`-th out of the ring, and its descriptor is
      the one that accept gave for the `k`-th time. */
  lemma ServesTheAccepted(states: seq<State>, events: seq<Event>, n: nat, i: nat)
    requires IsRun(states, events) && n < |states| && i < |states[n].threads| && Has(states[n].threads[i])
    ensures var pc := states[n].threads[i];
            && pc.at < |Takes(events[..n])| && Takes(events[..n])[pc.at] == i
            && pc.at < |Descriptors(events[..n])| && Descriptors(events[..n])[pc.at] == pc.fd
  {
    RunKeeps(states, events, n);
    AcceptedInOrder(states, events, n);
    assert Given(states[n]);
    hide IsRun, Inv, Descriptors, Takes;
  }

  /** Every connection goes to one thread: the one whose turn it was to take it. */
  lemma NoSharing(s: State, i: nat, j: nat)
    requires Inv(s) && i < j < |s.threads| && Has(s.threads[i]) && Has(s.threads[j])
    ensures s.threads[i].at != s.threads[j].at
    ensures s.threads[i].at < |s.accepted| && s.threads[i].fd == s.accepted[s.threads[i].at]
  {
  }

  /** What a step adds to the accepted connections and to their takers it adds at the end, and a connection is taken
      only when all before it are. */
  lemma StepGrows(s: State, e: Event)
    requires Enabled(s, e)
    ensures s.accepted <= Next(s, e).accepted && s.takers <= Next(s, e).takers
  {
    hide Count;
  }

  lemma {:induction false} RunGrows(states: seq<State>, events: seq<Event>, m: nat, n: nat)
    requires IsRun(states, events) && m <= n < |states|
    ensures states[m].accepted <= states[n].accepted && states[m].takers <= states[n].takers
    decreases n
  {
    if m < n {
      RunGrows(states, events, m, n - 1);
      StepGrows(states[n - 1], events[n - 1]);
      hide Next, Enabled;
    }
  }

  /** In every run, the connection accepted `k`-th, once taken, stays with its taker for ever, and the
      thread that has it is that taker. */
  lemma TakenForGood(states: seq<State>, events: seq<Event>, m: nat, n: nat, k: nat)
    requires IsRun(states, events) && m <= n < |states| && k < |states[m].takers|
    ensures k < |states[n].takers| && states[n].takers[k] == states[m].takers[k]
    ensures k < |states[m].accepted| && k < |states[n].accepted| && states[n].accepted[k] == states[m].accepted[k]
    ensures forall i :: 0 <= i < |states[n].threads| && Has(states[n].threads[i]) && states[n].threads[i].at == k ==>
              i == states[m].takers[k] && states[n].threads[i].fd == states[m].accepted[k]
  {
    RunKeeps(states, events, m);
    RunKeeps(states, events, n);
    RunGrows(states, events, m, n);
    assert Given(states[m]) && Given(states[n]);
    hide IsRun, Inv, Next, Enabled;
  }

  // ----- the pool comes to rest

  /** How many steps a thread has still to take for what it has, or to find the ring empty and sleep. */
  function StepsOf(pc: Pc): nat
  {
    match pc
    case Locking => 2
    case Woken(_) => 2
    case Testing => 1
    case Asleep => 0
    case Taking => 0
    case Took(_, _) => 5
    case Counting(_, _) => 4
    case Serving(_, _) => 3
  }

  function StepsOfMain(pc: MainPc): nat
  {
    match pc
    case MainLocking(_) => 12
    case Putting(_) => 11
    case Signalling => 4
    case MainUnlocking => 1
    case _ => 0
  }

  function StepsOfAll(threads: seq<Pc>): nat
  {
    if threads == [] then 0 else StepsOfAll(threads[..|threads| - 1]) + StepsOf(threads[|threads| - 1])
  }

  /** A bound on the steps that are left, with six for every connection that waits. */
  function Work(s: State): nat
    requires |s.takers| <= |s.accepted|
  {
    6 * (|s.accepted| - |s.takers|) + StepsOfMain(s.main) + StepsOfAll(s.threads)
  }

  lemma {:induction false} StepsUpdate(threads: seq<Pc>, i: nat, pc: Pc)
    requires i < |threads|
    ensures StepsOfAll(threads[i := pc]) + StepsOf(threads[i]) == StepsOfAll(threads) + StepsOf(pc)
  {
    var n := |threads| - 1;
    if i < n {
      StepsUpdate(threads[..n], i, pc);
      assert threads[i := pc][..n] == threads[..n][i := pc];
    } else {
      assert threads[i := pc][..n] == threads[..n];
    }
  }

  predicate FromOutside(e: Event) { e.Accept? || e.WakeSpuriously? }

  /** Every step of the program brings it closer to rest. */
  lemma WorkGoesDown(s: State, e: Event)
    requires Inv(s) && Enabled(s, e) && !FromOutside(e)
    ensures var t := Next(s, e); |t.takers| <= |t.accepted| && Work(t) < Work(s)
  {
    hide StepsOfAll, Count, Place, Counted, NoneForgotten, Exclusive;
    if e.Signal? {
      if Count(s.threads, IsAsleep) > 0 {
        StepsUpdate(s.threads, e.to, Woken(true));
      }
    } else if !OfMain(e) {
      StepsUpdate(s.threads, e.i, Next(s, e).threads[e.i]);
    }
  }

  /** Without new connections and spurious wakeups no run goes on for ever. */
  lemma {:induction false} ComesToRest(states: seq<State>, events: seq<Event>, m: nat, n: nat)
    requires IsRun(states, events) && m <= n < |states|
    requires forall k :: m <= k < n ==> !FromOutside(events[k])
    ensures |states[m].takers| <= |states[m].accepted| && |states[n].takers| <= |states[n].accepted|
    ensures n - m <= Work(states[m]) - Work(states[n])
    decreases n
  {
    if m < n {
      ComesToRest(states, events, m, n - 1);
      RunKeeps(states, events, n - 1);
      assert Enabled(states[n - 1], events[n - 1]) && states[n] == Next(states[n - 1], events[n - 1]);
      hide *;
      WorkGoesDown(states[n - 1], events[n - 1]);
    } else {
      RunKeeps(states, events, n);
      hide IsRun, Work;
    }
  }

  /** Only the world outside has a step to take. */
  ghost predicate AtRest(s: State)
  {
    s.main != Quit && forall e :: Enabled(s, e) ==> FromOutside(e)
  }

  lemma HolderGoesOn(s: State) returns (e: Event)
    requires Inv(s) && s.main != Quit && s.mutex != Nobody
    ensures Enabled(s, e) && !FromOutside(e)
  {
    hide Counted, Given, NoneForgotten, Count, Place;
    if s.mutex == Main {
      CountNone(s.threads, IsAsleep);
      var to: nat :| Count(s.threads, IsAsleep) > 0 ==> to < |s.threads| && s.threads[to] == Asleep;
      e := if s.main.Putting? then Put else if s.main == MainUnlocking then MainUnlock else Signal(to);
    } else {
      var i := s.mutex.i;
      assert Inside(s.threads[i]);
      e := if s.threads[i] == Testing then Test(i) else if s.threads[i] == Taking then Take(i) else Unlock(i);
    }
  }

  /** At rest the main thread is in accept, all threads sleep, and every connection has been taken. */
  lemma NothingWaitsAtRest(s: State)
    requires Inv(s) && AtRest(s) && |s.threads| > 0
    ensures s.main == Accepting && s.mutex == Nobody && |s.accepted| == |s.takers|
    ensures forall i :: 0 <= i < |s.threads| ==> s.threads[i] == Asleep
  {
    if s.mutex != Nobody {
      var _ := HolderGoesOn(s);
    }
    assert !Enabled(s, MainLock);
    forall i | 0 <= i < |s.threads| ensures s.threads[i] == Asleep {
      assert !Enabled(s, Lock(i)) && !Enabled(s, CountOne(i)) && !Enabled(s, Close(i));
      assert !Inside(s.threads[i]);
    }
    CountNone(s.threads, IsSignalled);
    NoLostWakeup(s, 0);
    hide RingHolds, NoneForgotten, TakingFinds, Given, Count;
  }

  /** How often an event is among the events. */
  function Times(events: seq<Event>, e: Event): nat
  {
    if events == [] then 0
    else Times(events[..|events| - 1], e) + if events[|events| - 1] == e then 1 else 0
  }

  lemma TakenBySnoc(takers: seq<nat>, at: nat, i: nat)
    ensures TakenBy(takers + [at], i) == TakenBy(takers, i) + if i == at then 1 else 0
  {
    assert (takers + [at])[..|takers|] == takers;
  }

  lemma ClosedKept(s: State, e: Event, i: nat)
    requires Enabled(s, e) && i < |s.threads|
    ensures var t := Next(s, e);
            && |t.threads| == |s.threads|
            && TakenBy(t.takers, i) - (if Has(t.threads[i]) then 1 else 0)
            == TakenBy(s.takers, i) - (if Has(s.threads[i]) then 1 else 0) + if e == Close(i) then 1 else 0
  {
    if e.Take? {
      TakenBySnoc(s.takers, e.i, i);
    }
    hide TakenBy, Count;
  }

  /** In every run a thread has closed every connection that it took, but for the one that it has. */
  lemma {:induction false} ClosesWhatItTook(states: seq<State>, events: seq<Event>, n: nat, i: nat)
    requires IsRun(states, events) && n < |states| && i < |states[0].threads|
    ensures |states[n].threads| == |states[0].threads|
    ensures TakenBy(states[n].takers, i)
         == Times(events[..n], Close(i)) + if Has(states[n].threads[i]) then 1 else 0
  {
    if n == 0 {
      assert events[..0] == [];
    } else {
      ClosesWhatItTook(states, events, n - 1, i);
      ClosedKept(states[n - 1], events[n - 1], i);
      assert events[..n][..n - 1] == events[..n - 1];
      hide Next, Enabled, TakenBy, Has;
    }
  }

  // ----- the program

  /** The shared memory, and where every thread is. */
  class Server {
    const clifd: array<int>
    var iget: nat
    var iput: nat
    var mutex: Owner
    var main: MainPc
    const threads: array<Pc>
    const counts: array<nat>
    /** A record of the run. */
    var accepted: seq<int>
    var takers: seq<nat>

    ghost function Now(): State
      reads this, clifd, threads, counts
    {
      State(clifd[..], iget, iput, mutex, main, threads[..], counts[..], accepted, takers)
    }

    ghost predicate Valid()
      reads this, clifd, threads, counts
    {
      Inv(Now())
    }

    constructor (nthreads: nat)
      ensures Valid() && fresh(clifd) && fresh(threads) && fresh(counts)
      ensures Now() == Start(nthreads, clifd[..])
    {
      clifd := new int[MAXNCLI];
      iget, iput, mutex, main := 0, 0, Nobody, Accepting;
      threads := new Pc[nthreads](_ => Locking);
      counts := new nat[nthreads](_ => 0);
      accepted, takers := [], [];
      new;
      assert threads[..] == seq(nthreads, _ => Locking) && counts[..] == seq(nthreads, _ => 0);
      StartHolds(nthreads, clifd[..]);
      hide Inv;
    }

    /** The body of main's critical section, up to the signal. */
    method PutInRing()
      requires Enabled(Now(), Put)
      modifies this, clifd
      ensures Now() == Next(old(Now()), Put)
    {
      accepted := accepted + [main.fd];
      clifd[iput] := main.fd;
      iput := iput + 1;
      if iput == MAXNCLI {
        iput := 0;
      }
      main := if iput == iget then Quit else Signalling;
    }

    /** The test of a thread's loop: the thread waits, giving up the mutex, or goes on to take a connection. */
    method TestRing(i: nat)
      requires Enabled(Now(), Test(i))
      modifies this, threads
      ensures Now() == Next(old(Now()), Test(i))
    {
      if iget == iput {
        threads[i] := Asleep;
        mutex := Nobody;
      } else {
        threads[i] := Taking;
      }
    }

    method TakeFromRing(i: nat)
      requires Enabled(Now(), Take(i))
      modifies this, threads
      ensures Now() == Next(old(Now()), Take(i))
    {
      var connfd := clifd[iget];
      threads[i] := Took(connfd, |takers|);
      iget := iget + 1;
      if iget == MAXNCLI {
        iget := 0;
      }
      takers := takers + [i];
    }

    /** Any step of any thread. */
    method Step(e: Event)
      requires Valid() && Enabled(Now(), e)
      modifies this, clifd, threads, counts
      ensures Valid() && Now() == Next(old(Now()), e)
    {
      StepKeeps(Now(), e);
      hide Inv, Count;
      match e {
        case Put => PutInRing();
        case Test(i) => TestRing(i);
        case Take(i) => TakeFromRing(i);
        case Accept(fd) => main := MainLocking(fd);
        case MainLock => main, mutex := Putting(main.fd), Main;
        case Signal(to) => WakeOne(to);
        case MainUnlock => main, mutex := Accepting, Nobody;
        case _ => StepOutside(e);
      }
    }

    /** pthread_cond_signal. */
    method WakeOne(to: nat)
      requires Enabled(Now(), Signal(to))
      modifies this, threads
      ensures Now() == Next(old(Now()), Signal(to))
    {
      hide Count;
      if Count(threads[..], IsAsleep) > 0 {
        threads[to] := Woken(true);
      }
      main := MainUnlocking;
    }

    /** A thread of the pool away from the ring. */
    method StepOutside(e: Event)
      requires Enabled(Now(), e) && !OfMain(e) && !e.Test? && !e.Take?
      modifies this, threads, counts
      ensures Now() == Next(old(Now()), e)
    {
      hide Count;
      match e {
        case Lock(i) => threads[i], mutex := Testing, Worker(i);
        case Unlock(i) => threads[i], mutex := Counting(threads[i].fd, threads[i].at), Nobody;
        case CountOne(i) =>
          counts[i] := counts[i] + 1;
          threads[i] := Serving(threads[i].fd, threads[i].at);
        case Close(i) => threads[i] := Locking;
        case WakeSpuriously(i) => threads[i] := Woken(false);
      }
    }
  }
}
