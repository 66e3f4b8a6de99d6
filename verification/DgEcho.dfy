/** The signal-driven datagram echo server: a handler puts datagrams in a ring while the main loop sends them back. */
module DgEcho {
  import opened Ring
  import Text

  const QSIZE: nat := 8
  const MAXDG: nat := 4096

  datatype Datagram = Datagram(data: seq<int>, from: int)

  /** A slot of the ring: its buffer, the length of the datagram in it, and the sender's address. */
  datatype Slot = Slot(data: seq<int>, len: nat, from: int)

  /** Where the main loop is. At Arming the socket has been made to signal, but its reads still wait for a datagram; at
      Setup they do not. SIGIO is blocked at Testing and Counting, and let in everywhere else. A call of sendto is in
      two parts: its arguments are fetched, and then the kernel copies the data. At Reading the handler was let in at
      Arming, has read `nread` datagrams, and waits in recvfrom for one more. */
  datatype Pc =
    | Arming
    | Reading(nread: nat)
    | Setup
    | Testing
    | Suspended
    | Sending
    | Copying(len: nat, from: int)
    | Stepping
    | Wrapping
    | Blocking
    | Counting
    | Overflow

  datatype Event =
    | SetNonBlocking
    | Interrupt
    | Arrive(datagram: Datagram)
    | Enter
    | Test
    | Fetch
    | Copy
    | StepOn
    | Wrap
    | Block
    | CountDown
    | Handle(batch: seq<Datagram>)

  /** `arrived` are the datagrams received so far, as the buffers can hold them, and `echoed` those sent. */
  datatype State = State(
    dg: seq<Slot>, iget: nat, iput: nat, nqueue: int, cntread: seq<nat>, pc: Pc,
    arrived: seq<Datagram>, echoed: seq<Datagram>)

  function Start(dg: seq<Slot>): State
  {
    State(dg, 0, 0, 0, seq(QSIZE + 1, _ => 0), Arming, [], [])
  }

  /** A datagram as recvfrom stores it. */
  function Fitted(d: Datagram): Datagram
  {
    d.(data := if |d.data| <= MAXDG then d.data else d.data[..MAXDG])
  }

  /** The buffer after the datagram is written over the beginning of it. */
  function Filled(slot: Slot, d: Datagram): (r: Slot)
    requires |slot.data| == MAXDG && |d.data| <= MAXDG
    ensures |r.data| == MAXDG
  {
    Slot(d.data + slot.data[|d.data|..], |d.data|, d.from)
  }

  predicate Ready(s: State)
  {
    && |s.dg| == QSIZE && (forall k :: 0 <= k < QSIZE ==> |s.dg[k].data| == MAXDG)
    && s.iput < QSIZE && |s.cntread| == QSIZE + 1
  }

  /** One datagram put in the ring. */
  function Put(s: State, d: Datagram): (t: State)
    requires Ready(s)
    ensures Ready(t)
  {
    s.(dg := s.dg[s.iput := Filled(s.dg[s.iput], Fitted(d))], nqueue := s.nqueue + 1, iput := Advance(s.iput, QSIZE),
       arrived := s.arrived + [Fitted(d)])
  }

  /** The handler's loop: it gives up as soon as it finds the ring full, even if there is nothing more to read. */
  function Absorb(s: State, batch: seq<Datagram>, nread: nat): State
    requires Ready(s) && nread <= s.nqueue
    decreases |batch|
  {
    if s.nqueue >= QSIZE then s.(pc := Overflow)
    else if batch == [] then s.(cntread := s.cntread[nread := s.cntread[nread] + 1])
    else Absorb(Put(s, batch[0]), batch[1..], nread + 1)
  }

  predicate Unblocked(pc: Pc)
  {
    pc == Setup || pc == Suspended || pc == Sending || pc.Copying? || pc == Stepping || pc == Wrapping || pc == Blocking
  }

  predicate Enabled(s: State, e: Event)
  {
    Ready(s) &&
    match e
    case SetNonBlocking => s.pc == Arming
    case Interrupt => s.pc == Arming
    case Arrive(_) => s.pc.Reading?
    case Enter => s.pc == Setup
    case Test => s.pc == Testing
    case Fetch => s.pc == Sending && s.iget < QSIZE
    case Copy => s.pc.Copying? && s.iget < QSIZE && s.pc.len <= MAXDG
    case StepOn => s.pc == Stepping
    case Wrap => s.pc == Wrapping
    case Block => s.pc == Blocking
    case CountDown => s.pc == Counting
    case Handle(_) => Unblocked(s.pc) && s.nqueue >= 0
  }

  function Next(s: State, e: Event): State
    requires Enabled(s, e)
  {
    match e
    case SetNonBlocking => s.(pc := Setup)
    case Interrupt => s.(pc := Reading(0))
    case Arrive(d) =>
      var t := Put(s, d);
      t.(pc := if t.nqueue >= QSIZE then Overflow else Reading(s.pc.nread + 1))
    case Enter => s.(pc := Testing)
    case Test => s.(pc := if s.nqueue == 0 then Suspended else Sending)
    case Fetch => s.(pc := Copying(s.dg[s.iget].len, s.dg[s.iget].from))
    case Copy => s.(pc := Stepping, echoed := s.echoed + [Datagram(s.dg[s.iget].data[..s.pc.len], s.pc.from)])
    case StepOn => s.(pc := Wrapping, iget := s.iget + 1)
    case Wrap => s.(pc := Blocking, iget := if s.iget >= QSIZE then 0 else s.iget)
    case Block => s.(pc := Counting)
    case CountDown => s.(pc := Testing, nqueue := s.nqueue - 1)
    case Handle(batch) =>
      var t := Absorb(s, batch, 0);
      // sigsuspend returns after the handler
      if t.pc == Suspended then t.(pc := Testing) else t
  }

  /** All the states of a run, from the start of the program on. */
  ghost predicate IsRun(states: seq<State>, events: seq<Event>)
  {
    && |states| == |events| + 1 && Ready(states[0]) && states[0] == Start(states[0].dg)
    && forall k :: 0 <= k < |events| ==> Enabled(states[k], events[k]) && states[k + 1] == Next(states[k], events[k])
  }

  // ----- the invariant

  /** Whether the datagram in front has been sent and is still counted. */
  predicate Lagging(pc: Pc) { pc == Stepping || pc == Wrapping || pc == Blocking || pc == Counting }

  /** Whether iget has moved past a datagram that is still counted. */
  predicate Moved(pc: Pc) { pc == Wrapping || pc == Blocking || pc == Counting }

  /** The slot of the datagram that is counted first. */
  function Front(s: State): int
  {
    if !Moved(s.pc) then s.iget
    else if s.iget == 0 then QSIZE - 1
    else s.iget - 1
  }

  predicate Holds(slot: Slot, d: Datagram)
  {
    |d.data| <= |slot.data| && slot.data[..|d.data|] == d.data && slot.len == |d.data| && slot.from == d.from
  }

  /** The indices agree with the count, but for the lag between stepping on and counting down. */
  ghost predicate Indices(s: State)
  {
    && Ready(s) && 0 <= Front(s) < QSIZE && 0 <= s.nqueue <= QSIZE
    && (s.pc == Wrapping ==> 1 <= s.iget) && (s.pc != Wrapping ==> s.iget < QSIZE)
    && s.iput == Place(Front(s), s.nqueue, QSIZE)
    && (s.pc == Sending || s.pc.Copying? || Lagging(s.pc) ==> s.nqueue > 0)
  }

  /** The last `n` datagrams received are in the ring, in order, from the slot `front` on. */
  ghost predicate InRing(dg: seq<Slot>, arrived: seq<Datagram>, front: nat, n: nat)
  {
    && |dg| == QSIZE && front < QSIZE && n <= QSIZE && n <= |arrived|
    && forall j :: |arrived| - n <= j < |arrived| ==> Holds(dg[Place(front, j - (|arrived| - n), QSIZE)], arrived[j])
  }

  /** The datagrams received are those echoed, in the same order, and then those in the ring. */
  ghost predicate Contents(s: State)
  {
    && Indices(s) && s.echoed <= s.arrived
    && |s.arrived| == |s.echoed| + s.nqueue - (if Lagging(s.pc) then 1 else 0)
    && InRing(s.dg, s.arrived, Front(s), s.nqueue)
    && (s.pc.Copying? ==> s.pc.len == s.dg[s.iget].len && s.pc.from == s.dg[s.iget].from)
  }

  function Weighted(cntread: seq<nat>, n: nat): nat
    requires n <= |cntread|
  {
    if n == 0 then 0 else Weighted(cntread, n - 1) + (n - 1) * cntread[n - 1]
  }

  /** The histogram adds up to the datagrams received, but for `nread` of the handler at work. */
  ghost predicate Histogram(s: State, nread: nat)
  {
    && |s.cntread| == QSIZE + 1 && s.cntread[QSIZE] == 0
    && Weighted(s.cntread, QSIZE + 1) + nread == |s.arrived|
  }

  /** What the handler at work has read and not yet counted in the histogram. */
  function Uncounted(pc: Pc): nat { if pc.Reading? then pc.nread else 0 }

  ghost predicate Inv(s: State)
  {
    && Ready(s) && s.echoed <= s.arrived
    && (s.pc != Overflow ==> Contents(s) && s.nqueue < QSIZE && Histogram(s, Uncounted(s.pc)))
    && (s.pc == Arming || s.pc.Reading? ==> s.nqueue == Uncounted(s.pc) && s.echoed == [])
    && (s.pc == Suspended ==> s.nqueue == 0)
  }

  // ----- the handler

  lemma InRingPut(dg: seq<Slot>, arrived: seq<Datagram>, front: nat, n: nat, slot: Slot, d: Datagram)
    requires InRing(dg, arrived, front, n) && n < QSIZE && Holds(slot, d)
    ensures InRing(dg[Place(front, n, QSIZE) := slot], arrived + [d], front, n + 1)
  {
    hide Holds;
  }

  lemma FilledHolds(slot: Slot, d: Datagram)
    requires |slot.data| == MAXDG
    ensures Holds(Filled(slot, Fitted(d)), Fitted(d))
  {
    var r := Filled(slot, Fitted(d));
    assert r.data[..|Fitted(d).data|] == Fitted(d).data;
  }

  lemma PutKeepsIndices(s: State, d: Datagram)
    requires Indices(s) && s.nqueue < QSIZE && s.pc != Overflow
    ensures Indices(Put(s, d)) && Put(s, d).pc == s.pc && Front(Put(s, d)) == Front(s)
    ensures s.nqueue > 0 ==> Front(s) != s.iput
  {
    hide Filled, Fitted;
  }

  lemma PutKeeps(s: State, d: Datagram)
    requires Contents(s) && s.nqueue < QSIZE && s.pc != Overflow
    ensures Contents(Put(s, d)) && Put(s, d).pc == s.pc
    ensures s.nqueue > 0 ==> Put(s, d).dg[Front(s)] == s.dg[Front(s)]
  {
    FilledHolds(s.dg[s.iput], d);
    PutKeepsIndices(s, d);
    InRingPut(s.dg, s.arrived, Front(s), s.nqueue, Filled(s.dg[s.iput], Fitted(d)), Fitted(d));
    hide Holds, Filled, Fitted, InRing, Advance, Ready;
  }

  lemma {:induction false} WeightedUpdate(c: seq<nat>, i: nat, n: nat)
    requires n <= |c| && i < |c|
    ensures Weighted(c[i := c[i] + 1], n) == Weighted(c, n) + if i < n then i else 0
  {
    if n > 0 {
      WeightedUpdate(c, i, n - 1);
      if i == n - 1 {
        Text.TimesOneMore(i, c[i]);
      }
    }
  }

  /** The handler gives up exactly when the datagrams there are would fill the ring, whether or not more come. */
  lemma {:induction false} OverflowExactly(s: State, batch: seq<Datagram>, nread: nat)
    requires Ready(s) && s.pc != Overflow && nread <= s.nqueue
    ensures Absorb(s, batch, nread).pc == Overflow <==> s.nqueue + |batch| >= QSIZE
    decreases |batch|
  {
    if s.nqueue < QSIZE && batch != [] {
      OverflowExactly(Put(s, batch[0]), batch[1..], nread + 1);
    }
  }

  function AllFitted(batch: seq<Datagram>): (r: seq<Datagram>)
    ensures |r| == |batch|
  {
    Text.Mapped(Fitted, batch)
  }

  lemma AllFittedStep(a: seq<Datagram>, batch: seq<Datagram>)
    requires batch != []
    ensures a + [Fitted(batch[0])] + AllFitted(batch[1..]) == a + AllFitted(batch)
  {
  }

  /** If it does not give up, every datagram it read is in the ring, and the histogram has counted them; the slot in
      front is untouched, unless there was none. */
  ghost predicate Absorbed(s: State, batch: seq<Datagram>, t: State)
  {
    && Ready(t) && t.echoed == s.echoed && s.arrived <= t.arrived && t.iget == s.iget
    && (s.nqueue + |batch| < QSIZE ==>
          && Contents(t) && t.pc == s.pc && t.nqueue == s.nqueue + |batch|
          && t.arrived == s.arrived + AllFitted(batch) && Histogram(t, 0))
    && (s.nqueue > 0 ==> 0 <= Front(s) < QSIZE && |s.dg| == QSIZE && t.dg[Front(s)] == s.dg[Front(s)])
  }

  lemma CountedOnce(s: State, nread: nat)
    requires Ready(s) && Histogram(s, nread) && nread < QSIZE
    ensures Histogram(s.(cntread := s.cntread[nread := s.cntread[nread] + 1]), 0)
  {
    WeightedUpdate(s.cntread, nread, QSIZE + 1);
    hide Weighted;
  }

  lemma AbsorbedNow(s: State, batch: seq<Datagram>, nread: nat)
    requires Contents(s) && s.pc != Overflow && Histogram(s, nread) && nread <= s.nqueue
    requires s.nqueue >= QSIZE || batch == []
    ensures Absorbed(s, batch, Absorb(s, batch, nread))
  {
    hide Weighted, InRing, Histogram, Filled, Fitted, Place, Advance;
    if s.nqueue < QSIZE {
      CountedOnce(s, nread);
      assert s.arrived + AllFitted([]) == s.arrived;
    }
  }

  lemma AbsorbedMore(s: State, batch: seq<Datagram>, u: State, t: State)
    requires batch != [] && Contents(s) && s.nqueue < QSIZE && s.pc != Overflow
    requires u == Put(s, batch[0]) && Absorbed(u, batch[1..], t)
    ensures Absorbed(s, batch, t)
  {
    PutKeeps(s, batch[0]);
    AllFittedStep(s.arrived, batch);
    hide InRing, AllFitted, Filled, Fitted, Histogram, Contents;
  }

  lemma PutCounts(s: State, d: Datagram, nread: nat)
    requires Ready(s) && Histogram(s, nread)
    ensures Histogram(Put(s, d), nread + 1) && Put(s, d).nqueue == s.nqueue + 1
  {
    hide Weighted, Filled, Fitted;
  }

  lemma AbsorbOne(s: State, batch: seq<Datagram>, nread: nat)
    requires Ready(s) && nread <= s.nqueue < QSIZE && batch != []
    ensures Absorb(s, batch, nread) == Absorb(Put(s, batch[0]), batch[1..], nread + 1)
  {
    hide Filled, Fitted;
  }

  lemma ContentsReady(s: State)
    requires Contents(s)
    ensures Ready(s)
  {
  }

  lemma {:induction false} AbsorbKeeps(s: State, batch: seq<Datagram>, nread: nat)
    requires Contents(s) && s.pc != Overflow && Histogram(s, nread) && nread <= s.nqueue
    ensures Absorbed(s, batch, Absorb(s, batch, nread))
    decreases |batch|
  {
    assert QSIZE == 8;
    hide *;
    if s.nqueue >= QSIZE || batch == [] {
      AbsorbedNow(s, batch, nread);
    } else {
      ContentsReady(s);
      PutKeeps(s, batch[0]);
      PutCounts(s, batch[0], nread);
      AbsorbOne(s, batch, nread);
      var u := Put(s, batch[0]);
      AbsorbKeeps(u, batch[1..], nread + 1);
      AbsorbedMore(s, batch, u, Absorb(u, batch[1..], nread + 1));
    }
  }

  lemma HandleKeeps(s: State, batch: seq<Datagram>)
    requires Inv(s) && Enabled(s, Handle(batch))
    ensures Inv(Next(s, Handle(batch)))
  {
    hide InRing, AllFitted, Weighted, Absorb, Holds, Filled, Fitted, Place, Advance;
    AbsorbKeeps(s, batch, 0);
    OverflowExactly(s, batch, 0);
    var t := Absorb(s, batch, 0);
  }

  // ----- the main loop

  lemma InRingDrop(dg: seq<Slot>, arrived: seq<Datagram>, front: nat, n: nat)
    requires InRing(dg, arrived, front, n) && n > 0
    ensures Holds(dg[front], arrived[|arrived| - n]) && InRing(dg, arrived, Place(front, 1, QSIZE), n - 1)
  {
    assert Place(front, 0, QSIZE) == front;
    assert forall k :: 1 <= k < n ==> Place(front, k, QSIZE) == Place(Place(front, 1, QSIZE), k - 1, QSIZE);
    forall j | |arrived| - (n - 1) <= j < |arrived|
      ensures Holds(dg[Place(Place(front, 1, QSIZE), j - (|arrived| - (n - 1)), QSIZE)], arrived[j])
    {
      assert Place(front, j - (|arrived| - n), QSIZE) ==
             Place(Place(front, 1, QSIZE), j - (|arrived| - (n - 1)), QSIZE);
    }
    hide Holds;
  }

  /** What is copied is the datagram in front. */
  lemma CopyKeeps(s: State)
    requires Inv(s) && Enabled(s, Copy)
    ensures Inv(Next(s, Copy)) && Next(s, Copy).echoed == s.arrived[..|s.echoed| + 1]
  {
    InRingDrop(s.dg, s.arrived, s.iget, s.nqueue);
    var d := s.arrived[|s.echoed|];
    assert Datagram(s.dg[s.iget].data[..s.pc.len], s.pc.from) == d;
    assert s.echoed == s.arrived[..|s.echoed|];
    assert s.arrived[..|s.echoed| + 1] == s.arrived[..|s.echoed|] + [d];
    hide Holds, InRing, Histogram;
  }

  lemma CountDownKeeps(s: State)
    requires Inv(s) && Enabled(s, CountDown)
    ensures Inv(Next(s, CountDown))
  {
    hide InRing, Holds, Weighted;
    InRingDrop(s.dg, s.arrived, Front(s), s.nqueue);
    assert Place(Front(s), 1, QSIZE) == s.iget;
  }

  lemma IndexStepsKeep(s: State, e: Event)
    requires Inv(s) && Enabled(s, e) && (e.StepOn? || e.Wrap? || e.Block?)
    ensures Inv(Next(s, e))
  {
    hide InRing, Holds, Weighted;
  }

  lemma TestsKeep(s: State, e: Event)
    requires Inv(s) && Enabled(s, e) && (e.Enter? || e.Test? || e.Fetch?)
    ensures Inv(Next(s, e))
  {
    hide InRing, Holds, Weighted;
  }

  lemma ArriveKeeps(s: State, e: Event)
    requires Inv(s) && Enabled(s, e) && e.Arrive?
    ensures Inv(Next(s, e))
  {
    PutKeeps(s, e.datagram);
    PutCounts(s, e.datagram, s.pc.nread);
    hide InRing, Holds, Weighted, Filled, Fitted;
  }

  lemma SetupKeeps(s: State, e: Event)
    requires Inv(s) && Enabled(s, e) && (e.SetNonBlocking? || e.Interrupt?)
    ensures Inv(Next(s, e))
  {
    hide InRing, Holds, Weighted;
  }

  lemma MainKeeps(s: State, e: Event)
    requires Inv(s) && Enabled(s, e) && !e.Handle?
    ensures Inv(Next(s, e))
  {
    match e
    case SetNonBlocking => SetupKeeps(s, e);
    case Interrupt => SetupKeeps(s, e);
    case Arrive(_) => ArriveKeeps(s, e);
    case Copy => CopyKeeps(s);
    case CountDown => CountDownKeeps(s);
    case Enter => TestsKeep(s, e);
    case Test => TestsKeep(s, e);
    case Fetch => TestsKeep(s, e);
    case _ => IndexStepsKeep(s, e);
  }

  lemma StepKeeps(s: State, e: Event)
    requires Inv(s) && Enabled(s, e)
    ensures Inv(Next(s, e))
  {
    if e.Handle? {
      HandleKeeps(s, e.batch);
    } else {
      MainKeeps(s, e);
    }
  }

  lemma {:induction false} WeightedZero(n: nat)
    requires n <= QSIZE + 1
    ensures Weighted(seq(QSIZE + 1, _ => 0), n) == 0
  {
    if n > 0 {
      WeightedZero(n - 1);
    }
  }

  lemma StartHolds(dg: seq<Slot>)
    requires |dg| == QSIZE && forall k :: 0 <= k < QSIZE ==> |dg[k].data| == MAXDG
    ensures Inv(Start(dg))
  {
    WeightedZero(QSIZE + 1);
    hide Weighted;
  }

  lemma {:induction false} RunKeeps(states: seq<State>, events: seq<Event>, k: nat)
    requires IsRun(states, events) && k < |states|
    ensures Inv(states[k])
  {
    if k > 0 {
      RunKeeps(states, events, k - 1);
      StepKeeps(states[k - 1], events[k - 1]);
      hide Inv, Next, Enabled;
    } else {
      StartHolds(states[0].dg);
    }
  }

  // ----- what it means

  /** The indices differ by the count, but for the one step between moving iget on and counting down. */
  lemma IndicesAgree(s: State)
    requires Inv(s) && s.pc != Overflow
    ensures s.iput == (s.iget + s.nqueue - if Moved(s.pc) then 1 else 0) % QSIZE
  {
    hide InRing, Histogram;
  }

  /** However many datagrams the handler takes in while one is being sent, it leaves the slot of that one alone. */
  lemma SlotSpared(s: State, batch: seq<Datagram>)
    requires Inv(s) && Enabled(s, Handle(batch)) && s.nqueue > 0 && !Moved(s.pc)
    ensures var t := Next(s, Handle(batch)); s.iget < QSIZE == |s.dg| == |t.dg| && t.dg[s.iget] == s.dg[s.iget]
  {
    AbsorbKeeps(s, batch, 0);
    hide InRing, Histogram, Absorb;
  }

  /** The main loop sleeps only when everything received has been sent back. */
  lemma NothingLeftAsleep(s: State)
    requires Inv(s) && s.pc == Suspended
    ensures s.echoed == s.arrived
  {
  }

  /** In every state of every run: what has been echoed is what was received, in order, from the first. */
  lemma EchoedInOrder(states: seq<State>, events: seq<Event>, k: nat)
    requires IsRun(states, events) && k < |states|
    ensures states[k].echoed <= states[k].arrived
    ensures states[k].pc != Overflow ==> |states[k].arrived| - |states[k].echoed| < QSIZE
  {
    RunKeeps(states, events, k);
    hide InRing, Histogram, IsRun;
  }

  /** The datagrams that the handler came upon, in order. */
  function Incoming(events: seq<Event>): seq<Datagram>
  {
    if events == [] then []
    else
      var init := Incoming(events[..|events| - 1]);
      match events[|events| - 1]
      case Handle(batch) => init + batch
      case Arrive(d) => init + [d]
      case _ => init
  }

  /** `kept` is the datagram as a buffer of 4096 bytes can hold it. */
  predicate IsCutOf(kept: Datagram, d: Datagram)
  {
    kept.from == d.from && kept.data <= d.data && (|kept.data| == |d.data| || |kept.data| == 4096 < |d.data|)
  }

  ghost predicate AllCut(kept: seq<Datagram>, all: seq<Datagram>)
  {
    |kept| <= |all| && forall k :: 0 <= k < |kept| ==> IsCutOf(kept[k], all[k])
  }

  lemma FittedIsCut(d: Datagram)
    ensures IsCutOf(Fitted(d), d)
  {
  }

  lemma OneMoreCut(kept: seq<Datagram>, all: seq<Datagram>, d: Datagram)
    requires AllCut(kept, all) && |kept| == |all|
    ensures AllCut(kept + [Fitted(d)], all + [d]) && |kept + [Fitted(d)]| == |all + [d]|
  {
    FittedIsCut(d);
    hide IsCutOf, Fitted;
  }

  lemma {:induction false} AbsorbCut(s: State, batch: seq<Datagram>, nread: nat, all: seq<Datagram>)
    requires Ready(s) && nread <= s.nqueue && AllCut(s.arrived, all) && |s.arrived| == |all|
    ensures AllCut(Absorb(s, batch, nread).arrived, all + batch)
    ensures Absorb(s, batch, nread).pc != Overflow ==> |Absorb(s, batch, nread).arrived| == |all + batch|
    decreases |batch|
  {
    hide Filled, Fitted, IsCutOf;
    if s.nqueue < QSIZE && batch != [] {
      OneMoreCut(s.arrived, all, batch[0]);
      assert all + [batch[0]] + batch[1..] == all + batch;
      AbsorbCut(Put(s, batch[0]), batch[1..], nread + 1, all + [batch[0]]);
    } else if batch == [] {
      assert all + batch == all;
    } else {
      MoreToCome(s.arrived, all, batch);
    }
  }

  lemma MoreToCome(kept: seq<Datagram>, all: seq<Datagram>, more: seq<Datagram>)
    requires AllCut(kept, all)
    ensures AllCut(kept, all + more)
  {
    hide IsCutOf;
  }

  lemma ArrivesCut(s: State, e: Event, all: seq<Datagram>)
    requires Inv(s) && Enabled(s, e) && s.pc != Overflow && AllCut(s.arrived, all) && |s.arrived| == |all|
    ensures var more := match e case Handle(batch) => batch case Arrive(d) => [d] case _ => [];
            && AllCut(Next(s, e).arrived, all + more)
            && (Next(s, e).pc != Overflow ==> |Next(s, e).arrived| == |all + more|)
  {
    match e
    case Handle(batch) =>
      AbsorbCut(s, batch, 0, all);
      hide Absorb, AllCut;
    case Arrive(d) =>
      OneMoreCut(s.arrived, all, d);
      hide Filled, Fitted, AllCut;
    case _ =>
      assert all + [] == all;
      hide AllCut;
  }

  lemma GivenUpForGood(s: State, e: Event)
    requires Enabled(s, e)
    ensures s.pc != Overflow
  {
  }

  /** In every run what has been received are the datagrams that the handler came upon, in order, each cut to the size
      of a buffer; all of them, until the handler gives up. */
  lemma {:induction false} ArrivedInOrder(states: seq<State>, events: seq<Event>, n: nat)
    requires IsRun(states, events) && n < |states|
    ensures AllCut(states[n].arrived, Incoming(events[..n]))
    ensures states[n].pc != Overflow ==> |states[n].arrived| == |Incoming(events[..n])|
  {
    if n == 0 {
      assert events[..0] == [];
    } else {
      var s, e := states[n - 1], events[n - 1];
      ArrivedInOrder(states, events, n - 1);
      RunKeeps(states, events, n - 1);
      assert events[..n][..n - 1] == events[..n - 1];
      var all := Incoming(events[..n - 1]);
      assert Enabled(s, e) && states[n] == Next(s, e);
      assert Incoming(events[..n]) == all + match e case Handle(batch) => batch case Arrive(d) => [d] case _ => [];
      hide *;
      GivenUpForGood(s, e);
      ArrivesCut(s, e, all);
    }
  }

  lemma {:induction false} AbsorbCounts(s: State, batch: seq<Datagram>, nread: nat)
    requires Ready(s) && s.pc != Overflow && nread <= s.nqueue
    ensures var t := Absorb(s, batch, nread);
            if t.pc == Overflow then t.cntread == s.cntread
            else
              && nread + |batch| < |s.cntread|
              && t.cntread == s.cntread[nread + |batch| := s.cntread[nread + |batch|] + 1]
    decreases |batch|
  {
    hide Filled, Fitted;
    if s.nqueue < QSIZE && batch != [] {
      AbsorbCounts(Put(s, batch[0]), batch[1..], nread + 1);
    }
  }

  lemma HandledCounts(s: State, batch: seq<Datagram>)
    requires Enabled(s, Handle(batch))
    ensures Ready(s) && s.pc != Overflow && 0 <= s.nqueue
    ensures var t, u := Next(s, Handle(batch)), Absorb(s, batch, 0);
            t.cntread == u.cntread && (t.pc == Overflow <==> u.pc == Overflow)
  {
    hide Absorb;
  }

  /** One run of the handler that does not give up adds one in the histogram, at the number of datagrams it read. */
  lemma CountsTheBatch(s: State, batch: seq<Datagram>)
    requires Enabled(s, Handle(batch))
    ensures var t := Next(s, Handle(batch));
            if t.pc == Overflow then t.cntread == s.cntread
            else |batch| < |s.cntread| && t.cntread == s.cntread[|batch| := s.cntread[|batch|] + 1]
  {
    hide *;
    HandledCounts(s, batch);
    AbsorbCounts(s, batch, 0);
  }

  /** One run of the handler reads fewer than QSIZE datagrams if it does not give up: the last place of the histogram
      is never used, and the others account for every datagram. */
  lemma HistogramIsTrue(s: State, batch: seq<Datagram>)
    requires Inv(s) && Enabled(s, Handle(batch))
    ensures var t := Next(s, Handle(batch));
            t.pc != Overflow ==>
              && |batch| < QSIZE && |t.cntread| == QSIZE + 1 && t.cntread[QSIZE] == 0
              && t.arrived == s.arrived + AllFitted(batch)
              && Weighted(t.cntread, QSIZE + 1) == |t.arrived|
  {
    AbsorbKeeps(s, batch, 0);
    OverflowExactly(s, batch, 0);
    hide InRing, AllFitted, Absorb, Weighted;
  }

  /** A ring that the batch fills exactly holds every datagram of it. */
  lemma {:induction false} FullHoldsAll(s: State, batch: seq<Datagram>, nread: nat)
    requires Ready(s) && nread <= s.nqueue && s.nqueue + |batch| == QSIZE
    ensures Absorb(s, batch, nread).arrived == s.arrived + AllFitted(batch)
    decreases |batch|
  {
    if batch == [] {
      assert s.arrived + AllFitted([]) == s.arrived;
    } else {
      AbsorbOne(s, batch, nread);
      AllFittedStep(s.arrived, batch);
      FullHoldsAll(Put(s, batch[0]), batch[1..], nread + 1);
      hide AllFitted, Absorb, Filled, Fitted;
    }
  }

  /** For instance eight datagrams that come before the first test: all of them are in the ring, there are no more, and
      the program gives up. */
  lemma EightAtOnce(dg: seq<Slot>, d: Datagram)
    requires |dg| == QSIZE && forall k :: 0 <= k < QSIZE ==> |dg[k].data| == MAXDG
    ensures var s, batch := Start(dg).(pc := Setup), seq(QSIZE, _ => d);
            && Enabled(Start(dg), SetNonBlocking) && s == Next(Start(dg), SetNonBlocking)
            && Enabled(s, Handle(batch)) && Next(s, Handle(batch)).pc == Overflow
            && Next(s, Handle(batch)).arrived == AllFitted(batch)
  {
    hide Absorb, AllFitted, Filled, Fitted, Weighted;
    var s, batch := Start(dg).(pc := Setup), seq(QSIZE, _ => d);
    OverflowExactly(s, batch, 0);
    FullHoldsAll(s, batch, 0);
    assert [] + AllFitted(batch) == AllFitted(batch);
  }

  /** The handler was let in while the socket's reads still wait, or has given up because of that. */
  predicate Caught(s: State)
  {
    && s.echoed == []
    && if s.pc.Reading? then s.pc.nread == s.nqueue == |s.arrived| < QSIZE
       else s.pc == Overflow && |s.arrived| == QSIZE
  }

  /** A signal between the two calls that make the socket signal and not wait: the handler never returns, and nothing is
      ever echoed; it gives up with the datagram that fills the ring. */
  lemma {:induction false} CaughtForGood(states: seq<State>, events: seq<Event>, j: nat, k: nat)
    requires IsRun(states, events) && j <= k < |states| && states[j].pc.Reading?
    ensures Caught(states[k])
    decreases k
  {
    if j == k {
      RunKeeps(states, events, j);
      hide InRing, Histogram, IsRun;
    } else {
      CaughtForGood(states, events, j, k - 1);
      assert Enabled(states[k - 1], events[k - 1]) && states[k] == Next(states[k - 1], events[k - 1]);
      hide IsRun, Absorb, Filled, Fitted;
    }
  }

  /** It happens if and only if a signal comes there. */
  lemma CaughtExactly(s: State, e: Event)
    requires Inv(s) && Enabled(s, e) && !s.pc.Reading?
    ensures Next(s, e).pc.Reading? <==> e == Interrupt
  {
    if e.Handle? {
      AbsorbPc(s, e.batch, 0);
    }
    hide Absorb, Inv;
  }

  lemma {:induction false} AbsorbPc(s: State, batch: seq<Datagram>, nread: nat)
    requires Ready(s) && nread <= s.nqueue
    ensures Absorb(s, batch, nread).pc == s.pc || Absorb(s, batch, nread).pc == Overflow
    decreases |batch|
  {
    if s.nqueue < QSIZE && batch != [] {
      AbsorbPc(Put(s, batch[0]), batch[1..], nread + 1);
    }
  }

  /** The handler gives up on a ring that is exactly full, though no datagram is lost by it. */
  lemma GivesUpWhenFull(s: State, batch: seq<Datagram>)
    requires Inv(s) && Enabled(s, Handle(batch))
    ensures Next(s, Handle(batch)).pc == Overflow <==> s.nqueue + |batch| >= 8
  {
    OverflowExactly(s, batch, 0);
    hide Absorb, InRing, Histogram;
  }

  // ----- the main loop comes to rest

  predicate OfMain(e: Event) { !e.Interrupt? && !e.Arrive? && !e.Handle? }

  /** How many steps the main loop is from its test. */
  function StepsToTest(pc: Pc): nat
  {
    match pc
    case Arming => 2
    case Setup => 1
    case Sending => 6
    case Copying(_, _) => 5
    case Stepping => 4
    case Wrapping => 3
    case Blocking => 2
    case Counting => 1
    case _ => 0
  }

  /** The steps that the main loop takes until it sleeps: seven for each datagram in the ring, and one to find no
      more. */
  function Work(s: State): int
  {
    var busy := s.pc == Sending || s.pc.Copying? || Lagging(s.pc);
    if s.pc == Suspended then 0
    else 7 * (s.nqueue - if busy then 1 else 0) + StepsToTest(s.pc) + 1
  }

  lemma WorkGoesDown(s: State, e: Event)
    requires Inv(s) && Enabled(s, e) && OfMain(e)
    ensures Work(Next(s, e)) == Work(s) - 1 >= 0 && Next(s, e).arrived == s.arrived
    ensures !s.pc.Reading? && s.pc != Overflow && !Next(s, e).pc.Reading? && Next(s, e).pc != Overflow
  {
    hide InRing, Histogram, Place, Holds;
  }

  /** The step that the main loop takes next. */
  lemma GoesOn(s: State) returns (e: Event)
    requires Inv(s) && s.pc != Suspended && s.pc != Overflow && !s.pc.Reading?
    ensures OfMain(e) && Enabled(s, e)
  {
    e := match s.pc
         case Arming => SetNonBlocking
         case Setup => Enter
         case Testing => Test
         case Sending => Fetch
         case Copying(_, _) => Copy
         case Stepping => StepOn
         case Wrapping => Wrap
         case Blocking => Block
         case _ => CountDown;
    if s.pc.Copying? {
      InRingDrop(s.dg, s.arrived, s.iget, s.nqueue);
    }
    hide InRing, Histogram, Place;
  }

  lemma WorkLeft(s: State)
    requires Inv(s) && s.pc != Suspended && s.pc != Overflow && !s.pc.Reading?
    ensures Work(s) > 0
  {
    hide InRing, Histogram, Place;
  }

  lemma StepOfRun(states: seq<State>, events: seq<Event>, k: nat)
    requires IsRun(states, events) && k < |events|
    ensures k + 1 < |states| && Enabled(states[k], events[k]) && states[k + 1] == Next(states[k], events[k])
  {
    hide Enabled, Next, Ready;
  }

  lemma {:induction false} WorkDone(states: seq<State>, events: seq<Event>, m: nat, n: nat)
    requires IsRun(states, events) && m <= n <= |events| < |states|
    requires states[m].pc != Overflow && !states[m].pc.Reading?
    requires forall k :: m <= k < n ==> OfMain(events[k])
    ensures Work(states[n]) == Work(states[m]) - (n - m) && states[n].arrived == states[m].arrived
    ensures states[n].pc != Overflow && !states[n].pc.Reading?
    decreases n
  {
    hide *;
    if m < n {
      WorkDone(states, events, m, n - 1);
      RunKeeps(states, events, n - 1);
      StepOfRun(states, events, n - 1);
      WorkGoesDown(states[n - 1], events[n - 1]);
    }
  }

  /** Left alone, the main loop takes exactly the steps that its work comes to, and then it sleeps, with everything that
      had been received sent back; until then it has a step to take. */
  lemma SendsAllAndSleeps(states: seq<State>, events: seq<Event>, m: nat, n: nat)
    requires IsRun(states, events) && m <= n < |states| && states[m].pc != Overflow && !states[m].pc.Reading?
    requires forall k :: m <= k < n ==> OfMain(events[k])
    ensures n - m <= Work(states[m])
    ensures n - m == Work(states[m]) ==> states[n].pc == Suspended && states[n].echoed == states[m].arrived
    ensures n - m < Work(states[m]) ==> exists e :: OfMain(e) && Enabled(states[n], e)
  {
    assert |states| == |events| + 1;
    WorkDone(states, events, m, n);
    RunKeeps(states, events, n);
    var s := states[n];
    hide IsRun, Enabled;
    if s.pc == Suspended {
      NothingLeftAsleep(s);
    } else {
      var _ := GoesOn(s);
      WorkLeft(s);
    }
  }

  // ----- the program

  class Echo {
    const dg: array<Slot>
    var iget: nat
    var iput: nat
    var nqueue: int
    const cntread: array<nat>
    var pc: Pc
    /** A record of the run. */
    var arrived: seq<Datagram>
    var echoed: seq<Datagram>

    ghost function Now(): State
      reads this, dg, cntread
    {
      State(dg[..], iget, iput, nqueue, cntread[..], pc, arrived, echoed)
    }

    ghost predicate Valid()
      reads this, dg, cntread
    {
      Inv(Now())
    }

    constructor ()
      ensures Valid() && fresh(dg) && fresh(cntread) && Now() == Start(dg[..])
    {
      dg := new Slot[QSIZE](_ => Slot(seq(MAXDG, _ => 0), 0, 0));
      cntread := new nat[QSIZE + 1](_ => 0);
      iget, iput, nqueue, pc, arrived, echoed := 0, 0, 0, Arming, [], [];
      new;
      assert cntread[..] == seq(QSIZE + 1, _ => 0);
      StartHolds(dg[..]);
      hide Inv;
    }

    /** The body of the handler's loop after a datagram was received. */
    method PutOne(d: Datagram)
      requires Ready(Now())
      modifies `nqueue, `iput, `arrived, dg
      ensures Now() == Put(old(Now()), d) && nqueue == old(nqueue) + 1
    {
      dg[iput] := Filled(dg[iput], Fitted(d));
      nqueue := nqueue + 1;
      iput := iput + 1;
      if iput >= QSIZE {
        iput := 0;
      }
      arrived := arrived + [Fitted(d)];
    }

    /** sig_io, with the datagrams that it finds before the socket would block. */
    method SigIo(batch: seq<Datagram>)
      requires Ready(Now()) && 0 <= nqueue <= QSIZE
      modifies this, dg, cntread
      ensures Now() == Absorb(old(Now()), batch, 0)
    {
      var nread := 0;
      hide Put;
      while true
        invariant nread <= |batch| && Ready(Now()) && nread <= nqueue <= QSIZE
        invariant Absorb(Now(), batch[nread..], nread) == Absorb(old(Now()), batch, 0)
        decreases |batch| - nread
      {
        if nqueue >= QSIZE {
          pc := Overflow;
          return;
        }
        if nread == |batch| {
          break;
        }
        assert batch[nread..][0] == batch[nread] && batch[nread..][1..] == batch[nread + 1..];
        PutOne(batch[nread]);
        nread := nread + 1;
      }
      cntread[nread] := cntread[nread] + 1;
    }

    /** sig_io let in before the socket was made not to wait: one datagram read, and the test before the next. */
    method ReadOn(d: Datagram)
      requires Enabled(Now(), Arrive(d)) && 0 <= nqueue
      modifies this, dg
      ensures Now() == Next(old(Now()), Arrive(d))
    {
      hide Put;
      PutOne(d);
      pc := if nqueue >= QSIZE then Overflow else Reading(pc.nread + 1);
    }

    /** One step of the main program. */
    method MainStep(e: Event)
      requires Enabled(Now(), e) && !e.Handle? && !e.Arrive?
      modifies this
      ensures Now() == Next(old(Now()), e)
    {
      match e {
        case SetNonBlocking =>
          pc := Setup;
        case Interrupt =>
          pc := Reading(0);
        case Enter =>
          pc := Testing;
        case Test =>
          pc := if nqueue == 0 then Suspended else Sending;
        case Fetch =>
          pc := Copying(dg[iget].len, dg[iget].from);
        case Copy =>
          echoed := echoed + [Datagram(dg[iget].data[..pc.len], pc.from)];
          pc := Stepping;
        case StepOn =>
          iget := iget + 1;
          pc := Wrapping;
        case Wrap =>
          if iget >= QSIZE {
            iget := 0;
          }
          pc := Blocking;
        case Block =>
          pc := Counting;
        case CountDown =>
          nqueue := nqueue - 1;
          pc := Testing;
      }
    }

    /** A step of the main loop, or the handler wherever the signal is let in. */
    method Step(e: Event)
      requires Valid() && Enabled(Now(), e)
      modifies this, dg, cntread
      ensures Valid() && Now() == Next(old(Now()), e)
    {
      StepKeeps(Now(), e);
      QueueBounds(Now(), e);
      hide Inv, Absorb;
      if e.Handle? {
        SigIo(e.batch);
        if pc == Suspended {
          pc := Testing;
        }
      } else if e.Arrive? {
        ReadOn(e.datagram);
      } else {
        MainStep(e);
      }
    }
  }

  lemma QueueBounds(s: State, e: Event)
    requires Inv(s) && Enabled(s, e)
    ensures 0 <= s.nqueue < QSIZE && Ready(s)
  {
  }
}
