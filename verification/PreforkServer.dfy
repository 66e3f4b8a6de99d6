/** The preforked server that passes descriptors: the parent accepts every connection and sends its descriptor over a
    stream pipe to an idle child, which sends a byte back when it has served it. */
module PreforkServer {
  import Text

  /** A connection: its descriptor, and which one it is, counting from 0 in the order they were accepted. */
  datatype Conn = Conn(fd: int, at: nat)

  /** Where the parent is. `ready` is what select reported of the children's pipes, `nsel` how many of the reported
      descriptors are still to be dealt with. */
  datatype Parent =
    | Selecting
    | Accepting(ready: seq<bool>, nsel: int)
    | Passing(conn: Conn, to: nat, ready: seq<bool>, nsel: int)
    | Scanning(i: nat, ready: seq<bool>, nsel: int)
    | NoneAvailable

  /** A child with its entry in the parent's table: the status and the count; the descriptors on their way to it, the
      connection it is serving, and the bytes on their way back. */
  datatype Child = Child(status: int, count: nat, incoming: seq<Conn>, serving: seq<Conn>, bytes: nat)

  datatype Event =
    | Select(listen: bool, ready: seq<bool>)
    | Accept(fd: int)
    | Pass
    | Scan
    | Receive(i: nat)
    | Finish(i: nat)

  /** `accepted` are the connections accepted so far, and `chosen` the children they were given to. */
  datatype State = State(parent: Parent, navail: int, children: seq<Child>, accepted: seq<int>, chosen: seq<nat>)

  const IDLE := Child(0, 0, [], [], 0)

  function Start(nchildren: nat): State
  {
    State(Selecting, nchildren, seq(nchildren, _ => IDLE), [], [])
  }

  /** How many of the descriptors from the `i`-th on are set. */
  function ReadyFrom(ready: seq<bool>, i: nat): nat
    decreases |ready| - i
  {
    if i >= |ready| then 0 else (if ready[i] then 1 else 0) + ReadyFrom(ready, i + 1)
  }

  /** The first child with status 0, or the number of children. */
  function FirstFree(children: seq<Child>): (i: nat)
    ensures i <= |children| && forall k :: 0 <= k < i ==> children[k].status != 0
    ensures i < |children| ==> children[i].status == 0
  {
    if children == [] || children[0].status == 0 then 0 else 1 + FirstFree(children[1..])
  }

  predicate Enabled(s: State, e: Event)
  {
    match e
    // the listening descriptor is asked about only if a child is available
    case Select(listen, ready) =>
      && s.parent == Selecting && |ready| == |s.children|
      && (listen ==> s.navail > 0)
      && (forall i :: 0 <= i < |ready| && ready[i] ==> s.children[i].bytes > 0)
      && (listen || ReadyFrom(ready, 0) > 0)
    case Accept(_) => s.parent.Accepting?
    case Pass => s.parent.Passing? && s.parent.to < |s.children|
    case Scan =>
      && s.parent.Scanning? && s.parent.i <= |s.children| == |s.parent.ready|
      && (s.parent.i < |s.children| && s.parent.ready[s.parent.i] ==> s.children[s.parent.i].bytes > 0)
    case Receive(i) => i < |s.children| && s.children[i].serving == [] && s.children[i].incoming != []
    case Finish(i) => i < |s.children| && s.children[i].serving != []
  }

  /** After one more of select's descriptors is dealt with. */
  function Onward(i: nat, ready: seq<bool>, nsel: int): Parent
  {
    if nsel == 0 then Selecting else Scanning(i, ready, nsel)
  }

  function Next(s: State, e: Event): State
    requires Enabled(s, e)
  {
    match e
    case Select(listen, ready) =>
      var nsel := ReadyFrom(ready, 0) + if listen then 1 else 0;
      s.(parent := if listen then Accepting(ready, nsel) else Scanning(0, ready, nsel))
    case Accept(fd) =>
      var i := FirstFree(s.children);
      if i == |s.children| then s.(parent := NoneAvailable)
      else
        s.(parent := Passing(Conn(fd, |s.accepted|), i, s.parent.ready, s.parent.nsel), navail := s.navail - 1,
           children := s.children[i := s.children[i].(status := 1, count := s.children[i].count + 1)],
           accepted := s.accepted + [fd], chosen := s.chosen + [i])
    case Pass =>
      var c := s.children[s.parent.to];
      s.(parent := Onward(0, s.parent.ready, s.parent.nsel - 1),
         children := s.children[s.parent.to := c.(incoming := c.incoming + [s.parent.conn])])
    case Scan =>
      var i := s.parent.i;
      if i == |s.children| then s.(parent := Selecting)
      else if !s.parent.ready[i] then s.(parent := Scanning(i + 1, s.parent.ready, s.parent.nsel))
      else
        s.(parent := Onward(i + 1, s.parent.ready, s.parent.nsel - 1), navail := s.navail + 1,
           children := s.children[i := s.children[i].(status := 0, bytes := s.children[i].bytes - 1)])
    case Receive(i) =>
      var c := s.children[i];
      s.(children := s.children[i := c.(incoming := c.incoming[1..], serving := [c.incoming[0]])])
    case Finish(i) =>
      var c := s.children[i];
      s.(children := s.children[i := c.(serving := [], bytes := c.bytes + 1)])
  }

  /** All the states of a run, from the start of the program on. */
  ghost predicate IsRun(states: seq<State>, events: seq<Event>)
  {
    && |states| == |events| + 1 && states[0] == Start(|states[0].children|)
    && forall k :: 0 <= k < |events| ==> Enabled(states[k], events[k]) && states[k + 1] == Next(states[k], events[k])
  }

  // ----- the invariant

  function Free(children: seq<Child>): nat
  {
    if children == [] then 0
    else Free(children[..|children| - 1]) + if children[|children| - 1].status == 0 then 1 else 0
  }

  /** The parent holds the connection of child `i`, marked but not passed on yet. */
  predicate Held(s: State, i: nat) { s.parent.Passing? && s.parent.to == i }

  /** A child is busy in the table exactly when it has a connection on the way, is serving one, or has sent a byte that
      the parent has not read; and never more than one of these. */
  ghost predicate Tracks(s: State)
  {
    forall i :: 0 <= i < |s.children| ==>
      var c := s.children[i];
      c.status == (if Held(s, i) then 1 else 0) + |c.incoming| + |c.serving| + c.bytes <= 1
  }

  /** The reads that select has promised not to block, from the `i`-th child on. */
  ghost predicate BytesWait(children: seq<Child>, ready: seq<bool>, i: nat)
  {
    |ready| == |children| && forall k :: i <= k < |ready| && ready[k] ==> children[k].bytes > 0
  }

  ghost predicate ParentOk(s: State)
  {
    && s.navail == Free(s.children)
    && match s.parent
       case Selecting => true
       case Accepting(ready, nsel) =>
         s.navail > 0 && nsel == 1 + ReadyFrom(ready, 0) && BytesWait(s.children, ready, 0)
       case Passing(conn, to, ready, nsel) =>
         to < |s.children| && nsel == 1 + ReadyFrom(ready, 0) && BytesWait(s.children, ready, 0)
       case Scanning(i, ready, nsel) =>
         i <= |s.children| && nsel == ReadyFrom(ready, i) > 0 && BytesWait(s.children, ready, i)
       case NoneAvailable => false
  }

  predicate Goes(s: State, i: nat, conn: Conn)
  {
    conn.at < |s.accepted| == |s.chosen| && s.accepted[conn.at] == conn.fd && s.chosen[conn.at] == i
  }

  /** Every connection is where it was sent. */
  ghost predicate Given(s: State)
  {
    && |s.chosen| == |s.accepted|
    && (s.parent.Passing? ==> Goes(s, s.parent.to, s.parent.conn))
    && forall i :: 0 <= i < |s.children| ==>
         && (forall k :: 0 <= k < |s.children[i].incoming| ==> Goes(s, i, s.children[i].incoming[k]))
         && (forall k :: 0 <= k < |s.children[i].serving| ==> Goes(s, i, s.children[i].serving[k]))
  }

  function ChosenCount(chosen: seq<nat>, i: nat): nat
  {
    if chosen == [] then 0
    else ChosenCount(chosen[..|chosen| - 1], i) + if chosen[|chosen| - 1] == i then 1 else 0
  }

  ghost predicate Counted(s: State)
  {
    forall i :: 0 <= i < |s.children| ==> s.children[i].count == ChosenCount(s.chosen, i)
  }

  ghost predicate Inv(s: State)
  {
    Tracks(s) && ParentOk(s) && Given(s) && Counted(s)
  }

  // ----- every step keeps it

  lemma {:induction false} FreeUpdate(children: seq<Child>, i: nat, c: Child)
    requires i < |children|
    ensures Free(children[i := c]) + (if children[i].status == 0 then 1 else 0)
         == Free(children) + if c.status == 0 then 1 else 0
  {
    var n := |children| - 1;
    if i < n {
      FreeUpdate(children[..n], i, c);
      assert children[i := c][..n] == children[..n][i := c];
    } else {
      assert children[i := c][..n] == children[..n];
    }
  }

  lemma {:induction false} FreeNone(children: seq<Child>)
    ensures Free(children) == 0 <==> forall i :: 0 <= i < |children| ==> children[i].status != 0
  {
    if children != [] {
      FreeNone(children[..|children| - 1]);
      assert children == children[..|children| - 1] + [children[|children| - 1]];
    }
  }

  /** The parent never finds all children busy when it has accepted a connection. */
  lemma SomeChildFree(s: State)
    requires ParentOk(s) && s.parent.Accepting?
    ensures FirstFree(s.children) < |s.children|
  {
    FreeNone(s.children);
  }

  lemma TracksKept(s: State, e: Event)
    requires Tracks(s) && ParentOk(s) && Enabled(s, e)
    ensures Tracks(Next(s, e))
  {
    if e.Accept? {
      SomeChildFree(s);
    }
    hide Free, FirstFree, Given, Counted;
  }

  /** A change to one child that takes no byte from it keeps the promises of select. */
  lemma BytesStillWait(children: seq<Child>, ready: seq<bool>, i: nat, k: nat, c: Child)
    requires BytesWait(children, ready, i) && k < |children| && c.bytes >= children[k].bytes
    ensures BytesWait(children[k := c], ready, i)
  {
  }

  lemma ParentKeptByParent(s: State, e: Event)
    requires ParentOk(s) && Enabled(s, e) && (e.Select? || e.Accept? || e.Pass?)
    ensures ParentOk(Next(s, e))
  {
    if e.Accept? {
      SomeChildFree(s);
      var i := FirstFree(s.children);
      FreeUpdate(s.children, i, Next(s, e).children[i]);
      BytesStillWait(s.children, s.parent.ready, 0, i, Next(s, e).children[i]);
      hide Free, FirstFree, ReadyFrom, BytesWait;
    } else if e.Pass? {
      FreeUpdate(s.children, s.parent.to, Next(s, e).children[s.parent.to]);
      BytesStillWait(s.children, s.parent.ready, 0, s.parent.to, Next(s, e).children[s.parent.to]);
      hide Free, FirstFree, ReadyFrom, BytesWait;
    } else {
      hide Free, FirstFree, ReadyFrom;
    }
  }

  lemma ParentKeptByScan(s: State)
    requires ParentOk(s) && Tracks(s) && Enabled(s, Scan)
    ensures ParentOk(Next(s, Scan))
  {
    var i := s.parent.i;
    assert ReadyFrom(s.parent.ready, i) ==
      if i < |s.parent.ready| then (if s.parent.ready[i] then 1 else 0) + ReadyFrom(s.parent.ready, i + 1) else 0;
    if i < |s.children| {
      FreeUpdate(s.children, i, Next(s, Scan).children[i]);
    }
    hide Free, FirstFree, ReadyFrom;
  }

  lemma ParentKeptByChild(s: State, e: Event)
    requires ParentOk(s) && Enabled(s, e) && (e.Receive? || e.Finish?)
    ensures ParentOk(Next(s, e))
  {
    var i, c := e.i, Next(s, e).children[e.i];
    FreeUpdate(s.children, i, c);
    if !s.parent.Selecting? && !s.parent.NoneAvailable? {
      BytesStillWait(s.children, s.parent.ready, if s.parent.Scanning? then s.parent.i else 0, i, c);
    }
    hide Free, FirstFree, ReadyFrom, BytesWait;
  }

  lemma ParentKept(s: State, e: Event)
    requires ParentOk(s) && Tracks(s) && Enabled(s, e)
    ensures ParentOk(Next(s, e))
  {
    match e
    case Scan => ParentKeptByScan(s);
    case Receive(_) => ParentKeptByChild(s, e);
    case Finish(_) => ParentKeptByChild(s, e);
    case _ => ParentKeptByParent(s, e);
  }

  lemma GivenByParent(s: State, e: Event)
    requires Given(s) && Enabled(s, e) && !e.Receive? && !e.Finish?
    ensures Given(Next(s, e))
  {
    hide Free, FirstFree, Counted, Tracks, ReadyFrom, Held;
  }

  lemma GivenByChild(s: State, e: Event)
    requires Given(s) && Enabled(s, e) && (e.Receive? || e.Finish?)
    ensures Given(Next(s, e))
  {
    hide Free, FirstFree, Counted, Tracks, ReadyFrom, Held;
  }

  lemma GivenKept(s: State, e: Event)
    requires Given(s) && Enabled(s, e)
    ensures Given(Next(s, e))
  {
    if e.Receive? || e.Finish? {
      GivenByChild(s, e);
    } else {
      GivenByParent(s, e);
    }
    hide Given, Next, Enabled;
  }

  lemma ChosenSnoc(chosen: seq<nat>, at: nat, i: nat)
    ensures ChosenCount(chosen + [at], i) == ChosenCount(chosen, i) + if i == at then 1 else 0
  {
    assert (chosen + [at])[..|chosen|] == chosen;
  }

  lemma CountsKept(s: State, e: Event, i: nat)
    requires Enabled(s, e) && i < |s.children|
    ensures var t := Next(s, e);
            && |t.children| == |s.children|
            && t.children[i].count - s.children[i].count == ChosenCount(t.chosen, i) - ChosenCount(s.chosen, i)
  {
    if e.Accept? {
      ChosenSnoc(s.chosen, FirstFree(s.children), i);
    }
    hide ChosenCount, FirstFree, ReadyFrom;
  }

  lemma CountedKept(s: State, e: Event)
    requires Counted(s) && Enabled(s, e)
    ensures Counted(Next(s, e))
  {
    forall i | 0 <= i < |s.children| ensures Next(s, e).children[i].count == ChosenCount(Next(s, e).chosen, i) {
      CountsKept(s, e, i);
    }
    assert |Next(s, e).children| == |s.children|;
    hide ChosenCount, FirstFree, ReadyFrom, Next, Enabled;
  }

  lemma StepKeeps(s: State, e: Event)
    requires Inv(s) && Enabled(s, e)
    ensures Inv(Next(s, e))
  {
    TracksKept(s, e);
    ParentKept(s, e);
    GivenKept(s, e);
    CountedKept(s, e);
    hide Next, Tracks, ParentOk, Given, Counted;
  }

  lemma {:induction false} AllIdle(n: nat)
    ensures Free(seq(n, _ => IDLE)) == n
  {
    if n > 0 {
      AllIdle(n - 1);
      assert seq(n, _ => IDLE)[..n - 1] == seq(n - 1, _ => IDLE);
    }
  }

  lemma StartHolds(nchildren: nat)
    ensures Inv(Start(nchildren))
  {
    AllIdle(nchildren);
  }

  lemma {:induction false} RunKeeps(states: seq<State>, events: seq<Event>, k: nat)
    requires IsRun(states, events) && k < |states|
    ensures Inv(states[k])
  {
    if k > 0 {
      RunKeeps(states, events, k - 1);
      StepKeeps(states[k - 1], events[k - 1]);
      hide Inv, Next, Enabled;
    } else {
      StartHolds(|states[0].children|);
    }
  }

  // ----- what it means

  /** The parent never exits for want of a child: in no run does it find them all busy after an accept. */
  lemma NeverWithoutChild(states: seq<State>, events: seq<Event>, k: nat)
    requires IsRun(states, events) && k < |states|
    ensures states[k].parent != NoneAvailable
    ensures states[k].parent.Accepting? ==> FirstFree(states[k].children) < |states[k].children|
  {
    RunKeeps(states, events, k);
    if states[k].parent.Accepting? {
      SomeChildFree(states[k]);
    }
  }

  /** The count of available children is exact, and so is the table: status 1 means that the connection is on the way,
      being served, or over with its byte unread, and just one of these; status 0 means none. */
  lemma TableIsTrue(s: State, i: nat)
    requires Inv(s) && i < |s.children|
    ensures var c := s.children[i];
            var onTheWay, served, over := Held(s, i) || c.incoming != [], c.serving != [], c.bytes > 0;
            && (c.status == 0 || c.status == 1)
            && (c.status == 0 <==> !onTheWay && !served && !over)
            && !(onTheWay && served) && !(onTheWay && over) && !(served && over)
    ensures s.navail == Free(s.children)
  {
  }

  /** Connection `at` is with child `i`: being served, on the way, or still held by the parent for it. */
  predicate With(s: State, i: nat, at: nat)
  {
    i < |s.children| &&
    var c := s.children[i];
    || (exists k :: 0 <= k < |c.serving| && c.serving[k].at == at)
    || (exists k :: 0 <= k < |c.incoming| && c.incoming[k].at == at)
    || (Held(s, i) && s.parent.conn.at == at)
  }

  /** No connection is with two children, wherever it is, and each is with the child that was chosen for it, with its
      own descriptor. */
  lemma NoSharing(s: State, i: nat, j: nat, at: nat)
    requires Inv(s) && With(s, i, at)
    ensures at < |s.accepted| == |s.chosen| && s.chosen[at] == i
    ensures With(s, j, at) ==> i == j
    ensures forall k :: 0 <= k < |s.children[i].serving| ==> Goes(s, i, s.children[i].serving[k])
    ensures forall k :: 0 <= k < |s.children[i].incoming| ==> Goes(s, i, s.children[i].incoming[k])
  {
    hide Free, FirstFree, Counted, ReadyFrom;
  }

  /** The descriptors that accept gave, in order. */
  function Descriptors(events: seq<Event>): seq<int>
  {
    if events == [] then []
    else
      var e := events[|events| - 1];
      Descriptors(events[..|events| - 1]) + if e.Accept? then [e.fd] else []
  }

  lemma AcceptedKept(s: State, e: Event)
    requires Inv(s) && Enabled(s, e)
    ensures Next(s, e).accepted == s.accepted + if e.Accept? then [e.fd] else []
  {
    if e.Accept? {
      GivenToFirst(s, e.fd);
    }
    hide Inv, FirstFree, ReadyFrom;
  }

  lemma StepOfRun(states: seq<State>, events: seq<Event>, k: nat)
    requires IsRun(states, events) && k < |events|
    ensures k + 1 < |states| && Enabled(states[k], events[k]) && states[k + 1] == Next(states[k], events[k])
  {
    hide Enabled, Next;
  }

  lemma LastDescriptor(events: seq<Event>, n: nat)
    requires 0 < n <= |events|
    ensures var e := events[n - 1];
            Descriptors(events[..n]) == Descriptors(events[..n - 1]) + if e.Accept? then [e.fd] else []
  {
    assert events[..n][..n - 1] == events[..n - 1];
  }

  /** In every run the connections on record are those that accept gave, in order. */
  lemma {:induction false} AcceptedInOrder(states: seq<State>, events: seq<Event>, n: nat)
    requires IsRun(states, events) && n < |states|
    ensures states[n].accepted == Descriptors(events[..n])
  {
    if n == 0 {
      assert events[..0] == [];
    } else {
      hide Next, Enabled, Inv, Descriptors;
      AcceptedInOrder(states, events, n - 1);
      RunKeeps(states, events, n - 1);
      StepOfRun(states, events, n - 1);
      AcceptedKept(states[n - 1], events[n - 1]);
      LastDescriptor(events, n);
    }
  }

  /** A new connection is given to the first child whose status is 0; there is one. */
  lemma GivenToFirst(s: State, fd: int)
    requires Inv(s) && Enabled(s, Accept(fd))
    ensures var t := Next(s, Accept(fd));
            && t.parent.Passing? && t.accepted == s.accepted + [fd]
            && t.parent.conn == Conn(fd, |s.accepted|) && t.chosen == s.chosen + [t.parent.to]
            && t.parent.to < |s.children| && s.children[t.parent.to].status == 0
            && (forall k :: 0 <= k < t.parent.to ==> s.children[k].status != 0)
            && t.children[t.parent.to].status == 1
  {
    SomeChildFree(s);
    hide Tracks, Given, Counted, Free, ReadyFrom, BytesWait;
  }

  /** Connection `at` has been accepted and not received yet. */
  predicate OnTheWay(s: State, at: nat)
  {
    || (s.parent.Passing? && s.parent.conn.at == at)
    || exists i, k :: 0 <= i < |s.children| && 0 <= k < |s.children[i].incoming| && s.children[i].incoming[k].at == at
  }

  lemma NothingElseIncoming(s: State, i: nat)
    requires Inv(s) && Enabled(s, Receive(i))
    ensures var c := s.children[i].incoming[0];
            |s.children[i].incoming| == 1 && !Held(s, i) && Goes(s, i, c)
    ensures forall j, k :: 0 <= j < |s.children| && j != i && 0 <= k < |s.children[j].incoming| ==>
              s.children[j].incoming[k].at != s.children[i].incoming[0].at
    ensures s.parent.Passing? ==> s.parent.conn.at != s.children[i].incoming[0].at
  {
    hide Free, FirstFree, Counted, ReadyFrom, BytesWait;
  }

  lemma NotOnTheWay(s: State, i: nat)
    requires Inv(s) && Enabled(s, Receive(i))
    ensures !OnTheWay(Next(s, Receive(i)), s.children[i].incoming[0].at)
  {
    hide Free, FirstFree, Counted, ReadyFrom, BytesWait, Inv;
    NothingElseIncoming(s, i);
  }

  lemma StaysReceived(s: State, e: Event, at: nat)
    requires Enabled(s, e) && at < |s.accepted| && !OnTheWay(s, at)
    ensures at < |Next(s, e).accepted| && !OnTheWay(Next(s, e), at)
    ensures s.accepted <= Next(s, e).accepted && s.chosen <= Next(s, e).chosen
  {
    hide FirstFree, ReadyFrom;
    if e.Receive? {
      assert forall k :: 0 <= k < |s.children[e.i].incoming| - 1 ==>
          s.children[e.i].incoming[1..][k] == s.children[e.i].incoming[k + 1];
    }
  }

  lemma {:induction false} ReceivedForGood(states: seq<State>, events: seq<Event>, m: nat, n: nat, at: nat)
    requires IsRun(states, events) && m <= n < |states| && at < |states[m].accepted| && !OnTheWay(states[m], at)
    ensures at < |states[n].accepted| && !OnTheWay(states[n], at)
    ensures states[m].accepted <= states[n].accepted && states[m].chosen <= states[n].chosen
    decreases n
  {
    if m < n {
      ReceivedForGood(states, events, m, n - 1, at);
      StaysReceived(states[n - 1], events[n - 1], at);
      hide OnTheWay, Next, Enabled;
    }
  }

  /** In every run a connection is received once, by the child that was chosen for it then and is on record for it ever
      after, and with its own descriptor. */
  lemma ReceivedOnce(states: seq<State>, events: seq<Event>, m: nat, n: nat)
    requires IsRun(states, events) && m < |events| && m < n < |states| && events[m].Receive?
    ensures Enabled(states[m], events[m])
    ensures var i, c := events[m].i, states[m].children[events[m].i].incoming[0];
            && c.at < |states[n].accepted| && c.at < |states[n].chosen|
            && states[n].chosen[c.at] == i && states[n].accepted[c.at] == c.fd
            && (n < |events| && events[n].Receive? ==>
                  && Enabled(states[n], events[n])
                  && states[n].children[events[n].i].incoming[0].at != c.at)
  {
    var s, e := states[m], events[m];
    assert Enabled(s, e) && states[m + 1] == Next(s, e);
    RunKeeps(states, events, m);
    var c := s.children[e.i].incoming[0];
    NothingElseIncoming(s, e.i);
    NotOnTheWay(s, e.i);
    assert Next(s, e).accepted == s.accepted && Next(s, e).chosen == s.chosen;
    hide OnTheWay, Inv, Next;
    ReceivedForGood(states, events, m + 1, n, c.at);
    if n < |events| && events[n].Receive? {
      assert Enabled(states[n], events[n]);
      Incoming(states[n], events[n].i);
    }
  }

  lemma Incoming(s: State, i: nat)
    requires Enabled(s, Receive(i))
    ensures OnTheWay(s, s.children[i].incoming[0].at)
  {
  }

  /** The count that select returned is used up exactly when the last reported pipe has been read: the scan never runs
      to the end of the table, and never leaves a reported child behind. */
  lemma ScanStopsInTime(s: State)
    requires Inv(s) && s.parent.Scanning?
    ensures s.parent.i < |s.children| && Enabled(s, Scan)
    ensures Next(s, Scan).parent == Selecting <==>
            forall k :: s.parent.i < k < |s.children| ==> !s.parent.ready[k]
  {
    NoneReady(s.parent.ready, s.parent.i + 1);
    hide Free, FirstFree, Tracks, Given, Counted;
  }

  lemma {:induction false} NoneReady(ready: seq<bool>, i: nat)
    ensures ReadyFrom(ready, i) == 0 <==> forall k :: i <= k < |ready| ==> !ready[k]
    decreases |ready| - i
  {
    if i < |ready| {
      NoneReady(ready, i + 1);
    }
  }

  /** With no child available the parent does not wait for ever: some child has a step to take, or a byte is there to
      read. */
  lemma NeverStuck(s: State)
    requires Inv(s) && s.parent == Selecting && s.navail <= 0 && s.children != []
    ensures Enabled(s, Receive(0)) || Enabled(s, Finish(0)) ||
            exists ready: seq<bool> :: Enabled(s, Select(false, ready)) && ready[0]
  {
    FreeNone(s.children);
    assert s.children[0].status != 0;
    var c := s.children[0];
    if c.incoming == [] && c.serving == [] {
      var ready := seq(|s.children|, i => i == 0);
      NoneReady(ready, 0);
      assert ready[0] && Enabled(s, Select(false, ready));
    }
  }

  // ----- the server comes to rest

  /** The steps that a child's part has still to go: to the child, through it, and back to the parent. */
  function StepsOf(c: Child): nat { 3 * |c.incoming| + 2 * |c.serving| + c.bytes }

  function StepsOfAll(children: seq<Child>): nat
  {
    if children == [] then 0 else StepsOfAll(children[..|children| - 1]) + StepsOf(children[|children| - 1])
  }

  /** The steps of the children that are left once those that select has reported are taken. */
  function Rounds(s: State): int
  {
    var steps := StepsOfAll(s.children);
    match s.parent
    case Selecting => steps
    case Accepting(_, nsel) => steps + 5 - nsel
    case Passing(_, _, _, nsel) => steps + 5 - nsel
    case Scanning(_, _, nsel) => steps - nsel
    case NoneAvailable => 0
  }

  /** How far the parent is from its next select. */
  function Ahead(s: State): int
  {
    match s.parent
    case Accepting(_, _) => |s.children| + 2
    case Passing(_, _, _, _) => |s.children| + 1
    case Scanning(i, _, _) => |s.children| - i
    case _ => 0
  }

  /** A bound on the steps that are left: for every one of the children a scan of the table. */
  function Work(s: State): int { Product(|s.children| + 1, Rounds(s)) + Ahead(s) }

  function Product(n: nat, k: int): (r: int)
    ensures k >= 0 ==> r >= 0
  {
    n * k
  }

  lemma {:induction false} StepsUpdate(children: seq<Child>, i: nat, c: Child)
    requires i < |children|
    ensures StepsOfAll(children[i := c]) + StepsOf(children[i]) == StepsOfAll(children) + StepsOf(c)
  {
    var n := |children| - 1;
    if i < n {
      StepsUpdate(children[..n], i, c);
      assert children[i := c][..n] == children[..n][i := c];
    } else {
      assert children[i := c][..n] == children[..n];
    }
  }

  predicate FromOutside(e: Event) { e.Select? && e.listen }

  /** The bytes that select promised are there. */
  lemma {:induction false} PromisesCounted(children: seq<Child>, ready: seq<bool>, i: nat)
    requires BytesWait(children, ready, i)
    ensures ReadyFrom(ready, i) <= StepsOfAll(children)
    decreases |ready| - i
  {
    if i < |ready| {
      StepsUpdate(children, i, IDLE);
      PromisesCounted(children[i := IDLE], ready, i + 1);
    }
  }

  lemma WorkIsLeft(s: State)
    requires Inv(s)
    ensures Work(s) >= 0
  {
    hide Product, Rounds, Ahead, Inv;
    RoundsAreLeft(s);
  }

  lemma RoundsAreLeft(s: State)
    requires Inv(s)
    ensures Rounds(s) >= 0 && Ahead(s) >= 0
  {
    hide StepsOfAll, ReadyFrom, Tracks, Given, Counted, Free, BytesWait;
    match s.parent
    case Accepting(ready, _) => PromisesCounted(s.children, ready, 0);
    case Passing(_, _, ready, _) => PromisesCounted(s.children, ready, 0);
    case Scanning(i, ready, _) => PromisesCounted(s.children, ready, i);
    case _ =>
  }

  predicate Closer(s: State, t: State)
  {
    && |t.children| == |s.children|
    && ((Rounds(t) == Rounds(s) && Ahead(t) < Ahead(s)) ||
        (Rounds(t) < Rounds(s) && Ahead(t) <= Ahead(s) + |s.children|))
  }

  lemma CloserIsLess(s: State, t: State)
    requires Closer(s, t)
    ensures Work(t) < Work(s)
  {
    hide Rounds, Ahead;
    if Rounds(t) < Rounds(s) {
      OneRound(|s.children| + 1, Rounds(t), Rounds(s));
      hide Product;
    }
  }

  lemma {:induction false} OneRound(n: nat, j: int, k: int)
    requires j < k
    ensures Product(n, j) + n <= Product(n, k)
    decreases k - j
  {
    Text.TimesOneMore(n, j);
    if j + 1 < k {
      OneRound(n, j + 1, k);
    }
  }

  lemma AcceptGetsCloser(s: State, e: Event)
    requires Inv(s) && Enabled(s, e) && e.Accept?
    ensures Closer(s, Next(s, e))
  {
    SomeChildFree(s);
    var i := FirstFree(s.children);
    StepsUpdate(s.children, i, Next(s, e).children[i]);
    hide StepsOfAll, ReadyFrom, Tracks, Given, Counted, Free, FirstFree, BytesWait;
  }

  lemma PassGetsCloser(s: State)
    requires Inv(s) && Enabled(s, Pass)
    ensures Closer(s, Next(s, Pass))
  {
    StepsUpdate(s.children, s.parent.to, Next(s, Pass).children[s.parent.to]);
    hide StepsOfAll, ReadyFrom, Tracks, Given, Counted, Free, FirstFree, BytesWait;
  }

  lemma ScanGetsCloser(s: State)
    requires Inv(s) && Enabled(s, Scan)
    ensures Closer(s, Next(s, Scan))
  {
    ScanStopsInTime(s);
    StepsUpdate(s.children, s.parent.i, Next(s, Scan).children[s.parent.i]);
    hide StepsOfAll, ReadyFrom, Tracks, Given, Counted, Free, FirstFree, BytesWait;
  }

  lemma SelectGetsCloser(s: State, e: Event)
    requires Enabled(s, e) && e.Select? && !e.listen
    ensures Closer(s, Next(s, e))
  {
    hide StepsOfAll, ReadyFrom;
  }

  lemma ChildGetsCloser(s: State, e: Event)
    requires Inv(s) && Enabled(s, e) && (e.Receive? || e.Finish?)
    ensures Closer(s, Next(s, e))
  {
    TableIsTrue(s, e.i);
    StepsUpdate(s.children, e.i, Next(s, e).children[e.i]);
    hide StepsOfAll, ReadyFrom, Given, Counted, Free, FirstFree, BytesWait;
  }

  /** Every step but a new connection brings the server closer to rest. */
  lemma StepGetsCloser(s: State, e: Event)
    requires Inv(s) && Enabled(s, e) && !FromOutside(e)
    ensures Closer(s, Next(s, e))
  {
    match e
    case Select(_, _) => SelectGetsCloser(s, e);
    case Accept(_) => AcceptGetsCloser(s, e);
    case Pass => PassGetsCloser(s);
    case Scan => ScanGetsCloser(s);
    case _ => ChildGetsCloser(s, e);
  }

  /** Without new connections no run goes on for ever. */
  lemma {:induction false} ComesToRest(states: seq<State>, events: seq<Event>, m: nat, n: nat)
    requires IsRun(states, events) && m <= n < |states|
    requires forall k :: m <= k < n ==> !FromOutside(events[k])
    ensures n - m <= Work(states[m]) - Work(states[n]) <= Work(states[m])
    decreases n
  {
    RunKeeps(states, events, n);
    WorkIsLeft(states[n]);
    if m < n {
      ComesToRest(states, events, m, n - 1);
      RunKeeps(states, events, n - 1);
      StepOfRun(states, events, n - 1);
      var s, e := states[n - 1], events[n - 1];
      hide *;
      StepGetsCloser(s, e);
      CloserIsLess(s, states[n]);
    }
  }

  /** Nothing can happen but a new connection. */
  ghost predicate AtRest(s: State)
  {
    forall e :: Enabled(s, e) ==> FromOutside(e)
  }

  lemma ParentWaits(s: State)
    requires Inv(s) && AtRest(s)
    ensures s.parent == Selecting
  {
    assert !Enabled(s, Accept(0)) && !Enabled(s, Pass) && !Enabled(s, Scan);
    if s.parent.Scanning? {
      ScanStopsInTime(s);
    }
    hide Tracks, Given, Counted, Free, FirstFree, ReadyFrom;
  }

  /** A select that reports just the byte of child `i`. */
  lemma SelectOne(s: State, i: nat) returns (e: Event)
    requires Inv(s) && s.parent == Selecting && i < |s.children| && s.children[i].bytes > 0
    ensures Enabled(s, e) && !FromOutside(e)
  {
    var ready := seq(|s.children|, j => j == i);
    NoneReady(ready, 0);
    assert ready[i];
    e := Select(false, ready);
    hide Given, Counted, Free, ReadyFrom;
  }

  lemma ChildWaits(s: State, i: nat)
    requires Inv(s) && AtRest(s) && i < |s.children| && s.parent == Selecting
    ensures var c := s.children[i]; c.status == 0 && c.incoming == [] && c.serving == [] && c.bytes == 0
  {
    assert !Enabled(s, Receive(i)) && !Enabled(s, Finish(i));
    if s.children[i].bytes > 0 {
      var _ := SelectOne(s, i);
    }
    hide Given, Counted, Free, FirstFree, ReadyFrom;
  }

  lemma {:induction false} AllFree(children: seq<Child>)
    requires forall i :: 0 <= i < |children| ==> children[i].status == 0
    ensures Free(children) == |children|
  {
    if children != [] {
      AllFree(children[..|children| - 1]);
    }
  }

  /** At rest every child is available, and has nothing left to do. */
  lemma AllIdleAtRest(s: State, i: nat)
    requires Inv(s) && AtRest(s) && i < |s.children|
    ensures s.parent == Selecting && s.navail == |s.children|
    ensures var c := s.children[i]; c.status == 0 && c.incoming == [] && c.serving == [] && c.bytes == 0
  {
    hide AtRest, Given, Counted, Tracks, Free;
    ParentWaits(s);
    forall j | 0 <= j < |s.children| ensures s.children[j].status == 0 {
      ChildWaits(s, j);
    }
    ChildWaits(s, i);
    AllFree(s.children);
  }

  /** How often an event is among the events. */
  function Times(events: seq<Event>, e: Event): nat
  {
    if events == [] then 0
    else Times(events[..|events| - 1], e) + if events[|events| - 1] == e then 1 else 0
  }

  /** How often select reported a new connection. */
  function Listens(events: seq<Event>): nat
  {
    if events == [] then 0
    else Listens(events[..|events| - 1]) + if FromOutside(events[|events| - 1]) then 1 else 0
  }

  lemma ServedKept(s: State, e: Event, i: nat)
    requires Inv(s) && Enabled(s, e) && i < |s.children|
    ensures |Next(s, e).children| == |s.children|
    ensures var t, c, d := Next(s, e), s.children[i], Next(s, e).children[i];
            && d.count - |d.incoming| - (if Held(t, i) then 1 else 0)
            == c.count - |c.incoming| - (if Held(s, i) then 1 else 0) + (if e == Receive(i) then 1 else 0)
            && |d.serving| == |c.serving| + (if e == Receive(i) then 1 else 0) - (if e == Finish(i) then 1 else 0)
  {
    if e.Accept? {
      SomeChildFree(s);
    }
    hide Given, Counted, Free, FirstFree, ReadyFrom, BytesWait;
  }

  lemma AcceptsKept(s: State, e: Event)
    requires Inv(s) && Enabled(s, e)
    ensures var t := Next(s, e);
            |t.accepted| + (if t.parent.Accepting? then 1 else 0)
            == |s.accepted| + (if s.parent.Accepting? then 1 else 0) + if FromOutside(e) then 1 else 0
  {
    if e.Accept? {
      SomeChildFree(s);
    }
    hide Tracks, Given, Counted, Free, FirstFree, ReadyFrom, BytesWait;
  }

  /** In every run: every connection that select reported is accepted; those that a child was counted for it has
      received, but for the one on the way to it; and those it has served, but for the one it is serving. */
  lemma {:induction false} ServesAll(states: seq<State>, events: seq<Event>, n: nat, i: nat)
    requires IsRun(states, events) && n < |states| && i < |states[0].children|
    ensures |states[n].children| == |states[0].children|
    ensures var s, c, past := states[n], states[n].children[i], events[..n];
            && |s.accepted| + (if s.parent.Accepting? then 1 else 0) == Listens(past)
            && Times(past, Receive(i)) == c.count - |c.incoming| - (if Held(s, i) then 1 else 0)
            && Times(past, Finish(i)) == Times(past, Receive(i)) - |c.serving|
  {
    if n == 0 {
      assert events[..0] == [];
    } else {
      ServesAll(states, events, n - 1, i);
      RunKeeps(states, events, n - 1);
      var s, e := states[n - 1], events[n - 1];
      assert Enabled(s, e) && states[n] == Next(s, e) && events[..n][..n - 1] == events[..n - 1];
      hide Inv, Next, Enabled, IsRun, Held, FromOutside;
      ServedKept(s, e, i);
      AcceptsKept(s, e);
    }
  }

  // ----- the program

  class Server {
    var parent: Parent
    var navail: int
    const children: array<Child>
    /** A record of the run. */
    var accepted: seq<int>
    var chosen: seq<nat>

    ghost function Now(): State
      reads this, children
    {
      State(parent, navail, children[..], accepted, chosen)
    }

    ghost predicate Valid()
      reads this, children
    {
      Inv(Now())
    }

    constructor (nchildren: nat)
      ensures Valid() && fresh(children) && Now() == Start(nchildren)
    {
      parent, navail, accepted, chosen := Selecting, nchildren, [], [];
      children := new Child[nchildren](_ => IDLE);
      new;
      assert children[..] == seq(nchildren, _ => IDLE);
      StartHolds(nchildren);
      hide Inv;
    }

    /** Accepts a connection and marks the first available child. */
    method AcceptOne(fd: int)
      requires Enabled(Now(), Accept(fd))
      modifies this, children
      ensures Now() == Next(old(Now()), Accept(fd))
    {
      var i := 0;
      while i < children.Length
        invariant i <= children.Length && forall k :: 0 <= k < i ==> children[k].status != 0
      {
        if children[i].status == 0 {
          break;
        }
        i := i + 1;
      }
      FirstFreeIs(children[..], i);
      hide FirstFree;
      if i == children.Length {
        parent := NoneAvailable;
        return;
      }
      var conn := Conn(fd, |accepted|);
      accepted, chosen := accepted + [fd], chosen + [i];
      children[i] := children[i].(status := 1, count := children[i].count + 1);
      navail := navail - 1;
      parent := Passing(conn, i, parent.ready, parent.nsel);
    }

    /** One turn of the loop that reads the bytes of the children that are ready again. */
    method ScanOne()
      requires Enabled(Now(), Scan)
      modifies this, children
      ensures Now() == Next(old(Now()), Scan)
    {
      var i, ready, nsel := parent.i, parent.ready, parent.nsel;
      if i == children.Length {
        parent := Selecting;
        return;
      }
      if ready[i] {
        children[i] := children[i].(status := 0, bytes := children[i].bytes - 1);
        navail := navail + 1;
        nsel := nsel - 1;
        if nsel == 0 {
          parent := Selecting;
          return;
        }
      }
      parent := Scanning(i + 1, ready, nsel);
    }

    /** Any step of the parent or of a child. */
    method Step(e: Event)
      requires Valid() && Enabled(Now(), e)
      modifies this, children
      ensures Valid() && Now() == Next(old(Now()), e)
    {
      StepKeeps(Now(), e);
      hide Inv, FirstFree, Free;
      match e {
        case Select(listen, ready) =>
          var nsel := ReadyFrom(ready, 0) + if listen then 1 else 0;
          parent := if listen then Accepting(ready, nsel) else Scanning(0, ready, nsel);
        case Accept(fd) => AcceptOne(fd);
        case Pass => PassOn();
        case Scan => ScanOne();
        case Receive(i) => ReceiveBy(i);
        case Finish(i) => FinishBy(i);
      }
    }

    method PassOn()
      requires Enabled(Now(), Pass)
      modifies this, children
      ensures Now() == Next(old(Now()), Pass)
    {
      var to, nsel := parent.to, parent.nsel - 1;
      children[to] := children[to].(incoming := children[to].incoming + [parent.conn]);
      parent := if nsel == 0 then Selecting else Scanning(0, parent.ready, nsel);
    }

    method ReceiveBy(i: nat)
      requires Enabled(Now(), Receive(i))
      modifies children
      ensures Now() == Next(old(Now()), Receive(i))
    {
      var c := children[i];
      children[i] := c.(incoming := c.incoming[1..], serving := [c.incoming[0]]);
    }

    method FinishBy(i: nat)
      requires Enabled(Now(), Finish(i))
      modifies children
      ensures Now() == Next(old(Now()), Finish(i))
    {
      var c := children[i];
      children[i] := c.(serving := [], bytes := c.bytes + 1);
    }
  }

  lemma {:induction false} FirstFreeIs(children: seq<Child>, i: nat)
    requires i <= |children| && (forall k :: 0 <= k < i ==> children[k].status != 0)
    requires i < |children| ==> children[i].status == 0
    ensures FirstFree(children) == i
  {
    if i > 0 {
      FirstFreeIs(children[1..], i - 1);
    }
  }
}
