/** The reliable datagram client: requests numbered and stamped, retransmitted on timeout, answered by an echoing
    server across a network that may lose, repeat and reorder datagrams. */
module DgSendRecv {
  import opened Rtt
  import opened Unp

  type Bytes = seq<int>

  const WRAP: int := 0x1_0000_0000
  const HEADER: int := 8

  /** One transmitted copy of a request: which call it belongs to, its header, when it left, and its data. */
  datatype Copy = Copy(call: nat, seqno: nat, ts: nat, sentAt: nat, data: Bytes)

  /** What can happen to a waiting client, each a while (in milliseconds) after the last event. A delivery is the
      server's echo of any copy sent so far, by its place in the log: losing, repeating and reordering datagrams is
      leaving places out, repeating them and naming them in any order. A datagram too short for a header leaves
      anything in the receive header. The alarm may also go off after a datagram is accepted but before the timer
      is stopped. */
  datatype Event =
    | Alarm(after: nat)
    | Delivery(after: nat, copy: nat, alarmFirst: bool)
    | Short(after: nat, length: nat, seqno: nat, ts: nat)

  /** Short datagrams are short of a header. */
  ghost predicate Possible(script: seq<Event>)
  {
    forall k :: 0 <= k < |script| && script[k].Short? ==> script[k].length < HEADER
  }

  lemma PossibleAt(script: seq<Event>, i: nat)
    requires Possible(script) && i < |script|
    ensures script[i].Short? ==> script[i].length < HEADER
  {
  }

  datatype Outcome =
    | Replied(data: Bytes, sample: nat)
    | GaveUp
    | Waiting

  /** As much of the request as fits the server's buffer of 4096 bytes, after the header, and the caller's. */
  predicate IsEchoOf(reply: Bytes, request: Bytes, inbytes: nat)
  {
    && reply <= request && |reply| <= inbytes && |reply| <= 4096 - 8
    && (|reply| == |request| || |reply| == inbytes || |reply| == 4096 - 8)
  }

  /** The part of a copy's data that the server's echo and the caller's buffer leave. */
  function Received(data: Bytes, inbytes: nat): (r: Bytes)
    ensures IsEchoOf(r, data, inbytes)
  {
    var echoed := if |data| <= MAXLINE - HEADER then data else data[..MAXLINE - HEADER];
    if |echoed| <= inbytes then echoed else echoed[..inbytes]
  }

  /** rtt_ts: milliseconds since the base second, in 32 bits. */
  function Stamp(now: nat, base: nat): (ts: nat)
    ensures 0 <= now - 1000 * base < 0x1_0000_0000 ==> ts == now - 1000 * base
    ensures ts < WRAP
  {
    (now - 1000 * base) % WRAP
  }

  /** The difference of two stamps, in 32 bits, is the time between them modulo 2^32. */
  lemma StampDifference(now: nat, then_: nat, base: nat)
    requires then_ <= now
    ensures (Stamp(now, base) - Stamp(then_, base)) % WRAP == (now - then_) % WRAP
  {
    var a, b := now - 1000 * base, then_ - 1000 * base;
    var q := a / WRAP - b / WRAP;
    assert now - then_ == q * WRAP + (a % WRAP - b % WRAP);
    ModuloShift(a % WRAP - b % WRAP, q);
  }

  lemma ModuloShift(x: int, q: int)
    ensures (x + q * WRAP) % WRAP == x % WRAP
  {
    var d := x / WRAP;
    assert x + q * WRAP == (d + q) * WRAP + x % WRAP;
  }

  /** Sequence numbers tell the calls apart as long as there are no more than 2^32. */
  lemma SameCall(c: nat, d: nat)
    requires 1 <= c <= d <= WRAP && c % WRAP == d % WRAP
    ensures c == d
  {
  }

  // ----- what the network and the timer decide

  /** The event brings the echo of a copy with sequence number `seqno`, when this call has sent `sent` copies after
      those of `before`. */
  predicate Matches(e: Event, before: seq<Copy>, seqno: nat, sent: nat)
  {
    && e.Delivery? && e.copy < |before| + sent
    && (e.copy < |before| ==> before[e.copy].seqno == seqno)
  }

  /** How many timeouts there are among the first `i` events; each but the fourth sends one more copy. */
  function Timeouts(script: seq<Event>, i: nat, before: seq<Copy>, seqno: nat): nat
    requires i <= |script|
  {
    if i == 0 then 0
    else
      var t, e := Timeouts(script, i - 1, before, seqno), script[i - 1];
      t + if e.Alarm? || (Matches(e, before, seqno, t + 1) && e.alarmFirst) then 1 else 0
  }

  /** The `i`-th event is an echo of this request that comes before the alarm. */
  predicate IsAnswer(script: seq<Event>, i: nat, before: seq<Copy>, seqno: nat)
    requires i < |script|
  {
    Matches(script[i], before, seqno, Timeouts(script, i, before, seqno) + 1) && !script[i].alarmFirst
  }

  ghost predicate NoAnswer(script: seq<Event>, i: nat, before: seq<Copy>, seqno: nat)
    requires i <= |script|
  {
    forall j :: 0 <= j < i ==> !IsAnswer(script, j, before, seqno)
  }

  function Elapsed(script: seq<Event>, i: nat): nat
    requires i <= |script|
  {
    if i == 0 then 0 else Elapsed(script, i - 1) + script[i - 1].after
  }

  /** The first answer is at event `i`, and there were fewer than four timeouts before it. */
  ghost predicate AnsweredAt(script: seq<Event>, i: nat, before: seq<Copy>, seqno: nat)
  {
    && i < |script| && IsAnswer(script, i, before, seqno)
    && NoAnswer(script, i, before, seqno) && Timeouts(script, i, before, seqno) <= RTT_MAXNREXMT
  }

  /** The fourth timeout is event `i - 1`, and no answer came before it. */
  ghost predicate ExpiredAt(script: seq<Event>, i: nat, before: seq<Copy>, seqno: nat)
  {
    && 0 < i <= |script| && NoAnswer(script, i, before, seqno)
    && Timeouts(script, i, before, seqno) == RTT_MAXNREXMT + 1
    && Timeouts(script, i - 1, before, seqno) == RTT_MAXNREXMT
  }

  /** Neither has happened when the script ends. */
  ghost predicate Undecided(script: seq<Event>, before: seq<Copy>, seqno: nat)
  {
    NoAnswer(script, |script|, before, seqno) && Timeouts(script, |script|, before, seqno) <= RTT_MAXNREXMT
  }

  /** What a call comes to once it has taken in `taken` events. */
  ghost predicate Decided(outcome: Outcome, hit: nat, taken: nat, script: seq<Event>, before: seq<Copy>, seqno: nat)
  {
    match outcome
    case Replied(_, _) => taken >= 1 && AnsweredAt(script, taken - 1, before, seqno) && hit == script[taken - 1].copy
    case GaveUp => ExpiredAt(script, taken, before, seqno)
    case Waiting => taken == |script| && Undecided(script, before, seqno)
  }

  /** Copy number `k` of a call leaves right after event `j - 1`, the `k`-th timeout; number 0, before any event. */
  ghost predicate Departs(script: seq<Event>, j: nat, k: nat, before: seq<Copy>, seqno: nat)
  {
    && j <= |script| && Timeouts(script, j, before, seqno) == k
    && (j > 0 ==> Timeouts(script, j - 1, before, seqno) < k)
  }

  /** How many copies have left after `i` events. */
  function Sent(script: seq<Event>, i: nat, before: seq<Copy>, seqno: nat): nat
    requires i <= |script|
  {
    var n := Timeouts(script, i, before, seqno);
    if n <= RTT_MAXNREXMT then n + 1 else RTT_MAXNREXMT + 1
  }

  ghost predicate Leaves(script: seq<Event>, k: nat, before: seq<Copy>, seqno: nat, elapsed: int)
  {
    exists j: nat :: Departs(script, j, k, before, seqno) && elapsed == Elapsed(script, j)
  }

  /** What the call has put in the log after `i` events: a copy for its beginning and one for each timeout but the
      fourth, each with the time of that event. */
  ghost predicate OnTime(log: seq<Copy>, start: nat, script: seq<Event>, i: nat, before: seq<Copy>, seqno: nat)
  {
    && i <= |script| && |log| == |before| + Sent(script, i, before, seqno)
    && forall k :: |before| <= k < |log| ==> Leaves(script, k - |before|, before, seqno, log[k].sentAt - start)
  }

  /** A call that began at `start` has come to `outcome` at `now`, as its script decides, and `log` has the copies that
      the script makes it send, at their times. */
  ghost predicate AsDecided(outcome: Outcome, hit: nat, taken: nat, script: seq<Event>, before: seq<Copy>, seqno: nat,
                            log: seq<Copy>, start: nat, now: nat)
  {
    && Decided(outcome, hit, taken, script, before, seqno) && OnTime(log, start, script, taken, before, seqno)
    && now == start + Elapsed(script, taken)
  }

  /** The sample is the time from the departure of copy number `k` to the end of the call. */
  ghost predicate Timed(sample: nat, k: nat, taken: nat, script: seq<Event>, before: seq<Copy>, seqno: nat)
  {
    taken <= |script| &&
    exists j: nat ::
      Departs(script, j, k, before, seqno) && sample == (Elapsed(script, taken) - Elapsed(script, j)) % WRAP
  }

  lemma {:induction false} TimeoutsGrow(script: seq<Event>, i: nat, j: nat, before: seq<Copy>, seqno: nat)
    requires i <= j <= |script|
    ensures Timeouts(script, i, before, seqno) <= Timeouts(script, j, before, seqno)
    decreases j
  {
    if i < j {
      TimeoutsGrow(script, i, j - 1, before, seqno);
    }
  }

  /** The script decides the outcome: a reply if an answer comes before the fourth timeout, giving up if the fourth
      timeout comes first, and otherwise waiting; and it decides which copy was answered and at which event. */
  lemma OneOutcome(script: seq<Event>, before: seq<Copy>, seqno: nat,
                   a: Outcome, h: nat, m: nat, b: Outcome, k: nat, n: nat)
    requires Decided(a, h, m, script, before, seqno) && Decided(b, k, n, script, before, seqno)
    ensures (a.Replied? <==> b.Replied?) && (a.GaveUp? <==> b.GaveUp?) && m == n
    ensures a.Replied? ==> h == k
    ensures a.Replied? <==> exists i: nat :: AnsweredAt(script, i, before, seqno)
    ensures a.GaveUp? <==> exists i: nat :: ExpiredAt(script, i, before, seqno)
    ensures a.Waiting? <==> Undecided(script, before, seqno)
  {
    forall i: nat, j: nat | AnsweredAt(script, i, before, seqno) && AnsweredAt(script, j, before, seqno)
      ensures i == j
    {
    }
    forall i: nat, j: nat | ExpiredAt(script, i, before, seqno) && ExpiredAt(script, j, before, seqno) ensures i == j {
      TimeoutsGrow(script, i, if i <= j - 1 then j - 1 else i, before, seqno);
      TimeoutsGrow(script, j, if j <= i - 1 then i - 1 else j, before, seqno);
    }
    forall i: nat, j: nat | AnsweredAt(script, i, before, seqno) && ExpiredAt(script, j, before, seqno) ensures false {
      if j <= i {
        TimeoutsGrow(script, j, i, before, seqno);
      }
    }
    forall i: nat | ExpiredAt(script, i, before, seqno) ensures !Undecided(script, before, seqno) {
      TimeoutsGrow(script, i, |script|, before, seqno);
    }
    hide Timeouts, Matches, IsAnswer, Elapsed;
  }

  /** And it decides when each copy leaves. */
  lemma OneDeparture(script: seq<Event>, before: seq<Copy>, seqno: nat, i: nat, j: nat, k: nat)
    requires Departs(script, i, k, before, seqno) && Departs(script, j, k, before, seqno)
    ensures i == j
  {
    if i < j {
      TimeoutsGrow(script, i, j - 1, before, seqno);
    } else if j < i {
      TimeoutsGrow(script, j, i - 1, before, seqno);
    }
    hide Timeouts;
  }

  /** The call is still waiting after `i` events. */
  ghost predicate Awaiting(script: seq<Event>, i: nat, before: seq<Copy>, seqno: nat, log: seq<Copy>, start: nat,
                           now: nat)
  {
    && OnTime(log, start, script, i, before, seqno) && NoAnswer(script, i, before, seqno)
    && Timeouts(script, i, before, seqno) <= RTT_MAXNREXMT && now == start + Elapsed(script, i)
  }

  lemma AwaitingBegins(script: seq<Event>, before: seq<Copy>, seqno: nat, log: seq<Copy>, now: nat)
    requires |log| == |before| + 1 && log[|before|].sentAt == now
    ensures Awaiting(script, 0, before, seqno, log, now, now)
  {
    assert Departs(script, 0, 0, before, seqno) && Elapsed(script, 0) == 0;
  }

  lemma AwaitingEnds(script: seq<Event>, before: seq<Copy>, seqno: nat, log: seq<Copy>, start: nat, now: nat)
    requires Awaiting(script, |script|, before, seqno, log, start, now)
    ensures AsDecided(Waiting, 0, |script|, script, before, seqno, log, start, now)
  {
    hide Timeouts, Sent, OnTime, Elapsed;
  }

  /** The event is a timeout for a call with `sent` copies on the network. */
  predicate TimesOut(e: Event, before: seq<Copy>, seqno: nat, sent: nat)
  {
    e.Alarm? || (Matches(e, before, seqno, sent) && e.alarmFirst)
  }

  lemma AwaitingFacts(script: seq<Event>, i: nat, before: seq<Copy>, seqno: nat, log: seq<Copy>, start: nat, now: nat)
    requires i < |script| && Awaiting(script, i, before, seqno, log, start, now)
    ensures |log| > |before|
    ensures var sent, e := |log| - |before|, script[i];
            && sent == Timeouts(script, i, before, seqno) + 1 <= RTT_MAXNREXMT + 1
            && (IsAnswer(script, i, before, seqno) <==> Matches(e, before, seqno, sent) && !e.alarmFirst)
            && Timeouts(script, i + 1, before, seqno) == sent - 1 + (if TimesOut(e, before, seqno, sent) then 1 else 0)
            && start + Elapsed(script, i + 1) == now + e.after
  {
    hide Matches;
  }

  /** An event that is no timeout leaves the log as it is, and so does the fourth timeout. */
  lemma SameCopies(script: seq<Event>, i: nat, before: seq<Copy>, seqno: nat, log: seq<Copy>, start: nat, now: nat)
    requires i < |script| && Awaiting(script, i, before, seqno, log, start, now)
    requires !TimesOut(script[i], before, seqno, |log| - |before|) || |log| - |before| > RTT_MAXNREXMT
    ensures OnTime(log, start, script, i + 1, before, seqno)
  {
    AwaitingFacts(script, i, before, seqno, log, start, now);
    hide Timeouts, TimesOut, Matches, IsAnswer, Elapsed, Leaves;
  }

  lemma OneMoreCopy(script: seq<Event>, i: nat, before: seq<Copy>, seqno: nat, log: seq<Copy>, start: nat, now: nat,
                    c: Copy)
    requires i < |script| && Awaiting(script, i, before, seqno, log, start, now) && |log| - |before| <= RTT_MAXNREXMT
    requires TimesOut(script[i], before, seqno, |log| - |before|) && c.sentAt == now + script[i].after
    ensures OnTime(log + [c], start, script, i + 1, before, seqno)
  {
    AwaitingFacts(script, i, before, seqno, log, start, now);
    assert Departs(script, i + 1, |log| - |before|, before, seqno);
    assert Leaves(script, |log| - |before|, before, seqno, c.sentAt - start);
    hide Timeouts, TimesOut, Matches, IsAnswer, Elapsed, Leaves;
  }

  /** What one event makes of a waiting call, if it goes on with the log `after`. */
  lemma AwaitingGoesOn(script: seq<Event>, i: nat, before: seq<Copy>, seqno: nat, log: seq<Copy>, start: nat, now: nat,
                       after: seq<Copy>, c: Copy, o: Outcome, h: nat)
    requires i < |script| && Awaiting(script, i, before, seqno, log, start, now) && |before| <= |log|
    ensures var e, sent := script[i], |log| - |before|;
            var then_ := now + e.after;
            if Matches(e, before, seqno, sent) && !e.alarmFirst then
              after == log && o.Replied? ==>
                AsDecided(o, e.copy, i + 1, script, before, seqno, after, start, then_)
            else if !TimesOut(e, before, seqno, sent) then
              after == log ==> Awaiting(script, i + 1, before, seqno, after, start, then_)
            else if sent <= RTT_MAXNREXMT then
              after == log + [c] && c.sentAt == then_ ==> Awaiting(script, i + 1, before, seqno, after, start, then_)
            else
              after == log ==> AsDecided(GaveUp, h, i + 1, script, before, seqno, after, start, then_)
  {
    AwaitingFacts(script, i, before, seqno, log, start, now);
    var e, sent := script[i], |log| - |before|;
    hide Elapsed, Timeouts, IsAnswer, OnTime, Sent;
    if !TimesOut(e, before, seqno, sent) || sent > RTT_MAXNREXMT {
      SameCopies(script, i, before, seqno, log, start, now);
    } else if c.sentAt == now + e.after {
      OneMoreCopy(script, i, before, seqno, log, start, now, c);
    }
    hide Matches;
    if Matches(e, before, seqno, sent) && !e.alarmFirst {
      assert AnsweredAt(script, i, before, seqno);
    } else if TimesOut(e, before, seqno, sent) && sent > RTT_MAXNREXMT {
      assert ExpiredAt(script, i + 1, before, seqno);
    }
  }

  /** The time since a copy of this call left is the time between two events. */
  lemma SampleIsTimed(outcome: Outcome, hit: nat, taken: nat, script: seq<Event>, before: seq<Copy>, seqno: nat,
                      log: seq<Copy>, start: nat, now: nat)
    requires AsDecided(outcome, hit, taken, script, before, seqno, log, start, now) && outcome.Replied?
    requires |before| <= hit < |log| && outcome.sample == (now - log[hit].sentAt) % WRAP
    ensures Timed(outcome.sample, hit - |before|, taken, script, before, seqno)
  {
    hide Decided, Timeouts, Elapsed, Sent;
    assert Leaves(script, hit - |before|, before, seqno, log[hit].sentAt - start);
    var j: nat :| Departs(script, j, hit - |before|, before, seqno) && log[hit].sentAt - start == Elapsed(script, j);
    assert now - log[hit].sentAt == Elapsed(script, taken) - Elapsed(script, j);
  }

  class DgClient {
    const rttinfo: RttInfo
    var rttinit: bool
    var sendSeq: nat
    var sendTs: nat
    var recvSeq: nat
    var recvTs: nat
    /** Milliseconds since 1970. */
    var clock: nat
    /** How many calls have been made, and every copy they have put on the network. */
    var calls: nat
    var log: seq<Copy>

    ghost predicate Logged()
      reads this, rttinfo
    {
      && sendSeq == calls % WRAP
      && forall k :: 0 <= k < |log| ==>
           && 1 <= log[k].call <= calls && log[k].seqno == log[k].call % WRAP && log[k].sentAt <= clock
           && (log[k].call == calls ==> log[k].ts == Stamp(log[k].sentAt, rttinfo.base))
    }

    /** Between calls the timeout is within its limits. */
    ghost predicate Valid()
      reads this, rttinfo
    {
      Logged() && (rttinit ==> RTT_RXTMIN <= rttinfo.rto <= RTT_RXTMAX)
    }

    constructor (clock: nat)
      ensures Valid() && calls == 0 && log == [] && !rttinit && fresh(rttinfo)
    {
      rttinfo := new RttInfo();
      rttinit, sendSeq, sendTs, recvSeq, recvTs := false, 0, 0, 0, 0;
      this.clock := clock;
      calls, log := 0, [];
    }

    /** Stamps and sends one more copy, and starts its timer. */
    method SendCopy(outbuff: Bytes) returns (seconds: int)
      requires Logged() && calls >= 1
      modifies `sendTs, `log
      ensures Logged() && seconds == WholeSeconds(rttinfo.rto)
      ensures log == old(log) + [Copy(calls, sendSeq, sendTs, clock, outbuff)]
    {
      sendTs := Stamp(clock, rttinfo.base);
      log := log + [Copy(calls, sendSeq, sendTs, clock, outbuff)];
      seconds := rttinfo.Start();
    }

    /** The first lines of dg_send_recv: initialises the estimator if need be and takes the next sequence number. */
    method Begin()
      requires Valid()
      modifies this, rttinfo
      ensures Logged() && rttinit && RTT_RXTMIN <= rttinfo.rto <= RTT_RXTMAX && rttinfo.nrexmt == 0
      ensures calls == old(calls) + 1 && log == old(log) && clock == old(clock)
      ensures old(rttinit) ==> rttinfo.rto == old(rttinfo.rto) && rttinfo.Current() == old(rttinfo.Current())
      ensures !old(rttinit) ==> rttinfo.rto == 3.0 && rttinfo.Current() == INITIAL
    {
      if !rttinit {
        rttinfo.Init(clock / 1000);
        rttinit := true;
      }
      sendSeq := (sendSeq + 1) % WRAP;
      calls := calls + 1;
      rttinfo.NewPack();
    }

    /** What a call has sent by the time it has armed `timers`. */
    ghost predicate Sending(before: seq<Copy>, outbuff: Bytes, first: real, timers: seq<int>)
      reads this, rttinfo
    {
      && before <= log && |log| == |before| + |timers| && |timers| >= 1
      && (forall k :: |before| <= k < |log| ==>
            log[k].call == calls && log[k].seqno == sendSeq && log[k].data == outbuff)
      && (forall k :: 0 <= k < |before| ==> log[k].call < calls)
      && (forall i :: 0 <= i < |timers| ==> timers[i] == Timer(first, i))
    }

    /** A timeout: doubles the timeout, and gives up after the fourth or sends another copy. */
    method Expire(outbuff: Bytes, timers: seq<int>, ghost before: seq<Copy>, ghost first: real)
      returns (giveUp: bool, timers': seq<int>)
      requires Logged() && calls >= 1 && rttinit && Sending(before, outbuff, first, timers)
      requires rttinfo.nrexmt == |timers| - 1 && rttinfo.rto == Backoff(first, |timers| - 1)
      modifies `rttinit, `sendTs, `log, rttinfo`rto, rttinfo`nrexmt
      ensures Logged() && Sending(before, outbuff, first, timers')
      ensures giveUp <==> |timers| > RTT_MAXNREXMT
      ensures rttinit == !giveUp
      ensures |timers'| == if giveUp then |timers| else |timers| + 1
      ensures !giveUp ==> rttinfo.nrexmt == |timers'| - 1 && rttinfo.rto == Backoff(first, |timers'| - 1)
      ensures if giveUp then log == old(log) else log == old(log) + [Copy(calls, sendSeq, sendTs, clock, outbuff)]
    {
      hide WholeSeconds, Timer, Backoff, Stamp;
      NextTimer(first, |timers|);
      giveUp := rttinfo.Timeout();
      timers' := timers;
      if giveUp {
        rttinit := false;
      } else {
        var seconds := SendCopy(outbuff);
        timers' := timers + [seconds];
      }
    }

    /** What an accepted reply is: the echo of a copy sent in this very call, and a sample that is the time since that
        copy left. Once the sequence numbers wrap around, the copy may be of a call 2^32 or more earlier. */
    ghost predicate Answers(outcome: Outcome, hit: nat, outbuff: Bytes, inbytes: nat)
      reads this
    {
      && outcome.Replied? && hit < |log|
      && log[hit].call % WRAP == calls % WRAP && IsEchoOf(outcome.data, log[hit].data, inbytes)
      && (log[hit].call == calls ==>
            log[hit].data == outbuff && outcome.sample == (clock - log[hit].sentAt) % WRAP)
      && (calls <= WRAP ==> log[hit].call == calls)
    }

    /** The receive header matches: stops the timer's estimate with the time since the stamp that came back. */
    method Accept(copy: nat, inbytes: nat, ghost before: seq<Copy>, ghost outbuff: Bytes, ghost first: real,
                  ghost timers: seq<int>)
      returns (outcome: Outcome)
      requires Logged() && Sending(before, outbuff, first, timers) && copy < |log| && rttinit
      requires recvSeq == log[copy].seqno == sendSeq && recvTs == log[copy].ts
      modifies rttinfo
      ensures Logged() && Valid() && Sending(before, outbuff, first, timers) && Answers(outcome, copy, outbuff, inbytes)
      ensures outcome.Replied? && rttinfo.rtt == outcome.sample as real / 1000.0 && rttinit
      ensures rttinfo.Current() == Update(old(rttinfo.Current()), rttinfo.rtt)
      ensures rttinfo.rto == MinMax(RtoCalc(rttinfo.srtt, rttinfo.rttvar))
    {
      hide Stamp, Update, RtoCalc, MinMax, Timer, Received;
      if log[copy].call == calls {
        StampDifference(clock, log[copy].sentAt, rttinfo.base);
      }
      if calls <= WRAP {
        SameCall(log[copy].call, calls);
      }
      outcome := Replied(Received(log[copy].data, inbytes), (Stamp(clock, rttinfo.base) - recvTs) % WRAP);
      rttinfo.Stop(outcome.sample);
    }

    /** Waits for the next event and takes a datagram if it is one: recvmsg and the test of the loop around it. A
        datagram is accepted when it is long enough for a header and the header has the number of this request. */
    method Receive(e: Event, inbytes: nat, ghost before: seq<Copy>, ghost outbuff: Bytes, ghost first: real,
                   ghost timers: seq<int>)
      returns (accepted: bool)
      requires Logged() && Sending(before, outbuff, first, timers)
      requires e.Short? ==> e.length < HEADER
      modifies `clock, `recvSeq, `recvTs
      ensures Logged() && Sending(before, outbuff, first, timers) && clock == old(clock) + e.after
      ensures accepted <==> e.Delivery? && e.copy < |log| && log[e.copy].seqno == sendSeq
      ensures accepted ==> recvSeq == sendSeq && recvTs == log[e.copy].ts
      ensures accepted <==> Matches(e, before, sendSeq, |timers|)
    {
      hide Timer, Stamp;
      clock := clock + e.after;
      accepted := false;
      if e.Short? {
        recvSeq, recvTs := e.seqno, e.ts;
        accepted := e.length >= HEADER && recvSeq == sendSeq;
      } else if e.Delivery? && e.copy < |log| {
        recvSeq, recvTs := log[e.copy].seqno, log[e.copy].ts;
        var n := HEADER + |Received(log[e.copy].data, inbytes)|;
        accepted := n >= HEADER && recvSeq == sendSeq;
      }
    }

    /** One call. `script` is what the network and the timer do while it waits; when the script ends first, the call
        is still waiting. On return `timers` are the timers it armed, `hit` the place in the log of the copy whose echo
        it accepted, and `taken` how many events it took in. */
    method DgSendRecv(outbuff: Bytes, inbytes: nat, script: seq<Event>)
      returns (outcome: Outcome, timers: seq<int>, ghost first: real, hit: nat, taken: nat)
      requires Valid()
      requires Possible(script)
      modifies this, rttinfo
      ensures calls == old(calls) + 1
      // four copies at most, all of this request, with doubling timers of 900 seconds in all
      ensures Sending(old(log), outbuff, first, timers) && |timers| <= RTT_MAXNREXMT + 1
      ensures 2.0 <= first <= 60.0 && first == (if old(rttinit) then old(rttinfo.rto) else 3.0)
      ensures 1 <= |timers| <= 4 && 0 <= TimerSum(first, |timers|) <= 900
      ensures outcome.Replied? ==> Answers(outcome, hit, outbuff, inbytes)
      // the data of the request, or as much of it as fits
      ensures outcome.Replied? && hit >= |old(log)| ==>
                IsEchoOf(outcome.data, outbuff, inbytes) && log[hit].data == outbuff
      // a reply exactly when one comes in time, and every copy at its own time
      ensures AsDecided(outcome, hit, taken, script, old(log), calls % WRAP, log, old(clock), clock)
      ensures outcome.Replied? && hit >= |old(log)| ==>
                Timed(outcome.sample, hit - |old(log)|, taken, script, old(log), calls % WRAP)
      // what is left behind
      ensures Logged() && (outcome != Waiting ==> Valid())
      ensures outcome.Replied? ==> rttinit && rttinfo.rtt == outcome.sample as real / 1000.0
      ensures outcome.Replied? ==>
                rttinfo.Current() == Update(if old(rttinit) then old(rttinfo.Current()) else INITIAL, rttinfo.rtt)
      ensures outcome.Replied? ==> rttinfo.rto == MinMax(RtoCalc(rttinfo.srtt, rttinfo.rttvar))
      ensures outcome == GaveUp ==> !rttinit && |timers| == 4
    {
      first, timers := Open(outbuff);
      hide Backoff, Sending, TimerSum, AsDecided, Timed, Answers, Update;
      outcome, timers, hit, taken := AwaitReply(outbuff, inbytes, script, timers, old(log), first, rttinfo.Current());
      TotalWait(first, |timers|);
      if outcome.Replied? && hit >= |old(log)| {
        AnswersThisCall(outcome, hit, outbuff, inbytes, old(log), first, timers);
        SampleIsTimed(outcome, hit, taken, script, old(log), calls % WRAP, log, old(clock), clock);
      }
    }

    /** An answered copy that is not older than this call is one of its own. */
    lemma AnswersThisCall(outcome: Outcome, hit: nat, outbuff: Bytes, inbytes: nat, before: seq<Copy>, first: real,
                          timers: seq<int>)
      requires Answers(outcome, hit, outbuff, inbytes) && Sending(before, outbuff, first, timers) && hit >= |before|
      ensures hit < |log| && outcome.sample == (clock - log[hit].sentAt) % WRAP
      ensures log[hit].data == outbuff && IsEchoOf(outcome.data, outbuff, inbytes)
    {
      hide IsEchoOf;
    }

    /** A call that has armed `timers` and waits for an answer. */
    ghost predicate Pending(before: seq<Copy>, outbuff: Bytes, first: real, timers: seq<int>, estimate: Estimate)
      reads this, rttinfo
    {
      && Logged() && calls >= 1 && rttinit && Sending(before, outbuff, first, timers)
      && 1 <= |timers| <= RTT_MAXNREXMT + 1 && rttinfo.nrexmt == |timers| - 1
      && rttinfo.rto == Backoff(first, |timers| - 1) && rttinfo.Current() == estimate
    }

    /** A call that is over. */
    ghost predicate Over(before: seq<Copy>, outbuff: Bytes, inbytes: nat, first: real, timers: seq<int>,
                         estimate: Estimate, outcome: Outcome, hit: nat)
      reads this, rttinfo
    {
      && Logged() && Valid() && Sending(before, outbuff, first, timers) && |timers| <= RTT_MAXNREXMT + 1
      && match outcome
         case Replied(_, sample) =>
           && Answers(outcome, hit, outbuff, inbytes) && rttinit && rttinfo.rtt == sample as real / 1000.0
           && rttinfo.Current() == Update(estimate, rttinfo.rtt)
           && rttinfo.rto == MinMax(RtoCalc(rttinfo.srtt, rttinfo.rttvar))
         case GaveUp => !rttinit && |timers| == RTT_MAXNREXMT + 1
         case Waiting => false
    }

    /** One event: `more` tells that the call still waits afterwards. */
    method TakeEvent(e: Event, outbuff: Bytes, inbytes: nat, timers: seq<int>, ghost before: seq<Copy>,
                     ghost first: real, ghost estimate: Estimate)
      returns (more: bool, timers': seq<int>, outcome: Outcome, hit: nat)
      requires Pending(before, outbuff, first, timers, estimate) && (e.Short? ==> e.length < HEADER)
      modifies `rttinit, `sendTs, `log, `clock, `recvSeq, `recvTs, rttinfo
      ensures clock == old(clock) + e.after
      ensures if more then Pending(before, outbuff, first, timers', estimate)
              else Over(before, outbuff, inbytes, first, timers', estimate, outcome, hit)
      ensures if Matches(e, before, sendSeq, |timers|) && !e.alarmFirst then
                !more && outcome.Replied? && hit == e.copy && log == old(log)
              else if !TimesOut(e, before, sendSeq, |timers|) then more && timers' == timers && log == old(log)
              else if |timers| <= RTT_MAXNREXMT then
                && more && |timers'| == |timers| + 1
                && log == old(log) + [Copy(calls, sendSeq, sendTs, clock, outbuff)]
              else !more && outcome == GaveUp && log == old(log)
    {
      hide Logged, Sending, Backoff, Answers, Matches, Update;
      more, timers', outcome, hit := true, timers, Waiting, 0;
      var accepted := Receive(e, inbytes, before, outbuff, first, timers);
      if accepted && !e.alarmFirst {
        hit, more := e.copy, false;
        outcome := Accept(e.copy, inbytes, before, outbuff, first, timers);
      } else if accepted || e.Alarm? {
        var giveUp;
        giveUp, timers' := Expire(outbuff, timers, before, first);
        if giveUp {
          outcome, more := GaveUp, false;
          LoggedIsValid();
        }
      }
    }

    /** The rest of a call that has just put its first copy on the network. */
    method AwaitReply(outbuff: Bytes, inbytes: nat, script: seq<Event>, armed: seq<int>, ghost before: seq<Copy>,
                      ghost first: real, ghost estimate: Estimate)
      returns (outcome: Outcome, timers: seq<int>, hit: nat, taken: nat)
      requires Pending(before, outbuff, first, armed, estimate)
      requires |log| == |before| + 1 && log[|before|].sentAt == clock
      requires Possible(script)
      modifies `rttinit, `sendTs, `log, `clock, `recvSeq, `recvTs, rttinfo
      ensures if outcome == Waiting then Pending(before, outbuff, first, timers, estimate)
              else Over(before, outbuff, inbytes, first, timers, estimate, outcome, hit)
      ensures AsDecided(outcome, hit, taken, script, before, sendSeq, log, old(clock), clock)
    {
      hide *;
      outcome, timers, hit, taken := Waiting, armed, 0, 0;
      AwaitingBegins(script, before, sendSeq, log, clock);
      while taken < |script|
        invariant taken <= |script| && outcome == Waiting && hit == 0
        invariant Pending(before, outbuff, first, timers, estimate)
        invariant Awaiting(script, taken, before, sendSeq, log, old(clock), clock)
      {
        ghost var was, now := log, clock;
        PendingCopies(before, outbuff, first, timers, estimate);
        PossibleAt(script, taken);
        var more, timers', o, h := TakeEvent(script[taken], outbuff, inbytes, timers, before, first, estimate);
        AwaitingGoesOn(script, taken, before, sendSeq, was, old(clock), now, log,
                       Copy(calls, sendSeq, sendTs, clock, outbuff), o, h);
        timers, taken := timers', taken + 1;
        if !more {
          outcome, hit := o, h;
          return;
        }
      }
      AwaitingEnds(script, before, sendSeq, log, old(clock), clock);
    }

    lemma PendingCopies(before: seq<Copy>, outbuff: Bytes, first: real, timers: seq<int>, estimate: Estimate)
      requires Pending(before, outbuff, first, timers, estimate)
      ensures |log| == |before| + |timers|
    {
    }

    lemma LoggedIsValid()
      requires Logged() && !rttinit
      ensures Valid()
    {
    }

    /** The start of a call and its first copy. */
    method Open(outbuff: Bytes) returns (ghost first: real, timers: seq<int>)
      requires Valid()
      modifies this, rttinfo
      ensures calls == old(calls) + 1 && clock == old(clock) && rttinit && Logged()
      ensures Sending(old(log), outbuff, first, timers) && |timers| == 1 && log[|old(log)|].sentAt == clock
      ensures first == if old(rttinit) then old(rttinfo.rto) else 3.0
      ensures rttinfo.rto == first == Backoff(first, 0) && RTT_RXTMIN <= first <= RTT_RXTMAX && rttinfo.nrexmt == 0
      ensures rttinfo.Current() == if old(rttinit) then old(rttinfo.Current()) else INITIAL
    {
      Begin();
      first := rttinfo.rto;
      FirstTimer(first);
      hide WholeSeconds, Timer, Backoff, Stamp;
      var seconds := SendCopy(outbuff);
      timers := [seconds];
    }
  }

  // ----- runs of calls

  datatype Request = Request(outbuff: Bytes, inbytes: nat, script: seq<Event>)

  /** How a call ended: how much was in the log when it began and when it ended, and when that was; its outcome, the
      place in the log of the copy it accepted the echo of, and how many events it took in. */
  datatype Ending = Ending(began: nat, ended: nat, start: nat, at: nat, outcome: Outcome, hit: nat, taken: nat)

  /** The `call`-th call sent its copies, and got a reply, gave up or waits, as its network decided; and if it got a
      reply, that was the echo of its own data, and the sample is the time from when the very copy that was echoed left
      to when the echo came. */
  ghost predicate GoodEnding(e: Ending, r: Request, call: nat, log: seq<Copy>)
  {
    && e.began <= e.ended <= |log|
    && AsDecided(e.outcome, e.hit, e.taken, r.script, log[..e.began], call % WRAP, log[..e.ended], e.start, e.at)
    && (forall k :: e.began <= k < e.ended ==> log[k].call == call && log[k].data == r.outbuff)
    && (e.outcome.Replied? ==>
      && e.began <= e.hit < e.ended && IsEchoOf(e.outcome.data, r.outbuff, r.inbytes)
      && Timed(e.outcome.sample, e.hit - e.began, e.taken, r.script, log[..e.began], call % WRAP))
  }

  /** Any run of at most 2^32 calls on any network: calls are made until one of them waits for ever. */
  method Session(client: DgClient, requests: seq<Request>) returns (endings: seq<Ending>)
    requires client.Valid() && client.calls + |requests| <= WRAP
    requires forall i :: 0 <= i < |requests| ==> Possible(requests[i].script)
    modifies client, client.rttinfo
    ensures |endings| <= |requests| && client.calls == old(client.calls) + |endings|
    ensures forall i :: 0 <= i < |endings| ==>
                          GoodEnding(endings[i], requests[i], old(client.calls) + i + 1, client.log)
    // one call after another, with nothing else in the log
    ensures InTurn(endings, |old(client.log)|, old(client.clock), |client.log|, client.clock)
    ensures forall i :: 0 <= i < |endings| - 1 ==> endings[i].outcome != Waiting
    ensures |endings| < |requests| ==> endings != [] && endings[|endings| - 1].outcome == Waiting
  {
    endings := MakeCalls(client, requests);
    SoFarMeans(endings, requests, old(client.calls), |old(client.log)|, old(client.clock), client.log, client.clock);
    hide SoFar, GoodEnding, InTurn;
  }

  method MakeCalls(client: DgClient, requests: seq<Request>) returns (endings: seq<Ending>)
    requires client.Valid() && client.calls + |requests| <= WRAP
    requires forall i :: 0 <= i < |requests| ==> Possible(requests[i].script)
    modifies client, client.rttinfo
    ensures client.calls == old(client.calls) + |endings|
    ensures SoFar(endings, requests, old(client.calls), |old(client.log)|, old(client.clock), client.log, client.clock)
    ensures |endings| < |requests| ==> endings != [] && endings[|endings| - 1].outcome == Waiting
  {
    hide *;
    endings := [];
    NoneYet(requests, client.calls, client.log, client.clock);
    var waits := false;
    while |endings| < |requests| && !waits
      invariant |endings| <= |requests| && client.calls == old(client.calls) + |endings|
      invariant !waits ==> client.Valid()
      invariant SoFar(endings, requests, old(client.calls), |old(client.log)|, old(client.clock),
                      client.log, client.clock)
      invariant waits == (endings != [] && endings[|endings| - 1].outcome == Waiting)
    {
      ghost var was, now := client.log, client.clock;
      var ending := OneCall(client, requests[|endings|]);
      OneMore(endings, requests, old(client.calls), |old(client.log)|, old(client.clock), was, now,
              client.log, client.clock, ending);
      endings, waits := endings + [ending], ending.outcome == Waiting;
    }
  }

  method OneCall(client: DgClient, r: Request) returns (e: Ending)
    requires client.Valid() && client.calls < WRAP
    requires Possible(r.script)
    modifies client, client.rttinfo
    ensures client.calls == old(client.calls) + 1 && old(client.log) <= client.log
    ensures e.began == |old(client.log)| && e.start == old(client.clock)
    ensures e.ended == |client.log| && e.at == client.clock
    ensures GoodEnding(e, r, client.calls, client.log)
    ensures e.outcome != Waiting ==> client.Valid()
  {
    hide AsDecided, Timed, IsEchoOf, Timer, TimerSum, Update, GoodEnding;
    ghost var was := client.log;
    var began, start := |client.log|, client.clock;
    var outcome, timers, first, hit, taken := client.DgSendRecv(r.outbuff, r.inbytes, r.script);
    e := Ending(began, |client.log|, start, client.clock, outcome, hit, taken);
    GoodSoFar(client, e, r, was, first, timers);
  }

  /** Each call begins where and when the one before it ended. */
  ghost predicate InTurn(endings: seq<Ending>, logged: nat, start: nat, logged': nat, now: nat)
  {
    if endings == [] then logged' == logged && now == start
    else
      var last := endings[|endings| - 1];
      && InTurn(endings[..|endings| - 1], logged, start, last.began, last.start)
      && last.ended == logged' && last.at == now
  }

  lemma NextInTurn(endings: seq<Ending>, logged: nat, start: nat, e: Ending)
    requires InTurn(endings, logged, start, e.began, e.start)
    ensures InTurn(endings + [e], logged, start, e.ended, e.at)
  {
    assert (endings + [e])[..|endings|] == endings;
  }

  ghost predicate SoFar(endings: seq<Ending>, requests: seq<Request>, calls: nat, logged: nat, start: nat,
                        log: seq<Copy>, now: nat)
  {
    && |endings| <= |requests| && InTurn(endings, logged, start, |log|, now)
    && (forall i :: 0 <= i < |endings| ==> GoodEnding(endings[i], requests[i], calls + i + 1, log))
    && (forall i :: 0 <= i < |endings| - 1 ==> endings[i].outcome != Waiting)
  }

  lemma NoneYet(requests: seq<Request>, calls: nat, log: seq<Copy>, now: nat)
    ensures SoFar([], requests, calls, |log|, now, log, now) && WRAP > 0
  {
  }

  lemma SoFarMeans(endings: seq<Ending>, requests: seq<Request>, calls: nat, logged: nat, start: nat,
                   log: seq<Copy>, now: nat)
    requires SoFar(endings, requests, calls, logged, start, log, now)
    ensures |endings| <= |requests| && InTurn(endings, logged, start, |log|, now)
    ensures forall i :: 0 <= i < |endings| ==> GoodEnding(endings[i], requests[i], calls + i + 1, log)
    ensures forall i :: 0 <= i < |endings| - 1 ==> endings[i].outcome != Waiting
  {
  }

  lemma GoodSoFar(client: DgClient, e: Ending, r: Request, before: seq<Copy>, first: real, timers: seq<int>)
    requires e.began == |before| && e.ended == |client.log| && 1 <= client.calls <= WRAP
    requires AsDecided(e.outcome, e.hit, e.taken, r.script, before, client.calls % WRAP, client.log, e.start, e.at)
    requires client.Sending(before, r.outbuff, first, timers)
    requires e.outcome.Replied? ==> client.Answers(e.outcome, e.hit, r.outbuff, r.inbytes)
    requires e.outcome.Replied? && e.hit >= |before| ==>
               Timed(e.outcome.sample, e.hit - |before|, e.taken, r.script, before, client.calls % WRAP)
    ensures GoodEnding(e, r, client.calls, client.log)
  {
    assert client.log[..e.began] == before && client.log[..e.ended] == client.log;
    hide AsDecided, Timed, IsEchoOf, Timer;
  }

  lemma OneMore(endings: seq<Ending>, requests: seq<Request>, calls: nat, logged: nat, start: nat,
                was: seq<Copy>, before: nat, log: seq<Copy>, now: nat, e: Ending)
    requires SoFar(endings, requests, calls, logged, start, was, before) && was <= log && |endings| < |requests|
    requires endings != [] ==> endings[|endings| - 1].outcome != Waiting
    requires GoodEnding(e, requests[|endings|], calls + |endings| + 1, log)
    requires e.began == |was| && e.start == before && e.ended == |log| && e.at == now
    ensures SoFar(endings + [e], requests, calls, logged, start, log, now)
  {
    hide GoodEnding, InTurn;
    forall i | 0 <= i < |endings| ensures GoodEnding(endings[i], requests[i], calls + i + 1, log) {
      StaysGood(endings[i], requests[i], calls + i + 1, was, log);
    }
    NextInTurn(endings, logged, start, e);
  }

  lemma StaysGood(e: Ending, r: Request, call: nat, was: seq<Copy>, log: seq<Copy>)
    requires GoodEnding(e, r, call, was) && was <= log
    ensures GoodEnding(e, r, call, log)
  {
    assert log[..e.began] == was[..e.began] && log[..e.ended] == was[..e.ended];
    hide AsDecided, Timed, IsEchoOf;
  }

  lemma FirstTimer(first: real)
    ensures Backoff(first, 0) == first && Timer(first, 0) == WholeSeconds(first)
  {
  }

  lemma NextTimer(first: real, n: nat)
    requires n >= 1
    ensures Backoff(first, n) == 2.0 * Backoff(first, n - 1) && Timer(first, n) == WholeSeconds(Backoff(first, n))
  {
  }

  /** The bound of 2^32 calls is exact: an earlier call with the same sequence number exists exactly beyond it. */
  lemma SequenceNumbersRepeat(call: nat)
    requires call >= 1
    ensures (exists c :: 1 <= c < call && c % WRAP == call % WRAP) <==> call > WRAP
  {
    if call > WRAP {
      assert (call - WRAP) % WRAP == call % WRAP;
    }
  }

  /** And beyond it a reply to another call is accepted: the echo of the call 2^32 earlier, if it comes first. */
  lemma AnotherCallAnswers(before: seq<Copy>, k: nat, call: nat, after: nat)
    requires k < |before| && before[k].call + WRAP == call && before[k].seqno == before[k].call % WRAP
    ensures var script := [Delivery(after, k, false)];
            && AnsweredAt(script, 0, before, call % WRAP) && script[0].copy == k && before[k].call != call
            && forall data, sample :: Decided(Replied(data, sample), k, 1, script, before, call % WRAP)
  {
    var script := [Delivery(after, k, false)];
    assert call % WRAP == before[k].seqno;
    assert IsAnswer(script, 0, before, call % WRAP);
  }
}
