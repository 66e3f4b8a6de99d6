/** The non-blocking client: standard input to the socket and the socket to standard output, through two buffers,
    with partial reads and writes and a half-close. */
module StrCli {
  import opened Text
  import opened Unp


  /** What a non-blocking read of up to `room` bytes does: takes bytes, as many as there is room for, or finds the
      end of the data, or would block, or fails. */
  datatype Reading = Data(bytes: seq<Byte>) | ReadBlocked | ReadFailed

  /** What a non-blocking write does. */
  datatype Writing = Written(count: nat) | WriteBlocked | WriteFailed

  /** What select reports of the descriptors asked about, and what the reads and writes of one turn of the loop do. */
  datatype Turn = Turn(
    stdinReady: bool, sockReadable: bool, sockWritable: bool, stdoutReady: bool,
    stdin: Reading, fromSock: Reading, stdout: Writing, toSock: Writing)

  datatype Status = Running | Returned | ServerQuit | SystemError

  /** What the server sees of the connection. */
  datatype Item = Octet(b: Byte) | Fin

  function OnWire(s: seq<Byte>): (items: seq<Item>)
    ensures |items| == |s|
  {
    Mapped(b => Octet(b), s)
  }

  lemma OnWireConcat(a: seq<Byte>, b: seq<Byte>)
    ensures OnWire(a + b) == OnWire(a) + OnWire(b)
  {
  }

  function Taken(bytes: seq<Byte>, room: nat): (r: seq<Byte>)
    ensures r <= bytes && |r| == Min(|bytes|, room)
  {
    bytes[..Min(|bytes|, room)]
  }

  function Min(a: nat, b: nat): (m: nat)
    ensures m <= a && m <= b && (m == a || m == b)
  {
    if a <= b then a else b
  }

  // ----- what a turn does, in terms of the bytes that have gone in and out

  /** One direction: all bytes taken in, how many of them have been given on, and where the next would go in the
      buffer. The bytes in between are those the buffer holds. */
  datatype Half = Half(taken: seq<Byte>, given: nat, iptr: nat) {
    ghost predicate Valid()
    {
      && given <= |taken| && |taken| - given <= iptr <= MAXLINE
      && (given == |taken| ==> iptr == 0)
    }

    predicate Room() { iptr < MAXLINE }

    predicate Pending() { given < |taken| }

    function Out(): seq<Byte> requires given <= |taken| { taken[..given] }

    function Put(bytes: seq<Byte>): Half { Half(taken + bytes, given, iptr + |bytes|) }

    function Take(n: nat): Half { Half(taken, given + n, if given + n == |taken| then 0 else iptr) }
  }

  /** Both directions, what the server has been sent, and what standard output has been given. */
  datatype Flow = Flow(up: Half, down: Half, eof: bool, status: Status, wire: seq<Item>, shown: seq<Byte>) {
    ghost predicate Valid()
    {
      && up.Valid() && down.Valid()
      && wire == OnWire(up.Out()) + (if eof && !up.Pending() then [Fin] else [])
      && shown == down.Out()
      && (status == Returned ==> eof) && (status == ServerQuit ==> !eof)
    }

    predicate WantsStdin() { !eof && up.Room() }
    predicate WantsSockRead() { down.Room() }
    predicate WantsSockWrite() { up.Pending() }
    predicate WantsStdout() { down.Pending() }
  }

  const START := Flow(Half([], 0, 0), Half([], 0, 0), false, Running, [], [])

  /** Standard input is ready. The second result tells that there is something new to write to the socket. */
  function ReadStdin(f: Flow, r: Reading): (Flow, bool)
    requires f.WantsStdin()
  {
    match r
    case ReadBlocked => (f, false)
    case ReadFailed => (f.(status := SystemError), false)
    case Data(bytes) =>
      if bytes == [] then
        (f.(eof := true, wire := if f.up.Pending() then f.wire else f.wire + [Fin]), false)
      else
        (f.(up := f.up.Put(Taken(bytes, MAXLINE - f.up.iptr))), true)
  }

  function ReadSock(f: Flow, r: Reading): (Flow, bool)
    requires f.WantsSockRead()
  {
    match r
    case ReadBlocked => (f, false)
    case ReadFailed => (f.(status := SystemError), false)
    case Data(bytes) =>
      if bytes == [] then
        (f.(status := if f.eof then Returned else ServerQuit), false)
      else
        (f.(down := f.down.Put(Taken(bytes, MAXLINE - f.down.iptr))), true)
  }

  function WriteStdout(f: Flow, w: Writing): Flow
    requires f.down.Pending()
  {
    match w
    case WriteBlocked => f
    case WriteFailed => f.(status := SystemError)
    case Written(count) =>
      var n := Min(count, |f.down.taken| - f.down.given);
      f.(down := f.down.Take(n), shown := f.shown + f.down.taken[f.down.given..f.down.given + n])
  }

  function WriteSock(f: Flow, w: Writing): Flow
    requires f.up.Pending()
  {
    match w
    case WriteBlocked => f
    case WriteFailed => f.(status := SystemError)
    case Written(count) =>
      var n := Min(count, |f.up.taken| - f.up.given);
      var up := f.up.Take(n);
      var sent := f.wire + OnWire(f.up.taken[f.up.given..f.up.given + n]);
      f.(up := up, wire := if f.eof && !up.Pending() then sent + [Fin] else sent)
  }

  /** The reads of a turn, and whether each gave something to write at once. */
  function Reads(f: Flow, t: Turn): (Flow, bool, bool)
  {
    var (a, moreUp) := if t.stdinReady && f.WantsStdin() then ReadStdin(f, t.stdin) else (f, false);
    if a.status != Running then (a, false, false) else
    var (b, moreDown) := if t.sockReadable && f.WantsSockRead() then ReadSock(a, t.fromSock) else (a, false);
    (b, moreUp, moreDown)
  }

  function Writes(f: Flow, t: Turn, toStdout: bool, toSock: bool): Flow
  {
    var a := if toStdout && f.down.Pending() then WriteStdout(f, t.stdout) else f;
    if a.status == Running && toSock && a.up.Pending() then WriteSock(a, t.toSock) else a
  }

  /** One turn of the loop. */
  function Next(f: Flow, t: Turn): Flow
  {
    if f.status != Running then f else
    var (a, moreUp, moreDown) := Reads(f, t);
    if a.status != Running then a else
    Writes(a, t, (t.stdoutReady && f.WantsStdout()) || moreDown, (t.sockWritable && f.WantsSockWrite()) || moreUp)
  }

  function Run(f: Flow, script: seq<Turn>): Flow
  {
    if script == [] then f else Next(Run(f, script[..|script| - 1]), script[|script| - 1])
  }

  // ----- what holds in every run

  lemma ReadStdinValid(f: Flow, r: Reading)
    requires f.Valid() && f.status == Running && f.WantsStdin()
    ensures ReadStdin(f, r).0.Valid() && ReadStdin(f, r).0.down == f.down
  {
    if r.Data? && r.bytes != [] {
      var more := Taken(r.bytes, MAXLINE - f.up.iptr);
      assert (f.up.taken + more)[..f.up.given] == f.up.taken[..f.up.given];
    }
    hide OnWire;
  }

  lemma ReadSockValid(f: Flow, r: Reading)
    requires f.Valid() && f.status == Running && f.WantsSockRead()
    ensures ReadSock(f, r).0.Valid()
  {
    if r.Data? && r.bytes != [] {
      var more := Taken(r.bytes, MAXLINE - f.down.iptr);
      assert (f.down.taken + more)[..f.down.given] == f.down.taken[..f.down.given];
    }
    hide OnWire;
  }

  lemma ReadsValid(f: Flow, t: Turn)
    requires f.Valid() && f.status == Running
    ensures Reads(f, t).0.Valid()
  {
    hide OnWire, ReadStdin, ReadSock, Flow.Valid;
    var a := f;
    if t.stdinReady && f.WantsStdin() {
      ReadStdinValid(f, t.stdin);
      a := ReadStdin(f, t.stdin).0;
    }
    if a.status == Running && t.sockReadable && a.WantsSockRead() {
      ReadSockValid(a, t.fromSock);
    }
  }

  lemma WriteSockValid(f: Flow, w: Writing)
    requires f.Valid() && f.up.Pending() && f.status == Running
    ensures WriteSock(f, w).Valid()
  {
    if w.Written? {
      var n := Min(w.count, |f.up.taken| - f.up.given);
      assert f.up.taken[..f.up.given] + f.up.taken[f.up.given..f.up.given + n] == f.up.taken[..f.up.given + n];
      OnWireConcat(f.up.Out(), f.up.taken[f.up.given..f.up.given + n]);
    }
    hide OnWire;
  }

  lemma WriteStdoutValid(f: Flow, w: Writing)
    requires f.Valid() && f.down.Pending() && f.status == Running
    ensures WriteStdout(f, w).Valid()
  {
    if w.Written? {
      var n := Min(w.count, |f.down.taken| - f.down.given);
      assert f.down.taken[..f.down.given] + f.down.taken[f.down.given..f.down.given + n]
          == f.down.taken[..f.down.given + n];
    }
    hide OnWire;
  }

  lemma WritesValid(f: Flow, t: Turn, toStdout: bool, toSock: bool)
    requires f.Valid() && f.status == Running
    ensures Writes(f, t, toStdout, toSock).Valid()
  {
    var a := if toStdout && f.down.Pending() then WriteStdout(f, t.stdout) else f;
    if f.down.Pending() {
      WriteStdoutValid(f, t.stdout);
    }
    if a.status == Running && a.up.Pending() {
      WriteSockValid(a, t.toSock);
    }
    hide WriteSock, WriteStdout, OnWire;
  }

  lemma NextValid(f: Flow, t: Turn)
    requires f.Valid()
    ensures Next(f, t).Valid()
  {
    if f.status == Running {
      ReadsValid(f, t);
      var (a, moreUp, moreDown) := Reads(f, t);
      if a.status == Running {
        WritesValid(a, t, (t.stdoutReady && f.WantsStdout()) || moreDown,
                    (t.sockWritable && f.WantsSockWrite()) || moreUp);
      }
    }
    hide Reads, Writes, OnWire;
  }

  /** In every run, for both directions, the bytes written and then the bytes held are the bytes read; the buffers
      are within bounds and begin at their start when empty; and the server has been sent what was written of
      standard input, followed by a FIN exactly when standard input has ended and all of it was written. */
  lemma {:induction false} RunValid(f: Flow, script: seq<Turn>)
    requires f.Valid()
    ensures Run(f, script).Valid()
  {
    if script != [] {
      RunValid(f, script[..|script| - 1]);
      NextValid(Run(f, script[..|script| - 1]), script[|script| - 1]);
    }
  }

  /** So it is in every run of the program. */
  lemma EveryRunValid(script: seq<Turn>)
    ensures Run(START, script).Valid()
  {
    assert START.up.Out() == [] && OnWire([]) == [];
    assert START.Valid();
    RunValid(START, script);
  }

  /** select is never called with nothing to wait for: a buffer with no room has data to write. */
  lemma SelectWaitsForSomething(f: Flow)
    requires f.Valid()
    ensures f.WantsSockRead() || f.WantsStdout()
    ensures f.eof || f.WantsStdin() || f.WantsSockWrite()
  {
  }

  /** A FIN is sent once and last, exactly when standard input has ended and every byte of it has been written. */
  lemma FinComesLast(f: Flow)
    requires f.Valid()
    ensures Fin in f.wire <==> f.eof && f.up.given == |f.up.taken|
    ensures Fin in f.wire ==> f.wire == OnWire(f.up.taken) + [Fin]
    ensures forall k :: 0 <= k < |f.wire| && f.wire[k] == Fin ==> k == |f.wire| - 1
  {
    if f.eof && !f.up.Pending() {
      assert f.up.Out() == f.up.taken;
      assert f.wire[|f.wire| - 1] == Fin;
    }
  }

  lemma ReadsAfterEof(f: Flow, t: Turn)
    requires f.eof
    ensures var a := Reads(f, t).0; a.eof && a.up == f.up && a.wire == f.wire && !Reads(f, t).1
  {
  }

  lemma WritesAfterEof(f: Flow, t: Turn, toStdout: bool, toSock: bool)
    requires f.eof
    ensures var a := Writes(f, t, toStdout, toSock);
            a.eof && a.up.taken == f.up.taken && (!f.up.Pending() ==> a.wire == f.wire)
  {
    hide OnWire;
  }

  /** After the end of standard input nothing more is taken from it, and after the FIN nothing more is sent. */
  lemma NothingAfterFin(f: Flow, t: Turn)
    requires f.Valid() && f.eof
    ensures Next(f, t).eof && Next(f, t).up.taken == f.up.taken
    ensures Fin in f.wire ==> Next(f, t).wire == f.wire
  {
    FinComesLast(f);
    assert Fin in f.wire ==> !f.up.Pending();
    ReadsAfterEof(f, t);
    var a := Reads(f, t).0;
    WritesAfterEof(a, t, (t.stdoutReady && f.WantsStdout()) || Reads(f, t).2, t.sockWritable && f.WantsSockWrite());
    hide OnWire, Reads, Writes;
  }

  lemma {:induction false} NothingEverAfterFin(f: Flow, script: seq<Turn>)
    requires f.Valid() && Fin in f.wire
    ensures Run(f, script).wire == f.wire
  {
    if script != [] {
      var init, last := script[..|script| - 1], script[|script| - 1];
      NothingEverAfterFin(f, init);
      RunValid(f, init);
      FinComesLast(Run(f, init));
      NothingAfterFin(Run(f, init), last);
      hide Next;
    }
  }

  // ----- what a turn does, spelt out

  /** The bytes that a read gives when the buffer has room for them. */
  function Got(asked: bool, r: Reading, iptr: nat): (bytes: seq<Byte>)
    requires iptr <= MAXLINE
    ensures asked && r.Data? && |r.bytes| <= MAXLINE - iptr ==> bytes == r.bytes
    ensures asked && r.Data? && |r.bytes| > MAXLINE - iptr ==> bytes == r.bytes[..MAXLINE - iptr]
    ensures !asked || !r.Data? ==> bytes == []
  {
    if !asked || !r.Data? then []
    else if |r.bytes| <= MAXLINE - iptr then r.bytes
    else r.bytes[..MAXLINE - iptr]
  }

  predicate AsksStdin(f: Flow, t: Turn) { t.stdinReady && !f.eof && f.up.iptr < MAXLINE }

  predicate AsksSock(f: Flow, t: Turn)
  {
    t.sockReadable && f.down.iptr < MAXLINE && !(AsksStdin(f, t) && t.stdin.ReadFailed?)
  }

  lemma HalvesValid(f: Flow)
    requires f.Valid()
    ensures f.up.given <= |f.up.taken| && f.up.iptr <= MAXLINE
    ensures f.down.given <= |f.down.taken| && f.down.iptr <= MAXLINE
  {
  }

  lemma NothingGot(r: Reading, iptr: nat)
    requires iptr <= MAXLINE
    ensures Got(false, r, iptr) == []
  {
  }

  lemma StdinLedger(f: Flow, r: Reading)
    requires f.WantsStdin() && f.status == Running
    ensures var (a, more) := ReadStdin(f, r);
            && a.up.taken == f.up.taken + Got(true, r, f.up.iptr) && a.up.given == f.up.given
            && a.down == f.down && a.shown == f.shown && (a.eof <==> f.eof || r == Data([]))
            && a.status == (if r.ReadFailed? then SystemError else Running)
            && (more <==> Got(true, r, f.up.iptr) != [])
  {
    if r.Data? && r.bytes != [] {
      assert Got(true, r, f.up.iptr) == Taken(r.bytes, MAXLINE - f.up.iptr) != [];
    }
  }

  lemma SockLedger(f: Flow, r: Reading)
    requires f.WantsSockRead() && f.status == Running
    ensures var (b, more) := ReadSock(f, r);
            && b.down.taken == f.down.taken + Got(true, r, f.down.iptr) && b.down.given == f.down.given
            && b.up == f.up && b.shown == f.shown && b.eof == f.eof
            && b.status == (if r.ReadFailed? then SystemError
                            else if r != Data([]) then Running
                            else if f.eof then Returned
                            else ServerQuit)
            && (more <==> Got(true, r, f.down.iptr) != [])
  {
    if r.Data? && r.bytes != [] {
      assert Got(true, r, f.down.iptr) == Taken(r.bytes, MAXLINE - f.down.iptr) != [];
    }
  }

  /** The reads of a turn: everything they gave is held, the end of either stream is noticed, and an error ends the
      program. */
  lemma ReadsLedger(f: Flow, t: Turn)
    requires f.Valid() && f.status == Running
    ensures var a := Reads(f, t).0;
            && a.up.taken == f.up.taken + Got(AsksStdin(f, t), t.stdin, f.up.iptr)
            && a.down.taken == f.down.taken + Got(AsksSock(f, t), t.fromSock, f.down.iptr)
            && a.up.given == f.up.given && a.down.given == f.down.given && a.shown == f.shown
            && (a.eof <==> f.eof || (AsksStdin(f, t) && t.stdin == Data([])))
            && (a.status == SystemError <==>
                  (AsksStdin(f, t) && t.stdin.ReadFailed?) || (AsksSock(f, t) && t.fromSock.ReadFailed?))
            && (a.status == Returned <==> AsksSock(f, t) && t.fromSock == Data([]) && a.eof)
            && (a.status == ServerQuit <==> AsksSock(f, t) && t.fromSock == Data([]) && !a.eof)
            && (Reads(f, t).1 <==> Got(AsksStdin(f, t), t.stdin, f.up.iptr) != [])
            && (Reads(f, t).2 <==> Got(AsksSock(f, t), t.fromSock, f.down.iptr) != [])
  {
    hide ReadStdin, ReadSock, Got, Half.Valid;
    HalvesValid(f);
    var a := f;
    if AsksStdin(f, t) {
      StdinLedger(f, t.stdin);
      a := ReadStdin(f, t.stdin).0;
    } else {
      NothingGot(t.stdin, f.up.iptr);
    }
    if AsksSock(f, t) {
      SockLedger(a, t.fromSock);
    } else {
      NothingGot(t.fromSock, f.down.iptr);
    }
  }

  /** How many of the `held` bytes a write takes. */
  function Gone(asked: bool, w: Writing, held: int): (n: int)
    requires held >= 0
    ensures asked && w.Written? && w.count <= held ==> n == w.count
    ensures asked && w.Written? && w.count > held ==> n == held
    ensures !asked || !w.Written? ==> n == 0
  {
    if !asked || !w.Written? then 0 else if w.count <= held then w.count else held
  }

  /** The writes of a turn: as many bytes go as the write took, and an error ends the program. */
  lemma WritesLedger(a: Flow, t: Turn, toStdout: bool, toSock: bool)
    requires a.Valid() && a.status == Running
    ensures var g, heldDown, heldUp := Writes(a, t, toStdout, toSock), |a.down.taken| - a.down.given,
                                       |a.up.taken| - a.up.given;
            var out := toStdout && heldDown > 0;
            var sock := toSock && heldUp > 0 && !(out && t.stdout.WriteFailed?);
            && heldDown >= 0 && heldUp >= 0
            && g.down.given == a.down.given + Gone(out, t.stdout, heldDown)
            && g.up.given == a.up.given + Gone(sock, t.toSock, heldUp)
            && g.up.taken == a.up.taken && g.down.taken == a.down.taken && g.eof == a.eof
            && g.status == (if (out && t.stdout.WriteFailed?) || (sock && t.toSock.WriteFailed?) then SystemError
                            else Running)
  {
    hide OnWire;
  }

  /** One turn of the program, spelt out: what is read is held to the last byte that there is room for; what is written
      leaves from the front, as many bytes as the write took; each stream is written when it is ready, or when something
      was read for it in this very turn; and nothing is written once a read has failed or has found the end of what the
      server sends. `EveryRunValid` says what the server and standard output see. */
  lemma TurnLedger(f: Flow, t: Turn)
    requires f.Valid() && f.status == Running
    ensures var g := Next(f, t);
            var up := Got(AsksStdin(f, t), t.stdin, f.up.iptr);
            var down := Got(AsksSock(f, t), t.fromSock, f.down.iptr);
            var eof := f.eof || (AsksStdin(f, t) && t.stdin == Data([]));
            var failed := (AsksStdin(f, t) && t.stdin.ReadFailed?) || (AsksSock(f, t) && t.fromSock.ReadFailed?);
            var ended := AsksSock(f, t) && t.fromSock == Data([]);
            var heldUp, heldDown := |f.up.taken + up| - f.up.given, |f.down.taken + down| - f.down.given;
            var out := !failed && !ended && heldDown > 0 &&
                       ((t.stdoutReady && |f.down.taken| > f.down.given) || down != []);
            var sock := !failed && !ended && heldUp > 0 && !(out && t.stdout.WriteFailed?) &&
                        ((t.sockWritable && |f.up.taken| > f.up.given) || up != []);
            && heldUp >= 0 && heldDown >= 0
            && g.up.taken == f.up.taken + up && g.down.taken == f.down.taken + down && g.eof == eof
            && g.down.given == f.down.given + Gone(out, t.stdout, heldDown)
            && g.up.given == f.up.given + Gone(sock, t.toSock, heldUp)
            && g.status == (if failed || (out && t.stdout.WriteFailed?) || (sock && t.toSock.WriteFailed?) then
                              SystemError
                            else if !ended then Running
                            else if eof then Returned
                            else ServerQuit)
  {
    hide Reads, Writes, Got, Gone, AsksStdin, AsksSock, OnWire, Flow.Valid, Half.Valid;
    HalvesValid(f);
    ReadsLedger(f, t);
    ReadsValid(f, t);
    var (a, moreUp, moreDown) := Reads(f, t);
    if a.status == Running {
      WritesLedger(a, t, (t.stdoutReady && f.WantsStdout()) || moreDown,
                   (t.sockWritable && f.WantsSockWrite()) || moreUp);
    }
  }

  /** Reads and writes that would block change nothing. */
  lemma BlockedTurn(f: Flow, t: Turn)
    requires f.status == Running
    requires AsksStdin(f, t) ==> t.stdin.ReadBlocked?
    requires AsksSock(f, t) ==> t.fromSock.ReadBlocked?
    requires t.stdout.WriteBlocked? && t.toSock.WriteBlocked?
    ensures Next(f, t) == f
  {
  }

  /** The bytes read from standard input in a run, each read cut to the room there was in the buffer. */
  function FromStdin(script: seq<Turn>): seq<Byte>
  {
    if script == [] then []
    else
      var init, t := script[..|script| - 1], script[|script| - 1];
      EveryRunValid(init);
      var f := Run(START, init);
      FromStdin(init) + Got(f.status == Running && AsksStdin(f, t), t.stdin, f.up.iptr)
  }

  /** And those read from the socket. */
  function FromServer(script: seq<Turn>): seq<Byte>
  {
    if script == [] then []
    else
      var init, t := script[..|script| - 1], script[|script| - 1];
      EveryRunValid(init);
      var f := Run(START, init);
      FromServer(init) + Got(f.status == Running && AsksSock(f, t), t.fromSock, f.down.iptr)
  }

  /** In every run, the bytes taken in are those that the reads gave, all of them and in order. */
  lemma {:induction false} TakenFromScript(script: seq<Turn>)
    ensures Run(START, script).up.taken == FromStdin(script)
    ensures Run(START, script).down.taken == FromServer(script)
  {
    if script != [] {
      var init, t := script[..|script| - 1], script[|script| - 1];
      TakenFromScript(init);
      EveryRunValid(init);
      var f := Run(START, init);
      if f.status == Running {
        TurnLedger(f, t);
      }
      hide AsksStdin, AsksSock, OnWire, Flow.Valid, Reads, Writes;
    }
  }

  /** When the server closes the connection the client returns at once, with nothing more shown: what it has not shown
      by then is what the buffer holds. `Client.TakeTurn` says it of the pointers. */
  lemma ShownOnReturn(f: Flow, t: Turn)
    requires f.Valid() && f.status == Running && Next(f, t).status == Returned
    ensures var g := Next(f, t); g.shown == f.shown && g.down == f.down
    ensures var g := Next(f, t); g.shown == g.down.taken <==> !f.down.Pending()
  {
    AllOut(f);
    var (a, moreUp, moreDown) := Reads(f, t);
    if a.status == Running {
      WritesGoOn(a, t, (t.stdoutReady && f.WantsStdout()) || moreDown,
                 (t.sockWritable && f.WantsSockWrite()) || moreUp);
    }
    hide OnWire, Writes, Taken;
  }

  /** Standard output takes all it is offered. */
  predicate TakesAll(w: Writing) { w.Written? && w.count >= MAXLINE }

  /** What is read from the server is offered to standard output in the same turn. */
  lemma ShownInTurn(f: Flow, t: Turn)
    requires f.Valid() && !f.down.Pending() && TakesAll(t.stdout) && Next(f, t).status != SystemError
    ensures !Next(f, t).down.Pending()
  {
    NextValid(f, t);
    if f.status == Running {
      ReadsDown(f, t);
      var (a, moreUp, moreDown) := Reads(f, t);
      if a.status == Running {
        ReadsValid(f, t);
        WritesDown(a, t, (t.stdoutReady && f.WantsStdout()) || moreDown,
                   (t.sockWritable && f.WantsSockWrite()) || moreUp);
      }
    }
    hide OnWire, Reads, Writes, Taken, Min;
  }

  lemma ReadsDown(f: Flow, t: Turn)
    requires f.Valid() && f.status == Running && !f.down.Pending()
    ensures var (a, _, moreDown) := Reads(f, t); a.down.Pending() ==> moreDown && a.status == Running
  {
    hide OnWire, Taken;
  }

  lemma WritesDown(f: Flow, t: Turn, toStdout: bool, toSock: bool)
    requires f.Valid() && f.status == Running && TakesAll(t.stdout)
    ensures toStdout || !f.down.Pending() ==> !Writes(f, t, toStdout, toSock).down.Pending()
  {
    hide OnWire;
  }

  /** If standard output takes all it is offered in every turn, then in every run that ends without an error everything
      received has been shown. */
  lemma AllShown(script: seq<Turn>)
    requires forall k :: 0 <= k < |script| ==> TakesAll(script[k].stdout)
    requires Run(START, script).status != SystemError
    ensures Run(START, script).shown == Run(START, script).down.taken
  {
    EveryRunValid(script);
    NonePending(script);
    var f := Run(START, script);
    assert f.shown == f.down.Out() && f.down.given == |f.down.taken|;
    hide Run, OnWire;
  }

  lemma {:induction false} NonePending(script: seq<Turn>)
    requires forall k :: 0 <= k < |script| ==> TakesAll(script[k].stdout)
    requires Run(START, script).status != SystemError
    ensures !Run(START, script).down.Pending()
  {
    if script != [] {
      var init, last := script[..|script| - 1], script[|script| - 1];
      EveryRunValid(init);
      assert Run(START, init).status == SystemError ==> Run(START, script).status == SystemError;
      NonePending(init);
      hide OnWire, Next, TakesAll;
      ShownInTurn(Run(START, init), last);
    }
  }

  lemma AllOut(f: Flow)
    requires f.Valid()
    ensures f.shown == f.down.taken <==> !f.down.Pending()
  {
    assert |f.down.Out()| == f.down.given && f.down.taken[..|f.down.taken|] == f.down.taken;
    hide OnWire;
  }

  lemma WritesGoOn(f: Flow, t: Turn, toStdout: bool, toSock: bool)
    requires f.status == Running
    ensures Writes(f, t, toStdout, toSock).status != Returned
  {
  }

  /** So a reply can be lost: here one byte of it, which standard output was not ready for. */
  lemma ReplyLost()
    ensures var script := [
              Turn(true, true, false, false, Data([]), Data([65]), WriteBlocked, WriteBlocked),
              Turn(false, true, false, false, Data([]), Data([]), WriteBlocked, WriteBlocked)];
            var g := Run(START, script);
            g.status == Returned && g.down.taken == [65] && g.shown == []
  {
    var one := Turn(true, true, false, false, Data([]), Data([65]), WriteBlocked, WriteBlocked);
    var two := Turn(false, true, false, false, Data([]), Data([]), WriteBlocked, WriteBlocked);
    assert [one, two][..1] == [one] && [one][..0] == [];
    var f := Next(START, one);
    assert Reads(START, one).0.down == Half([65], 0, 1) by {
      assert Taken([65], MAXLINE) == [65];
    }
    assert f.down == Half([65], 0, 1) && f.eof && f.status == Running;
    assert Run(START, [one]) == f;
  }

  /** After the end of standard input, as long as the connection lasts and takes a byte each turn, every byte is
      written and the FIN sent. */
  lemma {:induction false} Drains(f: Flow, script: seq<Turn>)
    requires f.Valid() && f.eof && Run(f, script).status == Running
    requires forall k :: 0 <= k < |script| ==>
               script[k].sockWritable && script[k].toSock.Written? && script[k].toSock.count >= 1
    ensures var g := Run(f, script);
            g.eof && g.up.taken == f.up.taken && g.up.given >= Min(f.up.given + |script|, |f.up.taken|)
    ensures |script| >= |f.up.taken| - f.up.given ==> Run(f, script).wire == OnWire(f.up.taken) + [Fin]
  {
    if script != [] {
      var init, last := script[..|script| - 1], script[|script| - 1];
      var g := Run(f, init);
      Drains(f, init);
      RunValid(f, init);
      DrainsOnce(g, last);
    }
    RunValid(f, script);
    FinComesLast(Run(f, script));
    hide Next, OnWire;
  }

  lemma DrainsOnce(f: Flow, t: Turn)
    requires f.Valid() && f.eof && f.status == Running && Next(f, t).status == Running
    requires t.sockWritable && t.toSock.Written? && t.toSock.count >= 1
    ensures var g := Next(f, t); g.eof && g.up.taken == f.up.taken && g.up.given >= Min(f.up.given + 1, |f.up.taken|)
  {
    hide OnWire;
  }

  lemma NoTurns(f: Flow, script: seq<Turn>)
    ensures Run(f, script[..0]) == f
  {
  }

  lemma OneMoreTurn(f: Flow, script: seq<Turn>, i: nat)
    requires i < |script|
    ensures Run(f, script[..i + 1]) == Next(Run(f, script[..i]), script[i])
  {
    assert script[..i + 1][..i] == script[..i];
    hide Next;
  }

  lemma NoMoreTurns(f: Flow, t: Turn)
    requires f.status != Running
    ensures Next(f, t) == f
  {
  }

  // ----- the program

  /** One buffer with its two pointers, and all that has gone into it and come out of it. */
  class Channel {
    const buf: array<Byte>
    var iptr: nat
    var optr: nat
    ghost var taken: seq<Byte>
    ghost var given: nat

    ghost function Now(): Half
      reads this
    {
      Half(taken, given, iptr)
    }

    ghost predicate Valid()
      reads this, buf
    {
      && buf.Length == MAXLINE && Now().Valid()
      && optr == iptr - (|taken| - given) && buf[optr..iptr] == taken[given..]
    }

    constructor ()
      ensures Valid() && fresh(buf) && Now() == Half([], 0, 0)
    {
      buf := new Byte[MAXLINE];
      iptr, optr, taken, given := 0, 0, [], 0;
    }

    lemma PendingIff()
      requires Valid()
      ensures Now().Pending() <==> optr != iptr
      ensures 0 <= Now().given == given <= |taken| && Now().taken == taken && |taken| - given == iptr - optr
    {
    }

    /** The next `n` bytes that the buffer holds. */
    ghost function Slice(n: nat): (bytes: seq<Byte>)
      requires Valid() && n <= iptr - optr
      reads this, buf
      ensures bytes == taken[given..given + n]
    {
      assert buf[optr..optr + n] == buf[optr..iptr][..n];
      buf[optr..optr + n]
    }

    /** The bytes of a read that gave some. */
    method Put(bytes: seq<Byte>)
      requires Valid() && 0 < |bytes| <= MAXLINE - iptr
      modifies `iptr, `taken, buf
      ensures Valid() && Now() == old(Now()).Put(bytes)
    {
      ghost var held := buf[optr..iptr];
      forall k | 0 <= k < |bytes| {
        buf[iptr + k] := bytes[k];
      }
      assert buf[optr..iptr + |bytes|] == held + bytes;
      assert (taken + bytes)[given..] == taken[given..] + bytes;
      iptr := iptr + |bytes|;
      taken := taken + bytes;
    }

    /** A write of `n` of the bytes held. An emptied buffer starts again from the beginning. */
    method Take(n: nat)
      requires Valid() && n <= iptr - optr && optr != iptr
      modifies `iptr, `optr, `given
      ensures Valid() && Now() == old(Now()).Take(n)
    {
      given := given + n;
      optr := optr + n;
      if optr == iptr {
        optr, iptr := 0, 0;
      }
    }
  }

  lemma StdoutIs(f: Flow, w: Writing)
    requires f.down.Pending()
    ensures var n := if w.Written? then Min(w.count, |f.down.taken| - f.down.given) else 0;
            WriteStdout(f, w) ==
            match w
            case WriteBlocked => f
            case WriteFailed => f.(status := SystemError)
            case Written(_) =>
              f.(down := f.down.Take(n), shown := f.shown + f.down.taken[f.down.given..f.down.given + n])
  {
  }

  lemma SockIs(f: Flow, w: Writing)
    requires f.up.Pending()
    ensures var n := if w.Written? then Min(w.count, |f.up.taken| - f.up.given) else 0;
            var sent := f.wire + OnWire(f.up.taken[f.up.given..f.up.given + n]);
            WriteSock(f, w) ==
            match w
            case WriteBlocked => f
            case WriteFailed => f.(status := SystemError)
            case Written(_) =>
              f.(up := f.up.Take(n), wire := if f.eof && !f.up.Take(n).Pending() then sent + [Fin] else sent)
  {
    hide OnWire;
  }

  class Client {
    const up: Channel
    const down: Channel
    var stdineof: bool
    var status: Status
    /** What has been sent to the server. */
    ghost var wire: seq<Item>
    /** What standard output has been given. */
    ghost var shown: seq<Byte>

    ghost function Now(): Flow
      reads this, up, down
    {
      Flow(up.Now(), down.Now(), stdineof, status, wire, shown)
    }

    ghost predicate Valid()
      reads this, up, down, up.buf, down.buf
    {
      up != down && up.buf != down.buf && up.Valid() && down.Valid()
    }

    constructor ()
      ensures Valid() && Now().Valid() && Now() == START
      ensures fresh(up) && fresh(down) && fresh(up.buf) && fresh(down.buf)
    {
      up := new Channel();
      down := new Channel();
      stdineof, status, wire, shown := false, Running, [], [];
      new;
      EveryRunValid([]);
    }

    method FromStdin(r: Reading) returns (tryWrite: bool)
      requires Valid() && Now().WantsStdin() && status == Running
      modifies this, up, up.buf
      ensures Valid() && (Now(), tryWrite) == ReadStdin(old(Now()), r)
    {
      tryWrite := false;
      match r
      case ReadBlocked =>
      case ReadFailed =>
        status := SystemError;
      case Data(bytes) =>
        if bytes == [] {
          stdineof := true;
          if up.optr == up.iptr {
            wire := wire + [Fin];
          }
        } else {
          up.Put(Taken(bytes, MAXLINE - up.iptr));
          tryWrite := true;
        }
    }

    method FromSock(r: Reading) returns (tryWrite: bool)
      requires Valid() && Now().WantsSockRead() && status == Running
      modifies this, down, down.buf
      ensures Valid() && (Now(), tryWrite) == ReadSock(old(Now()), r)
    {
      tryWrite := false;
      match r
      case ReadBlocked =>
      case ReadFailed =>
        status := SystemError;
      case Data(bytes) =>
        if bytes == [] {
          status := if stdineof then Returned else ServerQuit;
        } else {
          down.Put(Taken(bytes, MAXLINE - down.iptr));
          tryWrite := true;
        }
    }

    lemma NowIs()
      ensures Now() == Flow(up.Now(), down.Now(), stdineof, status, wire, shown)
    {
    }

    lemma ValidIs()
      ensures Valid() <==> up != down && up.buf != down.buf && up.Valid() && down.Valid()
    {
    }

    method ToStdout(w: Writing)
      requires Valid() && down.optr != down.iptr && status == Running
      modifies this, down
      ensures Valid() && Now() == WriteStdout(old(Now()), w)
    {
      hide *;
      ValidIs();
      NowIs();
      down.PendingIff();
      StdoutIs(Now(), w);
      match w
      case WriteBlocked =>
      case WriteFailed =>
        status := SystemError;
        NowIs();
        ValidIs();
      case Written(count) =>
        var n := Min(count, down.iptr - down.optr);
        shown := shown + down.Slice(n);
        down.Take(n);
        NowIs();
        ValidIs();
    }

    method ToSock(w: Writing)
      requires Valid() && up.optr != up.iptr && status == Running
      modifies this, up
      ensures Valid() && Now() == WriteSock(old(Now()), w)
    {
      hide *;
      ValidIs();
      NowIs();
      up.PendingIff();
      SockIs(Now(), w);
      match w
      case WriteBlocked =>
      case WriteFailed =>
        status := SystemError;
        NowIs();
        ValidIs();
      case Written(count) =>
        var n := Min(count, up.iptr - up.optr);
        wire := wire + OnWire(up.Slice(n));
        up.Take(n);
        up.PendingIff();
        if up.optr == up.iptr && stdineof {
          wire := wire + [Fin];
        }
        NowIs();
        ValidIs();
    }

    method TakeReads(t: Turn) returns (moreUp: bool, moreDown: bool)
      requires Valid() && status == Running
      modifies this, up, down, up.buf, down.buf
      ensures Valid() && (Now(), moreUp, moreDown) == Reads(old(Now()), t)
    {
      moreUp, moreDown := false, false;
      var sockReadSet := t.sockReadable && down.iptr < MAXLINE;
      hide ReadStdin, ReadSock;
      if t.stdinReady && !stdineof && up.iptr < MAXLINE {
        moreUp := FromStdin(t.stdin);
      }
      if status != Running {
        moreUp := false;
      } else if sockReadSet {
        moreDown := FromSock(t.fromSock);
      }
    }

    method TakeWrites(t: Turn, toStdout: bool, toSock: bool)
      requires Valid() && status == Running
      modifies this, up, down
      ensures Valid() && Now() == Writes(old(Now()), t, toStdout, toSock)
    {
      hide WriteSock, WriteStdout;
      if toStdout && down.optr != down.iptr {
        ToStdout(t.stdout);
      }
      if status == Running && toSock && up.optr != up.iptr {
        ToSock(t.toSock);
      }
    }

    /** One turn of the loop, from the call of select on. */
    method TakeTurn(t: Turn)
      requires Valid() && Now().Valid() && status == Running
      modifies this, up, down, up.buf, down.buf
      ensures Valid() && Now().Valid() && Now() == Next(old(Now()), t)
      // on return, everything received has been shown exactly if the pointers met when the end of the data was read
      ensures status == Returned ==> (shown == down.taken <==> old(down.optr == down.iptr))
    {
      NextValid(Now(), t);
      ghost var was := Now();
      assert down.optr == down.iptr <==> was.shown == was.down.taken by {
        down.PendingIff();
        AllOut(was);
      }
      var sockWriteSet := t.sockWritable && up.optr != up.iptr;
      var stdoutSet := t.stdoutReady && down.optr != down.iptr;
      hide Reads, Writes;
      var moreUp, moreDown := TakeReads(t);
      if status == Running {
        TakeWrites(t, stdoutSet || moreDown, sockWriteSet || moreUp);
      }
      if status == Returned {
        ShownOnReturn(was, t);
      }
    }

    lemma StatusIs()
      ensures Now().status == status
    {
    }

    /** The loop, for as long as the script of turns goes on. */
    method Loop(script: seq<Turn>)
      requires Valid() && Now().Valid()
      modifies this, up, down, up.buf, down.buf
      ensures Valid() && Now().Valid() && Now() == Run(old(Now()), script)
    {
      hide *;
      NoTurns(Now(), script);
      for i := 0 to |script|
        invariant Valid() && Now().Valid() && Now() == Run(old(Now()), script[..i])
      {
        OneMoreTurn(old(Now()), script, i);
        StatusIs();
        if status == Running {
          TakeTurn(script[i]);
        } else {
          NoMoreTurns(Now(), script[i]);
        }
      }
      assert script[..|script|] == script;
    }
  }
}
