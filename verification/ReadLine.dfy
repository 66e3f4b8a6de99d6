/** Reading a line from a descriptor: the version that reads a buffer full at a time against the version that reads
    one byte at a time. */
module ReadLine {
  import opened Text
  import opened Unp

  const NEWLINE: Byte := 10

  /** What the reads of a descriptor come upon, in order: a byte, an interrupting signal, another error, the end of
      the file. After the last of them there is the end of the file for ever. */
  datatype Item = Octet(b: Byte) | Interrupt | Fault | EndOfFile

  datatype Ending = Newline | Full | Ended | Failed

  /** A line as the caller gets it: the bytes stored, why there are no more, and what is left to read. */
  datatype Line = Line(bytes: seq<Byte>, ending: Ending, rest: seq<Item>)

  /** What reading up to `room` bytes of a line, byte by byte, comes to. */
  function NextLine(items: seq<Item>, room: nat): (line: Line)
    ensures |line.bytes| <= room && |line.rest| <= |items|
    decreases |items|
  {
    if room == 0 then Line([], Full, items)
    else if items == [] then Line([], Ended, [])
    else match items[0]
      case Interrupt => NextLine(items[1..], room)
      case Fault => Line([], Failed, items[1..])
      case EndOfFile => Line([], Ended, items[1..])
      case Octet(b) =>
        if b == NEWLINE then Line([b], Newline, items[1..])
        else
          var more := NextLine(items[1..], room - 1);
          more.(bytes := [b] + more.bytes)
  }

  /** The value returned for a line, when the caller's buffer has `maxlen` bytes. */
  function Returned(line: Line, maxlen: nat): int
  {
    match line.ending
    case Failed => -1
    case Full => maxlen
    case Newline => |line.bytes|
    case Ended => |line.bytes|
  }

  // ----- what the lines are

  function Octets(s: seq<Byte>): (items: seq<Item>)
    ensures |items| == |s|
  {
    Mapped(b => Octet(b), s)
  }

  /** A line of plain bytes ends with the first newline, or short of it with the room or the bytes. */
  ghost predicate FirstLine(s: seq<Byte>, room: nat, line: Line)
  {
    && line.bytes <= s && line.rest == Octets(s[|line.bytes|..])
    && (forall k :: 0 <= k < |line.bytes| - 1 ==> line.bytes[k] != NEWLINE)
    && (line.ending == Newline <==> line.bytes != [] && line.bytes[|line.bytes| - 1] == NEWLINE)
    && (line.ending == Full <==> |line.bytes| == room && line.ending != Newline)
    && (line.ending == Ended ==> line.bytes == s)
    && line.ending != Failed
  }

  lemma {:induction false} LineOfBytes(s: seq<Byte>, room: nat)
    ensures FirstLine(s, room, NextLine(Octets(s), room))
  {
    if room == 0 || s == [] {
      assert s[0..] == s;
    } else {
      var more := NextLine(Octets(s[1..]), room - 1);
      assert Octets(s)[0] == Octet(s[0]) && Octets(s)[1..] == Octets(s[1..]);
      assert s[0] == NEWLINE ==> NextLine(Octets(s), room) == Line([s[0]], Newline, Octets(s[1..]));
      assert s[0] != NEWLINE ==> NextLine(Octets(s), room) == Line([s[0]] + more.bytes, more.ending, more.rest);
      hide NextLine, Octets;
      LineOfBytes(s[1..], room - 1);
      FirstLineLonger(s, room, more);
    }
  }

  lemma FirstLineLonger(s: seq<Byte>, room: nat, more: Line)
    requires room > 0 && s != [] && FirstLine(s[1..], room - 1, more)
    ensures s[0] == NEWLINE ==> FirstLine(s, room, Line([s[0]], Newline, Octets(s[1..])))
    ensures s[0] != NEWLINE ==> FirstLine(s, room, Line([s[0]] + more.bytes, more.ending, more.rest))
  {
    assert s == [s[0]] + s[1..];
    assert s[1..][|more.bytes|..] == s[|more.bytes| + 1..];
    hide Octets;
  }

  function WithoutInterrupts(items: seq<Item>): (r: seq<Item>)
    ensures |r| <= |items|
  {
    if items == [] then []
    else if items[0] == Interrupt then WithoutInterrupts(items[1..])
    else [items[0]] + WithoutInterrupts(items[1..])
  }

  /** Signals change nothing about the line or about the lines after it. */
  lemma {:induction false} InterruptsDoNotMatter(items: seq<Item>, room: nat)
    ensures var with, without := NextLine(items, room), NextLine(WithoutInterrupts(items), room);
            with.bytes == without.bytes && with.ending == without.ending && WithoutInterrupts(with.rest) == without.rest
    decreases |items|
  {
    if room > 0 && items != [] {
      InterruptsDoNotMatter(items[1..], room);
      InterruptsDoNotMatter(items[1..], room - 1);
      assert items[0] != Interrupt ==> WithoutInterrupts(items)[1..] == WithoutInterrupts(items[1..]);
    }
  }

  /** A line out of any data: signals apart, it is bytes from the front, up to the first newline, an error, the end of
      the file or the room, whichever comes first; and what is left is what comes after, without the error or the end of
      the file. */
  ghost predicate IsLineOf(w: seq<Item>, room: nat, bytes: seq<Byte>, ending: Ending, rest: seq<Item>)
  {
    var n := |bytes|;
    && n <= |w| && n <= room
    && (forall k :: 0 <= k < n ==> w[k] == Octet(bytes[k]))
    && (forall k :: 0 <= k < n - 1 ==> bytes[k] != NEWLINE)
    && (ending == Newline <==> n > 0 && bytes[n - 1] == NEWLINE)
    && (ending == Full <==> n == room && ending != Newline)
    && (ending == Failed ==> n < |w| && w[n] == Fault && rest == w[n + 1..])
    && (ending == Ended ==> if n == |w| then rest == [] else w[n] == EndOfFile && rest == w[n + 1..])
    && (ending == Full || ending == Newline ==> rest == w[n..])
  }

  lemma {:induction false} LineOfItems(items: seq<Item>, room: nat)
    ensures var line := NextLine(items, room);
            IsLineOf(WithoutInterrupts(items), room, line.bytes, line.ending, WithoutInterrupts(line.rest))
    decreases |items|
  {
    hide *;
    if room == 0 || items == [] {
      NoLine(items, room);
    } else {
      FirstItem(items);
      LineStep(items, room);
      var w, more := WithoutInterrupts(items), NextLine(items[1..], room - 1);
      if items[0] == Interrupt {
        LineOfItems(items[1..], room);
      } else if items[0].Octet? && items[0].b != NEWLINE {
        LineOfItems(items[1..], room - 1);
        assert w[1..] == WithoutInterrupts(items[1..]);
        LongerLine(w, room, more.bytes, more.ending, WithoutInterrupts(more.rest));
      } else {
        ShortLine(items[0], WithoutInterrupts(items[1..]), room);
      }
    }
  }

  lemma NoLine(items: seq<Item>, room: nat)
    requires room == 0 || items == []
    ensures var line := NextLine(items, room);
            IsLineOf(WithoutInterrupts(items), room, line.bytes, line.ending, WithoutInterrupts(line.rest))
  {
    assert WithoutInterrupts([]) == [];
    if room == 0 {
      hide WithoutInterrupts;
    }
  }

  lemma LineStep(items: seq<Item>, room: nat)
    requires items != [] && room > 0
    ensures NextLine(items, room) ==
            match items[0]
            case Interrupt => NextLine(items[1..], room)
            case Fault => Line([], Failed, items[1..])
            case EndOfFile => Line([], Ended, items[1..])
            case Octet(b) =>
              if b == NEWLINE then Line([b], Newline, items[1..])
              else
                var more := NextLine(items[1..], room - 1);
                Line([b] + more.bytes, more.ending, more.rest)
  {
  }

  lemma ShortLine(first: Item, w: seq<Item>, room: nat)
    requires room > 0
    ensures first == Fault ==> IsLineOf([first] + w, room, [], Failed, w)
    ensures first == EndOfFile ==> IsLineOf([first] + w, room, [], Ended, w)
    ensures first == Octet(NEWLINE) ==> IsLineOf([first] + w, room, [NEWLINE], Newline, w)
  {
    assert ([first] + w)[1..] == w;
  }

  lemma LongerLine(w: seq<Item>, room: nat, bytes: seq<Byte>, ending: Ending, rest: seq<Item>)
    requires w != [] && w[0].Octet? && w[0].b != NEWLINE && room > 0
    requires IsLineOf(w[1..], room - 1, bytes, ending, rest)
    ensures IsLineOf(w, room, [w[0].b] + bytes, ending, rest)
  {
    var n := |bytes|;
    assert w[1..][n..] == w[n + 1..];
    if n < |w| - 1 {
      assert w[1..][n + 1..] == w[n + 2..] && w[1..][n] == w[n + 1];
    }
    assert forall k :: 0 < k < n + 1 ==> w[k] == w[1..][k - 1];
  }

  /** Taking the signals out of data takes them out of each part of it, and leaves data without signals alone. */
  lemma {:induction false} SignalsTakenOut(a: seq<Item>, b: seq<Item>)
    ensures WithoutInterrupts(a + b) == WithoutInterrupts(a) + WithoutInterrupts(b)
  {
    hide *;
    if a == [] {
      NoSignals([]);
      assert a + b == b;
    } else {
      SignalsTakenOut(a[1..], b);
      FirstItem(a);
      FirstItem(a + b);
      assert (a + b)[1..] == a[1..] + b;
      Append3([a[0]], WithoutInterrupts(a[1..]), WithoutInterrupts(b));
    }
  }

  lemma FirstItem(items: seq<Item>)
    requires items != []
    ensures var more := WithoutInterrupts(items[1..]);
            WithoutInterrupts(items) == if items[0] == Interrupt then more else [items[0]] + more
  {
  }

  lemma {:induction false} NoSignals(a: seq<Item>)
    ensures Interrupt !in WithoutInterrupts(a) && (Interrupt !in a ==> WithoutInterrupts(a) == a)
    ensures WithoutInterrupts([Interrupt]) == [] && WithoutInterrupts([]) == []
  {
    assert [Interrupt][1..] == [];
    if a != [] {
      NoSignals(a[1..]);
      FirstItem(a);
      assert a == [a[0]] + a[1..];
      hide WithoutInterrupts;
    }
  }

  /** The first `k` of the items are bytes other than newlines. */
  predicate Plain(items: seq<Item>, k: nat)
  {
    k <= |items| && forall j :: 0 <= j < k ==> items[j].Octet? && items[j].b != NEWLINE
  }

  /** An error comes before a newline, before the end of the file, and before `room` bytes. */
  predicate FaultFirst(items: seq<Item>, room: nat)
  {
    exists k :: 0 <= k < |items| && k < room && items[k] == Fault && Plain(items, k)
  }

  /** The value returned is the number of bytes stored exactly when, signals apart, the data begin neither with as many
      bytes other than newlines as there is room for, nor with fewer and then an error. In the first case it is the size
      of the buffer, and in the second -1. */
  lemma CountReturned(items: seq<Item>, maxlen: nat)
    requires maxlen >= 1
    ensures var line, w := NextLine(items, maxlen - 1), WithoutInterrupts(items);
            && (Returned(line, maxlen) == |line.bytes| <==> !Plain(w, maxlen - 1) && !FaultFirst(w, maxlen - 1))
            && (Returned(line, maxlen) == maxlen <==> Plain(w, maxlen - 1))
            && (Returned(line, maxlen) == -1 <==> FaultFirst(w, maxlen - 1))
            && (Plain(w, maxlen - 1) ==> |line.bytes| == maxlen - 1)
    ensures var line := NextLine(items, maxlen - 1);
            && (Returned(line, maxlen) == |line.bytes| <==> line.ending == Newline || line.ending == Ended)
            && (Returned(line, maxlen) == maxlen <==> line.ending == Full)
            && (line.ending == Full ==> |line.bytes| == maxlen - 1)
  {
    FullMeans(items, maxlen - 1);
    EndingOf(items, maxlen - 1);
    hide NextLine, WithoutInterrupts, Plain, FaultFirst;
  }

  /** For instance "abc" with room for two bytes and the terminator: two bytes are stored, and the value is three. */
  lemma CutLine()
    ensures var line := NextLine(Octets([97, 98, 99]), 2);
            line.bytes == [97, 98] && line.rest == Octets([99]) && Returned(line, 3) == 3 != |line.bytes|
  {
    var items := Octets([97, 98, 99]);
    assert items[1..] == [Octet(98), Octet(99)] && items[1..][1..] == [Octet(99)] == Octets([99]);
    assert NextLine(items[1..][1..], 0) == Line([], Full, items[1..][1..]);
    assert NextLine(items[1..], 1) == Line([98], Full, Octets([99]));
  }

  /** How a line ends can be told from the data. */
  lemma {:induction false} EndingOf(items: seq<Item>, room: nat)
    ensures var ending, w := NextLine(items, room).ending, WithoutInterrupts(items);
            (ending == Full <==> Plain(w, room)) && (ending == Failed <==> FaultFirst(w, room))
    decreases |items|
  {
    if room > 0 && items != [] {
      var w := WithoutInterrupts(items);
      EndingOf(items[1..], room);
      EndingOf(items[1..], room - 1);
      if items[0] != Interrupt {
        assert w[0] == items[0] && w[1..] == WithoutInterrupts(items[1..]);
        EndingStep(w, room);
      }
    }
  }

  lemma EndingStep(w: seq<Item>, room: nat)
    requires w != [] && room > 0
    ensures Plain(w, room) <==> w[0].Octet? && w[0].b != NEWLINE && Plain(w[1..], room - 1)
    ensures FaultFirst(w, room) <==>
            w[0] == Fault || (w[0].Octet? && w[0].b != NEWLINE && FaultFirst(w[1..], room - 1))
  {
    assert w == [w[0]] + w[1..];
    if w[0] == Fault {
      assert Plain(w, 0);
    }
    if k :| 0 <= k < |w[1..]| && k < room - 1 && w[1..][k] == Fault && Plain(w[1..], k) {
      if w[0].Octet? && w[0].b != NEWLINE {
        assert w[k + 1] == Fault && Plain(w, k + 1);
      }
    }
    if k :| 0 <= k < |w| && k < room && w[k] == Fault && Plain(w, k) {
      if k > 0 {
        assert w[1..][k - 1] == Fault && Plain(w[1..], k - 1);
      }
    }
  }

  lemma {:induction false} FullMeans(items: seq<Item>, room: nat)
    ensures var line := NextLine(items, room); line.ending == Full ==> |line.bytes| == room
    decreases |items|
  {
    if room > 0 && items != [] {
      FullMeans(items[1..], room);
      FullMeans(items[1..], room - 1);
    }
  }

  /** What is left once leading signals are over. */
  function Settled(items: seq<Item>): (r: seq<Item>)
    ensures |r| <= |items| && (r != [] ==> r[0] != Interrupt)
  {
    if items != [] && items[0] == Interrupt then Settled(items[1..]) else items
  }

  lemma {:induction false} SettledLine(items: seq<Item>, room: nat)
    requires room > 0
    ensures NextLine(Settled(items), room) == NextLine(items, room)
    decreases |items|
  {
    if items != [] && items[0] == Interrupt {
      SettledLine(items[1..], room);
    }
  }

  // ----- the two programs

  /** A descriptor, read at `pos`. */
  class Descriptor {
    const items: seq<Item>
    var pos: nat

    ghost predicate Valid() reads this { pos <= |items| }

    ghost function Unread(): seq<Item>
      requires Valid()
      reads this
    {
      items[pos..]
    }

    constructor (items: seq<Item>)
      ensures Valid() && this.items == items && pos == 0
    {
      this.items, pos := items, 0;
    }

    /** read: some of the bytes there are, never more than `room`; 0 at the end of the file; -1 on an error, with
        `eintr` for a signal. How many bytes it gives is its own choice. */
    method Read(room: nat) returns (n: int, bytes: seq<Byte>, eintr: bool)
      requires Valid() && room >= 1
      modifies this
      ensures Valid()
      ensures var left := old(Unread());
              && (left == [] ==> n == 0 && Unread() == [])
              && (left != [] && left[0] == EndOfFile ==> n == 0 && Unread() == left[1..])
              && (left != [] && left[0] == Interrupt ==> n == -1 && eintr && Unread() == left[1..])
              && (left != [] && left[0] == Fault ==> n == -1 && !eintr && Unread() == left[1..])
              && (left != [] && left[0].Octet? ==> n >= 1 && left == Octets(bytes) + Unread())
      ensures (n >= 1 ==> |bytes| == n <= room) && (eintr ==> n == -1)
    {
      n, bytes, eintr := 0, [], false;
      if pos < |items| {
        match items[pos]
        case EndOfFile =>
          pos := pos + 1;
        case Interrupt =>
          n, eintr, pos := -1, true, pos + 1;
        case Fault =>
          n, pos := -1, pos + 1;
        case Octet(b) =>
          bytes := [b];
          ghost var left := items[pos..];
          pos := pos + 1;
          assert items[pos..] == left[1..];
          while |bytes| < room && pos < |items| && items[pos].Octet?
            invariant 1 <= |bytes| <= room && pos <= |items| && left == Octets(bytes) + items[pos..]
          {
            var stop: bool := *;
            if stop {
              break;
            }
            MoveOne(left, bytes, items, pos);
            bytes := bytes + [items[pos].b];
            pos := pos + 1;
          }
          n := |bytes|;
      }
    }
  }

  lemma MoveOne(left: seq<Item>, bytes: seq<Byte>, items: seq<Item>, pos: nat)
    requires pos < |items| && items[pos].Octet? && left == Octets(bytes) + items[pos..]
    ensures left == Octets(bytes + [items[pos].b]) + items[pos + 1..]
  {
  }

  /** What fetching one byte does to the items left to read: signals are passed over. */
  ghost predicate Fetched(rc: int, c: Byte, before: seq<Item>, after: seq<Item>)
  {
    var left := Settled(before);
    if left == [] then rc == 0 && after == []
    else
      && after == left[1..]
      && (left[0] == EndOfFile ==> rc == 0)
      && (left[0] == Fault ==> rc == -1)
      && (left[0].Octet? ==> rc == 1 && c == left[0].b)
  }

  /** The one-byte reads of the slow version, repeated after a signal. */
  method ReadOne(fd: Descriptor) returns (rc: int, c: Byte)
    requires fd.Valid()
    modifies fd
    ensures fd.Valid() && Fetched(rc, c, old(fd.Unread()), fd.Unread())
  {
    c := 0;
    while true
      invariant fd.Valid() && Settled(fd.Unread()) == Settled(old(fd.Unread()))
      decreases |fd.Unread()|
    {
      var n, bytes, eintr := fd.Read(1);
      if n == 1 {
        c := bytes[0];
        return 1, c;
      } else if n == 0 {
        return 0, c;
      } else if !eintr {
        return -1, c;
      }
    }
  }

  lemma FetchStep(rc: int, c: Byte, before: seq<Item>, after: seq<Item>, room: nat)
    requires Fetched(rc, c, before, after) && room > 0
    ensures rc == 1 || rc == 0 || rc == -1
    ensures var line := NextLine(before, room);
            && (rc == 0 ==> line == Line([], Ended, after))
            && (rc == -1 ==> line == Line([], Failed, after))
            && (rc == 1 && c == NEWLINE ==> line == Line([c], Newline, after))
            && (rc == 1 && c != NEWLINE ==>
                  var more := NextLine(after, room - 1); line == Line([c] + more.bytes, more.ending, more.rest))
  {
    SettledLine(before, room);
  }

  /** What the caller gets: the value, the line in its buffer with a terminator unless reading failed and the rest of
      the buffer as it was, and what is left to read. */
  ghost predicate Delivered(line: Line, maxlen: nat, was: seq<Byte>, now: seq<Byte>, rc: int, left: seq<Item>)
  {
    && rc == Returned(line, maxlen) && left == line.rest
    && |line.bytes| < |was| == |now|
    && now[..|line.bytes|] == line.bytes
    && now[|line.bytes|] == (if line.ending == Failed then was[|line.bytes|] else 0)
    && forall k :: |line.bytes| < k < |now| ==> now[k] == was[k]
  }

  /** In the middle of a line: it is the bytes stored so far and then what comes of the items left. */
  ghost predicate Reading(line: Line, maxlen: nat, was: seq<Byte>, now: seq<Byte>, ptr: nat, left: seq<Item>)
  {
    && ptr < maxlen <= |was| == |now|
    && (var more := NextLine(left, maxlen - 1 - ptr);
        line == Line(now[..ptr] + more.bytes, more.ending, more.rest))
    && forall k :: ptr <= k < |now| ==> now[k] == was[k]
  }

  lemma ReadingBegins(items: seq<Item>, maxlen: nat, was: seq<Byte>)
    requires 1 <= maxlen <= |was|
    ensures Reading(NextLine(items, maxlen - 1), maxlen, was, was, 0, items)
  {
    assert was[..0] + NextLine(items, maxlen - 1).bytes == NextLine(items, maxlen - 1).bytes;
  }

  lemma ReadingByte(line: Line, maxlen: nat, was: seq<Byte>, now: seq<Byte>, ptr: nat, before: seq<Item>,
                    c: Byte, after: seq<Item>)
    requires Reading(line, maxlen, was, now, ptr, before) && ptr < maxlen - 1 && c != NEWLINE
    requires Fetched(1, c, before, after)
    ensures Reading(line, maxlen, was, now[ptr := c], ptr + 1, after)
  {
    var more := NextLine(after, maxlen - 2 - ptr);
    FetchStep(1, c, before, after, maxlen - 1 - ptr);
    assert now[ptr := c][..ptr + 1] == now[..ptr] + [c];
    assert now[..ptr] + ([c] + more.bytes) == now[..ptr] + [c] + more.bytes;
  }

  lemma ReadingNewline(line: Line, maxlen: nat, was: seq<Byte>, now: seq<Byte>, ptr: nat, before: seq<Item>,
                       after: seq<Item>)
    requires Reading(line, maxlen, was, now, ptr, before) && ptr < maxlen - 1 && Fetched(1, NEWLINE, before, after)
    ensures Delivered(line, maxlen, was, now[ptr := NEWLINE][ptr + 1 := 0], ptr + 1, after)
  {
    FetchStep(1, NEWLINE, before, after, maxlen - 1 - ptr);
    assert line.bytes == now[..ptr] + [NEWLINE];
  }

  lemma ReadingEnds(line: Line, maxlen: nat, was: seq<Byte>, now: seq<Byte>, ptr: nat, before: seq<Item>,
                    rc: int, c: Byte, after: seq<Item>)
    requires Reading(line, maxlen, was, now, ptr, before) && ptr < maxlen - 1 && Fetched(rc, c, before, after)
    ensures rc == 0 ==> Delivered(line, maxlen, was, now[ptr := 0], ptr, after)
    ensures rc != 0 && rc != 1 ==> Delivered(line, maxlen, was, now, -1, after)
  {
    FetchStep(rc, c, before, after, maxlen - 1 - ptr);
    if rc != 1 {
      assert line.bytes == now[..ptr];
    }
  }

  lemma ReadingStep(line: Line, maxlen: nat, was: seq<Byte>, now: seq<Byte>, ptr: nat, before: seq<Item>,
                    rc: int, c: Byte, after: seq<Item>)
    requires Reading(line, maxlen, was, now, ptr, before) && ptr < maxlen - 1 <= |now| - 1
    requires Fetched(rc, c, before, after)
    ensures rc == 1 && c != NEWLINE ==> Reading(line, maxlen, was, now[ptr := c], ptr + 1, after)
    ensures rc == 1 && c == NEWLINE ==> Delivered(line, maxlen, was, now[ptr := c][ptr + 1 := 0], ptr + 1, after)
    ensures rc == 0 ==> Delivered(line, maxlen, was, now[ptr := 0], ptr, after)
    ensures rc != 0 && rc != 1 ==> Delivered(line, maxlen, was, now, -1, after)
  {
    hide *;
    ReadingEnds(line, maxlen, was, now, ptr, before, rc, c, after);
    if rc == 1 && c == NEWLINE {
      ReadingNewline(line, maxlen, was, now, ptr, before, after);
    } else if rc == 1 {
      ReadingByte(line, maxlen, was, now, ptr, before, c, after);
    }
  }

  lemma ReadingFull(line: Line, maxlen: nat, was: seq<Byte>, now: seq<Byte>, left: seq<Item>)
    requires maxlen >= 1 && Reading(line, maxlen, was, now, maxlen - 1, left)
    ensures Delivered(line, maxlen, was, now[maxlen - 1 := 0], maxlen, left)
  {
    assert line.bytes == now[..maxlen - 1];
  }

  method Store(dst: array<Byte>, i: nat, c: Byte)
    requires i < dst.Length
    modifies dst
    ensures dst[..] == old(dst[..])[i := c]
  {
    dst[i] := c;
  }

  /** The slow version, which reads one byte at a time. */
  method SlowReadLine(fd: Descriptor, dst: array<Byte>, maxlen: nat) returns (rc: int)
    requires fd.Valid() && 1 <= maxlen <= dst.Length
    modifies fd, dst
    ensures fd.Valid()
    ensures Delivered(NextLine(old(fd.Unread()), maxlen - 1), maxlen, old(dst[..]), dst[..], rc, fd.Unread())
  {
    ghost var line, was := NextLine(fd.Unread(), maxlen - 1), dst[..];
    ReadingBegins(fd.Unread(), maxlen, was);
    hide *;
    var n, ptr := 1, 0;
    while n < maxlen
      invariant 1 <= n <= maxlen && ptr == n - 1 && fd.Valid()
      invariant Reading(line, maxlen, was, dst[..], ptr, fd.Unread())
    {
      ghost var before, now := fd.Unread(), dst[..];
      var r, c := ReadOne(fd);
      ReadingStep(line, maxlen, was, now, ptr, before, r, c, fd.Unread());
      if r == 1 {
        Store(dst, ptr, c);
        ptr := ptr + 1;
        if c == NEWLINE {
          break;
        }
      } else if r == 0 {
        Store(dst, ptr, 0);
        return n - 1;
      } else {
        return -1;
      }
      n := n + 1;
    }
    if n == maxlen {
      ReadingFull(line, maxlen, was, dst[..], fd.Unread());
    }
    Store(dst, ptr, 0);
    rc := n;
  }

  /** The fast version, with its buffer: `cnt` bytes from `ptr` on have been read and not yet used. */
  class LineReader {
    const fd: Descriptor
    const buf: array<Byte>
    var cnt: int
    var ptr: nat

    ghost predicate Valid()
      reads this, fd
    {
      fd.Valid() && buf.Length == MAXLINE && (cnt > 0 ==> ptr + cnt <= MAXLINE)
    }

    /** What is in the buffer and then what is still unread: all that the simple version would have left. */
    ghost function Left(): seq<Item>
      requires Valid()
      reads this, fd, buf
    {
      if cnt > 0 then Octets(buf[ptr..ptr + cnt]) + fd.Unread() else fd.Unread()
    }

    constructor (fd: Descriptor)
      requires fd.Valid()
      ensures Valid() && this.fd == fd && fresh(buf) && Left() == fd.Unread()
    {
      this.fd := fd;
      buf := new Byte[MAXLINE];
      cnt, ptr := 0, 0;
    }

    /** The read that fills the empty buffer, repeated after a signal. */
    method Fill()
      requires Valid() && cnt <= 0
      modifies this, fd, buf
      ensures Valid() && fd.Valid()
      ensures cnt > 0 ==> ptr == 0 && Left() == Settled(old(Left()))
      ensures cnt <= 0 ==> Fetched(cnt, 0, old(Left()), Left()) && (cnt == 0 || cnt == -1)
    {
      assert Left() == fd.Unread();
      while true
        invariant Valid() && cnt <= 0 && Left() == fd.Unread()
        invariant Settled(fd.Unread()) == Settled(old(Left()))
        decreases |fd.Unread()|
      {
        var n, bytes, eintr := fd.Read(MAXLINE);
        if n > 0 {
          forall k | 0 <= k < n {
            buf[k] := bytes[k];
          }
          assert buf[0..n] == bytes;
          cnt, ptr := n, 0;
          return;
        }
        cnt := n;
        if !eintr {
          return;
        }
      }
    }

    /** Takes the next byte of the buffer. */
    method TakeByte() returns (c: Byte)
      requires Valid() && cnt > 0
      modifies `cnt, `ptr
      ensures Valid() && Fetched(1, c, old(Left()), Left())
    {
      TakeFirst(buf, ptr, cnt);
      LeftIs();
      hide *;
      c := buf[ptr];
      FirstOctet(c, buf[ptr + 1..ptr + cnt], fd.Unread());
      cnt := cnt - 1;
      ptr := ptr + 1;
      LeftIs();
    }

    lemma LeftIs()
      requires fd.Valid() && buf.Length == MAXLINE && 0 <= cnt && ptr + cnt <= MAXLINE
      ensures Valid() && Left() == Octets(buf[ptr..ptr + cnt]) + fd.Unread()
    {
      if cnt == 0 {
        NoOctets(fd.Unread());
      }
      hide Octets;
    }

    /** my_read: the next byte, from the buffer if it has any. */
    method MyRead() returns (rc: int, c: Byte)
      requires Valid()
      modifies this, fd, buf
      ensures Valid() && Fetched(rc, c, old(Left()), Left())
    {
      hide Left, Fetched, Valid;
      c := 0;
      if cnt <= 0 {
        Fill();
        if cnt <= 0 {
          return cnt, c;
        }
      }
      ghost var left := Left();
      c := TakeByte();
      rc := 1;
      FetchedSettled(rc, c, old(Left()), left, Left());
    }

    /** One turn of the loop of the fast version: the next byte goes into the line. */
    method NextInto(dst: array<Byte>, next: nat, maxlen: nat, ghost line: Line, ghost was: seq<Byte>)
      returns (rc: int, c: Byte)
      requires Valid() && next < maxlen - 1 && maxlen <= dst.Length && dst != buf
      requires Reading(line, maxlen, was, dst[..], next, Left())
      modifies this, fd, buf, dst
      ensures Valid()
      ensures rc == 1 && c != NEWLINE ==> Reading(line, maxlen, was, dst[..], next + 1, Left())
      ensures rc == 1 && c == NEWLINE ==> Delivered(line, maxlen, was, dst[..][next + 1 := 0], next + 1, Left())
      ensures rc == 0 ==> Delivered(line, maxlen, was, dst[..][next := 0], next, Left())
      ensures rc != 0 && rc != 1 ==> Delivered(line, maxlen, was, dst[..], -1, Left())
    {
      hide *;
      ghost var before, now := Left(), dst[..];
      rc, c := MyRead();
      ghost var after := Left();
      ReadingStep(line, maxlen, was, now, next, before, rc, c, after);
      assert dst[..] == now;
      if rc == 1 {
        Store(dst, next, c);
        assert Left() == after;
      }
    }

    /** The fast version: the same line, the same value, and the same left to read as the slow version. */
    method FastReadLine(dst: array<Byte>, maxlen: nat) returns (rc: int)
      requires Valid() && 1 <= maxlen <= dst.Length && dst != buf
      modifies this, fd, buf, dst
      ensures Valid()
      ensures Delivered(NextLine(old(Left()), maxlen - 1), maxlen, old(dst[..]), dst[..], rc, Left())
    {
      hide *;
      ghost var line, was := NextLine(Left(), maxlen - 1), dst[..];
      ReadingBegins(Left(), maxlen, was);
      var n, next := 1, 0;
      while n < maxlen
        invariant 1 <= n <= maxlen && next == n - 1 && Valid()
        invariant Reading(line, maxlen, was, dst[..], next, Left())
      {
        var r, c := NextInto(dst, next, maxlen, line, was);
        if r == 1 {
          next := next + 1;
          if c == NEWLINE {
            break;
          }
        } else if r == 0 {
          Store(dst, next, 0);
          return n - 1;
        } else {
          return -1;
        }
        n := n + 1;
      }
      if n == maxlen {
        ReadingFull(line, maxlen, was, dst[..], Left());
      }
      Store(dst, next, 0);
      rc := n;
    }

    /** readlinebuf: lets the caller see the bytes that were read and not used. */
    method ReadLineBuf() returns (n: int, bytes: seq<Byte>)
      requires Valid()
      ensures n == cnt && |bytes| == (if n > 0 then n else 0) && Left() == Octets(bytes) + fd.Unread()
    {
      n, bytes := cnt, if cnt > 0 then buf[ptr..ptr + cnt] else [];
    }
  }

  lemma TakeFirst(buf: array<Byte>, at: nat, n: nat)
    requires n > 0 && at + n <= buf.Length
    ensures buf[at..at + n] == [buf[at]] + buf[at + 1..at + n]
  {
  }

  lemma NoOctets(unread: seq<Item>)
    ensures Octets([]) + unread == unread
  {
  }

  lemma FetchedSettled(rc: int, c: Byte, before: seq<Item>, settled: seq<Item>, after: seq<Item>)
    requires settled == before || settled == Settled(before)
    requires Fetched(rc, c, settled, after)
    ensures Fetched(rc, c, before, after)
  {
  }

  lemma FirstOctet(c: Byte, more: seq<Byte>, unread: seq<Item>)
    ensures Fetched(1, c, Octets([c] + more) + unread, Octets(more) + unread)
  {
    var left := Octets([c] + more) + unread;
    assert left[1..] == Octets(more) + unread;
  }

  /** What is delivered leaves no choice: the two versions agree on everything the caller can see, and on what they
      leave to be read. */
  lemma DeliveredOnce(items: seq<Item>, maxlen: nat, was: seq<Byte>, now: seq<Byte>, rc: int, left: seq<Item>,
                      now': seq<Byte>, rc': int, left': seq<Item>)
    requires maxlen >= 1
    requires Delivered(NextLine(items, maxlen - 1), maxlen, was, now, rc, left)
    requires Delivered(NextLine(items, maxlen - 1), maxlen, was, now', rc', left')
    ensures now == now' && rc == rc' && left == left'
  {
    var line := NextLine(items, maxlen - 1);
    forall k | 0 <= k < |now| ensures now[k] == now'[k] {
      if k < |line.bytes| {
        assert now[..|line.bytes|][k] == now'[..|line.bytes|][k];
      }
    }
  }
}
