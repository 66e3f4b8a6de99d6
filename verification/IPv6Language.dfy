/** Which texts inet_pton6 accepts, exactly, and how they compare with section 2.2 of RFC 4291. */
module IPv6Language {
  import opened Text
  import opened IPv4Text
  import opened IPv6Parser

  // ----- forms of texts

  /** All groups written out, or "::" among them; in either the last two groups may be written as a dotted quad. */
  datatype Form =
    | Full(left: seq<string>, tail: Option<string>)
    | Compressed(left: seq<string>, right: seq<string>, tail: Option<string>)

  predicate Groups(ts: seq<string>) { forall k :: 0 <= k < |ts| ==> IsGroup(ts[k]) }

  predicate Short(ts: seq<string>) { forall k :: 0 <= k < |ts| ==> |ts[k]| <= 4 }

  function TailGroups(tail: Option<string>): nat { if tail.Some? then 2 else 0 }

  /** How many groups are written. */
  function Count(r: Form): nat
  {
    match r
    case Full(l, t) => |l| + TailGroups(t)
    case Compressed(l, rt, t) => |l| + |rt| + TailGroups(t)
  }

  predicate TailOk(tail: Option<string>) { tail.Some? ==> DottedQuad(tail.value).Some? }

  /** What the parser takes: groups of any number of digits, and "::" even beside eight of them. */
  predicate Loose(r: Form)
  {
    && Groups(r.left) && TailOk(r.tail)
    && match r
       case Full(_, _) => Count(r) == 8
       case Compressed(_, rt, _) => Groups(rt) && Count(r) <= 8
  }

  /** What section 2.2 of RFC 4291 has: at most four digits to a group, and "::" for one group or more. */
  predicate WellFormed(r: Form)
  {
    Loose(r) && Short(r.left) && (r.Compressed? ==> Short(r.right) && Count(r) <= 7)
  }

  function WithTail(ts: seq<string>, tail: Option<string>): seq<string>
  {
    if tail.Some? then ts + [tail.value] else ts
  }

  function TextOf(r: Form): string
  {
    match r
    case Full(l, t) => Join(WithTail(l, t), ':')
    case Compressed(l, rt, t) => Join(l, ':') + "::" + Join(WithTail(rt, t), ':')
  }

  /** The parser also lets a single colon follow a group at the end. */
  predicate MayEndInColon(r: Form)
  {
    r.tail == None && (r.Compressed? ==> r.right != [])
  }

  function TextWith(r: Form, colon: bool): string
  {
    if colon then TextOf(r) + ":" else TextOf(r)
  }

  /** `src` is a text of section 2.2 of RFC 4291. */
  ghost predicate IsRfc(src: string)
  {
    exists r :: WellFormed(r) && src == TextOf(r)
  }

  lemma {:induction false} GroupSize(t: string)
    requires AllHex(t)
    ensures Value(t, 16) < Power(16, |t|)
  {
    if t != "" {
      GroupSize(t[..|t| - 1]);
    }
  }

  /** One to four hexadecimal digits always make a group: the bound on the value is then no condition. */
  lemma DigitsAreGroup(t: string)
    requires 1 <= |t| <= 4 && AllHex(t)
    ensures IsGroup(t)
  {
    GroupSize(t);
    assert Power(16, 1) == 16 && Power(16, 2) == 256 && Power(16, 3) == 4096 && Power(16, 4) == 65536;
  }

  function GroupBytes(ts: seq<string>): (b: seq<Byte>)
    requires Groups(ts)
    ensures |b| == 2 * |ts|
  {
    if ts == [] then []
    else GroupBytes(ts[..|ts| - 1]) + WordBytes(Value(ts[|ts| - 1], 16))
  }

  function BytesWithTail(ts: seq<string>, tail: Option<string>): (b: seq<Byte>)
    requires Groups(ts) && TailOk(tail)
    ensures |b| == 2 * (|ts| + TailGroups(tail))
  {
    if tail.Some? then GroupBytes(ts) + DottedQuad(tail.value).value else GroupBytes(ts)
  }

  /** Zeros in the gap; when there is none left, zeros in place of what follows it. */
  function Spread(left: seq<Byte>, right: seq<Byte>): (b: seq<Byte>)
    requires |left| + |right| <= 16
    ensures |b| == 16
  {
    if |left| + |right| < 16 then left + Zeros(16 - (|left| + |right|)) + right else left + Zeros(|right|)
  }

  /** The 16 bytes that a text stands for. */
  function Meaning(r: Form): (b: seq<Byte>)
    requires Loose(r)
    ensures |b| == 16
  {
    match r
    case Full(l, t) => BytesWithTail(l, t)
    case Compressed(l, rt, t) => Spread(GroupBytes(l), BytesWithTail(rt, t))
  }

  lemma {:induction false} GroupPair(ts: seq<string>, k: nat)
    requires Groups(ts) && k < |ts|
    ensures Groups([ts[k]]) && Value(ts[k], 16) <= 0xffff
    ensures GroupBytes(ts)[2 * k] as int * 0x100 + GroupBytes(ts)[2 * k + 1] as int == Value(ts[k], 16)
  {
    var n := |ts| - 1;
    assert GroupBytes(ts) == GroupBytes(ts[..n]) + WordBytes(Value(ts[n], 16));
    assert IsGroup(ts[k]);
    if k < n {
      GroupPair(ts[..n], k);
    }
    hide GroupBytes, Value;
  }

  /** The two bytes of the `k`-th group before "::", or of a text without: they are the `k`-th two of the address. */
  lemma LeftGroup(r: Form, k: nat)
    requires Loose(r) && k < |r.left|
    ensures k < 8 && Meaning(r)[2 * k] as int * 0x100 + Meaning(r)[2 * k + 1] as int == Value(r.left[k], 16)
  {
    hide GroupBytes, DottedQuad, Groups, Value;
    GroupPair(r.left, k);
  }

  /** The two bytes of the `k`-th group after "::": the groups there end where the address ends, or where its IPv4 tail
      begins. */
  lemma RightGroup(r: Form, k: nat)
    requires Loose(r) && r.Compressed? && Count(r) <= 7 && k < |r.right|
    ensures var at := 2 * (8 - (if r.tail.Some? then 2 else 0) - |r.right| + k);
            0 <= at <= 14 && Meaning(r)[at] as int * 0x100 + Meaning(r)[at + 1] as int == Value(r.right[k], 16)
  {
    hide GroupBytes, DottedQuad, Groups, Value;
    GroupPair(r.right, k);
  }

  /** Zeros in the gap, and an IPv4 tail in the last four bytes. Where "::" stands beside eight groups, zeros in place
      of what follows it. */
  lemma GapAndTail(r: Form)
    requires Loose(r)
    ensures r.Compressed? ==>
              forall i :: 2 * |r.left| <= i < (if Count(r) == 8 then 16 else 16 - 2 * (Count(r) - |r.left|)) ==>
                Meaning(r)[i] == 0
    ensures r.tail.Some? && (r.Full? || Count(r) <= 7) ==> DottedQuad(r.tail.value) == Some(Meaning(r)[12..])
  {
    hide GroupBytes, Groups, DottedQuad;
    if r.tail.Some? && (r.Full? || Count(r) <= 7) {
      var q := DottedQuad(r.tail.value).value;
      QuadLength(r.tail.value);
      assert Meaning(r)[12..] == q by {
        if r.Compressed? {
          LastFour(GroupBytes(r.left) + Zeros(16 - 2 * Count(r)) + GroupBytes(r.right), q, Meaning(r));
        } else {
          LastFour(GroupBytes(r.left), q, Meaning(r));
        }
      }
    }
  }

  lemma QuadLength(t: string)
    ensures DottedQuad(t).Some? ==> |DottedQuad(t).value| == 4
  {
  }

  lemma LastFour(a: seq<Byte>, q: seq<Byte>, b: seq<Byte>)
    requires b == a + q && |b| == 16 && |q| == 4
    ensures b[12..] == q
  {
  }

  // ----- the pieces between the colons

  predicate PlainPieces(ts: seq<string>)
  {
    forall k :: 0 <= k < |ts| ==> ts[k] != "" && ts[k][0] != ':' && ':' !in ts[k]
  }

  lemma GroupIsPlain(t: string)
    requires IsGroup(t)
    ensures ':' !in t && '.' !in t && t != "" && t[0] != ':'
  {
  }

  lemma QuadIsNotGroup(t: string)
    requires DottedQuad(t).Some?
    ensures !IsGroup(t) && '.' in t && t != "" && ':' !in t && t[0] != ':'
  {
    QuadCharacters(t);
    if '.' !in t {
      SplitNoSeparator(t, '.');
    }
  }

  lemma NoColons(ts: seq<string>, tail: Option<string>)
    requires Groups(ts) && TailOk(tail)
    ensures PlainPieces(WithTail(ts, tail))
  {
    var all := WithTail(ts, tail);
    forall k | 0 <= k < |all| ensures ':' !in all[k] && all[k] != "" && all[k][0] != ':' {
      if k < |ts| {
        GroupIsPlain(ts[k]);
      } else {
        QuadIsNotGroup(tail.value);
      }
    }
  }

  lemma {:induction false} JoinStart(ts: seq<string>)
    requires ts != [] && PlainPieces(ts)
    ensures Join(ts, ':') != "" && Join(ts, ':')[0] != ':'
    ensures Split(Join(ts, ':'), ':') == ts
  {
    SplitJoin(ts, ':');
    hide Split;
    if |ts| > 1 {
      JoinStart(ts[..|ts| - 1]);
    }
  }

  /** What the parser makes of the part of the text from the second colon of "::" on. */
  function RightPieces(rest: seq<string>): (ts: seq<string>)
    ensures ts != []
  {
    if rest == [] then [""] else rest
  }

  /** The pieces of a text, after the parser has dropped a leading colon. */
  function PieceList(r: Form, colon: bool): seq<string>
  {
    var ts := match r
              case Full(l, t) => WithTail(l, t)
              case Compressed(l, rt, t) => l + [""] + RightPieces(WithTail(rt, t));
    if colon then ts + [""] else ts
  }

  lemma RightText(rest: seq<string>)
    requires PlainPieces(rest)
    ensures Split(":" + Join(rest, ':'), ':') == [""] + RightPieces(rest)
  {
    var right := Join(rest, ':');
    if rest != [] {
      JoinStart(rest);
    }
    SplitConcat("", right, ':');
    assert "" + [':'] + right == ":" + right;
  }

  lemma CompressedPieces(l: seq<string>, rest: seq<string>)
    requires PlainPieces(l) && PlainPieces(rest)
    ensures var body := Body(Join(l, ':') + "::" + Join(rest, ':'));
            body.Some? && Split(body.value, ':') == l + ([""] + RightPieces(rest))
  {
    RightText(rest);
    if l == [] {
      LeadingGap(Join(rest, ':'));
      hide Split;
      assert l + ([""] + RightPieces(rest)) == [""] + RightPieces(rest);
      assert Join(l, ':') + "::" + Join(rest, ':') == "::" + Join(rest, ':');
    } else {
      JoinStart(l);
      LaterGap(Join(l, ':'), Join(rest, ':'));
      hide Split, Join;
    }
  }

  lemma LeadingGap(right: string)
    ensures Body("::" + right) == Some(":" + right)
  {
    assert ("::" + right)[1..] == ":" + right;
  }

  lemma LaterGap(left: string, right: string)
    requires left != "" && left[0] != ':'
    ensures Body(left + "::" + right) == Some(left + "::" + right)
    ensures Split(left + "::" + right, ':') == Split(left, ':') + Split(":" + right, ':')
  {
    SplitConcat(left, ":" + right, ':');
    hide Split;
    assert left + "::" + right == left + [':'] + (":" + right);
  }

  lemma ColonAfter(src: string)
    requires Body(src).Some? && src != ""
    ensures Body(src + ":") == Some(Body(src).value + ":")
    ensures Split(Body(src + ":").value, ':') == Split(Body(src).value, ':') + [""]
  {
    assert src[0] == ':' ==> (src + ":")[1..] == src[1..] + ":";
    SplitEmptyLast(Body(src).value, ':');
    hide Split;
  }

  lemma PiecesOfForm(r: Form)
    requires Loose(r)
    ensures TextOf(r) != "" && Body(TextOf(r)).Some? && Split(Body(TextOf(r)).value, ':') == PieceList(r, false)
  {
    match r
    case Full(l, t) =>
      NoColons(l, t);
      JoinStart(WithTail(l, t));
    case Compressed(l, rt, t) =>
      NoColons(l, None);
      NoColons(rt, t);
      hide Split, Join, PlainPieces, Groups, DottedQuad;
      CompressedPieces(l, WithTail(rt, t));
      assert l + ([""] + RightPieces(WithTail(rt, t))) == l + [""] + RightPieces(WithTail(rt, t));
  }

  lemma PiecesOfText(r: Form, colon: bool)
    requires Loose(r)
    ensures var body := Body(TextWith(r, colon)); body.Some? && Split(body.value, ':') == PieceList(r, colon)
  {
    PiecesOfForm(r);
    hide Split, TextOf, Body;
    ColonAfter(TextOf(r));
  }

  /** No two texts have the same body, and no two bodies the same pieces. */
  lemma SameText(s: string, t: string)
    requires Body(s).Some? && Body(t).Some? && Split(Body(s).value, ':') == Split(Body(t).value, ':')
    ensures s == t
  {
    JoinSplit(Body(s).value, ':');
    JoinSplit(Body(t).value, ':');
    hide Split;
    if |s| > 0 && s[0] == ':' {
      assert s == ":" + s[1..];
    }
    if |t| > 0 && t[0] == ':' {
      assert t == ":" + t[1..];
    }
  }

  // ----- what the parser makes of them

  lemma AbsorbSnoc(ts: seq<string>, a: Stored, t: string)
    requires AbsorbAll(ts) == Some(a)
    ensures AbsorbAll(ts + [t]) == Absorb(a, t)
  {
    assert (ts + [t])[..|ts|] == ts;
  }

  lemma GroupBytesSnoc(b: seq<Byte>, ts: seq<string>, t: string)
    requires Groups(ts) && IsGroup(t)
    ensures Groups(ts + [t]) && GroupBytes(ts + [t]) == GroupBytes(ts) + WordBytes(Value(t, 16))
    ensures b + GroupBytes(ts) + WordBytes(Value(t, 16)) == b + GroupBytes(ts + [t])
  {
    assert (ts + [t])[..|ts|] == ts;
    assert GroupBytes(ts + [t]) == GroupBytes(ts) + WordBytes(Value(t, 16));
    hide GroupBytes, Value;
  }

  /** Groups add their bytes to what has been taken in, as long as there is room. */
  lemma {:induction false} AbsorbGroups(before: seq<string>, a: Stored, ts: seq<string>)
    requires AbsorbAll(before) == Some(a) && Groups(ts) && |a.bytes| + 2 * |ts| <= 16
    ensures AbsorbAll(before + ts) == Some(a.(bytes := a.bytes + GroupBytes(ts)))
  {
    if ts == [] {
      assert before + ts == before && a.bytes + GroupBytes(ts) == a.bytes;
    } else {
      var init, t := ts[..|ts| - 1], ts[|ts| - 1];
      assert init + [t] == ts && IsGroup(t) && t != "";
      AbsorbGroups(before, a, init);
      var b := a.(bytes := a.bytes + GroupBytes(init));
      assert before + ts == before + init + [t];
      AbsorbSnoc(before + init, b, t);
      GroupBytesSnoc(a.bytes, init, t);
      hide AbsorbAll, GroupBytes, IsGroup;
    }
  }

  lemma AbsorbFirstGroups(ts: seq<string>)
    requires Groups(ts) && |ts| <= 8
    ensures AbsorbAll(ts) == Some(Stored(GroupBytes(ts), None))
  {
    AbsorbGroups([], Stored([], None), ts);
    hide AbsorbAll, GroupBytes;
    assert [] + ts == ts && [] + GroupBytes(ts) == GroupBytes(ts);
  }

  /** A gap after the groups of `l`, and groups after it. */
  lemma AbsorbGap(l: seq<string>, rt: seq<string>)
    requires Groups(l) && Groups(rt) && |l| + |rt| <= 8
    ensures AbsorbAll(l + [""] + rt) == Some(Stored(GroupBytes(l) + GroupBytes(rt), Some(2 * |l|)))
  {
    AbsorbFirstGroups(l);
    var a := Stored(GroupBytes(l), None);
    hide GroupBytes, AbsorbAll, Groups;
    AbsorbSnoc(l, a, "");
    AbsorbGroups(l + [""], Stored(GroupBytes(l), Some(2 * |l|)), rt);
  }

  /** Nothing in the last piece. */
  lemma EndWithNothing(before: seq<string>)
    requires AbsorbAll(before).Some?
    ensures ParsePieces(before + [""]) == Finish(AbsorbAll(before))
  {
    assert (before + [""])[..|before|] == before;
  }

  lemma EndWithQuad(before: seq<string>, a: Stored, quad: string)
    requires AbsorbAll(before) == Some(a) && DottedQuad(quad).Some? && |a.bytes| + 4 <= 16
    ensures ParsePieces(before + [quad]) == Finish(Some(a.(bytes := a.bytes + DottedQuad(quad).value)))
  {
    QuadIsNotGroup(quad);
    assert (before + [quad])[..|before|] == before;
  }

  lemma EndWithGroup(all: seq<string>)
    requires all != [] && IsGroup(all[|all| - 1]) && AbsorbAll(all).Some?
    ensures ParsePieces(all) == Finish(AbsorbAll(all))
  {
  }

  lemma FinishGap(left: seq<Byte>, right: seq<Byte>)
    requires |left| + |right| <= 16
    ensures Finish(Some(Stored(left + right, Some(|left|)))) == Some(Spread(left, right))
  {
    assert (left + right)[..|left|] == left && (left + right)[|left|..] == right;
  }

  lemma FullParsed(l: seq<string>, t: Option<string>, colon: bool)
    requires Loose(Full(l, t)) && (colon ==> t == None)
    ensures ParsePieces(PieceList(Full(l, t), colon)) == Some(Meaning(Full(l, t)))
  {
    AbsorbFirstGroups(l);
    var a := Stored(GroupBytes(l), None);
    hide GroupBytes, AbsorbAll, DottedQuad, ParsePieces;
    if colon {
      EndWithNothing(l);
    } else if t == None {
      EndWithGroup(l);
    } else {
      EndWithQuad(l, a, t.value);
    }
  }

  lemma GapThenQuad(l: seq<string>, rt: seq<string>, quad: string)
    requires Groups(l) && Groups(rt) && |l| + |rt| <= 6 && DottedQuad(quad).Some?
    ensures ParsePieces(l + [""] + (rt + [quad])) ==
            Some(Spread(GroupBytes(l), GroupBytes(rt) + DottedQuad(quad).value))
  {
    AbsorbGap(l, rt);
    var before, left, right := l + [""] + rt, GroupBytes(l), GroupBytes(rt);
    hide *;
    EndWithQuad(before, Stored(left + right, Some(2 * |l|)), quad);
    FinishGap(left, right + DottedQuad(quad).value);
    Append3(left, right, DottedQuad(quad).value);
    Append3(l + [""], rt, [quad]);
  }

  /** The last piece is empty: nothing follows the gap, or a colon follows the groups after it. */
  lemma GapThenNothing(l: seq<string>, rt: seq<string>)
    requires Groups(l) && Groups(rt) && |l| + |rt| <= 8
    ensures ParsePieces(l + [""] + rt + [""]) == Some(Spread(GroupBytes(l), GroupBytes(rt)))
  {
    AbsorbGap(l, rt);
    hide *;
    EndWithNothing(l + [""] + rt);
    FinishGap(GroupBytes(l), GroupBytes(rt));
  }

  lemma GapThenGroups(l: seq<string>, rt: seq<string>)
    requires Groups(l) && Groups(rt) && |l| + |rt| <= 8 && rt != []
    ensures ParsePieces(l + [""] + rt) == Some(Spread(GroupBytes(l), GroupBytes(rt)))
  {
    AbsorbGap(l, rt);
    var all := l + [""] + rt;
    assert IsGroup(all[|all| - 1]);
    hide *;
    EndWithGroup(all);
    FinishGap(GroupBytes(l), GroupBytes(rt));
  }

  lemma CompressedParsed(l: seq<string>, rt: seq<string>, t: Option<string>, colon: bool)
    requires Loose(Compressed(l, rt, t)) && (colon ==> MayEndInColon(Compressed(l, rt, t)))
    ensures ParsePieces(PieceList(Compressed(l, rt, t), colon)) == Some(Meaning(Compressed(l, rt, t)))
  {
    hide GroupBytes, DottedQuad, ParsePieces, Spread, Groups;
    if t.Some? {
      GapThenQuad(l, rt, t.value);
    } else if colon {
      GapThenNothing(l, rt);
    } else if rt == [] {
      GapThenNothing(l, rt);
      assert l + [""] + rt == l + [""];
    } else {
      GapThenGroups(l, rt);
    }
  }

  lemma LooseParsed(r: Form, colon: bool)
    requires Loose(r) && (colon ==> MayEndInColon(r))
    ensures Parse(TextWith(r, colon)) == Some(Meaning(r))
  {
    PiecesOfText(r, colon);
    match r
    case Full(l, t) => FullParsed(l, t, colon);
    case Compressed(l, rt, t) => CompressedParsed(l, rt, t, colon);
  }

  /** Every text of section 2.2 of RFC 4291 is accepted and denotes what the section says. */
  lemma RfcTextsAccepted(r: Form)
    requires WellFormed(r)
    ensures Parse(TextOf(r)) == Some(Meaning(r))
  {
    LooseParsed(r, false);
  }

  // ----- and of nothing else

  /** What has been taken in is groups, or groups around one gap. */
  ghost predicate Taken(ts: seq<string>, l: seq<string>, rt: seq<string>)
  {
    AbsorbAll(ts).Some? ==>
      var a := AbsorbAll(ts).value;
      if a.gap == None then Groups(ts) && |ts| <= 8 && a.bytes == GroupBytes(ts)
      else
        && Groups(l) && Groups(rt) && |l| + |rt| <= 8 && ts == l + [""] + rt
        && a == Stored(GroupBytes(l) + GroupBytes(rt), Some(2 * |l|))
  }

  lemma {:induction false} TakenShape(ts: seq<string>) returns (l: seq<string>, rt: seq<string>)
    ensures Taken(ts, l, rt)
  {
    hide *;
    if ts == [] {
      l, rt := [], [];
      TakenNothing();
    } else {
      var init, t := ts[..|ts| - 1], ts[|ts| - 1];
      assert ts == init + [t];
      l, rt := TakenShape(init);
      l, rt := TakenStep(init, t, l, rt);
    }
  }

  lemma TakenNothing()
    ensures Taken([], [], [])
  {
  }

  lemma OneMoreTaken(init: seq<string>, t: string)
    ensures AbsorbAll(init + [t]) ==
            if AbsorbAll(init) == None then None else Absorb(AbsorbAll(init).value, t)
  {
    assert (init + [t])[..|init|] == init;
    hide Absorb;
  }

  lemma TakenStep(init: seq<string>, t: string, l: seq<string>, rt: seq<string>)
    returns (l': seq<string>, rt': seq<string>)
    requires Taken(init, l, rt)
    ensures Taken(init + [t], l', rt')
  {
    l', rt' := l, rt;
    OneMoreTaken(init, t);
    hide AbsorbAll, GroupBytes, IsGroup, Value, WordBytes;
    if AbsorbAll(init + [t]).Some? {
      var a := AbsorbAll(init).value;
      if t == "" {
        l', rt' := init, [];
        TakenGap(init, a);
      } else if a.gap == None {
        GroupBytesSnoc([], init, t);
      } else {
        rt' := rt + [t];
        TakenGroup(init, t, l, rt, a);
      }
    }
  }

  lemma TakenGroup(init: seq<string>, t: string, l: seq<string>, rt: seq<string>, a: Stored)
    requires Groups(l) && Groups(rt) && init == l + [""] + rt && t != ""
    requires a == Stored(GroupBytes(l) + GroupBytes(rt), Some(2 * |l|))
    requires AbsorbAll(init + [t]) == Absorb(a, t)
    ensures Taken(init + [t], l, rt + [t])
  {
    hide AbsorbAll, GroupBytes, IsGroup, Value, WordBytes, Groups;
    if Absorb(a, t).Some? {
      GroupBytesSnoc(GroupBytes(l), rt, t);
      Append3(l + [""], rt, [t]);
    }
  }

  lemma TakenGap(init: seq<string>, a: Stored)
    requires Groups(init) && |init| <= 8 && a == Stored(GroupBytes(init), None)
    requires AbsorbAll(init + [""]) == Some(a.(gap := Some(|a.bytes|)))
    ensures Taken(init + [""], init, [])
  {
    assert init + [""] + [] == init + [""] && GroupBytes([]) == [];
    assert a.bytes + [] == a.bytes;
    hide AbsorbAll;
  }

  /** Without a gap all 16 bytes must have been given. */
  lemma FullShape(init: seq<string>, a: Stored, t: string) returns (r: Form, colon: bool)
    requires Groups(init) && a == Stored(GroupBytes(init), None) && Finish(AbsorbLast(a, t)).Some?
    ensures Loose(r) && (colon ==> MayEndInColon(r)) && init + [t] == PieceList(r, colon)
  {
    colon := t == "";
    r := if colon then Full(init, None) else if IsGroup(t) then Full(init + [t], None) else Full(init, Some(t));
    assert DottedQuad(t).Some? ==> |DottedQuad(t).value| == 4;
    hide GroupBytes, DottedQuad, IsGroup;
  }

  lemma CompressedShape(l: seq<string>, rt: seq<string>, a: Stored, t: string) returns (r: Form, colon: bool)
    requires Groups(l) && Groups(rt) && |l| + |rt| <= 8
    requires a == Stored(GroupBytes(l) + GroupBytes(rt), Some(2 * |l|)) && Finish(AbsorbLast(a, t)).Some?
    ensures Loose(r) && (colon ==> MayEndInColon(r)) && l + [""] + rt + [t] == PieceList(r, colon)
  {
    assert DottedQuad(t).Some? ==> |DottedQuad(t).value| == 4;
    colon := t == "" && rt != [];
    hide GroupBytes, DottedQuad, IsGroup;
    if t == "" {
      r := Compressed(l, rt, None);
      assert rt == [] ==> l + [""] + rt + [t] == l + [""] + [""];
    } else {
      Append3(l + [""], rt, [t]);
      r := if IsGroup(t) then Compressed(l, rt + [t], None) else Compressed(l, rt, Some(t));
    }
  }

  lemma TakenMeans(ts: seq<string>, l: seq<string>, rt: seq<string>, a: Stored)
    requires Taken(ts, l, rt) && AbsorbAll(ts) == Some(a)
    ensures a.gap == None ==> Groups(ts) && a == Stored(GroupBytes(ts), None)
    ensures a.gap.Some? ==> Groups(l) && Groups(rt) && |l| + |rt| <= 8 && ts == l + [""] + rt
    ensures a.gap.Some? ==> a == Stored(GroupBytes(l) + GroupBytes(rt), Some(2 * |l|))
  {
  }

  /** The form of a list of pieces that stands for an address. */
  lemma ParsedShape(ts: seq<string>) returns (r: Form, colon: bool)
    requires ts != [] && ParsePieces(ts).Some?
    ensures Loose(r) && (colon ==> MayEndInColon(r)) && ts == PieceList(r, colon)
  {
    var init, t := ts[..|ts| - 1], ts[|ts| - 1];
    var l, rt := TakenShape(init);
    assert ts == init + [t];
    var a := AbsorbAll(init).value;
    assert AbsorbAll(init) == Some(a) && Finish(AbsorbLast(a, t)).Some?;
    TakenMeans(init, l, rt, a);
    hide *;
    if a.gap == None {
      r, colon := FullShape(init, a, t);
    } else {
      r, colon := CompressedShape(l, rt, a, t);
    }
  }

  /** The texts inet_pton6 accepts, exactly, and the address each stands for: eight groups, or up to eight around a
      "::", of hexadecimal numerals of at most 65535 with any number of digits; the last two perhaps a dotted quad; and
      perhaps one more colon after a last group. */
  lemma AcceptedTexts(src: string, b: seq<Byte>)
    ensures Parse(src) == Some(b) <==>
            exists r, colon ::
              Loose(r) && (colon ==> MayEndInColon(r)) && src == TextWith(r, colon) && b == Meaning(r)
  {
    if Parse(src) == Some(b) {
      var r, colon := AcceptedForm(src);
      LooseParsed(r, colon);
      assert b == Meaning(r);
    }
    if r, colon :| Loose(r) && (colon ==> MayEndInColon(r)) && src == TextWith(r, colon) && b == Meaning(r) {
      LooseParsed(r, colon);
    }
  }

  lemma AcceptedForm(src: string) returns (r: Form, colon: bool)
    requires Parse(src).Some?
    ensures Loose(r) && (colon ==> MayEndInColon(r)) && src == TextWith(r, colon)
  {
    r, colon := ParsedShape(Split(Body(src).value, ':'));
    PiecesOfText(r, colon);
    hide Split, PieceList, TextWith, ParsePieces;
    SameText(src, TextWith(r, colon));
  }

  // ----- the comparison with section 2.2 of RFC 4291

  /** How many groups the fields between colons are: none for an empty one, two for a dotted quad. */
  function Weight(fields: seq<string>): nat
  {
    if fields == [] then 0
    else
      var t := fields[|fields| - 1];
      Weight(fields[..|fields| - 1]) + if t == "" then 0 else if '.' in t then 2 else 1
  }

  /** A group has more than four digits. */
  predicate LongGroup(fields: seq<string>) { exists k :: 0 <= k < |fields| && AllHex(fields[k]) && |fields[k]| > 4 }

  /** The text ends in one colon. */
  predicate ColonAtEnd(fields: seq<string>)
  {
    |fields| >= 2 && fields[|fields| - 1] == "" && fields[|fields| - 2] != ""
  }

  /** "::" stands beside eight groups: it leaves an empty field before the last. */
  predicate Crowded(fields: seq<string>)
  {
    Weight(fields) >= 8 && exists k :: 0 <= k < |fields| - 1 && fields[k] == ""
  }

  lemma WeightSnoc(a: seq<string>, t: string)
    ensures Weight(a + [t]) == Weight(a) + if t == "" then 0 else if '.' in t then 2 else 1
  {
    assert (a + [t])[..|a|] == a;
  }

  lemma {:induction false} WeightGroups(a: seq<string>, ts: seq<string>)
    requires Groups(ts)
    ensures Weight(a + ts) == Weight(a) + |ts|
  {
    if ts == [] {
      assert a + ts == a;
    } else {
      var init, t := ts[..|ts| - 1], ts[|ts| - 1];
      assert a + ts == a + init + [t] && IsGroup(t);
      GroupIsPlain(t);
      hide IsGroup, Weight;
      WeightGroups(a, init);
      WeightSnoc(a + init, t);
    }
  }

  lemma WeightWithTail(a: seq<string>, ts: seq<string>, tail: Option<string>)
    requires Groups(ts) && TailOk(tail)
    ensures Weight(a + WithTail(ts, tail)) == Weight(a) + |ts| + TailGroups(tail)
  {
    WeightGroups(a, ts);
    hide Weight, DottedQuad, Groups;
    if tail.Some? {
      QuadIsNotGroup(tail.value);
      WeightSnoc(a + ts, tail.value);
      Append3(a, ts, [tail.value]);
    }
  }

  lemma WeightGap(r: Form)
    requires Loose(r)
    ensures Weight(PieceList(r, false)) == Count(r)
  {
    assert Weight([]) == 0;
    match r
    case Full(l, t) =>
      WeightWithTail([], l, t);
      hide Weight;
      assert [] + WithTail(l, t) == WithTail(l, t);
    case Compressed(l, rt, t) =>
      WeightGroups([], l);
      hide Weight;
      assert [] + l == l;
      WeightSnoc(l, "");
      if WithTail(rt, t) == [] {
        WeightSnoc(l + [""], "");
      } else {
        WeightWithTail(l + [""], rt, t);
      }
  }

  /** The fields of a whole text: an empty one more in front when it begins with "::". */
  lemma FieldsOf(src: string)
    requires Body(src).Some? && src != ""
    ensures Split(src, ':') == if src[0] == ':' then [""] + Split(Body(src).value, ':') else Split(Body(src).value, ':')
  {
    if src[0] == ':' {
      SplitConcat("", src[1..], ':');
      assert "" + [':'] + src[1..] == src;
    }
  }

  lemma {:induction false} WeightEmptyFirst(fields: seq<string>)
    ensures Weight([""] + fields) == Weight(fields)
  {
    if fields == [] {
      WeightSnoc([], "");
      assert [] + [""] == [""] + fields;
    } else {
      var init, t := fields[..|fields| - 1], fields[|fields| - 1];
      assert [""] + fields == [""] + init + [t];
      hide Weight;
      WeightEmptyFirst(init);
      WeightSnoc([""] + init, t);
      WeightSnoc(init, t);
      assert init + [t] == fields;
    }
  }

  predicate BeginsWithGap(r: Form) { r.Compressed? && r.left == [] }

  /** The fields of a text of known form. */
  function Fields(r: Form, colon: bool): seq<string>
  {
    if BeginsWithGap(r) then [""] + PieceList(r, colon) else PieceList(r, colon)
  }

  lemma TextBegins(r: Form)
    requires Loose(r)
    ensures TextOf(r) != "" && (TextOf(r)[0] == ':' <==> BeginsWithGap(r))
  {
    NoColons(r.left, if r.Full? then r.tail else None);
    if r.Full? {
      JoinStart(WithTail(r.left, r.tail));
    } else if r.left != [] {
      JoinStart(r.left);
    } else {
      assert Join([], ':') == "";
    }
    hide Split, Groups, DottedQuad, PlainPieces;
  }

  lemma FieldsOfText(r: Form, colon: bool)
    requires Loose(r)
    ensures Split(TextWith(r, colon), ':') == Fields(r, colon)
  {
    TextBegins(r);
    PiecesOfText(r, colon);
    hide Split, TextOf, PieceList, Loose;
    FieldsOf(TextWith(r, colon));
  }

  lemma CrowdedForm(r: Form, colon: bool)
    requires Loose(r)
    ensures Crowded(Fields(r, colon)) <==> r.Compressed? && Count(r) >= 8
  {
    WeightGap(r);
    var plain := PieceList(r, false);
    WeightSnoc(plain, "");
    WeightEmptyFirst(PieceList(r, colon));
    assert Weight(Fields(r, colon)) == Count(r);
    GapField(r, colon);
    hide Weight, PieceList, Loose;
  }

  /** Only "::" leaves an empty field before the last. */
  lemma GapField(r: Form, colon: bool)
    requires Loose(r)
    ensures (exists k :: 0 <= k < |Fields(r, colon)| - 1 && Fields(r, colon)[k] == "") <==> r.Compressed?
  {
    var f := Fields(r, colon);
    if r.Compressed? {
      assert f[if r.left == [] then 1 else |r.left|] == "";
      assert r.left == [] ==> f[0] == "";
    } else {
      forall k | 0 <= k < |f| - 1 ensures f[k] != "" {
        assert k < |r.left| ==> f[k] == r.left[k];
        if r.tail.Some? {
          QuadIsNotGroup(r.tail.value);
        }
      }
    }
    hide DottedQuad;
  }

  /** The last piece is empty when nothing follows the gap, which leaves another empty one before it. */
  lemma ColonAtEndForm(r: Form, colon: bool)
    requires Loose(r) && (colon ==> MayEndInColon(r))
    ensures ColonAtEnd(Fields(r, colon)) <==> colon
  {
    var last := if r.Full? then WithTail(r.left, r.tail) else WithTail(r.right, r.tail);
    NoColons(if r.Full? then r.left else r.right, r.tail);
    assert last != [] ==> last[|last| - 1] != "";
    hide DottedQuad, IsGroup, Groups, PlainPieces;
    if colon {
      assert last != [];
    }
  }

  lemma LongGroupForm(r: Form, colon: bool)
    requires Loose(r)
    ensures LongGroup(Fields(r, colon)) <==> !Short(r.left) || (r.Compressed? && !Short(r.right))
  {
    var f := Fields(r, colon);
    if !Short(r.left) {
      LongLeft(r, colon);
    } else if r.Compressed? && !Short(r.right) {
      LongRight(r, colon);
    } else {
      forall k | 0 <= k < |f| && |f[k]| > 4 ensures !AllHex(f[k]) {
        LongerField(r, colon, k);
      }
    }
  }

  lemma IsField(r: Form, colon: bool, t: string)
    requires t in r.left || (r.Compressed? && t in r.right)
    ensures t in Fields(r, colon)
  {
    if r.Compressed? {
      assert t in r.right ==> t in WithTail(r.right, r.tail) && r.right != [];
    }
  }

  lemma LongField(fields: seq<string>, ts: seq<string>)
    requires Groups(ts) && !Short(ts) && forall t :: t in ts ==> t in fields
    ensures LongGroup(fields)
  {
    var k :| 0 <= k < |ts| && |ts[k]| > 4;
    assert IsGroup(ts[k]) && ts[k] in fields;
    var i :| 0 <= i < |fields| && fields[i] == ts[k];
  }

  lemma LongLeft(r: Form, colon: bool)
    requires Loose(r) && !Short(r.left)
    ensures LongGroup(Fields(r, colon))
  {
    forall t | t in r.left ensures t in Fields(r, colon) {
      IsField(r, colon, t);
    }
    hide Fields, Short, LongGroup;
    LongField(Fields(r, colon), r.left);
  }

  lemma LongRight(r: Form, colon: bool)
    requires Loose(r) && r.Compressed? && !Short(r.right)
    ensures LongGroup(Fields(r, colon))
  {
    forall t | t in r.right ensures t in Fields(r, colon) {
      IsField(r, colon, t);
    }
    hide Fields, Short, LongGroup;
    LongField(Fields(r, colon), r.right);
  }

  /** When all groups are short, a longer field is a dotted quad. */
  lemma LongerField(r: Form, colon: bool, k: nat)
    requires Loose(r) && Short(r.left) && (r.Compressed? ==> Short(r.right))
    requires k < |Fields(r, colon)| && |Fields(r, colon)[k]| > 4
    ensures !AllHex(Fields(r, colon)[k])
  {
    var t := Fields(r, colon)[k];
    if r.Full? {
      LongPiece(r.left, r.tail, t);
    } else {
      assert t in r.left || t in WithTail(r.right, r.tail);
      if t in WithTail(r.right, r.tail) {
        LongPiece(r.right, r.tail, t);
      } else {
        LongPiece(r.left, None, t);
      }
    }
    hide DottedQuad, IsGroup, Groups;
  }

  lemma LongPiece(ts: seq<string>, tail: Option<string>, t: string)
    requires Short(ts) && TailOk(tail) && t in WithTail(ts, tail) && |t| > 4
    ensures !AllHex(t)
  {
    if tail.Some? {
      QuadIsNotGroup(tail.value);
    }
    hide DottedQuad, IsGroup;
  }

  /** A text that the parser accepts is one of section 2.2 of RFC 4291 if and only if its form is. */
  lemma RfcForm(r: Form, colon: bool)
    requires Loose(r) && (colon ==> MayEndInColon(r))
    ensures IsRfc(TextWith(r, colon)) <==> WellFormed(r) && !colon
  {
    var src := TextWith(r, colon);
    if WellFormed(r) && !colon {
      assert src == TextOf(r);
    }
    if IsRfc(src) {
      var s :| WellFormed(s) && src == TextOf(s);
      FieldsOfText(r, colon);
      FieldsOfText(s, false);
      SameStyle(r, colon, s);
    }
  }

  lemma SameStyle(r: Form, colon: bool, s: Form)
    requires Loose(r) && (colon ==> MayEndInColon(r)) && WellFormed(s) && Fields(r, colon) == Fields(s, false)
    ensures WellFormed(r) && !colon
  {
    hide LongGroup, Crowded, ColonAtEnd, Fields, Groups, Short, TailOk;
    LongGroupForm(r, colon);
    LongGroupForm(s, false);
    ColonAtEndForm(r, colon);
    ColonAtEndForm(s, false);
    CrowdedForm(r, colon);
    CrowdedForm(s, false);
  }

  /** When the return value of inet_pton6 is the one its comment promises: the texts of section 2.2 of RFC 4291 are
      exactly the accepted ones that have no group of more than four digits, no single colon at the end, and no "::"
      beside eight groups. */
  lemma RfcExactly(src: string)
    ensures var f := Split(src, ':');
            IsRfc(src) <==> Parse(src).Some? && !LongGroup(f) && !ColonAtEnd(f) && !Crowded(f)
  {
    if IsRfc(src) {
      var s :| WellFormed(s) && src == TextOf(s);
      RfcTextsAccepted(s);
    }
    if Parse(src).Some? {
      var r, colon := AcceptedForm(src);
      RfcForm(r, colon);
      FieldsOfText(r, colon);
      hide Parse, Split, IsRfc, LongGroup, ColonAtEnd, Crowded, Fields, Groups, Short, TailOk, TextWith;
      LongGroupForm(r, colon);
      ColonAtEndForm(r, colon);
      CrowdedForm(r, colon);
    }
  }

  // ----- three kinds of texts that are accepted and are not of section 2.2

  lemma SmallGroups()
    ensures forall t :: t in ["1", "2", "3", "4", "5", "6", "7", "8"] ==> IsGroup(t)
    ensures Value("8", 16) == 8
  {
    forall t | t in ["1", "2", "3", "4", "5", "6", "7", "8"] ensures IsGroup(t) {
      DigitsAreGroup(t);
    }
  }

  lemma JoinSeven(a: string, b: string, c: string, d: string, e: string, f: string, g: string)
    ensures Join([a, b, c, d, e, f, g], ':') ==
            a + ":" + b + ":" + c + ":" + d + ":" + e + ":" + f + ":" + g
  {
    JoinSnoc([a], b, ':');
    JoinSnoc([a, b], c, ':');
    JoinSnoc([a, b, c], d, ':');
    JoinSnoc([a, b, c, d], e, ':');
    JoinSnoc([a, b, c, d, e], f, ':');
    JoinSnoc([a, b, c, d, e, f], g, ':');
    assert Join([a], ':') == a;
    hide Join;
    assert [a] + [b] == [a, b] && [a, b] + [c] == [a, b, c] && [a, b, c] + [d] == [a, b, c, d];
    assert [a, b, c, d] + [e] == [a, b, c, d, e] && [a, b, c, d, e] + [f] == [a, b, c, d, e, f];
    assert [a, b, c, d, e, f] + [g] == [a, b, c, d, e, f, g];
  }

  /** A group of five digits. */
  lemma LongGroupAccepted()
    ensures Parse("00001::").Some? && !IsRfc("00001::")
  {
    var r := Compressed(["00001"], [], None);
    FiveDigits();
    assert TextWith(r, false) == "00001" + "::" + "" == "00001::";
    assert !Short(r.left) by {
      assert |r.left[0]| == 5;
    }
    hide IsGroup, TextWith, Parse, IsRfc, Short;
    LooseParsed(r, false);
    RfcForm(r, false);
  }

  lemma FiveDigits()
    ensures IsGroup("00001")
  {
    LeadingZero("0001");
    LeadingZero("001");
    LeadingZero("01");
    LeadingZero("1");
    SmallGroups();
    hide IsGroup;
    assert "0" + "1" == "01" && "0" + "01" == "001" && "0" + "001" == "0001" && "0" + "0001" == "00001";
  }

  /** Zeros in front change nothing. */
  lemma LeadingZero(t: string)
    ensures IsGroup(t) ==> IsGroup("0" + t)
  {
    ZeroInFront(t);
  }

  lemma {:induction false} ZeroInFront(t: string)
    ensures Value("0" + t, 16) == Value(t, 16)
  {
    if t == "" {
      assert "0" + t == "0" && Value("", 16) == 0;
      ValueSnoc("", '0', 16);
      assert "" + ['0'] == "0";
    } else {
      var init, c := t[..|t| - 1], t[|t| - 1];
      assert t == init + [c];
      Append3("0", init, [c]);
      hide *;
      ZeroInFront(init);
      ValueSnoc("0" + init, c, 16);
      ValueSnoc(init, c, 16);
    }
  }

  /** A colon after the last group. */
  lemma FinalColonAccepted()
    ensures Parse("::1:").Some? && !IsRfc("::1:")
  {
    var r := Compressed([], ["1"], None);
    SmallGroups();
    assert TextWith(r, true) == "" + "::" + "1" + ":" == "::1:";
    hide IsGroup, TextWith, Parse, IsRfc, Short;
    LooseParsed(r, true);
    RfcForm(r, true);
  }

  /** "::" beside eight groups. */
  lemma FullGapAccepted()
    ensures Parse("1::2:3:4:5:6:7:8").Some? && !IsRfc("1::2:3:4:5:6:7:8")
  {
    var r := EightGroups();
    hide *;
    LooseParsed(r, false);
    RfcForm(r, false);
  }

  lemma EightGroups() returns (r: Form)
    ensures r == Compressed(["1"], ["2", "3", "4", "5", "6", "7", "8"], None)
    ensures Loose(r) && !WellFormed(r) && TextWith(r, false) == TextOf(r) == "1::2:3:4:5:6:7:8"
  {
    r := Compressed(["1"], ["2", "3", "4", "5", "6", "7", "8"], None);
    SmallGroups();
    JoinSeven("2", "3", "4", "5", "6", "7", "8");
    assert Join(["1"], ':') == "1";
    hide IsGroup, Join;
    assert "1" + "::" + ("2" + ":" + "3" + ":" + "4" + ":" + "5" + ":" + "6" + ":" + "7" + ":" + "8")
        == "1::2:3:4:5:6:7:8";
  }

  /** The comment above inet_pton6 says that "::" in a full address is silently ignored. In fact what follows it is
      lost: the comment is true exactly when that is all zero. */
  lemma GapInFullAddress(l: seq<string>, rt: seq<string>, t: Option<string>, colon: bool)
    requires Groups(l) && Groups(rt) && TailOk(t) && Count(Compressed(l, rt, t)) == 8
    requires colon ==> MayEndInColon(Compressed(l, rt, t))
    ensures var parsed := Parse(TextWith(Compressed(l, rt, t), colon));
            && parsed == Some(GroupBytes(l) + Zeros(16 - 2 * |l|))
            && (parsed == Some(GroupBytes(l) + BytesWithTail(rt, t)) <==> BytesWithTail(rt, t) == Zeros(16 - 2 * |l|))
  {
    hide *;
    var r := Compressed(l, rt, t);
    FullMeaning(r);
    LooseParsed(r, colon);
    SameTail(Parse(TextWith(r, colon)), GroupBytes(l), Zeros(16 - 2 * |l|), BytesWithTail(rt, t));
  }

  lemma FullMeaning(r: Form)
    requires r.Compressed? && Groups(r.left) && Groups(r.right) && TailOk(r.tail) && Count(r) == 8
    ensures Loose(r) && TextWith(r, false) == TextOf(r)
    ensures Meaning(r) == GroupBytes(r.left) + Zeros(16 - 2 * |r.left|)
  {
    hide GroupBytes, BytesWithTail, Zeros, TextOf, DottedQuad, Groups;
  }

  lemma SameTail(parsed: Option<seq<Byte>>, left: seq<Byte>, a: seq<Byte>, b: seq<Byte>)
    requires parsed == Some(left + a)
    ensures parsed == Some(left + b) <==> b == a
  {
    if left + a == left + b {
      assert (left + a)[|left|..] == a && (left + b)[|left|..] == b;
    }
  }

  /** For instance "1::2:3:4:5:6:7:8" is read as 1:0:0:0:0:0:0:0. */
  lemma GapIsNotIgnored()
    ensures Groups(["1"]) && Groups(["2", "3", "4", "5", "6", "7", "8"])
    ensures Parse("1::2:3:4:5:6:7:8") !=
            Some(GroupBytes(["1"]) + GroupBytes(["2", "3", "4", "5", "6", "7", "8"]))
  {
    var r := EightGroups();
    var rt := r.right;
    assert Groups(r.left) && Groups(rt);
    LastByte(rt);
    assert BytesWithTail(rt, None) == GroupBytes(rt) && Zeros(14)[13] == 0;
    hide *;
    GapInFullAddress(r.left, rt, None, false);
  }

  lemma LastByte(ts: seq<string>)
    requires Groups(ts) && ts != [] && ts[|ts| - 1] == "8"
    ensures GroupBytes(ts)[2 * |ts| - 1] == 8
  {
    SmallGroups();
    var init := GroupBytes(ts[..|ts| - 1]);
    assert GroupBytes(ts) == init + WordBytes(Value("8", 16));
    hide Value, GroupBytes, Groups, IsGroup;
  }
}
