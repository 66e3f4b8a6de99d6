/** The IPv6 text parser inet_pton6: which texts it accepts, which bytes it stores, and the in-place expansion of
    "::". */
module IPv6Parser {
  import opened Text
  import opened IPv4Text

  /** A group that fits 16 bits; leading zeros are allowed, any number of them. */
  predicate IsGroup(t: string) { t != "" && AllHex(t) && Value(t, 16) <= 0xffff }

  function WordBytes(v: nat): (b: seq<Byte>)
    requires v <= 0xffff
    ensures |b| == 2
  {
    [v / 0x100, v % 0x100]
  }

  /** The bytes stored so far, and how many of them came before "::" if it has been seen. */
  datatype Stored = Stored(bytes: seq<Byte>, gap: Option<nat>)

  /** Takes in a piece of text that a colon follows. */
  function Absorb(a: Stored, t: string): Option<Stored>
  {
    if t == "" then
      if a.gap.Some? then None else Some(a.(gap := Some(|a.bytes|)))
    else if IsGroup(t) && |a.bytes| + 2 <= 16 then Some(a.(bytes := a.bytes + WordBytes(Value(t, 16))))
    else None
  }

  function AbsorbAll(ts: seq<string>): Option<Stored>
  {
    if ts == [] then Some(Stored([], None))
    else
      var a := AbsorbAll(ts[..|ts| - 1]);
      if a == None then None else Absorb(a.value, ts[|ts| - 1])
  }

  /** Takes in the last piece of text, which may be empty or a dotted quad. */
  function AbsorbLast(a: Stored, t: string): Option<Stored>
  {
    if t == "" then Some(a)
    else if IsGroup(t) then Absorb(a, t)
    else if DottedQuad(t).Some? && |a.bytes| + 4 <= 16 then Some(a.(bytes := a.bytes + DottedQuad(t).value))
    else None
  }

  /** Zeros fill the room at the gap. When all 16 bytes were given explicitly there is no room,
      and the bytes after the gap are lost. */
  function Expand(bytes: seq<Byte>, gap: nat): (address: seq<Byte>)
    requires gap <= |bytes| <= 16
    ensures |address| == 16
  {
    if |bytes| < 16 then bytes[..gap] + Zeros(16 - |bytes|) + bytes[gap..]
    else bytes[..gap] + Zeros(16 - gap)
  }

  function Finish(a: Option<Stored>): Option<seq<Byte>>
  {
    if a == None || |a.value.bytes| > 16 then None
    else if a.value.gap.Some? && a.value.gap.value <= |a.value.bytes| then
      Some(Expand(a.value.bytes, a.value.gap.value))
    else if |a.value.bytes| == 16 then Some(a.value.bytes)
    else None
  }

  function ParsePieces(ts: seq<string>): Option<seq<Byte>>
    requires ts != []
  {
    var a := AbsorbAll(ts[..|ts| - 1]);
    if a == None then None else Finish(AbsorbLast(a.value, ts[|ts| - 1]))
  }

  function ParseBody(body: string): Option<seq<Byte>>
  {
    ParsePieces(Split(body, ':'))
  }

  /** One leading colon is dropped, provided another follows it. */
  function Body(src: string): Option<string>
  {
    if |src| == 0 || src[0] != ':' then Some(src)
    else if |src| >= 2 && src[1] == ':' then Some(src[1..])
    else None
  }

  /** The address a text stands for: the pieces between its colons, taken in from the left. */
  function Parse(src: string): Option<seq<Byte>>
  {
    var body := Body(src);
    if body == None then None else ParseBody(body.value)
  }

  // ----- rejection

  lemma {:induction false} AbsorbAllPrefix(ts: seq<string>, k: nat)
    requires k <= |ts| && AbsorbAll(ts[..k]) == None
    ensures AbsorbAll(ts) == None
  {
    if k < |ts| {
      assert ts[..|ts| - 1][..k] == ts[..k];
      AbsorbAllPrefix(ts[..|ts| - 1], k);
    } else {
      assert ts[..k] == ts;
    }
  }

  /** No text that begins with `q` is a group, a dotted quad or empty. */
  ghost predicate Spoiled(q: string)
  {
    forall t :: q <= t ==> t != "" && !IsGroup(t) && DottedQuad(t) == None
  }

  lemma RejectPiece(body: string, i: nat)
    requires i <= |body|
    requires var f := Split(body[..i], ':'); Spoiled(f[|f| - 1])
    ensures ParseBody(body) == None
  {
    hide Split, Spoiled, ParsePieces;
    SplitPrefix(body, i, ':');
    var f := Split(body[..i], ':');
    SpoiledPiece(f[|f| - 1], Split(body, ':'), |f| - 1);
  }

  lemma SpoiledPiece(q: string, g: seq<string>, k: nat)
    requires k < |g| && q <= g[k] && Spoiled(q)
    ensures ParsePieces(g) == None
  {
    assert g[k] != "" && !IsGroup(g[k]) && DottedQuad(g[k]) == None;
    if k < |g| - 1 {
      var init := g[..|g| - 1];
      assert init[..k + 1][..k] == init[..k] && init[..k + 1][k] == g[k];
      assert AbsorbAll(init[..k + 1]) == None;
      hide AbsorbAll;
      AbsorbAllPrefix(init, k + 1);
    }
  }

  lemma RejectPieces(body: string, i: nat)
    requires i <= |body|
    requires var f := Split(body[..i], ':'); AbsorbAll(f[..|f| - 1]) == None
    ensures ParseBody(body) == None
  {
    hide Split, AbsorbAll;
    SplitPrefix(body, i, ':');
    var k, g := |Split(body[..i], ':')| - 1, Split(body, ':');
    assert g[..|g| - 1][..k] == g[..k];
    AbsorbAllPrefix(g[..|g| - 1], k);
  }

  lemma QuadCharacters(t: string)
    requires DottedQuad(t).Some?
    ensures forall i :: 0 <= i < |t| ==> IsDecDigit(t[i]) || t[i] == '.'
  {
    forall i | 0 <= i < |t| ensures IsDecDigit(t[i]) || t[i] == '.' {
      if !IsDecDigit(t[i]) && t[i] != '.' {
        var p := t[..i + 1];
        assert p == t[..i] + [t[i]];
        SplitSnoc(t[..i], t[i], '.');
        var f := Split(p, '.');
        assert t[i] in f[|f| - 1];
        IPv4Text.RejectField(t, p, |f| - 1);
      }
    }
  }

  lemma ColonIsNotQuad(t: string, j: nat)
    requires j < |t| && t[j] == ':'
    ensures DottedQuad(t) == None
  {
    if DottedQuad(t).Some? {
      QuadCharacters(t);
    }
  }

  lemma SpoiledByCharacter(q: string, c: char)
    requires !IsHexDigit(c) && c != '.'
    ensures Spoiled(q + [c])
  {
    forall t | q + [c] <= t ensures t != "" && !IsGroup(t) && DottedQuad(t) == None {
      assert t[|q|] == c;
      if DottedQuad(t).Some? {
        QuadCharacters(t);
      }
    }
  }

  lemma SpoiledBySize(q: string)
    requires AllHex(q) && Value(q, 16) > 0xffff
    ensures Spoiled(q)
  {
    forall t | q <= t ensures t != "" && !IsGroup(t) && DottedQuad(t) == None {
      ValueMonotone(q, t, 16);
      if DottedQuad(t).Some? {
        assert q == t[..|q|];
        SplitPrefix(t, |q|, '.');
        SplitNoSeparator(q, '.');
        var d := Split(t, '.')[0];
        assert IsOctet(d);
        DecimalReadAsHex(d);
        ValueMonotone(q, d, 16);
      }
    }
  }

  // ----- the scan

  /** The variables of inet_pton6: bytes stored, where the gap is, the value so far of the current piece,
      whether that piece has a digit, and where it starts. */
  datatype Scan = Scan(tp: nat, colonp: Option<nat>, val: nat, sawXdigit: bool, curtok: nat)

  predicate ZerosFrom(tmp: seq<Byte>, tp: nat) { forall k :: tp <= k < |tmp| ==> tmp[k] == 0 }

  /** What the scan knows after reading `p`: the complete pieces are stored in `tmp[..tp]`, with zeros beyond. */
  ghost predicate Scanned(p: string, tmp: seq<Byte>, s: Scan)
  {
    var f := Split(p, ':');
    var k := |f| - 1;
    && s.tp <= |tmp| == 16 && ZerosFrom(tmp, s.tp)
    && AbsorbAll(f[..k]) == Some(Stored(tmp[..s.tp], s.colonp)) && (s.colonp.Some? ==> s.colonp.value <= s.tp)
    && AllHex(f[k]) && s.val == Value(f[k], 16) <= 0xffff && s.sawXdigit == (f[k] != "")
    && (!s.sawXdigit ==> s.val == 0)
    && s.curtok <= |p| && p[s.curtok..] == f[k]
  }

  lemma ScannedFacts(p: string, tmp: seq<Byte>, s: Scan)
    requires Scanned(p, tmp, s)
    ensures s.tp <= |tmp| == 16 && ZerosFrom(tmp, s.tp)
    ensures s.val <= 0xffff && s.curtok <= |p| && (s.colonp.Some? ==> s.colonp.value <= s.tp)
    ensures !s.sawXdigit ==> s.val == 0
  {
  }

  lemma ScanStart(body: string, tmp: seq<Byte>)
    requires tmp == Zeros(16)
    ensures Scanned(body[..0], tmp, Scan(0, None, 0, false, 0))
  {
    assert body[..0] == "" && Split("", ':')[..0] == [] && tmp[..0] == [];
  }

  lemma ScanHex(body: string, i: nat, tmp: seq<Byte>, s: Scan)
    requires i < |body| && Scanned(body[..i], tmp, s) && IsHexDigit(body[i])
    ensures var v := s.val * 16 + HexDigitValue(body[i]);
            if v <= 0xffff then Scanned(body[..i + 1], tmp, s.(val := v, sawXdigit := true))
            else ParseBody(body) == None
  {
    hide Split, Value, AbsorbAll, ParseBody, HexDigitValue, Spoiled;
    var p, c := body[..i], body[i];
    assert body[..i + 1] == p + [c];
    SplitExtendLast(p, c, ':');
    var f := Split(p, ':');
    HexSnoc(f[|f| - 1], c);
    if s.val * 16 + HexDigitValue(c) > 0xffff {
      SpoiledBySize(f[|f| - 1] + [c]);
      RejectPiece(body, i + 1);
    } else {
      SnocTail(p, c, s.curtok);
    }
  }

  lemma SnocTail(p: string, c: char, k: nat)
    requires k <= |p|
    ensures (p + [c])[k..] == p[k..] + [c]
  {
  }

  lemma HexSnoc(q: string, c: char)
    requires AllHex(q) && IsHexDigit(c)
    ensures AllHex(q + [c]) && Value(q + [c], 16) == Value(q, 16) * 16 + HexDigitValue(c) && q + [c] != ""
  {
    ValueSnoc(q, c, 16);
  }

  lemma ScanOther(body: string, i: nat, tmp: seq<Byte>, s: Scan)
    requires i < |body| && Scanned(body[..i], tmp, s)
    requires !IsHexDigit(body[i]) && body[i] != ':' && body[i] != '.'
    ensures ParseBody(body) == None
  {
    var p, c := body[..i], body[i];
    assert body[..i + 1] == p + [c];
    SplitSnoc(p, c, ':');
    var f := Split(p, ':');
    SpoiledByCharacter(f[|f| - 1], c);
    RejectPiece(body, i + 1);
  }

  function StoreWord(tmp: seq<Byte>, tp: nat, val: nat): seq<Byte>
    requires tp + 2 <= |tmp| && val <= 0xffff
  {
    tmp[..tp] + WordBytes(val) + tmp[tp + 2..]
  }

  lemma StoredWord(tmp: seq<Byte>, tp: nat, val: nat)
    requires tp + 2 <= |tmp| == 16 && val <= 0xffff && ZerosFrom(tmp, tp)
    ensures var t := StoreWord(tmp, tp, val);
            t[..tp + 2] == tmp[..tp] + WordBytes(val) && ZerosFrom(t, tp + 2)
  {
  }

  /** A colon after a group stores it, if there is room. */
  lemma ScanColonAfterGroup(body: string, i: nat, tmp: seq<Byte>, s: Scan)
    requires i < |body| && Scanned(body[..i], tmp, s) && body[i] == ':' && s.sawXdigit
    ensures if s.tp + 2 <= 16 then
              Scanned(body[..i + 1], StoreWord(tmp, s.tp, s.val), Scan(s.tp + 2, s.colonp, 0, false, i + 1))
            else ParseBody(body) == None
  {
    ColonEndsPiece(body, i, tmp, s);
    hide Split, Value, AbsorbAll, ParseBody, Absorb, StoreWord, ZerosFrom;
    if s.tp + 2 <= 16 {
      StoredWord(tmp, s.tp, s.val);
    } else {
      RejectPieces(body, i + 1);
    }
  }

  /** A colon after nothing marks the gap, once. */
  lemma ScanColonAfterNothing(body: string, i: nat, tmp: seq<Byte>, s: Scan)
    requires i < |body| && Scanned(body[..i], tmp, s) && body[i] == ':' && !s.sawXdigit
    ensures if s.colonp == None then Scanned(body[..i + 1], tmp, Scan(s.tp, Some(s.tp), 0, false, i + 1))
            else ParseBody(body) == None
  {
    ColonEndsPiece(body, i, tmp, s);
    hide Split, Value, AbsorbAll, ParseBody, Absorb, ZerosFrom;
    if s.colonp.Some? {
      RejectPieces(body, i + 1);
    }
  }

  lemma ColonEndsPiece(body: string, i: nat, tmp: seq<Byte>, s: Scan)
    requires i < |body| && Scanned(body[..i], tmp, s) && body[i] == ':'
    ensures var g := Split(body[..i + 1], ':');
            && body[..i + 1][i + 1..] == "" && g[|g| - 1] == "" && Value("", 16) == 0
            && AbsorbAll(g[..|g| - 1]) ==
               if !s.sawXdigit then
                 if s.colonp.Some? then None else Some(Stored(tmp[..s.tp], Some(s.tp)))
               else if s.tp + 2 <= 16 then Some(Stored(tmp[..s.tp] + WordBytes(s.val), s.colonp))
               else None
  {
    assert Value("", 16) == 0;
    hide Split, Value, AbsorbAll, Absorb, ZerosFrom;
    var p := body[..i];
    assert body[..i + 1] == p + [':'];
    SplitEmptyLast(p, ':');
    var f := Split(p, ':');
    AbsorbOneMore(f);
    AbsorbAfter(Stored(tmp[..s.tp], s.colonp), f[|f| - 1]);
  }

  lemma AbsorbOneMore(f: seq<string>)
    requires f != []
    ensures var a := AbsorbAll(f[..|f| - 1]);
            AbsorbAll(f) == if a == None then None else Absorb(a.value, f[|f| - 1])
  {
  }

  /** `Absorb` on a piece of hexadecimal digits. */
  lemma AbsorbAfter(a: Stored, t: string)
    requires AllHex(t) && Value(t, 16) <= 0xffff
    ensures Absorb(a, t) ==
            if t == "" then (if a.gap.Some? then None else Some(a.(gap := Some(|a.bytes|))))
            else if |a.bytes| + 2 <= 16 then Some(a.(bytes := a.bytes + WordBytes(Value(t, 16))))
            else None
  {
    hide Value;
  }

  /** At a dot the whole rest of the text, from the start of the current piece, must be a dotted quad that fits. */
  lemma ScanDot(body: string, i: nat, tmp: seq<Byte>, s: Scan)
    requires i < |body| && body[i] == '.' && Scanned(body[..i], tmp, s)
    ensures ParseBody(body) ==
            if s.tp + 4 <= 16 && DottedQuad(body[s.curtok..]).Some?
            then Finish(Some(Stored(tmp[..s.tp] + DottedQuad(body[s.curtok..]).value, s.colonp)))
            else None
  {
    var f, rest := Split(body[..i], ':'), body[i..];
    var q := f[|f| - 1];
    Tail(body, i, s.curtok);
    if ':' in rest {
      ColonAfterDot(body, i, q);
    } else {
      QuadLast(body, i);
    }
  }

  lemma ColonAfterDot(body: string, i: nat, q: string)
    requires i < |body| && body[i] == '.' && ':' in body[i..]
    ensures ParseBody(body) == None && DottedQuad(q + body[i..]) == None
  {
    var j :| i <= j < |body| && body[j] == ':';
    NotLastPiece(body, i, j);
    ColonIsNotQuad(q + body[i..], |q| + j - i);
  }

  lemma Tail(body: string, i: nat, k: nat)
    requires k <= i <= |body|
    ensures body[k..] == body[..i][k..] + body[i..]
  {
  }

  lemma DotPiece(q: string, t: string)
    requires q + ['.'] <= t
    ensures t != "" && !IsGroup(t)
  {
    assert t[|q|] == '.' && '.' in t;
  }

  lemma QuadLast(body: string, i: nat)
    requires i < |body| && body[i] == '.' && ':' !in body[i..]
    ensures var f := Split(body[..i], ':');
            var a, t := AbsorbAll(f[..|f| - 1]), f[|f| - 1] + body[i..];
            ParseBody(body) ==
            if a.Some? && DottedQuad(t).Some? && |a.value.bytes| + 4 <= 16
            then Finish(Some(a.value.(bytes := a.value.bytes + DottedQuad(t).value)))
            else None
  {
    assert body == body[..i] + body[i..];
    SplitExtend(body[..i], body[i..], ':');
    var f, g := Split(body[..i], ':'), Split(body, ':');
    assert g[..|g| - 1] == f[..|f| - 1];
    hide Split, AbsorbAll, DottedQuad, Absorb;
    DotPiece(f[|f| - 1], g[|f| - 1]);
  }

  lemma NotLastPiece(body: string, i: nat, j: nat)
    requires i < j < |body| && body[i] == '.' && body[j] == ':'
    ensures ParseBody(body) == None
  {
    hide *;
    var q := body[..j];
    DotInside(q, i);
    SplitEmptyLast(q, ':');
    TakeNext(body, j);
    RejectPieces(body, j + 1);
  }

  lemma DotInside(q: string, i: nat)
    requires i < |q| && q[i] == '.'
    ensures AbsorbAll(Split(q, ':')) == None
  {
    assert q[..i + 1] == q[..i] + ['.'];
    var f, h := Split(q[..i], ':'), Split(q, ':');
    var k := |f| - 1;
    hide Split;
    SplitExtendLast(q[..i], '.', ':');
    SplitPrefix(q, i + 1, ':');
    BadPiece(f[k], h, k);
  }

  lemma BadPiece(q: string, h: seq<string>, k: nat)
    requires k < |h| && q + ['.'] <= h[k]
    ensures AbsorbAll(h) == None
  {
    DotPiece(q, h[k]);
    assert h[..k + 1][..k] == h[..k];
    assert AbsorbAll(h[..k + 1]) == None;
    hide AbsorbAll;
    AbsorbAllPrefix(h, k + 1);
  }

  lemma ScanEnd(body: string, tmp: seq<Byte>, s: Scan)
    requires Scanned(body, tmp, s)
    ensures ParseBody(body) ==
            if !s.sawXdigit then Finish(Some(Stored(tmp[..s.tp], s.colonp)))
            else if s.tp + 2 <= 16 then Finish(Some(Stored(tmp[..s.tp] + WordBytes(s.val), s.colonp)))
            else None
  {
  }

  // ----- the parser

  /** Moves `tmp[colonp..tp]` to the end of `tmp`, one byte at a time from the top, leaving zeros behind. The two
      regions may overlap. */
  method ShiftTail(tmp: array<Byte>, colonp: nat, tp: nat)
    requires colonp <= tp <= tmp.Length == 16
    requires forall k :: tp <= k < 16 ==> tmp[k] == 0
    modifies tmp
    ensures tmp[..] == Expand(old(tmp[..tp]), colonp)
  {
    var n := tp - colonp;
    var i := 1;
    while i <= n
      invariant 1 <= i <= n + 1
      invariant forall k :: 0 <= k < 16 ==>
                              tmp[k] == if k < tp - (i - 1) then old(tmp[k])
                                        else if k < 16 - (i - 1) || tp == 16 then 0
                                        else old(tmp[k - (16 - tp)])
    {
      tmp[16 - i] := tmp[colonp + n - i];
      tmp[colonp + n - i] := 0;
      i := i + 1;
    }
  }

  method Store(tmp: array<Byte>, tp: nat, val: nat)
    requires tp + 2 <= tmp.Length && val <= 0xffff
    modifies tmp
    ensures tmp[..] == StoreWord(old(tmp[..]), tp, val)
  {
    tmp[tp] := val / 0x100;
    tmp[tp + 1] := val % 0x100;
  }

  /** The embedded IPv4 address, if it fits and is well formed. */
  method StoreQuad(text: string, tmp: array<Byte>, tp: nat) returns (ok: bool)
    requires tp <= tmp.Length == 16 && ZerosFrom(tmp[..], tp)
    modifies tmp
    ensures ok == (tp + 4 <= 16 && DottedQuad(text).Some?)
    ensures ok ==> tmp[..tp + 4] == old(tmp[..tp]) + DottedQuad(text).value && ZerosFrom(tmp[..], tp + 4)
  {
    if tp + 4 > 16 {
      return false;
    }
    ghost var was := tmp[..];
    ok := InetPton4(text, tmp, tp);
    if ok {
      StoredQuad(was, tp, tmp[..], DottedQuad(text).value);
    }
  }

  /** The end of inet_pton6: expands the gap if there is one, and copies the 16 bytes out if there are 16. */
  method Deliver(tmp: array<Byte>, tp: nat, colonp: Option<nat>, dst: array<Byte>) returns (ok: bool)
    requires tmp.Length == dst.Length == 16 && tmp != dst
    requires tp <= 16 && ZerosFrom(tmp[..], tp)
    requires colonp.Some? ==> colonp.value <= tp
    modifies tmp, dst
    ensures ok == Finish(Some(Stored(old(tmp[..tp]), colonp))).Some?
    ensures ok ==> dst[..] == Finish(Some(Stored(old(tmp[..tp]), colonp))).value
    ensures !ok ==> dst[..] == old(dst[..])
  {
    var end := tp;
    if colonp.Some? {
      assert forall k :: tp <= k < 16 ==> tmp[..][k] == 0;
      ShiftTail(tmp, colonp.value, tp);
      end := 16;
    }
    if end != 16 {
      return false;
    }
    forall k | 0 <= k < 16 {
      dst[k] := tmp[k];
    }
    assert dst[..] == tmp[..];
    return true;
  }

  /** A hexadecimal digit: one more of the group, unless that makes the group too large. */
  method TakeHex(body: string, i: nat, ghost tmp: seq<Byte>, ghost s: Scan, was: nat) returns (ok: bool, val: nat)
    requires i < |body| && IsHexDigit(body[i]) && Scanned(body[..i], tmp, s) && s.val == was
    ensures ok ==> Scanned(body[..i + 1], tmp, s.(val := val, sawXdigit := true))
    ensures !ok ==> ParseBody(body) == None
  {
    hide *;
    ScanHex(body, i, tmp, s);
    val := was * 16 + HexDigitValue(body[i]);
    ok := val <= 0xffff;
  }

  /** A period: what comes after the last colon must be an IPv4 address. */
  method TakeDot(body: string, i: nat, tmp: array<Byte>, ghost s: Scan, curtok: nat, at: nat)
    returns (ok: bool, tp: nat)
    requires i < |body| && body[i] == '.' && tmp.Length == 16 && Scanned(body[..i], tmp[..], s)
    requires s.tp == at && s.curtok == curtok
    modifies tmp
    ensures ok ==> tp <= 16 && ZerosFrom(tmp[..], tp) && (s.colonp.Some? ==> s.colonp.value <= tp)
    ensures ok ==> ParseBody(body) == Finish(Some(Stored(tmp[..tp], s.colonp)))
    ensures !ok ==> ParseBody(body) == None
  {
    hide *;
    ScannedFacts(body[..i], tmp[..], s);
    ScanDot(body, i, tmp[..], s);
    ok := StoreQuad(body[curtok..], tmp, at);
    tp := if ok then at + 4 else at;
  }

  /** A colon: it makes the gap if nothing is before it, and otherwise ends a group, which is stored. */
  method TakeColon(body: string, i: nat, tmp: array<Byte>, ghost s: Scan,
                   sawXdigit: bool, val: nat, at: nat, gap: Option<nat>)
    returns (ok: bool, tp: nat, colonp: Option<nat>)
    requires i < |body| && body[i] == ':' && tmp.Length == 16 && Scanned(body[..i], tmp[..], s)
    requires s.tp == at && s.colonp == gap && s.val == val && s.sawXdigit == sawXdigit
    modifies tmp
    ensures ok ==> Scanned(body[..i + 1], tmp[..], Scan(tp, colonp, 0, false, i + 1))
    ensures !ok ==> ParseBody(body) == None
  {
    hide *;
    ghost var was := tmp[..];
    ScannedFacts(body[..i], was, s);
    ok, tp, colonp := false, at, gap;
    if !sawXdigit {
      ScanColonAfterNothing(body, i, was, s);
      if colonp.Some? {
        return;
      }
      colonp := Some(tp);
    } else {
      ScanColonAfterGroup(body, i, was, s);
      if tp + 2 > 16 {
        return;
      }
      Store(tmp, tp, val);
      tp := tp + 2;
    }
    ok := true;
  }

  /** The store after the loop, of the last group if there is one. */
  method StoreLast(body: string, tmp: array<Byte>, ghost s: Scan, sawXdigit: bool, val: nat, at: nat)
    returns (ok: bool, tp: nat)
    requires tmp.Length == 16 && Scanned(body, tmp[..], s)
    requires s.tp == at && s.val == val && s.sawXdigit == sawXdigit
    modifies tmp
    ensures ok ==> tp <= 16 && ZerosFrom(tmp[..], tp) && (s.colonp.Some? ==> s.colonp.value <= tp)
    ensures ok ==> ParseBody(body) == Finish(Some(Stored(tmp[..tp], s.colonp)))
    ensures !ok ==> ParseBody(body) == None
  {
    hide *;
    ghost var was := tmp[..];
    ok, tp := true, at;
    ScanEnd(body, was, s);
    ScannedFacts(body, was, s);
    if sawXdigit {
      if tp + 2 > 16 {
        ok := false;
        return;
      }
      StoredWord(was, tp, val);
      Store(tmp, tp, val);
      tp := tp + 2;
    }
  }

  /** The loop of inet_pton6 and the store after it. */
  method ScanText(body: string, tmp: array<Byte>) returns (ok: bool, tp: nat, colonp: Option<nat>)
    requires tmp.Length == 16 && tmp[..] == Zeros(16)
    modifies tmp
    ensures ok ==> tp <= 16 && ZerosFrom(tmp[..], tp) && (colonp.Some? ==> colonp.value <= tp)
    ensures ok ==> ParseBody(body) == Finish(Some(Stored(tmp[..tp], colonp)))
    ensures !ok ==> ParseBody(body) == None
  {
    ok, tp, colonp := false, 0, None;
    var curtok: nat, sawXdigit, val: nat := 0, false, 0;
    var i := 0;
    ghost var s := Scan(0, None, 0, false, 0);
    ScanStart(body, tmp[..]);
    hide *;
    while i < |body|
      invariant i <= |body| && s == Scan(tp, colonp, val, sawXdigit, curtok)
      invariant Scanned(body[..i], tmp[..], s)
    {
      var ch := body[i];
      if IsHexDigit(ch) {
        ok, val := TakeHex(body, i, tmp[..], s, val);
        if !ok {
          return;
        }
        sawXdigit := true;
        s := s.(val := val, sawXdigit := true);
      } else if ch == ':' {
        ok, tp, colonp := TakeColon(body, i, tmp, s, sawXdigit, val, tp, colonp);
        if !ok {
          return;
        }
        curtok, sawXdigit, val := i + 1, false, 0;
        s := Scan(tp, colonp, 0, false, i + 1);
      } else if ch == '.' {
        ok, tp := TakeDot(body, i, tmp, s, curtok, tp);
        return;
      } else {
        ScanOther(body, i, tmp[..], s);
        ok := false;
        return;
      }
      i := i + 1;
    }
    assert body[..i] == body;
    ok, tp := StoreLast(body, tmp, s, sawXdigit, val, tp);
  }

  /** Returns true and stores the address that the text stands for, or returns false and leaves `dst` alone. */
  method InetPton6(src: string, dst: array<Byte>) returns (ok: bool)
    requires dst.Length == 16
    modifies dst
    ensures ok == Parse(src).Some?
    ensures ok ==> dst[..] == Parse(src).value
    ensures !ok ==> dst[..] == old(dst[..])
  {
    var tmp := new Byte[16](_ => 0);
    assert tmp[..] == Zeros(16);
    var body := src;
    if |src| > 0 && src[0] == ':' {
      if |src| < 2 || src[1] != ':' {
        return false;
      }
      body := src[1..];
    }
    var tp, colonp;
    ok, tp, colonp := ScanText(body, tmp);
    if ok {
      ok := Deliver(tmp, tp, colonp, dst);
    }
  }

  lemma StoredQuad(was: seq<Byte>, tp: nat, now: seq<Byte>, quad: seq<Byte>)
    requires tp + 4 <= 16 == |was| && |quad| == 4 && ZerosFrom(was, tp)
    requires now == was[..tp] + quad + was[tp + 4..]
    ensures now[..tp + 4] == was[..tp] + quad && ZerosFrom(now, tp + 4)
  {
  }
}
