/** What the parser and the printer of IPv6 addresses promise together: the printer writes texts of section 2.2 of
    RFC 4291 only, with the meaning of the address printed, and so the parser undoes the printer. */
module IPv6RoundTrip {
  import opened Text
  import opened IPv4Text
  import opened IPv6Parser
  import opened IPv6Language
  import opened IPv6Printer

  // ----- the printer writes them

  function Hex(w: seq<Word>): (ts: seq<string>)
    ensures |ts| == |w|
  {
    seq(|w|, k requires 0 <= k < |w| => Numeral(w[k], 16))
  }

  lemma HexGroups(w: seq<Word>)
    ensures Groups(Hex(w)) && Short(Hex(w))
    ensures forall k :: 0 <= k < |w| ==> Value(Hex(w)[k], 16) == w[k]
  {
    forall k | 0 <= k < |w|
      ensures IsGroup(Hex(w)[k]) && |Hex(w)[k]| <= 4 && Value(Hex(w)[k], 16) == w[k]
    {
      NumeralValue(w[k], 16);
      GroupLength(w[k]);
    }
  }

  /** The groups that the printer writes stand for the bytes they were made of. */
  lemma {:induction false} HexBytes(w: seq<Word>, bytes: seq<Byte>)
    requires |bytes| == 2 * |w|
    requires forall k :: 0 <= k < |w| ==> w[k] == Pair(bytes[2 * k], bytes[2 * k + 1])
    requires Groups(Hex(w))
    ensures GroupBytes(Hex(w)) == bytes
  {
    if w != [] {
      var n := |w| - 1;
      HexGroups(w[..n]);
      HexBytes(w[..n], bytes[..2 * n]);
      LastGroupBytes(w);
      PairBytes(bytes[2 * n], bytes[2 * n + 1]);
      LastTwo(bytes, n);
      hide GroupBytes, Hex, Pair, WordBytes, Groups;
    }
  }

  lemma LastTwo(bytes: seq<Byte>, n: nat)
    requires |bytes| == 2 * n + 2
    ensures bytes[..2 * n] + [bytes[2 * n], bytes[2 * n + 1]] == bytes
  {
  }

  lemma LastGroupBytes(w: seq<Word>)
    requires w != [] && Groups(Hex(w)) && Groups(Hex(w[..|w| - 1]))
    ensures GroupBytes(Hex(w)) == GroupBytes(Hex(w[..|w| - 1])) + WordBytes(w[|w| - 1])
  {
    HexInit(w);
    HexGroups(w);
    assert GroupBytes(Hex(w)) == GroupBytes(Hex(w)[..|w| - 1]) + WordBytes(Value(Hex(w)[|w| - 1], 16));
    hide GroupBytes, Hex, WordBytes, Value, Groups;
  }

  lemma HexInit(w: seq<Word>)
    requires w != []
    ensures Hex(w)[..|w| - 1] == Hex(w[..|w| - 1])
  {
    hide Numeral;
  }

  lemma PairBytes(hi: Byte, lo: Byte)
    ensures Pair(hi, lo) <= 0xffff && WordBytes(Pair(hi, lo)) == [hi, lo]
  {
  }

  lemma HexSnoc(w: seq<Word>, n: nat)
    requires n < |w|
    ensures Hex(w[..n + 1]) == Hex(w[..n]) + [Numeral(w[n], 16)]
    ensures Hex(w[..n]) == [] <==> n == 0
  {
    hide Numeral;
  }

  lemma {:induction false} PiecesBefore(w: seq<Word>, run: Run, n: nat)
    requires n <= |w| && (run.Run? ==> n <= run.base)
    ensures Pieces(w, run, n) == Join(Hex(w[..n]), ':')
  {
    if n > 0 {
      hide *;
      BeforeRun(w, run, n - 1);
      PiecesBefore(w, run, n - 1);
      HexSnoc(w, n - 1);
      JoinSnoc(Hex(w[..n - 1]), Numeral(w[n - 1], 16), ':');
    }
  }

  lemma BeforeRun(w: seq<Word>, run: Run, i: nat)
    requires i < |w| && (run.Run? ==> i < run.base)
    ensures var digits := Numeral(w[i], 16);
            Pieces(w, run, i + 1) ==
            if i == 0 then digits else Pieces(w, run, i) + [':'] + digits
  {
    assert i == 0 ==> Pieces(w, run, i) == "";
    hide Pieces, Piece, Numeral;
    NextPiece(w, run, i);
    if i == 0 {
      assert "" + Numeral(w[i], 16) == Numeral(w[i], 16);
    }
  }

  lemma {:induction false} PiecesInside(w: seq<Word>, run: Run, n: nat)
    requires run.Run? && run.base < n <= run.base + run.len && n <= |w|
    ensures Pieces(w, run, n) == Join(Hex(w[..run.base]), ':') + ":"
  {
    if n == run.base + 1 {
      PiecesBefore(w, run, n - 1);
    } else {
      PiecesInside(w, run, n - 1);
    }
  }

  lemma {:induction false} PiecesAfter(w: seq<Word>, run: Run, n: nat)
    requires run.Run? && run.len >= 1 && run.base + run.len < n <= |w|
    ensures Pieces(w, run, n) == Join(Hex(w[..run.base]), ':') + "::" + Join(Hex(w[run.base + run.len..n]), ':')
  {
    hide *;
    var e := run.base + run.len;
    HexStep(w, e, n);
    AfterRun(w, run, n - 1);
    var left, before, digits := Join(Hex(w[..run.base]), ':'), Hex(w[e..n - 1]), Numeral(w[n - 1], 16);
    JoinSnoc(before, digits, ':');
    if n == e + 1 {
      PiecesInside(w, run, e);
      AppendAfterGap(left, digits);
    } else {
      PiecesAfter(w, run, n - 1);
      AppendRight(left, Join(before, ':'), digits);
    }
  }

  lemma AfterRun(w: seq<Word>, run: Run, i: nat)
    requires run.Run? && run.len >= 1 && run.base + run.len <= i < |w|
    ensures Pieces(w, run, i + 1) == Pieces(w, run, i) + (":" + Numeral(w[i], 16))
  {
  }

  lemma HexStep(w: seq<Word>, e: nat, n: nat)
    requires e < n <= |w|
    ensures Hex(w[e..n]) == Hex(w[e..n - 1]) + [Numeral(w[n - 1], 16)]
    ensures n == e + 1 <==> Hex(w[e..n - 1]) == []
  {
  }

  lemma AppendAfterGap(left: string, digits: string)
    ensures left + ":" + (":" + digits) == left + "::" + digits
  {
  }

  lemma AppendRight(left: string, right: string, digits: string)
    ensures left + "::" + right + (":" + digits) == left + "::" + (right + [':'] + digits)
  {
  }

  /** The structure of the printed text. */
  function Printed(src: seq<Byte>, run: Run): Form
    requires |src| == 16 && (run.Run? ==> run.base + run.len <= 8)
  {
    var w := Words(src);
    if run == NoRun then Full(Hex(w), None)
    else if Embedded(w, run) then Compressed([], Hex(w[run.len..6]), Some(QuadText(src[12..])))
    else Compressed(Hex(w[..run.base]), Hex(w[run.base + run.len..]), None)
  }

  lemma PrintedText(src: seq<Byte>, run: Run)
    requires |src| == 16 && (run.Run? ==> run.len >= 1 && run.base + run.len <= 8)
    ensures Format(src, run) == TextOf(Printed(src, run))
  {
    var w := Words(src);
    if run == NoRun {
      PiecesBefore(w, run, 8);
      assert w[..8] == w;
    } else if Embedded(w, run) {
      PrintedEmbedded(src, w, run);
    } else {
      var e := run.base + run.len;
      var left := Join(Hex(w[..run.base]), ':');
      if e == 8 {
        PiecesInside(w, run, 8);
        assert left + ":" + ":" == left + "::" + "";
      } else {
        PiecesAfter(w, run, 8);
        assert w[e..8] == w[e..];
      }
    }
  }

  lemma PrintedEmbedded(src: seq<Byte>, w: seq<Word>, run: Run)
    requires |src| == 16 && w == Words(src) && Embedded(w, run)
    ensures Format(src, run) == TextOf(Printed(src, run))
  {
    var quad := QuadText(src[12..]);
    EmbeddedText(w, run, quad);
    assert Format(src, run) == Pieces(w, run, 6) + ":" + quad;
    assert Join([], ':') == "";
    hide Pieces, QuadText, Words, Hex, Join;
    assert "" + "::" == "::";
  }

  lemma EmbeddedText(w: seq<Word>, run: Run, quad: string)
    requires |w| == 8 && Embedded(w, run)
    ensures Pieces(w, run, 6) + ":" + quad == "::" + Join(Hex(w[run.len..6]) + [quad], ':')
  {
    var right := Hex(w[run.len..6]);
    assert Hex(w[..0]) == [] && Join([], ':') == "";
    JoinSnoc(right, quad, ':');
    assert right == [] <==> run.len == 6;
    hide Hex, Join, Pieces;
    if run.len == 6 {
      PiecesInside(w, run, 6);
      assert "" + ":" + ":" + quad == "::" + quad;
    } else {
      PiecesAfter(w, run, 6);
      AppendTail(Join(right, ':'), quad);
    }
  }

  lemma AppendTail(mid: string, quad: string)
    ensures "" + "::" + mid + ":" + quad == "::" + (mid + [':'] + quad)
  {
  }

  lemma Slices(src: seq<Byte>, b: nat, e: nat, left: seq<Byte>, gap: seq<Byte>, right: seq<Byte>)
    requires b <= e <= |src| && left == src[0..b] && gap == src[b..e] && right == src[e..|src|]
    ensures left + gap + right == src
  {
  }

  /** The groups `w[b..e]` stand for the bytes `src[2 * b..2 * e]`. */
  lemma HexSlice(src: seq<Byte>, b: nat, e: nat)
    requires |src| == 16 && b <= e <= 8
    ensures var ts := Hex(Words(src)[b..e]); Groups(ts) && Short(ts) && GroupBytes(ts) == src[2 * b..2 * e]
  {
    HexGroups(Words(src)[b..e]);
    HexBytes(Words(src)[b..e], src[2 * b..2 * e]);
  }

  lemma PlainMeaning(src: seq<Byte>, b: nat, e: nat)
    requires |src| == 16 && b < e <= 8 && ZeroRun(Words(src), b, e - b)
    ensures var r := Compressed(Hex(Words(src)[..b]), Hex(Words(src)[e..]), None);
            WellFormed(r) && Meaning(r) == src
  {
    var w := Words(src);
    assert w[0..b] == w[..b] && w[e..8] == w[e..];
    var l, rt := Hex(w[..b]), Hex(w[e..]);
    HexSlice(src, 0, b);
    HexSlice(src, e, 8);
    ZeroBytes(src, b, e);
    PutTogether(src, l, rt, None, 2 * b, 2 * e);
  }

  lemma PutTogether(src: seq<Byte>, l: seq<string>, rt: seq<string>, t: Option<string>, b: nat, e: nat)
    requires |src| == 16 && b < e <= 16 && Groups(l) && Groups(rt) && Short(l) && Short(rt)
    requires t.Some? ==> DottedQuad(t.value).Some?
    requires GroupBytes(l) == src[0..b] && src[b..e] == Zeros(e - b) && BytesWithTail(rt, t) == src[e..16]
    ensures WellFormed(Compressed(l, rt, t)) && Meaning(Compressed(l, rt, t)) == src
  {
    assert e - b == 16 - 2 * (|l| + |rt| + TailGroups(t));
    hide GroupBytes, Zeros, DottedQuad, BytesWithTail;
    Slices(src, b, e, src[0..b], src[b..e], src[e..16]);
  }

  lemma EmbeddedMeaning(src: seq<Byte>, l: nat)
    requires |src| == 16 && 1 <= l <= 6 && ZeroRun(Words(src), 0, l)
    ensures var r := Compressed([], Hex(Words(src)[l..6]), Some(QuadText(src[12..])));
            WellFormed(r) && Meaning(r) == src
  {
    var rt, tail := Hex(Words(src)[l..6]), Some(QuadText(src[12..]));
    assert GroupBytes([]) == src[0..0];
    PtonOfNtop4(src[12..]);
    HexSlice(src, l, 6);
    ZeroBytes(src, 0, l);
    hide Hex, Words, QuadText, Zeros, DottedQuad;
    JoinSlices(src, 2 * l);
    PutTogether(src, [], rt, tail, 0, 2 * l);
  }

  lemma JoinSlices(src: seq<Byte>, e: nat)
    requires |src| == 16 && e <= 12
    ensures src[e..12] + src[12..] == src[e..16]
  {
  }

  lemma PrintedMeaning(src: seq<Byte>, run: Run)
    requires |src| == 16 && (run.Run? ==> ZeroRun(Words(src), run.base, run.len))
    ensures WellFormed(Printed(src, run)) && Meaning(Printed(src, run)) == src
  {
    var w := Words(src);
    if run == NoRun {
      HexSlice(src, 0, 8);
      assert w[0..8] == w && src[0..16] == src;
    } else if Embedded(w, run) {
      EmbeddedMeaning(src, run.len);
    } else {
      PlainMeaning(src, run.base, run.base + run.len);
    }
  }

  lemma ZeroBytes(src: seq<Byte>, b: nat, e: nat)
    requires |src| == 16 && b <= e <= 8 && forall k :: b <= k < e ==> Words(src)[k] == 0
    ensures src[2 * b..2 * e] == Zeros(2 * e - 2 * b)
  {
    forall j | 2 * b <= j < 2 * e ensures src[j] == 0 {
      ZeroByte(src, j);
    }
    AllZero(src, 2 * b, 2 * e);
  }

  lemma ZeroByte(src: seq<Byte>, j: nat)
    requires |src| == 16 && j < 16 && Words(src)[j / 2] == 0
    ensures src[j] == 0
  {
    var k := j / 2;
    assert Words(src)[k] == Pair(src[2 * k], src[2 * k + 1]);
  }

  lemma AllZero(src: seq<Byte>, b: nat, e: nat)
    requires b <= e <= |src| && forall j :: b <= j < e ==> src[j] == 0
    ensures src[b..e] == Zeros(e - b)
  {
  }

  /** The printer writes texts of section 2.2 of RFC 4291 only. */
  lemma PrinterWritesRfc(src: seq<Byte>, text: string)
    requires |src| == 16 && Prints(src, text)
    ensures exists r :: WellFormed(r) && text == TextOf(r) && Meaning(r) == src
  {
    var run :| IsBest(Words(src), run) && text == Format(src, run);
    PrintedText(src, run);
    PrintedMeaning(src, run);
  }

  /** inet_pton6 undoes inet_ntop6, on every address. */
  lemma ParseOfPrint(src: seq<Byte>, text: string)
    requires |src| == 16 && Prints(src, text)
    ensures Parse(text) == Some(src)
  {
    PrinterWritesRfc(src, text);
    var r :| WellFormed(r) && text == TextOf(r) && Meaning(r) == src;
    RfcTextsAccepted(r);
  }

  /** So no two addresses print alike. */
  lemma PrinterInjective(a: seq<Byte>, b: seq<Byte>, text: string)
    requires |a| == |b| == 16 && Prints(a, text) && Prints(b, text)
    ensures a == b
  {
    ParseOfPrint(a, text);
    ParseOfPrint(b, text);
  }
}
