/** What the printer of IPv6 addresses writes, told from the bytes of the address alone. */
module IPv6Canonical {
  import opened Text
  import opened IPv4Text
  import opened IPv6Language
  import opened IPv6Printer
  import opened IPv6RoundTrip

  /** The first ten bytes are zero and the next two are 0xff. */
  predicate IsMapped(src: seq<Byte>)
  {
    |src| == 16 && (forall i :: 0 <= i < 10 ==> src[i] == 0) && src[10] == 0xff && src[11] == 0xff
  }

  /** The first twelve bytes are zero and the next two are not. */
  predicate IsCompatible(src: seq<Byte>)
  {
    |src| == 16 && (forall i :: 0 <= i < 12 ==> src[i] == 0) && (src[12] != 0 || src[13] != 0)
  }

  lemma ZeroWord(src: seq<Byte>, k: nat)
    requires |src| == 16 && k < 8
    ensures Words(src)[k] == 0 <==> src[2 * k] == 0 && src[2 * k + 1] == 0
  {
    assert Words(src)[k] == Pair(src[2 * k], src[2 * k + 1]);
  }

  lemma BestAtStart(w: seq<Word>, l: nat)
    requires |w| == 8 && (l == 5 || l == 6) && w[l] != 0 && forall k :: 0 <= k < l ==> w[k] == 0
    ensures IsBest(w, Run(0, l))
  {
    forall b: nat, m: nat | ZeroRun(w, b, m) && b + m <= 8 ensures m < l || (m == l && 0 <= b) {
      assert !(b <= l < b + m);
    }
  }

  lemma ZeroStart(src: seq<Byte>, l: nat)
    requires |src| == 16 && l <= 8 && forall i :: 0 <= i < 2 * l ==> src[i] == 0
    ensures forall k :: 0 <= k < l ==> Words(src)[k] == 0
  {
    hide *;
    forall k | 0 <= k < l ensures Words(src)[k] == 0 {
      ZeroWord(src, k);
    }
  }

  lemma BestOfMapped(src: seq<Byte>)
    requires IsMapped(src)
    ensures IsBest(Words(src), Run(0, 5)) && Words(src)[5] == 0xffff
  {
    hide Words, IsBest, Pair;
    ZeroStart(src, 5);
    PairOfOnes(src);
    BestAtStart(Words(src), 5);
  }

  lemma PairOfOnes(src: seq<Byte>)
    requires |src| == 16 && src[10] == src[11] == 0xff
    ensures Words(src)[5] == 0xffff
  {
    assert Words(src)[5] == Pair(src[10], src[11]);
  }

  lemma BestOfCompatible(src: seq<Byte>)
    requires IsCompatible(src)
    ensures IsBest(Words(src), Run(0, 6))
  {
    hide Words, IsBest, Pair;
    ZeroStart(src, 6);
    ZeroWord(src, 6);
    BestAtStart(Words(src), 6);
  }

  /** The IPv4 form is chosen exactly for these addresses. */
  lemma EmbeddedExactly(src: seq<Byte>, run: Run)
    requires |src| == 16 && IsBest(Words(src), run)
    ensures Embedded(Words(src), run) <==> IsMapped(src) || IsCompatible(src)
    ensures IsMapped(src) ==> run == Run(0, 5)
    ensures IsCompatible(src) ==> run == Run(0, 6)
  {
    var w := Words(src);
    if IsMapped(src) {
      BestOfMapped(src);
      BestIsUnique(w, run, Run(0, 5));
    } else if IsCompatible(src) {
      BestOfCompatible(src);
      BestIsUnique(w, run, Run(0, 6));
    } else if Embedded(w, run) {
      EmbeddedBytes(src, run);
    }
    hide IsBest, Words, IsMapped, IsCompatible;
  }

  lemma EmbeddedBytes(src: seq<Byte>, run: Run)
    requires |src| == 16 && IsBest(Words(src), run) && Embedded(Words(src), run)
    ensures IsMapped(src) || IsCompatible(src)
  {
    var w := Words(src);
    LongestStart(w, run);
    hide Words, IsBest, Pair;
    forall i | 0 <= i < 2 * run.len ensures src[i] == 0 {
      ZeroByte(src, i);
    }
    if run.len == 6 {
      ZeroWord(src, 6);
    } else {
      OnesOfPair(src);
    }
  }

  lemma OnesOfPair(src: seq<Byte>)
    requires |src| == 16 && Words(src)[5] == 0xffff
    ensures src[10] == src[11] == 0xff
  {
    assert Words(src)[5] == Pair(src[10], src[11]);
  }

  lemma LongestStart(w: seq<Word>, run: Run)
    requires |w| == 8 && IsBest(w, run) && run.Run? && run.base == 0
    ensures run.len <= 8 && forall k :: 0 <= k < run.len ==> w[k] == 0
    ensures run.len < 8 ==> w[run.len] != 0
  {
    if run.len < 8 && w[run.len] == 0 {
      assert ZeroRun(w, 0, run.len + 1);
    }
  }

  /** An address is printed with a dotted quad exactly if it is an IPv4-mapped or an IPv4-compatible one, and then in
      this form. */
  lemma PrintedQuad(src: seq<Byte>, text: string)
    requires |src| == 16 && Prints(src, text)
    ensures '.' in text <==> IsMapped(src) || IsCompatible(src)
    ensures IsMapped(src) ==> text == "::ffff:" + QuadText(src[12..])
    ensures IsCompatible(src) ==> text == "::" + QuadText(src[12..])
  {
    var run :| IsBest(Words(src), run) && text == Format(src, run);
    RunFits(Words(src), run);
    hide *;
    EmbeddedExactly(src, run);
    PrintedText(src, run);
    if IsMapped(src) {
      MappedText(src);
    } else if IsCompatible(src) {
      CompatibleText(src);
    } else {
      NoDotPrinted(src, run);
    }
  }

  lemma RunFits(w: seq<Word>, run: Run)
    requires |w| == 8 && IsBest(w, run)
    ensures run.Run? ==> run.len >= 2 && run.base + run.len <= 8
  {
  }

  lemma QuadHasDot(quad: seq<Byte>)
    requires |quad| == 4
    ensures '.' in QuadText(quad)
  {
    var f := QuadFields(quad);
    JoinFour(f, '.');
    hide Join, Numeral;
    DotAfter(f[0], f[1] + ['.'] + f[2] + ['.'] + f[3]);
    assert f[0] + ['.'] + f[1] + ['.'] + f[2] + ['.'] + f[3] == f[0] + ['.'] + (f[1] + ['.'] + f[2] + ['.'] + f[3]);
  }

  lemma DotAfter(a: string, b: string)
    ensures '.' in a + ['.'] + b
  {
    assert (a + ['.'] + b)[|a|] == '.';
  }

  lemma MappedText(src: seq<Byte>)
    requires IsMapped(src)
    ensures var text := TextOf(Printed(src, Run(0, 5)));
            text == "::ffff:" + QuadText(src[12..]) && '.' in text
  {
    BestOfMapped(src);
    var w, quad := Words(src), QuadText(src[12..]);
    QuadHasDot(src[12..]);
    AllOnes();
    assert w[5..6] == [w[5]] && Hex(w[5..6]) == ["ffff"];
    assert Join([], ':') == "" && Join(["ffff"], ':') == "ffff";
    JoinSnoc(["ffff"], quad, ':');
    assert ["ffff"] + [quad] == WithTail(["ffff"], Some(quad));
    hide Words, Hex, QuadText, Join, IsBest, IsMapped;
    assert "" + "::" + ("ffff" + [':'] + quad) == "::ffff:" + quad;
  }

  lemma AllOnes()
    ensures Numeral(0xffff, 16) == "ffff"
  {
    assert Numeral(0xf, 16) == "f";
    assert Numeral(0xff, 16) == "f" + "f" == "ff";
    assert Numeral(0xfff, 16) == "ff" + "f" == "fff";
    assert Numeral(0xffff, 16) == "fff" + "f";
  }

  lemma CompatibleText(src: seq<Byte>)
    requires IsCompatible(src)
    ensures var text := TextOf(Printed(src, Run(0, 6)));
            text == "::" + QuadText(src[12..]) && '.' in text
  {
    var w, quad := Words(src), QuadText(src[12..]);
    QuadHasDot(src[12..]);
    assert Hex(w[6..6]) == [] && Join([], ':') == "" && Join([quad], ':') == quad;
    hide Words, Hex, QuadText, Join;
    assert [] + [quad] == [quad] && "" + "::" + quad == "::" + quad;
  }

  lemma {:induction false} NoDotJoined(ts: seq<string>)
    requires forall k :: 0 <= k < |ts| ==> '.' !in ts[k]
    ensures '.' !in Join(ts, ':')
  {
    if |ts| > 1 {
      NoDotJoined(ts[..|ts| - 1]);
    }
  }

  lemma NoDotHex(w: seq<Word>)
    ensures '.' !in Join(Hex(w), ':')
  {
    forall k | 0 <= k < |w| ensures '.' !in Hex(w)[k] {
      NumeralIsPlain(w[k], 16);
      assert forall j :: 0 <= j < |Hex(w)[k]| ==> Hex(w)[k][j] != '.';
    }
    NoDotJoined(Hex(w));
  }

  lemma NoDotPrinted(src: seq<Byte>, run: Run)
    requires |src| == 16 && (run.Run? ==> run.base + run.len <= 8) && !Embedded(Words(src), run)
    ensures '.' !in TextOf(Printed(src, run))
  {
    var w := Words(src);
    NoDotHex(w);
    if run.Run? {
      NoDotHex(w[..run.base]);
      NoDotHex(w[run.base + run.len..]);
    }
    hide Hex, Join, Words, Embedded;
  }

  /** The texts are the numerals of the groups: small letters, no zeros in front. */
  predicate Spells(ts: seq<string>, bytes: seq<Byte>)
  {
    && |bytes| == 2 * |ts|
    && forall k :: 0 <= k < |ts| ==>
         IsPlain(ts[k], 16) && Value(ts[k], 16) == bytes[2 * k] as int * 0x100 + bytes[2 * k + 1] as int
  }

  lemma HexSpells(src: seq<Byte>, b: nat, e: nat)
    requires |src| == 16 && b <= e <= 8
    ensures Spells(Hex(Words(src)[b..e]), src[2 * b..2 * e])
  {
    var w := Words(src)[b..e];
    forall k | 0 <= k < |w|
      ensures IsPlain(Hex(w)[k], 16)
      ensures Value(Hex(w)[k], 16) == src[2 * (b + k)] as int * 0x100 + src[2 * (b + k) + 1] as int
    {
      NumeralExactly(w[k], 16, Hex(w)[k]);
    }
    hide Numeral, Value, IsPlain;
  }

  /** The groups from `b` on, `l` of them, are zero, and no zero groups in a row are more, or as many and further
      left. */
  ghost predicate IsLeftmostLongest(src: seq<Byte>, b: nat, l: nat)
  {
    && |src| == 16 && b + l <= 8 && (forall i :: 2 * b <= i < 2 * (b + l) ==> src[i] == 0)
    && forall c: nat, m: nat {:trigger ZeroBytesIn(src, c, m)} ::
         c + m <= 8 && ZeroBytesIn(src, c, m) ==> m < l || (m == l && b <= c)
  }

  predicate ZeroBytesIn(src: seq<Byte>, c: nat, m: nat)
    requires |src| == 16 && c + m <= 8
  {
    forall i :: 2 * c <= i < 2 * (c + m) ==> src[i] == 0
  }

  lemma RunOfBytes(src: seq<Byte>, c: nat, m: nat)
    requires |src| == 16 && c + m <= 8 && m >= 1
    ensures ZeroRun(Words(src), c, m) <==> ZeroBytesIn(src, c, m)
  {
    hide Words;
    if ZeroRun(Words(src), c, m) {
      forall i | 2 * c <= i < 2 * (c + m) ensures src[i] == 0 {
        ZeroByte(src, i);
      }
    }
    if ZeroBytesIn(src, c, m) {
      forall k | c <= k < c + m ensures Words(src)[k] == 0 {
        ZeroWord(src, k);
      }
    }
  }

  lemma LongestIsBest(src: seq<Byte>, b: nat, l: nat)
    requires IsLeftmostLongest(src, b, l) && l >= 2
    ensures IsBest(Words(src), Run(b, l))
  {
    hide Words;
    var w := Words(src);
    RunOfBytes(src, b, l);
    assert ZeroBytesIn(src, b, l);
    forall c: nat, m: nat | ZeroRun(w, c, m) && c + m <= 8 ensures m < l || (m == l && b <= c) {
      RunOfBytes(src, c, m);
    }
    hide ZeroBytesIn, ZeroRun;
  }

  /** Any other address with two zero groups in a row: "::" for the leftmost of the longest such runs. */
  lemma PrintedShort(src: seq<Byte>, text: string, b: nat, l: nat)
    requires |src| == 16 && Prints(src, text)
    requires IsLeftmostLongest(src, b, l) && l >= 2 && !IsMapped(src) && !IsCompatible(src)
    ensures exists left, right ::
              && Spells(left, src[..2 * b]) && Spells(right, src[2 * (b + l)..])
              && text == Join(left, ':') + "::" + Join(right, ':')
  {
    var run :| IsBest(Words(src), run) && text == Format(src, run);
    hide *;
    LongestFits(src, b, l);
    LongestIsBest(src, b, l);
    BestIsUnique(Words(src), run, Run(b, l));
    EmbeddedExactly(src, run);
    PrintedText(src, run);
    BothSides(src, b, l);
  }

  lemma LongestFits(src: seq<Byte>, b: nat, l: nat)
    requires IsLeftmostLongest(src, b, l)
    ensures b + l <= 8
  {
  }

  lemma BothSides(src: seq<Byte>, b: nat, l: nat)
    requires |src| == 16 && b + l <= 8 && l >= 2 && !Embedded(Words(src), Run(b, l))
    ensures var left, right := Hex(Words(src)[..b]), Hex(Words(src)[b + l..]);
            && Spells(left, src[..2 * b]) && Spells(right, src[2 * (b + l)..])
            && TextOf(Printed(src, Run(b, l))) == Join(left, ':') + "::" + Join(right, ':')
  {
    hide Words, Embedded, Hex, Spells, Join;
    HexSpells(src, 0, b);
    HexSpells(src, b + l, 8);
    assert Words(src)[0..b] == Words(src)[..b] && Words(src)[b + l..8] == Words(src)[b + l..];
    assert src[0..2 * b] == src[..2 * b] && src[2 * (b + l)..16] == src[2 * (b + l)..];
  }

  /** And any address without: all eight groups. */
  lemma PrintedLong(src: seq<Byte>, text: string)
    requires |src| == 16 && Prints(src, text)
    requires forall c: nat {:trigger ZeroBytesIn(src, c, 2)} :: c + 2 <= 8 ==> !ZeroBytesIn(src, c, 2)
    ensures exists ts :: Spells(ts, src) && text == Join(ts, ':')
  {
    var run :| IsBest(Words(src), run) && text == Format(src, run);
    if run.Run? {
      assert ZeroRun(Words(src), run.base, 2);
      RunOfBytes(src, run.base, 2);
      assert false;
    }
    PrintedText(src, run);
    HexSpells(src, 0, 8);
    assert Words(src)[0..8] == Words(src) && src[0..16] == src;
    hide Format, Words, Hex, Join, Spells;
  }
}
