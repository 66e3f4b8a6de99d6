/** The IPv4 text parser inet_pton4 and the printer inet_ntop4. */
module IPv4Text {
  import opened Text

  /** A nonempty decimal field of value at most 255; leading zeros are allowed, any number of them. */
  predicate IsOctet(f: string) { f != "" && AllDec(f) && Value(f, 10) <= 255 }

  predicate IsQuad(fields: seq<string>) { |fields| == 4 && forall k :: 0 <= k < |fields| ==> IsOctet(fields[k]) }

  function QuadValue(fields: seq<string>): (quad: seq<Byte>)
    requires IsQuad(fields)
    ensures |quad| == 4
  {
    assert forall k :: 0 <= k < 4 ==> IsOctet(fields[k]);
    [Value(fields[0], 10), Value(fields[1], 10), Value(fields[2], 10), Value(fields[3], 10)]
  }

  /** The address a dotted quad stands for. */
  function DottedQuad(src: string): Option<seq<Byte>>
  {
    var fields := Split(src, '.');
    if IsQuad(fields) then Some(QuadValue(fields)) else None
  }

  /** The accepted texts are exactly four octet fields joined by dots, with the values of those fields. */
  lemma DottedQuadMeaning(src: string, quad: seq<Byte>)
    ensures DottedQuad(src) == Some(quad) <==>
            exists fields :: IsQuad(fields) && src == Join(fields, '.') && quad == QuadValue(fields)
  {
    if DottedQuad(src) == Some(quad) {
      JoinSplit(src, '.');
      assert IsQuad(Split(src, '.')) && src == Join(Split(src, '.'), '.');
    }
    if fields :| IsQuad(fields) && src == Join(fields, '.') && quad == QuadValue(fields) {
      assert forall k :: 0 <= k < 4 ==> IsOctet(fields[k]) && '.' !in fields[k];
      SplitJoin(fields, '.');
    }
  }

  /** The text of an octet: decimal digits, one at least, of that value. */
  predicate IsTextOf(f: string, octet: Byte)
  {
    f != "" && (forall k :: 0 <= k < |f| ==> '0' <= f[k] <= '9') && Value(f, 10) == octet
  }

  /** The same, spelt out. */
  lemma DottedQuadExactly(src: string, quad: seq<Byte>)
    ensures DottedQuad(src) == Some(quad) <==>
            |quad| == 4 &&
            exists a, b, c, d ::
              && IsTextOf(a, quad[0]) && IsTextOf(b, quad[1]) && IsTextOf(c, quad[2]) && IsTextOf(d, quad[3])
              && src == a + ['.'] + b + ['.'] + c + ['.'] + d
  {
    var f := Split(src, '.');
    if DottedQuad(src) == Some(quad) {
      JoinSplit(src, '.');
      assert forall k :: 0 <= k < 4 ==> IsOctet(f[k]) && forall j :: 0 <= j < |f[k]| ==> f[k][j] in f[k];
      JoinFour(f, '.');
      assert IsTextOf(f[0], quad[0]) && IsTextOf(f[1], quad[1]) && IsTextOf(f[2], quad[2]) && IsTextOf(f[3], quad[3]);
    }
    if |quad| == 4 {
      if a, b, c, d :| && IsTextOf(a, quad[0]) && IsTextOf(b, quad[1]) && IsTextOf(c, quad[2]) && IsTextOf(d, quad[3])
                       && src == a + ['.'] + b + ['.'] + c + ['.'] + d {
        FourTexts(a, b, c, d, quad);
      }
    }
    hide Split, Value, Join;
  }

  lemma FourTexts(a: string, b: string, c: string, d: string, quad: seq<Byte>)
    requires |quad| == 4
    requires IsTextOf(a, quad[0]) && IsTextOf(b, quad[1]) && IsTextOf(c, quad[2]) && IsTextOf(d, quad[3])
    ensures DottedQuad(a + ['.'] + b + ['.'] + c + ['.'] + d) == Some(quad)
  {
    hide Split, Value, Join;
    var f := [a, b, c, d];
    JoinFour(f, '.');
    forall k | 0 <= k < 4 ensures '.' !in f[k] && IsOctet(f[k]) {
      assert IsTextOf(f[k], quad[k]);
    }
    SplitJoin(f, '.');
    assert IsQuad(f) && QuadValue(f) == quad;
  }

  // ----- the scan of inet_pton4

  /** What the scan knows after reading `p`: the complete fields are octets stored in `tmp`,
      and `tmp[tp]` holds the value so far of the current field. */
  ghost predicate Scanned(p: string, tmp: seq<Byte>, tp: nat, sawDigit: bool)
  {
    var f := Split(p, '.');
    && tp < 4 == |tmp| && |f| == tp + 1
    && sawDigit == (f[tp] != "") && AllDec(f[tp]) && tmp[tp] == Value(f[tp], 10)
    && forall k :: 0 <= k < tp ==> IsOctet(f[k]) && tmp[k] == Value(f[k], 10)
  }

  lemma ScanDigit(p: string, c: char, tmp: seq<Byte>, tp: nat, sawDigit: bool)
    requires Scanned(p, tmp, tp, sawDigit) && IsDecDigit(c)
    ensures var v := tmp[tp] * 10 + HexDigitValue(c);
            if v <= 255 then Scanned(p + [c], tmp[tp := v], tp, true)
            else forall src :: p + [c] <= src ==> DottedQuad(src) == None
  {
    SplitSnoc(p, c, '.');
    var f := Split(p, '.')[tp];
    ValueSnoc(f, c, 10);
    if tmp[tp] * 10 + HexDigitValue(c) > 255 {
      forall src | p + [c] <= src ensures DottedQuad(src) == None {
        RejectField(src, p + [c], tp);
      }
    }
  }

  lemma ScanDot(p: string, tmp: seq<Byte>, tp: nat, sawDigit: bool)
    requires Scanned(p, tmp, tp, sawDigit)
    ensures if sawDigit && tp < 3 then Scanned(p + ['.'], tmp[tp + 1 := 0], tp + 1, false)
            else forall src :: p + ['.'] <= src ==> DottedQuad(src) == None
  {
    SplitSnoc(p, '.', '.');
    if !(sawDigit && tp < 3) {
      forall src | p + ['.'] <= src ensures DottedQuad(src) == None {
        RejectField(src, p + ['.'], if sawDigit then 4 else tp);
      }
    }
  }

  lemma ScanOther(p: string, c: char, tmp: seq<Byte>, tp: nat, sawDigit: bool)
    requires Scanned(p, tmp, tp, sawDigit) && !IsDecDigit(c) && c != '.'
    ensures forall src :: p + [c] <= src ==> DottedQuad(src) == None
  {
    SplitSnoc(p, c, '.');
    forall src | p + [c] <= src ensures DottedQuad(src) == None {
      assert c in Split(p + [c], '.')[tp];
      RejectField(src, p + [c], tp);
    }
  }

  lemma ScanEnd(src: string, tmp: seq<Byte>, tp: nat, sawDigit: bool)
    requires Scanned(src, tmp, tp, sawDigit)
    ensures DottedQuad(src) == if tp == 3 && sawDigit then Some(tmp) else None
  {
    var f := Split(src, '.');
    if tp == 3 && sawDigit {
      assert IsOctet(f[3]) && IsQuad(f);
      assert QuadValue(f) == tmp;
    } else if tp == 3 {
      assert !IsOctet(f[3]);
    }
  }

  /** A field that is too large, holds another character, is empty or is a fifth one spoils any text it is read from. */
  lemma RejectField(src: string, p: string, t: nat)
    requires p <= src
    requires var f := Split(p, '.');
             && t < |f|
             && (t >= 4 || !AllDec(f[t]) || Value(f[t], 10) > 255 || (f[t] == "" && t < |f| - 1))
    ensures DottedQuad(src) == None
  {
    assert p == src[..|p|];
    SplitPrefix(src, |p|, '.');
    var f, g := Split(p, '.'), Split(src, '.');
    if t < |f| - 1 {
      assert f[..|f| - 1][t] == g[..|f| - 1][t];
    }
    assert f[t] <= g[t];
    ValueMonotone(f[t], g[t], 10);
    assert forall c :: c in f[t] ==> c in g[t];
    assert t < 4 ==> !IsOctet(g[t]);
  }

  ghost predicate Scanning(src: string, i: nat, tmp: seq<Byte>, tp: nat, octets: nat, sawDigit: bool)
  {
    i <= |src| && Scanned(src[..i], tmp, tp, sawDigit) && octets == tp + if sawDigit then 1 else 0
  }

  lemma ScanningBegins(src: string, tmp: seq<Byte>)
    requires |tmp| == 4 && tmp[0] == 0
    ensures Scanning(src, 0, tmp, 0, 0, false)
  {
    assert src[..0] == "" && Split("", '.') == [""];
  }

  /** The loop body of inet_pton4, on one character. */
  method ScanOne(src: string, i: nat, tmp: array<Byte>, tp: nat, octets: nat, sawDigit: bool)
    returns (ok: bool, tp': nat, octets': nat, sawDigit': bool)
    requires i < |src| && Scanning(src, i, tmp[..], tp, octets, sawDigit)
    modifies tmp
    ensures if ok then Scanning(src, i + 1, tmp[..], tp', octets', sawDigit') else DottedQuad(src) == None
  {
    var ch := src[i];
    ghost var p, was := src[..i], tmp[..];
    assert src[..i + 1] == p + [ch] && p + [ch] <= src;
    hide Split, Value, DottedQuad;
    tp', octets', sawDigit' := tp, octets, sawDigit;
    if IsDecDigit(ch) {
      ScanDigit(p, ch, was, tp, sawDigit);
      var value := tmp[tp] * 10 + HexDigitValue(ch);
      if value > 255 {
        return false, tp', octets', sawDigit';
      }
      tmp[tp] := value;
      assert tmp[..] == was[tp := tmp[tp]];
      if !sawDigit {
        octets' := octets + 1;
        if octets' > 4 {
          return false, tp', octets', sawDigit';
        }
        sawDigit' := true;
      }
    } else if ch == '.' && sawDigit {
      ScanDot(p, was, tp, sawDigit);
      if octets == 4 {
        return false, tp', octets', sawDigit';
      }
      tp' := tp + 1;
      tmp[tp'] := 0;
      assert tmp[..] == was[tp' := 0];
      sawDigit' := false;
    } else {
      if ch == '.' {
        ScanDot(p, was, tp, sawDigit);
      } else {
        ScanOther(p, ch, was, tp, sawDigit);
      }
      return false, tp', octets', sawDigit';
    }
    ok := true;
  }

  lemma ScanningEnds(src: string, tmp: seq<Byte>, tp: nat, octets: nat, sawDigit: bool)
    requires Scanning(src, |src|, tmp, tp, octets, sawDigit)
    ensures |tmp| == 4 && DottedQuad(src) == if octets < 4 then None else Some(tmp)
  {
    assert src[..|src|] == src;
    ScanEnd(src, tmp, tp, sawDigit);
    hide Split, Value, DottedQuad;
  }

  /** Writes the four octets at `dst[off..]` and returns true, or leaves `dst` alone and returns false. */
  method InetPton4(src: string, dst: array<Byte>, off: nat) returns (ok: bool)
    requires off + 4 <= dst.Length
    modifies dst
    ensures ok == DottedQuad(src).Some?
    ensures ok ==> dst[..] == old(dst[..off]) + DottedQuad(src).value + old(dst[off + 4..])
    ensures !ok ==> dst[..] == old(dst[..])
  {
    hide *;
    var sawDigit, octets: nat, tp: nat := false, 0, 0;
    var tmp := new Byte[4];
    tmp[tp] := 0;
    ScanningBegins(src, tmp[..]);
    for i := 0 to |src|
      invariant Scanning(src, i, tmp[..], tp, octets, sawDigit) && dst[..] == old(dst[..])
    {
      ok, tp, octets, sawDigit := ScanOne(src, i, tmp, tp, octets, sawDigit);
      if !ok {
        return false;
      }
    }
    ScanningEnds(src, tmp[..], tp, octets, sawDigit);
    if octets < 4 {
      return false;
    }
    CopyFour(tmp[..], dst, off);
    return true;
  }

  method CopyFour(tmp: seq<Byte>, dst: array<Byte>, off: nat)
    requires |tmp| == 4 && off + 4 <= dst.Length
    modifies dst
    ensures dst[..] == old(dst[..off]) + tmp + old(dst[off + 4..])
  {
    forall k | 0 <= k < 4 {
      dst[off + k] := tmp[k];
    }
  }

  // ----- the printer

  /** The text that "%u.%u.%u.%u" gives for four octets. */
  function QuadText(quad: seq<Byte>): string
    requires |quad| == 4
  {
    Join(QuadFields(quad), '.')
  }

  function QuadFields(quad: seq<Byte>): seq<string>
    requires |quad| == 4
  {
    [Numeral(quad[0], 10), Numeral(quad[1], 10), Numeral(quad[2], 10), Numeral(quad[3], 10)]
  }

  lemma OctetNumeral(n: Byte)
    ensures IsOctet(Numeral(n, 10)) && Value(Numeral(n, 10), 10) == n && |Numeral(n, 10)| <= 3
  {
    NumeralValue(n, 10);
    Thousand();
    NumeralLength(n, 10, 3);
  }

  lemma JoinFour(f: seq<string>, sep: char)
    requires |f| == 4
    ensures Join(f, sep) == f[0] + [sep] + f[1] + [sep] + f[2] + [sep] + f[3]
  {
    var a, b, c, d := f[0], f[1], f[2], f[3];
    assert f == [a, b, c, d] && Join([a], sep) == a;
    Snocs(a, b, c, d);
    hide *;
    JoinSnoc([a], b, sep);
    JoinSnoc([a, b], c, sep);
    JoinSnoc([a, b, c], d, sep);
  }

  lemma Snocs<T>(a: T, b: T, c: T, d: T)
    ensures [a] + [b] == [a, b] && [a, b] + [c] == [a, b, c] && [a, b, c] + [d] == [a, b, c, d]
  {
  }

  lemma QuadTextLength(quad: seq<Byte>)
    requires |quad| == 4
    ensures |QuadText(quad)| <= 15
  {
    OctetNumeral(quad[0]);
    OctetNumeral(quad[1]);
    OctetNumeral(quad[2]);
    OctetNumeral(quad[3]);
    JoinFour(QuadFields(quad), '.');
    hide Numeral, Value, Join;
  }

  /** inet_pton4 undoes inet_ntop4 on every address, and no text is longer than 15 characters. */
  lemma PtonOfNtop4(quad: seq<Byte>)
    requires |quad| == 4
    ensures DottedQuad(QuadText(quad)) == Some(quad)
    ensures |QuadText(quad)| <= 15
  {
    QuadTextLength(quad);
    hide Numeral, Value, Split, Join;
    var f := QuadFields(quad);
    OctetNumeral(quad[0]);
    OctetNumeral(quad[1]);
    OctetNumeral(quad[2]);
    OctetNumeral(quad[3]);
    assert IsQuad(f) && QuadValue(f) == quad;
    forall k | 0 <= k < 4 ensures '.' !in f[k] {
      assert IsOctet(f[k]);
    }
    hide IsOctet;
    SplitJoin(f, '.');
  }

  /** The text is the dotted quad of the octets that has no zeros in front of its numbers. */
  lemma QuadTextExactly(quad: seq<Byte>, text: string)
    requires |quad| == 4
    ensures var f := Split(text, '.');
            text == QuadText(quad) <==>
            DottedQuad(text) == Some(quad) && forall k :: 0 <= k < |f| ==> IsPlain(f[k], 10)
  {
    hide *;
    PtonOfNtop4(quad);
    SplitQuadText(quad);
    JoinSplit(text, '.');
    var f := Split(text, '.');
    if DottedQuad(text) == Some(quad) && forall k :: 0 <= k < |f| ==> IsPlain(f[k], 10) {
      FieldsOfQuad(text, quad);
      QuadFieldsAre(f, quad);
    }
  }

  lemma FieldsOfQuad(text: string, quad: seq<Byte>)
    requires DottedQuad(text) == Some(quad)
    ensures var f := Split(text, '.'); |f| == 4 == |quad| && forall k :: 0 <= k < 4 ==> Value(f[k], 10) == quad[k]
  {
    hide Split, Value;
  }

  lemma QuadFieldsAre(f: seq<string>, quad: seq<Byte>)
    requires |f| == 4 == |quad| && forall k :: 0 <= k < 4 ==> Value(f[k], 10) == quad[k]
    requires forall k :: 0 <= k < |f| ==> IsPlain(f[k], 10)
    ensures Join(f, '.') == QuadText(quad)
  {
    hide Numeral, Value, Join, IsPlain;
    NumeralExactly(quad[0], 10, f[0]);
    NumeralExactly(quad[1], 10, f[1]);
    NumeralExactly(quad[2], 10, f[2]);
    NumeralExactly(quad[3], 10, f[3]);
    assert f == QuadFields(quad);
  }

  lemma SplitQuadText(quad: seq<Byte>)
    requires |quad| == 4
    ensures Split(QuadText(quad), '.') == QuadFields(quad) && |QuadFields(quad)| == 4
    ensures forall k :: 0 <= k < 4 ==> IsPlain(QuadFields(quad)[k], 10)
  {
    hide Numeral, Value, Split, Join, IsPlain;
    var f := QuadFields(quad);
    forall k | 0 <= k < 4 ensures '.' !in f[k] && IsPlain(f[k], 10) {
      assert f[k] == Numeral(quad[k], 10);
      OctetNumeral(quad[k]);
      NumeralExactly(quad[k], 10, f[k]);
    }
    SplitJoin(f, '.');
  }

  lemma Thousand()
    ensures Power(10, 3) == 1000
  {
    assert Power(10, 1) == 10 && Power(10, 2) == 100;
  }

  /** Seven characters for "0.0.0.0", whose null goes past a room of seven. */
  lemma SevenCharacters()
    ensures QuadText([0, 0, 0, 0]) == "0.0.0.0" && |QuadText([0, 0, 0, 0])| == 7
  {
    var f := QuadFields([0, 0, 0, 0]);
    assert Numeral(0, 10) == "0" && f == ["0", "0", "0", "0"];
    JoinFour(f, '.');
    hide Join, Numeral;
    assert "0" + ['.'] + "0" + ['.'] + "0" + ['.'] + "0" == "0.0.0.0";
  }

  /** inet_ntop4, when the caller says that it has room for `size` characters at the start of `mem`. The comparison
      leaves out the null: `written` characters are stored, and that is one too many exactly when the text takes up all
      the room. */
  method InetNtop4(src: seq<Byte>, mem: array<char>, size: nat) returns (ok: bool, written: nat)
    requires |src| == 4 && size < mem.Length
    modifies mem
    ensures var text := QuadText(src);
            && ok == (|text| <= size)
            && (ok ==> written == |text| + 1 && mem[..] == text + ['\0'] + old(mem[..])[|text| + 1..])
            && (!ok ==> written == 0 && mem[..] == old(mem[..]))
    ensures written > size <==> |QuadText(src)| == size
  {
    QuadTextLength(src);
    var text := QuadText(src);
    if |text| > size {
      return false, 0;
    }
    hide QuadText;
    forall k | 0 <= k < |text| {
      mem[k] := text[k];
    }
    mem[|text|] := '\0';
    ok, written := true, |text| + 1;
  }
}
