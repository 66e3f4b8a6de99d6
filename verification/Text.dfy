/** Byte strings, character strings split at a separator, and numerals in base ten and sixteen. */
module Text {
  type Byte = x: int | 0 <= x < 0x100

  datatype Option<+T> = None | Some(value: T)

  function Zeros(n: nat): (z: seq<Byte>)
    ensures |z| == n && forall k :: 0 <= k < n ==> z[k] == 0
  {
    seq(n, _ => 0)
  }

  lemma Append3<T>(a: seq<T>, b: seq<T>, c: seq<T>)
    ensures a + b + c == a + (b + c)
  {
  }

  function Mapped<S, T>(f: S -> T, s: seq<S>): (r: seq<T>)
    ensures |r| == |s|
  {
    seq(|s|, k requires 0 <= k < |s| => f(s[k]))
  }

  lemma TimesOneMore(n: nat, k: int)
    ensures n * (k + 1) == n * k + n && (k + 1) * n == k * n + n
  {
  }

  lemma TakeNext<T>(s: seq<T>, i: nat)
    requires i < |s|
    ensures s[..i + 1] == s[..i] + [s[i]]
  {
  }

  /** The number whose big-endian bytes are `bytes`. */
  function BigEndian(bytes: seq<Byte>): (n: nat)
  {
    if bytes == [] then 0 else BigEndian(bytes[..|bytes| - 1]) * 0x100 + bytes[|bytes| - 1]
  }

  /** The four bytes of a number in network order. */
  function NetworkOrder(addr: nat): (bytes: seq<Byte>)
    requires addr < 0x1_0000_0000
  {
    [addr / 0x100_0000, addr / 0x1_0000 % 0x100, addr / 0x100 % 0x100, addr % 0x100]
  }

  lemma BigEndianSnoc(bytes: seq<Byte>, b: Byte)
    ensures BigEndian(bytes + [b]) == BigEndian(bytes) * 0x100 + b
  {
    assert (bytes + [b])[..|bytes|] == bytes;
  }

  lemma NetworkOrderOf(bytes: seq<Byte>)
    requires |bytes| == 4
    ensures BigEndian(bytes) < 0x1_0000_0000 && NetworkOrder(BigEndian(bytes)) == bytes
  {
    var a, b, c, d := bytes[0], bytes[1], bytes[2], bytes[3];
    assert bytes == [a, b, c] + [d];
    FirstThree(a, b, c);
    BigEndianSnoc([a, b, c], d);
    hide BigEndian;
    Digits256(a, b, c, d);
  }

  lemma FirstThree(a: Byte, b: Byte, c: Byte)
    ensures BigEndian([a, b, c]) == (a as int * 0x100 + b) * 0x100 + c
  {
    BigEndianSnoc([], a);
    BigEndianSnoc([a], b);
    BigEndianSnoc([a, b], c);
    assert BigEndian([]) == 0;
    hide BigEndian;
    assert [] + [a] == [a] && [a] + [b] == [a, b] && [a, b] + [c] == [a, b, c];
  }

  lemma Digits256(a: int, b: int, c: int, d: int)
    requires 0 <= a < 0x100 && 0 <= b < 0x100 && 0 <= c < 0x100 && 0 <= d < 0x100
    ensures var n := ((a * 0x100 + b) * 0x100 + c) * 0x100 + d;
            && 0 <= n < 0x1_0000_0000
            && n / 0x100_0000 == a && n / 0x1_0000 % 0x100 == b && n / 0x100 % 0x100 == c && n % 0x100 == d
  {
    var n := ((a * 0x100 + b) * 0x100 + c) * 0x100 + d;
    assert n / 0x100 == (a * 0x100 + b) * 0x100 + c;
    assert n / 0x1_0000 == a * 0x100 + b;
  }

  /** The fields of `s` between occurrences of `sep`: one more than there are separators. */
  function Split(s: string, sep: char): (fields: seq<string>)
    ensures |fields| >= 1
  {
    if s == "" then [""]
    else
      var k := |s| - 1;
      SplitStep(Split(s[..k], sep), s[k], sep)
  }

  function Join(fields: seq<string>, sep: char): string
  {
    if fields == [] then ""
    else if |fields| == 1 then fields[0]
    else Join(fields[..|fields| - 1], sep) + [sep] + fields[|fields| - 1]
  }

  lemma JoinSnoc(a: seq<string>, f: string, sep: char)
    ensures Join(a + [f], sep) == if a == [] then f else Join(a, sep) + [sep] + f
  {
    assert (a + [f])[..|a|] == a;
  }

  /** A text `b` free of separators extends the last field. */
  lemma {:induction false} SplitExtend(a: string, b: string, sep: char)
    requires sep !in b
    ensures var f, g := Split(a, sep), Split(a + b, sep);
            var k := |f| - 1;
            |g| == k + 1 && g[..k] == f[..k] && g[k] == f[k] + b
  {
    var f := Split(a, sep);
    var k := |f| - 1;
    if b == "" {
      hide Split;
      assert a + b == a && f[k] + b == f[k];
    } else {
      var b', c := b[..|b| - 1], b[|b| - 1];
      hide Split;
      SplitExtend(a, b', sep);
      SplitExtendLast(a + b', c, sep);
      Append3(a, b', [c]);
      Append3(f[k], b', [c]);
      assert b == b' + [c];
    }
  }

  lemma SplitSnoc(s: string, c: char, sep: char)
    ensures Split(s + [c], sep) == SplitStep(Split(s, sep), c, sep)
  {
    assert (s + [c])[..|s|] == s;
  }

  lemma SplitEmptyLast(s: string, sep: char)
    ensures var f, g := Split(s, sep), Split(s + [sep], sep);
            |g| == |f| + 1 && g[..|g| - 1] == f && g[|g| - 1] == ""
  {
    SplitSnoc(s, sep, sep);
    hide Split;
  }

  lemma SplitExtendLast(s: string, c: char, sep: char)
    requires c != sep
    ensures var f, g := Split(s, sep), Split(s + [c], sep);
            var k := |f| - 1;
            |g| == k + 1 && g[..k] == f[..k] && g[k] == f[k] + [c]
  {
    SplitSnoc(s, c, sep);
  }

  lemma {:induction false} SplitConcat(a: string, b: string, sep: char)
    ensures Split(a + [sep] + b, sep) == Split(a, sep) + Split(b, sep)
  {
    if b == "" {
      assert a + [sep] + b == a + [sep];
      SplitSnoc(a, sep, sep);
    } else {
      var b', c := b[..|b| - 1], b[|b| - 1];
      assert a + [sep] + b == a + [sep] + b' + [c];
      SplitSnoc(a + [sep] + b', c, sep);
      SplitConcat(a, b', sep);
      SplitStepAfter(Split(a, sep), Split(b', sep), c, sep);
    }
  }

  /** One step of `Split`, on fields already found. */
  function SplitStep(f: seq<string>, c: char, sep: char): seq<string>
    requires f != []
  {
    if c == sep then f + [""] else f[..|f| - 1] + [f[|f| - 1] + [c]]
  }

  lemma SplitStepAfter(f: seq<string>, g: seq<string>, c: char, sep: char)
    requires g != []
    ensures SplitStep(f + g, c, sep) == f + SplitStep(g, c, sep)
  {
    assert (f + g)[..|f + g| - 1] == f + g[..|g| - 1];
  }

  lemma SplitNoSeparator(s: string, sep: char)
    requires sep !in s
    ensures Split(s, sep) == [s]
  {
    SplitExtend("", s, sep);
    assert "" + s == s;
    assert Split("", sep) == [""];
    hide Split;
    assert Split(s, sep)[0] == s;
  }

  /** Splitting undoes joining when no field holds the separator. */
  lemma {:induction false} SplitJoin(fields: seq<string>, sep: char)
    requires fields != []
    requires forall k :: 0 <= k < |fields| ==> sep !in fields[k]
    ensures Split(Join(fields, sep), sep) == fields
  {
    var k := |fields| - 1;
    var a, f := fields[..k], fields[k];
    assert fields == a + [f];
    SplitNoSeparator(f, sep);
    JoinSnoc(a, f, sep);
    hide *;
    if a != [] {
      SplitJoin(a, sep);
      SplitConcat(Join(a, sep), f, sep);
    }
  }

  /** Joining undoes splitting, always. */
  lemma {:induction false} JoinSplit(s: string, sep: char)
    ensures Join(Split(s, sep), sep) == s
  {
    if s != "" {
      var t, c := s[..|s| - 1], s[|s| - 1];
      assert s == t + [c];
      JoinSplit(t, sep);
      SplitSnoc(t, c, sep);
      JoinStep(Split(t, sep), c, sep);
    }
  }

  lemma JoinStep(f: seq<string>, c: char, sep: char)
    requires f != []
    ensures Join(SplitStep(f, c, sep), sep) == Join(f, sep) + [c]
  {
    var a, last := f[..|f| - 1], f[|f| - 1];
    assert f == a + [last];
    JoinSnoc(a, last, sep);
    JoinSnoc(a, last + [c], sep);
    JoinSnoc(f, "", sep);
  }

  /** What is already known about the fields of a text once a prefix of it has been read:
      every complete field is final, and the text read of the current field begins it. */
  lemma {:induction false} SplitPrefix(s: string, i: nat, sep: char)
    requires i <= |s|
    ensures var p, f := Split(s[..i], sep), Split(s, sep);
            && |p| <= |f| && p[..|p| - 1] == f[..|p| - 1]
            && p[|p| - 1] <= f[|p| - 1]
    decreases |s| - i
  {
    hide *;
    if i < |s| {
      SplitPrefix(s, i + 1, sep);
      TakeNext(s, i);
      SplitSnoc(s[..i], s[i], sep);
      StepKnown(Split(s[..i], sep), s[i], sep, Split(s, sep));
    } else {
      assert s[..i] == s;
    }
  }

  lemma StepKnown(p: seq<string>, c: char, sep: char, f: seq<string>)
    requires p != []
    requires var q := SplitStep(p, c, sep);
             |q| <= |f| && q != [] && q[..|q| - 1] == f[..|q| - 1] && q[|q| - 1] <= f[|q| - 1]
    ensures |p| <= |f| && p[..|p| - 1] == f[..|p| - 1] && p[|p| - 1] <= f[|p| - 1]
  {
    var q, k := SplitStep(p, c, sep), |p| - 1;
    assert q[..k] == p[..k];
    if c == sep {
      assert q[..|q| - 1] == p;
      assert f[k] == f[..|q| - 1][k] == p[k];
      assert f[..k] == f[..|q| - 1][..k];
    } else {
      assert q[k] == p[k] + [c];
    }
  }

  // ----- numerals

  predicate IsDecDigit(c: char) { '0' <= c <= '9' }

  predicate IsHexDigit(c: char) { IsDecDigit(c) || 'a' <= c <= 'f' || 'A' <= c <= 'F' }

  /** The value of a hexadecimal digit; characters that are not digits have value 0. */
  function HexDigitValue(c: char): (v: nat)
    ensures v < 16
  {
    if IsDecDigit(c) then c as int - '0' as int
    else if 'a' <= c <= 'f' then c as int - 'a' as int + 10
    else if 'A' <= c <= 'F' then c as int - 'A' as int + 10
    else 0
  }

  function Value(s: string, base: nat): (v: nat)
  {
    if s == "" then 0
    else Value(s[..|s| - 1], base) * base + HexDigitValue(s[|s| - 1])
  }

  predicate AllDec(s: string) { forall c :: c in s ==> IsDecDigit(c) }

  predicate AllHex(s: string) { forall c :: c in s ==> IsHexDigit(c) }

  lemma ValueSnoc(s: string, c: char, base: nat)
    ensures Value(s + [c], base) == Value(s, base) * base + HexDigitValue(c)
  {
    assert (s + [c])[..|s|] == s;
  }

  /** Reading more digits never lowers the value. */
  lemma {:induction false} ValueMonotone(p: string, s: string, base: nat)
    requires p <= s && base >= 1
    ensures Value(p, base) <= Value(s, base)
    decreases |s|
  {
    if p != s {
      var t := s[..|s| - 1];
      assert p <= t;
      ValueMonotone(p, t, base);
      Scale(Value(t, base), base);
    }
  }

  lemma Scale(v: nat, base: nat)
    requires base >= 1
    ensures v <= v * base
  {
  }

  function DigitChar(d: nat): (c: char)
    requires d < 16
    ensures IsHexDigit(c) && HexDigitValue(c) == d
    ensures d < 10 ==> IsDecDigit(c)
  {
    "0123456789abcdef"[d]
  }

  /** The numeral of `n` without leading zeros, as printed by %u (base 10) and %x (base 16). */
  function Numeral(n: nat, base: nat): (s: string)
    requires 2 <= base <= 16
    decreases n
  {
    if n < base then [DigitChar(n)]
    else Numeral(n / base, base) + [DigitChar(n % base)]
  }

  lemma {:induction false} NumeralValue(n: nat, base: nat)
    requires base == 10 || base == 16
    ensures Value(Numeral(n, base), base) == n
    ensures Numeral(n, base) != "" && AllHex(Numeral(n, base))
    ensures base == 10 ==> AllDec(Numeral(n, base))
    decreases n
  {
    hide *;
    if n < base {
      OneDigit(n, base);
    } else {
      SmallerQuotient(n, base);
      NumeralValue(n / base, base);
      NumeralStep(n, base);
      NumeralDigits(n, base);
    }
  }

  lemma OneDigit(n: nat, base: nat)
    requires (base == 10 || base == 16) && n < base
    ensures var t := Numeral(n, base);
            Value(t, base) == n && t != "" && AllHex(t) && (base == 10 ==> AllDec(t))
  {
    var c := DigitChar(n);
    ValueSnoc("", c, base);
    assert "" + [c] == [c] == Numeral(n, base) && Value("", base) == 0;
    hide Value, DigitChar;
  }

  lemma SmallerQuotient(n: nat, base: nat)
    requires (base == 10 || base == 16) && n >= base
    ensures 0 <= n / base < n && 0 <= n % base < base
  {
  }

  lemma NumeralDigits(n: nat, base: nat)
    requires (base == 10 || base == 16) && n >= base && n / base >= 0
    requires var t := Numeral(n / base, base); AllHex(t) && (base == 10 ==> AllDec(t))
    ensures var t := Numeral(n, base); t != "" && AllHex(t) && (base == 10 ==> AllDec(t))
  {
    assert Numeral(n, base) == Numeral(n / base, base) + [DigitChar(n % base)];
    hide Numeral, DigitChar;
  }

  lemma NumeralStep(n: nat, base: nat)
    requires base == 10 || base == 16
    requires n >= base && Value(Numeral(n / base, base), base) == n / base
    ensures Value(Numeral(n, base), base) == n
  {
    ValueSnoc(Numeral(n / base, base), DigitChar(n % base), base);
    hide Value, DigitChar;
    QuotientRemainder(n, base);
  }

  lemma QuotientRemainder(n: nat, base: nat)
    requires base == 10 || base == 16
    ensures n / base * base + n % base == n
  {
  }

  // ----- what digits and numerals are

  /** The digits, with their values. */
  lemma DigitValues(k: nat)
    requires k < 16
    ensures IsHexDigit("0123456789abcdef"[k]) && HexDigitValue("0123456789abcdef"[k]) == k
    ensures IsHexDigit("0123456789ABCDEF"[k]) && HexDigitValue("0123456789ABCDEF"[k]) == k
    ensures IsDecDigit("0123456789abcdef"[k]) <==> k < 10
    ensures DigitChar(k) == "0123456789abcdef"[k]
  {
    if k < 10 {
      assert "0123456789ABCDEF"[k] == '0' + k as char;
    } else {
      assert "0123456789abcdef"[k] == 'a' + (k - 10) as char && "0123456789ABCDEF"[k] == 'A' + (k - 10) as char;
    }
  }

  lemma OnlyDecDigits(c: char)
    ensures IsDecDigit(c) <==> c in "0123456789"
  {
    if IsDecDigit(c) {
      assert c == "0123456789"[c as int - '0' as int];
    }
  }

  lemma OnlyHexDigits(c: char)
    ensures IsHexDigit(c) <==> c in "0123456789" || c in "abcdef" || c in "ABCDEF"
  {
    OnlyDecDigits(c);
    if 'a' <= c <= 'f' {
      assert c == "abcdef"[c as int - 'a' as int];
    } else if 'A' <= c <= 'F' {
      assert c == "ABCDEF"[c as int - 'A' as int];
    }
  }

  /** Small letters only, and no zero in front of another digit. */
  predicate IsPlain(s: string, base: nat)
  {
    && s != "" && (|s| > 1 ==> s[0] != '0')
    && forall k :: 0 <= k < |s| ==> '0' <= s[k] <= '9' || (base == 16 && 'a' <= s[k] <= 'f')
  }

  lemma PlainDigit(c: char, base: nat)
    requires base == 10 || base == 16
    requires '0' <= c <= '9' || (base == 16 && 'a' <= c <= 'f')
    ensures HexDigitValue(c) < base && DigitChar(HexDigitValue(c)) == c && (c == '0' <==> HexDigitValue(c) == 0)
  {
    DigitValues(HexDigitValue(c));
    if c <= '9' {
      assert "0123456789abcdef"[c as int - '0' as int] == c;
    } else {
      assert "0123456789abcdef"[c as int - 'a' as int + 10] == c;
    }
  }

  lemma CharIsPlain(d: nat, base: nat)
    requires (base == 10 || base == 16) && d < base
    ensures var c := DigitChar(d); ('0' <= c <= '9' || (base == 16 && 'a' <= c <= 'f')) && (c == '0' <==> d == 0)
  {
  }

  lemma {:induction false} NumeralIsPlain(n: nat, base: nat)
    requires base == 10 || base == 16
    ensures IsPlain(Numeral(n, base), base) && (n > 0 ==> Numeral(n, base)[0] != '0')
    decreases n
  {
    CharIsPlain(n % base, base);
    hide DigitChar;
    if n >= base {
      SmallerQuotient(n, base);
      NumeralIsPlain(n / base, base);
    }
  }

  lemma {:induction false} PlainPositive(s: string, base: nat)
    requires (base == 10 || base == 16) && IsPlain(s, base) && s[0] != '0'
    ensures Value(s, base) > 0
  {
    var t := s[..|s| - 1];
    PlainDigit(s[|s| - 1], base);
    hide HexDigitValue, DigitChar;
    if t == "" {
      assert Value(t, base) == 0;
    } else {
      PlainPositive(t, base);
    }
  }

  lemma {:induction false} PlainIsNumeral(s: string, base: nat)
    requires (base == 10 || base == 16) && IsPlain(s, base)
    ensures Numeral(Value(s, base), base) == s
  {
    hide *;
    LastOfPlain(s, base);
    var t, d := s[..|s| - 1], HexDigitValue(s[|s| - 1]);
    if t == "" {
      ShortNumeral(d, base);
    } else {
      PlainPositive(t, base);
      PlainIsNumeral(t, base);
      Quotient(Value(t, base), d, base);
      LongNumeral(Value(s, base), base);
    }
  }

  lemma LastOfPlain(s: string, base: nat)
    requires (base == 10 || base == 16) && IsPlain(s, base)
    ensures s != "" && HexDigitValue(s[|s| - 1]) < base
    ensures var t, c := s[..|s| - 1], s[|s| - 1];
            && s == t + [c] && DigitChar(HexDigitValue(c)) == c
            && Value(s, base) == Value(t, base) * base + HexDigitValue(c)
            && (if t == "" then s == [c] && Value(s, base) == HexDigitValue(c) else IsPlain(t, base) && t[0] != '0')
  {
    PlainDigit(s[|s| - 1], base);
    assert Value("", base) == 0;
    hide HexDigitValue, DigitChar;
  }

  lemma ShortNumeral(n: nat, base: nat)
    requires (base == 10 || base == 16) && n < base
    ensures Numeral(n, base) == [DigitChar(n)]
  {
  }

  lemma LongNumeral(n: nat, base: nat)
    requires (base == 10 || base == 16) && n >= base
    ensures n / base >= 0 && 0 <= n % base < base && Numeral(n, base) == Numeral(n / base, base) + [DigitChar(n % base)]
  {
  }

  lemma Quotient(q: nat, d: nat, base: nat)
    requires (base == 10 || base == 16) && d < base && q > 0
    ensures (q * base + d) / base == q && (q * base + d) % base == d && q * base + d >= base
  {
  }

  /** A number has one numeral: the one without capitals and without zeros in front. */
  lemma NumeralExactly(n: nat, base: nat, s: string)
    requires base == 10 || base == 16
    ensures s == Numeral(n, base) <==> IsPlain(s, base) && Value(s, base) == n
  {
    NumeralIsPlain(n, base);
    NumeralValue(n, base);
    hide Numeral, Value, IsPlain;
    if IsPlain(s, base) && Value(s, base) == n {
      PlainIsNumeral(s, base);
    }
  }

  /** How many digits the octets and groups of an address need at most. */
  lemma {:induction false} NumeralLength(n: nat, base: nat, digits: nat)
    requires base == 10 || base == 16
    requires n < Power(base, digits) && digits >= 1
    ensures 1 <= |Numeral(n, base)| <= digits
    decreases digits
  {
    if n >= base {
      assert digits > 1;
      assert base == 10 ==> Power(base, digits) == 10 * Power(base, digits - 1);
      assert base == 16 ==> Power(base, digits) == 16 * Power(base, digits - 1);
      NumeralLength(n / base, base, digits - 1);
    }
  }

  function Power(base: nat, k: nat): nat
  {
    if k == 0 then 1 else base * Power(base, k - 1)
  }

  /** What the digits of a decimal number of at most 255 come to in base sixteen. */
  function AsHex(n: nat): nat { n + 6 * (n / 10) + 96 * (n / 100) }

  lemma AsHexStep(a: nat, d: nat)
    requires a <= 25 && d <= 9
    ensures AsHex(a * 10 + d) == AsHex(a) * 16 + d
  {
    assert (a * 10 + d) / 10 == a && (a * 10 + d) / 100 == a / 10 && a / 100 == 0;
  }

  /** For a decimal field of value at most 255 the digits read in base sixteen stay small. */
  lemma {:induction false} DecimalReadAsHex(s: string)
    requires AllDec(s) && Value(s, 10) <= 255
    ensures Value(s, 16) == AsHex(Value(s, 10))
    ensures Value(s, 16) <= 3 * Value(s, 10)
  {
    if s != "" {
      var t, d := s[..|s| - 1], HexDigitValue(s[|s| - 1]);
      assert s[|s| - 1] in s && d <= 9;
      assert Value(s, 10) == Value(t, 10) * 10 + d && Value(s, 16) == Value(t, 16) * 16 + d;
      hide Value;
      DecimalReadAsHex(t);
      AsHexStep(Value(t, 10), d);
    }
  }
}
