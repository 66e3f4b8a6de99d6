/** The older IPv4 text parser inet_aton, compared with inet_pton4. */
module AtonText {
  import opened Text
  import opened IPv4Text

  /** The accumulator is an unsigned long, of 32 or 64 bits. */
  function Modulus(wide: bool): nat
  {
    if wide then 0x1_0000_0000_0000_0000 else 0x1_0000_0000
  }

  predicate IsField(f: string, wide: bool)
  {
    AllDec(f) && Value(f, 10) % Modulus(wide) <= 255
  }

  predicate Accepts(fields: seq<string>, wide: bool)
  {
    |fields| <= 4 && forall k :: 0 <= k < |fields| ==> IsField(fields[k], wide)
  }

  function Fold(fields: seq<string>, wide: bool): nat
  {
    if fields == [] then 0
    else Fold(fields[..|fields| - 1], wide) * 256 + Value(fields[|fields| - 1], 10) % Modulus(wide)
  }

  /** The host-order address of an accepted text: at most four fields, empty ones counting as zero, read modulo
      the accumulator's width and moved up when there are fewer than four. */
  function Address(src: string, wide: bool): Option<nat>
  {
    var f := Split(src, '.');
    if Accepts(f, wide) then Some(MovedUp(Fold(f, wide), 4 - |f|)) else None
  }

  /** `addr` moved up by `n` bytes. */
  function MovedUp(addr: nat, n: nat): nat
  {
    if n == 0 then addr else MovedUp(addr, n - 1) * 256
  }

  // ----- the scan

  /** What the scan knows after reading `p`. */
  ghost predicate Scanned(p: string, dots: nat, acc: nat, addr: nat, wide: bool)
  {
    var f := Split(p, '.');
    && |f| == dots + 1 <= 4
    && AllDec(f[dots]) && acc == Value(f[dots], 10) % Modulus(wide)
    && Accepts(f[..dots], wide) && addr == Fold(f[..dots], wide)
  }

  lemma ScanDigit(p: string, c: char, dots: nat, acc: nat, addr: nat, wide: bool)
    requires Scanned(p, dots, acc, addr, wide) && IsDecDigit(c)
    ensures Scanned(p + [c], dots, (acc * 10 + HexDigitValue(c)) % Modulus(wide), addr, wide)
  {
    SplitSnoc(p, c, '.');
    var f := Split(p, '.');
    ValueSnoc(f[dots], c, 10);
    var g := Split(p + [c], '.');
    assert g[..dots] == f[..dots] && g[dots] == f[dots] + [c];
    NextRemainder(Value(f[dots], 10), HexDigitValue(c), wide);
  }

  lemma NextRemainder(v: nat, d: nat, wide: bool)
    ensures (v * 10 + d) % Modulus(wide) == (v % Modulus(wide) * 10 + d) % Modulus(wide)
  {
    var m := Modulus(wide);
    var r := v % m * 10 + d;
    if wide {
      RemainderIs(v * 10 + d, v / 0x1_0000_0000_0000_0000 * 10 + r / 0x1_0000_0000_0000_0000, r % m, wide);
    } else {
      RemainderIs(v * 10 + d, v / 0x1_0000_0000 * 10 + r / 0x1_0000_0000, r % m, wide);
    }
  }

  lemma RemainderIs(x: nat, q: nat, r: nat, wide: bool)
    requires r < Modulus(wide)
    requires if wide then x == q * 0x1_0000_0000_0000_0000 + r else x == q * 0x1_0000_0000 + r
    ensures x % Modulus(wide) == r
  {
  }

  lemma ScanDot(p: string, dots: nat, acc: nat, addr: nat, wide: bool)
    requires Scanned(p, dots, acc, addr, wide)
    ensures if dots < 3 && acc <= 255 then Scanned(p + ['.'], dots + 1, 0, addr * 256 + acc, wide)
            else forall src :: p + ['.'] <= src ==> Address(src, wide) == None
  {
    SplitSnoc(p, '.', '.');
    var f, g := Split(p, '.'), Split(p + ['.'], '.');
    if dots < 3 && acc <= 255 {
      OneMoreField(f, dots, wide);
      assert g[..dots + 1] == f && g[dots + 1] == "";
      hide Split, Value, Fold, Accepts;
    } else {
      hide Split, Value, Fold, Accepts;
      forall src | p + ['.'] <= src ensures Address(src, wide) == None {
        Reject(src, p + ['.'], if dots < 3 then dots else 4, wide);
      }
    }
  }

  lemma OneMoreField(f: seq<string>, k: nat, wide: bool)
    requires |f| == k + 1 <= 4 && Accepts(f[..k], wide) && IsField(f[k], wide)
    ensures Accepts(f, wide) && Fold(f, wide) == Fold(f[..k], wide) * 256 + Value(f[k], 10) % Modulus(wide)
    ensures Value("", 10) % Modulus(wide) == 0
  {
    hide IsField;
    forall j | 0 <= j < k ensures IsField(f[j], wide) {
      assert f[..k][j] == f[j];
    }
  }

  lemma ScanOther(p: string, c: char, dots: nat, acc: nat, addr: nat, wide: bool)
    requires Scanned(p, dots, acc, addr, wide) && !IsDecDigit(c) && c != '.'
    ensures forall src :: p + [c] <= src ==> Address(src, wide) == None
  {
    SplitSnoc(p, c, '.');
    forall src | p + [c] <= src ensures Address(src, wide) == None {
      assert c in Split(p + [c], '.')[dots];
      Reject(src, p + [c], dots, wide);
    }
  }

  lemma ScanEnd(src: string, dots: nat, acc: nat, addr: nat, wide: bool)
    requires Scanned(src, dots, acc, addr, wide)
    ensures Address(src, wide) ==
            if acc <= 255 then Some(MovedUp(addr * 256 + acc, 3 - dots)) else None
  {
    var f := Split(src, '.');
    if acc <= 255 {
      assert forall k :: 0 <= k < dots ==> f[k] == f[..dots][k];
    } else {
      assert !IsField(f[dots], wide);
    }
  }

  lemma Reject(src: string, p: string, t: nat, wide: bool)
    requires p <= src
    requires var f := Split(p, '.');
             && t < |f|
             && (t >= 4 || !AllDec(f[t]) || (t < |f| - 1 && !IsField(f[t], wide)))
    ensures Address(src, wide) == None
  {
    assert p == src[..|p|];
    SplitPrefix(src, |p|, '.');
    var f, g := Split(p, '.'), Split(src, '.');
    if t < |f| - 1 {
      assert f[..|f| - 1][t] == g[..|f| - 1][t];
    }
    assert f[t] <= g[t];
    assert forall c :: c in f[t] ==> c in g[t];
    assert t < 4 ==> !IsField(g[t], wide);
  }

  /** The scan of inet_aton. */
  method ScanAddress(cp: string, wide: bool) returns (ok: bool, addr: nat)
    ensures ok == Address(cp, wide).Some?
    ensures ok ==> addr == Address(cp, wide).value
  {
    var dots: nat, acc: nat := 0, 0;
    addr := 0;
    var i := 0;
    while i < |cp|
      invariant i <= |cp|
      invariant Scanned(cp[..i], dots, acc, addr, wide)
    {
      var cc := cp[i];
      ghost var p := cp[..i];
      i := i + 1;
      assert cp[..i] == p + [cc];
      if IsDecDigit(cc) {
        ScanDigit(p, cc, dots, acc, addr, wide);
        acc := (acc * 10 + HexDigitValue(cc)) % Modulus(wide);
      } else if cc == '.' {
        ScanDot(p, dots, acc, addr, wide);
        dots := dots + 1;
        if dots > 3 {
          return false, 0;
        }
        if acc > 255 {
          return false, 0;
        }
        addr := addr * 256 + acc;
        acc := 0;
      } else {
        ScanOther(p, cc, dots, acc, addr, wide);
        return false, 0;
      }
    }
    // the terminating null is the last character of the source's loop
    assert cp[..i] == cp;
    ScanEnd(cp, dots, acc, addr, wide);
    if acc > 255 {
      return false, 0;
    }
    addr := addr * 256 + acc;
    if dots < 3 {
      addr := MovedUp(addr, 3 - dots);
    }
    return true, addr;
  }

  /** inet_aton: stores the address in network order unless the caller gave no place for it. */
  method InetAton(cp: string, wide: bool, ap: array?<Byte>) returns (ok: bool)
    requires ap != null ==> ap.Length == 4
    modifies if ap == null then {} else {ap}
    ensures ok == Address(cp, wide).Some?
    ensures ok ==> Address(cp, wide).value < 0x1_0000_0000
    ensures ok && ap != null ==> ap[..] == NetworkOrder(Address(cp, wide).value)
    ensures !ok && ap != null ==> ap[..] == old(ap[..])
  {
    var addr;
    ok, addr := ScanAddress(cp, wide);
    if ok {
      AddressFits(cp, wide);
      if ap != null {
        var bytes := NetworkOrder(addr);
        ap[0], ap[1], ap[2], ap[3] := bytes[0], bytes[1], bytes[2], bytes[3];
      }
    }
  }

  /** Every address accepted fits 32 bits, so htonl loses nothing. */
  lemma AddressFits(src: string, wide: bool)
    requires Address(src, wide).Some?
    ensures Address(src, wide).value < 0x1_0000_0000
  {
    var f := Split(src, '.');
    FoldFits(f, wide);
    MovedUpFits(Fold(f, wide), |f|, 4 - |f|);
  }

  lemma {:induction false} FoldFits(f: seq<string>, wide: bool)
    requires Accepts(f, wide)
    ensures Fold(f, wide) < MovedUp(1, |f|)
  {
    if f != [] {
      var init, last := f[..|f| - 1], f[|f| - 1];
      assert IsField(last, wide) && Accepts(init, wide);
      FoldFits(init, wide);
    }
  }

  lemma {:induction false} MovedUpFits(addr: nat, k: nat, n: nat)
    requires addr < MovedUp(1, k) && k + n == 4
    ensures MovedUp(addr, n) < 0x1_0000_0000
    decreases n
  {
    if n == 0 {
      assert MovedUp(1, 1) == 256 && MovedUp(1, 2) == 0x1_0000 && MovedUp(1, 3) == 0x100_0000;
      assert MovedUp(1, 4) == 0x1_0000_0000;
    } else {
      MovedUpStep(addr, n);
      MovedUpFits(addr * 256, k + 1, n - 1);
    }
  }

  lemma {:induction false} MovedUpStep(addr: nat, n: nat)
    requires n > 0
    ensures MovedUp(addr, n) == MovedUp(addr * 256, n - 1)
  {
    if n > 1 {
      MovedUpStep(addr, n - 1);
    }
  }

  // ----- comparison

  /** inet_aton gives the address of inet_pton4 on every text that inet_pton4 accepts: htonl stores its four octets. */
  lemma AgreesWithPton4(src: string, wide: bool)
    requires DottedQuad(src).Some?
    ensures Address(src, wide).Some?
    ensures Address(src, wide).value < 0x1_0000_0000
    ensures NetworkOrder(Address(src, wide).value) == DottedQuad(src).value
  {
    var f, q := Split(src, '.'), DottedQuad(src).value;
    OctetsAreFields(f, wide);
    FoldIsBigEndian(f, q, wide);
    NetworkOrderOf(q);
  }

  /** Which texts are accepted, and the bytes stored for them: one for each field, from the left, and zeros. */
  lemma AddressExactly(src: string, wide: bool)
    ensures var f, m := Split(src, '.'), if wide then 0x1_0000_0000_0000_0000 else 0x1_0000_0000;
            && (Address(src, wide).Some? <==>
                  && |f| <= 4
                  && forall k :: 0 <= k < |f| ==>
                       Value(f[k], 10) % m <= 255 && forall j :: 0 <= j < |f[k]| ==> '0' <= f[k][j] <= '9')
            && (Address(src, wide).Some? ==>
                  && Address(src, wide).value < 0x1_0000_0000
                  && forall k :: 0 <= k < 4 ==>
                       NetworkOrder(Address(src, wide).value)[k] == if k < |f| then Value(f[k], 10) % m else 0)
  {
    var f := Split(src, '.');
    hide Split, Value;
    forall k | 0 <= k < |f| ensures AllDec(f[k]) <==> forall j :: 0 <= j < |f[k]| ==> '0' <= f[k][j] <= '9' {
      DecByIndex(f[k]);
    }
    if Address(src, wide).Some? {
      AddressFits(src, wide);
      var q := seq(|f|, k requires 0 <= k < |f| => FieldByte(f, k, wide));
      FoldIsBigEndian(f, q, wide);
      ThenZeros(q, 4 - |f|);
      NetworkOrderOf(q + Zeros(4 - |f|));
    }
  }

  function FieldByte(f: seq<string>, k: nat, wide: bool): Byte
    requires Accepts(f, wide) && k < |f|
  {
    Value(f[k], 10) % Modulus(wide)
  }

  lemma DecByIndex(s: string)
    ensures AllDec(s) <==> forall j :: 0 <= j < |s| ==> '0' <= s[j] <= '9'
  {
    if AllDec(s) {
      assert forall j :: 0 <= j < |s| ==> s[j] in s;
    }
  }

  lemma {:induction false} ThenZeros(q: seq<Byte>, n: nat)
    ensures BigEndian(q + Zeros(n)) == MovedUp(BigEndian(q), n)
  {
    if n == 0 {
      assert q + Zeros(0) == q;
    } else {
      ThenZeros(q, n - 1);
      assert q + Zeros(n) == q + Zeros(n - 1) + [0];
      BigEndianSnoc(q + Zeros(n - 1), 0);
    }
  }

  lemma OctetsAreFields(f: seq<string>, wide: bool)
    requires IsQuad(f)
    ensures Accepts(f, wide)
    ensures forall k :: 0 <= k < 4 ==> Value(f[k], 10) % Modulus(wide) == QuadValue(f)[k]
  {
    forall k | 0 <= k < 4 ensures IsField(f[k], wide) && Value(f[k], 10) % Modulus(wide) == QuadValue(f)[k] {
      assert IsOctet(f[k]);
      SmallRemainder(Value(f[k], 10), wide);
    }
  }

  lemma {:induction false} FoldIsBigEndian(f: seq<string>, q: seq<Byte>, wide: bool)
    requires |f| == |q|
    requires forall k :: 0 <= k < |f| ==> Value(f[k], 10) % Modulus(wide) == q[k]
    ensures Fold(f, wide) == BigEndian(q)
  {
    if f != [] {
      FoldIsBigEndian(f[..|f| - 1], q[..|q| - 1], wide);
    }
  }

  /** Exactly when the two parsers differ: inet_aton also takes fewer than four fields, empty fields, and fields
      whose value wraps around to at most 255. */
  lemma DiffersFromPton4(src: string, wide: bool)
    ensures DottedQuad(src).Some? <==>
            && Address(src, wide).Some?
            && |Split(src, '.')| == 4
            && forall k :: 0 <= k < 4 ==> Split(src, '.')[k] != "" && Value(Split(src, '.')[k], 10) < Modulus(wide)
  {
    var f := Split(src, '.');
    if DottedQuad(src).Some? {
      AgreesWithPton4(src, wide);
      assert forall k :: 0 <= k < 4 ==> IsOctet(f[k]);
    }
    if Accepts(f, wide) && |f| == 4 && forall k :: 0 <= k < 4 ==> f[k] != "" && Value(f[k], 10) < Modulus(wide) {
      forall k | 0 <= k < 4 ensures IsOctet(f[k]) {
        assert IsField(f[k], wide);
        SmallRemainder(Value(f[k], 10), wide);
      }
    }
  }

  lemma SmallRemainder(v: nat, wide: bool)
    requires v < Modulus(wide)
    ensures v % Modulus(wide) == v
  {
  }

  // ----- one text for each difference

  lemma OneDigitField(c: char, wide: bool)
    requires IsDecDigit(c)
    ensures IsField([c], wide) && IsField("", wide) && !IsOctet("")
  {
    ValueSnoc("", c, 10);
    assert "" + [c] == [c] && Value("", 10) == 0;
    SmallRemainder(HexDigitValue(c), wide);
    SmallRemainder(0, wide);
    hide Value, HexDigitValue;
  }

  lemma FourFields(f: seq<string>, wide: bool)
    requires |f| == 4 && forall k :: 0 <= k < 4 ==> '.' !in f[k] && IsField(f[k], wide)
    ensures var src := f[0] + ['.'] + f[1] + ['.'] + f[2] + ['.'] + f[3];
            Split(src, '.') == f && Address(src, wide).Some?
  {
    JoinFour(f, '.');
    hide Split, IsField, Join, Fold, MovedUp;
    SplitJoin(f, '.');
  }

  /** Fewer than four fields. */
  lemma OneField()
    ensures Address("1", true).Some? && DottedQuad("1") == None
  {
    SplitNoSeparator("1", '.');
    OneDigitField('1', true);
    hide Split, Value, IsField;
  }

  /** An empty field. */
  lemma EmptyField()
    ensures Address("1..2.3", true).Some? && DottedQuad("1..2.3") == None
  {
    var f := ["1", "", "2", "3"];
    OneDigitField('1', true);
    OneDigitField('2', true);
    OneDigitField('3', true);
    assert f[1] == "" && "1" + ['.'] + "" + ['.'] + "2" + ['.'] + "3" == "1..2.3";
    hide Split, IsField, IsOctet, Address;
    FourFields(f, true);
  }

  /** A field that wraps around the 32-bit accumulator: 4294967297 is 2^32 + 1. */
  lemma WrappedField()
    ensures Address("4294967297.0.0.0", false).Some? && DottedQuad("4294967297.0.0.0") == None
  {
    var f := ["4294967297", "0", "0", "0"];
    OneDigitField('0', false);
    FirstFive();
    LastFive();
    assert IsField(f[0], false) && !IsOctet(f[0]);
    assert "4294967297" + ['.'] + "0" + ['.'] + "0" + ['.'] + "0" == "4294967297.0.0.0";
    hide Split, IsField, IsOctet, Address, Value;
    FourFields(f, false);
  }

  lemma DigitValue(s: string, c: char, t: string)
    requires IsDecDigit(c) && s + [c] == t
    ensures Value(t, 10) == Value(s, 10) * 10 + HexDigitValue(c)
  {
    ValueSnoc(s, c, 10);
  }

  lemma FirstFive()
    ensures Value("42949", 10) == 42949
  {
    assert Value("", 10) == 0;
    hide Value;
    DigitValue("", '4', "4");
    DigitValue("4", '2', "42");
    DigitValue("42", '9', "429");
    DigitValue("429", '4', "4294");
    DigitValue("4294", '9', "42949");
  }

  lemma LastFive()
    requires Value("42949", 10) == 42949
    ensures Value("4294967297", 10) == 4294967297
  {
    hide Value;
    DigitValue("42949", '6', "429496");
    DigitValue("429496", '7', "4294967");
    DigitValue("4294967", '2', "42949672");
    DigitValue("42949672", '9', "429496729");
    DigitValue("429496729", '7', "4294967297");
  }
}
