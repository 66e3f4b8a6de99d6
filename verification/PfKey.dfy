/** PF_KEY messages (RFC 2367): the request that adds a security association, and the walk over the extensions of a
    message that prints them. */
module PfKey {
  import opened ByteOrder
  import opened Text
  import opened Unp

  const BUFSIZE: nat := 4096
  const PF_KEY_V2: Byte := 2
  const SADB_ADD: Byte := 3
  const SADB_EXT_SA: nat := 1
  const SADB_EXT_ADDRESS_SRC: nat := 5
  const SADB_EXT_ADDRESS_DST: nat := 6
  const SADB_EXT_ADDRESS_PROXY: nat := 7
  const SADB_EXT_KEY_AUTH: nat := 8
  const SADB_EXT_KEY_ENCRYPT: nat := 9
  const SADB_SASTATE_MATURE: Byte := 1
  const SADB_EALG_NONE: Byte := 0
  const HEADER: nat := 16

  /** The host: its byte order, whether its socket addresses begin with their length, and its number for IPv6. */
  datatype Host = Host(order: Order, saLen: bool, inet6: nat)

  // ----- numbers in the byte order of the host

  function Half(h: Host, v: nat): (s: seq<Byte>)
    requires v < 0x1_0000
    ensures |s| == 2
  {
    StoredBytes(h.order, v)
  }

  function GetHalf(h: Host, s: seq<Byte>): nat
    requires |s| >= 2
  {
    WordOf(h.order, s[0], s[1])
  }

  function Swapped(s: seq<Byte>): seq<Byte>
    requires |s| == 4
  {
    [s[3], s[2], s[1], s[0]]
  }

  function Word(h: Host, v: nat): (s: seq<Byte>)
    requires v < 0x1_0000_0000
    ensures |s| == 4
  {
    if h.order == Big then NetworkOrder(v) else Swapped(NetworkOrder(v))
  }

  function GetWord(h: Host, s: seq<Byte>): nat
    requires |s| >= 4
  {
    BigEndian(if h.order == Big then s[..4] else Swapped(s[..4]))
  }

  // ----- what a message is

  function Family(h: Host, sa: seq<Byte>): nat
    requires |sa| >= 2
  {
    if h.saLen then sa[1] else GetHalf(h, sa)
  }

  /** The length of a socket address: its first byte, where it has one, and otherwise by its family. */
  function SaLen(h: Host, sa: seq<Byte>): nat
    requires |sa| >= 2
  {
    if h.saLen then sa[0]
    else if Family(h, sa) == AF_INET then 16
    else if Family(h, sa) == h.inet6 then 28
    else 0
  }

  function PrefixAll(h: Host, sa: seq<Byte>): Byte
    requires |sa| >= 2
  {
    if Family(h, sa) == AF_INET then 32 else if Family(h, sa) == h.inet6 then 128 else 0
  }

  /** Memory that a whole socket address lies in. */
  predicate HoldsAddress(h: Host, sa: seq<Byte>) { |sa| >= 2 && SaLen(h, sa) <= |sa| }

  function Address(h: Host, sa: seq<Byte>): (r: seq<Byte>)
    requires HoldsAddress(h, sa)
    ensures |r| == SaLen(h, sa)
  {
    sa[..SaLen(h, sa)]
  }

  /** A family that salen knows, so that the address has at least its family in it. */
  predicate Known(h: Host, sa: seq<Byte>) { HoldsAddress(h, sa) && SaLen(h, sa) >= 2 }

  lemma AddressAlone(h: Host, sa: seq<Byte>, rest: seq<Byte>)
    requires Known(h, sa)
    ensures SaLen(h, Address(h, sa) + rest) == SaLen(h, sa)
  {
    var r := Address(h, sa) + rest;
    assert r[0] == sa[0] && r[1] == sa[1];
  }

  /** The length of `n` bytes in units of eight. */
  function Units(n: nat): (u: nat)
    ensures n <= 8 * u < n + 8
  {
    (n + 7) / 8
  }

  function Padded(s: seq<Byte>): (r: seq<Byte>)
    ensures |r| == 8 * Units(|s|) && s <= r
  {
    s + Zeros(8 * Units(|s|) - |s|)
  }

  function Header(h: Host, units: nat, satype: Byte, pid: nat): (s: seq<Byte>)
    requires units < 0x1_0000 && pid < 0x1_0000_0000
    ensures |s| == HEADER
  {
    [PF_KEY_V2, SADB_ADD, 0, satype] + Half(h, units) + Zeros(6) + Word(h, pid)
  }

  function SaExt(h: Host, spi: nat, alg: Byte): (s: seq<Byte>)
    requires spi < 0x1_0000_0000
    ensures |s| == 16
  {
    Half(h, 2) + Half(h, SADB_EXT_SA) + NetworkOrder(spi) + [0, SADB_SASTATE_MATURE, alg, SADB_EALG_NONE] + Zeros(4)
  }

  function AddressExt(h: Host, exttype: nat, sa: seq<Byte>): (s: seq<Byte>)
    requires exttype < 0x1_0000 && HoldsAddress(h, sa) && SaLen(h, sa) <= BUFSIZE
    ensures |s| == 8 * Units(8 + SaLen(h, sa))
  {
    Padded(Half(h, Units(8 + SaLen(h, sa))) + Half(h, exttype) + [0, PrefixAll(h, sa), 0, 0] + Address(h, sa))
  }

  function KeyExt(h: Host, key: seq<Byte>): (s: seq<Byte>)
    requires 8 * |key| < 0x1_0000
    ensures |s| == 8 * Units(8 + |key|)
  {
    Padded(Half(h, Units(8 + |key|)) + Half(h, SADB_EXT_KEY_AUTH) + Half(h, 8 * |key|) + [0, 0] + key)
  }

  function Length(h: Host, src: seq<Byte>, dst: seq<Byte>, key: seq<Byte>): nat
    requires |src| >= 2 && |dst| >= 2
  {
    HEADER + 16 + 8 * Units(8 + SaLen(h, src)) + 8 * Units(8 + SaLen(h, dst)) + 8 * Units(8 + |key|)
  }

  /** What the buffer has room for. */
  predicate Fits(h: Host, src: seq<Byte>, dst: seq<Byte>, key: seq<Byte>)
  {
    HoldsAddress(h, src) && HoldsAddress(h, dst) && Length(h, src, dst, key) <= BUFSIZE
  }

  function Extensions(h: Host, src: seq<Byte>, dst: seq<Byte>, alg: Byte, spi: nat, key: seq<Byte>): seq<Byte>
    requires Fits(h, src, dst, key) && spi < 0x1_0000_0000
  {
    SaExt(h, spi, alg) + (AddressExt(h, SADB_EXT_ADDRESS_SRC, src) +
                          (AddressExt(h, SADB_EXT_ADDRESS_DST, dst) + KeyExt(h, key)))
  }

  // ----- the walk

  /** What is printed of an extension; `Beyond` when that would lie outside the memory at hand. */
  datatype Shown =
    | ShownSa(spi: nat, replay: Byte, state: Byte, auth: Byte, encrypt: Byte)
    | ShownAddress(exttype: nat, sa: seq<Byte>, prefixlen: Byte, proto: Byte)
    | ShownKey(exttype: nat, bits: nat, key: seq<Byte>)
    | ShownOther(exttype: nat)
    | Beyond(exttype: nat)

  function ExtLen(h: Host, s: seq<Byte>): nat
    requires |s| >= 8
  {
    8 * GetHalf(h, s)
  }

  function ExtType(h: Host, s: seq<Byte>): nat
    requires |s| >= 8
  {
    GetHalf(h, s[2..])
  }

  predicate IsAddress(exttype: nat)
  {
    exttype == SADB_EXT_ADDRESS_SRC || exttype == SADB_EXT_ADDRESS_DST || exttype == SADB_EXT_ADDRESS_PROXY
  }

  predicate IsKey(exttype: nat) { exttype == SADB_EXT_KEY_AUTH || exttype == SADB_EXT_KEY_ENCRYPT }

  function KeyLength(h: Host, s: seq<Byte>): nat
    requires |s| >= 8
  {
    (GetHalf(h, s[4..]) + 7) / 8
  }

  /** There is as much memory as is printed of the extension at its start. */
  predicate Whole(h: Host, s: seq<Byte>)
  {
    |s| >= 8 &&
    var t := ExtType(h, s);
    && (t == SADB_EXT_SA ==> |s| >= 16)
    && (IsAddress(t) ==> |s| >= 10 && 8 + SaLen(h, s[8..]) <= |s|)
    && (IsKey(t) ==> 8 + KeyLength(h, s) <= |s|)
  }

  /** What is printed of the extension at the start of `s`. */
  function Show(h: Host, s: seq<Byte>): Shown
    requires |s| >= 8
  {
    var t := ExtType(h, s);
    if !Whole(h, s) then Beyond(t)
    else if t == SADB_EXT_SA then ShownSa(GetWord(h, s[4..]), s[8], s[9], s[10], s[11])
    else if IsAddress(t) then ShownAddress(t, s[8..8 + SaLen(h, s[8..])], s[5], s[4])
    else if IsKey(t) then ShownKey(t, GetHalf(h, s[4..]), s[8..8 + KeyLength(h, s)])
    else ShownOther(t)
  }

  /** How the walk over the `msglen` bytes of a message comes out: it ends with `left` bytes to go, or it shows the last
      of `exts` over and over. */
  datatype Walked = Ends(exts: seq<Shown>, left: int) | Loops(exts: seq<Shown>)

  function Glue(a: seq<Shown>, w: Walked): Walked
  {
    match w
    case Ends(exts, left) => Ends(a + exts, left)
    case Loops(exts) => Loops(a + exts)
  }

  /** A message of `n` units of eight bytes in memory. */
  predicate InMemory(mem: seq<Byte>, n: nat) { 8 * n <= |mem| }

  /** The memory from the `u`-th unit on. */
  function At(mem: seq<Byte>, u: nat): (m: seq<Byte>)
    requires 8 * u <= |mem|
    ensures |m| == |mem| - 8 * u
  {
    mem[8 * u..]
  }

  /** The walk over the extensions of a message of `n` units, from the `u`-th unit on. */
  function WalkFrom(h: Host, mem: seq<Byte>, u: nat, n: nat): Walked
    requires InMemory(mem, n)
    decreases n - u
  {
    if u >= n then Ends([], 8 * (n - u))
    else
      var units := GetHalf(h, At(mem, u));
      if units == 0 then Loops([Show(h, At(mem, u))])
      else Glue([Show(h, At(mem, u))], WalkFrom(h, mem, u + units, n))
  }

  // ----- when the walk ends

  /** The unit that the pointer stands at after `k` turns of the loop, which stops at the end of the message. */
  function Pos(h: Host, mem: seq<Byte>, n: nat, k: nat): nat
    requires InMemory(mem, n)
  {
    if k == 0 then 2
    else
      var u := Pos(h, mem, n, k - 1);
      if u >= n then u else u + GetHalf(h, At(mem, u))
  }

  /** The `k`-th header that the loop reaches, if it gets so far, has length 0. */
  predicate ZeroAt(h: Host, mem: seq<Byte>, n: nat, k: nat)
    requires InMemory(mem, n)
  {
    var u := Pos(h, mem, n, k);
    u < n && GetHalf(h, At(mem, u)) == 0
  }

  ghost predicate LoopEnds(h: Host, mem: seq<Byte>, n: nat)
    requires InMemory(mem, n)
  {
    exists k: nat :: Pos(h, mem, n, k) >= n
  }

  lemma {:induction false} StaysPut(h: Host, mem: seq<Byte>, n: nat, k: nat, j: nat)
    requires InMemory(mem, n) && k <= j && (Pos(h, mem, n, k) >= n || ZeroAt(h, mem, n, k))
    ensures Pos(h, mem, n, j) == Pos(h, mem, n, k)
    decreases j
  {
    if k < j {
      StaysPut(h, mem, n, k, j - 1);
    }
    hide GetHalf;
  }

  /** Without a zero length the pointer moves on by one unit at least. */
  lemma {:induction false} MovesOn(h: Host, mem: seq<Byte>, n: nat, k: nat)
    requires InMemory(mem, n) && forall j: nat :: !ZeroAt(h, mem, n, j)
    ensures Pos(h, mem, n, k) >= n || Pos(h, mem, n, k) >= 2 + k
  {
    if k > 0 {
      MovesOn(h, mem, n, k - 1);
      assert !ZeroAt(h, mem, n, k - 1);
    }
    hide GetHalf;
  }

  /** The loop of print_sadb_msg ends if and only if no header that it reaches has length 0. */
  lemma LoopEndsExactly(h: Host, mem: seq<Byte>, n: nat)
    requires InMemory(mem, n)
    ensures LoopEnds(h, mem, n) <==> forall k: nat :: !ZeroAt(h, mem, n, k)
  {
    if k: nat, j: nat :| Pos(h, mem, n, k) >= n && ZeroAt(h, mem, n, j) {
      if j <= k {
        StaysPut(h, mem, n, j, k);
      } else {
        StaysPut(h, mem, n, k, j);
      }
    }
    if forall k: nat :: !ZeroAt(h, mem, n, k) {
      MovesOn(h, mem, n, n);
    }
    hide Pos, GetHalf;
  }

  lemma {:induction false} WalkFromPos(h: Host, mem: seq<Byte>, n: nat, k: nat)
    requires InMemory(mem, n)
    ensures WalkFrom(h, mem, Pos(h, mem, n, k), n).Loops? ==> exists j: nat :: ZeroAt(h, mem, n, j)
    ensures WalkFrom(h, mem, Pos(h, mem, n, k), n).Ends? ==> LoopEnds(h, mem, n)
    decreases n - Pos(h, mem, n, k)
  {
    var u := Pos(h, mem, n, k);
    if u < n {
      if GetHalf(h, At(mem, u)) == 0 {
        assert ZeroAt(h, mem, n, k);
      } else {
        assert Pos(h, mem, n, k + 1) == u + GetHalf(h, At(mem, u));
        WalkFromPos(h, mem, n, k + 1);
      }
    }
    hide Show, GetHalf;
  }

  /** And what the walk comes to says so. */
  lemma WalkEndsExactly(h: Host, mem: seq<Byte>, n: nat)
    requires InMemory(mem, n)
    ensures WalkFrom(h, mem, 2, n).Ends? <==> forall k: nat :: !ZeroAt(h, mem, n, k)
  {
    LoopEndsExactly(h, mem, n);
    assert Pos(h, mem, n, 0) == 2;
    WalkFromPos(h, mem, n, 0);
    hide *;
  }

  lemma WalkStep(h: Host, mem: seq<Byte>, n: nat, k: nat)
    requires InMemory(mem, n)
    ensures var u := Pos(h, mem, n, k);
            && (u >= n ==> WalkFrom(h, mem, u, n) == Ends([], 8 * (n - u)))
            && (u < n && ZeroAt(h, mem, n, k) ==> WalkFrom(h, mem, u, n) == Loops([Show(h, At(mem, u))]))
            && (u < n && !ZeroAt(h, mem, n, k) ==>
                  && Pos(h, mem, n, k + 1) > u
                  && WalkFrom(h, mem, u, n) ==
                     Glue([Show(h, At(mem, u))], WalkFrom(h, mem, Pos(h, mem, n, k + 1), n)))
  {
    hide Show, GetHalf;
  }

  lemma WholeMemory(mem: seq<Byte>, n: nat)
    requires InMemory(mem, n)
    ensures 8 * n <= |mem|
  {
  }

  lemma PosStart(h: Host, mem: seq<Byte>, n: nat)
    requires InMemory(mem, n)
    ensures Pos(h, mem, n, 0) == 2
  {
  }

  lemma GlueOne(a: Shown, w: Walked)
    ensures var g := Glue([a], w);
            && |g.exts| == 1 + |w.exts| && g.exts[0] == a && g.exts[1..] == w.exts
            && (g.Ends? <==> w.Ends?) && (g.Ends? ==> g.left == w.left)
  {
  }

  lemma {:induction false} ShownAt(h: Host, mem: seq<Byte>, n: nat, k: nat, j: nat)
    requires InMemory(mem, n) && j < |WalkFrom(h, mem, Pos(h, mem, n, k), n).exts|
    ensures Pos(h, mem, n, k + j) < n
    ensures WalkFrom(h, mem, Pos(h, mem, n, k), n).exts[j] == Show(h, At(mem, Pos(h, mem, n, k + j)))
    decreases j
  {
    hide *;
    WholeMemory(mem, n);
    WalkStep(h, mem, n, k);
    var u, w := Pos(h, mem, n, k), WalkFrom(h, mem, Pos(h, mem, n, k), n);
    if u < n && !ZeroAt(h, mem, n, k) {
      var rest := WalkFrom(h, mem, Pos(h, mem, n, k + 1), n);
      GlueOne(Show(h, At(mem, u)), rest);
      if j > 0 {
        assert w.exts[j] == w.exts[1..][j - 1];
        ShownAt(h, mem, n, k + 1, j - 1);
        assert k + 1 + (j - 1) == k + j;
      }
    }
  }

  lemma {:induction false} StopsAt(h: Host, mem: seq<Byte>, n: nat, k: nat)
    requires InMemory(mem, n)
    ensures var w := WalkFrom(h, mem, Pos(h, mem, n, k), n);
            && (w.Ends? ==> w.left == 8 * (n - Pos(h, mem, n, k + |w.exts|)) <= 0)
            && (w.Loops? ==> w.exts != [] && ZeroAt(h, mem, n, k + |w.exts| - 1))
    decreases n - Pos(h, mem, n, k)
  {
    hide *;
    WholeMemory(mem, n);
    WalkStep(h, mem, n, k);
    var u, w := Pos(h, mem, n, k), WalkFrom(h, mem, Pos(h, mem, n, k), n);
    if u < n && !ZeroAt(h, mem, n, k) {
      var rest := WalkFrom(h, mem, Pos(h, mem, n, k + 1), n);
      if Pos(h, mem, n, k + 1) > u {
        StopsAt(h, mem, n, k + 1);
        GlueOne(Show(h, At(mem, u)), rest);
        assert k + 1 + |rest.exts| == k + |w.exts|;
      }
    }
  }

  /** What is shown is the extension at each place that the pointer comes to, one after another, and nothing else; and
      the bytes to go are what the last of them leaves. */
  lemma WalkShows(h: Host, mem: seq<Byte>, n: nat, j: nat)
    requires InMemory(mem, n)
    ensures var w := WalkFrom(h, mem, 2, n);
            && (j < |w.exts| ==> Pos(h, mem, n, j) < n && w.exts[j] == Show(h, At(mem, Pos(h, mem, n, j))))
            && (w.Ends? ==> w.left == 8 * (n - Pos(h, mem, n, |w.exts|)) <= 0)
            && (w.Loops? ==> w.exts != [] && ZeroAt(h, mem, n, |w.exts| - 1))
  {
    hide *;
    WholeMemory(mem, n);
    PosStart(h, mem, n);
    if j < |WalkFrom(h, mem, 2, n).exts| {
      ShownAt(h, mem, n, 0, j);
    }
    StopsAt(h, mem, n, 0);
  }

  // ----- messages that consist of whole extensions

  /** The bytes are extensions one after another, with nothing between them and nothing left over. */
  predicate Tiled(h: Host, s: seq<Byte>)
  {
    s == [] ||
    (|s| >= 8 && 8 <= ExtLen(h, s) <= |s| && Whole(h, s[..ExtLen(h, s)]) && Tiled(h, s[ExtLen(h, s)..]))
  }

  function Walk(h: Host, s: seq<Byte>): seq<Shown>
    requires Tiled(h, s)
  {
    if s == [] then []
    else [Show(h, s[..ExtLen(h, s)])] + Walk(h, s[ExtLen(h, s)..])
  }

  /** What is printed of a whole extension is in it. */
  lemma ShowWhole(h: Host, e: seq<Byte>, s: seq<Byte>)
    requires Whole(h, e) && e <= s
    ensures |s| >= 8 && Show(h, s) == Show(h, e)
  {
    assert s[..|e|] == e;
    SameStart(e, s);
    assert ExtType(h, s) == ExtType(h, e);
    if IsAddress(ExtType(h, e)) {
      assert s[8..][0] == e[8..][0] && s[8..][1] == e[8..][1];
      assert SaLen(h, s[8..]) == SaLen(h, e[8..]);
      assert s[8..8 + SaLen(h, e[8..])] == e[8..8 + SaLen(h, e[8..])];
    } else if IsKey(ExtType(h, e)) {
      assert KeyLength(h, s) == KeyLength(h, e);
      assert s[8..8 + KeyLength(h, e)] == e[8..8 + KeyLength(h, e)];
    } else if ExtType(h, e) == SADB_EXT_SA {
      assert s[4..][..4] == e[4..][..4];
    }
    hide BigEndian, SaLen;
  }

  lemma SameStart(e: seq<Byte>, s: seq<Byte>)
    requires 8 <= |e| && e <= s
    ensures s[2..][0] == e[2..][0] && s[2..][1] == e[2..][1] && s[4..][0] == e[4..][0] && s[4..][1] == e[4..][1]
  {
  }

  /** A message that consists of whole extensions is walked to its end, one after another. */
  lemma {:induction false} TiledWalk(h: Host, mem: seq<Byte>, u: nat, n: nat, s: seq<Byte>)
    requires InMemory(mem, n) && u <= n && |s| == 8 * (n - u) && s <= At(mem, u) && Tiled(h, s)
    ensures WalkFrom(h, mem, u, n) == Ends(Walk(h, s), 0)
    decreases n - u
  {
    hide At, Tiled, Walk, Show, GetHalf;
    if u == n {
      WalkNothing(h);
    } else {
      FirstOfTiled(h, At(mem, u), s);
      var units := GetHalf(h, At(mem, u));
      Suffix(mem, u, units, s);
      TiledWalk(h, mem, u + units, n, s[8 * units..]);
    }
  }

  lemma WalkNothing(h: Host)
    ensures Walk(h, []) == []
  {
  }

  lemma Suffix(mem: seq<Byte>, u: nat, units: nat, s: seq<Byte>)
    requires 8 * u <= |mem| && s <= At(mem, u) && 8 * units <= |s|
    ensures 8 * (u + units) <= |mem| && s[8 * units..] <= At(mem, u + units)
  {
  }

  lemma FirstOfTiled(h: Host, m: seq<Byte>, s: seq<Byte>)
    requires Tiled(h, s) && s != [] && s <= m
    ensures |m| >= 8
    ensures var units := GetHalf(h, m);
            && 0 < 8 * units <= |s| && Tiled(h, s[8 * units..])
            && Walk(h, s) == [Show(h, m)] + Walk(h, s[8 * units..])
  {
    assert m[0] == s[0] && m[1] == s[1];
    var e := s[..ExtLen(h, s)];
    assert Whole(h, e) && e <= m;
    ShowWhole(h, e, m);
    hide Show, Whole;
  }

  // ----- the walk undoes the message

  lemma HalfAt(h: Host, v: nat, rest: seq<Byte>)
    requires v < 0x1_0000
    ensures GetHalf(h, Half(h, v) + rest) == v
  {
    assert (Half(h, v) + rest)[0] == Half(h, v)[0] && (Half(h, v) + rest)[1] == Half(h, v)[1];
  }

  /** The walk shows the first extension and goes on with the rest. */
  lemma WalkOne(h: Host, e: seq<Byte>, rest: seq<Byte>)
    requires Whole(h, e) && ExtLen(h, e) == |e| && Tiled(h, rest)
    ensures Tiled(h, e + rest) && Walk(h, e + rest) == [Show(h, e)] + Walk(h, rest)
  {
    var s := e + rest;
    assert s[0] == e[0] && s[1] == e[1];
    assert ExtLen(h, s) == |e|;
    assert s[..|e|] == e && s[|e|..] == rest;
    hide Whole, Show, GetHalf;
  }

  /** The first two fields of an extension. */
  lemma Fields(h: Host, units: nat, exttype: nat, rest: seq<Byte>)
    requires units < 0x1_0000 && exttype < 0x1_0000 && |rest| >= 4
    ensures var e := Half(h, units) + Half(h, exttype) + rest;
            ExtLen(h, e) == 8 * units && ExtType(h, e) == exttype && e[4..] == rest
  {
    var e := Half(h, units) + Half(h, exttype) + rest;
    assert e == Half(h, units) + (Half(h, exttype) + rest);
    HalfAt(h, units, Half(h, exttype) + rest);
    assert e[2..] == Half(h, exttype) + rest;
    HalfAt(h, exttype, rest);
  }

  lemma SaShown(h: Host, spi: nat, alg: Byte)
    requires spi < 0x1_0000_0000
    ensures var e := SaExt(h, spi, alg);
            && ExtLen(h, e) == |e| && Whole(h, e)
            && Show(h, e) == ShownSa(GetWord(h, NetworkOrder(spi)), 0, SADB_SASTATE_MATURE, alg, SADB_EALG_NONE)
  {
    var e := SaExt(h, spi, alg);
    var rest := NetworkOrder(spi) + [0, SADB_SASTATE_MATURE, alg, SADB_EALG_NONE] + Zeros(4);
    assert e == Half(h, 2) + Half(h, SADB_EXT_SA) + rest;
    Fields(h, 2, SADB_EXT_SA, rest);
    assert e[4..][..4] == NetworkOrder(spi)[..4];
    hide GetHalf, ExtLen, ExtType, BigEndian, NetworkOrder, Half;
  }

  /** An address extension, field by field. */
  lemma AddressParts(h: Host, exttype: nat, sa: seq<Byte>)
    requires IsAddress(exttype) && Known(h, sa) && SaLen(h, sa) <= BUFSIZE
    ensures var n := SaLen(h, sa);
            Units(8 + n) < 0x1_0000 && |Address(h, sa)| == n && 8 + n <= 8 * Units(8 + n) &&
            AddressExt(h, exttype, sa) ==
            Half(h, Units(8 + n)) + Half(h, exttype) +
            ([0, PrefixAll(h, sa), 0, 0] + Address(h, sa) + Zeros(8 * Units(8 + n) - (8 + n)))
  {
    var n := SaLen(h, sa);
    hide Half, Zeros, PrefixAll, SaLen, Address;
    Append5(Half(h, Units(8 + n)), Half(h, exttype), [0, PrefixAll(h, sa), 0, 0], Address(h, sa),
            Zeros(8 * Units(8 + n) - (8 + n)));
  }

  lemma Append5<T>(a: seq<T>, b: seq<T>, c: seq<T>, d: seq<T>, e: seq<T>)
    ensures a + b + c + d + e == a + b + (c + d + e)
  {
  }

  lemma AddressFields(head: seq<Byte>, p: Byte, addr: seq<Byte>, zeros: seq<Byte>)
    requires |head| == 4
    ensures var e := head + ([0, p, 0, 0] + addr + zeros);
            e[4] == 0 && e[5] == p && e[8..] == addr + zeros && e[8..8 + |addr|] == addr
  {
  }

  lemma AddressShown(h: Host, exttype: nat, sa: seq<Byte>)
    requires IsAddress(exttype) && Known(h, sa) && SaLen(h, sa) <= BUFSIZE
    ensures var e := AddressExt(h, exttype, sa);
            && ExtLen(h, e) == |e| && Whole(h, e)
            && Show(h, e) == ShownAddress(exttype, Address(h, sa), PrefixAll(h, sa), 0)
  {
    hide GetHalf, ExtLen, ExtType, Half, Zeros, PrefixAll, AddressExt, SaLen, Address, Units;
    var n := SaLen(h, sa);
    var addr, zeros := Address(h, sa), Zeros(8 * Units(8 + n) - (8 + n));
    AddressParts(h, exttype, sa);
    Fields(h, Units(8 + n), exttype, [0, PrefixAll(h, sa), 0, 0] + addr + zeros);
    AddressFields(Half(h, Units(8 + n)) + Half(h, exttype), PrefixAll(h, sa), addr, zeros);
    AddressAlone(h, sa, zeros);
  }

  lemma KeyShown(h: Host, key: seq<Byte>)
    requires 8 * |key| < 0x1_0000
    ensures var e := KeyExt(h, key);
            && ExtLen(h, e) == |e| && Whole(h, e)
            && Show(h, e) == ShownKey(SADB_EXT_KEY_AUTH, 8 * |key|, key)
  {
    hide GetHalf, ExtLen, ExtType, Half, Zeros, Units;
    var n := Units(8 + |key|);
    var head, zeros := Half(h, n) + Half(h, SADB_EXT_KEY_AUTH), Zeros(8 * n - (8 + |key|));
    var tail := [0, 0] + key + zeros;
    KeyParts(h, key);
    hide KeyExt;
    Fields(h, n, SADB_EXT_KEY_AUTH, Half(h, 8 * |key|) + tail);
    HalfAt(h, 8 * |key|, tail);
    KeyFields(head, Half(h, 8 * |key|), key, zeros);
    assert (8 * |key| + 7) / 8 == |key|;
  }

  /** A key extension, field by field. */
  lemma KeyParts(h: Host, key: seq<Byte>)
    requires 8 * |key| < 0x1_0000
    ensures var n := Units(8 + |key|);
            n < 0x1_0000 && 8 + |key| <= 8 * n &&
            KeyExt(h, key) ==
            Half(h, n) + Half(h, SADB_EXT_KEY_AUTH) +
            (Half(h, 8 * |key|) + ([0, 0] + key + Zeros(8 * n - (8 + |key|))))
  {
    var n := Units(8 + |key|);
    hide Half, Zeros;
    AllOfKey(Half(h, n), Half(h, SADB_EXT_KEY_AUTH), Half(h, 8 * |key|), key, Zeros(8 * n - (8 + |key|)));
  }

  lemma AllOfKey(a: seq<Byte>, b: seq<Byte>, c: seq<Byte>, key: seq<Byte>, zeros: seq<Byte>)
    ensures a + b + c + [0, 0] + key + zeros == a + b + (c + ([0, 0] + key + zeros))
  {
  }

  lemma KeyFields(head: seq<Byte>, bits: seq<Byte>, key: seq<Byte>, zeros: seq<Byte>)
    requires |head| == 4 && |bits| == 2
    ensures var e := head + (bits + ([0, 0] + key + zeros));
            e[4..] == bits + ([0, 0] + key + zeros) && e[8..8 + |key|] == key
  {
  }

  // ----- the layout of RFC 2367, byte by byte

  /** The two bytes at `i` are the number `v` in the byte order of the host. */
  predicate HalfIs(h: Host, s: seq<Byte>, i: nat, v: int)
  {
    && i + 2 <= |s|
    && (h.order == Big ==> s[i] as int == v / 256 && s[i + 1] as int == v % 256)
    && (h.order == Little ==> s[i] as int == v % 256 && s[i + 1] as int == v / 256)
  }

  lemma HalfIsHalf(h: Host, v: nat, rest: seq<Byte>)
    requires v < 0x1_0000
    ensures HalfIs(h, Half(h, v) + rest, 0, v) && (Half(h, v) + rest)[2..] == rest
  {
    HighByteFirst(v);
    hide StoredBytes;
  }

  /** Section 2.3.1 of RFC 2367. */
  lemma SaLayout(h: Host, spi: nat, alg: Byte)
    requires spi < 0x1_0000_0000
    ensures var e := SaExt(h, spi, alg);
            && |e| == 16 && HalfIs(h, e, 0, 2) && HalfIs(h, e, 2, 1) && e[4..8] == NetworkOrder(spi)
            && e[8..12] == [0, 1, alg, 0] && e[12..] == [0, 0, 0, 0]
  {
    var e, rest := SaExt(h, spi, alg), NetworkOrder(spi) + [0, SADB_SASTATE_MATURE, alg, SADB_EALG_NONE] + Zeros(4);
    assert e == Half(h, 2) + (Half(h, 1) + rest);
    HalfIsHalf(h, 2, Half(h, 1) + rest);
    HalfIsHalf(h, 1, rest);
    assert e[2] == e[2..][0] && e[3] == e[2..][1];
    assert e[4..8] == NetworkOrder(spi) && e[8..12] == [0, 1, alg, 0];
    hide Half, NetworkOrder, Zeros;
  }

  /** The family that a socket address begins with, and its length: the first byte, where there is one for it, and
      otherwise 16 for IPv4 and 28 for IPv6. */
  lemma SocketAddress(h: Host, sa: seq<Byte>)
    requires |sa| >= 2
    ensures h.saLen ==> Family(h, sa) == sa[1] && SaLen(h, sa) == sa[0]
    ensures !h.saLen ==> HalfIs(h, sa, 0, Family(h, sa))
    ensures !h.saLen && Family(h, sa) == 2 ==> SaLen(h, sa) == 16
    ensures !h.saLen && Family(h, sa) != 2 && Family(h, sa) == h.inet6 ==> SaLen(h, sa) == 28
    ensures !h.saLen && Family(h, sa) != 2 && Family(h, sa) != h.inet6 ==> SaLen(h, sa) == 0
  {
  }

  /** Section 2.3.3 of RFC 2367: the whole address is to be matched, 32 bits of IPv4 and 128 of IPv6. */
  lemma AddressLayout(h: Host, exttype: nat, sa: seq<Byte>)
    requires IsAddress(exttype) && Known(h, sa) && SaLen(h, sa) <= BUFSIZE
    ensures var e, n := AddressExt(h, exttype, sa), SaLen(h, sa);
            && 8 + n <= |e| < 16 + n && |e| % 8 == 0 && HalfIs(h, e, 0, |e| / 8) && HalfIs(h, e, 2, exttype)
            && e[4] == 0 && e[6] == e[7] == 0
            && (Family(h, sa) == 2 ==> e[5] == 32)
            && (Family(h, sa) != 2 && Family(h, sa) == h.inet6 ==> e[5] == 128)
            && (Family(h, sa) != 2 && Family(h, sa) != h.inet6 ==> e[5] == 0)
            && e[8..8 + n] == sa[..n] && forall k :: 8 + n <= k < |e| ==> e[k] == 0
  {
    hide Half, Zeros, PrefixAll, AddressExt, SaLen, Family, Units, HalfIs;
    var e, n := AddressExt(h, exttype, sa), SaLen(h, sa);
    AddressParts(h, exttype, sa);
    PrefixIs(h, sa);
    var zeros := Zeros(8 * Units(8 + n) - (8 + n));
    var rest := [0, PrefixAll(h, sa), 0, 0] + Address(h, sa) + zeros;
    LayoutOf(h, Units(8 + n), exttype, rest);
    AddressBytes(e, Half(h, Units(8 + n)) + Half(h, exttype), PrefixAll(h, sa), Address(h, sa), zeros);
    ZerosAre(8 * Units(8 + n) - (8 + n));
  }

  lemma PrefixIs(h: Host, sa: seq<Byte>)
    requires |sa| >= 2
    ensures PrefixAll(h, sa) == if Family(h, sa) == 2 then 32 else if Family(h, sa) == h.inet6 then 128 else 0
  {
  }

  lemma ZerosAre(n: nat)
    ensures |Zeros(n)| == n && forall k :: 0 <= k < n ==> Zeros(n)[k] == 0
  {
  }

  lemma LayoutOf(h: Host, units: nat, exttype: nat, rest: seq<Byte>)
    requires units < 0x1_0000 && exttype < 0x1_0000
    ensures var e := Half(h, units) + Half(h, exttype) + rest;
            HalfIs(h, e, 0, units) && HalfIs(h, e, 2, exttype) && e[4..] == rest
  {
    var e := Half(h, units) + Half(h, exttype) + rest;
    assert e == Half(h, units) + (Half(h, exttype) + rest);
    HalfIsHalf(h, units, Half(h, exttype) + rest);
    HalfIsHalf(h, exttype, rest);
    assert e[2] == e[2..][0] && e[3] == e[2..][1];
    hide Half;
  }

  lemma AddressBytes(e: seq<Byte>, head: seq<Byte>, p: Byte, addr: seq<Byte>, zeros: seq<Byte>)
    requires |head| == 4 && e == head + ([0, p, 0, 0] + addr + zeros)
    ensures e[4] == 0 && e[5] == p && e[6] == e[7] == 0 && e[8..8 + |addr|] == addr
    ensures forall k :: 8 + |addr| <= k < |e| ==> e[k] == zeros[k - (8 + |addr|)]
  {
  }

  /** Section 2.3.4 of RFC 2367. */
  lemma KeyLayout(h: Host, key: seq<Byte>)
    requires 8 * |key| < 0x1_0000
    ensures var e := KeyExt(h, key);
            && 8 + |key| <= |e| < 16 + |key| && |e| % 8 == 0 && HalfIs(h, e, 0, |e| / 8) && HalfIs(h, e, 2, 8)
            && HalfIs(h, e, 4, 8 * |key|) && e[6] == e[7] == 0
            && e[8..8 + |key|] == key && forall k :: 8 + |key| <= k < |e| ==> e[k] == 0
  {
    hide Half, Zeros, Units, HalfIs;
    var e, n := KeyExt(h, key), Units(8 + |key|);
    var zeros := Zeros(8 * n - (8 + |key|));
    var tail := [0, 0] + key + zeros;
    KeyParts(h, key);
    hide KeyExt;
    LayoutOf(h, n, SADB_EXT_KEY_AUTH, Half(h, 8 * |key|) + tail);
    HalfIsHalf(h, 8 * |key|, tail);
    KeyBytesAre(h, e, Half(h, n) + Half(h, SADB_EXT_KEY_AUTH), Half(h, 8 * |key|), key, zeros);
    ZerosAre(8 * n - (8 + |key|));
  }

  lemma KeyBytesAre(h: Host, e: seq<Byte>, head: seq<Byte>, bits: seq<Byte>, key: seq<Byte>, zeros: seq<Byte>)
    requires |head| == 4 && |bits| == 2 && e == head + (bits + ([0, 0] + key + zeros))
    requires HalfIs(h, bits + ([0, 0] + key + zeros), 0, 8 * |key|)
    ensures HalfIs(h, e, 4, 8 * |key|) && e[6] == e[7] == 0 && e[8..8 + |key|] == key
    ensures forall k :: 8 + |key| <= k < |e| ==> e[k] == zeros[k - (8 + |key|)]
  {
  }

  /** Section 2.3 of RFC 2367: version 2, SADB_ADD, the length in units of eight bytes, sequence number 0, and the
      process. */
  lemma HeaderLayout(h: Host, units: nat, satype: Byte, pid: nat)
    requires units < 0x1_0000 && pid < 0x1_0000_0000
    ensures var m := Header(h, units, satype, pid);
            && |m| == 16 && m[..4] == [2, 3, 0, satype] && HalfIs(h, m, 4, units)
            && (forall k :: 6 <= k < 12 ==> m[k] == 0)
            && (h.order == Big ==> m[12..] == NetworkOrder(pid))
            && (h.order == Little ==>
                  m[12] == NetworkOrder(pid)[3] && m[13] == NetworkOrder(pid)[2] &&
                  m[14] == NetworkOrder(pid)[1] && m[15] == NetworkOrder(pid)[0])
  {
    var m, rest := Header(h, units, satype, pid), Zeros(6) + Word(h, pid);
    assert m == [PF_KEY_V2, SADB_ADD, 0, satype] + (Half(h, units) + rest);
    HalfIsHalf(h, units, rest);
    assert m[4] == (Half(h, units) + rest)[0] && m[5] == (Half(h, units) + rest)[1];
    assert m[12..] == Word(h, pid);
    hide Half, NetworkOrder, Zeros;
  }

  /** Which extensions the message has, and in which order. */
  lemma ExtensionsInOrder(h: Host, src: seq<Byte>, dst: seq<Byte>, alg: Byte, spi: nat, key: seq<Byte>)
    requires Fits(h, src, dst, key) && spi < 0x1_0000_0000
    ensures Extensions(h, src, dst, alg, spi, key) ==
            SaExt(h, spi, alg) + (AddressExt(h, 5, src) + (AddressExt(h, 6, dst) + KeyExt(h, key)))
  {
    hide SaExt, AddressExt, KeyExt, SaLen, Units;
  }

  /** What is printed of an extension in memory, by the numbers of RFC 2367. */
  lemma ShownFields(h: Host, s: seq<Byte>, exttype: nat)
    requires Whole(h, s) && HalfIs(h, s, 2, exttype) && exttype < 0x1_0000
    ensures exttype == 1 ==> |s| >= 16 && Show(h, s) == ShownSa(GetWord(h, s[4..8]), s[8], s[9], s[10], s[11])
    ensures exttype in {5, 6, 7} ==>
              |s| >= 10 && 8 + SaLen(h, s[8..]) <= |s| &&
              Show(h, s) == ShownAddress(exttype, s[8..8 + SaLen(h, s[8..])], s[5], s[4])
    ensures forall bits: nat ::
              exttype in {8, 9} && HalfIs(h, s, 4, bits) && bits < 0x1_0000 ==>
                8 + (bits + 7) / 8 <= |s| && Show(h, s) == ShownKey(exttype, bits, s[8..8 + (bits + 7) / 8])
    ensures exttype !in {1, 5, 6, 7, 8, 9} ==> Show(h, s) == ShownOther(exttype)
  {
    HalfRead(h, s, 2, exttype);
    if exttype == 1 {
      assert s[4..8][..4] == s[4..][..4];
    }
    forall bits: nat | HalfIs(h, s, 4, bits) && bits < 0x1_0000 ensures GetHalf(h, s[4..]) == bits {
      HalfRead(h, s, 4, bits);
    }
    hide GetHalf, HalfIs, GetWord, SaLen;
  }

  lemma HalfRead(h: Host, s: seq<Byte>, i: nat, v: nat)
    requires HalfIs(h, s, i, v) && v < 0x1_0000
    ensures GetHalf(h, s[i..]) == v
  {
    assert v == v / 256 * 256 + v % 256;
  }

  /** What is printed of the request. */
  function Printout(h: Host, src: seq<Byte>, dst: seq<Byte>, alg: Byte, spi: nat, key: seq<Byte>): seq<Shown>
    requires HoldsAddress(h, src) && HoldsAddress(h, dst) && spi < 0x1_0000_0000
  {
    [ShownSa(GetWord(h, NetworkOrder(spi)), 0, SADB_SASTATE_MATURE, alg, SADB_EALG_NONE),
     ShownAddress(SADB_EXT_ADDRESS_SRC, Address(h, src), PrefixAll(h, src), 0),
     ShownAddress(SADB_EXT_ADDRESS_DST, Address(h, dst), PrefixAll(h, dst), 0),
     ShownKey(SADB_EXT_KEY_AUTH, 8 * |key|, key)]
  }

  /** The extensions of the request, walked: the security association, the source, the destination and the key, in this
      order and nothing else, with the addresses and the key as they were given. */
  lemma WalkOfMessage(h: Host, src: seq<Byte>, dst: seq<Byte>, alg: Byte, spi: nat, key: seq<Byte>)
    requires Fits(h, src, dst, key) && Known(h, src) && Known(h, dst) && spi < 0x1_0000_0000
    ensures var s := Extensions(h, src, dst, alg, spi, key);
            Tiled(h, s) && Walk(h, s) == Printout(h, src, dst, alg, spi, key)
  {
    FitsMeans(h, src, dst, key);
    SaShown(h, spi, alg);
    AddressShown(h, SADB_EXT_ADDRESS_SRC, src);
    AddressShown(h, SADB_EXT_ADDRESS_DST, dst);
    KeyShown(h, key);
    assert Extensions(h, src, dst, alg, spi, key) ==
      SaExt(h, spi, alg) + (AddressExt(h, SADB_EXT_ADDRESS_SRC, src) +
                            (AddressExt(h, SADB_EXT_ADDRESS_DST, dst) + KeyExt(h, key)));
    hide *;
    WalkOfFour(h, SaExt(h, spi, alg), AddressExt(h, SADB_EXT_ADDRESS_SRC, src),
               AddressExt(h, SADB_EXT_ADDRESS_DST, dst), KeyExt(h, key));
    PrintoutIs(h, src, dst, alg, spi, key);
  }

  lemma PrintoutIs(h: Host, src: seq<Byte>, dst: seq<Byte>, alg: Byte, spi: nat, key: seq<Byte>)
    requires HoldsAddress(h, src) && HoldsAddress(h, dst) && spi < 0x1_0000_0000
    ensures Printout(h, src, dst, alg, spi, key) ==
            [ShownSa(GetWord(h, NetworkOrder(spi)), 0, SADB_SASTATE_MATURE, alg, SADB_EALG_NONE),
             ShownAddress(SADB_EXT_ADDRESS_SRC, Address(h, src), PrefixAll(h, src), 0),
             ShownAddress(SADB_EXT_ADDRESS_DST, Address(h, dst), PrefixAll(h, dst), 0),
             ShownKey(SADB_EXT_KEY_AUTH, 8 * |key|, key)]
  {
  }

  lemma FitsMeans(h: Host, src: seq<Byte>, dst: seq<Byte>, key: seq<Byte>)
    requires Fits(h, src, dst, key)
    ensures SaLen(h, src) <= 4096 && SaLen(h, dst) <= 4096 && 8 * |key| < 0x1_0000
    ensures HEADER <= Length(h, src, dst, key) <= 4096
    ensures HoldsAddress(h, src) && HoldsAddress(h, dst)
  {
    hide SaLen, Units;
  }

  /** Every extension is of whole units of eight bytes, and their lengths add up to that of the message. */
  lemma MessageLength(h: Host, src: seq<Byte>, dst: seq<Byte>, alg: Byte, spi: nat, key: seq<Byte>)
    requires Fits(h, src, dst, key) && spi < 0x1_0000_0000
    ensures SaLen(h, src) <= BUFSIZE && SaLen(h, dst) <= BUFSIZE && 8 * |key| < 0x1_0000
    ensures |SaExt(h, spi, alg)| == 8 * 2
    ensures |AddressExt(h, SADB_EXT_ADDRESS_SRC, src)| == 8 * Units(8 + SaLen(h, src))
    ensures |AddressExt(h, SADB_EXT_ADDRESS_DST, dst)| == 8 * Units(8 + SaLen(h, dst))
    ensures |KeyExt(h, key)| == 8 * Units(8 + |key|)
    ensures HEADER + |Extensions(h, src, dst, alg, spi, key)| == Length(h, src, dst, key)
    ensures Length(h, src, dst, key) % 8 == 0
  {
    hide Units, SaExt, AddressExt, KeyExt, SaLen, HoldsAddress;
    FitsMeans(h, src, dst, key);
  }

  lemma WalkOfFour(h: Host, a: seq<Byte>, b: seq<Byte>, c: seq<Byte>, d: seq<Byte>)
    requires Whole(h, a) && ExtLen(h, a) == |a| && Whole(h, b) && ExtLen(h, b) == |b|
    requires Whole(h, c) && ExtLen(h, c) == |c| && Whole(h, d) && ExtLen(h, d) == |d|
    ensures var s := a + (b + (c + d));
            Tiled(h, s) && Walk(h, s) == [Show(h, a), Show(h, b), Show(h, c), Show(h, d)]
  {
    hide *;
    LastOne(h, d);
    WalkOne(h, c, d);
    WalkOne(h, b, c + d);
    WalkOne(h, a, b + (c + d));
  }

  lemma LastOne(h: Host, e: seq<Byte>)
    requires Whole(h, e) && ExtLen(h, e) == |e|
    ensures Tiled(h, e) && Walk(h, e) == [Show(h, e)]
  {
    assert e[..|e|] == e && e[|e|..] == [];
    hide Whole, Show, GetHalf;
  }

  lemma NetworkOrderIs(n: nat)
    requires n < 0x1_0000_0000
    ensures BigEndian(NetworkOrder(n)) == n
  {
    var s := NetworkOrder(n);
    FirstThree(s[0], s[1], s[2]);
    BigEndianSnoc([s[0], s[1], s[2]], s[3]);
    assert s == [s[0], s[1], s[2]] + [s[3]];
    assert s[0] == n / 0x100_0000 && s[1] == n / 0x1_0000 % 0x100 && s[2] == n / 0x100 % 0x100 && s[3] == n % 0x100;
    hide BigEndian, NetworkOrder;
    FourDigits(n);
  }

  lemma FourDigits(n: nat)
    ensures n == ((n / 0x100_0000 * 0x100 + n / 0x1_0000 % 0x100) * 0x100 + n / 0x100 % 0x100) * 0x100 + n % 0x100
  {
    assert n / 0x1_0000 == n / 0x100 / 0x100 && n / 0x100_0000 == n / 0x1_0000 / 0x100;
  }

  /** The SPI is stored in network order and printed in the order of the host: the number printed is the one given
      exactly on a big-endian host, or when its bytes read the same both ways. */
  lemma SpiPrinted(h: Host, spi: nat)
    requires spi < 0x1_0000_0000
    ensures GetWord(h, NetworkOrder(spi)) == spi <==> h.order == Big || Swapped(NetworkOrder(spi)) == NetworkOrder(spi)
  {
    var s := NetworkOrder(spi);
    NetworkOrderIs(spi);
    NetworkOrderOf(Swapped(s));
    assert s[..4] == s;
    hide NetworkOrder, BigEndian;
  }

  /** Main always gives 0x9876, which a little-endian host prints as another number. */
  lemma SpiOfMain(h: Host)
    requires h.order == Little
    ensures GetWord(h, NetworkOrder(0x9876)) == 0x7698_0000 != 0x9876
  {
    assert NetworkOrder(0x9876) == [0, 0, 0x98, 0x76];
    FirstThree(0x76, 0x98, 0);
    BigEndianSnoc([0x76, 0x98, 0], 0);
    assert [0x76, 0x98, 0] + [0] == [0x76, 0x98, 0, 0];
    assert Swapped(NetworkOrder(0x9876)[..4]) == [0x76, 0x98, 0, 0];
    hide BigEndian, NetworkOrder;
  }

  // ----- building the message

  /** The buffer begins with `done` and is zero after it. */
  ghost predicate Built(b: seq<Byte>, done: seq<Byte>)
  {
    |done| <= |b| == BUFSIZE && b[..|done|] == done && forall k :: |done| <= k < |b| ==> b[k] == 0
  }

  method Append(buf: array<Byte>, p: nat, bytes: seq<Byte>, ghost done: seq<Byte>) returns (next: nat)
    requires Built(buf[..], done) && p == |done| && p + |bytes| <= BUFSIZE
    modifies buf
    ensures Built(buf[..], done + bytes) && next == p + |bytes|
  {
    forall k | 0 <= k < |bytes| {
      buf[p + k] := bytes[k];
    }
    next := p + |bytes|;
    assert buf[..next] == done + bytes;
  }

  lemma Skip(b: seq<Byte>, done: seq<Byte>, n: nat)
    requires Built(b, done) && |done| + n <= BUFSIZE
    ensures Built(b, done + Zeros(n))
  {
    assert b[..|done| + n] == done + Zeros(n);
  }

  /** Four fields written one after another. */
  method AppendFields(buf: array<Byte>, p: nat, a: seq<Byte>, b: seq<Byte>, c: seq<Byte>, d: seq<Byte>,
                      ghost done: seq<Byte>)
    returns (next: nat)
    requires Built(buf[..], done) && p == |done| && p + |a| + |b| + |c| + |d| <= BUFSIZE
    modifies buf
    ensures Built(buf[..], done + (a + b + c + d)) && next == p + |a| + |b| + |c| + |d|
  {
    hide Built;
    next := Append(buf, p, a, done);
    next := Append(buf, next, b, done + a);
    Append3(done, a, b);
    next := Append(buf, next, c, done + (a + b));
    Append3(done, a + b, c);
    next := Append(buf, next, d, done + (a + b + c));
    Append3(done, a + b + c, d);
  }

  method AddSa(buf: array<Byte>, p: nat, h: Host, spi: nat, alg: Byte, ghost done: seq<Byte>) returns (units: nat)
    requires Built(buf[..], done) && p == |done| && p + 16 <= BUFSIZE && spi < 0x1_0000_0000
    modifies buf
    ensures Built(buf[..], done + SaExt(h, spi, alg)) && units == 2
  {
    assert |NetworkOrder(spi)| == 4;
    hide Built, Half, NetworkOrder;
    units := 16 / 8;
    ghost var fields := Half(h, 2) + Half(h, SADB_EXT_SA) + NetworkOrder(spi) +
                        [0, SADB_SASTATE_MATURE, alg, SADB_EALG_NONE];
    var next := AppendFields(buf, p, Half(h, units), Half(h, SADB_EXT_SA), NetworkOrder(spi),
                             [0, SADB_SASTATE_MATURE, alg, SADB_EALG_NONE], done);
    next := Append(buf, next, Zeros(4), done + fields);
    Append3(done, fields, Zeros(4));
  }

  method AddAddress(buf: array<Byte>, p: nat, h: Host, exttype: nat, sa: seq<Byte>, ghost done: seq<Byte>)
    returns (units: nat)
    requires HoldsAddress(h, sa) && SaLen(h, sa) <= BUFSIZE && exttype < 0x1_0000
    requires Built(buf[..], done) && p == |done| && p + 8 * Units(8 + SaLen(h, sa)) <= BUFSIZE
    modifies buf
    ensures Built(buf[..], done + AddressExt(h, exttype, sa)) && units == Units(8 + SaLen(h, sa))
  {
    hide Built, Half, PrefixAll, SaLen;
    units := (8 + SaLen(h, sa) + 7) / 8;
    var addr := sa[..SaLen(h, sa)];
    ghost var fields := Half(h, units) + Half(h, exttype) + [0, PrefixAll(h, sa), 0, 0] + addr;
    var next := AppendFields(buf, p, Half(h, units), Half(h, exttype), [0, PrefixAll(h, sa), 0, 0], addr, done);
    Skip(buf[..], done + fields, 8 * units - |fields|);
    Append3(done, fields, Zeros(8 * units - |fields|));
  }

  method AddKey(buf: array<Byte>, p: nat, h: Host, key: seq<Byte>, ghost done: seq<Byte>) returns (units: nat)
    requires 8 * |key| < 0x1_0000
    requires Built(buf[..], done) && p == |done| && p + 8 * Units(8 + |key|) <= BUFSIZE
    modifies buf
    ensures Built(buf[..], done + KeyExt(h, key)) && units == Units(8 + |key|)
  {
    hide Built, Half;
    units := (8 + |key| + 7) / 8;
    assert units == Units(8 + |key|) && 8 + |key| <= 8 * units;
    ghost var fields := Half(h, units) + Half(h, SADB_EXT_KEY_AUTH) + Half(h, 8 * |key|) + [0, 0];
    assert |fields| == 8 && p + 8 + |key| <= p + 8 * units <= BUFSIZE;
    var next := AppendFields(buf, p, Half(h, units), Half(h, SADB_EXT_KEY_AUTH), Half(h, 8 * |key|), [0, 0], done);
    next := Append(buf, next, key, done + fields);
    Append3(done, fields, key);
    Skip(buf[..], done + (fields + key), 8 * units - |fields + key|);
    Append3(done, fields + key, Zeros(8 * units - |fields + key|));
  }

  /** sadb_add up to the call of write: `len` bytes of the buffer are the message. The header gets its length last. */
  method SadbAdd(h: Host, src: seq<Byte>, dst: seq<Byte>, satype: int, alg: int, spi: int, pid: nat, keybits: nat,
                 keydata: seq<Byte>)
    returns (buf: array<Byte>, len: nat)
    requires pid < 0x1_0000_0000 && keybits % 8 == 0 && keybits / 8 <= |keydata|
    requires Fits(h, src, dst, keydata[..keybits / 8])
    ensures fresh(buf) && buf.Length == BUFSIZE && len == Length(h, src, dst, keydata[..keybits / 8])
    ensures buf[..len] == Header(h, len / 8, satype % 0x100, pid) +
                          Extensions(h, src, dst, alg % 0x100, spi % 0x1_0000_0000, keydata[..keybits / 8])
  {
    buf := new Byte[BUFSIZE](_ => 0);
    var key := keydata[..keybits / 8];
    var alg', spi' := alg % 0x100, spi % 0x1_0000_0000;
    FitsMeans(h, src, dst, key);
    MessageLength(h, src, dst, alg', spi', key);
    ghost var head := [PF_KEY_V2, SADB_ADD, 0, satype % 0x100] + Zeros(8) + Word(h, pid);
    len := StartHeader(buf, h, satype % 0x100, pid);
    ghost var sa, s, d, k := SaExt(h, spi', alg'), AddressExt(h, SADB_EXT_ADDRESS_SRC, src),
                             AddressExt(h, SADB_EXT_ADDRESS_DST, dst), KeyExt(h, key);
    assert Extensions(h, src, dst, alg', spi', key) == sa + (s + (d + k));
    hide Built, SaExt, AddressExt, KeyExt, Extensions, Word, Units, SaLen, Fits, HoldsAddress;
    var units := AddSa(buf, len, h, spi', alg', head);
    len := len + units * 8;
    units := AddAddress(buf, len, h, SADB_EXT_ADDRESS_SRC, src, head + sa);
    len := len + units * 8;
    units := AddAddress(buf, len, h, SADB_EXT_ADDRESS_DST, dst, head + sa + s);
    len := len + units * 8;
    units := AddKey(buf, len, h, key, head + sa + s + d);
    len := len + units * 8;
    AssocFive(head, sa, s, d, k);
    FinishHeader(buf, h, len, satype % 0x100, pid, sa + (s + (d + k)));
  }

  lemma AssocFive(a: seq<Byte>, b: seq<Byte>, c: seq<Byte>, d: seq<Byte>, e: seq<Byte>)
    ensures a + b + c + d + e == a + (b + (c + (d + e)))
  {
  }

  method StartHeader(buf: array<Byte>, h: Host, satype: Byte, pid: nat) returns (len: nat)
    requires buf.Length == BUFSIZE && pid < 0x1_0000_0000 && forall k :: 0 <= k < BUFSIZE ==> buf[k] == 0
    modifies buf
    ensures Built(buf[..], [PF_KEY_V2, SADB_ADD, 0, satype] + Zeros(8) + Word(h, pid)) && len == HEADER
  {
    len := Append(buf, 0, [PF_KEY_V2, SADB_ADD, 0, satype], []);
    Skip(buf[..], [PF_KEY_V2, SADB_ADD, 0, satype], 8);
    len := Append(buf, 12, Word(h, pid), [PF_KEY_V2, SADB_ADD, 0, satype] + Zeros(8));
  }

  method FinishHeader(buf: array<Byte>, h: Host, len: nat, satype: Byte, pid: nat, ghost rest: seq<Byte>)
    requires pid < 0x1_0000_0000 && len == HEADER + |rest| <= BUFSIZE
    requires Built(buf[..], [PF_KEY_V2, SADB_ADD, 0, satype] + Zeros(8) + Word(h, pid) + rest)
    modifies buf
    ensures buf[..len] == Header(h, len / 8, satype, pid) + rest
  {
    var half := Half(h, len / 8);
    ghost var was := buf[..];
    buf[4], buf[5] := half[0], half[1];
    hide Word, Half;
    assert buf[..len] == was[..4] + half + was[6..len];
    assert was[..len] == [PF_KEY_V2, SADB_ADD, 0, satype] + Zeros(8) + Word(h, pid) + rest;
  }

  // ----- printing a message

  datatype Printed = WrongLength | WrongVersion | Message(walk: Walked)

  /** key_print's loop over the bits of a key. */
  method KeyBytes(e: seq<Byte>, bits: nat) returns (key: seq<Byte>)
    requires 8 + (bits + 7) / 8 <= |e|
    ensures key == e[8..8 + (bits + 7) / 8]
  {
    key := [];
    var p, left := 8, bits as int;
    while left > 0
      invariant left > -8 && 8 <= p && bits - left == 8 * (p - 8) && p <= 8 + (bits + 7) / 8
      invariant key == e[8..p]
    {
      key := key + [e[p]];
      p := p + 1;
      left := left - 8;
    }
  }

  method PrintExt(h: Host, e: seq<Byte>) returns (shown: Shown)
    requires |e| >= 8
    ensures shown == Show(h, e)
  {
    var t := ExtType(h, e);
    if IsKey(t) && Whole(h, e) {
      var bits := GetHalf(h, e[4..]);
      var key := KeyBytes(e, bits);
      shown := ShownKey(t, bits, key);
    } else {
      shown := Show(h, e);
    }
  }

  /** print_sadb_msg: checks the header and walks the extensions, whatever they are. `mem` is the memory from the
      message on. Where the source's loop would go on for ever, this one stops and says so. */
  method PrintSadbMsg(h: Host, mem: seq<Byte>, msglen: nat) returns (printed: Printed)
    requires HEADER <= |mem| && msglen <= |mem|
    ensures var n := GetHalf(h, mem[4..]);
            if msglen != 8 * n then printed == WrongLength
            else if mem[0] != PF_KEY_V2 then printed == WrongVersion
            else InMemory(mem, n) && printed == Message(WalkFrom(h, mem, 2, n))
  {
    var n := GetHalf(h, mem[4..]);
    if msglen != 8 * n {
      return WrongLength;
    }
    if mem[0] != PF_KEY_V2 {
      return WrongVersion;
    }
    var walk := WalkExtensions(h, mem, n);
    printed := Message(walk);
  }

  /** What has been shown, and what comes of the rest, make up the whole walk. */
  ghost predicate Going(h: Host, mem: seq<Byte>, n: nat, u: nat, shown: seq<Shown>)
  {
    InMemory(mem, n) && WalkFrom(h, mem, 2, n) == Glue(shown, WalkFrom(h, mem, u, n))
  }

  method WalkExtensions(h: Host, mem: seq<Byte>, n: nat) returns (walk: Walked)
    requires InMemory(mem, n)
    ensures walk == WalkFrom(h, mem, 2, n)
  {
    assert HEADER == 16 && 8 * n <= |mem|;
    hide *;
    var shown := [];
    var left, p: nat := 8 * n - HEADER, HEADER;
    ghost var u: nat := 2;
    GoingBegins(h, mem, n);
    while left > 0
      invariant p == 8 * u && left == 8 * (n - u)
      invariant Going(h, mem, n, u, shown)
      decreases left
    {
      var units;
      shown, units := PrintAt(h, mem, p, n, u, shown);
      if units == 0 {
        return Loops(shown);
      }
      left := left - 8 * units;
      p, u := p + 8 * units, u + units;
    }
    GoingEnds(h, mem, n, u, shown);
    walk := Ends(shown, left);
  }

  /** Prints the extension at `p`, and reads its length. */
  method PrintAt(h: Host, mem: seq<Byte>, p: nat, n: nat, ghost u: nat, before: seq<Shown>)
    returns (shown: seq<Shown>, units: nat)
    requires p == 8 * u && u < n && 8 * n <= |mem| && Going(h, mem, n, u, before)
    ensures units == 0 ==> WalkFrom(h, mem, 2, n) == Loops(shown)
    ensures units != 0 ==> Going(h, mem, n, u + units, shown)
  {
    hide *;
    GoingOn(h, mem, n, u, before);
    AtPointer(mem, p, u);
    var ext := PrintExt(h, mem[p..]);
    shown := before + [ext];
    units := GetHalf(h, mem[p..]);
  }

  lemma AtPointer(mem: seq<Byte>, p: nat, u: nat)
    requires p == 8 * u <= |mem|
    ensures At(mem, u) == mem[p..]
  {
  }

  lemma GoingBegins(h: Host, mem: seq<Byte>, n: nat)
    requires InMemory(mem, n)
    ensures Going(h, mem, n, 2, [])
  {
    var w := WalkFrom(h, mem, 2, n);
    assert Glue([], w) == w by {
      assert [] + w.exts == w.exts;
    }
    hide WalkFrom;
  }

  lemma GoingOn(h: Host, mem: seq<Byte>, n: nat, u: nat, shown: seq<Shown>)
    requires Going(h, mem, n, u, shown) && u < n && 8 * n <= |mem|
    ensures var ext, units := Show(h, At(mem, u)), GetHalf(h, At(mem, u));
            if units == 0 then InMemory(mem, n) && WalkFrom(h, mem, 2, n) == Loops(shown + [ext])
            else Going(h, mem, n, u + units, shown + [ext])
  {
    hide Show, GetHalf, At;
    var ext, units := Show(h, At(mem, u)), GetHalf(h, At(mem, u));
    if units != 0 {
      GlueTwice(shown, [ext], WalkFrom(h, mem, u + units, n));
    }
  }

  lemma GlueTwice(a: seq<Shown>, b: seq<Shown>, w: Walked)
    ensures Glue(a, Glue(b, w)) == Glue(a + b, w)
  {
    Append3(a, b, w.exts);
  }

  lemma GoingEnds(h: Host, mem: seq<Byte>, n: nat, u: nat, shown: seq<Shown>)
    requires Going(h, mem, n, u, shown) && u >= n
    ensures InMemory(mem, n) && WalkFrom(h, mem, 2, n) == Ends(shown, 8 * (n - u))
  {
    assert shown + [] == shown;
  }

  /** A message of one extension of length 0: the loop shows it for ever. */
  lemma StuckMessage(h: Host, satype: Byte, pid: nat)
    requires pid < 0x1_0000_0000
    ensures var mem := Header(h, 3, satype, pid) + Zeros(8);
            && |mem| == 24 && mem[0] == PF_KEY_V2 && GetHalf(h, mem[4..]) == 3
            && WalkFrom(h, mem, 2, 3) == Loops([ShownOther(0)]) && !LoopEnds(h, mem, 3)
  {
    var mem := Header(h, 3, satype, pid) + Zeros(8);
    HeaderRead(h, 3, satype, pid, Zeros(8));
    assert mem[16..] == Zeros(8);
    ZeroExt(h);
    assert Pos(h, mem, 3, 0) == 2 && ZeroAt(h, mem, 3, 0);
    LoopEndsExactly(h, mem, 3);
    hide Header, GetHalf, Show, Zeros, ZeroAt, Pos, LoopEnds;
  }

  lemma ZeroExt(h: Host)
    ensures GetHalf(h, Zeros(8)) == 0 && Show(h, Zeros(8)) == ShownOther(0)
  {
    assert Zeros(8)[2..][0] == 0 && Zeros(8)[2..][1] == 0;
    assert ExtType(h, Zeros(8)) == 0;
    hide BigEndian, Zeros;
  }

  lemma HeaderRead(h: Host, units: nat, satype: Byte, pid: nat, rest: seq<Byte>)
    requires units < 0x1_0000 && pid < 0x1_0000_0000
    ensures var m := Header(h, units, satype, pid) + rest;
            m[0] == PF_KEY_V2 && GetHalf(h, m[4..]) == units && m[HEADER..] == rest && m[HEADER..|m|] == rest
  {
    var m := Header(h, units, satype, pid) + rest;
    assert m[4..] == Half(h, units) + (Zeros(6) + Word(h, pid) + rest);
    HalfAt(h, units, Zeros(6) + Word(h, pid) + rest);
    hide Half, Word, GetHalf;
  }

  /** The message is one that print_sadb_msg accepts and walks to its end. */
  lemma MessageAccepted(h: Host, src: seq<Byte>, dst: seq<Byte>, satype: Byte, alg: Byte, spi: nat, pid: nat,
                        key: seq<Byte>)
    requires Fits(h, src, dst, key) && Known(h, src) && Known(h, dst)
    requires spi < 0x1_0000_0000 && pid < 0x1_0000_0000
    ensures var n := Length(h, src, dst, key) / 8;
            && n < 0x1_0000
            && var m := Header(h, n, satype, pid) + Extensions(h, src, dst, alg, spi, key);
            && |m| == 8 * n && InMemory(m, n) && m[0] == PF_KEY_V2 && n == GetHalf(h, m[4..])
            && WalkFrom(h, m, 2, n) == Ends(Printout(h, src, dst, alg, spi, key), 0)
  {
    var n, exts := Length(h, src, dst, key) / 8, Extensions(h, src, dst, alg, spi, key);
    FitsMeans(h, src, dst, key);
    WalkOfMessage(h, src, dst, alg, spi, key);
    MessageLength(h, src, dst, alg, spi, key);
    var m := Header(h, n, satype, pid) + exts;
    HeaderRead(h, n, satype, pid, exts);
    assert |m| == 8 * n && InMemory(m, n) && At(m, 2) == exts;
    hide *;
    TiledWalk(h, m, 2, n, exts);
  }

  /** The program prints the message that it builds: the addresses and the key bytes come out as they went in, and the
      walk ends with nothing left over. */
  method BuildAndPrint(h: Host, src: seq<Byte>, dst: seq<Byte>, satype: int, alg: int, spi: int, pid: nat,
                       keybits: nat, keydata: seq<Byte>)
    returns (printed: Printed)
    requires pid < 0x1_0000_0000 && keybits % 8 == 0 && keybits / 8 <= |keydata|
    requires Fits(h, src, dst, keydata[..keybits / 8]) && Known(h, src) && Known(h, dst)
    ensures printed ==
            Message(Ends(Printout(h, src, dst, alg % 0x100, spi % 0x1_0000_0000, keydata[..keybits / 8]), 0))
  {
    ghost var key := keydata[..keybits / 8];
    hide *;
    FitsMeans(h, src, dst, key);
    MessageAccepted(h, src, dst, satype % 0x100, alg % 0x100, spi % 0x1_0000_0000, pid, key);
    var buf, len := SadbAdd(h, src, dst, satype, alg, spi, pid, keybits, keydata);
    MessageLength(h, src, dst, alg % 0x100, spi % 0x1_0000_0000, key);
    printed := PrintSadbMsg(h, buf[..len], len);
  }
}
