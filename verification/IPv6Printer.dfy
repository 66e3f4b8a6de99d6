/** The IPv6 text printer inet_ntop6: one scan for the longest run of zero groups, then the text. */
module IPv6Printer {
  import opened Text
  import opened IPv4Text

  type Word = x: int | 0 <= x <= 0xffff

  function Pair(hi: int, lo: int): int { hi * 0x100 + lo }

  /** The eight groups of a 16-byte address. */
  function Words(src: seq<Byte>): (w: seq<Word>)
    requires |src| == 16
    ensures |w| == 8 && forall k :: 0 <= k < 8 ==> w[k] == Pair(src[2 * k], src[2 * k + 1])
  {
    seq(8, k requires 0 <= k < 8 => Pair(src[2 * k], src[2 * k + 1]))
  }

  // ----- the run that "::" replaces

  datatype Run = NoRun | Run(base: nat, len: nat)

  ghost predicate ZeroRun(w: seq<Word>, b: nat, l: nat)
  {
    l >= 1 && b + l <= |w| && forall k :: b <= k < b + l ==> w[k] == 0
  }

  /** No zero run that ends by `limit` is longer than `run`, nor as long and further left. */
  ghost predicate Beats(w: seq<Word>, run: Run, limit: nat)
  {
    forall b: nat, l: nat ::
      ZeroRun(w, b, l) && b + l <= limit ==> run.Run? && (l < run.len || (l == run.len && run.base <= b))
  }

  /** The leftmost of the longest zero runs, provided it has at least two groups. */
  ghost predicate IsBest(w: seq<Word>, run: Run)
  {
    match run
    case Run(b, l) => l >= 2 && ZeroRun(w, b, l) && Beats(w, run, |w|)
    case NoRun => forall b: nat, l: nat :: ZeroRun(w, b, l) ==> l < 2
  }

  lemma BestIsUnique(w: seq<Word>, r: Run, s: Run)
    requires IsBest(w, r) && IsBest(w, s)
    ensures r == s
  {
    if r.Run? {
      assert ZeroRun(w, r.base, r.len);
    }
    if s.Run? {
      assert ZeroRun(w, s.base, s.len);
    }
  }

  /** Between two groups that are not zero every zero run lies within one of the stretches they separate. */
  lemma RunWithin(w: seq<Word>, from: nat, to: nat, b: nat, l: nat)
    requires to <= |w| && ZeroRun(w, b, l) && from < b + l <= to
    requires from == 0 || w[from - 1] != 0
    ensures from <= b
  {
    assert b < from ==> b <= from - 1 < b + l;
  }

  lemma NoRunEnds(w: seq<Word>, i: nat)
    requires i < |w| && w[i] != 0
    ensures forall b: nat, l: nat :: ZeroRun(w, b, l) ==> b + l != i + 1
  {
  }

  /** The scan: `cur` is the zero run that ends at the current group, `best` the best of those already ended. */
  method LongestRun(w: seq<Word>) returns (best: Run)
    ensures IsBest(w, best)
  {
    best := NoRun;
    var cur := NoRun;
    var i := 0;
    while i < |w|
      invariant i <= |w|
      invariant best.Run? ==> ZeroRun(w, best.base, best.len)
      invariant best.Run? ==> best.base + best.len <= if cur.Run? then cur.base else i
      invariant cur.Run? ==> ZeroRun(w, cur.base, cur.len) && cur.base + cur.len == i
      invariant cur.Run? ==> cur.base == 0 || w[cur.base - 1] != 0
      invariant cur == NoRun ==> i == 0 || w[i - 1] != 0
      invariant Beats(w, best, if cur.Run? then cur.base else i)
    {
      if w[i] == 0 {
        if cur == NoRun {
          cur := Run(i, 1);
        } else {
          cur := Run(cur.base, cur.len + 1);
        }
      } else {
        if cur.Run? {
          ghost var was := best;
          if best == NoRun || cur.len > best.len {
            best := cur;
          }
          Close(w, was, cur, best, i);
          cur := NoRun;
        }
        NoRunEnds(w, i);
      }
      i := i + 1;
    }
    if cur.Run? {
      ghost var was := best;
      if best == NoRun || cur.len > best.len {
        best := cur;
      }
      Close(w, was, cur, best, i);
    }
    if best.Run? && best.len < 2 {
      best := NoRun;
    }
  }

  lemma Close(w: seq<Word>, was: Run, cur: Run, best: Run, i: nat)
    requires cur.Run? && ZeroRun(w, cur.base, cur.len) && cur.base + cur.len == i <= |w|
    requires cur.base == 0 || w[cur.base - 1] != 0
    requires Beats(w, was, cur.base)
    requires was.Run? ==> ZeroRun(w, was.base, was.len) && was.base + was.len <= cur.base
    requires best == if was == NoRun || cur.len > was.len then cur else was
    ensures Beats(w, best, i)
  {
    forall b: nat, l: nat | ZeroRun(w, b, l) && b + l <= i
      ensures best.Run? && (l < best.len || (l == best.len && best.base <= b))
    {
      if b + l > cur.base {
        RunWithin(w, cur.base, i, b, l);
      }
    }
  }

  // ----- the text

  predicate InRun(run: Run, i: nat) { run.Run? && run.base <= i < run.base + run.len }

  /** What the formatting loop appends for group `i`. */
  function Piece(w: seq<Word>, run: Run, i: nat): string
    requires i < |w|
  {
    if InRun(run, i) then (if i == run.base then ":" else "")
    else (if i != 0 then ":" else "") + Numeral(w[i], 16)
  }

  function Pieces(w: seq<Word>, run: Run, n: nat): string
    requires n <= |w|
  {
    if n == 0 then "" else Pieces(w, run, n - 1) + Piece(w, run, n - 1)
  }

  /** The address is an IPv4-compatible or IPv4-mapped one. */
  predicate Embedded(w: seq<Word>, run: Run)
    requires |w| == 8
  {
    run.Run? && run.base == 0 && (run.len == 6 || (run.len == 5 && w[5] == 0xffff))
  }

  function Format(src: seq<Byte>, run: Run): string
    requires |src| == 16
  {
    var w := Words(src);
    if Embedded(w, run) then Pieces(w, run, 6) + ":" + QuadText(src[12..])
    else Pieces(w, run, 8) + (if run.Run? && run.base + run.len == 8 then ":" else "")
  }

  /** `text` is what the printer gives for `src`. */
  ghost predicate Prints(src: seq<Byte>, text: string)
    requires |src| == 16
  {
    exists run :: IsBest(Words(src), run) && text == Format(src, run)
  }

  /** An address has one text. */
  lemma PrintsOneText(src: seq<Byte>, s: string, t: string)
    requires |src| == 16 && Prints(src, s) && Prints(src, t)
    ensures s == t
  {
    var q :| IsBest(Words(src), q) && s == Format(src, q);
    var r :| IsBest(Words(src), r) && t == Format(src, r);
    BestIsUnique(Words(src), q, r);
  }

  // ----- how long the text can be

  lemma GroupLength(v: Word)
    ensures 1 <= |Numeral(v, 16)| <= 4
  {
    assert Power(16, 1) == 16 && Power(16, 2) == 256 && Power(16, 3) == 4096;
    NumeralLength(v, 16, 4);
  }

  /** How many of the first `n` groups lie in the run. */
  function Covered(run: Run, n: nat): nat
  {
    if run == NoRun || n <= run.base then 0 else if n <= run.base + run.len then n - run.base else run.len
  }

  lemma {:induction false} PiecesLength(w: seq<Word>, run: Run, n: nat)
    requires n <= |w|
    ensures |Pieces(w, run, n)| <= 5 * n - 4 * Covered(run, n) - (if n == 0 || InRun(run, 0) then 0 else 1)
  {
    if n > 0 {
      PiecesLength(w, run, n - 1);
      GroupLength(w[n - 1]);
    }
  }

  /** No text is longer than 39 characters, so the printer's own buffer of 46 is always large enough. */
  lemma FormatLength(src: seq<Byte>, run: Run)
    requires |src| == 16
    requires run.Run? ==> run.len >= 2 && run.base + run.len <= 8
    ensures |Format(src, run)| <= 39
  {
    var w := Words(src);
    PiecesLength(w, run, 6);
    PiecesLength(w, run, 8);
    PtonOfNtop4(src[12..]);
  }

  // ----- the printer

  /** Writes `text` and a null at `tmp[tp..]`. */
  method Append(tmp: array<char>, tp: nat, text: string) returns (end: nat)
    requires tp + |text| < tmp.Length
    modifies tmp
    ensures end == tp + |text| <= tmp.Length && tmp[..end] == old(tmp[..tp]) + text
  {
    end := tp + |text|;
    forall k | 0 <= k < |text| {
      tmp[tp + k] := text[k];
    }
    tmp[end] := '\0';
  }

  /** One pass of the formatting loop; `last` when it wrote the IPv4 address, which ends the loop. */
  method FormatGroup(w: seq<Word>, quad: string, best: Run, i: nat, tmp: array<char>, tp: nat)
    returns (end: nat, last: bool)
    requires |w| == 8 && i < 8 && tp + 6 <= tmp.Length
    requires Embedded(w, best) && i == 6 ==> tp + |quad| + 2 <= tmp.Length
    modifies tmp
    ensures last == (Embedded(w, best) && i == 6)
    ensures end <= tmp.Length && tmp[..end] == old(tmp[..tp]) + if last then ":" + quad else Piece(w, best, i)
  {
    GroupLength(w[i]);
    ghost var was := tmp[..tp];
    ghost var piece := Piece(w, best, i);
    assert piece == if InRun(best, i) then (if i == best.base then ":" else "")
                    else (if i != 0 then ":" else "") + Numeral(w[i], 16);
    hide Numeral, Piece;
    last := false;
    end := tp;
    if best.Run? && best.base <= i < best.base + best.len {
      if i == best.base {
        end := Append(tmp, tp, ":");
      }
      return;
    }
    if i != 0 {
      end := Append(tmp, end, ":");
    }
    ghost var colon := if i != 0 then ":" else "";
    assert tmp[..end] == was + colon;
    if i == 6 && best.Run? && best.base == 0 && (best.len == 6 || (best.len == 5 && w[5] == 0xffff)) {
      end := Append(tmp, end, quad);
      last := true;
    } else {
      end := Append(tmp, end, Numeral(w[i], 16));
    }
  }

  method FormatText(src: seq<Byte>, w: seq<Word>, best: Run, tmp: array<char>) returns (tp: nat)
    requires |src| == 16 && w == Words(src) && tmp.Length == 46
    requires best.Run? ==> best.len >= 2 && best.base + best.len <= 8
    modifies tmp
    ensures tp <= 39 && tmp[..tp] == Format(src, best)
  {
    var quad := QuadText(src[12..]);
    PtonOfNtop4(src[12..]);
    hide *;
    var embedded;
    tp, embedded := FormatGroups(w, quad, best, tmp);
    if embedded {
      FormatEmbedded(src, w, best);
      return;
    }
    FormatPlain(src, w, best);
    PiecesBound(w, best, 8);
    if best.Run? && best.base + best.len == 8 {
      tp := Append(tmp, tp, ":");
    }
  }

  method FormatGroups(w: seq<Word>, quad: string, best: Run, tmp: array<char>) returns (tp: nat, embedded: bool)
    requires |w| == 8 && |quad| <= 15 && tmp.Length == 46
    modifies tmp
    ensures embedded == Embedded(w, best) && tp <= 46
    ensures tmp[..tp] == if embedded then Pieces(w, best, 6) + (":" + quad) else Pieces(w, best, 8)
  {
    hide *;
    PiecesBound(w, best, 0);
    tp, embedded := 0, false;
    var i := 0;
    while i < 8
      invariant i <= 8 && (Embedded(w, best) ==> i <= 6)
      invariant tp <= 46 && tmp[..tp] == Pieces(w, best, i)
    {
      PiecesBound(w, best, i);
      tp, embedded := FormatGroup(w, quad, best, i, tmp, tp);
      if embedded {
        return;
      }
      i := i + 1;
    }
    embedded := false;
  }

  lemma FormatEmbedded(src: seq<Byte>, w: seq<Word>, run: Run)
    requires |src| == 16 && w == Words(src) && Embedded(w, run)
    ensures Format(src, run) == Pieces(w, run, 6) + (":" + QuadText(src[12..])) && |Format(src, run)| <= 39
  {
    FormatLength(src, run);
  }

  lemma FormatPlain(src: seq<Byte>, w: seq<Word>, run: Run)
    requires |src| == 16 && w == Words(src) && !Embedded(w, run)
    requires run.Run? ==> run.len >= 2 && run.base + run.len <= 8
    ensures Format(src, run) ==
            if run.Run? && run.base + run.len == 8 then Pieces(w, run, 8) + ":" else Pieces(w, run, 8)
    ensures |Format(src, run)| <= 39
  {
    FormatLength(src, run);
  }

  lemma NextPiece(w: seq<Word>, run: Run, i: nat)
    requires i < |w| && !InRun(run, i)
    ensures Pieces(w, run, i + 1) ==
            if i == 0 then Pieces(w, run, i) + Numeral(w[i], 16)
            else Pieces(w, run, i) + ":" + Numeral(w[i], 16)
  {
    assert Pieces(w, run, i + 1) == Pieces(w, run, i) + Piece(w, run, i);
    hide Pieces, Numeral;
  }

  lemma PiecesBound(w: seq<Word>, run: Run, i: nat)
    requires |w| == 8 && i <= 8
    ensures |Pieces(w, run, i)| <= 5 * i && (Embedded(w, run) && i == 6 ==> |Pieces(w, run, i)| <= 14)
    ensures i < 8 ==> Pieces(w, run, i + 1) == Pieces(w, run, i) + Piece(w, run, i)
    ensures Pieces(w, run, 0) == ""
  {
    PiecesLength(w, run, i);
  }

  /** Copies the bytes into groups, two to a group. */
  method GroupWords(src: seq<Byte>) returns (w: seq<Word>)
    requires |src| == 16
    ensures w == Words(src)
  {
    var words := new Word[8](_ => 0);
    var i := 0;
    while i < 16
      invariant i <= 16
      invariant forall k :: 0 <= k < 8 ==>
                              words[k] == (if 2 * k < i then src[2 * k] as int * 0x100 else 0)
                                          + (if 2 * k + 1 < i then src[2 * k + 1] as int else 0)
    {
      words[i / 2] := words[i / 2] as int + (if i % 2 == 0 then src[i] as int * 0x100 else src[i]);
      i := i + 1;
    }
    w := words[..];
    assert w == Words(src);
  }

  /** Stores the text and its null in `dst` and returns true, or returns false when `dst` is too short for both. */
  method InetNtop6(src: seq<Byte>, dst: array<char>) returns (ok: bool, ghost text: string)
    requires |src| == 16
    modifies dst
    ensures Prints(src, text) && |text| <= 39
    ensures ok == (|text| + 1 <= dst.Length)
    ensures ok ==> dst[..|text|] == text && dst[|text|] == '\0'
    ensures !ok ==> dst[..] == old(dst[..])
  {
    var w := GroupWords(src);
    var best := LongestRun(w);
    var tmp := new char[46](_ => '\0');
    FormatLength(src, best);
    var tp := FormatText(src, w, best, tmp);
    hide Format, Words, IsBest;
    text := tmp[..tp];
    ok := CopyOut(tmp, tp, dst);
  }

  /** The end of inet_ntop6: adds the null and copies the text out if both fit. */
  method CopyOut(tmp: array<char>, len: nat, dst: array<char>) returns (ok: bool)
    requires len < tmp.Length && tmp != dst
    modifies tmp, dst
    ensures ok == (len + 1 <= dst.Length)
    ensures ok ==> dst[..len] == old(tmp[..len]) && dst[len] == '\0'
    ensures !ok ==> dst[..] == old(dst[..])
  {
    tmp[len] := '\0';
    var tp := len + 1;
    if tp > dst.Length {
      return false;
    }
    forall k | 0 <= k < tp {
      dst[k] := tmp[k];
    }
    return true;
  }
}
