/** The Internet checksum in_cksum against section 1 of RFC 1071, and the echo request that ping fills in. */
module Checksum {
  import opened ByteOrder
  import opened Text

  /** The last word of `data`, an odd byte counting as if a zero followed it. */
  function LastWord(data: seq<Byte>, order: Order): (w: nat)
    requires data != []
    ensures w <= 0xffff
  {
    var n := |data|;
    if n % 2 == 1 then WordAt(order, data[n - 1], 0) else WordAt(order, data[n - 2], data[n - 1])
  }

  function WithoutLastWord(data: seq<Byte>): (init: seq<Byte>)
    requires data != []
    ensures |init| < |data|
  {
    if |data| % 2 == 1 then data[..|data| - 1] else data[..|data| - 2]
  }

  /** The sum of the words of `data`. */
  function WordSum(data: seq<Byte>, order: Order): nat
    decreases |data|
  {
    if data == [] then 0 else WordSum(WithoutLastWord(data), order) + LastWord(data, order)
  }

  // ----- section 1 of RFC 1071

  /** Addition with the carry out of the top bit added back in. */
  function OnesAdd(x: nat, y: nat): (z: nat)
    requires x <= 0xffff && y <= 0xffff
    ensures z <= 0xffff
  {
    if x + y > 0xffff then x + y - 0x10000 + 1 else x + y
  }

  function OnesSum(data: seq<Byte>, order: Order): (s: nat)
    ensures s <= 0xffff
    decreases |data|
  {
    if data == [] then 0 else OnesAdd(OnesSum(WithoutLastWord(data), order), LastWord(data, order))
  }

  function Rfc1071(data: seq<Byte>, order: Order): (c: nat)
    ensures c <= 0xffff
  {
    0xffff - OnesSum(data, order)
  }

  // ----- what the accumulator's folds compute

  /** The number from 1 to 65535 congruent to `s` modulo 65535, or 0 for 0. */
  function Norm(s: nat): (r: nat)
    ensures r <= 0xffff
  {
    if s == 0 then 0 else (s - 1) % 0xffff + 1
  }

  lemma NormAdd(s: nat, w: nat)
    requires w <= 0xffff
    ensures Norm(s + w) == OnesAdd(Norm(s), w)
  {
    if s > 0 {
      var q, r := (s - 1) / 0xffff, (s - 1) % 0xffff;
      assert s == q * 0xffff + r + 1;
      if r + w < 0xffff {
        assert (s + w - 1) % 0xffff == r + w;
      } else {
        assert (s + w - 1) % 0xffff == r + w - 0xffff;
      }
    }
  }

  /** Adding carries at the end is adding them at every step. */
  lemma {:induction false} OnesSumIsNorm(data: seq<Byte>, order: Order)
    ensures OnesSum(data, order) == Norm(WordSum(data, order))
    decreases |data|
  {
    if data != [] {
      OnesSumIsNorm(WithoutLastWord(data), order);
      NormAdd(WordSum(WithoutLastWord(data), order), LastWord(data, order));
      hide Norm, OnesAdd, LastWord, WithoutLastWord;
    }
  }

  /** The last lines of in_cksum, from the accumulator to the answer. */
  function Answer(sum: nat): (a: nat)
    requires sum < 0x1_0000_0000
    ensures a <= 0xffff
  {
    var once := sum / 0x10000 + sum % 0x10000;
    var twice := once + once / 0x10000;
    0xffff - twice % 0x10000
  }

  /** Two folds are always enough. */
  lemma TwoFolds(sum: nat)
    requires sum < 0x1_0000_0000
    ensures Answer(sum) == 0xffff - Norm(sum)
  {
    var hi, lo := sum / 0x10000, sum % 0x10000;
    assert sum == hi * 0xffff + (hi + lo);
    if sum > 0 {
      if hi + lo <= 0xffff {
        assert (sum - 1) % 0xffff == hi + lo - 1;
      } else {
        assert (sum - 1) % 0xffff == hi + lo - 1 - 0xffff;
      }
    }
  }

  // ----- the checksum, spelt out

  /** Two more bytes are one more word, the first of them the high byte on a big-endian machine. */
  lemma OneMoreWord(data: seq<Byte>, a: Byte, b: Byte, order: Order)
    requires |data| % 2 == 0
    ensures WordSum([], order) == 0
    ensures WordSum(data + [a, b], order) ==
            WordSum(data, order) + if order == Big then a as int * 256 + b as int else b as int * 256 + a as int
  {
    var all := data + [a, b];
    assert WithoutLastWord(all) == data && all[|all| - 2] == a && all[|all| - 1] == b;
  }

  /** An odd byte counts as if a zero followed it. */
  lemma OddByte(data: seq<Byte>, order: Order)
    requires |data| % 2 == 1
    ensures WordSum(data, order) == WordSum(data + [0], order)
  {
    var all, n := data + [0], |data| - 1;
    assert WithoutLastWord(all) == data[..n] == WithoutLastWord(data);
    assert all[|all| - 2] == data[n] && all[|all| - 1] == 0;
  }

  /** The checksum in terms of the sum of the words. */
  lemma ClosedForm(data: seq<Byte>, order: Order)
    ensures var s := WordSum(data, order);
            Rfc1071(data, order) == 65535 - if s == 0 then 0 else (s - 1) % 65535 + 1
  {
    OnesSumIsNorm(data, order);
    hide WordSum, OnesSum;
  }

  /** The example of section 3 of RFC 1071. */
  lemma RfcExample()
    ensures Rfc1071([0x00, 0x01, 0xf2, 0x03, 0xf4, 0xf5, 0xf6, 0xf7], Big) == 0x220d
  {
    hide *;
    OneMoreWord([], 0x00, 0x01, Big);
    OneMoreWord([0x00, 0x01], 0xf2, 0x03, Big);
    OneMoreWord([0x00, 0x01, 0xf2, 0x03], 0xf4, 0xf5, Big);
    OneMoreWord([0x00, 0x01, 0xf2, 0x03, 0xf4, 0xf5], 0xf6, 0xf7, Big);
    var data := [0x00, 0x01, 0xf2, 0x03, 0xf4, 0xf5, 0xf6, 0xf7];
    assert [] + [0x00, 0x01] == [0x00, 0x01] && [0x00, 0x01] + [0xf2, 0x03] == [0x00, 0x01, 0xf2, 0x03];
    assert [0x00, 0x01, 0xf2, 0x03] + [0xf4, 0xf5] == [0x00, 0x01, 0xf2, 0x03, 0xf4, 0xf5];
    assert [0x00, 0x01, 0xf2, 0x03, 0xf4, 0xf5] + [0xf6, 0xf7] == data;
    assert WordSum(data, Big) == 0x2ddf0;
    ClosedForm(data, Big);
  }

  // ----- the accumulator does not overflow

  lemma {:induction false} WordSumBound(data: seq<Byte>, order: Order)
    ensures WordSum(data, order) <= 0xffff * ((|data| + 1) / 2)
    decreases |data|
  {
    if data != [] {
      WordSumBound(WithoutLastWord(data), order);
    }
  }

  function AllOnes(n: nat): (data: seq<Byte>)
    ensures |data| == n && forall k :: 0 <= k < n ==> data[k] == 0xff
  {
    seq(n, _ => 0xff)
  }

  lemma {:induction false} AllOnesSum(n: nat, order: Order)
    requires n % 2 == 0
    ensures WordSum(AllOnes(n), order) == 0xffff * (n / 2)
  {
    if n > 0 {
      AllOnesSum(n - 2, order);
      assert WithoutLastWord(AllOnes(n)) == AllOnes(n - 2);
      assert LastWord(AllOnes(n), order) == 0xffff;
    }
  }

  lemma {:induction false} WordSumGrows(data: seq<Byte>, order: Order, b: Byte)
    requires |data| % 2 == 0
    ensures WordSum(data + [b], order) == WordSum(data, order) + WordOf(order, b, 0)
  {
    assert WithoutLastWord(data + [b]) == data;
    assert LastWord(data + [b], order) == WordOf(order, b, 0);
    hide WordAt, LastWord, WithoutLastWord;
  }

  /** A sum above 2^32 - 1 is possible exactly for more than 131074 bytes: (2^16 + 1)(2^16 - 1) = 2^32 - 1. */
  lemma OverflowLimit(n: nat, order: Order)
    ensures (forall data: seq<Byte> :: |data| == n ==> WordSum(data, order) < 0x1_0000_0000) <==> n <= 131074
  {
    if n <= 131074 {
      forall data: seq<Byte> | |data| == n ensures WordSum(data, order) < 0x1_0000_0000 {
        WordSumBound(data, order);
      }
    } else if n % 2 == 0 {
      AllOnesSum(n, order);
      assert |AllOnes(n)| == n;
    } else {
      AllOnesSum(n - 1, order);
      WordSumGrows(AllOnes(n - 1), order, 0xff);
      assert |AllOnes(n - 1) + [0xff]| == n;
    }
  }

  lemma FitsAccumulator(data: seq<Byte>, order: Order)
    requires |data| <= 131074
    ensures WordSum(data, order) < 0x1_0000_0000
    ensures Answer(WordSum(data, order)) == Rfc1071(data, order)
  {
    WordSumBound(data, order);
    hide WordSum, Norm, OnesSum, Answer;
    assert WordSum(data, order) <= 0xffff * 0x10001;
    OnesSumIsNorm(data, order);
    TwoFolds(WordSum(data, order));
  }

  lemma AddWrapped(s: nat, w: nat)
    ensures (s % 0x1_0000_0000 + w) % 0x1_0000_0000 == (s + w) % 0x1_0000_0000
  {
  }

  lemma NormOfMultiple(x: nat, m: nat)
    requires x > 0
    ensures Norm(x + 0xffff * m) == Norm(x)
  {
    var q, r := (x - 1) / 0xffff, (x - 1) % 0xffff;
    assert x + 0xffff * m - 1 == (q + m) * 0xffff + r;
  }

  lemma NormDiffers(w: nat, k: nat)
    requires 0 < k < 0xffff
    ensures Norm(w + k) != Norm(w)
  {
  }

  /** For every length that fits the `int` parameter, the answer is the checksum of RFC 1071 exactly when the sum of
      the words fits 32 bits: a carry lost from the accumulator is never made good. */
  lemma CorrectExactly(data: seq<Byte>, order: Order)
    requires |data| < 0x8000_0000
    ensures Answer(WordSum(data, order) % 0x1_0000_0000) == Rfc1071(data, order) <==>
            WordSum(data, order) < 0x1_0000_0000
  {
    WordSumBound(data, order);
    OnesSumIsNorm(data, order);
    hide WordSum, Norm, OnesSum, Answer;
    var s := WordSum(data, order);
    var k, w := s / 0x1_0000_0000, s % 0x1_0000_0000;
    TwoFolds(w);
    if k > 0 {
      assert s == (w + k) + 0xffff * (k * 0x10001);
      NormOfMultiple(w + k, k * 0x10001);
      NormDiffers(w, k);
    }
  }

  /** in_cksum, on a machine of either byte order, with its 32-bit accumulator. */
  method InCksum(data: seq<Byte>, order: Order) returns (answer: nat)
    ensures answer == Answer(WordSum(data, order) % 0x1_0000_0000)
    ensures |data| <= 131074 ==> answer == Rfc1071(data, order)
  {
    hide *;
    var sum := SumWords(data, order);
    if |data| <= 131074 {
      FitsAccumulator(data, order);
    }
    AnswerOf(sum);
    sum := sum / 0x10000 + sum % 0x10000;
    sum := sum + sum / 0x10000;
    answer := 0xffff - sum % 0x10000;
  }

  /** The loop of in_cksum and the odd byte after it. */
  method SumWords(data: seq<Byte>, order: Order) returns (sum: nat)
    ensures sum == WordSum(data, order) % 0x1_0000_0000
  {
    hide *;
    var nleft := |data|;
    sum := 0;
    var w := 0;
    EmptySum(data, order);
    while nleft > 1
      invariant 0 <= nleft && w + nleft == |data| && w % 2 == 0
      invariant sum == WordSum(data[..w], order) % 0x1_0000_0000
    {
      WordSumPair(data, order, w);
      AddWrapped(WordSum(data[..w], order), WordOf(order, data[w], data[w + 1]));
      sum := (sum + WordOf(order, data[w], data[w + 1])) % 0x1_0000_0000;
      w := w + 2;
      nleft := nleft - 2;
    }
    if nleft == 1 {
      WordSumGrows(data[..w], order, data[w]);
      AddWrapped(WordSum(data[..w], order), WordOf(order, data[w], 0));
      assert data[..w] + [data[w]] == data;
      sum := (sum + WordOf(order, data[w], 0)) % 0x1_0000_0000;
    } else {
      assert data[..w] == data;
    }
  }

  lemma EmptySum(data: seq<Byte>, order: Order)
    ensures WordSum(data[..0], order) == 0
  {
  }

  lemma AnswerOf(sum: nat)
    requires sum < 0x1_0000_0000
    ensures var once := sum / 0x10000 + sum % 0x10000;
            Answer(sum) == 0xffff - (once + once / 0x10000) % 0x10000
  {
  }

  lemma WordSumPair(data: seq<Byte>, order: Order, w: nat)
    requires w + 2 <= |data| && w % 2 == 0
    ensures WordSum(data[..w + 2], order) == WordSum(data[..w], order) + WordOf(order, data[w], data[w + 1])
  {
    assert WithoutLastWord(data[..w + 2]) == data[..w];
    assert LastWord(data[..w + 2], order) == WordOf(order, data[w], data[w + 1]);
    hide WordAt, LastWord, WithoutLastWord;
  }

  // ----- verification of a stored checksum

  /** `data` with the word at offset `o` replaced. */
  function WithWord(data: seq<Byte>, o: nat, bytes: seq<Byte>): (r: seq<Byte>)
    requires o + 2 <= |data| && |bytes| == 2
    ensures |r| == |data|
  {
    data[..o] + bytes + data[o + 2..]
  }

  /** Replacing a zero word at an even offset adds its value to the sum. */
  lemma {:induction false} WordSumWithWord(data: seq<Byte>, order: Order, o: nat, bytes: seq<Byte>)
    requires o + 2 <= |data| && |bytes| == 2 && o % 2 == 0 && data[o] == data[o + 1] == 0
    ensures WordSum(WithWord(data, o, bytes), order) == WordSum(data, order) + WordOf(order, bytes[0], bytes[1])
    decreases |data|
  {
    var r := WithWord(data, o, bytes);
    if |data| == o + 2 {
      assert data[..o + 2] == data && r[..o + 2] == r && r[..o] == data[..o];
      hide WordSum;
      WordSumPair(data, order, o);
      WordSumPair(r, order, o);
      assert WordOf(order, 0, 0) == 0;
    } else {
      SameEnd(data, order, o, bytes);
      hide LastWord, WithoutLastWord, WordAt;
      assert WithoutLastWord(data)[o] == data[..o + 2][o] && WithoutLastWord(data)[o + 1] == data[..o + 2][o + 1];
      WordSumWithWord(WithoutLastWord(data), order, o, bytes);
    }
  }

  lemma SameEnd(data: seq<Byte>, order: Order, o: nat, bytes: seq<Byte>)
    requires o + 2 < |data| && |bytes| == 2 && o % 2 == 0
    ensures var r := WithWord(data, o, bytes);
            && |WithoutLastWord(data)| >= o + 2 && WithoutLastWord(data)[..o + 2] == data[..o + 2]
            && WithoutLastWord(r) == WithWord(WithoutLastWord(data), o, bytes)
            && LastWord(r, order) == LastWord(data, order)
  {
    hide WordAt;
    if |data| % 2 == 1 {
      CutLater(data, o, bytes, |data| - 1);
    } else {
      CutLater(data, o, bytes, |data| - 2);
    }
  }

  /** Cutting the data off after the replaced word. */
  lemma CutLater(data: seq<Byte>, o: nat, bytes: seq<Byte>, n: nat)
    requires o + 2 <= n <= |data| && |bytes| == 2
    ensures WithWord(data, o, bytes)[..n] == WithWord(data[..n], o, bytes) && data[..n][..o + 2] == data[..o + 2]
    ensures forall k :: n <= k < |data| ==> WithWord(data, o, bytes)[k] == data[k]
  {
  }

  lemma NormOfComplement(s: nat)
    ensures Norm(s + (0xffff - Norm(s))) == 0xffff
  {
    if s > 0 {
      var q := (s - 1) / 0xffff;
      assert s == q * 0xffff + Norm(s);
      assert s + (0xffff - Norm(s)) - 1 == q * 0xffff + 0xfffe;
    }
  }

  /** A packet whose checksum was stored in a zeroed word at an even offset sums to zero. */
  lemma StoredChecksumVerifies(data: seq<Byte>, order: Order, o: nat)
    requires |data| <= 131074 && o + 2 <= |data| && o % 2 == 0 && data[o] == data[o + 1] == 0
    ensures Rfc1071(WithWord(data, o, StoredBytes(order, Rfc1071(data, order))), order) == 0
  {
    var c := Rfc1071(data, order);
    WordSumWithWord(data, order, o, StoredBytes(order, c));
    OnesSumIsNorm(data, order);
    OnesSumIsNorm(WithWord(data, o, StoredBytes(order, c)), order);
    NormOfComplement(WordSum(data, order));
    hide WordSum, Norm, OnesSum, WithWord, StoredBytes;
  }

  // ----- section 2 of RFC 1071: byte-order independence

  function Swap(x: nat): (y: nat)
    requires x <= 0xffff
    ensures y <= 0xffff
  {
    x % 0x100 * 0x100 + x / 0x100
  }

  lemma SwapOnesAdd(x: nat, y: nat)
    requires x <= 0xffff && y <= 0xffff
    ensures Swap(OnesAdd(x, y)) == OnesAdd(Swap(x), Swap(y))
  {
    var a, b, c, d := x / 0x100, x % 0x100, y / 0x100, y % 0x100;
    assert x == a * 0x100 + b && y == c * 0x100 + d;
    var lo, hi := b + d, a + c;
    if x + y <= 0xffff {
      assert OnesAdd(x, y) == hi * 0x100 + lo;
      if lo < 0x100 {
        SwapIs(OnesAdd(x, y), hi, lo);
      } else {
        SwapIs(OnesAdd(x, y), hi + 1, lo - 0x100);
      }
    } else {
      assert OnesAdd(x, y) == hi * 0x100 + lo - 0xffff;
      if lo < 0xff {
        SwapIs(OnesAdd(x, y), hi - 0x100, lo + 1);
      } else if lo < 0x1ff && hi >= 0xff {
        SwapIs(OnesAdd(x, y), hi - 0xff, lo - 0xff);
      }
    }
  }

  lemma SwapIs(x: nat, hi: int, lo: int)
    requires x <= 0xffff && x == hi * 0x100 + lo && 0 <= lo < 0x100
    ensures Swap(x) == lo * 0x100 + hi
  {
  }

  lemma LastWordSwapped(data: seq<Byte>)
    requires data != []
    ensures LastWord(data, Big) == Swap(LastWord(data, Little))
  {
    var n := |data|;
    if n % 2 == 1 {
      SwapIs(LastWord(data, Little), 0, data[n - 1]);
    } else {
      SwapIs(LastWord(data, Little), data[n - 1], data[n - 2]);
    }
  }

  lemma {:induction false} OnesSumSwapped(data: seq<Byte>)
    ensures OnesSum(data, Big) == Swap(OnesSum(data, Little))
    decreases |data|
  {
    if data != [] {
      OnesSumSwapped(WithoutLastWord(data));
      SwapOnesAdd(OnesSum(WithoutLastWord(data), Little), LastWord(data, Little));
      LastWordSwapped(data);
      hide LastWord, WithoutLastWord, Swap, OnesAdd;
    }
  }

  /** The checksum of a big-endian machine is the byte swap of a little-endian one's, odd lengths included, so both
      store the same two bytes. */
  lemma ByteOrderIndependent(data: seq<Byte>)
    ensures Rfc1071(data, Big) == Swap(Rfc1071(data, Little))
    ensures StoredBytes(Big, Rfc1071(data, Big)) == StoredBytes(Little, Rfc1071(data, Little))
  {
    OnesSumSwapped(data);
    var s := OnesSum(data, Little);
    hide OnesSum;
    assert 0xffff - s == (0xff - s / 0x100) * 0x100 + (0xff - s % 0x100);
    SwapIs(0xffff - s, 0xff - s / 0x100, 0xff - s % 0x100);
  }

  // ----- ping's echo request

  const ICMP_ECHO: Byte := 8

  /** send_v4: fills in the echo request of `8 + datalen` bytes, with the clock's value `tv` at the start of its
      data, and returns the new value of the counter `nsent`. */
  method SendV4(sendbuf: array<Byte>, order: Order, pid: nat, nsent: nat, datalen: nat, tv: seq<Byte>)
    returns (sent: nat)
    requires sendbuf.Length == 1500 && 8 + datalen <= 1500 && 8 + |tv| <= 1500
    modifies sendbuf
    ensures sent == nsent + 1
    ensures sendbuf[0] == ICMP_ECHO && sendbuf[1] == 0
    ensures sendbuf[4..6] == StoredBytes(order, pid % 0x10000)
    ensures sendbuf[6..8] == StoredBytes(order, nsent % 0x10000)
    ensures forall k :: 8 <= k < 8 + datalen ==> sendbuf[k] == if k < 8 + |tv| then tv[k - 8] else 0xa5
    ensures Rfc1071(sendbuf[..8 + datalen], order) == 0
  {
    hide *;
    FillEcho(sendbuf, order, pid, nsent, datalen, tv);
    sent := nsent + 1;
    var len := 8 + datalen;
    sendbuf[2], sendbuf[3] := 0, 0;
    ghost var zeroed := sendbuf[..len];
    var cksum := InCksum(sendbuf[..len], order);
    StoredChecksumVerifies(zeroed, order, 2);
    var stored := StoredBytes(order, cksum);
    sendbuf[2], sendbuf[3] := stored[0], stored[1];
    SetWord(zeroed, stored, sendbuf[..len]);
  }

  lemma SetWord(before: seq<Byte>, bytes: seq<Byte>, after: seq<Byte>)
    requires |bytes| == 2 && |after| == |before| >= 4
    requires after[2] == bytes[0] && after[3] == bytes[1]
    requires forall k :: 0 <= k < |before| && k != 2 && k != 3 ==> after[k] == before[k]
    ensures after == WithWord(before, 2, bytes)
  {
  }

  method FillEcho(sendbuf: array<Byte>, order: Order, pid: nat, nsent: nat, datalen: nat, tv: seq<Byte>)
    requires sendbuf.Length == 1500 && 8 + datalen <= 1500 && 8 + |tv| <= 1500
    modifies sendbuf
    ensures sendbuf[0] == ICMP_ECHO && sendbuf[1] == 0
    ensures sendbuf[4..6] == StoredBytes(order, pid % 0x10000)
    ensures sendbuf[6..8] == StoredBytes(order, nsent % 0x10000)
    ensures forall k :: 8 <= k < 8 + datalen ==> sendbuf[k] == if k < 8 + |tv| then tv[k - 8] else 0xa5
  {
    hide *;
    sendbuf[0], sendbuf[1] := ICMP_ECHO, 0;
    var id, seqno := StoredBytes(order, pid % 0x10000), StoredBytes(order, nsent % 0x10000);
    sendbuf[4], sendbuf[5] := id[0], id[1];
    sendbuf[6], sendbuf[7] := seqno[0], seqno[1];
    forall k | 8 <= k < 8 + datalen {
      sendbuf[k] := 0xa5;
    }
    forall k | 8 <= k < 8 + |tv| {
      sendbuf[k] := tv[k - 8];
    }
  }
}
