/** The result list of getaddrinfo: built node by node, then cloned into while it is walked, so that every address
    comes out once for every socket type. */
module AddrList {
  import opened Text
  import opened Unp

  type Bytes = seq<int>

  const AI_CLONE: int := 4
  const SOCK_STREAM: int := 1
  const SOCK_DGRAM: int := 2
  const EAI_NONAME: int := 8
  const EAI_SERVICE: int := 9

  /** A flag word with the AI_CLONE bit set. */
  predicate MustClone(flags: int) { flags / AI_CLONE % 2 == 1 }

  predicate HasPort(family: int) { family == AF_INET || family == AF_INET6 }

  // ----- what a list says

  datatype Entry = Entry(flags: int, family: int, socktype: int, protocol: int, host: Bytes, port: int)

  /** A socket type and the port of the service for it. */
  datatype Job = Job(socktype: int, port: int)

  function Stamped(e: Entry, job: Job): Entry
  {
    e.(socktype := job.socktype, port := if HasPort(e.family) then job.port else e.port)
  }

  function Cloned(e: Entry): Entry { e.(flags := 0) }

  /** What one entry becomes in a pass. */
  function Visit(e: Entry, job: Job): (r: seq<Entry>)
    ensures |r| >= 1
  {
    if MustClone(e.flags) then
      if e.socktype != 0 then [e, Stamped(Cloned(e), job)] else [Stamped(e, job)]
    else if e.socktype != job.socktype then [e]
    else [Stamped(e, job)]
  }

  function Touched(e: Entry, job: Job): nat
  {
    if HasPort(e.family) && (MustClone(e.flags) || e.socktype == job.socktype) then 1 else 0
  }

  function Pass(es: seq<Entry>, job: Job): seq<Entry>
  {
    if es == [] then [] else Pass(es[..|es| - 1], job) + Visit(es[|es| - 1], job)
  }

  /** How many entries a pass gives a port to. */
  function Found(es: seq<Entry>, job: Job): nat
  {
    if es == [] then 0 else Found(es[..|es| - 1], job) + Touched(es[|es| - 1], job)
  }

  function Passes(es: seq<Entry>, jobs: seq<Job>): seq<Entry>
  {
    if jobs == [] then es else Pass(Passes(es, jobs[..|jobs| - 1]), jobs[|jobs| - 1])
  }

  function FoundInAll(es: seq<Entry>, jobs: seq<Job>): nat
  {
    if jobs == [] then 0
    else FoundInAll(es, jobs[..|jobs| - 1]) + Found(Passes(es, jobs[..|jobs| - 1]), jobs[|jobs| - 1])
  }

  // ----- what the passes do

  lemma ConcatLast<T>(a: seq<T>, b: seq<T>)
    requires b != []
    ensures (a + b)[..|a + b| - 1] == a + b[..|b| - 1] && (a + b)[|a + b| - 1] == b[|b| - 1]
  {
  }

  lemma {:induction false} PassConcat(a: seq<Entry>, b: seq<Entry>, job: Job)
    ensures Pass(a + b, job) == Pass(a, job) + Pass(b, job)
    ensures Found(a + b, job) == Found(a, job) + Found(b, job)
  {
    if b == [] {
      assert a + b == a;
      assert Pass(a, job) + [] == Pass(a, job);
    } else {
      var ab, init := a + b, b[..|b| - 1];
      var e := b[|b| - 1];
      assert Pass(ab, job) == Pass(ab[..|ab| - 1], job) + Visit(ab[|ab| - 1], job);
      assert Found(ab, job) == Found(ab[..|ab| - 1], job) + Touched(ab[|ab| - 1], job);
      assert Pass(b, job) == Pass(init, job) + Visit(e, job) && Found(b, job) == Found(init, job) + Touched(e, job);
      hide *;
      PassConcat(a, init, job);
      ConcatLast(a, b);
      Append3(Pass(a, job), Pass(init, job), Visit(e, job));
    }
  }

  /** The entry of one address for every job, in the order the passes leave them: the first job, then the others
      from the last to the second. */
  function Group(e: Entry, jobs: seq<Job>): (g: seq<Entry>)
    ensures |g| == if jobs == [] then 1 else |jobs|
  {
    if jobs == [] then [e]
    else [Stamped(e, jobs[0])] + Clones(e, jobs[1..])
  }

  function Clones(e: Entry, jobs: seq<Job>): (g: seq<Entry>)
    ensures |g| == |jobs|
  {
    seq(|jobs|, k requires 0 <= k < |jobs| => Stamped(Cloned(e), jobs[|jobs| - 1 - k]))
  }

  function Groups(es: seq<Entry>, jobs: seq<Job>): seq<Entry>
  {
    if es == [] then [] else Groups(es[..|es| - 1], jobs) + Group(es[|es| - 1], jobs)
  }

  predicate DistinctJobs(jobs: seq<Job>)
  {
    && (forall k :: 0 <= k < |jobs| ==> jobs[k].socktype != 0)
    && (forall j, k :: 0 <= j < k < |jobs| ==> jobs[j].socktype != jobs[k].socktype)
  }

  /** An entry as ga_aistruct makes it when the caller asked for no particular socket type. */
  predicate Unassigned(e: Entry) { MustClone(e.flags) && e.socktype == 0 && HasPort(e.family) }

  /** Entries that are not clones and have other socket types are left alone. */
  lemma {:induction false} PassLeavesOthers(es: seq<Entry>, job: Job)
    requires forall k :: 0 <= k < |es| ==> !MustClone(es[k].flags) && es[k].socktype != job.socktype
    ensures Pass(es, job) == es && Found(es, job) == 0
  {
    if es != [] {
      PassLeavesOthers(es[..|es| - 1], job);
    }
  }

  lemma OnePass(e: Entry, job: Job)
    ensures Pass([e], job) == Visit(e, job) && Found([e], job) == Touched(e, job)
  {
    assert [e][..0] == [];
  }

  /** A pass for a new socket type adds one entry to the group of an address. */
  lemma PassExtendsGroup(e: Entry, jobs: seq<Job>, job: Job)
    requires Unassigned(e) && DistinctJobs(jobs + [job])
    ensures Pass(Group(e, jobs), job) == Group(e, jobs + [job])
    ensures Found(Group(e, jobs), job) == 1
  {
    var all := jobs + [job];
    assert all[|jobs|] == job && all[|jobs|].socktype != 0;
    if jobs == [] {
      OnePass(e, job);
      assert all == [job] && Clones(e, all[1..]) == [];
    } else {
      var head, rest := Stamped(e, jobs[0]), Clones(e, jobs[1..]);
      assert jobs[0] == all[0] && all[0].socktype != 0 && HasPort(e.family);
      assert Group(e, jobs) == [head] + rest;
      assert Visit(head, job) == [head, Stamped(Cloned(head), job)] && Touched(head, job) == 1;
      ClonesAreOthers(e, jobs, job);
      hide *;
      PassConcat([head], rest, job);
      OnePass(head, job);
      PassLeavesOthers(rest, job);
      CloneFirst(e, jobs, job);
    }
  }

  lemma ClonesAreOthers(e: Entry, jobs: seq<Job>, job: Job)
    requires jobs != [] && DistinctJobs(jobs + [job])
    ensures var rest := Clones(e, jobs[1..]);
            forall k :: 0 <= k < |rest| ==> !MustClone(rest[k].flags) && rest[k].socktype != job.socktype
  {
    var all, rest := jobs + [job], Clones(e, jobs[1..]);
    forall k | 0 <= k < |rest| ensures !MustClone(rest[k].flags) && rest[k].socktype != job.socktype {
      GroupAt(e, jobs, k + 1);
      assert all[|rest| - k] == jobs[|rest| - k] && all[|jobs|] == job && |rest| - k < |jobs|;
    }
  }

  lemma GroupAt(e: Entry, jobs: seq<Job>, k: nat)
    requires k < |jobs|
    ensures Group(e, jobs)[k] == if k == 0 then Stamped(e, jobs[0]) else Stamped(Cloned(e), jobs[|jobs| - k])
    ensures k > 0 ==> Clones(e, jobs[1..])[k - 1] == Group(e, jobs)[k]
  {
    if k > 0 {
      assert Clones(e, jobs[1..])[k - 1] == Stamped(Cloned(e), jobs[1..][|jobs| - 1 - k]);
    }
  }

  lemma CloneFirst(e: Entry, jobs: seq<Job>, job: Job)
    requires jobs != [] && HasPort(e.family)
    ensures var head := Stamped(e, jobs[0]);
            [head, Stamped(Cloned(head), job)] + Clones(e, jobs[1..]) == Group(e, jobs + [job])
  {
    var all := jobs + [job];
    assert all[1..] == jobs[1..] + [job];
    var c := Clones(e, all[1..]);
    assert c == [Stamped(Cloned(e), job)] + Clones(e, jobs[1..]);
  }

  lemma {:induction false} PassExtendsGroups(es: seq<Entry>, jobs: seq<Job>, job: Job)
    requires forall k :: 0 <= k < |es| ==> Unassigned(es[k])
    requires DistinctJobs(jobs + [job])
    ensures Pass(Groups(es, jobs), job) == Groups(es, jobs + [job])
    ensures Found(Groups(es, jobs), job) == |es|
  {
    if es != [] {
      var init, e := es[..|es| - 1], es[|es| - 1];
      PassExtendsGroups(init, jobs, job);
      PassExtendsGroup(e, jobs, job);
      PassConcat(Groups(init, jobs), Group(e, jobs), job);
      hide Pass, Found, Group;
    }
  }

  lemma {:induction false} GroupsOfNone(es: seq<Entry>)
    ensures Groups(es, []) == es
  {
    if es != [] {
      GroupsOfNone(es[..|es| - 1]);
    }
  }

  /** One pass for each of any number of distinct socket types: every address is paired with every type exactly once,
      grouped by address in the original order, and every pass counts every address. */
  lemma {:induction false} PassesMakeGroups(es: seq<Entry>, jobs: seq<Job>)
    requires forall k :: 0 <= k < |es| ==> Unassigned(es[k])
    requires DistinctJobs(jobs)
    ensures Passes(es, jobs) == Groups(es, jobs)
    ensures FoundInAll(es, jobs) == |jobs| * |es|
  {
    if jobs == [] {
      GroupsOfNone(es);
    } else {
      var k := |jobs| - 1;
      assert jobs == jobs[..k] + [jobs[k]];
      PassesMakeGroups(es, jobs[..k]);
      PassExtendsGroups(es, jobs[..k], jobs[k]);
      TimesOneMore(|es|, k);
      hide Pass, Found, Groups;
    }
  }

  /** In the group of an address there is exactly one entry for each job: with its socket type and its port, and with
      the address, family and protocol of the original. */
  lemma GroupHasEachOnce(e: Entry, jobs: seq<Job>, i: nat)
    requires Unassigned(e) && DistinctJobs(jobs) && i < |jobs|
    ensures var g := Group(e, jobs);
            var at := if i == 0 then 0 else |jobs| - i;
            && at < |g| && g[at].socktype == jobs[i].socktype && g[at].port == jobs[i].port
            && g[at].host == e.host && g[at].family == e.family && g[at].protocol == e.protocol
            && g[at].flags == (if i == 0 then e.flags else 0)
            && forall k :: 0 <= k < |g| && k != at ==> g[k].socktype != jobs[i].socktype
  {
    var g := Group(e, jobs);
    var at := if i == 0 then 0 else |jobs| - i;
    GroupAt(e, jobs, at);
    forall k | 0 <= k < |g| && k != at ensures g[k].socktype != jobs[i].socktype {
      GroupAt(e, jobs, k);
    }
  }

  /** With a stream and a datagram port the order is stream then datagram for every address, as the comment says. */
  lemma StreamThenDatagram(es: seq<Entry>, tcp: int, udp: int, k: nat)
    requires forall k :: 0 <= k < |es| ==> Unassigned(es[k])
    requires k < |es|
    ensures var r := Passes(es, [Job(SOCK_STREAM, tcp), Job(SOCK_DGRAM, udp)]);
            && |r| == 2 * |es|
            && r[2 * k] == Stamped(es[k], Job(SOCK_STREAM, tcp))
            && r[2 * k + 1] == Stamped(Cloned(es[k]), Job(SOCK_DGRAM, udp))
  {
    var jobs := [Job(SOCK_STREAM, tcp), Job(SOCK_DGRAM, udp)];
    PassesMakeGroups(es, jobs);
    PairOf(es, jobs, k);
  }

  lemma {:induction false} PairOf(es: seq<Entry>, jobs: seq<Job>, k: nat)
    requires |jobs| == 2 && k < |es|
    ensures var r := Groups(es, jobs);
            && |r| == 2 * |es| && r[2 * k] == Stamped(es[k], jobs[0])
            && r[2 * k + 1] == Stamped(Cloned(es[k]), jobs[1])
  {
    var n := |es| - 1;
    var init, g := es[..n], Group(es[n], jobs);
    GroupAt(es[n], jobs, 0);
    GroupAt(es[n], jobs, 1);
    assert |g| == 2 && Groups(es, jobs) == Groups(init, jobs) + g;
    assert n == 0 ==> Groups(init, jobs) == [];
    hide *;
    if k < n {
      PairOf(init, jobs, k);
      assert init[k] == es[k];
    } else if n > 0 {
      PairOf(init, jobs, 0);
    }
    PairAtEnd(Groups(init, jobs), g, n, k);
  }

  lemma PairAtEnd<T>(a: seq<T>, g: seq<T>, n: nat, k: nat)
    requires |a| == 2 * n && |g| == 2 && k <= n
    ensures k == n ==> (a + g)[2 * k] == g[0] && (a + g)[2 * k + 1] == g[1]
    ensures k < n ==> (a + g)[2 * k] == a[2 * k] && (a + g)[2 * k + 1] == a[2 * k + 1]
  {
  }

  // ----- services

  datatype Service = Number(port: int) | Name(tcp: Option<int>, udp: Option<int>)

  /** The digits that a text begins with. */
  function Leading(serv: string): (digits: string)
    ensures digits <= serv && AllDec(digits)
    ensures |digits| < |serv| ==> !IsDecDigit(serv[|digits|])
  {
    if serv == "" || !IsDecDigit(serv[0]) then "" else [serv[0]] + Leading(serv[1..])
  }

  /** How ga_serv takes the service string: a port number if it begins with a digit, and otherwise a name, whose entries
      for TCP and UDP are `tcp` and `udp`. */
  function ServiceOf(serv: string, tcp: Option<int>, udp: Option<int>): Service
  {
    if serv != "" && IsDecDigit(serv[0]) then Number(Value(Leading(serv), 10) % 0x1_0000) else Name(tcp, udp)
  }

  /** atoi, cut to the 16 bits of a port. */
  method ReadPort(serv: string) returns (port: nat)
    ensures port == Value(Leading(serv), 10) % 0x1_0000
  {
    var n, i: nat := 0, 0;
    assert serv[..0] == "" && Value("", 10) == 0;
    while i < |serv| && IsDecDigit(serv[i])
      invariant i <= |Leading(serv)| && serv[..i] == Leading(serv)[..i] && n == Value(serv[..i], 10)
    {
      NextDigit(serv, i);
      n, i := n * 10 + HexDigitValue(serv[i]), i + 1;
    }
    LeadingEnds(serv, i);
    assert Leading(serv)[..i] == Leading(serv);
    port := n % 0x1_0000;
  }

  lemma LeadingEnds(serv: string, i: nat)
    requires i <= |Leading(serv)| && (i < |serv| ==> !IsDecDigit(serv[i]))
    ensures i == |Leading(serv)|
  {
    var d := Leading(serv);
    assert forall k :: 0 <= k < |d| ==> d[k] in d && d[k] == serv[k];
  }

  lemma NextDigit(serv: string, i: nat)
    requires i < |serv| && IsDecDigit(serv[i]) && i <= |Leading(serv)|
    ensures i < |Leading(serv)| && Value(serv[..i + 1], 10) == Value(serv[..i], 10) * 10 + HexDigitValue(serv[i])
    ensures serv[..i + 1] == Leading(serv)[..i + 1]
  {
    hide *;
    LeadingIsPrefix(serv);
    SamePrefix(Leading(serv), serv, i + 1);
    TakeNext(serv, i);
    ValueSnoc(serv[..i], serv[i], 10);
  }

  lemma LeadingIsPrefix(serv: string)
    ensures Leading(serv) <= serv
    ensures |Leading(serv)| < |serv| ==> !IsDecDigit(serv[|Leading(serv)|])
  {
    hide IsDecDigit;
  }

  lemma SamePrefix<T>(p: seq<T>, s: seq<T>, i: nat)
    requires p <= s && i <= |p|
    ensures s[..i] == p[..i]
  {
  }

  /** The passes that a service takes, when the caller asked for socket type `hint`. */
  function Jobs(hint: int, service: Service): seq<Job>
  {
    match service
    case Number(port) => if hint != 0 then [Job(hint, port)] else [Job(SOCK_STREAM, port), Job(SOCK_DGRAM, port)]
    case Name(tcp, udp) =>
      var stream, dgram := TakesTcp(hint, service), TakesUdp(hint, service);
      if stream && dgram then [Job(SOCK_STREAM, tcp.value), Job(SOCK_DGRAM, udp.value)]
      else if stream then [Job(SOCK_STREAM, tcp.value)]
      else if dgram then [Job(SOCK_DGRAM, udp.value)]
      else []
  }

  predicate TakesTcp(hint: int, service: Service)
  {
    service.Name? && (hint == 0 || hint == SOCK_STREAM) && service.tcp.Some?
  }

  predicate TakesUdp(hint: int, service: Service)
  {
    service.Name? && (hint == 0 || hint == SOCK_DGRAM) && service.udp.Some?
  }

  datatype Address = Address(family: int, host: Bytes)

  /** What ga_aistruct makes of an address. */
  function Unserved(a: Address, hint: int, protocol: int): Entry
  {
    Entry(if hint == 0 then AI_CLONE else 0, a.family, hint, protocol, a.host, 0)
  }

  function AllUnserved(addrs: seq<Address>, hint: int, protocol: int): (es: seq<Entry>)
    ensures |es| == |addrs|
  {
    Mapped(a => Unserved(a, hint, protocol), addrs)
  }

  /** With a particular socket type asked for there is at most one pass, and it changes nothing but the ports. */
  lemma {:induction false} PassStampsAll(es: seq<Entry>, job: Job)
    requires forall k :: 0 <= k < |es| ==> !MustClone(es[k].flags) && es[k].socktype == job.socktype
    requires forall k :: 0 <= k < |es| ==> HasPort(es[k].family)
    ensures |Pass(es, job)| == |es| && Found(es, job) == |es|
    ensures forall k :: 0 <= k < |es| ==> Pass(es, job)[k] == es[k].(port := job.port)
  {
    if es != [] {
      PassStampsAll(es[..|es| - 1], job);
    }
  }

  /** What the passes for a service come to, for addresses fresh from ga_aistruct. No service for the socket type
      asked for means nothing found; anything found means everything found. */
  lemma ServiceFound(addrs: seq<Address>, hint: int, protocol: int, service: Service)
    requires forall k :: 0 <= k < |addrs| ==> HasPort(addrs[k].family)
    ensures var es, jobs := AllUnserved(addrs, hint, protocol), Jobs(hint, service);
            && FoundInAll(es, jobs) == |jobs| * |addrs|
            && (hint == 0 ==> DistinctJobs(jobs) && Passes(es, jobs) == Groups(es, jobs))
            && (hint != 0 ==> |jobs| <= 1 && |Passes(es, jobs)| == |es|)
            && (hint != 0 && jobs != [] ==>
                  jobs[0].socktype == hint &&
                  forall k :: 0 <= k < |es| ==> Passes(es, jobs)[k] == es[k].(port := jobs[0].port))
  {
    var es, jobs := AllUnserved(addrs, hint, protocol), Jobs(hint, service);
    assert forall k :: 0 <= k < |es| ==> es[k] == Unserved(addrs[k], hint, protocol);
    if hint == 0 {
      PassesMakeGroups(es, jobs);
    } else if jobs != [] {
      OnlyPass(es, jobs[0]);
      PassStampsAll(es, jobs[0]);
    }
  }

  lemma OnlyPass(es: seq<Entry>, job: Job)
    ensures Passes(es, [job]) == Pass(es, job) && FoundInAll(es, [job]) == Found(es, job)
  {
    assert [job][..0] == [];
  }

  // ----- what the caller gets, entry by entry

  /** One entry for each address. */
  predicate OneEach(r: seq<Entry>, addrs: seq<Address>, flags: int, socktype: int, protocol: int, port: int)
  {
    && |r| == |addrs|
    && forall k :: 0 <= k < |addrs| ==> r[k] == Entry(flags, addrs[k].family, socktype, protocol, addrs[k].host, port)
  }

  /** For each address a stream entry (type 1, and the flag of the original), and then a datagram entry (type 2). */
  predicate TwoEach(r: seq<Entry>, addrs: seq<Address>, protocol: int, stream: int, dgram: int)
  {
    && |r| == 2 * |addrs|
    && forall k :: 0 <= k < |addrs| ==>
         && r[2 * k] == Entry(4, addrs[k].family, 1, protocol, addrs[k].host, stream)
         && r[2 * k + 1] == Entry(0, addrs[k].family, 2, protocol, addrs[k].host, dgram)
  }

  /** Whether the service string stands for a port that the socket type asked for can have. */
  predicate Offered(hint: int, serv: string, tcp: Option<int>, udp: Option<int>)
  {
    || (serv != "" && '0' <= serv[0] <= '9')
    || (tcp.Some? && (hint == 0 || hint == 1))
    || (udp.Some? && (hint == 0 || hint == 2))
  }

  /** The list for a service: a number is the port of every entry; a name gives its TCP port to stream entries and its
      UDP port to datagram entries; and without a type asked for there is an entry of each type that has a port. */
  predicate ListFor(r: seq<Entry>, addrs: seq<Address>, hint: int, protocol: int, serv: string, tcp: Option<int>,
                    udp: Option<int>)
  {
    if serv != "" && '0' <= serv[0] <= '9' then
      var port := Value(Leading(serv), 10) % 0x1_0000;
      if hint == 0 then TwoEach(r, addrs, protocol, port, port) else OneEach(r, addrs, 0, hint, protocol, port)
    else if hint != 0 then
      && (hint == 1 ==> tcp.Some? && OneEach(r, addrs, 0, 1, protocol, tcp.value))
      && (hint == 2 ==> udp.Some? && OneEach(r, addrs, 0, 2, protocol, udp.value))
      && (hint == 1 || hint == 2)
    else if tcp.Some? && udp.Some? then TwoEach(r, addrs, protocol, tcp.value, udp.value)
    else if tcp.Some? then OneEach(r, addrs, 4, 1, protocol, tcp.value)
    else udp.Some? && OneEach(r, addrs, 4, 2, protocol, udp.value)
  }

  lemma {:induction false} SingleGroups(es: seq<Entry>, job: Job)
    ensures |Groups(es, [job])| == |es| && forall k :: 0 <= k < |es| ==> Groups(es, [job])[k] == Stamped(es[k], job)
  {
    if es != [] {
      var n := |es| - 1;
      SingleGroups(es[..n], job);
      assert Group(es[n], [job]) == [Stamped(es[n], job)];
      hide Stamped, Group;
    }
  }

  lemma OneJobEach(addrs: seq<Address>, hint: int, protocol: int, job: Job)
    requires forall k :: 0 <= k < |addrs| ==> HasPort(addrs[k].family)
    requires job.socktype != 0 && (hint == 0 || hint == job.socktype)
    ensures var r := Passes(AllUnserved(addrs, hint, protocol), [job]);
            OneEach(r, addrs, if hint == 0 then 4 else 0, job.socktype, protocol, job.port)
  {
    var es := AllUnserved(addrs, hint, protocol);
    assert forall k :: 0 <= k < |es| ==> es[k] == Unserved(addrs[k], hint, protocol);
    hide AllUnserved, Groups, Pass, Passes, Found, FoundInAll, Mapped;
    if hint == 0 {
      PassesMakeGroups(es, [job]);
      SingleGroups(es, job);
    } else {
      OnlyPass(es, job);
      PassStampsAll(es, job);
    }
  }

  lemma TwoJobsEach(addrs: seq<Address>, protocol: int, stream: int, dgram: int)
    requires forall k :: 0 <= k < |addrs| ==> HasPort(addrs[k].family)
    ensures var r := Passes(AllUnserved(addrs, 0, protocol), [Job(SOCK_STREAM, stream), Job(SOCK_DGRAM, dgram)]);
            TwoEach(r, addrs, protocol, stream, dgram)
  {
    var es := AllUnserved(addrs, 0, protocol);
    var jobs := [Job(SOCK_STREAM, stream), Job(SOCK_DGRAM, dgram)];
    assert forall k :: 0 <= k < |es| ==> es[k] == Unserved(addrs[k], 0, protocol);
    hide AllUnserved, Groups, Pass, Passes, Found, FoundInAll, Mapped;
    PassesMakeGroups(es, jobs);
    if addrs == [] {
      NoGroups(jobs);
    } else {
      PairOf(es, jobs, 0);
    }
    var r := Groups(es, jobs);
    forall k | 0 <= k < |addrs|
      ensures r[2 * k] == Entry(4, addrs[k].family, 1, protocol, addrs[k].host, stream)
      ensures r[2 * k + 1] == Entry(0, addrs[k].family, 2, protocol, addrs[k].host, dgram)
    {
      PairOf(es, jobs, k);
      BothStamped(addrs[k], protocol, stream, dgram);
      assert es[k] == Unserved(addrs[k], 0, protocol);
      hide Stamped, Cloned, Unserved, HasPort;
    }
    hide Stamped, Cloned, Unserved, HasPort;
  }

  lemma BothStamped(a: Address, protocol: int, stream: int, dgram: int)
    requires HasPort(a.family)
    ensures var e := Unserved(a, 0, protocol);
            && Stamped(e, Job(SOCK_STREAM, stream)) == Entry(4, a.family, 1, protocol, a.host, stream)
            && Stamped(Cloned(e), Job(SOCK_DGRAM, dgram)) == Entry(0, a.family, 2, protocol, a.host, dgram)
  {
  }

  lemma NoGroups(jobs: seq<Job>)
    ensures Groups([], jobs) == []
  {
  }

  lemma NotServed(addrs: seq<Address>, hint: int, protocol: int)
    ensures OneEach(AllUnserved(addrs, hint, protocol), addrs, if hint == 0 then 4 else 0, hint, protocol, 0)
  {
  }

  /** Whatever the passes are called by, this is the list they leave, and they are made only if a port is offered. */
  lemma ServedList(addrs: seq<Address>, hint: int, protocol: int, serv: string, tcp: Option<int>, udp: Option<int>)
    requires forall k :: 0 <= k < |addrs| ==> HasPort(addrs[k].family)
    ensures var jobs := Jobs(hint, ServiceOf(serv, tcp, udp));
            && (jobs != [] <==> Offered(hint, serv, tcp, udp))
            && (jobs != [] ==>
                  ListFor(Passes(AllUnserved(addrs, hint, protocol), jobs), addrs, hint, protocol, serv, tcp, udp))
  {
    hide Passes, AllUnserved, OneEach, TwoEach, Leading, Value, HasPort;
    match ServiceOf(serv, tcp, udp) {
      case Number(port) =>
        if hint == 0 {
          TwoJobsEach(addrs, protocol, port, port);
        } else {
          OneJobEach(addrs, hint, protocol, Job(hint, port));
        }
      case Name(_, _) =>
        if hint == 0 && tcp.Some? && udp.Some? {
          TwoJobsEach(addrs, protocol, tcp.value, udp.value);
        } else if (hint == 0 || hint == SOCK_STREAM) && tcp.Some? {
          OneJobEach(addrs, hint, protocol, Job(SOCK_STREAM, tcp.value));
        } else if (hint == 0 || hint == SOCK_DGRAM) && udp.Some? {
          OneJobEach(addrs, hint, protocol, Job(SOCK_DGRAM, udp.value));
        }
    }
  }

  // ----- the list in memory

  class SockAddr {
    const family: int
    const host: Bytes
    var port: int

    constructor (family: int, host: Bytes, port: int)
      ensures this.family == family && this.host == host && this.port == port
    {
      this.family, this.host, this.port := family, host, port;
    }
  }

  class AddrInfo {
    const family: int
    const protocol: int
    const addr: SockAddr
    var flags: int
    var socktype: int
    var next: AddrInfo?

    ghost function Get(): Entry
      reads `flags, `socktype, addr
    {
      Entry(flags, family, socktype, protocol, addr.host, addr.port)
    }

    constructor (flags: int, family: int, socktype: int, protocol: int, addr: SockAddr, next: AddrInfo?)
      ensures this.flags == flags && this.family == family && this.socktype == socktype
      ensures this.protocol == protocol && this.addr == addr && this.next == next
    {
      this.flags, this.family, this.socktype := flags, family, socktype;
      this.protocol, this.addr, this.next := protocol, addr, next;
    }
  }

  /** No two nodes are the same or share a socket address. */
  ghost predicate Apart(nodes: seq<AddrInfo>)
  {
    forall j, k :: 0 <= j < k < |nodes| ==> nodes[j] != nodes[k] && nodes[j].addr != nodes[k].addr
  }

  /** The list from `nodes[0]` on is linked in order and ends with null, and its nodes share nothing. */
  ghost predicate Linked(nodes: seq<AddrInfo>)
    reads nodes`next
  {
    && (forall k {:trigger nodes[k].next} :: 0 <= k < |nodes| ==> nodes[k].next == After(nodes, k))
    && Apart(nodes)
  }

  ghost function Addrs(nodes: seq<AddrInfo>): set<SockAddr>
  {
    set n | n in nodes :: n.addr
  }

  ghost predicate Shows(nodes: seq<AddrInfo>, es: seq<Entry>)
    reads nodes`flags, nodes`socktype, Addrs(nodes)
  {
    |nodes| == |es| && forall k :: 0 <= k < |nodes| ==> Says(nodes[k], es[k])
  }

  ghost predicate Says(node: AddrInfo, e: Entry)
    reads node`flags, node`socktype, node.addr
  {
    node.Get() == e
  }

  function First(nodes: seq<AddrInfo>): AddrInfo?
  {
    if nodes == [] then null else nodes[0]
  }

  /** `group` in place of the node at `i`. */
  function Spliced(nodes: seq<AddrInfo>, i: nat, group: seq<AddrInfo>): (r: seq<AddrInfo>)
    requires i < |nodes|
    ensures |r| == |nodes| - 1 + |group|
  {
    nodes[..i] + group + nodes[i + 1..]
  }

  lemma SplicedAt(nodes: seq<AddrInfo>, i: nat, group: seq<AddrInfo>, k: nat)
    requires i < |nodes| && k < |nodes| - 1 + |group|
    ensures Spliced(nodes, i, group)[k] ==
            if k < i then nodes[k] else if k < i + |group| then group[k - i] else nodes[k + 1 - |group|]
  {
  }

  lemma StillApart(nodes: seq<AddrInfo>, i: nat, clone: AddrInfo)
    requires Apart(nodes) && i < |nodes|
    requires forall k :: 0 <= k < |nodes| ==> nodes[k] != clone && nodes[k].addr != clone.addr
    ensures Apart(Spliced(nodes, i, [nodes[i], clone]))
  {
    var all := Spliced(nodes, i, [nodes[i], clone]);
    forall j, k | 0 <= j < k < |all| ensures all[j] != all[k] && all[j].addr != all[k].addr {
      SplicedAt(nodes, i, [nodes[i], clone], j);
      SplicedAt(nodes, i, [nodes[i], clone], k);
      hide Spliced;
    }
  }

  /** The node that follows the `k`-th. */
  ghost function After(nodes: seq<AddrInfo>, k: nat): AddrInfo?
  {
    if k + 1 < |nodes| then nodes[k + 1] else null
  }

  lemma StillLinked(nodes: seq<AddrInfo>, i: nat, clone: AddrInfo)
    requires i < |nodes| && nodes[i].next == clone && clone.next == After(nodes, i)
    requires forall k {:trigger nodes[k].next} :: 0 <= k < |nodes| && k != i ==> nodes[k].next == After(nodes, k)
    requires Apart(nodes)
    requires forall k :: 0 <= k < |nodes| ==> nodes[k] != clone && nodes[k].addr != clone.addr
    ensures Linked(Spliced(nodes, i, [nodes[i], clone]))
  {
    var all := Spliced(nodes, i, [nodes[i], clone]);
    StillApart(nodes, i, clone);
    forall k | 0 <= k < |all| ensures all[k].next == After(all, k) {
      SplicedAt(nodes, i, [nodes[i], clone], k);
      if k + 1 < |all| {
        SplicedAt(nodes, i, [nodes[i], clone], k + 1);
      }
      if k < i {
        assert nodes[k].next == After(nodes, k);
      } else if k > i + 1 {
        assert nodes[k - 1].next == After(nodes, k - 1);
      }
    }
  }

  /** ga_clone: links a copy, with its own socket address and without the AI_CLONE flag, after `ai`. */
  method GaClone(ai: AddrInfo, ghost nodes: seq<AddrInfo>, ghost i: nat) returns (clone: AddrInfo)
    requires Linked(nodes) && i < |nodes| && nodes[i] == ai
    modifies ai`next
    ensures fresh(clone) && fresh(clone.addr)
    ensures Linked(Spliced(nodes, i, [ai, clone]))
    ensures clone.Get() == Cloned(ai.Get())
  {
    assert forall k :: 0 <= k < |nodes| && k != i ==> nodes[k] != ai;
    var copy := new SockAddr(ai.addr.family, ai.addr.host, ai.addr.port);
    clone := new AddrInfo(0, ai.family, ai.socktype, ai.protocol, copy, ai.next);
    ai.next := clone;
    assert forall k :: 0 <= k < |nodes| ==> nodes[k] != clone && nodes[k].addr != copy;
    StillLinked(nodes, i, clone);
  }

  /** The body of ga_port's loop. `group` is the node, and the clone of it if one was made. */
  method VisitNode(ai: AddrInfo, port: int, socktype: int, ghost e: Entry, ghost nodes: seq<AddrInfo>, ghost i: nat)
    returns (last: AddrInfo, found: nat, ghost group: seq<AddrInfo>)
    requires Linked(nodes) && i < |nodes| && nodes[i] == ai && Says(ai, e)
    modifies ai, ai.addr
    ensures |group| >= 1 && group[0] == ai && group[|group| - 1] == last
    ensures forall k :: 1 <= k < |group| ==> fresh(group[k]) && fresh(group[k].addr)
    ensures Linked(Spliced(nodes, i, group)) && Shows(group, Visit(e, Job(socktype, port)))
    ensures found == Touched(e, Job(socktype, port))
  {
    last, found, group := ai, 0, [ai];
    assert Spliced(nodes, i, group) == nodes;
    if MustClone(ai.flags) {
      if ai.socktype != 0 {
        last := GaClone(ai, nodes, i);
        group := [ai, last];
      }
    } else if ai.socktype != socktype {
      return;
    }
    last.socktype := socktype;
    if HasPort(last.family) {
      last.addr.port := port;
      found := 1;
    }
  }

  lemma SplicedRest(done: seq<AddrInfo>, rest: seq<AddrInfo>, group: seq<AddrInfo>)
    requires rest != []
    ensures Spliced(done + rest, |done|, group) == done + group + rest[1..]
  {
  }

  lemma NextStep(es: seq<Entry>, p: nat, job: Job)
    requires p < |es|
    ensures Pass(es[..p + 1], job) == Pass(es[..p], job) + Visit(es[p], job)
    ensures Found(es[..p + 1], job) == Found(es[..p], job) + Touched(es[p], job)
  {
    assert es[..p + 1][..p] == es[..p];
  }

  /** The nodes are old ones or new, and so are their socket addresses. */
  twostate predicate Reached(nodes: seq<AddrInfo>, new all: seq<AddrInfo>)
  {
    forall k :: 0 <= k < |all| ==>
      (all[k] in nodes || fresh(all[k])) && (all[k].addr in Addrs(nodes) || fresh(all[k].addr))
  }

  twostate lemma ReachedNone(nodes: seq<AddrInfo>)
    ensures Reached(nodes, [])
  {
  }

  twostate lemma ReachedMore(nodes: seq<AddrInfo>, new done: seq<AddrInfo>, new ai: AddrInfo, new done': seq<AddrInfo>)
    requires Reached(nodes, done) && ai in nodes && ai.addr in Addrs(nodes)
    requires |done| < |done'| && (forall k :: 0 <= k < |done| ==> done'[k] == done[k]) && done'[|done|] == ai
    requires forall k :: |done| < k < |done'| ==> fresh(done'[k]) && fresh(done'[k].addr)
    ensures Reached(nodes, done')
  {
    forall k | 0 <= k < |done'|
      ensures (done'[k] in nodes || fresh(done'[k])) && (done'[k].addr in Addrs(nodes) || fresh(done'[k].addr))
    {
      if k < |done| {
        assert done'[k] == done[k];
      }
    }
  }

  lemma Separate(done: seq<AddrInfo>, rest: seq<AddrInfo>)
    requires Apart(done + rest) && rest != []
    ensures forall n :: n in done || n in rest[1..] ==> n != rest[0] && n.addr != rest[0].addr
  {
    var all := done + rest;
    assert all[|done|] == rest[0];
    assert forall k :: 0 <= k < |done| ==> all[k] == done[k];
    assert forall k :: 1 <= k < |rest| ==> all[|done| + k] == rest[k];
  }

  lemma NextOf(done: seq<AddrInfo>, group: seq<AddrInfo>, rest: seq<AddrInfo>)
    requires Linked(done + group + rest) && group != []
    ensures group[|group| - 1].next == First(rest)
  {
    var all, k := done + group + rest, |done| + |group| - 1;
    assert all[k] == group[|group| - 1] && all[k].next == After(all, k);
  }

  lemma ShowsBoth(a: seq<AddrInfo>, b: seq<AddrInfo>, c: seq<Entry>, d: seq<Entry>)
    requires Shows(a, c) && Shows(b, d)
    ensures Shows(a + b, c + d)
  {
  }

  /** The list is `done`, the nodes behind the pointer, and then `rest`, those from it on. */
  ghost predicate Joined(all: seq<AddrInfo>, done: seq<AddrInfo>, rest: seq<AddrInfo>)
  {
    && |all| == |done| + |rest|
    && (forall k :: 0 <= k < |done| ==> all[k] == done[k])
    && (forall k :: 0 <= k < |rest| ==> all[|done| + k] == rest[k])
  }

  /** A pass over `nodes` that has made the list `all`, of `done` and the nodes still to visit. */
  ghost predicate Stands(nodes: seq<AddrInfo>, all: seq<AddrInfo>, done: seq<AddrInfo>, rest: seq<AddrInfo>,
                         es: seq<Entry>, job: Job, before: seq<Entry>, nfound: nat)
  {
    && |rest| <= |nodes| == |es| && rest == nodes[|es| - |rest|..]
    && First(all) == First(nodes) && Joined(all, done, rest)
    && before == Pass(es[..|es| - |rest|], job) && nfound == Found(es[..|es| - |rest|], job)
  }

  ghost predicate Walking(ai: AddrInfo?, nodes: seq<AddrInfo>, all: seq<AddrInfo>, done: seq<AddrInfo>,
                          rest: seq<AddrInfo>, es: seq<Entry>, job: Job, before: seq<Entry>, nfound: nat)
    reads all, rest, Addrs(rest), done, Addrs(done)
  {
    && Stands(nodes, all, done, rest, es, job, before, nfound)
    && ai == First(rest) && Linked(all) && Shows(rest, es[|es| - |rest|..]) && Shows(done, before)
  }

  lemma WalkStarts(nodes: seq<AddrInfo>, es: seq<Entry>, job: Job)
    requires Linked(nodes) && Shows(nodes, es)
    ensures Walking(First(nodes), nodes, nodes, [], nodes, es, job, [], 0)
  {
    assert es[0..] == es;
  }

  lemma WalkEnds(nodes: seq<AddrInfo>, all: seq<AddrInfo>, done: seq<AddrInfo>, rest: seq<AddrInfo>, es: seq<Entry>,
                 job: Job, before: seq<Entry>, nfound: nat)
    requires Walking(null, nodes, all, done, rest, es, job, before, nfound)
    ensures Linked(all) && First(all) == First(nodes) && all == done
    ensures Shows(all, Pass(es, job)) && nfound == Found(es, job)
  {
    assert es[..|es|] == es;
  }

  lemma WalkAt(ai: AddrInfo, nodes: seq<AddrInfo>, all: seq<AddrInfo>, done: seq<AddrInfo>, rest: seq<AddrInfo>,
               es: seq<Entry>, job: Job, before: seq<Entry>, nfound: nat)
    requires Walking(ai, nodes, all, done, rest, es, job, before, nfound)
    ensures rest != [] && ai == rest[0] && ai in nodes && ai.addr in Addrs(nodes)
  {
  }

  /** Past the node at the pointer, which `group` replaces. */
  lemma StandsOn(nodes: seq<AddrInfo>, all: seq<AddrInfo>, done: seq<AddrInfo>, rest: seq<AddrInfo>, es: seq<Entry>,
                 job: Job, before: seq<Entry>, nfound: nat, group: seq<AddrInfo>)
    requires Stands(nodes, all, done, rest, es, job, before, nfound)
    requires rest != [] && group != [] && group[0] == rest[0] && |done| < |all|
    ensures |rest| <= |es|
    ensures var e, list := es[|es| - |rest|], Spliced(all, |done|, group);
            && list == done + group + rest[1..]
            && Stands(nodes, list, done + group, rest[1..], es, job, before + Visit(e, job), nfound + Touched(e, job))
  {
    var p := |es| - |rest|;
    assert all == done + rest && rest[1..] == nodes[p + 1..];
    NextStep(es, p, job);
    SplicedRest(done, rest, group);
    hide Visit, Pass, Found, Touched, Spliced;
  }

  lemma Visiting(ai: AddrInfo, nodes: seq<AddrInfo>, all: seq<AddrInfo>, done: seq<AddrInfo>, rest: seq<AddrInfo>,
                 es: seq<Entry>, job: Job, before: seq<Entry>, nfound: nat)
    requires Walking(ai, nodes, all, done, rest, es, job, before, nfound)
    ensures Stands(nodes, all, done, rest, es, job, before, nfound)
    ensures 0 < |rest| <= |es| && ai == rest[0] && |done| < |all| && all[|done|] == ai
    ensures Linked(all) && Says(ai, es[|es| - |rest|])
    ensures Shows(done, before) && Shows(rest[1..], es[|es| - |rest| + 1..])
    ensures ai !in done && ai !in rest[1..] && ai.addr !in Addrs(done) && ai.addr !in Addrs(rest[1..])
  {
    assert all == done + rest;
    Separate(done, rest);
  }

  lemma Visited(nodes: seq<AddrInfo>, all: seq<AddrInfo>, done: seq<AddrInfo>, rest: seq<AddrInfo>,
                es: seq<Entry>, job: Job, before: seq<Entry>, nfound: nat, group: seq<AddrInfo>)
    requires Stands(nodes, all, done, rest, es, job, before, nfound)
    requires rest != [] && group != [] && group[0] == rest[0] && |done| < |all|
    requires Linked(Spliced(all, |done|, group)) && Shows(group, Visit(es[|es| - |rest|], job))
    requires Shows(done, before) && Shows(rest[1..], es[|es| - |rest| + 1..])
    ensures group[|group| - 1].next == First(rest[1..])
    ensures var e := es[|es| - |rest|];
            Walking(First(rest[1..]), nodes, Spliced(all, |done|, group), done + group, rest[1..], es, job,
                    before + Visit(e, job), nfound + Touched(e, job))
  {
    hide Shows, Linked, Visit, Spliced, Stands, After;
    var p, after := |es| - |rest|, rest[1..];
    StandsOn(nodes, all, done, rest, es, job, before, nfound, group);
    assert es[p + 1..] == es[|es| - |after|..];
    ShowsBoth(done, group, before, Visit(es[p], job));
    NextOf(done, group, after);
  }

  /** One turn of ga_port's loop. */
  method Advance(ai: AddrInfo, port: int, socktype: int, nfound: nat, ghost nodes: seq<AddrInfo>,
                 ghost all: seq<AddrInfo>, ghost done: seq<AddrInfo>, ghost rest: seq<AddrInfo>,
                 ghost es: seq<Entry>, ghost before: seq<Entry>)
    returns (next: AddrInfo?, nfound': nat, ghost all': seq<AddrInfo>, ghost done': seq<AddrInfo>,
             ghost before': seq<Entry>)
    requires Walking(ai, nodes, all, done, rest, es, Job(socktype, port), before, nfound)
    modifies ai, ai.addr
    ensures rest != []
    ensures Walking(next, nodes, all', done', rest[1..], es, Job(socktype, port), before', nfound')
    ensures |done| < |done'| && (forall k :: 0 <= k < |done| ==> done'[k] == done[k]) && done'[|done|] == ai
    ensures forall k :: |done| < k < |done'| ==> fresh(done'[k]) && fresh(done'[k].addr)
  {
    ghost var job := Job(socktype, port);
    hide Walking, Stands, Shows, Linked, Says, Touched, Visit, Spliced;
    Visiting(ai, nodes, all, done, rest, es, job, before, nfound);
    ghost var e := es[|es| - |rest|];
    var last, found;
    ghost var group;
    last, found, group := VisitNode(ai, port, socktype, e, all, |done|);
    Visited(nodes, all, done, rest, es, job, before, nfound, group);
    next, nfound' := last.next, nfound + found;
    done', all', before' := done + group, Spliced(all, |done|, group), before + Visit(e, job);
  }

  /** ga_port: one pass over the list, inserting clones while it walks. `nodes` are the nodes it starts with and `all`
      those it ends with. */
  method GaPort(head: AddrInfo?, port: int, socktype: int, ghost nodes: seq<AddrInfo>, ghost es: seq<Entry>)
    returns (nfound: nat, ghost all: seq<AddrInfo>)
    requires Linked(nodes) && head == First(nodes) && Shows(nodes, es)
    modifies nodes, Addrs(nodes)
    ensures Linked(all) && head == First(all) && Reached(nodes, all)
    ensures Shows(all, Pass(es, Job(socktype, port)))
    ensures nfound == Found(es, Job(socktype, port))
  {
    var ai := head;
    nfound := 0;
    ghost var job := Job(socktype, port);
    ghost var done, rest, before := [], nodes, [];
    all := nodes;
    hide *;
    WalkStarts(nodes, es, job);
    ReachedNone(nodes);
    while ai != null
      invariant Walking(ai, nodes, all, done, rest, es, job, before, nfound) && Reached(nodes, done)
      decreases |rest|
    {
      WalkAt(ai, nodes, all, done, rest, es, job, before, nfound);
      ghost var done', at := done, ai;
      ai, nfound, all, done', before := Advance(ai, port, socktype, nfound, nodes, all, done, rest, es, before);
      ReachedMore(nodes, done, at, done');
      done, rest := done', rest[1..];
    }
    WalkEnds(nodes, all, done, rest, es, job, before, nfound);
  }

  function ServiceError(hint: int, nfound: nat): int
  {
    if nfound != 0 then 0 else if hint == 0 then EAI_NONAME else EAI_SERVICE
  }

  /** The list after the passes `jobs`. */
  ghost predicate Served(head: AddrInfo?, all: seq<AddrInfo>, es: seq<Entry>, jobs: seq<Job>, nfound: nat)
    reads all, Addrs(all)
  {
    Linked(all) && head == First(all) && Shows(all, Passes(es, jobs)) && nfound == FoundInAll(es, jobs)
  }

  predicate Extends(jobs': seq<Job>, jobs: seq<Job>, job: Job)
  {
    |jobs'| == |jobs| + 1 && jobs'[..|jobs|] == jobs && jobs'[|jobs|] == job
  }

  lemma OneOrTwo(a: Job, b: Job)
    ensures Extends([a], [], a) && Extends([a, b], [a], b)
  {
  }

  /** A call of ga_port and the count after it. */
  method Serve(head: AddrInfo?, port: int, socktype: int, nfound: nat, ghost all: seq<AddrInfo>,
               ghost es: seq<Entry>, ghost jobs: seq<Job>, ghost jobs': seq<Job>)
    returns (nfound': nat, ghost all': seq<AddrInfo>)
    requires Served(head, all, es, jobs, nfound) && Extends(jobs', jobs, Job(socktype, port))
    modifies all, Addrs(all)
    ensures Served(head, all', es, jobs', nfound') && Reached(all, all')
  {
    var n;
    n, all' := GaPort(head, port, socktype, all, Passes(es, jobs));
    nfound' := nfound + n;
  }

  twostate lemma StillReached(nodes: seq<AddrInfo>, new all: seq<AddrInfo>)
    requires Reached(nodes, all)
    ensures forall n :: n in all ==> n in nodes || fresh(n)
    ensures forall a :: a in Addrs(all) ==> a in Addrs(nodes) || fresh(a)
  {
  }

  /** ga_port for any number of socket types, one after another: as the comment above it says, the algorithm handles any
      number, and the list that it leaves has every address with every type exactly once. */
  method GaPorts(head: AddrInfo?, jobs: seq<Job>, ghost nodes: seq<AddrInfo>, ghost es: seq<Entry>)
    returns (nfound: nat, ghost all: seq<AddrInfo>)
    requires Linked(nodes) && head == First(nodes) && Shows(nodes, es)
    requires (forall k :: 0 <= k < |es| ==> Unassigned(es[k])) && DistinctJobs(jobs)
    modifies nodes, Addrs(nodes)
    ensures Linked(all) && head == First(all) && Shows(all, Groups(es, jobs)) && nfound == |jobs| * |es|
  {
    nfound, all := 0, nodes;
    assert Served(head, all, es, jobs[..0], 0);
    ReachedAll(nodes);
    hide *;
    for i := 0 to |jobs|
      invariant Served(head, all, es, jobs[..i], nfound) && Reached(nodes, all)
    {
      NextJob(jobs, i);
      StillReached(nodes, all);
      ghost var was := all;
      label Before:
      nfound, all := Serve(head, jobs[i].port, jobs[i].socktype, nfound, was, es, jobs[..i], jobs[..i + 1]);
      StillReached@Before(was, all);
      ReachedFurther(nodes, was, all);
    }
    assert jobs[..|jobs|] == jobs;
    ServedMeans(head, all, es, jobs, nfound);
    PassesMakeGroups(es, jobs);
  }

  twostate lemma ReachedAll(nodes: seq<AddrInfo>)
    ensures Reached(nodes, nodes)
  {
  }

  twostate lemma ReachedFurther(nodes: seq<AddrInfo>, new was: seq<AddrInfo>, new all: seq<AddrInfo>)
    requires Reached(nodes, was)
    requires forall n :: n in all ==> n in was || fresh(n)
    requires forall a :: a in Addrs(all) ==> a in Addrs(was) || fresh(a)
    ensures Reached(nodes, all)
  {
    forall k | 0 <= k < |all|
      ensures (all[k] in nodes || fresh(all[k])) && (all[k].addr in Addrs(nodes) || fresh(all[k].addr))
    {
      assert all[k] in all && all[k].addr in Addrs(all);
    }
  }

  lemma NextJob(jobs: seq<Job>, i: nat)
    requires i < |jobs|
    ensures Extends(jobs[..i + 1], jobs[..i], Job(jobs[i].socktype, jobs[i].port))
  {
    assert jobs[..i + 1][..i] == jobs[..i];
  }

  /** ga_serv for a port number: the type asked for, or both. */
  method ServeNumber(head: AddrInfo?, hint: int, port: int, ghost nodes: seq<AddrInfo>, ghost es: seq<Entry>)
    returns (nfound: nat, ghost all: seq<AddrInfo>)
    requires Served(head, nodes, es, [], 0)
    modifies nodes, Addrs(nodes)
    ensures Served(head, all, es, Jobs(hint, Number(port)), nfound)
  {
    ghost var s, d := Job(SOCK_STREAM, port), Job(SOCK_DGRAM, port);
    hide Linked, First, Shows, Served, Passes, FoundInAll, Addrs, Reached, Extends;
    if hint != 0 {
      OneOrTwo(Job(hint, port), d);
      nfound, all := Serve(head, port, hint, 0, nodes, es, [], [Job(hint, port)]);
    } else {
      OneOrTwo(s, d);
      nfound, all := Serve(head, port, SOCK_STREAM, 0, nodes, es, [], [s]);
      StillReached(nodes, all);
      nfound, all := Serve(head, port, SOCK_DGRAM, nfound, all, es, [s], [s, d]);
    }
  }

  /** ga_serv for a service name: TCP, then UDP. */
  method ServeName(head: AddrInfo?, hint: int, service: Service, ghost nodes: seq<AddrInfo>, ghost es: seq<Entry>)
    returns (nfound: nat, ghost all: seq<AddrInfo>)
    requires Served(head, nodes, es, [], 0) && service.Name?
    modifies nodes, Addrs(nodes)
    ensures Served(head, all, es, Jobs(hint, service), nfound)
  {
    nfound, all := 0, nodes;
    ghost var s := Job(SOCK_STREAM, if service.tcp.Some? then service.tcp.value else 0);
    ghost var d := Job(SOCK_DGRAM, if service.udp.Some? then service.udp.value else 0);
    ghost var jobs := [];
    hide Linked, First, Shows, Served, Passes, FoundInAll, Addrs, Reached, Extends;
    OneOrTwo(s, d);
    OneOrTwo(d, d);
    if hint == 0 || hint == SOCK_STREAM {
      if service.tcp.Some? {
        nfound, all := Serve(head, service.tcp.value, SOCK_STREAM, nfound, all, es, [], [s]);
        jobs := [s];
        StillReached(nodes, all);
      }
    }
    if hint == 0 || hint == SOCK_DGRAM {
      if service.udp.Some? {
        nfound, all := Serve(head, service.udp.value, SOCK_DGRAM, nfound, all, es, jobs, Jobs(hint, service));
      }
    }
  }

  /** ga_serv: the passes for a service; an error when they found no entry to give a port to. */
  method GaServ(head: AddrInfo?, hint: int, service: Service, ghost nodes: seq<AddrInfo>, ghost es: seq<Entry>)
    returns (rc: int, ghost all: seq<AddrInfo>)
    requires Linked(nodes) && head == First(nodes) && Shows(nodes, es)
    modifies nodes, Addrs(nodes)
    ensures Linked(all) && head == First(all) && Shows(all, Passes(es, Jobs(hint, service)))
    ensures rc == ServiceError(hint, FoundInAll(es, Jobs(hint, service)))
  {
    assert Served(head, nodes, es, [], 0);
    hide Linked, First, Shows, Served, Passes, FoundInAll, Addrs, Jobs;
    var nfound;
    match service {
      case Number(port) =>
        nfound, all := ServeNumber(head, hint, port, nodes, es);
      case Name(_, _) =>
        nfound, all := ServeName(head, hint, service, nodes, es);
    }
    ServedMeans(head, all, es, Jobs(hint, service), nfound);
    if nfound == 0 {
      rc := if hint == 0 then EAI_NONAME else EAI_SERVICE;
    } else {
      rc := 0;
    }
  }

  lemma ServedMeans(head: AddrInfo?, all: seq<AddrInfo>, es: seq<Entry>, jobs: seq<Job>, nfound: nat)
    requires Served(head, all, es, jobs, nfound)
    ensures Linked(all) && head == First(all) && Shows(all, Passes(es, jobs)) && nfound == FoundInAll(es, jobs)
  {
  }

  /** The list that getaddrinfo builds, with its pointer to the end. */
  class Results {
    var head: AddrInfo?
    var last: AddrInfo?
    ghost var nodes: seq<AddrInfo>

    ghost predicate Valid()
      reads this, nodes`next
    {
      && Linked(nodes) && head == First(nodes)
      && last == if nodes == [] then null else nodes[|nodes| - 1]
    }

    constructor ()
      ensures Valid() && nodes == []
    {
      head, last, nodes := null, null, [];
    }

    /** Stores through the pointer to the end, and moves it on. */
    method Append(ai: AddrInfo)
      requires Valid() && ai.next == null
      requires forall k :: 0 <= k < |nodes| ==> nodes[k] != ai && nodes[k].addr != ai.addr
      modifies `head, `last, `nodes, nodes`next
      ensures Valid() && nodes == old(nodes) + [ai]
    {
      assert Apart(nodes);
      assert forall k {:trigger nodes[k].next} :: 0 <= k < |nodes| - 1 ==> nodes[k].next == After(nodes, k);
      hide Linked, Apart, After;
      if last == null {
        head := ai;
      } else {
        last.next := ai;
      }
      AppendLinked(nodes, ai);
      last, nodes := ai, nodes + [ai];
    }

    /** ga_aistruct: a new node at the end, to be cloned if no socket type was asked for. */
    method AiStruct(hint: int, protocol: int, a: Address, ghost es: seq<Entry>) returns (ai: AddrInfo)
      requires Valid() && Shows(nodes, es)
      modifies this, nodes
      ensures Valid() && nodes == old(nodes) + [ai] && fresh(ai) && fresh(ai.addr)
      ensures Shows(nodes, es + [Unserved(a, hint, protocol)])
    {
      hide *;
      ShowsMeans(nodes, es);
      var address := new SockAddr(a.family, a.host, 0);
      ai := new AddrInfo(0, a.family, hint, protocol, address, null);
      assert forall k :: 0 <= k < |nodes| ==> nodes[k] != ai && nodes[k].addr != ai.addr;
      ghost var was := nodes;
      Append(ai);
      if hint == 0 {
        ai.flags := AI_CLONE;
      }
      ShowsMeans(was, es);
      SaysUnserved(ai, a, hint, protocol);
      AppendShows(was, ai, es, Unserved(a, hint, protocol));
    }
  }

  lemma ShowsMeans(nodes: seq<AddrInfo>, es: seq<Entry>)
    ensures Shows(nodes, es) <==> |nodes| == |es| && forall k :: 0 <= k < |nodes| ==> nodes[k].Get() == es[k]
  {
  }

  lemma SaysUnserved(ai: AddrInfo, a: Address, hint: int, protocol: int)
    requires ai.flags == (if hint == 0 then AI_CLONE else 0) && ai.family == a.family && ai.socktype == hint
    requires ai.protocol == protocol && ai.addr.host == a.host && ai.addr.port == 0
    ensures Says(ai, Unserved(a, hint, protocol))
  {
  }

  lemma AppendShows(nodes: seq<AddrInfo>, ai: AddrInfo, es: seq<Entry>, e: Entry)
    requires Shows(nodes, es) && Says(ai, e)
    ensures Shows(nodes + [ai], es + [e])
  {
  }

  lemma AppendLinked(nodes: seq<AddrInfo>, ai: AddrInfo)
    requires ai.next == null && (nodes == [] || nodes[|nodes| - 1].next == ai)
    requires forall k {:trigger nodes[k].next} :: 0 <= k < |nodes| - 1 ==> nodes[k].next == After(nodes, k)
    requires Apart(nodes) && forall k :: 0 <= k < |nodes| ==> nodes[k] != ai && nodes[k].addr != ai.addr
    ensures Linked(nodes + [ai])
  {
  }

  /** The loop of getaddrinfo over the addresses that were found. */
  method BuildList(addrs: seq<Address>, hint: int, protocol: int) returns (list: Results)
    ensures fresh(list) && list.Valid() && Shows(list.nodes, AllUnserved(addrs, hint, protocol))
    ensures forall k :: 0 <= k < |list.nodes| ==> fresh(list.nodes[k]) && fresh(list.nodes[k].addr)
  {
    list := new Results();
    ghost var es := AllUnserved(addrs, hint, protocol);
    for i := 0 to |addrs|
      invariant list.Valid() && Shows(list.nodes, es[..i]) && fresh(list)
      invariant forall k :: 0 <= k < |list.nodes| ==> fresh(list.nodes[k]) && fresh(list.nodes[k].addr)
    {
      hide Linked, Shows, AllUnserved, First;
      ghost var e := Unserved(addrs[i], hint, protocol);
      UnservedAt(addrs, hint, protocol, i);
      var ai := list.AiStruct(hint, protocol, addrs[i], es[..i]);
    }
    assert es[..|addrs|] == es;
  }

  lemma UnservedAt(addrs: seq<Address>, hint: int, protocol: int, i: nat)
    requires i < |addrs|
    ensures var es := AllUnserved(addrs, hint, protocol); es[..i + 1] == es[..i] + [Unserved(addrs[i], hint, protocol)]
  {
  }

  /** freeaddrinfo: the socket addresses and the nodes in the order it frees them. It takes each pointer out of a node
      before it frees the node, and frees nothing twice. */
  method FreeAddrInfo(aihead: AddrInfo?, ghost nodes: seq<AddrInfo>)
    returns (freed: seq<AddrInfo>, freedAddrs: seq<SockAddr>)
    requires Linked(nodes) && aihead == First(nodes)
    ensures freed == nodes && |freedAddrs| == |nodes| && forall k :: 0 <= k < |nodes| ==> freedAddrs[k] == nodes[k].addr
    ensures forall j, k :: 0 <= j < k < |nodes| ==> freed[j] != freed[k] && freedAddrs[j] != freedAddrs[k]
  {
    hide Shows, Addrs;
    freed, freedAddrs := [], [];
    var ai := aihead;
    while ai != null
      invariant |freed| == |freedAddrs| <= |nodes| && freed == nodes[..|freed|]
      invariant forall k :: 0 <= k < |freed| ==> freedAddrs[k] == nodes[k].addr
      invariant ai == if |freed| < |nodes| then nodes[|freed|] else null
      decreases |nodes| - |freed|
    {
      assert ai !in freed && ai.addr !in freedAddrs;
      assert nodes[|freed|].next == After(nodes, |freed|);
      freedAddrs := freedAddrs + [ai.addr];
      var ainext := ai.next;
      freed := freed + [ai];
      ai := ainext;
    }
  }

  /** getaddrinfo once the addresses are known: a node for each, then the service, unless no service was named. */
  method Resolve(addrs: seq<Address>, hint: int, protocol: int, serv: string, tcp: Option<int>, udp: Option<int>)
    returns (rc: int, head: AddrInfo?, freed: seq<AddrInfo>, ghost all: seq<AddrInfo>, ghost listed: seq<Entry>)
    requires forall k :: 0 <= k < |addrs| ==> addrs[k].family == AF_INET || addrs[k].family == AF_INET6
    ensures rc == 0 <==> addrs != [] && (serv == "" || Offered(hint, serv, tcp, udp))
    ensures rc == 0 ==> Linked(all) && head == First(all) && Shows(all, listed)
    ensures rc == 0 && serv == "" ==> OneEach(listed, addrs, if hint == 0 then 4 else 0, hint, protocol, 0)
    ensures rc == 0 && serv != "" ==> ListFor(listed, addrs, hint, protocol, serv, tcp, udp)
    ensures var es, jobs := AllUnserved(addrs, hint, protocol), Jobs(hint, ServiceOf(serv, tcp, udp));
            && (rc == 0 && serv == "" ==> Shows(all, es))
            && (rc == 0 && serv != "" ==> jobs != [] && Shows(all, Passes(es, jobs)))
            && (rc == 0 && serv != "" && hint == 0 ==> Shows(all, Groups(es, jobs)))
    ensures rc != 0 ==> rc == (if addrs == [] || hint == 0 then EAI_NONAME else EAI_SERVICE)
    // on failure every node that was made is freed, once, and none is returned
    ensures if rc == 0 then freed == [] else head == null && freed == all && |all| == |addrs| && Apart(all)
  {
    freed := [];
    var list := BuildList(addrs, hint, protocol);
    ghost var es := AllUnserved(addrs, hint, protocol);
    head, all, listed := list.head, list.nodes, es;
    NotServed(addrs, hint, protocol);
    ServedList(addrs, hint, protocol, serv, tcp, udp);
    assert |all| == |es| && Linked(all) && head == First(all);
    if head == null {
      rc := EAI_NONAME;
    } else if serv == "" {
      rc := 0;
    } else {
      var port := ReadPort(serv);
      var service := if IsDecDigit(serv[0]) then Number(port) else Name(tcp, udp);
      assert service == ServiceOf(serv, tcp, udp);
      ServiceFound(addrs, hint, protocol, service);
      Positive(|Jobs(hint, service)|, |addrs|);
      NoPasses(es, Jobs(hint, service));
      hide Linked, Shows, Passes, FoundInAll, Jobs, Groups, AllUnserved, First, Offered, ListFor, OneEach;
      rc, all := GaServ(head, hint, service, all, es);
      listed := Passes(es, Jobs(hint, service));
      AsManyNodes(all, Passes(es, Jobs(hint, service)));
    }
    if rc != 0 {
      var addresses;
      freed, addresses := FreeAddrInfo(head, all);
      LinkedApart(all);
      head := null;
    }
  }

  lemma NoPasses(es: seq<Entry>, jobs: seq<Job>)
    ensures jobs == [] ==> Passes(es, jobs) == es
  {
  }

  lemma AsManyNodes(nodes: seq<AddrInfo>, es: seq<Entry>)
    ensures Shows(nodes, es) ==> |nodes| == |es|
  {
  }

  lemma LinkedApart(nodes: seq<AddrInfo>)
    requires Linked(nodes)
    ensures Apart(nodes)
  {
  }

  lemma Positive(m: nat, n: nat)
    requires n > 0
    ensures m * n == 0 <==> m == 0
  {
  }
}
