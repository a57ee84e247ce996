/**
 What a verdict rests on, for every loss, delay and repetition, every list of servers and every NAT; and the one
 misreport that the order of the probes makes possible.
 */
module NatSafety {
  import opened Common
  import opened NatServer
  import opened NatMessage
  import opened NatProbe

  // ----- What every step keeps --------------------------------------------------------------------------------

  /**
   Message numbers are positive, never above the last one given, and given to one request each; one port is contacted.
   */
  ghost predicate Good(w: World) {
    && (forall k | 0 <= k < |w.sent| :: 0 < w.sent[k].request.msgid <= w.msgid && w.sent[k].dst.port == SERVER_PORT)
    && (forall j, k | 0 <= j < |w.sent| && 0 <= k < |w.sent| ::
          w.sent[j].request.msgid == w.sent[k].request.msgid ==> w.sent[j] == w.sent[k])
  }

  ghost predicate Extends(w: World, w': World) {
    w.sent <= w'.sent && w.msgid <= w'.msgid
  }

  /** The last number given belongs to this request. */
  ghost predicate Pending(w: World, s: Sent) {
    && Good(w) && s.dst.port == SERVER_PORT && s.request.msgid == w.msgid > 0
    && forall k | 0 <= k < |w.sent| :: w.sent[k].request.msgid == w.msgid ==> w.sent[k] == s
  }

  /** The packet answers a request of this kind, to one of the servers, numbered after everything sent in w. */
  ghost predicate Evidence(net: Network, ips: seq<nat>, w: World, w': World, networkType: int, p: Packet, s: Sent)
    requires Usable(net)
  {
    && s in w'.sent && s.request.msgid > w.msgid && s.request.networkType == networkType
    && s.dst.port == SERVER_PORT && s.dst.ip in ips
    && Answers(net, s, p) && LetsIn(net.filter, w'.sent, p.src)
  }

  lemma LetsInLater(filter: Filter, sent: seq<Sent>, later: seq<Sent>, src: Endpoint)
    requires LetsIn(filter, sent, src) && sent <= later
    ensures LetsIn(filter, later, src)
  {
    if filter.ByAddress? {
      var k :| 0 <= k < |sent| && sent[k].dst.ip == src.ip;
      assert later[k] == sent[k];
    }
    if filter.ByAddressAndPort? {
      var k :| 0 <= k < |sent| && sent[k].dst == src;
      assert later[k] == sent[k];
    }
  }

  lemma {:induction false} AttemptKeeps(net: Network, w: World, dst: Endpoint, request: Request, retry: nat)
    requires Usable(net) && Pending(w, Sent(dst, request))
    ensures var (w', p) := Attempt(net, w, dst, request, retry);
            && Extends(w, w') && Pending(w', Sent(dst, request)) && w'.msgid == w.msgid
            && (p.Some? ==> Sent(dst, request) in w'.sent && Answers(net, Sent(dst, request), p.value)
                            && LetsIn(net.filter, w'.sent, p.value.src))
    decreases retry
  {
    hide Answers, LetsIn;
    if retry > 0 {
      var s := Sent(dst, request);
      var (w1, ok) := Send(net, w, dst, request);
      assert w1.sent[|w.sent|] == s;
      assert Pending(w1, s) && Extends(w, w1);
      if ok {
        var (w2, p) := Receive(net, w1);
        assert w2.sent == w1.sent && Pending(w2, s);
        if p.Some? && p.value.reply.msgid == request.msgid {
          ReplyIsOwn(net, w1, s, p.value);
        } else {
          AttemptKeeps(net, w2, dst, request, retry - 1);
        }
      }
    }
  }

  /** A packet with the pending number answers the pending request. */
  lemma ReplyIsOwn(net: Network, w: World, s: Sent, p: Packet)
    requires Usable(net) && Pending(w, s) && Explained(net, w.sent, p) && p.reply.msgid == s.request.msgid
    ensures Answers(net, s, p)
  {
    var k :| 0 <= k < |w.sent| && Answers(net, w.sent[k], p);
    assert w.sent[k].request.msgid == w.msgid;
  }

  lemma {:induction false} ExchangeKeeps(net: Network, ips: seq<nat>, w: World, networkType: int, want: nat, i: nat)
    returns (ss: seq<Sent>)
    requires Usable(net) && Good(w) && i <= |ips|
    ensures var (w', got) := Exchange(net, ips, w, networkType, want, i);
            && Extends(w, w') && Good(w') && |ss| == |got| <= want
            && (forall k {:trigger ss[k]} | 0 <= k < |ss| :: Evidence(net, ips, w, w', networkType, got[k], ss[k]))
    decreases |ips| - i
  {
    hide Answers, LetsIn, Attempt;
    ss := [];
    if i < |ips| && want > 0 {
      var request := Request(NextMsgid(net, w), networkType);
      var w0, dst := w.(msgid := request.msgid), Endpoint(ips[i], SERVER_PORT);
      assert Pending(w0, Sent(dst, request));
      AttemptKeeps(net, w0, dst, request, RETRY_SEND_NUM);
      var (w1, p) := Attempt(net, w0, dst, request, RETRY_SEND_NUM);
      ss := ExchangeKeeps(net, ips, w1, networkType, if p.Some? then want - 1 else want, i + 1);
      if p.Some? {
        var (w2, more) := Exchange(net, ips, w1, networkType, want - 1, i + 1);
        LetsInLater(net.filter, w1.sent, w2.sent, p.value.src);
        assert Evidence(net, ips, w, w2, networkType, p.value, Sent(dst, request));
        ss := [Sent(dst, request)] + ss;
      }
    }
  }

  // ----- What the verdicts rest on --------------------------------------------------------------------------------

  /** Verdicts of one probe: the world before it, and the packets and requests it rests on. */
  datatype Grounds = Grounds(before: World, packets: seq<Packet>, requests: seq<Sent>)

  ghost predicate RestsOn(net: Network, ips: seq<nat>, w: World, w': World, verdict: int, g: Grounds)
    requires Usable(net)
  {
    && Extends(w, g.before) && |g.packets| == |g.requests| == (if verdict == SYMMETRIC_NAT then 2 else 1)
    && forall k {:trigger g.requests[k]} | 0 <= k < |g.requests| ::
         Evidence(net, ips, g.before, w', verdict, g.packets[k], g.requests[k])
  }

  /** Every verdict rests on the answers to that very probe's own requests. */
  lemma VerdictRests(net: Network, ips: seq<nat>, w: World) returns (g: Grounds)
    requires Usable(net) && Good(w)
    ensures var (w', verdict) := Probe(net, ips, w);
            && Good(w') && Extends(w, w')
            && (verdict != UNKNOWN ==> RestsOn(net, ips, w, w', verdict, g))
            && (verdict == PUBLIC_NETWORK ==> IsPublic(net, g.packets))
            && (verdict == SYMMETRIC_NAT ==> IsSymmetric(g.packets))
  {
    hide Exchange, Evidence, Good, Answers;
    var (w1, a) := Exchange(net, ips, w, PUBLIC_NETWORK, 1, 0);
    var s1 := ExchangeKeeps(net, ips, w, PUBLIC_NETWORK, 1, 0);
    g := Grounds(w, a, s1);
    if !IsPublic(net, a) {
      var (w2, b) := Exchange(net, ips, w1, SYMMETRIC_NAT, 2, 0);
      var s2 := ExchangeKeeps(net, ips, w1, SYMMETRIC_NAT, 2, 0);
      g := Grounds(w1, b, s2);
      if !IsSymmetric(b) {
        g := ConeVerdictRests(net, ips, w2);
      }
    }
  }

  /** The last three probes. */
  function ConeProbe(net: Network, ips: seq<nat>, w: World): (World, int)
    requires Usable(net)
  {
    var (w3, c) := Exchange(net, ips, w, FULL_CONE_NAT, 1, 0);
    if |c| == 1 then (w3, FULL_CONE_NAT)
    else
      var (w4, d) := Exchange(net, ips, w3, RESTRICTED_CONE_NAT, 1, 0);
      if |d| == 1 then (w4, RESTRICTED_CONE_NAT)
      else
        var (w5, e) := Exchange(net, ips, w4, PORT_RESTRICTED_CONE_NAT, 1, 0);
        (w5, if |e| == 1 then PORT_RESTRICTED_CONE_NAT else UNKNOWN)
  }

  lemma ConeVerdictRests(net: Network, ips: seq<nat>, w: World) returns (g: Grounds)
    requires Usable(net) && Good(w)
    ensures var (w', verdict) := ConeProbe(net, ips, w);
            && Good(w') && Extends(w, w')
            && (verdict != UNKNOWN ==> RestsOn(net, ips, w, w', verdict, g))
  {
    hide Exchange, Evidence, Good, Answers;
    var (w3, c) := Exchange(net, ips, w, FULL_CONE_NAT, 1, 0);
    var s3 := ExchangeKeeps(net, ips, w, FULL_CONE_NAT, 1, 0);
    g := Grounds(w, c, s3);
    if |c| != 1 {
      var (w4, d) := Exchange(net, ips, w3, RESTRICTED_CONE_NAT, 1, 0);
      var s4 := ExchangeKeeps(net, ips, w3, RESTRICTED_CONE_NAT, 1, 0);
      g := Grounds(w3, d, s4);
      if |d| != 1 {
        var (w5, e) := Exchange(net, ips, w4, PORT_RESTRICTED_CONE_NAT, 1, 0);
        var s5 := ExchangeKeeps(net, ips, w4, PORT_RESTRICTED_CONE_NAT, 1, 0);
        g := Grounds(w4, e, s5);
      }
    }
  }

  /** A server table as `CreateSocket` lays it out. */
  ghost predicate Served(net: Network, ips: seq<nat>, bindings: nat -> Binding) {
    Layout(net.addr, ips, bindings) && |ips| <= 5 && Distinct(bindings) && net.pid > 0
  }

  lemma ServedIsUsable(net: Network, ips: seq<nat>, bindings: nat -> Binding)
    requires Served(net, ips, bindings)
    ensures Usable(net)
  {
    LastIsQuiet(net.addr, ips, bindings);
  }

  /** The two cone probes are answered from the second port only. */
  lemma ConeAnswerPort(net: Network, ips: seq<nat>, bindings: nat -> Binding, s: Sent, p: Packet)
    requires Served(net, ips, bindings) && Usable(net) && Answers(net, s, p)
    requires s.request.networkType == FULL_CONE_NAT || s.request.networkType == RESTRICTED_CONE_NAT
    ensures p.src.port == SERVER_PORT + 1
    ensures s.request.networkType == RESTRICTED_CONE_NAT ==> p.src.ip == s.dst.ip
  {
    AnswersFrom(net.addr, ips, bindings, s.dst, s.request.networkType);
  }

  /**
   A full or restricted cone verdict rests on a reply to that probe's own request, with a number given after every
   earlier one, from an address and port that the client never sent anything to, and that the NAT let in.
   */
  lemma ConeVerdict(net: Network, servers: seq<nat>, bindings: nat -> Binding, ips: seq<nat>, w: World)
    returns (before: World, p: Packet, s: Sent)
    requires Served(net, servers, bindings) && Usable(net) && Good(w)
    requires Probe(net, ips, w).1 == FULL_CONE_NAT || Probe(net, ips, w).1 == RESTRICTED_CONE_NAT
    ensures var (w', verdict) := Probe(net, ips, w);
            && Extends(w, before) && Evidence(net, ips, before, w', verdict, p, s) && p.reply.msgid == s.request.msgid
            && p.src.port == SERVER_PORT + 1 && (forall t | t in w'.sent :: t.dst != p.src)
            && net.filter != ByAddressAndPort
            && (net.filter == ByAddress ==> exists t | t in w'.sent :: t.dst.ip == p.src.ip)
  {
    hide Probe, AddressOf, Listening, Process, Find;
    var g := VerdictRests(net, ips, w);
    before, p, s := g.before, g.packets[0], g.requests[0];
    assert Evidence(net, ips, before, Probe(net, ips, w).0, Probe(net, ips, w).1, p, s);
    ConeAnswerPort(net, servers, bindings, s, p);
  }

  /** So a NAT that filters on address and port is never reported as either, whatever the network does. */
  lemma PortFilterNeverACone(net: Network, servers: seq<nat>, bindings: nat -> Binding, ips: seq<nat>, w: World)
    requires Served(net, servers, bindings) && Usable(net) && Good(w) && net.filter == ByAddressAndPort
    ensures Probe(net, ips, w).1 != FULL_CONE_NAT && Probe(net, ips, w).1 != RESTRICTED_CONE_NAT
  {
    if Probe(net, ips, w).1 == FULL_CONE_NAT || Probe(net, ips, w).1 == RESTRICTED_CONE_NAT {
      var before, p, s := ConeVerdict(net, servers, bindings, ips, w);
    }
  }

  /** A public verdict means that some server saw the client at an address of its own. */
  lemma PublicVerdict(net: Network, ips: seq<nat>, w: World) returns (dst: Endpoint)
    requires Usable(net) && Good(w) && Probe(net, ips, w).1 == PUBLIC_NETWORK
    ensures dst.port == SERVER_PORT && dst.ip in ips && net.local(net.mapping(dst).ip)
  {
    hide Probe;
    var g := VerdictRests(net, ips, w);
    assert Evidence(net, ips, g.before, Probe(net, ips, w).0, PUBLIC_NETWORK, g.packets[0], g.requests[0]);
    dst := g.requests[0].dst;
  }

  /** A symmetric verdict means that two servers really saw the client at different addresses or ports. */
  lemma SymmetricVerdict(net: Network, ips: seq<nat>, w: World) returns (dst: Endpoint, other: Endpoint)
    requires Usable(net) && Good(w) && Probe(net, ips, w).1 == SYMMETRIC_NAT
    ensures dst.ip in ips && other.ip in ips && net.mapping(dst) != net.mapping(other)
  {
    hide Probe;
    var g := VerdictRests(net, ips, w);
    assert Evidence(net, ips, g.before, Probe(net, ips, w).0, SYMMETRIC_NAT, g.packets[0], g.requests[0]);
    assert Evidence(net, ips, g.before, Probe(net, ips, w).0, SYMMETRIC_NAT, g.packets[1], g.requests[1]);
    dst, other := g.requests[0].dst, g.requests[1].dst;
  }

  // ----- The misreport ----------------------------------------------------------------------------------------------

  /** Two servers, all of whose sockets are bound. */
  function BoundTo(i: nat): Binding { Bound(i + 3) }

  function Table(a: nat, b: nat): (addr: seq<Addr>)
    ensures Layout(addr, [a, b], BoundTo)
  {
    seq(SOCKET_NUM, (i: nat) => Entry([a, b], BoundTo, i))
  }

  /** A NAT that maps all destinations alike and filters on addresses; every message arrives in time. */
  function AddressRestricted(a: nat, b: nat): Network {
    Network(Table(a, b), ByAddress, _ => Endpoint(0, 0), _ => true, (clock: nat) => Arrival(a, b, clock), _ => false,
        100)
  }

  function Arrival(a: nat, b: nat, clock: nat): Option<Packet> {
    if clock == 1 then Some(Packet(Endpoint(a, SERVER_PORT), Response(101, 0, 0)))
    else if clock == 3 then Some(Packet(Endpoint(a, SERVER_PORT), Response(102, 0, 0)))
    else if clock == 5 then Some(Packet(Endpoint(b, SERVER_PORT), Response(103, 0, 0)))
    else if clock == 7 then Some(Packet(Endpoint(b, SERVER_PORT + 1), Response(104, 0, 0)))
    else None
  }

  lemma ExampleServed(a: nat, b: nat)
    requires a != b
    ensures Served(AddressRestricted(a, b), [a, b], BoundTo) && Usable(AddressRestricted(a, b))
    ensures Answer(Table(a, b), Endpoint(a, SERVER_PORT), PUBLIC_NETWORK) == Some(Endpoint(a, SERVER_PORT))
    ensures Answer(Table(a, b), Endpoint(a, SERVER_PORT), SYMMETRIC_NAT) == Some(Endpoint(a, SERVER_PORT))
    ensures Answer(Table(a, b), Endpoint(b, SERVER_PORT), SYMMETRIC_NAT) == Some(Endpoint(b, SERVER_PORT))
    ensures Answer(Table(a, b), Endpoint(a, SERVER_PORT), FULL_CONE_NAT) == Some(Endpoint(b, SERVER_PORT + 1))
  {
    hide Answer;
    var addr := Table(a, b);
    var first, second := Endpoint(a, SERVER_PORT), Endpoint(b, SERVER_PORT);
    assert addr[0] == Addr(a, SERVER_PORT, 3) && addr[1] == Addr(a, SERVER_PORT + 1, 4)
           && addr[2] == Addr(b, SERVER_PORT, 5);
    assert Listening(addr, first, 0) == Some(0);
    assert Listening(addr, second, 0) == Listening(addr, second, 1) == Listening(addr, second, 2) == Some(2);
    ServedIsUsable(AddressRestricted(a, b), [a, b], BoundTo);
    AnswersFrom(addr, [a, b], BoundTo, first, PUBLIC_NETWORK);
    AnswersFrom(addr, [a, b], BoundTo, first, SYMMETRIC_NAT);
    AnswersFrom(addr, [a, b], BoundTo, second, SYMMETRIC_NAT);
    AnswersFrom(addr, [a, b], BoundTo, first, FULL_CONE_NAT);
  }

  /** The requests of the example: one of each of the first three probes' to a, the second of the symmetric one to b. */
  function ExampleSends(a: nat, b: nat): seq<Sent> {
    [Sent(Endpoint(a, SERVER_PORT), Request(101, PUBLIC_NETWORK)),
     Sent(Endpoint(a, SERVER_PORT), Request(102, SYMMETRIC_NAT)),
     Sent(Endpoint(b, SERVER_PORT), Request(103, SYMMETRIC_NAT)),
     Sent(Endpoint(a, SERVER_PORT), Request(104, FULL_CONE_NAT))]
  }

  lemma ReplyNumber(net: Network, s: Sent, p: Packet)
    requires Usable(net) && Answers(net, s, p)
    ensures p.reply.msgid == s.request.msgid
  {}

  /** An attempt whose first wait is offered its answer. */
  lemma FirstWaitAnswers(net: Network, w: World, dst: Endpoint, request: Request, p: Packet)
    requires Usable(net) && net.sends(w.clock) && net.arrivals(w.clock + 1) == Some(p)
    requires Answers(net, Sent(dst, request), p) && LetsIn(net.filter, w.sent + [Sent(dst, request)], p.src)
    ensures Attempt(net, w, dst, request, RETRY_SEND_NUM) ==
            (World(w.clock + 2, w.sent + [Sent(dst, request)], w.msgid), Some(p))
  {
    hide Answers, LetsIn;
    ReplyNumber(net, Sent(dst, request), p);
    assert (w.sent + [Sent(dst, request)])[|w.sent|] == Sent(dst, request);
  }

  lemma OneAnswer(net: Network, ips: seq<nat>, w: World, networkType: int, i: nat, w1: World, p: Packet)
    requires Usable(net) && i < |ips|
    requires Attempt(net, w.(msgid := NextMsgid(net, w)), Endpoint(ips[i], SERVER_PORT),
                     Request(NextMsgid(net, w), networkType), RETRY_SEND_NUM) == (w1, Some(p))
    ensures Exchange(net, ips, w, networkType, 1, i) == (w1, [p])
  {
    hide Attempt;
    assert Exchange(net, ips, w1, networkType, 0, i + 1) == (w1, []);
    assert [p] + [] == [p];
  }

  /**
   An address-restricted NAT can be reported as a full cone: the symmetric probe has contacted the second server, so
   the full cone probe's answer from there is let in.
   */
  lemma AddressRestrictedReportedFullCone(a: nat, b: nat)
    requires a != b
    ensures var net := AddressRestricted(a, b);
            Usable(net) && net.filter == ByAddress && Probe(net, [a, b], World(0, [], 0)).1 == FULL_CONE_NAT
    ensures Probe(AddressRestricted(a, b), [a, b], World(0, [], 0)).0.sent == ExampleSends(a, b)
  {
    hide Answer, Table, Attempt;
    ExampleServed(a, b);
    var net, ips := AddressRestricted(a, b), [a, b];
    var first, second := Endpoint(a, SERVER_PORT), Endpoint(b, SERVER_PORT);
    var q1, q2, q3, q4 := Request(101, PUBLIC_NETWORK), Request(102, SYMMETRIC_NAT), Request(103, SYMMETRIC_NAT),
        Request(104, FULL_CONE_NAT);
    var s1 := [] + [Sent(first, q1)];
    assert s1[0].dst.ip == a;
    FirstWaitAnswers(net, World(0, [], 101), first, q1, Packet(first, Response(101, 0, 0)));
    var s2 := s1 + [Sent(first, q2)];
    assert s2[0].dst.ip == a;
    FirstWaitAnswers(net, World(2, s1, 102), first, q2, Packet(first, Response(102, 0, 0)));
    var s3 := s2 + [Sent(second, q3)];
    assert s3[2].dst.ip == b;
    FirstWaitAnswers(net, World(4, s2, 103), second, q3, Packet(second, Response(103, 0, 0)));
    var s4 := s3 + [Sent(first, q4)];
    assert s4[2].dst.ip == b;
    FirstWaitAnswers(net, World(6, s3, 104), first, q4, Packet(Endpoint(b, SERVER_PORT + 1), Response(104, 0, 0)));
    hide Answers, LetsIn;
    OneAnswer(net, ips, World(0, [], 0), PUBLIC_NETWORK, 0, World(2, s1, 101), Packet(first, Response(101, 0, 0)));
    OneAnswer(net, ips, World(4, s2, 102), SYMMETRIC_NAT, 1, World(6, s3, 103), Packet(second, Response(103, 0, 0)));
    assert Exchange(net, ips, World(2, s1, 101), SYMMETRIC_NAT, 2, 0) ==
           (World(6, s3, 103), [Packet(first, Response(102, 0, 0))] + [Packet(second, Response(103, 0, 0))]);
    OneAnswer(net, ips, World(6, s3, 103), FULL_CONE_NAT, 0, World(8, s4, 104),
        Packet(Endpoint(b, SERVER_PORT + 1), Response(104, 0, 0)));
    assert s4 == ExampleSends(a, b);
  }
}
