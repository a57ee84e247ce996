/**
 Exactly when an address-restricted NAT can be reported as a full cone: when some server the client asks answers the
 full cone probe from the address of a server the client asks.
 */
module NatExact {
  import opened Common
  import opened NatServer
  import opened NatMessage
  import opened NatProbe
  import opened NatSafety

  /** Asked by the client, some server answers the full cone probe from an address the client also asks. */
  ghost predicate AnswersFromAsked(addr: seq<Addr>, ips: seq<nat>, x: nat)
    requires |addr| == SOCKET_NUM && addr[SOCKET_NUM - 1].port != SERVER_PORT
  {
    && x < |ips| && Answer(addr, Endpoint(ips[x], SERVER_PORT), FULL_CONE_NAT).Some?
    && Answer(addr, Endpoint(ips[x], SERVER_PORT), FULL_CONE_NAT).value.ip in ips
  }

  // ----- Only the client's servers are contacted ------------------------------------------------------------

  ghost predicate AsksOnly(w: World, ips: seq<nat>) {
    forall k | 0 <= k < |w.sent| :: w.sent[k].dst.ip in ips
  }

  lemma {:induction false} AttemptAsks(net: Network, ips: seq<nat>, w: World, dst: Endpoint, request: Request,
                                       retry: nat)
    requires Usable(net) && AsksOnly(w, ips) && dst.ip in ips
    ensures AsksOnly(Attempt(net, w, dst, request, retry).0, ips)
    decreases retry
  {
    hide Explained, LetsIn;
    if retry > 0 {
      var (w1, ok) := Send(net, w, dst, request);
      assert AsksOnly(w1, ips);
      if ok {
        var (w2, p) := Receive(net, w1);
        AttemptAsks(net, ips, w2, dst, request, retry - 1);
      }
    }
  }

  lemma {:induction false} ExchangeAsks(net: Network, ips: seq<nat>, w: World, networkType: int, want: nat, i: nat)
    requires Usable(net) && AsksOnly(w, ips)
    ensures AsksOnly(Exchange(net, ips, w, networkType, want, i).0, ips)
    decreases |ips| - i
  {
    hide Attempt;
    if i < |ips| && want > 0 {
      var request := Request(NextMsgid(net, w), networkType);
      AttemptAsks(net, ips, w.(msgid := request.msgid), Endpoint(ips[i], SERVER_PORT), request, RETRY_SEND_NUM);
      var (w1, p) := Attempt(net, w.(msgid := request.msgid), Endpoint(ips[i], SERVER_PORT), request, RETRY_SEND_NUM);
      ExchangeAsks(net, ips, w1, networkType, if p.Some? then want - 1 else want, i + 1);
    }
  }

  lemma ProbeAsks(net: Network, ips: seq<nat>, w: World)
    requires Usable(net) && AsksOnly(w, ips)
    ensures AsksOnly(Probe(net, ips, w).0, ips)
  {
    hide Exchange, AsksOnly;
    ExchangeAsks(net, ips, w, PUBLIC_NETWORK, 1, 0);
    var w1 := Exchange(net, ips, w, PUBLIC_NETWORK, 1, 0).0;
    ExchangeAsks(net, ips, w1, SYMMETRIC_NAT, 2, 0);
    var w2 := Exchange(net, ips, w1, SYMMETRIC_NAT, 2, 0).0;
    ExchangeAsks(net, ips, w2, FULL_CONE_NAT, 1, 0);
    var w3 := Exchange(net, ips, w2, FULL_CONE_NAT, 1, 0).0;
    ExchangeAsks(net, ips, w3, RESTRICTED_CONE_NAT, 1, 0);
    ExchangeAsks(net, ips, Exchange(net, ips, w3, RESTRICTED_CONE_NAT, 1, 0).0, PORT_RESTRICTED_CONE_NAT, 1, 0);
  }

  // ----- A silent network -----------------------------------------------------------------------------------

  ghost predicate SilentFor(net: Network, from: nat, to: nat) {
    forall c | from <= c < to :: net.sends(c) && net.arrivals(c) == None
  }

  lemma SilentAttempt(net: Network, w: World, dst: Endpoint, request: Request)
    requires Usable(net) && SilentFor(net, w.clock, w.clock + 4)
    ensures Attempt(net, w, dst, request, RETRY_SEND_NUM) ==
            (World(w.clock + 4, w.sent + [Sent(dst, request)] + [Sent(dst, request)], w.msgid), None)
  {
    hide Explained, LetsIn;
    var w2 := World(w.clock + 2, w.sent + [Sent(dst, request)], w.msgid);
    var w4 := World(w.clock + 4, w2.sent + [Sent(dst, request)], w.msgid);
    assert Attempt(net, w4, dst, request, 0) == (w4, None);
    assert Attempt(net, w2, dst, request, 1) == (w4, None);
  }

  /** Nothing comes back: every server from i on is asked in vain. */
  lemma {:induction false} SilentExchange(net: Network, ips: seq<nat>, w: World, networkType: int, want: nat, i: nat)
    returns (w': World)
    requires Usable(net) && want > 0 && i <= |ips| && w.msgid > 0
    requires SilentFor(net, w.clock, w.clock + 4 * (|ips| - i))
    ensures Exchange(net, ips, w, networkType, want, i) == (w', [])
    ensures w'.clock == w.clock + 4 * (|ips| - i) && w'.msgid == w.msgid + (|ips| - i) && w.sent <= w'.sent
    ensures forall k | i <= k < |ips| :: exists s | s in w'.sent :: s.dst == Endpoint(ips[k], SERVER_PORT)
    decreases |ips| - i
  {
    hide Attempt;
    w' := w;
    if i < |ips| {
      var dst, request := Endpoint(ips[i], SERVER_PORT), Request(w.msgid + 1, networkType);
      SilentAttempt(net, w.(msgid := w.msgid + 1), dst, request);
      var w1 := World(w.clock + 4, w.sent + [Sent(dst, request)] + [Sent(dst, request)], w.msgid + 1);
      w' := SilentExchange(net, ips, w1, networkType, want, i + 1);
      assert w1.sent[|w.sent|] == Sent(dst, request) && w'.sent[|w.sent|] == w1.sent[|w.sent|];
      assert Sent(dst, request) in w'.sent;
    }
  }

  /** The first answer comes from server number x. */
  lemma {:induction false} AnswerAt(net: Network, ips: seq<nat>, w: World, i: nat, x: nat, p: Packet)
    requires Usable(net) && i <= x < |ips| && w.msgid > 0
    requires SilentFor(net, w.clock, w.clock + 4 * (x - i) + 1) && net.sends(w.clock + 4 * (x - i))
    requires net.arrivals(w.clock + 4 * (x - i) + 1) == Some(p)
    requires Answers(net, Sent(Endpoint(ips[x], SERVER_PORT), Request(w.msgid + (x - i) + 1, FULL_CONE_NAT)), p)
    requires LetsIn(net.filter, w.sent, p.src)
    ensures |Exchange(net, ips, w, FULL_CONE_NAT, 1, i).1| == 1
    decreases x - i
  {
    hide Attempt, Answers, LetsIn;
    var dst, request := Endpoint(ips[i], SERVER_PORT), Request(w.msgid + 1, FULL_CONE_NAT);
    var w0 := w.(msgid := w.msgid + 1);
    if i == x {
      LetsInLater(net.filter, w.sent, w.sent + [Sent(dst, request)], p.src);
      ReplyNumber(net, Sent(dst, request), p);
      FirstWaitAnswers(net, w0, dst, request, p);
      OneAnswer(net, ips, w, FULL_CONE_NAT, i, World(w.clock + 2, w.sent + [Sent(dst, request)], w0.msgid), p);
    } else {
      SilentAttempt(net, w0, dst, request);
      var w1 := World(w.clock + 4, w.sent + [Sent(dst, request)] + [Sent(dst, request)], w0.msgid);
      LetsInLater(net.filter, w.sent, w1.sent, p.src);
      AnswerAt(net, ips, w1, i + 1, x, p);
    }
  }

  // ----- The exact condition ----------------------------------------------------------------------------------

  /** A network with the given table that filters on addresses and delivers one packet, at one moment. */
  function OneDelivery(addr: seq<Addr>, pid: nat, at: nat, p: Packet): Network {
    Network(addr, ByAddress, _ => Endpoint(0, 0), _ => true,
            clock => if clock == at then Some(p) else None, _ => false, pid)
  }

  lemma MisreportPossible(addr: seq<Addr>, ips: seq<nat>, x: nat) returns (net: Network)
    requires |addr| == SOCKET_NUM && addr[SOCKET_NUM - 1].port != SERVER_PORT && AnswersFromAsked(addr, ips, x)
    ensures Usable(net) && net.addr == addr && net.filter == ByAddress
    ensures Probe(net, ips, World(0, [], 0)).1 == FULL_CONE_NAT
  {
    hide Answer, Exchange;
    var n, src := |ips|, Answer(addr, Endpoint(ips[x], SERVER_PORT), FULL_CONE_NAT).value;
    var p := Packet(src, Response(100 + 2 * n + x + 1, 0, 0));
    net := OneDelivery(addr, 100, 8 * n + 4 * x + 1, p);
    var w1 := SilentStart(net, ips);
    var w2 := SilentExchange(net, ips, w1, SYMMETRIC_NAT, 2, 0);
    var y :| 0 <= y < n && ips[y] == src.ip;
    var s :| s in w2.sent && s.dst == Endpoint(ips[y], SERVER_PORT);
    AnswerAt(net, ips, w2, 0, x, p);
  }

  /** The first probe, which takes the first number from the process. */
  lemma SilentStart(net: Network, ips: seq<nat>) returns (w1: World)
    requires Usable(net) && |ips| > 0 && SilentFor(net, 0, 4 * |ips|)
    ensures Exchange(net, ips, World(0, [], 0), PUBLIC_NETWORK, 1, 0) == (w1, [])
    ensures w1.clock == 4 * |ips| && w1.msgid == net.pid + |ips|
  {
    hide Attempt;
    var dst, request := Endpoint(ips[0], SERVER_PORT), Request(net.pid + 1, PUBLIC_NETWORK);
    SilentAttempt(net, World(0, [], net.pid + 1), dst, request);
    w1 := SilentExchange(net, ips, World(4, [] + [Sent(dst, request)] + [Sent(dst, request)], net.pid + 1),
        PUBLIC_NETWORK, 1, 1);
  }

  /**
   With the table as it is laid out, the misreport is possible if and only if the condition on the addresses holds.
   */
  lemma MisreportExactly(addr: seq<Addr>, servers: seq<nat>, bindings: nat -> Binding, ips: seq<nat>)
    requires Layout(addr, servers, bindings) && |servers| <= 5 && Distinct(bindings)
    requires addr[SOCKET_NUM - 1].port != SERVER_PORT
    ensures (exists net: Network :: Usable(net) && net.addr == addr && net.filter == ByAddress
                                    && Probe(net, ips, World(0, [], 0)).1 == FULL_CONE_NAT)
            <==> exists x :: AnswersFromAsked(addr, ips, x)
  {
    hide Probe, Answer;
    if x :| AnswersFromAsked(addr, ips, x) {
      var net := MisreportPossible(addr, ips, x);
    }
    if net: Network :| Usable(net) && net.addr == addr && net.filter == ByAddress
                       && Probe(net, ips, World(0, [], 0)).1 == FULL_CONE_NAT {
      var w' := Probe(net, ips, World(0, [], 0)).0;
      var before, p, s := ConeVerdict(net, servers, bindings, ips, World(0, [], 0));
      ProbeAsks(net, ips, World(0, [], 0));
      var t :| t in w'.sent && t.dst.ip == p.src.ip;
      var x :| 0 <= x < |ips| && ips[x] == s.dst.ip;
      assert AnswersFromAsked(addr, ips, x);
    }
  }

  lemma {:induction false} ListensFirst(addr: seq<Addr>, dst: Endpoint, i: nat, k: nat)
    requires i <= k < |addr| && dst.port == SERVER_PORT
    ensures Listening(addr, dst, i) == Some(k) <==>
            && addr[k].port == SERVER_PORT && addr[k].ip == dst.ip && addr[k].sock >= 0
            && forall j | i <= j < k :: !(addr[j].port == SERVER_PORT && addr[j].ip == dst.ip && addr[j].sock >= 0)
    decreases k - i
  {
    if i < k {
      ListensFirst(addr, dst, i + 1, k);
    }
  }

  /**
   Server number k of the list is the one that a request to `ip` reaches: its listening socket is the first bound one.
   */
  ghost predicate Reached(servers: seq<nat>, bindings: nat -> Binding, ip: nat, k: nat) {
    && k < |servers| && servers[k] == ip && bindings(2 * k).Bound?
    && forall j | 0 <= j < k && servers[j] == ip :: !bindings(2 * j).Bound?
  }

  lemma ReachedListens(addr: seq<Addr>, servers: seq<nat>, bindings: nat -> Binding, ip: nat, k: nat)
    requires Layout(addr, servers, bindings) && |servers| <= 5 && k < |servers|
    ensures Listening(addr, Endpoint(ip, SERVER_PORT), 0) == Some(2 * k) <==> Reached(servers, bindings, ip, k)
  {
    ListensFirst(addr, Endpoint(ip, SERVER_PORT), 0, 2 * k);
    forall i | 0 <= i < 2 * |servers|
      ensures i / 2 < |servers| && addr[i] == Addr(servers[i / 2], SERVER_PORT + i % 2, SockOf(bindings(i)))
    {
      assert addr[i] == Entry(servers, bindings, i);
    }
    assert (2 * k) / 2 == k && (2 * k) % 2 == 0;
    forall j | 0 <= j < k
      ensures addr[2 * j] == Addr(servers[j], SERVER_PORT, SockOf(bindings(2 * j)))
    {
      assert (2 * j) / 2 == j && (2 * j) % 2 == 0;
    }
    forall i | 0 <= i < 2 * k && addr[i].port == SERVER_PORT
      ensures i == 2 * (i / 2)
    {}
  }

  /**
   Neighbours k and k + 1 of the list are both asked, k is reached, and the socket on the other port of k + 1 is bound.
   */
  ghost predicate Neighbours(servers: seq<nat>, bindings: nat -> Binding, ips: seq<nat>, x: nat, k: nat) {
    && x < |ips| && Reached(servers, bindings, ips[x], k)
    && k + 1 < |servers| && bindings(2 * k + 3).Bound? && servers[k + 1] in ips
  }

  /**
   In terms of the list: the server that is reached answers from the address of the next one, so both must be asked.
   */
  lemma ConditionIsNeighbours(addr: seq<Addr>, servers: seq<nat>, bindings: nat -> Binding, ips: seq<nat>, x: nat)
    requires Layout(addr, servers, bindings) && |servers| <= 5 && Distinct(bindings)
    requires addr[SOCKET_NUM - 1].port != SERVER_PORT && x < |ips|
    ensures AnswersFromAsked(addr, ips, x) <==> exists k :: Neighbours(servers, bindings, ips, x, k)
  {
    var dst := Endpoint(ips[x], SERVER_PORT);
    if Listening(addr, dst, 0).Some? {
      hide Answer, Reached;
      AnswersFrom(addr, servers, bindings, dst, FULL_CONE_NAT);
      var k := Listening(addr, dst, 0).value / 2;
      ReachedListens(addr, servers, bindings, ips[x], k);
      if AnswersFromAsked(addr, ips, x) {
        assert Neighbours(servers, bindings, ips, x, k);
      }
      if l :| Neighbours(servers, bindings, ips, x, l) {
        ReachedListens(addr, servers, bindings, ips[x], l);
      }
    } else if l :| Neighbours(servers, bindings, ips, x, l) {
      ReachedListens(addr, servers, bindings, ips[x], l);
    }
  }

  /**
   The same for the misreport itself: it is possible if and only if some neighbours of the list are asked and bound.
   */
  lemma MisreportByList(addr: seq<Addr>, servers: seq<nat>, bindings: nat -> Binding, ips: seq<nat>)
    requires Layout(addr, servers, bindings) && |servers| <= 5 && Distinct(bindings)
    requires addr[SOCKET_NUM - 1].port != SERVER_PORT
    ensures (exists net: Network :: Usable(net) && net.addr == addr && net.filter == ByAddress
                                    && Probe(net, ips, World(0, [], 0)).1 == FULL_CONE_NAT)
            <==> exists x, k :: Neighbours(servers, bindings, ips, x, k)
  {
    hide Probe, Answer, Reached, Usable;
    MisreportExactly(addr, servers, bindings, ips);
    if x :| AnswersFromAsked(addr, ips, x) {
      ConditionIsNeighbours(addr, servers, bindings, ips, x);
    }
    if x, k :| Neighbours(servers, bindings, ips, x, k) {
      ConditionIsNeighbours(addr, servers, bindings, ips, x);
    }
  }
}
