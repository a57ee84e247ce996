/**
 Which verdict it is. The first two verdicts are told exactly by how the NAT shows the client to the servers that
 answered; and when every answer comes at once, the verdict is told by the NAT alone.
 */
module NatVerdict {
  import opened Common
  import opened NatServer
  import opened NatMessage
  import opened NatProbe
  import opened NatSafety

  // ----- The first two verdicts -----------------------------------------------------------------------------------

  /** The public verdict: the first probe is answered, by a server that sees the client at an address of its own. */
  lemma PublicExactly(net: Network, ips: seq<nat>, w: World) returns (dst: Endpoint)
    requires Usable(net) && Good(w)
    ensures var got := Exchange(net, ips, w, PUBLIC_NETWORK, 1, 0).1;
            && |got| <= 1
            && (got == [] ==> Probe(net, ips, w).1 != PUBLIC_NETWORK)
            && (|got| == 1 ==>
                  && dst.ip in ips && dst.port == SERVER_PORT
                  && (Probe(net, ips, w).1 == PUBLIC_NETWORK <==> net.local(net.mapping(dst).ip)))
  {
    hide Exchange, Evidence, Good;
    var got := Exchange(net, ips, w, PUBLIC_NETWORK, 1, 0).1;
    var ss := ExchangeKeeps(net, ips, w, PUBLIC_NETWORK, 1, 0);
    NotPublicLater(net, ips, w);
    if |got| == 1 {
      SeenAt(net, ips, w, Exchange(net, ips, w, PUBLIC_NETWORK, 1, 0).0, PUBLIC_NETWORK, got[0], ss[0]);
      dst := ss[0].dst;
    } else {
      dst := Endpoint(0, 0);
    }
  }

  lemma NotPublicLater(net: Network, ips: seq<nat>, w: World)
    requires Usable(net)
    ensures var got := Exchange(net, ips, w, PUBLIC_NETWORK, 1, 0).1;
            Probe(net, ips, w).1 == PUBLIC_NETWORK <==> |got| == 1 && net.local(got[0].reply.ipAddr)
  {
    hide Exchange;
  }

  lemma SeenAt(net: Network, ips: seq<nat>, w: World, w': World, networkType: int, p: Packet, s: Sent)
    requires Usable(net) && Evidence(net, ips, w, w', networkType, p, s)
    ensures s.dst.ip in ips && s.dst.port == SERVER_PORT
    ensures p.reply.ipAddr == net.mapping(s.dst).ip && p.reply.port == net.mapping(s.dst).port
  {}

  /** The world after the first probe. */
  function AfterFirst(net: Network, ips: seq<nat>, w: World): World
    requires Usable(net)
  {
    Exchange(net, ips, w, PUBLIC_NETWORK, 1, 0).0
  }

  /**
   The symmetric verdict, after a first probe that is not public: two servers answer the second probe, and the NAT shows
   the client to them at different addresses or ports.
   */
  lemma SymmetricExactly(net: Network, ips: seq<nat>, w: World) returns (dst: Endpoint, other: Endpoint)
    requires Usable(net) && Good(w) && Probe(net, ips, w).1 != PUBLIC_NETWORK
    ensures var got := Exchange(net, ips, AfterFirst(net, ips, w), SYMMETRIC_NAT, 2, 0).1;
            && |got| <= 2
            && (|got| < 2 ==> Probe(net, ips, w).1 != SYMMETRIC_NAT)
            && (|got| == 2 ==>
                  && dst.ip in ips && other.ip in ips && dst.port == other.port == SERVER_PORT
                  && (Probe(net, ips, w).1 == SYMMETRIC_NAT <==> net.mapping(dst) != net.mapping(other)))
  {
    hide Exchange, Evidence, Good, Probe;
    var first := ExchangeKeeps(net, ips, w, PUBLIC_NETWORK, 1, 0);
    var w1 := AfterFirst(net, ips, w);
    var (w2, got) := Exchange(net, ips, w1, SYMMETRIC_NAT, 2, 0);
    var ss := ExchangeKeeps(net, ips, w1, SYMMETRIC_NAT, 2, 0);
    SymmetricByReplies(net, ips, w);
    dst, other := Endpoint(0, 0), Endpoint(0, 0);
    if |got| == 2 {
      SeenAt(net, ips, w1, w2, SYMMETRIC_NAT, got[0], ss[0]);
      SeenAt(net, ips, w1, w2, SYMMETRIC_NAT, got[1], ss[1]);
      dst, other := ss[0].dst, ss[1].dst;
    }
  }

  lemma SymmetricByReplies(net: Network, ips: seq<nat>, w: World)
    requires Usable(net) && Probe(net, ips, w).1 != PUBLIC_NETWORK
    ensures var got := Exchange(net, ips, AfterFirst(net, ips, w), SYMMETRIC_NAT, 2, 0).1;
            Probe(net, ips, w).1 == SYMMETRIC_NAT <==>
            |got| == 2 && (got[0].reply.ipAddr, got[0].reply.port) != (got[1].reply.ipAddr, got[1].reply.port)
  {
    hide Exchange;
  }

  // ----- When every answer comes at once --------------------------------------------------------------------------

  /** What the servers send for a request, if anything. */
  function Due(net: Network, s: Sent): Option<Packet>
    requires Usable(net)
  {
    match Answer(net.addr, s.dst, s.request.networkType)
    case None => None
    case Some(src) => Some(Packet(src, Response(s.request.msgid, net.mapping(s.dst).ip, net.mapping(s.dst).port)))
  }

  /** Every request is sent, and the wait after it is offered its answer; a request and its wait are two events. */
  ghost predicate Prompt(net: Network, w: World, all: seq<Sent>)
    requires Usable(net)
  {
    w.sent <= all && forall k {:trigger all[k]} | |w.sent| <= k < |all| ::
      && net.sends(w.clock + 2 * (k - |w.sent|))
      && net.arrivals(w.clock + 2 * (k - |w.sent|) + 1) == Due(net, all[k])
  }

  ghost predicate InStep(w: World, w1: World) {
    w.sent <= w1.sent && w1.clock == w.clock + 2 * (|w1.sent| - |w.sent|)
  }

  /** The answer is let in. */
  ghost predicate Comes(net: Network, sent: seq<Sent>, s: Sent)
    requires Usable(net)
  {
    Due(net, s).Some? && LetsIn(net.filter, sent + [s], Due(net, s).value.src)
  }

  lemma {:induction false} AttemptSends(net: Network, w: World, dst: Endpoint, request: Request, retry: nat)
    requires Usable(net)
    ensures var w' := Attempt(net, w, dst, request, retry).0;
            && w.sent <= w'.sent && w'.msgid == w.msgid
            && (retry > 0 ==> w.sent + [Sent(dst, request)] <= w'.sent)
    decreases retry
  {
    hide Explained, LetsIn;
    if retry > 0 {
      var (w1, ok) := Send(net, w, dst, request);
      if ok {
        AttemptSends(net, Receive(net, w1).0, dst, request, retry - 1);
      }
    }
  }

  lemma {:induction false} ExchangeSends(net: Network, ips: seq<nat>, w: World, networkType: int, want: nat, i: nat)
    requires Usable(net)
    ensures w.sent <= Exchange(net, ips, w, networkType, want, i).0.sent
    decreases |ips| - i
  {
    hide Attempt;
    if i < |ips| && want > 0 {
      var request := Request(NextMsgid(net, w), networkType);
      var w0, dst := w.(msgid := request.msgid), Endpoint(ips[i], SERVER_PORT);
      AttemptSends(net, w0, dst, request, RETRY_SEND_NUM);
      var (w1, p) := Attempt(net, w0, dst, request, RETRY_SEND_NUM);
      ExchangeSends(net, ips, w1, networkType, if p.Some? then want - 1 else want, i + 1);
    }
  }

  lemma DueAnswers(net: Network, s: Sent)
    requires Usable(net) && Due(net, s).Some?
    ensures Answers(net, s, Due(net, s).value) && Due(net, s).value.reply.msgid == s.request.msgid
  {}

  /** One wait of a prompt run. */
  lemma PromptWait(net: Network, w: World, all: seq<Sent>, w1: World, s: Sent)
    requires Usable(net) && Prompt(net, w, all) && InStep(w, w1) && w1.sent + [s] <= all
    ensures var (w2, ok) := Send(net, w1, s.dst, s.request);
            && ok && Receive(net, w2) ==
                     (World(w1.clock + 2, w1.sent + [s], w1.msgid),
                      if Comes(net, w1.sent, s) then Due(net, s) else None)
  {
    hide Answers, LetsIn, Due;
    assert all[|w1.sent|] == (w1.sent + [s])[|w1.sent|] == s;
    assert (w1.sent + [s])[|w1.sent|] == s;
    if Due(net, s).Some? {
      DueAnswers(net, s);
    }
  }

  lemma LetsInAgain(filter: Filter, sent: seq<Sent>, s: Sent, src: Endpoint)
    ensures LetsIn(filter, sent + [s] + [s], src) <==> LetsIn(filter, sent + [s], src)
  {
    var once, twice := sent + [s], sent + [s] + [s];
    assert forall k | 0 <= k < |once| :: twice[k] == once[k];
    assert twice[|once|] == once[|sent|] == s;
  }

  /** An attempt of a prompt run: one request if its answer is let in, and two if not. */
  lemma PromptAttempt(net: Network, w: World, all: seq<Sent>, w1: World, dst: Endpoint, request: Request)
    requires Usable(net) && Prompt(net, w, all) && InStep(w, w1)
    requires Attempt(net, w1, dst, request, RETRY_SEND_NUM).0.sent <= all
    ensures var s := Sent(dst, request);
            && Attempt(net, w1, dst, request, RETRY_SEND_NUM) ==
               (if Comes(net, w1.sent, s) then (World(w1.clock + 2, w1.sent + [s], w1.msgid), Due(net, s))
                else (World(w1.clock + 4, w1.sent + [s] + [s], w1.msgid), None))
            && InStep(w, Attempt(net, w1, dst, request, RETRY_SEND_NUM).0)
  {
    var s, w' := Sent(dst, request), Attempt(net, w1, dst, request, RETRY_SEND_NUM).0;
    AttemptSends(net, w1, dst, request, RETRY_SEND_NUM);
    assert w1.sent + [s] <= all;
    PromptWait(net, w, all, w1, s);
    hide Prompt, LetsIn, Due, Explained, Answers;
    if Comes(net, w1.sent, s) {
      DueAnswers(net, s);
    } else {
      var w3 := World(w1.clock + 2, w1.sent + [s], w1.msgid);
      AttemptSends(net, w3, dst, request, 1);
      assert w3.sent + [s] <= all;
      PromptWait(net, w, all, w3, s);
      if Due(net, s).Some? {
        LetsInAgain(net.filter, w1.sent, s, Due(net, s).value.src);
      }
      assert Attempt(net, World(w1.clock + 4, w1.sent + [s] + [s], w1.msgid), dst, request, 0).1 == None;
    }
  }

  /** One server of a prompt exchange. */
  lemma PromptServer(net: Network, ips: seq<nat>, w: World, all: seq<Sent>, w1: World, networkType: int, want: nat,
                     i: nat) returns (w2: World, s: Sent)
    requires Usable(net) && Prompt(net, w, all) && InStep(w, w1) && i < |ips| && want > 0
    requires Exchange(net, ips, w1, networkType, want, i).0.sent <= all
    ensures s.dst == Endpoint(ips[i], SERVER_PORT) && s.request.networkType == networkType
    ensures InStep(w, w2) && w1.sent + [s] <= w2.sent
    ensures forall t | t in w2.sent :: t in w1.sent || t == s
    ensures var c := Comes(net, w1.sent, s);
            var (w3, more) := Exchange(net, ips, w2, networkType, if c then want - 1 else want, i + 1);
            Exchange(net, ips, w1, networkType, want, i) ==
            (w3, if c then [Due(net, s).value] + more else more)
  {
    hide Attempt, Prompt, Due;
    var request := Request(NextMsgid(net, w1), networkType);
    var w0, dst := w1.(msgid := request.msgid), Endpoint(ips[i], SERVER_PORT);
    s := Sent(dst, request);
    w2 := Attempt(net, w0, dst, request, RETRY_SEND_NUM).0;
    var p := Attempt(net, w0, dst, request, RETRY_SEND_NUM).1;
    ExchangeSends(net, ips, w2, networkType, if p.Some? then want - 1 else want, i + 1);
    PromptAttempt(net, w, all, w0, dst, request);
  }

  // ----- With the servers as they are laid out --------------------------------------------------------------------

  /** All sockets are bound, no server stands twice, and there are two or more. */
  ghost predicate AllBound(net: Network, servers: seq<nat>, bindings: nat -> Binding) {
    && Served(net, servers, bindings) && |servers| >= 2
    && (forall i | 0 <= i < 2 * |servers| :: bindings(i).Bound?)
    && forall i, j | 0 <= i < j < |servers| :: servers[i] != servers[j]
  }

  lemma {:induction false} ListensAt(addr: seq<Addr>, servers: seq<nat>, bindings: nat -> Binding, i: nat, k: nat)
    requires Layout(addr, servers, bindings) && |servers| <= 5 && k < |servers| && i <= 2 * k
    requires bindings(2 * k).Bound? && forall j | 0 <= j < k :: servers[j] != servers[k]
    ensures Listening(addr, Endpoint(servers[k], SERVER_PORT), i) == Some(2 * k)
    decreases 2 * k - i
  {
    assert addr[i] == Entry(servers, bindings, i);
    if i < 2 * k {
      assert i % 2 == 0 ==> i / 2 < k;
      ListensAt(addr, servers, bindings, i + 1, k);
    } else {
      assert (2 * k) / 2 == k && (2 * k) % 2 == 0;
    }
  }

  /** The three probes that a server answers itself, from where it was asked, which every NAT lets in. */
  lemma OwnAnswerComes(net: Network, servers: seq<nat>, bindings: nat -> Binding, sent: seq<Sent>, s: Sent, k: nat)
    requires AllBound(net, servers, bindings) && k < |servers| && s.dst == Endpoint(servers[k], SERVER_PORT)
    requires s.request.networkType in {PUBLIC_NETWORK, SYMMETRIC_NAT, PORT_RESTRICTED_CONE_NAT}
    ensures Usable(net) && Comes(net, sent, s)
    ensures Due(net, s).value.reply == Response(s.request.msgid, net.mapping(s.dst).ip, net.mapping(s.dst).port)
  {
    hide Answer, Layout;
    ServedIsUsable(net, servers, bindings);
    ListensAt(net.addr, servers, bindings, 0, k);
    AnswersFrom(net.addr, servers, bindings, s.dst, s.request.networkType);
    assert (sent + [s])[|sent|] == s;
  }

  /** The other two come from second ports, which a NAT that filters on ports never lets in. */
  lemma PortFilterDrops(net: Network, servers: seq<nat>, bindings: nat -> Binding, sent: seq<Sent>, s: Sent)
    requires Served(net, servers, bindings) && Usable(net) && net.filter == ByAddressAndPort
    requires s.request.networkType == FULL_CONE_NAT || s.request.networkType == RESTRICTED_CONE_NAT
    requires forall t | t in sent + [s] :: t.dst.port == SERVER_PORT
    ensures !Comes(net, sent, s)
  {
    hide Answer, Layout;
    if Due(net, s).Some? {
      var p, all := Due(net, s).value, sent + [s];
      DueAnswers(net, s);
      ConeAnswerPort(net, servers, bindings, s, p);
      forall k | 0 <= k < |all|
        ensures all[k].dst != p.src
      {
        assert all[k] in all;
      }
    }
  }

  /** The full cone probe of the first server is answered from the second, which the symmetric probe has contacted. */
  lemma NeighbourComes(net: Network, servers: seq<nat>, bindings: nat -> Binding, sent: seq<Sent>, s: Sent, t: Sent)
    requires AllBound(net, servers, bindings) && Usable(net) && net.filter != ByAddressAndPort
    requires s.dst == Endpoint(servers[0], SERVER_PORT) && s.request.networkType == FULL_CONE_NAT
    requires t in sent && t.dst.ip == servers[1]
    ensures Comes(net, sent, s)
  {
    hide Answer, Layout;
    ListensAt(net.addr, servers, bindings, 0, 0);
    AnswersFrom(net.addr, servers, bindings, s.dst, FULL_CONE_NAT);
    var k :| 0 <= k < |sent| && sent[k] == t;
    assert (sent + [s])[k] == t;
  }

  lemma {:induction false} DroppedExchange(net: Network, servers: seq<nat>, bindings: nat -> Binding, w: World,
                                           all: seq<Sent>, w1: World, networkType: int, i: nat) returns (w2: World)
    requires Served(net, servers, bindings) && Usable(net) && net.filter == ByAddressAndPort
    requires Prompt(net, w, all) && InStep(w, w1) && i <= |servers|
    requires networkType == FULL_CONE_NAT || networkType == RESTRICTED_CONE_NAT
    requires forall t | t in w1.sent :: t.dst.port == SERVER_PORT
    requires Exchange(net, servers, w1, networkType, 1, i).0.sent <= all
    ensures Exchange(net, servers, w1, networkType, 1, i) == (w2, [])
    ensures InStep(w, w2) && forall t | t in w2.sent :: t.dst.port == SERVER_PORT
    decreases |servers| - i
  {
    w2 := w1;
    if i < |servers| {
      var w3, s := PromptServer(net, servers, w, all, w1, networkType, 1, i);
      PortFilterDrops(net, servers, bindings, w1.sent, s);
      hide Prompt, Served, Comes, Due;
      w2 := DroppedExchange(net, servers, bindings, w, all, w3, networkType, i + 1);
    }
  }

  /** A probe that the first server answers itself. */
  lemma OneAnswered(net: Network, servers: seq<nat>, bindings: nat -> Binding, w: World, all: seq<Sent>, w1: World,
                    networkType: int) returns (w2: World, s: Sent)
    requires AllBound(net, servers, bindings) && Usable(net) && Prompt(net, w, all) && InStep(w, w1)
    requires networkType == PUBLIC_NETWORK || networkType == PORT_RESTRICTED_CONE_NAT
    requires Exchange(net, servers, w1, networkType, 1, 0).0.sent <= all
    requires forall t | t in w1.sent :: t.dst.port == SERVER_PORT
    ensures Due(net, s).Some? && Exchange(net, servers, w1, networkType, 1, 0) == (w2, [Due(net, s).value])
    ensures InStep(w, w2) && forall t | t in w2.sent :: t.dst.port == SERVER_PORT
    ensures var a := net.mapping(Endpoint(servers[0], SERVER_PORT));
            Due(net, s).value.reply.ipAddr == a.ip && Due(net, s).value.reply.port == a.port
  {
    w2, s := PromptServer(net, servers, w, all, w1, networkType, 1, 0);
    OwnAnswerComes(net, servers, bindings, w1.sent, s, 0);
    hide Prompt, AllBound, Due;
    NothingWanted(net, servers, w2, networkType, 1);
    assert [Due(net, s).value] + [] == [Due(net, s).value];
  }

  lemma NothingWanted(net: Network, ips: seq<nat>, w: World, networkType: int, i: nat)
    requires Usable(net)
    ensures Exchange(net, ips, w, networkType, 0, i) == (w, [])
  {}

  /** The symmetric probe: the first two servers answer. */
  lemma TwoAnswered(net: Network, servers: seq<nat>, bindings: nat -> Binding, w: World, all: seq<Sent>, w1: World)
    returns (w3: World, p: Packet, q: Packet, t: Sent)
    requires AllBound(net, servers, bindings) && Usable(net) && Prompt(net, w, all) && InStep(w, w1)
    requires Exchange(net, servers, w1, SYMMETRIC_NAT, 2, 0).0.sent <= all
    requires forall t | t in w1.sent :: t.dst.port == SERVER_PORT
    ensures Exchange(net, servers, w1, SYMMETRIC_NAT, 2, 0) == (w3, [p, q])
    ensures InStep(w, w3) && forall t | t in w3.sent :: t.dst.port == SERVER_PORT
    ensures t in w3.sent && t.dst == Endpoint(servers[1], SERVER_PORT)
    ensures var a, b := net.mapping(Endpoint(servers[0], SERVER_PORT)), net.mapping(Endpoint(servers[1], SERVER_PORT));
            && p.reply.ipAddr == a.ip && p.reply.port == a.port && q.reply.ipAddr == b.ip && q.reply.port == b.port
  {
    var w2, s := PromptServer(net, servers, w, all, w1, SYMMETRIC_NAT, 2, 0);
    OwnAnswerComes(net, servers, bindings, w1.sent, s, 0);
    w3, t := PromptServer(net, servers, w, all, w2, SYMMETRIC_NAT, 1, 1);
    OwnAnswerComes(net, servers, bindings, w2.sent, t, 1);
    hide Prompt, AllBound, Due;
    NothingWanted(net, servers, w3, SYMMETRIC_NAT, 2);
    p, q := Due(net, s).value, Due(net, t).value;
    assert [p] + ([q] + []) == [p, q];
    assert (w2.sent + [t])[|w2.sent|] == t;
  }

  /** The last three probes: a full cone unless ports are filtered, and then restricted by ports. */
  lemma ConePart(net: Network, servers: seq<nat>, bindings: nat -> Binding, w: World, all: seq<Sent>, w1: World,
                 t: Sent)
    requires AllBound(net, servers, bindings) && Usable(net) && Prompt(net, w, all) && InStep(w, w1)
    requires ConeProbe(net, servers, w1).0.sent <= all
    requires t in w1.sent && t.dst.ip == servers[1] && forall t | t in w1.sent :: t.dst.port == SERVER_PORT
    ensures ConeProbe(net, servers, w1).1 ==
            if net.filter == ByAddressAndPort then PORT_RESTRICTED_CONE_NAT else FULL_CONE_NAT
  {
    ConeSends(net, servers, w1);
    if net.filter == ByAddressAndPort {
      var w2 := DroppedExchange(net, servers, bindings, w, all, w1, FULL_CONE_NAT, 0);
      var w3 := DroppedExchange(net, servers, bindings, w, all, w2, RESTRICTED_CONE_NAT, 0);
      var w4, s := OneAnswered(net, servers, bindings, w, all, w3, PORT_RESTRICTED_CONE_NAT);
    } else {
      var w2, s := PromptServer(net, servers, w, all, w1, FULL_CONE_NAT, 1, 0);
      NeighbourComes(net, servers, bindings, w1.sent, s, t);
      hide Prompt, AllBound, Due;
      NothingWanted(net, servers, w2, FULL_CONE_NAT, 1);
    }
  }

  lemma ConeSends(net: Network, ips: seq<nat>, w: World)
    requires Usable(net)
    ensures var w2 := Exchange(net, ips, w, FULL_CONE_NAT, 1, 0).0;
            var w3 := Exchange(net, ips, w2, RESTRICTED_CONE_NAT, 1, 0).0;
            var w4 := Exchange(net, ips, w3, PORT_RESTRICTED_CONE_NAT, 1, 0).0;
            && w.sent <= w2.sent <= w3.sent <= w4.sent
            && w2.sent <= ConeProbe(net, ips, w).0.sent
            && (|Exchange(net, ips, w, FULL_CONE_NAT, 1, 0).1| != 1 ==> w3.sent <= ConeProbe(net, ips, w).0.sent)
  {
    hide Exchange;
    var w2 := Exchange(net, ips, w, FULL_CONE_NAT, 1, 0).0;
    var w3 := Exchange(net, ips, w2, RESTRICTED_CONE_NAT, 1, 0).0;
    ExchangeSends(net, ips, w, FULL_CONE_NAT, 1, 0);
    ExchangeSends(net, ips, w2, RESTRICTED_CONE_NAT, 1, 0);
    ExchangeSends(net, ips, w3, PORT_RESTRICTED_CONE_NAT, 1, 0);
  }

  /**
   The verdict of a run in which every request is sent and every answer that the NAT lets in arrives at once: public if
   the first server sees an address of the client's own, symmetric if the first two see it differently, restricted by
   ports if ports are filtered, and otherwise a full cone, also where addresses are filtered.
   */
  lemma PromptVerdict(net: Network, servers: seq<nat>, bindings: nat -> Binding, w: World)
    requires AllBound(net, servers, bindings) && Usable(net) && Good(w)
    requires Prompt(net, w, Probe(net, servers, w).0.sent)
    ensures var a, b := Endpoint(servers[0], SERVER_PORT), Endpoint(servers[1], SERVER_PORT);
            Probe(net, servers, w).1 ==
            if net.local(net.mapping(a).ip) then PUBLIC_NETWORK
            else if net.mapping(a) != net.mapping(b) then SYMMETRIC_NAT
            else if net.filter == ByAddressAndPort then PORT_RESTRICTED_CONE_NAT
            else FULL_CONE_NAT
  {
    var all := Probe(net, servers, w).0.sent;
    ProbeSends(net, servers, w);
    var w1, s := OneAnswered(net, servers, bindings, w, all, w, PUBLIC_NETWORK);
    hide Prompt, AllBound, Due, Exchange, ConeProbe;
    if !net.local(Due(net, s).value.reply.ipAddr) {
      var w2, p, q, t := TwoAnswered(net, servers, bindings, w, all, w1);
      if !IsSymmetric([p, q]) {
        ConePart(net, servers, bindings, w, all, w2, t);
      }
    }
  }

  lemma ProbeSends(net: Network, ips: seq<nat>, w: World)
    requires Usable(net)
    ensures var (w1, a) := Exchange(net, ips, w, PUBLIC_NETWORK, 1, 0);
            var (w2, b) := Exchange(net, ips, w1, SYMMETRIC_NAT, 2, 0);
            && w1.sent <= Probe(net, ips, w).0.sent
            && (!IsPublic(net, a) ==> w2.sent <= Probe(net, ips, w).0.sent)
            && (!IsPublic(net, a) && !IsSymmetric(b) ==> Probe(net, ips, w) == ConeProbe(net, ips, w2))
  {
    hide Exchange;
    var w1 := Exchange(net, ips, w, PUBLIC_NETWORK, 1, 0).0;
    var w2 := Exchange(net, ips, w1, SYMMETRIC_NAT, 2, 0).0;
    ExchangeSends(net, ips, w1, SYMMETRIC_NAT, 2, 0);
    ConeSends(net, ips, w2);
  }

  /** There are such runs: the one that reports an address-restricted NAT as a full cone. */
  lemma ExampleIsPrompt(a: nat, b: nat)
    requires a != b
    ensures var net := AddressRestricted(a, b);
            && Usable(net) && AllBound(net, [a, b], BoundTo)
            && Prompt(net, World(0, [], 0), Probe(net, [a, b], World(0, [], 0)).0.sent)
  {
    hide Answer, Probe, Layout;
    ExampleServed(a, b);
    AddressRestrictedReportedFullCone(a, b);
    assert Distinct(BoundTo);
  }
}
