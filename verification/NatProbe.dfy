/**
 The probe itself. The network loses, delays and repeats messages at will: `arrivals` says what, if anything, each wait
 for a message is offered, and an offer reaches the client only if some request that was sent explains it and the NAT
 lets it in. What a verdict rests on is proved for every such network.
 */
module NatProbe {
  import opened Common
  import opened NatServer
  import opened NatMessage

  const UNKNOWN: int := 0
  const RETRY_SEND_NUM: nat := 2

  /** What the NAT lets in: anything, only from addresses contacted, only from addresses and ports contacted. */
  datatype Filter = Open | ByAddress | ByAddressAndPort

  datatype Sent = Sent(dst: Endpoint, request: Request)

  datatype Packet = Packet(src: Endpoint, reply: Response)

  /** The world the client runs in; `mapping` is how the NAT shows the client to each address. */
  datatype Network = Network(
    addr: seq<Addr>,
    filter: Filter,
    mapping: Endpoint -> Endpoint,
    sends: nat -> bool,
    arrivals: nat -> Option<Packet>,
    local: nat -> bool,
    pid: nat)

  /** How many events there have been, what was sent, and the last message number. */
  datatype World = World(clock: nat, sent: seq<Sent>, msgid: nat)

  predicate Usable(net: Network) {
    |net.addr| == SOCKET_NUM && net.addr[SOCKET_NUM - 1].port != SERVER_PORT && net.pid > 0
  }

  // ----- The network --------------------------------------------------------------------------------------------

  predicate LetsIn(filter: Filter, sent: seq<Sent>, src: Endpoint) {
    match filter
    case Open => true
    case ByAddress => exists k | 0 <= k < |sent| :: sent[k].dst.ip == src.ip
    case ByAddressAndPort => exists k | 0 <= k < |sent| :: sent[k].dst == src
  }

  /** The packet answers this request. */
  predicate Answers(net: Network, s: Sent, p: Packet)
    requires Usable(net)
  {
    && Answer(net.addr, s.dst, s.request.networkType) == Some(p.src)
    && p.reply == Response(s.request.msgid, net.mapping(s.dst).ip, net.mapping(s.dst).port)
  }

  predicate Explained(net: Network, sent: seq<Sent>, p: Packet)
    requires Usable(net)
  {
    exists k | 0 <= k < |sent| :: Answers(net, sent[k], p)
  }

  function Send(net: Network, w: World, dst: Endpoint, request: Request): (World, bool) {
    (World(w.clock + 1, w.sent + [Sent(dst, request)], w.msgid), net.sends(w.clock))
  }

  /** What the next wait brings; nothing at the timeout, and nothing for a message that cannot be read. */
  function Receive(net: Network, w: World): (World, Option<Packet>)
    requires Usable(net)
  {
    var offer := net.arrivals(w.clock);
    (w.(clock := w.clock + 1),
     if offer.Some? && Explained(net, w.sent, offer.value)
         && LetsIn(net.filter, w.sent, offer.value.src) then offer else None)
  }

  // ----- The client, as functions ---------------------------------------------------------------------------------

  function NextMsgid(net: Network, w: World): nat {
    (if w.msgid == 0 then net.pid else w.msgid) + 1
  }

  /** Sends one request up to `retry` times, until the answer with its number arrives. */
  function Attempt(net: Network, w: World, dst: Endpoint, request: Request, retry: nat): (World, Option<Packet>)
    requires Usable(net)
    decreases retry
  {
    if retry == 0 then (w, None)
    else
      var (w1, ok) := Send(net, w, dst, request);
      if !ok then (w1, None)
      else
        var (w2, p) := Receive(net, w1);
        if p.Some? && p.value.reply.msgid == request.msgid then (w2, p) else Attempt(net, w2, dst, request, retry - 1)
  }

  /** Asks the servers from number i on until `want` of them have answered. */
  function Exchange(net: Network, ips: seq<nat>, w: World, networkType: int, want: nat, i: nat): (World, seq<Packet>)
    requires Usable(net)
    decreases |ips| - i
  {
    if i >= |ips| || want == 0 then (w, [])
    else
      var request := Request(NextMsgid(net, w), networkType);
      var (w1, p) := Attempt(net, w.(msgid := request.msgid), Endpoint(ips[i], SERVER_PORT), request, RETRY_SEND_NUM);
      if p.Some? then
        var (w2, more) := Exchange(net, ips, w1, networkType, want - 1, i + 1);
        (w2, [p.value] + more)
      else Exchange(net, ips, w1, networkType, want, i + 1)
  }

  function IsPublic(net: Network, got: seq<Packet>): bool {
    |got| == 1 && net.local(got[0].reply.ipAddr)
  }

  function IsSymmetric(got: seq<Packet>): bool {
    |got| == 2 && (got[0].reply.ipAddr != got[1].reply.ipAddr || got[0].reply.port != got[1].reply.port)
  }

  /** The five probes in order, and the first that succeeds. */
  function Probe(net: Network, ips: seq<nat>, w: World): (World, int)
    requires Usable(net)
  {
    var (w1, a) := Exchange(net, ips, w, PUBLIC_NETWORK, 1, 0);
    if IsPublic(net, a) then (w1, PUBLIC_NETWORK)
    else
      var (w2, b) := Exchange(net, ips, w1, SYMMETRIC_NAT, 2, 0);
      if IsSymmetric(b) then (w2, SYMMETRIC_NAT)
      else
        var (w3, c) := Exchange(net, ips, w2, FULL_CONE_NAT, 1, 0);
        if |c| == 1 then (w3, FULL_CONE_NAT)
        else
          var (w4, d) := Exchange(net, ips, w3, RESTRICTED_CONE_NAT, 1, 0);
          if |d| == 1 then (w4, RESTRICTED_CONE_NAT)
          else
            var (w5, e) := Exchange(net, ips, w4, PORT_RESTRICTED_CONE_NAT, 1, 0);
            (w5, if |e| == 1 then PORT_RESTRICTED_CONE_NAT else UNKNOWN)
  }

  // ----- The client, as it runs -------------------------------------------------------------------------------------

  class NpClient {
    const net: Network
    const ipAddr: seq<nat>
    const sendMsg: array<Request>
    const recvMsg: array<Response>
    var clock: nat
    var sent: seq<Sent>
    var msgid: nat
    var networkType: int

    ghost predicate Valid()
      reads this
    {
      Usable(net) && sendMsg.Length == recvMsg.Length == PUBLIC_IP_NUM
    }

    function Now(): World
      reads this
    {
      World(clock, sent, msgid)
    }

    constructor (net: Network, ipAddr: seq<nat>)
      requires Usable(net)
      ensures Valid() && this.net == net && this.ipAddr == ipAddr && Now() == World(0, [], 0) && networkType == UNKNOWN
      ensures fresh(sendMsg) && fresh(recvMsg)
    {
      this.net, this.ipAddr := net, ipAddr;
      sendMsg := new Request[PUBLIC_IP_NUM](_ => Request(0, 0));
      recvMsg := new Response[PUBLIC_IP_NUM](_ => Response(0, 0, 0));
      clock, sent, msgid, networkType := 0, [], 0, UNKNOWN;
    }

    method GenerateMsgid() returns (id: nat)
      requires Valid()
      modifies `msgid
      ensures id == msgid == NextMsgid(net, old(Now()))
    {
      if msgid == 0 {
        msgid := net.pid;
      }
      msgid := msgid + 1;
      id := msgid;
    }

    method SendMsg(idx: nat, dst: Endpoint) returns (ok: bool)
      requires Valid() && idx < PUBLIC_IP_NUM
      modifies `clock, `sent
      ensures (Now(), ok) == Send(net, old(Now()), dst, sendMsg[idx])
    {
      ok := net.sends(clock);
      sent := sent + [Sent(dst, sendMsg[idx])];
      clock := clock + 1;
    }

    method RecvMsg(idx: nat) returns (ok: bool, ghost p: Option<Packet>)
      requires Valid() && idx < PUBLIC_IP_NUM
      modifies `clock, recvMsg
      ensures (Now(), p) == Receive(net, old(Now())) && ok == p.Some?
      ensures recvMsg[idx] == if ok then p.value.reply else old(recvMsg[idx])
      ensures forall k | 0 <= k < PUBLIC_IP_NUM && k != idx :: recvMsg[k] == old(recvMsg[k])
    {
      var offer := net.arrivals(clock);
      clock := clock + 1;
      ok := offer.Some? && Explained(net, sent, offer.value) && LetsIn(net.filter, sent, offer.value.src);
      p := if ok then offer else None;
      if ok {
        recvMsg[idx] := offer.value.reply;
      }
    }

    /** The retry loop for one server. */
    method SendAndRecvOne(j: nat, dst: Endpoint) returns (got: bool, ghost p: Option<Packet>)
      requires Valid() && j < PUBLIC_IP_NUM
      modifies `clock, `sent, recvMsg
      ensures (Now(), p) == Attempt(net, old(Now()), dst, sendMsg[j], RETRY_SEND_NUM) && got == p.Some?
      ensures got ==> recvMsg[j] == p.value.reply
      ensures forall k | 0 <= k < PUBLIC_IP_NUM && k != j :: recvMsg[k] == old(recvMsg[k])
    {
      var retryNum := RETRY_SEND_NUM;
      got, p := false, None;
      ghost var goal := Attempt(net, Now(), dst, sendMsg[j], retryNum);
      while retryNum > 0
        invariant Attempt(net, Now(), dst, sendMsg[j], retryNum) == goal
        invariant forall k | 0 <= k < PUBLIC_IP_NUM && k != j :: recvMsg[k] == old(recvMsg[k])
      {
        retryNum := retryNum - 1;
        var ok := SendMsg(j, dst);
        if !ok {
          return;
        }
        ghost var q;
        ok, q := RecvMsg(j);
        if ok && recvMsg[j].msgid == sendMsg[j].msgid {
          return true, q;
        }
      }
    }

    method NpSendAndRecvMsg(networkType: int, sendMsgNum: nat) returns (ok: bool, ghost got: seq<Packet>)
      requires Valid() && sendMsgNum <= PUBLIC_IP_NUM
      modifies `clock, `sent, `msgid, sendMsg, recvMsg
      ensures (Now(), got) == Exchange(net, ipAddr, old(Now()), networkType, sendMsgNum, 0)
      ensures ok <==> |got| == sendMsgNum
      ensures ok ==> forall k | 0 <= k < sendMsgNum :: recvMsg[k] == got[k].reply
    {
      hide Exchange, Attempt, NextMsgid, Before;
      var i, j := 0, 0;
      got := [];
      ghost var goal := Exchange(net, ipAddr, Now(), networkType, sendMsgNum, 0);
      BeforeAll(goal);
      while i < |ipAddr| && j < sendMsgNum
        invariant 0 <= i <= |ipAddr| && 0 <= j <= sendMsgNum && |got| == j
        invariant forall k | 0 <= k < j :: recvMsg[k] == got[k].reply
        invariant Before(got, Exchange(net, ipAddr, Now(), networkType, sendMsgNum - j, i)) == goal
        decreases |ipAddr| - i
      {
        ghost var w := Now();
        var id := GenerateMsgid();
        sendMsg[j] := Request(id, networkType);
        ghost var p;
        var one;
        one, p := SendAndRecvOne(j, Endpoint(ipAddr[i], SERVER_PORT));
        ExchangeStep(net, ipAddr, w, networkType, sendMsgNum - j, i, Now(), p, got);
        if one {
          got := got + [p.value];
          j := j + 1;
        }
        i := i + 1;
      }
      ExchangeEnd(net, ipAddr, Now(), networkType, sendMsgNum - j, i, got);
      ok := j >= sendMsgNum;
    }

    /** `np_network_type_probe`: the verdict is kept unless it is unknown. */
    method NpNetworkTypeProbe() returns (verdict: int)
      requires Valid()
      modifies this, sendMsg, recvMsg
      ensures (Now(), verdict) == Probe(net, ipAddr, old(Now()))
      ensures networkType == if verdict == UNKNOWN then old(networkType) else verdict
    {
      hide Exchange;
      verdict := UNKNOWN;
      var ok;
      ghost var got;
      ok, got := NpSendAndRecvMsg(PUBLIC_NETWORK, 1);
      if ok && net.local(recvMsg[0].ipAddr) {
        verdict := PUBLIC_NETWORK;
      } else {
        ok, got := NpSendAndRecvMsg(SYMMETRIC_NAT, 2);
        if ok && (recvMsg[0].ipAddr != recvMsg[1].ipAddr || recvMsg[0].port != recvMsg[1].port) {
          verdict := SYMMETRIC_NAT;
        } else {
          ok, got := NpSendAndRecvMsg(FULL_CONE_NAT, 1);
          if ok {
            verdict := FULL_CONE_NAT;
          } else {
            ok, got := NpSendAndRecvMsg(RESTRICTED_CONE_NAT, 1);
            if ok {
              verdict := RESTRICTED_CONE_NAT;
            } else {
              ok, got := NpSendAndRecvMsg(PORT_RESTRICTED_CONE_NAT, 1);
              if ok {
                verdict := PORT_RESTRICTED_CONE_NAT;
              }
            }
          }
        }
      }
      if verdict != UNKNOWN && networkType != verdict {
        networkType := verdict;
      }
    }
  }

  function Before(got: seq<Packet>, r: (World, seq<Packet>)): (World, seq<Packet>) {
    (r.0, got + r.1)
  }

  lemma BeforeAll(r: (World, seq<Packet>))
    ensures Before([], r) == r
  {
    assert [] + r.1 == r.1;
  }

  /** One server of the exchange after the answers `got`. */
  lemma ExchangeStep(net: Network, ips: seq<nat>, w: World, networkType: int, want: nat, i: nat, w1: World,
                     p: Option<Packet>, got: seq<Packet>)
    requires Usable(net) && i < |ips| && want > 0
    requires var request := Request(NextMsgid(net, w), networkType);
             (w1, p) == Attempt(net, w.(msgid := request.msgid), Endpoint(ips[i], SERVER_PORT), request, RETRY_SEND_NUM)
    ensures Before(got, Exchange(net, ips, w, networkType, want, i)) ==
            if p.Some? then Before(got + [p.value], Exchange(net, ips, w1, networkType, want - 1, i + 1))
            else Before(got, Exchange(net, ips, w1, networkType, want, i + 1))
  {
    hide Attempt, NextMsgid, Before;
    if p.Some? {
      BeforeNext(got, p.value, Exchange(net, ips, w1, networkType, want - 1, i + 1));
    }
  }

  lemma ExchangeEnd(net: Network, ips: seq<nat>, w: World, networkType: int, want: nat, i: nat, got: seq<Packet>)
    requires Usable(net) && (i >= |ips| || want == 0)
    ensures Before(got, Exchange(net, ips, w, networkType, want, i)) == (w, got)
  {
    assert got + [] == got;
  }

  lemma BeforeNext(got: seq<Packet>, p: Packet, r: (World, seq<Packet>))
    ensures Before(got, (r.0, [p] + r.1)) == Before(got + [p], r)
  {
    assert got + ([p] + r.1) == got + [p] + r.1;
  }
}
