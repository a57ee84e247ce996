/**
 The probe server: how its table of sockets is laid out, and which of its addresses answers which probe.
 */
module NatServer {
  import opened Common

  const SERVER_PORT: nat := 61620
  const SOCKET_NUM: nat := 20
  const PUBLIC_IP_NUM: nat := 2

  const PUBLIC_NETWORK: int := 1
  const FULL_CONE_NAT: int := 2
  const RESTRICTED_CONE_NAT: int := 3
  const PORT_RESTRICTED_CONE_NAT: int := 4
  const SYMMETRIC_NAT: int := 5

  datatype Endpoint = Endpoint(ip: nat, port: nat)

  /** One entry of the table; -1 for an address that could not be bound. */
  datatype Addr = Addr(ip: nat, port: nat, sock: int)

  /** What becomes of one socket: none to be had, one that cannot be bound, or a descriptor. */
  datatype Binding = NoSocket | NotBound | Bound(fd: nat)

  // ----- The table --------------------------------------------------------------------------------------------

  /**
   Two entries for each address, one a port; as many again for the zeros after the addresses, without sockets; the rest
   as the structure was cleared.
   */
  function Entry(ips: seq<nat>, bindings: nat -> Binding, i: nat): Addr {
    if i < 2 * |ips| then Addr(ips[i / 2], SERVER_PORT + i % 2, SockOf(bindings(i)))
    else if i < 4 * |ips| then Addr(0, SERVER_PORT + i % 2, -1)
    else Addr(0, 0, 0)
  }

  function SockOf(b: Binding): int {
    if b.Bound? then b.fd else -1
  }

  predicate Layout(addr: seq<Addr>, ips: seq<nat>, bindings: nat -> Binding) {
    |addr| == SOCKET_NUM && forall i | 0 <= i < SOCKET_NUM :: addr[i] == Entry(ips, bindings, i)
  }

  /** Fills the table for at most five addresses; false when the system has no more sockets. */
  method CreateSocket(addr: array<Addr>, ips: seq<nat>, bindings: nat -> Binding) returns (ok: bool)
    requires addr.Length == SOCKET_NUM && (forall i | 0 <= i < SOCKET_NUM :: addr[i] == Addr(0, 0, 0)) && |ips| <= 5
    modifies addr
    ensures ok <==> forall i | 0 <= i < 2 * |ips| :: !bindings(i).NoSocket?
    ensures ok ==> Layout(addr[..], ips, bindings)
  {
    var resolved := new nat[10](i => if 0 <= i < |ips| then ips[i] else 0);
    var createSockNum := 2 * |ips|;
    var j := 0;
    for i := 0 to createSockNum
      invariant j == 2 * i
      invariant forall k | 0 <= k < 10 :: resolved[k] == if k < |ips| then ips[k] else 0
      invariant forall k | 0 <= k < 20 ::
                  addr[k] == if k < 2 * i then Addr(if k / 2 < |ips| then ips[k / 2] else 0, SERVER_PORT + k % 2, -1)
                               else Addr(0, 0, 0)
    {
      assert resolved[i] == if i < |ips| then ips[i] else 0;
      assert j / 2 == i && j % 2 == 0 && (j + 1) / 2 == i && (j + 1) % 2 == 1;
      addr[j] := Addr(resolved[i], SERVER_PORT, -1);
      addr[j + 1] := Addr(resolved[i], SERVER_PORT + 1, -1);
      j := j + 2;
    }
    for i := 0 to createSockNum
      invariant forall k | 0 <= k < i :: !bindings(k).NoSocket?
      invariant forall k | 0 <= k < 20 ::
                  addr[k] == if k < i then Entry(ips, bindings, k)
                             else if k < 4 * |ips|
                             then Addr(if k / 2 < |ips| then ips[k / 2] else 0, SERVER_PORT + k % 2, -1)
                             else Addr(0, 0, 0)
    {
      assert addr[i] == Addr(ips[i / 2], SERVER_PORT + i % 2, -1);
      var b := bindings(i);
      if b.NoSocket? {
        return false;
      }
      if b.Bound? {
        addr[i] := addr[i].(sock := b.fd);
      }
      assert addr[i] == Entry(ips, bindings, i);
    }
    ok := true;
  }

  // ----- Answering ----------------------------------------------------------------------------------------------

  /** The first listening entry with a given socket, from i on. */
  function Find(addr: seq<Addr>, sock: int, i: nat): (r: Option<nat>)
    ensures r.Some? ==> i <= r.value < |addr| && addr[r.value].port == SERVER_PORT && addr[r.value].sock == sock
    decreases |addr| - i
  {
    if i >= |addr| then None
    else if addr[i].port == SERVER_PORT && addr[i].sock == sock then Some(i)
    else Find(addr, sock, i + 1)
  }

  /** The socket that answers a request of the given type, or -1. */
  function Process(addr: seq<Addr>, sock: int, networkType: int): int
    requires |addr| == SOCKET_NUM && addr[SOCKET_NUM - 1].port != SERVER_PORT
  {
    if networkType == PUBLIC_NETWORK || networkType == SYMMETRIC_NAT
        || networkType == PORT_RESTRICTED_CONE_NAT then sock
    else
      match Find(addr, sock, 0)
      case None => -1
      case Some(i) =>
        if networkType == FULL_CONE_NAT then addr[(i + 1 + PUBLIC_IP_NUM) % SOCKET_NUM].sock
        else if networkType == RESTRICTED_CONE_NAT then addr[i + 1].sock
        else -1
  }

  method ProcessFullConeNat(sock: int, addr: array<Addr>) returns (r: int)
    requires addr.Length == SOCKET_NUM && addr[SOCKET_NUM - 1].port != SERVER_PORT
    ensures r == Process(addr[..], sock, FULL_CONE_NAT)
  {
    var size := addr.Length;
    for i := 0 to size
      invariant Find(addr[..], sock, 0) == Find(addr[..], sock, i)
    {
      if addr[i].port == SERVER_PORT && addr[i].sock == sock {
        return addr[(i + 1 + PUBLIC_IP_NUM) % size].sock;
      }
    }
    r := -1;
  }

  method ProcessRestrictedConeNat(sock: int, addr: array<Addr>) returns (r: int)
    requires addr.Length == SOCKET_NUM && addr[SOCKET_NUM - 1].port != SERVER_PORT
    ensures r == Process(addr[..], sock, RESTRICTED_CONE_NAT)
  {
    for i := 0 to addr.Length
      invariant Find(addr[..], sock, 0) == Find(addr[..], sock, i)
    {
      if addr[i].port == SERVER_PORT && addr[i].sock == sock {
        return addr[i + 1].sock;
      }
    }
    r := -1;
  }

  method ProcessRequest(sock: int, addr: array<Addr>, networkType: int) returns (r: int)
    requires addr.Length == SOCKET_NUM && addr[SOCKET_NUM - 1].port != SERVER_PORT
    ensures r == Process(addr[..], sock, networkType)
  {
    if networkType == PUBLIC_NETWORK || networkType == SYMMETRIC_NAT || networkType == PORT_RESTRICTED_CONE_NAT {
      r := sock;
    } else if networkType == FULL_CONE_NAT {
      r := ProcessFullConeNat(sock, addr);
    } else if networkType == RESTRICTED_CONE_NAT {
      r := ProcessRestrictedConeNat(sock, addr);
    } else {
      r := -1;
    }
  }

  /** No descriptor is handed out twice. */
  ghost predicate Distinct(bindings: nat -> Binding) {
    forall i: nat, j: nat {:trigger bindings(i), bindings(j)} ::
      i != j && bindings(i).Bound? && bindings(j).Bound? ==> bindings(i).fd != bindings(j).fd
  }

  /** The address a socket is bound to. */
  function AddressOf(addr: seq<Addr>, sock: int, i: nat): (r: Option<Endpoint>)
    decreases |addr| - i
  {
    if i >= |addr| then None
    else if addr[i].sock == sock then Some(Endpoint(addr[i].ip, addr[i].port))
    else AddressOf(addr, sock, i + 1)
  }

  /** The socket that a request to `dst` arrives at. */
  function Listening(addr: seq<Addr>, dst: Endpoint, i: nat): (r: Option<nat>)
    ensures r.Some? ==>
              && i <= r.value < |addr|
              && addr[r.value].port == SERVER_PORT == dst.port && addr[r.value].ip == dst.ip
    ensures r.Some? ==> addr[r.value].sock >= 0
    decreases |addr| - i
  {
    if i >= |addr| then None
    else if dst.port == SERVER_PORT && addr[i].port == SERVER_PORT && addr[i].ip == dst.ip
        && addr[i].sock >= 0 then Some(i)
    else Listening(addr, dst, i + 1)
  }

  /** The address from which a request to `dst` is answered, if it is. */
  function Answer(addr: seq<Addr>, dst: Endpoint, networkType: int): Option<Endpoint>
    requires |addr| == SOCKET_NUM && addr[SOCKET_NUM - 1].port != SERVER_PORT
  {
    match Listening(addr, dst, 0)
    case None => None
    case Some(i) =>
      var sock := Process(addr, addr[i].sock, networkType);
      if sock == -1 then None else AddressOf(addr, sock, 0)
  }

  lemma {:induction false} FindsFirst(addr: seq<Addr>, sock: int, i: nat, k: nat)
    requires i <= k < |addr| && addr[k].port == SERVER_PORT && addr[k].sock == sock
    requires forall j | 0 <= j < |addr| && j != k :: addr[j].port != SERVER_PORT || addr[j].sock != sock
    ensures Find(addr, sock, i) == Some(k)
    decreases k - i
  {
    if i < k {
      FindsFirst(addr, sock, i + 1, k);
    }
  }

  lemma {:induction false} AddressIs(addr: seq<Addr>, sock: int, i: nat, k: nat)
    requires i <= k < |addr| && addr[k].sock == sock && forall j | 0 <= j < k :: addr[j].sock != sock
    ensures AddressOf(addr, sock, i) == Some(Endpoint(addr[k].ip, addr[k].port))
    decreases k - i
  {
    if i < k {
      AddressIs(addr, sock, i + 1, k);
    }
  }

  /** The layout of a table that passes: every second entry listens, and the last entry never does. */
  lemma LastIsQuiet(addr: seq<Addr>, ips: seq<nat>, bindings: nat -> Binding)
    requires Layout(addr, ips, bindings) && |ips| <= 5
    ensures addr[SOCKET_NUM - 1].port != SERVER_PORT
  {
    assert addr[19] == Entry(ips, bindings, 19);
  }

  /**
   What answers a request that arrives at address number k: itself; for the full cone probe the other port of the next
   address, and nothing at the last one; for the restricted cone probe its own other port.
   */
  lemma AnswersFrom(addr: seq<Addr>, ips: seq<nat>, bindings: nat -> Binding, dst: Endpoint, networkType: int)
    requires Layout(addr, ips, bindings) && |ips| <= 5 && Distinct(bindings)
    requires Listening(addr, dst, 0).Some?
    ensures addr[SOCKET_NUM - 1].port != SERVER_PORT
    ensures var i := Listening(addr, dst, 0).value;
            && i < 2 * |ips| && i % 2 == 0 && ips[i / 2] == dst.ip
            && (networkType == PUBLIC_NETWORK || networkType == SYMMETRIC_NAT
                || networkType == PORT_RESTRICTED_CONE_NAT ==>
                  Answer(addr, dst, networkType) == Some(dst))
            && (networkType == FULL_CONE_NAT ==>
                  Answer(addr, dst, networkType) ==
                  if i / 2 + 1 < |ips| && bindings(i + 3).Bound? then Some(Endpoint(ips[i / 2 + 1], SERVER_PORT + 1))
                      else None)
            && (networkType == RESTRICTED_CONE_NAT ==>
                  Answer(addr, dst, networkType) ==
                  if bindings(i + 1).Bound? then Some(Endpoint(dst.ip, SERVER_PORT + 1)) else None)
            && (networkType < 1 || networkType > 5 ==> Answer(addr, dst, networkType) == None)
  {
    hide AddressOf, Distinct;
    LastIsQuiet(addr, ips, bindings);
    var i := Listening(addr, dst, 0).value;
    assert addr[i] == Entry(ips, bindings, i) && bindings(i).Bound?;
    OneListener(addr, ips, bindings, i);
    BoundAddress(addr, ips, bindings, i);
    var k := if networkType == FULL_CONE_NAT then i + 3 else i + 1;
    assert addr[k] == Entry(ips, bindings, k);
    if k < 2 * |ips| && bindings(k).Bound? {
      BoundAddress(addr, ips, bindings, k);
    }
  }

  lemma OneListener(addr: seq<Addr>, ips: seq<nat>, bindings: nat -> Binding, i: nat)
    requires Layout(addr, ips, bindings) && |ips| <= 5 && Distinct(bindings)
    requires i < |addr| && addr[i].port == SERVER_PORT && addr[i].sock >= 0
    ensures Find(addr, addr[i].sock, 0) == Some(i)
  {
    assert addr[i] == Entry(ips, bindings, i);
    forall j | 0 <= j < |addr| && j != i
      ensures addr[j].port != SERVER_PORT || addr[j].sock != addr[i].sock
    {
      assert addr[j] == Entry(ips, bindings, j);
    }
    FindsFirst(addr, addr[i].sock, 0, i);
  }

  lemma BoundAddress(addr: seq<Addr>, ips: seq<nat>, bindings: nat -> Binding, k: nat)
    requires Layout(addr, ips, bindings) && |ips| <= 5 && Distinct(bindings) && k < 2 * |ips| && bindings(k).Bound?
    ensures AddressOf(addr, addr[k].sock, 0) == Some(Endpoint(ips[k / 2], SERVER_PORT + k % 2))
  {
    assert addr[k] == Entry(ips, bindings, k);
    forall j | 0 <= j < k
      ensures addr[j].sock != addr[k].sock
    {
      assert addr[j] == Entry(ips, bindings, j);
    }
    AddressIs(addr, addr[k].sock, 0, k);
  }
}
