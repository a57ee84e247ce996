/** The server's handling of one datagram, from the text received to the text sent. */
module NatService {
  import opened Common
  import opened NatServer
  import opened NatMessage

  /** What is sent for a datagram, if anything: the socket it leaves by, and its text. */
  function Reply(addr: seq<Addr>, sock: int, text: string, client: Endpoint): Option<(int, string)>
    requires |addr| == SOCKET_NUM && addr[SOCKET_NUM - 1].port != SERVER_PORT && Readable(text)
  {
    match DecodeRequest(text)
    case None => None
    case Some(q) =>
      var out := Process(addr, sock, q.networkType);
      if out == -1 then None else Some((out, EncodeResponse(Response(q.msgid, client.ip, client.port))))
  }

  class NpServer {
    const addr: array<Addr>
    var recvMsg: Request
    var sendMsg: Response

    constructor (addr: array<Addr>)
      ensures this.addr == addr && recvMsg == Request(0, 0) && sendMsg == Response(0, 0, 0)
    {
      this.addr := addr;
      recvMsg, sendMsg := Request(0, 0), Response(0, 0, 0);
    }

    /** The two messages are shared by all requests: each request overwrites both before it is answered. */
    method ReadCallback(sock: int, text: string, client: Endpoint) returns (out: Option<(int, string)>)
      requires addr.Length == SOCKET_NUM && addr[SOCKET_NUM - 1].port != SERVER_PORT && Readable(text)
      modifies `recvMsg, `sendMsg
      ensures out == Reply(addr[..], sock, text, client)
      ensures match DecodeRequest(text)
              case None => recvMsg == old(recvMsg) && sendMsg == old(sendMsg)
              case Some(q) => recvMsg == q && sendMsg == Response(q.msgid, client.ip, client.port)
    {
      hide Process, EncodeResponse;
      var q := DecodeRequest(text);
      if q.None? {
        return None;
      }
      recvMsg := q.value;
      sendMsg := Response(recvMsg.msgid, client.ip, client.port);
      var outSock := ProcessRequest(sock, addr, recvMsg.networkType);
      out := if outSock == -1 then None else Some((outSock, EncodeResponse(sendMsg)));
    }
  }

  /** From request to response over the wire: the client reads back its own number and the address the server saw. */
  lemma AnsweredOverTheWire(addr: seq<Addr>, sock: int, q: Request, client: Endpoint, garbage: string, more: string)
    requires |addr| == SOCKET_NUM && addr[SOCKET_NUM - 1].port != SERVER_PORT
    requires IsInt(q.msgid) && IsInt(q.networkType) && client.ip < TWO32 && client.port < 0x1_0000
    requires Process(addr, sock, q.networkType) != -1
    ensures Readable(EncodeRequest(q) + garbage)
    ensures var r := Reply(addr, sock, EncodeRequest(q) + garbage, client);
            && r.Some? && r.value.0 == Process(addr, sock, q.networkType) && |r.value.1| <= BUFFER_SIZE
            && Readable(r.value.1 + more)
                && DecodeResponse(r.value.1 + more) == Some(Response(q.msgid, client.ip, client.port))
  {
    hide Process, EncodeRequest, EncodeResponse, DecodeRequest, DecodeResponse;
    RequestRoundTrip(q, garbage);
    ResponseRoundTrip(Response(q.msgid, client.ip, client.port), more);
    ResponseFits(Response(q.msgid, client.ip, client.port));
  }
}
