/** The CogServer storage node: its connection state is the descriptor
    field `sockfd`, read as
      -1  never opened, or closed,
       0  the server closed the connection during a receive,
      >0  connected.
    The operating system's answers (getaddrinfo, socket, connect, send,
    recv) are parameters of the methods that make those calls. Three ghost
    fields log the lookups asked for, the bytes send() accepted and the
    descriptors released. */
module CogSimple {
  import opened Outcomes
  import opened Uri
  import opened Framing

  /** "sexpr\n": switches the server's session to its s-expression shell. */
  const Handshake: seq<byte> := [0x73, 0x65, 0x78, 0x70, 0x72, 0x0A]

  /** What `open` asks getaddrinfo to resolve. */
  datatype Target = Target(host: string, port: string)

  /** `open` discards the prompt it reads; only how the read ended shows. */
  function Discarded(o: Outcome<seq<byte>>): Outcome<()>
  {
    match o
    case Done(_) => Done(())
    case Raised(e) => Raised(e)
    case Blocked => Blocked
  }

  class CogSimpleStorage {
    /** The URI as `init` stored it. */
    const uri: string
    /** The socket descriptor. */
    var sockfd: int
    /** Every host and port handed to getaddrinfo, in order. */
    ghost var lookups: seq<Target>
    /** Every byte send() reports as sent, in order. */
    ghost var sent: seq<byte>
    /** Every descriptor handed to close(), in order. */
    ghost var released: seq<int>

    ghost predicate Valid()
    {
      IsCogUri(uri)
    }

    /** `connected()`: only a positive descriptor is a connection. */
    predicate Connected(): (r: bool)
      reads this
      ensures sockfd == -1 ==> !r
      ensures sockfd == 0 ==> !r
      ensures r <==> 0 < sockfd
    {
      0 < sockfd
    }

    /** The member initialisation of the constructor, for a URI `init`
        accepted. */
    constructor (accepted: string)
      requires IsCogUri(accepted)
      ensures Valid() && uri == accepted
      ensures sockfd == -1 && !Connected()
      ensures lookups == [] && sent == [] && released == []
    {
      uri := accepted;
      sockfd := -1;
      lookups, sent, released := [], [], [];
    }

    /** The constructor: `_sockfd` starts at -1, then `init` checks the URI
        and throws on one that does not start with `cog://`. */
    static method Create(name: string) returns (r: Result<CogSimpleStorage>)
      ensures r.Err? <==> Init(name).Err?
      ensures r.Err? ==> r.error == UnknownUri
      ensures r.Ok? ==> fresh(r.value) && r.value.Valid() && r.value.uri == Init(name).value
      ensures r.Ok? ==> r.value.sockfd == -1 && !r.value.Connected()
      ensures r.Ok? ==> r.value.lookups == [] && r.value.sent == [] && r.value.released == []
    {
      match Init(name)
      case Err(e) =>
        r := Err(e);
      case Ok(u) =>
        var node := new CogSimpleStorage(u);
        r := Ok(node);
    }

    /** `close`: release the descriptor if connected; in every case end up
        at -1. A second call finds the node disconnected and releases
        nothing. */
    method Close()
      modifies this
      ensures sockfd == -1 && !Connected()
      ensures released == if old(Connected()) then old(released) + [old(sockfd)] else old(released)
      ensures lookups == old(lookups) && sent == old(sent)
    {
      if Connected() {
        released := released + [sockfd];
      }
      sockfd := -1;
    }

    /** `do_send`: refuse when disconnected; otherwise hand the payload to
        send(), whose return value is `rc`. A negative `rc` throws; a short
        count is not retried. */
    method DoSend(payload: seq<byte>, rc: int) returns (r: Outcome<()>)
      requires rc <= |payload|
      modifies this
      ensures sockfd == old(sockfd) && lookups == old(lookups) && released == old(released)
      ensures !old(Connected()) ==> r == Raised(NotConnected) && sent == old(sent)
      ensures old(Connected()) && rc < 0 ==> r == Raised(SendFailed) && sent == old(sent)
      ensures old(Connected()) && 0 <= rc ==> r == Done(()) && sent == old(sent) + payload[..rc]
    {
      if !Connected() {
        return Raised(NotConnected);
      }
      if rc < 0 {
        return Raised(SendFailed);
      }
      sent := sent + payload[..rc];
      r := Done(());
    }

    /** `do_recv`: refuse when disconnected; otherwise run the read loop on
        the results recv() returns. A zero read closes the descriptor and
        leaves `sockfd` at 0, so the node reads as disconnected; a negative
        read leaves it as it was. */
    method DoRecv(garbage: bool, results: seq<RecvResult>) returns (r: Outcome<seq<byte>>, used: nat)
      modifies this
      ensures lookups == old(lookups) && sent == old(sent)
      ensures !old(Connected()) ==> r == Raised(NotConnected) && used == 0
      ensures !old(Connected()) ==> sockfd == old(sockfd) && released == old(released)
      ensures old(Connected()) ==> LoopEnd(r, used) == Frame(results, garbage)
      ensures old(Connected()) && r == Raised(PeerClosed) ==>
                sockfd == 0 && !Connected() && released == old(released) + [old(sockfd)]
      ensures old(Connected()) && r != Raised(PeerClosed) ==>
                sockfd == old(sockfd) && released == old(released)
    {
      if !Connected() {
        return Raised(NotConnected), 0;
      }
      r, used := ReadMessage(results, garbage);
      if r == Raised(PeerClosed) {
        released := released + [sockfd];
        sockfd := 0;
      }
    }

    /** `open`: nothing to do when connected. Otherwise slice host and port
        out of the URI and resolve them (`resolves`), store the descriptor
        socket() returns (`fd`, -1 on failure), connect (`connects`), send
        the handshake (send() returns `sendRc`) and read the server's prompt
        with `do_recv` (`garbage` is its argument, `results` what recv()
        returns). A failure throws at once and leaves `sockfd` as it stands:
        a failed connect or handshake leaves the node connected. */
    method Open(resolves: bool, fd: int, connects: bool, sendRc: int, garbage: bool, results: seq<RecvResult>)
      returns (r: Outcome<()>, used: nat)
      requires Valid()
      requires fd >= -1 && sendRc <= |Handshake|
      modifies this
      ensures old(Connected()) ==> r == Done(()) && used == 0
      ensures old(Connected()) ==>
                sockfd == old(sockfd) && lookups == old(lookups) && sent == old(sent) && released == old(released)
      ensures !old(Connected()) ==> lookups == old(lookups) + [Target(Host(uri), Port(uri))]
      ensures !old(Connected()) && !resolves ==>
                r == Raised(UnknownHost) && used == 0 && sockfd == old(sockfd) && sent == old(sent) && released == old(released)
      ensures !old(Connected()) && resolves && fd < 0 ==>
                r == Raised(NoSocket) && used == 0 && sockfd == fd && sent == old(sent) && released == old(released)
      ensures !old(Connected()) && resolves && fd >= 0 && !connects ==>
                r == Raised(ConnectFailed) && used == 0 && sockfd == fd && sent == old(sent) && released == old(released)
      ensures !old(Connected()) && resolves && fd >= 0 && connects && sendRc < 0 ==>
                r == Raised(SendFailed) && used == 0 && sockfd == fd && sent == old(sent) && released == old(released)
      ensures !old(Connected()) && resolves && fd >= 0 && connects && 0 <= sendRc ==>
                sent == old(sent) + Handshake[..sendRc]
      ensures !old(Connected()) && resolves && fd == 0 && connects && 0 <= sendRc ==>
                r == Raised(NotConnected) && used == 0 && sockfd == 0 && released == old(released)
      ensures !old(Connected()) && resolves && fd > 0 && connects && 0 <= sendRc ==>
                var f := Frame(results, garbage);
                r == Discarded(f.outcome) && used == f.used &&
                if f.outcome == Raised(PeerClosed)
                then sockfd == 0 && released == old(released) + [fd]
                else sockfd == fd && released == old(released)
    {
      if Connected() {
        return Done(()), 0;
      }
      var host := Host(uri);
      var port := Port(uri);
      lookups := lookups + [Target(host, port)];
      if !resolves {
        return Raised(UnknownHost), 0;
      }
      sockfd := fd;
      if sockfd < 0 {
        return Raised(NoSocket), 0;
      }
      if !connects {
        return Raised(ConnectFailed), 0;
      }
      if sendRc < 0 {
        return Raised(SendFailed), 0;
      }
      sent := sent + Handshake[..sendRc];
      var prompt;
      prompt, used := DoRecv(garbage, results);
      r := Discarded(prompt);
    }
  }

  /** Closing twice is closing once. */
  method CloseTwice(node: CogSimpleStorage)
    modifies node
    ensures node.sockfd == -1 && !node.Connected()
    ensures node.released == if old(node.Connected()) then old(node.released) + [old(node.sockfd)] else old(node.released)
    ensures node.lookups == old(node.lookups) && node.sent == old(node.sent)
  {
    node.Close();
    node.Close();
  }
}
