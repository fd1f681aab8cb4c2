/** A TCP connection as the proxy sees it. */
module Sockets {
  import opened Wire
  import opened Routing

  /** Whom a connection attempt is made to. */
  datatype Target = UpstreamProxy | Address(address: SocketAddr)

  /** `incoming` is everything the peer still delivers on this connection before it closes, and
      `outgoing` everything written to it so far. How the incoming bytes are cut into reads, and
      whether an operation fails, is up to the network; `failed` remembers that one did. */
  class TcpStream {
    var incoming: Bytes
    var outgoing: Bytes
    ghost var failed: bool

    /** Everything the peer delivers from the start, and whom the connection was made to; `None` for a
        connection accepted from a client. */
    ghost const origin: Bytes
    ghost const peer: Option<Target>

    constructor (incoming: Bytes, ghost peer: Option<Target>)
      ensures this.incoming == incoming == origin && this.peer == peer && outgoing == [] && !failed
    {
      this.incoming := incoming;
      this.outgoing := [];
      this.failed := false;
      this.origin := incoming;
      this.peer := peer;
    }

    /** One `read` into a buffer of `wanted` bytes: any non-empty piece of what is to come, nothing
        only at the end of the stream, or an I/O error. */
    method Read(wanted: nat) returns (piece: Option<Bytes>)
      requires wanted > 0
      modifies this`incoming, this`failed
      ensures failed <==> old(failed) || piece.None?
      ensures piece.None? ==> incoming == old(incoming)
      ensures piece.Some? ==> old(incoming) == piece.value + incoming && |piece.value| <= wanted
      ensures piece.Some? ==> (piece.value == [] <==> old(incoming) == [])
    {
      if * {
        failed := true;
        return None;
      }
      var n: nat :| n <= wanted && n <= |incoming| && (n == 0 ==> incoming == []);
      piece := Some(incoming[..n]);
      incoming := incoming[n..];
    }

    /** `write_all`: everything is written, or the write fails after some prefix. */
    method WriteAll(data: Bytes) returns (ok: bool)
      modifies this`outgoing, this`failed
      ensures failed <==> old(failed) || !ok
      ensures old(outgoing) <= outgoing <= old(outgoing) + data
      ensures ok ==> outgoing == old(outgoing) + data
    {
      ok := true;
      var n := |data|;
      if * {
        ok, failed := false, true;
        n :| 0 <= n <= |data|;
      }
      outgoing := outgoing + data[..n];
    }

    /** `set_nodelay(true)`: it changes nothing the model can see, but it may fail. */
    method SetNodelay() returns (ok: bool)
      modifies this`failed
      ensures failed <==> old(failed) || !ok
    {
      ok := true;
      if * {
        ok, failed := false, true;
      }
    }
  }

  /** The network: it remembers every attempt to connect and every connection it has opened. */
  class Network {
    ghost var attempts: seq<Target>
    ghost var sockets: seq<TcpStream>

    constructor ()
      ensures attempts == [] && sockets == []
    {
      attempts, sockets := [], [];
    }

    /** Opens a connection that delivers some bytes or other, or fails. */
    method Connect(target: Target) returns (r: Option<TcpStream>)
      modifies this
      ensures attempts == old(attempts) + [target]
      ensures r.None? ==> sockets == old(sockets)
      ensures r.Some? ==> fresh(r.value) && r.value.outgoing == [] && !r.value.failed
                          && r.value.incoming == r.value.origin && r.value.peer == Some(target)
                          && sockets == old(sockets) + [r.value]
    {
      attempts := attempts + [target];
      if * {
        return None;
      }
      var incoming: Bytes := *;
      var stream := new TcpStream(incoming, Some(target));
      sockets := sockets + [stream];
      r := Some(stream);
    }
  }
}
