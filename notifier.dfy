/**
 * The connection-event notifier of relayer/sync.go. Each callback returns the calls it
 * makes on its collaborators, in order: host.NewStream and relayer.HandleStream.
 */
module Notifier {
  import opened Wrappers
  import opened Externals
  import Relaying

  /** A call the notifier makes on the host or on the relayer. */
  datatype NotifierCall =
    | NewStream(peer: PeerId, protocol: ProtocolId)
    | HandleStream(stream: Stream)

  class SyncHandler {
    const log: Logger
    const host: Host
    const relayer: Relaying.Relayer
    const ctx: Context

    constructor (ctx: Context, host: Host, relayer: Relaying.Relayer, log: Logger)
      ensures this.ctx == ctx && this.host == host && this.relayer == relayer && this.log == log
    {
      this.ctx := ctx;
      this.host := host;
      this.relayer := relayer;
      this.log := log;
    }

    /** Listen has no effect. */
    method Listen(addr: Multiaddr) returns (calls: seq<NotifierCall>)
      ensures calls == []
    {
      calls := [];
    }

    /** ListenClose has no effect. */
    method ListenClose(addr: Multiaddr) returns (calls: seq<NotifierCall>)
      ensures calls == []
    {
      calls := [];
    }

    /**
     * Connected: ignore connections that are not outbound. For an outbound one, open one
     * stream to the remote peer on the sync protocol and hand the result to the relayer.
     * A failed open is only logged, so HandleStream is then called with the nil stream
     * NewStream returned; HandleStream dereferences it before anything else, which
     * crashes the process. The model records that call and does not go further.
     */
    method Connected(conn: Conn, outcome: Result<Stream>) returns (calls: seq<NotifierCall>)
      ensures conn.direction != DirOutbound ==> calls == []
      ensures conn.direction == DirOutbound ==>
        calls == [NewStream(conn.remotePeer, SyncProtocolID),
                  HandleStream(if outcome.Ok? then outcome.value else NilStream)]
    {
      calls := [];
      if conn.direction != DirOutbound {
        return;
      }
      calls := calls + [NewStream(conn.remotePeer, SyncProtocolID)];
      var strm := NilStream;
      if outcome.Ok? {
        strm := outcome.value;
      }
      calls := calls + [HandleStream(strm)];
    }

    /** Disconnected has no effect. */
    method Disconnected(conn: Conn) returns (calls: seq<NotifierCall>)
      ensures calls == []
    {
      calls := [];
    }

    /** OpenedStream has no effect. */
    method OpenedStream(s: Stream) returns (calls: seq<NotifierCall>)
      ensures calls == []
    {
      calls := [];
    }

    /** ClosedStream has no effect. */
    method ClosedStream(s: Stream) returns (calls: seq<NotifierCall>)
      ensures calls == []
    {
      calls := [];
    }
  }

  /** NewSyncHandler: a handler whose fields are exactly the arguments. */
  method NewSyncHandler(ctx: Context, h: Host, r: Relaying.Relayer, log: Logger) returns (s: SyncHandler)
    ensures fresh(s)
    ensures s.ctx == ctx && s.host == h && s.relayer == r && s.log == log
  {
    s := new SyncHandler(ctx, h, r, log);
  }
}
