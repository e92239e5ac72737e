/**
 * Values the relayer receives from the libraries it calls (libp2p, multiaddr and
 * the ogen chain parameters). What those libraries do is outside the model: their
 * answers appear as plain values or as oracle arguments of the operations.
 */
module Externals {

  type PeerId = string

  /** A parsed multiaddr, kept as its textual form. */
  datatype Multiaddr = Multiaddr(text: string)

  /** peer.AddrInfo: a peer identity and the addresses it can be reached at. */
  datatype AddrInfo = AddrInfo(id: PeerId, addrs: seq<Multiaddr>)

  /** The two application protocol identifiers of the chain parameters. */
  datatype ProtocolId = DiscoveryProtocolID | SyncProtocolID

  /** A network.Stream, or the nil stream a failed NewStream hands back. */
  datatype Stream = NilStream | Stream(remotePeer: PeerId, protocol: ProtocolId)

  /** network.Direction of a connection. */
  datatype Direction = DirUnknown | DirInbound | DirOutbound

  /** What the notifier reads of a network.Conn: its remote peer and its direction. */
  datatype Conn = Conn(remotePeer: PeerId, direction: Direction)

  /** Opaque handles for a context.Context, a host.Host and a logger.Logger. */
  datatype Context = Context(id: nat)
  datatype Host = Host(id: PeerId)
  datatype Logger = Logger(id: nat)

  /** The part of params.ChainParams the relayer reads. */
  datatype ChainParams = ChainParams(name: string, rendezvousStrings: seq<string>, relayers: seq<string>)
}
