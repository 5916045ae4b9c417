/** Values shared by the generation and signing coordinators: identities, wire payloads,
    the actions a coordinator emits on its outgoing channels, and the outcome of a run. */
module Types {

  /** A peer identity. The coordinator keeps peers as their textual form and parses them back
      when sending; both conversions are exact, so one string type stands for both. */
  type PeerId = string

  /** A listen address of the local node, carried verbatim in every invitation. */
  type Multiaddr = string

  /** A broadcast topic, named by a generation id or by a group key. */
  type Topic = string

  /** Correlates a peer lookup with its result. */
  type QueryId = nat

  datatype Option<T> = None | Some(value: T)

  /** An unsigned 16-bit integer, the type of a participant index on the wire. */
  newtype uint16 = x: int | 0 <= x < 0x1_0000

  /** The `as u16` cast: keeps the low 16 bits. */
  function AsUint16(n: nat): (u: uint16)
    ensures n < 0x1_0000 ==> u as int == n
    ensures u as int == n % 0x1_0000
  {
    (n % 0x1_0000) as uint16
  }

  /** The message carried by a send. The text of a payload is its header followed, for
      JoinGen and SignR1, by the encoded field tuple. */
  datatype Payload =
    | JoinGen(generationId: string, inviter: PeerId, index: uint16, listeners: seq<Multiaddr>)
    | GenR1
    | SignR1(signingId: string, onion: string, message: string)

  /** The literal text at the head of a payload's bytes. */
  function Header(p: Payload): string
  {
    match p
    case JoinGen(_, _, _, _) => "JOIN_GEN "
    case GenR1 => "GEN_R1"
    case SignR1(_, _, _) => "SIGN_R1 "
  }

  /** One send on an outgoing channel: a topic subscription request, a direct message
      to one peer, or a publish on a topic. */
  datatype Action =
    | Subscription(topic: Topic)
    | DirectMessage(peer: PeerId, payload: Payload)
    | Broadcast(topic: Topic, payload: Payload)

  /** How a coordinator run ends: `Ok(())`, an error with its message, or a panic. */
  datatype Outcome = Done | Failed(message: string) | Panicked

  const TimedOut: string := "Timed out"
  const InvalidPeer: string := "Invalid peer responded"
}
