/** A captured packet as the extractors see it through Scapy: a stack of
    layers, outermost first. Only the fields the extractors read are kept:
    IPv4 addresses, transport ports and the length of the transport payload.
    Besides TCP and UDP, Scapy's default layer set has other layers that
    define `sport` and `dport` without being TCP or UDP (SCTP, for one);
    `OtherTransport` stands for any of them. */
module Packets {
  import opened Common

  datatype Layer =
    | IP(src: string, dst: string)
    | TCP(sport: int, dport: int, payloadLength: nat)
    | UDP(sport: int, dport: int, payloadLength: nat)
    | OtherTransport(name: string, sport: int, dport: int)
    | OtherLayer(name: string)

  datatype Packet = Packet(layers: seq<Layer>)

  /** Layer `i` is the outermost one satisfying `p`. */
  predicate IsFirst(layers: seq<Layer>, p: Layer -> bool, i: int) {
    0 <= i < |layers| && p(layers[i]) && forall m | 0 <= m < i :: !p(layers[m])
  }

  /** Position of the first layer satisfying `p`. */
  function FirstLayer(layers: seq<Layer>, p: Layer -> bool): (r: Option<nat>)
    ensures r.Some? ==> IsFirst(layers, p, r.value)
    ensures r.None? <==> forall m :: 0 <= m < |layers| ==> !p(layers[m])
  {
    if |layers| == 0 then None
    else if p(layers[0]) then Some(0)
    else match FirstLayer(layers[1..], p)
      case None =>
        assert forall m :: 1 <= m < |layers| ==> layers[m] == layers[1..][m - 1];
        None
      case Some(k) => Some(k + 1)
  }

  predicate IsIP(l: Layer) { l.IP? }
  predicate IsTCP(l: Layer) { l.TCP? }
  predicate IsUDP(l: Layer) { l.UDP? }

  /** The layers that define `sport` and `dport`. */
  predicate HasPortFields(l: Layer) { l.TCP? || l.UDP? || l.OtherTransport? }

  /** `packet.haslayer(name)`: some layer of the stack is of that kind. */
  predicate HasIP(p: Packet) { exists i | 0 <= i < |p.layers| :: IsIP(p.layers[i]) }
  predicate HasTCP(p: Packet) { exists i | 0 <= i < |p.layers| :: IsTCP(p.layers[i]) }
  predicate HasUDP(p: Packet) { exists i | 0 <= i < |p.layers| :: IsUDP(p.layers[i]) }

  /** `packet.sport`, `packet.dport`: Scapy resolves a field on the first
      layer that defines it and raises `AttributeError` when none does. */
  function Ports(p: Packet): (r: Result<(int, int)>)
    ensures r.Ok? <==> exists i :: 0 <= i < |p.layers| && HasPortFields(p.layers[i])
    ensures r.Err? ==> r.error == MissingAttribute("sport")
    ensures r.Ok? ==> exists i :: IsFirst(p.layers, HasPortFields, i) && r.value == (p.layers[i].sport, p.layers[i].dport)
  {
    match FirstLayer(p.layers, HasPortFields)
    case None => Err(MissingAttribute("sport"))
    case Some(i) => Ok((p.layers[i].sport, p.layers[i].dport))
  }

  /** `packet['IP']`: the first IPv4 layer, or `IndexError`. */
  function IPLayer(p: Packet): (r: Result<Layer>)
    ensures r.Ok? <==> HasIP(p)
    ensures r.Err? ==> r.error == MissingLayer("IP")
    ensures r.Ok? ==> r.value.IP? && exists i :: IsFirst(p.layers, IsIP, i) && r.value == p.layers[i]
  {
    match FirstLayer(p.layers, IsIP)
    case None => Err(MissingLayer("IP"))
    case Some(i) => Ok(p.layers[i])
  }

  /** `len(packet[TCP].payload)` (or `UDP` when `udp` is set): the payload
      length of the first layer of that kind, none when there is no such
      layer. */
  function PayloadLength(p: Packet, udp: bool): (n: Option<nat>)
    ensures var kind := if udp then IsUDP else IsTCP;
      && (n.Some? <==> exists i :: 0 <= i < |p.layers| && kind(p.layers[i]))
      && (n.Some? ==> exists i :: IsFirst(p.layers, kind, i) && n.value == p.layers[i].payloadLength)
  {
    match FirstLayer(p.layers, if udp then IsUDP else IsTCP)
    case None => None
    case Some(i) => Some(p.layers[i].payloadLength)
  }
}
