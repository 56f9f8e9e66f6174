/** The peer descriptors stored in the address books: the four `*Information` classes of the
    discovery strategies, and their `Equals` overrides. An address book stores them as
    `object`, so they are one union type here; the constructor is the run-time class. */
module PeerInfo {
  import opened Common

  datatype Info =
    | UdpParticipantInformation(host: HostName)
    | UdpManagerInformation(host: HostName)
    | DnssdParticipantInformation(host: HostName)
    | DnssdManagerInformation(host: HostName, port: string)

  /** `HostName.IsEqual`: the canonical names agree. */
  predicate IsEqual(a: HostName, b: HostName)
  {
    a.canonicalName == b.canonicalName
  }

  /** `UdpParticipantInformation.Equals(obj)` on an instance with host `host`; `None` is a
      null `obj`. Any other class, or null, is unequal. */
  function UdpParticipantEquals(host: HostName, obj: Option<Info>): (r: bool)
    ensures r <==> obj == Some(UdpParticipantInformation(host))
  {
    match obj
    case Some(UdpParticipantInformation(h)) => IsEqual(host, h)
    case _ => false
  }

  /** `UdpManagerInformation.Equals(obj)`. */
  function UdpManagerEquals(host: HostName, obj: Option<Info>): (r: bool)
    ensures r <==> obj == Some(UdpManagerInformation(host))
  {
    match obj
    case Some(UdpManagerInformation(h)) => IsEqual(host, h)
    case _ => false
  }

  /** `DnssdParticipantInformation.Equals(obj)`. */
  function DnssdParticipantEquals(host: HostName, obj: Option<Info>): (r: bool)
    ensures r <==> obj == Some(DnssdParticipantInformation(host))
  {
    match obj
    case Some(DnssdParticipantInformation(h)) => IsEqual(host, h)
    case _ => false
  }

  /** `DnssdManagerInformation.Equals(obj)`: host and port must both agree. */
  function DnssdManagerEquals(host: HostName, port: string, obj: Option<Info>): (r: bool)
    ensures r <==> obj == Some(DnssdManagerInformation(host, port))
  {
    match obj
    case Some(DnssdManagerInformation(h, p)) => IsEqual(host, h) && port == p
    case _ => false
  }

  /** Virtual dispatch of `Equals` on a stored descriptor. */
  function Equals(self: Info, obj: Option<Info>): (r: bool)
    ensures r <==> obj == Some(self)
  {
    match self
    case UdpParticipantInformation(h) => UdpParticipantEquals(h, obj)
    case UdpManagerInformation(h) => UdpManagerEquals(h, obj)
    case DnssdParticipantInformation(h) => DnssdParticipantEquals(h, obj)
    case DnssdManagerInformation(h, p) => DnssdManagerEquals(h, p, obj)
  }

  /** `Equals` is symmetric, so it does not matter which side the dictionary calls it on, and
      a descriptor of one class never equals one of another class, even with the same host. */
  lemma EqualsSymmetricAndClassStrict(a: Info, b: Info)
    ensures Equals(a, Some(b)) <==> Equals(b, Some(a))
    ensures Equals(a, Some(b)) ==> a.host == b.host
    ensures a.UdpParticipantInformation? && b.UdpManagerInformation? ==> !Equals(a, Some(b))
    ensures a.DnssdManagerInformation? != b.DnssdManagerInformation? ==> !Equals(a, Some(b))
  {
  }
}
