/** The catalogue of application types a traffic profile can name. */
module ApplicationTypes {
  import opened Wrappers
  import opened Enums

  datatype ApplicationType = WEB | FTP | VOIP | TFTP | PING | VIDEO_STREAMING

  /** The (port, transport protocol, traffic class) triple each application type is declared with. */
  datatype Descriptor = Descriptor(port: ApplicationPort, transport: TransportProtocol, trafficClass: TrafficClass)

  function Describe(a: ApplicationType): Descriptor
  {
    match a
    case WEB => Descriptor(HTTPPort, TCPv4, BEST_EFFORT)
    case FTP => Descriptor(FTPDataPort, TCPv4, BEST_EFFORT)
    case VOIP => Descriptor(VOIPPort, UDPv4, REAL_TIME)
    case TFTP => Descriptor(TFTPPort, TCPv4, BEST_EFFORT)
    case PING => Descriptor(ApplicationPort.PING, ICMPv4, BEST_EFFORT)
    case VIDEO_STREAMING => Descriptor(ApplicationPort.VIDEO_STREAMING, TCPv4, REAL_TIME)
  }

  function GetApplicationPort(a: ApplicationType): ApplicationPort
  {
    Describe(a).port
  }

  function GetTransportProtocol(a: ApplicationType): TransportProtocol
  {
    Describe(a).transport
  }

  function GetTrafficClass(a: ApplicationType): TrafficClass
  {
    Describe(a).trafficClass
  }

  /** The application type whose well-known port number is `n`, if any. */
  function FromPortNumber(n: int): (r: Option<ApplicationType>)
    ensures r.Some? ==> GetApplicationPort(r.value).PortNumber() == n
  {
    match n
    case 80 => Some(WEB)
    case 20 => Some(FTP)
    case 3784 => Some(VOIP)
    case 69 => Some(TFTP)
    case 0 => Some(ApplicationType.PING)
    case 8080 => Some(ApplicationType.VIDEO_STREAMING)
    case _ => None
  }

  /** No two application types share a port number, so the port number recovers the type. */
  lemma PortNumberIdentifiesType(a: ApplicationType)
    ensures FromPortNumber(GetApplicationPort(a).PortNumber()) == Some(a)
  {
  }

  /** Only voice over IP travels over UDP, only ping over ICMP; all the others use TCP over IPv4. */
  lemma TransportOfEachType(a: ApplicationType)
    ensures GetTransportProtocol(a) == UDPv4 <==> a == VOIP
    ensures GetTransportProtocol(a) == ICMPv4 <==> a == ApplicationType.PING
    ensures a != VOIP && a != ApplicationType.PING ==> GetTransportProtocol(a) == TCPv4
    ensures GetTrafficClass(a) == REAL_TIME <==> (a == VOIP || a == ApplicationType.VIDEO_STREAMING)
  {
  }
}
