/**
 * The small enumerations the policy model is built from: policy life-cycle
 * states, routing actions, path-selection algorithms, traffic classes,
 * well-known application ports and transport protocols.
 */
module Enums {
  /** Life-cycle state of a policy. */
  datatype PolicyState = INSTALL_REQ | INSTALLED | FAILED | WITHDRAW_REQ | WITHDRAWN | CORRUPT | PURGED

  /** The routing action a policy asks for. */
  datatype Action = INTRA_ROUTE | INTER_ROUTE

  datatype PathSelectionAlgo = ECMP | RANDOM | BEST_POSSIBLE_PATH | ON_DEMAND

  datatype TrafficClass = BEST_EFFORT | REAL_TIME

  datatype ApplicationPort = FTPDataPort | HTTPPort | VOIPPort | TFTPPort | PING | VIDEO_STREAMING
  {
    /** The well-known port number of the application. */
    function PortNumber(): int
    {
      match this
      case FTPDataPort => 20
      case HTTPPort => 80
      case VOIPPort => 3784
      case TFTPPort => 69
      case PING => 0
      case VIDEO_STREAMING => 8080
    }
  }

  datatype TransportProtocol = TCPv4 | UDPv4 | TCPv6 | UDPv6 | MPLS | ICMPv4
  {
    /** The protocol number carried in the IP header. */
    function ProtocolNumber(): int
    {
      match this
      case TCPv4 => 6
      case UDPv4 => 17
      case TCPv6 => 6
      case UDPv6 => 17
      case MPLS => 137
      case ICMPv4 => 1
    }
  }
}
