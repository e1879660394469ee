/** Socket addresses. */
module Net {
  import opened Bytes

  datatype IpAddr = V4(v4: seq<byte>) | V6(v6: seq<byte>) {
    predicate Valid() {
      match this
      case V4(o) => |o| == 4
      case V6(o) => |o| == 16
    }
  }

  type Ip = a: IpAddr | a.Valid() witness V4([0, 0, 0, 0])

  datatype SocketAddr = SocketAddr(ip: Ip, port: u16)

  type Instant = int

  /** `now.duration_since(t)`, which saturates at zero. */
  function Since(now: Instant, t: Instant): nat { Max(0, now - t) }
}
