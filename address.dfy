/** The socket address the server binds to (Rust's `std::net::SocketAddr`) and the
    address parser, which is the standard library's and is therefore an input. */
module Address {
  import opened Wrappers

  type Byte = x: int | 0 <= x < 0x100
  type U16 = x: int | 0 <= x < 0x1_0000

  /** The eight 16-bit groups of an IPv6 address. */
  type Segments = s: seq<U16> | |s| == 8 witness [0, 0, 0, 0, 0, 0, 0, 0]

  datatype IpAddr =
    | V4(a: Byte, b: Byte, c: Byte, d: Byte)
    | V6(segments: Segments)

  datatype SocketAddr = SocketAddr(ip: IpAddr, port: U16)

  /** The error `str::parse::<SocketAddr>` reports; its contents are never inspected. */
  datatype AddrParseError = AddrParseError

  /** `SocketAddr::from_str`, whose implementation lives in the standard library. */
  type AddrParser = string -> Result<SocketAddr, AddrParseError>

  /** `([127, 0, 0, 1], 8080).into()`: the address used when no source gives one. */
  const DefaultAddress: SocketAddr := SocketAddr(V4(127, 0, 0, 1), 8080)
}
