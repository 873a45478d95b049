/**
 * `quic_configuration` and the `QUIC_SETTINGS` record built from it. A settings field is an
 * `Option`: `Some(v)` is the value `v` with its `IsSet` flag raised, `None` a field left
 * zero with its flag down, which the transport ignores.
 */
module QuicConfiguration {
  import opened Wrappers

  const U32_BOUND: int := 0x1_0000_0000
  const U64_BOUND: int := 0x1_0000_0000_0000_0000

  /** `std::uint32_t`. */
  type u32 = x: int | 0 <= x < U32_BOUND

  /** `e_role`. */
  datatype Role = Client | Server

  /** `quic_credentials`: the certificate and private key file paths. */
  datatype Credentials = Credentials(certificatePath: string, privateKeyPath: string)

  /**
   * `quic_configuration`. The millisecond counts are the signed `count()` of a
   * `std::chrono::milliseconds`.
   */
  datatype Configuration = Configuration(
    role: Role,
    alpn: string,
    appname: string,
    idleTimeoutMs: Option<int>,
    keepAliveIntervalMs: Option<int>,
    credentials: Credentials,
    udpPortNumber: nat,
    streamReceiveWindow: u32,
    streamReceiveBuffer: u32)

  /** A configuration as constructed for `role`, with every member at its default. */
  function DefaultConfiguration(role: Role): (c: Configuration)
    ensures c.role == role && c.alpn == "test" && c.appname == "test"
    ensures c.idleTimeoutMs.None? && c.keepAliveIntervalMs.None?
    ensures c.streamReceiveWindow == 8192 && c.streamReceiveBuffer == 4096
  {
    Configuration(role, "test", "test", None, None, Credentials("", ""), 0, 8192, 4096)
  }

  /** `QUIC_SERVER_RESUMPTION_LEVEL`. */
  datatype ServerResumptionLevel = NoResume | ResumeOnly | ResumeAndZeroRtt

  /** The fields of `QUIC_SETTINGS` the QUIC layer sets. */
  datatype QuicSettings = QuicSettings(
    idleTimeoutMs: Option<nat>,
    keepAliveIntervalMs: Option<nat>,
    serverResumptionLevel: Option<ServerResumptionLevel>,
    sendBufferingEnabled: Option<bool>,
    peerBidiStreamCount: Option<nat>,
    streamRecvWindowDefault: Option<nat>)

  /** `static_cast<std::uint64_t>` of a signed count: two's complement, so modulo 2^64. */
  function ToU64(x: int): (r: nat)
    ensures r < U64_BOUND
    ensures 0 <= x < U64_BOUND ==> r == x
    ensures (r - x) % U64_BOUND == 0
  {
    x % U64_BOUND
  }

  /** `static_cast<std::uint32_t>` of a signed count: its low 32 bits. */
  function ToU32(x: int): (r: nat)
    ensures r < U32_BOUND
    ensures 0 <= x < U32_BOUND ==> r == x
    ensures (r - x) % U32_BOUND == 0
  {
    x % U32_BOUND
  }
}
