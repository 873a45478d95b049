/**
 * `make_msquic_application`: the factory that opens (or is meant to reuse) the msquic API
 * table, opens a registration and a configuration, loads the role's credentials and
 * allocates the application. The calls into msquic are recorded as `ForeignCall`s and their
 * results come from an oracle.
 */
module MsQuicApplication {
  import opened Wrappers
  import opened QuicErrors
  import opened KeyedContainers
  import opened QuicConfiguration
  import opened MsQuicApi

  /**
   * `settings_to_msquic`: the idle timeout and the keep-alive interval when they are
   * configured, each cast to its field's width, and always resumption with 0-RTT, no send
   * buffering, a single peer-opened bidirectional stream and the configured stream receive
   * window.
   */
  function SettingsToMsQuic(cfg: Configuration): (s: QuicSettings)
    ensures s.idleTimeoutMs.Some? <==> cfg.idleTimeoutMs.Some?
    ensures cfg.idleTimeoutMs.Some? ==> s.idleTimeoutMs.value == ToU64(cfg.idleTimeoutMs.value)
    ensures s.keepAliveIntervalMs.Some? <==> cfg.keepAliveIntervalMs.Some?
    ensures cfg.keepAliveIntervalMs.Some? ==> s.keepAliveIntervalMs.value == ToU32(cfg.keepAliveIntervalMs.value)
    ensures s.serverResumptionLevel == Some(ResumeAndZeroRtt)
    ensures s.sendBufferingEnabled == Some(false)
    ensures s.peerBidiStreamCount == Some(1)
    ensures s.streamRecvWindowDefault == Some(cfg.streamReceiveWindow as nat)
  {
    QuicSettings(
      if cfg.idleTimeoutMs.Some? then Some(ToU64(cfg.idleTimeoutMs.value)) else None,
      if cfg.keepAliveIntervalMs.Some? then Some(ToU32(cfg.keepAliveIntervalMs.value)) else None,
      Some(ResumeAndZeroRtt),
      Some(false),
      Some(1),
      Some(cfg.streamReceiveWindow as nat))
  }

  /**
   * The factory's settings extend those of `msquic_api`'s `initialize_configuration` by the
   * keep-alive interval and the stream receive window, and agree with them on the rest.
   */
  lemma SettingsExtendApiSettings(cfg: Configuration)
    ensures ApiSettings(cfg) == SettingsToMsQuic(cfg).(keepAliveIntervalMs := None, streamRecvWindowDefault := None)
    ensures SettingsToMsQuic(cfg).streamRecvWindowDefault.Some? && ApiSettings(cfg).streamRecvWindowDefault.None?
  {
  }

  /** The settings depend on the timing and window members of the configuration only. */
  lemma SettingsIgnoreIdentity(a: Configuration, b: Configuration)
    requires a.idleTimeoutMs == b.idleTimeoutMs && a.keepAliveIntervalMs == b.keepAliveIntervalMs
    requires a.streamReceiveWindow == b.streamReceiveWindow
    ensures SettingsToMsQuic(a) == SettingsToMsQuic(b)
  {
  }

  /** `QUIC_CREDENTIAL_TYPE`. */
  datatype CredentialType = CredentialTypeNone | CredentialTypeCertificateFile

  /** `QUIC_CREDENTIAL_FLAGS`. */
  datatype CredentialFlag = FlagClient | FlagNoCertificateValidation

  /** The members of `QUIC_CREDENTIAL_CONFIG` the factory fills in. */
  datatype CredentialConfig = CredentialConfig(credentialType: CredentialType, flags: set<CredentialFlag>,
                                               certificateFile: Option<Credentials>)

  /**
   * The credentials of each role: a client presents none and does not validate the server's
   * certificate; a server loads its certificate and private key from the configured files.
   */
  function CredentialConfigFor(role: Role, creds: Credentials): (c: CredentialConfig)
    ensures c.credentialType == CredentialTypeNone <==> role == Client
    ensures role == Client ==> c.flags == {FlagClient, FlagNoCertificateValidation} && c.certificateFile.None?
    ensures role == Server ==> c.flags == {} && c.certificateFile == Some(creds)
  {
    match role
    case Client => CredentialConfig(CredentialTypeNone, {FlagClient, FlagNoCertificateValidation}, None)
    case Server => CredentialConfig(CredentialTypeCertificateFile, {}, Some(creds))
  }

  /** A call into msquic, with the arguments the model tracks. */
  datatype ForeignCall =
    | MsQuicOpen2
    | RegistrationOpen(appName: string)
    | ConfigurationOpen(alpn: string, settings: QuicSettings)
    | ConfigurationLoadCredential(credential: CredentialConfig)

  /** What `MsQuicOpen2`, the three later msquic calls and the allocation return. */
  datatype FactoryOracle = FactoryOracle(
    apiTable: Option<Handle>,
    registration: Option<Handle>,
    configuration: Option<Handle>,
    credentialLoaded: bool,
    allocationOk: bool)

  /** `msquic_application`: the shared API table, registration and configuration. */
  datatype Application = Application(api: Handle, registration: Handle, configuration: Handle)

  /**
   * The msquic calls made once an API table is at hand: the registration, then, if it
   * opened, the configuration with the factory's settings, then, if that opened, the role's
   * credentials.
   */
  function SetupCalls(cfg: Configuration, o: FactoryOracle): (calls: seq<ForeignCall>)
    ensures 1 <= |calls| <= 3 && calls[0] == RegistrationOpen(cfg.appname)
    ensures |calls| >= 2 <==> o.registration.Some?
    ensures |calls| >= 2 ==> calls[1] == ConfigurationOpen(cfg.alpn, SettingsToMsQuic(cfg))
    ensures |calls| == 3 <==> o.registration.Some? && o.configuration.Some?
    ensures |calls| == 3 ==> calls[2] == ConfigurationLoadCredential(CredentialConfigFor(cfg.role, cfg.credentials))
  {
    [RegistrationOpen(cfg.appname)] +
    if o.registration.None? then []
    else [ConfigurationOpen(cfg.alpn, SettingsToMsQuic(cfg))] +
         if o.configuration.None? then []
         else [ConfigurationLoadCredential(CredentialConfigFor(cfg.role, cfg.credentials))]
  }

  /**
   * The factory's steps once it holds `api`: registration, configuration, credentials and
   * allocation, each failing step ending the call with its own error.
   */
  method Setup(cfg: Configuration, api: Handle, o: FactoryOracle) returns (r: Result<Application, QuicErrorCode>, calls: seq<ForeignCall>)
    ensures calls == SetupCalls(cfg, o)
    ensures o.registration.None? ==> r == Failure(RegistrationInitializationFailed)
    ensures o.registration.Some? && o.configuration.None? ==> r == Failure(ConfigurationInitializationFailed)
    ensures o.registration.Some? && o.configuration.Some? && !o.credentialLoaded ==>
              r == Failure(ConfigurationLoadCredentialFailed)
    ensures o.registration.Some? && o.configuration.Some? && o.credentialLoaded && !o.allocationOk ==>
              r == Failure(MemoryAllocationFailed)
    ensures r.Success? <==> o.registration.Some? && o.configuration.Some? && o.credentialLoaded && o.allocationOk
    ensures r.Success? ==> r.value == Application(api, o.registration.value, o.configuration.value)
  {
    calls := [RegistrationOpen(cfg.appname)];
    if o.registration.None? {
      r := Failure(RegistrationInitializationFailed);
    } else {
      calls := calls + [ConfigurationOpen(cfg.alpn, SettingsToMsQuic(cfg))];
      if o.configuration.None? {
        r := Failure(ConfigurationInitializationFailed);
      } else {
        calls := calls + [ConfigurationLoadCredential(CredentialConfigFor(cfg.role, cfg.credentials))];
        if !o.credentialLoaded {
          r := Failure(ConfigurationLoadCredentialFailed);
        } else if !o.allocationOk {
          r := Failure(MemoryAllocationFailed);
        } else {
          r := Success(Application(api, o.registration.value, o.configuration.value));
        }
      }
    }
  }

  /**
   * The function-local static of the factory: the observer of the API table that later
   * calls are meant to reuse.
   */
  class ApplicationFactory {
    var cachedApi: Option<Handle>

    constructor()
      ensures cachedApi.None?
    {
      cachedApi := None;
    }

    /**
     * `make_msquic_application` as written: the observer is read but never assigned, so
     * unless something else has set it, the API table is opened again on every call.
     */
    method MakeAsWritten(cfg: Configuration, o: FactoryOracle) returns (r: Result<Application, QuicErrorCode>, calls: seq<ForeignCall>)
      ensures (|calls| > 0 && calls[0] == MsQuicOpen2) <==> cachedApi.None?
      ensures cachedApi.None? && o.apiTable.None? ==> r == Failure(ApiInitializationFailed) && calls == [MsQuicOpen2]
      ensures cachedApi.None? && o.apiTable.Some? ==> calls[1..] == SetupCalls(cfg, o)
      ensures r.Success? ==> r.value.api == (if cachedApi.Some? then cachedApi.value else o.apiTable.value)
    {
      var api := cachedApi;
      calls := [];
      if api.None? {
        calls := [MsQuicOpen2];
        api := o.apiTable;
      }
      if api.None? {
        r := Failure(ApiInitializationFailed);
      } else {
        var setupCalls;
        r, setupCalls := Setup(cfg, api.value, o);
        calls := calls + setupCalls;
      }
    }

    /**
     * `make_msquic_application` with the observer assigned once the table is opened: the
     * table is opened only while none is cached, and every application shares the cached one.
     * The first failing step decides the error, as in the code.
     */
    method Make(cfg: Configuration, o: FactoryOracle) returns (r: Result<Application, QuicErrorCode>, calls: seq<ForeignCall>)
      modifies this
      ensures cachedApi == (if old(cachedApi).Some? then old(cachedApi) else o.apiTable)
      ensures (|calls| > 0 && calls[0] == MsQuicOpen2) <==> old(cachedApi).None?
      ensures cachedApi.None? ==> r == Failure(ApiInitializationFailed) && calls == [MsQuicOpen2]
      ensures cachedApi.Some? ==> calls == (if old(cachedApi).None? then [MsQuicOpen2] else []) + SetupCalls(cfg, o)
      ensures cachedApi.Some? && o.registration.None? ==> r == Failure(RegistrationInitializationFailed)
      ensures cachedApi.Some? && o.registration.Some? && o.configuration.None? ==>
                r == Failure(ConfigurationInitializationFailed)
      ensures cachedApi.Some? && o.registration.Some? && o.configuration.Some? && !o.credentialLoaded ==>
                r == Failure(ConfigurationLoadCredentialFailed)
      ensures cachedApi.Some? && o.registration.Some? && o.configuration.Some? && o.credentialLoaded && !o.allocationOk ==>
                r == Failure(MemoryAllocationFailed)
      ensures r.Success? <==> cachedApi.Some? && o.registration.Some? && o.configuration.Some? &&
                              o.credentialLoaded && o.allocationOk
      ensures r.Success? ==> r.value == Application(cachedApi.value, o.registration.value, o.configuration.value)
    {
      calls := [];
      if cachedApi.None? {
        calls := [MsQuicOpen2];
        cachedApi := o.apiTable;
      }
      if cachedApi.None? {
        r := Failure(ApiInitializationFailed);
      } else {
        var setupCalls;
        r, setupCalls := Setup(cfg, cachedApi.value, o);
        calls := calls + setupCalls;
      }
    }
  }

  /** As written, two successful calls on a fresh program each open the API table. */
  method AsWrittenOpensTwice(cfg: Configuration, o: FactoryOracle)
    returns (firstCalls: seq<ForeignCall>, secondCalls: seq<ForeignCall>)
    ensures |firstCalls| > 0 && firstCalls[0] == MsQuicOpen2
    ensures |secondCalls| > 0 && secondCalls[0] == MsQuicOpen2
  {
    var factory := new ApplicationFactory();
    var r1, r2;
    r1, firstCalls := factory.MakeAsWritten(cfg, o);
    r2, secondCalls := factory.MakeAsWritten(cfg, o);
  }

  /**
   * With the observer assigned, a second call reuses the table the first one opened: it makes
   * no `MsQuicOpen2` call and its application shares the first one's table.
   */
  method CorrectedOpensOnce(cfg: Configuration, o: FactoryOracle)
    returns (first: Result<Application, QuicErrorCode>, second: Result<Application, QuicErrorCode>,
             firstCalls: seq<ForeignCall>, secondCalls: seq<ForeignCall>)
    requires o.apiTable.Some? && o.registration.Some? && o.configuration.Some?
    requires o.credentialLoaded && o.allocationOk
    ensures |firstCalls| > 0 && firstCalls[0] == MsQuicOpen2 && MsQuicOpen2 !in secondCalls
    ensures first.Success? && second.Success? && first.value.api == second.value.api
  {
    var factory := new ApplicationFactory();
    first, firstCalls := factory.Make(cfg, o);
    second, secondCalls := factory.Make(cfg, o);
    assert secondCalls == SetupCalls(cfg, o);
  }
}
