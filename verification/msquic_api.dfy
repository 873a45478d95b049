/**
 * `msquic_api`: the msquic API table and the registration, configuration, listener and
 * connection handles of one endpoint, and the guard logic of `listen`, `connect` and the
 * initialisation steps. Every call into msquic is an oracle: the handle it leaves in its
 * out-parameter (`None` for null) or whether its status is a success.
 */
module MsQuicApi {
  import opened Wrappers
  import opened QuicErrors
  import opened KeyedContainers
  import opened QuicConfiguration

  /**
   * The `QUIC_SETTINGS` that `initialize_configuration` hands to `ConfigurationOpen`: the idle
   * timeout when one is configured, resumption with 0-RTT, no send buffering and a single
   * peer-opened bidirectional stream; nothing else is set.
   */
  function ApiSettings(cfg: Configuration): (s: QuicSettings)
    ensures s.idleTimeoutMs.Some? <==> cfg.idleTimeoutMs.Some?
    ensures cfg.idleTimeoutMs.Some? ==> s.idleTimeoutMs.value == ToU64(cfg.idleTimeoutMs.value)
    ensures s.serverResumptionLevel == Some(ResumeAndZeroRtt)
    ensures s.sendBufferingEnabled == Some(false)
    ensures s.peerBidiStreamCount == Some(1)
    ensures s.keepAliveIntervalMs.None? && s.streamRecvWindowDefault.None?
  {
    QuicSettings(
      if cfg.idleTimeoutMs.Some? then Some(ToU64(cfg.idleTimeoutMs.value)) else None,
      None,
      Some(ResumeAndZeroRtt),
      Some(false),
      Some(1),
      None)
  }

  /**
   * `initialize_credentials`: the certificate file must exist, then the private key file,
   * then `ConfigurationLoadCredential` must succeed; the first check that fails decides the
   * error.
   */
  function CredentialsOutcome(certificateExists: bool, privateKeyExists: bool, loaded: bool): (e: QuicErrorCode)
    ensures e == NoError <==> certificateExists && privateKeyExists && loaded
    ensures !certificateExists ==> e == MissingCertificate
    ensures certificateExists && !privateKeyExists ==> e == MissingPrivateKey
    ensures certificateExists && privateKeyExists && !loaded ==> e == ConfigurationLoadCredentialFailed
  {
    if !certificateExists then MissingCertificate
    else if !privateKeyExists then MissingPrivateKey
    else if !loaded then ConfigurationLoadCredentialFailed
    else NoError
  }

  /** What the msquic calls of `make` return, in the order they are made. */
  datatype InitOracle = InitOracle(
    apiTable: Option<Handle>,
    registration: Option<Handle>,
    configuration: Option<Handle>,
    certificateExists: bool,
    privateKeyExists: bool,
    credentialLoaded: bool)

  class MsQuicApiContext {
    var api: Option<Handle>
    var registration: Option<Handle>
    var configuration: Option<Handle>
    var listener: Option<Handle>
    var connection: Option<Handle>

    /** A default-constructed context: every handle null. */
    constructor()
      ensures api.None? && registration.None? && configuration.None?
      ensures listener.None? && connection.None?
    {
      api, registration, configuration := None, None, None;
      listener, connection := None, None;
    }

    /** `api && registration && configuration`. */
    predicate Initialized()
      reads this
    {
      api.Some? && registration.Some? && configuration.Some?
    }

    /**
     * `listen`: refuses when the context is not initialised, then when a listener exists;
     * otherwise stores the handle `ListenerOpen` left behind, whatever its status, fails when
     * that is null, and drops the listener again when `ListenerStart` fails, so a later call
     * can retry. Only the listener may change.
     */
    method Listen(openResult: Option<Handle>, startOk: bool) returns (e: QuicErrorCode)
      modifies this
      ensures api == old(api) && registration == old(registration) && configuration == old(configuration)
      ensures connection == old(connection)
      ensures !old(Initialized()) ==> e == Uninitialized && listener == old(listener)
      ensures old(Initialized()) && old(listener).Some? ==> e == AlreadyListening && listener == old(listener)
      ensures old(Initialized()) && old(listener).None? ==>
                (e == NoError <==> openResult.Some? && startOk) &&
                (openResult.None? ==> e == ListenerInitializationFailed) &&
                (openResult.Some? && !startOk ==> e == ListenerStartFailed) &&
                listener == (if e == NoError then openResult else None)
      ensures e == NoError ==> listener.Some?
    {
      if !Initialized() {
        e := Uninitialized;
      } else if listener.Some? {
        e := AlreadyListening;
      } else {
        listener := openResult;
        if listener.None? {
          e := ListenerInitializationFailed;
        } else if !startOk {
          listener := None;
          e := ListenerStartFailed;
        } else {
          e := NoError;
        }
      }
    }

    /**
     * `connect`: replaces any existing connection, without a guard, by the handle
     * `ConnectionOpen` left behind; fails when that is null, and drops the connection again
     * when `ConnectionStart` fails. Only the connection may change.
     */
    method Connect(openResult: Option<Handle>, startOk: bool) returns (e: QuicErrorCode)
      modifies this
      ensures api == old(api) && registration == old(registration) && configuration == old(configuration)
      ensures listener == old(listener)
      ensures e == NoError <==> openResult.Some? && startOk
      ensures openResult.None? ==> e == ConnectionInitializationFailed
      ensures openResult.Some? && !startOk ==> e == ConnectionStartFailed
      ensures connection == (if e == NoError then openResult else None)
    {
      connection := openResult;
      if connection.None? {
        e := ConnectionInitializationFailed;
      } else if !startOk {
        connection := None;
        e := ConnectionStartFailed;
      } else {
        e := NoError;
      }
    }

    /** `initialize_registration`: keeps the handle `RegistrationOpen` gave, null on failure. */
    method InitializeRegistration(openResult: Option<Handle>) returns (ok: bool)
      modifies this
      ensures registration == openResult && (ok <==> openResult.Some?)
      ensures api == old(api) && configuration == old(configuration)
      ensures listener == old(listener) && connection == old(connection)
    {
      registration := openResult;
      ok := registration.Some?;
    }

    /**
     * `initialize_configuration`: keeps the handle `ConfigurationOpen` gave, null on failure;
     * `settings` is what it was given.
     */
    method InitializeConfiguration(cfg: Configuration, openResult: Option<Handle>) returns (ok: bool, settings: QuicSettings)
      modifies this
      ensures configuration == openResult && (ok <==> openResult.Some?)
      ensures settings == ApiSettings(cfg)
      ensures api == old(api) && registration == old(registration)
      ensures listener == old(listener) && connection == old(connection)
    {
      settings := ApiSettings(cfg);
      configuration := openResult;
      ok := configuration.Some?;
    }
  }

  /**
   * `initialize_msquic`: registration, then configuration, then credentials; the first step
   * that fails decides the error, and any credentials failure, a missing file included, is
   * reported as `configuration_load_credential_failed`.
   */
  method InitializeMsQuic(cfg: Configuration, ctx: MsQuicApiContext, o: InitOracle) returns (r: Result<MsQuicApiContext, QuicErrorCode>)
    requires ctx.api.Some?
    modifies ctx
    ensures o.registration.None? ==> r == Failure(RegistrationInitializationFailed)
    ensures o.registration.Some? && o.configuration.None? ==> r == Failure(ConfigurationInitializationFailed)
    ensures o.registration.Some? && o.configuration.Some? &&
            Failed(CredentialsOutcome(o.certificateExists, o.privateKeyExists, o.credentialLoaded)) ==>
              r == Failure(ConfigurationLoadCredentialFailed)
    ensures r.Success? <==> o.registration.Some? && o.configuration.Some? &&
                            CredentialsOutcome(o.certificateExists, o.privateKeyExists, o.credentialLoaded) == NoError
    ensures r.Success? ==> r.value == ctx && ctx.Initialized() && ctx.api == old(ctx.api) &&
                           ctx.registration == o.registration && ctx.configuration == o.configuration &&
                           ctx.listener == old(ctx.listener) && ctx.connection == old(ctx.connection)
  {
    var registered := ctx.InitializeRegistration(o.registration);
    if !registered {
      r := Failure(RegistrationInitializationFailed);
    } else {
      var configured, _ := ctx.InitializeConfiguration(cfg, o.configuration);
      if !configured {
        r := Failure(ConfigurationInitializationFailed);
      } else if Failed(CredentialsOutcome(o.certificateExists, o.privateKeyExists, o.credentialLoaded)) {
        r := Failure(ConfigurationLoadCredentialFailed);
      } else {
        r := Success(ctx);
      }
    }
  }

  /**
   * `make`: opens the API table on a new context, fails when it is null, and hands the context
   * to `initialize_msquic`. A context it returns has no listener and no connection yet.
   */
  method Make(cfg: Configuration, o: InitOracle) returns (r: Result<MsQuicApiContext, QuicErrorCode>)
    ensures o.apiTable.None? ==> r == Failure(ApiInitializationFailed)
    ensures o.apiTable.Some? && o.registration.None? ==> r == Failure(RegistrationInitializationFailed)
    ensures o.apiTable.Some? && o.registration.Some? && o.configuration.None? ==>
              r == Failure(ConfigurationInitializationFailed)
    ensures o.apiTable.Some? && o.registration.Some? && o.configuration.Some? &&
            Failed(CredentialsOutcome(o.certificateExists, o.privateKeyExists, o.credentialLoaded)) ==>
              r == Failure(ConfigurationLoadCredentialFailed)
    ensures r.Success? <==> o.apiTable.Some? && o.registration.Some? && o.configuration.Some? &&
                            CredentialsOutcome(o.certificateExists, o.privateKeyExists, o.credentialLoaded) == NoError
    ensures r.Success? ==> fresh(r.value) && r.value.Initialized() &&
                           r.value.api == o.apiTable && r.value.registration == o.registration &&
                           r.value.configuration == o.configuration &&
                           r.value.listener.None? && r.value.connection.None?
  {
    var ctx := new MsQuicApiContext();
    ctx.api := o.apiTable;
    if ctx.api.None? {
      r := Failure(ApiInitializationFailed);
    } else {
      r := InitializeMsQuic(cfg, ctx, o);
    }
  }

  /**
   * On a context `make` produced, a `listen` whose start fails leaves no listener behind, so
   * the next `listen` succeeds, and a third one is refused because the listener is alive.
   */
  method ListenRetriesAfterStartFailure(cfg: Configuration, o: InitOracle, first: Handle, second: Handle, third: Handle)
    returns (made: bool, failed: QuicErrorCode, retried: QuicErrorCode, again: QuicErrorCode)
    requires o.apiTable.Some? && o.registration.Some? && o.configuration.Some?
    requires o.certificateExists && o.privateKeyExists && o.credentialLoaded
    ensures made
    ensures failed == ListenerStartFailed && retried == NoError && again == AlreadyListening
  {
    var r := Make(cfg, o);
    made := r.Success?;
    var ctx := r.value;
    failed := ctx.Listen(Some(first), false);
    retried := ctx.Listen(Some(second), true);
    again := ctx.Listen(Some(third), true);
  }
}
