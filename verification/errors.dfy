/**
 * The error codes of the QUIC layer. The enumeration in quic_error_code.hpp lists the codes
 * of the API and stream layers; the keyed containers and the application factory also use
 * codes that the enumeration shown does not list, so they are added here.
 */
module QuicErrors {

  datatype QuicErrorCode =
    | NoError
    | MissingCertificate
    | MissingPrivateKey
    | ConfigurationLoadCredentialFailed
    | Uninitialized
    | AlreadyInitialized
    | AlreadyListening
    | ApiInitializationFailed
    | RegistrationInitializationFailed
    | ConfigurationInitializationFailed
    | ListenerInitializationFailed
    | ListenerStartFailed
    | StreamOpenFailed
    | StreamStartFailed
    | StreamEmplaceFailed
    | StreamAlreadyExists
    | StreamDoesNotExist
    | ConnectionInitializationFailed
    | ConnectionStartFailed
    | ConnectionAlreadyExists
    | ConnectionDoesNotExists
    | ConnectionEmplaceFailed
    | ValueAlreadyExists
    | ValueDoesNotExists
    | ValueEmplaceFailed
    | MemoryAllocationFailed

  /** `failed(e)`: every code other than `success` (here `NoError`) is a failure. */
  predicate Failed(e: QuicErrorCode)
  {
    e != NoError
  }
}
