// Normalised integration errors and which of them are retried.
module Errors {

  datatype Code =
    | TIMEOUT | UNAUTHORIZED | FORBIDDEN | NOT_FOUND | RATE_LIMITED | UPSTREAM_5XX
    | MALFORMED_RESPONSE | NETWORK | CIRCUIT_OPEN | NOT_SUPPORTED | ENVIRONMENT_MISMATCH
    | CREDENTIAL_REVOKED | SSRF_BLOCKED | CONFIG_INVALID

  datatype IntegrationError = IntegrationError(code: Code, retryable: bool)

  const DEFAULT_RETRYABLE: set<Code> := {TIMEOUT, RATE_LIMITED, UPSTREAM_5XX, NETWORK}

  /** `new IntegrationError(code, message)` without an explicit `retryable`. */
  function Default(code: Code): IntegrationError {
    IntegrationError(code, code in DEFAULT_RETRYABLE)
  }

  /** Whatever a task may throw. */
  datatype Thrown = Integration(error: IntegrationError) | Abort | Other

  function NormalizeError(t: Thrown): IntegrationError {
    match t
    case Integration(e) => e
    case Abort => Default(TIMEOUT)
    case Other => Default(NETWORK)
  }

  datatype Result<+T, +E> = Ok(value: T) | Err(error: E)
}
