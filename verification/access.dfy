/** The answer of an authorization guard: let the request through, or refuse it. */
module Access {

  /** Why a guard refuses a request. */
  datatype Denial = NotAuthenticated | Forbidden

  /** `Allow` means the guard calls `next` once and writes no response. */
  datatype Access = Allow | Deny(reason: Denial)

  /** The HTTP status a refusal is answered with. */
  function StatusCode(d: Denial): int
  {
    match d
    case NotAuthenticated => 401
    case Forbidden => 403
  }

  /** The error text of a refusal's response body. */
  function DenialMessage(d: Denial): string
  {
    match d
    case NotAuthenticated => "Usuário não autenticado."
    case Forbidden => "Acesso negado. Permissão insuficiente."
  }
}
