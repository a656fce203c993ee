/** The exceptions that can end one run of the onboarding chain. */
module Errors {

  datatype Error =
      /** `httpx.HTTPError` raised before a response arrived: timeout, refused connection. */
    | TransportError(detail: string)
      /** `raise_for_status()` on a response whose status is not 2xx; carries the raw body text. */
    | HttpStatusError(status: int, body: string)
      /** `state[key]` on a state that has no such key. */
    | KeyError(key: string)
}
