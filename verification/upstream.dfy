/**
 * The boundary to the streaming server's metrics endpoint. The HTTP GET
 * (session, retries, timeout) is not modelled; what the exporters see of it
 * is a `fetch` function from the credential sent to the outcome of the
 * request.
 */
module Upstream {

  /** `auth=None` or a basic-auth `(username, password)` pair. */
  datatype Credential = NoAuth | Basic(username: string, password: string)

  /**
   * The exceptions the exporters catch: `HTTPError` raised by
   * `raise_for_status` (401 among them), `Timeout`, `ConnectionError`,
   * any other `RequestException`, and any other `Exception`.
   */
  datatype FetchError =
    | HttpError(status: int)
    | Timeout
    | ConnectionError
    | RequestError
    | Unexpected

  /** `response.text` of a request that raised nothing, or the error it raised. */
  datatype FetchResult = Ok(body: string) | Err(error: FetchError)

  /**
   * What one call of `fetch_real_metrics` returns (`text`), with the
   * credentials it sent, in order (`attempts`).
   */
  datatype Scrape = Scrape(text: string, attempts: seq<Credential>)
}
