/** What a `fetch` settles to, passed in as data instead of performed. */
module Network {
  import opened CacheStorage

  /** `Ok` when the fetch promise resolves (whatever the status), `Fail` when it rejects. */
  datatype NetOutcome = Ok(response: Response) | Fail

  /**
   * A 2xx status: what `Response.ok` reports, and the status check of
   * `cache.addAll` (which further rejects 206 and `Vary: *`, not modelled).
   */
  predicate IsOkStatus(response: Response) {
    200 <= response.status <= 299
  }
}
