/** The remote side of a proxy repository: `client.HTTPClient.Get`
    (pkg/client/client.go) reduced to what the proxy observes. The network
    is a fixed answer per URL, and the fetcher records every URL it is asked
    for, so that mirror order and short-circuiting can be stated. */
module Remote {
  import opened Common

  /** What `Get(url)` hands back: the body, status and headers, or an error
      (the request failed, or the body could not be read). */
  datatype FetchResult =
    | Fetched(data: Bytes, status: int, headers: Headers)
    | FetchError

  class Fetcher {
    /** The answer each URL gets. */
    const answer: string -> FetchResult
    /** Every URL requested so far, oldest first. */
    var contacted: seq<string>

    constructor (answer: string -> FetchResult)
      ensures this.answer == answer && contacted == []
    {
      this.answer := answer;
      contacted := [];
    }

    method Get(url: string) returns (f: FetchResult)
      modifies this
      ensures f == answer(url)
      ensures contacted == old(contacted) + [url]
    {
      f := answer(url);
      contacted := contacted + [url];
    }
  }
}
