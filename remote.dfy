/**
 * The Apps Script endpoint, seen from the pages. Requests are not modelled;
 * what comes back is a parameter of the operations that use it.
 */
module Remote {
  import opened Records

  /** The value the code ships with in place of a deployed endpoint URL. */
  const Placeholder := "YOUR_APPS_SCRIPT_URL_HERE"

  /** `APPS_SCRIPT_URL && APPS_SCRIPT_URL !== 'YOUR_APPS_SCRIPT_URL_HERE'`. */
  predicate IsConfigured(url: string) {
    url != "" && url != Placeholder
  }

  /** What a `getAll` request yields: a failed fetch, a body without a `records` array, or the records. */
  datatype FetchResult = NetworkError | Malformed | Fetched(records: seq<Record>)

  /** The connection indicator of the admin page. */
  datatype ConnectionStatus = Loading | Live | Offline | Error
}
