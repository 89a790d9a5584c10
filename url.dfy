/** The decomposed URL that the metric works on (what `urllib.parse.urlsplit` yields). */
module Url {
  import opened Wrappers

  /**
   * The result of `parse_qs(query, keep_blank_values=False)`: each key maps to
   * the list of its values in order. Blank values are dropped, and a key whose
   * values are all blank is dropped with them, so no list is ever empty.
   */
  type QueryMap = q: map<string, seq<string>> | forall k :: k in q ==> q[k] != []
    witness map[]

  /**
   * `username`, `password`, `hostname` and `port` are `None` when the URL does
   * not have them. `query` is stored already parsed.
   */
  datatype ParsedUrl = ParsedUrl(
    scheme: string,
    username: Option<string>,
    password: Option<string>,
    hostname: Option<string>,
    port: Option<int>,
    path: string,
    query: QueryMap,
    fragment: string)
}
