/** The front end's `getApiUrl` helper (frontend/utils/api.js): every API path
    is made relative to the site root, where the hosting layer forwards it to the
    backend. */
module ApiUrl {
  import opened Wrappers
  import opened Text

  /** `getApiUrl(endpoint)`. A missing endpoint (`undefined`, `null`) is `None`;
      the empty string is falsy in JavaScript and takes the same branch. The
      result is the endpoint itself, or the endpoint with one "/" in front, or "/". */
  function GetApiUrl(endpoint: Option<string>): (url: string)
    ensures StartsWith(url, "/")
    ensures endpoint.Some? ==> |endpoint.value| <= |url| <= |endpoint.value| + 1
    ensures endpoint.Some? ==> url[|url| - |endpoint.value|..] == endpoint.value
  {
    if endpoint.None? || endpoint.value == "" then "/"
    else if StartsWith(endpoint.value, "/") then endpoint.value
    else "/" + endpoint.value
  }

  /** A missing or empty endpoint yields the root path. */
  lemma EmptyEndpointIsRoot(endpoint: Option<string>)
    requires endpoint.None? || endpoint.value == ""
    ensures GetApiUrl(endpoint) == "/"
  {
  }

  /** An endpoint that already starts with "/" comes back unchanged; any other
      non-empty endpoint comes back with exactly one "/" in front. */
  lemma NonEmptyEndpoint(e: string)
    requires e != ""
    ensures StartsWith(e, "/") ==> GetApiUrl(Some(e)) == e
    ensures !StartsWith(e, "/") ==> GetApiUrl(Some(e)) == "/" + e
  {
  }

  /** Normalising twice is the same as normalising once. */
  lemma Idempotent(endpoint: Option<string>)
    ensures GetApiUrl(Some(GetApiUrl(endpoint))) == GetApiUrl(endpoint)
  {
  }
}
