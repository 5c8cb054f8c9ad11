/**
 * `ApiKeyFilter` of the product service: documentation paths are let
 * through; every other request must carry the configured key in its
 * `x-api-key` header.
 */
module ApiKeyFilter {
  import opened Wrappers

  /** What the filter does with a request: pass it, untouched, down the chain, or answer it itself. */
  datatype Decision = Forward | Reject(status: int, body: string)

  /** `HttpServletResponse.SC_UNAUTHORIZED`. */
  const Unauthorized := 401

  const InvalidKeyBody := "{\"errors\":[{\"status\":\"401\",\"detail\":\"API Key inválida\"}]}"

  /** The path prefixes `shouldNotFilter` exempts, in the order it tests them. */
  const DocumentationPrefixes: seq<string> := ["/swagger-ui", "/v3/api-docs", "/api-docs", "/swagger-resources"]

  /** `shouldNotFilter`: whether the request URI starts with one of the documentation prefixes. */
  function ShouldNotFilter(path: string): (exempt: bool)
    ensures exempt <==> exists i :: 0 <= i < |DocumentationPrefixes| && DocumentationPrefixes[i] <= path
  {
    || DocumentationPrefixes[0] <= path
    || DocumentationPrefixes[1] <= path
    || DocumentationPrefixes[2] <= path
    || DocumentationPrefixes[3] <= path
  }

  /**
   * `doFilterInternal`: a request whose `x-api-key` header (absent: `None`)
   * equals the configured key goes on; any other gets 401 and the fixed body.
   */
  function DoFilterInternal(apiKey: string, requestApiKey: Option<string>): (d: Decision)
    ensures d.Forward? <==> requestApiKey == Some(apiKey)
    ensures d.Reject? ==> d.status == 401 && d.body == InvalidKeyBody
  {
    if requestApiKey != Some(apiKey) then Reject(Unauthorized, InvalidKeyBody) else Forward
  }

  /**
   * The filter as a whole: `OncePerRequestFilter` skips `doFilterInternal`
   * for exempt paths and forwards them.
   */
  function Filter(apiKey: string, path: string, requestApiKey: Option<string>): (d: Decision)
    ensures d.Forward? <==> ShouldNotFilter(path) || requestApiKey == Some(apiKey)
    ensures d.Reject? ==> d == Reject(Unauthorized, InvalidKeyBody)
  {
    if ShouldNotFilter(path) then Forward else DoFilterInternal(apiKey, requestApiKey)
  }

  /** Everything under an exempt path is exempt too. */
  lemma ExemptionExtends(path: string, suffix: string)
    requires ShouldNotFilter(path)
    ensures ShouldNotFilter(path + suffix)
  {
  }

  /** Every documentation page, whatever follows the prefix, is exempt. */
  lemma DocumentationExempt(rest: string)
    ensures ShouldNotFilter("/swagger-ui" + rest) && ShouldNotFilter("/v3/api-docs" + rest)
    ensures ShouldNotFilter("/api-docs" + rest) && ShouldNotFilter("/swagger-resources" + rest)
  {
  }

  /**
   * The service's endpoints live under `/api/`, and no path there is
   * exempt: without the right key they are all rejected.
   */
  lemma ApiPathsRequireKey(apiKey: string, rest: string, requestApiKey: Option<string>)
    ensures !ShouldNotFilter("/api/" + rest)
    ensures requestApiKey != Some(apiKey) ==>
      Filter(apiKey, "/api/" + rest, requestApiKey) == Reject(Unauthorized, InvalidKeyBody)
  {
    var path := "/api/" + rest;
    assert path[1] == 'a' && path[4] == '/';
    assert "/swagger-ui"[1] == 's' && "/v3/api-docs"[1] == 'v';
    assert "/api-docs"[4] == '-' && "/swagger-resources"[1] == 's';
  }
}
