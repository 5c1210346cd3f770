/**
 * The clean-up `create_jama_client` applies to the configured
 * `jama_connect_url` before it builds the client: strip whitespace, drop
 * trailing slashes (but never below a bare scheme), and default the scheme
 * to `https://`.
 */
module ClientUrl {
  import opened PyText

  predicate EndsWithSlash(s: string) {
    |s| > 0 && s[|s| - 1] == '/'
  }

  /** `url.startswith('https://') or url.startswith('http://')` */
  predicate HasScheme(s: string) {
    "https://" <= s || "http://" <= s
  }

  predicate IsBareScheme(s: string) {
    s == "https://" || s == "http://"
  }

  /**
   * The string the trailing-slash loop leaves: `s` shortened one '/' at a
   * time until it no longer ends with '/' or is a bare scheme. It is the
   * longest prefix at which the loop may stop, with only slashes cut off.
   */
  function DropTrailingSlashes(s: string): (r: string)
    ensures |r| <= |s| && r == s[..|r|]
    ensures forall k :: |r| <= k < |s| ==> s[k] == '/'
    ensures !EndsWithSlash(r) || IsBareScheme(r)
    ensures forall k :: |r| < k <= |s| ==> EndsWithSlash(s[..k]) && !IsBareScheme(s[..k])
    decreases |s|
  {
    if EndsWithSlash(s) && !IsBareScheme(s) then
      var r := DropTrailingSlashes(s[..|s| - 1]);
      assert forall k :: 0 <= k <= |s| - 1 ==> s[..|s| - 1][..k] == s[..k];
      r
    else
      s
  }

  /** The URL the client is created with, for the configured value `configured`. */
  function NormalizedUrl(configured: string): (url: string)
    ensures HasScheme(url)
    ensures !EndsWithSlash(url) || IsBareScheme(url)
  {
    var t := DropTrailingSlashes(Strip(configured));
    if HasScheme(t) then t else "https://" + t
  }

  /**
   * The URL clean-up of `create_jama_client`. The scheme `https://` is
   * prepended exactly when the stripped, slash-trimmed value carries
   * neither scheme; otherwise that value is used as it is.
   */
  method NormalizeConnectUrl(configured: string) returns (url: string)
    ensures url == NormalizedUrl(configured)
    ensures HasScheme(url)
    ensures !EndsWithSlash(url) || IsBareScheme(url)
    ensures var t := DropTrailingSlashes(Strip(configured));
            (HasScheme(t) ==> url == t) && (!HasScheme(t) ==> url == "https://" + t)
  {
    url := Strip(configured);
    while EndsWithSlash(url) && url != "https://" && url != "http://"
      invariant DropTrailingSlashes(url) == DropTrailingSlashes(Strip(configured))
      decreases |url|
    {
      url := url[0..|url| - 1];
    }
    if !("https://" <= url || "http://" <= url) {
      url := "https://" + url;
    }
  }
}
