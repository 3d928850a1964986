/**
 * Validation and normalisation of the web-service base URL read from the
 * client's configuration (main.py:629-643). A URL shorter than 16
 * characters, the unedited placeholder gateway, or one starting with
 * "http:" is rejected; otherwise one trailing "/" is removed.
 */
module BaseUrl {
  import opened Wrappers

  /** The gateway the configuration template ships with. */
  const Placeholder: string := "https://YOUR_GATEWAY_API.amazonaws.com"

  /** Why a base URL is rejected, in the order the checks are made. */
  datatype UrlError = TooShort | NotConfigured | NotHttps

  predicate StartsWith(s: string, prefix: string)
  {
    |prefix| <= |s| && s[..|prefix|] == prefix
  }

  predicate EndsWithSlash(s: string)
  {
    |s| > 0 && s[|s| - 1] == '/'
  }

  /** The checks and the slash strip as main.py:629-643 makes them. */
  function CheckBaseUrl(url: string): (r: Result<string, UrlError>)
    ensures r == Failure(TooShort) <==> |url| < 16
    ensures r == Failure(NotConfigured) <==> 16 <= |url| && url == Placeholder
    ensures r == Failure(NotHttps) <==> 16 <= |url| && url != Placeholder && StartsWith(url, "http:")
    ensures r.Success? ==>
      |r.value| >= 15 && url == r.value + (if EndsWithSlash(url) then "/" else "")
  {
    if |url| < 16 then Failure(TooShort)
    else if url == Placeholder then Failure(NotConfigured)
    else if StartsWith(url, "http:") then Failure(NotHttps)
    else if url[|url| - 1] == '/' then Success(url[..|url| - 1])
    else Success(url)
  }

  /**
   * The placeholder check is made before the slash is stripped, so the
   * placeholder written with a trailing slash is accepted and normalised
   * to the placeholder itself, which the same checks reject.
   */
  lemma PlaceholderWithSlashAccepted()
    ensures CheckBaseUrl(Placeholder + "/") == Success(Placeholder)
    ensures CheckBaseUrl(Placeholder) == Failure(NotConfigured)
  {
    var url := Placeholder + "/";
    assert url[..|url| - 1] == Placeholder;
    assert url[4] == 's' && url[..5][4] == url[4];
  }

  /** The checks with the placeholder recognised with or without its trailing slash. */
  function CheckGatewayUrl(url: string): (r: Result<string, UrlError>)
    ensures r == Failure(TooShort) <==> |url| < 16
    ensures r == Failure(NotConfigured) <==> 16 <= |url| && (url == Placeholder || url == Placeholder + "/")
    ensures r == Failure(NotHttps) <==>
      16 <= |url| && url != Placeholder && url != Placeholder + "/" && StartsWith(url, "http:")
    ensures r.Success? ==>
      |r.value| >= 15 && r.value != Placeholder && url == r.value + (if EndsWithSlash(url) then "/" else "")
  {
    if |url| < 16 then Failure(TooShort)
    else if url == Placeholder || url == Placeholder + "/" then Failure(NotConfigured)
    else if StartsWith(url, "http:") then Failure(NotHttps)
    else if url[|url| - 1] == '/' then
      assert url == url[..|url| - 1] + "/";
      Success(url[..|url| - 1])
    else Success(url)
  }

  /** The corrected checks differ from the original on that one input only. */
  lemma GatewayAgreesElsewhere(url: string)
    requires url != Placeholder + "/"
    ensures CheckGatewayUrl(url) == CheckBaseUrl(url)
  {
  }

  /**
   * A base URL accepted by the corrected checks is accepted again, unchanged,
   * when it is long enough and no longer ends with a slash.
   */
  lemma GatewayStable(url: string)
    requires CheckGatewayUrl(url).Success?
    requires var b := CheckGatewayUrl(url).value; |b| >= 16 && !EndsWithSlash(b)
    ensures CheckGatewayUrl(CheckGatewayUrl(url).value) == CheckGatewayUrl(url)
  {
    var b := CheckGatewayUrl(url).value;
    assert b == url[..|b|];
    assert b[..5] == url[..5];
    assert b != Placeholder + "/" by {
      assert !EndsWithSlash(b);
    }
  }
}
