/** `KittenService.buildKittenUrl`: the placeholder-image URL of the not-found page, with
    width and height raised to their defaults when missing, zero or too small. */
module KittenService {
  import opened Wrappers
  import opened Text

  const BaseUrl := "https://placekitten.com"
  const DefaultWidth: nat := 600
  const DefaultHeight: nat := 500

  /** `given && given >= default ? given : default`: the given dimension when it is
      present and at least the default, otherwise the default. */
  function Dimension(given: Option<int>, default: nat): (d: nat)
    ensures d >= default
    ensures given.Some? && given.value >= default ==> d == given.value
    ensures !(given.Some? && given.value >= default) ==> d == default
  {
    if IsTruthy(given) && given.value >= default then given.value else default
  }

  /** `baseUrl/width/height`. */
  function KittenUrl(width: nat, height: nat): string {
    BaseUrl + "/" + NatToString(width) + "/" + NatToString(height)
  }

  predicate AllDigits(s: string) {
    forall i :: 0 <= i < |s| ==> IsDigit(s[i])
  }

  /** Reads the two dimensions back out of a kitten URL. */
  function ParseKittenUrl(url: string): Option<(nat, nat)> {
    var prefix := BaseUrl + "/";
    if |url| < |prefix| || url[..|prefix|] != prefix then None
    else
      var rest := url[|prefix|..];
      var w, h := Before(rest, '/'), After(rest, '/');
      if w == [] || h == [] || !AllDigits(w) || !AllDigits(h) then None
      else Some((ParseNat(w), ParseNat(h)))
  }

  /** The URL names exactly the two dimensions it was built from. */
  lemma ParseKittenUrlRoundTrip(width: nat, height: nat)
    ensures ParseKittenUrl(KittenUrl(width, height)) == Some((width, height))
  {
    var url := KittenUrl(width, height);
    var prefix := BaseUrl + "/";
    var w, h := NatToString(width), NatToString(height);
    assert url == prefix + (w + ['/'] + h);
    assert url[..|prefix|] == prefix;
    assert url[|prefix|..] == w + ['/'] + h;
    assert '/' !in w by {
      forall i | 0 <= i < |w| ensures w[i] != '/' { assert IsDigit(w[i]); }
    }
    SplitAtFirst(w, '/', h);
    ParseNatToString(width);
    ParseNatToString(height);
  }

  /** `buildKittenUrl`: starts from the base URL and a slash, then appends the chosen
      width, a slash and the chosen height. */
  method BuildKittenUrl(width: Option<int>, height: Option<int>) returns (apiUrl: string)
    ensures apiUrl == KittenUrl(Dimension(width, DefaultWidth), Dimension(height, DefaultHeight))
    ensures ParseKittenUrl(apiUrl) == Some((Dimension(width, DefaultWidth), Dimension(height, DefaultHeight)))
  {
    apiUrl := BaseUrl + "/";
    apiUrl := apiUrl + NatToString(if IsTruthy(width) && width.value >= DefaultWidth then width.value else DefaultWidth);
    apiUrl := apiUrl + "/";
    apiUrl := apiUrl + NatToString(if IsTruthy(height) && height.value >= DefaultHeight then height.value else DefaultHeight);
    ParseKittenUrlRoundTrip(Dimension(width, DefaultWidth), Dimension(height, DefaultHeight));
  }

  /** With no arguments, as the not-found page calls it, and likewise with zero
      arguments, the URL asks for a 600 by 500 image. */
  lemma DefaultKittenUrl()
    ensures KittenUrl(Dimension(None, DefaultWidth), Dimension(None, DefaultHeight)) == "https://placekitten.com/600/500"
    ensures KittenUrl(Dimension(Some(0), DefaultWidth), Dimension(Some(0), DefaultHeight)) == "https://placekitten.com/600/500"
  {
    assert NatToString(600) == "600" by {
      assert NatToString(60) == "60" by { assert NatToString(6) == "6"; }
    }
    assert NatToString(500) == "500" by {
      assert NatToString(50) == "50" by { assert NatToString(5) == "5"; }
    }
  }
}
