/** `getDeviceInfo` of src/lib/dataCollection.ts and
    src/lib/dataCollectionOptimized.ts: browser and platform names guessed
    from the user-agent text by ordered substring tests, and the mobile flag
    of a case-insensitive regular expression. The user agent and the screen
    size are parameters. */
module Device {
  import opened Wrappers
  import opened Text

  /** The browser test: first match wins, `Unknown` when none does. */
  function BrowserName(ua: string): (b: string)
    ensures b in {"Chrome", "Firefox", "Safari", "Edge", "Opera", "Unknown"}
    ensures b == "Safari" ==> !Contains(ua, "Chrome")
    ensures b == "Chrome" ==> !Contains(ua, "Edge")
  {
    if Contains(ua, "Chrome") && !Contains(ua, "Edge") then "Chrome"
    else if Contains(ua, "Firefox") then "Firefox"
    else if Contains(ua, "Safari") && !Contains(ua, "Chrome") then "Safari"
    else if Contains(ua, "Edge") then "Edge"
    else if Contains(ua, "Opera") then "Opera"
    else "Unknown"
  }

  /** The browser is unknown exactly when no browser token occurs; the
      `Chrome`/`Edge` and `Safari`/`Chrome` exclusions never leave a token
      that does occur unreported. */
  lemma BrowserUnknownIff(ua: string)
    ensures BrowserName(ua) == "Unknown" <==>
      && !Contains(ua, "Chrome") && !Contains(ua, "Firefox") && !Contains(ua, "Safari")
      && !Contains(ua, "Edge") && !Contains(ua, "Opera")
  {
  }

  /** A user agent that names both Chrome and Safari, as Chrome's own does,
      is reported as Chrome unless it also names Edge. */
  lemma ChromeBeforeSafari(ua: string)
    requires Contains(ua, "Chrome") && Contains(ua, "Safari") && !Contains(ua, "Edge")
    ensures BrowserName(ua) == "Chrome"
  {
  }

  /** The platform test, in the same first-match style. */
  function PlatformName(ua: string): (p: string)
    ensures p in {"Windows", "macOS", "Linux", "Android", "iOS", "Unknown"}
    ensures p == "Unknown" <==>
      && !Contains(ua, "Windows") && !Contains(ua, "Mac") && !Contains(ua, "Linux")
      && !Contains(ua, "Android") && !Contains(ua, "iOS")
  {
    if Contains(ua, "Windows") then "Windows"
    else if Contains(ua, "Mac") then "macOS"
    else if Contains(ua, "Linux") then "Linux"
    else if Contains(ua, "Android") then "Android"
    else if Contains(ua, "iOS") then "iOS"
    else "Unknown"
  }

  /** Because `Linux` is checked first, a user agent naming both Linux and
      Android (as Android browsers do) is never reported as Android. */
  lemma AndroidAfterLinux(ua: string)
    requires Contains(ua, "Linux")
    ensures PlatformName(ua) != "Android"
  {
  }

  /** The alternatives of `/Android|webOS|iPhone|iPad|iPod|BlackBerry|IEMobile|Opera Mini/i`,
      lower-cased. */
  const MOBILE_TOKENS: seq<string> :=
    ["android", "webos", "iphone", "ipad", "ipod", "blackberry", "iemobile", "opera mini"]

  /** The `i` flag compares canonicalised characters; for these all-ASCII
      alternatives that is the same as comparing ASCII-lower-cased text. */
  predicate IsMobile(ua: string) {
    exists i :: 0 <= i < |MOBILE_TOKENS| && Contains(Lower(ua), MOBILE_TOKENS[i])
  }

  /** Lower-casing keeps every occurrence of a substring. */
  lemma LowerKeepsOccurrence(s: string, sub: string, i: nat)
    requires OccursAt(s, sub, i)
    ensures OccursAt(Lower(s), Lower(sub), i)
  {
    var ls, lsub := Lower(s), Lower(sub);
    forall j | 0 <= j < |sub| ensures ls[i..i + |sub|][j] == lsub[j] {
      assert ls[i + j] == LowerChar(s[i + j]);
      assert s[i + j] == s[i..i + |sub|][j] == sub[j];
    }
  }

  /** A token matches whatever the case of its letters. */
  lemma MobileIfContains(ua: string, token: string, k: int)
    requires 0 <= k < |MOBILE_TOKENS| && Lower(token) == MOBILE_TOKENS[k]
    requires Contains(ua, token)
    ensures IsMobile(ua)
  {
    ContainsIff(ua, token);
    var i: nat :| OccursAt(ua, token, i);
    LowerKeepsOccurrence(ua, token, i);
    ContainsIff(Lower(ua), Lower(token));
  }

  /** An iPhone user agent is classed as mobile. */
  lemma IPhoneIsMobile(ua: string)
    requires Contains(ua, "iPhone")
    ensures IsMobile(ua)
  {
    assert Lower("iPhone") == "iphone";
    MobileIfContains(ua, "iPhone", 2);
  }

  /** Text without any of the letters of the tokens is never mobile. */
  lemma NoLettersNotMobile(ua: string)
    requires forall i :: 0 <= i < |ua| ==> !('a' <= LowerChar(ua[i]) <= 'z')
    ensures !IsMobile(ua)
  {
    forall k | 0 <= k < |MOBILE_TOKENS| ensures !Contains(Lower(ua), MOBILE_TOKENS[k]) {
      var t := MOBILE_TOKENS[k];
      assert 'a' <= t[0] <= 'z';
      forall i: nat | i + |t| <= |ua| ensures !OccursAt(Lower(ua), t, i) {
        var w := Lower(ua)[i..i + |t|];
        assert w[0] == Lower(ua)[i] == LowerChar(ua[i]);
        assert w[0] != t[0];
      }
      ContainsIff(Lower(ua), t);
    }
  }

  /** The object `getDeviceInfo` builds in src/lib/dataCollection.ts. */
  datatype DeviceInfo = DeviceInfo(platform: string, browser: string, isMobile: bool)

  function GetDeviceInfo(ua: string): (d: DeviceInfo)
    ensures d.browser == BrowserName(ua) && d.platform == PlatformName(ua)
    ensures d.isMobile <==> IsMobile(ua)
  {
    DeviceInfo(PlatformName(ua), BrowserName(ua), IsMobile(ua))
  }

  /** The richer object of src/lib/dataCollectionOptimized.ts: it also
      carries the user agent and, when both screen dimensions are non-zero,
      the resolution as `WIDTHxHEIGHT`. */
  datatype FullDeviceInfo = FullDeviceInfo(
    userAgent: string, platform: string, browser: string, isMobile: bool,
    screenResolution: Option<string>)

  function GetFullDeviceInfo(ua: string, width: nat, height: nat): (d: FullDeviceInfo)
    ensures d.userAgent == ua
    ensures GetDeviceInfo(ua) == DeviceInfo(d.platform, d.browser, d.isMobile)
    ensures d.screenResolution.Some? <==> width != 0 && height != 0
    ensures d.screenResolution.Some? ==>
      Split(d.screenResolution.value, 'x') == [NatToString(width), NatToString(height)]
  {
    var res := NatToString(width) + "x" + NatToString(height);
    if width != 0 && height != 0 then
      ResolutionSplit(width, height);
      FullDeviceInfo(ua, PlatformName(ua), BrowserName(ua), IsMobile(ua), Some(res))
    else
      FullDeviceInfo(ua, PlatformName(ua), BrowserName(ua), IsMobile(ua), None)
  }

  /** The resolution text splits back into its two dimensions. */
  lemma ResolutionSplit(width: nat, height: nat)
    ensures Split(NatToString(width) + "x" + NatToString(height), 'x') == [NatToString(width), NatToString(height)]
  {
    var w, h := NatToString(width), NatToString(height);
    assert 'x' !in w && 'x' !in h;
    SplitJoin([w, h], 'x');
    assert Join([w, h], 'x') == w + "x" + h by {
      assert [w, h][1..] == [h];
    }
  }
}
