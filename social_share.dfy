/**
 * The share panel shown after joining: the referral link, the share text and
 * the share-dialog address for each network (src/components/SocialShare.tsx).
 */
module SocialShare {
  import opened Wrappers
  import opened Text
  import opened Uri
  import opened Waitlist

  const RefMarker := "?ref="
  const TextWithCodeStart := "Join me on Groopin - the best way to find activities and meet people who share your interests! Use my code "
  const TextWithCodeEnd := " for exclusive perks"
  const TextWithoutCode := "Check out Groopin - the best way to find activities and meet people who share your interests!"

  /** The share dialogs' addresses, host and path. */
  const TwitterBase := "https://twitter.com" + "/intent/tweet"
  const FacebookBase := "https://www.facebook.com" + "/sharer/sharer.php"
  const LinkedInBase := "https://www.linkedin.com" + "/sharing/share-offsite/"

  /** A referral code prop is used only when it is present and non-empty. */
  predicate HasCode(referralCode: Option<string>) {
    referralCode.Some? && referralCode.value != ""
  }

  /** `shareUrl`: the page's origin, with `?ref=<code>` when there is a code. */
  function ShareUrl(origin: string, referralCode: Option<string>): string {
    if HasCode(referralCode) then origin + RefMarker + referralCode.value else origin
  }

  /** `shareText` */
  function ShareText(referralCode: Option<string>): string {
    if HasCode(referralCode) then TextWithCodeStart + referralCode.value + TextWithCodeEnd
    else TextWithoutCode
  }

  /** The networks the share buttons name. */
  datatype Platform = Twitter | Facebook | LinkedIn

  /** The platform a button's name selects; any other name selects none. */
  function PlatformNamed(name: string): Option<Platform> {
    if name == "twitter" then Some(Twitter)
    else if name == "facebook" then Some(Facebook)
    else if name == "linkedin" then Some(LinkedIn)
    else None
  }

  /** A `name=value` query pair. */
  function Pair(name: string, value: string): string {
    name + "=" + value
  }

  /** The share dialog's address for a platform, carrying the encoded text and link. */
  function DialogUrl(p: Platform, origin: string, referralCode: Option<string>): string {
    var encodedText := EncodeURIComponent(ShareText(referralCode));
    var encodedUrl := EncodeURIComponent(ShareUrl(origin, referralCode));
    match p
    case Twitter => TwitterBase + "?" + (Pair("text", encodedText) + "&" + Pair("url", encodedUrl))
    case Facebook => FacebookBase + "?" + Pair("u", encodedUrl)
    case LinkedIn => LinkedInBase + "?" + Pair("url", encodedUrl)
  }

  /** `handleShare`: the address opened in a new window; `None` where the switch leaves it empty. */
  function ShareTarget(platform: string, origin: string, referralCode: Option<string>): Option<string> {
    match PlatformNamed(platform)
    case None => None
    case Some(p) => Some(DialogUrl(p, origin, referralCode))
  }

  /** The text names the code it invites with. */
  lemma ShareTextNamesCode(code: string)
    requires code != ""
    ensures Contains(ShareText(Some(code)), code)
    ensures !HasCode(None) && ShareText(None) == TextWithoutCode
  {
    var t := ShareText(Some(code));
    ContainsIff(t, code);
    assert OccursAt(t, code, |TextWithCodeStart|);
  }

  // ---------------------------------------------------------------- reading the links back

  /** A page address without a query or a fragment. */
  predicate PlainAddress(a: string) {
    '?' !in a && '#' !in a
  }

  lemma SearchOfQuery(base: string, query: string)
    requires PlainAddress(base) && '#' !in query && query != ""
    ensures SearchOf(base + "?" + query) == "?" + query
  {
    var url := base + "?" + query;
    assert '#' !in url;
    assert url[|base|] == '?';
    assert IndexOf(url, '?') == |base|;
    assert url[|base|..] == "?" + query;
  }

  lemma SplitTwo(a: string, b: string)
    requires '&' !in a && '&' !in b
    ensures Split(a + "&" + b, '&') == [a, b]
  {
    var s := a + "&" + b;
    assert s[|a|] == '&';
    assert IndexOf(s, '&') == |a|;
    assert s[..|a|] == a && s[|a| + 1..] == b;
  }

  /** The first pair of a query, when it is `name=value`, gives `value`. */
  lemma ParamFirst(name: string, value: string, rest: seq<string>)
    requires name != "" && '=' !in name
    ensures ParamIn([name + "=" + value] + rest, name) == Some(value)
  {
    var p := name + "=" + value;
    assert p[|name|] == '=';
    assert IndexOf(p, '=') == |name|;
    assert p[..|name|] == name && p[|name| + 1..] == value;
  }

  /** A pair with another name is passed over. */
  lemma ParamSkip(other: string, value: string, rest: seq<string>, name: string)
    requires other != "" && '=' !in other && other != name
    ensures ParamIn([other + "=" + value] + rest, name) == ParamIn(rest, name)
  {
    var p := other + "=" + value;
    assert p[|other|] == '=';
    assert IndexOf(p, '=') == |other|;
    assert p[..|other|] == other;
    assert ([p] + rest)[1..] == rest;
  }

  /** The parameters of a link made of a plain address and a query. */
  lemma SearchParamOfQuery(base: string, query: string, name: string)
    requires PlainAddress(base) && '#' !in query && query != ""
    ensures SearchParam(SearchOf(base + "?" + query), name) == ParamIn(Split(query, '&'), name)
  {
    SearchOfQuery(base, query);
    assert ("?" + query)[1..] == query;
  }

  /** A one-parameter link gives back its value. */
  lemma OneParam(base: string, name: string, value: string)
    requires PlainAddress(base) && name != "" && '=' !in name && '&' !in name && '#' !in name
    requires '&' !in value && '#' !in value
    ensures SearchParam(SearchOf(base + "?" + Pair(name, value)), name) == Some(value)
  {
    var q := Pair(name, value);
    SearchParamOfQuery(base, q, name);
    assert Split(q, '&') == [q];
    ParamFirst(name, value, []);
  }

  /** A query of two pairs gives back both values. */
  lemma TwoPairs(n1: string, v1: string, n2: string, v2: string)
    requires n1 != "" && n2 != "" && n1 != n2
    requires '=' !in n1 && '&' !in n1 && '=' !in n2 && '&' !in n2 && '&' !in v1 && '&' !in v2
    ensures ParamIn(Split(Pair(n1, v1) + "&" + Pair(n2, v2), '&'), n1) == Some(v1)
    ensures ParamIn(Split(Pair(n1, v1) + "&" + Pair(n2, v2), '&'), n2) == Some(v2)
  {
    var a, b := Pair(n1, v1), Pair(n2, v2);
    assert '&' !in a && '&' !in b;
    SplitTwo(a, b);
    assert [a, b] == [a] + [b];
    ParamFirst(n1, v1, [b]);
    ParamSkip(n1, v1, [b], n2);
    ParamFirst(n2, v2, []);
    assert [b] + [] == [b];
  }

  /** A two-parameter link gives back both values. */
  lemma TwoParams(base: string, n1: string, v1: string, n2: string, v2: string)
    requires PlainAddress(base) && n1 != "" && n2 != "" && n1 != n2
    requires '=' !in n1 && '&' !in n1 && '#' !in n1 && '=' !in n2 && '&' !in n2 && '#' !in n2
    requires '&' !in v1 && '#' !in v1 && '&' !in v2 && '#' !in v2
    ensures SearchParam(SearchOf(base + "?" + (Pair(n1, v1) + "&" + Pair(n2, v2))), n1) == Some(v1)
    ensures SearchParam(SearchOf(base + "?" + (Pair(n1, v1) + "&" + Pair(n2, v2))), n2) == Some(v2)
  {
    var q := Pair(n1, v1) + "&" + Pair(n2, v2);
    assert '#' !in q;
    SearchParamOfQuery(base, q, n1);
    SearchParamOfQuery(base, q, n2);
    TwoPairs(n1, v1, n2, v2);
  }

  /**
   * A shared link brings its code back: the signup form opened from it reads
   * the same referral code from `?ref=`.
   */
  lemma ShareUrlCarriesCode(origin: string, code: string)
    requires PlainAddress(origin) && code != ""
    requires forall i :: 0 <= i < |code| ==> IsAlphaNum(code[i])
    ensures RefFromSearch(SearchOf(ShareUrl(origin, Some(code)))) == Some(code)
  {
    assert ShareUrl(origin, Some(code)) == origin + "?" + Pair("ref", code);
    assert '#' !in code && '&' !in code by {
      assert forall i :: 0 <= i < |code| ==> code[i] != '#' && code[i] != '&';
    }
    OneParam(origin, "ref", code);
  }

  /** A link without a code carries no referral. */
  lemma PlainShareUrlCarriesNothing(origin: string)
    requires PlainAddress(origin)
    ensures ShareUrl(origin, None) == origin && SearchOf(origin) == ""
  {
  }

  lemma TwitterBaseIsPlain()
    ensures PlainAddress(TwitterBase)
  {
    assert PlainAddress("https://twitter.com");
    assert PlainAddress("/intent/tweet");
  }

  lemma FacebookBaseIsPlain()
    ensures PlainAddress(FacebookBase)
  {
    assert PlainAddress("https://www.facebook.com");
    assert PlainAddress("/sharer/sharer.php");
  }

  lemma LinkedInBaseIsPlain()
    ensures PlainAddress(LinkedInBase)
  {
    assert PlainAddress("https://www.linkedin.com");
    assert PlainAddress("/sharing/share-offsite/");
  }

  lemma TwitterQuery(et: string, eu: string)
    requires '&' !in et && '#' !in et && '&' !in eu && '#' !in eu
    ensures SearchParam(SearchOf(TwitterBase + "?" + (Pair("text", et) + "&" + Pair("url", eu))), "text") == Some(et)
    ensures SearchParam(SearchOf(TwitterBase + "?" + (Pair("text", et) + "&" + Pair("url", eu))), "url") == Some(eu)
  {
    TwitterBaseIsPlain();
    assert "text" != "url";
    TwoParams(TwitterBase, "text", et, "url", eu);
  }

  /** The tweet dialog receives the share text and the share link. */
  lemma TwitterTargetCarries(origin: string, referralCode: Option<string>)
    ensures SearchParam(SearchOf(DialogUrl(Twitter, origin, referralCode)), "text")
            == Some(EncodeURIComponent(ShareText(referralCode)))
    ensures SearchParam(SearchOf(DialogUrl(Twitter, origin, referralCode)), "url")
            == Some(EncodeURIComponent(ShareUrl(origin, referralCode)))
  {
    var et, eu := EncodeURIComponent(ShareText(referralCode)), EncodeURIComponent(ShareUrl(origin, referralCode));
    EncodedHasNoDelimiters(ShareText(referralCode));
    EncodedHasNoDelimiters(ShareUrl(origin, referralCode));
    TwitterQuery(et, eu);
  }

  /** The Facebook and LinkedIn dialogs receive the share link. */
  lemma OtherTargetsCarry(origin: string, referralCode: Option<string>)
    ensures SearchParam(SearchOf(DialogUrl(Facebook, origin, referralCode)), "u")
            == Some(EncodeURIComponent(ShareUrl(origin, referralCode)))
    ensures SearchParam(SearchOf(DialogUrl(LinkedIn, origin, referralCode)), "url")
            == Some(EncodeURIComponent(ShareUrl(origin, referralCode)))
  {
    var eu := EncodeURIComponent(ShareUrl(origin, referralCode));
    EncodedHasNoDelimiters(ShareUrl(origin, referralCode));
    FacebookBaseIsPlain();
    LinkedInBaseIsPlain();
    OneParam(FacebookBase, "u", eu);
    OneParam(LinkedInBase, "url", eu);
  }

  /** Each button opens its platform's dialog. */
  lemma ButtonsOpenDialogs(origin: string, referralCode: Option<string>)
    ensures ShareTarget("twitter", origin, referralCode) == Some(DialogUrl(Twitter, origin, referralCode))
    ensures ShareTarget("facebook", origin, referralCode) == Some(DialogUrl(Facebook, origin, referralCode))
    ensures ShareTarget("linkedin", origin, referralCode) == Some(DialogUrl(LinkedIn, origin, referralCode))
  {
    ButtonNames();
  }

  /** The three names the buttons pass select the three platforms. */
  lemma ButtonNames()
    ensures PlatformNamed("twitter") == Some(Twitter)
    ensures PlatformNamed("facebook") == Some(Facebook)
    ensures PlatformNamed("linkedin") == Some(LinkedIn)
  {
    assert "facebook"[0] != "twitter"[0];
    assert "linkedin"[0] != "twitter"[0] && "linkedin"[0] != "facebook"[0];
  }

  /** Any other platform name opens nothing. */
  lemma UnknownPlatformOpensNothing(platform: string, origin: string, referralCode: Option<string>)
    requires platform != "twitter" && platform != "facebook" && platform != "linkedin"
    ensures ShareTarget(platform, origin, referralCode) == None
  {
  }

  /** What a dialog reads from its parameter decodes to exactly the share link, and the tweet text to the share text. */
  lemma SharedLinkSurvivesEncoding(origin: string, referralCode: Option<string>)
    ensures DecodeURIComponent(EncodeURIComponent(ShareUrl(origin, referralCode))) == Some(ShareUrl(origin, referralCode))
    ensures DecodeURIComponent(EncodeURIComponent(ShareText(referralCode))) == Some(ShareText(referralCode))
  {
    DecodeEncode(ShareUrl(origin, referralCode));
    DecodeEncode(ShareText(referralCode));
  }
}
