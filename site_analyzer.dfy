/**
 * The site analyzer's guess at whether a URL sits behind a login: a
 * three-stage, first-match-wins check of the final URL, the page text and
 * the page's markup, failing open when the page cannot be fetched.
 */
module SiteAnalyzer {
  import opened Strings

  /**
   * What one fetch of the page produced: either the request or the parse
   * raised, or the post-redirect URL, the page's visible text, and the set
   * of login selectors for which the parsed markup has a matching element.
   */
  datatype FetchResult =
    | Failure
    | Fetched(finalUrl: string, pageText: string, selectorHits: set<string>)

  /** `(requires_login, url)` as the analyzer returns it. */
  type Verdict = (bool, string)

  const URL_INDICATORS: seq<string> := ["/login", "/signin", "/auth"]
  const TEXT_INDICATORS: seq<string> := ["login required", "please sign in", "create account"]
  const LOGIN_SELECTORS: seq<string> := ["input[type=\"password\"]", "form[action*=\"login\"]"]

  /** `any(x in haystack for x in needles)`. */
  predicate AnyIn(needles: seq<string>, haystack: string)
  {
    exists i :: 0 <= i < |needles| && Contains(haystack, needles[i])
  }

  predicate UrlIndicated(finalUrl: string)
  {
    AnyIn(URL_INDICATORS, Lower(finalUrl))
  }

  predicate TextIndicated(pageText: string)
  {
    AnyIn(TEXT_INDICATORS, Lower(pageText))
  }

  predicate FormIndicated(selectorHits: set<string>)
  {
    exists i :: 0 <= i < |LOGIN_SELECTORS| && LOGIN_SELECTORS[i] in selectorHits
  }

  /** `SiteAnalyzer.check_login_required(url)`, given what fetching `url` produced. */
  function CheckLoginRequired(url: string, fetch: FetchResult): (v: Verdict)
    ensures fetch.Failure? ==> v == (false, url)
    ensures v.1 == url || (fetch.Fetched? && v.1 == fetch.finalUrl)
  {
    match fetch
    case Failure => (false, url)
    case Fetched(finalUrl, pageText, selectorHits) =>
      if UrlIndicated(finalUrl) then (true, finalUrl)
      else if TextIndicated(pageText) then (true, url)
      else if FormIndicated(selectorHits) then (true, url)
      else (false, url)
  }

  /**
   * Read declaratively: login is required exactly when some indicator of any
   * of the three kinds is present, and the final URL is reported only when a
   * URL indicator is, whatever the text and markup say.
   */
  lemma VerdictCharacterization(url: string, fetch: FetchResult)
    ensures CheckLoginRequired(url, fetch).0 <==>
      fetch.Fetched? &&
      (UrlIndicated(fetch.finalUrl) || TextIndicated(fetch.pageText) || FormIndicated(fetch.selectorHits))
    ensures CheckLoginRequired(url, fetch).1 ==
      if fetch.Fetched? && UrlIndicated(fetch.finalUrl) then fetch.finalUrl else url
  {
  }

  /**
   * A URL indicator wins over everything else: whatever the page says and
   * contains, the verdict is "login required" at the final URL. The match is
   * case-insensitive: any spelling of the indicator in the URL counts.
   */
  lemma UrlIndicatorWins(url: string, finalUrl: string, pageText: string, selectorHits: set<string>, spelling: string)
    requires Lower(spelling) in URL_INDICATORS && Contains(finalUrl, spelling)
    ensures CheckLoginRequired(url, Fetched(finalUrl, pageText, selectorHits)) == (true, finalUrl)
  {
    ContainsLower(finalUrl, spelling);
    var i :| 0 <= i < |URL_INDICATORS| && URL_INDICATORS[i] == Lower(spelling);
    assert Contains(Lower(finalUrl), URL_INDICATORS[i]);
  }

  /**
   * Without a URL indicator, a gating phrase anywhere in the text, in any
   * letter case, means "login required" at the original URL.
   */
  lemma TextIndicatorAtOriginalUrl(url: string, finalUrl: string, pageText: string, selectorHits: set<string>, spelling: string)
    requires !UrlIndicated(finalUrl)
    requires Lower(spelling) in TEXT_INDICATORS && Contains(pageText, spelling)
    ensures CheckLoginRequired(url, Fetched(finalUrl, pageText, selectorHits)) == (true, url)
  {
    ContainsLower(pageText, spelling);
    var i :| 0 <= i < |TEXT_INDICATORS| && TEXT_INDICATORS[i] == Lower(spelling);
    assert Contains(Lower(pageText), TEXT_INDICATORS[i]);
  }

  /**
   * More evidence never clears a verdict: a page whose text contains the
   * original text and whose markup matches at least the same selectors is
   * still judged to need a login, though the reported URL is unchanged
   * only if the final URL is.
   */
  lemma MoreEvidenceKeepsVerdict(url: string, finalUrl: string, pageText: string, selectorHits: set<string>,
                                 moreText: string, moreHits: set<string>)
    requires CheckLoginRequired(url, Fetched(finalUrl, pageText, selectorHits)).0
    requires Contains(moreText, pageText) && selectorHits <= moreHits
    ensures CheckLoginRequired(url, Fetched(finalUrl, moreText, moreHits))
         == CheckLoginRequired(url, Fetched(finalUrl, pageText, selectorHits))
  {
    if !UrlIndicated(finalUrl) && TextIndicated(pageText) {
      var i :| 0 <= i < |TEXT_INDICATORS| && Contains(Lower(pageText), TEXT_INDICATORS[i]);
      ContainsLower(moreText, pageText);
      ContainsTransitive(Lower(moreText), Lower(pageText), TEXT_INDICATORS[i]);
    }
  }

  // ---------------------------------------------------------------------
  // Worked examples
  // ---------------------------------------------------------------------

  /** A redirect to a login page: `(true, finalUrl)` regardless of the page. */
  lemma RedirectToLoginExample(pageText: string, selectorHits: set<string>)
    ensures CheckLoginRequired("https://example.com/docs",
                               Fetched("https://example.com/Login?next=docs", pageText, selectorHits))
         == (true, "https://example.com/Login?next=docs")
  {
    var f := "https://example.com/Login?next=docs";
    assert OccursAt(f, "/Login", 19);
    assert Lower("/Login") == "/login";
    UrlIndicatorWins("https://example.com/docs", f, pageText, selectorHits, "/Login");
  }

  /** No URL indicator, no gating phrase, but a password field: `(true, url)`. */
  lemma PasswordFieldExample(url: string, finalUrl: string, pageText: string, selectorHits: set<string>)
    requires !UrlIndicated(finalUrl) && !TextIndicated(pageText)
    requires "input[type=\"password\"]" in selectorHits
    ensures CheckLoginRequired(url, Fetched(finalUrl, pageText, selectorHits)) == (true, url)
  {
    assert LOGIN_SELECTORS[0] in selectorHits;
  }

  /** A page with no indicator of any kind: `(false, url)`. */
  lemma NoIndicatorExample(url: string, finalUrl: string, pageText: string, selectorHits: set<string>)
    requires !UrlIndicated(finalUrl) && !TextIndicated(pageText)
    requires "input[type=\"password\"]" !in selectorHits && "form[action*=\"login\"]" !in selectorHits
    ensures CheckLoginRequired(url, Fetched(finalUrl, pageText, selectorHits)) == (false, url)
  {
  }
}
