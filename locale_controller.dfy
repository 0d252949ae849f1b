/**
 * The language switch: the localized home page and the redirect that
 * rewrites the language segment of the page to return to. The locale
 * resolver is modelled as the one language it holds for the session.
 */
module LocaleController {
  import opened Wrappers
  import opened Text

  /** The session's locale, as the locale resolver keeps it. */
  class LocaleResolver {
    var locale: Option<string>

    constructor ()
      ensures locale == None
    {
      locale := None;
    }
  }

  /** `isValidLanguage`: the two supported languages. */
  predicate IsValidLanguage(lang: string)
  {
    lang == "fr" || lang == "en"
  }

  /** A language segment other than "fr" and "en" is refused. */
  lemma OnlyFrenchAndEnglish(lang: string)
    ensures IsValidLanguage(lang) <==> lang in {"fr", "en"}
  {
  }

  /** The redirect of the localized home page for an unsupported language. */
  const HomeFallback := "redirect:/fr/"

  /**
   * `localizedHomePage`: an unsupported language redirects to the French
   * home page and leaves the locale alone; a supported one becomes the
   * session's locale and the home template is shown.
   */
  method LocalizedHomePage(resolver: LocaleResolver, lang: string) returns (view: string)
    modifies resolver
    ensures !IsValidLanguage(lang) ==> view == HomeFallback && resolver.locale == old(resolver.locale)
    ensures IsValidLanguage(lang) ==> view == "index" && resolver.locale == Some(lang)
  {
    if !IsValidLanguage(lang) {
      return HomeFallback;
    }
    resolver.locale := Some(lang);
    view := "index";
  }

  /** `returnUrl` defaults to "/" when the parameter is missing or empty. */
  function EffectiveReturnUrl(returnUrl: Option<string>): (r: string)
    ensures returnUrl.Some? && returnUrl.value != "" ==> r == returnUrl.value
    ensures returnUrl.None? || returnUrl.value == "" ==> r == "/"
  {
    if returnUrl.None? || returnUrl.value == "" then "/" else returnUrl.value
  }

  /** The path `changeLanguage` redirects to. */
  function RewriteReturnUrl(lang: string, returnUrl: string): (r: string)
    ensures StartsWith(r, "/" + lang)
    ensures StartsWith(returnUrl, "/fr/") || StartsWith(returnUrl, "/en/") ==>
      r[|lang| + 1..] == returnUrl[3..]
    ensures !(StartsWith(returnUrl, "/fr/") || StartsWith(returnUrl, "/en/")) ==>
      if StartsWith(returnUrl, "/" + lang + "/") then r == returnUrl else r[|lang| + 1..] == returnUrl
  {
    if StartsWith(returnUrl, "/fr/") || StartsWith(returnUrl, "/en/") then
      var r := "/" + lang + returnUrl[3..];
      assert r[..|lang| + 1] == "/" + lang;
      r
    else if !StartsWith(returnUrl, "/" + lang + "/") then
      var r := "/" + lang + returnUrl;
      assert r[..|lang| + 1] == "/" + lang;
      r
    else
      assert returnUrl[..|lang| + 1] == ("/" + lang + "/")[..|lang| + 1];
      returnUrl
  }

  /**
   * `changeLanguage`: a supported language becomes the session's locale;
   * whatever the language, the return URL is rewritten in place and
   * redirected to.
   */
  method ChangeLanguage(resolver: LocaleResolver, lang: string, returnUrlParam: Option<string>) returns (view: string)
    modifies resolver
    ensures resolver.locale == if IsValidLanguage(lang) then Some(lang) else old(resolver.locale)
    ensures view == "redirect:" + RewriteReturnUrl(lang, EffectiveReturnUrl(returnUrlParam))
  {
    var returnUrl := EffectiveReturnUrl(returnUrlParam);
    if IsValidLanguage(lang) {
      resolver.locale := Some(lang);
    }
    if StartsWith(returnUrl, "/fr/") || StartsWith(returnUrl, "/en/") {
      returnUrl := "/" + lang + returnUrl[3..];
    } else if !StartsWith(returnUrl, "/" + lang + "/") {
      returnUrl := "/" + lang + returnUrl;
    }
    view := "redirect:" + returnUrl;
  }

  /** Every redirect, even for an unsupported language, goes to a path under "/" + lang. */
  lemma RedirectUnderLanguage(lang: string, returnUrl: string)
    ensures var v := "redirect:" + RewriteReturnUrl(lang, returnUrl);
      StartsWith(v, "redirect:/" + lang)
  {
    var r := RewriteReturnUrl(lang, returnUrl);
    var v := "redirect:" + r;
    assert v[..|"redirect:/" + lang|] == "redirect:" + r[..|lang| + 1];
  }

  /** The default return URL leads to the language's home page. */
  lemma DefaultReturnUrlIsHome(lang: string)
    requires IsValidLanguage(lang)
    ensures RewriteReturnUrl(lang, EffectiveReturnUrl(None)) == "/" + lang + "/"
  {
  }

  /** Switching language keeps the rest of a localized path. */
  lemma SwitchKeepsPath(path: string)
    ensures RewriteReturnUrl("en", "/fr/" + path) == "/en/" + path
  {
    var u := "/fr/" + path;
    assert u[..4] == "/fr/";
    assert u[3..] == "/" + path;
  }

  /** A rewritten path starting with "/" is a fixed point: rewriting it again changes nothing. */
  lemma {:induction false} RewriteIdempotent(lang: string, returnUrl: string)
    requires IsValidLanguage(lang) && StartsWith(returnUrl, "/")
    ensures RewriteReturnUrl(lang, RewriteReturnUrl(lang, returnUrl)) == RewriteReturnUrl(lang, returnUrl)
  {
    var r := RewriteReturnUrl(lang, returnUrl);
    if StartsWith(returnUrl, "/fr/") || StartsWith(returnUrl, "/en/") {
      assert r == "/" + lang + returnUrl[3..];
      assert returnUrl[3] == '/';
    } else {
      assert r == "/" + lang + returnUrl || r == returnUrl;
      if r != returnUrl {
        assert r[..4] == "/" + lang + "/";
        assert r[3..] == returnUrl;
      }
    }
    assert StartsWith(r, "/fr/") || StartsWith(r, "/en/");
  }

  /** Without a leading "/", the language is glued to the path and a second rewrite differs. */
  lemma RewriteNeedsLeadingSlash()
    ensures RewriteReturnUrl("fr", "x") == "/frx"
    ensures RewriteReturnUrl("fr", "/frx") == "/fr/frx"
  {
    assert "/frx"[3] != "/fr/"[3];
    assert "/frx"[1] != "/en/"[1];
  }
}
