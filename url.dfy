/**
 * The base URL the server-rendered pages fetch their own API through. The two
 * environment variables it reads, `NEXT_PUBLIC_SITE_URL` and `VERCEL_URL`, are
 * parameters (`None` when unset).
 */
module Url {
  import opened Wrappers
  import opened Text

  const LocalFallback: string := "http://127.0.0.1:3010"

  /** `s.replace(/\/$/, "")`: one final slash, if there is one, is dropped. */
  function StripTrailingSlash(s: string): (r: string)
    ensures s != [] && s[|s| - 1] == '/' ==> r + "/" == s
    ensures s == [] || s[|s| - 1] != '/' ==> r == s
  {
    if s != [] && s[|s| - 1] == '/' then s[..|s| - 1] else s
  }

  /**
   * The explicit site URL, less one trailing slash; else `https://` and the
   * deployment host; else the local address.
   */
  function GetBaseUrl(siteUrl: Option<string>, vercelUrl: Option<string>): (r: string)
    ensures var site := Trimmed(siteUrl);
      site != "" ==> (if site[|site| - 1] == '/' then r + "/" == site else r == site)
    ensures Trimmed(siteUrl) == "" && Trimmed(vercelUrl) != "" ==> r == "https://" + Trimmed(vercelUrl)
    ensures Trimmed(siteUrl) == "" && Trimmed(vercelUrl) == "" ==> r == "http://127.0.0.1:3010"
  {
    var site := Trimmed(siteUrl);
    if site != "" then StripTrailingSlash(site)
    else
      var vercel := Trimmed(vercelUrl);
      if vercel != "" then "https://" + vercel
      else LocalFallback
  }

  /** A site URL set to something other than blanks is used whatever the deployment host is. */
  lemma SiteUrlTakesPrecedence(siteUrl: Option<string>, vercel1: Option<string>, vercel2: Option<string>)
    requires Trimmed(siteUrl) != ""
    ensures GetBaseUrl(siteUrl, vercel1) == GetBaseUrl(siteUrl, vercel2)
  {
  }

  /** Only one slash goes: a site URL ending in `//` still ends in `/`, one character shorter. */
  lemma OnlyOneSlashStripped(siteUrl: Option<string>, vercelUrl: Option<string>)
    requires var site := Trimmed(siteUrl); |site| >= 2 && site[|site| - 2..] == "//"
    ensures var r := GetBaseUrl(siteUrl, vercelUrl);
      |r| == |Trimmed(siteUrl)| - 1 && r != [] && r[|r| - 1] == '/'
  {
    var site := Trimmed(siteUrl);
    assert site[|site| - 1] == '/' && site[|site| - 2] == '/';
  }

  /** Blank settings count as unset: only the trimmed values matter. */
  lemma BlankIsUnset(siteUrl: Option<string>, vercelUrl: Option<string>)
    requires siteUrl.None? || AllSpace(siteUrl.value)
    requires vercelUrl.None? || AllSpace(vercelUrl.value)
    ensures GetBaseUrl(siteUrl, vercelUrl) == LocalFallback
  {
    if siteUrl.Some? { TrimEmptyIffBlank(siteUrl.value); }
    if vercelUrl.Some? { TrimEmptyIffBlank(vercelUrl.value); }
  }
}
