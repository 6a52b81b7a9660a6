/**
 * The request filter on the home page: a GitHub profile address or a bare
 * user name, given as the `url` query parameter or as the whole query,
 * redirects to that user's page.
 */
module Proxy {
  import opened Wrappers
  import opened Text

  // ---------------------------------------------------------------------
  // user names
  // ---------------------------------------------------------------------

  predicate IsAlnum(c: char) {
    ('a' <= c <= 'z') || ('A' <= c <= 'Z') || ('0' <= c <= '9')
  }

  /**
   * `[a-zA-Z0-9](?:[a-zA-Z0-9-]*[a-zA-Z0-9])?` matching all of `s`: letters,
   * digits and hyphens, beginning and ending with a letter or digit.
   */
  predicate IsUsername(s: string) {
    && |s| > 0
    && IsAlnum(s[0])
    && IsAlnum(s[|s| - 1])
    && forall i :: 0 < i < |s| - 1 ==> IsAlnum(s[i]) || s[i] == '-'
  }

  /** The rest of `s` after the prefix `p`, when `s` starts with it. */
  function After(s: string, p: string): (r: Option<string>)
    ensures r.Some? <==> StartsWith(s, p)
    ensures r.Some? ==> s == p + r.value
  {
    if StartsWith(s, p) then Some(s[|p|..]) else None
  }

  /** `https?:\/\/`: what follows the scheme. */
  function AfterScheme(s: string): Option<string> {
    match After(s, "https://")
    case Some(r) => Some(r)
    case None => After(s, "http://")
  }

  /** `(?:www\.)?github\.com\/`: what follows the host. */
  function AfterHost(s: string): Option<string> {
    match After(s, "www.github.com/")
    case Some(r) => Some(r)
    case None => After(s, "github.com/")
  }

  /** `(user)\/?$`: the user name, with or without one trailing slash. */
  function UserPath(s: string): Option<string> {
    if IsUsername(s) then Some(s)
    else if |s| > 0 && s[|s| - 1] == '/' && IsUsername(s[..|s| - 1]) then Some(s[..|s| - 1])
    else None
  }

  /** The captured user name when `s` matches the profile-address pattern. */
  function UrlUsername(s: string): Option<string> {
    match AfterScheme(s)
    case None => None
    case Some(rest) =>
      match AfterHost(rest)
      case None => None
      case Some(path) => UserPath(path)
  }

  /** `extractUsername`: a profile address gives its user name, a bare user name itself, anything else nothing. */
  function ExtractUsername(input: string): Option<string> {
    match UrlUsername(input)
    case Some(u) => Some(u)
    case None => if IsUsername(input) then Some(input) else None
  }

  /** The accepted schemes and hosts, and the optional trailing slash. */
  const Schemes: set<string> := {"https://", "http://"}
  const Hosts: set<string> := {"www.github.com/", "github.com/"}
  const Slashes: set<string> := {"", "/"}

  /** `s` is a profile address of user `u`. */
  predicate IsProfileUrl(s: string, u: string) {
    exists scheme, host, slash | scheme in Schemes && host in Hosts && slash in Slashes :: s == scheme + host + u + slash
  }

  lemma AfterConcat(p: string, t: string)
    ensures After(p + t, p) == Some(t)
  {
    assert (p + t)[..|p|] == p;
    assert (p + t)[|p|..] == t;
  }

  /** Every profile address gives its user name. */
  lemma ExtractFromUrl(scheme: string, host: string, u: string, slash: string)
    requires scheme in Schemes && host in Hosts && slash in Slashes && IsUsername(u)
    ensures ExtractUsername(scheme + host + u + slash) == Some(u)
  {
    var s := scheme + host + u + slash;
    assert s == scheme + (host + u + slash);
    AfterConcat(scheme, host + u + slash);
    if scheme == "http://" {
      assert s[4] == ':';
    }
    assert AfterScheme(s) == Some(host + u + slash);
    assert host + u + slash == host + (u + slash);
    AfterConcat(host, u + slash);
    if host == "github.com/" {
      assert (host + u + slash)[0] == 'g';
    }
    assert AfterHost(host + u + slash) == Some(u + slash);
    if slash == "/" {
      assert (u + slash)[..|u + slash| - 1] == u;
      assert !IsAlnum((u + slash)[|u + slash| - 1]);
    } else {
      assert u + slash == u;
    }
  }

  /** A character of the prefix, found again in a string that starts with it. */
  lemma PrefixChar(s: string, p: string, i: nat)
    requires i < |p|
    ensures StartsWith(s, p) ==> s[i] == p[i]
  {
  }

  /** A bare user name has no colon, so it is never a profile address and comes back unchanged. */
  lemma ExtractBare(s: string)
    requires IsUsername(s)
    ensures ExtractUsername(s) == Some(s)
  {
    PrefixChar(s, "https://", 5);
    PrefixChar(s, "http://", 4);
  }

  /** The scheme a matching address starts with. */
  function SchemeOf(s: string): (p: string)
    requires AfterScheme(s).Some?
    ensures p in Schemes && s == p + AfterScheme(s).value
  {
    if StartsWith(s, "https://") then "https://" else "http://"
  }

  function HostOf(s: string): (p: string)
    requires AfterHost(s).Some?
    ensures p in Hosts && s == p + AfterHost(s).value
  {
    if StartsWith(s, "www.github.com/") then "www.github.com/" else "github.com/"
  }

  function SlashOf(s: string): (p: string)
    requires UserPath(s).Some?
    ensures p in Slashes && s == UserPath(s).value + p
  {
    if IsUsername(s) then "" else "/"
  }

  /** A matching address is the scheme, the host, the captured name and the optional slash. */
  lemma UrlSound(s: string)
    requires UrlUsername(s).Some?
    ensures IsUsername(UrlUsername(s).value) && IsProfileUrl(s, UrlUsername(s).value)
  {
    var rest := AfterScheme(s).value;
    var path := AfterHost(rest).value;
    var u := UserPath(path).value;
    var scheme, host, slash := SchemeOf(s), HostOf(rest), SlashOf(path);
    assert s == scheme + host + u + slash;
  }

  /** Anything accepted is a user name, given bare or inside a profile address. */
  lemma ExtractSound(s: string)
    ensures ExtractUsername(s).Some? ==> IsUsername(ExtractUsername(s).value)
    ensures ExtractUsername(s).Some? ==> s == ExtractUsername(s).value || IsProfileUrl(s, ExtractUsername(s).value)
  {
    if UrlUsername(s).Some? {
      UrlSound(s);
    }
  }

  /** Extracting again returns the same user name. */
  lemma ExtractIdempotent(s: string)
    requires ExtractUsername(s).Some?
    ensures ExtractUsername(ExtractUsername(s).value) == ExtractUsername(s)
  {
    ExtractSound(s);
    ExtractBare(ExtractUsername(s).value);
  }

  /** A leading hyphen and the empty string are refused. */
  lemma ExtractRefuses(s: string)
    requires |s| == 0 || s[0] == '-'
    ensures ExtractUsername(s) == None
  {
  }

  // ---------------------------------------------------------------------
  // the redirect decision
  // ---------------------------------------------------------------------

  /** What the filter does with a request. */
  datatype Decision =
    | Redirect(path: string)
    | PassThrough
    /** `decodeURIComponent` threw on a malformed escape. */
    | Fails

  /** `search.replace(/^\?/, "")`. */
  function StripQuestion(search: string): (r: string)
    ensures |search| > 0 && search[0] == '?' ==> search == "?" + r
    ensures !(|search| > 0 && search[0] == '?') ==> r == search
  {
    if |search| > 0 && search[0] == '?' then search[1..] else search
  }

  predicate HasEquals(s: string) {
    exists i :: 0 <= i < |s| && s[i] == '='
  }

  /**
   * `proxy`: the `url` parameter first, when present and non-empty, then the
   * raw query when it is non-empty and has no `=`, each through
   * `extractUsername`; `decode` is `decodeURIComponent`, None where it throws.
   */
  function Route(urlParam: Option<string>, search: string, decode: string -> Option<string>): Decision {
    var fromParam := if urlParam.Some? && urlParam.value != "" then ExtractUsername(urlParam.value) else None;
    if fromParam.Some? then Redirect("/" + fromParam.value)
    else
      var raw := StripQuestion(search);
      if raw != "" && !HasEquals(raw) then
        match decode(raw)
        case None => Fails
        case Some(decoded) =>
          match ExtractUsername(decoded)
          case Some(u) => Redirect("/" + u)
          case None => PassThrough
      else PassThrough
  }

  /**
   * A usable `url` parameter wins whatever the query says; otherwise the raw
   * query decides, and only when it is non-empty and has no `=`; a redirect
   * always goes to `/` and a user name.
   */
  lemma RouteSpec(urlParam: Option<string>, search: string, decode: string -> Option<string>)
    ensures var d, raw := Route(urlParam, search, decode), StripQuestion(search);
      && (urlParam.Some? && urlParam.value != "" && ExtractUsername(urlParam.value).Some? ==>
            d == Redirect("/" + ExtractUsername(urlParam.value).value))
      && (!(urlParam.Some? && urlParam.value != "" && ExtractUsername(urlParam.value).Some?) ==>
            && ((raw == "" || HasEquals(raw)) ==> d == PassThrough)
            && (raw != "" && !HasEquals(raw) ==>
                  d == match decode(raw)
                       case None => Fails
                       case Some(decoded) => if ExtractUsername(decoded).Some? then Redirect("/" + ExtractUsername(decoded).value) else PassThrough))
      && (d.Redirect? ==> |d.path| > 1 && d.path[0] == '/' && IsUsername(d.path[1..]))
  {
    var d := Route(urlParam, search, decode);
    if urlParam.Some? && urlParam.value != "" {
      ExtractSound(urlParam.value);
    }
    var raw := StripQuestion(search);
    if raw != "" && !HasEquals(raw) && decode(raw).Some? {
      ExtractSound(decode(raw).value);
    }
    if d.Redirect? {
      assert d.path[1..] == d.path[1..];
    }
  }
}
