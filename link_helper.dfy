/**
 * YtLinkHelper: the canonicaliser that keeps only the first `v` parameter of a
 * YouTube link, and the validator that accepts a link only for a YouTube host
 * and one of three path shapes carrying an 11-character video id.
 *
 * java.net.URI parsing is not modelled: a parse is an abstract function from
 * the link to the split components (scheme, authority, path, raw query,
 * fragment, and the host, path and query that URI.toURL would report), or None
 * where the constructor throws URISyntaxException. Rebuilding with the
 * five-argument URI constructor is modelled exactly for ASCII: each component
 * is quoted with the legal-character set java.net.URI uses for it.
 */
module YtLinkHelper {
  import opened Wrappers
  import opened JavaStrings
  import opened YtErrors

  // ----- The parsed link -----

  /** What java.net.URL reports for the URL form of a URI: getHost, getPath, getQuery. */
  datatype Url = Url(host: string, path: string, query: Option<string>)

  /**
   * A parsed URI: getScheme, getAuthority, getPath, getRawQuery and getFragment
   * (authority, path and fragment decoded, the query raw), and the result of
   * toURL (None where it throws).
   */
  datatype Uri = Uri(
    scheme: Option<string>,
    authority: Option<string>,
    path: Option<string>,
    rawQuery: Option<string>,
    fragment: Option<string>,
    url: Option<Url>)

  /** A scheme as the URI grammar allows it: a letter, then letters, digits, '+', '-' and '.'. */
  predicate IsSchemeName(s: string) {
    |s| > 0
    && ('a' <= s[0] <= 'z' || 'A' <= s[0] <= 'Z')
    && forall i :: 0 <= i < |s| ==> (IsWordChar(s[i]) && s[i] != '_') || s[i] == '+' || s[i] == '-' || s[i] == '.'
  }

  // ----- Quoting, as java.net.URI's multi-argument constructors do it -----

  /** Letters, digits and the marks "-_.!~*'()". */
  predicate IsUnreserved(c: char) {
    ('a' <= c <= 'z') || ('A' <= c <= 'Z') || IsDigit(c)
    || c == '-' || c == '_' || c == '.' || c == '!' || c == '~' || c == '*' || c == '\'' || c == '(' || c == ')'
  }

  /** The characters an authority keeps unquoted (the registry-name and server sets). */
  predicate LegalInAuthority(c: char) {
    IsUnreserved(c)
    || c == '$' || c == ',' || c == ';' || c == ':' || c == '@' || c == '&' || c == '=' || c == '+'
    || c == '[' || c == ']'
  }

  /** The characters a path keeps unquoted. */
  predicate LegalInPath(c: char) {
    IsUnreserved(c)
    || c == ':' || c == '@' || c == '&' || c == '=' || c == '+' || c == '$' || c == ','
    || c == ';' || c == '/'
  }

  /** The characters a query or a fragment keeps unquoted: the reserved and unreserved ones. */
  predicate LegalInQuery(c: char) {
    IsUnreserved(c)
    || c == ';' || c == '/' || c == '?' || c == ':' || c == '@' || c == '&' || c == '=' || c == '+'
    || c == '$' || c == ',' || c == '[' || c == ']'
  }

  predicate IsHexDigit(c: char) {
    IsDigit(c) || 'A' <= c <= 'F' || 'a' <= c <= 'f'
  }

  function HexValue(c: char): (n: nat)
    requires IsHexDigit(c)
    ensures n < 16
  {
    if IsDigit(c) then c as int - '0' as int
    else if 'A' <= c <= 'F' then c as int - 'A' as int + 10
    else c as int - 'a' as int + 10
  }

  /** The upper-case hex digit of a value below 16. */
  function HexDigit(n: nat): (c: char)
    requires n < 16
    ensures IsHexDigit(c) && HexValue(c) == n
  {
    if n < 10 then ('0' as int + n) as char else ('A' as int + n - 10) as char
  }

  /** `%` and two upper-case hex digits, for an ASCII character. */
  function Escape(c: char): (r: string)
    requires c < 128 as char
    ensures |r| == 3 && r[0] == '%' && IsHexDigit(r[1]) && IsHexDigit(r[2])
    ensures (HexValue(r[1]) * 16 + HexValue(r[2])) as char == c
  {
    ['%', HexDigit(c as int / 16), HexDigit(c as int % 16)]
  }

  /**
   * URI.quote: every ASCII character that is not legal in the component becomes
   * an escape; '%' is never legal, so it is always quoted. Other characters are
   * kept (the re-encoding of Unicode spaces and controls is left out).
   */
  function Quote(s: string, legal: char -> bool): string
    decreases |s|
  {
    if |s| == 0 then ""
    else if s[0] < 128 as char && (s[0] == '%' || !legal(s[0])) then Escape(s[0]) + Quote(s[1..], legal)
    else [s[0]] + Quote(s[1..], legal)
  }

  /** Percent-decoding of single-byte escapes: the reference the quoting is checked against. */
  function Unquote(s: string): string
    decreases |s|
  {
    if |s| == 0 then ""
    else if |s| >= 3 && s[0] == '%' && IsHexDigit(s[1]) && IsHexDigit(s[2]) then
      [(HexValue(s[1]) * 16 + HexValue(s[2])) as char] + Unquote(s[3..])
    else [s[0]] + Unquote(s[1..])
  }

  /** The scheme, authority and path part of a URI the constructor builds, each quoted as it requires. */
  function RenderHead(scheme: Option<string>, authority: Option<string>, path: Option<string>): string {
    (if scheme.Some? then scheme.value + ":" else "")
    + (if authority.Some? then "//" + Quote(authority.value, LegalInAuthority) else "")
    + (if path.Some? then Quote(path.value, LegalInPath) else "")
  }

  /**
   * The string the five-argument URI constructor builds from scheme, authority,
   * path, query and fragment, each quoted as that component requires.
   */
  function RenderUri(scheme: Option<string>, authority: Option<string>, path: Option<string>,
                     query: Option<string>, fragment: Option<string>): string
  {
    RenderHead(scheme, authority, path)
    + (if query.Some? then "?" + Quote(query.value, LegalInQuery) else "")
    + (if fragment.Some? then "#" + Quote(fragment.value, LegalInQuery) else "")
  }

  /** The constructor refuses a path that does not start with '/' when a scheme is given. */
  predicate RelativePathInAbsolute(u: Uri) {
    u.scheme.Some? && u.path.Some? && |u.path.value| > 0 && u.path.value[0] != '/'
  }

  // ----- The first `v` parameter -----

  /** A parameter split at its first '=' into the key "v" and a value. */
  predicate IsVParam(param: string) {
    var pair := SplitLimit2(param, '=');
    |pair| == 2 && pair[0] == "v"
  }

  /** The value of the first `v` parameter, reading left to right. */
  function FirstV(params: seq<string>): (r: Option<string>)
    ensures r.None? <==> forall k :: 0 <= k < |params| ==> !IsVParam(params[k])
    decreases |params|
  {
    if |params| == 0 then None
    else if IsVParam(params[0]) then Some(SplitLimit2(params[0], '=')[1])
    else
      var r := FirstV(params[1..]);
      assert forall k :: 1 <= k < |params| ==> params[k] == params[1..][k - 1];
      r
  }

  /** The query the canonical link keeps: "v=" and the first `v` value, or none. */
  function KeptQuery(rawQuery: string): Option<string> {
    var v := FirstV(Split(rawQuery, '&'));
    if v.Some? then Some("v=" + v.value) else None
  }

  /** What removeRedundantQueryParamsFromYoutubeLint returns for a link and its parse. */
  function CanonicalLink(link: string, parsed: Option<Uri>): Result<string, YtLoadingException> {
    match parsed
    case None => Failure(YtLoadingException(MalformedLinkId))
    case Some(u) =>
      if u.rawQuery.None? || u.rawQuery.value == "" then Success(link)
      else if RelativePathInAbsolute(u) then Failure(YtLoadingException(MalformedLinkId))
      else Success(RenderUri(u.scheme, u.authority, u.path, KeptQuery(u.rawQuery.value), u.fragment))
  }

  /** removeRedundantQueryParamsFromYoutubeLint */
  method RemoveRedundantQueryParams(youtubeLink: string, parse: string -> Option<Uri>)
    returns (r: Result<string, YtLoadingException>)
    ensures r == CanonicalLink(youtubeLink, parse(youtubeLink))
  {
    var parsed := parse(youtubeLink);
    if parsed.None? {
      return Failure(YtLoadingException(MalformedLinkId));
    }
    var uri := parsed.value;
    var query := uri.rawQuery;
    if query.None? || query.value == "" {
      return Success(youtubeLink);
    }
    var params := Split(query.value, '&');
    var vValue: Option<string> := None;
    var i := 0;
    while i < |params|
      invariant 0 <= i <= |params|
      invariant FirstV(params) == FirstV(params[i..])
    {
      var pair := SplitLimit2(params[i], '=');
      if |pair| == 2 && pair[0] == "v" {
        vValue := Some(pair[1]);
        break;
      }
      assert params[i..][1..] == params[i + 1..];
      i := i + 1;
    }
    assert vValue == FirstV(params);
    var keptQuery := if vValue.Some? then Some("v=" + vValue.value) else None;
    if RelativePathInAbsolute(uri) {
      return Failure(YtLoadingException(MalformedLinkId));
    }
    r := Success(RenderUri(uri.scheme, uri.authority, uri.path, keptQuery, uri.fragment));
  }

  // ----- Host and id rules -----

  /** `^[\w-]{11}$`: eleven word characters or dashes. */
  predicate IsVideoId(id: string) {
    |id| == 11 && forall i :: 0 <= i < |id| ==> IsWordChar(id[i]) || id[i] == '-'
  }

  predicate IsHostChar(c: char) {
    'a' <= c <= 'z' || IsDigit(c) || c == '.' || c == '-'
  }

  /** isValidHostSyntax: non-empty, no leading '.', only `[a-z0-9.-]`. */
  predicate IsValidHostSyntax(host: string) {
    |host| > 0 && host[0] != '.' && forall i :: 0 <= i < |host| ==> IsHostChar(host[i])
  }

  /** isValidYouTubeHost: the two hosts, or a host whose last two dot-separated parts are youtube and com. */
  predicate IsValidYouTubeHost(host: string) {
    if host == "youtube.com" || host == "youtu.be" then true
    else if EndsWith(host, ".youtube.com") then
      var parts := Split(host, '.');
      var len := |parts|;
      len >= 3 && parts[len - 2] == "youtube" && parts[len - 1] == "com"
    else false
  }

  /** path.replaceFirst("^/", "") */
  function DropLeadingSlash(path: string): string {
    if |path| > 0 && path[0] == '/' then path[1..] else path
  }

  /** The first `&`-separated parameter that starts with "v=", without those two characters. */
  function WatchId(query: string): Option<string> {
    var v := FirstV(Split(query, '&'));
    if v.Some? then Some(v.value) else None
  }

  /** The checks isValidYoutubeUrl makes on the URL of a parsed link. */
  predicate IsValidUrl(u: Url) {
    var host := ToLower(u.host);
    if !IsValidHostSyntax(host) then false
    else if !IsValidYouTubeHost(host) then false
    else if host == "youtu.be" then IsVideoId(DropLeadingSlash(u.path))
    else if StartsWith(u.path, "/watch") then
      u.query.Some? && WatchId(u.query.value).Some? && IsVideoId(WatchId(u.query.value).value)
    else if StartsWith(u.path, "/shorts/") || StartsWith(u.path, "/live/") then
      var segments := Split(u.path, '/');
      |segments| >= 3 && IsVideoId(segments[2])
    else false
  }

  /** isValidYoutubeUrl: any failure to parse or to convert to a URL means false. */
  predicate IsValidLink(parsed: Option<Uri>) {
    parsed.Some? && parsed.value.url.Some? && IsValidUrl(parsed.value.url.value)
  }

  /** "v=" at the start is exactly what makes a parameter the `v` parameter, and its value is the rest. */
  lemma VParamIff(param: string)
    ensures IsVParam(param) <==> StartsWith(param, "v=")
    ensures IsVParam(param) ==> SplitLimit2(param, '=')[1] == param[2..]
  {
    var pair := SplitLimit2(param, '=');
    if StartsWith(param, "v=") {
      assert param[1] == '=';
      assert IndexOf(param, '=') == 1;
    }
    if IsVParam(param) {
      assert param == "v" + "=" + pair[1];
      assert param[2..] == pair[1];
    }
  }

  /** The watch-path loop: the first parameter starting with "v=" decides. */
  method WatchQueryAccepted(query: string) returns (ok: bool)
    ensures ok == (WatchId(query).Some? && IsVideoId(WatchId(query).value))
  {
    var params := Split(query, '&');
    var i := 0;
    while i < |params|
      invariant 0 <= i <= |params|
      invariant FirstV(params) == FirstV(params[i..])
    {
      var param := params[i];
      VParamIff(param);
      if StartsWith(param, "v=") {
        var id := param[2..];
        return IsVideoId(id);
      }
      assert params[i..][1..] == params[i + 1..];
      i := i + 1;
    }
    return false;
  }

  /** isValidYoutubeUrl */
  method IsValidYoutubeUrl(url: string, parse: string -> Option<Uri>) returns (ok: bool)
    ensures ok == IsValidLink(parse(url))
  {
    var parsed := parse(url);
    if parsed.None? || parsed.value.url.None? {
      return false;
    }
    var parsedUrl := parsed.value.url.value;
    var host := ToLower(parsedUrl.host);
    var path := parsedUrl.path;
    var query := parsedUrl.query;
    if !IsValidHostSyntax(host) {
      return false;
    }
    if IsValidYouTubeHost(host) {
      if host == "youtu.be" {
        var id := DropLeadingSlash(path);
        return IsVideoId(id);
      }
      if StartsWith(path, "/watch") {
        if query.None? {
          return false;
        }
        ok := WatchQueryAccepted(query.value);
        return;
      } else if StartsWith(path, "/shorts/") || StartsWith(path, "/live/") {
        var segments := Split(path, '/');
        if |segments| >= 3 {
          var id := segments[2];
          return IsVideoId(id);
        }
      }
    }
    return false;
  }

  // ----- What the canonical link looks like -----

  /** The part after the first '#', as a URI parser reads the fragment. */
  function FragmentOf(s: string): Option<string> {
    if '#' in s then Some(s[IndexOf(s, '#') + 1..]) else None
  }

  /** The part between the first '?' and the fragment, as a URI parser reads the query. */
  function QueryOf(s: string): Option<string> {
    var pre := if '#' in s then s[..IndexOf(s, '#')] else s;
    if '?' in pre then Some(pre[IndexOf(pre, '?') + 1..]) else None
  }

  /** The part before the query and the fragment. */
  function HeadOf(s: string): string {
    var pre := if '#' in s then s[..IndexOf(s, '#')] else s;
    if '?' in pre then pre[..IndexOf(pre, '?')] else pre
  }

  /**
   * Reading a head `scheme://authority/path` back, as a URI parser splits it:
   * the scheme up to the first ':', then "//", the authority up to the next
   * '/', and the rest as the path, each still quoted.
   */
  function ParseHead(h: string): Option<(string, string, string)> {
    var c := IndexOf(h, ':');
    if c < 0 || !StartsWith(h[c + 1..], "//") then None
    else
      var rest := h[c + 3..];
      var slash := IndexOf(rest, '/');
      if slash < 0 then Some((h[..c], rest, "")) else Some((h[..c], rest[..slash], rest[slash..]))
  }

  /** Decoding a quoted component gives it back. */
  lemma {:induction false} UnquoteQuote(s: string, legal: char -> bool)
    ensures Unquote(Quote(s, legal)) == s
    decreases |s|
  {
    if |s| > 0 {
      var rest := Quote(s[1..], legal);
      UnquoteQuote(s[1..], legal);
      if s[0] < 128 as char && (s[0] == '%' || !legal(s[0])) {
        var e := Escape(s[0]);
        assert (e + rest)[3..] == rest;
      } else {
        assert ([s[0]] + rest)[1..] == rest;
      }
    }
  }

  /** An ASCII character that is neither legal, '%' nor a hex digit does not occur in a quoted string. */
  lemma {:induction false} QuoteOmits(s: string, legal: char -> bool, c: char)
    requires c < 128 as char && c != '%' && !IsHexDigit(c) && !legal(c)
    ensures c !in Quote(s, legal)
    decreases |s|
  {
    if |s| > 0 {
      QuoteOmits(s[1..], legal, c);
    }
  }

  /** The scheme, authority and path parts of a rebuilt URI hold no '?' and no '#'. */
  lemma HeadOmitsDelimiters(scheme: Option<string>, authority: Option<string>, path: Option<string>)
    requires scheme.Some? ==> IsSchemeName(scheme.value)
    ensures '?' !in RenderHead(scheme, authority, path) && '#' !in RenderHead(scheme, authority, path)
  {
    if authority.Some? {
      QuoteOmits(authority.value, LegalInAuthority, '?');
      QuoteOmits(authority.value, LegalInAuthority, '#');
    }
    if path.Some? {
      QuoteOmits(path.value, LegalInPath, '?');
      QuoteOmits(path.value, LegalInPath, '#');
    }
  }

  /** Reading a head without delimiters, a '?'-led query part and a '#'-led fragment part back. */
  lemma DelimitedParts(head: string, q: string, f: string)
    requires '?' !in head && '#' !in head
    requires q == "" || (q[0] == '?' && '#' !in q)
    requires f == "" || f[0] == '#'
    ensures QueryOf(head + q + f) == if q == "" then None else Some(q[1..])
    ensures FragmentOf(head + q + f) == if f == "" then None else Some(f[1..])
    ensures HeadOf(head + q + f) == head
  {
    var s := head + q + f;
    assert '#' !in head + q;
    FragmentAfter(head + q, f);
    QueryAfter(head, q);
    var pre := if '#' in s then s[..IndexOf(s, '#')] else s;
    if f != "" {
      assert s[..|head + q|] == head + q;
    } else {
      assert s == head + q;
    }
    assert pre == head + q;
  }

  lemma FragmentAfter(pre: string, f: string)
    requires '#' !in pre
    requires f == "" || f[0] == '#'
    ensures '#' in pre + f <==> f != ""
    ensures f != "" ==> IndexOf(pre + f, '#') == |pre| && (pre + f)[|pre| + 1..] == f[1..]
  {
    IndexOfAppend(pre, f, '#');
    if f != "" {
      assert IndexOf(f, '#') == 0;
    }
  }

  lemma QueryAfter(head: string, q: string)
    requires '?' !in head
    requires q == "" || q[0] == '?'
    ensures '?' in head + q <==> q != ""
    ensures q != "" ==> IndexOf(head + q, '?') == |head| && (head + q)[|head| + 1..] == q[1..]
  {
    IndexOfAppend(head, q, '?');
    if q != "" {
      assert IndexOf(q, '?') == 0;
    }
  }

  /**
   * Reading a rebuilt URI back: its query is the quoted query given to the
   * constructor and its fragment the quoted fragment, each present exactly when given.
   */
  lemma RenderUriParts(scheme: Option<string>, authority: Option<string>, path: Option<string>,
                       query: Option<string>, fragment: Option<string>)
    requires scheme.Some? ==> IsSchemeName(scheme.value)
    ensures QueryOf(RenderUri(scheme, authority, path, query, fragment))
      == if query.Some? then Some(Quote(query.value, LegalInQuery)) else None
    ensures FragmentOf(RenderUri(scheme, authority, path, query, fragment))
      == if fragment.Some? then Some(Quote(fragment.value, LegalInQuery)) else None
    ensures HeadOf(RenderUri(scheme, authority, path, query, fragment)) == RenderHead(scheme, authority, path)
  {
    var head := RenderHead(scheme, authority, path);
    var q := if query.Some? then "?" + Quote(query.value, LegalInQuery) else "";
    var f := if fragment.Some? then "#" + Quote(fragment.value, LegalInQuery) else "";
    HeadOmitsDelimiters(scheme, authority, path);
    if query.Some? {
      QuoteOmits(query.value, LegalInQuery, '#');
      assert q[1..] == Quote(query.value, LegalInQuery);
    }
    if fragment.Some? {
      assert f[1..] == Quote(fragment.value, LegalInQuery);
    }
    DelimitedParts(head, q, f);
    assert RenderUri(scheme, authority, path, query, fragment) == head + q + f;
  }

  /**
   * A rebuilt head with all three parts reads back as the scheme, and as the
   * quoted forms of the authority and the path, which decode to the originals.
   */
  lemma RenderHeadReadBack(scheme: string, authority: string, path: string)
    requires IsSchemeName(scheme)
    requires path == "" || path[0] == '/'
    ensures var r := ParseHead(RenderHead(Some(scheme), Some(authority), Some(path)));
      r.Some? && r.value.0 == scheme
      && r.value.1 == Quote(authority, LegalInAuthority) && Unquote(r.value.1) == authority
      && r.value.2 == Quote(path, LegalInPath) && Unquote(r.value.2) == path
  {
    var qa := Quote(authority, LegalInAuthority);
    var qp := Quote(path, LegalInPath);
    assert RenderHead(Some(scheme), Some(authority), Some(path)) == scheme + ":" + "//" + qa + qp;
    QuoteOmits(authority, LegalInAuthority, '/');
    if path != "" {
      QuoteHeadKept(path, LegalInPath);
    }
    ParseHeadParts(scheme, qa, qp);
    UnquoteQuote(authority, LegalInAuthority);
    UnquoteQuote(path, LegalInPath);
  }

  /** ParseHead splits `scheme://authority path` where the authority has no '/' and the path starts with one. */
  lemma ParseHeadParts(scheme: string, qa: string, qp: string)
    requires IsSchemeName(scheme) && '/' !in qa && (qp == "" || qp[0] == '/')
    ensures ParseHead(scheme + ":" + "//" + qa + qp) == Some((scheme, qa, qp))
  {
    SchemeLacksColon(scheme);
    assert scheme + ":" + "//" + qa + qp == scheme + ":" + ("//" + qa + qp);
    ParseHeadScheme(scheme, "//" + qa + qp);
    assert ("//" + qa + qp)[2..] == qa + qp;
    SplitAtSlash(qa, qp);
  }

  lemma SchemeLacksColon(scheme: string)
    requires IsSchemeName(scheme)
    ensures ':' !in scheme
  {
  }

  /** The scheme ends at the first ':', and the authority starts after the "//" that follows it. */
  lemma ParseHeadScheme(scheme: string, rest: string)
    requires ':' !in scheme && StartsWith(rest, "//")
    ensures var r := rest[2..]; var slash := IndexOf(r, '/');
      ParseHead(scheme + ":" + rest)
        == if slash < 0 then Some((scheme, r, "")) else Some((scheme, r[..slash], r[slash..]))
  {
    var h := scheme + ":" + rest;
    assert h == scheme + (":" + rest);
    IndexOfAppend(scheme, ":" + rest, ':');
    var c := |scheme|;
    assert h[c + 1..] == rest;
    assert h[..c] == scheme;
    assert h[c + 3..] == rest[2..];
  }

  lemma SplitAtSlash(qa: string, qp: string)
    requires '/' !in qa && (qp == "" || qp[0] == '/')
    ensures var rest := qa + qp; var slash := IndexOf(rest, '/');
      (if slash < 0 then (rest, "") else (rest[..slash], rest[slash..])) == (qa, qp)
  {
    if qp == "" {
      assert qa + qp == qa;
    } else {
      IndexOfAppend(qa, qp, '/');
      assert IndexOf(qp, '/') == 0;
      assert (qa + qp)[..|qa|] == qa && (qa + qp)[|qa|..] == qp;
    }
  }

  /** A string that starts with a legal character other than '%' is quoted with that character first. */
  lemma QuoteHeadKept(s: string, legal: char -> bool)
    requires |s| > 0 && s[0] != '%' && legal(s[0])
    ensures |Quote(s, legal)| > 0 && Quote(s, legal)[0] == s[0]
  {
  }

  /** Every '&'-separated piece of a query is free of '&'. */
  lemma SplitPiecesLackSeparator(s: string, sep: char)
    ensures forall k :: 0 <= k < |Split(s, sep)| ==> sep !in Split(s, sep)[k]
  {
    if sep in s {
      SplitAllPieces(s, sep);
    }
  }

  /**
   * The shape of a canonical link: its query is, once decoded, "v=" and the
   * value of the first `v` parameter, a single parameter, or absent when there
   * is none; its fragment is the original one.
   */
  lemma CanonicalLinkShape(link: string, u: Uri)
    requires u.rawQuery.Some? && u.rawQuery.value != ""
    requires u.scheme.Some? ==> IsSchemeName(u.scheme.value)
    requires CanonicalLink(link, Some(u)).Success?
    ensures var s := CanonicalLink(link, Some(u)).value;
      var v := FirstV(Split(u.rawQuery.value, '&'));
      (v.None? ==> QueryOf(s).None?)
      && (v.Some? ==> QueryOf(s).Some? && Unquote(QueryOf(s).value) == "v=" + v.value && '&' !in v.value)
      && (u.fragment.None? ==> FragmentOf(s).None?)
      && (u.fragment.Some? ==> FragmentOf(s).Some? && Unquote(FragmentOf(s).value) == u.fragment.value)
    ensures var s := CanonicalLink(link, Some(u)).value;
      HeadOf(s) == RenderHead(u.scheme, u.authority, u.path)
      && (u.scheme.Some? && u.authority.Some? && u.path.Some? ==>
            var h := ParseHead(HeadOf(s));
            h.Some? && h.value.0 == u.scheme.value
            && Unquote(h.value.1) == u.authority.value && Unquote(h.value.2) == u.path.value)
  {
    var q := u.rawQuery.value;
    var kept := KeptQuery(q);
    RenderUriParts(u.scheme, u.authority, u.path, kept, u.fragment);
    if kept.Some? {
      UnquoteQuote(kept.value, LegalInQuery);
      var params := Split(q, '&');
      FirstVIsAPiece(params);
      SplitPiecesLackSeparator(q, '&');
    }
    if u.fragment.Some? {
      UnquoteQuote(u.fragment.value, LegalInQuery);
    }
    if u.scheme.Some? && u.authority.Some? && u.path.Some? {
      RenderHeadReadBack(u.scheme.value, u.authority.value, u.path.value);
    }
  }

  /** The first `v` value is the value part of one of the parameters. */
  lemma {:induction false} FirstVIsAPiece(params: seq<string>)
    requires FirstV(params).Some?
    ensures exists k :: 0 <= k < |params| && IsVParam(params[k]) && SplitLimit2(params[k], '=')[1] == FirstV(params).value
    decreases |params|
  {
    if !IsVParam(params[0]) {
      FirstVIsAPiece(params[1..]);
      var k :| 0 <= k < |params| - 1 && IsVParam(params[1..][k]) && SplitLimit2(params[1..][k], '=')[1] == FirstV(params).value;
      assert params[1..][k] == params[k + 1];
    }
  }

  /** First `v` wins: the value comes from the earliest `v` parameter; later ones are ignored. */
  lemma {:induction false} FirstVAt(params: seq<string>, k: nat)
    requires k < |params| && IsVParam(params[k])
    requires forall j :: 0 <= j < k ==> !IsVParam(params[j])
    ensures FirstV(params) == Some(SplitLimit2(params[k], '=')[1])
    decreases k
  {
    if k > 0 {
      FirstVAt(params[1..], k - 1);
    }
  }

  /** With no query, or an empty one, the link is returned as it is. */
  lemma NoQueryUnchanged(link: string, u: Uri)
    requires u.rawQuery.None? || u.rawQuery.value == ""
    ensures CanonicalLink(link, Some(u)) == Success(link)
  {
  }

  /** Quoting works character by character. */
  lemma {:induction false} QuoteAppend(a: string, b: string, legal: char -> bool)
    ensures Quote(a + b, legal) == Quote(a, legal) + Quote(b, legal)
    decreases |a|
  {
    if |a| > 0 {
      assert (a + b)[0] == a[0];
      assert (a + b)[1..] == a[1..] + b;
      QuoteAppend(a[1..], b, legal);
    } else {
      assert a + b == b;
    }
  }

  /** A string of legal ASCII characters other than '%' is kept by the quoting. */
  lemma {:induction false} QuoteKeepsLegal(s: string, legal: char -> bool)
    requires forall i :: 0 <= i < |s| ==> s[i] < 128 as char && s[i] != '%' && legal(s[i])
    ensures Quote(s, legal) == s
    decreases |s|
  {
    if |s| > 0 {
      QuoteKeepsLegal(s[1..], legal);
    }
  }

  /** The constructor's quoting turns the '%' of an escape in the kept query into "%25". */
  lemma PercentRequoted(a: string, b: string)
    requires forall i :: 0 <= i < |a| ==> a[i] < 128 as char && a[i] != '%' && LegalInQuery(a[i])
    requires forall i :: 0 <= i < |b| ==> b[i] < 128 as char && b[i] != '%' && LegalInQuery(b[i])
    ensures Quote(a + "%" + b, LegalInQuery) == a + "%25" + b
  {
    var p := "%";
    QuoteAppend(a + p, b, LegalInQuery);
    QuoteAppend(a, p, LegalInQuery);
    QuoteKeepsLegal(a, LegalInQuery);
    QuoteKeepsLegal(b, LegalInQuery);
    QuotePercent(p);
  }

  lemma QuotePercent(p: string)
    requires p == "%"
    ensures Quote(p, LegalInQuery) == "%25"
  {
    assert Quote(p, LegalInQuery) == Escape('%') + Quote(p[1..], LegalInQuery);
    assert Escape('%') == "%25";
  }

  /** The fixture: the kept query v=abc%20def is rebuilt as v=abc%2520def. */
  lemma PercentRequotedFixture(a: string, b: string)
    requires a == "v=abc" && b == "20def"
    ensures Quote(a + "%" + b, LegalInQuery) == "v=abc%2520def"
  {
    PercentRequoted(a, b);
  }

  // ----- What the validator accepts -----

  /** A string that ends with a dot-free two-part suffix splits into its prefix's pieces and the two parts. */
  lemma SplitTwoPartSuffix(prefix: string, x: string, y: string)
    requires '.' !in x && '.' !in y && y != ""
    ensures Split(prefix + "." + x + "." + y, '.') == SplitAll(prefix, '.') + [x, y]
  {
    var host := prefix + "." + x + "." + y;
    assert host == prefix + ['.'] + (x + ['.'] + y);
    SplitAllAppend(prefix, x + ['.'] + y, '.');
    SplitAllAppend(x, y, '.');
    SplitAllNoSep(x, '.');
    SplitAllNoSep(y, '.');
    assert host[|prefix|] == '.';
  }

  /**
   * isValidYouTubeHost by itself: one of the two hosts, or any host ending in
   * ".youtube.com", because then the last two dot-separated parts are always
   * youtube and com and there are always at least three parts.
   */
  lemma YouTubeHostIff(host: string)
    ensures IsValidYouTubeHost(host)
      <==> host == "youtube.com" || host == "youtu.be" || EndsWith(host, ".youtube.com")
  {
    if host != "youtube.com" && host != "youtu.be" && EndsWith(host, ".youtube.com") {
      var prefix := host[..|host| - 12];
      var x, y := "youtube", "com";
      assert host == prefix + "." + x + "." + y;
      SplitTwoPartSuffix(prefix, x, y);
    }
  }

  /**
   * The host ".youtube.com" passes isValidYouTubeHost (its pieces are "",
   * "youtube", "com"); only the host syntax check turns it away.
   */
  lemma DotYoutubeComHost(host: string)
    requires host == ".youtube.com"
    ensures IsValidYouTubeHost(host) && !IsValidHostSyntax(host)
  {
    assert EndsWith(host, ".youtube.com");
    YouTubeHostIff(host);
  }

  /** A look-alike host that does not end in ".youtube.com" is refused. */
  lemma LookAlikeHostRefused(host: string)
    requires host == "fakeyoutube.com"
    ensures !IsValidYouTubeHost(host)
  {
    assert host[|host| - 12] == 'e';
    YouTubeHostIff(host);
  }

  /**
   * The host rules of an accepted link: the lower-cased host is non-empty, does
   * not start with '.', has only [a-z0-9.-], and is youtube.com, youtu.be or a
   * subdomain of youtube.com.
   */
  lemma AcceptedHostRules(u: Url)
    requires IsValidUrl(u)
    ensures var host := ToLower(u.host);
      |host| > 0 && host[0] != '.'
      && (forall i :: 0 <= i < |host| ==> IsHostChar(host[i]))
      && (host == "youtube.com" || host == "youtu.be" || EndsWith(host, ".youtube.com"))
  {
    YouTubeHostIff(ToLower(u.host));
  }

  /** Host case does not matter: a host is judged by its lower-cased form. */
  lemma HostCaseIgnored(u: Url, host: string)
    requires ToLower(host) == ToLower(u.host)
    ensures IsValidUrl(Url(host, u.path, u.query)) == IsValidUrl(u)
  {
  }

  /** A path "/shorts/<id>" or "/live/<id>", perhaps followed by more segments, has the id as segment 2. */
  lemma SegmentPathId(kind: string, id: string, tail: string)
    requires kind == "shorts" || kind == "live"
    requires id != "" && '/' !in id
    requires tail == "" || tail[0] == '/'
    ensures var segments := Split("/" + kind + "/" + id + tail, '/');
      |segments| >= 3 && segments[2] == id
  {
    var path := "/" + kind + "/" + id + tail;
    assert path == "" + ['/'] + (kind + ['/'] + (id + tail));
    assert '/' in path;
    SplitAllAppend("", kind + ['/'] + (id + tail), '/');
    SplitAllAppend(kind, id + tail, '/');
    SplitAllNoSep(kind, '/');
    var rest := SplitAll(id + tail, '/');
    if tail == "" {
      assert id + tail == id;
      SplitAllNoSep(id, '/');
    } else {
      assert id + tail == id + ['/'] + tail[1..];
      SplitAllAppend(id, tail[1..], '/');
      SplitAllNoSep(id, '/');
    }
    assert rest[0] == id;
    var all := SplitAll(path, '/');
    assert all == SplitAll("", '/') + ([kind] + rest);
    SplitAllNoSep("", '/');
    assert all[2] == id;
    var segments := DropTrailingEmpty(all);
    assert |segments| >= 3;
  }

  /** On a YouTube host, a "/shorts/" or "/live/" link is accepted exactly when its segment-2 id is a video id. */
  lemma SegmentPathAccepted(host: string, kind: string, id: string, tail: string, query: Option<string>)
    requires IsValidHostSyntax(ToLower(host)) && IsValidYouTubeHost(ToLower(host)) && ToLower(host) != "youtu.be"
    requires kind == "shorts" || kind == "live"
    requires id != "" && '/' !in id
    requires tail == "" || tail[0] == '/'
    ensures IsValidUrl(Url(host, "/" + kind + "/" + id + tail, query)) <==> IsVideoId(id)
  {
    SegmentPathId(kind, id, tail);
    SegmentPathPrefix(kind, id, tail);
  }

  lemma SegmentPathPrefix(kind: string, id: string, tail: string)
    requires kind == "shorts" || kind == "live"
    ensures var path := "/" + kind + "/" + id + tail;
      !StartsWith(path, "/watch") && (StartsWith(path, "/shorts/") || StartsWith(path, "/live/"))
  {
    var path := "/" + kind + "/" + id + tail;
    assert path[1] == kind[0];
    if kind == "shorts" {
      assert path[..8] == "/shorts/";
    } else {
      assert path[..6] == "/live/";
    }
  }

  /** On youtu.be the path after its leading '/' is the id, whatever the query. */
  lemma ShortHostAccepted(host: string, id: string, query: Option<string>)
    requires ToLower(host) == "youtu.be"
    ensures IsValidUrl(Url(host, "/" + id, query)) <==> IsVideoId(id)
  {
    assert ("/" + id)[1..] == id;
  }

  /**
   * The validator's test for the `v` parameter (starts with "v=") and the
   * canonicaliser's (split at the first '=' into "v" and a value) pick the same
   * parameter and the same value: what is validated as the id is what the
   * canonical link keeps.
   */
  lemma ValidatedIdIsKept(query: string)
    requires WatchId(query).Some?
    ensures KeptQuery(query) == Some("v=" + WatchId(query).value)
    ensures exists k :: (0 <= k < |Split(query, '&')| && StartsWith(Split(query, '&')[k], "v=")
                         && Split(query, '&')[k][2..] == WatchId(query).value)
  {
    var params := Split(query, '&');
    FirstVIsAPiece(params);
    var k :| 0 <= k < |params| && IsVParam(params[k]) && SplitLimit2(params[k], '=')[1] == FirstV(params).value;
    VParamIff(params[k]);
  }

  /** On a YouTube host, a watch link whose only parameter is "v=<id>" is accepted exactly when id is a video id. */
  lemma WatchSingleParamAccepted(host: string, path: string, id: string)
    requires IsValidHostSyntax(ToLower(host)) && IsValidYouTubeHost(ToLower(host)) && ToLower(host) != "youtu.be"
    requires StartsWith(path, "/watch")
    requires '&' !in id
    ensures IsValidUrl(Url(host, path, Some("v=" + id))) <==> IsVideoId(id)
  {
    var q := "v=" + id;
    assert '&' !in q by {
      assert q[0] == 'v' && q[1] == '=' && q[2..] == id;
    }
    assert Split(q, '&') == [q];
    VParamIff(q);
    assert StartsWith(q, "v=") by {
      assert q[..2] == "v=";
    }
    assert q[2..] == id;
  }

  /** A watch link with no query, or with no `v` parameter, is refused. */
  lemma WatchWithoutVRefused(host: string, path: string, query: Option<string>)
    requires ToLower(host) != "youtu.be"
    requires StartsWith(path, "/watch")
    requires query.Some? ==> forall k :: 0 <= k < |Split(query.value, '&')| ==> !StartsWith(Split(query.value, '&')[k], "v=")
    ensures !IsValidUrl(Url(host, path, query))
  {
    if query.Some? {
      var params := Split(query.value, '&');
      forall k | 0 <= k < |params| ensures !IsVParam(params[k]) {
        VParamIff(params[k]);
      }
    }
  }

  /** Fixtures: "https://www.youtube.com/watch?v=dQw4w9WgXcQ" is accepted, and so is the upper-case host. */
  lemma WatchFixtureAccepted(host: string, upper: string, id: string)
    requires host == "www.youtube.com" && upper == "WWW.YOUTUBE.COM" && id == "dQw4w9WgXcQ"
    ensures IsValidUrl(Url(host, "/watch", Some("v=" + id)))
    ensures IsValidUrl(Url(upper, "/watch", Some("v=" + id)))
  {
    FixtureHost(host, upper);
    FixtureId(id);
    var path := "/watch";
    assert StartsWith(path, "/watch");
    WatchSingleParamAccepted(host, path, id);
    HostCaseIgnored(Url(host, path, Some("v=" + id)), upper);
  }

  lemma FixtureHost(host: string, upper: string)
    requires host == "www.youtube.com" && upper == "WWW.YOUTUBE.COM"
    ensures ToLower(host) == host && ToLower(upper) == host
    ensures IsValidHostSyntax(host) && IsValidYouTubeHost(host) && host != "youtu.be"
  {
    LowerCaseKept(host);
    UpperCaseLowered(host, upper);
    assert EndsWith(host, ".youtube.com");
    YouTubeHostIff(host);
  }

  lemma LowerCaseKept(host: string)
    requires forall i :: 0 <= i < |host| ==> !('A' <= host[i] <= 'Z')
    ensures ToLower(host) == host
  {
  }

  lemma UpperCaseLowered(host: string, upper: string)
    requires host == "www.youtube.com" && upper == "WWW.YOUTUBE.COM"
    ensures ToLower(upper) == host
  {
    forall i | 0 <= i < |host| ensures LowerChar(upper[i]) == host[i] {
    }
  }

  lemma FixtureId(id: string)
    requires id == "dQw4w9WgXcQ"
    ensures IsVideoId(id) && '&' !in id
  {
  }

  /** Fixtures: "https://youtube.com/shorts/abc" and "https://youtu.be/abc12" are refused for their short ids. */
  lemma ShortIdFixturesRefused(host: string, shortHost: string, id: string, shortId: string)
    requires host == "youtube.com" && shortHost == "youtu.be" && id == "abc" && shortId == "abc12"
    ensures !IsValidUrl(Url(host, "/shorts/" + id, None))
    ensures !IsValidUrl(Url(shortHost, "/" + shortId, None))
  {
    assert ToLower(host) == host;
    assert ToLower(shortHost) == shortHost;
    SegmentPathAccepted(host, "shorts", id, "", None);
    assert "/" + "shorts" + "/" + id + "" == "/shorts/" + id;
    ShortHostAccepted(shortHost, shortId, None);
  }
}
