/**
 * A simplified stand-in for Go's `net/url`: the parts of `url.Parse`, of the
 * `url.URL` record and of its `Hostname`, `Port` and `String` methods that
 * the configuration code relies on. Parsing rejects a control character, a
 * leading ':' (no scheme), a colon in the first segment of a scheme-less
 * relative reference, and a host holding a character that Go would require
 * to be escaped or a port that is not all digits.
 */
module Urls {
  import opened Wrappers
  import opened Strings
  import opened Decimal

  datatype Url = Url(scheme: string, opaqueData: string, host: string, path: string) {

    /** URL.Hostname: the host without a trailing ":port" when the port is all digits. */
    function Hostname(): string {
      var i := LastIndexOf(host, ':');
      if i >= 0 && AllDigits(host[i + 1..]) then host[..i] else host
    }

    /** URL.Port: the digits after the last ':' of the host, or "". */
    function Port(): string {
      var i := LastIndexOf(host, ':');
      if i >= 0 && AllDigits(host[i + 1..]) then host[i + 1..] else ""
    }

    /** URL.String for a URL with a scheme and a host: scheme "://" host path. */
    function String(): string {
      scheme + "://" + host + path
    }
  }

  predicate IsControl(c: char) {
    (c as int) < 0x20 || (c as int) == 0x7F
  }

  predicate NoControl(s: string) {
    forall i :: 0 <= i < |s| ==> !IsControl(s[i])
  }

  predicate IsLetter(c: char) {
    'a' <= c <= 'z' || 'A' <= c <= 'Z'
  }

  predicate IsSchemeChar(c: char) {
    IsLetter(c) || IsDigit(c) || c == '+' || c == '-' || c == '.'
  }

  /** A scheme as url.Parse leaves it: a letter, then letters, digits, '+', '-', '.', in lower case. */
  predicate ValidScheme(s: string) {
    |s| >= 1 && IsLetter(s[0]) && (forall i :: 0 <= i < |s| ==> IsSchemeChar(s[i]))
    && (forall i :: 0 <= i < |s| ==> !('A' <= s[i] <= 'Z'))
  }

  /** A character that Go accepts unescaped in a host name (IPv6 brackets are not modelled). */
  predicate IsHostChar(c: char) {
    IsLetter(c) || IsDigit(c) || c in "-_.~!$&'()*+,;=:<>\"" || (c as int) >= 0x80
  }

  /** validOptionalPort: what follows the last ':' of the host, if any, is all digits. */
  predicate ValidPort(host: string) {
    var i := LastIndexOf(host, ':');
    i < 0 || AllDigits(host[i + 1..])
  }

  predicate ValidHost(host: string) {
    (forall i :: 0 <= i < |host| ==> IsHostChar(host[i])) && ValidPort(host)
  }

  /** What every URL returned by ParseURL satisfies. */
  predicate WellFormed(u: Url) {
    (u.scheme == "" || ValidScheme(u.scheme))
    && NoControl(u.opaqueData) && NoControl(u.path) && ValidHost(u.host)
  }

  function LowerChar(c: char): (r: char)
    ensures !('A' <= r <= 'Z')
    ensures IsSchemeChar(c) ==> IsSchemeChar(r)
    ensures IsLetter(c) ==> IsLetter(r)
    ensures !('A' <= c <= 'Z') ==> r == c
  {
    if 'A' <= c <= 'Z' then ((c as int) - ('A' as int) + ('a' as int)) as char else c
  }

  /** strings.ToLower on the ASCII letters a scheme is made of. */
  function Lower(s: string): (r: string)
    ensures |r| == |s| && forall i :: 0 <= i < |s| ==> r[i] == LowerChar(s[i])
  {
    seq(|s|, i requires 0 <= i < |s| => LowerChar(s[i]))
  }

  datatype SchemeSplit = NoScheme | WithScheme(name: string, rest: string) | MissingScheme

  /**
   * getScheme, scanning from position `i`: a run of scheme characters that
   * starts with a letter and ends at ':' is a scheme; any other character
   * ends the scan with no scheme; a ':' in first position is an error.
   */
  function GetScheme(s: string, i: nat): (r: SchemeSplit)
    requires i <= |s|
    requires forall j :: 0 <= j < i ==> IsSchemeChar(s[j])
    requires i > 0 ==> IsLetter(s[0])
    ensures r.WithScheme? ==> |r.name| >= 1 && IsLetter(r.name[0])
    ensures r.WithScheme? ==> (forall j :: 0 <= j < |r.name| ==> IsSchemeChar(r.name[j]))
    ensures r.WithScheme? ==> s == r.name + ":" + r.rest
    ensures r.MissingScheme? <==> i == 0 && |s| > 0 && s[0] == ':'
    decreases |s| - i
  {
    if i == |s| then NoScheme
    else
      var c := s[i];
      if IsLetter(c) then GetScheme(s, i + 1)
      else if IsSchemeChar(c) then (if i == 0 then NoScheme else GetScheme(s, i + 1))
      else if c == ':' then
        (if i == 0 then MissingScheme
         else
           assert s == s[..i] + ":" + s[i + 1..];
           WithScheme(s[..i], s[i + 1..]))
      else NoScheme
  }

  /** The part of `s` before its first '/'. */
  function FirstSegment(s: string): string {
    var i := IndexOf(s, '/');
    if i < 0 then s else s[..i]
  }

  lemma NoControlSlice(s: string, i: nat, j: nat)
    requires NoControl(s) && i <= j <= |s|
    ensures NoControl(s[i..j])
  {
    assert forall k :: 0 <= k < j - i ==> s[i..j][k] == s[i + k];
  }

  /** The steps of url.parse that follow the scheme. */
  function ParseAfterScheme(scheme: string, rest: string): (r: Option<Url>)
    requires scheme == "" || ValidScheme(scheme)
    requires NoControl(rest)
    ensures r.Some? ==> WellFormed(r.value) && r.value.scheme == scheme
  {
    if !HasPrefix(rest, "/") && scheme != "" then
      Some(Url(scheme, rest, "", ""))
    else if !HasPrefix(rest, "/") && ':' in FirstSegment(rest) then
      None
    else if (scheme != "" || !HasPrefix(rest, "///")) && HasPrefix(rest, "//") then
      var authority := rest[2..];
      var i := IndexOf(authority, '/');
      var host := if i < 0 then authority else authority[..i];
      var path := if i < 0 then "" else authority[i..];
      NoControlSlice(rest, 2, |rest|);
      NoControlSlice(authority, if i < 0 then 0 else i, |authority|);
      if ValidHost(host) then Some(Url(scheme, "", host, path)) else None
    else
      Some(Url(scheme, "", "", rest))
  }

  /**
   * url.Parse without the query, fragment, user information and percent
   * escapes: a '?', '#', '@' or '%' in the host makes it fail, and in the
   * path it is kept as it is, with no check that a '%' starts a valid escape.
   */
  function ParseURL(s: string): (r: Option<Url>)
    ensures r.Some? ==> WellFormed(r.value)
    ensures !NoControl(s) ==> r == None
    ensures |s| > 0 && s[0] == ':' ==> r == None
  {
    if !NoControl(s) then None
    else
      match GetScheme(s, 0)
      case MissingScheme => None
      case NoScheme => ParseAfterScheme("", s)
      case WithScheme(name, rest) =>
        NoControlSlice(s, |name| + 1, |s|);
        assert rest == s[|name| + 1..];
        ParseAfterScheme(Lower(name), rest)
  }

  /** A path that URL.String prints as it is: empty, or '/' followed by plain characters. */
  predicate PlainPath(p: string) {
    (p == [] || p[0] == '/')
    && forall i :: 0 <= i < |p| ==> (IsLetter(p[i]) || IsDigit(p[i]) || p[i] in "-._~/")
  }

  lemma {:induction false} GetSchemeOf(scheme: string, rest: string, i: nat)
    requires ValidScheme(scheme) && i <= |scheme|
    ensures GetScheme(scheme + ":" + rest, i) == WithScheme(scheme, rest)
    decreases |scheme| - i
  {
    var s := scheme + ":" + rest;
    assert forall j :: 0 <= j < |scheme| ==> s[j] == scheme[j];
    if i < |scheme| {
      GetSchemeOf(scheme, rest, i + 1);
    } else {
      assert s[i] == ':';
      assert s[..i] == scheme;
      assert s[i + 1..] == rest;
    }
  }

  lemma LowerOfLower(s: string)
    requires ValidScheme(s)
    ensures Lower(s) == s
  {
  }

  lemma NoControlConcat(a: string, b: string)
    requires NoControl(a) && NoControl(b)
    ensures NoControl(a + b)
  {
    forall k | 0 <= k < |a + b| ensures !IsControl((a + b)[k]) {
      if k >= |a| {
        assert (a + b)[k] == b[k - |a|];
      }
    }
  }

  lemma PrintedHasNoControl(u: Url)
    requires ValidScheme(u.scheme) && ValidHost(u.host) && PlainPath(u.path)
    ensures NoControl(u.String())
  {
    SchemeHasNoControl(u.scheme);
    HostHasNoControl(u.host);
    PathHasNoControl(u.path);
    NoControlConcat(u.scheme, "://");
    NoControlConcat(u.scheme + "://", u.host);
    NoControlConcat(u.scheme + "://" + u.host, u.path);
  }

  lemma SchemeHasNoControl(scheme: string)
    requires ValidScheme(scheme)
    ensures NoControl(scheme)
  {
  }

  lemma HostHasNoControl(host: string)
    requires ValidHost(host)
    ensures NoControl(host)
  {
    forall i | 0 <= i < |host|
      ensures !IsControl(host[i])
    {
      var c := host[i];
      assert IsHostChar(c);
      if c in "-_.~!$&'()*+,;=:<>\"" {
        assert (c as int) >= 0x21;
      }
    }
  }

  lemma PathHasNoControl(path: string)
    requires PlainPath(path)
    ensures NoControl(path)
  {
  }

  lemma HostHasNoSlash(host: string)
    requires ValidHost(host)
    ensures '/' !in host
  {
  }

  /** Splitting host + path at its first '/' gives back the host and the path. */
  lemma SplitAuthority(host: string, path: string)
    requires ValidHost(host) && PlainPath(path)
    ensures var i := IndexOf(host + path, '/');
      (if i < 0 then host + path else (host + path)[..i]) == host
      && (if i < 0 then "" else (host + path)[i..]) == path
  {
    var authority := host + path;
    HostHasNoSlash(host);
    if path == [] {
      assert authority == host;
    } else {
      assert authority[|host|] == '/';
      assert authority[..|host|] == host;
      assert authority[|host|..] == path;
    }
  }

  /** After the scheme, "//" host path is read back as that host and that path. */
  lemma AuthorityRoundTrip(scheme: string, host: string, path: string)
    requires ValidScheme(scheme) && ValidHost(host) && PlainPath(path)
    requires NoControl("//" + host + path)
    ensures ParseAfterScheme(scheme, "//" + host + path) == Some(Url(scheme, "", host, path))
  {
    DoubleSlash(host + path);
    assert "//" + host + path == "//" + (host + path);
    SplitAuthority(host, path);
  }

  lemma DoubleSlash(authority: string)
    ensures var rest := "//" + authority;
      HasPrefix(rest, "/") && HasPrefix(rest, "//") && rest[2..] == authority
  {
    var rest := "//" + authority;
    assert rest[..1] == "/";
    assert rest[..2] == "//";
  }

  /**
   * A URL with a scheme, a valid host and a plain path is read back by
   * ParseURL from the text that URL.String gives it.
   */
  lemma StringRoundTrip(u: Url)
    requires ValidScheme(u.scheme) && u.opaqueData == ""
    requires ValidHost(u.host) && PlainPath(u.path)
    ensures ParseURL(u.String()) == Some(u)
  {
    var rest := "//" + u.host + u.path;
    assert u.String() == u.scheme + ":" + rest;
    PrintedHasNoControl(u);
    ParseWithScheme(u.scheme, rest);
    AuthorityRoundTrip(u.scheme, u.host, u.path);
  }

  /** Text that starts with a valid scheme and a ':' is parsed by the steps after the scheme. */
  lemma ParseWithScheme(scheme: string, rest: string)
    requires ValidScheme(scheme) && NoControl(scheme + ":" + rest)
    ensures NoControl(rest)
    ensures ParseURL(scheme + ":" + rest) == ParseAfterScheme(scheme, rest)
  {
    var s := scheme + ":" + rest;
    GetSchemeOf(scheme, rest, 0);
    LowerOfLower(scheme);
    NoControlSlice(s, |scheme| + 1, |s|);
    assert s[|scheme| + 1..] == rest;
  }
}
