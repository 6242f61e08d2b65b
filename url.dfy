// The host the request guard reads from an Origin or Referer header: urllib.parse.urlparse(...)
// .hostname, following urlsplit as Python 3.12 writes it, restricted to ASCII text.
module Url {
  import opened Wrappers
  import opened Text

  /** str.find(c) with "not found" as len(s) rather than -1. */
  function IndexOf(s: string, c: char): (i: nat)
    ensures i <= |s|
  {
    if s == [] then 0 else if s[0] == c then 0 else 1 + IndexOf(s[1..], c)
  }

  /** The index found is the first occurrence of c, or len(s) when c does not occur. */
  lemma {:induction false} IndexOfFirst(s: string, c: char)
    ensures var i := IndexOf(s, c);
      && (i < |s| ==> s[i] == c)
      && (forall j :: 0 <= j < i ==> s[j] != c)
  {
    if s != [] && s[0] != c {
      IndexOfFirst(s[1..], c);
    }
  }

  /** _WHATWG_C0_CONTROL_OR_SPACE: U+0000 to U+0020, stripped from the front of the URL. */
  function LStripC0(s: string): (r: string)
    ensures |r| <= |s|
  {
    if s != [] && s[0] <= ' ' then LStripC0(s[1..]) else s
  }

  /** _UNSAFE_URL_BYTES_TO_REMOVE: tab, CR and LF are deleted wherever they are. */
  function RemoveUnsafe(s: string): string {
    if s == [] then []
    else if s[0] == '\t' || s[0] == '\r' || s[0] == '\n' then RemoveUnsafe(s[1..])
    else [s[0]] + RemoveUnsafe(s[1..])
  }

  /** scheme_chars: ASCII letters, digits, '+', '-' and '.'. */
  predicate SchemeChar(c: char) {
    IsAsciiLetter(c) || IsDigit(c) || c == '+' || c == '-' || c == '.'
  }

  /** What urlsplit leaves after removing a scheme: one is there when a letter and scheme chars precede the first ':'. */
  predicate SchemeChars(s: string) {
    s == [] || (SchemeChar(s[0]) && SchemeChars(s[1..]))
  }

  function AfterScheme(url: string): string {
    var i := IndexOf(url, ':');
    if 0 < i < |url| && IsAsciiLetter(url[0]) && SchemeChars(url[..i])
    then url[i + 1..]
    else url
  }

  /** _splitnetloc(url, 2) on what follows "//": up to the first '/', '?' or '#'. */
  function NetlocPart(s: string): (r: string)
    ensures |r| <= |s| && r == s[..|r|]
  {
    var d := Min(IndexOf(s, '/'), Min(IndexOf(s, '?'), IndexOf(s, '#')));
    s[..d]
  }

  function Min(a: nat, b: nat): nat {
    if a <= b then a else b
  }

  /**
   * The structural part of _check_bracketed_netloc: after the last '@', a '[' must open the host
   * and whatever follows its ']' must be a port.
   */
  predicate BracketsWellPlaced(netloc: string) {
    var hp := AfterLast(netloc, '@');
    var i := IndexOf(hp, '[');
    i == |hp| ||
      (i == 0 &&
        var inner := hp[1..];
        var port := inner[Min(IndexOf(inner, ']') + 1, |inner|)..];
        port == [] || port[0] == ':')
  }

  /** The netloc urlsplit returns; None where it raises ValueError("Invalid IPv6 URL"). */
  function Netloc(url: string): Option<string> {
    var u := AfterScheme(RemoveUnsafe(LStripC0(url)));
    if |u| >= 2 && u[0] == '/' && u[1] == '/' then
      var n := NetlocPart(u[2..]);
      if ('[' in n) != (']' in n) then None
      else if '[' in n && !BracketsWellPlaced(n) then None
      else Some(n)
    else Some("")
  }

  /**
   * The hostname property: after the last '@', the text inside brackets or before the first ':';
   * None when that is empty; else the part before any '%' lower-cased.
   */
  function HostnameOf(netloc: string): (r: Option<string>)
    ensures r.Some? ==> r.value != ""
  {
    var hostinfo := AfterLast(netloc, '@');
    var i := IndexOf(hostinfo, '[');
    var host :=
      if i < |hostinfo| then
        var inner := hostinfo[i + 1..];
        inner[..IndexOf(inner, ']')]
      else hostinfo[..IndexOf(hostinfo, ':')];
    if host == "" then None
    else
      var p := IndexOf(host, '%');
      Some(LowerAscii(host[..p]) + host[p..])
  }

  /**
   * The origin host the guard checks: the header, given "http://" in front when it has no "://",
   * through urlparse(...).hostname; None for an empty header or where urlparse raises.
   */
  function OriginHost(header: string): Option<string> {
    if header == "" then None
    else
      var url := if Contains(header, "://") then header else "http://" + header;
      match Netloc(url)
      case None => None
      case Some(n) => HostnameOf(n)
  }

  // ---------------------------------------------------------------------------
  // Reading the host of an ordinary origin.

  /** The characters of an ordinary lower-case DNS name or IPv4 address. */
  predicate HostChar(c: char) {
    ('a' <= c <= 'z') || IsDigit(c) || c == '-' || c == '.'
  }

  predicate PlainHost(h: string) {
    |h| > 0 && forall i :: 0 <= i < |h| ==> HostChar(h[i])
  }

  predicate ValidScheme(s: string) {
    |s| > 0 && IsAsciiLetter(s[0]) && SchemeChars(s)
  }

  /** The ":port" that may follow a host: empty, or a colon and digits. */
  predicate PortPart(p: string) {
    p == [] || (p[0] == ':' && AllDigits(p[1..]))
  }

  /** The path, query or fragment that may follow the authority. */
  predicate PathPart(p: string) {
    p == [] || p[0] == '/' || p[0] == '?' || p[0] == '#'
  }

  lemma {:induction false} IndexOfAppend(a: string, b: string, c: char)
    requires forall i :: 0 <= i < |a| ==> a[i] != c
    ensures IndexOf(a + b, c) == |a| + IndexOf(b, c)
  {
    if a != [] {
      assert (a + b)[0] == a[0];
      assert (a + b)[1..] == a[1..] + b;
      IndexOfAppend(a[1..], b, c);
    } else {
      assert a + b == b;
    }
  }

  lemma IndexOfAbsent(s: string, c: char)
    requires forall i :: 0 <= i < |s| ==> s[i] != c
    ensures IndexOf(s, c) == |s|
  {
    IndexOfAppend(s, [], c);
    assert s + [] == s;
  }

  lemma {:induction false} SchemeCharsAll(s: string)
    requires SchemeChars(s)
    ensures forall i :: 0 <= i < |s| ==> SchemeChar(s[i])
  {
    if s != [] {
      SchemeCharsAll(s[1..]);
      assert forall i :: 1 <= i < |s| ==> s[i] == s[1..][i - 1];
    }
  }

  lemma {:induction false} RemoveUnsafeNone(s: string)
    requires NoUnsafe(s)
    ensures RemoveUnsafe(s) == s
  {
    if s != [] {
      RemoveUnsafeNone(s[1..]);
    }
  }

  lemma LowerOfLower(h: string)
    requires PlainHost(h)
    ensures LowerAscii(h) == h
  {
    LowerAsciiAt(h);
  }

  /** Every character of "host:port" is a host character or a colon. */
  lemma AuthorityChars(h: string, port: string)
    requires PlainHost(h) && PortPart(port)
    ensures forall i :: 0 <= i < |h + port| ==> HostChar((h + port)[i]) || (h + port)[i] == ':'
  {
    PortPartSafe(port);
    forall i | 0 <= i < |h + port|
      ensures HostChar((h + port)[i]) || (h + port)[i] == ':'
    {
      if i >= |h| {
        assert (h + port)[i] == port[i - |h|];
      }
    }
  }

  /** The host of an ordinary netloc "host" or "host:port" is the host itself. */
  lemma HostnameOfPlain(h: string, port: string)
    requires PlainHost(h) && PortPart(port)
    ensures HostnameOf(h + port) == Some(h)
  {
    var n := h + port;
    AuthorityChars(h, port);
    AfterLastNone(n, '@');
    IndexOfAbsent(n, '[');
    IndexOfAppend(h, port, ':');
    assert IndexOf(port, ':') == 0;
    assert n[..|h|] == h;
    IndexOfAbsent(h, '%');
    assert h[..|h|] == h && h[|h|..] == [];
    LowerOfLower(h);
    assert LowerAscii(h) + [] == h;
  }

  predicate NoUnsafe(s: string) {
    forall i :: 0 <= i < |s| ==> s[i] != '\t' && s[i] != '\r' && s[i] != '\n'
  }

  lemma NoUnsafeAppend(a: string, b: string)
    requires NoUnsafe(a) && NoUnsafe(b)
    ensures NoUnsafe(a + b)
  {
    forall i | 0 <= i < |a + b|
      ensures (a + b)[i] != '\t' && (a + b)[i] != '\r' && (a + b)[i] != '\n'
    {
      if i >= |a| {
        assert (a + b)[i] == b[i - |a|];
      }
    }
  }

  /** A scheme followed by ':' is removed by urlsplit, leaving what follows the colon. */
  lemma AfterSchemeOf(scheme: string, rest: string)
    requires ValidScheme(scheme)
    ensures AfterScheme(scheme + ":" + rest) == rest
  {
    var url := scheme + ":" + rest;
    SchemeCharsAll(scheme);
    assert url == scheme + (":" + rest);
    IndexOfAppend(scheme, ":" + rest, ':');
    assert url[0] == scheme[0];
    assert url[..|scheme|] == scheme;
    assert url[|scheme| + 1..] == rest;
  }

  /** The netloc of "//host[:port][path]" is "host[:port]". */
  lemma NetlocAfterSlashes(h: string, port: string, path: string)
    requires PlainHost(h) && PortPart(port) && PathPart(path)
    ensures var u := "//" + h + port + path;
      |u| >= 2 && u[0] == '/' && u[1] == '/' && NetlocPart(u[2..]) == h + port
      && '[' !in h + port && ']' !in h + port
  {
    var u := "//" + h + port + path;
    assert u[2..] == h + port + path;
    NetlocOfPlain(h, port, path);
    AuthorityChars(h, port);
  }

  /** urlsplit of "scheme://host[:port][path]" finds the netloc "host[:port]". */
  lemma NetlocWithScheme(scheme: string, h: string, port: string, path: string)
    requires ValidScheme(scheme) && PlainHost(h) && PortPart(port) && PathPart(path)
    requires NoUnsafe(path)
    ensures Netloc(scheme + "://" + h + port + path) == Some(h + port)
  {
    var url := scheme + "://" + h + port + path;
    SchemeUrlSafe(scheme, h, port, path);
    assert LStripC0(url) == url by {
      assert url[0] == scheme[0];
    }
    RemoveUnsafeNone(url);
    assert url == scheme + ":" + ("//" + h + port + path);
    AfterSchemeOf(scheme, "//" + h + port + path);
    NetlocAfterSlashes(h, port, path);
  }

  /** Nothing in a URL built from a valid scheme, a plain host, a port and a path needs removing. */
  lemma SchemeUrlSafe(scheme: string, h: string, port: string, path: string)
    requires ValidScheme(scheme) && PlainHost(h) && PortPart(port) && NoUnsafe(path)
    ensures NoUnsafe(scheme + "://" + h + port + path)
  {
    PortPartSafe(port);
    SchemeCharsAll(scheme);
    assert NoUnsafe(scheme);
    assert NoUnsafe("://" + h + port) by {
      AuthorityChars(h, port);
      assert "://" + h + port == "://" + (h + port);
    }
    NoUnsafeAppend(scheme + "://" + h + port, path) by {
      NoUnsafeAppend(scheme, "://" + h + port);
      assert scheme + ("://" + h + port) == scheme + "://" + h + port;
    }
  }

  /** An origin written with a scheme, "scheme://host[:port][path]", yields its host. */
  lemma OriginHostWithScheme(scheme: string, h: string, port: string, path: string)
    requires ValidScheme(scheme) && PlainHost(h) && PortPart(port) && PathPart(path)
    requires NoUnsafe(path)
    ensures OriginHost(scheme + "://" + h + port + path) == Some(h)
  {
    var header := scheme + "://" + h + port + path;
    assert header[|scheme|..][..3] == "://";
    ContainsAt(header, "://", |scheme|);
    NetlocWithScheme(scheme, h, port, path);
    HostnameOfPlain(h, port);
  }

  /** A bare origin "host[:port]" (no "://") is read as "http://host[:port]". */
  lemma OriginHostBare(h: string, port: string)
    requires PlainHost(h) && PortPart(port)
    ensures OriginHost(h + port) == Some(h)
  {
    PortPartSafe(port);
    NoSchemeSeparator(h + port);
    assert "http://" + (h + port) == "http" + "://" + h + port + "";
    NetlocWithScheme("http", h, port, "");
    HostnameOfPlain(h, port);
  }

  /** No header, or an empty one, gives no host (and the guard falls back to the address). */
  lemma NoHeaderNoHost()
    ensures OriginHost("") == None
  {
  }

  lemma {:induction false} ContainsAt(s: string, p: string, k: nat)
    requires k <= |s| && StartsWith(s[k..], p)
    ensures Contains(s, p)
    decreases k
  {
    if k > 0 {
      assert s[1..][k - 1..] == s[k..];
      ContainsAt(s[1..], p, k - 1);
    }
  }

  lemma {:induction false} NoSchemeSeparator(s: string)
    requires forall i :: 0 <= i < |s| ==> HostChar(s[i]) || s[i] == ':' || IsDigit(s[i])
    ensures !Contains(s, "://")
    decreases |s|
  {
    if |s| >= 3 {
      assert s[1] != '/';
      assert s[..3][1] == s[1];
    }
    if s != [] {
      NoSchemeSeparator(s[1..]);
    }
  }

  lemma PortPartSafe(port: string)
    requires PortPart(port)
    ensures forall i :: 0 <= i < |port| ==> port[i] == ':' || IsDigit(port[i])
  {
    forall i | 0 <= i < |port|
      ensures port[i] == ':' || IsDigit(port[i])
    {
      if i > 0 {
        assert port[1..][i - 1] == port[i];
      }
    }
  }

  lemma NetlocOfPlain(h: string, port: string, path: string)
    requires PlainHost(h) && PortPart(port) && PathPart(path)
    ensures NetlocPart(h + port + path) == h + port
  {
    PortPartSafe(port);
    var a := h + port;
    assert h + port + path == a + path;
    IndexOfAppend(a, path, '/');
    IndexOfAppend(a, path, '?');
    IndexOfAppend(a, path, '#');
  }
}
