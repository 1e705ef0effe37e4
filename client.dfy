/** URL splitting and relative-reference resolution (`Client.__init__` and
    `Client.resolve`). A `Client` object is immutable once built, so it is a
    datatype; a constructor that raises is a `Parse` that returns `Err`. */
module Client {
  import opened Base
  import opened Strings

  datatype UrlError =
    | MissingScheme             // `url.split("://", 1)` has nothing to unpack
    | UnsupportedScheme(scheme: string)  // the `assert` on the scheme fails
    | BadPort(text: string)     // `int(port)` raises

  datatype Url = Url(scheme: string, host: string, port: int, path: string)

  /** What every successfully built `Client` satisfies. */
  predicate ValidUrl(u: Url) {
    && (u.scheme == "http" || u.scheme == "https")
    && '/' !in u.host && ':' !in u.host
    && StartsWith(u.path, "/")
  }

  function DefaultPort(scheme: string): nat {
    if scheme == "http" then 80 else 443
  }

  /** `Client(url)`. */
  function Parse(url: string): (r: Result<Url, UrlError>)
    ensures !Contains(url, "://") ==> r == Err(MissingScheme)
    ensures r.Ok? ==> ValidUrl(r.value)
  {
    match Split1(url, "://")
    case None => Err(MissingScheme)
    case Some((scheme, rest)) =>
      if scheme != "http" && scheme != "https" then Err(UnsupportedScheme(scheme))
      else ParseAfterScheme(scheme, rest)
  }

  /** Everything after `scheme://`: a `/` is appended when there is none, the
      host (with any port) runs to the first slash and the path is the rest,
      slash included. */
  function ParseAfterScheme(scheme: string, rest0: string): (r: Result<Url, UrlError>)
    requires scheme == "http" || scheme == "https"
    ensures r.Ok? ==> ValidUrl(r.value)
  {
    var rest := if Contains(rest0, "/") then rest0 else rest0 + "/";
    ContainsChar(rest0, '/');
    ContainsChar(rest, '/');
    var (hostPort, tail) := Split1(rest, "/").value;
    ContainsChar(hostPort, '/');
    HostAndPort(scheme, hostPort, "/" + tail)
  }

  /** The port: the scheme's default, unless the host names one after a
      colon, which is then cut off the host. */
  function HostAndPort(scheme: string, hostPort: string, path: string): (r: Result<Url, UrlError>)
    requires scheme == "http" || scheme == "https"
    requires '/' !in hostPort && StartsWith(path, "/")
    ensures r.Ok? ==> ValidUrl(r.value)
  {
    ContainsChar(hostPort, ':');
    if Contains(hostPort, ":") then
      var (host, portText) := Split1(hostPort, ":").value;
      ContainsChar(host, ':');
      assert '/' !in host by { assert host <= hostPort; }
      match ParseInt(portText)
      case None => Err(BadPort(portText))
      case Some(p) => Ok(Url(scheme, host, p, path))
    else
      Ok(Url(scheme, hostPort, DefaultPort(scheme), path))
  }

  /** Parsing `scheme://rest` for a supported scheme goes straight to the
      part after the scheme. */
  lemma {:induction false} ParseSplitsScheme(scheme: string, rest: string)
    requires scheme == "http" || scheme == "https"
    ensures Parse(scheme + "://" + rest) == ParseAfterScheme(scheme, rest)
  {
    IndexOfAfter(scheme, "://", rest);
    Split1Concat(scheme, "://", rest);
  }

  lemma {:induction false} ParseAfterSchemeSplitsHost(scheme: string, hostPort: string, path: string)
    requires scheme == "http" || scheme == "https"
    requires '/' !in hostPort && StartsWith(path, "/")
    ensures ParseAfterScheme(scheme, hostPort + path) == HostAndPort(scheme, hostPort, path)
  {
    var rest := hostPort + path;
    assert rest == hostPort + "/" + path[1..];
    IndexOfCharAfter(hostPort, '/', path[1..]);
    Split1Concat(hostPort, "/", path[1..]);
    ContainsChar(rest, '/');
    assert "/" + path[1..] == path;
  }

  /** The constructor accepts only the two schemes: any other text before the
      first `://` is rejected. */
  lemma {:induction false} ParseRejectsOtherSchemes(scheme: string, rest: string)
    requires ':' !in scheme && scheme != "http" && scheme != "https"
    ensures Parse(scheme + "://" + rest) == Err(UnsupportedScheme(scheme))
  {
    IndexOfAfter(scheme, "://", rest);
  }

  /** A URL with a colon in its host: the text after the colon is read as
      `int` reads it, and a number becomes the port, cut off the host, while
      anything else is `BadPort`; the path is kept as given. */
  lemma {:induction false} ParsePortText(scheme: string, host: string, text: string, path: string)
    requires scheme == "http" || scheme == "https"
    requires '/' !in host && ':' !in host && '/' !in text && StartsWith(path, "/")
    ensures ParseInt(text).Some? ==>
      Parse(scheme + "://" + host + ":" + text + path) == Ok(Url(scheme, host, ParseInt(text).value, path))
    ensures ParseInt(text).None? ==>
      Parse(scheme + "://" + host + ":" + text + path) == Err(BadPort(text))
  {
    var hostPort := host + ":" + text;
    assert scheme + "://" + host + ":" + text + path == scheme + "://" + (hostPort + path);
    ParseSplitsScheme(scheme, hostPort + path);
    HostPortHasNoSlash(host, text);
    ParseAfterSchemeSplitsHost(scheme, hostPort, path);
    HostAndPortReadsInt(scheme, host, text, path);
  }

  /** `str(port)` after the colon gives back the port, for every integer. */
  lemma ParseExplicitPort(scheme: string, host: string, port: int, path: string)
    requires scheme == "http" || scheme == "https"
    requires '/' !in host && ':' !in host && StartsWith(path, "/")
    ensures Parse(scheme + "://" + host + ":" + IntToString(port) + path)
         == Ok(Url(scheme, host, port, path))
  {
    IntToStringChars(port);
    ParsePortText(scheme, host, IntToString(port), path);
    ParseIntToString(port);
  }

  /** `str` of an integer holds digits and perhaps a minus sign, never a slash
      or a colon. */
  lemma IntToStringChars(n: int)
    ensures '/' !in IntToString(n) && ':' !in IntToString(n)
  {
    var s := IntToString(n);
    forall k | 0 <= k < |s| ensures s[k] != '/' && s[k] != ':' {
      if n < 0 && k > 0 { assert s[k] == NatToString(-n)[k - 1]; }
    }
  }

  lemma HostPortHasNoSlash(host: string, text: string)
    requires '/' !in host && '/' !in text
    ensures '/' !in host + ":" + text
  {
    var hostPort := host + ":" + text;
    forall k | 0 <= k < |hostPort| ensures hostPort[k] != '/' {
      if k > |host| { assert hostPort[k] == text[k - |host| - 1]; }
    }
  }

  /** Whatever follows the first colon is the port text: a number makes it
      the port, anything else is `BadPort`. */
  lemma {:induction false} HostAndPortReadsInt(scheme: string, host: string, text: string, path: string)
    requires scheme == "http" || scheme == "https"
    requires '/' !in host + ":" + text && ':' !in host && StartsWith(path, "/")
    ensures ParseInt(text).Some? ==>
      HostAndPort(scheme, host + ":" + text, path) == Ok(Url(scheme, host, ParseInt(text).value, path))
    ensures ParseInt(text).None? ==> HostAndPort(scheme, host + ":" + text, path) == Err(BadPort(text))
  {
    var hostPort := host + ":" + text;
    assert hostPort == host + [':'] + text;
    IndexOfCharAfter(host, ':', text);
    Split1Concat(host, ":", text);
    ContainsChar(hostPort, ':');
  }

  /** A URL without a port gets the scheme's default: 80 for http, 443 for
      https. */
  lemma {:induction false} ParseDefaultPort(scheme: string, host: string, path: string)
    requires scheme == "http" || scheme == "https"
    requires '/' !in host && ':' !in host && StartsWith(path, "/")
    ensures Parse(scheme + "://" + host + path) == Ok(Url(scheme, host, DefaultPort(scheme), path))
  {
    assert scheme + "://" + host + path == scheme + "://" + (host + path);
    ParseSplitsScheme(scheme, host + path);
    ParseAfterSchemeSplitsHost(scheme, host, path);
    assert HostAndPort(scheme, host, path) == Ok(Url(scheme, host, DefaultPort(scheme), path)) by {
      ContainsChar(host, ':');
    }
  }

  /** A URL naming only a host gets the path `/`. */
  lemma {:induction false} ParseHostOnly(scheme: string, host: string)
    requires scheme == "http" || scheme == "https"
    requires '/' !in host && ':' !in host
    ensures Parse(scheme + "://" + host) == Ok(Url(scheme, host, DefaultPort(scheme), "/"))
  {
    ParseSplitsScheme(scheme, host);
    ContainsChar(host, '/');
    ParseAfterSchemeSplitsHost(scheme, host, "/");
    ContainsChar(host, ':');
  }

  // ---- resolve ----

  /** `dir.rsplit("/", 1)[0]` when `dir` contains a slash, else `dir`. */
  function UpDir(dir: string): (up: string)
    ensures up <= dir
  {
    match LastIndexOf(dir, '/')
    case None => dir
    case Some(k) => dir[..k]
  }

  /** The directory part of a path: everything before its last slash. */
  function DirOf(path: string): (dir: string)
    requires StartsWith(path, "/")
    ensures dir <= path
  {
    assert path[0] == path[..1][0] == '/';
    path[..LastIndexOf(path, '/').value]
  }

  /** The reference that `resolve` builds for a path-relative `url` against
      the directory `dir`: every leading `../` climbs one directory. */
  function JoinRelative(dir: string, url: string): (joined: string)
    ensures (dir == [] || dir[0] == '/') ==> |joined| > 0 && joined[0] == '/'
    decreases |url|
  {
    if StartsWith(url, "../") then JoinRelative(UpDir(dir), url[3..]) else dir + "/" + url
  }

  /** What `resolve` makes of the reference `url` on the page at `base`:
      an absolute URL is parsed afresh; otherwise a path-relative reference
      is first joined to the current directory, and the resulting
      `//host/...` reference takes the current scheme while any other path
      keeps the current scheme, host and port. */
  function Resolved(base: Url, url: string): (r: Result<Url, UrlError>)
    requires ValidUrl(base)
    ensures r.Ok? ==> ValidUrl(r.value)
  {
    if Contains(url, "://") then Parse(url)
    else
      var target := if StartsWith(url, "/") then url else JoinRelative(DirOf(base.path), url);
      if StartsWith(target, "//") then Parse(base.scheme + ":" + target)
      else Ok(Url(base.scheme, base.host, base.port, target))
  }

  /** `Client.resolve`: turn a link found on the page at `base` into an
      absolute URL. */
  method Resolve(base: Url, url0: string) returns (r: Result<Url, UrlError>)
    requires ValidUrl(base)
    ensures r == Resolved(base, url0)
    // an absolute URL is parsed afresh
    ensures Contains(url0, "://") ==> r == Parse(url0)
    // a scheme-relative `//host/...` reference takes the current scheme
    ensures !Contains(url0, "://") && StartsWith(url0, "//") ==> r == Parse(base.scheme + ":" + url0)
    // a root-relative reference keeps scheme, host and port
    ensures !Contains(url0, "://") && StartsWith(url0, "/") && !StartsWith(url0, "//")
      ==> r == Ok(Url(base.scheme, base.host, base.port, url0))
    // a path-relative reference is resolved against the current directory
    ensures !Contains(url0, "://") && !StartsWith(url0, "/") ==>
      var target := JoinRelative(DirOf(base.path), url0);
      && (StartsWith(target, "//") ==> r == Parse(base.scheme + ":" + target))
      && (!StartsWith(target, "//") ==> r == Ok(Url(base.scheme, base.host, base.port, target)))
  {
    if Contains(url0, "://") {
      return Parse(url0);
    }
    var url := url0;
    if StartsWith(url, "//") {
      assert url[..1] == url[..2][..1];
    }
    if !StartsWith(url, "/") {
      url := JoinPath(DirOf(base.path), url);
      assert StartsWith(url, "/") by {
        var dir := DirOf(base.path);
        assert dir == [] || dir[0] == base.path[0] == '/' by {
          assert base.path[..1] == "/";
        }
        assert url[..1] == [url[0]];
      }
    }
    r := ClientFor(base, url);
  }

  /** The last step of `resolve`: a `//host/...` reference takes the current
      scheme, any other path the current scheme, host and port. */
  method ClientFor(base: Url, url: string) returns (r: Result<Url, UrlError>)
    requires ValidUrl(base) && StartsWith(url, "/")
    ensures StartsWith(url, "//") ==> r == Parse(base.scheme + ":" + url)
    ensures !StartsWith(url, "//") ==> r == Ok(Url(base.scheme, base.host, base.port, url))
  {
    if StartsWith(url, "//") {
      r := Parse(base.scheme + ":" + url);
    } else {
      ParseExplicitPort(base.scheme, base.host, base.port, url);
      r := Parse(base.scheme + "://" + base.host + ":" + IntToString(base.port) + url);
    }
  }

  /** The loop of `resolve` that strips each leading `../` from `url` and
      climbs one directory of `dir` for it, then joins the two. */
  method JoinPath(dir0: string, url0: string) returns (joined: string)
    ensures joined == JoinRelative(dir0, url0)
  {
    var dir, url := dir0, url0;
    while StartsWith(url, "../")
      invariant JoinRelative(dir, url) == JoinRelative(dir0, url0)
      decreases |url|
    {
      assert url == url[..2] + ['/'] + url[3..];
      IndexOfCharAfter(url[..2], '/', url[3..]);
      Split1Concat(url[..2], "/", url[3..]);
      url := Split1(url, "/").value.1;
      ContainsChar(dir, '/');
      if Contains(dir, "/") {
        dir := Split1Last(dir);
      }
    }
    joined := dir + "/" + url;
  }

  /** `dir.rsplit("/", 1)[0]` for a `dir` that contains a slash. */
  function Split1Last(dir: string): (up: string)
    requires '/' in dir
    ensures up == UpDir(dir)
  {
    dir[..LastIndexOf(dir, '/').value]
  }

  /** A scheme-relative reference keeps the scheme of the page it is
      resolved against. */
  lemma {:induction false} SchemeRelativeKeepsScheme(scheme: string, url: string)
    requires scheme == "http" || scheme == "https"
    requires StartsWith(url, "//")
    ensures Parse(scheme + ":" + url).Ok? ==> Parse(scheme + ":" + url).value.scheme == scheme
    ensures Parse(scheme + ":" + url).Err? ==> Parse(scheme + ":" + url).error.BadPort?
  {
    var s := scheme + ":" + url;
    assert s == scheme + "://" + url[2..];
    IndexOfAfter(scheme, "://", url[2..]);
  }

  // ---- `../` climbs one directory, stopping at the root ----

  function Slashes(s: string): nat {
    if s == [] then 0 else Slashes(s[..|s| - 1]) + (if s[|s| - 1] == '/' then 1 else 0)
  }

  lemma {:induction false} SlashesZero(s: string)
    ensures Slashes(s) == 0 <==> '/' !in s
  {
    if s != [] {
      SlashesZero(s[..|s| - 1]);
      assert s == s[..|s| - 1] + [s[|s| - 1]];
    }
  }

  lemma {:induction false} SlashesOfLastPrefix(s: string, k: nat)
    requires k < |s| && s[k] == '/' && forall j :: k < j < |s| ==> s[j] != '/'
    ensures Slashes(s) == Slashes(s[..k]) + 1
    decreases |s|
  {
    if k < |s| - 1 {
      SlashesOfLastPrefix(s[..|s| - 1], k);
      assert s[..|s| - 1][..k] == s[..k];
    } else {
      assert s[..|s| - 1] == s[..k];
    }
  }

  /** One `../` removes exactly one directory segment, and at the root
      (no slash left) it changes nothing. */
  lemma {:induction false} UpDirRemovesOneSegment(dir: string)
    ensures Slashes(dir) == 0 ==> UpDir(dir) == dir
    ensures Slashes(dir) > 0 ==> Slashes(UpDir(dir)) == Slashes(dir) - 1
  {
    SlashesZero(dir);
    match LastIndexOf(dir, '/')
    case None =>
    case Some(k) => SlashesOfLastPrefix(dir, k);
  }

  function Ups(n: nat): string {
    if n == 0 then [] else "../" + Ups(n - 1)
  }

  function UpDirN(dir: string, n: nat): string {
    if n == 0 then dir else UpDirN(UpDir(dir), n - 1)
  }

  /** `n` leading `../` climb `n` directories, never past the root: the
      directory kept has `max(slashes - n, 0)` slashes. */
  lemma {:induction false} JoinRelativeClimbs(dir: string, n: nat, rest: string)
    requires !StartsWith(rest, "../")
    ensures JoinRelative(dir, Ups(n) + rest) == UpDirN(dir, n) + "/" + rest
    ensures Slashes(UpDirN(dir, n)) == if Slashes(dir) >= n then Slashes(dir) - n else 0
    decreases n
  {
    if n > 0 {
      var url := Ups(n) + rest;
      assert url == "../" + (Ups(n - 1) + rest);
      assert StartsWith(url, "../");
      assert url[3..] == Ups(n - 1) + rest;
      UpDirRemovesOneSegment(dir);
      JoinRelativeClimbs(UpDir(dir), n - 1, rest);
    }
  }
}
