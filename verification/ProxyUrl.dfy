/** Splitting a url into protocol, host and path, and the proxy handler that is set up with it. */
module ProxyUrl {
  import opened Strings
  import opened ConfigTree
  import opened ConfigHeap

  datatype UrlParts = UrlParts(protocol: string, host: string, path: string)

  const NO_URL := UrlParts("", "", "")
  const SEP := "://"

  /** A url of slashes alone would be stripped past its start. */
  predicate HasOther(url: string) {
    exists i :: 0 <= i < |url| && url[i] != '/'
  }

  function RemoveEndSlash(s: string): (r: string)
    requires HasOther(s)
    ensures r != "" && r[|r| - 1] != '/' && r <= s
    ensures forall i :: |r| <= i < |s| ==> s[i] == '/'
    decreases |s|
  {
    if s[|s| - 1] == '/' then
      var t := s[..|s| - 1];
      assert forall i :: 0 <= i < |s| && s[i] != '/' ==> i < |t| && t[i] != '/';
      RemoveEndSlash(t)
    else s
  }

  function ParseUrl(url: string): UrlParts
    requires HasOther(url)
  {
    var modified := RemoveEndSlash(url);
    match Find(modified, SEP, 0)
    case None => NO_URL
    case Some(hostStart) =>
      var protocol, afterProtocol := modified[..hostStart], hostStart + 3;
      match Find(modified, "/", afterProtocol)
      case None => UrlParts(protocol, modified[afterProtocol..], "/")
      case Some(afterHost) => UrlParts(protocol, modified[afterProtocol..afterHost], modified[afterHost..])
  }

  /** `://` stands at `i`. */
  predicate SepAt(s: string, i: int) {
    0 <= i < |s| - 2 && s[i] == ':' && s[i + 1] == '/' && s[i + 2] == '/'
  }

  /** The url of three parts; the path `/` is the one that is not written. */
  function BuildUrl(u: UrlParts): string {
    u.protocol + SEP + u.host + if u.path == "/" then "" else u.path
  }

  /** What a url that has a protocol is split into. */
  predicate Canonical(u: UrlParts) {
    && (forall i :: 0 <= i < |u.protocol| ==> !SepAt(u.protocol, i))
    && (forall i :: 0 <= i < |u.host| ==> u.host[i] != '/')
    && if u.path == "/" then u.host != ""
       else u.path != "" && u.path[0] == '/' && u.path[|u.path| - 1] != '/'
  }

  lemma FindSep(s: string)
    ensures var r := Find(s, SEP, 0);
            && (r.Some? ==> SepAt(s, r.value))
            && forall i :: 0 <= i < (if r.Some? then r.value else |s|) ==> !SepAt(s, i)
  {
    hide OccursAt, SepAt;
    forall i: int {
      SepOccurs(s, i);
    }
    if Find(s, SEP, 0).Some? {
      assert OccursAt(s, SEP, Find(s, SEP, 0).value);
    }
  }

  lemma SepOccurs(s: string, i: int)
    ensures OccursAt(s, SEP, i) <==> SepAt(s, i)
  {
    if 0 <= i <= |s| - 3 {
      assert s[i..i + 3] == [s[i], s[i + 1], s[i + 2]];
    }
  }

  lemma FindSlash(s: string, from: nat)
    requires from <= |s|
    ensures var r := Find(s, "/", from);
            && (r.Some? ==> from <= r.value < |s| && s[r.value] == '/')
            && forall i :: from <= i < (if r.Some? then r.value else |s|) ==> s[i] != '/'
  {
    forall i | 0 <= i < |s|
      ensures OccursAt(s, "/", i) <==> s[i] == '/'
    {
      assert s[i..i + 1] == [s[i]];
    }
  }

  /** Rebuilding: a url that is split at all is its parts put together again, but for the
      slashes at its end. */
  lemma SplitAndRebuild(url: string)
    requires HasOther(url)
    ensures ParseUrl(url) != NO_URL ==> BuildUrl(ParseUrl(url)) == RemoveEndSlash(url)
    ensures ParseUrl(url) == UrlParts("", "", "") <==> Find(RemoveEndSlash(url), "://", 0) == None
  {
    hide OccursAt, Find, RemoveEndSlash, HasOther;
    var s := RemoveEndSlash(url);
    FindSep(s);
    if Find(s, SEP, 0).Some? {
      var h := Find(s, SEP, 0).value;
      FindSlash(s, h + 3);
      Pieces(s, h, match Find(s, "/", h + 3) case Some(e) => e case None => |s|);
    }
  }

  lemma Pieces(s: string, h: nat, e: nat)
    requires SepAt(s, h) && h + 3 <= e <= |s|
    ensures s[..h] + SEP + s[h + 3..e] + s[e..] == s
    ensures s[h + 3..|s|] == s[h + 3..] && s[|s|..] == ""
  {
    assert s[h..h + 3] == SEP;
  }

  lemma SplitIsCanonical(url: string)
    requires HasOther(url)
    ensures ParseUrl(url) != NO_URL ==> Canonical(ParseUrl(url))
  {
    hide OccursAt, Find, RemoveEndSlash, HasOther;
    var s := RemoveEndSlash(url);
    FindSep(s);
    if Find(s, SEP, 0).Some? {
      var h := Find(s, SEP, 0).value;
      FindSlash(s, h + 3);
      assert forall i :: 0 <= i < h && SepAt(s[..h], i) ==> SepAt(s, i);
    }
  }

  /** `://` does not overlap itself, so the first one is where the protocol ends. */
  lemma FirstSeparator(protocol: string, rest: string)
    requires forall i :: 0 <= i < |protocol| ==> !SepAt(protocol, i)
    ensures Find(protocol + SEP + rest, SEP, 0) == Some(|protocol|)
  {
    hide OccursAt, Find;
    var s, n := protocol + SEP + rest, |protocol|;
    FindSep(s);
    assert s[n] == ':' && s[n + 1] == '/' && s[n + 2] == '/' && SepAt(s, n);
    assert forall i :: 0 <= i < n && SepAt(s, i) ==> SepAt(protocol, i);
  }

  lemma FirstSlash(a: string, host: string, path: string)
    requires forall i :: 0 <= i < |host| ==> host[i] != '/'
    requires path != "" ==> path[0] == '/'
    ensures Find(a + host + path, "/", |a|) == if path == "" then None else Some(|a| + |host|)
  {
    hide OccursAt, Find;
    var s := a + host + path;
    FindSlash(s, |a|);
    assert forall i :: |a| <= i < |a| + |host| ==> s[i] == host[i - |a|];
    assert path != "" ==> s[|a| + |host|] == '/';
  }

  lemma NothingToRemove(s: string)
    requires s != "" && s[|s| - 1] != '/'
    ensures HasOther(s) && RemoveEndSlash(s) == s
  {
  }

  lemma Joined(protocol: string, host: string, path: string)
    ensures var s, n := protocol + SEP + host + path, |protocol| + 3;
            && s == protocol + SEP + (host + path) && s == (protocol + SEP) + host + path
            && s[..|protocol|] == protocol && s[n..n + |host|] == host && s[n + |host|..] == path
            && (path == "" ==> s[n..] == host)
            && (host + path != "" ==> s[|s| - 1] == (host + path)[|host + path| - 1])
  {
  }

  /** Canonical parts are recovered exactly from the url built of them. */
  lemma BuildAndSplit(u: UrlParts)
    requires Canonical(u)
    ensures HasOther(BuildUrl(u)) && ParseUrl(BuildUrl(u)) == u
  {
    hide OccursAt, Find, SepAt, RemoveEndSlash;
    var path := if u.path == "/" then "" else u.path;
    Joined(u.protocol, u.host, path);
    NothingToRemove(BuildUrl(u));
    FirstSeparator(u.protocol, u.host + path);
    FirstSlash(u.protocol + SEP, u.host, path);
  }

  /** The canonical parts are exactly the results of splitting. */
  lemma SplitRange(u: UrlParts)
    ensures Canonical(u) <==> u != NO_URL && exists url :: HasOther(url) && ParseUrl(url) == u
  {
    if Canonical(u) {
      BuildAndSplit(u);
    }
    forall url | HasOther(url) && ParseUrl(url) == u && u != NO_URL
      ensures Canonical(u)
    {
      SplitIsCanonical(url);
    }
  }

  function Slashes(n: nat): (r: string)
    ensures |r| == n && forall i :: 0 <= i < n ==> r[i] == '/'
  {
    seq(n, _ => '/')
  }

  lemma {:induction false} RemoveMoreSlashes(s: string, n: nat)
    requires HasOther(s)
    ensures HasOther(s + Slashes(n)) && RemoveEndSlash(s + Slashes(n)) == RemoveEndSlash(s)
    decreases n
  {
    var i :| 0 <= i < |s| && s[i] != '/';
    assert (s + Slashes(n))[i] == s[i];
    if n == 0 {
      assert s + Slashes(0) == s;
    } else {
      RemoveMoreSlashes(s, n - 1);
      assert (s + Slashes(n))[..|s| + n - 1] == s + Slashes(n - 1);
    }
  }

  /** More slashes at the end of a url change nothing. */
  lemma TrailingSlashes(url: string, n: nat)
    requires HasOther(url)
    ensures HasOther(url + Slashes(n)) && ParseUrl(url + Slashes(n)) == ParseUrl(url)
  {
    RemoveMoreSlashes(url, n);
  }

  /** Which urls name a protocol: it comes first, then `://`, and then more than slashes. */
  lemma ProtocolIs(url: string, protocol: string)
    requires HasOther(url) && protocol in {"http", "https"}
    ensures ParseUrl(url).protocol == protocol
            <==> exists rest :: url == protocol + "://" + rest && exists i :: 0 <= i < |rest| && rest[i] != '/'
  {
    hide OccursAt, Find, RemoveEndSlash, ParseUrl, HasOther;
    var s := RemoveEndSlash(url);
    SplitAndRebuild(url);
    assert protocol != "";
    if ParseUrl(url).protocol == protocol {
      SplitIsCanonical(url);
      Starts(url, s, protocol);
    }
    if rest :| url == protocol + "://" + rest && exists i :: 0 <= i < |rest| && rest[i] != '/' {
      NamesProtocol(url, s, protocol, rest);
    }
  }

  lemma NoSepInProtocol(protocol: string)
    requires protocol in {"http", "https"}
    ensures forall k :: 0 <= k < |protocol| ==> !SepAt(protocol, k)
  {
    forall k | 0 <= k < |protocol|
      ensures !SepAt(protocol, k)
    {
      assert protocol[k] != ':';
    }
  }

  lemma NamesProtocol(url: string, s: string, protocol: string, rest: string)
    requires HasOther(url) && s == RemoveEndSlash(url) && protocol in {"http", "https"}
    requires url == protocol + "://" + rest && exists i :: 0 <= i < |rest| && rest[i] != '/'
    ensures ParseUrl(url).protocol == protocol
  {
    hide OccursAt, Find, RemoveEndSlash, SepAt;
    var n := |protocol| + 3;
    var i :| 0 <= i < |rest| && rest[i] != '/';
    assert url[n + i] == rest[i];
    assert n + i < |s|;
    assert s == url[..|s|] && url[..n] == protocol + SEP;
    assert s == protocol + SEP + s[n..];
    NoSepInProtocol(protocol);
    FirstSeparator(protocol, s[n..]);
    assert s[..|protocol|] == protocol;
  }

  lemma Starts(url: string, s: string, protocol: string)
    requires HasOther(url) && s == RemoveEndSlash(url)
    requires ParseUrl(url) != NO_URL && Canonical(ParseUrl(url)) && BuildUrl(ParseUrl(url)) == s
    requires ParseUrl(url).protocol == protocol
    ensures exists rest :: url == protocol + "://" + rest && exists i :: 0 <= i < |rest| && rest[i] != '/'
  {
    hide OccursAt, Find, RemoveEndSlash, ParseUrl;
    var n, last := |protocol| + 3, |s| - 1;
    assert s[..n] == protocol + "://";
    assert last >= n;
    var rest := url[n..];
    assert url[..n] == s[..n];
    assert url == protocol + "://" + rest;
    assert rest[last - n] == s[last] != '/';
  }

  /** Urls as they are written in a configuration: a protocol, a host and a path, and any number of
      slashes after them. Without a path it is `/`. */
  lemma PlainUrl(protocol: string, host: string, path: string, n: nat)
    requires protocol in {"http", "https"} && host != ""
    requires forall i :: 0 <= i < |host| ==> host[i] != '/'
    requires path != "" ==> path[0] == '/' && path[|path| - 1] != '/'
    ensures var url := protocol + "://" + host + path + Slashes(n);
            HasOther(url) && ParseUrl(url) == UrlParts(protocol, host, if path == "" then "/" else path)
  {
    hide OccursAt, Find, RemoveEndSlash, HasOther, ParseUrl;
    var u := UrlParts(protocol, host, if path == "" then "/" else path);
    NoSepInProtocol(protocol);
    assert BuildUrl(u) == protocol + "://" + host + path;
    BuildAndSplit(u);
    TrailingSlashes(BuildUrl(u), n);
  }

  // ---------------------------------------------------------------- the proxy handler

  datatype ProxyTarget = ProxyTarget(host: string, path: string, port: string)

  /** What the constructor needs of the statements it comes to: tokens, and no url of slashes alone. */
  predicate Readable(body: seq<Stmt>)
    decreases |body|, 0
  {
    body != [] ==>
      var n := |body| - 1;
      && Readable(body[..n])
      && (ReadTarget(body[..n]).Some? ==> body[n].tokens != [] && (Sets(body[n], "host") ==> HasOther(body[n].tokens[1])))
  }

  predicate Supported(u: UrlParts) {
    u.protocol == "http" || u.protocol == "https"
  }

  predicate BadHost(s: Stmt) {
    Sets(s, "host") && HasOther(s.tokens[1]) && !Supported(ParseUrl(s.tokens[1]))
  }

  /** The target after the statements, or none when one of them makes the constructor throw. */
  function ReadTarget(body: seq<Stmt>): Option<ProxyTarget>
    requires Readable(body)
    decreases |body|, 1
  {
    if body == [] then Some(ProxyTarget("", "", ""))
    else
      var s := body[|body| - 1];
      match ReadTarget(body[..|body| - 1])
      case None => None
      case Some(t) =>
        if Sets(s, "host") then
          var u := ParseUrl(s.tokens[1]);
          if Supported(u) then Some(t.(host := u.host, path := u.path)) else None
        else if Sets(s, "port") then Some(t.(port := s.tokens[1]))
        else Some(t)
  }

  class ProxyHandler {
    const prefix: string
    var host: string
    var path: string
    var port: string

    constructor (prefix: string)
      ensures this.prefix == prefix && host == path == port == ""
    {
      this.prefix := prefix;
      host, path, port := "", "", "";
    }

    /** The constructor's loop over the block; not `ok` where it throws. */
    method ReadConfig(config: NginxConfig, ghost body: seq<Stmt>, ghost repr: set<object>) returns (ok: bool)
      requires StmtsAre(config.statements, body, repr) && Readable(body) && this !in repr
      requires host == path == port == "" && (this as object) != config
      modifies this
      ensures ok <==> ReadTarget(body).Some?
      ensures ok ==> ReadTarget(body).value == ProxyTarget(host, path, port)
    {
      for i := 0 to |config.statements|
        invariant Readable(body[..i])
        invariant ReadTarget(body[..i]) == Some(ProxyTarget(host, path, port))
      {
        var statement := config.statements[i];
        assert StmtIs(statement, body[i], repr);
        ReadablePrefix(body, i + 1);
        assert body[..i + 1][..i] == body[..i];
        if statement.tokens[0] == "host" && |statement.tokens| == 2 {
          var url := ParseUrl(statement.tokens[1]);
          if url.protocol != "http" && url.protocol != "https" {
            ThrowsEarly(body, i + 1);
            return false;
          } else {
            host, path := url.host, url.path;
          }
        } else if statement.tokens[0] == "port" && |statement.tokens| == 2 {
          port := statement.tokens[1];
        }
      }
      assert body[..|body|] == body;
      return true;
    }
  }

  lemma {:induction false} ReadablePrefix(body: seq<Stmt>, n: nat)
    requires Readable(body) && n <= |body|
    ensures Readable(body[..n])
    decreases |body|
  {
    if n == |body| {
      assert body[..n] == body;
    } else {
      assert body[..|body| - 1][..n] == body[..n];
      ReadablePrefix(body[..|body| - 1], n);
    }
  }

  lemma {:induction false} ThrowsEarly(body: seq<Stmt>, n: nat)
    requires Readable(body) && n <= |body| && Readable(body[..n]) && ReadTarget(body[..n]) == None
    ensures ReadTarget(body) == None
    decreases |body|
  {
    if n == |body| {
      assert body[..n] == body;
    } else {
      assert body[..|body| - 1][..n] == body[..n];
      ThrowsEarly(body[..|body| - 1], n);
    }
  }

  lemma {:induction false} BadHostThrows(body: seq<Stmt>)
    requires Readable(body)
    ensures ReadTarget(body) == None <==> exists i :: 0 <= i < |body| && BadHost(body[i])
    decreases |body|
  {
    if body != [] {
      var n := |body| - 1;
      BadHostThrows(body[..n]);
      assert forall i :: 0 <= i < n ==> body[..n][i] == body[i];
      assert BadHost(body[n]) ==> exists i :: 0 <= i < |body| && BadHost(body[i]);
      if i :| 0 <= i < n && BadHost(body[..n][i]) {
        assert BadHost(body[i]);
      }
    }
  }

  /** The url starts with http or https, `://`, and has more than slashes after it. */
  ghost predicate IsWebUrl(url: string) {
    exists rest :: (url == "http://" + rest || url == "https://" + rest) && exists i :: 0 <= i < |rest| && rest[i] != '/'
  }

  lemma SupportedIs(url: string)
    requires HasOther(url)
    ensures Supported(ParseUrl(url)) <==> IsWebUrl(url)
  {
    hide ParseUrl;
    ProtocolIs(url, "http");
    ProtocolIs(url, "https");
    assert "http" + "://" == "http://" && "https" + "://" == "https://";
  }

  /** The constructor throws exactly when some `host` with one argument, which is not all slashes,
      is no url of either protocol. */
  lemma ThrowsExactly(body: seq<Stmt>)
    requires Readable(body)
    ensures ReadTarget(body) == None
            <==> exists i, url :: 0 <= i < |body| && body[i].tokens == ["host", url] && HasOther(url) && !IsWebUrl(url)
  {
    hide Readable, ReadTarget, HasOther, ParseUrl, Supported, IsWebUrl;
    BadHostThrows(body);
    forall i | 0 <= i < |body|
      ensures BadHost(body[i]) <==> exists url :: body[i].tokens == ["host", url] && HasOther(url) && !IsWebUrl(url)
    {
      BadHostIs(body[i]);
    }
  }

  lemma BadHostIs(s: Stmt)
    ensures BadHost(s) <==> exists url :: s.tokens == ["host", url] && HasOther(url) && !IsWebUrl(url)
  {
    hide HasOther, ParseUrl, Supported, IsWebUrl;
    if Sets(s, "host") {
      assert s.tokens == ["host", s.tokens[1]];
      if HasOther(s.tokens[1]) {
        SupportedIs(s.tokens[1]);
      }
    }
    if url :| s.tokens == ["host", url] && HasOther(url) && !IsWebUrl(url) {
      SupportedIs(url);
    }
  }

  /** The last `host` gives host and path, the last `port` the port; without one they are empty. */
  lemma {:induction false} LastOneCounts(body: seq<Stmt>, i: nat, arg: string)
    requires Readable(body) && ReadTarget(body).Some? && i < |body|
    ensures body[i].tokens == ["host", arg] && (forall j :: i < j < |body| ==> !Sets(body[j], "host")) ==>
              && HasOther(arg)
              && ReadTarget(body).value.host == ParseUrl(arg).host && ReadTarget(body).value.path == ParseUrl(arg).path
    ensures body[i].tokens == ["port", arg] && (forall j :: i < j < |body| ==> !Sets(body[j], "port")) ==>
              ReadTarget(body).value.port == arg
    decreases |body|
  {
    hide ParseUrl, HasOther, Supported;
    var n := |body| - 1;
    if i < n {
      LastOneCounts(body[..n], i, arg);
      assert body[..n][i] == body[i];
      assert forall j :: i < j < n ==> body[..n][j] == body[j];
    }
  }

  lemma {:induction false} NotSet(body: seq<Stmt>)
    requires Readable(body) && ReadTarget(body).Some?
    ensures (forall j :: 0 <= j < |body| ==> !Sets(body[j], "host")) ==>
              ReadTarget(body).value.host == ReadTarget(body).value.path == ""
    ensures (forall j :: 0 <= j < |body| ==> !Sets(body[j], "port")) ==> ReadTarget(body).value.port == ""
    decreases |body|
  {
    hide ParseUrl, HasOther, Supported;
    if body != [] {
      var n := |body| - 1;
      NotSet(body[..n]);
      assert forall j :: 0 <= j < n ==> body[..n][j] == body[j];
    }
  }
}
