/** What the locations of a configuration mean for its requests, said with the tokens of the
    configuration and the characters of the uri only. */
module Locations {
  import opened Strings
  import opened ConfigTree
  import opened ConfigHeap
  import opened ProxyUrl
  import opened Routing

  /** A path as it is registered: with no slash at its end unless it is all there is. */
  predicate Plain(k: string) {
    k == "" || k == "/" || k[|k| - 1] != '/'
  }

  /** `k`, with any slashes after it; the empty path is written only as it is. */
  predicate Writes(path: string, k: string) {
    k <= path && (forall i :: |k| <= i < |path| ==> path[i] == '/') && (k == "" ==> path == "")
  }

  /** The row is a location of one of the seven types at `k`. */
  predicate Asks(r: Row, k: string) {
    && |r.tokens| >= 3 && r.tokens[0] == "location" && Writes(r.tokens[1], k)
    && (|| r.tokens[2] == "FileHandler" || r.tokens[2] == "EchoHandler" || r.tokens[2] == "404Handler"
        || r.tokens[2] == "StatusHandler" || r.tokens[2] == "ProxyHandler" || r.tokens[2] == "SleepHandler"
        || r.tokens[2] == "HealthHandler")
  }

  /** Row `i` is the first location at `k`. */
  predicate FirstAsks(rows: seq<Row>, k: string, i: int) {
    0 <= i < |rows| && Asks(rows[i], k) && forall j :: 0 <= j < i ==> !Asks(rows[j], k)
  }

  /** The plain path that is written is what is left without the slashes, and nothing else is. */
  lemma StripIs(path: string, k: string)
    requires Plain(k)
    ensures StripSlashes(path) == k <==> Writes(path, k)
  {
    var r := StripSlashes(path);
    if Writes(path, k) {
      assert r == path[..|r|] && k == path[..|k|];
      assert r != "" ==> path[|r| - 1] == r[|r| - 1];
      assert k != "" ==> path[|k| - 1] == k[|k| - 1];
    }
  }

  lemma NamesIsAsks(r: Row, k: string)
    requires Plain(k)
    ensures Names(r, k) <==> Asks(r, k)
  {
    if IsLocation(r) {
      StripIs(r.tokens[1], k);
    }
  }

  lemma FirstIs(rows: seq<Row>, k: string, i: int)
    requires Plain(k)
    ensures FirstNamed(rows, k, i) <==> FirstAsks(rows, k, i)
  {
    forall j | 0 <= j < |rows| {
      NamesIsAsks(rows[j], k);
    }
  }

  /** The first location at a plain path gets its handler at exactly that path; where no location
      asks there is none, but for the 404 handler at `/`. */
  lemma FirstLocation(rows: seq<Row>, root: NginxConfig, k: string)
    requires RowsOk(rows) && !Register(rows, root).threw && Plain(k)
    ensures var h := Register(rows, root).handlers;
            && (k in h <==> k == "/" || exists i :: FirstAsks(rows, k, i))
            && (k == "/" ==> h[k] == Handler("404Handler", "/", root))
            && forall i :: k != "/" && FirstAsks(rows, k, i) ==> h[k] == Handler(rows[i].tokens[2], k, rows[i].block)
  {
    hide Register, FirstNamed, FirstAsks;
    FirstWins(rows, root, k);
    forall i {
      FirstIs(rows, k, i);
    }
  }

  /** For a map of plain paths, `k` is a prefix of the stripped uri if it is one of the uri. */
  lemma PrefixIs(uri: string, k: string)
    requires Plain(k)
    ensures k <= StripSlashes(uri) <==> k <= uri
  {
    var r := StripSlashes(uri);
    if k <= uri {
      assert k == uri[..|k|] && r == uri[..|r|];
      assert k != "" ==> uri[|k| - 1] == k[|k| - 1];
    }
  }

  /** A path is routed to itself, with any slashes after it, whatever else is in the map. */
  lemma OwnPath<V>(m: map<string, V>, k: string, n: nat)
    requires k in m.Keys && Plain(k) && k != ""
    ensures Route(m, k + Slashes(n)) == Some(m[k])
  {
    StripIs(k + Slashes(n), k);
    assert IsLongest(m.Keys, k, k);
    OnlyOne(m.Keys, k);
  }

  /** Every key of a dispatcher is plain, and other than `/` it is what some location asks for. */
  lemma KeysAreAsked(rows: seq<Row>, root: NginxConfig, k: string)
    requires RowsOk(rows) && !Register(rows, root).threw && k in Register(rows, root).handlers
    ensures Plain(k) && (k == "/" || exists j :: 0 <= j < |rows| && Asks(rows[j], k))
  {
    hide Register, Asks;
    KeysStripped(rows, root, k);
    FirstLocation(rows, root, k);
  }

  /** Routing: a uri goes to the first location at the longest path that is a prefix of it. */
  lemma RoutedToLongest(rows: seq<Row>, root: NginxConfig, uri: string, k: string, i: int)
    requires RowsOk(rows) && !Register(rows, root).threw
    requires Plain(k) && k != "" && k != "/" && k <= uri && FirstAsks(rows, k, i)
    requires forall l, j :: Plain(l) && l <= uri && |l| > |k| && 0 <= j < |rows| ==> !Asks(rows[j], l)
    ensures Route(Register(rows, root).handlers, uri) == Some(Handler(rows[i].tokens[2], k, rows[i].block))
  {
    hide Register, Plain, Asks;
    var m := Register(rows, root).handlers;
    FirstLocation(rows, root, k);
    PrefixIs(uri, k);
    forall l | l in m.Keys && l <= StripSlashes(uri)
      ensures |l| <= |k|
    {
      KeysAreAsked(rows, root, l);
      PrefixIs(uri, l);
    }
    assert IsLongest(m.Keys, StripSlashes(uri), k);
    OnlyOne(m.Keys, StripSlashes(uri));
  }

  /** Otherwise the 404 handler takes a uri that starts with a slash, and nobody any other. */
  lemma RoutedToRoot(rows: seq<Row>, root: NginxConfig, uri: string)
    requires RowsOk(rows) && !Register(rows, root).threw
    requires forall l, j :: Plain(l) && l != "" && l != "/" && l <= uri && 0 <= j < |rows| ==> !Asks(rows[j], l)
    ensures Route(Register(rows, root).handlers, uri) ==
            if uri != "" && uri[0] == '/' then Some(Handler("404Handler", "/", root)) else None
  {
    hide Register, Asks;
    var m := Register(rows, root).handlers;
    FirstLocation(rows, root, "/");
    PrefixIs(uri, "/");
    forall l | l in m.Keys && l <= StripSlashes(uri)
      ensures l == "" || l == "/"
    {
      KeysAreAsked(rows, root, l);
      PrefixIs(uri, l);
    }
    if uri != "" && uri[0] == '/' {
      assert "/" <= uri;
      assert IsLongest(m.Keys, StripSlashes(uri), "/");
    }
    OnlyOne(m.Keys, StripSlashes(uri));
  }

  // ---------------------------------------------------------------- proxies that cannot be set up

  /** A proxy with a `host` that is no http or https url. */
  ghost predicate HasBadProxy(r: Row) {
    && |r.tokens| >= 3 && r.tokens[2] == "ProxyHandler"
    && exists j, url :: 0 <= j < |r.body| && r.body[j].tokens == ["host", url] && HasOther(url) && !IsWebUrl(url)
  }

  /** A dispatcher cannot be constructed exactly when the first location at some path other than `/`
      is a proxy with such a host. */
  lemma BadProxyThrows(rows: seq<Row>, root: NginxConfig)
    requires RowsOk(rows) && BlocksOk(rows, root)
    ensures Register(rows, root).threw
            <==> exists k, i :: Plain(k) && k != "/" && FirstAsks(rows, k, i) && HasBadProxy(rows[i])
  {
    hide Register, FirstNamed, HasBadProxy, HandlerThrows, Plain, Asks;
    ThrowsWhen(rows, root);
    if i :| Thrower(rows, i) {
      ThrowerIs(rows, i);
    }
    if k, i :| Plain(k) && k != "/" && FirstAsks(rows, k, i) && HasBadProxy(rows[i]) {
      if !Register(rows, root).threw {
        NotThrown(rows, root, k, i);
      }
    }
  }

  lemma ThrowerIs(rows: seq<Row>, i: int)
    requires RowsOk(rows) && Thrower(rows, i)
    ensures var k := StripSlashes(rows[i].tokens[1]);
            Plain(k) && k != "/" && FirstAsks(rows, k, i) && HasBadProxy(rows[i])
  {
    hide FirstNamed, FirstAsks, Readable, ReadTarget, HasOther, IsWebUrl;
    FirstIs(rows, StripSlashes(rows[i].tokens[1]), i);
    ThrowsExactly(rows[i].body);
  }

  lemma NoneBefore(rows: seq<Row>, k: string, i: int)
    requires FirstNamed(rows, k, i)
    ensures forall j :: !FirstNamed(rows[..i], k, j)
  {
    assert forall j :: 0 <= j < i ==> rows[..i][j] == rows[j];
  }

  lemma NotThrown(rows: seq<Row>, root: NginxConfig, k: string, i: int)
    requires RowsOk(rows) && BlocksOk(rows, root) && !Register(rows, root).threw
    requires Plain(k) && k != "/" && FirstAsks(rows, k, i)
    ensures !HasBadProxy(rows[i])
  {
    hide Register, Readable, ReadTarget, HasOther, IsWebUrl;
    var before := rows[..i];
    FirstIs(rows, k, i);
    StripIs(rows[i].tokens[1], k);
    if Register(before, root).threw {
      StaysThrown(rows, i, root);
    }
    FirstWins(before, root, k);
    NoneBefore(rows, k, i);
    assert Constructs(Register(before, root), rows[i]);
    if HasBadProxy(rows[i]) {
      ThrowsExactly(rows[i].body);
      assert Thrower(rows, i);
      ThrowsWhen(rows, root);
    }
  }
}
