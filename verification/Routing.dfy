/** Registration of the handlers a configuration asks for, and the two longest-prefix lookups:
    one over a dispatcher's own handlers, one over the handler names all dispatchers share. */
module Routing {
  import opened Strings
  import opened ConfigTree
  import opened ConfigHeap
  import opened FileRoot
  import opened ProxyUrl

  /** What a handler was made of: its type, its path, and the block that configures it. */
  datatype Handler = Handler(kind: string, path: string, block: NginxConfig)

  const KINDS := {"FileHandler", "EchoHandler", "404Handler", "StatusHandler", "ProxyHandler", "SleepHandler",
                  "HealthHandler"}

  /** The path without the slashes at its end, but never empty for their sake. */
  function StripSlashes(path: string): (r: string)
    ensures r <= path && (|r| > 1 ==> r[|r| - 1] != '/') && (path != "" ==> r != "")
    ensures forall i :: |r| <= i < |path| ==> path[i] == '/'
  {
    if |path| > 1 && path[|path| - 1] == '/' then StripSlashes(path[..|path| - 1]) else path
  }

  /** The loop that pops slashes; it occurs in both lookups and in the registration. */
  method PopSlashes(path: string) returns (r: string)
    ensures r == StripSlashes(path)
  {
    r := path;
    while |r| > 1 && r[|r| - 1] == '/'
      invariant StripSlashes(r) == StripSlashes(path)
      decreases |r|
    {
      r := r[..|r| - 1];
    }
  }

  /** The static member `handler_info` of all dispatchers. */
  class HandlerInfo {
    var info: map<string, string>

    constructor ()
      ensures info == map[]
    {
      info := map[];
    }
  }

  // ---------------------------------------------------------------- registration

  /** A top-level statement as the registration sees it. */
  datatype Row = Row(tokens: seq<string>, block: NginxConfig?, body: seq<Stmt>)

  predicate IsLocation(r: Row) {
    |r.tokens| >= 3 && r.tokens[0] == "location"
  }

  /** What the registration relies on: statements have tokens and locations have a block. */
  predicate RowOk(r: Row) {
    r.tokens != [] && (IsLocation(r) ==> r.block != null)
  }

  predicate RowsOk(rows: seq<Row>) {
    forall i :: 0 <= i < |rows| ==> RowOk(rows[i])
  }

  /** The row asks for a handler at `path` (slashes stripped) of a type there is. */
  predicate Names(r: Row, path: string) {
    IsLocation(r) && StripSlashes(r.tokens[1]) == path && r.tokens[2] in KINDS
  }

  predicate HandlerThrows(r: Row)
    requires RowOk(r) && IsLocation(r)
  {
    r.tokens[2] == "ProxyHandler" && Readable(r.body) && ReadTarget(r.body) == None
  }

  datatype Registration = Registration(handlers: map<string, Handler>, threw: bool)

  function AddRow(g: Registration, r: Row): Registration
    requires RowOk(r)
  {
    if g.threw || !IsLocation(r) then g
    else
      var path, kind := StripSlashes(r.tokens[1]), r.tokens[2];
      if path in g.handlers || kind !in KINDS then g
      else if HandlerThrows(r) then g.(threw := true)
      else g.(handlers := g.handlers[path := Handler(kind, path, r.block)])
  }

  function Register(rows: seq<Row>, root: NginxConfig): Registration
    requires RowsOk(rows)
  {
    if rows == [] then Registration(map["/" := Handler("404Handler", "/", root)], false)
    else AddRow(Register(rows[..|rows| - 1], root), rows[|rows| - 1])
  }

  /** What the constructor of the row's type needs of the block: the file handler's and the proxy's
      read it, the others do not. */
  predicate BlockOk(r: Row)
    requires IsLocation(r)
  {
    && (r.tokens[2] == "FileHandler" ==> HasTokens(r.body))
    && (r.tokens[2] == "ProxyHandler" ==> Readable(r.body))
  }

  /** After the registrations of `g`, the row makes a constructor run. */
  predicate Constructs(g: Registration, r: Row)
    requires RowOk(r)
  {
    !g.threw && IsLocation(r) && StripSlashes(r.tokens[1]) !in g.handlers
  }

  /** The blocks that constructors read, and no others, must be readable. */
  predicate BlocksOk(rows: seq<Row>, root: NginxConfig)
    requires RowsOk(rows)
  {
    forall i :: 0 <= i < |rows| && Constructs(Register(rows[..i], root), rows[i]) ==> BlockOk(rows[i])
  }

  function KindsOf(handlers: map<string, Handler>): map<string, string> {
    map k | k in handlers :: handlers[k].kind
  }

  ghost function Rows(config: NginxConfig): (rows: seq<Row>)
    requires config.Valid()
    reads config, config.Repr
    ensures |rows| == |config.statements|
  {
    RowsOf(config.statements, config.Tree, config.Repr - {config})
  }

  ghost function RowsOf(ss: seq<NginxConfigStatement>, tree: seq<Stmt>, repr: set<object>): (rows: seq<Row>)
    requires StmtsAre(ss, tree, repr)
    reads repr
    ensures |rows| == |ss| && RowsShow(ss, rows, repr)
    decreases |ss|
  {
    if ss == [] then []
    else
      var n := |ss| - 1;
      assert StmtIs(ss[n], tree[n], repr);
      RowsOf(ss[..n], tree[..n], repr) +
      [Row(tree[n].tokens, ss[n].child, if tree[n].Block? then tree[n].body else [])]
  }

  lemma OneMoreKind(before: map<string, string>, handlers: map<string, Handler>, path: string, h: Handler)
    ensures (before + KindsOf(handlers))[path := h.kind] == before + KindsOf(handlers[path := h])
  {
  }

  /** The rows show what the statements hold. */
  ghost predicate RowsShow(statements: seq<NginxConfigStatement>, rows: seq<Row>, repr: set<object>)
    reads repr
  {
    |statements| == |rows| && forall i :: 0 <= i < |rows| ==> RowShows(statements[i], rows[i], repr)
  }

  ghost predicate RowShows(stmt: NginxConfigStatement, row: Row, repr: set<object>)
    reads repr
  {
    && stmt in repr && stmt.tokens == row.tokens && stmt.child == row.block
    && (row.block != null ==> row.block in repr && StmtsAre(row.block.statements, row.body, repr))
  }

  lemma RegisterNext(rows: seq<Row>, i: nat, root: NginxConfig)
    requires RowsOk(rows) && i < |rows|
    ensures Register(rows[..i + 1], root) == AddRow(Register(rows[..i], root), rows[i])
    ensures !IsLocation(rows[i]) ==> Register(rows[..i + 1], root) == Register(rows[..i], root)
  {
    assert rows[..i + 1][..i] == rows[..i];
  }

  class Dispatcher {
    var handlers: map<string, Handler>
    var regnum: nat

    constructor ()
      ensures handlers == map[] && regnum == 0
    {
      handlers := map[];
      regnum := 0;
    }

    /** The constructor's body; not `ok` when a handler's constructor throws. */
    method Construct(config: NginxConfig, info: HandlerInfo) returns (ok: bool)
      requires config.Valid() && RowsOk(Rows(config)) && BlocksOk(Rows(config), config) && handlers == map[]
      requires this !in config.Repr && info !in config.Repr
      modifies this, info
      ensures var g := Register(old(Rows(config)), config); ok == !g.threw && handlers == g.handlers
      ensures ok ==> regnum == |handlers|
      ensures info.info == old(info.info) + KindsOf(handlers)
    {
      var regNum;
      regNum, ok := InitHandlers(config, info);
      if ok {
        regnum := regNum;
      }
    }

    /** The 404 handler for everything. */
    method AddRoot(config: NginxConfig, info: HandlerInfo)
      requires handlers == map[]
      modifies this`handlers, info
      ensures Register([], config) == Registration(handlers, false) && |handlers| == 1
      ensures info.info == old(info.info) + KindsOf(handlers)
    {
      var path := "/";
      handlers := handlers[path := Handler("404Handler", path, config)];
      info.info := info.info[path := "404Handler"];
    }

    /** Registers the handlers the configuration asks for, and counts them. */
    method InitHandlers(config: NginxConfig, info: HandlerInfo) returns (regNum: nat, ok: bool)
      requires config.Valid() && RowsOk(Rows(config)) && BlocksOk(Rows(config), config) && handlers == map[]
      requires this !in config.Repr && info !in config.Repr
      modifies this`handlers, info
      ensures var g := Register(old(Rows(config)), config); ok == !g.threw && handlers == g.handlers
      ensures regNum == |handlers|
      ensures info.info == old(info.info) + KindsOf(handlers)
    {
      hide ReadTarget, Readable, Register, AddRow, StmtIs, StmtsAre, RowsOf, KindsOf;
      ghost var rows, before := Rows(config), info.info;
      ghost var repr: set<object> := config.Repr - {config};
      AddRoot(config, info);
      regNum := 1;
      var statements := config.statements;
      for i := 0 to |statements|
        invariant RowsShow(statements, rows, repr)
        invariant Register(rows[..i], config) == Registration(handlers, false)
        invariant regNum == |handlers| && info.info == before + KindsOf(handlers)
      {
        var stmt := statements[i];
        assert RowShows(stmt, rows[i], repr);
        RegisterNext(rows, i, config);
        if |stmt.tokens| < 3 && stmt.tokens[0] != "listen" {
          continue;
        }
        if stmt.tokens[0] != "location" {
          continue;
        }
        var added;
        added, ok := AddHandler(stmt.child, stmt.tokens[1], stmt.tokens[2], info, rows[i], repr,
                                Registration(handlers, false), before);
        if !ok {
          StaysThrown(rows, i + 1, config);
          return regNum, false;
        }
        if added {
          regNum := regNum + 1;
        }
      }
      assert rows[..|statements|] == rows;
      ok := true;
    }

    /** Adds one handler under the stripped path unless there is one already. */
    method AddHandler(block: NginxConfig, givenPath: string, handlerType: string, info: HandlerInfo,
                      ghost r: Row, ghost repr: set<object>, ghost g: Registration,
                      ghost before: map<string, string>)
      returns (added: bool, ok: bool)
      requires RowOk(r) && IsLocation(r) && r.tokens[1] == givenPath && r.tokens[2] == handlerType && r.block == block
      requires StmtsAre(block.statements, r.body, repr)
      requires g == Registration(handlers, false) && info.info == before + KindsOf(handlers)
      requires Constructs(g, r) ==> BlockOk(r)
      modifies this`handlers, info
      ensures AddRow(g, r) == Registration(handlers, !ok)
      ensures added <==> handlers != old(handlers)
      ensures !ok ==> !added
      ensures |handlers| == |old(handlers)| + if added then 1 else 0
      ensures info.info == before + KindsOf(handlers)
      ensures added <==>
                && StripSlashes(givenPath) !in old(handlers)
                && (|| handlerType == "FileHandler" || handlerType == "EchoHandler" || handlerType == "404Handler"
                    || handlerType == "StatusHandler" || handlerType == "SleepHandler" || handlerType == "HealthHandler"
                    || (handlerType == "ProxyHandler" && ok))
      ensures added ==>
                handlers == old(handlers)[StripSlashes(givenPath) := Handler(handlerType, StripSlashes(givenPath), block)]
    {
      hide ReadTarget, Readable, KindsOf;
      var path := PopSlashes(givenPath);
      if path in handlers {
        return false, true;
      }
      ok := true;
      if handlerType == "FileHandler" {
        var file := new FileHandler(path);
        file.ReadConfig(block, r.body, repr);
        Put("FileHandler", path, block, info, before);
      } else if handlerType == "EchoHandler" {
        Put("EchoHandler", path, block, info, before);
      } else if handlerType == "404Handler" {
        Put("404Handler", path, block, info, before);
      } else if handlerType == "StatusHandler" {
        Put("StatusHandler", path, block, info, before);
      } else if handlerType == "ProxyHandler" {
        var proxy := new ProxyHandler(path);
        ok := proxy.ReadConfig(block, r.body, repr);
        if !ok {
          return false, false;
        }
        Put("ProxyHandler", path, block, info, before);
      } else if handlerType == "SleepHandler" {
        Put("SleepHandler", path, block, info, before);
      } else if handlerType == "HealthHandler" {
        Put("HealthHandler", path, block, info, before);
      } else {
        return false, true;
      }
      added := true;
    }

    /** The two assignments of each branch. */
    method Put(kind: string, path: string, block: NginxConfig, info: HandlerInfo, ghost before: map<string, string>)
      requires info.info == before + KindsOf(handlers)
      modifies this`handlers, info
      ensures handlers == old(handlers)[path := Handler(kind, path, block)]
      ensures info.info == before + KindsOf(handlers)
    {
      OneMoreKind(before, handlers, path, Handler(kind, path, block));
      handlers := handlers[path := Handler(kind, path, block)];
      info.info := info.info[path := kind];
    }

    /** The dispatcher's lookup. */
    method GetRequestHandler(uri: string) returns (handler: Option<Handler>)
      ensures handler == Route(handlers, uri)
    {
      var path := PopSlashes(uri);
      handler := None;
      var prefix := "";
      var left := handlers.Keys;
      while left != {}
        invariant BestSoFar(handlers, left, path, prefix, handler)
        decreases |left|
      {
        var k :| k in left;
        OneMoreKey(handlers, left, path, prefix, handler, k);
        if StartsWith(path, k) {
          if |k| > |prefix| {
            prefix := k;
            handler := Some(handlers[k]);
          }
        }
        left := left - {k};
      }
      BestIsRoute(handlers, uri, prefix, handler);
    }
  }

  lemma {:induction false} StaysThrown(rows: seq<Row>, n: nat, root: NginxConfig)
    requires RowsOk(rows) && n <= |rows| && Register(rows[..n], root).threw
    ensures Register(rows, root) == Register(rows[..n], root)
    decreases |rows|
  {
    if n == |rows| {
      assert rows[..n] == rows;
    } else {
      assert rows[..|rows| - 1][..n] == rows[..n];
      StaysThrown(rows[..|rows| - 1], n, root);
    }
  }

  // ---------------------------------------------------------------- what is registered

  /** Row `i` is the first that asks for a handler of a known type at `path`. */
  predicate FirstNamed(rows: seq<Row>, path: string, i: int) {
    0 <= i < |rows| && Names(rows[i], path) && forall j :: 0 <= j < i ==> !Names(rows[j], path)
  }

  lemma {:induction false} SomeFirst(rows: seq<Row>, path: string, n: nat)
    requires n < |rows| && Names(rows[n], path)
    ensures exists i :: i <= n && FirstNamed(rows, path, i)
    decreases n
  {
    if j :| 0 <= j < n && Names(rows[j], path) {
      SomeFirst(rows, path, j);
    } else {
      assert FirstNamed(rows, path, n);
    }
  }

  lemma FirstOfPrefix(rows: seq<Row>, path: string, i: int)
    requires rows != []
    ensures var n := |rows| - 1;
            FirstNamed(rows, path, i) <==>
            if i == n then Names(rows[n], path) && !(exists j :: FirstNamed(rows[..n], path, j))
            else FirstNamed(rows[..n], path, i)
  {
    var n := |rows| - 1;
    if i == n && Names(rows[n], path) {
      forall j | 0 <= j < n && Names(rows[j], path)
        ensures exists k :: FirstNamed(rows[..n], path, k)
      {
        SomeFirst(rows[..n], path, j);
      }
    }
  }

  /** First wins: besides the 404 handler at `/`, which stays, there is a handler at exactly the
      paths some row asks for, and it is the one the first such row asks for. */
  lemma {:induction false} FirstWins(rows: seq<Row>, root: NginxConfig, k: string)
    requires RowsOk(rows) && !Register(rows, root).threw
    ensures var h := Register(rows, root).handlers;
            && (k in h <==> k == "/" || exists i :: FirstNamed(rows, k, i))
            && (k == "/" ==> h[k] == Handler("404Handler", "/", root))
            && forall i :: k != "/" && FirstNamed(rows, k, i) ==> h[k] == Handler(rows[i].tokens[2], k, rows[i].block)
    decreases |rows|
  {
    if rows != [] {
      var n := |rows| - 1;
      FirstWins(rows[..n], root, k);
      forall i {
        FirstOfPrefix(rows, k, i);
      }
      if Names(rows[n], k) && !(exists j :: FirstNamed(rows[..n], k, j)) {
        assert FirstNamed(rows, k, n);
      }
      if j :| FirstNamed(rows[..n], k, j) {
        assert FirstNamed(rows, k, j);
      }
    }
  }

  lemma {:induction false} StripTwice(path: string)
    ensures StripSlashes(StripSlashes(path)) == StripSlashes(path)
    decreases |path|
  {
    if |path| > 1 && path[|path| - 1] == '/' {
      StripTwice(path[..|path| - 1]);
    }
  }

  /** Every registered path is without slashes at its end. */
  lemma KeysStripped(rows: seq<Row>, root: NginxConfig, k: string)
    requires RowsOk(rows) && !Register(rows, root).threw && k in Register(rows, root).handlers
    ensures StripSlashes(k) == k
  {
    FirstWins(rows, root, k);
    if k != "/" {
      var i :| FirstNamed(rows, k, i);
      StripTwice(rows[i].tokens[1]);
    }
  }

  /** Row `i` is the first for its path, and its handler's constructor throws. */
  predicate Thrower(rows: seq<Row>, i: int)
    requires RowsOk(rows)
  {
    && 0 <= i < |rows| && IsLocation(rows[i]) && StripSlashes(rows[i].tokens[1]) != "/"
    && FirstNamed(rows, StripSlashes(rows[i].tokens[1]), i) && HandlerThrows(rows[i])
  }

  /** The constructor of the dispatcher throws exactly when a row that is the first for its
      path asks for a proxy that cannot be set up. */
  lemma {:induction false} ThrowsWhen(rows: seq<Row>, root: NginxConfig)
    requires RowsOk(rows)
    ensures Register(rows, root).threw <==> exists i :: Thrower(rows, i)
    decreases |rows|
  {
    hide ReadTarget, Readable;
    if rows != [] {
      var n := |rows| - 1;
      ThrowsWhen(rows[..n], root);
      forall i | 0 <= i < n
        ensures Thrower(rows, i) <==> Thrower(rows[..n], i)
      {
        if IsLocation(rows[i]) {
          FirstOfPrefix(rows, StripSlashes(rows[i].tokens[1]), i);
        }
      }
      if !Register(rows[..n], root).threw && IsLocation(rows[n]) {
        var path := StripSlashes(rows[n].tokens[1]);
        FirstOfPrefix(rows, path, n);
        FirstWins(rows[..n], root, path);
        assert Register(rows, root).threw <==> Thrower(rows, n);
      }
      assert Register(rows[..n], root).threw ==> Register(rows, root).threw;
    }
  }

  // ---------------------------------------------------------------- lookup

  /** `k` is the longest non-empty key that is a prefix of `path`. */
  predicate IsLongest(keys: set<string>, path: string, k: string) {
    k in keys && k != "" && k <= path && forall k' :: k' in keys && k' <= path ==> |k'| <= |k|
  }

  lemma LongestIsUnique(keys: set<string>, path: string, k: string, l: string)
    requires IsLongest(keys, path, k) && IsLongest(keys, path, l)
    ensures k == l
  {
    assert k == path[..|k|] && l == path[..|l|];
  }

  lemma OnlyOne(keys: set<string>, path: string)
    ensures forall k, l :: IsLongest(keys, path, k) && IsLongest(keys, path, l) ==> k == l
  {
    forall k, l | IsLongest(keys, path, k) && IsLongest(keys, path, l)
      ensures k == l
    {
      LongestIsUnique(keys, path, k, l);
    }
  }

  /** The entry of the longest prefix of the stripped uri. */
  ghost function Route<V>(m: map<string, V>, uri: string): Option<V> {
    if k :| IsLongest(m.Keys, StripSlashes(uri), k) then Some(m[k]) else None
  }

  /** How far the loop over a map, in whatever order, has come: `prefix` is the longest prefix
      among the keys that are not left. */
  ghost predicate BestSoFar<V>(m: map<string, V>, left: set<string>, path: string, prefix: string, best: Option<V>) {
    && left <= m.Keys
    && if prefix == "" then best == None && forall k :: k in m.Keys - left && k <= path ==> k == ""
       else IsLongest(m.Keys - left, path, prefix) && best == Some(m[prefix])
  }

  lemma BestIsRoute<V>(m: map<string, V>, uri: string, prefix: string, best: Option<V>)
    requires BestSoFar(m, {}, StripSlashes(uri), prefix, best)
    ensures best == Route(m, uri)
  {
    assert m.Keys - {} == m.Keys;
    OnlyOne(m.Keys, StripSlashes(uri));
  }

  /** One turn of the loop: a key that is a prefix and longer than the best so far replaces it. */
  lemma OneMoreKey<V>(m: map<string, V>, left: set<string>, path: string, prefix: string, best: Option<V>, k: string)
    requires BestSoFar(m, left, path, prefix, best) && k in left
    ensures if k <= path && |k| > |prefix| then BestSoFar(m, left - {k}, path, k, Some(m[k]))
            else BestSoFar(m, left - {k}, path, prefix, best)
  {
    assert m.Keys - (left - {k}) == (m.Keys - left) + {k};
  }

  /** `path.substr(0, k.length()) == k`. */
  predicate StartsWith(path: string, k: string)
    ensures StartsWith(path, k) <==> k <= path
  {
    path[..if |k| <= |path| then |k| else |path|] == k
  }

  // ---------------------------------------------------------------- routing

  lemma {:induction false} SomeLongest(keys: set<string>, path: string, k: string)
    requires k in keys && k != "" && k <= path
    ensures exists l :: IsLongest(keys, path, l)
    decreases |path| - |k|
  {
    if l :| l in keys && l <= path && |l| > |k| {
      SomeLongest(keys, path, l);
    } else {
      assert IsLongest(keys, path, k);
    }
  }

  /** A row that asks for a handler at a non-empty prefix of the path. */
  predicate Serves(r: Row, path: string) {
    IsLocation(r) && r.tokens[2] in KINDS && StripSlashes(r.tokens[1]) != "" && StripSlashes(r.tokens[1]) <= path
  }

  /** Which uris have a handler: those that start with a slash, which the 404 handler takes at
      least, and those that a location without one at its start serves. */
  lemma HandlerExists(rows: seq<Row>, root: NginxConfig, uri: string)
    requires RowsOk(rows) && !Register(rows, root).threw
    ensures Route(Register(rows, root).handlers, uri).Some?
            <==> (uri != "" && uri[0] == '/') || exists i :: 0 <= i < |rows| && Serves(rows[i], StripSlashes(uri))
  {
    hide Register;
    var m, path := Register(rows, root).handlers, StripSlashes(uri);
    if uri != "" && uri[0] == '/' {
      FirstWins(rows, root, "/");
      StripKeepsFirst(uri);
      SomeLongest(m.Keys, path, "/");
    } else if i :| 0 <= i < |rows| && Serves(rows[i], path) {
      var k := StripSlashes(rows[i].tokens[1]);
      SomeFirst(rows, k, i);
      FirstWins(rows, root, k);
      SomeLongest(m.Keys, path, k);
    }
    if Route(m, uri).Some? {
      var k :| IsLongest(m.Keys, path, k);
      FirstWins(rows, root, k);
      if k == "/" {
        assert uri[0] == path[0] == k[0];
      } else {
        var i :| FirstNamed(rows, k, i);
        assert Serves(rows[i], path);
      }
    }
  }

  /** So there are requests without a handler: the target `*`, unless some location takes it. The
      source follows a null pointer then. */
  lemma NobodyServesStar(root: NginxConfig)
    ensures Route(Register([], root).handlers, "*") == None
  {
    HandlerExists([], root, "*");
  }

  lemma {:induction false} StripKeepsFirst(path: string)
    requires path != ""
    ensures StripSlashes(path) != "" && StripSlashes(path)[0] == path[0]
    decreases |path|
  {
    if |path| > 1 && path[|path| - 1] == '/' {
      StripKeepsFirst(path[..|path| - 1]);
    }
  }

  lemma {:induction false} StripMore(path: string, n: nat)
    requires path != ""
    ensures StripSlashes(path + Slashes(n)) == StripSlashes(path)
    decreases n
  {
    if n == 0 {
      assert path + Slashes(0) == path;
    } else {
      StripMore(path, n - 1);
      assert (path + Slashes(n))[..|path| + n - 1] == path + Slashes(n - 1);
    }
  }

  /** Slashes at the end of a uri make no difference to either lookup. */
  lemma SlashesDoNotMatter<V>(m: map<string, V>, uri: string, n: nat)
    requires uri != ""
    ensures Route(m, uri + Slashes(n)) == Route(m, uri)
  {
    StripMore(uri, n);
    OnlyOne(m.Keys, StripSlashes(uri));
  }

  /** The shared names after `n` dispatchers have been constructed with the same handlers. */
  function InfoAfter(n: nat, handlers: map<string, Handler>): map<string, string> {
    if n == 0 then map[] else InfoAfter(n - 1, handlers) + KindsOf(handlers)
  }

  /** However many dispatchers are constructed from one configuration, the shared names are the
      types of the handlers of each. */
  lemma {:induction false} InfoIsKinds(n: nat, handlers: map<string, Handler>)
    requires n > 0
    ensures InfoAfter(n, handlers) == KindsOf(handlers)
  {
    if n > 1 {
      InfoIsKinds(n - 1, handlers);
    } else {
      assert InfoAfter(0, handlers) == map[];
    }
  }

  /** Then the two lookups agree: the name is the type of the handler, for every uri. */
  lemma LookupsAgree(n: nat, handlers: map<string, Handler>, uri: string)
    requires n > 0
    ensures Route(InfoAfter(n, handlers), uri) ==
            match Route(handlers, uri) case Some(h) => Some(h.kind) case None => None
  {
    InfoIsKinds(n, handlers);
    var path := StripSlashes(uri);
    assert KindsOf(handlers).Keys == handlers.Keys;
    OnlyOne(handlers.Keys, path);
  }

  /** The two servers of the program's main share one configuration: each constructs its own
      dispatcher, and both add to the same names. */
  method ConstructServers(config: NginxConfig) returns (info: HandlerInfo, http: Dispatcher, https: Dispatcher, ok: bool)
    requires config.Valid() && RowsOk(Rows(config)) && BlocksOk(Rows(config), config)
    ensures ok <==> !Register(Rows(config), config).threw
    ensures ok ==> http.handlers == https.handlers == Register(Rows(config), config).handlers
    ensures ok ==> info.info == KindsOf(http.handlers)
  {
    hide Rows, RowsOk, Register, KindsOf, StmtsAre;
    ghost var rows := Rows(config);
    info := new HandlerInfo();
    http := new Dispatcher();
    https := new Dispatcher();
    ok := http.Construct(config, info);
    if ok {
      ok := https.Construct(config, info);
    }
  }
}
