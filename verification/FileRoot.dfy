/** How the file handler is set up: the root its block names. */
module FileRoot {
  import opened ConfigTree
  import opened ConfigHeap

  /** The constructor looks at the first token of every statement. */
  predicate HasTokens(body: seq<Stmt>) {
    forall i :: 0 <= i < |body| ==> body[i].tokens != []
  }

  function RootOf(body: seq<Stmt>): string {
    if body == [] then "/"
    else if Sets(body[|body| - 1], "root") then body[|body| - 1].tokens[1]
    else RootOf(body[..|body| - 1])
  }

  /** The last `root` with one argument counts, and without one the root is `/`. */
  lemma {:induction false} LastRootCounts(body: seq<Stmt>, i: nat, root: string)
    requires i < |body| && body[i].tokens == ["root", root]
    requires forall j :: i < j < |body| ==> !Sets(body[j], "root")
    ensures RootOf(body) == root
    decreases |body|
  {
    var n := |body| - 1;
    if i < n {
      LastRootCounts(body[..n], i, root);
    }
  }

  lemma {:induction false} NoRoot(body: seq<Stmt>)
    requires forall j :: 0 <= j < |body| ==> !Sets(body[j], "root")
    ensures RootOf(body) == "/"
  {
    if body != [] {
      NoRoot(body[..|body| - 1]);
    }
  }

  class FileHandler {
    const prefix: string
    var root: string

    constructor (prefix: string)
      ensures this.prefix == prefix && root == "/"
    {
      this.prefix := prefix;
      root := "/";
    }

    /** The constructor's loop over the block. */
    method ReadConfig(config: NginxConfig, ghost body: seq<Stmt>, ghost repr: set<object>)
      requires StmtsAre(config.statements, body, repr) && HasTokens(body) && this !in repr
      requires root == "/" && (this as object) != config
      modifies this
      ensures root == RootOf(body)
    {
      for i := 0 to |config.statements|
        invariant root == RootOf(body[..i])
      {
        var statement := config.statements[i];
        assert StmtIs(statement, body[i], repr);
        assert body[..i + 1][..i] == body[..i];
        if statement.tokens[0] == "root" && |statement.tokens| == 2 {
          root := statement.tokens[1];
        }
      }
      assert body[..|body|] == body;
    }
  }
}
