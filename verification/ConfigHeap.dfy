/** The configuration objects the parser builds and the printer walks. */
module ConfigHeap {
  import opened ConfigTree

  class NginxConfigStatement {
    var tokens: seq<string>
    var child: NginxConfig?

    constructor ()
      ensures tokens == [] && child == null
    {
      tokens := [];
      child := null;
    }

    /** The loop that writes the tokens with a blank between each two. */
    method AppendTokens(text: string) returns (r: string)
      ensures r == text + Join(tokens)
    {
      r := text;
      for i := 0 to |tokens|
        invariant r == text + Join(tokens[..i])
      {
        if i != 0 {
          r := r + " ";
        }
        r := r + tokens[i];
        assert tokens[..i + 1][..i] == tokens[..i];
      }
      assert tokens[..|tokens|] == tokens;
    }

    /** Writes the statement and, indented, its block. */
    method ToString(depth: int, ghost tree: Stmt, ghost repr: set<object>) returns (text: string)
      requires StmtIs(this, tree, repr)
      ensures text == PrintStmt(tree, depth)
      decreases tree
    {
      hide Indent, Join;
      text := AppendIndent("", depth);
      text := AppendTokens(text);
      ghost var line := text;
      if child != null {
        text := text + " {\n";
        var block := child.ToString(depth + 1, tree.body, repr);
        text := text + block;
        text := AppendIndent(text, depth);
        text := text + "}";
      } else {
        text := text + ";";
      }
      text := text + "\n";
      assert text == line + PrintEnd(tree, depth);
    }
  }

  /** The loop that writes two blanks for each level, none for a negative depth. */
  method AppendIndent(text: string, depth: int) returns (r: string)
    ensures r == text + Indent(depth)
  {
    r := text;
    var i := 0;
    while i < depth
      invariant 0 <= i && (i <= depth || i == 0)
      invariant r == text + Indent(i)
    {
      r := r + "  ";
      i := i + 1;
    }
  }

  class NginxConfig {
    var statements: seq<NginxConfigStatement>
    /** The tree the object holds and the objects it is made of, while no parse is under way. */
    ghost var Tree: seq<Stmt>
    ghost var Repr: set<object>

    ghost predicate Valid()
      reads this, Repr
    {
      this in Repr && StmtsAre(statements, Tree, Repr - {this})
    }

    constructor ()
      ensures Valid() && Tree == [] && statements == [] && fresh(Repr)
    {
      statements := [];
      Tree := [];
      Repr := {this};
    }

    method Reset()
      modifies this
      ensures Valid() && Tree == [] && Repr == {this}
    {
      statements := [];
      Tree := [];
      Repr := {this};
    }

    /** Writes the statements one after the other. */
    method ToString(depth: int, ghost tree: seq<Stmt>, ghost repr: set<object>) returns (text: string)
      requires StmtsAre(statements, tree, repr)
      ensures text == Print(tree, depth)
      decreases tree
    {
      text := "";
      for i := 0 to |statements|
        invariant text == Print(tree[..i], depth)
      {
        var line := statements[i].ToString(depth, tree[i], repr);
        text := text + line;
        PrintAppend(tree[..i], [tree[i]], depth);
        assert tree[..i + 1] == tree[..i] + [tree[i]];
        assert Print([tree[i]], depth) == line + Print([], depth);
      }
      assert tree[..|statements|] == tree;
    }
  }

  /** The object and everything below it, all of it in `repr`, is the tree `v`. */
  ghost predicate StmtIs(s: NginxConfigStatement, v: Stmt, repr: set<object>)
    reads repr
    decreases v
  {
    && s in repr && s.tokens == v.tokens
    && match v
       case Simple(_) => s.child == null
       case Block(_, body) =>
         s.child != null && s.child in repr && StmtsAre(s.child.statements, body, repr)
  }

  ghost predicate StmtsAre(ss: seq<NginxConfigStatement>, vs: seq<Stmt>, repr: set<object>)
    reads repr
    decreases vs
  {
    |ss| == |vs| && forall i :: 0 <= i < |ss| ==> StmtIs(ss[i], vs[i], repr)
  }

  lemma {:induction false} Widen(ss: seq<NginxConfigStatement>, vs: seq<Stmt>, r: set<object>, r': set<object>)
    requires StmtsAre(ss, vs, r) && r <= r'
    ensures StmtsAre(ss, vs, r')
    decreases vs
  {
    forall i | 0 <= i < |ss|
      ensures StmtIs(ss[i], vs[i], r')
    {
      assert StmtIs(ss[i], vs[i], r);
      if vs[i].Block? {
        Widen(ss[i].child.statements, vs[i].body, r, r');
      }
    }
  }

  /** An object structure is one tree only. */
  lemma {:induction false} SameTree(ss: seq<NginxConfigStatement>, v: seq<Stmt>, w: seq<Stmt>, r: set<object>, q: set<object>)
    requires StmtsAre(ss, v, r) && StmtsAre(ss, w, q)
    ensures v == w
    decreases v
  {
    forall i | 0 <= i < |ss|
      ensures v[i] == w[i]
    {
      assert StmtIs(ss[i], v[i], r) && StmtIs(ss[i], w[i], q);
      if v[i].Block? {
        SameTree(ss[i].child.statements, v[i].body, w[i].body, r, q);
      }
    }
  }

  lemma {:induction false} PrintAppend(a: seq<Stmt>, b: seq<Stmt>, depth: int)
    ensures Print(a + b, depth) == Print(a, depth) + Print(b, depth)
    decreases |a|
  {
    hide PrintStmt;
    if a == [] {
      assert a + b == b;
    } else {
      PrintAppend(a[1..], b, depth);
      assert a + b == [a[0]] + (a[1..] + b) && (a + b)[1..] == a[1..] + b;
      assert Print(a + b, depth) == PrintStmt(a[0], depth) + (Print(a[1..], depth) + Print(b, depth));
    }
  }
}
