/**
A local of Go that the Merkle hash does not treat as one: the variable of a range clause. It is declared by `:=`, but
not by the kind of node that is searched for declarations, so renaming it shows in the hash.
*/
module MerkleRange {
  import opened Common
  import opened MerkleHash

  function Token(text: string): Tree {
    Tree(text, false, "", text, [])
  }

  function Name(field: string, x: string): Tree {
    Tree("identifier", true, field, x, [])
  }

  function Inner(kind: string, field: string, children: seq<Tree>): Tree {
    Tree(kind, true, field, "", children)
  }

  /** The clause `x := range s`. */
  function RangeClause(x: string): Tree {
    Inner("range_clause", "",
          [Inner("expression_list", "left", [Name("", x)]), Token(":="), Token("range"), Name("right", "s")])
  }

  /** The statement `_ = x`. */
  function Discard(x: string): Tree {
    Inner("assignment_statement", "",
          [Inner("expression_list", "left", [Name("", "_")]), Token("="),
           Inner("expression_list", "right", [Name("", x)])])
  }

  function Block(field: string, statement: Tree): Tree {
    Inner("block", field, [Token("{"), Inner("statement_list", "", [statement]), Token("}")])
  }

  /** The loop `for x := range s { _ = x }`. */
  function Loop(x: string): Tree {
    Inner("for_statement", "", [Token("for"), RangeClause(x), Block("body", Discard(x))])
  }

  /** The declaration `func F() { for x := range s { _ = x } }`, with `s` declared outside it. */
  function Function(x: string): Tree {
    Inner("function_declaration", "",
          [Token("func"), Name("name", "F"), Inner("parameter_list", "parameters", [Token("("), Token(")")]),
           Block("body", Loop(x))])
  }

  // ---------------------------------------------------------------- reading the tree

  /** No declaration of locals, no callable, no comment and no variable specification; and only these identifiers. */
  ghost predicate Plain(t: Tree, names: set<string>) {
    && t.kind !in {"short_var_declaration", "var_declaration", "comment", "var_spec"} && !IsCallable(t)
    && (t.kind == "identifier" ==> t.children == [] && t.text in names)
    && forall c :: c in t.children ==> Plain(c, names)
  }

  lemma {:induction false} PlainDeclaresNothing(t: Tree, names: set<string>)
    requires Plain(t, names)
    ensures WellFormed(t) && Declared(t) == []
    ensures forall y :: HasIdentifier(t, y) ==> y in names
    decreases t, 1
  {
    forall c | c in t.children ensures WellFormed(c) && forall y :: HasIdentifier(c, y) ==> y in names {
      PlainDeclaresNothing(c, names);
    }
    AllDeclareNothing(t.children, names);
    assert OwnNames(t) == [];
  }

  lemma {:induction false} AllDeclareNothing(children: seq<Tree>, names: set<string>)
    requires forall c :: c in children ==> Plain(c, names)
    ensures DeclaredAll(children) == []
    decreases children, 0
  {
    if children != [] {
      assert children[0] in children;
      PlainDeclaresNothing(children[0], names);
      AllDeclareNothing(children[1..], names);
    }
  }

  lemma PlainInner(kind: string, field: string, children: seq<Tree>, names: set<string>)
    requires kind !in {"short_var_declaration", "var_declaration", "comment", "var_spec", "identifier"}
    requires kind !in {"method_declaration", "function_declaration"}
    requires forall i :: 0 <= i < |children| ==> Plain(children[i], names)
    ensures Plain(Inner(kind, field, children), names)
  {
  }

  lemma ClauseIsPlain(x: string, names: set<string>)
    requires x in names && "s" in names
    ensures Plain(RangeClause(x), names)
  {
    assert Plain(Name("", x), names) && Plain(Name("right", "s"), names);
    assert Plain(Token(":="), names) && Plain(Token("range"), names);
    hide Plain;
    PlainInner("expression_list", "left", [Name("", x)], names);
    PlainInner("range_clause", "", RangeClause(x).children, names);
  }

  lemma DiscardIsPlain(x: string, names: set<string>)
    requires x in names && "_" in names
    ensures Plain(Discard(x), names)
  {
    assert Plain(Name("", x), names) && Plain(Name("", "_"), names) && Plain(Token("="), names);
    hide Plain;
    PlainInner("expression_list", "left", [Name("", "_")], names);
    PlainInner("expression_list", "right", [Name("", x)], names);
    PlainInner("assignment_statement", "", Discard(x).children, names);
  }

  lemma BlockIsPlain(field: string, statement: Tree, names: set<string>)
    requires Plain(statement, names)
    ensures Plain(Block(field, statement), names)
  {
    assert Plain(Token("{"), names) && Plain(Token("}"), names);
    hide Plain;
    PlainInner("statement_list", "", [statement], names);
    PlainInner("block", field, Block(field, statement).children, names);
  }

  lemma BodyIsPlain(x: string)
    ensures Plain(Block("body", Loop(x)), {x, "s", "_"})
  {
    var names := {x, "s", "_"};
    assert Plain(Token("for"), names);
    hide Plain, RangeClause, Block, Discard;
    ClauseIsPlain(x, names);
    DiscardIsPlain(x, names);
    BlockIsPlain("body", Discard(x), names);
    PlainInner("for_statement", "", Loop(x).children, names);
    BlockIsPlain("body", Loop(x), names);
  }

  lemma FunctionIsWellFormed(x: string)
    ensures WellFormed(Function(x)) && IsCallable(Function(x))
    ensures ChildByField(Function(x).children, "body") == Some(Block("body", Loop(x)))
  {
    var body, parameters := Block("body", Loop(x)), Inner("parameter_list", "parameters", [Token("("), Token(")")]);
    BodyIsPlain(x);
    PlainDeclaresNothing(body, {x, "s", "_"});
    assert WellFormed(Token("(")) && WellFormed(Token(")")) && WellFormed(Token("func"))
           && WellFormed(Name("name", "F"));
    assert WellFormed(parameters);
    var children := Function(x).children;
    assert children[1..] == [Name("name", "F"), parameters, body] && children[1..][1..] == [parameters, body];
    assert [parameters, body][1..] == [body] && ChildByField([body], "body") == Some(body);
    assert ChildByField([parameters, body], "body") == Some(body);
    assert ChildByField(children[1..], "body") == Some(body);
    assert forall c :: c in children ==> c == Token("func") || c == Name("name", "F") || c == parameters || c == body;
  }

  // ---------------------------------------------------------------- renaming it

  lemma RenameInner(kind: string, field: string, before: seq<Tree>, after: seq<Tree>, to: map<string, string>)
    requires before != [] && |before| == |after| && forall i :: 0 <= i < |before| ==> Rename(before[i], to) == after[i]
    ensures Rename(Inner(kind, field, before), to) == Inner(kind, field, after)
  {
    RenameAllShape(before, to);
    assert RenameAll(before, to) == after;
  }

  lemma BlockRenamed(field: string, before: Tree, after: Tree, to: map<string, string>)
    requires Rename(before, to) == after
    ensures Rename(Block(field, before), to) == Block(field, after)
  {
    RenameInner("statement_list", "", [before], [after], to);
    RenameInner("block", field, Block(field, before).children, Block(field, after).children, to);
  }

  lemma LoopRenamed(x: string, y: string)
    requires x !in {"s", "_"}
    ensures Rename(Block("body", Loop(x)), map[x := y]) == Block("body", Loop(y))
  {
    var to := map[x := y];
    RenameInner("expression_list", "left", [Name("", x)], [Name("", y)], to);
    RenameInner("expression_list", "right", [Name("", x)], [Name("", y)], to);
    RenameInner("expression_list", "left", [Name("", "_")], [Name("", "_")], to);
    RenameInner("range_clause", "", RangeClause(x).children, RangeClause(y).children, to);
    RenameInner("assignment_statement", "", Discard(x).children, Discard(y).children, to);
    hide Block, RangeClause, Discard;
    BlockRenamed("body", Discard(x), Discard(y), to);
    RenameInner("for_statement", "", Loop(x).children, Loop(y).children, to);
    BlockRenamed("body", Loop(x), Loop(y), to);
  }

  lemma FunctionRenamed(x: string, y: string)
    requires x !in {"s", "_"}
    ensures RenameBody(Function(x).children, map[x := y]) == Function(y).children
  {
    LoopRenamed(x, y);
    var to, children := map[x := y], Function(x).children;
    var body, parameters := Block("body", Loop(x)), Inner("parameter_list", "parameters", [Token("("), Token(")")]);
    assert children[1..] == [Name("name", "F"), parameters, body] && children[1..][1..] == [parameters, body];
    assert [parameters, body][1..] == [body] && RenameBody([body], to) == [Block("body", Loop(y))];
    assert RenameBody([parameters, body], to) == [parameters, Block("body", Loop(y))];
    assert RenameBody(children[1..], to) == [Name("name", "F"), parameters, Block("body", Loop(y))];
  }

  // ---------------------------------------------------------------- and it shows

  lemma {:induction false} ChildOutOfForce(children: seq<Tree>, i: nat, to: map<string, string>, names: seq<string>)
    requires i < |children| && children[i].kind != "comment" && !InForce(children[i], to, names)
    ensures !InForceAll(children, to, names, false)
  {
    if i > 0 { ChildOutOfForce(children[1..], i - 1, to, names); }
  }

  lemma RangeVariableIsOutOfForce(x: string, y: string)
    requires x != y
    ensures !InForce(Block("body", Loop(x)), map[x := y], [])
  {
    var to := map[x := y];
    var left := Inner("expression_list", "left", [Name("", x)]);
    assert Moves(to, x) && !InForce(Name("", x), to, []);
    ChildOutOfForce(left.children, 0, to, []);
    ChildOutOfForce(RangeClause(x).children, 0, to, []);
    ChildOutOfForce(Loop(x).children, 1, to, []);
    ChildOutOfForce([Loop(x)], 0, to, []);
    var statements := Inner("statement_list", "", [Loop(x)]);
    assert !InForce(statements, to, []);
    ChildOutOfForce(Block("body", Loop(x)).children, 1, to, []);
  }

  /** Renaming the variable of a range clause changes the hash of its function, under every prefix-free digest. */
  lemma RangeVariableShows(H: string -> string, x: string, y: string)
    requires PrefixFree(H) && x != y && x !in {"s", "_"} && y !in {"s", "_"}
    ensures Locals(Block("body", Loop(x))) == []
    ensures HashNode(H, Function(y), map[]) != HashNode(H, Function(x), map[])
  {
    hide PrefixFree, HashNode, InForce;
    var t, body, to := Function(x), Block("body", Loop(x)), map[x := y];
    FunctionIsWellFormed(x);
    BodyIsPlain(x);
    PlainDeclaresNothing(body, {x, "s", "_"});
    CollectNothing([]);
    assert Avoids(body, to) && Injective(to);
    FunctionRenamed(x, y);
    assert t.(children := RenameBody(t.children, to)) == Function(y);
    RangeVariableIsOutOfForce(x, y);
    RenamingLocalsKeepsHash(H, t, body, to, map[]);
  }
}
