/**
What the Merkle hash tells apart: the form of a tree is what is left when comments are cut and locals are numbered, and
two trees have the same hash exactly when they have the same form.
*/
module MerkleForm {
  import opened Common
  import opened MerkleHash

  datatype Token = Word(text: string) | Local(index: nat)

  datatype Form = Leaf(kind: string, token: Token) | Inner(kind: string, parts: seq<Form>)

  /** The form of a tree in which `names` are the locals, in the order of their first declarations. */
  function FormOf(t: Tree, names: seq<string>): Form
    decreases t, 1
  {
    if t.children == [] then
      Leaf(t.kind, if t.kind == "identifier" && t.text in names then Local(IndexOf(names, t.text)) else Word(t.text))
    else Inner(t.kind, FormsOf(t.children, names, BodyNames(t), IsCallable(t)))
  }

  function FormsOf(children: seq<Tree>, names: seq<string>, inner: seq<string>, bodyAhead: bool): seq<Form>
    decreases children, 0
  {
    if children == [] then []
    else
      var child := children[0];
      var isBody := bodyAhead && child.field == "body";
      (if child.kind == "comment" then [] else [FormOf(child, if isBody then inner else names)])
      + FormsOf(children[1..], names, inner, bodyAhead && !isBody)
  }

  // ---------------------------------------------------------------- the hash depends on the form alone

  function Spoken(token: Token): string {
    match token case Word(text) => text case Local(i) => "LOCAL_" + Itoa(i)
  }

  function FormHash(H: string -> string, f: Form): string
    decreases f, 2
  {
    H(f.kind + FormContent(H, f))
  }

  function FormContent(H: string -> string, f: Form): string
    decreases f, 1
  {
    match f case Leaf(_, token) => Spoken(token) case Inner(_, parts) => FormsHash(H, parts)
  }

  function FormsHash(H: string -> string, parts: seq<Form>): string
    decreases parts, 0
  {
    if parts == [] then "" else FormHash(H, parts[0]) + FormsHash(H, parts[1..])
  }

  lemma FormsHashCons(H: string -> string, f: Form, rest: seq<Form>)
    ensures FormsHash(H, [f] + rest) == FormHash(H, f) + FormsHash(H, rest)
  {
    assert ([f] + rest)[1..] == rest;
  }

  lemma {:induction false} HashIsOfForm(H: string -> string, t: Tree, names: seq<string>)
    ensures HashNode(H, t, Placeholders(names)) == FormHash(H, FormOf(t, names))
    decreases t, 1
  {
    if t.children != [] { HashesAreOfForms(H, t.children, names, BodyNames(t), IsCallable(t)); }
  }

  lemma {:induction false} HashesAreOfForms(H: string -> string, children: seq<Tree>, names: seq<string>,
                                            inner: seq<string>, bodyAhead: bool)
    ensures HashAll(H, children, Placeholders(names), Placeholders(inner), bodyAhead) ==
            FormsHash(H, FormsOf(children, names, inner, bodyAhead))
    decreases children, 0
  {
    hide HashNode, FormHash, FormOf, Placeholders;
    if children != [] {
      var child := children[0];
      var isBody := bodyAhead && child.field == "body";
      var rest := FormsOf(children[1..], names, inner, bodyAhead && !isBody);
      HashesAreOfForms(H, children[1..], names, inner, bodyAhead && !isBody);
      if child.kind == "comment" {
        assert [] + rest == rest && "" + FormsHash(H, rest) == FormsHash(H, rest);
      } else {
        HashIsOfForm(H, child, if isBody then inner else names);
        FormsHashCons(H, FormOf(child, if isBody then inner else names), rest);
      }
    }
  }

  // ---------------------------------------------------------------- and shows all of it

  /** Only identifiers are numbered, and no other identifier is spelled like a number's placeholder. */
  ghost predicate Unmistakable(f: Form) {
    match f
    case Leaf(kind, Word(text)) => kind == "identifier" ==> forall i: nat :: text != "LOCAL_" + Itoa(i)
    case Leaf(kind, Local(_)) => kind == "identifier"
    case Inner(_, parts) => forall p :: p in parts ==> Unmistakable(p)
  }

  ghost predicate Part(f: Form, x: Form) {
    x == f || (f.Inner? && exists p :: p in f.parts && Part(p, x))
  }

  /** Where what is digested agrees, so do the kinds, and whether there are parts: no kind runs into what follows it. */
  ghost predicate KindsTell(H: string -> string, f: Form, g: Form) {
    forall x, y :: Part(f, x) && Part(g, y) && x.kind + FormContent(H, x) == y.kind + FormContent(H, y) ==>
      x.kind == y.kind && (x.Leaf? <==> y.Leaf?)
  }

  lemma KindsTellInside(H: string -> string, f: Form, g: Form, p: Form, q: Form)
    requires KindsTell(H, f, g) && f.Inner? && g.Inner? && p in f.parts && q in g.parts
    ensures KindsTell(H, p, q)
  {
    assert forall x :: Part(p, x) ==> Part(f, x);
    assert forall y :: Part(q, y) ==> Part(g, y);
  }

  lemma SameTokens(kind: string, a: Token, b: Token)
    requires Unmistakable(Leaf(kind, a)) && Unmistakable(Leaf(kind, b)) && Spoken(a) == Spoken(b)
    ensures a == b
  {
    if a.Local? && b.Local? { SamePlaceholder(a.index, b.index); }
  }

  lemma {:induction false} FormIsReadBack(H: string -> string, f: Form, g: Form)
    requires PrefixFree(H) && Unmistakable(f) && Unmistakable(g) && KindsTell(H, f, g)
    requires FormHash(H, f) == FormHash(H, g)
    ensures f == g
    decreases f, 1
  {
    assert H(f.kind + FormContent(H, f)) + "" == H(g.kind + FormContent(H, g)) + "";
    FirstDigestIsReadBack(H, f.kind + FormContent(H, f), g.kind + FormContent(H, g), "", "");
    assert Part(f, f) && Part(g, g);
    SamePrefix(f.kind, FormContent(H, f), FormContent(H, g));
    if f.Leaf? {
      SameTokens(f.kind, f.token, g.token);
    } else {
      forall p, q | p in f.parts && q in g.parts ensures KindsTell(H, p, q) { KindsTellInside(H, f, g, p, q); }
      FormsAreReadBack(H, f.parts, g.parts);
    }
  }

  lemma {:induction false} FormsAreReadBack(H: string -> string, a: seq<Form>, b: seq<Form>)
    requires PrefixFree(H) && FormsHash(H, a) == FormsHash(H, b)
    requires forall p :: p in a ==> Unmistakable(p)
    requires forall q :: q in b ==> Unmistakable(q)
    requires forall p, q :: p in a && q in b ==> KindsTell(H, p, q)
    ensures a == b
    decreases a, 0
  {
    hide PrefixFree, Unmistakable, KindsTell;
    if a != [] && b != [] {
      FirstDigestIsReadBack(H, a[0].kind + FormContent(H, a[0]), b[0].kind + FormContent(H, b[0]), FormsHash(H, a[1..]),
                            FormsHash(H, b[1..]));
      FormIsReadBack(H, a[0], b[0]);
      FormsAreReadBack(H, a[1..], b[1..]);
      assert a == [a[0]] + a[1..] && b == [b[0]] + b[1..];
    } else {
      if a != [] { DigestsAreNotEmpty(H, a[0].kind + FormContent(H, a[0])); }
      if b != [] { DigestsAreNotEmpty(H, b[0].kind + FormContent(H, b[0])); }
    }
  }

  lemma DigestsAreNotEmpty(H: string -> string, x: string)
    requires PrefixFree(H)
    ensures H(x) != ""
  {
    assert x != x + ".";
    assert !(H(x) <= H(x + "."));
  }

  /**
  The hash tells exactly the forms apart. That equal forms have equal hashes needs nothing; the converse needs that no
  digest begins another, that kinds can be told from what follows them, and that no identifier that is not numbered is
  spelled like a placeholder.
  */
  lemma HashTellsForms(H: string -> string, a: Tree, b: Tree)
    ensures FormOf(a, []) == FormOf(b, []) ==> HashNode(H, a, map[]) == HashNode(H, b, map[])
    ensures PrefixFree(H) && Unmistakable(FormOf(a, [])) && Unmistakable(FormOf(b, []))
            && KindsTell(H, FormOf(a, []), FormOf(b, [])) && HashNode(H, a, map[]) == HashNode(H, b, map[]) ==>
              FormOf(a, []) == FormOf(b, [])
  {
    hide PrefixFree, Unmistakable, KindsTell, HashNode, FormHash;
    assert Placeholders([]) == map[];
    HashIsOfForm(H, a, []);
    HashIsOfForm(H, b, []);
    if PrefixFree(H) && Unmistakable(FormOf(a, [])) && Unmistakable(FormOf(b, []))
       && KindsTell(H, FormOf(a, []), FormOf(b, [])) && HashNode(H, a, map[]) == HashNode(H, b, map[]) {
      FormIsReadBack(H, FormOf(a, []), FormOf(b, []));
    }
  }

  // ---------------------------------------------------------------- an identifier spelled like a placeholder

  function Name(field: string, x: string): Tree {
    Tree("identifier", true, field, x, [])
  }

  function Node(kind: string, field: string, children: seq<Tree>): Tree {
    Tree(kind, true, field, "", children)
  }

  /** The statement `x := a`, without its punctuation. */
  function Declaration(): Tree {
    Node("short_var_declaration", "", [Node("expression_list", "left", [Name("", "x")]), Name("right", "a")])
  }

  function Body(y: string): Tree {
    Node("block", "body", [Declaration(), Name("", y)])
  }

  /** The declaration `func F() { x := a; y }` for a given `y`. */
  function Uses(y: string): Tree {
    Node("function_declaration", "", [Name("name", "F"), Body(y)])
  }

  lemma NameDeclaresNothing(field: string, x: string)
    ensures Declared(Name(field, x)) == []
  {
  }

  lemma OnlyXIsDeclared(y: string)
    ensures Locals(Body(y)) == ["x"] && BodyNames(Uses(y)) == ["x"]
  {
    var left := Node("expression_list", "left", [Name("", "x")]);
    var d, use := Declaration(), Name("", y);
    assert IdentifierTexts([Name("", "x")]) == ["x"] by { assert [Name("", "x")][1..] == []; }
    assert OwnNames(d) == ["x"];
    assert DeclaredAll(left.children) == [] by { NameDeclaresNothing("", "x"); assert left.children[1..] == []; }
    assert DeclaredAll(d.children) == [] by {
      NameDeclaresNothing("right", "a");
      assert d.children[1..] == [Name("right", "a")] && [Name("right", "a")][1..] == [];
    }
    assert DeclaredAll(Body(y).children) == ["x"] by {
      NameDeclaresNothing("", y);
      assert Body(y).children[1..] == [use] && [use][1..] == [];
    }
    assert Collect([], ["x"]) == ["x"] by { assert ["x"][1..] == [] && Collect(["x"], []) == ["x"]; }
    assert ChildByField(Uses(y).children, "body") == Some(Body(y)) by {
      assert Uses(y).children[1..] == [Body(y)] && ChildByField([Body(y)], "body") == Some(Body(y));
    }
  }

  /** Without that condition it fails: a use of the local and a use of a global called LOCAL_0 hash alike. */
  lemma PlaceholderTextIsMistaken(H: string -> string)
    ensures HashNode(H, Uses("x"), map[]) == HashNode(H, Uses("LOCAL_0"), map[])
    ensures FormOf(Uses("x"), []) != FormOf(Uses("LOCAL_0"), [])
  {
    hide Declared, OwnNames, Locals, BodyNames, Declaration, FormHash, HashNode, FormOf;
    FormOfUses("x");
    FormOfUses("LOCAL_0");
    HashIsOfForm(H, Uses("x"), []);
    HashIsOfForm(H, Uses("LOCAL_0"), []);
    assert Placeholders([]) == map[];
    assert "LOCAL_" + Itoa(0) == "LOCAL_0";
    SameSound(H, "identifier", Local(0), Word("LOCAL_0"));
    OnePartMoreAlike(H, "block", TheRest(), Leaf("identifier", Local(0)), Leaf("identifier", Word("LOCAL_0")));
    OnePartMoreAlike(H, "function_declaration", Leaf("identifier", Word("F")), TheBody(Local(0)),
                     TheBody(Word("LOCAL_0")));
  }

  function TheRest(): Form {
    FormOf(Declaration(), ["x"])
  }

  function TheBody(use: Token): Form {
    Inner("block", [TheRest(), Leaf("identifier", use)])
  }

  lemma SameSound(H: string -> string, kind: string, a: Token, b: Token)
    requires Spoken(a) == Spoken(b)
    ensures FormHash(H, Leaf(kind, a)) == FormHash(H, Leaf(kind, b))
  {
  }

  lemma OnePartMoreAlike(H: string -> string, kind: string, first: Form, a: Form, b: Form)
    requires FormHash(H, a) == FormHash(H, b)
    ensures FormHash(H, Inner(kind, [first, a])) == FormHash(H, Inner(kind, [first, b]))
  {
    assert [first, a] == [first] + [a] && [a] == [a] + [];
    assert [first, b] == [first] + [b] && [b] == [b] + [];
    FormsHashCons(H, first, [a]);
    FormsHashCons(H, first, [b]);
    FormsHashCons(H, a, []);
    FormsHashCons(H, b, []);
  }

  lemma FormOfBody(y: string)
    ensures FormOf(Body(y), ["x"]) == TheBody(if y == "x" then Local(0) else Word(y))
  {
    var kids, use, names := Body(y).children, Name("", y), ["x"];
    assert kids[1..] == [use] && [use][1..] == [];
    assert FormsOf([], names, [], false) == [];
    assert FormsOf([use], names, [], false) == [FormOf(use, names)];
    assert FormsOf(kids, names, [], false) == [FormOf(Declaration(), names)] + [FormOf(use, names)];
    assert BodyNames(Body(y)) == [];
  }

  lemma FormOfUses(y: string)
    ensures FormOf(Uses(y), []) ==
            Inner("function_declaration",
                  [Leaf("identifier", Word("F")), TheBody(if y == "x" then Local(0) else Word(y))])
  {
    OnlyXIsDeclared(y);
    FormOfBody(y);
    var use := if y == "x" then Local(0) else Word(y);
    hide Locals, Declared, OwnNames, TheBody, BodyNames, Body;
    var kids, name, body := Uses(y).children, Name("name", "F"), Body(y);
    BodyIsNoComment(y);
    assert kids == [name, body] && kids[1..] == [body] && [body][1..] == [];
    hide Body;
    assert FormsOf([], [], ["x"], false) == [];
    assert FormsOf([body], [], ["x"], true) == [TheBody(use)];
    assert FormOf(name, []) == Leaf("identifier", Word("F"));
    hide FormOf;
    assert FormsOf(kids, [], ["x"], true) == [FormOf(name, [])] + FormsOf([body], [], ["x"], true);
    UsesIsCallable(y);
  }

  lemma BodyIsNoComment(y: string)
    ensures Body(y).kind != "comment" && Body(y).field == "body"
  {
  }

  lemma UsesIsCallable(y: string)
    ensures FormOf(Uses(y), []) ==
            Inner("function_declaration", FormsOf(Uses(y).children, [], BodyNames(Uses(y)), true))
  {
    hide FormsOf, BodyNames, Body;
  }
}
