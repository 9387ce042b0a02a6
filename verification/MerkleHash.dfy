/**
The Merkle hash of a syntax tree: comments are skipped, and the local variables of a function body are
replaced by positional placeholders. SHA-256 (with its hexadecimal form) is an arbitrary function `H`.
*/
module MerkleHash {
  import opened Common

  /**
  A syntax node. `field` is the node's field name in its parent, or "". `text` is its source text; of a node
  with children only the children are hashed, so its own text is never looked at.
  */
  datatype Tree = Tree(kind: string, named: bool, field: string, text: string, children: seq<Tree>)

  // ---------------------------------------------------------------- local names

  /** The first child with the given field name. */
  function ChildByField(children: seq<Tree>, field: string): Option<Tree> {
    if children == [] then None
    else if children[0].field == field then Some(children[0])
    else ChildByField(children[1..], field)
  }

  function IdentifierTexts(children: seq<Tree>): seq<string> {
    if children == [] then []
    else
      (if children[0].named && children[0].kind == "identifier" then [children[0].text] else [])
      + IdentifierTexts(children[1..])
  }

  function FieldTexts(children: seq<Tree>, field: string): seq<string> {
    if children == [] then []
    else (if children[0].field == field then [children[0].text] else []) + FieldTexts(children[1..], field)
  }

  function SpecNames(children: seq<Tree>): seq<string> {
    if children == [] then []
    else (if children[0].named && children[0].kind == "var_spec" then FieldTexts(children[0].children, "name") else [])
         + SpecNames(children[1..])
  }

  /** The names that this very node declares: the left side of `:=`, or the names of a `var`. */
  function OwnNames(t: Tree): seq<string> {
    if t.kind == "short_var_declaration" then
      var left := ChildByField(t.children, "left");
      if left.Some? then IdentifierTexts(left.value.children) else []
    else if t.kind == "var_declaration" then SpecNames(t.children)
    else []
  }

  /** All declared names in source order, repetitions included; nothing inside a comment counts. */
  function Declared(t: Tree): seq<string>
    decreases t, 1
  {
    if t.kind == "comment" then [] else OwnNames(t) + DeclaredAll(t.children)
  }

  function DeclaredAll(children: seq<Tree>): seq<string>
    decreases children, 0
  {
    if children == [] then [] else Declared(children[0]) + DeclaredAll(children[1..])
  }

  /** First occurrences only, appended to what was collected before. */
  function Collect(order: seq<string>, names: seq<string>): seq<string>
    decreases |names|
  {
    if names == [] then order
    else Collect(if names[0] in order then order else order + [names[0]], names[1..])
  }

  function Locals(body: Tree): seq<string> {
    Collect([], Declared(body))
  }

  function IndexOf(names: seq<string>, x: string): nat
    requires x in names
  {
    if names[0] == x then 0 else 1 + IndexOf(names[1..], x)
  }

  /** Each local name with its placeholder, numbered by first declaration. */
  function Placeholders(names: seq<string>): map<string, string> {
    map x | x in names :: "LOCAL_" + Itoa(IndexOf(names, x))
  }

  // ---------------------------------------------------------------- the hash

  predicate IsCallable(t: Tree) {
    t.kind == "method_declaration" || t.kind == "function_declaration"
  }

  /** The names declared in a callable's body. */
  function BodyNames(t: Tree): seq<string> {
    var body := ChildByField(t.children, "body");
    if IsCallable(t) && body.Some? then Locals(body.value) else []
  }

  function Normalized(t: Tree, locals: map<string, string>): string {
    if t.kind == "identifier" && t.text in locals then locals[t.text] else t.text
  }

  function HashNode(H: string -> string, t: Tree, locals: map<string, string>): string
    decreases t, 2
  {
    H(t.kind + Content(H, t, locals))
  }

  /** What is hashed after the kind: a leaf's text, or the hashes of the children. */
  function Content(H: string -> string, t: Tree, locals: map<string, string>): string
    decreases t, 1
  {
    if t.children == [] then Normalized(t, locals)
    else HashAll(H, t.children, locals, Placeholders(BodyNames(t)), IsCallable(t))
  }

  /**
  The hashes of the children one after the other, comments left out. `bodyAhead` says that the body of the
  enclosing callable has not been passed yet: the body, and only the body, sees the callable's own locals.
  */
  function HashAll(H: string -> string, children: seq<Tree>, locals: map<string, string>, inner: map<string, string>,
                   bodyAhead: bool): string
    decreases children, 0
  {
    if children == [] then ""
    else
      var child := children[0];
      var isBody := bodyAhead && child.field == "body";
      (if child.kind == "comment" then "" else HashNode(H, child, if isBody then inner else locals))
      + HashAll(H, children[1..], locals, inner, bodyAhead && !isBody)
  }

  // ---------------------------------------------------------------- collecting names, as the code does it

  class LocalNames {
    var order: seq<string>
    var seen: set<string>

    ghost predicate Valid()
      reads this
    {
      seen == Elements(order)
    }

    constructor ()
      ensures Valid() && order == []
    {
      order, seen := [], {};
    }

    method RecordName(name: string)
      requires Valid()
      modifies this
      ensures Valid() && order == Collect(old(order), [name])
    {
      assert [name][1..] == [];
      if name !in seen {
        seen := seen + {name};
        order := order + [name];
      }
    }

    method RecordNames(names: seq<string>)
      requires Valid()
      modifies this
      ensures Valid() && order == Collect(old(order), names)
    {
      var i := 0;
      while i < |names|
        invariant 0 <= i <= |names| && Valid()
        invariant Collect(order, names[i..]) == Collect(old(order), names)
      {
        assert [names[i]][1..] == [] && names[i..][1..] == names[i + 1..];
        RecordName(names[i]);
        i := i + 1;
      }
    }

    /** One depth-first walk over the tree, recording into the shared list and set. */
    method CollectRec(t: Tree)
      requires Valid()
      modifies this
      ensures Valid() && order == Collect(old(order), Declared(t))
      decreases t
    {
      if t.kind == "comment" { return; }
      RecordNames(OwnNames(t));
      ghost var own := OwnNames(t);
      CollectAppend(old(order), own, DeclaredAll(t.children));
      assert t.children[0..] == t.children;
      var i := 0;
      while i < |t.children|
        invariant 0 <= i <= |t.children| && Valid()
        invariant Collect(order, DeclaredAll(t.children[i..])) == Collect(old(order), Declared(t))
      {
        assert t.children[i..][1..] == t.children[i + 1..];
        CollectAppend(order, Declared(t.children[i]), DeclaredAll(t.children[i + 1..]));
        CollectRec(t.children[i]);
        i := i + 1;
      }
    }
  }

  lemma {:induction false} CollectAppend(order: seq<string>, a: seq<string>, b: seq<string>)
    ensures Collect(order, a + b) == Collect(Collect(order, a), b)
    decreases |a|
  {
    if a == [] {
      assert a + b == b;
    } else {
      assert (a + b)[1..] == a[1..] + b;
      CollectAppend(if a[0] in order then order else order + [a[0]], a[1..], b);
    }
  }

  // ---------------------------------------------------------------- renaming

  function NewName(x: string, to: map<string, string>): string {
    if x in to then to[x] else x
  }

  /** Every identifier leaf that has a new name gets it. */
  function Rename(t: Tree, to: map<string, string>): Tree
    decreases t, 1
  {
    if t.children == [] then
      if t.kind == "identifier" then t.(text := NewName(t.text, to)) else t
    else t.(children := RenameAll(t.children, to))
  }

  function RenameAll(children: seq<Tree>, to: map<string, string>): seq<Tree>
    decreases children, 0
  {
    if children == [] then [] else [Rename(children[0], to)] + RenameAll(children[1..], to)
  }

  function NewNames(names: seq<string>, to: map<string, string>): seq<string> {
    if names == [] then [] else [NewName(names[0], to)] + NewNames(names[1..], to)
  }

  /** The grammar's part: identifiers are leaves, comments are no fields, and what a var spec names is an identifier. */
  ghost predicate WellFormed(t: Tree) {
    && (t.kind == "identifier" ==> t.children == [])
    && (t.kind == "comment" ==> t.field == "")
    && (t.kind == "var_spec" ==> forall c :: c in t.children && c.field == "name" ==> c.kind == "identifier")
    && forall c :: c in t.children ==> WellFormed(c)
  }

  ghost predicate HasIdentifier(t: Tree, x: string) {
    (t.children == [] && t.kind == "identifier" && t.text == x) || exists c :: c in t.children && HasIdentifier(c, x)
  }

  ghost predicate Injective(to: map<string, string>) {
    forall x, y :: x in to && y in to && to[x] == to[y] ==> x == y
  }

  /** No new name is the text of an identifier that keeps its text. */
  ghost predicate Avoids(t: Tree, to: map<string, string>) {
    forall x, y :: x in to && HasIdentifier(t, y) && y !in to ==> to[x] != y
  }

  predicate Moves(to: map<string, string>, x: string) {
    x in to && to[x] != x
  }

  /**
  Wherever a name really changes, it is one of the names whose placeholders are in force there. Inside the body of a
  nested declaration those are the names declared in that body; a comment does not matter.
  */
  ghost predicate InForce(t: Tree, to: map<string, string>, names: seq<string>)
    decreases t, 1
  {
    if t.children == [] then t.kind == "identifier" && Moves(to, t.text) ==> t.text in names
    else InForceAll(t.children, to, names, IsCallable(t))
  }

  ghost predicate InForceAll(children: seq<Tree>, to: map<string, string>, names: seq<string>, bodyAhead: bool)
    decreases children, 0
  {
    children == [] ||
    (var isBody := bodyAhead && children[0].field == "body";
     && (children[0].kind != "comment" ==> InForce(children[0], to, if isBody then Locals(children[0]) else names))
     && InForceAll(children[1..], to, names, bodyAhead && !isBody))
  }

  ghost predicate AllIn(names: seq<string>, to: map<string, string>) {
    forall x :: x in names ==> x in to
  }

  lemma {:induction false} RenameAllShape(children: seq<Tree>, to: map<string, string>)
    ensures |RenameAll(children, to)| == |children|
    ensures forall i :: 0 <= i < |children| ==> RenameAll(children, to)[i] == Rename(children[i], to)
  {
    if children != [] { RenameAllShape(children[1..], to); }
  }

  lemma {:induction false} NewNamesAppend(a: seq<string>, b: seq<string>, to: map<string, string>)
    ensures NewNames(a + b, to) == NewNames(a, to) + NewNames(b, to)
  {
    if a == [] {
      assert a + b == b;
    } else {
      assert (a + b)[1..] == a[1..] + b;
      NewNamesAppend(a[1..], b, to);
    }
  }

  lemma {:induction false} NewNamesMember(names: seq<string>, x: string, to: map<string, string>)
    requires Injective(to) && AllIn(names, to) && x in to
    ensures x in names <==> to[x] in NewNames(names, to)
    ensures x in names ==> IndexOf(NewNames(names, to), to[x]) == IndexOf(names, x)
  {
    if names != [] {
      assert names[0] in names;
      assert AllIn(names[1..], to) by { assert forall y :: y in names[1..] ==> y in names; }
      NewNamesMember(names[1..], x, to);
      assert NewNames(names, to)[1..] == NewNames(names[1..], to);
      assert names == [names[0]] + names[1..];
    }
  }

  lemma {:induction false} NoOldNameIsNew(names: seq<string>, y: string, to: map<string, string>)
    requires AllIn(names, to) && forall x :: x in to ==> to[x] != y
    ensures y !in NewNames(names, to)
  {
    if names != [] {
      assert names[0] in names;
      assert AllIn(names[1..], to) by { assert forall x :: x in names[1..] ==> x in names; }
      NoOldNameIsNew(names[1..], y, to);
    }
  }

  /** First-declaration order maps through the renaming. */
  lemma {:induction false} CollectRenamed(order: seq<string>, names: seq<string>, to: map<string, string>)
    requires Injective(to) && AllIn(order, to) && AllIn(names, to)
    ensures Collect(NewNames(order, to), NewNames(names, to)) == NewNames(Collect(order, names), to)
    decreases |names|
  {
    if names != [] {
      var x, rest := names[0], names[1..];
      assert x in names;
      assert AllIn(rest, to) by { assert forall y :: y in rest ==> y in names; }
      NewNamesMember(order, x, to);
      NewNamesAppend(order, [x], to);
      assert NewNames([x], to) == [to[x]] + NewNames([], to) by { assert [x][1..] == []; }
      var order' := if x in order then order else order + [x];
      assert AllIn(order', to);
      assert NewNames(order', to) == if to[x] in NewNames(order, to) then NewNames(order, to)
                                     else NewNames(order, to) + [to[x]];
      assert NewNames(names, to) == [to[x]] + NewNames(rest, to) && NewNames(names, to)[1..] == NewNames(rest, to);
      CollectRenamed(order', rest, to);
    }
  }

  lemma CollectNothing(order: seq<string>)
    ensures Collect(order, []) == order
  {
  }

  lemma {:induction false} CollectMembers(order: seq<string>, names: seq<string>)
    ensures forall x :: x in Collect(order, names) <==> x in order || x in names
    decreases |names|
  {
    if names != [] {
      assert names == [names[0]] + names[1..];
      CollectMembers(if names[0] in order then order else order + [names[0]], names[1..]);
    }
  }

  lemma {:induction false} ChildByFieldRenamed(children: seq<Tree>, field: string, to: map<string, string>)
    ensures ChildByField(RenameAll(children, to), field) ==
            if ChildByField(children, field).Some? then Some(Rename(ChildByField(children, field).value, to)) else None
    ensures ChildByField(children, field).Some? ==> ChildByField(children, field).value in children
  {
    if children != [] { ChildByFieldRenamed(children[1..], field, to); }
  }

  lemma {:induction false} IdentifierTextsRenamed(children: seq<Tree>, to: map<string, string>)
    requires forall c :: c in children ==> WellFormed(c)
    ensures IdentifierTexts(RenameAll(children, to)) == NewNames(IdentifierTexts(children), to)
  {
    if children != [] {
      assert children[0] in children;
      IdentifierTextsRenamed(children[1..], to);
      var rest := IdentifierTexts(children[1..]);
      var own := if children[0].named && children[0].kind == "identifier" then [children[0].text] else [];
      NewNamesAppend(own, rest, to);
      assert RenameAll(children, to)[1..] == RenameAll(children[1..], to);
    }
  }

  lemma {:induction false} FieldTextsRenamed(children: seq<Tree>, field: string, to: map<string, string>)
    requires forall c :: c in children ==> WellFormed(c) && (c.field == field ==> c.kind == "identifier")
    ensures FieldTexts(RenameAll(children, to), field) == NewNames(FieldTexts(children, field), to)
  {
    if children != [] {
      assert children[0] in children;
      FieldTextsRenamed(children[1..], field, to);
      var rest := FieldTexts(children[1..], field);
      var own := if children[0].field == field then [children[0].text] else [];
      NewNamesAppend(own, rest, to);
      assert RenameAll(children, to)[1..] == RenameAll(children[1..], to);
    }
  }

  lemma {:induction false} SpecNamesRenamed(children: seq<Tree>, to: map<string, string>)
    requires forall c :: c in children ==> WellFormed(c)
    ensures SpecNames(RenameAll(children, to)) == NewNames(SpecNames(children), to)
  {
    if children != [] {
      var spec := children[0];
      assert spec in children;
      SpecNamesRenamed(children[1..], to);
      var own := if spec.named && spec.kind == "var_spec" then FieldTexts(spec.children, "name") else [];
      if spec.named && spec.kind == "var_spec" { FieldTextsRenamed(spec.children, "name", to); }
      NewNamesAppend(own, SpecNames(children[1..]), to);
      assert RenameAll(children, to)[1..] == RenameAll(children[1..], to);
    }
  }

  lemma OwnNamesRenamed(t: Tree, to: map<string, string>)
    requires WellFormed(t)
    ensures OwnNames(Rename(t, to)) == NewNames(OwnNames(t), to)
  {
    ChildByFieldRenamed(t.children, "left", to);
    var left := ChildByField(t.children, "left");
    if t.kind == "short_var_declaration" && left.Some? { IdentifierTextsRenamed(left.value.children, to); }
    if t.kind == "var_declaration" { SpecNamesRenamed(t.children, to); }
  }

  /** Renaming a tree renames its declarations, in place. */
  lemma {:induction false} DeclaredRenamed(t: Tree, to: map<string, string>)
    requires WellFormed(t)
    ensures Declared(Rename(t, to)) == NewNames(Declared(t), to)
    decreases t, 1
  {
    if t.kind != "comment" {
      OwnNamesRenamed(t, to);
      DeclaredAllRenamed(t.children, to);
      NewNamesAppend(OwnNames(t), DeclaredAll(t.children), to);
    }
  }

  lemma {:induction false} DeclaredAllRenamed(children: seq<Tree>, to: map<string, string>)
    requires forall c :: c in children ==> WellFormed(c)
    ensures DeclaredAll(RenameAll(children, to)) == NewNames(DeclaredAll(children), to)
    decreases children, 0
  {
    if children != [] {
      assert children[0] in children;
      DeclaredRenamed(children[0], to);
      DeclaredAllRenamed(children[1..], to);
      NewNamesAppend(Declared(children[0]), DeclaredAll(children[1..]), to);
    }
  }

  lemma LocalsRenamed(body: Tree, to: map<string, string>)
    requires WellFormed(body) && Injective(to) && AllIn(Declared(body), to)
    ensures Locals(Rename(body, to)) == NewNames(Locals(body), to)
    ensures AllIn(Locals(body), to)
  {
    DeclaredRenamed(body, to);
    CollectRenamed([], Declared(body), to);
    CollectMembers([], Declared(body));
  }

  // ---------------------------------------------------------------- what the placeholders say

  /** A node outside every comment declares the name: an identifier left of `:=`, or a name of a `var`. */
  ghost predicate Declares(t: Tree, x: string) {
    t.kind != "comment" && (DeclaresItself(t, x) || exists c :: c in t.children && Declares(c, x))
  }

  ghost predicate DeclaresItself(t: Tree, x: string) {
    || (t.kind == "short_var_declaration" && exists i, n ::
          && 0 <= i < |t.children| && t.children[i].field == "left"
          && (forall j :: 0 <= j < i ==> t.children[j].field != "left")
          && n in t.children[i].children && n.named && n.kind == "identifier" && n.text == x)
    || (t.kind == "var_declaration" && exists spec, n ::
          && spec in t.children && spec.named && spec.kind == "var_spec"
          && n in spec.children && n.field == "name" && n.text == x)
  }

  lemma {:induction false} FirstOfField(children: seq<Tree>, field: string)
    ensures ChildByField(children, field).None? ==> forall c :: c in children ==> c.field != field
    ensures ChildByField(children, field).Some? ==>
              exists i :: && 0 <= i < |children| && children[i] == ChildByField(children, field).value
                          && children[i].field == field && forall j :: 0 <= j < i ==> children[j].field != field
  {
    if children != [] && children[0].field != field {
      FirstOfField(children[1..], field);
      if ChildByField(children[1..], field).Some? {
        var i :| 0 <= i < |children[1..]| && children[1..][i] == ChildByField(children, field).value
                 && children[1..][i].field == field && forall j :: 0 <= j < i ==> children[1..][j].field != field;
        assert children[i + 1] == children[1..][i];
        forall j | 0 <= j < i + 1 ensures children[j].field != field {
          if j > 0 { assert children[j] == children[1..][j - 1]; }
        }
      }
    }
  }

  lemma {:induction false} IdentifierMembers(children: seq<Tree>, x: string)
    ensures x in IdentifierTexts(children) <==>
            exists n :: n in children && n.named && n.kind == "identifier" && n.text == x
  {
    if children != [] { IdentifierMembers(children[1..], x); }
  }

  lemma {:induction false} FieldMembers(children: seq<Tree>, field: string, x: string)
    ensures x in FieldTexts(children, field) <==> exists n :: n in children && n.field == field && n.text == x
  {
    if children != [] { FieldMembers(children[1..], field, x); }
  }

  lemma {:induction false} SpecMembers(children: seq<Tree>, x: string)
    ensures x in SpecNames(children) <==>
            exists spec, n :: && spec in children && spec.named && spec.kind == "var_spec"
                              && n in spec.children && n.field == "name" && n.text == x
  {
    if children != [] {
      SpecMembers(children[1..], x);
      FieldMembers(children[0].children, "name", x);
    }
  }

  lemma OwnNamesAreExact(t: Tree, x: string)
    ensures x in OwnNames(t) <==> DeclaresItself(t, x)
  {
    FirstOfField(t.children, "left");
    SpecMembers(t.children, x);
    var left := ChildByField(t.children, "left");
    if left.Some? { IdentifierMembers(left.value.children, x); }
  }

  /** What is collected from a tree is exactly what is declared in it. */
  lemma {:induction false} DeclaredIsExact(t: Tree, x: string)
    ensures x in Declared(t) <==> Declares(t, x)
    decreases t, 1
  {
    OwnNamesAreExact(t, x);
    DeclaredAllIsExact(t.children, x);
  }

  lemma {:induction false} DeclaredAllIsExact(children: seq<Tree>, x: string)
    ensures x in DeclaredAll(children) <==> exists c :: c in children && Declares(c, x)
    decreases children, 0
  {
    if children != [] {
      DeclaredIsExact(children[0], x);
      DeclaredAllIsExact(children[1..], x);
    }
  }

  lemma {:induction false} CollectIsInOrder(order: seq<string>, names: seq<string>)
    ensures order <= Collect(order, names)
    ensures forall i :: |order| <= i < |Collect(order, names)| ==>
              Collect(order, names)[i] in names && Collect(order, names)[i] !in order
    ensures forall i, j :: |order| <= i < j < |Collect(order, names)| ==>
              IndexOf(names, Collect(order, names)[i]) < IndexOf(names, Collect(order, names)[j])
    decreases |names|
  {
    if names != [] {
      CollectIsInOrder(if names[0] in order then order else order + [names[0]], names[1..]);
    }
  }

  lemma {:induction false} IndexIsPosition(names: seq<string>, i: nat)
    requires i < |names| && forall j, k :: 0 <= j < k < |names| ==> names[j] != names[k]
    ensures IndexOf(names, names[i]) == i
  {
    if i > 0 {
      assert names[0] != names[i] && names[i] == names[1..][i - 1];
      IndexIsPosition(names[1..], i - 1);
    }
  }

  /**
  The placeholders in a body: exactly the names declared in it have one, they are numbered from 0 in the order of their
  first declarations, and no two names share one.
  */
  lemma LocalsAreNumbered(body: Tree)
    ensures var names, holders := Locals(body), Placeholders(Locals(body));
            && (forall x :: x in holders <==> Declares(body, x))
            && (forall i :: 0 <= i < |names| ==> names[i] in holders && holders[names[i]] == "LOCAL_" + Itoa(i))
            && (forall i :: 0 <= i < |names| ==> names[i] in Declared(body))
            && (forall i, j :: 0 <= i < j < |names| ==>
                  IndexOf(Declared(body), names[i]) < IndexOf(Declared(body), names[j]))
            && forall x, y :: x in holders && y in holders && holders[x] == holders[y] ==> x == y
  {
    hide Declares, Declared, IndexOf;
    var names, holders := Locals(body), Placeholders(Locals(body));
    CollectMembers([], Declared(body));
    CollectIsInOrder([], Declared(body));
    forall x ensures x in holders <==> Declares(body, x) { DeclaredIsExact(body, x); }
    forall i | 0 <= i < |names| ensures IndexOf(names, names[i]) == i { IndexIsPosition(names, i); }
    forall x, y | x in holders && y in holders && holders[x] == holders[y] ensures x == y {
      SamePlaceholder(IndexOf(names, x), IndexOf(names, y));
    }
  }

  lemma SamePlaceholder(i: nat, j: nat)
    requires "LOCAL_" + Itoa(i) == "LOCAL_" + Itoa(j)
    ensures i == j
  {
    assert ("LOCAL_" + Itoa(i))[6..] == Itoa(i) && ("LOCAL_" + Itoa(j))[6..] == Itoa(j);
    ItoaInjective(i, j);
  }

  // ---------------------------------------------------------------- renaming keeps the hash

  /**
  Under the old and the new placeholders a renamed leaf reads the same exactly when its name, if moved, is in force.
  */
  lemma LeafKeepsText(t: Tree, to: map<string, string>, names: seq<string>)
    requires t.children == [] && Injective(to) && AllIn(names, to) && Avoids(t, to)
    ensures Normalized(Rename(t, to), Placeholders(NewNames(names, to))) == Normalized(t, Placeholders(names)) <==>
            InForce(t, to, names)
  {
    if t.kind == "identifier" {
      assert HasIdentifier(t, t.text);
      if t.text in to {
        NewNamesMember(names, t.text, to);
        if t.text !in names { assert to[t.text] !in NewNames(names, to); }
      } else {
        NoOldNameIsNew(names, t.text, to);
      }
    }
  }

  lemma {:induction false} NodeKeepsHash(H: string -> string, t: Tree, to: map<string, string>, names: seq<string>)
    requires WellFormed(t) && Injective(to) && AllIn(names, to) && AllIn(Declared(t), to)
    requires Avoids(t, to) && InForce(t, to, names) && t.kind != "comment"
    ensures HashNode(H, Rename(t, to), Placeholders(NewNames(names, to))) == HashNode(H, t, Placeholders(names))
    decreases t, 1
  {
    if t.children == [] {
      LeafKeepsText(t, to, names);
    } else {
      RenameAllShape(t.children, to);
      ChildByFieldRenamed(t.children, "body", to);
      assert AllIn(DeclaredAll(t.children), to) by {
        assert forall x :: x in DeclaredAll(t.children) ==> x in Declared(t);
      }
      forall c | c in t.children ensures Avoids(c, to) {
        assert forall y :: HasIdentifier(c, y) ==> HasIdentifier(t, y);
      }
      var body := ChildByField(t.children, "body");
      if IsCallable(t) && body.Some? { BodyLocalsRenamed(t.children, body.value, to); }
      assert NewNames([], to) == [];
      ChildrenKeepHash(H, t.children, to, names, BodyNames(t), IsCallable(t));
    }
  }

  lemma {:induction false} DeclaredInChild(children: seq<Tree>, c: Tree, to: map<string, string>)
    requires c in children && AllIn(DeclaredAll(children), to)
    ensures AllIn(Declared(c), to)
  {
    assert forall x :: x in Declared(children[0]) ==> x in DeclaredAll(children);
    if c != children[0] {
      assert forall x :: x in DeclaredAll(children[1..]) ==> x in DeclaredAll(children);
      DeclaredInChild(children[1..], c, to);
    }
  }

  lemma BodyLocalsRenamed(children: seq<Tree>, body: Tree, to: map<string, string>)
    requires body in children && WellFormed(body) && Injective(to) && AllIn(DeclaredAll(children), to)
    ensures Locals(Rename(body, to)) == NewNames(Locals(body), to)
  {
    DeclaredInChild(children, body, to);
    LocalsRenamed(body, to);
  }

  /** `inner` are the names of the body, as long as it is still ahead among the children. */
  lemma {:induction false} ChildrenKeepHash(H: string -> string, children: seq<Tree>, to: map<string, string>,
                                            names: seq<string>,
                                            inner: seq<string>, bodyAhead: bool)
    requires forall c :: c in children ==> WellFormed(c) && Avoids(c, to)
    requires Injective(to) && AllIn(names, to) && AllIn(DeclaredAll(children), to)
    requires bodyAhead && ChildByField(children, "body").Some? ==> inner == Locals(ChildByField(children, "body").value)
    requires InForceAll(children, to, names, bodyAhead)
    ensures HashAll(H, RenameAll(children, to), Placeholders(NewNames(names, to)), Placeholders(NewNames(inner, to)),
                    bodyAhead) ==
            HashAll(H, children, Placeholders(names), Placeholders(inner), bodyAhead)
    decreases children, 0
  {
    if children != [] {
      var child := children[0];
      var isBody := bodyAhead && child.field == "body";
      assert child in children && RenameAll(children, to)[1..] == RenameAll(children[1..], to);
      DeclaredInChild(children, child, to);
      assert AllIn(DeclaredAll(children[1..]), to) by {
        assert forall x :: x in DeclaredAll(children[1..]) ==> x in DeclaredAll(children);
      }
      if child.kind != "comment" {
        if isBody { LocalsRenamed(child, to); }
        NodeKeepsHash(H, child, to, if isBody then inner else names);
      }
      ChildrenKeepHash(H, children[1..], to, names, inner, bodyAhead && !isBody);
    }
  }

  /** Renaming inside the body of a callable, and nowhere else. */
  function RenameBody(children: seq<Tree>, to: map<string, string>): seq<Tree> {
    if children == [] then []
    else if children[0].field == "body" then [Rename(children[0], to)] + children[1..]
    else [children[0]] + RenameBody(children[1..], to)
  }

  lemma {:induction false} BodyOnlyKeepsHash(H: string -> string, children: seq<Tree>, body: Tree,
                                             to: map<string, string>, locals: map<string, string>)
    requires ChildByField(children, "body") == Some(body) && body.kind != "comment"
    requires WellFormed(body) && Injective(to) && AllIn(Declared(body), to) && Avoids(body, to)
    requires InForce(body, to, Locals(body))
    ensures ChildByField(RenameBody(children, to), "body") == Some(Rename(body, to))
    ensures HashAll(H, RenameBody(children, to), locals, Placeholders(NewNames(Locals(body), to)), true) ==
            HashAll(H, children, locals, Placeholders(Locals(body)), true)
  {
    if children[0].field == "body" {
      LocalsRenamed(body, to);
      NodeKeepsHash(H, body, to, Locals(body));
      assert RenameBody(children, to)[1..] == children[1..];
      InnerUnused(H, children[1..], locals, Placeholders(NewNames(Locals(body), to)), Placeholders(Locals(body)));
    } else {
      BodyOnlyKeepsHash(H, children[1..], body, to, locals);
      assert RenameBody(children, to)[1..] == RenameBody(children[1..], to);
    }
  }

  /** Past the body, the callable's own locals are out of scope. */
  lemma {:induction false} InnerUnused(H: string -> string, children: seq<Tree>, locals: map<string, string>,
                                       a: map<string, string>, b: map<string, string>)
    ensures HashAll(H, children, locals, a, false) == HashAll(H, children, locals, b, false)
  {
    if children != [] { InnerUnused(H, children[1..], locals, a, b); }
  }

  // ---------------------------------------------------------------- what else a renaming shows

  /** No digest is the beginning of another's; digests of one length without collisions are like that. */
  ghost predicate PrefixFree(H: string -> string) {
    forall x, y :: H(x) <= H(y) ==> x == y
  }

  /** An encoding that marks where it ends. */
  function Marked(x: string): string {
    if x == "" then "." else ['-', x[0]] + Marked(x[1..])
  }

  /** There are such digests, so what is proved under one is proved of something. */
  lemma MarkedIsPrefixFree()
    ensures PrefixFree(Marked)
  {
    forall x, y | Marked(x) <= Marked(y) ensures x == y { MarkedTellsApart(x, y); }
  }

  lemma {:induction false} MarkedTellsApart(x: string, y: string)
    requires Marked(x) <= Marked(y)
    ensures x == y
  {
    assert Marked(x)[0] == Marked(y)[0];
    if x != "" && y != "" {
      assert Marked(x)[1] == Marked(y)[1] && Marked(x)[2..] == Marked(x[1..]) && Marked(y)[2..] == Marked(y[1..]);
      MarkedTellsApart(x[1..], y[1..]);
      assert x == [x[0]] + x[1..] && y == [y[0]] + y[1..];
    }
  }

  lemma FirstDigestIsReadBack(H: string -> string, u: string, v: string, x: string, y: string)
    requires PrefixFree(H) && H(u) + x == H(v) + y
    ensures u == v && x == y
  {
    var whole := H(u) + x;
    assert H(u) == whole[..|H(u)|] && H(v) == whole[..|H(v)|];
    assert H(u) <= H(v) || H(v) <= H(u);
    assert x == whole[|H(u)|..] && y == whole[|H(v)|..];
  }

  lemma SamePrefix(a: string, x: string, y: string)
    requires a + x == a + y
    ensures x == y
  {
    assert x == (a + x)[|a|..] && y == (a + y)[|a|..];
  }

  lemma RenameKeepsKind(t: Tree, to: map<string, string>)
    ensures Rename(t, to).kind == t.kind && Rename(t, to).field == t.field
  {
  }

  /** If a renamed tree hashes like the original, every moved name was in force. */
  lemma {:induction false} NodeShowsMoves(H: string -> string, t: Tree, to: map<string, string>, names: seq<string>)
    requires PrefixFree(H) && WellFormed(t) && Injective(to) && AllIn(names, to) && AllIn(Declared(t), to)
    requires Avoids(t, to) && t.kind != "comment"
    requires HashNode(H, Rename(t, to), Placeholders(NewNames(names, to))) == HashNode(H, t, Placeholders(names))
    ensures InForce(t, to, names)
    decreases t, 1
  {
    hide PrefixFree, Placeholders, HashAll, Declared, DeclaredAll, WellFormed, Avoids;
    RenameKeepsKind(t, to);
    var before, after :=
      Content(H, t, Placeholders(names)), Content(H, Rename(t, to), Placeholders(NewNames(names, to)));
    assert H(t.kind + after) + "" == H(t.kind + before) + "";
    FirstDigestIsReadBack(H, t.kind + after, t.kind + before, "", "");
    SamePrefix(t.kind, after, before);
    if t.children == [] {
      LeafKeepsText(t, to, names);
    } else {
      RenamedContent(H, t, to, names);
      ChildrenFit(t, to);
      ChildrenShowMoves(H, t.children, to, names, BodyNames(t), IsCallable(t));
    }
  }

  /** The content of a renamed inner node, with the renamed names of its body. */
  lemma RenamedContent(H: string -> string, t: Tree, to: map<string, string>, names: seq<string>)
    requires WellFormed(t) && Injective(to) && AllIn(Declared(t), to) && t.kind != "comment" && t.children != []
    ensures Content(H, Rename(t, to), Placeholders(NewNames(names, to)))
              == HashAll(H, RenameAll(t.children, to), Placeholders(NewNames(names, to)),
                         Placeholders(NewNames(BodyNames(t), to)), IsCallable(t))
  {
    hide HashAll, Placeholders;
    RenameAllShape(t.children, to);
    ChildByFieldRenamed(t.children, "body", to);
    assert AllIn(DeclaredAll(t.children), to) by {
      assert forall x :: x in DeclaredAll(t.children) ==> x in Declared(t);
    }
    var body := ChildByField(t.children, "body");
    if IsCallable(t) && body.Some? { BodyLocalsRenamed(t.children, body.value, to); }
    assert NewNames([], to) == [];
  }

  lemma ChildrenFit(t: Tree, to: map<string, string>)
    requires WellFormed(t) && AllIn(Declared(t), to) && Avoids(t, to) && t.kind != "comment"
    ensures AllIn(DeclaredAll(t.children), to) && forall c :: c in t.children ==> WellFormed(c) && Avoids(c, to)
  {
    assert forall x :: x in DeclaredAll(t.children) ==> x in Declared(t);
    forall c | c in t.children ensures Avoids(c, to) {
      assert forall y :: HasIdentifier(c, y) ==> HasIdentifier(t, y);
    }
  }

  lemma {:induction false} ChildrenShowMoves(H: string -> string, children: seq<Tree>, to: map<string, string>,
                                             names: seq<string>,
                                             inner: seq<string>, bodyAhead: bool)
    requires PrefixFree(H) && forall c :: c in children ==> WellFormed(c) && Avoids(c, to)
    requires Injective(to) && AllIn(names, to) && AllIn(DeclaredAll(children), to)
    requires bodyAhead && ChildByField(children, "body").Some? ==> inner == Locals(ChildByField(children, "body").value)
    requires HashAll(H, RenameAll(children, to), Placeholders(NewNames(names, to)), Placeholders(NewNames(inner, to)),
                     bodyAhead) ==
             HashAll(H, children, Placeholders(names), Placeholders(inner), bodyAhead)
    ensures InForceAll(children, to, names, bodyAhead)
    decreases children, 0
  {
    hide PrefixFree, Placeholders, WellFormed, Avoids, Content, Declared;
    if children != [] {
      var child := children[0];
      var isBody := bodyAhead && child.field == "body";
      assert child in children && RenameAll(children, to)[1..] == RenameAll(children[1..], to);
      RenameKeepsKind(child, to);
      DeclaredInChild(children, child, to);
      assert AllIn(DeclaredAll(children[1..]), to) by {
        assert forall x :: x in DeclaredAll(children[1..]) ==> x in DeclaredAll(children);
      }
      var scope := if isBody then inner else names;
      var before := HashAll(H, children[1..], Placeholders(names), Placeholders(inner), bodyAhead && !isBody);
      var after := HashAll(H, RenameAll(children[1..], to), Placeholders(NewNames(names, to)),
                           Placeholders(NewNames(inner, to)), bodyAhead && !isBody);
      if child.kind == "comment" {
        assert "" + before == before && "" + after == after;
      } else {
        if isBody { LocalsRenamed(child, to); }
        var u := child.kind + Content(H, Rename(child, to), Placeholders(NewNames(scope, to)));
        var v := child.kind + Content(H, child, Placeholders(scope));
        FirstDigestIsReadBack(H, u, v, after, before);
        NodeShowsMoves(H, child, to, scope);
      }
      ChildrenShowMoves(H, children[1..], to, names, inner, bodyAhead && !isBody);
    }
  }

  lemma {:induction false} BodyShowsMoves(H: string -> string, children: seq<Tree>, body: Tree, to: map<string, string>,
                                          locals: map<string, string>)
    requires PrefixFree(H) && ChildByField(children, "body") == Some(body) && body.kind != "comment"
    requires WellFormed(body) && Injective(to) && AllIn(Declared(body), to) && Avoids(body, to)
    requires HashAll(H, RenameBody(children, to), locals, Placeholders(NewNames(Locals(body), to)), true) ==
             HashAll(H, children, locals, Placeholders(Locals(body)), true)
    ensures InForce(body, to, Locals(body))
  {
    hide PrefixFree, WellFormed, Avoids, Content, Declared, InForce, Placeholders;
    var rest := children[1..];
    if children[0].field == "body" {
      LocalsRenamed(body, to);
      RenameKeepsKind(body, to);
      assert RenameBody(children, to)[1..] == rest;
      var plain, renamed := Placeholders(Locals(body)), Placeholders(NewNames(Locals(body), to));
      InnerUnused(H, rest, locals, renamed, plain);
      FirstDigestIsReadBack(H, body.kind + Content(H, Rename(body, to), renamed), body.kind + Content(H, body, plain),
                            HashAll(H, rest, locals, renamed, false), HashAll(H, rest, locals, plain, false));
      NodeShowsMoves(H, body, to, Locals(body));
    } else {
      assert RenameBody(children, to)[1..] == RenameBody(rest, to);
      var first := if children[0].kind == "comment" then "" else HashNode(H, children[0], locals);
      SamePrefix(first, HashAll(H, RenameBody(rest, to), locals, Placeholders(NewNames(Locals(body), to)), true),
                 HashAll(H, rest, locals, Placeholders(Locals(body)), true));
      BodyShowsMoves(H, rest, body, to, locals);
    }
  }

  /**
  Renaming identifiers of a body by any injective map that covers its collected locals, with new names that avoid the
  body's other identifiers, leaves the hash of the declaration as it was, in every context, exactly when every name
  that really changes is a collected local wherever it occurs. That it then stays needs nothing of the digest.
  */
  lemma RenamingLocalsKeepsHash(H: string -> string, t: Tree, body: Tree, to: map<string, string>,
                                locals: map<string, string>)
    requires IsCallable(t) && WellFormed(t) && ChildByField(t.children, "body") == Some(body)
    requires Elements(Locals(body)) <= to.Keys && Injective(to) && Avoids(body, to)
    ensures InForce(body, to, Locals(body)) ==>
              HashNode(H, t.(children := RenameBody(t.children, to)), locals) == HashNode(H, t, locals)
    ensures PrefixFree(H)
            && HashNode(H, t.(children := RenameBody(t.children, to)), locals) == HashNode(H, t, locals) ==>
              InForce(body, to, Locals(body))
  {
    hide PrefixFree, InForce, Avoids, Rename, Placeholders, Injective, Declared;
    ChildByFieldRenamed(t.children, "body", to);
    CollectMembers([], Declared(body));
    assert body.field == "body" by { FoundHasField(t.children, "body"); }
    assert AllIn(Declared(body), to);
    var renamed := t.(children := RenameBody(t.children, to));
    BodyFoundRenamed(t.children, body, to);
    LocalsRenamed(body, to);
    if InForce(body, to, Locals(body)) { BodyOnlyKeepsHash(H, t.children, body, to, locals); }
    if PrefixFree(H) && HashNode(H, renamed, locals) == HashNode(H, t, locals) {
      assert H(t.kind + Content(H, renamed, locals)) + "" == H(t.kind + Content(H, t, locals)) + "";
      FirstDigestIsReadBack(H, t.kind + Content(H, renamed, locals), t.kind + Content(H, t, locals), "", "");
      SamePrefix(t.kind, Content(H, renamed, locals), Content(H, t, locals));
      BodyShowsMoves(H, t.children, body, to, locals);
    }
  }

  lemma {:induction false} BodyFoundRenamed(children: seq<Tree>, body: Tree, to: map<string, string>)
    requires ChildByField(children, "body") == Some(body)
    ensures RenameBody(children, to) != [] && ChildByField(RenameBody(children, to), "body") == Some(Rename(body, to))
  {
    if children[0].field != "body" { BodyFoundRenamed(children[1..], body, to); }
  }

  lemma {:induction false} FoundHasField(children: seq<Tree>, field: string)
    ensures ChildByField(children, field).Some? ==> ChildByField(children, field).value.field == field
  {
    if children != [] && children[0].field != field { FoundHasField(children[1..], field); }
  }

  /** In a body without nested declarations, as Go has them, every occurrence is in force. */
  ghost predicate NoCallables(t: Tree) {
    !IsCallable(t) && forall c :: c in t.children ==> NoCallables(c)
  }

  lemma {:induction false} FlatBodyIsInForce(t: Tree, to: map<string, string>, names: seq<string>)
    requires NoCallables(t) && forall x :: Moves(to, x) ==> x in names
    ensures InForce(t, to, names)
    decreases t, 1
  {
    FlatChildrenAreInForce(t.children, to, names);
  }

  lemma {:induction false} FlatChildrenAreInForce(children: seq<Tree>, to: map<string, string>, names: seq<string>)
    requires (forall c :: c in children ==> NoCallables(c)) && forall x :: Moves(to, x) ==> x in names
    ensures InForceAll(children, to, names, false)
    decreases children, 0
  {
    if children != [] {
      assert children[0] in children;
      FlatBodyIsInForce(children[0], to, names);
      FlatChildrenAreInForce(children[1..], to, names);
    }
  }

  // ---------------------------------------------------------------- comments

  /**
  The tree a parser gives once the comments are cut from the source. `rest` is the source text then left to a node,
  which only matters to a node that has lost all its children.
  */
  function WithoutComments(t: Tree, rest: Tree -> string): Tree
    decreases t, 1
  {
    if t.children == [] then t else t.(text := rest(t), children := DropComments(t.children, rest))
  }

  function DropComments(children: seq<Tree>, rest: Tree -> string): seq<Tree>
    decreases children, 0
  {
    if children == [] then []
    else
      (if children[0].kind == "comment" then [] else [WithoutComments(children[0], rest)])
        + DropComments(children[1..], rest)
  }

  ghost predicate OnlyComments(t: Tree) {
    t.children != [] && forall c :: c in t.children ==> c.kind == "comment"
  }

  /** Outside comments, a node that held nothing but comments has no text left. */
  ghost predicate NothingLeft(t: Tree, rest: Tree -> string) {
    (OnlyComments(t) ==> rest(t) == "") && forall c :: c in t.children && c.kind != "comment" ==> NothingLeft(c, rest)
  }

  lemma DropStep(children: seq<Tree>, rest: Tree -> string)
    requires children != []
    ensures children[0].kind == "comment" ==> DropComments(children, rest) == DropComments(children[1..], rest)
    ensures children[0].kind != "comment" ==>
              && DropComments(children, rest) != []
              && DropComments(children, rest)[0] == WithoutComments(children[0], rest)
              && DropComments(children, rest)[1..] == DropComments(children[1..], rest)
  {
    assert [] + DropComments(children[1..], rest) == DropComments(children[1..], rest);
  }

  lemma {:induction false} DropsAllComments(children: seq<Tree>, rest: Tree -> string)
    ensures DropComments(children, rest) == [] <==> forall c :: c in children ==> c.kind == "comment"
  {
    if children != [] {
      DropStep(children, rest);
      DropsAllComments(children[1..], rest);
      assert children == [children[0]] + children[1..];
    }
  }

  lemma {:induction false} DropKeepsIdentifiers(children: seq<Tree>, rest: Tree -> string)
    requires forall c :: c in children ==> WellFormed(c)
    ensures IdentifierTexts(DropComments(children, rest)) == IdentifierTexts(children)
  {
    if children != [] {
      assert children[0] in children;
      DropStep(children, rest);
      DropKeepsIdentifiers(children[1..], rest);
      assert [] + IdentifierTexts(children[1..]) == IdentifierTexts(children[1..]);
    }
  }

  lemma {:induction false} DropKeepsFieldTexts(children: seq<Tree>, field: string, rest: Tree -> string)
    requires field != "" && forall c :: c in children ==> WellFormed(c) && (c.field == field ==> c.kind == "identifier")
    ensures FieldTexts(DropComments(children, rest), field) == FieldTexts(children, field)
  {
    if children != [] {
      assert children[0] in children;
      DropStep(children, rest);
      DropKeepsFieldTexts(children[1..], field, rest);
      assert [] + FieldTexts(children[1..], field) == FieldTexts(children[1..], field);
    }
  }

  lemma {:induction false} DropKeepsSpecNames(children: seq<Tree>, rest: Tree -> string)
    requires forall c :: c in children ==> WellFormed(c)
    ensures SpecNames(DropComments(children, rest)) == SpecNames(children)
  {
    if children != [] {
      var c := children[0];
      assert c in children;
      DropStep(children, rest);
      DropKeepsSpecNames(children[1..], rest);
      CutKeepsKind(c, rest);
      assert [] + SpecNames(children[1..]) == SpecNames(children[1..]);
      if c.kind == "var_spec" { DropKeepsFieldTexts(c.children, "name", rest); }
    }
  }

  lemma {:induction false} DropKeepsField(children: seq<Tree>, field: string, rest: Tree -> string)
    requires field != "" && forall c :: c in children ==> WellFormed(c)
    ensures ChildByField(DropComments(children, rest), field) ==
            if ChildByField(children, field).Some? then Some(WithoutComments(ChildByField(children, field).value, rest))
            else None
  {
    if children != [] {
      assert children[0] in children;
      DropStep(children, rest);
      DropKeepsField(children[1..], field, rest);
      CutKeepsKind(children[0], rest);
    }
  }

  lemma DropKeepsOwnNames(t: Tree, rest: Tree -> string)
    requires WellFormed(t)
    ensures OwnNames(WithoutComments(t, rest)) == OwnNames(t)
  {
    DropKeepsField(t.children, "left", rest);
    DropKeepsSpecNames(t.children, rest);
    ChildByFieldRenamed(t.children, "left", map[]);
    var left := ChildByField(t.children, "left");
    if left.Some? { DropKeepsIdentifiers(left.value.children, rest); }
  }

  lemma {:induction false} DropKeepsDeclared(t: Tree, rest: Tree -> string)
    requires WellFormed(t)
    ensures Declared(WithoutComments(t, rest)) == Declared(t)
    decreases t, 1
  {
    if t.children != [] && t.kind != "comment" {
      DropKeepsOwnNames(t, rest);
      DropKeepsDeclaredAll(t.children, rest);
    }
  }

  lemma {:induction false} DropKeepsDeclaredAll(children: seq<Tree>, rest: Tree -> string)
    requires forall c :: c in children ==> WellFormed(c)
    ensures DeclaredAll(DropComments(children, rest)) == DeclaredAll(children)
    decreases children, 0
  {
    if children != [] {
      assert children[0] in children;
      DropStep(children, rest);
      DropKeepsDeclared(children[0], rest);
      DropKeepsDeclaredAll(children[1..], rest);
      assert [] + DeclaredAll(children[1..]) == DeclaredAll(children[1..]);
    }
  }

  lemma BodyNamesWithoutComments(t: Tree, rest: Tree -> string)
    requires WellFormed(t)
    ensures BodyNames(WithoutComments(t, rest)) == BodyNames(t)
  {
    DropKeepsField(t.children, "body", rest);
    CutKeepsKind(t, rest);
    ChildByFieldRenamed(t.children, "body", map[]);
    var body := ChildByField(t.children, "body");
    if body.Some? { DropKeepsDeclared(body.value, rest); }
  }

  /**
  The content of a tree that held nothing but comments is what text is left of it; otherwise it is that of its
  children.
  */
  lemma ContentWithoutComments(H: string -> string, t: Tree, rest: Tree -> string, locals: map<string, string>)
    requires WellFormed(t) && t.children != []
    ensures OnlyComments(t) ==> Content(H, WithoutComments(t, rest), locals) == rest(t) && Content(H, t, locals) == ""
    ensures !OnlyComments(t) ==>
              Content(H, WithoutComments(t, rest), locals)
              == HashAll(H, DropComments(t.children, rest), locals, Placeholders(BodyNames(t)), IsCallable(t))
  {
    DropsAllComments(t.children, rest);
    BodyNamesWithoutComments(t, rest);
    if OnlyComments(t) { CommentsHashToNothing(H, t.children, locals, Placeholders(BodyNames(t)), IsCallable(t)); }
  }

  lemma {:induction false} CommentsHashToNothing(H: string -> string, children: seq<Tree>, locals: map<string, string>,
                                                 inner: map<string, string>, bodyAhead: bool)
    requires forall c :: c in children ==> c.kind == "comment" && WellFormed(c)
    ensures HashAll(H, children, locals, inner, bodyAhead) == ""
  {
    if children != [] {
      assert children[0] in children;
      CommentsHashToNothing(H, children[1..], locals, inner, bodyAhead);
    }
  }

  lemma {:induction false} NodeWithoutComments(H: string -> string, t: Tree, rest: Tree -> string,
                                               locals: map<string, string>)
    requires WellFormed(t)
    ensures NothingLeft(t, rest) ==> HashNode(H, WithoutComments(t, rest), locals) == HashNode(H, t, locals)
    ensures PrefixFree(H) && HashNode(H, WithoutComments(t, rest), locals) == HashNode(H, t, locals) ==>
              NothingLeft(t, rest)
    decreases t, 1
  {
    hide PrefixFree, HashAll, Placeholders, BodyNames, DropComments;
    if t.children != [] {
      var cut := WithoutComments(t, rest);
      ContentWithoutComments(H, t, rest, locals);
      ChildrenWithoutComments(H, t.children, rest, locals, Placeholders(BodyNames(t)), IsCallable(t));
      if PrefixFree(H) && HashNode(H, cut, locals) == HashNode(H, t, locals) {
        assert H(t.kind + Content(H, cut, locals)) + "" == H(t.kind + Content(H, t, locals)) + "";
        FirstDigestIsReadBack(H, t.kind + Content(H, cut, locals), t.kind + Content(H, t, locals), "", "");
        SamePrefix(t.kind, Content(H, cut, locals), Content(H, t, locals));
      }
    }
  }

  lemma {:induction false} ChildrenWithoutComments(H: string -> string, children: seq<Tree>, rest: Tree -> string,
                                                   locals: map<string, string>, inner: map<string, string>,
                                                   bodyAhead: bool)
    requires forall c :: c in children ==> WellFormed(c)
    ensures (forall c :: c in children && c.kind != "comment" ==> NothingLeft(c, rest)) ==>
              HashAll(H, DropComments(children, rest), locals, inner, bodyAhead) ==
                HashAll(H, children, locals, inner, bodyAhead)
    ensures PrefixFree(H) && HashAll(H, DropComments(children, rest), locals, inner, bodyAhead) ==
            HashAll(H, children, locals, inner, bodyAhead) ==>
              forall c :: c in children && c.kind != "comment" ==> NothingLeft(c, rest)
    decreases children, 0
  {
    hide PrefixFree, NothingLeft, Content, WithoutComments;
    if children != [] {
      var c := children[0];
      assert c in children && forall d :: d in children <==> d == c || d in children[1..];
      var isBody := bodyAhead && c.field == "body";
      var scope := if isBody then inner else locals;
      DropStep(children, rest);
      ChildrenWithoutComments(H, children[1..], rest, locals, inner, bodyAhead && !isBody);
      var before := HashAll(H, children[1..], locals, inner, bodyAhead && !isBody);
      var after := HashAll(H, DropComments(children[1..], rest), locals, inner, bodyAhead && !isBody);
      if c.kind == "comment" {
        assert "" + before == before;
      } else {
        CutKeepsKind(c, rest);
        NodeWithoutComments(H, c, rest, scope);
        if PrefixFree(H) && HashAll(H, DropComments(children, rest), locals, inner, bodyAhead) ==
          HashAll(H, children, locals, inner, bodyAhead) {
          FirstDigestIsReadBack(H, c.kind + Content(H, WithoutComments(c, rest), scope), c.kind + Content(H, c, scope),
                                after, before);
        }
      }
    }
  }

  lemma CutKeepsKind(t: Tree, rest: Tree -> string)
    ensures WithoutComments(t, rest).kind == t.kind && WithoutComments(t, rest).field == t.field
  {
  }

  /**
  Cutting the comments from the source leaves the hash as it was exactly when no node that held nothing but comments
  has text left. That it then stays needs nothing of the digest.
  */
  lemma RemovingCommentsKeepsHash(H: string -> string, t: Tree, rest: Tree -> string, locals: map<string, string>)
    requires WellFormed(t)
    ensures NothingLeft(t, rest) ==> HashNode(H, WithoutComments(t, rest), locals) == HashNode(H, t, locals)
    ensures PrefixFree(H) && HashNode(H, WithoutComments(t, rest), locals) == HashNode(H, t, locals) ==>
              NothingLeft(t, rest)
  {
    NodeWithoutComments(H, t, rest, locals);
  }

  /**
  A parser leaves no text to a node without children that is no token, so for parsed trees the law has no exception.
  */
  lemma {:induction false} ParsedTreesHaveNothingLeft(t: Tree, rest: Tree -> string)
    requires forall n: Tree :: OnlyComments(n) ==> rest(n) == ""
    ensures NothingLeft(t, rest)
  {
    forall c | c in t.children && c.kind != "comment" ensures NothingLeft(c, rest) {
      ParsedTreesHaveNothingLeft(c, rest);
    }
  }

  function NoText(t: Tree): string {
    ""
  }

  /** Two trees that are the same once their comments are cut have the same hash. */
  lemma CommentsDoNotMatter(H: string -> string, a: Tree, b: Tree, locals: map<string, string>)
    requires WellFormed(a) && WellFormed(b) && WithoutComments(a, NoText) == WithoutComments(b, NoText)
    ensures HashNode(H, a, locals) == HashNode(H, b, locals)
  {
    ParsedTreesHaveNothingLeft(a, NoText);
    ParsedTreesHaveNothingLeft(b, NoText);
    RemovingCommentsKeepsHash(H, a, NoText, locals);
    RemovingCommentsKeepsHash(H, b, NoText, locals);
  }
}
