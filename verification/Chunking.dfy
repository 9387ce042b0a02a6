/**
Structural chunking: an entity within budget is one chunk, a larger one is split along its syntax tree, and small
neighbouring children share a chunk.

Text is a sequence of characters and whitespace is an arbitrary test. A syntax node has a span and ordered children
inside it, separated only by whitespace.
*/
module Chunking {
  import opened Common

  datatype Node = Node(start: nat, end: nat, kids: seq<Node>)

  datatype Text = Text(source: string, white: char -> bool, budget: nat)

  datatype CodeChunk = CodeChunk(entityId: string, chunkIndex: nat, text: string, charCount: nat)

  /** A chunk as a span of the source. */
  datatype Piece = Piece(lo: nat, hi: nat, count: nat)

  /** How the children of a split node are dealt out: one split further, or a run of them merged. */
  datatype Group = Split(kid: nat) | Merge(first: nat, end: nat)

  // ---------------------------------------------------------------- counting

  /** The non-whitespace characters. */
  function Ink(white: char -> bool, text: string): nat {
    if text == "" then 0
    else Ink(white, text[..|text| - 1]) + if white(text[|text| - 1]) then 0 else 1
  }

  /** The positions that are not whitespace. */
  function InkAt(white: char -> bool, text: string): set<nat> {
    set i: nat | i < |text| && !white(text[i])
  }

  lemma {:induction false} InkCounts(white: char -> bool, text: string)
    ensures Ink(white, text) == |InkAt(white, text)|
  {
    if text != "" {
      var last := |text| - 1;
      InkCounts(white, text[..last]);
      assert InkAt(white, text) == InkAt(white, text[..last]) + if white(text[last]) then {} else {last};
    }
  }

  lemma {:induction false} InkAdds(white: char -> bool, a: string, b: string)
    ensures Ink(white, a + b) == Ink(white, a) + Ink(white, b)
  {
    if b == "" {
      assert a + b == a;
    } else {
      assert (a + b)[..|a + b| - 1] == a + b[..|b| - 1];
      InkAdds(white, a, b[..|b| - 1]);
    }
  }

  function SpanInk(t: Text, lo: nat, hi: nat): nat
    requires lo <= hi <= |t.source|
  {
    Ink(t.white, t.source[lo..hi])
  }

  lemma SpanInkAdds(t: Text, lo: nat, mid: nat, hi: nat)
    requires lo <= mid <= hi <= |t.source|
    ensures SpanInk(t, lo, hi) == SpanInk(t, lo, mid) + SpanInk(t, mid, hi)
  {
    assert t.source[lo..hi] == t.source[lo..mid] + t.source[mid..hi];
    InkAdds(t.white, t.source[lo..mid], t.source[mid..hi]);
  }

  predicate Blank(t: Text, lo: nat, hi: nat)
    requires lo <= hi <= |t.source|
  {
    forall i :: lo <= i < hi ==> t.white(t.source[i])
  }

  lemma {:induction false} BlankHasNoInk(t: Text, lo: nat, hi: nat)
    requires lo <= hi <= |t.source|
    ensures Blank(t, lo, hi) <==> SpanInk(t, lo, hi) == 0
  {
    if lo < hi {
      BlankHasNoInk(t, lo, hi - 1);
      assert t.source[lo..hi][..hi - lo - 1] == t.source[lo..hi - 1];
    }
  }

  // ---------------------------------------------------------------- well-formed trees

  /** Where child `i` may start: the node's start, or the end of the child before it. */
  function Edge(n: Node, i: nat): nat
    requires i <= |n.kids|
  {
    if i == 0 then n.start else n.kids[i - 1].end
  }

  predicate WellFormed(t: Text, n: Node) {
    && n.start <= n.end <= |t.source|
    && (forall i :: 0 <= i < |n.kids| ==>
          WellFormed(t, n.kids[i]) && Edge(n, i) <= n.kids[i].start && Blank(t, Edge(n, i), n.kids[i].start))
    && (n.kids != [] ==> Edge(n, |n.kids|) <= n.end && Blank(t, Edge(n, |n.kids|), n.end))
  }

  function Count(t: Text, n: Node): nat
    requires WellFormed(t, n)
  {
    SpanInk(t, n.start, n.end)
  }

  function Counts(t: Text, n: Node): (c: seq<nat>)
    requires WellFormed(t, n)
    ensures |c| == |n.kids|
  {
    seq(|n.kids|, i requires 0 <= i < |n.kids| => Count(t, n.kids[i]))
  }

  // ---------------------------------------------------------------- the greedy grouping

  function Flush(first: nat, end: nat): seq<Group> {
    if first < end then [Merge(first, end)] else []
  }

  /** The groups of children `i..`, with the open run `first..i` of weight `acc`. */
  function GroupsFrom(counts: seq<nat>, budget: nat, i: nat, first: nat, acc: nat): seq<Group>
    requires first <= i <= |counts|
    decreases |counts| - i
  {
    if i == |counts| then Flush(first, i)
    else if counts[i] > budget then Flush(first, i) + [Split(i)] + GroupsFrom(counts, budget, i + 1, i + 1, 0)
    else if first < i && acc + counts[i] > budget then
      [Merge(first, i)] + GroupsFrom(counts, budget, i + 1, i, counts[i])
    else GroupsFrom(counts, budget, i + 1, first, acc + counts[i])
  }

  function Begins(g: Group): nat {
    match g case Split(k) => k case Merge(a, _) => a
  }

  function Ends(g: Group): nat {
    match g case Split(k) => k + 1 case Merge(_, b) => b
  }

  /** The groups deal out children `lo..hi`, each once, in order. */
  predicate Deals(groups: seq<Group>, lo: nat, hi: nat) {
    if groups == [] then lo == hi
    else Begins(groups[0]) == lo && lo < Ends(groups[0]) <= hi && Deals(groups[1..], Ends(groups[0]), hi)
  }

  function Sum(counts: seq<nat>, a: nat, b: nat): nat
    requires a <= b <= |counts|
  {
    if a == b then 0 else Sum(counts, a, b - 1) + counts[b - 1]
  }

  predicate Bounded(groups: seq<Group>, n: nat) {
    forall i :: 0 <= i < |groups| ==> Begins(groups[i]) < Ends(groups[i]) <= n
  }

  predicate Justified(counts: seq<nat>, budget: nat, g: Group)
    requires Begins(g) < Ends(g) <= |counts|
  {
    match g case Split(k) => counts[k] > budget case Merge(a, b) => Sum(counts, a, b) <= budget
  }

  /** Only oversized children are split, runs keep to the budget, and no run could have taken the child after it. */
  ghost predicate Greedy(counts: seq<nat>, budget: nat, groups: seq<Group>)
    requires Bounded(groups, |counts|)
  {
    && (forall i :: 0 <= i < |groups| ==> Justified(counts, budget, groups[i]))
    && (forall i :: 0 <= i < |groups| - 1 && groups[i].Merge? && groups[i + 1].Merge? ==>
          Sum(counts, groups[i].first, groups[i].end) + counts[groups[i + 1].first] > budget)
  }

  lemma {:induction false} DealsIsBounded(groups: seq<Group>, lo: nat, hi: nat)
    requires Deals(groups, lo, hi)
    ensures Bounded(groups, hi) && lo <= hi
  {
    if groups != [] {
      DealsIsBounded(groups[1..], Ends(groups[0]), hi);
      assert forall i :: 1 <= i < |groups| ==> groups[i] == groups[1..][i - 1];
    }
  }

  lemma {:induction false} GroupsDeal(counts: seq<nat>, budget: nat, i: nat, first: nat, acc: nat)
    requires first <= i <= |counts|
    ensures Deals(GroupsFrom(counts, budget, i, first, acc), first, |counts|)
    ensures i < |counts| || first < i ==> GroupsFrom(counts, budget, i, first, acc) != []
    decreases |counts| - i
  {
    var groups := GroupsFrom(counts, budget, i, first, acc);
    if i == |counts| {
    } else if counts[i] > budget {
      GroupsDeal(counts, budget, i + 1, i + 1, 0);
      var rest := GroupsFrom(counts, budget, i + 1, i + 1, 0);
      assert ([Split(i)] + rest)[1..] == rest;
      assert Deals([Split(i)] + rest, i, |counts|);
      if first < i { assert groups == [Merge(first, i)] + ([Split(i)] + rest) && groups[1..] == [Split(i)] + rest; }
      else { assert groups == [Split(i)] + rest; }
    } else if first < i && acc + counts[i] > budget {
      GroupsDeal(counts, budget, i + 1, i, counts[i]);
      assert groups[1..] == GroupsFrom(counts, budget, i + 1, i, counts[i]);
    } else {
      GroupsDeal(counts, budget, i + 1, first, acc + counts[i]);
    }
  }

  lemma GreedyCons(counts: seq<nat>, budget: nat, g: Group, rest: seq<Group>)
    requires Bounded(rest, |counts|) && Greedy(counts, budget, rest) && Begins(g) < Ends(g) <= |counts|
    requires Justified(counts, budget, g)
    requires g.Merge? && rest != [] && rest[0].Merge? ==> Sum(counts, g.first, g.end) + counts[rest[0].first] > budget
    ensures Bounded([g] + rest, |counts|) && Greedy(counts, budget, [g] + rest)
  {
    hide Sum;
    var all := [g] + rest;
    assert forall i :: 1 <= i < |all| ==> all[i] == rest[i - 1];
  }

  /** The loop's grouping is greedy. */
  lemma {:induction false} GroupsAreGreedy(counts: seq<nat>, budget: nat, i: nat, first: nat, acc: nat)
    requires first <= i <= |counts| && acc == Sum(counts, first, i) && acc <= budget
    ensures Bounded(GroupsFrom(counts, budget, i, first, acc), |counts|)
    ensures Greedy(counts, budget, GroupsFrom(counts, budget, i, first, acc))
    decreases |counts| - i
  {
    hide Greedy;
    if i == |counts| {
      FlushIsGreedy(counts, budget, i, first);
      LastGroups(counts, budget, first, acc);
    } else if counts[i] > budget {
      var rest := GroupsFrom(counts, budget, i + 1, i + 1, 0);
      GroupsAreGreedy(counts, budget, i + 1, i + 1, 0);
      GreedyCons(counts, budget, Split(i), rest);
      if first < i {
        GreedyCons(counts, budget, Merge(first, i), [Split(i)] + rest);
        assert Flush(first, i) + [Split(i)] + rest == [Merge(first, i)] + ([Split(i)] + rest);
      } else {
        assert Flush(first, i) + [Split(i)] + rest == [Split(i)] + rest;
      }
    } else if first < i && acc + counts[i] > budget {
      var rest := GroupsFrom(counts, budget, i + 1, i, counts[i]);
      assert Sum(counts, i, i + 1) == counts[i];
      GroupsAreGreedy(counts, budget, i + 1, i, counts[i]);
      GroupsDeal(counts, budget, i + 1, i, counts[i]);
      assert Begins(rest[0]) == i;
      GreedyCons(counts, budget, Merge(first, i), rest);
    } else {
      GroupsAreGreedy(counts, budget, i + 1, first, acc + counts[i]);
    }
  }

  lemma LastGroups(counts: seq<nat>, budget: nat, first: nat, acc: nat)
    requires first <= |counts|
    ensures GroupsFrom(counts, budget, |counts|, first, acc) == Flush(first, |counts|)
  {
  }

  lemma FlushIsGreedy(counts: seq<nat>, budget: nat, i: nat, first: nat)
    requires first <= i <= |counts| && Sum(counts, first, i) <= budget
    ensures Bounded(Flush(first, i), |counts|) && Greedy(counts, budget, Flush(first, i))
  {
  }

  // ---------------------------------------------------------------- pieces

  function Groups(t: Text, n: Node): seq<Group>
    requires WellFormed(t, n)
  {
    GroupsFrom(Counts(t, n), t.budget, 0, 0, 0)
  }

  function Pieces(t: Text, n: Node): seq<Piece>
    requires WellFormed(t, n)
    decreases n, 1, 0
  {
    if Count(t, n) <= t.budget || n.kids == [] then [Piece(n.start, n.end, Count(t, n))]
    else
      GroupsDeal(Counts(t, n), t.budget, 0, 0, 0);
      PiecesOf(t, n, Groups(t, n), 0)
  }

  function PiecesOf(t: Text, n: Node, groups: seq<Group>, lo: nat): seq<Piece>
    requires WellFormed(t, n) && Deals(groups, lo, |n.kids|)
    decreases n, 0, |groups|
  {
    if groups == [] then []
    else PiecesOfGroup(t, n, groups[0]) + PiecesOf(t, n, groups[1..], Ends(groups[0]))
  }

  function PiecesOfGroup(t: Text, n: Node, g: Group): seq<Piece>
    requires WellFormed(t, n) && Begins(g) < Ends(g) <= |n.kids|
    decreases n, 0, 0
  {
    match g
    case Split(k) => Pieces(t, n.kids[k])
    case Merge(a, b) => [Piece(n.kids[a].start, n.kids[b - 1].end, Sum(Counts(t, n), a, b))]
  }

  // ---------------------------------------------------------------- conservation

  /** The pieces lie in `lo..hi` in order, each counted right, with only whitespace before, between and after them. */
  ghost predicate Tiles(t: Text, pieces: seq<Piece>, lo: nat, hi: nat)
    requires hi <= |t.source|
  {
    if pieces == [] then lo <= hi && Blank(t, lo, hi)
    else
      var p := pieces[0];
      && lo <= p.lo <= p.hi <= hi && Blank(t, lo, p.lo) && p.count == SpanInk(t, p.lo, p.hi)
      && Tiles(t, pieces[1..], p.hi, hi)
  }

  lemma {:induction false} TilesJoin(t: Text, a: seq<Piece>, b: seq<Piece>, lo: nat, mid: nat, hi: nat)
    requires mid <= |t.source| && hi <= |t.source| && Tiles(t, a, lo, mid) && Tiles(t, b, mid, hi)
    ensures Tiles(t, a + b, lo, hi)
    decreases |a|
  {
    if a == [] {
      assert a + b == b;
    } else {
      assert (a + b)[0] == a[0] && (a + b)[1..] == a[1..] + b;
      TilesJoin(t, a[1..], b, a[0].hi, mid, hi);
      TilesAscend(t, b, mid, hi);
      TilesAscend(t, a[1..], a[0].hi, mid);
    }
  }

  lemma TilesAscend(t: Text, pieces: seq<Piece>, lo: nat, hi: nat)
    requires hi <= |t.source| && Tiles(t, pieces, lo, hi)
    ensures lo <= hi
  {
  }

  lemma KidFits(t: Text, n: Node, k: nat)
    requires WellFormed(t, n) && k < |n.kids|
    ensures WellFormed(t, n.kids[k]) && Edge(n, k) <= n.kids[k].start <= n.kids[k].end <= |t.source|
    ensures Blank(t, Edge(n, k), n.kids[k].start) && Edge(n, k + 1) == n.kids[k].end
    ensures Counts(t, n)[k] == SpanInk(t, n.kids[k].start, n.kids[k].end)
  {
    hide Blank, SpanInk;
    assert WellFormed(t, n.kids[k]);
  }

  /**
  A run of children: their counts add up to the span from the first to the last, since only whitespace lies between.
  */
  lemma {:induction false} RunInk(t: Text, n: Node, a: nat, b: nat)
    requires WellFormed(t, n) && a < b <= |n.kids|
    ensures n.kids[a].start <= n.kids[b - 1].end <= |t.source|
    ensures Sum(Counts(t, n), a, b) == SpanInk(t, n.kids[a].start, n.kids[b - 1].end)
  {
    hide WellFormed, Blank, SpanInk, Counts;
    KidFits(t, n, a);
    KidFits(t, n, b - 1);
    if b > a + 1 {
      RunInk(t, n, a, b - 1);
      KidFits(t, n, b - 2);
      BlankHasNoInk(t, n.kids[b - 2].end, n.kids[b - 1].start);
      SpanInkAdds(t, n.kids[a].start, n.kids[b - 2].end, n.kids[b - 1].start);
      SpanInkAdds(t, n.kids[a].start, n.kids[b - 1].start, n.kids[b - 1].end);
    } else {
      assert Sum(Counts(t, n), a, a) == 0;
    }
  }

  lemma {:induction false} PiecesTile(t: Text, n: Node)
    requires WellFormed(t, n)
    ensures Tiles(t, Pieces(t, n), n.start, n.end)
    decreases n, 1, 0
  {
    if Count(t, n) <= t.budget || n.kids == [] {
      var p := Piece(n.start, n.end, Count(t, n));
      assert [p][1..] == [];
    } else {
      GroupsDeal(Counts(t, n), t.budget, 0, 0, 0);
      PiecesOfTile(t, n, Groups(t, n), 0);
    }
  }

  lemma {:induction false} PiecesOfTile(t: Text, n: Node, groups: seq<Group>, lo: nat)
    requires WellFormed(t, n) && n.kids != [] && Deals(groups, lo, |n.kids|)
    requires lo <= |n.kids|
    ensures Tiles(t, PiecesOf(t, n, groups, lo), Edge(n, lo), n.end)
    decreases n, 0, |groups|
  {
    hide Blank, Sum;
    if groups != [] {
      var g := groups[0];
      DealsIsBounded(groups[1..], Ends(g), |n.kids|);
      PiecesOfTile(t, n, groups[1..], Ends(g));
      GroupTiles(t, n, g);
      TilesJoin(t, PiecesOfGroup(t, n, g), PiecesOf(t, n, groups[1..], Ends(g)), Edge(n, lo), Edge(n, Ends(g)), n.end);
    }
  }

  lemma {:induction false} GroupTiles(t: Text, n: Node, g: Group)
    requires WellFormed(t, n) && Begins(g) < Ends(g) <= |n.kids|
    ensures Edge(n, Ends(g)) <= |t.source| && Tiles(t, PiecesOfGroup(t, n, g), Edge(n, Begins(g)), Edge(n, Ends(g)))
    decreases n, 0, 0
  {
    hide Sum, WellFormed, Blank, Tiles, SpanInk, Counts;
    match g
    case Split(k) =>
      KidFits(t, n, k);
      PiecesTile(t, n.kids[k]);
      LeadTiles(t, Pieces(t, n.kids[k]), Edge(n, k), n.kids[k].start, n.kids[k].end);
    case Merge(a, b) =>
      RunInk(t, n, a, b);
      KidFits(t, n, a);
      KidFits(t, n, b - 1);
      OneTile(t, Piece(n.kids[a].start, n.kids[b - 1].end, Sum(Counts(t, n), a, b)), Edge(n, a));
  }

  lemma LeadTiles(t: Text, pieces: seq<Piece>, lo: nat, mid: nat, hi: nat)
    requires lo <= mid <= hi <= |t.source| && Blank(t, lo, mid) && Tiles(t, pieces, mid, hi)
    ensures Tiles(t, pieces, lo, hi)
  {
    TilesJoin(t, [], pieces, lo, mid, hi);
    assert [] + pieces == pieces;
  }

  lemma OneTile(t: Text, p: Piece, lo: nat)
    requires lo <= p.lo <= p.hi <= |t.source| && Blank(t, lo, p.lo) && p.count == SpanInk(t, p.lo, p.hi)
    ensures Tiles(t, [p], lo, p.hi)
  {
    assert [p][1..] == [];
  }

  function Total(pieces: seq<Piece>): nat {
    if pieces == [] then 0 else pieces[0].count + Total(pieces[1..])
  }

  lemma {:induction false} TilesTotal(t: Text, pieces: seq<Piece>, lo: nat, hi: nat)
    requires hi <= |t.source| && Tiles(t, pieces, lo, hi)
    ensures lo <= hi && Total(pieces) == SpanInk(t, lo, hi)
  {
    hide Blank, SpanInk;
    if pieces == [] {
      BlankHasNoInk(t, lo, hi);
    } else {
      var p := pieces[0];
      TilesTotal(t, pieces[1..], p.hi, hi);
      BlankHasNoInk(t, lo, p.lo);
      SpanInkAdds(t, lo, p.lo, p.hi);
      SpanInkAdds(t, lo, p.hi, hi);
    }
  }

  lemma {:induction false} TilesInOrder(t: Text, pieces: seq<Piece>, lo: nat, hi: nat, i: nat, j: nat)
    requires hi <= |t.source| && Tiles(t, pieces, lo, hi) && i < |pieces| && j < |pieces|
    ensures lo <= pieces[i].lo <= pieces[i].hi <= hi && pieces[i].count == SpanInk(t, pieces[i].lo, pieces[i].hi)
    ensures i < j ==> pieces[i].hi <= pieces[j].lo
  {
    hide Blank, SpanInk;
    if i > 0 {
      TilesInOrder(t, pieces[1..], pieces[0].hi, hi, i - 1, if j > 0 then j - 1 else 0);
    } else if j > 0 {
      TilesInOrder(t, pieces[1..], pieces[0].hi, hi, j - 1, j - 1);
    }
  }

  lemma {:induction false} TilesCover(t: Text, pieces: seq<Piece>, lo: nat, hi: nat, x: nat)
    requires hi <= |t.source| && Tiles(t, pieces, lo, hi) && lo <= x < hi && !t.white(t.source[x])
    ensures exists i :: 0 <= i < |pieces| && pieces[i].lo <= x < pieces[i].hi
  {
    if x >= pieces[0].hi {
      TilesCover(t, pieces[1..], pieces[0].hi, hi, x);
      var i :| 0 <= i < |pieces| - 1 && pieces[1..][i].lo <= x < pieces[1..][i].hi;
      assert pieces[i + 1].lo <= x < pieces[i + 1].hi;
    }
  }

  /**
  Chunking conserves content: the chunks are disjoint and in source order, every character that is not whitespace lies
  in one, each count is its span's, and the counts add up to the entity's.
  */
  lemma ChunksConserveContent(t: Text, n: Node)
    requires WellFormed(t, n)
    ensures var pieces := Pieces(t, n);
            && (forall i :: 0 <= i < |pieces| ==>
                  n.start <= pieces[i].lo <= pieces[i].hi <= n.end
                  && pieces[i].count == SpanInk(t, pieces[i].lo, pieces[i].hi))
            && (forall i, j :: 0 <= i < j < |pieces| ==> pieces[i].hi <= pieces[j].lo)
            && (forall x :: n.start <= x < n.end && !t.white(t.source[x]) ==>
                  exists i :: 0 <= i < |pieces| && pieces[i].lo <= x < pieces[i].hi)
            && Total(pieces) == Count(t, n)
  {
    hide Pieces, SpanInk, Tiles;
    var pieces := Pieces(t, n);
    PiecesTile(t, n);
    TilesTotal(t, pieces, n.start, n.end);
    forall i | 0 <= i < |pieces|
      ensures n.start <= pieces[i].lo <= pieces[i].hi <= n.end
      ensures pieces[i].count == SpanInk(t, pieces[i].lo, pieces[i].hi)
    {
      TilesInOrder(t, pieces, n.start, n.end, i, i);
    }
    forall i, j | 0 <= i < j < |pieces| ensures pieces[i].hi <= pieces[j].lo {
      TilesInOrder(t, pieces, n.start, n.end, i, j);
    }
    forall x | n.start <= x < n.end && !t.white(t.source[x])
      ensures exists i :: 0 <= i < |pieces| && pieces[i].lo <= x < pieces[i].hi {
      TilesCover(t, pieces, n.start, n.end, x);
    }
  }

  // ---------------------------------------------------------------- the budget

  ghost predicate Within(n: Node, m: Node)
    decreases n
  {
    m == n || exists k :: 0 <= k < |n.kids| && Within(n.kids[k], m)
  }

  /** The span of a single leaf of the tree. */
  ghost predicate LeafSpan(n: Node, p: Piece) {
    exists m :: Within(n, m) && m.kids == [] && p.lo == m.start && p.hi == m.end
  }

  /** A chunk over budget is a single leaf. */
  lemma {:induction false} OverBudgetIsALeaf(t: Text, n: Node, p: Piece)
    requires WellFormed(t, n) && p in Pieces(t, n) && p.count > t.budget
    ensures LeafSpan(n, p)
    decreases n, 1, 0
  {
    if Count(t, n) <= t.budget || n.kids == [] {
      assert Within(n, n);
    } else {
      GroupsDeal(Counts(t, n), t.budget, 0, 0, 0);
      GroupsAreGreedy(Counts(t, n), t.budget, 0, 0, 0);
      OverBudgetInGroups(t, n, Groups(t, n), 0, p);
    }
  }

  lemma {:induction false} OverBudgetInGroups(t: Text, n: Node, groups: seq<Group>, lo: nat, p: Piece)
    requires WellFormed(t, n) && Deals(groups, lo, |n.kids|) && Bounded(groups, |n.kids|)
    requires forall i :: 0 <= i < |groups| ==> Justified(Counts(t, n), t.budget, groups[i])
    requires p in PiecesOf(t, n, groups, lo) && p.count > t.budget
    ensures LeafSpan(n, p)
    decreases n, 0, |groups|
  {
    hide Sum, LeafSpan, WellFormed;
    var g, rest := groups[0], groups[1..];
    assert forall i :: 0 <= i < |rest| ==> rest[i] == groups[i + 1];
    if p in PiecesOfGroup(t, n, g) {
      assert Justified(Counts(t, n), t.budget, g);
      assert g.Split?;
      KidIsWellFormed(t, n, g.kid);
      OverBudgetIsALeaf(t, n.kids[g.kid], p);
      LeafSpanOfKid(n, g.kid, p);
    } else {
      OverBudgetInGroups(t, n, rest, Ends(g), p);
    }
  }

  lemma KidIsWellFormed(t: Text, n: Node, k: nat)
    requires WellFormed(t, n) && k < |n.kids|
    ensures WellFormed(t, n.kids[k])
  {
  }

  lemma LeafSpanOfKid(n: Node, k: nat, p: Piece)
    requires k < |n.kids| && LeafSpan(n.kids[k], p)
    ensures LeafSpan(n, p)
  {
    var m :| Within(n.kids[k], m) && m.kids == [] && p.lo == m.start && p.hi == m.end;
    assert Within(n, m);
  }

  /**
  How a split node's children are dealt out: each once and in order, only oversized children split further, runs
  within budget, and no run followed by another run could have taken even the next child.
  */
  lemma {:induction false} SplitIsGreedy(t: Text, n: Node)
    requires WellFormed(t, n)
    ensures Deals(Groups(t, n), 0, |n.kids|) && Bounded(Groups(t, n), |n.kids|)
    ensures Greedy(Counts(t, n), t.budget, Groups(t, n))
  {
    GroupsDeal(Counts(t, n), t.budget, 0, 0, 0);
    GroupsAreGreedy(Counts(t, n), t.budget, 0, 0, 0);
  }

  /** Where a chunk of a node that is split comes from: a run of children, or a chunk of a child that is split. */
  ghost predicate ComesFrom(t: Text, n: Node, p: Piece, g: Group)
    requires WellFormed(t, n) && Begins(g) < Ends(g) <= |n.kids|
  {
    match g
    case Split(k) => p in Pieces(t, n.kids[k])
    case Merge(a, b) => p.lo == n.kids[a].start && p.hi == n.kids[b - 1].end
  }

  lemma {:induction false} PiecesByGroup(t: Text, n: Node, groups: seq<Group>, lo: nat, p: Piece)
    requires WellFormed(t, n) && Deals(groups, lo, |n.kids|) && Bounded(groups, |n.kids|)
    ensures p in PiecesOf(t, n, groups, lo) ==> exists i :: 0 <= i < |groups| && ComesFrom(t, n, p, groups[i])
    ensures (exists i :: 0 <= i < |groups| && ComesFrom(t, n, p, groups[i])) ==>
              exists q :: q in PiecesOf(t, n, groups, lo) && q.lo == p.lo && q.hi == p.hi
    decreases |groups|
  {
    hide Pieces, WellFormed, Sum, Counts;
    if groups != [] {
      var g, rest := groups[0], groups[1..];
      assert forall i :: 0 <= i < |rest| ==> rest[i] == groups[i + 1];
      PiecesByGroup(t, n, rest, Ends(g), p);
      GroupPieces(t, n, g, p);
      if i :| 0 <= i < |groups| && ComesFrom(t, n, p, groups[i]) {
        if i > 0 { assert ComesFrom(t, n, p, rest[i - 1]); }
      }
    }
  }

  lemma GroupPieces(t: Text, n: Node, g: Group, p: Piece)
    requires WellFormed(t, n) && Begins(g) < Ends(g) <= |n.kids|
    ensures p in PiecesOfGroup(t, n, g) ==> ComesFrom(t, n, p, g)
    ensures ComesFrom(t, n, p, g) ==> exists q :: q in PiecesOfGroup(t, n, g) && q.lo == p.lo && q.hi == p.hi
  {
    hide WellFormed, Sum, Counts, Pieces;
  }

  /**
  What becomes of a node: within budget, or without children, it is one chunk; otherwise its chunks are, span by span,
  those of the groups that its children are dealt into.
  */
  lemma ChunksFollowTheTree(t: Text, n: Node, p: Piece)
    requires WellFormed(t, n)
    ensures Count(t, n) <= t.budget || n.kids == [] ==>
              |Pieces(t, n)| == 1 && Pieces(t, n)[0].lo == n.start && Pieces(t, n)[0].hi == n.end
    ensures Count(t, n) > t.budget && n.kids != [] ==>
              var groups := Groups(t, n);
              && Bounded(groups, |n.kids|)
              && (p in Pieces(t, n) ==> exists i :: 0 <= i < |groups| && ComesFrom(t, n, p, groups[i]))
              && ((exists i :: 0 <= i < |groups| && ComesFrom(t, n, p, groups[i])) ==>
                    exists q :: q in Pieces(t, n) && q.lo == p.lo && q.hi == p.hi)
  {
    SplitIsGreedy(t, n);
    if Count(t, n) > t.budget && n.kids != [] { PiecesByGroup(t, n, Groups(t, n), 0, p); }
  }
}
