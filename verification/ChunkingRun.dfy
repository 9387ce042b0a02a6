/**
The chunker as it runs: a recursion that pushes into one shared list, with a loop that carries the open run of
children.
*/
module ChunkingRun {
  import opened Common
  import opened Chunking

  function Slice(source: string, lo: nat, hi: nat): string {
    if lo <= hi <= |source| then source[lo..hi] else ""
  }

  function Render(t: Text, p: Piece): CodeChunk {
    CodeChunk("", 0, Slice(t.source, p.lo, p.hi), p.count)
  }

  function RenderAll(t: Text, pieces: seq<Piece>): seq<CodeChunk> {
    seq(|pieces|, i requires 0 <= i < |pieces| => Render(t, pieces[i]))
  }

  lemma RenderAllAdds(t: Text, a: seq<Piece>, b: seq<Piece>)
    ensures RenderAll(t, a + b) == RenderAll(t, a) + RenderAll(t, b)
  {
  }

  /** The piece of the open run `first..i`, if it holds a child. */
  function RunPiece(t: Text, n: Node, first: nat, i: nat): seq<Piece>
    requires WellFormed(t, n) && first <= i <= |n.kids|
  {
    if first < i then [Piece(n.kids[first].start, n.kids[i - 1].end, Sum(Counts(t, n), first, i))] else []
  }

  /** What the loop still has to push at child `i`, with the run `first..i` open. */
  function Remaining(t: Text, n: Node, i: nat, first: nat, acc: nat): seq<Piece>
    requires WellFormed(t, n) && first <= i <= |n.kids|
  {
    GroupsDeal(Counts(t, n), t.budget, i, first, acc);
    PiecesOf(t, n, GroupsFrom(Counts(t, n), t.budget, i, first, acc), first)
  }

  lemma PiecesOfCons(t: Text, n: Node, g: Group, rest: seq<Group>)
    requires WellFormed(t, n) && Begins(g) < Ends(g) <= |n.kids| && Deals(rest, Ends(g), |n.kids|)
    ensures Deals([g] + rest, Begins(g), |n.kids|)
    ensures PiecesOf(t, n, [g] + rest, Begins(g)) == PiecesOfGroup(t, n, g) + PiecesOf(t, n, rest, Ends(g))
  {
    hide WellFormed, Counts, Pieces, Sum;
    assert ([g] + rest)[0] == g && ([g] + rest)[1..] == rest;
  }

  lemma {:induction false} RemainingAtEnd(t: Text, n: Node, first: nat, acc: nat)
    requires WellFormed(t, n) && first <= |n.kids|
    ensures Remaining(t, n, |n.kids|, first, acc) == RunPiece(t, n, first, |n.kids|)
  {
    hide WellFormed, Counts, Pieces, Sum;
    LastGroups(Counts(t, n), t.budget, first, acc);
    if first < |n.kids| {
      PiecesOfCons(t, n, Merge(first, |n.kids|), []);
      assert [Merge(first, |n.kids|)] + [] == [Merge(first, |n.kids|)];
    }
  }

  lemma {:induction false} RemainingSplits(t: Text, n: Node, i: nat, first: nat, acc: nat)
    requires WellFormed(t, n) && first <= i < |n.kids| && Counts(t, n)[i] > t.budget
    ensures Remaining(t, n, i, first, acc) == RunPiece(t, n, first, i) + Pieces(t, n.kids[i])
            + Remaining(t, n, i + 1, i + 1, 0)
  {
    hide WellFormed, Counts, Pieces, Sum;
    var counts := Counts(t, n);
    GroupsDeal(counts, t.budget, i + 1, i + 1, 0);
    var rest := GroupsFrom(counts, t.budget, i + 1, i + 1, 0);
    PiecesOfCons(t, n, Split(i), rest);
    if first < i {
      PiecesOfCons(t, n, Merge(first, i), [Split(i)] + rest);
      assert GroupsFrom(counts, t.budget, i, first, acc) == [Merge(first, i)] + ([Split(i)] + rest);
    } else {
      assert GroupsFrom(counts, t.budget, i, first, acc) == [Split(i)] + rest;
    }
  }

  lemma {:induction false} RemainingCuts(t: Text, n: Node, i: nat, first: nat, acc: nat)
    requires WellFormed(t, n) && first < i < |n.kids| && Counts(t, n)[i] <= t.budget && acc + Counts(t, n)[i] > t.budget
    ensures Remaining(t, n, i, first, acc) == RunPiece(t, n, first, i) + Remaining(t, n, i + 1, i, Counts(t, n)[i])
  {
    hide WellFormed, Counts, Pieces, Sum;
    var counts := Counts(t, n);
    GroupsDeal(counts, t.budget, i + 1, i, counts[i]);
    PiecesOfCons(t, n, Merge(first, i), GroupsFrom(counts, t.budget, i + 1, i, counts[i]));
  }

  lemma RemainingGrows(t: Text, n: Node, i: nat, first: nat, acc: nat)
    requires WellFormed(t, n) && first <= i < |n.kids| && Counts(t, n)[i] <= t.budget
    requires first == i || acc + Counts(t, n)[i] <= t.budget
    ensures Remaining(t, n, i, first, acc) == Remaining(t, n, i + 1, first, acc + Counts(t, n)[i])
  {
    hide WellFormed, Counts, Pieces, Sum, PiecesOf;
  }

  lemma PiecesOfSplit(t: Text, n: Node)
    requires WellFormed(t, n) && Count(t, n) > t.budget && n.kids != []
    ensures Pieces(t, n) == Remaining(t, n, 0, 0, 0)
  {
  }

  /** The run the code carries: its first and last node and its weight. */
  ghost predicate Carries(t: Text, n: Node, run: Option<(Node, Node, nat)>, first: nat, i: nat)
    requires WellFormed(t, n) && first <= i <= |n.kids|
  {
    if first == i then run.None?
    else run == Some((n.kids[first], n.kids[i - 1], Sum(Counts(t, n), first, i)))
  }

  class Chunker {
    const t: Text
    var chunks: seq<CodeChunk>

    constructor (t: Text)
      ensures this.t == t && chunks == []
    {
      this.t, chunks := t, [];
    }

    method FlushRun(ghost n: Node, run: Option<(Node, Node, nat)>, ghost first: nat, ghost i: nat)
      requires WellFormed(t, n) && first <= i <= |n.kids| && Carries(t, n, run, first, i)
      modifies this`chunks
      ensures chunks == old(chunks) + RenderAll(t, RunPiece(t, n, first, i))
    {
      hide WellFormed, Counts, Sum;
      if run.Some? {
        var (head, last, charCount) := run.value;
        chunks := chunks + [CodeChunk("", 0, Slice(t.source, head.start, last.end), charCount)];
      }
    }

    method ChunkNode(n: Node)
      requires WellFormed(t, n)
      modifies this`chunks
      ensures chunks == old(chunks) + RenderAll(t, Pieces(t, n))
      decreases n
    {
      hide WellFormed, Sum, Remaining, Pieces, Counts, RunPiece, Carries;
      NodeSpan(t, n);
      var fullText := Slice(t.source, n.start, n.end);
      var fullCount := Ink(t.white, fullText);
      if fullCount <= t.budget || n.kids == [] {
        WholePiece(t, n);
        chunks := chunks + [CodeChunk("", 0, fullText, fullCount)];
        return;
      }
      PiecesOfSplit(t, n);
      var run: Option<(Node, Node, nat)> := None;
      ghost var first := 0;
      ghost var goal := chunks + RenderAll(t, Pieces(t, n));
      assert Carries(t, n, run, 0, 0) by { EmptyRun(t, n, 0); }
      for i := 0 to |n.kids|
        invariant first <= i && Carries(t, n, run, first, i)
        invariant chunks + RenderAll(t, Remaining(t, n, i, first, Weight(run))) == goal
      {
        var child := n.kids[i];
        KidFits(t, n, i);
        var childCount := Ink(t.white, Slice(t.source, child.start, child.end));
        if childCount > t.budget {
          RemainingSplits(t, n, i, first, Weight(run));
          FlushRun(n, run, first, i);
          ChunkNode(child);
          RenderAllAdds(t, RunPiece(t, n, first, i) + Pieces(t, child), Remaining(t, n, i + 1, i + 1, 0));
          RenderAllAdds(t, RunPiece(t, n, first, i), Pieces(t, child));
          run, first := None, i + 1;
          EmptyRun(t, n, i + 1);
        } else if run.Some? && run.value.2 + childCount <= t.budget {
          RemainingGrows(t, n, i, first, Weight(run));
          GrownRun(t, n, run, first, i);
          run := Some((run.value.0, child, run.value.2 + childCount));
        } else if run.Some? {
          CarriedRun(t, n, run, first, i);
          RemainingCuts(t, n, i, first, Weight(run));
          FlushRun(n, run, first, i);
          RenderAllAdds(t, RunPiece(t, n, first, i), Remaining(t, n, i + 1, i, childCount));
          run, first := Some((child, child, childCount)), i;
          NewRun(t, n, i);
        } else {
          CarriedRun(t, n, run, first, i);
          RemainingGrows(t, n, i, first, 0);
          run := Some((child, child, childCount));
          NewRun(t, n, i);
        }
      }
      RemainingAtEnd(t, n, first, Weight(run));
      FlushRun(n, run, first, |n.kids|);
    }

    /** The whole entity; the index of a chunk is stored in 32 bits. */
    method ChunkEntity(n: Node) returns (result: seq<CodeChunk>)
      requires WellFormed(t, n)
      modifies this`chunks
      ensures |result| == |Pieces(t, n)|
      ensures forall i :: 0 <= i < |result| ==>
                var p := Pieces(t, n)[i];
                && p.lo <= p.hi <= |t.source| && result[i].text == t.source[p.lo..p.hi]
                && result[i].charCount == |InkAt(t.white, result[i].text)|
                && result[i].chunkIndex == i % 0x1_0000_0000 && result[i].entityId == ""
    {
      hide WellFormed, Pieces;
      chunks := [];
      ChunkNode(n);
      assert chunks == RenderAll(t, Pieces(t, n));
      result := AssignIndices(chunks);
      ChunksConserveContent(t, n);
      NodeSpan(t, n);
      forall i | 0 <= i < |result|
        ensures result[i].charCount == |InkAt(t.white, result[i].text)|
      {
        InkCounts(t.white, result[i].text);
      }
    }
  }

  method AssignIndices(chunks: seq<CodeChunk>) returns (result: seq<CodeChunk>)
    ensures |result| == |chunks|
    ensures forall i :: 0 <= i < |result| ==> result[i] == chunks[i].(chunkIndex := i % 0x1_0000_0000)
  {
    result := chunks;
    for k := 0 to |result|
      invariant |result| == |chunks|
      invariant forall i :: 0 <= i < k ==> result[i] == chunks[i].(chunkIndex := i % 0x1_0000_0000)
      invariant forall i :: k <= i < |result| ==> result[i] == chunks[i]
    {
      result := result[k := result[k].(chunkIndex := k % 0x1_0000_0000)];
    }
  }

  function Weight(run: Option<(Node, Node, nat)>): nat {
    if run.Some? then run.value.2 else 0
  }

  lemma NodeSpan(t: Text, n: Node)
    requires WellFormed(t, n)
    ensures n.start <= n.end <= |t.source| && Count(t, n) == Ink(t.white, Slice(t.source, n.start, n.end))
  {
  }

  lemma WholePiece(t: Text, n: Node)
    requires WellFormed(t, n) && (Count(t, n) <= t.budget || n.kids == [])
    ensures RenderAll(t, Pieces(t, n)) == [CodeChunk("", 0, Slice(t.source, n.start, n.end), Count(t, n))]
  {
  }

  lemma EmptyRun(t: Text, n: Node, i: nat)
    requires WellFormed(t, n) && i <= |n.kids|
    ensures Carries(t, n, None, i, i)
  {
  }

  lemma NewRun(t: Text, n: Node, i: nat)
    requires WellFormed(t, n) && i < |n.kids|
    ensures Carries(t, n, Some((n.kids[i], n.kids[i], Counts(t, n)[i])), i, i + 1)
  {
    hide Counts, WellFormed;
    assert Sum(Counts(t, n), i, i) == 0;
  }

  lemma {:induction false} CarriedRun(t: Text, n: Node, run: Option<(Node, Node, nat)>, first: nat, i: nat)
    requires WellFormed(t, n) && first <= i <= |n.kids| && Carries(t, n, run, first, i)
    ensures run.Some? <==> first < i
  {
  }

  lemma {:induction false} GrownRun(t: Text, n: Node, run: Option<(Node, Node, nat)>, first: nat, i: nat)
    requires WellFormed(t, n) && first <= i < |n.kids| && Carries(t, n, run, first, i) && run.Some?
    ensures Carries(t, n, Some((run.value.0, n.kids[i], run.value.2 + Counts(t, n)[i])), first, i + 1)
  {
    hide Counts, WellFormed;
  }
}
