/** One message through the graph sink: look up the marker, merge, then write the marker. */
module SinkDelivery {
  import opened Common
  import opened CodeGraph
  import opened GraphStore

  datatype Header = Header(key: string, value: string)

  datatype Topic = TopicCodeNode | TopicCodeRelation | OtherTopic

  /** A decoded payload; `labelsValid` is the verdict of the security label check. */
  datatype Payload =
    | Malformed
    | NodePayload(id: Id, nodeType: string, body: Body, labelsValid: bool)
    | RelationPayload(from: Id, relType: string, to: Id, weight: Option<int>)

  datatype Message = Message(topic: Topic, headers: seq<Header>, payload: Payload)

  datatype Outcome = Merged | Duplicate | InvalidSkipped

  /** Where an unreachable database strikes; a marker insert may fail before or after it took effect. */
  datatype Faults = Faults(lookup: bool, merge: bool, mark: bool, markLanded: bool)

  /** `failed` is the returned error: the offset must not be committed. */
  datatype Result = Result(outcome: Outcome, failed: bool)

  /** The first event_id header decides; an empty value counts as absent. */
  function EventId(headers: seq<Header>): Option<string> {
    if headers == [] then None
    else if headers[0].key != "event_id" then EventId(headers[1..])
    else if headers[0].value == "" then None
    else Some(headers[0].value)
  }

  /** What a message asks the graph to do; None is logged and skipped. */
  datatype Mutation = MutateNode(id: Id, nodeType: NodeType, body: Body) | MutateRelation(key: EdgeKey,
                                 weight: Option<int>)

  function MutationOf(msg: Message): Option<Mutation> {
    match (msg.topic, msg.payload)
    case (TopicCodeNode, NodePayload(id, nodeType, body, true)) =>
      var t := ParseNodeType(nodeType);
      if t.Some? then Some(MutateNode(id, t.value, body)) else None
    case (TopicCodeRelation, RelationPayload(from, relType, to, weight)) =>
      var t := ParseRelType(relType);
      if from != "" && to != "" && t.Some? then Some(MutateRelation(EdgeKey(from, t.value, to), weight)) else None
    case _ => None
  }

  function Apply(db: Db, m: Mutation): Db {
    match m
    case MutateNode(id, nodeType, body) => MergeNode(db, id, nodeType, body)
    case MutateRelation(key, weight) => MergeRelation(db, key, weight)
  }

  datatype After = After(db: Db, processed: set<string>, result: Result)

  /** What one uninterrupted call does. */
  function Processed(db: Db, processed: set<string>, msg: Message, faults: Faults): After {
    var eventId := EventId(msg.headers);
    if eventId.None? then After(db, processed, Result(InvalidSkipped, false))
    else if faults.lookup then After(db, processed, Result(InvalidSkipped, true))
    else if eventId.value in processed then After(db, processed, Result(Duplicate, false))
    else if MutationOf(msg).None? then After(db, processed, Result(InvalidSkipped, false))
    else if faults.merge then After(db, processed, Result(InvalidSkipped, true))
    else if faults.mark then
      After(Apply(db, MutationOf(msg).value), if faults.markLanded then processed + {eventId.value} else processed,
            Result(InvalidSkipped, true))
    else After(Apply(db, MutationOf(msg).value), processed + {eventId.value}, Result(Merged, false))
  }

  // ---------------------------------------------------------------- what one message does

  /** A node message with valid labels and a known type, or a relation message with both ends and a known type. */
  ghost predicate AsksFor(msg: Message, m: Mutation) {
    match m
    case MutateNode(id, nodeType, body) =>
      msg.topic == TopicCodeNode && msg.payload == NodePayload(id, NodeTypeText(nodeType), body, true)
    case MutateRelation(key, weight) =>
      && msg.topic == TopicCodeRelation && key.from != "" && key.to != ""
      && msg.payload == RelationPayload(key.from, RelTypeText(key.relType), key.to, weight)
  }

  lemma MessageAsksFor(msg: Message, m: Mutation)
    ensures MutationOf(msg) == Some(m) <==> AsksFor(msg, m)
  {
    match msg.payload {
      case NodePayload(_, nodeType, _, _) =>
        if m.MutateNode? { WhitelistsReadTheNames(nodeType, m.nodeType, Calls); }
      case RelationPayload(_, relType, _, _) =>
        if m.MutateRelation? { WhitelistsReadTheNames(relType, File, m.key.relType); }
      case Malformed =>
    }
  }

  /** The first event_id header identifies the message, unless it is empty or there is none. */
  ghost predicate IsEventId(headers: seq<Header>, id: string) {
    id != "" && exists i :: && 0 <= i < |headers| && headers[i] == Header("event_id", id)
                            && forall j :: 0 <= j < i ==> headers[j].key != "event_id"
  }

  lemma {:induction false} FirstEventIdDecides(headers: seq<Header>, id: string)
    ensures EventId(headers) == Some(id) <==> IsEventId(headers, id)
  {
    if headers != [] && headers[0].key != "event_id" {
      var rest := headers[1..];
      FirstEventIdDecides(rest, id);
      if IsEventId(rest, id) {
        var i :| && 0 <= i < |rest| && rest[i] == Header("event_id", id)
                 && forall j :: 0 <= j < i ==> rest[j].key != "event_id";
        assert headers[i + 1] == rest[i];
        forall j | 0 <= j < i + 1 ensures headers[j].key != "event_id" {
          if j > 0 { assert headers[j] == rest[j - 1]; }
        }
      }
      if IsEventId(headers, id) {
        var i :| && 0 <= i < |headers| && headers[i] == Header("event_id", id)
                 && forall j :: 0 <= j < i ==> headers[j].key != "event_id";
        assert rest[i - 1] == headers[i];
        forall j | 0 <= j < i - 1 ensures rest[j].key != "event_id" { assert rest[j] == headers[j + 1]; }
      }
    }
  }

  /** The graph after a mutation: the node or the edge stored as the message says. */
  ghost predicate Stored(before: Db, after: Db, m: Mutation) {
    match m
    case MutateNode(id, nodeType, body) => NodeStored(before, after, id, nodeType, body)
    case MutateRelation(key, weight) => EdgeStored(before, after, key, weight)
  }

  /**
  One call: a message without an event id, one that asks for nothing, and one whose event is marked leave everything as
  it was; any other is stored unless a fault comes first, and then marked. Only a fault is an error.
  */
  lemma OneMessage(db: Db, processed: set<string>, msg: Message, faults: Faults, id: string, m: Mutation)
    ensures var after := Processed(db, processed, msg, faults);
            && ((forall e :: !IsEventId(msg.headers, e)) ==>
                  after == After(db, processed, Result(InvalidSkipped, false)))
            && (IsEventId(msg.headers, id) && faults.lookup ==>
                  after == After(db, processed, Result(InvalidSkipped, true)))
            && (IsEventId(msg.headers, id) && !faults.lookup && id in processed ==>
                  after == After(db, processed, Result(Duplicate, false)))
            && (IsEventId(msg.headers, id) && !faults.lookup && id !in processed && (forall n :: !AsksFor(msg, n)) ==>
                  after == After(db, processed, Result(InvalidSkipped, false)))
            && (IsEventId(msg.headers, id) && !faults.lookup && id !in processed && AsksFor(msg, m) ==>
                  && (if faults.merge then after.db == db else Stored(db, after.db, m))
                  && after.processed - {id} == processed
                  && (id in after.processed <==> !faults.merge && (!faults.mark || faults.markLanded))
                  && after.result == if faults.merge || faults.mark then Result(InvalidSkipped, true)
                                     else Result(Merged, false))
  {
    hide IsEventId, AsksFor, MutationOf, EventId, MergeNode, MergeRelation, NodeStored, EdgeStored;
    forall e ensures EventId(msg.headers) == Some(e) <==> IsEventId(msg.headers, e) {
      FirstEventIdDecides(msg.headers, e);
    }
    forall n ensures MutationOf(msg) == Some(n) <==> AsksFor(msg, n) { MessageAsksFor(msg, n); }
    match m
    case MutateNode(i, nodeType, body) => MergedNodeIsStored(db, i, nodeType, body);
    case MutateRelation(key, weight) => MergedEdgeIsStored(db, key, weight);
  }

  // ---------------------------------------------------------------- redelivery

  /** Applying a message right after itself changes nothing in the graph, generations included. */
  lemma ReapplyChangesNothing(db: Db, m: Mutation)
    ensures Apply(Apply(db, m), m) == Apply(db, m)
  {
    match m
    case MutateNode(id, nodeType, body) => MergeNodeIdempotent(db, id, nodeType, body);
    case MutateRelation(key, weight) => MergeRelationIdempotent(db, key, weight);
  }

  /** Whatever fault struck the first delivery, after a clean redelivery the state is that of one clean delivery. */
  lemma {:induction false} RedeliveryConverges(db: Db, processed: set<string>, msg: Message, faults: Faults)
    ensures var first := Processed(db, processed, msg, faults);
            var second := Processed(first.db, first.processed, msg, Faults(false, false, false, false));
            var clean := Processed(db, processed, msg, Faults(false, false, false, false));
            second.db == clean.db && second.processed == clean.processed && !second.result.failed
  {
    if MutationOf(msg).Some? { ReapplyChangesNothing(db, MutationOf(msg).value); }
  }

  // ---------------------------------------------------------------- interleaved workers with crashes

  /** What a worker has done so far with the message it was given. */
  datatype Stage = Looked(msg: Message) | MergedNotMarked(msg: Message)

  /** `committed` records the event ids whose merge has committed; no step reads it. */
  datatype Sys = Sys(db: Db, processed: set<string>, committed: set<string>, workers: map<nat, Stage>)

  datatype Step = Deliver(w: nat, msg: Message) | DoMerge(w: nat) | DoMark(w: nat) | Crash(w: nat)

  function Next(sys: Sys, step: Step): Sys {
    match step
    case Deliver(w, msg) =>
      if EventId(msg.headers).None? || EventId(msg.headers).value in sys.processed || MutationOf(msg).None?
      then sys.(workers := sys.workers - {w})
      else sys.(workers := sys.workers[w := Looked(msg)])
    case DoMerge(w) =>
      if w !in sys.workers || !sys.workers[w].Looked? || MutationOf(sys.workers[w].msg).None? then sys
      else
        var msg := sys.workers[w].msg;
        Sys(Apply(sys.db, MutationOf(msg).value), sys.processed,
            sys.committed + (if EventId(msg.headers).Some? then {EventId(msg.headers).value} else {}),
            sys.workers[w := MergedNotMarked(msg)])
    case DoMark(w) =>
      if w !in sys.workers || !sys.workers[w].MergedNotMarked? || EventId(sys.workers[w].msg.headers).None? then sys
      else Sys(sys.db, sys.processed + {EventId(sys.workers[w].msg.headers).value}, sys.committed, sys.workers - {w})
    case Crash(w) => sys.(workers := sys.workers - {w})
  }

  function Run(db: Db, steps: seq<Step>): Sys {
    if steps == [] then Sys(db, {}, {}, map[])
    else Next(Run(db, steps[..|steps| - 1]), steps[|steps| - 1])
  }

  ghost predicate MarkedAfterMerge(sys: Sys) {
    && sys.processed <= sys.committed
    && forall w :: w in sys.workers && sys.workers[w].MergedNotMarked? && EventId(sys.workers[w].msg.headers).Some?
                   ==> EventId(sys.workers[w].msg.headers).value in sys.committed
  }

  /** In every interleaving with crashes, an event id is marked processed only after its merge committed. */
  lemma {:induction false} MarkersFollowMerges(db: Db, steps: seq<Step>)
    ensures MarkedAfterMerge(Run(db, steps))
  {
    if steps != [] { MarkersFollowMerges(db, steps[..|steps| - 1]); }
  }

  // ---------------------------------------------------------------- one worker among others

  /** Where other workers get their turn during one call. */
  datatype Moment = BeforeLookup | BeforeMerge | BeforeMark

  lemma RunExtends(db: Db, trace: seq<Step>, step: Step)
    ensures Run(db, trace + [step]) == Next(Run(db, trace), step)
  {
    assert (trace + [step])[..|trace|] == trace;
  }

  class SinkGraph {
    const me: nat
    const graph: Neo4jGraph
    ghost const start: Db
    var processed: set<string>
    var committed: set<string>
    var workers: map<nat, Stage>
    ghost var trace: seq<Step>

    function World(): Sys
      reads this, graph
    {
      Sys(graph.State(), processed, committed, workers)
    }

    /** The database, the marker table and all workers are where a run of the step model leads. */
    ghost predicate Tracks()
      reads this, graph
    {
      World() == Run(start, trace)
    }

    constructor (me: nat, g: Neo4jGraph)
      ensures this.me == me && graph == g && Tracks() && me !in workers && trace == []
    {
      this.me, graph, processed, committed, workers, trace := me, g, {}, {}, map[], [];
      start := g.State();
    }

    /** A step of this worker whose effect on the database and the marker table has been seen to. */
    method Record(step: Step, before: Sys)
      requires before == Run(start, trace)
      requires graph.State() == Next(before, step).db && processed == Next(before, step).processed
      modifies this`committed, this`workers, this`trace
      ensures Tracks() && trace == old(trace) + [step] && World() == Next(before, step)
    {
      hide Next, Run;
      RunExtends(start, trace, step);
      committed, workers, trace := Next(before, step).committed, Next(before, step).workers, trace + [step];
    }

    /** The turns of the other workers. */
    method Interfere(others: seq<Step>)
      requires Tracks() && forall s :: s in others ==> s.w != me
      modifies this`processed, this`committed, this`workers, this`trace, graph
      ensures Tracks() && old(trace) <= trace && old(processed) <= processed
      ensures me in workers <==> me in old(workers)
      ensures me in workers ==> workers[me] == old(workers)[me]
      ensures others == [] ==> World() == old(World())
    {
      hide Next, Run;
      for i := 0 to |others|
        invariant Tracks() && old(trace) <= trace && old(processed) <= processed
        invariant me in workers <==> me in old(workers)
        invariant me in workers ==> workers[me] == old(workers)[me]
        invariant i == 0 ==> World() == old(World())
      {
        var next := Next(World(), others[i]);
        OthersKeepMine(World(), others[i], me);
        RunExtends(start, trace, others[i]);
        graph.nodes, graph.edges, graph.partitions := next.db.nodes, next.db.edges, next.db.partitions;
        processed, committed, workers, trace := next.processed, next.committed, next.workers, trace + [others[i]];
        assert World() == next;
      }
    }

    method EventIdFromHeaders(headers: seq<Header>) returns (id: Option<string>)
      ensures id == EventId(headers)
    {
      for i := 0 to |headers|
        invariant EventId(headers) == EventId(headers[i..])
      {
        if headers[i].key == "event_id" {
          return if headers[i].value == "" then None else Some(headers[i].value);
        }
      }
      id := None;
    }

    /**
    One message, with the other workers at work before each query. Every step is one of the step model. A marker of
    this event that another worker has written in the meantime makes the answer Duplicate.
    */
    method ProcessMessage(msg: Message, faults: Faults, others: Moment -> seq<Step>) returns (result: Result)
      requires Tracks() && me !in workers && forall m, s :: s in others(m) ==> s.w != me
      modifies this`processed, this`committed, this`workers, this`trace, graph
      ensures Tracks() && old(trace) <= trace && me !in workers && old(processed) <= processed
      ensures result.failed ==> EventId(msg.headers).Some? && (faults.lookup || faults.merge || faults.mark)
      ensures result.failed ==> result.outcome == InvalidSkipped
      ensures result.outcome != InvalidSkipped ==>
                EventId(msg.headers).Some? && EventId(msg.headers).value in processed * committed
      ensures result.outcome == InvalidSkipped && !result.failed ==> EventId(msg.headers).None? || MutationOf(msg).None?
      ensures result.outcome == Merged ==> MutationOf(msg).Some? && EventId(msg.headers).value !in old(processed)
      ensures Undisturbed(others) ==>
                After(graph.State(), processed, result) == Processed(old(graph.State()), old(processed), msg, faults)
    {
      hide Run, Next, Apply, MutationOf;
      var eventId := EventIdFromHeaders(msg.headers);
      if eventId.None? { return Result(InvalidSkipped, false); }
      Interfere(others(BeforeLookup));
      if faults.lookup { return Result(InvalidSkipped, true); }
      Delivered(World(), me, msg);
      Record(Deliver(me, msg), World());
      if eventId.value in processed {
        MarkersFollowMerges(start, trace);
        return Result(Duplicate, false);
      }
      Interfere(others(BeforeMerge));
      var refused := Merge(msg, faults.merge);
      if refused.Some? { return refused.value; }
      Interfere(others(BeforeMark));
      result := Mark(eventId.value, msg, faults);
    }

    /** The merge, or the result that ends the call without one. */
    method Merge(msg: Message, fails: bool) returns (refused: Option<Result>)
      requires Tracks() && if MutationOf(msg).Some? then me in workers && workers[me] == Looked(msg) else me !in workers
      modifies this`committed, this`workers, this`trace, graph
      ensures Tracks() && old(trace) <= trace
      ensures refused == if MutationOf(msg).None? then Some(Result(InvalidSkipped, false))
                         else if fails then Some(Result(InvalidSkipped, true)) else None
      ensures refused.Some? ==> me !in workers && graph.State() == old(graph.State())
      ensures refused.None? ==> me in workers && workers[me] == MergedNotMarked(msg)
      ensures refused.None? ==> graph.State() == Apply(old(graph.State()), MutationOf(msg).value)
    {
      hide Run, MergeNode, MergeRelation;
      var before := World();
      var merged := false;
      match msg.payload {
        case NodePayload(id, nodeType, body, labelsValid) =>
          if msg.topic != TopicCodeNode || !labelsValid { return Some(Result(InvalidSkipped, false)); }
          if ParseNodeType(nodeType).Some? && fails {
            Record(Crash(me), before);
            return Some(Result(InvalidSkipped, true));
          }
          merged := graph.MergeCodeNode(id, nodeType, body);
        case RelationPayload(from, relType, to, weight) =>
          if msg.topic != TopicCodeRelation || from == "" || to == "" { return Some(Result(InvalidSkipped, false)); }
          if ParseRelType(relType).Some? && fails {
            Record(Crash(me), before);
            return Some(Result(InvalidSkipped, true));
          }
          merged := graph.MergeCodeRelation(from, relType, to, weight);
        case Malformed => return Some(Result(InvalidSkipped, false));
      }
      if !merged { return Some(Result(InvalidSkipped, false)); }
      Record(DoMerge(me), before);
      refused := None;
    }

    /** The marker is written only if it is not there yet. */
    method Mark(eventId: string, msg: Message, faults: Faults) returns (result: Result)
      requires Tracks() && me in workers && workers[me] == MergedNotMarked(msg) && EventId(msg.headers) == Some(eventId)
      modifies this`processed, this`committed, this`workers, this`trace
      ensures Tracks() && old(trace) <= trace && me !in workers && old(processed) <= processed
      ensures result.failed <==> faults.mark
      ensures processed == if faults.mark && !faults.markLanded then old(processed) else old(processed) + {eventId}
      ensures result.outcome == if faults.mark then InvalidSkipped else if eventId in old(processed) then Duplicate
                                else Merged
      ensures eventId in processed ==> eventId in committed
    {
      hide Run;
      var before := World();
      if faults.mark && !faults.markLanded {
        Record(Crash(me), before);
      } else {
        processed := processed + {eventId};
        Record(DoMark(me), before);
      }
      MarkersFollowMerges(start, trace);
      result := Result(if faults.mark then InvalidSkipped else if eventId in before.processed then Duplicate
                       else Merged, faults.mark);
    }
  }

  predicate Undisturbed(others: Moment -> seq<Step>) {
    others(BeforeLookup) == [] && others(BeforeMerge) == [] && others(BeforeMark) == []
  }

  lemma Delivered(sys: Sys, me: nat, msg: Message)
    requires EventId(msg.headers).Some?
    ensures var next := Next(sys, Deliver(me, msg));
            && next.db == sys.db && next.processed == sys.processed && next.committed == sys.committed
            && if EventId(msg.headers).value in sys.processed || MutationOf(msg).None? then me !in next.workers
               else me in next.workers && next.workers[me] == Looked(msg)
  {
    hide MutationOf;
  }

  lemma OthersKeepMine(sys: Sys, step: Step, me: nat)
    requires step.w != me
    ensures var next := Next(sys, step);
            && sys.processed <= next.processed
            && (me in next.workers <==> me in sys.workers)
            && (me in next.workers ==> next.workers[me] == sys.workers[me])
  {
    hide Apply;
  }
}
