/**
 The queue of requests that a UI tick of Live works on: requests are served in order, each by a generator
 that may wait for the next tick, and each mutation inside an undo step of its own.
 */
module Processor {
  import opened Wrappers
  import opened Preconditions
  import opened Dispatch

  const MAX_REQUESTS_PER_TICK := 16

  datatype Response = Ok(result: Reply) | Error(code: Code)

  function ResponseTo(reply: Reply): (r: Response) {
    match reply
    case Failed(code) => Error(code)
    case Crashed => Error(LiveUnavailable)
    case _ => Ok(reply)
  }

  // What a response says of a reply: only a failure is an error, by its code, and a crash is LIVE_UNAVAILABLE;
  // anything else, a refused batch included, is a result.
  ghost predicate Tells(response: Response, reply: Reply) {
    && (forall c :: response == Error(c) <==> reply == Failed(c) || (reply == Crashed && c == LiveUnavailable))
    && (response.Ok? ==> response.result == reply)
  }

  // A request's generator: not started, inside one command, or inside a command of a batch.
  datatype Generator =
    | Fresh(request: Request)
    | Single(steps: Steps, owns: bool)
    | InBatch(commands: seq<BatchCommand>, results: seq<ItemResult>, steps: Steps, owns: bool)

  // What the generator still has to do, from the set `song` on.
  ghost function Rest(live: Live, g: Generator, song: Song): (o: Outcome)
    requires g.InBatch? ==> |g.results| < |g.commands|
  {
    match g
    case Fresh(request) => Run(live, request, song)
    case Single(steps, owns) => Close(live, owns, RunSteps(live, steps, song))
    case InBatch(commands, results, steps, owns) =>
      Close(live, owns, RunBatchItem(live, commands, results, steps, song))
  }

  // A suspended generator that can still write has an undo step open.
  ghost predicate Covered(g: Generator) {
    match g
    case Fresh(_) => true
    case Single(steps, owns) => Writes(steps) ==> owns
    case InBatch(commands, results, steps, owns) =>
      |results| < |commands| && (!owns ==> !Writes(steps) && BatchIsDryRunOnly(commands))
  }

  predicate HoldsUndo(g: Generator) {
    !g.Fresh? && g.owns
  }

  datatype Event = Began(request: nat) | Ended(request: nat) | Wrote(request: nat)

  // The request whose undo step is open after `log`; None also when `log` is not well bracketed.
  ghost function OpenStep(log: seq<Event>): (open: Option<nat>) {
    if log == [] then None
    else match log[|log| - 1]
      case Began(r) => Some(r)
      case Ended(_) => None
      case Wrote(_) => OpenStep(log[..|log| - 1])
  }

  // Every write happens inside the undo step of the request it belongs to.  Where steps can be ended,
  // they never nest, and each is closed by the request that opened it.
  ghost predicate Bracketed(log: seq<Event>, canEnd: bool) {
    log == [] ||
    (var before := log[..|log| - 1];
     Bracketed(before, canEnd) && match log[|log| - 1]
       case Began(_) => canEnd ==> OpenStep(before).None?
       case Ended(r) => canEnd && OpenStep(before) == Some(r)
       case Wrote(r) => OpenStep(before) == Some(r))
  }

  // The requests that opened an undo step, in order.
  ghost function Begun(log: seq<Event>): (requests: seq<nat>) {
    if log == [] then []
    else Begun(log[..|log| - 1]) + if log[|log| - 1].Began? then [log[|log| - 1].request] else []
  }

  lemma LogOneMore(log: seq<Event>, e: Event)
    ensures (log + [e])[..|log|] == log
    ensures Begun(log + [e]) == Begun(log) + if e.Began? then [e.request] else []
  {
    assert (log + [e])[..|log|] == log;
  }

  // The request opens an undo step: nothing is wrong with it, it is a mutation that does not only try
  // things out, and Live can begin one.
  ghost predicate Opens(live: Live, r: Request, song: Song) {
    Admitted(live, r, song) && Mutates(live, r) && live.CanBegin()
  }

  lemma OpensMeans(live: Live, r: Request, song: Song)
    ensures Opens(live, r, song) <==> Gate(live, r, song).None? && Owns(live, live.normalize(r.command), r.params)
  {
    hide Gate, Admitted, Mutates, Owns;
    GateMeans(live, r, song);
  }

  // Those among the first `n` requests that open an undo step, each on the set it started on.
  ghost function Openers(live: Live, accepted: seq<QueuedRequest>, starts: seq<Song>, n: nat): (requests: seq<nat>)
    requires n <= |accepted| && n <= |starts|
  {
    if n == 0 then []
    else
      Openers(live, accepted, starts, n - 1)
      + if Opens(live, accepted[n - 1].request, starts[n - 1]) then [n - 1] else []
  }

  lemma {:induction false} SameOpeners(
    live: Live, accepted: seq<QueuedRequest>, starts: seq<Song>, more: seq<QueuedRequest>, later: seq<Song>, n: nat)
    requires n <= |accepted| && n <= |starts| && accepted <= more && starts <= later
    ensures Openers(live, accepted, starts, n) == Openers(live, more, later, n)
  {
    if n > 0 {
      SameOpeners(live, accepted, starts, more, later, n - 1);
    }
  }

  lemma {:induction false} NoOpeners(live: Live, accepted: seq<QueuedRequest>, starts: seq<Song>, n: nat)
    requires n <= |accepted| && n <= |starts|
    ensures Openers(live, accepted, starts, n) == [] <==>
            forall i :: 0 <= i < n ==> !Opens(live, accepted[i].request, starts[i])
  {
    if n > 0 {
      NoOpeners(live, accepted, starts, n - 1);
    }
  }

  // An upper bound on how often a generator can still yield.
  ghost function Fuel(live: Live, g: Generator): (n: nat) {
    match g
    case Fresh(r) =>
      var name := live.normalize(r.command);
      if name != RunBatch then StepsOf(live, name, r.params).fuel
      else if r.params.commands.Some? then ItemsFuel(live, r.params.commands.value) else 0
    case Single(steps, _) => steps.fuel
    case InBatch(commands, results, steps, _) =>
      steps.fuel + if |results| < |commands| then ItemsFuel(live, commands[|results| + 1..]) else 0
  }

  ghost function ItemsFuel(live: Live, commands: seq<BatchCommand>): (n: nat) {
    if commands == [] then 0
    else StepsOfItem(live, commands[0]).fuel + ItemsFuel(live, commands[1..])
  }

  // Without an undo step of its own, a batch holds only commands that do not write.
  lemma ItemsAreCovered(live: Live, commands: seq<BatchCommand>, i: nat, owns: bool)
    requires Consistent(live) && i < |commands| && (!owns ==> BatchIsDryRunOnly(commands))
    ensures Writes(StepsOfItem(live, commands[i])) ==> owns
  {
    var validated := ValidatedBatchCommand(live, commands[i]);
    if !owns && validated.Accepted? {
      assert Dry(validated.kind, validated.params);
    }
  }

  lemma ItemFinished(live: Live, commands: seq<BatchCommand>, results: seq<ItemResult>, steps: Steps,
                     before: Song, reply: Reply, after: Song)
    requires |results| < |commands| && RunSteps(live, steps, before) == Outcome(reply, after, 0)
    ensures ItemCode(reply).Some? ==>
              RunBatchItem(live, commands, results, steps, before)
              == var all := results + [ItemError(|results|, ItemCode(reply).value)];
                 Outcome(BatchReply(all, |results|, Some(|results|)), after, 0)
    ensures ItemCode(reply).None? ==>
              RunBatchItem(live, commands, results, steps, before)
              == RunBatchFrom(live, commands, results + [ItemOk(|results|, reply)], after)
  {
  }

  lemma ItemYielded(live: Live, commands: seq<BatchCommand>, results: seq<ItemResult>, steps: Steps, later: Steps,
                    before: Song, after: Song)
    requires |results| < |commands|
    requires RunSteps(live, steps, before) == OneTickLater(RunSteps(live, later, after))
    ensures RunBatchItem(live, commands, results, steps, before)
         == OneTickLater(RunBatchItem(live, commands, results, later, after))
  {
  }

  lemma ItemsFuelFrom(live: Live, commands: seq<BatchCommand>, i: nat)
    requires i < |commands|
    ensures ItemsFuel(live, commands[i..])
         == StepsOfItem(live, commands[i]).fuel + ItemsFuel(live, commands[i + 1..])
  {
    assert commands[i..][1..] == commands[i + 1..];
  }

  // How often the generators of these runs yielded.
  ghost function TotalTicks(outcomes: seq<Outcome>): (total: nat) {
    if outcomes == [] then 0 else TotalTicks(outcomes[..|outcomes| - 1]) + outcomes[|outcomes| - 1].ticks
  }

  // What one `next` of a generator gives: it yields, to be resumed later, or it is done.
  datatype Progress<G> = Yielded(later: G) | Done(reply: Reply)

  // `slot` names the request's own response queue, which holds one response.
  datatype QueuedRequest = QueuedRequest(request: Request, slot: nat)

  datatype ActiveRequest = ActiveRequest(slot: nat, steps: Generator)

  class RequestProcessor {
    const live: Live
    var song: Song
    var queue: seq<QueuedRequest>
    var active: Option<ActiveRequest>
    var slots: nat
    var responses: map<nat, Response>
    var undoDepth: nat
    ghost var accepted: seq<QueuedRequest>
    ghost var starts: seq<Song>
    ghost var outcomes: seq<Outcome>
    ghost var log: seq<Event>
    ghost var spent: nat
    ghost var ticks: nat

    constructor (live: Live, song: Song)
      requires Consistent(live)
      ensures Valid() && this.live == live && this.song == song && accepted == [] && ticks == 0
    {
      this.live, this.song, queue, active, responses, undoDepth := live, song, [], None, map[], 0;
      slots := 0;
      accepted, starts, outcomes, log, spent, ticks := [], [], [], [], 0, 0;
    }

    // The queue and the responses: the first |outcomes| requests have exactly one response each.
    ghost predicate Queued()
      reads this`accepted, this`starts, this`outcomes, this`active, this`responses, this`slots
      reads this`queue, this`log, this`undoDepth
    {
      && Consistent(live)
      && |outcomes| <= |accepted| && |starts| == |outcomes| + (if active.Some? then 1 else 0)
      && (forall i: nat :: i in responses <==> i < |outcomes|)
      && slots == |accepted| && (forall i :: 0 <= i < |accepted| ==> accepted[i].slot == i)
      && (active.Some? ==> |outcomes| < |accepted| && active.value.slot == |outcomes|)
      && |starts| <= |accepted| && queue == accepted[|starts|..]
      && Undo(active.Some? && HoldsUndo(active.value.steps))
    }

    // Every response is the one `Run` prescribes, from the set the request started on.
    ghost predicate Answered()
      reads this`accepted, this`starts, this`outcomes, this`responses
    {
      && |outcomes| <= |accepted| && |outcomes| <= |starts|
      && forall i :: 0 <= i < |outcomes| ==>
           && outcomes[i] == Run(live, accepted[i].request, starts[i])
           && i in responses && Tells(responses[i], outcomes[i].reply)
    }

    // Resumed on the set `resumed`, the active request will do what is left of its `Run`.
    ghost predicate Engaged(resumed: Song)
      reads this`active, this`accepted, this`starts, this`outcomes, this`spent
    {
      active.Some? ==>
        && |outcomes| < |accepted| && |outcomes| < |starts| && Covered(active.value.steps)
        && var whole := Run(live, accepted[|outcomes|].request, starts[|outcomes|]);
           var rest := Rest(live, active.value.steps, resumed);
           whole == rest.(ticks := rest.ticks + spent)
    }

    // Between two UI ticks.
    ghost predicate Valid()
      reads this
    {
      Queued() && Answered() && Ledger() && Engaged(live.idle(song)) && (active.Some? ==> !active.value.steps.Fresh?)
    }

    predicate Idle()
      reads this
    {
      active.None? && queue == []
    }

    // The yields of all requests so far.
    ghost function Yields(): (n: nat)
      reads this`outcomes, this`active, this`spent
    {
      TotalTicks(outcomes) + if active.Some? then spent else 0
    }

    method Enqueue(request: Request)
      requires Valid()
      modifies this`queue, this`accepted, this`slots
      ensures Valid() && accepted == old(accepted) + [QueuedRequest(request, |old(accepted)|)]
      ensures outcomes == old(outcomes) && starts == old(starts) && Yields() == old(Yields())
    {
      hide Run, Rest, Undo, Consistent, Opens, Openers, Covered;
      ghost var before := accepted;
      queue, accepted := queue + [QueuedRequest(request, slots)], accepted + [QueuedRequest(request, slots)];
      slots := slots + 1;
      assert forall i :: 0 <= i < |before| ==> accepted[i] == before[i];
      SameOpeners(live, before, starts, accepted, starts, |starts|);
    }

    // The undo target.  Where steps can be ended, at most one is open, and only by the request being
    // served; otherwise every step ever opened is still open.
    ghost predicate Undo(holds: bool)
      reads this`log, this`outcomes, this`undoDepth
    {
      && Bracketed(log, live.CanEnd())
      && (holds ==> OpenStep(log) == Some(|outcomes|))
      && if live.CanEnd() then
           (!holds ==> OpenStep(log).None?) && undoDepth == if holds then 1 else 0
         else
           undoDepth == |Begun(log)|
    }

    // Undo steps were opened by exactly the requests that open one, of those that have started running.
    ghost predicate Ledger()
      reads this`log, this`accepted, this`starts, this`active
    {
      var begun := |starts| - if active.Some? && active.value.steps.Fresh? then 1 else 0;
      0 <= begun <= |accepted| && Begun(log) == Openers(live, accepted, starts, begun)
    }

    method BeginUndo() returns (ok: bool)
      requires Undo(false)
      modifies this`undoDepth, this`log
      ensures ok == live.CanBegin() && Undo(ok)
      ensures Begun(log) == Begun(old(log)) + if ok then [|outcomes|] else []
    {
      if live.CanBegin() {
        undoDepth, log := undoDepth + 1, log + [Began(|outcomes|)];
        LogOneMore(old(log), Began(|outcomes|));
      }
      ok := live.CanBegin();
    }

    // `end_undo_step`, in the `finally` of a command that gave `reply`.
    method EndUndo(owns: bool, reply: Reply) returns (closed: Reply)
      requires Undo(owns)
      modifies this`undoDepth, this`log
      ensures Undo(false) && Begun(log) == Begun(old(log))
      ensures forall o: Outcome :: o.reply == reply ==> Close(live, owns, o) == o.(reply := closed)
    {
      if !owns {
        return reply;
      }
      if !live.CanEnd() {
        return UndoFailure(live.end);
      }
      undoDepth, log := undoDepth - 1, log + [Ended(|outcomes|)];
      LogOneMore(old(log), Ended(|outcomes|));
      return reply;
    }

    // Run a handler up to its next yield.
    method Advance(steps: Steps, ghost holds: bool) returns (p: Progress<Steps>)
      requires Undo(holds) && (Writes(steps) ==> holds)
      modifies this`song, this`log
      ensures Undo(holds) && Begun(log) == Begun(old(log))
      ensures match p
              case Yielded(later) =>
                && later.fuel < steps.fuel && (Writes(later) ==> holds)
                && RunSteps(live, steps, old(song)) == OneTickLater(RunSteps(live, later, live.idle(song)))
              case Done(reply) => RunSteps(live, steps, old(song)) == Outcome(reply, song, 0)
    {
      var now := steps;
      while now.fuel > 0
        invariant Undo(holds) && Begun(log) == Begun(old(log))
        invariant now.next == steps.next && now.fuel <= steps.fuel
        invariant RunSteps(live, steps, old(song)) == RunSteps(live, now, song)
        decreases now.fuel
      {
        var move := now.next(now.local, song);
        if move.Return? {
          return Done(move.reply);
        }
        now := Later(now, move.local);
        if move.Yield? {
          return Yielded(now);
        }
        LogOneMore(log, Wrote(|outcomes|));
        song, log := move.song, log + [Wrote(|outcomes|)];
      }
      return Done(Crashed);
    }

    // One command of a batch: it yields, ends the batch, or makes way for the next one.
    method AdvanceItem(commands: seq<BatchCommand>, results: seq<ItemResult>, steps: Steps, owns: bool)
      returns (p: Option<Progress<Generator>>, results': seq<ItemResult>, steps': Steps)
      requires Consistent(live) && Covered(InBatch(commands, results, steps, owns)) && Undo(owns)
      modifies this`song, this`log
      ensures Undo(owns) && Begun(log) == Begun(old(log))
      ensures match p
              case Some(Yielded(g)) =>
                && g.InBatch? && Covered(g) && g.commands == commands && g.owns == owns && g.results == results
                && g.steps.fuel < steps.fuel
                && RunBatchItem(live, commands, results, steps, old(song))
                   == OneTickLater(RunBatchItem(live, commands, results, g.steps, live.idle(song)))
              case Some(Done(reply)) =>
                RunBatchItem(live, commands, results, steps, old(song)) == Outcome(reply, song, 0)
              case None =>
                && |results'| == |results| + 1 && Covered(InBatch(commands, results', steps', owns))
                && steps'.fuel + ItemsFuel(live, commands[|results'| + 1..]) == ItemsFuel(live, commands[|results'|..])
                && RunBatchItem(live, commands, results, steps, old(song))
                   == RunBatchItem(live, commands, results', steps', song)
    {
      results', steps' := results, steps;
      var item := Advance(steps, owns);
      if item.Yielded? {
        ItemYielded(live, commands, results, steps, item.later, old(song), live.idle(song));
        p := Some(Yielded(InBatch(commands, results, item.later, owns)));
        return;
      }
      ItemFinished(live, commands, results, steps, old(song), item.reply, song);
      var index := |results|;
      if ItemCode(item.reply).Some? {
        p := Some(Done(BatchReply(results + [ItemError(index, ItemCode(item.reply).value)], index, Some(index))));
        return;
      }
      results' := results + [ItemOk(index, item.reply)];
      if |results'| == |commands| {
        p := Some(Done(BatchReply(results', |results'|, None)));
        return;
      }
      p, steps' := None, StepsOfItem(live, commands[|results'|]);
      ItemsAreCovered(live, commands, |results'|, owns);
      ItemsFuelFrom(live, commands, |results'|);
    }

    // Run a batch up to the next yield of one of its commands.
    method AdvanceBatch(commands: seq<BatchCommand>, results0: seq<ItemResult>, steps0: Steps, owns: bool)
      returns (p: Progress<Generator>)
      requires Consistent(live) && Covered(InBatch(commands, results0, steps0, owns)) && Undo(owns)
      modifies this`song, this`log
      ensures Undo(owns) && Begun(log) == Begun(old(log))
      ensures match p
              case Yielded(g) =>
                && g.InBatch? && Covered(g) && g.commands == commands && g.owns == owns
                && g.steps.fuel + ItemsFuel(live, commands[|g.results| + 1..])
                   < steps0.fuel + ItemsFuel(live, commands[|results0| + 1..])
                && RunBatchItem(live, commands, results0, steps0, old(song))
                   == OneTickLater(RunBatchItem(live, commands, g.results, g.steps, live.idle(song)))
              case Done(reply) =>
                RunBatchItem(live, commands, results0, steps0, old(song)) == Outcome(reply, song, 0)
    {
      hide RunBatchItem, RunBatchFrom, ItemsFuel, RunSteps, StepsOfItem, Undo, Consistent, Writes;
      var results, steps := results0, steps0;
      while true
        invariant Covered(InBatch(commands, results, steps, owns)) && Undo(owns) && Begun(log) == Begun(old(log))
        invariant steps.fuel + ItemsFuel(live, commands[|results| + 1..])
               <= steps0.fuel + ItemsFuel(live, commands[|results0| + 1..])
        invariant RunBatchItem(live, commands, results0, steps0, old(song))
               == RunBatchItem(live, commands, results, steps, song)
        decreases |commands| - |results|
      {
        var item;
        item, results, steps := AdvanceItem(commands, results, steps, owns);
        if item.Some? {
          return item.value;
        }
      }
    }

    // Start a request's generator and run it up to its first yield.
    method Start(r: Request) returns (p: Progress<Generator>)
      requires Consistent(live) && Undo(false)
      modifies this`song, this`undoDepth, this`log
      ensures Begun(log) == Begun(old(log)) + if Opens(live, r, old(song)) then [|outcomes|] else []
      ensures match p
              case Yielded(g) =>
                && !g.Fresh? && Covered(g) && Undo(HoldsUndo(g)) && Fuel(live, g) < Fuel(live, Fresh(r))
                && Run(live, r, old(song)) == OneTickLater(Rest(live, g, live.idle(song)))
              case Done(reply) => Undo(false) && Run(live, r, old(song)) == Outcome(reply, song, 0)
    {
      hide RunSteps, RunBatchFrom, RunBatchItem, Undo, Opens;
      var name := live.normalize(r.command);
      OpensMeans(live, r, song);
      if name in live.readOnly {
        return Done(Failed(ReadOnlyViolation));
      }
      if name in live.unsupported {
        return Done(live.refusal(name, r.params, song));
      }
      if name == RunBatch {
        var error := AdmitBatch(song.slots, r.params.preconditions);
        AdmissionIsVerdict(r.params.preconditions, song.slots, error);
        if error.Some? {
          return Done(Refused(error.value));
        }
      }
      var dryRunOnly := DryRunOnly(name, r.params);
      if dryRunOnly.None? {
        return Done(Failed(InvalidParams));
      }
      var owns := name in live.mutations && !dryRunOnly.value;
      if owns {
        var began := BeginUndo();
        if !began {
          return Done(UndoFailure(live.begin));
        }
      }
      if name != RunBatch {
        p := StartSingle(name, r.params, owns);
      } else if r.params.commands.None? || r.params.commands.value == [] {
        var reply := EndUndo(owns, Failed(InvalidParams));
        p := Done(reply);
      } else {
        p := StartBatch(r.params.commands.value, owns);
      }
    }

    method StartSingle(name: Name, params: Params, owns: bool) returns (p: Progress<Generator>)
      requires Consistent(live) && Undo(owns) && name != RunBatch
      requires owns <==> Owns(live, name, params)
      modifies this`song, this`undoDepth, this`log
      ensures Begun(log) == Begun(old(log))
      ensures match p
              case Yielded(g) =>
                && g.Single? && Covered(g) && Undo(g.owns) && g.steps.fuel < StepsOf(live, name, params).fuel
                && Close(live, owns, RunSteps(live, StepsOf(live, name, params), old(song)))
                   == OneTickLater(Rest(live, g, live.idle(song)))
              case Done(reply) =>
                && Undo(false)
                && Close(live, owns, RunSteps(live, StepsOf(live, name, params), old(song))) == Outcome(reply, song, 0)
    {
      var steps := StepsOf(live, name, params);
      var single := Advance(steps, owns);
      if single.Yielded? {
        return Yielded(Single(single.later, owns));
      }
      var reply := EndUndo(owns, single.reply);
      return Done(reply);
    }

    method StartBatch(commands: seq<BatchCommand>, owns: bool) returns (p: Progress<Generator>)
      requires Consistent(live) && Undo(owns) && commands != []
      requires owns || BatchIsDryRunOnly(commands)
      modifies this`song, this`undoDepth, this`log
      ensures Begun(log) == Begun(old(log))
      ensures match p
              case Yielded(g) =>
                && g.InBatch? && Covered(g) && Undo(g.owns) && Fuel(live, g) < ItemsFuel(live, commands)
                && Close(live, owns, RunBatchFrom(live, commands, [], old(song)))
                   == OneTickLater(Rest(live, g, live.idle(song)))
              case Done(reply) =>
                Undo(false) && Close(live, owns, RunBatchFrom(live, commands, [], old(song))) == Outcome(reply, song, 0)
    {
      ItemsAreCovered(live, commands, 0, owns);
      assert ItemsFuel(live, commands) == StepsOfItem(live, commands[0]).fuel + ItemsFuel(live, commands[1..]);
      var batch := AdvanceBatch(commands, [], StepsOfItem(live, commands[0]), owns);
      if batch.Yielded? {
        return batch;
      }
      var reply := EndUndo(owns, batch.reply);
      return Done(reply);
    }

    // One `next` of a request's generator.
    method Next(g: Generator) returns (p: Progress<Generator>)
      requires Consistent(live) && Covered(g) && Undo(HoldsUndo(g))
      modifies this`song, this`undoDepth, this`log
      ensures Begun(log) == Begun(old(log)) +
                            if g.Fresh? && Opens(live, g.request, old(song)) then [|outcomes|] else []
      ensures match p
              case Yielded(later) =>
                && !later.Fresh? && Covered(later) && Undo(HoldsUndo(later)) && Fuel(live, later) < Fuel(live, g)
                && Rest(live, g, old(song)) == OneTickLater(Rest(live, later, live.idle(song)))
              case Done(reply) => Undo(false) && Rest(live, g, old(song)) == Outcome(reply, song, 0)
    {
      if g.Fresh? {
        p := Start(g.request);
        return;
      }
      if g.Single? {
        var single := Advance(g.steps, g.owns);
        if single.Yielded? {
          return Yielded(Single(single.later, g.owns));
        }
        var reply := EndUndo(g.owns, single.reply);
        return Done(reply);
      }
      var batch := AdvanceBatch(g.commands, g.results, g.steps, g.owns);
      if batch.Yielded? {
        return batch;
      }
      var reply := EndUndo(g.owns, batch.reply);
      return Done(reply);
    }

    // What is left to do, for termination: a suspended request, or else the head of the queue.
    ghost function Load(): (n: nat)
      reads this`active, this`queue
    {
      if active.Some? then Fuel(live, active.value.steps)
      else if queue != [] then Fuel(live, Fresh(queue[0].request)) + 1 else 0
    }

    // Take the next request off the queue.
    method Dequeue()
      requires Queued() && Answered() && Ledger() && active.None? && queue != []
      modifies this`queue, this`active, this`starts, this`spent
      ensures Queued() && Answered() && Ledger() && Engaged(song)
      ensures active == Some(ActiveRequest(|outcomes|, Fresh(accepted[|outcomes|].request)))
      ensures starts == old(starts) + [song]
      ensures spent == 0 && Yields() == old(Yields()) && Load() < old(Load())
    {
      hide Opens, Openers, Run, Undo, Consistent, StepsOf, ItemsFuel;
      var head := queue[0];
      assert accepted[|outcomes|] == head;
      SameOpeners(live, accepted, starts, accepted, starts + [song], |starts|);
      active, queue := Some(ActiveRequest(head.slot, Fresh(head.request))), queue[1..];
      starts, spent := starts + [song], 0;
    }

    // Put the response of the active request into its (empty) slot.
    method Respond(reply: Reply)
      requires Consistent(live) && active.Some? && |outcomes| < |accepted| && |starts| == |outcomes| + 1
      requires slots == |accepted| && (forall i :: 0 <= i < |accepted| ==> accepted[i].slot == i)
      requires active.value.slot == |outcomes|
      requires (forall i: nat :: i in responses <==> i < |outcomes|) && Answered() && Undo(false)
      requires queue == accepted[|starts|..]
      requires Run(live, accepted[|outcomes|].request, starts[|outcomes|]) == Outcome(reply, song, spent)
      modifies this`active, this`responses, this`outcomes
      ensures Queued() && Answered() && active.None?
      ensures outcomes == old(outcomes) + [Outcome(reply, song, old(spent))]
      ensures |old(outcomes)| in responses && |old(outcomes)| !in old(responses)
      ensures responses == old(responses)[|old(outcomes)| := responses[|old(outcomes)|]]
      ensures Tells(responses[|old(outcomes)|], reply)
    {
      hide Run;
      responses, active := responses[active.value.slot := ResponseTo(reply)], None;
      outcomes := outcomes + [Outcome(reply, song, spent)];
    }

    // Resume the active request once: it yields, or it is answered.
    method ServeActive() returns (suspended: bool)
      requires Queued() && Answered() && Ledger() && Engaged(song) && active.Some?
      requires active.value.steps.Fresh? ==>
                 starts[|outcomes|] == song && active.value.steps.request == accepted[|outcomes|].request
      modifies this`song, this`undoDepth, this`log, this`active, this`responses, this`outcomes, this`spent
      ensures Queued() && Answered() && Ledger()
      ensures suspended ==>
                && Engaged(live.idle(song)) && active.Some? && !active.value.steps.Fresh?
                && Fuel(live, active.value.steps) < old(Fuel(live, active.value.steps))
                && outcomes == old(outcomes) && Yields() == old(Yields()) + 1
      ensures !suspended ==>
                && active.None? && |outcomes| == |old(outcomes)| + 1 && old(outcomes) <= outcomes
                && Yields() == old(Yields())
    {
      hide Run, Fuel, Undo, Consistent, Answered, Opens, Covered;
      var p := Next(active.value.steps);
      if p.Yielded? {
        active, spent := Some(active.value.(steps := p.later)), spent + 1;
        return true;
      }
      ghost var before := outcomes;
      Respond(p.reply);
      assert outcomes[..|before|] == before;
      return false;
    }

    // One UI tick: serve requests until one yields, 16 are answered or none is left.
    method ProcessPending() returns (processed: nat)
      requires Queued() && Answered() && Ledger() && Engaged(song)
      requires active.Some? ==> !active.value.steps.Fresh?
      modifies this`song, this`undoDepth, this`log, this`active, this`responses, this`outcomes, this`spent,
               this`queue, this`starts
      ensures Valid()
      ensures |outcomes| == |old(outcomes)| + processed && processed <= MAX_REQUESTS_PER_TICK
      ensures old(outcomes) <= outcomes
      ensures if active.Some? then Yields() == old(Yields()) + 1
              else Yields() == old(Yields()) && (Idle() || processed == MAX_REQUESTS_PER_TICK)
      ensures processed == 0 && !Idle() ==> Load() < old(Load())
    {
      hide Run, Rest, Fuel, Undo, Consistent, Answered, TotalTicks, Yields, Openers;
      processed := 0;
      while processed < MAX_REQUESTS_PER_TICK
        invariant Queued() && Answered() && Ledger() && Engaged(song)
        invariant active.Some? ==> !active.value.steps.Fresh?
        invariant |outcomes| == |old(outcomes)| + processed && processed <= MAX_REQUESTS_PER_TICK
        invariant old(outcomes) <= outcomes
        invariant Yields() == old(Yields()) && (processed > 0 ==> active.None?)
        invariant processed == 0 ==> Load() == old(Load())
      {
        if active.None? {
          if queue == [] {
            return;
          }
          Dequeue();
        }
        var suspended := ServeActive();
        if suspended {
          return;
        }
        processed := processed + 1;
      }
    }

    // Live's own pass over the set, then one tick of the bridge.
    method Tick() returns (processed: nat)
      requires Valid()
      modifies this
      ensures Valid() && ticks == old(ticks) + 1 && accepted == old(accepted) && slots == old(slots)
      ensures |outcomes| == |old(outcomes)| + processed && processed <= MAX_REQUESTS_PER_TICK
      ensures old(outcomes) <= outcomes
      ensures if active.Some? then Yields() == old(Yields()) + 1
              else Yields() == old(Yields()) && (Idle() || processed == MAX_REQUESTS_PER_TICK)
      ensures processed == 0 && !Idle() ==> Load() < old(Load())
    {
      hide Run, Rest, Fuel, Undo, Consistent, Answered, TotalTicks, Yields, Openers;
      song, ticks := live.idle(song), ticks + 1;
      processed := ProcessPending();
    }

    lemma IdleWhenAnswered()
      requires Valid()
      ensures |outcomes| <= |accepted| && (Idle() <==> |outcomes| == |accepted|)
    {
      hide Answered, Ledger, Engaged, Undo, Consistent;
    }

    lemma AllAnswered()
      requires Valid() && Idle()
      ensures |outcomes| == |accepted| == |starts|
      ensures undoDepth == if live.CanEnd() then 0 else |Openers(live, accepted, starts, |accepted|)|
      ensures forall i :: 0 <= i < |accepted| ==>
                i in responses && Tells(responses[i], Run(live, accepted[i].request, starts[i]).reply)
    {
      hide Engaged, Consistent, Bracketed, OpenStep, Openers, Tells, Run;
    }

    // Ticks until every accepted request is answered.
    method ServeAll()
      requires Valid()
      modifies this
      ensures Valid() && Idle() && accepted == old(accepted) && |outcomes| == |accepted| == |starts|
      // Every response tells how the request's run ended.
      ensures forall i :: 0 <= i < |accepted| ==>
                && i in responses
                && var reply, response := Run(live, accepted[i].request, starts[i]).reply, responses[i];
                   && (response.Error? <==> reply.Failed? || reply.Crashed?)
                   && (response.Error? ==> response.code == if reply.Failed? then reply.code else LiveUnavailable)
                   && (response.Ok? ==> response.result == reply)
      // No undo step is left open exactly where steps can be ended or no request opened one.
      ensures undoDepth == if live.CanEnd() then 0 else |Openers(live, accepted, starts, |accepted|)|
      ensures undoDepth == 0 <==>
              live.CanEnd() || forall i :: 0 <= i < |accepted| ==> !Opens(live, accepted[i].request, starts[i])
      ensures ticks - old(ticks)
           <= Yields() - old(Yields()) + (|accepted| - |old(outcomes)|) / MAX_REQUESTS_PER_TICK + 1
    {
      hide Valid, Opens, Openers, Load, Yields;
      ghost var full := 0;
      IdleWhenAnswered();
      while !Idle()
        invariant Valid() && accepted == old(accepted) && |outcomes| <= |accepted|
        invariant |outcomes| >= |old(outcomes)| + MAX_REQUESTS_PER_TICK * full
        invariant ticks - old(ticks) <= Yields() - old(Yields()) + full + if Idle() then 1 else 0
        decreases |accepted| - |outcomes|, Load()
      {
        IdleWhenAnswered();
        var processed := Tick();
        IdleWhenAnswered();
        if processed == MAX_REQUESTS_PER_TICK && !active.Some? {
          full := full + 1;
        }
      }
      AllAnswered();
      NoOpeners(live, accepted, starts, |accepted|);
    }
  }

  // A host on which one command can be run that opens an undo step, and undo steps cannot be ended.
  function Leaky(): (live: Live)
    ensures Consistent(live)
  {
    Live((n: Name) => n, {RunBatch, SetTempo}, {}, {}, (_, _) => None, (_, _, _) => Crashed, (s: Song) => s, Works, Missing)
  }

  // There the undo step of a single request stays open for good.
  method LeakOneStep(song: Song) returns (depth: nat)
    ensures depth == 1
  {
    var p := new RequestProcessor(Leaky(), song);
    var request := Request(SetTempo, Params(NotGiven, None, Absent, 0));
    p.Enqueue(request);
    p.ServeAll();
    assert Opens(Leaky(), request, p.starts[0]);
    assert Openers(p.live, p.accepted, p.starts, 1) == [0];
    depth := p.undoDepth;
  }
}
