/**
 What one request means: command dispatch, dry runs, undo grouping and `run_batch`.

 A handler is a generator, whose next move depends on its local variables and on the set.  The
 specification `Run` executes a request from beginning to end, Live's own UI pass (`live.idle`) taking
 place at each yield.
 */
module Dispatch {
  import opened Wrappers
  import opened Preconditions

  // The Live set: its Session grid and everything else.
  datatype Song = Song(slots: Slots, rest: int)

  datatype Reply =
    | Value(value: int)
    | Failed(code: Code)      // a RemoteError
    | Crashed                 // any other exception
    | Refused(code: Code)     // an admission error, which is the *result* of a batch
    | BatchReply(results: seq<ItemResult>, completed: nat, abortedAt: Option<nat>)

  datatype ItemResult = ItemOk(index: nat, result: Reply) | ItemError(index: nat, code: Code)

  // What a handler does next: change the set and go on, wait for the next tick, or return or raise.
  datatype Move =
    | Write(song: Song, local: int)
    | Yield(local: int)
    | Return(reply: Reply)

  // A handler under way: its local variables, as a number, and a bound on the moves it has left; one
  // that used them all up would crash.
  datatype Steps = Steps(next: (int, Song) -> Move, local: int, fuel: nat)

  function Just(reply: Reply): (steps: Steps) {
    Steps((_, _) => Return(reply), 0, 1)
  }

  datatype DryRun = NotGiven | Flag(on: bool) | NotBoolean

  // `commands` is None when it is missing or not a list.
  datatype Params = Params(dryRun: DryRun, commands: Option<seq<BatchCommand>>, preconditions: RawList, payload: int)

  // `kind` is None unless it is a string, `params` unless it is an object (or missing, an empty one).  A
  // list or an object as the type cannot even be looked up in the command table.
  datatype BatchCommand = NotAnObject | UnhashableType | Command(kind: Option<Name>, params: Option<Params>)

  // A command name as it is spelt in the request.
  datatype Name = RunBatch | SetTempo | CreateClip | OtherName(text: string)

  datatype Request = Request(command: Name, params: Params)

  // An undo call of Live; one that raises has no effect.
  datatype UndoCall = Missing | Raises | Works

  datatype Live = Live(
    normalize: Name -> Name,
    mutations: set<Name>,
    readOnly: set<Name>,
    unsupported: set<Name>,
    handler: (Name, Params) -> Option<Steps>,
    refusal: (Name, Params, Song) -> Reply,
    idle: Song -> Song,
    begin: UndoCall,
    end: UndoCall)
  {
    predicate CanBegin() {
      begin.Works?
    }

    predicate CanEnd() {
      end.Works?
    }
  }

  // How a command fails when an undo call does.
  function UndoFailure(call: UndoCall): (reply: Reply) {
    if call.Missing? then Failed(LiveUnavailable) else Crashed
  }

  const DRY_RUN_COMMANDS: set<Name> := {SetTempo, CreateClip}

  ghost predicate Writes(steps: Steps) {
    exists local, song :: steps.next(local, song).Write?
  }

  predicate Dry(name: Name, params: Params) {
    name in DRY_RUN_COMMANDS && params.dryRun == Flag(true)
  }

  // The command tables are normalized and disjoint, and only mutations that are not dry runs write.
  ghost predicate Consistent(live: Live) {
    && RunBatch in live.mutations
    && (forall m :: m in live.mutations ==> live.normalize(m) == m && m !in live.readOnly && m !in live.unsupported)
    && (forall n, p :: live.handler(n, p).Some? && Writes(live.handler(n, p).value) ==>
          n in live.mutations && !Dry(n, p))
  }

  // ---------------------------------------------------------------- dry runs and batch items

  // Whether nothing in the request can write; None when `dry_run` is not a boolean.
  function DryRunOnly(name: Name, params: Params): (dry: Option<bool>) {
    if name in DRY_RUN_COMMANDS then
      if params.dryRun.NotBoolean? then None else Some(params.dryRun == Flag(true))
    else if name != RunBatch || params.commands.None? || params.commands.value == [] then Some(false)
    else Some(BatchIsDryRunOnly(params.commands.value))
  }

  predicate BatchIsDryRunOnly(commands: seq<BatchCommand>) {
    forall i | 0 <= i < |commands| ::
      && commands[i].Command?
      && commands[i].kind.Some? && commands[i].kind.value in DRY_RUN_COMMANDS
      && commands[i].params.Some? && commands[i].params.value.dryRun == Flag(true)
  }

  datatype Validated = Accepted(kind: Name, params: Params) | Rejected(code: Code)

  function ValidatedBatchCommand(live: Live, command: BatchCommand): (v: Validated) {
    if command.NotAnObject? then Rejected(InvalidParams)
    else if command.UnhashableType? then Rejected(InternalError)
    else if command.kind == Some(RunBatch) then Rejected(BadInput)
    else if command.kind.None? || command.kind.value !in live.mutations then Rejected(ReadOnlyViolation)
    else if command.params.None? then Rejected(InvalidParams)
    else Accepted(command.kind.value, command.params.value)
  }

  // ---------------------------------------------------------------- the meaning of a request

  datatype Outcome = Outcome(reply: Reply, song: Song, ticks: nat)

  function RunSteps(live: Live, steps: Steps, song: Song): (o: Outcome)
    decreases steps.fuel
  {
    if steps.fuel == 0 then Outcome(Crashed, song, 0)
    else
      match steps.next(steps.local, song)
      case Write(after, local) => RunSteps(live, Later(steps, local), after)
      case Yield(local) => OneTickLater(RunSteps(live, Later(steps, local), live.idle(song)))
      case Return(reply) => Outcome(reply, song, 0)
  }

  // The handler one move later.
  function Later(steps: Steps, local: int): (later: Steps)
    requires steps.fuel > 0
  {
    steps.(local := local, fuel := steps.fuel - 1)
  }

  function OneTickLater(o: Outcome): (later: Outcome) {
    o.(ticks := o.ticks + 1)
  }

  // What a command does once it is known not to be a batch, a blocked or an unsupported one.
  function StepsOf(live: Live, name: Name, params: Params): (steps: Steps) {
    if DryRunOnly(name, params).None? then Just(Failed(InvalidParams))
    else if live.handler(name, params).None? then Just(Failed(UnknownCommand))
    else live.handler(name, params).value
  }

  // One item of a batch.
  function StepsOfItem(live: Live, command: BatchCommand): (steps: Steps) {
    match ValidatedBatchCommand(live, command)
    case Rejected(code) => Just(Failed(code))
    case Accepted(kind, params) => StepsOf(live, kind, params)
  }

  function ItemCode(reply: Reply): (code: Option<Code>) {
    match reply
    case Failed(code) => Some(code)
    case Crashed => Some(InternalError)
    case _ => None
  }

  // The batch from item |results| on, the items before having given `results`.
  function RunBatchFrom(live: Live, commands: seq<BatchCommand>, results: seq<ItemResult>, song: Song): (o: Outcome)
    requires |results| <= |commands|
    decreases |commands| - |results|, 1
  {
    if |results| == |commands| then Outcome(BatchReply(results, |results|, None), song, 0)
    else RunBatchItem(live, commands, results, StepsOfItem(live, commands[|results|]), song)
  }

  // The same with item |results| under way.
  function RunBatchItem(
    live: Live, commands: seq<BatchCommand>, results: seq<ItemResult>, steps: Steps, song: Song): (o: Outcome)
    requires |results| < |commands|
    decreases |commands| - |results|, 0
  {
    var item := RunSteps(live, steps, song);
    var index := |results|;
    if ItemCode(item.reply).Some? then
      var all := results + [ItemError(index, ItemCode(item.reply).value)];
      Outcome(BatchReply(all, index, Some(index)), item.song, item.ticks)
    else
      var o := RunBatchFrom(live, commands, results + [ItemOk(index, item.reply)], item.song);
      o.(ticks := o.ticks + item.ticks)
  }

  function RunBody(live: Live, name: Name, params: Params, song: Song): (o: Outcome) {
    if name == RunBatch then
      if params.commands.None? || params.commands.value == [] then Outcome(Failed(InvalidParams), song, 0)
      else RunBatchFrom(live, params.commands.value, [], song)
    else RunSteps(live, StepsOf(live, name, params), song)
  }

  // The undo step around a body: what closing it raises takes the place of what the body gave.
  function Close(live: Live, owns: bool, o: Outcome): (closed: Outcome) {
    if owns && !live.CanEnd() then o.(reply := UndoFailure(live.end)) else o
  }

  predicate Owns(live: Live, name: Name, params: Params) {
    name in live.mutations && DryRunOnly(name, params) == Some(false)
  }

  // What is decided before an undo step is opened: a reply, or that the body runs.
  ghost function Gate(live: Live, r: Request, song: Song): (reply: Option<Reply>) {
    var name := live.normalize(r.command);
    if name in live.readOnly then Some(Failed(ReadOnlyViolation))
    else if name in live.unsupported then Some(live.refusal(name, r.params, song))
    else if name == RunBatch && Admission(r.params.preconditions, song.slots).Some? then
      Some(Refused(Admission(r.params.preconditions, song.slots).value))
    else if DryRunOnly(name, r.params).None? then Some(Failed(InvalidParams))
    else if Owns(live, name, r.params) && !live.CanBegin() then Some(UndoFailure(live.begin))
    else None
  }

  ghost function Run(live: Live, r: Request, song: Song): (o: Outcome) {
    var name := live.normalize(r.command);
    var gate := Gate(live, r, song);
    if gate.Some? then Outcome(gate.value, song, 0)
    else Close(live, Owns(live, name, r.params), RunBody(live, name, r.params, song))
  }

  // ---------------------------------------------------------------- a batch is a fold

  // The set after the first `count` commands, each run on its own.
  function FoldSongs(live: Live, commands: seq<BatchCommand>, count: nat, song: Song): (s: Song)
    requires count <= |commands|
  {
    if count == 0 then song
    else RunSteps(live, StepsOfItem(live, commands[count - 1]), FoldSongs(live, commands, count - 1, song)).song
  }

  // What command `i` gives when the ones before it have run, each on its own.
  function ItemOutcome(live: Live, commands: seq<BatchCommand>, i: nat, song: Song): (o: Outcome)
    requires i < |commands|
  {
    RunSteps(live, StepsOfItem(live, commands[i]), FoldSongs(live, commands, i, song))
  }

  // `results` reports commands 0, 1, ... of the fold, all of them successes.
  ghost predicate ReportsFold(live: Live, commands: seq<BatchCommand>, results: seq<ItemResult>, song: Song) {
    && |results| <= |commands|
    && forall i :: 0 <= i < |results| ==>
         var reply := ItemOutcome(live, commands, i, song).reply;
         ItemCode(reply).None? && results[i] == ItemOk(i, reply)
  }

  // A batch reply: the successes of the fold up to its first error, and that error if there is one.
  ghost predicate FoldReply(live: Live, commands: seq<BatchCommand>, song: Song, o: Outcome) {
    && o.reply.BatchReply?
    && var n := o.reply.completed;
    && n <= |commands| && n <= |o.reply.results| && ReportsFold(live, commands, o.reply.results[..n], song)
    && if o.reply.abortedAt.None? then
         n == |commands| == |o.reply.results| && o.song == FoldSongs(live, commands, n, song)
       else
         && o.reply.abortedAt == Some(n) && n < |commands| && |o.reply.results| == n + 1
         && var item := ItemOutcome(live, commands, n, song);
         && ItemCode(item.reply).Some? && o.reply.results[n] == ItemError(n, ItemCode(item.reply).value)
         && o.song == item.song
  }

  lemma {:induction false} BatchFrom(
    live: Live, commands: seq<BatchCommand>, results: seq<ItemResult>, start: Song, song: Song)
    requires ReportsFold(live, commands, results, start) && song == FoldSongs(live, commands, |results|, start)
    ensures FoldReply(live, commands, start, RunBatchFrom(live, commands, results, song))
    decreases |commands| - |results|
  {
    if |results| == |commands| {
      assert results[..|results|] == results;
    } else {
      var index := |results|;
      var item := ItemOutcome(live, commands, index, start);
      if ItemCode(item.reply).Some? {
        assert (results + [ItemError(index, ItemCode(item.reply).value)])[..index] == results;
      } else {
        BatchFrom(live, commands, results + [ItemOk(index, item.reply)], start, item.song);
      }
    }
  }

  // A batch is the left fold of its single commands, up to and including the first that fails.
  lemma BatchIsFold(live: Live, commands: seq<BatchCommand>, song: Song)
    ensures FoldReply(live, commands, song, RunBatchFrom(live, commands, [], song))
  {
    BatchFrom(live, commands, [], song, song);
  }

  // A command of a batch does what the same command does as a request of its own.
  lemma ItemIsSingleRequest(live: Live, kind: Name, params: Params, song: Song)
    requires Consistent(live) && live.CanBegin() && live.CanEnd()
    requires kind in live.mutations && kind != RunBatch
    ensures Run(live, Request(kind, params), song)
         == RunSteps(live, StepsOfItem(live, Command(Some(kind), Some(params))), song)
  {
    assert live.normalize(kind) == kind;
  }

  // Nothing happens between admission and the first command: it runs on the very set in which every
  // named slot was found to exist and to be empty.
  lemma FirstCommandSeesAdmittedSlots(live: Live, r: Request, song: Song)
    requires live.normalize(r.command) == RunBatch && Gate(live, r, song).None?
    requires r.params.commands.Some? && r.params.commands.value != []
    ensures Acceptable(r.params.preconditions)
    ensures forall item :: item in Named(r.params.preconditions) ==> Empty(song.slots, item)
    ensures var commands := r.params.commands.value;
            var first := RunSteps(live, StepsOfItem(live, commands[0]), song);
            var o := RunBody(live, RunBatch, r.params, song);
            && o.reply.BatchReply? && o.reply.results != []
            && o.reply.results[0] == match ItemCode(first.reply)
                                     case None => ItemOk(0, first.reply)
                                     case Some(code) => ItemError(0, code)
  {
    AdmissionIsVerdict(r.params.preconditions, song.slots, None);
    var commands := r.params.commands.value;
    BatchIsFold(live, commands, song);
    assert FoldSongs(live, commands, 0, song) == song;
    var o := RunBody(live, RunBatch, r.params, song);
    if o.reply.completed > 0 {
      assert o.reply.results[..o.reply.completed][0] == ItemOk(0, ItemOutcome(live, commands, 0, song).reply);
    }
  }

  // ---------------------------------------------------------------- what a request does, case by case

  // Nothing that a batch command or a request asks for is written: it is a dry run.
  ghost predicate DryCommand(c: BatchCommand) {
    && c.Command? && c.kind.Some? && c.kind.value in {SetTempo, CreateClip}
    && c.params.Some? && c.params.value.dryRun == Flag(true)
  }

  ghost predicate TriesOut(name: Name, params: Params) {
    if name == RunBatch then
      params.commands.Some? && params.commands.value != [] && forall c :: c in params.commands.value ==> DryCommand(c)
    else name in {SetTempo, CreateClip} && params.dryRun == Flag(true)
  }

  ghost predicate Blocked(live: Live, name: Name) {
    name in live.readOnly || name in live.unsupported
  }

  // Nothing is wrong with the request before it runs.
  ghost predicate Admitted(live: Live, r: Request, song: Song) {
    var name := live.normalize(r.command);
    && !Blocked(live, name)
    && (name == RunBatch ==> Verdict(r.params.preconditions, song.slots, None))
    && !(name in {SetTempo, CreateClip} && r.params.dryRun.NotBoolean?)
  }

  // It runs inside an undo step of its own.
  ghost predicate Mutates(live: Live, r: Request) {
    live.normalize(r.command) in live.mutations && !TriesOut(live.normalize(r.command), r.params)
  }

  // The error that an undo call gives which does not work.
  ghost predicate UndoError(call: UndoCall, reply: Reply) {
    match call
    case Missing => reply == Failed(LiveUnavailable)
    case Raises => reply == Crashed
    case Works => false
  }

  // What runs once the request is admitted and its undo step, if it needs one, is open.
  ghost function Body(live: Live, r: Request, song: Song): (o: Outcome) {
    var name := live.normalize(r.command);
    if name == RunBatch then
      if r.params.commands.None? || r.params.commands.value == [] then Outcome(Failed(InvalidParams), song, 0)
      else RunBatchFrom(live, r.params.commands.value, [], song)
    else if live.handler(name, r.params).None? then Outcome(Failed(UnknownCommand), song, 0)
    else RunSteps(live, live.handler(name, r.params).value, song)
  }

  lemma DryRunMeans(name: Name, params: Params)
    ensures DryRunOnly(name, params).None? <==> name in {SetTempo, CreateClip} && params.dryRun.NotBoolean?
    ensures DryRunOnly(name, params).Some? ==> DryRunOnly(name, params).value == TriesOut(name, params)
  {
    if name == RunBatch && params.commands.Some? {
      var commands := params.commands.value;
      assert BatchIsDryRunOnly(commands) <==> forall c :: c in commands ==> DryCommand(c) by {
        if forall c :: c in commands ==> DryCommand(c) {
          assert forall i :: 0 <= i < |commands| ==> commands[i] in commands;
        } else {
          var c :| c in commands && !DryCommand(c);
          var i :| 0 <= i < |commands| && commands[i] == c;
        }
      }
    }
  }

  lemma GateMeans(live: Live, r: Request, song: Song)
    ensures var name := live.normalize(r.command);
            && (Gate(live, r, song).None? <==> Admitted(live, r, song) && (Mutates(live, r) ==> live.CanBegin()))
            && (Admitted(live, r, song) ==> (Owns(live, name, r.params) <==> Mutates(live, r)))
  {
    hide Verdict, Admission, TriesOut, DryRunOnly;
    DryRunMeans(live.normalize(r.command), r.params);
    AdmissionIsVerdict(r.params.preconditions, song.slots, None);
  }

  // What is refused leaves the set untouched; whatever else runs, inside an undo step if it mutates, gives
  // what its body gives, unless the step cannot be closed.
  lemma RequestsAreGuarded(live: Live, r: Request, song: Song)
    ensures var name, o := live.normalize(r.command), Run(live, r, song);
            && (name in live.readOnly ==> o == Outcome(Failed(ReadOnlyViolation), song, 0))
            && (name !in live.readOnly && name in live.unsupported ==>
                  o == Outcome(live.refusal(name, r.params, song), song, 0))
            && (!Blocked(live, name) && name == RunBatch ==>
                  forall code :: Verdict(r.params.preconditions, song.slots, Some(code)) ==>
                    o == Outcome(Refused(code), song, 0))
            && (!Blocked(live, name) && name in {SetTempo, CreateClip} && r.params.dryRun.NotBoolean? ==>
                  o == Outcome(Failed(InvalidParams), song, 0))
            && (Admitted(live, r, song) && Mutates(live, r) && !live.begin.Works? ==>
                  UndoError(live.begin, o.reply) && o.song == song && o.ticks == 0)
            && (Admitted(live, r, song) && (Mutates(live, r) ==> live.begin.Works?) ==>
                  var body := Body(live, r, song);
                  && o.song == body.song && o.ticks == body.ticks
                  && if Mutates(live, r) && !live.end.Works? then UndoError(live.end, o.reply) else o.reply == body.reply)
  {
    hide RunSteps, RunBatchFrom, RunBatchItem, TriesOut, DryRunOnly, Verdict, Admission;
    var name := live.normalize(r.command);
    DryRunMeans(name, r.params);
    var p, slots := r.params.preconditions, song.slots;
    AdmissionIsVerdict(p, slots, None);
    forall code ensures Verdict(p, slots, Some(code)) <==> Some(code) == Admission(p, slots) {
      AdmissionIsVerdict(p, slots, Some(code));
    }
    RunNothing(live, song);
  }

  lemma RunNothing(live: Live, song: Song)
    ensures forall code :: RunSteps(live, Just(Failed(code)), song) == Outcome(Failed(code), song, 0)
  {
    forall code ensures RunSteps(live, Just(Failed(code)), song) == Outcome(Failed(code), song, 0) {
      assert Just(Failed(code)).next(0, song) == Return(Failed(code));
    }
  }

  // ---------------------------------------------------------------- what a batch refuses

  // A batch runs mutations only, and no batch.
  ghost predicate Runnable(live: Live, c: BatchCommand) {
    && c.Command? && c.kind.Some? && c.kind.value in live.mutations && c.kind.value != RunBatch && c.params.Some?
  }

  // What is wrong with a command that a batch may not run.
  ghost predicate Defect(live: Live, c: BatchCommand, code: Code) {
    match c
    case NotAnObject => code == InvalidParams
    case UnhashableType => code == InternalError
    case Command(kind, params) =>
      if kind == Some(RunBatch) then code == BadInput
      else if kind.None? || kind.value !in live.mutations then code == ReadOnlyViolation
      else params.None? && code == InvalidParams
  }

  // The same Live, where undo steps make no difference.
  function WithUndo(live: Live): (same: Live) {
    live.(begin := Works, end := Works)
  }

  // What a batch makes of its command `i`, the ones before it having left the set as `song`.
  ghost predicate ItemLaw(live: Live, c: BatchCommand, song: Song, o: Outcome) {
    if Runnable(live, c) then o == Run(WithUndo(live), Request(c.kind.value, c.params.value), song)
    else o.reply.Failed? && Defect(live, c, o.reply.code) && o.song == song && o.ticks == 0
  }

  // What a batch reports of a command: its result, or the code of its failure.
  ghost predicate Reports(result: ItemResult, reply: Reply) {
    match reply
    case Failed(code) => result.ItemError? && result.code == code
    case Crashed => result.ItemError? && result.code == InternalError
    case _ => result.ItemOk? && result.result == reply
  }

  lemma {:induction false} SameRun(live: Live, steps: Steps, song: Song)
    ensures RunSteps(WithUndo(live), steps, song) == RunSteps(live, steps, song)
    decreases steps.fuel
  {
    if steps.fuel > 0 {
      var move := steps.next(steps.local, song);
      if move.Write? {
        SameRun(live, Later(steps, move.local), move.song);
      } else if move.Yield? {
        SameRun(live, Later(steps, move.local), live.idle(song));
      }
    }
  }

  // A batch item does what the same command does as a request of its own, if it is a mutation, not a batch
  // and has object parameters; anything else fails for its own defect and leaves the set as it is.
  lemma ItemsAreRequests(live: Live, commands: seq<BatchCommand>, i: nat, song: Song)
    requires Consistent(live) && i < |commands|
    ensures ItemLaw(live, commands[i], FoldSongs(live, commands, i, song), ItemOutcome(live, commands, i, song))
  {
    hide RunSteps, FoldSongs, Gate;
    var c, before := commands[i], FoldSongs(live, commands, i, song);
    RunNothing(live, before);
    if Runnable(live, c) {
      var same := WithUndo(live);
      assert Consistent(same);
      ItemIsSingleRequest(same, c.kind.value, c.params.value, before);
      assert ValidatedBatchCommand(live, c) == Accepted(c.kind.value, c.params.value);
      assert ValidatedBatchCommand(same, c) == Accepted(c.kind.value, c.params.value);
      assert StepsOfItem(same, c) == StepsOfItem(live, c);
      SameRun(live, StepsOfItem(live, c), before);
    }
  }

  // A batch is the fold of its commands as requests, up to the first that fails, and what a batch may not
  // run fails: every item reported ok is a mutation, and none of them a batch.
  lemma BatchIsFoldOfRequests(live: Live, commands: seq<BatchCommand>, song: Song)
    requires Consistent(live)
    ensures var o := RunBatchFrom(live, commands, [], song);
            && FoldReply(live, commands, song, o)
            && (forall i :: 0 <= i < |o.reply.results| ==>
                  && i < |commands|
                  && ItemLaw(live, commands[i], FoldSongs(live, commands, i, song), ItemOutcome(live, commands, i, song)))
            && (forall i :: 0 <= i < |o.reply.results| ==>
                  o.reply.results[i].index == i && Reports(o.reply.results[i], ItemOutcome(live, commands, i, song).reply))
            && (forall i :: 0 <= i < |o.reply.results| && o.reply.results[i].ItemOk? ==> Runnable(live, commands[i]))
            && forall i :: 0 <= i < |o.reply.results| && !Runnable(live, commands[i]) ==>
                 && o.reply.abortedAt == Some(i) && o.song == FoldSongs(live, commands, i, song)
                 && o.reply.results[i].ItemError? && Defect(live, commands[i], o.reply.results[i].code)
  {
    hide FoldSongs, ItemOutcome, RunBatchFrom, Runnable, Defect, Run;
    BatchIsFold(live, commands, song);
    var o := RunBatchFrom(live, commands, [], song);
    forall i | 0 <= i < |o.reply.results|
      ensures ItemLaw(live, commands[i], FoldSongs(live, commands, i, song), ItemOutcome(live, commands, i, song))
    {
      ItemsAreRequests(live, commands, i, song);
    }
  }
}
