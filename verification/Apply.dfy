/**
 Applying a groove artifact to a clip slot: when the batch is sent, and what its receipt says about what
 the bridge did.
 */
module Apply {
  import opened Wrappers
  import opened BridgeClient
  import D = Dispatch
  import P = Preconditions
  import R = Processor

  datatype State = Preview | Rejected | Committed | Partial | Unknown

  datatype Receipt = Receipt(state: State, stage: string)

  // What resolving the request against the artifact store and the kit mapping gives.
  datatype Plan = Plan(found: bool, blocked: bool, emitted: nat, allowed: bool)

  datatype ApplyRequest = ApplyRequest(plan: Plan, expectedEmptySlot: bool, preview: bool, batch: int)

  function BatchRequest(batch: int): (r: Request) {
    Request("run_batch", batch)
  }

  // ---------------------------------------------------------------- the bridge's answer

  datatype ItemStatus = StatusOk | StatusError

  // A result as the receipt reads it; the texts are empty when they are missing, and `stage` may be.
  datatype Payload =
    | NotAnObject
    | Object(state: string, code: string, abortedAt: Option<nat>, results: Option<seq<ItemStatus>>, stage: Option<string>)

  // How the values and the error details of responses are read.
  datatype View = View(payload: int -> Payload, stage: int -> Option<string>)

  predicate IsPrecondition(code: string) {
    "PRECONDITION" <= code
  }

  function ReceiptFromPayload(p: Payload): (r: Receipt) {
    if p.NotAnObject? then Receipt(Rejected, "none")
    else if p.state == "partial" || p.abortedAt == Some(1)
            || (p.results.Some? && |p.results.value| >= 2
                && p.results.value[0].StatusOk? && p.results.value[1].StatusError?)
    then Receipt(Partial, "batch")
    else if p.state == "rejected" || IsPrecondition(p.code) then
      Receipt(Rejected, if p.stage.Some? then p.stage.value else "precondition")
    else Receipt(Committed, "batch")
  }

  function ReceiptFromEnvelope(code: string, stage: Option<string>): (r: Receipt) {
    Receipt(Rejected, if stage.Some? then stage.value else if IsPrecondition(code) then "precondition" else "batch")
  }

  function ReceiptFromBridge(view: View, decoded: Decoded): (r: Receipt)
    requires !decoded.Malformed?
  {
    match decoded
    case OkResponse(value) => ReceiptFromPayload(view.payload(value))
    case ErrorResponse(code, details) => ReceiptFromEnvelope(code, view.stage(details))
  }

  // A report of commands of which the first succeeded and the second failed.
  ghost predicate SecondFailed(p: Payload) {
    && p.Object?
    && (|| p.state == "partial" || p.abortedAt == Some(1)
        || exists rest :: p.results == Some([StatusOk, StatusError] + rest))
  }

  // What a receipt says of the response it was read off.
  ghost predicate Receives(view: View, decoded: Decoded, r: Receipt) {
    match decoded
    case Malformed => false
    case ErrorResponse(code, details) =>
      && r.state == Rejected
      && r.stage == (if view.stage(details).Some? then view.stage(details).value
                     else if "PRECONDITION" <= code then "precondition" else "batch")
    case OkResponse(value) =>
      var p := view.payload(value);
      var refused := p.Object? && (p.state == "rejected" || "PRECONDITION" <= p.code);
      && r.state in {Rejected, Partial, Committed}
      && (r.state == Partial <==> SecondFailed(p))
      && (r.state == Rejected <==> p.NotAnObject? || (refused && !SecondFailed(p)))
      && r.stage == (if r.state != Rejected then "batch"
                     else if p.NotAnObject? then "none"
                     else if p.stage.Some? then p.stage.value else "precondition")
  }

  lemma ReceiptReceives(view: View, decoded: Decoded)
    requires !decoded.Malformed?
    ensures Receives(view, decoded, ReceiptFromBridge(view, decoded))
  {
    if decoded.OkResponse? && view.payload(decoded.value).Object? {
      var results := view.payload(decoded.value).results;
      if results.Some? && |results.value| >= 2 {
        assert results.value == results.value[..2] + results.value[2..];
        assert results.value[..2] == [results.value[0], results.value[1]];
      }
    }
  }

  // ---------------------------------------------------------------- receipts of real batches

  ghost function CodeText(code: P.Code): (s: string) {
    match code
    case InvalidParams => "INVALID_PARAMS"
    case BadInput => "BAD_INPUT"
    case ReadOnlyViolation => "READ_ONLY_VIOLATION"
    case UnknownCommand => "UNKNOWN_COMMAND"
    case LiveUnavailable => "LIVE_UNAVAILABLE"
    case InternalError => "INTERNAL_ERROR"
    case PreconditionInvalid => "PRECONDITION_INVALID"
    case PreconditionFailed => "PRECONDITION_FAILED"
    case Other(name) => name
  }

  // The JSON object of a batch's result: a report, or the envelope of an admission error.
  ghost function PayloadOf(reply: D.Reply): (p: Payload) {
    match reply
    case BatchReply(results, _, abortedAt) =>
      Object("", "", abortedAt, Some(seq(|results|, i requires 0 <= i < |results| =>
        if results[i].ItemOk? then StatusOk else StatusError)), None)
    case Refused(code) => Object("", CodeText(code), None, None, None)
    case _ => NotAnObject
  }

  // What the socket thread answers: the response of Live's thread, or that it did not come in time.
  datatype Served = InTime(reply: D.Reply) | TooLate

  ghost function ReceiptOf(served: Served): (r: Receipt) {
    if served.TooLate? then ReceiptFromEnvelope("TIMEOUT", None)
    else
      match R.ResponseTo(served.reply)
      case Error(code) => ReceiptFromEnvelope(CodeText(code), None)
      case Ok(result) => ReceiptFromPayload(PayloadOf(result))
  }

  // An apply batch holds create_clip and add_notes_to_clip, and asks for one empty slot.
  ghost predicate ApplyBatch(live: D.Live, r: D.Request) {
    && live.normalize(r.command) == D.RunBatch
    && r.params.commands.Some? && |r.params.commands.value| == 2
  }

  // The bridge runs the commands of the batch.
  ghost predicate Executed(live: D.Live, r: D.Request, song: D.Song) {
    D.Admitted(live, r, song) && (D.Mutates(live, r) ==> live.CanBegin())
  }

  // Closing the undo step of the batch fails, whatever its commands did.
  ghost predicate CannotClose(live: D.Live, r: D.Request) {
    D.Mutates(live, r) && !live.CanEnd()
  }

  /**
   What the receipt of an apply batch answered in time says about what the bridge did, in every case:
   `rejected` exactly when nothing was executed or the undo step cannot be closed; otherwise `partial`
   exactly when the clip was made and the notes were not, and `committed` covers the two remaining
   cases, a batch carried out and a batch whose first command failed.
   */
  lemma ReceiptOfBatch(live: D.Live, r: D.Request, song: D.Song)
    requires D.Consistent(live) && ApplyBatch(live, r)
    ensures var state := ReceiptOf(InTime(D.Run(live, r, song).reply)).state;
            var body := D.RunBody(live, D.RunBatch, r.params, song).reply;
            var reported := Executed(live, r, song) && !CannotClose(live, r);
            && (D.Run(live, r, song).reply.Refused? ==>
                  ReceiptOf(InTime(D.Run(live, r, song).reply)).stage == "precondition")
            && body.BatchReply? && (body.completed == 2 <==> body.abortedAt.None?)
            && (state == Rejected <==> !reported)
            && (state == Partial <==> reported && body.completed == 1)
            && (state == Committed <==> reported && (body.completed == 2 || body.abortedAt == Some(0)))
  {
    hide D.RunBatchFrom, D.RunBatchItem, D.RunSteps, D.StepsOfItem;
    D.GateMeans(live, r, song);
    hide D.Admitted, D.Mutates;
    var commands := r.params.commands.value;
    assert P.Admission(r.params.preconditions, song.slots) in
      {None, Some(P.PreconditionInvalid), Some(P.PreconditionFailed)} by {
      P.AdmissionIsVerdict(r.params.preconditions, song.slots, P.Admission(r.params.preconditions, song.slots));
    }
    assert "PRECONDITION" <= "PRECONDITION_INVALID" && "PRECONDITION" <= "PRECONDITION_FAILED";
    D.BatchIsFold(live, commands, song);
  }

  // A receipt says `rejected` of a batch that the bridge executes exactly when the answer came too late
  // or the batch holds an undo step that cannot be closed.
  lemma RejectedButExecuted(live: D.Live, r: D.Request, song: D.Song, served: Served)
    requires D.Consistent(live) && ApplyBatch(live, r) && Executed(live, r, song)
    requires served in {InTime(D.Run(live, r, song).reply), TooLate}
    ensures ReceiptOf(served).state == Rejected <==> served.TooLate? || CannotClose(live, r)
  {
    hide D.Run, D.RunBody, D.Mutates, D.Admitted;
    ReceiptOfBatch(live, r, song);
  }

  // The response says what was served, in the words of the wire.
  ghost predicate Conveys(view: View, decoded: Decoded, served: Served) {
    match served
    case TooLate => decoded.ErrorResponse? && decoded.code == "TIMEOUT" && view.stage(decoded.details).None?
    case InTime(reply) =>
      if reply.Failed? || reply.Crashed? then
        && decoded.ErrorResponse? && view.stage(decoded.details).None?
        && decoded.code == CodeText(if reply.Failed? then reply.code else P.LiveUnavailable)
      else
        decoded.OkResponse? && view.payload(decoded.value) == PayloadOf(reply)
  }

  // What `ApplyArtifact` makes of a response is the receipt of what the bridge served, so the results about
  // that are about its receipts.
  lemma ReceiptOfAnswer(view: View, decoded: Decoded, served: Served, receipt: Receipt)
    requires Conveys(view, decoded, served) && Receives(view, decoded, receipt)
    ensures receipt == ReceiptOf(served)
  {
    ReceiptReceives(view, decoded);
    ReceivesOne(view, decoded, receipt, ReceiptFromBridge(view, decoded));
    assert "PRECONDITION" <= "TIMEOUT" ==> false by { assert "PRECONDITION"[0] != "TIMEOUT"[0]; }
  }

  lemma ReceivesOne(view: View, decoded: Decoded, r: Receipt, s: Receipt)
    requires Receives(view, decoded, r) && Receives(view, decoded, s)
    ensures r == s
  {
  }

  // A receipt says `committed` of a batch that was not carried out exactly when its first command,
  // the creation of the clip, failed.
  lemma CommittedButNotWritten(live: D.Live, r: D.Request, song: D.Song)
    requires D.Consistent(live) && ApplyBatch(live, r) && Executed(live, r, song) && !CannotClose(live, r)
    ensures var reply := D.Run(live, r, song).reply;
            var first := D.ItemOutcome(live, r.params.commands.value, 0, song);
            && reply.BatchReply?
            && ((ReceiptOf(InTime(reply)).state == Committed && reply.completed < 2)
                <==> D.ItemCode(first.reply).Some?)
  {
    hide D.RunBatchFrom, D.RunBatchItem, D.RunSteps, D.StepsOfItem;
    D.GateMeans(live, r, song);
    ReceiptOfBatch(live, r, song);
    D.BatchIsFold(live, r.params.commands.value, song);
    var reply := D.Run(live, r, song).reply;
    if reply.completed > 0 {
      assert reply.results[..reply.completed][0] == reply.results[0];
      assert D.ItemCode(D.ItemOutcome(live, r.params.commands.value, 0, song).reply).None?;
    }
  }

  // ---------------------------------------------------------------- two hosts

  const ADD_NOTES: D.Name := D.OtherName("add_notes_to_clip")

  // A handler that counts one and returns.
  function CountOne(): (steps: D.Steps) {
    D.Steps((local: int, s: D.Song) => if local == 0 then D.Write(s.(rest := s.rest + 1), 1) else D.Return(D.Value(0)), 0, 2)
  }

  lemma CountsOne(live: D.Live, song: D.Song)
    ensures D.RunSteps(live, CountOne(), song) == D.Outcome(D.Value(0), song.(rest := song.rest + 1), 0)
  {
    var later := D.Later(CountOne(), 1);
    assert later.next(later.local, song.(rest := song.rest + 1)) == D.Return(D.Value(0));
  }

  // A host on which creating a clip fails or counts, adding notes counts, and undo steps can be opened.
  function Host(clipFails: bool, canEnd: bool): (live: D.Live)
    ensures D.Consistent(live)
  {
    D.Live((n: D.Name) => n, {D.RunBatch, D.CreateClip, ADD_NOTES}, {}, {},
           (n: D.Name, p: D.Params) =>
             if D.Dry(n, p) || n !in {D.CreateClip, ADD_NOTES} then None
             else if n == D.CreateClip && clipFails then Some(D.Just(D.Failed(P.BadInput)))
             else Some(CountOne()),
           (_, _, _) => D.Crashed, (s: D.Song) => s, D.Works, if canEnd then D.Works else D.Missing)
  }

  const PLAIN: D.Params := D.Params(D.NotGiven, None, P.Absent, 0)

  const TWO_COMMANDS: seq<D.BatchCommand> :=
    [D.Command(Some(D.CreateClip), Some(PLAIN)), D.Command(Some(ADD_NOTES), Some(PLAIN))]

  const CLIP_AND_NOTES: D.Request := D.Request(D.RunBatch, D.Params(D.NotGiven, Some(TWO_COMMANDS), P.Absent, 0))

  lemma HostRunsBatch(clipFails: bool, canEnd: bool, slots: P.Slots)
    ensures var song := D.Song(slots, 0);
            var first := D.ItemOutcome(Host(clipFails, canEnd), TWO_COMMANDS, 0, song);
            && Executed(Host(clipFails, canEnd), CLIP_AND_NOTES, song)
            && (CannotClose(Host(clipFails, canEnd), CLIP_AND_NOTES) <==> !canEnd)
            && (D.ItemCode(first.reply).Some? <==> clipFails)
            && D.Run(Host(clipFails, canEnd), CLIP_AND_NOTES, song).song == D.Song(slots, if clipFails then 0 else 2)
  {
    var live, song := Host(clipFails, canEnd), D.Song(slots, 0);
    P.AdmissionIsVerdict(P.Absent, slots, None);
    assert TWO_COMMANDS[0] in TWO_COMMANDS && !D.DryCommand(TWO_COMMANDS[0]);
    D.GateMeans(live, CLIP_AND_NOTES, song);
    D.BatchIsFold(live, TWO_COMMANDS, song);
    assert D.FoldSongs(live, TWO_COMMANDS, 0, song) == song;
    var first := D.StepsOfItem(live, TWO_COMMANDS[0]);
    var second := D.StepsOfItem(live, TWO_COMMANDS[1]);
    if !clipFails {
      assert first == CountOne() && second == CountOne();
      CountsOne(live, song);
      CountsOne(live, D.Song(slots, 1));
      assert D.RunSteps(live, first, song) == D.Outcome(D.Value(0), D.Song(slots, 1), 0);
      assert D.FoldSongs(live, TWO_COMMANDS, 1, song) == D.Song(slots, 1);
      assert D.RunSteps(live, second, D.Song(slots, 1)) == D.Outcome(D.Value(0), D.Song(slots, 2), 0);
      assert D.FoldSongs(live, TWO_COMMANDS, 2, song) == D.Song(slots, 2);
    }
  }

  // Clip and notes are written, and the receipt says `rejected`: where undo steps cannot be closed, and
  // where the answer came too late.
  lemma WrittenButRejected(slots: P.Slots)
    ensures var song := D.Song(slots, 0);
            && D.Run(Host(false, false), CLIP_AND_NOTES, song).song == D.Song(slots, 2)
            && ReceiptOf(InTime(D.Run(Host(false, false), CLIP_AND_NOTES, song).reply)).state == Rejected
            && D.Run(Host(false, true), CLIP_AND_NOTES, song).song == D.Song(slots, 2)
            && ReceiptOf(TooLate).state == Rejected
  {
    hide D.Run, Host, D.ItemOutcome;
    var song := D.Song(slots, 0);
    HostRunsBatch(false, false, slots);
    HostRunsBatch(false, true, slots);
    RejectedButExecuted(Host(false, false), CLIP_AND_NOTES, song,
                        InTime(D.Run(Host(false, false), CLIP_AND_NOTES, song).reply));
  }

  // Nothing is written, and the receipt says `committed`: where the clip cannot be created.
  lemma CommittedWithoutClip(slots: P.Slots)
    ensures var song := D.Song(slots, 0);
            && D.Run(Host(true, true), CLIP_AND_NOTES, song).song == song
            && ReceiptOf(InTime(D.Run(Host(true, true), CLIP_AND_NOTES, song).reply)).state == Committed
  {
    hide D.Run, Host, D.ItemOutcome;
    HostRunsBatch(true, true, slots);
    CommittedButNotWritten(Host(true, true), CLIP_AND_NOTES, D.Song(slots, 0));
  }

  // ---------------------------------------------------------------- applying

  ghost function Batches(sent: seq<Transmission>): (n: nat) {
    if sent == [] then 0
    else Batches(sent[..|sent| - 1]) + if sent[|sent| - 1].request.command == "run_batch" then 1 else 0
  }

  lemma {:induction false} NoMoreBatches(before: seq<Transmission>, after: seq<Transmission>)
    requires before <= after
    requires forall k :: |before| <= k < |after| ==> after[k].request.command != "run_batch"
    ensures Batches(after) == Batches(before)
  {
    if |after| == |before| {
      assert after == before;
    } else {
      NoMoreBatches(before, after[..|after| - 1]);
    }
  }

  // The last transmission went out on a connection for which a v1 contract is cached.  Its stamp was taken
  // right after the response that attests it and was at most five seconds old when the clock was last
  // read, with nothing transmitted in between.
  ghost predicate SentAdmissibly(client: Client)
    reads client
  {
    && client.sent != [] && client.glances != []
    && var e, g := client.sent[|client.sent| - 1].epoch, client.glances[|client.glances| - 1];
    && e in client.cache && client.cache[e].epoch == e && client.cache[e].contract.preconditions == "v1"
    && client.Fetched(client.cache[e])
    && g.sent == |client.sent| - 1 && 0.0 <= g.now - client.cache[e].fetchedAt <= CAPABILITY_MAX_AGE
  }

  // The receipt says what the answer to the last transmission says, which is this batch.
  ghost predicate Answers(client: Client, view: View, request: ApplyRequest, receipt: Receipt)
    reads client, client.socket
  {
    exists decoded ::
      client.Replied(BatchRequest(request.batch), decoded) && Receives(view, decoded, receipt)
  }

  // The batch was sent and its answer was not read: the network failed, or the response cannot be read.
  ghost predicate Lost(client: Client, request: ApplyRequest, receipt: Receipt)
    reads client, client.network
  {
    && receipt == Receipt(Unknown, "transport_after_send") && !client.connected
    && client.sent != [] && client.sent[|client.sent| - 1].request == BatchRequest(request.batch)
    && (|| (client.network.events != [] && !client.network.events[|client.network.events| - 1].io.Completed?)
        || (&& client.heard != [] && client.heard[|client.heard| - 1].transmission == |client.sent| - 1
            && client.bridge.decode(client.heard[|client.heard| - 1].line).Malformed?))
  }

  // There is something to apply, and a slot that is expected to be empty.
  ghost predicate Applicable(request: ApplyRequest) {
    && request.plan.found && !request.plan.blocked && request.plan.emitted > 0 && request.plan.allowed
    && request.expectedEmptySlot
  }

  // Apply an artifact.  Without a receipt, the batch could not be encoded.
  method ApplyArtifact(client: Client?, view: View, request: ApplyRequest) returns (receipt: Option<Receipt>)
    requires client != null ==> client.Valid()
    modifies client, if client != null then client.socket else null, if client != null then client.network else null
    ensures client != null ==> client.Valid() && client.Later()
    // What cannot be applied is rejected, and what is only to be previewed is, without asking the bridge.
    ensures !Applicable(request) ==> receipt == Some(Receipt(Rejected, "none"))
    ensures Applicable(request) && request.preview ==> receipt == Some(Receipt(Preview, "none"))
    ensures client != null && (!Applicable(request) || request.preview) ==> client.sent == old(client.sent)
    // Anything else is sent, unless there is no capability.
    ensures Applicable(request) && !request.preview ==>
              if client == null then receipt == Some(Receipt(Rejected, "capability"))
              else if Batches(client.sent) == Batches(old(client.sent)) then
                || (receipt == Some(Receipt(Rejected, "capability")) && client.Incapable())
                || (receipt.None? && !client.bridge.encodable(BatchRequest(request.batch)))
              else
                && Batches(client.sent) == Batches(old(client.sent)) + 1 && SentAdmissibly(client)
                && |client.sent| > |old(client.sent)| && receipt.Some?
                && if receipt.value.state.Unknown? then Lost(client, request, receipt.value)
                   else Answers(client, view, request, receipt.value)
  {
    var plan := request.plan;
    if !plan.found || plan.blocked || plan.emitted == 0 || !plan.allowed || !request.expectedEmptySlot {
      return Some(Receipt(Rejected, "none"));
    }
    if request.preview {
      return Some(Receipt(Preview, "none"));
    }
    if client == null {
      return Some(Receipt(Rejected, "capability"));
    }
    var snapshot := client.RequireFreshPreconditions();
    NoMoreBatches(old(client.sent), client.sent);
    if snapshot.None? {
      return Some(Receipt(Rejected, "capability"));
    }
    receipt := SendBatch(client, view, request, snapshot.value);
  }

  method SendBatch(client: Client, view: View, request: ApplyRequest, snapshot: Capability)
    returns (receipt: Option<Receipt>)
    requires client.Valid() && client.connected && snapshot.epoch == client.epoch
    requires client.epoch in client.cache && snapshot == client.cache[client.epoch]
    requires snapshot.contract.preconditions == "v1" && client.Fetched(snapshot) && client.Fresh(snapshot)
    modifies client, client.socket, client.network
    ensures client.Valid() && client.Later()
    ensures receipt.None? ==> client.sent == old(client.sent)
    ensures receipt.Some? ==>
              && client.sent == old(client.sent) + [Transmission(old(client.epoch), BatchRequest(request.batch))]
              && Batches(client.sent) == Batches(old(client.sent)) + 1 && SentAdmissibly(client)
              && if receipt.value.state.Unknown? then Lost(client, request, receipt.value)
                 else Answers(client, view, request, receipt.value)
    ensures receipt.None? <==> !client.bridge.encodable(BatchRequest(request.batch))
  {
    hide AnswersInLines, Client.Fetched;
    ghost var admitted := client.sent;
    var result := client.CallAtEpoch(snapshot.epoch, BatchRequest(request.batch));
    if result.EpochMismatch? {
      return Some(Receipt(Rejected, "epoch"));
    }
    if result.PreSend? {
      return None;
    }
    assert client.sent[..|client.sent| - 1] == admitted;
    assert client.Fetched(snapshot);
    if result.Ambiguous? {
      return Some(Receipt(Unknown, "transport_after_send"));
    }
    ReceiptReceives(view, result.decoded);
    return Some(ReceiptFromBridge(view, result.decoded));
  }
}
