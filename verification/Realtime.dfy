/**
 The realtime channel: armed with a token and parameter references, it accepts packets in increasing
 order and queues their moves, of which it keeps the last 256.

 A packet is handled as one step, and so is a drain.
 */
module Realtime {
  import opened Wrappers

  const MAX_QUEUED: nat := 256

  // What a parameter is set to is passed on as it came.
  type Json = string

  datatype Operation =
    | ParameterSet(ref: Option<string>, value: Json)
    | XySet(xRef: Option<string>, yRef: Option<string>, x: Json, y: Json)
    | EmergencyStop
    | OtherOperation

  // The number of a packet is None when it is not an integer, and -1 when it is missing.
  datatype Packet = Malformed | Packet(token: Option<string>, seq_: Option<int>, op: Operation)

  datatype Command = Set(ref: string, value: Json) | Stop

  // A command as it was emitted: with the references armed at the time, and which half of a pair it is.
  datatype Half = Whole | First | Second

  datatype Emission = Emission(command: Command, refs: seq<string>, half: Half)

  function Commands(emitted: seq<Emission>): (commands: seq<Command>)
    ensures |commands| == |emitted| && forall i :: 0 <= i < |emitted| ==> commands[i] == emitted[i].command
  {
    seq(|emitted|, i requires 0 <= i < |emitted| => emitted[i].command)
  }

  // The last n of a sequence, or all of it.
  function Last<T>(s: seq<T>, n: nat): seq<T> {
    if |s| <= n then s else s[|s| - n..]
  }

  // The moves that a packet stands for, with the references that are armed.
  function Moves(op: Operation, refs: seq<string>): seq<Emission> {
    match op
    case ParameterSet(ref, value) =>
      if ref.Some? && ref.value in refs then [Emission(Set(ref.value, value), refs, Whole)] else []
    case XySet(xRef, yRef, x, y) =>
      if xRef.Some? && yRef.Some? && xRef.value in refs && yRef.value in refs then
        [Emission(Set(xRef.value, x), refs, First), Emission(Set(yRef.value, y), refs, Second)]
      else []
    case EmergencyStop => [Emission(Stop, refs, Whole)]
    case OtherOperation => []
  }

  predicate Increasing(s: seq<int>) {
    forall i, j :: 0 <= i < j < |s| ==> s[i] < s[j]
  }

  class RealtimeServer {
    var armedToken: Option<string>
    var armedRefs: seq<string>
    var lastSeq: int
    var queue: seq<Command>
    // What was emitted since the last drain, and the numbers accepted since the last arming.
    ghost var emitted: seq<Emission>
    ghost var accepted: seq<int>

    ghost predicate Valid()
      reads this
    {
      && queue == Last(Commands(emitted), MAX_QUEUED)
      && Paired(emitted)
      && (forall e <- emitted :: e.command.Set? ==> e.command.ref in e.refs)
      && Increasing(accepted)
      && lastSeq == (if accepted == [] then -1 else accepted[|accepted| - 1])
      && (forall i :: 0 <= i < |accepted| ==> accepted[i] > -1)
    }

    constructor ()
      ensures Valid() && armedToken == None && queue == [] && emitted == [] && accepted == []
    {
      armedToken, armedRefs, lastSeq, queue := None, [], -1, [];
      emitted, accepted := [], [];
    }

    method Arm(token: string, refs: seq<string>)
      requires Valid()
      modifies this
      ensures Valid() && armedToken == Some(token) && armedRefs == refs && accepted == []
      ensures queue == old(queue) && emitted == old(emitted)
    {
      armedToken, armedRefs, lastSeq := Some(token), refs, -1;
      accepted := [];
    }

    method Disarm()
      requires Valid()
      modifies this
      ensures Valid() && armedToken == None && armedRefs == [] && accepted == []
      ensures queue == old(queue) && emitted == old(emitted)
    {
      armedToken, armedRefs, lastSeq := None, [], -1;
      accepted := [];
    }

    method Enqueue(e: Emission)
      requires queue == Last(Commands(emitted), MAX_QUEUED)
      modifies this`queue, this`emitted
      ensures emitted == old(emitted) + [e] && queue == Last(Commands(emitted), MAX_QUEUED)
    {
      ghost var before := Commands(emitted);
      emitted := emitted + [e];
      assert Commands(emitted) == before + [e.command];
      if |queue| >= MAX_QUEUED {
        queue := queue[1..];
      }
      queue := queue + [e.command];
    }

    // Whether a packet gets past the token and the order of numbers.
    predicate Admits(packet: Packet)
      reads this
    {
      && armedToken.Some? && armedToken.value != ""
      && packet.Packet? && packet.token == armedToken
      && packet.seq_.Some? && packet.seq_.value > lastSeq
    }

    method HandlePacket(packet: Packet)
      requires Valid()
      modifies this
      ensures Valid()
      ensures armedToken == old(armedToken) && armedRefs == old(armedRefs)
      ensures emitted == if old(Admits(packet)) then old(emitted) + Moves(packet.op, armedRefs) else old(emitted)
      ensures accepted == if old(Admits(packet)) then old(accepted) + [packet.seq_.value] else old(accepted)
    {
      if armedToken.None? || armedToken.value == "" {
        return;
      }
      if packet.Malformed? || packet.token != armedToken {
        return;
      }
      if packet.seq_.None? || packet.seq_.value <= lastSeq {
        return;
      }
      hide Paired, Last, Commands, Moves;
      lastSeq := packet.seq_.value;
      accepted := accepted + [packet.seq_.value];
      MovesArePaired(emitted, packet.op, armedRefs);
      ghost var moves := Moves(packet.op, armedRefs);
      Dispatch(packet.op);
      assert forall e <- emitted :: e in old(emitted) || e in moves;
    }

    method Dispatch(op: Operation)
      requires queue == Last(Commands(emitted), MAX_QUEUED)
      modifies this`queue, this`emitted
      ensures queue == Last(Commands(emitted), MAX_QUEUED)
      ensures emitted == old(emitted) + Moves(op, armedRefs)
    {
      hide Last, Commands;
      match op
      case ParameterSet(ref, value) =>
        if ref.Some? && ref.value in armedRefs {
          Enqueue(Emission(Set(ref.value, value), armedRefs, Whole));
        }
      case XySet(xRef, yRef, x, y) =>
        if xRef.Some? && yRef.Some? && xRef.value in armedRefs && yRef.value in armedRefs {
          Enqueue(Emission(Set(xRef.value, x), armedRefs, First));
          Enqueue(Emission(Set(yRef.value, y), armedRefs, Second));
        }
      case EmergencyStop =>
        Enqueue(Emission(Stop, armedRefs, Whole));
      case OtherOperation =>
    }

    method Drain() returns (commands: seq<Command>)
      requires Valid()
      modifies this`queue, this`emitted
      ensures Valid() && queue == [] && emitted == [] && commands == old(queue)
    {
      hide Paired, Commands, Increasing;
      commands := [];
      while queue != []
        invariant commands + queue == old(queue)
        decreases |queue|
      {
        commands := commands + [queue[0]];
        queue := queue[1..];
      }
      emitted := [];
      NothingEmitted();
    }
  }

  lemma NothingEmitted()
    ensures Commands([]) == [] && Paired([])
  {}

  // The halves of a pair are emitted one right after the other.
  ghost predicate Paired(emitted: seq<Emission>) {
    && (forall i :: 0 <= i < |emitted| && emitted[i].half == First ==> i + 1 < |emitted| && emitted[i + 1].half == Second)
    && (forall i :: 0 <= i < |emitted| && emitted[i].half == Second ==> i > 0 && emitted[i - 1].half == First)
  }

  lemma MovesArePaired(emitted: seq<Emission>, op: Operation, refs: seq<string>)
    requires Paired(emitted)
    ensures Paired(emitted + Moves(op, refs))
    ensures forall e <- Moves(op, refs) :: e.command.Set? ==> e.command.ref in refs && e.refs == refs
  {}

  // In what the queue keeps, only the head can be half of a pair without the other half.
  lemma {:induction false} OnlyTheHeadIsOrphaned(emitted: seq<Emission>, i: nat)
    requires Paired(emitted) && i < |Last(emitted, MAX_QUEUED)|
    ensures var kept := Last(emitted, MAX_QUEUED);
            && Commands(kept) == Last(Commands(emitted), MAX_QUEUED)
            && (kept[i].half == First ==> i + 1 < |kept| && kept[i + 1].half == Second)
            && (kept[i].half == Second ==> i == 0 || kept[i - 1].half == First)
  {
    var kept := Last(emitted, MAX_QUEUED);
    var from := |emitted| - |kept|;
    assert forall j :: 0 <= j < |kept| ==> kept[j] == emitted[from + j];
  }
}
