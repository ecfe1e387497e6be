/**
 JSONL framing on the socket: the bridge's receive loop and its line buffer.

 `recv` hands over the byte stream in arbitrary chunks; a frame is a newline-terminated line.
 */
module Framing {
  import opened Wrappers

  type Byte = b: int | 0 <= b < 256
  type Bytes = seq<Byte>

  const NEWLINE: Byte := 10
  const MAX_FRAME_BYTES := 1024 * 1024
  const RECV_BYTES := 4096

  // ---------------------------------------------------------------- lines of a stream

  function NewlineIndex(s: Bytes): (i: nat)
    ensures i <= |s|
    ensures forall k :: 0 <= k < i ==> s[k] != NEWLINE
    ensures i < |s| ==> s[i] == NEWLINE
  {
    if s == [] || s[0] == NEWLINE then 0 else 1 + NewlineIndex(s[1..])
  }

  // The newline-terminated lines of a stream, without their newlines.
  function Lines(s: Bytes): (lines: seq<Bytes>)
    decreases |s|
  {
    var i := NewlineIndex(s);
    if i == |s| then [] else [s[..i]] + Lines(s[i + 1..])
  }

  // What follows the last newline.
  function Tail(s: Bytes): (tail: Bytes)
    ensures NEWLINE !in tail
    decreases |s|
  {
    var i := NewlineIndex(s);
    if i == |s| then s else Tail(s[i + 1..])
  }

  function Framed(line: Bytes): (frame: Bytes) {
    line + [NEWLINE]
  }

  function Unlines(lines: seq<Bytes>): (s: Bytes) {
    if lines == [] then [] else Framed(lines[0]) + Unlines(lines[1..])
  }

  lemma NewlineIndexIs(s: Bytes, i: nat)
    requires i <= |s| && (forall k :: 0 <= k < i ==> s[k] != NEWLINE) && (i < |s| ==> s[i] == NEWLINE)
    ensures NewlineIndex(s) == i
  {
  }

  // A framed line in front of a stream is its first line.
  lemma FirstLine(line: Bytes, rest: Bytes)
    requires NEWLINE !in line
    ensures Lines(Framed(line) + rest) == [line] + Lines(rest)
    ensures Tail(Framed(line) + rest) == Tail(rest)
  {
    var s := Framed(line) + rest;
    NewlineIndexIs(s, |line|);
    assert s[..|line|] == line && s[|line| + 1..] == rest;
  }

  // A stream with a newline begins with a framed line.
  lemma SplitFirstLine(s: Bytes) returns (line: Bytes, rest: Bytes)
    requires NEWLINE in s
    ensures NEWLINE !in line && s == Framed(line) + rest
  {
    var i := NewlineIndex(s);
    line, rest := s[..i], s[i + 1..];
  }

  lemma OnlyTail(s: Bytes)
    requires NEWLINE !in s
    ensures Lines(s) == [] && Tail(s) == s
  {
    NewlineIndexIs(s, |s|);
  }

  // Lines and tail together are the stream.
  lemma {:induction false} LinesRebuild(s: Bytes)
    ensures Unlines(Lines(s)) + Tail(s) == s
    ensures forall line :: line in Lines(s) ==> NEWLINE !in line
    decreases |s|
  {
    hide Lines, Tail;
    if NEWLINE in s {
      var line, rest := SplitFirstLine(s);
      FirstLine(line, rest);
      LinesRebuild(rest);
      assert Lines(s)[1..] == Lines(rest);
      assert Framed(line) + (Unlines(Lines(rest)) + Tail(rest)) == Unlines(Lines(s)) + Tail(s);
    } else {
      OnlyTail(s);
    }
  }

  lemma {:induction false} LinesOfConcat(a: Bytes, b: Bytes)
    ensures Lines(a + b) == Lines(a) + Lines(Tail(a) + b)
    ensures Tail(a + b) == Tail(Tail(a) + b)
    decreases |a|
  {
    hide Lines, Tail;
    if NEWLINE in a {
      var line, rest := SplitFirstLine(a);
      assert a + b == Framed(line) + (rest + b);
      FirstLine(line, rest);
      FirstLine(line, rest + b);
      LinesOfConcat(rest, b);
    } else {
      OnlyTail(a);
    }
  }

  // ---------------------------------------------------------------- answering frames

  // What `_handle_frame` gives for a frame: a response to send, or an exception.  It is a function of the
  // frame and of its number, since it may depend on everything that has happened until then.
  datatype Handled<R> = Response(response: R) | Raises(error: R)

  predicate Blank(frame: Bytes) {
    forall b | b in frame :: b in {9, 10, 11, 12, 13, 32}
  }

  // The responses sent, and the error that ended the connection.
  datatype Transcript<R> = Transcript(sent: seq<R>, failed: Option<R>) {
    // This transcript, continued by `next` unless it ended in an error.
    function Then(next: Transcript<R>): (t: Transcript<R>) {
      if failed.Some? then this else Transcript(sent + next.sent, next.failed)
    }
  }

  // The transcript of frame `n`.
  function Answer<R>(handle: (nat, Bytes) -> Handled<R>, n: nat, frame: Bytes): (t: Transcript<R>) {
    if Blank(frame) then Transcript([], None)
    else match handle(n, frame)
      case Raises(error) => Transcript([], Some(error))
      case Response(response) => Transcript([response], None)
  }

  // The responses to the frames from number `n` on, up to the first frame that raises.
  function Answers<R>(handle: (nat, Bytes) -> Handled<R>, n: nat, frames: seq<Bytes>): (t: Transcript<R>)
    decreases |frames|
  {
    if frames == [] then Transcript([], None)
    else Answer(handle, n, frames[0]).Then(Answers(handle, n + 1, frames[1..]))
  }

  lemma ThenAssociates<R>(a: Transcript<R>, b: Transcript<R>, c: Transcript<R>)
    ensures a.Then(b.Then(c)) == a.Then(b).Then(c)
  {
    assert a.sent + (b.sent + c.sent) == (a.sent + b.sent) + c.sent;
  }

  lemma {:induction false} AnswersOfConcat<R>(handle: (nat, Bytes) -> Handled<R>, n: nat, a: seq<Bytes>, b: seq<Bytes>)
    ensures Answers(handle, n, a + b) == Answers(handle, n, a).Then(Answers(handle, n + |a|, b))
    decreases |a|
  {
    var rest := Answers(handle, n + |a|, b);
    if a == [] {
      assert a + b == b && [] + rest.sent == rest.sent;
    } else {
      assert (a + b)[1..] == a[1..] + b && (a + b)[0] == a[0];
      AnswersOfConcat(handle, n + 1, a[1..], b);
      ThenAssociates(Answer(handle, n, a[0]), Answers(handle, n + 1, a[1..]), rest);
    }
  }

  // One more frame before others.
  lemma AnswersOneMore<R>(handle: (nat, Bytes) -> Handled<R>, n: nat, done: seq<Bytes>, frame: Bytes, rest: seq<Bytes>)
    ensures Answers(handle, n, done + [frame]) == Answers(handle, n, done).Then(Answer(handle, n + |done|, frame))
    ensures Answers(handle, n, done + ([frame] + rest))
         == Answers(handle, n, done).Then(Answer(handle, n + |done|, frame)).Then(Answers(handle, n + |done| + 1, rest))
    ensures done + [frame] + rest == done + ([frame] + rest)
  {
    hide Answer;
    OneAnswer(handle, n + |done|, frame);
    AnswersOfConcat(handle, n, done, [frame]);
    assert done + [frame] + rest == done + ([frame] + rest);
    AnswersOfConcat(handle, n, done + [frame], rest);
  }

  lemma OneAnswer<R>(handle: (nat, Bytes) -> Handled<R>, n: nat, frame: Bytes)
    ensures Answers(handle, n, [frame]) == Answer(handle, n, frame)
  {
    var one := Answer(handle, n, frame);
    assert [frame][1..] == [] && one.sent + [] == one.sent;
  }

  // What has been sent once these frames, from number `n` on, were answered too.
  function Continued<R>(handle: (nat, Bytes) -> Handled<R>, n: nat, sent: seq<R>, frames: seq<Bytes>): (t: Transcript<R>) {
    Transcript(sent, None).Then(Answers(handle, n, frames))
  }

  lemma NothingTaken<R>(handle: (nat, Bytes) -> Handled<R>, n: nat, sent: seq<R>)
    ensures Continued(handle, n, sent, []) == Transcript(sent, None)
  {
    assert sent + [] == sent;
  }

  // Taking the first frame of a buffer: what its answer is, and what is left if it raised nothing.
  lemma FrameTaken<R>(handle: (nat, Bytes) -> Handled<R>, n: nat, sent: seq<R>, done: seq<Bytes>, buffer: Bytes)
    requires NEWLINE in buffer && Continued(handle, n, sent, done).failed.None?
    ensures var i := NewlineIndex(buffer);
            && i < |buffer|
            && var frame, rest := buffer[..i], buffer[i + 1..];
               var after := Continued(handle, n, sent, done).Then(Answer(handle, n + |done|, frame));
               && done + Lines(buffer) == done + [frame] + Lines(rest) && Tail(buffer) == Tail(rest)
               && Continued(handle, n, sent, done + [frame]) == after
               && (after.failed.Some? ==> Continued(handle, n, sent, done + Lines(buffer)) == after)
  {
    hide Answers, Answer;
    var i := NewlineIndex(buffer);
    var frame, rest := buffer[..i], buffer[i + 1..];
    assert buffer == Framed(frame) + rest;
    FirstLine(frame, rest);
    hide Lines, Tail;
    AnswersOneMore(handle, n, done, frame, Lines(rest));
    ThenAssociates(Transcript(sent, None), Answers(handle, n, done), Answer(handle, n + |done|, frame));
  }

  function Concat(chunks: seq<Bytes>): (s: Bytes) {
    if chunks == [] then [] else Concat(chunks[..|chunks| - 1]) + chunks[|chunks| - 1]
  }

  lemma {:induction false} ConcatSplits(chunks: seq<Bytes>, k: nat)
    requires k <= |chunks|
    ensures Concat(chunks) == Concat(chunks[..k]) + Concat(chunks[k..])
  {
    if k == |chunks| {
      assert chunks[..k] == chunks;
    } else {
      var n := |chunks| - 1;
      ConcatSplits(chunks[..n], k);
      assert chunks[..n][..k] == chunks[..k] && chunks[k..][..n - k] == chunks[..n][k..];
    }
  }

  // An error among the frames of the first chunks is the error of the whole stream.
  lemma FirstErrorStays<R>(handle: (nat, Bytes) -> Handled<R>, chunks: seq<Bytes>, k: nat)
    requires k <= |chunks| && Answers(handle, 0, Lines(Concat(chunks[..k]))).failed.Some?
    ensures Answers(handle, 0, Lines(Concat(chunks))) == Answers(handle, 0, Lines(Concat(chunks[..k])))
  {
    ConcatSplits(chunks, k);
    var a, b := Concat(chunks[..k]), Concat(chunks[k..]);
    LinesOfConcat(a, b);
    AnswersOfConcat(handle, 0, Lines(a), Lines(Tail(a) + b));
  }

  lemma NothingReceived<R>(handle: (nat, Bytes) -> Handled<R>)
    ensures Concat([]) == [] && Tail([]) == [] && Lines([]) == [] && Answers(handle, 0, Lines([])) == Transcript([], None)
  {
  }

  lemma NextChunk<R>(handle: (nat, Bytes) -> Handled<R>, chunks: seq<Bytes>, k: nat)
    requires k < |chunks|
    ensures var before := Concat(chunks[..k]);
            && Concat(chunks[..k + 1]) == before + chunks[k]
            && Tail(before + chunks[k]) == Tail(Tail(before) + chunks[k])
            && |Lines(before + chunks[k])| == |Lines(before)| + |Lines(Tail(before) + chunks[k])|
            && Answers(handle, 0, Lines(before + chunks[k]))
               == Answers(handle, 0, Lines(before)).Then(Answers(handle, |Lines(before)|, Lines(Tail(before) + chunks[k])))
  {
    hide Lines, Tail, Answers;
    assert chunks[..k + 1][..k] == chunks[..k];
    LinesOfConcat(Concat(chunks[..k]), chunks[k]);
    AnswersOfConcat(handle, 0, Lines(Concat(chunks[..k])), Lines(Tail(Concat(chunks[..k])) + chunks[k]));
  }

  // Every line, and the unfinished one at the end, leaves room for one more chunk.
  ghost predicate ShortLines(s: Bytes) {
    && (forall line :: line in Lines(s) ==> |line| <= MAX_FRAME_BYTES - RECV_BYTES)
    && |Tail(s)| <= MAX_FRAME_BYTES - RECV_BYTES
  }

  // An unfinished line is no longer than what it becomes.
  lemma TailIsShort(a: Bytes, b: Bytes)
    requires ShortLines(a + b)
    ensures |Tail(a)| <= MAX_FRAME_BYTES - RECV_BYTES
  {
    LinesOfConcat(a, b);
    var t := Tail(a);
    var i := NewlineIndex(t + b);
    assert forall k :: 0 <= k < |t| ==> (t + b)[k] == t[k] && t[k] in t;
    if i < |t + b| {
      assert (t + b)[..i] in Lines(t + b);
    }
  }

  datatype End<R> = PeerClosed | FrameTooLong | FrameError(error: R)

  // One connection of the bridge's socket server.
  class Connection<R(!new)> {
    const handle: (nat, Bytes) -> Handled<R>
    var buffer: Bytes
    var sent: seq<R>
    var taken: nat  // how many frames were taken from the buffer

    constructor (handle: (nat, Bytes) -> Handled<R>)
      ensures this.handle == handle && buffer == [] && sent == [] && taken == 0
    {
      this.handle, buffer, sent, taken := handle, [], [], 0;
    }

    // Answer every complete frame in the buffer.
    method DrainFrames() returns (error: Option<R>)
      modifies this
      ensures Transcript(sent, error) == Continued(handle, old(taken), old(sent), Lines(old(buffer)))
      ensures error.None? ==> buffer == Tail(old(buffer)) && taken == old(taken) + |Lines(old(buffer))|
    {
      hide Lines, Tail, Answers, NewlineIndex, Blank;
      ghost var done: seq<Bytes> := [];
      NothingTaken(handle, taken, sent);
      assert done + Lines(buffer) == Lines(buffer);
      while NEWLINE in buffer
        invariant Lines(old(buffer)) == done + Lines(buffer) && Tail(old(buffer)) == Tail(buffer)
        invariant taken == old(taken) + |done|
        invariant Continued(handle, old(taken), old(sent), done) == Transcript(sent, None)
        decreases |buffer|
      {
        var lineEnd := NewlineIndex(buffer);
        var frame := buffer[..lineEnd];
        FrameTaken(handle, old(taken), old(sent), done, buffer);
        buffer := buffer[lineEnd + 1..];
        done, taken := done + [frame], taken + 1;
        if !Blank(frame) {
          var handled := handle(taken - 1, frame);
          if handled.Raises? {
            return Some(handled.error);
          }
          sent := sent + [handled.response];
        }
      }
      OnlyTail(buffer);
      assert done + Lines(buffer) == done;
      return None;
    }

    // The receive loop: `chunks` is what the successive `recv` calls return.
    method ServeClient(chunks: seq<Bytes>) returns (end: End<R>, ghost received: nat)
      requires buffer == [] && sent == [] && taken == 0
      requires forall c :: c in chunks ==> 0 < |c| <= RECV_BYTES
      modifies this
      ensures received <= |chunks|
      ensures match end
              case PeerClosed =>
                && received == |chunks| && buffer == Tail(Concat(chunks))
                && Answers(handle, 0, Lines(Concat(chunks))) == Transcript(sent, None)
              case FrameError(error) =>
                Answers(handle, 0, Lines(Concat(chunks))) == Transcript(sent, Some(error))
              case FrameTooLong =>
                && received < |chunks| && Answers(handle, 0, Lines(Concat(chunks[..received]))) == Transcript(sent, None)
                && |Tail(Concat(chunks[..received]))| + |chunks[received]| > MAX_FRAME_BYTES
      ensures ShortLines(Concat(chunks)) ==> !end.FrameTooLong?
      // Up to where it ended, or to the chunk that holds the error, the limit was kept.
      ensures forall k :: 0 <= k < received || (k == received && end.FrameError?) ==>
                k < |chunks| && |Tail(Concat(chunks[..k]))| + |chunks[k]| <= MAX_FRAME_BYTES
    {
      hide Lines, Tail, Answers, Concat, NewlineIndex;
      NothingReceived(handle);
      received := 0;
      for k := 0 to |chunks|
        invariant received == k
        invariant forall j :: 0 <= j < k ==> |Tail(Concat(chunks[..j]))| + |chunks[j]| <= MAX_FRAME_BYTES
        invariant buffer == Tail(Concat(chunks[..k])) && taken == |Lines(Concat(chunks[..k]))|
        invariant Answers(handle, 0, Lines(Concat(chunks[..k]))) == Transcript(sent, None)
      {
        NextChunk(handle, chunks, k);
        assert chunks[k] in chunks;
        buffer := buffer + chunks[k];
        if |buffer| > MAX_FRAME_BYTES {
          ConcatSplits(chunks, k);
          if ShortLines(Concat(chunks)) {
            TailIsShort(Concat(chunks[..k]), Concat(chunks[k..]));
          }
          end := FrameTooLong;
          return;
        }
        var error := DrainFrames();
        if error.Some? {
          FirstErrorStays(handle, chunks, k + 1);
          end := FrameError(error.value);
          return;
        }
        received := k + 1;
      }
      assert chunks[..|chunks|] == chunks;
      end := PeerClosed;
    }
  }
}
