/**
 The step protocols that create, rename and delete locators and look at the set to see whether they did.

 Every `yield` of the bridge's generators is a call of `Song.Tick`; `try`/`finally` becomes a
 restore step after the body, which replaces the body's outcome when it fails itself.
 */
module Cues {
  import opened Wrappers
  import opened LiveHost

  const MAX_TIME: real := 100000.0

  datatype Outcome =
    | Renamed(time: real)
    | Created(time: real)
    | Deleted(time: real)
    | NoCueAtTime
    | SnappedToGrid(requested: real, actual: real)
    | PlayheadNotMoved(requested: real)
    | LiveUnavailable
    | InvalidRequest  // INVALID_PARAMS or BAD_INPUT, raised before anything is touched

  // ---------------------------------------------------------------- snapshots

  predicate SnapshotHasTime(snapshot: Locators, target: real) {
    exists t | t in snapshot :: Near(t, target)
  }

  function SnapshotDelta(before: Locators, after: Locators): (d: (set<real>, set<real>)) {
    (set t | t in after && !SnapshotHasTime(before, t),
     set t | t in before && !SnapshotHasTime(after, t))
  }

  // ---------------------------------------------------------------- what an outcome means

  // The one locator that a toggle took away or added.
  ghost predicate Flip(before: Locators, after: Locators, cue: real) {
    || (cue in before && after == before - {cue})
    || (NoneNear(before, cue) && cue in after && after == before[cue := after[cue]])
  }

  // The locator `actual` came back, under its own name, at `landed`; or, added by mistake, it went.
  ghost predicate Undone(before: Locators, after: Locators, actual: real, landed: real) {
    if actual in before then Near(landed, actual) && after == (before - {actual})[landed := before[actual]]
    else NoneNear(before, actual) && after == before
  }

  // Exactly one locator appeared or disappeared.
  ghost predicate FlippedOnce(before: Locators, after: Locators) {
    exists cue :: Flip(before, after, cue)
  }

  // `after` lists the locator times that at most `toggles` flips make of `before`.
  ghost predicate Abandoned(before: Locators, after: Locators, toggles: nat)
    decreases toggles
  {
    || after.Keys == before.Keys
    || (toggles > 0 && exists mid :: FlippedOnce(before, mid) && Abandoned(mid, after, toggles - 1))
  }

  // Every locator but the one at `x`, as far as it is still there, has its name.
  ghost predicate NamesKept(before: Locators, after: Locators, x: real) {
    forall t :: t in before && t in after && t != x ==> after[t] == before[t]
  }

  // Every name has survived but one, and a rename still in flight is of that one.
  ghost predicate NamesSurvive(song: Song, before: Locators)
    reads song`cues, song`rename
  {
    exists x :: NamesKept(before, song.cues, x) && (song.rename.Some? ==> song.rename.value.time == x)
  }

  // Since the locators were `before`, at most the rename then in flight has happened.
  ghost predicate OnlyRenamed(song: Song, before: Locators, pending: Option<Rename>)
    reads song`cues, song`rename
  {
    match pending
    case None => song.cues == before && song.rename.None?
    case Some(r) =>
      && (song.cues == before || song.cues == before[r.time := r.name])
      && (song.rename.Some? ==> song.rename.value.time == r.time && song.rename.value.name == r.name)
  }

  lemma StillSurvive(song: Song, before: Locators, mid: Locators, pending: Option<Rename>)
    requires exists x :: NamesKept(before, mid, x) && (pending.Some? ==> pending.value.time == x)
    requires OnlyRenamed(song, mid, pending)
    requires pending.Some? ==> pending.value.time in mid
    ensures NamesSurvive(song, before)
  {
    var x :| NamesKept(before, mid, x) && (pending.Some? ==> pending.value.time == x);
    assert NamesKept(before, song.cues, x);
  }

  lemma NamesThroughFlip(before: Locators, mid: Locators, after: Locators, cue: real)
    requires Flip(before, mid, cue) && forall t :: t in mid && t in after ==> after[t] == mid[t]
    ensures NamesKept(before, after, cue)
  {}

  // What a failed operation on `target` leaves behind.
  ghost predicate FailureEffect(
    before: Locators, target: real, o: Outcome, after: Locators, toggles: nat, landed: real)
  {
    match o
    case SnappedToGrid(requested, actual) =>
      && requested == target && !Near(actual, target)
      && toggles == 2 && Undone(before, after, actual, landed)
    case PlayheadNotMoved(requested) =>
      || (requested == target && after == before && toggles == 0)
      || (!Near(requested, target) && Flip(before, after, requested) && toggles == 1)
    case LiveUnavailable => toggles <= 2 && Abandoned(before, after, toggles)
    case _ => false
  }

  ghost predicate CreateEffect(
    before: Locators, name: string, target: real, o: Outcome, after: Locators, toggles: nat, landed: real)
  {
    match o
    case Renamed(t) => t in before && Near(t, target) && after == before[t := name] && toggles == 0
    case Created(t) => NoneNear(before, target) && Near(t, target) && after == before[t := name] && toggles == 1
    case LiveUnavailable => FailureEffect(before, target, o, after, toggles, landed)
    case _ => NoneNear(before, target) && FailureEffect(before, target, o, after, toggles, landed)
  }

  ghost predicate DeleteEffect(
    before: Locators, target: real, o: Outcome, after: Locators, toggles: nat, landed: real)
  {
    match o
    case NoCueAtTime => NoneNear(before, target) && after == before && toggles == 0
    case Deleted(t) => t in before && Near(t, target) && after == before - {t} && toggles == 1
    case _ =>
      exists t :: t in before && Near(t, target) && FailureEffect(before, t, o, after, toggles, landed)
  }

  // ---------------------------------------------------------------- what is asked of Live

  // `lost` playhead writes that were lost, and one that landed if there is one.
  function Tries(target: real, lost: nat, landed: bool): (calls: seq<Call>) {
    seq(lost, _ => Moved(target, false)) + if landed then [Moved(target, true)] else []
  }

  function Namings(cue: real, name: string, n: nat): (calls: seq<Call>) {
    seq(n, _ => Named(cue, name))
  }

  // At some point from the `from`-th call on, all the writes allowed for one move were lost.
  ghost predicate GaveUp(calls: seq<Call>, from: nat, target: real) {
    exists k: nat :: from <= k <= |calls| && Tries(target, PLAYHEAD_MOVE_RETRIES, false) <= calls[k..]
  }

  // Since `before`, every toggle was issued with the quantization off.
  ghost predicate OffGrid(before: seq<Call>, calls: seq<Call>) {
    before <= calls && forall k :: |before| <= k < |calls| && calls[k].Toggled? ==> calls[k].quantization == NO_QUANTIZATION
  }

  // All that was asked is this name of one locator, as often as it may be.
  ghost predicate NamedInVain(before: seq<Call>, calls: seq<Call>, name: string) {
    exists cue :: calls == before + AllNamings(cue, name)
  }

  // That, and then what the restoring of the cursor asked.
  ghost predicate NamedInVainFirst(before: seq<Call>, calls: seq<Call>, name: string) {
    exists mid :: mid <= calls && NamedInVain(before, mid, name)
  }

  function AllNamings(cue: real, name: string): (calls: seq<Call>) {
    Namings(cue, name, CUE_OPERATION_VERIFY_TICKS + 1)
  }

  // The place that the cursor could not be moved to.
  function Stuck(o: Outcome): (place: Option<real>) {
    if o.PlayheadNotMoved? then Some(o.requested) else None
  }

  // What an operation asked of Live: with the quantization off it toggled only so, and it got stuck only
  // after losing every write of one move, which an attentive host does not let happen.
  ghost predicate Asked(before: seq<Call>, calls: seq<Call>, quantization: int, attentive: bool, stuck: Option<real>) {
    && before <= calls
    && (quantization == NO_QUANTIZATION ==> OffGrid(before, calls))
    && (stuck.Some? ==> !attentive && GaveUp(calls, |before|, stuck.value))
  }

  lemma AskedInTurn(
    before: seq<Call>, mid: seq<Call>, after: seq<Call>, quantization: int, attentive: bool, stuck: Option<real>,
    next: Option<real>)
    requires Asked(before, mid, quantization, attentive, stuck)
    requires Asked(mid, after, quantization, attentive, next) || Asked(mid, after, NO_QUANTIZATION, attentive, next)
    ensures Asked(before, after, quantization, attentive, stuck) && Asked(before, after, quantization, attentive, next)
  {
    if stuck.Some? {
      var k: nat :| |before| <= k <= |mid| && Tries(stuck.value, PLAYHEAD_MOVE_RETRIES, false) <= mid[k..];
      assert mid[k..] <= after[k..];
    }
    if next.Some? {
      var k: nat :| |mid| <= k <= |after| && Tries(next.value, PLAYHEAD_MOVE_RETRIES, false) <= after[k..];
    }
  }

  lemma AskedOneCall(before: seq<Call>, after: seq<Call>, quantization: int, attentive: bool)
    requires after == before + [Toggled(quantization)] || OffGrid(before, after)
    ensures Asked(before, after, quantization, attentive, None)
  {
  }

  lemma GaveUpNow(before: seq<Call>, calls: seq<Call>, target: real)
    requires calls == before + Tries(target, PLAYHEAD_MOVE_RETRIES, false)
    ensures GaveUp(calls, |before|, target)
  {
    assert calls[|before|..] == Tries(target, PLAYHEAD_MOVE_RETRIES, false);
  }

  lemma LostOnceMore(calls: seq<Call>, target: real)
    ensures LostAtEnd(calls + [Moved(target, false)]) == LostAtEnd(calls) + 1
  {
    assert (calls + [Moved(target, false)])[..|calls|] == calls;
  }

  lemma {:induction false} TriesAreLost(calls: seq<Call>, target: real, n: nat)
    ensures LostAtEnd(calls + Tries(target, n, false)) == LostAtEnd(calls) + n
  {
    if n == 0 {
      assert calls + Tries(target, 0, false) == calls;
    } else {
      TriesAreLost(calls, target, n - 1);
      var fewer := calls + Tries(target, n - 1, false);
      assert Tries(target, n - 1, false) + [Moved(target, false)] == Tries(target, n, false);
      hide Tries;
      assert calls + Tries(target, n, false) == fewer + [Moved(target, false)];
      LostOnceMore(fewer, target);
    }
  }

  // ---------------------------------------------------------------- waiting

  method VerifiedCuePosition(song: Song, target: real) returns (moved: bool)
    requires song.Valid() && song.toggle.None? && song.wanted.None?
    modifies song`cues, song`playhead, song`wanted, song`rename, song`toggle, song`ticks, song`calls
    ensures song.Valid() && song.toggle.None? && song.wanted.None?
    ensures moved <==> Near(song.playhead, target)
    ensures song.playhead == if moved && !Near(old(song.playhead), target) then target else old(song.playhead)
    // It writes the target until one write lands, and gives up after all of them were lost.
    ensures if Near(old(song.playhead), target) then song.calls == old(song.calls)
            else exists lost: nat ::
                   && song.calls == old(song.calls) + Tries(target, lost, moved)
                   && if moved then lost < PLAYHEAD_MOVE_RETRIES else lost == PLAYHEAD_MOVE_RETRIES
    ensures Asked(old(song.calls), song.calls, NO_QUANTIZATION, song.attentive,
                  if moved then None else Some(target))
    ensures old(song.ticks) <= song.ticks <= old(song.ticks) + PLAYHEAD_MOVE_RETRIES
    ensures song.cues.Keys == old(song.cues).Keys
    ensures old(song.rename).None? ==> song.rename.None? && song.cues == old(song.cues)
    ensures OnlyRenamed(song, old(song.cues), old(song.rename))
  {
    if Near(song.playhead, target) {
      return true;
    }
    for attempt := 0 to PLAYHEAD_MOVE_RETRIES
      invariant song.Valid() && song.toggle.None? && song.wanted.None?
      invariant !Near(song.playhead, target) && song.playhead == old(song.playhead)
      invariant song.calls == old(song.calls) + Tries(target, attempt, false)
      invariant song.ticks == old(song.ticks) + attempt
      invariant song.cues.Keys == old(song.cues).Keys
      invariant old(song.rename).None? ==> song.rename.None? && song.cues == old(song.cues)
      invariant OnlyRenamed(song, old(song.cues), old(song.rename))
    {
      song.MovePlayhead(target);
      song.Tick();
      OneMoreTry(old(song.calls), song.calls, target, attempt);
      if Near(song.playhead, target) {
        return true;
      }
    }
    TriesAreLost(old(song.calls), target, PLAYHEAD_MOVE_RETRIES);
    GaveUpNow(old(song.calls), song.calls, target);
    return false;
  }

  lemma OneMoreTry(before: seq<Call>, calls: seq<Call>, target: real, lost: nat)
    requires exists landed :: calls == before + Tries(target, lost, false) + [Moved(target, landed)]
    ensures calls[|calls| - 1].Moved?
    ensures calls == before + if calls[|calls| - 1].landed then Tries(target, lost, true) else Tries(target, lost + 1, false)
    ensures OffGrid(before, calls)
  {
    assert Tries(target, lost, false) + [Moved(target, true)] == Tries(target, lost, true);
    assert Tries(target, lost, false) + [Moved(target, false)] == Tries(target, lost + 1, false);
  }

  method VerifiedCueName(song: Song, cue: real, name: string) returns (named: bool)
    requires song.Quiet() && cue in song.cues
    modifies song`cues, song`playhead, song`wanted, song`rename, song`toggle, song`ticks, song`calls
    ensures song.Valid() && song.toggle.None? && song.wanted.None? && song.playhead == old(song.playhead)
    ensures named ==> song.Quiet() && song.cues == old(song.cues)[cue := name]
    ensures !named ==> !song.settling && song.cues.Keys == old(song.cues).Keys
    ensures !named ==>
              && (song.cues == old(song.cues) || song.cues == old(song.cues)[cue := name])
              && (song.rename.Some? ==> song.rename.value.time == cue)
    // It writes the name once and after every tick that does not show it.
    ensures var waited := song.ticks - old(song.ticks);
            && 0 <= waited <= CUE_OPERATION_VERIFY_TICKS && (!named ==> waited == CUE_OPERATION_VERIFY_TICKS)
            && song.calls == old(song.calls) + Namings(cue, name, if named && waited > 0 then waited else waited + 1)
    ensures OffGrid(old(song.calls), song.calls)
  {
    song.SetName(cue, name);
    assert [Named(cue, name)] == Namings(cue, name, 1);
    if song.cues[cue] == name {
      return true;
    }
    for attempt := 0 to CUE_OPERATION_VERIFY_TICKS
      invariant song.Valid() && song.toggle.None? && song.wanted.None? && song.playhead == old(song.playhead)
      invariant song.cues == old(song.cues) || (song.cues == old(song.cues)[cue := name] && song.rename.None?)
      invariant song.rename.None? || (song.rename.value.time == cue && song.rename.value.name == name)
      invariant song.settling && song.cues[cue] != name ==>
                  song.rename.Some? && song.rename.value.left + attempt <= CUE_OPERATION_VERIFY_TICKS
      invariant song.settling ==> attempt < CUE_OPERATION_VERIFY_TICKS
      invariant song.ticks == old(song.ticks) + attempt
      invariant song.calls == old(song.calls) + Namings(cue, name, attempt + 1)
    {
      song.Tick();
      if song.cues[cue] == name {
        return true;
      }
      song.SetName(cue, name);
      assert Namings(cue, name, attempt + 1) + [Named(cue, name)] == Namings(cue, name, attempt + 2);
    }
    return false;
  }

  method WaitForCueState(song: Song, target: real, shouldExist: bool, ghost before: Locators)
    returns (seen: bool, cue: Option<real>)
    requires song.Valid() && song.wanted.None? && song.rename.None? && song.InFlight(before, 0)
    requires shouldExist <==> NoneNear(before, target)
    modifies song`cues, song`playhead, song`wanted, song`rename, song`toggle, song`ticks, song`calls
    ensures song.Quiet() && SettledAt(before, song.cues, song.landing, song.settling) && song.calls == old(song.calls)
    ensures old(song.ticks) <= song.ticks <= old(song.ticks) + CUE_OPERATION_VERIFY_TICKS
    ensures !seen ==> song.ticks == old(song.ticks) + CUE_OPERATION_VERIFY_TICKS
    ensures seen <==> (shouldExist <==> !NoneNear(song.cues, target))
    ensures cue.Some? ==> cue.value in song.cues && Near(cue.value, target)
    ensures seen ==> (cue.Some? <==> shouldExist)
  {
    cue := song.FindCue(target);
    for attempt := 0 to CUE_OPERATION_VERIFY_TICKS
      invariant song.Valid() && song.wanted.None? && song.rename.None? && song.InFlight(before, attempt)
      invariant song.ticks == old(song.ticks) + attempt && song.calls == old(song.calls)
      invariant attempt > 0 ==> (shouldExist <==> NoneNear(song.cues, target))
      invariant cue.Some? ==> cue.value in song.cues && Near(cue.value, target)
    {
      song.Tick();
      cue := song.FindCue(target);
      if cue.Some? == shouldExist {
        return true, cue;
      }
    }
    return false, cue;
  }

  // Move the cursor to the target and toggle there once.
  method MoveAndToggle(song: Song, target: real) returns (moved: bool, ghost cursor: real)
    requires song.Quiet()
    modifies song`cues, song`playhead, song`wanted, song`rename, song`toggle, song`landing, song`toggles, song`ticks,
             song`calls
    ensures song.Valid() && song.wanted.None? && song.rename.None?
    ensures old(song.ticks) <= song.ticks <= old(song.ticks) + PLAYHEAD_MOVE_RETRIES
    ensures moved <==> Near(cursor, target)
    ensures cursor == if moved && !Near(old(song.playhead), target) then target else old(song.playhead)
    ensures if moved then
              song.InFlight(old(song.cues), 0) && song.landing == song.snap(cursor) && song.toggles == old(song.toggles) + 1
            else
              song.Quiet() && song.cues == old(song.cues) && song.toggles == old(song.toggles)
    ensures Asked(old(song.calls), song.calls, song.quantization, song.attentive, if moved then None else Some(target))
  {
    hide Asked;
    ghost var before, mode, attentive := song.calls, song.quantization, song.attentive;
    AskedOneCall(before, before, mode, attentive);
    moved := VerifiedCuePosition(song, target);
    AskedInTurn(before, before, song.calls, mode, attentive, None, if moved then None else Some(target));
    cursor := song.playhead;
    if moved {
      ghost var there := song.calls;
      song.SetOrDeleteCue();
      AskedOneCall(there, song.calls, mode, attentive);
      AskedInTurn(before, there, song.calls, mode, attentive, None, None);
    }
  }

  lemma DeltaOfOneToggle(before: Locators, after: Locators, pos: real) returns (cue: real)
    requires Apart(before) && LandsAt(before, after, pos)
    ensures Flip(before, after, cue)
    ensures SnapshotDelta(before, after) == if cue in before then ({}, {cue}) else ({cue}, {})
    ensures cue in before ==> Near(cue, pos)
    ensures cue !in before ==> cue == pos && !Crowded(before, pos)
  {
    if NoneNear(before, pos) {
      cue := pos;
      assert !SnapshotHasTime(before, pos);
      forall t | t in after && t != pos ensures SnapshotHasTime(before, t) { assert Near(t, t); }
      forall t | t in before ensures SnapshotHasTime(after, t) { assert Near(t, t); }
    } else {
      cue :| cue in before && Near(cue, pos) && after == before - {cue};
      assert !SnapshotHasTime(after, cue);
      forall t | t in after ensures SnapshotHasTime(before, t) { assert Near(t, t); }
      forall t | t in before && t != cue ensures SnapshotHasTime(after, t) { assert Near(t, t); }
    }
    var (added, removed) := SnapshotDelta(before, after);
    assert added == (if cue in before then {} else {cue});
    assert removed == (if cue in before then {cue} else {});
  }

  lemma SettledIsAbandoned(before: Locators, now: Locators, after: Locators, pos: real)
    requires Apart(before) && (LandsAt(before, now, pos) || now == before) && after.Keys == now.Keys
    ensures Abandoned(before, after, 1)
  {
    if LandsAt(before, now, pos) {
      var cue := DeltaOfOneToggle(before, now, pos);
      assert FlippedOnce(before, now) && Abandoned(now, after, 0);
    }
  }

  lemma OneMoreFlip(before: Locators, mid: Locators, after: Locators, cue: real, toggles: nat)
    requires Flip(before, mid, cue) && Abandoned(mid, after, toggles)
    ensures Abandoned(before, after, toggles + 1)
  {
    assert FlippedOnce(before, mid);
  }

  lemma KeysDecideAbandoned(before: Locators, after: Locators, after': Locators, toggles: nat)
    requires after.Keys == after'.Keys && Abandoned(before, after, toggles)
    ensures Abandoned(before, after', toggles)
    decreases toggles
  {
    if after.Keys != before.Keys {
      var mid :| FlippedOnce(before, mid) && Abandoned(mid, after, toggles - 1);
      KeysDecideAbandoned(mid, after, after', toggles - 1);
    }
  }

  // Grid lines stand at least four tolerances apart and snapping goes to the nearest line.
  ghost predicate Sharp(snap: real -> real) {
    forall x, y :: Gap(y, snap(x)) < 2.0 * CUE_TIME_TOLERANCE ==> snap(y) == snap(x)
  }

  // ... and every locator stands on one.
  ghost predicate Orderly(snap: real -> real, cues: Locators) {
    Sharp(snap) && forall t :: t in cues ==> snap(t) == t
  }

  // On an orderly set, a toggle within tolerance of a grid place lands exactly on it.
  lemma OrderlyToggle(snap: real -> real, cues: Locators, cursor: real)
    requires Orderly(snap, cues)
    ensures snap(snap(cursor)) == snap(cursor) && !Crowded(cues, snap(cursor))
    ensures forall t :: t in cues && Near(t, snap(cursor)) ==> t == snap(cursor)
    ensures forall place :: snap(place) == place && Near(cursor, place) ==> snap(cursor) == place
  {
    assert Gap(snap(cursor), snap(cursor)) < 2.0 * CUE_TIME_TOLERANCE;
    forall t | t in cues && Gap(t, snap(cursor)) < 2.0 * CUE_TIME_TOLERANCE ensures t == snap(cursor) {
      assert snap(t) == snap(cursor);
    }
    forall place | snap(place) == place && Near(cursor, place) ensures snap(cursor) == place {
      assert Gap(cursor, snap(place)) < 2.0 * CUE_TIME_TOLERANCE;
    }
  }

  // ... so toggling back at the flipped locator undoes the flip.
  lemma OrderlyToggleBack(snap: real -> real, before: Locators, after: Locators, now: Locators,
                          actual: real, cursor: real, back: real)
    requires Orderly(snap, before) && Apart(before) && Flip(before, after, actual)
    requires if actual in before then Near(actual, snap(cursor)) else actual == snap(cursor)
    requires Near(back, actual) && SettledAt(after, now, snap(back), true)
    ensures snap(back) == actual
    ensures NoneNear(now, actual) <==> actual !in before
  {
    OrderlyToggle(snap, before, cursor);
    assert snap(actual) == actual && Near(actual, actual);
    OrderlyToggle(snap, before, back);
    if actual in before {
      assert NoneNear(after, actual) && !Crowded(after, actual);
    } else {
      assert actual in after && !NoneNear(after, actual);
    }
  }

  lemma FlipLeavesGap(before: Locators, after: Locators, actual: real)
    requires Apart(before) && Flip(before, after, actual)
    ensures actual in before <==> NoneNear(after, actual)
  {
    assert Near(actual, actual);
  }

  // Seeing a locator near the deleted one means that the toggle put it there, alone.
  lemma RecreatedAlone(after: Locators, now: Locators, actual: real, landing: real)
    requires NoneNear(after, actual) && !NoneNear(now, actual) && (LandsAt(after, now, landing) || now == after)
    ensures Near(landing, actual) && landing in now && now == after[landing := now[landing]]
    ensures forall t :: t in now && Near(t, actual) ==> t == landing
  {
    var t :| t in now && Near(t, actual);
    assert t !in after;
  }

  // Seeing nothing near the added one means that the toggle took exactly that one away.
  lemma RemovedExactly(before: Locators, after: Locators, now: Locators, actual: real, landing: real)
    requires NoneNear(before, actual) && actual in after && after == before[actual := after[actual]]
    requires NoneNear(now, actual) && (LandsAt(after, now, landing) || now == after)
    ensures now == before
  {
    assert Near(actual, actual);
    assert actual !in now;
  }

  // What reversing the toggle that made `after` of `before`, landing at `first`, leaves behind.
  ghost predicate ReversalEffect(
    snap: real -> real, requested: real, before: Locators, after: Locators, first: real,
    o: Outcome, now: Locators, toggles: nat, landed: real)
  {
    match o
    case SnappedToGrid(r, actual) =>
      && r == requested && toggles == 1 && Flip(before, after, actual)
      && Undone(before, now, actual, landed)
      && (actual !in before ==> actual == first)
      && (Sharp(snap) ==> landed == first)
    case PlayheadNotMoved(actual) =>
      toggles == 0 && now == after && Flip(before, after, actual)
    case LiveUnavailable =>
      toggles == 1 && Abandoned(after, now, 1)
    case _ => false
  }

  // Go back to `actual`, the locator flipped by mistake, and toggle it once more.
  method ToggleBack(song: Song, actual: real, shouldExist: bool,
                    ghost before: Locators, ghost after: Locators, ghost cursor: real)
    returns (moved: bool, seen: bool, cue: Option<real>)
    requires song.Quiet() && song.cues == after && Apart(before) && Flip(before, after, actual)
    requires song.landing == song.snap(cursor) && (shouldExist <==> actual in before)
    requires if actual in before then Near(actual, song.landing) else actual == song.landing
    modifies song`cues, song`playhead, song`wanted, song`rename, song`toggle, song`landing, song`toggles, song`ticks,
             song`calls
    ensures song.Quiet()
    ensures old(song.ticks) <= song.ticks <= old(song.ticks) + PLAYHEAD_MOVE_RETRIES + CUE_OPERATION_VERIFY_TICKS
    ensures Asked(old(song.calls), song.calls, song.quantization, song.attentive,
                  if moved then None else Some(actual))
    ensures moved && !seen ==> song.ticks >= old(song.ticks) + CUE_OPERATION_VERIFY_TICKS
    ensures !moved ==> song.cues == after && song.toggles == old(song.toggles) && !seen
    ensures moved ==> song.toggles == old(song.toggles) + 1 && Abandoned(after, song.cues, 1)
    ensures moved ==> forall t :: t in after && t in song.cues ==> song.cues[t] == after[t]
    ensures moved && Sharp(song.snap) ==> song.landing == old(song.landing)
    ensures moved && song.settling && Orderly(song.snap, before) ==> seen
    ensures seen && actual in before ==>
              && cue == Some(song.landing) && Near(song.landing, actual)
              && song.landing in song.cues && song.cues == after[song.landing := song.cues[song.landing]]
    ensures seen && actual !in before ==> song.cues == before
  {
    hide Asked;
    ghost var back;
    moved, back := MoveAndToggle(song, actual);
    if !moved {
      return false, false, None;
    }
    FlipLeavesGap(before, after, actual);
    seen, cue := WaitForCueState(song, actual, shouldExist, after);
    SettledIsAbandoned(after, song.cues, song.cues, song.landing);
    if seen && actual in before {
      RecreatedAlone(after, song.cues, actual, song.landing);
    } else if seen {
      RemovedExactly(before, after, song.cues, actual, song.landing);
    }
    assert Sharp(song.snap) ==> song.snap(back) == song.snap(cursor) by {
      assert Gap(back, song.snap(cursor)) < 2.0 * CUE_TIME_TOLERANCE;
    }
    if song.settling && Orderly(song.snap, before) {
      OrderlyToggleBack(song.snap, before, after, song.cues, actual, cursor, back);
    }
  }

  // Take back a toggle that flipped another locator than the requested one, then report where it landed.
  method ReverseSnappedCueToggle(song: Song, requested: real, before: Locators, after: Locators,
                                 ghost cursor: real) returns (o: Outcome)
    requires song.Quiet() && song.cues == after && Apart(before)
    requires song.landing == song.snap(cursor) && LandsAt(before, after, song.landing)
    modifies song`cues, song`playhead, song`wanted, song`rename, song`toggle, song`landing, song`toggles, song`ticks,
             song`calls
    ensures song.Valid() && song.toggle.None? && song.wanted.None?
    ensures !o.LiveUnavailable? || song.settling ==> song.Quiet()
    ensures old(song.ticks) <= song.ticks <= old(song.ticks) + PLAYHEAD_MOVE_RETRIES + 2 * CUE_OPERATION_VERIFY_TICKS
    ensures song.toggles >= old(song.toggles)
    ensures ReversalEffect(song.snap, requested, before, after, old(song.landing),
                           o, song.cues, song.toggles - old(song.toggles), song.landing)
    ensures Asked(old(song.calls), song.calls, song.quantization, song.attentive, Stuck(o))
    ensures o.LiveUnavailable? ==> NamesSurvive(song, before)
    ensures o.LiveUnavailable? ==> song.ticks >= old(song.ticks) + CUE_OPERATION_VERIFY_TICKS
    ensures song.settling && Orderly(song.snap, before) ==> !o.LiveUnavailable?
    ensures Orderly(song.snap, before) && o.SnappedToGrid? ==> o.actual == old(song.landing)
  {
    var (added, removed) := SnapshotDelta(before, after);
    ghost var flipped := DeltaOfOneToggle(before, after, song.landing);
    if |added| == 1 && removed == {} {
      var actual :| actual in added;
      var moved, seen, _ := ToggleBack(song, actual, false, before, after, cursor);
      NamesThroughFlip(before, after, song.cues, actual);
      return if !moved then PlayheadNotMoved(actual)
             else if seen then SnappedToGrid(requested, actual)
             else LiveUnavailable;
    }
    if |removed| == 1 && added == {} {
      var actual :| actual in removed;
      o := RestoreDeletedCue(song, requested, actual, before, after, cursor);
      return;
    }
    return LiveUnavailable;
  }

  // Put back, under its own name, the locator an off-grid toggle took away.
  method RestoreDeletedCue(song: Song, requested: real, actual: real, before: Locators, ghost after: Locators,
                           ghost cursor: real) returns (o: Outcome)
    requires song.Quiet() && song.cues == after && Apart(before)
    requires actual in before && after == before - {actual}
    requires song.landing == song.snap(cursor) && Near(actual, song.landing)
    modifies song`cues, song`playhead, song`wanted, song`rename, song`toggle, song`landing, song`toggles, song`ticks,
             song`calls
    ensures song.Valid() && song.toggle.None? && song.wanted.None?
    ensures !o.LiveUnavailable? || song.settling ==> song.Quiet()
    ensures old(song.ticks) <= song.ticks <= old(song.ticks) + PLAYHEAD_MOVE_RETRIES + 2 * CUE_OPERATION_VERIFY_TICKS
    ensures song.toggles >= old(song.toggles)
    ensures ReversalEffect(song.snap, requested, before, after, old(song.landing),
                           o, song.cues, song.toggles - old(song.toggles), song.landing)
    ensures Asked(old(song.calls), song.calls, song.quantization, song.attentive, Stuck(o))
    ensures o.LiveUnavailable? ==> NamesSurvive(song, before)
    ensures o.LiveUnavailable? ==> song.ticks >= old(song.ticks) + CUE_OPERATION_VERIFY_TICKS
    ensures song.settling && Orderly(song.snap, before) ==> !o.LiveUnavailable?
    ensures Orderly(song.snap, before) && o.SnappedToGrid? ==> o.actual == old(song.landing)
  {
    hide Apart, Abandoned;
    var originalName := before[actual];
    var moved, seen, restored := ToggleBack(song, actual, true, before, after, cursor);
    if !moved {
      return PlayheadNotMoved(actual);
    }
    if !seen {
      NamesThroughFlip(before, after, song.cues, actual);
      return LiveUnavailable;
    }
    label recreated:
    var named := VerifiedCueName(song, restored.value, originalName);
    if !named {
      KeysDecideAbandoned(after, old@recreated(song.cues), song.cues, 1);
      assert NamesKept(before, song.cues, restored.value);
      return LiveUnavailable;
    }
    assert song.cues == after[song.landing := originalName];
    return SnappedToGrid(requested, actual);
  }

  // ---------------------------------------------------------------- create

  lemma DeltaOfNothing(cues: Locators)
    ensures SnapshotDelta(cues, cues) == ({}, {})
  {
    forall t | t in cues ensures SnapshotHasTime(cues, t) { assert Near(t, t); }
    var (added, removed) := SnapshotDelta(cues, cues);
    assert added == {} && removed == {};
  }

  // A reversal after a toggle for `target` is one of the failures `FailureEffect` describes.
  lemma ReversalIsFailure(
    snap: real -> real, target: real, before: Locators, after: Locators, cursor: real,
    o: Outcome, now: Locators, toggles: nat, landed: real)
    requires ReversalEffect(snap, target, before, after, snap(cursor), o, now, toggles, landed)
    requires exists cue :: Flip(before, after, cue)
    requires forall cue :: Flip(before, after, cue) ==> !Near(cue, target)
    ensures FailureEffect(before, target, o, now, 1 + toggles, landed)
    ensures ExactOnGrid(snap, before, o, now)
  {
    if Sharp(snap) && o.SnappedToGrid? {
      SharpReversal(snap, before, now, o.actual, cursor);
    }
    var cue :| Flip(before, after, cue);
    if o.LiveUnavailable? {
      OneMoreFlip(before, after, now, cue, 1);
    }
  }

  // On a sharp grid the reversal restores the locators exactly when the flipped one is on the grid.
  lemma SharpReversal(snap: real -> real, before: Locators, now: Locators, actual: real, cursor: real)
    requires Sharp(snap) && Undone(before, now, actual, snap(cursor))
    requires actual in before || actual == snap(cursor)
    ensures now == before <==> snap(actual) == actual
  {
    assert Gap(actual, snap(cursor)) < 2.0 * CUE_TIME_TOLERANCE;
    assert snap(actual) == snap(cursor);
    if actual in before && actual != snap(cursor) {
      assert actual !in now;
    }
  }

  // What a reversal guarantees on a sharp grid.
  ghost predicate ExactOnGrid(snap: real -> real, before: Locators, o: Outcome, after: Locators) {
    Sharp(snap) && o.SnappedToGrid? ==> (after == before <==> snap(o.actual) == o.actual)
  }

  lemma NothingSnapped(snap: real -> real, cues: Locators)
    ensures ExactOnGrid(snap, cues, InvalidRequest, cues) && ExactOnGrid(snap, cues, NoCueAtTime, cues)
  {
  }

  // What watching for a created locator can see, `target` being free at first.
  lemma CreationObserved(before: Locators, now: Locators, target: real, pos: real)
    requires Apart(before) && NoneNear(before, target) && (LandsAt(before, now, pos) || now == before)
    ensures now == before <==> SnapshotDelta(before, now) == ({}, {})
    ensures now != before ==> LandsAt(before, now, pos) && exists cue :: Flip(before, now, cue)
    ensures forall cue :: cue in now && Near(cue, target) ==>
              cue !in before && cue == pos && now == before[cue := now[cue]]
    ensures NoneNear(now, target) ==> forall cue :: Flip(before, now, cue) ==> !Near(cue, target)
  {
    DeltaOfNothing(before);
    if LandsAt(before, now, pos) {
      var flipped := DeltaOfOneToggle(before, now, pos);
    }
  }

  // Reverse a toggle that was meant for the target, with the reversal's outcome as that of the operation.
  method FailBySnap(song: Song, target: real, before: Locators, after: Locators, ghost cursor: real)
    returns (o: Outcome)
    requires song.Quiet() && song.cues == after && Apart(before)
    requires song.landing == song.snap(cursor) && LandsAt(before, after, song.landing)
    requires exists cue :: Flip(before, after, cue)
    requires forall cue :: Flip(before, after, cue) ==> !Near(cue, target)
    modifies song`cues, song`playhead, song`wanted, song`rename, song`toggle, song`landing, song`toggles, song`ticks,
             song`calls
    ensures song.Valid() && song.toggle.None? && song.wanted.None?
    ensures !o.LiveUnavailable? || song.settling ==> song.Quiet()
    ensures old(song.ticks) <= song.ticks <= old(song.ticks) + PLAYHEAD_MOVE_RETRIES + 2 * CUE_OPERATION_VERIFY_TICKS
    ensures song.toggles >= old(song.toggles)
    ensures FailureEffect(before, target, o, song.cues, 1 + song.toggles - old(song.toggles), song.landing)
    ensures ExactOnGrid(song.snap, before, o, song.cues)
    ensures Asked(old(song.calls), song.calls, song.quantization, song.attentive, Stuck(o))
    ensures o.LiveUnavailable? ==> NamesSurvive(song, before)
    ensures o.LiveUnavailable? ==> song.ticks >= old(song.ticks) + CUE_OPERATION_VERIFY_TICKS
    ensures song.settling && Orderly(song.snap, before) ==> !o.LiveUnavailable?
    ensures Orderly(song.snap, before) && o.SnappedToGrid? ==> o.actual == old(song.landing)
  {
    hide Apart, LandsAt, FailureEffect, Flip, Orderly;
    o := ReverseSnappedCueToggle(song, target, before, after, cursor);
    ReversalIsFailure(song.snap, target, before, after, cursor, o, song.cues,
                      song.toggles - old(song.toggles), song.landing);
  }

  // Watch until the new locator shows at the target, or undo a toggle that went elsewhere.
  method WaitForCreatedCue(song: Song, target: real, before: Locators, ghost cursor: real)
    returns (cue: Option<real>, o: Outcome)
    requires song.Valid() && song.wanted.None? && song.rename.None? && song.InFlight(before, 0)
    requires Apart(before) && NoneNear(before, target) && song.landing == song.snap(cursor)
    modifies song`cues, song`playhead, song`wanted, song`rename, song`toggle, song`landing, song`toggles, song`ticks,
             song`calls
    ensures song.Valid() && song.toggle.None? && song.wanted.None?
    ensures cue.Some? || !o.LiveUnavailable? || song.settling ==> song.Quiet()
    ensures old(song.ticks) <= song.ticks <= old(song.ticks) + PLAYHEAD_MOVE_RETRIES + 3 * CUE_OPERATION_VERIFY_TICKS
    ensures cue.Some? ==>
              && song.ticks <= old(song.ticks) + CUE_OPERATION_VERIFY_TICKS
              && song.toggles == old(song.toggles) && Near(cue.value, target) && cue.value == song.snap(cursor)
              && cue.value in song.cues && song.cues == before[cue.value := song.cues[cue.value]]
    ensures cue.None? ==>
              && song.toggles >= old(song.toggles)
              && FailureEffect(before, target, o, song.cues, 1 + song.toggles - old(song.toggles), song.landing)
              && ExactOnGrid(song.snap, before, o, song.cues)
              && (o.LiveUnavailable? ==>
                    NamesSurvive(song, before) && song.ticks >= old(song.ticks) + CUE_OPERATION_VERIFY_TICKS)
    ensures Asked(old(song.calls), song.calls, song.quantization, song.attentive, if cue.Some? then None else Stuck(o))
    ensures song.settling && Orderly(song.snap, before) ==>
              cue.Some? || o.PlayheadNotMoved? || o == SnappedToGrid(target, song.snap(cursor))
  {
    hide Apart, SnapshotDelta, Flip, Orderly, Sharp;
    for attempt := 0 to CUE_OPERATION_VERIFY_TICKS
      invariant song.Valid() && song.wanted.None? && song.rename.None? && song.InFlight(before, attempt)
      invariant song.landing == old(song.landing) && song.toggles == old(song.toggles) && song.calls == old(song.calls)
      invariant song.ticks == old(song.ticks) + attempt
      invariant attempt > 0 && song.toggle.None? ==> song.cues == before
    {
      song.Tick();
      cue := song.FindCue(target);
      CreationObserved(before, song.cues, target, song.landing);
      if cue.Some? {
        return cue, LiveUnavailable;
      }
      var after := song.cues;
      var (added, removed) := SnapshotDelta(before, after);
      if added != {} || removed != {} {
        o := FailBySnap(song, target, before, after, cursor);
        return None, o;
      }
    }
    if Orderly(song.snap, before) {
      OrderlyToggle(song.snap, before, cursor);
    }
    assert NamesKept(before, song.cues, target);
    return None, LiveUnavailable;
  }

  // What creation gives on a grid: where the cursor goes, and where Live snaps it to, decide.
  ghost predicate Expected(snap: real -> real, before: Locators, playhead: real, target: real, o: Outcome) {
    var cursor := if Near(playhead, target) then playhead else target;
    if !NoneNear(before, target) then o.Renamed? && o.time in before && Near(o.time, target)
    else if Near(snap(cursor), target) then o == Created(snap(cursor))
    else o == SnappedToGrid(target, snap(cursor))
  }

  // A created locator stands on the grid too.
  lemma CreatedOnGrid(snap: real -> real, before: Locators, after: Locators, cursor: real)
    requires Orderly(snap, before) && after.Keys == before.Keys + {snap(cursor)}
    ensures Orderly(snap, after)
  {
    OrderlyToggle(snap, before, cursor);
  }

  // A toggle that snapped away leaves the locators on a grid as they were.
  lemma SnappedOnGrid(snap: real -> real, before: Locators, after: Locators, o: Outcome, cursor: real)
    requires Orderly(snap, before) && ExactOnGrid(snap, before, o, after)
    requires o.SnappedToGrid? && o.actual == snap(cursor)
    ensures after == before
  {
    OrderlyToggle(snap, before, cursor);
  }

  lemma AddedByFlip(before: Locators, after: Locators, cue: real)
    requires Apart(after) && cue !in before && cue in after && after == before[cue := after[cue]]
    ensures Flip(before, after, cue)
  {
    forall t | t in before ensures !Near(t, cue) {
      assert Gap(t, cue) >= 2.0 * CUE_TIME_TOLERANCE;
    }
  }

  // Create a locator named `name` at `target`, where there is none.
  method CreateNewCue(song: Song, name: string, target: real) returns (o: Outcome)
    requires song.Quiet() && NoneNear(song.cues, target)
    modifies song`cues, song`playhead, song`wanted, song`rename, song`toggle, song`landing, song`toggles, song`ticks,
             song`calls
    ensures song.Valid() && song.toggle.None? && song.wanted.None?
    ensures !o.LiveUnavailable? || song.settling ==> song.Quiet()
    ensures old(song.ticks) <= song.ticks <= old(song.ticks) + 2 * PLAYHEAD_MOVE_RETRIES + 3 * CUE_OPERATION_VERIFY_TICKS
    ensures song.toggles >= old(song.toggles)
    ensures CreateEffect(old(song.cues), name, target, o, song.cues, song.toggles - old(song.toggles), song.landing)
    ensures ExactOnGrid(song.snap, old(song.cues), o, song.cues)
    ensures o.LiveUnavailable? ==> NamesSurvive(song, old(song.cues))
    ensures o.LiveUnavailable? ==>
              && song.ticks >= old(song.ticks) + CUE_OPERATION_VERIFY_TICKS
              && (song.toggles == old(song.toggles) ==> NamedInVain(old(song.calls), song.calls, name))
    ensures Asked(old(song.calls), song.calls, song.quantization, song.attentive, Stuck(o))
    ensures song.settling && Orderly(song.snap, old(song.cues)) ==>
              !o.LiveUnavailable? && (o.PlayheadNotMoved? || Orderly(song.snap, song.cues))
    ensures song.settling && Orderly(song.snap, old(song.cues)) && !o.PlayheadNotMoved? ==>
              Expected(song.snap, old(song.cues), old(song.playhead), target, o)
  {
    hide Asked, LandsAt, SettledAt, Apart, Sharp, Flip, Orderly, Abandoned;
    ghost var asked, mode, attentive := song.calls, song.quantization, song.attentive;
    var before := song.cues;
    ghost var cursor;
    var moved;
    moved, cursor := MoveAndToggle(song, target);
    if !moved {
      return PlayheadNotMoved(target);
    }
    ghost var toggled := song.calls;
    var created;
    created, o := WaitForCreatedCue(song, target, before, cursor);
    AskedInTurn(asked, toggled, song.calls, mode, attentive, None, if created.Some? then None else Stuck(o));
    if created.None? {
      if Orderly(song.snap, before) && o.SnappedToGrid? && song.settling {
        SnappedOnGrid(song.snap, before, song.cues, o, cursor);
      }
      return o;
    }
    ghost var unnamed, seen := song.cues, song.calls;
    AddedByFlip(before, unnamed, created.value);
    var named := VerifiedCueName(song, created.value, name);
    AskedOneCall(seen, song.calls, mode, attentive);
    AskedInTurn(asked, seen, song.calls, mode, attentive, None, None);
    if !named {
      assert NamesKept(before, song.cues, created.value);
      OneMoreFlip(before, unnamed, song.cues, created.value, 0);
      return LiveUnavailable;
    }
    if Orderly(song.snap, before) {
      CreatedOnGrid(song.snap, before, song.cues, cursor);
    }
    return Created(created.value);
  }

  // Create a locator named `name` at `target`, or rename the one already there.
  method CreateCueAtCursor(song: Song, name: string, target: real) returns (o: Outcome)
    requires song.Quiet()
    modifies song`cues, song`playhead, song`wanted, song`rename, song`toggle, song`landing, song`toggles, song`ticks,
             song`calls
    ensures song.Valid() && song.toggle.None? && song.wanted.None?
    ensures !o.LiveUnavailable? || song.settling ==> song.Quiet()
    ensures old(song.ticks) <= song.ticks <= old(song.ticks) + 2 * PLAYHEAD_MOVE_RETRIES + 3 * CUE_OPERATION_VERIFY_TICKS
    ensures song.toggles >= old(song.toggles)
    ensures CreateEffect(old(song.cues), name, target, o, song.cues, song.toggles - old(song.toggles), song.landing)
    ensures ExactOnGrid(song.snap, old(song.cues), o, song.cues)
    ensures o.LiveUnavailable? ==> NamesSurvive(song, old(song.cues))
    ensures o.LiveUnavailable? ==>
              && song.ticks >= old(song.ticks) + CUE_OPERATION_VERIFY_TICKS
              && (song.toggles == old(song.toggles) ==> NamedInVain(old(song.calls), song.calls, name))
    ensures Asked(old(song.calls), song.calls, song.quantization, song.attentive, Stuck(o))
    ensures song.settling && Orderly(song.snap, old(song.cues)) ==>
              !o.LiveUnavailable? && (o.PlayheadNotMoved? || Orderly(song.snap, song.cues))
    ensures song.settling && Orderly(song.snap, old(song.cues)) && !o.PlayheadNotMoved? ==>
              Expected(song.snap, old(song.cues), old(song.playhead), target, o)
  {
    hide Asked, Sharp;
    var existing := song.FindCue(target);
    if existing.Some? {
      var named := VerifiedCueName(song, existing.value, name);
      AskedOneCall(old(song.calls), song.calls, song.quantization, song.attentive);
      assert !named ==> song.calls == old(song.calls) + AllNamings(existing.value, name);
      assert NamesKept(old(song.cues), song.cues, existing.value);
      return if named then Renamed(existing.value) else LiveUnavailable;
    }
    o := CreateNewCue(song, name, target);
  }

  // The `finally` of a cue operation: put the cursor and the quantization back.
  method RestoreCursor(song: Song, previousTime: real, previousQuantization: int, body: Outcome) returns (o: Outcome)
    requires song.Valid() && song.toggle.None? && song.wanted.None?
    modifies song`cues, song`playhead, song`wanted, song`rename, song`toggle, song`ticks, song`calls, song`quantization
    ensures song.Valid() && song.toggle.None? && song.wanted.None?
    ensures Near(song.playhead, previousTime) ==> o == body && song.quantization == previousQuantization
    ensures !Near(song.playhead, previousTime) ==>
              o == PlayheadNotMoved(previousTime) && song.quantization == old(song.quantization)
    ensures Asked(old(song.calls), song.calls, NO_QUANTIZATION, song.attentive,
                  if Near(song.playhead, previousTime) then None else Stuck(o))
    ensures old(song.ticks) <= song.ticks <= old(song.ticks) + PLAYHEAD_MOVE_RETRIES
    ensures song.cues.Keys == old(song.cues).Keys
    ensures old(song.rename).None? ==> song.rename.None? && song.cues == old(song.cues)
    ensures OnlyRenamed(song, old(song.cues), old(song.rename))
  {
    var moved := VerifiedCuePosition(song, previousTime);
    if !moved {
      return PlayheadNotMoved(previousTime);
    }
    song.SetQuantization(previousQuantization);
    return body;
  }

  // A parameter as the request carries it, a name without its outer blanks; `None` is a missing or
  // unreadable one.
  datatype CueItem = NotAnObject | Item(name: Option<string>, time: Option<real>)

  predicate ValidItem(item: CueItem) {
    item.Item? && item.name.Some? && item.name.value != "" && item.time.Some? && 0.0 <= item.time.value <= MAX_TIME
  }

  // `body` is the outcome before the cursor was restored; a failed restore hides it.
  method CreateCuePoint(song: Song, params: CueItem) returns (o: Outcome, ghost body: Outcome)
    requires song.Quiet() && params.Item?
    modifies song
    ensures song.Valid() && song.toggle.None? && song.wanted.None?
    ensures !body.LiveUnavailable? || song.settling ==> song.Quiet()
    ensures if ValidItem(params) then
              && song.toggles >= old(song.toggles)
              && CreateEffect(old(song.cues), params.name.value, params.time.value, body,
                              song.cues, song.toggles - old(song.toggles), song.landing)
            else
              o == body == InvalidRequest && song.cues == old(song.cues) && song.toggles == old(song.toggles)
    ensures Near(song.playhead, old(song.playhead)) ==> o == body && song.quantization == old(song.quantization)
    ensures !Near(song.playhead, old(song.playhead)) ==>
              o == PlayheadNotMoved(old(song.playhead)) && song.quantization == NO_QUANTIZATION
    ensures ExactOnGrid(song.snap, old(song.cues), body, song.cues)
    ensures body.LiveUnavailable? ==> NamesSurvive(song, old(song.cues))
    // It gives up only after watching for as long as it may, having toggled or written the name in vain.
    ensures body.LiveUnavailable? ==>
              && song.ticks >= old(song.ticks) + CUE_OPERATION_VERIFY_TICKS
              && (song.toggles == old(song.toggles) ==>
                    NamedInVainFirst(old(song.calls), song.calls, params.name.value))
    ensures Asked(old(song.calls), song.calls, NO_QUANTIZATION, song.attentive, Stuck(body))
    ensures Asked(old(song.calls), song.calls, NO_QUANTIZATION, song.attentive, Stuck(o))
    ensures song.settling && Orderly(song.snap, old(song.cues)) ==> !body.LiveUnavailable?
    ensures song.settling && song.attentive && Orderly(song.snap, old(song.cues)) && ValidItem(params) ==>
              o == body && Expected(song.snap, old(song.cues), old(song.playhead), params.time.value, o)
    ensures old(song.ticks) <= song.ticks <= old(song.ticks) + 3 * PLAYHEAD_MOVE_RETRIES + 3 * CUE_OPERATION_VERIFY_TICKS
  {
    hide Asked, Expected, Orderly, CreateEffect, ExactOnGrid;
    AskedOneCall(song.calls, song.calls, NO_QUANTIZATION, song.attentive);
    NothingSnapped(song.snap, song.cues);
    if params.name.None? || params.name.value == "" || params.time.None?
       || params.time.value < 0.0 || params.time.value > MAX_TIME
    {
      return InvalidRequest, InvalidRequest;
    }
    var previousTime, previousQuantization := song.playhead, song.quantization;
    song.SetQuantization(NO_QUANTIZATION);
    var created := CreateCueAtCursor(song, params.name.value, params.time.value);
    body := created;
    label done:
    o := RestoreCursor(song, previousTime, previousQuantization, created);
    AskedInTurn(old(song.calls), old@done(song.calls), song.calls, NO_QUANTIZATION, song.attentive, Stuck(body),
                if Near(song.playhead, previousTime) then None else Stuck(o));
    CreateRestored(song.snap, old(song.cues), params.name.value, params.time.value, body, old@done(song.cues), song.cues,
                   song.toggles - old(song.toggles), song.landing);
    if body.LiveUnavailable? {
      StillSurvive(song, old(song.cues), old@done(song.cues), old@done(song.rename));
    }
  }

  // A rename that lands late changes no effect, since giving up promises no names.
  lemma CreateRestored(snap: real -> real, before: Locators, name: string, target: real, body: Outcome, mid: Locators,
                       after: Locators, toggles: nat, landed: real)
    requires CreateEffect(before, name, target, body, mid, toggles, landed) && ExactOnGrid(snap, before, body, mid)
    requires after.Keys == mid.Keys && (!body.LiveUnavailable? ==> after == mid)
    ensures CreateEffect(before, name, target, body, after, toggles, landed) && ExactOnGrid(snap, before, body, after)
  {
    if body.LiveUnavailable? {
      KeysDecideAbandoned(before, mid, after, toggles);
    }
  }

  lemma DeleteRestored(snap: real -> real, before: Locators, target: real, cue: real, body: Outcome, mid: Locators,
                       after: Locators, toggles: nat, landed: real)
    requires cue in before && Near(cue, target) && ExactOnGrid(snap, before, body, mid)
    requires if body.Deleted? then body.time == cue && mid == before - {cue} && toggles == 1
             else FailureEffect(before, cue, body, mid, toggles, landed)
    requires after.Keys == mid.Keys && (!body.LiveUnavailable? ==> after == mid)
    ensures DeleteEffect(before, target, body, after, toggles, landed) && ExactOnGrid(snap, before, body, after)
  {
    if body.LiveUnavailable? {
      KeysDecideAbandoned(before, mid, after, toggles);
    }
  }

  // ---------------------------------------------------------------- delete

  // What watching for the deletion of `target` can see.
  lemma DeletionObserved(before: Locators, now: Locators, target: real, pos: real)
    requires Apart(before) && target in before && (LandsAt(before, now, pos) || now == before)
    ensures now == before <==> SnapshotDelta(before, now) == ({}, {})
    ensures now != before ==> LandsAt(before, now, pos) && exists cue :: Flip(before, now, cue)
    ensures NoneNear(now, target) ==> now == before - {target} && SnapshotDelta(before, now) == ({}, {target})
    ensures !NoneNear(now, target) ==> forall cue :: Flip(before, now, cue) ==> !Near(cue, target)
  {
    hide SnapshotDelta;
    DeltaOfNothing(before);
    assert Near(target, target);
    if LandsAt(before, now, pos) {
      var flipped := DeltaOfOneToggle(before, now, pos);
    }
  }

  // On a grid the toggle takes away exactly the locator that the cursor stands at.
  lemma DeletedOnGrid(snap: real -> real, before: Locators, now: Locators, target: real, cursor: real)
    requires Orderly(snap, before) && target in before && Near(cursor, target) && LandsAt(before, now, snap(cursor))
    ensures now == before - {target} && NoneNear(now, target)
  {
    OrderlyToggle(snap, before, cursor);
    assert snap(target) == target && Near(target, target);
  }

  // Watch until the locator at the target is gone, or undo a toggle that went elsewhere.
  method WaitForDeletedCue(song: Song, target: real, before: Locators, ghost cursor: real)
    returns (deleted: bool, o: Outcome)
    requires song.Valid() && song.wanted.None? && song.rename.None? && song.InFlight(before, 0)
    requires Apart(before) && target in before && song.landing == song.snap(cursor)
    modifies song`cues, song`playhead, song`wanted, song`rename, song`toggle, song`landing, song`toggles, song`ticks,
             song`calls
    ensures song.Valid() && song.toggle.None? && song.wanted.None?
    ensures deleted || !o.LiveUnavailable? || song.settling ==> song.Quiet()
    ensures old(song.ticks) <= song.ticks <= old(song.ticks) + PLAYHEAD_MOVE_RETRIES + 3 * CUE_OPERATION_VERIFY_TICKS
    ensures deleted ==> song.toggles == old(song.toggles) && song.cues == before - {target}
    ensures !deleted ==>
              && song.toggles >= old(song.toggles)
              && FailureEffect(before, target, o, song.cues, 1 + song.toggles - old(song.toggles), song.landing)
              && ExactOnGrid(song.snap, before, o, song.cues)
              && (o.LiveUnavailable? ==>
                    NamesSurvive(song, before) && song.ticks >= old(song.ticks) + CUE_OPERATION_VERIFY_TICKS)
    ensures Asked(old(song.calls), song.calls, song.quantization, song.attentive, if deleted then None else Stuck(o))
    ensures song.settling && Orderly(song.snap, before) ==> deleted || !o.LiveUnavailable?
    ensures song.settling && Orderly(song.snap, before) && Near(cursor, target) ==> deleted
  {
    hide SnapshotDelta, Flip, Orderly, Sharp;
    for attempt := 0 to CUE_OPERATION_VERIFY_TICKS
      invariant song.Valid() && song.wanted.None? && song.rename.None? && song.InFlight(before, attempt)
      invariant song.landing == old(song.landing) && song.toggles == old(song.toggles) && song.calls == old(song.calls)
      invariant song.ticks == old(song.ticks) + attempt
      invariant attempt > 0 && song.toggle.None? ==> song.cues == before
    {
      song.Tick();
      var cue := song.FindCue(target);
      var after := song.cues;
      var (added, removed) := SnapshotDelta(before, after);
      DeletionObserved(before, after, target, song.landing);
      if cue.None? {
        var unexpectedRemoved := set t | t in removed && !Near(t, target);
        if added == {} && unexpectedRemoved == {} {
          return true, LiveUnavailable;
        }
        return false, LiveUnavailable;
      }
      if added != {} || removed != {} {
        if Orderly(song.snap, before) && Near(cursor, target) {
          DeletedOnGrid(song.snap, before, after, target, cursor);
        }
        o := FailBySnap(song, target, before, after, cursor);
        return false, o;
      }
    }
    if Orderly(song.snap, before) {
      OrderlyToggle(song.snap, before, cursor);
    }
    assert NamesKept(before, song.cues, target);
    return false, LiveUnavailable;
  }

  lemma NothingDeleted(before: Locators, target: real, landed: real)
    requires NoneNear(before, target)
    ensures DeleteEffect(before, target, NoCueAtTime, before, 0, landed)
  {
  }

  method DeleteCuePoint(song: Song, target: real) returns (o: Outcome, ghost body: Outcome)
    requires song.Quiet()
    modifies song
    ensures song.Valid() && song.toggle.None? && song.wanted.None?
    ensures !body.LiveUnavailable? || song.settling ==> song.Quiet()
    ensures if 0.0 <= target <= MAX_TIME then
              && song.toggles >= old(song.toggles)
              && DeleteEffect(old(song.cues), target, body, song.cues, song.toggles - old(song.toggles), song.landing)
            else
              o == body == InvalidRequest && song.cues == old(song.cues) && song.toggles == old(song.toggles)
    ensures Near(song.playhead, old(song.playhead)) ==> o == body && song.quantization == old(song.quantization)
    ensures !Near(song.playhead, old(song.playhead)) ==>
              o == PlayheadNotMoved(old(song.playhead)) && song.quantization == NO_QUANTIZATION
    ensures ExactOnGrid(song.snap, old(song.cues), body, song.cues)
    ensures body.LiveUnavailable? ==> NamesSurvive(song, old(song.cues))
    ensures body.LiveUnavailable? ==>
              song.ticks >= old(song.ticks) + CUE_OPERATION_VERIFY_TICKS && song.toggles > old(song.toggles)
    ensures Asked(old(song.calls), song.calls, NO_QUANTIZATION, song.attentive, Stuck(body))
    ensures Asked(old(song.calls), song.calls, NO_QUANTIZATION, song.attentive, Stuck(o))
    ensures song.settling && Orderly(song.snap, old(song.cues)) ==> !body.LiveUnavailable?
    ensures song.settling && song.attentive && Orderly(song.snap, old(song.cues)) && 0.0 <= target <= MAX_TIME ==>
              o == body && (o.Deleted? || (NoneNear(old(song.cues), target) && o == NoCueAtTime))
    ensures old(song.ticks) <= song.ticks <= old(song.ticks) + 3 * PLAYHEAD_MOVE_RETRIES + 3 * CUE_OPERATION_VERIFY_TICKS
  {
    hide Asked, Orderly, DeleteEffect, FailureEffect, ExactOnGrid;
    AskedOneCall(song.calls, song.calls, NO_QUANTIZATION, song.attentive);
    NothingSnapped(song.snap, song.cues);
    if target < 0.0 || target > MAX_TIME {
      return InvalidRequest, InvalidRequest;
    }
    var cue := song.FindCue(target);
    if cue.None? {
      NothingDeleted(song.cues, target, song.landing);
      return NoCueAtTime, NoCueAtTime;
    }
    var cueTime, before := cue.value, song.cues;
    var previousTime, previousQuantization := song.playhead, song.quantization;
    song.SetQuantization(NO_QUANTIZATION);
    var result := DeleteCueAtCursor(song, cueTime, before);
    body := result;
    label done:
    o := RestoreCursor(song, previousTime, previousQuantization, result);
    AskedInTurn(old(song.calls), old@done(song.calls), song.calls, NO_QUANTIZATION, song.attentive, Stuck(body),
                if Near(song.playhead, previousTime) then None else Stuck(o));
    DeleteRestored(song.snap, old(song.cues), target, cueTime, body, old@done(song.cues), song.cues,
                   song.toggles - old(song.toggles), song.landing);
    if body.LiveUnavailable? {
      StillSurvive(song, old(song.cues), old@done(song.cues), old@done(song.rename));
    }
  }

  // The `try` body of `DeleteCuePoint`.
  method DeleteCueAtCursor(song: Song, cueTime: real, before: Locators) returns (o: Outcome)
    requires song.Quiet() && song.cues == before && cueTime in before
    modifies song`cues, song`playhead, song`wanted, song`rename, song`toggle, song`landing, song`toggles, song`ticks,
             song`calls
    ensures song.Valid() && song.toggle.None? && song.wanted.None?
    ensures !o.LiveUnavailable? || song.settling ==> song.Quiet()
    ensures old(song.ticks) <= song.ticks <= old(song.ticks) + 2 * PLAYHEAD_MOVE_RETRIES + 3 * CUE_OPERATION_VERIFY_TICKS
    ensures song.toggles >= old(song.toggles)
    ensures if o.Deleted? then
              o.time == cueTime && song.cues == before - {cueTime} && song.toggles == old(song.toggles) + 1
            else
              FailureEffect(before, cueTime, o, song.cues, song.toggles - old(song.toggles), song.landing)
    ensures ExactOnGrid(song.snap, before, o, song.cues)
    ensures Asked(old(song.calls), song.calls, song.quantization, song.attentive, Stuck(o))
    ensures o.LiveUnavailable? ==> NamesSurvive(song, before)
    ensures o.LiveUnavailable? ==>
              song.ticks >= old(song.ticks) + CUE_OPERATION_VERIFY_TICKS && song.toggles > old(song.toggles)
    ensures song.settling && Orderly(song.snap, before) ==> o.Deleted? || o.PlayheadNotMoved?
  {
    hide Asked;
    ghost var asked, cursor := song.calls, 0.0;
    var moved;
    moved, cursor := MoveAndToggle(song, cueTime);
    if !moved {
      return PlayheadNotMoved(cueTime);
    }
    ghost var toggled := song.calls;
    var deleted;
    deleted, o := WaitForDeletedCue(song, cueTime, before, cursor);
    AskedInTurn(asked, toggled, song.calls, song.quantization, song.attentive, None, if deleted then None else Stuck(o));
    return if deleted then Deleted(cueTime) else o;
  }

  // ---------------------------------------------------------------- bulk creation

  // One item's part in the final map: a success writes its locator, anything else writes nothing.
  function ApplyItem(before: Locators, item: CueItem, result: Outcome): (after: Locators) {
    if ValidItem(item) && (result.Created? || result.Renamed?) then before[result.time := item.name.value] else before
  }

  // The map the successful items make, taken in order.
  function ApplySuccesses(before: Locators, items: seq<CueItem>, results: seq<Outcome>): (after: Locators)
    requires |items| == |results|
  {
    if items == [] then before
    else
      var n := |items| - 1;
      ApplyItem(ApplySuccesses(before, items[..n], results[..n]), items[n], results[n])
  }

  // The item succeeded, or failed without a trace: rejected, stuck on the way to its place, or
  // snapped at a place on the grid.
  predicate Contained(snap: real -> real, item: CueItem, result: Outcome) {
    match result
    case Renamed(_) => true
    case Created(_) => true
    case SnappedToGrid(_, actual) => snap(actual) == actual
    case PlayheadNotMoved(requested) => ValidItem(item) && requested == item.time.value
    case InvalidRequest => true
    case _ => false
  }

  // If the cursor got stuck, then before anything was toggled and not while a toggle was reversed.
  predicate StuckOnTheWay(item: CueItem, result: Outcome) {
    result.PlayheadNotMoved? ==> ValidItem(item) && result.requested == item.time.value
  }

  ghost predicate AllContained(snap: real -> real, items: seq<CueItem>, results: seq<Outcome>)
    requires |items| == |results|
  {
    forall k :: 0 <= k < |items| ==> Contained(snap, items[k], results[k])
  }

  lemma ApplyOneMore(before: Locators, items: seq<CueItem>, results: seq<Outcome>, item: CueItem, result: Outcome)
    requires |items| == |results|
    ensures ApplySuccesses(before, items + [item], results + [result])
         == ApplyItem(ApplySuccesses(before, items, results), item, result)
  {
    assert (items + [item])[..|items|] == items && (results + [result])[..|results|] == results;
  }

  // A valid item gives what its place on the grid decides, wherever the cursor was.
  ghost predicate AsExpected(snap: real -> real, before: Locators, item: CueItem, result: Outcome) {
    if ValidItem(item) then exists playhead :: Expected(snap, before, playhead, item.time.value, result)
    else result == InvalidRequest
  }

  // Each item gives what its place decides, after those before it were applied.
  ghost predicate AllAsExpected(snap: real -> real, before: Locators, items: seq<CueItem>, results: seq<Outcome>)
    requires |results| <= |items|
  {
    forall k :: 0 <= k < |results| ==>
      AsExpected(snap, ApplySuccesses(before, items[..k], results[..k]), items[k], results[k])
  }

  ghost predicate AllAsked(before: seq<Call>, calls: seq<Call>, attentive: bool, results: seq<Outcome>) {
    && Asked(before, calls, NO_QUANTIZATION, attentive, None)
    && forall k :: 0 <= k < |results| ==> Asked(before, calls, NO_QUANTIZATION, attentive, Stuck(results[k]))
  }

  lemma AskOneMore(
    before: seq<Call>, mid: seq<Call>, after: seq<Call>, attentive: bool, results: seq<Outcome>, result: Outcome)
    requires AllAsked(before, mid, attentive, results) && Asked(mid, after, NO_QUANTIZATION, attentive, Stuck(result))
    ensures AllAsked(before, after, attentive, results + [result])
    ensures attentive ==> !result.PlayheadNotMoved?
  {
    AskedInTurn(before, mid, after, NO_QUANTIZATION, attentive, None, Stuck(result));
    forall k | 0 <= k < |results| ensures Asked(before, after, NO_QUANTIZATION, attentive, Stuck(results[k])) {
      AskedInTurn(before, mid, after, NO_QUANTIZATION, attentive, Stuck(results[k]), Stuck(result));
    }
  }

  lemma ExpectOneMore(snap: real -> real, before: Locators, items: seq<CueItem>, results: seq<Outcome>, result: Outcome)
    requires |results| < |items| && AllAsExpected(snap, before, items, results)
    requires AsExpected(snap, ApplySuccesses(before, items[..|results|], results), items[|results|], result)
    ensures AllAsExpected(snap, before, items, results + [result])
  {
    hide AsExpected, ApplySuccesses;
    var more := results + [result];
    forall k | 0 <= k < |more|
      ensures AsExpected(snap, ApplySuccesses(before, items[..k], more[..k]), items[k], more[k])
    {
      assert more[..k] == results[..k];
      assert k == |results| ==> results[..k] == results;
    }
  }

  // One item of a bulk request.
  method BulkItem(song: Song, item: CueItem) returns (result: Outcome)
    requires song.Quiet() && song.settling
    modifies song`cues, song`playhead, song`wanted, song`rename, song`toggle, song`landing, song`toggles, song`ticks,
             song`calls
    ensures song.Quiet()
    ensures result == InvalidRequest <==> !ValidItem(item)
    ensures Sharp(song.snap) && Contained(song.snap, item, result) ==>
              song.cues == ApplyItem(old(song.cues), item, result)
    ensures Sharp(song.snap) && !Contained(song.snap, item, result) && !result.LiveUnavailable? ==>
              song.cues != ApplyItem(old(song.cues), item, result)
    ensures result.PlayheadNotMoved? ==> (song.cues == old(song.cues) <==> StuckOnTheWay(item, result))
    ensures Orderly(song.snap, old(song.cues)) ==>
              && (Contained(song.snap, item, result) <==> StuckOnTheWay(item, result))
              && (Contained(song.snap, item, result) ==> Orderly(song.snap, song.cues))
    ensures Asked(old(song.calls), song.calls, song.quantization, song.attentive, Stuck(result))
    ensures Orderly(song.snap, old(song.cues)) && !result.PlayheadNotMoved? ==>
              AsExpected(song.snap, old(song.cues), item, result)
    ensures old(song.ticks) <= song.ticks <= old(song.ticks) + 50
  {
    if item.NotAnObject? || item.name.None? || item.name.value == "" || item.time.None?
       || item.time.value < 0.0 || item.time.value > MAX_TIME
    {
      AskedOneCall(song.calls, song.calls, song.quantization, song.attentive);
      return InvalidRequest;
    }
    result := CreateCueAtCursor(song, item.name.value, item.time.value);
  }

  method BulkCreateCuePoints(song: Song, items: seq<CueItem>) returns (results: seq<Outcome>, o: Option<Outcome>)
    requires song.Quiet() && song.settling
    modifies song
    ensures song.Quiet()
    ensures items == [] <==> o == Some(InvalidRequest)
    ensures o.None? <==> items != [] && Near(song.playhead, old(song.playhead))
    ensures |results| == |items|
    ensures forall k :: 0 <= k < |items| ==> (results[k] == InvalidRequest <==> !ValidItem(items[k]))
    ensures o.None? ==> song.quantization == old(song.quantization)
    ensures AllAsked(old(song.calls), song.calls, song.attentive, results + if o.Some? then [o.value] else [])
    ensures song.attentive && items != [] ==> o.None?
    ensures song.attentive && Orderly(song.snap, old(song.cues)) && items != [] ==>
              && AllContained(song.snap, items, results)
              && AllAsExpected(song.snap, old(song.cues), items, results)
    ensures Sharp(song.snap) && AllContained(song.snap, items, results) ==>
              song.cues == ApplySuccesses(old(song.cues), items, results)
    ensures Orderly(song.snap, old(song.cues)) ==>
              (AllContained(song.snap, items, results) <==>
               forall k :: 0 <= k < |items| ==> StuckOnTheWay(items[k], results[k]))
    ensures old(song.ticks) <= song.ticks <= old(song.ticks) + |items| * 50 + PLAYHEAD_MOVE_RETRIES
  {
    hide Orderly, Sharp, Contained, StuckOnTheWay, AllContained, ApplySuccesses, AllAsExpected, AsExpected, Asked, AllAsked;
    results := [];
    NoItems(song.snap, song.cues);
    NothingAsked(song.calls, song.attentive);
    if items == [] {
      return results, Some(InvalidRequest);
    }
    var previousTime, previousQuantization := song.playhead, song.quantization;
    song.SetQuantization(NO_QUANTIZATION);
    for index := 0 to |items|
      invariant song.Quiet() && |results| == index
      invariant forall k :: 0 <= k < index ==> (results[k] == InvalidRequest <==> !ValidItem(items[k]))
      invariant Sharp(song.snap) && AllContained(song.snap, items[..index], results) ==>
                  song.cues == ApplySuccesses(old(song.cues), items[..index], results)
      invariant Orderly(song.snap, old(song.cues)) ==>
                  (AllContained(song.snap, items[..index], results) <==>
                   forall k :: 0 <= k < index ==> StuckOnTheWay(items[k], results[k]))
      invariant Orderly(song.snap, old(song.cues)) && AllContained(song.snap, items[..index], results) ==>
                  Orderly(song.snap, song.cues)
      invariant AllAsked(old(song.calls), song.calls, song.attentive, results)
      invariant song.attentive && Orderly(song.snap, old(song.cues)) ==>
                  && AllContained(song.snap, items[..index], results)
                  && AllAsExpected(song.snap, old(song.cues), items, results)
      invariant song.quantization == NO_QUANTIZATION
      invariant old(song.ticks) <= song.ticks <= old(song.ticks) + index * 50
    {
      label next:
      ghost var asked := song.calls;
      var result := BulkItem(song, items[index]);
      AskOneMore(old(song.calls), asked, song.calls, song.attentive, results, result);
      if Sharp(song.snap) {
        ExtendBulk(song.snap, old(song.cues), old@next(song.cues), song.cues, items, results, index, result);
      }
      ContainOneMore(song.snap, items, results, index, result);
      if song.attentive && Orderly(song.snap, old(song.cues)) {
        OrderlyIsSharp(song.snap, old(song.cues));
        NeverStuck(items[index], result);
        ExpectOneMore(song.snap, old(song.cues), items, results, result);
      }
      results := results + [result];
    }
    assert items[..|items|] == items;
    ghost var asked := song.calls;
    var done := RestoreCursor(song, previousTime, previousQuantization, NoCueAtTime);
    AskOneMore(old(song.calls), asked, song.calls, song.attentive, results, done);
    OneFewer(old(song.calls), song.calls, song.attentive, results, done);
    return results, if done == NoCueAtTime then None else Some(done);
  }

  lemma NothingAsked(calls: seq<Call>, attentive: bool)
    ensures AllAsked(calls, calls, attentive, []) && AllAsked(calls, calls, attentive, [] + [InvalidRequest])
  {}

  lemma OneFewer(before: seq<Call>, calls: seq<Call>, attentive: bool, results: seq<Outcome>, result: Outcome)
    requires AllAsked(before, calls, attentive, results + [result])
    ensures AllAsked(before, calls, attentive, results) && results + [] == results
  {
    assert forall k :: 0 <= k < |results| ==> (results + [result])[k] == results[k];
  }

  lemma NeverStuck(item: CueItem, result: Outcome)
    requires !result.PlayheadNotMoved?
    ensures StuckOnTheWay(item, result)
  {}

  lemma OrderlyIsSharp(snap: real -> real, cues: Locators)
    requires Orderly(snap, cues)
    ensures Sharp(snap)
  {}

  lemma NoItems(snap: real -> real, before: Locators)
    ensures AllContained(snap, [], []) && ApplySuccesses(before, [], []) == before
    ensures forall items :: AllAsExpected(snap, before, items, [])
  {}

  lemma ContainOneMore(snap: real -> real, items: seq<CueItem>, results: seq<Outcome>, index: nat, result: Outcome)
    requires index == |results| < |items|
    ensures AllContained(snap, items[..index + 1], results + [result])
       <==> AllContained(snap, items[..index], results) && Contained(snap, items[index], result)
    ensures (forall k :: 0 <= k <= index ==> StuckOnTheWay(items[k], (results + [result])[k]))
       <==> (forall k :: 0 <= k < index ==> StuckOnTheWay(items[k], results[k])) && StuckOnTheWay(items[index], result)
  {
    hide Contained, StuckOnTheWay;
    var some, more := items[..index + 1], results + [result];
    assert forall k :: 0 <= k < index ==> some[k] == items[..index][k] && more[k] == results[k];
    assert some[index] == items[index] && more[index] == result;
  }

  lemma ExtendBulk(snap: real -> real, before: Locators, mid: Locators, after: Locators,
                   items: seq<CueItem>, results: seq<Outcome>, index: nat, result: Outcome)
    requires index == |results| < |items|
    requires AllContained(snap, items[..index], results) ==> mid == ApplySuccesses(before, items[..index], results)
    requires Contained(snap, items[index], result) ==> after == ApplyItem(mid, items[index], result)
    ensures AllContained(snap, items[..index + 1], results + [result]) ==>
              after == ApplySuccesses(before, items[..index + 1], results + [result])
  {
    var some, more := items[..index + 1], results + [result];
    assert some == items[..index] + [items[index]];
    if AllContained(snap, some, more) {
      forall k | 0 <= k < index ensures Contained(snap, items[..index][k], results[k]) {
        assert Contained(snap, some[k], more[k]);
      }
      assert Contained(snap, some[index], more[index]);
      ApplyOneMore(before, items[..index], results, items[index], result);
    }
  }

  // ---------------------------------------------------------------- grids

  // Snapping to the nearest multiple of `size`, halves upwards.
  function NearestLine(size: real, x: real): (line: real)
    requires size > 0.0
  {
    ((x + size / 2.0) / size).Floor as real * size
  }

  lemma NearestLineOfNearby(size: real, k: int, y: real)
    requires size >= 4.0 * CUE_TIME_TOLERANCE && Gap(y, k as real * size) < 2.0 * CUE_TIME_TOLERANCE
    ensures NearestLine(size, y) == k as real * size
  {
    FloorOfQuotient(y + size / 2.0, size, k);
  }

  lemma FloorOfQuotient(n: real, size: real, k: int)
    requires size > 0.0 && k as real * size <= n < k as real * size + size
    ensures (n / size).Floor == k
  {
    var q, low := n / size, k as real;
    assert q * size == n && (low + 1.0) * size == low * size + size;
    if q < low { Scale(q, low, size); }
    if low + 1.0 <= q { Scale(low + 1.0, q, size); }
  }

  lemma Scale(a: real, b: real, size: real)
    requires size > 0.0 && a <= b
    ensures a * size <= b * size && (a < b ==> a * size < b * size)
  {
  }

  // Such a grid is sharp as soon as its lines are four tolerances apart.
  lemma NearestLineIsSharp(size: real)
    requires size >= 4.0 * CUE_TIME_TOLERANCE
    ensures Sharp(x => NearestLine(size, x))
  {
    forall x, y | Gap(y, NearestLine(size, x)) < 2.0 * CUE_TIME_TOLERANCE
      ensures NearestLine(size, y) == NearestLine(size, x)
    {
      NearestLineOfNearby(size, ((x + size / 2.0) / size).Floor, y);
    }
  }

  // Off the grid the reversal is not exact: a locator at 0.005, taken away by a toggle that snapped
  // to 0.0, comes back at 0.0.
  lemma OffGridLocatorMoves()
    ensures var snap: real -> real := x => NearestLine(32.0, x);
            var before, after: Locators := map[0.005 := "Verse"], map[0.0 := "Verse"];
            Sharp(snap) && snap(0.005) == 0.0 && Undone(before, after, 0.005, 0.0) && after != before
  {
    NearestLineIsSharp(32.0);
    NearestLineOfNearby(32.0, 0, 0.005);
    var before, after: Locators := map[0.005 := "Verse"], map[0.0 := "Verse"];
    assert 0.005 in before && 0.005 !in after;
    assert (before - {0.005})[0.0 := before[0.005]] == after;
  }

  // The other way to leave a trace: a toggle at 1.0 added a locator at 0.0, and the cursor, stuck at 1.0,
  // never reached it to take it away.
  lemma StuckReversalLeavesLocator()
    ensures var item, result := Item(Some("Verse"), Some(1.0)), PlayheadNotMoved(0.0);
            var before, after: Locators := map[], map[0.0 := ""];
            && NearestLine(32.0, 1.0) == 0.0
            && CreateEffect(before, "Verse", 1.0, result, after, 1, 0.0) && !StuckOnTheWay(item, result)
            && after != ApplyItem(before, item, result)
  {
    var before, after: Locators := map[], map[0.0 := ""];
    FloorOfQuotient(17.0, 32.0, 0);
    assert before[0.0 := ""] == after && 0.0 in after;
    assert Flip(before, after, 0.0);
  }
}
