/**
 The part of Live that cue operations touch, as a host that applies writes late.

 A playhead write lands or is lost at the next tick; a host that is `attentive` lands one of any
 PLAYHEAD_MOVE_RETRIES in a row.  A cue toggle takes effect at once or
 within CUE_OPERATION_VERIFY_TICKS ticks, at the place Live snaps the playhead to, and flips
 exactly one locator; a host that is not `settling` may ignore it.  Live never holds two
 locators closer than twice the time tolerance, so a toggle that would do that is ignored.
 */
module LiveHost {
  import opened Wrappers

  const CUE_TIME_TOLERANCE: real := 0.01
  const CUE_OPERATION_VERIFY_TICKS: nat := 10
  const PLAYHEAD_MOVE_RETRIES: nat := 10
  const NO_QUANTIZATION: int := 0

  // Locator times and names, as `song.cue_points` lists them.
  type Locators = map<real, string>

  function Gap(a: real, b: real): (g: real) {
    if a < b then b - a else a - b
  }

  predicate Near(a: real, b: real) {
    Gap(a, b) < CUE_TIME_TOLERANCE
  }

  ghost predicate NoneNear(cues: Locators, pos: real) {
    forall t :: t in cues ==> !Near(t, pos)
  }

  ghost predicate Apart(cues: Locators) {
    forall a, b :: a in cues && b in cues && a != b ==> Gap(a, b) >= 2.0 * CUE_TIME_TOLERANCE
  }

  // A new locator at `pos` would stand closer to another one than Live allows.
  ghost predicate Crowded(cues: Locators, pos: real) {
    exists t :: t in cues && CUE_TIME_TOLERANCE <= Gap(t, pos) < 2.0 * CUE_TIME_TOLERANCE
  }

  // One toggle at `pos`: the locator there disappears, or a new one appears there.
  ghost predicate LandsAt(before: Locators, after: Locators, pos: real) {
    if NoneNear(before, pos) then
      !Crowded(before, pos) && pos in after && after == before[pos := after[pos]]
    else
      exists t :: t in before && Near(t, pos) && after == before - {t}
  }

  // What a toggle at `pos` has done once it is no longer in flight; Live may have ignored it.
  ghost predicate SettledAt(before: Locators, after: Locators, pos: real, settling: bool) {
    || LandsAt(before, after, pos)
    || (after == before && (settling ==> NoneNear(before, pos) && Crowded(before, pos)))
  }

  // A rename that Live has accepted but does not show yet.
  datatype Rename = Rename(time: real, name: string, left: nat)

  // What the bridge asked of Live: a playhead write, and whether it landed; a locator's name; a toggle, and
  // the quantization it was issued with.
  datatype Call = Moved(target: real, landed: bool) | Named(cue: real, name: string) | Toggled(quantization: int)

  // How many playhead writes in a row were lost at the end.
  function LostAtEnd(calls: seq<Call>): (n: nat) {
    if calls == [] then 0
    else
      var front, last := calls[..|calls| - 1], calls[|calls| - 1];
      if !last.Moved? then LostAtEnd(front) else if last.landed then 0 else LostAtEnd(front) + 1
  }

  class Song {
    const snap: real -> real
    const settling: bool
    const attentive: bool
    var cues: Locators
    var playhead: real
    var quantization: int
    var wanted: Option<real>
    var toggle: Option<nat>
    var rename: Option<Rename>
    var calls: seq<Call>
    ghost var landing: real
    ghost var toggles: nat
    ghost var ticks: nat

    ghost predicate Valid()
      reads this
    {
      && Apart(cues)
      && (attentive ==> LostAtEnd(calls) < PLAYHEAD_MOVE_RETRIES)
      && (toggle.Some? ==>
            && wanted.None? && rename.None? && landing == snap(playhead)
            && 1 <= toggle.value <= CUE_OPERATION_VERIFY_TICKS)
      && (rename.Some? ==>
            && 1 <= rename.value.left <= CUE_OPERATION_VERIFY_TICKS
            && rename.value.time in cues && cues[rename.value.time] != rename.value.name)
    }

    // Nothing is in flight.
    ghost predicate Quiet()
      reads this
    {
      Valid() && wanted.None? && toggle.None? && rename.None?
    }

    // A toggle was issued over `before`, `spent` ticks ago.
    ghost predicate InFlight(before: Locators, spent: nat)
      reads this
    {
      if toggle.Some? then cues == before && toggle.value + spent <= CUE_OPERATION_VERIFY_TICKS
      else SettledAt(before, cues, landing, settling)
    }

    constructor (
      snap: real -> real, settling: bool, attentive: bool, cues: Locators, playhead: real, quantization: int)
      requires Apart(cues)
      ensures Quiet() && calls == []
      ensures this.snap == snap && this.settling == settling && this.attentive == attentive && this.cues == cues
      ensures this.playhead == playhead && this.quantization == quantization
    {
      this.snap, this.settling, this.cues, this.playhead := snap, settling, cues, playhead;
      this.quantization, wanted, toggle, rename := quantization, None, None, None;
      this.attentive, calls, toggles, ticks, landing := attentive, [], 0, 0, 0.0;
    }

    method FindCue(target: real) returns (cue: Option<real>)
      ensures cue.Some? ==> cue.value in cues && Near(cue.value, target)
      ensures cue.None? ==> NoneNear(cues, target)
    {
      if exists t | t in cues :: Near(t, target) {
        var t :| t in cues && Near(t, target);
        return Some(t);
      }
      return None;
    }

    method MovePlayhead(target: real)
      requires Valid() && toggle.None?
      modifies this`wanted
      ensures Valid() && wanted == Some(target)
    {
      wanted := Some(target);
    }

    method SetQuantization(value: int)
      requires Valid()
      modifies this`quantization
      ensures Valid() && quantization == value
    {
      quantization := value;
    }

    // Live's only cue operation: flip the locator at the (snapped) playhead.
    method SetOrDeleteCue()
      requires Quiet()
      modifies this`cues, this`playhead, this`toggle, this`landing, this`toggles, this`calls
      ensures Valid() && wanted.None? && rename.None?
      ensures calls == old(calls) + [Toggled(quantization)]
      ensures toggles == old(toggles) + 1 && landing == snap(old(playhead))
      ensures InFlight(old(cues), 0)
    {
      toggles, landing, calls := toggles + 1, snap(playhead), calls + [Toggled(quantization)];
      var ignored: bool := *;
      if ignored && !settling {
        return;
      }
      var delay: nat := *;
      if 1 <= delay <= CUE_OPERATION_VERIFY_TICKS {
        toggle := Some(delay);
      } else {
        ApplyToggle(snap(playhead));
      }
    }

    method ApplyToggle(pos: real)
      requires Valid() && wanted.None? && rename.None? && pos == landing
      modifies this`cues, this`playhead, this`toggle
      ensures Valid() && toggle.None? && SettledAt(old(cues), cues, landing, settling)
    {
      toggle := None;
      var follow: bool := *;
      if follow {
        playhead := pos;
      }
      if t :| t in cues && Near(t, pos) {
        cues := cues - {t};
      } else if !exists t | t in cues :: CUE_TIME_TOLERANCE <= Gap(t, pos) < 2.0 * CUE_TIME_TOLERANCE {
        var name: string := *;
        cues := cues[pos := name];
        forall a, b | a in cues && b in cues && a != b
          ensures Gap(a, b) >= 2.0 * CUE_TIME_TOLERANCE
        {
          if a == pos { assert !Near(b, pos); }
          if b == pos { assert !Near(a, pos); }
        }
      }
    }

    method SetName(cue: real, name: string)
      requires Valid() && toggle.None? && cue in cues
      requires rename.None? || (rename.value.time == cue && rename.value.name == name)
      modifies this`cues, this`rename, this`calls
      ensures Valid() && calls == old(calls) + [Named(cue, name)]
      ensures cues == old(cues) || (cues == old(cues)[cue := name] && rename.None?)
      ensures rename.None? || (rename.value.time == cue && rename.value.name == name)
      ensures old(rename).Some? && cues == old(cues) ==> rename == old(rename)
      ensures settling && cues[cue] != name ==> rename.Some?
    {
      var ignored: bool := *;
      var delay: nat := *;
      calls := calls + [Named(cue, name)];
      if cues[cue] == name || (ignored && !settling) {
        return;
      }
      if 1 <= delay <= CUE_OPERATION_VERIFY_TICKS {
        if rename.None? {
          rename := Some(Rename(cue, name, delay));
        }
      } else {
        cues, rename := cues[cue := name], None;
      }
    }

    // What a rename in flight may have done to the names.
    ghost predicate RenameLanded(before: Locators, pending: Option<Rename>)
      reads this
    {
      match pending
      case None => cues == before && rename.None?
      case Some(r) =>
        if rename.Some? then cues == before && rename.value.time == r.time && rename.value.name == r.name
                             && rename.value.left < r.left
        else cues == before[r.time := r.name]
    }

    // One pass of Live's UI thread: what each `yield` gives up the thread for.
    method Tick()
      requires Valid()
      modifies this`cues, this`playhead, this`wanted, this`toggle, this`rename, this`ticks, this`calls
      ensures Valid() && wanted.None? && ticks == old(ticks) + 1
      ensures if old(wanted).None? then calls == old(calls)
              else exists landed :: calls == old(calls) + [Moved(old(wanted).value, landed)]
      ensures old(toggle).None? ==>
                && toggle.None?
                && match old(wanted)
                   case None => playhead == old(playhead)
                   case Some(target) => playhead == if calls[|calls| - 1].landed then target else old(playhead)
      ensures old(toggle).None? ==> RenameLanded(old(cues), old(rename))
      ensures old(toggle).Some? ==>
                && rename.None?
                && if toggle.Some? then cues == old(cues) && toggle.value == old(toggle).value - 1
                   else SettledAt(old(cues), cues, landing, settling)
    {
      ticks := ticks + 1;
      if wanted.Some? {
        var landed: bool := *;
        landed := landed || (attentive && LostAtEnd(calls) == PLAYHEAD_MOVE_RETRIES - 1);
        calls := calls + [Moved(wanted.value, landed)];
        if landed {
          playhead := wanted.value;
        }
        wanted := None;
      }
      if rename.Some? {
        var r := rename.value;
        if r.left == 1 {
          cues, rename := cues[r.time := r.name], None;
        } else {
          rename := Some(r.(left := r.left - 1));
        }
      }
      if toggle.Some? {
        if toggle.value == 1 {
          ApplyToggle(snap(playhead));
        } else {
          toggle := Some(toggle.value - 1);
        }
      }
    }
  }
}
