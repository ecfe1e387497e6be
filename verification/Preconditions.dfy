/** Which batches are let in: what they may ask of clip slots, and whether the Live set meets it. */
module Preconditions {
  import opened Wrappers

  datatype Code =
    | InvalidParams | BadInput | ReadOnlyViolation | UnknownCommand | LiveUnavailable | InternalError
    | PreconditionInvalid | PreconditionFailed | Other(name: string)

  // One item of the request's list, as JSON carries it.  `Malformed` is everything that is not an
  // object with exactly the fields of a v1 `slot_empty` precondition and integer indices.
  datatype RawItem = Malformed | SlotEmpty(track: int, clip: int)

  datatype RawList = Absent | NotAList | Items(items: seq<RawItem>)

  // The Session grid: whether each existing clip slot holds a clip.
  type Slots = map<(int, int), bool>

  const MAX_PRECONDITIONS := 16

  // ---------------------------------------------------------------- what admission means

  ghost predicate WellFormed(item: RawItem) {
    item.SlotEmpty? && item.track >= 0 && item.clip >= 0
  }

  // The request names at most 16 slots, all of them properly and none of them twice.
  ghost predicate Acceptable(raw: RawList) {
    match raw
    case Absent => true
    case NotAList => false
    case Items(items) =>
      && |items| <= MAX_PRECONDITIONS
      && (forall i :: 0 <= i < |items| ==> WellFormed(items[i]))
      && (forall i, j :: 0 <= i < j < |items| ==> items[i] != items[j])
  }

  predicate Exists(slots: Slots, item: RawItem)
    requires item.SlotEmpty?
  {
    (item.track, item.clip) in slots
  }

  predicate Empty(slots: Slots, item: RawItem)
    requires item.SlotEmpty?
  {
    Exists(slots, item) && !slots[(item.track, item.clip)]
  }

  function Named(raw: RawList): (items: seq<RawItem>) {
    if raw.Items? then raw.items else []
  }

  // The verdict on a whole request: nothing, or the category of its first problem.
  ghost predicate Verdict(raw: RawList, slots: Slots, error: Option<Code>) {
    if !Acceptable(raw) then error == Some(PreconditionInvalid)
    else if forall i :: 0 <= i < |Named(raw)| ==> Empty(slots, Named(raw)[i]) then error == None
    else exists i :: 0 <= i < |Named(raw)| && !Empty(slots, Named(raw)[i])
           && (forall j :: 0 <= j < i ==> Empty(slots, Named(raw)[j]))
           && error == Some(if Exists(slots, Named(raw)[i]) then PreconditionFailed else PreconditionInvalid)
  }

  function FirstFailure(slots: Slots, items: seq<RawItem>): (failure: Option<Code>)
    requires forall i :: 0 <= i < |items| ==> items[i].SlotEmpty?
  {
    if items == [] then None
    else if Empty(slots, items[0]) then FirstFailure(slots, items[1..])
    else Some(if Exists(slots, items[0]) then PreconditionFailed else PreconditionInvalid)
  }

  // The verdict as a function, for the specification of a whole request.
  ghost function Admission(raw: RawList, slots: Slots): (error: Option<Code>) {
    if Acceptable(raw) then FirstFailure(slots, Named(raw)) else Some(PreconditionInvalid)
  }

  lemma {:induction false} FirstFailureIsFirst(slots: Slots, items: seq<RawItem>)
    requires forall i :: 0 <= i < |items| ==> items[i].SlotEmpty?
    ensures FirstFailure(slots, items).None? <==> forall i :: 0 <= i < |items| ==> Empty(slots, items[i])
    ensures forall i | 0 <= i < |items| && !Empty(slots, items[i]) && forall j :: 0 <= j < i ==> Empty(slots, items[j]) ::
              FirstFailure(slots, items) == Some(if Exists(slots, items[i]) then PreconditionFailed else PreconditionInvalid)
  {
    if items != [] && Empty(slots, items[0]) {
      FirstFailureIsFirst(slots, items[1..]);
      assert forall i :: 0 < i < |items| ==> items[i] == items[1..][i - 1];
      forall i | 0 <= i < |items| && !Empty(slots, items[i]) && (forall j :: 0 <= j < i ==> Empty(slots, items[j]))
        ensures FirstFailure(slots, items) ==
                Some(if Exists(slots, items[i]) then PreconditionFailed else PreconditionInvalid)
      {
        assert !Empty(slots, items[1..][i - 1]);
        assert forall j :: 0 <= j < i - 1 ==> items[1..][j] == items[j + 1];
      }
    }
  }

  lemma AdmissionIsVerdict(raw: RawList, slots: Slots, error: Option<Code>)
    ensures Verdict(raw, slots, error) <==> error == Admission(raw, slots)
  {
    if Acceptable(raw) {
      FirstFailureIsFirst(slots, Named(raw));
      if !forall i :: 0 <= i < |Named(raw)| ==> Empty(slots, Named(raw)[i]) {
        var i := FirstOccupied(slots, Named(raw));
      }
    }
  }

  lemma FirstOccupied(slots: Slots, items: seq<RawItem>) returns (i: nat)
    requires forall k :: 0 <= k < |items| ==> items[k].SlotEmpty?
    requires exists k :: 0 <= k < |items| && !Empty(slots, items[k])
    ensures i < |items| && !Empty(slots, items[i]) && forall j :: 0 <= j < i ==> Empty(slots, items[j])
  {
    i := 0;
    while Empty(slots, items[i])
      invariant 0 <= i < |items|
      invariant forall j :: 0 <= j < i ==> Empty(slots, items[j])
      invariant exists k :: i <= k < |items| && !Empty(slots, items[k])
      decreases |items| - i
    {
      i := i + 1;
    }
  }

  // ---------------------------------------------------------------- the bridge's loops

  method Validate(raw: RawList) returns (normalized: seq<RawItem>, error: Option<Code>)
    ensures error.None? <==> Acceptable(raw)
    ensures error.Some? ==> error.value == PreconditionInvalid
    ensures error.None? ==> normalized == Named(raw)
  {
    normalized, error := [], None;
    if raw.Absent? {
      return;
    }
    if raw.NotAList? || |raw.items| > MAX_PRECONDITIONS {
      return [], Some(PreconditionInvalid);
    }
    var seen: set<(int, int)> := {};
    for k := 0 to |raw.items|
      invariant seen == set i | 0 <= i < k && WellFormed(raw.items[i]) :: (raw.items[i].track, raw.items[i].clip)
      invariant error.Some? ==> error.value == PreconditionInvalid
      invariant error.None? <==>
                  && (forall i :: 0 <= i < k ==> WellFormed(raw.items[i]))
                  && (forall i, j :: 0 <= i < j < k ==> raw.items[i] != raw.items[j])
      invariant error.None? ==> normalized == raw.items[..k]
    {
      var item := raw.items[k];
      if !item.SlotEmpty? || item.track < 0 || item.clip < 0 {
        error := if error.Some? then error else Some(PreconditionInvalid);
      } else if (item.track, item.clip) in seen {
        ghost var i :| 0 <= i < k && WellFormed(raw.items[i])
          && (raw.items[i].track, raw.items[i].clip) == (item.track, item.clip);
        assert raw.items[i] == item;
        error := if error.Some? then error else Some(PreconditionInvalid);
      } else {
        seen := seen + {(item.track, item.clip)};
        normalized := normalized + [item];
      }
    }
  }

  method Evaluate(slots: Slots, preconditions: seq<RawItem>) returns (failure: Option<Code>)
    requires forall i :: 0 <= i < |preconditions| ==> preconditions[i].SlotEmpty?
    ensures failure.None? <==> forall i :: 0 <= i < |preconditions| ==> Empty(slots, preconditions[i])
    ensures failure.Some? ==>
              exists i :: 0 <= i < |preconditions| && !Empty(slots, preconditions[i])
                && (forall j :: 0 <= j < i ==> Empty(slots, preconditions[j]))
                && failure == Some(if Exists(slots, preconditions[i]) then PreconditionFailed else PreconditionInvalid)
  {
    failure := None;
    for k := 0 to |preconditions|
      invariant failure.None? <==> forall i :: 0 <= i < k ==> Empty(slots, preconditions[i])
      invariant failure.Some? ==>
                  exists i :: 0 <= i < k && !Empty(slots, preconditions[i])
                    && (forall j :: 0 <= j < i ==> Empty(slots, preconditions[j]))
                    && failure == Some(if Exists(slots, preconditions[i]) then PreconditionFailed else PreconditionInvalid)
    {
      var item := preconditions[k];
      if !Exists(slots, item) {
        failure := if failure.Some? then failure else Some(PreconditionInvalid);
      } else if slots[(item.track, item.clip)] {
        failure := if failure.Some? then failure else Some(PreconditionFailed);
      }
    }
  }

  method AdmitBatch(slots: Slots, raw: RawList) returns (error: Option<Code>)
    ensures Verdict(raw, slots, error)
  {
    var preconditions, invalid := Validate(raw);
    if invalid.Some? {
      return invalid;
    }
    error := Evaluate(slots, preconditions);
  }
}
