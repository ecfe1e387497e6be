/**
 Group tracks: the walk up the groups of a track, and the check that placing a track, or the contents of
 a group, inside a group keeps the groups a forest.
 */
module Groups {
  import opened Wrappers

  // For each track the index of the group it is in, as far as that is one of the tracks.
  type Parents = seq<Option<nat>>

  predicate Valid(parents: Parents) {
    forall i :: 0 <= i < |parents| && parents[i].Some? ==> parents[i].value < |parents|
  }

  // k steps up from a track.
  function Up(parents: Parents, i: nat, k: nat): (j: Option<nat>)
    requires Valid(parents) && i < |parents|
    ensures j.Some? ==> j.value < |parents|
  {
    if k == 0 then Some(i)
    else
      var j := Up(parents, i, k - 1);
      if j.Some? then parents[j.value] else None
  }

  // The groups that a track is in, directly or not.
  ghost predicate Inside(parents: Parents, i: nat, g: nat)
    requires Valid(parents) && i < |parents|
  {
    exists k: nat :: k >= 1 && Up(parents, i, k) == Some(g)
  }

  ghost predicate Acyclic(parents: Parents)
    requires Valid(parents)
  {
    forall i: nat :: i < |parents| ==> !Inside(parents, i, i)
  }

  lemma {:induction false} UpInTurn(parents: Parents, i: nat, j: nat, k: nat)
    requires Valid(parents) && i < |parents| && Up(parents, i, j).Some?
    ensures Up(parents, i, j + k) == Up(parents, Up(parents, i, j).value, k)
  {
    if k > 0 {
      UpInTurn(parents, i, j, k - 1);
    }
  }

  // ---------------------------------------------------------------- the walk

  ghost predicate Distinct(chain: seq<nat>) {
    forall i, j :: 0 <= i < j < |chain| ==> chain[i] != chain[j]
  }

  lemma {:induction false} AtMost(chain: seq<nat>, n: nat)
    requires Distinct(chain) && forall g <- chain :: g < n
    ensures |chain| <= n
  {
    assert |chain| > 0 ==> chain[0] in chain;
    if n > 0 {
      if i :| 0 <= i < |chain| && chain[i] == n - 1 {
        var rest := chain[..i] + chain[i + 1..];
        forall j | 0 <= j < |rest| ensures rest[j] < n - 1 {
          var at := if j < i then j else j + 1;
          assert rest[j] == chain[at] && chain[at] in chain;
        }
        AtMost(rest, n - 1);
      } else {
        AtMost(chain, n - 1);
      }
    }
  }

  // The chain lists the successive groups of a track until there is none or one comes again.
  ghost predicate Climbs(parents: Parents, track: nat, chain: seq<nat>)
    requires Valid(parents) && track < |parents|
  {
    && Distinct(chain)
    && forall k :: 0 <= k < |chain| ==> Up(parents, track, k + 1) == Some(chain[k])
  }

  method GroupAncestors(parents: Parents, track: nat) returns (chain: seq<nat>)
    requires Valid(parents) && track < |parents|
    ensures Climbs(parents, track, chain)
    ensures var next := Up(parents, track, |chain| + 1); next.None? || next.value in chain
  {
    chain := [];
    var current := track;
    var ended := false;
    for depth := 0 to |parents| + 1
      invariant current < |parents| && Up(parents, track, |chain|) == Some(current)
      invariant Climbs(parents, track, chain)
      invariant |chain| == depth && !ended
    {
      var parent := parents[current];
      if parent.None? || parent.value in chain {
        ended := true;
        break;
      }
      chain := chain + [parent.value];
      current := parent.value;
    }
    assert forall g <- chain :: g < |parents|;
    AtMost(chain, |parents|);
    assert ended;
  }

  // The walk finds exactly the groups the track is in, even where the groups form a cycle.
  lemma {:induction false} ChainIsInside(parents: Parents, track: nat, chain: seq<nat>, g: nat)
    requires Valid(parents) && track < |parents| && Climbs(parents, track, chain)
    requires var next := Up(parents, track, |chain| + 1); next.None? || next.value in chain
    ensures g in chain <==> Inside(parents, track, g)
  {
    if g in chain {
      var k :| 0 <= k < |chain| && chain[k] == g;
      assert Up(parents, track, k + 1) == Some(g);
    }
    if Inside(parents, track, g) {
      var k: nat :| k >= 1 && Up(parents, track, k) == Some(g);
      AllInChain(parents, track, chain, k);
    }
  }

  lemma {:induction false} AllInChain(parents: Parents, track: nat, chain: seq<nat>, k: nat)
    requires Valid(parents) && track < |parents| && Climbs(parents, track, chain)
    requires var next := Up(parents, track, |chain| + 1); next.None? || next.value in chain
    requires k >= 1 && Up(parents, track, k).Some?
    ensures Up(parents, track, k).value in chain
  {
    if k <= |chain| {
      assert chain[k - 1] in chain;
    } else if k > |chain| + 1 {
      AllInChain(parents, track, chain, k - 1);
      var i :| 0 <= i < |chain| && chain[i] == Up(parents, track, k - 1).value;
      assert Up(parents, track, i + 2) == Up(parents, track, k);
      if i + 1 < |chain| {
        assert Up(parents, track, i + 1 + 1) == Some(chain[i + 1]);
      }
    }
  }

  // ---------------------------------------------------------------- the check

  method RejectGroupCycle(parents: Parents, track: nat, group: nat) returns (rejected: bool)
    requires Valid(parents) && track < |parents| && group < |parents|
    ensures rejected <==> track == group || Inside(parents, group, track)
  {
    if track == group {
      return true;
    }
    var chain := GroupAncestors(parents, group);
    ChainIsInside(parents, group, chain, track);
    return track in chain;
  }

  // Put every track of a set into a group.
  function Placed(parents: Parents, tracks: set<nat>, group: nat): (placed: Parents)
    requires Valid(parents) && group < |parents|
    ensures |placed| == |parents| && Valid(placed)
    ensures forall i :: 0 <= i < |placed| ==> placed[i] == if i in tracks then Some(group) else parents[i]
  {
    seq(|parents|, i requires 0 <= i < |parents| => if i in tracks then Some(group) else parents[i])
  }

  ghost predicate Meets(parents: Parents, i: nat, tracks: set<nat>, k: nat)
    requires Valid(parents) && i < |parents|
  {
    Up(parents, i, k).Some? && Up(parents, i, k).value in tracks
  }

  // Above a track nothing changes below the first track that was placed.
  lemma {:induction false} SameUntilMet(parents: Parents, tracks: set<nat>, group: nat, i: nat, k: nat)
    requires Valid(parents) && group < |parents| && i < |parents|
    requires forall j: nat :: j < k ==> !Meets(parents, i, tracks, j)
    ensures Up(Placed(parents, tracks, group), i, k) == Up(parents, i, k)
  {
    if k > 0 {
      SameUntilMet(parents, tracks, group, i, k - 1);
      assert !Meets(parents, i, tracks, k - 1);
    }
  }

  lemma {:induction false} FirstMet(parents: Parents, i: nat, tracks: set<nat>, k: nat) returns (first: nat)
    requires Valid(parents) && i < |parents| && Meets(parents, i, tracks, k)
    ensures first <= k && Meets(parents, i, tracks, first)
    ensures forall j: nat :: j < first ==> !Meets(parents, i, tracks, j)
    decreases k
  {
    if j: nat :| j < k && Meets(parents, i, tracks, j) {
      first := FirstMet(parents, i, tracks, j);
    } else {
      first := k;
    }
  }

  // Placing tracks in a group keeps a forest a forest exactly when neither the group nor any group it is
  // in is one of them.
  lemma {:induction false} PlacingKeepsForest(parents: Parents, tracks: set<nat>, group: nat)
    requires Valid(parents) && group < |parents| && Acyclic(parents)
    ensures Acyclic(Placed(parents, tracks, group)) <==> forall k: nat :: !Meets(parents, group, tracks, k)
  {
    var placed := Placed(parents, tracks, group);
    if k: nat :| Meets(parents, group, tracks, k) {
      var first := FirstMet(parents, group, tracks, k);
      SameUntilMet(parents, tracks, group, group, first);
      assert Up(placed, group, first + 1) == Some(group);
      assert Inside(placed, group, group);
    } else if !Acyclic(placed) {
      var i: nat :| i < |parents| && Inside(placed, i, i);
      var k: nat :| k >= 1 && Up(placed, i, k) == Some(i);
      NoNewCycle(parents, tracks, group, i, k);
    }
  }

  lemma {:induction false} NoNewCycle(parents: Parents, tracks: set<nat>, group: nat, i: nat, k: nat)
    requires Valid(parents) && group < |parents| && i < |parents| && Acyclic(parents)
    requires forall j: nat :: !Meets(parents, group, tracks, j)
    ensures k >= 1 ==> Up(Placed(parents, tracks, group), i, k) != Some(i)
  {
    var placed := Placed(parents, tracks, group);
    if k >= 1 {
      if j: nat :| j < k && Meets(parents, i, tracks, j) {
        var first := FirstMet(parents, i, tracks, j);
        SameUntilMet(parents, tracks, group, i, first);
        assert Up(placed, i, first + 1) == Some(group);
        UpInTurn(placed, i, first + 1, k - first - 1);
        SameUntilMet(parents, tracks, group, group, k - 1);
        assert !Meets(parents, group, tracks, k - 1);
        if Up(placed, i, k) == Some(i) {
          UpInTurn(placed, group, k - first - 1, first);
        }
      } else {
        SameUntilMet(parents, tracks, group, i, k);
        assert !Inside(parents, i, i);
      }
    }
  }

  // The check lets a track into a group exactly when the groups stay a forest.
  lemma {:induction false} MoveKeepsForestIffAllowed(parents: Parents, track: nat, group: nat)
    requires Valid(parents) && track < |parents| && group < |parents| && Acyclic(parents)
    ensures Acyclic(Placed(parents, {track}, group)) <==> !(track == group || Inside(parents, group, track))
  {
    PlacingKeepsForest(parents, {track}, group);
    if track == group || Inside(parents, group, track) {
      assert Up(parents, group, 0) == Some(group);
      var k: nat :| Up(parents, group, k) == Some(track);
      assert Meets(parents, group, {track}, k);
    } else {
      forall k: nat ensures !Meets(parents, group, {track}, k) {
        assert k >= 1 ==> Up(parents, group, k) != Some(track);
      }
    }
  }

  function Members(parents: Parents, group: nat): set<nat> {
    set i | 0 <= i < |parents| && parents[i] == Some(group)
  }

  // The same check, between two groups, lets the tracks of one move into the other exactly when the
  // groups stay a forest.
  lemma {:induction false} MergeKeepsForestIffAllowed(parents: Parents, source: nat, destination: nat)
    requires Valid(parents) && source < |parents| && destination < |parents| && Acyclic(parents)
    requires source != destination
    ensures Acyclic(Placed(parents, Members(parents, source), destination)) <==>
            !(source == destination || Inside(parents, destination, source))
  {
    var members := Members(parents, source);
    PlacingKeepsForest(parents, members, destination);
    forall k: nat ensures Meets(parents, destination, members, k) <==> Up(parents, destination, k + 1) == Some(source) {
    }
    if Inside(parents, destination, source) {
      var k: nat :| k >= 1 && Up(parents, destination, k) == Some(source);
      assert Meets(parents, destination, members, k - 1);
    }
  }
}
