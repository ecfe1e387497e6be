/**
 The browser search: a depth-first walk on an explicit stack, cut off by a result limit and a budget of
 visits, over a tree in which items may repeat or contain one another.
 */
module Browser {
  import opened Wrappers

  const BUDGET: nat := 5000
  const MAX_CHILDREN: nat := 500

  // A browser item. The host hands out a fresh proxy at every access, so a handle carries no identity
  // the search could rely on.
  type Item = nat

  // What Live answers when asked about an item; a failing access has already become its default.
  datatype World = World(
    root: string -> Option<Item>,
    rootName: string -> string,
    uri: Item -> string,
    name: Item -> string,
    loadable: Item -> bool,
    children: Item -> seq<Item>)

  datatype Query = Query(matches: string -> bool, limit: nat, maxDepth: nat)

  datatype Key = UriKey(uri: string) | PathKey(category: string, ordinals: seq<nat>)

  datatype Entry = Entry(category: string, item: Item, path: seq<string>, ordinals: seq<nat>) {
    function Depth(): nat { |ordinals| }
  }

  datatype Match = Match(name: string, uri: string, category: string, path: seq<string>, loadable: bool)

  ghost function ItemKey(w: World, e: Entry): Key {
    if w.uri(e.item) != "" then UriKey(w.uri(e.item)) else PathKey(e.category, e.ordinals)
  }

  ghost function Child(w: World, e: Entry, i: nat): Entry
    requires i < |w.children(e.item)|
  {
    var child := w.children(e.item)[i];
    Entry(e.category, child, e.path + [w.name(child)], e.ordinals + [i])
  }

  // How many children of an item the search looks at.
  ghost function Fanout(w: World, e: Entry): nat {
    if |w.children(e.item)| < MAX_CHILDREN then |w.children(e.item)| else MAX_CHILDREN
  }

  ghost function Children(w: World, e: Entry): (cs: seq<Entry>)
    ensures |cs| == Fanout(w, e)
    ensures forall i :: 0 <= i < |cs| ==> cs[i] == Child(w, e, i)
  {
    seq(Fanout(w, e), i requires 0 <= i < Fanout(w, e) => Child(w, e, i))
  }

  ghost function RootEntry(w: World, category: string): Entry
    requires w.root(category).Some?
  {
    Entry(category, w.root(category).value, [w.rootName(category)], [])
  }

  // The categories that exist, as the entries their walks start from.
  ghost function Roots(w: World, categories: seq<string>): (es: seq<Entry>)
    ensures forall e <- es :: e.Depth() == 0
  {
    if categories == [] then []
    else
      (if w.root(categories[0]).Some? then [RootEntry(w, categories[0])] else []) + Roots(w, categories[1..])
  }

  ghost function Keys(w: World, log: seq<Entry>): set<Key> {
    set e <- log :: ItemKey(w, e)
  }

  ghost predicate IsMatch(w: World, q: Query, e: Entry) {
    e.Depth() > 0 && q.matches(w.name(e.item))
  }

  ghost function MatchOf(w: World, e: Entry): Match {
    Match(w.name(e.item), w.uri(e.item), e.category, e.path, w.loadable(e.item))
  }

  // The results that a sequence of visits produces.
  ghost function Matches(w: World, q: Query, log: seq<Entry>): seq<Match> {
    if log == [] then []
    else
      var front := Matches(w, q, log[..|log| - 1]);
      var last := log[|log| - 1];
      if IsMatch(w, q, last) then front + [MatchOf(w, last)] else front
  }

  // ---------------------------------------------------------------- the recursive walk

  // Visiting in preorder with no limit: the log of first visits grows by the entry and then by what
  // its children add, an item whose key was visited before adding nothing.
  ghost function Preorder(w: World, q: Query, e: Entry, log: seq<Entry>): (after: seq<Entry>)
    requires e.Depth() <= q.maxDepth
    ensures log <= after
    decreases q.maxDepth - e.Depth(), 0, 0
  {
    if ItemKey(w, e) in Keys(w, log) then log
    else if e.Depth() == q.maxDepth then log + [e]
    else Each(w, q, Children(w, e), e.Depth() + 1, log + [e])
  }

  ghost function Each(w: World, q: Query, es: seq<Entry>, depth: nat, log: seq<Entry>): (after: seq<Entry>)
    requires depth <= q.maxDepth && forall e <- es :: e.Depth() == depth
    ensures log <= after
    decreases q.maxDepth - depth, 1, |es|
  {
    if es == [] then log else Each(w, q, es[1..], depth, Preorder(w, q, es[0], log))
  }

  ghost predicate Full(w: World, q: Query, log: seq<Entry>) {
    |Matches(w, q, log)| >= q.limit || |log| >= BUDGET
  }

  // The part of a log up to the first moment, not before `from`, when the search is full.
  ghost function Cut(w: World, q: Query, log: seq<Entry>, from: nat): (part: seq<Entry>)
    requires from <= |log|
    ensures part <= log
    decreases |log| - from
  {
    if from == |log| || Full(w, q, log[..from]) then log[..from] else Cut(w, q, log, from + 1)
  }

  // What a search reports: the preorder of the selected categories, cut off.
  ghost function Found(w: World, q: Query, categories: seq<string>): seq<Entry> {
    Cut(w, q, Each(w, q, Roots(w, categories), 0, []), 0)
  }

  // ---------------------------------------------------------------- the stack

  ghost function Drain(w: World, q: Query, stack: seq<Entry>, log: seq<Entry>): (after: seq<Entry>)
    requires forall e <- stack :: e.Depth() <= q.maxDepth
    ensures log <= after
  {
    if stack == [] then log
    else Drain(w, q, stack[..|stack| - 1], Preorder(w, q, stack[|stack| - 1], log))
  }

  ghost function Reversed(es: seq<Entry>): (r: seq<Entry>)
    ensures |r| == |es| && forall e :: e in r <==> e in es
  {
    if es == [] then [] else Reversed(es[1..]) + [es[0]]
  }

  // Pushing children in reverse makes the stack visit them in order.
  lemma {:induction false} PushedInReverse(
    w: World, q: Query, stack: seq<Entry>, es: seq<Entry>, depth: nat, log: seq<Entry>)
    requires depth <= q.maxDepth && forall e <- es :: e.Depth() == depth
    requires forall e <- stack :: e.Depth() <= q.maxDepth
    ensures forall e <- stack + Reversed(es) :: e.Depth() <= q.maxDepth
    ensures Drain(w, q, stack + Reversed(es), log) == Drain(w, q, stack, Each(w, q, es, depth, log))
    decreases |es|
  {
    hide Preorder;
    if es == [] {
      assert stack + Reversed(es) == stack;
    } else {
      var whole := stack + Reversed(es);
      assert whole[..|whole| - 1] == stack + Reversed(es[1..]);
      assert whole[|whole| - 1] == es[0];
      PushedInReverse(w, q, stack, es[1..], depth, Preorder(w, q, es[0], log));
    }
  }

  // The stack and the log that visiting the top of the stack leaves.
  ghost function NextStack(w: World, q: Query, stack: seq<Entry>, top: Entry, log: seq<Entry>): seq<Entry> {
    if ItemKey(w, top) in Keys(w, log) || top.Depth() == q.maxDepth then stack
    else stack + Reversed(Children(w, top))
  }

  ghost function NextLog(w: World, top: Entry, log: seq<Entry>): seq<Entry> {
    if ItemKey(w, top) in Keys(w, log) then log else log + [top]
  }

  // One turn of the loop leaves what remains to be logged, and where the cut falls, as it was.
  lemma {:induction false} Unstack(
    w: World, q: Query, stack: seq<Entry>, top: Entry, log: seq<Entry>, whole: seq<Entry>)
    requires top.Depth() <= q.maxDepth && forall e <- stack :: e.Depth() <= q.maxDepth
    requires Drain(w, q, stack + [top], log) == whole && !Full(w, q, log)
    ensures forall e <- NextStack(w, q, stack, top, log) :: e.Depth() <= q.maxDepth
    ensures Drain(w, q, NextStack(w, q, stack, top, log), NextLog(w, top, log)) == whole
    ensures Cut(w, q, whole, |log|) == Cut(w, q, whole, |NextLog(w, top, log)|)
  {
    DrainTop(w, q, stack, top, log);
    hide Preorder, Each, Full;
    CutPassesOver(w, q, whole, log, NextLog(w, top, log));
  }

  lemma DrainTop(w: World, q: Query, stack: seq<Entry>, top: Entry, log: seq<Entry>)
    requires top.Depth() <= q.maxDepth && forall e <- stack :: e.Depth() <= q.maxDepth
    ensures forall e <- NextStack(w, q, stack, top, log) :: e.Depth() <= q.maxDepth
    ensures Drain(w, q, stack + [top], log) == Drain(w, q, NextStack(w, q, stack, top, log), NextLog(w, top, log))
  {
    hide ItemKey, Each;
    assert (stack + [top])[..|stack|] == stack;
    if ItemKey(w, top) !in Keys(w, log) && top.Depth() < q.maxDepth {
      PushedInReverse(w, q, stack, Children(w, top), top.Depth() + 1, log + [top]);
    }
  }

  lemma CutPassesOver(w: World, q: Query, whole: seq<Entry>, log: seq<Entry>, next: seq<Entry>)
    requires log <= next <= whole && |next| <= |log| + 1 && !Full(w, q, log)
    ensures Cut(w, q, whole, |log|) == Cut(w, q, whole, |next|)
  {
    hide Full;
    assert whole[..|log|] == log;
  }

  // ---------------------------------------------------------------- the search itself

  ghost predicate Distinct(w: World, log: seq<Entry>) {
    forall i, j :: 0 <= i < j < |log| ==> ItemKey(w, log[i]) != ItemKey(w, log[j])
  }

  lemma {:induction false} OneKeyPerVisit(w: World, log: seq<Entry>)
    requires Distinct(w, log)
    ensures |Keys(w, log)| == |log|
  {
    if log != [] {
      var front, last := log[..|log| - 1], log[|log| - 1];
      OneKeyPerVisit(w, front);
      assert log == front + [last];
      assert Keys(w, log) == Keys(w, front) + {ItemKey(w, last)};
      assert ItemKey(w, last) !in Keys(w, front);
    }
  }

  lemma OneMoreVisit(w: World, q: Query, log: seq<Entry>, e: Entry)
    ensures Matches(w, q, log + [e]) == Matches(w, q, log) + if IsMatch(w, q, e) then [MatchOf(w, e)] else []
    ensures Keys(w, log + [e]) == Keys(w, log) + {ItemKey(w, e)}
    ensures Distinct(w, log) && ItemKey(w, e) !in Keys(w, log) ==> Distinct(w, log + [e])
  {
    hide ItemKey, IsMatch, MatchOf;
    assert (log + [e])[..|log|] == log;
    assert forall f :: f in log + [e] <==> f in log || f == e;
  }

  class Search {
    const w: World
    const q: Query
    var results: seq<Match>
    var visited: set<Key>
    ghost var log: seq<Entry>

    ghost predicate Valid()
      reads this
    {
      results == Matches(w, q, log) && visited == Keys(w, log) && Distinct(w, log)
    }

    constructor (w: World, q: Query)
      ensures Valid() && this.w == w && this.q == q && log == []
    {
      this.w, this.q := w, q;
      results, visited, log := [], {}, [];
    }

    method Descend(e: Entry) returns (entries: seq<Entry>)
      ensures entries == Reversed(Children(w, e))
    {
      entries := [];
      var items := w.children(e.item);
      var n := if |items| < MAX_CHILDREN then |items| else MAX_CHILDREN;
      var i: nat := n;
      ghost var children := Children(w, e);
      while i > 0
        invariant i <= n
        invariant entries == Reversed(children[i..])
      {
        i := i - 1;
        entries := entries + [Entry(e.category, items[i], e.path + [w.name(items[i])], e.ordinals + [i])];
        assert children[i..][1..] == children[i + 1..];
      }
      assert children[0..] == children;
    }

    method Visit(e: Entry) returns (children: Option<seq<Entry>>)
      requires Valid() && e.Depth() <= q.maxDepth
      modifies this
      ensures Valid()
      ensures log == if ItemKey(w, e) in old(visited) then old(log) else old(log) + [e]
      ensures children ==
              if ItemKey(w, e) in old(visited) || e.Depth() == q.maxDepth then None
              else Some(Reversed(Children(w, e)))
    {
      hide Keys, Matches, Distinct, Reversed, Children;
      OneMoreVisit(w, q, log, e);
      var key := if w.uri(e.item) != "" then UriKey(w.uri(e.item)) else PathKey(e.category, e.ordinals);
      if key in visited {
        return None;
      }
      visited := visited + {key};
      if e.Depth() > 0 && q.matches(w.name(e.item)) {
        results := results + [Match(w.name(e.item), w.uri(e.item), e.category, e.path, w.loadable(e.item))];
      }
      log := log + [e];
      if e.Depth() >= q.maxDepth {
        return None;
      }
      var entries := Descend(e);
      return Some(entries);
    }

    method TraverseCategory(root: Entry)
      requires Valid() && root.Depth() <= q.maxDepth
      modifies this
      ensures Valid()
      ensures log == Cut(w, q, Preorder(w, q, root, old(log)), |old(log)|)
    {
      var stack := [root];
      ghost var whole := Preorder(w, q, root, log);
      while stack != [] && |results| < q.limit && |visited| < BUDGET
        invariant Valid()
        invariant forall e <- stack :: e.Depth() <= q.maxDepth
        invariant Drain(w, q, stack, log) == whole
        invariant Cut(w, q, whole, |log|) == Cut(w, q, whole, |old(log)|)
        decreases BUDGET - |visited|, |stack|
      {
        OneKeyPerVisit(w, log);
        var top := stack[|stack| - 1];
        stack := stack[..|stack| - 1];
        Unstack(w, q, stack, top, log, whole);
        var children := Visit(top);
        OneKeyPerVisit(w, log);
        if children.Some? {
          stack := stack + children.value;
        }
      }
      OneKeyPerVisit(w, log);
      assert whole[..|log|] == log;
    }

    // Every selected category in turn, until the search is full.
    method Run(categories: seq<string>)
      requires Valid() && log == []
      modifies this
      ensures Valid() && log == Found(w, q, categories)
      ensures results == Matches(w, q, Found(w, q, categories))
    {
      hide Cut, Each, Roots, Preorder, Keys, Distinct, Matches;
      ghost var whole := Remaining(w, q, categories, 0, []);
      assert categories[0..] == categories;
      var i := 0;
      while i < |categories|
        invariant Valid() && i <= |categories|
        invariant Remaining(w, q, categories, i, log) == whole
        invariant Cut(w, q, whole, |log|) == Cut(w, q, whole, 0)
      {
        var category := categories[i];
        if w.root(category).Some? {
          var root := Entry(category, w.root(category).value, [w.rootName(category)], []);
          ghost var before := log;
          TraverseCategory(root);
          CategoryDone(w, q, categories, i, before, log);
          OneKeyPerVisit(w, log);
          if |results| >= q.limit || |visited| >= BUDGET {
            return;
          }
        } else {
          CategorySkipped(w, q, categories, i, log);
        }
        i := i + 1;
      }
      AllDone(w, q, categories, log);
    }
  }

  // What is logged when the categories from `i` on have been walked too.
  ghost function Remaining(w: World, q: Query, categories: seq<string>, i: nat, log: seq<Entry>): (whole: seq<Entry>)
    requires i <= |categories|
    ensures log <= whole
  {
    Each(w, q, Roots(w, categories[i..]), 0, log)
  }

  lemma CategoryUnfolds(w: World, q: Query, categories: seq<string>, i: nat, log: seq<Entry>)
    requires i < |categories| && w.root(categories[i]).Some?
    ensures Remaining(w, q, categories, i, log)
         == Remaining(w, q, categories, i + 1, Preorder(w, q, RootEntry(w, categories[i]), log))
  {
    hide Preorder;
    var rest, root := categories[i..], RootEntry(w, categories[i]);
    assert rest[1..] == categories[i + 1..];
    assert Roots(w, rest)[0] == root && Roots(w, rest)[1..] == Roots(w, rest[1..]);
  }

  lemma CategorySkipped(w: World, q: Query, categories: seq<string>, i: nat, log: seq<Entry>)
    requires i < |categories| && w.root(categories[i]).None?
    ensures Remaining(w, q, categories, i, log) == Remaining(w, q, categories, i + 1, log)
  {
    hide Each;
    var rest := categories[i..];
    assert rest[1..] == categories[i + 1..];
    assert Roots(w, rest) == Roots(w, rest[1..]);
  }

  // A category walked up to its cut: the search is full there, or the walk goes on with the next one.
  lemma CategoryDone(w: World, q: Query, categories: seq<string>, i: nat, before: seq<Entry>, log: seq<Entry>)
    requires i < |categories| && w.root(categories[i]).Some?
    requires log == Cut(w, q, Preorder(w, q, RootEntry(w, categories[i]), before), |before|)
    ensures var whole := Remaining(w, q, categories, i, before);
            && log <= whole && Cut(w, q, whole, |before|) == Cut(w, q, whole, |log|)
            && if Full(w, q, log) then log == Cut(w, q, whole, |log|) else Remaining(w, q, categories, i + 1, log) == whole
  {
    hide Preorder, Remaining, Full, Cut, Roots, Each;
    CategoryUnfolds(w, q, categories, i, before);
    PartDone(w, q, Preorder(w, q, RootEntry(w, categories[i]), before), Remaining(w, q, categories, i, before), |before|);
  }

  lemma PartDone(w: World, q: Query, part: seq<Entry>, whole: seq<Entry>, from: nat)
    requires from <= |part| && part <= whole
    ensures var log := Cut(w, q, part, from);
            && log <= whole && Cut(w, q, whole, from) == Cut(w, q, whole, |log|)
            && if Full(w, q, log) then log == Cut(w, q, whole, |log|) else log == part
  {
    hide Full, Cut;
    CutAgain(w, q, part, whole, from);
    var log := Cut(w, q, part, from);
    assert whole[..|log|] == log;
    CutWhereFull(w, q, whole, |log|);
  }

  lemma CutWhereFull(w: World, q: Query, whole: seq<Entry>, from: nat)
    requires from <= |whole|
    ensures Full(w, q, whole[..from]) ==> Cut(w, q, whole, from) == whole[..from]
  {
    hide Full;
  }

  lemma AllDone(w: World, q: Query, categories: seq<string>, log: seq<Entry>)
    ensures var whole := Remaining(w, q, categories, |categories|, log);
            whole == log && Cut(w, q, whole, |log|) == log
  {
    assert categories[|categories|..] == [];
    assert log[..|log|] == log;
  }

  // Cutting a prefix first changes nothing, and an uncut prefix is passed over.
  lemma {:induction false} CutAgain(w: World, q: Query, part: seq<Entry>, whole: seq<Entry>, from: nat)
    requires from <= |part| && part <= whole
    ensures var cut := Cut(w, q, part, from);
            && Cut(w, q, whole, from) == Cut(w, q, whole, |cut|)
            && (Full(w, q, cut) || cut == part)
    decreases |part| - from
  {
    assert part[..from] == whole[..from];
    if from < |part| && !Full(w, q, part[..from]) {
      CutAgain(w, q, part, whole, from + 1);
    }
  }

  // ---------------------------------------------------------------- what a walk visits

  ghost predicate Stands(w: World, e: Entry, ordinals: seq<nat>)
    decreases |ordinals|
  {
    ordinals == [] || (ordinals[0] < Fanout(w, e) && Stands(w, Child(w, e, ordinals[0]), ordinals[1..]))
  }

  ghost function Place(w: World, e: Entry, ordinals: seq<nat>): (f: Entry)
    requires Stands(w, e, ordinals)
    ensures f.ordinals == e.ordinals + ordinals
    decreases |ordinals|
  {
    if ordinals == [] then e else Place(w, Child(w, e, ordinals[0]), ordinals[1..])
  }

  // f is what the ordinals it carries lead to from e.
  ghost predicate Under(w: World, e: Entry, f: Entry) {
    && e.ordinals <= f.ordinals
    && Stands(w, e, f.ordinals[|e.ordinals|..])
    && Place(w, e, f.ordinals[|e.ordinals|..]) == f
  }

  ghost predicate UnderOne(w: World, es: seq<Entry>, f: Entry) {
    exists i :: 0 <= i < |es| && Under(w, es[i], f)
  }

  // Nothing but items within the depth, no key twice, and no visited item left with an unvisited child.
  ghost predicate Walked(w: World, q: Query, es: seq<Entry>, log: seq<Entry>, after: seq<Entry>) {
    && log <= after
    && (forall k :: |log| <= k < |after| ==> UnderOne(w, es, after[k]) && after[k].Depth() <= q.maxDepth)
    && (forall k, i :: |log| <= k < |after| && after[k].Depth() < q.maxDepth && 0 <= i < Fanout(w, after[k]) ==>
          ItemKey(w, Child(w, after[k], i)) in Keys(w, after))
    && (forall e <- es :: ItemKey(w, e) in Keys(w, after))
    && (Distinct(w, log) ==> Distinct(w, after))
  }

  lemma UnderChild(w: World, e: Entry, i: nat, f: Entry)
    requires i < Fanout(w, e) && Under(w, Child(w, e, i), f)
    ensures Under(w, e, f)
  {
    var ordinals := f.ordinals[|e.ordinals|..];
    assert ordinals[0] == i && ordinals[1..] == f.ordinals[|e.ordinals| + 1..];
  }

  // A walk of the children after a first visit is a walk of the parent.
  lemma {:induction false} ParentWalked(w: World, q: Query, e: Entry, log: seq<Entry>, after: seq<Entry>)
    requires e.Depth() < q.maxDepth && ItemKey(w, e) !in Keys(w, log)
    requires Walked(w, q, Children(w, e), log + [e], after)
    ensures Walked(w, q, [e], log, after)
  {
    hide ItemKey, Under, Keys, Distinct;
    var es := Children(w, e);
    assert after[|log|] == e;
    forall k | |log| <= k < |after| ensures UnderOne(w, [e], after[k]) {
      if k > |log| {
        assert UnderOne(w, es, after[k]);
        UnderParent(w, e, after[k]);
      } else {
        UnderItself(w, e);
      }
      assert Under(w, [e][0], after[k]);
    }
    forall i | 0 <= i < Fanout(w, e) ensures ItemKey(w, Child(w, e, i)) in Keys(w, after) {
      assert es[i] in es;
    }
    FirstVisitIsInLog(w, e, log, after);
  }

  lemma UnderParent(w: World, e: Entry, f: Entry)
    requires UnderOne(w, Children(w, e), f)
    ensures Under(w, e, f)
  {
    hide Under;
    var i :| 0 <= i < |Children(w, e)| && Under(w, Children(w, e)[i], f);
    UnderChild(w, e, i, f);
  }

  lemma FirstVisitIsInLog(w: World, e: Entry, log: seq<Entry>, after: seq<Entry>)
    requires log + [e] <= after && ItemKey(w, e) !in Keys(w, log)
    ensures ItemKey(w, e) in Keys(w, after)
    ensures Distinct(w, log) ==> Distinct(w, log + [e])
  {
    hide ItemKey;
    assert after[|log|] == e;
  }

  lemma UnderItself(w: World, e: Entry)
    ensures Under(w, e, e)
  {
    assert e.ordinals[|e.ordinals|..] == [];
  }

  // Walks in succession make one walk.
  lemma {:induction false} WalksCompose(
    w: World, q: Query, es: seq<Entry>, log: seq<Entry>, mid: seq<Entry>, after: seq<Entry>)
    requires es != [] && Walked(w, q, [es[0]], log, mid) && Walked(w, q, es[1..], mid, after)
    ensures Walked(w, q, es, log, after)
  {
    hide ItemKey, Under;
    assert Keys(w, mid) <= Keys(w, after) by { assert forall e <- mid :: e in after; }
    assert forall k :: |log| <= k < |mid| ==> after[k] == mid[k];
    forall k | |log| <= k < |after| ensures UnderOne(w, es, after[k]) && after[k].Depth() <= q.maxDepth {
      if k < |mid| {
        var i :| 0 <= i < |[es[0]]| && Under(w, [es[0]][i], after[k]);
        assert Under(w, es[0], after[k]);
      } else {
        var i :| 0 <= i < |es[1..]| && Under(w, es[1..][i], after[k]);
        assert Under(w, es[i + 1], after[k]);
      }
    }
    forall e | e in es ensures ItemKey(w, e) in Keys(w, after) {
      assert e == es[0] || e in es[1..];
      assert es[0] in [es[0]];
    }
  }

  lemma {:induction false} PreorderWalks(w: World, q: Query, e: Entry, log: seq<Entry>)
    requires e.Depth() <= q.maxDepth
    ensures Walked(w, q, [e], log, Preorder(w, q, e, log))
    decreases q.maxDepth - e.Depth(), 0, 0
  {
    hide ItemKey, Under, Each;
    UnderItself(w, e);
    if ItemKey(w, e) in Keys(w, log) || e.Depth() == q.maxDepth {
      assert Under(w, [e][0], e);
      assert UnderOne(w, [e], e);
    } else {
      hide Walked;
      EachWalks(w, q, Children(w, e), e.Depth() + 1, log + [e]);
      ParentWalked(w, q, e, log, Preorder(w, q, e, log));
    }
  }

  lemma {:induction false} EachWalks(w: World, q: Query, es: seq<Entry>, depth: nat, log: seq<Entry>)
    requires depth <= q.maxDepth && forall e <- es :: e.Depth() == depth
    ensures Walked(w, q, es, log, Each(w, q, es, depth, log))
    decreases q.maxDepth - depth, 1, |es|
  {
    if es != [] {
      hide Walked;
      var mid := Preorder(w, q, es[0], log);
      PreorderWalks(w, q, es[0], log);
      EachWalks(w, q, es[1..], depth, mid);
      WalksCompose(w, q, es, log, mid, Each(w, q, es, depth, log));
    }
  }

  // ---------------------------------------------------------------- in which order

  // The order of a depth-first walk: a place comes before what is below it and before its later siblings.
  predicate Before(a: seq<nat>, b: seq<nat>) {
    b != [] && (a == [] || a[0] < b[0] || (a[0] == b[0] && Before(a[1..], b[1..])))
  }

  lemma {:induction false} BeforeExtends(a: seq<nat>, b: seq<nat>, more: seq<nat>, others: seq<nat>)
    requires |a| == |b| && Before(a, b)
    ensures Before(a + more, b + others)
  {
    assert (a + more)[1..] == a[1..] + more && (b + others)[1..] == b[1..] + others;
    if a[0] == b[0] {
      BeforeExtends(a[1..], b[1..], more, others);
    }
  }

  lemma {:induction false} BeforeSibling(a: seq<nat>, i: nat, j: nat)
    requires i < j
    ensures Before(a + [i], a + [j])
  {
    if a != [] {
      assert (a + [i])[1..] == a[1..] + [i] && (a + [j])[1..] == a[1..] + [j];
      BeforeSibling(a[1..], i, j);
    }
  }

  lemma {:induction false} BeforeBelow(a: seq<nat>, more: seq<nat>)
    requires more != []
    ensures Before(a, a + more)
  {
    if a != [] {
      assert (a + more)[1..] == a[1..] + more;
      BeforeBelow(a[1..], more);
    }
  }

  // Entries of one category stand in depth-first order.
  ghost predicate InOrder(es: seq<Entry>) {
    forall i, j :: 0 <= i < j < |es| && es[i].category == es[j].category ==> Before(es[i].ordinals, es[j].ordinals)
  }

  ghost predicate AllUnder(w: World, es: seq<Entry>, part: seq<Entry>) {
    forall f <- part :: UnderOne(w, es, f)
  }

  lemma {:induction false} PlaceKeepsCategory(w: World, e: Entry, ordinals: seq<nat>)
    requires Stands(w, e, ordinals)
    ensures Place(w, e, ordinals).category == e.category
    decreases |ordinals|
  {
    if ordinals != [] {
      PlaceKeepsCategory(w, Child(w, e, ordinals[0]), ordinals[1..]);
    }
  }

  // What is under an earlier sibling comes before what is under a later one.
  lemma {:induction false} UnderSiblings(w: World, a: Entry, b: Entry, f: Entry, g: Entry)
    requires |a.ordinals| == |b.ordinals| && Under(w, a, f) && Under(w, b, g) && f.category == g.category
    requires a.category == b.category ==> Before(a.ordinals, b.ordinals)
    ensures Before(f.ordinals, g.ordinals)
  {
    var depth := |a.ordinals|;
    PlaceKeepsCategory(w, a, f.ordinals[depth..]);
    PlaceKeepsCategory(w, b, g.ordinals[depth..]);
    BeforeExtends(a.ordinals, b.ordinals, f.ordinals[depth..], g.ordinals[depth..]);
    assert f.ordinals == a.ordinals + f.ordinals[depth..] && g.ordinals == b.ordinals + g.ordinals[depth..];
  }

  lemma {:induction false} SiblingsInOrder(w: World, es: seq<Entry>, depth: nat, part: seq<Entry>, rest: seq<Entry>)
    requires es != [] && (forall e <- es :: e.Depth() == depth) && InOrder(es)
    requires AllUnder(w, [es[0]], part) && AllUnder(w, es[1..], rest) && InOrder(part) && InOrder(rest)
    ensures InOrder(part + rest)
  {
    hide Under, Before;
    forall i, j | 0 <= i < |part| && 0 <= j < |rest| && part[i].category == rest[j].category
      ensures Before(part[i].ordinals, rest[j].ordinals)
    {
      assert UnderOne(w, [es[0]], part[i]) && UnderOne(w, es[1..], rest[j]);
      var z :| 0 <= z < |[es[0]]| && Under(w, [es[0]][z], part[i]);
      var k :| 0 <= k < |es[1..]| && Under(w, es[1..][k], rest[j]);
      assert es[0].Depth() == depth && es[k + 1].Depth() == depth;
      UnderSiblings(w, es[0], es[k + 1], part[i], rest[j]);
    }
  }

  lemma {:induction false} ParentFirst(w: World, e: Entry, below: seq<Entry>)
    requires AllUnder(w, Children(w, e), below) && InOrder(below)
    ensures InOrder([e] + below)
  {
    hide Before, Stands, Place;
    var es := Children(w, e);
    forall j | 0 <= j < |below| ensures Before(e.ordinals, below[j].ordinals) {
      assert UnderOne(w, es, below[j]);
      var i :| 0 <= i < |es| && Under(w, es[i], below[j]);
      var more := below[j].ordinals[|e.ordinals|..];
      assert below[j].ordinals == e.ordinals + more;
      BeforeBelow(e.ordinals, more);
    }
  }

  lemma {:induction false} ChildrenInOrder(w: World, e: Entry)
    ensures InOrder(Children(w, e))
  {
    forall i, j | 0 <= i < j < Fanout(w, e) ensures Before(e.ordinals + [i], e.ordinals + [j]) {
      BeforeSibling(e.ordinals, i, j);
    }
  }

  lemma WalkedUnder(w: World, q: Query, es: seq<Entry>, log: seq<Entry>, after: seq<Entry>)
    requires Walked(w, q, es, log, after)
    ensures AllUnder(w, es, after[|log|..])
  {
    hide UnderOne, Distinct;
    forall f | f in after[|log|..] ensures UnderOne(w, es, f) {
      var k :| 0 <= k < |after| - |log| && after[|log|..][k] == f;
      assert after[|log| + k] == f;
    }
  }

  lemma PreorderUnfolds(w: World, q: Query, e: Entry, log: seq<Entry>)
    requires e.Depth() <= q.maxDepth
    ensures if ItemKey(w, e) !in Keys(w, log) && e.Depth() < q.maxDepth
            then Preorder(w, q, e, log) == Each(w, q, Children(w, e), e.Depth() + 1, log + [e])
            else Preorder(w, q, e, log) == log || Preorder(w, q, e, log) == log + [e]
  {
    hide ItemKey, Each;
  }

  lemma {:induction false} PreorderIsOrdered(w: World, q: Query, e: Entry, log: seq<Entry>)
    requires e.Depth() <= q.maxDepth
    ensures InOrder(Preorder(w, q, e, log)[|log|..])
    decreases q.maxDepth - e.Depth(), 0, 0
  {
    hide ItemKey, Preorder, Each, Walked, Before, AllUnder;
    PreorderUnfolds(w, q, e, log);
    if ItemKey(w, e) !in Keys(w, log) && e.Depth() < q.maxDepth {
      var es := Children(w, e);
      var after := Preorder(w, q, e, log);
      ChildrenInOrder(w, e);
      EachIsOrdered(w, q, es, e.Depth() + 1, log + [e]);
      EachWalks(w, q, es, e.Depth() + 1, log + [e]);
      WalkedUnder(w, q, es, log + [e], after);
      ParentFirst(w, e, after[|log| + 1..]);
      assert after[|log|..] == [e] + after[|log| + 1..];
    }
  }

  lemma InOrderParts(es: seq<Entry>)
    requires InOrder(es)
    ensures es != [] ==> InOrder(es[1..])
  {}

  lemma {:induction false} EachIsOrdered(w: World, q: Query, es: seq<Entry>, depth: nat, log: seq<Entry>)
    requires depth <= q.maxDepth && (forall e <- es :: e.Depth() == depth) && InOrder(es)
    ensures InOrder(Each(w, q, es, depth, log)[|log|..])
    decreases q.maxDepth - depth, 1, |es|
  {
    hide Walked, InOrder, AllUnder, Preorder;
    if es != [] {
      InOrderParts(es);
      var mid := Preorder(w, q, es[0], log);
      var after := Each(w, q, es, depth, log);
      PreorderIsOrdered(w, q, es[0], log);
      EachIsOrdered(w, q, es[1..], depth, mid);
      PreorderWalks(w, q, es[0], log);
      WalkedUnder(w, q, [es[0]], log, mid);
      EachWalks(w, q, es[1..], depth, mid);
      WalkedUnder(w, q, es[1..], mid, after);
      SiblingsInOrder(w, es, depth, mid[|log|..], after[|mid|..]);
      assert after[|log|..] == mid[|log|..] + after[|mid|..];
    }
  }

  // ---------------------------------------------------------------- what a search finds

  lemma {:induction false} CutIsMinimal(w: World, q: Query, log: seq<Entry>, from: nat)
    requires from <= |log| && from <= BUDGET && |Matches(w, q, log[..from])| <= q.limit
    ensures |Cut(w, q, log, from)| <= BUDGET && |Matches(w, q, Cut(w, q, log, from))| <= q.limit
    ensures Cut(w, q, log, from) == log || Full(w, q, Cut(w, q, log, from))
    decreases |log| - from
  {
    if from < |log| && !Full(w, q, log[..from]) {
      assert log[..from + 1][..from] == log[..from];
      CutIsMinimal(w, q, log, from + 1);
    }
  }

  ghost predicate Unrepeated(categories: seq<string>) {
    forall i, j :: 0 <= i < j < |categories| ==> categories[i] != categories[j]
  }

  lemma {:induction false} RootsDiffer(w: World, categories: seq<string>)
    requires Unrepeated(categories)
    ensures InOrder(Roots(w, categories))
    ensures forall e <- Roots(w, categories) :: e.category in categories
  {
    if categories != [] {
      RootsDiffer(w, categories[1..]);
    }
  }

  lemma {:induction false} PartOfAWalk(w: World, q: Query, roots: seq<Entry>, whole: seq<Entry>, part: seq<Entry>)
    requires Walked(w, q, roots, [], whole) && InOrder(whole) && part <= whole
    ensures Distinct(w, part) && AllUnder(w, roots, part) && InOrder(part)
    ensures forall e <- part :: e.Depth() <= q.maxDepth
  {
    hide ItemKey, Under, UnderOne, Before;
    assert Distinct(w, whole) by { assert Distinct(w, []); }
    assert forall k :: 0 <= k < |part| ==> part[k] == whole[k];
    forall e | e in part ensures UnderOne(w, roots, e) && e.Depth() <= q.maxDepth {
      var k :| 0 <= k < |part| && part[k] == e;
    }
  }

  // At most `limit` results and 5000 visits; each key visited once; every visited item stands where its
  // ordinals say, within the depth, under a selected category; each category in depth-first order; and
  // nothing is missing from the unlimited walk unless one of the two bounds was reached.
  lemma {:induction false} SearchIsBoundedPreorder(w: World, q: Query, categories: seq<string>)
    requires Unrepeated(categories)
    ensures var found := Found(w, q, categories);
            && |found| <= 5000 && |Matches(w, q, found)| <= q.limit
            && Distinct(w, found)
            && AllUnder(w, Roots(w, categories), found)
            && (forall e <- found :: e.Depth() <= q.maxDepth)
            && InOrder(found)
            && (Full(w, q, found) || found == Each(w, q, Roots(w, categories), 0, []))
  {
    var roots := Roots(w, categories);
    var whole := Each(w, q, roots, 0, []);
    var found := Found(w, q, categories);
    CutIsMinimal(w, q, whole, 0);
    RootsDiffer(w, categories);
    EachWalks(w, q, roots, 0, []);
    EachIsOrdered(w, q, roots, 0, []);
    hide Walked, InOrder, Each, Cut;
    assert whole[0..] == whole;
    PartOfAWalk(w, q, roots, whole, found);
  }

  // A key is always met above the same keys, and one with children at one depth only.
  ghost predicate Layered(w: World, q: Query, roots: seq<Entry>) {
    SameBelow(w, q, roots) &&
    forall e, f :: Met(w, q, roots, e) && Met(w, q, roots, f) && ItemKey(w, e) == ItemKey(w, f) && Fanout(w, e) > 0 ==>
                     e.Depth() == f.Depth()
  }

  ghost predicate SameBelow(w: World, q: Query, roots: seq<Entry>) {
    forall e, f :: Met(w, q, roots, e) && Met(w, q, roots, f) && ItemKey(w, e) == ItemKey(w, f) ==>
                     ChildKeys(w, e) == ChildKeys(w, f)
  }

  ghost predicate Met(w: World, q: Query, roots: seq<Entry>, e: Entry) {
    UnderOne(w, roots, e) && e.Depth() <= q.maxDepth
  }

  ghost function ChildKeys(w: World, e: Entry): seq<Key> {
    seq(Fanout(w, e), i requires 0 <= i < Fanout(w, e) => ItemKey(w, Child(w, e, i)))
  }

  lemma {:induction false} PlaceOfChild(w: World, e: Entry, ordinals: seq<nat>, i: nat)
    requires Stands(w, e, ordinals) && i < Fanout(w, Place(w, e, ordinals))
    ensures Stands(w, e, ordinals + [i]) && Place(w, e, ordinals + [i]) == Child(w, Place(w, e, ordinals), i)
    decreases |ordinals|
  {
    if ordinals == [] {
      assert Stands(w, Child(w, e, i), []);
      assert (ordinals + [i])[1..] == [];
    } else {
      PlaceOfChild(w, Child(w, e, ordinals[0]), ordinals[1..], i);
      assert (ordinals + [i])[1..] == ordinals[1..] + [i];
    }
  }

  lemma {:induction false} ChildIsMet(w: World, q: Query, roots: seq<Entry>, e: Entry, i: nat)
    requires Met(w, q, roots, e) && e.Depth() < q.maxDepth && i < Fanout(w, e)
    ensures Met(w, q, roots, Child(w, e, i))
  {
    var k :| 0 <= k < |roots| && Under(w, roots[k], e);
    var depth := |roots[k].ordinals|;
    PlaceOfChild(w, roots[k], e.ordinals[depth..], i);
    assert Child(w, e, i).ordinals[depth..] == e.ordinals[depth..] + [i];
    assert Under(w, roots[k], Child(w, e, i));
  }

  ghost predicate ChildrenVisited(w: World, log: seq<Entry>, e: Entry) {
    forall i :: 0 <= i < Fanout(w, e) ==> ItemKey(w, Child(w, e, i)) in Keys(w, log)
  }

  ghost predicate Complete(w: World, q: Query, roots: seq<Entry>, log: seq<Entry>) {
    forall e :: Met(w, q, roots, e) ==> ItemKey(w, e) in Keys(w, log)
  }

  // Whatever was skipped as a repetition has children that were visited elsewhere.
  ghost predicate RepeatsCovered(w: World, q: Query, roots: seq<Entry>, log: seq<Entry>) {
    forall e :: Met(w, q, roots, e) && e.Depth() < q.maxDepth && e !in log ==> ChildrenVisited(w, log, e)
  }

  // The same, asked only of items that were first visited at the depth limit and are met again above it.
  ghost predicate LateRepeatsCovered(w: World, q: Query, roots: seq<Entry>, log: seq<Entry>) {
    forall e, f ::
      (f in log && f.Depth() == q.maxDepth && Met(w, q, roots, e) && e.Depth() < q.maxDepth &&
       ItemKey(w, e) == ItemKey(w, f)) ==> ChildrenVisited(w, log, e)
  }

  lemma {:induction false} NothingBelowIsMissed(
    w: World, q: Query, roots: seq<Entry>, log: seq<Entry>, e: Entry, ordinals: seq<nat>)
    requires Walked(w, q, roots, [], log) && RepeatsCovered(w, q, roots, log)
    requires Met(w, q, roots, e) && ItemKey(w, e) in Keys(w, log)
    requires Stands(w, e, ordinals) && e.Depth() + |ordinals| <= q.maxDepth
    ensures ItemKey(w, Place(w, e, ordinals)) in Keys(w, log)
    decreases |ordinals|
  {
    if ordinals != [] {
      hide ItemKey, Under, UnderOne;
      var i := ordinals[0];
      if e in log {
        var k :| 0 <= k < |log| && log[k] == e;
      } else {
        assert ChildrenVisited(w, log, e);
      }
      ChildIsMet(w, q, roots, e, i);
      NothingBelowIsMissed(w, q, roots, log, Child(w, e, i), ordinals[1..]);
    }
  }

  // A walk is complete exactly when its repetitions are covered.
  lemma {:induction false} CompleteIffRepeatsCovered(w: World, q: Query, roots: seq<Entry>, log: seq<Entry>)
    requires Walked(w, q, roots, [], log) && forall e <- roots :: e.Depth() == 0
    ensures Complete(w, q, roots, log) <==> RepeatsCovered(w, q, roots, log)
  {
    if Complete(w, q, roots, log) {
      forall e, i | Met(w, q, roots, e) && e.Depth() < q.maxDepth && 0 <= i < Fanout(w, e)
        ensures ItemKey(w, Child(w, e, i)) in Keys(w, log)
      {
        ChildIsMet(w, q, roots, e, i);
      }
    }
    if RepeatsCovered(w, q, roots, log) {
      forall e | Met(w, q, roots, e) ensures ItemKey(w, e) in Keys(w, log) {
        var i :| 0 <= i < |roots| && Under(w, roots[i], e);
        assert roots[i] in roots;
        UnderItself(w, roots[i]);
        assert Met(w, q, roots, roots[i]) by { assert UnderOne(w, roots, roots[i]); }
        NothingBelowIsMissed(w, q, roots, log, roots[i], e.ordinals[|roots[i].ordinals|..]);
      }
    }
  }

  // Where equal keys stand above equal keys, only repetitions first visited at the depth limit matter.
  lemma {:induction false} OnlyLateRepeatsMatter(w: World, q: Query, roots: seq<Entry>, log: seq<Entry>)
    requires Walked(w, q, roots, [], log) && SameBelow(w, q, roots) && forall e <- roots :: e.Depth() == 0
    ensures Complete(w, q, roots, log) <==> LateRepeatsCovered(w, q, roots, log)
  {
    CompleteIffRepeatsCovered(w, q, roots, log);
    hide ItemKey, UnderOne;
    if Complete(w, q, roots, log) {
      forall e, f | f in log && f.Depth() == q.maxDepth && Met(w, q, roots, e) && e.Depth() < q.maxDepth &&
                    ItemKey(w, e) == ItemKey(w, f)
        ensures ChildrenVisited(w, log, e)
      {
        forall i | 0 <= i < Fanout(w, e) ensures ItemKey(w, Child(w, e, i)) in Keys(w, log) {
          ChildIsMet(w, q, roots, e, i);
        }
      }
    }
    if LateRepeatsCovered(w, q, roots, log) {
      LateRepeatsSuffice(w, q, roots, log);
    }
  }

  // The proof descends as `NothingBelowIsMissed` does, with the first visit of a repeated key in hand.
  lemma {:induction false} LateRepeatsSuffice(w: World, q: Query, roots: seq<Entry>, log: seq<Entry>)
    requires Walked(w, q, roots, [], log) && SameBelow(w, q, roots) && forall e <- roots :: e.Depth() == 0
    requires LateRepeatsCovered(w, q, roots, log)
    ensures Complete(w, q, roots, log)
  {
    forall e | Met(w, q, roots, e) ensures ItemKey(w, e) in Keys(w, log) {
      var i :| 0 <= i < |roots| && Under(w, roots[i], e);
      assert roots[i] in roots;
      UnderItself(w, roots[i]);
      assert Met(w, q, roots, roots[i]) by { assert UnderOne(w, roots, roots[i]); }
      DescendByKey(w, q, roots, log, roots[i], e.ordinals[|roots[i].ordinals|..]);
    }
  }

  lemma {:induction false} DescendByKey(
    w: World, q: Query, roots: seq<Entry>, log: seq<Entry>, e: Entry, ordinals: seq<nat>)
    requires Walked(w, q, roots, [], log) && SameBelow(w, q, roots) && LateRepeatsCovered(w, q, roots, log)
    requires Met(w, q, roots, e) && ItemKey(w, e) in Keys(w, log)
    requires Stands(w, e, ordinals) && e.Depth() + |ordinals| <= q.maxDepth
    ensures ItemKey(w, Place(w, e, ordinals)) in Keys(w, log)
    decreases |ordinals|
  {
    if ordinals != [] {
      hide ItemKey, Under, UnderOne;
      var i := ordinals[0];
      var k :| 0 <= k < |log| && ItemKey(w, log[k]) == ItemKey(w, e);
      assert Met(w, q, roots, log[k]);
      assert ChildKeys(w, e)[i] == ChildKeys(w, log[k])[i];
      if log[k].Depth() == q.maxDepth {
        assert log[k] in log;
        assert ChildrenVisited(w, log, e);
      }
      ChildIsMet(w, q, roots, e, i);
      DescendByKey(w, q, roots, log, Child(w, e, i), ordinals[1..]);
    }
  }

  // A search that reached neither bound has visited the key of every item within the depth, provided
  // a key is always met above the same keys, and one with children at one depth only.
  lemma {:induction false} SearchIsComplete(w: World, q: Query, categories: seq<string>)
    requires !Full(w, q, Found(w, q, categories)) && Layered(w, q, Roots(w, categories))
    ensures Complete(w, q, Roots(w, categories), Found(w, q, categories))
  {
    var roots, found := Roots(w, categories), Found(w, q, categories);
    UncutIsWalked(w, q, categories);
    hide ItemKey, Under, UnderOne, Found, Child;
    forall e, f | f in found && f.Depth() == q.maxDepth && Met(w, q, roots, e) && e.Depth() < q.maxDepth &&
                  ItemKey(w, e) == ItemKey(w, f)
      ensures ChildrenVisited(w, found, e)
    {
      var k :| 0 <= k < |found| && found[k] == f;
      assert Met(w, q, roots, f);
      assert Fanout(w, e) == 0;
    }
    LateRepeatsSuffice(w, q, roots, found);
  }

  lemma {:induction false} UncutIsWalked(w: World, q: Query, categories: seq<string>)
    requires !Full(w, q, Found(w, q, categories))
    ensures Walked(w, q, Roots(w, categories), [], Found(w, q, categories))
  {
    var whole := Each(w, q, Roots(w, categories), 0, []);
    CutIsMinimal(w, q, whole, 0);
    EachWalks(w, q, Roots(w, categories), 0, []);
  }

  // A search that reached neither bound is complete exactly when its repetitions are covered, or, where
  // equal keys stand above equal keys, those that were first visited at the depth limit.
  lemma SearchIsCompleteIff(w: World, q: Query, categories: seq<string>)
    requires !Full(w, q, Found(w, q, categories))
    ensures var roots, found := Roots(w, categories), Found(w, q, categories);
            && (Complete(w, q, roots, found) <==> RepeatsCovered(w, q, roots, found))
            && (SameBelow(w, q, roots) ==>
                  (Complete(w, q, roots, found) <==> LateRepeatsCovered(w, q, roots, found)))
  {
    var roots, found := Roots(w, categories), Found(w, q, categories);
    UncutIsWalked(w, q, categories);
    CompleteIffRepeatsCovered(w, q, roots, found);
    if SameBelow(w, q, roots) {
      OnlyLateRepeatsMatter(w, q, roots, found);
    }
  }

  function Letter(item: Item): string {
    if item == 0 then "A" else if item == 1 then "B" else if item == 2 then "C" else "D"
  }

  // Item 2 is both a child of the root 0 and, by the same address, a child of item 1; its child 3 matches.
  const Repeating: World := World(
    _ => Some(0), category => category,
    (item: Item) => Letter(item), (item: Item) => Letter(item), _ => true,
    (item: Item) => if item == 0 then [1, 2] else if item == 1 then [2] else if item == 2 then [3] else [])

  const ForD: Query := Query(name => name == "D", 10, 2)

  lemma RepeatingChildren(root: Entry, one: Entry, deep: Entry, two: Entry)
    requires root == Entry("c", 0, ["c"], []) && one == Entry("c", 1, ["c", "B"], [0])
    requires deep == Entry("c", 2, ["c", "B", "C"], [0, 0]) && two == Entry("c", 2, ["c", "C"], [1])
    ensures Children(Repeating, root) == [one, two] && Children(Repeating, one) == [deep]
  {
    assert ["c"] + ["B"] == ["c", "B"] && ["c"] + ["C"] == ["c", "C"] && ["c", "B"] + ["C"] == ["c", "B", "C"];
    assert [] + [0 as nat] == [0] && [] + [1 as nat] == [1] && [0 as nat] + [0] == [0, 0];
  }

  lemma RepeatingKeys(root: Entry, one: Entry, deep: Entry, two: Entry)
    requires root.item == 0 && one.item == 1 && deep.item == 2 && two.item == 2
    ensures var w := Repeating;
            && ItemKey(w, root) != ItemKey(w, one) && ItemKey(w, root) != ItemKey(w, deep)
            && ItemKey(w, one) != ItemKey(w, deep) && ItemKey(w, two) == ItemKey(w, deep)
  {
    assert "A"[0] == 'A' && "B"[0] == 'B' && "C"[0] == 'C';
  }

  lemma {:induction false} RepeatingWalk(root: Entry, one: Entry, deep: Entry, two: Entry)
    requires root == Entry("c", 0, ["c"], []) && one == Entry("c", 1, ["c", "B"], [0])
    requires deep == Entry("c", 2, ["c", "B", "C"], [0, 0]) && two == Entry("c", 2, ["c", "C"], [1])
    ensures Preorder(Repeating, ForD, root, []) == [root, one, deep]
  {
    var w, q := Repeating, ForD;
    RepeatingChildren(root, one, deep, two);
    RepeatingKeys(root, one, deep, two);
    hide ItemKey, Children, Letter;
    var log := [root, one, deep];
    assert [] + [root] == [root] && [root] + [one] == [root, one] && [root, one] + [deep] == log;
    assert Preorder(w, q, one, [root]) == log by {
      assert Preorder(w, q, deep, [root, one]) == log;
      assert Each(w, q, [deep], 2, [root, one]) == log;
    }
    assert Each(w, q, [two], 1, log) == log by {
      assert deep in log;
      assert Preorder(w, q, two, log) == log;
    }
    assert [one, two][1..] == [two];
    assert Each(w, q, [one, two], 1, [root]) == log;
  }

  lemma {:induction false} HiddenIsMet(root: Entry, two: Entry, hidden: Entry)
    requires root == Entry("c", 0, ["c"], []) && two == Entry("c", 2, ["c", "C"], [1])
    requires hidden == Entry("c", 3, ["c", "C", "D"], [1, 0])
    ensures Met(Repeating, ForD, [root], hidden)
  {
    var w := Repeating;
    assert ["c"] + ["C"] == ["c", "C"] && ["c", "C"] + ["D"] == ["c", "C", "D"];
    assert [] + [1 as nat] == [1] && [1 as nat] + [0] == [1, 0];
    assert Child(w, root, 1) == two && Child(w, two, 0) == hidden;
    assert Stands(w, hidden, []) && Stands(w, two, [0]) && Stands(w, root, [1, 0]);
    assert Place(w, two, [0]) == hidden && Place(w, root, [1, 0]) == hidden;
    assert Under(w, [root][0], hidden);
  }

  // With a repeated address a search that reached neither bound can miss a match within its depth: the
  // item is first met too deep to descend from, and skipped where it could have been descended from.
  lemma {:induction false} RepeatedItemHidesAMatch()
    ensures var hidden := Entry("c", 3, ["c", "C", "D"], [1, 0]);
            && Met(Repeating, ForD, Roots(Repeating, ["c"]), hidden) && IsMatch(Repeating, ForD, hidden)
            && !Full(Repeating, ForD, Found(Repeating, ForD, ["c"]))
            && Matches(Repeating, ForD, Found(Repeating, ForD, ["c"])) == []
  {
    var w, q := Repeating, ForD;
    var root, one := Entry("c", 0, ["c"], []), Entry("c", 1, ["c", "B"], [0]);
    var deep, two := Entry("c", 2, ["c", "B", "C"], [0, 0]), Entry("c", 2, ["c", "C"], [1]);
    var hidden := Entry("c", 3, ["c", "C", "D"], [1, 0]);
    RepeatingWalk(root, one, deep, two);
    HiddenIsMet(root, two, hidden);
    hide Preorder, Met, Under;
    var log := [root, one, deep];
    assert Each(w, q, [root], 0, []) == log;
    assert Roots(w, ["c"]) == [root];
    ShortIsUncut(w, q, log, 0);
    assert "B"[0] == 'B' && "C"[0] == 'C' && "D"[0] == 'D';
    NothingMatches(w, q, log);
  }

  lemma NothingMatches(w: World, q: Query, log: seq<Entry>)
    requires forall e <- log :: !IsMatch(w, q, e)
    ensures Matches(w, q, log) == []
  {}

  lemma {:induction false} AtMostOneEach(w: World, q: Query, log: seq<Entry>)
    ensures |Matches(w, q, log)| <= |log|
  {
    if log != [] {
      AtMostOneEach(w, q, log[..|log| - 1]);
    }
  }

  lemma {:induction false} ShortIsUncut(w: World, q: Query, log: seq<Entry>, from: nat)
    requires from <= |log| < q.limit && |log| < BUDGET
    ensures !Full(w, q, log) && Cut(w, q, log, from) == log
    decreases |log| - from
  {
    AtMostOneEach(w, q, log);
    AtMostOneEach(w, q, log[..from]);
    assert log[..|log|] == log;
    if from < |log| {
      ShortIsUncut(w, q, log, from + 1);
    }
  }
}
