/**
 Canonical JSON: what may stand for what inside a value, at any depth.

 Outside the lists under set keys exactly what has equal bytes is interchangeable.  Inside such a list
 items are kept apart and ordered by their dumps, which tell more than their bytes do.
 */
module Replacement {
  import opened Wrappers
  import opened CanonicalText
  import opened Canonical
  import JsonText

  // The value with `v` in the place that the positions lead to.
  function Put(raw: Raw, positions: seq<nat>, v: Raw): (r: Raw)
    decreases |positions|
  {
    if positions == [] then v
    else
      var i, rest := positions[0], positions[1..];
      if raw.RawList? && i < |raw.items| then
        RawList(raw.items[..i] + [Put(raw.items[i], rest, v)] + raw.items[i + 1..])
      else if raw.RawMapping? && i < |raw.members| then
        var m := raw.members[i];
        RawMapping(raw.members[..i] + [Member(m.key, Put(m.value, rest, v))] + raw.members[i + 1..])
      else raw
  }

  // ---------------------------------------------------------------- replacing what is prepared alike

  lemma ListPreparesAlike(lib: Library, l: seq<Raw>, a: Raw, b: Raw, r: seq<Raw>)
    requires Prepare(lib, a) == Prepare(lib, b)
    ensures Prepare(lib, RawList(l + [a] + r)) == Prepare(lib, RawList(l + [b] + r))
  {
    var x, y := l + [a] + r, l + [b] + r;
    ItemsArePrepared(lib, x);
    ItemsArePrepared(lib, y);
    assert forall i :: 0 <= i < |x| ==> Prepare(lib, x[i]) == Prepare(lib, y[i]);
    hide PrepareItems;
    var v, w := PrepareItems(lib, x), PrepareItems(lib, y);
    if v.Some? && w.Some? {
      assert forall i :: 0 <= i < |x| ==> Some(v.value[i]) == Some(w.value[i]);
      assert v.value == w.value;
    }
  }

  lemma MappingPreparesAlike(lib: Library, p: seq<Member>, key: Key, a: Raw, b: Raw, q: seq<Member>)
    requires Prepare(lib, a) == Prepare(lib, b)
    ensures Prepare(lib, RawMapping(p + [Member(key, a)] + q)) == Prepare(lib, RawMapping(p + [Member(key, b)] + q))
  {
    var m, n := Member(key, a), Member(key, b);
    assert PrepareMember(lib, m) == PrepareMember(lib, n);
    hide Prepare, PrepareMembers, PrepareMember;
    MemberIsPrepared(lib, p, m, n, q);
    MembersPrepareAlike(lib, p + [m] + q, p + [n] + q);
  }

  // Values that are the same after normalizing may stand for each other anywhere.
  lemma {:induction false} PreparedMayBeReplaced(lib: Library, raw: Raw, positions: seq<nat>, a: Raw, b: Raw)
    requires Prepare(lib, a) == Prepare(lib, b)
    ensures Prepare(lib, Put(raw, positions, a)) == Prepare(lib, Put(raw, positions, b))
    decreases |positions|
  {
    hide Prepare;
    if positions != [] {
      var i, rest := positions[0], positions[1..];
      if raw.RawList? && i < |raw.items| {
        var item := raw.items[i];
        PreparedMayBeReplaced(lib, item, rest, a, b);
        ListPreparesAlike(lib, raw.items[..i], Put(item, rest, a), Put(item, rest, b), raw.items[i + 1..]);
      } else if raw.RawMapping? && i < |raw.members| {
        var m := raw.members[i];
        PreparedMayBeReplaced(lib, m.value, rest, a, b);
        MappingPreparesAlike(
          lib, raw.members[..i], m.key, Put(m.value, rest, a), Put(m.value, rest, b), raw.members[i + 1..]);
      }
    }
  }

  // ---------------------------------------------------------------- outside the set keys

  // The path enters no list under a set key, and does not end in putting a list under a special key.
  ghost predicate Outside(lib: Library, raw: Raw, positions: seq<nat>, v: Raw)
    decreases |positions|
  {
    positions != [] ==>
      var i, rest := positions[0], positions[1..];
      if raw.RawList? && i < |raw.items| then Outside(lib, raw.items[i], rest, v)
      else if raw.RawMapping? && i < |raw.members| then
        Outside(lib, raw.members[i].value, rest, v) && Passes(lib, raw.members[i], rest, v)
      else true
  }

  ghost predicate Passes(lib: Library, m: Member, rest: seq<nat>, v: Raw) {
    m.key.TextKey? ==>
      && (lib.nfc(m.key.text) in SET_KEYS ==> if rest == [] then !v.RawList? else !m.value.RawList?)
      && (lib.nfc(m.key.text) == CONSTRAINTS_KEY ==> rest == [] ==> !v.RawList?)
  }

  // Whatever is put there makes no difference: the path leads nowhere, or something beside it fails.
  ghost predicate Idle(lib: Library, raw: Raw, positions: seq<nat>)
    decreases |positions|
  {
    positions != [] &&
      var i, rest := positions[0], positions[1..];
      if raw.RawList? && i < |raw.items| then
        PrepareItems(lib, raw.items[..i] + raw.items[i + 1..]).None? || Idle(lib, raw.items[i], rest)
      else if raw.RawMapping? && i < |raw.members| then
        || BesideFails(lib, raw.members[..i], raw.members[i].key, raw.members[i + 1..])
        || Idle(lib, raw.members[i].value, rest)
      else true
  }

  // An item of a list is told exactly by its normal form.
  lemma ItemIsTold(lib: Library, l: seq<Raw>, a: Raw, b: Raw, r: seq<Raw>)
    ensures Normalize(lib, RawList(l + [a] + r)) == Normalize(lib, RawList(l + [b] + r))
       <==> PrepareItems(lib, l + r).None? || Normalize(lib, a) == Normalize(lib, b)
  {
    ItemBeside(lib, l, a, r);
    ItemBeside(lib, l, b, r);
    ItemsArePrepared(lib, l + [a] + r);
    ItemsArePrepared(lib, l + [b] + r);
    hide PrepareItems;
    var x, y := PrepareItems(lib, l + [a] + r), PrepareItems(lib, l + [b] + r);
    if x.Some? && y.Some? {
      var f, g := Forms(lib, x.value), Forms(lib, y.value);
      forall i | 0 <= i < |f| && i != |l| ensures f[i] == g[i] {
        assert Some(x.value[i]) == Prepare(lib, (l + [a] + r)[i]) && (l + [a] + r)[i] == (l + [b] + r)[i];
      }
      assert Some(x.value[|l|]) == Prepare(lib, a) && Some(y.value[|l|]) == Prepare(lib, b);
      assert f == g <==> f[|l|] == g[|l|];
    }
  }

  lemma ItemBeside(lib: Library, l: seq<Raw>, a: Raw, r: seq<Raw>)
    ensures PrepareItems(lib, l + [a] + r).None? <==> PrepareItems(lib, l + r).None? || Prepare(lib, a).None?
  {
    AllPrepared(lib, l + [a] + r);
    AllPrepared(lib, l + r);
    hide PrepareItems, Prepare;
    assert forall x :: x in l + [a] + r <==> x == a || x in l + r;
  }

  lemma AllPrepared(lib: Library, items: seq<Raw>)
    ensures PrepareItems(lib, items).Some? <==> forall x :: x in items ==> Prepare(lib, x).Some?
  {
    ItemsArePrepared(lib, items);
    hide PrepareItems, Prepare;
    assert forall i :: 0 <= i < |items| ==> items[i] in items;
  }

  // Nothing special happens to a value that is not a list, nor under any other key.
  lemma PlainMember(lib: Library, key: string, v: Raw)
    requires lib.nfc(key) in SET_KEYS || lib.nfc(key) == CONSTRAINTS_KEY ==> !v.RawList?
    ensures MemberForm(lib, Member(TextKey(key), v)) == Normalize(lib, v)
  {
    hide SetItems, SortBy, Form;
    assert PrepareMember(lib, Member(TextKey(key), v)) == Prepare(lib, v);
  }

  // Of the constraints of an object no item can be told in another way than in a list.
  lemma ConstraintIsTold(lib: Library, key: string, l: seq<Raw>, a: Raw, b: Raw, r: seq<Raw>)
    requires lib.nfc(key) == CONSTRAINTS_KEY
    ensures MemberForm(lib, Member(TextKey(key), RawList(l + [a] + r)))
         == MemberForm(lib, Member(TextKey(key), RawList(l + [b] + r)))
       <==> Normalize(lib, RawList(l + [a] + r)) == Normalize(lib, RawList(l + [b] + r))
  {
    hide MemberForm, Normalize, SortBy, Encode, PrepareItems, Bag;
    ConstraintForm(lib, key, l + [a] + r);
    ConstraintForm(lib, key, l + [b] + r);
    BagsAreTold(lib, l + [a] + r, l + [b] + r);
    ItemIsTold(lib, l, a, b, r);
    BagBeside(lib, l, a, r);
    BagBeside(lib, l, b, r);
    BagCounts(lib, l + r);
    var others, x, y := Bag(lib, l + r), Normalize(lib, a), Normalize(lib, b);
    assert others + multiset{x} == others + multiset{y} ==> (others + multiset{x})[x] == (others + multiset{y})[x];
  }

  lemma BagBeside(lib: Library, l: seq<Raw>, a: Raw, r: seq<Raw>)
    ensures Bag(lib, l + [a] + r) == Bag(lib, l + r) + multiset{Normalize(lib, a)}
  {
    BagStepsCommute(lib);
    hide Normalize;
    MoveToEnd(BagStep(lib), multiset{}, l, a, r);
    assert (l + r + [a])[..|l + r|] == l + r;
  }

  // Outside the set keys a replacement is told exactly by the bytes of what is replaced.
  lemma {:induction false} NormalReplaced(lib: Library, raw: Raw, positions: seq<nat>, a: Raw, b: Raw)
    requires Outside(lib, raw, positions, a) && Outside(lib, raw, positions, b)
    ensures Normalize(lib, Put(raw, positions, a)) == Normalize(lib, Put(raw, positions, b))
       <==> Idle(lib, raw, positions) || Normalize(lib, a) == Normalize(lib, b)
    decreases |positions|
  {
    hide Normalize, BesideFails, PrepareItems, Passes;
    if positions != [] {
      var i, rest := positions[0], positions[1..];
      if raw.RawList? && i < |raw.items| {
        var item := raw.items[i];
        NormalReplaced(lib, item, rest, a, b);
        ItemIsTold(lib, raw.items[..i], Put(item, rest, a), Put(item, rest, b), raw.items[i + 1..]);
      } else if raw.RawMapping? && i < |raw.members| {
        var m := raw.members[i];
        NormalReplaced(lib, m.value, rest, a, b);
        MemberReplaced(lib, raw.members[..i], m, rest, a, b, raw.members[i + 1..]);
      }
    }
  }

  lemma MemberReplaced(lib: Library, p: seq<Member>, m: Member, rest: seq<nat>, a: Raw, b: Raw, q: seq<Member>)
    requires Passes(lib, m, rest, a) && Passes(lib, m, rest, b)
    ensures Normalize(lib, RawMapping(p + [Member(m.key, Put(m.value, rest, a))] + q))
         == Normalize(lib, RawMapping(p + [Member(m.key, Put(m.value, rest, b))] + q))
       <==> BesideFails(lib, p, m.key, q) || Normalize(lib, Put(m.value, rest, a)) == Normalize(lib, Put(m.value, rest, b))
  {
    assert m.key.OtherKey? ==> BesideFails(lib, p, m.key, q);
    hide MemberForm, Normalize, BesideFails, Put, Passes;
    MemberIsTold(lib, p, m.key, Put(m.value, rest, a), Put(m.value, rest, b), q);
    if m.key.TextKey? {
      ValueReplaced(lib, m, rest, a, b);
    }
  }

  lemma ValueReplaced(lib: Library, m: Member, rest: seq<nat>, a: Raw, b: Raw)
    requires m.key.TextKey? && Passes(lib, m, rest, a) && Passes(lib, m, rest, b)
    ensures MemberForm(lib, Member(m.key, Put(m.value, rest, a))) == MemberForm(lib, Member(m.key, Put(m.value, rest, b)))
       <==> Normalize(lib, Put(m.value, rest, a)) == Normalize(lib, Put(m.value, rest, b))
  {
    hide MemberForm, Normalize;
    var key := m.key.text;
    if lib.nfc(key) == CONSTRAINTS_KEY && m.value.RawList? && rest != [] && rest[0] < |m.value.items| {
      var items, j := m.value.items, rest[0];
      ConstraintIsTold(lib, key, items[..j], Put(items[j], rest[1..], a), Put(items[j], rest[1..], b), items[j + 1..]);
    } else {
      var x, y := Put(m.value, rest, a), Put(m.value, rest, b);
      PutKeepsKind(m.value, rest, a);
      PutKeepsKind(m.value, rest, b);
      hide Put;
      if x != y {
        PlainMember(lib, key, x);
        PlainMember(lib, key, y);
      }
    }
  }

  lemma PutKeepsKind(raw: Raw, positions: seq<nat>, v: Raw)
    ensures positions != [] ==> (Put(raw, positions, v).RawList? <==> raw.RawList?)
    ensures positions != [] && raw.RawList? && positions[0] >= |raw.items| ==> Put(raw, positions, v) == raw
  {
  }

  // The same of bytes.
  lemma EqualsMayBeReplaced(lib: Library, raw: Raw, positions: seq<nat>, a: Raw, b: Raw)
    requires Outside(lib, raw, positions, a) && Outside(lib, raw, positions, b)
    ensures CanonicalJson(lib, Put(raw, positions, a)) == CanonicalJson(lib, Put(raw, positions, b))
       <==> Idle(lib, raw, positions) || CanonicalJson(lib, a) == CanonicalJson(lib, b)
  {
    hide CanonicalJson, Normalize, Put, Outside, Idle;
    CanonicalJsonIsInjective(lib, a, b);
    NormalReplaced(lib, raw, positions, a, b);
    CanonicalJsonIsInjective(lib, Put(raw, positions, a), Put(raw, positions, b));
  }

  // ---------------------------------------------------------------- inside a list under a set key

  lemma {:induction false} AscendingIsUnique(s: seq<string>, t: seq<string>)
    requires Ascending(s) && Ascending(t) && SameItems(s, t)
    ensures s == t
  {
    hide Less;
    if s == [] {
      assert forall i :: 0 <= i < |t| ==> t[i] in s;
    } else {
      assert s[0] in t && t[0] in s;
      LessIsStrict(s[0], t[0]);
      assert s[0] == t[0];
      LessIsStrict(s[0], s[0]);
      assert s == [s[0]] + s[1..] && t == [t[0]] + t[1..];
      assert forall k :: k in s[1..] ==> Less(s[0], k);
      assert forall k :: k in t[1..] ==> Less(s[0], k);
      forall k ensures k in s[1..] <==> k in t[1..] {
        assert k in s <==> k == s[0] || k in s[1..];
        assert k in t <==> k == t[0] || k in t[1..];
      }
      AscendingIsUnique(s[1..], t[1..]);
    }
  }

  // Where a text belongs among sorted ones.
  ghost predicate Belongs(s: seq<string>, k: nat, x: string) {
    k <= |s| && (forall i :: 0 <= i < k ==> Less(s[i], x)) && forall i :: k <= i < |s| ==> Less(x, s[i])
  }

  lemma {:induction false} FindPlace(s: seq<string>, x: string) returns (k: nat)
    requires Ascending(s) && x !in s
    ensures Belongs(s, k, x)
  {
    hide Less;
    if s == [] || Less(x, s[0]) {
      k := 0;
      forall i | 0 <= i < |s| ensures Less(x, s[i]) {
        if i > 0 { LessIsTransitive(x, s[0], s[i]); }
      }
    } else {
      LessIsStrict(x, s[0]);
      k := FindPlace(s[1..], x);
      forall i | 0 <= i < |s| ensures if i < k + 1 then Less(s[i], x) else Less(x, s[i]) {
        assert i > 0 ==> s[i] == s[1..][i - 1];
      }
      k := k + 1;
    }
  }

  lemma InsertedText(texts: set<string>, x: string) returns (k: nat)
    requires x !in texts
    ensures Belongs(Sorted(texts), k, x)
    ensures var s := Sorted(texts); Sorted(texts + {x}) == s[..k] + [x] + s[k..]
  {
    hide Less, Sorted;
    var s := Sorted(texts);
    SortedAscends(texts);
    SortedAscends(texts + {x});
    k := FindPlace(s, x);
    PlacedAscends(s, k, x);
    assert forall t :: t in s[..k] + [x] + s[k..] <==> t == x || t in s by { assert s == s[..k] + s[k..]; }
    AscendingIsUnique(Sorted(texts + {x}), s[..k] + [x] + s[k..]);
  }

  lemma PlacedAscends(s: seq<string>, k: nat, x: string)
    requires Ascending(s) && Belongs(s, k, x)
    ensures Ascending(s[..k] + [x] + s[k..])
  {
    hide Less;
    var t := s[..k] + [x] + s[k..];
    assert forall i :: 0 <= i < |t| ==> t[i] == if i < k then s[i] else if i == k then x else s[i - 1];
    forall i, j | 0 <= i < j < |t| ensures Less(t[i], t[j]) {
      if i < k < j {
        LessIsTransitive(t[i], x, t[j]);
      }
    }
  }

  ghost function Map(f: string -> Normal, s: seq<string>): (m: seq<Normal>)
    ensures |m| == |s| && forall i :: 0 <= i < |s| ==> m[i] == f(s[i])
  {
    seq(|s|, i requires 0 <= i < |s| => f(s[i]))
  }

  // Inserting in two places gives the same exactly when what lies between is all the same.
  lemma InsertedAlike<T>(s: seq<T>, k: nat, u: T, l: nat, v: T)
    requires k <= l <= |s|
    ensures s[..k] + [u] + s[k..] == s[..l] + [v] + s[l..] <==> u == v && forall i :: k <= i < l ==> s[i] == u
  {
    var x, y := s[..k] + [u] + s[k..], s[..l] + [v] + s[l..];
    assert forall i :: 0 <= i < k ==> x[i] == y[i];
    assert x[k] == u && forall i :: k < i < |x| ==> x[i] == s[i - 1];
    assert y[l] == v && (forall i :: 0 <= i < l ==> y[i] == s[i]) && forall i :: l < i < |y| ==> y[i] == s[i - 1];
    if x == y {
      var i := k;
      while i < l
        invariant k <= i <= l && x[i] == u
        invariant forall j :: k <= j < i ==> s[j] == u
      {
        assert x[i] == y[i] && x[i + 1] == s[i];
        i := i + 1;
      }
    }
  }

  ghost predicate Between(x: string, t: string, y: string) {
    (Less(x, t) && Less(t, y)) || (Less(y, t) && Less(t, x))
  }

  // `x` among the texts cannot be told from `y` among them by what `f` makes of the sorted list.
  ghost predicate Alike(f: string -> Normal, texts: set<string>, x: string, y: string) {
    if x in texts || y in texts then x in texts && y in texts
    else f(x) == f(y) && forall t :: t in texts && Between(x, t, y) ==> f(t) == f(x)
  }

  lemma ExchangedText(f: string -> Normal, texts: set<string>, x: string, y: string)
    ensures Map(f, Sorted(texts + {x})) == Map(f, Sorted(texts + {y})) <==> Alike(f, texts, x, y)
  {
    hide Sorted, Map;
    if x in texts || y in texts {
      assert x in texts ==> texts + {x} == texts;
      assert y in texts ==> texts + {y} == texts;
    } else {
      var k := InsertedText(texts, x);
      var l := InsertedText(texts, y);
      if k <= l {
        PlacedText(f, texts, k, x, l, y);
      } else {
        PlacedText(f, texts, l, y, k, x);
        AlikeIsEven(f, texts, x, y);
      }
    }
  }

  lemma PlacedText(f: string -> Normal, texts: set<string>, k: nat, x: string, l: nat, y: string)
    requires x !in texts && y !in texts
    requires k <= l && Belongs(Sorted(texts), k, x) && Belongs(Sorted(texts), l, y)
    ensures var s := Sorted(texts);
            Map(f, s[..k] + [x] + s[k..]) == Map(f, s[..l] + [y] + s[l..]) <==> Alike(f, texts, x, y)
  {
    AlikeByPlace(f, texts, k, x, l, y);
    hide Sorted, Belongs, Alike;
    var s := Sorted(texts);
    MapInserted(f, s, k, x);
    MapInserted(f, s, l, y);
    InsertedAlike(Map(f, s), k, f(x), l, f(y));
    assert forall i :: k <= i < l ==> Map(f, s)[i] == f(s[i]);
  }

  lemma MapInserted(f: string -> Normal, s: seq<string>, k: nat, x: string)
    requires k <= |s|
    ensures Map(f, s[..k] + [x] + s[k..]) == Map(f, s)[..k] + [f(x)] + Map(f, s)[k..]
  {
  }

  lemma AlikeByPlace(f: string -> Normal, texts: set<string>, k: nat, x: string, l: nat, y: string)
    requires x !in texts && y !in texts
    requires k <= l && Belongs(Sorted(texts), k, x) && Belongs(Sorted(texts), l, y)
    ensures Alike(f, texts, x, y) <==> f(x) == f(y) && forall i :: k <= i < l ==> f(Sorted(texts)[i]) == f(x)
  {
    BetweenIsInside(texts, k, x, l, y);
    var s := Sorted(texts);
    hide Sorted, Between, Belongs;
    if Alike(f, texts, x, y) {
      forall i | k <= i < l ensures f(s[i]) == f(x) {
        assert s[i] in texts && Between(x, s[i], y);
      }
    } else if forall i :: k <= i < l ==> f(s[i]) == f(x) {
      forall t | t in texts && Between(x, t, y) ensures f(t) == f(x) {
        var i :| 0 <= i < |s| && s[i] == t;
      }
    }
  }

  lemma AlikeIsEven(f: string -> Normal, texts: set<string>, x: string, y: string)
    ensures Alike(f, texts, x, y) <==> Alike(f, texts, y, x)
  {
    BetweenIsEven(x, y);
    hide Between;
  }

  lemma BetweenIsEven(x: string, y: string)
    ensures forall t :: Between(x, t, y) <==> Between(y, t, x)
  {
  }

  lemma BetweenIsInside(texts: set<string>, k: nat, x: string, l: nat, y: string)
    requires k <= l && Belongs(Sorted(texts), k, x) && Belongs(Sorted(texts), l, y)
    ensures var s := Sorted(texts); forall i :: 0 <= i < |s| ==> (k <= i < l <==> Between(x, s[i], y))
    ensures forall t :: t in texts <==> t in Sorted(texts)
  {
    hide Less, Sorted;
    var s := Sorted(texts);
    forall i | 0 <= i < |s| ensures k <= i < l <==> Between(x, s[i], y) {
      LessIsStrict(x, s[i]);
      LessIsStrict(y, s[i]);
    }
  }

  // What `json.dumps` gives for an item, if anything.
  ghost function DumpOf(lib: Library, raw: Raw): (text: Option<string>) {
    var v := Prepare(lib, raw);
    if v.None? || !Dumpable(v.value) then None else Some(Dump(v.value))
  }

  ghost predicate AllDumped(lib: Library, items: seq<Raw>) {
    forall x :: x in items ==> DumpOf(lib, x).Some?
  }

  ghost function DumpSet(lib: Library, items: seq<Raw>): (texts: set<string>)
    requires AllDumped(lib, items)
  {
    set x | x in items :: DumpOf(lib, x).value
  }

  // The normal form of what a dump loads as.
  ghost function Loaded(lib: Library): (f: string -> Normal) {
    (t: string) => if Loadable(t) then Form(lib, Load(t)) else Null
  }

  lemma LoadedForm(lib: Library, raw: Raw)
    requires DumpOf(lib, raw).Some?
    ensures Normalize(lib, raw) == Some(Loaded(lib)(DumpOf(lib, raw).value))
  {
    LoadUndoesDump(Prepare(lib, raw).value);
  }

  lemma SetForm(lib: Library, key: string, items: seq<Raw>)
    requires lib.nfc(key) in SET_KEYS
    ensures MemberForm(lib, Member(TextKey(key), RawList(items)))
         == if AllDumped(lib, items) then Some(Array(Map(Loaded(lib), Sorted(DumpSet(lib, items))))) else None
  {
    ItemsArePrepared(lib, items);
    hide Sorted, Dump, Dumpable, PrepareItems;
    var m, v := Member(TextKey(key), RawList(items)), PrepareItems(lib, items);
    if v.Some? {
      assert AllDumped(lib, items) <==> AllDumpable(v.value) by {
        if AllDumpable(v.value) {
          forall x | x in items ensures DumpOf(lib, x).Some? {
            var i :| 0 <= i < |items| && items[i] == x;
            assert v.value[i] in v.value;
          }
        } else {
          var w :| w in v.value && !Dumpable(w);
          var i :| 0 <= i < |items| && v.value[i] == w;
          assert items[i] in items && DumpOf(lib, items[i]).None?;
        }
      }
      if AllDumpable(v.value) {
        SetFormsLoaded(lib, items, v.value);
        assert PrepareMember(lib, m) == Some(ListValue(SetItems(v.value).value));
        assert Form(lib, ListValue(SetItems(v.value).value)) == Array(Forms(lib, SetItems(v.value).value));
      } else {
        NotDumped(v.value);
        assert PrepareMember(lib, m) == None;
      }
    } else {
      assert PrepareMember(lib, m) == None;
      var i :| 0 <= i < |items| && Prepare(lib, items[i]).None?;
      assert items[i] in items && DumpOf(lib, items[i]).None?;
    }
  }

  lemma SetFormsLoaded(lib: Library, items: seq<Raw>, values: seq<Value>)
    requires |items| == |values| && forall i :: 0 <= i < |items| ==> Prepare(lib, items[i]) == Some(values[i])
    requires AllDumpable(values) && AllDumped(lib, items)
    ensures Forms(lib, SetItems(values).value) == Map(Loaded(lib), Sorted(DumpSet(lib, items)))
  {
    hide Sorted, Dump, Dumpable, Prepare, Form;
    forall t ensures t in Dumps(values) <==> t in DumpSet(lib, items) {
      if t in Dumps(values) {
        var i :| 0 <= i < |values| && Dump(values[i]) == t;
        assert items[i] in items && DumpOf(lib, items[i]) == Some(t);
      }
      if t in DumpSet(lib, items) {
        var i :| 0 <= i < |items| && DumpOf(lib, items[i]) == Some(t);
        assert values[i] in values;
      }
    }
    assert Dumps(values) == DumpSet(lib, items);
    DumpsLoad(values);
  }

  // One item cannot be told from another beside these: both or neither are there already, and if neither
  // is, their bytes are equal and so are those of every item whose dump lies between.
  ghost predicate Unseen(lib: Library, others: seq<Raw>, a: Raw, b: Raw)
    requires AllDumped(lib, others)
  {
    var x, y := DumpOf(lib, a), DumpOf(lib, b);
    if x.None? || y.None? then x == y
    else if x.value in DumpSet(lib, others) || y.value in DumpSet(lib, others) then
      x.value in DumpSet(lib, others) && y.value in DumpSet(lib, others)
    else
      && CanonicalJson(lib, a) == CanonicalJson(lib, b)
      && forall o :: o in others && Between(x.value, DumpOf(lib, o).value, y.value) ==>
           CanonicalJson(lib, o) == CanonicalJson(lib, a)
  }

  lemma UnseenIsAlike(lib: Library, others: seq<Raw>, a: Raw, b: Raw)
    requires AllDumped(lib, others) && DumpOf(lib, a).Some? && DumpOf(lib, b).Some?
    ensures Unseen(lib, others, a, b)
       <==> Alike(Loaded(lib), DumpSet(lib, others), DumpOf(lib, a).value, DumpOf(lib, b).value)
  {
    LoadedForm(lib, a);
    LoadedForm(lib, b);
    CanonicalJsonIsInjective(lib, a, b);
    forall o | o in others
      ensures Normalize(lib, o) == Some(Loaded(lib)(DumpOf(lib, o).value))
      ensures CanonicalJson(lib, o) == CanonicalJson(lib, a) <==> Normalize(lib, o) == Normalize(lib, a)
    {
      LoadedForm(lib, o);
      CanonicalJsonIsInjective(lib, o, a);
    }
    hide DumpOf, Loaded, CanonicalJson, Normalize, Between;
  }

  lemma DumpBeside(lib: Library, l: seq<Raw>, a: Raw, r: seq<Raw>)
    ensures AllDumped(lib, l + [a] + r) <==> AllDumped(lib, l + r) && DumpOf(lib, a).Some?
    ensures AllDumped(lib, l + [a] + r) ==> DumpSet(lib, l + [a] + r) == DumpSet(lib, l + r) + {DumpOf(lib, a).value}
  {
    hide DumpOf;
    assert forall x :: x in l + [a] + r <==> x == a || x in l + r;
  }

  // Replacing an item under a set key is told exactly by the dumps: the lists' forms are equal if and
  // only if some other item cannot be dumped, or the two items cannot be told apart beside the others.
  lemma SetItemIsTold(lib: Library, key: string, l: seq<Raw>, a: Raw, b: Raw, r: seq<Raw>)
    requires lib.nfc(key) in SET_KEYS
    ensures MemberForm(lib, Member(TextKey(key), RawList(l + [a] + r)))
         == MemberForm(lib, Member(TextKey(key), RawList(l + [b] + r)))
       <==> !AllDumped(lib, l + r) || Unseen(lib, l + r, a, b)
  {
    SetForm(lib, key, l + [a] + r);
    SetForm(lib, key, l + [b] + r);
    DumpBeside(lib, l, a, r);
    DumpBeside(lib, l, b, r);
    hide MemberForm, DumpOf, Sorted, AllDumped, DumpSet;
    if AllDumped(lib, l + r) && DumpOf(lib, a).Some? && DumpOf(lib, b).Some? {
      UnseenIsAlike(lib, l + r, a, b);
      ExchangedText(Loaded(lib), DumpSet(lib, l + r), DumpOf(lib, a).value, DumpOf(lib, b).value);
    }
  }

  // The same of the bytes of a value that holds the object anywhere outside other set keys.
  lemma SetItemMayBeReplaced(
    lib: Library, raw: Raw, positions: seq<nat>,
    p: seq<Member>, key: string, l: seq<Raw>, a: Raw, b: Raw, r: seq<Raw>, q: seq<Member>)
    requires lib.nfc(key) in SET_KEYS && Outside(lib, raw, positions, RawMapping([]))
    ensures CanonicalJson(lib, Put(raw, positions, RawMapping(p + [Member(TextKey(key), RawList(l + [a] + r))] + q)))
         == CanonicalJson(lib, Put(raw, positions, RawMapping(p + [Member(TextKey(key), RawList(l + [b] + r))] + q)))
       <==> || Idle(lib, raw, positions)
            || BesideFails(lib, p, TextKey(key), q)
            || !AllDumped(lib, l + r)
            || Unseen(lib, l + r, a, b)
  {
    var x := RawMapping(p + [Member(TextKey(key), RawList(l + [a] + r))] + q);
    var y := RawMapping(p + [Member(TextKey(key), RawList(l + [b] + r))] + q);
    hide CanonicalJson, Normalize, Put, Idle, MemberForm, BesideFails, AllDumped, Unseen;
    OutsideOfKind(lib, raw, positions, RawMapping([]), x);
    OutsideOfKind(lib, raw, positions, RawMapping([]), y);
    EqualsMayBeReplaced(lib, raw, positions, x, y);
    CanonicalJsonIsInjective(lib, x, y);
    MemberIsTold(lib, p, TextKey(key), RawList(l + [a] + r), RawList(l + [b] + r), q);
    SetItemIsTold(lib, key, l, a, b, r);
  }

  lemma {:induction false} OutsideOfKind(lib: Library, raw: Raw, positions: seq<nat>, v: Raw, w: Raw)
    requires v.RawList? == w.RawList?
    ensures Outside(lib, raw, positions, v) <==> Outside(lib, raw, positions, w)
    decreases |positions|
  {
    if positions != [] {
      var i, rest := positions[0], positions[1..];
      if raw.RawList? && i < |raw.items| {
        OutsideOfKind(lib, raw.items[i], rest, v, w);
      } else if raw.RawMapping? && i < |raw.members| {
        OutsideOfKind(lib, raw.members[i].value, rest, v, w);
      }
    }
  }

  // ---------------------------------------------------------------- reorderings at any depth

  // One object is another but for the order and multiplicity of a list under a set key.
  ghost predicate SetReordered(
    lib: Library, a: Raw, b: Raw, p: seq<Member>, key: string, x: seq<Raw>, y: seq<Raw>, q: seq<Member>)
  {
    && lib.nfc(key) in SET_KEYS && PreparedSet(lib, x) == PreparedSet(lib, y)
    && a == RawMapping(p + [Member(TextKey(key), RawList(x))] + q)
    && b == RawMapping(p + [Member(TextKey(key), RawList(y))] + q)
  }

  // One object is another but for the order of its feature constraints.
  ghost predicate ConstraintsReordered(
    lib: Library, a: Raw, b: Raw, p: seq<Member>, key: string, x: seq<Raw>, y: seq<Raw>, q: seq<Member>)
  {
    && lib.nfc(key) == CONSTRAINTS_KEY && multiset(x) == multiset(y)
    && a == RawMapping(p + [Member(TextKey(key), RawList(x))] + q)
    && b == RawMapping(p + [Member(TextKey(key), RawList(y))] + q)
  }

  ghost predicate MembersReordered(a: Raw, b: Raw) {
    a.RawMapping? && b.RawMapping? && multiset(a.members) == multiset(b.members)
  }

  // A reordering somewhere in a value.
  datatype Rewrite = Rewrite(context: Raw, positions: seq<nat>, from: Raw, into: Raw)

  // Sets may be reordered anywhere, members and constraints outside the lists under set keys.
  ghost predicate Reorders(lib: Library, r: Rewrite) {
    || (exists p, key, x, y, q :: SetReordered(lib, r.from, r.into, p, key, x, y, q))
    || (&& Outside(lib, r.context, r.positions, RawMapping([]))
        && (|| MembersReordered(r.from, r.into)
            || exists p, key, x, y, q :: ConstraintsReordered(lib, r.from, r.into, p, key, x, y, q)))
  }

  lemma ReorderingIsEqual(lib: Library, r: Rewrite)
    requires Reorders(lib, r)
    ensures CanonicalJson(lib, Put(r.context, r.positions, r.from))
         == CanonicalJson(lib, Put(r.context, r.positions, r.into))
  {
    var a, b := r.from, r.into;
    if p, key, x, y, q :| SetReordered(lib, a, b, p, key, x, y, q) {
      SetsIgnoreOrderAndMultiplicity(lib, p, key, x, y, q);
      PreparedMayBeReplaced(lib, r.context, r.positions, a, b);
    } else {
      hide CanonicalJson, Outside, Put;
      OutsideOfKind(lib, r.context, r.positions, RawMapping([]), a);
      OutsideOfKind(lib, r.context, r.positions, RawMapping([]), b);
      if MembersReordered(a, b) {
        KeyOrderIsIrrelevant(lib, a.members, b.members);
      } else {
        var p, key, x, y, q :| ConstraintsReordered(lib, a, b, p, key, x, y, q);
        ConstraintsIgnoreOrder(lib, p, key, x, y, q);
      }
      EqualsMayBeReplaced(lib, r.context, r.positions, a, b);
    }
  }

  ghost predicate Rewrites(lib: Library, a: Raw, rewrites: seq<Rewrite>, b: Raw)
    decreases |rewrites|
  {
    if rewrites == [] then a == b
    else
      var r := rewrites[0];
      && Reorders(lib, r) && a == Put(r.context, r.positions, r.from)
      && Rewrites(lib, Put(r.context, r.positions, r.into), rewrites[1..], b)
  }

  // Canonical bytes do not depend on these orders, however deep and however many are changed.
  lemma {:induction false} ReorderingIsIrrelevant(lib: Library, a: Raw, rewrites: seq<Rewrite>, b: Raw)
    requires Rewrites(lib, a, rewrites, b)
    ensures CanonicalJson(lib, a) == CanonicalJson(lib, b)
    decreases |rewrites|
  {
    hide CanonicalJson, Reorders, Put;
    if rewrites != [] {
      var r := rewrites[0];
      ReorderingIsEqual(lib, r);
      ReorderingIsIrrelevant(lib, Put(r.context, r.positions, r.into), rewrites[1..], b);
    }
  }

  // ---------------------------------------------------------------- what a set key sees of equal bytes

  // Strings with equal bytes are the same after normalizing.
  lemma EqualTextsMayBeReplaced(lib: Library, raw: Raw, positions: seq<nat>, s: string, t: string)
    requires CanonicalJson(lib, RawText(s)) == CanonicalJson(lib, RawText(t))
    ensures CanonicalJson(lib, Put(raw, positions, RawText(s))) == CanonicalJson(lib, Put(raw, positions, RawText(t)))
  {
    CanonicalJsonIsInjective(lib, RawText(s), RawText(t));
    PreparedMayBeReplaced(lib, raw, positions, RawText(s), RawText(t));
  }

  function Facets(items: seq<Raw>): (raw: Raw) {
    RawMapping([Member(TextKey("facets"), RawList(items))])
  }

  lemma NothingBeside(lib: Library, key: string)
    ensures !BesideFails(lib, [], TextKey(key), [])
  {
    var none: seq<Member> := [];
    assert none + none == [];
  }

  lemma FacetIsTold(lib: Library, o: Raw, a: Raw, b: Raw)
    requires lib.nfc("facets") == "facets" && DumpOf(lib, o).Some?
    ensures AllDumped(lib, [o])
    ensures CanonicalJson(lib, Facets([o, a])) == CanonicalJson(lib, Facets([o, b])) <==> Unseen(lib, [o], a, b)
  {
    assert [] + [Member(TextKey("facets"), RawList([o, a]))] + [] == Facets([o, a]).members;
    assert [] + [Member(TextKey("facets"), RawList([o, b]))] + [] == Facets([o, b]).members;
    assert [o] + [a] + [] == [o, a] && [o] + [b] + [] == [o, b] && [o] + [] == [o];
    NothingBeside(lib, "facets");
    hide CanonicalJson, DumpOf, BesideFails, Unseen;
    SetItemMayBeReplaced(lib, RawNull, [], [], "facets", [o], a, b, [], []);
  }

  // 1 and 1.0 have equal bytes, and yet 1 beside 1 is one facet and 1.0 beside 1 are two.
  lemma NumberTypeIsSeen(lib: Library, float: FloatText)
    requires lib.nfc("facets") == "facets" && lib.decimal(float) == 1.0
    ensures CanonicalJson(lib, RawInt(1)) == CanonicalJson(lib, RawFloat(float))
    ensures CanonicalJson(lib, Facets([RawInt(1), RawInt(1)])) != CanonicalJson(lib, Facets([RawInt(1), RawFloat(float)]))
  {
    assert RoundHalfEven(1.0) == BILLION;
    FacetIsTold(lib, RawInt(1), RawInt(1), RawFloat(float));
    assert Prepare(lib, RawFloat(float)) == Some(FloatValue(float));
    DumpIsInjective(IntValue(1), FloatValue(float));
    hide Dump, CanonicalJson;
    assert DumpSet(lib, [RawInt(1)]) == {Dump(IntValue(1))};
  }

  function Counts(keys: seq<string>, numbers: seq<int>): (raw: Raw)
    requires |keys| == |numbers|
  {
    RawMapping(seq(|keys|, i requires 0 <= i < |keys| => Member(TextKey(keys[i]), RawInt(numbers[i]))))
  }

  ghost function CountSlots(keys: seq<string>, numbers: seq<int>): (slots: seq<Slot>)
    requires |keys| == |numbers|
  {
    seq(|keys|, i requires 0 <= i < |keys| => Slot(keys[i], IntValue(numbers[i])))
  }

  ghost predicate Plain(lib: Library, keys: seq<string>) {
    (forall k :: k in keys ==> lib.nfc(k) == k) && forall i, j :: 0 <= i < j < |keys| ==> keys[i] != keys[j]
  }

  lemma {:induction false} CountsPrepare(lib: Library, keys: seq<string>, numbers: seq<int>)
    requires |keys| == |numbers| && Plain(lib, keys)
    ensures PrepareMembers(lib, Counts(keys, numbers).members) == Some(CountSlots(keys, numbers))
  {
    hide SetItems, SortBy, Quantized;
    var members, slots := Counts(keys, numbers).members, CountSlots(keys, numbers);
    if keys != [] {
      var n := |keys| - 1;
      CountsPrepare(lib, keys[..n], numbers[..n]);
      assert members[..n] == Counts(keys[..n], numbers[..n]).members;
      assert slots == CountSlots(keys[..n], numbers[..n]) + [slots[n]];
      assert keys[n] in keys;
      assert PrepareMember(lib, members[n]) == Some(IntValue(numbers[n]));
      hide PrepareMember;
      assert forall i :: 0 <= i < n ==> slots[..n][i].key == keys[i];
      assert keys[n] !in SlotKeys(slots[..n]);
    }
  }

  lemma CountsNormalize(lib: Library, keys: seq<string>, numbers: seq<int>)
    requires |keys| == |numbers| && Plain(lib, keys)
    ensures Prepare(lib, Counts(keys, numbers)) == Some(DictValue(CountSlots(keys, numbers)))
    ensures var form := Normalize(lib, Counts(keys, numbers));
            form.Some? && form.value.Object? && forall k :: k in form.value.members <==> k in keys
  {
    CountsPrepare(lib, keys, numbers);
    CountKeys(keys, numbers);
    hide PrepareMembers, SlotForms, CountSlots, SlotKeys;
  }

  lemma CountKeys(keys: seq<string>, numbers: seq<int>)
    requires |keys| == |numbers|
    ensures forall k :: k in SlotKeys(CountSlots(keys, numbers)) <==> k in keys
  {
    var slots := CountSlots(keys, numbers);
    forall k | k in keys ensures k in SlotKeys(slots) {
      var i :| 0 <= i < |keys| && keys[i] == k;
      assert slots[i] in slots;
    }
  }

  // The dump of an object starts with its first key and number.
  ghost function Start(key: char, number: nat): (t: string)
    requires number < 10
  {
    ['{', '\"', key, '\"', ':', Digit(number)]
  }

  lemma CountsAreDumped(lib: Library, keys: seq<string>, numbers: seq<int>, key: char)
    requires 0 < |keys| == |numbers| && Plain(lib, keys)
    requires keys[0] == [key] && 'a' <= key <= 'z' && 0 <= numbers[0] < 10
    ensures DumpOf(lib, Counts(keys, numbers)).Some?
    ensures Start(key, numbers[0]) <= DumpOf(lib, Counts(keys, numbers)).value
  {
    CountsNormalize(lib, keys, numbers);
    hide Prepare, Normalize;
    var v := DictValue(CountSlots(keys, numbers));
    var entries := Spell(v).entries;
    assert entries[0].value == Spell(v.slots[0].value) && entries[0].key == [key];
    assert JsonText.Print(entries[0].value) == NumberText(numbers[0] * BILLION);
    KeyIsQuoted(key);
    WholeNumber(numbers[0]);
    hide JsonText.Quote, UnsignedText;
    assert Dump(v) == "{" + JsonText.PrintEntries(entries);
  }

  lemma KeyIsQuoted(key: char)
    requires 'a' <= key <= 'z'
    ensures JsonText.Quote([key]) == ['\"', key, '\"']
  {
    assert [key][1..] == [];
    assert JsonText.Rest([key]) == JsonText.Escaped(key) + JsonText.Rest([]);
  }

  lemma {:induction false} LessAt(x: string, y: string, k: nat)
    requires k < |x| && k < |y| && x[..k] == y[..k] && x[k] < y[k]
    ensures Less(x, y)
    decreases k
  {
    if k > 0 {
      assert x[0] == x[..k][0] && y[0] == y[..k][0];
      assert x[1..][..k - 1] == x[..k][1..] && y[1..][..k - 1] == y[..k][1..];
      LessAt(x[1..], y[1..], k - 1);
    }
  }

  lemma StartsAreOrdered(x: string, o: string, y: string)
    requires Start('b', 1) <= x && Start('a', 3) <= o && Start('a', 2) <= y
    ensures Less(y, o) && Less(o, x)
  {
    var s, t, u := Start('b', 1), Start('a', 3), Start('a', 2);
    assert x[2] == s[2] && x[..2] == s[..2];
    assert o[2] == t[2] && o[..2] == t[..2] && o[5] == t[5] && o[..5] == t[..5];
    assert y[5] == u[5] && y[..5] == u[..5];
    assert s[..2] == t[..2] && t[..5] == u[..5];
    hide Less;
    LessAt(o, x, 2);
    LessAt(y, o, 5);
  }

  // Two objects that differ in the order of their entries have equal bytes, and yet come on different
  // sides of another facet.
  lemma EntryOrderIsSeen(lib: Library)
    requires Plain(lib, ["a", "b"]) && lib.nfc("facets") == "facets"
    ensures var o, x, y := Counts(["a"], [3]), Counts(["b", "a"], [1, 2]), Counts(["a", "b"], [2, 1]);
            && CanonicalJson(lib, x) == CanonicalJson(lib, y)
            && CanonicalJson(lib, Facets([o, x])) != CanonicalJson(lib, Facets([o, y]))
  {
    var o, x, y := Counts(["a"], [3]), Counts(["b", "a"], [1, 2]), Counts(["a", "b"], [2, 1]);
    assert lib.nfc("a") == "a" && lib.nfc("b") == "b" by { assert "a" == ["a", "b"][0] && "b" == ["a", "b"][1]; }
    SameCounts(lib);
    CountsAreDumped(lib, ["a"], [3], 'a');
    CountsAreDumped(lib, ["b", "a"], [1, 2], 'b');
    CountsAreDumped(lib, ["a", "b"], [2, 1], 'a');
    FacetIsTold(lib, o, x, y);
    hide Counts, DumpOf, Start, Facets, CanonicalJson, Unseen;
    StartsAreOrdered(DumpOf(lib, x).value, DumpOf(lib, o).value, DumpOf(lib, y).value);
    SplitIsSeen(lib, o, x, y);
  }

  // An item between two others tells them apart, unless its bytes are the same too.
  lemma SplitIsSeen(lib: Library, o: Raw, x: Raw, y: Raw)
    requires DumpOf(lib, o).Some? && DumpOf(lib, x).Some? && DumpOf(lib, y).Some?
    requires Between(DumpOf(lib, x).value, DumpOf(lib, o).value, DumpOf(lib, y).value)
    requires CanonicalJson(lib, o) != CanonicalJson(lib, x)
    ensures AllDumped(lib, [o]) && !Unseen(lib, [o], x, y)
  {
    hide DumpOf, Less, CanonicalJson;
    var s, t, u := DumpOf(lib, x).value, DumpOf(lib, o).value, DumpOf(lib, y).value;
    LessIsStrict(s, t);
    LessIsStrict(t, u);
    assert o in [o] && DumpSet(lib, [o]) == {t};
  }

  // The two objects, and a third that is not like them.
  lemma SameCounts(lib: Library)
    requires lib.nfc("a") == "a" && lib.nfc("b") == "b"
    ensures CanonicalJson(lib, Counts(["b", "a"], [1, 2])) == CanonicalJson(lib, Counts(["a", "b"], [2, 1]))
    ensures CanonicalJson(lib, Counts(["b", "a"], [1, 2])) != CanonicalJson(lib, Counts(["a"], [3]))
  {
    var o, x, y := Counts(["a"], [3]), Counts(["b", "a"], [1, 2]), Counts(["a", "b"], [2, 1]);
    var a, b := Member(TextKey("a"), RawInt(2)), Member(TextKey("b"), RawInt(1));
    assert x.members == [b, a] && y.members == [a, b];
    hide Prepare, Normalize, CanonicalJson;
    KeyOrderIsIrrelevant(lib, x.members, y.members);
    CountsNormalize(lib, ["a"], [3]);
    CountsNormalize(lib, ["b", "a"], [1, 2]);
    CanonicalJsonIsInjective(lib, x, o);
    hide Normalize, CanonicalJson;
    assert "b" in ["b", "a"] && "b" !in ["a"];
  }
}
