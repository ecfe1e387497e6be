/** Canonical JSON: the normal form of a Python value, and what its bytes do not depend on. */
module Canonical {
  import opened Wrappers
  import opened CanonicalText
  import JsonText

  // How Python spells a finite float, which is never how it spells an int.
  type FloatText = s: string | SpellsFloat(s) witness "0.0"

  predicate SpellsFloat(s: string) {
    JsonText.SpellsNumber(s) && ('.' in s || 'e' in s)
  }

  // A Python value.  A mapping lists its members in order; its keys are different.
  datatype Raw =
    | RawNull
    | RawBool(value: bool)
    | RawInt(number: int)
    | RawFloat(spelling: FloatText)
    | RawDecimal(exact: real)    // a finite Decimal
    | RawNotFinite
    | RawText(text: string)
    | RawList(items: seq<Raw>)
    | RawMapping(members: seq<Member>)
    | RawUnsupported

  datatype Member = Member(key: Key, value: Raw)

  datatype Key = TextKey(text: string) | OtherKey

  // A value after normalizing: still a Python value, whose entries have an order and whose numbers a type.
  datatype Value =
    | NullValue
    | BoolValue(value: bool)
    | IntValue(number: int)
    | FloatValue(spelling: FloatText)
    | DecimalValue(exact: real)
    | TextValue(text: string)
    | ListValue(items: seq<Value>)
    | DictValue(slots: seq<Slot>)

  datatype Slot = Slot(key: string, value: Value)

  // Quantizing needs a coefficient of at most 28 digits.
  const COEFFICIENT_LIMIT: int := 10_000_000_000_000_000_000_000_000_000

  const SET_KEYS: set<string> := {"facets", "required_projection_ids"}
  const CONSTRAINTS_KEY := "feature_constraints"

  // Unicode normalization form C, and the number that a float's spelling stands for.
  datatype Library = Library(nfc: string -> string, decimal: FloatText -> real)

  // ---------------------------------------------------------------- rounding

  // The nearest billionth, halves to even.
  function RoundHalfEven(x: real): (n: int)
    ensures -0.5 <= x * BILLION as real - n as real <= 0.5
    ensures x * BILLION as real - n as real in {-0.5, 0.5} ==> n % 2 == 0
  {
    var scaled := x * BILLION as real;
    var low := scaled.Floor;
    var over := scaled - low as real;
    if over < 0.5 || (over == 0.5 && low % 2 == 0) then low else low + 1
  }

  // ---------------------------------------------------------------- json.dumps and json.loads

  // A Decimal cannot be dumped.
  ghost predicate Dumpable(v: Value) {
    match v
    case DecimalValue(_) => false
    case ListValue(items) => forall i :: i in items ==> Dumpable(i)
    case DictValue(slots) => forall s :: s in slots ==> Dumpable(s.value)
    case _ => true
  }

  // What a dump spells out: numbers as Python writes them, entries in their order.
  ghost function Spell(v: Value): (j: JsonText.Json)
    requires Dumpable(v)
    ensures JsonText.Spelled(j)
  {
    match v
    case NullValue => JsonText.Null
    case BoolValue(b) => JsonText.Bool(b)
    case IntValue(n) =>
      NumberSpells(n * BILLION);
      JsonText.Number(NumberText(n * BILLION))
    case FloatValue(s) => JsonText.Number(s)
    case TextValue(s) => JsonText.Text(s)
    case ListValue(items) => JsonText.Array(seq(|items|, i requires 0 <= i < |items| => Spell(items[i])))
    case DictValue(slots) =>
      JsonText.Object(seq(|slots|, i requires 0 <= i < |slots| => JsonText.Entry(slots[i].key, Spell(slots[i].value))))
  }

  ghost function Dump(v: Value): (t: string)
    requires Dumpable(v)
  {
    JsonText.Print(Spell(v))
  }

  ghost predicate IsDump(v: Value, t: string) {
    Dumpable(v) && Dump(v) == t
  }

  lemma WholeNumber(u: nat)
    ensures UnsignedText(u * BILLION) == Digits(u)
  {
    hide Digits;
    var n := u * BILLION;
    assert n / BILLION == u && n % BILLION == 0;
  }

  // An int is spelled without a point and without an exponent.
  lemma IntHasNoPoint(n: int)
    ensures !SpellsFloat(NumberText(n * BILLION))
  {
    hide UnsignedText;
    var u := if n < 0 then -n else n;
    WholeNumber(u);
    assert n < 0 ==> -(n * BILLION) == u * BILLION && n * BILLION < 0;
    assert n >= 0 ==> n * BILLION >= 0;
    assert forall c :: c in Digits(u) ==> JsonText.IsDigit(c);
  }

  lemma {:induction false} SpellIsInjective(v: Value, w: Value)
    requires Dumpable(v) && Dumpable(w) && Spell(v) == Spell(w)
    ensures v == w
  {
    match v
    case IntValue(n) =>
      assert w.IntValue? by { IntHasNoPoint(n); }
      assert NumberText(n * BILLION) + [] == NumberText(w.number * BILLION) + [];
      NumberIsReadable(n * BILLION, w.number * BILLION, [], []);
    case FloatValue(_) =>
      if w.IntValue? { IntHasNoPoint(w.number); }
    case ListValue(items) =>
      var x, y := Spell(v).items, Spell(w).items;
      forall i | 0 <= i < |items| ensures items[i] == w.items[i] {
        assert x[i] == Spell(items[i]) && y[i] == Spell(w.items[i]);
        SpellIsInjective(items[i], w.items[i]);
      }
    case DictValue(slots) =>
      var x, y := Spell(v).entries, Spell(w).entries;
      forall i | 0 <= i < |slots| ensures slots[i] == w.slots[i] {
        assert x[i] == JsonText.Entry(slots[i].key, Spell(slots[i].value));
        assert y[i] == JsonText.Entry(w.slots[i].key, Spell(w.slots[i].value));
        SpellIsInjective(slots[i].value, w.slots[i].value);
      }
    case _ =>
  }

  // A dump tells its value: int from float, one order of entries from another.
  lemma DumpIsInjective(v: Value, w: Value)
    requires Dumpable(v) && Dumpable(w)
    ensures Dump(v) == Dump(w) <==> v == w
  {
    if Dump(v) == Dump(w) {
      JsonText.PrintIsInjective(Spell(v), Spell(w));
      SpellIsInjective(v, w);
    }
  }

  ghost predicate Loadable(t: string) {
    exists v :: IsDump(v, t)
  }

  ghost function Load(t: string): (v: Value)
    requires Loadable(t)
    ensures IsDump(v, t)
  {
    var v :| IsDump(v, t);
    v
  }

  lemma LoadUndoesDump(v: Value)
    requires Dumpable(v)
    ensures IsDump(v, Dump(v)) && Load(Dump(v)) == v
  {
    assert IsDump(v, Dump(v));
    DumpIsInjective(Load(Dump(v)), v);
  }

  // ---------------------------------------------------------------- sets and sorted lists

  ghost predicate AllDumpable(items: seq<Value>) {
    forall v :: v in items ==> Dumpable(v)
  }

  ghost function Dumps(items: seq<Value>): (texts: set<string>)
    requires AllDumpable(items)
  {
    set v | v in items :: Dump(v)
  }

  ghost predicate AllLoadable(texts: seq<string>) {
    forall i :: 0 <= i < |texts| ==> Loadable(texts[i])
  }

  ghost function LoadAll(texts: seq<string>): (items: seq<Value>)
    requires AllLoadable(texts)
    ensures |items| == |texts| && forall i :: 0 <= i < |items| ==> items[i] == Load(texts[i])
  {
    seq(|texts|, i requires 0 <= i < |texts| => Load(texts[i]))
  }

  lemma DumpsLoad(items: seq<Value>)
    requires AllDumpable(items)
    ensures AllLoadable(Sorted(Dumps(items)))
  {
    forall t | t in Sorted(Dumps(items)) ensures Loadable(t) {
      var v :| v in items && Dump(v) == t;
      assert IsDump(v, t);
    }
  }

  // A list under a set key: dumped, without duplicates, in the order of the dumps, and loaded again.
  ghost function SetItems(items: seq<Value>): (result: Option<seq<Value>>) {
    if AllDumpable(items) then
      DumpsLoad(items);
      Some(LoadAll(Sorted(Dumps(items))))
    else None
  }

  // Stable insertion by a text.
  ghost function InsertBy<T>(key: T -> string, v: T, sorted: seq<T>): (result: seq<T>) {
    if sorted == [] || Less(key(v), key(sorted[0])) then [v] + sorted
    else [sorted[0]] + InsertBy(key, v, sorted[1..])
  }

  ghost function SortBy<T>(key: T -> string, items: seq<T>): (result: seq<T>) {
    if items == [] then [] else InsertBy(key, items[|items| - 1], SortBy(key, items[..|items| - 1]))
  }

  // ---------------------------------------------------------------- normal forms

  // What the text of a value stands for.
  ghost function Form(lib: Library, v: Value): (form: Normal)
    decreases v, 0
  {
    match v
    case NullValue => Null
    case BoolValue(b) => Bool(b)
    case IntValue(n) => Number(n * BILLION)
    case FloatValue(s) => Number(RoundHalfEven(lib.decimal(s)))
    case DecimalValue(x) => Number(RoundHalfEven(x))
    case TextValue(s) => Text(s)
    case ListValue(items) => Array(Forms(lib, items))
    case DictValue(slots) => Object(SlotForms(lib, slots))
  }

  ghost function Forms(lib: Library, items: seq<Value>): (forms: seq<Normal>)
    ensures |forms| == |items| && forall i :: 0 <= i < |items| ==> forms[i] == Form(lib, items[i])
    decreases items, 1
  {
    seq(|items|, i requires 0 <= i < |items| => Form(lib, items[i]))
  }

  ghost function SlotForms(lib: Library, slots: seq<Slot>): (forms: map<string, Normal>)
    ensures forms.Keys == SlotKeys(slots)
    decreases slots, 1
  {
    if slots == [] then map[]
    else
      var n := |slots| - 1;
      SlotForms(lib, slots[..n])[slots[n].key := SlotForm(lib, slots[n])]
  }

  ghost function SlotForm(lib: Library, slot: Slot): (form: Normal)
    decreases slot, 1
  {
    Form(lib, slot.value)
  }

  ghost function SlotKeys(slots: seq<Slot>): (keys: set<string>) {
    set s | s in slots :: s.key
  }

  ghost function TextOf(lib: Library): (key: Value -> string) {
    v => Encode(Form(lib, v))
  }

  // What the special keys of an object do to their lists.
  ghost function Special(lib: Library, key: string, v: Value): (result: Option<Value>) {
    if !v.ListValue? then Some(v)
    else if key in SET_KEYS then
      var items := SetItems(v.items);
      if items.None? then None else Some(ListValue(items.value))
    else if key == CONSTRAINTS_KEY then Some(ListValue(SortBy(TextOf(lib), v.items)))
    else Some(v)
  }

  ghost function Quantized(lib: Library, v: Value): (result: Option<Value>)
    requires v.FloatValue? || v.DecimalValue?
  {
    if -COEFFICIENT_LIMIT < Form(lib, v).billionths < COEFFICIENT_LIMIT then Some(v) else None
  }

  // The value after normalizing; None when an exception is raised.
  ghost function Prepare(lib: Library, raw: Raw): (v: Option<Value>)
    decreases raw, 0
  {
    match raw
    case RawNull => Some(NullValue)
    case RawBool(b) => Some(BoolValue(b))
    case RawInt(n) => Some(IntValue(n))
    case RawFloat(s) => Quantized(lib, FloatValue(s))
    case RawDecimal(x) => Quantized(lib, DecimalValue(x))
    case RawText(s) => Some(TextValue(lib.nfc(s)))
    case RawList(items) =>
      var values := PrepareItems(lib, items);
      if values.None? then None else Some(ListValue(values.value))
    case RawMapping(members) =>
      var slots := PrepareMembers(lib, members);
      if slots.None? then None else Some(DictValue(slots.value))
    case _ => None
  }

  ghost function PrepareItems(lib: Library, items: seq<Raw>): (v: Option<seq<Value>>)
    decreases items, 1
  {
    if items == [] then Some([])
    else
      var n := |items| - 1;
      var init, last := PrepareItems(lib, items[..n]), Prepare(lib, items[n]);
      if init.None? || last.None? then None else Some(init.value + [last.value])
  }

  // The members, under their normalized keys, which must not collide.
  ghost function PrepareMembers(lib: Library, members: seq<Member>): (v: Option<seq<Slot>>)
    decreases members, 1
  {
    if members == [] then Some([])
    else
      var n := |members| - 1;
      AddSlot(lib, PrepareMembers(lib, members[..n]), members[n].key, PrepareMember(lib, members[n]))
  }

  ghost function AddSlot(lib: Library, before: Option<seq<Slot>>, key: Key, v: Option<Value>): (after: Option<seq<Slot>>) {
    if before.None? || v.None? || key.OtherKey? || lib.nfc(key.text) in SlotKeys(before.value) then None
    else Some(before.value + [Slot(lib.nfc(key.text), v.value)])
  }

  ghost function PrepareMember(lib: Library, m: Member): (v: Option<Value>)
    decreases m, 1
  {
    var v := Prepare(lib, m.value);
    if v.None? || m.key.OtherKey? then None else Special(lib, lib.nfc(m.key.text), v.value)
  }

  ghost function Normalize(lib: Library, raw: Raw): (form: Option<Normal>) {
    FormOf(lib, Prepare(lib, raw))
  }

  ghost function FormOf(lib: Library, v: Option<Value>): (form: Option<Normal>) {
    if v.None? then None else Some(Form(lib, v.value))
  }

  // Canonical JSON: the text of the normal form.
  ghost function CanonicalJson(lib: Library, raw: Raw): (t: Option<string>) {
    var form := Normalize(lib, raw);
    if form.None? then None else Some(Encode(form.value))
  }

  // Two values have equal bytes exactly when their normal forms are equal.
  lemma CanonicalJsonIsInjective(lib: Library, a: Raw, b: Raw)
    ensures CanonicalJson(lib, a) == CanonicalJson(lib, b) <==> Normalize(lib, a) == Normalize(lib, b)
  {
    if Normalize(lib, a).Some? && Normalize(lib, b).Some? {
      EncodeIsInjective(Normalize(lib, a).value, Normalize(lib, b).value);
    }
  }

  // ---------------------------------------------------------------- folds whose steps commute

  ghost function Fold<A, B>(step: (A, B) -> A, init: A, s: seq<B>): (a: A) {
    if s == [] then init else step(Fold(step, init, s[..|s| - 1]), s[|s| - 1])
  }

  ghost predicate Commutes<A(!new), B(!new)>(step: (A, B) -> A) {
    forall a, x, y :: step(step(a, x), y) == step(step(a, y), x)
  }

  lemma {:induction false} MoveToEnd<A(!new), B(!new)>(step: (A, B) -> A, init: A, p: seq<B>, x: B, q: seq<B>)
    requires Commutes(step)
    ensures Fold(step, init, p + [x] + q) == Fold(step, init, p + q + [x])
    decreases |q|
  {
    if q == [] {
      assert p + [x] + q == p + q + [x];
    } else {
      var n := |q| - 1;
      var y := q[n];
      assert (p + [x] + q)[..|p| + 1 + n] == p + [x] + q[..n];
      assert (p + q[..n] + [x] + [y])[..|p| + n + 1] == p + q[..n] + [x];
      assert (p + q[..n] + [x])[..|p| + n] == p + q[..n];
      assert (p + q + [x])[..|p| + |q|] == p + q;
      assert (p + q)[..|p| + n] == p + q[..n];
      MoveToEnd(step, init, p, x, q[..n]);
    }
  }

  lemma Without<B>(t: seq<B>, i: nat)
    requires i < |t|
    ensures multiset(t) == multiset(t[..i] + t[i + 1..]) + multiset{t[i]}
  {
    assert t == t[..i] + [t[i]] + t[i + 1..];
  }

  lemma {:induction false} FoldPermutes<A(!new), B(!new)>(step: (A, B) -> A, init: A, s: seq<B>, t: seq<B>)
    requires Commutes(step) && multiset(s) == multiset(t)
    ensures Fold(step, init, s) == Fold(step, init, t)
  {
    if s == [] {
      assert |multiset(t)| == |t|;
    } else {
      var n := |s| - 1;
      assert s == s[..n] + [s[n]];
      assert s[n] in multiset(t);
      var i :| 0 <= i < |t| && t[i] == s[n];
      var rest := t[..i] + t[i + 1..];
      assert t == t[..i] + [t[i]] + t[i + 1..];
      hide Commutes;
      MoveToEnd(step, init, t[..i], t[i], t[i + 1..]);
      Without(t, i);
      Without(s, n);
      assert s[..n] + s[n + 1..] == s[..n];
      assert multiset(s[..n]) == multiset(s) - multiset{s[n]};
      assert multiset(rest) == multiset(t) - multiset{s[n]};
      FoldPermutes(step, init, s[..n], rest);
      assert (rest + [t[i]])[..|rest|] == rest;
    }
  }

  // ---------------------------------------------------------------- the order of object keys

  // The normal form of an object's members.
  ghost function NormalMembers(lib: Library, members: seq<Member>): (forms: Option<map<string, Normal>>) {
    var slots := PrepareMembers(lib, members);
    if slots.None? then None else Some(SlotForms(lib, slots.value))
  }

  ghost function AddForm(lib: Library, before: Option<map<string, Normal>>, key: Key, form: Option<Normal>)
    : (after: Option<map<string, Normal>>)
  {
    if before.None? || form.None? || key.OtherKey? || lib.nfc(key.text) in before.value then None
    else Some(before.value[lib.nfc(key.text) := form.value])
  }

  ghost function MemberForm(lib: Library, m: Member): (form: Option<Normal>) {
    FormOf(lib, PrepareMember(lib, m))
  }

  ghost function MemberStep(lib: Library): (step: (Option<map<string, Normal>>, Member) -> Option<map<string, Normal>>) {
    (before: Option<map<string, Normal>>, m: Member) => AddForm(lib, before, m.key, MemberForm(lib, m))
  }

  lemma MemberStepsCommute(lib: Library)
    ensures Commutes(MemberStep(lib))
  {
    hide MemberForm;
    var step := MemberStep(lib);
    forall a, x, y ensures step(step(a, x), y) == step(step(a, y), x) {
      var xy, yx := step(step(a, x), y), step(step(a, y), x);
      if xy.Some? && yx.Some? {
        assert xy.value == yx.value;
      }
    }
  }

  lemma LastMember(lib: Library, members: seq<Member>)
    requires members != []
    ensures var init, last := members[..|members| - 1], members[|members| - 1];
            NormalMembers(lib, members) == AddForm(lib, NormalMembers(lib, init), last.key, MemberForm(lib, last))
  {
    hide PrepareMember, Form;
    var n := |members| - 1;
    var before, v, key := PrepareMembers(lib, members[..n]), PrepareMember(lib, members[n]), members[n].key;
    var after := AddSlot(lib, before, key, v);
    assert PrepareMembers(lib, members) == after;
    if before.Some? && key.TextKey? {
      assert lib.nfc(key.text) in SlotForms(lib, before.value) <==> lib.nfc(key.text) in SlotKeys(before.value);
    }
    if after.Some? {
      var k := |before.value|;
      assert after.value[..k] == before.value && after.value[k] == Slot(lib.nfc(key.text), v.value);
      assert SlotForms(lib, after.value) == SlotForms(lib, before.value)[lib.nfc(key.text) := Form(lib, v.value)];
    }
  }

  lemma {:induction false} MembersAreAFold(lib: Library, members: seq<Member>)
    ensures NormalMembers(lib, members) == Fold(MemberStep(lib), Some(map[]), members)
  {
    hide AddForm, MemberForm;
    if members != [] {
      MembersAreAFold(lib, members[..|members| - 1]);
      hide NormalMembers;
      LastMember(lib, members);
    }
  }

  // Canonical bytes do not depend on the order of an object's members.
  lemma KeyOrderIsIrrelevant(lib: Library, a: seq<Member>, b: seq<Member>)
    requires multiset(a) == multiset(b)
    ensures CanonicalJson(lib, RawMapping(a)) == CanonicalJson(lib, RawMapping(b))
  {
    hide Encode;
    MemberStepsCommute(lib);
    MembersAreAFold(lib, a);
    MembersAreAFold(lib, b);
    FoldPermutes(MemberStep(lib), Some(map[]), a, b);
    MappingNormalizes(lib, a);
    MappingNormalizes(lib, b);
  }

  lemma MappingNormalizes(lib: Library, members: seq<Member>)
    ensures Normalize(lib, RawMapping(members))
         == match NormalMembers(lib, members)
            case None => None
            case Some(forms) => Some(Object(forms))
  {
    hide PrepareMembers, SlotForms;
  }

  // Any member may come last.
  lemma MemberAtEnd(lib: Library, p: seq<Member>, m: Member, q: seq<Member>)
    ensures NormalMembers(lib, p + [m] + q) == AddForm(lib, NormalMembers(lib, p + q), m.key, MemberForm(lib, m))
  {
    hide AddForm, MemberForm;
    MemberStepsCommute(lib);
    MembersAreAFold(lib, p + [m] + q);
    MembersAreAFold(lib, p + q);
    MoveToEnd(MemberStep(lib), Some(map[]), p, m, q);
    assert (p + q + [m])[..|p + q|] == p + q;
  }

  // The members beside a key have no normal form, or take the key.
  ghost predicate BesideFails(lib: Library, p: seq<Member>, key: Key, q: seq<Member>) {
    var beside := NormalMembers(lib, p + q);
    beside.None? || key.OtherKey? || lib.nfc(key.text) in beside.value
  }

  // A member's value is told exactly by its normal form.
  lemma MemberIsTold(lib: Library, p: seq<Member>, key: Key, a: Raw, b: Raw, q: seq<Member>)
    ensures Normalize(lib, RawMapping(p + [Member(key, a)] + q)) == Normalize(lib, RawMapping(p + [Member(key, b)] + q))
       <==> BesideFails(lib, p, key, q) || MemberForm(lib, Member(key, a)) == MemberForm(lib, Member(key, b))
  {
    var m, n := Member(key, a), Member(key, b);
    MappingNormalizes(lib, p + [m] + q);
    MappingNormalizes(lib, p + [n] + q);
    MemberAtEnd(lib, p, m, q);
    MemberAtEnd(lib, p, n, q);
    hide Normalize, MemberForm, NormalMembers;
    var x, y := NormalMembers(lib, p + [m] + q), NormalMembers(lib, p + [n] + q);
    if x.Some? && y.Some? && x.value == y.value {
      assert x.value[lib.nfc(key.text)] == y.value[lib.nfc(key.text)];
    }
  }

  lemma MemberIsPrepared(lib: Library, p: seq<Member>, m: Member, n: Member, q: seq<Member>)
    requires m.key == n.key && PrepareMember(lib, m) == PrepareMember(lib, n)
    ensures PrepareMembers(lib, p + [m] + q) == PrepareMembers(lib, p + [n] + q)
    decreases |q|
  {
    hide PrepareMember, AddSlot;
    var k := |p| + |q|;
    var x, y := p + [m] + q, p + [n] + q;
    if q == [] {
      assert x[..k] == p && y[..k] == p;
    } else {
      MemberIsPrepared(lib, p, m, n, q[..|q| - 1]);
      assert x[..k] == p + [m] + q[..|q| - 1] && y[..k] == p + [n] + q[..|q| - 1] && x[k] == y[k];
    }
  }

  lemma {:induction false} ItemsArePrepared(lib: Library, items: seq<Raw>)
    ensures PrepareItems(lib, items).Some? <==> forall i :: 0 <= i < |items| ==> Prepare(lib, items[i]).Some?
    ensures var v := PrepareItems(lib, items);
            v.Some? ==> |v.value| == |items| && forall i :: 0 <= i < |items| ==> Some(v.value[i]) == Prepare(lib, items[i])
  {
    hide Prepare;
    if items != [] {
      var n := |items| - 1;
      var init, v := PrepareItems(lib, items[..n]), PrepareItems(lib, items);
      ItemsArePrepared(lib, items[..n]);
      assert forall i :: 0 <= i < n ==> items[..n][i] == items[i];
      hide PrepareItems;
      if v.None? && init.None? {
        var i :| 0 <= i < n && Prepare(lib, items[..n][i]).None?;
        assert Prepare(lib, items[i]).None?;
      }
    }
  }

  // ---------------------------------------------------------------- set keys

  // Under a set key each item is kept once, and the items are in the order of their dumps.
  lemma SetItemsHold(items: seq<Value>)
    requires AllDumpable(items)
    ensures var result := SetItems(items).value;
            && (forall v :: v in result <==> v in items)
            && AllDumpable(result)
            && forall i, j :: 0 <= i < j < |result| ==> Less(Dump(result[i]), Dump(result[j]))
  {
    hide Dump, Dumpable, Less, Sorted;
    var texts, result := Sorted(Dumps(items)), SetItems(items).value;
    DumpsLoad(items);
    SortedAscends(Dumps(items));
    forall v | v in items ensures v in result {
      LoadUndoesDump(v);
      assert Dump(v) in texts;
      var i :| 0 <= i < |texts| && texts[i] == Dump(v);
      assert result[i] == v;
    }
    forall i | 0 <= i < |result| ensures result[i] in items && Dump(result[i]) == texts[i] {
      assert texts[i] in texts;
      var v :| v in items && Dump(v) == texts[i];
      LoadUndoesDump(v);
    }
  }

  ghost predicate SameItems<T(!new)>(x: seq<T>, y: seq<T>) {
    forall v :: v in x <==> v in y
  }

  lemma SetItemsAreTheSet(x: seq<Value>, y: seq<Value>)
    requires AllDumpable(x) && AllDumpable(y)
    ensures SetItems(x) == SetItems(y) <==> SameItems(x, y)
  {
    if SameItems(x, y) {
      assert Dumps(x) == Dumps(y);
    } else {
      hide SetItems;
      SetItemsHold(x);
      SetItemsHold(y);
    }
  }

  ghost function PreparedSet(lib: Library, items: seq<Raw>): (prepared: set<Option<Value>>) {
    set x | x in items :: Prepare(lib, x)
  }

  // What a list under a set key becomes does not depend on the order or the multiplicity of its items,
  // whatever they are; so nothing that the object stands in does either.
  lemma SetsIgnoreOrderAndMultiplicity(
    lib: Library, p: seq<Member>, key: string, a: seq<Raw>, b: seq<Raw>, q: seq<Member>)
    requires lib.nfc(key) in SET_KEYS
    requires PreparedSet(lib, a) == PreparedSet(lib, b)
    ensures Prepare(lib, RawMapping(p + [Member(TextKey(key), RawList(a))] + q))
         == Prepare(lib, RawMapping(p + [Member(TextKey(key), RawList(b))] + q))
  {
    var m, n := Member(TextKey(key), RawList(a)), Member(TextKey(key), RawList(b));
    SetsPrepareAlike(lib, key, a, b);
    hide Prepare, PrepareMember, PrepareMembers, PreparedSet;
    MemberIsPrepared(lib, p, m, n, q);
    MembersPrepareAlike(lib, p + [m] + q, p + [n] + q);
  }

  lemma MembersPrepareAlike(lib: Library, x: seq<Member>, y: seq<Member>)
    requires PrepareMembers(lib, x) == PrepareMembers(lib, y)
    ensures Prepare(lib, RawMapping(x)) == Prepare(lib, RawMapping(y))
  {
    hide PrepareMembers;
  }

  lemma SetsPrepareAlike(lib: Library, key: string, a: seq<Raw>, b: seq<Raw>)
    requires lib.nfc(key) in SET_KEYS
    requires PreparedSet(lib, a) == PreparedSet(lib, b)
    ensures PrepareMember(lib, Member(TextKey(key), RawList(a))) == PrepareMember(lib, Member(TextKey(key), RawList(b)))
  {
    ItemsArePrepared(lib, a);
    ItemsArePrepared(lib, b);
    SameSets(lib, a, b);
    SameSets(lib, b, a);
    hide SetItems, Dumpable, PrepareItems;
    var x, y := PrepareItems(lib, a), PrepareItems(lib, b);
    if x.Some? {
      assert SameItems(x.value, y.value);
      assert AllDumpable(x.value) <==> AllDumpable(y.value);
      if AllDumpable(x.value) {
        SetItemsAreTheSet(x.value, y.value);
      } else {
        NotDumped(x.value);
        NotDumped(y.value);
      }
    }
  }

  lemma NotDumped(items: seq<Value>)
    requires !AllDumpable(items)
    ensures SetItems(items) == None
  {
  }

  // Each item of `a` is one of `b`.
  lemma SameSets(lib: Library, a: seq<Raw>, b: seq<Raw>)
    requires PreparedSet(lib, a) <= PreparedSet(lib, b)
    ensures PrepareItems(lib, b).Some? ==>
              PrepareItems(lib, a).Some? && forall v :: v in PrepareItems(lib, a).value ==> v in PrepareItems(lib, b).value
  {
    ItemsArePrepared(lib, a);
    ItemsArePrepared(lib, b);
    var x, y := PrepareItems(lib, a), PrepareItems(lib, b);
    hide Prepare, PrepareItems;
    if y.Some? {
      forall i | 0 <= i < |a| ensures Prepare(lib, a[i]).Some? && Prepare(lib, a[i]).value in y.value {
        assert a[i] in a && Prepare(lib, a[i]) in PreparedSet(lib, a);
        var r :| r in b && Prepare(lib, r) == Prepare(lib, a[i]);
        var j :| 0 <= j < |b| && b[j] == r;
        assert y.value[j] == Prepare(lib, a[i]).value;
      }
    }
  }

  // ---------------------------------------------------------------- feature constraints

  // Inserting two values by text, in either order, gives the same list.
  lemma {:induction false} InsertionsCommute(x: Normal, y: Normal, s: seq<Normal>)
    ensures InsertBy(Encode, x, InsertBy(Encode, y, s)) == InsertBy(Encode, y, InsertBy(Encode, x, s))
  {
    hide Encode, Less;
    EncodeIsInjective(x, y);
    LessIsStrict(Encode(x), Encode(y));
    if s != [] && x != y {
      var h := s[0];
      var xh, yh := Less(Encode(x), Encode(h)), Less(Encode(y), Encode(h));
      if xh && !yh {
        NotLessIsTransitive(Encode(y), Encode(h), Encode(x));
        assert InsertBy(Encode, y, [x] + s) == [x] + InsertBy(Encode, y, s);
        assert InsertBy(Encode, y, s)[0] == h;
      } else if yh && !xh {
        NotLessIsTransitive(Encode(x), Encode(h), Encode(y));
        assert InsertBy(Encode, x, [y] + s) == [y] + InsertBy(Encode, x, s);
        assert InsertBy(Encode, x, s)[0] == h;
      } else if !xh && !yh {
        InsertionsCommute(x, y, s[1..]);
        assert InsertBy(Encode, x, s) == [h] + InsertBy(Encode, x, s[1..]);
        assert InsertBy(Encode, y, s) == [h] + InsertBy(Encode, y, s[1..]);
        assert ([h] + InsertBy(Encode, x, s[1..]))[1..] == InsertBy(Encode, x, s[1..]);
        assert ([h] + InsertBy(Encode, y, s[1..]))[1..] == InsertBy(Encode, y, s[1..]);
      } else {
        assert ([x] + s)[1..] == s && ([y] + s)[1..] == s;
      }
    }
  }

  // Above `h` is above everything below `h`.
  lemma NotLessIsTransitive(y: string, h: string, x: string)
    requires Less(x, h) && !Less(y, h)
    ensures !Less(y, x) && y != x
  {
    if Less(y, x) {
      LessIsTransitive(y, x, h);
    }
  }

  ghost function InsertStep(): (step: (seq<Normal>, Normal) -> seq<Normal>) {
    (sorted: seq<Normal>, v: Normal) => InsertBy(Encode, v, sorted)
  }

  lemma {:induction false} SortIsAFold(items: seq<Normal>)
    ensures SortBy(Encode, items) == Fold(InsertStep(), [], items)
    ensures multiset(SortBy(Encode, items)) == multiset(items)
  {
    hide Encode;
    if items != [] {
      var n := |items| - 1;
      SortIsAFold(items[..n]);
      InsertHolds(items[n], SortBy(Encode, items[..n]));
      assert items == items[..n] + [items[n]];
    }
  }

  lemma {:induction false} InsertHolds(v: Normal, s: seq<Normal>)
    ensures multiset(InsertBy(Encode, v, s)) == multiset(s) + multiset{v}
  {
    hide Encode, Less;
    if s != [] {
      InsertHolds(v, s[1..]);
      assert s == [s[0]] + s[1..];
    }
  }

  lemma SortedTellsTheBag(x: seq<Normal>, y: seq<Normal>)
    ensures SortBy(Encode, x) == SortBy(Encode, y) <==> multiset(x) == multiset(y)
  {
    SortIsAFold(x);
    SortIsAFold(y);
    hide Fold, Encode, SortBy;
    if multiset(x) == multiset(y) {
      forall a, v, w ensures InsertStep()(InsertStep()(a, v), w) == InsertStep()(InsertStep()(a, w), v) {
        InsertionsCommute(w, v, a);
      }
      FoldPermutes(InsertStep(), [], x, y);
    }
  }

  lemma {:induction false} InsertForm(lib: Library, v: Value, s: seq<Value>)
    ensures Forms(lib, InsertBy(TextOf(lib), v, s)) == InsertBy(Encode, Form(lib, v), Forms(lib, s))
  {
    hide Encode, Form, Less;
    if s != [] {
      InsertForm(lib, v, s[1..]);
      assert Forms(lib, s)[1..] == Forms(lib, s[1..]);
      var rest := InsertBy(TextOf(lib), v, s[1..]);
      assert Forms(lib, [s[0]] + rest) == [Form(lib, s[0])] + Forms(lib, rest);
    }
    assert Forms(lib, [v] + s) == [Form(lib, v)] + Forms(lib, s);
  }

  // Sorting by text sorts the normal forms.
  lemma {:induction false} SortForms(lib: Library, s: seq<Value>)
    ensures Forms(lib, SortBy(TextOf(lib), s)) == SortBy(Encode, Forms(lib, s))
  {
    hide Encode, Form, InsertBy;
    if s != [] {
      var n := |s| - 1;
      SortForms(lib, s[..n]);
      InsertForm(lib, s[n], SortBy(TextOf(lib), s[..n]));
      assert Forms(lib, s)[..n] == Forms(lib, s[..n]);
    }
  }

  // How often each normal form occurs; no normal form counts too.
  ghost function Bag(lib: Library, items: seq<Raw>): (bag: multiset<Option<Normal>>) {
    Fold(BagStep(lib), multiset{}, items)
  }

  ghost function BagStep(lib: Library): (step: (multiset<Option<Normal>>, Raw) -> multiset<Option<Normal>>) {
    (bag: multiset<Option<Normal>>, raw: Raw) => bag + multiset{Normalize(lib, raw)}
  }

  lemma BagPermutes(lib: Library, a: seq<Raw>, b: seq<Raw>)
    requires multiset(a) == multiset(b)
    ensures Bag(lib, a) == Bag(lib, b)
  {
    BagStepsCommute(lib);
    FoldPermutes(BagStep(lib), multiset{}, a, b);
  }

  lemma BagStepsCommute(lib: Library)
    ensures Commutes(BagStep(lib))
  {
    hide Normalize;
    forall bag, x, y ensures BagStep(lib)(BagStep(lib)(bag, x), y) == BagStep(lib)(BagStep(lib)(bag, y), x) {
      assert bag + multiset{Normalize(lib, x)} + multiset{Normalize(lib, y)}
          == bag + multiset{Normalize(lib, y)} + multiset{Normalize(lib, x)};
    }
  }

  lemma {:induction false} BagCounts(lib: Library, items: seq<Raw>)
    ensures None in Bag(lib, items) <==> PrepareItems(lib, items).None?
    ensures var v := PrepareItems(lib, items);
            v.Some? ==> forall f :: Bag(lib, items)[Some(f)] == multiset(Forms(lib, v.value))[f]
  {
    hide Prepare, Form;
    if items != [] {
      var n := |items| - 1;
      BagCounts(lib, items[..n]);
      var init, last := PrepareItems(lib, items[..n]), Prepare(lib, items[n]);
      assert Bag(lib, items) == Bag(lib, items[..n]) + multiset{Normalize(lib, items[n])};
      if init.Some? && last.Some? {
        assert Forms(lib, init.value + [last.value]) == Forms(lib, init.value) + [Form(lib, last.value)];
      }
    }
  }

  lemma ConstraintForm(lib: Library, key: string, items: seq<Raw>)
    requires lib.nfc(key) == CONSTRAINTS_KEY
    ensures MemberForm(lib, Member(TextKey(key), RawList(items)))
         == match PrepareItems(lib, items)
            case None => None
            case Some(v) => Some(Array(SortBy(Encode, Forms(lib, v))))
  {
    hide SortBy, PrepareItems, SetItems, Forms;
    assert CONSTRAINTS_KEY !in SET_KEYS by {
      assert |"facets"| == 6 && |"feature_constraints"| == 19 && |"required_projection_ids"| == 23;
    }
    var v := PrepareItems(lib, items);
    if v.Some? {
      assert PrepareMember(lib, Member(TextKey(key), RawList(items))) == Some(ListValue(SortBy(TextOf(lib), v.value)));
      SortForms(lib, v.value);
      assert Form(lib, ListValue(SortBy(TextOf(lib), v.value))) == Array(Forms(lib, SortBy(TextOf(lib), v.value)));
    } else {
      assert PrepareMember(lib, Member(TextKey(key), RawList(items))).None?;
    }
  }

  // Canonical bytes tell how often each constraint occurs, and not in which order.
  lemma ConstraintsIgnoreOrder(lib: Library, p: seq<Member>, key: string, a: seq<Raw>, b: seq<Raw>, q: seq<Member>)
    requires lib.nfc(key) == CONSTRAINTS_KEY
    ensures CanonicalJson(lib, RawMapping(p + [Member(TextKey(key), RawList(a))] + q))
         == CanonicalJson(lib, RawMapping(p + [Member(TextKey(key), RawList(b))] + q))
       <==> || BesideFails(lib, p, TextKey(key), q)
            || (None in Bag(lib, a) && None in Bag(lib, b))
            || Bag(lib, a) == Bag(lib, b)
    ensures multiset(a) == multiset(b) ==> Bag(lib, a) == Bag(lib, b)
  {
    if multiset(a) == multiset(b) {
      BagPermutes(lib, a, b);
    }
    var m, n := Member(TextKey(key), RawList(a)), Member(TextKey(key), RawList(b));
    CanonicalJsonIsInjective(lib, RawMapping(p + [m] + q), RawMapping(p + [n] + q));
    hide CanonicalJson, Normalize, MemberForm, BesideFails, SortBy, Encode;
    MemberIsTold(lib, p, TextKey(key), RawList(a), RawList(b), q);
    ConstraintForm(lib, key, a);
    ConstraintForm(lib, key, b);
    BagsAreTold(lib, a, b);
  }

  lemma BagsAreTold(lib: Library, a: seq<Raw>, b: seq<Raw>)
    ensures None in Bag(lib, a) <==> PrepareItems(lib, a).None?
    ensures None in Bag(lib, b) <==> PrepareItems(lib, b).None?
    ensures var x, y := PrepareItems(lib, a), PrepareItems(lib, b);
            x.Some? && y.Some? ==>
              (SortBy(Encode, Forms(lib, x.value)) == SortBy(Encode, Forms(lib, y.value)) <==> Bag(lib, a) == Bag(lib, b))
  {
    BagCounts(lib, a);
    BagCounts(lib, b);
    hide Bag, PrepareItems, Forms, SortBy, Encode;
    var x, y := PrepareItems(lib, a), PrepareItems(lib, b);
    if x.Some? && y.Some? {
      var f, g := multiset(Forms(lib, x.value)), multiset(Forms(lib, y.value));
      SortedTellsTheBag(Forms(lib, x.value), Forms(lib, y.value));
      if f == g {
        assert forall o :: Bag(lib, a)[o] == Bag(lib, b)[o] by {
          forall o ensures Bag(lib, a)[o] == Bag(lib, b)[o] {
            if o.Some? { assert Bag(lib, a)[Some(o.value)] == f[o.value]; }
          }
        }
      } else if Bag(lib, a) == Bag(lib, b) {
        assert forall o :: f[o] == g[o];
      }
    }
  }
}
