/**
 The text of a JSON value, and that it can be read in one way only.

 A value is what a text spells out: numbers by their characters, objects as lists of entries in order.
 */
module JsonText {
  datatype Json =
    | Null
    | Bool(value: bool)
    | Number(spelling: string)
    | Text(text: string)
    | Array(items: seq<Json>)
    | Object(entries: seq<Entry>)

  datatype Entry = Entry(key: string, value: Json)

  predicate IsDigit(c: char) {
    '0' <= c <= '9'
  }

  predicate NumberChar(c: char) {
    IsDigit(c) || c in {'-', '+', '.', 'e'}
  }

  // Characters that can spell a number.
  predicate SpellsNumber(s: string) {
    s != [] && (IsDigit(s[0]) || s[0] == '-') && forall c :: c in s ==> NumberChar(c)
  }

  ghost predicate Spelled(j: Json) {
    match j
    case Number(s) => SpellsNumber(s)
    case Array(items) => forall i :: i in items ==> Spelled(i)
    case Object(entries) => forall e :: e in entries ==> Spelled(e.value)
    case _ => true
  }

  // ---------------------------------------------------------------- printing

  function HexDigit(d: nat): (c: char)
    requires d < 16
  {
    "0123456789abcdef"[d]
  }

  // A character inside a string, escaped as section 7 of RFC 8259 asks.
  function Escaped(c: char): (s: string) {
    if c == '\"' then "\\\""
    else if c == '\\' then "\\\\"
    else if c == '\n' then "\\n"
    else if c == '\r' then "\\r"
    else if c == '\t' then "\\t"
    else if c == '\U{8}' then "\\b"
    else if c == '\U{c}' then "\\f"
    else if c < ' ' then "\\u00" + [HexDigit(c as int / 16), HexDigit(c as int % 16)]
    else [c]
  }

  // What a letter behind a backslash stands for.
  ghost function Unescaped(letter: char): char {
    match letter
    case 'b' => '\U{8}'
    case 'f' => '\U{c}'
    case 'n' => '\n'
    case 'r' => '\r'
    case 't' => '\t'
    case c => c
  }

  ghost function HexValue(d: char): int {
    if IsDigit(d) then d as int - '0' as int else d as int - 'a' as int + 10
  }

  // Only what must be escaped is, by the one letter that stands for it if there is one, else by its
  // number.
  lemma EscapeStandsForItsCharacter(c: char)
    ensures |Escaped(c)| == 1 <==> ' ' <= c && c !in {'\"', '\\'}
    ensures |Escaped(c)| == 1 ==> Escaped(c) == [c]
    ensures |Escaped(c)| == 2 <==> c in {'\"', '\\', '\U{8}', '\U{c}', '\n', '\r', '\t'}
    ensures |Escaped(c)| == 2 ==> Escaped(c)[0] == '\\' && Unescaped(Escaped(c)[1]) == c
    ensures |Escaped(c)| in {1, 2, 6}
    ensures |Escaped(c)| == 6 ==>
              Escaped(c)[..4] == "\\u00" && 16 * HexValue(Escaped(c)[4]) + HexValue(Escaped(c)[5]) == c as int
  {
    if |Escaped(c)| == 6 {
      HexReads(c as int / 16);
      HexReads(c as int % 16);
      assert Escaped(c)[..4] == "\\u00";
    }
  }

  lemma HexReads(d: nat)
    requires d < 16
    ensures HexValue(HexDigit(d)) == d
  {}

  // A string's characters and its closing quote.
  function Rest(s: string): (t: string) {
    if s == [] then "\"" else Escaped(s[0]) + Rest(s[1..])
  }

  function Quote(s: string): (t: string) {
    "\"" + Rest(s)
  }

  function Print(j: Json): (t: string)
    decreases j, 1, 0
  {
    match j
    case Null => "null"
    case Bool(b) => if b then "true" else "false"
    case Number(s) => s
    case Text(s) => Quote(s)
    case Array(items) => "[" + PrintItems(items)
    case Object(entries) => "{" + PrintEntries(entries)
  }

  // The items of an array, and the closing bracket.
  function PrintItems(items: seq<Json>): (t: string)
    decreases items, 0, 1
  {
    if items == [] then "]" else Print(items[0]) + ItemsTail(items[1..])
  }

  function ItemsTail(items: seq<Json>): (t: string)
    decreases items, 0, 2
  {
    if items == [] then "]" else "," + PrintItems(items)
  }

  function PrintEntries(entries: seq<Entry>): (t: string)
    decreases entries, 0, 1
  {
    if entries == [] then "}"
    else Quote(entries[0].key) + (":" + (Print(entries[0].value) + EntriesTail(entries[1..])))
  }

  function EntriesTail(entries: seq<Entry>): (t: string)
    decreases entries, 0, 2
  {
    if entries == [] then "}" else "," + PrintEntries(entries)
  }

  // ---------------------------------------------------------------- one reading: strings

  // What follows equal first characters is equal.
  lemma Behind(c: char, x: string, d: char, y: string)
    requires [c] + x == [d] + y
    ensures c == d && x == y
  {
    assert ([c] + x)[1..] == x && ([d] + y)[1..] == y && ([c] + x)[0] == c && ([d] + y)[0] == d;
  }

  lemma SameHead(a: string, b: string, x: string, y: string, n: nat)
    requires a + x == b + y && n <= |a| && n <= |b|
    ensures a[..n] == b[..n]
  {
    var s := a + x;
    assert a[..n] == s[..n] && b[..n] == s[..n];
  }

  // Escapes can be told apart from the characters they begin with.
  lemma EscapedIsInjective(c: char, d: char)
    requires Escaped(c)[0] == Escaped(d)[0]
    requires |Escaped(c)| > 1 && |Escaped(d)| > 1 ==> Escaped(c)[1] == Escaped(d)[1]
    requires |Escaped(c)| == 6 && |Escaped(d)| == 6 ==> Escaped(c)[4..] == Escaped(d)[4..]
    ensures c == d
  {
    if |Escaped(c)| == 6 && |Escaped(d)| == 6 {
      assert Escaped(c)[4] == Escaped(c)[4..][0] && Escaped(c)[5] == Escaped(c)[4..][1];
      assert Escaped(d)[4] == Escaped(d)[4..][0] && Escaped(d)[5] == Escaped(d)[4..][1];
      HexIsInjective(c as int / 16, d as int / 16);
      HexIsInjective(c as int % 16, d as int % 16);
    }
  }

  lemma HexIsInjective(a: nat, b: nat)
    requires a < 16 && b < 16 && HexDigit(a) == HexDigit(b)
    ensures a == b
  {
  }

  lemma EscapedShape(c: char)
    ensures |Escaped(c)| in {1, 2, 6} && Escaped(c)[0] != '\"'
    ensures |Escaped(c)| == 1 <==> Escaped(c)[0] != '\\'
    ensures |Escaped(c)| > 1 ==> (|Escaped(c)| == 6 <==> Escaped(c)[1] == 'u')
  {
  }

  lemma EscapedIsReadable(c: char, d: char, x: string, y: string)
    requires Escaped(c) + x == Escaped(d) + y
    ensures c == d && x == y
  {
    hide Escaped;
    var a, b := Escaped(c), Escaped(d);
    EscapedShape(c);
    EscapedShape(d);
    SameHead(a, b, x, y, 1);
    assert a[0] == a[..1][0] && b[0] == b[..1][0];
    if |a| > 1 {
      SameHead(a, b, x, y, 2);
      assert a[1] == a[..2][1] && b[1] == b[..2][1];
    }
    SameHead(a, b, x, y, |a|);
    EscapedIsInjective(c, d);
    assert x == (a + x)[|a|..] && y == (b + y)[|b|..];
  }

  lemma {:induction false} RestIsReadable(s: string, t: string, x: string, y: string)
    requires Rest(s) + x == Rest(t) + y
    ensures s == t && x == y
  {
    hide Escaped;
    var whole := Rest(s) + x;
    assert s != [] ==> whole[0] == Escaped(s[0])[0] by { if s != [] { EscapedShape(s[0]); } }
    assert t != [] ==> whole[0] == Escaped(t[0])[0] by { if t != [] { EscapedShape(t[0]); } }
    if s != [] { EscapedShape(s[0]); }
    if t != [] { EscapedShape(t[0]); }
    if s == [] {
      assert x == whole[1..] && y == whole[1..];
    } else {
      var a, b := Rest(s[1..]) + x, Rest(t[1..]) + y;
      assert whole == Escaped(s[0]) + a && whole == Escaped(t[0]) + b;
      EscapedIsReadable(s[0], t[0], a, b);
      RestIsReadable(s[1..], t[1..], x, y);
      assert s == [s[0]] + s[1..] && t == [t[0]] + t[1..];
    }
  }

  lemma QuoteIsReadable(s: string, t: string, x: string, y: string)
    requires Quote(s) + x == Quote(t) + y
    ensures s == t && x == y
  {
    hide Rest;
    assert Quote(s) + x == ['\"'] + (Rest(s) + x) && Quote(t) + y == ['\"'] + (Rest(t) + y);
    Behind('\"', Rest(s) + x, '\"', Rest(t) + y);
    RestIsReadable(s, t, x, y);
  }

  // ---------------------------------------------------------------- one reading: values

  // What may follow a number: the end, or a character that cannot be part of one.
  predicate Delimited(x: string) {
    x == [] || x[0] in {',', ']', '}'}
  }

  // Where a number ends is where the first other character stands.
  lemma SpellingIsReadable(a: string, b: string, x: string, y: string)
    requires a + x == b + y && Delimited(x) && Delimited(y)
    requires (forall c :: c in a ==> NumberChar(c)) && (forall c :: c in b ==> NumberChar(c))
    ensures a == b && x == y
  {
    var s := a + x;
    assert forall k :: 0 <= k < |a| ==> s[k] == a[k] && NumberChar(s[k]);
    assert forall k :: 0 <= k < |b| ==> s[k] == b[k] && NumberChar(s[k]);
    assert x != [] ==> s[|a|] == x[0];
    assert y != [] ==> s[|b|] == y[0];
    assert |a| == |b|;
    assert a == s[..|a|] && b == s[..|b|] && x == s[|a|..] && y == s[|b|..];
  }

  // The first character of a value's text tells its kind.
  function Lead(j: Json): (c: char) {
    match j
    case Null => 'n'
    case Bool(b) => if b then 't' else 'f'
    case Number(_) => '0'
    case Text(_) => '\"'
    case Array(_) => '['
    case Object(_) => '{'
  }

  lemma PrintStart(j: Json)
    requires Spelled(j)
    ensures Print(j) != []
    ensures if j.Number? then IsDigit(Print(j)[0]) || Print(j)[0] == '-' else Print(j)[0] == Lead(j)
  {
    hide PrintItems, PrintEntries, Rest;
  }

  lemma SameKind(a: Json, b: Json, x: string, y: string)
    requires Spelled(a) && Spelled(b) && Print(a) + x == Print(b) + y
    ensures Lead(a) == Lead(b)
  {
    hide Print;
    var s := Print(a) + x;
    PrintStart(a);
    PrintStart(b);
    assert s[0] == Print(a)[0] && s[0] == Print(b)[0];
  }

  // A text begins with at most one value: equal texts come from equal values and leave equal rests.
  lemma {:induction false} PrintIsReadable(a: Json, b: Json, x: string, y: string)
    requires Spelled(a) && Spelled(b)
    requires Print(a) + x == Print(b) + y && Delimited(x) && Delimited(y)
    ensures a == b && x == y
    decreases a, 1, 0
  {
    hide PrintItems, PrintEntries, Quote;
    SameKind(a, b, x, y);
    var s := Print(a) + x;
    match a {
      case Null =>
        assert x == s[4..] && y == s[4..];
      case Bool(p) =>
        assert x == s[|Print(a)|..] && y == s[|Print(a)|..];
      case Number(t) =>
        SpellingIsReadable(t, b.spelling, x, y);
      case Text(t) =>
        QuoteIsReadable(t, b.text, x, y);
      case Array(items) =>
        assert s == ['['] + (PrintItems(items) + x) && s == ['['] + (PrintItems(b.items) + y);
        Behind('[', PrintItems(items) + x, '[', PrintItems(b.items) + y);
        ItemsAreReadable(items, b.items, x, y);
      case Object(entries) =>
        assert s == ['{'] + (PrintEntries(entries) + x) && s == ['{'] + (PrintEntries(b.entries) + y);
        Behind('{', PrintEntries(entries) + x, '{', PrintEntries(b.entries) + y);
        EntriesAreReadable(entries, b.entries, x, y);
    }
  }

  lemma {:induction false} ItemsAreReadable(a: seq<Json>, b: seq<Json>, x: string, y: string)
    requires (forall i :: i in a ==> Spelled(i)) && (forall i :: i in b ==> Spelled(i))
    requires PrintItems(a) + x == PrintItems(b) + y
    ensures a == b && x == y
    decreases a, 0, 1
  {
    hide Print, ItemsTail, Spelled;
    if a != [] { PrintStart(a[0]); }
    if b != [] { PrintStart(b[0]); }
    var s := PrintItems(a) + x;
    assert s[0] == PrintItems(a)[0] && s[0] == PrintItems(b)[0];
    if a == [] {
      Behind(']', x, ']', y);
    } else {
      var c, d := ItemsTail(a[1..]) + x, ItemsTail(b[1..]) + y;
      assert Print(a[0]) + c == s && Print(b[0]) + d == s;
      ItemsTailIsDelimited(a[1..], x);
      ItemsTailIsDelimited(b[1..], y);
      PrintIsReadable(a[0], b[0], c, d);
      ItemsTailIsReadable(a[1..], b[1..], x, y);
      assert a == [a[0]] + a[1..] && b == [b[0]] + b[1..];
    }
  }

  lemma ItemsTailIsDelimited(items: seq<Json>, x: string)
    ensures Delimited(ItemsTail(items) + x)
  {
  }

  lemma {:induction false} ItemsTailIsReadable(a: seq<Json>, b: seq<Json>, x: string, y: string)
    requires (forall i :: i in a ==> Spelled(i)) && (forall i :: i in b ==> Spelled(i))
    requires ItemsTail(a) + x == ItemsTail(b) + y
    ensures a == b && x == y
    decreases a, 0, 2
  {
    hide PrintItems, Spelled;
    var s := ItemsTail(a) + x;
    assert s[0] == (if a == [] then ']' else ',') && s[0] == (if b == [] then ']' else ',');
    if a == [] {
      Behind(']', x, ']', y);
    } else {
      assert s == [','] + (PrintItems(a) + x) && s == [','] + (PrintItems(b) + y);
      Behind(',', PrintItems(a) + x, ',', PrintItems(b) + y);
      ItemsAreReadable(a, b, x, y);
    }
  }

  lemma {:induction false} EntriesAreReadable(a: seq<Entry>, b: seq<Entry>, x: string, y: string)
    requires (forall e :: e in a ==> Spelled(e.value)) && (forall e :: e in b ==> Spelled(e.value))
    requires PrintEntries(a) + x == PrintEntries(b) + y
    ensures a == b && x == y
    decreases a, 0, 1
  {
    hide Print, Rest, EntriesTail, Spelled;
    var s := PrintEntries(a) + x;
    assert s[0] == (if a == [] then '}' else '\"') && s[0] == (if b == [] then '}' else '\"');
    if a == [] {
      Behind('}', x, '}', y);
    } else {
      var c, d := EntriesTail(a[1..]) + x, EntriesTail(b[1..]) + y;
      assert s == Quote(a[0].key) + (":" + (Print(a[0].value) + c));
      assert s == Quote(b[0].key) + (":" + (Print(b[0].value) + d));
      EntriesTailIsDelimited(a[1..], x);
      EntriesTailIsDelimited(b[1..], y);
      EntryIsReadable(a[0], b[0], c, d);
      EntriesTailIsReadable(a[1..], b[1..], x, y);
      assert a == [a[0]] + a[1..] && b == [b[0]] + b[1..];
    }
  }

  lemma EntryIsReadable(a: Entry, b: Entry, c: string, d: string)
    requires Spelled(a.value) && Spelled(b.value) && Delimited(c) && Delimited(d)
    requires Quote(a.key) + (":" + (Print(a.value) + c)) == Quote(b.key) + (":" + (Print(b.value) + d))
    ensures a == b && c == d
    decreases a, 2, 0
  {
    hide Print, Quote;
    QuoteIsReadable(a.key, b.key, ":" + (Print(a.value) + c), ":" + (Print(b.value) + d));
    Behind(':', Print(a.value) + c, ':', Print(b.value) + d);
    PrintIsReadable(a.value, b.value, c, d);
  }

  lemma EntriesTailIsDelimited(entries: seq<Entry>, x: string)
    ensures Delimited(EntriesTail(entries) + x)
  {
  }

  lemma {:induction false} EntriesTailIsReadable(a: seq<Entry>, b: seq<Entry>, x: string, y: string)
    requires (forall e :: e in a ==> Spelled(e.value)) && (forall e :: e in b ==> Spelled(e.value))
    requires EntriesTail(a) + x == EntriesTail(b) + y
    ensures a == b && x == y
    decreases a, 0, 2
  {
    hide PrintEntries, Spelled;
    var s := EntriesTail(a) + x;
    assert s[0] == (if a == [] then '}' else ',') && s[0] == (if b == [] then '}' else ',');
    if a == [] {
      Behind('}', x, '}', y);
    } else {
      assert s == [','] + (PrintEntries(a) + x) && s == [','] + (PrintEntries(b) + y);
      Behind(',', PrintEntries(a) + x, ',', PrintEntries(b) + y);
      EntriesAreReadable(a, b, x, y);
    }
  }

  // Equal texts are those of equal values.
  lemma PrintIsInjective(a: Json, b: Json)
    requires Spelled(a) && Spelled(b)
    ensures Print(a) == Print(b) <==> a == b
  {
    if Print(a) == Print(b) {
      assert Print(a) + [] == Print(b) + [];
      PrintIsReadable(a, b, [], []);
    }
  }
}
