/**
 The text of canonical JSON, and that it can be read in one way only.

 A normal form is what a canonical text stands for: strings as they are, numbers as whole billionths,
 objects as finite maps.  Bytes are the UTF-8 encoding of the text, which is injective.
 */
module CanonicalText {
  import opened JsonText

  const BILLION: nat := 1_000_000_000

  datatype Normal =
    | Null
    | Bool(value: bool)
    | Number(billionths: int)
    | Text(text: string)
    | Array(items: seq<Normal>)
    | Object(members: map<string, Normal>)

  // ---------------------------------------------------------------- order of texts

  // Text order, by code point.
  predicate Less(a: string, b: string) {
    b != [] && (a == [] || a[0] < b[0] || (a[0] == b[0] && Less(a[1..], b[1..])))
  }

  lemma {:induction false} LessIsStrict(a: string, b: string)
    ensures !(Less(a, b) && Less(b, a)) && !Less(a, a)
    ensures a != b ==> Less(a, b) || Less(b, a)
  {
    if a != [] && b != [] {
      LessIsStrict(a[1..], b[1..]);
      assert a == [a[0]] + a[1..] && b == [b[0]] + b[1..];
    }
    if a != [] {
      LessIsStrict(a[1..], a[1..]);
    }
  }

  lemma {:induction false} LessIsTransitive(a: string, b: string, c: string)
    requires Less(a, b) && Less(b, c)
    ensures Less(a, c)
  {
    if a != [] && a[0] == b[0] && b[0] == c[0] {
      LessIsTransitive(a[1..], b[1..], c[1..]);
    }
  }

  // `k` comes first.
  ghost predicate Least(keys: set<string>, k: string) {
    k in keys && forall other :: other in keys ==> !Less(other, k)
  }

  lemma LeastExists(keys: set<string>) returns (k: string)
    requires keys != {}
    ensures Least(keys, k)
  {
    k :| k in keys;
    if other :| other in keys - {k} {
      var rest := LeastExists(keys - {k});
      LessIsStrict(rest, k);
      if Less(rest, k) {
        k := rest;
      } else {
        forall o | o in keys ensures !Less(o, k) {
          if Less(o, k) {
            LessIsStrict(o, k);
            LessIsTransitive(o, k, rest);
          }
        }
      }
    } else {
      assert forall o :: o in keys ==> o == k by { assert forall o :: o in keys && o != k ==> o in keys - {k}; }
      LessIsStrict(k, k);
    }
  }

  // `sorted(keys)` of different keys.
  ghost function Sorted(keys: set<string>): (s: seq<string>)
    ensures |s| == |keys| && forall k :: k in s <==> k in keys
    decreases |keys|
  {
    if keys == {} then []
    else
      var least := LeastKey(keys);
      [least] + Sorted(keys - {least})
  }

  ghost function LeastKey(keys: set<string>): (k: string)
    requires keys != {}
    ensures Least(keys, k)
  {
    assert exists k :: Least(keys, k) by {
      var least := LeastExists(keys);
    }
    var k :| Least(keys, k);
    k
  }

  ghost predicate Ascending(s: seq<string>) {
    forall i, j :: 0 <= i < j < |s| ==> Less(s[i], s[j])
  }

  lemma {:induction false} SortedAscends(keys: set<string>)
    ensures Ascending(Sorted(keys))
    decreases |keys|
  {
    if keys != {} {
      var least := LeastKey(keys);
      var rest := Sorted(keys - {least});
      SortedAscends(keys - {least});
      forall k | k in rest ensures Less(least, k) {
        LessIsStrict(least, k);
      }
    }
  }

  // ---------------------------------------------------------------- numbers

  function Digit(d: nat): (c: char)
    requires d < 10
  {
    '0' + d as char
  }

  function Digits(n: nat): (s: string)
    ensures s != [] && forall c :: c in s ==> IsDigit(c)
  {
    if n < 10 then [Digit(n)] else Digits(n / 10) + [Digit(n % 10)]
  }

  // The place values of nine decimal places.
  function Place(w: nat): (p: nat)
    requires w <= 9
    ensures p > 0
  {
    [1, 10, 100, 1_000, 10_000, 100_000, 1_000_000, 10_000_000, 100_000_000, BILLION][w]
  }

  lemma PlaceDivides(f: nat, w: nat)
    requires 1 <= w <= 9 && f < Place(w)
    ensures var p := Place(w - 1); f / p < 10 && f % p < p && f == f / p * p + f % p
  {
    if w == 1 {} else if w == 2 {} else if w == 3 {} else if w == 4 {} else if w == 5 {}
    else if w == 6 {} else if w == 7 {} else if w == 8 {} else {}
  }

  // `f` with `w` digits, without the zeros at its end.
  function Fraction(f: nat, w: nat): (s: string)
    requires w <= 9 && f < Place(w)
    ensures forall c :: c in s ==> IsDigit(c)
    decreases w
  {
    if f == 0 then []
    else
      PlaceDivides(f, w);
      [Digit(f / Place(w - 1))] + Fraction(f % Place(w - 1), w - 1)
  }

  function NumberText(n: int): (s: string) {
    if n < 0 then "-" + UnsignedText(-n) else UnsignedText(n)
  }

  function UnsignedText(n: nat): (s: string) {
    Digits(n / BILLION) + PointAndPlaces(n % BILLION)
  }

  function NinePlaces(f: nat): (s: string)
    requires f < BILLION
  {
    Fraction(f, 9)
  }

  // ---------------------------------------------------------------- one reading: numbers

  predicate NoDigit(x: string) {
    x == [] || !IsDigit(x[0])
  }

  // Where the digits end is where the first other character stands.
  lemma SplitAtNonDigit(a: string, b: string, x: string, y: string)
    requires a + x == b + y && NoDigit(x) && NoDigit(y)
    requires (forall c :: c in a ==> IsDigit(c)) && (forall c :: c in b ==> IsDigit(c))
    ensures a == b && x == y
  {
    var s := a + x;
    assert forall k :: 0 <= k < |a| ==> s[k] == a[k] && IsDigit(s[k]);
    assert forall k :: 0 <= k < |b| ==> s[k] == b[k] && IsDigit(s[k]);
    assert x != [] ==> s[|a|] == x[0];
    assert y != [] ==> s[|b|] == y[0];
    assert |a| == |b|;
    assert a == s[..|a|] && b == s[..|b|] && x == s[|a|..] && y == s[|b|..];
  }

  lemma DigitIsInjective(a: nat, b: nat)
    requires a < 10 && b < 10 && Digit(a) == Digit(b)
    ensures a == b
  {
  }

  lemma {:induction false} DigitsAreInjective(n: nat, m: nat)
    requires Digits(n) == Digits(m)
    ensures n == m
  {
    var s := Digits(n);
    assert s[|s| - 1] == Digit(n % 10) && s[|s| - 1] == Digit(m % 10);
    DigitIsInjective(n % 10, m % 10);
    assert n >= 10 ==> s[..|s| - 1] == Digits(n / 10);
    assert m >= 10 ==> s[..|s| - 1] == Digits(m / 10);
    if n >= 10 && m >= 10 {
      DigitsAreInjective(n / 10, m / 10);
    }
  }

  lemma {:induction false} FractionIsInjective(f: nat, g: nat, w: nat)
    requires w <= 9 && f < Place(w) && g < Place(w) && Fraction(f, w) == Fraction(g, w)
    ensures f == g
    decreases w
  {
    assert Place(0) == 1;
    hide Place, Digit;
    if f != 0 && g != 0 {
      PlaceDivides(f, w);
      PlaceDivides(g, w);
      var p := Place(w - 1);
      var s := Fraction(f, w);
      assert s[0] == Digit(f / p) && s[0] == Digit(g / p);
      DigitIsInjective(f / p, g / p);
      assert s[1..] == Fraction(f % p, w - 1) && s[1..] == Fraction(g % p, w - 1);
      FractionIsInjective(f % p, g % p, w - 1);
    }
  }

  // The fraction of a number and its point, if there is any.
  function PointAndPlaces(f: nat): (s: string)
    requires f < BILLION
  {
    if f == 0 then "" else "." + NinePlaces(f)
  }

  lemma PointUnfolds(f: nat, x: string)
    requires f < BILLION
    ensures PointAndPlaces(f) + x == if f == 0 then x else ['.'] + (NinePlaces(f) + x)
  {
    hide NinePlaces;
  }

  lemma PlacesAreReadable(f: nat, g: nat, x: string, y: string)
    requires f < BILLION && g < BILLION && Delimited(x) && Delimited(y)
    requires PointAndPlaces(f) + x == PointAndPlaces(g) + y
    ensures f == g && x == y
  {
    hide Fraction, PointAndPlaces;
    PointUnfolds(f, x);
    PointUnfolds(g, y);
    var s := PointAndPlaces(f) + x;
    assert (f != 0 ==> s[0] == '.') && (g != 0 ==> s[0] == '.');
    if f != 0 && g != 0 {
      Behind('.', NinePlaces(f) + x, '.', NinePlaces(g) + y);
      SplitAtNonDigit(NinePlaces(f), NinePlaces(g), x, y);
      FractionIsInjective(f, g, 9);
    }
  }

  lemma PointEndsDigits(f: nat, x: string)
    requires f < BILLION && Delimited(x)
    ensures NoDigit(PointAndPlaces(f) + x)
  {
  }

  lemma UnsignedIsReadable(n: nat, m: nat, x: string, y: string)
    requires UnsignedText(n) + x == UnsignedText(m) + y && Delimited(x) && Delimited(y)
    ensures n == m && x == y
  {
    hide Digits, PointAndPlaces;
    var whole, part, whole', part' := n / BILLION, n % BILLION, m / BILLION, m % BILLION;
    var a, b := PointAndPlaces(part) + x, PointAndPlaces(part') + y;
    assert UnsignedText(n) + x == Digits(whole) + a && UnsignedText(m) + y == Digits(whole') + b;
    PointEndsDigits(part, x);
    PointEndsDigits(part', y);
    SplitAtNonDigit(Digits(whole), Digits(whole'), a, b);
    DigitsAreInjective(whole, whole');
    PlacesAreReadable(part, part', x, y);
  }

  lemma NumberStart(n: int)
    ensures NumberText(n) != [] && if n < 0 then NumberText(n)[0] == '-' else IsDigit(NumberText(n)[0])
  {
    hide NinePlaces;
    if n >= 0 {
      assert UnsignedText(n)[0] == Digits(n / BILLION)[0];
    }
  }

  lemma NumberUnfolds(n: int, x: string)
    ensures NumberText(n) + x == if n < 0 then ['-'] + (UnsignedText(-n) + x) else UnsignedText(n) + x
  {
    hide UnsignedText;
  }

  lemma NumberIsReadable(n: int, m: int, x: string, y: string)
    requires NumberText(n) + x == NumberText(m) + y && Delimited(x) && Delimited(y)
    ensures n == m && x == y
  {
    hide UnsignedText, NumberText;
    var s := NumberText(n) + x;
    NumberStart(n);
    NumberStart(m);
    assert s[0] == NumberText(n)[0] && s[0] == NumberText(m)[0];
    NumberUnfolds(n, x);
    NumberUnfolds(m, y);
    if n < 0 {
      Behind('-', UnsignedText(-n) + x, '-', UnsignedText(-m) + y);
      UnsignedIsReadable(-n, -m, x, y);
    } else {
      UnsignedIsReadable(n, m, x, y);
    }
  }

  // ---------------------------------------------------------------- values

  lemma NumberSpells(n: int)
    ensures SpellsNumber(NumberText(n))
  {
    hide Digits, Fraction;
    NumberStart(n);
    var u := if n < 0 then -n else n;
    var whole, places := Digits(u / BILLION), PointAndPlaces(u % BILLION);
    assert UnsignedText(u) == whole + places;
    assert forall c :: c in whole ==> IsDigit(c);
    assert forall c :: c in places ==> NumberChar(c);
  }

  // What the text of a normal form spells out: members in the order of their keys.
  ghost function AsJson(v: Normal): (j: Json)
    ensures Spelled(j)
  {
    match v
    case Null => JsonText.Null
    case Bool(b) => JsonText.Bool(b)
    case Number(n) =>
      NumberSpells(n);
      JsonText.Number(NumberText(n))
    case Text(s) => JsonText.Text(s)
    case Array(items) => JsonText.Array(seq(|items|, i requires 0 <= i < |items| => AsJson(items[i])))
    case Object(members) =>
      var keys := Sorted(members.Keys);
      JsonText.Object(seq(|keys|, i requires 0 <= i < |keys| => Entry(keys[i], AsJson(members[keys[i]]))))
  }

  ghost function Encode(v: Normal): (t: string) {
    Print(AsJson(v))
  }

  // ---------------------------------------------------------------- one reading: values

  lemma {:induction false} AsJsonIsInjective(a: Normal, b: Normal)
    requires AsJson(a) == AsJson(b)
    ensures a == b
    decreases a, 1
  {
    hide Sorted, NumberText, Spelled;
    match a
    case Number(n) =>
      NumberIsReadable(n, b.billionths, [], []) by { assert NumberText(n) + [] == NumberText(b.billionths) + []; }
    case Array(items) =>
      var x, y := AsJson(a).items, AsJson(b).items;
      assert |x| == |items| && |y| == |b.items|;
      forall i | 0 <= i < |items| ensures items[i] == b.items[i] {
        assert x[i] == AsJson(items[i]) && y[i] == AsJson(b.items[i]);
        AsJsonIsInjective(items[i], b.items[i]);
      }
    case Object(_) =>
      MembersAreTold(a, b);
    case _ =>
  }

  lemma {:induction false} MembersAreTold(a: Normal, b: Normal)
    requires a.Object? && b.Object? && AsJson(a) == AsJson(b)
    ensures a.members == b.members
    decreases a, 0
  {
    hide NumberText, Spelled;
    var keys, keys' := Sorted(a.members.Keys), Sorted(b.members.Keys);
    var x, y := AsJson(a).entries, AsJson(b).entries;
    assert |x| == |keys| && |y| == |keys'|;
    forall i | 0 <= i < |keys| ensures keys[i] == keys'[i] && a.members[keys[i]] == b.members[keys[i]] {
      assert x[i] == Entry(keys[i], AsJson(a.members[keys[i]]));
      assert y[i] == Entry(keys'[i], AsJson(b.members[keys'[i]]));
      AsJsonIsInjective(a.members[keys[i]], b.members[keys'[i]]);
    }
    assert keys == keys';
    forall k ensures k in a.members <==> k in b.members {
      assert k in keys <==> k in keys';
    }
  }

  // A text begins with at most one value: equal texts come from equal values and leave equal rests.
  lemma EncodeIsReadable(a: Normal, b: Normal, x: string, y: string)
    requires Encode(a) + x == Encode(b) + y && Delimited(x) && Delimited(y)
    ensures a == b && x == y
  {
    PrintIsReadable(AsJson(a), AsJson(b), x, y);
    AsJsonIsInjective(a, b);
  }

  // Canonical texts are equal exactly when what they stand for is.
  lemma EncodeIsInjective(a: Normal, b: Normal)
    ensures Encode(a) == Encode(b) <==> a == b
  {
    if Encode(a) == Encode(b) {
      PrintIsInjective(AsJson(a), AsJson(b));
      AsJsonIsInjective(a, b);
    }
  }
}
