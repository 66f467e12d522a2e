/** The JavaScript semantics the site's code depends on: dynamically typed values with
    property reads and writes (as in a strict-mode ES module), truthiness, object spread,
    and the `String.prototype` operations the admin screens call. */
module Js {

  datatype Option<+T> = None | Some(value: T)

  /** The outcome of an expression that may throw a `TypeError`. */
  datatype Result<+T> = Ok(value: T) | TypeError

  /** The values held in the site content aggregate: objects, strings, integers, booleans and
      `undefined` (no `null`, arrays or fractions). */
  datatype Value =
    | Undefined
    | Bool(b: bool)
    | Num(n: int)
    | Str(s: string)
    | Obj(fields: map<string, Value>)

  /** Whether `v` counts as true in a condition, `!!v`. */
  predicate Truthy(v: Value) {
    match v
    case Undefined => false
    case Bool(b) => b
    case Num(n) => n != 0
    case Str(s) => s != ""
    case Obj(_) => true
  }

  /** `v[key]` for an own property: throws on `undefined`; an object's missing key reads as
      `undefined`; a string has its `length` and a one-character string at each index; numbers
      and booleans have no own properties. */
  function Get(v: Value, key: string): Result<Value> {
    match v
    case Undefined => TypeError
    case Obj(fields) => Ok(if key in fields then fields[key] else Undefined)
    case Str(s) =>
      Ok(if key == "length" then Num(|s|)
         else if IsIndexKey(key) && NumeralValue(key) < |s| then Str([s[NumeralValue(key)]])
         else Undefined)
    case _ => Ok(Undefined)
  }

  /** `v[key] = x`: only objects accept it; strict mode throws on `undefined` and on
      primitives. A missing key is added. */
  function SetProperty(v: Value, key: string, x: Value): Result<Value> {
    if v.Obj? then Ok(Obj(v.fields[key := x])) else TypeError
  }

  /** The own enumerable properties that `{...v}` copies: an object's fields, a string's
      indices (not its `length`), nothing of `undefined`, a number or a boolean. */
  function Spread(v: Value): map<string, Value> {
    match v
    case Obj(fields) => fields
    case Str(s) => Indexed(s, |s|)
    case _ => map[]
  }

  /** The first `n` characters of `s`, each under its index. */
  function Indexed(s: string, n: nat): map<string, Value>
    requires n <= |s|
  {
    if n == 0 then map[] else Indexed(s, n - 1)[Numeral(n - 1) := Str([s[n - 1]])]
  }

  /** Whether spreading `v` copies the property `key` that `v[key]` reads. */
  predicate CopiedBySpread(v: Value, key: string) {
    !v.Undefined? && !(v.Str? && key == "length")
  }

  /** Reading a key of `{...v}` gives what reading it of `v` gives, for every property the
      spread copies; any other key reads as `undefined`. */
  lemma SpreadReadsBack(v: Value, key: string)
    ensures Get(Obj(Spread(v)), key) == if CopiedBySpread(v, key) then Get(v, key) else Ok(Undefined)
    ensures key in Spread(v) ==> CopiedBySpread(v, key)
  {
    if v.Str? {
      IndexedKeys(v.s, |v.s|, key);
    }
  }

  lemma SpreadReadsBackAll(v: Value)
    ensures forall key :: key in Spread(v) ==> Get(v, key) == Ok(Spread(v)[key])
    ensures forall key :: Get(Obj(Spread(v)), key) == (if CopiedBySpread(v, key) then Get(v, key) else Ok(Undefined))
  {
    forall key
      ensures Get(Obj(Spread(v)), key) == (if CopiedBySpread(v, key) then Get(v, key) else Ok(Undefined))
      ensures key in Spread(v) ==> Get(v, key) == Ok(Spread(v)[key])
    {
      SpreadReadsBack(v, key);
    }
  }

  /** The keys of `Indexed(s, n)` are the index keys below `n`, each holding its character. */
  lemma {:induction false} IndexedKeys(s: string, n: nat, key: string)
    requires n <= |s|
    ensures key in Indexed(s, n) <==> IsIndexKey(key) && NumeralValue(key) < n
    ensures key in Indexed(s, n) ==> Indexed(s, n)[key] == Str([s[NumeralValue(key)]])
    decreases n
  {
    if n > 0 {
      IndexedKeys(s, n - 1, key);
      NumeralRoundTrip(n - 1);
      if IsIndexKey(key) {
        IndexKeyRoundTrip(key);
      }
    }
  }

  // ---------------------------------------------------------------- index keys

  predicate IsDigit(c: char) {
    '0' <= c <= '9'
  }

  function Digit(d: nat): char
    requires d < 10
  {
    ('0' as int + d) as char
  }

  /** `String(n)`: the decimal numeral of `n`. */
  function Numeral(n: nat): (r: string)
    ensures |r| >= 1 && forall i :: 0 <= i < |r| ==> IsDigit(r[i])
    ensures n < 10 ==> |r| == 1
    ensures n > 0 ==> r[0] != '0'
    decreases n
  {
    if n < 10 then [Digit(n)] else Numeral(n / 10) + [Digit(n % 10)]
  }

  /** A key that names an array or string index: a numeral without leading zeros. */
  predicate IsIndexKey(key: string) {
    |key| >= 1 && (forall i :: 0 <= i < |key| ==> IsDigit(key[i])) && (key[0] != '0' || |key| == 1)
  }

  /** The number a string of digits denotes. */
  function NumeralValue(key: string): nat
    requires forall i :: 0 <= i < |key| ==> IsDigit(key[i])
    decreases |key|
  {
    if key == [] then 0
    else
      assert IsDigit(key[|key| - 1]);
      NumeralValue(key[..|key| - 1]) * 10 + (key[|key| - 1] as int - '0' as int)
  }

  /** Every numeral is an index key, and it denotes its number. */
  lemma {:induction false} NumeralRoundTrip(n: nat)
    ensures IsIndexKey(Numeral(n)) && NumeralValue(Numeral(n)) == n
    decreases n
  {
    var r := Numeral(n);
    if n >= 10 {
      NumeralRoundTrip(n / 10);
      assert r[..|r| - 1] == Numeral(n / 10);
    }
  }

  /** Every index key is the numeral of the number it denotes. */
  lemma {:induction false} IndexKeyRoundTrip(key: string)
    requires IsIndexKey(key)
    ensures Numeral(NumeralValue(key)) == key
    decreases |key|
  {
    var v := NumeralValue(key);
    if |key| == 1 {
      assert key == [key[0]];
    } else {
      var p := key[..|key| - 1];
      var d := key[|key| - 1] as int - '0' as int;
      assert IsIndexKey(p);
      LeadingDigitValue(p);
      IndexKeyRoundTrip(p);
      assert v == NumeralValue(p) * 10 + d;
      assert v / 10 == NumeralValue(p) && v % 10 == d;
      assert key == p + [key[|key| - 1]];
    }
  }

  /** Digits led by a non-zero one denote a positive number. */
  lemma {:induction false} LeadingDigitValue(key: string)
    requires |key| >= 1 && (forall i :: 0 <= i < |key| ==> IsDigit(key[i])) && key[0] != '0'
    ensures NumeralValue(key) >= 1
    decreases |key|
  {
    if |key| > 1 {
      LeadingDigitValue(key[..|key| - 1]);
    }
  }

  /** `s.toLowerCase()` on the ASCII letters. */
  function Lower(s: string): (r: string)
    ensures |r| == |s|
    ensures forall i :: 0 <= i < |s| ==> r[i] == LowerChar(s[i])
  {
    seq(|s|, i requires 0 <= i < |s| => LowerChar(s[i]))
  }

  function LowerChar(c: char): char {
    if 'A' <= c <= 'Z' then (c as int + 32) as char else c
  }

  /** `t` occurs in `s` starting at position `i`. */
  predicate OccursAt(s: string, t: string, i: nat) {
    i + |t| <= |s| && s[i..i + |t|] == t
  }

  /** `s.includes(t)`. */
  function Contains(s: string, t: string): (r: bool)
    ensures r <==> exists i: nat :: OccursAt(s, t, i)
    decreases |s|
  {
    if |t| > |s| then false
    else if s[..|t|] == t then assert OccursAt(s, t, 0); true
    else
      var r := Contains(s[1..], t);
      assert r ==> exists i: nat :: OccursAt(s, t, i) by {
        if r {
          var i: nat :| OccursAt(s[1..], t, i);
          assert s[1..][i..i + |t|] == s[i + 1..i + 1 + |t|];
          assert OccursAt(s, t, i + 1);
        }
      }
      assert (exists i: nat :: OccursAt(s, t, i)) ==> r by {
        if exists i: nat :: OccursAt(s, t, i) {
          var i: nat :| OccursAt(s, t, i);
          assert i != 0;
          assert s[1..][i - 1..i - 1 + |t|] == s[i..i + |t|];
          assert OccursAt(s[1..], t, i - 1);
        }
      }
      r
  }

  /** `s.toLowerCase().includes(term.toLowerCase())`, the search test of every admin list. */
  predicate IncludesIgnoringCase(s: string, term: string) {
    Contains(Lower(s), Lower(term))
  }

  /** Every string contains the empty string. */
  lemma EmptyTermMatches(s: string)
    ensures IncludesIgnoringCase(s, "")
  {
    assert OccursAt(Lower(s), Lower(""), 0);
  }

  /** `s.startsWith(p)`. */
  predicate StartsWith(s: string, p: string) {
    |p| <= |s| && s[..|p|] == p
  }

  /** The characters `\s` matches and `trim()` removes: WhiteSpace and LineTerminator. */
  predicate IsSpace(c: char) {
    c == '\t' || c == '\n' || c == '\U{B}' || c == '\U{C}' || c == '\r' || c == ' '
    || c == '\U{A0}' || c == '\U{1680}' || ('\U{2000}' <= c <= '\U{200A}')
    || c == '\U{2028}' || c == '\U{2029}' || c == '\U{202F}' || c == '\U{205F}'
    || c == '\U{3000}' || c == '\U{FEFF}'
  }

  /** `s.split(sep)` for a one-character separator: always at least one piece. */
  function Split(s: string, sep: char): (r: seq<string>)
    ensures |r| >= 1
    ensures forall i :: 0 <= i < |r| ==> sep !in r[i]
    decreases |s|
  {
    if s == [] then [""]
    else
      var rest := Split(s[1..], sep);
      if s[0] == sep then [""] + rest
      else [[s[0]] + rest[0]] + rest[1..]
  }

  /** `parts.join(sep)`. */
  function Join(parts: seq<string>, sep: char): string
    decreases |parts|
  {
    if parts == [] then ""
    else if |parts| == 1 then parts[0]
    else parts[0] + [sep] + Join(parts[1..], sep)
  }

  /** Joining adds only separators to the characters of the parts. */
  lemma {:induction false} JoinAvoids(parts: seq<string>, sep: char, c: char)
    requires c != sep && forall i :: 0 <= i < |parts| ==> c !in parts[i]
    ensures c !in Join(parts, sep)
    decreases |parts|
  {
    if |parts| > 1 {
      JoinAvoids(parts[1..], sep, c);
    }
  }

  /** A string without the separator is one piece. */
  lemma {:induction false} SplitWhole(s: string, sep: char)
    requires sep !in s
    ensures Split(s, sep) == [s]
    decreases |s|
  {
    if s != [] {
      SplitWhole(s[1..], sep);
      assert s == [s[0]] + s[1..];
    }
  }

  /** Splitting `a + sep + b` splits `a` and `b` separately. */
  lemma {:induction false} SplitConcat(a: string, b: string, sep: char)
    ensures Split(a + [sep] + b, sep) == Split(a, sep) + Split(b, sep)
    decreases |a|
  {
    if a == [] {
      assert a + [sep] + b == [sep] + b;
      assert ([sep] + b)[1..] == b;
    } else {
      assert (a + [sep] + b)[1..] == a[1..] + [sep] + b;
      SplitConcat(a[1..], b, sep);
    }
  }

  /** `split` undoes `join` when no part contains the separator. */
  lemma {:induction false} SplitJoin(parts: seq<string>, sep: char)
    requires |parts| >= 1
    requires forall i :: 0 <= i < |parts| ==> sep !in parts[i]
    ensures Split(Join(parts, sep), sep) == parts
    decreases |parts|
  {
    SplitWhole(parts[0], sep);
    if |parts| > 1 {
      SplitJoin(parts[1..], sep);
      SplitConcat(parts[0], Join(parts[1..], sep), sep);
    }
  }

  /** `join` undoes `split`. */
  lemma {:induction false} JoinSplit(s: string, sep: char)
    ensures Join(Split(s, sep), sep) == s
    decreases |s|
  {
    if s != [] {
      JoinSplit(s[1..], sep);
      var rest := Split(s[1..], sep);
      if s[0] != sep {
        if |rest| > 1 {
          assert ([[s[0]] + rest[0]] + rest[1..])[1..] == rest[1..];
        }
      }
    }
  }
}
