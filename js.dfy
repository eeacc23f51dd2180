/**
  The slice of JavaScript value semantics that the serializers, the exports and
  the onboarding handler rely on: truthiness, property reads, `String(v)`,
  `Array.prototype.join`, and the host services (JSON parsing, dates, number
  formatting) that stay abstract.
 */
module Js {

  datatype Option<+T> = None | Some(value: T)

  /** A JavaScript value. Numbers are integers; objects are plain records. */
  datatype Value =
    | Undefined
    | Null
    | Bool(b: bool)
    | Num(n: int)
    | Str(s: string)
    | Obj(fields: map<string, Value>)
    | Arr(items: seq<Value>)

  /** The host services the code calls into, kept abstract. */
  datatype Runtime = Runtime(
    /** `JSON.parse(s)`; `None` when it throws a SyntaxError. */
    parse: string -> Option<Value>,
    /** `String(new Date(v))`, the text a date gets inside `Array.prototype.join`. */
    dateText: Value -> string,
    /** The text a money total gets, given the total in cents. */
    moneyText: int -> string,
    /** `Intl.NumberFormat('en-US', {style: 'currency', currency: 'USD'}).format(v / 100)`. */
    currency: Value -> string,
    /** Whether `Number(s)` is a number (not NaN). */
    numeric: string -> bool,
    /** `o.toString()` for an object the database driver returns: a driver date prints its own date text. */
    objectText: map<string, Value> -> string)

  /** `!!v` */
  predicate Truthy(v: Value) {
    match v
    case Undefined => false
    case Null => false
    case Bool(b) => b
    case Num(n) => n != 0
    case Str(s) => s != ""
    case Obj(_) => true
    case Arr(_) => true
  }

  /** Whether reading a property of `v` does not throw a TypeError. */
  predicate Readable(v: Value) {
    !v.Undefined? && !v.Null?
  }

  /** `o[k]` on a plain record: an absent key reads as `undefined`. */
  function Lookup(o: map<string, Value>, k: string): (v: Value)
    ensures k !in o ==> v == Undefined
  {
    if k in o then o[k] else Undefined
  }

  /** `v.k` for a named (non-index, non-`length`) key on a readable value. */
  function Prop(v: Value, k: string): Value
    requires Readable(v)
  {
    if v.Obj? then Lookup(v.fields, k) else Undefined
  }

  /** `v[i]` for a numeric index on a readable value. */
  function Index(v: Value, i: nat): (r: Value)
    requires Readable(v)
    ensures v.Arr? && i < |v.items| ==> r == v.items[i]
    ensures v.Arr? && i >= |v.items| ==> r == Undefined
  {
    match v
    case Arr(items) => if i < |items| then items[i] else Undefined
    case Str(s) => if i < |s| then Str([s[i]]) else Undefined
    case Obj(fields) => Lookup(fields, NatText(i))
    case _ => Undefined
  }

  function DigitChar(d: nat): (c: char)
    requires d < 10
    ensures '0' <= c <= '9'
  {
    "0123456789"[d]
  }

  predicate AllDigits(s: string) {
    forall i :: 0 <= i < |s| ==> '0' <= s[i] <= '9'
  }

  /** Decimal text of a natural number: never empty, digits only. */
  function NatText(n: nat): (s: string)
    ensures |s| >= 1 && AllDigits(s)
    ensures n < 10 <==> |s| == 1
  {
    if n < 10 then [DigitChar(n)] else NatText(n / 10) + [DigitChar(n % 10)]
  }

  function IntText(i: int): string {
    if i < 0 then "-" + NatText(-i) else NatText(i)
  }

  /** `String(v)`. */
  function ToStr(v: Value): string
    decreases v, 0
  {
    match v
    case Undefined => "undefined"
    case Null => "null"
    case Bool(b) => if b then "true" else "false"
    case Num(n) => IntText(n)
    case Str(s) => s
    case Obj(_) => "[object Object]"
    case Arr(items) => Join(",", seq(|items|, i requires 0 <= i < |items| => JoinText(items[i])))
  }

  /** The text `Array.prototype.join` uses for one element: `null` and `undefined` become empty. */
  function JoinText(v: Value): (s: string)
    decreases v, 1
    ensures !Readable(v) ==> s == ""
  {
    if Readable(v) then ToStr(v) else ""
  }

  /** `parts.join(sep)` on strings. */
  function Join(sep: string, parts: seq<string>): (s: string)
    ensures |parts| == 1 ==> s == parts[0]
  {
    if |parts| == 0 then ""
    else if |parts| == 1 then parts[0]
    else Join(sep, parts[..|parts| - 1]) + sep + parts[|parts| - 1]
  }

  /** `values.join(sep)`: each element converted with `JoinText`. */
  function JoinValues(sep: string, values: seq<Value>): string {
    Join(sep, seq(|values|, i requires 0 <= i < |values| => JoinText(values[i])))
  }

  /** Appending one more part adds exactly one separator, as a loop building the text would. */
  lemma {:induction false} JoinSnoc(sep: string, parts: seq<string>, p: string)
    requires parts != []
    ensures Join(sep, parts + [p]) == Join(sep, parts) + sep + p
  {
    assert (parts + [p])[..|parts|] == parts;
  }

  /** Joining parts free of the separator character puts exactly one separator fewer than there
      are parts into the result. */
  lemma {:induction false} JoinCountsSeparators(c: char, parts: seq<string>)
    requires parts != []
    requires forall i :: 0 <= i < |parts| ==> c !in parts[i]
    ensures Occurrences(Join([c], parts), c) == |parts| - 1
  {
    if |parts| > 1 {
      var init := parts[..|parts| - 1];
      JoinCountsSeparators(c, init);
      OccurrencesAppend(Join([c], init) + [c], parts[|parts| - 1], c);
      OccurrencesAppend(Join([c], init), [c], c);
      OccurrencesNone(parts[|parts| - 1], c);
    } else {
      OccurrencesNone(parts[0], c);
    }
  }

  /** The position of the last `c` in `s`, or -1 when there is none. */
  function LastIndex(s: string, c: char): (i: int)
    ensures -1 <= i < |s|
    ensures i >= 0 ==> s[i] == c
    ensures forall j :: i < j < |s| ==> s[j] != c
  {
    if s == [] then -1 else if s[|s| - 1] == c then |s| - 1 else LastIndex(s[..|s| - 1], c)
  }

  /** `s.split(c)`: the pieces between the occurrences of `c`, in order. */
  function Split(s: string, c: char): (parts: seq<string>)
    ensures |parts| >= 1
    decreases |s|
  {
    var i := LastIndex(s, c);
    if i < 0 then [s] else Split(s[..i], c) + [s[i + 1..]]
  }

  /** Joining parts free of the separator and splitting the result at the separator gives the parts back. */
  lemma {:induction false} SplitJoin(c: char, parts: seq<string>)
    requires parts != []
    requires forall i :: 0 <= i < |parts| ==> c !in parts[i]
    ensures Split(Join([c], parts), c) == parts
  {
    if |parts| > 1 {
      var init := parts[..|parts| - 1];
      var last := parts[|parts| - 1];
      var j := Join([c], init);
      var s := Join([c], parts);
      assert s == j + [c] + last;
      SplitJoin(c, init);
      LastIndexBeforeSuffix(j, last, c);
      assert s[..|j|] == j;
      assert s[|j| + 1..] == last;
      assert parts == init + [last];
    }
  }

  /** In `j + [c] + last`, with no `c` in `last`, the last `c` is the one after `j`. */
  lemma LastIndexBeforeSuffix(j: string, last: string, c: char)
    requires c !in last
    ensures LastIndex(j + [c] + last, c) == |j|
  {
    var s := j + [c] + last;
    var i := LastIndex(s, c);
    assert s[|j|] == c;
    if i > |j| {
      assert false;
    }
  }

  /** Number of times `c` occurs in `s`. */
  function Occurrences(s: string, c: char): nat {
    if s == [] then 0 else Occurrences(s[..|s| - 1], c) + (if s[|s| - 1] == c then 1 else 0)
  }

  lemma {:induction false} OccurrencesNone(s: string, c: char)
    requires c !in s
    ensures Occurrences(s, c) == 0
  {
    if s != [] {
      assert s[..|s| - 1] + [s[|s| - 1]] == s;
      OccurrencesNone(s[..|s| - 1], c);
    }
  }

  lemma {:induction false} OccurrencesAppend(a: string, b: string, c: char)
    ensures Occurrences(a + b, c) == Occurrences(a, c) + Occurrences(b, c)
  {
    if b == [] {
      assert a + b == a;
    } else {
      assert (a + b)[..|a + b| - 1] == a + b[..|b| - 1];
      OccurrencesAppend(a, b[..|b| - 1], c);
    }
  }
}
