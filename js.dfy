/** The JavaScript and node-postgres behaviour the controllers lean on: truthiness
    (`x || default`), `String(x)` and template literals, `parseInt` without a radix
    (section 19.2.5 of ECMA-262), `trim`, `split(' ')` and `join`, strict equality
    between a stored column and a request value, the text node-postgres sends for a
    parameter, and the case-insensitive substring match of `ILIKE '%text%'`. */
module Js {

  datatype Option<+T> = None | Some(value: T) {
    /** `x ?? default` for a nullable value. */
    function GetOr(default: T): T {
      if Some? then value else default
    }
  }

  /** A value as it arrives in a JSON body, a form field or a query string.
      A JavaScript number is modelled only when it is an integer of magnitude
      below 1e21, the range where `String(n)` is its plain decimal digits. */
  datatype Value =
    | Undefined
    | Null
    | Str(s: string)
    | Num(n: int)
    | Bool(b: bool)
    | List(items: seq<Value>)

  /** ToBoolean: what `if (v)` and `v || d` test. */
  predicate Truthy(v: Value) {
    match v
    case Undefined => false
    case Null => false
    case Str(s) => s != ""
    case Num(n) => n != 0
    case Bool(b) => b
    case List(_) => true
  }

  /** `v === "true" || v === true` */
  predicate IsTrue(v: Value) {
    v == Str("true") || v == Bool(true)
  }

  // ---------------------------------------------------------------- characters

  /** ECMAScript WhiteSpace and LineTerminator code points: what `trim` removes and
      what `parseInt` skips before the number. */
  predicate IsWhite(c: char) {
    c == '\t' || c == '\n' || c == '\U{B}' || c == '\U{C}' || c == '\r' || c == ' '
    || c == '\U{A0}' || c == '\U{1680}' || ('\U{2000}' <= c <= '\U{200A}')
    || c == '\U{2028}' || c == '\U{2029}' || c == '\U{202F}' || c == '\U{205F}'
    || c == '\U{3000}' || c == '\U{FEFF}'
  }

  /** The characters a regular-expression `.` does not match. */
  predicate IsLineTerminator(c: char) {
    c == '\n' || c == '\r' || c == '\U{2028}' || c == '\U{2029}'
  }

  predicate IsDecimalDigit(c: char) {
    '0' <= c <= '9'
  }

  /** A digit of radix 16 when `hex`, of radix 10 otherwise. */
  predicate IsDigitIn(c: char, hex: bool) {
    IsDecimalDigit(c) || (hex && (('a' <= c <= 'f') || ('A' <= c <= 'F')))
  }

  function DigitValue(c: char): (d: nat)
    requires IsDigitIn(c, true)
    ensures d < 16
    ensures IsDecimalDigit(c) <==> d < 10
  {
    if IsDecimalDigit(c) then c as int - '0' as int
    else if 'a' <= c <= 'f' then c as int - 'a' as int + 10
    else c as int - 'A' as int + 10
  }

  function DecimalChar(d: nat): (c: char)
    requires d < 10
    ensures IsDecimalDigit(c) && DigitValue(c) == d
  {
    ('0' as int + d) as char
  }

  // ---------------------------------------------------------------- strings

  /** The string without its leading white space. */
  function TrimStart(s: string): (r: string)
    ensures |r| <= |s| && r == s[|s| - |r|..]
    ensures forall i :: 0 <= i < |s| - |r| ==> IsWhite(s[i])
    ensures r == [] || !IsWhite(r[0])
  {
    if s != [] && IsWhite(s[0]) then TrimStart(s[1..]) else s
  }

  /** The string without its trailing white space. */
  function TrimEnd(s: string): (r: string)
    ensures |r| <= |s| && r == s[..|r|]
    ensures forall i :: |r| <= i < |s| ==> IsWhite(s[i])
    ensures r == [] || !IsWhite(r[|r| - 1])
  {
    if s != [] && IsWhite(s[|s| - 1]) then TrimEnd(s[..|s| - 1]) else s
  }

  /** `String.prototype.trim`. */
  function Trim(s: string): (r: string)
    ensures |r| <= |s|
    ensures r == [] || (!IsWhite(r[0]) && !IsWhite(r[|r| - 1]))
    ensures (forall i :: 0 <= i < |s| ==> !IsWhite(s[i])) ==> r == s
  {
    TrimEnd(TrimStart(s))
  }

  /** `Array.prototype.join(sep)` over strings. */
  function Join(parts: seq<string>, sep: string): string
    decreases |parts|
  {
    if parts == [] then ""
    else if |parts| == 1 then parts[0]
    else parts[0] + sep + Join(parts[1..], sep)
  }

  /** The first position of `c` in `s`. */
  function IndexOf(s: string, c: char): (k: nat)
    requires c in s
    ensures k < |s| && s[k] == c && c !in s[..k]
  {
    if s[0] == c then 0 else 1 + IndexOf(s[1..], c)
  }

  /** `String.prototype.split(sep)` for a one-character separator: the pieces
      between the separators, so that joining them with the separator gives the
      string back. */
  function Split(s: string, sep: char): (parts: seq<string>)
    ensures |parts| >= 1
    ensures Join(parts, [sep]) == s
    ensures forall i :: 0 <= i < |parts| ==> sep !in parts[i]
    decreases |s|
  {
    if sep !in s then [s]
    else
      var k := IndexOf(s, sep);
      var rest := Split(s[k + 1..], sep);
      assert s == s[..k] + [sep] + s[k + 1..];
      assert ([s[..k]] + rest)[1..] == rest;
      [s[..k]] + rest
  }

  // ---------------------------------------------------------------- numbers

  /** The longest prefix of `s` made of digits of the radix. */
  function DigitRun(s: string, hex: bool): (d: string)
    ensures |d| <= |s| && d == s[..|d|]
    ensures forall i :: 0 <= i < |d| ==> IsDigitIn(d[i], hex)
    ensures |d| < |s| ==> !IsDigitIn(s[|d|], hex)
  {
    if s == [] || !IsDigitIn(s[0], hex) then [] else [s[0]] + DigitRun(s[1..], hex)
  }

  /** The positional value of a digit string, radix 16 when `hex`, radix 10 otherwise. */
  function DigitsValue(d: string, hex: bool): nat
    requires forall i :: 0 <= i < |d| ==> IsDigitIn(d[i], hex)
  {
    if d == [] then 0
    else
      assert IsDigitIn(d[|d| - 1], hex);
      DigitsValue(d[..|d| - 1], hex) * (if hex then 16 else 10) + DigitValue(d[|d| - 1])
  }

  /** The value of the digits at the start of an unsigned number: a `0x`/`0X`
      prefix selects radix 16, and no digits at all gives NaN, here `None`. */
  function UnsignedPrefix(u: string): Option<nat> {
    var hex := |u| >= 2 && u[0] == '0' && (u[1] == 'x' || u[1] == 'X');
    var digits := DigitRun(if hex then u[2..] else u, hex);
    if digits == [] then None else Some(DigitsValue(digits, hex))
  }

  /** A number with an optional sign in front of `UnsignedPrefix`. */
  function SignedPrefix(t: string): Option<int> {
    if t == [] then None
    else
      match UnsignedPrefix(if t[0] == '-' || t[0] == '+' then t[1..] else t)
      case None => None
      case Some(m) => Some(if t[0] == '-' then 0 - m else m)
  }

  /** `parseInt(s)` with no radix (section 19.2.5 of ECMA-262): skip leading white
      space, then read a signed number as `SignedPrefix` does. */
  function ParseInt(s: string): Option<int> {
    SignedPrefix(TrimStart(s))
  }

  /** Decimal digits of a natural number, most significant first. */
  function NatToString(n: nat): (s: string)
    ensures |s| >= 1
    ensures forall i :: 0 <= i < |s| ==> IsDecimalDigit(s[i])
    ensures DigitsValue(s, false) == n
  {
    if n < 10 then [DecimalChar(n)]
    else
      var s := NatToString(n / 10) + [DecimalChar(n % 10)];
      assert s[..|s| - 1] == NatToString(n / 10);
      s
  }

  /** `String(n)` for an integer. */
  function IntToString(n: int): string {
    if n < 0 then ['-'] + NatToString(-n) else NatToString(n)
  }

  /** `String(v)`, which is also what a template literal `${v}` inserts. An array
      joins its elements with commas, writing null and undefined as nothing. */
  function ToString(v: Value): string
    decreases v
  {
    match v
    case Undefined => "undefined"
    case Null => "null"
    case Str(s) => s
    case Num(n) => IntToString(n)
    case Bool(b) => if b then "true" else "false"
    case List(items) =>
      Join(seq(|items|, i requires 0 <= i < |items| =>
        if items[i].Undefined? || items[i].Null? then "" else ToString(items[i])), ",")
  }

  /** `parseInt(v)`: the argument is first converted with `String`. */
  function JsParseInt(v: Value): Option<int> {
    ParseInt(ToString(v))
  }

  /** The controllers' own `parseIntSafe`: `parseInt`, with NaN read as null. */
  function ParseIntSafe(v: Value): Option<int> {
    JsParseInt(v)
  }

  lemma {:induction false} DigitRunOfDigits(d: string, rest: string, hex: bool)
    requires forall i :: 0 <= i < |d| ==> IsDigitIn(d[i], hex)
    requires rest == [] || !IsDigitIn(rest[0], hex)
    ensures DigitRun(d + rest, hex) == d
  {
    if d != [] {
      assert (d + rest)[1..] == d[1..] + rest;
      DigitRunOfDigits(d[1..], rest, hex);
    } else {
      assert d + rest == rest;
    }
  }

  lemma {:induction false} TrimStartSkipsWhite(w: string, s: string)
    requires forall i :: 0 <= i < |w| ==> IsWhite(w[i])
    ensures TrimStart(w + s) == TrimStart(s)
  {
    if w != [] {
      assert (w + s)[1..] == w[1..] + s;
      TrimStartSkipsWhite(w[1..], s);
    } else {
      assert w + s == s;
    }
  }

  lemma {:induction false} UnsignedPrefixOfDecimal(m: nat, rest: string)
    requires rest == [] || !IsDecimalDigit(rest[0])
    requires m == 0 ==> rest == [] || (rest[0] != 'x' && rest[0] != 'X')
    ensures UnsignedPrefix(NatToString(m) + rest) == Some(m)
  {
    var d := NatToString(m);
    var u := d + rest;
    if |d| >= 2 {
      assert u[1] == d[1];
    }
    DigitRunOfDigits(d, rest, false);
  }

  lemma {:induction false} ParseIntNegative(d: string, m: nat)
    requires UnsignedPrefix(d) == Some(m) && d != []
    ensures ParseInt(['-'] + d) == Some(0 - m)
  {
    assert (['-'] + d)[1..] == d;
    ParseIntNoLeadingWhite(['-'] + d);
  }

  /** `parseInt` reads back the decimal text of any integer, and stops at the first
      character that cannot continue the number ("12abc" gives 12). */
  lemma {:induction false} ParseIntPrefix(n: int, rest: string)
    requires rest == [] || !IsDecimalDigit(rest[0])
    requires n == 0 ==> rest == [] || (rest[0] != 'x' && rest[0] != 'X')
    ensures ParseInt(IntToString(n) + rest) == Some(n)
  {
    if n < 0 {
      ParseIntNegativePrefix(-n, rest);
    } else {
      var u := NatToString(n) + rest;
      UnsignedPrefixOfDecimal(n, rest);
      assert IsDecimalDigit(u[0]);
      ParseIntNoLeadingWhite(u);
    }
  }

  lemma {:induction false} ParseIntNegativePrefix(m: nat, rest: string)
    requires m > 0
    requires rest == [] || !IsDecimalDigit(rest[0])
    ensures ParseInt(IntToString(0 - m) + rest) == Some(0 - m)
  {
    var u := NatToString(m) + rest;
    UnsignedPrefixOfDecimal(m, rest);
    assert IntToString(0 - m) + rest == ['-'] + u;
    ParseIntNegative(u, m);
  }

  lemma ParseIntNoLeadingWhite(s: string)
    requires s != [] && !IsWhite(s[0])
    ensures ParseInt(s) == SignedPrefix(s)
  {
  }

  /** `parseInt(String(n)) == n`: the decimal text of an integer parses back to it. */
  lemma ParseIntOfIntToString(n: int)
    ensures ParseInt(IntToString(n)) == Some(n)
  {
    ParseIntPrefix(n, "");
    assert IntToString(n) + "" == IntToString(n);
  }

  /** Leading white space never changes what `parseInt` reads. */
  lemma {:induction false} ParseIntSkipsWhite(w: string, s: string)
    requires forall i :: 0 <= i < |w| ==> IsWhite(w[i])
    ensures ParseInt(w + s) == ParseInt(s)
  {
    TrimStartSkipsWhite(w, s);
  }

  // ---------------------------------------------------------------- columns

  /** A JavaScript string as node-postgres writes it inside an array literal. */
  function EscapeArrayElement(s: string): string {
    if s == [] then ""
    else (if s[0] == '\\' then "\\\\" else if s[0] == '"' then "\\\"" else [s[0]])
         + EscapeArrayElement(s[1..])
  }

  /** The PostgreSQL array literal node-postgres sends for a JavaScript array. */
  function ArrayLiteral(v: Value): string
    requires v.List?
    decreases v
  {
    var items := v.items;
    "{" + Join(seq(|items|, i requires 0 <= i < |items| =>
      match items[i]
      case Undefined => "NULL"
      case Null => "NULL"
      case List(_) => ArrayLiteral(items[i])
      case _ => "\"" + EscapeArrayElement(ToString(items[i])) + "\""), ",") + "}"
  }

  /** What a text column holds after a request value is written to it through
      node-postgres: undefined and null become NULL, everything else its text. */
  function ColumnText(v: Value): Option<string> {
    match v
    case Undefined => None
    case Null => None
    case Str(s) => Some(s)
    case Num(n) => Some(IntToString(n))
    case Bool(b) => Some(if b then "true" else "false")
    case List(_) => Some(ArrayLiteral(v))
  }

  /** `x || null` for a text column. */
  function OrNull(v: Value): Option<string> {
    if Truthy(v) then ColumnText(v) else None
  }

  /** `stored === v` for a column value read back from the database (a string or
      null) and a request value: only a string equals a string, only null equals
      null, and `undefined` equals neither. */
  predicate StrictEquals(stored: Option<string>, v: Value) {
    match stored
    case None => v == Null
    case Some(s) => v == Str(s)
  }

  /** A value compares equal to what it left in a column exactly when it is a
      string or null: an omitted field (undefined), a number, a boolean or an
      array never does. */
  lemma StoredValueEquals(v: Value)
    ensures StrictEquals(ColumnText(v), v) <==> (v.Str? || v.Null?)
  {
  }

  // ---------------------------------------------------------------- ILIKE

  /** Case folding of PostgreSQL's `lower`, restricted to ASCII letters. */
  function Lower(c: char): char {
    if 'A' <= c <= 'Z' then (c as int + 32) as char else c
  }

  function LowerText(s: string): string {
    seq(|s|, i requires 0 <= i < |s| => Lower(s[i]))
  }

  /** `needle` occurs in `hay` at some position. */
  predicate Contains(hay: string, needle: string)
    decreases |hay|
  {
    needle <= hay || (hay != [] && Contains(hay[1..], needle))
  }

  /** `column ILIKE '%' || text || '%'`: NULL matches nothing. */
  predicate ILike(column: Option<string>, text: string) {
    column.Some? && Contains(LowerText(column.value), LowerText(text))
  }
}
