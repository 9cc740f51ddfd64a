/** The dynamically typed values that reach the application in JSON request
    bodies and component props, with JavaScript's truthiness, `String(v)`,
    `Number.isInteger` and `parseInt`. */
module Js {
  import opened Text

  datatype Option<T> = None | Some(value: T)

  /** A JavaScript value. Numbers are integers or NaN; arrays are lists and
      plain objects are maps from property names. */
  datatype Value =
    | Undefined
    | Null
    | Bool(b: bool)
    | Int(i: int)
    | NaN
    | Str(s: string)
    | List(items: seq<Value>)
    | Obj(fields: map<string, Value>)

  /** What `if (v)` and `!v` test. */
  predicate Truthy(v: Value) {
    match v
    case Undefined => false
    case Null => false
    case Bool(b) => b
    case Int(i) => i != 0
    case NaN => false
    case Str(s) => s != []
    case List(_) => true
    case Obj(_) => true
  }

  /** `a || b`: `a` when it is truthy, otherwise `b`. */
  function Or(a: Value, b: Value): (r: Value)
    ensures Truthy(a) ==> r == a
    ensures !Truthy(a) ==> r == b
    ensures Truthy(r) <==> Truthy(a) || Truthy(b)
  {
    if Truthy(a) then a else b
  }

  /** `Number.isInteger(v)`. */
  predicate IsInteger(v: Value) {
    v.Int?
  }

  /** `body[key]`: an absent key reads as `undefined`. */
  function Get(body: map<string, Value>, key: string): (v: Value)
    ensures key !in body ==> v == Undefined
  {
    if key in body then body[key] else Undefined
  }

  /** `String(i)` for an integer. */
  function IntToText(i: int): (r: string)
    ensures r != []
  {
    if i < 0 then "-" + NatToString(-i) else NatToString(i)
  }

  /** `String(v)`. */
  function ToText(v: Value): string {
    match v
    case Undefined => "undefined"
    case Null => "null"
    case Bool(b) => if b then "true" else "false"
    case Int(i) => IntToText(i)
    case NaN => "NaN"
    case Str(s) => s
    case List(items) => Join(seq(|items|, k requires 0 <= k < |items| =>
                               if items[k].Undefined? || items[k].Null? then "" else ToText(items[k])), ",")
    case Obj(_) => "[object Object]"
  }

  /** Length of the longest run of decimal digits at the start of `s`. */
  function DigitRun(s: string): (n: nat)
    ensures n <= |s| && AllDigits(s[..n])
    ensures n < |s| ==> !IsDigit(s[n])
  {
    if s == [] || !IsDigit(s[0]) then 0
    else
      var k := DigitRun(s[1..]);
      assert s[..k + 1] == [s[0]] + s[1..][..k];
      1 + k
  }

  /** `parseInt(s)` in base ten: leading white space, an optional sign, then the
      longest run of digits; NaN (`None`) when there is no digit. */
  function ParseIntText(s: string): (r: Option<int>)
  {
    var t := TrimStart(s);
    var neg := t != [] && t[0] == '-';
    var u := if t != [] && (t[0] == '-' || t[0] == '+') then t[1..] else t;
    var n := DigitRun(u);
    var magnitude: int := ParseNat(u[..n]);
    if n == 0 then None else Some(if neg then -magnitude else magnitude)
  }

  /** `parseInt(v)`: the argument is converted to text first. */
  function ParseInt(v: Value): Option<int> {
    ParseIntText(ToText(v))
  }

  /** `parseInt(v)` as the number value it yields. */
  function ParseIntValue(v: Value): (r: Value)
    ensures r.Int? || r.NaN?
  {
    match ParseInt(v)
    case Some(i) => Int(i)
    case None => NaN
  }

  lemma DigitRunAll(s: string)
    requires AllDigits(s)
    ensures DigitRun(s) == |s|
  {
  }

  /** `parseInt` of an integer gives the integer back. */
  lemma ParseIntOfInt(i: int)
    ensures ParseInt(Int(i)) == Some(i)
  {
    var m: nat := if i < 0 then -i else i;
    var d := NatToString(m);
    var t := IntToText(i);
    assert ToText(Int(i)) == t;
    assert !IsSpace(t[0]);
    assert TrimStart(t) == t;
    var u := if t[0] == '-' || t[0] == '+' then t[1..] else t;
    assert u == d by {
      if i < 0 {
        assert t == "-" + d;
        assert t[1..] == d;
      } else {
        assert IsDigit(t[0]);
      }
    }
    DigitRunAll(d);
    assert d[..|d|] == d;
    ParseNatToString(m);
  }

  /** `parseInt` leaves integer values as they are and turns NaN into NaN. */
  lemma ParseIntValueOfNumber(v: Value)
    requires v.Int? || v.NaN?
    ensures ParseIntValue(v) == v
  {
    if v.Int? {
      ParseIntOfInt(v.i);
    } else {
      assert ToText(v) == "NaN";
      assert TrimStart("NaN") == "NaN";
      assert DigitRun("NaN") == 0;
    }
  }
}
