/** Text rendering of integer components, as `std::ostream << int` writes
    them, and a reader for the `VectorN(x=..., y=...)` layout that the vector
    types print. The reader exists to state what the rendering means: every
    rendered vector reads back as the components it was rendered from. */
module Text {

  datatype Option<T> = None | Some(value: T)

  predicate IsDigit(c: char) {
    '0' <= c <= '9'
  }

  predicate AllDigits(s: string) {
    forall i :: 0 <= i < |s| ==> IsDigit(s[i])
  }

  function DigitValue(c: char): nat
    requires IsDigit(c)
  {
    c as int - '0' as int
  }

  function DigitChar(d: nat): (c: char)
    requires d < 10
    ensures IsDigit(c) && DigitValue(c) == d
  {
    ('0' as int + d) as char
  }

  /** The decimal digits of `n`, most significant first, with no leading
      zero except for `n == 0` itself. */
  function NatDigits(n: nat): (s: string)
    ensures |s| >= 1 && AllDigits(s)
    ensures s[0] == '0' ==> n == 0
    decreases n
  {
    if n < 10 then [DigitChar(n)]
    else NatDigits(n / 10) + [DigitChar(n % 10)]
  }

  /** The decimal rendering of an `int` on a stream in its default
      formatting state (no `showpos`, `hex`, `setw` or fill): a minus sign
      for negative values, followed by the digits of the magnitude. */
  function Dec(n: int): (s: string)
    ensures |s| >= 1
    ensures s[0] == '-' <==> n < 0
    ensures forall i :: 0 <= i < |s| ==> IsDigit(s[i]) || (i == 0 && s[i] == '-')
  {
    if n < 0 then "-" + NatDigits(-n) else NatDigits(n)
  }

  /** The value of a string of decimal digits, most significant first. */
  function DigitsValue(s: string): nat
    requires AllDigits(s)
    decreases |s|
  {
    if |s| == 0 then 0
    else DigitsValue(s[..|s| - 1]) * 10 + DigitValue(s[|s| - 1])
  }

  /** Reads an optionally negative decimal integer that fills all of `s`. */
  function ParseInt(s: string): Option<int>
  {
    if |s| >= 2 && s[0] == '-' && AllDigits(s[1..]) then Some(-(DigitsValue(s[1..]) as int))
    else if |s| >= 1 && AllDigits(s) then Some(DigitsValue(s))
    else None
  }

  lemma {:induction false} NatDigitsValue(n: nat)
    ensures DigitsValue(NatDigits(n)) == n
    decreases n
  {
    if n >= 10 {
      var s := NatDigits(n);
      assert s[..|s| - 1] == NatDigits(n / 10);
      NatDigitsValue(n / 10);
    }
  }

  /** Reading back a rendered integer gives the integer. */
  lemma DecRoundTrip(n: int)
    ensures ParseInt(Dec(n)) == Some(n)
  {
    if n < 0 {
      assert Dec(n)[1..] == NatDigits(-n);
      NatDigitsValue(-n);
    } else {
      NatDigitsValue(n);
    }
  }

  /** The position of the first comma in `s`, or `|s|` when there is none. */
  function CommaIndex(s: string): (k: nat)
    ensures k <= |s|
    ensures forall i :: 0 <= i < k ==> s[i] != ','
    ensures k < |s| ==> s[k] == ','
    decreases |s|
  {
    if |s| == 0 || s[0] == ',' then 0 else 1 + CommaIndex(s[1..])
  }

  /** A rendered integer contains no comma, so the first comma after it
      marks its end. */
  lemma CommaIndexAfterDec(n: int, t: string)
    requires |t| == 0 || t[0] == ','
    ensures CommaIndex(Dec(n) + t) == |Dec(n)|
  {
    var s := Dec(n) + t;
    var k := CommaIndex(s);
    assert s[..|Dec(n)|] == Dec(n);
  }

  /** The field list of a rendering: `x=<x>, y=<y>` for names "xy". */
  function Fields(names: string, vals: seq<int>): string
    requires |names| == |vals|
    decreases |names|
  {
    if |names| == 0 then ""
    else if |names| == 1 then [names[0]] + "=" + Dec(vals[0])
    else [names[0]] + "=" + Dec(vals[0]) + (", " + Fields(names[1..], vals[1..]))
  }

  /** Reads one field `<name>=<integer>` at the start of `s`; the integer
      runs up to the first comma. Returns the value and the text after it. */
  function ParseField(s: string, name: char): (r: Option<(int, string)>)
    ensures r.Some? ==> |r.value.1| < |s|
  {
    if |s| < 2 || s[0] != name || s[1] != '=' then None
    else
      var body := s[2..];
      var k := CommaIndex(body);
      match ParseInt(body[..k])
      case None => None
      case Some(n) => Some((n, body[k..]))
  }

  /** Reads a field list with exactly the given names, in order. */
  function ParseFields(s: string, names: string): (r: Option<seq<int>>)
    ensures r.Some? ==> |r.value| == |names|
    decreases |names|
  {
    if |names| == 0 then (if |s| == 0 then Some([]) else None)
    else
      match ParseField(s, names[0])
      case None => None
      case Some((n, rest)) =>
        if |names| == 1 then
          (if |rest| == 0 then Some([n]) else None)
        else if |rest| >= 2 && rest[..2] == ", " then
          match ParseFields(rest[2..], names[1..])
          case None => None
          case Some(more) => Some([n] + more)
        else None
  }

  /** Reads `<tag>(<fields>)`. */
  function ParseVector(tag: string, names: string, s: string): (r: Option<seq<int>>)
    ensures r.Some? ==> |r.value| == |names|
  {
    var open := tag + "(";
    if |s| < |open| + 1 || s[..|open|] != open || s[|s| - 1] != ')' then None
    else ParseFields(s[|open|..|s| - 1], names)
  }

  /** A rendered field reads back as its value, leaving the text after it. */
  lemma FieldRoundTrip(name: char, n: int, t: string)
    requires |t| == 0 || t[0] == ','
    ensures ParseField([name] + "=" + Dec(n) + t, name) == Some((n, t))
  {
    var s := [name] + "=" + Dec(n) + t;
    var body := s[2..];
    assert body == Dec(n) + t;
    CommaIndexAfterDec(n, t);
    assert body[..|Dec(n)|] == Dec(n);
    assert body[|Dec(n)|..] == t;
    DecRoundTrip(n);
  }

  lemma {:induction false} FieldsRoundTrip(names: string, vals: seq<int>)
    requires |names| == |vals|
    ensures ParseFields(Fields(names, vals), names) == Some(vals)
    decreases |names|
  {
    if |names| == 1 {
      assert Fields(names, vals) == [names[0]] + "=" + Dec(vals[0]) + "";
      FieldRoundTrip(names[0], vals[0], "");
      assert vals == [vals[0]];
    } else if |names| > 1 {
      var more := Fields(names[1..], vals[1..]);
      var rest := ", " + more;
      assert Fields(names, vals) == [names[0]] + "=" + Dec(vals[0]) + rest;
      FieldRoundTrip(names[0], vals[0], rest);
      assert rest[..2] == ", " && rest[2..] == more;
      FieldsRoundTrip(names[1..], vals[1..]);
      assert [vals[0]] + vals[1..] == vals;
    }
  }

  /** Every rendering `<tag>(<fields>)` reads back as the values rendered. */
  lemma VectorRoundTrip(tag: string, names: string, vals: seq<int>)
    requires |names| == |vals|
    ensures ParseVector(tag, names, tag + "(" + Fields(names, vals) + ")") == Some(vals)
  {
    var s := tag + "(" + Fields(names, vals) + ")";
    var open := tag + "(";
    assert s[..|open|] == open;
    assert s[|open|..|s| - 1] == Fields(names, vals);
    FieldsRoundTrip(names, vals);
  }
}
