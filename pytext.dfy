/*
 * The slice of Python's text machinery that the flow record's rendering
 * relies on: the values a deserialised JSON object can hold, `str()` of
 * such a value, and `str.format` over a template of literal text and
 * replacement fields.
 */
module PyText {

  /** A value held under one key of a deserialised JSON object.
      `Other` stands for every value that is neither a string nor an
      integer (a float, a boolean, null, a list, a nested object) and
      carries the text Python's `str()` gives it. */
  datatype Value = Str(s: string) | Int(i: int) | Other(text: string)

  datatype Option<T> = None | Some(value: T)

  predicate IsDigit(c: char) { '0' <= c <= '9' }

  predicate AllDigits(s: string) { forall k :: 0 <= k < |s| ==> IsDigit(s[k]) }

  /** A canonical decimal numeral: digits only, and no leading zero
      unless the numeral is "0" itself. */
  predicate IsNumeral(s: string)
  {
    |s| >= 1 && AllDigits(s) && (s[0] == '0' ==> |s| == 1)
  }

  /** The text of a canonical decimal integer, as Python's `str()` writes one. */
  predicate IsDecimal(s: string)
  {
    IsNumeral(s) || (|s| >= 2 && s[0] == '-' && IsNumeral(s[1..]) && s[1..] != "0")
  }

  function DigitChar(d: nat): (c: char)
    requires d < 10
    ensures IsDigit(c) && c as int - '0' as int == d
  {
    ('0' as int + d) as char
  }

  /** Decimal digits of a natural number, most significant first. */
  function NatToString(n: nat): (r: string)
    ensures IsNumeral(r)
    ensures |r| == 1 <==> n < 10
    decreases n
  {
    if n < 10 then [DigitChar(n)] else NatToString(n / 10) + [DigitChar(n % 10)]
  }

  /** Python's `str()` of an int: a minus sign for negatives, then the digits. */
  function IntToString(i: int): (r: string)
    ensures IsDecimal(r)
    ensures r[0] == '-' <==> i < 0
  {
    if i < 0 then "-" + NatToString(-i) else NatToString(i)
  }

  /** Reads a string of digits as a natural number (the inverse of NatToString). */
  function ParseNat(s: string): nat
    requires AllDigits(s)
    decreases |s|
  {
    if s == [] then 0
    else ParseNat(s[..|s| - 1]) * 10 + (s[|s| - 1] as int - '0' as int)
  }

  /** Reads a canonical decimal integer (the inverse of IntToString). */
  function ParseInt(s: string): int
    requires IsDecimal(s)
  {
    if s[0] == '-' then 0 - ParseNat(s[1..]) else ParseNat(s) as int
  }

  lemma {:induction false} ParseNatOfNatToString(n: nat)
    ensures ParseNat(NatToString(n)) == n
    decreases n
  {
    var r := NatToString(n);
    if n >= 10 {
      ParseNatOfNatToString(n / 10);
      assert r[..|r| - 1] == NatToString(n / 10);
    }
  }

  /** Python's `str()` of an int can be read back: no two ints print alike. */
  lemma IntToStringRoundTrip(i: int)
    ensures ParseInt(IntToString(i)) == i
  {
    if i < 0 {
      ParseNatOfNatToString(-i);
      assert IntToString(i)[1..] == NatToString(-i);
    } else {
      ParseNatOfNatToString(i);
    }
  }

  lemma IntToStringInjective(a: int, b: int)
    ensures IntToString(a) == IntToString(b) <==> a == b
  {
    IntToStringRoundTrip(a);
    IntToStringRoundTrip(b);
  }

  /** Python's `str()` of a field value. A string is its own text; an int
      is written in decimal and reads back as the same int; any other value
      is written as the text it carries. */
  function ValueToString(v: Value): (r: string)
    ensures v.Str? ==> r == v.s
    ensures v.Int? ==> IsDecimal(r) && ParseInt(r) == v.i
    ensures v.Other? ==> r == v.text
  {
    match v
    case Str(s) => s
    case Int(i) => IntToStringRoundTrip(i); IntToString(i)
    case Other(text) => text
  }

  /** What `format` writes for a result that may be Python's `None`. */
  function OptionToString(o: Option<string>): (r: string)
    ensures o.Some? ==> r == o.value
    ensures o.None? ==> r == "None"
  {
    match o
    case None => "None"
    case Some(s) => s
  }

  /** One part of a `str.format` template: literal text, a named field
      `{name}`, or a positional field (`{}` is the next positional one). */
  datatype Piece = Lit(text: string) | Named(name: string) | Positional(index: nat)

  /** The text one piece contributes, or None when its field has no argument
      (where Python raises KeyError or IndexError). */
  function PieceText(p: Piece, named: map<string, string>, pos: seq<string>): Option<string>
  {
    match p
    case Lit(s) => Some(s)
    case Named(n) => if n in named then Some(named[n]) else None
    case Positional(k) => if k < |pos| then Some(pos[k]) else None
  }

  /** Both texts side by side, or None when either is missing. */
  function Join(a: Option<string>, b: Option<string>): (r: Option<string>)
  {
    if a.Some? && b.Some? then Some(a.value + b.value) else None
  }

  /** `template.format(*pos, **named)` with every argument already turned
      to text, read from the left. It succeeds exactly when every field
      has an argument. */
  function Format(t: seq<Piece>, named: map<string, string>, pos: seq<string>): Option<string>
    decreases |t|
  {
    if t == [] then Some("")
    else Join(Format(t[..|t| - 1], named, pos), PieceText(t[|t| - 1], named, pos))
  }

  /** Formatting fails exactly when some field has no argument. */
  lemma {:induction false} FormatSucceedsIff(t: seq<Piece>, named: map<string, string>, pos: seq<string>)
    ensures Format(t, named, pos).Some? <==> forall k :: 0 <= k < |t| ==> PieceText(t[k], named, pos).Some?
    decreases |t|
  {
    if t != [] {
      var init := t[..|t| - 1];
      FormatSucceedsIff(init, named, pos);
      assert forall k :: 0 <= k < |init| ==> init[k] == t[k];
    }
  }

  /** Formatting a template made of two parts gives the two parts' texts
      side by side. */
  lemma {:induction false} FormatAppend(t1: seq<Piece>, t2: seq<Piece>, named: map<string, string>, pos: seq<string>)
    ensures Format(t1 + t2, named, pos) == Join(Format(t1, named, pos), Format(t2, named, pos))
    decreases |t2|
  {
    var t := t1 + t2;
    if t2 == [] {
      assert t == t1;
      var a := Format(t1, named, pos);
      if a.Some? {
        assert a.value + "" == a.value;
      }
    } else {
      var init := t2[..|t2| - 1];
      assert t[..|t| - 1] == t1 + init;
      assert t[|t| - 1] == t2[|t2| - 1];
      FormatAppend(t1, init, named, pos);
      var a, b, c := Format(t1, named, pos), Format(init, named, pos), PieceText(t2[|t2| - 1], named, pos);
      if a.Some? && b.Some? && c.Some? {
        assert (a.value + b.value) + c.value == a.value + (b.value + c.value);
      }
    }
  }

  /** Formatting the first i pieces extends formatting the first i - 1 by
      the text of piece i - 1. */
  lemma FormatPrefix(t: seq<Piece>, named: map<string, string>, pos: seq<string>, i: nat)
    requires 0 < i <= |t|
    ensures Format(t[..i], named, pos) == Join(Format(t[..i - 1], named, pos), PieceText(t[i - 1], named, pos))
  {
    assert t[..i][..i - 1] == t[..i - 1];
  }
}
