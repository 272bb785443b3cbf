/** The order-independent text a table is hashed from. */
module Fingerprint {
  import opened Text

  type Byte = b: int | 0 <= b < 256

  // 52 bits.
  type Fraction = f: int | 0 <= f < 0x10_0000_0000_0000

  // A double: every NaN counts as one value, the two zeros as two.
  datatype Double = Nan | Infinite(negative: bool) | Zero(negative: bool)
                  | Finite(negative: bool, normal: bool, fraction: Fraction, exponent: int)

  datatype Value = Null | Bool(b: bool) | Int(i: int) | Float(f: Double) | Text(s: string) | Blob(bytes: seq<Byte>)

  type Row = seq<Value>

  // ---- the encoding ----

  function HexDigit(d: int): char
    requires 0 <= d < 16
  {
    if d < 10 then Digit(d) else ('a' as int + d - 10) as char
  }

  // The last n hexadecimal digits of v.
  function HexDigits(v: nat, n: nat): (s: string)
    ensures |s| == n
  {
    if n == 0 then "" else HexDigits(v / 16, n - 1) + [HexDigit(v % 16)]
  }

  function Decimal(n: nat): string {
    if n < 10 then [Digit(n)] else Decimal(n / 10) + [Digit(n % 10)]
  }

  function IntText(i: int): string {
    if i < 0 then "-" + Decimal(-i) else Decimal(i)
  }

  function Sign(negative: bool): string {
    if negative then "-" else ""
  }

  predicate Negative(f: Double) {
    !f.Nan? && f.negative
  }

  function ExponentText(e: int): string {
    if e < 0 then "-" + Decimal(-e) else "+" + Decimal(e)
  }

  function Magnitude(f: Double): string {
    match f
    case Nan => "nan"
    case Infinite(_) => "inf"
    case Zero(_) => "0x0.0p+0"
    case Finite(_, normal, fraction, exponent) =>
      "0x" + (if normal then "1." else "0.") + HexDigits(fraction, 13) + "p" + ExponentText(exponent)
  }

  // float.hex(), and the names of the values it has no digits for.
  function DoubleText(f: Double): string {
    Sign(Negative(f)) + Magnitude(f)
  }

  // The escapes of a JSON string that leaves non-ASCII text alone.
  function Escaped(c: char): string {
    if c == '\"' then "\\\""
    else if c == '\\' then "\\\\"
    else if c == '\n' then "\\n"
    else if c == '\r' then "\\r"
    else if c == '\t' then "\\t"
    else if c as int == 8 then "\\b"
    else if c as int == 12 then "\\f"
    else if c < ' ' then "\\u" + HexDigits(c as int, 4)
    else [c]
  }

  function EscapedText(s: string): string {
    if s == "" then "" else Escaped(s[0]) + EscapedText(s[1..])
  }

  function HexBytes(bytes: seq<Byte>): string {
    if bytes == [] then "" else HexDigits(bytes[0], 2) + HexBytes(bytes[1..])
  }

  function Tag(v: Value): string {
    match v
    case Null => "null"
    case Bool(_) => "bool"
    case Int(_) => "int"
    case Float(_) => "float"
    case Text(_) => "text"
    case Blob(_) => "blob"
  }

  function Payload(v: Value): string {
    match v
    case Null => "null"
    case Bool(b) => if b then "true" else "false"
    case Int(i) => IntText(i)
    case Float(f) => "\"" + DoubleText(f) + "\""
    case Text(s) => "\"" + EscapedText(s) + "\""
    case Blob(bytes) => "\"" + HexBytes(bytes) + "\""
  }

  function ValueText(v: Value): string {
    "[\"" + Tag(v) + "\"," + Payload(v) + "]"
  }

  // What follows the first value of a row.
  function RestText(row: Row): string {
    if row == [] then "]" else "," + ValueText(row[0]) + RestText(row[1..])
  }

  function RowText(row: Row): string {
    if row == [] then "[]" else "[" + ValueText(row[0]) + RestText(row[1..])
  }

  // ---- each encoding can be read back ----

  // Two runs of characters of one kind, each ended by a character of the other kind.
  lemma {:induction false} SameRun(kind: char -> bool, a: string, b: string, x: string, y: string)
    requires (forall c | c in a :: kind(c)) && (forall c | c in b :: kind(c))
    requires x != "" && y != "" && !kind(x[0]) && !kind(y[0])
    requires a + x == b + y
    ensures a == b && x == y
  {
    FirstOf(a, x);
    FirstOf(b, y);
    if a == "" && b == "" {
      assert a + x == x && b + y == y;
    } else if a != "" && b != "" {
      assert (a + x)[1..] == a[1..] + x && (b + y)[1..] == b[1..] + y;
      assert (a + x)[0] == a[0] && (b + y)[0] == b[0];
      SameRun(kind, a[1..], b[1..], x, y);
      assert a == [a[0]] + a[1..] && b == [b[0]] + b[1..];
    }
  }

  lemma FirstOf(a: string, x: string)
    requires x != ""
    ensures (a + x)[0] == if a == "" then x[0] else a[0]
    ensures a != "" ==> a[0] in a
  {
  }

  lemma Regroup(a: string, b: string, x: string)
    ensures (a + b) + x == a + (b + x)
  {
  }

  // Cutting two equal strings at the same place.
  lemma SameCut(a: string, b: string, x: string, y: string)
    requires |a| == |b| && a + x == b + y
    ensures a == b && x == y
  {
    assert a == (a + x)[..|a|] && b == (b + y)[..|a|];
    assert x == (a + x)[|a|..] && y == (b + y)[|a|..];
  }

  predicate IsDigit(c: char) {
    '0' <= c <= '9'
  }

  predicate IsHex(c: char) {
    '0' <= c <= '9' || 'a' <= c <= 'f'
  }

  lemma {:induction false} DecimalDigits(n: nat)
    ensures Decimal(n) != "" && forall c | c in Decimal(n) :: IsDigit(c)
  {
    if n >= 10 {
      DecimalDigits(n / 10);
    }
  }

  lemma {:induction false} DecimalInjective(m: nat, n: nat)
    requires Decimal(m) == Decimal(n)
    ensures m == n
  {
    DecimalDigits(m / 10);
    DecimalDigits(n / 10);
    if m >= 10 && n >= 10 {
      var a, b := Decimal(m / 10), Decimal(n / 10);
      assert |a| == |Decimal(m)| - 1 == |b|;
      SameCut(a, b, [Digit(m % 10)], [Digit(n % 10)]);
      DecimalInjective(m / 10, n / 10);
    }
  }

  lemma IntTextInjective(i: int, j: int)
    requires IntText(i) == IntText(j)
    ensures i == j
  {
    DecimalDigits(if i < 0 then -i else i);
    DecimalDigits(if j < 0 then -j else j);
    assert i < 0 ==> IntText(i)[0] == '-' && IntText(i)[1..] == Decimal(-i);
    assert j < 0 ==> IntText(j)[0] == '-' && IntText(j)[1..] == Decimal(-j);
    assert i >= 0 ==> IntText(i)[0] in Decimal(i);
    assert j >= 0 ==> IntText(j)[0] in Decimal(j);
    DecimalInjective(if i < 0 then -i else i, if j < 0 then -j else j);
  }

  function Pow16(n: nat): nat {
    if n == 0 then 1 else 16 * Pow16(n - 1)
  }

  lemma {:induction false} HexDigitsInjective(v: nat, w: nat, n: nat)
    requires v < Pow16(n) && w < Pow16(n) && HexDigits(v, n) == HexDigits(w, n)
    ensures v == w
  {
    if n > 0 {
      SameCut(HexDigits(v / 16, n - 1), HexDigits(w / 16, n - 1), [HexDigit(v % 16)], [HexDigit(w % 16)]);
      HexDigitsInjective(v / 16, w / 16, n - 1);
      assert v % 16 == w % 16;
    }
  }

  lemma {:induction false} HexDigitsAreHex(v: nat, n: nat)
    ensures forall c | c in HexDigits(v, n) :: IsHex(c)
  {
    if n > 0 {
      HexDigitsAreHex(v / 16, n - 1);
    }
  }

  lemma {:induction false} HexBytesInjective(a: seq<Byte>, b: seq<Byte>)
    requires HexBytes(a) == HexBytes(b)
    ensures a == b
  {
    assert Pow16(2) == 256 by {
      assert Pow16(1) == 16;
    }
    if a != [] && b != [] {
      SameCut(HexDigits(a[0], 2), HexDigits(b[0], 2), HexBytes(a[1..]), HexBytes(b[1..]));
      HexDigitsInjective(a[0], b[0], 2);
      HexBytesInjective(a[1..], b[1..]);
      assert a == [a[0]] + a[1..] && b == [b[0]] + b[1..];
    }
  }

  lemma {:induction false} HexBytesAreHex(a: seq<Byte>)
    ensures forall c | c in HexBytes(a) :: IsHex(c)
  {
    if a != [] {
      HexDigitsAreHex(a[0], 2);
      HexBytesAreHex(a[1..]);
    }
  }

  // The first two characters of an escape give its length and, if that is not six, the character.
  lemma EscapeShape(c: char)
    ensures Escaped(c) != "" && (Escaped(c)[0] == '\\' <==> |Escaped(c)| > 1)
    ensures |Escaped(c)| == 1 ==> Escaped(c) == [c]
    ensures |Escaped(c)| > 1 ==>
              (|Escaped(c)| == 6 <==> Escaped(c)[1] == 'u') && (|Escaped(c)| == 6 || |Escaped(c)| == 2)
    ensures |Escaped(c)| == 6 ==> Escaped(c) == "\\u" + HexDigits(c as int, 4) && (c as int) < 65536
  {
  }

  lemma ShortEscapeInjective(c: char, d: char)
    requires |Escaped(c)| == 2 && Escaped(c) == Escaped(d)
    ensures c == d
  {
    assert Escaped(c)[1] == Escaped(d)[1];
  }

  lemma EscapedApart(c: char, d: char, x: string, y: string)
    requires Escaped(c) + x == Escaped(d) + y
    ensures c == d && x == y
  {
    EscapeShape(c);
    EscapeShape(d);
    hide Escaped, HexDigits;
    var s, t := Escaped(c) + x, Escaped(d) + y;
    assert s[0] == Escaped(c)[0] && t[0] == Escaped(d)[0];
    if |Escaped(c)| > 1 && |Escaped(d)| > 1 {
      assert s[1] == Escaped(c)[1] && t[1] == Escaped(d)[1];
    }
    SameCut(Escaped(c), Escaped(d), x, y);
    if |Escaped(c)| == 6 {
      SameCut("\\u", "\\u", HexDigits(c as int, 4), HexDigits(d as int, 4));
      assert Pow16(4) == 65536 by {
        assert Pow16(2) == 256;
      }
      HexDigitsInjective(c as int, d as int, 4);
    } else if |Escaped(c)| == 2 {
      ShortEscapeInjective(c, d);
    }
  }

  lemma EscapedStart(c: char)
    ensures Escaped(c) != "" && Escaped(c)[0] != '\"'
  {
  }

  lemma QuotedStart(s: string, x: string)
    ensures EscapedText(s) + "\"" + x != "" && ((EscapedText(s) + "\"" + x)[0] == '\"' <==> s == "")
    ensures s != "" ==> EscapedText(s) + "\"" + x == Escaped(s[0]) + (EscapedText(s[1..]) + "\"" + x)
  {
    hide Escaped;
    if s != "" {
      var first, rest := Escaped(s[0]), EscapedText(s[1..]);
      EscapedStart(s[0]);
      Regroup(first, rest, "\"");
      Regroup(first, rest + "\"", x);
      FirstOf(first, rest + "\"" + x);
    }
  }

  // A quoted text ends at its first bare quote.
  lemma {:induction false} EscapedTextApart(s: string, t: string, x: string, y: string)
    requires EscapedText(s) + "\"" + x == EscapedText(t) + "\"" + y
    ensures s == t && x == y
  {
    hide Escaped;
    var a, b := EscapedText(s) + "\"" + x, EscapedText(t) + "\"" + y;
    QuotedStart(s, x);
    QuotedStart(t, y);
    if s == "" && t == "" {
      assert a == "\"" + x && b == "\"" + y;
      SameCut("\"", "\"", x, y);
    } else if s != "" && t != "" {
      EscapedApart(s[0], t[0], EscapedText(s[1..]) + "\"" + x, EscapedText(t[1..]) + "\"" + y);
      EscapedTextApart(s[1..], t[1..], x, y);
      assert s == [s[0]] + s[1..] && t == [t[0]] + t[1..];
    }
  }

  lemma {:induction false} EscapedTextHasNoNewline(s: string)
    ensures '\n' !in EscapedText(s)
  {
    if s != "" {
      EscapedTextHasNoNewline(s[1..]);
      HexDigitsAreHex(s[0] as int, 4);
    }
  }

  // ---- doubles ----

  lemma DoubleTextIsUnquoted(f: Double)
    ensures forall c | c in DoubleText(f) :: c != '\"' && c != '\n'
  {
    if f.Finite? {
      HexDigitsAreHex(f.fraction, 13);
      DecimalDigits(if f.exponent < 0 then -f.exponent else f.exponent);
    }
  }

  lemma MagnitudeShape(f: Double)
    ensures Magnitude(f) != "" && Magnitude(f)[0] != '-'
    ensures f.Nan? ==> |Magnitude(f)| == 3 && Magnitude(f)[0] == 'n'
    ensures f.Infinite? ==> |Magnitude(f)| == 3 && Magnitude(f)[0] == 'i'
    ensures f.Zero? ==> |Magnitude(f)| == 8
    ensures f.Finite? ==> |Magnitude(f)| > 18
  {
    if f.Finite? {
      DecimalDigits(if f.exponent < 0 then -f.exponent else f.exponent);
    }
  }

  lemma FiniteInjective(f: Double, g: Double)
    requires f.Finite? && g.Finite? && Magnitude(f) == Magnitude(g)
    ensures f.normal == g.normal && f.fraction == g.fraction && f.exponent == g.exponent
  {
    var head, head' := "0x" + (if f.normal then "1." else "0."), "0x" + (if g.normal then "1." else "0.");
    var tail, tail' := ExponentText(f.exponent), ExponentText(g.exponent);
    assert Magnitude(f) == (head + HexDigits(f.fraction, 13)) + ("p" + tail);
    assert Magnitude(g) == (head' + HexDigits(g.fraction, 13)) + ("p" + tail');
    SameCut(head + HexDigits(f.fraction, 13), head' + HexDigits(g.fraction, 13), "p" + tail, "p" + tail');
    SameCut(head, head', HexDigits(f.fraction, 13), HexDigits(g.fraction, 13));
    assert head[2] == head'[2];
    SameCut("p", "p", tail, tail');
    Pow16Of13();
    HexDigitsInjective(f.fraction, g.fraction, 13);
    ExponentInjective(f.exponent, g.exponent);
  }

  lemma ExponentInjective(e: int, d: int)
    requires ExponentText(e) == ExponentText(d)
    ensures e == d
  {
    var m, n := if e < 0 then -e else e, if d < 0 then -d else d;
    assert ExponentText(e)[0] == ExponentText(d)[0];
    assert ExponentText(e)[1..] == Decimal(m) && ExponentText(d)[1..] == Decimal(n);
    DecimalInjective(m, n);
  }

  lemma Pow16Of13()
    ensures Pow16(13) == 0x10_0000_0000_0000
  {
    assert Pow16(4) == 65536 by {
      assert Pow16(2) == 256;
    }
    assert Pow16(7) == 0x1000_0000 by {
      assert Pow16(5) == 0x10_0000;
    }
    assert Pow16(10) == 0x100_0000_0000 by {
      assert Pow16(8) == 0x1_0000_0000;
    }
    assert Pow16(12) == 0x1_0000_0000_0000 by {
      assert Pow16(11) == 0x1000_0000_0000;
    }
  }

  // float.hex() tells every two doubles apart.
  lemma DoubleTextInjective(f: Double, g: Double)
    requires DoubleText(f) == DoubleText(g)
    ensures f == g
  {
    hide HexDigits, Decimal, Magnitude;
    MagnitudeShape(f);
    MagnitudeShape(g);
    FirstOf(Sign(Negative(f)), Magnitude(f));
    FirstOf(Sign(Negative(g)), Magnitude(g));
    assert Negative(f) == Negative(g);
    SameCut(Sign(Negative(f)), Sign(Negative(g)), Magnitude(f), Magnitude(g));
    if f.Finite? && g.Finite? {
      FiniteInjective(f, g);
    }
  }

  // ---- values and rows ----

  function Start(v: Value): string {
    "[\"" + Tag(v) + "\","
  }

  lemma ValueParts(v: Value, x: string)
    ensures ValueText(v) + x == Start(v) + (Payload(v) + ("]" + x))
  {
    hide Payload, Tag;
    Regroup(Start(v), Payload(v), "]");
    Regroup(Start(v), Payload(v) + "]", x);
    Regroup(Payload(v), "]", x);
  }

  lemma StartsApart(v: Value, w: Value, x: string, y: string)
    requires Start(v) + x == Start(w) + y
    ensures v.Null? <==> w.Null?
    ensures v.Bool? <==> w.Bool?
    ensures v.Int? <==> w.Int?
    ensures v.Float? <==> w.Float?
    ensures v.Text? <==> w.Text?
    ensures v.Blob? <==> w.Blob?
    ensures x == y
  {
    var s, t := Start(v) + x, Start(w) + y;
    assert s[2] == Start(v)[2] && t[2] == Start(w)[2];
    assert s[3] == Start(v)[3] && t[3] == Start(w)[3];
    assert |Start(v)| == |Start(w)|;
    SameCut(Start(v), Start(w), x, y);
  }

  // Two quoted texts without quotes inside.
  lemma QuotedApart(a: string, b: string, x: string, y: string)
    requires '\"' !in a && '\"' !in b
    requires "\"" + a + "\"" + x == "\"" + b + "\"" + y
    ensures a == b && x == y
  {
    OpeningQuote(a, x);
    OpeningQuote(b, y);
    SameCut("\"", "\"", a + ("\"" + x), b + ("\"" + y));
    SameRun(c => c != '\"', a, b, "\"" + x, "\"" + y);
    SameCut("\"", "\"", x, y);
  }

  lemma OpeningQuote(a: string, x: string)
    ensures "\"" + a + "\"" + x == "\"" + (a + ("\"" + x))
    ensures a + ("\"" + x) == a + "\"" + x
  {
    Regroup("\"", a, "\"");
    Regroup("\"", a + "\"", x);
    Regroup(a, "\"", x);
  }

  // A value's text says where it ends and which value it is.
  lemma ValueTextApart(v: Value, w: Value, x: string, y: string)
    requires ValueText(v) + x == ValueText(w) + y
    ensures v == w && x == y
  {
    hide ValueText, Start, DoubleText, EscapedText, IntText, HexBytes, Decimal;
    ValueParts(v, x);
    ValueParts(w, y);
    var x', y' := "]" + x, "]" + y;
    StartsApart(v, w, Payload(v) + x', Payload(w) + y');
    match v {
      case Null => SameCut("null", "null", x', y');
      case Bool(b) =>
        FirstOf(Payload(v), x');
        FirstOf(Payload(w), y');
        SameCut(Payload(v), Payload(w), x', y');
      case Int(i) =>
        IntTextDigits(i);
        IntTextDigits(w.i);
        SameRun(c => c != ']', IntText(i), IntText(w.i), x', y');
        IntTextInjective(i, w.i);
      case Float(f) =>
        DoubleTextIsUnquoted(f);
        DoubleTextIsUnquoted(w.f);
        QuotedApart(DoubleText(f), DoubleText(w.f), x', y');
        DoubleTextInjective(f, w.f);
      case Text(s) =>
        OpeningQuote(EscapedText(s), x');
        OpeningQuote(EscapedText(w.s), y');
        SameCut("\"", "\"", EscapedText(s) + ("\"" + x'), EscapedText(w.s) + ("\"" + y'));
        EscapedTextApart(s, w.s, x', y');
      case Blob(bytes) =>
        HexBytesAreHex(bytes);
        HexBytesAreHex(w.bytes);
        QuotedApart(HexBytes(bytes), HexBytes(w.bytes), x', y');
        HexBytesInjective(bytes, w.bytes);
    }
    SameCut("]", "]", x, y);
  }

  lemma IntTextDigits(i: int)
    ensures forall c | c in IntText(i) :: c != ']' && c != '\n'
  {
    DecimalDigits(if i < 0 then -i else i);
  }

  lemma PayloadHasNoNewline(v: Value)
    ensures '\n' !in Payload(v)
  {
    hide DoubleText, EscapedText, HexBytes, IntText;
    match v
    case Int(i) => IntTextDigits(i);
    case Float(f) => DoubleTextIsUnquoted(f);
    case Text(s) => EscapedTextHasNoNewline(s);
    case Blob(bytes) => HexBytesAreHex(bytes);
    case _ =>
  }

  lemma ValueTextStart(v: Value)
    ensures ValueText(v) != "" && ValueText(v)[0] == '['
    ensures '\n' !in ValueText(v)
  {
    PayloadHasNoNewline(v);
    hide Payload;
    var start := "[\"" + Tag(v) + "\",";
    assert '\n' !in start;
    Regroup(start, Payload(v), "]");
    FirstOf(start, Payload(v) + "]");
  }

  lemma {:induction false} RestTextInjective(a: Row, b: Row)
    requires RestText(a) == RestText(b)
    ensures a == b
  {
    hide ValueText;
    RestParts(a);
    RestParts(b);
    if a != [] && b != [] {
      SameCut(",", ",", ValueText(a[0]) + RestText(a[1..]), ValueText(b[0]) + RestText(b[1..]));
      ValueTextApart(a[0], b[0], RestText(a[1..]), RestText(b[1..]));
      RestTextInjective(a[1..], b[1..]);
      assert a == [a[0]] + a[1..] && b == [b[0]] + b[1..];
    }
  }

  lemma RestParts(row: Row)
    ensures RestText(row) != "" && (row == [] <==> RestText(row)[0] == ']')
    ensures row != [] ==> RestText(row) == "," + (ValueText(row[0]) + RestText(row[1..]))
  {
    hide ValueText;
    if row != [] {
      Regroup(",", ValueText(row[0]), RestText(row[1..]));
      FirstOf(",", ValueText(row[0]) + RestText(row[1..]));
    }
  }

  // Two rows with the same text are the same row.
  lemma RowTextInjective(a: Row, b: Row)
    requires RowText(a) == RowText(b)
    ensures a == b
  {
    hide ValueText;
    RowParts(a);
    RowParts(b);
    if a != [] && b != [] {
      SameCut("[", "[", ValueText(a[0]) + RestText(a[1..]), ValueText(b[0]) + RestText(b[1..]));
      ValueTextApart(a[0], b[0], RestText(a[1..]), RestText(b[1..]));
      RestTextInjective(a[1..], b[1..]);
      assert a == [a[0]] + a[1..] && b == [b[0]] + b[1..];
    }
  }

  lemma RowParts(row: Row)
    ensures |RowText(row)| > 1 && (row == [] <==> RowText(row)[1] == ']')
    ensures row != [] ==> RowText(row) == "[" + (ValueText(row[0]) + RestText(row[1..]))
  {
    hide ValueText, RestText;
    if row != [] {
      var v, rest := ValueText(row[0]), RestText(row[1..]);
      ValueTextStart(row[0]);
      RestParts(row[1..]);
      Regroup("[", v, rest);
      FirstOf(v, rest);
      assert ("[" + (v + rest))[1] == (v + rest)[0];
    }
  }

  lemma {:induction false} RestTextHasNoNewline(row: Row)
    ensures '\n' !in RestText(row)
  {
    hide ValueText;
    if row != [] {
      ValueTextStart(row[0]);
      RestTextHasNoNewline(row[1..]);
    }
  }

  lemma {:induction false} RowTextHasNoNewline(row: Row)
    ensures '\n' !in RowText(row) && RowText(row) != ""
  {
    hide ValueText;
    if row != [] {
      ValueTextStart(row[0]);
      RestTextHasNoNewline(row[1..]);
    }
  }

  // ---- the table ----

  function Encoded(rows: seq<Row>): seq<string> {
    if rows == [] then [] else [RowText(rows[0])] + Encoded(rows[1..])
  }

  function Insert(x: string, l: seq<string>): seq<string> {
    if l == [] || !LexLess(l[0], x) then [x] + l else [l[0]] + Insert(x, l[1..])
  }

  // sorted() on strings.
  function Sorted(l: seq<string>): seq<string> {
    if l == [] then [] else Insert(l[0], Sorted(l[1..]))
  }

  // "\n".join()
  function Joined(l: seq<string>): string {
    if l == [] then "" else if |l| == 1 then l[0] else l[0] + ("\n" + Joined(l[1..]))
  }

  datatype Digest = Sha256(text: string)

  // What is hashed.
  function Hashed(rows: seq<Row>): string {
    Joined(Sorted(Encoded(rows)))
  }

  function CanonicalRows(rows: seq<Row>): (nat, Digest) {
    (|rows|, Sha256(Hashed(rows)))
  }

  ghost predicate InOrder(l: seq<string>) {
    forall i, j | 0 <= i < j < |l| :: !LexLess(l[j], l[i])
  }

  lemma {:induction false} InsertKeepsOrder(x: string, l: seq<string>)
    requires InOrder(l)
    ensures InOrder(Insert(x, l)) && multiset(Insert(x, l)) == multiset(l) + multiset{x}
  {
    hide LexLess;
    if l == [] || !LexLess(l[0], x) {
      forall j | 0 <= j < |l|
        ensures !LexLess(l[j], x)
      {
        if LexLess(l[j], x) {
          NotBelow(l[0], l[j], x);
        }
      }
    } else {
      var rest := l[1..];
      InsertKeepsOrder(x, rest);
      assert l == [l[0]] + rest;
      forall y | y in Insert(x, rest)
        ensures !LexLess(y, l[0])
      {
        assert y in multiset(Insert(x, rest));
        if y == x {
          LexLessAsymmetric(l[0], x);
        }
      }
    }
  }

  // l0 <= y and y < x give l0 < x.
  lemma NotBelow(l0: string, y: string, x: string)
    requires !LexLess(y, l0) && LexLess(y, x)
    ensures LexLess(l0, x)
  {
    LexLessTotal(l0, y);
    if LexLess(l0, y) {
      LexLessTransitive(l0, y, x);
    }
  }

  lemma {:induction false} SortedIsInOrder(l: seq<string>)
    ensures InOrder(Sorted(l)) && multiset(Sorted(l)) == multiset(l)
  {
    if l != [] {
      SortedIsInOrder(l[1..]);
      InsertKeepsOrder(l[0], Sorted(l[1..]));
      assert l == [l[0]] + l[1..];
    }
  }

  // One order for one multiset.
  lemma {:induction false} InOrderIsUnique(a: seq<string>, b: seq<string>)
    requires InOrder(a) && InOrder(b) && multiset(a) == multiset(b)
    ensures a == b
  {
    hide LexLess, InOrder;
    SameSize(a, b);
    if a != [] {
      FirstIsLeast(a, b, b[0]);
      FirstIsLeast(b, a, a[0]);
      LexLessTotal(a[0], b[0]);
      DropFirst(a);
      DropFirst(b);
      InOrderIsUnique(a[1..], b[1..]);
      assert a == [a[0]] + a[1..] && b == [b[0]] + b[1..];
    }
  }

  lemma DropFirst(l: seq<string>)
    requires l != [] && InOrder(l)
    ensures InOrder(l[1..]) && multiset(l[1..]) == multiset(l) - multiset{l[0]}
  {
    hide LexLess;
    assert l == [l[0]] + l[1..];
  }

  lemma SameSize<T>(a: seq<T>, b: seq<T>)
    requires multiset(a) == multiset(b)
    ensures |a| == |b|
  {
    assert |multiset(a)| == |a| && |multiset(b)| == |b|;
  }

  lemma FirstIsLeast(l: seq<string>, other: seq<string>, x: string)
    requires InOrder(l) && l != [] && multiset(l) == multiset(other) && x in other
    ensures !LexLess(x, l[0])
  {
    hide LexLess;
    LexLessIrreflexive(x);
    assert x in multiset(other);
    var i :| 0 <= i < |l| && l[i] == x;
  }

  // Non-empty texts of one line each.
  ghost predicate Lines(l: seq<string>) {
    forall s | s in l :: s != "" && forall c | c in s :: c != '\n'
  }

  lemma FirstLine(l: seq<string>)
    requires Lines(l) && |l| > 1
    ensures Joined(l) == l[0] + ("\n" + Joined(l[1..]))
    ensures (forall c | c in l[0] :: c != '\n') && Lines(l[1..])
  {
    assert l[0] in l;
    forall s | s in l[1..]
      ensures s in l
    {
    }
  }

  // The number of lines shows in the text as far as none, one or more.
  lemma LineCount(l: seq<string>)
    requires Lines(l)
    ensures Joined(l) == "" <==> l == []
    ensures '\n' in Joined(l) <==> |l| > 1
  {
    if l != [] {
      assert l[0] in l;
    }
    if |l| > 1 {
      FirstLine(l);
      assert Joined(l)[|l[0]|] == '\n';
    }
  }

  // Joining loses nothing, not even how many lines there are.
  lemma {:induction false} JoinedInjective(a: seq<string>, b: seq<string>)
    requires Lines(a) && Lines(b) && Joined(a) == Joined(b)
    ensures a == b
  {
    LineCount(a);
    LineCount(b);
    if |a| == 1 {
      assert a == [a[0]] && b == [b[0]];
    } else if |a| > 1 {
      hide Lines;
      FirstLine(a);
      FirstLine(b);
      SameRun(c => c != '\n', a[0], b[0], "\n" + Joined(a[1..]), "\n" + Joined(b[1..]));
      SameCut("\n", "\n", Joined(a[1..]), Joined(b[1..]));
      JoinedInjective(a[1..], b[1..]);
      assert a == [a[0]] + a[1..] && b == [b[0]] + b[1..];
    }
  }

  lemma {:induction false} EncodedCounts(rows: seq<Row>, x: Row)
    ensures multiset(Encoded(rows))[RowText(x)] == multiset(rows)[x]
  {
    hide RowText;
    if rows != [] {
      EncodedCounts(rows[1..], x);
      assert rows == [rows[0]] + rows[1..];
      if RowText(rows[0]) == RowText(x) {
        RowTextInjective(rows[0], x);
      }
    }
  }

  lemma {:induction false} EncodedMembers(rows: seq<Row>, t: string)
    requires t in Encoded(rows)
    ensures '\n' !in t && t != "" && exists x :: x in rows && RowText(x) == t
  {
    hide RowText;
    if t == RowText(rows[0]) {
      RowTextHasNoNewline(rows[0]);
      assert rows[0] in rows;
    } else {
      EncodedMembers(rows[1..], t);
    }
  }

  lemma SameEncodings(a: seq<Row>, b: seq<Row>)
    requires multiset(a) == multiset(b)
    ensures multiset(Encoded(a)) == multiset(Encoded(b))
  {
    hide RowText;
    forall t
      ensures multiset(Encoded(a))[t] == multiset(Encoded(b))[t]
    {
      if t in Encoded(a) {
        EncodedMembers(a, t);
        var x :| x in a && RowText(x) == t;
        EncodedCounts(a, x);
        EncodedCounts(b, x);
      } else if t in Encoded(b) {
        EncodedMembers(b, t);
        var x :| x in b && RowText(x) == t;
        EncodedCounts(a, x);
        EncodedCounts(b, x);
      }
    }
  }

  // Two tables have the same fingerprint exactly when they hold the same rows, each as often,
  // in whatever order; what is hashed tells that much without the row count.
  lemma FingerprintIsCanonical(a: seq<Row>, b: seq<Row>)
    ensures Hashed(a) == Hashed(b) <==> multiset(a) == multiset(b)
    ensures CanonicalRows(a) == CanonicalRows(b) <==> multiset(a) == multiset(b)
  {
    hide RowText, Joined, LexLess;
    var p, q := Sorted(Encoded(a)), Sorted(Encoded(b));
    SortedIsInOrder(Encoded(a));
    SortedIsInOrder(Encoded(b));
    if multiset(a) == multiset(b) {
      SameSize(a, b);
      SameEncodings(a, b);
      InOrderIsUnique(p, q);
    }
    if Hashed(a) == Hashed(b) {
      SortedTexts(a);
      SortedTexts(b);
      JoinedInjective(p, q);
      forall x
        ensures multiset(a)[x] == multiset(b)[x]
      {
        EncodedCounts(a, x);
        EncodedCounts(b, x);
      }
    }
  }

  lemma SortedTexts(rows: seq<Row>)
    ensures Lines(Sorted(Encoded(rows)))
  {
    hide RowText, LexLess;
    SortedIsInOrder(Encoded(rows));
    forall s | s in Sorted(Encoded(rows))
      ensures '\n' !in s && s != ""
    {
      assert s in multiset(Encoded(rows));
      EncodedMembers(rows, s);
    }
  }
}
