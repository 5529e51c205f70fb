/** How one value of a fetched row is written inside `VALUES (...)`: a Python `str`
    goes between double quotes with every `'` doubled; anything else is written as
    Python's `str()` of it. */
module Values {
  import opened Text

  datatype Option<T> = None | Some(value: T)

  /** A value as `sqlite3` hands it over. Floats and `bytes` are kept as the text
      Python's `str()` gives them, since that text is all the converter uses. */
  datatype Value =
    | TextValue(s: string)
    | IntValue(i: int)
    | NullValue
    | OtherValue(rendered: string)

  const Quote: char := '\''

  /** `s.replace("'", "''")` */
  function Escape(s: string): string
  {
    if s == [] then []
    else if s[0] == Quote then [Quote, Quote] + Escape(s[1..])
    else [s[0]] + Escape(s[1..])
  }

  /** Reading back an escaped text: each `''` stands for one `'`. */
  function Unescape(s: string): string
  {
    if s == [] then []
    else if |s| >= 2 && s[0] == Quote && s[1] == Quote then [Quote] + Unescape(s[2..])
    else [s[0]] + Unescape(s[1..])
  }

  function CountQuotes(s: string): nat
  {
    if s == [] then 0 else (if s[0] == Quote then 1 else 0) + CountQuotes(s[1..])
  }

  function DigitChar(d: nat): char
    requires d < 10
  {
    "0123456789"[d]
  }

  predicate IsDigit(c: char)
  {
    '0' <= c <= '9'
  }

  /** `str(n)` for a non-negative integer: decimal, no leading zeros. */
  function NatToDecimal(n: nat): string
  {
    if n < 10 then [DigitChar(n)] else NatToDecimal(n / 10) + [DigitChar(n % 10)]
  }

  /** `str(i)` for an integer: a minus sign before the digits of a negative one. */
  function IntToDecimal(i: int): string
  {
    if i < 0 then "-" + NatToDecimal(-i) else NatToDecimal(i)
  }

  /** The number a string of decimal digits stands for. */
  function DecimalValue(s: string): nat
  {
    if s == [] then 0
    else DecimalValue(s[..|s| - 1]) * 10 + (if IsDigit(s[|s| - 1]) then s[|s| - 1] as int - '0' as int else 0)
  }

  function ParseInt(s: string): int
  {
    if |s| > 0 && s[0] == '-' then -(DecimalValue(s[1..]) as int) else DecimalValue(s)
  }

  /** The text of one value in an `INSERT` statement. */
  function RenderValue(v: Value): string
  {
    match v
    case TextValue(s) => "\"" + Escape(s) + "\""
    case IntValue(i) => IntToDecimal(i)
    case NullValue => "None"
    case OtherValue(r) => r
  }

  /** Reads a rendered text value back: strip the double quotes, undouble the quotes. */
  function ParseTextLiteral(r: string): Option<string>
  {
    if |r| >= 2 && r[0] == '"' && r[|r| - 1] == '"' then Some(Unescape(r[1..|r| - 1])) else None
  }

  /** Row values in row order, separated by `, `. */
  function RenderValues(row: seq<Value>): string
  {
    Join(", ", seq(|row|, i requires 0 <= i < |row| => RenderValue(row[i])))
  }

  // ---------------------------------------------------------------------------

  /** Escaping adds exactly one character per quote. */
  lemma {:induction false} EscapeLength(s: string)
    ensures |Escape(s)| == |s| + CountQuotes(s)
  {
    if s != [] {
      EscapeLength(s[1..]);
    }
  }

  /** Undoubling the quotes recovers the original text. */
  lemma {:induction false} UnescapeEscape(s: string)
    ensures Unescape(Escape(s)) == s
  {
    if s != [] {
      UnescapeEscape(s[1..]);
      if s[0] == Quote {
        assert ([Quote, Quote] + Escape(s[1..]))[2..] == Escape(s[1..]);
      } else {
        assert ([s[0]] + Escape(s[1..]))[1..] == Escape(s[1..]);
      }
    }
  }

  /** Escaping changes a text exactly when it holds a quote. */
  lemma {:induction false} EscapeUnchangedIff(s: string)
    ensures Escape(s) == s <==> CountQuotes(s) == 0
  {
    EscapeLength(s);
    if s != [] && s[0] != Quote {
      EscapeUnchangedIff(s[1..]);
      assert Escape(s) == s <==> Escape(s[1..]) == s[1..] by {
        assert Escape(s) == [s[0]] + Escape(s[1..]);
        assert s == [s[0]] + s[1..];
      }
    }
  }

  /** A rendered text value is the text between double quotes, with quotes doubled;
      reading it back gives the text again. */
  lemma RenderTextRoundTrip(s: string)
    ensures |RenderValue(TextValue(s))| == |s| + 2 + CountQuotes(s)
    ensures ParseTextLiteral(RenderValue(TextValue(s))) == Some(s)
  {
    var r := RenderValue(TextValue(s));
    EscapeLength(s);
    assert r[1..|r| - 1] == Escape(s);
    UnescapeEscape(s);
  }

  /** `str(n)` is a non-empty run of digits, with no leading zero, that reads back as `n`. */
  lemma {:induction false} NatToDecimalRoundTrip(n: nat)
    ensures NatToDecimal(n) != []
    ensures forall k | 0 <= k < |NatToDecimal(n)| :: IsDigit(NatToDecimal(n)[k])
    ensures NatToDecimal(n)[0] == '0' ==> n == 0
    ensures DecimalValue(NatToDecimal(n)) == n
  {
    var d := n % 10;
    assert DigitChar(d) as int - '0' as int == d by {
      if d == 0 {} else if d == 1 {} else if d == 2 {} else if d == 3 {} else if d == 4 {}
      else if d == 5 {} else if d == 6 {} else if d == 7 {} else if d == 8 {} else {}
    }
    if n >= 10 {
      NatToDecimalRoundTrip(n / 10);
      var r := NatToDecimal(n);
      assert r[..|r| - 1] == NatToDecimal(n / 10);
    }
  }

  /** `str(i)` reads back as `i`, negative numbers included. */
  lemma IntToDecimalRoundTrip(i: int)
    ensures ParseInt(RenderValue(IntValue(i))) == i
    ensures forall k | 0 <= k < |RenderValue(IntValue(i))| ::
      IsDigit(RenderValue(IntValue(i))[k]) || (k == 0 && i < 0 && RenderValue(IntValue(i))[k] == '-')
  {
    if i < 0 {
      NatToDecimalRoundTrip(-i);
      assert IntToDecimal(i)[1..] == NatToDecimal(-i);
    } else {
      NatToDecimalRoundTrip(i);
    }
  }

  /** The null value is written as Python's `str(None)`, not as SQL `NULL`. */
  lemma NullRendersAsNone()
    ensures RenderValue(NullValue) == "None"
    ensures RenderValue(NullValue) != "NULL"
  {
  }

  /** Element `k` of the row is written, rendered, at its place in the list. */
  lemma RenderValuesAt(row: seq<Value>, k: nat)
    requires k < |row|
    ensures OccursAt(RenderValues(row),
      JoinOffset(", ", seq(|row|, i requires 0 <= i < |row| => RenderValue(row[i])), k), RenderValue(row[k]))
  {
    JoinAt(", ", seq(|row|, i requires 0 <= i < |row| => RenderValue(row[i])), k);
  }

}
