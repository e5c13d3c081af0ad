/**
 * `convert_field_value` (xrpl/server/models/enhanced_main.py): the rewriting of
 * one raw argument value before it reaches validation.
 *
 * Python's `float(s)` is floating point and is not modelled: it is the
 * parameter `floatOf`, which reports what `float(s)` makes of a string.
 */
module ValueConversion {
  import opened Wrappers
  import opened Strings
  import opened PyValues

  /** What `float(s)` makes of a string, as far as the conversion can observe it. */
  datatype FloatParse =
    | Rejected                          // float(s) raises ValueError
    | Finite(x: real, text: string)     // a finite float and its str()
    | Infinite                          // inf or -inf: int() of it raises OverflowError
    | NotANumber                        // nan: int() of it raises ValueError

  /**
   * A converted value, or the OverflowError `int(float("inf"))` raises: only
   * ValueError is caught there, so that one propagates to the caller.
   */
  datatype Conversion = Converted(v: Value) | OverflowRaised

  const TrueWords: seq<string> := ["true", "1", "yes", "on"]
  const FalseWords: seq<string> := ["false", "0", "no", "off"]

  /**
   * CPython's default limit (3.11 and later) on the number of digits `int()`
   * converts from a decimal string: a longer string raises ValueError.
   */
  const IntMaxStrDigits: nat := 4300

  /** Field names whose `0x...` values are read as hexadecimal integers. */
  predicate IsHexField(fieldName: string)
  {
    EndsWith(fieldName, "_id") || EndsWith(fieldName, "_hash") || EndsWith(fieldName, "_sequence")
  }

  /** The characters `int()` strips from the end of its argument (ASCII whitespace). */
  const IntWhitespace: set<char> := {' ', '\t', '\n', '\r', 11 as char, 12 as char}

  /**
   * The digits after `0x` that `int(s, 16)` accepts: hexadecimal digits, each
   * optionally preceded by one underscore.
   */
  predicate IsHexBody(b: string)
  {
    && |b| > 0
    && (forall i :: 0 <= i < |b| ==> IsHexDigit(b[i]) || b[i] == '_')
    && b[|b| - 1] != '_'
    && (forall i :: 0 <= i < |b| - 1 ==> !(b[i] == '_' && b[i + 1] == '_'))
  }

  lemma HexBodyDigits(b: string)
    requires forall i :: 0 <= i < |b| ==> IsHexDigit(b[i]) || b[i] == '_'
    ensures AllHexDigits(RemoveChars(b, {'_'}))
  {
    var r := RemoveChars(b, {'_'});
    forall i | 0 <= i < |r| ensures IsHexDigit(r[i]) {
      assert r[i] in r && r[i] != '_';
      assert r[i] in b;
    }
  }

  /**
   * Hexadecimal parsing of a string that starts with `0x`: trailing whitespace
   * is ignored, and `None` stands for the ValueError of a malformed literal.
   */
  function ParseHexLiteral(s: string): (r: Option<nat>)
    requires StartsWith(s, "0x")
  {
    var t := RStrip(s, IntWhitespace);
    assert s[1] == 'x' && 'x' !in IntWhitespace;
    assert |t| >= 2;
    var body := t[2..];
    if IsHexBody(body) then
      HexBodyDigits(body);
      Some(HexValue(RemoveChars(body, {'_'})))
    else None
  }

  /** A digit string that `int()` converts: one within the digit limit. */
  predicate IsConvertibleDigitString(s: string)
  {
    IsDigitString(s) && |s| <= IntMaxStrDigits
  }

  /**
   * The rewriting of one raw argument: boolean words, then decimal digit
   * strings, then the float reading, then hexadecimal literals for id, hash
   * and sequence fields.
   */
  function ConvertFieldValue(fieldName: string, value: Value, floatOf: string -> FloatParse): (r: Conversion)
    ensures !value.Str? ==> r == Converted(value)
    ensures r == Converted(Null) <==> value == Null
    ensures r == OverflowRaised <==> value.Str? && floatOf(value.s) == Infinite
                                     && Lower(value.s) !in TrueWords + FalseWords
                                     && !IsConvertibleDigitString(value.s)
  {
    if value.Null? then Converted(Null)
    else if value.Str? && Lower(value.s) in TrueWords then Converted(Bool(true))
    else if value.Str? && Lower(value.s) in FalseWords then Converted(Bool(false))
    // a digit string over the limit makes int() raise ValueError, which is caught
    else if value.Str? && IsConvertibleDigitString(value.s) then Converted(Int(DecimalValue(value.s)))
    else if value.Str? then
      match floatOf(value.s)
      case Finite(x, text) =>
        // a whole number comes back as an integer
        if x == x.Floor as real then Converted(Int(x.Floor)) else Converted(Float(x, text))
      case Infinite => OverflowRaised
      case _ =>
        // float() or int(nan) raised ValueError, which is caught
        if IsHexField(fieldName) && StartsWith(value.s, "0x") && ParseHexLiteral(value.s).Some?
        then Converted(Int(ParseHexLiteral(value.s).value))
        else Converted(value)
    else Converted(value)
  }

  // ---------------------------------------------------------------------------
  // Properties

  /**
   * The boolean words win over every other reading: "1" and "0" are digit
   * strings, yet they become booleans.
   */
  lemma BooleanWords(fieldName: string, s: string, floatOf: string -> FloatParse)
    ensures Lower(s) in TrueWords ==> ConvertFieldValue(fieldName, Str(s), floatOf) == Converted(Bool(true))
    ensures Lower(s) in FalseWords ==> ConvertFieldValue(fieldName, Str(s), floatOf) == Converted(Bool(false))
    ensures ConvertFieldValue(fieldName, Str("1"), floatOf) == Converted(Bool(true))
    ensures ConvertFieldValue(fieldName, Str("0"), floatOf) == Converted(Bool(false))
  {
    assert Lower("1") == "1";
    assert Lower("0") == "0";
  }

  /** Lower-casing leaves a digit string as it is, so it is no boolean word unless it is "0" or "1". */
  lemma DigitStringIsNoWord(s: string)
    requires IsDigitString(s) && s != "0" && s != "1"
    ensures Lower(s) == s
    ensures Lower(s) !in TrueWords + FalseWords
  {
    assert Lower(s) == s;
    forall w | w in TrueWords + FalseWords ensures s != w {
      if |w| == 1 {
        assert w == "0" || w == "1";
      } else if |s| == |w| {
        assert !IsAsciiDigit(w[1]);
      }
    }
  }

  /** Any other digit string within the digit limit becomes the integer it denotes, whatever the field. */
  lemma DigitStringsBecomeIntegers(fieldName: string, s: string, floatOf: string -> FloatParse)
    requires IsDigitString(s) && s != "0" && s != "1" && |s| <= IntMaxStrDigits
    ensures ConvertFieldValue(fieldName, Str(s), floatOf) == Converted(Int(DecimalValue(s)))
  {
    DigitStringIsNoWord(s);
  }

  /** In particular the numeral of every n >= 2 of at most 4300 digits comes back as n. */
  lemma NumeralsRoundTrip(fieldName: string, n: nat, floatOf: string -> FloatParse)
    requires n >= 2 && |NatToDecimal(n)| <= IntMaxStrDigits
    ensures ConvertFieldValue(fieldName, Str(NatToDecimal(n)), floatOf) == Converted(Int(n))
  {
    var s := NatToDecimal(n);
    DecimalRoundTrip(n);
    DigitStringsBecomeIntegers(fieldName, s, floatOf);
  }

  /**
   * A digit string over the limit goes on to the float reading: `float()`
   * gives infinity for a numeral of more than 309 significant digits, and
   * `int()` of that raises the OverflowError that leaves the call.
   */
  lemma LongDigitStringsGoToFloat(fieldName: string, s: string, floatOf: string -> FloatParse)
    requires IsDigitString(s) && |s| > IntMaxStrDigits
    ensures floatOf(s) == Infinite ==> ConvertFieldValue(fieldName, Str(s), floatOf) == OverflowRaised
    ensures (floatOf(s).Finite? && floatOf(s).x == floatOf(s).x.Floor as real) ==>
              ConvertFieldValue(fieldName, Str(s), floatOf) == Converted(Int(floatOf(s).x.Floor))
  {
    DigitStringIsNoWord(s);
  }

  /** A string starting with "0x" is neither a boolean word nor a digit string. */
  lemma HexPrefixIsNoWord(s: string)
    requires StartsWith(s, "0x")
    ensures Lower(s) !in TrueWords + FalseWords
    ensures !IsDigitString(s)
  {
    assert s[1] == 'x';
    assert Lower(s)[1] == 'x';
    assert !IsAsciiDigit(s[1]);
  }

  /**
   * A `0x` string that float() rejects becomes an integer exactly when the
   * field is an `_id`, `_hash` or `_sequence` field and int(s, 16) accepts it;
   * otherwise it is returned unchanged.
   */
  lemma HexOnlyForHexFields(fieldName: string, s: string, floatOf: string -> FloatParse)
    requires StartsWith(s, "0x")
    requires floatOf(s) == Rejected
    ensures ConvertFieldValue(fieldName, Str(s), floatOf) ==
            if IsHexField(fieldName) && ParseHexLiteral(s).Some?
            then Converted(Int(ParseHexLiteral(s).value))
            else Converted(Str(s))
  {
    HexPrefixIsNoWord(s);
  }

  /**
   * A string without the `0x` prefix is never read as hexadecimal, whatever
   * the field: when float() gives no number and it is no boolean word and no
   * convertible digit string, it is returned unchanged.
   */
  lemma NoHexWithoutPrefix(fieldName: string, s: string, floatOf: string -> FloatParse)
    requires floatOf(s) == Rejected || floatOf(s) == NotANumber
    requires Lower(s) !in TrueWords + FalseWords && !IsConvertibleDigitString(s)
    requires !StartsWith(s, "0x")
    ensures ConvertFieldValue(fieldName, Str(s), floatOf) == Converted(Str(s))
  {
  }

  lemma RemoveCharsAbsent(s: string, cs: set<char>)
    requires forall i :: 0 <= i < |s| ==> s[i] !in cs
    ensures RemoveChars(s, cs) == s
  {
    if s != [] {
      RemoveCharsAbsent(s[..|s| - 1], cs);
      assert s == s[..|s| - 1] + [s[|s| - 1]];
    }
  }

  /** `int("0x" + format(n, "x"), 16) == n`. */
  lemma {:induction false} HexLiteralRoundTrip(n: nat)
    ensures StartsWith("0x" + NatToHex(n), "0x")
    ensures ParseHexLiteral("0x" + NatToHex(n)) == Some(n)
  {
    var h := NatToHex(n);
    var s := "0x" + h;
    assert s[|s| - 1] == h[|h| - 1];
    assert RStrip(s, IntWhitespace) == s;
    assert s[2..] == h;
    forall i | 0 <= i < |h| ensures h[i] != '_' {
      assert IsHexDigit(h[i]);
    }
    RemoveCharsAbsent(h, {'_'});
    HexRoundTrip(n);
  }

  /** The hexadecimal literal of n in an `_id`, `_hash` or `_sequence` field comes back as n. */
  lemma HexFieldsRoundTrip(fieldName: string, n: nat, floatOf: string -> FloatParse)
    requires IsHexField(fieldName)
    requires floatOf("0x" + NatToHex(n)) == Rejected
    ensures ConvertFieldValue(fieldName, Str("0x" + NatToHex(n)), floatOf) == Converted(Int(n))
  {
    HexLiteralRoundTrip(n);
    HexOnlyForHexFields(fieldName, "0x" + NatToHex(n), floatOf);
  }
}
