/** Percent encoding as the server's utilities do it: a blank becomes '+', a fixed list of characters
    is escaped, and '%' itself is not. */
module Percent {
  import opened SeqFacts

  predicate Escaped(c: char) {
    || c == '!' || c == '#' || c == '$' || '&' <= c <= ',' || '/' <= c <= ';'
    || c == '=' || c == '?' || c == '@' || c == '[' || c == ']'
  }

  const ESCAPED_CHARS := "!#$&'()*+,/0123456789:;=?@[]"

  lemma ListedIsEscaped(i: nat)
    requires i < |ESCAPED_CHARS|
    ensures Escaped(ESCAPED_CHARS[i])
  {
  }

  lemma EscapedIsListed(c: char)
    requires Escaped(c)
    ensures c in ESCAPED_CHARS
  {
    var i := if c == '!' then 0
             else if c <= '$' then c as int - 34
             else if c <= ',' then c as int - 35
             else if c <= ';' then c as int - 37
             else if c == '=' then 23 else if c == '?' then 24 else if c == '@' then 25
             else if c == '[' then 26 else 27;
    assert ESCAPED_CHARS[i] == c;
  }

  lemma EscapedIs(c: char)
    ensures Escaped(c) <==> c in ESCAPED_CHARS
  {
    if Escaped(c) {
      EscapedIsListed(c);
    }
    if i: nat :| i < |ESCAPED_CHARS| && ESCAPED_CHARS[i] == c {
      ListedIsEscaped(i);
    }
  }

  const HEX_CHARS := "0123456789ABCDEF"

  function EncodeChar(c: char): (r: string)
    ensures 1 <= |r| <= 3
  {
    if c == ' ' then "+"
    else if Escaped(c) then ['%', HEX_CHARS[c as int / 16], HEX_CHARS[c as int % 16]]
    else [c]
  }

  function Encode(s: string): (r: string)
    ensures |s| <= |r|
  {
    if s == "" then "" else EncodeChar(s[0]) + Encode(s[1..])
  }

  lemma EncodeNext(value: string, i: nat)
    requires i < |value|
    ensures Encode(value[i..]) == EncodeChar(value[i]) + Encode(value[i + 1..])
  {
  }

  method EncodeLoop(value: string) returns (result: string)
    ensures result == Encode(value)
  {
    result := "";
    for i := 0 to |value|
      invariant result + Encode(value[i..]) == Encode(value)
    {
      var chr := value[i];
      EncodeNext(value, i);
      Moved(result, EncodeChar(chr), Encode(value[i + 1..]));
      if chr == ' ' {
        result := result + "+";
      } else if Escaped(chr) {
        result := result + ['%', HEX_CHARS[chr as int / 16], HEX_CHARS[chr as int % 16]];
      } else {
        result := result + [chr];
      }
    }
  }

  lemma EncodeCharIs(c: char)
    ensures EncodeChar(c)
         == if c == ' ' then "+"
            else if c in "!#$&'()*+,/0123456789:;=?@[]"
            then ['%', "0123456789ABCDEF"[c as int / 16], "0123456789ABCDEF"[c as int % 16]]
            else [c]
  {
    EscapedIs(c);
  }

  lemma {:induction false} EncodeConcat(a: string, b: string)
    ensures Encode(a + b) == Encode(a) + Encode(b)
  {
    if a == "" {
      assert a + b == b;
    } else {
      assert (a + b)[0] == a[0] && (a + b)[1..] == a[1..] + b;
      EncodeConcat(a[1..], b);
    }
  }

  // ---------- Decoding ----------

  predicate IsSpace(c: char) {
    c == ' ' || 9 <= c as int <= 13
  }

  predicate IsHex(c: char) {
    '0' <= c <= '9' || 'a' <= c <= 'f' || 'A' <= c <= 'F'
  }

  function HexValue(c: char): (v: nat)
    requires IsHex(c)
    ensures v < 16
  {
    if '0' <= c <= '9' then c as int - '0' as int
    else if 'a' <= c <= 'f' then c as int - 'a' as int + 10
    else c as int - 'A' as int + 10
  }

  /** strtol in base 16 on one character. */
  function Strtol1(b: char): nat {
    if IsHex(b) then HexValue(b) else 0
  }

  /** strtol in base 16 on two characters: blanks, a sign, digits, and whatever stops them. A "0x"
      with nothing behind it reads as 0. */
  function Strtol2(a: char, b: char): int {
    if IsSpace(a) || a == '+' then Strtol1(b)
    else if a == '-' then (var v: int := Strtol1(b); -v)
    else if !IsHex(a) then 0
    else if IsHex(b) then 16 * HexValue(a) + HexValue(b)
    else HexValue(a)
  }

  /** The conversion of the number to an eight-bit char. */
  function HexByte(a: char, b: char): char {
    (Strtol2(a, b) % 256) as char
  }

  function Decode(t: string): string {
    if t == "" then ""
    else if t[0] == '%' && 2 < |t| then [HexByte(t[1], t[2])] + Decode(t[3..])
    else [if t[0] == '+' then ' ' else t[0]] + Decode(t[1..])
  }

  /** How many characters a step of the decoder reads, and what it writes. */
  function Step(value: string, i: nat): (nat, char)
    requires i < |value|
  {
    if value[i] == '%' && i + 2 < |value| then (3, HexByte(value[i + 1], value[i + 2]))
    else (1, if value[i] == '+' then ' ' else value[i])
  }

  lemma DecodeNext(value: string, i: nat)
    requires i < |value|
    ensures i + Step(value, i).0 <= |value|
    ensures Decode(value[i..]) == [Step(value, i).1] + Decode(value[i + Step(value, i).0..])
  {
  }

  method DecodeLoop(value: string) returns (result: string)
    ensures result == Decode(value)
  {
    result := "";
    var i := 0;
    while i < |value|
      invariant 0 <= i <= |value|
      invariant result + Decode(value[i..]) == Decode(value)
    {
      var chr := value[i];
      DecodeNext(value, i);
      Moved(result, [Step(value, i).1], Decode(value[i + Step(value, i).0..]));
      if chr == '%' && i + 2 < |value| {
        result := result + [HexByte(value[i + 1], value[i + 2])];
        i := i + 2;
      } else if chr == '+' {
        result := result + " ";
      } else {
        result := result + [chr];
      }
      i := i + 1;
    }
  }

  /** In text without '%' a '+' is a blank, and every other character stands for itself. */
  lemma {:induction false} DecodePlain(t: string)
    requires '%' !in t
    ensures |Decode(t)| == |t| && forall i :: 0 <= i < |t| ==> Decode(t)[i] == if t[i] == '+' then ' ' else t[i]
  {
    if t != "" {
      DecodePlain(t[1..]);
    }
  }

  /** What comes before the first '%' is decoded on its own. */
  lemma {:induction false} DecodePrefix(t: string, rest: string)
    requires '%' !in t
    ensures Decode(t + rest) == Decode(t) + Decode(rest)
  {
    if t == "" {
      assert t + rest == rest;
    } else {
      var u := t + rest;
      assert u[0] == t[0] && u[1..] == t[1..] + rest;
      DecodePrefix(t[1..], rest);
      Moved([Step(t, 0).1], Decode(t[1..]), Decode(rest));
    }
  }

  /** `c` is the hex digit for i, in either case. */
  ghost predicate IsDigitFor(c: char, i: nat) {
    i < 16 && (c == "0123456789ABCDEF"[i] || c == "0123456789abcdef"[i])
  }

  lemma DigitFor(c: char, i: nat)
    requires IsDigitFor(c, i)
    ensures IsHex(c) && HexValue(c) == i && !IsSpace(c) && c != '+' && c != '-'
  {
    HexDigit(i);
    LowerHexDigit(i);
  }

  lemma HexByteIs(a: char, b: char, i: nat, j: nat)
    requires IsDigitFor(a, i) && IsDigitFor(b, j)
    ensures HexByte(a, b) == (16 * i + j) as char
  {
    DigitFor(a, i);
    DigitFor(b, j);
  }

  /** A '%' with two hex digits is the byte they write, whatever comes before and after. */
  lemma DecodeBlock(t: string, a: char, b: char, rest: string, i: nat, j: nat)
    requires '%' !in t && IsDigitFor(a, i) && IsDigitFor(b, j)
    ensures Decode(t + ['%', a, b] + rest) == Decode(t) + [(16 * i + j) as char] + Decode(rest)
  {
    var block := ['%', a, b] + rest;
    assert t + ['%', a, b] + rest == t + block;
    DecodePrefix(t, block);
    HexByteIs(a, b, i, j);
    assert block[3..] == rest;
    assert Decode(block) == [(16 * i + j) as char] + Decode(rest);
  }

  /** A '%' with fewer than two characters behind it is left as it is. */
  lemma DecodeEnd(t: string, last: string)
    requires '%' !in t && |last| <= 1
    ensures Decode(t + "%" + last) == Decode(t) + "%" + (if last == "+" then " " else last)
  {
    DecodePrefix(t, "%" + last);
    assert t + "%" + last == t + ("%" + last);
    assert ("%" + last)[1..] == last;
    assert last != "" ==> last[1..] == "" && Decode(last) == [if last[0] == '+' then ' ' else last[0]];
  }

  const ALL_HEX_CHARS := "0123456789ABCDEFabcdef"

  lemma ListedIsHex(i: nat)
    requires i < |ALL_HEX_CHARS|
    ensures IsHex(ALL_HEX_CHARS[i])
  {
  }

  lemma IsHexIff(c: char)
    ensures IsHex(c) <==> c in ALL_HEX_CHARS
  {
    if IsHex(c) {
      var i := if c <= '9' then c as int - 48 else if c <= 'F' then c as int - 55 else c as int - 81;
      assert ALL_HEX_CHARS[i] == c;
    }
    if i: nat :| i < |ALL_HEX_CHARS| && ALL_HEX_CHARS[i] == c {
      ListedIsHex(i);
    }
  }

  predicate IsBlank(c: char) {
    c == ' ' || '\t' <= c <= '\r'
  }

  /** A digit is read up to a character that is none. */
  lemma OneDigit(a: char, b: char, i: nat)
    requires IsDigitFor(a, i) && b !in ALL_HEX_CHARS
    ensures HexByte(a, b) == i as char
  {
    DigitFor(a, i);
    IsHexIff(b);
  }

  /** A blank or a sign may stand before a digit. */
  lemma SignedDigit(a: char, b: char, j: nat)
    requires (IsBlank(a) || a == '+' || a == '-') && IsDigitFor(b, j)
    ensures HexByte(a, b) == if a == '-' && j > 0 then (256 - j) as char else j as char
  {
    DigitFor(b, j);
  }

  /** Anything else is the NUL character. */
  lemma NoDigit(a: char, b: char)
    requires a !in ALL_HEX_CHARS && (b !in ALL_HEX_CHARS || !(IsBlank(a) || a == '+' || a == '-'))
    ensures HexByte(a, b) == '\0'
  {
    IsHexIff(a);
    IsHexIff(b);
  }

  // ---------- The round trip ----------

  /** A '%' at i is the last character, or the last but one before a character that is not escaped:
      at most one encoded character follows it. */
  predicate FineAt(s: string, i: nat)
    requires i < |s|
  {
    s[i] == '%' ==> i + 1 == |s| || (i + 2 == |s| && s[i + 1] !in ESCAPED_CHARS)
  }

  ghost predicate Survives(s: string) {
    forall i: nat :: i < |s| ==> FineAt(s, i)
  }

  lemma HexDigit(n: nat)
    requires n < 16
    ensures IsHex(HEX_CHARS[n]) && HexValue(HEX_CHARS[n]) == n
    ensures !IsSpace(HEX_CHARS[n]) && HEX_CHARS[n] != '+' && HEX_CHARS[n] != '-'
    ensures HEX_CHARS[n] != '&' && HEX_CHARS[n] != '='
  {
  }

  /** Escaping a character and reading the two hex digits back gives the character. */
  lemma HexInverse(c: char)
    requires Escaped(c)
    ensures HexByte(HEX_CHARS[c as int / 16], HEX_CHARS[c as int % 16]) == c
  {
    EscapedByte(c, true);
  }

  /** Only the digits 2 and 5 read as '%'. */
  lemma OnlyTwoFive(a: char, b: char)
    requires HexByte(a, b) == '%'
    ensures a == '2' && b == '5'
  {
  }

  /** The encoder escapes all digits, so what it puts after a raw '%' never starts with one. */
  lemma EncodedStart(s: string)
    requires s != ""
    ensures Encode(s)[0] != '2'
  {
  }

  lemma AtMostOneFollows(rest: string)
    ensures |Encode(rest)| <= 1 <==> rest == "" || (|rest| == 1 && rest[0] !in ESCAPED_CHARS)
  {
    if rest != "" {
      EscapedIs(rest[0]);
    }
  }

  lemma SurvivesStep(s: string)
    requires s != ""
    ensures Survives(s) <==> (s[0] == '%' ==> |Encode(s[1..])| <= 1) && Survives(s[1..])
  {
    var r := s[1..];
    AtMostOneFollows(r);
    assert FineAt(s, 0) <==> (s[0] == '%' ==> |Encode(r)| <= 1);
    forall i: nat | i < |r| ensures FineAt(r, i) == FineAt(s, i + 1) {
    }
    if FineAt(s, 0) && Survives(r) {
      forall i: nat | i < |s| ensures FineAt(s, i) {
        assert i > 0 ==> FineAt(r, i - 1);
      }
    }
  }

  /** Decoding undoes encoding if and only if at most one encoded character follows each '%'. */
  lemma {:induction false} RoundTrip(s: string)
    ensures Decode(Encode(s)) == s <==> Survives(s)
  {
    if s != "" {
      var c, rest := s[0], s[1..];
      var e := Encode(s);
      RoundTrip(rest);
      SurvivesStep(s);
      assert s == [c] + rest;
      assert e == EncodeChar(c) + Encode(rest);
      if c != ' ' && Escaped(c) {
        HexInverse(c);
        assert e[3..] == Encode(rest);
        assert Decode(e) == [c] + Decode(Encode(rest));
      } else if c == '%' && |Encode(rest)| >= 2 {
        EncodedStart(rest);
        assert e[1] == Encode(rest)[0];
        if HexByte(e[1], e[2]) == '%' {
          OnlyTwoFive(e[1], e[2]);
        }
        assert Decode(e)[0] != s[0];
      } else {
        assert e[1..] == Encode(rest);
        assert Decode(e) == [c] + Decode(Encode(rest));
      }
    }
  }

  /** A value that does not survive. */
  lemma PercentBreaks()
    ensures Decode(Encode("%ab")) != "%ab"
  {
  }

  const LOWER_HEX_CHARS := "0123456789abcdef"

  /** Percent encoding of every character, with the digits in either case, as section 2.1 of RFC 3986
      allows it. */
  function EscapeAll(s: string, upper: bool): string
    requires forall i :: 0 <= i < |s| ==> s[i] as int < 256
  {
    if s == "" then ""
    else
      var digits := if upper then HEX_CHARS else LOWER_HEX_CHARS;
      ['%', digits[s[0] as int / 16], digits[s[0] as int % 16]] + EscapeAll(s[1..], upper)
  }

  lemma LowerHexDigit(n: nat)
    requires n < 16
    ensures IsHex(LOWER_HEX_CHARS[n]) && HexValue(LOWER_HEX_CHARS[n]) == n
    ensures !IsSpace(LOWER_HEX_CHARS[n]) && LOWER_HEX_CHARS[n] != '+' && LOWER_HEX_CHARS[n] != '-'
  {
  }

  lemma EscapedByte(c: char, upper: bool)
    requires c as int < 256
    ensures var digits := if upper then HEX_CHARS else LOWER_HEX_CHARS;
            HexByte(digits[c as int / 16], digits[c as int % 16]) == c
  {
    HexDigit(c as int / 16);
    HexDigit(c as int % 16);
    LowerHexDigit(c as int / 16);
    LowerHexDigit(c as int % 16);
  }

  /** The decoder undoes full percent encoding of every byte string, without exception. */
  lemma {:induction false} EscapeAllRoundTrip(s: string, upper: bool)
    requires forall i :: 0 <= i < |s| ==> s[i] as int < 256
    ensures Decode(EscapeAll(s, upper)) == s
  {
    if s != "" {
      var e := EscapeAll(s, upper);
      EscapeAllRoundTrip(s[1..], upper);
      EscapedByte(s[0], upper);
      assert e[3..] == EscapeAll(s[1..], upper);
      assert s == [s[0]] + s[1..];
    }
  }

  lemma EncodedCharIsDelimiterFree(c: char)
    ensures '&' !in EncodeChar(c) && '=' !in EncodeChar(c)
  {
  }

  /** The encoder's output never contains a delimiter of a query string. */
  lemma {:induction false} EncodedIsDelimiterFree(s: string)
    ensures '&' !in Encode(s) && '=' !in Encode(s)
  {
    if s != "" {
      EncodedIsDelimiterFree(s[1..]);
      EncodedCharIsDelimiterFree(s[0]);
    }
  }
}
