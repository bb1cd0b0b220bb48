/** `JSON.stringify` of an array of strings (the only use the publish route
    makes of it), a decoder for the text it produces, and the facts the rest
    of the model needs: decoding inverts encoding, and the encoding adds only
    punctuation, escape letters and hexadecimal digits to the characters of
    the strings themselves. */
module Json {
  import opened Base

  /** A lower-case hexadecimal digit, as JSON.stringify writes them. */
  function HexDigit(d: nat): (c: char)
    requires d < 16
    ensures '0' <= c <= '9' || 'a' <= c <= 'f'
  {
    if d < 10 then ('0' as int + d) as char else ('a' as int + d - 10) as char
  }

  /** The value of a hexadecimal digit of either case. */
  function HexValue(c: char): (r: Option<nat>)
    ensures r.Some? ==> r.value < 16
  {
    if '0' <= c <= '9' then Some(c as int - '0' as int)
    else if 'a' <= c <= 'f' then Some(c as int - 'a' as int + 10)
    else if 'A' <= c <= 'F' then Some(c as int - 'A' as int + 10)
    else None
  }

  lemma HexRoundTrip(d: nat)
    requires d < 16
    ensures HexValue(HexDigit(d)) == Some(d)
  {
  }

  /** A character JSON.stringify copies into a string literal unchanged. */
  predicate Plain(c: char)
  {
    c != '"' && c != '\\' && c as int >= 0x20
  }

  /** How JSON.stringify writes one character inside a string literal: the
      two-character escapes for quote, backslash, backspace, form feed, line
      feed, carriage return and tab, `\u00xx` for the other control
      characters, and the character itself otherwise. */
  function EscapeChar(c: char): (e: string)
    ensures Plain(c) <==> e == [c]
  {
    var n := c as int;
    if c == '"' then "\\\""
    else if c == '\\' then "\\\\"
    else if n == 0x08 then "\\b"
    else if n == 0x0C then "\\f"
    else if n == 0x0A then "\\n"
    else if n == 0x0D then "\\r"
    else if n == 0x09 then "\\t"
    else if n < 0x20 then "\\u00" + [HexDigit(n / 16), HexDigit(n % 16)]
    else [c]
  }

  /** The body of the string literal JSON.stringify writes for x. */
  function Escape(x: string): string
    decreases |x|
  {
    if |x| == 0 then "" else EscapeChar(x[0]) + Escape(x[1..])
  }

  /** `JSON.stringify(x)` for a string x. */
  function Quote(x: string): string
  {
    "\"" + Escape(x) + "\""
  }

  /** The comma-separated literals of a non-empty array. */
  function Elements(xs: seq<string>): string
    requires |xs| > 0
    decreases |xs|
  {
    Quote(xs[0]) + (if |xs| == 1 then "" else "," + Elements(xs[1..]))
  }

  /** `JSON.stringify(xs)` for an array of strings: no whitespace is written. */
  function Stringify(xs: seq<string>): string
  {
    if |xs| == 0 then "[]" else "[" + Elements(xs) + "]"
  }

  /** The character an escape stands for and how many characters after the
      backslash it takes (section 7 of RFC 8259). */
  function DecodeEscape(s: string): (r: Option<(char, nat)>)
    ensures r.Some? ==> 1 <= r.value.1 <= |s|
  {
    if |s| == 0 then None
    else if s[0] == '"' then Some(('"', 1))
    else if s[0] == '\\' then Some(('\\', 1))
    else if s[0] == '/' then Some(('/', 1))
    else if s[0] == 'b' then Some((0x08 as char, 1))
    else if s[0] == 'f' then Some((0x0C as char, 1))
    else if s[0] == 'n' then Some((0x0A as char, 1))
    else if s[0] == 'r' then Some((0x0D as char, 1))
    else if s[0] == 't' then Some((0x09 as char, 1))
    else if s[0] == 'u' && |s| >= 5 then
      match Hex4(s[1..5])
      case None => None
      case Some(code) => if 0xD800 <= code < 0xE000 then None else Some((code as char, 5))
    else None
  }

  /** The value of four hexadecimal digits. */
  function Hex4(h: string): (r: Option<nat>)
    requires |h| == 4
    ensures r.Some? ==> r.value < 0x10000
  {
    var h0, h1, h2, h3 := HexValue(h[0]), HexValue(h[1]), HexValue(h[2]), HexValue(h[3]);
    if h0.None? || h1.None? || h2.None? || h3.None? then None
    else Some(((h0.value * 16 + h1.value) * 16 + h2.value) * 16 + h3.value)
  }

  /** `\u00xx` as JSON.stringify writes it reads back as the code xx. */
  lemma Hex4Low(hi: nat, lo: nat)
    requires hi < 16 && lo < 16
    ensures Hex4(['0', '0', HexDigit(hi), HexDigit(lo)]) == Some(hi * 16 + lo)
  {
    HexRoundTrip(hi);
    HexRoundTrip(lo);
  }

  /** Reads the rest of a string literal whose opening quote is already
      consumed: its value and the text after the closing quote. */
  function ParseChars(s: string): (r: Option<(string, string)>)
    decreases |s|
    ensures r.Some? ==> |r.value.1| < |s|
  {
    if |s| == 0 then None
    else if s[0] == '"' then Some(("", s[1..]))
    else if s[0] == '\\' then
      match DecodeEscape(s[1..])
      case None => None
      case Some((c, k)) =>
        match ParseChars(s[1 + k..])
        case None => None
        case Some((v, rest)) => Some(([c] + v, rest))
    else if (s[0] as int) < 0x20 then None
    else
      match ParseChars(s[1..])
      case None => None
      case Some((v, rest)) => Some(([s[0]] + v, rest))
  }

  /** Reads the elements of an array whose `[` is already consumed. */
  function ParseElements(s: string): (r: Option<seq<string>>)
    decreases |s|
    ensures r.Some? ==> |r.value| > 0
  {
    if |s| == 0 || s[0] != '"' then None
    else
      match ParseChars(s[1..])
      case None => None
      case Some((v, rest)) =>
        if rest == "]" then Some([v])
        else if |rest| > 0 && rest[0] == ',' then
          match ParseElements(rest[1..])
          case None => None
          case Some(vs) => Some([v] + vs)
        else None
  }

  /** Reads a JSON array of strings written without whitespace. */
  function ParseArray(s: string): Option<seq<string>>
  {
    if s == "[]" then Some([])
    else if |s| > 0 && s[0] == '[' then ParseElements(s[1..])
    else None
  }

  /** One escaped character reads back as that character. */
  lemma EscapeCharReads(c: char, t: string)
    ensures ParseChars(EscapeChar(c) + t)
         == match ParseChars(t)
            case None => None
            case Some((v, rest)) => Some(([c] + v, rest))
  {
    var n := c as int;
    if Plain(c) {
      assert (EscapeChar(c) + t)[1..] == t;
    } else if c == '"' || c == '\\' || n == 0x08 || n == 0x0C || n == 0x0A || n == 0x0D || n == 0x09 {
      ShortEscapeReads(c, t);
    } else {
      UnicodeEscapeReads(c, t);
    }
  }

  lemma ShortEscapeReads(c: char, t: string)
    requires c == '"' || c == '\\' || c as int in {0x08, 0x0C, 0x0A, 0x0D, 0x09}
    ensures ParseChars(EscapeChar(c) + t)
         == match ParseChars(t)
            case None => None
            case Some((v, rest)) => Some(([c] + v, rest))
  {
    assert |EscapeChar(c)| == 2 && EscapeChar(c)[0] == '\\';
    assert (EscapeChar(c) + t)[2..] == t;
  }

  lemma UnicodeEscapeReads(c: char, t: string)
    requires (c as int) < 0x20 && !(c as int in {0x08, 0x0C, 0x0A, 0x0D, 0x09})
    ensures ParseChars(EscapeChar(c) + t)
         == match ParseChars(t)
            case None => None
            case Some((v, rest)) => Some(([c] + v, rest))
  {
    var n := c as int;
    var hi, lo := n / 16, n % 16;
    Hex4Low(hi, lo);
    var e := EscapeChar(c);
    assert e == ['\\', 'u', '0', '0', HexDigit(hi), HexDigit(lo)];
    var s := e + t;
    var u := s[1..];
    assert u[0] == 'u' && u[1..5] == ['0', '0', HexDigit(hi), HexDigit(lo)];
    assert DecodeEscape(u) == Some((c, 5));
    assert s[6..] == t;
  }

  /** The body of a literal, followed by its closing quote, reads back as the
      original string. */
  lemma {:induction false} EscapeReads(x: string, rest: string)
    ensures ParseChars(Escape(x) + "\"" + rest) == Some((x, rest))
    decreases |x|
  {
    if |x| == 0 {
      assert (Escape(x) + "\"" + rest)[1..] == rest;
    } else {
      EscapeReads(x[1..], rest);
      EscapeCharReads(x[0], Escape(x[1..]) + "\"" + rest);
      assert Escape(x) + "\"" + rest == EscapeChar(x[0]) + (Escape(x[1..]) + "\"" + rest);
      assert [x[0]] + x[1..] == x;
    }
  }

  /** One literal at the head of the element list reads back as its string. */
  lemma ElementStep(x: string, after: string)
    ensures ParseElements("\"" + Escape(x) + "\"" + after)
         == if after == "]" then Some([x])
            else if |after| > 0 && after[0] == ',' then
              match ParseElements(after[1..])
              case None => None
              case Some(vs) => Some([x] + vs)
            else None
  {
    var s := "\"" + Escape(x) + "\"" + after;
    assert s[1..] == Escape(x) + "\"" + after;
    EscapeReads(x, after);
  }

  lemma {:induction false} ElementsRead(xs: seq<string>)
    requires |xs| > 0
    ensures ParseElements(Elements(xs) + "]") == Some(xs)
    decreases |xs|
  {
    if |xs| > 1 {
      var after := "," + Elements(xs[1..]) + "]";
      assert Elements(xs) + "]" == "\"" + Escape(xs[0]) + "\"" + after;
      ElementStep(xs[0], after);
      ElementsRead(xs[1..]);
      assert after[1..] == Elements(xs[1..]) + "]";
      assert [xs[0]] + xs[1..] == xs;
    } else {
      assert Elements(xs) + "]" == "\"" + Escape(xs[0]) + "\"" + "]";
      ElementStep(xs[0], "]");
      assert xs == [xs[0]];
    }
  }

  /** Decoding the text JSON.stringify writes gives back the array. */
  lemma StringifyRoundTrip(xs: seq<string>)
    ensures ParseArray(Stringify(xs)) == Some(xs)
  {
    if |xs| > 0 {
      var s := Stringify(xs);
      ElementsRead(xs);
      assert s[1..] == Elements(xs) + "]";
      assert s != "[]" by { assert |s| > 2; }
    }
  }

  /** The characters JSON.stringify may add around and inside the literals:
      brackets, commas, quotes, backslashes, escape letters and hexadecimal
      digits. */
  predicate Punctuation(d: char)
  {
    d == '[' || d == ']' || d == ',' || d == '"' || d == '\\'
    || d == 'n' || d == 'r' || d == 't' || d == 'u'
    || '0' <= d <= '9' || 'a' <= d <= 'f'
  }

  lemma {:induction false} EscapeCharChars(c: char, d: char)
    ensures d in EscapeChar(c) ==> d == c || Punctuation(d)
  {
    var n := c as int;
    if !Plain(c) && c != '"' && c != '\\' && n != 0x08 && n != 0x0C && n != 0x0A && n != 0x0D && n != 0x09 {
      var e := EscapeChar(c);
      assert e == ['\\', 'u', '0', '0', HexDigit(n / 16), HexDigit(n % 16)];
    }
  }

  lemma {:induction false} EscapeChars(x: string, d: char)
    ensures d in Escape(x) ==> d in x || Punctuation(d)
    decreases |x|
  {
    if |x| > 0 {
      EscapeCharChars(x[0], d);
      EscapeChars(x[1..], d);
      assert x == [x[0]] + x[1..];
    }
  }

  lemma {:induction false} ElementsChars(xs: seq<string>, d: char)
    requires |xs| > 0
    ensures d in Elements(xs) ==> Punctuation(d) || exists i :: 0 <= i < |xs| && d in xs[i]
    decreases |xs|
  {
    EscapeChars(xs[0], d);
    if |xs| > 1 {
      ElementsChars(xs[1..], d);
      if d in Elements(xs[1..]) && !Punctuation(d) {
        var i :| 0 <= i < |xs[1..]| && d in xs[1..][i];
        assert d in xs[i + 1];
      }
    }
  }

  /** Every character of the output is punctuation, an escape letter, a
      hexadecimal digit, or a character of one of the strings. */
  lemma StringifyChars(xs: seq<string>, d: char)
    ensures d in Stringify(xs) ==> Punctuation(d) || exists i :: 0 <= i < |xs| && d in xs[i]
  {
    if |xs| > 0 {
      ElementsChars(xs, d);
    }
  }
  /** A character no element holds and no punctuation uses is not in the
      array's text. */
  lemma StringifyLacks(xs: seq<string>, c: char)
    requires !Punctuation(c)
    requires forall i :: 0 <= i < |xs| ==> c !in xs[i]
    ensures c !in Stringify(xs)
  {
    StringifyChars(xs, c);
  }


  /** A string with nothing to escape is written as it is. */
  lemma {:induction false} EscapePlain(x: string)
    requires forall i :: 0 <= i < |x| ==> Plain(x[i])
    ensures Escape(x) == x
    decreases |x|
  {
    if |x| > 0 {
      EscapePlain(x[1..]);
      assert x == [x[0]] + x[1..];
    }
  }
}
