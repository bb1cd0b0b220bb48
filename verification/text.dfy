/** Small datatypes and string helpers shared by every component of the model. */
module Base {

  datatype Option<+T> = None | Some(value: T)

  datatype Result<+T, +E> = Ok(value: T) | Err(error: E)

  /** A JavaScript value as far as this model needs one: a string, `null`,
      or `undefined` (a missing property or an absent array element). */
  datatype JsValue = Undefined | Null | Text(s: string)

  /** JavaScript truthiness of a JsValue: only a non-empty string is truthy. */
  predicate Truthy(v: JsValue)
  {
    v.Text? && |v.s| > 0
  }

  /** The text a template literal `${v}` produces. */
  function Interpolate(v: JsValue): string
  {
    match v
    case Undefined => "undefined"
    case Null => "null"
    case Text(s) => s
  }
}

module Text {

  /** `s.startsWith(p)`: p is a prefix of s. */
  predicate StartsWith(s: string, p: string)
  {
    |p| <= |s| && s[..|p|] == p
  }

  /** t occurs in s starting at index i. */
  predicate OccursAt(s: string, t: string, i: int)
  {
    0 <= i && i + |t| <= |s| && s[i..i + |t|] == t
  }

  /** `s.includes(t)`: t occurs in s at some position. */
  predicate Includes(s: string, t: string)
  {
    exists i | 0 <= i <= |s| - |t| :: OccursAt(s, t, i)
  }

  lemma IncludesEmpty(s: string)
    ensures Includes(s, "")
  {
    assert OccursAt(s, "", 0);
  }

  /** ASCII lower-casing of one character; every other character is unchanged. */
  function LowerChar(c: char): (d: char)
    ensures 'A' <= c <= 'Z' ==> 'a' <= d <= 'z' && d as int - c as int == 32
    ensures !('A' <= c <= 'Z') ==> d == c
  {
    if 'A' <= c <= 'Z' then (c as int + 32) as char else c
  }

  /** `s.toLowerCase()`, restricted to ASCII letters. */
  function Lower(s: string): (r: string)
    ensures |r| == |s|
    ensures forall i :: 0 <= i < |s| ==> r[i] == LowerChar(s[i])
  {
    seq(|s|, i requires 0 <= i < |s| => LowerChar(s[i]))
  }

  predicate IsLower(s: string)
  {
    forall i :: 0 <= i < |s| ==> !('A' <= s[i] <= 'Z')
  }

  lemma LowerIsLower(s: string)
    ensures IsLower(Lower(s))
    ensures Lower(Lower(s)) == Lower(s)
  {
  }

  lemma LowerAppend(a: string, b: string)
    ensures Lower(a + b) == Lower(a) + Lower(b)
  {
  }

  /** n spaces. */
  function Spaces(n: nat): (s: string)
    ensures |s| == n && forall i :: 0 <= i < n ==> s[i] == ' '
  {
    seq(n, _ => ' ')
  }

  /** One line of generated source: n spaces of indentation, the code, and a
      line break. */
  function Line(n: nat, code: string): (s: string)
    ensures |s| == n + |code| + 1 && s[|s| - 1] == '\n'
    ensures forall i :: 0 <= i < n ==> s[i] == ' '
    ensures forall i :: n <= i < n + |code| ==> s[i] == code[i - n]
  {
    Spaces(n) + code + "\n"
  }

  /** `s.split(sep)` for a one-character separator: the pieces between
      separators, left to right; there is always one more piece than separators. */
  function Split(s: string, sep: char): (pieces: seq<string>)
    decreases |s|
    ensures |pieces| >= 1
    ensures forall i :: 0 <= i < |pieces| ==> sep !in pieces[i]
  {
    if |s| == 0 then [""]
    else
      var rest := Split(s[1..], sep);
      if s[0] == sep then [""] + rest
      else [[s[0]] + rest[0]] + rest[1..]
  }

  /** `pieces.join(sep)`. */
  function Join(pieces: seq<string>, sep: char): string
    requires |pieces| >= 1
    decreases |pieces|
  {
    if |pieces| == 1 then pieces[0]
    else pieces[0] + [sep] + Join(pieces[1..], sep)
  }

  /** The pieces written one after the other. */
  function Concat(pieces: seq<string>): string
    decreases |pieces|
  {
    if |pieces| == 0 then "" else pieces[0] + Concat(pieces[1..])
  }

  function Occurrences(s: string, c: char): nat
    decreases |s|
  {
    if |s| == 0 then 0 else (if s[0] == c then 1 else 0) + Occurrences(s[1..], c)
  }

  /** Joining the pieces of a split gives back the original text. */
  lemma {:induction false} JoinSplit(s: string, sep: char)
    ensures Join(Split(s, sep), sep) == s
    decreases |s|
  {
    if |s| > 0 {
      JoinSplit(s[1..], sep);
      var rest := Split(s[1..], sep);
      if s[0] == sep {
        assert Split(s, sep)[1..] == rest;
      } else if |rest| == 1 {
        assert Join(Split(s, sep), sep) == [s[0]] + rest[0];
      } else {
        var head := [s[0]] + rest[0];
        assert Split(s, sep) == [head] + rest[1..];
        assert Join(Split(s, sep), sep) == head + [sep] + Join(rest[1..], sep);
        assert Join(rest, sep) == rest[0] + [sep] + Join(rest[1..], sep);
        assert s == [s[0]] + s[1..];
      }
    }
  }

  /** Splitting a text that starts with c: a separator opens a new empty
      piece, any other character joins the first piece. */
  lemma SplitCons(c: char, s: string, sep: char)
    ensures Split([c] + s, sep)
         == if c == sep then [""] + Split(s, sep) else [[c] + Split(s, sep)[0]] + Split(s, sep)[1..]
  {
    assert ([c] + s)[1..] == s;
  }

  /** Splitting the join of separator-free pieces gives back the pieces. */
  lemma {:induction false} SplitJoin(pieces: seq<string>, sep: char)
    requires |pieces| >= 1
    requires forall i :: 0 <= i < |pieces| ==> sep !in pieces[i]
    ensures Split(Join(pieces, sep), sep) == pieces
    decreases |pieces|, |pieces[0]|
  {
    if |pieces| == 1 {
      SplitNoSep(pieces[0], sep);
    } else if |pieces[0]| == 0 {
      SplitJoin(pieces[1..], sep);
      SplitJoinEmptyHead(pieces, sep);
    } else {
      var shorter := [pieces[0][1..]] + pieces[1..];
      forall i | 0 <= i < |shorter| ensures sep !in shorter[i] {
        if i == 0 { assert pieces[0] == [pieces[0][0]] + shorter[0]; }
        else { assert shorter[i] == pieces[i]; }
      }
      SplitJoin(shorter, sep);
      SplitJoinCharHead(pieces, sep);
    }
  }

  /** The step of SplitJoin for an empty first piece. */
  lemma SplitJoinEmptyHead(pieces: seq<string>, sep: char)
    requires |pieces| > 1 && |pieces[0]| == 0
    requires Split(Join(pieces[1..], sep), sep) == pieces[1..]
    ensures Split(Join(pieces, sep), sep) == pieces
  {
    assert Join(pieces, sep) == [sep] + Join(pieces[1..], sep);
    SplitCons(sep, Join(pieces[1..], sep), sep);
    assert pieces == [""] + pieces[1..];
  }

  /** The step of SplitJoin for a first piece that starts with a character
      other than the separator. */
  lemma SplitJoinCharHead(pieces: seq<string>, sep: char)
    requires |pieces| > 1 && |pieces[0]| > 0 && pieces[0][0] != sep
    requires Split(Join([pieces[0][1..]] + pieces[1..], sep), sep) == [pieces[0][1..]] + pieces[1..]
    ensures Split(Join(pieces, sep), sep) == pieces
  {
    var c := pieces[0][0];
    var shorter := [pieces[0][1..]] + pieces[1..];
    assert shorter[1..] == pieces[1..];
    assert Join(pieces, sep) == [c] + Join(shorter, sep);
    SplitCons(c, Join(shorter, sep), sep);
    assert pieces[0] == [c] + pieces[0][1..];
    assert pieces == [pieces[0]] + pieces[1..];
  }

  lemma {:induction false} SplitNoSep(s: string, sep: char)
    requires sep !in s
    ensures Split(s, sep) == [s]
    decreases |s|
  {
    if |s| > 0 {
      assert sep !in s[1..] by { assert forall c :: c in s[1..] ==> c in s; }
      SplitNoSep(s[1..], sep);
      assert [s[0]] + s[1..] == s;
    }
  }

  /** A split yields one piece per separator plus one. */
  lemma {:induction false} SplitCount(s: string, sep: char)
    ensures |Split(s, sep)| == Occurrences(s, sep) + 1
    decreases |s|
  {
    if |s| > 0 {
      SplitCount(s[1..], sep);
    }
  }

  /** One decimal digit. */
  function Digit(d: nat): (c: char)
    requires d < 10
    ensures '0' <= c <= '9' && (c as int) - ('0' as int) == d
  {
    ('0' as int + d) as char
  }

  /** `String(n)` / `n.toString()` for a non-negative integer: decimal digits,
      most significant first, no leading zeros. */
  function NatToString(n: nat): (r: string)
    decreases n
    ensures |r| >= 1
    ensures forall i :: 0 <= i < |r| ==> '0' <= r[i] <= '9'
    ensures r[0] == '0' ==> n == 0
  {
    if n < 10 then [Digit(n)] else NatToString(n / 10) + [Digit(n % 10)]
  }

  /** Reads a string of decimal digits back as a number. */
  function ParseDecimal(s: string): nat
    requires forall i :: 0 <= i < |s| ==> '0' <= s[i] <= '9'
    decreases |s|
  {
    if |s| == 0 then 0
    else 10 * ParseDecimal(s[..|s| - 1]) + ((s[|s| - 1] as int) - ('0' as int))
  }

  /** The decimal rendering of a number reads back as that number. */
  lemma {:induction false} ParseNatToString(n: nat)
    ensures ParseDecimal(NatToString(n)) == n
    decreases n
  {
    if n >= 10 {
      ParseNatToString(n / 10);
      var r := NatToString(n);
      assert r[..|r| - 1] == NatToString(n / 10);
    }
  }

  /** Different numbers never render as the same text. */
  lemma NatToStringInjective(m: nat, n: nat)
    requires NatToString(m) == NatToString(n)
    ensures m == n
  {
    ParseNatToString(m);
    ParseNatToString(n);
  }
}
