/** The play-button handler pattern both publish routes rewrite, and the
    global, left-to-right, non-overlapping replacement JavaScript performs for
    `text.replace(/this\.playButton\.on\("pointerdown", \(\) => {[^}]*}\);/g, rep)`.

    The pattern is an opening literal, a run of characters other than '}',
    and the closing literal `});`. The theory below is stated for any opening
    literal `lit` (the facts about a whole rewritten text ask that it hold no
    '}'); the routes use it with Prefix. */
module HandlerPattern {
  import opened Base
  import opened Text

  /** The opening literal up to, not including, its only '>'. */
  const Opening: string := "t" + "his.playButton" + ".on(\"pointerdown\", " + "() ="

  /** `this.playButton.on("pointerdown", () => {` : the literal the pattern starts with. */
  const Prefix: string := Opening + ">" + " {"

  /** `});` : the literal the pattern ends with. */
  const Closing: string := "});"

  lemma ClosingFacts()
    ensures |Closing| == 3 && Closing[0] == '}' && Closing[1] == ')' && Closing[2] == ';'
  {
  }

  lemma PrefixFacts()
    ensures |Opening| == 38 && |Prefix| == 41
    ensures Prefix[0] == 't' && Prefix[9] == 'B' && Prefix[34] == '(' && Prefix[38] == '>'
    ensures '}' !in Prefix && '\n' !in Prefix
  {
    assert '}' !in Opening && '\n' !in Opening;
  }

  lemma OpeningLacks()
    ensures '$' !in Prefix && '>' !in Opening
  {
  }

  /** `[^}]*});` anchored at the start of s: the length it matches, if any.
      The run of non-'}' characters can only stop at the first '}', so the
      match exists exactly when that '}' begins `});`. */
  function Tail(s: string): (r: Option<nat>)
    decreases |s|
    ensures r.Some? ==> |Closing| <= r.value <= |s|
  {
    if |s| == 0 then None
    else if s[0] == '}' then
      if |s| >= 3 && s[1] == ')' && s[2] == ';' then Some(3) else None
    else match Tail(s[1..])
      case None => None
      case Some(n) => Some(n + 1)
  }

  /** The pattern anchored at the start of s: the opening literal, character
      by character, then Tail; the length of the match, if any. */
  function MatchAt(lit: string, s: string): (r: Option<nat>)
    decreases |lit|
    ensures r.Some? ==> |lit| + |Closing| <= r.value <= |s|
  {
    if |lit| == 0 then Tail(s)
    else if |s| == 0 || s[0] != lit[0] then None
    else match MatchAt(lit[1..], s[1..])
      case None => None
      case Some(n) => Some(n + 1)
  }

  /** The language of the regular expression, stated directly: s begins with
      the opening literal, then a run free of '}', then Closing, n characters
      in all. */
  predicate IsMatch(lit: string, s: string, n: nat)
  {
    && |lit| + |Closing| <= n <= |s|
    && (forall j :: 0 <= j < |lit| ==> s[j] == lit[j])
    && (forall j :: n - |Closing| <= j < n ==> s[j] == Closing[j - (n - |Closing|)])
    && (forall j :: |lit| <= j < n - |Closing| ==> s[j] != '}')
  }

  /** A match of a non-empty literal is its first character followed by a
      match of the rest of the literal. */
  lemma IsMatchShift(lit: string, s: string, n: nat)
    requires |lit| > 0 && |s| > 0 && n > 0
    ensures IsMatch(lit, s, n) <==> s[0] == lit[0] && IsMatch(lit[1..], s[1..], n - 1)
  {
    if s[0] == lit[0] && IsMatch(lit[1..], s[1..], n - 1) {
      forall j | 1 <= j < |lit| ensures s[j] == lit[j] {
        assert s[1..][j - 1] == lit[1..][j - 1];
      }
      forall j | n - |Closing| <= j < n ensures s[j] == Closing[j - (n - |Closing|)] {
        assert s[1..][j - 1] == Closing[(j - 1) - (n - 1 - |Closing|)];
      }
      forall j | |lit| <= j < n - |Closing| ensures s[j] != '}' {
        assert s[1..][j - 1] != '}';
      }
    }
    if IsMatch(lit, s, n) {
      forall j | 0 <= j < |lit| - 1 ensures s[1..][j] == lit[1..][j] {
        assert s[j + 1] == lit[j + 1];
      }
    }
  }

  /** Tail finds exactly the prefixes `[^}]*});` matches. */
  lemma {:induction false} TailExact(s: string, n: nat)
    ensures Tail(s) == Some(n) <==> IsMatch("", s, n)
    decreases |s|
  {
    ClosingFacts();
    if |s| > 0 && s[0] != '}' && n > 0 {
      TailExact(s[1..], n - 1);
      if IsMatch("", s, n) {
        assert n > |Closing| by { assert s[n - |Closing|] == '}'; }
        forall j | n - 1 - |Closing| <= j < n - 1 ensures s[1..][j] == Closing[j - (n - 1 - |Closing|)] {
          assert s[j + 1] == Closing[j + 1 - (n - |Closing|)];
        }
        forall j | 0 <= j < n - 1 - |Closing| ensures s[1..][j] != '}' {
          assert s[j + 1] != '}';
        }
      }
      if Tail(s) == Some(n) {
        assert IsMatch("", s[1..], n - 1);
        forall j | n - |Closing| <= j < n ensures s[j] == Closing[j - (n - |Closing|)] {
          assert s[1..][j - 1] == Closing[(j - 1) - (n - 1 - |Closing|)];
        }
        forall j | 0 <= j < n - |Closing| ensures s[j] != '}' {
          if j > 0 { assert s[1..][j - 1] != '}'; }
        }
      }
    } else if |s| > 0 && s[0] == '}' {
      if IsMatch("", s, n) {
        assert n == |Closing|;
        assert s[1] == Closing[1] && s[2] == Closing[2];
      }
    }
  }

  /** MatchAt finds exactly the prefixes of s that the regular expression matches
      (so at most one: the match at a given position is unique). */
  lemma {:induction false} MatchAtExact(lit: string, s: string, n: nat)
    ensures MatchAt(lit, s) == Some(n) <==> IsMatch(lit, s, n)
    decreases |lit|
  {
    if |lit| == 0 {
      TailExact(s, n);
      assert lit == "";
    } else if |s| > 0 && n > 0 {
      MatchAtExact(lit[1..], s[1..], n - 1);
      IsMatchShift(lit, s, n);
    }
  }

  /** A text that no prefix length matches has no match at its start. */
  lemma {:induction false} NoneIfNoMatch(lit: string, s: string)
    requires forall n: nat :: !IsMatch(lit, s, n)
    ensures MatchAt(lit, s).None?
  {
    var n := if MatchAt(lit, s).Some? then MatchAt(lit, s).value else 0;
    MatchAtExact(lit, s, n);
  }

  /** Whether the pattern matches n characters depends on those characters only. */
  lemma {:induction false} MatchTransfer(lit: string, a: string, b: string, n: nat)
    requires n <= |a| && n <= |b|
    requires forall j :: 0 <= j < n ==> a[j] == b[j]
    ensures IsMatch(lit, a, n) <==> IsMatch(lit, b, n)
  {
  }

  /** The pattern succeeds right after the opening literal exactly when the
      first '}' of the handler body opens `);`: a handler whose body holds an
      earlier '}' (an if/else block, say) is never matched. */
  lemma {:induction false} FirstBraceDecides(lit: string, body: string, rest: string)
    requires '}' !in lit && '}' !in body
    ensures MatchAt(lit, lit + body + "}" + rest)
         == if StartsWith(rest, ");") then Some(|lit| + |body| + |Closing|) else None
  {
    ClosingFacts();
    var s := lit + body + "}" + rest;
    var b := |lit| + |body|;
    var n := b + |Closing|;
    assert s[b] == '}';
    forall k | |lit| <= k < b ensures s[k] != '}' {
      assert s[k] == body[k - |lit|];
    }
    forall m: nat ensures IsMatch(lit, s, m) ==> m == n {
      if |lit| + |Closing| <= m < n {
        assert s[m - |Closing|] != '}';
      }
    }
    if StartsWith(rest, ");") {
      assert s[b + 1] == rest[0] && s[b + 2] == rest[1];
      MatchAtExact(lit, s, n);
    } else {
      if n <= |s| {
        assert s[b + 1] == rest[0] && s[b + 2] == rest[1];
        assert rest[..2] == [rest[0], rest[1]];
      }
      NoneIfNoMatch(lit, s);
    }
  }

  /** No position of s starts a match. */
  predicate NoMatch(lit: string, s: string)
  {
    forall i {:trigger MatchAt(lit, s[i..])} :: 0 <= i <= |s| ==> MatchAt(lit, s[i..]).None?
  }

  /** A match found by the search: its start and length. */
  datatype Hit = Hit(at: nat, len: nat)

  /** The leftmost match starting at or after k, as a global regular expression
      search resuming from `lastIndex == k` finds it. */
  function FindFrom(lit: string, s: string, k: nat): (r: Option<Hit>)
    requires k <= |s|
    decreases |s| - k
    ensures r.Some? ==> k <= r.value.at && r.value.at + r.value.len <= |s|
    ensures r.Some? ==> MatchAt(lit, s[r.value.at..]) == Some(r.value.len)
  {
    var m := MatchAt(lit, s[k..]);
    if m.Some? then Some(Hit(k, m.value))
    else if k == |s| then None
    else
      FindFrom(lit, s, k + 1)
  }

  /** The search finds the leftmost match: no position it passes over starts one. */
  lemma {:induction false} FindFromLeftmost(lit: string, s: string, k: nat)
    requires k <= |s|
    ensures FindFrom(lit, s, k).Some? ==>
      forall i {:trigger MatchAt(lit, s[i..])} :: k <= i < FindFrom(lit, s, k).value.at ==> MatchAt(lit, s[i..]).None?
    ensures FindFrom(lit, s, k).None? ==>
      forall i {:trigger MatchAt(lit, s[i..])} :: k <= i <= |s| ==> MatchAt(lit, s[i..]).None?
    decreases |s| - k
  {
    if MatchAt(lit, s[k..]).None? && k < |s| {
      FindFromLeftmost(lit, s, k + 1);
      assert FindFrom(lit, s, k) == FindFrom(lit, s, k + 1);
    }
  }

  /** `s.replace(pattern, rep)` with the `g` flag: every match, left to right
      and without overlap, is replaced by rep; text between matches is kept.
      The replacement is inserted as it is, which is what JavaScript does
      when it holds no `$` (a `$` may start a pattern such as `$&`, which
      JavaScript would expand). */
  function ReplaceAll(lit: string, s: string, rep: string): string
    decreases |s|
  {
    if FindFrom(lit, s, 0).None? then s
    else
      s[..FindFrom(lit, s, 0).value.at] + rep
      + ReplaceAll(lit, s[FindFrom(lit, s, 0).value.at + FindFrom(lit, s, 0).value.len..], rep)
  }

  /** A text without a match is left as it is. */
  lemma ReplaceAllNoMatch(lit: string, s: string, rep: string)
    requires NoMatch(lit, s)
    ensures ReplaceAll(lit, s, rep) == s
  {
  }

  /** One step of the rewrite: the text before the first hit, the replacement,
      and the rewrite of the rest. */
  lemma ReplaceAllStep(lit: string, s: string, rep: string)
    requires FindFrom(lit, s, 0).Some?
    ensures ReplaceAll(lit, s, rep)
         == s[..FindFrom(lit, s, 0).value.at] + rep
            + ReplaceAll(lit, s[FindFrom(lit, s, 0).value.at + FindFrom(lit, s, 0).value.len..], rep)
  {
  }

  /** The search finds the first position that starts a match. */
  lemma {:induction false} FindFromFirst(lit: string, s: string, k: nat, j: nat, n: nat)
    requires k <= j <= |s|
    requires MatchAt(lit, s[j..]) == Some(n)
    requires forall i {:trigger MatchAt(lit, s[i..])} :: k <= i < j ==> MatchAt(lit, s[i..]).None?
    ensures FindFrom(lit, s, k) == Some(Hit(j, n))
    decreases j - k
  {
    if k < j {
      FindFromFirst(lit, s, k + 1, j, n);
    }
  }

  /** When the first match is h, right after pre, and no match is left after
      it, the rewrite replaces h and nothing else. */
  lemma {:induction false} ReplaceOnly(lit: string, pre: string, h: string, post: string, rep: string)
    requires MatchAt(lit, h + post) == Some(|h|)
    requires forall i {:trigger MatchAt(lit, (pre + h + post)[i..])} ::
      0 <= i < |pre| ==> MatchAt(lit, (pre + h + post)[i..]).None?
    requires NoMatch(lit, post)
    ensures ReplaceAll(lit, pre + h + post, rep) == pre + rep + post
  {
    var s := pre + h + post;
    assert s[|pre|..] == h + post;
    FindFromFirst(lit, s, 0, |pre|, |h|);
    ReplaceAllStep(lit, s, rep);
    assert s[..|pre|] == pre;
    assert s[|pre| + |h|..] == post;
    ReplaceAllNoMatch(lit, post, rep);
  }

  /** How many replacements ReplaceAll performs on s. */
  function MatchCount(lit: string, s: string): nat
    decreases |s|
  {
    if FindFrom(lit, s, 0).None? then 0
    else 1 + MatchCount(lit, s[FindFrom(lit, s, 0).value.at + FindFrom(lit, s, 0).value.len..])
  }

  /** No replacement is made exactly when the text holds no match. */
  lemma MatchCountZero(lit: string, s: string)
    ensures MatchCount(lit, s) == 0 <==> NoMatch(lit, s)
  {
    FindFromLeftmost(lit, s, 0);
  }

  /** With exactly one match, a match is found and none is left after it. */
  lemma SingleMatchRest(lit: string, s: string)
    requires MatchCount(lit, s) == 1
    ensures FindFrom(lit, s, 0).Some?
    ensures NoMatch(lit, s[FindFrom(lit, s, 0).value.at + FindFrom(lit, s, 0).value.len..])
  {
    MatchCountZero(lit, s[FindFrom(lit, s, 0).value.at + FindFrom(lit, s, 0).value.len..]);
  }

  /** With exactly one match, the rewrite replaces that one block and keeps
      the text before and after it byte for byte. */
  lemma SingleMatchRewrite(lit: string, s: string, rep: string)
    requires MatchCount(lit, s) == 1
    ensures FindFrom(lit, s, 0).Some?
    ensures ReplaceAll(lit, s, rep)
         == s[..FindFrom(lit, s, 0).value.at] + rep
            + s[FindFrom(lit, s, 0).value.at + FindFrom(lit, s, 0).value.len..]
    ensures IsMatch(lit, s[FindFrom(lit, s, 0).value.at..], FindFrom(lit, s, 0).value.len)
    ensures NoMatch(lit, s[FindFrom(lit, s, 0).value.at + FindFrom(lit, s, 0).value.len..])
  {
    SingleMatchRest(lit, s);
    ReplaceAllNoMatch(lit, s[FindFrom(lit, s, 0).value.at + FindFrom(lit, s, 0).value.len..], rep);
    MatchAtExact(lit, s[FindFrom(lit, s, 0).value.at..], FindFrom(lit, s, 0).value.len);
  }

  /** No match can start inside rep, whatever text follows it. */
  ghost predicate Sealed(lit: string, rep: string)
  {
    forall y: string, i {:trigger MatchAt(lit, (rep + y)[i..])} ::
      0 <= i < |rep| ==> MatchAt(lit, (rep + y)[i..]).None?
  }

  /** rep's first character can neither continue an opening literal nor a
      closing `});` that began before it. */
  ghost predicate SafeLead(lit: string, rep: string)
  {
    |rep| > 0 && forall i :: 0 <= i < 1 ==> rep[i] !in lit && rep[i] !in Closing
  }

  /** Text put after a text with a safe first character keeps it. */
  lemma SafeLeadAppend(lit: string, a: string, b: string)
    ensures SafeLead(lit, a) ==> SafeLead(lit, a + b)
  {
    if |a| > 0 {
      assert (a + b)[0] == a[0];
    }
  }

  /** A text is sealed when every position holding a character c of the
      opening literal (at offset k in it) other than the listed anchors holds
      something else, the candidate start k before each anchor fails whatever
      follows, and the last k characters hold no first character of the
      literal to begin a match with. */
  lemma {:induction false} SealedByAnchors(lit: string, front: string, tail: string, c: char, k: nat, qs: seq<nat>)
    requires k < |lit| && lit[k] == c
    requires |tail| >= k && lit[0] !in tail
    requires forall q :: 0 <= q < |front + tail| && q !in qs ==> (front + tail)[q] != c
    requires forall j :: 0 <= j < |qs| ==> k <= qs[j] < |front + tail|
    requires forall y: string, j :: 0 <= j < |qs| ==> MatchAt(lit, (front + tail + y)[qs[j] - k..]).None?
    ensures Sealed(lit, front + tail)
  {
    var rep := front + tail;
    forall y: string, i | 0 <= i < |rep| ensures MatchAt(lit, (rep + y)[i..]).None? {
      var x := rep + y;
      var xi := x[i..];
      if i + k < |rep| {
        if i + k in qs {
          var j :| 0 <= j < |qs| && qs[j] == i + k;
          assert xi == x[qs[j] - k..];
        } else {
          assert xi[k] == rep[i + k];
          NoneIfNoMatch(lit, xi);
        }
      } else {
        assert xi[0] == rep[i] == tail[i - |front|];
        assert tail[i - |front|] in tail;
        NoneIfNoMatch(lit, xi);
      }
    }
  }

  /** The single-anchor case: c occurs only between a and b. */
  lemma {:induction false} SealedByAnchor(lit: string, a: string, b: string, tail: string, c: char, k: nat)
    requires k < |lit| && lit[k] == c && k <= |a|
    requires c !in a && c !in b && c !in tail
    requires |tail| >= k && lit[0] !in tail
    requires forall y: string :: MatchAt(lit, (a + [c] + b + tail + y)[|a| - k..]).None?
    ensures Sealed(lit, a + [c] + b + tail)
  {
    var front := a + [c] + b;
    var x := front + tail;
    forall q | 0 <= q < |x| && q !in [|a|] ensures x[q] != c {
      if q < |a| {
        assert x[q] == a[q];
      } else if q < |front| {
        assert x[q] == b[q - |a| - 1];
      } else {
        assert x[q] == tail[q - |front|];
      }
    }
    SealedByAnchors(lit, front, tail, c, k, [|a|]);
  }

  /** A text without the literal's first character is sealed. */
  lemma SealedWithout(lit: string, s: string)
    requires |lit| > 0 && lit[0] !in s
    ensures Sealed(lit, s)
  {
    forall y: string, i | 0 <= i < |s| ensures MatchAt(lit, (s + y)[i..]).None? {
      assert (s + y)[i..][0] == s[i];
    }
  }

  /** Two sealed texts in a row are sealed: a start inside the first is
      covered whatever follows it, the second included. */
  lemma SealedAppend(lit: string, a: string, b: string)
    requires Sealed(lit, a) && Sealed(lit, b)
    ensures Sealed(lit, a + b)
  {
    forall y: string, i | 0 <= i < |a + b| ensures MatchAt(lit, (a + b + y)[i..]).None? {
      if i < |a| {
        assert (a + b + y)[i..] == (a + (b + y))[i..];
        assert MatchAt(lit, (a + (b + y))[i..]).None?;
      } else {
        assert (a + b + y)[i..] == (b + y)[i - |a|..];
        assert MatchAt(lit, (b + y)[i - |a|..]).None?;
      }
    }
  }

  /** Sealed pieces written one after the other are sealed. */
  lemma {:induction false} ConcatSealed(lit: string, pieces: seq<string>)
    requires forall i :: 0 <= i < |pieces| ==> Sealed(lit, pieces[i])
    ensures Sealed(lit, Concat(pieces))
    decreases |pieces|
  {
    if |pieces| == 0 {
      assert Sealed(lit, "");
    } else {
      ConcatSealed(lit, pieces[1..]);
      SealedAppend(lit, pieces[0], Concat(pieces[1..]));
    }
  }

  /** Pieces whose first one starts with a safe character do too. */
  lemma ConcatSafeLead(lit: string, pieces: seq<string>)
    requires |pieces| > 0 && SafeLead(lit, pieces[0])
    ensures SafeLead(lit, Concat(pieces))
  {
    SafeLeadAppend(lit, pieces[0], Concat(pieces[1..]));
  }

  /** A text ending in a line break, which the literal lacks, where lit[k]
      occurs at most at one position: a start inside it either reaches the
      line break before the literal ends, or finds some other character where
      the literal has lit[k], or is the start k before that position, which
      is assumed to fail. */
  lemma {:induction false} SealedLine(lit: string, s: string, k: nat, anchor: int)
    requires k < |lit| && '\n' !in lit && |s| > 0 && s[|s| - 1] == '\n'
    requires forall q :: 0 <= q < |s| - 1 && q != anchor ==> s[q] != lit[k]
    requires k <= anchor ==> StartFails(lit, s, anchor - k)
    ensures Sealed(lit, s)
  {
    forall y: string, i | 0 <= i < |s| ensures MatchAt(lit, (s + y)[i..]).None? {
      var x := (s + y)[i..];
      if i + k == anchor {
        assert x == (s + y)[anchor - k..];
      } else {
        forall m: nat ensures !IsMatch(lit, x, m) {
          if i + |lit| < |s| {
            assert x[k] == s[i + k];
          } else {
            var j := |s| - 1 - i;
            assert x[j] == '\n';
            assert lit[j] in lit;
          }
        }
        NoneIfNoMatch(lit, x);
      }
    }
  }

  /** A line whose code lacks lit[k] is sealed. */
  lemma LineSealed(lit: string, n: nat, code: string, k: nat)
    requires k < |lit| && lit[k] != ' ' && lit[k] !in code && '\n' !in lit
    ensures Sealed(lit, Line(n, code))
  {
    var s := Line(n, code);
    forall q | 0 <= q < |s| - 1 ensures s[q] != lit[k] {
      if q >= n {
        assert s[q] == code[q - n];
      }
    }
    SealedLine(lit, s, k, -1);
  }

  /** A line whose code holds lit[k] once, between x and y, is sealed when
      the start k characters before it fails. */
  lemma AnchoredLineSealed(lit: string, n: nat, x: string, c: char, y: string, k: nat)
    requires k < |lit| && lit[k] == c && c != ' ' && c !in x && c !in y && '\n' !in lit
    requires k <= n + |x| && StartFails(lit, Line(n, x + [c] + y), n + |x| - k)
    ensures Sealed(lit, Line(n, x + [c] + y))
  {
    AnchoredLineChars(n, x, c, y);
    SealedLine(lit, Line(n, x + [c] + y), k, n + |x|);
  }

  /** In such a line c occurs only at n + |x|. */
  lemma AnchoredLineChars(n: nat, x: string, c: char, y: string)
    requires c != ' ' && c !in x && c !in y
    ensures var s := Line(n, x + [c] + y);
      forall q :: 0 <= q < |s| - 1 && q != n + |x| ==> s[q] != c
  {
    var code := x + [c] + y;
    var s := Line(n, code);
    forall q | 0 <= q < |s| - 1 && q != n + |x| ensures s[q] != c {
      if n <= q < n + |x| {
        assert s[q] == code[q - n] == x[q - n];
        assert x[q - n] in x;
      } else if q > n + |x| {
        assert s[q] == code[q - n] == y[q - n - |x| - 1];
        assert y[q - n - |x| - 1] in y;
      }
    }
  }

  /** A text framed by a sealed header and a suffix without '}' has no match
      after the rewrite, when the replacement is sealed and safe. */
  lemma FramedNoMatch(lit: string, header: string, s: string, rep: string, suffix: string)
    requires '}' !in lit
    requires Sealed(lit, header) && Sealed(lit, rep) && SafeLead(lit, rep)
    requires '}' !in suffix && |suffix| > 0 && suffix[0] !in Closing
    ensures NoMatch(lit, header + ReplaceAll(lit, s, rep) + suffix)
  {
    NoMatchAfterReplace(lit, s, rep);
    PrependKeepsNoMatch(lit, header, ReplaceAll(lit, s, rep));
    AppendKeepsNoMatch(lit, header + ReplaceAll(lit, s, rep), suffix);
  }

  /** A text holding the opening literal once, followed by a body without '}'
      and a '}' that is not followed by `);`, is sealed when no other '>'
      occurs in it and its last 38 characters hold no 't'. */
  lemma SealedHandler(lead: string, body: string, rest: string, tail: string)
    requires '>' !in lead && '>' !in body && '>' !in rest && '>' !in tail
    requires '}' !in body
    requires |rest| > 0 && rest[0] != ')'
    requires |tail| >= |Opening| && 't' !in tail
    ensures Sealed(Prefix, lead + Prefix + body + "}" + rest + tail)
  {
    PrefixFacts();
    OpeningLacks();
    var a := lead + Opening;
    var b := " {" + body + "}" + rest;
    assert lead + Prefix + body + "}" + rest + tail == a + ['>'] + b + tail;
    forall y: string ensures MatchAt(Prefix, (a + ['>'] + b + tail + y)[|a| - 38..]).None? {
      var after := rest + tail + y;
      assert (a + ['>'] + b + tail + y)[|a| - 38..] == Prefix + body + "}" + after;
      FirstBraceDecides(Prefix, body, after);
      assert after[0] == rest[0];
    }
    SealedByAnchor(Prefix, a, b, tail, '>', 38);
  }

  /** No match starts at position p of s, whatever text follows s. */
  ghost predicate StartFails(lit: string, s: string, p: int)
  {
    0 <= p <= |s| && forall z: string :: MatchAt(lit, (s + z)[p..]).None?
  }

  /** A start whose d-th character differs from the opening literal's fails. */
  lemma {:induction false} CandidateFails(lit: string, rep: string, p: nat, d: nat)
    requires d < |lit| && p + d < |rep| && rep[p + d] != lit[d]
    ensures StartFails(lit, rep, p)
  {
    forall y: string ensures MatchAt(lit, (rep + y)[p..]).None? {
      var xi := (rep + y)[p..];
      assert xi[d] == rep[p + d];
      NoneIfNoMatch(lit, xi);
    }
  }

  /** The same for a start inside the code of a line of generated source,
      counted from the start of the code. */
  lemma LineCandidateFails(lit: string, n: nat, code: string, p: nat, d: nat)
    requires d < |lit| && p + d < |code| && code[p + d] != lit[d]
    ensures StartFails(lit, Line(n, code), n + p)
  {
    assert Line(n, code)[n + p + d] == code[p + d];
    CandidateFails(lit, Line(n, code), n + p, d);
  }

  /** A match in x at i that runs past `at`, where s has the same characters as
      x before `at` and a match of its own at `at`, means s matched at i too. */
  lemma {:induction false} ExtendToHit(lit: string, s: string, x: string, i: nat, n: nat, at: nat, len: nat)
    requires at <= |x| && at + len <= |s|
    requires forall j :: 0 <= j < at ==> x[j] == s[j]
    requires i + |lit| <= at < i + n - |Closing| && i + n <= |x|
    requires IsMatch(lit, s[at..], len) && '}' !in lit
    ensures IsMatch(lit, x[i..], n) ==> IsMatch(lit, s[i..], at + len - i)
  {
    ClosingFacts();
    if IsMatch(lit, x[i..], n) {
      var xi, si, sa := x[i..], s[i..], s[at..];
      var m := at + len - i;
      forall j | 0 <= j < |lit| ensures si[j] == lit[j] {
        assert si[j] == xi[j];
      }
      forall j | m - |Closing| <= j < m ensures si[j] == Closing[j - (m - |Closing|)] {
        assert si[j] == sa[j - (at - i)];
      }
      forall j | |lit| <= j < m - |Closing| ensures si[j] != '}' {
        if i + j < at {
          assert si[j] == xi[j];
        } else if j - (at - i) < |lit| {
          assert si[j] == sa[j - (at - i)] == lit[j - (at - i)];
        } else {
          assert si[j] == sa[j - (at - i)];
        }
      }
    }
  }

  /** The central step: positions before the first hit cannot start a match
      in the rewritten text either. */
  lemma {:induction false} NoMatchBeforeHit(lit: string, s: string, at: nat, len: nat, rep: string, z: string, i: nat)
    requires at + len <= |s|
    requires MatchAt(lit, s[at..]) == Some(len)
    requires forall j {:trigger MatchAt(lit, s[j..])} :: 0 <= j < at ==> MatchAt(lit, s[j..]).None?
    requires SafeLead(lit, rep) && '}' !in lit
    requires i < at
    ensures MatchAt(lit, (s[..at] + rep + z)[i..]).None?
  {
    ClosingFacts();
    var x := s[..at] + rep + z;
    var xi, si := x[i..], s[i..];
    assert forall j :: 0 <= j < at ==> x[j] == s[j];
    assert x[at] == rep[0];
    MatchAtExact(lit, s[at..], len);
    forall n: nat ensures !IsMatch(lit, xi, n) {
      if i + n <= at {
        MatchTransfer(lit, xi, si, n);
        MatchAtExact(lit, si, n);
      } else if i + n > |x| {
      } else if i + n - |Closing| <= at {
        assert xi[at - i] == rep[0];
        assert Closing[at - i - (n - |Closing|)] in Closing;
      } else if at < i + |lit| {
        assert xi[at - i] == rep[0];
        assert lit[at - i] in lit;
      } else {
        ExtendToHit(lit, s, x, i, n, at, len);
        MatchAtExact(lit, si, at + len - i);
      }
    }
    NoneIfNoMatch(lit, xi);
  }

  /** After the rewrite no match is left, provided the replacement is sealed
      and starts with a character that cannot join text on its left into a match. */
  lemma {:induction false} NoMatchAfterReplace(lit: string, s: string, rep: string)
    requires Sealed(lit, rep) && SafeLead(lit, rep) && '}' !in lit
    ensures NoMatch(lit, ReplaceAll(lit, s, rep))
    decreases |s|
  {
    FindFromLeftmost(lit, s, 0);
    match FindFrom(lit, s, 0)
    case None =>
    case Some(h) =>
      var rest := s[h.at + h.len..];
      var z := ReplaceAll(lit, rest, rep);
      NoMatchAfterReplace(lit, rest, rep);
      ReplaceAllStep(lit, s, rep);
      NoMatchAroundRep(lit, s, h.at, h.len, rep, z);
  }

  /** One rewriting step keeps the text free of matches: the unchanged text
      before the hit, the sealed replacement, and the already clean rest. */
  lemma {:induction false} NoMatchAroundRep(lit: string, s: string, at: nat, len: nat, rep: string, z: string)
    requires at + len <= |s|
    requires MatchAt(lit, s[at..]) == Some(len)
    requires forall j {:trigger MatchAt(lit, s[j..])} :: 0 <= j < at ==> MatchAt(lit, s[j..]).None?
    requires Sealed(lit, rep) && SafeLead(lit, rep) && NoMatch(lit, z)
    requires '}' !in lit
    ensures NoMatch(lit, s[..at] + rep + z)
  {
    var x := s[..at] + rep + z;
    forall i | 0 <= i <= |x| ensures MatchAt(lit, x[i..]).None? {
      if i < at {
        NoMatchBeforeHit(lit, s, at, len, rep, z, i);
      } else if i < at + |rep| {
        assert x[i..] == (rep + z)[i - at..];
      } else {
        assert x[i..] == z[i - at - |rep|..];
      }
    }
  }

  /** Appending text that holds no '}' and does not start inside a closing
      literal cannot create a match. */
  lemma {:induction false} AppendKeepsNoMatch(lit: string, x: string, t: string)
    requires NoMatch(lit, x)
    requires '}' !in t && |t| > 0 && t[0] !in Closing
    ensures NoMatch(lit, x + t)
  {
    ClosingFacts();
    var xt := x + t;
    forall i | 0 <= i <= |xt| ensures MatchAt(lit, xt[i..]).None? {
      var xti := xt[i..];
      forall n: nat ensures !IsMatch(lit, xti, n) {
        var close := i + n - |Closing|;
        if n < |lit| + |Closing| {
        } else if i + n <= |x| {
          MatchTransfer(lit, xti, x[i..], n);
          MatchAtExact(lit, x[i..], n);
        } else if i + n > |xt| {
        } else if close >= |x| {
          assert xti[close - i] == t[close - |x|];
        } else {
          assert xti[|x| - i] == t[0];
          assert Closing[|x| - close] in Closing;
        }
      }
      NoneIfNoMatch(lit, xti);
    }
  }

  /** Prepending a sealed text cannot create a match. */
  lemma {:induction false} PrependKeepsNoMatch(lit: string, h: string, x: string)
    requires Sealed(lit, h) && NoMatch(lit, x)
    ensures NoMatch(lit, h + x)
  {
    var hx := h + x;
    forall i | 0 <= i <= |hx| ensures MatchAt(lit, hx[i..]).None? {
      if i >= |h| {
        assert hx[i..] == x[i - |h|..];
      }
    }
  }
}
