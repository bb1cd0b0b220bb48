/** The two main-menu scene files as whole texts, line for line: the copy
    scene `gamebuilder/scenesCopy/MainmenuCopy.ts`, which has the form of the
    entry scene the publish routes rewrite, and the published, wallet-gated
    `gamebuildercopy/scenes/Mainmenu.ts`, which ends with the log line the
    save-main-menu route appends. The play-button pattern matches the first
    exactly once, at its play handler, and the second nowhere.

    The only '>' in either file is the one of each handler's `=>`. The opening
    literal has its one '>' at offset 38 and no line break, so a start inside a
    run of lines without '>' would have to find a '>' there or reach past the
    run's last line break; either way it fails. What is left is the start 38
    characters before each arrow. */
module SceneFiles {
  import opened Base
  import opened Text
  import opened HandlerPattern
  import opened SaveMainMenu
  import opened Vectors
  import opened SceneLines
  import MenuScene

  /** No match can start inside a run of whole lines without '>'. */
  lemma LinesSealed(s: string)
    requires ArrowFree(s)
    ensures Sealed(Prefix, s)
  {
    PrefixFacts();
    forall q | 0 <= q < |s| - 1 ensures s[q] != Prefix[38] {
      assert s[q] in s;
    }
    SealedLine(Prefix, s, 38, -1);
  }

  /** A text ending in a line break whose one '>' stands right after x is
      sealed when the start 38 characters before that '>' fails. */
  lemma ArrowSealed(x: string, y: string)
    requires '>' !in x && '>' !in y && |x| >= 38 && |y| > 0 && y[|y| - 1] == '\n'
    requires StartFails(Prefix, x + ">" + y, |x| - 38)
    ensures Sealed(Prefix, x + ">" + y)
  {
    PrefixFacts();
    var s := x + ">" + y;
    forall q | 0 <= q < |s| - 1 && q != |x| ensures s[q] != Prefix[38] {
      if q < |x| {
        assert s[q] == x[q] && x[q] in x;
      } else {
        assert s[q] == y[q - |x| - 1] && y[q - |x| - 1] in y;
      }
    }
    SealedLine(Prefix, s, 38, |x|);
  }

  /** A sealed text holds no match, not even at its end. */
  lemma SealedNoMatch(lit: string, s: string)
    requires Sealed(lit, s)
    ensures NoMatch(lit, s)
  {
    forall i | 0 <= i <= |s| ensures MatchAt(lit, s[i..]).None? {
      if i < |s| {
        assert (s + "")[i..] == s[i..];
      }
    }
  }

  /** No match starts inside a sealed text, whatever follows it. */
  lemma SealedBefore(lit: string, pre: string, h: string, post: string)
    requires Sealed(lit, pre)
    ensures forall i {:trigger MatchAt(lit, (pre + h + post)[i..])} ::
      0 <= i < |pre| ==> MatchAt(lit, (pre + h + post)[i..]).None?
  {
    assert pre + h + post == pre + (h + post);
  }

  /** The indentation the handler lines start with. */
  function HandlerIndent(): (s: string)
    ensures Sealed(Prefix, s) && |s| == 8 && '>' !in s
  {
    PrefixFacts();
    assert 't' !in Spaces(8) && '>' !in Spaces(8);
    SealedWithout(Prefix, Spaces(8));
    Spaces(8)
  }

  /** An indented handler line whose one '>' follows a head of 38
      characters, and at whose head no match starts whatever follows, is
      sealed: that head is the only start that reaches the '>'. */
  lemma PlayLineSealed(ind: string, head: string, rest: string)
    requires |ind| == 8 && '>' !in ind && |head| == 38 && '>' !in head && '>' !in rest
    requires forall z: string :: MatchAt(Prefix, head + ">" + rest + z).None?
    ensures Sealed(Prefix, ind + head + ">" + (rest + "\n"))
  {
    forall z: string
      ensures MatchAt(Prefix, (ind + head + ">" + (rest + "\n") + z)[8..]).None?
    {
      DropIndent(ind, head, rest, z);
    }
    ArrowSealed(ind + head, rest + "\n");
  }

  lemma DropIndent(ind: string, o: string, rest: string, z: string)
    requires |ind| == 8
    ensures (ind + o + ">" + (rest + "\n") + z)[8..] == o + ">" + rest + ("\n" + z)
  {
  }

  /** The same for a handler whose receiver name is one character longer:
      the start 38 characters before its '>' is its second character, which
      is not the first of the opening literal. */
  lemma LongerLineSealed(ind: string, head: string, rest: string)
    requires |ind| == 8 && '>' !in ind && |head| == 39 && head[1] != 't' && '>' !in head
    requires '>' !in rest
    ensures Sealed(Prefix, ind + head + ">" + (rest + "\n"))
  {
    PrefixFacts();
    var s := ind + head + ">" + (rest + "\n");
    assert s[9] == head[1];
    CandidateFails(Prefix, s, 9, 0);
    ArrowSealed(ind + head, rest + "\n");
  }

  /** The marketplace handler's line. */
  function MarketLine(): (s: string)
    ensures Sealed(Prefix, s)
  {
    LongerLineSealed(HandlerIndent(), MarketHead(), MarketRest());
    HandlerIndent() + MarketHead() + ">" + (MarketRest() + "\n")
  }

  /** The published Mainmenu.ts's play handler's line. */
  function PublishedLine(): (s: string)
    ensures Sealed(Prefix, s)
  {
    forall z: string ensures MatchAt(Prefix, Opening + ">" + PublishedRest() + z).None? {
      PublishedHandlerUnmatched(z);
    }
    PrefixFacts();
    OpeningLacks();
    PlayLineSealed(HandlerIndent(), Opening, PublishedRest());
    HandlerIndent() + Opening + ">" + (PublishedRest() + "\n")
  }

  /** Lines without '>', a sealed text, lines without '>': sealed. */
  lemma AroundSealed(a: string, m: string, t: string)
    requires ArrowFree(a) && Sealed(Prefix, m) && ArrowFree(t)
    ensures Sealed(Prefix, a + m + t)
  {
    LinesSealed(a);
    LinesSealed(t);
    SealedAppend(Prefix, a, m);
    SealedAppend(Prefix, a + m, t);
  }

  /** MainmenuCopy.ts up to its play handler, which starts after the
      indentation of its line. */
  function CopyBefore(): (s: string)
    ensures Sealed(Prefix, s)
  {
    ArrowFree3(CopyHead(), Widgets(), PlayComment());
    LinesSealed(CopyHead() + Widgets() + PlayComment());
    SealedAppend(Prefix, CopyHead() + Widgets() + PlayComment(), HandlerIndent());
    CopyHead() + Widgets() + PlayComment() + HandlerIndent()
  }

  /** MainmenuCopy.ts after its play handler. */
  function CopyAfter(): (s: string)
    ensures Sealed(Prefix, s)
  {
    AroundSealed(AfterPlay(), MarketLine(), CopyTail());
    AfterPlay() + MarketLine() + CopyTail()
  }

  /** The whole of MainmenuCopy.ts. */
  function CopyText(): string
  {
    CopyBefore() + CopyHandler() + CopyAfter()
  }

  /** In a sealed part followed by a match that runs exactly to the end of
      h, the search finds h first. */
  lemma FoundAfter(lit: string, pre: string, h: string, post: string)
    requires Sealed(lit, pre)
    requires MatchAt(lit, h + post) == Some(|h|)
    ensures forall i {:trigger MatchAt(lit, (pre + h + post)[i..])} ::
      0 <= i < |pre| ==> MatchAt(lit, (pre + h + post)[i..]).None?
    ensures FindFrom(lit, pre + h + post, 0) == Some(Hit(|pre|, |h|))
  {
    SealedBefore(lit, pre, h, post);
    var s := pre + h + post;
    assert s[|pre|..] == h + post;
    FindFromFirst(lit, s, 0, |pre|, |h|);
  }

  /** A text made of a sealed part, a match that runs exactly to the end of
      h, and a sealed part holds that one match; no start before h matches. */
  lemma OnceBetween(lit: string, pre: string, h: string, post: string)
    requires Sealed(lit, pre) && Sealed(lit, post)
    requires MatchAt(lit, h + post) == Some(|h|)
    ensures forall i {:trigger MatchAt(lit, (pre + h + post)[i..])} ::
      0 <= i < |pre| ==> MatchAt(lit, (pre + h + post)[i..]).None?
    ensures NoMatch(lit, post)
    ensures MatchCount(lit, pre + h + post) == 1
  {
    FoundAfter(lit, pre, h, post);
    var s := pre + h + post;
    assert s[|pre| + |h|..] == post;
    SealedNoMatch(lit, post);
    MatchCountZero(lit, post);
  }

  /** Any entry file made of the copy scene's play handler between two
      sealed texts holds one match, and publishing it swaps that handler for
      the replacement. */
  lemma CopyBetween(pre: string, post: string, rep: string)
    requires Sealed(Prefix, pre) && Sealed(Prefix, post)
    ensures FindFrom(Prefix, pre + CopyHandler() + post, 0) == Some(Hit(|pre|, |CopyHandler()|))
    ensures MatchCount(Prefix, pre + CopyHandler() + post) == 1
    ensures Entry(pre + CopyHandler() + post, rep) == pre + rep + post + HiLine
  {
    CopyHandlerMatches(post);
    FoundAfter(Prefix, pre, CopyHandler(), post);
    OnceBetween(Prefix, pre, CopyHandler(), post);
    CopyEntry(pre, post, rep);
  }

  /** The play-button pattern matches MainmenuCopy.ts exactly once. */
  lemma CopyTextMatchesOnce()
    ensures MatchCount(Prefix, CopyText()) == 1
  {
    CopyBetween(CopyBefore(), CopyAfter(), "");
  }

  /** Publishing MainmenuCopy.ts with a replacement rep swaps its play handler
      for rep, keeps every other line, and appends the log line. */
  lemma CopyTextRewrite(rep: string)
    ensures Entry(CopyText(), rep) == CopyBefore() + rep + CopyAfter() + HiLine
  {
    CopyBetween(CopyBefore(), CopyAfter(), rep);
  }

  /** Publishing the copy file for the copy scene's own save request puts a
      gate declaring the wallet "undefined" in place of its play handler. */
  lemma CopyTextCopySave()
    ensures Entry(CopyText(), Replacement(Interpolate(MenuScene.CopySaveRequest().wallet)))
         == CopyBefore() + Replacement("undefined") + CopyAfter() + HiLine
  {
    CopyTextRewrite(Replacement("undefined"));
  }

  /** Mainmenu.ts up to its play handler. */
  function PublishedBefore(): (s: string)
    ensures Sealed(Prefix, s)
  {
    ArrowFree4(PublishedHead(), Widgets(), ConnectCall(), PlayComment());
    ArrowFree2(PublishedHead() + Widgets() + ConnectCall() + PlayComment(), PlayGap());
    LinesSealed(PublishedHead() + Widgets() + ConnectCall() + PlayComment() + PlayGap());
    PublishedHead() + Widgets() + ConnectCall() + PlayComment() + PlayGap()
  }

  /** The log line the publish route appended, and the line break the file
      ends with after it (the route appends none), sealed on their own. */
  lemma HiLineSealed()
    ensures Sealed(Prefix, HiLine + "\n")
  {
    PrefixFacts();
    assert 't' !in HiLine + "\n";
    SealedWithout(Prefix, HiLine + "\n");
  }

  /** Mainmenu.ts after its play handler, the log line the publish route
      appended included. */
  function PublishedAfter(): (s: string)
    ensures Sealed(Prefix, s)
  {
    AroundSealed(MarketComment(), MarketLine(), PublishedTail());
    HiLineSealed();
    SealedAppend(Prefix, MarketComment() + MarketLine() + PublishedTail(), HiLine + "\n");
    MarketComment() + MarketLine() + PublishedTail() + (HiLine + "\n")
  }

  /** The whole of the published Mainmenu.ts. */
  function PublishedText(): string
  {
    PublishedBefore() + PublishedLine() + PublishedAfter()
  }

  /** Three sealed texts in a row hold no match. */
  lemma SealedThree(a: string, b: string, c: string)
    requires Sealed(Prefix, a) && Sealed(Prefix, b) && Sealed(Prefix, c)
    ensures NoMatch(Prefix, a + b + c)
    ensures MatchCount(Prefix, a + b + c) == 0
  {
    SealedAppend(Prefix, a, b);
    SealedAppend(Prefix, a + b, c);
    SealedNoMatch(Prefix, a + b + c);
    MatchCountZero(Prefix, a + b + c);
  }

  /** The play-button pattern matches the published Mainmenu.ts nowhere. */
  lemma PublishedTextUnmatched()
    ensures NoMatch(Prefix, PublishedText())
    ensures MatchCount(Prefix, PublishedText()) == 0
  {
    SealedThree(PublishedBefore(), PublishedLine(), PublishedAfter());
  }

  /** Publishing the published Mainmenu.ts again only appends another log
      line, whatever the replacement. */
  lemma PublishedTextRepublished(rep: string)
    ensures Entry(PublishedText(), rep) == PublishedText() + HiLine
  {
    PublishedTextUnmatched();
    MatchCountZero(Prefix, PublishedText());
    EntryUnmatched(PublishedText(), rep);
  }
}
