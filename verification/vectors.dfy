/** The handler pattern applied to the handlers the two main-menu scenes
    actually hold: the copy scene's play handler is a match, the published
    scene's gated play handler and both scenes' marketplace handlers are not. */
module Vectors {
  import opened Base
  import opened Text
  import opened HandlerPattern
  import opened SaveMainMenu
  import MenuScene

  /** The body of the copy scene's play handler: the scene start on its own
      line, then the indentation of the closing line. */
  function CopyIndent(): (s: string)
    ensures '}' !in s
  {
    "\n            "
  }

  function CopyStart(): (s: string)
    ensures '}' !in s
  {
    "this.scene.start(\"PlayScene\");"
  }

  function CopyClose(): (s: string)
    ensures '}' !in s
  {
    "\n        "
  }

  function CopyBody(): (s: string)
    ensures '}' !in s
  {
    CopyIndent() + CopyStart() + CopyClose()
  }

  /** The copy scene's play handler, from the opening literal to `});`. */
  function CopyHandler(): string
  {
    Prefix + CopyBody() + Closing
  }

  /** The copy scene's play handler is a match of exactly its own length,
      whatever follows it. */
  lemma CopyHandlerMatches(rest: string)
    ensures MatchAt(Prefix, CopyHandler() + rest) == Some(|CopyHandler()|)
  {
    PrefixFacts();
    ClosingFacts();
    assert CopyHandler() + rest == Prefix + CopyBody() + "}" + (");" + rest);
    FirstBraceDecides(Prefix, CopyBody(), ");" + rest);
  }

  /** In an entry file whose only match is the copy scene's play handler, the
      rewrite swaps that handler for the replacement and keeps the text on
      both sides of it. */
  lemma CopyEntry(pre: string, post: string, rep: string)
    requires forall i {:trigger MatchAt(Prefix, (pre + CopyHandler() + post)[i..])} ::
      0 <= i < |pre| ==> MatchAt(Prefix, (pre + CopyHandler() + post)[i..]).None?
    requires NoMatch(Prefix, post)
    ensures Entry(pre + CopyHandler() + post, rep) == pre + rep + post + HiLine
  {
    CopyHandlerMatches(post);
    ReplaceOnly(Prefix, pre, CopyHandler(), post, rep);
  }

  /** The published scene's play handler up to its first '}': the wallet
      test, which opens a block, and the scene start inside it. */
  function GuardOpen(): (s: string)
    ensures '}' !in s && '>' !in s
  {
    "\n            if (this.walletAddress && "
  }

  function GuardTest(): (s: string)
    ensures '}' !in s && '>' !in s
  {
    "this.walletAddress.startsWith(\""
  }

  function GuardClose(): (s: string)
    ensures '}' !in s && '>' !in s
  {
    "\")) {\n                this.scene.start(\""
  }

  function GuardEnd(): (s: string)
    ensures '}' !in s && '>' !in s
  {
    "\");\n            "
  }

  lemma PublishedKeysLack()
    ensures '}' !in MenuScene.AdmittedPrefix && '}' !in MenuScene.PublishedPlayKey
    ensures '>' !in MenuScene.AdmittedPrefix && '>' !in MenuScene.PublishedPlayKey
  {
  }

  function PublishedBody(): (s: string)
    ensures '}' !in s && '>' !in s
  {
    PublishedKeysLack();
    GuardOpen() + GuardTest() + MenuScene.AdmittedPrefix + GuardClose()
      + MenuScene.PublishedPlayKey + GuardEnd()
  }

  function PublishedLog(): (s: string)
    ensures '>' !in s
  {
    "console.log('Wallet not " + "connected or invalid');"
  }

  function PublishedEnd(): (s: string)
    ensures '>' !in s
  {
    "\n            }\n        });"
  }

  /** What follows that '}': the `else` branch and the close of the handler. */
  function PublishedElse(): (s: string)
    ensures |s| > 0 && s[0] == ' ' && '>' !in s
  {
    " else {\n                " + PublishedLog() + PublishedEnd()
  }

  /** What follows the published play handler's `=>`. */
  function PublishedRest(): (s: string)
    ensures '>' !in s
  {
    " {" + PublishedBody() + "}" + PublishedElse()
  }

  /** The published scene's play handler, from the opening literal to `});`. */
  function PublishedHandler(): string
  {
    Opening + ">" + PublishedRest()
  }

  /** The published scene's play handler is not a match, whatever follows
      it: its first '}' closes the `if` block rather than the handler. */
  lemma PublishedHandlerUnmatched(rest: string)
    ensures MatchAt(Prefix, PublishedHandler() + rest).None?
  {
    PrefixFacts();
    Regroup(Opening, " {", PublishedBody(), PublishedElse(), rest);
    assert (PublishedElse() + rest)[0] == ' ';
    FirstBraceDecides(Prefix, PublishedBody(), PublishedElse() + rest);
  }

  /** The same text, split at the first '}' after the opening literal. */
  lemma Regroup(o: string, a: string, b: string, c: string, rest: string)
    ensures o + ">" + (a + b + "}" + c) + rest == (o + ">" + a) + b + "}" + (c + rest)
  {
  }

  /** The opening of the marketplace handler both scenes hold, up to its one
      '>': one character longer than the play button's, as `marketplace` is
      longer than `playButton`. */
  function MarketHead(): (s: string)
    ensures |s| == 39 && s[1] == 'h' && s[5] == 'm' && '>' !in s
  {
    "this.marketplace.on(\"pointerdown\", () ="
  }

  /** What follows the marketplace handler's `=>`. */
  function MarketRest(): (s: string)
    ensures '>' !in s
  {
    " {" + "\n            " + "this.scene.start(\"Marketplace\");" + "\n        });"
  }

  function MarketHandler(): string
  {
    MarketHead() + ">" + MarketRest()
  }

  /** The marketplace handler is not a match, whatever follows it: its
      receiver is not the play button. */
  lemma MarketHandlerUnmatched(rest: string)
    ensures MatchAt(Prefix, MarketHandler() + rest).None?
  {
    assert Prefix[5] == 'p';
    assert MarketHandler()[5] == MarketHead()[5] == 'm';
    CandidateFails(Prefix, MarketHandler(), 0, 5);
    assert (MarketHandler() + rest)[0..] == MarketHandler() + rest;
  }
}
