/** The `save-main-menu` publish route: the scenes are copied with the entry
    file's play-button handler replaced by a wallet-prefix gate and a log line
    appended, and the regular top-level files are copied as they are. */
module SaveMainMenu {
  import opened Base
  import opened Text
  import opened HandlerPattern
  import opened Tree
  import opened Scenes

  /** The lower-case wallet prefix the generated gate admits. */
  const GateKey: string := "0x0c467c60e97221de6cd9"

  /** The replacement text opens with a `const wallet` declaration holding the
      interpolated wallet. Each piece of the generated text below is stated
      with the characters it lacks, which the proofs about the pattern use. */
  function LeadOpen(): (s: string)
    ensures '$' !in s && '>' !in s && |s| > 0 && s[0] == '\n'
  {
    "\n          const wallet = \""
  }

  function LeadClose(): (s: string)
    ensures '$' !in s && '>' !in s
  {
    "\"\n          "
  }

  function Lead(w: string): string
  {
    LeadOpen() + w + LeadClose()
  }

  /** The generated handler's body up to its first '}': the gate test and the
      scene start. */
  function GateIf(): (s: string)
    ensures '$' !in s && '>' !in s && '}' !in s
  {
    GateIfOpen() + GateIfWallet()
  }

  function GateIfOpen(): (s: string)
    ensures '$' !in s && '>' !in s && '}' !in s
  {
    "\n            if " + "("
  }

  function GateIfWallet(): (s: string)
    ensures '$' !in s && '>' !in s && '}' !in s
  {
    "this.walletAddress."
  }

  function GateTest(): (s: string)
    ensures '$' !in s && '>' !in s && '}' !in s
  {
    "toLowerCase" + "()" + ".startsWith" + "(" + "\""
  }

  /** The end of the gate test as the route writes it: the `)` after the key
      closes `startsWith(`, and nothing closes the `if (`. */
  function GateTestClose(): (s: string)
    ensures '$' !in s && '>' !in s && '}' !in s
  {
    "\".toLowerCase" + "()" + ")"
  }

  function GateBlockOpen(): (s: string)
    ensures '$' !in s && '>' !in s && '}' !in s
  {
    " {\n"
  }

  function GateStart(): (s: string)
    ensures '$' !in s && '>' !in s && '}' !in s
  {
    "              this.scene.start" + "(" + "\""
  }

  function GateStartEnd(): (s: string)
    ensures '$' !in s && '>' !in s && '}' !in s
  {
    "\"" + ")" + ";\n            "
  }

  lemma KeysLack()
    ensures '$' !in GateKey && '>' !in GateKey && '}' !in GateKey
    ensures '$' !in PlayKey && '>' !in PlayKey && '}' !in PlayKey
  {
  }

  /** The text from `if (` to where its condition ends, as written. */
  function GateCondition(): (s: string)
    ensures '$' !in s && '>' !in s && '}' !in s
  {
    KeysLack();
    GateIf() + GateTest() + GateKey + GateTestClose()
  }

  /** The condition with the `)` that closes `if (` restored. */
  function ClosedCondition(): (s: string)
    ensures '$' !in s && '>' !in s && '}' !in s
  {
    GateCondition() + ")"
  }

  /** The block the condition guards: start the play scene. */
  function GateAction(): (s: string)
    ensures '$' !in s && '>' !in s && '}' !in s
  {
    KeysLack();
    GateBlockOpen() + GateStart() + PlayKey + GateStartEnd()
  }

  function GateBody(): (s: string)
    ensures '$' !in s && '>' !in s && '}' !in s
  {
    GateCondition() + GateAction()
  }

  function ClosedGateBody(): (s: string)
    ensures '$' !in s && '>' !in s && '}' !in s
  {
    ClosedCondition() + GateAction()
  }

  /** What follows that '}': the else branch and the close of the handler. */
  function GateElse(): (s: string)
    ensures '$' !in s && '>' !in s
  {
    " else {\n              "
  }

  function GateLog(): (s: string)
    ensures '$' !in s && '>' !in s
  {
    "console.log" + "(" + "'not connected'" + ")" + ";\n"
  }

  function GateRest(): (s: string)
    ensures '$' !in s && '>' !in s
  {
    GateElse() + GateLog()
  }

  /** The last characters of the replacement; no 't' among them. */
  function GateTail(): (s: string)
    ensures '$' !in s && '>' !in s && 't' !in s
  {
    "            }\n          }" + ")" + ";\n          "
  }

  /** The replacement text for wallet text w, as the route writes it: the
      declaration, then the opening literal of the pattern, then the gate. */
  function Replacement(w: string): string
  {
    Lead(w) + Prefix + GateBody() + "}" + GateRest() + GateTail()
  }

  /** The replacement with the `)` of `if (` restored. */
  function ClosedReplacement(w: string): string
  {
    Lead(w) + Prefix + ClosedGateBody() + "}" + GateRest() + GateTail()
  }

  /** How many more `(` than `)` a text has. */
  function Depth(s: string): int
  {
    if |s| == 0 then 0
    else Depth(s[..|s| - 1]) + (if s[|s| - 1] == '(' then 1 else if s[|s| - 1] == ')' then -1 else 0)
  }

  lemma {:induction false} DepthAppend(a: string, b: string)
    ensures Depth(a + b) == Depth(a) + Depth(b)
    decreases |b|
  {
    if |b| > 0 {
      assert (a + b)[..|a + b| - 1] == a + b[..|b| - 1];
      DepthAppend(a, b[..|b| - 1]);
    } else {
      assert a + b == a;
    }
  }

  lemma SplitDepth(a: string, b: string, c: string)
    ensures Depth(a + b + c) == Depth(a) + Depth(b) + Depth(c)
  {
    DepthAppend(a, b);
    DepthAppend(a + b, c);
  }

  /** A text without parentheses has depth zero. */
  lemma {:induction false} DepthFree(s: string)
    requires '(' !in s && ')' !in s
    ensures Depth(s) == 0
  {
    if |s| > 0 {
      assert '(' !in s[..|s| - 1] && ')' !in s[..|s| - 1];
      DepthFree(s[..|s| - 1]);
    }
  }

  lemma ParenDepth()
    ensures Depth("(") == 1 && Depth(")") == -1 && Depth("()") == 0
  {
    assert "("[..0] == [] && ")"[..0] == [];
    assert "()"[..1] == "(";
  }

  lemma IfDepth()
    ensures Depth(GateIf()) == 1
  {
    ParenDepth();
    DepthFree("\n            if ");
    DepthAppend("\n            if ", "(");
    DepthFree(GateIfWallet());
    DepthAppend(GateIfOpen(), GateIfWallet());
  }

  lemma TestDepth()
    ensures Depth(GateTest()) == 1
  {
    ParenDepth();
    DepthFree("toLowerCase");
    DepthFree(".startsWith");
    DepthFree("\"");
    SplitDepth("toLowerCase", "()", ".startsWith");
    SplitDepth("toLowerCase" + "()" + ".startsWith", "(", "\"");
  }

  lemma TestCloseDepth()
    ensures Depth(GateTestClose()) == -1
  {
    ParenDepth();
    DepthFree("\".toLowerCase");
    SplitDepth("\".toLowerCase", "()", ")");
  }

  lemma StartDepth()
    ensures Depth(GateStart()) == 1
  {
    ParenDepth();
    DepthFree("              this.scene.start");
    DepthFree("\"");
    SplitDepth("              this.scene.start", "(", "\"");
  }

  lemma StartEndDepth()
    ensures Depth(GateStartEnd()) == -1
  {
    ParenDepth();
    DepthFree("\"");
    DepthFree(";\n            ");
    SplitDepth("\"", ")", ";\n            ");
  }

  lemma LogDepth()
    ensures Depth(GateRest()) == 0
  {
    ParenDepth();
    DepthFree("console.log");
    DepthFree("'not connected'");
    DepthFree(";\n");
    SplitDepth("console.log", "(", "'not connected'");
    SplitDepth("console.log" + "(" + "'not connected'", ")", ";\n");
    DepthFree(GateElse());
    DepthAppend(GateElse(), GateLog());
  }

  lemma TailDepth()
    ensures Depth(GateTail()) == -1
  {
    ParenDepth();
    DepthFree("            }\n          }");
    DepthFree(";\n          ");
    SplitDepth("            }\n          }", ")", ";\n          ");
  }

  /** A text with one parenthesis, an opening one, has depth one. */
  lemma OneOpenDepth(s: string, k: nat)
    requires k < |s| && s[k] == '('
    requires '(' !in s[..k] && ')' !in s[..k] && '(' !in s[k + 1..] && ')' !in s[k + 1..]
    ensures Depth(s) == 1
  {
    DepthFree(s[..k]);
    DepthFree(s[k + 1..]);
    assert s[..k + 1][..k] == s[..k];
    DepthAppend(s[..k + 1], s[k + 1..]);
    assert s == s[..k + 1] + s[k + 1..];
  }

  lemma OnDepth()
    ensures Depth(".on(\"pointerdown\", ") == 1
  {
    OneOpenDepth(".on(\"pointerdown\", ", 3);
  }

  lemma OpeningDepth()
    ensures Depth(Opening) == 1
  {
    ParenDepth();
    var a, b := "t" + "his.playButton", ".on(\"pointerdown\", ";
    DepthFree(a);
    OnDepth();
    DepthFree(" =");
    SplitDepth(a, b, "() =");
    DepthAppend("()", " =");
    assert "() =" == "()" + " =";
  }

  lemma PrefixDepth()
    ensures Depth(Prefix) == 1
  {
    OpeningDepth();
    DepthFree(">");
    DepthFree(" {");
    SplitDepth(Opening, ">", " {");
  }

  lemma ConditionDepth()
    ensures Depth(GateCondition()) == 1
  {
    IfDepth();
    TestDepth();
    TestCloseDepth();
    DepthFree(GateKey);
    SplitDepth(GateIf(), GateTest(), GateKey);
    DepthAppend(GateIf() + GateTest() + GateKey, GateTestClose());
  }

  /** The block leaves the depth where it was. */
  lemma ActionDepth()
    ensures Depth(GateAction()) == 0
  {
    StartDepth();
    StartEndDepth();
    DepthFree(GateBlockOpen());
    DepthFree(PlayKey);
    SplitDepth(GateBlockOpen(), GateStart(), PlayKey);
    DepthAppend(GateBlockOpen() + GateStart() + PlayKey, GateStartEnd());
  }

  /** After the gate body, only the `)` of the handler's closing `});` counts. */
  lemma CloseDepth()
    ensures Depth("}" + GateRest() + GateTail()) == -1
  {
    LogDepth();
    TailDepth();
    DepthFree("}");
    SplitDepth("}", GateRest(), GateTail());
  }

  /** The declaration and the opening literal: one `(` beyond the wallet's. */
  lemma LeadDepth(w: string)
    ensures Depth(Lead(w) + Prefix) == Depth(w) + 1
  {
    PrefixDepth();
    DepthFree(LeadOpen());
    DepthFree(LeadClose());
    SplitDepth(LeadOpen(), w, LeadClose());
    DepthAppend(Lead(w), Prefix);
  }

  /** A replacement built around a gate body has the depth of the wallet text
      and the body. */
  lemma HandlerDepth(w: string, body: string)
    ensures Depth(Lead(w) + Prefix + body + "}" + GateRest() + GateTail()) == Depth(w) + Depth(body)
  {
    LeadDepth(w);
    CloseDepth();
    var close := "}" + GateRest() + GateTail();
    SplitDepth(Lead(w) + Prefix, body, close);
    assert Lead(w) + Prefix + body + "}" + GateRest() + GateTail() == Lead(w) + Prefix + body + close;
  }

  /** The route's `if (` is never closed: the condition ends one `(` deep,
      so the block's `{` falls inside the parentheses, and the replacement
      opens one more `(` than it closes beyond those of the wallet text,
      which leaves the generated scene file unparsable. */
  lemma ReplacementUnclosed(w: string)
    ensures Depth(GateCondition()) == 1
    ensures Depth(Replacement(w)) == Depth(w) + 1
  {
    ConditionDepth();
    ActionDepth();
    DepthAppend(GateCondition(), GateAction());
    HandlerDepth(w, GateBody());
  }

  /** With the `)` restored the condition closes every `(` it opens, and the
      replacement opens exactly as many as it closes, beyond those of the
      wallet text. */
  lemma ClosedReplacementBalanced(w: string)
    ensures Depth(ClosedCondition()) == 0
    ensures Depth(ClosedReplacement(w)) == Depth(w)
  {
    ConditionDepth();
    ParenDepth();
    DepthAppend(GateCondition(), ")");
    ActionDepth();
    DepthAppend(ClosedCondition(), GateAction());
    HandlerDepth(w, ClosedGateBody());
  }

  /** Inserting x between two parts of the second of several pieces. */
  lemma InsertInPiece(l: string, c: string, a: string, t: string, x: string)
    ensures |l + c| <= |l + (c + a) + t|
    ensures l + (c + x + a) + t == (l + (c + a) + t)[..|l + c|] + x + (l + (c + a) + t)[|l + c|..]
  {
    var s := l + (c + a) + t;
    assert s == (l + c) + (a + t);
    assert s[..|l + c|] == l + c;
    assert s[|l + c|..] == a + t;
  }

  /** The restored text differs from the route's in one `)`, right after
      the condition. */
  lemma ClosedReplacementInserts(w: string)
    ensures var k := |Lead(w) + Prefix + GateCondition()|;
      && k <= |Replacement(w)|
      && ClosedReplacement(w) == Replacement(w)[..k] + ")" + Replacement(w)[k..]
  {
    var t := "}" + GateRest() + GateTail();
    InsertInPiece(Lead(w) + Prefix, GateCondition(), GateAction(), t, ")");
    assert Replacement(w) == Lead(w) + Prefix + (GateCondition() + GateAction()) + t;
    assert ClosedReplacement(w) == Lead(w) + Prefix + (GateCondition() + ")" + GateAction()) + t;
  }

  /** The restored replacement is sealed the way the route's is. */
  lemma ClosedReplacementSealed(w: string)
    requires '>' !in w
    ensures Sealed(Prefix, ClosedReplacement(w))
    ensures SafeLead(Prefix, ClosedReplacement(w))
  {
    PrefixFacts();
    SealedHandler(Lead(w), ClosedGateBody(), GateRest(), GateTail());
    assert ClosedReplacement(w)[0] == '\n';
  }

  /** A wallet without '$' gives a replacement without '$', so JavaScript takes
      it literally. */
  lemma ReplacementLiteral(w: string)
    requires '$' !in w
    ensures '$' !in Replacement(w)
  {
    OpeningLacks();
  }

  /** The line appended to the rewritten entry file. */
  const HiLine: string := "\nconsole.log(\"hi\");"

  lemma HiLineFacts()
    ensures |HiLine| > 0 && HiLine[0] == '\n' && '}' !in HiLine
  {
  }

  /** The entry file's new contents for a replacement rep taken literally:
      every handler match replaced, then the log line appended. */
  function Entry(text: string, rep: string): (r: string)
    ensures |r| >= |HiLine| && r[|r| - |HiLine|..] == HiLine
  {
    ReplaceAll(Prefix, text, rep) + HiLine
  }

  /** The entry file's new contents for the request's wallet. The model
      covers wallets without '$', whose replacement JavaScript inserts as
      it is (ReplacementLiteral). */
  function Rewrite(text: string, wallet: JsValue): string
    requires '$' !in Interpolate(wallet)
  {
    Entry(text, Replacement(Interpolate(wallet)))
  }

  /** A text with no match only gains the log line. */
  lemma EntryUnmatched(text: string, rep: string)
    requires NoMatch(Prefix, text)
    ensures Entry(text, rep) == text + HiLine
  {
    ReplaceAllNoMatch(Prefix, text, rep);
  }

  lemma RewriteUnmatched(text: string, wallet: JsValue)
    requires '$' !in Interpolate(wallet)
    requires NoMatch(Prefix, text)
    ensures Rewrite(text, wallet) == text + HiLine
  {
    EntryUnmatched(text, Replacement(Interpolate(wallet)));
  }

  /** The route when every file operation succeeds. */
  function PublishMenu(src: Source, dest: Dest, body: Body): Dest
    requires WellFormed(src)
    requires '$' !in Interpolate(body.wallet)
  {
    Tree.Publish(src, dest, t => Rewrite(t, body.wallet))
  }

  /** The published tree: the entry file rewritten, every other scene file and
      every regular top-level file other than `scenes` copied unchanged under
      its own name, and every other destination file left alone. */
  lemma PublishedMenuTree(src: Source, dest: Dest, body: Body)
    requires WellFormed(src)
    requires '$' !in Interpolate(body.wallet)
    ensures var r := PublishMenu(src, dest, body);
      && (forall f :: f in r.scenes <==> f in dest.scenes || f in src.scenes)
      && (EntryName in src.scenes ==> r.scenes[EntryName] == Rewrite(src.scenes[EntryName], body.wallet))
      && (forall f :: f in src.scenes && f != EntryName ==> r.scenes[f] == src.scenes[f])
      && (forall f :: f in dest.scenes && f !in src.scenes ==> r.scenes[f] == dest.scenes[f])
      && (forall f :: f in r.root <==> f in dest.root || Copied(f, src.top))
      && (forall f :: Copied(f, src.top) ==> r.root[f] == src.top[f].text)
      && (forall f :: f in dest.root && !Copied(f, src.top) ==> r.root[f] == dest.root[f])
      && ScenesName !in r.root - dest.root.Keys
  {
    Tree.PublishSpec(src, dest, t => Rewrite(t, body.wallet));
  }

  /** The title and the buttons of the request make no difference. */
  lemma {:induction false} TitleAndButtonsUnused(src: Source, dest: Dest, b1: Body, b2: Body)
    requires WellFormed(src)
    requires b1.wallet == b2.wallet && '$' !in Interpolate(b1.wallet)
    ensures PublishMenu(src, dest, b1) == PublishMenu(src, dest, b2)
  {
    var r1, r2 := PublishMenu(src, dest, b1), PublishMenu(src, dest, b2);
    PublishedMenuTree(src, dest, b1);
    PublishedMenuTree(src, dest, b2);
    MapsAgree(r1.scenes, r2.scenes);
    MapsAgree(r1.root, r2.root);
  }

  /** A wallet without '>' gives a replacement no match can start in, and
      whose first character cannot join the text before it into a match. */
  lemma ReplacementSealed(w: string)
    requires '>' !in w
    ensures Sealed(Prefix, Replacement(w))
    ensures SafeLead(Prefix, Replacement(w))
  {
    PrefixFacts();
    SealedHandler(Lead(w), GateBody(), GateRest(), GateTail());
    assert Replacement(w)[0] == '\n';
  }

  /** A sealed replacement whose first character is safe leaves no match
      in the entry file. */
  lemma EntryLeavesNoMatch(text: string, rep: string)
    requires Sealed(Prefix, rep) && SafeLead(Prefix, rep)
    ensures NoMatch(Prefix, Entry(text, rep))
  {
    PrefixFacts();
    NoMatchAfterReplace(Prefix, text, rep);
    ClosingFacts();
    HiLineFacts();
    AppendKeepsNoMatch(Prefix, ReplaceAll(Prefix, text, rep), HiLine);
  }

  /** With a wallet free of '>', no match is left in the rewritten entry file. */
  lemma RewriteLeavesNoMatch(text: string, wallet: JsValue)
    requires '$' !in Interpolate(wallet) && '>' !in Interpolate(wallet)
    ensures NoMatch(Prefix, Rewrite(text, wallet))
  {
    ReplacementSealed(Interpolate(wallet));
    EntryLeavesNoMatch(text, Replacement(Interpolate(wallet)));
  }

  /** With exactly one match, the rewrite swaps that one handler for the
      replacement and keeps the text around it. */
  lemma EntrySingle(text: string, rep: string)
    requires MatchCount(Prefix, text) == 1
    ensures FindFrom(Prefix, text, 0).Some?
    ensures Entry(text, rep)
         == text[..FindFrom(Prefix, text, 0).value.at] + rep
            + text[FindFrom(Prefix, text, 0).value.at + FindFrom(Prefix, text, 0).value.len..] + HiLine
  {
    SingleMatchRewrite(Prefix, text, rep);
  }

  lemma RewriteSingle(text: string, wallet: JsValue)
    requires '$' !in Interpolate(wallet)
    requires MatchCount(Prefix, text) == 1
    ensures FindFrom(Prefix, text, 0).Some?
    ensures Rewrite(text, wallet)
         == text[..FindFrom(Prefix, text, 0).value.at] + Replacement(Interpolate(wallet))
            + text[FindFrom(Prefix, text, 0).value.at + FindFrom(Prefix, text, 0).value.len..] + HiLine
  {
    EntrySingle(text, Replacement(Interpolate(wallet)));
  }

  /** What a click on the generated play button does, in the handler with
      the `)` of `if (` restored (ClosedReplacement); the handler as the
      route writes it does not parse (ReplacementUnclosed), so no click of
      it runs at all. `toLowerCase` of a missing wallet address throws;
      otherwise the play scene starts exactly when the lower-cased address
      begins with the lower-cased key. */
  function Gate(walletAddress: JsValue): (e: Effect)
    ensures walletAddress.Text? <==> !e.Throw?
    ensures e.Start? ==> e.key == PlayKey
  {
    match walletAddress
    case Text(a) =>
      if StartsWith(Lower(a), Lower(GateKey)) then Start(PlayKey) else Log("not connected")
    case _ => Throw("TypeError")
  }

  /** Without a connected wallet the restored gate throws instead of
      reaching its `else` branch, the one that says 'not connected'. */
  lemma GateThrowsWithoutWallet()
    ensures Gate(Null) == Throw("TypeError") && Gate(Undefined) == Throw("TypeError")
  {
  }

  /** The gate with the test for a missing address that its `else` branch
      evidently expects, written as the published scene writes its own
      (`this.walletAddress && ...`): it never throws, and it agrees with the
      generated gate wherever that one does not throw. */
  function GuardedGate(walletAddress: JsValue): (e: Effect)
    ensures !e.Throw?
    ensures e.Start? <==> walletAddress.Text? && Gate(walletAddress).Start?
    ensures !walletAddress.Text? ==> e == Log("not connected")
    ensures walletAddress.Text? ==> e == Gate(walletAddress)
  {
    if walletAddress.Text? then Gate(walletAddress) else Log("not connected")
  }

  /** The gate compares the address with the key ignoring ASCII case, one
      character at a time. */
  lemma GateCaseInsensitive(a: string)
    ensures Gate(Text(a)).Start?
        <==> |a| >= |GateKey| && forall i :: 0 <= i < |GateKey| ==> LowerChar(a[i]) == GateKey[i]
  {
    assert Lower(GateKey) == GateKey;
    if |a| >= |GateKey| {
      assert Lower(a)[..|GateKey|] == Lower(a[..|GateKey|]);
    }
  }

  /** The gate does not care about the case of the address. */
  lemma GateIgnoresCase(a: string)
    ensures Gate(Text(a)) == Gate(Text(Lower(a)))
  {
    LowerIsLower(a);
  }
}
