/** The lines of the two main-menu scene files, `MainmenuCopy.ts` and the
    published `Mainmenu.ts`, outside their `=>` handlers, grouped the way the
    two files share them. Each group is a run of whole lines without '>'. */
module SceneLines {
  import opened Text

  /** A run of whole lines without '>'. */
  predicate ArrowFree(s: string)
  {
    |s| > 0 && s[|s| - 1] == '\n' && '>' !in s
  }

  /** Runs of whole lines without '>' in a row make one. */
  lemma ArrowFree2(a: string, b: string)
    requires ArrowFree(a) && ArrowFree(b)
    ensures ArrowFree(a + b)
  {
  }

  lemma ArrowFree3(a: string, b: string, c: string)
    requires ArrowFree(a) && ArrowFree(b) && ArrowFree(c)
    ensures ArrowFree(a + b + c)
  {
    ArrowFree2(a, b);
    ArrowFree2(a + b, c);
  }

  lemma ArrowFree4(a: string, b: string, c: string, d: string)
    requires ArrowFree(a) && ArrowFree(b) && ArrowFree(c) && ArrowFree(d)
    ensures ArrowFree(a + b + c + d)
  {
    ArrowFree3(a, b, c);
    ArrowFree2(a + b + c, d);
  }

  /** One line of a scene file: n spaces, code without '>', a line break. */
  function SceneLine(n: nat, code: string): (s: string)
    requires '>' !in code
    ensures ArrowFree(s)
  {
    assert '>' !in Spaces(n);
    Spaces(n) + code + "\n"
  }

  /** The imports and the blank line after them (lines 1-3 of both files). */
  function Imports(): (s: string)
    ensures ArrowFree(s)
  {
    ArrowFree2(Imports1(), Imports2());
    Imports1() + Imports2()
  }

  function Imports1(): (s: string)
    ensures ArrowFree(s)
  {
    SceneLine(0, "import " + "Phaser from " + "\"phaser\";")
  }

  function Imports2(): (s: string)
    ensures ArrowFree(s)
  {
    SceneLine(0, "import { " + "EventBus } " + "from \"../" + "EventBus\"; " + "// Ensure " + "the correct " + "path")
    + SceneLine(0, "")
  }

  /** The class and its two button fields. */
  function Fields(): (s: string)
    ensures ArrowFree(s)
  {
    ArrowFree3(Fields1(), Fields2(), Fields3());
    Fields1() + Fields2() + Fields3()
  }

  function Fields1(): (s: string)
    ensures ArrowFree(s)
  {
    SceneLine(0, "class " + "MenuScene " + "extends " + "Phaser." + "Scene {")
  }

  function Fields2(): (s: string)
    ensures ArrowFree(s)
  {
    SceneLine(4, "private " + "playButton: " + "Phaser." + "GameObjects." + "Text;")
  }

  function Fields3(): (s: string)
    ensures ArrowFree(s)
  {
    SceneLine(4, "private " + "marketplace" + ": Phaser." + "GameObjects." + "Text;")
  }

  /** The published file's wallet field. */
  function WalletField(): (s: string)
    ensures ArrowFree(s)
  {
    SceneLine(4, "private " + "walletAddress" + ": string | " + "null = null;")
  }

  /** The constructor, with the blank lines around it. */
  function Constructor(): (s: string)
    ensures ArrowFree(s)
  {
    ArrowFree2(Constructor1(), BlankLine());
    Constructor1() + BlankLine()
  }

  function Constructor1(): (s: string)
    ensures ArrowFree(s)
  {
    SceneLine(0, "")
    + SceneLine(4, "constructor(" + ") {")
    + SceneLine(8, "super(\"" + "MenuScene\");")
    + SceneLine(4, "}")
  }

  /** The start of `preload`. */
  function Preload(): (s: string)
    ensures ArrowFree(s)
  {
    SceneLine(4, "preload() {")
    + SceneLine(8, "// Load the " + "background " + "image")
  }

  function LoadSky(): (s: string)
    ensures ArrowFree(s)
  {
    SceneLine(8, "this.load." + "image('sky'" + ", '/assets/" + "sky.png'); " + "// Ensure " + "the correct " + "path to " + "your asset")
  }

  /** The close of a method and the blank line after it. */
  function MethodEnd(): (s: string)
    ensures ArrowFree(s)
  {
    SceneLine(4, "}")
    + SceneLine(0, "")
  }

  /** The copy file's `create`, and the published file's, which is `async`. */
  function CreateOpen(): (s: string)
    ensures ArrowFree(s)
  {
    SceneLine(4, "create() {")
  }

  function AsyncCreateOpen(): (s: string)
    ensures ArrowFree(s)
  {
    SceneLine(4, "async create" + "() {")
  }

  /** The background image. */
  function Background(): (s: string)
    ensures ArrowFree(s)
  {
    ArrowFree2(Background1(), Background2());
    Background1() + Background2()
  }

  function Background1(): (s: string)
    ensures ArrowFree(s)
  {
    SceneLine(8, "// Add a " + "background")
  }

  function Background2(): (s: string)
    ensures ArrowFree(s)
  {
    SceneLine(8, "this.add." + "image(400, " + "300, \"sky\")." + "setOrigin(0." + "5); // " + "Adjust " + "coordinates " + "for center " + "positioning")
    + SceneLine(0, "")
  }

  /** The title text. */
  function TitleLines(): (s: string)
    ensures ArrowFree(s)
  {
    ArrowFree3(Title1(), Title2(), Title3());
    Title1() + Title2() + Title3()
  }

  function Title1(): (s: string)
    ensures ArrowFree(s)
  {
    SceneLine(8, "// Add a " + "title")
    + SceneLine(8, "this.add")
  }

  function Title2(): (s: string)
    ensures ArrowFree(s)
  {
    SceneLine(12, ".text(400, " + "150, \"My " + "Phaser Game\"" + ", {")
    + SceneLine(16, "fontSize: \"" + "48px\",")
  }

  function Title3(): (s: string)
    ensures ArrowFree(s)
  {
    SceneLine(16, "fill: \"#" + "ffffff\",")
    + SceneLine(12, "})")
    + SceneLine(12, ".setOrigin(0" + ".5);")
  }

  /** The play button, styled as the marketplace button is. */
  function PlayButtonLines(): (s: string)
    ensures ArrowFree(s)
  {
    ArrowFree2(PlayButton1(), PlayButton2());
    PlayButton1() + PlayButton2()
  }

  function PlayButton1(): (s: string)
    ensures ArrowFree(s)
  {
    SceneLine(0, "")
    + SceneLine(8, "// Add a " + "Play button")
    + SceneLine(8, "this." + "playButton " + "= this.add")
  }

  function PlayButton2(): (s: string)
    ensures ArrowFree(s)
  {
    SceneLine(12, ".text(400, " + "400, \"Play\"" + ", {")
  }

  /** The style both buttons share. */
  function ButtonStyle(): (s: string)
    ensures ArrowFree(s)
  {
    ArrowFree2(ButtonStyle1(), ButtonStyle2());
    ButtonStyle1() + ButtonStyle2()
  }

  function ButtonStyle1(): (s: string)
    ensures ArrowFree(s)
  {
    SceneLine(16, "fontSize: \"" + "32px\",")
    + SceneLine(16, "fill: \"#" + "ffffff\",")
    + SceneLine(12, "})")
  }

  function ButtonStyle2(): (s: string)
    ensures ArrowFree(s)
  {
    SceneLine(12, ".setOrigin(0" + ".5)")
    + SceneLine(12, "." + "setInteractive" + "();")
  }

  /** The marketplace button. */
  function MarketButton(): (s: string)
    ensures ArrowFree(s)
  {
    ArrowFree2(MarketButton1(), MarketButton2());
    MarketButton1() + MarketButton2()
  }

  function MarketButton1(): (s: string)
    ensures ArrowFree(s)
  {
    SceneLine(0, "")
    + SceneLine(8, "// Add a " + "Marketplace " + "button")
  }

  function MarketButton2(): (s: string)
    ensures ArrowFree(s)
  {
    SceneLine(8, "this." + "marketplace " + "= this.add")
    + SceneLine(12, ".text(400, " + "500, \"" + "Marketplace\"" + ", {")
  }

  /** A blank line. */
  function BlankLine(): (s: string)
    ensures ArrowFree(s)
  {
    SceneLine(0, "")
  }

  /** The published file's wallet request before the handlers. */
  function ConnectCall(): (s: string)
    ensures ArrowFree(s)
  {
    SceneLine(8, "// Request " + "wallet " + "connection " + "and get " + "wallet " + "address")
    + SceneLine(8, "await this." + "connectWallet" + "();")
    + SceneLine(0, "")
  }

  /** The comment above the play handler. */
  function PlayComment(): (s: string)
    ensures ArrowFree(s)
  {
    SceneLine(8, "// Handle " + "Play button " + "click")
  }

  /** The published file's blank line and indentation-only line before its play handler. */
  function PlayGap(): (s: string)
    ensures ArrowFree(s)
  {
    SceneLine(0, "")
    + SceneLine(8, "")
  }

  /** The lines between the play handler's line and the marketplace handler. */
  function MarketComment(): (s: string)
    ensures ArrowFree(s)
  {
    SceneLine(0, "")
    + SceneLine(8, "// Handle " + "Marketplace " + "button click")
  }

  /** The event subscription that ends `create`. */
  function CreateClose(): (s: string)
    ensures ArrowFree(s)
  {
    ArrowFree2(CreateClose1(), CreateClose2());
    CreateClose1() + CreateClose2()
  }

  function CreateClose1(): (s: string)
    ensures ArrowFree(s)
  {
    SceneLine(0, "")
    + SceneLine(8, "// Listen " + "for the " + "save event")
  }

  function CreateClose2(): (s: string)
    ensures ArrowFree(s)
  {
    SceneLine(8, "EventBus.on(" + "'save-main-" + "menu', this." + "saveMainMenu" + ", this);")
    + SceneLine(4, "}")
    + SceneLine(0, "")
  }

  /** The published file's `connectWallet`. */
  function ConnectOpen(): (s: string)
    ensures ArrowFree(s)
  {
    ArrowFree3(ConnectOpen1(), ConnectOpen2(), ConnectOpen3());
    ConnectOpen1() + ConnectOpen2() + ConnectOpen3()
  }

  function ConnectOpen1(): (s: string)
    ensures ArrowFree(s)
  {
    SceneLine(4, "// MetaMask " + "wallet " + "connection")
    + SceneLine(4, "private " + "async " + "connectWallet" + "() {")
  }

  function ConnectOpen2(): (s: string)
    ensures ArrowFree(s)
  {
    SceneLine(8, "if (typeof " + "window." + "ethereum !=" + "= 'undefined" + "') {")
    + SceneLine(12, "try {")
  }

  function ConnectOpen3(): (s: string)
    ensures ArrowFree(s)
  {
    SceneLine(16, "// Request " + "wallet " + "connection")
  }

  function AccountsRequest(): (s: string)
    ensures ArrowFree(s)
  {
    SceneLine(16, "const " + "accounts = " + "await window" + ".ethereum." + "request({ " + "method: '" + "eth_requestAccounts" + "' });")
  }

  function AccountsKept(): (s: string)
    ensures ArrowFree(s)
  {
    ArrowFree2(AccountsKept1(), AccountsKept2());
    AccountsKept1() + AccountsKept2()
  }

  function AccountsKept1(): (s: string)
    ensures ArrowFree(s)
  {
    SceneLine(16, "this." + "walletAddress " + "= accounts[0" + "]; // Get " + "the first " + "account")
  }

  function AccountsKept2(): (s: string)
    ensures ArrowFree(s)
  {
    SceneLine(16, "console.log(" + "'Wallet " + "connected:'" + ", this." + "walletAddress" + ");")
  }

  function ConnectClose(): (s: string)
    ensures ArrowFree(s)
  {
    ArrowFree3(ConnectClose1(), ConnectClose2(), MethodEnd());
    ConnectClose1() + ConnectClose2() + MethodEnd()
  }

  function ConnectClose1(): (s: string)
    ensures ArrowFree(s)
  {
    SceneLine(12, "} catch (" + "error) {")
    + SceneLine(16, "console." + "error('" + "Error " + "connecting " + "to MetaMask:" + "', error);")
    + SceneLine(12, "}")
  }

  function ConnectClose2(): (s: string)
    ensures ArrowFree(s)
  {
    SceneLine(8, "} else {")
    + SceneLine(12, "console." + "error('" + "MetaMask is " + "not " + "installed');")
    + SceneLine(8, "}")
  }

  /** The start of `saveMainMenu`, up to the title of the menu state. */
  function SaveOpen(): (s: string)
    ensures ArrowFree(s)
  {
    ArrowFree3(SaveOpen1(), SaveOpen2(), SaveOpen3());
    SaveOpen1() + SaveOpen2() + SaveOpen3()
  }

  function SaveOpen1(): (s: string)
    ensures ArrowFree(s)
  {
    SceneLine(4, "// Save " + "main menu " + "state (or " + "perform " + "other save " + "logic)")
  }

  function SaveOpen2(): (s: string)
    ensures ArrowFree(s)
  {
    SceneLine(4, "private " + "async " + "saveMainMenu" + "() {")
    + SceneLine(8, "const " + "menuState = " + "{")
  }

  function SaveOpen3(): (s: string)
    ensures ArrowFree(s)
  {
    SceneLine(12, "title: \"My " + "Phaser Game\"" + ",")
  }

  /** The copy file's button labels, the last field of its menu state. */
  function CopyButtons(): (s: string)
    ensures ArrowFree(s)
  {
    SceneLine(12, "buttons: [\"" + "Play\", \"" + "Marketplace\"" + "]")
  }

  /** The published file's button labels and wallet. */
  function PublishedFields(): (s: string)
    ensures ArrowFree(s)
  {
    SceneLine(12, "buttons: [\"" + "Play\", \"" + "Marketplace\"" + "],")
    + SceneLine(12, "wallet: this" + "." + "walletAddress")
  }

  /** The request of `saveMainMenu`. */
  function SaveRequestOpen(): (s: string)
    ensures ArrowFree(s)
  {
    ArrowFree2(SaveRequestOpen1(), SaveRequestOpen2());
    SaveRequestOpen1() + SaveRequestOpen2()
  }

  function SaveRequestOpen1(): (s: string)
    ensures ArrowFree(s)
  {
    SceneLine(8, "};")
    + SceneLine(0, "")
    + SceneLine(8, "try {")
  }

  function SaveRequestOpen2(): (s: string)
    ensures ArrowFree(s)
  {
    SceneLine(12, "const " + "response = " + "await fetch(" + "'/api/save-" + "main-menu', " + "{")
  }

  function SaveRequestBody(): (s: string)
    ensures ArrowFree(s)
  {
    ArrowFree3(SaveRequestBody1(), SaveRequestBody2(), SaveRequestBody3());
    SaveRequestBody1() + SaveRequestBody2() + SaveRequestBody3()
  }

  function SaveRequestBody1(): (s: string)
    ensures ArrowFree(s)
  {
    SceneLine(16, "method: '" + "POST',")
    + SceneLine(16, "headers: {")
  }

  function SaveRequestBody2(): (s: string)
    ensures ArrowFree(s)
  {
    SceneLine(20, "'Content-" + "Type': '" + "application/" + "json',")
    + SceneLine(16, "},")
  }

  function SaveRequestBody3(): (s: string)
    ensures ArrowFree(s)
  {
    SceneLine(16, "body: JSON." + "stringify(" + "menuState),")
    + SceneLine(12, "});")
  }

  /** The rest of `saveMainMenu`, the end of the class and the export. */
  function SaveResult(): (s: string)
    ensures ArrowFree(s)
  {
    ArrowFree2(SaveResult1(), SaveResult2());
    SaveResult1() + SaveResult2()
  }

  function SaveResult1(): (s: string)
    ensures ArrowFree(s)
  {
    SceneLine(0, "")
    + SceneLine(12, "const " + "result = " + "await " + "response." + "json();")
  }

  function SaveResult2(): (s: string)
    ensures ArrowFree(s)
  {
    SceneLine(12, "console.log(" + "result." + "message); " + "// Display " + "success " + "message or " + "handle error")
  }

  function SaveClose(): (s: string)
    ensures ArrowFree(s)
  {
    ArrowFree3(SaveClose1(), SaveClose2(), SaveClose3());
    SaveClose1() + SaveClose2() + SaveClose3()
  }

  function SaveClose1(): (s: string)
    ensures ArrowFree(s)
  {
    SceneLine(8, "} catch (" + "error) {")
    + SceneLine(12, "console." + "error('" + "Error " + "saving main " + "menu:', " + "error);")
    + SceneLine(8, "}")
  }

  function SaveClose2(): (s: string)
    ensures ArrowFree(s)
  {
    SceneLine(4, "}")
    + SceneLine(0, "}")
    + SceneLine(0, "")
  }

  function SaveClose3(): (s: string)
    ensures ArrowFree(s)
  {
    SceneLine(0, "export " + "default " + "MenuScene;")
  }

  /** The same after the copy file's play handler, whose match ends before
      the line break that closes its line. */
  function AfterPlay(): (s: string)
    ensures ArrowFree(s)
  {
    ArrowFree2(BlankLine(), MarketComment());
    BlankLine() + MarketComment()
  }

  /** The copy file's lines up to `create`. */
  function CopyHead(): (s: string)
    ensures ArrowFree(s)
  {
    ArrowFree4(Imports(), Fields(), Constructor(), Preload());
    ArrowFree4(Imports() + Fields() + Constructor() + Preload(), LoadSky(), MethodEnd(), CreateOpen());
    Imports() + Fields() + Constructor() + Preload() + LoadSky() + MethodEnd() + CreateOpen()
  }

  /** The published file's lines up to `create`: the copy file's, with the
      wallet field, and `create` made `async`. */
  function PublishedHead(): (s: string)
    ensures ArrowFree(s)
  {
    ArrowFree4(Imports(), Fields(), WalletField(), Constructor());
    ArrowFree4(Imports() + Fields() + WalletField() + Constructor(), Preload(), LoadSky(), MethodEnd());
    ArrowFree2(Imports() + Fields() + WalletField() + Constructor() + Preload() + LoadSky() + MethodEnd(),
      AsyncCreateOpen());
    Imports() + Fields() + WalletField() + Constructor() + Preload() + LoadSky() + MethodEnd()
      + AsyncCreateOpen()
  }

  /** The game objects both files' `create` adds, and the blank line after. */
  function Widgets(): (s: string)
    ensures ArrowFree(s)
  {
    ArrowFree4(Background(), TitleLines(), PlayButtonLines(), ButtonStyle());
    ArrowFree4(Background() + TitleLines() + PlayButtonLines() + ButtonStyle(), MarketButton(), ButtonStyle(), BlankLine());
    Background() + TitleLines() + PlayButtonLines() + ButtonStyle() + MarketButton() + ButtonStyle() + BlankLine()
  }

  /** The published file's `connectWallet`. */
  function ConnectWalletLines(): (s: string)
    ensures ArrowFree(s)
  {
    ArrowFree4(ConnectOpen(), AccountsRequest(), AccountsKept(), ConnectClose());
    ConnectOpen() + AccountsRequest() + AccountsKept() + ConnectClose()
  }

  /** `saveMainMenu` after its menu state, the end of the class, the export. */
  function SaveEnd(): (s: string)
    ensures ArrowFree(s)
  {
    ArrowFree4(SaveRequestOpen(), SaveRequestBody(), SaveResult(), SaveClose());
    SaveRequestOpen() + SaveRequestBody() + SaveResult() + SaveClose()
  }

  /** The copy file after the marketplace handler. */
  function CopyTail(): (s: string)
    ensures ArrowFree(s)
  {
    ArrowFree4(CreateClose(), SaveOpen(), CopyButtons(), SaveEnd());
    CreateClose() + SaveOpen() + CopyButtons() + SaveEnd()
  }

  /** The published file after the marketplace handler, up to the log line. */
  function PublishedTail(): (s: string)
    ensures ArrowFree(s)
  {
    ArrowFree4(CreateClose(), ConnectWalletLines(), SaveOpen(), PublishedFields());
    ArrowFree2(CreateClose() + ConnectWalletLines() + SaveOpen() + PublishedFields(), SaveEnd());
    CreateClose() + ConnectWalletLines() + SaveOpen() + PublishedFields() + SaveEnd()
  }
}
