/** The two menu scenes. The published scene connects a wallet when it is
    created and lets its play button through only for one address prefix;
    the scene copy's play button always starts the play scene. Both send
    the menu to the save-main-menu route when asked to save. */
module MenuScene {
  import opened Base
  import opened Text
  import opened Scenes
  import opened Tree
  import SaveMainMenu

  /** The address prefix the published scene admits, compared with case. */
  const AdmittedPrefix: string := "0x0C467c60e97221de6cD9"

  /** The scene key the published scene's play handler starts. */
  const PublishedPlayKey: string := "PlaySscene"

  const MarketplaceKey: string := "Marketplace"

  const Title: string := "My Phaser Game"

  const Buttons: seq<string> := ["Play", "Marketplace"]

  datatype Button = PlayButton | MarketplaceButton

  /** The published scene's own state: `walletAddress`, `null` until a wallet
      connects. */
  datatype Menu = Menu(walletAddress: JsValue)

  function Created(): (m: Menu)
    ensures !Truthy(m.walletAddress)
  {
    Menu(Null)
  }

  /** What `window.ethereum` offers: nothing, or the outcome of its
      `eth_requestAccounts` request, the accounts or the error it throws. */
  datatype Ethereum = NoProvider | Requested(outcome: Result<seq<string>, string>)

  /** `connectWallet`: the first account becomes the wallet address when a
      provider answers the request (`undefined` for an empty list); without a
      provider, or when the request throws, the address stays as it was. */
  function ConnectWallet(m: Menu, eth: Ethereum): (r: Menu)
    ensures eth.Requested? && eth.outcome.Ok? && |eth.outcome.value| > 0
        ==> r.walletAddress == Text(eth.outcome.value[0])
    ensures eth.Requested? && eth.outcome.Ok? && |eth.outcome.value| == 0
        ==> r.walletAddress == Undefined
    ensures !(eth.Requested? && eth.outcome.Ok?) ==> r == m
  {
    match eth
    case NoProvider => m
    case Requested(Err(_)) => m
    case Requested(Ok(accounts)) =>
      Menu(if |accounts| > 0 then Text(accounts[0]) else Undefined)
  }

  /** The published scene's buttons. Play starts `PlaySscene` exactly when
      the address is a non-empty string beginning with the admitted prefix,
      case included, and logs otherwise; Marketplace always starts the
      marketplace scene. */
  function Click(m: Menu, b: Button): (e: Effect)
    ensures b == MarketplaceButton ==> e == Start(MarketplaceKey)
    ensures b == PlayButton ==> (e.Start? <==> Truthy(m.walletAddress) && StartsWith(m.walletAddress.s, AdmittedPrefix))
    ensures b == PlayButton && e.Start? ==> e.key == PublishedPlayKey
    ensures b == PlayButton && !e.Start? ==> e == Log("Wallet not connected or invalid")
  {
    match b
    case MarketplaceButton => Start(MarketplaceKey)
    case PlayButton =>
      if Truthy(m.walletAddress) && StartsWith(m.walletAddress.s, AdmittedPrefix)
      then Start(PublishedPlayKey) else Log("Wallet not connected or invalid")
  }

  /** The key the play handler starts is not one the game registers, so
      the play scene is never reached from the published menu. */
  lemma PublishedPlayUnregistered(m: Menu)
    ensures Click(m, PlayButton).Start? ==> Click(m, PlayButton).key !in Registered
  {
  }

  /** No scene the game registers has the marketplace key: the marketplace
      is a page of the app, not a scene. */
  lemma MarketplaceUnregistered()
    ensures MarketplaceKey !in Registered
  {
  }

  /** The play handler with the key it evidently means. Every key it starts
      is registered except the marketplace's. */
  function IntendedClick(m: Menu, b: Button): (e: Effect)
    ensures e.Start? ==> e.key in Registered + {MarketplaceKey}
    ensures e.Start? && e.key !in Registered <==> b == MarketplaceButton
    ensures b == PlayButton ==> (e.Start? <==> Click(m, b).Start?)
    ensures b == PlayButton && e.Start? ==> e.key == PlayKey
    ensures b == MarketplaceButton ==> e == Click(m, b)
  {
    match b
    case MarketplaceButton => Start(MarketplaceKey)
    case PlayButton =>
      if Truthy(m.walletAddress) && StartsWith(m.walletAddress.s, AdmittedPrefix)
      then Start(PlayKey) else Log("Wallet not connected or invalid")
  }

  /** A freshly created scene, before any wallet connects, never starts a
      game from its play button. */
  lemma PlayNeedsWallet()
    ensures !Click(Created(), PlayButton).Start?
  {
  }

  /** An address the published scene admits also passes the gate the
      save-main-menu route generates, which ignores case. */
  lemma AdmittedPassesGate(m: Menu)
    requires Click(m, PlayButton).Start?
    ensures SaveMainMenu.GuardedGate(m.walletAddress).Start?
  {
    var a := m.walletAddress.s;
    var k := SaveMainMenu.GateKey;
    assert |AdmittedPrefix| == |k|;
    forall i | 0 <= i < |k| ensures LowerChar(a[i]) == k[i] {
      assert a[i] == AdmittedPrefix[i];
    }
    SaveMainMenu.GateCaseInsensitive(a);
  }

  /** The converse fails: the generated gate also lets through the admitted
      prefix in lower case, which the published scene refuses. */
  lemma GateWiderThanScene()
    ensures SaveMainMenu.GuardedGate(Text(SaveMainMenu.GateKey)).Start?
    ensures !Click(Menu(Text(SaveMainMenu.GateKey)), PlayButton).Start?
  {
    SaveMainMenu.GateCaseInsensitive(SaveMainMenu.GateKey);
    assert SaveMainMenu.GateKey[3] != AdmittedPrefix[3];
  }

  /** `saveMainMenu`: the title, the two button labels and the wallet
      address. `JSON.stringify` leaves out an `undefined` address, which the
      route then reads back as `undefined`; `null` and strings arrive as
      they are. */
  function SaveRequest(m: Menu): (b: Body)
    ensures b.title == Text(Title) && b.buttons == Some(Buttons)
    ensures b.wallet == m.walletAddress
  {
    Body(Text(Title), Some(Buttons), m.walletAddress)
  }

  /** Connecting a wallet is what opens the play button of a fresh scene:
      it starts a game exactly when the provider answers with a first
      account that is non-empty and begins with the admitted prefix. */
  lemma ConnectThenPlay(eth: Ethereum)
    ensures Click(ConnectWallet(Created(), eth), PlayButton).Start?
        <==> && eth.Requested? && eth.outcome.Ok? && |eth.outcome.value| > 0
             && |eth.outcome.value[0]| > 0 && StartsWith(eth.outcome.value[0], AdmittedPrefix)
  {
  }

  /** Saving after a connect sends the first account, and the save-main-menu
      route builds its gate around exactly that address. */
  lemma SaveConnectedPublishes(t: string, a: string, rest: seq<string>)
    requires '$' !in a
    ensures var b := SaveRequest(ConnectWallet(Created(), Requested(Ok([a] + rest))));
      && '$' !in Interpolate(b.wallet)
      && SaveMainMenu.Rewrite(t, b.wallet) == SaveMainMenu.Entry(t, SaveMainMenu.Replacement(a))
  {
  }

  /** Saving before any connect sends `null`, which the route writes into
      its gate as the text "null". */
  lemma SaveUnconnectedPublishes(t: string)
    ensures var b := SaveRequest(Created());
      && '$' !in Interpolate(b.wallet)
      && SaveMainMenu.Rewrite(t, b.wallet) == SaveMainMenu.Entry(t, SaveMainMenu.Replacement("null"))
  {
  }

  /** The scene copy's buttons: play always starts the play scene, the
      marketplace button always the marketplace key, which no registered
      scene has. */
  function CopyClick(b: Button): (e: Effect)
    ensures e.Start? && e.key in Registered + {MarketplaceKey}
    ensures e.key !in Registered <==> b == MarketplaceButton
    ensures b == PlayButton <==> e == Start(PlayKey)
  {
    match b
    case PlayButton => Start(PlayKey)
    case MarketplaceButton => Start(MarketplaceKey)
  }

  /** The scene copy's `saveMainMenu` sends only the title, the one its
      title text shows, and the button labels; the route reads the missing
      wallet as `undefined`. */
  function CopySaveRequest(): (b: Body)
    ensures b.title == Text(Title) && b.buttons == Some(Buttons)
    ensures !Truthy(b.wallet) && Interpolate(b.wallet) == "undefined"
  {
    Body(Text(Title), Some(Buttons), Undefined)
  }

  /** The copy's save request gives the route no wallet, so the gate it
      builds declares the wallet as the text "undefined". */
  lemma CopySavePublishes(t: string)
    ensures '$' !in Interpolate(CopySaveRequest().wallet)
    ensures SaveMainMenu.Rewrite(t, CopySaveRequest().wallet)
         == SaveMainMenu.Entry(t, SaveMainMenu.Replacement("undefined"))
  {
  }
}
