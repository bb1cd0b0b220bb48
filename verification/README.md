# ZentyLabs publish transform and game rules, modelled in Dafny

ZentyLabs is a Next.js game builder. A Phaser game is assembled under
`src/app/gamebuilder`. Two API routes "publish" it by copying its scene files
and its top-level files to another directory:

- `save-main-menu` rewrites the entry scene `Mainmenu.ts` so that the play
  button is gated on a wallet-address prefix, and appends a log line.
- `api-save-game` wraps the entry scene in an `ethers` header (the contract
  address and its ABI as JSON). It replaces the play button with an
  NFT-ownership check and appends its own log line.

Both routes find the play handler with the regular expression
`this\.playButton\.on\("pointerdown", \(\) => {[^}]*}\);` under the `g` flag.

The project also models four smaller parts:

- the two menu scenes (the published, wallet-gated one and the plain copy);
- the cube game's play scene (hit counter, collision reset, arrow-key steering);
- the marketplace pages' card assembly, search filter, sort and buy flows;
- the "my NFTs" page's card assembly, search filter, sort and buy flows.

Modules, one concept each:

- `Base`, `Text` (text.dfy): `Option`, `Result`, a JavaScript value (`undefined`, `null` or a string), and the string operations the source uses: `startsWith`, `includes`, ASCII `toLowerCase`, `split`/`join` on one character, and decimal `toString`.
- `Json` (json.dfy): `JSON.stringify` of an array of strings, following section 7 of RFC 8259. Also a reader for that text, used as its partner.
- `HandlerPattern` (handler_pattern.dfy): the regular expression and JavaScript's global, left-to-right, non-overlapping `replace`. It includes the "no match is left" theory.
- `Tree` (tree.dfy): the two copy loops over a source tree of maps, and `path.basename`/`path.extname`.
- `Scenes` (scenes.dfy): the scene keys the game registers, and what a button click can do.
- `SaveMainMenu`, `SaveGame` (save_main_menu.dfy, save_game.dfy): the two routes, their generated text, and the play-button gates they generate.
- `MenuScene` (menu_scene.dfy): the two menu scenes.
- `Vectors` (vectors.dfy): the pattern applied to the handlers those scenes actually contain.
- `SceneLines` (scene_lines.dfy): the lines of the two menu scene files outside their handlers, in runs without '>'.
- `SceneFiles` (scene_files.dfy): the two menu scene files as whole texts, and the pattern applied to each file as a whole.
- `CubeGame` (cube_game.dfy): the cube game's play scene.
- `Listings`, `Marketplace`, `MyNfts` (listings.dfy, marketplace.dfy): the marketplace pages.

The routes' file system is a pair of maps: the source tree, whose `readdir`
listings are a sequence of names, and the destination tree. The routes'
effect is the destination tree when every file operation succeeds. Ledger and
wallet answers are function-valued parameters. A button click returns an
`Effect`: start a scene, log a line, log an error, or throw.

## Model

| member | source | states |
|---|---|---|
| Text.Split | src/components/MarketplaceUI.tsx:130 | `split(',')` yields one more piece than there are commas, and no piece holds a comma |
| Text.JoinSplit | src/components/MarketplaceUI.tsx:130 | joining the pieces of a split with the separator restores the original string |
| Text.SplitJoin | src/components/MarketplaceUI.tsx:130 | splitting a join of comma-free pieces returns exactly those pieces, in order |
| Text.SplitCount | src/components/MarketplaceUI.tsx:130 | the number of pieces is the number of separators plus one |
| Text.Lower | src/components/MarketplaceUI.tsx:184 | `toLowerCase` keeps the length and lower-cases each ASCII capital, leaving every other character as it is |
| Text.LowerIsLower | src/components/MarketplaceUI.tsx:184 | the result holds no capital, and lower-casing twice is the same as once |
| Text.NatToString | src/components/MarketplaceUI.tsx:140 | `tokenId.toString()` is a non-empty run of decimal digits with no leading zero |
| Text.ParseNatToString | src/components/MarketplaceUI.tsx:140 | reading the decimal text back gives the number |
| Text.NatToStringInjective | src/app/cubegame/scenes/Play.ts:70 | two different numbers never render as the same text |
| Json.HexRoundTrip | src/app/api/api-save-game/route.ts:51 | a hex digit that `JSON.stringify` writes reads back as its value |
| Json.EscapeChar | src/app/api/api-save-game/route.ts:51 | a character is copied as it is exactly when it needs no escape (not `"`, `\` or a control character) |
| Json.EscapeReads | src/app/api/api-save-game/route.ts:51 | the escaped body of a string literal, closed by a quote, reads back as the original string and leaves the rest of the text unread |
| Json.ElementsRead | src/app/api/api-save-game/route.ts:51 | the comma-separated literals of a non-empty array, closed by `]`, read back as that array |
| Json.StringifyRoundTrip | src/app/api/api-save-game/route.ts:51 | decoding the text `JSON.stringify` writes for an array of strings gives back the array |
| Json.StringifyChars | src/app/api/api-save-game/route.ts:51 | every character of the output is either punctuation JSON adds or a character of one of the strings |
| Json.StringifyLacks | src/app/api/api-save-game/route.ts:51 | a character that no string holds and no punctuation uses does not occur in the output |
| Json.EscapePlain | src/app/api/api-save-game/route.ts:51 | a string with nothing to escape is written as it is |
| HandlerPattern.Tail | src/app/api/save-main-menu/route.ts:32 | `[^}]*});` at the start of a text matches at least the closing literal and never more than the text |
| HandlerPattern.MatchAtExact | src/app/api/save-main-menu/route.ts:32 | the anchored matcher reports length n exactly when the first n characters are the opening literal, a run without `}`, and `});` |
| HandlerPattern.FirstBraceDecides | src/app/api/save-main-menu/route.ts:32 | after the opening literal, the match exists exactly when the first `}` is followed by `);`, so a handler with a `}` in its body never matches |
| HandlerPattern.MatchTransfer | src/app/api/save-main-menu/route.ts:32 | whether n characters match depends on those n characters only |
| HandlerPattern.FindFromLeftmost | src/app/api/save-main-menu/route.ts:31-32 | the global search returns the leftmost match at or after `lastIndex`; when it finds none, no later position starts one |
| HandlerPattern.FindFromFirst | src/app/api/save-main-menu/route.ts:31-32 | the first position that starts a match is the one the search returns, with that match's length |
| HandlerPattern.ReplaceAllNoMatch | src/app/api/save-main-menu/route.ts:31-43 | a text without a match comes back unchanged, and no error is raised |
| HandlerPattern.ReplaceAllStep | src/app/api/save-main-menu/route.ts:31-43 | the global replacement keeps the text before the first match, inserts the replacement, and goes on after the match |
| HandlerPattern.ReplaceOnly | src/app/api/save-main-menu/route.ts:31-43 | when the only match is h, between text that starts no match, the result is that text with h swapped for the replacement |
| HandlerPattern.MatchCountZero | src/app/api/save-main-menu/route.ts:31-43 | zero replacements are made exactly when no position of the text starts a match |
| HandlerPattern.SingleMatchRest | src/app/api/save-main-menu/route.ts:31-43 | with exactly one match, a match is found and none remains after it |
| HandlerPattern.SingleMatchRewrite | src/app/api/save-main-menu/route.ts:31-43 | with exactly one match, the replacement swaps that handler and keeps the text before and after it byte for byte |
| HandlerPattern.NoMatchAfterReplace | src/app/api/save-main-menu/route.ts:31-43 | with a replacement in which no match can start, and whose first character cannot complete one, the rewritten text holds no match |
| HandlerPattern.AppendKeepsNoMatch | src/app/api/save-main-menu/route.ts:46 | appending text with no `}` that does not start inside `});` (the log line, say) creates no match |
| HandlerPattern.PrependKeepsNoMatch | src/app/api/api-save-game/route.ts:47-55 | putting a header in which no match can start in front of a match-free text creates no match |
| HandlerPattern.FramedNoMatch | src/app/api/api-save-game/route.ts:47-90 | header, rewritten text and trailer together hold no match when each piece meets the conditions above |
| HandlerPattern.SealedHandler | src/app/api/save-main-menu/route.ts:33-42 | a handler whose first `}` is not followed by `)` cannot start a match, and neither can any other position of the text around it, whatever follows |
| Tree.LastIndex | src/app/api/save-main-menu/route.ts:50 | the position found holds the character, and no later position does; when no position is found, the character does not occur |
| Tree.ExtName | src/app/api/save-main-menu/route.ts:50 | `path.extname` is a suffix of the name that starts with its only `.`, or is empty |
| Tree.BaseName | src/app/api/save-main-menu/route.ts:50 | `path.basename(f, ext)` drops a matching suffix, and gives the empty string when the name is the suffix |
| Tree.OutputNameKeeps | src/app/api/save-main-menu/route.ts:50 | basename plus extname equals the original name, so every file keeps its name |
| Tree.SceneContents | src/app/api/save-main-menu/route.ts:26-47 | only the file named exactly `Mainmenu.ts` is rewritten; any other scene file is written unchanged |
| Tree.WriteScenesSpec | src/app/api/save-main-menu/route.ts:21-54 | after the scene loop, each listed file is at its own name with its (rewritten) contents, and every other destination scene file is left alone |
| Tree.WriteTopSpec | src/app/api/save-main-menu/route.ts:57-74 | after the top-level loop, exactly the regular files other than `scenes` have been added, unchanged; directories, links and other destination files are left alone |
| Tree.PublishSpec | src/app/api/save-main-menu/route.ts:20-74 | both loops together, stated without loops, over the destination as it was |
| Tree.PublishOrderIrrelevant | src/app/api/save-main-menu/route.ts:21-22 | the published tree does not depend on the order `readdir` lists names in |
| SaveMainMenu.ReplacementLiteral | src/app/api/save-main-menu/route.ts:33-42 | a wallet without `$` gives a replacement without `$`, which `replace` inserts literally |
| SaveMainMenu.Entry | src/app/api/save-main-menu/route.ts:31-46 | the new entry text always ends with the appended `console.log("hi");` line |
| SaveMainMenu.EntryUnmatched | src/app/api/save-main-menu/route.ts:31-46 | with no match, the output is the input plus the log line |
| SaveMainMenu.RewriteUnmatched | src/app/api/save-main-menu/route.ts:31-46 | the same for the replacement that the request's wallet produces |
| SaveMainMenu.EntrySingle | src/app/api/save-main-menu/route.ts:31-46 | with exactly one match, that handler is swapped for the replacement, the text around it is kept, and the log line follows |
| SaveMainMenu.RewriteSingle | src/app/api/save-main-menu/route.ts:31-46 | the same for the wallet's replacement |
| SaveMainMenu.ReplacementSealed | src/app/api/save-main-menu/route.ts:33-42 | for a wallet without `>`, no match can start in the generated handler, since its first `}` is followed by ` else` |
| SaveMainMenu.EntryLeavesNoMatch | src/app/api/save-main-menu/route.ts:31-46 | with such a replacement, the published entry file holds no match |
| SaveMainMenu.RewriteLeavesNoMatch | src/app/api/save-main-menu/route.ts:31-46 | with a wallet free of `$` and `>`, no match is left after the rewrite |
| SaveMainMenu.PublishedMenuTree | src/app/api/save-main-menu/route.ts:20-74 | the entry file is rewritten for the wallet, and every other scene file and every regular top-level file is copied under its own name. `scenes` is never copied to the root, and files not written stay as they were |
| SaveMainMenu.TitleAndButtonsUnused | src/app/api/save-main-menu/route.ts:9 | two requests with the same wallet publish the same tree, whatever their title and buttons |
| SaveMainMenu.ReplacementUnclosed | src/app/api/save-main-menu/route.ts:36 | as written, the gate's condition ends with its `if (` still open, and the replacement opens one more `(` than it closes beyond those of the wallet text, so the published scene does not parse |
| SaveMainMenu.ClosedReplacementBalanced | src/app/api/save-main-menu/route.ts:33-42 | with the `)` of `if (` restored, the condition closes every `(` it opens and the replacement opens as many `(` as it closes, beyond those of the wallet text |
| SaveMainMenu.ClosedReplacementInserts | src/app/api/save-main-menu/route.ts:36 | the restored replacement is the route's with one `)` inserted right after the condition |
| SaveMainMenu.ClosedReplacementSealed | src/app/api/save-main-menu/route.ts:33-42 | for a wallet without `>`, the restored replacement is sealed against the pattern just as the route's is |
| SaveMainMenu.Gate | src/app/api/save-main-menu/route.ts:36-40 | in the handler with the `)` restored, a click throws exactly when `walletAddress` is not a string, and the only scene it starts is `PlayScene` |
| SaveMainMenu.GateThrowsWithoutWallet | src/app/api/save-main-menu/route.ts:36 | in the handler with the `)` restored, with `walletAddress` `null` or `undefined`, `toLowerCase` throws instead of reaching the 'not connected' branch |
| SaveMainMenu.GuardedGate | src/app/api/save-main-menu/route.ts:36-40 | the gate with a test for a missing address never throws, logs 'not connected' without a wallet, and agrees with the generated gate otherwise |
| SaveMainMenu.GateCaseInsensitive | src/app/api/save-main-menu/route.ts:36 | the gate admits an address exactly when its first 22 characters, lower-cased, are the lower-case key |
| SaveMainMenu.GateIgnoresCase | src/app/api/save-main-menu/route.ts:36 | the gate decides the same for an address and its lower-case form |
| SaveGame.Abi | src/app/api/api-save-game/route.ts:10-24 | the ABI has thirteen entries, none holding `$` or `B` |
| SaveGame.JsonInert | src/app/api/api-save-game/route.ts:51 | `JSON.stringify` of strings without `$` and `B` holds neither |
| SaveGame.AbiRoundTrip | src/app/api/api-save-game/route.ts:51 | the JSON in the header reads back as the thirteen ABI entries, in order |
| SaveGame.HeaderSealed | src/app/api/api-save-game/route.ts:47-53 | no match can start anywhere in the generated header, including the ABI line |
| SaveGame.OwnershipReplacementSealed | src/app/api/api-save-game/route.ts:57-86 | no match can start in the generated ownership handler, and its first character cannot complete one |
| SaveGame.Trailer | src/app/api/api-save-game/route.ts:88-90 | the text after the rewritten body starts with a line break and holds no `}` |
| SaveGame.FramedUnmatched | src/app/api/api-save-game/route.ts:47-90 | with no match, the body is only wrapped in the header and the trailer |
| SaveGame.FramedSingle | src/app/api/api-save-game/route.ts:47-90 | with exactly one match, that handler is swapped inside the header and trailer, and the text around it is kept |
| SaveGame.OutputLeavesNoMatch | src/app/api/api-save-game/route.ts:47-90 | no match is left anywhere in the published entry file, whatever the input |
| SaveGame.OutputUnmatched | src/app/api/api-save-game/route.ts:47-90 | an entry file without a match comes out as header + file + trailer, with no error |
| SaveGame.OutputSingle | src/app/api/api-save-game/route.ts:47-90 | with exactly one match, header, text before the match, the ownership handler, text after it, and the trailer |
| SaveGame.PublishedGameTree | src/app/api/api-save-game/route.ts:38-118 | the entry file is wrapped and rewritten, and every other scene file and every regular top-level file is copied under its own name. `scenes` is not copied, and other destination files stay as they were |
| SaveGame.BodyUnused | src/app/api/api-save-game/route.ts:25-28 | title, buttons and wallet of the request make no difference to the published tree |
| SaveGame.OwnershipGate | src/app/api/api-save-game/route.ts:58-85 | with a provider the running ethers API can build, the generated gate starts `PlayScene` exactly when `wallet` is truthy, the provider is built (`provider.Ok?`), the owned list is non-empty and `isowner` of the first owned token is true. Without a wallet it logs 'Wallet not connected'. When `wallet` is bound to a value, it never throws |
| SaveGame.OwnershipGateErrors | src/app/api/api-save-game/route.ts:79-81 | a failing provider, `getUserOwnedNFTs` or `isowner` call is logged with its error and starts nothing |
| SaveGame.OwnershipGateFirstTokenOnly | src/app/api/api-save-game/route.ts:66-70 | only the first owned token is asked about |
| SaveGame.WrittenProviderNeverStarts | src/app/api/api-save-game/route.ts:62-63 | as written, under the v6 API the project's pages use, building the provider throws, so the gate never starts `PlayScene` and with a wallet always logs the TypeError as an ownership error |
| SaveGame.WrittenProviderUnderV5 | src/app/api/api-save-game/route.ts:62-63 | under v5 the written provider construction gives the same gate as OwnershipGate with the ledger's own provider outcome |
| SaveGame.WrittenGate | src/app/api/api-save-game/route.ts:58-59 | as written, the handler reads `wallet` outside its `try`, so with no `wallet` declared a click throws a ReferenceError; with one bound it is the gate above |
| SaveGame.InterpolatedGate | src/app/api/api-save-game/route.ts:58-85 | with `const wallet = "${wallet}"` in front, a click never throws, logs 'Wallet not connected' exactly for an empty request wallet, and asks the ledger about the request wallet as text (`undefined` included) |
| MenuScene.Created | src/app/gamebuildercopy/scenes/Mainmenu.ts:7 | the scene starts with no wallet address (`null`) |
| MenuScene.ConnectWallet | src/app/gamebuildercopy/scenes/Mainmenu.ts:72-85 | the first account becomes the address when a provider answers (`undefined` for an empty list). Without a provider, or when the request throws, the address is unchanged |
| MenuScene.ConnectThenPlay | src/app/gamebuildercopy/scenes/Mainmenu.ts:49-60 | after a fresh scene connects, Play starts a game exactly when the provider answers with a non-empty first account beginning with `0x0C467c60e97221de6cD9` |
| MenuScene.Click | src/app/gamebuildercopy/scenes/Mainmenu.ts:54-65 | Play starts a scene exactly when the address is a non-empty string starting with `0x0C467c60e97221de6cD9` (case-sensitive); that scene is `PlaySscene`, and otherwise it logs. Marketplace always starts `Marketplace` |
| MenuScene.PublishedPlayUnregistered | src/app/gamebuildercopy/scenes/Mainmenu.ts:56 | the key the play handler starts is none of the registered scene keys |
| MenuScene.IntendedClick | src/app/gamebuildercopy/scenes/Mainmenu.ts:54-65 | with the registered key, Play starts `PlayScene` under exactly the same condition; every key it starts is registered except `Marketplace`, which only the marketplace button starts |
| MenuScene.MarketplaceUnregistered | src/app/gamebuilder/main.ts:20 | the game registers no scene under the key `Marketplace` |
| MenuScene.PlayNeedsWallet | src/app/gamebuildercopy/scenes/Mainmenu.ts:7 | before a wallet connects, Play starts nothing |
| MenuScene.AdmittedPassesGate | src/app/gamebuildercopy/scenes/Mainmenu.ts:55 | every address the published scene admits also passes the gate the save-main-menu route generates |
| MenuScene.GateWiderThanScene | src/app/gamebuildercopy/scenes/Mainmenu.ts:55 | the converse fails: the lower-case key passes the generated gate, but the scene refuses it |
| MenuScene.SaveRequest | src/app/gamebuildercopy/scenes/Mainmenu.ts:88-93 | the saved menu is `{title: "My Phaser Game", buttons: ["Play", "Marketplace"], wallet: walletAddress}` |
| MenuScene.SaveConnectedPublishes | src/app/gamebuildercopy/scenes/Mainmenu.ts:76-92 | a save after connecting sends the first account, and the save-main-menu route builds its gate around exactly that address (for an account without `$`) |
| MenuScene.SaveUnconnectedPublishes | src/app/gamebuildercopy/scenes/Mainmenu.ts:7-92 | a save before any connect sends `null`, and the route's gate declares the wallet as the text "null" |
| MenuScene.CopyClick | src/app/gamebuilder/scenesCopy/MainmenuCopy.ts:47-55 | in the copy scene, Play always starts `PlayScene` and Marketplace always starts `Marketplace`, both unconditionally; the started key is unregistered exactly for Marketplace |
| MenuScene.CopySaveRequest | src/app/gamebuilder/scenesCopy/MainmenuCopy.ts:62-66 | the copy scene sends the title and the two labels and no wallet, which the route interpolates as `undefined` |
| MenuScene.CopySavePublishes | src/app/gamebuilder/scenesCopy/MainmenuCopy.ts:62-66 | the copy's save sends no wallet, and the route's gate declares the wallet as the text "undefined" |
| Vectors.CopyHandlerMatches | src/app/gamebuilder/scenesCopy/MainmenuCopy.ts:48-50 | the copy scene's play handler is a match of exactly its own length, whatever follows it |
| Vectors.CopyEntry | src/app/gamebuilder/scenesCopy/MainmenuCopy.ts:48-55 | in any entry file whose only match is that handler, the route swaps it for the replacement, keeps the text on both sides, and appends the log line |
| Vectors.PublishedHandlerUnmatched | src/app/gamebuildercopy/scenes/Mainmenu.ts:54-60 | the published scene's play handler is not a match, because its first `}` closes the `if` block |
| Vectors.MarketHandlerUnmatched | src/app/gamebuilder/scenesCopy/MainmenuCopy.ts:53-55 | the marketplace handler is not a match: its receiver is not the play button |
| SceneFiles.CopyTextMatchesOnce | src/app/gamebuilder/scenesCopy/MainmenuCopy.ts:1-85 | the pattern matches the whole copy scene file exactly once, at the play handler of lines 48-50 |
| SceneFiles.CopyBetween | src/app/gamebuilder/scenesCopy/MainmenuCopy.ts:48-50 | that play handler between two texts in which no match can start is the one match of the whole, found right after the first text, and the rewrite swaps exactly it |
| SceneFiles.CopyTextRewrite | src/app/api/save-main-menu/route.ts:31-46 | publishing the copy scene file swaps its play handler for the replacement, keeps every other character of the file, and appends the log line; nothing is assumed about the file |
| SceneFiles.CopyTextCopySave | src/app/gamebuilder/scenesCopy/MainmenuCopy.ts:62-66 | for the copy scene's own save request, publishing the copy file puts the gate declaring `wallet = "undefined"` in place of its play handler and keeps the rest of the file |
| SceneFiles.PublishedTextUnmatched | src/app/gamebuildercopy/scenes/Mainmenu.ts:1-114 | the pattern matches the published scene file nowhere: the gated play handler's first `}` closes its `if`, and the marketplace handler has another receiver |
| SceneFiles.PublishedTextRepublished | src/app/api/save-main-menu/route.ts:31-46 | publishing the published scene file again keeps all of it and only appends another log line, whatever the replacement |
| CubeGame.HitsLabel | src/app/cubegame/scenes/Play.ts:70 | the label reads `Hits: ` followed by the count |
| CubeGame.Create | src/app/cubegame/scenes/Play.ts:22-46 | the player is at the stored position, the count is 0, the label shows it, the speed is 500, and no image has been added |
| CubeGame.Collide | src/app/cubegame/scenes/Play.ts:68-73 | a collision adds exactly one hit, the label shows the new count, and the player is back at (400, 300) |
| CubeGame.Steer | src/app/cubegame/scenes/Play.ts:107-121 | up beats down, which beats left, which beats right, at the scene's speed; no key gives (0, 0) |
| CubeGame.SteerMasks | src/app/cubegame/scenes/Play.ts:110-117 | a key held down makes every later key in that order irrelevant |
| CubeGame.SteerOneAxis | src/app/cubegame/scenes/Play.ts:108-120 | at most one velocity component is non-zero. The player is still exactly when no key is down, and otherwise moves at the speed |
| CubeGame.Update | src/app/cubegame/scenes/Play.ts:107-121 | `update` sets the velocity and nothing else |
| CubeGame.Drag | src/app/cubegame/scenes/Play.ts:33-36 | dragging moves the player to the pointer and leaves the count alone |
| CubeGame.Step | src/app/cubegame/scenes/Play.ts:33-121 | every event (a collision, a frame, a drag of the player, an `add-player`) keeps the label showing the count, only a collision changes the count, and the speed never changes |
| CubeGame.RunCounts | src/app/cubegame/scenes/Play.ts:38-73 | after any sequence of events the count is the number of collisions, and the label shows it |
| CubeGame.LabelTellsHits | src/app/cubegame/scenes/Play.ts:70 | two states showing the same label have the same count |
| CubeGame.AddPlayerAt | src/app/cubegame/scenes/Play.ts:83-86 | `addPlayer()` places the new player at (300, 400); an argument given replaces its default |
| CubeGame.AddPlayer | src/app/cubegame/scenes/Play.ts:83-105 | `add-player` adds one image at that place, after those added before, and changes nothing else; the player sprite stays where it is |
| CubeGame.SavePayload | src/app/cubegame/scenes/Play.ts:124-128 | the save sends exactly the player's x and y |
| CubeGame.AddPlayerKeepsSave | src/app/cubegame/scenes/Play.ts:83-128 | after `add-player`, a save sends the same position as before it |
| CubeGame.AddsNeverSaved | src/app/cubegame/scenes/Play.ts:83-128 | over any run of events, the scene ends as it would without its `add-player` events, apart from the added images, so every save sends the same position |
| CubeGame.SaveAfterCollision | src/app/cubegame/scenes/Play.ts:71-72 | a save right after a collision sends (400, 300) |
| Listings.Filter | src/components/MarketplaceUI.tsx:181-186 | a listing is kept exactly when its lower-cased title or creator contains the lower-cased term, each kept listing as many times as it occurs, the others not at all |
| Listings.FilterInOrder | src/components/MarketplaceUI.tsx:181-186 | the kept listings are in their original order |
| Listings.EmptyTermKeepsAll | src/components/MarketplaceUI.tsx:183-185 | an empty search term keeps every listing |
| Listings.FilterIgnoresTermCase | src/components/MarketplaceUI.tsx:184-185 | the search term's case makes no difference |
| Listings.Insert | src/components/MarketplaceUI.tsx:187-191 | inserting adds exactly the one listing to the list's multiset |
| Listings.Sort | src/components/MarketplaceUI.tsx:187-191 | the sort's result is a permutation of its input |
| Listings.InsertBounded | src/components/MarketplaceUI.tsx:187-191 | a lower bound on the new listing and on the list is a lower bound on every listing of the insertion |
| Listings.InsertSorted | src/components/MarketplaceUI.tsx:187-191 | inserting into a sorted list keeps it sorted by the selected key |
| Listings.SortSorted | src/components/MarketplaceUI.tsx:187-191 | the result is ordered by price, or by name when name is selected |
| Listings.InsertWithKey | src/components/MarketplaceUI.tsx:187-191 | inserting into a sorted list puts the new listing first among those with its key |
| Listings.SortStable | src/components/MarketplaceUI.tsx:187-191 | listings with equal keys keep their relative order (the sort is stable) |
| Listings.Shown | src/components/MarketplaceUI.tsx:181-191 | the rendered cards are a permutation of the filtered listings |
| Listings.ShownSpec | src/components/MarketplaceUI.tsx:181-191 | a listing is shown exactly when it is present and the filter keeps it, and the shown cards are in key order |
| Listings.Card | src/components/MarketplaceUI.tsx:139-147 | the card's id is the token ID in decimal and reads back as it; name, description, image, price and creator are as given; attributes default to `[]` |
| Marketplace.Segment | src/components/MarketplaceUI.tsx:135 | the i-th URI piece, or `undefined` past the end |
| Marketplace.CreatorOr | src/components/MarketplaceUI.tsx:145 | a non-empty creator string is kept, and anything else becomes `'Unknown'` |
| Marketplace.MarketCard | src/components/MarketplaceUI.tsx:139-147 | a card's creator is the metadata creator or `'Unknown'`, its title is the metadata name, and its price is the price asked |
| Marketplace.Fetch | src/components/MarketplaceUI.tsx:126-154 | the fetch yields listings exactly when the URI array is non-empty and every token's metadata parses. Card i then pairs `tokenIds[i]` with the i-th comma-separated piece of the first URI string |
| Marketplace.FetchPairsByIndex | src/components/MarketplaceUI.tsx:130-135 | when the first URI string is the comma-join of one comma-free URI per token, each card comes from its own token's URI |
| Marketplace.MissingUriFails | src/components/MarketplaceUI.tsx:135-136 | with fewer URI pieces than tokens, the missing URI is fetched as `undefined`; when fetching `undefined` fails, the page keeps its listings |
| Marketplace.Buy | src/components/MarketplaceUI.tsx:156-179 | nothing happens without both contracts. Otherwise there is an approval of exactly the price when the allowance is below it, and then always the buy |
| Marketplace.BuyCovered | src/components/MarketplaceUI.tsx:167-172 | when the buy goes out, the marketplace's allowance covers the price |
| MyNfts.FetchMinted | src/app/mynfts/page.tsx:69-101 | listings come back exactly when every token's metadata parses; each card pairs a token with its own `tokenURI` and price and names creator `'0xujnf'` |
| MyNfts.BuyListed | src/app/mynfts/page.tsx:107-118 | nothing happens without a contract; otherwise one buy sends exactly the asked price as value |
| MyNfts.BuyPaysShownPrice | src/app/mynfts/page.tsx:86-111 | the buy button of a card from a successful fetch buys the token the card names and, with prices unchanged since the fetch, pays the price the card shows |
| MyNfts.CardOffer | src/app/mynfts/page.tsx:197-211 | each card offers exactly one of "Buy Now" and "You own this NFT". The note appears exactly when the creator and the account are equal ignoring case, so a missing account always gets the buy button |
| MyNfts.AlwaysBuyNow | src/app/mynfts/page.tsx:92 | with the fixed creator, a 42-character account never owns a card, so every card offers the buy button |

## Left out

- The file system itself: `mkdir`, `readFile`/`writeFile`, and `readdir` order, which is modelled but shown not to matter. A read of a scene entry that is a directory (`EISDIR`) is also left out, as is the 500 response, which keeps the files already written (there is no rollback). The routes are modelled only for runs in which every file operation succeeds.
- The response bodies (`NextResponse.json`) and the routes' console output, because they are I/O.
- SaveMainMenu.Rewrite: requires a wallet without `$`. JavaScript's `$` patterns in a replacement string (`$&`, `$1`, ...) are not modelled. The rewrite is modelled for such wallets only, and `RewriteLeavesNoMatch` also asks for a wallet without `>`.
- SaveGame.OwnershipGate: the value of `wallet` where the generated handler runs is a parameter, and the gate assumes it is bound. Nothing the route writes declares it, and the entry scene it rewrites (`gamebuilder/scenes/Mainmenu.ts`) is not part of this model; the unbound case is SaveGame.WrittenGate, under Findings. The gate also takes the provider's outcome as the ledger's `provider`, which is what a constructor the running ethers API offers gives. The route writes v5's `new ethers.providers.Web3Provider` (route.ts:62-63), while the project's pages use v6 (`ethers.BrowserProvider` at MarketplaceUI.tsx:92 and mynfts/page.tsx:47, `ethers.formatEther` at MarketplaceUI.tsx:144). Under v6 the written line throws on every click; that case is SaveGame.WrittenProviderNeverStarts, under Findings. Which ethers version the build installs is not part of this model.
- SaveMainMenu.GateThrowsWithoutWallet: like SaveMainMenu.Gate and the lemmas about it, it describes the handler with the `)` of `if (` restored (SaveMainMenu.ClosedReplacement). As the route writes it, the published `Mainmenu.ts` does not parse (SaveMainMenu.ReplacementUnclosed), so no click of it runs at all; what the build does with the unparsable file is not modelled.
- MenuScene.Click: the handlers exist only once `create` has awaited `connectWallet` (Mainmenu.ts:49), since the play and marketplace handlers (lines 54, 63) and the save listener (line 68) are registered after it. A click before that does nothing, and the model does not state this window: it describes clicks on a scene whose wallet request has settled.
- MenuScene.IntendedClick: the marketplace button starts `Marketplace`, which no registered scene has (main.ts:20; MenuScene.MarketplaceUnregistered); the same holds for MenuScene.CopyClick. What Phaser does when asked to start a key it does not know is not modelled; the marketplace itself is a page of the app, not a scene.
- The event bus (`src/app/gamebuilder/EventBus`) is not part of this model. The `save` / `add-player` / `save-main-menu` listeners are modelled as the functions they call.
- `fetch` of the save routes by the scenes, and `JSON.stringify` of the request body (beyond `undefined` being dropped), because they are network I/O.
- Ledger and wallet calls are abstract inputs: `eth_requestAccounts`, `getUserOwnedNFTs`, `isowner`, `tokenURI`, `nftPrices`, `allowance`, `approve`, `buyNFT`. A call failing in the middle of a buy (after the approval) is not modelled. Nor is the `isowner` answer the "my NFTs" page fetches, which it only logs.
- Marketplace.Fetch: metadata lookups are the only failures modelled. Failures of `getAllTokenURIs`, `getAllMintedNFTs` and `nftPrices` end the fetch the same way and are not modelled separately. Which error `Promise.all` reports is not modelled either.
- MyNfts.FetchMinted: a failing `tokenURI`, `nftPrices` or `isowner` call is not modelled separately from a failing metadata fetch.
- Listings.Filter: metadata whose `name` is not a string (missing, `null`, a number) is not modelled, nor a `creator` that is a truthy non-string (a number, an object), which survives `|| 'Unknown'` (MarketplaceUI.tsx:145). In the source such a card makes the filter's `toLowerCase` throw during rendering (MarketplaceUI.tsx:184-185, mynfts/page.tsx:123-124; the creator is read only when the title does not match). `Metadata` holds the name as a string and the creator as `undefined`, `null` or a string, so the modelled filter never throws.
- Listings.Sort: prices are compared as wei integers rather than through `formatEther` and `parseFloat`. The name order is an abstract rank of each title in place of `localeCompare`, and a title that is not a string, which makes `localeCompare` throw (MarketplaceUI.tsx:190, mynfts/page.tsx:129), is excluded as for the filter. The sort is modelled as a stable sort, as `Array.prototype.sort` is.
- Text.Lower: ASCII only, with no Unicode case mapping.
- Phaser rendering and physics: the bombs and their random velocities, world bounds, sprite origins and asset loading. A collision is an input event, and dragging moves the player to the pointer.
- CubeGame.AddPlayer: the added image is placed but not followed further. Its own drag handler and the scene-wide one (Play.ts:31-36, 97-104) move it, and `addPlayer` sets its world bounds and changes the player sprite's physics (`setImmovable`, `allowGravity`, Play.ts:88-89); these are left out with the rest of the physics. None of them reaches the saved position, which reads only the player sprite.
- The marketplace's `handleCardClick` navigation and the page rendering beyond the choice of card and offer.

## Findings

| source | as written | input that shows it | evidently intended | confidence | as-written member | corrected member |
|---|---|---|---|---|---|---|
| src/app/gamebuildercopy/scenes/Mainmenu.ts:56 | the gated play button starts the scene key `"PlaySscene"` | any address starting with `0x0C467c60e97221de6cD9`, then a click on Play | start `"PlayScene"`, the key the play scene registers (Play.ts:14) | high, not executed | MenuScene.PublishedPlayUnregistered | MenuScene.IntendedClick |
| src/app/api/save-main-menu/route.ts:36 | the generated gate's `if (` is never closed: the line opens four `(` and closes three, so the block's `{` falls inside the condition | any wallet: the published `Mainmenu.ts` holds the unclosed `if (` and does not parse | `...toLowerCase())) {`, with the `)` that closes `if (` | high, not executed | SaveMainMenu.ReplacementUnclosed | SaveMainMenu.ClosedReplacementBalanced |
| src/app/api/save-main-menu/route.ts:36 | with its `)` restored, the generated gate still calls `this.walletAddress.toLowerCase()` with no test for a missing address | the copy scene, the only scene file the pattern matches (SceneFiles.CopyTextRewrite), declares no `walletAddress`; in its published form `this.walletAddress` is `undefined`, so every click on Play throws a TypeError, with no wallet connect involved (the published `Mainmenu.ts` receives no gate, SceneFiles.PublishedTextRepublished) | log 'not connected', as its `else` branch and the published scene's own `this.walletAddress && ...` test suggest | medium, not executed | SaveMainMenu.GateThrowsWithoutWallet | SaveMainMenu.GuardedGate |
| src/app/api/api-save-game/route.ts:59 | the generated handler tests `if (wallet)` outside its `try`, and neither the generated header (route.ts:47-55) nor the handler declares `wallet` | a click on Play in a published scene that declares no `wallet`: reading it throws a ReferenceError, which rejects the async handler | bind it first with `const wallet = "${wallet}"`, as save-main-menu/route.ts:33 does | medium, not executed | SaveGame.WrittenGate | SaveGame.InterpolatedGate |
| src/app/api/api-save-game/route.ts:62-63 | the generated gate builds its provider with ethers v5's `new ethers.providers.Web3Provider(window.ethereum)` and `provider.getSigner()` | any click with a wallet, under the v6 API the project's pages use (MarketplaceUI.tsx:92, 144): `ethers.providers` is `undefined`, the line throws, and the gate logs 'Error checking NFT ownership:' | `new ethers.BrowserProvider(window.ethereum)` and `await provider.getSigner()`, as MarketplaceUI.tsx:92 builds its provider; the gate then decides on the ledger's own provider outcome | medium, not executed | SaveGame.WrittenProviderNeverStarts | SaveGame.OwnershipGate |
