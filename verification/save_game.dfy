/** The `api-save-game` publish route: the scenes are copied with the entry
    file wrapped in an ethers header (the contract address and its ABI as a
    JSON array), its play-button handler replaced by an NFT-ownership gate,
    and a log line appended; the regular top-level files are copied as they
    are. */
module SaveGame {
  import opened Base
  import opened Text
  import opened Json
  import opened HandlerPattern
  import opened Tree
  import opened Scenes

  /** A piece of generated text with neither '$' (which `replace` would
      expand in a replacement) nor 'B' (the character the proofs that no
      match starts inside a text anchor on). */
  predicate Inert(s: string)
  {
    forall i :: 0 <= i < |s| ==> s[i] != '$' && s[i] != 'B'
  }

  lemma InertLacks(s: string)
    ensures Inert(s) <==> '$' !in s && 'B' !in s
  {
  }

  lemma InertAppend(a: string, b: string)
    requires Inert(a) && Inert(b)
    ensures Inert(a + b)
  {
  }

  /** A human-readable ABI entry: `function name(params)` and what follows. */
  function Sig(name: string, params: string, tail: string): (s: string)
    requires Inert(name) && Inert(params) && Inert(tail)
    ensures Inert(s)
  {
    assert Inert("function ") && Inert("(") && Inert(")");
    "function " + name + "(" + params + ")" + tail
  }

  /** The tail of a view function's entry. */
  function Returns(t: string): (s: string)
    requires Inert(t)
    ensures Inert(s)
  {
    assert Inert(" view returns (") && Inert(")");
    " view returns (" + t + ")"
  }

  /** The thirteen entries of the ABI. */
  function CurrentTokenIdSig(): (s: string) ensures Inert(s)
  { assert Inert("currentTokenId") && Inert("uint256"); Sig("currentTokenId", "", Returns("uint256")) }
  function NftPricesSig(): (s: string) ensures Inert(s)
  { assert Inert("nftPrices") && Inert("uint256"); Sig("nftPrices", "uint256", Returns("uint256")) }
  function AllTokenIdsSig(): (s: string) ensures Inert(s)
  { assert Inert("allTokenIds") && Inert("uint256"); Sig("allTokenIds", "uint256", Returns("uint256")) }
  function MintSig(): (s: string) ensures Inert(s)
  {
    var p, q := "string memory tokenURI, ", "uint256 priceInWei";
    assert Inert("mintNFT") && Inert(p) && Inert(q);
    Sig("mintNFT", p + q, "")
  }
  function BuySig(): (s: string) ensures Inert(s)
  {
    assert Inert("buyNFT") && Inert("uint256 tokenId") && Inert(" payable");
    Sig("buyNFT", "uint256 tokenId", " payable")
  }
  function UpdatePriceSig(): (s: string) ensures Inert(s)
  {
    var p, q := "uint256 tokenId, ", "uint256 newPriceInWei";
    assert Inert("updateNFTPrice") && Inert(p) && Inert(q);
    Sig("updateNFTPrice", p + q, "")
  }
  function AllMintedSig(): (s: string) ensures Inert(s)
  {
    assert Inert("getAllMintedNFTs") && Inert("uint256[] memory");
    Sig("getAllMintedNFTs", "", Returns("uint256[] memory"))
  }
  function TotalMintedSig(): (s: string) ensures Inert(s)
  {
    assert Inert("getTotalMintedNFTs") && Inert("uint256");
    Sig("getTotalMintedNFTs", "", Returns("uint256"))
  }
  function AllUrisSig(): (s: string) ensures Inert(s)
  {
    assert Inert("getAllTokenURIs") && Inert("string[] memory");
    Sig("getAllTokenURIs", "", Returns("string[] memory"))
  }
  function UserOwnedSig(): (s: string) ensures Inert(s)
  {
    assert Inert("getUserOwnedNFTs") && Inert("address user") && Inert("uint256[] memory");
    Sig("getUserOwnedNFTs", "address user", Returns("uint256[] memory"))
  }
  function IsOwnerSig(): (s: string) ensures Inert(s)
  {
    var p, q := "address owner, ", "uint256 ownertokenID";
    assert Inert("isowner") && Inert(p) && Inert(q) && Inert("bool");
    Sig("isowner", p + q, Returns("bool"))
  }
  function UserUrisSig(): (s: string) ensures Inert(s)
  {
    assert Inert("getUserOwnedNFTURIs") && Inert("address user") && Inert("string[] memory");
    Sig("getUserOwnedNFTURIs", "address user", Returns("string[] memory"))
  }
  function TokenUriSig(): (s: string) ensures Inert(s)
  {
    assert Inert("tokenURI") && Inert("uint256 tokenId") && Inert("string memory");
    Sig("tokenURI", "uint256 tokenId", Returns("string memory"))
  }

  /** The entries of the ABI the header declares, in the route's order. */
  function AbiEntry(i: nat): (s: string)
    requires i < 13
    ensures Inert(s)
  {
    match i
    case 0 => CurrentTokenIdSig()
    case 1 => NftPricesSig()
    case 2 => AllTokenIdsSig()
    case 3 => MintSig()
    case 4 => BuySig()
    case 5 => UpdatePriceSig()
    case 6 => AllMintedSig()
    case 7 => TotalMintedSig()
    case 8 => AllUrisSig()
    case 9 => UserOwnedSig()
    case 10 => IsOwnerSig()
    case 11 => UserUrisSig()
    case _ => TokenUriSig()
  }

  function Abi(): (r: seq<string>)
    ensures |r| == 13 && forall i :: 0 <= i < |r| ==> '$' !in r[i] && 'B' !in r[i]
  {
    var r := seq(13, i => if 0 <= i < 13 then AbiEntry(i) else "");
    forall i | 0 <= i < |r| ensures '$' !in r[i] && 'B' !in r[i] {
      InertLacks(r[i]);
    }
    r
  }

  /** An array of texts without '$' and 'B' is written by `JSON.stringify`
      without them too. */
  lemma JsonInert(xs: seq<string>)
    requires forall i :: 0 <= i < |xs| ==> '$' !in xs[i] && 'B' !in xs[i]
    ensures Inert(Stringify(xs))
  {
    StringifyLacks(xs, '$');
    StringifyLacks(xs, 'B');
    InertLacks(Stringify(xs));
  }

  /** The JSON text in the header reads back as the ABI. */
  lemma AbiRoundTrip()
    ensures ParseArray(Stringify(Abi())) == Some(Abi())
  {
    StringifyRoundTrip(Abi());
  }

  /** A line of generated code with neither '$' nor 'B': JavaScript takes it
      literally, and no match can start inside it. */
  function CodeLine(n: nat, code: string): (s: string)
    requires Inert(code)
    ensures Sealed(Prefix, s)
  {
    InertLacks(code);
    PrefixFacts();
    LineSealed(Prefix, n, code, 9);
    Line(n, code)
  }

  /** A line of generated code whose one 'B' stands right after x. The one
      start that could reach a match through that 'B' is the one nine
      characters before it, as in `playButton`; it fails at offset d of the
      pattern. */
  function AnchoredLine(n: nat, x: string, y: string, d: nat): (s: string)
    requires Inert(x) && Inert(y) && 9 <= |x| && d < |Prefix| && d <= |y| + 9
    requires (x + "B" + y)[|x| - 9 + d] != Prefix[d]
    ensures Sealed(Prefix, s)
  {
    InertLacks(x);
    InertLacks(y);
    PrefixFacts();
    LineCandidateFails(Prefix, n, x + "B" + y, |x| - 9, d);
    AnchoredLineSealed(Prefix, n, x, 'B', y, 9);
    Line(n, x + "B" + y)
  }

  /** A line break on its own. */
  function Blank(): (s: string)
    ensures Sealed(Prefix, s) && SafeLead(Prefix, s)
  {
    PrefixFacts();
    ClosingFacts();
    SealedWithout(Prefix, "\n");
    "\n"
  }

  /** The indentation a template line starts with. */
  function Indent(n: nat): (s: string)
    ensures Sealed(Prefix, s)
  {
    SealedWithout(Prefix, Spaces(n));
    Spaces(n)
  }

  function ImportLine(): (s: string)
    ensures Sealed(Prefix, s)
  {
    CodeLine(10, ImportCode())
  }

  function ImportCode(): (s: string)
    ensures Inert(s)
  {
    var a, b := "import { ethers } ", "from 'ethers';";
    assert Inert(a) && Inert(b);
    a + b
  }

  /** `const contractAddress = '0x2688…B0ba1…';` : nine characters before its
      one 'B' stands a '2', not the 't' a match starts with. */
  function AddressLine(): (s: string)
    ensures Sealed(Prefix, s)
  {
    PrefixFacts();
    AnchoredLine(10, AddressHead(), AddressTail(), 0)
  }

  function AddressHead(): (s: string)
    ensures Inert(s) && |s| >= 9 && s[|s| - 9] == '2'
  {
    var a, b := "const contractAddress = '", "0x2688385CfE28ae2693c8232";
    assert Inert(a) && Inert(b);
    assert (a + b)[41] == b[16];
    a + b
  }

  function AddressTail(): (s: string)
    ensures Inert(s)
  {
    "0ba1E5246A332A00';"
  }

  /** `const contractABI = [...];` for the JSON text json of the ABI: nine
      characters before its 'B' stands the 'c' of `contractABI`. */
  function AbiLine(json: string): (s: string)
    requires Inert(json)
    ensures Sealed(Prefix, s)
  {
    PrefixFacts();
    AnchoredLine(10, AbiHead(), AbiTail(json), 0)
  }

  function AbiHead(): (s: string)
    ensures Inert(s) && |s| >= 9 && s[|s| - 9] == 'c'
  {
    "const contractA"
  }

  function AbiTail(json: string): (s: string)
    requires Inert(json)
    ensures Inert(s)
  {
    assert Inert("I = ") && Inert(";");
    "I = " + json + ";"
  }

  function CommentLine(): (s: string)
    ensures Sealed(Prefix, s)
  {
    CodeLine(10, CommentCode())
  }

  function CommentCode(): (s: string)
    ensures Inert(s)
  {
    var a, b := "// ... (rest of the ", "existing file content)";
    assert Inert(a) && Inert(b);
    a + b
  }

  /** The ABI line with the JSON text of the ABI. */
  function AbiJsonLine(): (s: string)
    ensures Sealed(Prefix, s)
  {
    JsonInert(Abi());
    AbiLine(Stringify(Abi()))
  }

  /** The lines the template puts before the rewritten file, in order: the
      ethers import, the contract address, the ABI as JSON, and a comment,
      with blank lines between them, then the indentation the file's first
      line is put after. */
  function HeaderLine(i: nat): (s: string)
    requires i < 9
    ensures Sealed(Prefix, s)
  {
    match i
    case 0 => Blank()
    case 1 => ImportLine()
    case 2 => Blank()
    case 3 => AddressLine()
    case 4 => AbiJsonLine()
    case 5 => Blank()
    case 6 => CommentLine()
    case 7 => Blank()
    case _ => Indent(10)
  }

  function Header(): string
  {
    Concat(seq(9, i => if 0 <= i < 9 then HeaderLine(i) else ""))
  }

  /** No match can start inside the header, whatever follows it. */
  lemma HeaderSealed()
    ensures Sealed(Prefix, Header())
  {
    var lines := seq(9, i => if 0 <= i < 9 then HeaderLine(i) else "");
    assert forall i :: 0 <= i < 9 ==> Sealed(Prefix, lines[i]);
    ConcatSealed(Prefix, lines);
  }

  /** The messages of the generated gate. */
  function NotConnectedMessage(): (s: string) ensures Inert(s) { "Wallet not connected" }
  function NoNftsMessage(): (s: string) ensures Inert(s) { "No owned NFTs" }
  function NotOwnerMessage(): (s: string) ensures Inert(s) { "Not the owner of the NFT" }
  function OwnershipErrorLabel(): (s: string) ensures Inert(s) { "Error checking NFT ownership:" }

  /** `this.playButton.on("pointerdown", async () => {` : the one start that
      agrees with the pattern up to its 'B' meets `async` where the pattern
      has `()`. */
  function OpenLine(): (s: string)
    ensures Sealed(Prefix, s)
  {
    var x := "this.play";
    assert Inert(x);
    PrefixFacts();
    AnchoredLine(12, x, OpenTail(), 34)
  }

  function OpenTail(): (s: string)
    ensures Inert(s) && |s| > 24 && s[24] == 'a'
  {
    var a, b := "utton.on(\"pointerdown\", ", "async () => {";
    assert Inert(a) && Inert(b);
    assert (a + b)[24] == b[0];
    a + b
  }

  function WalletTestLine(): (s: string)
    ensures Sealed(Prefix, s)
  {
    CodeLine(14, "if (wallet) {")
  }

  function TryLine(): (s: string)
    ensures Sealed(Prefix, s)
  {
    CodeLine(16, "try {")
  }

  function ProviderLine(): (s: string)
    ensures Sealed(Prefix, s)
  {
    CodeLine(18, ProviderCode())
  }

  function ProviderCode(): (s: string)
    ensures Inert(s)
  {
    var a, b, c, d := "const provider = ", "new ethers.providers.", "Web3Provider(", "window.ethereum);";
    assert Inert(a) && Inert(b) && Inert(c) && Inert(d);
    InertAppend(a, b);
    InertAppend(a + b, c);
    InertAppend(a + b + c, d);
    a + b + c + d
  }

  function SignerLine(): (s: string)
    ensures Sealed(Prefix, s)
  {
    CodeLine(18, SignerCode())
  }

  function SignerCode(): (s: string)
    ensures Inert(s)
  {
    var a, b := "const signer = provider.", "getSigner();";
    assert Inert(a) && Inert(b);
    a + b
  }

  /** `const contract = new ethers.Contract(contractAddress, contractABI, signer);` :
      nine characters before its 'B' stands the 'c' of `contractABI`. */
  function ContractLine(): (s: string)
    ensures Sealed(Prefix, s)
  {
    PrefixFacts();
    AnchoredLine(18, ContractHead(), ContractTail(), 0)
  }

  function ContractHead(): (s: string)
    ensures Inert(s) && |s| >= 9 && s[|s| - 9] == 'c'
  {
    var a, b, c, d := "const contract = ", "new ethers.Contract(", "contractAddress, ", "contractA";
    assert Inert(a) && Inert(b) && Inert(c) && Inert(d);
    InertAppend(a, b);
    InertAppend(a + b, c);
    InertAppend(a + b + c, d);
    assert (a + b + c + d)[54] == d[0];
    a + b + c + d
  }

  function ContractTail(): (s: string)
    ensures Inert(s)
  {
    "I, signer);"
  }

  /** A line holding only the indentation of the lines around it. */
  function EmptyLine(): (s: string)
    ensures Sealed(Prefix, s)
  {
    CodeLine(18, "")
  }

  function OwnedCommentLine(): (s: string)
    ensures Sealed(Prefix, s)
  {
    CodeLine(18, OwnedCommentCode())
  }

  function OwnedCommentCode(): (s: string)
    ensures Inert(s)
  {
    var a, b := "// Get the user's ", "owned NFTs";
    assert Inert(a) && Inert(b);
    a + b
  }

  function OwnedLine(): (s: string)
    ensures Sealed(Prefix, s)
  {
    CodeLine(18, OwnedCode())
  }

  function OwnedCode(): (s: string)
    ensures Inert(s)
  {
    var a, b, c := "const ownedNFTs = await ", "contract.getUserOwnedNFTs(", "wallet);";
    assert Inert(a) && Inert(b) && Inert(c);
    InertAppend(a, b);
    InertAppend(a + b, c);
    a + b + c
  }

  function LengthLine(): (s: string)
    ensures Sealed(Prefix, s)
  {
    CodeLine(18, LengthCode())
  }

  function LengthCode(): (s: string)
    ensures Inert(s)
  {
    var a, b := "if (ownedNFTs.length ", "> 0) {";
    assert Inert(a) && Inert(b);
    a + b
  }

  function OwnerCommentLine(): (s: string)
    ensures Sealed(Prefix, s)
  {
    CodeLine(20, OwnerCommentCode())
  }

  function OwnerCommentCode(): (s: string)
    ensures Inert(s)
  {
    var a, b, c := "// Check if the user is the ", "owner of the first NFT ", "they own";
    assert Inert(a) && Inert(b) && Inert(c);
    InertAppend(a, b);
    InertAppend(a + b, c);
    a + b + c
  }

  function IsOwnerLine(): (s: string)
    ensures Sealed(Prefix, s)
  {
    CodeLine(20, IsOwnerCode())
  }

  function IsOwnerCode(): (s: string)
    ensures Inert(s)
  {
    var a, b, c := "const isOwner = await ", "contract.isowner(wallet, ", "ownedNFTs[0]);";
    assert Inert(a) && Inert(b) && Inert(c);
    InertAppend(a, b);
    InertAppend(a + b, c);
    a + b + c
  }

  function OwnerTestLine(): (s: string)
    ensures Sealed(Prefix, s)
  {
    CodeLine(20, "if (isOwner) {")
  }

  function StartLine(): (s: string)
    ensures Sealed(Prefix, s)
  {
    CodeLine(22, StartCode())
  }

  function StartCode(): (s: string)
    ensures Inert(s)
  {
    var a, b := "this.scene.start(\"", "\");";
    assert Inert(a) && Inert(b);
    PlayKeyInert();
    InertAppend(a, PlayKey);
    InertAppend(a + PlayKey, b);
    a + PlayKey + b
  }

  /** `console.log('…');` for a message without '$' and 'B'. */
  function LogCode(message: string): (s: string)
    requires Inert(message)
    ensures Inert(s)
  {
    var a, b := "console.log('", "');";
    assert Inert(a) && Inert(b);
    InertAppend(a, message);
    InertAppend(a + message, b);
    a + message + b
  }

  function NotOwnerLine(): (s: string)
    ensures Sealed(Prefix, s)
  {
    CodeLine(22, LogCode(NotOwnerMessage()))
  }

  function NoNftsLine(): (s: string)
    ensures Sealed(Prefix, s)
  {
    CodeLine(20, LogCode(NoNftsMessage()))
  }

  function CatchLine(): (s: string)
    ensures Sealed(Prefix, s)
  {
    CodeLine(16, "} catch (error) {")
  }

  function ErrorLine(): (s: string)
    ensures Sealed(Prefix, s)
  {
    CodeLine(18, ErrorCode())
  }

  function ErrorCode(): (s: string)
    ensures Inert(s)
  {
    var a, b := "console.error('", "', error);";
    assert Inert(a) && Inert(b);
    InertAppend(a, OwnershipErrorLabel());
    InertAppend(a + OwnershipErrorLabel(), b);
    a + OwnershipErrorLabel() + b
  }

  function NotConnectedLine(): (s: string)
    ensures Sealed(Prefix, s)
  {
    CodeLine(16, LogCode(NotConnectedMessage()))
  }

  function ElseLine(n: nat): (s: string)
    ensures Sealed(Prefix, s)
  {
    CodeLine(n, "} else {")
  }

  function CloseLine(n: nat): (s: string)
    ensures Sealed(Prefix, s)
  {
    CodeLine(n, "}")
  }

  function EndLine(): (s: string)
    ensures Sealed(Prefix, s)
  {
    CodeLine(12, "});")
  }

  lemma PlayKeyInert()
    ensures Inert(PlayKey)
  {
  }

  /** The lines of the replacement text of the route, in order: the opening
      of the handler, the wallet test and the `try` that builds the provider,
      the signer and the contract; the query for the wallet's tokens and the
      test that it has one; the ownership test of the first token, which
      starts the play scene only when `isowner` holds; the branches for a
      wallet without tokens, for a failing ledger call and for a falsy
      `wallet`; the close of the handler. The template starts the text on a
      new line and ends it with the indentation of the line it replaced. */
  function RepLine(i: nat): (s: string)
    requires i < 30
    ensures Sealed(Prefix, s)
    ensures i == 0 ==> SafeLead(Prefix, s)
  {
    if i < 10 then ConnectLine(i) else if i < 20 then OwnershipLine(i - 10) else FallbackLine(i - 20)
  }

  function ConnectLine(i: nat): (s: string)
    requires i < 10
    ensures Sealed(Prefix, s)
    ensures i == 0 ==> SafeLead(Prefix, s)
  {
    match i
    case 0 => Blank()
    case 1 => OpenLine()
    case 2 => WalletTestLine()
    case 3 => TryLine()
    case 4 => ProviderLine()
    case 5 => SignerLine()
    case 6 => ContractLine()
    case 7 => EmptyLine()
    case 8 => OwnedCommentLine()
    case _ => OwnedLine()
  }

  function OwnershipLine(i: nat): (s: string)
    requires i < 10
    ensures Sealed(Prefix, s)
  {
    match i
    case 0 => EmptyLine()
    case 1 => LengthLine()
    case 2 => OwnerCommentLine()
    case 3 => IsOwnerLine()
    case 4 => OwnerTestLine()
    case 5 => StartLine()
    case 6 => ElseLine(20)
    case 7 => NotOwnerLine()
    case 8 => CloseLine(20)
    case _ => ElseLine(18)
  }

  function FallbackLine(i: nat): (s: string)
    requires i < 10
    ensures Sealed(Prefix, s)
  {
    match i
    case 0 => NoNftsLine()
    case 1 => CloseLine(18)
    case 2 => CatchLine()
    case 3 => ErrorLine()
    case 4 => CloseLine(16)
    case 5 => ElseLine(14)
    case 6 => NotConnectedLine()
    case 7 => CloseLine(14)
    case 8 => EndLine()
    case _ => Indent(12)
  }

  /** The replacement text of the route: a constant, built from nothing in the
      request. */
  function OwnershipReplacement(): string
  {
    Concat(seq(30, i => if 0 <= i < 30 then RepLine(i) else ""))
  }

  /** No match can start inside the replacement, and its first character
      cannot join the text before it into one. */
  lemma OwnershipReplacementSealed()
    ensures Sealed(Prefix, OwnershipReplacement()) && SafeLead(Prefix, OwnershipReplacement())
  {
    var lines := seq(30, i => if 0 <= i < 30 then RepLine(i) else "");
    assert forall i :: 0 <= i < 30 ==> Sealed(Prefix, lines[i]);
    ConcatSealed(Prefix, lines);
    ConcatSafeLead(Prefix, lines);
  }

  function LogStart(): (s: string) ensures '}' !in s { "\nconsole.log(\"Mainmenu.ts " }
  function LogMiddle(): (s: string) ensures '}' !in s { "modified with NFT ownership " }

  /** What follows the rewritten text: the template's last line break and
      indentation, then the appended log line. */
  function Trailer(): (s: string)
    ensures '}' !in s && |s| > 0 && s[0] == '\n'
  {
    "\n" + Spaces(8) + LogStart() + LogMiddle() + "check\");"
  }

  /** A rewritten text framed by a header and a trailer, for a replacement
      rep. */
  function Framed(header: string, text: string, rep: string, trailer: string): string
  {
    header + ReplaceAll(Prefix, text, rep) + trailer
  }

  lemma FramedUnmatched(header: string, text: string, rep: string, trailer: string)
    requires NoMatch(Prefix, text)
    ensures Framed(header, text, rep, trailer) == header + text + trailer
  {
    ReplaceAllNoMatch(Prefix, text, rep);
  }

  lemma FramedSingle(header: string, text: string, rep: string, trailer: string)
    requires MatchCount(Prefix, text) == 1
    ensures FindFrom(Prefix, text, 0).Some?
    ensures Framed(header, text, rep, trailer)
         == header + text[..FindFrom(Prefix, text, 0).value.at] + rep
            + text[FindFrom(Prefix, text, 0).value.at + FindFrom(Prefix, text, 0).value.len..] + trailer
  {
    SingleMatchRewrite(Prefix, text, rep);
  }

  /** The entry file's new contents: header, every handler match replaced,
      trailer. */
  function Output(text: string): string
  {
    Framed(Header(), text, OwnershipReplacement(), Trailer())
  }

  /** No match is left anywhere in the published entry file. */
  lemma OutputLeavesNoMatch(text: string)
    ensures NoMatch(Prefix, Output(text))
  {
    PrefixFacts();
    ClosingFacts();
    HeaderSealed();
    OwnershipReplacementSealed();
    FramedNoMatch(Prefix, Header(), text, OwnershipReplacement(), Trailer());
  }

  /** A text with no match is only wrapped in the header and the trailer. */
  lemma OutputUnmatched(text: string)
    requires NoMatch(Prefix, text)
    ensures Output(text) == Header() + text + Trailer()
  {
    FramedUnmatched(Header(), text, OwnershipReplacement(), Trailer());
  }

  /** With exactly one match, the output swaps that one handler for the
      replacement and keeps the text around it. */
  lemma OutputSingle(text: string)
    requires MatchCount(Prefix, text) == 1
    ensures FindFrom(Prefix, text, 0).Some?
    ensures Output(text)
         == Header() + text[..FindFrom(Prefix, text, 0).value.at] + OwnershipReplacement()
            + text[FindFrom(Prefix, text, 0).value.at + FindFrom(Prefix, text, 0).value.len..] + Trailer()
  {
    FramedSingle(Header(), text, OwnershipReplacement(), Trailer());
  }

  /** The route when every file operation succeeds. The request body is only
      logged. */
  function PublishGame(src: Source, dest: Dest, body: Body): Dest
    requires WellFormed(src)
  {
    Tree.Publish(src, dest, Output)
  }

  /** The published tree: the entry file rewritten, every other scene file and
      every regular top-level file other than `scenes` copied unchanged under
      its own name, and every other destination file left alone. */
  lemma PublishedGameTree(src: Source, dest: Dest, body: Body)
    requires WellFormed(src)
    ensures var r := PublishGame(src, dest, body);
      && (forall f :: f in r.scenes <==> f in dest.scenes || f in src.scenes)
      && (EntryName in src.scenes ==> r.scenes[EntryName] == Output(src.scenes[EntryName]))
      && (forall f :: f in src.scenes && f != EntryName ==> r.scenes[f] == src.scenes[f])
      && (forall f :: f in dest.scenes && f !in src.scenes ==> r.scenes[f] == dest.scenes[f])
      && (forall f :: f in r.root <==> f in dest.root || Copied(f, src.top))
      && (forall f :: Copied(f, src.top) ==> r.root[f] == src.top[f].text)
      && (forall f :: f in dest.root && !Copied(f, src.top) ==> r.root[f] == dest.root[f])
      && ScenesName !in r.root - dest.root.Keys
  {
    Tree.PublishSpec(src, dest, Output);
  }

  /** Neither the title, the buttons nor the wallet of the request reaches the
      published tree. */
  lemma BodyUnused(src: Source, dest: Dest, b1: Body, b2: Body)
    requires WellFormed(src)
    ensures PublishGame(src, dest, b1) == PublishGame(src, dest, b2)
  {
  }

  /** What the ledger answers the generated gate: whether a provider can be
      built from `window.ethereum`, the tokens `getUserOwnedNFTs` lists for an
      address, and what `isowner` says of an address and a token; each call
      may fail instead. */
  datatype Ledger = Ledger(
    provider: Result<(), string>,
    ownedNFTs: string -> Result<seq<nat>, string>,
    isOwner: (string, nat) -> Result<bool, string>)

  /** What a click on the generated play button does, for the value `wallet`
      has where the handler runs. A failing ledger call is caught and logged. */
  function OwnershipGate(wallet: JsValue, ledger: Ledger): (e: Effect)
    ensures e.Start? <==>
      && Truthy(wallet) && ledger.provider.Ok?
      && ledger.ownedNFTs(wallet.s).Ok? && |ledger.ownedNFTs(wallet.s).value| > 0
      && ledger.isOwner(wallet.s, ledger.ownedNFTs(wallet.s).value[0]) == Ok(true)
    ensures e.Start? ==> e.key == PlayKey
    ensures !Truthy(wallet) <==> e == Log(NotConnectedMessage())
    ensures e.LogError? ==> e.prefix == OwnershipErrorLabel()
    ensures !e.Throw?
  {
    if !Truthy(wallet) then Log(NotConnectedMessage())
    else if ledger.provider.Err? then LogError(OwnershipErrorLabel(), ledger.provider.error)
    else
      match ledger.ownedNFTs(wallet.s)
      case Err(err) => LogError(OwnershipErrorLabel(), err)
      case Ok(ids) =>
        if |ids| == 0 then Log(NoNftsMessage())
        else
          match ledger.isOwner(wallet.s, ids[0])
          case Err(err) => LogError(OwnershipErrorLabel(), err)
          case Ok(owner) => if owner then Start(PlayKey) else Log(NotOwnerMessage())
  }

  /** A ledger call that fails on the way is reported with its error and
      never starts the play scene. */
  lemma OwnershipGateErrors(w: string, ledger: Ledger)
    requires |w| > 0
    ensures ledger.provider.Err? ==>
      OwnershipGate(Text(w), ledger) == LogError(OwnershipErrorLabel(), ledger.provider.error)
    ensures ledger.provider.Ok? && ledger.ownedNFTs(w).Err? ==>
      OwnershipGate(Text(w), ledger) == LogError(OwnershipErrorLabel(), ledger.ownedNFTs(w).error)
    ensures ledger.provider.Ok? && ledger.ownedNFTs(w).Ok? && |ledger.ownedNFTs(w).value| > 0
            && ledger.isOwner(w, ledger.ownedNFTs(w).value[0]).Err? ==>
      OwnershipGate(Text(w), ledger) == LogError(OwnershipErrorLabel(), ledger.isOwner(w, ledger.ownedNFTs(w).value[0]).error)
  {
  }

  /** Only the first owned token is asked about: a ledger that agrees on the
      provider, on the owned tokens and on the first of them decides the same. */
  lemma OwnershipGateFirstTokenOnly(w: string, l1: Ledger, l2: Ledger)
    requires l1.provider == l2.provider && l1.ownedNFTs(w) == l2.ownedNFTs(w)
    requires l1.ownedNFTs(w).Ok? && |l1.ownedNFTs(w).value| > 0 ==>
      l1.isOwner(w, l1.ownedNFTs(w).value[0]) == l2.isOwner(w, l1.ownedNFTs(w).value[0])
    ensures OwnershipGate(Text(w), l1) == OwnershipGate(Text(w), l2)
  {
  }

  /** The ethers API a module runs against. The project's own pages use v6
      (`ethers.BrowserProvider`, `ethers.formatEther`); the generated gate
      builds its provider with v5's `ethers.providers.Web3Provider`. */
  datatype EthersApi = EthersV5 | EthersV6

  /** The outcome of the gate's `new ethers.providers.Web3Provider(...)` and
      `provider.getSigner()`, given the outcome of building a provider from
      `window.ethereum` where the API offers that constructor. Under v6
      `ethers.providers` is `undefined`, and reading `Web3Provider` from it
      throws a TypeError. */
  function WrittenProvider(api: EthersApi, built: Result<(), string>): Result<(), string>
  {
    match api
    case EthersV5 => built
    case EthersV6 => Err("TypeError")
  }

  /** As written, under the v6 API the gate never starts the play scene:
      with a wallet, every click logs the TypeError as an ownership error,
      whatever the ledger would have answered. */
  lemma WrittenProviderNeverStarts(wallet: JsValue, ledger: Ledger)
    ensures var e := OwnershipGate(wallet, ledger.(provider := WrittenProvider(EthersV6, ledger.provider)));
      && !e.Start?
      && (Truthy(wallet) ==> e == LogError(OwnershipErrorLabel(), "TypeError"))
  {
  }

  /** Under v5 the written constructor is as good as v6's
      `new ethers.BrowserProvider(window.ethereum)`: the gate is OwnershipGate
      with the ledger's own provider outcome. */
  lemma WrittenProviderUnderV5(wallet: JsValue, ledger: Ledger)
    ensures OwnershipGate(wallet, ledger.(provider := WrittenProvider(EthersV5, ledger.provider)))
         == OwnershipGate(wallet, ledger)
  {
    assert ledger.(provider := ledger.provider) == ledger;
  }

  /** Where the generated handler runs, `wallet` is either a variable in
      scope, holding some value, or not declared at all. */
  datatype Binding = Unbound | Bound(value: JsValue)

  /** A click on the generated play button as the route writes it. Its
      `if (wallet)` test sits outside the `try`, and neither the generated
      header nor the handler declares `wallet`, so without a binding from
      elsewhere the read throws a ReferenceError, which rejects the async
      handler instead of logging. */
  function WrittenGate(wallet: Binding, ledger: Ledger): (e: Effect)
    ensures wallet.Unbound? <==> e.Throw?
    ensures e.Throw? ==> e.error == "ReferenceError"
    ensures wallet.Bound? ==> e == OwnershipGate(wallet.value, ledger)
  {
    match wallet
    case Unbound => Throw("ReferenceError")
    case Bound(v) => OwnershipGate(v, ledger)
  }

  /** Unbound, the written gate does what no value of `wallet` makes it do:
      it neither logs 'Wallet not connected' nor asks the ledger. */
  lemma WrittenGateUnbound(ledger: Ledger, v: JsValue)
    ensures WrittenGate(Unbound, ledger) != OwnershipGate(v, ledger)
    ensures WrittenGate(Unbound, ledger) != Log(NotConnectedMessage())
  {
  }

  /** The gate with the binding the save-main-menu route writes in front of
      its own handler, `const wallet = "${wallet}"`: `wallet` is then the
      request's wallet as text, so a click never throws. A missing request
      wallet becomes the truthy text `undefined`, and only an empty one logs
      'Wallet not connected'. */
  function InterpolatedGate(requestWallet: JsValue, ledger: Ledger): (e: Effect)
    ensures e == WrittenGate(Bound(Text(Interpolate(requestWallet))), ledger)
    ensures !e.Throw?
    ensures e == Log(NotConnectedMessage()) <==> requestWallet == Text("")
    ensures e.Start? <==>
      && requestWallet != Text("") && ledger.provider.Ok?
      && ledger.ownedNFTs(Interpolate(requestWallet)).Ok?
      && |ledger.ownedNFTs(Interpolate(requestWallet)).value| > 0
      && ledger.isOwner(Interpolate(requestWallet), ledger.ownedNFTs(Interpolate(requestWallet)).value[0]) == Ok(true)
  {
    OwnershipGate(Text(Interpolate(requestWallet)), ledger)
  }
}
