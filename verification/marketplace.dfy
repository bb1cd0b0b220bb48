/** The marketplace page: the listings it assembles from the contract and
    the metadata of each token, and the approve-then-buy flow. Contract
    answers and metadata fetches are inputs. */
module Marketplace {
  import opened Base
  import opened Text
  import opened Listings

  /** The marketplace contract the payment token approves. */
  const MarketAddress: string := "0x28045BAF8af06cdc5cd0caBe15BE4520012D8198"

  /** The i-th comma-separated piece of the first URI string, `undefined`
      past the last piece. */
  function Segment(pieces: seq<string>, i: nat): (v: JsValue)
    ensures i < |pieces| <==> v.Text?
    ensures i < |pieces| ==> v.s == pieces[i]
  {
    if i < |pieces| then Text(pieces[i]) else Undefined
  }

  /** `metadata.creator || 'Unknown'`. */
  function CreatorOr(m: Metadata): (c: string)
    ensures Truthy(m.creator) ==> c == m.creator.s
    ensures !Truthy(m.creator) ==> c == "Unknown"
    ensures |c| > 0
  {
    if Truthy(m.creator) then m.creator.s else "Unknown"
  }

  /** The card of token id with the metadata m and price p. */
  function MarketCard(id: nat, m: Metadata, p: nat): (l: Listing)
    ensures l.creator == CreatorOr(m) && l.title == m.name && l.price == p
  {
    Card(id, m, p, CreatorOr(m))
  }

  /** Every token's metadata, looked up at its URI piece, parses. */
  predicate MetadataOk(ids: seq<nat>, pieces: seq<string>, metadata: JsValue -> Result<Metadata, string>)
  {
    forall i :: 0 <= i < |ids| ==> metadata(Segment(pieces, i)).Ok?
  }

  /** `fetchNFTs`: `getAllTokenURIs` answers uris, of which only the first
      string is read, split at commas; the i-th token ID is paired with the
      i-th piece. metadata is what a URI serves (an error when the fetch or
      its JSON fails) and prices answers `nftPrices`. None is a fetch that
      threw, after which the page keeps the listings it had: an empty URI
      array, or any token whose metadata fails. The ensures spell the result
      out case by case; FetchPairsByIndex says what the pairing means. */
  function Fetch(ids: seq<nat>, uris: seq<string>, metadata: JsValue -> Result<Metadata, string>,
                 prices: nat -> nat): (r: Option<seq<Listing>>)
    ensures r.Some? <==> |uris| > 0 && MetadataOk(ids, Split(uris[0], ','), metadata)
    ensures r.Some? ==> |r.value| == |ids| && forall i :: 0 <= i < |ids| ==>
      r.value[i] == MarketCard(ids[i], metadata(Segment(Split(uris[0], ','), i)).value, prices(ids[i]))
  {
    if |uris| == 0 then None
    else
      var pieces := Split(uris[0], ',');
      if MetadataOk(ids, pieces, metadata) then
        Some(seq(|ids|, i requires 0 <= i < |ids| => MarketCard(ids[i], metadata(Segment(pieces, i)).value, prices(ids[i]))))
      else None
  }

  /** When the contract's first URI string is the comma-join of one URI per
      token, none with a comma of its own, the i-th card comes from the i-th
      URI. */
  lemma FetchPairsByIndex(ids: seq<nat>, tokenUris: seq<string>, rest: seq<string>,
                          metadata: JsValue -> Result<Metadata, string>, prices: nat -> nat)
    requires |tokenUris| == |ids| && |ids| > 0
    requires forall i :: 0 <= i < |tokenUris| ==> ',' !in tokenUris[i]
    requires forall i :: 0 <= i < |ids| ==> metadata(Text(tokenUris[i])).Ok?
    ensures Fetch(ids, [Join(tokenUris, ',')] + rest, metadata, prices).Some?
    ensures forall i :: 0 <= i < |ids| ==>
      Fetch(ids, [Join(tokenUris, ',')] + rest, metadata, prices).value[i]
        == MarketCard(ids[i], metadata(Text(tokenUris[i])).value, prices(ids[i]))
  {
    var uris := [Join(tokenUris, ',')] + rest;
    SplitJoin(tokenUris, ',');
    assert Split(uris[0], ',') == tokenUris;
    forall i | 0 <= i < |ids| ensures Segment(tokenUris, i) == Text(tokenUris[i]) {
    }
    assert MetadataOk(ids, tokenUris, metadata);
  }

  /** Fewer URI pieces than tokens: the fetch of the missing URI is asked
      for `undefined`; unless that succeeds the page keeps its listings. */
  lemma MissingUriFails(ids: seq<nat>, uris: seq<string>, metadata: JsValue -> Result<Metadata, string>,
                        prices: nat -> nat)
    requires |uris| > 0 && |Split(uris[0], ',')| < |ids|
    requires metadata(Undefined).Err?
    ensures Fetch(ids, uris, metadata, prices).None?
  {
    var k := |Split(uris[0], ',')|;
    assert !metadata(Segment(Split(uris[0], ','), k)).Ok?;
  }

  /** The contract calls a buy issues, in order. */
  datatype Call = Approve(spender: string, amount: nat) | BuyToken(tokenId: nat, value: nat)

  /** `buyNFT`: nothing without both contracts; otherwise an approval of
      exactly the price when the allowance falls short of it, then the buy.
      price and allowance are the contract's answers; a call that fails
      ends the flow and is not part of this model. */
  function Buy(hasContract: bool, hasPaymentToken: bool, tokenId: nat, price: nat, allowance: nat): (calls: seq<Call>)
    ensures !(hasContract && hasPaymentToken) <==> calls == []
    ensures calls != [] ==> calls[|calls| - 1] == BuyToken(tokenId, 0)
    ensures calls != [] ==> (calls[0].Approve? <==> allowance < price)
    ensures calls != [] && calls[0].Approve? ==> calls[0] == Approve(MarketAddress, price) && |calls| == 2
    ensures calls != [] && !calls[0].Approve? ==> |calls| == 1
  {
    if !(hasContract && hasPaymentToken) then []
    else if allowance < price then [Approve(MarketAddress, price), BuyToken(tokenId, 0)]
    else [BuyToken(tokenId, 0)]
  }

  /** The allowance the payment token grants the marketplace after the
      calls: an approval sets it to its amount. */
  function AllowanceAfter(allowance: nat, calls: seq<Call>): nat
    decreases |calls|
  {
    if |calls| == 0 then allowance
    else AllowanceAfter(if calls[0].Approve? && calls[0].spender == MarketAddress then calls[0].amount else allowance, calls[1..])
  }

  /** When the buy goes out, the marketplace may draw at least the price. */
  lemma BuyCovered(hasContract: bool, hasPaymentToken: bool, tokenId: nat, price: nat, allowance: nat)
    requires hasContract && hasPaymentToken
    ensures var calls := Buy(hasContract, hasPaymentToken, tokenId, price, allowance);
      AllowanceAfter(allowance, calls[..|calls| - 1]) >= price
  {
    var calls := Buy(hasContract, hasPaymentToken, tokenId, price, allowance);
    if allowance < price {
      assert calls[..|calls| - 1] == [Approve(MarketAddress, price)];
    } else {
      assert calls[..|calls| - 1] == [];
    }
  }
}

/** The "my NFTs" page: every minted token with its own URI and price, the
    fixed creator it shows, the buy flow that pays the price, and the choice
    between the buy button and the ownership note. */
module MyNfts {
  import opened Base
  import opened Text
  import opened Listings
  import Marketplace

  /** The creator every card of this page names. */
  const FixedCreator: string := "0xujnf"

  /** `fetchNFTs`: each token's URI from `tokenURI`, its metadata, its
      price; the `isowner` answer is only logged. None is a fetch that
      threw. */
  function FetchMinted(ids: seq<nat>, uriOf: nat -> string, metadata: JsValue -> Result<Metadata, string>,
                 prices: nat -> nat): (r: Option<seq<Listing>>)
    ensures r.Some? <==> forall i :: 0 <= i < |ids| ==> metadata(Text(uriOf(ids[i]))).Ok?
    ensures r.Some? ==> |r.value| == |ids| && forall i :: 0 <= i < |ids| ==>
      r.value[i] == Card(ids[i], metadata(Text(uriOf(ids[i]))).value, prices(ids[i]), FixedCreator)
  {
    if forall i :: 0 <= i < |ids| ==> metadata(Text(uriOf(ids[i]))).Ok? then
      Some(seq(|ids|, i requires 0 <= i < |ids| =>
        Card(ids[i], metadata(Text(uriOf(ids[i]))).value, prices(ids[i]), FixedCreator)))
    else None
  }

  /** `buyNFT`: nothing without a contract; otherwise one buy paying exactly
      the price the contract asks. */
  function BuyListed(hasContract: bool, tokenId: nat, price: nat): (calls: seq<Marketplace.Call>)
    ensures !hasContract <==> calls == []
    ensures hasContract ==> calls == [Marketplace.BuyToken(tokenId, price)]
  {
    if hasContract then [Marketplace.BuyToken(tokenId, price)] else []
  }

  /** The buy button of a card from a successful fetch, with prices as they
      were at the fetch, buys the token the card names and pays the price
      the card shows. */
  lemma BuyPaysShownPrice(ids: seq<nat>, uriOf: nat -> string, metadata: JsValue -> Result<Metadata, string>,
                          prices: nat -> nat, i: nat)
    requires FetchMinted(ids, uriOf, metadata, prices).Some? && i < |ids|
    ensures var card := FetchMinted(ids, uriOf, metadata, prices).value[i];
      && ParseDecimal(card.id) == ids[i]
      && BuyListed(true, ParseDecimal(card.id), prices(ParseDecimal(card.id)))
         == [Marketplace.BuyToken(ids[i], card.price)]
  {
  }

  /** What a card offers: the buy button, or the note that the account owns
      the token. */
  datatype Offer = BuyNow | Owned

  /** `account?.toLowerCase()` of a missing account is `undefined`, which no
      lower-cased creator equals. */
  predicate OwnedBy(creator: string, account: JsValue)
  {
    account.Text? && Lower(creator) == Lower(account.s)
  }

  function CardOffer(l: Listing, account: JsValue): (o: Offer)
    ensures o == Owned <==> OwnedBy(l.creator, account)
    ensures !account.Text? ==> o == BuyNow
  {
    if OwnedBy(l.creator, account) then Owned else BuyNow
  }

  /** A connected account is a 42-character address, which never matches
      the fixed creator: every card of the page offers the buy button. */
  lemma AlwaysBuyNow(ids: seq<nat>, uriOf: nat -> string, metadata: JsValue -> Result<Metadata, string>,
                     prices: nat -> nat, account: string)
    requires FetchMinted(ids, uriOf, metadata, prices).Some?
    requires |account| == 42
    ensures forall l :: l in FetchMinted(ids, uriOf, metadata, prices).value ==> CardOffer(l, Text(account)) == BuyNow
  {
    forall l | l in FetchMinted(ids, uriOf, metadata, prices).value
      ensures CardOffer(l, Text(account)) == BuyNow
    {
      assert |Lower(l.creator)| == 6;
    }
  }
}
