/** The listing cards both marketplace pages show, the search filter and the
    sort they apply before rendering. */
module Listings {
  import opened Base
  import opened Text

  datatype Attribute = Attribute(traitType: string, value: string)

  /** One card: the token ID as text, the metadata's name, description and
      image, the price in wei, the creator, and the attributes. The price is
      kept as the wei amount `formatEther` renders; the rendering is not
      part of this model. */
  datatype Listing = Listing(
    id: string, title: string, description: string, image: string,
    price: nat, creator: string, attributes: seq<Attribute>)

  /** The token metadata a URI serves: `creator` as whatever JSON holds
      (missing, `null`, or a string), `attributes` when present. */
  datatype Metadata = Metadata(
    name: string, description: string, image: string,
    creator: JsValue, attributes: Option<seq<Attribute>>)

  /** The filter test: the lower-cased title or creator contains the
      lower-cased search term. */
  predicate Keeps(term: string, l: Listing)
  {
    Includes(Lower(l.title), Lower(term)) || Includes(Lower(l.creator), Lower(term))
  }

  /** `nfts.filter(...)`: the listings the test keeps, in their order. */
  function Filter(ls: seq<Listing>, term: string): (r: seq<Listing>)
    decreases |ls|
    ensures |r| <= |ls|
    ensures forall l :: l in r <==> l in ls && Keeps(term, l)
    ensures forall l :: multiset(r)[l] == if Keeps(term, l) then multiset(ls)[l] else 0
  {
    if |ls| == 0 then []
    else
      assert ls == [ls[0]] + ls[1..];
      if Keeps(term, ls[0]) then [ls[0]] + Filter(ls[1..], term)
      else Filter(ls[1..], term)
  }

  /** r lists some of the elements of s, in s's order. */
  predicate Subsequence<T(==)>(r: seq<T>, s: seq<T>)
    decreases |s|
  {
    if |r| == 0 then true
    else if |s| == 0 then false
    else if r[0] == s[0] then Subsequence(r[1..], s[1..])
    else Subsequence(r, s[1..])
  }

  /** The filter keeps the order of the listings it keeps. */
  lemma {:induction false} FilterInOrder(ls: seq<Listing>, term: string)
    ensures Subsequence(Filter(ls, term), ls)
    decreases |ls|
  {
    if |ls| > 0 {
      FilterInOrder(ls[1..], term);
      if !Keeps(term, ls[0]) {
        SubsequenceSkip(Filter(ls[1..], term), ls[0], ls[1..]);
      }
    }
  }

  lemma {:induction false} SubsequenceSkip<T>(r: seq<T>, x: T, s: seq<T>)
    requires Subsequence(r, s)
    ensures Subsequence(r, [x] + s)
    decreases |s|, 1
  {
    if |r| > 0 && r[0] == x {
      assert ([x] + s)[1..] == s;
      SubsequenceDrop(r, s);
    } else if |r| > 0 {
      assert ([x] + s)[1..] == s;
    }
  }

  lemma {:induction false} SubsequenceDrop<T>(r: seq<T>, s: seq<T>)
    requires |r| > 0 && Subsequence(r, s)
    ensures Subsequence(r[1..], s)
    decreases |s|, 0
  {
    if |s| > 0 {
      if r[0] == s[0] {
        SubsequenceSkip(r[1..], s[0], s[1..]);
        assert [s[0]] + s[1..] == s;
      } else {
        SubsequenceDrop(r, s[1..]);
        SubsequenceSkip(r[1..], s[0], s[1..]);
        assert [s[0]] + s[1..] == s;
      }
    }
  }

  /** An empty search term keeps every listing. */
  lemma {:induction false} EmptyTermKeepsAll(ls: seq<Listing>)
    ensures Filter(ls, "") == ls
    decreases |ls|
  {
    if |ls| > 0 {
      IncludesEmpty(Lower(ls[0].title));
      EmptyTermKeepsAll(ls[1..]);
    }
  }

  /** The search ignores the case of the term. */
  lemma {:induction false} FilterIgnoresTermCase(ls: seq<Listing>, term: string)
    ensures Filter(ls, term) == Filter(ls, Lower(term))
    decreases |ls|
  {
    LowerIsLower(term);
    if |ls| > 0 {
      FilterIgnoresTermCase(ls[1..], term);
    }
  }

  /** The sort order the dropdown selects: by price (the default), or by
      name. `localeCompare` is not part of this model; the name order is
      given as a rank of each title, smaller first. */
  datatype SortBy = ByPrice | ByName

  function Key(l: Listing, order: SortBy, titleRank: string -> int): int
  {
    match order
    case ByPrice => l.price
    case ByName => titleRank(l.title)
  }

  predicate SortedBy(ls: seq<Listing>, order: SortBy, titleRank: string -> int)
  {
    forall i, j :: 0 <= i < j < |ls| ==> Key(ls[i], order, titleRank) <= Key(ls[j], order, titleRank)
  }

  /** x put into a sorted list before the first listing whose key is not
      smaller. */
  function Insert(x: Listing, s: seq<Listing>, order: SortBy, titleRank: string -> int): (r: seq<Listing>)
    decreases |s|
    ensures multiset(r) == multiset(s) + multiset{x}
    ensures |r| == |s| + 1
  {
    if |s| == 0 || Key(x, order, titleRank) <= Key(s[0], order, titleRank) then [x] + s
    else
      assert s == [s[0]] + s[1..];
      [s[0]] + Insert(x, s[1..], order, titleRank)
  }

  /** `.sort(...)`: a stable sort by the selected key. */
  function Sort(ls: seq<Listing>, order: SortBy, titleRank: string -> int): (r: seq<Listing>)
    decreases |ls|
    ensures multiset(r) == multiset(ls)
    ensures |r| == |ls|
  {
    if |ls| == 0 then []
    else
      assert ls == [ls[0]] + ls[1..];
      Insert(ls[0], Sort(ls[1..], order, titleRank), order, titleRank)
  }

  /** A bound below x and every listing of s is a bound below every listing
      of the insertion. */
  lemma {:induction false} InsertBounded(x: Listing, s: seq<Listing>, order: SortBy, titleRank: string -> int, b: int)
    requires b <= Key(x, order, titleRank)
    requires forall i :: 0 <= i < |s| ==> b <= Key(s[i], order, titleRank)
    ensures forall i :: 0 <= i < |Insert(x, s, order, titleRank)| ==> b <= Key(Insert(x, s, order, titleRank)[i], order, titleRank)
    decreases |s|
  {
    if |s| > 0 && Key(x, order, titleRank) > Key(s[0], order, titleRank) {
      InsertBounded(x, s[1..], order, titleRank, b);
    }
  }

  lemma {:induction false} InsertSorted(x: Listing, s: seq<Listing>, order: SortBy, titleRank: string -> int)
    requires SortedBy(s, order, titleRank)
    ensures SortedBy(Insert(x, s, order, titleRank), order, titleRank)
    decreases |s|
  {
    if |s| > 0 && Key(x, order, titleRank) > Key(s[0], order, titleRank) {
      var rest := Insert(x, s[1..], order, titleRank);
      assert SortedBy(s[1..], order, titleRank);
      InsertSorted(x, s[1..], order, titleRank);
      InsertBounded(x, s[1..], order, titleRank, Key(s[0], order, titleRank));
      var r := [s[0]] + rest;
      forall i, j | 0 <= i < j < |r| ensures Key(r[i], order, titleRank) <= Key(r[j], order, titleRank) {
        if i == 0 {
          assert r[j] == rest[j - 1];
        } else {
          assert r[i] == rest[i - 1] && r[j] == rest[j - 1];
        }
      }
    }
  }

  /** The sort's result is in order of the selected key. */
  lemma {:induction false} SortSorted(ls: seq<Listing>, order: SortBy, titleRank: string -> int)
    ensures SortedBy(Sort(ls, order, titleRank), order, titleRank)
    decreases |ls|
  {
    if |ls| > 0 {
      SortSorted(ls[1..], order, titleRank);
      InsertSorted(ls[0], Sort(ls[1..], order, titleRank), order, titleRank);
    }
  }

  /** The listings with key k, in their order. */
  function WithKey(ls: seq<Listing>, k: int, order: SortBy, titleRank: string -> int): seq<Listing>
    decreases |ls|
  {
    if |ls| == 0 then []
    else (if Key(ls[0], order, titleRank) == k then [ls[0]] else []) + WithKey(ls[1..], k, order, titleRank)
  }

  lemma {:induction false} InsertWithKey(x: Listing, s: seq<Listing>, k: int, order: SortBy, titleRank: string -> int)
    requires SortedBy(s, order, titleRank)
    ensures WithKey(Insert(x, s, order, titleRank), k, order, titleRank)
         == (if Key(x, order, titleRank) == k then [x] else []) + WithKey(s, k, order, titleRank)
    decreases |s|
  {
    var kx := Key(x, order, titleRank);
    if |s| == 0 || kx <= Key(s[0], order, titleRank) {
      assert ([x] + s)[1..] == s;
    } else {
      assert SortedBy(s[1..], order, titleRank);
      InsertWithKey(x, s[1..], k, order, titleRank);
      var r := [s[0]] + Insert(x, s[1..], order, titleRank);
      assert r[1..] == Insert(x, s[1..], order, titleRank);
      if kx == k {
        assert Key(s[0], order, titleRank) != k;
      }
    }
  }

  /** The sort is stable: the listings of any one key keep their order. */
  lemma {:induction false} SortStable(ls: seq<Listing>, k: int, order: SortBy, titleRank: string -> int)
    ensures WithKey(Sort(ls, order, titleRank), k, order, titleRank) == WithKey(ls, k, order, titleRank)
    decreases |ls|
  {
    if |ls| > 0 {
      SortStable(ls[1..], k, order, titleRank);
      SortSorted(ls[1..], order, titleRank);
      InsertWithKey(ls[0], Sort(ls[1..], order, titleRank), k, order, titleRank);
    }
  }

  /** What the page renders: the filtered listings, sorted. */
  function Shown(ls: seq<Listing>, term: string, order: SortBy, titleRank: string -> int): (r: seq<Listing>)
    ensures multiset(r) == multiset(Filter(ls, term))
  {
    Sort(Filter(ls, term), order, titleRank)
  }

  /** The rendered cards are exactly the kept listings, in key order. */
  lemma ShownSpec(ls: seq<Listing>, term: string, order: SortBy, titleRank: string -> int)
    ensures forall l :: l in Shown(ls, term, order, titleRank) <==> l in ls && Keeps(term, l)
    ensures SortedBy(Shown(ls, term, order, titleRank), order, titleRank)
  {
    var f := Filter(ls, term);
    SortSorted(f, order, titleRank);
    forall l ensures l in Shown(ls, term, order, titleRank) <==> l in f {
      assert l in multiset(Shown(ls, term, order, titleRank)) <==> l in multiset(f);
    }
  }

  /** The record fields both pages take from the metadata: the token ID in
      decimal, the name, description and image, and the attributes, an
      empty list when the metadata has none. */
  function Card(tokenId: nat, m: Metadata, price: nat, creator: string): (l: Listing)
    ensures forall i :: 0 <= i < |l.id| ==> '0' <= l.id[i] <= '9'
    ensures ParseDecimal(l.id) == tokenId
    ensures l.title == m.name && l.description == m.description && l.image == m.image
    ensures l.price == price && l.creator == creator
    ensures m.attributes.None? ==> l.attributes == []
    ensures m.attributes.Some? ==> l.attributes == m.attributes.value
  {
    ParseNatToString(tokenId);
    Listing(NatToString(tokenId), m.name, m.description, m.image, price, creator,
      if m.attributes.Some? then m.attributes.value else [])
  }
}
