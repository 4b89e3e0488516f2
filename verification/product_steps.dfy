/** The catalogue step bindings: the steps that write the scratch fields
    `productId` and `stockBefore`, the checks of the `Then` steps as
    predicates over what the screen readers return, and the choice of page
    to visit after a direct post to `/cart/add`. What the browser shows is a
    parameter of each step. */
module ProductSteps {
  import opened Js
  import opened ProductsPage
  import opened ScenarioWorld

  /** The id of a product the seed data leaves out of stock. */
  const OutOfStockProductId: int := 9

  /** What the catalogue shows when a step reads it: the `data-product-id`
      attribute of the first card that has an add-to-cart button, and the
      stock text of every card. */
  datatype Catalog = Catalog(firstAvailableId: Option<string>, stock: StockTexts)

  /* ---------------------------------------------------------------- */
  /*  Scratch writes                                                   */
  /* ---------------------------------------------------------------- */

  /** "a product is out of stock": records the known id and nothing else. */
  function GivenOutOfStock(s: Scratch): (s': Scratch)
    ensures s'.productId == Some(Int(OutOfStockProductId))
    ensures s'.stockBefore == s.stockBefore && s'.signupName == s.signupName
  {
    s.(productId := Some(Int(OutOfStockProductId)))
  }

  /** "I have a product in my cart": the id of the first available card is
      read on the catalogue before the add, and the stock of that card on
      the catalogue visited again after it. */
  function GivenProductInCart(s: Scratch, beforeAdd: Catalog, afterAdd: Catalog): (s': Scratch)
    ensures s'.productId == Some(AddedProductId(beforeAdd.firstAvailableId))
    ensures s'.stockBefore == Some(StockCountForProduct(afterAdd.stock, s'.productId))
    ensures s'.signupName == s.signupName
  {
    var id := AddedProductId(beforeAdd.firstAvailableId);
    s.(productId := Some(id), stockBefore := Some(StockCountForProduct(afterAdd.stock, Some(id))))
  }

  /** "I add a product to the cart": both the id and the stock are read on
      the catalogue as it is before the click that changes the stock. */
  function WhenAddToCart(s: Scratch, beforeClick: Catalog): (s': Scratch)
    ensures s'.productId == Some(AddedProductId(beforeClick.firstAvailableId))
    ensures s'.stockBefore == Some(StockCountForProduct(beforeClick.stock, s'.productId))
    ensures s'.signupName == s.signupName
  {
    GivenProductInCart(s, beforeClick, beforeClick)
  }

  /** The `data-product-id` the remove step looks for in the cart: the
      recorded id interpolated into the selector. */
  function CartItemKey(s: Scratch): (key: string)
    ensures s.productId.None? ==> key == "undefined"
  {
    CardKey(s.productId)
  }

  /* ---------------------------------------------------------------- */
  /*  Stock checks                                                     */
  /* ---------------------------------------------------------------- */

  /** "the product stock count should decrease by 1", on the catalogue as it
      is when the check runs. Without a recorded stock the expected value is
      NaN and the check fails. */
  function StockDecreasedByOne(s: Scratch, now: Catalog): (pass: bool)
    ensures s.stockBefore.None? ==> !pass
    ensures pass ==> s.stockBefore.value > 0
    ensures s.stockBefore.Some? ==>
              (pass <==> StockCountForProduct(now.stock, s.productId) == s.stockBefore.value - 1)
  {
    match s.stockBefore
    case None => false
    case Some(before) => StockCountForProduct(now.stock, s.productId) as int == before - 1
  }

  /** "the product stock count should increase by 1". */
  function StockIncreasedByOne(s: Scratch, now: Catalog): (pass: bool)
    ensures s.stockBefore.None? ==> !pass
    ensures pass ==> StockCountForProduct(now.stock, s.productId) > 0
    ensures s.stockBefore.Some? ==>
              (pass <==> StockCountForProduct(now.stock, s.productId) == s.stockBefore.value + 1)
  {
    match s.stockBefore
    case None => false
    case Some(before) => StockCountForProduct(now.stock, s.productId) == before + 1
  }

  /** No catalogue satisfies both stock checks for the same scratch state. */
  lemma StockChecksExclusive(s: Scratch, now: Catalog)
    ensures !(StockDecreasedByOne(s, now) && StockIncreasedByOne(s, now))
  {
  }

  /** Adding a product and then checking the decrease compares the same card
      on the two catalogues: the check passes exactly when that card's stock
      went down by one between the read before the click and the check. */
  lemma AddThenDecrease(s: Scratch, beforeClick: Catalog, now: Catalog)
    ensures var key := CardKey(Some(AddedProductId(beforeClick.firstAvailableId)));
            StockDecreasedByOne(WhenAddToCart(s, beforeClick), now)
            <==> ParseStockCount(now.stock(key).GetOr("")) + 1 == ParseStockCount(beforeClick.stock(key).GetOr(""))
  {
  }

  /** When the card's attribute is the canonical rendering of its id, the
      card the checks read is the one the attribute named. */
  lemma AddThenDecreaseSameCard(s: Scratch, n: int, stockBefore: StockTexts, now: Catalog)
    ensures var attr := NumToString(Int(n));
            StockDecreasedByOne(WhenAddToCart(s, Catalog(Some(attr), stockBefore)), now)
            <==> ParseStockCount(now.stock(attr).GetOr("")) + 1 == ParseStockCount(stockBefore(attr).GetOr(""))
  {
    AddedProductIdRoundTrip(n);
  }

  /** Marking a product out of stock records no stock, so a stock check that
      follows it alone fails whatever the catalogue shows. */
  lemma OutOfStockRecordsNoStock(now: Catalog)
    ensures !StockDecreasedByOne(GivenOutOfStock(EmptyScratch), now)
    ensures !StockIncreasedByOne(GivenOutOfStock(EmptyScratch), now)
  {
  }

  /* ---------------------------------------------------------------- */
  /*  Listing checks                                                   */
  /* ---------------------------------------------------------------- */

  /** The token the search check looks for, whatever was searched. */
  const SearchToken: string := "desk"

  /** "I should see only products matching the search", over the card name
      texts: it passes exactly when there is a card and "desk" occurs at some
      position of every name once trimmed and lower-cased. */
  function SearchResultsMatch(nameTexts: seq<string>): (pass: bool)
    ensures pass <==> |nameTexts| > 0 &&
                      forall i :: 0 <= i < |nameTexts| ==>
                        Occurs(ToLower(Trim(nameTexts[i])), SearchToken)
  {
    var names := ProductNames(nameTexts);
    assert forall i :: 0 <= i < |names| ==>
             (Contains(ToLower(names[i]), SearchToken) <==> Occurs(ToLower(Trim(nameTexts[i])), SearchToken)) by {
      forall i | 0 <= i < |names| {
        ContainsIffOccurs(ToLower(names[i]), SearchToken);
      }
    }
    |names| > 0 && forall i :: 0 <= i < |names| ==> Contains(ToLower(names[i]), SearchToken)
  }

  /** The check does not depend on the query: a listing with any name
      that has no letter "d" in either case fails it, whatever was searched
      (a search for "chair" that finds exactly the chairs, say), and an empty
      listing fails it. */
  lemma SearchIgnoresQuery(nameTexts: seq<string>, i: nat)
    requires i < |nameTexts|
    requires forall k :: 0 <= k < |nameTexts[i]| ==> nameTexts[i][k] != 'd' && nameTexts[i][k] != 'D'
    ensures !SearchResultsMatch(nameTexts)
    ensures !SearchResultsMatch([])
  {
    NameWithoutD(nameTexts[i]);
    MissingFirstChar(ToLower(Trim(nameTexts[i])), SearchToken);
    assert ProductNames(nameTexts)[i] == Trim(nameTexts[i]);
  }

  /** A text with no letter "d" in either case keeps none once trimmed and
      lower-cased. */
  lemma NameWithoutD(text: string)
    requires forall k :: 0 <= k < |text| ==> text[k] != 'd' && text[k] != 'D'
    ensures forall k :: 0 <= k < |ToLower(Trim(text))| ==> ToLower(Trim(text))[k] != SearchToken[0]
  {
    TrimSpec(text);
  }

  /** A text without the first character of `t` does not contain `t`. */
  lemma MissingFirstChar(s: string, t: string)
    requires |t| > 0 && forall k :: 0 <= k < |s| ==> s[k] != t[0]
    ensures !Contains(s, t)
  {
    if Contains(s, t) {
      var i := ContainsWitness(s, t);
      assert false;
    }
  }

  /** The token is matched without regard to ASCII case and to whitespace
      around the name: "DESK", "Desk" or "desk" padded with blanks pass. */
  lemma SearchMatchesAnyCase(p: string, e: string, q: string)
    requires forall k :: 0 <= k < |p| ==> IsWhiteSpace(p[k])
    requires forall k :: 0 <= k < |q| ==> IsWhiteSpace(q[k])
    requires ToLower(e) == SearchToken
    ensures SearchResultsMatch([p + e + q])
  {
    PaddedTokenTrims(p, e, q);
    TokenContainsItself();
  }

  /** Blanks around a spelling of the token are what `trim` removes. */
  lemma PaddedTokenTrims(p: string, e: string, q: string)
    requires forall k :: 0 <= k < |p| ==> IsWhiteSpace(p[k])
    requires forall k :: 0 <= k < |q| ==> IsWhiteSpace(q[k])
    requires ToLower(e) == SearchToken
    ensures Trim(p + e + q) == e
  {
    assert |e| == 4;
    assert ToLower(e)[0] == 'd' && ToLower(e)[3] == 'k';
    LowerKeepsWhiteSpace(e[0]);
    LowerKeepsWhiteSpace(e[3]);
    TrimPadded(p, e, q);
  }

  lemma TokenContainsItself()
    ensures Contains(SearchToken, SearchToken)
  {
    assert SearchToken[0..4] == SearchToken;
    ContainsAt(SearchToken, SearchToken, 0);
  }

  /** The category the category check looks for. */
  const CategoryToken: string := "books"

  /** "I should see only products in the books category", over the card
      category texts: it passes exactly when there is a card and "books"
      occurs at some position of every category once trimmed and
      lower-cased. */
  function CategoryResultsMatch(categoryTexts: seq<string>): (pass: bool)
    ensures pass <==> |categoryTexts| > 0 &&
                      forall i :: 0 <= i < |categoryTexts| ==>
                        Occurs(ToLower(Trim(categoryTexts[i])), CategoryToken)
  {
    var cats := ProductCategories(categoryTexts);
    assert forall i :: 0 <= i < |cats| ==>
             (Contains(cats[i], CategoryToken) <==> Occurs(ToLower(Trim(categoryTexts[i])), CategoryToken)) by {
      forall i | 0 <= i < |cats| {
        ContainsIffOccurs(cats[i], CategoryToken);
      }
    }
    |cats| > 0 && forall i :: 0 <= i < |cats| ==> Contains(cats[i], CategoryToken)
  }

  /** Every card whose category normalises to "books" passes the check. */
  lemma CategoryExactPasses(categoryTexts: seq<string>)
    requires |categoryTexts| > 0
    requires forall i :: 0 <= i < |categoryTexts| ==> ToLower(Trim(categoryTexts[i])) == CategoryToken
    ensures CategoryResultsMatch(categoryTexts)
  {
    forall i | 0 <= i < |categoryTexts|
      ensures Contains(ProductCategories(categoryTexts)[i], CategoryToken)
    {
      ContainsInfix([], CategoryToken, []);
      assert [] + CategoryToken + [] == CategoryToken;
    }
  }

  /** The check is containment, not equality: a card of another category
      whose name ends in "books", such as "ebooks", passes it too. */
  lemma CategoryIsContainment(lead: string)
    requires |lead| > 0 && !IsWhiteSpace(lead[0]) && ToLower(lead) == lead
    ensures ProductCategories([lead + CategoryToken])[0] != CategoryToken
    ensures CategoryResultsMatch([lead + CategoryToken])
  {
    var t := lead + CategoryToken;
    assert Trim(t) == t by {
      assert t[|t| - 1] == CategoryToken[4];
      TrimOfTrimmed(t);
    }
    assert ToLower(t) == t by {
      ToLowerAppend(lead, CategoryToken);
      assert ToLower(CategoryToken) == CategoryToken;
    }
    assert Contains(t, CategoryToken) by {
      ContainsInfix(lead, CategoryToken, []);
      assert lead + CategoryToken + [] == t;
    }
    assert ProductCategories([t])[0] == t;
  }

  /** The phrase the in-stock check rejects. */
  const OutOfStockPhrase: string := "out of stock"

  /** "I should not see out of stock products", over the stock text of every
      card: it fails exactly when some card has no text, which fails the
      matcher, or has "out of stock" at some position of its lower-cased
      text. No card at all passes. */
  function NoOutOfStockShown(stockTexts: seq<Option<string>>): (pass: bool)
    ensures !pass <==> exists i :: 0 <= i < |stockTexts| &&
                        (stockTexts[i].None? || Occurs(ToLower(stockTexts[i].value), OutOfStockPhrase))
  {
    assert forall i :: 0 <= i < |stockTexts| && stockTexts[i].Some? ==>
             (Contains(ToLower(stockTexts[i].value), OutOfStockPhrase) <==>
              Occurs(ToLower(stockTexts[i].value), OutOfStockPhrase)) by {
      forall i | 0 <= i < |stockTexts| && stockTexts[i].Some? {
        ContainsIffOccurs(ToLower(stockTexts[i].value), OutOfStockPhrase);
      }
    }
    forall i :: 0 <= i < |stockTexts| ==>
      stockTexts[i].Some? && !Contains(ToLower(stockTexts[i].value), OutOfStockPhrase)
  }

  /** No card at all passes vacuously; a card without text anywhere in the
      listing fails it. */
  lemma InStockCheckCases(stockTexts: seq<Option<string>>, i: nat)
    requires i < |stockTexts| && stockTexts[i].None?
    ensures NoOutOfStockShown([])
    ensures !NoOutOfStockShown(stockTexts)
  {
  }

  /** A card anywhere in the listing whose text has "out of stock" in any
      ASCII case anywhere in it fails the check, whatever the other cards
      show. */
  lemma OutOfStockCardFails(stockTexts: seq<Option<string>>, i: nat, p: string, e: string, q: string)
    requires i < |stockTexts| && stockTexts[i] == Some(p + e + q)
    requires ToLower(e) == OutOfStockPhrase
    ensures !NoOutOfStockShown(stockTexts)
  {
    ToLowerAppend(p + e, q);
    ToLowerAppend(p, e);
    ContainsInfix(ToLower(p), OutOfStockPhrase, ToLower(q));
  }

  /** "products should be sorted by ascending price": more than one price,
      and each no lower than the one before. */
  function SortedAscending(prices: seq<int>): (pass: bool)
    ensures pass ==> |prices| > 1
  {
    |prices| > 1 && forall i :: 1 <= i < |prices| ==> prices[i - 1] <= prices[i]
  }

  lemma {:induction false} AdjacentToAny(prices: seq<int>, i: nat, j: nat)
    requires forall k :: 1 <= k < |prices| ==> prices[k - 1] <= prices[k]
    requires i <= j < |prices|
    ensures prices[i] <= prices[j]
    decreases j - i
  {
    if i < j {
      AdjacentToAny(prices, i + 1, j);
      assert prices[i] <= prices[i + 1];
    }
  }

  /** Checking adjacent pairs is checking every pair: the check passes
      exactly for the lists of two or more prices in non-decreasing order. */
  lemma SortedAscendingIsOrdered(prices: seq<int>)
    ensures SortedAscending(prices) <==>
              |prices| > 1 && forall i, j :: 0 <= i <= j < |prices| ==> prices[i] <= prices[j]
  {
    if SortedAscending(prices) {
      forall i, j | 0 <= i <= j < |prices|
        ensures prices[i] <= prices[j]
      {
        AdjacentToAny(prices, i, j);
      }
    }
    if |prices| > 1 && forall i, j :: 0 <= i <= j < |prices| ==> prices[i] <= prices[j] {
      forall k | 1 <= k < |prices|
        ensures prices[k - 1] <= prices[k]
      {
        assert 0 <= k - 1 <= k < |prices|;
      }
    }
  }

  /** "I should see a product count": the count text, "" when there is
      none, matches `/showing \d+ product/i`, that is, the pattern matches
      the lower-cased text at some position with some number of digits.
      Lower-casing the ASCII letters of the text and matching the lower-case
      pattern is the same test, because the ignore-case comparison of a
      non-unicode pattern never maps a character outside ASCII onto one
      inside. */
  function ProductCountShown(content: Option<string>): (pass: bool)
    ensures content.None? ==> !pass
    ensures pass <==> exists k, n :: CountMatch(ToLower(TextOrEmpty(content)), k, n)
  {
    MatchesCountPhrase(ToLower(TextOrEmpty(content)))
  }

  const CountLead: string := "showing "
  const CountTail: string := " product"

  /** The pattern matches `t` at position `k` with `n` digits: "showing "
      at `k`, then `n` digits, then " product". */
  predicate CountMatch(t: string, k: int, n: int) {
    && 0 <= k && 0 < n && k + |CountLead| + n + |CountTail| <= |t|
    && t[k..k + |CountLead|] == CountLead
    && AllDigits(t[k + |CountLead|..k + |CountLead| + n])
    && t[k + |CountLead| + n..k + |CountLead| + n + |CountTail|] == CountTail
  }

  /** The pattern matches at the start of `t`. The digit run is forced to be
      maximal: it must be followed by a space, which is not a digit. */
  predicate CountPhraseAt(t: string) {
    StartsWith(t, CountLead) &&
    var rest := t[|CountLead|..];
    var d := DigitPrefix(rest);
    |d| > 0 && StartsWith(rest[|d|..], CountTail)
  }

  /** The pattern matches somewhere in `t`: the search tries each start
      position from the left. It succeeds exactly when some position and
      some digit count match. */
  predicate MatchesCountPhrase(t: string): (b: bool)
    ensures b <==> exists k, n :: CountMatch(t, k, n)
    decreases |t|
  {
    CountPhraseAtIff(t);
    if |t| == 0 then
      assert forall k, n :: !CountMatch(t, k, n);
      CountPhraseAt(t)
    else
      var later := MatchesCountPhrase(t[1..]);
      CountMatchStep(t);
      CountPhraseAt(t) || later
  }

  /** At the start of the text, the scan's test is the pattern at position
      0. */
  lemma CountPhraseAtIff(u: string)
    ensures CountPhraseAt(u) <==> exists n :: CountMatch(u, 0, n)
  {
    if CountPhraseAt(u) {
      var rest := u[|CountLead|..];
      var d := DigitPrefix(rest);
      var n := |d|;
      assert u[0..|CountLead|] == CountLead;
      assert u[|CountLead|..|CountLead| + n] == rest[..n] == d;
      assert u[|CountLead| + n..|CountLead| + n + |CountTail|] == rest[n..][..|CountTail|];
      assert CountMatch(u, 0, n);
    }
    if exists n :: CountMatch(u, 0, n) {
      var n :| CountMatch(u, 0, n);
      CountPhraseFromMatch(u, n);
    }
  }

  lemma CountPhraseFromMatch(u: string, n: int)
    requires CountMatch(u, 0, n)
    ensures CountPhraseAt(u)
  {
    var rest := u[|CountLead|..];
    var d := rest[..n];
    assert d == u[|CountLead|..|CountLead| + n];
    assert rest[n..][..|CountTail|] == u[|CountLead| + n..|CountLead| + n + |CountTail|];
    assert rest == d + rest[n..];
    assert rest[n..][0] == CountTail[0];
    DigitPrefixOfDigitsThen(d, rest[n..]);
  }

  /** A match in the text after the first character is a match one position
      further on, and a match past the first position is one in the text
      after the first character. */
  lemma CountMatchStep(t: string)
    requires |t| > 0
    ensures (exists k, n :: CountMatch(t, k, n)) <==>
              (exists n :: CountMatch(t, 0, n)) || (exists k, n :: CountMatch(t[1..], k, n))
  {
    if exists k, n :: CountMatch(t[1..], k, n) {
      var k, n :| CountMatch(t[1..], k, n);
      CountMatchShift(t, k, n);
    }
    if exists k, n :: CountMatch(t, k, n) {
      var k, n :| CountMatch(t, k, n);
      if k > 0 {
        CountMatchShift(t, k - 1, n);
      }
    }
  }

  lemma CountMatchShift(t: string, k: int, n: int)
    requires |t| > 0 && 0 <= k
    ensures CountMatch(t[1..], k, n) <==> CountMatch(t, k + 1, n)
  {
    var a, b, c := k + |CountLead|, k + |CountLead| + n, k + |CountLead| + n + |CountTail|;
    if 0 < n && c <= |t| - 1 {
      assert t[1..][k..a] == t[k + 1..a + 1];
      assert t[1..][a..b] == t[a + 1..b + 1];
      assert t[1..][b..c] == t[b + 1..c + 1];
    }
  }

  /** The count text the catalogue renders passes the check for every
      count. */
  lemma ProductCountShownRendered(n: nat)
    ensures ProductCountShown(Some("Showing " + NatToString(n) + " products"))
  {
    var d := NatToString(n);
    ToLowerDigits(d);
    RenderedWordsLower();
    RenderedCountMatches("Showing ", d, " products");
  }

  /** The words of the rendered count lower-case to the pattern's. */
  lemma RenderedWordsLower()
    ensures ToLower("Showing ") == CountLead
    ensures ToLower(" products")[..|CountTail|] == CountTail
  {
  }

  /** The same count in upper case passes as well: the pattern ignores
      case. */
  lemma ProductCountShownAnyCase(n: nat)
    ensures ProductCountShown(Some("SHOWING " + NatToString(n) + " PRODUCT"))
  {
    var d := NatToString(n);
    ToLowerDigits(d);
    UpperWordsLower();
    RenderedCountMatches("SHOWING ", d, " PRODUCT");
  }

  lemma UpperWordsLower()
    ensures ToLower("SHOWING ") == CountLead
    ensures ToLower(" PRODUCT")[..|CountTail|] == CountTail
  {
  }

  lemma RenderedCountMatches(lead: string, d: string, tail: string)
    requires ToLower(lead) == CountLead
    requires |d| > 0 && AllDigits(d) && ToLower(d) == d
    requires |tail| >= |CountTail| && ToLower(tail)[..|CountTail|] == CountTail
    ensures ProductCountShown(Some(lead + d + tail))
  {
    var t := ToLower(lead + d + tail);
    ToLowerAppend(lead + d, tail);
    ToLowerAppend(lead, d);
    assert t == CountLead + d + ToLower(tail);
    CountPhraseAtDigits(d, ToLower(tail));
  }

  /** The pattern matches a text that is the lead, a digit run and a text
      starting with the tail. */
  lemma CountPhraseAtDigits(d: string, rest: string)
    requires |d| > 0 && AllDigits(d)
    requires |rest| >= |CountTail| && rest[..|CountTail|] == CountTail
    ensures CountPhraseAt(CountLead + d + rest)
  {
    var t := CountLead + d + rest;
    assert t[..|CountLead|] == CountLead;
    assert t[|CountLead|..] == d + rest;
    assert rest[0] == ' ';
    DigitPrefixOfDigitsThen(d, rest);
    assert (d + rest)[|d|..] == rest;
  }

  /* ---------------------------------------------------------------- */
  /*  Card text, error and badge checks                                */
  /* ---------------------------------------------------------------- */

  /** "I should see {text} on product cards" and "I should see {text} for
      out of stock products": it passes exactly when there is an element and
      every element has text with the expected text at some position once
      trimmed; an element without text fails the matcher. */
  function EveryCardShows(texts: seq<Option<string>>, expected: string): (pass: bool)
    ensures pass <==> |texts| > 0 &&
                      forall i :: 0 <= i < |texts| ==>
                        texts[i].Some? && Occurs(Trim(texts[i].value), expected)
  {
    assert forall i :: 0 <= i < |texts| && texts[i].Some? ==>
             (Contains(Trim(texts[i].value), expected) <==> Occurs(Trim(texts[i].value), expected)) by {
      forall i | 0 <= i < |texts| && texts[i].Some? {
        ContainsIffOccurs(Trim(texts[i].value), expected);
      }
    }
    |texts| > 0 && forall i :: 0 <= i < |texts| ==> texts[i].Some? && Contains(Trim(texts[i].value), expected)
  }

  /** The trim the check applies never decides it: for an expected text that
      neither starts nor ends with white space, the check passes exactly
      when there is an element and every element's untrimmed text contains
      the expected text. */
  lemma EveryCardShowsUntrimmed(texts: seq<Option<string>>, expected: string)
    requires |expected| == 0 || (!IsWhiteSpace(expected[0]) && !IsWhiteSpace(expected[|expected| - 1]))
    ensures EveryCardShows(texts, expected) <==>
              |texts| > 0 && forall i :: 0 <= i < |texts| ==> texts[i].Some? && Contains(texts[i].value, expected)
  {
    forall i | 0 <= i < |texts| && texts[i].Some?
      ensures Contains(Trim(texts[i].value), expected) <==> Contains(texts[i].value, expected)
    {
      ContainsAfterTrim(texts[i].value, expected);
    }
  }

  /** A card whose text is the expected text with whitespace around it
      passes; no card at all fails. */
  lemma EveryCardShowsPadded(expected: string, p: string, q: string)
    requires forall i :: 0 <= i < |p| ==> IsWhiteSpace(p[i])
    requires forall i :: 0 <= i < |q| ==> IsWhiteSpace(q[i])
    requires |expected| > 0 && !IsWhiteSpace(expected[0]) && !IsWhiteSpace(expected[|expected| - 1])
    ensures EveryCardShows([Some(p + expected + q)], expected)
    ensures !EveryCardShows([], expected)
  {
    TrimPadded(p, expected, q);
    assert expected[0..|expected|] == expected;
    ContainsAt(expected, expected, 0);
  }

  /** "I should see the products error {text}": the error text, "" when
      there is none, contains the expected message: it passes exactly when
      the message occurs at some position of that text. */
  function ErrorShown(content: Option<string>, expected: string): (pass: bool)
    ensures pass <==> Occurs(TextOrEmpty(content), expected)
    ensures content.None? ==> (pass <==> expected == [])
  {
    ContainsIffOccurs(TextOrEmpty(content), expected);
    Contains(TextOrEmpty(content), expected)
  }

  /** "the nav cart count should be greater than 0": a badge that does not
      parse reads NaN, which is not greater than 0. */
  function CartCountPositive(content: Option<string>): (pass: bool)
    ensures content.None? ==> !pass
  {
    match NavCartCount(content)
    case NaN => false
    case Int(n) => n > 0
  }

  /** A badge showing a rendered count passes exactly when the count is
      positive. */
  lemma CartCountPositiveRendered(n: nat)
    ensures CartCountPositive(Some(NatToString(n))) <==> n > 0
  {
    NavCartCountRoundTrip(n);
  }

  /** An empty badge reads NaN and fails. */
  lemma CartCountEmptyBadge()
    ensures NavCartCount(Some("")) == NaN
    ensures !CartCountPositive(Some(""))
  {
    TrimEmpty();
    ParseIntEmpty();
  }

  /* ---------------------------------------------------------------- */
  /*  Direct posts to /cart/add                                        */
  /* ---------------------------------------------------------------- */

  const ProductsPath: string := "/products"

  /** The page to visit after a post whose final response URL is
      `responseUrl`: that URL when it is a catalogue URL, otherwise the
      catalogue with the given error code. */
  function RedirectTarget(responseUrl: string, baseUrl: string, errorCode: string): (url: string)
    ensures Contains(responseUrl, ProductsPath) ==> url == responseUrl
    ensures !Contains(responseUrl, ProductsPath) ==> url == baseUrl + ProductsPath + "?error=" + errorCode
  {
    if Contains(responseUrl, ProductsPath) then responseUrl
    else baseUrl + ProductsPath + "?error=" + errorCode
  }

  /** The page visited is always a catalogue URL, and it is the response URL
      exactly when that is one. */
  lemma RedirectAlwaysToProducts(responseUrl: string, baseUrl: string, errorCode: string)
    ensures Contains(RedirectTarget(responseUrl, baseUrl, errorCode), ProductsPath)
    ensures RedirectTarget(responseUrl, baseUrl, errorCode) == responseUrl <==> Contains(responseUrl, ProductsPath)
  {
    if !Contains(responseUrl, ProductsPath) {
      var u := baseUrl + ProductsPath + "?error=" + errorCode;
      assert u[|baseUrl|..|baseUrl| + |ProductsPath|] == ProductsPath;
      ContainsAt(u, ProductsPath, |baseUrl|);
    }
  }

  /** A post the step sends, and the page it then visits. */
  datatype Post = Post(formProductId: string, visit: string)

  /** "I try to add it to the cart": posts the recorded id, rendered as text,
      then visits the response URL when it is a catalogue URL and the
      out-of-stock error page otherwise. */
  function TryAddRecorded(s: Scratch, baseUrl: string, responseUrl: string): (p: Post)
    ensures p.formProductId == CardKey(s.productId)
    ensures Contains(p.visit, ProductsPath)
    ensures Contains(responseUrl, ProductsPath) ==> p.visit == responseUrl
    ensures !Contains(responseUrl, ProductsPath) ==> p.visit == baseUrl + ProductsPath + "?error=" + "out_of_stock"
  {
    RedirectAlwaysToProducts(responseUrl, baseUrl, "out_of_stock");
    Post(CardKey(s.productId), RedirectTarget(responseUrl, baseUrl, "out_of_stock"))
  }

  /** "I try to add a product that does not exist": posts an id the seed
      data does not have, then visits the response URL when it is a
      catalogue URL and the not-found error page otherwise. */
  function TryAddMissing(baseUrl: string, responseUrl: string): (p: Post)
    ensures p.formProductId == "99999"
    ensures Contains(p.visit, ProductsPath)
    ensures Contains(responseUrl, ProductsPath) ==> p.visit == responseUrl
    ensures !Contains(responseUrl, ProductsPath) ==> p.visit == baseUrl + ProductsPath + "?error=" + "product_not_found"
  {
    RedirectAlwaysToProducts(responseUrl, baseUrl, "product_not_found");
    Post("99999", RedirectTarget(responseUrl, baseUrl, "product_not_found"))
  }

  /** After the out-of-stock step, the post names product 9. */
  lemma OutOfStockPostsNine(s: Scratch, baseUrl: string, responseUrl: string)
    ensures TryAddRecorded(GivenOutOfStock(s), baseUrl, responseUrl).formProductId == "9"
  {
    assert NatToString(9) == "9";
  }
}
