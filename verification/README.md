# Storefront end-to-end harness: orchestration core in Dafny

This project models the orchestration core of a browser-driven end-to-end
test harness for a web storefront, and proves properties of it. The model
has five parts:

- **Catalogue screen object readers** (`products_page.dfy`, module
  `ProductsPage`). These are the stock-text parser, the name and category
  normalisers, the defaults applied when an element has no text, the cart
  badge parse and the product-id parse of the add-to-cart helper.
- **Screen registry** (`registry.dfy`, module `Registry`). It covers the
  `PageManager` constructor and its memoising `loginPage`, `signupPage` and
  `nav` getters. Object identity is a reference drawn from a heap counter.
- **Run configuration and lifecycle hooks** (`config.dfy`, `hooks.dfy`).
  `Config` resolves the engine name, the headless flag and the step timeout
  from the environment. `Hooks` covers `BeforeAll`, `Before`, `After` and
  `AfterAll`, as a state machine that logs every browser call.
- **The per-scenario World** (`world.dfy`, module `ScenarioWorld`). This is
  the handle slots and the typed scratch record `signupName`, `productId`
  and `stockBefore`.
- **Step bindings** (`product_steps.dfy`, `auth_steps.dfy`). These cover:
  - the checks of the `Then` steps as predicates;
  - which steps write which scratch field, and what the checks read;
  - the redirect fallback after a direct post to `/cart/add`;
  - the valid sign-up record and the negative sign-up overrides;
  - the account-name check and the fixture lookup by email.

`js.dfy` (module `Js`) defines the JavaScript semantics the code relies on:
- `null`/`undefined` as `Option`;
- integer-or-NaN numbers;
- `trim` over the ECMAScript white-space and line-terminator set;
- ASCII `toLowerCase`;
- `includes`;
- `parseInt(s, 10)`;
- the decimal rendering of integers.

The browser itself, the clock and the fixture file are parameters:
- a `textContent()` that returns `null` is `None`;
- `Date.now()` is a natural number;
- the fixture file is a sequence of users.

Two points of the code are easy to misread:
- The `After` hook (support/hooks.ts:27-35) is where every scenario's page
  and context are closed, but it runs its calls in sequence with no guard,
  so a screenshot that throws leaves both open. `Hooks.ReleaseNotGuaranteed`
  shows this on a concrete run. The variant that releases them whatever
  throws is the second row under "## Findings".
- The World declares a `browser` field (support/world.ts:6), but the hooks
  never assign it: they keep the engine in the module-level variable of
  support/hooks.ts:11. `Hooks.ScenarioWorldFresh` proves that the field
  stays `null`.

The proofs that carry the most weight are inductions over whole runs and
read sequences: `Hooks.RunScenariosExtendsLog`, `Hooks.LaunchedOnceClosedOnce`
and `Hooks.WorldsInOrder` for the lifecycle; `Registry.ReplayConstructsOncePerScreen`
and `Registry.SameScreenSameObject` for the registry; `Js.ParseIntRoundTrip`,
`ProductsPage.ScanStockCount` and `AuthSteps.FindUser` for the parsers and the
fixture lookup. The password and address lemmas of `AuthSteps` are checks of
fixed strings.

## Model

| member | source | states |
|---|---|---|
| Js.ParseInt | pages/products.page.ts:192 | `parseInt(s, 10)` is NaN exactly when no digit follows the leading white space and optional sign; the value otherwise is given by `Js.ParseIntOfParts` |
| Js.ParseIntOfParts | pages/products.page.ts:192 | for any text made of white space, an optional sign, a digit run ended by a non-digit or the end, and anything after, the result is the run's value, negated after a minus: " -12abc" gives -12 and "3 items" gives 3 |
| Js.ParseIntOfDigits | pages/products.page.ts:139 | a non-empty run of digits parses to its decimal value |
| Js.ParseIntRoundTrip | pages/products.page.ts:175 | parsing the decimal rendering of any integer, negative ones included, gives that integer back |
| Js.NatToString | steps/auth.steps.ts:28 | the rendering of a natural is a non-empty digit string with no leading zero |
| Js.NatToStringValue | steps/auth.steps.ts:28 | the rendering of a natural has that natural as its decimal value |
| Js.TrimSpec | pages/products.page.ts:99 | `trim` returns a contiguous piece of its input with only white space cut off either side, and the piece starts and ends with non-white space |
| Js.TrimIdempotent | pages/products.page.ts:99 | trimming twice is trimming once |
| Js.TrimPadded | pages/products.page.ts:99 | white space around a text without outer white space is exactly what `trim` removes |
| Js.Trim | pages/products.page.ts:99 | the trimmed text is no longer than the input and neither starts nor ends with white space |
| Js.TrimEmpty | pages/products.page.ts:192 | the empty text trims to the empty text |
| Js.ToLowerIdempotent | pages/products.page.ts:113 | lower-casing leaves no ASCII capital, and lower-casing again changes nothing |
| Js.ToLower | pages/products.page.ts:113 | lower-casing keeps the length, leaves no ASCII capital, changes exactly the positions holding a capital, and moves each capital to its small letter |
| Js.ContainsWitness | steps/products.steps.ts:179 | `includes` holds only when the token occurs at some position |
| Js.ContainsAt | steps/products.steps.ts:179 | a token occurring at any position is found by `includes` |
| Js.Contains | steps/products.steps.ts:179 | a text contains only tokens no longer than itself, and always contains the empty token |
| Js.ContainsIffOccurs | steps/products.steps.ts:179 | `includes` holds exactly when the token occurs at some position |
| Js.ContainsAfterTrim | steps/products.steps.ts:238 | for a token that neither starts nor ends with white space, the trimmed text contains it exactly when the untrimmed text does |
| Js.NumToString | steps/products.steps.ts:139-141 | a template literal renders NaN as "NaN" and an integer as its digits, with a leading "-" exactly when it is negative |
| ProductsPage.FirstDigitRun | pages/products.page.ts:138 | the `/(\d+)/` capture is absent exactly when the text has no digit, and is otherwise a non-empty run of digits at a position with no digit before it and none right after it: the first maximal run |
| ProductsPage.FirstRunShift | pages/products.page.ts:138 | the first maximal run of the text after a leading non-digit is the first maximal run of the whole text |
| ProductsPage.ParseStockCount | pages/products.page.ts:137-140 | a text with no digit, "Out of stock" or "", counts 0 |
| ProductsPage.StockCountFirstRun | pages/products.page.ts:137-140 | the count is the value of the first maximal digit run; later runs are ignored, so "3 of 10" gives 3 |
| ProductsPage.StockCountRoundTrip | pages/products.page.ts:138-139 | for every natural n, a digit-free prefix and a suffix not starting with a digit, the count of prefix + decimal(n) + suffix is n |
| ProductsPage.StockCountSplit | pages/products.page.ts:137-140 | every text with a digit splits into a digit-free prefix, a maximal digit run and a rest, and the count is that run's value |
| ProductsPage.ScanStockCount | pages/products.page.ts:137-140 | a left-to-right scan computes the same count as the regex-based parse |
| ProductsPage.StockCountForProduct | pages/products.page.ts:142-145 | the count for an id is the parse of that card's stock text, and absent text counts 0 |
| ProductsPage.CardKey | pages/products.page.ts:128-131 | the id interpolated into the card selector reads "undefined" when no id was recorded and "NaN" for a NaN id, parses back to the id when it is a number, and is a non-empty digit string for a non-negative id |
| ProductsPage.ProductNames | pages/products.page.ts:95-100 | names keep the length and order of the texts, and each name is its text trimmed |
| ProductsPage.ProductNamesKeepText | pages/products.page.ts:99 | a name keeps its case and is a contiguous piece of the card text with only white space removed; reading names again is the identity |
| ProductsPage.ProductCategories | pages/products.page.ts:109-114 | categories keep length and order, and each is its text trimmed and lower-cased |
| ProductsPage.CategoryNormalised | pages/products.page.ts:113 | a category has no ASCII capital and normalising it again changes nothing |
| ProductsPage.ProductCategoriesIdempotent | pages/products.page.ts:109-114 | normalising the category list twice is normalising it once |
| ProductsPage.TextOrEmpty | pages/products.page.ts:116-118 | the count text is "" when the element has no content, and the content otherwise |
| ProductsPage.NavCartCount | pages/products.page.ts:190-193 | a badge without content reads as 0 |
| ProductsPage.NavCartCountRoundTrip | pages/products.page.ts:190-193 | a badge showing the decimal rendering of n reads as n |
| ProductsPage.AddedProductId | pages/products.page.ts:172-175 | a card without a `data-product-id` yields id 0 |
| ProductsPage.AddedProductIdRoundTrip | pages/products.page.ts:172-175 | a canonical id attribute parses back to its id, and the card selector built from that id names the same card |
| Registry.New | pages/pageManager.page.ts:14-16 | the constructor builds the base view bound to the page, with every lazy slot empty, and the registry it builds is well formed |
| Registry.GetOrCreate | pages/pageManager.page.ts:18-28 | a filled slot hands back its object and constructs nothing; an empty slot gets one new object bound to the page; other slots, the page and the base view are unchanged |
| Registry.GetOrCreateKeepsValid | pages/pageManager.page.ts:18-28 | a getter read keeps the registry well formed: a newly constructed object has a reference no object in the registry has |
| Registry.SecondAccessIdentical | pages/pageManager.page.ts:18-20 | a second read of a getter returns the identical object and leaves the registry as the first read left it |
| Registry.DeclaredGetter | pages/pageManager.page.ts:18-28 | exactly `loginPage`, `signupPage` and `nav` are declared lazy getters |
| Registry.Read | pages/pageManager.page.ts:7-29 | `basePage` is the base view and `page` the page the constructor received; a declared getter hands out its slot's object, bound to the page; a backing field `_loginPage`, `_signupPage` or `_nav` reads its slot's object once the getter has run and `undefined` before; a name on `Object.prototype` reads an inherited member; exactly the other names read `undefined`; only a getter changes the registry |
| Registry.BackingField | pages/pageManager.page.ts:10-12 | exactly `_loginPage`, `_signupPage` and `_nav` (and `_productsPage` with the products slot) are backing fields, each of a lazy screen |
| Registry.BackingFieldOfGetter | pages/pageManager.page.ts:10-28 | each getter stores its object in the field named after it with a leading underscore, and each backing field belongs to the getter so named |
| Registry.GetterFillsBackingField | pages/pageManager.page.ts:18-28 | after a getter has run, its backing field reads the object it handed out, and a second read of the getter hands it out again without change |
| Registry.ProductsPageUndefined | steps/products.steps.ts:18 | `pages.productsPage` is `undefined` on every registry as written |
| Registry.ReadKeepsValid | pages/pageManager.page.ts:7-29 | a property read, as written or with the products slot, keeps the registry well formed |
| Registry.ReadIntended | pages/pageManager.page.ts:10-28 | with a products slot and its `_productsPage` field added, every other property reads exactly as before, `productsPage` hands out a products screen bound to the page, and `_productsPage` reads that slot |
| Registry.ProductsPageIntended | pages/pageManager.page.ts:18-28 | with a products slot, `productsPage` is bound to the page, memoised, and leaves the other slots alone |
| Registry.Replay | pages/pageManager.page.ts:18-28 | any sequence of getter reads keeps every object bound to its slot and the page, and hands out one object per read |
| Registry.ReplayKeepsValid | pages/pageManager.page.ts:18-28 | any sequence of getter reads keeps the registry well formed |
| Registry.ReplayKeepsSlots | pages/pageManager.page.ts:18-28 | over any sequence of reads, the page and the base view stay, exactly the slots read get filled, and no filled slot is replaced |
| Registry.ReplayHandsSlotObjects | pages/pageManager.page.ts:18-28 | over any sequence of reads, each object handed out is the one its slot finally holds, of the screen read and bound to the page |
| Registry.ReplayMemoises | pages/pageManager.page.ts:18-28 | over any sequence of reads, each object handed out is the one its slot finally holds, bound to the page and of the screen read; earlier objects are never replaced |
| Registry.ReplayConstructsOncePerScreen | pages/pageManager.page.ts:18-28 | a sequence of reads constructs exactly one object per screen that had none |
| Registry.SameScreenSameObject | pages/pageManager.page.ts:18-28 | two reads of the same screen, however far apart, return the identical object |
| Config.BrowserName | support/hooks.ts:7 | an unset or empty `BROWSER` means "chromium"; any other value is lower-cased |
| Config.Launcher | support/hooks.ts:16 | "firefox" and "webkit" select their engines, and every other name selects chromium |
| Config.LauncherSelectsNamedEngine | support/hooks.ts:6-7 | naming any engine, in the variable or directly, selects that engine |
| Config.Headless | support/hooks.ts:8 | the browser is headed exactly when `HEADLESS` is the string "false" |
| Config.HeadlessOnlyExactFalse | support/hooks.ts:8 | "FALSE", "0", "no", "" and an unset variable all leave the browser headless |
| Config.NumberOfString | support/hooks.ts:9 | `Number` of a blank text is 0 and of a digit string is its value |
| Config.StepTimeout | support/hooks.ts:9 | an unset or empty `E2E_TIMEOUT_MS` gives 30000 |
| Config.StepTimeoutRoundTrip | support/hooks.ts:9 | a rendered millisecond count reads back as itself, and a value of blanks reads as 0, not the default |
| Config.Resolve | support/hooks.ts:6-9 | the run configuration combines the three resolutions |
| Config.ResolveDefaults | support/hooks.ts:6-9 | with nothing set the run is headless chromium with a 30 s timeout; engine names ignore ASCII case; unknown names run chromium |
| ScenarioWorld.NewWorld | support/world.ts:6-18 | a new World has null handles, no registry and no scratch field present |
| Hooks.BeforeAll | support/hooks.ts:15-18 | one engine is launched with the configured engine and headless flag |
| Hooks.Before | support/hooks.ts:20-25 | a new context, then a page in it, then a registry bound to that page with empty slots; a missing engine throws and changes nothing; scratch and the `browser` field are untouched |
| Hooks.After | support/hooks.ts:27-35 | the hook makes its planned calls up to the one that throws, and throws exactly when one does; handles and references are untouched |
| Hooks.AfterPlan | support/hooks.ts:27-35 | the teardown plan makes no engine call, closes the page when there is one, and ends by closing the context when there is one |
| Hooks.AfterAll | support/hooks.ts:37-39 | the engine is closed when one was launched, and nothing happens otherwise |
| Hooks.ShotsPlanned | support/hooks.ts:28-31 | the screenshot and the attach are planned exactly for status FAILED with a page |
| Hooks.ScreenshotOnlyOnFailure | support/hooks.ts:28-31 | whichever call throws, a screenshot is taken only for status FAILED with a page; ambiguous, undefined and pending scenarios get none |
| Hooks.ScreenshotAttachedIffFailed | support/hooks.ts:28-31 | when nothing throws, a screenshot is attached exactly for status FAILED with a page |
| Hooks.TeardownOrder | support/hooks.ts:33-34 | when nothing throws, the page is closed and then its context, as the hook's last two calls |
| Hooks.ThrowingScreenshotSkipsTeardown | support/hooks.ts:27-35 | a throwing screenshot or attach leaves the page and the context unclosed |
| Hooks.ScenarioStep | support/hooks.ts:20-35 | one scenario's `Before` and `After` keep the engine and only allocate new references |
| Hooks.RunScenarios | support/hooks.ts:20-35 | the hooks of each scenario run one World each and keep the engine |
| Hooks.OneScenarioExtendsLog | support/hooks.ts:20-35 | one scenario's hooks only append calls that neither launch nor close the engine |
| Hooks.RunScenariosExtendsLog | support/hooks.ts:20-35 | scenario hooks only append calls, and never launch or close the engine |
| Hooks.LaunchedOnceClosedOnce | support/hooks.ts:15-39 | in a whole run, the engine is launched once as the first call and closed once as the last |
| Hooks.WholeRun | support/hooks.ts:15-39 | a whole run gives one World per scenario and ends by closing the engine |
| Hooks.ScenarioWorldFresh | support/hooks.ts:20-25 | every scenario's World gets its own context and page, a registry bound to the page, a null `browser` and no scratch state |
| Hooks.StepWorldFresh | support/hooks.ts:20-25 | in a launched run, one scenario's World is fresh, its context being the first reference the scenario allocates |
| Hooks.WorldsInOrder | support/hooks.ts:20-25 | each scenario's context and page are allocated after the page of every earlier scenario |
| Hooks.ContextsNeverShared | support/hooks.ts:20-25 | no two scenarios share a context or a page |
| Hooks.ScenarioReleased | support/hooks.ts:27-35 | a scenario whose `After` throws nothing closes the page and the context its `Before` opened |
| Hooks.ReleaseKept | support/hooks.ts:20-35 | a close already logged stays in the log while later scenarios run |
| Hooks.ReleasedWhenNothingThrows | support/hooks.ts:27-35 | when no `After` call throws, every scenario's page and context are closed |
| Hooks.ReleaseNotGuaranteed | support/hooks.ts:27-35 | a failed scenario whose screenshot throws ends the run with its page and context never closed |
| Hooks.AfterReleasing | support/hooks.ts:27-35 | the guarded teardown throws exactly when a call throws, and behaves as the hook does when nothing throws |
| Hooks.GuardedTeardownReleases | support/hooks.ts:27-35 | with guarded release, a throwing screenshot or attach still closes the page and the context, and a throwing page close still closes the context |
| ProductSteps.GivenOutOfStock | steps/products.steps.ts:25-27 | records product id 9 and changes no other scratch field |
| ProductSteps.GivenProductInCart | steps/products.steps.ts:29-49 | records the id of the first available card read before the add, and that card's stock on the catalogue read after it |
| ProductSteps.WhenAddToCart | steps/products.steps.ts:83-97 | records the parsed id, 0 when absent, and that card's stock, both read before the click that changes the stock |
| ProductSteps.CartItemKey | steps/products.steps.ts:139-141 | the remove step looks for "undefined" when no id was recorded |
| ProductSteps.StockDecreasedByOne | steps/products.steps.ts:259-273 | passes iff a stock was recorded and the card's stock now is that value minus 1; it fails when nothing was recorded and when the recorded stock was 0 |
| ProductSteps.StockIncreasedByOne | steps/products.steps.ts:275-289 | passes iff a stock was recorded and the card's stock now is that value plus 1; it fails when nothing was recorded |
| ProductSteps.StockChecksExclusive | steps/products.steps.ts:268-287 | no catalogue passes both stock checks for the same scratch state |
| ProductSteps.AddThenDecrease | steps/products.steps.ts:88-92 | after the add step, the decrease check passes iff the same card's stock went down by exactly 1 between the read before the click and the check |
| ProductSteps.AddThenDecreaseSameCard | steps/products.steps.ts:88-92 | for a canonical id attribute, the card the checks read is the one the attribute named |
| ProductSteps.OutOfStockRecordsNoStock | steps/products.steps.ts:25-27 | after marking a product out of stock alone, neither stock check can pass |
| ProductSteps.SearchResultsMatch | steps/products.steps.ts:176-180 | passes iff there is at least one name and in every name, trimmed and lower-cased, "desk" occurs at some position |
| ProductSteps.SearchIgnoresQuery | steps/products.steps.ts:172-181 | a listing with any name lacking the letter d fails, whatever the query was, and an empty listing fails |
| ProductSteps.SearchMatchesAnyCase | steps/products.steps.ts:178-180 | "desk" in any ASCII case with white space around it passes |
| ProductSteps.PaddedTokenTrims | steps/products.steps.ts:178 | white space around any spelling of "desk" is what the name reader trims off |
| ProductSteps.CategoryResultsMatch | steps/products.steps.ts:194-198 | passes iff there is at least one category and in every category, trimmed and lower-cased, "books" occurs at some position |
| ProductSteps.CategoryExactPasses | steps/products.steps.ts:194-198 | a non-empty listing whose categories all normalise to "books" passes |
| ProductSteps.CategoryIsContainment | steps/products.steps.ts:196-198 | a category made of a lower-case lead without leading white space followed by "books" normalises to something other than "books" and yet passes: containment, not equality |
| ProductSteps.NoOutOfStockShown | steps/products.steps.ts:205-212 | fails iff some card has no stock text or has "out of stock" at some position of its lower-cased text; no card at all passes |
| ProductSteps.InStockCheckCases | steps/products.steps.ts:208-212 | no cards pass vacuously, and a card without text anywhere in the listing makes it fail |
| ProductSteps.OutOfStockCardFails | steps/products.steps.ts:209-211 | a card anywhere in the listing whose text has "out of stock" in any ASCII case, anywhere in it, makes the check fail whatever the other cards show |
| ProductSteps.SortedAscending | steps/products.steps.ts:219-223 | a passing list has more than one price |
| ProductSteps.SortedAscendingIsOrdered | steps/products.steps.ts:219-223 | checking adjacent pairs is checking all pairs: the check passes iff there are at least two prices in non-decreasing order |
| ProductSteps.ProductCountShown | steps/products.steps.ts:166-170 | passes iff at some position of the lower-cased count text "showing " is followed by one or more digits and then " product"; a count element without text fails |
| ProductSteps.MatchesCountPhrase | steps/products.steps.ts:169 | the left-to-right search for `/showing \d+ product/` succeeds exactly when some start position and some digit count match |
| ProductSteps.ProductCountShownRendered | steps/products.steps.ts:169 | "Showing n products" passes for every n |
| ProductSteps.ProductCountShownAnyCase | steps/products.steps.ts:169 | "SHOWING n PRODUCT" passes for every n: the pattern ignores ASCII case |
| ProductSteps.RenderedCountMatches | steps/products.steps.ts:169 | any lead lower-casing to "showing ", a digit run and a tail starting with " product" in any case passes |
| ProductSteps.EveryCardShows | steps/products.steps.ts:227-241 | passes iff there is at least one element and every element has text in which, once trimmed, the expected text occurs at some position |
| ProductSteps.EveryCardShowsUntrimmed | steps/products.steps.ts:236-239 | for an expected text without outer white space, the trim never decides the check: it passes iff there is an element and every element's untrimmed text contains the expected text |
| ProductSteps.EveryCardShowsPadded | steps/products.steps.ts:236-239 | an element showing the expected text with white space around it passes, and no element at all fails |
| ProductSteps.ErrorShown | steps/products.steps.ts:298-299 | passes exactly when the expected message occurs at some position of the error text, "" when there is none; with no text, only the empty message passes |
| ProductSteps.CartCountPositive | steps/products.steps.ts:309-310 | a badge without content fails the greater-than-0 check |
| ProductSteps.CartCountPositiveRendered | steps/products.steps.ts:309-310 | a badge showing n passes iff n is positive |
| ProductSteps.CartCountEmptyBadge | pages/products.page.ts:190-193 | an empty badge reads NaN and fails the greater-than-0 check |
| ProductSteps.RedirectTarget | steps/products.steps.ts:106-111 | a response URL containing "/products" is visited as is; any other is replaced by the catalogue URL with the error code |
| ProductSteps.RedirectAlwaysToProducts | steps/products.steps.ts:106-111 | the page visited always contains "/products", and it is the response URL iff that URL contains "/products" |
| ProductSteps.TryAddRecorded | steps/products.steps.ts:99-113 | posts the recorded id as text, then visits the response URL when it contains "/products" and the out-of-stock error page otherwise |
| ProductSteps.TryAddMissing | steps/products.steps.ts:115-129 | posts id "99999", then visits the response URL when it contains "/products" and the not-found error page otherwise |
| ProductSteps.OutOfStockPostsNine | steps/products.steps.ts:101-103 | after the out-of-stock step, the post names product "9" |
| AuthSteps.FindUser | steps/auth.steps.ts:21-22 | the lookup is absent iff no user has exactly the address; otherwise it is the first user with that address |
| AuthSteps.FirstIndex | steps/auth.steps.ts:21-22 | a found user sits at a position before which no user has the address |
| AuthSteps.FirstMatchShift | steps/auth.steps.ts:21-22 | past a first user with another address, the first match is one position further down the rest |
| AuthSteps.FindUserFirstWins | steps/auth.steps.ts:21-22 | users after a match do not change the lookup, and a user put in front with the address shadows the rest |
| AuthSteps.LoadFixtures | steps/auth.steps.ts:18-22 | the alice and taken fixtures carry their addresses, and each is missing iff no user has that address |
| AuthSteps.ValidSignupDefaults | steps/auth.steps.ts:25-32 | name "Test User", password and confirm both "Password123!", and an address "testuser_<now>@test.com" that carries the timestamp |
| AuthSteps.EmailTimestampOfRendered | steps/auth.steps.ts:28 | the timestamp is read back from the generated address |
| AuthSteps.DefaultEmailsDistinct | steps/auth.steps.ts:28 | sign-ups at different times use different addresses |
| AuthSteps.NegativeForm | steps/auth.steps.ts:82-171 | every negative step submits matching password and confirm except the mismatched-confirm step; only the existing-address step can throw, when the fixture is missing |
| AuthSteps.NegativeFormKeepsOtherFields | steps/auth.steps.ts:85-158 | each negative step keeps every default field it does not override |
| AuthSteps.InvalidEmailHasNoAt | steps/auth.steps.ts:95-101 | the invalid-address step submits an address without "@" |
| AuthSteps.DefaultEmailHasAt | steps/auth.steps.ts:28 | the default address has an "@" |
| AuthSteps.NoUppercaseHasNone | steps/auth.steps.ts:122-133 | the no-uppercase password has no capital, and the default password has one |
| AuthSteps.NoNumberHasNone | steps/auth.steps.ts:135-146 | the no-number password has no digit, and the default password has one |
| AuthSteps.NegativeFormBreaksItsRule | steps/auth.steps.ts:82-171 | each negative form breaks the rule it is named after (one-character name, no "@", shorter password, no capital, no digit, taken address), which the defaults keep |
| AuthSteps.WhenValidSignup | steps/auth.steps.ts:68-80 | records `signupName` "Test User" before submitting, so it is recorded even when the submission throws; other scratch fields are untouched |
| AuthSteps.AccountNameMatches | steps/auth.steps.ts:254-264 | fails unless the trimmed nav name is non-empty; with a non-empty recorded name, passes iff the trimmed nav name equals it |
| AuthSteps.AccountCheckAfterSignup | steps/auth.steps.ts:258-262 | after the valid sign-up step, the check passes iff the trimmed nav name is "Test User" |
| AuthSteps.AccountCheckWithoutSignup | steps/auth.steps.ts:259-260 | without a recorded name, any non-blank nav name passes |
| AuthSteps.AliceCredentials | steps/auth.steps.ts:48-51 | the log-in submits alice's email and password, and throws when her fixture is missing |
| AuthSteps.AliceIsFirstMatch | steps/auth.steps.ts:21 | the log-in uses the password of the first user with alice's address |

## Left out

- Browser driving: navigation, clicks, fills, waits, visibility and timeouts (`waitFor`, `toBeVisible`, `waitForURL`, `waitForLoadState`). This is I/O; what the browser shows is a parameter of each step.
- The thin page wrappers (pages/base.page.ts, pages/login.page.ts, pages/signup.page.ts, pages/nav.component.ts) and steps/common.steps.ts. They are browser calls with no logic; the `?? ""` of `getAccountName` is folded into `AuthSteps.AccountNameMatches`.
- The search, filter, in-stock and sort actions, "I am on the products page", "I should see a product grid", "I should see {string}", the no-op "I have items in my cart", the redirect checks and the expired-cookie step. Each is a single browser call or wait.
- The signup and login error checks (auth.steps.ts:266-288). They are the same containment as `ProductSteps.ErrorShown`, applied to wrappers outside the model.
- The click of the remove step. Only the key it selects by is modelled (`ProductSteps.CartItemKey`).
- `getProductPrices` and `parseFloat`, because they are floating point. `ProductSteps.SortedAscending` is stated over integer prices.
- `setDefaultTimeout`, which is registration with the runner. The value it receives is `Config.StepTimeout`.
- Config.NumberOfString: a sign, fraction, exponent, hexadecimal literal or NaN text is returned as `Unmodelled`, not as its floating-point value, because the result is a float.
- Js.NumToString, Js.ParseInt, ProductsPage.ParseStockCount, ProductsPage.StockCountRoundTrip, Config.NumberOfString and Config.StepTimeoutRoundTrip: numbers are unbounded integers, so the precision loss above 2^53 is not modelled (`parseStockCount("9007199254740993")` and `Number("9007199254740993")` are 9007199254740992 in JavaScript), nor is the exponent notation JavaScript renders from 1e21 on.
- Js.ToLower: only ASCII letters are lower-cased; Unicode case mapping is not modelled.
- Registry.Read: a name on `Object.prototype` reads `Inherited`; which function or object the prototype chain yields is not modelled.
- ProductSteps.WhenAddToCart, ProductSteps.GivenProductInCart and the catalogue checks (ProductSteps.SearchResultsMatch, ProductSteps.CategoryResultsMatch, ProductSteps.NoOutOfStockShown, ProductSteps.ProductCountShown, ProductSteps.EveryCardShows, ProductSteps.StockDecreasedByOne, ProductSteps.StockIncreasedByOne, ProductSteps.CartCountPositive, ProductSteps.ErrorShown) are modelled as if `pages.productsPage` existed, that is with `Registry.ReadIntended`. As written each throws at its first `productsPage` read: the add step records `productId` (steps/products.steps.ts:89) and then throws at line 90, so `stockBefore` is never written.
- Config.Launcher: a name that is an `Object.prototype` property, such as "constructor", finds a value that is not a launcher, so the launch throws. The model selects chromium for it.
- Hooks.BeforeAll: a failing launch, which aborts the run, is not modelled.
- Hooks.Before: a failing `newContext` or `newPage` is not modelled; only a missing engine throws.
- Hooks.RunScenarios: the run is sequential, and the runner's own handling of a throwing hook is not modelled. Scenarios proceed one after another whatever a hook did.
- The clock and the fixture file. `Date.now()` is a parameter; reading and parsing `users.json` are I/O, and the users are a parameter.
- The screenshot bytes and the report attachment. Only the calls are logged.

## Findings

| source | as written | input that shows it | evidently intended | confidence | as-written member | corrected member |
|---|---|---|---|---|---|---|
| steps/products.steps.ts:18 | the steps that use the catalogue screen object (navigation, search, filter, sort, the add and stock reads, the listing checks) read `this.pages.productsPage`, but the registry declares only `loginPage`, `signupPage` and `nav`; "a product is out of stock" and the two "try to add" steps never read it, and "I add a product to the cart" reads the id through `this.page` first | the scenario step "I am on the products page": `pages.productsPage` is `undefined` and `.navigate()` throws | a `productsPage` getter memoised like the other three | not executed | Registry.ProductsPageUndefined | Registry.ProductsPageIntended |
| support/hooks.ts:27-35 | the screenshot, the attach and the two closes run in sequence without a guard | a FAILED scenario whose `page.screenshot` throws: neither `page.close()` nor `context.close()` runs | every close is attempted whatever threw before it | not executed | Hooks.ReleaseNotGuaranteed | Hooks.GuardedTeardownReleases |
