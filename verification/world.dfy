/** The per-scenario World record (`MyWorld`): handles to the browser, the
    browsing context and the page, the screen registry, and the scratch
    fields that carry values from one step to a later one. Handles are the
    references the hooks allocate. */
module ScenarioWorld {
  import opened Js
  import Registry

  /** The scratch fields, each optional:
      - `signupName`, written by the valid-signup step, read by the account check;
      - `productId`, written by the out-of-stock, in-cart and add-to-cart
        steps, read by the stock checks and the post to `/cart/add`;
      - `stockBefore`, written by the in-cart and add-to-cart steps, read by
        the stock checks. */
  datatype Scratch = Scratch(signupName: Option<string>, productId: Option<Num>, stockBefore: Option<nat>)

  const EmptyScratch: Scratch := Scratch(None, None, None)

  datatype MyWorld = MyWorld(
    browser: Option<nat>,
    context: Option<nat>,
    page: Option<nat>,
    pages: Option<Registry.PageManager>,
    scratch: Scratch)

  /** The World the runner constructs for a scenario: every handle `null`,
      the registry not yet assigned, and no scratch field present. */
  function NewWorld(): (w: MyWorld)
    ensures w.browser.None? && w.context.None? && w.page.None? && w.pages.None?
    ensures w.scratch.signupName.None? && w.scratch.productId.None? && w.scratch.stockBefore.None?
  {
    MyWorld(None, None, None, None, EmptyScratch)
  }
}
