/**
 * The product page: whether the product shows an image, its name, adding it
 * to the cart, and the three-tier way from the product page to the cart.
 */
module ProductPage {
  import opened Wrappers
  import opened Browser
  import opened JavaStrings

  // ---------------------------------------------------------------------------
  // Queries

  /**
   * `hasProductImage`: the first image present must be displayed and carry a
   * non-null, non-empty `src`; an image that never appears gives false.
   */
  function HasProductImage(s: Snapshot): (r: bool)
    ensures r <==>
      && |FindAll(s, ProductImage)| > 0
      && FindAll(s, ProductImage)[0].displayed
      && AttributeOf(FindAll(s, ProductImage)[0], "src").Some?
      && AttributeOf(FindAll(s, ProductImage)[0], "src").value != ""
  {
    match Find(s, ProductImage)
    case Err(_) => false
    case Ok(image) =>
      var isDisplayed := image.displayed;
      var src := AttributeOf(image, "src");
      var hasSrc := src.Some? && src.value != "";
      isDisplayed && hasSrc
  }

  /** Only the first image counts: a hidden first image hides a good second one. */
  lemma OnlyFirstImageCounts(s: Snapshot, first: Element, second: Element)
    requires !first.displayed && second.displayed && "src" in second.attributes && second.attributes["src"] != ""
    requires FindAll(s, ProductImage) == [first, second]
    ensures !HasProductImage(s)
  {
  }

  const UnknownProduct: string := "Unknown Product"

  /** `getProductName`: the heading's text, or `"Unknown Product"` when there is no heading. */
  function ProductName(s: Snapshot): (name: Option<string>)
    ensures |FindAll(s, ProductNameHeading)| == 0 ==> name == Some(UnknownProduct)
    ensures |FindAll(s, ProductNameHeading)| > 0 ==> name == FindAll(s, ProductNameHeading)[0].text
  {
    match Find(s, ProductNameHeading)
    case Err(_) => Some(UnknownProduct)
    case Ok(nameElement) => nameElement.text
  }

  // ---------------------------------------------------------------------------
  // Adding to the cart

  /**
   * `waitForCartModal`: waits for the first modal to be visible and swallows
   * the timeout; it reports what it saw and changes nothing.
   */
  method WaitForCartModal(driver: Driver) returns (appeared: bool)
    ensures appeared <==> |FindAll(driver.State(), CartModal)| > 0 && FindAll(driver.State(), CartModal)[0].displayed
  {
    var modal := driver.FindElement(CartModal);
    appeared := modal.Ok? && modal.value.displayed;
  }

  /**
   * `addToCart`: wait until the add button is clickable, then click it; the
   * wait's timeout propagates, the modal wait afterwards never does.
   */
  function AddedToCart(s: Snapshot): (r: Run<Outcome<Failure>>)
    ensures r.result == Pass <==>
      |FindAll(s, AddToCartButton)| > 0 && Clickable(FindAll(s, AddToCartButton)[0])
    ensures r.result.Fail? ==> r.result.error == TimedOut(AddToCartButton) && r.after == s
    ensures r.result == Pass ==> r.after.trace == s.trace + [Clicked(AddToCartButton, 0)] && r.after.url == s.url
  {
    var buttons := FindAll(s, AddToCartButton);
    if |buttons| > 0 && Clickable(buttons[0]) then Run(ClickAt(s, AddToCartButton, 0).value, Pass)
    else Run(s, Fail(TimedOut(AddToCartButton)))
  }

  /** Whatever the cart modal does, adding to the cart ends the same way. */
  lemma AddedToCartIgnoresModal(s: Snapshot, modal: seq<Element>)
    ensures AddedToCart(s.(dom := s.dom[CartModal := modal])).result == AddedToCart(s).result
  {
    assert FindAll(s.(dom := s.dom[CartModal := modal]), AddToCartButton) == FindAll(s, AddToCartButton);
  }

  /** Adding to the cart leaves the product's image and name as they were. */
  lemma AddedToCartKeepsProduct(s: Snapshot)
    ensures HasProductImage(AddedToCart(s).after) == HasProductImage(s)
    ensures ProductName(AddedToCart(s).after) == ProductName(s)
  {
    var t := AddedToCart(s).after;
    assert FindAll(t, ProductImage) == FindAll(s, ProductImage);
    assert FindAll(t, ProductNameHeading) == FindAll(s, ProductNameHeading);
  }

  method AddToCart(driver: Driver) returns (out: Outcome<Failure>)
    modifies driver
    ensures Run(driver.State(), out) == AddedToCart(old(driver.State()))
  {
    var addButton := driver.FindElement(AddToCartButton);
    if addButton.Err? || !Clickable(addButton.value) {
      out := Fail(TimedOut(AddToCartButton));
      return;
    }
    out := driver.Click(AddToCartButton, 0);
    var _ := WaitForCartModal(driver);
  }

  // ---------------------------------------------------------------------------
  // Proceeding to the cart

  /** Which of the three tiers of `proceedToCart` completed. */
  datatype Tier = ModalCheckout | HeaderCartIcon | DirectNavigation

  /** The last-resort address: every `product` in the current one becomes `cart`. */
  function CartUrl(url: string): (r: string)
    ensures |r| <= |url|
    ensures r == url <==> !Contains(url, "product")
  {
    ReplaceIdentityIff(url, "product", "cart");
    ReplaceNotLonger(url, "product", "cart");
    Replace(url, "product", "cart")
  }

  /** The rewritten address mentions `product` nowhere. */
  lemma CartUrlHasNoProduct(url: string)
    ensures !Contains(CartUrl(url), "product")
  {
    var w := "product"[1..];
    assert w == "roduct";
    forall j | 0 <= j < |w| ensures Clashes(w[j..], "cart") {
      if j == 4 {
        assert w[j..][1] != "cart"[1];
      } else {
        assert w[j..][0] != "cart"[0];
      }
    }
    ReplaceRemovesTarget(url, "product", "cart");
  }

  /** A product page address turns into the matching cart address. */
  lemma CartUrlExample()
    ensures CartUrl("/product") == "/cart"
  {
    assert "/product"[..7] != "product" by { assert "/product"[..7][0] == '/'; }
    assert "/product"[1..] == "product";
    assert Replace("product", "product", "cart") == "cart" + Replace("", "product", "cart");
  }

  /** Tier 2: click the first continue-shopping control, then the first header cart icon. */
  function HeaderRoute(s: Snapshot): Result<Snapshot, Failure>
  {
    match ClickAt(s, ContinueShopping, 0)
    case Err(f) => Err(f)
    case Ok(s1) => ClickAt(s1, CartIcon, 0)
  }

  /** Tier 1 is taken when the first checkout control of the modal is clickable. */
  predicate CheckoutReady(s: Snapshot)
  {
    |FindAll(s, ProceedToCheckout)| > 0 && Clickable(FindAll(s, ProceedToCheckout)[0])
  }

  /**
   * Tier 2 completes when both first controls it clicks are displayed; it
   * clicks without waiting, so a disabled control takes the click.
   */
  predicate HeaderReady(s: Snapshot)
  {
    && |FindAll(s, ContinueShopping)| > 0 && FindAll(s, ContinueShopping)[0].displayed
    && |FindAll(s, CartIcon)| > 0 && FindAll(s, CartIcon)[0].displayed
  }

  /**
   * `proceedToCart`: each tier runs only when the one before it threw. When the
   * continue-shopping click succeeded but the cart icon failed, that click has
   * happened before the direct navigation.
   */
  function CartNavigation(s: Snapshot): Run<Tier>
  {
    if CheckoutReady(s) then Run(ClickAt(s, ProceedToCheckout, 0).value, ModalCheckout)
    else
      match HeaderRoute(s)
      case Ok(t) => Run(t, HeaderCartIcon)
      case Err(_) =>
        var s2 := StateAfter(s, ClickAt(s, ContinueShopping, 0));
        Run(Navigate(s2, CartUrl(s2.url)), DirectNavigation)
  }

  /** The tier reached is decided by what can be clicked, in order. */
  lemma CartNavigationTier(s: Snapshot)
    ensures CartNavigation(s).result == ModalCheckout <==> CheckoutReady(s)
    ensures CartNavigation(s).result == HeaderCartIcon <==> !CheckoutReady(s) && HeaderReady(s)
    ensures CartNavigation(s).result == DirectNavigation <==> !CheckoutReady(s) && !HeaderReady(s)
  {
    if !CheckoutReady(s) {
      var r1 := ClickAt(s, ContinueShopping, 0);
      if r1.Ok? {
        assert FindAll(r1.value, CartIcon) == FindAll(s, CartIcon);
      }
    }
  }

  /**
   * What each tier does to the browser: one click on the modal checkout; the
   * continue-shopping click then the cart-icon click; or at most the
   * continue-shopping click followed by the navigation to the rewritten address.
   */
  lemma CartNavigationActions(s: Snapshot)
    ensures var r := CartNavigation(s);
      r.result == ModalCheckout ==> r.after.trace == s.trace + [Clicked(ProceedToCheckout, 0)] && r.after.url == s.url
    ensures var r := CartNavigation(s);
      r.result == HeaderCartIcon ==>
        r.after.trace == s.trace + [Clicked(ContinueShopping, 0), Clicked(CartIcon, 0)] && r.after.url == s.url
    ensures var r := CartNavigation(s);
      r.result == DirectNavigation ==>
        && r.after.url == CartUrl(s.url)
        && (|| r.after.trace == s.trace + [Navigated(CartUrl(s.url))]
            || r.after.trace == s.trace + [Clicked(ContinueShopping, 0), Navigated(CartUrl(s.url))])
  {
    if !CheckoutReady(s) {
      var r1 := ClickAt(s, ContinueShopping, 0);
      if r1.Ok? {
        var r2 := ClickAt(r1.value, CartIcon, 0);
        if r2.Ok? {
          assert r2.value.trace == s.trace + [Clicked(ContinueShopping, 0), Clicked(CartIcon, 0)];
        } else {
          assert Navigate(r1.value, CartUrl(s.url)).trace == s.trace + [Clicked(ContinueShopping, 0), Navigated(CartUrl(s.url))];
        }
      }
    }
  }

  /**
   * `proceedToCart` returns the cart page whichever tier completed; here it
   * returns which tier that was.
   */
  method ProceedToCart(driver: Driver) returns (tier: Tier)
    modifies driver
    ensures Run(driver.State(), tier) == CartNavigation(old(driver.State()))
  {
    var checkoutBtn := driver.FindElement(ProceedToCheckout);
    if checkoutBtn.Ok? && Clickable(checkoutBtn.value) {
      var _ := driver.Click(ProceedToCheckout, 0);
      return ModalCheckout;
    }
    var continued := driver.Click(ContinueShopping, 0);
    if continued == Pass {
      var viaIcon := driver.Click(CartIcon, 0);
      if viaIcon == Pass {
        return HeaderCartIcon;
      }
    }
    var current := driver.GetCurrentUrl();
    driver.Get(CartUrl(current));
    tier := DirectNavigation;
  }
}
