/**
 * The browser as the page objects see it: for each logical locator (one `By`
 * expression of a page object) the ordered list of elements it currently
 * matches, the current address, and the trace of actions performed so far.
 *
 * Element lookup, `click`, `clear`/`sendKeys` and `get` are given here as
 * functions on a snapshot, and the class `Driver` performs them in place.
 */
module Browser {
  import opened Wrappers

  /** One `By` expression of one page object. */
  datatype Locator =
    // AuthenticationPage
    | GenderMr | FirstNameInput | LastNameInput | EmailInput | PasswordInput | BirthdateInput
    | OffersCheckbox | TermsCheckbox | NewsletterCheckbox | CustomerPrivacyCheckbox
    | SaveButton | AltSaveButton | PasswordStrength
    // ProductPage
    | ProductImage | AddToCartButton | ProductNameHeading | CartModal
    | ProceedToCheckout | ContinueShopping | CartIcon
    // CartPage
    | CartItems | CartProductNames | CartSubtotal | EmptyCartMessage
    // SearchPage
    | SearchResults | FirstProduct | SearchProductNames

  /**
   * What WebDriver reports about one element. `text` is `getText()` (a Java
   * string, possibly null) and `attributes` gives `getAttribute(name)`; a name
   * not in the map reads as null.
   */
  datatype Element = Element(
    displayed: bool,
    enabled: bool,
    selected: bool,
    text: Option<string>,
    attributes: map<string, string>)

  /** The exceptions a WebDriver call or the page objects can throw. */
  datatype Failure =
    | NoSuchElement(locator: Locator)      // findElement matched nothing
    | NotInteractable(locator: Locator)    // click on a hidden element; clear/sendKeys on a hidden or disabled one
    | TimedOut(locator: Locator)           // a WebDriverWait condition never held
    | NoProductsFound                      // SearchPage's own RuntimeException

  /** An action that changed the browser, in the order performed. */
  datatype Action =
    | Clicked(locator: Locator, index: nat)
    | Typed(locator: Locator, text: string)
    | Navigated(url: string)

  datatype Snapshot = Snapshot(dom: map<Locator, seq<Element>>, url: string, trace: seq<Action>)

  /** The state after a cascade of driver calls, with what the cascade produced. */
  datatype Run<T> = Run(after: Snapshot, result: T)

  /** `driver.findElements(loc)`: every element the locator matches, in document order. */
  function FindAll(s: Snapshot, loc: Locator): seq<Element>
  {
    if loc in s.dom then s.dom[loc] else []
  }

  /** `driver.findElement(loc)`: the first match, or `NoSuchElementException`. */
  function Find(s: Snapshot, loc: Locator): (r: Result<Element, Failure>)
    ensures r.Ok? <==> |FindAll(s, loc)| > 0
    ensures r.Ok? ==> r.value == FindAll(s, loc)[0]
    ensures r.Err? ==> r.error == NoSuchElement(loc)
  {
    var es := FindAll(s, loc);
    if |es| == 0 then Err(NoSuchElement(loc)) else Ok(es[0])
  }

  /** `ExpectedConditions.elementToBeClickable`: visible and enabled. */
  predicate Clickable(e: Element)
  {
    e.displayed && e.enabled
  }

  /** `element.getAttribute(name)`. */
  function AttributeOf(e: Element, name: string): Option<string>
  {
    if name in e.attributes then Some(e.attributes[name]) else None
  }

  /**
   * Click the `i`-th element the locator matches. A hidden element cannot be
   * clicked. A disabled one takes the click without effect, as WebDriver's
   * `click` does not look at `disabled`. On an enabled element the click toggles
   * its selected state (a checkbox; nothing else reads it).
   */
  function ClickAt(s: Snapshot, loc: Locator, i: nat): (r: Result<Snapshot, Failure>)
    ensures r.Ok? <==> i < |FindAll(s, loc)| && FindAll(s, loc)[i].displayed
    ensures r.Ok? ==>
      && |FindAll(r.value, loc)| == |FindAll(s, loc)|
      && FindAll(r.value, loc)[i].selected == (FindAll(s, loc)[i].selected != FindAll(s, loc)[i].enabled)
      && r.value.trace == s.trace + [Clicked(loc, i)]
      && r.value.url == s.url
    ensures r.Err? ==> r.error == (if i < |FindAll(s, loc)| then NotInteractable(loc) else NoSuchElement(loc))
  {
    var es := FindAll(s, loc);
    if i >= |es| then Err(NoSuchElement(loc))
    else if !es[i].displayed then Err(NotInteractable(loc))
    else
      var e := if es[i].enabled then es[i].(selected := !es[i].selected) else es[i];
      Ok(s.(dom := s.dom[loc := es[i := e]], trace := s.trace + [Clicked(loc, i)]))
  }

  /** A click leaves every other locator's elements as they were. */
  lemma ClickAtFrame(s: Snapshot, loc: Locator, i: nat, l: Locator)
    requires ClickAt(s, loc, i).Ok? && l != loc
    ensures FindAll(ClickAt(s, loc, i).value, l) == FindAll(s, l)
  {
  }

  /**
   * A click changes, among the elements of its locator, only the selected
   * state of the element clicked, and that only when it is enabled.
   */
  lemma ClickAtElements(s: Snapshot, loc: Locator, i: nat)
    requires ClickAt(s, loc, i).Ok?
    ensures var es := FindAll(s, loc);
      FindAll(ClickAt(s, loc, i).value, loc) == es[i := es[i].(selected := es[i].selected != es[i].enabled)]
  {
    var es := FindAll(s, loc);
    assert es[i].(selected := es[i].selected != es[i].enabled) == (if es[i].enabled then es[i].(selected := !es[i].selected) else es[i]);
  }

  /**
   * `findElement(loc)`, then `clear()` and `sendKeys(text)` on it: the field's
   * `value` becomes `text`.
   */
  function TypeInto(s: Snapshot, loc: Locator, text: string): (r: Result<Snapshot, Failure>)
    ensures r.Ok? <==> |FindAll(s, loc)| > 0 && Clickable(FindAll(s, loc)[0])
    ensures r.Ok? ==>
      && Find(r.value, loc).Ok?
      && AttributeOf(Find(r.value, loc).value, "value") == Some(text)
      && r.value.trace == s.trace + [Typed(loc, text)]
      && r.value.url == s.url
    ensures r.Err? ==> r.error == (if |FindAll(s, loc)| > 0 then NotInteractable(loc) else NoSuchElement(loc))
  {
    var es := FindAll(s, loc);
    if |es| == 0 then Err(NoSuchElement(loc))
    else if !Clickable(es[0]) then Err(NotInteractable(loc))
    else
      var e := es[0].(attributes := es[0].attributes["value" := text]);
      Ok(s.(dom := s.dom[loc := es[0 := e]], trace := s.trace + [Typed(loc, text)]))
  }

  /** Typing leaves every other locator's elements as they were. */
  lemma TypeIntoFrame(s: Snapshot, loc: Locator, text: string, l: Locator)
    requires TypeInto(s, loc, text).Ok? && l != loc
    ensures FindAll(TypeInto(s, loc, text).value, l) == FindAll(s, l)
  {
  }

  /**
   * Typing changes, among the elements of its locator, only the `value`
   * attribute of the first one; its other attributes and fields are kept.
   */
  lemma TypeIntoElements(s: Snapshot, loc: Locator, text: string)
    requires TypeInto(s, loc, text).Ok?
    ensures var es := FindAll(s, loc);
      FindAll(TypeInto(s, loc, text).value, loc) == es[0 := es[0].(attributes := es[0].attributes["value" := text])]
  {
  }

  /** `driver.get(url)`: the new address is recorded; the elements are left as they are. */
  function Navigate(s: Snapshot, url: string): (r: Snapshot)
    ensures r.url == url && r.trace == s.trace + [Navigated(url)] && r.dom == s.dom
  {
    s.(url := url, trace := s.trace + [Navigated(url)])
  }

  /** The state left behind by an action that either completed or threw. */
  function StateAfter(s: Snapshot, r: Result<Snapshot, Failure>): Snapshot
  {
    if r.Ok? then r.value else s
  }

  /** The outcome of an action, without its state. */
  function OutcomeOf(r: Result<Snapshot, Failure>): Outcome<Failure>
  {
    if r.Ok? then Pass else Fail(r.error)
  }

  /** The WebDriver session, changed in place by the page objects. */
  class Driver {
    var dom: map<Locator, seq<Element>>
    var url: string
    var trace: seq<Action>

    constructor (s: Snapshot)
      ensures State() == s
    {
      dom, url, trace := s.dom, s.url, s.trace;
    }

    function State(): Snapshot
      reads this
    {
      Snapshot(dom, url, trace)
    }

    method FindElement(loc: Locator) returns (r: Result<Element, Failure>)
      ensures r == Find(State(), loc)
    {
      r := Find(State(), loc);
    }

    method FindElements(loc: Locator) returns (es: seq<Element>)
      ensures es == FindAll(State(), loc)
    {
      es := if loc in dom then dom[loc] else [];
    }

    method GetCurrentUrl() returns (u: string)
      ensures u == url
    {
      u := url;
    }

    method Click(loc: Locator, i: nat) returns (out: Outcome<Failure>)
      modifies this
      ensures State() == StateAfter(old(State()), ClickAt(old(State()), loc, i))
      ensures out == OutcomeOf(ClickAt(old(State()), loc, i))
    {
      var r := ClickAt(State(), loc, i);
      if r.Ok? {
        dom, trace := r.value.dom, r.value.trace;
        out := Pass;
      } else {
        out := Fail(r.error);
      }
    }

    method ClearAndType(loc: Locator, text: string) returns (out: Outcome<Failure>)
      modifies this
      ensures State() == StateAfter(old(State()), TypeInto(old(State()), loc, text))
      ensures out == OutcomeOf(TypeInto(old(State()), loc, text))
    {
      var r := TypeInto(State(), loc, text);
      if r.Ok? {
        dom, trace := r.value.dom, r.value.trace;
        out := Pass;
      } else {
        out := Fail(r.error);
      }
    }

    method Get(target: string)
      modifies this
      ensures State() == Navigate(old(State()), target)
    {
      url, trace := target, trace + [Navigated(target)];
    }
  }
}
