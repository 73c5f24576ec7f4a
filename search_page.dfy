/**
 * The search results page: the load check, the queries over the result
 * lists, and opening the first result with its fallback.
 */
module SearchPage {
  import opened Wrappers
  import opened Browser

  // ---------------------------------------------------------------------------
  // Queries

  /** `getSearchResultsCount`: the number of result cards. */
  function SearchResultsCount(s: Snapshot): (n: nat)
    ensures n == 0 <==> FindAll(s, SearchResults) == []
  {
    |FindAll(s, SearchResults)|
  }

  /** `getFirstProductName`: the first title's text, or `""` when no title matched. */
  function FirstProductName(s: Snapshot): (name: Option<string>)
    ensures FindAll(s, SearchProductNames) == [] ==> name == Some("")
    ensures FindAll(s, SearchProductNames) != [] ==> name == FindAll(s, SearchProductNames)[0].text
  {
    var products := FindAll(s, SearchProductNames);
    if |products| > 0 then products[0].text else Some("")
  }

  /**
   * `verifySearchResults`, run by the constructor: the wait for a first result
   * times out when there is none, and that timeout is swallowed. The result is
   * the count it reports, or `None` for the timeout; nothing is thrown and the
   * browser is not changed.
   */
  method VerifySearchResults(driver: Driver) returns (found: Option<nat>)
    ensures found.None? <==> SearchResultsCount(driver.State()) == 0
    ensures found.Some? ==> found.value == SearchResultsCount(driver.State()) && found.value > 0
  {
    var first := driver.FindElement(SearchResults);
    if first.Err? {
      return None;
    }
    var results := driver.FindElements(SearchResults);
    found := Some(|results|);
  }

  // ---------------------------------------------------------------------------
  // Opening the first result

  /** Which locator's element was clicked. */
  datatype Selection = FirstCard | TitleLink

  /**
   * `selectFirstProduct`: click the link of the first card; only when that
   * throws, click the first product title, or throw "No products found" when
   * there is none. A failing click on the title propagates.
   */
  function SelectedProduct(s: Snapshot): Run<Result<Selection, Failure>>
  {
    match ClickAt(s, FirstProduct, 0)
    case Ok(t) => Run(t, Ok(FirstCard))
    case Err(_) =>
      var products := FindAll(s, SearchProductNames);
      if |products| > 0 then
        match ClickAt(s, SearchProductNames, 0)
        case Ok(t) => Run(t, Ok(TitleLink))
        case Err(f) => Run(s, Err(f))
      else Run(s, Err(NoProductsFound))
  }

  /** The first card's link is there and displayed, so clicking it does not throw. */
  predicate CardReady(s: Snapshot)
  {
    |FindAll(s, FirstProduct)| > 0 && FindAll(s, FirstProduct)[0].displayed
  }

  /** Which way the selection ends, decided in the source's order. */
  lemma SelectedProductOutcome(s: Snapshot)
    ensures SelectedProduct(s).result == Ok(FirstCard) <==> CardReady(s)
    ensures SelectedProduct(s).result == Ok(TitleLink) <==>
      !CardReady(s) && FindAll(s, SearchProductNames) != [] && FindAll(s, SearchProductNames)[0].displayed
    ensures SelectedProduct(s).result == Err(NoProductsFound) <==>
      !CardReady(s) && FindAll(s, SearchProductNames) == []
    ensures SelectedProduct(s).result == Err(NotInteractable(SearchProductNames)) <==>
      !CardReady(s) && FindAll(s, SearchProductNames) != [] && !FindAll(s, SearchProductNames)[0].displayed
  {
  }

  /** A success is exactly one click, on element 0 of the locator that won; a failure clicks nothing. */
  lemma SelectedProductClicks(s: Snapshot)
    ensures SelectedProduct(s).result == Ok(FirstCard) ==>
      SelectedProduct(s).after.trace == s.trace + [Clicked(FirstProduct, 0)]
    ensures SelectedProduct(s).result == Ok(TitleLink) ==>
      SelectedProduct(s).after.trace == s.trace + [Clicked(SearchProductNames, 0)]
    ensures SelectedProduct(s).result.Err? ==> SelectedProduct(s).after == s
    ensures SelectedProduct(s).after.url == s.url
  {
  }

  /** The titles are consulted only when the first card failed. */
  lemma TitlesOnlyAsFallback(s: Snapshot, titles: seq<Element>)
    requires CardReady(s)
    ensures SelectedProduct(s.(dom := s.dom[SearchProductNames := titles])).result == Ok(FirstCard)
  {
    assert FindAll(s.(dom := s.dom[SearchProductNames := titles]), FirstProduct) == FindAll(s, FirstProduct);
  }

  method SelectFirstProduct(driver: Driver) returns (r: Result<Selection, Failure>)
    modifies driver
    ensures Run(driver.State(), r) == SelectedProduct(old(driver.State()))
  {
    var clicked := driver.Click(FirstProduct, 0);
    if clicked == Pass {
      return Ok(FirstCard);
    }
    var products := driver.FindElements(SearchProductNames);
    if |products| > 0 {
      var alternative := driver.Click(SearchProductNames, 0);
      r := if alternative == Pass then Ok(TitleLink) else Err(alternative.error);
    } else {
      r := Err(NoProductsFound);
    }
  }
}
