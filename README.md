# PrestaShop page objects, modelled in Dafny

This project models the decision logic of four Selenium page objects that drive a
PrestaShop demo shop through registration, search, product and cart pages:

- `AuthenticationPage`: registration. It generates a 12-character password with
  an in-place shuffle, keeps a fixed list of fallback passwords, and substitutes
  one of them once when the strength indicator rejects the password. It also
  covers the `testuser_<8 chars>@test.com` address with its "fill only when
  empty" rule, the checkbox helpers that click only unselected boxes, the whole
  form fill, and the two-tier Save fallback.
- `ProductPage`: the image and name queries, adding to the cart (where the
  modal wait never propagates), and the three-tier way to the cart: the modal
  checkout, then continue-shopping plus the header cart icon, then direct
  navigation to the address with `product` replaced by `cart`.
- `CartPage`: the item count and the emptiness and membership queries. It also
  covers the subtotal normalisation (`replaceAll("[^0-9.,]", "")` then
  `replace(",", ".")`) and the reading of the result as a number.
- `SearchPage`: the result count, the first title, the load check that
  swallows its timeout, and opening the first result through its fallback.

The browser is the module `Browser`. A `Snapshot` maps each locator of the page
objects to the ordered list of elements it matches. It also holds the current
address and the trace of actions performed so far. WebDriver's
`findElement`, `findElements`, `click`, `clear`/`sendKeys` and `get` are pure
functions on a snapshot. The class `Browser.Driver` holds the same three
fields and performs them in place. Each page-object operation that changes the
browser appears twice:

- a function of the snapshot that returns the state left behind together with
  what the operation returned or threw (`Run(after, result)`);
- a method on the `Driver` whose `ensures` says that it leaves exactly that
  state and returns exactly that result.

The properties are proved about the functions. Every `Math.random()` draw is an
explicit input. A draw `(int) (Math.random() * n)` is a natural number below `n`.
The UUID is given as its text.

Files:

- `wrappers.dfy`: `Option`, `Result` and `Outcome`.
- `java_strings.dfy`: `toLowerCase`, `contains` and the literal `replace`.
- `browser.dfy`: the snapshot and the driver.
- `credentials.dfy`: the password generator, the fallback passwords and the
  email address.
- `authentication_page.dfy`, `product_page.dfy`, `cart_page.dfy` and
  `search_page.dfy`: one module per page object.

The alphabets `"ABC…Z"`, `"abc…z"` and `"01…9"` of the generator are written as
character ranges (`CharRange('A', 26)` and so on). They hold the same
characters in the same order.

## Model

| member | source | states |
|---|---|---|
| JavaStrings.ToLower | src/test/java/pages/AuthenticationPage.java:154 | `toLowerCase` keeps the length and maps each character on its own |
| JavaStrings.ToLowerIdempotent | src/test/java/pages/AuthenticationPage.java:154 | lower-casing twice is lower-casing once |
| JavaStrings.ContainsToLower | src/test/java/pages/AuthenticationPage.java:154 | an occurrence of `w` in `s` stays an occurrence after both are lower-cased |
| JavaStrings.ReplaceWithoutTarget | src/test/java/pages/ProductPage.java:97 | `replace` returns a string without the target unchanged |
| JavaStrings.ReplaceNotLonger | src/test/java/pages/ProductPage.java:97 | a replacement no longer than the target never lengthens the string |
| JavaStrings.ReplaceShortens | src/test/java/pages/ProductPage.java:97 | a strictly shorter replacement strictly shortens a string holding the target |
| JavaStrings.ReplaceIdentityIff | src/test/java/pages/ProductPage.java:97 | with a shorter replacement, `replace` changes nothing if and only if the target does not occur |
| JavaStrings.ReplaceRemovesTarget | src/test/java/pages/ProductPage.java:97 | when the replacement cannot start or complete an occurrence, no occurrence of the target is left |
| Browser.Find | src/test/java/pages/AuthenticationPage.java:34 | `findElement` yields the first match, and `NoSuchElement` exactly when nothing matches |
| Browser.ClickAt | src/test/java/pages/AuthenticationPage.java:233-234 | a click succeeds exactly on an existing, displayed element; an enabled one has its selection toggled, a disabled one keeps it; the click is recorded, the number of matches and the address are kept; otherwise it fails with `NotInteractable` (hidden) or `NoSuchElement` (missing). `ClickAtFrame` and `ClickAtElements` state that nothing else changes |
| Browser.ClickAtFrame | src/test/java/pages/AuthenticationPage.java:233-234 | a click leaves the matches of every other locator as they were |
| Browser.ClickAtElements | src/test/java/pages/AuthenticationPage.java:233-234 | a click changes only the clicked element's selection, and only when it is enabled; the other matches of its locator are kept |
| Browser.TypeInto | src/test/java/pages/AuthenticationPage.java:44-46 | find, `clear` and `sendKeys` succeed exactly on an interactable first match, whose `value` becomes the text; otherwise the error kind is given. `TypeIntoFrame` and `TypeIntoElements` state that nothing else changes |
| Browser.TypeIntoFrame | src/test/java/pages/AuthenticationPage.java:44-46 | typing leaves the matches of every other locator as they were |
| Browser.TypeIntoElements | src/test/java/pages/AuthenticationPage.java:44-46 | typing changes only the first match's `value` attribute; its other attributes and fields and the other matches are kept |
| Credentials.CharRange | src/test/java/pages/AuthenticationPage.java:94-96 | an alphabet has the given length and holds consecutive characters in order |
| Credentials.InCharRange | src/test/java/pages/AuthenticationPage.java:94-96 | every character between the bounds is in the alphabet |
| Credentials.ClassSeeds | src/test/java/pages/AuthenticationPage.java:101-105 | the four seeded characters are one uppercase, one lowercase, one digit and one special character, in that order |
| Credentials.Filler | src/test/java/pages/AuthenticationPage.java:107-111 | the filler has one character per draw, each from the union alphabet |
| Credentials.Swap | src/test/java/pages/AuthenticationPage.java:117-119 | a swap keeps the length and the multiset of characters |
| Credentials.ShuffledUpTo | src/test/java/pages/AuthenticationPage.java:114-120 | the shuffle keeps the length |
| Credentials.ShuffledUpToPermutes | src/test/java/pages/AuthenticationPage.java:114-120 | after any number of iterations the array is a permutation of the input |
| Credentials.PermutationKeepsClass | src/test/java/pages/AuthenticationPage.java:101-105 | a permutation keeps every character class that was present |
| Credentials.PermutationKeepsAlphabet | src/test/java/pages/AuthenticationPage.java:108-120 | a permutation of a string over the union alphabet is over the union alphabet |
| Credentials.SeedsOverAllChars | src/test/java/pages/AuthenticationPage.java:101-108 | the seeded characters belong to the union alphabet |
| Credentials.ConcatOverAllChars | src/test/java/pages/AuthenticationPage.java:99-111 | appending keeps a password over the union alphabet |
| Credentials.StrongPasswordMeetsPolicy | src/test/java/pages/AuthenticationPage.java:92-123 | the generated password has length exactly 12, is over the union alphabet, is a permutation of the seeds plus the filler, and has an uppercase letter, a lowercase letter, a digit and a special character |
| Credentials.Shuffle | src/test/java/pages/AuthenticationPage.java:114-120 | the in-place loop leaves the array as the specified shuffle, a permutation of the input |
| Credentials.GenerateStrongPassword | src/test/java/pages/AuthenticationPage.java:92-123 | the builder returns the specified password, of length 12, over the union alphabet and meeting the policy |
| Credentials.PolicyWitness | src/test/java/pages/AuthenticationPage.java:127-136 | a string of length at least 12 with a known position of each class meets the policy |
| Credentials.PredefinedPasswordsMeetPolicy | src/test/java/pages/AuthenticationPage.java:126-137 | each of the eight predefined passwords has length at least 12 and one character of each class |
| Credentials.PredefinedStrongPassword | src/test/java/pages/AuthenticationPage.java:126-138 | the password drawn is one of the list and meets the policy |
| Credentials.GenerateUniqueEmail | src/test/java/pages/AuthenticationPage.java:258-260 | the address has 26 characters, starts with `testuser_` and ends with `@test.com` |
| Credentials.EmailIdentifierRoundTrip | src/test/java/pages/AuthenticationPage.java:258-260 | the eight middle characters of the address are the first eight of the UUID text |
| Credentials.EmailsCollideIff | src/test/java/pages/AuthenticationPage.java:258-260 | two addresses are equal exactly when the UUID texts share their first eight characters |
| AuthenticationPage.StrongIndicatorAccepted | src/test/java/pages/AuthenticationPage.java:150-154 | an indicator saying `strong`, `Strong` or `STRONG` never triggers the substitution |
| AuthenticationPage.AfterStrengthCheck | src/test/java/pages/AuthenticationPage.java:148-165 | a missing indicator, a null text or a text containing `strong` changes nothing. Otherwise the one change is at most a single typing of the drawn predefined password, which the field then holds; and when the indicator rejects the password and the field can be typed into, the predefined password is typed. A password field that cannot be typed into leaves the page as it was. The address is kept, and `AfterStrengthCheckFrame` states that no other element changes |
| AuthenticationPage.AfterStrengthCheckFrame | src/test/java/pages/AuthenticationPage.java:148-165 | the strength check leaves the matches of every locator but the password field as they were |
| AuthenticationPage.WaitForPasswordStrength | src/test/java/pages/AuthenticationPage.java:141-169 | the method leaves exactly the state of the strength check |
| AuthenticationPage.EnsureSelected | src/test/java/pages/AuthenticationPage.java:33-41 | a box found selected or clickable ends selected; the only possible action is one click on a box found unselected; a missing box changes nothing |
| AuthenticationPage.EnsureSelectedFrame | src/test/java/pages/AuthenticationPage.java:33-41 | selecting one box leaves the matches of every other locator as they were |
| AuthenticationPage.SelectIfUnselected | src/test/java/pages/AuthenticationPage.java:175-183 | the method leaves exactly the state of `EnsureSelected` |
| AuthenticationPage.SelectEachFrame | src/test/java/pages/AuthenticationPage.java:171-216 | visiting boxes changes no other locator and not the address |
| AuthenticationPage.SelectEachSelects | src/test/java/pages/AuthenticationPage.java:171-216 | each visited box found selected or clickable ends selected, whatever happens to the others |
| AuthenticationPage.SelectEachClicks | src/test/java/pages/AuthenticationPage.java:171-216 | visiting boxes only appends actions, each a click on a listed box that was unselected |
| AuthenticationPage.RequiredCheckboxesListed | src/test/java/pages/AuthenticationPage.java:174-215 | the four visited boxes are exactly the required checkboxes, none twice |
| AuthenticationPage.CheckedBoxesFrame | src/test/java/pages/AuthenticationPage.java:171-216 | `checkRequiredCheckboxes` changes no other locator and not the address |
| AuthenticationPage.CheckedBoxesSelects | src/test/java/pages/AuthenticationPage.java:171-216 | a missing box does not stop the others: every required box found selected or clickable ends selected |
| AuthenticationPage.CheckedBoxesClicks | src/test/java/pages/AuthenticationPage.java:171-216 | a box is clicked only when it was found unselected, and nothing but such clicks happens |
| AuthenticationPage.CheckRequiredCheckboxes | src/test/java/pages/AuthenticationPage.java:171-216 | the method leaves exactly the state of `CheckedBoxes` |
| AuthenticationPage.FilledEmail | src/test/java/pages/AuthenticationPage.java:56-65 | a missing field throws; a field holding an address is left as it is; a null or empty one gets the generated address typed |
| AuthenticationPage.FilledContactFrame | src/test/java/pages/AuthenticationPage.java:32-65 | gender, names and email write only to the form's fields |
| AuthenticationPage.FilledFieldsFrame | src/test/java/pages/AuthenticationPage.java:32-72 | the statements up to the password write only to the form's fields |
| AuthenticationPage.FilledFieldsPasswordAndEmail | src/test/java/pages/AuthenticationPage.java:55-72 | after the first part the password field holds the password and the email rule holds; a pre-filled address is kept even when a later statement throws |
| AuthenticationPage.FinishedFormKeepsEmail | src/test/java/pages/AuthenticationPage.java:74-88 | the strength check, birthdate and checkboxes leave the email field alone |
| AuthenticationPage.FinishedFormPassword | src/test/java/pages/AuthenticationPage.java:74-88 | after those steps the password field is as it was or holds the predefined password |
| AuthenticationPage.FinishedFormPasswordChoice | src/test/java/pages/AuthenticationPage.java:74-88 | with a password field that can be typed into, those steps leave the predefined password in it exactly when the indicator rejects the password, and the field unchanged otherwise |
| AuthenticationPage.FilledFieldsKeepsIndicator | src/test/java/pages/AuthenticationPage.java:32-72 | after the first part of the form the password field can still be typed into and the strength indicator is unchanged |
| AuthenticationPage.FinishedFormChecksBox | src/test/java/pages/AuthenticationPage.java:74-88 | after those steps a required box found selected or clickable is selected |
| AuthenticationPage.FilledFormPassword | src/test/java/pages/AuthenticationPage.java:29-89 | a form filled without an exception holds the predefined password when the indicator rejected the generated one, and the generated password otherwise |
| AuthenticationPage.FilledFormPasswordMeetsPolicy | src/test/java/pages/AuthenticationPage.java:29-89 | whichever of the two it holds, the password meets the policy |
| AuthenticationPage.FilledFormEmailRule | src/test/java/pages/AuthenticationPage.java:55-65 | a pre-filled address is never rewritten, whatever the outcome; an empty field holds the generated address once the form is filled |
| AuthenticationPage.FilledFormChecksBoxes | src/test/java/pages/AuthenticationPage.java:29-89 | a filled form has every required box selected that was selected or clickable |
| AuthenticationPage.FillContactFields | src/test/java/pages/AuthenticationPage.java:29-65 | the method leaves exactly the state and outcome of `FilledContact` |
| AuthenticationPage.FillRegistrationForm | src/test/java/pages/AuthenticationPage.java:29-89 | the method, with the generator's password, leaves exactly the state and outcome of `FilledForm` |
| AuthenticationPage.SubmittedForm | src/test/java/pages/AuthenticationPage.java:232-248 | the primary Save is clicked when it can be; the alternative only when the primary throws; the alternative's exception escapes exactly when both fail, with nothing clicked |
| AuthenticationPage.SubmitRegistration | src/test/java/pages/AuthenticationPage.java:232-248 | the method leaves exactly the state and result of `SubmittedForm` |
| ProductPage.HasProductImage | src/test/java/pages/ProductPage.java:22-35 | true exactly when the first image exists, is displayed and has a non-null, non-empty `src` |
| ProductPage.OnlyFirstImageCounts | src/test/java/pages/ProductPage.java:25-30 | a hidden first image gives false even when a second one would pass |
| ProductPage.ProductName | src/test/java/pages/ProductPage.java:106-113 | the heading's text, or `Unknown Product` when there is no heading |
| ProductPage.WaitForCartModal | src/test/java/pages/ProductPage.java:60-70 | the wait reports whether the first modal is visible and throws nothing |
| ProductPage.AddedToCart | src/test/java/pages/ProductPage.java:37-58 | success exactly when the add button is clickable, with one click recorded; otherwise a timeout propagates and nothing changes |
| ProductPage.AddedToCartIgnoresModal | src/test/java/pages/ProductPage.java:51-69 | the modal's presence never changes the outcome of adding to the cart |
| ProductPage.AddedToCartKeepsProduct | src/test/java/pages/ProductPage.java:37-58 | adding to the cart leaves the image check and the product name as they were |
| ProductPage.AddToCart | src/test/java/pages/ProductPage.java:37-58 | the method leaves exactly the state and outcome of `AddedToCart` |
| ProductPage.CartUrl | src/test/java/pages/ProductPage.java:97 | the rewritten address is no longer, and equals the current one exactly when it holds no `product` |
| ProductPage.CartUrlHasNoProduct | src/test/java/pages/ProductPage.java:97 | the rewritten address holds no `product` |
| ProductPage.CartUrlExample | src/test/java/pages/ProductPage.java:97 | `/product` becomes `/cart` |
| ProductPage.CartNavigationTier | src/test/java/pages/ProductPage.java:75-100 | tier 1 exactly when the checkout control is clickable; tier 2 exactly when it is not and both header controls are displayed, since they are clicked without a wait; tier 3 otherwise |
| ProductPage.CartNavigationActions | src/test/java/pages/ProductPage.java:75-100 | the actions of each tier: one checkout click; the continue and cart-icon clicks; or the navigation to the rewritten address, after the continue click when that one succeeded |
| ProductPage.ProceedToCart | src/test/java/pages/ProductPage.java:72-104 | the method leaves exactly the state of `CartNavigation` and returns the tier that completed |
| CartPage.CartItemCount | src/test/java/pages/CartPage.java:56-59 | the count is zero exactly when no cart line matched |
| CartPage.IsProductInCart | src/test/java/pages/CartPage.java:37-54 | a product is in the cart exactly when the item count is positive |
| CartPage.ProductInCartIgnoresNames | src/test/java/pages/CartPage.java:45-51 | the product-name loop never changes the answer |
| CartPage.FirstProductName | src/test/java/pages/CartPage.java:61-71 | `""` when no name matched, otherwise the first name's text |
| CartPage.IsCartEmpty | src/test/java/pages/CartPage.java:73-80 | true exactly when the empty message exists and is displayed; false when it is absent |
| CartPage.KeepNumeric | src/test/java/pages/CartPage.java:87 | stripping is no longer than the text and keeps only digits, `.` and `,` |
| CartPage.KeepNumericConcat | src/test/java/pages/CartPage.java:87 | stripping works piece by piece |
| CartPage.KeepNumericIdentity | src/test/java/pages/CartPage.java:87 | stripping changes nothing exactly when the text holds only digits, `.` and `,` |
| CartPage.KeepNumericOfNumeric | src/test/java/pages/CartPage.java:87 | stripping text of only digits, `.` and `,` changes nothing |
| CartPage.KeepNumericAfterSign | src/test/java/pages/CartPage.java:86-87 | a leading currency sign is dropped |
| CartPage.KeepNumericDigits | src/test/java/pages/CartPage.java:87 | every digit left by stripping was a digit of the text |
| CartPage.CommasToDots | src/test/java/pages/CartPage.java:87 | each `,` becomes `.`, every other character stays |
| CartPage.CommasToDotsIsReplace | src/test/java/pages/CartPage.java:87 | this equals Java's literal `replace(",", ".")` |
| CartPage.NormalisedSubtotal | src/test/java/pages/CartPage.java:87 | the normalised text is no longer than the text and holds only digits and `.` |
| CartPage.NormalisedSubtotalIdempotent | src/test/java/pages/CartPage.java:87 | normalising twice is normalising once |
| CartPage.NormalisedSubtotalConcat | src/test/java/pages/CartPage.java:87 | normalisation works piece by piece |
| CartPage.NormalisedSubtotalExamples | src/test/java/pages/CartPage.java:86-87 | `$29.00` and `€29,00` both normalise to `29.00` |
| CartPage.DecimalValue | src/test/java/pages/CartPage.java:88 | the parsed value is never negative |
| CartPage.DecimalExample | src/test/java/pages/CartPage.java:88 | `29.00` parses and is worth 29 |
| CartPage.SubtotalOf | src/test/java/pages/CartPage.java:85-92 | never negative; 0.0 for a null text or a text that does not parse once normalised |
| CartPage.Subtotal | src/test/java/pages/CartPage.java:82-93 | never negative; 0.0 when the element is missing, otherwise the reading of the first element's text |
| CartPage.NoDigitsReadsZero | src/test/java/pages/CartPage.java:87-91 | a text without digits reads as 0.0 |
| CartPage.SubtotalExamples | src/test/java/pages/CartPage.java:86-88 | `$29.00` and `€29,00` both read as 29 |
| CartPage.GroupedSubtotalNormalised | src/test/java/pages/CartPage.java:87 | `$1,234.56` normalises to `1.234.56` |
| CartPage.GroupedSubtotalReadsZero | src/test/java/pages/CartPage.java:87-91 | `$1,234.56` does not parse once normalised and reads as 0.0 |
| SearchPage.SearchResultsCount | src/test/java/pages/SearchPage.java:72-75 | the count is zero exactly when no result card matched |
| SearchPage.FirstProductName | src/test/java/pages/SearchPage.java:60-70 | `""` when no title matched, otherwise the first title's text |
| SearchPage.VerifySearchResults | src/test/java/pages/SearchPage.java:22-30 | the check never throws: it reports the positive count, or the swallowed timeout exactly when there is no result |
| SearchPage.SelectedProductOutcome | src/test/java/pages/SearchPage.java:35-54 | the first card is used exactly when it is displayed. Otherwise the first title is used when there is one and it is displayed; "No products found" is thrown exactly when the card failed and there is no title; a title that cannot be clicked propagates its failure |
| SearchPage.SelectedProductClicks | src/test/java/pages/SearchPage.java:42-50 | a success is exactly one click on element 0 of the locator that won; a failure clicks nothing; the address is kept |
| SearchPage.TitlesOnlyAsFallback | src/test/java/pages/SearchPage.java:35-47 | when the first card can be clicked, the titles play no part |
| SearchPage.SelectFirstProduct | src/test/java/pages/SearchPage.java:32-58 | the method leaves exactly the state and result of `SelectedProduct` |

## Left out

- Waiting and timing. `WebDriverWait`, `Thread.sleep` and `waitForFullLoad` are not modelled. A wait for a condition is modelled as the condition holding on the current snapshot, and a condition that does not hold is the timeout. BasePage is not part of this model.
- Elements do not change by themselves. A click changes at most the selection of the element clicked, and `driver.get` changes only the address and not the elements. The next page's contents are not derived from the action.
- Locators are independent. An element matched by two locators appears as two separate entries.
- `scrollIntoView` and the first Save lookup used only for scrolling (AuthenticationPage.java:222-229) are left out, as is all console logging. None of them changes what a method returns or throws.
- `InterruptedException` from `Thread.sleep` is not modelled.
- JavaStrings.ToLower: lower-cases ASCII letters only, not the full Unicode mapping of `toLowerCase`.
- The distribution of `Math.random()` is left out, including the bias of the swap-with-any-index shuffle. So is the uniqueness of `UUID.randomUUID()`. Draws and the UUID text are inputs, and only their ranges are modelled.
- CartPage.DecimalValue: gives the exact decimal value and not the nearest `double`. On text made of digits and one dot, `Double.parseDouble` accepts exactly what `Parseable` accepts.
- The whole flows of the test class, the browser factory, HomePage and LoginPage are not part of this model. The same goes for `verifyCartPageLoaded` in the CartPage constructor, which only swallows a timeout.
- Text with thousands separators, such as `$1,234.56`: both separators become dots, the text no longer parses, and the subtotal is 0.0. `CartPage.GroupedSubtotalReadsZero` states this.
