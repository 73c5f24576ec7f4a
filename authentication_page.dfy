/**
 * The registration page object: the password-strength substitution, the
 * email-fill rule, the checkbox helpers, the whole form fill and the
 * two-tier Save fallback.
 *
 * Each decision is a function of the browser snapshot, and the method of the
 * same step performs it on the `Driver` and is proved to leave exactly the
 * state (and throw exactly the exception) that function describes.
 */
module AuthenticationPage {
  import opened Wrappers
  import opened Browser
  import opened JavaStrings
  import opened Credentials

  // ---------------------------------------------------------------------------
  // Password strength feedback

  /** The indicator rejects the password: it was found, its text is non-null and lacks "strong". */
  predicate RejectsPassword(indicator: Result<Element, Failure>)
  {
    && indicator.Ok?
    && indicator.value.text.Some?
    && !Contains(ToLower(indicator.value.text.value), "strong")
  }

  /** An indicator whose text says "Strong", in any of its usual spellings, never triggers the substitution. */
  lemma StrongIndicatorAccepted(e: Element)
    requires e.text.Some?
    requires Contains(e.text.value, "strong") || Contains(e.text.value, "Strong") || Contains(e.text.value, "STRONG")
    ensures !RejectsPassword(Ok(e))
  {
    var t := e.text.value;
    if Contains(t, "strong") {
      ContainsToLower(t, "strong");
    } else if Contains(t, "Strong") {
      ContainsToLower(t, "Strong");
    } else {
      ContainsToLower(t, "STRONG");
    }
    assert ToLower("strong") == "strong" && ToLower("Strong") == "strong" && ToLower("STRONG") == "strong";
  }

  /**
   * `waitForPasswordStrength`: when the indicator rejects the password, one
   * predefined password (draw `k`) is typed once, with no re-check; a missing
   * indicator, or a password field that cannot be typed into, changes nothing.
   */
  function AfterStrengthCheck(s: Snapshot, k: nat): (t: Snapshot)
    requires k < PredefinedCount
    ensures !RejectsPassword(Find(s, PasswordStrength)) ==> t == s
    ensures RejectsPassword(Find(s, PasswordStrength)) && |FindAll(s, PasswordInput)| > 0 && Clickable(FindAll(s, PasswordInput)[0]) ==>
      && Find(t, PasswordInput).Ok?
      && AttributeOf(Find(t, PasswordInput).value, "value") == Some(PredefinedStrongPassword(k))
    ensures t == s || t.trace == s.trace + [Typed(PasswordInput, PredefinedStrongPassword(k))]
    ensures t != s ==>
      && RejectsPassword(Find(s, PasswordStrength))
      && Find(t, PasswordInput).Ok?
      && AttributeOf(Find(t, PasswordInput).value, "value") == Some(PredefinedStrongPassword(k))
    ensures !(|FindAll(s, PasswordInput)| > 0 && Clickable(FindAll(s, PasswordInput)[0])) ==> t == s
    ensures t.url == s.url
  {
    if RejectsPassword(Find(s, PasswordStrength)) then
      StateAfter(s, TypeInto(s, PasswordInput, PredefinedStrongPassword(k)))
    else s
  }

  /** The strength check touches no element but the password field. */
  lemma AfterStrengthCheckFrame(s: Snapshot, k: nat, l: Locator)
    requires k < PredefinedCount
    requires l != PasswordInput
    ensures FindAll(AfterStrengthCheck(s, k), l) == FindAll(s, l)
  {
    if RejectsPassword(Find(s, PasswordStrength)) && TypeInto(s, PasswordInput, PredefinedStrongPassword(k)).Ok? {
      TypeIntoFrame(s, PasswordInput, PredefinedStrongPassword(k), l);
    }
  }

  method WaitForPasswordStrength(driver: Driver, k: nat)
    requires k < PredefinedCount
    modifies driver
    ensures driver.State() == AfterStrengthCheck(old(driver.State()), k)
  {
    var strengthIndicator := driver.FindElement(PasswordStrength);
    if strengthIndicator.Ok? {
      var strengthText := strengthIndicator.value.text;
      if strengthText.Some? && !Contains(ToLower(strengthText.value), "strong") {
        var alternativePassword := PredefinedStrongPassword(k);
        var _ := driver.ClearAndType(PasswordInput, alternativePassword);
      }
    }
  }

  // ---------------------------------------------------------------------------
  // Checkboxes and the gender radio

  /**
   * Find the box and click it only when it is not selected; a missing box or
   * a failed click is swallowed.
   */
  function EnsureSelected(s: Snapshot, loc: Locator): (t: Snapshot)
    ensures t.url == s.url
    ensures Find(s, loc).Ok? && (Find(s, loc).value.selected || Clickable(Find(s, loc).value)) ==>
      Find(t, loc).Ok? && Find(t, loc).value.selected
    ensures t == s || (Find(s, loc).Ok? && !Find(s, loc).value.selected && t.trace == s.trace + [Clicked(loc, 0)])
  {
    match Find(s, loc)
    case Err(_) => s
    case Ok(box) => if box.selected then s else StateAfter(s, ClickAt(s, loc, 0))
  }

  /** Selecting one box touches no element but that box's matches. */
  lemma EnsureSelectedFrame(s: Snapshot, loc: Locator, l: Locator)
    requires l != loc
    ensures FindAll(EnsureSelected(s, loc), l) == FindAll(s, l)
  {
    if Find(s, loc).Ok? && !Find(s, loc).value.selected && ClickAt(s, loc, 0).Ok? {
      ClickAtFrame(s, loc, 0, l);
    }
  }

  method SelectIfUnselected(driver: Driver, loc: Locator)
    modifies driver
    ensures driver.State() == EnsureSelected(old(driver.State()), loc)
  {
    var box := driver.FindElement(loc);
    if box.Ok? && !box.value.selected {
      var _ := driver.Click(loc, 0);
    }
  }

  /** The boxes `checkRequiredCheckboxes` visits, in order. */
  const RequiredCheckboxes: seq<Locator> := [CustomerPrivacyCheckbox, TermsCheckbox, NewsletterCheckbox, OffersCheckbox]

  predicate RequiredCheckbox(l: Locator)
  {
    l.CustomerPrivacyCheckbox? || l.TermsCheckbox? || l.NewsletterCheckbox? || l.OffersCheckbox?
  }

  /** Visit each box of `boxes` in turn, each in its own try/catch. */
  function SelectEach(s: Snapshot, boxes: seq<Locator>): (t: Snapshot)
    decreases |boxes|
  {
    if boxes == [] then s else SelectEach(EnsureSelected(s, boxes[0]), boxes[1..])
  }

  /** Visiting a list of boxes leaves every other locator and the address alone. */
  lemma {:induction false} SelectEachFrame(s: Snapshot, boxes: seq<Locator>)
    ensures forall l :: l !in boxes ==> FindAll(SelectEach(s, boxes), l) == FindAll(s, l)
    ensures SelectEach(s, boxes).url == s.url
    decreases |boxes|
  {
    if boxes != [] {
      SelectEachFrame(EnsureSelected(s, boxes[0]), boxes[1..]);
    }
  }

  /** No locator occurs twice in the list. */
  predicate Distinct(boxes: seq<Locator>)
  {
    forall i, j :: 0 <= i < j < |boxes| ==> boxes[i] != boxes[j]
  }

  /** The tail of a list of distinct boxes is distinct and misses the head. */
  lemma DistinctTail(boxes: seq<Locator>)
    requires boxes != [] && Distinct(boxes)
    ensures Distinct(boxes[1..]) && boxes[0] !in boxes[1..]
  {
    var rest := boxes[1..];
    forall i, j | 0 <= i < j < |rest| ensures rest[i] != rest[j] {
      assert rest[i] == boxes[i + 1] && rest[j] == boxes[j + 1];
    }
    forall j | 0 <= j < |rest| ensures rest[j] != boxes[0] {
      assert rest[j] == boxes[j + 1];
    }
  }

  /**
   * Visiting a list of distinct boxes: every box found either selected or
   * clickable ends selected, whatever happened to the others.
   */
  lemma {:induction false} SelectEachSelects(s: Snapshot, boxes: seq<Locator>, b: Locator)
    requires Distinct(boxes) && b in boxes && Find(s, b).Ok?
    requires Find(s, b).value.selected || Clickable(Find(s, b).value)
    ensures Find(SelectEach(s, boxes), b).Ok? && Find(SelectEach(s, boxes), b).value.selected
    decreases |boxes|
  {
    var s1 := EnsureSelected(s, boxes[0]);
    var rest := boxes[1..];
    DistinctTail(boxes);
    if b == boxes[0] {
      SelectEachFrame(s1, rest);
    } else {
      assert b in rest;
      assert FindAll(s1, b) == FindAll(s, b);
      SelectEachSelects(s1, rest, b);
    }
  }

  /**
   * Visiting a list of distinct boxes only appends actions, and each of them is
   * a click on a box of the list that was found unselected.
   */
  lemma {:induction false} SelectEachClicks(s: Snapshot, boxes: seq<Locator>)
    requires Distinct(boxes)
    ensures |SelectEach(s, boxes).trace| >= |s.trace| && SelectEach(s, boxes).trace[..|s.trace|] == s.trace
    ensures forall i :: |s.trace| <= i < |SelectEach(s, boxes).trace| ==>
      var a := SelectEach(s, boxes).trace[i];
      a.Clicked? && a.locator in boxes && a.index == 0 && Find(s, a.locator).Ok? && !Find(s, a.locator).value.selected
    decreases |boxes|
  {
    if boxes != [] {
      var s1 := EnsureSelected(s, boxes[0]);
      var rest := boxes[1..];
      DistinctTail(boxes);
      SelectEachClicks(s1, rest);
      assert forall b :: b in rest ==> FindAll(s1, b) == FindAll(s, b);
    }
  }

  /** `checkRequiredCheckboxes`: privacy, terms, newsletter, offers, each on its own. */
  function CheckedBoxes(s: Snapshot): Snapshot
  {
    SelectEach(s, RequiredCheckboxes)
  }

  /** The listed boxes are exactly the required checkboxes, and none is listed twice. */
  lemma RequiredCheckboxesListed()
    ensures forall l :: l in RequiredCheckboxes <==> RequiredCheckbox(l)
    ensures Distinct(RequiredCheckboxes)
  {
  }

  /** `checkRequiredCheckboxes` leaves every other locator and the address alone. */
  lemma CheckedBoxesFrame(s: Snapshot, l: Locator)
    requires !RequiredCheckbox(l)
    ensures FindAll(CheckedBoxes(s), l) == FindAll(s, l)
    ensures CheckedBoxes(s).url == s.url
  {
    RequiredCheckboxesListed();
    SelectEachFrame(s, RequiredCheckboxes);
  }

  /** After `checkRequiredCheckboxes`, a required box found selected or clickable is selected. */
  lemma CheckedBoxesSelects(s: Snapshot, b: Locator)
    requires RequiredCheckbox(b) && Find(s, b).Ok?
    requires Find(s, b).value.selected || Clickable(Find(s, b).value)
    ensures Find(CheckedBoxes(s), b).Ok? && Find(CheckedBoxes(s), b).value.selected
  {
    RequiredCheckboxesListed();
    SelectEachSelects(s, RequiredCheckboxes, b);
  }

  /**
   * `checkRequiredCheckboxes` only appends clicks, each on a required box that
   * was found unselected; a box already selected is never clicked.
   */
  lemma CheckedBoxesClicks(s: Snapshot)
    ensures |CheckedBoxes(s).trace| >= |s.trace| && CheckedBoxes(s).trace[..|s.trace|] == s.trace
    ensures forall i :: |s.trace| <= i < |CheckedBoxes(s).trace| ==>
      var a := CheckedBoxes(s).trace[i];
      && a.Clicked? && RequiredCheckbox(a.locator)
      && Find(s, a.locator).Ok? && !Find(s, a.locator).value.selected
  {
    RequiredCheckboxesListed();
    SelectEachClicks(s, RequiredCheckboxes);
  }

  method CheckRequiredCheckboxes(driver: Driver)
    modifies driver
    ensures driver.State() == CheckedBoxes(old(driver.State()))
  {
    ghost var s0 := driver.State();
    SelectIfUnselected(driver, CustomerPrivacyCheckbox);
    SelectIfUnselected(driver, TermsCheckbox);
    SelectIfUnselected(driver, NewsletterCheckbox);
    SelectIfUnselected(driver, OffersCheckbox);
    assert RequiredCheckboxes[1..][1..][1..][1..] == [];
  }

  // ---------------------------------------------------------------------------
  // Email

  /** The email field is written only when its current value is null or empty. */
  predicate EmailNeedsFilling(current: Option<string>)
  {
    current.None? || current.value == ""
  }

  /** The email step of `fillRegistrationForm`; a missing or untypable field throws. */
  function FilledEmail(s: Snapshot, uuid: string): (r: Result<Snapshot, Failure>)
    requires |uuid| >= 8
    ensures Find(s, EmailInput).Err? ==> r == Err(NoSuchElement(EmailInput))
    ensures Find(s, EmailInput).Ok? && !EmailNeedsFilling(AttributeOf(Find(s, EmailInput).value, "value")) ==>
      r == Ok(s)
    ensures Find(s, EmailInput).Ok? && EmailNeedsFilling(AttributeOf(Find(s, EmailInput).value, "value")) ==>
      r == TypeInto(s, EmailInput, GenerateUniqueEmail(uuid))
  {
    match Find(s, EmailInput)
    case Err(f) => Err(f)
    case Ok(field) =>
      if EmailNeedsFilling(AttributeOf(field, "value")) then TypeInto(s, EmailInput, GenerateUniqueEmail(uuid))
      else Ok(s)
  }

  // ---------------------------------------------------------------------------
  // The whole form

  /**
   * The inputs of one `fillRegistrationForm` call: the two names, the UUID
   * text behind the address, the password `generateStrongPassword` returned
   * and the draw of `getPredefinedStrongPassword`.
   */
  datatype Registration = Registration(
    firstName: string,
    lastName: string,
    uuid: string,
    password: string,
    alternative: nat)

  predicate ValidRegistration(x: Registration)
  {
    |x.uuid| >= 8 && x.alternative < PredefinedCount
  }

  /** The email rule as seen from after a step: unchanged if it was filled, the generated address if it was not. */
  predicate EmailRuleHolds(s: Snapshot, t: Snapshot, uuid: string)
    requires |uuid| >= 8
  {
    Find(s, EmailInput).Ok? ==>
      if EmailNeedsFilling(AttributeOf(Find(s, EmailInput).value, "value")) then
        Find(t, EmailInput).Ok? && AttributeOf(Find(t, EmailInput).value, "value") == Some(GenerateUniqueEmail(uuid))
      else FindAll(t, EmailInput) == FindAll(s, EmailInput)
  }

  /** The locators the first part of `fillRegistrationForm` writes to. */
  predicate FormField(l: Locator)
  {
    l.GenderMr? || l.FirstNameInput? || l.LastNameInput? || l.EmailInput? || l.PasswordInput?
  }

  /**
   * The statements of `fillRegistrationForm` up to the email, which propagate
   * their exception: gender (itself swallowed), first name, last name, email.
   */
  function FilledContact(s: Snapshot, x: Registration): Run<Outcome<Failure>>
    requires ValidRegistration(x)
  {
    var s1 := EnsureSelected(s, GenderMr);
    match TypeInto(s1, FirstNameInput, x.firstName)
    case Err(f) => Run(s1, Fail(f))
    case Ok(s2) =>
      match TypeInto(s2, LastNameInput, x.lastName)
      case Err(f) => Run(s2, Fail(f))
      case Ok(s3) =>
        match FilledEmail(s3, x.uuid)
        case Err(f) => Run(s3, Fail(f))
        case Ok(s4) => Run(s4, Pass)
  }

  /** The contact fields, then the password, whose exception also propagates. */
  function FilledFields(s: Snapshot, x: Registration): Run<Outcome<Failure>>
    requires ValidRegistration(x)
  {
    var r := FilledContact(s, x);
    if r.result.Fail? then r
    else
      match TypeInto(r.after, PasswordInput, x.password)
      case Err(f) => Run(r.after, Fail(f))
      case Ok(t) => Run(t, Pass)
  }

  /** The contact fields write to the form fields only. */
  lemma FilledContactFrame(s: Snapshot, x: Registration, l: Locator)
    requires ValidRegistration(x) && !FormField(l)
    ensures FindAll(FilledContact(s, x).after, l) == FindAll(s, l)
  {
    var s1 := EnsureSelected(s, GenderMr);
    assert FindAll(s1, l) == FindAll(s, l);
    var r2 := TypeInto(s1, FirstNameInput, x.firstName);
    if r2.Ok? {
      assert FindAll(r2.value, l) == FindAll(s, l);
      var r3 := TypeInto(r2.value, LastNameInput, x.lastName);
      if r3.Ok? {
        assert FindAll(r3.value, l) == FindAll(s, l);
        var r4 := FilledEmail(r3.value, x.uuid);
        if r4.Ok? {
          assert FindAll(r4.value, l) == FindAll(s, l);
        }
      }
    }
  }

  /** The first part of the form writes to the form fields only. */
  lemma FilledFieldsFrame(s: Snapshot, x: Registration, l: Locator)
    requires ValidRegistration(x) && !FormField(l)
    ensures FindAll(FilledFields(s, x).after, l) == FindAll(s, l)
  {
    FilledContactFrame(s, x, l);
  }

  /**
   * After the first part of the form, the password field holds the generated
   * password, and the email field obeys the fill rule; a field that already
   * held an address is left as it was even when a later statement throws.
   */
  lemma FilledFieldsPasswordAndEmail(s: Snapshot, x: Registration)
    requires ValidRegistration(x)
    ensures FilledFields(s, x).result == Pass ==>
      && Find(FilledFields(s, x).after, PasswordInput).Ok?
      && AttributeOf(Find(FilledFields(s, x).after, PasswordInput).value, "value") == Some(x.password)
      && EmailRuleHolds(s, FilledFields(s, x).after, x.uuid)
    ensures Find(s, EmailInput).Ok? && !EmailNeedsFilling(AttributeOf(Find(s, EmailInput).value, "value")) ==>
      FindAll(FilledFields(s, x).after, EmailInput) == FindAll(s, EmailInput)
  {
    var s1 := EnsureSelected(s, GenderMr);
    assert FindAll(s1, EmailInput) == FindAll(s, EmailInput);
    var r2 := TypeInto(s1, FirstNameInput, x.firstName);
    if r2.Ok? {
      var s2 := r2.value;
      assert FindAll(s2, EmailInput) == FindAll(s, EmailInput);
      var r3 := TypeInto(s2, LastNameInput, x.lastName);
      if r3.Ok? {
        var s3 := r3.value;
        assert FindAll(s3, EmailInput) == FindAll(s, EmailInput);
        var r4 := FilledEmail(s3, x.uuid);
        if r4.Ok? {
          var s4 := r4.value;
          assert EmailRuleHolds(s, s4, x.uuid);
          var r5 := TypeInto(s4, PasswordInput, x.password);
          if r5.Ok? {
            assert FindAll(r5.value, EmailInput) == FindAll(s4, EmailInput);
          }
        }
      }
    }
  }

  /** The birthdate step: typed if possible, any failure swallowed. */
  function FilledBirthdate(s: Snapshot): Snapshot
  {
    StateAfter(s, TypeInto(s, BirthdateInput, "1990-05-31"))
  }

  /**
   * The statements of `fillRegistrationForm` that swallow their exceptions:
   * the strength check, the birthdate and the checkboxes.
   */
  function FinishedForm(s: Snapshot, k: nat): Snapshot
    requires k < PredefinedCount
  {
    CheckedBoxes(FilledBirthdate(AfterStrengthCheck(s, k)))
  }

  /** The second part of the form leaves the email field alone. */
  lemma FinishedFormKeepsEmail(s: Snapshot, k: nat)
    requires k < PredefinedCount
    ensures FindAll(FinishedForm(s, k), EmailInput) == FindAll(s, EmailInput)
  {
    var s6 := AfterStrengthCheck(s, k);
    var s7 := FilledBirthdate(s6);
    assert FindAll(s7, EmailInput) == FindAll(s, EmailInput);
    CheckedBoxesFrame(s7, EmailInput);
  }

  /**
   * The second part of the form leaves a password field as it was or holding
   * the predefined password.
   */
  lemma FinishedFormPassword(s: Snapshot, k: nat)
    requires k < PredefinedCount
    requires Find(s, PasswordInput).Ok?
    ensures Find(FinishedForm(s, k), PasswordInput).Ok?
    ensures
      || FindAll(FinishedForm(s, k), PasswordInput) == FindAll(s, PasswordInput)
      || AttributeOf(Find(FinishedForm(s, k), PasswordInput).value, "value") == Some(PredefinedStrongPassword(k))
  {
    var s6 := AfterStrengthCheck(s, k);
    var s7 := FilledBirthdate(s6);
    assert FindAll(s7, PasswordInput) == FindAll(s6, PasswordInput);
    CheckedBoxesFrame(s7, PasswordInput);
  }

  /**
   * With a password field that can be typed into, the second part of the form
   * leaves the predefined password in it exactly when the indicator rejects
   * the password, and leaves the field as it was otherwise.
   */
  lemma FinishedFormPasswordChoice(s: Snapshot, k: nat)
    requires k < PredefinedCount
    requires |FindAll(s, PasswordInput)| > 0 && Clickable(FindAll(s, PasswordInput)[0])
    ensures Find(FinishedForm(s, k), PasswordInput).Ok?
    ensures RejectsPassword(Find(s, PasswordStrength)) ==>
      AttributeOf(Find(FinishedForm(s, k), PasswordInput).value, "value") == Some(PredefinedStrongPassword(k))
    ensures !RejectsPassword(Find(s, PasswordStrength)) ==>
      FindAll(FinishedForm(s, k), PasswordInput) == FindAll(s, PasswordInput)
  {
    var s6 := AfterStrengthCheck(s, k);
    var s7 := FilledBirthdate(s6);
    assert FindAll(s7, PasswordInput) == FindAll(s6, PasswordInput);
    CheckedBoxesFrame(s7, PasswordInput);
  }

  /** The second part of the form ends with a required box selected if it was selected or clickable. */
  lemma FinishedFormChecksBox(s: Snapshot, k: nat, b: Locator)
    requires k < PredefinedCount
    requires RequiredCheckbox(b) && Find(s, b).Ok?
    requires Find(s, b).value.selected || Clickable(Find(s, b).value)
    ensures Find(FinishedForm(s, k), b).Ok? && Find(FinishedForm(s, k), b).value.selected
  {
    var s6 := AfterStrengthCheck(s, k);
    assert FindAll(s6, b) == FindAll(s, b);
    var s7 := FilledBirthdate(s6);
    assert Find(s7, b) == Find(s, b);
    CheckedBoxesSelects(s7, b);
  }

  /** `fillRegistrationForm` as a whole. */
  function FilledForm(s: Snapshot, x: Registration): Run<Outcome<Failure>>
    requires ValidRegistration(x)
  {
    var r := FilledFields(s, x);
    if r.result.Fail? then r else Run(FinishedForm(r.after, x.alternative), Pass)
  }

  /**
   * After the first part of the form, the password field can still be typed
   * into, and the strength indicator is the one the page started with.
   */
  lemma FilledFieldsKeepsIndicator(s: Snapshot, x: Registration)
    requires ValidRegistration(x)
    requires FilledFields(s, x).result == Pass
    ensures var t := FilledFields(s, x).after;
      |FindAll(t, PasswordInput)| > 0 && Clickable(FindAll(t, PasswordInput)[0])
    ensures Find(FilledFields(s, x).after, PasswordStrength) == Find(s, PasswordStrength)
  {
    var r := FilledContact(s, x);
    TypeIntoElements(r.after, PasswordInput, x.password);
    FilledFieldsFrame(s, x, PasswordStrength);
  }

  /**
   * A form that was filled without an exception holds in its password field
   * the predefined password when the indicator rejected the generated one,
   * and the generated password otherwise.
   */
  lemma FilledFormPassword(s: Snapshot, x: Registration)
    requires ValidRegistration(x)
    requires FilledForm(s, x).result == Pass
    ensures Find(FilledForm(s, x).after, PasswordInput).Ok?
    ensures var v := AttributeOf(Find(FilledForm(s, x).after, PasswordInput).value, "value");
      v == Some(x.password) || v == Some(PredefinedStrongPassword(x.alternative))
    ensures var v := AttributeOf(Find(FilledForm(s, x).after, PasswordInput).value, "value");
      RejectsPassword(Find(s, PasswordStrength)) ==> v == Some(PredefinedStrongPassword(x.alternative))
    ensures var v := AttributeOf(Find(FilledForm(s, x).after, PasswordInput).value, "value");
      !RejectsPassword(Find(s, PasswordStrength)) ==> v == Some(x.password)
  {
    var t := FilledFields(s, x).after;
    FilledFieldsPasswordAndEmail(s, x);
    FilledFieldsKeepsIndicator(s, x);
    FinishedFormPasswordChoice(t, x.alternative);
  }

  /**
   * When the typed password is the generator's, a form filled without an
   * exception holds a password meeting the policy, whichever of the two it is.
   */
  lemma FilledFormPasswordMeetsPolicy(s: Snapshot, x: Registration, d: PasswordDraws)
    requires ValidRegistration(x) && ValidDraws(d) && x.password == StrongPassword(d)
    requires FilledForm(s, x).result == Pass
    ensures Find(FilledForm(s, x).after, PasswordInput).Ok?
    ensures var v := AttributeOf(Find(FilledForm(s, x).after, PasswordInput).value, "value");
      v.Some? && MeetsPolicy(v.value)
  {
    StrongPasswordMeetsPolicy(d);
    FilledFormPassword(s, x);
  }

  /**
   * The email rule over the whole form: a field that already held an address
   * is never rewritten, whatever the outcome; an empty one holds the generated
   * address once the form is filled.
   */
  lemma FilledFormEmailRule(s: Snapshot, x: Registration)
    requires ValidRegistration(x)
    requires Find(s, EmailInput).Ok?
    ensures !EmailNeedsFilling(AttributeOf(Find(s, EmailInput).value, "value")) ==>
      FindAll(FilledForm(s, x).after, EmailInput) == FindAll(s, EmailInput)
    ensures EmailNeedsFilling(AttributeOf(Find(s, EmailInput).value, "value")) && FilledForm(s, x).result == Pass ==>
      && Find(FilledForm(s, x).after, EmailInput).Ok?
      && AttributeOf(Find(FilledForm(s, x).after, EmailInput).value, "value") == Some(GenerateUniqueEmail(x.uuid))
  {
    FilledFieldsPasswordAndEmail(s, x);
    FinishedFormKeepsEmail(FilledFields(s, x).after, x.alternative);
  }

  /**
   * A filled form has every required checkbox selected that was on the page
   * selected or clickable.
   */
  lemma FilledFormChecksBoxes(s: Snapshot, x: Registration, b: Locator)
    requires ValidRegistration(x)
    requires FilledForm(s, x).result == Pass
    requires RequiredCheckbox(b) && Find(s, b).Ok?
    requires Find(s, b).value.selected || Clickable(Find(s, b).value)
    ensures Find(FilledForm(s, x).after, b).Ok? && Find(FilledForm(s, x).after, b).value.selected
  {
    var r := FilledFields(s, x);
    assert r.result == Pass;
    var t := r.after;
    assert FilledForm(s, x).after == FinishedForm(t, x.alternative);
    FilledFieldsFrame(s, x, b);
    assert Find(t, b) == Find(s, b);
    FinishedFormChecksBox(t, x.alternative, b);
  }

  /** The part of `fillRegistrationForm` before the password is generated. */
  method FillContactFields(driver: Driver, x: Registration) returns (out: Outcome<Failure>)
    requires ValidRegistration(x)
    modifies driver
    ensures Run(driver.State(), out) == FilledContact(old(driver.State()), x)
  {
    SelectIfUnselected(driver, GenderMr);

    out := driver.ClearAndType(FirstNameInput, x.firstName);
    if out.Fail? { return; }

    out := driver.ClearAndType(LastNameInput, x.lastName);
    if out.Fail? { return; }

    var emailField := driver.FindElement(EmailInput);
    if emailField.Err? {
      out := Fail(emailField.error);
      return;
    }
    var currentEmail := AttributeOf(emailField.value, "value");
    if currentEmail.None? || currentEmail.value == "" {
      var uniqueEmail := GenerateUniqueEmail(x.uuid);
      out := driver.ClearAndType(EmailInput, uniqueEmail);
    }
  }

  /**
   * `fillRegistrationForm`, with `x.password` the password the generator
   * returns for the draws `d`.
   */
  method FillRegistrationForm(driver: Driver, x: Registration, d: PasswordDraws) returns (out: Outcome<Failure>)
    requires ValidRegistration(x) && ValidDraws(d) && x.password == StrongPassword(d)
    modifies driver
    ensures Run(driver.State(), out) == FilledForm(old(driver.State()), x)
  {
    ghost var s0 := driver.State();
    out := FillContactFields(driver, x);
    if out.Fail? { return; }

    var strongPassword := GenerateStrongPassword(d);
    out := driver.ClearAndType(PasswordInput, strongPassword);
    if out.Fail? { return; }
    assert FilledFields(s0, x) == Run(driver.State(), Pass);

    WaitForPasswordStrength(driver, x.alternative);

    var _ := driver.ClearAndType(BirthdateInput, "1990-05-31");

    CheckRequiredCheckboxes(driver);
  }

  // ---------------------------------------------------------------------------
  // Submission

  /** Which Save locator the click went through. */
  datatype SaveControl = PrimarySave | AlternativeSave

  /**
   * The Save click of `submitRegistration`: the alternative locator is tried
   * only when the primary click throws, and the alternative's exception is
   * the only one that escapes.
   */
  function SubmittedForm(s: Snapshot): (r: Run<Result<SaveControl, Failure>>)
    ensures r.result == Ok(PrimarySave) <==> ClickAt(s, SaveButton, 0).Ok?
    ensures r.result == Ok(AlternativeSave) <==> ClickAt(s, SaveButton, 0).Err? && ClickAt(s, AltSaveButton, 0).Ok?
    ensures r.result.Err? <==> ClickAt(s, SaveButton, 0).Err? && ClickAt(s, AltSaveButton, 0).Err?
    ensures r.result.Err? ==> r.after == s && r.result.error == ClickAt(s, AltSaveButton, 0).error
    ensures r.result.Ok? ==>
      r.after.trace == s.trace + [Clicked(if r.result.value == PrimarySave then SaveButton else AltSaveButton, 0)]
  {
    match ClickAt(s, SaveButton, 0)
    case Ok(t) => Run(t, Ok(PrimarySave))
    case Err(_) =>
      match ClickAt(s, AltSaveButton, 0)
      case Ok(t) => Run(t, Ok(AlternativeSave))
      case Err(f) => Run(s, Err(f))
  }

  method SubmitRegistration(driver: Driver) returns (r: Result<SaveControl, Failure>)
    modifies driver
    ensures Run(driver.State(), r) == SubmittedForm(old(driver.State()))
  {
    var clicked := driver.Click(SaveButton, 0);
    if clicked.Pass? {
      r := Ok(PrimarySave);
    } else {
      var altClicked := driver.Click(AltSaveButton, 0);
      r := if altClicked.Pass? then Ok(AlternativeSave) else Err(altClicked.error);
    }
  }
}
