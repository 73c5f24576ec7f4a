/**
 * The cart page: the item queries over the matched element lists, and the
 * reading of the subtotal text as a number.
 */
module CartPage {
  import opened Wrappers
  import opened Browser
  import opened JavaStrings

  // ---------------------------------------------------------------------------
  // Item queries

  /** `getCartItemCount`: the number of matched cart lines. */
  function CartItemCount(s: Snapshot): (n: nat)
    ensures n == 0 <==> FindAll(s, CartItems) == []
  {
    |FindAll(s, CartItems)|
  }

  /**
   * `isProductInCart`: whether any cart line matched. The loop over the
   * product names only logs, so the names play no part.
   */
  function IsProductInCart(s: Snapshot): (r: bool)
    ensures r <==> CartItemCount(s) > 0
  {
    var items := FindAll(s, CartItems);
    !(|items| == 0)
  }

  /** The product names in the cart never change the answer of `isProductInCart`. */
  lemma ProductInCartIgnoresNames(s: Snapshot, names: seq<Element>)
    ensures IsProductInCart(s.(dom := s.dom[CartProductNames := names])) == IsProductInCart(s)
  {
    assert FindAll(s.(dom := s.dom[CartProductNames := names]), CartItems) == FindAll(s, CartItems);
  }

  /** `getFirstProductName`: the first name's text, or `""` when no name matched. */
  function FirstProductName(s: Snapshot): (name: Option<string>)
    ensures FindAll(s, CartProductNames) == [] ==> name == Some("")
    ensures FindAll(s, CartProductNames) != [] ==> name == FindAll(s, CartProductNames)[0].text
  {
    var names := FindAll(s, CartProductNames);
    if |names| > 0 then names[0].text else Some("")
  }

  /** `isCartEmpty`: the empty-cart message is present and displayed. */
  function IsCartEmpty(s: Snapshot): (r: bool)
    ensures r <==> FindAll(s, EmptyCartMessage) != [] && FindAll(s, EmptyCartMessage)[0].displayed
    ensures FindAll(s, EmptyCartMessage) == [] ==> !r
  {
    match Find(s, EmptyCartMessage)
    case Err(_) => false
    case Ok(emptyMessage) => emptyMessage.displayed
  }

  // ---------------------------------------------------------------------------
  // Subtotal text

  predicate IsDigit(c: char)
  {
    '0' <= c <= '9'
  }

  /** The characters the pattern `[^0-9.,]` does not match. */
  predicate Numeric(c: char)
  {
    IsDigit(c) || c == '.' || c == ','
  }

  /** `replaceAll("[^0-9.,]", "")`: every character other than a digit, `.` or `,` is dropped. */
  function KeepNumeric(t: string): (r: string)
    ensures |r| <= |t|
    ensures forall i :: 0 <= i < |r| ==> Numeric(r[i])
  {
    if |t| == 0 then []
    else (if Numeric(t[0]) then [t[0]] else []) + KeepNumeric(t[1..])
  }

  /** Dropping characters works piece by piece. */
  lemma {:induction false} KeepNumericConcat(a: string, b: string)
    ensures KeepNumeric(a + b) == KeepNumeric(a) + KeepNumeric(b)
  {
    if |a| > 0 {
      assert (a + b)[1..] == a[1..] + b;
      KeepNumericConcat(a[1..], b);
    } else {
      assert a + b == b;
    }
  }

  /** Text already made of digits, `.` and `,` is kept as it is, and only such text. */
  lemma {:induction false} KeepNumericIdentity(t: string)
    ensures KeepNumeric(t) == t <==> forall i :: 0 <= i < |t| ==> Numeric(t[i])
  {
    if |t| > 0 {
      KeepNumericIdentity(t[1..]);
      if !Numeric(t[0]) {
        assert |KeepNumeric(t)| < |t| by {
          assert KeepNumeric(t) == KeepNumeric(t[1..]);
        }
      } else if forall i :: 0 <= i < |t| ==> Numeric(t[i]) {
        assert forall i :: 0 <= i < |t[1..]| ==> Numeric(t[1..][i]) by {
          forall i | 0 <= i < |t[1..]| ensures Numeric(t[1..][i]) {
            assert t[1..][i] == t[i + 1];
          }
        }
        assert [t[0]] + t[1..] == t;
      } else {
        var j :| 0 <= j < |t| && !Numeric(t[j]);
        assert !Numeric(t[1..][j - 1]);
      }
    }
  }

  /** `.replace(",", ".")`, character by character. */
  function CommasToDots(t: string): (r: string)
    ensures |r| == |t|
    ensures forall i :: 0 <= i < |t| ==> r[i] == (if t[i] == ',' then '.' else t[i])
  {
    seq(|t|, i requires 0 <= i < |t| => if t[i] == ',' then '.' else t[i])
  }

  /** The character-by-character form is Java's literal `replace` of `","` by `"."`. */
  lemma {:induction false} CommasToDotsIsReplace(t: string)
    ensures CommasToDots(t) == Replace(t, ",", ".")
  {
    if |t| > 0 {
      CommasToDotsIsReplace(t[1..]);
      assert CommasToDots(t) == CommasToDots(t[..1]) + CommasToDots(t[1..]);
      assert t[..1] == [t[0]];
    }
  }

  /** `subtotalText.replaceAll("[^0-9.,]", "").replace(",", ".")`. */
  function NormalisedSubtotal(t: string): (r: string)
    ensures |r| <= |t|
    ensures forall i :: 0 <= i < |r| ==> IsDigit(r[i]) || r[i] == '.'
  {
    CommasToDots(KeepNumeric(t))
  }

  /** Normalising a second time changes nothing. */
  lemma NormalisedSubtotalIdempotent(t: string)
    ensures NormalisedSubtotal(NormalisedSubtotal(t)) == NormalisedSubtotal(t)
  {
    var n := NormalisedSubtotal(t);
    KeepNumericIdentity(n);
    assert CommasToDots(n) == n;
  }

  /** Normalisation distributes over concatenation. */
  lemma NormalisedSubtotalConcat(a: string, b: string)
    ensures NormalisedSubtotal(a + b) == NormalisedSubtotal(a) + NormalisedSubtotal(b)
  {
    KeepNumericConcat(a, b);
    assert CommasToDots(KeepNumeric(a) + KeepNumeric(b)) == CommasToDots(KeepNumeric(a)) + CommasToDots(KeepNumeric(b));
  }

  /** Text made only of digits, `.` and `,` passes the first step unchanged. */
  lemma {:induction false} KeepNumericOfNumeric(t: string)
    requires forall i :: 0 <= i < |t| ==> Numeric(t[i])
    ensures KeepNumeric(t) == t
  {
    KeepNumericIdentity(t);
  }

  /** A leading currency sign is dropped. */
  lemma KeepNumericAfterSign(c: char, t: string)
    requires !Numeric(c) && forall i :: 0 <= i < |t| ==> Numeric(t[i])
    ensures KeepNumeric([c] + t) == t
  {
    assert ([c] + t)[1..] == t;
    KeepNumericOfNumeric(t);
  }

  /** The two amounts the source has in mind both come out as `29.00`. */
  lemma NormalisedSubtotalExamples()
    ensures NormalisedSubtotal("$29.00") == "29.00"
    ensures NormalisedSubtotal("€29,00") == "29.00"
  {
    var dotted, comma := "29.00", "29,00";
    assert Numeric(dotted[0]) && Numeric(dotted[1]) && Numeric(dotted[2]) && Numeric(dotted[3]) && Numeric(dotted[4]);
    assert Numeric(comma[0]) && Numeric(comma[1]) && Numeric(comma[2]) && Numeric(comma[3]) && Numeric(comma[4]);
    KeepNumericAfterSign('$', dotted);
    KeepNumericAfterSign('€', comma);
    assert "$29.00" == ['$'] + dotted;
    assert "€29,00" == ['€'] + comma;
  }

  // ---------------------------------------------------------------------------
  // Reading the number

  /**
   * Which texts over digits and `.` `Double.parseDouble` accepts: at least one
   * digit and at most one dot.
   */
  predicate Parseable(t: string)
  {
    && (exists i :: 0 <= i < |t| && IsDigit(t[i]))
    && (forall i, j :: 0 <= i < j < |t| && t[i] == '.' ==> t[j] != '.')
  }

  /** The digits of `t` read as one integer, dots skipped. */
  function Mantissa(t: string): nat
  {
    if |t| == 0 then 0
    else if IsDigit(t[|t| - 1]) then Mantissa(t[..|t| - 1]) * 10 + (t[|t| - 1] as int - '0' as int)
    else Mantissa(t[..|t| - 1])
  }

  /** The number of characters after the last dot, or 0 without one. */
  function FractionDigits(t: string): nat
  {
    if '.' !in t || t[|t| - 1] == '.' then 0
    else 1 + FractionDigits(t[..|t| - 1])
  }

  function Pow10(n: nat): (r: nat)
    ensures r > 0
  {
    if n == 0 then 1 else 10 * Pow10(n - 1)
  }

  /** The exact decimal value of the text, which a `double` rounds. */
  function DecimalValue(t: string): (v: real)
    ensures v >= 0.0
  {
    Mantissa(t) as real / Pow10(FractionDigits(t)) as real
  }

  /**
   * The subtotal read from a `getText()` result: null, or text that does not
   * parse once normalised, gives 0.0.
   */
  function SubtotalOf(text: Option<string>): (v: real)
    ensures v >= 0.0
    ensures text.None? ==> v == 0.0
    ensures text.Some? && !Parseable(NormalisedSubtotal(text.value)) ==> v == 0.0
  {
    match text
    case None => 0.0
    case Some(subtotalText) =>
      var numericValue := NormalisedSubtotal(subtotalText);
      if Parseable(numericValue) then DecimalValue(numericValue) else 0.0
  }

  /** `getCartSubtotal`: the first subtotal element's text, read as a number; 0.0 when it is missing. */
  function Subtotal(s: Snapshot): (v: real)
    ensures v >= 0.0
    ensures FindAll(s, CartSubtotal) == [] ==> v == 0.0
    ensures FindAll(s, CartSubtotal) != [] ==> v == SubtotalOf(FindAll(s, CartSubtotal)[0].text)
  {
    match Find(s, CartSubtotal)
    case Err(_) => 0.0
    case Ok(subtotalElement) => SubtotalOf(subtotalElement.text)
  }

  /** A digit-free text, such as a bare currency sign, reads as 0.0. */
  lemma NoDigitsReadsZero(t: string)
    requires forall i :: 0 <= i < |t| ==> !IsDigit(t[i])
    ensures SubtotalOf(Some(t)) == 0.0
  {
    var n := NormalisedSubtotal(t);
    if Parseable(n) {
      var i :| 0 <= i < |n| && IsDigit(n[i]);
      KeepNumericDigits(t, i);
      assert false;
    }
  }

  /** Every digit that survives normalisation was a digit of the text. */
  lemma {:induction false} KeepNumericDigits(t: string, i: nat)
    requires i < |KeepNumeric(t)| && IsDigit(KeepNumeric(t)[i])
    ensures exists j :: 0 <= j < |t| && IsDigit(t[j])
  {
    if Numeric(t[0]) && i == 0 {
      assert IsDigit(t[0]);
    } else {
      var k := if Numeric(t[0]) then i - 1 else i;
      assert KeepNumeric(t[1..])[k] == KeepNumeric(t)[i];
      KeepNumericDigits(t[1..], k);
      var j :| 0 <= j < |t[1..]| && IsDigit(t[1..][j]);
      assert IsDigit(t[j + 1]);
    }
  }

  /** `29.00` parses, and its value is 29. */
  lemma DecimalExample()
    ensures Parseable("29.00") && DecimalValue("29.00") == 29.0
  {
    var n := "29.00";
    assert IsDigit(n[0]);
    forall i, j | 0 <= i < j < |n| && n[i] == '.' ensures n[j] != '.' {
      assert i == 2;
    }
    assert n[..4] == "29.0" && n[..3] == "29." && n[..2] == "29" && n[..1] == "2";
    assert n[..1][..0] == [];
    assert n[..4][..3] == n[..3] && n[..3][..2] == n[..2] && n[..2][..1] == n[..1];
    assert Mantissa(n[..1]) == 2;
    assert Mantissa(n[..2]) == 29;
    assert Mantissa(n[..3]) == 29;
    assert Mantissa(n[..4]) == 290;
    assert n[..|n| - 1] == n[..4];
    assert Mantissa(n) == 2900;
    assert '.' in n[..4] && '.' in n[..3];
    assert FractionDigits(n) == 2;
  }

  /** `"$29.00"` and `"€29,00"` both read as 29. */
  lemma SubtotalExamples()
    ensures SubtotalOf(Some("$29.00")) == 29.0
    ensures SubtotalOf(Some("€29,00")) == 29.0
  {
    NormalisedSubtotalExamples();
    DecimalExample();
  }

  /**
   * A subtotal written with a thousands separator keeps both separators as
   * dots, does not parse, and reads as 0.0.
   */
  lemma GroupedSubtotalReadsZero()
    ensures NormalisedSubtotal("$1,234.56") == "1.234.56"
    ensures SubtotalOf(Some("$1,234.56")) == 0.0
  {
    GroupedSubtotalNormalised();
    var n := "1.234.56";
    assert n[1] == '.' && n[5] == '.';
    assert !Parseable(n);
  }

  lemma GroupedSubtotalNormalised()
    ensures NormalisedSubtotal("$1,234.56") == "1.234.56"
  {
    var grouped := "1,234.56";
    assert Numeric(grouped[0]) && Numeric(grouped[1]) && Numeric(grouped[2]) && Numeric(grouped[3]);
    assert Numeric(grouped[4]) && Numeric(grouped[5]) && Numeric(grouped[6]) && Numeric(grouped[7]);
    KeepNumericAfterSign('$', grouped);
    assert "$1,234.56" == ['$'] + grouped;
  }
}
