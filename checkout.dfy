/** The checkout page's form logic: the digit and `MM/YY` format checks, the
    address validator, the whole-form validator with its table of payment checks,
    and the change handler that rebuilds the form state from one input event. */
module Checkout {
  import opened Wrappers
  import opened Text

  // ---------------------------------------------------------------------------
  // Form state and error record
  // ---------------------------------------------------------------------------

  /** A postal address; `addrZip` is a number, 0 meaning "not entered". */
  datatype Address = Address(
    addrLine1: string,
    addrLine2: string,
    addrCity: string,
    addrState: string,
    addrZip: int)

  datatype Payment = Payment(cardNumber: string, expiry: string, cvv: string)

  datatype CheckoutForm = CheckoutForm(
    firstName: string,
    lastName: string,
    email: string,
    mailingAddress: Address,
    billingAddress: Address,
    sameAddress: bool,
    payment: Payment)

  const EmptyAddress := Address("", "", "", "", 0)

  const InitialForm :=
    CheckoutForm("", "", "", EmptyAddress, EmptyAddress, true, Payment("", "", ""))

  datatype AddressField = AddrLine1 | AddrLine2 | AddrCity | AddrState | AddrZip

  datatype PaymentField = CardNumber | Expiry | Cvv

  /** The error record: an absent entry is `None`; an address or payment entry,
      once present, maps each failing field to its message. */
  datatype CheckoutErrors = CheckoutErrors(
    firstName: Option<string>,
    lastName: Option<string>,
    email: Option<string>,
    mailingAddress: Option<map<AddressField, string>>,
    billingAddress: Option<map<AddressField, string>>,
    payment: Option<map<PaymentField, string>>)

  const NoErrors := CheckoutErrors(None, None, None, None, None, None)

  const FirstNameRequired := "First name is required"
  const LastNameRequired := "Last name is required"
  const EmailRequired := "Email is required"
  const EmailInvalid := "Email must be valid"
  const Line1Required := "Address line 1 is required"
  const CityRequired := "City is required"
  const StateRequired := "State is required"
  const ZipRequired := "Zip code is required"
  const ZipNotNumeric := "Zip code must be numeric"
  const CardNumberRequired := "Card number is required"
  const CardNumberNotNumeric := "Card number must be numeric"
  const ExpiryRequired := "Expiry date is required"
  const ExpiryBadFormat := "Format must be MM/YY"
  const CvvRequired := "CVV is required"
  const CvvNotNumeric := "CVV must be numeric"

  // ---------------------------------------------------------------------------
  // Format checks
  // ---------------------------------------------------------------------------

  /** The pattern `^\d+$`: one or more decimal digits and nothing else. */
  predicate IsNumeric(s: string) {
    |s| > 0 && AllDigits(s)
  }

  /** The pattern `^(0[1-9]|1[0-2])\/\d{2}$`. */
  predicate IsExpiryValid(s: string)
    ensures IsExpiryValid(s) ==>
              && |s| == 5 && IsDigit(s[0]) && IsDigit(s[1])
              && 1 <= DigitValue(s[0]) * 10 + DigitValue(s[1]) <= 12
  {
    && |s| == 5
    && ((s[0] == '0' && '1' <= s[1] <= '9') || (s[0] == '1' && '0' <= s[1] <= '2'))
    && s[2] == '/'
    && IsDigit(s[3]) && IsDigit(s[4])
  }

  /** `n` as exactly two decimal digits. */
  function TwoDigits(n: nat): (r: string)
    requires n < 100
    ensures |r| == 2 && AllDigits(r)
  {
    [DigitChar(n / 10), DigitChar(n % 10)]
  }

  /** An expiry is accepted exactly when it is a month 1..12 and a year 0..99,
      each written with two digits and separated by '/'. */
  lemma ExpiryValidIffMonthAndYear(s: string)
    ensures IsExpiryValid(s) <==>
              exists m: nat, y: nat {:trigger TwoDigits(m), TwoDigits(y)} ::
                1 <= m <= 12 && y < 100 && s == TwoDigits(m) + "/" + TwoDigits(y)
  {
    if IsExpiryValid(s) {
      var m, y := MonthAndYearOfExpiry(s);
    }
    if exists m: nat, y: nat {:trigger TwoDigits(m), TwoDigits(y)} ::
         1 <= m <= 12 && y < 100 && s == TwoDigits(m) + "/" + TwoDigits(y)
    {
      var m: nat, y: nat :| 1 <= m <= 12 && y < 100 && s == TwoDigits(m) + "/" + TwoDigits(y);
      ExpiryOfMonthAndYear(m, y);
    }
  }

  /** The month and year an accepted expiry spells. */
  lemma MonthAndYearOfExpiry(s: string) returns (m: nat, y: nat)
    requires IsExpiryValid(s)
    ensures 1 <= m <= 12 && y < 100 && s == TwoDigits(m) + "/" + TwoDigits(y)
  {
    m := DigitValue(s[0]) * 10 + DigitValue(s[1]);
    y := DigitValue(s[3]) * 10 + DigitValue(s[4]);
    assert s == TwoDigits(m) + "/" + TwoDigits(y);
  }

  /** Every month 1..12 and year 0..99, written with two digits each, is accepted. */
  lemma ExpiryOfMonthAndYear(m: nat, y: nat)
    requires 1 <= m <= 12 && y < 100
    ensures IsExpiryValid(TwoDigits(m) + "/" + TwoDigits(y))
  {
    var s := TwoDigits(m) + "/" + TwoDigits(y);
    assert s[0] == DigitChar(m / 10) && s[1] == DigitChar(m % 10);
    assert m < 10 || m / 10 == 1;
  }

  /** A string passes `isNumeric` exactly when it is some number of zeros followed
      by the decimal rendering of a number. */
  lemma NumericIffPaddedRendering(s: string)
    ensures IsNumeric(s) <==>
              exists k: nat, n: nat {:trigger Zeros(k), NatString(n)} :: s == Zeros(k) + NatString(n)
  {
    if IsNumeric(s) {
      var k, n := PaddingOfNumeric(s);
    }
    if exists k: nat, n: nat {:trigger Zeros(k), NatString(n)} :: s == Zeros(k) + NatString(n) {
      var k: nat, n: nat :| s == Zeros(k) + NatString(n);
      PaddedRenderingIsNumeric(k, n);
    }
  }

  /** The leading zeros and the value of a digit run. */
  lemma PaddingOfNumeric(s: string) returns (k: nat, n: nat)
    requires IsNumeric(s)
    ensures s == Zeros(k) + NatString(n)
    ensures n == DigitsValue(s)
  {
    k := LeadingZeros(s);
    if k == |s| {
      k := |s| - 1;
    }
    var rest := s[k..];
    assert AllDigits(rest);
    NatStringOfDigitsValue(rest);
    n := DigitsValue(rest);
    assert s == Zeros(k) + rest;
    ZerosPrefixValue(k, rest);
  }

  /** Zeros followed by a rendering form a digit run. */
  lemma PaddedRenderingIsNumeric(k: nat, n: nat)
    ensures IsNumeric(Zeros(k) + NatString(n))
  {
    var s := Zeros(k) + NatString(n);
    forall i | 0 <= i < |s| ensures IsDigit(s[i]) {
      if i >= k {
        assert s[i] == NatString(n)[i - k];
      }
    }
  }

  /** The number of zeros `s` starts with. */
  function LeadingZeros(s: string): (k: nat)
    ensures k <= |s|
    ensures forall i :: 0 <= i < k ==> s[i] == '0'
    ensures k < |s| ==> s[k] != '0'
    decreases |s|
  {
    if |s| > 0 && s[0] == '0' then 1 + LeadingZeros(s[1..]) else 0
  }

  /** The zip check `isNumeric(String(zip))` on a non-missing zip accepts exactly
      the positive zips. */
  lemma ZipNumericIffPositive(zip: int)
    requires zip != 0
    ensures IsNumeric(IntString(zip)) <==> zip > 0
  {
    IntStringAllDigits(zip);
  }

  /** The email format check: both an '@' and a '.' somewhere. */
  predicate EmailFormatValid(email: string) {
    '@' in email && '.' in email
  }

  // ---------------------------------------------------------------------------
  // Address validation
  // ---------------------------------------------------------------------------

  /** An address that passes validation; line 2 is optional. */
  predicate AddressComplete(a: Address) {
    a.addrLine1 != "" && a.addrCity != "" && a.addrState != "" && a.addrZip > 0
  }

  /** `errors` holds exactly one message for each failing field of `a`. */
  ghost predicate AddressErrorsDescribe(errors: map<AddressField, string>, a: Address) {
    && (AddrLine1 in errors <==> a.addrLine1 == "")
    && (AddrLine1 in errors ==> errors[AddrLine1] == Line1Required)
    && AddrLine2 !in errors
    && (AddrCity in errors <==> a.addrCity == "")
    && (AddrCity in errors ==> errors[AddrCity] == CityRequired)
    && (AddrState in errors <==> a.addrState == "")
    && (AddrState in errors ==> errors[AddrState] == StateRequired)
    && (AddrZip in errors <==> a.addrZip <= 0)
    && (AddrZip in errors ==> errors[AddrZip] == if a.addrZip == 0 then ZipRequired else ZipNotNumeric)
  }

  /** `validateAddress`: the error record of one address. */
  method ValidateAddress(address: Address) returns (errors: map<AddressField, string>)
    ensures AddressErrorsDescribe(errors, address)
    ensures errors == map[] <==> AddressComplete(address)
  {
    errors := map[];
    if address.addrLine1 == "" {
      errors := errors[AddrLine1 := Line1Required];
    }
    if address.addrCity == "" {
      errors := errors[AddrCity := CityRequired];
    }
    if address.addrState == "" {
      errors := errors[AddrState := StateRequired];
    }
    if address.addrZip == 0 {
      errors := errors[AddrZip := ZipRequired];
    } else if !IsNumeric(IntString(address.addrZip)) {
      errors := errors[AddrZip := ZipNotNumeric];
    }
    if address.addrZip != 0 {
      ZipNumericIffPositive(address.addrZip);
    }
    assert !AddressComplete(address) ==> errors != map[] by {
      if address.addrLine1 == "" { assert AddrLine1 in errors; }
      else if address.addrCity == "" { assert AddrCity in errors; }
      else if address.addrState == "" { assert AddrState in errors; }
      else if address.addrZip <= 0 { assert AddrZip in errors; }
    }
  }

  // ---------------------------------------------------------------------------
  // Payment checks
  // ---------------------------------------------------------------------------

  datatype Rule = Required | Format

  /** One entry of the payment check table: when it fires, `message` is recorded for `field`. */
  datatype PaymentCheck = PaymentCheck(field: PaymentField, message: string, rule: Rule)

  /** The six payment checks, in the order the validator runs them. */
  const PaymentValidations: seq<PaymentCheck> := [
    PaymentCheck(CardNumber, CardNumberRequired, Required),
    PaymentCheck(CardNumber, CardNumberNotNumeric, Format),
    PaymentCheck(Expiry, ExpiryRequired, Required),
    PaymentCheck(Expiry, ExpiryBadFormat, Format),
    PaymentCheck(Cvv, CvvRequired, Required),
    PaymentCheck(Cvv, CvvNotNumeric, Format)
  ]

  function FieldValue(p: Payment, f: PaymentField): string {
    match f
    case CardNumber => p.cardNumber
    case Expiry => p.expiry
    case Cvv => p.cvv
  }

  /** The format a payment field must have: `MM/YY` for the expiry, digits otherwise. */
  predicate FormatOk(f: PaymentField, v: string) {
    if f == Expiry then IsExpiryValid(v) else IsNumeric(v)
  }

  /** Whether a check's validator returns a truthy value for the payment entered. */
  predicate Fires(c: PaymentCheck, p: Payment) {
    var v := FieldValue(p, c.field);
    match c.rule
    case Required => v == ""
    case Format => v != "" && !FormatOk(c.field, v)
  }

  /** The payment entry after running one check: when it fires, its message is
      spread over the entry so far (an absent entry spreads as `{}`). */
  function RunCheck(entry: Option<map<PaymentField, string>>, c: PaymentCheck, p: Payment)
    : Option<map<PaymentField, string>>
  {
    if Fires(c, p) then Some(entry.GetOr(map[])[c.field := c.message]) else entry
  }

  /** The payment entry after running `checks` in order, starting from no entry. */
  function RunChecks(checks: seq<PaymentCheck>, p: Payment): Option<map<PaymentField, string>>
    decreases |checks|
  {
    if |checks| == 0 then None
    else RunCheck(RunChecks(checks[..|checks| - 1], p), checks[|checks| - 1], p)
  }

  predicate PaymentComplete(p: Payment) {
    IsNumeric(p.cardNumber) && IsExpiryValid(p.expiry) && IsNumeric(p.cvv)
  }

  function RequiredMessage(f: PaymentField): string {
    match f
    case CardNumber => CardNumberRequired
    case Expiry => ExpiryRequired
    case Cvv => CvvRequired
  }

  function FormatMessage(f: PaymentField): string {
    match f
    case CardNumber => CardNumberNotNumeric
    case Expiry => ExpiryBadFormat
    case Cvv => CvvNotNumeric
  }

  /** Field `f` is listed exactly when its value fails its format, with the
      "required" message when it is empty and the format message otherwise. */
  ghost predicate PaymentFieldDescribed(errors: map<PaymentField, string>, p: Payment, f: PaymentField) {
    var v := FieldValue(p, f);
    && (f in errors <==> !FormatOk(f, v))
    && (f in errors ==> errors[f] == if v == "" then RequiredMessage(f) else FormatMessage(f))
  }

  ghost predicate PaymentErrorsDescribe(errors: map<PaymentField, string>, p: Payment) {
    PaymentFieldDescribed(errors, p, CardNumber)
    && PaymentFieldDescribed(errors, p, Expiry)
    && PaymentFieldDescribed(errors, p, Cvv)
  }

  /** The "required" and the format check of one field, run one after the other. */
  function FieldOutcome(entry: Option<map<PaymentField, string>>, f: PaymentField, p: Payment)
    : Option<map<PaymentField, string>>
  {
    var v := FieldValue(p, f);
    if FormatOk(f, v) then entry
    else Some(entry.GetOr(map[])[f := if v == "" then RequiredMessage(f) else FormatMessage(f)])
  }

  lemma EmptyFailsFormat(f: PaymentField)
    ensures !FormatOk(f, "")
  {
  }

  lemma CheckPairIsFieldOutcome(entry: Option<map<PaymentField, string>>, f: PaymentField, p: Payment)
    ensures RunCheck(RunCheck(entry, PaymentCheck(f, RequiredMessage(f), Required), p),
                     PaymentCheck(f, FormatMessage(f), Format), p)
            == FieldOutcome(entry, f, p)
  {
    EmptyFailsFormat(f);
  }

  lemma RunChecksStep(checks: seq<PaymentCheck>, i: nat, p: Payment)
    requires i < |checks|
    ensures RunChecks(checks[..i + 1], p) == RunCheck(RunChecks(checks[..i], p), checks[i], p)
  {
    assert checks[..i + 1][..i] == checks[..i];
  }

  /** Running the whole table leaves no entry exactly when every payment field
      has its format, and otherwise an entry that describes the failing fields. */
  lemma {:induction false} PaymentTableOutcome(p: Payment)
    ensures RunChecks(PaymentValidations, p).None? <==> PaymentComplete(p)
    ensures RunChecks(PaymentValidations, p).Some? ==>
              PaymentErrorsDescribe(RunChecks(PaymentValidations, p).value, p)
  {
    var c := PaymentValidations;
    RunChecksStep(c, 0, p);
    RunChecksStep(c, 1, p);
    RunChecksStep(c, 2, p);
    RunChecksStep(c, 3, p);
    RunChecksStep(c, 4, p);
    RunChecksStep(c, 5, p);
    assert c[..0] == [];
    assert c[..6] == c;
    var e2 := FieldOutcome(None, CardNumber, p);
    var e4 := FieldOutcome(e2, Expiry, p);
    var e6 := FieldOutcome(e4, Cvv, p);
    CheckPairIsFieldOutcome(None, CardNumber, p);
    assert RunChecks(c[..2], p) == e2;
    CheckPairIsFieldOutcome(e2, Expiry, p);
    assert RunChecks(c[..4], p) == e4;
    CheckPairIsFieldOutcome(e4, Cvv, p);
    assert RunChecks(c, p) == e6;
    FieldOutcomeFacts(None, CardNumber, p);
    FieldOutcomeFacts(e2, Expiry, p);
    FieldOutcomeFacts(e4, Cvv, p);
  }

  /** What running a field's two checks does to the payment entry: it is absent
      afterwards exactly when it was absent and the field is well formed; the
      field is listed (with the right message) exactly when it is malformed; the
      other fields keep their entries. */
  lemma FieldOutcomeFacts(entry: Option<map<PaymentField, string>>, f: PaymentField, p: Payment)
    ensures var r := FieldOutcome(entry, f, p);
            var v := FieldValue(p, f);
            && (r.None? <==> entry.None? && FormatOk(f, v))
            && (r.Some? ==> (f in r.value <==> (!FormatOk(f, v) || (entry.Some? && f in entry.value))))
            && (r.Some? && !FormatOk(f, v) ==>
                  r.value[f] == if v == "" then RequiredMessage(f) else FormatMessage(f))
            && (forall g :: g != f ==> (r.Some? && g in r.value <==> entry.Some? && g in entry.value))
            && (forall g :: g != f && r.Some? && g in r.value ==> r.value[g] == entry.value[g])
  {
    EmptyFailsFormat(f);
  }

  // ---------------------------------------------------------------------------
  // Whole-form validation
  // ---------------------------------------------------------------------------

  /** A form the validator accepts. */
  predicate FormComplete(form: CheckoutForm) {
    && form.firstName != ""
    && form.lastName != ""
    && form.email != "" && EmailFormatValid(form.email)
    && AddressComplete(form.mailingAddress)
    && (form.sameAddress || AddressComplete(form.billingAddress))
    && PaymentComplete(form.payment)
  }

  /** The address part of `validate`: the mailing address always, the billing
      address only when it is not the same as mailing. An address with errors
      contributes its error record; one without contributes no entry, as
      `Object.keys(...).length` is then 0. */
  method ValidateAddresses(form: CheckoutForm)
    returns (mailing: Option<map<AddressField, string>>, billing: Option<map<AddressField, string>>)
    ensures mailing.None? <==> AddressComplete(form.mailingAddress)
    ensures mailing.Some? ==> AddressErrorsDescribe(mailing.value, form.mailingAddress)
    ensures form.sameAddress ==> billing.None?
    ensures !form.sameAddress ==> (billing.None? <==> AddressComplete(form.billingAddress))
    ensures billing.Some? ==> AddressErrorsDescribe(billing.value, form.billingAddress)
  {
    mailing, billing := None, None;
    var mailingErrors := ValidateAddress(form.mailingAddress);
    if mailingErrors != map[] {
      mailing := Some(mailingErrors);
    }
    if !form.sameAddress {
      var billingErrors := ValidateAddress(form.billingAddress);
      if billingErrors != map[] {
        billing := Some(billingErrors);
      }
    }
  }

  /** `validate`: builds the error record of the form and reports whether it is empty. */
  method Validate(form: CheckoutForm) returns (valid: bool, errors: CheckoutErrors)
    ensures valid <==> errors == NoErrors
    ensures valid <==> FormComplete(form)
    ensures errors.firstName == if form.firstName == "" then Some(FirstNameRequired) else None
    ensures errors.lastName == if form.lastName == "" then Some(LastNameRequired) else None
    ensures errors.email ==
              if form.email == "" then Some(EmailRequired)
              else if !EmailFormatValid(form.email) then Some(EmailInvalid)
              else None
    ensures errors.mailingAddress.None? <==> AddressComplete(form.mailingAddress)
    ensures errors.mailingAddress.Some? ==>
              AddressErrorsDescribe(errors.mailingAddress.value, form.mailingAddress)
    ensures form.sameAddress ==> errors.billingAddress.None?
    ensures !form.sameAddress ==>
              (errors.billingAddress.None? <==> AddressComplete(form.billingAddress))
    ensures errors.billingAddress.Some? ==>
              AddressErrorsDescribe(errors.billingAddress.value, form.billingAddress)
    ensures errors.payment.None? <==> PaymentComplete(form.payment)
    ensures errors.payment.Some? ==> PaymentErrorsDescribe(errors.payment.value, form.payment)
  {
    valid := true;
    errors := NoErrors;

    if form.firstName == "" {
      errors := errors.(firstName := Some(FirstNameRequired));
      valid := false;
    }
    if form.lastName == "" {
      errors := errors.(lastName := Some(LastNameRequired));
      valid := false;
    }
    if form.email == "" {
      errors := errors.(email := Some(EmailRequired));
      valid := false;
    } else if !EmailFormatValid(form.email) {
      errors := errors.(email := Some(EmailInvalid));
      valid := false;
    }

    var mailing, billing := ValidateAddresses(form);
    if mailing.Some? {
      errors := errors.(mailingAddress := mailing);
      valid := false;
    }
    if billing.Some? {
      errors := errors.(billingAddress := billing);
      valid := false;
    }

    ghost var before := errors;
    ghost var validBefore := valid;
    assert validBefore <==> before == NoErrors;
    for i := 0 to |PaymentValidations|
      invariant errors == before.(payment := RunChecks(PaymentValidations[..i], form.payment))
      invariant valid == (validBefore && errors.payment.None?)
    {
      var check := PaymentValidations[i];
      RunChecksStep(PaymentValidations, i, form.payment);
      if Fires(check, form.payment) {
        errors := errors.(payment := Some(errors.payment.GetOr(map[])[check.field := check.message]));
        valid := false;
      }
    }
    assert PaymentValidations[..|PaymentValidations|] == PaymentValidations;
    PaymentTableOutcome(form.payment);
  }

  // ---------------------------------------------------------------------------
  // The change handler
  // ---------------------------------------------------------------------------

  /** What an input reports: its text, or for a checkbox whether it is checked. */
  datatype InputValue = TextValue(text: string) | CheckboxValue(checked: bool)

  /** An input's change event: the input's `name` and its value. */
  datatype ChangeEvent = ChangeEvent(name: string, input: InputValue)

  predicate Truthy(v: InputValue) {
    match v
    case TextValue(t) => t != ""
    case CheckboxValue(b) => b
  }

  /** `Number(value)` for the zip input, on the forms the model covers: the empty
      text is 0, a run of digits (optionally after '-') is its value, a checkbox is
      1 or 0. Every other text is stored as 0, the missing zip. For most of them
      `Number` gives NaN, which the checks treat like 0, but some are numbers
      there (white space around digits, a leading '+', fractions, exponent,
      hexadecimal, binary and octal forms, "Infinity"). */
  function ToZip(v: InputValue): (zip: int)
    ensures v == TextValue("") ==> zip == 0
    ensures v.TextValue? ==> (zip > 0 <==> IsNumeric(v.text) && DigitsValue(v.text) > 0)
    ensures v.TextValue? && AllDigits(v.text) ==> zip == DigitsValue(v.text)
  {
    match v
    case CheckboxValue(b) => if b then 1 else 0
    case TextValue(t) =>
      if AllDigits(t) then DigitsValue(t)
      else if |t| > 1 && t[0] == '-' && AllDigits(t[1..]) then -(DigitsValue(t[1..]) as int)
      else 0
  }

  /** A zip typed as the rendering of `n` is stored as `n`, the value the address
      validator renders again. */
  lemma ZipInputRoundTrip(n: int)
    ensures ToZip(TextValue(IntString(n))) == n
  {
    DigitsValueOfNatString(if n < 0 then -n else n);
    if n < 0 {
      var t := IntString(n);
      assert t[1..] == NatString(-n);
      assert !AllDigits(t) by { assert !IsDigit(t[0]); }
    }
  }

  /** What the zip input shows for a stored zip: `value={address.addrZip || ""}`,
      so the missing zip 0 shows as the empty text. */
  function ZipShown(zip: int): string {
    if zip == 0 then "" else IntString(zip)
  }

  /** The zip input never shows a leading zero, and typing back what it shows
      stores the same zip. */
  lemma ZipShownWithoutLeadingZero(zip: int)
    ensures ZipShown(zip) == "" || ZipShown(zip)[0] != '0'
    ensures ToZip(TextValue(ZipShown(zip))) == zip
  {
    if zip != 0 {
      ZipInputRoundTrip(zip);
    }
  }

  /** A zip typed with a leading zero loses it: "02134" is stored as 2134 and shown
      as "2134", and a lone "0" is stored as the missing zip and shown as "". */
  lemma LeadingZeroZipLost()
    ensures ToZip(TextValue("02134")) == 2134 && ZipShown(2134) == "2134"
    ensures ToZip(TextValue("0")) == 0 && ZipShown(0) == ""
  {
    assert DigitsValue("02134") == 2134 by {
      assert "02134"[..4] == "0213" && "0213"[..3] == "021" && "021"[..2] == "02" && "02"[..1] == "0";
    }
    assert NatString(2134) == "2134" by {
      assert NatString(2) == "2";
      assert NatString(21) == NatString(2) + "1";
      assert NatString(213) == NatString(21) + "3";
    }
  }

  function AddressFieldName(f: AddressField): string {
    match f
    case AddrLine1 => "addrLine1"
    case AddrLine2 => "addrLine2"
    case AddrCity => "addrCity"
    case AddrState => "addrState"
    case AddrZip => "addrZip"
  }

  function PaymentFieldName(f: PaymentField): string {
    match f
    case CardNumber => "cardNumber"
    case Expiry => "expiry"
    case Cvv => "cvv"
  }

  /** `{ ...address, [child]: value }`, with the zip converted by `Number`. Text
      fields take text only, and a child name that is not an address field is
      dropped (in the source it adds a key nothing reads). */
  function SetAddressChild(a: Address, child: string, v: InputValue): Address {
    if child == "addrZip" then a.(addrZip := ToZip(v))
    else if !v.TextValue? then a
    else if child == "addrLine1" then a.(addrLine1 := v.text)
    else if child == "addrLine2" then a.(addrLine2 := v.text)
    else if child == "addrCity" then a.(addrCity := v.text)
    else if child == "addrState" then a.(addrState := v.text)
    else a
  }

  /** `{ ...payment, [child]: value }` for text values and the three payment fields. */
  function SetPaymentChild(p: Payment, child: string, v: InputValue): Payment {
    if !v.TextValue? then p
    else if child == "cardNumber" then p.(cardNumber := v.text)
    else if child == "expiry" then p.(expiry := v.text)
    else if child == "cvv" then p.(cvv := v.text)
    else p
  }

  /** `{ ...prev, [name]: value }` for the three top-level text fields. */
  function SetTopLevel(prev: CheckoutForm, name: string, v: InputValue): CheckoutForm {
    if !v.TextValue? then prev
    else if name == "firstName" then prev.(firstName := v.text)
    else if name == "lastName" then prev.(lastName := v.text)
    else if name == "email" then prev.(email := v.text)
    else prev
  }

  /** `handleChange`: the form after one input event. A dotted name `parent.child`
      updates one child of the named address or of the payment; `sameAddress`
      sets the flag and, when it becomes set, copies the mailing address into
      billing. */
  function HandleChange(prev: CheckoutForm, e: ChangeEvent): (r: CheckoutForm)
    ensures r.firstName != prev.firstName ==> e.name == "firstName"
    ensures r.lastName != prev.lastName ==> e.name == "lastName"
    ensures r.email != prev.email ==> e.name == "email"
    ensures r.sameAddress != prev.sameAddress ==> e.name == "sameAddress"
    ensures r.mailingAddress != prev.mailingAddress ==> StartsWith(e.name, "mailingAddress.")
    ensures r.payment != prev.payment ==> StartsWith(e.name, "payment.")
    ensures r.billingAddress != prev.billingAddress ==>
              StartsWith(e.name, "billingAddress.") || e.name == "sameAddress"
  {
    if '.' in e.name then
      var parts := Split(e.name, '.');
      var parent, child := parts[0], parts[1];
      SplitHeadIsPrefix(e.name, '.');
      if parent == "mailingAddress" then
        prev.(mailingAddress := SetAddressChild(prev.mailingAddress, child, e.input))
      else if parent == "billingAddress" then
        prev.(billingAddress := SetAddressChild(prev.billingAddress, child, e.input))
      else if parent == "payment" then
        prev.(payment := SetPaymentChild(prev.payment, child, e.input))
      else
        prev
    else if e.name == "sameAddress" then
      var checked := Truthy(e.input);
      prev.(sameAddress := checked,
            billingAddress := if checked then prev.mailingAddress else prev.billingAddress)
    else
      SetTopLevel(prev, e.name, e.input)
  }

  /** Address `f` set to `text`, every other field as it was. */
  function WithAddressText(a: Address, f: AddressField, text: string): Address {
    match f
    case AddrLine1 => a.(addrLine1 := text)
    case AddrLine2 => a.(addrLine2 := text)
    case AddrCity => a.(addrCity := text)
    case AddrState => a.(addrState := text)
    case AddrZip => a.(addrZip := ToZip(TextValue(text)))
  }

  /** A name `parent.child` with dot-free parts splits back into the two parts. */
  lemma DottedName(parent: string, child: string)
    requires '.' !in parent && '.' !in child
    ensures '.' in parent + "." + child
    ensures Split(parent + "." + child, '.') == [parent, child]
  {
    var name := parent + "." + child;
    assert name == parent + ['.'] + child;
    assert name[|parent|] == '.';
    SplitAfterHead(parent, '.', child);
    SplitWithoutSeparator(child, '.');
  }

  lemma SetAddressChildByName(a: Address, f: AddressField, text: string)
    ensures SetAddressChild(a, AddressFieldName(f), TextValue(text)) == WithAddressText(a, f, text)
  {
    match f
    case AddrLine1 =>
    case AddrLine2 =>
    case AddrCity =>
    case AddrState =>
    case AddrZip =>
  }

  /** Typing into `parent.f` of an address section changes that one field of that
      one address and nothing else in the form. */
  lemma AddressInputChangesOneField(prev: CheckoutForm, billing: bool, f: AddressField, text: string)
    ensures var parent := if billing then "billingAddress" else "mailingAddress";
            var r := HandleChange(prev, ChangeEvent(parent + "." + AddressFieldName(f), TextValue(text)));
            r == if billing then prev.(billingAddress := WithAddressText(prev.billingAddress, f, text))
                 else prev.(mailingAddress := WithAddressText(prev.mailingAddress, f, text))
  {
    var parent := if billing then "billingAddress" else "mailingAddress";
    DottedName(parent, AddressFieldName(f));
    SetAddressChildByName(if billing then prev.billingAddress else prev.mailingAddress, f, text);
  }

  function WithPaymentText(p: Payment, f: PaymentField, text: string): Payment {
    match f
    case CardNumber => p.(cardNumber := text)
    case Expiry => p.(expiry := text)
    case Cvv => p.(cvv := text)
  }

  /** Typing into `payment.f` changes that one payment field and nothing else. */
  lemma PaymentInputChangesOneField(prev: CheckoutForm, f: PaymentField, text: string)
    ensures HandleChange(prev, ChangeEvent("payment" + "." + PaymentFieldName(f), TextValue(text)))
            == prev.(payment := WithPaymentText(prev.payment, f, text))
  {
    DottedName("payment", PaymentFieldName(f));
    match f
    case CardNumber =>
    case Expiry =>
    case Cvv =>
  }

  /** Typing into one of the top-level fields stores the typed text in that field
      and changes nothing else. */
  lemma TopLevelInputChangesOneField(prev: CheckoutForm, text: string)
    ensures HandleChange(prev, ChangeEvent("firstName", TextValue(text))) == prev.(firstName := text)
    ensures HandleChange(prev, ChangeEvent("lastName", TextValue(text))) == prev.(lastName := text)
    ensures HandleChange(prev, ChangeEvent("email", TextValue(text))) == prev.(email := text)
  {
    assert '.' !in "firstName";
    assert '.' !in "lastName";
    assert '.' !in "email";
  }

  /** Checking "same address" copies the mailing address into billing; unchecking
      it keeps billing as it was. */
  lemma SameAddressToggle(prev: CheckoutForm, checked: bool)
    ensures HandleChange(prev, ChangeEvent("sameAddress", CheckboxValue(checked)))
            == if checked then prev.(sameAddress := true, billingAddress := prev.mailingAddress)
               else prev.(sameAddress := false)
  {
    assert '.' !in "sameAddress";
  }

  // ---------------------------------------------------------------------------
  // The mirroring effect
  // ---------------------------------------------------------------------------

  /** While "same address" is set, the billing address equals the mailing address. */
  predicate BillingMirrored(form: CheckoutForm) {
    form.sameAddress ==> form.billingAddress == form.mailingAddress
  }

  /** The form as first rendered: everything empty, "same address" set, billing
      already equal to mailing, and not yet acceptable to the validator. */
  lemma InitialFormMirroredAndIncomplete()
    ensures BillingMirrored(InitialForm)
    ensures !FormComplete(InitialForm)
  {
  }

  /** The event replaced the mailing-address object, one of the effect's dependencies. */
  predicate ReplacesMailing(e: ChangeEvent) {
    StartsWith(e.name, "mailingAddress.")
  }

  /** An input event followed by the effect on `[form.mailingAddress, form.sameAddress]`:
      when the mailing object was replaced or the flag changed value, and the flag is
      now set, billing becomes the mailing address. */
  function HandleChangeAndSync(prev: CheckoutForm, e: ChangeEvent): (r: CheckoutForm)
    ensures r.(billingAddress := prev.billingAddress) ==
              HandleChange(prev, e).(billingAddress := prev.billingAddress)
    ensures r.sameAddress && (ReplacesMailing(e) || r.sameAddress != prev.sameAddress) ==>
              r.billingAddress == r.mailingAddress
    ensures !r.sameAddress ==> r == HandleChange(prev, e)
    ensures !ReplacesMailing(e) && r.sameAddress == prev.sameAddress ==> r == HandleChange(prev, e)
  {
    var next := HandleChange(prev, e);
    if next.sameAddress && (ReplacesMailing(e) || next.sameAddress != prev.sameAddress) then
      next.(billingAddress := next.mailingAddress)
    else
      next
  }

  /** Every event except typing into a billing field keeps billing mirrored. */
  lemma SyncKeepsBillingMirrored(prev: CheckoutForm, e: ChangeEvent)
    requires BillingMirrored(prev)
    requires !StartsWith(e.name, "billingAddress.")
    ensures BillingMirrored(HandleChangeAndSync(prev, e))
  {
    var next := HandleChange(prev, e);
    if e.name == "sameAddress" {
      assert '.' !in "sameAddress";
    }
  }

  /** With "same address" set, typing into a mailing field sets that field in both
      addresses. */
  lemma MailingInputMirrored(prev: CheckoutForm, f: AddressField, text: string)
    requires prev.sameAddress
    ensures var w := WithAddressText(prev.mailingAddress, f, text);
            HandleChangeAndSync(prev, ChangeEvent("mailingAddress" + "." + AddressFieldName(f), TextValue(text)))
            == prev.(mailingAddress := w, billingAddress := w)
  {
    var name := "mailingAddress" + "." + AddressFieldName(f);
    AddressInputChangesOneField(prev, false, f, text);
    assert name[..|"mailingAddress."|] == "mailingAddress.";
  }
}
