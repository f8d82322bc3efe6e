/**
 * The contact form of the portfolio (`Contact` in src/components/Contact.tsx):
 * a validator for the three fields, the whole-form check run on submit, and
 * the component state (field values, error texts, touched fields and a
 * four-valued submission status) driven by change, blur, submit, the
 * settling of the e-mail send, and the 3-second reset timer.
 *
 * The e-mail send is outside the model: `Submit` returns the payload it
 * would send, and `Settle` takes whether the send reported success. The
 * timer is the explicit event `Tick`.
 */
module Contact {
  import opened Wrappers
  import opened JsText
  import opened Sequences
  import opened EmailPattern

  datatype Field = Name | Email | Message

  /** `Object.keys(formData)`: the keys in the order the state object declares them. */
  const FormKeys: seq<Field> := [Name, Email, Message]

  const AllFields: set<Field> := {Name, Email, Message}

  /** The `formData` state, also the payload handed to the e-mail send. */
  datatype FormData = FormData(name: string, email: string, message: string) {

    function Get(f: Field): string {
      match f
      case Name => name
      case Email => email
      case Message => message
    }

    /** `{ ...prev, [f]: v }`: this record with field `f` replaced by `v`. */
    function Set(f: Field, v: string): (d: FormData)
      ensures d.Get(f) == v
      ensures forall g :: g != f ==> d.Get(g) == Get(g)
    {
      match f
      case Name => this.(name := v)
      case Email => this.(email := v)
      case Message => this.(message := v)
    }
  }

  const EmptyForm := FormData("", "", "")

  datatype Status = Idle | Loading | Success | Error

  const NameRequired := "Name is required"
  const NameTooShort := "Name must be at least 2 characters"
  const EmailRequired := "Email is required"
  const EmailInvalid := "Please enter a valid email address"
  const MessageRequired := "Message is required"
  const MessageTooShort := "Message must be at least 10 characters"

  /** The error texts the validator can give for field `f`. */
  function Messages(f: Field): set<string> {
    match f
    case Name => {NameRequired, NameTooShort}
    case Email => {EmailRequired, EmailInvalid}
    case Message => {MessageRequired, MessageTooShort}
  }

  /**
   * `validateField`: the error text for value `value` of field `f`, or "" when
   * the value is acceptable. The emptiness test trims the value; the length
   * and address tests look at the value as typed.
   */
  function ValidateField(f: Field, value: string): (r: string)
    ensures r == "" || r in Messages(f)
  {
    match f
    case Name =>
      if Trim(value) == "" then NameRequired
      else if Utf16Length(value) < 2 then NameTooShort
      else ""
    case Email =>
      if Trim(value) == "" then EmailRequired
      else if !MatchesEmail(value) then EmailInvalid
      else ""
    case Message =>
      if Trim(value) == "" then MessageRequired
      else if Utf16Length(value) < 10 then MessageTooShort
      else ""
  }

  /** The name rule: required unless blank, then at least two code units. */
  lemma NameRule(v: string)
    ensures ValidateField(Name, v) == NameRequired <==> IsBlank(v)
    ensures ValidateField(Name, v) == NameTooShort <==> !IsBlank(v) && Utf16Length(v) < 2
    ensures ValidateField(Name, v) == "" <==> !IsBlank(v) && Utf16Length(v) >= 2
  {
  }

  /** The message rule: required unless blank, then at least ten code units. */
  lemma MessageRule(v: string)
    ensures ValidateField(Message, v) == MessageRequired <==> IsBlank(v)
    ensures ValidateField(Message, v) == MessageTooShort <==> !IsBlank(v) && Utf16Length(v) < 10
    ensures ValidateField(Message, v) == "" <==> !IsBlank(v) && Utf16Length(v) >= 10
  {
  }

  /**
   * The address rule: required unless blank, then it must match the address
   * pattern; every matching value is accepted.
   */
  lemma EmailRule(v: string)
    ensures ValidateField(Email, v) == EmailRequired <==> IsBlank(v)
    ensures ValidateField(Email, v) == EmailInvalid <==> !IsBlank(v) && !Matches(v)
    ensures ValidateField(Email, v) == "" <==> Matches(v)
  {
    MatchesEmailIff(v);
    if Matches(v) {
      MatchIsNotBlank(v);
    }
  }

  /** Every field of `data` passes the validator. */
  predicate FormValid(data: FormData) {
    && ValidateField(Name, data.name) == ""
    && ValidateField(Email, data.email) == ""
    && ValidateField(Message, data.message) == ""
  }

  /**
   * The errors object built by visiting `keys` in order: an entry for each
   * visited field whose value fails, holding the validator's text.
   */
  function ErrorsAmong(data: FormData, keys: seq<Field>): map<Field, string> {
    if |keys| == 0 then map[]
    else
      var earlier, f := ErrorsAmong(data, keys[..|keys| - 1]), keys[|keys| - 1];
      var error := ValidateField(f, data.Get(f));
      if error != "" then earlier[f := error] else earlier
  }

  /** The errors object `validateForm` builds for `data`. */
  function FormErrors(data: FormData): map<Field, string> {
    ErrorsAmong(data, FormKeys)
  }

  /** The errors object for `data`, written out key by key in visiting order. */
  lemma FormErrorsUnfolded(data: FormData)
    ensures var n, e, m := ValidateField(Name, data.name), ValidateField(Email, data.email),
                          ValidateField(Message, data.message);
      var afterName := if n != "" then map[Name := n] else map[];
      var afterEmail := if e != "" then afterName[Email := e] else afterName;
      FormErrors(data) == if m != "" then afterEmail[Message := m] else afterEmail
  {
    assert FormKeys[..|FormKeys| - 1] == [Name, Email];
    assert [Name, Email][..1] == [Name];
    assert [Name][..0] == [];
    var afterName := ErrorsAmong(data, [Name]);
    var afterEmail := ErrorsAmong(data, [Name, Email]);
    assert ErrorsAmong(data, []) == map[];
    assert FormErrors(data) == ErrorsAmong(data, FormKeys);
  }

  /**
   * The errors object has a key exactly for each failing field, holding that
   * field's text; it is empty exactly when the form is valid.
   */
  lemma FormErrorsExact(data: FormData)
    ensures var e, v := FormErrors(data), ValidateField(Name, data.name);
      (Name in e <==> v != "") && (Name in e ==> e[Name] == v)
    ensures var e, v := FormErrors(data), ValidateField(Email, data.email);
      (Email in e <==> v != "") && (Email in e ==> e[Email] == v)
    ensures var e, v := FormErrors(data), ValidateField(Message, data.message);
      (Message in e <==> v != "") && (Message in e ==> e[Message] == v)
    ensures FormErrors(data) == map[] <==> FormValid(data)
  {
    FormErrorsUnfolded(data);
  }

  /** An empty form fails on all three fields with the "required" texts. */
  lemma EmptyFormErrors()
    ensures FormErrors(EmptyForm) == map[Name := NameRequired, Email := EmailRequired, Message := MessageRequired]
  {
    assert ValidateField(Name, "") == NameRequired;
    assert ValidateField(Email, "") == EmailRequired;
    assert ValidateField(Message, "") == MessageRequired;
    FormErrorsUnfolded(EmptyForm);
  }

  /** The address of the well-formed example matches the address pattern. */
  lemma ExampleAddressMatches()
    ensures MatchesEmail("al@example.com")
  {
    var address := "al@example.com";
    assert SplitsAt(address, 2, 10);
    MatchesEmailIff(address);
  }

  /** An address without `@` does not match the address pattern. */
  lemma AddressWithoutAtFails(address: string)
    requires forall k :: 0 <= k < |address| ==> address[k] != '@'
    ensures !MatchesEmail(address)
  {
  }

  /** A malformed address with an acceptable name and message fails on the address alone. */
  lemma BadAddressErrors()
    ensures FormErrors(FormData("Al", "not-an-email", "Hello there"))
            == map[Email := EmailInvalid]
  {
    var data := FormData("Al", "not-an-email", "Hello there");
    assert ValidateField(Name, data.name) == "" by {
      assert !IsWhitespace(data.name[0]);
    }
    assert ValidateField(Email, data.email) == EmailInvalid by {
      assert !IsWhitespace(data.email[0]);
      assert forall k :: 0 <= k < |data.email| ==> data.email[k] != '@';
      AddressWithoutAtFails(data.email);
      MatchesEmailIff(data.email);
      EmailRule(data.email);
    }
    assert ValidateField(Message, data.message) == "" by {
      assert !IsWhitespace(data.message[0]);
    }
    FormErrorsUnfolded(data);
  }

  /** A two-letter name, a well-formed address and a long enough message pass. */
  lemma WellFormedFormIsValid()
    ensures FormValid(FormData("Al", "al@example.com", "Hello there"))
  {
    var data := FormData("Al", "al@example.com", "Hello there");
    assert ValidateField(Name, data.name) == "" by {
      assert !IsWhitespace(data.name[0]);
    }
    assert ValidateField(Email, data.email) == "" by {
      ExampleAddressMatches();
      MatchesEmailIff(data.email);
      EmailRule(data.email);
    }
    assert ValidateField(Message, data.message) == "" by {
      assert !IsWhitespace(data.message[0]);
    }
  }

  /**
   * The length tests count the value as typed, in UTF-16 code units: a name
   * of one letter after a space passes, as does a message of one letter and
   * nine spaces, and a name made of one character outside the Basic
   * Multilingual Plane.
   */
  lemma LengthsCountUntrimmedCodeUnits()
    ensures ValidateField(Name, " a") == ""
    ensures ValidateField(Message, "a         ") == ""
    ensures ValidateField(Name, "\U{1F600}") == ""
  {
    assert !IsWhitespace(" a"[1]);
    assert !IsWhitespace("a         "[0]);
    assert !IsWhitespace("\U{1F600}"[0]);
  }

  /**
   * The loop of `validateForm`: visits the keys of `data`, records the error
   * of each failing field and clears `isValid` on the first failure.
   */
  method CollectErrors(data: FormData) returns (newErrors: map<Field, string>, isValid: bool)
    ensures newErrors == FormErrors(data)
    ensures isValid <==> newErrors == map[]
  {
    newErrors := map[];
    isValid := true;
    for i := 0 to |FormKeys|
      invariant newErrors == ErrorsAmong(data, FormKeys[..i])
      invariant isValid <==> newErrors == map[]
    {
      var field := FormKeys[i];
      var error := ValidateField(field, data.Get(field));
      assert FormKeys[..i + 1][..i] == FormKeys[..i];
      if error != "" {
        newErrors := newErrors[field := error];
        assert field in newErrors;
        isValid := false;
      }
    }
    assert FormKeys[..|FormKeys|] == FormKeys;
  }

  /** The state of one mounted `Contact` component. */
  class ContactForm {
    var formData: FormData
    var errors: map<Field, string>
    var status: Status
    var touched: set<Field>

    /** The initial state: empty fields, no errors, nothing touched, idle. */
    constructor ()
      ensures formData == EmptyForm && errors == map[] && status == Idle && touched == {}
      ensures TouchedErrorsCurrent()
    {
      formData := EmptyForm;
      errors := map[];
      status := Idle;
      touched := {};
    }

    /** The submit button's `disabled` flag. */
    predicate SubmitDisabled()
      reads this
    {
      status == Loading
    }

    /** `errors[f]`, with a missing key read as "". */
    function ErrorOf(f: Field): string
      reads this
    {
      if f in errors then errors[f] else ""
    }

    /** The red border of field `f` depends on its error alone. */
    predicate HasErrorBorder(f: Field)
      reads this
    {
      ErrorOf(f) != ""
    }

    /** The error text under field `f` shows only once `f` is touched. */
    predicate ShowsErrorText(f: Field)
      reads this
    {
      ErrorOf(f) != "" && f in touched
    }

    /** The error recorded for every touched field is the validator's verdict on its value. */
    ghost predicate TouchedErrorsCurrent()
      reads this
    {
      && (Name in touched ==> ErrorOf(Name) == ValidateField(Name, formData.name))
      && (Email in touched ==> ErrorOf(Email) == ValidateField(Email, formData.email))
      && (Message in touched ==> ErrorOf(Message) == ValidateField(Message, formData.message))
    }

    /** `validateForm`: replaces `errors` by the errors of the whole form. */
    method ValidateForm() returns (isValid: bool)
      modifies this`errors
      ensures errors == FormErrors(formData)
      ensures isValid <==> FormValid(formData)
      ensures old(TouchedErrorsCurrent()) ==> TouchedErrorsCurrent()
    {
      FormErrorsExact(formData);
      var newErrors;
      newErrors, isValid := CollectErrors(formData);
      errors := newErrors;
    }

    /**
     * A submit attempt: the button is inert while a send is loading; otherwise
     * `handleSubmit` validates the whole form and, if it is valid, enters
     * `Loading` and hands the current values to the e-mail send (`payload`).
     * A failed check leaves the values, the touched set and the status alone.
     */
    method Submit() returns (payload: Option<FormData>)
      modifies this`errors, this`status
      ensures formData == old(formData) && touched == old(touched)
      ensures payload.Some? <==> old(status) != Loading && FormValid(formData)
      ensures payload.Some? ==> payload.value == formData && status == Loading
      ensures payload.None? ==> status == old(status)
      ensures old(status) == Loading ==> errors == old(errors)
      ensures old(status) != Loading ==> errors == FormErrors(formData)
      ensures old(TouchedErrorsCurrent()) ==> TouchedErrorsCurrent()
    {
      if SubmitDisabled() {
        return None;
      }
      FormErrorsExact(formData);
      var isValid := ValidateForm();
      if !isValid {
        return None;
      }
      status := Loading;
      payload := Some(formData);
    }

    /**
     * The e-mail send settles: `Success` when it reported success, `Error`
     * when it reported failure or threw; then the reset effect runs.
     * The errors are kept either way.
     */
    method Settle(delivered: bool)
      requires status == Loading
      modifies this`status, this`formData, this`touched
      ensures status == if delivered then Success else Error
      ensures errors == old(errors)
      ensures delivered ==> formData == EmptyForm && touched == {}
      ensures !delivered ==> formData == old(formData) && touched == old(touched)
      ensures old(TouchedErrorsCurrent()) ==> TouchedErrorsCurrent()
    {
      if delivered {
        status := Success;
      } else {
        status := Error;
      }
      ResetOnSuccess();
    }

    /** The effect on `status`: on `Success` the values are emptied and nothing is touched. */
    method ResetOnSuccess()
      modifies this`formData, this`touched
      ensures status == Success ==> formData == EmptyForm && touched == {}
      ensures status != Success ==> formData == old(formData) && touched == old(touched)
      ensures old(TouchedErrorsCurrent()) ==> TouchedErrorsCurrent()
    {
      if status == Success {
        formData := EmptyForm;
        touched := {};
      }
    }

    /** The timer scheduled when the send settled fires: back to `Idle`. */
    method Tick()
      requires status == Success || status == Error
      modifies this`status
      ensures status == Idle
      ensures old(TouchedErrorsCurrent()) ==> TouchedErrorsCurrent()
    {
      status := Idle;
    }

    /**
     * `handleChange`: stores the typed value; re-validates the field only
     * when it has been touched. No other field's value or error changes.
     */
    method Change(f: Field, v: string)
      modifies this`formData, this`errors
      ensures formData == old(formData).Set(f, v)
      ensures errors == if f in touched then old(errors)[f := ValidateField(f, v)] else old(errors)
      ensures forall g :: g != f ==> formData.Get(g) == old(formData.Get(g)) && ErrorOf(g) == old(ErrorOf(g))
      ensures old(TouchedErrorsCurrent()) ==> TouchedErrorsCurrent()
    {
      formData := formData.Set(f, v);
      if f in touched {
        var error := ValidateField(f, v);
        errors := errors[f := error];
      }
    }

    /**
     * `handleBlur`: marks the field touched and records the validator's
     * verdict on the value the input holds.
     */
    method Blur(f: Field, v: string)
      modifies this`touched, this`errors
      ensures touched == old(touched) + {f}
      ensures errors == old(errors)[f := ValidateField(f, v)]
      ensures forall g :: g != f ==> ErrorOf(g) == old(ErrorOf(g))
      ensures old(TouchedErrorsCurrent()) && v == formData.Get(f) ==> TouchedErrorsCurrent()
    {
      touched := touched + {f};
      var error := ValidateField(f, v);
      errors := errors[f := error];
    }
  }

  /**
   * A whole session on a fresh form: type the three values, submit, and, when
   * a send starts, let it settle with `delivered` and let the timer fire.
   * A send starts exactly for a valid form and carries the typed values; a
   * delivered send empties the form, a failed one keeps it; the status ends
   * `Idle`.
   */
  method FillAndSubmit(data: FormData, delivered: bool)
    returns (sent: Option<FormData>, afterSettle: FormData, finalStatus: Status)
    ensures sent == if FormValid(data) then Some(data) else None
    ensures afterSettle == if FormValid(data) && delivered then EmptyForm else data
    ensures finalStatus == Idle
  {
    var form := new ContactForm();
    form.Change(Name, data.name);
    form.Change(Email, data.email);
    form.Change(Message, data.message);
    sent := form.Submit();
    if sent.Some? {
      form.Settle(delivered);
      afterSettle := form.formData;
      form.Tick();
    } else {
      afterSettle := form.formData;
    }
    finalStatus := form.status;
  }

  /**
   * Typing into an untouched field never shows its error text; leaving the
   * field shows it exactly when the value fails the validator.
   */
  method TypeThenBlur(f: Field, v: string) returns (shownWhileTyping: bool, shownAfterBlur: bool)
    ensures !shownWhileTyping
    ensures shownAfterBlur <==> ValidateField(f, v) != ""
  {
    var form := new ContactForm();
    form.Change(f, v);
    shownWhileTyping := form.ShowsErrorText(f);
    form.Blur(f, form.formData.Get(f));
    shownAfterBlur := form.ShowsErrorText(f);
  }

  /**
   * Submitting a form whose fields were typed but never left: the failing
   * fields get a red border, yet no error text shows, since a failed submit
   * touches nothing.
   */
  method SubmitUntouched(data: FormData) returns (textShown: set<Field>, bordered: set<Field>)
    ensures textShown == {}
    ensures bordered == FormErrors(data).Keys
  {
    var form := new ContactForm();
    form.Change(Name, data.name);
    form.Change(Email, data.email);
    form.Change(Message, data.message);
    var _ := form.Submit();
    FormErrorsExact(data);
    assert form.formData == data;
    assert form.errors == FormErrors(data);
    textShown := set f | f in AllFields && form.ShowsErrorText(f);
    bordered := set f | f in AllFields && form.HasErrorBorder(f);
    forall f ensures f in bordered <==> f in form.errors {
      match f
      case Name =>
      case Email =>
      case Message =>
    }
  }
}
