/** The customer's warranty-registration wizard: step 1 validates a serial,
    step 2 collects the owner's details, step 3 confirms. Each handler is
    one transition given the outcome of its API call; `loading` is not
    modelled because the handlers are atomic here. */
module EWarranty {
  import opened Base
  import Serials

  /** What `validateSerial` resolves with. */
  datatype SerialInfo = SerialInfo(productId: nat, productName: string)

  datatype UserForm = UserForm(userName: string, userEmail: string, userPhone: string)

  datatype Wizard = Wizard(
    step: int,
    serial: string,
    info: Option<SerialInfo>,
    form: UserForm,
    error: string,
    successMsg: string)

  const EmptyForm := UserForm("", "", "")

  const Initial := Wizard(1, "", None, EmptyForm, "", "")

  const SuccessMessage := "Warranty registered successfully!"

  /** The body of `registerWarranty`. */
  datatype Registration = Registration(
    serial: string, productId: nat, userName: string, userEmail: string, userPhone: string)

  datatype Call = ValidateCall(serial: string) | RegisterCall(request: Registration)

  /** What the user (or the query string) can do, with the outcome of the
      API call where the handler makes one. A validation that resolves with
      `null` is `ApiOk(None)`. */
  datatype Action =
    | Prefill(pre: Option<string>)
    | TypeSerial(text: string)
    | Validate(found: ApiResult<Option<SerialInfo>>)
    | EditName(value: string)
    | EditEmail(value: string)
    | EditPhone(value: string)
    | Register(done: ApiResult<()>)
    | GoBack
    | RegisterAnother

  /** The step-2 form is rendered only when `step === 2 && info`. */
  predicate FormShown(w: Wizard)
  {
    w.step == 2 && w.info.Some?
  }

  /** Whether the control behind an action is on screen and enabled. The
      prefill effect runs whenever the query string changes. */
  predicate Enabled(w: Wizard, a: Action)
  {
    match a
    case Prefill(_) => true
    case TypeSerial(_) => w.step == 1
    case Validate(_) => w.step == 1 && w.serial != ""
    case EditName(_) => FormShown(w)
    case EditEmail(_) => FormShown(w)
    case EditPhone(_) => FormShown(w)
    case Register(_) => FormShown(w) && w.form.userName != "" && w.form.userEmail != ""
    case GoBack => FormShown(w)
    case RegisterAnother => w.step == 3
  }

  /** One handler: the wizard afterwards and the API call made, if any. A
      disabled control does nothing. */
  function Step(w: Wizard, a: Action): (r: (Wizard, Option<Call>))
    ensures !Enabled(w, a) ==> r == (w, None)
    ensures r.1.Some? <==> Enabled(w, a) && (a.Validate? || a.Register?)
  {
    if !Enabled(w, a) then (w, None)
    else match a
      case Prefill(pre) =>
        if pre.Some? && pre.value != "" then (w.(serial := Serials.Normalise(pre.value)), None) else (w, None)
      case TypeSerial(text) => (w.(serial := Serials.Normalise(text)), None)
      case Validate(found) =>
        var call := Some(ValidateCall(w.serial));
        (match found
         case ApiOk(data) => w.(info := data, step := 2, error := "", successMsg := "")
         case ApiFailed(msg) => w.(error := msg, successMsg := ""), call)
      case EditName(v) => (w.(form := w.form.(userName := v)), None)
      case EditEmail(v) => (w.(form := w.form.(userEmail := v)), None)
      case EditPhone(v) => (w.(form := w.form.(userPhone := v)), None)
      case Register(done) =>
        var call := Some(RegisterCall(RegistrationOf(w)));
        (match done
         case ApiOk(_) => w.(successMsg := SuccessMessage, step := 3, error := "")
         case ApiFailed(msg) => w.(error := msg, successMsg := ""), call)
      case GoBack => (w.(step := 1, error := "", info := None, serial := ""), None)
      case RegisterAnother => (Initial, None)
  }

  /** The request `handleRegister` sends. */
  function RegistrationOf(w: Wizard): Registration
    requires w.info.Some?
  {
    Registration(w.serial, w.info.value.productId, w.form.userName, w.form.userEmail, w.form.userPhone)
  }

  /** The facts every reachable wizard state keeps. */
  predicate Invariant(w: Wizard)
  {
    && (w.step == 1 || w.step == 2 || w.step == 3)
    && Serials.Normalise(w.serial) == w.serial
    && (w.step == 1 ==> w.info.None?)
    && (w.step == 3 ==> w.info.Some? && w.error == "")
    && w.successMsg == (if w.step == 3 then SuccessMessage else "")
  }

  /** The wizard starts at step 1 with everything empty. */
  lemma InitialInvariant()
    ensures Invariant(Initial) && Initial.step == 1
  {
    assert Serials.Normalise("") == "";
  }

  /** Every handler keeps the invariant. */
  lemma StepKeepsInvariant(w: Wizard, a: Action)
    requires Invariant(w)
    ensures Invariant(Step(w, a).0)
  {
    match a
    case Prefill(pre) =>
      if pre.Some? { Serials.NormaliseIdempotent(pre.value); }
    case TypeSerial(text) => Serials.NormaliseIdempotent(text);
    case GoBack => assert Serials.Normalise("") == "";
    case RegisterAnother => InitialInvariant();
    case _ =>
  }

  /** Runs a sequence of actions, collecting the calls made. */
  function Run(w: Wizard, actions: seq<Action>): (r: (Wizard, seq<Call>))
    decreases |actions|
  {
    if |actions| == 0 then (w, [])
    else
      var (next, call) := Step(w, actions[0]);
      var (last, calls) := Run(next, actions[1..]);
      (last, (if call.Some? then [call.value] else []) + calls)
  }

  /** From the initial state, any run of actions ends in a state that keeps
      the invariant: the step is 1, 2 or 3 and the serial is normalised. */
  lemma {:induction false} RunKeepsInvariant(w: Wizard, actions: seq<Action>)
    requires Invariant(w)
    ensures Invariant(Run(w, actions).0)
    decreases |actions|
  {
    if |actions| > 0 {
      StepKeepsInvariant(w, actions[0]);
      RunKeepsInvariant(Step(w, actions[0]).0, actions[1..]);
    }
  }

  /** Typing or prefilling stores the normalised text. */
  lemma SerialInputNormalises(w: Wizard, text: string)
    requires w.step == 1 && text != ""
    ensures Step(w, TypeSerial(text)).0.serial == Serials.Normalise(text)
    ensures Step(w, Prefill(Some(text))).0.serial == Serials.Normalise(text)
    ensures Step(w, Prefill(None)).0 == w
  {
  }

  /** Validation: success stores the answer and moves to step 2; failure
      stays at step 1 with the message. The serial sent is the stored one. */
  lemma ValidateOutcome(w: Wizard, found: ApiResult<Option<SerialInfo>>)
    requires Invariant(w) && w.step == 1 && w.serial != ""
    ensures Step(w, Validate(found)).1 == Some(ValidateCall(w.serial))
    ensures found.ApiOk? ==> Step(w, Validate(found)).0 == w.(info := found.value, step := 2, error := "")
    ensures found.ApiFailed? ==> Step(w, Validate(found)).0 == w.(error := found.message)
  {
  }

  /** Validation is not offered while the serial is empty, nor outside step 1. */
  lemma ValidateNeedsSerial(w: Wizard, found: ApiResult<Option<SerialInfo>>)
    requires w.step != 1 || w.serial == ""
    ensures Step(w, Validate(found)) == (w, None)
  {
  }

  /** Registration: success moves to step 3 with the success message;
      failure stays at step 2 with the message. The request carries the
      validated product id. */
  lemma RegisterOutcome(w: Wizard, done: ApiResult<()>)
    requires Invariant(w) && FormShown(w) && w.form.userName != "" && w.form.userEmail != ""
    ensures Step(w, Register(done)).1 ==
      Some(RegisterCall(Registration(w.serial, w.info.value.productId,
                                     w.form.userName, w.form.userEmail, w.form.userPhone)))
    ensures done.ApiOk? ==>
      Step(w, Register(done)).0 == w.(step := 3, successMsg := SuccessMessage, error := "")
    ensures done.ApiFailed? ==> Step(w, Register(done)).0 == w.(error := done.message)
  {
  }

  /** Registration is not offered without a name and an email, nor while
      the step-2 form is hidden (in particular without `info`). */
  lemma RegisterNeedsDetails(w: Wizard, done: ApiResult<()>)
    requires !FormShown(w) || w.form.userName == "" || w.form.userEmail == ""
    ensures Step(w, Register(done)) == (w, None)
  {
  }

  /** "Go Back" returns to step 1 and clears the serial, the answer and the
      error, but keeps what was typed into the owner form. */
  lemma GoBackKeepsForm(w: Wizard)
    requires Invariant(w) && FormShown(w)
    ensures Step(w, GoBack).0 == Initial.(form := w.form)
  {
  }

  /** "Register Another" restores the initial state. */
  lemma RegisterAnotherResets(w: Wizard)
    requires w.step == 3
    ensures Step(w, RegisterAnother) == (Initial, None)
  {
  }
}
