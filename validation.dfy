/**
 * Validation of the booking form: the controls and their validators, the
 * error record Angular attaches to an invalid control, the message shown
 * for a control, and whether the whole form may be submitted.
 */
module Validation {
  import opened Wrappers
  import opened Text
  import opened Passengers

  /** The top-level controls of the booking form. */
  datatype Field =
    | NombreCompleto | Dni | Email | Telefono | FechaNacimiento | Destino
    | FechaSalida | FechaRegreso | TipoViaje | Clase
    | NumPasajeros | Pasajeros | AceptarTerminos | Newsletter

  const FIELDS: seq<Field> :=
    [NombreCompleto, Dni, Email, Telefono, FechaNacimiento, Destino, FechaSalida,
     FechaRegreso, TipoViaje, Clase, NumPasajeros, Pasajeros, AceptarTerminos, Newsletter]

  /** The controls whose value is a string. */
  const TEXT_FIELDS: set<Field> :=
    {NombreCompleto, Dni, Email, Telefono, FechaNacimiento, Destino, FechaSalida,
     FechaRegreso, TipoViaje, Clase}

  /** The name a control is registered under in the form group. */
  function Name(f: Field): string
  {
    match f
    case NombreCompleto => "nombreCompleto"
    case Dni => "dni"
    case Email => "email"
    case Telefono => "telefono"
    case FechaNacimiento => "fechaNacimiento"
    case Destino => "destino"
    case FechaSalida => "fechaSalida"
    case FechaRegreso => "fechaRegreso"
    case TipoViaje => "tipoViaje"
    case Clase => "clase"
    case NumPasajeros => "numPasajeros"
    case Pasajeros => "pasajeros"
    case AceptarTerminos => "aceptarTerminos"
    case Newsletter => "newsletter"
  }

  /** The control a top-level name refers to, if any (`formularioReserva.get(name)`). */
  function FieldNamed(name: string): (r: Option<Field>)
    ensures r.Some? ==> Name(r.value) == name
  {
    if name == "nombreCompleto" then Some(NombreCompleto)
    else if name == "dni" then Some(Dni)
    else if name == "email" then Some(Email)
    else if name == "telefono" then Some(Telefono)
    else if name == "fechaNacimiento" then Some(FechaNacimiento)
    else if name == "destino" then Some(Destino)
    else if name == "fechaSalida" then Some(FechaSalida)
    else if name == "fechaRegreso" then Some(FechaRegreso)
    else if name == "tipoViaje" then Some(TipoViaje)
    else if name == "clase" then Some(Clase)
    else if name == "numPasajeros" then Some(NumPasajeros)
    else if name == "pasajeros" then Some(Pasajeros)
    else if name == "aceptarTerminos" then Some(AceptarTerminos)
    else if name == "newsletter" then Some(Newsletter)
    else None
  }

  /** Looking a control up by name finds exactly the control registered under that name. */
  lemma FieldNamedIff(name: string, f: Field)
    ensures FieldNamed(name) == Some(f) <==> Name(f) == name
  {
    if Name(f) == name {
      FieldNamedName(f);
    }
  }

  lemma FieldNamedName(f: Field)
    ensures FieldNamed(Name(f)) == Some(f)
  {
    match f
    case NombreCompleto =>
    case Dni =>
    case Email =>
    case Telefono =>
    case FechaNacimiento =>
    case Destino =>
    case FechaSalida =>
    case FechaRegreso =>
    case TipoViaje =>
    case Clase =>
    case NumPasajeros =>
    case Pasajeros =>
    case AceptarTerminos =>
    case Newsletter =>
  }

  /**
   * The errors Angular's validators report on one control: `required`,
   * `email`, and the configured bound of a failed `minlength`, `min` or
   * `max`.
   */
  datatype Errors = Errors(required: bool, email: bool, minlength: Option<int>, min: Option<int>, max: Option<int>)

  const NO_ERRORS: Errors := Errors(false, false, None, None, None)

  /** A control's `errors`: `null` when no validator fails. */
  function Report(e: Errors): Option<Errors>
  {
    if e == NO_ERRORS then None else Some(e)
  }

  /**
   * The validators of a text control: every text control is required,
   * `nombreCompleto` needs 3 characters and `email` must pass the email
   * check `isEmail`. An empty string fails only `required`.
   */
  function TextErrors(f: Field, s: string, isEmail: string -> bool): (e: Errors)
    ensures e == NO_ERRORS <==> s != "" && (f == NombreCompleto ==> |s| >= 3) && (f == Email ==> isEmail(s))
    ensures s == "" ==> e == NO_ERRORS.(required := true)
    ensures e.minlength.Some? ==> f == NombreCompleto && e.minlength.value == 3
    ensures e.min.None? && e.max.None?
  {
    Errors(s == "",
           f == Email && s != "" && !isEmail(s),
           if f == NombreCompleto && s != "" && |s| < 3 then Some(3) else None,
           None, None)
  }

  /**
   * `required`, `min(lo)` and `max(hi)` on a numeric control; `None` is an
   * empty input, which fails only `required`. A failed bound is reported
   * with the bound itself.
   */
  function NumberErrors(v: Option<int>, lo: int, hi: int): (e: Errors)
    ensures e == NO_ERRORS <==> v.Some? && lo <= v.value <= hi
    ensures v.None? ==> e == NO_ERRORS.(required := true)
    ensures e.min.Some? ==> e.min.value == lo && v.value < lo
    ensures e.max.Some? ==> e.max.value == hi && v.value > hi
    ensures v.Some? ==> !e.required
    ensures v.Some? && v.value < lo ==> e.min == Some(lo)
    ensures v.Some? && v.value > hi ==> e.max == Some(hi)
  {
    Errors(v.None?, false, None,
           if v.Some? && v.value < lo then Some(lo) else None,
           if v.Some? && v.value > hi then Some(hi) else None)
  }

  /**
   * A passenger sub-form is valid when its name, age and relation pass
   * their validators: name and relation filled in, the age present and
   * between 0 and 120.
   */
  function PasajeroValid(p: Pasajero): (b: bool)
    ensures b <==> p.nombre != "" && p.relacion != "" && p.edad.Some? && 0 <= p.edad.value <= 120
  {
    p.nombre != "" && NumberErrors(p.edad, 0, 120) == NO_ERRORS && p.relacion != ""
  }

  /** The values held by the form group. */
  datatype FormValues = FormValues(
    texts: map<Field, string>,
    numPasajeros: int,
    pasajeros: seq<Pasajero>,
    aceptarTerminos: bool,
    newsletter: bool)

  function TextOf(v: FormValues, f: Field): string
  {
    if f in v.texts then v.texts[f] else ""
  }

  /** The `errors` of a top-level control. */
  function ControlErrors(v: FormValues, f: Field, isEmail: string -> bool): (r: Option<Errors>)
    ensures r.Some? ==> r.value != NO_ERRORS
    ensures f in TEXT_FIELDS ==>
      (r.None? <==> TextOf(v, f) != "" && (f == NombreCompleto ==> |TextOf(v, f)| >= 3) && (f == Email ==> isEmail(TextOf(v, f))))
    ensures f == NumPasajeros ==> (r.None? <==> 1 <= v.numPasajeros <= 10)
    ensures f == AceptarTerminos ==> (r.None? <==> v.aceptarTerminos)
    ensures f == Pasajeros || f == Newsletter ==> r.None?
  {
    if f in TEXT_FIELDS then Report(TextErrors(f, TextOf(v, f), isEmail))
    else if f == NumPasajeros then Report(NumberErrors(Some(v.numPasajeros), 1, 10))
    else if f == AceptarTerminos then (if v.aceptarTerminos then None else Some(NO_ERRORS.(required := true)))
    else None
  }

  /** A control is invalid when it has errors or, for the passenger array, one of its sub-forms is invalid. */
  function Invalid(v: FormValues, f: Field, isEmail: string -> bool): (b: bool)
    ensures f != Pasajeros ==> (b <==> ControlErrors(v, f, isEmail).Some?)
    ensures f == Pasajeros ==> (b <==> !PassengersComplete(v.pasajeros))
  {
    assert f == Pasajeros ==> (PassengersComplete(v.pasajeros) <==> forall i :: 0 <= i < |v.pasajeros| ==> PasajeroValid(v.pasajeros[i]));

    ControlErrors(v, f, isEmail).Some?
    || (f == Pasajeros && exists i :: 0 <= i < |v.pasajeros| && !PasajeroValid(v.pasajeros[i]))
  }

  /**
   * `formularioReserva.valid`: no control is invalid. In particular a
   * valid form has its terms accepted and a count between 1 and 10;
   * `FormValidIff` gives the full condition.
   */
  function FormValid(v: FormValues, isEmail: string -> bool): (b: bool)
    ensures b ==> v.aceptarTerminos && 1 <= v.numPasajeros <= 10
  {
    assert NumPasajeros in FIELDS && AceptarTerminos in FIELDS;
    var ok := forall f :: f in FIELDS ==> !Invalid(v, f, isEmail);
    assert ok ==> !Invalid(v, NumPasajeros, isEmail) && !Invalid(v, AceptarTerminos, isEmail);
    ok
  }

  /** A text control passes its validators exactly when it is filled in and meets its own extra rule. */
  lemma TextControlValid(v: FormValues, f: Field, isEmail: string -> bool)
    requires f in TEXT_FIELDS
    ensures !Invalid(v, f, isEmail) <==>
      && TextOf(v, f) != ""
      && (f == NombreCompleto ==> |TextOf(v, f)| >= 3)
      && (f == Email ==> isEmail(TextOf(v, f)))
  {
  }

  /** Every text input is filled in. */
  predicate TextsFilled(v: FormValues)
  {
    forall f :: f in TEXT_FIELDS ==> TextOf(v, f) != ""
  }

  /** Every passenger has a name, a relation and an age between 0 and 120. */
  predicate PassengersComplete(ps: seq<Pasajero>)
  {
    forall i :: 0 <= i < |ps| ==>
      ps[i].nombre != "" && ps[i].relacion != "" && ps[i].edad.Some? && 0 <= ps[i].edad.value <= 120
  }

  /** What the form's validators demand, stated field by field. */
  predicate Submittable(v: FormValues, isEmail: string -> bool)
  {
    && TextsFilled(v)
    && |TextOf(v, NombreCompleto)| >= 3
    && isEmail(TextOf(v, Email))
    && 1 <= v.numPasajeros <= 10
    && v.aceptarTerminos
    && PassengersComplete(v.pasajeros)
  }

  /**
   * The form is valid exactly when every text input is filled in, the full
   * name has at least 3 characters, the email passes the email check, the
   * count is between 1 and 10, the terms are accepted and every passenger
   * has a name, a relation and an age between 0 and 120.
   */
  lemma FormValidIff(v: FormValues, isEmail: string -> bool)
    ensures FormValid(v, isEmail) <==> Submittable(v, isEmail)
  {
    if FormValid(v, isEmail) {
      ValidIsSubmittable(v, isEmail);
    }
    if Submittable(v, isEmail) {
      SubmittableIsValid(v, isEmail);
    }
  }

  lemma TextFieldIsField(f: Field)
    requires f in TEXT_FIELDS
    ensures f in FIELDS
  {
    assert f == FIELDS[0] || f == FIELDS[1] || f == FIELDS[2] || f == FIELDS[3] || f == FIELDS[4]
        || f == FIELDS[5] || f == FIELDS[6] || f == FIELDS[7] || f == FIELDS[8] || f == FIELDS[9];
  }

  lemma ValidIsSubmittable(v: FormValues, isEmail: string -> bool)
    requires FormValid(v, isEmail)
    ensures Submittable(v, isEmail)
  {
    ValidTextsFilled(v, isEmail);
    ValidTextRules(v, isEmail);
    assert FIELDS[10] == NumPasajeros && FIELDS[12] == AceptarTerminos;
    assert !Invalid(v, NumPasajeros, isEmail);
    assert !Invalid(v, AceptarTerminos, isEmail);
    ValidPassengersComplete(v, isEmail);
  }

  lemma ValidTextRules(v: FormValues, isEmail: string -> bool)
    requires FormValid(v, isEmail)
    ensures |TextOf(v, NombreCompleto)| >= 3 && isEmail(TextOf(v, Email))
  {
    assert FIELDS[0] == NombreCompleto && FIELDS[2] == Email;
    TextControlValid(v, NombreCompleto, isEmail);
    TextControlValid(v, Email, isEmail);
  }

  lemma ValidTextsFilled(v: FormValues, isEmail: string -> bool)
    requires FormValid(v, isEmail)
    ensures TextsFilled(v)
  {
    forall f | f in TEXT_FIELDS ensures TextOf(v, f) != "" {
      TextFieldIsField(f);
      TextControlValid(v, f, isEmail);
    }
  }

  lemma ValidPassengersComplete(v: FormValues, isEmail: string -> bool)
    requires FormValid(v, isEmail)
    ensures PassengersComplete(v.pasajeros)
  {
    assert FIELDS[11] == Pasajeros;
    assert !Invalid(v, Pasajeros, isEmail);
    forall i | 0 <= i < |v.pasajeros|
      ensures v.pasajeros[i].nombre != "" && v.pasajeros[i].relacion != ""
      ensures v.pasajeros[i].edad.Some? && 0 <= v.pasajeros[i].edad.value <= 120
    {
      assert PasajeroValid(v.pasajeros[i]);
    }
  }

  lemma SubmittableIsValid(v: FormValues, isEmail: string -> bool)
    requires Submittable(v, isEmail)
    ensures FormValid(v, isEmail)
  {
    forall f | f in FIELDS ensures !Invalid(v, f, isEmail) {
      if f in TEXT_FIELDS {
        TextControlValid(v, f, isEmail);
      } else if f == Pasajeros {
        assert forall i :: 0 <= i < |v.pasajeros| ==> PasajeroValid(v.pasajeros[i]);
      }
    }
  }

  /**
   * Submission is blocked while the terms are not accepted, and while any
   * passenger has an empty name or relation or an age that is missing or
   * outside 0 to 120, whatever the other inputs hold.
   */
  lemma SubmitBlocked(v: FormValues, isEmail: string -> bool, i: int)
    requires !v.aceptarTerminos
          || (0 <= i < |v.pasajeros|
              && (v.pasajeros[i].nombre == "" || v.pasajeros[i].relacion == ""
                  || v.pasajeros[i].edad.None? || v.pasajeros[i].edad.value < 0 || v.pasajeros[i].edad.value > 120))
    ensures !FormValid(v, isEmail)
  {
    FormValidIff(v, isEmail);
  }

  /** One control as the error display sees it. */
  datatype Control = Control(errors: Option<Errors>, invalid: bool, touched: bool)

  /** `formularioReserva.get(name)`, with `touched` the set of controls the user has left. */
  function Get(v: FormValues, touched: set<Field>, name: string, isEmail: string -> bool): (r: Option<Control>)
    ensures r.Some? <==> FieldNamed(name).Some?
    ensures r.Some? ==> Name(FieldNamed(name).value) == name
    ensures r.Some? ==>
      && r.value.errors == ControlErrors(v, FieldNamed(name).value, isEmail)
      && r.value.invalid == Invalid(v, FieldNamed(name).value, isEmail)
      && r.value.touched == (FieldNamed(name).value in touched)
  {
    match FieldNamed(name)
    case None => None
    case Some(f) => Some(Control(ControlErrors(v, f, isEmail), Invalid(v, f, isEmail), f in touched))
  }

  /** The message chosen for a control, before it is turned into text. */
  datatype Message =
    | NoMessage
    | RequiredMessage
    | EmailMessage
    | MinLengthMessage(requiredLength: int)
    | MinMessage(min: int)
    | MaxMessage(max: int)
    | GenericMessage

  /** `getErrorMessage`'s choice: nothing unless the control exists, has errors and was touched; else the first error in priority order. */
  function SelectMessage(c: Option<Control>): (m: Message)
    ensures m == NoMessage <==> (c.None? || c.value.errors.None? || !c.value.touched)
    ensures m == RequiredMessage <==> m != NoMessage && c.value.errors.value.required
    ensures m.MinLengthMessage? ==> c.value.errors.value.minlength == Some(m.requiredLength)
    ensures m.MinMessage? ==> c.value.errors.value.min == Some(m.min)
    ensures m.MaxMessage? ==> c.value.errors.value.max == Some(m.max)
  {
    if c.None? || c.value.errors.None? || !c.value.touched then NoMessage
    else
      var e := c.value.errors.value;
      if e.required then RequiredMessage
      else if e.email then EmailMessage
      else if e.minlength.Some? then MinLengthMessage(e.minlength.value)
      else if e.min.Some? then MinMessage(e.min.value)
      else if e.max.Some? then MaxMessage(e.max.value)
      else GenericMessage
  }

  /** The Spanish text of a message; only the absence of a message renders as the empty string. */
  function Render(m: Message): (s: string)
    ensures s == "" <==> m == NoMessage
  {
    match m
    case NoMessage => ""
    case RequiredMessage => "Este campo es obligatorio"
    case EmailMessage => "Formato de email inválido"
    case MinLengthMessage(n) => "Mínimo " + IntToString(n) + " caracteres"
    case MinMessage(n) => "El valor mínimo es " + IntToString(n)
    case MaxMessage(n) => "El valor máximo es " + IntToString(n)
    case GenericMessage => "Error de validación"
  }

  /** The text under a control: empty exactly when the control is missing, error-free or untouched. */
  function ErrorMessage(c: Option<Control>): (s: string)
    ensures s == "" <==> (c.None? || c.value.errors.None? || !c.value.touched)
  {
    Render(SelectMessage(c))
  }

  /**
   * `isFieldInvalid`: the control exists, is invalid and was touched. A
   * flagged control that has errors of its own also shows a message.
   */
  function IsInvalid(c: Option<Control>): (b: bool)
    ensures b <==> c.Some? && c.value.invalid && c.value.touched
    ensures b && c.value.errors.Some? ==> ErrorMessage(c) != ""
  {
    c.Some? && c.value.invalid && c.value.touched
  }

  /** The kinds of error a message can be chosen for, in priority order. */
  datatype Kind = RequiredKind | EmailKind | MinLengthKind | MinKind | MaxKind

  const PRIORITY: seq<Kind> := [RequiredKind, EmailKind, MinLengthKind, MinKind, MaxKind]

  predicate Has(e: Errors, k: Kind)
  {
    match k
    case RequiredKind => e.required
    case EmailKind => e.email
    case MinLengthKind => e.minlength.Some?
    case MinKind => e.min.Some?
    case MaxKind => e.max.Some?
  }

  /** The message an error of kind `k` reads as, quoting the bound it carries. */
  function MessageFor(e: Errors, k: Kind): Message
    requires Has(e, k)
  {
    match k
    case RequiredKind => RequiredMessage
    case EmailKind => EmailMessage
    case MinLengthKind => MinLengthMessage(e.minlength.value)
    case MinKind => MinMessage(e.min.value)
    case MaxKind => MaxMessage(e.max.value)
  }

  /**
   * For a touched control with errors, the message is the one for the
   * first kind in the priority order that is present, and the generic one
   * when none is.
   */
  lemma SelectFirstPresent(c: Control)
    requires c.errors.Some? && c.touched
    ensures (forall k :: k in PRIORITY ==> !Has(c.errors.value, k)) ==> SelectMessage(Some(c)) == GenericMessage
    ensures forall j ::
              (0 <= j < |PRIORITY| && Has(c.errors.value, PRIORITY[j])
               && forall i :: 0 <= i < j ==> !Has(c.errors.value, PRIORITY[i])) ==>
              SelectMessage(Some(c)) == MessageFor(c.errors.value, PRIORITY[j])
  {
    var e := c.errors.value;
    if forall k :: k in PRIORITY ==> !Has(e, k) {
      assert !Has(e, PRIORITY[0]) && !Has(e, PRIORITY[1]) && !Has(e, PRIORITY[2]);
      assert !Has(e, PRIORITY[3]) && !Has(e, PRIORITY[4]);
    }
    forall j | 0 <= j < |PRIORITY| && Has(e, PRIORITY[j]) && (forall i :: 0 <= i < j ==> !Has(e, PRIORITY[i]))
      ensures SelectMessage(Some(c)) == MessageFor(e, PRIORITY[j])
    {
      if j >= 1 { assert !Has(e, PRIORITY[0]); }
      if j >= 2 { assert !Has(e, PRIORITY[1]); }
      if j >= 3 { assert !Has(e, PRIORITY[2]); }
      if j >= 4 { assert !Has(e, PRIORITY[3]); }
    }
  }

  /**
   * For every control other than the passenger array, invalid means having
   * errors, so a message is shown exactly when the control is reported
   * invalid; the array itself has no validators and never shows one.
   */
  lemma MessageShownIffInvalid(v: FormValues, touched: set<Field>, name: string, isEmail: string -> bool)
    requires '.' !in name
    ensures FieldNamed(name) != Some(Pasajeros) ==>
      (ErrorMessage(Get(v, touched, name, isEmail)) != "" <==> IsInvalid(Get(v, touched, name, isEmail)))
    ensures FieldNamed(name) == Some(Pasajeros) ==> ErrorMessage(Get(v, touched, name, isEmail)) == ""
  {
  }

  /** A touched, non-empty email that fails the email check shows the format message, not the required one. */
  lemma EmailFormatMessage(v: FormValues, touched: set<Field>, isEmail: string -> bool)
    requires Email in touched && TextOf(v, Email) != "" && !isEmail(TextOf(v, Email))
    ensures ErrorMessage(Get(v, touched, "email", isEmail)) == "Formato de email inválido"
  {
  }

  /** A touched full name of 1 or 2 characters quotes the required length. */
  lemma MinLengthMessageText(v: FormValues, touched: set<Field>, isEmail: string -> bool)
    requires NombreCompleto in touched && 0 < |TextOf(v, NombreCompleto)| < 3
    ensures ErrorMessage(Get(v, touched, "nombreCompleto", isEmail)) == "Mínimo 3 caracteres"
  {
  }

  /** A count above 10 is reported against the maximum once touched. */
  lemma MaxMessageText(v: FormValues, touched: set<Field>, isEmail: string -> bool)
    requires NumPasajeros in touched && v.numPasajeros > 10
    ensures ErrorMessage(Get(v, touched, "numPasajeros", isEmail)) == "El valor máximo es 10"
  {
  }

  /** A count below 1 is reported against the minimum once touched. */
  lemma MinMessageText(v: FormValues, touched: set<Field>, isEmail: string -> bool)
    requires NumPasajeros in touched && v.numPasajeros < 1
    ensures ErrorMessage(Get(v, touched, "numPasajeros", isEmail)) == "El valor mínimo es 1"
  {
  }
}
