/**
 * The state of the booking component: the form values, the passenger
 * list kept in step with the passenger count, the live price, the
 * filtered destination list and the per-control `touched` marks. The
 * reactive subscriptions of the component become explicit calls: a
 * change of the count runs the passenger sync, every change of a form
 * value recomputes the price, and a change of the search term refilters
 * the destinations.
 */
module Booking {
  import opened Wrappers
  import opened Passengers
  import Destinations
  import Pricing
  import opened Validation

  class BookingState {
    /** The email check of the `email` validator. */
    const isEmail: string -> bool

    var texts: map<Field, string>
    var numPasajeros: int
    var pasajeros: seq<Pasajero>
    var aceptarTerminos: bool
    var newsletter: bool
    var touched: set<Field>
    var searchTerm: string
    var filteredDestinos: seq<string>
    var precioTotal: int

    /** `formularioReserva.value`. */
    function Values(): FormValues
      reads this
    {
      FormValues(texts, numPasajeros, pasajeros, aceptarTerminos, newsletter)
    }

    /** The price the current class and count call for. */
    function Price(): int
      reads this`texts, this`numPasajeros
    {
      Pricing.TotalPrice(if Clase in texts then texts[Clase] else "", Some(numPasajeros))
    }

    /** Invariant apart from the price, which lags behind while the passenger sync runs. */
    ghost predicate WellFormed()
      reads this`texts, this`numPasajeros, this`searchTerm, this`filteredDestinos
    {
      && texts.Keys == TEXT_FIELDS
      && numPasajeros >= 1
      && filteredDestinos == Destinations.FilterDestinos(searchTerm)
    }

    ghost predicate Valid()
      reads this
    {
      WellFormed() && precioTotal == Price()
    }

    /** The list holds one record per traveller besides the holder. */
    predicate InSync()
      reads this
    {
      |pasajeros| == numPasajeros - 1
    }

    /** The form as the component builds it: empty inputs, one traveller, the whole catalogue listed, price 0. */
    constructor (isEmail: string -> bool)
      ensures Valid() && InSync()
      ensures this.isEmail == isEmail
      ensures texts == map f | f in TEXT_FIELDS :: ""
      ensures numPasajeros == 1 && pasajeros == []
      ensures !aceptarTerminos && !newsletter && touched == {}
      ensures searchTerm == "" && filteredDestinos == Destinations.DESTINOS
      ensures precioTotal == 0
    {
      this.isEmail := isEmail;
      texts := map f | f in TEXT_FIELDS :: "";
      numPasajeros := 1;
      pasajeros := [];
      aceptarTerminos := false;
      newsletter := false;
      touched := {};
      searchTerm := "";
      filteredDestinos := Destinations.DESTINOS;
      precioTotal := 0;
    }

    /** The price subscription: recompute the price from the current values. */
    method CalculatePrice()
      modifies this`precioTotal
      ensures precioTotal == Price()
    {
      precioTotal := Price();
    }

    /** `addPasajero`: append a blank passenger record; the form change refreshes the price. */
    method AddPasajero()
      requires WellFormed()
      modifies this`pasajeros, this`precioTotal
      ensures Valid()
      ensures pasajeros == old(pasajeros) + [BLANK]
    {
      pasajeros := pasajeros + [BLANK];
      CalculatePrice();
    }

    /** The first loop of `adjustPassengers`: append blank records until there are `necesito`. */
    method GrowPassengers(necesito: int)
      requires WellFormed()
      modifies this`pasajeros, this`precioTotal
      ensures |old(pasajeros)| < necesito ==>
        pasajeros == old(pasajeros) + Blanks(necesito - |old(pasajeros)|) && precioTotal == Price()
      ensures |old(pasajeros)| >= necesito ==> pasajeros == old(pasajeros) && precioTotal == old(precioTotal)
    {
      while |pasajeros| < necesito
        invariant WellFormed()
        invariant pasajeros == old(pasajeros) + Blanks(|pasajeros| - |old(pasajeros)|)
        invariant |old(pasajeros)| < necesito ==> |pasajeros| <= necesito
        invariant |old(pasajeros)| >= necesito ==> |pasajeros| == |old(pasajeros)|
        invariant |pasajeros| != |old(pasajeros)| ==> precioTotal == Price()
        invariant |pasajeros| == |old(pasajeros)| ==> pasajeros == old(pasajeros) && precioTotal == old(precioTotal)
        decreases necesito - |pasajeros|
      {
        AddPasajero();
      }
    }

    /** The second loop of `adjustPassengers`: drop the last record while there are more than `necesito`. */
    method ShrinkPassengers(necesito: nat)
      modifies this`pasajeros, this`precioTotal
      ensures |old(pasajeros)| > necesito ==> pasajeros == old(pasajeros)[..necesito] && precioTotal == Price()
      ensures |old(pasajeros)| <= necesito ==> pasajeros == old(pasajeros) && precioTotal == old(precioTotal)
    {
      while |pasajeros| > necesito
        invariant necesito <= |old(pasajeros)| ==> necesito <= |pasajeros|
        invariant |old(pasajeros)| <= necesito ==> |pasajeros| == |old(pasajeros)|
        invariant |pasajeros| <= |old(pasajeros)| && pasajeros == old(pasajeros)[..|pasajeros|]
        invariant |pasajeros| != |old(pasajeros)| ==> precioTotal == Price()
        invariant |pasajeros| == |old(pasajeros)| ==> pasajeros == old(pasajeros) && precioTotal == old(precioTotal)
        decreases |pasajeros|
      {
        pasajeros := pasajeros[..|pasajeros| - 1];
        CalculatePrice();
      }
    }

    /**
     * `adjustPassengers`: append blanks while the list is shorter than
     * `numTotal - 1`, then drop the last record while it is longer.
     * A count below 1 would keep the removal loop running for ever.
     */
    method AdjustPassengers(numTotal: int)
      requires WellFormed() && numTotal >= 1
      modifies this`pasajeros, this`precioTotal
      ensures WellFormed()
      ensures pasajeros == Synced(old(pasajeros), numTotal)
      ensures |pasajeros| == numTotal - 1
      ensures pasajeros == old(pasajeros) ==> precioTotal == old(precioTotal)
      ensures pasajeros != old(pasajeros) ==> precioTotal == Price()
    {
      var necesito := numTotal - 1;
      GrowPassengers(necesito);
      ShrinkPassengers(necesito);
      if |old(pasajeros)| == necesito {
        assert old(pasajeros) + Blanks(0) == old(pasajeros);
      }
    }

    /**
     * `numPasajeros.setValue(n)`: store the count, let the sync
     * subscription adjust the list, then the form change refreshes the
     * price. Counts above 10 are stored and synced too; the validators
     * only flag them.
     */
    method SetCount(n: int)
      requires Valid() && n >= 1
      modifies this`numPasajeros, this`pasajeros, this`precioTotal
      ensures Valid() && InSync()
      ensures numPasajeros == n
      ensures pasajeros == Synced(old(pasajeros), n)
    {
      numPasajeros := n;
      AdjustPassengers(n);
      CalculatePrice();
    }

    /**
     * `removePasajero`: remove the record at `index`, then write the new
     * total (the remaining records plus the holder) back to the count.
     * That write fires the sync again, which finds the list in step and
     * leaves it alone.
     */
    method RemovePasajero(index: int)
      requires Valid() && 0 <= index < |pasajeros|
      modifies this`numPasajeros, this`pasajeros, this`precioTotal
      ensures Valid() && InSync()
      ensures pasajeros == old(pasajeros)[..index] + old(pasajeros)[index + 1..]
      ensures numPasajeros == |old(pasajeros)|
    {
      pasajeros := pasajeros[..index] + pasajeros[index + 1..];
      CalculatePrice();
      var nuevoTotal := |pasajeros| + 1;
      ghost var removed := pasajeros;
      SetCount(nuevoTotal);
      SyncedInSync(removed, nuevoTotal);
    }

    /** The user edits the passenger sub-form at `index`; the form change refreshes the price. */
    method SetPasajero(index: int, p: Pasajero)
      requires Valid() && 0 <= index < |pasajeros|
      modifies this`pasajeros, this`precioTotal
      ensures Valid()
      ensures pasajeros == old(pasajeros)[index := p]
    {
      pasajeros := pasajeros[index := p];
      CalculatePrice();
    }

    /** The user edits a text input (the travel class among them); the form change refreshes the price. */
    method SetText(f: Field, s: string)
      requires Valid() && f in TEXT_FIELDS
      modifies this`texts, this`precioTotal
      ensures Valid()
      ensures texts == old(texts)[f := s]
      ensures f == Clase ==> precioTotal == Pricing.TotalPrice(s, Some(numPasajeros))
      ensures f != Clase ==> precioTotal == old(precioTotal)
    {
      texts := texts[f := s];
      CalculatePrice();
    }

    /** The user ticks or clears the terms checkbox. */
    method SetAceptarTerminos(b: bool)
      requires Valid()
      modifies this`aceptarTerminos, this`precioTotal
      ensures Valid() && aceptarTerminos == b && precioTotal == old(precioTotal)
    {
      aceptarTerminos := b;
      CalculatePrice();
    }

    /** The user ticks or clears the newsletter checkbox. */
    method SetNewsletter(b: bool)
      requires Valid()
      modifies this`newsletter, this`precioTotal
      ensures Valid() && newsletter == b && precioTotal == old(precioTotal)
    {
      newsletter := b;
      CalculatePrice();
    }

    /** The user leaves the input of control `f`. */
    method MarkTouched(f: Field)
      requires Valid()
      modifies this`touched
      ensures Valid() && touched == old(touched) + {f}
    {
      touched := touched + {f};
    }

    /** The search subscription: store the term and refilter the catalogue. */
    method SetSearch(term: string)
      requires Valid()
      modifies this`searchTerm, this`filteredDestinos
      ensures Valid() && searchTerm == term
      ensures filteredDestinos == Destinations.FilterDestinos(term)
    {
      searchTerm := term;
      filteredDestinos := Destinations.FilterDestinos(term);
    }

    /** `getErrorMessage(fieldName)` for a top-level control name. */
    method GetErrorMessage(fieldName: string) returns (msg: string)
      requires '.' !in fieldName
      ensures msg == ErrorMessage(Get(Values(), touched, fieldName, isEmail))
      ensures msg == "" <==>
        (FieldNamed(fieldName).None?
         || ControlErrors(Values(), FieldNamed(fieldName).value, isEmail).None?
         || FieldNamed(fieldName).value !in touched)
    {
      msg := ErrorMessage(Get(Values(), touched, fieldName, isEmail));
    }

    /** `isFieldInvalid(fieldName)` for a top-level control name. */
    method IsFieldInvalid(fieldName: string) returns (b: bool)
      requires '.' !in fieldName
      ensures b <==>
        (FieldNamed(fieldName).Some?
         && Invalid(Values(), FieldNamed(fieldName).value, isEmail)
         && FieldNamed(fieldName).value in touched)
    {
      b := IsInvalid(Get(Values(), touched, fieldName, isEmail));
    }

    /**
     * `enviarFormulario`: the booking goes out exactly when the form is
     * valid, which is exactly when every validator's demand is met. The
     * call changes no state either way.
     */
    method EnviarFormulario() returns (sent: bool)
      ensures sent == FormValid(Values(), isEmail)
      ensures sent <==> Submittable(Values(), isEmail)
    {
      sent := FormValid(Values(), isEmail);
      FormValidIff(Values(), isEmail);
    }
  }
}
