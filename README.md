# Travel booking form: a verified model of its state logic

The `reserva-viajes` application is a single Angular page where a traveller
fills in a booking: personal data, trip details, a travel class, a
passenger count, a sub-form for each additional passenger and a terms
checkbox. The page shows a filtered destination list and a live price.
This project models the logic of the `Booking` component in Dafny and
proves what it does:

- **Destination search**: a case-insensitive substring filter over the fixed
  six-city catalogue. An empty term shows the whole catalogue. The result
  always keeps catalogue order.
- **Passenger-list sync**: the component keeps one passenger sub-form for
  each traveller besides the holder. It appends blank records at the tail
  and removes records from the tail until the list is one shorter than the
  count.
- **Passenger removal**: the record at an index is removed. The new total is
  then written back to the count, and that write runs the sync again.
- **Price**: the class fare (Turista 100, Business 250, Primera clase 500)
  times the count. A `null` or zero count counts as 1. The price is 0 while
  no offered class is selected.
- **Errors and submission**: which message a control shows, whether it is
  flagged invalid, and whether the form may be submitted.

The Angular reactive subscriptions are replaced by explicit calls on one
class, `Booking.BookingState`:
- `SetCount` stores the count, runs `AdjustPassengers`, then recomputes the
  price.
- Every other change of a form value (`SetText`, `SetPasajero`, the
  checkboxes, `AddPasajero`, each step of the sync) recomputes the price,
  because the price subscription listens to the whole form.
- `SetSearch` refilters the destinations.

Modules, one per concern:

| file | module | contents |
|---|---|---|
| wrappers.dfy | `Wrappers` | `Option`, standing for JavaScript's `null` or an empty input |
| text.dfy | `Text` | ASCII lower-casing, `includes`, decimal rendering of integers |
| destinations.dfy | `Destinations` | the catalogue and the search filter |
| pricing.dfy | `Pricing` | the fare table and the price rule |
| passengers.dfy | `Passengers` | the passenger record, the `Synced` specification of the sync |
| validation.dfy | `Validation` | controls, validators, error records, messages, form validity |
| booking.dfy | `Booking` | the component state as a class |

The passenger list is a `seq` field of the class. `AdjustPassengers` runs
the source's two `while` loops (`GrowPassengers` appends blanks,
`ShrinkPassengers` removes the last record). It is proved to leave exactly
`Passengers.Synced(old list, count)`. The contract of `Passengers.Synced`
states what that list is: its length is `count - 1`, it keeps the records
below that length, and any new records are blank.

## Model

| member | source | states |
|---|---|---|
| Text.Lower | reserva-viajes/src/app/booking/booking.ts:68 | lower-casing keeps the length, leaves no upper-case ASCII letter, turns each upper-case letter into its lower-case partner and keeps every other character |
| Text.Includes | reserva-viajes/src/app/booking/booking.ts:68 | the empty term is found in every string, and a term longer than the string is never found |
| Text.IncludesIff | reserva-viajes/src/app/booking/booking.ts:68 | the left-to-right scan modelling `includes` is true exactly when the term occurs at some position of the string |
| Text.IntToString | reserva-viajes/src/app/booking/booking.ts:145-147 | for the magnitudes JavaScript prints without an exponent (below 10^21), the interpolated number is printed as a minus sign exactly for a negative number, followed by decimal digits whose value is the magnitude |
| Text.NatToString | reserva-viajes/src/app/booking/booking.ts:145-147 | decimal digits, at least one, no leading zero, and read back as a decimal numeral they give the number |
| Destinations.Matches | reserva-viajes/src/app/booking/booking.ts:68 | a destination matches exactly when the lower-cased term occurs at some position of the lower-cased name; the empty term matches every destination |
| Destinations.Filter | reserva-viajes/src/app/booking/booking.ts:67-69 | the filtered list is a subsequence of the input (so never longer), and an entry is in it exactly when it is an input entry that matches case-insensitively |
| Destinations.FilterCounts | reserva-viajes/src/app/booking/booking.ts:67-69 | a matching entry is kept as often as it occurs in the input, and an entry that does not match is dropped |
| Destinations.FilterNoRepeats | reserva-viajes/src/app/booking/booking.ts:67-69 | filtering a list without repeated entries gives a list without repeated entries |
| Destinations.FilterEmptyTerm | reserva-viajes/src/app/booking/booking.ts:67-69 | filtering by the empty term keeps every entry in order |
| Destinations.FilterDestinosIsFilter | reserva-viajes/src/app/booking/booking.ts:63-71 | the empty-term short cut of `filterDestinos` gives the same list as the general filter |
| Destinations.FilterDestinos | reserva-viajes/src/app/booking/booking.ts:63-71 | an empty term yields the full catalogue; any term yields at most the 6 catalogue entries, and an entry is shown exactly when it is a catalogue entry whose lower-cased name contains the lower-cased term |
| Destinations.FilterDestinosSpec | reserva-viajes/src/app/booking/booking.ts:63-71 | the shown entries keep catalogue order, and each matching entry appears as often as the catalogue lists it |
| Destinations.FilterDestinosNoRepeats | reserva-viajes/src/app/booking/booking.ts:14-19 | the catalogue lists each city once, so no search shows a city twice |
| Destinations.FilterDestinosCaseInsensitive | reserva-viajes/src/app/booking/booking.ts:68 | a term and its lower-cased form give the same list |
| Pricing.EffectiveCount | reserva-viajes/src/app/booking/booking.ts:121 | the count defaults to 1: null and 0 become 1, every other number is kept, and the result is never 0 |
| Pricing.TotalPrice | reserva-viajes/src/app/booking/booking.ts:120-127 | the price is the fare of the class times the effective count for a class in the fare table, and 0 otherwise (an empty selection included) |
| Pricing.FaresCoverClasses | reserva-viajes/src/app/booking/booking.ts:15-26 | the fare table has exactly the offered classes as keys, each with a positive fare |
| Pricing.PriceNonZeroIff | reserva-viajes/src/app/booking/booking.ts:123-127 | the price is non-zero exactly when the class is one of the three offered classes |
| Pricing.PriceMonotone | reserva-viajes/src/app/booking/booking.ts:124 | for an offered class the price is positive and grows with the count |
| Pricing.PriceExamples | reserva-viajes/src/app/booking/booking.ts:22-26 | Business × 3 = 750, a null count prices one traveller, a 0 count prices one traveller, an unknown or empty class costs 0 |
| Passengers.Blanks | reserva-viajes/src/app/booking/booking.ts:101-107 | `k` records, each with every input empty |
| Passengers.Target | reserva-viajes/src/app/booking/booking.ts:87 | the number of additional records is `count - 1` for a count of at least 1, and 0 for a smaller count |
| Passengers.Synced | reserva-viajes/src/app/booking/booking.ts:86-98 | the synced list has `count - 1` records (none for a count of at most 1), keeps every old record below that length, and the appended records are blank |
| Passengers.SyncedInSync | reserva-viajes/src/app/booking/booking.ts:80-82 | a list already one shorter than the count is left unchanged by the sync |
| Passengers.SyncedIdempotent | reserva-viajes/src/app/booking/booking.ts:86-98 | syncing twice with one count is the same as syncing once |
| Passengers.RemoveLast | reserva-viajes/src/app/booking/booking.ts:96 | one removal drops the last record and keeps the others in place; an empty list stays empty |
| Passengers.RemovalTurns | reserva-viajes/src/app/booking/booking.ts:95-97 | after `k` turns of the removal loop the list is the first `max(length - k, 0)` records of the original |
| Passengers.RemovalLoopNeverExits | reserva-viajes/src/app/booking/booking.ts:95-97 | for a count of 0 or less, the removal loop's guard still holds after any number of turns, and the list is empty and fixed once every record is gone |
| Validation.FieldNamed | reserva-viajes/src/app/booking/booking.ts:139 | a name that is found refers to the control registered under that name |
| Validation.FieldNamedIff | reserva-viajes/src/app/booking/booking.ts:32-48 | looking a name up finds a control exactly when that control is registered under the name |
| Validation.TextErrors | reserva-viajes/src/app/booking/booking.ts:33-42 | a text control has no errors exactly when it is non-empty, the full name has at least 3 characters and the email passes the email check; an empty value fails only `required`; a length error is reported only for the full name, with bound 3 |
| Validation.NumberErrors | reserva-viajes/src/app/booking/booking.ts:43 | a number has no errors exactly when it is present and within the bounds; an empty input fails only `required` and a present one never does; a value below the minimum or above the maximum is reported with that bound, and a bound is reported only when the value is beyond it |
| Validation.ControlErrors | reserva-viajes/src/app/booking/booking.ts:32-48 | a reported error record is never empty; a text control is error-free exactly when it meets its rules, the count exactly when it is between 1 and 10, the terms exactly when ticked; the passenger array and the newsletter have no validators |
| Validation.Invalid | reserva-viajes/src/app/booking/booking.ts:32-48 | a control other than the passenger array is invalid exactly when it has errors; the array is invalid exactly when some passenger lacks a name, a relation, or an age between 0 and 120 |
| Validation.FormValid | reserva-viajes/src/app/booking/booking.ts:132 | a valid form has its terms accepted and a count between 1 and 10 (`FormValidIff` gives the full condition) |
| Validation.PasajeroValid | reserva-viajes/src/app/booking/booking.ts:102-106 | a passenger sub-form is valid exactly when name and relation are non-empty and the age is present and between 0 and 120 |
| Validation.FormValidIff | reserva-viajes/src/app/booking/booking.ts:32-48 | the form is valid exactly when every text input is filled in, the name has at least 3 characters, the email passes the check, the count is in 1..10, the terms are accepted and every passenger is complete |
| Validation.SubmitBlocked | reserva-viajes/src/app/booking/booking.ts:46 | unaccepted terms, or one passenger with an empty name or relation, a missing age or an age outside 0..120, make the form invalid whatever else it holds |
| Validation.Get | reserva-viajes/src/app/booking/booking.ts:139 | a top-level name finds a control exactly when one is registered under it, and the control found carries that control's errors, validity and touched mark |
| Validation.SelectMessage | reserva-viajes/src/app/booking/booking.ts:140-149 | no message exactly when the control is missing, error-free or untouched; the required message exactly when a shown message is due and `required` failed; a length, minimum or maximum message quotes the bound of that error |
| Validation.Render | reserva-viajes/src/app/booking/booking.ts:143-149 | only the absence of a message renders as the empty string |
| Validation.ErrorMessage | reserva-viajes/src/app/booking/booking.ts:138-150 | the message is empty exactly when the control is missing, has no errors, or is untouched |
| Validation.IsInvalid | reserva-viajes/src/app/booking/booking.ts:154 | true exactly when the control exists, is invalid and was touched; a flagged control with errors of its own also shows a message |
| Validation.SelectFirstPresent | reserva-viajes/src/app/booking/booking.ts:142-149 | for a touched control with errors, the message is that of the first error present in the order required, email, minlength, min, max, and the generic message when none of them is present |
| Validation.MessageShownIffInvalid | reserva-viajes/src/app/booking/booking.ts:138-155 | for a name without `.`, every control except the passenger array shows a message exactly when it is flagged invalid; the passenger array, which has no validators of its own, never shows one |
| Validation.EmailFormatMessage | reserva-viajes/src/app/booking/booking.ts:144 | a touched, non-empty email that fails the check shows the email-format message, not the required one |
| Validation.MinLengthMessageText | reserva-viajes/src/app/booking/booking.ts:145 | a touched full name of 1 or 2 characters shows "Mínimo 3 caracteres" |
| Validation.MinMessageText | reserva-viajes/src/app/booking/booking.ts:146 | a touched count below 1 shows "El valor mínimo es 1" |
| Validation.MaxMessageText | reserva-viajes/src/app/booking/booking.ts:147 | a touched count above 10 shows "El valor máximo es 10" |
| Booking.BookingState.constructor | reserva-viajes/src/app/booking/booking.ts:14-53 | a fresh form has empty inputs, a count of 1, no passengers, unticked checkboxes, the full catalogue listed and price 0, with passengers in step with the count |
| Booking.BookingState.CalculatePrice | reserva-viajes/src/app/booking/booking.ts:118-128 | the stored price becomes the price of the current class and count |
| Booking.BookingState.AddPasajero | reserva-viajes/src/app/booking/booking.ts:101-108 | one blank record is appended; the price is current; only the list and the price may change |
| Booking.BookingState.GrowPassengers | reserva-viajes/src/app/booking/booking.ts:89-92 | a list shorter than the target gets blank records appended up to the target, with the price refreshed; a list that is long enough is left as it is, price included |
| Booking.BookingState.ShrinkPassengers | reserva-viajes/src/app/booking/booking.ts:94-97 | a list longer than the target is cut to its first `target` records, with the price refreshed; any other list is left as it is, price included |
| Booking.BookingState.AdjustPassengers | reserva-viajes/src/app/booking/booking.ts:86-98 | for a count of at least 1 the list becomes `Synced(old list, count)`, of length `count - 1`; the price is refreshed whenever the list changed |
| Booking.BookingState.SetCount | reserva-viajes/src/app/booking/booking.ts:79-83 | the count is stored, the list is synced to it and in step with it, and the price is current; values above 10 are stored and synced too |
| Booking.BookingState.RemovePasajero | reserva-viajes/src/app/booking/booking.ts:111-115 | the list loses exactly the record at the index: earlier records stay put, later ones shift down by one. The count becomes the old length, and the re-fired sync changes nothing |
| Booking.BookingState.SetPasajero | reserva-viajes/src/app/booking/booking.ts:101-107 | editing one passenger sub-form replaces that record only |
| Booking.BookingState.SetText | reserva-viajes/src/app/booking/booking.ts:118-128 | a text input is stored; a change of class reprices with the new class, other inputs leave the price as it was |
| Booking.BookingState.SetAceptarTerminos | reserva-viajes/src/app/booking/booking.ts:46 | the terms flag is stored; the price does not change |
| Booking.BookingState.SetNewsletter | reserva-viajes/src/app/booking/booking.ts:47 | the newsletter flag is stored; the price does not change |
| Booking.BookingState.MarkTouched | reserva-viajes/src/app/booking/booking.ts:140 | the control is added to the touched set |
| Booking.BookingState.SetSearch | reserva-viajes/src/app/booking/booking.ts:56-71 | the term is stored and the shown list becomes the filter result for it, so repeating the same term gives the same list |
| Booking.BookingState.GetErrorMessage | reserva-viajes/src/app/booking/booking.ts:138-150 | for a name without `.`, the message is empty exactly when no control has that name, it has no errors, or it is untouched |
| Booking.BookingState.IsFieldInvalid | reserva-viajes/src/app/booking/booking.ts:152-155 | for a name without `.`, true exactly when a control has that name, is invalid and was touched |
| Booking.BookingState.EnviarFormulario | reserva-viajes/src/app/booking/booking.ts:131-136 | the booking goes out exactly when the form is valid, which is exactly when every validator's demand is met; the call changes no state |

## Left out

- Angular wiring: the component metadata, `FormBuilder`, `FormGroup` and `FormArray` internals, and the `valueChanges` subscriptions (booking.ts:1-10, 50-60, 79-83, 119). They are replaced by explicit method calls in the order the subscriptions run.
- `console.log` and `alert` in `enviarFormulario` are output only. `EnviarFormulario` returns whether they would run.
- The email pattern of Angular's `Validators.email` is Angular's code. The model takes it as the function `isEmail`, fixed when the state is built.
- The other validators (`required`, `requiredTrue`, `minLength`, `min`, `max`) are library code too. They are modelled by their documented rules: an empty value fails only `required`, and the bounds are those given at booking.ts:33-46. The `actualLength` and `actual` parts of an error are not modelled, because no message reads them.
- Booking.BookingState.AdjustPassengers: requires a count of at least 1. For a smaller count the source's removal loop never exits (see Findings); `Passengers.RemovalLoopNeverExits` proves that this precondition is exactly what termination needs.
- Booking.BookingState.SetCount: requires a count of at least 1 for the same reason. An emptied count input (`null`) therefore cannot reach the state. `Pricing.EffectiveCount` still models the price rule's handling of `null` and 0.
- Booking.BookingState.RemovePasajero: requires `0 <= index < length`. What Angular's `removeAt` does with a negative or out-of-range index is library code.
- Booking.BookingState.SetCount: the count is an integer, while a JavaScript number can be fractional. A count of 2.5 passes `min(1)` and `max(10)`; from an empty list the source's loops then add two records and remove one, leaving 1, and with Business the price is 250 × 2.5 = 625. The model cannot state either.
- Pricing.TotalPrice: for the same reason it does not model a fractional count or the fractional price it gives.
- Validation.NumberErrors: numbers are integers, so an age like 30.5, which the source accepts as valid, cannot be expressed.
- Validation.TextErrors: lengths are counted in Unicode code points (Dafny characters), while `minLength` counts UTF-16 code units. `"A😀"` is 3 units long and passes `minLength(3)` in the source, but the model counts 2 characters and reports the length error. The two counts agree on text without characters outside the Basic Multilingual Plane.
- Text.IntToString: from 10^21 on JavaScript prints a number in exponent form (`1e+21`); the model always prints plain digits. The only numbers the messages quote are the bounds 3, 1 and 10.
- `toLowerCase` is modelled on ASCII letters only. Unicode case folding is not modelled; the catalogue entries are ASCII.
- The search control's initial value is `''` and the model takes its value as a string. The `|| ''` applied to a `null` term (booking.ts:58) is not modelled, because nothing in the component resets the control.
- Date inputs are required strings only. The code never compares the departure and return dates.
- A class name that is an inherited property of JavaScript objects (`'toString'`, `'constructor'`) would give a non-numeric price. The model's fare table has only its three keys, and the class select offers only those.
- Booking.BookingState.GetErrorMessage: requires a name without `.`. Angular's `get` walks a dotted path into the passenger array (`'pasajeros.0.nombre'`), which the model does not; the `touched` state of passenger sub-forms is not modelled either.
- Booking.BookingState.IsFieldInvalid: requires a name without `.`, for the same reason.
- Validation.MessageShownIffInvalid: requires a name without `.`. A sub-group path such as `'pasajeros.0'` names a control with no errors of its own that can still be invalid, which the model does not reach.
- reserva-viajes/src/app/app.ts is the application shell with only a title. The templates and style sheets are not part of this model.

## Findings

| source | as written | input that shows it | evidently intended | confidence | as-written member | corrected member |
|---|---|---|---|---|---|---|
| reserva-viajes/src/app/booking/booking.ts:87-97 | `necesito = numTotal - 1` followed by `while (length > necesito) removeAt(length - 1)` | clearing the count input (`null`, which becomes -1) or typing 0: a length of 0 is still greater than -1 on every turn, so the page hangs | a count below 1 leaves no additional passengers: the target is `max(count - 1, 0)` | medium, not executed (whether the count input allows these values depends on the template, which is not part of this model) | Passengers.RemovalLoopNeverExits | Passengers.Synced |

For a count of 0 or less the guard `length > count - 1` holds for every
length, because a length is never negative. So the loop cannot exit whatever
`removeAt` does; this is the first clause of `RemovalLoopNeverExits`. Its
second clause, that the list becomes empty and then stays empty, takes
`removeAt(-1)` on an empty array to remove nothing. That call is library
code; `RemoveLast` models it that way.

The corrected sync `Passengers.Synced` uses the target `max(count - 1, 0)`.
Its contract states its length, prefix and blank-tail properties for every
count. `AdjustPassengers` is proved against it. On the counts
where the source terminates, the corrected sync and the source behave the
same.
