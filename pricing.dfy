/**
 * The live price of a booking: a per-class fare multiplied by the
 * number of travellers.
 */
module Pricing {
  import opened Wrappers

  /** The travel classes the form offers. */
  const CLASES: seq<string> := ["Turista", "Business", "Primera clase"]

  /** Fare per traveller for each class. */
  const PRECIOS: map<string, int> := map["Turista" := 100, "Business" := 250, "Primera clase" := 500]

  /**
   * `values.numPasajeros || 1`: an absent (`null`) or zero count is
   * replaced by 1; any other number, negative ones included, is kept.
   */
  function EffectiveCount(count: Option<int>): (n: int)
    ensures n != 0
    ensures count.Some? && count.value != 0 ==> n == count.value
    ensures (count == None || count == Some(0)) ==> n == 1
  {
    match count
    case None => 1
    case Some(k) => if k == 0 then 1 else k
  }

  /**
   * The price rule: the class must be a non-empty key of the fare table
   * with a truthy (non-zero) fare; the price is then that fare times the
   * effective count, and 0 for anything else (an empty selection included).
   */
  function TotalPrice(clase: string, count: Option<int>): (p: int)
    ensures clase in PRECIOS ==> p == PRECIOS[clase] * EffectiveCount(count)
    ensures clase !in PRECIOS ==> p == 0
  {
    FaresCoverClasses();
    if clase != "" && clase in PRECIOS && PRECIOS[clase] != 0 then
      PRECIOS[clase] * EffectiveCount(count)
    else
      0
  }

  /** The fare table is keyed by exactly the offered classes, each fare positive. */
  lemma FaresCoverClasses()
    ensures PRECIOS.Keys == set c | c in CLASES
    ensures forall c :: c in PRECIOS ==> PRECIOS[c] > 0
  {
  }

  /** A price is non-zero exactly when the class is one of the offered classes. */
  lemma PriceNonZeroIff(clase: string, count: Option<int>)
    ensures TotalPrice(clase, count) != 0 <==> clase in CLASES
  {
    FaresCoverClasses();
  }

  /** For an offered class and a positive count the price grows with the count. */
  lemma PriceMonotone(clase: string, a: int, b: int)
    requires clase in CLASES && 1 <= a <= b
    ensures 0 < TotalPrice(clase, Some(a)) <= TotalPrice(clase, Some(b))
  {
    FaresCoverClasses();
    var f := PRECIOS[clase];
    assert f * a <= f * b;
  }

  /** Worked cases of the price rule. */
  lemma PriceExamples()
    ensures TotalPrice("Business", Some(3)) == 750
    ensures TotalPrice("Turista", None) == 100
    ensures TotalPrice("Primera clase", Some(0)) == 500
    ensures TotalPrice("Economy", Some(3)) == 0
    ensures TotalPrice("", Some(3)) == 0
  {
  }
}
