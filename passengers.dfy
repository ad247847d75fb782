/**
 * The additional passengers of a booking (the holder is not among them)
 * and the rule that keeps their number in step with the declared
 * passenger count.
 */
module Passengers {
  import opened Wrappers

  /** One additional traveller; `edad` is `None` while the age input is empty. */
  datatype Pasajero = Pasajero(nombre: string, edad: Option<int>, relacion: string)

  /** The record `addPasajero` creates: every input empty. */
  const BLANK: Pasajero := Pasajero("", None, "")

  function Blanks(k: nat): (r: seq<Pasajero>)
    ensures |r| == k && forall i :: 0 <= i < k ==> r[i] == BLANK
  {
    seq(k, _ => BLANK)
  }

  /** How many additional records a total of `numTotal` travellers calls for: the holder is one of them. */
  function Target(numTotal: int): (t: nat)
    ensures numTotal >= 1 ==> t == numTotal - 1
    ensures numTotal <= 1 ==> t == 0
  {
    if numTotal - 1 < 0 then 0 else numTotal - 1
  }

  /**
   * The list after synchronising `ps` with a count of `numTotal`: blanks
   * appended at the tail while it is too short, records dropped from the
   * tail while it is too long. It has exactly `max(numTotal - 1, 0)`
   * records, keeps every record below the new length where it was, and
   * the records past the old length are blank.
   */
  function Synced(ps: seq<Pasajero>, numTotal: int): (r: seq<Pasajero>)
    ensures numTotal >= 1 ==> |r| == numTotal - 1
    ensures numTotal <= 1 ==> r == []
    ensures forall i :: 0 <= i < |ps| && i < |r| ==> r[i] == ps[i]
    ensures forall i :: |ps| <= i < |r| ==> r[i] == BLANK
  {
    var t := Target(numTotal);
    if |ps| <= t then ps + Blanks(t - |ps|) else ps[..t]
  }

  /** A list already in step with the count is left as it is. */
  lemma SyncedInSync(ps: seq<Pasajero>, numTotal: int)
    requires |ps| == numTotal - 1
    ensures Synced(ps, numTotal) == ps
  {
    assert ps + Blanks(0) == ps;
  }

  /** Synchronising twice with the same count is the same as once. */
  lemma SyncedIdempotent(ps: seq<Pasajero>, numTotal: int)
    ensures Synced(Synced(ps, numTotal), numTotal) == Synced(ps, numTotal)
  {
    var s := Synced(ps, numTotal);
    assert |s| == Target(numTotal);
    assert s + Blanks(0) == s;
  }

  /**
   * One turn of the removal loop: `removeAt(length - 1)`, which drops the
   * last record and keeps the others; an empty list has nothing to remove.
   */
  function RemoveLast(ps: seq<Pasajero>): (r: seq<Pasajero>)
    ensures ps == [] ==> r == []
    ensures ps != [] ==> |r| == |ps| - 1
    ensures forall i :: 0 <= i < |r| ==> r[i] == ps[i]
  {
    if ps == [] then ps else ps[..|ps| - 1]
  }

  /**
   * The list after `k` turns of the removal loop: the first
   * `max(|ps| - k, 0)` records of `ps`.
   */
  function RemovalTurns(ps: seq<Pasajero>, k: nat): (r: seq<Pasajero>)
    ensures |r| == if k <= |ps| then |ps| - k else 0
    ensures forall i :: 0 <= i < |r| ==> r[i] == ps[i]
    decreases k
  {
    if k == 0 then ps else RemovalTurns(RemoveLast(ps), k - 1)
  }

  /**
   * The removal loop as written, `while (length > numTotal - 1)`, never
   * exits for a count of 0 or less (an empty or zero count input): after
   * any number of turns its guard still holds, and from `|ps|` turns on
   * the list is empty and no longer changes.
   */
  lemma RemovalLoopNeverExits(ps: seq<Pasajero>, numTotal: int, k: nat)
    requires numTotal <= 0
    ensures |RemovalTurns(ps, k)| > numTotal - 1
    ensures k >= |ps| ==> RemovalTurns(ps, k) == [] && RemoveLast(RemovalTurns(ps, k)) == []
  {
  }
}
