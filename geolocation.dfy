/** The best-effort location lookup made before each attendance write:
    up to three calls to an IP-based geolocation service, one second apart. */
module Geolocation {
  import opened Base

  const MaxAttempts: nat := 3

  /** What one call to the service produced: a position, an answer whose
      `ok` flag is false, or a raised exception (logged and swallowed). */
  datatype Lookup = Located(lat: real, lng: real) | NotOk | Raised

  /** The (latitude, longitude) pair handed to the attendance insert;
      both are null when no attempt succeeded. */
  datatype Fix = Fix(lat: Option<real>, lng: Option<real>)

  /** The service's answer to attempt `k` of a scripted run; a script
      shorter than the attempts made fails the remaining ones. */
  function Answer(lookups: seq<Lookup>, k: nat): Lookup {
    if k < |lookups| then lookups[k] else Raised
  }

  /** Which of the attempts that can be made succeed. */
  function Successes(lookups: seq<Lookup>): (flags: seq<bool>)
    ensures |flags| == MaxAttempts
    ensures forall k :: 0 <= k < MaxAttempts ==> (flags[k] <==> Answer(lookups, k).Located?)
  {
    seq(MaxAttempts, k requires 0 <= k < MaxAttempts => Answer(lookups, k).Located?)
  }

  /** The position the lookup settles on: that of the first successful
      attempt, else two nulls. */
  function Locate(lookups: seq<Lookup>): (fix: Fix)
    ensures fix.lat.Some? <==> fix.lng.Some?
    ensures fix.lat.None? <==> forall k :: 0 <= k < MaxAttempts ==> !Answer(lookups, k).Located?
    ensures forall k :: 0 <= k < MaxAttempts && Answer(lookups, k).Located?
                        && (forall j :: 0 <= j < k ==> !Answer(lookups, j).Located?)
                        ==> fix == Fix(Some(Answer(lookups, k).lat), Some(Answer(lookups, k).lng))
  {
    match FirstTrue(Successes(lookups))
    case Some(k) => Fix(Some(Answer(lookups, k).lat), Some(Answer(lookups, k).lng))
    case None => Fix(None, None)
  }

  /** The retry loop: returns the position it found, how many calls it
      made and how many one-second pauses it took. */
  method GetCurrentLocation(lookups: seq<Lookup>) returns (fix: Fix, attempts: nat, pauses: nat)
    ensures fix == Locate(lookups)
    ensures 1 <= attempts <= MaxAttempts
    ensures fix.lat.Some? ==> Answer(lookups, attempts - 1).Located? && pauses == attempts - 1
    ensures forall j :: 0 <= j < attempts - 1 ==> !Answer(lookups, j).Located?
    ensures fix.lat.None? ==> attempts == MaxAttempts && pauses == MaxAttempts
  {
    var i := 0;
    pauses := 0;
    while i < MaxAttempts
      invariant 0 <= i <= MaxAttempts
      invariant pauses == i
      invariant forall j :: 0 <= j < i ==> !Answer(lookups, j).Located?
    {
      var answer := Answer(lookups, i);
      if answer.Located? {
        return Fix(Some(answer.lat), Some(answer.lng)), i + 1, pauses;
      }
      pauses := pauses + 1;
      i := i + 1;
    }
    return Fix(None, None), MaxAttempts, pauses;
  }
}
