/** What the live loop makes of each detected face: the name drawn on it
    and, when the face matched a catalog entry, the sighting handed to the
    cooldown check. The match flags come from the recognition library, one
    per catalog entry. */
module Recognition {
  import opened Base
  import opened Geolocation
  import opened Cooldown

  const Unknown: string := "Unknown"

  /** One detected face: the library's match flags against the catalog,
      the clock when the face is processed, the geolocation answers and
      whether the attendance INSERT would go through. */
  datatype Face = Face(matches: seq<bool>, clock: real, lookups: seq<Lookup>, stored: bool)

  /** Each face carries one match flag per catalog entry, as the
      library's comparison returns. */
  predicate FitCatalog(faces: seq<Face>, n: nat) {
    forall k :: 0 <= k < |faces| ==> |faces[k].matches| == n
  }

  /** The name drawn on a face: that of the first matching catalog entry,
      else "Unknown". */
  function Label(names: seq<string>, matches: seq<bool>): (drawn: string)
    requires |matches| == |names|
    ensures (forall i :: 0 <= i < |matches| ==> !matches[i]) ==> drawn == Unknown
    ensures forall i :: 0 <= i < |matches| && matches[i] && (forall j :: 0 <= j < i ==> !matches[j])
                        ==> drawn == names[i]
  {
    match FirstTrue(matches)
    case None => Unknown
    case Some(k) => names[k]
  }

  /** The sighting a face produces: the id of the first matching catalog
      entry, or nothing for an unknown face. */
  function SightingOf(ids: seq<int>, face: Face): (s: Option<Sighting>)
    requires |face.matches| == |ids|
    ensures s.None? <==> forall i :: 0 <= i < |ids| ==> !face.matches[i]
    ensures forall i :: 0 <= i < |ids| && face.matches[i] && (forall j :: 0 <= j < i ==> !face.matches[j])
                        ==> s == Some(Sighting(ids[i], face.clock, face.lookups, face.stored))
  {
    match FirstTrue(face.matches)
    case None => None
    case Some(k) => Some(Sighting(ids[k], face.clock, face.lookups, face.stored))
  }

  /** The names drawn on a frame's faces, in detection order. */
  function Labels(names: seq<string>, faces: seq<Face>): (labels: seq<string>)
    requires FitCatalog(faces, |names|)
    ensures |labels| == |faces|
    ensures forall i :: 0 <= i < |faces| ==> labels[i] == Label(names, faces[i].matches)
  {
    seq(|faces|, i requires 0 <= i < |faces| => Label(names, faces[i].matches))
  }

  /** The sightings of a frame's faces, in detection order; unknown faces
      produce none. */
  function Sightings(ids: seq<int>, faces: seq<Face>): (ss: seq<Sighting>)
    requires FitCatalog(faces, |ids|)
    ensures |ss| <= |faces|
    ensures forall s :: s in ss ==> s.employeeId in ids
    decreases |faces|
  {
    if faces == [] then []
    else
      var before := Sightings(ids, faces[..|faces| - 1]);
      match SightingOf(ids, faces[|faces| - 1])
      case None => before
      case Some(s) => before + [s]
  }

  lemma LabelsAppend(names: seq<string>, faces: seq<Face>, f: Face)
    requires FitCatalog(faces, |names|)
    requires |f.matches| == |names|
    ensures Labels(names, faces + [f]) == Labels(names, faces) + [Label(names, f.matches)]
  {
  }

  /** The effect of one face on the ledger: none for an unknown face. */
  function ObserveFace(l: Ledger, ids: seq<int>, face: Face): Ledger
    requires |face.matches| == |ids|
  {
    match SightingOf(ids, face)
    case None => l
    case Some(s) => Observe(l, s)
  }

  /** Replaying a frame's sightings is observing its faces one by one. */
  lemma ReplayFaceStep(l: Ledger, ids: seq<int>, faces: seq<Face>, f: Face)
    requires FitCatalog(faces, |ids|)
    requires |f.matches| == |ids|
    ensures Replay(l, Sightings(ids, faces + [f])) == ObserveFace(Replay(l, Sightings(ids, faces)), ids, f)
  {
    assert (faces + [f])[..|faces|] == faces;
    match SightingOf(ids, f) {
      case None =>
      case Some(s) => ReplayAppend(l, Sightings(ids, faces), s);
    }
  }

  /** A frame in which no face matches any catalog entry leaves the
      cooldown map and the attendance table as they were. */
  lemma {:induction false} UnknownFacesLeaveNoTrace(ids: seq<int>, faces: seq<Face>, l: Ledger)
    requires FitCatalog(faces, |ids|)
    requires forall k, i :: 0 <= k < |faces| && 0 <= i < |ids| ==> !faces[k].matches[i]
    ensures Replay(l, Sightings(ids, faces)) == l
    decreases |faces|
  {
    if faces != [] {
      UnknownFacesLeaveNoTrace(ids, faces[..|faces| - 1], l);
    }
  }
}
