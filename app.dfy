/** `FaceAttendanceApp`: the in-memory face catalog, the registration
    guards, the per-face match and cooldown block of the live loop and the
    attendance write. Camera frames, the recognition library, the clock and
    the geolocation service are inputs. */
module FaceAttendance {
  import opened Base
  import opened Text
  import opened Geolocation
  import opened Store
  import opened Cooldown
  import opened Recognition

  /** How a press of "Capture and Register" ends. */
  datatype Registration =
    | BlankName
    | CaptureFailed
    | FaceCount(count: nat)
    | DuplicateName
    | Registered(id: int)

  /** The guard sequence of registration, for a stripped name, the camera
      read (None when it failed, else the encodings of the detected faces),
      the names already stored and the id the store would hand out. */
  function Screen(name: string, frame: Option<seq<Encoding>>, taken: seq<string>, nextId: int): (r: Registration)
    ensures name == [] ==> r == BlankName
    ensures name != [] && frame.None? ==> r == CaptureFailed
    ensures r.Registered? <==> name != [] && frame.Some? && |frame.value| == 1 && name !in taken
    ensures r.Registered? ==> r.id == nextId
    ensures name != [] && frame.Some? && |frame.value| != 1 ==> r == FaceCount(|frame.value|)
    ensures name != [] && frame.Some? && |frame.value| == 1 && name in taken ==> r == DuplicateName
  {
    if name == [] then BlankName
    else if frame.None? then CaptureFailed
    else if |frame.value| != 1 then FaceCount(|frame.value|)
    else if name in taken then DuplicateName
    else Registered(nextId)
  }

  /** The frame's faces, none when the camera read failed. */
  function FacesOf(frame: Option<seq<Face>>): seq<Face> {
    if frame.Some? then frame.value else []
  }

  class FaceAttendanceApp {
    const db: Database
    var knownFaces: seq<Encoding>
    var knownNames: seq<string>
    var knownIds: seq<int>
    var lastMarked: map<int, real>
    /** The text in the name field of the registration tab. */
    var nameEntry: string

    /** The three catalog lists mirror the store's employees row by row,
        and every attendance row names a stored employee. */
    ghost predicate Valid()
      reads this, db
    {
      && db.Valid()
      && knownIds == Ids(db.employees)
      && knownNames == Names(db.employees)
      && knownFaces == Encodings(db.employees)
      && forall r :: r in db.attendance ==> r.employeeId in knownIds
    }

    ghost function LedgerOf(): Ledger
      reads this, db
    {
      Ledger(lastMarked, db.attendance)
    }

    constructor (db: Database)
      requires db.Valid()
      requires forall r :: r in db.attendance ==> r.employeeId in Ids(db.employees)
      ensures Valid() && this.db == db
      ensures lastMarked == map[] && nameEntry == ""
    {
      this.db := db;
      knownFaces, knownNames, knownIds := [], [], [];
      lastMarked := map[];
      nameEntry := "";
      new;
      LoadFaces();
    }

    /** `load_faces`: discard the catalog and rebuild it from the store,
        one entry per employee row, in row order. */
    method LoadFaces()
      requires db.Valid()
      requires forall r :: r in db.attendance ==> r.employeeId in Ids(db.employees)
      modifies this
      ensures Valid()
      ensures knownIds == Ids(db.employees)
      ensures knownNames == Names(db.employees)
      ensures knownFaces == Encodings(db.employees)
      ensures lastMarked == old(lastMarked) && nameEntry == old(nameEntry)
    {
      knownFaces, knownNames, knownIds := [], [], [];
      var rows := db.employees;
      var i := 0;
      while i < |rows|
        invariant 0 <= i <= |rows|
        invariant |knownIds| == |knownNames| == |knownFaces| == i
        invariant forall k :: 0 <= k < i ==> knownIds[k] == rows[k].id
        invariant forall k :: 0 <= k < i ==> knownNames[k] == rows[k].name
        invariant forall k :: 0 <= k < i ==> knownFaces[k] == rows[k].encoding
        invariant lastMarked == old(lastMarked) && nameEntry == old(nameEntry)
      {
        knownFaces := knownFaces + [rows[i].encoding];
        knownNames := knownNames + [rows[i].name];
        knownIds := knownIds + [rows[i].id];
        i := i + 1;
      }
    }

    /** `add_new_employee`, with `frame` the camera read: None when it
        failed, else the encodings of the faces detected in it. */
    method AddNewEmployee(frame: Option<seq<Encoding>>) returns (outcome: Registration)
      requires Valid()
      modifies this, db
      ensures Valid()
      ensures outcome == Screen(Strip(old(nameEntry)), frame, Names(old(db.employees)), old(db.nextId))
      ensures lastMarked == old(lastMarked) && db.attendance == old(db.attendance)
      ensures outcome.Registered? ==>
                && db.employees == old(db.employees) + [Employee(outcome.id, Strip(old(nameEntry)), frame.value[0])]
                && db.nextId == old(db.nextId) + 1
                && knownIds[|knownIds| - 1] == outcome.id
                && knownNames[|knownNames| - 1] == Strip(old(nameEntry))
                && nameEntry == ""
      ensures !outcome.Registered? ==>
                && db.employees == old(db.employees) && db.nextId == old(db.nextId)
                && knownIds == old(knownIds) && knownNames == old(knownNames) && knownFaces == old(knownFaces)
                && nameEntry == old(nameEntry)
    {
      var name := Strip(nameEntry);
      if name == [] {
        return BlankName;
      }
      if frame.None? {
        return CaptureFailed;
      }
      var faces := frame.value;
      if |faces| != 1 {
        return FaceCount(|faces|);
      }
      ghost var before := db.employees;
      var newId := db.AddEmployee(name, faces[0]);
      if newId.None? {
        return DuplicateName;
      }
      assert Ids(db.employees) == Ids(before) + [newId.value];
      assert forall r :: r in db.attendance ==> r.employeeId in Ids(db.employees) by {
        forall r | r in db.attendance
          ensures r.employeeId in Ids(db.employees)
        {
          assert r.employeeId in Ids(before);
        }
      }
      LoadFaces();
      nameEntry := "";
      outcome := Registered(newId.value);
    }

    /** `mark_attendance`: look the position up, then insert the row;
        an INSERT that fails (`stored` false) is swallowed. */
    method MarkAttendance(employeeId: int, timestamp: real, lookups: seq<Lookup>, stored: bool)
      requires Valid() && employeeId in knownIds
      modifies db
      ensures Valid()
      ensures db.employees == old(db.employees) && db.nextId == old(db.nextId)
      ensures db.attendance == if stored
                               then old(db.attendance) + [AttendanceRow(employeeId, timestamp, Locate(lookups).lat, Locate(lookups).lng)]
                               else old(db.attendance)
    {
      var fix, attempts, pauses := GetCurrentLocation(lookups);
      if stored {
        db.InsertAttendance(AttendanceRow(employeeId, timestamp, fix.lat, fix.lng));
      }
    }

    /** The body of the per-face loop of `update_video`: pick the first
        matching catalog entry and, when its cooldown has run out, mark
        attendance and remember the clock. */
    method ProcessFace(face: Face) returns (drawn: string)
      requires Valid() && |face.matches| == |knownIds|
      modifies this, db
      ensures Valid()
      ensures knownIds == old(knownIds) && knownNames == old(knownNames) && knownFaces == old(knownFaces)
      ensures nameEntry == old(nameEntry)
      ensures db.employees == old(db.employees) && db.nextId == old(db.nextId)
      ensures drawn == Label(knownNames, face.matches)
      ensures LedgerOf() == ObserveFace(old(LedgerOf()), knownIds, face)
    {
      drawn := Unknown;
      var first := FirstTrue(face.matches);
      if first.Some? {
        var k := first.value;
        drawn := knownNames[k];
        var employeeId := knownIds[k];
        var now := face.clock;
        var lastTime := if employeeId in lastMarked then lastMarked[employeeId] else 0.0;
        if now - lastTime > CooldownSeconds {
          MarkAttendance(employeeId, now, face.lookups, face.stored);
          lastMarked := lastMarked[employeeId := now];
        }
      }
    }

    /** One tick of `update_video`: `frame` is None when the camera read
        failed, else the faces detected in it. Returns the names drawn. */
    method UpdateVideo(frame: Option<seq<Face>>) returns (drawn: seq<string>)
      requires Valid()
      requires FitCatalog(FacesOf(frame), |knownIds|)
      modifies this, db
      ensures Valid()
      ensures knownIds == old(knownIds) && knownNames == old(knownNames) && knownFaces == old(knownFaces)
      ensures nameEntry == old(nameEntry)
      ensures db.employees == old(db.employees) && db.nextId == old(db.nextId)
      ensures drawn == Labels(knownNames, FacesOf(frame))
      ensures LedgerOf() == Replay(old(LedgerOf()), Sightings(knownIds, FacesOf(frame)))
    {
      drawn := [];
      var faces := FacesOf(frame);
      ghost var start := LedgerOf();
      var i := 0;
      while i < |faces|
        invariant 0 <= i <= |faces|
        invariant Valid()
        invariant knownIds == old(knownIds) && knownNames == old(knownNames) && knownFaces == old(knownFaces)
        invariant nameEntry == old(nameEntry)
        invariant db.employees == old(db.employees) && db.nextId == old(db.nextId)
        invariant drawn == Labels(knownNames, faces[..i])
        invariant LedgerOf() == Replay(start, Sightings(knownIds, faces[..i]))
      {
        var face := faces[i];
        var name := ProcessFace(face);
        PrefixStep(faces, i);
        LabelsAppend(knownNames, faces[..i], face);
        ReplayFaceStep(start, knownIds, faces[..i], face);
        drawn := drawn + [name];
        i := i + 1;
      }
      assert faces[..i] == faces;
    }
  }
}
