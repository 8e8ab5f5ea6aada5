# Face attendance: catalog, registration guards and attendance debounce

A Dafny model of the bookkeeping inside `FaceAttendanceApp`
(`facedetection4.py`), a desktop program that registers employees' face
encodings and marks their attendance from a webcam, with an IP-based
position, in a sqlite file.

What is modelled:

- **The store** (`Store`): the `employees` and `attendance` tables as a
  `Database` object whose `employees` rows have positive, increasing
  AUTOINCREMENT ids and UNIQUE names. `AddEmployee` is `add_employee`: a
  duplicate name yields `None` and no change, any other name gets the next id.
- **The face catalog** (`FaceAttendance.FaceAttendanceApp`): the three
  parallel lists `knownFaces`, `knownNames`, `knownIds`. `LoadFaces`
  discards them and rebuilds them from the store; the class invariant `Valid`
  says that entry `i` of each list comes from store row `i` and that every
  attendance row names a stored employee; `LoadFaces`, `AddNewEmployee`,
  `MarkAttendance`, `ProcessFace` and `UpdateVideo` all end in it.
- **Registration** (`AddNewEmployee`, specified by `Screen`): a name that is
  blank after Python's `str.strip()` (`Text.Strip`), a failed camera read, a
  frame without exactly one face and a duplicate name are refused and change
  nothing; otherwise the employee is stored, the catalog reloaded and the name
  field cleared.
- **The live loop** (`UpdateVideo`, `ProcessFace`): each detected face takes
  the first catalog entry whose match flag is true (`Base.FirstTrue`) or is
  drawn as "Unknown". A recognised employee is marked when more than 30
  seconds passed since `last_marked.get(id, 0)`. The whole tick is proved
  equal to `Cooldown.Replay`, a function over the cooldown map and the
  attendance table, about which the window properties are proved. Successive
  ticks compose into one replay of all their sightings (`ReplayConcat`,
  `TicksAreOneReplay`), so the window properties hold across ticks.
- **The location lookup** (`Geolocation`): at most three attempts. The first
  success wins; otherwise both coordinates are null and the row is still
  written.

The camera, the recognition library, the clock and the geolocation service
are inputs. A camera read is `Option` (None when it fails) of the detected
faces. A face in the live loop is a `Recognition.Face`: its match flags, one
per catalog entry; the clock reading when it is processed; the service's
answers to the successive lookup attempts; and whether the attendance INSERT
goes through. The clock is a `real` number of seconds, as `time.time()` is a
float.

## Model

| member | source | states |
|---|---|---|
| `Base.FirstTrue` | facedetection4.py:196-197 | None exactly when no flag is true; otherwise the index of a true flag with no true flag before it |
| `Text.Strip` | facedetection4.py:155-156 | the stripped name is empty exactly when the entry holds only whitespace, and otherwise starts and ends with a non-whitespace character |
| `Text.StripIsInnerSlice` | facedetection4.py:155 | the stripped name is the slice of the entry between a leading and a trailing run of whitespace |
| `Text.StripUnpadded` | facedetection4.py:155 | a name with no whitespace at either end is stored as typed |
| `Geolocation.Locate` | facedetection4.py:226-235 | the coordinates are those of the first successful attempt among the first three, and both are null exactly when all three fail |
| `Geolocation.GetCurrentLocation` | facedetection4.py:226-235 | the retry loop returns `Locate`'s answer after 1 to 3 calls: it stops at the first success, and every attempt before the last failed; it pauses once per failed attempt, three times when all fail |
| `Store.Database.constructor` | facedetection4.py:22-44 | a new database has no employees, no attendance rows, and hands out id 1 first |
| `Store.Database.AddEmployee` | facedetection4.py:45-59 | a name already stored yields None and changes nothing; any other name is appended with the next id, which is returned, and the schema constraints still hold |
| `Store.Database.InsertAttendance` | facedetection4.py:243-248 | exactly one row is appended to the attendance table and the employee table is untouched |
| `Cooldown.RowFor` | facedetection4.py:238-247 | the row written for a sighting names its employee and clock and carries the looked-up coordinates, null when the lookup failed |
| `Cooldown.Observe` | facedetection4.py:201-205 | a sighting not past the cooldown changes nothing; one past it sets that employee's last time to now and appends its row when the INSERT succeeds; other employees' entries are untouched |
| `Cooldown.Replay` | facedetection4.py:188-205 | the attendance table is append-only: earlier rows stay in place |
| `Cooldown.QuietWhileRecent` | facedetection4.py:201-205 | while an employee's last mark is at or after `lo`, sightings of them up to `lo + 30` write no row and leave their last time alone |
| `Cooldown.AtMostOneRowPerWindow` | facedetection4.py:201-205 | sightings of one employee that all fall within one 30-second window write at most one row for them, whatever else is seen in between |
| `Cooldown.ExactlyOneRowPerWindow` | facedetection4.py:188-205 | a sighting past the cooldown, followed by sightings of the same employee within 30 seconds of it (same frame included), writes exactly one row for them |
| `Cooldown.SecondRowAfterWindow` | facedetection4.py:201-205 | first sighting writes a row, a second within 30 s writes none, a third more than 30 s after the first writes a second row |
| `Cooldown.ReplayConcat` | facedetection4.py:201-205 | replaying one run of sightings and then another on the resulting ledger is the same as replaying the two runs joined |
| `Cooldown.TicksAreOneReplay` | facedetection4.py:179-224 | the ledger after any number of ticks, each replaying its frame's sightings on the ledger the previous tick left, is one replay of all sightings in order |
| `Cooldown.ThreeTicks` | facedetection4.py:201-205 | one employee seen on three successive ticks: the first writes a row, the second within 30 s writes none, the third more than 30 s after the first writes a second row |
| `Cooldown.AtMostOneRowAcrossTicks` | facedetection4.py:179-224 | sightings of one employee spread over any number of ticks, all within one 30-second window, write at most one row for them |
| `Cooldown.RestartForgetsCooldown` | facedetection4.py:91 | the cooldown map starts empty, so after a restart the first sighting of anyone writes a row whatever the table already holds |
| `Recognition.Label` | facedetection4.py:193-198 | the drawn name is that of the first matching catalog entry, or "Unknown" when nothing matches |
| `Recognition.SightingOf` | facedetection4.py:193-202 | an unknown face yields no sighting; a known face yields a sighting of the first matching entry's id at the face's clock |
| `Recognition.Labels` | facedetection4.py:188-212 | one drawn name per detected face, in detection order |
| `Recognition.Sightings` | facedetection4.py:188-199 | at most one sighting per face, each of an id in the catalog |
| `Recognition.UnknownFacesLeaveNoTrace` | facedetection4.py:194-196 | a frame in which no face matches leaves the cooldown map and the attendance table unchanged |
| `FaceAttendance.Screen` | facedetection4.py:154-177 | a blank name is refused first; with a non-blank name a failed camera read is refused next; registration goes ahead exactly when the name is non-blank, the camera read succeeded, it shows exactly one face and the name is new; the new id is the store's next id |
| `FaceAttendance.FaceAttendanceApp.constructor` | facedetection4.py:88-93 | the application starts with an empty cooldown map and a catalog mirroring the store |
| `FaceAttendance.FaceAttendanceApp.LoadFaces` | facedetection4.py:139-152 | the three lists are replaced by the store's id, name and encoding columns, row by row, whatever they held before, which establishes the catalog invariant |
| `FaceAttendance.FaceAttendanceApp.AddNewEmployee` | facedetection4.py:154-177 | outcome is `Screen` of the stripped entry; a refusal changes neither store, catalog nor name field; success appends the employee with the new id, reloads the catalog so it ends with that id and name, and clears the name field |
| `FaceAttendance.FaceAttendanceApp.MarkAttendance` | facedetection4.py:237-252 | looks the position up and appends the row with those coordinates, null if the lookup failed; a failed INSERT leaves the table as it was; for an id in the catalog the catalog invariant is kept |
| `FaceAttendance.FaceAttendanceApp.ProcessFace` | facedetection4.py:193-205 | draws `Label` and changes the cooldown map and attendance table exactly as `Observe` of the face's sighting; the catalog and store employees are untouched |
| `FaceAttendance.FaceAttendanceApp.UpdateVideo` | facedetection4.py:179-224 | a failed camera read changes nothing; otherwise the drawn names are `Labels` of the faces and the cooldown map and attendance table end as `Replay` of the frame's sightings; the catalog invariant holds after the tick |

## Left out

- The tkinter interface: styles, tabs, message boxes, the preview loop, the
  status and last-attendance labels, `root.after` scheduling and `on_close`.
  One call of `UpdateVideo` is one tick.
- Image handling: colour conversion, the quarter-size detection frame, the
  ×4 box rescale and all drawing; only the drawn name is kept.
- The recognition library: detection, embedding and `compare_faces` appear
  only through their outputs. `UpdateVideo` requires one match flag per
  catalog entry, as `compare_faces` returns.
- The camera failing to open at start-up, which ends the program.
- The timing of the registration camera read: the read is a parameter taken
  before the guards, so the model does not capture that a blank name returns
  before the camera is touched, nor the effect of that read on the device the
  live loop shares; only its outcome, ignored for a blank name, is modelled.
- sqlite itself: connections, the schema text and the float64 blob encoding.
  An encoding is stored and loaded as the same value.
- Insert failures other than the UNIQUE violation in `add_employee`, and read
  failures in `load_faces`, which propagate as exceptions.
- Foreign keys and ON DELETE CASCADE: the program never deletes employees.
  `PRAGMA foreign_keys = ON` is issued only on the connection that creates
  the tables, so later connections do not enforce the key. The model instead
  keeps as an invariant that every attendance row names a stored employee,
  since marked ids always come from the catalog.
- The attendance table's own surrogate key, which nothing reads.
- Row order: the store is read back in insertion order, sqlite's usual order
  for these tables. The model fixes that order; sqlite does not promise it.
- The clock: `time.time()` in the cooldown check and `datetime.now()` for the
  row's timestamp are the same reading. The one-second `time.sleep` is
  counted, not timed.
- The exception text printed by the location lookup and the attendance
  insert, and the top-level exception handler with its `input()` pause.
