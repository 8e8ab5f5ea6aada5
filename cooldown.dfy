/** The attendance debounce as a function of values: which sightings of a
    recognised employee write an attendance row, and what `last_marked`
    becomes. The application's update loop is proved to follow it. */
module Cooldown {
  import opened Geolocation
  import opened Store

  /** Minimum number of seconds between two rows for one employee. */
  const CooldownSeconds: real := 30.0

  /** `last_marked.get(id, 0)`. */
  function LastTime(lastMarked: map<int, real>, id: int): real {
    if id in lastMarked then lastMarked[id] else 0.0
  }

  /** Whether a sighting of `id` at `now` passes the cooldown check. */
  predicate Due(lastMarked: map<int, real>, id: int, now: real) {
    now - LastTime(lastMarked, id) > CooldownSeconds
  }

  /** A recognised face: who it is, the clock when it was processed, the
      geolocation service's answers and whether the INSERT goes through. */
  datatype Sighting = Sighting(employeeId: int, now: real, lookups: seq<Lookup>, stored: bool)

  /** The cooldown map together with the attendance table. */
  datatype Ledger = Ledger(lastMarked: map<int, real>, rows: seq<AttendanceRow>)

  /** The row `mark_attendance` writes for a sighting. */
  function RowFor(s: Sighting): (row: AttendanceRow)
    ensures row.employeeId == s.employeeId && row.timestamp == s.now
    ensures row.latitude == Locate(s.lookups).lat && row.longitude == Locate(s.lookups).lng
  {
    var fix := Locate(s.lookups);
    AttendanceRow(s.employeeId, s.now, fix.lat, fix.lng)
  }

  /** The effect of one sighting. */
  function Observe(l: Ledger, s: Sighting): (r: Ledger)
    ensures !Due(l.lastMarked, s.employeeId, s.now) ==> r == l
    ensures Due(l.lastMarked, s.employeeId, s.now) ==>
              s.employeeId in r.lastMarked && LastTime(r.lastMarked, s.employeeId) == s.now
    ensures r.rows == if Due(l.lastMarked, s.employeeId, s.now) && s.stored
                      then l.rows + [RowFor(s)] else l.rows
    ensures forall id :: id != s.employeeId ==>
              (id in r.lastMarked <==> id in l.lastMarked) && LastTime(r.lastMarked, id) == LastTime(l.lastMarked, id)
  {
    if Due(l.lastMarked, s.employeeId, s.now) then
      Ledger(l.lastMarked[s.employeeId := s.now],
             if s.stored then l.rows + [RowFor(s)] else l.rows)
    else l
  }

  /** The effect of a run of sightings, in order. */
  function Replay(l: Ledger, ss: seq<Sighting>): (r: Ledger)
    ensures |l.rows| <= |r.rows| && r.rows[..|l.rows|] == l.rows
    decreases |ss|
  {
    if ss == [] then l else Observe(Replay(l, ss[..|ss| - 1]), ss[|ss| - 1])
  }

  /** Number of rows for employee `id`. */
  function RowsFor(rows: seq<AttendanceRow>, id: int): nat
    decreases |rows|
  {
    if rows == [] then 0
    else RowsFor(rows[..|rows| - 1], id) + (if rows[|rows| - 1].employeeId == id then 1 else 0)
  }

  lemma RowsForAppend(rows: seq<AttendanceRow>, row: AttendanceRow, id: int)
    ensures RowsFor(rows + [row], id) == RowsFor(rows, id) + (if row.employeeId == id then 1 else 0)
  {
    assert (rows + [row])[..|rows|] == rows;
  }

  lemma ReplayAppend(l: Ledger, ss: seq<Sighting>, s: Sighting)
    ensures Replay(l, ss + [s]) == Observe(Replay(l, ss), s)
  {
    assert (ss + [s])[..|ss|] == ss;
  }

  /** Replaying two runs one after the other is replaying them joined:
      the ledger the application carries from one tick of the live loop to
      the next is a single replay of all the sightings so far. */
  lemma {:induction false} ReplayConcat(l: Ledger, a: seq<Sighting>, b: seq<Sighting>)
    ensures Replay(l, a + b) == Replay(Replay(l, a), b)
    decreases |b|
  {
    if b == [] {
      assert a + b == a;
    } else {
      var init, last := b[..|b| - 1], b[|b| - 1];
      assert b == init + [last];
      assert a + b == (a + init) + [last];
      ReplayConcat(l, a, init);
      ReplayAppend(l, a + init, last);
      ReplayAppend(Replay(l, a), init, last);
    }
  }

  /** Replaying a run is observing its first sighting, then the rest. */
  lemma {:induction false} ReplayFirst(l: Ledger, s: Sighting, ss: seq<Sighting>)
    ensures Replay(l, [s] + ss) == Replay(Observe(l, s), ss)
    decreases |ss|
  {
    if ss == [] {
      assert Replay(l, [s]) == Observe(Replay(l, []), s) by { ReplayAppend(l, [], s); }
    } else {
      var init, last := ss[..|ss| - 1], ss[|ss| - 1];
      assert ss == init + [last];
      assert [s] + ss == ([s] + init) + [last];
      ReplayFirst(l, s, init);
      ReplayAppend(l, [s] + init, last);
      ReplayAppend(Observe(l, s), init, last);
    }
  }

  /** While the last mark of `id` is no earlier than `lo`, no sighting of
      `id` up to `lo + 30` seconds writes a row or moves its time. */
  lemma {:induction false} QuietWhileRecent(l: Ledger, ss: seq<Sighting>, id: int, lo: real)
    requires LastTime(l.lastMarked, id) >= lo
    requires forall i :: 0 <= i < |ss| && ss[i].employeeId == id ==> ss[i].now <= lo + CooldownSeconds
    ensures RowsFor(Replay(l, ss).rows, id) == RowsFor(l.rows, id)
    ensures LastTime(Replay(l, ss).lastMarked, id) == LastTime(l.lastMarked, id)
    decreases |ss|
  {
    if ss != [] {
      var init, last := ss[..|ss| - 1], ss[|ss| - 1];
      QuietWhileRecent(l, init, id, lo);
      var before := Replay(l, init);
      if Due(before.lastMarked, last.employeeId, last.now) && last.stored {
        RowsForAppend(before.rows, RowFor(last), id);
      }
    }
  }

  /** Among sightings of `id` that all fall in one 30-second window
      `[lo, lo + 30]`, at most one writes a row, whatever came before and
      whatever other employees are seen in between. */
  lemma {:induction false} AtMostOneRowPerWindow(l: Ledger, ss: seq<Sighting>, id: int, lo: real)
    requires forall i :: 0 <= i < |ss| && ss[i].employeeId == id ==> lo <= ss[i].now <= lo + CooldownSeconds
    ensures RowsFor(Replay(l, ss).rows, id) <= RowsFor(l.rows, id) + 1
  {
    WindowInvariant(l, ss, id, lo);
  }

  lemma {:induction false} WindowInvariant(l: Ledger, ss: seq<Sighting>, id: int, lo: real)
    requires forall i :: 0 <= i < |ss| && ss[i].employeeId == id ==> lo <= ss[i].now <= lo + CooldownSeconds
    ensures var r := Replay(l, ss);
      || RowsFor(r.rows, id) == RowsFor(l.rows, id)
      || (RowsFor(r.rows, id) == RowsFor(l.rows, id) + 1 && LastTime(r.lastMarked, id) >= lo)
    decreases |ss|
  {
    if ss != [] {
      var init, last := ss[..|ss| - 1], ss[|ss| - 1];
      WindowInvariant(l, init, id, lo);
      var before := Replay(l, init);
      if Due(before.lastMarked, last.employeeId, last.now) && last.stored {
        RowsForAppend(before.rows, RowFor(last), id);
      }
    }
  }

  /** A sighting that passes the check, followed by more sightings of the
      same employee no later than 30 seconds after it, writes exactly one
      row for that employee (two faces in one frame at the same clock
      included). */
  lemma ExactlyOneRowPerWindow(l: Ledger, ss: seq<Sighting>, id: int)
    requires ss != [] && ss[0].employeeId == id && ss[0].stored
    requires Due(l.lastMarked, id, ss[0].now)
    requires forall i :: 0 < i < |ss| && ss[i].employeeId == id ==> ss[i].now <= ss[0].now + CooldownSeconds
    ensures RowsFor(Replay(l, ss).rows, id) == RowsFor(l.rows, id) + 1
  {
    var first := Observe(l, ss[0]);
    RowsForAppend(l.rows, RowFor(ss[0]), id);
    assert ss == [ss[0]] + ss[1..];
    ReplayFirst(l, ss[0], ss[1..]);
    QuietWhileRecent(first, ss[1..], id, ss[0].now);
  }

  /** A first sighting writes a row, a second within 30 seconds does not,
      and a third more than 30 seconds after the first writes another. */
  lemma SecondRowAfterWindow(l: Ledger, s1: Sighting, s2: Sighting, s3: Sighting)
    requires s1.employeeId == s2.employeeId == s3.employeeId
    requires s1.stored && s3.stored
    requires Due(l.lastMarked, s1.employeeId, s1.now)
    requires s2.now - s1.now <= CooldownSeconds
    requires s3.now - s1.now > CooldownSeconds
    ensures Replay(l, [s1, s2, s3]).rows == l.rows + [RowFor(s1), RowFor(s3)]
  {
    ReplayAppend(l, [], s1);
    ReplayAppend(l, [s1], s2);
    ReplayAppend(l, [s1, s2], s3);
    assert [s1] == [] + [s1];
    assert [s1, s2] == [s1] + [s2];
    assert [s1, s2, s3] == [s1, s2] + [s3];
  }

  /** The same three sightings on three successive ticks of the live loop,
      each tick replayed on the ledger the previous one left: the first and
      the third write a row, the second does not. */
  lemma ThreeTicks(l: Ledger, s1: Sighting, s2: Sighting, s3: Sighting)
    requires s1.employeeId == s2.employeeId == s3.employeeId
    requires s1.stored && s3.stored
    requires Due(l.lastMarked, s1.employeeId, s1.now)
    requires s2.now - s1.now <= CooldownSeconds
    requires s3.now - s1.now > CooldownSeconds
    ensures Replay(Replay(Replay(l, [s1]), [s2]), [s3]).rows == l.rows + [RowFor(s1), RowFor(s3)]
  {
    ReplayConcat(l, [s1], [s2]);
    ReplayConcat(l, [s1] + [s2], [s3]);
    assert [s1] + [s2] + [s3] == [s1, s2, s3];
    SecondRowAfterWindow(l, s1, s2, s3);
  }

  /** Across any number of ticks: sightings of one employee spread over
      successive ticks, all within one 30-second window, write at most one
      row for that employee. */
  lemma {:induction false} AtMostOneRowAcrossTicks(l: Ledger, ticks: seq<seq<Sighting>>, id: int, lo: real)
    requires forall t, i :: 0 <= t < |ticks| && 0 <= i < |ticks[t]| && ticks[t][i].employeeId == id ==>
               lo <= ticks[t][i].now <= lo + CooldownSeconds
    ensures RowsFor(ReplayTicks(l, ticks).rows, id) <= RowsFor(l.rows, id) + 1
  {
    TicksAreOneReplay(l, ticks);
    var all := Flatten(ticks);
    forall i | 0 <= i < |all| && all[i].employeeId == id
      ensures lo <= all[i].now <= lo + CooldownSeconds
    {
      var t, j := FlattenIndex(ticks, i);
    }
    AtMostOneRowPerWindow(l, all, id, lo);
  }

  /** The ledger after a run of ticks, each replaying its own sightings on
      the ledger the previous tick left. */
  function ReplayTicks(l: Ledger, ticks: seq<seq<Sighting>>): Ledger
    decreases |ticks|
  {
    if ticks == [] then l else Replay(ReplayTicks(l, ticks[..|ticks| - 1]), ticks[|ticks| - 1])
  }

  /** All sightings of a run of ticks, in order. */
  function Flatten(ticks: seq<seq<Sighting>>): (all: seq<Sighting>)
    decreases |ticks|
  {
    if ticks == [] then [] else Flatten(ticks[..|ticks| - 1]) + ticks[|ticks| - 1]
  }

  /** Every sighting of the flattened run comes from some tick. */
  lemma {:induction false} FlattenIndex(ticks: seq<seq<Sighting>>, i: int) returns (t: int, j: int)
    requires 0 <= i < |Flatten(ticks)|
    ensures 0 <= t < |ticks| && 0 <= j < |ticks[t]| && Flatten(ticks)[i] == ticks[t][j]
    decreases |ticks|
  {
    var init := ticks[..|ticks| - 1];
    if i < |Flatten(init)| {
      t, j := FlattenIndex(init, i);
    } else {
      t, j := |ticks| - 1, i - |Flatten(init)|;
    }
  }

  /** Successive ticks are one replay of all their sightings. */
  lemma {:induction false} TicksAreOneReplay(l: Ledger, ticks: seq<seq<Sighting>>)
    ensures ReplayTicks(l, ticks) == Replay(l, Flatten(ticks))
    decreases |ticks|
  {
    if ticks != [] {
      var init := ticks[..|ticks| - 1];
      TicksAreOneReplay(l, init);
      ReplayConcat(l, Flatten(init), ticks[|ticks| - 1]);
    }
  }

  /** The cooldown map is not persisted: a process started with an empty
      map writes a row for the first sighting of anyone (the clock being
      past 30 seconds of the epoch), whatever the table already holds. */
  lemma RestartForgetsCooldown(rows: seq<AttendanceRow>, s: Sighting)
    requires s.now > CooldownSeconds && s.stored
    ensures Observe(Ledger(map[], rows), s).rows == rows + [RowFor(s)]
  {
  }
}
