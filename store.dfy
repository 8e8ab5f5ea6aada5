/** The two sqlite tables, `employees` and `attendance`, as an object whose
    rows the application inserts. Rows are kept in iteration order, which
    for these tables is insertion order. */
module Store {
  import opened Base

  /** A row of `employees`; the encoding blob is decoded back to the
      vector it was made from. */
  datatype Employee = Employee(id: int, name: string, encoding: Encoding)

  /** A row of `attendance`; latitude and longitude are nullable. */
  datatype AttendanceRow = AttendanceRow(employeeId: int, timestamp: real,
                                         latitude: Option<real>, longitude: Option<real>)

  /** The `id` column of `rows`, in order. */
  function Ids(rows: seq<Employee>): (ids: seq<int>)
    ensures |ids| == |rows| && forall i :: 0 <= i < |rows| ==> ids[i] == rows[i].id
  {
    seq(|rows|, i requires 0 <= i < |rows| => rows[i].id)
  }

  /** The `name` column of `rows`, in order. */
  function Names(rows: seq<Employee>): (names: seq<string>)
    ensures |names| == |rows| && forall i :: 0 <= i < |rows| ==> names[i] == rows[i].name
  {
    seq(|rows|, i requires 0 <= i < |rows| => rows[i].name)
  }

  /** The decoded `encoding` column of `rows`, in order. */
  function Encodings(rows: seq<Employee>): (encodings: seq<Encoding>)
    ensures |encodings| == |rows| && forall i :: 0 <= i < |rows| ==> encodings[i] == rows[i].encoding
  {
    seq(|rows|, i requires 0 <= i < |rows| => rows[i].encoding)
  }

  class Database {
    var employees: seq<Employee>
    var attendance: seq<AttendanceRow>
    /** The id AUTOINCREMENT hands out next: one more than any id ever used. */
    var nextId: int

    /** The schema's constraints: ids are positive, below `nextId` and
        increasing in iteration order; names are UNIQUE. */
    ghost predicate Valid()
      reads this
    {
      && nextId >= 1
      && (forall i :: 0 <= i < |employees| ==> 1 <= employees[i].id < nextId)
      && (forall i, j :: 0 <= i < j < |employees| ==> employees[i].id < employees[j].id)
      && (forall i, j :: 0 <= i < j < |employees| ==> employees[i].name != employees[j].name)
    }

    /** A freshly created database file. */
    constructor ()
      ensures Valid()
      ensures employees == [] && attendance == [] && nextId == 1
    {
      employees, attendance, nextId := [], [], 1;
    }

    /** `add_employee`: insert a new employee and return its id, or None
        when the UNIQUE constraint on `name` refuses the insert. */
    method AddEmployee(name: string, encoding: Encoding) returns (id: Option<int>)
      requires Valid()
      modifies this
      ensures Valid()
      ensures attendance == old(attendance)
      ensures name in Names(old(employees)) ==> id == None && employees == old(employees) && nextId == old(nextId)
      ensures name !in Names(old(employees)) ==>
                && id == Some(old(nextId))
                && employees == old(employees) + [Employee(old(nextId), name, encoding)]
                && nextId == old(nextId) + 1
    {
      if name in Names(employees) {
        return None;
      }
      id := Some(nextId);
      employees := employees + [Employee(nextId, name, encoding)];
      nextId := nextId + 1;
    }

    /** The INSERT into `attendance` when it goes through. */
    method InsertAttendance(row: AttendanceRow)
      modifies this
      ensures employees == old(employees) && nextId == old(nextId)
      ensures attendance == old(attendance) + [row]
    {
      attendance := attendance + [row];
    }
  }
}
