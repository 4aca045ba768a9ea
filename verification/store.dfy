/** The in-memory employee store of `src/lib/mock/employees.ts`. The mutable
    module-level array becomes a value: every mutation takes the list and
    returns the new list together with the operation's result. */
module Store {
  import opened Wrappers
  import opened Numbers
  import opened Types

  /** The two records the store starts with. */
  const Seed: seq<Employee> := [
    Employee(1, "João Silva", "123.456.789-00", "joao@example.com",
      Some("(11) 99999-9999"), Some("Rua A, 123"), "Desenvolvedor",
      Some(Department(1, "TI")), Some(FromInt(1)), FromInt(5500), "2022-01-15", false),
    Employee(2, "Maria Oliveira", "987.654.321-00", "maria@example.com",
      Some("(11) 98888-8888"), Some("Rua B, 456"), "Analista",
      Some(Department(2, "RH")), Some(FromInt(2)), FromInt(4700), "2021-10-20", true)
  ]

  /** No two records share an id. */
  predicate UniqueIds(s: seq<Employee>) {
    forall i, j :: 0 <= i < j < |s| ==> s[i].id != s[j].id
  }

  /** Some record has the id. */
  predicate HasId(s: seq<Employee>, id: int) {
    exists j :: 0 <= j < |s| && s[j].id == id
  }

  /** `i` is the index of the first record with the id. */
  predicate IsFirstWithId(s: seq<Employee>, id: int, i: int) {
    0 <= i < |s| && s[i].id == id && forall j :: 0 <= j < i ==> s[j].id != id
  }

  /** `findIndex(e => e.id === id)` from position `from` on, `None` for -1. */
  function FindIndexFrom(s: seq<Employee>, id: int, from: nat): (r: Option<nat>)
    requires from <= |s|
    requires forall j :: 0 <= j < from ==> s[j].id != id
    ensures r.Some? ==> IsFirstWithId(s, id, r.value)
    ensures r.None? <==> !HasId(s, id)
    decreases |s| - from
  {
    if from == |s| then None
    else if s[from].id == id then Some(from)
    else FindIndexFrom(s, id, from + 1)
  }

  function FindIndex(s: seq<Employee>, id: int): (r: Option<nat>)
    ensures r.Some? ==> IsFirstWithId(s, id, r.value)
    ensures r.None? <==> !HasId(s, id)
  {
    FindIndexFrom(s, id, 0)
  }

  /** `getEmployeeById`: the first record with the id, or null. */
  function GetEmployeeById(s: seq<Employee>, id: int): (r: Option<Employee>)
    ensures r.None? <==> !HasId(s, id)
    ensures r.Some? ==> exists i :: IsFirstWithId(s, id, i) && s[i] == r.value
  {
    match FindIndex(s, id)
    case Some(i) => Some(s[i])
    case None => None
  }

  /** A record as returned by `getAllMockEmployees`, with its three extra fields. */
  datatype EmployeeView = EmployeeView(employee: Employee, departmentName: Option<string>, hiredDate: string, active: bool)

  /** `getAllMockEmployees`: every record, in order, with the extra view fields. */
  function GetAllMockEmployees(s: seq<Employee>): (r: seq<EmployeeView>)
    ensures |r| == |s|
    ensures forall i :: 0 <= i < |s| ==>
      && r[i].employee == s[i]
      && r[i].hiredDate == s[i].admissionDate
      && r[i].active == s[i].isActive
      && (r[i].departmentName.Some? <==> s[i].department.Some?)
      && (s[i].department.Some? ==> r[i].departmentName.value == s[i].department.value.name)
  {
    seq(|s|, i requires 0 <= i < |s| =>
      var e := s[i];
      EmployeeView(e, if e.department.Some? then Some(e.department.value.name) else None,
        e.admissionDate, e.isActive))
  }

  /** The payload's department id is a truthy number that names a catalog entry. */
  predicate Resolves(p: Patch<Option<Number>>) {
    p.Set? && p.value.Some? && p.value.value.Truthy() && FindDepartment(p.value.value).Some?
  }

  /** The department after an update: re-resolved from a truthy payload id
      when the catalog knows it, the previous snapshot otherwise. */
  function DepartmentAfterUpdate(prev: Option<Department>, p: Patch<Option<Number>>): (r: Option<Department>)
    ensures Resolves(p) ==> r == FindDepartment(p.value.value)
    ensures !Resolves(p) ==> r == prev
  {
    var dept := if p.Set? && p.value.Some? && p.value.value.Truthy() then FindDepartment(p.value.value) else prev;
    if dept.Some? then dept else prev
  }

  /** Every field the payload carries is overwritten; every other field is kept. */
  predicate FollowsPayload(e: Employee, p: Payload, r: Employee) {
    && r.id == e.id
    && r.name == (if p.name.Set? then p.name.value else e.name)
    && r.cpf == (if p.cpf.Set? then p.cpf.value else e.cpf)
    && r.email == (if p.email.Set? then p.email.value else e.email)
    && r.phone == (if p.phone.Set? then Some(p.phone.value) else e.phone)
    && r.address == (if p.address.Set? then Some(p.address.value) else e.address)
    && r.position == (if p.position.Set? then p.position.value else e.position)
    && r.departmentId == (if p.departmentId.Set? then p.departmentId.value else e.departmentId)
    && r.salary == (if p.salary.Set? then p.salary.value else e.salary)
    && r.admissionDate == (if p.admissionDate.Set? then p.admissionDate.value else e.admissionDate)
    && r.isActive == (if p.isActive.Set? then p.isActive.value else e.isActive)
  }

  /** `{ ...e, ...p, department }` as computed by `updateMockEmployee`. */
  function Merge(e: Employee, p: Payload): (r: Employee)
    ensures FollowsPayload(e, p, r)
    ensures Resolves(p.departmentId) ==> r.department == FindDepartment(p.departmentId.value.value)
    ensures !Resolves(p.departmentId) ==> r.department == e.department
  {
    e.(name := p.name.Over(e.name),
       cpf := p.cpf.Over(e.cpf),
       email := p.email.Over(e.email),
       phone := if p.phone.Set? then Some(p.phone.value) else e.phone,
       address := if p.address.Set? then Some(p.address.value) else e.address,
       position := p.position.Over(e.position),
       departmentId := p.departmentId.Over(e.departmentId),
       salary := p.salary.Over(e.salary),
       admissionDate := p.admissionDate.Over(e.admissionDate),
       isActive := p.isActive.Over(e.isActive),
       department := DepartmentAfterUpdate(e.department, p.departmentId))
  }

  /** `updateMockEmployee`: merges the payload into the first record with the
      id and reports whether there was one. */
  function UpdateMockEmployee(s: seq<Employee>, id: int, p: Payload): (r: (bool, seq<Employee>))
    ensures r.0 <==> HasId(s, id)
    ensures !r.0 ==> r.1 == s
    ensures r.0 ==> |r.1| == |s|
    ensures r.0 ==> exists i ::
                      && IsFirstWithId(s, id, i)
                      && r.1[i] == Merge(s[i], p)
                      && forall j :: 0 <= j < |s| && j != i ==> r.1[j] == s[j]
  {
    match FindIndex(s, id)
    case None => (false, s)
    case Some(i) => (true, s[i := Merge(s[i], p)])
  }

  /** The largest id of a non-empty list (`Math.max(...ids)`). */
  function MaxId(s: seq<Employee>): (r: int)
    requires |s| > 0
    ensures forall j :: 0 <= j < |s| ==> s[j].id <= r
    ensures exists j :: 0 <= j < |s| && s[j].id == r
  {
    if |s| == 1 then s[0].id
    else
      var m := MaxId(s[1..]);
      assert forall j :: 1 <= j < |s| ==> s[j] == s[1..][j - 1];
      if s[0].id >= m then s[0].id else m
  }

  /** The id a create assigns: one more than the largest live id, or 1. */
  function NextId(s: seq<Employee>): (r: int)
    ensures forall j :: 0 <= j < |s| ==> s[j].id < r
    ensures |s| == 0 ==> r == 1
    ensures |s| > 0 ==> exists j :: 0 <= j < |s| && s[j].id + 1 == r
  {
    if |s| > 0 then MaxId(s) + 1 else 1
  }

  /** `createMockEmployee`: appends the draft under a fresh id, with its
      department looked up in the catalog; returns the list and the record. */
  function CreateMockEmployee(s: seq<Employee>, d: Draft): (r: (seq<Employee>, Employee))
    ensures r.0 == s + [r.1]
    ensures forall j :: 0 <= j < |s| ==> s[j].id < r.1.id
    ensures |s| == 0 ==> r.1.id == 1
    ensures |s| > 0 ==> exists j :: 0 <= j < |s| && s[j].id + 1 == r.1.id
    ensures d.departmentId.Some? ==> r.1.department == FindDepartment(d.departmentId.value)
    ensures d.departmentId.None? ==> r.1.department.None?
    ensures && r.1.name == d.name && r.1.cpf == d.cpf && r.1.email == d.email
            && r.1.phone == d.phone && r.1.address == d.address && r.1.position == d.position
            && r.1.departmentId == d.departmentId && r.1.salary == d.salary
            && r.1.admissionDate == d.admissionDate && r.1.isActive == d.isActive
  {
    var dept := if d.departmentId.Some? then FindDepartment(d.departmentId.value) else None;
    var e := Employee(NextId(s), d.name, d.cpf, d.email, d.phone, d.address, d.position,
      dept, d.departmentId, d.salary, d.admissionDate, d.isActive);
    (s + [e], e)
  }

  /** `deleteMockEmployee`: removes the first record with the id and reports
      whether there was one; the other records keep their order and ids. */
  function DeleteMockEmployee(s: seq<Employee>, id: int): (r: (bool, seq<Employee>))
    ensures r.0 <==> HasId(s, id)
    ensures !r.0 ==> r.1 == s
    ensures r.0 ==> exists i :: IsFirstWithId(s, id, i) && r.1 == s[..i] + s[i + 1..]
    ensures |r.1| == if r.0 then |s| - 1 else |s|
  {
    match FindIndex(s, id)
    case None => (false, s)
    case Some(i) => (true, s[..i] + s[i + 1..])
  }

  // ---------------------------------------------------------------------------
  // Properties relating the operations

  /** Creating keeps ids unique: the new id exceeds every live id. */
  lemma CreateKeepsIdsUnique(s: seq<Employee>, d: Draft)
    requires UniqueIds(s)
    ensures UniqueIds(CreateMockEmployee(s, d).0)
  {
  }

  /** Updating keeps ids unique: ids are never overwritten. */
  lemma UpdateKeepsIdsUnique(s: seq<Employee>, id: int, p: Payload)
    requires UniqueIds(s)
    ensures UniqueIds(UpdateMockEmployee(s, id, p).1)
  {
  }

  /** Deleting keeps ids unique, and with unique ids no record of the id is left. */
  lemma DeleteRemovesTheId(s: seq<Employee>, id: int)
    requires UniqueIds(s)
    ensures UniqueIds(DeleteMockEmployee(s, id).1)
    ensures !HasId(DeleteMockEmployee(s, id).1, id)
    ensures GetEmployeeById(DeleteMockEmployee(s, id).1, id).None?
  {
    var (ok, t) := DeleteMockEmployee(s, id);
    if ok {
      var i :| IsFirstWithId(s, id, i) && t == s[..i] + s[i + 1..];
      assert forall j :: 0 <= j < |t| ==> t[j] == if j < i then s[j] else s[j + 1];
    }
  }

  /** Deleting the record just created gives back the list before the create. */
  lemma DeleteUndoesCreate(s: seq<Employee>, d: Draft)
    ensures DeleteMockEmployee(CreateMockEmployee(s, d).0, CreateMockEmployee(s, d).1.id) == (true, s)
  {
    var (t, e) := CreateMockEmployee(s, d);
    assert IsFirstWithId(t, e.id, |s|);
    assert t[..|s|] + t[|s| + 1..] == s;
  }

  /** There is only one first record with a given id. */
  lemma FirstIsUnique(s: seq<Employee>, id: int, i: int, k: int)
    requires IsFirstWithId(s, id, i) && IsFirstWithId(s, id, k)
    ensures i == k
  {
  }

  /** An update then a lookup of the same id returns the merged record. */
  lemma UpdateThenGet(s: seq<Employee>, id: int, p: Payload)
    requires HasId(s, id)
    ensures GetEmployeeById(UpdateMockEmployee(s, id, p).1, id)
      == Some(Merge(GetEmployeeById(s, id).value, p))
  {
    var i := FindIndex(s, id).value;
    var t := UpdateMockEmployee(s, id, p).1;
    assert t == s[i := Merge(s[i], p)];
    assert IsFirstWithId(t, id, i);
    FirstIsUnique(t, id, i, FindIndex(t, id).value);
  }

  /** The payload `{}` changes nothing, the department snapshot included. */
  lemma EmptyUpdateChangesNothing(s: seq<Employee>, id: int)
    ensures UpdateMockEmployee(s, id, EmptyPayload).1 == s
  {
    if HasId(s, id) {
      var t := UpdateMockEmployee(s, id, EmptyPayload).1;
      var i :| IsFirstWithId(s, id, i) && t[i] == Merge(s[i], EmptyPayload)
        && forall j :: 0 <= j < |s| && j != i ==> t[j] == s[j];
      assert t[i] == s[i];
    }
  }

  /** A `departmentId` that is 0, `null`, absent or unknown to the catalog
      keeps the old snapshot while the id field takes the payload's value, so
      the two can disagree after an update. */
  lemma UnresolvedDepartmentKeepsSnapshot(e: Employee, p: Payload)
    requires p.departmentId == Set(Some(FromInt(0))) || p.departmentId == Set(None)
      || p.departmentId.Keep?
      || (p.departmentId.Set? && p.departmentId.value.Some? && FindDepartment(p.departmentId.value.value).None?)
    ensures Merge(e, p).department == e.department
    ensures p.departmentId.Set? ==> Merge(e, p).departmentId == p.departmentId.value
  {
  }

  /** Ids are taken from the live records, so deleting the newest record and
      creating another hands out the deleted id again. */
  lemma CreateAfterDeleteReusesId(d: Draft)
    ensures DeleteMockEmployee(Seed, 2).0
    ensures CreateMockEmployee(DeleteMockEmployee(Seed, 2).1, d).1.id == 2
  {
    assert Seed[0].id == 1 && Seed[1].id == 2;
    assert IsFirstWithId(Seed, 2, 1);
    assert DeleteMockEmployee(Seed, 2).1 == [Seed[0]];
  }
}
