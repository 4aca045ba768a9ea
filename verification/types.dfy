/** The records of the application: departments, employees, the partial
    payload of an update and the fields of the forms, plus the two static
    catalogs (departments and positions). */
module Types {
  import opened Wrappers
  import opened Numbers

  datatype Department = Department(id: int, name: string)

  /** The department catalog, in its fixed order. */
  const Departments: seq<Department> :=
    [Department(1, "TI"), Department(2, "RH"), Department(3, "Marketing")]

  /** The position labels offered by the forms, in their fixed order. */
  const Positions: seq<string> :=
    ["Desenvolvedor", "Analista", "Gerente", "Estagiário", "Outro", "Designer", "Coordenador"]

  /** An employee record. `department` is a snapshot of a catalog entry taken
      when the record was written; it is not kept in step with `departmentId`.
      `position` is free text at run time (TypeScript's cast to the position
      type is not checked). */
  datatype Employee = Employee(
    id: int,
    name: string,
    cpf: string,
    email: string,
    phone: Option<string>,
    address: Option<string>,
    position: string,
    department: Option<Department>,
    departmentId: Option<Number>,
    salary: Number,
    admissionDate: string,
    isActive: bool)

  /** The input of a create: an employee without `id`. A `department` in the
      caller's object is always replaced by the store, so it is not carried. */
  datatype Draft = Draft(
    name: string,
    cpf: string,
    email: string,
    phone: Option<string>,
    address: Option<string>,
    position: string,
    departmentId: Option<Number>,
    salary: Number,
    admissionDate: string,
    isActive: bool)

  /** The input of an update: a partial employee without `id`. `departmentId`
      has three states: absent (`Keep`), `null` (`Set(None)`) or a number. */
  datatype Payload = Payload(
    name: Patch<string>,
    cpf: Patch<string>,
    email: Patch<string>,
    phone: Patch<string>,
    address: Patch<string>,
    position: Patch<string>,
    departmentId: Patch<Option<Number>>,
    salary: Patch<Number>,
    admissionDate: Patch<string>,
    isActive: Patch<bool>)

  /** The payload `{}`. */
  const EmptyPayload := Payload(Keep, Keep, Keep, Keep, Keep, Keep, Keep, Keep, Keep, Keep)

  /** The keys of the employee forms; a set of them is the set of fields in error. */
  datatype Field =
    | Name | Cpf | Email | Phone | Address | PositionField | DepartmentId | Salary | AdmissionDate | IsActive

  /** The first entry of `ds` whose id equals `n` (`ds.find(d => d.id === n)`). */
  function FindIn(ds: seq<Department>, n: Number): (r: Option<Department>)
    ensures r.Some? ==> r.value in ds && n.EqualsInt(r.value.id)
    ensures r.None? <==> forall i :: 0 <= i < |ds| ==> !n.EqualsInt(ds[i].id)
    ensures r.Some? && ds != [] && n.EqualsInt(ds[0].id) ==> r.value == ds[0]
  {
    if ds == [] then None
    else if n.EqualsInt(ds[0].id) then Some(ds[0])
    else
      assert forall i :: 1 <= i < |ds| ==> ds[i] == ds[1..][i - 1];
      FindIn(ds[1..], n)
  }

  /** The catalog entry a department id refers to. */
  function FindDepartment(n: Number): (r: Option<Department>)
    ensures r.Some? ==> r.value in Departments && n.EqualsInt(r.value.id)
    ensures r.None? <==> forall d :: d in Departments ==> !n.EqualsInt(d.id)
  {
    FindIn(Departments, n)
  }

  /** The catalog has distinct ids, so a department is found by its own id. */
  lemma FindDepartmentById(d: Department)
    requires d in Departments
    ensures FindDepartment(FromInt(d.id)) == Some(d)
  {
  }
}
