/** `src/components/employee/EmployeeCreateForm.tsx`: a form of raw strings
    (the department being `''` or a number), its validation and the record
    handed to the store when validation passes. */
module CreateForm {
  import opened Wrappers
  import opened Numbers
  import opened Types
  import opened Validation
  import Store

  /** The department slot: `''` before any change, a number afterwards. */
  datatype DeptValue = Blank | Picked(n: Number) {
    /** JavaScript truthiness: `''`, `0` and `NaN` are falsy. */
    predicate Truthy() { Picked? && n.Truthy() }
  }

  datatype Form = Form(
    name: string,
    cpf: string,
    email: string,
    phone: string,
    address: string,
    position: string,
    departmentId: DeptValue,
    salary: string,
    admissionDate: string)

  const Initial := Form("", "", "", "", "", "", Blank, "", "")

  /** The text held by a field; the department slot and `isActive` hold none. */
  function FieldText(f: Form, k: Field): string {
    match k
    case Name => f.name
    case Cpf => f.cpf
    case Email => f.email
    case Phone => f.phone
    case Address => f.address
    case PositionField => f.position
    case Salary => f.salary
    case AdmissionDate => f.admissionDate
    case _ => ""
  }

  /** `handleChange`: the department control stores `Number(value)` (so its
      blank option stores `0`); every other control stores its raw string.
      The form has no `isActive` control. */
  function HandleChange(f: Form, k: Field, value: string): (r: Form)
    requires k != IsActive
    ensures k == DepartmentId ==> r.departmentId == Picked(NumberOf(value))
    ensures k != DepartmentId ==> FieldText(r, k) == value && r.departmentId == f.departmentId
    ensures forall j :: j != k ==> FieldText(r, j) == FieldText(f, j)
  {
    match k
    case Name => f.(name := value)
    case Cpf => f.(cpf := value)
    case Email => f.(email := value)
    case Phone => f.(phone := value)
    case Address => f.(address := value)
    case PositionField => f.(position := value)
    case DepartmentId => f.(departmentId := Picked(NumberOf(value)))
    case Salary => f.(salary := value)
    case AdmissionDate => f.(admissionDate := value)
  }

  /** `!form.salary || isNaN(Number(form.salary))`. */
  predicate SalaryUnreadable(s: string) { s == "" || NumberOf(s).NaN? }

  /** `validateForm`: required text fields are checked as written (no
      trimming); the department must be truthy; the salary must read as a
      number, of any sign. Phone and address are never checked. */
  function Validate(f: Form): (r: Errors)
    ensures Name in r <==> f.name == ""
    ensures Cpf in r <==> f.cpf == ""
    ensures Email in r <==> f.email == ""
    ensures PositionField in r <==> f.position == ""
    ensures DepartmentId in r <==> !f.departmentId.Truthy()
    ensures Salary in r <==> SalaryUnreadable(f.salary)
    ensures Salary in r ==> r[Salary] == SalaryInvalid
    ensures AdmissionDate in r <==> f.admissionDate == ""
    ensures Phone !in r && Address !in r && IsActive !in r
  {
    Collect(Checks(f.name == "", f.cpf == "", f.email == "", f.position == "", !f.departmentId.Truthy(),
                   if SalaryUnreadable(f.salary) then Some(SalaryInvalid) else None,
                   f.admissionDate == ""))
  }

  /** The object passed to `addEmployee`: the text fields as typed,
      `departmentId: form.departmentId || null`, the salary read as a number,
      and the record active. */
  function DraftOf(f: Form): (d: Draft)
    ensures d.name == f.name && d.cpf == f.cpf && d.email == f.email && d.position == f.position
    ensures d.phone == Some(f.phone) && d.address == Some(f.address)
    ensures d.admissionDate == f.admissionDate
    ensures d.departmentId.Some? <==> f.departmentId.Truthy()
    ensures d.departmentId.Some? ==> d.departmentId.value == f.departmentId.n
    ensures d.salary == NumberOf(f.salary)
    ensures d.isActive
  {
    Draft(f.name, f.cpf, f.email, Some(f.phone), Some(f.address), f.position,
          if f.departmentId.Truthy() then Some(f.departmentId.n) else None,
          NumberOf(f.salary), f.admissionDate, true)
  }

  /** `handleSubmit` against the store: the errors shown, and the store after
      `addEmployee`, which runs exactly when there are no errors. */
  function Submit(store: seq<Employee>, f: Form): (r: (Errors, seq<Employee>))
    ensures r.0 == Validate(f)
    ensures r.0 != map[] ==> r.1 == store
    ensures r.0 == map[] ==> |r.1| == |store| + 1 && r.1[..|store|] == store
  {
    var errors := Validate(f);
    if errors != map[] then (errors, store)
    else (errors, Store.CreateMockEmployee(store, DraftOf(f)).0)
  }

  // ---------------------------------------------------------------------------
  // Properties

  /** The untouched form shows exactly seven errors. */
  lemma EmptyFormSevenErrors()
    ensures Validate(Initial).Keys == RequiredFields
    ensures |Validate(Initial)| == 7
  {
    AllFailing(SalaryInvalid);
  }

  /** Choosing the blank department option stores `0`, which still fails validation. */
  lemma BlankDepartmentStillRequired(f: Form)
    ensures DepartmentId in Validate(HandleChange(f, DepartmentId, ""))
  {
  }

  /** A negative salary passes validation. */
  lemma NegativeSalaryAccepted(f: Form)
    requires f.salary == "-1"
    ensures Salary !in Validate(f)
  {
    assert ParseUnsigned("1") == Some(Dec(1, 0)) by {
      assert DotIndex("1") == 1;
      assert "1"[..1] == "1";
    }
    assert f.salary[1..] == "1";
  }

  /** A record created through the form is active, has a numeric salary, a
      department id, the department that id names, and a fresh id. */
  lemma AcceptedFormCreatesActiveRecord(store: seq<Employee>, f: Form)
    requires Validate(f) == map[]
    ensures var e := Store.CreateMockEmployee(store, DraftOf(f)).1;
      && Submit(store, f).1 == store + [e]
      && e.isActive
      && e.salary.Dec?
      && e.departmentId == Some(f.departmentId.n) && f.departmentId.n.Truthy()
      && e.department == FindDepartment(f.departmentId.n)
      && forall j :: 0 <= j < |store| ==> store[j].id < e.id
  {
    assert f.departmentId.Truthy() by {
      assert DepartmentId !in Validate(f);
    }
    assert Salary !in Validate(f);
  }
}
