/** `src/components/employee/EmployeeEditForm.tsx`: a form of nine strings
    initialised from an employee, its validation, the nine-field payload sent
    to the store and the outcome of a submit. */
module EditForm {
  import opened Wrappers
  import opened Numbers
  import opened Types
  import opened Text
  import opened Validation
  import opened Store

  datatype Form = Form(
    name: string,
    cpf: string,
    email: string,
    phone: string,
    address: string,
    position: string,
    departmentId: string,
    salary: string,
    admissionDate: string)

  const UpdateFailedAlert := "Erro ao atualizar funcionário. Tente novamente."

  /** The initial form: missing phone and address become `''`, the
      department id and the salary are written out as decimal text (a missing
      id as `''`) and the admission date is cut to its first ten characters. */
  function FromEmployee(e: Employee): (r: Form)
    ensures r.name == e.name && r.cpf == e.cpf && r.email == e.email && r.position == e.position
    ensures e.phone.Some? ==> r.phone == e.phone.value
    ensures e.phone.None? ==> r.phone == ""
    ensures e.address.Some? ==> r.address == e.address.value
    ensures e.address.None? ==> r.address == ""
    ensures r.departmentId == "" <==> e.departmentId.None?
    ensures e.departmentId.Some? && e.departmentId.value.Canonical() ==>
      NumberOf(r.departmentId) == e.departmentId.value
    ensures r.salary != "" && (e.salary.Canonical() ==> NumberOf(r.salary) == e.salary)
    ensures IsPrefix(r.admissionDate, e.admissionDate)
    ensures |r.admissionDate| == if |e.admissionDate| <= 10 then |e.admissionDate| else 10
    ensures |e.admissionDate| <= 10 ==> r.admissionDate == e.admissionDate
  {
    assert e.departmentId.Some? && e.departmentId.value.Canonical() ==>
      NumberOf(ToString(e.departmentId.value)) == e.departmentId.value by {
      if e.departmentId.Some? && e.departmentId.value.Canonical() {
        ToStringRoundTrip(e.departmentId.value);
      }
    }
    assert e.salary.Canonical() ==> NumberOf(ToString(e.salary)) == e.salary by {
      if e.salary.Canonical() {
        ToStringRoundTrip(e.salary);
      }
    }
    Form(e.name, e.cpf, e.email, e.phone.GetOr(""), e.address.GetOr(""), e.position,
         if e.departmentId.Some? then ToString(e.departmentId.value) else "",
         ToString(e.salary), Take(e.admissionDate, 10))
  }

  /** `handleChange`: overwrites one text field. */
  function HandleChange(f: Form, k: Field, value: string): (r: Form)
    requires k != IsActive
    ensures FieldText(r, k) == value
    ensures forall j :: j != k ==> FieldText(r, j) == FieldText(f, j)
  {
    match k
    case Name => f.(name := value)
    case Cpf => f.(cpf := value)
    case Email => f.(email := value)
    case Phone => f.(phone := value)
    case Address => f.(address := value)
    case PositionField => f.(position := value)
    case DepartmentId => f.(departmentId := value)
    case Salary => f.(salary := value)
    case AdmissionDate => f.(admissionDate := value)
  }

  /** The text held by a field (`isActive` has none). */
  function FieldText(f: Form, k: Field): string {
    match k
    case Name => f.name
    case Cpf => f.cpf
    case Email => f.email
    case Phone => f.phone
    case Address => f.address
    case PositionField => f.position
    case DepartmentId => f.departmentId
    case Salary => f.salary
    case AdmissionDate => f.admissionDate
    case IsActive => ""
  }

  /** The checks of `handleSubmit`: six required strings and a salary that
      must read as a number. */
  function Validate(f: Form): (r: Errors)
    ensures Name in r <==> f.name == ""
    ensures Cpf in r <==> f.cpf == ""
    ensures Email in r <==> f.email == ""
    ensures PositionField in r <==> f.position == ""
    ensures DepartmentId in r <==> f.departmentId == ""
    ensures Salary in r <==> f.salary == "" || NumberOf(f.salary).NaN?
    ensures Salary in r ==> r[Salary] == SalaryInvalid
    ensures AdmissionDate in r <==> f.admissionDate == ""
    ensures Phone !in r && Address !in r && IsActive !in r
  {
    Collect(Checks(f.name == "", f.cpf == "", f.email == "", f.position == "", f.departmentId == "",
                   if f.salary == "" || NumberOf(f.salary).NaN? then Some(SalaryInvalid) else None,
                   f.admissionDate == ""))
  }

  /** The payload of `updateEmployee`: nine fields, no `id` and no `isActive`;
      the department id read with `Number`, the salary with `parseFloat`. */
  function PayloadOf(f: Form): (p: Payload)
    ensures p.isActive == Keep
    ensures p.name == Set(f.name) && p.cpf == Set(f.cpf) && p.email == Set(f.email)
    ensures p.phone == Set(f.phone) && p.address == Set(f.address) && p.position == Set(f.position)
    ensures p.departmentId == Set(Some(NumberOf(f.departmentId)))
    ensures p.salary == Set(ParseFloat(f.salary))
    ensures p.admissionDate == Set(f.admissionDate)
  {
    Payload(Set(f.name), Set(f.cpf), Set(f.email), Set(f.phone), Set(f.address), Set(f.position),
            Set(Some(NumberOf(f.departmentId))), Set(ParseFloat(f.salary)), Set(f.admissionDate), Keep)
  }

  /** What a submit leaves behind. */
  datatype Outcome = Outcome(
    errors: Errors,
    store: seq<Employee>,
    alert: Option<string>,
    onUpdatedRan: bool,
    loading: bool)

  /** `handleSubmit` for the record `e`. `updaterThrows` stands for an
      `updateEmployee` that throws; `hasOnUpdated` says whether the caller
      passed `onUpdated`. */
  function Submit(store: seq<Employee>, e: Employee, f: Form, updaterThrows: bool, hasOnUpdated: bool)
    : (r: Outcome)
    ensures r.errors == Validate(f)
    ensures !r.loading
    ensures r.errors != map[] || updaterThrows ==> r.store == store
    ensures r.alert.Some? <==> r.errors == map[] && updaterThrows
    ensures r.alert.Some? ==> r.alert.value == UpdateFailedAlert
    ensures r.onUpdatedRan <==> r.errors == map[] && !updaterThrows && hasOnUpdated && HasId(store, e.id)
    ensures r.errors == map[] && !updaterThrows ==> r.store == UpdateMockEmployee(store, e.id, PayloadOf(f)).1
  {
    var errors := Validate(f);
    if errors != map[] then Outcome(errors, store, None, false, false)
    else if updaterThrows then Outcome(errors, store, Some(UpdateFailedAlert), false, false)
    else
      var (ok, s) := UpdateMockEmployee(store, e.id, PayloadOf(f));
      Outcome(errors, s, None, ok && hasOnUpdated, false)
  }

  // ---------------------------------------------------------------------------
  // Properties

  /** An edit never changes any record's `isActive`. */
  lemma EditKeepsActiveFlags(store: seq<Employee>, e: Employee, f: Form, updaterThrows: bool, hasOnUpdated: bool)
    ensures var r := Submit(store, e, f, updaterThrows, hasOnUpdated);
      |r.store| == |store| && forall i :: 0 <= i < |store| ==> r.store[i].isActive == store[i].isActive
  {
    var r := Submit(store, e, f, updaterThrows, hasOnUpdated);
    if Validate(f) == map[] && !updaterThrows && HasId(store, e.id) {
      var i := FindIndex(store, e.id).value;
      assert r.store == store[i := Merge(store[i], PayloadOf(f))];
    }
  }

  /** Submitting the initial form unchanged writes the record back as it was,
      except that its department snapshot is looked up again from its id,
      when the record's numbers are in their shortest form and its optional
      texts and date survive the projection. */
  lemma UnchangedFormRoundTrip(e: Employee)
    requires e.phone.Some? && e.address.Some? && |e.admissionDate| <= 10
    requires e.departmentId.Some? && e.departmentId.value.Canonical()
    requires e.salary.Canonical()
    ensures Merge(e, PayloadOf(FromEmployee(e)))
      == e.(department := DepartmentAfterUpdate(e.department, Set(e.departmentId)))
  {
    var f := FromEmployee(e);
    assert ParseFloat(f.salary) == e.salary;
  }
}
