/** `src/components/employee/EmployeeForm.tsx`: a create form of strings plus
    an `isActive` checkbox, validated with trimming and reset after a
    successful submit. */
module EmployeeForm {
  import opened Wrappers
  import opened Numbers
  import opened Types
  import opened Text
  import opened Validation
  import Store

  datatype Form = Form(
    name: string,
    cpf: string,
    email: string,
    phone: string,
    address: string,
    position: string,
    departmentId: string,
    salary: string,
    admissionDate: string,
    isActive: bool)

  /** `initialFormData`: every text empty and the record active. */
  const Initial := Form("", "", "", "", "", "", "", "", "", true)

  /** The salary message: required when empty; otherwise it must read as a
      number that is not negative (zero passes). */
  function SalaryMessage(s: string): (m: Option<string>)
    ensures m.None? <==> s != "" && NumberOf(s).Dec? && !NumberOf(s).IsNegative()
    ensures s == "" ==> m == Some(SalaryRequired)
    ensures s != "" && m.Some? ==> m.value == SalaryNotPositive
  {
    if s == "" then Some(SalaryRequired)
    else if NumberOf(s).NaN? || NumberOf(s).IsNegative() then Some(SalaryNotPositive)
    else None
  }

  /** `validate`'s error map: name, CPF and e-mail are checked after
      trimming; position, department and admission date as written. */
  function ValidationErrors(f: Form): (r: Errors)
    ensures Name in r <==> Blank(f.name)
    ensures Cpf in r <==> Blank(f.cpf)
    ensures Email in r <==> Blank(f.email)
    ensures PositionField in r <==> f.position == ""
    ensures DepartmentId in r <==> f.departmentId == ""
    ensures Salary in r <==> SalaryMessage(f.salary).Some?
    ensures Salary in r ==> r[Salary] == SalaryMessage(f.salary).value
    ensures AdmissionDate in r <==> f.admissionDate == ""
    ensures Phone !in r && Address !in r && IsActive !in r
  {
    Collect(Checks(Blank(f.name), Blank(f.cpf), Blank(f.email), f.position == "",
                   f.departmentId == "", SalaryMessage(f.salary), f.admissionDate == ""))
  }

  /** `validate`'s result: the error map is empty. */
  predicate Valid(f: Form) { ValidationErrors(f) == map[] }

  /** `handleCheckboxChange`: negates `isActive` and nothing else. */
  function ToggleActive(f: Form): (r: Form)
    ensures r.isActive != f.isActive
    ensures r.(isActive := f.isActive) == f
  {
    f.(isActive := !f.isActive)
  }

  /** The object passed to `addEmployee`: the form spread, with the
      department id and the salary read with `Number`. */
  function DraftOf(f: Form): (d: Draft)
    ensures d.name == f.name && d.cpf == f.cpf && d.email == f.email && d.position == f.position
    ensures d.phone == Some(f.phone) && d.address == Some(f.address)
    ensures d.admissionDate == f.admissionDate && d.isActive == f.isActive
    ensures d.departmentId == Some(NumberOf(f.departmentId))
    ensures d.salary == NumberOf(f.salary)
  {
    Draft(f.name, f.cpf, f.email, Some(f.phone), Some(f.address), f.position,
          Some(NumberOf(f.departmentId)), NumberOf(f.salary), f.admissionDate, f.isActive)
  }

  /** `handleSubmit` against the store: an invalid form changes nothing; a
      valid one is added and the form goes back to its initial state. */
  function Submit(store: seq<Employee>, f: Form): (r: (seq<Employee>, Form))
    ensures !Valid(f) ==> r == (store, f)
    ensures Valid(f) ==> r.0 == Store.CreateMockEmployee(store, DraftOf(f)).0 && r.1 == Initial
  {
    if !Valid(f) then (store, f)
    else (Store.CreateMockEmployee(store, DraftOf(f)).0, Initial)
  }

  // ---------------------------------------------------------------------------
  // Properties

  /** A name (likewise CPF, e-mail) is rejected exactly when it is blank:
      empty or made only of white space. */
  lemma BlankNameRejected(f: Form)
    ensures Name in ValidationErrors(f) <==> forall i :: 0 <= i < |f.name| ==> IsJsSpace(f.name[i])
    ensures Cpf in ValidationErrors(f) <==> forall i :: 0 <= i < |f.cpf| ==> IsJsSpace(f.cpf[i])
    ensures Email in ValidationErrors(f) <==> forall i :: 0 <= i < |f.email| ==> IsJsSpace(f.email[i])
  {
    TrimEmptyIffBlank(f.name);
    TrimEmptyIffBlank(f.cpf);
    TrimEmptyIffBlank(f.email);
  }

  /** A salary of zero is accepted. */
  lemma ZeroSalaryAccepted()
    ensures SalaryMessage("0").None?
  {
    assert ParseUnsigned("0") == Some(Dec(0, 0)) by {
      assert DotIndex("0") == 1;
      assert "0"[..1] == "0";
    }
  }

  /** Two checkbox changes restore the form; the form starts active. */
  lemma ToggleTwiceRestores(f: Form)
    ensures ToggleActive(ToggleActive(f)) == f
    ensures Initial.isActive
  {
  }

  /** A record added through the form has a salary that is a number and not
      negative, carries the checkbox state, and gets a fresh id. */
  lemma AcceptedFormAddsRecord(store: seq<Employee>, f: Form)
    requires Valid(f)
    ensures var e := Store.CreateMockEmployee(store, DraftOf(f)).1;
      && Submit(store, f).0 == store + [e]
      && e.salary.Dec? && !e.salary.IsNegative()
      && e.isActive == f.isActive
      && forall j :: 0 <= j < |store| ==> store[j].id < e.id
  {
    assert Salary !in ValidationErrors(f);
  }
}
