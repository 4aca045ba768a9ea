/** `src/pages/employee/create/CreateEmployeePage.tsx`: a short create form
    (name, CPF, salary, department, position, active flag) checked for
    blank required fields and turned into a record with trimmed texts. The
    clock read for the admission date is the parameter `now`. */
module CreateEmployeePage {
  import opened Wrappers
  import opened Numbers
  import opened Types
  import opened Text
  import Store

  datatype Form = Form(
    name: string,
    cpf: string,
    salary: string,
    isActive: bool,
    departmentId: string,
    position: string)

  const Initial := Form("", "", "", true, "", "")

  const MissingFieldsAlert := "Por favor, preencha todos os campos obrigatórios."

  /** A change event: a text control or select with its value, or the checkbox with `checked`. */
  datatype Control = TextControl(k: Field, value: string) | Checkbox(checked: bool)

  /** The keys of the page's text controls and selects. */
  predicate IsTextControl(k: Field) { k in {Name, Cpf, Salary, DepartmentId, PositionField} }

  /** `handleChange`: the checkbox stores `checked`, every other control its string value. */
  function HandleChange(f: Form, c: Control): (r: Form)
    requires c.TextControl? ==> IsTextControl(c.k)
    ensures c.Checkbox? ==> r == f.(isActive := c.checked)
    ensures c.TextControl? ==> r.isActive == f.isActive
    ensures c.TextControl? && c.k == Name ==> r == f.(name := c.value)
    ensures c.TextControl? && c.k == Cpf ==> r == f.(cpf := c.value)
    ensures c.TextControl? && c.k == Salary ==> r == f.(salary := c.value)
    ensures c.TextControl? && c.k == DepartmentId ==> r == f.(departmentId := c.value)
    ensures c.TextControl? && c.k == PositionField ==> r == f.(position := c.value)
  {
    match c
    case Checkbox(b) => f.(isActive := b)
    case TextControl(k, v) =>
      match k
      case Name => f.(name := v)
      case Cpf => f.(cpf := v)
      case Salary => f.(salary := v)
      case DepartmentId => f.(departmentId := v)
      case PositionField => f.(position := v)
  }

  /** The submit guard: name, CPF, salary and department must not be blank
      and a position must be chosen; the e-mail is not asked for. */
  predicate MissingRequired(f: Form) {
    Blank(f.name) || Blank(f.cpf) || Blank(f.salary) || Blank(f.departmentId) || f.position == ""
  }

  /** The object passed to `createMockEmployee`: trimmed name and CPF, empty
      e-mail, phone and address, the salary read with `parseFloat`, the
      department id with `parseInt`, and the admission date from the clock.
      The page's own `id` and `department` are not carried: the store
      replaces both. */
  function DraftOf(f: Form, now: string): (d: Draft)
    ensures d.name == Trim(f.name) && d.cpf == Trim(f.cpf)
    ensures d.email == "" && d.phone == Some("") && d.address == Some("")
    ensures d.position == f.position && d.isActive == f.isActive && d.admissionDate == now
    ensures d.salary == ParseFloat(f.salary)
    ensures d.departmentId == Some(ParseInt(f.departmentId))
  {
    Draft(Trim(f.name), Trim(f.cpf), "", Some(""), Some(""), f.position,
          Some(ParseInt(f.departmentId)), ParseFloat(f.salary), now, f.isActive)
  }

  /** `handleSubmit`: the alert shown, if any, and the store afterwards. */
  function Submit(store: seq<Employee>, f: Form, now: string): (r: (Option<string>, seq<Employee>))
    ensures MissingRequired(f) ==> r == (Some(MissingFieldsAlert), store)
    ensures !MissingRequired(f) ==> r.0.None? && r.1 == Store.CreateMockEmployee(store, DraftOf(f, now)).0
  {
    if MissingRequired(f) then (Some(MissingFieldsAlert), store)
    else (None, Store.CreateMockEmployee(store, DraftOf(f, now)).0)
  }

  // ---------------------------------------------------------------------------
  // Properties

  /** A record created by the page has a non-blank name and CPF with no
      white space at either end, empty contact fields, the store's fresh id
      and the catalog department of its parsed id. */
  lemma CreatedRecordShape(store: seq<Employee>, f: Form, now: string)
    requires !MissingRequired(f)
    ensures var e := Store.CreateMockEmployee(store, DraftOf(f, now)).1;
      && Submit(store, f, now).1 == store + [e]
      && e.name != "" && !IsJsSpace(e.name[0]) && !IsJsSpace(e.name[|e.name| - 1])
      && e.cpf != "" && !IsJsSpace(e.cpf[0]) && !IsJsSpace(e.cpf[|e.cpf| - 1])
      && e.email == "" && e.phone == Some("") && e.address == Some("")
      && e.department == FindDepartment(ParseInt(f.departmentId))
      && forall j :: 0 <= j < |store| ==> store[j].id < e.id
  {
    var d := DraftOf(f, now);
    var e := Store.CreateMockEmployee(store, d).1;
    assert Submit(store, f, now).1 == store + [e];
    assert e.name == Trim(f.name) && e.cpf == Trim(f.cpf) by {
      assert d.name == Trim(f.name) && d.cpf == Trim(f.cpf);
    }
    assert Trim(f.name) != "" && Trim(f.cpf) != "";
    assert e.department == FindDepartment(ParseInt(f.departmentId)) by {
      assert d.departmentId == Some(ParseInt(f.departmentId));
    }
  }

  /** A form whose required fields are only white space is refused. */
  lemma WhitespaceOnlyRefused(store: seq<Employee>, f: Form, now: string)
    requires forall i :: 0 <= i < |f.name| ==> IsJsSpace(f.name[i])
    ensures Submit(store, f, now) == (Some(MissingFieldsAlert), store)
  {
    TrimEmptyIffBlank(f.name);
  }
}
