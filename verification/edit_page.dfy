/** `src/pages/employee/edit/EditEmployeePage.tsx`: the page that loads a
    record by the id in its route, edits a typed copy of it and writes the
    whole copy back to the store. */
module EditEmployeePage {
  import opened Wrappers
  import opened Numbers
  import opened Types
  import opened Text
  import opened Store

  /** The page's copy of the record. `departmentId` is taken from the
      department snapshot, not from the record's own `departmentId`. */
  datatype Form = Form(
    id: int,
    name: string,
    cpf: string,
    email: string,
    phone: string,
    address: string,
    position: string,
    departmentId: Option<Number>,
    salary: Number,
    admissionDate: string,
    isActive: bool)

  const NotFoundError := "Funcionário não encontrado"
  const SaveFailedError := "Erro ao salvar dados do funcionário."

  /** The integer a route parameter reads as with `Number`, if any: only an
      integer can equal (`===`) a record id. */
  function IdFromParam(param: string): (r: Option<int>)
    ensures r.Some? ==> NumberOf(param).EqualsInt(r.value)
    ensures r.None? ==> forall i: int :: !NumberOf(param).EqualsInt(i)
  {
    match NumberOf(param)
    case NaN => None
    case Dec(u, p) =>
      if p == 0 then Some(u)
      else
        assert forall i: int :: !NumberOf(param).EqualsInt(i) by {
          forall i: int ensures !NumberOf(param).EqualsInt(i) {
            NotIntegral(u, p, i);
          }
        }
        None
  }

  /** A canonical decimal with fraction digits is not an integer. */
  lemma NotIntegral(u: int, p: nat, i: int)
    requires p > 0 && Abs(u) % 10 != 0
    ensures u != i * Pow10(p)
  {
    MultipleOfTen(i * Pow10(p - 1));
    assert i * Pow10(p) == (i * Pow10(p - 1)) * 10;
  }

  lemma MultipleOfTen(x: int)
    ensures Abs(x * 10) % 10 == 0
  {
    assert Abs(x * 10) == Abs(x) * 10;
  }

  /** The projection of a record into the page's copy. */
  function FromEmployee(e: Employee): (r: Form)
    ensures r.id == e.id && r.name == e.name && r.cpf == e.cpf && r.email == e.email
    ensures r.position == e.position && r.salary == e.salary && r.isActive == e.isActive
    ensures r.phone == (if e.phone.Some? then e.phone.value else "")
    ensures r.address == (if e.address.Some? then e.address.value else "")
    ensures r.departmentId.Some? <==> e.department.Some?
    ensures r.departmentId.Some? ==> r.departmentId.value == FromInt(e.department.value.id)
    ensures IsPrefix(r.admissionDate, e.admissionDate)
    ensures |r.admissionDate| == if |e.admissionDate| <= 10 then |e.admissionDate| else 10
  {
    Form(e.id, e.name, e.cpf, e.email, e.phone.GetOr(""), e.address.GetOr(""), e.position,
         match e.department case Some(d) => Some(FromInt(d.id)) case None => None,
         e.salary, Take(e.admissionDate, 10), e.isActive)
  }

  /** The page after loading: the copy, or the single not-found error. */
  datatype Page = Page(form: Option<Form>, errors: seq<string>)

  /** The loading effect for the route parameter `param`. */
  function Load(store: seq<Employee>, param: string): (r: Page)
    ensures r.form.None? <==> IdFromParam(param).None? || !HasId(store, IdFromParam(param).value)
    ensures r.form.None? ==> r.errors == [NotFoundError]
    ensures r.form.Some? ==> r.errors == [] && exists i ::
              && IsFirstWithId(store, IdFromParam(param).value, i)
              && r.form.value == FromEmployee(store[i])
  {
    match IdFromParam(param)
    case None => Page(None, [NotFoundError])
    case Some(id) =>
      match GetEmployeeById(store, id)
      case None => Page(None, [NotFoundError])
      case Some(e) => Page(Some(FromEmployee(e)), [])
  }

  /** The controls' changes: a text input, the department select, the
      salary input (carrying `parseFloat` of its text) and the active checkbox. */
  datatype Change =
    | TextInput(k: Field, value: string)
    | DepartmentSelect(choice: Option<Number>)
    | SalaryInput(n: Number)
    | ActiveCheckbox(checked: bool)

  /** The text inputs of the page. */
  predicate IsTextInput(k: Field) {
    k in {Name, Cpf, Email, Phone, Address, PositionField, AdmissionDate}
  }

  /** `handleChange`: overwrites the one key the control edits. */
  function HandleChange(f: Form, c: Change): (r: Form)
    requires c.TextInput? ==> IsTextInput(c.k)
    ensures r.id == f.id
    ensures c.DepartmentSelect? ==> r == f.(departmentId := c.choice)
    ensures c.SalaryInput? ==> r == f.(salary := c.n)
    ensures c.ActiveCheckbox? ==> r == f.(isActive := c.checked)
    ensures !c.DepartmentSelect? ==> r.departmentId == f.departmentId
    ensures !c.ActiveCheckbox? ==> r.isActive == f.isActive
    ensures c.TextInput? && c.k == Name ==> r == f.(name := c.value)
    ensures c.TextInput? && c.k == Cpf ==> r == f.(cpf := c.value)
    ensures c.TextInput? && c.k == Email ==> r == f.(email := c.value)
    ensures c.TextInput? && c.k == Phone ==> r == f.(phone := c.value)
    ensures c.TextInput? && c.k == Address ==> r == f.(address := c.value)
    ensures c.TextInput? && c.k == PositionField ==> r == f.(position := c.value)
    ensures c.TextInput? && c.k == AdmissionDate ==> r == f.(admissionDate := c.value)
  {
    match c
    case DepartmentSelect(d) => f.(departmentId := d)
    case SalaryInput(n) => f.(salary := n)
    case ActiveCheckbox(b) => f.(isActive := b)
    case TextInput(k, v) =>
      match k
      case Name => f.(name := v)
      case Cpf => f.(cpf := v)
      case Email => f.(email := v)
      case Phone => f.(phone := v)
      case Address => f.(address := v)
      case PositionField => f.(position := v)
      case AdmissionDate => f.(admissionDate := v)
  }

  /** The whole copy as an update: every field is written. */
  function PayloadOf(f: Form): (p: Payload)
    ensures p.name == Set(f.name) && p.cpf == Set(f.cpf) && p.email == Set(f.email)
    ensures p.phone == Set(f.phone) && p.address == Set(f.address) && p.position == Set(f.position)
    ensures p.departmentId == Set(f.departmentId) && p.salary == Set(f.salary)
    ensures p.admissionDate == Set(f.admissionDate) && p.isActive == Set(f.isActive)
  {
    Payload(Set(f.name), Set(f.cpf), Set(f.email), Set(f.phone), Set(f.address), Set(f.position),
            Set(f.departmentId), Set(f.salary), Set(f.admissionDate), Set(f.isActive))
  }

  /** `handleSubmit`: the store after the update and the errors shown. */
  function Submit(store: seq<Employee>, f: Form): (r: (seq<Employee>, seq<string>))
    ensures r.1 == [] <==> HasId(store, f.id)
    ensures r.1 != [] ==> r.1 == [SaveFailedError] && r.0 == store
    ensures r.0 == UpdateMockEmployee(store, f.id, PayloadOf(f)).1
  {
    var (ok, s) := UpdateMockEmployee(store, f.id, PayloadOf(f));
    (s, if ok then [] else [SaveFailedError])
  }

  // ---------------------------------------------------------------------------
  // Properties

  /** Choosing "Nenhum" and saving clears `departmentId` but keeps the
      record's department snapshot. */
  lemma NoneChoiceKeepsDepartment(store: seq<Employee>, f: Form)
    requires HasId(store, f.id)
    ensures var g := HandleChange(f, DepartmentSelect(NumberUnlessEmpty("")));
      var i := FindIndex(store, f.id).value;
      && Submit(store, g).0[i].department == store[i].department
      && Submit(store, g).0[i].departmentId == None
  {
    var g := HandleChange(f, DepartmentSelect(NumberUnlessEmpty("")));
    var i := FindIndex(store, f.id).value;
    assert UpdateMockEmployee(store, f.id, PayloadOf(g)).1 == store[i := Merge(store[i], PayloadOf(g))];
  }

  /** Saving the loaded copy unchanged realigns `departmentId` with the
      department snapshot, whatever `departmentId` held before. */
  lemma SaveRealignsDepartmentId(e: Employee)
    ensures var r := Merge(e, PayloadOf(FromEmployee(e)));
      && (e.department.Some? ==> r.departmentId == Some(FromInt(e.department.value.id)))
      && (e.department.None? ==> r.departmentId == None && r.department == None)
  {
  }

  /** For a record whose snapshot is a catalog entry matching its
      `departmentId` and whose optional texts and date survive the
      projection, saving the loaded copy unchanged writes the record back as it was. */
  lemma UnchangedSaveRoundTrip(e: Employee)
    requires e.phone.Some? && e.address.Some? && |e.admissionDate| <= 10
    requires e.department.Some? ==> e.department.value in Departments
    requires e.departmentId == (if e.department.Some? then Some(FromInt(e.department.value.id)) else None)
    ensures Merge(e, PayloadOf(FromEmployee(e))) == e
  {
    if e.department.Some? {
      FindDepartmentById(e.department.value);
    }
  }

  /** A record removed after loading makes the save fail and change nothing. */
  lemma SaveOfMissingRecordFails(store: seq<Employee>, f: Form)
    requires !HasId(store, f.id)
    ensures Submit(store, f) == (store, [SaveFailedError])
  {
  }
}
