/** The list page of `src/pages/employee/EmployeePage.tsx`: the query that
    builds the visible list from the store, a free-text query and a filter
    record, and the two list mutations (confirmed delete and status toggle). */
module EmployeePage {
  import opened Wrappers
  import opened Numbers
  import opened Types
  import opened Text
  import opened Dates
  import opened Seqs
  import opened Store

  /** The filter record; a missing key is `None`. */
  datatype Filters = Filters(
    search: Option<string>,
    departmentId: Option<Number>,
    position: Option<string>,
    isActive: Option<bool>,
    admissionDateFrom: Option<string>,
    admissionDateTo: Option<string>)

  /** The page's initial filter record `{}`. */
  const NoFilters := Filters(None, None, None, None, None, None)

  /** The free-text test for a lower-cased query: name or e-mail contain it
      ignoring case; CPF or a present phone contain it as written. */
  predicate TextMatches(e: Employee, q: string) {
    || Contains(Lower(e.name), q)
    || Contains(Lower(e.email), q)
    || Contains(e.cpf, q)
    || (e.phone.Some? && Contains(e.phone.value, q))
  }

  /** A string-valued filter entry is applied unless it is missing or `''`. */
  predicate Applied(v: Option<string>) { v.Some? && v.value != "" }

  /** The department snapshot (not `departmentId`) has the filter's id. */
  predicate DepartmentMatches(e: Employee, n: Number) {
    e.department.Some? && n.EqualsInt(e.department.value.id)
  }

  // The predicate of each pass; each is true of every record when its entry is not applied.

  predicate KeepText(query: string, e: Employee) { query == "" || TextMatches(e, Lower(query)) }
  predicate KeepDepartment(f: Filters, e: Employee) { f.departmentId.None? || DepartmentMatches(e, f.departmentId.value) }
  predicate KeepPosition(f: Filters, e: Employee) { !Applied(f.position) || e.position == f.position.value }
  predicate KeepStatus(f: Filters, e: Employee) { f.isActive.None? || e.isActive == f.isActive.value }
  predicate KeepFrom(f: Filters, e: Employee) { !Applied(f.admissionDateFrom) || OnOrAfter(e.admissionDate, f.admissionDateFrom.value) }
  predicate KeepTo(f: Filters, e: Employee) { !Applied(f.admissionDateTo) || OnOrBefore(e.admissionDate, f.admissionDateTo.value) }

  /** A record is listed when it passes every applied entry. */
  predicate Matches(query: string, f: Filters, e: Employee) {
    && KeepText(query, e) && KeepDepartment(f, e) && KeepPosition(f, e)
    && KeepStatus(f, e) && KeepFrom(f, e) && KeepTo(f, e)
  }

  function Matcher(query: string, f: Filters): Employee -> bool {
    e => Matches(query, f, e)
  }

  // The tests of the passes, one per applied entry.

  function TextTest(q: string): Employee -> bool { (e: Employee) => TextMatches(e, q) }
  function DepartmentTest(n: Number): Employee -> bool { (e: Employee) => DepartmentMatches(e, n) }
  function PositionTest(p: string): Employee -> bool { (e: Employee) => e.position == p }
  function StatusTest(b: bool): Employee -> bool { (e: Employee) => e.isActive == b }
  function FromTest(d: string): Employee -> bool { (e: Employee) => OnOrAfter(e.admissionDate, d) }
  function ToTest(d: string): Employee -> bool { (e: Employee) => OnOrBefore(e.admissionDate, d) }

  // The passes of `fetchEmployees`, in the order it runs them.

  function TextPass(s: seq<Employee>, query: string): seq<Employee> {
    if query != "" then Filter(s, TextTest(Lower(query))) else s
  }

  function DepartmentPass(s: seq<Employee>, f: Filters): seq<Employee> {
    if f.departmentId.Some? then Filter(s, DepartmentTest(f.departmentId.value)) else s
  }

  function PositionPass(s: seq<Employee>, f: Filters): seq<Employee> {
    if Applied(f.position) then Filter(s, PositionTest(f.position.value)) else s
  }

  function StatusPass(s: seq<Employee>, f: Filters): seq<Employee> {
    if f.isActive.Some? then Filter(s, StatusTest(f.isActive.value)) else s
  }

  function FromPass(s: seq<Employee>, f: Filters): seq<Employee> {
    if Applied(f.admissionDateFrom) then Filter(s, FromTest(f.admissionDateFrom.value)) else s
  }

  function ToPass(s: seq<Employee>, f: Filters): seq<Employee> {
    if Applied(f.admissionDateTo) then Filter(s, ToTest(f.admissionDateTo.value)) else s
  }

  function And(p: Employee -> bool, q: Employee -> bool): Employee -> bool {
    e => p(e) && q(e)
  }

  /** Filtering twice is filtering once by the conjunction. */
  lemma FuseStep(s: seq<Employee>, p: Employee -> bool, q: Employee -> bool)
    ensures Filter(Filter(s, p), q) == Filter(s, And(p, q))
  {
    FilterFuse(s, p, q, And(p, q));
  }

  /** Each pass is a filter by its `Keep` predicate, which holds of every
      record when the pass's entry is not applied. */
  lemma {:induction false} PassIsFilter(s: seq<Employee>, pass: seq<Employee>, applied: bool,
                                        test: Employee -> bool, keep: Employee -> bool)
    requires forall e :: keep(e) == (!applied || test(e))
    requires pass == if applied then Filter(s, test) else s
    ensures pass == Filter(s, keep)
  {
    if applied {
      FilterCongruent(s, test, keep);
    } else {
      FilterKeepsAll(s, keep);
    }
  }

  /** `fetchEmployees`: the text pass, then one pass per entry of the filter
      record in key order; the `search` key has no pass. The result is the
      store filtered once by the conjunction of every applied test. */
  function FetchEmployees(store: seq<Employee>, query: string, f: Filters): (r: seq<Employee>)
    ensures r == Filter(store, Matcher(query, f))
    ensures IsSubsequence(r, store)
    ensures forall e :: e in r <==> e in store && Matches(query, f, e)
  {
    var r := ToPass(FromPass(StatusPass(PositionPass(DepartmentPass(TextPass(store, query), f), f), f), f), f);
    PassesFuse(store, query, f);
    r
  }

  // The keep predicates as functions, and the running conjunctions after each pass.

  function KeepTextFn(query: string): Employee -> bool { (e: Employee) => KeepText(query, e) }
  function KeepDepartmentFn(f: Filters): Employee -> bool { (e: Employee) => KeepDepartment(f, e) }
  function KeepPositionFn(f: Filters): Employee -> bool { (e: Employee) => KeepPosition(f, e) }
  function KeepStatusFn(f: Filters): Employee -> bool { (e: Employee) => KeepStatus(f, e) }
  function KeepFromFn(f: Filters): Employee -> bool { (e: Employee) => KeepFrom(f, e) }
  function KeepToFn(f: Filters): Employee -> bool { (e: Employee) => KeepTo(f, e) }

  function Upto1(q: string, f: Filters): Employee -> bool { And(KeepTextFn(q), KeepDepartmentFn(f)) }
  function Upto2(q: string, f: Filters): Employee -> bool { And(Upto1(q, f), KeepPositionFn(f)) }
  function Upto3(q: string, f: Filters): Employee -> bool { And(Upto2(q, f), KeepStatusFn(f)) }
  function Upto4(q: string, f: Filters): Employee -> bool { And(Upto3(q, f), KeepFromFn(f)) }
  function Upto5(q: string, f: Filters): Employee -> bool { And(Upto4(q, f), KeepToFn(f)) }

  lemma PassesFuse(store: seq<Employee>, query: string, f: Filters)
    ensures ToPass(FromPass(StatusPass(PositionPass(DepartmentPass(TextPass(store, query), f), f), f), f), f)
      == Filter(store, Matcher(query, f))
  {
    var s0 := TextPass(store, query);
    assert s0 == Filter(store, KeepTextFn(query)) by {
      PassIsFilter(store, s0, query != "", TextTest(Lower(query)), KeepTextFn(query));
    }
    var s1 := DepartmentPass(s0, f);
    assert s1 == Filter(store, Upto1(query, f)) by {
      PassIsFilter(s0, s1, f.departmentId.Some?, DepartmentTest(f.departmentId.GetOr(NaN)), KeepDepartmentFn(f));
      FuseStep(store, KeepTextFn(query), KeepDepartmentFn(f));
    }
    var s2 := PositionPass(s1, f);
    assert s2 == Filter(store, Upto2(query, f)) by {
      PassIsFilter(s1, s2, Applied(f.position), PositionTest(f.position.GetOr("")), KeepPositionFn(f));
      FuseStep(store, Upto1(query, f), KeepPositionFn(f));
    }
    var s3 := StatusPass(s2, f);
    assert s3 == Filter(store, Upto3(query, f)) by {
      PassIsFilter(s2, s3, f.isActive.Some?, StatusTest(f.isActive.GetOr(false)), KeepStatusFn(f));
      FuseStep(store, Upto2(query, f), KeepStatusFn(f));
    }
    var s4 := FromPass(s3, f);
    assert s4 == Filter(store, Upto4(query, f)) by {
      PassIsFilter(s3, s4, Applied(f.admissionDateFrom), FromTest(f.admissionDateFrom.GetOr("")), KeepFromFn(f));
      FuseStep(store, Upto3(query, f), KeepFromFn(f));
    }
    var s5 := ToPass(s4, f);
    assert s5 == Filter(store, Upto5(query, f)) by {
      PassIsFilter(s4, s5, Applied(f.admissionDateTo), ToTest(f.admissionDateTo.GetOr("")), KeepToFn(f));
      FuseStep(store, Upto4(query, f), KeepToFn(f));
    }
    FilterCongruent(store, Upto5(query, f), Matcher(query, f));
  }

  /** `handleDeleteConfirmed`: removes the first record with the selected
      record's id; nothing changes when nothing is selected or the id is gone. */
  function HandleDeleteConfirmed(store: seq<Employee>, selected: Option<Employee>): (r: seq<Employee>)
    ensures selected.None? || !HasId(store, selected.value.id) ==> r == store
    ensures selected.Some? && HasId(store, selected.value.id) ==>
      exists i :: IsFirstWithId(store, selected.value.id, i) && r == store[..i] + store[i + 1..]
  {
    if selected.None? then store
    else
      match FindIndex(store, selected.value.id)
      case Some(i) => store[..i] + store[i + 1..]
      case None => store
  }

  /** `toggleActiveStatus`: negates `isActive` of the first record with the
      row's id and of no other record. */
  function ToggleActiveStatus(store: seq<Employee>, row: Employee): (r: seq<Employee>)
    ensures |r| == |store|
    ensures !HasId(store, row.id) ==> r == store
    ensures HasId(store, row.id) ==> exists i ::
              && IsFirstWithId(store, row.id, i)
              && r[i] == store[i].(isActive := !store[i].isActive)
              && forall j :: 0 <= j < |store| && j != i ==> r[j] == store[j]
  {
    match FindIndex(store, row.id)
    case Some(i) => store[i := store[i].(isActive := !store[i].isActive)]
    case None => store
  }

  // ---------------------------------------------------------------------------
  // Properties of the query and the list mutations

  /** Toggling the same row twice restores the list. */
  lemma ToggleTwiceRestores(store: seq<Employee>, row: Employee)
    ensures ToggleActiveStatus(ToggleActiveStatus(store, row), row) == store
  {
    var t := ToggleActiveStatus(store, row);
    if HasId(store, row.id) {
      var i := FindIndex(store, row.id).value;
      assert t == store[i := store[i].(isActive := !store[i].isActive)];
      assert IsFirstWithId(t, row.id, i);
      FirstIsUnique(t, row.id, i, FindIndex(t, row.id).value);
    }
  }

  /** The `search` key of the filter record never changes the result. */
  lemma SearchKeyIgnored(store: seq<Employee>, query: string, f: Filters, v: Option<string>)
    ensures FetchEmployees(store, query, f.(search := v)) == FetchEmployees(store, query, f)
  {
  }

  /** With an empty query and an empty filter record every record is listed, in order. */
  lemma NoFilterListsAll(store: seq<Employee>)
    ensures FetchEmployees(store, "", NoFilters) == store
  {
    FilterKeepsAll(store, Matcher("", NoFilters));
  }

  /** `isActive: false` and `departmentId: 0` are applied, not ignored. */
  lemma FalsyValuesNarrow(store: seq<Employee>, query: string, f: Filters)
    ensures f.isActive == Some(false) ==>
      forall e :: e in FetchEmployees(store, query, f) ==> !e.isActive
    ensures f.departmentId == Some(FromInt(0)) ==>
      forall e :: e in FetchEmployees(store, query, f) ==> e.department.Some? && e.department.value.id == 0
  {
  }

  /** The record `{...B, ...A}`: each key from `a` when present, otherwise from `b`. */
  function Both(a: Filters, b: Filters): Filters {
    Filters(
      if a.search.Some? then a.search else b.search,
      if a.departmentId.Some? then a.departmentId else b.departmentId,
      if a.position.Some? then a.position else b.position,
      if a.isActive.Some? then a.isActive else b.isActive,
      if a.admissionDateFrom.Some? then a.admissionDateFrom else b.admissionDateFrom,
      if a.admissionDateTo.Some? then a.admissionDateTo else b.admissionDateTo)
  }

  /** No filtering key is present in both records. */
  predicate Disjoint(a: Filters, b: Filters) {
    && (a.departmentId.None? || b.departmentId.None?)
    && (a.position.None? || b.position.None?)
    && (a.isActive.None? || b.isActive.None?)
    && (a.admissionDateFrom.None? || b.admissionDateFrom.None?)
    && (a.admissionDateTo.None? || b.admissionDateTo.None?)
  }

  /** Filter records `A` and `B` on different keys, combined into `{A, B}`,
      list exactly the records listed by `A` alone and by `B` alone. */
  lemma FiltersIntersect(store: seq<Employee>, query: string, a: Filters, b: Filters)
    requires Disjoint(a, b)
    ensures forall e :: e in FetchEmployees(store, query, Both(a, b)) <==>
      e in FetchEmployees(store, query, a) && e in FetchEmployees(store, query, b)
  {
    forall e | e in store
      ensures Matches(query, Both(a, b), e) == (Matches(query, a, e) && Matches(query, b, e))
    {
    }
  }
}
