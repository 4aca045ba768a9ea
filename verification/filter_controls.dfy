/** The two filter panels that turn the raw text of their controls into the
    filter record of the list page: `EmployeeFilter` (all six keys) and
    `FilterPanel` (position and department only). An empty control becomes
    an absent key. */
module FilterControls {
  import opened Wrappers
  import opened Numbers
  import opened Types
  import opened EmployeePage

  /** The state of the status select: `''` (any) or a boolean. */
  datatype Status = AnyStatus | Is(active: bool)

  /** The select's `onChange`: `''` is any status, `'true'` is active and
      every other value is inactive. */
  function StatusFromSelect(v: string): (r: Status)
    ensures r == AnyStatus <==> v == ""
    ensures r == Is(true) <==> v == "true"
    ensures r == Is(false) <==> v != "" && v != "true"
  {
    if v == "" then AnyStatus else Is(v == "true")
  }

  /** The select's displayed `value`. */
  function StatusToSelect(s: Status): (v: string)
    ensures v in {"", "true", "false"}
  {
    match s
    case AnyStatus => ""
    case Is(b) => if b then "true" else "false"
  }

  /** Showing a state and reading it back gives the same state, and each option reads back as itself. */
  lemma StatusSelectRoundTrip(s: Status, v: string)
    ensures StatusFromSelect(StatusToSelect(s)) == s
    ensures v in {"", "true", "false"} ==> StatusToSelect(StatusFromSelect(v)) == v
  {
  }

  /** `s || undefined` for a string. */
  function NonEmpty(s: string): (r: Option<string>)
    ensures r.None? <==> s == ""
    ensures r.Some? ==> r.value == s
  {
    if s == "" then None else Some(s)
  }

  /** The raw state of `EmployeeFilter`'s controls. */
  datatype Controls = Controls(
    search: string,
    departmentId: string,
    position: string,
    isActive: Status,
    admissionDateFrom: string,
    admissionDateTo: string)

  const EmptyControls := Controls("", "", "", AnyStatus, "", "")

  /** `EmployeeFilter`'s `handleSubmit`: each empty text control becomes an
      absent key, the department text becomes a number, and the status
      becomes a boolean unless it is any status (`false` is kept). */
  function SubmitFilter(c: Controls): (r: Filters)
    ensures r.search.None? <==> c.search == ""
    ensures r.search.Some? ==> r.search.value == c.search
    ensures r.departmentId.None? <==> c.departmentId == ""
    ensures r.departmentId.Some? ==> r.departmentId.value == NumberOf(c.departmentId)
    ensures r.position.None? <==> c.position == ""
    ensures r.position.Some? ==> r.position.value == c.position
    ensures r.isActive.None? <==> c.isActive == AnyStatus
    ensures r.isActive.Some? ==> c.isActive == Is(r.isActive.value)
    ensures r.admissionDateFrom.None? <==> c.admissionDateFrom == ""
    ensures r.admissionDateFrom.Some? ==> r.admissionDateFrom.value == c.admissionDateFrom
    ensures r.admissionDateTo.None? <==> c.admissionDateTo == ""
    ensures r.admissionDateTo.Some? ==> r.admissionDateTo.value == c.admissionDateTo
  {
    Filters(
      NonEmpty(c.search),
      NumberUnlessEmpty(c.departmentId),
      NonEmpty(c.position),
      match c.isActive case AnyStatus => None case Is(b) => Some(b),
      NonEmpty(c.admissionDateFrom),
      NonEmpty(c.admissionDateTo))
  }

  /** `FilterPanel`'s `handleFilter`: a record with only `position` and `departmentId`. */
  function PanelFilter(position: string, departmentId: string): (r: Filters)
    ensures r.search.None? && r.isActive.None? && r.admissionDateFrom.None? && r.admissionDateTo.None?
    ensures r.position.None? <==> position == ""
    ensures r.position.Some? ==> r.position.value == position
    ensures r.departmentId.None? <==> departmentId == ""
    ensures r.departmentId.Some? ==> r.departmentId.value == NumberOf(departmentId)
  {
    Filters(None, NumberUnlessEmpty(departmentId), NonEmpty(position), None, None, None)
  }

  // ---------------------------------------------------------------------------
  // The panels composed with the list query

  /** All-empty controls give the empty filter record, which narrows nothing. */
  lemma EmptyControlsFilterNothing(store: seq<Employee>, query: string)
    ensures SubmitFilter(EmptyControls) == NoFilters
    ensures PanelFilter("", "") == NoFilters
    ensures FetchEmployees(store, query, SubmitFilter(EmptyControls)) == FetchEmployees(store, query, NoFilters)
  {
  }

  /** Every key a panel produces is applied by the query: a produced string
      is never `''`, so "present" and "applied" coincide. */
  lemma SubmittedKeysAreApplied(c: Controls)
    ensures Applied(SubmitFilter(c).position) <==> c.position != ""
    ensures Applied(SubmitFilter(c).admissionDateFrom) <==> c.admissionDateFrom != ""
    ensures Applied(SubmitFilter(c).admissionDateTo) <==> c.admissionDateTo != ""
  {
  }

  /** The department text `'0'` becomes the number zero, and "inactive" becomes `false`;
      both then narrow the list. */
  lemma FalsyControlsNarrow(store: seq<Employee>, query: string, c: Controls)
    requires c.departmentId == "0" && c.isActive == Is(false)
    ensures SubmitFilter(c).departmentId == Some(FromInt(0))
    ensures SubmitFilter(c).isActive == Some(false)
    ensures forall e :: e in FetchEmployees(store, query, SubmitFilter(c)) ==>
      !e.isActive && e.department.Some? && e.department.value.id == 0
  {
    assert NumberOf("0") == Dec(0, 0) by {
      assert "0"[0] != '-';
      assert ParseUnsigned("0") == Some(Dec(0, 0)) by {
        assert DotIndex("0") == 1;
        assert "0"[..1] == "0";
      }
    }
    FalsyValuesNarrow(store, query, SubmitFilter(c));
  }
}
