/** The persisted list of `src/lib/mock/mockData.ts`. The browser's storage
    slot is `Option<seq<Employee>>` (`None`: nothing stored under the key);
    a page rendered without a window has no storage at all. */
module MockData {
  import opened Wrappers
  import opened Types
  import opened Seqs

  datatype Browser = NoWindow | Window(slot: Option<seq<Employee>>)

  /** `getMockEmployees`: the stored list, or `[]` without a window or without a stored list. */
  function GetMockEmployees(b: Browser): (r: seq<Employee>)
    ensures b.Window? && b.slot.Some? ==> r == b.slot.value
    ensures b.NoWindow? || b.slot.None? ==> r == []
  {
    match b
    case NoWindow => []
    case Window(slot) => slot.GetOr([])
  }

  function Without(id: int): Employee -> bool {
    (e: Employee) => e.id != id
  }

  /** `deleteMockEmployee`: writes back the read list without any record of
      the id, replacing what was stored; without a window nothing happens. */
  function DeleteMockEmployee(b: Browser, id: int): (r: Browser)
    ensures b.NoWindow? ==> r == b
    ensures b.Window? ==> r.Window? && r.slot.Some?
    ensures b.Window? ==> IsSubsequence(r.slot.value, GetMockEmployees(b))
    ensures b.Window? ==> forall e :: e in r.slot.value <==> e in GetMockEmployees(b) && e.id != id
    ensures b.Window? ==> forall e ::
              multiset(r.slot.value)[e] == if e.id != id then multiset(GetMockEmployees(b))[e] else 0
  {
    match b
    case NoWindow => NoWindow
    case Window(_) =>
      FilterCounts(GetMockEmployees(b), Without(id));
      Window(Some(Filter(GetMockEmployees(b), Without(id))))
  }

  /** After a delete no stored record has the id. */
  lemma DeleteRemovesEveryMatch(b: Browser, id: int)
    ensures forall e :: e in GetMockEmployees(DeleteMockEmployee(b, id)) ==> e.id != id
  {
  }

  /** Deleting an id no stored record has leaves a stored list as it was. */
  lemma DeleteAbsentKeepsList(b: Browser, id: int)
    requires b.Window? && b.slot.Some?
    requires forall i :: 0 <= i < |b.slot.value| ==> b.slot.value[i].id != id
    ensures DeleteMockEmployee(b, id) == b
  {
    FilterKeepsAll(b.slot.value, Without(id));
  }

  /** Deleting the same id twice is deleting it once. */
  lemma DeleteIdempotent(b: Browser, id: int)
    ensures DeleteMockEmployee(DeleteMockEmployee(b, id), id) == DeleteMockEmployee(b, id)
  {
    if b.Window? {
      var once := Filter(GetMockEmployees(b), Without(id));
      FilterKeepsAll(once, Without(id));
    }
  }
}
