# Employee records: a Dafny model

This project models the record logic of a React employee-registration
application. The core is an in-memory list of employees with lookup,
a view projection, partial-merge update, create and delete. Around it sit:

- the list page's query (free text plus a filter record) and its two list
  mutations, delete and status toggle;
- a browser-storage variant of the list;
- the two filter panels that normalise raw control text into a filter record;
- the validators and payload builders of the five employee forms and pages;
- the label formatters.

The model is functional. The module-level array becomes a value, and every
mutation returns the new list together with its result. React state becomes
a form value that each handler maps to a new form value. JavaScript values
are modelled explicitly:

- `undefined`/`null` are `Option`;
- an object spread over a partial payload is a `Patch` per field, and the
  department id is three-way (absent, `null`, a number);
- numbers are `Dec(units, places)` (value `units / 10^places`) or `NaN`,
  with JavaScript truthiness;
- `find`/`findIndex` return the first match.

Modules follow the source files:

| module | models |
|---|---|
| `Wrappers`, `Seqs`, `Text`, `Numbers`, `Dates` | `Option`, `filter`, string operations (`toLowerCase`, `includes`, `trim`, `slice`), `Number`/`parseFloat`/`parseInt`/`toString`, date comparison |
| `Types` | `src/types/employee.ts`, `src/types/position.ts`, `src/lib/mock/departments.ts` |
| `Store` | `src/lib/mock/employees.ts` |
| `EmployeePage` | `src/pages/employee/EmployeePage.tsx` |
| `MockData` | `src/lib/mock/mockData.ts` |
| `FilterControls` | `src/components/employee/EmployeeFilter.tsx`, `src/components/employee/FilterPanel.tsx` |
| `Validation` | the error map shared by the three employee forms |
| `CreateForm`, `EditForm`, `EmployeeForm` | `EmployeeCreateForm.tsx`, `EmployeeEditForm.tsx`, `EmployeeForm.tsx` |
| `EditEmployeePage`, `CreateEmployeePage` | the edit and create pages |
| `Formatters`, `FormatterExamples` | `src/utils/formatters.ts` (`formatEnum`), `src/utils/formatEnum.ts`, and the documented `formatEnum` examples |

The forms reach the store through a React context whose `addEmployee` and
`updateEmployee` call `createMockEmployee` and `updateMockEmployee`
(`src/context/EmployeeProvider.tsx`); the model calls the store directly.

Behaviour the model follows as the code is written, where a reader might
expect otherwise:

- `createMockEmployee` takes one more than the largest *live* id. Deleting
  the newest record and creating another reuses its id
  (`Store.CreateAfterDeleteReusesId`).
- `updateMockEmployee` always overwrites `departmentId` with the payload's
  value. It replaces the `department` snapshot only when that value is
  truthy and names a catalog entry. An id of `0`, `null`, an absent key or
  an unknown id keeps the old snapshot, so `department` and `departmentId`
  can disagree (`Store.UnresolvedDepartmentKeepsSnapshot`).
- The list page's `search` key has no branch in the query and is ignored.
  The department filter compares against the `department` snapshot, not
  against `departmentId`.
- The store's delete removes the first record with the id. The storage
  variant's delete removes every record with the id.
- `EmployeeCreateForm` accepts a negative salary; `EmployeeForm` rejects it.
- `EditEmployeePage` loads `departmentId` from the department snapshot, so
  saving an unchanged page realigns `departmentId` with the snapshot.
- A missing stored list reads as `[]`. A malformed stored list would make
  `JSON.parse` throw; the model stores lists, not JSON text, so that case
  does not arise.

## Model

| member | source | states |
|---|---|---|
| Types.FindDepartment | src/lib/mock/departments.ts:5-9 | a found department is a catalog entry whose id equals the number; none is found exactly when no catalog id equals it |
| Types.FindDepartmentById | src/lib/mock/departments.ts:5-9 | catalog ids are distinct, so looking up an entry's own id finds that entry |
| Store.GetEmployeeById | src/lib/mock/employees.ts:41-43 | none exactly when no record has the id; otherwise the record at the first index holding the id |
| Store.GetAllMockEmployees | src/lib/mock/employees.ts:48-55 | same length and order; each entry keeps the record and adds `departmentName` (the department's name, or none exactly when there is no department), `hiredDate` = `admissionDate` and `active` = `isActive` |
| Store.Merge | src/lib/mock/employees.ts:67-75 | every field the payload carries is overwritten and every other field and the id are kept; the department is the catalog entry of a truthy, known payload id and the previous snapshot in every other case |
| Store.UpdateMockEmployee | src/lib/mock/employees.ts:60-78 | returns true exactly when some record has the id; then only the first such record changes, to its merge with the payload, and the length is kept; otherwise the list is unchanged |
| Store.NextId | src/lib/mock/employees.ts:84-87 | 1 for an empty list; otherwise one more than some live id and greater than every live id |
| Store.CreateMockEmployee | src/lib/mock/employees.ts:83-100 | the old list plus exactly one record at the end; its id exceeds every live id; its department is the catalog entry of its `departmentId` (none without one); every other field comes from the draft |
| Store.DeleteMockEmployee | src/lib/mock/employees.ts:105-111 | returns true exactly when some record has the id; then exactly the first such record is removed and the others keep their order; otherwise the list is unchanged |
| Store.CreateKeepsIdsUnique | src/lib/mock/employees.ts:83-100 | a create keeps the ids of a list unique |
| Store.UpdateKeepsIdsUnique | src/lib/mock/employees.ts:60-78 | an update keeps the ids of a list unique |
| Store.DeleteRemovesTheId | src/lib/mock/employees.ts:105-111 | with unique ids, a delete keeps them unique and leaves no record with the id, so a lookup finds none |
| Store.DeleteUndoesCreate | src/lib/mock/employees.ts:83-111 | deleting the record just created succeeds and gives back the list as it was |
| Store.UpdateThenGet | src/lib/mock/employees.ts:41-78 | looking up an updated id returns the previous record merged with the payload |
| Store.EmptyUpdateChangesNothing | src/lib/mock/employees.ts:67-75 | the payload `{}` leaves the list unchanged, the department snapshot included |
| Store.UnresolvedDepartmentKeepsSnapshot | src/lib/mock/employees.ts:67-75 | a payload id of 0, `null`, absent or unknown keeps the old department while `departmentId` takes the payload value |
| Store.CreateAfterDeleteReusesId | src/lib/mock/employees.ts:84-87 | on the seed list, deleting id 2 and creating a record hands out id 2 again |
| Seqs.FilterFuse | src/pages/employee/EmployeePage.tsx:39-53 | filtering by one predicate and then another equals one filter by their conjunction |
| Seqs.Filter | src/pages/employee/EmployeePage.tsx:31-50 | an order-preserving subsequence holding exactly the elements that pass the predicate |
| Seqs.FilterCounts | src/lib/mock/mockData.ts:15-17 | every copy of each element that passes is kept and no copy of the others |
| Text.TrimEmptyIffBlank | src/components/employee/EmployeeForm.tsx:35-37 | `trim()` gives the empty string exactly when every character is JavaScript white space |
| Text.ContainsAtOffset | src/pages/employee/EmployeePage.tsx:31-36 | `includes` holds exactly when the query occurs at some offset |
| Text.Contains | src/pages/employee/EmployeePage.tsx:32-35 | the empty query is contained in every string, and a contained query is no longer than the string |
| Text.Lower | src/pages/employee/EmployeePage.tsx:30-33 | same length, each character mapped to lower case |
| Text.Trim | src/components/employee/EmployeeForm.tsx:35-37 | a piece of the string, found at some offset, that neither starts nor ends with white space |
| Text.TrimRemovesOnlyEnds | src/components/employee/EmployeeForm.tsx:35-37 | `trim()` keeps the piece at some offset with only white space before and after it, so exactly the white space at the two ends is removed |
| Dates.BoundsMirror | src/pages/employee/EmployeePage.tsx:47-50 | the lower and upper date bounds are mirror images; a date is on or after itself exactly when it is a valid date |
| Dates.OnOrAfter | src/pages/employee/EmployeePage.tsx:48 | holds exactly when both texts are valid dates and the bound falls no later than the record's date by year, month, then day |
| Dates.OnOrBefore | src/pages/employee/EmployeePage.tsx:50 | holds exactly when both texts are valid dates and the record's date falls no later than the bound by year, month, then day |
| Numbers.ParseFloat | src/components/employee/EmployeeEditForm.tsx:77 | `parseFloat('')` is NaN; any other text reads as `Number` does |
| Numbers.ParseInt | src/pages/employee/create/CreateEmployeePage.tsx:78 | NaN exactly when `parseFloat` gives NaN; otherwise the integer of the same sign as the `parseFloat` value whose magnitude is the whole part of that value's magnitude (truncation toward zero) |
| Numbers.ParseIntRoundTrip | src/pages/employee/create/CreateEmployeePage.tsx:78 | `parseInt` reads back the decimal text of every integer, as the department option values are |
| Numbers.NumberOf | src/components/employee/EmployeeCreateForm.tsx:44 | the result is canonical; `''` reads as 0; NaN exactly for a non-empty text that is not a literal `-?D+(.D+)?` (`Numbers.IsDecimalLiteral`); a run of digits, with or without a leading `-`, reads as that integer |
| Numbers.ParseUnsigned | src/components/employee/EmployeeEditForm.tsx:61 | a value exactly for the texts of unsigned literals `D+` or `D+.D+`: digits and at most one point, with a digit at both ends |
| Numbers.FractionValue | src/components/employee/EmployeeForm.tsx:42 | `Number(w + '.' + f)` for digit runs is the decimal `w.f`: the units scaled back by the dropped trailing zeros equal `w * 10^|f| + f` |
| Numbers.NegativeFractionValue | src/components/employee/EmployeeForm.tsx:42 | `Number('-' + w + '.' + f)` is the negation of `w.f`, in the same terms |
| Numbers.ToString | src/components/employee/EmployeeEditForm.tsx:39-40 | `"NaN"` exactly for NaN; otherwise the text starts with `-` exactly when the number is negative |
| Numbers.ToStringRoundTrip | src/components/employee/EmployeeEditForm.tsx:39-40 | reading `n.toString()` back with `Number` gives `n` |
| EmployeePage.FetchEmployees | src/pages/employee/EmployeePage.tsx:26-56 | the sequence of passes equals one filter of the store by the conjunction of every applied test; the result is an order-preserving subsequence, and a record is listed exactly when it is in the store and passes every applied test |
| EmployeePage.SearchKeyIgnored | src/pages/employee/EmployeePage.tsx:39-53 | the `search` key of the filter record never changes the result |
| EmployeePage.NoFilterListsAll | src/pages/employee/EmployeePage.tsx:27-37 | an empty query with the record `{}` lists every record in store order |
| EmployeePage.FalsyValuesNarrow | src/pages/employee/EmployeePage.tsx:40-44 | `isActive: false` lists only inactive records and `departmentId: 0` only records whose snapshot has id 0 |
| EmployeePage.FiltersIntersect | src/pages/employee/EmployeePage.tsx:39-53 | two filter records with no key in common, combined key by key into one record, list exactly the records both list |
| EmployeePage.HandleDeleteConfirmed | src/pages/employee/EmployeePage.tsx:65-73 | with a selection whose id is present, exactly the first record with that id is removed; otherwise the list is unchanged |
| EmployeePage.ToggleActiveStatus | src/pages/employee/EmployeePage.tsx:75-81 | only the first record with the row's id changes, and only in `isActive`, which is negated; the list is unchanged when the id is absent |
| EmployeePage.ToggleTwiceRestores | src/pages/employee/EmployeePage.tsx:75-81 | toggling the same row twice restores the list |
| MockData.GetMockEmployees | src/lib/mock/mockData.ts:7-11 | the stored list when there is a window and a stored list; `[]` otherwise |
| MockData.DeleteMockEmployee | src/lib/mock/mockData.ts:13-18 | without a window nothing changes; otherwise a list is written back that is an order-preserving subsequence of the read list and holds every copy of each record with another id and none with the id |
| MockData.DeleteRemovesEveryMatch | src/lib/mock/mockData.ts:15-17 | after a delete no stored record has the id |
| MockData.DeleteAbsentKeepsList | src/lib/mock/mockData.ts:15-17 | deleting an id no stored record has leaves the stored list as it was |
| MockData.DeleteIdempotent | src/lib/mock/mockData.ts:13-18 | deleting the same id twice equals deleting it once |
| FilterControls.StatusFromSelect | src/components/employee/EmployeeFilter.tsx:88-91 | `''` is any status, `'true'` is active, every other value is inactive |
| FilterControls.StatusToSelect | src/components/employee/EmployeeFilter.tsx:87 | the select shows one of `''`, `'true'`, `'false'` |
| FilterControls.StatusSelectRoundTrip | src/components/employee/EmployeeFilter.tsx:87-91 | showing a status and reading it back gives the same status; each option reads back as itself |
| Numbers.NumberUnlessEmpty | src/components/employee/EmployeeFilter.tsx:33 | absent exactly for the empty string; otherwise `Number` of the text, `'0'` included; the edit page's department select converts its value the same way |
| FilterControls.SubmitFilter | src/components/employee/EmployeeFilter.tsx:28-39 | each key is absent exactly when its control is empty (any status for the select), and otherwise holds the control's text, its number, or its boolean (`false` kept) |
| FilterControls.PanelFilter | src/components/employee/FilterPanel.tsx:14-19 | only `position` and `departmentId` can be present, each absent exactly when its control is empty |
| FilterControls.EmptyControlsFilterNothing | src/components/employee/EmployeeFilter.tsx:28-39 | all-empty controls give the record `{}`, which lists what no filter lists |
| FilterControls.SubmittedKeysAreApplied | src/components/employee/EmployeeFilter.tsx:32-37 | a text key the panel produces is applied by the query exactly when its control is non-empty |
| FilterControls.FalsyControlsNarrow | src/components/employee/EmployeeFilter.tsx:30-35 | department text `'0'` and an inactive status become `0` and `false`, and together list only inactive records of department 0 |
| Validation.Collect | src/components/employee/EmployeeCreateForm.tsx:37-47 | one entry per failing check with that check's fixed message, and never an entry for phone, address or `isActive` |
| Validation.NoErrorsIffAllPass | src/components/employee/EmployeeForm.tsx:47-48 | the error map is empty exactly when every check passes |
| Validation.AllFailing | src/components/employee/EmployeeCreateForm.tsx:39-45 | when every check fails the map has exactly the seven required keys |
| CreateForm.HandleChange | src/components/employee/EmployeeCreateForm.tsx:32-35 | the department control stores `Number(value)`; any other control stores its raw text; every other field is kept |
| CreateForm.Validate | src/components/employee/EmployeeCreateForm.tsx:37-47 | a required text field is in error exactly when it is empty (no trimming); the department exactly when it is falsy; the salary exactly when it is empty or not a number |
| CreateForm.DraftOf | src/components/employee/EmployeeCreateForm.tsx:57-68 | text fields copied; `departmentId` present exactly when the form's is truthy; salary read as a number; active |
| CreateForm.Submit | src/components/employee/EmployeeCreateForm.tsx:49-71 | the errors are the validation's; the store changes exactly when there are none, by one appended record |
| CreateForm.EmptyFormSevenErrors | src/components/employee/EmployeeCreateForm.tsx:18-47 | the untouched form has exactly the seven required keys in error |
| CreateForm.BlankDepartmentStillRequired | src/components/employee/EmployeeCreateForm.tsx:33-43 | choosing the blank department option stores 0, which is still an error |
| CreateForm.NegativeSalaryAccepted | src/components/employee/EmployeeCreateForm.tsx:44 | the salary `-1` passes validation |
| CreateForm.AcceptedFormCreatesActiveRecord | src/components/employee/EmployeeCreateForm.tsx:52-68 | an accepted form appends an active record with a numeric salary, a truthy department id, that id's catalog department and a fresh id |
| EditForm.FromEmployee | src/components/employee/EmployeeEditForm.tsx:32-42 | missing phone and address become `''`; `departmentId` is `''` exactly when absent and otherwise reads back as the id; the salary text reads back as the salary; the date is its first ten characters |
| EditForm.HandleChange | src/components/employee/EmployeeEditForm.tsx:47-50 | the named field takes the value and every other field is kept |
| EditForm.Validate | src/components/employee/EmployeeEditForm.tsx:55-62 | the six required strings are in error exactly when empty; the salary exactly when empty or not a number; phone and address never |
| EditForm.PayloadOf | src/components/employee/EmployeeEditForm.tsx:69-79 | nine fields written, `isActive` absent; the department id read with `Number` and the salary with `parseFloat` |
| EditForm.Submit | src/components/employee/EmployeeEditForm.tsx:52-88 | the store is updated only without errors and without a throw; the alert appears exactly on a throw; `onUpdated` runs exactly when the update succeeds and it was passed; loading ends false |
| EditForm.EditKeepsActiveFlags | src/components/employee/EmployeeEditForm.tsx:69-79 | a submit never changes any record's `isActive` and keeps the list's length |
| EditForm.UnchangedFormRoundTrip | src/components/employee/EmployeeEditForm.tsx:32-79 | submitting the initial form unchanged writes the record back, except that the department is looked up again from its id |
| EmployeeForm.SalaryMessage | src/components/employee/EmployeeForm.tsx:40-44 | "required" exactly for the empty string; otherwise no message exactly when the text is a number that is not negative |
| EmployeeForm.ValidationErrors | src/components/employee/EmployeeForm.tsx:32-46 | name, CPF and e-mail are in error exactly when blank after trimming; position, department and date exactly when empty; the salary with its message; phone and address never |
| EmployeeForm.ToggleActive | src/components/employee/EmployeeForm.tsx:59-61 | `isActive` is negated and nothing else changes |
| EmployeeForm.DraftOf | src/components/employee/EmployeeForm.tsx:67-72 | the form spread with the department id and salary read with `Number` |
| EmployeeForm.Submit | src/components/employee/EmployeeForm.tsx:63-75 | an invalid form changes nothing; a valid one is appended to the store and the form returns to its initial state |
| EmployeeForm.BlankNameRejected | src/components/employee/EmployeeForm.tsx:35-37 | name, CPF and e-mail are rejected exactly when made only of white space |
| EmployeeForm.ZeroSalaryAccepted | src/components/employee/EmployeeForm.tsx:40-44 | the salary `0` is accepted |
| EmployeeForm.ToggleTwiceRestores | src/components/employee/EmployeeForm.tsx:26-61 | the form starts active, and two checkbox changes restore it |
| EmployeeForm.AcceptedFormAddsRecord | src/components/employee/EmployeeForm.tsx:63-75 | an accepted form appends a record with a non-negative numeric salary, the checkbox state and a fresh id |
| EditEmployeePage.IdFromParam | src/pages/employee/edit/EditEmployeePage.tsx:26-27 | the integer the route parameter equals under `Number`, and none when it equals no integer |
| EditEmployeePage.FromEmployee | src/pages/employee/edit/EditEmployeePage.tsx:35-47 | missing phone and address become `''`; `departmentId` is the snapshot's id, or none without a snapshot; the date is its first ten characters |
| EditEmployeePage.Load | src/pages/employee/edit/EditEmployeePage.tsx:25-53 | no form and the single not-found error exactly when no record has the parameter's id; otherwise the projection of the first such record |
| EditEmployeePage.HandleChange | src/pages/employee/edit/EditEmployeePage.tsx:55-58 | each control, text input, select, salary or checkbox, overwrites its own key with its value, and every other key and the id are kept |
| EditEmployeePage.PayloadOf | src/pages/employee/edit/EditEmployeePage.tsx:64 | every field of the page's copy is written |
| EditEmployeePage.Submit | src/pages/employee/edit/EditEmployeePage.tsx:60-70 | no error exactly when the record still exists; otherwise the save error and an unchanged store |
| EditEmployeePage.NoneChoiceKeepsDepartment | src/pages/employee/edit/EditEmployeePage.tsx:138-141 | choosing "Nenhum" and saving clears `departmentId` but keeps the department snapshot |
| EditEmployeePage.SaveRealignsDepartmentId | src/pages/employee/edit/EditEmployeePage.tsx:43 | saving the loaded copy sets `departmentId` to the snapshot's id, or clears both without a snapshot |
| EditEmployeePage.UnchangedSaveRoundTrip | src/pages/employee/edit/EditEmployeePage.tsx:35-64 | for a consistent record, saving the loaded copy unchanged writes it back as it was |
| EditEmployeePage.SaveOfMissingRecordFails | src/pages/employee/edit/EditEmployeePage.tsx:64-69 | saving a copy whose record is gone reports the error and changes nothing |
| CreateEmployeePage.HandleChange | src/pages/employee/create/CreateEmployeePage.tsx:50-56 | the checkbox stores `checked`; each text control or select stores its value under its own key, and every other key is kept |
| CreateEmployeePage.DraftOf | src/pages/employee/create/CreateEmployeePage.tsx:72-85 | trimmed name and CPF; empty e-mail, phone and address; `parseFloat` salary and `parseInt` department id; the clock's date |
| CreateEmployeePage.Submit | src/pages/employee/create/CreateEmployeePage.tsx:58-88 | a missing required field shows the alert and changes nothing; otherwise the draft is created |
| CreateEmployeePage.CreatedRecordShape | src/pages/employee/create/CreateEmployeePage.tsx:72-85 | a created record has a non-empty name and CPF without white space at either end, empty contact fields, the catalog department of its parsed id and a fresh id |
| CreateEmployeePage.WhitespaceOnlyRefused | src/pages/employee/create/CreateEmployeePage.tsx:61-70 | a name made only of white space is refused |
| Formatters.SpaceBeforeCapitals | src/utils/formatters.ts:20 | one extra character per capital; the first character is kept or preceded by a space when it is a capital; the last character is kept |
| Formatters.FormatEnum | src/utils/formatters.ts:18-23 | no white space at either end of the result, which is empty exactly when the input is only white space |
| Formatters.SpacesOnlyInserted | src/utils/formatters.ts:20 | for letters-only input, removing the spaces gives back the input |
| Formatters.TrimmedSpaced | src/utils/formatters.ts:20-21 | for letters-only input, trimming removes exactly the space inserted before an initial capital |
| Formatters.FormatEnumOfLetters | src/utils/formatters.ts:18-23 | for letters-only input the result is longer by the number of capitals after the first position, and without its spaces it is the input with its first letter upper-cased |
| Formatters.FormattedFromSpacing | src/utils/formatters.ts:18-23 | for letters-only input, the result is the trimmed spacing with its first character upper-cased |
| FormatterExamples.LowerCaseExample | src/utils/formatters.test.ts:31 | `'manager'` becomes `'Manager'` |
| FormatterExamples.OneWordExample | src/utils/formatters.test.ts:25 | `'Developer'` stays `'Developer'` |
| FormatterExamples.CamelCaseExample | src/utils/formatters.test.ts:27 | `'juniorDev'` becomes `'Junior Dev'` |
| FormatterExamples.PascalCaseExample | src/utils/formatters.test.ts:26 | `'SeniorDeveloper'` becomes `'Senior Developer'` |
| Formatters.FormatGender | src/utils/formatEnum.ts:3-10 | Male is `'Masculino'`, Female `'Feminino'`, Other `'Outro'`, and every other input `'Desconhecido'` |
| Formatters.FormatPosition | src/utils/formatEnum.ts:12-18 | Manager is `'Gerente'`, Developer `'Desenvolvedor'`, and every other input `'Outro'` |
| Formatters.LabelsDistinguishKnownValues | src/utils/formatEnum.ts:3-18 | known inputs get distinct labels, and `'Analyst'` is `'Outro'` |

## Left out

- Rendering, routing, navigation, the loading flags of the pages, the
  department and position catalogs fetched for the selects, and the React
  context wrappers: they hold no record logic.
- `formatDate` and `formatCurrency`: they use locale formatting and JavaScript `Date`.
- The clock: `CreateEmployeePage` takes the admission date as the parameter
  `now`. The `id: Date.now()` it passes is replaced by the store and is not modelled.
- Storage I/O: the browser's storage slot is an `Option<seq<Employee>>`.
  JSON encoding and a malformed stored value are not modelled.
- Numbers.NumberOf: reads only an optional `-` followed by digits with an
  optional fraction (the empty string is 0). Leading or trailing white
  space, `+`, exponents, hexadecimal, `Infinity` and the prefix parsing of
  `parseFloat`/`parseInt` are not modelled; such texts read as NaN. A fraction
  needs digits on both sides of the point: `"5."` and `".5"` read as NaN here,
  where JavaScript's `Number` reads them as 5 and 0.5.
- Numbers.ParseFloat: the prefix parsing of `parseFloat` is not modelled:
  it reads a text exactly as `Number` does (except `''`), so a salary such
  as `"12abc"` reads as NaN here where JavaScript reads 12.
- Numbers.ParseInt: built on `Numbers.ParseFloat`, so it has the same
  prefix-parsing gap: `parseInt("12abc")` is NaN here, 12 in JavaScript.
- Numbers.Dec: numbers are exact decimals, not IEEE-754 doubles. No
  rounding to 53 bits is modelled, so a text such as `"9007199254740993"`
  or `"0.10000000000000000001"` keeps every digit where JavaScript rounds
  it, and `EditEmployeePage.IdFromParam` may then miss a record JavaScript
  would find.
- Numbers.ToString: positional notation only; the exponent notation
  JavaScript uses for very large or very small numbers is not modelled.
- Dates.OnOrAfter: compares only dates written `YYYY-MM-DD` with a month
  in 1..12 and a day in 1..31; any other text behaves as an invalid date.
  Time zones and full timestamps are not modelled. Dates.OnOrBefore likewise.
  As a consequence, a record created on `CreateEmployeePage`, whose
  admission date is the full timestamp `new Date().toISOString()`, never
  passes a date bound here, while the application compares it.
- Text.Lower: ASCII case mapping only, as is `UpperChar` used by
  `Formatters.FormatEnum`.
- EditForm.Submit: the exception `updateEmployee` may throw is the Boolean
  `updaterThrows`; the update is taken to throw before changing the store.
- EditEmployeePage.HandleChange: the salary input's `parseFloat` is applied
  by the caller, which passes the number.
- Types.Employee: `position` is a string, because the source's `as Position`
  casts are unchecked. The view-only fields `departmentName`, `hiredDate`
  and `active` appear only in `Store.EmployeeView`.
