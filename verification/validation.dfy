/** The error map shared by the three employee forms: field keys mapped to
    the fixed Portuguese messages, filled by seven checks in the forms' order
    (name, CPF, e-mail, position, department, salary, admission date). */
module Validation {
  import opened Wrappers
  import opened Types

  type Errors = map<Field, string>

  const NameRequired := "Nome é obrigatório."
  const CpfRequired := "CPF é obrigatório."
  const EmailRequired := "Email é obrigatório."
  const PositionRequired := "Cargo é obrigatório."
  const DepartmentRequired := "Departamento é obrigatório."
  const AdmissionRequired := "Data de admissão é obrigatória."
  const SalaryInvalid := "Salário inválido."
  const SalaryRequired := "Salário é obrigatório."
  const SalaryNotPositive := "Salário deve ser um número positivo."

  /** Every key of the forms. */
  const AllFields: set<Field> :=
    {Name, Cpf, Email, Phone, Address, PositionField, DepartmentId, Salary, AdmissionDate, IsActive}

  lemma EveryFieldListed(k: Field)
    ensures k in AllFields
  {
  }

  /** The outcome of the seven checks: a flag per required field saying that
      it fails, and the salary message when the salary check fails (the forms
      word it differently). */
  datatype Checks = Checks(name: bool, cpf: bool, email: bool, position: bool, department: bool,
                           salary: Option<string>, admission: bool)
  {
    predicate Fails(k: Field) {
      match k
      case Name => name
      case Cpf => cpf
      case Email => email
      case PositionField => position
      case DepartmentId => department
      case Salary => salary.Some?
      case AdmissionDate => admission
      case _ => false
    }

    function Message(k: Field): string {
      match k
      case Name => NameRequired
      case Cpf => CpfRequired
      case Email => EmailRequired
      case PositionField => PositionRequired
      case DepartmentId => DepartmentRequired
      case Salary => salary.GetOr("")
      case _ => AdmissionRequired
    }
  }

  /** The error map: one entry, with its message, per failing check. */
  function Collect(c: Checks): (r: Errors)
    ensures forall k :: k in r <==> c.Fails(k)
    ensures Name in r <==> c.name
    ensures Cpf in r <==> c.cpf
    ensures Email in r <==> c.email
    ensures PositionField in r <==> c.position
    ensures DepartmentId in r <==> c.department
    ensures Salary in r <==> c.salary.Some?
    ensures AdmissionDate in r <==> c.admission
    ensures Phone !in r && Address !in r && IsActive !in r
    ensures Name in r ==> r[Name] == NameRequired
    ensures Cpf in r ==> r[Cpf] == CpfRequired
    ensures Email in r ==> r[Email] == EmailRequired
    ensures PositionField in r ==> r[PositionField] == PositionRequired
    ensures DepartmentId in r ==> r[DepartmentId] == DepartmentRequired
    ensures Salary in r ==> c.salary.Some? && r[Salary] == c.salary.value
    ensures AdmissionDate in r ==> r[AdmissionDate] == AdmissionRequired
  {
    var r := Entries(c);
    EntriesKeys(c);
    EntriesMessages(c);
    r
  }

  /** The map of every failing check to its message. */
  function Entries(c: Checks): Errors {
    map k | k in AllFields && c.Fails(k) :: c.Message(k)
  }

  lemma EntriesKeys(c: Checks)
    ensures forall k :: k in Entries(c) <==> c.Fails(k)
    ensures Name in Entries(c) <==> c.name
    ensures Cpf in Entries(c) <==> c.cpf
    ensures Email in Entries(c) <==> c.email
    ensures PositionField in Entries(c) <==> c.position
    ensures DepartmentId in Entries(c) <==> c.department
    ensures Salary in Entries(c) <==> c.salary.Some?
    ensures AdmissionDate in Entries(c) <==> c.admission
    ensures Phone !in Entries(c) && Address !in Entries(c) && IsActive !in Entries(c)
  {
    forall k ensures k in Entries(c) <==> c.Fails(k) {
      EveryFieldListed(k);
    }
  }

  lemma EntriesMessages(c: Checks)
    ensures forall k :: k in Entries(c) ==> Entries(c)[k] == c.Message(k)
    ensures Name in Entries(c) ==> Entries(c)[Name] == NameRequired
    ensures Cpf in Entries(c) ==> Entries(c)[Cpf] == CpfRequired
    ensures Email in Entries(c) ==> Entries(c)[Email] == EmailRequired
    ensures PositionField in Entries(c) ==> Entries(c)[PositionField] == PositionRequired
    ensures DepartmentId in Entries(c) ==> Entries(c)[DepartmentId] == DepartmentRequired
    ensures Salary in Entries(c) ==> c.salary.Some? && Entries(c)[Salary] == c.salary.value
    ensures AdmissionDate in Entries(c) ==> Entries(c)[AdmissionDate] == AdmissionRequired
  {
  }

  /** The map is empty exactly when no check fails. */
  lemma NoErrorsIffAllPass(c: Checks)
    ensures Collect(c) == map[]
      <==> !c.name && !c.cpf && !c.email && !c.position && !c.department && c.salary.None? && !c.admission
  {
    var r := Collect(c);
    if r == map[] {
      assert Name !in r && Cpf !in r && Email !in r && PositionField !in r;
      assert DepartmentId !in r && Salary !in r && AdmissionDate !in r;
    }
  }

  const RequiredFields: set<Field> := {Name, Cpf, Email, PositionField, DepartmentId, Salary, AdmissionDate}

  lemma RequiredFieldsCount()
    ensures |RequiredFields| == 7
  {
    var s0: set<Field> := {};
    var s1 := s0 + {Name};
    var s2 := s1 + {Cpf};
    var s3 := s2 + {Email};
    var s4 := s3 + {PositionField};
    var s5 := s4 + {DepartmentId};
    var s6 := s5 + {Salary};
    var s7 := s6 + {AdmissionDate};
    assert s7 == RequiredFields;
  }

  /** When every check fails the map has exactly the seven required keys. */
  lemma AllFailing(salary: string)
    ensures Collect(Checks(true, true, true, true, true, Some(salary), true)).Keys == RequiredFields
    ensures |Collect(Checks(true, true, true, true, true, Some(salary), true))| == 7
  {
    var c := Checks(true, true, true, true, true, Some(salary), true);
    var r := Collect(c);
    forall k ensures k in r.Keys <==> k in RequiredFields {
      assert c.Fails(k) <==> k in RequiredFields;
    }
    RequiredFieldsCount();
  }
}
