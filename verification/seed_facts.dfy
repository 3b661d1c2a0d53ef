/**
 * What the seed data guarantees: distinct department ids and names, users
 * whose primary and current departments are among their allowed ones,
 * processes in the shape the handlers keep, distinct signature-document ids,
 * distinct signatory ids per document, and internal signatories named by
 * their user's id.
 */
module SeedFacts {
  import opened Common
  import opened Types
  import Seed
  import ProcessHandlers
  import SignatureHandlers

  lemma DepartmentIdsDistinct()
    ensures Distinct(Map(Seed.Departments, (d: Department) => d.id))
  {
  }

  lemma DepartmentNamesDistinct()
    ensures ProcessHandlers.DepartmentNamesDistinct(Seed.Departments)
  {
  }

  /** Every seed user's primary and current department are among the departments the user may act in. */
  lemma UsersInTheirDepartments()
    ensures forall u :: u in Seed.Users ==>
      u.departmentId in u.allowedDepartmentIds && u.currentDepartmentId in u.allowedDepartmentIds
  {
  }

  /** User ids are distinct. */
  lemma UserIdsDistinct()
    ensures Distinct(Map(Seed.Users, (u: User) => u.id))
  {
  }

  /** Every seed process is valid (ids 1..n, documents well shaped, department = last destination), and process ids are distinct. */
  lemma ProcessesValid()
    ensures ProcessHandlers.AllValid(Seed.Departments, Seed.Processes)
    ensures Distinct(ProcessHandlers.ProcessIds(Seed.Processes))
  {
    SeedProcessesEachValid();
    SeedProcessIdsDistinct();
  }

  lemma SeedProcessesEachValid()
    ensures ProcessHandlers.AllValid(Seed.Departments, Seed.Processes)
  {
    FirstProcessValid();
    SecondProcessValid();
    ThirdProcessValid();
    AllValidOfThree(Seed.Departments, Seed.Process00123, Seed.Process00124, Seed.Process00125);
  }

  lemma AllValidOfThree(ds: seq<Department>, a: Process, b: Process, c: Process)
    requires ProcessHandlers.ProcessValid(ds, a) && ProcessHandlers.ProcessValid(ds, b) && ProcessHandlers.ProcessValid(ds, c)
    ensures ProcessHandlers.AllValid(ds, [a, b, c])
  {
  }

  lemma SeedProcessIdsDistinct()
    ensures Distinct(ProcessHandlers.ProcessIds(Seed.Processes))
  {
    var ids := ProcessHandlers.ProcessIds(Seed.Processes);
    assert ids[0] == "2024-00123" && ids[1] == "2024-00124" && ids[2] == "2024-00125";
    assert ids[0][9] == '3' && ids[1][9] == '4' && ids[2][9] == '5';
  }

  /** The movement half of process validity, stated by position. */
  predicate MovementsValid(ds: seq<Department>, p: Process) {
    && |p.movements| >= 1
    && ProcessHandlers.MovementIdsSequential(p.movements)
    && (forall i :: 0 <= i < |p.movements| ==> ProcessHandlers.DepartmentByName(ds, p.movements[i].to).Some?)
    && p.department in ds
    && p.department.name == Last(p.movements).to
  }

  /** The document half of process validity, stated by position. */
  predicate DocumentsValid(p: Process) {
    && ProcessHandlers.DocumentIdsSequential(p.documents)
    && (forall i :: 0 <= i < |p.documents| ==> WellShaped(p.documents[i]))
  }

  lemma ValidFromParts(ds: seq<Department>, p: Process)
    requires MovementsValid(ds, p) && DocumentsValid(p)
    ensures ProcessHandlers.ProcessValid(ds, p)
  {
    forall m | m in p.movements ensures ProcessHandlers.DepartmentByName(ds, m.to).Some? {
      var i :| 0 <= i < |p.movements| && p.movements[i] == m;
    }
    forall d | d in p.documents ensures WellShaped(d) {
      var i :| 0 <= i < |p.documents| && p.documents[i] == d;
    }
  }

  lemma FirstProcessValid()
    ensures ProcessHandlers.ProcessValid(Seed.Departments, Seed.Process00123)
  {
    FirstProcessMovements();
    FirstProcessDocuments();
    ValidFromParts(Seed.Departments, Seed.Process00123);
  }

  lemma FirstProcessMovements()
    ensures MovementsValid(Seed.Departments, Seed.Process00123)
  {
    var ds := Seed.Departments;
    var p := Seed.Process00123;
    DepartmentNamesDistinct();
    ProcessHandlers.DepartmentByOwnName(ds, Seed.HumanResources);
    assert p.movements[0].to == Seed.HumanResources.name && p.movements[1].to == Seed.HumanResources.name;
  }

  lemma FirstProcessDocuments()
    ensures DocumentsValid(Seed.Process00123)
  {
  }

  lemma SecondProcessValid()
    ensures ProcessHandlers.ProcessValid(Seed.Departments, Seed.Process00124)
  {
    SecondProcessMovements();
    SecondProcessDocuments();
    ValidFromParts(Seed.Departments, Seed.Process00124);
  }

  lemma SecondProcessMovements()
    ensures MovementsValid(Seed.Departments, Seed.Process00124)
  {
    var ds := Seed.Departments;
    var p := Seed.Process00124;
    DepartmentNamesDistinct();
    ProcessHandlers.DepartmentByOwnName(ds, Seed.Cabinet);
    assert p.movements[0].to == Seed.Cabinet.name;
  }

  lemma SecondProcessDocuments()
    ensures DocumentsValid(Seed.Process00124)
  {
  }

  lemma ThirdProcessValid()
    ensures ProcessHandlers.ProcessValid(Seed.Departments, Seed.Process00125)
  {
    ThirdProcessMovements();
    ThirdProcessDocuments();
    ValidFromParts(Seed.Departments, Seed.Process00125);
  }

  lemma ThirdProcessMovements()
    ensures MovementsValid(Seed.Departments, Seed.Process00125)
  {
    var ds := Seed.Departments;
    var p := Seed.Process00125;
    DepartmentNamesDistinct();
    ProcessHandlers.DepartmentByOwnName(ds, Seed.Cabinet);
    assert p.movements[0].to == Seed.Cabinet.name;
  }

  lemma ThirdProcessDocuments()
    ensures DocumentsValid(Seed.Process00125)
  {
  }

  /** Signature document ids are distinct, and so are the signatory ids on each document. */
  lemma SignatureDocsDistinct()
    ensures Distinct(SignatureHandlers.DocIds(Seed.SignatureDocs))
    ensures forall d :: d in Seed.SignatureDocs ==> Distinct(SignatureHandlers.SignatoryIds(d.signatories))
  {
  }

  /** Every internal signatory on a seed document carries the id, as text, and the name of a seed user. */
  lemma InternalSignatoriesAreUsers()
    ensures forall d, s :: d in Seed.SignatureDocs && s in d.signatories && s.kind == SignatoryType.Internal ==>
      IsUserSignatory(s)
  {
    forall d, s | d in Seed.SignatureDocs && s in d.signatories && s.kind == SignatoryType.Internal
      ensures IsUserSignatory(s)
    {
      InternalEntriesKnown();
      KnownEntryIsUser(s);
    }
  }

  /** The id and name pairs of the seed users that sign seed documents. */
  predicate KnownEntry(s: Signatory) {
    || (s.id == "1" && s.name == "Ana Oliveira")
    || (s.id == "2" && s.name == "Carlos Silva")
    || (s.id == "5" && s.name == "Ricardo Souza")
    || (s.id == "6" && s.name == "Usuário Financeiro")
  }

  lemma InternalEntriesKnown()
    ensures forall d, s :: d in Seed.SignatureDocs && s in d.signatories && s.kind == SignatoryType.Internal ==> KnownEntry(s)
  {
    assert forall d :: d in Seed.SignatureDocs ==> d in [Seed.ServiceContract, Seed.MarketingProposal, Seed.ConfidentialityTerm,
      Seed.FinancialReport, Seed.HomeOfficePolicy];
  }

  lemma KnownEntryIsUser(s: Signatory)
    requires KnownEntry(s)
    ensures IsUserSignatory(s)
  {
    UserEntries();
    assert s == Signatory(s.id, s.name, s.kind, s.status);
  }

  /** The signatory entries of the four seed users that appear on seed documents. */
  lemma UserEntries()
    ensures forall k, st :: IsUserSignatory(Signatory("1", "Ana Oliveira", k, st))
    ensures forall k, st :: IsUserSignatory(Signatory("2", "Carlos Silva", k, st))
    ensures forall k, st :: IsUserSignatory(Signatory("5", "Ricardo Souza", k, st))
    ensures forall k, st :: IsUserSignatory(Signatory("6", "Usuário Financeiro", k, st))
  {
    UserEntry(Seed.Ana, "1");
    UserEntry(Seed.Carlos, "2");
    UserEntry(Seed.Ricardo, "5");
    UserEntry(Seed.FinanceUser, "6");
  }

  lemma UserEntry(u: User, id: string)
    requires u in Seed.Users && SignatureHandlers.UserSignatoryId(u) == id
    ensures forall k, st :: IsUserSignatory(Signatory(id, u.name, k, st))
  {
  }

  /** `s` is the signatory entry of some seed user: the user's id as text and the user's name. */
  predicate IsUserSignatory(s: Signatory) {
    exists u :: u in Seed.Users && SignatureHandlers.UserSignatoryId(u) == s.id && u.name == s.name
  }
}
