/**
 * The per-process transforms of the workflow store: the functions the
 * handlers pass to `updateProcessState`, the movement and document records
 * they build, and the well-formedness every process keeps (movement and
 * document ids numbered 1..n, every document carrying its own variant's
 * fields, the department matching the destination of the last movement).
 *
 * `handleSendProcess` and `handleReturnProcess` issue two state writes that
 * are both computed from the same snapshot of the process list, so the second
 * overwrites the first and the movement written first is lost. Both the
 * as-written outcome and the intended composition are defined here; the
 * store uses the composition.
 */
module ProcessHandlers {
  import opened Common
  import opened Types
  import Text

  // ---------------------------------------------------------------- invariants

  predicate MovementIdsSequential(ms: seq<ProcessMovement>) {
    forall i :: 0 <= i < |ms| ==> ms[i].id == i + 1
  }

  predicate DocumentIdsSequential(docs: seq<ProcessDocument>) {
    forall i :: 0 <= i < |docs| ==> docs[i].id == i + 1
  }

  /** No two departments of the table share a name. */
  predicate DepartmentNamesDistinct(ds: seq<Department>) {
    forall i, j :: 0 <= i < j < |ds| ==> ds[i].name != ds[j].name
  }

  // The department table `ds` is a parameter: the store passes the fixed seed table.

  /** `mockDepartments.find(d => d.name === name)`. */
  function DepartmentByName(ds: seq<Department>, name: string): (r: Option<Department>)
    ensures r.Some? ==> r.value in ds && r.value.name == name
    ensures r.None? <==> forall d :: d in ds ==> d.name != name
    ensures r.Some? ==> exists i :: FirstMatch(ds, (d: Department) => d.name == name, i) && ds[i] == r.value
  {
    Find(ds, (d: Department) => d.name == name)
  }

  /** `mockDepartments.find(d => d.id === id)`. */
  function DepartmentById(ds: seq<Department>, id: int): (r: Option<Department>)
    ensures r.Some? ==> r.value in ds && r.value.id == id
    ensures r.None? <==> forall d :: d in ds ==> d.id != id
    ensures r.Some? ==> exists i :: FirstMatch(ds, (d: Department) => d.id == id, i) && ds[i] == r.value
  {
    Find(ds, (d: Department) => d.id == id)
  }

  /** Department names are distinct, so a department is found again by its own name. */
  lemma DepartmentByOwnName(ds: seq<Department>, d: Department)
    requires DepartmentNamesDistinct(ds) && d in ds
    ensures DepartmentByName(ds, d.name) == Some(d)
  {
    var ds := ds;
    var i :| 0 <= i < |ds| && ds[i] == d;
    FindUnique(ds, (x: Department) => x.name == d.name, i);
  }

  /**
   * A process in the shape every handler keeps: a non-empty movement log
   * numbered 1..n whose destinations are all departments, documents numbered
   * 1..n carrying their own variant's fields, and the process sitting in the
   * department its last movement went to.
   */
  predicate ProcessValid(ds: seq<Department>, p: Process) {
    && |p.movements| >= 1
    && MovementIdsSequential(p.movements)
    && DocumentIdsSequential(p.documents)
    && (forall d :: d in p.documents ==> WellShaped(d))
    && (forall m :: m in p.movements ==> DepartmentByName(ds, m.to).Some?)
    && p.department in ds
    && p.department.name == Last(p.movements).to
  }

  predicate AllValid(ds: seq<Department>, ps: seq<Process>) {
    forall p :: p in ps ==> ProcessValid(ds, p)
  }

  function ProcessIds(ps: seq<Process>): seq<string> {
    Map(ps, (p: Process) => p.id)
  }

  /** With distinct ids, a process in the list is the only one carrying its id. */
  lemma OnlyOneWithId(ps: seq<Process>, q: Process)
    requires Distinct(ProcessIds(ps)) && q in ps
    ensures forall p :: p in ps && p.id == q.id ==> p == q
  {
    forall p | p in ps && p.id == q.id ensures p == q {
      var i :| 0 <= i < |ps| && ps[i] == p;
      var j :| 0 <= j < |ps| && ps[j] == q;
      assert ProcessIds(ps)[i] == ProcessIds(ps)[j];
    }
  }

  // ------------------------------------------------------- updateProcessState

  /** The function form of `updateProcessState`: `f` applied to every process with id `id`. */
  function UpdateProcesses(ps: seq<Process>, id: string, f: Process -> Process): (r: seq<Process>)
    ensures |r| == |ps|
    ensures forall i :: 0 <= i < |ps| && ps[i].id != id ==> r[i] == ps[i]
    ensures forall i :: 0 <= i < |ps| && ps[i].id == id ==> r[i] == f(ps[i])
  {
    Map(ps, (p: Process) => if p.id == id then f(p) else p)
  }

  /** An update whose transform keeps a process valid and keeps its id keeps the whole list valid with the same ids. */
  lemma UpdateKeepsValid(ds: seq<Department>, ps: seq<Process>, id: string, f: Process -> Process)
    requires AllValid(ds, ps)
    requires forall p :: p in ps && p.id == id ==> ProcessValid(ds, f(p)) && f(p).id == id
    ensures AllValid(ds, UpdateProcesses(ps, id, f))
    ensures ProcessIds(UpdateProcesses(ps, id, f)) == ProcessIds(ps)
  {
    var r := UpdateProcesses(ps, id, f);
    forall q | q in r ensures ProcessValid(ds, q) {
      var i :| 0 <= i < |r| && r[i] == q;
      assert ps[i] in ps;
    }
  }

  /**
   * `updateProcessState` also replaces the selected process when its id is
   * the one updated: the selection becomes the updated list entry.
   */
  function SyncSelected(sel: Option<Process>, ps: seq<Process>, id: string, f: Process -> Process): (r: Option<Process>)
    ensures sel.None? ==> r.None?
    ensures sel.Some? && sel.value.id != id ==> r == sel
  {
    if sel.Some? && sel.value.id == id then
      match Find(ps, (p: Process) => p.id == id)
      case Some(p) => Some(f(p))
      case None => sel
    else sel
  }

  /** When the selection is an entry of a list with distinct ids, it stays an entry of the updated list. */
  lemma SyncSelectedStaysInList(sel: Option<Process>, ps: seq<Process>, id: string, f: Process -> Process)
    requires Distinct(ProcessIds(ps))
    requires sel.Some? ==> sel.value in ps
    ensures var r := SyncSelected(sel, ps, id, f);
      r.Some? ==> r.value in UpdateProcesses(ps, id, f)
    ensures var r := SyncSelected(sel, ps, id, f);
      sel.Some? && sel.value.id == id ==> r == Some(f(sel.value))
  {
    var u := UpdateProcesses(ps, id, f);
    if sel.Some? {
      var q := sel.value;
      var i :| 0 <= i < |ps| && ps[i] == q;
      OnlyOneWithId(ps, q);
      if q.id == id {
        assert u[i] == f(q);
      } else {
        assert u[i] == q;
      }
    }
  }

  // ------------------------------------------------------------- addMovement

  /** What a caller of `addMovement` supplies: a movement without id, date and time. */
  datatype MovementInput = MovementInput(
    from: string, to: string, action: ProcessAction, user: string,
    details: Option<string>, isPublic: bool)

  /**
   * The transform `addMovement` applies: one movement appended, numbered
   * after the existing ones, with the given date and time.
   */
  function AddMovement(p: Process, m: MovementInput, date: string, time: string): (r: Process)
    ensures r == p.(movements := r.movements)
    ensures r.movements == p.movements + [ProcessMovement(|p.movements| + 1, date, time, m.from, m.to, m.action, m.user, m.details, m.isPublic)]
    ensures MovementIdsSequential(p.movements) ==> MovementIdsSequential(r.movements)
  {
    var mv := ProcessMovement(|p.movements| + 1, date, time, m.from, m.to, m.action, m.user, m.details, m.isPublic);
    p.(movements := p.movements + [mv])
  }

  /** A movement into the department the process already sits in keeps it valid. */
  lemma AddMovementKeepsValid(ds: seq<Department>, p: Process, m: MovementInput, date: string, time: string)
    requires DepartmentNamesDistinct(ds)
    requires ProcessValid(ds, p) && m.to == p.department.name
    ensures ProcessValid(ds, AddMovement(p, m, date, time))
  {
    DepartmentByOwnName(ds, p.department);
  }

  // -------------------------------------------------- handleRevertLastMovement

  /**
   * The transform of `handleRevertLastMovement`: with more than one movement,
   * drop the last; the process moves back to the department named by the new
   * last destination (staying put when no department has that name) and takes
   * the new last movement's date.
   */
  function RevertLastMovement(ds: seq<Department>, p: Process): (r: Process)
    ensures |p.movements| <= 1 ==> r == p
    ensures |p.movements| > 1 ==>
      && r.movements == p.movements[..|p.movements| - 1]
      && r.lastMoved == Last(r.movements).date
      && (DepartmentByName(ds, Last(r.movements).to).Some? ==>
            r.department == DepartmentByName(ds, Last(r.movements).to).value && r.department.name == Last(r.movements).to)
      && (DepartmentByName(ds, Last(r.movements).to).None? ==> r.department == p.department)
      && r == p.(movements := r.movements, department := r.department, lastMoved := r.lastMoved)
  {
    if |p.movements| <= 1 then p
    else
      var ms := p.movements[..|p.movements| - 1];
      var previous := Last(ms);
      p.(movements := ms, department := DepartmentByName(ds, previous.to).GetOr(p.department), lastMoved := previous.date)
  }

  lemma RevertKeepsValid(ds: seq<Department>, p: Process)
    requires ProcessValid(ds, p)
    ensures ProcessValid(ds, RevertLastMovement(ds, p))
  {
    if |p.movements| > 1 {
      var r := RevertLastMovement(ds, p);
      assert Last(r.movements) in p.movements;
    }
  }

  /**
   * Reverting right after a movement into the current department restores
   * the process, except that `lastMoved` becomes the date of the movement now last.
   */
  lemma {:induction false} RevertUndoesAddMovement(ds: seq<Department>, p: Process, m: MovementInput, date: string, time: string)
    requires DepartmentNamesDistinct(ds)
    requires ProcessValid(ds, p) && m.to == p.department.name
    ensures RevertLastMovement(ds, AddMovement(p, m, date, time)) == p.(lastMoved := Last(p.movements).date)
  {
    var a := AddMovement(p, m, date, time);
    assert a.movements[..|a.movements| - 1] == p.movements;
    DepartmentByOwnName(ds, p.department);
  }

  // -------------------------------------------- handleToggleMovementVisibility

  /** The transform of `handleToggleMovementVisibility`: `isPublic` flipped on the movements with that id. */
  function ToggleMovementVisibility(p: Process, movementId: int): (r: Process)
    ensures r == p.(movements := r.movements) && |r.movements| == |p.movements|
    ensures forall i :: 0 <= i < |p.movements| ==>
      r.movements[i] == p.movements[i].(isPublic := if p.movements[i].id == movementId then !p.movements[i].isPublic else p.movements[i].isPublic)
  {
    p.(movements := Map(p.movements, (m: ProcessMovement) => if m.id == movementId then m.(isPublic := !m.isPublic) else m))
  }

  /** Toggling the same movement twice gives back the process. */
  lemma ToggleVisibilityTwice(p: Process, movementId: int)
    ensures ToggleMovementVisibility(ToggleMovementVisibility(p, movementId), movementId) == p
  {
    var r := ToggleMovementVisibility(ToggleMovementVisibility(p, movementId), movementId);
    assert r.movements == p.movements;
  }

  lemma ToggleVisibilityKeepsValid(ds: seq<Department>, p: Process, movementId: int)
    requires ProcessValid(ds, p)
    ensures ProcessValid(ds, ToggleMovementVisibility(p, movementId))
  {
    var r := ToggleMovementVisibility(p, movementId);
    forall m | m in r.movements ensures DepartmentByName(ds, m.to).Some? {
      var i :| 0 <= i < |r.movements| && r.movements[i] == m;
      assert p.movements[i] in p.movements;
    }
  }

  // ------------------------------------------------------ document handlers

  /** `p.documents.find(d => d.id === id)`. */
  function FindDocument(docs: seq<ProcessDocument>, id: int): (r: Option<ProcessDocument>)
    ensures r.Some? ==> r.value in docs && r.value.id == id
    ensures r.None? <==> forall d :: d in docs ==> d.id != id
  {
    Find(docs, (d: ProcessDocument) => d.id == id)
  }

  /** With ids numbered 1..n, the document with a given id is the one at position id - 1. */
  lemma DocumentWithId(docs: seq<ProcessDocument>, d: ProcessDocument)
    requires DocumentIdsSequential(docs) && d in docs
    ensures 1 <= d.id <= |docs| && docs[d.id - 1] == d
  {
  }

  /** The request record `handleRequestDocument` appends. */
  function RequestRecord(id: int, email: string, names: seq<string>, addedAt: string, addedBy: string): (d: ProcessDocument)
    ensures WellShaped(d) && d.docType == ExternalRequest && d.id == id
    ensures d.requestStatus == Some(RequestStatus.Pending) && d.requestedTo == Some(email) && d.requestedDocuments == Some(names)
  {
    ProcessDocument(id, ExternalRequest, "Solicitação para " + email, addedAt, addedBy,
      None, None, Some(RequestStatus.Pending), Some(email), Some(names), None, None, None, None)
  }

  /** The notification record `handleSendNotification` appends. */
  function NotificationRecord(id: int, email: string, message: string, documentIds: seq<int>, addedAt: string, addedBy: string): (d: ProcessDocument)
    ensures WellShaped(d) && d.docType == ExternalNotification && d.id == id
    ensures d.notificationStatus == Some(NotificationStatus.Sent) && d.sentTo == Some(email)
    ensures d.message == Some(message) && d.sentDocumentIds == Some(documentIds)
  {
    ProcessDocument(id, ExternalNotification, "Notificação para " + email, addedAt, addedBy,
      None, None, None, None, None, Some(NotificationStatus.Sent), Some(email), Some(message), Some(documentIds))
  }

  /** The transform of `handleRequestDocument` and `handleSendNotification`: one document appended. */
  function AppendDocument(p: Process, d: ProcessDocument): (r: Process)
    ensures r == p.(documents := r.documents) && r.documents == p.documents + [d]
  {
    p.(documents := p.documents + [d])
  }

  /** Appending a well-shaped document numbered after the existing ones keeps a process valid. */
  lemma AppendDocumentKeepsValid(ds: seq<Department>, p: Process, d: ProcessDocument)
    requires ProcessValid(ds, p) && WellShaped(d) && d.id == |p.documents| + 1
    ensures ProcessValid(ds, AppendDocument(p, d))
  {
  }

  /** One file received for a requested name, as `handleSimulateUpload` builds it. */
  function ReceivedFile(docName: string, id: int, addedAt: string, addedBy: string): (d: ProcessDocument)
    ensures WellShaped(d) && d.docType == File && d.id == id && d.addedBy == addedBy
    ensures d.fileType == Some(Pdf) && d.isPublic == Some(false)
  {
    ProcessDocument(id, File, docName + " (recebido).pdf", addedAt, addedBy,
      Some(Pdf), Some(false), None, None, None, None, None, None, None)
  }

  /**
   * The transform of `handleSimulateUpload`: when the document with
   * `requestId` exists and lists requested names, every document with that id
   * is marked Received and one PDF file per requested name is appended,
   * numbered after the existing documents and added by the address the
   * request went to; otherwise the process is unchanged.
   */
  function SimulateUpload(p: Process, requestId: int, now: string): (r: Process)
    ensures FindDocument(p.documents, requestId).None? ==> r == p
    ensures var req := FindDocument(p.documents, requestId);
      req.Some? && req.value.requestedDocuments.None? ==> r == p
    ensures r == p.(documents := r.documents) && |p.documents| <= |r.documents|
  {
    match FindDocument(p.documents, requestId)
    case None => p
    case Some(req) =>
      if req.requestedDocuments.None? then p
      else
        var names := req.requestedDocuments.value;
        p.(documents := MarkReceived(p.documents, requestId) + ReceivedFiles(names, |p.documents|, now, req.requestedTo.GetOr("")))
  }

  /**
   * The documents after a successful upload: the request marked Received,
   * the other documents unchanged, then one file per requested name,
   * numbered after the existing documents and added by the request's address.
   */
  lemma SimulateUploadDocuments(p: Process, requestId: int, now: string)
    requires FindDocument(p.documents, requestId).Some?
    requires FindDocument(p.documents, requestId).value.requestedDocuments.Some?
    ensures var req := FindDocument(p.documents, requestId).value;
      var names := req.requestedDocuments.value;
      var n := |p.documents|;
      var r := SimulateUpload(p, requestId, now);
      && |r.documents| == n + |names|
      && (forall i :: 0 <= i < n && p.documents[i].id != requestId ==> r.documents[i] == p.documents[i])
      && (forall i :: 0 <= i < n && p.documents[i].id == requestId ==>
            r.documents[i] == p.documents[i].(requestStatus := Some(Received)))
      && (forall i :: n <= i < n + |names| ==>
            r.documents[i] == ReceivedFile(names[i - n], i + 1, now, req.requestedTo.GetOr("")))
  {
    var req := FindDocument(p.documents, requestId).value;
    var names := req.requestedDocuments.value;
    var n := |p.documents|;
    var r := SimulateUpload(p, requestId, now);
    var updated := MarkReceived(p.documents, requestId);
    var newDocs := ReceivedFiles(names, n, now, req.requestedTo.GetOr(""));
    SimulateUploadSplits(p, requestId, now);
    forall i | 0 <= i < n ensures r.documents[i] == updated[i] {
    }
    forall i | n <= i < n + |names| ensures r.documents[i] == ReceivedFile(names[i - n], i + 1, now, req.requestedTo.GetOr("")) {
      assert r.documents[i] == newDocs[i - n];
    }
  }

  /** A successful upload's documents are the marked documents followed by the received files. */
  lemma SimulateUploadSplits(p: Process, requestId: int, now: string)
    requires FindDocument(p.documents, requestId).Some?
    requires FindDocument(p.documents, requestId).value.requestedDocuments.Some?
    ensures var req := FindDocument(p.documents, requestId).value;
      SimulateUpload(p, requestId, now).documents ==
        MarkReceived(p.documents, requestId) + ReceivedFiles(req.requestedDocuments.value, |p.documents|, now, req.requestedTo.GetOr(""))
  {
  }

  /** The documents with the request's id marked Received, the others as they were. */
  function MarkReceived(docs: seq<ProcessDocument>, requestId: int): (r: seq<ProcessDocument>)
    ensures |r| == |docs|
    ensures forall i :: 0 <= i < |docs| && docs[i].id != requestId ==> r[i] == docs[i]
    ensures forall i :: 0 <= i < |docs| && docs[i].id == requestId ==> r[i] == docs[i].(requestStatus := Some(Received))
  {
    Map(docs, (d: ProcessDocument) => if d.id == requestId then d.(requestStatus := Some(Received)) else d)
  }

  /** One received file per requested name, numbered from n + 1 on. */
  function ReceivedFiles(names: seq<string>, n: int, now: string, addedBy: string): (r: seq<ProcessDocument>)
    ensures |r| == |names|
    ensures forall i :: 0 <= i < |names| ==> r[i] == ReceivedFile(names[i], n + 1 + i, now, addedBy)
  {
    seq(|names|, i requires 0 <= i < |names| => ReceivedFile(names[i], n + 1 + i, now, addedBy))
  }

  /** Receiving the requested files keeps a process valid: document ids stay 1..n and every document keeps its shape. */
  lemma SimulateUploadKeepsValid(ds: seq<Department>, p: Process, requestId: int, now: string)
    requires ProcessValid(ds, p)
    ensures ProcessValid(ds, SimulateUpload(p, requestId, now))
  {
    var req := FindDocument(p.documents, requestId);
    if req.Some? && req.value.requestedDocuments.Some? {
      var r := SimulateUpload(p, requestId, now);
      forall i | 0 <= i < |r.documents| ensures WellShaped(r.documents[i]) && r.documents[i].id == i + 1 {
        UploadedDocument(p, requestId, now, i);
      }
    }
  }

  /** One position of the document list after a successful upload: well shaped and numbered by its position. */
  lemma UploadedDocument(p: Process, requestId: int, now: string, i: nat)
    requires DocumentIdsSequential(p.documents) && forall d :: d in p.documents ==> WellShaped(d)
    requires FindDocument(p.documents, requestId).Some?
    requires FindDocument(p.documents, requestId).value.requestedDocuments.Some?
    requires i < |SimulateUpload(p, requestId, now).documents|
    ensures WellShaped(SimulateUpload(p, requestId, now).documents[i])
    ensures SimulateUpload(p, requestId, now).documents[i].id == i + 1
  {
    SimulateUploadDocuments(p, requestId, now);
    var req := FindDocument(p.documents, requestId).value;
    var r := SimulateUpload(p, requestId, now);
    var n := |p.documents|;
    if i < n {
      var d := p.documents[i];
      assert d in p.documents;
      if d.id == requestId {
        DocumentWithId(p.documents, req);
        assert d == req;
        assert r.documents[i] == req.(requestStatus := Some(Received));
      } else {
        assert r.documents[i] == d;
      }
    }
  }

  /** After a successful upload the request is no longer Pending, so its upload action is not offered again. */
  lemma SimulateUploadMarksReceived(p: Process, requestId: int, now: string)
    requires DocumentIdsSequential(p.documents)
    requires FindDocument(p.documents, requestId).Some?
    requires FindDocument(p.documents, requestId).value.requestedDocuments.Some?
    ensures forall d :: d in SimulateUpload(p, requestId, now).documents && d.id == requestId ==>
      d.requestStatus == Some(Received)
  {
    var r := SimulateUpload(p, requestId, now);
    var n := |p.documents|;
    SimulateUploadDocuments(p, requestId, now);
    DocumentWithId(p.documents, FindDocument(p.documents, requestId).value);
    forall d | d in r.documents && d.id == requestId ensures d.requestStatus == Some(Received) {
      var i :| 0 <= i < |r.documents| && r.documents[i] == d;
      // the received files are numbered above n, so the id belongs to an earlier document
      UploadedId(p, requestId, now, i);
      assert i < n && p.documents[i].id == requestId;
    }
  }

  /** After an upload, document ids are still the positions counted from 1. */
  lemma UploadedId(p: Process, requestId: int, now: string, i: nat)
    requires DocumentIdsSequential(p.documents)
    requires FindDocument(p.documents, requestId).Some?
    requires FindDocument(p.documents, requestId).value.requestedDocuments.Some?
    requires i < |SimulateUpload(p, requestId, now).documents|
    ensures SimulateUpload(p, requestId, now).documents[i].id == i + 1
  {
    SimulateUploadDocuments(p, requestId, now);
  }

  /** The transform of `handleSimulateEmailRead`: every document with that id gets notification status Read. */
  function SimulateEmailRead(p: Process, notificationId: int): (r: Process)
    ensures r == p.(documents := r.documents) && |r.documents| == |p.documents|
    ensures forall i :: 0 <= i < |p.documents| && p.documents[i].id != notificationId ==> r.documents[i] == p.documents[i]
    ensures forall i :: 0 <= i < |p.documents| && p.documents[i].id == notificationId ==>
      r.documents[i] == p.documents[i].(notificationStatus := Some(Read))
  {
    p.(documents := Map(p.documents, (d: ProcessDocument) =>
      if d.id == notificationId then d.(notificationStatus := Some(Read)) else d))
  }

  /** Reading an e-mail twice is reading it once. */
  lemma SimulateEmailReadIdempotent(p: Process, notificationId: int)
    ensures SimulateEmailRead(SimulateEmailRead(p, notificationId), notificationId) == SimulateEmailRead(p, notificationId)
  {
    var once := SimulateEmailRead(p, notificationId);
    assert SimulateEmailRead(once, notificationId).documents == once.documents;
  }

  /**
   * Reading keeps a process valid when the targeted document is a notification
   * (the only documents offering the action); on a file or a request it would
   * add a notification status the variant does not carry.
   */
  lemma SimulateEmailReadKeepsValid(ds: seq<Department>, p: Process, notificationId: int)
    requires ProcessValid(ds, p)
    requires forall d :: d in p.documents && d.id == notificationId ==> d.docType == ExternalNotification
    ensures ProcessValid(ds, SimulateEmailRead(p, notificationId))
  {
    var r := SimulateEmailRead(p, notificationId);
    forall d | d in r.documents ensures WellShaped(d) {
      var i :| 0 <= i < |r.documents| && r.documents[i] == d;
      assert p.documents[i] in p.documents;
    }
  }

  /** On a file document, reading breaks the document's shape. */
  lemma SimulateEmailReadOnFileBreaksShape(p: Process, i: nat)
    requires i < |p.documents| && p.documents[i].docType == File
    ensures !WellShaped(SimulateEmailRead(p, p.documents[i].id).documents[i])
  {
  }

  // ----------------------------------------------------- handleDistributeProcess

  /** The text `handleDistributeProcess` records as the movement's details. */
  function DistributionDetails(userNames: seq<string>): string {
    "Processo distribuído para: " + Text.Join(userNames, ", ") + "."
  }

  /** The movement `handleDistributeProcess` records: private, from the department to itself. */
  function DistributionMovement(departmentName: string, userName: string, userNames: seq<string>): (m: MovementInput)
    ensures m.from == departmentName && m.to == departmentName && m.action == Distribution && !m.isPublic
  {
    MovementInput(departmentName, departmentName, Distribution, userName, Some(DistributionDetails(userNames)), false)
  }

  // ------------------------------------------ handleSendProcess / handleReturnProcess

  /** `processes.find(p => p.id === id)?.department.name || 'Desconhecido'`. */
  function CurrentDepartmentName(ps: seq<Process>, id: string): (r: string)
    ensures r != []
    ensures (forall p :: p in ps ==> p.id != id) ==> r == "Desconhecido"
  {
    match Find(ps, (p: Process) => p.id == id)
    case None => "Desconhecido"
    case Some(p) => if p.department.name == "" then "Desconhecido" else p.department.name
  }

  /** With distinct ids, the name found is the department name of the process with that id. */
  lemma CurrentDepartmentNameOf(ps: seq<Process>, q: Process)
    requires Distinct(ProcessIds(ps)) && q in ps && q.department.name != []
    ensures CurrentDepartmentName(ps, q.id) == q.department.name
  {
    OnlyOneWithId(ps, q);
  }

  /** The fields the second write of `handleSendProcess` sets. */
  function MarkSent(p: Process, target: Department, allowedReceivers: Option<seq<string>>, today: string): (r: Process)
    ensures r.department == target && r.status == ProcessStatus.Sent && r.allowedReceivers == allowedReceivers && r.lastMoved == today
    ensures r.movements == p.movements && r.documents == p.documents && r.id == p.id
    ensures r == p.(department := r.department, lastMoved := r.lastMoved, status := r.status, allowedReceivers := r.allowedReceivers)
  {
    p.(department := target, lastMoved := today, status := ProcessStatus.Sent, allowedReceivers := allowedReceivers)
  }

  /** The fields the second write of `handleReturnProcess` sets. */
  function MarkReturned(p: Process, target: Department, today: string): (r: Process)
    ensures r.department == target && r.lastMoved == today
    ensures r.movements == p.movements && r.documents == p.documents && r.id == p.id && r.status == p.status
    ensures r == p.(department := r.department, lastMoved := r.lastMoved)
  {
    p.(department := target, lastMoved := today)
  }

  /**
   * The state after a sequence of `setProcesses` calls issued from one event
   * handler: the last value written wins.
   */
  function LastWrite(ps: seq<Process>, writes: seq<seq<Process>>): seq<Process> {
    if writes == [] then ps else Last(writes)
  }

  /**
   * `handleSendProcess` as written: the movement write and the department
   * write are both computed from the snapshot `ps`, so the department write
   * replaces the movement write.
   */
  function SendProcessAsWritten(ds: seq<Department>, ps: seq<Process>, id: string, targetId: int, allowedReceivers: Option<seq<string>>,
                                user: Option<User>, today: string, time: string): (r: seq<Process>)
    ensures |r| == |ps|
  {
    if user.None? then ps
    else
      match DepartmentById(ds, targetId)
      case None => ps
      case Some(target) =>
        var m := MovementInput(CurrentDepartmentName(ps, id), target.name, Send, user.value.name, None, true);
        var movementWrite := UpdateProcesses(ps, id, (p: Process) => AddMovement(p, m, today, time));
        var departmentWrite := UpdateProcesses(ps, id, (p: Process) => MarkSent(p, target, allowedReceivers, today));
        LastWrite(ps, [movementWrite, departmentWrite])
  }

  /** As written, sending never records a movement: every movement log is the one before the call. */
  lemma SendAsWrittenLosesMovement(ds: seq<Department>, ps: seq<Process>, id: string, targetId: int, allowedReceivers: Option<seq<string>>,
                                   user: Option<User>, today: string, time: string)
    ensures var r := SendProcessAsWritten(ds, ps, id, targetId, allowedReceivers, user, today, time);
      forall i :: 0 <= i < |ps| ==> r[i].movements == ps[i].movements
  {
  }

  /**
   * As written, a send moves the process into a department its last movement
   * does not lead to, so the process is no longer valid.
   */
  lemma SendAsWrittenBreaksValid(ds: seq<Department>, ps: seq<Process>, i: nat, targetId: int, allowedReceivers: Option<seq<string>>,
                                 user: User, today: string, time: string)
    requires i < |ps| && ProcessValid(ds, ps[i])
    requires DepartmentById(ds, targetId).Some? && DepartmentById(ds, targetId).value.name != ps[i].department.name
    ensures !ProcessValid(ds, SendProcessAsWritten(ds, ps, ps[i].id, targetId, allowedReceivers, Some(user), today, time)[i])
  {
  }

  /** The intended transform of `handleSendProcess`: the movement and the department change together. */
  function SendStep(p: Process, m: MovementInput, target: Department, allowedReceivers: Option<seq<string>>,
                    today: string, time: string): (r: Process)
    ensures r.department == target && r.status == ProcessStatus.Sent
    ensures r.allowedReceivers == allowedReceivers && r.lastMoved == today
    ensures r.movements == p.movements + [ProcessMovement(|p.movements| + 1, today, time, m.from, m.to, m.action, m.user, m.details, m.isPublic)]
    ensures r.id == p.id && r.documents == p.documents
    ensures r == p.(department := r.department, status := r.status, allowedReceivers := r.allowedReceivers,
                    lastMoved := r.lastMoved, movements := r.movements)
  {
    MarkSent(AddMovement(p, m, today, time), target, allowedReceivers, today)
  }

  /**
   * `handleSendProcess` with its two writes composed: without a user or with an
   * unknown target the list is unchanged; otherwise every process with that id
   * gets one Send movement into the target, which becomes its department, and
   * is marked Sent with the given allowed receivers.
   */
  function SendProcess(ds: seq<Department>, ps: seq<Process>, id: string, targetId: int, allowedReceivers: Option<seq<string>>,
                       user: Option<User>, today: string, time: string): (r: seq<Process>)
    ensures |r| == |ps|
    ensures user.None? || DepartmentById(ds, targetId).None? ==> r == ps
    ensures forall i :: 0 <= i < |ps| && ps[i].id != id ==> r[i] == ps[i]
    ensures user.Some? && DepartmentById(ds, targetId).Some? ==>
      var target := DepartmentById(ds, targetId).value;
      forall i :: 0 <= i < |ps| && ps[i].id == id ==>
        && r[i].department == target && r[i].status == ProcessStatus.Sent
        && r[i].allowedReceivers == allowedReceivers && r[i].lastMoved == today
        && r[i].movements == ps[i].movements +
             [ProcessMovement(|ps[i].movements| + 1, today, time, CurrentDepartmentName(ps, id), target.name, Send, user.value.name, None, true)]
        && r[i] == ps[i].(department := target, status := ProcessStatus.Sent, allowedReceivers := allowedReceivers,
                          lastMoved := today, movements := r[i].movements)
  {
    if user.None? then ps
    else
      match DepartmentById(ds, targetId)
      case None => ps
      case Some(target) =>
        var m := MovementInput(CurrentDepartmentName(ps, id), target.name, Send, user.value.name, None, true);
        UpdateProcesses(ps, id, (p: Process) => SendStep(p, m, target, allowedReceivers, today, time))
  }

  /** Sending keeps every process valid and keeps the list of ids. */
  lemma SendProcessKeepsValid(ds: seq<Department>, ps: seq<Process>, id: string, targetId: int, allowedReceivers: Option<seq<string>>,
                              user: Option<User>, today: string, time: string)
    requires DepartmentNamesDistinct(ds)
    requires AllValid(ds, ps)
    ensures var r := SendProcess(ds, ps, id, targetId, allowedReceivers, user, today, time);
      AllValid(ds, r) && ProcessIds(r) == ProcessIds(ps)
  {
    if user.Some? && DepartmentById(ds, targetId).Some? {
      var target := DepartmentById(ds, targetId).value;
      var m := MovementInput(CurrentDepartmentName(ps, id), target.name, Send, user.value.name, None, true);
      var f := (p: Process) => SendStep(p, m, target, allowedReceivers, today, time);
      forall p | p in ps && p.id == id ensures ProcessValid(ds, f(p)) && f(p).id == id {
        SendStepKeepsValid(ds, p, m, target, allowedReceivers, today, time);
      }
      UpdateKeepsValid(ds, ps, id, f);
    }
  }

  lemma SendStepKeepsValid(ds: seq<Department>, p: Process, m: MovementInput, target: Department, allowedReceivers: Option<seq<string>>,
                           today: string, time: string)
    requires DepartmentNamesDistinct(ds)
    requires ProcessValid(ds, p) && target in ds && m.to == target.name
    ensures ProcessValid(ds, SendStep(p, m, target, allowedReceivers, today, time))
  {
    DepartmentByOwnName(ds, target);
  }

  /** The department `handleReturnProcess` sends a process back to: the destination of its second-to-last movement. */
  function ReturnTarget(ds: seq<Department>, p: Process): (r: Option<Department>)
    ensures |p.movements| < 2 ==> r.None?
    ensures r.Some? ==> r.value in ds && r.value.name == p.movements[|p.movements| - 2].to
  {
    if |p.movements| < 2 then None else DepartmentByName(ds, p.movements[|p.movements| - 2].to)
  }

  /** The movement `handleReturnProcess` records. */
  function ReturnMovement(sel: Process, target: Department, userName: string): MovementInput {
    MovementInput(sel.department.name, target.name, Return, userName, None, true)
  }

  /** `handleReturnProcess` as written: the department write replaces the movement write. */
  function ReturnProcessAsWritten(ds: seq<Department>, ps: seq<Process>, sel: Option<Process>, user: Option<User>,
                                  today: string, time: string): (r: seq<Process>)
    ensures |r| == |ps|
  {
    if sel.None? || user.None? || |sel.value.movements| < 2 then ps
    else
      match ReturnTarget(ds, sel.value)
      case None => ps
      case Some(target) =>
        var m := ReturnMovement(sel.value, target, user.value.name);
        var movementWrite := UpdateProcesses(ps, sel.value.id, (p: Process) => AddMovement(p, m, today, time));
        var departmentWrite := UpdateProcesses(ps, sel.value.id, (p: Process) => MarkReturned(p, target, today));
        LastWrite(ps, [movementWrite, departmentWrite])
  }

  /** As written, returning never records a movement. */
  lemma ReturnAsWrittenLosesMovement(ds: seq<Department>, ps: seq<Process>, sel: Option<Process>, user: Option<User>, today: string, time: string)
    ensures var r := ReturnProcessAsWritten(ds, ps, sel, user, today, time);
      forall i :: 0 <= i < |ps| ==> r[i].movements == ps[i].movements
  {
  }

  /** The intended transform of `handleReturnProcess`: the movement and the department change together. */
  function ReturnStep(p: Process, m: MovementInput, target: Department, today: string, time: string): (r: Process)
    ensures r.department == target && r.lastMoved == today && r.status == p.status
    ensures r.movements == p.movements + [ProcessMovement(|p.movements| + 1, today, time, m.from, m.to, m.action, m.user, m.details, m.isPublic)]
    ensures r.id == p.id && r.documents == p.documents
    ensures r == p.(department := r.department, lastMoved := r.lastMoved, movements := r.movements)
  {
    MarkReturned(AddMovement(p, m, today, time), target, today)
  }

  lemma ReturnStepKeepsValid(ds: seq<Department>, p: Process, m: MovementInput, target: Department, today: string, time: string)
    requires DepartmentNamesDistinct(ds)
    requires ProcessValid(ds, p) && target in ds && m.to == target.name
    ensures ProcessValid(ds, ReturnStep(p, m, target, today, time))
  {
    DepartmentByOwnName(ds, target);
  }

  /**
   * `handleReturnProcess` with its two writes composed: without a selected
   * process, a user, two movements or a department named by the
   * second-to-last destination the list is unchanged; otherwise the selected
   * process gets one public Return movement into that department, which
   * becomes its department.
   */
  function ReturnProcess(ds: seq<Department>, ps: seq<Process>, sel: Option<Process>, user: Option<User>,
                         today: string, time: string): (r: seq<Process>)
    ensures |r| == |ps|
    ensures sel.None? || user.None? || ReturnTarget(ds, sel.value).None? ==> r == ps
    ensures sel.Some? ==> forall i :: 0 <= i < |ps| && ps[i].id != sel.value.id ==> r[i] == ps[i]
    ensures sel.Some? && user.Some? && ReturnTarget(ds, sel.value).Some? ==>
      var target := ReturnTarget(ds, sel.value).value;
      forall i :: 0 <= i < |ps| && ps[i].id == sel.value.id ==>
        && r[i].department == target && r[i].lastMoved == today && r[i].status == ps[i].status
        && r[i].movements == ps[i].movements +
             [ProcessMovement(|ps[i].movements| + 1, today, time, sel.value.department.name, target.name, Return, user.value.name, None, true)]
        && r[i] == ps[i].(department := target, lastMoved := today, movements := r[i].movements)
  {
    if sel.None? || user.None? || |sel.value.movements| < 2 then ps
    else
      match ReturnTarget(ds, sel.value)
      case None => ps
      case Some(target) =>
        var m := ReturnMovement(sel.value, target, user.value.name);
        UpdateProcesses(ps, sel.value.id, (p: Process) => ReturnStep(p, m, target, today, time))
  }

  /** Returning keeps every process valid and keeps the list of ids. */
  lemma ReturnProcessKeepsValid(ds: seq<Department>, ps: seq<Process>, sel: Option<Process>, user: Option<User>, today: string, time: string)
    requires DepartmentNamesDistinct(ds)
    requires AllValid(ds, ps)
    ensures var r := ReturnProcess(ds, ps, sel, user, today, time);
      AllValid(ds, r) && ProcessIds(r) == ProcessIds(ps)
  {
    if sel.Some? && user.Some? && ReturnTarget(ds, sel.value).Some? {
      var target := ReturnTarget(ds, sel.value).value;
      var id := sel.value.id;
      var m := ReturnMovement(sel.value, target, user.value.name);
      var f := (p: Process) => ReturnStep(p, m, target, today, time);
      forall p | p in ps && p.id == id ensures ProcessValid(ds, f(p)) && f(p).id == id {
        ReturnStepKeepsValid(ds, p, m, target, today, time);
      }
      UpdateKeepsValid(ds, ps, id, f);
    }
  }
}
