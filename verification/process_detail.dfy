/**
 * The detail page of a process: who may receive or send it, which step of
 * the timeline is the current one, when the revert action is offered, which
 * document actions are offered, and which custom fields are listed.
 */
module ProcessDetail {
  import opened Common
  import opened Types
  import opened ProcessHandlers
  import SendProcessModal

  /** The last recorded action is a distribution (false for an empty log). */
  predicate LastActionIsDistribution(p: Process) {
    |p.movements| > 0 && Last(p.movements).action == Distribution
  }

  datatype DetailActions = DetailActions(canReceive: bool, canSend: bool)

  /**
   * The two header buttons: both need the user to work in the process's
   * department and the last action not to be a distribution; receiving also
   * needs the user's name among the allowed receivers when there is such a list.
   */
  function Actions(p: Process, user: User, currentDepartmentId: int): (r: DetailActions)
    ensures r.canReceive ==> r.canSend
    ensures r.canSend <==> p.department.id == currentDepartmentId && !LastActionIsDistribution(p)
    ensures r.canReceive <==> r.canSend && (p.allowedReceivers.None? || user.name in p.allowedReceivers.value)
  {
    var inDepartment := p.department.id == currentDepartmentId;
    var lastIsDistribution := LastActionIsDistribution(p);
    var allowed := p.allowedReceivers.None? || user.name in p.allowedReceivers.value;
    DetailActions(inDepartment && !lastIsDistribution && allowed, inDepartment && !lastIsDistribution)
  }

  /** After a distribution nobody can receive or send the process until it moves again. */
  lemma DistributionBlocksActions(p: Process, departmentName: string, userName: string, userNames: seq<string>,
                                  date: string, time: string, user: User, currentDepartmentId: int)
    ensures var q := AddMovement(p, DistributionMovement(departmentName, userName, userNames), date, time);
      var a := Actions(q, user, currentDepartmentId);
      !a.canReceive && !a.canSend
  {
    var q := AddMovement(p, DistributionMovement(departmentName, userName, userNames), date, time);
    assert Last(q.movements).action == Distribution;
  }

  /**
   * After a send, the users of the target department can send the process on,
   * and they can receive it exactly when the send named them (or named nobody);
   * users of any other department can do neither.
   */
  lemma SendEnablesTarget(ds: seq<Department>, ps: seq<Process>, id: string, targetId: int, allowedReceivers: Option<seq<string>>,
                          sender: User, today: string, time: string, i: nat, user: User, currentDepartmentId: int)
    requires DepartmentById(ds, targetId).Some?
    requires i < |ps| && ps[i].id == id
    ensures var q := SendProcess(ds, ps, id, targetId, allowedReceivers, Some(sender), today, time)[i];
      var a := Actions(q, user, currentDepartmentId);
      && (currentDepartmentId == targetId ==> a.canSend)
      && (currentDepartmentId == targetId ==> (a.canReceive <==> allowedReceivers.None? || user.name in allowedReceivers.value))
      && (currentDepartmentId != targetId ==> !a.canSend && !a.canReceive)
  {
    var q := SendProcess(ds, ps, id, targetId, allowedReceivers, Some(sender), today, time)[i];
    assert Last(q.movements).action == Send;
  }

  /**
   * A send restricted from the send dialog lets exactly the selected users
   * receive: a selected user passes the receiver check, and a user sharing no
   * name with a selected user does not.
   */
  lemma RestrictedSendReceivers(p: Process, allUsers: seq<User>, selected: seq<int>, u: User, currentDepartmentId: int)
    requires p.allowedReceivers == SendProcessModal.AllowedReceivers(allUsers, selected, true)
    requires p.department.id == currentDepartmentId && !LastActionIsDistribution(p)
    ensures u in allUsers && u.id in selected ==> Actions(p, u, currentDepartmentId).canReceive
    ensures (forall v :: v in allUsers && v.id in selected ==> v.name != u.name) ==> !Actions(p, u, currentDepartmentId).canReceive
  {
  }

  /** Timeline marker: the last movement, when it went to the process's department. */
  predicate IsCurrentStep(p: Process, index: nat) {
    index == |p.movements| - 1 && p.department.name == p.movements[index].to
  }

  /** On a valid process the last movement, and only it, is marked as the current step. */
  lemma CurrentStepOfValid(ds: seq<Department>, p: Process, index: nat)
    requires ProcessValid(ds, p) && index < |p.movements|
    ensures IsCurrentStep(p, index) <==> index == |p.movements| - 1
  {
  }

  /** The revert button is offered on the last movement when there is more than one. */
  predicate RevertOffered(p: Process, index: nat) {
    index == |p.movements| - 1 && |p.movements| > 1
  }

  /** The revert button is offered on some movement exactly when reverting removes a movement. */
  lemma RevertOfferedWhenEffective(ds: seq<Department>, p: Process)
    ensures (exists index: nat :: RevertOffered(p, index)) <==> |RevertLastMovement(ds, p).movements| == |p.movements| - 1
    ensures !(exists index: nat :: RevertOffered(p, index)) ==> RevertLastMovement(ds, p) == p
  {
    if |p.movements| > 1 {
      assert RevertOffered(p, |p.movements| - 1);
    }
  }

  /** The simulated-upload button: a request still pending. */
  predicate UploadOffered(d: ProcessDocument) {
    d.docType == ExternalRequest && d.requestStatus == Some(RequestStatus.Pending)
  }

  /** The simulated-read button: a notification still marked sent. */
  predicate EmailReadOffered(d: ProcessDocument) {
    d.docType == ExternalNotification && d.notificationStatus == Some(NotificationStatus.Sent)
  }

  /** A request whose upload was simulated no longer offers the upload. */
  lemma UploadOfferedOnce(ds: seq<Department>, p: Process, requestId: int, now: string)
    requires ProcessValid(ds, p)
    requires exists d :: d in p.documents && d.id == requestId && UploadOffered(d)
    ensures forall d :: d in SimulateUpload(p, requestId, now).documents && d.id == requestId ==> !UploadOffered(d)
  {
    var d :| d in p.documents && d.id == requestId && UploadOffered(d);
    var req := FindDocument(p.documents, requestId);
    DocumentWithId(p.documents, d);
    DocumentWithId(p.documents, req.value);
    assert WellShaped(req.value);
    SimulateUploadMarksReceived(p, requestId, now);
  }

  /** A notification whose reading was simulated no longer offers the reading. */
  lemma EmailReadOfferedOnce(p: Process, notificationId: int)
    ensures forall d :: d in SimulateEmailRead(p, notificationId).documents && d.id == notificationId ==> !EmailReadOffered(d)
  {
    var r := SimulateEmailRead(p, notificationId);
    forall d | d in r.documents && d.id == notificationId ensures d.notificationStatus == Some(Read) {
      var i :| 0 <= i < |r.documents| && r.documents[i] == d;
    }
  }

  /** The documents listed as attached to a notification: those whose id it lists, in process order. */
  function AttachedDocs(p: Process, notification: ProcessDocument): (r: seq<ProcessDocument>)
    ensures SubsequenceOf(r, p.documents)
    ensures forall d :: d in r <==>
      (d in p.documents && notification.sentDocumentIds.Some? && d.id in notification.sentDocumentIds.value)
  {
    Filter(p.documents, (d: ProcessDocument) => notification.sentDocumentIds.Some? && d.id in notification.sentDocumentIds.value)
  }

  /** A notification just sent lists as attached exactly the documents whose ids were chosen. */
  lemma AttachedDocsOfNewNotification(p: Process, email: string, message: string, documentIds: seq<int>,
                                      addedAt: string, addedBy: string)
    requires forall id :: id in documentIds ==> id <= |p.documents|
    ensures var rec := NotificationRecord(|p.documents| + 1, email, message, documentIds, addedAt, addedBy);
      var q := AppendDocument(p, rec);
      forall d :: d in AttachedDocs(q, rec) <==> d in p.documents && d.id in documentIds
  {
  }

  /** The type of the process, looked up by id. */
  function TypeOf(p: Process, processTypes: seq<ProcessType>): (r: Option<ProcessType>)
    ensures r.Some? ==> r.value in processTypes && r.value.id == p.typeId
    ensures r.None? <==> forall pt :: pt in processTypes ==> pt.id != p.typeId
    ensures r.Some? ==> exists i :: FirstMatch(processTypes, (pt: ProcessType) => pt.id == p.typeId, i) && processTypes[i] == r.value
  {
    Find(processTypes, (pt: ProcessType) => pt.id == p.typeId)
  }

  /** A custom value is listed unless missing or the empty text (a number zero is listed). */
  predicate HasShownValue(customFields: map<string, FieldValue>, fieldId: string) {
    fieldId in customFields && customFields[fieldId] != TextValue("")
  }

  /**
   * The fields listed under "details": none without custom values, otherwise
   * the type's form fields that have a value to show, in form order.
   */
  function ShownFields(pt: ProcessType, customFields: Option<map<string, FieldValue>>): (r: seq<FormField>)
    ensures customFields.None? || customFields.value == map[] ==> r == []
    ensures SubsequenceOf(r, pt.formFields)
    ensures customFields.Some? ==> forall f :: f in r <==> f in pt.formFields && HasShownValue(customFields.value, f.id)
  {
    if customFields.None? || customFields.value == map[] then []
    else Filter(pt.formFields, (f: FormField) => HasShownValue(customFields.value, f.id))
  }
}
