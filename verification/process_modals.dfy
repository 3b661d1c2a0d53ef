/**
 * The dialog for sending a process to another department, optionally
 * restricting who may receive it there.
 */
module SendProcessModal {
  import opened Common
  import opened Types

  /** What the dialog hands to the store's send handler. */
  datatype SendRequest = SendRequest(processId: string, targetDepartmentId: int, allowedReceivers: Option<seq<string>>)

  /** The departments offered as destinations: every department but the process's own, in table order. */
  function AvailableDepartments(ds: seq<Department>, p: Process): (r: seq<Department>)
    ensures forall d :: d in r <==> d in ds && d.id != p.department.id
    ensures p.department !in r
    ensures SubsequenceOf(r, ds)
  {
    Filter(ds, (d: Department) => d.id != p.department.id)
  }

  /** The users listed for restriction: those whose primary department is the chosen one; none before a choice. */
  function UsersInTargetDepartment(allUsers: seq<User>, target: Option<int>): (r: seq<User>)
    ensures target.None? || target == Some(0) ==> r == []
    ensures target.Some? && target.value != 0 ==>
      forall u :: u in r <==> u in allUsers && u.departmentId == target.value
  {
    if target.None? || target.value == 0 then []
    else Filter(allUsers, (u: User) => u.departmentId == target.value)
  }

  /**
   * The `allowedReceivers` sent: absent when receivers are not restricted,
   * otherwise the names of the selected users in the order of the user list.
   */
  function AllowedReceivers(allUsers: seq<User>, selected: seq<int>, restrict: bool): (r: Option<seq<string>>)
    ensures r.None? <==> !restrict
    ensures r.Some? ==> forall n :: n in r.value <==> exists u :: u in allUsers && u.id in selected && u.name == n
    ensures r.Some? ==> |r.value| <= |allUsers|
    ensures r.Some? ==> |r.value| == |SelectedUsers(allUsers, selected)|
    ensures r.Some? ==> forall k :: 0 <= k < |r.value| ==> r.value[k] == SelectedUsers(allUsers, selected)[k].name
  {
    if !restrict then None
    else
      var chosen := SelectedUsers(allUsers, selected);
      var names := Map(chosen, (u: User) => u.name);
      assert forall n :: n in names <==> exists u :: u in chosen && u.name == n by {
        forall n | n in names ensures exists u :: u in chosen && u.name == n {
          var k :| 0 <= k < |names| && names[k] == n;
          assert chosen[k] in chosen;
        }
        forall u | u in chosen ensures u.name in names {
          var k :| 0 <= k < |chosen| && chosen[k] == u;
          assert names[k] == u.name;
        }
      }
      Some(names)
  }

  class SendProcessModal {
    /** The chosen destination; `None` stands for the empty choice `''`. */
    var targetDepartmentId: Option<int>
    var restrictReceivers: bool
    var selectedUserIds: seq<int>

    ghost predicate Valid()
      reads this
    {
      Distinct(selectedUserIds)
    }

    /** The initial state, which `resetState` restores. */
    ghost predicate IsReset()
      reads this
    {
      targetDepartmentId.None? && !restrictReceivers && selectedUserIds == []
    }

    constructor()
      ensures Valid() && IsReset()
    {
      targetDepartmentId := None;
      restrictReceivers := false;
      selectedUserIds := [];
    }

    /** The send button is disabled without a destination, or with restriction on and nobody selected. */
    predicate SendDisabled()
      reads this
    {
      targetDepartmentId.None? || targetDepartmentId == Some(0) || (restrictReceivers && |selectedUserIds| == 0)
    }

    method SelectDepartment(departmentId: int)
      requires Valid()
      modifies this
      ensures Valid()
      ensures targetDepartmentId == Some(departmentId)
      ensures restrictReceivers == old(restrictReceivers) && selectedUserIds == old(selectedUserIds)
    {
      targetDepartmentId := Some(departmentId);
    }

    method SetRestrictReceivers(checked: bool)
      requires Valid()
      modifies this
      ensures Valid()
      ensures restrictReceivers == checked
      ensures targetDepartmentId == old(targetDepartmentId) && selectedUserIds == old(selectedUserIds)
    {
      restrictReceivers := checked;
    }

    /** `handleCheckboxChange`: exactly one id changes membership. */
    method HandleCheckboxChange(userId: int)
      requires Valid()
      modifies this
      ensures Valid()
      ensures selectedUserIds == Toggle(old(selectedUserIds), userId)
      ensures targetDepartmentId == old(targetDepartmentId) && restrictReceivers == old(restrictReceivers)
    {
      selectedUserIds := Toggle(selectedUserIds, userId);
    }

    /**
     * `handleSend`: with a destination chosen, the request for the process is
     * handed on and the dialog is reset; without one nothing happens.
     */
    method HandleSend(process: Process, allUsers: seq<User>) returns (sent: Option<SendRequest>)
      requires Valid()
      modifies this
      ensures Valid()
      ensures old(targetDepartmentId).None? ==>
        (sent.None? && targetDepartmentId == old(targetDepartmentId)
         && restrictReceivers == old(restrictReceivers) && selectedUserIds == old(selectedUserIds))
      ensures old(targetDepartmentId).Some? ==>
        sent == Some(SendRequest(process.id, old(targetDepartmentId).value,
                                 AllowedReceivers(allUsers, old(selectedUserIds), old(restrictReceivers))))
        && IsReset()
      ensures !old(SendDisabled()) ==> sent.Some? && sent.value.targetDepartmentId != 0
    {
      if targetDepartmentId.Some? {
        sent := Some(SendRequest(process.id, targetDepartmentId.value,
                                 AllowedReceivers(allUsers, selectedUserIds, restrictReceivers)));
        targetDepartmentId := None;
        restrictReceivers := false;
        selectedUserIds := [];
      } else {
        sent := None;
      }
    }

    /** `handleClose`. */
    method HandleClose()
      requires Valid()
      modifies this
      ensures Valid() && IsReset()
    {
      targetDepartmentId := None;
      restrictReceivers := false;
      selectedUserIds := [];
    }
  }

}

/**
 * The dialog for receiving a process: distributing it to users of the
 * department, or returning it to where it came from.
 */
module ReceiveProcessModal {
  import opened Common
  import opened Types

  /** The users offered for distribution: those of the current department other than the current user. */
  function UsersInDepartment(users: seq<User>, currentDepartmentId: Option<int>, currentUser: User): (r: seq<User>)
    ensures forall u :: u in r <==> u in users && Some(u.departmentId) == currentDepartmentId && u.id != currentUser.id
    ensures SubsequenceOf(r, users)
  {
    Filter(users, (u: User) => Some(u.departmentId) == currentDepartmentId && u.id != currentUser.id)
  }

  /**
   * The names handed to the distribute handler: those of the offered users
   * who are selected, in the order they are offered; nothing when none is.
   */
  function DistributedNames(usersInDepartment: seq<User>, selected: seq<int>): (r: Option<seq<string>>)
    ensures r.None? <==> forall u :: u in usersInDepartment ==> u.id !in selected
    ensures r.Some? ==> |r.value| >= 1
    ensures r.Some? ==> forall k :: 0 <= k < |r.value| ==>
      exists u :: u in usersInDepartment && u.id in selected && u.name == r.value[k]
    ensures r.Some? ==> forall u :: u in usersInDepartment && u.id in selected ==> u.name in r.value
    ensures r.Some? ==> |r.value| == |SelectedUsers(usersInDepartment, selected)|
    ensures r.Some? ==> forall k :: 0 <= k < |r.value| ==> r.value[k] == SelectedUsers(usersInDepartment, selected)[k].name
  {
    var chosen := SelectedUsers(usersInDepartment, selected);
    if |chosen| > 0 then
      var names := Map(chosen, (u: User) => u.name);
      assert forall k :: 0 <= k < |names| ==> chosen[k] in chosen && chosen[k].name == names[k];
      forall u | u in usersInDepartment && u.id in selected ensures u.name in names {
        var k :| 0 <= k < |chosen| && chosen[k] == u;
        assert names[k] == u.name;
      }
      Some(names)
    else
      None
  }

  /** The return button is disabled unless the process has moved at least once. */
  predicate ReturnDisabled(p: Process) {
    |p.movements| < 2
  }

  class ReceiveProcessModal {
    var selectedUserIds: seq<int>

    ghost predicate Valid()
      reads this
    {
      Distinct(selectedUserIds)
    }

    constructor()
      ensures Valid() && selectedUserIds == []
    {
      selectedUserIds := [];
    }

    /** `handleCheckboxChange`: exactly one id changes membership. */
    method HandleCheckboxChange(userId: int)
      requires Valid()
      modifies this
      ensures Valid()
      ensures selectedUserIds == Toggle(old(selectedUserIds), userId)
    {
      selectedUserIds := Toggle(selectedUserIds, userId);
    }

    /** `handleDistribute`: with an offered user selected the names are handed on and the selection cleared. */
    method HandleDistribute(usersInDepartment: seq<User>) returns (distributed: Option<seq<string>>)
      requires Valid()
      modifies this
      ensures Valid()
      ensures distributed == DistributedNames(usersInDepartment, old(selectedUserIds))
      ensures selectedUserIds == if distributed.Some? then [] else old(selectedUserIds)
    {
      distributed := DistributedNames(usersInDepartment, selectedUserIds);
      if distributed.Some? {
        selectedUserIds := [];
      }
    }

    /** `handleReturn`: the return handler is called and the selection cleared. */
    method HandleReturn() returns (returned: bool)
      requires Valid()
      modifies this
      ensures Valid()
      ensures returned && selectedUserIds == []
    {
      returned := true;
      selectedUserIds := [];
    }
  }
}

/** The dialog for requesting documents from an external party, one document per line. */
module RequestDocumentModal {
  import opened Common
  import Text

  datatype DocumentRequest = DocumentRequest(email: string, documents: seq<string>)

  /** `documents.split('\n').filter(doc => doc.trim() !== '')`: the lines that are not blank, untrimmed. */
  function DocList(documents: string): (r: seq<string>)
    ensures forall line :: line in r <==> line in Text.Split(documents, '\n') && !Text.AllWhitespace(line)
    ensures SubsequenceOf(r, Text.Split(documents, '\n'))
    ensures forall line :: line in r ==> '\n' !in line
    ensures forall line :: multiset(r)[line] == if Text.AllWhitespace(line) then 0 else multiset(Text.Split(documents, '\n'))[line]
  {
    var lines := Text.Split(documents, '\n');
    var r := Filter(lines, NonBlank);
    FilterMultiset(lines, NonBlank);
    assert forall line :: line in r <==> line in lines && !Text.AllWhitespace(line) by {
      forall line ensures line in r <==> line in lines && !Text.AllWhitespace(line) {
        assert NonBlank(line) <==> !Text.AllWhitespace(line);
      }
    }
    r
  }

  /** `doc.trim() !== ''`. */
  predicate NonBlank(line: string) {
    Text.Trim(line) != ""
  }

  /** Text without a line break is a single line: kept as typed, surrounding spaces included, unless blank. */
  lemma SingleLine(documents: string)
    requires '\n' !in documents
    ensures DocList(documents) == if Text.AllWhitespace(documents) then [] else [documents]
  {
  }

  class RequestDocumentModal {
    var email: string
    var documents: string

    constructor()
      ensures email == "" && documents == ""
    {
      email := "";
      documents := "";
    }

    /**
     * `handleSubmit`: with an e-mail and at least one non-blank line the
     * request is handed on and the form emptied; otherwise nothing happens.
     */
    method HandleSubmit() returns (created: Option<DocumentRequest>)
      modifies this
      ensures old(email) != "" && |DocList(old(documents))| > 0 ==>
        created == Some(DocumentRequest(old(email), DocList(old(documents)))) && email == "" && documents == ""
      ensures old(email) == "" || |DocList(old(documents))| == 0 ==>
        created.None? && email == old(email) && documents == old(documents)
    {
      var docList := DocList(documents);
      if email != "" && |docList| > 0 {
        created := Some(DocumentRequest(email, docList));
        email := "";
        documents := "";
      } else {
        created := None;
      }
    }
  }
}

/** The dialog for notifying an external party, optionally attaching files of the process. */
module SendNotificationModal {
  import opened Common
  import opened Types

  datatype NotificationRequest = NotificationRequest(email: string, message: string, documentIds: seq<int>)

  /** The documents that may be attached: the files, in their original order. */
  function AvailableDocs(processDocuments: seq<ProcessDocument>): (r: seq<ProcessDocument>)
    ensures forall d :: d in r <==> d in processDocuments && d.docType == File
    ensures SubsequenceOf(r, processDocuments)
  {
    Filter(processDocuments, (d: ProcessDocument) => d.docType == File)
  }

  class SendNotificationModal {
    var email: string
    var message: string
    var selectedDocIds: seq<int>

    ghost predicate Valid()
      reads this
    {
      Distinct(selectedDocIds)
    }

    constructor()
      ensures Valid() && email == "" && message == "" && selectedDocIds == []
    {
      email := "";
      message := "";
      selectedDocIds := [];
    }

    /** `handleCheckboxChange`: exactly one id changes membership. */
    method HandleCheckboxChange(docId: int)
      requires Valid()
      modifies this
      ensures Valid()
      ensures selectedDocIds == Toggle(old(selectedDocIds), docId)
      ensures email == old(email) && message == old(message)
    {
      selectedDocIds := Toggle(selectedDocIds, docId);
    }

    /**
     * `handleSubmit`: with an e-mail and a message, they are handed on with
     * exactly the selected ids and all three fields are emptied; otherwise
     * nothing happens.
     */
    method HandleSubmit() returns (sent: Option<NotificationRequest>)
      requires Valid()
      modifies this
      ensures Valid()
      ensures old(email) != "" && old(message) != "" ==>
        sent == Some(NotificationRequest(old(email), old(message), old(selectedDocIds)))
        && email == "" && message == "" && selectedDocIds == []
      ensures old(email) == "" || old(message) == "" ==>
        sent.None? && email == old(email) && message == old(message) && selectedDocIds == old(selectedDocIds)
    {
      if email != "" && message != "" {
        sent := Some(NotificationRequest(email, message, selectedDocIds));
        email := "";
        message := "";
        selectedDocIds := [];
      } else {
        sent := None;
      }
    }
  }
}

/** The dialog for opening a new process of a chosen type. */
module NewProcessModal {
  import opened Common
  import opened Types

  datatype NewProcessRequest = NewProcessRequest(typeId: int, subject: string, requester: string, customFields: map<string, FieldValue>)

  /** The type whose id is the chosen one, if any; nothing while no type is chosen. */
  function SelectedType(processTypes: seq<ProcessType>, selectedTypeId: Option<int>): (r: Option<ProcessType>)
    ensures selectedTypeId.None? ==> r.None?
    ensures r.Some? ==> r.value in processTypes && Some(r.value.id) == selectedTypeId
    ensures selectedTypeId.Some? && r.None? ==> forall pt :: pt in processTypes ==> pt.id != selectedTypeId.value
    ensures r.Some? ==> exists i :: FirstMatch(processTypes, (pt: ProcessType) => pt.id == selectedTypeId.value, i) && processTypes[i] == r.value
  {
    match selectedTypeId
    case None => None
    case Some(id) => Find(processTypes, (pt: ProcessType) => pt.id == id)
  }

  class NewProcessModal {
    /** The chosen type; `None` stands for the empty choice `''`. */
    var selectedTypeId: Option<int>
    var subject: string
    var requester: string
    var customFieldValues: map<string, FieldValue>

    ghost predicate IsReset()
      reads this
    {
      selectedTypeId.None? && subject == "" && requester == "" && customFieldValues == map[]
    }

    constructor()
      ensures IsReset()
    {
      selectedTypeId := None;
      subject := "";
      requester := "";
      customFieldValues := map[];
    }

    method SelectType(typeId: int)
      modifies this
      ensures selectedTypeId == Some(typeId)
      ensures subject == old(subject) && requester == old(requester) && customFieldValues == old(customFieldValues)
    {
      selectedTypeId := Some(typeId);
    }

    /** `handleCustomFieldChange`: one key is set, every other key keeps its value. */
    method HandleCustomFieldChange(fieldId: string, value: FieldValue)
      modifies this
      ensures fieldId in customFieldValues && customFieldValues[fieldId] == value
      ensures customFieldValues.Keys == old(customFieldValues).Keys + {fieldId}
      ensures forall k :: k in old(customFieldValues) && k != fieldId ==> customFieldValues[k] == old(customFieldValues)[k]
      ensures selectedTypeId == old(selectedTypeId) && subject == old(subject) && requester == old(requester)
    {
      customFieldValues := customFieldValues[fieldId := value];
    }

    /**
     * `handleSubmit`: with a subject, a requester and a chosen non-zero type,
     * the request is handed on and the form reset; otherwise nothing happens.
     */
    method HandleSubmit() returns (created: Option<NewProcessRequest>)
      modifies this
      ensures var ready := old(subject) != "" && old(requester) != "" && old(selectedTypeId).Some? && old(selectedTypeId).value != 0;
        ready ==> created == Some(NewProcessRequest(old(selectedTypeId).value, old(subject), old(requester), old(customFieldValues)))
                  && IsReset()
    ensures var ready := old(subject) != "" && old(requester) != "" && old(selectedTypeId).Some? && old(selectedTypeId).value != 0;
        !ready ==> created.None? && selectedTypeId == old(selectedTypeId) && subject == old(subject)
                   && requester == old(requester) && customFieldValues == old(customFieldValues)
    {
      if subject != "" && requester != "" && selectedTypeId.Some? && selectedTypeId.value != 0 {
        created := Some(NewProcessRequest(selectedTypeId.value, subject, requester, customFieldValues));
        ResetForm();
      } else {
        created := None;
      }
    }

    /** `resetForm`. */
    method ResetForm()
      modifies this
      ensures IsReset()
    {
      selectedTypeId := None;
      subject := "";
      requester := "";
      customFieldValues := map[];
    }
  }
}

/** The public view of a process found by the public search: only its public movements. */
module PublicProcessViewModal {
  import opened Common
  import opened Types
  import ProcessHandlers

  /** A search result: a process, or the marker `'not_found'`. */
  datatype SearchResult = NotFound | Found(process: Process)

  /**
   * The movements listed: nothing is rendered for a null result, no movement
   * for `'not_found'`, and the public movements of a found process, in order.
   */
  function PublicMovements(result: Option<SearchResult>): (r: Option<seq<ProcessMovement>>)
    ensures result.None? <==> r.None?
    ensures result == Some(NotFound) ==> r == Some([])
    ensures result.Some? && result.value.Found? ==>
      r.Some? && SubsequenceOf(r.value, result.value.process.movements)
      && forall m :: m in r.value <==> m in result.value.process.movements && m.isPublic
  {
    match result
    case None => None
    case Some(NotFound) => Some([])
    case Some(Found(p)) => Some(Filter(p.movements, (m: ProcessMovement) => m.isPublic))
  }

  /**
   * Toggling a movement's visibility moves it into or out of the public view
   * and leaves the view of every other movement as it was.
   */
  lemma ToggleChangesPublicView(p: Process, i: nat)
    requires ProcessHandlers.MovementIdsSequential(p.movements) && i < |p.movements|
    ensures var q := ProcessHandlers.ToggleMovementVisibility(p, p.movements[i].id);
      var before := PublicMovements(Some(Found(p))).value;
      var after := PublicMovements(Some(Found(q))).value;
      && (q.movements[i] in after <==> p.movements[i] !in before)
      && forall j :: 0 <= j < |p.movements| && j != i ==> (q.movements[j] in after <==> p.movements[j] in before)
  {
    var q := ProcessHandlers.ToggleMovementVisibility(p, p.movements[i].id);
    forall j | 0 <= j < |p.movements| && j != i ensures q.movements[j] == p.movements[j] {
    }
    assert q.movements[i] == p.movements[i].(isPublic := !p.movements[i].isPublic);
  }
}
