/**
 * The workflow store of the application component: the state it keeps
 * (users, the signed-in user and department, the selected process, the
 * process list and the signature documents) and one method per handler.
 * Each handler replaces state fields with a value computed by the pure
 * transforms of `ProcessHandlers` and `SignatureHandlers`; the class
 * invariant `Valid` is kept by every handler.
 *
 * The department table is the fixed seed table. Dates, times and the
 * timestamp of a record are parameters of the handlers that read the clock.
 */
module App {
  import opened Common
  import opened Types
  import Text
  import Seed
  import SeedFacts
  import opened ProcessHandlers
  import opened SignatureHandlers
  import EditProcessType

  // ------------------------------------------------------------------ users

  function UserIds(users: seq<User>): seq<int> {
    Map(users, (u: User) => u.id)
  }

  /** Position `i` is in the list and no user before it has the e-mail, ignoring letter case. */
  predicate FirstWithEmail(users: seq<User>, email: string, i: int) {
    0 <= i < |users| && forall j :: 0 <= j < i ==> Text.Lower(users[j].email) != Text.Lower(email)
  }

  /** The lookup of `handleLogin`: the first user whose e-mail matches, ignoring letter case. */
  function FindUserByEmail(users: seq<User>, email: string): (r: Option<User>)
    ensures r.Some? ==> r.value in users && Text.Lower(r.value.email) == Text.Lower(email)
    ensures r.None? <==> forall u :: u in users ==> Text.Lower(u.email) != Text.Lower(email)
    ensures r.Some? ==> exists i :: FirstWithEmail(users, email, i) && users[i] == r.value
  {
    Find(users, (u: User) => Text.Lower(u.email) == Text.Lower(email))
  }

  /** Letter case in the typed e-mail makes no difference to the lookup. */
  lemma LoginIgnoresCase(users: seq<User>, email: string)
    ensures FindUserByEmail(users, Text.Lower(email)) == FindUserByEmail(users, email)
  {
    Text.LowerIdempotent(email);
  }

  /** `users.find(u => u.id === id)`. */
  function UserById(users: seq<User>, id: int): (r: Option<User>)
    ensures r.Some? ==> r.value in users && r.value.id == id
    ensures r.None? <==> forall u :: u in users ==> u.id != id
  {
    Find(users, (u: User) => u.id == id)
  }

  /** With distinct ids, a user is found again by its own id. */
  lemma UserByOwnId(users: seq<User>, u: User)
    requires Distinct(UserIds(users)) && u in users
    ensures UserById(users, u.id) == Some(u)
  {
    var i :| 0 <= i < |users| && users[i] == u;
    forall j | 0 <= j < |users| && j != i ensures users[j].id != u.id {
      assert UserIds(users)[i] == u.id && UserIds(users)[j] == users[j].id;
    }
    FindUnique(users, (x: User) => x.id == u.id, i);
  }

  /** `handleSignOutDevice`: the device with that id is removed from the user with that id. */
  function SignOutDevice(users: seq<User>, userId: int, deviceId: string): (r: seq<User>)
    ensures |r| == |users|
    ensures forall i :: 0 <= i < |users| && users[i].id != userId ==> r[i] == users[i]
    ensures forall i :: 0 <= i < |users| && users[i].id == userId ==>
      && r[i] == users[i].(connectedDevices := r[i].connectedDevices)
      && (forall d :: d in r[i].connectedDevices <==> d in users[i].connectedDevices && d.id != deviceId)
      && SubsequenceOf(r[i].connectedDevices, users[i].connectedDevices)
  {
    Map(users, (u: User) =>
      if u.id == userId then u.(connectedDevices := Filter(u.connectedDevices, (d: ConnectedDevice) => d.id != deviceId))
      else u)
  }

  /** Signing out a device keeps the users and their ids, and a second sign-out of the same device changes nothing. */
  lemma SignOutDeviceTwice(users: seq<User>, userId: int, deviceId: string)
    ensures UserIds(SignOutDevice(users, userId, deviceId)) == UserIds(users)
    ensures SignOutDevice(SignOutDevice(users, userId, deviceId), userId, deviceId) == SignOutDevice(users, userId, deviceId)
  {
    var once := SignOutDevice(users, userId, deviceId);
    var twice := SignOutDevice(once, userId, deviceId);
    forall i | 0 <= i < |users| ensures twice[i] == once[i] {
      if users[i].id == userId {
        FilterAll(once[i].connectedDevices, (d: ConnectedDevice) => d.id != deviceId);
      }
    }
  }

  /** `handleUpdateUser`: the saved user replaces every user with its id; the others are untouched. */
  function UpdateUser(users: seq<User>, updated: User): (r: seq<User>)
    ensures |r| == |users|
    ensures forall i :: 0 <= i < |users| ==> r[i] == if users[i].id == updated.id then updated else users[i]
    ensures UserIds(r) == UserIds(users)
  {
    Map(users, (u: User) => if u.id == updated.id then updated else u)
  }

  /** After a save of a listed user, looking the user up by id finds the saved record. */
  lemma UpdatedUserIsFound(users: seq<User>, updated: User)
    requires Distinct(UserIds(users))
    requires exists u :: u in users && u.id == updated.id
    ensures UserById(UpdateUser(users, updated), updated.id) == Some(updated)
  {
    var r := UpdateUser(users, updated);
    var u :| u in users && u.id == updated.id;
    var i :| 0 <= i < |users| && users[i] == u;
    assert r[i] == updated;
    UserByOwnId(r, updated);
  }

  /** A document numbered after the selected process's documents may be appended to the list entry of that process. */
  lemma AppendToSelectedKeepsValid(ds: seq<Department>, ps: seq<Process>, sel: Process, d: ProcessDocument)
    requires AllValid(ds, ps) && Distinct(ProcessIds(ps)) && sel in ps
    requires WellShaped(d) && d.id == |sel.documents| + 1
    ensures forall p :: p in ps && p.id == sel.id ==> ProcessValid(ds, AppendDocument(p, d)) && AppendDocument(p, d).id == sel.id
  {
    OnlyOneWithId(ps, sel);
    AppendDocumentKeepsValid(ds, sel, d);
  }

  // ------------------------------------------------------------------ store

  class Store {
    var users: seq<User>
    var currentUserId: Option<int>
    var currentDepartmentId: Option<int>
    var isAuthenticated: bool
    var selectedProcess: Option<Process>
    var processes: seq<Process>
    var signatureDocs: seq<SignatureDocument>
    var processTypes: seq<ProcessType>

    /**
     * User ids are distinct; every process has the shape the handlers keep
     * and a distinct id; the selected process is the list's entry for it;
     * signature-document ids are distinct.
     */
    ghost predicate Valid()
      reads this`users, this`processes, this`selectedProcess, this`signatureDocs
    {
      && Distinct(UserIds(users))
      && AllValid(Seed.Departments, processes)
      && Distinct(ProcessIds(processes))
      && (selectedProcess.Some? ==> selectedProcess.value in processes)
      && Distinct(DocIds(signatureDocs))
    }

    /** `users.find(u => u.id === currentUserId)`; no user while nobody is signed in. */
    function CurrentUser(): (r: Option<User>)
      reads this
      ensures r.Some? ==> r.value in users && currentUserId == Some(r.value.id)
      ensures currentUserId.None? ==> r.None?
    {
      match currentUserId
      case None => None
      case Some(id) => UserById(users, id)
    }

    /** The store as the application starts: the seed data, nobody signed in, nothing selected. */
    constructor()
      ensures Valid()
      ensures users == Seed.Users && processes == Seed.Processes && signatureDocs == Seed.SignatureDocs
      ensures processTypes == Seed.ProcessTypes
      ensures currentUserId.None? && currentDepartmentId.None? && !isAuthenticated && selectedProcess.None?
    {
      users := Seed.Users;
      currentUserId := None;
      currentDepartmentId := None;
      isAuthenticated := false;
      selectedProcess := None;
      processes := Seed.Processes;
      signatureDocs := Seed.SignatureDocs;
      processTypes := Seed.ProcessTypes;
      SeedFacts.UserIdsDistinct();
      SeedFacts.ProcessesValid();
      SeedFacts.SignatureDocsDistinct();
    }

    // ---------------------------------------------------------- session

    /**
     * `handleLogin`: the user whose e-mail matches becomes the current user,
     * in that user's current department; with no match nothing changes. The
     * password is not looked at.
     */
    method HandleLogin(email: string)
      requires Valid()
      modifies this
      ensures processTypes == old(processTypes)
      ensures Valid()
      ensures var found := FindUserByEmail(old(users), email);
        found.Some? ==> currentUserId == Some(found.value.id) && currentDepartmentId == Some(found.value.currentDepartmentId)
                        && isAuthenticated && CurrentUser() == found
      ensures FindUserByEmail(old(users), email).None? ==>
        currentUserId == old(currentUserId) && currentDepartmentId == old(currentDepartmentId) && isAuthenticated == old(isAuthenticated)
      ensures users == old(users) && processes == old(processes) && selectedProcess == old(selectedProcess)
      ensures signatureDocs == old(signatureDocs)
    {
      var found := FindUserByEmail(users, email);
      if found.Some? {
        SignIn(found.value);
      }
    }

    /** The state change of a successful login: the listed user becomes current, in the user's current department. */
    method SignIn(u: User)
      requires Valid() && u in users
      modifies this
      ensures Valid()
      ensures currentUserId == Some(u.id) && currentDepartmentId == Some(u.currentDepartmentId)
      ensures isAuthenticated && CurrentUser() == Some(u)
      ensures users == old(users) && processes == old(processes) && selectedProcess == old(selectedProcess)
      ensures signatureDocs == old(signatureDocs) && processTypes == old(processTypes)
    {
      UserByOwnId(users, u);
      currentUserId := Some(u.id);
      currentDepartmentId := Some(u.currentDepartmentId);
      isAuthenticated := true;
    }

    /** `handleSignOut`: nobody is signed in afterwards. */
    method HandleSignOut()
      requires Valid()
      modifies this
      ensures processTypes == old(processTypes)
      ensures Valid()
      ensures !isAuthenticated && currentUserId.None? && CurrentUser().None?
      ensures currentDepartmentId == old(currentDepartmentId) && selectedProcess == old(selectedProcess)
      ensures users == old(users) && processes == old(processes) && signatureDocs == old(signatureDocs)
    {
      isAuthenticated := false;
      currentUserId := None;
    }

    /** `handleDepartmentChange`: the chosen department becomes current and the selection is cleared. */
    method HandleDepartmentChange(departmentId: int)
      requires Valid()
      modifies this
      ensures processTypes == old(processTypes)
      ensures Valid()
      ensures currentDepartmentId == Some(departmentId) && selectedProcess.None?
      ensures currentUserId == old(currentUserId) && isAuthenticated == old(isAuthenticated)
      ensures users == old(users) && processes == old(processes) && signatureDocs == old(signatureDocs)
    {
      currentDepartmentId := Some(departmentId);
      selectedProcess := None;
    }

    /** `handleSignOutDevice`. */
    method HandleSignOutDevice(userId: int, deviceId: string)
      requires Valid()
      modifies this
      ensures processTypes == old(processTypes)
      ensures Valid()
      ensures users == SignOutDevice(old(users), userId, deviceId)
      ensures currentUserId == old(currentUserId) && currentDepartmentId == old(currentDepartmentId)
      ensures isAuthenticated == old(isAuthenticated) && selectedProcess == old(selectedProcess)
      ensures processes == old(processes) && signatureDocs == old(signatureDocs)
    {
      SignOutDeviceTwice(users, userId, deviceId);
      users := SignOutDevice(users, userId, deviceId);
    }

    /** `handleUpdateUser`. */
    method HandleUpdateUser(updated: User)
      requires Valid()
      modifies this
      ensures Valid()
      ensures users == UpdateUser(old(users), updated)
      ensures currentUserId == old(currentUserId) && currentDepartmentId == old(currentDepartmentId)
      ensures isAuthenticated == old(isAuthenticated) && selectedProcess == old(selectedProcess)
      ensures processes == old(processes) && signatureDocs == old(signatureDocs) && processTypes == old(processTypes)
    {
      users := UpdateUser(users, updated);
    }

    /** `handleUpdateProcessType`. */
    method HandleUpdateProcessType(updated: ProcessType)
      requires Valid()
      modifies this
      ensures Valid()
      ensures processTypes == EditProcessType.UpdateProcessTypes(old(processTypes), updated)
      ensures users == old(users) && currentUserId == old(currentUserId) && currentDepartmentId == old(currentDepartmentId)
      ensures isAuthenticated == old(isAuthenticated) && selectedProcess == old(selectedProcess)
      ensures processes == old(processes) && signatureDocs == old(signatureDocs)
    {
      processTypes := EditProcessType.UpdateProcessTypes(processTypes, updated);
    }

    // ---------------------------------------------------------- processes

    /**
     * `updateProcessState`: `f` is applied to the process with that id, and
     * the selection, when it is that process, becomes the updated entry.
     * Callers pass transforms that keep a process valid and keep its id.
     */
    method UpdateProcessState(id: string, f: Process -> Process)
      requires Valid()
      requires forall p :: p in processes && p.id == id ==> ProcessValid(Seed.Departments, f(p)) && f(p).id == id
      modifies this
      ensures processTypes == old(processTypes)
      ensures Valid()
      ensures processes == UpdateProcesses(old(processes), id, f)
      ensures old(selectedProcess).Some? && old(selectedProcess).value.id == id ==> selectedProcess == Some(f(old(selectedProcess).value))
      ensures old(selectedProcess).None? || old(selectedProcess).value.id != id ==> selectedProcess == old(selectedProcess)
      ensures users == old(users) && currentUserId == old(currentUserId) && currentDepartmentId == old(currentDepartmentId)
      ensures isAuthenticated == old(isAuthenticated) && signatureDocs == old(signatureDocs)
    {
      var ps := processes;
      UpdateKeepsValid(Seed.Departments, ps, id, f);
      SyncSelectedStaysInList(selectedProcess, ps, id, f);
      processes := UpdateProcesses(ps, id, f);
      selectedProcess := SyncSelected(selectedProcess, ps, id, f);
    }

    /** `handleRequestDocument`: a Pending request numbered after the selected process's documents is appended to it. */
    method HandleRequestDocument(email: string, documents: seq<string>, now: string)
      requires Valid()
      modifies this
      ensures processTypes == old(processTypes)
      ensures Valid()
      ensures old(selectedProcess).None? || old(CurrentUser()).None? ==>
        processes == old(processes) && selectedProcess == old(selectedProcess)
      ensures old(selectedProcess).Some? && old(CurrentUser()).Some? ==>
        var sel := old(selectedProcess).value;
        var d := RequestRecord(|sel.documents| + 1, email, documents, now, old(CurrentUser()).value.name);
        processes == UpdateProcesses(old(processes), sel.id, (p: Process) => AppendDocument(p, d))
        && selectedProcess == Some(AppendDocument(sel, d))
      ensures users == old(users) && currentUserId == old(currentUserId) && signatureDocs == old(signatureDocs)
      ensures currentDepartmentId == old(currentDepartmentId) && isAuthenticated == old(isAuthenticated)
    {
      var user := CurrentUser();
      if selectedProcess.None? || user.None? {
        return;
      }
      var sel := selectedProcess.value;
      var d := RequestRecord(|sel.documents| + 1, email, documents, now, user.value.name);
      AppendToSelectedKeepsValid(Seed.Departments, processes, sel, d);
      UpdateProcessState(sel.id, (p: Process) => AppendDocument(p, d));
    }

    /** `handleSendNotification`: a Sent notification numbered after the selected process's documents is appended to it. */
    method HandleSendNotification(email: string, message: string, documentIds: seq<int>, now: string)
      requires Valid()
      modifies this
      ensures processTypes == old(processTypes)
      ensures Valid()
      ensures old(selectedProcess).None? || old(CurrentUser()).None? ==>
        processes == old(processes) && selectedProcess == old(selectedProcess)
      ensures old(selectedProcess).Some? && old(CurrentUser()).Some? ==>
        var sel := old(selectedProcess).value;
        var d := NotificationRecord(|sel.documents| + 1, email, message, documentIds, now, old(CurrentUser()).value.name);
        processes == UpdateProcesses(old(processes), sel.id, (p: Process) => AppendDocument(p, d))
        && selectedProcess == Some(AppendDocument(sel, d))
      ensures users == old(users) && currentUserId == old(currentUserId) && signatureDocs == old(signatureDocs)
      ensures currentDepartmentId == old(currentDepartmentId) && isAuthenticated == old(isAuthenticated)
    {
      var user := CurrentUser();
      if selectedProcess.None? || user.None? {
        return;
      }
      var sel := selectedProcess.value;
      var d := NotificationRecord(|sel.documents| + 1, email, message, documentIds, now, user.value.name);
      AppendToSelectedKeepsValid(Seed.Departments, processes, sel, d);
      UpdateProcessState(sel.id, (p: Process) => AppendDocument(p, d));
    }

    /** `handleSimulateUpload`. */
    method HandleSimulateUpload(processId: string, requestId: int, now: string)
      requires Valid()
      modifies this
      ensures processTypes == old(processTypes)
      ensures Valid()
      ensures processes == UpdateProcesses(old(processes), processId, (p: Process) => SimulateUpload(p, requestId, now))
      ensures old(selectedProcess).Some? && old(selectedProcess).value.id == processId ==>
        selectedProcess == Some(SimulateUpload(old(selectedProcess).value, requestId, now))
      ensures old(selectedProcess).None? || old(selectedProcess).value.id != processId ==> selectedProcess == old(selectedProcess)
      ensures users == old(users) && currentUserId == old(currentUserId) && signatureDocs == old(signatureDocs)
      ensures currentDepartmentId == old(currentDepartmentId) && isAuthenticated == old(isAuthenticated)
    {
      forall p | p in processes && p.id == processId ensures ProcessValid(Seed.Departments, SimulateUpload(p, requestId, now)) {
        SimulateUploadKeepsValid(Seed.Departments, p, requestId, now);
      }
      UpdateProcessState(processId, (p: Process) => SimulateUpload(p, requestId, now));
    }

    /**
     * `handleSimulateEmailRead`. The detail view offers it only on a
     * notification, so the document with that id is one.
     */
    method HandleSimulateEmailRead(processId: string, notificationId: int)
      requires Valid()
      requires forall p, d :: p in processes && p.id == processId && d in p.documents && d.id == notificationId ==>
        d.docType == ExternalNotification
      modifies this
      ensures processTypes == old(processTypes)
      ensures Valid()
      ensures processes == UpdateProcesses(old(processes), processId, (p: Process) => SimulateEmailRead(p, notificationId))
      ensures old(selectedProcess).Some? && old(selectedProcess).value.id == processId ==>
        selectedProcess == Some(SimulateEmailRead(old(selectedProcess).value, notificationId))
      ensures old(selectedProcess).None? || old(selectedProcess).value.id != processId ==> selectedProcess == old(selectedProcess)
      ensures users == old(users) && currentUserId == old(currentUserId) && signatureDocs == old(signatureDocs)
      ensures currentDepartmentId == old(currentDepartmentId) && isAuthenticated == old(isAuthenticated)
    {
      forall p | p in processes && p.id == processId ensures ProcessValid(Seed.Departments, SimulateEmailRead(p, notificationId)) {
        SimulateEmailReadKeepsValid(Seed.Departments, p, notificationId);
      }
      UpdateProcessState(processId, (p: Process) => SimulateEmailRead(p, notificationId));
    }

    /** `handleToggleMovementVisibility`. */
    method HandleToggleMovementVisibility(processId: string, movementId: int)
      requires Valid()
      modifies this
      ensures processTypes == old(processTypes)
      ensures Valid()
      ensures processes == UpdateProcesses(old(processes), processId, (p: Process) => ToggleMovementVisibility(p, movementId))
      ensures old(selectedProcess).Some? && old(selectedProcess).value.id == processId ==>
        selectedProcess == Some(ToggleMovementVisibility(old(selectedProcess).value, movementId))
      ensures old(selectedProcess).None? || old(selectedProcess).value.id != processId ==> selectedProcess == old(selectedProcess)
      ensures users == old(users) && currentUserId == old(currentUserId) && signatureDocs == old(signatureDocs)
      ensures currentDepartmentId == old(currentDepartmentId) && isAuthenticated == old(isAuthenticated)
    {
      forall p | p in processes && p.id == processId ensures ProcessValid(Seed.Departments, ToggleMovementVisibility(p, movementId)) {
        ToggleVisibilityKeepsValid(Seed.Departments, p, movementId);
      }
      UpdateProcessState(processId, (p: Process) => ToggleMovementVisibility(p, movementId));
    }

    /** `handleRevertLastMovement`. */
    method HandleRevertLastMovement(processId: string)
      requires Valid()
      modifies this
      ensures processTypes == old(processTypes)
      ensures Valid()
      ensures processes == UpdateProcesses(old(processes), processId, (p: Process) => RevertLastMovement(Seed.Departments, p))
      ensures old(selectedProcess).Some? && old(selectedProcess).value.id == processId ==>
        selectedProcess == Some(RevertLastMovement(Seed.Departments, old(selectedProcess).value))
      ensures old(selectedProcess).None? || old(selectedProcess).value.id != processId ==> selectedProcess == old(selectedProcess)
      ensures users == old(users) && currentUserId == old(currentUserId) && signatureDocs == old(signatureDocs)
      ensures currentDepartmentId == old(currentDepartmentId) && isAuthenticated == old(isAuthenticated)
    {
      forall p | p in processes && p.id == processId ensures ProcessValid(Seed.Departments, RevertLastMovement(Seed.Departments, p)) {
        RevertKeepsValid(Seed.Departments, p);
      }
      UpdateProcessState(processId, (p: Process) => RevertLastMovement(Seed.Departments, p));
    }

    /**
     * `handleDistributeProcess`: the selected process gets a private
     * Distribution movement from its department to itself naming the users.
     */
    method HandleDistributeProcess(userNames: seq<string>, today: string, time: string)
      requires Valid()
      modifies this
      ensures processTypes == old(processTypes)
      ensures Valid()
      ensures old(selectedProcess).None? || old(CurrentUser()).None? ==>
        processes == old(processes) && selectedProcess == old(selectedProcess)
      ensures old(selectedProcess).Some? && old(CurrentUser()).Some? ==>
        var sel := old(selectedProcess).value;
        var m := DistributionMovement(sel.department.name, old(CurrentUser()).value.name, userNames);
        processes == UpdateProcesses(old(processes), sel.id, (p: Process) => AddMovement(p, m, today, time))
        && selectedProcess == Some(AddMovement(sel, m, today, time))
      ensures users == old(users) && currentUserId == old(currentUserId) && signatureDocs == old(signatureDocs)
      ensures currentDepartmentId == old(currentDepartmentId) && isAuthenticated == old(isAuthenticated)
    {
      var user := CurrentUser();
      if selectedProcess.None? || user.None? {
        return;
      }
      var sel := selectedProcess.value;
      var m := DistributionMovement(sel.department.name, user.value.name, userNames);
      OnlyOneWithId(processes, sel);
      SeedFacts.DepartmentNamesDistinct();
      forall p | p in processes && p.id == sel.id ensures ProcessValid(Seed.Departments, AddMovement(p, m, today, time)) {
        AddMovementKeepsValid(Seed.Departments, p, m, today, time);
      }
      UpdateProcessState(sel.id, (p: Process) => AddMovement(p, m, today, time));
    }

    /**
     * `handleReturnProcess`, with its movement write and its department write
     * composed into one update.
     */
    method HandleReturnProcess(today: string, time: string)
      requires Valid()
      modifies this
      ensures processTypes == old(processTypes)
      ensures Valid()
      ensures processes == ReturnProcess(Seed.Departments, old(processes), old(selectedProcess), old(CurrentUser()), today, time)
      ensures old(selectedProcess).None? || old(CurrentUser()).None? || ReturnTarget(Seed.Departments, old(selectedProcess).value).None? ==>
        selectedProcess == old(selectedProcess)
      ensures old(selectedProcess).Some? && old(CurrentUser()).Some? && ReturnTarget(Seed.Departments, old(selectedProcess).value).Some? ==>
        var sel := old(selectedProcess).value;
        var target := ReturnTarget(Seed.Departments, sel).value;
        selectedProcess == Some(ReturnStep(sel, ReturnMovement(sel, target, old(CurrentUser()).value.name), target, today, time))
      ensures users == old(users) && currentUserId == old(currentUserId) && signatureDocs == old(signatureDocs)
      ensures currentDepartmentId == old(currentDepartmentId) && isAuthenticated == old(isAuthenticated)
    {
      var user := CurrentUser();
      if selectedProcess.None? || user.None? || |selectedProcess.value.movements| < 2 {
        return;
      }
      var sel := selectedProcess.value;
      var target := ReturnTarget(Seed.Departments, sel);
      if target.None? {
        return;
      }
      var m := ReturnMovement(sel, target.value, user.value.name);
      SeedFacts.DepartmentNamesDistinct();
      forall p | p in processes && p.id == sel.id ensures ProcessValid(Seed.Departments, ReturnStep(p, m, target.value, today, time)) {
        ReturnStepKeepsValid(Seed.Departments, p, m, target.value, today, time);
      }
      UpdateProcessState(sel.id, (p: Process) => ReturnStep(p, m, target.value, today, time));
    }

    /**
     * `handleSendProcess`, with its movement write and its department write
     * composed into one update.
     */
    method HandleSendProcess(processId: string, targetDepartmentId: int, allowedReceivers: Option<seq<string>>,
                             today: string, time: string)
      requires Valid()
      modifies this
      ensures processTypes == old(processTypes)
      ensures Valid()
      ensures processes == SendProcess(Seed.Departments, old(processes), processId, targetDepartmentId, allowedReceivers,
                                       old(CurrentUser()), today, time)
      ensures old(CurrentUser()).None? || DepartmentById(Seed.Departments, targetDepartmentId).None?
              || old(selectedProcess).None? || old(selectedProcess).value.id != processId ==>
        selectedProcess == old(selectedProcess)
      ensures old(CurrentUser()).Some? && DepartmentById(Seed.Departments, targetDepartmentId).Some?
              && old(selectedProcess).Some? && old(selectedProcess).value.id == processId ==>
        var target := DepartmentById(Seed.Departments, targetDepartmentId).value;
        var m := MovementInput(CurrentDepartmentName(old(processes), processId), target.name, Send, old(CurrentUser()).value.name, None, true);
        selectedProcess == Some(SendStep(old(selectedProcess).value, m, target, allowedReceivers, today, time))
      ensures users == old(users) && currentUserId == old(currentUserId) && signatureDocs == old(signatureDocs)
      ensures currentDepartmentId == old(currentDepartmentId) && isAuthenticated == old(isAuthenticated)
    {
      var user := CurrentUser();
      if user.None? {
        return;
      }
      var target := DepartmentById(Seed.Departments, targetDepartmentId);
      if target.None? {
        return;
      }
      var m := MovementInput(CurrentDepartmentName(processes, processId), target.value.name, Send, user.value.name, None, true);
      SeedFacts.DepartmentNamesDistinct();
      forall p | p in processes && p.id == processId
        ensures ProcessValid(Seed.Departments, SendStep(p, m, target.value, allowedReceivers, today, time))
      {
        SendStepKeepsValid(Seed.Departments, p, m, target.value, allowedReceivers, today, time);
      }
      UpdateProcessState(processId, (p: Process) => SendStep(p, m, target.value, allowedReceivers, today, time));
    }

    // ---------------------------------------------------------- signature documents

    /** `handleToggleSignatureDocFavorite`. */
    method HandleToggleSignatureDocFavorite(docId: int)
      requires Valid()
      modifies this
      ensures processTypes == old(processTypes)
      ensures Valid()
      ensures signatureDocs == ToggleFavorite(old(signatureDocs), docId)
      ensures users == old(users) && processes == old(processes) && selectedProcess == old(selectedProcess)
      ensures currentUserId == old(currentUserId) && currentDepartmentId == old(currentDepartmentId)
      ensures isAuthenticated == old(isAuthenticated)
    {
      ToggleFavoriteKeepsIds(signatureDocs, docId);
      signatureDocs := ToggleFavorite(signatureDocs, docId);
    }

    /** `handleUploadSignatureDoc`. */
    method HandleUploadSignatureDoc(name: string, fileType: SignatureFileType, sizeMB: real, today: string)
      requires Valid()
      modifies this
      ensures processTypes == old(processTypes)
      ensures Valid()
      ensures signatureDocs == UploadDoc(old(signatureDocs), old(CurrentUser()), name, fileType, sizeMB, today)
      ensures users == old(users) && processes == old(processes) && selectedProcess == old(selectedProcess)
      ensures currentUserId == old(currentUserId) && currentDepartmentId == old(currentDepartmentId)
      ensures isAuthenticated == old(isAuthenticated)
    {
      UploadKeepsIdsDistinct(signatureDocs, CurrentUser(), name, fileType, sizeMB, today);
      signatureDocs := UploadDoc(signatureDocs, CurrentUser(), name, fileType, sizeMB, today);
    }

    /** `handleDeleteSignatureDocs`. */
    method HandleDeleteSignatureDocs(docIds: seq<int>)
      requires Valid()
      modifies this
      ensures processTypes == old(processTypes)
      ensures Valid()
      ensures signatureDocs == DeleteDocs(old(signatureDocs), docIds)
      ensures users == old(users) && processes == old(processes) && selectedProcess == old(selectedProcess)
      ensures currentUserId == old(currentUserId) && currentDepartmentId == old(currentDepartmentId)
      ensures isAuthenticated == old(isAuthenticated)
    {
      DeleteKeepsIdsDistinct(signatureDocs, docIds);
      signatureDocs := DeleteDocs(signatureDocs, docIds);
    }

    /** `handleSignSignatureDocs`. */
    method HandleSignSignatureDocs(docIds: seq<int>)
      requires Valid()
      modifies this
      ensures processTypes == old(processTypes)
      ensures Valid()
      ensures signatureDocs == SignDocs(old(signatureDocs), docIds, old(CurrentUser()))
      ensures users == old(users) && processes == old(processes) && selectedProcess == old(selectedProcess)
      ensures currentUserId == old(currentUserId) && currentDepartmentId == old(currentDepartmentId)
      ensures isAuthenticated == old(isAuthenticated)
    {
      SignDocsKeepsIds(signatureDocs, docIds, CurrentUser());
      signatureDocs := SignDocs(signatureDocs, docIds, CurrentUser());
    }

    /** `handleRequestSignatures`. */
    method HandleRequestSignatures(docId: int, newSignatories: seq<SignatoryRequest>)
      requires Valid()
      modifies this
      ensures processTypes == old(processTypes)
      ensures Valid()
      ensures signatureDocs == RequestSignatures(old(signatureDocs), docId, newSignatories)
      ensures users == old(users) && processes == old(processes) && selectedProcess == old(selectedProcess)
      ensures currentUserId == old(currentUserId) && currentDepartmentId == old(currentDepartmentId)
      ensures isAuthenticated == old(isAuthenticated)
    {
      RequestSignaturesKeepsIds(signatureDocs, docId, newSignatories);
      signatureDocs := RequestSignatures(signatureDocs, docId, newSignatories);
    }
  }
}
