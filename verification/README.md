# SAAE-PROC workflow store in Dafny

SAAE-PROC is a front end for electronic administrative processes. It has two parts:

- **Processes.** A process moves between departments. Its log records every movement. Outsiders can be asked for documents, or be notified and sent documents.
- **Signatures.** Documents are uploaded, signatures are requested from users or outside e-mail addresses, and documents are signed.

All of the application state lives in one component, and its handlers replace that state with new lists. The session is the part of that state that says who is signed in: the current user, the current department and the signed-in flag. This project models:

- that store, as the class `App.Store` with one method per handler;
- the pure per-record transforms behind the handlers (`ProcessHandlers`, `SignatureHandlers`);
- the seed data (`Seed`) and the facts proved about it (`SeedFacts`);
- the permission predicates of the process detail page and of the signature rows and tabs;
- the form guards and selection sets of the dialogs;
- the administrator's user and process-type editors;
- the process table's sort;
- the department switcher.

Records and enums become datatypes. An enum becomes one constructor per member, so `SignatoryStatus` has exactly `Pending` and `Signed`. Optional fields become `Option`s. `ProcessDocument` keeps the flat shape of the record. The rule that its optional fields belong to its `docType` is the predicate `Types.WellShaped`, and the store keeps that predicate.

A JavaScript `Set<number>` in a dialog becomes a duplicate-free `seq<int>` that `Common.Toggle` updates. This keeps the insertion order that `Array.from` exposes.

The department table is the seed table, passed to the transforms as a parameter. Clock readings (today's date, the time, an ISO timestamp, `Date.now()`) are also parameters.

## Model

| member | source | states |
|---|---|---|
| Common.Filter | App.tsx:323 | `Array.prototype.filter`: membership is exactly "in the input and kept", and the result is an order-preserving sub-list. |
| Common.FilterMultiset | App.tsx:323 | Each kept value occurs as often as in the input, and a dropped value not at all. |
| Common.Toggle | components/modals/SendProcessModal.tsx:25-35 | The set toggle: the id flips membership, every other id keeps it, and duplicate-freedom is kept. |
| Common.ToggleAbsentTwice | components/pages/admin/EditUserModal.tsx:20-30 | Adding an absent id and toggling it again gives back the very same list. |
| Common.Dedup | components/pages/admin/EditUserModal.tsx:17 | `new Set(ids)`: duplicate-free, with the same members. |
| Common.DedupDistinct | components/pages/admin/EditUserModal.tsx:17 | A duplicate-free list is its own set. |
| Common.FilterConcat | App.tsx:323 | Filtering distributes over concatenation. |
| Text.Split | components/modals/RequestDocumentModal.tsx:17 | `split`: at least one part, and no part contains the separator. |
| Text.JoinSplit | components/pages/admin/EditUserModal.tsx:95 | Joining the parts of a split on the same separator gives back the text. |
| Text.SplitJoin | components/pages/admin/EditUserModal.tsx:95 | Splitting a join of separator-free parts gives back the parts. |
| Text.Trim | components/pages/admin/EditUserModal.tsx:95 | `trim`: the result is a slice of the text with only whitespace before and after it. It is empty exactly for all-whitespace text, and otherwise neither end is whitespace. |
| Text.LexLessTransitive | components/ProcessTable.tsx:48-53 | The string order `<` of the sort is transitive. |
| Text.LexLessTotal | components/ProcessTable.tsx:48-54 | Two strings are equal or ordered one way or the other. |
| SeedFacts.DepartmentIdsDistinct | constants.ts:4-10 | The seed department ids are distinct. |
| SeedFacts.DepartmentNamesDistinct | constants.ts:4-10 | The seed department names are distinct. |
| SeedFacts.UsersInTheirDepartments | constants.ts:12-62 | Every seed user's primary and current departments are among the user's allowed ones. |
| SeedFacts.UserIdsDistinct | constants.ts:12-62 | The seed user ids are distinct. |
| SeedFacts.ProcessesValid | constants.ts:64-135 | Every seed process is valid: movement and document ids are 1..n, documents are well shaped, movements go to known departments, and the department is the last movement's target. Process ids are distinct. |
| SeedFacts.SignatureDocsDistinct | constants.ts:137-197 | Signature-document ids are distinct, and signatory ids are distinct within each document. |
| SeedFacts.InternalSignatoriesAreUsers | constants.ts:137-197 | Every internal seed signatory carries a seed user's id text and name. |
| ProcessHandlers.DepartmentByName | App.tsx:239 | `mockDepartments.find` by name: the department found is the first listed one with the name; none is found exactly when no department has it. |
| ProcessHandlers.DepartmentById | App.tsx:281 | The lookup by id, with the same contract: the first listed department with the id, none exactly when no department has it. |
| ProcessHandlers.UpdateProcesses | App.tsx:113-125 | `updateProcessState`: only processes with the id are transformed; the length is unchanged. |
| ProcessHandlers.UpdateKeepsValid | App.tsx:113-125 | An update with a validity- and id-preserving transform keeps every process valid and the id list unchanged. |
| ProcessHandlers.SyncSelectedStaysInList | App.tsx:117-119 | After an update, the selected process is again the list entry, and it is the transformed one when it was the target. |
| ProcessHandlers.AddMovement | App.tsx:127-137 | Exactly one movement is appended, with id = previous length + 1. Earlier movements and all other fields are unchanged, so ids stay 1..n. |
| ProcessHandlers.AddMovementKeepsValid | App.tsx:127-137 | A movement to the process's own department keeps the process valid. |
| ProcessHandlers.RevertLastMovement | App.tsx:234-247 | With at most one movement the process is unchanged. Otherwise only the last movement is dropped, lastMoved becomes the new last date, and the department becomes the department record `DepartmentByName` finds for the new last `to`, or stays when no department has that name. All other fields are unchanged. |
| ProcessHandlers.RevertKeepsValid | App.tsx:234-247 | Reverting keeps a process valid. |
| ProcessHandlers.RevertUndoesAddMovement | App.tsx:127-137 | Reverting a movement just added to the current department gives back the process, except lastMoved, which becomes the previous last date. |
| ProcessHandlers.ToggleMovementVisibility | App.tsx:227-232 | isPublic is flipped on the movements with the id and nowhere else. |
| ProcessHandlers.ToggleVisibilityTwice | App.tsx:227-232 | Toggling twice restores the process. |
| ProcessHandlers.ToggleVisibilityKeepsValid | App.tsx:227-232 | Toggling keeps a process valid. |
| ProcessHandlers.DocumentWithId | App.tsx:182 | With sequential ids, a document's id is its position + 1. |
| ProcessHandlers.RequestRecord | App.tsx:164-178 | The request record is well shaped, Pending, and addressed to the e-mail with the requested names. |
| ProcessHandlers.NotificationRecord | App.tsx:203-218 | The notification record is well shaped, Sent, and carries the e-mail, the message and the chosen ids. |
| ProcessHandlers.AppendDocumentKeepsValid | App.tsx:176 | A well-shaped document numbered length + 1 keeps a process valid. |
| ProcessHandlers.SimulateUpload | App.tsx:180-201 | With the request missing or without requested names, the process is unchanged; otherwise only its documents change, and none is removed. |
| ProcessHandlers.SimulateUploadDocuments | App.tsx:183-199 | After a successful upload, the request is marked Received and other documents are unchanged. One File per requested name is appended, numbered after the existing documents and added by the request's address. |
| ProcessHandlers.SimulateUploadKeepsValid | App.tsx:180-201 | The upload keeps document ids 1..n and documents well shaped. |
| ProcessHandlers.UploadedDocument | App.tsx:185-199 | Each document after an upload is well shaped and numbered by position. |
| ProcessHandlers.SimulateUploadMarksReceived | App.tsx:195-197 | After the upload the request with that id is Received. |
| ProcessHandlers.SimulateEmailRead | App.tsx:220-225 | Read is set only on the documents with the id; the others are unchanged. |
| ProcessHandlers.SimulateEmailReadIdempotent | App.tsx:220-225 | Marking read twice equals marking read once. |
| ProcessHandlers.SimulateEmailReadKeepsValid | App.tsx:220-225 | On a notification id, the process stays valid. |
| ProcessHandlers.SimulateEmailReadOnFileBreaksShape | App.tsx:223 | On a File's id, the handler leaves a File with a notification status, which is not well shaped. |
| ProcessHandlers.DistributionMovement | App.tsx:249-258 | The distribution movement is private and goes from the department to itself. |
| ProcessHandlers.CurrentDepartmentName | App.tsx:284 | The sender's department name, or 'Desconhecido' for an unknown process. |
| ProcessHandlers.CurrentDepartmentNameOf | App.tsx:284 | With distinct ids, a listed process yields its own department name. |
| ProcessHandlers.SendProcessAsWritten | App.tsx:279-298 | The send as written: the department write, computed from the same snapshot, replaces the movement write. |
| ProcessHandlers.SendAsWrittenLosesMovement | App.tsx:286-298 | As written, no process gains a movement. |
| ProcessHandlers.SendAsWrittenBreaksValid | App.tsx:286-298 | As written, a send to another department leaves the department disagreeing with the last movement. |
| ProcessHandlers.SendProcess | App.tsx:279-298 | The send with both writes composed. With no user or an unknown target, nothing changes. Otherwise only the process with the id moves to the target, with status Sent, the given allowedReceivers, lastMoved today and one public Send movement appended. Its other fields are unchanged. |
| ProcessHandlers.SendProcessKeepsValid | App.tsx:279-298 | The composed send keeps every process valid and the id list unchanged. |
| ProcessHandlers.ReturnTarget | App.tsx:263-265 | The return goes to the department named by the next-to-last movement; there is none with fewer than two movements. |
| ProcessHandlers.ReturnProcessAsWritten | App.tsx:262-276 | The return as written: the department write replaces the movement write. |
| ProcessHandlers.ReturnAsWrittenLosesMovement | App.tsx:267-274 | As written, no process gains a movement. |
| ProcessHandlers.ReturnProcess | App.tsx:262-276 | The return with both writes composed. Without a selection, a user or a target, nothing changes. Otherwise the selected process moves to the target with lastMoved today and gets one public Return movement. Its other fields, status included, are unchanged. |
| ProcessHandlers.ReturnProcessKeepsValid | App.tsx:262-276 | The composed return keeps every process valid and the id list unchanged. |
| SignatureHandlers.ToggleFavorite | App.tsx:303-305 | isFavorite is flipped only on the document with the id. |
| SignatureHandlers.ToggleFavoriteTwice | App.tsx:303-305 | Toggling twice restores the list. |
| SignatureHandlers.MaxId | App.tsx:309 | `Math.max(...ids, 0)`: at least 0, at least every id, and attained unless 0. |
| SignatureHandlers.UploadDoc | App.tsx:307-320 | Without a user nothing changes. Otherwise one new document is prepended, uploaded by the user with no signatories. Its id is the largest existing id (or 0) plus 1, so it exceeds every existing id. |
| SignatureHandlers.UploadKeepsIdsDistinct | App.tsx:307-320 | Uploading keeps document ids distinct. |
| SignatureHandlers.DeleteDocs | App.tsx:322-324 | Exactly the listed documents are removed, and the rest keep their order. |
| SignatureHandlers.DeleteKeepsIdsDistinct | App.tsx:322-324 | Deleting keeps document ids distinct. |
| SignatureHandlers.SignFor | App.tsx:330-353 | The user's existing entries become Signed and all others are unchanged; without an entry, a Signed internal entry is appended. |
| SignatureHandlers.SignForSigns | App.tsx:330-353 | Afterwards the user has a Signed entry and no Pending one; other signatories are untouched. |
| SignatureHandlers.SignForIdempotent | App.tsx:330-353 | Signing twice equals signing once. |
| SignatureHandlers.SignDocs | App.tsx:326-357 | Without a user nothing changes; unlisted documents are unchanged; listed ones are signed for the user. |
| SignatureHandlers.PendingAdditions | App.tsx:362-365 | Only requested signatories whose id is not already on the document are added, each Pending; every such request is added. There is exactly one addition per such request, in request order. |
| SignatureHandlers.RequestSignatures | App.tsx:359-371 | Other documents are unchanged. The document with the id keeps its signatories and gains exactly `PendingAdditions`: one Pending signatory per request not yet on it, in request order. |
| SignatureHandlers.RequestAgainAddsNothing | App.tsx:362-367 | Repeating the same request adds nobody. |
| Common.Find | App.tsx:56 | `Array.prototype.find`: the element found matches and no earlier element does; none is found exactly when nothing matches. |
| App.FindUserByEmail | App.tsx:56 | The login lookup, case-insensitive: the user found is the first listed user whose e-mail matches; none is found exactly when no e-mail matches. |
| App.LoginIgnoresCase | App.tsx:56 | Lower-casing the typed e-mail does not change the lookup. |
| App.UserByOwnId | App.tsx:56-58 | With distinct ids, a user is found by their own id. |
| App.SignOutDevice | App.tsx:93-103 | Only the user with the id changes, and only by losing the device with the id, keeping device order. |
| App.SignOutDeviceTwice | App.tsx:93-103 | Signing out a device keeps user ids and is idempotent. |
| App.UpdateUser | App.tsx:84-87 | The saved user replaces the users with its id; ids are unchanged. |
| App.UpdatedUserIsFound | App.tsx:84-87 | After saving a listed user, the lookup by id finds the saved record. |
| App.Store.constructor | App.tsx:26-34 | The store starts from the seed with nobody signed in, and its invariant holds. |
| App.Store.HandleLogin | App.tsx:55-65 | A matching e-mail signs in the first listed user with that e-mail, in the user's current department; no match changes nothing; the password is not read. |
| App.Store.SignIn | App.tsx:58-60 | The listed user becomes the current user, in that user's current department, and is authenticated; nothing else changes and the invariant is kept. |
| App.Store.HandleSignOut | App.tsx:67-71 | Nobody is signed in afterwards. |
| App.Store.HandleDepartmentChange | App.tsx:73-77 | The chosen department becomes current. |
| App.Store.HandleSignOutDevice | App.tsx:93-103 | The users become `SignOutDevice` of the old users; the invariant is kept. |
| App.Store.HandleUpdateUser | App.tsx:84-87 | The users become `UpdateUser` of the old users; the invariant is kept. |
| App.Store.HandleUpdateProcessType | App.tsx:89-91 | The types become `UpdateProcessTypes` of the old types. |
| App.Store.UpdateProcessState | App.tsx:113-125 | The processes become `UpdateProcesses`; the selection follows its entry; the invariant is kept. |
| App.Store.HandleRequestDocument | App.tsx:164-178 | Without a selection or a user nothing changes; otherwise a Pending request numbered length + 1 is appended to the selected process and to the selection. The users, the session and the signature documents are unchanged. |
| App.Store.HandleSendNotification | App.tsx:203-218 | Same, for a Sent notification. The users, the session and the signature documents are unchanged. |
| App.Store.HandleSimulateUpload | App.tsx:180-201 | The processes become the update by `SimulateUpload`. The selection becomes its transform when it has the id and is otherwise unchanged. The users, the session and the signature documents are unchanged; the invariant is kept. |
| App.Store.HandleSimulateEmailRead | App.tsx:220-225 | The processes become the update by `SimulateEmailRead`. The selection becomes its transform when it has the id and is otherwise unchanged. The users, the session and the signature documents are unchanged; the invariant is kept. |
| App.Store.HandleToggleMovementVisibility | App.tsx:227-232 | The processes become the update by `ToggleMovementVisibility`. The selection becomes its transform when it has the id and is otherwise unchanged. The users, the session and the signature documents are unchanged; the invariant is kept. |
| App.Store.HandleRevertLastMovement | App.tsx:234-247 | The processes become the update by `RevertLastMovement`. The selection becomes its transform when it has the id and is otherwise unchanged. The users, the session and the signature documents are unchanged; the invariant is kept. |
| App.Store.HandleDistributeProcess | App.tsx:249-260 | Without a selection or a user nothing changes; otherwise a private Distribution movement is added to the selected process and to the selection. The users, the session and the signature documents are unchanged. |
| App.Store.HandleReturnProcess | App.tsx:262-277 | The processes become the composed `ReturnProcess`. When it applies, the selection becomes the returned process; otherwise it is unchanged. The users, the session and the signature documents are unchanged; the invariant is kept. |
| App.Store.HandleSendProcess | App.tsx:279-299 | The processes become the composed `SendProcess`. When the sent process is the selection, the selection becomes the sent process; otherwise it is unchanged. The users, the session and the signature documents are unchanged; the invariant is kept. |
| App.Store.HandleToggleSignatureDocFavorite | App.tsx:303-305 | The documents become `ToggleFavorite`; ids stay distinct. The users, the session, the processes and the selection are unchanged. |
| App.Store.HandleUploadSignatureDoc | App.tsx:307-320 | The documents become `UploadDoc`; ids stay distinct. The users, the session, the processes and the selection are unchanged. |
| App.Store.HandleDeleteSignatureDocs | App.tsx:322-324 | The documents become `DeleteDocs`; ids stay distinct. The users, the session, the processes and the selection are unchanged. |
| App.Store.HandleSignSignatureDocs | App.tsx:326-357 | The documents become `SignDocs` for the current user; ids stay distinct. The users, the session, the processes and the selection are unchanged. |
| App.Store.HandleRequestSignatures | App.tsx:359-371 | The documents become `RequestSignatures`; ids stay distinct. The users, the session, the processes and the selection are unchanged. |
| ProcessDetail.Actions | components/ProcessDetail.tsx:206-212 | canReceive implies canSend. canSend holds exactly in the process's department when the last action is not a Distribution. canReceive additionally needs no receiver list, or the user's name on it. |
| ProcessDetail.DistributionBlocksActions | components/ProcessDetail.tsx:207-212 | After a distribution nobody can receive or send. |
| ProcessDetail.SendEnablesTarget | components/ProcessDetail.tsx:206-212 | After a send, the target department's users can send, and can receive exactly when named (or when nobody is named); other departments can do neither. |
| ProcessDetail.RestrictedSendReceivers | components/ProcessDetail.tsx:209-210 | With a receiver list built by the send dialog, a selected user can receive and a user sharing no name with the selection cannot. |
| ProcessDetail.CurrentStepOfValid | components/ProcessDetail.tsx:60-61 | On a valid process, the current-step marker is on the last movement and only there. |
| ProcessDetail.RevertOfferedWhenEffective | components/ProcessDetail.tsx:94 | The revert button is offered exactly when reverting would remove a movement; when not offered, revert changes nothing. |
| ProcessDetail.UploadOfferedOnce | components/ProcessDetail.tsx:140-142 | After a simulated upload the request no longer offers the upload. |
| ProcessDetail.EmailReadOfferedOnce | components/ProcessDetail.tsx:175-177 | After a simulated reading the notification no longer offers it. |
| ProcessDetail.AttachedDocs | components/ProcessDetail.tsx:152 | The attached documents are exactly those whose id the notification lists, in process order. |
| ProcessDetail.AttachedDocsOfNewNotification | components/ProcessDetail.tsx:152 | A new notification lists as attached exactly the chosen earlier documents. |
| ProcessDetail.TypeOf | components/ProcessDetail.tsx:214 | The first listed type with the process's type id, or none exactly when no type has it. |
| ProcessDetail.ShownFields | components/ProcessDetail.tsx:284-296 | Nothing without custom values; otherwise the form fields whose value is present and not empty text, in form order. |
| DocumentRow.Actions | components/signature/DocumentRow.tsx:33-41 | The sign entry is enabled only if shown. Request, delete and the checkbox are the uploader's alone, and the uploader always sees the sign entry. |
| DocumentRow.PendingCanSign | components/signature/DocumentRow.tsx:36-39 | A Pending entry of the user's lets the user sign. |
| DocumentRow.UploaderMaySign | components/signature/DocumentRow.tsx:33-39 | An uploader without a Signed entry may sign. |
| DocumentRow.SignedOnceCannotSign | components/signature/DocumentRow.tsx:35-39 | With a unique, Signed entry, the user cannot sign. |
| DocumentRow.CanSignImpliesCanTakeAction | components/signature/DocumentRow.tsx:33-41 | canSign implies canTakeAction, which holds exactly for the uploader and the listed signatories. |
| DocumentRow.SigningEndsCanSign | components/signature/DocumentRow.tsx:35-39 | After the user signs, the row no longer offers a signature. |
| InboxView.FilteredDocs | components/signature/InboxView.tsx:28-40 | Each tab is an order-preserving sub-list: pending, signed and shared hold exactly the documents with the user's Pending entry, Signed entry, or any entry on another's document. |
| InboxView.PendingAndSignedDisjoint | components/signature/InboxView.tsx:32-34 | With unique signatory ids, no document is in both the pending and the signed tab. |
| InboxView.SignedDocsMoveTabs | components/signature/InboxView.tsx:32-34 | Documents just signed leave the pending tab and join the signed tab. |
| SentView.SentDocs | components/signature/SentView.tsx:25-27 | Exactly the user's uploads, in order. |
| SentView.SentView.HandleSelectDoc | components/signature/SentView.tsx:29-35 | One id flips membership; the others keep theirs. |
| SentView.SentView.HandleBatchDelete | components/signature/SentView.tsx:37-40 | The selected ids are passed on and the selection is cleared. |
| SentView.SentView.HandleBatchSign | components/signature/SentView.tsx:42-45 | The selected ids are passed on and the selection is cleared. |
| RequestSignatureModal.AvailableUsers | components/modals/RequestSignatureModal.tsx:22-25 | Exactly the users whose id text is not an internal signatory's id, in user order. |
| RequestSignatureModal.InternalRequests | components/modals/RequestSignatureModal.tsx:37-40 | Every selected user is requested, each as an internal signatory with the id text, and nobody else. There is one request per selected user, in the order of the user list. |
| RequestSignatureModal.Requested | components/modals/RequestSignatureModal.tsx:36-46 | External tab: nothing for an empty e-mail, otherwise one external signatory keyed by the e-mail. Internal tab: the internal requests. |
| RequestSignatureModal.RequestSignatureModal.HandleCheckboxChange | components/modals/RequestSignatureModal.tsx:27-34 | One id flips membership. |
| RequestSignatureModal.RequestSignatureModal.HandleRequest | components/modals/RequestSignatureModal.tsx:35-52 | Requests are passed on only when non-empty; the tab, the selection and the e-mail are always reset. |
| RequestSignatureModal.RequestedUsersNoLongerAvailable | components/modals/RequestSignatureModal.tsx:22-25 | A user just requested is no longer offered for that document. |
| NewSignatureDocModal.Rejection | components/modals/NewSignatureDocModal.tsx:16-37 | A file is accepted exactly when it is a Word file of at most 9 MiB or a PDF of at most 50 MiB; a rejection carries a message. |
| NewSignatureDocModal.SizeLimit | components/modals/NewSignatureDocModal.tsx:21-26 | The megabyte comparison equals the comparison in bytes. |
| NewSignatureDocModal.NewSignatureDocModal.HandleFileChange | components/modals/NewSignatureDocModal.tsx:16-37 | An accepted file is kept with no error; a rejected one is cleared and its error set; so exactly one of "a file" and "an error" holds. |
| NewSignatureDocModal.NewSignatureDocModal.HandleSubmit | components/modals/NewSignatureDocModal.tsx:39-46 | With a file, it is uploaded as PDF exactly for the PDF type and as DOCX exactly for the Word type, at most 50 MB, and the dialog is cleared. |
| SendProcessModal.AvailableDepartments | components/modals/SendProcessModal.tsx:60 | Every department except the process's own, in order. |
| SendProcessModal.UsersInTargetDepartment | components/modals/SendProcessModal.tsx:20-23 | No users without a target; otherwise exactly the target department's users. |
| SendProcessModal.AllowedReceivers | components/modals/SendProcessModal.tsx:45-47 | Absent exactly when unrestricted; otherwise exactly the names of the selected users, one per selected user, in the order of the user list. |
| SendProcessModal.SendProcessModal.HandleCheckboxChange | components/modals/SendProcessModal.tsx:25-35 | One id flips membership. |
| SendProcessModal.SendProcessModal.HandleSend | components/modals/SendProcessModal.tsx:43-53 | Without a target nothing is sent or changed; otherwise the request carries the target and the receivers, and the dialog is reset. Whenever the send button is enabled (its `disabled` condition at line 134 is `SendDisabled`), a request with a non-zero target is handed on. |
| ReceiveProcessModal.UsersInDepartment | App.tsx:480 | The other users of the current department, in order. |
| ReceiveProcessModal.DistributedNames | components/modals/ReceiveProcessModal.tsx:30-33 | Nothing exactly when no offered user is selected. Otherwise the names of the selected offered users, one per user, in the order they are offered. |
| ReceiveProcessModal.ReceiveProcessModal.HandleCheckboxChange | components/modals/ReceiveProcessModal.tsx:18-28 | One id flips membership. |
| ReceiveProcessModal.ReceiveProcessModal.HandleDistribute | components/modals/ReceiveProcessModal.tsx:30-36 | The names are passed on and the selection cleared only when some offered user is selected. |
| ReceiveProcessModal.ReceiveProcessModal.HandleReturn | components/modals/ReceiveProcessModal.tsx:38-41 | The return is passed on and the selection cleared. |
| RequestDocumentModal.DocList | components/modals/RequestDocumentModal.tsx:17 | Exactly the lines that are not blank, in order, each free of line breaks; a repeated non-blank line is kept as many times as it occurs, and blank lines not at all. |
| RequestDocumentModal.SingleLine | components/modals/RequestDocumentModal.tsx:17 | A single line is kept as typed, untrimmed, unless it is blank. |
| RequestDocumentModal.RequestDocumentModal.HandleSubmit | components/modals/RequestDocumentModal.tsx:15-24 | Created only with an e-mail and a non-empty list, and only then reset. |
| SendNotificationModal.AvailableDocs | components/modals/SendNotificationModal.tsx:19-21 | Exactly the File documents, in order. |
| SendNotificationModal.SendNotificationModal.HandleCheckboxChange | components/modals/SendNotificationModal.tsx:23-33 | One id flips membership. |
| SendNotificationModal.SendNotificationModal.HandleSubmit | components/modals/SendNotificationModal.tsx:35-44 | Sent only with an e-mail and a message, carrying exactly the selected ids; only then are all three fields reset. |
| NewProcessModal.SelectedType | components/modals/NewProcessModal.tsx:25-27 | The first listed type with the selected id, or none: always none while no type is chosen, and none otherwise only when no type has the id. |
| NewProcessModal.NewProcessModal.HandleCustomFieldChange | components/modals/NewProcessModal.tsx:54-56 | The key is set; every other key keeps its value. |
| NewProcessModal.NewProcessModal.HandleSubmit | components/modals/NewProcessModal.tsx:41-52 | Created only with a subject, a requester and a non-zero type, and then all four fields are reset; otherwise nothing changes. |
| NewProcessModal.NewProcessModal.ResetForm | components/modals/NewProcessModal.tsx:29-34 | All four fields return to their initial values. |
| PublicProcessViewModal.PublicMovements | components/modals/PublicProcessViewModal.tsx:13-17 | Nothing for no result; an empty list for not found; otherwise exactly the public movements, in order. |
| PublicProcessViewModal.ToggleChangesPublicView | components/modals/PublicProcessViewModal.tsx:15-17 | Toggling a movement's visibility flips its presence in the public view and leaves the others. |
| EditUserModal.ToggleDepartment | components/pages/admin/EditUserModal.tsx:20-30 | An absent department is added; a present non-primary one is removed; the primary one stays; other ids are untouched; duplicate-freedom is kept. |
| EditUserModal.PrimaryNeverRemoved | components/pages/admin/EditUserModal.tsx:24 | Whatever is clicked, an allowed primary department stays allowed. |
| EditUserModal.ToggleDepartmentTwice | components/pages/admin/EditUserModal.tsx:20-30 | Toggling a non-primary department twice restores the membership, and the exact list when it was absent. |
| EditUserModal.ParseRoles | components/pages/admin/EditUserModal.tsx:95 | One trimmed role per comma-separated part; no role contains a comma. |
| EditUserModal.RolesRoundTrip | components/pages/admin/EditUserModal.tsx:95 | A non-empty list of trimmed, comma-free roles, shown joined with ", ", parses back to itself. |
| EditUserModal.EmptyRolesReparse | components/pages/admin/EditUserModal.tsx:95 | The empty role list parses back as one empty role. |
| EditUserModal.EditUserModal.constructor | components/pages/admin/EditUserModal.tsx:16-18 | The dialog opens on the user's values, with the departments made a set. |
| EditUserModal.EditUserModal.HandleDeptCheckboxChange | components/pages/admin/EditUserModal.tsx:20-30 | The departments become `ToggleDepartment`; the invariant (a set, primary kept) holds. |
| EditUserModal.EditUserModal.SetSignatureRoles | components/pages/admin/EditUserModal.tsx:95 | The roles become the parsed text; nothing else changes. |
| EditUserModal.EditUserModal.HandleSave | components/pages/admin/EditUserModal.tsx:32-38 | Only user type, departments and permissions are replaced; an allowed primary department is kept; the departments are duplicate-free. |
| EditProcessType.Merge | components/pages/admin/EditProcessType.tsx:35 | The spread keeps the field id, and an empty update changes nothing. |
| EditProcessType.AddFormField | components/pages/admin/EditProcessType.tsx:22-30 | Exactly one non-required Text field labelled 'Novo Campo' is appended; nothing else changes. |
| EditProcessType.UpdateFormField | components/pages/admin/EditProcessType.tsx:32-37 | Updates merge only into fields with the id; length and ids are unchanged; nothing else changes. |
| EditProcessType.RemoveFormField | components/pages/admin/EditProcessType.tsx:39-44 | Every field with the id is removed and the rest keep their order; nothing else changes. |
| EditProcessType.RemoveUndoesAdd | components/pages/admin/EditProcessType.tsx:22-44 | Removing a field just added under a fresh id gives back the type. |
| EditProcessType.RemoveAfterUpdate | components/pages/admin/EditProcessType.tsx:32-44 | Removing a field discards its updates. |
| EditProcessType.EditProcessType.AddField | components/pages/admin/EditProcessType.tsx:22-30 | The edited type becomes `AddFormField`. |
| EditProcessType.EditProcessType.HandleSave | components/pages/admin/EditProcessType.tsx:17-20 | The edited type is handed on. |
| EditProcessType.UpdateProcessTypes | App.tsx:89-91 | The saved type replaces the types with its id; ids are unchanged. |
| EditProcessType.SavedTypeIsFound | App.tsx:89-91 | With distinct ids, the saved type is what a lookup by its id finds. |
| ProcessTable.Compare | components/ProcessTable.tsx:47-55 | Zero exactly for equal ids; negative exactly when the first id is smaller (ascending) or larger (descending). |
| ProcessTable.InOrderTransitive | components/ProcessTable.tsx:47-55 | The comparator's order is transitive. |
| ProcessTable.SortedByIds | components/ProcessTable.tsx:47-55 | Down a sorted list ids never decrease (ascending) or never increase (descending). |
| ProcessTable.SortInPlace | components/ProcessTable.tsx:47 | The array ends sorted and holds the same processes. |
| ProcessTable.NextConfig | components/ProcessTable.tsx:60-66 | Descending exactly when the same key is currently ascending. |
| ProcessTable.RequestSortAlternates | components/ProcessTable.tsx:60-66 | Clicking the same header again flips the direction. |
| ProcessTable.ProcessTable.SortedProcesses | components/ProcessTable.tsx:44-58 | Unsorted: the input order. Sorted: a sorted permutation of the input. |
| DepartmentSelector.AllowedDepartments | components/layout/DepartmentSelector.tsx:17 | Exactly the departments in the user's allowed ids, in table order. |
| DepartmentSelector.Menu | components/layout/DepartmentSelector.tsx:16-34 | Nothing exactly when the current department is unknown; otherwise one entry per allowed department, ticked exactly for the current one. |
| DepartmentSelector.OnlyCurrentChecked | components/layout/DepartmentSelector.tsx:71 | With distinct ids, at most one entry is ticked, and one is exactly when the current department is allowed. |
| DepartmentSelector.SelectMakesCurrent | components/layout/DepartmentSelector.tsx:29-32 | Choosing an entry makes its department current, and the switcher then ticks it. |

## Left out

- `handleCreateProcess` (App.tsx:139-162) is not modelled. Its id formatting, `2024-00` followed by length + 126, has no distinctness guarantee. Its `!` lookups crash on an unknown department.
- Clock reads (`new Date()`, `toLocaleTimeString`, `Date.now()`) are parameters of the handlers that use them.
- `alert` and `console` output is not modelled, and neither are theme switching, navigation (`activeView`, `handleNavigate`, `handleSelectProcess`, `handleBackToList`) or the open/closed flags of the dialogs.
- UI-only state is not modelled: tabs, expanded movements, and menu `isOpen` in the department switcher and the rows. The switcher's `handleSelect` is modelled only as the store's `HandleDepartmentChange`, through `DepartmentSelector.SelectMakesCurrent`; the menu closing is not.
- React itself is not modelled: batching, stale closures and re-rendering. Only the outcome of the two double writes appears, under Findings.
- File sizes are integer byte counts. `NewSignatureDocModal.SizeMB` is exact real division, not floating point.
- `Text.Lower` folds ASCII letters only; JavaScript's `toLowerCase` folds all of Unicode.
- `Text.LexLess` compares characters. JavaScript compares strings by UTF-16 code units, so text outside the basic plane can order differently.
- `Types.FieldValue` keeps custom-field values as text or integer. Values typed `any`, and the process-type `drawflowData`, are otherwise opaque.
- Lookups by id (`find`) return the first match, and the update handlers change every match. Distinct ids, kept by the store invariant, make the two agree.
- ProcessTable.SortInPlace: does not prove that the order matches the engine's own `Array.prototype.sort` among processes with equal ids. With distinct ids, a sorted permutation is unique.
- EditProcessType.UpdateFormField: the update carries only the label, kind and required flag, which are all the page edits. A `Partial<FormField>` could also replace the id.
- EditUserModal.EditUserModal.HandleDeptCheckboxChange: can add the primary department when it was not yet allowed. Like the source, it relies on the disabled checkbox (EditUserModal.tsx:66) rather than on the handler.
- App.Store.HandleSimulateEmailRead: requires that the id names a notification. The page offers the button only on notifications. `ProcessHandlers.SimulateEmailReadOnFileBreaksShape` shows what the handler does to a File.
- The shown text of the sign-in, register and password pages, the profile page, the tags, the sidebar and the header are not modelled.

## Findings

| source | as written | input that shows it | evidently intended | confidence | as-written member | corrected member |
|---|---|---|---|---|---|---|
| App.tsx:279-298 | `addMovement` and the department update each map the same `processes` snapshot, so the second `setProcesses` discards the appended Send movement | sending seed process 2024-00123 (Recursos Humanos) to department 5 (Marketing): the process moves to Marketing, but its last movement still goes to Recursos Humanos | the process gains one Send movement and moves to the target | not executed | ProcessHandlers.SendProcessAsWritten, ProcessHandlers.SendAsWrittenLosesMovement, ProcessHandlers.SendAsWrittenBreaksValid | ProcessHandlers.SendProcess, ProcessHandlers.SendProcessKeepsValid |
| App.tsx:262-276 | the Return movement from `addMovement` is overwritten by the department update computed from the same snapshot | returning any selected process with two or more movements whose previous target is a known department | the process gains one Return movement and moves back | not executed | ProcessHandlers.ReturnProcessAsWritten, ProcessHandlers.ReturnAsWrittenLosesMovement | ProcessHandlers.ReturnProcess, ProcessHandlers.ReturnProcessKeepsValid |
