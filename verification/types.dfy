/**
 * The records and enumerations of the workflow store. Enumerations become
 * datatypes with one constructor per member (so `SignatoryStatus` has exactly
 * the two values Pending and Signed, `RequestStatus` exactly Pending and
 * Received, `NotificationStatus` exactly Sent and Read); optional fields become
 * `Option`s; unions of literals become small datatypes.
 */
module Types {
  import opened Common

  datatype DeviceKind = Desktop | Mobile

  datatype ConnectedDevice = ConnectedDevice(
    id: string, kind: DeviceKind, browser: string, os: string,
    location: string, lastAccess: string, isCurrent: bool)

  datatype UserType = Internal | Company | Citizen | Admin

  /** `canRequestSignatureFromDeptIds`: the literal 'all' or a list of department ids. */
  datatype DepartmentScope = AllDepartments | DepartmentIds(ids: seq<int>)

  datatype UserPermissions = UserPermissions(
    canAccessSignatureModule: bool,
    signatureRoles: seq<string>,
    canRequestSignatureFromDeptIds: DepartmentScope)

  datatype User = User(
    id: int, name: string, role: string, avatarUrl: string,
    departmentId: int,            // the primary department
    currentDepartmentId: int,
    allowedDepartmentIds: seq<int>,
    email: string, phone: string, address: string, cpfCnpj: string,
    connectedDevices: seq<ConnectedDevice>,
    userType: UserType,
    permissions: UserPermissions)

  /** The users whose ids are checked in a selection list, in the order of `users`. */
  function SelectedUsers(users: seq<User>, selected: seq<int>): (r: seq<User>)
    ensures forall u :: u in r <==> u in users && u.id in selected
    ensures SubsequenceOf(r, users)
  {
    Filter(users, (u: User) => u.id in selected)
  }

  datatype Department = Department(id: int, name: string, acronym: string, organization: string)

  datatype ProcessStatus = InProgress | Sent | Archived | Pending

  datatype ProcessAction = Creation | Send | Distribution | Return | Analysis | Archive

  datatype ProcessMovement = ProcessMovement(
    id: int, date: string, time: string, from: string, to: string,
    action: ProcessAction, user: string, details: Option<string>, isPublic: bool)

  datatype DocumentType = File | ExternalRequest | ExternalNotification

  /** The literal union `'PDF' | 'Imagem' | 'Nota' | 'Email'` of a file document. */
  datatype FileKind = Pdf | Image | Note | Email

  datatype RequestStatus = Pending | Received

  datatype NotificationStatus = Sent | Read

  /**
   * A process document. As in the record it models, every variant-specific
   * field is optional on every document; `WellShaped` says which ones a
   * document of each `docType` carries.
   */
  datatype ProcessDocument = ProcessDocument(
    id: int, docType: DocumentType, name: string, addedAt: string, addedBy: string,
    // docType = File
    fileType: Option<FileKind>, isPublic: Option<bool>,
    // docType = ExternalRequest
    requestStatus: Option<RequestStatus>, requestedTo: Option<string>,
    requestedDocuments: Option<seq<string>>,
    // docType = ExternalNotification
    notificationStatus: Option<NotificationStatus>, sentTo: Option<string>,
    message: Option<string>, sentDocumentIds: Option<seq<int>>)

  predicate HasFileFields(d: ProcessDocument) {
    d.fileType.Some? && d.isPublic.Some?
  }
  predicate HasNoFileFields(d: ProcessDocument) {
    d.fileType.None? && d.isPublic.None?
  }
  predicate HasRequestFields(d: ProcessDocument) {
    d.requestStatus.Some? && d.requestedTo.Some? && d.requestedDocuments.Some?
  }
  predicate HasNoRequestFields(d: ProcessDocument) {
    d.requestStatus.None? && d.requestedTo.None? && d.requestedDocuments.None?
  }
  predicate HasNotificationFields(d: ProcessDocument) {
    d.notificationStatus.Some? && d.sentTo.Some? && d.message.Some? && d.sentDocumentIds.Some?
  }
  predicate HasNoNotificationFields(d: ProcessDocument) {
    d.notificationStatus.None? && d.sentTo.None? && d.message.None? && d.sentDocumentIds.None?
  }

  /** A document carries exactly the optional fields of its own `docType`. */
  predicate WellShaped(d: ProcessDocument) {
    match d.docType
    case File => HasFileFields(d) && HasNoRequestFields(d) && HasNoNotificationFields(d)
    case ExternalRequest => HasNoFileFields(d) && HasRequestFields(d) && HasNoNotificationFields(d)
    case ExternalNotification => HasNoFileFields(d) && HasNoRequestFields(d) && HasNotificationFields(d)
  }

  /** The values a form puts into `customFields` (text inputs and the seed's numbers). */
  datatype FieldValue = TextValue(text: string) | NumberValue(number: int)

  datatype Process = Process(
    id: string, typeId: int, subject: string, requester: string, requesterCPF: string,
    category: string, status: ProcessStatus, department: Department, lastMoved: string,
    isFavorite: bool, isConfidential: bool,
    movements: seq<ProcessMovement>,
    documents: seq<ProcessDocument>,
    interestedParties: seq<string>,
    allowedReceivers: Option<seq<string>>,   // names of the users allowed to receive
    customFields: Option<map<string, FieldValue>>)

  datatype SignatoryStatus = Pending | Signed

  datatype SignatoryType = Internal | External

  /** `id` is `String(user.id)` for an internal signatory and the e-mail address for an external one. */
  datatype Signatory = Signatory(id: string, name: string, kind: SignatoryType, status: SignatoryStatus)

  /** What a request for signatures carries: a signatory without its status. */
  datatype SignatoryRequest = SignatoryRequest(id: string, name: string, kind: SignatoryType)

  datatype SignatureFileType = PDF | DOCX

  /** `sizeMB` is an exact rational here (bytes / 1048576). */
  datatype FileDetails = FileDetails(fileType: SignatureFileType, sizeMB: real)

  datatype SignatureDocument = SignatureDocument(
    id: int, name: string, uploaderId: int, requestedAt: string, isFavorite: bool,
    fileDetails: FileDetails, signatories: seq<Signatory>)

  datatype FormFieldType = Text | TextArea | Number | Date

  datatype FormField = FormField(id: string, labelText: string, kind: FormFieldType, required: bool)

  datatype AttachmentKind = PdfAttachment | ImageAttachment

  datatype AttachmentConfig = AttachmentConfig(id: string, name: string, kind: AttachmentKind, required: bool)

  datatype ProcessTypeKind = InternalType | ExternalType

  datatype CoverConfig = CoverConfig(title: string, showLogo: bool)

  datatype ProcessType = ProcessType(
    id: int, name: string, kind: ProcessTypeKind, coverConfig: CoverConfig,
    formFields: seq<FormField>, attachments: seq<AttachmentConfig>)
}
