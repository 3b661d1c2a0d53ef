/**
 * The dialog for asking users, or an external e-mail address, to sign a
 * document. An internal user is identified on the document by the text of
 * the user's id.
 */
module RequestSignatureModal {
  import opened Common
  import opened Types
  import Text
  import opened SignatureHandlers

  datatype RequestTab = InternalTab | ExternalTab

  /** The ids of the document's internal signatories. */
  function InternalIds(doc: SignatureDocument): seq<string> {
    SignatoryIds(Filter(doc.signatories, (s: Signatory) => s.kind == SignatoryType.Internal))
  }

  /** The users offered for selection: those not yet an internal signatory of the document. */
  function AvailableUsers(doc: SignatureDocument, users: seq<User>): (r: seq<User>)
    ensures SubsequenceOf(r, users)
    ensures forall u :: u in r <==>
      (u in users && !exists s :: s in doc.signatories && s.kind == SignatoryType.Internal && s.id == UserSignatoryId(u))
  {
    var ids := InternalIds(doc);
    var internal := Filter(doc.signatories, (s: Signatory) => s.kind == SignatoryType.Internal);
    assert forall id :: id in ids <==> exists s :: s in doc.signatories && s.kind == SignatoryType.Internal && s.id == id by {
      forall id | id in ids ensures exists s :: s in doc.signatories && s.kind == SignatoryType.Internal && s.id == id {
        var k :| 0 <= k < |ids| && ids[k] == id;
        assert internal[k] in internal;
      }
      forall s | s in doc.signatories && s.kind == SignatoryType.Internal ensures s.id in ids {
        assert s in internal;
        var k :| 0 <= k < |internal| && internal[k] == s;
        assert ids[k] == s.id;
      }
    }
    Filter(users, (u: User) => UserSignatoryId(u) !in ids)
  }

  /** The request for one internal user. */
  function InternalRequest(u: User): SignatoryRequest {
    SignatoryRequest(UserSignatoryId(u), u.name, SignatoryType.Internal)
  }

  /**
   * The internal requests: one per selected user, in the order of the full
   * user list (not only of the users offered).
   */
  function InternalRequests(users: seq<User>, selected: seq<int>): (r: seq<SignatoryRequest>)
    ensures |r| <= |users|
    ensures forall u :: u in users && u.id in selected ==> InternalRequest(u) in r
    ensures forall q :: q in r ==>
      (q.kind == SignatoryType.Internal && exists u :: u in users && u.id in selected && q == InternalRequest(u))
    ensures |r| == |SelectedUsers(users, selected)|
    ensures forall k :: 0 <= k < |r| ==> r[k] == InternalRequest(SelectedUsers(users, selected)[k])
  {
    var chosen := SelectedUsers(users, selected);
    var r := Map(chosen, InternalRequest);
    forall u | u in users && u.id in selected ensures InternalRequest(u) in r {
      MapContains(chosen, InternalRequest, u);
    }
    forall q | q in r ensures exists u :: u in users && u.id in selected && q == InternalRequest(u) {
      var u := MapPreimage(chosen, InternalRequest, q);
      assert u in users && u.id in selected;
    }
    r
  }

  /** The display name given to an external signatory. */
  function ExternalName(email: string): string {
    "Usuário Externo (" + email + ")"
  }

  /** The signatories a click on "add" asks for, on the active tab. */
  function Requested(tab: RequestTab, users: seq<User>, selected: seq<int>, email: string): (r: seq<SignatoryRequest>)
    ensures tab == ExternalTab && email == "" ==> r == []
    ensures tab == ExternalTab && email != "" ==> r == [SignatoryRequest(email, ExternalName(email), External)]
    ensures tab == InternalTab ==> r == InternalRequests(users, selected)
  {
    match tab
    case InternalTab => InternalRequests(users, selected)
    case ExternalTab => if email != "" then [SignatoryRequest(email, ExternalName(email), External)] else []
  }

  class RequestSignatureModal {
    var activeTab: RequestTab
    var selectedUserIds: seq<int>
    var externalEmail: string

    ghost predicate Valid()
      reads this
    {
      Distinct(selectedUserIds)
    }

    /** The state `handleClose` leaves behind. */
    ghost predicate IsReset()
      reads this
    {
      activeTab == InternalTab && selectedUserIds == [] && externalEmail == ""
    }

    constructor()
      ensures Valid() && IsReset()
    {
      activeTab := InternalTab;
      selectedUserIds := [];
      externalEmail := "";
    }

    method SetActiveTab(tab: RequestTab)
      requires Valid()
      modifies this
      ensures Valid()
      ensures activeTab == tab && selectedUserIds == old(selectedUserIds) && externalEmail == old(externalEmail)
    {
      activeTab := tab;
    }

    method SetExternalEmail(email: string)
      requires Valid()
      modifies this
      ensures Valid()
      ensures externalEmail == email && activeTab == old(activeTab) && selectedUserIds == old(selectedUserIds)
    {
      externalEmail := email;
    }

    /** `handleCheckboxChange`: exactly one id changes membership. */
    method HandleCheckboxChange(userId: int)
      requires Valid()
      modifies this
      ensures Valid()
      ensures selectedUserIds == Toggle(old(selectedUserIds), userId)
      ensures activeTab == old(activeTab) && externalEmail == old(externalEmail)
    {
      selectedUserIds := Toggle(selectedUserIds, userId);
    }

    /**
     * `handleRequest`: the request handler is called only when there is
     * somebody to ask; the dialog is reset either way.
     */
    method HandleRequest(users: seq<User>) returns (requested: Option<seq<SignatoryRequest>>)
      requires Valid()
      modifies this
      ensures Valid() && IsReset()
      ensures var r := Requested(old(activeTab), users, old(selectedUserIds), old(externalEmail));
        requested == if r == [] then None else Some(r)
    {
      var r := Requested(activeTab, users, selectedUserIds, externalEmail);
      if |r| > 0 {
        requested := Some(r);
      } else {
        requested := None;
      }
      HandleClose();
    }

    /** `handleClose`. */
    method HandleClose()
      modifies this
      ensures Valid() && IsReset()
    {
      selectedUserIds := [];
      externalEmail := "";
      activeTab := InternalTab;
    }
  }

  /**
   * Once the store has added the requested users to the document, none of
   * them is offered again - unless the document already listed the user's id
   * as an external signatory, which the store's duplicate check skips.
   */
  lemma RequestedUsersNoLongerAvailable(docs: seq<SignatureDocument>, i: nat, users: seq<User>, selected: seq<int>, u: User)
    requires i < |docs|
    requires u in users && u.id in selected
    requires forall s :: s in docs[i].signatories && s.id == UserSignatoryId(u) ==> s.kind == SignatoryType.Internal
    ensures var after := RequestSignatures(docs, docs[i].id, InternalRequests(users, selected));
      u !in AvailableUsers(after[i], users)
  {
    var reqs := InternalRequests(users, selected);
    var d := docs[i];
    var added := PendingAdditions(d.signatories, reqs);
    var q := InternalRequest(u);
    assert q in reqs;
    var after := RequestSignatures(docs, d.id, reqs);
    assert after[i].signatories == d.signatories + added;
    if q.id in SignatoryIds(d.signatories) {
      var k :| 0 <= k < |d.signatories| && SignatoryIds(d.signatories)[k] == q.id;
      var s := d.signatories[k];
      assert s in after[i].signatories && s.kind == SignatoryType.Internal && s.id == UserSignatoryId(u);
    } else {
      var s := Signatory(q.id, q.name, q.kind, SignatoryStatus.Pending);
      assert s in added;
      assert s in after[i].signatories && s.kind == SignatoryType.Internal && s.id == UserSignatoryId(u);
    }
  }
}

/**
 * The dialog for uploading a document to be signed: only Word (`.docx`) files
 * up to 9 MiB and PDF files up to 50 MiB are accepted.
 */
module NewSignatureDocModal {
  import opened Common
  import opened Types

  /** A file picked in the browser: its name, MIME type and size in bytes. */
  datatype PickedFile = PickedFile(name: string, mimeType: string, size: nat)

  /** What the dialog hands to the store's upload handler. */
  datatype Upload = Upload(name: string, fileType: SignatureFileType, sizeMB: real)

  const WordMimeType := "application/vnd.openxmlformats-officedocument.wordprocessingml.document"
  const PdfMimeType := "application/pdf"
  const WordTooLarge := "Arquivos Word não podem exceder 9MB."
  const PdfTooLarge := "Arquivos PDF não podem exceder 50MB."
  const InvalidType := "Tipo de arquivo inválido. Apenas .docx e .pdf são permitidos."

  const BytesPerMB: nat := 1048576

  /** `size / 1024 / 1024`. */
  function SizeMB(f: PickedFile): real {
    f.size as real / BytesPerMB as real
  }

  /** The error a file is rejected with, or nothing when it is accepted, in the order the checks are made. */
  function Rejection(f: PickedFile): (r: Option<string>)
    ensures r.None? <==>
      ((f.mimeType == WordMimeType && f.size <= 9 * BytesPerMB) || (f.mimeType == PdfMimeType && f.size <= 50 * BytesPerMB))
    ensures r.Some? ==> r.value != ""
  {
    SizeLimit(f.size, 9);
    SizeLimit(f.size, 50);
    var isWord := f.mimeType == WordMimeType;
    var isPdf := f.mimeType == PdfMimeType;
    if isWord && SizeMB(f) > 9.0 then Some(WordTooLarge)
    else if isPdf && SizeMB(f) > 50.0 then Some(PdfTooLarge)
    else if isWord || isPdf then None
    else Some(InvalidType)
  }

  /** A limit in megabytes is a limit in whole bytes. */
  lemma SizeLimit(size: nat, limit: nat)
    ensures size as real / BytesPerMB as real > limit as real <==> size > limit * BytesPerMB
  {
    var q := size as real / BytesPerMB as real;
    assert q * BytesPerMB as real == size as real;
    assert (limit * BytesPerMB) as real == limit as real * BytesPerMB as real;
  }

  class NewSignatureDocModal {
    var file: Option<PickedFile>
    var error: string

    /** A file is held only when it was accepted, and then no error is shown. */
    ghost predicate Valid()
      reads this
    {
      file.Some? ==> error == "" && Rejection(file.value).None?
    }

    constructor()
      ensures Valid() && file.None? && error == ""
    {
      file := None;
      error := "";
    }

    /** The submit button is disabled without a file or with an error. */
    predicate SubmitDisabled()
      reads this
    {
      file.None? || error != ""
    }

    /**
     * `handleFileChange`: an accepted file replaces the held one and clears
     * the error; a rejected one drops the held file and shows why; picking
     * nothing changes nothing.
     */
    method HandleFileChange(selected: Option<PickedFile>)
      requires Valid()
      modifies this
      ensures Valid()
      ensures selected.None? ==> file == old(file) && error == old(error)
      ensures selected.Some? && Rejection(selected.value).None? ==> file == selected && error == ""
      ensures selected.Some? && Rejection(selected.value).Some? ==> file.None? && error == Rejection(selected.value).value
    {
      if selected.Some? {
        var f := selected.value;
        var isWord := f.mimeType == WordMimeType;
        var isPdf := f.mimeType == PdfMimeType;
        var sizeMB := f.size as real / BytesPerMB as real;
        if isWord && sizeMB > 9.0 {
          error := WordTooLarge;
          file := None;
        } else if isPdf && sizeMB > 50.0 {
          error := PdfTooLarge;
          file := None;
        } else if isWord || isPdf {
          error := "";
          file := Some(f);
        } else {
          error := InvalidType;
          file := None;
        }
      }
    }

    /**
     * `handleSubmit`: a held file is handed on as a PDF when its type says so
     * and as DOCX otherwise, and the dialog is emptied. Since only accepted
     * files are held, DOCX is handed on exactly for Word files.
     */
    method HandleSubmit() returns (upload: Option<Upload>)
      requires Valid()
      modifies this
      ensures Valid()
      ensures old(file).None? ==> upload.None? && file.None? && error == old(error)
      ensures old(file).Some? ==>
        (file.None? && error == "" && upload.Some?
         && upload.value.name == old(file).value.name
         && upload.value.sizeMB == SizeMB(old(file).value)
         && (upload.value.fileType == PDF <==> old(file).value.mimeType == PdfMimeType)
         && (upload.value.fileType == DOCX <==> old(file).value.mimeType == WordMimeType)
         && upload.value.sizeMB <= 50.0)
    {
      if file.Some? {
        var f := file.value;
        var fileType := if f.mimeType == PdfMimeType then PDF else DOCX;
        upload := Some(Upload(f.name, fileType, f.size as real / BytesPerMB as real));
        file := None;
        error := "";
      } else {
        upload := None;
      }
    }
  }
}
