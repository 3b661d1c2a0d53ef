/**
 * The permission flags of one row of the signature module: who may sign a
 * document, who sees its action menu, and which actions the menu offers.
 * A user is identified on a document by the text of the user's id.
 */
module DocumentRow {
  import opened Common
  import opened Types
  import opened SignatureHandlers

  predicate IsUploader(doc: SignatureDocument, user: User) {
    doc.uploaderId == user.id
  }

  predicate UserIsSignatory(doc: SignatureDocument, user: User) {
    IsSignatory(doc, UserSignatoryId(user))
  }

  predicate HasUserSigned(doc: SignatureDocument, user: User) {
    HasEntry(doc, UserSignatoryId(user), Signed)
  }

  predicate IsPendingForCurrentUser(doc: SignatureDocument, user: User) {
    HasEntry(doc, UserSignatoryId(user), SignatoryStatus.Pending)
  }

  /** The sign action is enabled: a pending entry of the user's, or an uploader who has not signed. */
  predicate CanSign(doc: SignatureDocument, user: User) {
    IsPendingForCurrentUser(doc, user) || (IsUploader(doc, user) && !HasUserSigned(doc, user))
  }

  /** The action menu is shown. */
  predicate CanTakeAction(doc: SignatureDocument, user: User) {
    IsUploader(doc, user) || UserIsSignatory(doc, user)
  }

  /** What the row offers the user. */
  datatype RowActions = RowActions(
    signShown: bool,          // the sign entry of the menu
    signEnabled: bool,        // ... and whether it can be clicked
    requestShown: bool,       // "request signature"
    deleteShown: bool,        // "delete"
    checkboxShown: bool)      // the batch-selection checkbox

  /**
   * The row's actions: the sign entry is shown to the uploader and to
   * signatories and enabled by `CanSign`; requesting signatures, deleting and
   * the selection checkbox are the uploader's alone.
   */
  function Actions(doc: SignatureDocument, user: User): (r: RowActions)
    ensures r.signEnabled ==> r.signShown
    ensures r.requestShown <==> IsUploader(doc, user)
    ensures r.requestShown == r.deleteShown == r.checkboxShown
    ensures r.requestShown ==> r.signShown
  {
    CanSignImpliesCanTakeAction(doc, user);
    RowActions(CanTakeAction(doc, user), CanSign(doc, user), IsUploader(doc, user), IsUploader(doc, user), IsUploader(doc, user))
  }

  /** A pending entry of the user's lets the user sign. */
  lemma PendingCanSign(doc: SignatureDocument, user: User, s: Signatory)
    requires s in doc.signatories && s.id == UserSignatoryId(user) && s.status == SignatoryStatus.Pending
    ensures CanSign(doc, user)
  {
  }

  /** The uploader may sign while not yet signed, whether or not listed as a signatory. */
  lemma UploaderMaySign(doc: SignatureDocument, user: User)
    requires doc.uploaderId == user.id
    requires forall s :: s in doc.signatories && s.id == UserSignatoryId(user) ==> s.status != Signed
    ensures CanSign(doc, user)
  {
  }

  /** With the user's entry unique on the document and already Signed, the user cannot sign. */
  lemma SignedOnceCannotSign(doc: SignatureDocument, user: User, i: nat)
    requires Distinct(SignatoryIds(doc.signatories))
    requires i < |doc.signatories| && doc.signatories[i].id == UserSignatoryId(user) && doc.signatories[i].status == Signed
    ensures !CanSign(doc, user)
  {
    var uid := UserSignatoryId(user);
    forall s | s in doc.signatories && s.id == uid ensures s.status == Signed {
      var j :| 0 <= j < |doc.signatories| && doc.signatories[j] == s;
      assert SignatoryIds(doc.signatories)[j] == uid;
    }
  }

  /** Whoever can sign sees the action menu; the menu is shown exactly to the uploader and the listed signatories. */
  lemma CanSignImpliesCanTakeAction(doc: SignatureDocument, user: User)
    ensures CanSign(doc, user) ==> CanTakeAction(doc, user)
    ensures CanTakeAction(doc, user) <==> doc.uploaderId == user.id || UserSignatoryId(user) in SignatoryIds(doc.signatories)
  {
    var uid := UserSignatoryId(user);
    if IsSignatory(doc, uid) {
      var s :| s in doc.signatories && s.id == uid;
      var k :| 0 <= k < |doc.signatories| && doc.signatories[k] == s;
      assert SignatoryIds(doc.signatories)[k] == uid;
    }
    if uid in SignatoryIds(doc.signatories) {
      var k :| 0 <= k < |doc.signatories| && SignatoryIds(doc.signatories)[k] == uid;
      assert doc.signatories[k] in doc.signatories;
    }
  }

  /** After the user signs a document, the document no longer offers the user a signature. */
  lemma SigningEndsCanSign(doc: SignatureDocument, user: User)
    ensures var signed := SignFor(doc, UserSignatoryId(user), user.name);
      HasUserSigned(signed, user) && !CanSign(signed, user)
  {
    SignForSigns(doc, UserSignatoryId(user), user.name);
  }
}

/**
 * The tabs of the signature inbox: documents waiting for the user's
 * signature, documents the user signed, and documents others shared with the
 * user.
 */
module InboxView {
  import opened Common
  import opened Types
  import opened SignatureHandlers

  datatype InboxTab = PendingTab | SignedTab | SharedTab

  function TabFilter(user: User, tab: InboxTab): SignatureDocument -> bool {
    var uid := UserSignatoryId(user);
    match tab
    case PendingTab => (d: SignatureDocument) => HasEntry(d, uid, SignatoryStatus.Pending)
    case SignedTab => (d: SignatureDocument) => HasEntry(d, uid, Signed)
    case SharedTab => (d: SignatureDocument) => d.uploaderId != user.id && IsSignatory(d, uid)
  }

  /** The documents listed under a tab, in their original order. */
  function FilteredDocs(docs: seq<SignatureDocument>, user: User, tab: InboxTab): (r: seq<SignatureDocument>)
    ensures SubsequenceOf(r, docs)
    ensures tab == PendingTab ==>
      forall d :: d in r <==> d in docs && HasEntry(d, UserSignatoryId(user), SignatoryStatus.Pending)
    ensures tab == SignedTab ==>
      forall d :: d in r <==> d in docs && HasEntry(d, UserSignatoryId(user), Signed)
    ensures tab == SharedTab ==>
      forall d :: d in r <==> d in docs && d.uploaderId != user.id && IsSignatory(d, UserSignatoryId(user))
  {
    Filter(docs, TabFilter(user, tab))
  }

  /** With one entry per signatory on every document, no document is both pending and signed for the user. */
  lemma PendingAndSignedDisjoint(docs: seq<SignatureDocument>, user: User)
    requires forall d :: d in docs ==> Distinct(SignatoryIds(d.signatories))
    ensures forall d :: d in FilteredDocs(docs, user, PendingTab) ==> d !in FilteredDocs(docs, user, SignedTab)
  {
    var uid := UserSignatoryId(user);
    forall d | d in FilteredDocs(docs, user, PendingTab) ensures d !in FilteredDocs(docs, user, SignedTab) {
      var p :| p in d.signatories && p.id == uid && p.status == SignatoryStatus.Pending;
      var i :| 0 <= i < |d.signatories| && d.signatories[i] == p;
      forall s | s in d.signatories && s.id == uid ensures s.status != Signed {
        var j :| 0 <= j < |d.signatories| && d.signatories[j] == s;
        assert SignatoryIds(d.signatories)[j] == uid;
      }
    }
  }

  /** The documents the user has just signed leave the pending tab and appear under the signed tab. */
  lemma SignedDocsMoveTabs(docs: seq<SignatureDocument>, ids: seq<int>, user: User)
    ensures var after := SignDocs(docs, ids, Some(user));
      forall d :: d in after && d.id in ids ==> d !in FilteredDocs(after, user, PendingTab) && d in FilteredDocs(after, user, SignedTab)
  {
    var after := SignDocs(docs, ids, Some(user));
    forall d | d in after && d.id in ids
      ensures !HasEntry(d, UserSignatoryId(user), SignatoryStatus.Pending) && HasEntry(d, UserSignatoryId(user), Signed)
    {
      var i :| 0 <= i < |after| && after[i] == d;
      SignForSigns(docs[i], UserSignatoryId(user), user.name);
    }
  }
}

/**
 * The list of documents the user uploaded, with the batch selection: a set
 * of document ids toggled one at a time and emptied after a batch action.
 */
module SentView {
  import opened Common
  import opened Types

  /** The documents the user uploaded, in their original order. */
  function SentDocs(docs: seq<SignatureDocument>, user: User): (r: seq<SignatureDocument>)
    ensures forall d :: d in r <==> d in docs && d.uploaderId == user.id
    ensures SubsequenceOf(r, docs)
  {
    Filter(docs, (d: SignatureDocument) => d.uploaderId == user.id)
  }

  class SentView {
    /** The selection, in the order ids were added. */
    var selectedDocIds: seq<int>

    ghost predicate Valid()
      reads this
    {
      Distinct(selectedDocIds)
    }

    constructor()
      ensures Valid() && selectedDocIds == []
    {
      selectedDocIds := [];
    }

    /** `handleSelectDoc`: the id leaves the selection if present and joins it otherwise. */
    method HandleSelectDoc(docId: int)
      requires Valid()
      modifies this
      ensures Valid()
      ensures selectedDocIds == Toggle(old(selectedDocIds), docId)
      ensures docId in selectedDocIds <==> docId !in old(selectedDocIds)
      ensures forall x :: x != docId ==> (x in selectedDocIds <==> x in old(selectedDocIds))
    {
      selectedDocIds := Toggle(selectedDocIds, docId);
    }

    /** `handleBatchDelete`: the selected ids are passed on, and the selection is emptied. */
    method HandleBatchDelete() returns (docIds: seq<int>)
      requires Valid()
      modifies this
      ensures Valid()
      ensures docIds == old(selectedDocIds) && selectedDocIds == []
    {
      docIds := selectedDocIds;
      selectedDocIds := [];
    }

    /** `handleBatchSign`: the selected ids are passed on, and the selection is emptied. */
    method HandleBatchSign() returns (docIds: seq<int>)
      requires Valid()
      modifies this
      ensures Valid()
      ensures docIds == old(selectedDocIds) && selectedDocIds == []
    {
      docIds := selectedDocIds;
      selectedDocIds := [];
    }
  }
}
