/**
 * The signature-module handlers of the workflow store as functions on the
 * list of signature documents: toggle a favourite, upload with a fresh id,
 * delete, sign, and request signatories. A signatory's id is the user id as
 * text for an internal signatory and the e-mail address for an external one.
 */
module SignatureHandlers {
  import opened Common
  import opened Types
  import Text

  function DocIds(docs: seq<SignatureDocument>): seq<int> {
    Map(docs, (d: SignatureDocument) => d.id)
  }

  function SignatoryIds(sigs: seq<Signatory>): seq<string> {
    Map(sigs, (s: Signatory) => s.id)
  }

  /** The signatory id of an internal user: `String(user.id)`. */
  function UserSignatoryId(u: User): string {
    Text.IntToString(u.id)
  }

  /** `doc.signatories.some(s => s.id === uid)`. */
  predicate IsSignatory(doc: SignatureDocument, uid: string) {
    exists s :: s in doc.signatories && s.id == uid
  }

  /** `doc.signatories.some(s => s.id === uid && s.status === status)`. */
  predicate HasEntry(doc: SignatureDocument, uid: string, status: SignatoryStatus) {
    exists s :: s in doc.signatories && s.id == uid && s.status == status
  }

  // ------------------------------------------------ handleToggleSignatureDocFavorite

  /** `isFavorite` flipped on the documents with that id; nothing else changes. */
  function ToggleFavorite(docs: seq<SignatureDocument>, docId: int): (r: seq<SignatureDocument>)
    ensures |r| == |docs|
    ensures forall i :: 0 <= i < |docs| ==>
      r[i] == docs[i].(isFavorite := if docs[i].id == docId then !docs[i].isFavorite else docs[i].isFavorite)
  {
    Map(docs, (d: SignatureDocument) => if d.id == docId then d.(isFavorite := !d.isFavorite) else d)
  }

  /** Toggling the same favourite twice gives back the list. */
  lemma ToggleFavoriteTwice(docs: seq<SignatureDocument>, docId: int)
    ensures ToggleFavorite(ToggleFavorite(docs, docId), docId) == docs
  {
    var once := ToggleFavorite(docs, docId);
    forall i | 0 <= i < |docs| ensures ToggleFavorite(once, docId)[i] == docs[i] {
      // the first toggle keeps the id, so the second toggle selects the same documents
      assert once[i].id == docs[i].id;
    }
  }

  lemma ToggleFavoriteKeepsIds(docs: seq<SignatureDocument>, docId: int)
    ensures DocIds(ToggleFavorite(docs, docId)) == DocIds(docs)
  {
  }

  // ------------------------------------------------------- handleUploadSignatureDoc

  /** `Math.max(...docs.map(d => d.id), 0)`. */
  function MaxId(docs: seq<SignatureDocument>): (m: int)
    ensures m >= 0
    ensures forall d :: d in docs ==> d.id <= m
    ensures m == 0 || exists d :: d in docs && d.id == m
  {
    if docs == [] then 0
    else
      var rest := MaxId(docs[1..]);
      assert forall d :: d in docs ==> d == docs[0] || d in docs[1..];
      if docs[0].id > rest then docs[0].id else rest
  }

  /**
   * `handleUploadSignatureDoc`: without a current user nothing changes;
   * otherwise a new document with an id above every existing id, uploaded by
   * that user, not a favourite and with no signatories, is put in front.
   */
  function UploadDoc(docs: seq<SignatureDocument>, user: Option<User>, name: string,
                     fileType: SignatureFileType, sizeMB: real, today: string): (r: seq<SignatureDocument>)
    ensures user.None? ==> r == docs
    ensures user.Some? ==>
      && |r| == |docs| + 1 && r[1..] == docs
      && r[0] == SignatureDocument(r[0].id, name, user.value.id, today, false, FileDetails(fileType, sizeMB), [])
      && r[0].id >= 1
      && forall d :: d in docs ==> d.id < r[0].id
    ensures user.Some? ==> r[0].id == MaxId(docs) + 1
  {
    if user.None? then docs
    else
      var newDoc := SignatureDocument(MaxId(docs) + 1, name, user.value.id, today, false, FileDetails(fileType, sizeMB), []);
      [newDoc] + docs
  }

  /** A fresh id keeps document ids distinct. */
  lemma UploadKeepsIdsDistinct(docs: seq<SignatureDocument>, user: Option<User>, name: string,
                               fileType: SignatureFileType, sizeMB: real, today: string)
    requires Distinct(DocIds(docs))
    ensures Distinct(DocIds(UploadDoc(docs, user, name, fileType, sizeMB, today)))
  {
    var r := UploadDoc(docs, user, name, fileType, sizeMB, today);
    if user.Some? {
      forall i, j | 0 <= i < j < |r| ensures DocIds(r)[i] != DocIds(r)[j] {
        assert r[j] == docs[j - 1];
        if i > 0 {
          assert r[i] == docs[i - 1];
          assert DocIds(docs)[i - 1] != DocIds(docs)[j - 1];
        } else {
          assert docs[j - 1] in docs;
        }
      }
    }
  }

  // ------------------------------------------------------ handleDeleteSignatureDocs

  /** `handleDeleteSignatureDocs`: exactly the documents whose id is listed are removed; the rest keep their order. */
  function DeleteDocs(docs: seq<SignatureDocument>, ids: seq<int>): (r: seq<SignatureDocument>)
    ensures forall d :: d in r <==> d in docs && d.id !in ids
    ensures SubsequenceOf(r, docs)
  {
    Filter(docs, (d: SignatureDocument) => d.id !in ids)
  }

  lemma DeleteKeepsIdsDistinct(docs: seq<SignatureDocument>, ids: seq<int>)
    requires Distinct(DocIds(docs))
    ensures Distinct(DocIds(DeleteDocs(docs, ids)))
  {
    var key := (d: SignatureDocument) => d.id;
    DistinctKeys(docs, key);
    FilterKeepsDistinctBy(docs, (d: SignatureDocument) => d.id !in ids, key);
    DistinctKeys(DeleteDocs(docs, ids), key);
  }

  // -------------------------------------------------------- handleSignSignatureDocs

  /**
   * One document signed by a user: an existing entry with the user's id is
   * set to Signed, or a Signed internal entry is appended when there is none.
   */
  function SignFor(doc: SignatureDocument, uid: string, name: string): (r: SignatureDocument)
    ensures r == doc.(signatories := r.signatories)
    ensures IsSignatory(doc, uid) ==> |r.signatories| == |doc.signatories|
    ensures IsSignatory(doc, uid) ==> forall k :: 0 <= k < |doc.signatories| ==>
      r.signatories[k] == if doc.signatories[k].id == uid then doc.signatories[k].(status := Signed) else doc.signatories[k]
    ensures !IsSignatory(doc, uid) ==>
      r.signatories == doc.signatories + [Signatory(uid, name, SignatoryType.Internal, Signed)]
  {
    if IsSignatory(doc, uid) then
      doc.(signatories := Map(doc.signatories, (s: Signatory) => if s.id == uid then s.(status := Signed) else s))
    else
      doc.(signatories := doc.signatories + [Signatory(uid, name, SignatoryType.Internal, Signed)])
  }

  /** After signing, the user has a Signed entry and no Pending one; every other entry is unchanged. */
  lemma SignForSigns(doc: SignatureDocument, uid: string, name: string)
    ensures HasEntry(SignFor(doc, uid, name), uid, Signed)
    ensures !HasEntry(SignFor(doc, uid, name), uid, SignatoryStatus.Pending)
    ensures forall k :: 0 <= k < |doc.signatories| && doc.signatories[k].id != uid ==>
      SignFor(doc, uid, name).signatories[k] == doc.signatories[k]
  {
    var r := SignFor(doc, uid, name);
    if IsSignatory(doc, uid) {
      var s :| s in doc.signatories && s.id == uid;
      var k :| 0 <= k < |doc.signatories| && doc.signatories[k] == s;
      assert r.signatories[k] in r.signatories;
      forall t | t in r.signatories && t.id == uid ensures t.status == Signed {
        var j :| 0 <= j < |r.signatories| && r.signatories[j] == t;
      }
    } else {
      assert Last(r.signatories) in r.signatories;
    }
  }

  /** Signing twice is signing once. */
  lemma SignForIdempotent(doc: SignatureDocument, uid: string, name: string)
    ensures SignFor(SignFor(doc, uid, name), uid, name) == SignFor(doc, uid, name)
  {
    var once := SignFor(doc, uid, name);
    SignForSigns(doc, uid, name);
    var twice := SignFor(once, uid, name);
    assert twice.signatories == once.signatories;
  }

  /**
   * `handleSignSignatureDocs`: without a current user nothing changes;
   * otherwise every listed document is signed by that user and the others are
   * unchanged.
   */
  function SignDocs(docs: seq<SignatureDocument>, ids: seq<int>, user: Option<User>): (r: seq<SignatureDocument>)
    ensures |r| == |docs|
    ensures user.None? ==> r == docs
    ensures forall i :: 0 <= i < |docs| && docs[i].id !in ids ==> r[i] == docs[i]
    ensures user.Some? ==> forall i :: 0 <= i < |docs| && docs[i].id in ids ==>
      r[i] == SignFor(docs[i], UserSignatoryId(user.value), user.value.name)
  {
    if user.None? then docs
    else
      Map(docs, (d: SignatureDocument) =>
        if d.id in ids then SignFor(d, UserSignatoryId(user.value), user.value.name) else d)
  }

  lemma SignDocsKeepsIds(docs: seq<SignatureDocument>, ids: seq<int>, user: Option<User>)
    ensures DocIds(SignDocs(docs, ids, user)) == DocIds(docs)
  {
  }

  // ------------------------------------------------------- handleRequestSignatures

  /** The requests whose id is not already a signatory of the document, in request order. */
  function NewRequests(existing: seq<Signatory>, reqs: seq<SignatoryRequest>): (r: seq<SignatoryRequest>)
    ensures |r| <= |reqs|
    ensures forall q :: q in r <==> q in reqs && q.id !in SignatoryIds(existing)
    ensures SubsequenceOf(r, reqs)
  {
    var ids := SignatoryIds(existing);
    Filter(reqs, (q: SignatoryRequest) => q.id !in ids)
  }

  /**
   * The requested signatories not already on the document, in request order,
   * each with status Pending. Requests are not checked against each other.
   */
  function PendingAdditions(existing: seq<Signatory>, reqs: seq<SignatoryRequest>): (r: seq<Signatory>)
    ensures |r| <= |reqs|
    ensures forall s :: s in r ==> s.status == SignatoryStatus.Pending && s.id !in SignatoryIds(existing)
    ensures forall s :: s in r ==> SignatoryRequest(s.id, s.name, s.kind) in reqs
    ensures forall q :: q in reqs && q.id !in SignatoryIds(existing) ==>
      Signatory(q.id, q.name, q.kind, SignatoryStatus.Pending) in r
    ensures |r| == |NewRequests(existing, reqs)|
    ensures forall k :: 0 <= k < |r| ==>
      var q := NewRequests(existing, reqs)[k];
      r[k] == Signatory(q.id, q.name, q.kind, SignatoryStatus.Pending)
  {
    var ids := SignatoryIds(existing);
    var kept := NewRequests(existing, reqs);
    var r := Map(kept, (q: SignatoryRequest) => Signatory(q.id, q.name, q.kind, SignatoryStatus.Pending));
    assert forall q :: q in kept ==> Signatory(q.id, q.name, q.kind, SignatoryStatus.Pending) in r by {
      forall q | q in kept ensures Signatory(q.id, q.name, q.kind, SignatoryStatus.Pending) in r {
        var k :| 0 <= k < |kept| && kept[k] == q;
        assert r[k] == Signatory(q.id, q.name, q.kind, SignatoryStatus.Pending);
      }
    }
    assert forall s :: s in r ==> s.id !in ids && SignatoryRequest(s.id, s.name, s.kind) in reqs by {
      forall s | s in r ensures s.id !in ids && SignatoryRequest(s.id, s.name, s.kind) in reqs {
        var k :| 0 <= k < |r| && r[k] == s;
        assert kept[k] in kept;
      }
    }
    r
  }

  /**
   * `handleRequestSignatures`: on the document with that id the existing
   * signatories stay as an unchanged prefix and the new ones are appended
   * Pending; the other documents are unchanged.
   */
  function RequestSignatures(docs: seq<SignatureDocument>, docId: int, reqs: seq<SignatoryRequest>): (r: seq<SignatureDocument>)
    ensures |r| == |docs|
    ensures forall i :: 0 <= i < |docs| && docs[i].id != docId ==> r[i] == docs[i]
    ensures forall i :: 0 <= i < |docs| && docs[i].id == docId ==>
      r[i] == docs[i].(signatories := docs[i].signatories + PendingAdditions(docs[i].signatories, reqs))
  {
    Map(docs, (d: SignatureDocument) =>
      if d.id == docId then d.(signatories := d.signatories + PendingAdditions(d.signatories, reqs)) else d)
  }

  /** Asking again for the same signatories adds nobody. */
  lemma RequestAgainAddsNothing(existing: seq<Signatory>, reqs: seq<SignatoryRequest>)
    ensures PendingAdditions(existing + PendingAdditions(existing, reqs), reqs) == []
  {
    var added := PendingAdditions(existing, reqs);
    var all := existing + added;
    forall q | q in reqs ensures q.id in SignatoryIds(all) {
      if q.id in SignatoryIds(existing) {
        var k :| 0 <= k < |existing| && SignatoryIds(existing)[k] == q.id;
        assert SignatoryIds(all)[k] == q.id;
      } else {
        var s := Signatory(q.id, q.name, q.kind, SignatoryStatus.Pending);
        assert s in added;
        var k :| 0 <= k < |added| && added[k] == s;
        assert all[|existing| + k] == s;
        assert SignatoryIds(all)[|existing| + k] == q.id;
      }
    }
    FilterNone(reqs, (q: SignatoryRequest) => q.id !in SignatoryIds(all));
  }

  lemma RequestSignaturesKeepsIds(docs: seq<SignatureDocument>, docId: int, reqs: seq<SignatoryRequest>)
    ensures DocIds(RequestSignatures(docs, docId, reqs)) == DocIds(docs)
  {
  }
}
