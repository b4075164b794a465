/**
 The client's multi-request operations (write.go, delete.go) against the simulated device, with other clients'
 requests in every gap. `others(k)` is what other clients do before this client's k-th request.
 */
module WriteProtocol {
  import opened Results
  import opened Bytes
  import opened Text
  import opened DeviceTree
  import opened RevisionGuard
  import opened DeviceState

  const MAX_DOCUMENT_SIZE := 0x4000_0000
  const INVALID_ID := "dpwire: invalid entry ID"
  const PDF_MAGIC: seq<byte> := [0x25, 0x50, 0x44, 0x46, 0x2d]

  datatype RawRules = RawRules(nfc: string -> string, lower: string -> string, accepts: Entry -> bool)

  ghost predicate Normalises(r: RawRules) {
    forall s: string :: r.nfc(r.nfc(s)) == r.nfc(s)
  }

  /** Unicode normalisation and lower-casing, and the checks of decodeEntry on metadata the device returns. */
  type Rules = r: RawRules | Normalises(r)
    witness RawRules((s: string) => s, (s: string) => s, (e: Entry) => true)

  datatype Outcome =
    | Stored(entry: Entry, revision: string)
    | Partial(operation: string, id: string)
    | Failed(error: string)

  type Others = nat -> seq<Request>

  predicate PlainNameText(name: string) {
    && name != "" && name != "." && name != ".."
    && forall i | 0 <= i < |name| :: name[i] != '/' && name[i] != '\\' && !IsControl(name[i])
  }

  function ValidateEntryName(rules: Rules, name: string, document: bool): Result<string> {
    var name' := rules.nfc(name);
    if !PlainNameText(name') then Err("dpwire: invalid entry name")
    else if document && !(|rules.lower(name')| >= 4 && rules.lower(name')[|rules.lower(name')| - 4..] == ".pdf") then
      Err("dpwire: document name must end in .pdf")
    else Ok(name')
  }

  function DecodeEntry(rules: Rules, e: Entry): Result<Entry> {
    if !rules.accepts(e) then Err("dpwire: invalid entry") else Ok(e.(name := rules.nfc(e.name)))
  }

  function PreparePdf(source: Option<seq<byte>>): Result<seq<byte>> {
    if source.None? then Err("dpwire: nil PDF source")
    else if !(PDF_MAGIC <= source.value) then Err("dpwire: source is not a PDF")
    else if |source.value| > MAX_DOCUMENT_SIZE then Err("dpwire: PDF exceeds limit")
    else Ok(source.value)
  }

  function DocumentAnswer(rules: Rules, t: Tree, id: string): Result<Entry> {
    if !ValidId(id) then Err(INVALID_ID)
    else if id !in t.documents then Err("404")
    else DecodeEntry(rules, t.documents[id])
  }

  /** DocumentsService.Get */
  method GetDocument(dev: State, rules: Rules, id: string) returns (r: Result<Entry>)
    ensures r == DocumentAnswer(rules, dev.View(), id)
  {
    if !ValidId(id) {
      return Err(INVALID_ID);
    }
    if id !in dev.documents {
      return Err("404");
    }
    return DecodeEntry(rules, dev.documents[id]);
  }

  lemma {:induction false} IssuedIdIsValid(n: nat)
    ensures ValidId(DocumentId(n))
  {
    var id := DocumentId(n);
    assert id[4..] == ZeroPadded(n, 6);
    forall i | 0 <= i < |id|
      ensures id[i] != '/' && id[i] != '\\' && !IsControl(id[i])
    {
      if i >= 4 {
        assert id[i] == ZeroPadded(n, 6)[i - 4];
      }
    }
  }

  lemma {:induction false} CreatedIdIsNext(t: Tree, parentId: string, name: string, now: string)
    requires Accounted(t) && CreateDocument(t, parentId, name, now).1.Ok?
    ensures var (t', e) := CreateDocument(t, parentId, name, now);
      && Accounted(t') && e.value.id == DocumentId(t.nextId) && IssuedDocument(t'.nextId, e.value.id)
      && e.value.id in t'.documents
  {
    hide DocumentId, PathTaken;
    DocumentCreationKeepsAccounts(t, parentId, name, now);
    IssuedForEver(t.nextId);
  }

  lemma {:induction false} RefusedCreation(t: Tree, parentId: string, name: string, now: string)
    ensures CreateDocument(t, parentId, name, now).1.Err? ==> CreateDocument(t, parentId, name, now).0 == t
  {
  }

  lemma {:induction false} CreatedDocument(t: Tree, parentId: string, name: string, now: string)
    requires CreateDocument(t, parentId, name, now).1.Ok?
    ensures var (t', e) := CreateDocument(t, parentId, name, now);
      && e.value.id == DocumentId(t.nextId) && e.value.id in t'.documents && t'.documents[e.value.id] == e.value
      && e.value.name == name && e.value.parentId == parentId
  {
  }

  // ---------- what each operation comes to, with the other clients' requests in its gaps ----------

  /** The requests that the client checks before it sends anything. */
  predicate UploadSendable(rules: Rules, id: string, filename: string) {
    ValidId(id) && ValidateEntryName(rules, filename, true).Ok?
  }

  predicate Uploadable(t: Tree, id: string, targetRevision: string) {
    id in t.documents && (targetRevision == "" || targetRevision == t.documents[id].revision)
  }

  /** The device after an upload and the requests of others before it and before the read that follows. */
  function AfterUpload(t: Tree, id: string, body: seq<byte>, targetRevision: string, now: string,
                       beforeUpload: seq<Request>, beforeRead: seq<Request>): Tree
  {
    var seen := ServeAll(t, beforeUpload);
    if !Uploadable(seen, id, targetRevision) then seen
    else ServeAll(Upload(seen, id, body, "", targetRevision, now).0, beforeRead)
  }

  /** The metadata read back is acceptable and shows the size of the body and the revision the upload reported. */
  predicate Confirms(rules: Rules, t: Tree, id: string, body: seq<byte>, revision: string) {
    && id in t.documents && DecodeEntry(rules, t.documents[id]).Ok?
    && t.documents[id].size == Itoa(|body|) && t.documents[id].revision == revision
  }

  predicate CreationSendable(rules: Rules, parentId: string, filename: string) {
    ValidId(parentId) && ValidateEntryName(rules, filename, true).Ok?
  }

  /** The device's answer to the creation, after what others requested before it. */
  function Creating(rules: Rules, t: Tree, parentId: string, filename: string, now: string): (Tree, Result<Entry>)
    requires CreationSendable(rules, parentId, filename)
  {
    CreateDocument(t, parentId, ValidateEntryName(rules, filename, true).value, now)
  }

  /** The metadata read back is acceptable and shows the name and the parent that were sent. */
  predicate Shows(rules: Rules, t: Tree, id: string, parentId: string, name: string) {
    && id in t.documents && DecodeEntry(rules, t.documents[id]).Ok?
    && rules.nfc(t.documents[id].name) == name && t.documents[id].parentId == parentId
  }

  // ---------- uploading and creating ----------

  /** DocumentsService.upload: the new revision, once the device has confirmed every byte. */
  method UploadBody(dev: State, rules: Rules, id: string, filename: string, body: seq<byte>, targetRevision: string,
                    now: string, others: seq<Request>)
    returns (r: Result<string>)
    requires |body| <= MAX_DOCUMENT_SIZE
    modifies dev
    ensures var seen := ServeAll(old(dev.View()), others);
      && (r.Ok? <==> UploadSendable(rules, id, filename) && Uploadable(seen, id, targetRevision))
      && dev.View() == (if !UploadSendable(rules, id, filename) then old(dev.View())
                        else AfterUpload(old(dev.View()), id, body, targetRevision, now, others, []))
      && (r.Ok? ==> r.value == Itoa(Revision(seen, id) + 1))
  {
    hide ValidId, ValidateEntryName, Itoa, Atoi;
    if !ValidId(id) {
      return Err(INVALID_ID);
    }
    var name := ValidateEntryName(rules, filename, true);
    if name.Err? {
      return Err(name.error);
    }
    dev.HandleAll(others);
    var response := dev.UploadDocument(id, body, "", targetRevision, now);
    if response.Err? {
      return Err(response.error);
    }
    var received, current, revision := ParseUint(Itoa(|body|)), ParseUint(Itoa(|body|)), response.value.revision;
    if received != Some(|body|) || current != Some(|body|) || revision == "" {
      assert false;
      return Err("upload result");
    }
    return Ok(revision);
  }

  /**
   DocumentsService.CreateMetadata: which of failure, partial failure and success it is, and the tree it leaves, in
   every interleaving.
   */
  method CreateMetadata(dev: State, rules: Rules, parentId: string, filename: string, now: string, others: Others)
    returns (r: Outcome)
    requires Accounted(dev.View())
    modifies dev
    ensures Accounted(dev.View())
    ensures !CreationSendable(rules, parentId, filename) ==> r.Failed? && dev.View() == old(dev.View())
    ensures CreationSendable(rules, parentId, filename) ==>
      var seen := ServeAll(old(dev.View()), others(0));
      var (made, document) := Creating(rules, seen, parentId, filename, now);
      if document.Err? then r.Failed? && dev.View() == seen
      else
        && dev.View() == ServeAll(made, others(1))
        && (if Shows(rules, dev.View(), document.value.id, parentId, document.value.name)
            then r.Stored? && r.entry.id == document.value.id
            else r.Partial? && r.id == document.value.id)
  {
    hide ValidId, ValidateEntryName, CreateDocument, Accounted, ServeAll, DocumentId, IssuedDocument;
    if !ValidId(parentId) {
      return Failed(INVALID_ID);
    }
    var name := ValidateEntryName(rules, filename, true);
    if name.Err? {
      return Failed(name.error);
    }
    ServeAllKeepsAccounts(old(dev.View()), others(0));
    dev.HandleAll(others(0));
    ghost var seen := dev.View();
    RefusedCreation(seen, parentId, name.value, now);
    var response := dev.CreateDocument(parentId, name.value, now);
    if response.Err? {
      return Failed(response.error);
    }
    var id := response.value.id;
    CreatedIdIsNext(seen, parentId, name.value, now);
    CreatedDocument(seen, parentId, name.value, now);
    IssuedIdIsValid(seen.nextId);
    ServeAllKeepsAccounts(dev.View(), others(1));
    dev.HandleAll(others(1));
    var entry := GetDocument(dev, rules, id);
    if entry.Err? {
      return Partial("document creation verification", id);
    }
    NamedByItsId(dev.View(), id);
    if entry.value.name != name.value || entry.value.parentId != parentId {
      return Partial("document creation verification", id);
    }
    return Stored(entry.value, "");
  }

  /** What an accepted upload leaves behind. */
  ghost predicate Uploaded(t: Tree, t': Tree, id: string, body: seq<byte>) {
    && t'.nextId == t.nextId
    && id in t.documents && id in t'.documents && id in t'.contents && t'.contents[id] == body
    && t'.documents[id].revision == Itoa(Revision(t, id) + 1) && t'.documents[id].size == Itoa(|body|)
  }

  lemma {:induction false} UploadWrites(t: Tree, id: string, body: seq<byte>, targetRevision: string, now: string)
    requires Upload(t, id, body, "", targetRevision, now).1.Ok?
    ensures Uploaded(t, Upload(t, id, body, "", targetRevision, now).0, id, body)
  {
    hide Itoa, Atoi;
  }

  lemma {:induction false} UploadFacts(t: Tree, id: string, body: seq<byte>, targetRevision: string, now: string)
    requires Accounted(t) && Upload(t, id, body, "", targetRevision, now).1.Ok?
    ensures var t' := Upload(t, id, body, "", targetRevision, now).0;
      Uploaded(t, t', id, body) && Accounted(t') && IssuedDocument(t'.nextId, id)
  {
    hide Upload, Accounted, Itoa, Atoi, IssuedDocument;
    UploadWrites(t, id, body, targetRevision, now);
    UploadKeepsAccounts(t, id, body, "", targetRevision, now);
    DocumentIsIssued(t, id);
  }

  /** After an upload, as long as the revision it reported is still there, so are the bytes. */
  lemma {:induction false} UploadStands(before: Tree, id: string, body: seq<byte>, targetRevision: string, now: string,
                                        rs: seq<Request>)
    requires Accounted(before) && Upload(before, id, body, "", targetRevision, now).1.Ok?
    ensures id in before.documents
    ensures var last := ServeAll(Upload(before, id, body, "", targetRevision, now).0, rs);
      && Accounted(last) && IssuedDocument(last.nextId, id)
      && (id in last.documents && last.documents[id].revision == Itoa(Revision(before, id) + 1)
          ==> id in last.contents && last.contents[id] == body)
  {
    hide Itoa, Atoi, IssuedDocument, IssuedFolder, ServeAll, Upload, Accounted;
    UploadFacts(before, id, body, targetRevision, now);
    var after := Upload(before, id, body, "", targetRevision, now).0;
    ServeAllKeepsAccounts(after, rs);
    IssuedThroughout(after, rs, id);
    if id in ServeAll(after, rs).documents {
      RevisionGuardsContent(after, rs, id);
    }
  }

  lemma {:induction false} NamedByItsId(t: Tree, id: string)
    requires Accounted(t) && id in t.documents
    ensures t.documents[id].id == id && id in t.contents
    ensures t.documents[id].size == Itoa(|t.contents[id]|)
  {
  }

  /** How far an upload with its check has come. */
  datatype Stage = NotUploaded(error: string) | NotVerified(revision: string) | Verified(entry: Entry, revision: string)

  /** The part CreateAndUpload and Replace share: upload, read the metadata back, compare size and revision. */
  method UploadAndVerify(dev: State, rules: Rules, id: string, filename: string, body: seq<byte>,
                         targetRevision: string,
                         now: string, beforeUpload: seq<Request>, beforeRead: seq<Request>)
    returns (r: Stage)
    requires Accounted(dev.View()) && |body| <= MAX_DOCUMENT_SIZE
    modifies dev
    ensures Accounted(dev.View())
    ensures dev.View() ==
            if !UploadSendable(rules, id, filename) then old(dev.View())
            else AfterUpload(old(dev.View()), id, body, targetRevision, now, beforeUpload, beforeRead)
    ensures var seen := ServeAll(old(dev.View()), beforeUpload);
      if UploadSendable(rules, id, filename) && Uploadable(seen, id, targetRevision) then
        var revision := Itoa(Revision(seen, id) + 1);
        if Confirms(rules, dev.View(), id, body, revision) then
          && r == Verified(DecodeEntry(rules, dev.documents[id]).value, revision)
          && r.entry.id == id && r.entry.revision == revision
          && id in dev.contents && dev.contents[id] == body
        else r == NotVerified(revision)
      else r.NotUploaded?
  {
    hide ValidId, ValidateEntryName, Itoa, Atoi, Upload, ServeAll, Accounted, IssuedDocument;
    ServeAllKeepsAccounts(dev.View(), beforeUpload);
    ghost var seen := ServeAll(dev.View(), beforeUpload);
    var revision := UploadBody(dev, rules, id, filename, body, targetRevision, now, beforeUpload);
    if revision.Err? {
      return NotUploaded(revision.error);
    }
    QuietIsQuiet(Upload(seen, id, body, "", targetRevision, now).0, []);
    UploadableUploads(seen, id, body, targetRevision, now);
    UploadStands(seen, id, body, targetRevision, now, beforeRead);
    dev.HandleAll(beforeRead);
    var entry := GetDocument(dev, rules, id);
    if entry.Err? {
      return NotVerified(revision.value);
    }
    NamedByItsId(dev.View(), id);
    if entry.value.size != Itoa(|body|) || entry.value.revision != revision.value {
      return NotVerified(revision.value);
    }
    return Verified(entry.value, revision.value);
  }

  lemma {:induction false} UploadableUploads(t: Tree, id: string, body: seq<byte>, targetRevision: string, now: string)
    ensures Uploadable(t, id, targetRevision) <==> Upload(t, id, body, "", targetRevision, now).1.Ok?
  {
  }

  lemma {:induction false} QuietIsQuiet(t: Tree, rs: seq<Request>)
    ensures rs == [] ==> ServeAll(t, rs) == t
  {
  }

  ghost predicate Quiet(others: Others) {
    forall k: nat :: others(k) == []
  }

  /**
   CreateAndUpload. Every outcome and every tree it leaves, in every interleaving. On success the content under the
   returned ID is exactly the caller's, at the moment of the last read; a partial failure names a document made by
   this call, which is never removed by it.
   */
  method CreateAndUpload(dev: State, rules: Rules, parentId: string, filename: string, source: Option<seq<byte>>,
                         now: string, others: Others)
    returns (r: Outcome)
    requires Accounted(dev.View())
    modifies dev
    ensures Accounted(dev.View())
    ensures PreparePdf(source).Err? || !CreationSendable(rules, parentId, filename) ==>
      r.Failed? && dev.View() == old(dev.View())
    ensures PreparePdf(source).Ok? && CreationSendable(rules, parentId, filename) ==>
      var first := ServeAll(old(dev.View()), others(0));
      var (made, document) := Creating(rules, first, parentId, filename, now);
      if document.Err? then r.Failed? && dev.View() == first
      else
        var id, created := document.value.id, ServeAll(made, others(1));
        && !IssuedDocument(old(dev.nextId), id)
        && if !Shows(rules, created, id, parentId, document.value.name) then
             r.Partial? && r.id == id && dev.View() == created
           else
             var seen := ServeAll(created, others(2));
             && dev.View() == AfterUpload(created, id, source.value, "", now, others(2), others(3))
             && if Uploadable(seen, id, "") &&
                   Confirms(rules, dev.View(), id, source.value, Itoa(Revision(seen, id) + 1))
                then
                  && r == Stored(DecodeEntry(rules, dev.documents[id]).value, Itoa(Revision(seen, id) + 1))
                  && r.entry.id == id && id in dev.contents && dev.contents[id] == source.value
                else r.Partial? && r.id == id
    ensures Quiet(others) && PreparePdf(source).Ok? && CreationSendable(rules, parentId, filename) &&
            Creating(rules, old(dev.View()), parentId, filename, now).1.Ok? ==>
      var (made, document) := Creating(rules, old(dev.View()), parentId, filename, now);
      var (_, written) := Upload(made, document.value.id, source.value, "", "", now);
      && written.Ok?
      && (r.Stored? <==> DecodeEntry(rules, document.value).Ok? && DecodeEntry(rules, written.value).Ok?)
  {
    hide ValidId, ValidateEntryName, Itoa, Atoi, CreateDocument, DocumentId, IssuedDocument, IssuedFolder, Accounted;
    hide Upload, DecodeEntry, ServeAll, Shows, Confirms, Uploadable, AfterUpload;
    var prepared := PreparePdf(source);
    if prepared.Err? {
      return Failed(prepared.error);
    }
    QuietCreation(rules, dev.View(), parentId, filename, prepared.value, now, others);
    r := CreateMetadata(dev, rules, parentId, filename, now, others);
    if r.Failed? {
      return;
    }
    ghost var first := ServeAll(old(dev.View()), others(0));
    ghost var name := ValidateEntryName(rules, filename, true).value;
    ghost var made, id := CreateDocument(first, parentId, name, now).0, DocumentId(first.nextId);
    ServeAllKeepsAccounts(old(dev.View()), others(0));
    CreatedIdIsNext(first, parentId, name, now);
    CounterRises(old(dev.View()), others(0));
    CreatedDocument(first, parentId, name, now);
    LaterIdsAreNotIssued(old(dev.nextId), first.nextId);
    if r.Partial? {
      return;
    }
    ServeAllKeepsAccounts(made, others(1));
    IssuedIdIsValid(first.nextId);
    var entry := r.entry;
    var stage := UploadAndVerify(dev, rules, entry.id, filename, prepared.value, "", now, others(2), others(3));
    match stage {
      case NotUploaded(_) => r := Partial("create-and-upload", entry.id);
      case NotVerified(_) => r := Partial("post-upload verification", entry.id);
      case Verified(verified, revision) => r := Stored(verified, revision);
    }
  }

  /**
   Replace. Every outcome and every tree it leaves, in every interleaving. On success the upload met the target
   revision, nothing was written since, and the content is exactly the caller's; a missed revision changes nothing.
   */
  method Replace(dev: State, rules: Rules, id: string, filename: string, targetRevision: string,
                 source: Option<seq<byte>>, now: string, others: Others)
    returns (r: Outcome)
    requires Accounted(dev.View())
    modifies dev
    ensures Accounted(dev.View())
    ensures targetRevision == "" || PreparePdf(source).Err? || !UploadSendable(rules, id, filename) ==>
      r.Failed? && dev.View() == old(dev.View())
    ensures targetRevision != "" && PreparePdf(source).Ok? && UploadSendable(rules, id, filename) ==>
      var seen := ServeAll(old(dev.View()), others(0));
      if !(id in seen.documents && seen.documents[id].revision == targetRevision) then r.Failed? && dev.View() == seen
      else
        var revision := Itoa(Revision(seen, id) + 1);
        && dev.View() == ServeAll(Upload(seen, id, source.value, "", targetRevision, now).0, others(1))
        && if Confirms(rules, dev.View(), id, source.value, revision) then
             && r == Stored(DecodeEntry(rules, dev.documents[id]).value, revision)
             && r.entry.id == id && id in dev.contents && dev.contents[id] == source.value
           else r.Failed?
    ensures Quiet(others) && targetRevision != "" && PreparePdf(source).Ok? && UploadSendable(rules, id, filename) &&
            id in old(dev.documents) && old(dev.documents)[id].revision == targetRevision ==>
      var (_, written) := Upload(old(dev.View()), id, source.value, "", targetRevision, now);
      written.Ok? && (r.Stored? <==> DecodeEntry(rules, written.value).Ok?)
  {
    hide ValidId, ValidateEntryName, Itoa, Atoi, Upload, IssuedDocument, Accounted, DecodeEntry, ServeAll;
    hide UploadSendable, Confirms;
    if targetRevision == "" {
      return Failed("dpwire: target revision is required for replacement");
    }
    var prepared := PreparePdf(source);
    if prepared.Err? {
      return Failed(prepared.error);
    }
    QuietIsQuiet(dev.View(), others(0));
    ghost var written := Upload(ServeAll(dev.View(), others(0)), id, prepared.value, "", targetRevision, now).0;
    QuietIsQuiet(written, others(1));
    if id in dev.documents && dev.documents[id].revision == targetRevision {
      QuietUploadConfirms(rules, dev.View(), id, prepared.value, targetRevision, now);
    }
    var stage := UploadAndVerify(dev, rules, id, filename, prepared.value, targetRevision, now, others(0), others(1));
    match stage {
      case NotUploaded(error) => r := Failed(error);
      case NotVerified(_) => r := Failed("replacement metadata");
      case Verified(entry, revision) => r := Stored(entry, revision);
    }
  }

  // ---------- with nobody else about ----------

  /** What an undisturbed upload leaves is what its check looks for, so only decoding that entry can fail. */
  lemma {:induction false} QuietUploadConfirms(rules: Rules, t: Tree, id: string, body: seq<byte>,
                                               targetRevision: string,
                                               now: string)
    requires Uploadable(t, id, targetRevision)
    ensures var (t', e) := Upload(t, id, body, "", targetRevision, now);
      && AfterUpload(t, id, body, targetRevision, now, [], []) == t'
      && e.Ok?
      && (Confirms(rules, t', id, body, Itoa(Revision(t, id) + 1)) <==> DecodeEntry(rules, e.value).Ok?)
  {
    hide Itoa, Atoi, DecodeEntry;
    QuietIsQuiet(t, []);
    QuietIsQuiet(Upload(t, id, body, "", targetRevision, now).0, []);
  }

  /** The same for creation: the name is sent normalised, so it comes back as it was sent. */
  lemma {:induction false} QuietCreationShows(rules: Rules, t: Tree, parentId: string, filename: string, now: string)
    requires Accounted(t) && CreationSendable(rules, parentId, filename)
    requires Creating(rules, t, parentId, filename, now).1.Ok?
    ensures var (made, e) := Creating(rules, t, parentId, filename, now);
      && Uploadable(made, e.value.id, "") && Accounted(made)
      && (Shows(rules, made, e.value.id, parentId, e.value.name) <==> DecodeEntry(rules, e.value).Ok?)
  {
    hide ValidId, ValidateEntryName, DecodeEntry, CreateDocument, Accounted;
    var name := ValidateEntryName(rules, filename, true).value;
    CreatedDocument(t, parentId, name, now);
    CreatedIdIsNext(t, parentId, name, now);
    ValidNamesAreNormal(rules, filename);
  }

  lemma {:induction false} QuietCreation(rules: Rules, t: Tree, parentId: string, filename: string, body: seq<byte>,
                                         now: string, others: Others)
    requires Accounted(t)
    ensures Quiet(others) ==> ServeAll(t, others(0)) == t
    ensures Quiet(others) && CreationSendable(rules, parentId, filename) &&
            Creating(rules, t, parentId, filename, now).1.Ok? ==>
      var (made, e) := Creating(rules, t, parentId, filename, now);
      var (t', written) := Upload(made, e.value.id, body, "", "", now);
      var seen := ServeAll(ServeAll(made, others(1)), others(2));
      && ServeAll(made, others(1)) == made && seen == made && Uploadable(made, e.value.id, "")
      && (Shows(rules, made, e.value.id, parentId, e.value.name) <==> DecodeEntry(rules, e.value).Ok?)
      && AfterUpload(made, e.value.id, body, "", now, others(2), others(3)) == t' && written.Ok?
      && (Confirms(rules, t', e.value.id, body, Itoa(Revision(made, e.value.id) + 1)) <==>
          DecodeEntry(rules, written.value).Ok?)
  {
    hide ServeAll, DecodeEntry, Itoa, Atoi, Shows, Confirms, Upload, AfterUpload, Creating, CreationSendable, Accounted;
    if Quiet(others) {
      QuietIsQuiet(t, others(0));
      if CreationSendable(rules, parentId, filename) && Creating(rules, t, parentId, filename, now).1.Ok? {
        var (made, e) := Creating(rules, t, parentId, filename, now);
        QuietIsQuiet(made, []);
        QuietCreationShows(rules, t, parentId, filename, now);
        QuietUploadConfirms(rules, made, e.value.id, body, "", now);
      }
    }
  }

  lemma {:induction false} ValidNamesAreNormal(rules: Rules, name: string)
    requires ValidateEntryName(rules, name, true).Ok?
    ensures rules.nfc(ValidateEntryName(rules, name, true).value) == ValidateEntryName(rules, name, true).value
  {
  }

  lemma {:induction false} DocumentIsIssued(t: Tree, id: string)
    requires Accounted(t)
    ensures id in t.documents ==> IssuedDocument(t.nextId, id)
    ensures id in t.folders ==> IssuedFolder(t.nextId, id)
  {
  }
}
