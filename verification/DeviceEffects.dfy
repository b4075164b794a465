/**
 What each request to the simulated device does (dptest/state.go), operation by operation: exactly when it is refused,
 and otherwise every attribute that it changes and that nothing else does.
 */
module DeviceEffects {
  import opened Results
  import opened Bytes
  import opened Text
  import opened DeviceTree

  /** Nothing but the entry `except` is at the path. */
  ghost predicate IsFree(t: Tree, path: string, except: string) {
    && (forall id | id in t.folders && id != except :: t.folders[id].path != path)
    && (forall id | id in t.documents && id != except :: t.documents[id].path != path)
  }

  /** The two trees differ at most in the document with this ID, its entry and its content. */
  ghost predicate SameButDocument(t: Tree, t': Tree, id: string) {
    && t'.folders == t.folders && t'.documents - {id} == t.documents - {id} && t'.contents - {id} == t.contents - {id}
  }

  ghost predicate SameButFolder(t: Tree, t': Tree, id: string) {
    t'.documents == t.documents && t'.contents == t.contents && t'.folders - {id} == t.folders - {id}
  }

  lemma {:induction false} OneDocumentIsPut(t: Tree, e: Entry, content: seq<byte>, next: nat)
    ensures SameButDocument(t, t.(documents := t.documents[e.id := e], contents := t.contents[e.id := content],
                                  nextId := next), e.id)
  {
  }

  lemma {:induction false} FreeIsNotTaken(t: Tree, path: string, except: string)
    ensures PathTaken(t, path, except) <==> !IsFree(t, path, except)
  {
  }

  // ---------- creation ----------

  /** What both creations demand: an existing parent, and nothing at the new path. */
  ghost predicate HasRoom(t: Tree, parentId: string, name: string) {
    && (parentId == "root" || parentId in t.folders)
    && IsFree(t, (if parentId == "root" then "Document" else t.folders[parentId].path) + "/" + name, "")
  }

  lemma {:induction false} CreateFolderRefused(t: Tree, parentId: string, name: string, now: string)
    ensures CreateFolder(t, parentId, name, now).1.Ok? <==> HasRoom(t, parentId, name)
    ensures CreateFolder(t, parentId, name, now).1.Err? ==>
      CreateFolder(t, parentId, name, now) ==
        (t, Err(if parentId == "root" || parentId in t.folders then DUPLICATE else PARENT_NOT_FOUND))
  {
    hide FolderId, DocumentId, PathTaken, IsFree;
    if IsFolder(t, parentId) {
      FreeIsNotTaken(t, PathOf(t, parentId) + "/" + name, "");
    }
  }

  lemma {:induction false} CreateFolderInFull(t: Tree, parentId: string, name: string, now: string)
    requires Accounted(t)
    ensures var (t', made) := CreateFolder(t, parentId, name, now);
      made.Ok? ==>
        var e := made.value;
        && e.id == FolderId(t.nextId) && e.id !in t.folders && e.id !in t.documents && t'.nextId == t.nextId + 1
        && e.id in t'.folders && t'.folders[e.id] == e && SameButFolder(t, t', e.id)
        && e.kind == FolderEntry && e.name == name && e.parentId == parentId && e.created == now
        && e.path == (if parentId == "root" then "Document" else t.folders[parentId].path) + "/" + name
        && e.size == "" && e.revision == "" && e.fileHash == "" && e.modified == ""
  {
    NextIdIsUnused(t);
    hide FolderId, DocumentId, Accounted, PathTaken;
  }

  lemma {:induction false} CreateDocumentRefused(t: Tree, parentId: string, name: string, now: string)
    ensures CreateDocument(t, parentId, name, now).1.Ok? <==> HasRoom(t, parentId, name)
    ensures CreateDocument(t, parentId, name, now).1.Err? ==>
      CreateDocument(t, parentId, name, now) ==
        (t, Err(if parentId == "root" || parentId in t.folders then DUPLICATE else PARENT_NOT_FOUND))
  {
    hide FolderId, DocumentId, PathTaken, IsFree;
    if IsFolder(t, parentId) {
      FreeIsNotTaken(t, PathOf(t, parentId) + "/" + name, "");
    }
  }

  lemma {:induction false} CreateDocumentInFull(t: Tree, parentId: string, name: string, now: string)
    requires Accounted(t)
    ensures var (t', made) := CreateDocument(t, parentId, name, now);
      made.Ok? ==>
        var e := made.value;
        && e.id == DocumentId(t.nextId) && e.id !in t.folders && e.id !in t.documents && t'.nextId == t.nextId + 1
        && e.id in t'.documents && t'.documents[e.id] == e && SameButDocument(t, t', e.id)
        && e.id in t'.contents && t'.contents[e.id] == []
        && e.kind == DocumentEntry && e.name == name && e.parentId == parentId
        && e.path == (if parentId == "root" then "Document" else t.folders[parentId].path) + "/" + name
        && e.size == "0" && e.revision == "0" && e.fileHash == "" && e.created == now && e.modified == now
  {
    NextIdIsUnused(t);
    hide FolderId, DocumentId, Accounted, PathTaken, SameButDocument;
    var (t', made) := CreateDocument(t, parentId, name, now);
    if made.Ok? {
      OneDocumentIsPut(t, made.value, [], t.nextId + 1);
    }
  }

  /** A copy has the content and the remaining attributes of its source, and a place and an ID of its own. */
  lemma {:induction false} CopyRefused(t: Tree, id: string, parentId: string, name: string, now: string)
    ensures CopyDocument(t, id, parentId, name, now).1.Ok? <==>
            id in t.documents && HasRoom(t, parentId, if name != "" then name else t.documents[id].name)
    ensures CopyDocument(t, id, parentId, name, now).1.Err? ==>
      CopyDocument(t, id, parentId, name, now) ==
        (t, Err(if id !in t.documents then NOT_FOUND
                else if parentId == "root" || parentId in t.folders then DUPLICATE
                else PARENT_NOT_FOUND))
  {
    hide FolderId, DocumentId, PathTaken, IsFree;
    if id in t.documents && IsFolder(t, parentId) {
      FreeIsNotTaken(t, PathOf(t, parentId) + "/" + (if name != "" then name else t.documents[id].name), "");
    }
  }

  lemma {:induction false} CopyInFull(t: Tree, id: string, parentId: string, name: string, now: string)
    requires Accounted(t)
    ensures var (t', made) := CopyDocument(t, id, parentId, name, now);
      made.Ok? ==>
        var (e, source) := (made.value, t.documents[id]);
        && e.id == DocumentId(t.nextId) && e.id !in t.folders && e.id !in t.documents && t'.nextId == t.nextId + 1
        && e.id in t'.documents && t'.documents[e.id] == e && SameButDocument(t, t', e.id)
        && e.id in t'.contents && t'.contents[e.id] == t.contents[id]
        && e.kind == DocumentEntry && e.name == (if name != "" then name else source.name) && e.parentId == parentId
        && e.path == (if parentId == "root" then "Document" else t.folders[parentId].path) + "/" + e.name
        && e.size == source.size && e.revision == source.revision && e.fileHash == source.fileHash
        && e.created == now && e.modified == source.modified
  {
    NextIdIsUnused(t);
    assert id in t.documents ==> id in t.contents && t.documents[id].kind == DocumentEntry;
    hide FolderId, DocumentId, Accounted, PathTaken, SameButDocument;
    var (t', made) := CopyDocument(t, id, parentId, name, now);
    if made.Ok? {
      OneDocumentIsPut(t, made.value, t.contents[id], t.nextId + 1);
    }
  }

  // ---------- uploading and deleting ----------

  lemma {:induction false} UploadInFull(t: Tree, id: string, content: seq<byte>, fileHash: string,
                                        targetRevision: string, now: string)
    requires Accounted(t)
    ensures var (t', r) := Upload(t, id, content, fileHash, targetRevision, now);
      && (r.Ok? <==> id in t.documents && (targetRevision == "" || targetRevision == t.documents[id].revision))
      && (r.Err? ==> t' == t && r.error == if id in t.documents then CONFLICT else NOT_FOUND)
      && (r.Ok? ==>
            var (e, was) := (r.value, t.documents[id]);
            && id in t'.documents && t'.documents[id] == e && t'.nextId == t.nextId && SameButDocument(t, t', id)
            && t'.documents.Keys == t.documents.Keys && id in t'.contents && t'.contents[id] == content
            && e.size == Itoa(|content|) && e.fileHash == fileHash && e.modified == now
            && Atoi(e.revision) == Atoi(was.revision) + 1
            && e.id == was.id && e.name == was.name && e.path == was.path && e.kind == was.kind
            && e.parentId == was.parentId && e.created == was.created)
  {
    assert id in t.documents ==> t.documents[id].id == id && id in t.contents;
    assert id in t.documents ==> Atoi(Itoa(Atoi(t.documents[id].revision) + 1)) == Atoi(t.documents[id].revision) + 1;
    hide Accounted, Itoa, Atoi, SameButDocument;
    var (t', r) := Upload(t, id, content, fileHash, targetRevision, now);
    if r.Ok? {
      OneDocumentIsPut(t, r.value, content, t.nextId);
    }
  }

  lemma {:induction false} DeleteDocumentInFull(t: Tree, id: string, targetRevision: string)
    ensures var (t', r) := DeleteDocument(t, id, targetRevision);
      && (r.Ok? <==> id in t.documents && (targetRevision == "" || targetRevision == t.documents[id].revision))
      && (r.Err? ==> t' == t && r.error == if id in t.documents then CONFLICT else NOT_FOUND)
      && (r.Ok? ==> id !in t'.documents && id !in t'.contents && t'.nextId == t.nextId && SameButDocument(t, t', id))
  {
  }

  ghost predicate IsParent(t: Tree, id: string) {
    || (exists c | c in t.folders :: t.folders[c].parentId == id)
    || (exists c | c in t.documents :: t.documents[c].parentId == id)
  }

  /** A folder goes with all that is below its path if forced, and alone, from being empty, if not. */
  lemma {:induction false} DeleteFolderInFull(t: Tree, id: string, force: bool)
    requires Accounted(t)
    ensures var (t', r) := DeleteFolder(t, id, force);
      && (r.Ok? <==> id in t.folders && (force || !IsParent(t, id)))
      && (r.Err? ==> t' == t && r.error == if id in t.folders then NOT_EMPTY else NOT_FOUND)
      && (r.Ok? ==>
            var prefix := t.folders[id].path + "/";
            && t'.nextId == t.nextId && t'.contents.Keys == t'.documents.Keys
            && (forall k :: k in t'.folders <==>
                  k in t.folders && k != id && !(force && HasPrefix(t.folders[k].path, prefix)))
            && (forall k :: k in t'.documents <==>
                  k in t.documents && !(force && HasPrefix(t.documents[k].path, prefix)))
            && (forall k | k in t'.folders :: t'.folders[k] == t.folders[k])
            && (forall k | k in t'.documents ::
                  t'.documents[k] == t.documents[k] && t'.contents[k] == t.contents[k]))
  {
    hide IssuedFolder, IssuedDocument, Itoa, Atoi, HasPrefix;
  }

  // ---------- renaming and moving ----------

  /** The entry as the update wants it: the given parent and name where there are any, and the path they make. */
  ghost predicate IsUpdated(t: Tree, was: Entry, parentId: string, name: string, e: Entry) {
    && e.name == (if name != "" then name else was.name)
    && e.parentId == (if parentId != "" then parentId else was.parentId)
    && (e.parentId == "root" ==> e.path == "Document" + "/" + e.name)
    && (e.parentId != "root" && e.parentId in t.folders ==> e.path == t.folders[e.parentId].path + "/" + e.name)
    && e.id == was.id && e.kind == was.kind && e.size == was.size && e.revision == was.revision
    && e.fileHash == was.fileHash && e.created == was.created && e.modified == was.modified
  }

  /** A document: exactly when the update is refused, and what it changes. */
  lemma {:induction false} UpdateDocumentInFull(t: Tree, id: string, parentId: string, name: string)
    requires id in t.documents ==>
      t.documents[id].parentId == "root" || t.documents[id].parentId in t.folders
    ensures var (t', r) := UpdateEntry(t, id, parentId, name, false);
      && (r.Ok? <==>
            && id in t.documents && (parentId in {"", "root"} || parentId in t.folders)
            && exists e :: IsUpdated(t, t.documents[id], parentId, name, e) &&
                           (e.path == t.documents[id].path || IsFree(t, e.path, id)))
      && (r.Err? ==> t' == t)
      && (r.Ok? ==>
            && IsUpdated(t, t.documents[id], parentId, name, r.value)
            && id in t'.documents && t'.documents[id] == r.value
            && t'.contents == t.contents && t'.nextId == t.nextId && SameButDocument(t, t', id))
  {
    hide PathTaken, IsFree;
    if id in t.documents && (parentId == "" || IsFolder(t, parentId)) {
      var e := Updated(t, t.documents[id], parentId, name);
      assert IsUpdated(t, t.documents[id], parentId, name, e);
      FreeIsNotTaken(t, e.path, id);
    }
  }

  /** An entry after a folder has moved from one path to another: below the old path it is carried along. */
  ghost predicate IsCarried(was: Entry, e: Entry, oldPath: string, newPath: string) {
    && SameButPlace(was, e) && e.name == was.name && e.parentId == was.parentId
    && e.path == if HasPrefix(was.path, oldPath + "/") then newPath + was.path[|oldPath|..] else was.path
  }

  lemma {:induction false} UpdateFolderRefused(t: Tree, id: string, parentId: string, name: string)
    requires id in t.folders ==> t.folders[id].parentId == "root" || t.folders[id].parentId in t.folders
    ensures var (t', r) := UpdateEntry(t, id, parentId, name, true);
      && (r.Ok? <==>
            && id in t.folders && (parentId in {"", "root"} || parentId in t.folders)
            && exists e :: IsUpdated(t, t.folders[id], parentId, name, e) &&
                           (e.path == t.folders[id].path || IsFree(t, e.path, id)))
      && (r.Err? ==> t' == t)
      && (r.Ok? ==> IsUpdated(t, t.folders[id], parentId, name, r.value))
  {
    hide PathTaken, IsFree, CarriedAll;
    if id in t.folders && (parentId == "" || IsFolder(t, parentId)) {
      var e := Updated(t, t.folders[id], parentId, name);
      assert IsUpdated(t, t.folders[id], parentId, name, e);
      FreeIsNotTaken(t, e.path, id);
    }
  }

  /** A folder: the same, and every other entry follows if it is below and stays if it is not. */
  lemma {:induction false} UpdateFolderInFull(t: Tree, id: string, parentId: string, name: string)
    ensures var (t', r) := UpdateEntry(t, id, parentId, name, true);
      r.Ok? ==>
        var (oldPath, newPath) := (t.folders[id].path, r.value.path);
        && t'.folders.Keys == t.folders.Keys && t'.documents.Keys == t.documents.Keys
        && t'.contents == t.contents && t'.nextId == t.nextId
        && (!HasPrefix(newPath, oldPath + "/") ==> t'.folders[id] == r.value)
        && (forall k | k in t.folders && k != id :: IsCarried(t.folders[k], t'.folders[k], oldPath, newPath))
        && (forall k | k in t.documents :: IsCarried(t.documents[k], t'.documents[k], oldPath, newPath))
  {
    hide PathTaken, Updated, IsCarried, CarriedAll, HasPrefix;
    var (t', r) := UpdateEntry(t, id, parentId, name, true);
    if r.Ok? {
      var oldPath, e := t.folders[id].path, r.value;
      NothingIsCarried(t, e.path);
      AllAreCarried(t.folders[id := e], oldPath, e.path);
      AllAreCarried(t.documents, oldPath, e.path);
    }
  }

  lemma {:induction false} AllAreCarried(entries: map<string, Entry>, oldPath: string, newPath: string)
    ensures var moved := CarriedAll(entries, oldPath, newPath);
      && moved.Keys == entries.Keys
      && (forall k | k in entries :: IsCarried(entries[k], moved[k], oldPath, newPath))
      && (forall k | k in entries && !HasPrefix(entries[k].path, oldPath + "/") :: moved[k] == entries[k])
  {
    hide HasPrefix;
  }

  lemma {:induction false} NothingIsCarried(t: Tree, path: string)
    ensures forall k | k in t.folders :: IsCarried(t.folders[k], t.folders[k], path, path)
    ensures forall k | k in t.documents :: IsCarried(t.documents[k], t.documents[k], path, path)
  {
    forall e: Entry | HasPrefix(e.path, path + "/")
      ensures path + e.path[|path|..] == e.path
    {
      assert e.path[..|path| + 1] == path + "/";
    }
  }

  // ---------- requests ----------

  /** Which operation a request is, and that requests are served one after the other. */
  lemma {:induction false} ServeInFull(t: Tree, id: string, parentId: string, name: string, content: seq<byte>,
                                       hash: string, revision: string, flag: bool, now: string, rest: seq<Request>)
    ensures Serve(t, FolderCreation(parentId, name, now)) == CreateFolder(t, parentId, name, now).0
    ensures Serve(t, DocumentCreation(parentId, name, now)) == CreateDocument(t, parentId, name, now).0
    ensures Serve(t, Uploading(id, content, hash, revision, now)) == Upload(t, id, content, hash, revision, now).0
    ensures Serve(t, Updating(id, parentId, name, flag)) == UpdateEntry(t, id, parentId, name, flag).0
    ensures Serve(t, Copying(id, parentId, name, now)) == CopyDocument(t, id, parentId, name, now).0
    ensures Serve(t, DocumentDeletion(id, revision)) == DeleteDocument(t, id, revision).0
    ensures Serve(t, FolderDeletion(id, flag)) == DeleteFolder(t, id, flag).0
    ensures ServeAll(t, []) == t
    ensures forall r :: ServeAll(t, [r] + rest) == ServeAll(Serve(t, r), rest)
  {
    hide CreateFolder, CreateDocument, Upload, UpdateEntry, CopyDocument, DeleteDocument, DeleteFolder;
    forall r: Request
      ensures ServeAll(t, [r] + rest) == ServeAll(Serve(t, r), rest)
    {
      assert ([r] + rest)[1..] == rest;
    }
  }

  // ---------- IDs ----------

  lemma {:induction false} PaddedLength(digits: string, width: nat)
    requires IsDigits(digits) && digits != ""
    ensures |Padded(digits, width)| == if |digits| < width then width else |digits|
    ensures |digits| >= width ==> Padded(digits, width) == digits
    decreases width - |digits|
  {
    if |digits| < width {
      PaddedLength("0" + digits, width);
    }
  }

  /** Six digits, or as many as the number has; and the kind in front. */
  lemma {:induction false} IdsInFull(n: nat)
    ensures |FolderId(n)| == 7 + (if |Itoa(n)| < 6 then 6 else |Itoa(n)|) && FolderId(n)[..7] == "folder-"
    ensures |DocumentId(n)| == 4 + (if |Itoa(n)| < 6 then 6 else |Itoa(n)|) && DocumentId(n)[..4] == "doc-"
    ensures IsDigits(FolderId(n)[7..]) && Value(FolderId(n)[7..]) == n && DocumentId(n)[4..] == FolderId(n)[7..]
  {
    PaddedLength(Itoa(n), 6);
    assert FolderId(n)[7..] == ZeroPadded(n, 6) == DocumentId(n)[4..];
  }
}
