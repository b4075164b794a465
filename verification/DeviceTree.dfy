/**
 The simulated device's file tree (dptest/state.go): what every operation does to it, and why parent IDs and
 path strings keep telling the same story.
 */
module DeviceTree {
  import opened Results
  import opened Bytes
  import opened Text

  datatype EntryType = DocumentEntry | FolderEntry

  /** A document or folder, without the attributes that no operation reads back. */
  datatype Entry = Entry(id: string, name: string, path: string, kind: EntryType, parentId: string,
                         size: string, revision: string, fileHash: string, created: string, modified: string)

  datatype Tree = Tree(documents: map<string, Entry>, folders: map<string, Entry>,
                       contents: map<string, seq<byte>>, nextId: nat)

  const EMPTY := Tree(map[], map[], map[], 1)

  const ROOT := "root"
  const ROOT_PATH := "Document"

  const NOT_FOUND := "not found"
  const PARENT_NOT_FOUND := "parent not found"
  const DUPLICATE := "duplicate"
  const CONFLICT := "conflict"
  const NOT_EMPTY := "not empty"

  function FolderId(n: nat): string {
    "folder-" + ZeroPadded(n, 6)
  }

  function DocumentId(n: nat): string {
    "doc-" + ZeroPadded(n, 6)
  }

  // ---------- operations ----------

  predicate IsFolder(t: Tree, id: string) {
    id == ROOT || id in t.folders
  }

  function PathOf(t: Tree, id: string): string
    requires IsFolder(t, id)
  {
    if id == ROOT then ROOT_PATH else t.folders[id].path
  }

  predicate TakenIn(entries: map<string, Entry>, path: string, except: string) {
    exists id | id in entries :: id != except && entries[id].path == path
  }

  predicate PathTaken(t: Tree, path: string, except: string) {
    TakenIn(t.documents, path, except) || TakenIn(t.folders, path, except)
  }

  function CreateFolder(t: Tree, parentId: string, name: string, now: string): (Tree, Result<Entry>) {
    if !IsFolder(t, parentId) then (t, Err(PARENT_NOT_FOUND)) else
      var path := PathOf(t, parentId) + "/" + name;
      if PathTaken(t, path, "") then (t, Err(DUPLICATE)) else
        var id := FolderId(t.nextId);
        var folder := Entry(id, name, path, FolderEntry, parentId, "", "", "", now, "");
        (t.(folders := t.folders[id := folder], nextId := t.nextId + 1), Ok(folder))
  }

  function CreateDocument(t: Tree, parentId: string, name: string, now: string): (Tree, Result<Entry>) {
    if !IsFolder(t, parentId) then (t, Err(PARENT_NOT_FOUND)) else
      var path := PathOf(t, parentId) + "/" + name;
      if PathTaken(t, path, "") then (t, Err(DUPLICATE)) else
        var id := DocumentId(t.nextId);
        var document := Entry(id, name, path, DocumentEntry, parentId, "0", "0", "", now, now);
        (t.(documents := t.documents[id := document], contents := t.contents[id := []], nextId := t.nextId + 1),
         Ok(document))
  }

  function Upload(t: Tree, id: string, content: seq<byte>, fileHash: string, targetRevision: string, now: string)
    : (Tree, Result<Entry>)
  {
    if id !in t.documents then (t, Err(NOT_FOUND))
    else if targetRevision != "" && targetRevision != t.documents[id].revision then (t, Err(CONFLICT))
    else
      var was := t.documents[id];
      var document := was.(revision := Itoa(Atoi(was.revision) + 1), size := Itoa(|content|), fileHash := fileHash,
                           modified := now);
      (t.(documents := t.documents[id := document], contents := t.contents[id := content]), Ok(document))
  }

  /** Equal but for the place in the tree: name, parent and path. */
  predicate SameButPlace(e: Entry, e': Entry) {
    e' == e.(name := e'.name, parentId := e'.parentId, path := e'.path)
  }

  /** An entry below oldPath is carried along to newPath. */
  function Carried(e: Entry, oldPath: string, newPath: string): (e': Entry)
    ensures SameButPlace(e, e')
  {
    if HasPrefix(e.path, oldPath + "/") then e.(path := newPath + e.path[|oldPath|..]) else e
  }

  function CarriedAll(entries: map<string, Entry>, oldPath: string, newPath: string)
    : (moved: map<string, Entry>)
    ensures moved.Keys == entries.Keys
    ensures forall id | id in entries :: SameButPlace(entries[id], moved[id])
  {
    map id | id in entries :: Carried(entries[id], oldPath, newPath)
  }

  /** The entry as updateEntry would store it: an empty parent or name leaves that attribute as it is. */
  function Updated(t: Tree, was: Entry, parentId: string, name: string): (e: Entry)
    ensures SameButPlace(was, e)
  {
    var parent := if parentId != "" then parentId else was.parentId;
    var name' := if name != "" then name else was.name;
    var parentPath := if IsFolder(t, parent) then PathOf(t, parent) else "";
    was.(parentId := parent, name := name', path := parentPath + "/" + name')
  }

  function UpdateEntry(t: Tree, id: string, parentId: string, name: string, folder: bool): (Tree, Result<Entry>) {
    var collection := if folder then t.folders else t.documents;
    if id !in collection then (t, Err(NOT_FOUND))
    else if parentId != "" && !IsFolder(t, parentId) then (t, Err(PARENT_NOT_FOUND))
    else
      var was := collection[id];
      var entry := Updated(t, was, parentId, name);
      if entry.path != was.path && PathTaken(t, entry.path, id) then (t, Err(DUPLICATE))
      else if !folder then (t.(documents := t.documents[id := entry]), Ok(entry))
      else
        var t' := t.(folders := t.folders[id := entry]);
        if entry.path == was.path then (t', Ok(entry))
        else
          (t'.(folders := CarriedAll(t'.folders, was.path, entry.path),
               documents := CarriedAll(t'.documents, was.path, entry.path)),
           Ok(entry))
  }

  function CopyDocument(t: Tree, id: string, parentId: string, name: string, now: string): (Tree, Result<Entry>) {
    if id !in t.documents then (t, Err(NOT_FOUND))
    else if !IsFolder(t, parentId) then (t, Err(PARENT_NOT_FOUND))
    else
      var source := t.documents[id];
      var name' := if name != "" then name else source.name;
      var path := PathOf(t, parentId) + "/" + name';
      if PathTaken(t, path, "") then (t, Err(DUPLICATE)) else
        var newId := DocumentId(t.nextId);
        var copy := source.(id := newId, name := name', path := path, parentId := parentId, created := now);
        var content := if id in t.contents then t.contents[id] else [];
        (t.(documents := t.documents[newId := copy], contents := t.contents[newId := content], nextId := t.nextId + 1),
         Ok(copy))
  }

  function DeleteDocument(t: Tree, id: string, targetRevision: string): (Tree, Result<()>) {
    if id !in t.documents then (t, Err(NOT_FOUND))
    else if targetRevision != "" && targetRevision != t.documents[id].revision then (t, Err(CONFLICT))
    else (t.(documents := t.documents - {id}, contents := t.contents - {id}), Ok(()))
  }

  predicate HasChild(t: Tree, id: string) {
    || (exists c | c in t.folders :: t.folders[c].parentId == id)
    || (exists c | c in t.documents :: t.documents[c].parentId == id)
  }

  function BelowIn(entries: map<string, Entry>, path: string): set<string> {
    set id | id in entries && HasPrefix(entries[id].path, path + "/")
  }

  function DeleteFolder(t: Tree, id: string, force: bool): (Tree, Result<()>) {
    if id !in t.folders then (t, Err(NOT_FOUND))
    else if !force && HasChild(t, id) then (t, Err(NOT_EMPTY))
    else if !force then (t.(folders := t.folders - {id}), Ok(()))
    else
      var path := t.folders[id].path;
      var documents := BelowIn(t.documents, path);
      (t.(folders := t.folders - BelowIn(t.folders, path) - {id}, documents := t.documents - documents,
          contents := t.contents - documents),
       Ok(()))
  }

  /** One request that can change the device. */
  datatype Request =
    | FolderCreation(parentId: string, name: string, now: string)
    | DocumentCreation(parentId: string, name: string, now: string)
    | Uploading(id: string, content: seq<byte>, fileHash: string, targetRevision: string, now: string)
    | Updating(id: string, parentId: string, name: string, folder: bool)
    | Copying(id: string, parentId: string, name: string, now: string)
    | DocumentDeletion(id: string, targetRevision: string)
    | FolderDeletion(id: string, force: bool)

  function Serve(t: Tree, r: Request): Tree {
    match r
    case FolderCreation(parentId, name, now) => CreateFolder(t, parentId, name, now).0
    case DocumentCreation(parentId, name, now) => CreateDocument(t, parentId, name, now).0
    case Uploading(id, content, fileHash, targetRevision, now) =>
      Upload(t, id, content, fileHash, targetRevision, now).0
    case Updating(id, parentId, name, folder) => UpdateEntry(t, id, parentId, name, folder).0
    case Copying(id, parentId, name, now) => CopyDocument(t, id, parentId, name, now).0
    case DocumentDeletion(id, targetRevision) => DeleteDocument(t, id, targetRevision).0
    case FolderDeletion(id, force) => DeleteFolder(t, id, force).0
  }

  function ServeAll(t: Tree, rs: seq<Request>): Tree
    decreases |rs|
  {
    if rs == [] then t else ServeAll(Serve(t, rs[0]), rs[1..])
  }

  // ---------- what every request keeps, whatever its arguments ----------

  predicate IssuedFolder(next: nat, id: string) {
    exists n | 0 < n < next :: id == FolderId(n)
  }

  predicate IssuedDocument(next: nat, id: string) {
    exists n | 0 < n < next :: id == DocumentId(n)
  }

  /** IDs come from the counter; documents and contents have the same keys, and sizes and revisions are exact. */
  ghost predicate Accounted(t: Tree) {
    && t.nextId > 0
    && (forall id | id in t.folders ::
          IssuedFolder(t.nextId, id) && t.folders[id].id == id && t.folders[id].kind == FolderEntry)
    && (forall id | id in t.documents ::
          IssuedDocument(t.nextId, id) && t.documents[id].id == id && t.documents[id].kind == DocumentEntry)
    && t.documents.Keys == t.contents.Keys
    && (forall id | id in t.documents ::
          && t.documents[id].size == Itoa(|t.contents[id]|)
          && t.documents[id].revision == Itoa(Atoi(t.documents[id].revision)))
  }

  lemma {:induction false} IdsDiffer(m: nat, n: nat)
    ensures FolderId(m) != DocumentId(n)
    ensures FolderId(m) == FolderId(n) ==> m == n
    ensures DocumentId(m) == DocumentId(n) ==> m == n
    ensures FolderId(m) != ROOT && FolderId(m) != "" && DocumentId(m) != ROOT && DocumentId(m) != ""
  {
    assert FolderId(m)[0] == 'f' && DocumentId(n)[0] == 'd' && DocumentId(m)[0] == 'd' && ROOT[0] == 'r';
    assert FolderId(m)[7..] == ZeroPadded(m, 6) && FolderId(n)[7..] == ZeroPadded(n, 6);
    assert DocumentId(m)[4..] == ZeroPadded(m, 6) && DocumentId(n)[4..] == ZeroPadded(n, 6);
  }

  /** A fresh ID is nobody's. */
  lemma {:induction false} NextIdIsUnused(t: Tree)
    requires Accounted(t)
    ensures FolderId(t.nextId) !in t.folders && FolderId(t.nextId) !in t.documents
    ensures DocumentId(t.nextId) !in t.folders && DocumentId(t.nextId) !in t.documents
    ensures FolderId(t.nextId) != ROOT && DocumentId(t.nextId) != ROOT
    ensures FolderId(t.nextId) != "" && DocumentId(t.nextId) != ""
  {
    forall n: nat
      ensures FolderId(n) != DocumentId(t.nextId) && DocumentId(n) != FolderId(t.nextId)
      ensures n != t.nextId ==> FolderId(n) != FolderId(t.nextId) && DocumentId(n) != DocumentId(t.nextId)
    {
      IdsDiffer(n, t.nextId);
      IdsDiffer(t.nextId, n);
    }
    IdsDiffer(t.nextId, t.nextId);
  }

  lemma {:induction false} RootIsNoEntry(t: Tree)
    requires Accounted(t)
    ensures ROOT !in t.folders && ROOT !in t.documents && "" !in t.folders && "" !in t.documents
    ensures t.folders.Keys !! t.documents.Keys
  {
    hide FolderId, DocumentId, ROOT;
    forall m: nat
      ensures FolderId(m) != ROOT && FolderId(m) != ""
    {
      IdsDiffer(m, m);
    }
    forall m: nat
      ensures DocumentId(m) != ROOT && DocumentId(m) != ""
    {
      IdsDiffer(m, m);
    }
    forall m: nat, n: nat
      ensures FolderId(m) != DocumentId(n)
    {
      IdsDiffer(m, n);
    }
  }

  lemma {:induction false} IssuedForEver(next: nat)
    ensures forall id :: IssuedFolder(next, id) ==> IssuedFolder(next + 1, id)
    ensures forall id :: IssuedDocument(next, id) ==> IssuedDocument(next + 1, id)
    ensures next > 0 ==> IssuedFolder(next + 1, FolderId(next)) && IssuedDocument(next + 1, DocumentId(next))
  {
    hide FolderId, DocumentId;
  }

  lemma {:induction false} ZeroIsZero()
    ensures Itoa(0) == "0" && Atoi("0") == 0
  {
  }

  lemma {:induction false} FolderCreationKeepsAccounts(t: Tree, parentId: string, name: string, now: string)
    requires Accounted(t)
    ensures Accounted(CreateFolder(t, parentId, name, now).0)
  {
    hide FolderId, IssuedFolder, IssuedDocument, PathTaken, Itoa, Atoi;
    IssuedForEver(t.nextId);
  }

  lemma {:induction false} DocumentCreationKeepsAccounts(t: Tree, parentId: string, name: string, now: string)
    requires Accounted(t)
    ensures Accounted(CreateDocument(t, parentId, name, now).0)
  {
    ZeroIsZero();
    hide DocumentId, IssuedFolder, IssuedDocument, PathTaken, Itoa, Atoi;
    IssuedForEver(t.nextId);
  }

  lemma {:induction false} UploadKeepsAccounts(t: Tree, id: string, content: seq<byte>, fileHash: string,
                                               targetRevision: string, now: string)
    requires Accounted(t)
    ensures Accounted(Upload(t, id, content, fileHash, targetRevision, now).0)
  {
    hide IssuedFolder, IssuedDocument, Itoa;
  }

  lemma {:induction false} PlacesDoNotCount(t: Tree, t': Tree)
    requires Accounted(t)
    requires t'.folders.Keys == t.folders.Keys && t'.documents.Keys == t.documents.Keys
    requires forall id | id in t.folders :: SameButPlace(t.folders[id], t'.folders[id])
    requires forall id | id in t.documents :: SameButPlace(t.documents[id], t'.documents[id])
    requires t'.contents == t.contents && t'.nextId == t.nextId
    ensures Accounted(t')
  {
    hide IssuedFolder, IssuedDocument, Itoa, Atoi;
  }

  lemma {:induction false} UpdateKeepsAccounts(t: Tree, id: string, parentId: string, name: string, folder: bool)
    requires Accounted(t)
    ensures Accounted(UpdateEntry(t, id, parentId, name, folder).0)
  {
    hide PathTaken, Updated, CarriedAll, Accounted;
    PlacesDoNotCount(t, UpdateEntry(t, id, parentId, name, folder).0);
  }

  lemma {:induction false} CopyKeepsAccounts(t: Tree, id: string, parentId: string, name: string, now: string)
    requires Accounted(t)
    ensures Accounted(CopyDocument(t, id, parentId, name, now).0)
  {
    hide FolderId, DocumentId, IssuedFolder, IssuedDocument, Itoa, Atoi, PathTaken;
    IssuedForEver(t.nextId);
  }

  lemma {:induction false} DeletionKeepsAccounts(t: Tree, id: string, targetRevision: string, force: bool)
    requires Accounted(t)
    ensures Accounted(DeleteDocument(t, id, targetRevision).0)
    ensures Accounted(DeleteFolder(t, id, force).0)
  {
    hide IssuedFolder, IssuedDocument, Itoa, Atoi, HasChild, HasPrefix;
  }

  lemma {:induction false} ServeKeepsAccounts(t: Tree, r: Request)
    requires Accounted(t)
    ensures Accounted(Serve(t, r))
  {
    hide Accounted, CreateFolder, CreateDocument, Upload, UpdateEntry, CopyDocument, DeleteDocument, DeleteFolder;
    match r {
      case FolderCreation(parentId, name, now) => FolderCreationKeepsAccounts(t, parentId, name, now);
      case DocumentCreation(parentId, name, now) => DocumentCreationKeepsAccounts(t, parentId, name, now);
      case Uploading(id, content, fileHash, revision, now) =>
        UploadKeepsAccounts(t, id, content, fileHash, revision, now);
      case Updating(id, parentId, name, folder) => UpdateKeepsAccounts(t, id, parentId, name, folder);
      case Copying(id, parentId, name, now) => CopyKeepsAccounts(t, id, parentId, name, now);
      case DocumentDeletion(id, revision) => DeletionKeepsAccounts(t, id, revision, false);
      case FolderDeletion(id, force) => DeletionKeepsAccounts(t, id, "", force);
    }
  }

  lemma {:induction false} ServeAllKeepsAccounts(t: Tree, rs: seq<Request>)
    requires Accounted(t)
    ensures Accounted(ServeAll(t, rs))
    decreases |rs|
  {
    if rs != [] {
      ServeKeepsAccounts(t, rs[0]);
      ServeAllKeepsAccounts(Serve(t, rs[0]), rs[1..]);
    }
  }
}
