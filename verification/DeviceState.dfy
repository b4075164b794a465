/**
 The simulator's State (dptest/state.go): maps under a mutex, changed in place. Each method is one atomic step and
 is proved to do what DeviceTree says.
 */
module DeviceState {
  import opened Results
  import opened Bytes
  import opened Text
  import opened DeviceTree

  class State {
    var documents: map<string, Entry>
    var folders: map<string, Entry>
    var contents: map<string, seq<byte>>
    var nextId: nat
    var lastFolderDeleteForce: Option<bool>

    function View(): Tree
      reads this
    {
      Tree(documents, folders, contents, nextId)
    }

    constructor ()
      ensures View() == EMPTY && lastFolderDeleteForce == None
    {
      documents, folders, contents, nextId := map[], map[], map[], 1;
      lastFolderDeleteForce := None;
    }

    method FolderPathLocked(id: string) returns (path: string, ok: bool)
      ensures ok == IsFolder(View(), id)
      ensures path == if ok then PathOf(View(), id) else ""
    {
      if id == ROOT {
        return ROOT_PATH, true;
      }
      if id in folders {
        return folders[id].path, true;
      }
      return "", false;
    }

    method PathExistsExceptLocked(path: string, exceptId: string) returns (taken: bool)
      ensures taken == PathTaken(View(), path, exceptId)
    {
      taken := PathIn(documents, path, exceptId);
      if !taken {
        taken := PathIn(folders, path, exceptId);
      }
    }

    /** The loops of pathExistsExceptLocked. */
    static method PathIn(entries: map<string, Entry>, path: string, exceptId: string) returns (taken: bool)
      ensures taken == TakenIn(entries, path, exceptId)
    {
      var pending := entries.Keys;
      while pending != {}
        invariant pending <= entries.Keys
        invariant forall id | id in entries && id !in pending :: id == exceptId || entries[id].path != path
      {
        var id :| id in pending;
        if id != exceptId && entries[id].path == path {
          return true;
        }
        pending := pending - {id};
      }
      return false;
    }

    method CreateFolder(parentId: string, name: string, now: string) returns (r: Result<Entry>)
      modifies this`folders, this`nextId
      ensures (View(), r) == DeviceTree.CreateFolder(old(View()), parentId, name, now)
    {
      var parentPath, ok := FolderPathLocked(parentId);
      if !ok {
        return Err(PARENT_NOT_FOUND);
      }
      var path := parentPath + "/" + name;
      var taken := PathExistsExceptLocked(path, "");
      if taken {
        return Err(DUPLICATE);
      }
      var id := FolderId(nextId);
      nextId := nextId + 1;
      var folder := Entry(id, name, path, FolderEntry, parentId, "", "", "", now, "");
      folders := folders[id := folder];
      return Ok(folder);
    }

    method CreateDocument(parentId: string, name: string, now: string) returns (r: Result<Entry>)
      modifies this`documents, this`contents, this`nextId
      ensures (View(), r) == DeviceTree.CreateDocument(old(View()), parentId, name, now)
    {
      var parentPath, ok := FolderPathLocked(parentId);
      if !ok {
        return Err(PARENT_NOT_FOUND);
      }
      var path := parentPath + "/" + name;
      var taken := PathExistsExceptLocked(path, "");
      if taken {
        return Err(DUPLICATE);
      }
      var id := DocumentId(nextId);
      nextId := nextId + 1;
      var document := Entry(id, name, path, DocumentEntry, parentId, "0", "0", "", now, now);
      documents := documents[id := document];
      contents := contents[id := []];
      return Ok(document);
    }

    method UploadDocument(id: string, content: seq<byte>, fileHash: string, targetRevision: string, now: string)
      returns (r: Result<Entry>)
      modifies this`documents, this`contents
      ensures (View(), r) == Upload(old(View()), id, content, fileHash, targetRevision, now)
    {
      if id !in documents {
        return Err(NOT_FOUND);
      }
      var document := documents[id];
      if targetRevision != "" && targetRevision != document.revision {
        return Err(CONFLICT);
      }
      var revision := Atoi(document.revision);
      document := document.(revision := Itoa(revision + 1));
      document := document.(size := Itoa(|content|));
      document := document.(fileHash := fileHash);
      document := document.(modified := now);
      documents := documents[id := document];
      contents := contents[id := content];
      return Ok(document);
    }

    /** The loops at the end of updateEntry, over one of the two maps and in any order. */
    static method CarryAlong(entries: map<string, Entry>, oldPath: string, newPath: string)
      returns (moved: map<string, Entry>)
      ensures moved == CarriedAll(entries, oldPath, newPath)
    {
      var prefix := oldPath + "/";
      moved := entries;
      var pending := entries.Keys;
      while pending != {}
        invariant pending <= entries.Keys && moved.Keys == entries.Keys
        invariant forall id | id in entries ::
          moved[id] == if id in pending then entries[id] else Carried(entries[id], oldPath, newPath)
      {
        var id :| id in pending;
        var child := moved[id];
        if HasPrefix(child.path, prefix) {
          child := child.(path := newPath + child.path[|oldPath|..]);
          moved := moved[id := child];
        }
        pending := pending - {id};
      }
    }

    method UpdateEntry(id: string, parentId: string, name: string, folder: bool) returns (r: Result<Entry>)
      modifies this`documents, this`folders
      ensures (View(), r) == DeviceTree.UpdateEntry(old(View()), id, parentId, name, folder)
    {
      var collection := documents;
      if folder {
        collection := folders;
      }
      if id !in collection {
        return Err(NOT_FOUND);
      }
      var entry := collection[id];
      var oldPath := entry.path;
      if parentId != "" {
        var _, ok := FolderPathLocked(parentId);
        if !ok {
          return Err(PARENT_NOT_FOUND);
        }
        entry := entry.(parentId := parentId);
      }
      if name != "" {
        entry := entry.(name := name);
      }
      var parentPath, _ := FolderPathLocked(entry.parentId);
      entry := entry.(path := parentPath + "/" + entry.name);
      if entry.path != oldPath {
        var taken := PathExistsExceptLocked(entry.path, id);
        if taken {
          return Err(DUPLICATE);
        }
      }
      if folder {
        folders := folders[id := entry];
      } else {
        documents := documents[id := entry];
      }
      if folder && entry.path != oldPath {
        folders := CarryAlong(folders, oldPath, entry.path);
        documents := CarryAlong(documents, oldPath, entry.path);
      }
      return Ok(entry);
    }

    method CopyDocument(id: string, parentId: string, name: string, now: string) returns (r: Result<Entry>)
      modifies this`documents, this`contents, this`nextId
      ensures (View(), r) == DeviceTree.CopyDocument(old(View()), id, parentId, name, now)
    {
      if id !in documents {
        return Err(NOT_FOUND);
      }
      var source := documents[id];
      var parentPath, ok := FolderPathLocked(parentId);
      if !ok {
        return Err(PARENT_NOT_FOUND);
      }
      var newName := name;
      if newName == "" {
        newName := source.name;
      }
      var path := parentPath + "/" + newName;
      var taken := PathExistsExceptLocked(path, "");
      if taken {
        return Err(DUPLICATE);
      }
      var newId := DocumentId(nextId);
      nextId := nextId + 1;
      var copy := source.(id := newId, name := newName, path := path, parentId := parentId, created := now);
      documents := documents[newId := copy];
      var content := if id in contents then contents[id] else [];
      contents := contents[newId := content];
      return Ok(copy);
    }

    method DeleteDocument(id: string, targetRevision: string) returns (r: Result<()>)
      modifies this`documents, this`contents
      ensures (View(), r) == DeviceTree.DeleteDocument(old(View()), id, targetRevision)
    {
      if id !in documents {
        return Err(NOT_FOUND);
      }
      if targetRevision != "" && targetRevision != documents[id].revision {
        return Err(CONFLICT);
      }
      documents := documents - {id};
      contents := contents - {id};
      return Ok(());
    }

    method DeleteFolder(id: string, force: bool) returns (r: Result<()>)
      modifies this
      ensures (View(), r) == DeviceTree.DeleteFolder(old(View()), id, force)
      ensures lastFolderDeleteForce == Some(force)
    {
      lastFolderDeleteForce := Some(force);
      if id !in folders {
        return Err(NOT_FOUND);
      }
      var path := folders[id].path;
      var child := ChildIn(folders, id);
      if child && !force {
        return Err(NOT_EMPTY);
      }
      child := ChildIn(documents, id);
      if child && !force {
        return Err(NOT_EMPTY);
      }
      if force {
        var below := Below(folders, path);
        folders := folders - below;
        below := Below(documents, path);
        documents := documents - below;
        contents := contents - below;
      }
      folders := folders - {id};
      return Ok(());
    }

    /** The loops of deleteFolder that look for a child by its parent ID. */
    static method ChildIn(entries: map<string, Entry>, parentId: string) returns (found: bool)
      ensures found == exists c | c in entries :: entries[c].parentId == parentId
    {
      var pending := entries.Keys;
      while pending != {}
        invariant pending <= entries.Keys
        invariant forall c | c in entries && c !in pending :: entries[c].parentId != parentId
      {
        var c :| c in pending;
        if entries[c].parentId == parentId {
          return true;
        }
        pending := pending - {c};
      }
      return false;
    }

    /** The loops of deleteFolder that collect what a forced deletion takes along, by path prefix. */
    static method Below(entries: map<string, Entry>, path: string) returns (below: set<string>)
      ensures below == BelowIn(entries, path)
    {
      var prefix := path + "/";
      below := {};
      var pending := entries.Keys;
      while pending != {}
        invariant pending <= entries.Keys
        invariant below == BelowIn(entries, path) - pending
      {
        var id :| id in pending;
        if HasPrefix(entries[id].path, prefix) {
          below := below + {id};
        }
        pending := pending - {id};
      }
    }

    /** Dispatches one request of another client. */
    method Handle(request: Request)
      modifies this
      ensures View() == Serve(old(View()), request)
    {
      match request {
        case FolderCreation(parentId, name, now) => var _ := CreateFolder(parentId, name, now);
        case DocumentCreation(parentId, name, now) => var _ := CreateDocument(parentId, name, now);
        case Uploading(id, content, fileHash, revision, now) =>
          var _ := UploadDocument(id, content, fileHash, revision, now);
        case Updating(id, parentId, name, folder) => var _ := UpdateEntry(id, parentId, name, folder);
        case Copying(id, parentId, name, now) => var _ := CopyDocument(id, parentId, name, now);
        case DocumentDeletion(id, revision) => var _ := DeleteDocument(id, revision);
        case FolderDeletion(id, force) => var _ := DeleteFolder(id, force);
      }
    }

    /** Requests of other clients, one after the other. */
    method HandleAll(requests: seq<Request>)
      modifies this
      ensures View() == ServeAll(old(View()), requests)
    {
      ghost var goal := ServeAll(View(), requests);
      for k := 0 to |requests|
        invariant goal == ServeAll(View(), requests[k..])
      {
        Handle(requests[k]);
      }
    }
  }
}
