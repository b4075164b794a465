/**
 The device keeps its tree twice, as parent IDs and as path strings. This module says when the two agree, proves
 that every request keeps them agreeing, and finds the one request that does not: moving a folder into itself.
 */
module TreeShape {
  import opened Bytes
  import opened Text
  import opened DeviceTree

  predicate Holds(t: Tree, id: string) {
    id in t.folders || id in t.documents
  }

  function At(t: Tree, id: string): Entry
    requires Holds(t, id)
  {
    if id in t.folders then t.folders[id] else t.documents[id]
  }

  /** A name the clients can send: not empty and without a slash. */
  predicate PlainName(name: string) {
    name != "" && '/' !in name
  }

  /** The parent exists and the path is the parent's path, a slash and the name. */
  predicate Placed(t: Tree, e: Entry) {
    PlainName(e.name) && IsFolder(t, e.parentId) && e.path == PathOf(t, e.parentId) + "/" + e.name
  }

  ghost predicate Shaped(t: Tree) {
    && t.folders.Keys !! t.documents.Keys
    && ROOT !in t.folders
    && (forall id | Holds(t, id) :: Placed(t, At(t, id)))
    && (forall a, b | Holds(t, a) && Holds(t, b) && At(t, a).path == At(t, b).path :: a == b)
  }

  /** The folder `id` is the folder `top` or lies below it, going up by parent IDs. */
  ghost predicate Under(t: Tree, id: string, top: string)
    requires Shaped(t) && IsFolder(t, id)
    decreases |PathOf(t, id)|
  {
    id == top || (id != ROOT && (assert Placed(t, At(t, id)); Under(t, t.folders[id].parentId, top)))
  }

  /** The entry `id` is a child, grandchild, ... of the folder `top`. */
  ghost predicate Descends(t: Tree, id: string, top: string)
    requires Shaped(t) && Holds(t, id)
  {
    assert Placed(t, At(t, id));
    Under(t, At(t, id).parentId, top)
  }

  // ---------- paths ----------

  /** A path with a plain name at its end has its slashes in the parent's path, and one after it. */
  lemma {:induction false} PrefixOfJoin(x: string, parent: string, name: string)
    requires PlainName(name)
    ensures HasPrefix(parent + "/" + name, x + "/") <==> x == parent || HasPrefix(parent, x + "/")
  {
    var path := parent + "/" + name;
    if HasPrefix(path, x + "/") {
      assert path[|x|] == (x + "/")[|x|] == '/';
      assert |x| <= |parent|;
      assert x == (x + "/")[..|x|] == path[..|x|] == parent[..|x|];
      if |x| < |parent| {
        assert x + "/" == path[..|x| + 1] == parent[..|x| + 1];
      }
    }
    if x == parent {
      assert path[..|x| + 1] == x + "/";
    }
  }

  lemma {:induction false} RootPathHasNoSlash(x: string)
    ensures !HasPrefix(ROOT_PATH, x + "/")
  {
    assert (x + "/")[|x|] == '/';
  }

  lemma {:induction false} EntryPathIsNotRoot(t: Tree, id: string)
    requires Shaped(t) && Holds(t, id)
    ensures At(t, id).path != ROOT_PATH
  {
    assert Placed(t, At(t, id));
    var path := At(t, id).path;
    assert path[|PathOf(t, At(t, id).parentId)|] == '/';
  }

  lemma {:induction false} SamePathSameFolder(t: Tree, a: string, b: string)
    requires Shaped(t) && IsFolder(t, a) && IsFolder(t, b)
    ensures PathOf(t, a) == PathOf(t, b) ==> a == b
  {
    if a != ROOT {
      EntryPathIsNotRoot(t, a);
    }
    if b != ROOT {
      EntryPathIsNotRoot(t, b);
    }
  }

  /** Below by path prefix is below by parent ID. */
  lemma {:induction false} PrefixIsDescent(t: Tree, id: string, top: string)
    requires Shaped(t) && Holds(t, id) && top in t.folders
    ensures HasPrefix(At(t, id).path, t.folders[top].path + "/") <==> Descends(t, id, top)
    decreases |At(t, id).path|
  {
    hide HasPrefix;
    assert Placed(t, At(t, id));
    var parent, x := At(t, id).parentId, t.folders[top].path;
    PrefixOfJoin(x, PathOf(t, parent), At(t, id).name);
    SamePathSameFolder(t, parent, top);
    if parent == ROOT {
      RootPathHasNoSlash(x);
    } else {
      PrefixIsDescent(t, parent, top);
    }
  }

  /** Every slash of a path ends the path of an enclosing folder. */
  lemma {:induction false} EnclosingFolder(t: Tree, id: string, x: string) returns (folder: string)
    requires Shaped(t) && Holds(t, id) && HasPrefix(At(t, id).path, x + "/")
    ensures IsFolder(t, folder) && PathOf(t, folder) == x
    decreases |At(t, id).path|
  {
    hide HasPrefix;
    assert Placed(t, At(t, id));
    var parent := At(t, id).parentId;
    PrefixOfJoin(x, PathOf(t, parent), At(t, id).name);
    if x == PathOf(t, parent) {
      return parent;
    }
    RootPathHasNoSlash(x);
    folder := EnclosingFolder(t, parent, x);
  }

  // ---------- creation, copying, uploading ----------

  /** Adding one entry at a free path under an existing folder keeps the shape. */
  lemma {:induction false} AdditionKeepsShape(t: Tree, t': Tree, e: Entry)
    requires Shaped(t) && Placed(t, e) && !PathTaken(t, e.path, "")
    requires !Holds(t, e.id) && e.id != ROOT && !Holds(t, "")
    requires (t'.folders == t.folders[e.id := e] && t'.documents == t.documents)
          || (t'.folders == t.folders && t'.documents == t.documents[e.id := e])
    ensures Shaped(t')
  {
    assert forall id :: Holds(t', id) ==> id == e.id || (Holds(t, id) && At(t', id) == At(t, id));
    assert forall id :: IsFolder(t, id) ==> IsFolder(t', id) && PathOf(t', id) == PathOf(t, id);
    assert At(t', e.id) == e;
    forall id | Holds(t, id)
      ensures At(t, id).path != e.path
    {
      assert id != "";
    }
  }

  lemma {:induction false} CreationKeepsShape(t: Tree, parentId: string, name: string, now: string)
    requires Accounted(t) && Shaped(t) && PlainName(name)
    ensures Shaped(CreateFolder(t, parentId, name, now).0)
    ensures Shaped(CreateDocument(t, parentId, name, now).0)
  {
    hide FolderId, DocumentId, PathTaken, Shaped;
    NextIdIsUnused(t);
    RootIsNoEntry(t);
    var (t1, r1) := CreateFolder(t, parentId, name, now);
    if r1.Ok? {
      AdditionKeepsShape(t, t1, r1.value);
    }
    var (t2, r2) := CreateDocument(t, parentId, name, now);
    if r2.Ok? {
      AdditionKeepsShape(t, t2, r2.value);
    }
  }

  lemma {:induction false} CopyKeepsShape(t: Tree, id: string, parentId: string, name: string, now: string)
    requires Accounted(t) && Shaped(t) && (name == "" || PlainName(name))
    ensures Shaped(CopyDocument(t, id, parentId, name, now).0)
  {
    hide DocumentId, PathTaken;
    NextIdIsUnused(t);
    RootIsNoEntry(t);
    var (t', r) := CopyDocument(t, id, parentId, name, now);
    if r.Ok? {
      assert Placed(t, At(t, id));
      AdditionKeepsShape(t, t', r.value);
    }
  }

  lemma {:induction false} UploadKeepsShape(t: Tree, id: string, content: seq<byte>, fileHash: string,
                                            targetRevision: string, now: string)
    requires Shaped(t)
    ensures Shaped(Upload(t, id, content, fileHash, targetRevision, now).0)
  {
    hide Itoa, Atoi;
    var t' := Upload(t, id, content, fileHash, targetRevision, now).0;
    assert forall k | Holds(t', k) ::
      Holds(t, k) && At(t', k).path == At(t, k).path && At(t', k).parentId == At(t, k).parentId &&
      At(t', k).name == At(t, k).name;
    assert forall k :: IsFolder(t, k) ==> IsFolder(t', k) && PathOf(t', k) == PathOf(t, k);
  }

  // ---------- deletion ----------

  /** Removing entries keeps the shape when nothing that stays has its parent removed. */
  lemma {:induction false} RemovalKeepsShape(t: Tree, t': Tree)
    requires Shaped(t)
    requires t'.folders.Keys <= t.folders.Keys && t'.documents.Keys <= t.documents.Keys
    requires forall id | Holds(t', id) :: At(t', id) == At(t, id) && IsFolder(t', At(t, id).parentId)
    ensures Shaped(t')
  {
    forall id | Holds(t', id)
      ensures Placed(t', At(t', id))
    {
      assert Placed(t, At(t, id));
      var parent := At(t, id).parentId;
      if parent != ROOT {
        assert At(t', parent) == At(t, parent);
      }
    }
  }

  /** Forced or not, deleting a folder removes exactly the folder and what descends from it by parent ID. */
  lemma {:induction false} FolderDeletionIsSubtree(t: Tree, id: string, force: bool)
    requires Shaped(t) && DeleteFolder(t, id, force).1.Ok?
    ensures var t' := DeleteFolder(t, id, force).0;
      forall k :: Holds(t', k) <==> Holds(t, k) && k != id && !Descends(t, k, id)
    ensures var t' := DeleteFolder(t, id, force).0;
      forall k | Holds(t', k) :: At(t', k) == At(t, k)
  {
    var t' := DeleteFolder(t, id, force).0;
    forall k | Holds(t, k)
      ensures HasPrefix(At(t, k).path, t.folders[id].path + "/") <==> Descends(t, k, id)
    {
      PrefixIsDescent(t, k, id);
    }
    if !force {
      forall k | Holds(t, k)
        ensures !Descends(t, k, id)
      {
        NothingBelowChildless(t, k, id);
      }
    }
    forall k | Holds(t, k)
      ensures Holds(t', k) <==> k != id && !Descends(t, k, id)
    {
      assert k in t.folders ==> (k in t'.folders <==> k != id && !Descends(t, k, id));
      assert k in t.documents ==> (k in t'.documents <==> !Descends(t, k, id));
    }
  }

  lemma {:induction false} NothingBelowChildless(t: Tree, k: string, id: string)
    requires Shaped(t) && Holds(t, k) && id in t.folders && !HasChild(t, id)
    ensures !Descends(t, k, id)
    decreases |At(t, k).path|
  {
    assert Placed(t, At(t, k));
    var parent := At(t, k).parentId;
    assert parent != id;
    if parent != ROOT {
      NothingBelowChildless(t, parent, id);
    }
  }

  lemma {:induction false} FolderDeletionKeepsShape(t: Tree, id: string, force: bool)
    requires Shaped(t)
    ensures Shaped(DeleteFolder(t, id, force).0)
  {
    hide DeleteFolder;
    var (t', r) := DeleteFolder(t, id, force);
    if r.Ok? {
      FolderDeletionIsSubtree(t, id, force);
      assert t'.folders.Keys <= t.folders.Keys && t'.documents.Keys <= t.documents.Keys by {
        DeletionOnlyRemoves(t, id, force);
      }
      forall k | Holds(t', k)
        ensures IsFolder(t', At(t, k).parentId)
      {
        assert Placed(t, At(t, k)) && !Descends(t, k, id);
        var parent := At(t, k).parentId;
        if parent != ROOT {
          assert Holds(t, parent) && parent != id && !Descends(t, parent, id);
        }
      }
      RemovalKeepsShape(t, t');
    } else {
      assert t' == t by { DeletionOnlyRemoves(t, id, force); }
    }
  }

  lemma {:induction false} DeletionOnlyRemoves(t: Tree, id: string, force: bool)
    ensures var (t', r) := DeleteFolder(t, id, force);
      (r.Err? ==> t' == t) && t'.folders.Keys <= t.folders.Keys && t'.documents.Keys <= t.documents.Keys
  {
  }

  lemma {:induction false} DocumentDeletionKeepsShape(t: Tree, id: string, targetRevision: string)
    requires Shaped(t)
    ensures Shaped(DeleteDocument(t, id, targetRevision).0)
  {
    var t' := DeleteDocument(t, id, targetRevision).0;
    forall k | Holds(t', k)
      ensures At(t', k) == At(t, k) && IsFolder(t', At(t, k).parentId)
    {
      assert Placed(t, At(t, k));
    }
    RemovalKeepsShape(t, t');
  }

  // ---------- renaming and moving ----------

  lemma {:induction false} DocumentUpdateKeepsShape(t: Tree, id: string, parentId: string, name: string)
    requires Shaped(t) && (name == "" || PlainName(name))
    ensures Shaped(UpdateEntry(t, id, parentId, name, false).0)
  {
    var (t', r) := UpdateEntry(t, id, parentId, name, false);
    if r.Ok? {
      var was, e := t.documents[id], r.value;
      assert At(t, id) == was && Placed(t, was) && Placed(t', e);
      assert forall k | Holds(t', k) :: Holds(t, k) && At(t', k) == if k == id then e else At(t, k);
      forall k | Holds(t, k) && k != id
        ensures At(t, k).path != e.path && Placed(t', At(t, k))
      {
        assert Placed(t, At(t, k));
        assert At(t, k).path != was.path;
      }
    }
  }

  /** The one folder update that breaks the tree: the new parent is the folder itself or lies below it. */
  ghost predicate IntoItself(t: Tree, id: string, parentId: string)
    requires Shaped(t)
  {
    parentId != "" && IsFolder(t, parentId) && Under(t, parentId, id)
  }

  lemma {:induction false} UnderIsNotShorter(t: Tree, id: string, top: string)
    requires Shaped(t) && IsFolder(t, id) && IsFolder(t, top) && Under(t, id, top)
    ensures |PathOf(t, id)| >= |PathOf(t, top)|
    decreases |PathOf(t, id)|
  {
    if id != top {
      assert Placed(t, At(t, id));
      UnderIsNotShorter(t, t.folders[id].parentId, top);
    }
  }

  /** The folder `id` is to become `e`, at another free path and outside itself. */
  ghost predicate Moving(t: Tree, id: string, e: Entry) {
    && Shaped(t) && id in t.folders && Placed(t, e) && !Under(t, e.parentId, id)
    && e.path != t.folders[id].path && !PathTaken(t, e.path, id)
  }

  function Moved(t: Tree, id: string, e: Entry): Tree
    requires id in t.folders
  {
    var was := t.folders[id].path;
    t.(folders := CarriedAll(t.folders[id := e], was, e.path), documents := CarriedAll(t.documents, was, e.path))
  }

  lemma {:induction false} MovedHead(t: Tree, id: string, e: Entry)
    requires Moving(t, id, e)
    ensures At(Moved(t, id, e), id) == e
    ensures IsFolder(Moved(t, id, e), e.parentId) && PathOf(Moved(t, id, e), e.parentId) == PathOf(t, e.parentId)
  {
    hide HasPrefix, PathTaken;
    var was, parent := t.folders[id].path, e.parentId;
    PrefixOfJoin(was, PathOf(t, parent), e.name);
    SamePathSameFolder(t, parent, id);
    if parent == ROOT {
      RootPathHasNoSlash(was);
    } else {
      PrefixIsDescent(t, parent, id);
    }
  }

  /** Where an entry is carried to, in terms of its parent's path. */
  lemma {:induction false} CarriedChild(e: Entry, parent: string, oldPath: string, newPath: string)
    requires PlainName(e.name) && e.path == parent + "/" + e.name
    ensures Carried(e, oldPath, newPath).path ==
            (if parent == oldPath then newPath
             else if HasPrefix(parent, oldPath + "/") then newPath + parent[|oldPath|..]
             else parent) + "/" + e.name
  {
    PrefixOfJoin(oldPath, parent, e.name);
    if parent == oldPath {
      assert e.path[|oldPath|..] == "/" + e.name;
    } else if HasPrefix(parent, oldPath + "/") {
      assert e.path[|oldPath|..] == parent[|oldPath|..] + "/" + e.name;
    }
  }

  lemma {:induction false} MovedRest(t: Tree, id: string, e: Entry, k: string)
    requires Moving(t, id, e) && Holds(t, k) && k != id
    ensures Holds(Moved(t, id, e), k)
    ensures At(Moved(t, id, e), k) == Carried(At(t, k), t.folders[id].path, e.path)
    ensures Placed(Moved(t, id, e), At(Moved(t, id, e), k))
  {
    hide PathTaken, HasPrefix;
    var t' := Moved(t, id, e);
    var was, parent := t.folders[id].path, At(t, k).parentId;
    assert Placed(t, At(t, k));
    assert At(t', k) == Carried(At(t, k), was, e.path);
    CarriedChild(At(t, k), PathOf(t, parent), was, e.path);
    SamePathSameFolder(t, parent, id);
    if parent == id {
      MovedHead(t, id, e);
    } else if parent == ROOT {
      RootPathHasNoSlash(was);
    } else {
      assert PathOf(t', parent) == Carried(At(t, parent), was, e.path).path;
    }
  }

  /** Two paths that are carried to one path were one path. */
  lemma {:induction false} CarryingIsInjective(a: Entry, b: Entry, oldPath: string, newPath: string)
    requires HasPrefix(a.path, oldPath + "/") && HasPrefix(b.path, oldPath + "/")
    requires Carried(a, oldPath, newPath).path == Carried(b, oldPath, newPath).path
    ensures a.path == b.path
  {
    var a', b' := Carried(a, oldPath, newPath).path, Carried(b, oldPath, newPath).path;
    assert a'[|newPath|..] == a.path[|oldPath|..] && b'[|newPath|..] == b.path[|oldPath|..];
    assert a.path[..|oldPath|] == (oldPath + "/")[..|oldPath|] == b.path[..|oldPath|];
    assert a.path == a.path[..|oldPath|] + a.path[|oldPath|..] && b.path == b.path[..|oldPath|] + b.path[|oldPath|..];
  }

  /** Nothing that stays where it is lies at or below the new path. */
  lemma {:induction false} NewPathIsFree(t: Tree, id: string, e: Entry, k: string)
    requires Moving(t, id, e) && Holds(t, k) && k != id
    ensures At(t, k).path != e.path && !HasPrefix(At(t, k).path, e.path + "/")
  {
    assert e.path[|PathOf(t, e.parentId)|] == '/';
    if HasPrefix(At(t, k).path, e.path + "/") {
      var h := EnclosingFolder(t, k, e.path);
    }
  }

  lemma {:induction false} MovedPathsDiffer(t: Tree, id: string, e: Entry, a: string, b: string)
    requires Moving(t, id, e) && Holds(t, a) && Holds(t, b) && a != b && a != id
    requires Holds(Moved(t, id, e), a) && Holds(Moved(t, id, e), b)
    ensures At(Moved(t, id, e), a).path != At(Moved(t, id, e), b).path
  {
    hide PathTaken, Placed, CarriedAll;
    var was, dest := t.folders[id].path, e.path;
    MovedHead(t, id, e);
    MovedRest(t, id, e, a);
    NewPathIsFree(t, id, e, a);
    if HasPrefix(At(t, a).path, was + "/") {
      CarriedIsBelow(At(t, a), was, dest);
    }
    if b != id {
      MovedRest(t, id, e, b);
      NewPathIsFree(t, id, e, b);
      if HasPrefix(At(t, b).path, was + "/") {
        CarriedIsBelow(At(t, b), was, dest);
      }
      if HasPrefix(At(t, a).path, was + "/") && HasPrefix(At(t, b).path, was + "/") {
        if Carried(At(t, a), was, dest).path == Carried(At(t, b), was, dest).path {
          CarryingIsInjective(At(t, a), At(t, b), was, dest);
        }
      }
    }
  }

  lemma {:induction false} CarriedIsBelow(e: Entry, oldPath: string, newPath: string)
    requires HasPrefix(e.path, oldPath + "/")
    ensures HasPrefix(Carried(e, oldPath, newPath).path, newPath + "/") && Carried(e, oldPath, newPath).path != newPath
  {
    assert e.path[|oldPath|] == (oldPath + "/")[|oldPath|] == '/';
    assert Carried(e, oldPath, newPath).path[..|newPath| + 1] == newPath + "/";
  }

  lemma {:induction false} MoveKeepsShape(t: Tree, id: string, e: Entry)
    requires Moving(t, id, e)
    ensures Shaped(Moved(t, id, e))
  {
    hide PathTaken;
    var t' := Moved(t, id, e);
    MovedHead(t, id, e);
    forall k | Holds(t', k)
      ensures Holds(t, k) && Placed(t', At(t', k))
    {
      if k != id {
        MovedRest(t, id, e, k);
      }
    }
    forall a, b | Holds(t', a) && Holds(t', b) && At(t', a).path == At(t', b).path
      ensures a == b
    {
      if a != b {
        if a != id {
          MovedPathsDiffer(t, id, e, a, b);
        } else {
          MovedPathsDiffer(t, id, e, b, a);
        }
      }
    }
  }

  /** Both directions: a folder update that goes through keeps the shape unless it moves the folder into itself. */
  lemma {:induction false} FolderUpdateKeepsShape(t: Tree, id: string, parentId: string, name: string)
    requires Shaped(t) && (name == "" || PlainName(name))
    requires UpdateEntry(t, id, parentId, name, true).1.Ok?
    ensures Shaped(UpdateEntry(t, id, parentId, name, true).0) <==> !IntoItself(t, id, parentId)
  {
    var e := UpdateEntry(t, id, parentId, name, true).1.value;
    assert Placed(t, At(t, id));
    assert Placed(t, e);
    if IntoItself(t, id, parentId) {
      IntoItselfBreaksShape(t, id, parentId, name);
    } else {
      if Under(t, e.parentId, id) {
        UnderIsNotShorter(t, e.parentId, id);
      }
      if e.path == t.folders[id].path {
        SamePlaceKeepsShape(t, id, e);
      } else {
        MoveKeepsShape(t, id, e);
      }
    }
  }

  lemma {:induction false} SamePlaceKeepsShape(t: Tree, id: string, e: Entry)
    requires Shaped(t) && id in t.folders && Placed(t, e) && e.path == t.folders[id].path
    ensures Shaped(t.(folders := t.folders[id := e]))
  {
    var t' := t.(folders := t.folders[id := e]);
    assert forall k | Holds(t', k) :: Holds(t, k) && At(t', k) == if k == id then e else At(t, k);
    forall k | Holds(t, k)
      ensures Placed(t', At(t', k))
    {
      assert Placed(t, At(t, k));
    }
  }

  /** In a shaped tree every parent's path is shorter than its child's, so there is no way back up to a folder. */
  lemma {:induction false} ChainShortens(t: Tree, t': Tree, id: string, top: string)
    requires Shaped(t) && Shaped(t') && IsFolder(t, id) && top in t.folders && Under(t, id, top)
    requires t'.folders.Keys == t.folders.Keys
    requires forall k | k in t.folders && k != top :: t'.folders[k].parentId == t.folders[k].parentId
    ensures |PathOf(t', id)| >= |PathOf(t', top)|
    decreases |PathOf(t, id)|
  {
    if id != top {
      assert Placed(t, At(t, id)) && Placed(t', At(t', id));
      ChainShortens(t, t', t.folders[id].parentId, top);
    }
  }

  lemma {:induction false} ParentIsShorter(t: Tree, id: string)
    requires Shaped(t) && id in t.folders
    ensures IsFolder(t, t.folders[id].parentId) && |PathOf(t, t.folders[id].parentId)| < |PathOf(t, id)|
  {
    assert Placed(t, At(t, id));
  }

  /** An update changes parent IDs nowhere but at the entry itself. */
  lemma {:induction false} UpdateChangesOneParent(t: Tree, id: string, parentId: string, name: string)
    requires UpdateEntry(t, id, parentId, name, true).1.Ok?
    ensures var t' := UpdateEntry(t, id, parentId, name, true).0;
      && t'.folders.Keys == t.folders.Keys
      && (forall k | k in t.folders && k != id :: t'.folders[k].parentId == t.folders[k].parentId)
      && (parentId != "" ==> t'.folders[id].parentId == parentId)
  {
    hide PathTaken, HasPrefix;
  }

  lemma {:induction false} IntoItselfBreaksShape(t: Tree, id: string, parentId: string, name: string)
    requires Shaped(t) && (name == "" || PlainName(name)) && IntoItself(t, id, parentId)
    requires UpdateEntry(t, id, parentId, name, true).1.Ok?
    ensures !Shaped(UpdateEntry(t, id, parentId, name, true).0)
  {
    var t' := UpdateEntry(t, id, parentId, name, true).0;
    UpdateChangesOneParent(t, id, parentId, name);
    hide UpdateEntry;
    if Shaped(t') {
      ChainShortens(t, t', parentId, id);
      ParentIsShorter(t', id);
    }
  }

  /** The one check that updateEntry makes on a move into the folder itself: nothing else is at the new path. */
  predicate NewPlaceIsFree(t: Tree, id: string, parentId: string, name: string)
    requires parentId == "" || IsFolder(t, parentId)
  {
    && id in t.folders && parentId != ""
    && !PathTaken(t, PathOf(t, parentId) + "/" + (if name != "" then name else t.folders[id].name), id)
  }

  /** From what the caller can see before the call: the update breaks the tree in exactly one case. */
  lemma {:induction false} FolderUpdateBreaksExactly(t: Tree, id: string, parentId: string, name: string)
    requires Shaped(t) && (name == "" || PlainName(name))
    ensures Shaped(UpdateEntry(t, id, parentId, name, true).0) <==>
            !(IntoItself(t, id, parentId) && NewPlaceIsFree(t, id, parentId, name))
  {
    var r := UpdateEntry(t, id, parentId, name, true).1;
    if IntoItself(t, id, parentId) && id in t.folders {
      UnderIsNotShorter(t, parentId, id);
      assert r.Ok? <==> NewPlaceIsFree(t, id, parentId, name);
    }
    hide UpdateEntry, Shaped, PathTaken, IntoItself;
    assert r.Err? ==> UpdateEntry(t, id, parentId, name, true).0 == t by { RefusedUpdate(t, id, parentId, name); }
    if r.Ok? {
      FolderUpdateKeepsShape(t, id, parentId, name);
    }
  }

  lemma {:induction false} RefusedUpdate(t: Tree, id: string, parentId: string, name: string)
    ensures var (t', r) := UpdateEntry(t, id, parentId, name, true);
      (r.Err? ==> t' == t) && (r.Ok? ==> id in t.folders)
  {
    hide PathTaken, CarriedAll, Updated;
  }

  /** The case occurs: the first folder of an empty device, moved into itself. */
  lemma {:induction false} MoveIntoItselfHappens(now: string)
    ensures var (t, made) := CreateFolder(EMPTY, ROOT, "a", now);
      && made.Ok? && Shaped(t) && Accounted(t)
      && UpdateEntry(t, made.value.id, made.value.id, "", true).1.Ok?
      && !Shaped(UpdateEntry(t, made.value.id, made.value.id, "", true).0)
  {
    var (t, made) := CreateFolder(EMPTY, ROOT, "a", now);
    var id := made.value.id;
    EmptyDeviceIsShaped();
    NextIdIsUnused(EMPTY);
    CreationKeepsShape(EMPTY, ROOT, "a", now);
    FolderCreationKeepsAccounts(EMPTY, ROOT, "a", now);
    hide FolderId;
    assert t.folders.Keys == {id} && t.documents == map[] && id != "";
    assert IntoItself(t, id, id);
    assert NewPlaceIsFree(t, id, id, "");
    FolderUpdateBreaksExactly(t, id, id, "");
    assert UpdateEntry(t, id, id, "", true).1.Ok? by { RefusedUpdate(t, id, id, ""); }
  }

  /** A folder update carries its whole subtree along, moves nothing else, and rewires no other parent. */
  lemma {:induction false} FolderUpdateCarriesSubtree(t: Tree, id: string, parentId: string, name: string, k: string)
    requires Shaped(t) && (name == "" || PlainName(name)) && !IntoItself(t, id, parentId)
    requires UpdateEntry(t, id, parentId, name, true).1.Ok? && Holds(t, k) && k != id
    ensures var (t', r) := UpdateEntry(t, id, parentId, name, true);
      && Holds(t', k) && At(t', k).parentId == At(t, k).parentId && At(t', k).name == At(t, k).name
      && At(t', k).path == (PrefixIsDescent(t, k, id);
                            if Descends(t, k, id) then r.value.path + At(t, k).path[|PathOf(t, id)|..]
                            else At(t, k).path)
  {
    var e := UpdateEntry(t, id, parentId, name, true).1.value;
    PrefixIsDescent(t, k, id);
    assert Placed(t, At(t, id));
    assert Placed(t, e);
    if e.path == t.folders[id].path {
      if Descends(t, k, id) {
        assert At(t, k).path == e.path + At(t, k).path[|e.path|..];
      }
    } else {
      if Under(t, e.parentId, id) {
        UnderIsNotShorter(t, e.parentId, id);
      }
      MovedRest(t, id, e, k);
    }
  }

  // ---------- every request, every run ----------

  /** What the simulator leaves to its clients: plain names, and no folder moved into itself. */
  ghost predicate Proper(t: Tree, r: Request)
    requires Shaped(t)
  {
    match r
    case FolderCreation(_, name, _) => PlainName(name)
    case DocumentCreation(_, name, _) => PlainName(name)
    case Updating(id, parentId, name, folder) =>
      (name == "" || PlainName(name)) && (folder ==> !IntoItself(t, id, parentId))
    case Copying(_, _, name, _) => name == "" || PlainName(name)
    case _ => true
  }

  lemma {:induction false} ServeKeepsShape(t: Tree, r: Request)
    requires Accounted(t) && Shaped(t) && Proper(t, r)
    ensures Shaped(Serve(t, r))
  {
    hide Accounted, Shaped, CreateFolder, CreateDocument, Upload, CopyDocument, DeleteDocument, DeleteFolder;
    match r {
      case FolderCreation(parentId, name, now) => CreationKeepsShape(t, parentId, name, now);
      case DocumentCreation(parentId, name, now) => CreationKeepsShape(t, parentId, name, now);
      case Uploading(id, content, fileHash, revision, now) => UploadKeepsShape(t, id, content, fileHash, revision, now);
      case Updating(id, parentId, name, folder) =>
        if !folder {
          DocumentUpdateKeepsShape(t, id, parentId, name);
        } else if UpdateEntry(t, id, parentId, name, true).1.Ok? {
          FolderUpdateKeepsShape(t, id, parentId, name);
        }
      case Copying(id, parentId, name, now) => CopyKeepsShape(t, id, parentId, name, now);
      case DocumentDeletion(id, revision) => DocumentDeletionKeepsShape(t, id, revision);
      case FolderDeletion(id, force) => FolderDeletionKeepsShape(t, id, force);
    }
  }

  /** Every request of the run is proper in the tree it meets. */
  ghost predicate ProperRun(t: Tree, rs: seq<Request>)
    requires Shaped(t) && Accounted(t)
    decreases |rs|
  {
    rs != [] ==>
      && Proper(t, rs[0])
      && (ServeKeepsShape(t, rs[0]); ServeKeepsAccounts(t, rs[0]); ProperRun(Serve(t, rs[0]), rs[1..]))
  }

  /** From a shaped tree, every tree that a proper run reaches is shaped and accounted for. */
  lemma {:induction false} RunKeepsShape(t: Tree, rs: seq<Request>)
    requires Shaped(t) && Accounted(t) && ProperRun(t, rs)
    ensures Shaped(ServeAll(t, rs)) && Accounted(ServeAll(t, rs))
    decreases |rs|
  {
    if rs != [] {
      ServeKeepsShape(t, rs[0]);
      ServeKeepsAccounts(t, rs[0]);
      RunKeepsShape(Serve(t, rs[0]), rs[1..]);
    }
  }

  lemma {:induction false} EmptyDeviceIsShaped()
    ensures Shaped(EMPTY) && Accounted(EMPTY)
  {
  }

  /** The device starts empty, so all that its clients ever see is shaped. */
  lemma {:induction false} ReachableTreesAreShaped(rs: seq<Request>)
    requires (EmptyDeviceIsShaped(); ProperRun(EMPTY, rs))
    ensures Shaped(ServeAll(EMPTY, rs)) && Accounted(ServeAll(EMPTY, rs))
  {
    EmptyDeviceIsShaped();
    RunKeepsShape(EMPTY, rs);
  }
}
