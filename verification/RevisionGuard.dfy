/**
 What revisions and the ID counter promise a client while other clients change the device: an ID names one object
 for ever, and a document whose revision has not moved has not been written to.
 */
module RevisionGuard {
  import opened Text
  import opened DeviceTree

  function Revision(t: Tree, id: string): nat
    requires id in t.documents
  {
    Atoi(t.documents[id].revision)
  }

  lemma {:induction false} RevisionRisesByOne(revision: string)
    requires revision == Itoa(Atoi(revision))
    ensures Atoi(Itoa(Atoi(revision) + 1)) == Atoi(revision) + 1
  {
  }

  lemma {:induction false} IssuedIsNotNext(t: Tree, id: string)
    ensures IssuedDocument(t.nextId, id) ==> id != DocumentId(t.nextId)
    ensures IssuedFolder(t.nextId, id) ==> id != FolderId(t.nextId)
  {
    hide DocumentId, FolderId;
    forall n: nat
      ensures n != t.nextId ==> DocumentId(n) != DocumentId(t.nextId) && FolderId(n) != FolderId(t.nextId)
    {
      IdsDiffer(n, t.nextId);
    }
  }

  lemma {:induction false} IssuedStays(t: Tree, r: Request)
    ensures forall id :: IssuedDocument(t.nextId, id) ==> IssuedDocument(Serve(t, r).nextId, id)
    ensures forall id :: IssuedFolder(t.nextId, id) ==> IssuedFolder(Serve(t, r).nextId, id)
  {
    IssuedForEver(t.nextId);
    hide IssuedDocument, IssuedFolder, DocumentId, FolderId, PathTaken, Itoa, Atoi, HasPrefix, HasChild;
  }

  lemma {:induction false} NewIdsAreNext(t: Tree, r: Request)
    ensures Serve(t, r).documents.Keys <= t.documents.Keys + {DocumentId(t.nextId)}
    ensures Serve(t, r).folders.Keys <= t.folders.Keys + {FolderId(t.nextId)}
  {
    hide PathTaken, HasPrefix, HasChild, DocumentId, FolderId, Itoa, Atoi, Updated;
  }

  /** A document that is in both trees has the same revision and the same content in both. */
  predicate SameBody(t: Tree, t': Tree, id: string) {
    id in t.documents && id in t.contents && id in t'.documents ==>
      id in t'.contents && t'.documents[id].revision == t.documents[id].revision && t'.contents[id] == t.contents[id]
  }

  lemma {:induction false} UpdateLeavesBodies(t: Tree, id: string, parentId: string, name: string, folder: bool,
                                              k: string)
    ensures SameBody(t, UpdateEntry(t, id, parentId, name, folder).0, k)
  {
    hide PathTaken, HasPrefix, Updated, CarriedAll;
  }

  lemma {:induction false} DeletionLeavesBodies(t: Tree, id: string, force: bool, targetRevision: string, k: string)
    ensures SameBody(t, DeleteFolder(t, id, force).0, k)
    ensures SameBody(t, DeleteDocument(t, id, targetRevision).0, k)
  {
    hide HasPrefix, HasChild;
  }

  lemma {:induction false} CreationLeavesBodies(t: Tree, id: string, parentId: string, name: string, now: string,
                                                k: string)
    requires k != DocumentId(t.nextId)
    ensures SameBody(t, CreateFolder(t, parentId, name, now).0, k)
    ensures SameBody(t, CreateDocument(t, parentId, name, now).0, k)
    ensures SameBody(t, CopyDocument(t, id, parentId, name, now).0, k)
  {
    hide PathTaken, DocumentId, FolderId;
  }

  /** A request leaves a document's revision and content alone, unless it is an upload to that document. */
  lemma {:induction false} ServeTouchesOne(t: Tree, r: Request, id: string)
    requires id in t.documents && id in t.contents && id in Serve(t, r).documents && id != DocumentId(t.nextId)
    ensures id in Serve(t, r).contents
    ensures SameBody(t, Serve(t, r), id) ||
            (r.Uploading? && Serve(t, r).documents[id].revision == Itoa(Atoi(t.documents[id].revision) + 1))
  {
    hide DocumentId, Itoa, Atoi, CreateFolder, CreateDocument, CopyDocument, UpdateEntry, DeleteFolder, DeleteDocument;
    match r {
      case FolderCreation(parentId, name, now) => CreationLeavesBodies(t, "", parentId, name, now, id);
      case DocumentCreation(parentId, name, now) => CreationLeavesBodies(t, "", parentId, name, now, id);
      case Uploading(_, _, _, _, _) =>
      case Updating(k, parentId, name, folder) => UpdateLeavesBodies(t, k, parentId, name, folder, id);
      case Copying(k, parentId, name, now) => CreationLeavesBodies(t, k, parentId, name, now, id);
      case DocumentDeletion(k, revision) => DeletionLeavesBodies(t, k, false, revision, id);
      case FolderDeletion(k, force) => DeletionLeavesBodies(t, k, force, "", id);
    }
  }

  /** One request: the ID is not handed out again, and the content changes only with the revision. */
  lemma {:induction false} ServeGuards(t: Tree, r: Request, id: string)
    requires Accounted(t) && IssuedDocument(t.nextId, id) && id in Serve(t, r).documents
    ensures id in t.documents && id in t.contents && id in Serve(t, r).contents
    ensures
      || Revision(Serve(t, r), id) == Revision(t, id) + 1
      || (Serve(t, r).documents[id].revision == t.documents[id].revision && Serve(t, r).contents[id] == t.contents[id])
  {
    hide Serve, Itoa, Atoi, IssuedDocument, IssuedFolder, DocumentId, FolderId;
    IssuedIsNotNext(t, id);
    NewIdsAreNext(t, r);
    RevisionRisesByOne(t.documents[id].revision);
    ServeTouchesOne(t, r, id);
  }

  /** Any requests of any clients: revisions do not fall, and an unmoved revision means unmoved content. */
  lemma {:induction false} RevisionGuardsContent(t: Tree, rs: seq<Request>, id: string)
    requires Accounted(t) && IssuedDocument(t.nextId, id) && id in ServeAll(t, rs).documents
    ensures id in t.documents && id in t.contents && id in ServeAll(t, rs).contents
    ensures Revision(ServeAll(t, rs), id) >= Revision(t, id)
    ensures ServeAll(t, rs).documents[id].revision == t.documents[id].revision ==>
              ServeAll(t, rs).contents[id] == t.contents[id]
    decreases |rs|
  {
    hide Serve, Atoi, Itoa, IssuedDocument, IssuedFolder;
    if rs != [] {
      ServeKeepsAccounts(t, rs[0]);
      IssuedStays(t, rs[0]);
      RevisionGuardsContent(Serve(t, rs[0]), rs[1..], id);
      ServeGuards(t, rs[0], id);
    }
  }

  /** An ID that was issued and is absent stays absent, whatever anybody requests. */
  lemma {:induction false} GoneForEver(t: Tree, rs: seq<Request>, id: string)
    requires Accounted(t)
    ensures IssuedDocument(t.nextId, id) && id !in t.documents ==> id !in ServeAll(t, rs).documents
    ensures IssuedFolder(t.nextId, id) && id !in t.folders ==> id !in ServeAll(t, rs).folders
    decreases |rs|
  {
    hide Serve, Accounted, IssuedDocument, IssuedFolder, DocumentId, FolderId;
    if rs != [] {
      IssuedIsNotNext(t, id);
      NewIdsAreNext(t, rs[0]);
      ServeKeepsAccounts(t, rs[0]);
      IssuedStays(t, rs[0]);
      GoneForEver(Serve(t, rs[0]), rs[1..], id);
    }
  }

  lemma {:induction false} CounterRises(t: Tree, rs: seq<Request>)
    ensures ServeAll(t, rs).nextId >= t.nextId
    decreases |rs|
  {
    if rs != [] {
      assert Serve(t, rs[0]).nextId >= t.nextId by {
        hide PathTaken, HasPrefix, HasChild, Itoa, Atoi, DocumentId, FolderId;
      }
      hide Serve;
      CounterRises(Serve(t, rs[0]), rs[1..]);
    }
  }

  lemma {:induction false} LaterIdsAreNotIssued(next: nat, n: nat)
    requires n >= next
    ensures !IssuedDocument(next, DocumentId(n)) && !IssuedFolder(next, FolderId(n))
  {
    hide DocumentId, FolderId;
    forall m: nat
      ensures m != n ==> DocumentId(m) != DocumentId(n) && FolderId(m) != FolderId(n)
    {
      IdsDiffer(m, n);
    }
  }

  lemma {:induction false} IssuedThroughout(t: Tree, rs: seq<Request>, id: string)
    ensures IssuedDocument(t.nextId, id) ==> IssuedDocument(ServeAll(t, rs).nextId, id)
    ensures IssuedFolder(t.nextId, id) ==> IssuedFolder(ServeAll(t, rs).nextId, id)
    decreases |rs|
  {
    hide Serve, IssuedDocument, IssuedFolder;
    if rs != [] {
      IssuedStays(t, rs[0]);
      IssuedThroughout(Serve(t, rs[0]), rs[1..], id);
    }
  }
}
