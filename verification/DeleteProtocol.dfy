/**
 The client's deletions (delete.go) against the simulated device, with other clients' requests in every gap.
 `others(k)` is what other clients do before this client's k-th request.
 */
module DeleteProtocol {
  import opened Results
  import opened Text
  import opened DeviceTree
  import opened RevisionGuard
  import opened DeviceState
  import opened WriteProtocol

  /** verifyDeleted: only a 404 confirms that the entry is gone. */
  function VerifyDeleted(lookup: Result<Entry>): Result<()> {
    if lookup == Err("404") then Ok(()) else Err("deletion not verified")
  }

  /**
   DocumentsService.Delete. Every outcome and every tree it leaves, in every interleaving: it succeeds exactly when the
   document carries the target revision as the request arrives, and then nothing else goes with it and the document
   is absent in every later state.
   */
  method Delete(dev: State, rules: Rules, id: string, targetRevision: string, others: Others) returns (r: Result<()>)
    requires Accounted(dev.View())
    modifies dev
    ensures Accounted(dev.View())
    ensures !ValidId(id) || targetRevision == "" ==> r.Err? && dev.View() == old(dev.View())
    ensures ValidId(id) && targetRevision != "" ==>
      var seen := ServeAll(old(dev.View()), others(0));
      && (r.Ok? <==> id in seen.documents && seen.documents[id].revision == targetRevision)
      && dev.View() == if r.Ok? then ServeAll(WithoutDocument(seen, id), others(1)) else seen
    ensures r.Ok? ==> forall later :: id !in ServeAll(dev.View(), later).documents
    ensures Quiet(others) ==>
      (r.Ok? <==> ValidId(id) && targetRevision != "" && id in old(dev.documents) &&
                  old(dev.documents)[id].revision == targetRevision)
  {
    hide ValidId, Itoa, Atoi, IssuedDocument, Accounted, ServeAll;
    QuietIsQuiet(dev.View(), others(0));
    if !ValidId(id) {
      return Err(INVALID_ID);
    }
    if targetRevision == "" {
      return Err("dpwire: target revision is required for deletion");
    }
    ServeAllKeepsAccounts(dev.View(), others(0));
    dev.HandleAll(others(0));
    ghost var seen := dev.View();
    var response := dev.DeleteDocument(id, targetRevision);
    if response.Err? {
      return Err(response.error);
    }
    assert IssuedDocument(seen.nextId, id) by { DocumentIsIssued(seen, id); }
    DeletionKeepsAccounts(seen, id, targetRevision, false);
    ServeAllKeepsAccounts(dev.View(), others(1));
    DocumentStaysGone(dev.View(), others(1), id);
    dev.HandleAll(others(1));
    var lookup := GetDocument(dev, rules, id);
    r := VerifyDeleted(lookup);
  }

  function WithoutDocument(t: Tree, id: string): Tree {
    t.(documents := t.documents - {id}, contents := t.contents - {id})
  }

  function WithoutFolder(t: Tree, id: string): Tree {
    t.(folders := t.folders - {id})
  }

  lemma {:induction false} DocumentStaysGone(t: Tree, rs: seq<Request>, id: string)
    requires Accounted(t) && IssuedDocument(t.nextId, id) && id !in t.documents
    ensures id !in ServeAll(t, rs).documents
    ensures forall later :: id !in ServeAll(ServeAll(t, rs), later).documents
  {
    hide IssuedDocument, Accounted, ServeAll;
    GoneForEver(t, rs, id);
    ServeAllKeepsAccounts(t, rs);
    IssuedThroughout(t, rs, id);
    forall later
      ensures id !in ServeAll(ServeAll(t, rs), later).documents
    {
      GoneForEver(ServeAll(t, rs), later, id);
    }
  }

  lemma {:induction false} FolderStaysGone(t: Tree, rs: seq<Request>, id: string)
    requires Accounted(t) && IssuedFolder(t.nextId, id) && id !in t.folders
    ensures id !in ServeAll(t, rs).folders
    ensures forall later :: id !in ServeAll(ServeAll(t, rs), later).folders
  {
    hide IssuedFolder, Accounted, ServeAll;
    GoneForEver(t, rs, id);
    ServeAllKeepsAccounts(t, rs);
    IssuedThroughout(t, rs, id);
    forall later
      ensures id !in ServeAll(ServeAll(t, rs), later).folders
    {
      GoneForEver(ServeAll(t, rs), later, id);
    }
  }

  /** What the device answers for its root. */
  const ROOT_ENTRY := Entry(ROOT, ".", ROOT_PATH, FolderEntry, "", "", "", "", "", "")

  function FolderAnswer(rules: Rules, t: Tree, id: string): Result<Entry> {
    if !ValidId(id) then Err(INVALID_ID)
    else if id == ROOT then DecodeEntry(rules, ROOT_ENTRY)
    else if id in t.documents || id !in t.folders then Err("404")
    else DecodeEntry(rules, t.folders[id])
  }

  /** FoldersService.Get */
  method GetFolder(dev: State, rules: Rules, id: string) returns (r: Result<Entry>)
    ensures r == FolderAnswer(rules, dev.View(), id)
  {
    if !ValidId(id) {
      return Err(INVALID_ID);
    }
    if id == ROOT {
      return DecodeEntry(rules, ROOT_ENTRY);
    }
    if id in dev.documents || id !in dev.folders {
      return Err("404");
    }
    return DecodeEntry(rules, dev.folders[id]);
  }

  /** The first read finds a folder other than the root. */
  predicate FindsFolder(rules: Rules, t: Tree, id: string) {
    FolderAnswer(rules, t, id).Ok? && FolderAnswer(rules, t, id).value.path != ROOT_PATH
  }

  predicate EmptyFolder(t: Tree, id: string) {
    id in t.folders && !HasChild(t, id)
  }

  /**
   DeleteEmpty. Every outcome and every tree it leaves, in every interleaving: its one changing step removes at most
   the target folder, and only while that has no child; it succeeds exactly when it did so, and then the folder is
   absent in every later state.
   */
  method DeleteEmpty(dev: State, rules: Rules, id: string, others: Others) returns (r: Result<()>)
    requires Accounted(dev.View())
    modifies dev
    ensures Accounted(dev.View())
    ensures
      var first := ServeAll(old(dev.View()), others(0));
      var second := ServeAll(first, others(1));
      var third := ServeAll(second, others(2));
      if !ValidId(id) then r.Err? && dev.View() == old(dev.View())
      else if !FindsFolder(rules, first, id) then r.Err? && dev.View() == first
      else if HasChild(second, id) then r.Err? && dev.View() == second
      else if !EmptyFolder(third, id) then r.Err? && dev.View() == third
      else r.Ok? && dev.View() == ServeAll(WithoutFolder(third, id), others(3))
    ensures r.Ok? ==> forall later :: id !in ServeAll(dev.View(), later).folders
    ensures Quiet(others) ==>
      (r.Ok? <==> ValidId(id) && FindsFolder(rules, old(dev.View()), id) && !HasChild(old(dev.View()), id))
  {
    hide ValidId, IssuedDocument, IssuedFolder, Accounted, DecodeEntry, ServeAll, HasChild;
    if !ValidId(id) {
      return Err(INVALID_ID);
    }
    QuietIsQuiet(dev.View(), []);
    RootIsNotFound(rules, ServeAll(dev.View(), others(0)), id);
    hide FolderAnswer;
    ServeAllKeepsAccounts(dev.View(), others(0));
    dev.HandleAll(others(0));
    var folder := GetFolder(dev, rules, id);
    if folder.Err? {
      return Err(folder.error);
    }
    if folder.value.path == ROOT_PATH {
      return Err("dpwire: device root cannot be deleted");
    }
    ServeAllKeepsAccounts(dev.View(), others(1));
    dev.HandleAll(others(1));
    var childFolder := State.ChildIn(dev.folders, id);
    var childDocument := State.ChildIn(dev.documents, id);
    ChildrenAreInEither(dev.View(), id);
    if childFolder || childDocument {
      return Err("not empty");
    }
    r := DeleteFolderAndVerify(dev, rules, id, others(2), others(3));
  }

  lemma {:induction false} ChildrenAreInEither(t: Tree, id: string)
    ensures HasChild(t, id) <==>
            || (exists c | c in t.folders :: t.folders[c].parentId == id)
            || (exists c | c in t.documents :: t.documents[c].parentId == id)
  {
  }

  lemma {:induction false} RootIsNotFound(rules: Rules, t: Tree, id: string)
    ensures FindsFolder(rules, t, id) ==> id != ROOT && id in t.folders
  {
  }

  /** The request that deletes a folder with nothing in it, and verifyDeleted. */
  method DeleteFolderAndVerify(dev: State, rules: Rules, id: string, beforeDelete: seq<Request>,
                               beforeRead: seq<Request>)
    returns (r: Result<()>)
    requires Accounted(dev.View()) && ValidId(id) && id != ROOT
    modifies dev
    ensures Accounted(dev.View())
    ensures var seen := ServeAll(old(dev.View()), beforeDelete);
      if EmptyFolder(seen, id) then r.Ok? && dev.View() == ServeAll(WithoutFolder(seen, id), beforeRead)
      else r.Err? && dev.View() == seen
    ensures r.Ok? ==> forall later :: id !in ServeAll(dev.View(), later).folders
  {
    hide ValidId, Itoa, Atoi, IssuedDocument, IssuedFolder, Accounted, DecodeEntry, ServeAll, HasChild;
    ServeAllKeepsAccounts(dev.View(), beforeDelete);
    dev.HandleAll(beforeDelete);
    ghost var seen := dev.View();
    var response := dev.DeleteFolder(id, false);
    if response.Err? {
      return Err(response.error);
    }
    assert IssuedFolder(seen.nextId, id) by { DocumentIsIssued(seen, id); }
    DeletionKeepsAccounts(seen, id, "", false);
    ServeAllKeepsAccounts(dev.View(), beforeRead);
    FolderStaysGone(dev.View(), beforeRead, id);
    dev.HandleAll(beforeRead);
    var lookup := GetFolder(dev, rules, id);
    r := VerifyDeleted(lookup);
  }
}
