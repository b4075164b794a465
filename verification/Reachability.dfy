/** What can be reached from listed entries through a fixed list function (cmd/dp/main.go). */
module Reachability {
  import opened Results
  import opened DeviceTree

  /** maximumGlobEntries, the budget of every search */
  const MAXIMUM_GLOB_ENTRIES := 10000

  /** A list function that may answer differently on every call: the number of the call, the folder, the answer. */
  type Lister = (nat, string) -> Result<seq<Entry>>

  ghost predicate Fixed(list: Lister) {
    forall k, id :: list(k, id) == list(0, id)
  }

  /** What a fixed list function answers for a folder; nothing when it fails. */
  function Children(list: Lister, id: string): seq<Entry> {
    if list(0, id).Ok? then list(0, id).value else []
  }

  /** Entries one under the other: the first among the roots, each one listed in the folder before it. */
  ghost predicate IsChain(list: Lister, roots: seq<Entry>, chain: seq<Entry>) {
    && |chain| > 0 && chain[0] in roots
    && forall i | 0 <= i < |chain| - 1 :: chain[i].kind == FolderEntry && chain[i + 1] in Children(list, chain[i].id)
  }

  ghost predicate Reachable(list: Lister, roots: seq<Entry>, e: Entry) {
    exists chain :: IsChain(list, roots, chain) && chain[|chain| - 1] == e
  }

  ghost predicate ReachableFolder(list: Lister, roots: seq<Entry>, id: string) {
    exists e :: Reachable(list, roots, e) && e.kind == FolderEntry && e.id == id
  }

  lemma {:induction false} RootIsReachable(list: Lister, roots: seq<Entry>, e: Entry)
    requires e in roots
    ensures Reachable(list, roots, e)
  {
    assert IsChain(list, roots, [e]);
  }

  lemma {:induction false} LongerChain(list: Lister, roots: seq<Entry>, chain: seq<Entry>, e: Entry)
    requires IsChain(list, roots, chain) && chain[|chain| - 1].kind == FolderEntry
    requires e in Children(list, chain[|chain| - 1].id)
    ensures Reachable(list, roots, e)
  {
    hide Children;
    var longer := chain + [e];
    assert longer[|longer| - 1] == e && longer[0] == chain[0];
    forall i | 0 <= i < |longer| - 1
      ensures longer[i].kind == FolderEntry && longer[i + 1] in Children(list, longer[i].id)
    {
      assert longer[i] == chain[i];
      assert i < |chain| - 1 ==> longer[i + 1] == chain[i + 1];
    }
    assert IsChain(list, roots, longer);
  }

  lemma {:induction false} ChildIsReachable(list: Lister, roots: seq<Entry>, id: string, e: Entry)
    requires ReachableFolder(list, roots, id) && e in Children(list, id)
    ensures Reachable(list, roots, e)
  {
    hide Children;
    var folder :| Reachable(list, roots, folder) && folder.kind == FolderEntry && folder.id == id;
    var chain :| IsChain(list, roots, chain) && chain[|chain| - 1] == folder;
    LongerChain(list, roots, chain, e);
  }

  /** The folder was listed, its folders are among the visited and its documents among the seen. */
  ghost predicate Explored(list: Lister, id: string, visited: set<string>, seen: set<string>) {
    && list(0, id).Ok?
    && forall e | e in Children(list, id) ::
         (e.kind == FolderEntry ==> e.id in visited) && (e.kind == DocumentEntry ==> e.id in seen)
  }

  lemma {:induction false} ExploredGrows(list: Lister, visited: set<string>, seen: set<string>,
                                         visited': set<string>, seen': set<string>)
    requires visited <= visited' && seen <= seen'
    ensures forall id :: Explored(list, id, visited, seen) ==> Explored(list, id, visited', seen')
  {
    hide Children;
  }

  /** Where the roots are covered and every visited folder is explored, everything reachable is covered. */
  lemma {:induction false} ExploredIsAll(list: Lister, roots: seq<Entry>, visited: set<string>, seen: set<string>,
                                         chain: seq<Entry>)
    requires IsChain(list, roots, chain)
    requires forall e | e in roots ::
               (e.kind == FolderEntry ==> e.id in visited) && (e.kind == DocumentEntry ==> e.id in seen)
    requires forall id | id in visited :: Explored(list, id, visited, seen)
    ensures var e := chain[|chain| - 1];
      (e.kind == FolderEntry ==> e.id in visited) && (e.kind == DocumentEntry ==> e.id in seen)
    decreases |chain|
  {
    if |chain| > 1 {
      var shorter := chain[..|chain| - 1];
      assert forall i | 0 <= i < |shorter| :: shorter[i] == chain[i];
      assert IsChain(list, roots, shorter);
      ExploredIsAll(list, roots, visited, seen, shorter);
      var i := |chain| - 2;
      assert chain[i + 1] in Children(list, chain[i].id);
    }
  }
}
