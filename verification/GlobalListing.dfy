/**
 Collecting all documents below some roots (collectGlobalDocuments in cmd/dp/main.go): depth first, with one budget
 for everything listed, over a graph that may have cycles, be infinite, or change from call to call.
 */
module GlobalListing {
  import opened Results
  import opened DeviceTree
  import opened Sorting
  import opened Reachability

  const LIMIT := "global listing exceeds the 10000-object safety limit"

  function Capped(n: nat): nat {
    if n < MAXIMUM_GLOB_ENTRIES then n else MAXIMUM_GLOB_ENTRIES
  }

  lemma {:induction false} CappedInside(n: nat)
    ensures n <= MAXIMUM_GLOB_ENTRIES ==> Capped(n) == n
  {
  }

  lemma {:induction false} CappedGrows(m: nat, n: nat)
    ensures m <= n ==> Capped(m) <= Capped(n)
  {
  }

  ghost function Ids(entries: seq<Entry>): set<string> {
    set e | e in entries :: e.id
  }

  ghost predicate DistinctEntries(entries: seq<Entry>) {
    forall i, j | 0 <= i < j < |entries| :: entries[i].id != entries[j].id
  }

  /** Documents in the order in which they turn up, each where it turns up first. */
  ghost function Adding(documents: seq<Entry>, entries: seq<Entry>): seq<Entry> {
    if entries == [] then documents else
      var before := Adding(documents, entries[..|entries| - 1]);
      var last := entries[|entries| - 1];
      if last.kind == DocumentEntry && last.id !in Ids(before) then before + [last] else before
  }

  /** The documents of the roots, and then of each listing, sorted. */
  ghost function Gathered(list: Lister, roots: seq<Entry>, asked: seq<string>, less: (Entry, Entry) -> bool)
    : seq<Entry>
  {
    if asked == [] then Adding([], roots) else
      var before := Gathered(list, roots, asked[..|asked| - 1], less);
      var answer := list(|asked| - 1, asked[|asked| - 1]);
      if answer.Ok? then Adding(before, StableSort(answer.value, less)) else before
  }

  lemma {:induction false} NothingGathered(list: Lister, roots: seq<Entry>, less: (Entry, Entry) -> bool)
    ensures Gathered(list, roots, [], less) == Adding([], roots)
  {
  }

  /** Depth first through the entries, after the folders listed before: all that is listed then, as deep as `fuel`. */
  ghost function Walk(list: Lister, less: (Entry, Entry) -> bool, entries: seq<Entry>, before: seq<string>, fuel: nat)
    : seq<string>
    decreases fuel, |entries| + 1
  {
    if entries == [] then before else
      WalkOne(list, less, entries[|entries| - 1], Walk(list, less, entries[..|entries| - 1], before, fuel), fuel)
  }

  ghost function WalkOne(list: Lister, less: (Entry, Entry) -> bool, e: Entry, before: seq<string>, fuel: nat)
    : seq<string>
    decreases fuel, 0
  {
    if e.kind != FolderEntry || e.id in before || fuel == 0 then before
    else Walk(list, less, StableSort(Children(list, e.id), less), before + [e.id], fuel - 1)
  }

  lemma {:induction false} WalkStep(list: Lister, less: (Entry, Entry) -> bool, entries: seq<Entry>, k: nat,
                                    before: seq<string>, fuel: nat)
    requires k < |entries|
    ensures Walk(list, less, entries[..k + 1], before, fuel) ==
            WalkOne(list, less, entries[k], Walk(list, less, entries[..k], before, fuel), fuel)
  {
    hide WalkOne;
    assert entries[..k + 1][..k] == entries[..k];
  }

  lemma {:induction false} WalkOfOne(list: Lister, less: (Entry, Entry) -> bool, e: Entry, before: seq<string>,
                                     fuel: nat)
    ensures WalkOne(list, less, e, before, fuel) ==
            if e.kind != FolderEntry || e.id in before || fuel == 0 then before
            else Walk(list, less, StableSort(Children(list, e.id), less), before + [e.id], fuel - 1)
  {
  }

  lemma {:induction false} NothingToWalk(list: Lister, less: (Entry, Entry) -> bool, before: seq<string>, fuel: nat)
    ensures Walk(list, less, [], before, fuel) == before
  {
  }

  lemma {:induction false} GatheredGrows(list: Lister, roots: seq<Entry>, asked: seq<string>, id: string,
                                         less: (Entry, Entry) -> bool)
    ensures list(|asked|, id).Ok? ==>
      Gathered(list, roots, asked + [id], less) ==
      Adding(Gathered(list, roots, asked, less), StableSort(list(|asked|, id).value, less))
  {
    hide StableSort, Adding;
    assert (asked + [id])[..|asked|] == asked;
  }

  /** What is added: documents from places that go up, no two with one ID, and all the IDs there are. */
  lemma {:induction false} AddingInFull(documents: seq<Entry>, entries: seq<Entry>) returns (places: seq<nat>)
    ensures |Adding(documents, entries)| == |documents| + |places| && documents <= Adding(documents, entries)
    ensures forall i | 0 <= i < |places| ::
              && places[i] < |entries| && entries[places[i]].kind == DocumentEntry
              && Adding(documents, entries)[|documents| + i] == entries[places[i]]
              && forall k | 0 <= k < places[i] ::
                   entries[k].kind == DocumentEntry ==> entries[k].id != entries[places[i]].id
    ensures forall i, j | 0 <= i < j < |places| :: places[i] < places[j]
    ensures forall k | 0 <= k < |entries| ::
              entries[k].kind == DocumentEntry ==> entries[k].id in Ids(Adding(documents, entries))
  {
    places := [];
    if entries != [] {
      var n := |entries| - 1;
      var before, last := Adding(documents, entries[..n]), entries[n];
      places := AddingInFull(documents, entries[..n]);
      forall k | 0 <= k < n
        ensures entries[k] == entries[..n][k]
      {
      }
      if last.kind == DocumentEntry && last.id !in Ids(before) {
        places := places + [n];
        assert before + [last] == Adding(documents, entries);
        assert forall e :: e in before + [last] <==> e in before || e == last;
      }
      hide Adding;
    }
  }

  lemma {:induction false} NothingAdded(documents: seq<Entry>)
    ensures Adding(documents, []) == documents
  {
  }

  lemma {:induction false} AddingStep(documents: seq<Entry>, entries: seq<Entry>, k: nat)
    requires k < |entries|
    ensures Adding(documents, entries[..k + 1]) ==
            var before := Adding(documents, entries[..k]);
            if entries[k].kind == DocumentEntry && entries[k].id !in Ids(before) then before + [entries[k]] else before
  {
    hide Ids;
    assert entries[..k + 1][..k] == entries[..k];
  }

  lemma {:induction false} Appended(documents: seq<Entry>, entry: Entry)
    requires DistinctEntries(documents) && entry.id !in Ids(documents)
    ensures DistinctEntries(documents + [entry]) && Ids(documents + [entry]) == Ids(documents) + {entry.id}
    ensures forall e :: e in documents + [entry] <==> e in documents || e == entry
  {
    forall i | 0 <= i < |documents|
      ensures documents[i].id != entry.id
    {
      assert documents[i].id in Ids(documents);
    }
    assert forall e :: e in documents + [entry] <==> e in documents || e == entry;
  }

  /** How many entries the list function answered to these requests. */
  ghost function Charged(list: Lister, asked: seq<string>): nat {
    if asked == [] then 0 else
      var answer := list(|asked| - 1, asked[|asked| - 1]);
      Charged(list, asked[..|asked| - 1]) + if answer.Ok? then |answer.value| else 0
  }

  ghost predicate AllAnswered(list: Lister, asked: seq<string>) {
    forall i | 0 <= i < |asked| :: list(i, asked[i]).Ok?
  }

  ghost predicate LastRefused(list: Lister, asked: seq<string>, error: string) {
    |asked| > 0 && list(|asked| - 1, asked[|asked| - 1]) == Err(error)
  }

  ghost function RootDocuments(roots: seq<Entry>): set<string> {
    set e | e in roots && e.kind == DocumentEntry :: e.id
  }

  lemma {:induction false} SortedChildren(list: Lister, roots: seq<Entry>, id: string, entries: seq<Entry>,
                                          less: (Entry, Entry) -> bool)
    ensures forall e :: e in StableSort(entries, less) <==> e in entries
    ensures |StableSort(entries, less)| == |entries|
    ensures ReachableFolder(list, roots, id) && entries == Children(list, id) ==>
      forall e | e in StableSort(entries, less) :: Reachable(list, roots, e)
  {
    hide StableSort, Reachable, ReachableFolder;
    var sorted := StableSort(entries, less);
    forall e
      ensures e in sorted <==> e in entries
    {
      assert e in multiset(sorted) <==> e in multiset(entries);
    }
    if ReachableFolder(list, roots, id) && entries == Children(list, id) {
      forall e | e in sorted
        ensures Reachable(list, roots, e)
      {
        ChildIsReachable(list, roots, id, e);
      }
    }
  }

  /** The state that the closures of collectGlobalDocuments share; `asked` is what the list function was called with. */
  class Collector {
    const list: Lister
    const less: (Entry, Entry) -> bool
    var visitedFolders: set<string>
    var seenDocuments: set<string>
    var documents: seq<Entry>
    var observed: nat
    var asked: seq<string>

    constructor (list: Lister, less: (Entry, Entry) -> bool)
      ensures this.list == list && this.less == less
      ensures visitedFolders == {} && seenDocuments == {} && documents == [] && observed == 0 && asked == []
    {
      this.list, this.less := list, less;
      visitedFolders, seenDocuments, documents, observed, asked := {}, {}, [], 0, [];
    }

    /** Each collected document is one, and is there once. */
    ghost predicate Consistent()
      reads this`documents, this`seenDocuments
    {
      && seenDocuments == Ids(documents) && DistinctEntries(documents)
      && forall e | e in documents :: e.kind == DocumentEntry
    }

    /** Everything collected or visited can be reached, if the list function is fixed. */
    ghost predicate Sound(roots: seq<Entry>)
      reads this`documents, this`visitedFolders
    {
      Fixed(list) ==>
        && (forall e | e in documents :: Reachable(list, roots, e))
        && (forall id | id in visitedFolders :: ReachableFolder(list, roots, id))
    }

    /**
     The budget is charged for the documents among the roots and for all that was listed; no folder is listed twice.
     */
    ghost predicate Accounted(rootDocuments: nat)
      reads this`observed, this`asked, this`visitedFolders
    {
      && observed == rootDocuments + Charged(list, asked)
      && NoRepeats(asked)
      && forall id :: id in asked <==> id in visitedFolders
    }

    /** The documents are there in the order in which they were listed. */
    ghost predicate InOrder(roots: seq<Entry>)
      reads this`documents, this`asked
    {
      documents == Gathered(list, roots, asked, less)
    }

    /** Success is when every request was answered and the budget held. */
    ghost predicate Explained(error: Option<string>)
      reads this`observed, this`asked
    {
      match error
      case None => AllAnswered(list, asked) && observed <= MAXIMUM_GLOB_ENTRIES
      case Some(message) => LastRefused(list, asked, message) || (message == LIMIT && observed > MAXIMUM_GLOB_ENTRIES)
    }

    method AddDocument(entry: Entry, ghost roots: seq<Entry>) returns (error: Option<string>)
      requires Consistent() && Sound(roots) && entry.kind == DocumentEntry && observed <= MAXIMUM_GLOB_ENTRIES
      requires Fixed(list) ==> Reachable(list, roots, entry)
      modifies this`seenDocuments, this`documents, this`observed
      ensures Consistent() && Sound(roots)
      ensures seenDocuments == old(seenDocuments) + {entry.id}
      ensures documents == if entry.id in Ids(old(documents)) then old(documents) else old(documents) + [entry]
      ensures observed == old(observed) + |seenDocuments| - |old(seenDocuments)|
      ensures error == if observed <= MAXIMUM_GLOB_ENTRIES then None else Some(LIMIT)
    {
      hide Ids, DistinctEntries, Reachable, Fixed;
      if entry.id in seenDocuments {
        return None;
      }
      Appended(documents, entry);
      seenDocuments := seenDocuments + {entry.id};
      documents := documents + [entry];
      observed := observed + 1;
      if observed > MAXIMUM_GLOB_ENTRIES {
        return Some(LIMIT);
      }
      return None;
    }

    /** The first loop over a folder's entries: documents not seen before. */
    method AddListed(entries: seq<Entry>, ghost roots: seq<Entry>)
      requires Consistent() && Sound(roots)
      requires Fixed(list) ==> forall e | e in entries :: Reachable(list, roots, e)
      modifies this`seenDocuments, this`documents
      ensures Consistent() && Sound(roots) && old(seenDocuments) <= seenDocuments
      ensures forall e | e in entries :: e.kind == DocumentEntry ==> e.id in seenDocuments
      ensures documents == Adding(old(documents), entries)
    {
      hide Ids, DistinctEntries, Reachable, Fixed, Adding;
      NothingAdded(documents);
      for k := 0 to |entries|
        invariant Consistent() && Sound(roots) && old(seenDocuments) <= seenDocuments
        invariant forall i | 0 <= i < k :: entries[i].kind == DocumentEntry ==> entries[i].id in seenDocuments
        invariant documents == Adding(old(documents), entries[..k])
      {
        var entry := entries[k];
        assert entry in entries;
        AddingStep(old(documents), entries, k);
        if entry.kind == DocumentEntry && entry.id !in seenDocuments {
          Appended(documents, entry);
          seenDocuments := seenDocuments + {entry.id};
          documents := documents + [entry];
        }
      }
      assert entries[..|entries|] == entries;
    }

    /**
     visit. It ends because whatever it lists is charged to the budget before anything below is visited; it makes no
     more calls than one and what it charges; and when it succeeds it has explored all it newly visited.
     */
    method Visit(folder: Entry, ghost roots: seq<Entry>, ghost rootDocuments: nat, ghost fuel: nat)
      returns (error: Option<string>)
      requires Consistent() && Sound(roots) && folder.kind == FolderEntry && Accounted(rootDocuments) && Explained(None)
      requires InOrder(roots) && MAXIMUM_GLOB_ENTRIES - observed < fuel
      requires Fixed(list) ==> Reachable(list, roots, folder)
      modifies this
      ensures Consistent() && Sound(roots)
      ensures old(observed) <= observed && Accounted(rootDocuments) && Explained(error)
      ensures error == None ==> InOrder(roots)
      ensures |asked| - |old(asked)| <= 1 + Capped(observed) - Capped(old(observed))
      ensures old(visitedFolders) <= visitedFolders && old(seenDocuments) <= seenDocuments
      ensures error == None ==> folder.id in visitedFolders
      ensures error == None && Fixed(list) ==> asked == WalkOne(list, less, folder, old(asked), fuel)
      ensures error == None && Fixed(list) ==>
        AllExplored(list, old(visitedFolders), visitedFolders, seenDocuments)
      decreases fuel, 0
    {
      hide Reachable, StableSort, AllExplored, Fixed, Consistent, Sound, Walk, WalkOne, InOrder, Children;
      CappedInside(observed);
      assert observed <= MAXIMUM_GLOB_ENTRIES;
      hide Explained;
      hide Capped;
      assert Fixed(list) ==> ReachableFolder(list, roots, folder.id);
      assert folder.id in asked <==> folder.id in visitedFolders;
      hide ReachableFolder, Accounted;
      WalkOfOne(list, less, folder, asked, fuel);
      NothingNewExplored(list, visitedFolders, seenDocuments);
      if folder.id in visitedFolders {
        return None;
      }
      var entered := Enter(folder.id, roots, rootDocuments);
      CappedGrows(old(observed), observed);
      if entered.Err? {
        return Some(entered.error);
      }
      CappedInside(observed);
      error := VisitAll(entered.value, roots, rootDocuments, fuel - 1);
      FolderIsExplored(list, old(visitedFolders), folder.id, entered.value, less, visitedFolders, seenDocuments);
    }

    /** The part of visit before it goes further down: list the folder, sort what is in it, add its documents. */
    method Enter(id: string, ghost roots: seq<Entry>, ghost rootDocuments: nat) returns (r: Result<seq<Entry>>)
      requires Consistent() && Sound(roots) && Accounted(rootDocuments) && Explained(None) && InOrder(roots)
      requires id !in visitedFolders && (Fixed(list) ==> ReachableFolder(list, roots, id))
      modifies this
      ensures Consistent() && Sound(roots) && Accounted(rootDocuments)
      ensures Explained(if r.Ok? then None else Some(r.error)) && (r.Ok? ==> InOrder(roots))
      ensures visitedFolders == old(visitedFolders) + {id} && asked == old(asked) + [id]
      ensures old(seenDocuments) <= seenDocuments && old(observed) <= observed
      ensures r.Ok? ==>
        && observed == old(observed) + |r.value| <= MAXIMUM_GLOB_ENTRIES
        && (forall e | e in r.value :: e.kind == DocumentEntry ==> e.id in seenDocuments)
      ensures r.Ok? && Fixed(list) ==>
        && list(0, id).Ok? && r.value == StableSort(Children(list, id), less)
        && (forall e | e in r.value :: Reachable(list, roots, e))
    {
      hide Reachable, ReachableFolder, StableSort, Fixed, Consistent, Sound, Accounted, Explained, Gathered, Adding;
      GatheredGrows(list, roots, asked, id, less);
      var answer := ListFolder(id, roots, rootDocuments);
      if answer.Err? {
        return answer;
      }
      var entries := StableSort(answer.value, less);
      SortedChildren(list, roots, id, answer.value, less);
      AddListed(entries, roots);
      r := Ok(entries);
    }

    /** The call of the list function for a folder not visited before, and what it is charged. */
    method ListFolder(id: string, ghost roots: seq<Entry>, ghost rootDocuments: nat) returns (r: Result<seq<Entry>>)
      requires Consistent() && Sound(roots) && Accounted(rootDocuments) && Explained(None)
      requires id !in visitedFolders && (Fixed(list) ==> ReachableFolder(list, roots, id))
      modifies this`visitedFolders, this`asked, this`observed
      ensures Sound(roots) && Accounted(rootDocuments) && Explained(if r.Ok? then None else Some(r.error))
      ensures visitedFolders == old(visitedFolders) + {id} && asked == old(asked) + [id]
      ensures r.Ok? ==> list(|old(asked)|, id) == r
      ensures r.Ok? ==> observed == old(observed) + |r.value| && (Fixed(list) ==> r == list(0, id))
      ensures old(observed) <= observed && (r.Ok? ==> old(observed) + |r.value| <= MAXIMUM_GLOB_ENTRIES)
    {
      hide Reachable, ReachableFolder, Charged, AllAnswered, NoRepeats;
      visitedFolders := visitedFolders + {id};
      r := list(|asked|, id);
      Asked(list, asked, id);
      asked := asked + [id];
      if r.Err? {
        return;
      }
      observed := observed + |r.value|;
      if observed > MAXIMUM_GLOB_ENTRIES {
        return Err(LIMIT);
      }
    }

    /** The second loop over a folder's entries: visit its folders. */
    method VisitAll(entries: seq<Entry>, ghost roots: seq<Entry>, ghost rootDocuments: nat, ghost fuel: nat)
      returns (error: Option<string>)
      requires Consistent() && Sound(roots) && Accounted(rootDocuments) && Explained(None) && InOrder(roots)
      requires Fixed(list) ==> forall e | e in entries :: Reachable(list, roots, e)
      requires entries != [] ==> MAXIMUM_GLOB_ENTRIES - observed < fuel
      modifies this
      ensures Consistent() && Sound(roots)
      ensures old(observed) <= observed && Accounted(rootDocuments) && Explained(error)
      ensures error == None ==> InOrder(roots)
      ensures |asked| - |old(asked)| <= |entries| + Capped(observed) - Capped(old(observed))
      ensures old(visitedFolders) <= visitedFolders && old(seenDocuments) <= seenDocuments
      ensures error == None ==> forall e | e in entries :: e.kind == FolderEntry ==> e.id in visitedFolders
      ensures error == None && Fixed(list) ==> asked == Walk(list, less, entries, old(asked), fuel)
      ensures error == None && Fixed(list) ==>
        AllExplored(list, old(visitedFolders), visitedFolders, seenDocuments)
      decreases fuel, 1
    {
      hide Reachable, ReachableFolder, AllExplored, Fixed, Consistent, Sound, InOrder;
      hide Walk, WalkOne;
      NothingToWalk(list, less, asked, fuel);
      NothingNewExplored(list, visitedFolders, seenDocuments);
      for k := 0 to |entries|
        invariant Consistent() && Sound(roots) && old(observed) <= observed
        invariant Accounted(rootDocuments) && Explained(None) && InOrder(roots)
        invariant |asked| - |old(asked)| <= k + Capped(observed) - Capped(old(observed))
        invariant old(visitedFolders) <= visitedFolders && old(seenDocuments) <= seenDocuments
        invariant forall i | 0 <= i < k :: entries[i].kind == FolderEntry ==> entries[i].id in visitedFolders
        invariant Fixed(list) ==> AllExplored(list, old(visitedFolders), visitedFolders, seenDocuments)
        invariant Fixed(list) ==> asked == Walk(list, less, entries[..k], old(asked), fuel)
      {
        var entry := entries[k];
        assert entry in entries;
        WalkStep(list, less, entries, k, old(asked), fuel);
        WalkOfOne(list, less, entry, asked, fuel);
        if entry.kind == FolderEntry {
          ghost var visited, seen := visitedFolders, seenDocuments;
          error := Visit(entry, roots, rootDocuments, fuel);
          AllExploredGrows(list, old(visitedFolders), visited, seen, visitedFolders, seenDocuments);
          if error != None {
            return error;
          }
        }
      }
      assert entries[..|entries|] == entries;
      return None;
    }

    /** The body of collectGlobalDocuments, after the roots have been sorted. */
    method CollectFrom(roots: seq<Entry>) returns (error: Option<string>)
      requires visitedFolders == {} && seenDocuments == {} && documents == [] && observed == 0 && asked == []
      modifies this
      ensures Consistent() && Sound(roots)
      ensures |asked| <= |roots| + MAXIMUM_GLOB_ENTRIES && NoRepeats(asked)
      ensures Outcome(list, roots, asked, error)
      ensures error == None && Fixed(list) ==>
        && (forall e | e in roots ::
              (e.kind == FolderEntry ==> e.id in visitedFolders) && (e.kind == DocumentEntry ==> e.id in seenDocuments))
        && (forall id | id in visitedFolders :: Explored(list, id, visitedFolders, seenDocuments))
      ensures forall id :: id in asked <==> id in visitedFolders
      ensures error == None ==> InOrder(roots)
      ensures error == None && Fixed(list) ==> asked == Walk(list, less, roots, [], MAXIMUM_GLOB_ENTRIES + 1)
    {
      RootsAreReachable(list, roots);
      assert Consistent() && Sound(roots);
      hide Reachable, ReachableFolder, Explored, Fixed, Consistent, Sound, Gathered, Walk;
      NothingGathered(list, roots, less);
      error := AddRoots(roots);
      if error == None {
        error := VisitAll(roots, roots, observed, MAXIMUM_GLOB_ENTRIES + 1);
      }
    }

    /** The first loop over the roots: documents not seen before, which are charged one by one. */
    method AddRoots(roots: seq<Entry>) returns (error: Option<string>)
      requires Consistent() && Sound(roots) && documents == [] && seenDocuments == {} && observed == 0
      requires Fixed(list) ==> forall e | e in roots :: Reachable(list, roots, e)
      modifies this`seenDocuments, this`documents, this`observed
      ensures Consistent() && Sound(roots)
      ensures observed <= |RootDocuments(roots)|
      ensures error == if observed <= MAXIMUM_GLOB_ENTRIES then None else Some(LIMIT)
      ensures error == None ==> seenDocuments == RootDocuments(roots) && observed == |RootDocuments(roots)|
      ensures error == None ==> documents == Adding([], roots)
    {
      hide Reachable, Fixed, Consistent, Sound, Adding;
      NothingAdded([]);
      for k := 0 to |roots|
        invariant Consistent() && Sound(roots)
        invariant observed == |seenDocuments| <= MAXIMUM_GLOB_ENTRIES && seenDocuments == RootDocuments(roots[..k])
        invariant documents == Adding([], roots[..k])
      {
        OneMoreRoot(roots, k);
        AddingStep([], roots, k);
        if roots[k].kind == DocumentEntry {
          error := AddDocument(roots[k], roots);
          if error != None {
            return error;
          }
        }
      }
      assert roots[..|roots|] == roots;
      error := None;
    }
  }

  lemma {:induction false} OneMoreRoot(roots: seq<Entry>, k: nat)
    requires k < |roots|
    ensures RootDocuments(roots[..k + 1]) ==
            RootDocuments(roots[..k]) + if roots[k].kind == DocumentEntry then {roots[k].id} else {}
    ensures |RootDocuments(roots[..k + 1])| <= |RootDocuments(roots)|
    ensures roots[k] in roots
  {
    assert roots[..k + 1] == roots[..k] + [roots[k]];
    SmallerSet(RootDocuments(roots[..k + 1]), RootDocuments(roots));
  }

  /** Every folder visited since is explored. */
  ghost predicate AllExplored(list: Lister, before: set<string>, visited: set<string>, seen: set<string>) {
    forall id | id in visited - before :: Explored(list, id, visited, seen)
  }

  lemma {:induction false} NothingNewExplored(list: Lister, visited: set<string>, seen: set<string>)
    ensures AllExplored(list, visited, visited, seen)
  {
  }

  lemma {:induction false} FolderIsExplored(list: Lister, before: set<string>, id: string, entries: seq<Entry>,
                                            less: (Entry, Entry) -> bool, visited: set<string>, seen: set<string>)
    ensures
      && list(0, id).Ok? && entries == StableSort(Children(list, id), less)
      && (forall e | e in entries ::
            (e.kind == FolderEntry ==> e.id in visited) && (e.kind == DocumentEntry ==> e.id in seen))
      && AllExplored(list, before + {id}, visited, seen)
      ==> AllExplored(list, before, visited, seen)
  {
    hide StableSort;
    var sorted := StableSort(Children(list, id), less);
    forall e
      ensures e in sorted <==> e in Children(list, id)
    {
      assert e in multiset(sorted) <==> e in multiset(Children(list, id));
    }
  }

  lemma {:induction false} AllExploredGrows(list: Lister, before: set<string>, visited: set<string>, seen: set<string>,
                                            visited': set<string>, seen': set<string>)
    requires visited <= visited' && seen <= seen'
    ensures AllExplored(list, before, visited, seen) && AllExplored(list, visited, visited', seen') ==>
      AllExplored(list, before, visited', seen')
  {
    hide Explored;
    ExploredGrows(list, visited, seen, visited', seen');
  }

  /** Why the call succeeds or fails: some listing failed, or the budget did not hold. */
  ghost predicate Outcome(list: Lister, roots: seq<Entry>, asked: seq<string>, error: Option<string>) {
    var charged := |RootDocuments(roots)| + Charged(list, asked);
    match error
    case None => AllAnswered(list, asked) && charged <= 10000
    case Some(message) => LastRefused(list, asked, message) || (message == LIMIT && charged > 10000)
  }

  lemma {:induction false} RootsAreReachable(list: Lister, roots: seq<Entry>)
    ensures forall e | e in roots :: Reachable(list, roots, e)
  {
    forall e | e in roots
      ensures Reachable(list, roots, e)
    {
      RootIsReachable(list, roots, e);
    }
  }

  lemma {:induction false} SmallerSet<T>(a: set<T>, b: set<T>)
    requires a <= b
    ensures |a| <= |b|
  {
    assert b == a + (b - a);
  }

  lemma {:induction false} Asked(list: Lister, asked: seq<string>, id: string)
    ensures var answer := list(|asked|, id);
      && Charged(list, asked + [id]) == Charged(list, asked) + (if answer.Ok? then |answer.value| else 0)
      && (AllAnswered(list, asked + [id]) <==> AllAnswered(list, asked) && answer.Ok?)
    ensures NoRepeats(asked) && id !in asked ==> NoRepeats(asked + [id])
  {
    var longer := asked + [id];
    assert longer[..|asked|] == asked;
    assert AllAnswered(list, longer) ==> list(|asked|, longer[|asked|]).Ok?;
    if AllAnswered(list, longer) {
      forall i | 0 <= i < |asked|
        ensures list(i, asked[i]).Ok?
      {
        assert list(i, longer[i]).Ok?;
      }
    }
  }

  ghost function Total(list: Lister, ids: seq<string>): nat {
    if ids == [] then 0 else Total(list, ids[..|ids| - 1]) + |Children(list, ids[|ids| - 1])|
  }

  /** These are the reachable folders; all of them list, and with the documents among the roots it is not too much. */
  ghost predicate AffordableWith(list: Lister, roots: seq<Entry>, ids: seq<string>) {
    && NoRepeats(ids) && (forall id :: id in ids <==> ReachableFolder(list, roots, id))
    && (forall id | id in ids :: list(0, id).Ok?)
    && |RootDocuments(roots)| + Total(list, ids) <= 10000
  }

  ghost predicate Affordable(list: Lister, roots: seq<Entry>) {
    exists ids :: AffordableWith(list, roots, ids)
  }

  lemma {:induction false} ChargedIsTotal(list: Lister, asked: seq<string>)
    requires Fixed(list)
    ensures Charged(list, asked) == Total(list, asked)
  {
    if asked != [] {
      ChargedIsTotal(list, asked[..|asked| - 1]);
      assert list(|asked| - 1, asked[|asked| - 1]) == list(0, asked[|asked| - 1]);
    }
  }

  lemma {:induction false} TotalWithout(list: Lister, ids: seq<string>, i: nat)
    requires i < |ids|
    ensures Total(list, ids) == Total(list, ids[..i] + ids[i + 1..]) + |Children(list, ids[i])|
    decreases |ids|
  {
    hide Children;
    var n := |ids| - 1;
    if i == n {
      assert ids[..i] + ids[i + 1..] == ids[..n];
    } else {
      TotalWithout(list, ids[..n], i);
      var rest := ids[..i] + ids[i + 1..];
      assert rest[..|rest| - 1] == ids[..n][..i] + ids[..n][i + 1..];
    }
  }

  lemma {:induction false} FewerCostLess(list: Lister, some: seq<string>, all: seq<string>)
    requires NoRepeats(some) && forall id | id in some :: id in all
    ensures Total(list, some) <= Total(list, all)
    decreases |some|
  {
    hide Children;
    if some != [] {
      var n := |some| - 1;
      assert some[n] in some;
      var i :| 0 <= i < |all| && all[i] == some[n];
      var rest := all[..i] + all[i + 1..];
      forall id | id in some[..n]
        ensures id in rest
      {
        var k :| 0 <= k < n && some[k] == id;
        assert some[k] in some;
        var j :| 0 <= j < |all| && all[j] == id;
        assert j != i;
        assert rest[if j < i then j else j - 1] == id;
      }
      FewerCostLess(list, some[..n], rest);
      TotalWithout(list, all, i);
    }
  }

  /** With a fixed list function the outcome is decided by the folders that can be reached. */
  lemma {:induction false} OutcomeIsDecided(list: Lister, roots: seq<Entry>, asked: seq<string>, error: Option<string>)
    requires Fixed(list) && NoRepeats(asked) && Outcome(list, roots, asked, error)
    requires forall id | id in asked :: ReachableFolder(list, roots, id)
    requires error == None ==> forall id | ReachableFolder(list, roots, id) :: id in asked
    ensures error == None <==> Affordable(list, roots)
  {
    ChargedIsTotal(list, asked);
    hide ReachableFolder, RootDocuments, Charged, Total;
    if error == None {
      forall id | id in asked
        ensures list(0, id).Ok?
      {
        var i :| 0 <= i < |asked| && asked[i] == id;
        assert list(i, asked[i]) == list(0, id);
      }
      assert AffordableWith(list, roots, asked);
    } else if Affordable(list, roots) {
      var ids :| AffordableWith(list, roots, ids);
      FewerCostLess(list, asked, ids);
    }
  }

  /**
   collectGlobalDocuments. Whatever the list function does, it is called at most |roots| + 10000 times, never twice for
   one folder, and the call fails only for a listing that failed or a budget that did not hold. If the list function is
   fixed, the call succeeds exactly when all reachable folders list and there are not too many entries in them; then the
   result is exactly the reachable documents, each ID once, and exactly the reachable folders were listed, depth first.
   The documents come in the order of the listings. The roots end up sorted in place.
   */
  method CollectGlobalDocuments(roots: array<Entry>, list: Lister, less: (Entry, Entry) -> bool)
    returns (r: Result<seq<Entry>>, ghost asked: seq<string>)
    modifies roots
    ensures roots[..] == StableSort(old(roots[..]), less)
    ensures |asked| <= roots.Length + 10000 && NoRepeats(asked)
    ensures Outcome(list, old(roots[..]), asked, if r.Ok? then None else Some(r.error))
    ensures r.Ok? ==> r.value == Gathered(list, StableSort(old(roots[..]), less), asked, less)
    ensures r.Ok? ==> DistinctEntries(r.value) && forall e | e in r.value :: e.kind == DocumentEntry
    ensures r.Ok? && Fixed(list) ==>
      && (forall e | e in r.value :: Reachable(list, old(roots[..]), e))
      && (forall e | Reachable(list, old(roots[..]), e) && e.kind == DocumentEntry :: e.id in Ids(r.value))
      && (forall id :: id in asked <==> ReachableFolder(list, old(roots[..]), id))
      && asked == Walk(list, less, StableSort(old(roots[..]), less), [], 10001)
    ensures Fixed(list) ==> (r.Ok? <==> Affordable(list, old(roots[..])))
  {
    hide StableSort, Reachable, Gathered, Walk;
    ghost var before := roots[..];
    SortSlice(roots, less);
    var sorted := roots[..];
    SameRoots(list, before, sorted);
    var collector := new Collector(list, less);
    var error := collector.CollectFrom(sorted);
    asked := collector.asked;
    if Fixed(list) {
      if error == None {
        AllReachableAreCovered(list, sorted, collector.visitedFolders, collector.seenDocuments);
      }
      OutcomeIsDecided(list, sorted, asked, error);
      SameAffordable(list, before, sorted);
    }
    if error != None {
      return Err(error.value), asked;
    }
    return Ok(collector.documents), asked;
  }

  lemma {:induction false} SameAffordable(list: Lister, roots: seq<Entry>, sorted: seq<Entry>)
    requires forall e :: Reachable(list, roots, e) <==> Reachable(list, sorted, e)
    requires RootDocuments(roots) == RootDocuments(sorted)
    ensures Affordable(list, roots) <==> Affordable(list, sorted)
  {
    hide Reachable, Total, RootDocuments;
    assert forall id :: ReachableFolder(list, roots, id) <==> ReachableFolder(list, sorted, id);
    assert forall ids :: AffordableWith(list, roots, ids) <==> AffordableWith(list, sorted, ids);
  }

  lemma {:induction false} SameRoots(list: Lister, roots: seq<Entry>, sorted: seq<Entry>)
    requires multiset(roots) == multiset(sorted)
    ensures forall e :: Reachable(list, roots, e) <==> Reachable(list, sorted, e)
    ensures RootDocuments(roots) == RootDocuments(sorted)
  {
    forall e
      ensures e in roots <==> e in sorted
    {
      assert e in multiset(roots) <==> e in multiset(sorted);
    }
    assert forall chain :: IsChain(list, roots, chain) <==> IsChain(list, sorted, chain);
  }

  lemma {:induction false} AllReachableAreCovered(list: Lister, roots: seq<Entry>, visited: set<string>,
                                                  seen: set<string>)
    requires forall e | e in roots ::
               (e.kind == FolderEntry ==> e.id in visited) && (e.kind == DocumentEntry ==> e.id in seen)
    requires forall id | id in visited :: Explored(list, id, visited, seen)
    ensures forall e | Reachable(list, roots, e) ::
              (e.kind == FolderEntry ==> e.id in visited) && (e.kind == DocumentEntry ==> e.id in seen)
  {
    hide Explored;
    forall e | Reachable(list, roots, e)
      ensures (e.kind == FolderEntry ==> e.id in visited) && (e.kind == DocumentEntry ==> e.id in seen)
    {
      var chain :| IsChain(list, roots, chain) && chain[|chain| - 1] == e;
      ExploredIsAll(list, roots, visited, seen, chain);
    }
  }
}
