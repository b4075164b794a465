/**
 What a glob finds (cmd/dp/selectors.go), said without a search: the ends of the chains of entries, one under the
 other, whose names match segment by segment and whose inner entries are folders. Every chain counts once.
 */
module GlobChains {
  import opened Results
  import opened DeviceTree
  import opened Sorting
  import opened Reachability
  import opened GlobListing

  ghost predicate IsGlobChain(list: Lister, matches: Matcher, id: string, segments: seq<string>, chain: seq<Entry>) {
    && |chain| == |segments| > 0
    && chain[0] in Children(list, id)
    && (forall i | 0 <= i < |chain| :: matches(segments[i], chain[i].name) == Some(true))
    && forall i | 0 <= i < |chain| - 1 :: chain[i].kind == FolderEntry && chain[i + 1] in Children(list, chain[i].id)
  }

  lemma {:induction false} ChainFromFolder(list: Lister, matches: Matcher, id: string, segments: seq<string>,
                                           chain: seq<Entry>)
    requires |segments| > 1
    ensures IsGlobChain(list, matches, id, segments, chain) <==>
            && |chain| > 0
            && chain[0] in OnlyFolders(Matching(Children(list, id), segments[0], matches))
            && IsGlobChain(list, matches, chain[0].id, segments[1..], chain[1..])
  {
    hide Children, OnlyFolders, Matching;
    if |chain| > 0 && chain[0].kind == FolderEntry &&
       IsGlobChain(list, matches, chain[0].id, segments[1..], chain[1..]) {
      var rest := chain[1..];
      forall i | 0 <= i < |chain| && chain[0] in Matching(Children(list, id), segments[0], matches)
        ensures matches(segments[i], chain[i].name) == Some(true)
      {
        assert i > 0 ==> rest[i - 1] == chain[i] && segments[1..][i - 1] == segments[i];
      }
      forall i | 0 <= i < |chain| - 1
        ensures chain[i].kind == FolderEntry && chain[i + 1] in Children(list, chain[i].id)
      {
        assert rest[i] == chain[i + 1];
        assert i > 0 ==> rest[i - 1] == chain[i];
      }
    }
  }

  /** Each chain of the given ones, below the folder. */
  ghost function Under(folder: Entry, chains: seq<seq<Entry>>): (r: seq<seq<Entry>>)
    ensures |r| == |chains| && forall i | 0 <= i < |r| :: r[i] == [folder] + chains[i]
  {
    seq(|chains|, i requires 0 <= i < |chains| => [folder] + chains[i])
  }

  ghost function Chains(list: Lister, matches: Matcher, id: string, segments: seq<string>): (r: seq<seq<Entry>>)
    requires |segments| > 0
    ensures forall chain | chain in r :: |chain| == |segments|
    decreases |segments|, 0
  {
    var matching := Matching(Children(list, id), segments[0], matches);
    if |segments| == 1 then seq(|matching|, i requires 0 <= i < |matching| => [matching[i]])
    else ChainsFrom(list, matches, OnlyFolders(matching), segments[1..])
  }

  ghost function ChainsFrom(list: Lister, matches: Matcher, folders: seq<Entry>, segments: seq<string>)
    : (r: seq<seq<Entry>>)
    requires |segments| > 0
    ensures forall chain | chain in r :: |chain| == |segments| + 1
    decreases |segments|, |folders| + 1
  {
    if folders == [] then [] else
      var last := folders[|folders| - 1];
      ChainsFrom(list, matches, folders[..|folders| - 1], segments) +
      Under(last, Chains(list, matches, last.id, segments))
  }

  /** The chains are all that there are. */
  lemma {:induction false} ChainsAreAll(list: Lister, matches: Matcher, id: string, segments: seq<string>,
                                        chain: seq<Entry>)
    requires |segments| > 0
    ensures chain in Chains(list, matches, id, segments) <==> IsGlobChain(list, matches, id, segments, chain)
    decreases |segments|, 0
  {
    var matching := Matching(Children(list, id), segments[0], matches);
    if |segments| == 1 {
      if IsGlobChain(list, matches, id, segments, chain) {
        var i :| 0 <= i < |matching| && matching[i] == chain[0];
        assert Chains(list, matches, id, segments)[i] == chain;
      }
    } else {
      ChainFromFolder(list, matches, id, segments, chain);
      ChainsFromAreAll(list, matches, OnlyFolders(matching), segments[1..], chain);
    }
  }

  lemma {:induction false} ChainsFromAreAll(list: Lister, matches: Matcher, folders: seq<Entry>,
                                            segments: seq<string>, chain: seq<Entry>)
    requires |segments| > 0
    ensures chain in ChainsFrom(list, matches, folders, segments) <==>
            |chain| > 0 && chain[0] in folders && IsGlobChain(list, matches, chain[0].id, segments, chain[1..])
    decreases |segments|, |folders| + 1
  {
    hide Chains, IsGlobChain;
    if folders != [] {
      var before, last := folders[..|folders| - 1], folders[|folders| - 1];
      assert folders == before + [last];
      ChainsFromAreAll(list, matches, before, segments, chain);
      var below := Chains(list, matches, last.id, segments);
      if |chain| > 0 {
        ChainsAreAll(list, matches, last.id, segments, chain[1..]);
        InUnder(last, below, chain);
      }
    }
  }

  lemma {:induction false} InUnder(folder: Entry, chains: seq<seq<Entry>>, chain: seq<Entry>)
    requires |chain| > 0
    ensures chain in Under(folder, chains) <==> chain[0] == folder && chain[1..] in chains
  {
    if chain in Under(folder, chains) {
      var i :| 0 <= i < |chains| && Under(folder, chains)[i] == chain;
      assert chain[1..] == chains[i];
    }
    if chain[0] == folder && chain[1..] in chains {
      var i :| 0 <= i < |chains| && chains[i] == chain[1..];
      assert Under(folder, chains)[i] == chain;
    }
  }

  ghost function Ends(chains: seq<seq<Entry>>): (r: seq<Entry>)
    requires forall chain | chain in chains :: |chain| > 0
    ensures |r| == |chains| && forall i | 0 <= i < |r| :: r[i] == chains[i][|chains[i]| - 1]
  {
    seq(|chains|, i requires 0 <= i < |chains| => chains[i][|chains[i]| - 1])
  }

  /** A search finds the end of each chain, chain by chain. */
  lemma {:induction false} SearchFindsEnds(list: Lister, matches: Matcher, id: string, segments: seq<string>)
    requires |segments| > 0
    ensures Search(list, matches, id, segments).entries == Ends(Chains(list, matches, id, segments))
    decreases |segments|, 0
  {
    if |segments| > 1 {
      SearchAllFindsEnds(list, matches, OnlyFolders(Matching(Children(list, id), segments[0], matches)), segments[1..]);
    }
  }

  lemma {:induction false} SearchAllFindsEnds(list: Lister, matches: Matcher, folders: seq<Entry>,
                                              segments: seq<string>)
    requires |segments| > 0
    ensures SearchAll(list, matches, folders, segments).entries == Ends(ChainsFrom(list, matches, folders, segments))
    decreases |segments|, |folders| + 1
  {
    hide Search, Chains;
    if folders != [] {
      var before, last := folders[..|folders| - 1], folders[|folders| - 1];
      SearchAllFindsEnds(list, matches, before, segments);
      SearchFindsEnds(list, matches, last.id, segments);
      var below := Chains(list, matches, last.id, segments);
      EndsOfBoth(ChainsFrom(list, matches, before, segments), last, below);
    }
  }

  lemma {:induction false} EndsOfBoth(chains: seq<seq<Entry>>, last: Entry, below: seq<seq<Entry>>)
    requires forall chain | chain in chains :: |chain| > 0
    requires forall chain | chain in below :: |chain| > 0
    ensures forall chain | chain in chains + Under(last, below) :: |chain| > 0
    ensures Ends(chains + Under(last, below)) == Ends(chains) + Ends(below)
  {
    var under := Under(last, below);
    forall i | 0 <= i < |under|
      ensures under[i][|under[i]| - 1] == below[i][|below[i]| - 1]
    {
      assert below[i] in below;
    }
  }

  lemma {:induction false} FilteredNoRepeats(entries: seq<Entry>, segment: string, matches: Matcher)
    requires NoRepeats(entries)
    ensures NoRepeats(Matching(entries, segment, matches)) && NoRepeats(OnlyFolders(entries))
  {
    if entries != [] {
      FilteredNoRepeats(entries[..|entries| - 1], segment, matches);
    }
  }

  /** Where no folder lists an entry twice, no chain is found twice. */
  lemma {:induction false} ChainsNoRepeats(list: Lister, matches: Matcher, id: string, segments: seq<string>)
    requires |segments| > 0
    requires forall folder :: NoRepeats(Children(list, folder))
    ensures NoRepeats(Chains(list, matches, id, segments))
    decreases |segments|, 0
  {
    hide NoRepeats;
    var matching := Matching(Children(list, id), segments[0], matches);
    FilteredNoRepeats(Children(list, id), segments[0], matches);
    FilteredNoRepeats(matching, segments[0], matches);
    if |segments| == 1 {
      SinglesNoRepeats(matching, Chains(list, matches, id, segments));
    } else {
      ChainsFromNoRepeats(list, matches, OnlyFolders(matching), segments[1..]);
    }
  }

  lemma {:induction false} SinglesNoRepeats(entries: seq<Entry>, singles: seq<seq<Entry>>)
    requires NoRepeats(entries)
    requires |singles| == |entries| && forall i | 0 <= i < |entries| :: singles[i] == [entries[i]]
    ensures NoRepeats(singles)
  {
    forall i, j | 0 <= i < j < |singles|
      ensures singles[i] != singles[j]
    {
      assert singles[i][0] != singles[j][0];
    }
  }

  lemma {:induction false} ChainsFromNoRepeats(list: Lister, matches: Matcher, folders: seq<Entry>,
                                               segments: seq<string>)
    requires |segments| > 0 && NoRepeats(folders)
    requires forall folder :: NoRepeats(Children(list, folder))
    ensures NoRepeats(ChainsFrom(list, matches, folders, segments))
    decreases |segments|, |folders| + 1
  {
    hide Chains, Children, IsGlobChain;
    if folders != [] {
      var before, last := folders[..|folders| - 1], folders[|folders| - 1];
      ChainsFromNoRepeats(list, matches, before, segments);
      ChainsNoRepeats(list, matches, last.id, segments);
      var a, b := ChainsFrom(list, matches, before, segments), Under(last, Chains(list, matches, last.id, segments));
      forall i | 0 <= i < |a|
        ensures a[i][0] != last
      {
        ChainsFromAreAll(list, matches, before, segments, a[i]);
      }
      BothNoRepeats(a, b, last, Chains(list, matches, last.id, segments));
    }
  }

  lemma {:induction false} BothNoRepeats(a: seq<seq<Entry>>, b: seq<seq<Entry>>, last: Entry, below: seq<seq<Entry>>)
    requires NoRepeats(a) && NoRepeats(below) && b == Under(last, below)
    requires forall i | 0 <= i < |a| :: |a[i]| > 0 && a[i][0] != last
    ensures NoRepeats(a + b)
  {
    forall i, j | 0 <= i < j < |b|
      ensures b[i] != b[j]
    {
      assert b[i][1..] == below[i] && b[j][1..] == below[j];
    }
    forall i, j | 0 <= i < |a| && 0 <= j < |b|
      ensures a[i] != b[j]
    {
      assert b[j][0] == last;
    }
  }
}
