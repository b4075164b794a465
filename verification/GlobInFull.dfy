/**
 Globs (cmd/dp/selectors.go) from the pattern, the listings and the names alone: which segments a pattern has and when
 it is refused, which entries a filter keeps, and in which order a search finds them.
 */
module GlobInFull {
  import opened Results
  import opened Text
  import opened DeviceTree
  import opened Reachability
  import opened GlobListing
  import opened GlobChains

  // ---------- patterns ----------

  /** "./" so many times. */
  function Dots(n: nat): string {
    if n == 0 then "" else "./" + Dots(n - 1)
  }

  lemma {:induction false} TrimmedInFull(value: string) returns (dots: nat)
    ensures value == Dots(dots) + TrimRootRelative(value) && !HasPrefix(TrimRootRelative(value), "./")
    decreases |value|
  {
    if HasPrefix(value, "./") {
      var n := TrimmedInFull(value[2..]);
      dots := n + 1;
      assert value == "./" + value[2..];
    } else {
      dots := 0;
    }
  }

  ghost predicate GoodSegments(segments: seq<string>, wellFormed: string -> bool) {
    forall i | 0 <= i < |segments| ::
      segments[i] != "" && segments[i] != "." && segments[i] != ".." && wellFormed(segments[i])
  }

  /** Between slashes, and nothing else. */
  ghost predicate AreSegmentsOf(segments: seq<string>, path: string) {
    |segments| > 0 && Joined(segments) == path && forall i | 0 <= i < |segments| :: '/' !in segments[i]
  }

  /**
   A pattern is an optional slash, any number of "./", and a path that does not begin with "./". It is accepted exactly
   if it does not begin with two slashes, the path is not empty, its segments are good ones and the first is not the
   document folder; and then the answer is these segments, all of them.
   */
  lemma {:induction false} GlobSegmentsInFull(pattern: string, wellFormed: string -> bool, isDocument: string -> bool)
    returns (slash: string, dots: nat, path: string, segments: seq<string>)
    ensures pattern == slash + Dots(dots) + path && !HasPrefix(path, "./")
    ensures slash == if pattern != "" && pattern[0] == '/' then "/" else ""
    ensures AreSegmentsOf(segments, path)
    ensures GlobSegments(pattern, wellFormed, isDocument).Ok? <==>
            !HasPrefix(pattern, "//") && path != "" && GoodSegments(segments, wellFormed) && !isDocument(segments[0])
    ensures GlobSegments(pattern, wellFormed, isDocument).Ok? ==>
      GlobSegments(pattern, wellFormed, isDocument).value == segments
  {
    hide TrimRootRelative, Split, Joined, Refusal, GoodSegments, AreSegmentsOf, Dots;
    slash := if HasPrefix(pattern, "/") then "/" else "";
    var rest := if HasPrefix(pattern, "/") then pattern[1..] else pattern;
    dots := TrimmedInFull(rest);
    path := TrimRootRelative(rest);
    assert pattern == slash + Dots(dots) + path by {
      assert pattern == slash + rest;
    }
    segments := Split(path);
    SplitInFull(path);
    RefusalInFull(segments, wellFormed);
    Steps(pattern, rest, wellFormed, isDocument);
  }

  lemma {:induction false} Steps(pattern: string, rest: string, wellFormed: string -> bool, isDocument: string -> bool)
    requires rest == if HasPrefix(pattern, "/") then pattern[1..] else pattern
    ensures var path := TrimRootRelative(rest);
      GlobSegments(pattern, wellFormed, isDocument) ==
        if HasPrefix(pattern, "//") then Err(ONE_SLASH)
        else if path == "" then Err(NO_OBJECT)
        else if Refusal(Split(path), wellFormed) != None then Err(Refusal(Split(path), wellFormed).value)
        else if isDocument(Split(path)[0]) then Err(INTERNAL_PREFIX)
        else Ok(Split(path))
  {
    hide TrimRootRelative, Split, Refusal;
  }

  lemma {:induction false} SplitInFull(path: string)
    ensures AreSegmentsOf(Split(path), path)
  {
    SplitIsPath(path);
    hide Split, Joined;
    forall i | 0 <= i < |Split(path)|
      ensures '/' !in Split(path)[i]
    {
      assert Split(path)[i] in Split(path);
    }
  }

  lemma {:induction false} RefusalInFull(segments: seq<string>, wellFormed: string -> bool)
    ensures Refusal(segments, wellFormed) == None <==> GoodSegments(segments, wellFormed)
  {
    hide Refusal;
    if GoodSegments(segments, wellFormed) {
      forall segment | segment in segments
        ensures segment !in {"", ".", ".."} && wellFormed(segment)
      {
        var i :| 0 <= i < |segments| && segments[i] == segment;
      }
    } else {
      var i :| 0 <= i < |segments| &&
        !(segments[i] != "" && segments[i] != "." && segments[i] != ".." && wellFormed(segments[i]));
      assert segments[i] in segments;
    }
  }

  /** There is only one way to cut a path at its slashes. */
  lemma {:induction false} SegmentsAreUnique(a: seq<string>, b: seq<string>, path: string)
    requires AreSegmentsOf(a, path) && AreSegmentsOf(b, path)
    ensures a == b
    decreases |a|
  {
    FirstSegment(a, path);
    FirstSegment(b, path);
    if |a[0]| < |path| {
      BeforeSlash(b[0], path, |a[0]|);
    }
    if |b[0]| < |path| {
      BeforeSlash(a[0], path, |b[0]|);
    }
    assert |a[0]| == |b[0]|;
    assert a[0] == b[0];
    if |a| > 1 {
      SegmentsAreUnique(a[1..], b[1..], path[|a[0]| + 1..]);
      assert a == [a[0]] + a[1..] && b == [b[0]] + b[1..];
    }
  }

  lemma {:induction false} BeforeSlash(segment: string, path: string, i: nat)
    requires segment <= path && '/' !in segment && i < |path| && path[i] == '/'
    ensures |segment| <= i
  {
    assert forall k | 0 <= k < |segment| :: segment[k] == path[k] && segment[k] != '/';
  }

  lemma {:induction false} FirstSegment(segments: seq<string>, path: string)
    requires AreSegmentsOf(segments, path)
    ensures segments[0] <= path
    ensures |segments[0]| == |path| <==> |segments| == 1
    ensures |segments| == 1 ==> segments == [path]
    ensures |segments| > 1 ==>
      path[|segments[0]|] == '/' && AreSegmentsOf(segments[1..], path[|segments[0]| + 1..])
  {
  }

  /** A trailing slash is cut off, however many there are. */
  lemma {:induction false} TrimRightInFull(value: string)
    ensures TrimRight(value) <= value && forall i | |TrimRight(value)| <= i < |value| :: value[i] == '/'
    ensures TrimRight(value) != "" ==> TrimRight(value)[|TrimRight(value)| - 1] != '/'
  {
    if value != "" && value[|value| - 1] == '/' {
      TrimRightInFull(value[..|value| - 1]);
    }
  }

  /** The root is displayed as a slash, and everything else from there. */
  lemma {:induction false} DevicePathInFull(path: string)
    ensures DevicePathString("Document") == "/"
    ensures DevicePathString("Document/" + path) == "/" + path
    ensures path != "Document" && !HasPrefix(path, "Document/") ==> DevicePathString(path) == "/" + path
  {
    var full := "Document/" + path;
    assert full[..9] == "Document/" && full[9..] == path;
    assert "Document" + "/" == "Document/";
  }

  // ---------- filters ----------

  /** The kept entries are those at these places, which go up. */
  ghost predicate ArePlaces(places: seq<nat>, kept: seq<Entry>, entries: seq<Entry>) {
    && |places| == |kept| && (forall i | 0 <= i < |places| :: places[i] < |entries| && kept[i] == entries[places[i]])
    && forall i, j | 0 <= i < j < |places| :: places[i] < places[j]
  }

  lemma {:induction false} OneMorePlace(places: seq<nat>, kept: seq<Entry>, entries: seq<Entry>, last: Entry)
    requires ArePlaces(places, kept, entries)
    ensures ArePlaces(places, kept, entries + [last])
    ensures ArePlaces(places + [|entries|], kept + [last], entries + [last])
  {
  }

  /** Matching keeps exactly the matching places, each once and in order. */
  lemma {:induction false} MatchingInFull(entries: seq<Entry>, segment: string, matches: Matcher)
    returns (places: seq<nat>)
    ensures ArePlaces(places, Matching(entries, segment, matches), entries)
    ensures forall i: nat | i < |entries| :: i in places <==> matches(segment, entries[i].name) == Some(true)
  {
    places := [];
    if entries != [] {
      var before, last := entries[..|entries| - 1], entries[|entries| - 1];
      assert entries == before + [last];
      places := MatchingInFull(before, segment, matches);
      OneMorePlace(places, Matching(before, segment, matches), before, last);
      if matches(segment, last.name) == Some(true) {
        places := places + [|before|];
      }
    }
  }

  /** So does the selection of folders. */
  lemma {:induction false} FoldersInFull(entries: seq<Entry>) returns (places: seq<nat>)
    ensures ArePlaces(places, OnlyFolders(entries), entries)
    ensures forall i: nat | i < |entries| :: i in places <==> entries[i].kind == FolderEntry
  {
    places := [];
    if entries != [] {
      var before, last := entries[..|entries| - 1], entries[|entries| - 1];
      assert entries == before + [last];
      places := FoldersInFull(before);
      OneMorePlace(places, OnlyFolders(before), before, last);
      if last.kind == FolderEntry {
        places := places + [|before|];
      }
    }
  }

  /** And the filter of resolveGlobObjects. */
  lemma {:induction false} KeptInFull(entries: seq<Entry>, directoryOnly: bool, expected: Option<EntryType>)
    returns (places: seq<nat>)
    ensures ArePlaces(places, Kept(entries, directoryOnly, expected), entries)
    ensures forall i: nat | i < |entries| ::
              i in places <==> (directoryOnly ==> entries[i].kind == FolderEntry) &&
                               (expected.Some? ==> entries[i].kind == expected.value)
  {
    places := PlacesOfKept(entries, directoryOnly, expected);
  }

  lemma {:induction false} PlacesOfKept(entries: seq<Entry>, directoryOnly: bool, expected: Option<EntryType>)
    returns (places: seq<nat>)
    ensures ArePlaces(places, Kept(entries, directoryOnly, expected), entries)
    ensures forall i: nat | i < |entries| :: i in places <==> Wanted(entries[i], directoryOnly, expected)
  {
    places := [];
    if entries == [] {
      NothingKept(directoryOnly, expected);
    } else {
      hide Wanted, Kept, ArePlaces;
      var before, last := entries[..|entries| - 1], entries[|entries| - 1];
      assert entries == before + [last];
      var known := PlacesOfKept(before, directoryOnly, expected);
      OneMoreKept(before, last, directoryOnly, expected);
      OneMorePlace(known, Kept(before, directoryOnly, expected), before, last);
      var n := |before|;
      forall i: nat | i < n
        ensures entries[i] == before[i]
      {
      }
      if Wanted(last, directoryOnly, expected) {
        places := known + [n];
        assert forall i: nat :: i in places <==> i in known || i == n;
      } else {
        places := known;
        PlacesAreInside(known, Kept(before, directoryOnly, expected), before);
      }
    }
  }

  lemma {:induction false} PlacesAreInside(places: seq<nat>, kept: seq<Entry>, entries: seq<Entry>)
    requires ArePlaces(places, kept, entries)
    ensures |entries| !in places
  {
  }

  lemma {:induction false} OneMoreKept(before: seq<Entry>, last: Entry, directoryOnly: bool,
                                       expected: Option<EntryType>)
    ensures Kept(before + [last], directoryOnly, expected) ==
            if Wanted(last, directoryOnly, expected) then Kept(before, directoryOnly, expected) + [last]
            else Kept(before, directoryOnly, expected)
  {
    assert (before + [last])[..|before|] == before;
  }

  // ---------- cost ----------

  ghost function SumOfListed(list: Lister, matches: Matcher, folders: seq<Entry>, segments: seq<string>): nat
    requires |segments| > 0
  {
    if folders == [] then 0 else
      SumOfListed(list, matches, folders[..|folders| - 1], segments) +
      Search(list, matches, folders[|folders| - 1].id, segments).listed
  }

  lemma {:induction false} SearchAllInFull(list: Lister, matches: Matcher, folders: seq<Entry>, segments: seq<string>)
    requires |segments| > 0
    ensures SearchAll(list, matches, folders, segments).listed == SumOfListed(list, matches, folders, segments)
    ensures SearchAll(list, matches, folders, segments).legal <==>
            forall i | 0 <= i < |folders| :: Search(list, matches, folders[i].id, segments).legal
    decreases |folders|
  {
    hide Search;
    if folders != [] {
      var n := |folders| - 1;
      SearchAllInFull(list, matches, folders[..n], segments);
      if forall i | 0 <= i < n :: Search(list, matches, folders[..n][i].id, segments).legal {
        assert forall i | 0 <= i < n :: folders[..n][i] == folders[i];
      } else {
        var i :| 0 <= i < n && !Search(list, matches, folders[..n][i].id, segments).legal;
        assert folders[..n][i] == folders[i];
      }
    }
  }

  /** A search is charged for all children of every folder it goes through, and every one of them has to be in order. */
  lemma {:induction false} SearchInFull(list: Lister, matches: Matcher, id: string, segments: seq<string>)
    requires |segments| > 0
    ensures var children := Children(list, id);
      var folders := OnlyFolders(Matching(children, segments[0], matches));
      var here := list(0, id).Ok? && forall i | 0 <= i < |children| :: matches(segments[0], children[i].name) != None;
      var found := Search(list, matches, id, segments);
      if |segments| == 1 then found.listed == |children| && (found.legal <==> here)
      else
        && found.listed == |children| + SumOfListed(list, matches, folders, segments[1..])
        && (found.legal <==>
              here && forall i | 0 <= i < |folders| :: Search(list, matches, folders[i].id, segments[1..]).legal)
  {
    var children := Children(list, id);
    var folders := OnlyFolders(Matching(children, segments[0], matches));
    if list(0, id).Ok? {
      AllMatch(children, segments[0], matches);
    }
    if |segments| > 1 {
      SearchAllInFull(list, matches, folders, segments[1..]);
    }
    hide SearchAll, SumOfListed, Matching, OnlyFolders;
  }

  lemma {:induction false} AllMatch(entries: seq<Entry>, segment: string, matches: Matcher)
    ensures (forall e | e in entries :: matches(segment, e.name) != None) <==>
            forall i | 0 <= i < |entries| :: matches(segment, entries[i].name) != None
  {
    if forall i | 0 <= i < |entries| :: matches(segment, entries[i].name) != None {
      forall e | e in entries
        ensures matches(segment, e.name) != None
      {
        var i :| 0 <= i < |entries| && entries[i] == e;
      }
    }
  }

  // ---------- order ----------

  ghost predicate ListedBefore(children: seq<Entry>, p: nat, q: nat, a: Entry, b: Entry) {
    p < q < |children| && children[p] == a && children[q] == b
  }

  /** The first chain comes before the second: up to some point they are the same, and there it is listed before. */
  ghost predicate Precedes(list: Lister, id: string, a: seq<Entry>, b: seq<Entry>)
    decreases |a|
  {
    && a != [] && b != []
    && ((exists p, q :: ListedBefore(Children(list, id), p, q, a[0], b[0])) ||
        (a[0] == b[0] && Precedes(list, a[0].id, a[1..], b[1..])))
  }

  /** The chains come in the order of the listings, the topmost first to decide. */
  lemma {:induction false} ChainsInOrder(list: Lister, matches: Matcher, id: string, segments: seq<string>, i: nat,
                                         j: nat)
    requires |segments| > 0 && i < j < |Chains(list, matches, id, segments)|
    ensures Precedes(list, id, Chains(list, matches, id, segments)[i], Chains(list, matches, id, segments)[j])
    decreases |segments|, 0
  {
    hide Chains, ChainsFrom, Matching, OnlyFolders, Children, ArePlaces, Precedes;
    if |segments| == 1 {
      OneSegmentInOrder(list, matches, id, segments, i, j);
    } else {
      var children := Children(list, id);
      var matching := Matching(children, segments[0], matches);
      var folders := OnlyFolders(matching);
      ChainsByFolders(list, matches, id, segments);
      var p, q := ChainsFromInOrder(list, matches, folders, segments[1..], i, j);
      if p < q {
        var places := MatchingInFull(children, segments[0], matches);
        var among := FoldersInFull(matching);
        SelectedInOrder(children, matching, folders, places, among, p, q);
      }
      PrecedesFrom(list, id, Chains(list, matches, id, segments)[i], Chains(list, matches, id, segments)[j]);
    }
  }

  lemma {:induction false} PrecedesFrom(list: Lister, id: string, a: seq<Entry>, b: seq<Entry>)
    requires a != [] && b != []
    ensures (exists p, q :: ListedBefore(Children(list, id), p, q, a[0], b[0])) ==> Precedes(list, id, a, b)
    ensures a[0] == b[0] && Precedes(list, a[0].id, a[1..], b[1..]) ==> Precedes(list, id, a, b)
  {
  }

  lemma {:induction false} ChainsByFolders(list: Lister, matches: Matcher, id: string, segments: seq<string>)
    requires |segments| > 1
    ensures Chains(list, matches, id, segments) ==
            ChainsFrom(list, matches, OnlyFolders(Matching(Children(list, id), segments[0], matches)), segments[1..])
  {
    hide Matching, OnlyFolders, Children, ChainsFrom;
  }

  lemma {:induction false} OneSegmentInOrder(list: Lister, matches: Matcher, id: string, segments: seq<string>,
                                             i: nat, j: nat)
    requires |segments| == 1 && i < j < |Chains(list, matches, id, segments)|
    ensures Precedes(list, id, Chains(list, matches, id, segments)[i], Chains(list, matches, id, segments)[j])
  {
    var children := Children(list, id);
    var matching := Matching(children, segments[0], matches);
    var places := MatchingInFull(children, segments[0], matches);
    assert Chains(list, matches, id, segments)[i] == [matching[i]];
    assert Chains(list, matches, id, segments)[j] == [matching[j]];
    hide Chains, Matching, Children;
    assert ListedBefore(children, places[i], places[j], matching[i], matching[j]);
    PrecedesFrom(list, id, [matching[i]], [matching[j]]);
  }

  lemma {:induction false} SelectedInOrder(children: seq<Entry>, matching: seq<Entry>, folders: seq<Entry>,
                                           places: seq<nat>, among: seq<nat>, p: nat, q: nat)
    requires ArePlaces(places, matching, children) && ArePlaces(among, folders, matching) && p < q < |folders|
    ensures exists i, j :: ListedBefore(children, i, j, folders[p], folders[q])
  {
    assert ListedBefore(children, places[among[p]], places[among[q]], folders[p], folders[q]);
  }

  /** Two chains come from different folders in their order, or from one folder in the order below it. */
  lemma {:induction false} ChainsFromInOrder(list: Lister, matches: Matcher, folders: seq<Entry>, segments: seq<string>,
                                             i: nat, j: nat)
    returns (p: nat, q: nat)
    requires |segments| > 0 && i < j < |ChainsFrom(list, matches, folders, segments)|
    ensures var chains := ChainsFrom(list, matches, folders, segments);
      && |chains[i]| > 0 && |chains[j]| > 0 && p <= q < |folders|
      && chains[i][0] == folders[p] && chains[j][0] == folders[q]
      && (p == q ==> Precedes(list, folders[p].id, chains[i][1..], chains[j][1..]))
    decreases |segments|, |folders| + 1
  {
    hide ChainsFrom, Chains, Precedes, Under;
    var n := |folders| - 1;
    LastFolder(list, matches, folders, segments);
    var before, last := ChainsFrom(list, matches, folders[..n], segments), folders[n];
    var below := Chains(list, matches, last.id, segments);
    if j < |before| {
      p, q := ChainsFromInOrder(list, matches, folders[..n], segments, i, j);
    } else {
      q := n;
      UnderAt(last, below, j - |before|);
      if i < |before| {
        p := ChainsStartIn(list, matches, folders[..n], segments, i);
      } else {
        p := n;
        UnderAt(last, below, i - |before|);
        ChainsInOrder(list, matches, last.id, segments, i - |before|, j - |before|);
      }
    }
  }

  lemma {:induction false} LastFolder(list: Lister, matches: Matcher, folders: seq<Entry>, segments: seq<string>)
    requires |segments| > 0
    ensures folders == [] ==> ChainsFrom(list, matches, folders, segments) == []
    ensures folders != [] ==>
      var n := |folders| - 1;
      var before := ChainsFrom(list, matches, folders[..n], segments);
      var below := Chains(list, matches, folders[n].id, segments);
      var chains := ChainsFrom(list, matches, folders, segments);
      && |chains| == |before| + |below|
      && (forall i | 0 <= i < |before| :: chains[i] == before[i])
      && (forall i | |before| <= i < |chains| :: chains[i] == Under(folders[n], below)[i - |before|])
  {
    hide Chains, Under;
    if folders != [] {
      var n := |folders| - 1;
      var before := ChainsFrom(list, matches, folders[..n], segments);
      var below := Chains(list, matches, folders[n].id, segments);
      var chains := ChainsFrom(list, matches, folders, segments);
      assert chains == before + Under(folders[n], below);
      hide ChainsFrom;
    }
  }

  lemma {:induction false} UnderAt(folder: Entry, chains: seq<seq<Entry>>, i: nat)
    requires i < |chains|
    ensures |Under(folder, chains)| == |chains| && |Under(folder, chains)[i]| > 0
    ensures Under(folder, chains)[i][0] == folder && Under(folder, chains)[i][1..] == chains[i]
  {
  }

  lemma {:induction false} ChainsStartIn(list: Lister, matches: Matcher, folders: seq<Entry>, segments: seq<string>,
                                         i: nat)
    returns (p: nat)
    requires |segments| > 0 && i < |ChainsFrom(list, matches, folders, segments)|
    ensures var chain := ChainsFrom(list, matches, folders, segments)[i];
      |chain| > 0 && p < |folders| && chain[0] == folders[p]
  {
    var chain := ChainsFrom(list, matches, folders, segments)[i];
    assert chain in ChainsFrom(list, matches, folders, segments);
    ChainsFromAreAll(list, matches, folders, segments, chain);
    hide ChainsFrom, IsGlobChain;
    p :| 0 <= p < |folders| && folders[p] == chain[0];
  }
}
