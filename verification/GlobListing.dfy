/**
 Expanding a glob over the device's folders (cmd/dp/selectors.go): level by level in the code, by recursion here in
 its meaning. Folding, matching one segment, and the device's listings are parameters.
 */
module GlobListing {
  import opened Results
  import opened Text
  import opened DeviceTree
  import opened Sorting
  import opened Reachability

  const GLOB_LIMIT := "glob search exceeds the 10000-object safety limit"
  const ONE_SLASH := "device globs may have only one leading /"
  const NO_OBJECT := "glob pattern must name a device object"
  const BAD_SEGMENT := "invalid glob path segment"
  const BAD_PATTERN := "invalid glob pattern"
  const INTERNAL_PREFIX := "device globs must omit the internal Document/ prefix"
  const NO_MATCH := "nothing matches glob"

  /** path.Match(pattern, fold(name)); no value for a malformed pattern. */
  type Matcher = (string, string) -> Option<bool>

  /** strings.Split(s, "/"). */
  function Split(s: string): (r: seq<string>)
    ensures |r| > 0
  {
    if s == "" then [""]
    else if s[0] == '/' then [""] + Split(s[1..])
    else var rest := Split(s[1..]); [[s[0]] + rest[0]] + rest[1..]
  }

  function Joined(segments: seq<string>): string
    requires |segments| > 0
  {
    if |segments| == 1 then segments[0] else segments[0] + "/" + Joined(segments[1..])
  }

  /** The segments of a split make up the string and are free of slashes. */
  lemma {:induction false} SplitIsPath(s: string)
    ensures Joined(Split(s)) == s
    ensures forall segment | segment in Split(s) :: '/' !in segment
  {
    SplitRejoins(s);
    SplitHasNoSlash(s);
  }

  lemma {:induction false} SplitRejoins(s: string)
    ensures Joined(Split(s)) == s
  {
    if s != "" {
      var rest := Split(s[1..]);
      SplitRejoins(s[1..]);
      assert s == [s[0]] + s[1..];
      if s[0] == '/' {
        assert Split(s)[1..] == rest;
      } else {
        FirstLonger(s[0], rest);
      }
    }
  }

  lemma {:induction false} FirstLonger(c: char, rest: seq<string>)
    requires |rest| > 0
    ensures Joined([[c] + rest[0]] + rest[1..]) == [c] + Joined(rest)
  {
    var longer := [[c] + rest[0]] + rest[1..];
    assert longer[1..] == rest[1..];
    if |rest| > 1 {
      assert [c] + rest[0] + "/" + Joined(rest[1..]) == [c] + (rest[0] + "/" + Joined(rest[1..]));
    }
  }

  lemma {:induction false} SplitHasNoSlash(s: string)
    ensures forall segment | segment in Split(s) :: '/' !in segment
  {
    if s != "" {
      SplitHasNoSlash(s[1..]);
      assert Split(s[1..])[0] in Split(s[1..]);
    }
  }

  /** The entries whose folded name matches, in order. */
  function Matching(entries: seq<Entry>, segment: string, matches: Matcher): (r: seq<Entry>)
    ensures forall e :: e in r <==> e in entries && matches(segment, e.name) == Some(true)
  {
    if entries == [] then [] else
      assert entries == entries[..|entries| - 1] + [entries[|entries| - 1]];
      var last := entries[|entries| - 1];
      var before := Matching(entries[..|entries| - 1], segment, matches);
      if matches(segment, last.name) == Some(true) then before + [last] else before
  }

  function OnlyFolders(entries: seq<Entry>): (r: seq<Entry>)
    ensures forall e :: e in r <==> e in entries && e.kind == FolderEntry
  {
    if entries == [] then [] else
      assert entries == entries[..|entries| - 1] + [entries[|entries| - 1]];
      var last := entries[|entries| - 1];
      var before := OnlyFolders(entries[..|entries| - 1]);
      if last.kind == FolderEntry then before + [last] else before
  }

  lemma {:induction false} OnlyFoldersOfBoth(a: seq<Entry>, b: seq<Entry>)
    ensures OnlyFolders(a + b) == OnlyFolders(a) + OnlyFolders(b)
    decreases |b|
  {
    if b == [] {
      assert a + b == a;
    } else {
      OnlyFoldersOfBoth(a, b[..|b| - 1]);
      assert (a + b)[..|a + b| - 1] == a + b[..|b| - 1];
    }
  }

  lemma {:induction false} NoFolders()
    ensures OnlyFolders([]) == []
  {
  }

  /** What a search comes to: the entries found, how many were listed for it, and that nothing failed on the way. */
  datatype Found = Found(entries: seq<Entry>, listed: nat, legal: bool) {
    function And(other: Found): Found {
      Found(entries + other.entries, listed + other.listed, legal && other.legal)
    }
  }

  ghost predicate LegalFolder(list: Lister, matches: Matcher, id: string, segment: string) {
    list(0, id).Ok? && forall e | e in list(0, id).value :: matches(segment, e.name) != None
  }

  /** The meaning of a glob below a folder: depth first, folder by folder. */
  ghost function Search(list: Lister, matches: Matcher, id: string, segments: seq<string>): Found
    requires |segments| > 0
    decreases |segments|, 0
  {
    var children := Children(list, id);
    var matching := Matching(children, segments[0], matches);
    var legal := LegalFolder(list, matches, id, segments[0]);
    if |segments| == 1 then Found(matching, |children|, legal)
    else Found([], |children|, legal).And(SearchAll(list, matches, OnlyFolders(matching), segments[1..]))
  }

  ghost function SearchAll(list: Lister, matches: Matcher, folders: seq<Entry>, segments: seq<string>): Found
    requires |segments| > 0
    decreases |segments|, |folders| + 1
  {
    if folders == [] then Found([], 0, true)
    else
      var last := folders[|folders| - 1];
      SearchAll(list, matches, folders[..|folders| - 1], segments).And(Search(list, matches, last.id, segments))
  }

  lemma {:induction false} SearchBoth(list: Lister, matches: Matcher, a: seq<Entry>, b: seq<Entry>,
                                      segments: seq<string>)
    requires |segments| > 0
    ensures SearchAll(list, matches, a + b, segments) ==
            SearchAll(list, matches, a, segments).And(SearchAll(list, matches, b, segments))
    decreases |b|
  {
    hide Search;
    if b == [] {
      assert a + b == a;
    } else {
      SearchBoth(list, matches, a, b[..|b| - 1], segments);
      assert (a + b)[..|a + b| - 1] == a + b[..|b| - 1];
      AndAssociative(SearchAll(list, matches, a, segments), SearchAll(list, matches, b[..|b| - 1], segments),
                     Search(list, matches, b[|b| - 1].id, segments));
    }
  }

  lemma {:induction false} AndAssociative(a: Found, b: Found, c: Found)
    ensures a.And(b).And(c) == a.And(b.And(c))
  {
    assert a.entries + b.entries + c.entries == a.entries + (b.entries + c.entries);
  }

  /** What one level of the code's loop comes to. */
  ghost function LevelEntries(list: Lister, matches: Matcher, folders: seq<Entry>, segment: string): seq<Entry> {
    if folders == [] then [] else
      LevelEntries(list, matches, folders[..|folders| - 1], segment) +
      Matching(Children(list, folders[|folders| - 1].id), segment, matches)
  }

  ghost function LevelListed(list: Lister, folders: seq<Entry>): nat {
    if folders == [] then 0 else
      LevelListed(list, folders[..|folders| - 1]) + |Children(list, folders[|folders| - 1].id)|
  }

  ghost predicate LegalLevel(list: Lister, matches: Matcher, folders: seq<Entry>, segment: string) {
    forall i | 0 <= i < |folders| :: LegalFolder(list, matches, folders[i].id, segment)
  }

  lemma {:induction false} ListedGrows(list: Lister, folders: seq<Entry>, k: nat)
    requires k <= |folders|
    ensures LevelListed(list, folders[..k]) <= LevelListed(list, folders)
    decreases |folders|
  {
    if k == |folders| {
      assert folders[..k] == folders;
    } else {
      assert folders[..|folders| - 1][..k] == folders[..k];
      ListedGrows(list, folders[..|folders| - 1], k);
    }
  }

  /** Searching folders for the last segment is one level. */
  lemma {:induction false} LastLevel(list: Lister, matches: Matcher, folders: seq<Entry>, segment: string)
    ensures SearchAll(list, matches, folders, [segment]) ==
            Found(LevelEntries(list, matches, folders, segment), LevelListed(list, folders),
                  LegalLevel(list, matches, folders, segment))
  {
    hide LegalFolder, Matching;
    if folders != [] {
      var before := folders[..|folders| - 1];
      LastLevel(list, matches, before, segment);
      LegalLonger(list, matches, folders, segment);
    }
  }

  /** Searching folders is one level, and then searching the folders found in it. */
  lemma {:induction false} InnerLevel(list: Lister, matches: Matcher, folders: seq<Entry>, segments: seq<string>)
    requires |segments| > 1
    ensures SearchAll(list, matches, folders, segments) ==
            Found([], LevelListed(list, folders), LegalLevel(list, matches, folders, segments[0])).And(
              SearchAll(list, matches, OnlyFolders(LevelEntries(list, matches, folders, segments[0])), segments[1..]))
    decreases |folders|
  {
    hide OnlyFolders, Matching, LegalFolder, Search, SearchAll, LevelEntries, LevelListed, LegalLevel;
    var segment, rest := segments[0], segments[1..];
    if folders == [] {
      NoFolders();
      NoFolderToSearch(list, matches, segments);
      NoFolderToSearch(list, matches, rest);
      NoLevel(list, matches, segment);
    } else {
      var before, last := folders[..|folders| - 1], folders[|folders| - 1];
      InnerLevel(list, matches, before, segments);
      LegalLonger(list, matches, folders, segment);
      var level := LevelEntries(list, matches, before, segment);
      var more := Matching(Children(list, last.id), segment, matches);
      OnlyFoldersOfBoth(level, more);
      SearchBoth(list, matches, OnlyFolders(level), OnlyFolders(more), rest);
      OneMore(list, matches, folders, segments);
    }
  }

  lemma {:induction false} NoFolderToSearch(list: Lister, matches: Matcher, segments: seq<string>)
    requires |segments| > 0
    ensures SearchAll(list, matches, [], segments) == Found([], 0, true)
  {
  }

  lemma {:induction false} NoLevel(list: Lister, matches: Matcher, segment: string)
    ensures LevelEntries(list, matches, [], segment) == []
    ensures LevelListed(list, []) == 0
    ensures LegalLevel(list, matches, [], segment)
  {
  }

  lemma {:induction false} OneMore(list: Lister, matches: Matcher, folders: seq<Entry>, segments: seq<string>)
    requires |segments| > 1 && folders != []
    ensures var before, id := folders[..|folders| - 1], folders[|folders| - 1].id;
      var children := Children(list, id);
      var matching := Matching(children, segments[0], matches);
      && SearchAll(list, matches, folders, segments) ==
         SearchAll(list, matches, before, segments).And(
           Found([], |children|, LegalFolder(list, matches, id, segments[0])).And(
             SearchAll(list, matches, OnlyFolders(matching), segments[1..])))
      && LevelEntries(list, matches, folders, segments[0]) ==
           LevelEntries(list, matches, before, segments[0]) + matching
      && LevelListed(list, folders) == LevelListed(list, before) + |children|
  {
    hide OnlyFolders, Matching, LegalFolder;
  }

  lemma {:induction false} LegalLonger(list: Lister, matches: Matcher, folders: seq<Entry>, segment: string)
    requires folders != []
    ensures LegalLevel(list, matches, folders, segment) <==>
            LegalLevel(list, matches, folders[..|folders| - 1], segment) &&
            LegalFolder(list, matches, folders[|folders| - 1].id, segment)
  {
    hide LegalFolder;
    var before := folders[..|folders| - 1];
    if LegalLevel(list, matches, before, segment) && LegalFolder(list, matches, folders[|folders| - 1].id, segment) {
      forall i | 0 <= i < |folders|
        ensures LegalFolder(list, matches, folders[i].id, segment)
      {
        assert i < |before| ==> before[i] == folders[i];
      }
    }
    if LegalLevel(list, matches, folders, segment) {
      forall i | 0 <= i < |before|
        ensures LegalFolder(list, matches, before[i].id, segment)
      {
        assert before[i] == folders[i];
      }
    }
  }

  /** The error of a listing, or of a match. */
  ghost predicate Reported(list: Lister, error: string) {
    error == BAD_PATTERN || exists id :: list(0, id) == Err(error)
  }

  /**
   One level of globDevice: the loop over the folders, and in it the loop over their children. The calls of the list
   function are numbered from `calls` on, and it may answer differently each time; only what a level comes to supposes
   that it does not.
   */
  method ListLevel(list: Lister, matches: Matcher, folders: seq<Entry>, segment: string, last: bool, visited: nat,
                   calls: nat)
    returns (error: Option<string>, visitedEntries: nat, calls': nat, matched: seq<Entry>, nextFolders: seq<Entry>)
    requires visited <= MAXIMUM_GLOB_ENTRIES
    ensures calls' <= calls + |folders|
    ensures error == None ==>
      visitedEntries <= MAXIMUM_GLOB_ENTRIES && visited + |matched| + |nextFolders| <= visitedEntries
    ensures Fixed(list) ==>
      && (error == None <==>
            LegalLevel(list, matches, folders, segment) && visited + LevelListed(list, folders) <= MAXIMUM_GLOB_ENTRIES)
      && (error == None ==> visitedEntries == visited + LevelListed(list, folders))
      && (error == None && last ==> matched == LevelEntries(list, matches, folders, segment))
      && (error == None && !last ==> nextFolders == OnlyFolders(LevelEntries(list, matches, folders, segment)))
      && (error != None ==>
            || (error.value == GLOB_LIMIT && visited + LevelListed(list, folders) > MAXIMUM_GLOB_ENTRIES)
            || (!LegalLevel(list, matches, folders, segment) && Reported(list, error.value)))
  {
    hide LevelEntries, LevelListed, LegalLevel, OnlyFolders, Fixed;
    visitedEntries, calls', matched, nextFolders := visited, calls, [], [];
    NoLevel(list, matches, segment);
    NoFolders();
    for k := 0 to |folders|
      invariant calls' == calls + k && visitedEntries <= MAXIMUM_GLOB_ENTRIES
      invariant visited + |matched| + |nextFolders| <= visitedEntries
      invariant Fixed(list) ==> LegalLevel(list, matches, folders[..k], segment)
      invariant Fixed(list) ==> visitedEntries == visited + LevelListed(list, folders[..k])
      invariant Fixed(list) && last ==> matched == LevelEntries(list, matches, folders[..k], segment)
      invariant Fixed(list) && !last ==> nextFolders == OnlyFolders(LevelEntries(list, matches, folders[..k], segment))
    {
      LevelStep(list, matches, folders, segment, k);
      var answer := list(calls', folders[k].id);
      FixedAnswer(list, calls', folders[k].id);
      calls' := calls' + 1;
      if answer.Err? {
        return Some(answer.error), visitedEntries, calls', matched, nextFolders;
      }
      var children := answer.value;
      visitedEntries := visitedEntries + |children|;
      if visitedEntries > MAXIMUM_GLOB_ENTRIES {
        return Some(GLOB_LIMIT), visitedEntries, calls', matched, nextFolders;
      }
      OnlyFoldersOfBoth(LevelEntries(list, matches, folders[..k], segment), Matching(children, segment, matches));
      var bad: bool;
      bad, matched, nextFolders := MatchChildren(children, matches, segment, last, matched, nextFolders);
      if bad {
        return Some(BAD_PATTERN), visitedEntries, calls', matched, nextFolders;
      }
    }
    assert folders[..|folders|] == folders;
    error := None;
  }

  lemma {:induction false} FixedAnswer(list: Lister, k: nat, id: string)
    ensures Fixed(list) ==> list(k, id) == list(0, id)
  {
  }

  lemma {:induction false} LevelStep(list: Lister, matches: Matcher, folders: seq<Entry>, segment: string, k: nat)
    requires k < |folders|
    ensures LevelEntries(list, matches, folders[..k + 1], segment) ==
            LevelEntries(list, matches, folders[..k], segment) +
            Matching(Children(list, folders[k].id), segment, matches)
    ensures LevelListed(list, folders[..k + 1]) == LevelListed(list, folders[..k]) + |Children(list, folders[k].id)|
    ensures LevelListed(list, folders[..k + 1]) <= LevelListed(list, folders)
    ensures LegalLevel(list, matches, folders[..k + 1], segment) <==>
            LegalLevel(list, matches, folders[..k], segment) && LegalFolder(list, matches, folders[k].id, segment)
    ensures LegalLevel(list, matches, folders, segment) ==> LegalFolder(list, matches, folders[k].id, segment)
  {
    hide LegalFolder, Matching, Children;
    var before := folders[..k + 1];
    assert before[..k] == folders[..k] && before[k] == folders[k];
    LegalLonger(list, matches, before, segment);
    ListedGrows(list, folders, k + 1);
  }

  /** The loop over one folder's children. */
  method MatchChildren(children: seq<Entry>, matches: Matcher, segment: string, last: bool, matched: seq<Entry>,
                       nextFolders: seq<Entry>)
    returns (bad: bool, matched': seq<Entry>, nextFolders': seq<Entry>)
    ensures bad <==> exists e | e in children :: matches(segment, e.name) == None
    ensures |matched'| + |nextFolders'| <= |matched| + |nextFolders| + |children|
    ensures !bad && last ==> matched' == matched + Matching(children, segment, matches)
    ensures !bad && !last ==> nextFolders' == nextFolders + OnlyFolders(Matching(children, segment, matches))
  {
    hide Matching, OnlyFolders;
    bad, matched', nextFolders' := false, matched, nextFolders;
    NothingMatches(segment, matches);
    for j := 0 to |children|
      invariant |matched'| + |nextFolders'| <= |matched| + |nextFolders| + j
      invariant forall i | 0 <= i < j :: matches(segment, children[i].name) != None
      invariant last ==> matched' == matched + Matching(children[..j], segment, matches)
      invariant !last ==> nextFolders' == nextFolders + OnlyFolders(Matching(children[..j], segment, matches))
    {
      var child := children[j];
      MatchingStep(children, segment, matches, j);
      var answer := matches(segment, child.name);
      if answer == None {
        assert child in children;
        return true, matched', nextFolders';
      }
      if !answer.value {
        continue;
      }
      if last {
        matched' := matched' + [child];
      } else if child.kind == FolderEntry {
        nextFolders' := nextFolders' + [child];
      }
    }
    assert children[..|children|] == children;
  }

  lemma {:induction false} NothingMatches(segment: string, matches: Matcher)
    ensures Matching([], segment, matches) == [] && OnlyFolders(Matching([], segment, matches)) == []
  {
  }

  lemma {:induction false} MatchingStep(entries: seq<Entry>, segment: string, matches: Matcher, k: nat)
    requires k < |entries|
    ensures var before, e := Matching(entries[..k], segment, matches), entries[k];
      var found := matches(segment, e.name) == Some(true);
      && Matching(entries[..k + 1], segment, matches) == before + (if found then [e] else [])
      && OnlyFolders(Matching(entries[..k + 1], segment, matches)) ==
           OnlyFolders(before) + (if found && e.kind == FolderEntry then [e] else [])
  {
    assert entries[..k + 1][..k] == entries[..k];
    var before := Matching(entries[..k], segment, matches);
    assert (before + [entries[k]])[..|before|] == before;
  }

  /** The segments of a glob, or why it is refused. */
  function GlobSegments(pattern: string, wellFormed: string -> bool, isDocument: string -> bool)
    : (r: Result<seq<string>>)
    ensures r.Ok? ==> |r.value| > 0
    ensures r.Ok? ==>
      forall segment | segment in r.value :: segment !in {"", ".", ".."} && '/' !in segment && wellFormed(segment)
  {
    if HasPrefix(pattern, "//") then Err(ONE_SLASH) else
      var relative := TrimRootRelative(if HasPrefix(pattern, "/") then pattern[1..] else pattern);
      if relative == "" then Err(NO_OBJECT) else
        var segments := Split(relative);
        var refusal := Refusal(segments, wellFormed);
        if refusal != None then Err(refusal.value)
        else if isDocument(segments[0]) then Err(INTERNAL_PREFIX)
        else SplitIsPath(relative); Ok(segments)
  }

  function TrimRootRelative(value: string): string {
    if HasPrefix(value, "./") then TrimRootRelative(value[2..]) else value
  }

  function Refusal(segments: seq<string>, wellFormed: string -> bool): (r: Option<string>)
    ensures r == None <==> forall segment | segment in segments :: segment !in {"", ".", ".."} && wellFormed(segment)
  {
    if segments == [] then None else
    assert segments[0] in segments;
    assert forall segment :: segment in segments <==> segment == segments[0] || segment in segments[1..];
    if segments[0] in {"", ".", ".."} then Some(BAD_SEGMENT)
    else if !wellFormed(segments[0]) then Some(BAD_PATTERN)
    else Refusal(segments[1..], wellFormed)
  }

  /**
   globDevice. Whatever the list function does, it is called at most 10001 times. If it is fixed, then on success the
   result is what the recursive search gives, entry for entry; and the call succeeds exactly when the pattern is
   accepted, the root resolves, no listing or match on the way fails and at most 10000 entries are listed.
   */
  method GlobDevice(pattern: string, wellFormed: string -> bool, isDocument: string -> bool, matches: Matcher,
                    resolvedRoot: Result<Entry>, list: Lister)
    returns (r: Result<seq<Entry>>, calls: nat)
    ensures calls <= 10001
    ensures r.Ok? ==> |r.value| <= 10000
    ensures var segments := GlobSegments(pattern, wellFormed, isDocument);
      if segments.Err? then r == Err(segments.error)
      else if resolvedRoot.Err? then r == Err(resolvedRoot.error)
      else
        var found := Search(list, matches, resolvedRoot.value.id, segments.value);
        Fixed(list) ==>
          && (r.Ok? <==> found.legal && found.listed <= 10000)
          && (r.Ok? ==> r.value == found.entries)
          && (r.Err? ==>
                || (r.error == GLOB_LIMIT && found.listed > 10000)
                || (!found.legal && Reported(list, r.error)))
  {
    hide Search, LevelListed, LevelEntries, LegalLevel, GlobSegments, OnlyFolders, Fixed, Reported;
    calls := 0;
    var parsed := GlobSegments(pattern, wellFormed, isDocument);
    if parsed.Err? {
      return Err(parsed.error), calls;
    }
    if resolvedRoot.Err? {
      return Err(resolvedRoot.error), calls;
    }
    var segments, root := parsed.value, resolvedRoot.value;
    ghost var found := Search(list, matches, root.id, segments);
    var folders := [root];
    var visitedEntries: nat := 0;
    OneFolder(list, matches, root, segments);
    for index := 0 to |segments|
      invariant visitedEntries <= MAXIMUM_GLOB_ENTRIES && calls + |folders| <= 1 + visitedEntries
      invariant index < |segments|
      invariant Fixed(list) ==>
        found == Found([], visitedEntries, true).And(SearchAll(list, matches, folders, segments[index..]))
    {
      hide SearchAll;
      var last := index == |segments| - 1;
      var error, visited, matched, nextFolders;
      error, visited, calls, matched, nextFolders :=
        ListLevel(list, matches, folders, segments[index], last, visitedEntries, calls);
      if last {
        assert segments[index..] == [segments[index]];
        LastLevel(list, matches, folders, segments[index]);
      } else {
        assert segments[index..][1..] == segments[index + 1..];
        InnerLevel(list, matches, folders, segments[index..]);
      }
      if error != None {
        return Err(error.value), calls;
      }
      if last {
        return Ok(matched), calls;
      }
      visitedEntries, folders := visited, nextFolders;
      if |folders| == 0 {
        NoFolderToSearch(list, matches, segments[index + 1..]);
        return Ok([]), calls;
      }
    }
    assert false;
    return Ok([]), calls;
  }

  lemma {:induction false} OneFolder(list: Lister, matches: Matcher, folder: Entry, segments: seq<string>)
    requires |segments| > 0
    ensures Search(list, matches, folder.id, segments) ==
            Found([], 0, true).And(SearchAll(list, matches, [folder], segments[0..]))
  {
    hide Search;
    assert segments[0..] == segments;
    assert SearchAll(list, matches, [], segments) == Found([], 0, true);
    assert [folder][..0] == [];
  }

  predicate Wanted(e: Entry, directoryOnly: bool, expected: Option<EntryType>) {
    (directoryOnly ==> e.kind == FolderEntry) && (expected == None || e.kind == expected.value)
  }

  /** The entries that are wanted, in order. */
  function Kept(entries: seq<Entry>, directoryOnly: bool, expected: Option<EntryType>): (r: seq<Entry>)
    ensures |r| <= |entries|
    ensures forall e :: e in r <==> e in entries && Wanted(e, directoryOnly, expected)
  {
    if entries == [] then [] else
      assert entries == entries[..|entries| - 1] + [entries[|entries| - 1]];
      var last := entries[|entries| - 1];
      var before := Kept(entries[..|entries| - 1], directoryOnly, expected);
      if Wanted(last, directoryOnly, expected) then before + [last] else before
  }

  /** The filter of resolveGlobObjects, which writes into the slice that it reads. */
  method Filter(entries: array<Entry>, directoryOnly: bool, expected: Option<EntryType>) returns (n: nat)
    modifies entries
    ensures n <= entries.Length && entries[..n] == Kept(old(entries[..]), directoryOnly, expected)
  {
    hide Kept;
    n := 0;
    ghost var before := entries[..];
    ghost var kept: seq<Entry> := [];
    NothingKept(directoryOnly, expected);
    for k := 0 to entries.Length
      invariant n == |kept| <= k && kept == Kept(before[..k], directoryOnly, expected)
      invariant forall i | 0 <= i < n :: entries[i] == kept[i]
      invariant forall i | k <= i < entries.Length :: entries[i] == before[i]
    {
      KeptStep(before, k, directoryOnly, expected);
      var entry := entries[k];
      if directoryOnly && entry.kind != FolderEntry {
        continue;
      }
      if expected == None || entry.kind == expected.value {
        entries[n] := entry;
        n, kept := n + 1, kept + [entry];
      }
    }
    assert before[..entries.Length] == before;
  }

  lemma {:induction false} NothingKept(directoryOnly: bool, expected: Option<EntryType>)
    ensures Kept([], directoryOnly, expected) == []
  {
  }

  lemma {:induction false} KeptStep(entries: seq<Entry>, k: nat, directoryOnly: bool, expected: Option<EntryType>)
    requires k < |entries|
    ensures Kept(entries[..k + 1], directoryOnly, expected) ==
            Kept(entries[..k], directoryOnly, expected) +
            if Wanted(entries[k], directoryOnly, expected) then [entries[k]] else []
  {
    assert entries[..k + 1][..k] == entries[..k];
  }

  /** devicePathString */
  function DevicePathString(path: string): string {
    if path == ROOT_PATH then "/"
    else "/" + if HasPrefix(path, ROOT_PATH + "/") then path[|ROOT_PATH| + 1..] else path
  }

  predicate DevicePathLess(a: Entry, b: Entry) {
    StringLess(DevicePathString(a.path), DevicePathString(b.path))
  }

  /** The order of displayed paths is one that sorting needs, so what is sorted by it is in its order. */
  lemma {:induction false} SortedByDevicePath(entries: seq<Entry>)
    ensures SortedBy(StableSort(entries, DevicePathLess), DevicePathLess)
  {
    hide DevicePathString, StableSort, SortedBy;
    forall a: Entry, b: Entry, c: Entry
      ensures !DevicePathLess(a, a)
      ensures DevicePathLess(a, b) && DevicePathLess(b, c) ==> DevicePathLess(a, c)
      ensures !DevicePathLess(a, b) && !DevicePathLess(b, c) ==> !DevicePathLess(a, c)
    {
      StringLessIrreflexive(DevicePathString(a.path));
      StringLessTransitive(DevicePathString(a.path), DevicePathString(b.path), DevicePathString(c.path));
    }
    assert StrictWeakOrder(DevicePathLess);
    StableSortSorts(entries, DevicePathLess);
  }

  function TrimRight(value: string): string {
    if value != "" && value[|value| - 1] == '/' then TrimRight(value[..|value| - 1]) else value
  }

  /**
   resolveGlobObjects: the entries that the glob finds and that are wanted, sorted by displayed path. Nothing found is a
   failure.
   */
  method ResolveGlobObjects(value: string, expected: Option<EntryType>, fold: string -> string,
                            pathMatch: (string, string) -> Option<bool>, isDocument: string -> bool,
                            resolvedRoot: Result<Entry>, list: Lister)
    returns (r: Result<seq<Entry>>)
    ensures var directoryOnly := value != "" && value[|value| - 1] == '/';
      var pattern := fold(TrimRight(value));
      var wellFormed := segment => pathMatch(segment, "") != None;
      var matches := (segment, name) => pathMatch(segment, fold(name));
      var segments := GlobSegments(pattern, wellFormed, isDocument);
      if directoryOnly && TrimRight(value) == "" then r == Err(NO_OBJECT)
      else if !wellFormed(pattern) then r == Err(BAD_PATTERN)
      else if segments.Err? then r == Err(segments.error)
      else if resolvedRoot.Err? then r == Err(resolvedRoot.error)
      else
        var found := Search(list, matches, resolvedRoot.value.id, segments.value);
        var kept := Kept(found.entries, directoryOnly, expected);
        Fixed(list) ==>
          && (r.Ok? <==> found.legal && found.listed <= 10000 && kept != [])
          && (r.Ok? ==> r.value == StableSort(kept, DevicePathLess))
  {
    hide Search, GlobSegments, Kept, StableSort, Reported, Fixed;
    var directoryOnly := value != "" && value[|value| - 1] == '/';
    var value := TrimRight(value);
    if directoryOnly && value == "" {
      return Err(NO_OBJECT);
    }
    var pattern := fold(value);
    var wellFormed := segment => pathMatch(segment, "") != None;
    if !wellFormed(pattern) {
      return Err(BAD_PATTERN);
    }
    var globbed, _ := GlobDevice(pattern, wellFormed, isDocument, (segment, name) => pathMatch(segment, fold(name)),
                              resolvedRoot, list);
    if globbed.Err? {
      return globbed;
    }
    var entries := new Entry[|globbed.value|](i requires 0 <= i < |globbed.value| => globbed.value[i]);
    assert entries[..] == globbed.value;
    var n := Filter(entries, directoryOnly, expected);
    if n == 0 {
      return Err(NO_MATCH);
    }
    var filtered := new Entry[n](i requires 0 <= i < n <= entries.Length reads entries => entries[i]);
    assert filtered[..] == entries[..n];
    SortSlice(filtered, DevicePathLess);
    return Ok(filtered[..]);
  }
}
