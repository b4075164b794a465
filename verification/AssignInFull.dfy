/**
 What Assign makes of the records of a file (profiles/object_references.go), said from the file, the entries and the
 outcome alone: every number, device, kind and place, when anything changes, and when it is refused.
 */
module AssignInFull {
  import opened Results
  import opened Text
  import opened Sorting
  import opened References
  import opened ReferenceFile

  /** No later entry is about the same device. */
  ghost predicate IsLast(entries: seq<Seen>, k: nat) {
    k < |entries| && forall j | k < j < |entries| :: entries[j].id != entries[k].id
  }

  ghost predicate Knows(objects: seq<Record>, id: string) {
    exists i | 0 <= i < |objects| :: objects[i].deviceId == id
  }

  ghost predicate Mentions(entries: seq<Seen>, id: string) {
    exists k | 0 <= k < |entries| :: entries[k].id == id
  }

  /** The devices among the entries that the file does not know. */
  ghost function NewIds(objects: seq<Record>, entries: seq<Seen>): set<string> {
    set e | e in entries && !Knows(objects, e.id) :: e.id
  }

  /** The records there were have stayed where they were, with their numbers and devices. */
  ghost predicate OldStay(f: File, g: File) {
    && |f.objects| <= |g.objects|
    && forall i | 0 <= i < |f.objects| ::
         g.objects[i].number == f.objects[i].number && g.objects[i].deviceId == f.objects[i].deviceId
  }

  /** The others follow them, numbered on from `next`, one for each new device, in the order of first mention. */
  ghost predicate NewFollow(f: File, entries: seq<Seen>, g: File) {
    && |g.objects| == |f.objects| + |NewIds(f.objects, entries)|
    && g.next == f.next + |NewIds(f.objects, entries)| && g.schema == f.schema
    && (forall i | |f.objects| <= i < |g.objects| ::
          && g.objects[i].number == f.next + (i - |f.objects|)
          && !Knows(f.objects, g.objects[i].deviceId) && Mentions(entries, g.objects[i].deviceId))
    && (forall i, i', p | |f.objects| <= i < i' < |g.objects| && 0 <= p < |entries| ::
          entries[p].id == g.objects[i'].deviceId ==> Mentions(entries[..p], g.objects[i].deviceId))
  }

  /** A record has the kind of the last entry about its device, or the one it had if there is none. */
  ghost predicate KindsAreLast(f: File, entries: seq<Seen>, g: File)
    requires |f.objects| <= |g.objects|
  {
    && (forall i, k: nat | 0 <= i < |g.objects| && IsLast(entries, k) ::
          entries[k].id == g.objects[i].deviceId ==> g.objects[i].kind == entries[k].kind)
    && (forall i | 0 <= i < |f.objects| :: !Mentions(entries, f.objects[i].deviceId) ==> g.objects[i] == f.objects[i])
  }

  /** An entry is news: its device is new, or had another kind. */
  ghost predicate IsNews(f: File, e: Seen) {
    forall i | 0 <= i < |f.objects| :: f.objects[i].deviceId == e.id ==> f.objects[i].kind != e.kind
  }

  ghost predicate Assigns(f: File, entries: seq<Seen>, g: File, changed: bool) {
    && OldStay(f, g) && NewFollow(f, entries, g) && KindsAreLast(f, entries, g)
    && DistinctIds(g.objects) && (forall k | 0 <= k < |entries| :: Knows(g.objects, entries[k].id))
    && (changed <==> exists k | 0 <= k < |entries| :: IsNews(f, entries[k]))
  }

  // ---------- one entry more ----------

  lemma {:induction false} LastOfMore(entries: seq<Seen>, e: Seen)
    ensures IsLast(entries + [e], |entries|)
    ensures forall k: nat | k < |entries| ::
              IsLast(entries + [e], k) <==> IsLast(entries, k) && entries[k].id != e.id
  {
    var more := entries + [e];
    forall k: nat | k < |entries|
      ensures IsLast(more, k) <==> IsLast(entries, k) && entries[k].id != e.id
    {
      if IsLast(more, k) {
        assert more[|entries|].id != more[k].id;
        forall j | k < j < |entries|
          ensures entries[j].id != entries[k].id
        {
          assert more[j].id != more[k].id;
        }
      }
    }
  }

  lemma {:induction false} MentionsMore(entries: seq<Seen>, e: Seen, id: string)
    ensures Mentions(entries + [e], id) <==> Mentions(entries, id) || id == e.id
  {
    var more := entries + [e];
    assert more[|entries|] == e;
    if Mentions(entries, id) {
      var k :| 0 <= k < |entries| && entries[k].id == id;
      assert more[k].id == id;
    }
  }

  lemma {:induction false} NewIdsOfMore(objects: seq<Record>, entries: seq<Seen>, e: Seen)
    ensures NewIds(objects, entries + [e]) == NewIds(objects, entries) + if Knows(objects, e.id) then {} else {e.id}
    ensures e.id in NewIds(objects, entries) <==> !Knows(objects, e.id) && Mentions(entries, e.id)
  {
    assert forall x :: x in entries + [e] <==> x in entries || x == e;
    if Mentions(entries, e.id) && !Knows(objects, e.id) {
      var k :| 0 <= k < |entries| && entries[k].id == e.id;
      assert entries[k] in entries;
    }
  }

  lemma {:induction false} FindKnows(objects: seq<Record>, id: string)
    ensures Find(objects, id).Some? <==> Knows(objects, id)
  {
    if Knows(objects, id) {
      var i :| 0 <= i < |objects| && objects[i].deviceId == id;
      assert objects[i] in objects;
    }
  }

  /** The turn that finds the device: its record gets the kind of the entry. */
  lemma {:induction false} KnownEntry(f: File, entries: seq<Seen>, g: File, changed: bool, e: Seen, index: nat)
    requires Assigns(f, entries, g, changed) && DistinctIds(f.objects)
    requires index < |g.objects| && g.objects[index].deviceId == e.id
    ensures var g' := g.(objects := g.objects[index := g.objects[index].(kind := e.kind)]);
      Assigns(f, entries + [e], g', changed || g.objects[index].kind != e.kind)
  {
    var g' := g.(objects := g.objects[index := g.objects[index].(kind := e.kind)]);
    assert g'.objects[index].deviceId == e.id;
    KnownIsOld(f, entries, g, e, index);
    FollowStays(f, entries, g, g', e);
    KindsOfKnown(f, entries, g, e, index);
    NewsOfKnown(f, entries, g, changed, e, index);
    AllKnown(entries, g.objects, g'.objects, e);
    hide NewFollow, KindsAreLast, IsNews, Knows;
    assert OldStay(f, g');
  }

  lemma {:induction false} AllKnown(entries: seq<Seen>, objects: seq<Record>, objects': seq<Record>, e: Seen)
    requires forall k | 0 <= k < |entries| :: Knows(objects, entries[k].id)
    requires |objects| <= |objects'| && Knows(objects', e.id)
    requires forall i | 0 <= i < |objects| :: objects'[i].deviceId == objects[i].deviceId
    ensures forall k | 0 <= k < |entries + [e]| :: Knows(objects', (entries + [e])[k].id)
  {
    forall k | 0 <= k < |entries|
      ensures Knows(objects', entries[k].id)
    {
      var i :| 0 <= i < |objects| && objects[i].deviceId == entries[k].id;
      assert objects'[i].deviceId == entries[k].id;
    }
  }

  lemma {:induction false} KnownIsOld(f: File, entries: seq<Seen>, g: File, e: Seen, index: nat)
    requires OldStay(f, g) && NewFollow(f, entries, g) && index < |g.objects| && g.objects[index].deviceId == e.id
    ensures Knows(f.objects, e.id) || Mentions(entries, e.id)
    ensures index < |f.objects| ==> Knows(f.objects, e.id)
    ensures index >= |f.objects| ==> !Knows(f.objects, e.id) && Mentions(entries, e.id)
  {
    if index < |f.objects| {
      assert f.objects[index].deviceId == e.id;
    }
  }

  lemma {:induction false} FollowStays(f: File, entries: seq<Seen>, g: File, g': File, e: Seen)
    requires OldStay(f, g) && NewFollow(f, entries, g) && |g'.objects| == |g.objects|
    requires g'.next == g.next && g'.schema == g.schema
    requires forall i | 0 <= i < |g.objects| ::
               g'.objects[i].deviceId == g.objects[i].deviceId && g'.objects[i].number == g.objects[i].number
    requires Knows(f.objects, e.id) || Mentions(entries, e.id)
    ensures NewFollow(f, entries + [e], g')
  {
    hide Knows, Mentions;
    var more := entries + [e];
    NewIdsOfMore(f.objects, entries, e);
    assert NewIds(f.objects, more) == NewIds(f.objects, entries);
    forall i | |f.objects| <= i < |g'.objects|
      ensures Mentions(more, g'.objects[i].deviceId)
    {
      MentionsMore(entries, e, g'.objects[i].deviceId);
    }
    forall i, i', p | |f.objects| <= i < i' < |g'.objects| && 0 <= p < |more| && more[p].id == g'.objects[i'].deviceId
      ensures Mentions(more[..p], g'.objects[i].deviceId)
    {
      if p < |entries| {
        assert more[..p] == entries[..p] && more[p] == entries[p];
      } else {
        assert more[..p] == entries;
      }
    }
  }

  lemma {:induction false} KindsOfKnown(f: File, entries: seq<Seen>, g: File, e: Seen, index: nat)
    requires OldStay(f, g) && KindsAreLast(f, entries, g) && DistinctIds(g.objects)
    requires index < |g.objects| && g.objects[index].deviceId == e.id
    ensures KindsAreLast(f, entries + [e], g.(objects := g.objects[index := g.objects[index].(kind := e.kind)]))
  {
    var g' := g.(objects := g.objects[index := g.objects[index].(kind := e.kind)]);
    var more := entries + [e];
    LastOfMore(entries, e);
    forall i, k: nat | 0 <= i < |g'.objects| && IsLast(more, k) && more[k].id == g'.objects[i].deviceId
      ensures g'.objects[i].kind == more[k].kind
    {
      if k == |entries| {
        assert i == index;
      } else {
        assert IsLast(entries, k) && i != index;
      }
    }
    forall i | 0 <= i < |f.objects| && !Mentions(more, f.objects[i].deviceId)
      ensures g'.objects[i] == f.objects[i]
    {
      MentionsMore(entries, e, f.objects[i].deviceId);
    }
  }

  lemma {:induction false} NewsOfKnown(f: File, entries: seq<Seen>, g: File, changed: bool, e: Seen, index: nat)
    requires Assigns(f, entries, g, changed) && DistinctIds(f.objects)
    requires index < |g.objects| && g.objects[index].deviceId == e.id
    ensures (changed || g.objects[index].kind != e.kind) <==>
            exists k | 0 <= k < |entries| + 1 :: IsNews(f, (entries + [e])[k])
  {
    var more := entries + [e];
    assert forall k | 0 <= k < |entries| :: more[k] == entries[k];
    if changed {
      var k :| 0 <= k < |entries| && IsNews(f, entries[k]);
      assert IsNews(f, more[k]);
    } else {
      NothingNew(f, entries, g, e, index);
      assert more[|entries|] == e;
      if exists k | 0 <= k < |more| :: IsNews(f, more[k]) {
        var k :| 0 <= k < |more| && IsNews(f, more[k]);
        assert k == |entries|;
      }
    }
  }

  /** As long as nothing is news, the records are those of the file. */
  lemma {:induction false} NothingNew(f: File, entries: seq<Seen>, g: File, e: Seen, index: nat)
    requires Assigns(f, entries, g, false) && DistinctIds(f.objects)
    requires index < |g.objects| && g.objects[index].deviceId == e.id
    ensures index < |f.objects| && g.objects[index] == f.objects[index]
    ensures IsNews(f, e) <==> g.objects[index].kind != e.kind
  {
    forall k | 0 <= k < |entries| && entries[k].id == e.id
      ensures Knows(f.objects, e.id)
    {
      assert !IsNews(f, entries[k]);
    }
    if Mentions(entries, e.id) {
      var k := LastMention(entries, e.id);
      assert !IsNews(f, entries[k]);
      var i :| 0 <= i < |f.objects| && f.objects[i].deviceId == e.id && f.objects[i].kind == entries[k].kind;
      assert i == index;
      assert g.objects[index].kind == entries[k].kind;
    }
  }

  lemma {:induction false} LastMention(entries: seq<Seen>, id: string) returns (k: nat)
    requires Mentions(entries, id)
    ensures IsLast(entries, k) && entries[k].id == id
  {
    var n := |entries| - 1;
    if entries[n].id == id {
      return n;
    }
    var j :| 0 <= j < |entries| && entries[j].id == id;
    assert entries[..n][j].id == id;
    k := LastMention(entries[..n], id);
    forall j | k < j < |entries|
      ensures entries[j].id != id
    {
      assert j < n ==> entries[..n][j] == entries[j];
    }
  }

  /** The turn that does not find the device: a record of its own, at the end. */
  lemma {:induction false} NewEntry(f: File, entries: seq<Seen>, g: File, changed: bool, e: Seen)
    requires Assigns(f, entries, g, changed) && DistinctIds(f.objects)
    requires !Knows(g.objects, e.id) && g.next < MAX_UINT64
    ensures var g' := g.(objects := g.objects + [Record(g.next, e.id, e.kind)], next := g.next + 1);
      Assigns(f, entries + [e], g', true)
  {
    var g' := g.(objects := g.objects + [Record(g.next, e.id, e.kind)], next := g.next + 1);
    NewIsUnknown(f, entries, g, changed, e);
    OneFollows(f, entries, g, e);
    KindsOfNew(f, entries, g, e);
    assert g'.objects[|g.objects|].deviceId == e.id;
    AllKnown(entries, g.objects, g'.objects, e);
    assert IsNews(f, e);
    assert (entries + [e])[|entries|] == e;
    forall i | 0 <= i < |g.objects|
      ensures g.objects[i].deviceId != e.id
    {
    }
    hide NewFollow, KindsAreLast, IsNews, Knows, Mentions;
    assert OldStay(f, g');
  }

  lemma {:induction false} NewIsUnknown(f: File, entries: seq<Seen>, g: File, changed: bool, e: Seen)
    requires Assigns(f, entries, g, changed) && !Knows(g.objects, e.id)
    ensures !Knows(f.objects, e.id) && !Mentions(entries, e.id)
  {
    forall i | 0 <= i < |f.objects|
      ensures f.objects[i].deviceId != e.id
    {
      assert g.objects[i].deviceId == f.objects[i].deviceId;
    }
  }

  lemma {:induction false} OneFollows(f: File, entries: seq<Seen>, g: File, e: Seen)
    requires OldStay(f, g) && NewFollow(f, entries, g) && g.next < MAX_UINT64
    requires !Knows(f.objects, e.id) && !Mentions(entries, e.id)
    ensures NewFollow(f, entries + [e],
                      g.(objects := g.objects + [Record(g.next, e.id, e.kind)], next := g.next + 1))
  {
    hide Knows, Mentions;
    var g' := g.(objects := g.objects + [Record(g.next, e.id, e.kind)], next := g.next + 1);
    var more := entries + [e];
    NewIdsOfMore(f.objects, entries, e);
    assert |NewIds(f.objects, more)| == |NewIds(f.objects, entries)| + 1;
    forall i | |f.objects| <= i < |g'.objects|
      ensures g'.objects[i].number == f.next + (i - |f.objects|)
      ensures !Knows(f.objects, g'.objects[i].deviceId) && Mentions(more, g'.objects[i].deviceId)
    {
      MentionsMore(entries, e, g'.objects[i].deviceId);
      assert i < |g.objects| ==> g'.objects[i] == g.objects[i];
    }
    forall i, i', p | |f.objects| <= i < i' < |g'.objects| && 0 <= p < |more| && more[p].id == g'.objects[i'].deviceId
      ensures Mentions(more[..p], g'.objects[i].deviceId)
    {
      assert g'.objects[i] == g.objects[i];
      if p < |entries| {
        assert more[..p] == entries[..p] && more[p] == entries[p];
        assert Mentions(entries, entries[p].id) by { MentionsItself(entries, p); }
        assert i' < |g.objects|;
        assert g'.objects[i'] == g.objects[i'];
      } else {
        assert more[..p] == entries;
      }
    }
  }

  lemma {:induction false} MentionsItself(entries: seq<Seen>, p: nat)
    requires p < |entries|
    ensures Mentions(entries, entries[p].id)
  {
  }

  lemma {:induction false} KindsOfNew(f: File, entries: seq<Seen>, g: File, e: Seen)
    requires OldStay(f, g) && KindsAreLast(f, entries, g) && g.next < MAX_UINT64
    requires !Knows(g.objects, e.id) && !Mentions(entries, e.id)
    ensures KindsAreLast(f, entries + [e],
                         g.(objects := g.objects + [Record(g.next, e.id, e.kind)], next := g.next + 1))
  {
    var g' := g.(objects := g.objects + [Record(g.next, e.id, e.kind)], next := g.next + 1);
    var more := entries + [e];
    LastOfMore(entries, e);
    forall i, k: nat | 0 <= i < |g'.objects| && IsLast(more, k) && more[k].id == g'.objects[i].deviceId
      ensures g'.objects[i].kind == more[k].kind
    {
      if i < |g.objects| {
        assert g.objects[i].deviceId != e.id;
        assert k < |entries| && IsLast(entries, k);
      }
    }
    forall i | 0 <= i < |f.objects| && !Mentions(more, f.objects[i].deviceId)
      ensures g'.objects[i] == f.objects[i]
    {
      MentionsMore(entries, e, f.objects[i].deviceId);
    }
  }

  // ---------- all entries ----------

  lemma {:induction false} AssignMore(f: File, changed: bool, entries: seq<Seen>, e: Seen)
    ensures AssignFrom(f, changed, entries + [e]) ==
            match AssignFrom(f, changed, entries)
            case Err(error) => Err(error)
            case Ok((g, changed')) =>
              match AssignOne(g, e)
              case Err(error) => Err(error)
              case Ok((g', one)) => Ok((g', changed' || one))
    decreases |entries|
  {
    hide AssignOne;
    var more := entries + [e];
    if entries == [] {
      assert more == [e];
      assert more[1..] == [];
    } else {
      assert more[0] == entries[0] && more[1..] == entries[1..] + [e];
      var one := AssignOne(f, entries[0]);
      if one.Ok? {
        AssignMore(one.value.0, changed || one.value.1, entries[1..], e);
      }
    }
  }

  lemma {:induction false} OneEntry(f: File, entries: seq<Seen>, g: File, changed: bool, e: Seen)
    requires Assigns(f, entries, g, changed) && DistinctIds(f.objects)
    ensures AssignOne(g, e).Ok? <==>
            ValidId(e.id) && ValidKind(e.kind) && (Knows(g.objects, e.id) || g.next < MAX_UINT64)
    ensures AssignOne(g, e).Err? ==>
      AssignOne(g, e).error == if ValidId(e.id) && ValidKind(e.kind) then EXHAUSTED else INVALID_ENTRY
    ensures AssignOne(g, e).Ok? ==>
      Assigns(f, entries + [e], AssignOne(g, e).value.0, changed || AssignOne(g, e).value.1)
  {
    FindKnows(g.objects, e.id);
    hide ValidId, ValidKind, Assigns, Knows;
    if AssignOne(g, e).Ok? {
      var found := Find(g.objects, e.id);
      if found.Some? {
        var index := found.value;
        KnownEntry(f, entries, g, changed, e, index);
        assert g.objects[index].kind == e.kind ==>
          g.objects[index := g.objects[index].(kind := e.kind)] == g.objects;
      } else {
        NewEntry(f, entries, g, changed, e);
      }
    }
  }

  lemma {:induction false} NothingAssigned(f: File)
    requires DistinctIds(f.objects)
    ensures Assigns(f, [], f, false)
  {
    assert NewIds(f.objects, []) == {};
  }

  ghost predicate AllValid(entries: seq<Seen>) {
    forall k | 0 <= k < |entries| ::
      ValidId(entries[k].id) && (entries[k].kind == "document" || entries[k].kind == "folder")
  }

  /** The numbers that are left suffice. */
  ghost predicate Suffices(f: File, entries: seq<Seen>) {
    f.next + |NewIds(f.objects, entries)| <= MAX_UINT64
  }

  /** Assign succeeds exactly on valid entries for which the numbers suffice, and then this is what it makes. */
  lemma {:induction false} AssignedInFull(f: File, entries: seq<Seen>)
    requires DistinctIds(f.objects)
    ensures AssignFrom(f, false, entries).Ok? <==> AllValid(entries) && Suffices(f, entries)
    ensures match AssignFrom(f, false, entries)
      case Ok((g, changed)) => Assigns(f, entries, g, changed)
      case Err(error) =>
        (error == INVALID_ENTRY && !AllValid(entries)) || (error == EXHAUSTED && !Suffices(f, entries))
    decreases |entries|
  {
    if entries == [] {
      NothingAssigned(f);
      assert NewIds(f.objects, []) == {};
    } else {
      var n := |entries| - 1;
      var before, e := entries[..n], entries[n];
      assert before + [e] == entries;
      AssignedInFull(f, before);
      AssignMore(f, false, before, e);
      hide AssignFrom, AssignOne, Assigns;
      SufficesMore(f, before, e);
      if AssignFrom(f, false, before).Ok? {
        var (g, changed) := AssignFrom(f, false, before).value;
        OneEntry(f, before, g, changed, e);
        NextIsCounted(f, before, g, changed, e);
      }
    }
  }

  lemma {:induction false} SufficesMore(f: File, entries: seq<Seen>, e: Seen)
    ensures Suffices(f, entries + [e]) <==>
            Suffices(f, entries) &&
            (Knows(f.objects, e.id) || Mentions(entries, e.id) || f.next + |NewIds(f.objects, entries)| < MAX_UINT64)
    ensures AllValid(entries + [e]) <==> AllValid(entries) && ValidId(e.id) && ValidKind(e.kind)
  {
    hide ValidId;
    NewIdsOfMore(f.objects, entries, e);
    var more := entries + [e];
    assert more[|entries|] == e;
    assert forall k | 0 <= k < |entries| :: more[k] == entries[k];
    if AllValid(more) {
      forall k | 0 <= k < |entries|
        ensures ValidId(entries[k].id) && (entries[k].kind == "document" || entries[k].kind == "folder")
      {
        assert ValidId(more[k].id);
      }
    }
  }

  lemma {:induction false} NextIsCounted(f: File, entries: seq<Seen>, g: File, changed: bool, e: Seen)
    requires Assigns(f, entries, g, changed)
    ensures g.next == f.next + |NewIds(f.objects, entries)|
    ensures Knows(g.objects, e.id) <==> Knows(f.objects, e.id) || Mentions(entries, e.id)
  {
    if Knows(f.objects, e.id) {
      var i :| 0 <= i < |f.objects| && f.objects[i].deviceId == e.id;
      assert g.objects[i].deviceId == e.id;
    }
    if Knows(g.objects, e.id) {
      var i :| 0 <= i < |g.objects| && g.objects[i].deviceId == e.id;
      KnownIsOld(f, entries, g, e, i);
    }
  }

  // ---------- save ----------

  /** Saving puts the records in the order of their numbers, and changes nothing else. */
  lemma {:induction false} SortedInOrder(f: File)
    requires Validated(f)
    ensures Sorted(f).schema == f.schema && Sorted(f).next == f.next
    ensures multiset(Sorted(f).objects) == multiset(f.objects)
    ensures forall i, j | 0 <= i < j < |f.objects| :: Sorted(f).objects[i].number < Sorted(f).objects[j].number
  {
    hide StableSort, ValidRecord;
    assert StrictWeakOrder(NumberLess);
    StableSortSorts(f.objects, NumberLess);
    var sorted := Sorted(f).objects;
    forall i, j | 0 <= i < j < |sorted|
      ensures sorted[i].number < sorted[j].number
    {
      assert !NumberLess(sorted[j], sorted[i]);
      PermutedRecordsDiffer(f.objects, sorted, i, j);
    }
  }
}
