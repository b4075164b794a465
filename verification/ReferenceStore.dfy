/**
 The object reference store of one process (profiles/object_references.go): a file that is only ever replaced as a
 whole, and a copy of it in memory whose records nobody else can reach.
 */
module ReferenceStore {
  import opened Results
  import opened Text
  import opened Sorting
  import opened References
  import opened ReferenceFile
  import opened AssignInFull
  import opened Candidates
  import opened ReferenceCache
  import opened RecordSlices

  /** The path of the reference file. A replacement always has an identity of its own. */
  class Disk {
    const size: Size
    var file: Option<Stored>
    var fresh_: nat

    constructor (size: Size)
      ensures this.size == size && file == None && fresh_ == 0
    {
      this.size := size;
      file, fresh_ := None, 0;
    }

    method Replace(content: File, fails: bool) returns (error: Option<string>)
      modifies this
      ensures fails ==> error == Some(SAVE_FAILED) && file == old(file) && fresh_ == old(fresh_)
      ensures !fails ==>
        error == None && file == Some(Stored(old(fresh_), content, size(content))) && fresh_ == old(fresh_) + 1
    {
      if fails {
        return Some(SAVE_FAILED);
      }
      file := Some(Stored(fresh_, content, size(content)));
      fresh_ := fresh_ + 1;
      return None;
    }
  }

  class ObjectReferenceStore {
    const sha: Hasher
    const disk: Disk
    var cacheValid: bool
    var cacheInfo: Option<nat>
    var cacheState: Held

    constructor (sha: Hasher, disk: Disk)
      ensures this.sha == sha && this.disk == disk && Valid() && Memory() == NO_CACHE && fresh(cacheState.objects.store)
    {
      this.sha, this.disk := sha, disk;
      cacheValid, cacheInfo := false, None;
      var none := new Record[0];
      cacheState := Held(SCHEMA, 0, Slice(none, 0));
    }

    ghost predicate Valid()
      reads this
    {
      cacheState.Valid()
    }

    ghost function Memory(): Cache
      requires Valid()
      reads this, cacheState.objects.store
    {
      Cache(cacheValid, cacheInfo, cacheState.Value())
    }

    /** The cache can be trusted, and a file it serves has been validated. */
    ghost predicate Trusted()
      requires Valid()
      reads this, disk, cacheState.objects.store
    {
      CacheAgrees(disk.file, disk.fresh_, Memory()) && (CacheServes(disk.file, Memory()) ==> Good(disk.file))
    }

    /** load, into an array of its own. */
    method Load(fails: bool) returns (r: Result<Held>)
      ensures match r
        case Ok(state) =>
          !fails && state.Valid() && fresh(state.objects.store) && Loaded(disk.file) == Ok(state.Value())
        case Err(error) => if fails then error == UNREADABLE else Loaded(disk.file) == Err(error)
    {
      FreshIsValid();
      if fails {
        return Err(UNREADABLE);
      }
      if disk.file == None {
        var none := Literal([]);
        return Ok(Held(SCHEMA, 0, none));
      }
      if disk.file.value.size > MAX_FILE_SIZE {
        return Err(TOO_LARGE);
      }
      var content := disk.file.value.content;
      var error := Validate(content);
      if error.Some? {
        return Err(INVALID_FILE);
      }
      var objects := Literal(content.objects);
      return Ok(Held(content.schema, content.next, objects));
    }

    /** loadCached: whatever it returns may be written to without the cache seeing it. */
    method LoadCached(faults: Faults) returns (r: Result<Held>)
      requires Valid()
      ensures match r
        case Ok(state) =>
          && state.Valid() && fresh(state.objects.store)
          && LoadedCached(disk.file, Memory(), faults) == Ok(state.Value())
        case Err(error) => LoadedCached(disk.file, Memory(), faults) == Err(error)
    {
      if faults.statBefore {
        return Err(UNREADABLE);
      }
      var info := if disk.file.None? then None else Some(disk.file.value.identity);
      if info == None {
        if cacheValid && cacheInfo == None {
          var objects := Clone(cacheState.objects);
          return Ok(cacheState.(objects := objects));
        }
        var none := Literal([]);
        return Ok(Held(SCHEMA, 0, none));
      }
      if cacheValid && cacheInfo != None && cacheInfo == info {
        var objects := Clone(cacheState.objects);
        return Ok(cacheState.(objects := objects));
      }
      r := Load(faults.read);
    }

    /** remember: the cache keeps records of its own. */
    method Remember(state: Held, fails: bool)
      requires Valid() && state.Valid()
      modifies this
      ensures Valid() && Memory() == Remembered(disk.file, old(Memory()), state.Value(), NO_FAULTS.(statAfter := fails))
      ensures !fails ==> fresh(cacheState.objects.store)
      ensures fails ==> cacheState == old(cacheState)
    {
      if fails {
        cacheValid := false;
        return;
      }
      var objects := Clone(state.objects);
      cacheState := state.(objects := objects);
      cacheInfo := if disk.file.None? then None else Some(disk.file.value.identity);
      cacheValid := true;
    }

    /** The first loop of Assign: byID. */
    static method Index(objects: Slice) returns (byId: map<string, nat>)
      requires objects.Valid()
      ensures IndexesFirst(byId, objects.Items(), objects.len)
    {
      hide Find;
      byId := map[];
      for index := 0 to objects.len
        invariant IndexesFirst(byId, objects.Items(), index)
      {
        IndexNext(byId, objects.Items(), index);
        byId := byId[objects.store[index].deviceId := index];
      }
    }

    /** One turn of the second loop of Assign, which changes a record where it is, or appends one. */
    static method AssignEntry(start: Held, byId: map<string, nat>, entry: Seen)
      returns (r: Result<(Held, bool)>, byId': map<string, nat>)
      requires start.Valid() && IndexesFirst(byId, start.objects.Items(), start.objects.len)
      modifies start.objects.store
      ensures match r
        case Ok((state, changed)) =>
          && state.Valid() && (state.objects.store == start.objects.store || fresh(state.objects.store))
          && IndexesFirst(byId', state.objects.Items(), state.objects.len)
          && AssignOne(old(start.Value()), entry) == Ok((state.Value(), changed))
        case Err(error) => AssignOne(old(start.Value()), entry) == Err(error)
    {
      hide ValidId, ValidKind, Find;
      ghost var objects := start.objects.Items();
      assert objects[..|objects|] == objects;
      byId' := byId;
      var state := start;
      if !ValidId(entry.id) || !ValidKind(entry.kind) {
        return Err(INVALID_ENTRY), byId';
      }
      if entry.id in byId {
        var index := byId[entry.id];
        assert index < |objects| by { FindIsInside(objects, entry.id); }
        if state.objects.store[index].kind != entry.kind {
          FindAfterKindChange(objects, index, entry.kind);
          SetKind(state.objects, index, entry.kind);
          return Ok((state, true)), byId';
        }
        return Ok((state, false)), byId';
      }
      if state.next == MAX_UINT64 {
        return Err(EXHAUSTED), byId';
      }
      var record := Record(state.next, entry.id, entry.kind);
      IndexAppend(byId, objects, record);
      var longer := Append(state.objects, record);
      state := state.(objects := longer);
      byId' := byId[entry.id := longer.len - 1];
      state := state.(next := state.next + 1);
      return Ok((state, true)), byId';
    }

    /** The loops of Assign, with byID kept beside the records. */
    static method AssignLoop(start: Held, entries: seq<Seen>) returns (r: Result<(Held, bool)>)
      requires start.Valid()
      modifies start.objects.store
      ensures match r
        case Ok((state, changed)) =>
          && state.Valid() && (state.objects.store == start.objects.store || fresh(state.objects.store))
          && AssignFrom(old(start.Value()), false, entries) == Ok((state.Value(), changed))
        case Err(error) => AssignFrom(old(start.Value()), false, entries) == Err(error)
    {
      hide AssignFrom, AssignOne, IndexesFirst;
      var state, changed := start, false;
      var byId := Index(state.objects);
      for k := 0 to |entries|
        invariant state.Valid() && (state.objects.store == start.objects.store || fresh(state.objects.store))
        invariant IndexesFirst(byId, state.objects.Items(), state.objects.len)
        invariant AssignFrom(old(start.Value()), false, entries) == AssignFrom(state.Value(), changed, entries[k..])
      {
        AssignTurn(state.Value(), changed, entries, k);
        var turned;
        turned, byId := AssignEntry(state, byId, entries[k]);
        if turned.Err? {
          return Err(turned.error);
        }
        state, changed := turned.value.0, changed || turned.value.1;
      }
      AssignNothing(state.Value(), changed);
      assert entries[|entries|..] == [];
      return Ok((state, changed));
    }

    /** save: sorts the records where they are, and writes what they have become. */
    method Save(state: Held, fails: bool) returns (error: Option<string>)
      requires state.Valid()
      modifies state.objects.store, disk
      ensures state.Value() == Sorted(old(state.Value()))
      ensures fails ==> error == Some(SAVE_FAILED) && disk.file == old(disk.file) && disk.fresh_ == old(disk.fresh_)
      ensures !fails ==>
        && error == None && disk.fresh_ == old(disk.fresh_) + 1
        && disk.file == Some(Stored(old(disk.fresh_), state.Value(), disk.size(state.Value())))
    {
      SortByNumber(state.objects);
      error := disk.Replace(Encoded(state), fails);
    }

    /** What is encoded of a file in memory. */
    static function Encoded(state: Held): (content: File)
      requires state.Valid()
      reads state.objects.store
      ensures content == state.Value()
    {
      File(state.schema, state.next, state.objects.store[..state.objects.len])
    }

    /**
     Assign, up to the references. The array behind the cached records is not among what it modifies: a call that
     fails has not touched them, although the loop and save write to records in place.
     */
    method Update(entries: seq<Seen>, faults: Faults) returns (r: Result<File>)
      requires Valid() && Trusted()
      modifies this, disk
      ensures Valid()
      ensures (disk.file, Memory(), r) ==
              Assigned(disk.size, old(disk.file), old(disk.fresh_), old(Memory()), entries, faults)
      ensures disk.fresh_ == if disk.file == old(disk.file) then old(disk.fresh_) else old(disk.fresh_) + 1
    {
      hide AssignFrom, Sorted, LoadedCached;
      if faults.lock {
        return Err(LOCK_FAILED);
      }
      assert disk.file.Some? ==> disk.file.value.identity < disk.fresh_;
      hide CacheAgrees, CacheServes, Good;
      var loaded := LoadCached(faults);
      if loaded.Err? {
        return Err(loaded.error);
      }
      var looped := AssignLoop(loaded.value, entries);
      if looped.Err? {
        return Err(looped.error);
      }
      var (state, changed) := looped.value;
      if changed {
        var error := Save(state, faults.save);
        if error.Some? {
          cacheValid := false;
          return Err(SAVE_FAILED);
        }
      }
      Remember(state, faults.statAfter);
      r := Ok(Encoded(state));
    }

    /** Assign: the update, and the references of all the entries in what it leaves. */
    method Assign(entries: seq<Seen>, faults: Faults)
      returns (r: Result<map<string, Reference>>, ghost contents: Result<File>)
      requires Valid() && Trusted()
      modifies this, disk
      ensures Valid() && Trusted()
      ensures (disk.file, Memory(), contents) ==
              Assigned(disk.size, old(disk.file), old(disk.fresh_), old(Memory()), entries, faults)
      ensures old(Good(disk.file)) ==> Good(disk.file) && Extends(Written(old(disk.file)), Written(disk.file))
      ensures contents.Err? ==> r == Err(contents.error)
      ensures contents.Ok? ==>
        && r.Ok? && contents.value == Written(disk.file) && Good(disk.file)
        && AreShown(sha, contents.value, entries, r.value)
        && ShowsLast(entries, r.value)
    {
      hide Assigned, CacheAgrees, CacheServes, Extends, Pairs, Good, AreShown;
      AssignedKeeps(disk.size, disk.file, disk.fresh_, Memory(), entries, faults);
      ghost var before := Written(disk.file);
      if Good(disk.file) {
        AssignedFromEntries(disk.size, disk.file, disk.fresh_, Memory(), entries, faults);
      }
      var updated := Update(entries, faults);
      contents := updated;
      if updated.Err? {
        return Err(updated.error), updated;
      }
      GoodIsDistinct(disk.file);
      var all := AllReferences(sha, updated.value.objects);
      EverybodyHasAReference(sha, updated.value, entries, all);
      var result := Pick(all, entries);
      ShownByAll(sha, updated.value, entries, all, result);
      ShownAreLast(sha, before, updated.value, entries, result);
      r := Ok(result);
    }

    /** The last loop of Assign. */
    static method Pick(all: map<string, Reference>, entries: seq<Seen>) returns (result: map<string, Reference>)
      requires forall e | e in entries :: e.id in all
      ensures result.Keys == (set e | e in entries :: e.id)
      ensures forall id | id in result :: id in all && result[id] == all[id]
    {
      result := map[];
      for k := 0 to |entries|
        invariant result.Keys == (set i | 0 <= i < k :: entries[i].id)
        invariant forall id | id in result :: id in all && result[id] == all[id]
      {
        assert entries[k] in entries;
        result := result[entries[k].id := all[entries[k].id]];
      }
      assert forall e :: e in entries <==> exists i | 0 <= i < |entries| :: entries[i] == e;
    }

    /** Candidates: reads the file without a lock and without the cache. */
    method Candidates(selector: string, fails: bool) returns (r: Result<seq<Reference>>)
      ensures fails || Loaded(disk.file).Err? ==>
        r.Err? && r.error == if fails then UNREADABLE else Loaded(disk.file).error
      ensures !fails && Loaded(disk.file).Ok? ==>
        && (r.Ok? <==> ParseSelector(selector).Ok?)
        && (r.Ok? ==> AreCandidates(sha, Loaded(disk.file).value, ParseSelector(selector).value, r.value))
    {
      hide Validated, AreReferences, AreCandidates, Answers, ParseSelector, StableSort;
      GoodIsDistinct(disk.file);
      var loaded := Load(fails);
      if loaded.Err? {
        return Err(loaded.error);
      }
      var state := Encoded(loaded.value);
      var all := AllReferences(sha, state.objects);
      ReferencesAreKeyed(sha, state.objects, all);
      var selected := ParseSelector(selector);
      if selected.Err? {
        return Err(selected.error);
      }
      var matches := Collect(all, selected.value);
      SortedMatchesAreCandidates(sha, state, all, selected.value, matches);
      var sorted := new Reference[|matches|](i requires 0 <= i < |matches| => matches[i]);
      assert sorted[..] == matches;
      SortSlice(sorted, ReferenceLess);
      return Ok(sorted[..]);
    }

    /** The loops of Candidates over all references, in any order. */
    static method Collect(all: map<string, Reference>, selector: Selector) returns (matches: seq<Reference>)
      requires forall id | id in all :: all[id].deviceId == id
      ensures forall x :: x in matches <==> exists id | id in all :: all[id] == x && Answers(x, selector)
      ensures forall i, j | 0 <= i < j < |matches| :: matches[i].deviceId != matches[j].deviceId
    {
      hide Answers;
      matches := [];
      var pending := all.Keys;
      while pending != {}
        invariant pending <= all.Keys
        invariant forall x | x in matches ::
          x.deviceId in all && x.deviceId !in pending && all[x.deviceId] == x && Answers(x, selector)
        invariant forall id | id in all && id !in pending && Answers(all[id], selector) :: all[id] in matches
        invariant forall i, j | 0 <= i < j < |matches| :: matches[i].deviceId != matches[j].deviceId
      {
        var id :| id in pending;
        if Answers(all[id], selector) {
          matches := matches + [all[id]];
        }
        pending := pending - {id};
      }
    }
  }

  /** The reference of the device's record in the file. */
  ghost predicate IsReferenceOf(sha: Hasher, f: File, id: string, x: Reference) {
    exists r | r in f.objects :: r.deviceId == id && x == ReferenceOf(sha, f.objects, r)
  }

  /** Every entry is shown with the reference its record has in the file. */
  ghost predicate AreShown(sha: Hasher, f: File, entries: seq<Seen>, shown: map<string, Reference>) {
    && shown.Keys == (set e | e in entries :: e.id)
    && forall e | e in entries :: IsReferenceOf(sha, f, e.id, shown[e.id])
  }

  /** Each device is shown under its own ID and with the kind of the last entry about it. */
  ghost predicate ShowsLast(entries: seq<Seen>, shown: map<string, Reference>) {
    forall k: nat | IsLast(entries, k) ::
      entries[k].id in shown && shown[entries[k].id].deviceId == entries[k].id &&
      shown[entries[k].id].kind == entries[k].kind
  }

  lemma {:induction false} ShownAreLast(sha: Hasher, before: File, f: File, entries: seq<Seen>,
                                        shown: map<string, Reference>)
    requires AreShown(sha, f, entries, shown)
    requires exists g, changed :: Assigns(before, entries, g, changed) && f == if changed then Sorted(g) else g
    ensures ShowsLast(entries, shown)
  {
    var g, changed :| Assigns(before, entries, g, changed) && f == if changed then Sorted(g) else g;
    hide ReferenceOf, Sorted, Assigns, AreShown;
    forall k: nat | IsLast(entries, k)
      ensures entries[k].id in shown && shown[entries[k].id].deviceId == entries[k].id
      ensures shown[entries[k].id].kind == entries[k].kind
    {
      var r := ShownFrom(sha, f, entries, shown, entries[k]);
      SortedHasSame(g, r);
      KindOfRecord(before, entries, g, changed, r, k);
    }
  }

  lemma {:induction false} ShownFrom(sha: Hasher, f: File, entries: seq<Seen>, shown: map<string, Reference>, e: Seen)
    returns (r: Record)
    requires AreShown(sha, f, entries, shown) && e in entries
    ensures e.id in shown && r in f.objects && r.deviceId == e.id
    ensures shown[e.id].deviceId == e.id && shown[e.id].kind == r.kind
  {
    hide ReferenceOf;
    r :| r in f.objects && r.deviceId == e.id && shown[e.id] == ReferenceOf(sha, f.objects, r);
    DeviceOf(sha, f.objects, r);
  }

  lemma {:induction false} KindOfRecord(before: File, entries: seq<Seen>, g: File, changed: bool, r: Record, k: nat)
    requires Assigns(before, entries, g, changed) && IsLast(entries, k)
    requires r in g.objects && r.deviceId == entries[k].id
    ensures r.kind == entries[k].kind
  {
    hide NewFollow, IsNews, Knows, IsLast;
    var i :| 0 <= i < |g.objects| && g.objects[i] == r;
  }

  lemma {:induction false} SortedHasSame(f: File, r: Record)
    ensures r in Sorted(f).objects <==> r in f.objects
  {
    SameElements(f.objects, Sorted(f).objects, r);
  }

  lemma {:induction false} ShownByAll(sha: Hasher, f: File, entries: seq<Seen>, all: map<string, Reference>,
                                      shown: map<string, Reference>)
    requires shown.Keys == (set e | e in entries :: e.id)
    requires forall id | id in shown :: id in all && shown[id] == all[id]
    requires forall e | e in entries :: e.id in all && IsReferenceOf(sha, f, e.id, all[e.id])
    ensures AreShown(sha, f, entries, shown)
  {
    hide IsReferenceOf;
    forall e | e in entries
      ensures IsReferenceOf(sha, f, e.id, shown[e.id])
    {
      assert e.id in shown;
    }
  }

  /**
   What Assign displays is what Candidates finds: the hexadecimal form finds exactly the object if and only if nobody
   shares its whole digest, and the decimal form always does.
   */
  lemma {:induction false} ShownIsFound(sha: Hasher, f: File, entries: seq<Seen>, shown: map<string, Reference>,
                                        e: Seen,
                                        byHex: seq<Reference>, byNumber: seq<Reference>)
    requires Validated(f) && AreShown(sha, f, entries, shown) && e in entries
    requires ParseSelector(shown[e.id].hex).Ok? ==>
      AreCandidates(sha, f, ParseSelector(shown[e.id].hex).value, byHex)
    requires ParseSelector(Itoa(shown[e.id].number)).Ok? ==>
      AreCandidates(sha, f, ParseSelector(Itoa(shown[e.id].number)).value, byNumber)
    ensures ParseSelector(shown[e.id].hex).Ok? && ParseSelector(Itoa(shown[e.id].number)).Ok?
    ensures byHex == [shown[e.id]] <==> DigestIsOwn(sha, f.objects, e.id)
    ensures byNumber == [shown[e.id]]
  {
    var r :| r in f.objects && r.deviceId == e.id && shown[e.id] == ReferenceOf(sha, f.objects, r);
    assert ValidRecord(r, f.next);
    DeviceOf(sha, f.objects, r);
    hide Validated, ReferenceOf, ParseSelector, AreCandidates, DigestIsOwn, Itoa;
    DisplayedParses(sha, f, r);
    DisplayedHexFindsExactly(sha, f, r, byHex);
    NumberFindsExactly(sha, f, r, byNumber);
  }

  lemma {:induction false} EverybodyHasAReference(sha: Hasher, f: File, entries: seq<Seen>, all: map<string, Reference>)
    requires forall e | e in entries :: exists number :: (e.id, number) in Pairs(f)
    requires AreReferences(sha, f.objects, all)
    ensures forall e | e in entries :: e.id in all && IsReferenceOf(sha, f, e.id, all[e.id])
  {
    hide ReferenceOf;
    forall e | e in entries
      ensures e.id in all && IsReferenceOf(sha, f, e.id, all[e.id])
    {
      var number :| (e.id, number) in Pairs(f);
      var x :| x in f.objects && (x.deviceId, x.number) == (e.id, number);
    }
  }

  lemma {:induction false} AssignTurn(f: File, changed: bool, entries: seq<Seen>, k: nat)
    requires k < |entries|
    ensures AssignFrom(f, changed, entries[k..]) ==
            match AssignOne(f, entries[k])
            case Err(error) => Err(error)
            case Ok((f', one)) => AssignFrom(f', changed || one, entries[k + 1..])
  {
    hide AssignOne;
    assert entries[k..][0] == entries[k] && entries[k..][1..] == entries[k + 1..];
  }

  lemma {:induction false} AssignNothing(f: File, changed: bool)
    ensures AssignFrom(f, changed, []) == Ok((f, changed))
  {
  }

  lemma {:induction false} FindIsInside(objects: seq<Record>, id: string)
    ensures Find(objects, id).Some? ==> Find(objects, id).value < |objects|
  {
  }

  /** byID covers the first `count` records and holds the index that Find gives. */
  ghost predicate IndexesFirst(byId: map<string, nat>, objects: seq<Record>, count: nat)
    requires count <= |objects|
  {
    forall id :: Find(objects[..count], id) == if id in byId then Some(byId[id]) else None
  }

  lemma {:induction false} FindOfAppend(objects: seq<Record>, r: Record, id: string)
    ensures Find(objects + [r], id) == if id == r.deviceId then Some(|objects|) else Find(objects, id)
  {
    var longer := objects + [r];
    assert longer[..|longer| - 1] == objects && longer[|longer| - 1] == r;
  }

  lemma {:induction false} IndexNext(byId: map<string, nat>, objects: seq<Record>, index: nat)
    requires index < |objects| && IndexesFirst(byId, objects, index)
    ensures IndexesFirst(byId[objects[index].deviceId := index], objects, index + 1)
  {
    assert objects[..index + 1] == objects[..index] + [objects[index]];
    forall id
      ensures Find(objects[..index + 1], id) ==
              if id == objects[index].deviceId then Some(index) else Find(objects[..index], id)
    {
      FindOfAppend(objects[..index], objects[index], id);
    }
    hide Find;
  }

  lemma {:induction false} IndexAppend(byId: map<string, nat>, objects: seq<Record>, r: Record)
    requires IndexesFirst(byId, objects, |objects|)
    ensures IndexesFirst(byId[r.deviceId := |objects|], objects + [r], |objects| + 1)
  {
    var longer := objects + [r];
    assert longer[..|objects|] == objects[..|objects|];
    IndexNext(byId, longer, |objects|);
  }

  lemma {:induction false} FindAfterKindChange(objects: seq<Record>, index: nat, kind: string)
    requires index < |objects|
    ensures var changed := objects[index := objects[index].(kind := kind)];
      forall id :: Find(changed[..|changed|], id) == Find(objects, id)
  {
    var changed := objects[index := objects[index].(kind := kind)];
    assert changed[..|changed|] == changed;
    forall id
      ensures Find(changed, id) == Find(objects, id)
    {
      FindSeesIdsOnly(changed, objects, id);
    }
  }

  lemma {:induction false} FindSeesIdsOnly(a: seq<Record>, b: seq<Record>, id: string)
    requires |a| == |b| && forall i | 0 <= i < |a| :: a[i].deviceId == b[i].deviceId
    ensures Find(a, id) == Find(b, id)
  {
    if a != [] {
      FindSeesIdsOnly(a[..|a| - 1], b[..|b| - 1], id);
    }
  }
}
