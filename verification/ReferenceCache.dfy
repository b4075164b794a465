/**
 The reference file on disk and the copy of it that each process keeps (profiles/object_references.go): when the copy
 may be trusted, and what one Assign does to both.
 */
module ReferenceCache {
  import opened Results
  import opened Text
  import opened References
  import opened ReferenceFile
  import opened AssignInFull

  const MAX_FILE_SIZE := 0x100_0000

  const TOO_LARGE := "profiles: object reference file exceeds size limit"
  const UNREADABLE := "profiles: stat or read failed"
  const LOCK_FAILED := "profiles: lock object references"
  const SAVE_FAILED := "atomicfile: replace"

  /** How many bytes the encoding of a file takes. */
  type Size = File -> nat

  /** A file on disk. The identity stands for inode and modification time; the size is that of the encoding. */
  datatype Stored = Stored(identity: nat, content: File, size: nat)

  datatype Cache = Cache(valid: bool, info: Option<nat>, state: File)

  const NO_CACHE := Cache(false, None, FRESH)

  /** What the file system refuses during one call. */
  datatype Faults = Faults(lock: bool, statBefore: bool, read: bool, save: bool, statAfter: bool)

  const NO_FAULTS := Faults(false, false, false, false, false)

  /** What was written last; an absent file stands for an empty one. */
  function Written(file: Option<Stored>): File {
    match file
    case None => FRESH
    case Some(stored) => stored.content
  }

  ghost predicate Good(file: Option<Stored>) {
    Validated(Written(file))
  }

  predicate Small(file: Option<Stored>) {
    match file
    case None => true
    case Some(stored) => stored.size <= MAX_FILE_SIZE
  }

  /** load: an absent file is an empty one; a file that is too large or does not validate is an error. */
  ghost function Loaded(file: Option<Stored>): Result<File> {
    if !Small(file) then Err(TOO_LARGE) else if Good(file) then Ok(Written(file)) else Err(INVALID_FILE)
  }

  /** What loads: nothing, as an empty file; or a valid file of at most 16 MiB. */
  lemma {:induction false} LoadedInFull(file: Option<Stored>, f: File)
    ensures Loaded(file) == Ok(f) <==>
            || (file.None? && f == File(1, 0, []))
            || (file.Some? && file.value.size <= 16777216 && Validated(file.value.content) && f == file.value.content)
    ensures Loaded(file).Err? ==>
      Loaded(file).error == if file.value.size > 16777216 then TOO_LARGE else INVALID_FILE
  {
    FreshIsValid();
  }

  predicate CacheServes(file: Option<Stored>, cache: Cache) {
    cache.valid && match file
                   case None => cache.info == None
                   case Some(stored) => cache.info == Some(stored.identity)
  }

  ghost function LoadedCached(file: Option<Stored>, cache: Cache, faults: Faults): Result<File> {
    if faults.statBefore then Err(UNREADABLE)
    else if CacheServes(file, cache) then Ok(cache.state)
    else if file == None then Ok(FRESH)
    else if faults.read then Err(UNREADABLE)
    else Loaded(file)
  }

  function Remembered(file: Option<Stored>, cache: Cache, state: File, faults: Faults): Cache {
    if faults.statAfter then cache.(valid := false)
    else Cache(true, if file.None? then None else Some(file.value.identity), state)
  }

  /** Saving, if anything changed, and remembering. */
  function Committed(size: Size, file: Option<Stored>, fresh_: nat, cache: Cache, state: File, changed: bool,
                     faults: Faults)
    : (Option<Stored>, Cache, Result<File>)
  {
    if !changed then (file, Remembered(file, cache, state, faults), Ok(state))
    else if faults.save then (file, cache.(valid := false), Err(SAVE_FAILED))
    else
      var sorted := Sorted(state);
      var file' := Some(Stored(fresh_, sorted, size(sorted)));
      (file', Remembered(file', cache, sorted, faults), Ok(sorted))
  }

  /** What one Assign does to the file and the cache, and the file contents its answer is drawn from. */
  ghost function Assigned(size: Size, file: Option<Stored>, fresh_: nat, cache: Cache, entries: seq<Seen>,
                          faults: Faults)
    : (Option<Stored>, Cache, Result<File>)
  {
    if faults.lock then (file, cache, Err(LOCK_FAILED))
    else
      match LoadedCached(file, cache, faults)
      case Err(error) => (file, cache, Err(error))
      case Ok(state) =>
        match AssignFrom(state, false, entries)
        case Err(error) => (file, cache, Err(error))
        case Ok((state', changed)) => Committed(size, file, fresh_, cache, state', changed, faults)
  }

  /**
   The cache can be trusted: if its identity is the file's, its state is the file's content; it never remembers a
   file from the future; and without a file it remembers the empty state.
   */
  ghost predicate CacheAgrees(file: Option<Stored>, fresh_: nat, cache: Cache) {
    && (file.Some? ==> file.value.identity < fresh_)
    && (cache.valid && cache.info == None ==> cache.state == FRESH)
    && (cache.valid && cache.info.Some? ==> cache.info.value < fresh_)
    && (cache.valid && file.Some? && cache.info == Some(file.value.identity) ==> cache.state == file.value.content)
  }

  /**
   A trusted cache is as good as reading the file, and better only in one case: it still serves a file that has
   outgrown the limit.
   */
  lemma {:induction false} CacheIsTheFile(file: Option<Stored>, fresh_: nat, cache: Cache, faults: Faults)
    requires CacheAgrees(file, fresh_, cache)
    ensures LoadedCached(file, cache, faults).Ok? ==> LoadedCached(file, cache, faults).value == Written(file)
    ensures !faults.statBefore && !faults.read && Good(file) ==>
      if CacheServes(file, cache) then LoadedCached(file, cache, faults) == Ok(Written(file))
      else LoadedCached(file, cache, faults) == Loaded(file)
  {
    FreshIsValid();
  }

  lemma {:induction false} FreshIsValid()
    ensures Validated(FRESH)
  {
  }

  /**
   One Assign: what is valid stays valid, the cache stays trustworthy, every number stays where it was, and every entry
   gets one; an Assign that fails before saving, and any Assign on an invalid file, leaves file and cache as they were;
   and without faults only a file that is too large or an entry that is refused makes it fail.
   */
  lemma {:induction false} AssignedKeeps(size: Size, file: Option<Stored>, fresh_: nat, cache: Cache,
                                         entries: seq<Seen>,
                                         faults: Faults)
    requires CacheAgrees(file, fresh_, cache) && (CacheServes(file, cache) ==> Good(file))
    ensures var (file', cache', r) := Assigned(size, file, fresh_, cache, entries, faults);
      && CacheAgrees(file', if file' == file then fresh_ else fresh_ + 1, cache')
      && (CacheServes(file', cache') ==> Good(file'))
      && (Good(file) ==> Good(file') && Extends(Written(file), Written(file')))
      && (!Good(file) ==> r.Err? && file' == file && cache' == cache)
      && (r.Ok? ==>
            && r.value == Written(file')
            && forall e | e in entries :: exists number :: (e.id, number) in Pairs(r.value))
      && (r.Err? ==> file' == file && (r.error != SAVE_FAILED ==> cache' == cache))
      && (faults == NO_FAULTS && Good(file) && (Small(file) || CacheServes(file, cache)) ==>
            (r.Ok? <==> AssignFrom(Written(file), false, entries).Ok?))
  {
    CacheIsTheFile(file, fresh_, cache, faults);
    var state := Written(file);
    ExtendsSelf(state);
    assert !Good(file) ==> LoadedCached(file, cache, faults).Err? by { FreshIsValid(); }
    hide Validated, Extends, LoadedCached, Loaded, Committed, CacheAgrees, CacheServes, AssignFrom;
    if LoadedCached(file, cache, faults).Ok? && AssignFrom(state, false, entries).Ok? {
      AssignKeeps(state, false, entries);
      var (state', changed) := AssignFrom(state, false, entries).value;
      CommittedKeeps(size, file, fresh_, cache, state', changed, faults);
    }
  }

  lemma {:induction false} CommittedKeeps(size: Size, file: Option<Stored>, fresh_: nat, cache: Cache, state: File,
                                          changed: bool, faults: Faults)
    requires CacheAgrees(file, fresh_, cache) && (CacheServes(file, cache) ==> Good(file)) && Good(file)
    requires Validated(state) && Extends(Written(file), state) && (!changed ==> state == Written(file))
    ensures var (file', cache', r) := Committed(size, file, fresh_, cache, state, changed, faults);
      && CacheAgrees(file', if file' == file then fresh_ else fresh_ + 1, cache')
      && Good(file') && Extends(Written(file), Written(file'))
      && (r.Ok? ==> r.value == Written(file') && Pairs(r.value) == Pairs(state))
      && (r.Err? ==> file' == file && r.error == SAVE_FAILED && changed && faults.save)
  {
    hide Validated, Extends, Sorted, Pairs;
    ExtendsSelf(Written(file));
    SortedKeeps(state);
    ExtendsTransitive(Written(file), state, Sorted(state));
  }

  /** What an Assign makes of the file, entry by entry; a changed file is written sorted. */
  lemma {:induction false} AssignedFromEntries(size: Size, file: Option<Stored>, fresh_: nat, cache: Cache,
                                               entries: seq<Seen>, faults: Faults)
    requires CacheAgrees(file, fresh_, cache) && Good(file)
    ensures Assigned(size, file, fresh_, cache, entries, faults).2.Ok? ==>
      && AllValid(entries) && Suffices(Written(file), entries)
      && exists g, changed :: Assigns(Written(file), entries, g, changed) &&
           Assigned(size, file, fresh_, cache, entries, faults).2.value == if changed then Sorted(g) else g
  {
    CacheIsTheFile(file, fresh_, cache, faults);
    AssignedInFull(Written(file), entries);
    hide Validated, Assigns, AssignFrom, LoadedCached, Sorted, AllValid, Suffices;
    if Assigned(size, file, fresh_, cache, entries, faults).2.Ok? {
      var (g, changed) := AssignFrom(Written(file), false, entries).value;
      assert Assigns(Written(file), entries, g, changed);
    }
  }

  /** What each fault does: which of file and cache change, and that what was not saved is not remembered. */
  lemma {:induction false} AssignedUnderFaults(size: Size, file: Option<Stored>, fresh_: nat, cache: Cache,
                                               entries: seq<Seen>, faults: Faults)
    ensures var (file', cache', r) := Assigned(size, file, fresh_, cache, entries, faults);
      && (faults.lock || faults.statBefore ==> r.Err? && file' == file && cache' == cache)
      && (faults.read && file.Some? && !CacheServes(file, cache) ==> r.Err? && file' == file && cache' == cache)
      && (r.Err? ==> file' == file && (cache' == cache || (faults.save && !cache'.valid)))
      && (r.Ok? && faults.statAfter ==> !cache'.valid)
      && (r.Ok? && !faults.statAfter ==>
            cache'.valid && cache'.state == r.value && cache'.info == (match file'
                                                                       case None => None
                                                                       case Some(stored) => Some(stored.identity)))
      && (file' != file ==>
            r.Ok? && !faults.save && file'.value.identity == fresh_ && file'.value.content == r.value &&
            file'.value.size == size(r.value))
  {
    hide AssignFrom, Sorted, Loaded, Validated;
  }

  /** What save does not check: an Assign that writes leaves a file that can be loaded exactly if it is small enough. */
  lemma {:induction false} SavedLoadsIfSmall(size: Size, file: Option<Stored>, fresh_: nat, cache: Cache,
                                             entries: seq<Seen>, faults: Faults)
    requires CacheAgrees(file, fresh_, cache) && Good(file) && AssignFrom(Written(file), false, entries).Ok?
    requires Assigned(size, file, fresh_, cache, entries, faults).2.Ok?
    requires AssignFrom(Written(file), false, entries).value.1
    ensures Loaded(Assigned(size, file, fresh_, cache, entries, faults).0).Ok? <==>
            size(Sorted(AssignFrom(Written(file), false, entries).value.0)) <= MAX_FILE_SIZE
  {
    CacheIsTheFile(file, fresh_, cache, faults);
    hide Validated;
    var state' := AssignFrom(Written(file), false, entries).value.0;
    AssignKeeps(Written(file), false, entries);
    SortedKeeps(state');
  }

  function ManyEntries(n: nat): (entries: seq<Seen>)
    ensures |entries| == n && forall k | 0 <= k < n :: entries[k] == Seen(Itoa(k), "document")
  {
    seq(n, k requires 0 <= k < n => Seen(Itoa(k), "document"))
  }

  lemma {:induction false} ManyEntriesAreNew(n: nat)
    ensures forall e | e in ManyEntries(n) :: ValidId(e.id) && ValidKind(e.kind)
    ensures forall i, j | 0 <= i < j < n :: ManyEntries(n)[i].id != ManyEntries(n)[j].id
  {
    forall k | 0 <= k < n
      ensures ValidId(Itoa(k)) && Value(Itoa(k)) == k
    {
      DigitsAreValid(Itoa(k));
    }
  }

  lemma {:induction false} DigitsAreValid(id: string)
    requires id != "" && IsDigits(id)
    ensures ValidId(id)
  {
    assert IsDigit(id[0]);
  }

  /** Entries that the file does not know are appended, one record each. */
  lemma {:induction false} NewEntriesAreAppended(f: File, changed: bool, entries: seq<Seen>)
    requires forall e | e in entries :: ValidId(e.id) && ValidKind(e.kind)
    requires forall i, j | 0 <= i < j < |entries| :: entries[i].id != entries[j].id
    requires forall r, e | r in f.objects && e in entries :: r.deviceId != e.id
    requires f.next + |entries| <= MAX_UINT64
    ensures AssignFrom(f, changed, entries).Ok?
    ensures var (g, changed') := AssignFrom(f, changed, entries).value;
      |g.objects| == |f.objects| + |entries| && changed' == (changed || entries != [])
    decreases |entries|
  {
    hide ValidId, ValidKind;
    if entries != [] {
      var e, rest := entries[0], entries[1..];
      assert e in entries;
      assert Find(f.objects, e.id) == None;
      var f' := AssignOne(f, e).value.0;
      forall r, x | r in f'.objects && x in rest
        ensures r.deviceId != x.id
      {
        var j :| 0 <= j < |rest| && rest[j] == x;
        assert entries[j + 1] == x;
        assert r in f.objects || r.deviceId == e.id;
      }
      NewEntriesAreAppended(f', true, rest);
    }
  }

  /** A file does outgrow the limit: one Assign with enough entries, on a new store, whatever the encoding. */
  lemma {:induction false} OutgrowingHappens(size: Size)
    requires forall f: File :: size(f) >= |f.objects|
    ensures var (file', _, r) := Assigned(size, None, 0, NO_CACHE, ManyEntries(MAX_FILE_SIZE + 1), NO_FAULTS);
      r.Ok? && Good(file') && Loaded(file') == Err(TOO_LARGE)
  {
    var entries := ManyEntries(MAX_FILE_SIZE + 1);
    ManyEntriesAreNew(MAX_FILE_SIZE + 1);
    FreshIsValid();
    NewEntriesAreAppended(FRESH, false, entries);
    hide AssignFrom, Sorted, ManyEntries, Validated;
    SortedIsAsLong(AssignFrom(FRESH, false, entries).value.0);
    AssignedKeeps(size, None, 0, NO_CACHE, entries, NO_FAULTS);
  }

  lemma {:induction false} SortedIsAsLong(f: File)
    ensures |Sorted(f).objects| == |f.objects|
  {
  }

  lemma {:induction false} GoodIsDistinct(file: Option<Stored>)
    ensures Good(file) ==> DistinctIds(Written(file).objects)
  {
  }
}
