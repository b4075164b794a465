/**
 Any number of processes running Assign on one reference file, with readers that take no lock: every interleaving of
 lock, cached load, append, write to a temporary, rename, remember and unlock, with a crash possible at any point.
 */
module ReferenceProtocol {
  import opened Results
  import opened Text
  import opened References
  import opened ReferenceFile
  import opened Candidates
  import opened ReferenceCache

  /** Where a process is in Assign. Every phase but Idle is inside the lock. */
  datatype Phase =
    | Idle
    | Locked(entries: seq<Seen>)
    | HasLoaded(entries: seq<Seen>, state: File)
    | Writing(entries: seq<Seen>, state: File, written: nat)
    | Replaced(entries: seq<Seen>, state: File)

  datatype Process = Process(phase: Phase, cache: Cache)

  datatype World = World(file: Option<Stored>, fresh_: nat, lock: Option<nat>, processes: map<nat, Process>)

  datatype Step =
    | Start(p: nat)
    | Lock(p: nat, entries: seq<Seen>)
    | Load(p: nat)
    | Assign(p: nat)
    | Write(p: nat, count: nat)
    | LoadFails(p: nat)
    | SaveFails(p: nat)
    | Rename(p: nat)
    | Remember(p: nat)
    | RememberFails(p: nat)
    | Crash(p: nat)

  function Put(w: World, p: nat, phase: Phase, cache: Cache): World {
    w.(processes := w.processes[p := Process(phase, cache)], lock := if phase.Idle? then None else Some(p))
  }

  predicate Enabled(size: Size, w: World, s: Step) {
    if s.Start? then s.p !in w.processes
    else
      && s.p in w.processes
      && var phase := w.processes[s.p].phase;
      match s
      case Start(_) => false
      case Lock(_, _) => phase.Idle? && w.lock == None
      case Load(_) => phase.Locked?
      case LoadFails(_) => phase.Locked?
      case Assign(_) => phase.HasLoaded?
      case Write(_, count) => phase.Writing? && count > 0 && phase.written + count <= size(phase.state)
      case SaveFails(_) => phase.Writing?
      case Rename(_) => phase.Writing? && phase.written == size(phase.state)
      case Remember(_) => phase.Replaced?
      case RememberFails(_) => phase.Replaced?
      case Crash(_) => true
  }

  ghost function Take(size: Size, w: World, s: Step): World
    requires Enabled(size, w, s)
  {
    if s.Start? then w.(processes := w.processes[s.p := Process(Idle, NO_CACHE)])
    else
      var Process(phase, cache) := w.processes[s.p];
      match s
      case Start(_) => w
      case Lock(_, entries) => Put(w, s.p, Locked(entries), cache)
      case Load(_) =>
        (match LoadedCached(w.file, cache, NO_FAULTS)
         case Err(_) => Put(w, s.p, Idle, cache)
         case Ok(state) => Put(w, s.p, HasLoaded(phase.entries, state), cache))
      case LoadFails(_) => Put(w, s.p, Idle, cache)
      case Assign(_) =>
        (match AssignFrom(phase.state, false, phase.entries)
         case Err(_) => Put(w, s.p, Idle, cache)
         case Ok((state, changed)) =>
           if changed then Put(w, s.p, Writing(phase.entries, Sorted(state), 0), cache)
           else Put(w, s.p, Replaced(phase.entries, state), cache))
      case Write(_, count) => Put(w, s.p, phase.(written := phase.written + count), cache)
      case SaveFails(_) => Put(w, s.p, Idle, cache.(valid := false))
      case Rename(_) =>
        Put(w, s.p, Replaced(phase.entries, phase.state), cache)
          .(file := Some(Stored(w.fresh_, phase.state, size(phase.state))), fresh_ := w.fresh_ + 1)
      case Remember(_) => Put(w, s.p, Idle, Remembered(w.file, cache, phase.state, NO_FAULTS))
      case RememberFails(_) => Put(w, s.p, Idle, cache.(valid := false))
      case Crash(_) =>
        w.(processes := w.processes - {s.p}, lock := if w.lock == Some(s.p) then None else w.lock)
  }

  const START := World(None, 0, None, map[])

  /** Every entry of an Assign has its number. */
  ghost predicate Numbered(entries: seq<Seen>, f: File) {
    forall e | e in entries :: exists number :: (e.id, number) in Pairs(f)
  }

  /** What the process inside the lock holds in its hands agrees with the file on disk. */
  ghost predicate InStep(file: Option<Stored>, phase: Phase) {
    match phase
    case Idle => true
    case Locked(_) => true
    case HasLoaded(_, state) => state == Written(file)
    case Writing(entries, state, _) =>
      var next := AssignFrom(Written(file), false, entries);
      next.Ok? && next.value.1 && state == Sorted(next.value.0)
    case Replaced(entries, state) => state == Written(file) && Numbered(entries, state)
  }

  ghost predicate Sane(w: World) {
    && Good(w.file)
    && (w.file.Some? ==> w.file.value.identity < w.fresh_)
    && (forall p | p in w.processes :: CacheAgrees(w.file, w.fresh_, w.processes[p].cache))
    && (forall p | p in w.processes :: w.processes[p].phase.Idle? <==> w.lock != Some(p))
    && (w.lock.Some? ==> w.lock.value in w.processes)
    && (forall p | p in w.processes :: InStep(w.file, w.processes[p].phase))
  }

  lemma {:induction false} OthersAreIdle(w: World, p: nat, q: nat)
    requires Sane(w) && p in w.processes && q in w.processes && p != q && !w.processes[p].phase.Idle?
    ensures w.processes[q].phase.Idle?
  {
  }

  /** A step of one process that leaves the file alone. */
  lemma {:induction false} PutKeepsSane(w: World, p: nat, phase: Phase, cache: Cache)
    requires Sane(w) && p in w.processes && (w.lock == None || w.lock == Some(p))
    requires CacheAgrees(w.file, w.fresh_, cache) && InStep(w.file, phase)
    ensures Sane(Put(w, p, phase, cache))
  {
    hide CacheAgrees, InStep, Loaded;
  }

  lemma {:induction false} LoadKeepsSane(size: Size, w: World, p: nat)
    requires Sane(w) && Enabled(size, w, Load(p))
    ensures Sane(Take(size, w, Load(p))) && Take(size, w, Load(p)).file == w.file
  {
    var Process(phase, cache) := w.processes[p];
    CacheIsTheFile(w.file, w.fresh_, cache, NO_FAULTS);
    hide CacheAgrees, LoadedCached, Loaded;
    if LoadedCached(w.file, cache, NO_FAULTS).Ok? {
      PutKeepsSane(w, p, HasLoaded(phase.entries, Written(w.file)), cache);
    } else {
      PutKeepsSane(w, p, Idle, cache);
    }
  }

  lemma {:induction false} AssignKeepsSane(size: Size, w: World, p: nat)
    requires Sane(w) && Enabled(size, w, Assign(p))
    ensures Sane(Take(size, w, Assign(p))) && Take(size, w, Assign(p)).file == w.file
  {
    var Process(phase, cache) := w.processes[p];
    assert InStep(w.file, phase);
    hide CacheAgrees, Loaded, Sorted, Validated, Pairs, Sane, AssignFrom;
    if AssignFrom(phase.state, false, phase.entries).Ok? {
      AssignKeeps(phase.state, false, phase.entries);
      var (state, changed) := AssignFrom(phase.state, false, phase.entries).value;
      if changed {
        PutWhole(w, p, Writing(phase.entries, Sorted(state), 0), cache);
      } else {
        PutWhole(w, p, Replaced(phase.entries, state), cache);
      }
    } else {
      PutWhole(w, p, Idle, cache);
    }
  }

  lemma {:induction false} PutWhole(w: World, p: nat, phase: Phase, cache: Cache)
    requires Sane(w) && p in w.processes && !w.processes[p].phase.Idle? && cache == w.processes[p].cache
    requires InStep(w.file, phase)
    ensures Sane(Put(w, p, phase, cache))
  {
    hide InStep, Loaded;
    PutKeepsSane(w, p, phase, cache);
  }

  /** The file a Writing process is about to put in place. */
  lemma {:induction false} PendingIsGood(w: World, p: nat)
    requires Sane(w) && p in w.processes && w.processes[p].phase.Writing?
    ensures var Writing(entries, state, _) := w.processes[p].phase;
      Validated(state) && Extends(Written(w.file), state) && Numbered(entries, state)
  {
    var Writing(entries, state, _) := w.processes[p].phase;
    var f := Written(w.file);
    var next := AssignFrom(f, false, entries);
    assert next.Ok? && next.value.1 && state == Sorted(next.value.0) by { assert InStep(w.file, w.processes[p].phase); }
    hide Loaded, Sorted, Validated, Extends, AssignFrom, Pairs;
    AssignKeeps(f, false, entries);
    SortedKeeps(next.value.0);
    ExtendsTransitive(f, next.value.0, state);
  }

  lemma {:induction false} RenameKeepsSane(size: Size, w: World, p: nat)
    requires Sane(w) && Enabled(size, w, Rename(p))
    ensures Sane(Take(size, w, Rename(p)))
    ensures Extends(Written(w.file), Written(Take(size, w, Rename(p)).file)) && Take(size, w, Rename(p)).file.Some?
  {
    var w' := Take(size, w, Rename(p));
    PendingIsGood(w, p);
    hide Extends, Validated, Numbered;
    forall q | q in w'.processes
      ensures CacheAgrees(w'.file, w'.fresh_, w'.processes[q].cache)
      ensures InStep(w'.file, w'.processes[q].phase)
      ensures w'.processes[q].phase.Idle? <==> w'.lock != Some(q)
    {
      assert CacheAgrees(w.file, w.fresh_, w.processes[q].cache);
      if q != p {
        OthersAreIdle(w, p, q);
      }
    }
  }

  lemma {:induction false} RememberKeepsSane(size: Size, w: World, p: nat)
    requires Sane(w) && Enabled(size, w, Remember(p))
    ensures Sane(Take(size, w, Remember(p))) && Take(size, w, Remember(p)).file == w.file
  {
    var phase := w.processes[p].phase;
    assert InStep(w.file, phase);
    hide Validated, Numbered;
    PutKeepsSane(w, p, Idle, Remembered(w.file, w.processes[p].cache, phase.state, NO_FAULTS));
  }

  lemma {:induction false} LockKeepsSane(size: Size, w: World, p: nat, entries: seq<Seen>)
    requires Sane(w) && Enabled(size, w, Lock(p, entries))
    ensures Sane(Take(size, w, Lock(p, entries))) && Take(size, w, Lock(p, entries)).file == w.file
  {
    PutKeepsSane(w, p, Locked(entries), w.processes[p].cache);
  }

  lemma {:induction false} WriteKeepsSane(size: Size, w: World, p: nat, count: nat)
    requires Sane(w) && Enabled(size, w, Write(p, count))
    ensures Sane(Take(size, w, Write(p, count))) && Take(size, w, Write(p, count)).file == w.file
  {
    var phase := w.processes[p].phase;
    assert InStep(w.file, phase);
    PutWhole(w, p, phase.(written := phase.written + count), w.processes[p].cache);
  }

  lemma {:induction false} FailureKeepsSane(size: Size, w: World, s: Step)
    requires Sane(w) && Enabled(size, w, s) && (s.LoadFails? || s.SaveFails? || s.RememberFails?)
    ensures Sane(Take(size, w, s)) && Take(size, w, s).file == w.file
  {
    var cache := w.processes[s.p].cache;
    assert CacheAgrees(w.file, w.fresh_, cache);
    hide Good;
    PutKeepsSane(w, s.p, Idle, if s.LoadFails? then cache else cache.(valid := false));
  }

  lemma {:induction false} ComingAndGoingKeepSane(size: Size, w: World, s: Step)
    requires Sane(w) && Enabled(size, w, s) && (s.Start? || s.Crash?)
    ensures Sane(Take(size, w, s)) && Take(size, w, s).file == w.file
  {
    hide Loaded, AssignFrom, Numbered, Sorted;
  }

  /** Every step of every process keeps the world sane, and the contents only ever grow. */
  lemma {:induction false} StepKeepsSane(size: Size, w: World, s: Step)
    requires Sane(w) && Enabled(size, w, s)
    ensures Sane(Take(size, w, s))
    ensures Extends(Written(w.file), Written(Take(size, w, s).file))
    ensures w.file.Some? ==> Take(size, w, s).file.Some?
  {
    ExtendsSelf(Written(w.file));
    hide Sane, Take, Enabled, Extends, Loaded;
    match s {
      case Load(p) => LoadKeepsSane(size, w, p);
      case Assign(p) => AssignKeepsSane(size, w, p);
      case Rename(p) => RenameKeepsSane(size, w, p);
      case Remember(p) => RememberKeepsSane(size, w, p);
      case Lock(p, entries) => LockKeepsSane(size, w, p, entries);
      case Write(p, count) => WriteKeepsSane(size, w, p, count);
      case LoadFails(_) => FailureKeepsSane(size, w, s);
      case SaveFails(_) => FailureKeepsSane(size, w, s);
      case RememberFails(_) => FailureKeepsSane(size, w, s);
      case Start(_) => ComingAndGoingKeepSane(size, w, s);
      case Crash(_) => ComingAndGoingKeepSane(size, w, s);
    }
  }

  /** A run from an empty disk: worlds, each reached from the one before by some step of some process. */
  ghost predicate IsRun(size: Size, run: seq<World>) {
    && |run| > 0 && run[0] == START
    && forall i | 0 <= i < |run| - 1 :: exists s :: Enabled(size, run[i], s) && run[i + 1] == Take(size, run[i], s)
  }

  /** In every world of every run a reader without a lock finds a valid file, and every cache can be trusted. */
  lemma {:induction false} RunIsSane(size: Size, run: seq<World>, i: nat)
    requires IsRun(size, run) && i < |run|
    ensures Sane(run[i])
  {
    if i == 0 {
      FreshIsValid();
    } else {
      RunIsSane(size, run, i - 1);
      var s :| Enabled(size, run[i - 1], s) && run[i - 1 + 1] == Take(size, run[i - 1], s);
      StepKeepsSane(size, run[i - 1], s);
    }
  }

  lemma {:induction false} RunStep(size: Size, run: seq<World>, i: nat)
    requires IsRun(size, run) && i + 1 < |run|
    ensures Sane(run[i]) && Sane(run[i + 1]) && Extends(Written(run[i].file), Written(run[i + 1].file))
    ensures run[i].file.Some? ==> run[i + 1].file.Some?
  {
    RunIsSane(size, run, i);
    hide Extends, Sane, Take, Enabled;
    var s :| Enabled(size, run[i], s) && run[i + 1] == Take(size, run[i], s);
    StepKeepsSane(size, run[i], s);
  }

  lemma {:induction false} RunExtends(size: Size, run: seq<World>, i: nat, j: nat)
    requires IsRun(size, run) && i <= j < |run|
    ensures Sane(run[i]) && Sane(run[j]) && Extends(Written(run[i].file), Written(run[j].file))
    ensures run[i].file.Some? ==> run[j].file.Some?
    decreases j
  {
    hide Extends, Sane, IsRun, Loaded;
    if i == j {
      RunIsSane(size, run, i);
      ExtendsSelf(Written(run[i].file));
    } else {
      RunExtends(size, run, i, j - 1);
      RunStep(size, run, j - 1);
      ExtendsTransitive(Written(run[i].file), Written(run[j - 1].file), Written(run[j].file));
    }
  }

  /** Over a whole run, crashes included, a number belongs to one device and a device to one number, for ever. */
  lemma {:induction false} NumbersAreForEver(size: Size, run: seq<World>, i: nat, j: nat,
                                             id: string, number: nat, id': string, number': nat)
    requires IsRun(size, run) && i <= j < |run|
    requires (id, number) in Pairs(Written(run[i].file))
    requires (id', number') in Pairs(Written(run[j].file))
    ensures id == id' <==> number == number'
    ensures (id, number) in Pairs(Written(run[j].file))
  {
    RunExtends(size, run, i, j);
    hide Sane, Validated, Loaded;
    var f, g := Written(run[i].file), Written(run[j].file);
    if id == id' {
      NumberIsKept(f, g, id, number, number');
    }
    if number == number' {
      NumberIsNeverReused(f, g, id, id', number);
    }
    hide Pairs;
  }

  /** load, with whatever happens between its look at the file and its reading. */
  ghost function LoadedInSteps(stat: Option<Stored>, read: Option<Stored>): Result<File> {
    if stat.None? then Ok(FRESH)
    else if !Small(stat) then Err(TOO_LARGE)
    else if Good(read) then Ok(Written(read))
    else Err(INVALID_FILE)
  }

  /** With nothing in between it is one step. */
  lemma {:induction false} OneStepLoads(file: Option<Stored>)
    ensures LoadedInSteps(file, file) == Loaded(file)
  {
    FreshIsValid();
  }

  /**
   A reader looks for the file in one world and reads it in a later one; the limit is held against the size that it
   saw, not against what it reads. It never misses a file it saw; it fails only if that one had outgrown the limit; and
   what it gets is valid and is extended by all that is written afterwards.
   */
  lemma {:induction false} ReaderSees(size: Size, run: seq<World>, stat: nat, read: nat, later: nat)
    requires IsRun(size, run) && stat <= read <= later < |run|
    ensures run[stat].file.Some? ==> run[read].file.Some?
    ensures var seen := LoadedInSteps(run[stat].file, run[read].file);
      && (seen.Ok? <==> Small(run[stat].file))
      && (seen.Ok? ==> Validated(seen.value) && Extends(seen.value, Written(run[later].file)))
  {
    hide Extends, Sane, Take, Enabled, Validated;
    RunExtends(size, run, stat, read);
    RunExtends(size, run, read, later);
    RunExtends(size, run, stat, later);
    FreshIsValid();
    assert Good(run[read].file) by { hide *; SaneIsGood(run[read]); }
  }

  lemma {:induction false} SaneIsGood(w: World)
    requires Sane(w)
    ensures Good(w.file)
  {
  }

  /** What an Assign is about to answer with is in the file, and stays in it for ever. */
  lemma {:induction false} AnswersAreForEver(size: Size, run: seq<World>, i: nat, j: nat, p: nat)
    requires IsRun(size, run) && i <= j < |run|
    requires p in run[i].processes && run[i].processes[p].phase.Replaced?
    ensures Numbered(run[i].processes[p].phase.entries, Written(run[j].file))
    ensures Pairs(run[i].processes[p].phase.state) <= Pairs(Written(run[j].file))
  {
    RunExtends(size, run, i, j);
    assert InStep(run[i].file, run[i].processes[p].phase);
    hide Sane, IsRun, Pairs, Extends, Numbered;
    NumberedForEver(run[i].processes[p].phase.entries, Written(run[i].file), Written(run[j].file));
  }

  lemma {:induction false} NumberedForEver(entries: seq<Seen>, f: File, g: File)
    requires Numbered(entries, f) && Extends(f, g)
    ensures Numbered(entries, g) && Pairs(f) <= Pairs(g)
  {
    hide Pairs;
    forall e | e in entries
      ensures exists number :: (e.id, number) in Pairs(g)
    {
      var number :| (e.id, number) in Pairs(f);
    }
  }

  /**
   What an Assign displayed, any reader finds from then on: whatever happened in between, the search for the old
   hexadecimal form lists the object, under a form that begins with the old one and with its old number.
   */
  lemma {:induction false} AnsweredIsFound(size: Size, run: seq<World>, i: nat, stat: nat, read: nat, p: nat,
                                           sha: Hasher, r: Record, list: seq<Reference>)
    requires IsRun(size, run) && i <= stat <= read < |run| && Small(run[stat].file)
    requires p in run[i].processes && run[i].processes[p].phase.Replaced?
    requires r in run[i].processes[p].phase.state.objects
    requires var shown := ReferenceOf(sha, run[i].processes[p].phase.state.objects, r);
      var seen := LoadedInSteps(run[stat].file, run[read].file);
      seen.Ok? && ParseSelector(shown.hex).Ok? ==> AreCandidates(sha, seen.value, ParseSelector(shown.hex).value, list)
    ensures var shown := ReferenceOf(sha, run[i].processes[p].phase.state.objects, r);
      exists found | found in list ::
        found.deviceId == r.deviceId && found.number == r.number && HasPrefix(found.hex, shown.hex)
  {
    RunExtends(size, run, i, stat);
    RunExtends(size, run, i, read);
    ReaderSees(size, run, stat, read, read);
    var f, g := run[i].processes[p].phase.state, Written(run[read].file);
    assert f == Written(run[i].file) by { assert InStep(run[i].file, run[i].processes[p].phase); }
    assert ValidRecord(r, f.next);
    hide Sane, IsRun, InStep, ReferenceOf, ParseSelector, AreCandidates, LoadedInSteps, Good;
    FileIsThere(run[i].file, run[stat].file, r);
    SeenIsRead(run[stat].file, run[read].file);
    assert (r.deviceId, r.number) in Pairs(f) && (r.deviceId, r.number) in Pairs(g);
    var s :| s in g.objects && (s.deviceId, s.number) == (r.deviceId, r.number);
    hide Pairs, Extends;
    DisplayedParses(sha, f, r);
    OldHexStillFinds(sha, f, g, r, s, list);
    DeviceOf(sha, g.objects, s);
  }

  lemma {:induction false} FileIsThere(earlier: Option<Stored>, later: Option<Stored>, r: Record)
    requires r in Written(earlier).objects && Extends(Written(earlier), Written(later))
    ensures later.Some?
  {
    assert (r.deviceId, r.number) in Pairs(Written(earlier));
  }

  lemma {:induction false} SeenIsRead(stat: Option<Stored>, read: Option<Stored>)
    requires stat.Some? && LoadedInSteps(stat, read).Ok?
    ensures LoadedInSteps(stat, read).value == Written(read)
  {
  }

  // ---------- the protocol and the store ----------

  function TakeWriting(size: Size, w: World, p: nat): World
    requires p in w.processes && w.processes[p].phase.Writing?
  {
    Put(w, p, w.processes[p].phase.(written := size(w.processes[p].phase.state)), w.processes[p].cache)
  }

  /** An Assign that nobody interrupts does to file and cache what the store's Assign does. */
  lemma {:induction false} UninterruptedAssign(size: Size, w: World, p: nat, entries: seq<Seen>)
    requires Sane(w) && p in w.processes && w.lock == None && Enabled(size, w, Lock(p, entries))
    ensures var Process(_, cache) := w.processes[p];
      var (file', cache', r) := Assigned(size, w.file, w.fresh_, cache, entries, NO_FAULTS);
      var loaded := Take(size, Take(size, w, Lock(p, entries)), Load(p));
      if LoadedCached(w.file, cache, NO_FAULTS).Err? then
        r.Err? && loaded.processes[p] == Process(Idle, cache') && loaded.file == file'
      else
      && Enabled(size, loaded, Assign(p))
      && var decided := Take(size, loaded, Assign(p));
      && (r.Err? ==> decided.processes[p] == Process(Idle, cache') && decided.file == file')
      && (r.Ok? && decided.processes[p].phase.Writing? ==>
            && Enabled(size, TakeWriting(size, decided, p), Rename(p))
            && var renamed := Take(size, TakeWriting(size, decided, p), Rename(p));
            && Enabled(size, renamed, Remember(p))
            && var done := Take(size, renamed, Remember(p));
            done.processes[p] == Process(Idle, cache') && done.file == file' && done.lock == None)
      && (r.Ok? && !decided.processes[p].phase.Writing? ==>
            && Enabled(size, decided, Remember(p))
            && var done := Take(size, decided, Remember(p));
            done.processes[p] == Process(Idle, cache') && done.file == file' && done.lock == None)
  {
    CacheIsTheFile(w.file, w.fresh_, w.processes[p].cache, NO_FAULTS);
    hide AssignFrom, Sorted, Validated, InStep;
  }
}
