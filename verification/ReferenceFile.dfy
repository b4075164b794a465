/**
 The contents of an object reference file (profiles/object_references.go): what is valid, what Assign does to it,
 and why a device ID keeps its number and nobody else gets it.
 */
module ReferenceFile {
  import opened Results
  import opened Text
  import opened Sorting
  import opened References

  const SCHEMA := 1
  const MAX_UINT64 := 0xffff_ffff_ffff_ffff

  const INVALID_ENTRY := "profiles: invalid object reference entry"
  const EXHAUSTED := "profiles: object reference number space is exhausted"
  const INVALID_FILE := "profiles: invalid object reference file"

  type Uint64 = n: nat | n <= MAX_UINT64

  datatype File = File(schema: int, next: Uint64, objects: seq<Record>)

  const FRESH := File(SCHEMA, 0, [])

  /** What Assign is told of a device entry. */
  datatype Seen = Seen(id: string, kind: string)

  predicate ValidKind(kind: string) {
    kind == "document" || kind == "folder"
  }

  predicate ValidRecord(r: Record, next: nat) {
    ValidId(r.deviceId) && ValidKind(r.kind) && r.number < next
  }

  predicate DistinctNumbers(records: seq<Record>) {
    forall i, j | 0 <= i < j < |records| :: records[i].number != records[j].number
  }

  ghost predicate Validated(f: File) {
    && f.schema == SCHEMA
    && (forall r | r in f.objects :: ValidRecord(r, f.next))
    && DistinctNumbers(f.objects)
    && DistinctIds(f.objects)
  }

  /** validateObjectReferenceFile: the error, if there is one. */
  method Validate(f: File) returns (error: Option<string>)
    ensures error == None <==> Validated(f)
  {
    hide ValidId;
    if f.schema != SCHEMA {
      return Some("profiles: unsupported object reference schema");
    }
    var numbers: set<nat>, ids: set<string> := {}, {};
    for k := 0 to |f.objects|
      invariant numbers == set i | 0 <= i < k :: f.objects[i].number
      invariant ids == set i | 0 <= i < k :: f.objects[i].deviceId
      invariant forall i | 0 <= i < k :: ValidRecord(f.objects[i], f.next)
      invariant forall i, j | 0 <= i < j < k :: f.objects[i].number != f.objects[j].number
      invariant forall i, j | 0 <= i < j < k :: f.objects[i].deviceId != f.objects[j].deviceId
    {
      var record := f.objects[k];
      assert record in f.objects;
      if !ValidId(record.deviceId) {
        return Some("profiles: invalid object reference device ID");
      }
      if !ValidKind(record.kind) {
        return Some("profiles: invalid object reference type");
      }
      if record.number >= f.next {
        return Some("profiles: invalid object reference sequence");
      }
      if record.number in numbers {
        return Some("profiles: duplicate object reference number");
      }
      if record.deviceId in ids {
        return Some("profiles: duplicate object reference device ID");
      }
      numbers, ids := numbers + {record.number}, ids + {record.deviceId};
    }
    return None;
  }

  // ---------- Assign, as a function ----------

  /** byID: the index of a device ID among the records. */
  function Find(objects: seq<Record>, id: string): (index: Option<nat>)
    ensures index.Some? ==> index.value < |objects| && objects[index.value].deviceId == id
    ensures index.None? ==> forall r | r in objects :: r.deviceId != id
  {
    if objects == [] then None
    else if objects[|objects| - 1].deviceId == id then Some(|objects| - 1)
    else
      assert objects == objects[..|objects| - 1] + [objects[|objects| - 1]];
      Find(objects[..|objects| - 1], id)
  }

  /** One turn of the loop of Assign; the flag says whether the file changed. */
  function AssignOne(f: File, e: Seen): Result<(File, bool)> {
    if !ValidId(e.id) || !ValidKind(e.kind) then Err(INVALID_ENTRY)
    else match Find(f.objects, e.id)
      case Some(index) =>
        if f.objects[index].kind == e.kind then Ok((f, false))
        else Ok((f.(objects := f.objects[index := f.objects[index].(kind := e.kind)]), true))
      case None =>
        if f.next == MAX_UINT64 then Err(EXHAUSTED)
        else Ok((f.(objects := f.objects + [Record(f.next, e.id, e.kind)], next := f.next + 1), true))
  }

  function AssignFrom(f: File, changed: bool, entries: seq<Seen>): Result<(File, bool)>
    decreases |entries|
  {
    if entries == [] then Ok((f, changed)) else
      match AssignOne(f, entries[0])
      case Err(error) => Err(error)
      case Ok((f', one)) => AssignFrom(f', changed || one, entries[1..])
  }

  // ---------- what Assign keeps ----------

  /** Who has which number. */
  ghost function Pairs(f: File): set<(string, nat)> {
    set r | r in f.objects :: (r.deviceId, r.number)
  }

  /** The later file keeps every number where it was and gives out only numbers that were never given out. */
  ghost predicate Extends(f: File, g: File) {
    && f.next <= g.next
    && Pairs(f) <= Pairs(g)
    && forall p | p in Pairs(g) - Pairs(f) :: p.1 >= f.next
  }

  lemma {:induction false} ExtendsTransitive(f: File, g: File, h: File)
    requires Extends(f, g) && Extends(g, h)
    ensures Extends(f, h)
  {
  }

  /** A number names one device for ever. */
  lemma {:induction false} NumberIsNeverReused(f: File, g: File, id: string, other: string, number: nat)
    requires Validated(g) && Extends(f, g)
    requires (id, number) in Pairs(f) && (other, number) in Pairs(g)
    ensures id == other
  {
    hide ValidRecord;
    assert (id, number) in Pairs(g);
    var r :| r in g.objects && (r.deviceId, r.number) == (id, number);
    var s :| s in g.objects && (s.deviceId, s.number) == (other, number);
    var i :| 0 <= i < |g.objects| && g.objects[i] == r;
    var j :| 0 <= j < |g.objects| && g.objects[j] == s;
    assert i == j;
  }

  /** A device keeps its number for ever. */
  lemma {:induction false} NumberIsKept(f: File, g: File, id: string, number: nat, later: nat)
    requires Validated(g) && Extends(f, g)
    requires (id, number) in Pairs(f) && (id, later) in Pairs(g)
    ensures number == later
  {
    hide ValidRecord;
    assert (id, number) in Pairs(g);
    var r :| r in g.objects && (r.deviceId, r.number) == (id, number);
    var s :| s in g.objects && (s.deviceId, s.number) == (id, later);
    var i :| 0 <= i < |g.objects| && g.objects[i] == r;
    var j :| 0 <= j < |g.objects| && g.objects[j] == s;
    assert i == j;
  }

  lemma {:induction false} AppendKeeps(f: File, id: string, kind: string)
    requires Validated(f) && ValidId(id) && ValidKind(kind) && f.next < MAX_UINT64
    requires forall r | r in f.objects :: r.deviceId != id
    ensures var g := f.(objects := f.objects + [Record(f.next, id, kind)], next := f.next + 1);
      Validated(g) && Extends(f, g) && (id, f.next) in Pairs(g)
  {
    hide ValidId, ValidKind;
    var r := Record(f.next, id, kind);
    var g := f.(objects := f.objects + [r], next := f.next + 1);
    assert forall x :: x in g.objects <==> x in f.objects || x == r;
    assert Pairs(g) == Pairs(f) + {(id, f.next)};
    forall i | 0 <= i < |f.objects|
      ensures f.objects[i].number != f.next && f.objects[i].deviceId != id
    {
      assert f.objects[i] in f.objects;
    }
  }

  lemma {:induction false} KindChangeKeeps(f: File, index: nat, kind: string)
    requires Validated(f) && index < |f.objects| && ValidKind(kind)
    ensures var g := f.(objects := f.objects[index := f.objects[index].(kind := kind)]);
      Validated(g) && Extends(f, g) && Pairs(g) == Pairs(f)
  {
    hide ValidId, ValidKind;
    var g := f.(objects := f.objects[index := f.objects[index].(kind := kind)]);
    forall r | r in g.objects
      ensures ValidRecord(r, g.next) && (r.deviceId, r.number) in Pairs(f)
    {
      var i :| 0 <= i < |g.objects| && g.objects[i] == r;
      assert f.objects[i] in f.objects;
    }
    forall r | r in f.objects
      ensures (r.deviceId, r.number) in Pairs(g)
    {
      var i :| 0 <= i < |f.objects| && f.objects[i] == r;
      assert g.objects[i] in g.objects;
    }
  }

  lemma {:induction false} AssignOneKeeps(f: File, e: Seen)
    requires Validated(f) && AssignOne(f, e).Ok?
    ensures var (g, _) := AssignOne(f, e).value;
      && Validated(g) && Extends(f, g)
      && (exists number :: (e.id, number) in Pairs(g))
  {
    hide ValidId, ValidKind, Validated, Extends;
    match Find(f.objects, e.id) {
      case Some(index) =>
        KindChangeKeeps(f, index, e.kind);
        assert f.objects[index] in f.objects;
        assert (e.id, f.objects[index].number) in Pairs(f);
        assert Extends(f, f) by { hide *; ExtendsSelf(f); }
      case None =>
        AppendKeeps(f, e.id, e.kind);
    }
  }

  lemma {:induction false} ExtendsSelf(f: File)
    ensures Extends(f, f)
  {
  }

  /** Assign keeps a valid file valid, extends it, and gives every entry it saw a number. */
  lemma {:induction false} AssignKeeps(f: File, changed: bool, entries: seq<Seen>)
    requires Validated(f) && AssignFrom(f, changed, entries).Ok?
    ensures var (g, changed') := AssignFrom(f, changed, entries).value;
      && Validated(g) && Extends(f, g)
      && (forall e | e in entries :: exists number :: (e.id, number) in Pairs(g))
      && (changed ==> changed') && (!changed' ==> g == f)
    decreases |entries|
  {
    hide AssignOne, Validated, Pairs;
    if entries == [] {
      ExtendsSelf(f);
    } else {
      var (f', one) := AssignOne(f, entries[0]).value;
      AssignOneKeeps(f, entries[0]);
      assert !one ==> f' == f by { hide *; UnchangedIsSame(f, entries[0]); }
      AssignKeeps(f', changed || one, entries[1..]);
      var (g, _) := AssignFrom(f', changed || one, entries[1..]).value;
      ExtendsTransitive(f, f', g);
    }
  }

  lemma {:induction false} UnchangedIsSame(f: File, e: Seen)
    ensures AssignOne(f, e).Ok? && !AssignOne(f, e).value.1 ==> AssignOne(f, e).value.0 == f
  {
    hide ValidId, ValidKind;
  }

  // ---------- save ----------

  predicate NumberLess(a: Record, b: Record) {
    a.number < b.number
  }

  /** The file as save writes it, and leaves it in memory: sorted by number. */
  function Sorted(f: File): File {
    f.(objects := StableSort(f.objects, NumberLess))
  }

  lemma {:induction false} SortedKeeps(f: File)
    requires Validated(f)
    ensures Validated(Sorted(f)) && Pairs(Sorted(f)) == Pairs(f) && Extends(f, Sorted(f))
  {
    hide StableSort, ValidRecord;
    var g := Sorted(f);
    forall r
      ensures r in g.objects <==> r in f.objects
    {
      SameElements(f.objects, g.objects, r);
    }
    forall i, j | 0 <= i < j < |g.objects|
      ensures g.objects[i].number != g.objects[j].number && g.objects[i].deviceId != g.objects[j].deviceId
    {
      PermutedRecordsDiffer(f.objects, g.objects, i, j);
    }
  }

  lemma {:induction false} PermutedRecordsDiffer(s: seq<Record>, t: seq<Record>, i: nat, j: nat)
    requires multiset(s) == multiset(t) && i < j < |t| && DistinctNumbers(s) && DistinctIds(s)
    ensures t[i].number != t[j].number && t[i].deviceId != t[j].deviceId
  {
    if t[i].number == t[j].number || t[i].deviceId == t[j].deviceId {
      SameElements(s, t, t[i]);
      SameElements(s, t, t[j]);
      var a :| 0 <= a < |s| && s[a] == t[i];
      var b :| 0 <= b < |s| && s[b] == t[j];
      assert a == b;
      TwoPlaces(t, i, j);
      OccursTwice(s, t[i]);
    }
  }
}
