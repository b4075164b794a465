/**
 Go slices of records (profiles/object_references.go): a length and an array that several slices may share, so that
 writing through one can be seen through another, and only a clone is safe.
 */
module RecordSlices {
  import opened Sorting
  import opened References
  import opened ReferenceFile

  datatype Slice = Slice(store: array<Record>, len: nat) {
    ghost predicate Valid() {
      len <= store.Length
    }

    ghost function Items(): seq<Record>
      requires Valid()
      reads store
    {
      store[..len]
    }
  }

  /** An objectReferenceFile in memory. */
  datatype Held = Held(schema: int, next: Uint64, objects: Slice) {
    ghost predicate Valid() {
      objects.Valid()
    }

    ghost function Value(): File
      requires Valid()
      reads objects.store
    {
      File(schema, next, objects.Items())
    }
  }

  /** append(s, r): in the same array while there is room, and then in a larger one. */
  method Append(s: Slice, r: Record) returns (s': Slice)
    requires s.Valid()
    modifies s.store
    ensures s'.Valid() && s'.Items() == old(s.Items()) + [r]
    ensures s'.store == s.store || fresh(s'.store)
  {
    if s.len < s.store.Length {
      s.store[s.len] := r;
      return Slice(s.store, s.len + 1);
    }
    var larger := new Record[2 * s.len + 1](_ => r);
    for k := 0 to s.len
      invariant larger[..k] == s.store[..k]
      invariant forall i | k <= i < larger.Length :: larger[i] == r
      invariant s.store[..] == old(s.store[..])
    {
      larger[k] := s.store[k];
    }
    return Slice(larger, s.len + 1);
  }

  /** append([]objectReferenceRecord(nil), s...): the same records in an array of their own. */
  method Clone(s: Slice) returns (s': Slice)
    requires s.Valid()
    ensures s'.Valid() && s'.Items() == s.Items() && fresh(s'.store)
  {
    var copy := new Record[s.len](i requires 0 <= i < s.len <= s.store.Length reads s.store => s.store[i]);
    return Slice(copy, s.len);
  }

  /** A slice of given records in an array of its own. */
  method Literal(records: seq<Record>) returns (s: Slice)
    ensures s.Valid() && s.Items() == records && fresh(s.store)
  {
    var store := new Record[|records|](i requires 0 <= i < |records| => records[i]);
    return Slice(store, |records|);
  }

  /** s[index].Type = kind */
  method SetKind(s: Slice, index: nat, kind: string)
    requires s.Valid() && index < s.len
    modifies s.store
    ensures s.Items() == old(s.Items())[index := old(s.Items())[index].(kind := kind)]
  {
    s.store[index] := s.store[index].(kind := kind);
  }

  /** sort.Slice by number, in place. */
  method SortByNumber(s: Slice)
    requires s.Valid()
    modifies s.store
    ensures s.Items() == StableSort(old(s.Items()), NumberLess)
  {
    SortFirst(s.store, s.len, NumberLess);
  }
}
