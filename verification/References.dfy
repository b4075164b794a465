/**
 The references a store shows for its records (profiles/object_references.go): persistent numbers, and the shortest
 unique digest prefixes, which the code finds by sorting the digests and looking at neighbours only.
 */
module References {
  import opened Sorting

  const MINIMUM_HEX_DIGITS := 6
  const DIGEST_DIGITS := 64

  predicate IsHexDigit(c: char) {
    '0' <= c <= '9' || 'a' <= c <= 'f'
  }

  predicate IsHex(s: string) {
    forall i | 0 <= i < |s| :: IsHexDigit(s[i])
  }

  /** A SHA-256 sum in hexadecimal. */
  type Digest = s: string | |s| == DIGEST_DIGITS && IsHex(s) witness seq(DIGEST_DIGITS, _ => '0')

  /** The digest of a device ID. Nothing is assumed of it; two IDs may share a digest. */
  type Hasher = string -> Digest

  datatype Record = Record(number: nat, deviceId: string, kind: string)

  datatype Reference = Reference(number: nat, hex: string, deviceId: string, kind: string)

  function CommonPrefix(a: string, b: string): (n: nat)
    ensures n <= |a| && n <= |b|
    ensures a[..n] == b[..n]
    ensures n < |a| && n < |b| ==> a[n] != b[n]
  {
    if a == [] || b == [] || a[0] != b[0] then 0 else
      var n := 1 + CommonPrefix(a[1..], b[1..]);
      assert a[..n] == [a[0]] + a[1..][..n - 1] && b[..n] == [b[0]] + b[1..][..n - 1];
      n
  }

  // ---------- the all-pairs definition ----------

  /** No other device's digest has the same first d digits. */
  ghost predicate Unique(sha: Hasher, records: seq<Record>, id: string, d: nat)
    requires d <= DIGEST_DIGITS
  {
    forall r | r in records && r.deviceId != id :: sha(r.deviceId)[..d] != sha(id)[..d]
  }

  /** The least number of digits, from d up, that is unique among all the records, or all 64. */
  ghost function ShortestFrom(sha: Hasher, records: seq<Record>, id: string, d: nat): (n: nat)
    requires d <= DIGEST_DIGITS
    ensures d <= n <= DIGEST_DIGITS
    decreases DIGEST_DIGITS - d
  {
    if d == DIGEST_DIGITS || Unique(sha, records, id, d) then d else ShortestFrom(sha, records, id, d + 1)
  }

  ghost function Digits(sha: Hasher, records: seq<Record>, id: string): (n: nat)
    ensures MINIMUM_HEX_DIGITS <= n <= DIGEST_DIGITS
  {
    ShortestFrom(sha, records, id, MINIMUM_HEX_DIGITS)
  }

  /** A record's reference when `digits` digits of its digest are shown. */
  function Showing(r: Record, digest: string, digits: nat): Reference
    requires digits <= |digest|
  {
    Reference(r.number, "0x" + digest[..digits], r.deviceId, r.kind)
  }

  ghost function ReferenceOf(sha: Hasher, records: seq<Record>, r: Record): Reference {
    Showing(r, sha(r.deviceId), Digits(sha, records, r.deviceId))
  }

  ghost predicate DistinctIds(records: seq<Record>) {
    forall i, j | 0 <= i < j < |records| :: records[i].deviceId != records[j].deviceId
  }

  /** The references are those of the all-pairs definition, one for each record. */
  ghost predicate AreReferences(sha: Hasher, records: seq<Record>, all: map<string, Reference>) {
    && (forall r | r in records :: r.deviceId in all && all[r.deviceId] == ReferenceOf(sha, records, r))
    && (forall id | id in all :: exists r | r in records :: r.deviceId == id)
  }

  /** A prefix is unique exactly when it is longer than what anybody shares. */
  lemma {:induction false} UniqueBeyondLongest(sha: Hasher, records: seq<Record>, id: string, d: nat, longest: nat)
    requires d <= DIGEST_DIGITS
    requires forall r | r in records && r.deviceId != id :: CommonPrefix(sha(r.deviceId), sha(id)) <= longest
    requires longest >= d ==>
      exists r | r in records && r.deviceId != id :: CommonPrefix(sha(r.deviceId), sha(id)) == longest
    ensures Unique(sha, records, id, d) <==> d > longest
  {
    forall r | r in records && r.deviceId != id
      ensures CommonPrefix(sha(r.deviceId), sha(id)) < d <==> sha(r.deviceId)[..d] != sha(id)[..d]
    {
      PrefixesAgree(sha(r.deviceId), sha(id), d);
    }
    hide CommonPrefix;
    if longest >= d {
      var r :| r in records && r.deviceId != id && CommonPrefix(sha(r.deviceId), sha(id)) == longest;
      assert sha(r.deviceId)[..d] == sha(id)[..d];
    }
  }

  lemma {:induction false} UniqueAtLongest(sha: Hasher, records: seq<Record>, id: string, d: nat, longest: nat)
    requires d <= DIGEST_DIGITS && longest <= DIGEST_DIGITS
    requires forall r | r in records && r.deviceId != id :: CommonPrefix(sha(r.deviceId), sha(id)) <= longest
    requires longest >= d ==>
      exists r | r in records && r.deviceId != id :: CommonPrefix(sha(r.deviceId), sha(id)) == longest
    ensures ShortestFrom(sha, records, id, d) ==
            if longest < d then d else if longest < DIGEST_DIGITS then longest + 1 else DIGEST_DIGITS
    decreases DIGEST_DIGITS - d
  {
    hide CommonPrefix, Unique;
    UniqueBeyondLongest(sha, records, id, d, longest);
    if d < DIGEST_DIGITS && longest >= d {
      UniqueAtLongest(sha, records, id, d + 1, longest);
    }
  }

  lemma {:induction false} PrefixesAgree(a: string, b: string, d: nat)
    requires d <= |a| && d <= |b|
    ensures CommonPrefix(a, b) >= d <==> a[..d] == b[..d]
  {
    var n := CommonPrefix(a, b);
    if n >= d {
      assert a[..d] == a[..n][..d] && b[..d] == b[..n][..d];
    } else {
      assert a[..d][n] == a[n] && b[..d][n] == b[n];
    }
  }

  // ---------- sorted neighbours ----------

  predicate NotAfter(a: string, b: string) {
    !StringLess(b, a)
  }

  /** Between two strings in order lie only strings that share at least what those two share. */
  lemma {:induction false} BetweenSharesMore(a: string, b: string, c: string)
    requires NotAfter(a, b) && NotAfter(b, c)
    ensures CommonPrefix(a, c) <= CommonPrefix(a, b) && CommonPrefix(a, c) <= CommonPrefix(b, c)
  {
    if a != [] && b != [] && c != [] && a[0] == c[0] {
      BetweenSharesMore(a[1..], b[1..], c[1..]);
    }
  }

  lemma {:induction false} CommonPrefixSymmetric(a: string, b: string)
    ensures CommonPrefix(a, b) == CommonPrefix(b, a)
  {
    if a != [] && b != [] {
      CommonPrefixSymmetric(a[1..], b[1..]);
    }
  }

  ghost predicate InOrder(digests: seq<string>) {
    forall i, j | 0 <= i < j < |digests| :: NotAfter(digests[i], digests[j])
  }

  function Max(a: int, b: int): int {
    if a < b then b else a
  }

  /** What the loop over the sorted digests computes for the one at `index`. */
  function NeighbourDigits(digests: seq<string>, index: nat): nat
    requires index < |digests|
  {
    var digits := MINIMUM_HEX_DIGITS;
    var digits := if index > 0 then Max(digits, CommonPrefix(digests[index], digests[index - 1]) + 1) else digits;
    var digits := if index + 1 < |digests| then Max(digits, CommonPrefix(digests[index], digests[index + 1]) + 1)
                  else digits;
    if digits > DIGEST_DIGITS then DIGEST_DIGITS else digits
  }

  /** In sorted order nobody shares more with a digest than one of its neighbours. */
  lemma {:induction false} NeighboursShareMost(digests: seq<string>, index: nat, other: nat)
    requires InOrder(digests) && index < |digests| && other < |digests| && other != index
    ensures other < index ==>
      CommonPrefix(digests[other], digests[index]) <= CommonPrefix(digests[index], digests[index - 1])
    ensures other > index ==>
      CommonPrefix(digests[other], digests[index]) <= CommonPrefix(digests[index], digests[index + 1])
  {
    if other < index {
      CommonPrefixSymmetric(digests[index], digests[index - 1]);
      if other < index - 1 {
        BetweenSharesMore(digests[other], digests[index - 1], digests[index]);
      }
    } else {
      CommonPrefixSymmetric(digests[index], digests[other]);
      if other > index + 1 {
        BetweenSharesMore(digests[index], digests[index + 1], digests[other]);
      }
    }
  }

  // ---------- the two agree ----------

  datatype DigestRecord = DigestRecord(record: Record, digest: string)

  predicate DigestLess(a: DigestRecord, b: DigestRecord) {
    StringLess(a.digest, b.digest)
  }

  lemma {:induction false} DigestLessIsOrder()
    ensures StrictWeakOrder(DigestLess)
  {
    forall a: DigestRecord, b: DigestRecord, c: DigestRecord
      ensures !DigestLess(a, a)
      ensures DigestLess(a, b) && DigestLess(b, c) ==> DigestLess(a, c)
      ensures !DigestLess(a, b) && !DigestLess(b, c) ==> !DigestLess(a, c)
    {
      StringLessIrreflexive(a.digest);
      StringLessTransitive(a.digest, b.digest, c.digest);
    }
  }

  /** An array of the records with their digests, in the order of the digests. */
  ghost predicate Ordered(sha: Hasher, records: seq<Record>, ordered: seq<DigestRecord>) {
    && (forall i | 0 <= i < |ordered| ::
          ordered[i].record in records && ordered[i].digest == sha(ordered[i].record.deviceId))
    && (forall r | r in records :: exists i | 0 <= i < |ordered| :: ordered[i].record == r)
    && (forall i, j | 0 <= i < j < |ordered| :: ordered[i].record.deviceId != ordered[j].record.deviceId)
    && InOrder(DigestsOf(ordered))
  }

  function DigestsOf(ordered: seq<DigestRecord>): (digests: seq<string>)
    ensures |digests| == |ordered|
    ensures forall i | 0 <= i < |ordered| :: digests[i] == ordered[i].digest
  {
    seq(|ordered|, i requires 0 <= i < |ordered| => ordered[i].digest)
  }

  /** Looking at sorted neighbours gives the shortest prefix that is unique among all pairs, whatever the digests. */
  lemma {:induction false} NeighboursDecide(sha: Hasher, records: seq<Record>, ordered: seq<DigestRecord>, index: nat)
    requires Ordered(sha, records, ordered) && index < |ordered|
    ensures NeighbourDigits(DigestsOf(ordered), index) == Digits(sha, records, ordered[index].record.deviceId)
  {
    hide StringLess, CommonPrefix;
    var digests, id := DigestsOf(ordered), ordered[index].record.deviceId;
    var before := if index > 0 then CommonPrefix(digests[index], digests[index - 1]) else 0;
    var after := if index + 1 < |digests| then CommonPrefix(digests[index], digests[index + 1]) else 0;
    var longest := Max(before, after);
    forall r | r in records && r.deviceId != id
      ensures CommonPrefix(sha(r.deviceId), sha(id)) <= longest
    {
      var other :| 0 <= other < |ordered| && ordered[other].record == r;
      NeighboursShareMost(digests, index, other);
    }
    if longest >= MINIMUM_HEX_DIGITS {
      var neighbour := if longest == before then index - 1 else index + 1;
      CommonPrefixSymmetric(digests[index], digests[neighbour]);
      assert ordered[neighbour].record in records && ordered[neighbour].record.deviceId != id;
    }
    UniqueAtLongest(sha, records, id, MINIMUM_HEX_DIGITS, longest);
  }

  lemma {:induction false} OccursTwice<T>(s: seq<T>, x: T)
    requires multiset(s)[x] >= 2
    ensures exists i, j :: 0 <= i < j < |s| && s[i] == x && s[j] == x
  {
    var n := |s| - 1;
    assert s == s[..n] + [s[n]];
    if s[n] == x {
      assert multiset(s[..n])[x] >= 1;
      assert x in s[..n];
      var i :| 0 <= i < n && s[i] == x;
    } else {
      OccursTwice(s[..n], x);
      var i, j :| 0 <= i < j < n && s[..n][i] == x && s[..n][j] == x;
      assert s[i] == x && s[j] == x;
    }
  }

  lemma {:induction false} SameElements<T>(s: seq<T>, t: seq<T>, x: T)
    requires multiset(s) == multiset(t)
    ensures x in s <==> x in t
  {
    assert x in multiset(s) <==> x in multiset(t);
  }

  lemma {:induction false} TwoPlaces<T>(s: seq<T>, i: nat, j: nat)
    requires i < j < |s| && s[i] == s[j]
    ensures multiset(s)[s[i]] >= 2
  {
    assert s == s[..j] + [s[j]] + s[j + 1..];
    assert s[..j][i] in multiset(s[..j]);
  }

  lemma {:induction false} PermutedIdsDiffer(records: seq<DigestRecord>, ordered: seq<DigestRecord>, i: nat, j: nat)
    requires multiset(records) == multiset(ordered) && i < j < |ordered|
    requires forall a, b | 0 <= a < b < |records| :: records[a].record.deviceId != records[b].record.deviceId
    ensures ordered[i].record.deviceId != ordered[j].record.deviceId
  {
    if ordered[i].record.deviceId == ordered[j].record.deviceId {
      SameElements(records, ordered, ordered[i]);
      SameElements(records, ordered, ordered[j]);
      var a :| 0 <= a < |records| && records[a] == ordered[i];
      var b :| 0 <= b < |records| && records[b] == ordered[j];
      assert a == b;
      TwoPlaces(ordered, i, j);
      OccursTwice(records, ordered[i]);
    }
  }

  lemma {:induction false} SortingOrders(sha: Hasher, records: seq<Record>, filled: seq<DigestRecord>)
    requires DistinctIds(records) && |filled| == |records|
    requires forall i | 0 <= i < |records| :: filled[i] == DigestRecord(records[i], sha(records[i].deviceId))
    ensures Ordered(sha, records, StableSort(filled, DigestLess))
  {
    hide StringLess, StableSort;
    var ordered := StableSort(filled, DigestLess);
    forall i | 0 <= i < |ordered|
      ensures ordered[i].record in records && ordered[i].digest == sha(ordered[i].record.deviceId)
    {
      SameElements(filled, ordered, ordered[i]);
    }
    forall r | r in records
      ensures exists i | 0 <= i < |ordered| :: ordered[i].record == r
    {
      var k :| 0 <= k < |records| && records[k] == r;
      SameElements(filled, ordered, filled[k]);
    }
    forall i, j | 0 <= i < j < |ordered|
      ensures ordered[i].record.deviceId != ordered[j].record.deviceId
    {
      PermutedIdsDiffer(filled, ordered, i, j);
    }
    DigestLessIsOrder();
    StableSortSorts(filled, DigestLess);
    var digests := DigestsOf(ordered);
    forall i, j | 0 <= i < j < |digests|
      ensures NotAfter(digests[i], digests[j])
    {
      assert !DigestLess(ordered[j], ordered[i]);
    }
  }

  lemma {:induction false} OrderedShows(sha: Hasher, records: seq<Record>, ordered: seq<DigestRecord>)
    requires Ordered(sha, records, ordered)
    ensures forall i | 0 <= i < |ordered| ::
      ordered[i].record in records && ordered[i].digest == sha(ordered[i].record.deviceId)
    ensures forall r | r in records :: exists i | 0 <= i < |ordered| :: ordered[i].record == r
    ensures forall i, j | 0 <= i < j < |ordered| :: ordered[i].record.deviceId != ordered[j].record.deviceId
  {
  }

  /** The references of the first `count` records in digest order. */
  ghost function Shown(sha: Hasher, records: seq<Record>, ordered: seq<DigestRecord>, count: nat)
    : map<string, Reference>
    requires count <= |ordered|
  {
    if count == 0 then map[] else
      var r := ordered[count - 1].record;
      Shown(sha, records, ordered, count - 1)[r.deviceId := ReferenceOf(sha, records, r)]
  }

  lemma {:induction false} ShownAt(sha: Hasher, records: seq<Record>, ordered: seq<DigestRecord>, count: nat, i: nat)
    requires Ordered(sha, records, ordered) && i < count <= |ordered|
    ensures var r := ordered[i].record;
      var shown := Shown(sha, records, ordered, count);
      r.deviceId in shown && shown[r.deviceId] == ReferenceOf(sha, records, r)
  {
    hide ReferenceOf, InOrder;
    if i < count - 1 {
      ShownAt(sha, records, ordered, count - 1, i);
    }
  }

  lemma {:induction false} ShownIsSomebody(sha: Hasher, records: seq<Record>, ordered: seq<DigestRecord>, count: nat,
                                           id: string) returns (i: nat)
    requires count <= |ordered| && id in Shown(sha, records, ordered, count)
    ensures i < count && ordered[i].record.deviceId == id
  {
    hide ReferenceOf;
    i := count - 1;
    if ordered[i].record.deviceId != id {
      i := ShownIsSomebody(sha, records, ordered, count - 1, id);
    }
  }

  lemma {:induction false} ShowingNeighbourDigits(sha: Hasher, records: seq<Record>, ordered: seq<DigestRecord>,
                                                  index: nat)
    requires Ordered(sha, records, ordered) && index < |ordered|
    ensures NeighbourDigits(DigestsOf(ordered), index) <= |ordered[index].digest|
    ensures Showing(ordered[index].record, ordered[index].digest, NeighbourDigits(DigestsOf(ordered), index)) ==
            ReferenceOf(sha, records, ordered[index].record)
  {
    NeighboursDecide(sha, records, ordered, index);
    OrderedShows(sha, records, ordered);
    hide Ordered, NeighbourDigits, Digits, Showing, DigestsOf;
  }

  lemma {:induction false} ShownAll(sha: Hasher, records: seq<Record>, ordered: seq<DigestRecord>)
    requires Ordered(sha, records, ordered)
    ensures AreReferences(sha, records, Shown(sha, records, ordered, |ordered|))
  {
    hide ReferenceOf, InOrder, Shown, Ordered;
    OrderedShows(sha, records, ordered);
    var result := Shown(sha, records, ordered, |ordered|);
    forall r | r in records
      ensures r.deviceId in result && result[r.deviceId] == ReferenceOf(sha, records, r)
    {
      var i :| 0 <= i < |ordered| && ordered[i].record == r;
      ShownAt(sha, records, ordered, |ordered|, i);
    }
    forall id | id in result
      ensures exists r | r in records :: r.deviceId == id
    {
      var i := ShownIsSomebody(sha, records, ordered, |ordered|, id);
      assert ordered[i].record in records;
    }
  }

  /** references */
  method AllReferences(sha: Hasher, records: seq<Record>) returns (result: map<string, Reference>)
    requires DistinctIds(records)
    ensures AreReferences(sha, records, result)
  {
    var ordered := Fill(sha, records);
    hide StableSort, Ordered, AreReferences, NeighbourDigits, DigestsOf, DistinctIds, Showing, ReferenceOf;
    SortingOrders(sha, records, ordered[..]);
    SortSlice(ordered, DigestLess);
    ghost var sorted := ordered[..];
    result := map[];
    for index := 0 to ordered.Length
      invariant ordered[..] == sorted
      invariant result == Shown(sha, records, sorted, index)
    {
      var item := ordered[index];
      assert item == sorted[index];
      ShowingNeighbourDigits(sha, records, sorted, index);
      var digits := DigitsAt(ordered, index);
      result := result[item.record.deviceId := Showing(item.record, item.digest, digits)];
    }
    ShownAll(sha, records, sorted);
  }

  /** The first loop of references: every record with its digest. */
  method Fill(sha: Hasher, records: seq<Record>) returns (ordered: array<DigestRecord>)
    ensures fresh(ordered) && ordered.Length == |records|
    ensures forall i | 0 <= i < |records| :: ordered[i] == DigestRecord(records[i], sha(records[i].deviceId))
  {
    ordered := new DigestRecord[|records|](_ => DigestRecord(Record(0, "", ""), ""));
    for index := 0 to |records|
      invariant forall i | 0 <= i < index :: ordered[i] == DigestRecord(records[i], sha(records[i].deviceId))
    {
      ordered[index] := DigestRecord(records[index], sha(records[index].deviceId));
    }
  }

  /** The digits chosen in the body of the loop of references. */
  method DigitsAt(ordered: array<DigestRecord>, index: nat) returns (digits: nat)
    requires index < ordered.Length
    ensures digits == NeighbourDigits(DigestsOf(ordered[..]), index)
  {
    hide CommonPrefix;
    var item := ordered[index];
    digits := MINIMUM_HEX_DIGITS;
    if index > 0 {
      digits := Max(digits, CommonPrefix(item.digest, ordered[index - 1].digest) + 1);
    }
    if index + 1 < ordered.Length {
      digits := Max(digits, CommonPrefix(item.digest, ordered[index + 1].digest) + 1);
    }
    if digits > DIGEST_DIGITS {
      digits := DIGEST_DIGITS;
    }
  }
}
