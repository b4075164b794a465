/**
 Resolving a reference that a user typed (Candidates in profiles/object_references.go), and the promise behind it:
 what Assign displays is what Candidates finds.
 */
module Candidates {
  import opened Results
  import opened Text
  import opened Sorting
  import opened References
  import opened ReferenceFile

  datatype Selector = HexPrefix(prefix: string) | Number(number: nat)

  function LowerChar(c: char): char {
    if 'A' <= c <= 'Z' then (c as int + 32) as char else c
  }

  /** strings.ToLower, as far as hexadecimal digits are concerned. */
  function ToLower(s: string): string {
    seq(|s|, i requires 0 <= i < |s| => LowerChar(s[i]))
  }

  function ParseSelector(selector: string): Result<Selector> {
    if HasPrefix(selector, "0x") || HasPrefix(selector, "0X") then
      var prefix := ToLower(selector[2..]);
      if |prefix| < 4 || |prefix| > DIGEST_DIGITS then
        Err("profiles: hexadecimal object ID must contain 4 to 64 digits")
      else if !IsHex(prefix) then Err("profiles: hexadecimal object ID contains a non-hexadecimal digit")
      else Ok(HexPrefix(prefix))
    else
      match ParseUint(selector)
      case None => Err("profiles: object ID must be a nonnegative integer or start with 0x")
      case Some(number) => Ok(Number(number))
  }

  /** A reference answers a hexadecimal selector when its displayed digits begin with it. */
  predicate Answers(x: Reference, selector: Selector) {
    match selector
    case HexPrefix(prefix) => |x.hex| >= 2 && HasPrefix(x.hex[2..], prefix)
    case Number(number) => x.number == number
  }

  /** The references of the file that answer, in the order of their numbers. */
  ghost predicate AreCandidates(sha: Hasher, f: File, selector: Selector, list: seq<Reference>) {
    && (forall r | r in f.objects ::
          Answers(ReferenceOf(sha, f.objects, r), selector) ==> ReferenceOf(sha, f.objects, r) in list)
    && (forall x | x in list ::
          Answers(x, selector) && exists r | r in f.objects :: x == ReferenceOf(sha, f.objects, r))
    && (forall i, j | 0 <= i < j < |list| :: list[i].number < list[j].number)
  }

  predicate ReferenceLess(a: Reference, b: Reference) {
    a.number < b.number
  }

  // ---------- what a search finds ----------

  /** Nobody else's device ID has this one's digest. */
  ghost predicate DigestIsOwn(sha: Hasher, records: seq<Record>, id: string) {
    forall r | r in records && r.deviceId != id :: sha(r.deviceId) != sha(id)
  }

  lemma {:induction false} ShortestIsUnique(sha: Hasher, records: seq<Record>, id: string, d: nat)
    requires d <= DIGEST_DIGITS
    ensures ShortestFrom(sha, records, id, d) < DIGEST_DIGITS ==>
              Unique(sha, records, id, ShortestFrom(sha, records, id, d))
    decreases DIGEST_DIGITS - d
  {
    hide Unique;
    if d < DIGEST_DIGITS && !Unique(sha, records, id, d) {
      ShortestIsUnique(sha, records, id, d + 1);
    }
  }

  lemma {:induction false} DigitsAreUnique(sha: Hasher, records: seq<Record>, id: string)
    requires DigestIsOwn(sha, records, id)
    ensures Unique(sha, records, id, Digits(sha, records, id))
  {
    hide ShortestFrom;
    ShortestIsUnique(sha, records, id, MINIMUM_HEX_DIGITS);
    if Digits(sha, records, id) == DIGEST_DIGITS {
      forall r | r in records && r.deviceId != id
        ensures sha(r.deviceId)[..DIGEST_DIGITS] != sha(id)[..DIGEST_DIGITS]
      {
        assert sha(r.deviceId)[..DIGEST_DIGITS] == sha(r.deviceId) && sha(id)[..DIGEST_DIGITS] == sha(id);
      }
    }
  }

  /** The digits displayed for a record. */
  ghost function ShownDigits(sha: Hasher, records: seq<Record>, id: string): (s: string)
    ensures MINIMUM_HEX_DIGITS <= |s| <= DIGEST_DIGITS
  {
    sha(id)[..Digits(sha, records, id)]
  }

  lemma {:induction false} HexOf(sha: Hasher, records: seq<Record>, r: Record)
    ensures ReferenceOf(sha, records, r).hex == "0x" + ShownDigits(sha, records, r.deviceId)
    ensures ReferenceOf(sha, records, r).hex[2..] == ShownDigits(sha, records, r.deviceId)
  {
    hide Digits;
  }

  lemma {:induction false} PrefixOfPrefix(a: string, b: string, m: nat, n: nat)
    requires m <= |a| && n <= |b| && HasPrefix(b[..n], a[..m])
    ensures m <= n && b[..m] == a[..m]
  {
    assert b[..m] == b[..n][..m];
  }

  /** A record whose digits begin with another's displayed digits is that other, unless the digests are equal. */
  lemma {:induction false} DisplayedFindsOne(sha: Hasher, f: File, r: Record, other: Record)
    requires Validated(f) && r in f.objects && other in f.objects && DigestIsOwn(sha, f.objects, r.deviceId)
    requires HasPrefix(ShownDigits(sha, f.objects, other.deviceId), ShownDigits(sha, f.objects, r.deviceId))
    ensures other == r
  {
    hide ValidRecord, Digits;
    DigitsAreUnique(sha, f.objects, r.deviceId);
    PrefixOfPrefix(sha(r.deviceId), sha(other.deviceId), Digits(sha, f.objects, r.deviceId),
                   Digits(sha, f.objects, other.deviceId));
    if other.deviceId == r.deviceId {
      var i :| 0 <= i < |f.objects| && f.objects[i] == r;
      var j :| 0 <= j < |f.objects| && f.objects[j] == other;
    }
  }

  lemma {:induction false} OneCandidate(sha: Hasher, f: File, selector: Selector, list: seq<Reference>, r: Record)
    requires AreCandidates(sha, f, selector, list) && r in f.objects
    requires Answers(ReferenceOf(sha, f.objects, r), selector)
    requires forall other | other in f.objects ::
               Answers(ReferenceOf(sha, f.objects, other), selector) ==> other == r
    ensures list == [ReferenceOf(sha, f.objects, r)]
  {
    hide ReferenceOf, Answers;
    var x := ReferenceOf(sha, f.objects, r);
    var first, second := if |list| > 0 then list[0] else x, if |list| > 1 then list[1] else x;
    forall i | 0 <= i < |list|
      ensures list[i] == x
    {
      assert list[i] in list;
    }
  }

  /** The displayed hex finds exactly its object if and only if no other device shares the whole digest. */
  lemma {:induction false} DisplayedHexFindsExactly(sha: Hasher, f: File, r: Record, list: seq<Reference>)
    requires Validated(f) && r in f.objects
    requires AreCandidates(sha, f, HexPrefix(ShownDigits(sha, f.objects, r.deviceId)), list)
    ensures list == [ReferenceOf(sha, f.objects, r)] <==> DigestIsOwn(sha, f.objects, r.deviceId)
  {
    hide ReferenceOf, Validated, ShownDigits;
    var selector := HexPrefix(ShownDigits(sha, f.objects, r.deviceId));
    forall other | other in f.objects
      ensures Answers(ReferenceOf(sha, f.objects, other), selector) <==>
              HasPrefix(ShownDigits(sha, f.objects, other.deviceId), ShownDigits(sha, f.objects, r.deviceId))
    {
      HexOf(sha, f.objects, other);
    }
    if DigestIsOwn(sha, f.objects, r.deviceId) {
      forall other | other in f.objects && Answers(ReferenceOf(sha, f.objects, other), selector)
        ensures other == r
      {
        DisplayedFindsOne(sha, f, r, other);
      }
      OneCandidate(sha, f, selector, list, r);
    } else {
      var other :| other in f.objects && other.deviceId != r.deviceId && sha(other.deviceId) == sha(r.deviceId);
      TwinsShowAlike(sha, f.objects, r.deviceId, other.deviceId);
      assert ReferenceOf(sha, f.objects, other) in list;
      assert ReferenceOf(sha, f.objects, other).deviceId == other.deviceId by { DeviceOf(sha, f.objects, other); }
      DeviceOf(sha, f.objects, r);
    }
  }

  lemma {:induction false} DeviceOf(sha: Hasher, records: seq<Record>, r: Record)
    ensures var x := ReferenceOf(sha, records, r);
      && x.deviceId == r.deviceId && x.number == r.number && x.kind == r.kind
      && 8 <= |x.hex| <= 66 && x.hex[..2] == "0x" && x.hex[2..] <= sha(r.deviceId)
  {
  }

  lemma {:induction false} TwinsShowAlike(sha: Hasher, records: seq<Record>, id: string, twin: string)
    requires id != twin && sha(id) == sha(twin)
    requires (exists r | r in records :: r.deviceId == id) && (exists r | r in records :: r.deviceId == twin)
    ensures ShownDigits(sha, records, id) == ShownDigits(sha, records, twin)
  {
    hide ShortestFrom;
    ShortestIsUnique(sha, records, id, MINIMUM_HEX_DIGITS);
    ShortestIsUnique(sha, records, twin, MINIMUM_HEX_DIGITS);
  }

  /** The decimal number finds exactly its object. */
  lemma {:induction false} NumberFindsExactly(sha: Hasher, f: File, r: Record, list: seq<Reference>)
    requires Validated(f) && r in f.objects
    requires AreCandidates(sha, f, Number(r.number), list)
    ensures list == [ReferenceOf(sha, f.objects, r)]
  {
    hide ReferenceOf, ValidRecord;
    forall other | other in f.objects
      ensures Answers(ReferenceOf(sha, f.objects, other), Number(r.number)) <==> other == r
    {
      DeviceOf(sha, f.objects, other);
      var i :| 0 <= i < |f.objects| && f.objects[i] == r;
      var j :| 0 <= j < |f.objects| && f.objects[j] == other;
    }
    OneCandidate(sha, f, Number(r.number), list, r);
  }

  /** What is displayed is what can be typed. */
  lemma {:induction false} DisplayedParses(sha: Hasher, f: File, r: Record)
    requires r.number <= MAX_UINT64
    ensures ParseSelector(ReferenceOf(sha, f.objects, r).hex) == Ok(HexPrefix(ShownDigits(sha, f.objects, r.deviceId)))
    ensures ParseSelector(Itoa(r.number)) == Ok(Number(r.number))
  {
    HexOf(sha, f.objects, r);
    hide Digits;
    var shown := ShownDigits(sha, f.objects, r.deviceId);
    assert HasPrefix("0x" + shown, "0x") && ("0x" + shown)[2..] == shown;
    assert IsHex(shown);
    assert ToLower(shown) == shown by { LowerHex(shown); }
    var number := Itoa(r.number);
    assert IsDigit(number[0]) && (|number| >= 2 ==> IsDigit(number[1]));
    assert "0x"[1] == 'x' && "0X"[1] == 'X';
  }

  lemma {:induction false} LowerHex(s: string)
    requires IsHex(s)
    ensures ToLower(s) == s
  {
    forall i | 0 <= i < |s|
      ensures LowerChar(s[i]) == s[i]
    {
      assert IsHexDigit(s[i]);
    }
  }

  // ---------- later assignments ----------

  /** With more devices around, digits only get longer, so what was displayed begins what is displayed. */
  lemma {:induction false} DigitsOnlyGrow(sha: Hasher, earlier: seq<Record>, later: seq<Record>, id: string, d: nat)
    requires d <= DIGEST_DIGITS
    requires forall r | r in earlier :: exists s | s in later :: s.deviceId == r.deviceId
    ensures ShortestFrom(sha, earlier, id, d) <= ShortestFrom(sha, later, id, d)
    decreases DIGEST_DIGITS - d
  {
    if d < DIGEST_DIGITS {
      if !Unique(sha, earlier, id, d) {
        assert !Unique(sha, later, id, d);
        DigitsOnlyGrow(sha, earlier, later, id, d + 1);
      }
    }
  }

  /** A reference that was ever displayed still begins the one displayed now, and a search for it still finds it. */
  lemma {:induction false} OldHexStillFinds(sha: Hasher, f: File, g: File, r: Record, s: Record, list: seq<Reference>)
    requires Extends(f, g) && r in f.objects && s in g.objects && s.deviceId == r.deviceId
    requires AreCandidates(sha, g, HexPrefix(ShownDigits(sha, f.objects, r.deviceId)), list)
    ensures HasPrefix(ReferenceOf(sha, g.objects, s).hex, ReferenceOf(sha, f.objects, r).hex)
    ensures ReferenceOf(sha, g.objects, s) in list
  {
    hide ReferenceOf, ShortestFrom, AreCandidates;
    var id := r.deviceId;
    forall x | x in f.objects
      ensures exists y | y in g.objects :: y.deviceId == x.deviceId
    {
      assert (x.deviceId, x.number) in Pairs(f);
      assert (x.deviceId, x.number) in Pairs(g);
    }
    DigitsOnlyGrow(sha, f.objects, g.objects, id, MINIMUM_HEX_DIGITS);
    var m, n := Digits(sha, f.objects, id), Digits(sha, g.objects, id);
    assert sha(id)[..n][..m] == sha(id)[..m];
    HexOf(sha, f.objects, r);
    HexOf(sha, g.objects, s);
    assert Answers(ReferenceOf(sha, g.objects, s), HexPrefix(ShownDigits(sha, f.objects, id)));
    assert ReferenceOf(sha, g.objects, s) in list by {
      hide *;
      AnsweringIsListed(sha, g, s, HexPrefix(ShownDigits(sha, f.objects, id)), list);
    }
  }

  lemma {:induction false} AnsweringIsListed(sha: Hasher, f: File, r: Record, selector: Selector, list: seq<Reference>)
    requires AreCandidates(sha, f, selector, list) && r in f.objects
    requires Answers(ReferenceOf(sha, f.objects, r), selector)
    ensures ReferenceOf(sha, f.objects, r) in list
  {
  }

  // ---------- how they are collected ----------

  lemma {:induction false} ReferenceLessIsOrder()
    ensures StrictWeakOrder(ReferenceLess)
  {
  }

  /** The answering values of the map, sorted by number, are the candidates. */
  lemma {:induction false} SortedMatchesAreCandidates(sha: Hasher, f: File, all: map<string, Reference>,
                                                      selector: Selector, matches: seq<Reference>)
    requires Validated(f) && AreReferences(sha, f.objects, all)
    requires forall x :: x in matches <==> exists id | id in all :: all[id] == x && Answers(x, selector)
    requires forall i, j | 0 <= i < j < |matches| :: matches[i].deviceId != matches[j].deviceId
    ensures AreCandidates(sha, f, selector, StableSort(matches, ReferenceLess))
  {
    hide StableSort, Answers, ReferenceOf, ValidRecord;
    var list := StableSort(matches, ReferenceLess);
    forall x
      ensures x in list <==> x in matches
    {
      SameElements(list, matches, x);
    }
    forall x | x in list
      ensures exists r | r in f.objects :: x == ReferenceOf(sha, f.objects, r)
    {
      var id :| id in all && all[id] == x;
      var r :| r in f.objects && r.deviceId == id;
    }
    ReferenceLessIsOrder();
    StableSortSorts(matches, ReferenceLess);
    forall i, j | 0 <= i < j < |list|
      ensures list[i].number < list[j].number
    {
      assert !ReferenceLess(list[j], list[i]);
      assert list[i] in list && list[j] in list;
      var r :| r in f.objects && list[i] == ReferenceOf(sha, f.objects, r);
      var s :| s in f.objects && list[j] == ReferenceOf(sha, f.objects, s);
      DeviceOf(sha, f.objects, r);
      DeviceOf(sha, f.objects, s);
      PermutedReferencesDiffer(matches, list, i, j);
      NumbersDiffer(f, r, s);
    }
  }

  lemma {:induction false} NumbersDiffer(f: File, r: Record, s: Record)
    requires Validated(f) && r in f.objects && s in f.objects && r.deviceId != s.deviceId
    ensures r.number != s.number
  {
    hide ValidRecord;
    var i :| 0 <= i < |f.objects| && f.objects[i] == r;
    var j :| 0 <= j < |f.objects| && f.objects[j] == s;
  }

  lemma {:induction false} PermutedReferencesDiffer(s: seq<Reference>, t: seq<Reference>, i: nat, j: nat)
    requires multiset(s) == multiset(t) && i < j < |t|
    requires forall a, b | 0 <= a < b < |s| :: s[a].deviceId != s[b].deviceId
    ensures t[i].deviceId != t[j].deviceId
  {
    if t[i].deviceId == t[j].deviceId {
      SameElements(s, t, t[i]);
      SameElements(s, t, t[j]);
      var a :| 0 <= a < |s| && s[a] == t[i];
      var b :| 0 <= b < |s| && s[b] == t[j];
      assert a == b;
      TwoPlaces(t, i, j);
      OccursTwice(s, t[i]);
    }
  }

  lemma {:induction false} ReferencesAreKeyed(sha: Hasher, records: seq<Record>, all: map<string, Reference>)
    requires AreReferences(sha, records, all)
    ensures forall id | id in all :: all[id].deviceId == id
  {
  }
}
