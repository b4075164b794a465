/** Listing in pages: the client's loop (entries.go) against the slice that the device answers (dptest/emulator.go). */
module Pagination {
  import opened Results

  const INVALID_QUERY := "40002"
  const PAGE_SIZE_RANGE := "dpwire: page size must be between 1 and 1000"
  const INVALID_FIELD := "dpwire: invalid field name"
  const STOPPED := "dpwire: paginated list stopped"

  datatype Page<W> = Page(count: nat, entries: seq<W>)

  /**
   writeEntryList: the part of the list from the offset on, as long as the limit allows, and the length of the list.
   */
  method WriteEntryList<W>(offset: int, limit: int, entries: seq<W>) returns (r: Result<Page<W>>)
    ensures r.Ok? <==> 0 <= offset && 1 <= limit <= 1000
    ensures r.Err? ==> r.error == INVALID_QUERY
    ensures r.Ok? ==> IsPage(r.value, offset, limit, entries)
  {
    var offset := offset;
    if offset < 0 || limit < 1 || limit > 1000 {
      return Err(INVALID_QUERY);
    }
    var end := offset + limit;
    if offset > |entries| {
      offset := |entries|;
    }
    if end > |entries| {
      end := |entries|;
    }
    return Ok(Page(|entries|, entries[offset..end]));
  }

  ghost predicate IsPage<W>(page: Page<W>, offset: nat, limit: nat, entries: seq<W>) {
    && page.count == |entries|
    && |page.entries| <= limit
    && (forall i | 0 <= i < |page.entries| :: offset + i < |entries| && page.entries[i] == entries[offset + i])
    && (|page.entries| < limit ==> offset + |page.entries| >= |entries|)
  }

  predicate ValidField(field: string) {
    field != "" && forall c | c in field :: c !in {',', '\r', '\n', '\0'}
  }

  /** What the entries decode to: the first failure, or all of them. */
  function DecodeAll<W, E>(raws: seq<W>, decode: W -> Result<E>): (r: Result<seq<E>>)
    ensures r.Ok? ==> |r.value| == |raws|
  {
    if raws == [] then Ok([]) else
      var before := DecodeAll(raws[..|raws| - 1], decode);
      if before.Err? then before else
        var last := decode(raws[|raws| - 1]);
        if last.Err? then Err(last.error) else Ok(before.value + [last.value])
  }

  lemma {:induction false} DecodesInOrder<W, E>(raws: seq<W>, decode: W -> Result<E>)
    ensures DecodeAll(raws, decode).Ok? <==> forall i | 0 <= i < |raws| :: decode(raws[i]).Ok?
    ensures DecodeAll(raws, decode).Ok? ==>
      forall i | 0 <= i < |raws| :: decode(raws[i]) == Ok(DecodeAll(raws, decode).value[i])
  {
    if raws != [] {
      var before := raws[..|raws| - 1];
      DecodesInOrder(before, decode);
      if DecodeAll(before, decode).Err? {
        var i :| 0 <= i < |before| && decode(before[i]).Err?;
        assert decode(raws[i]).Err?;
      } else {
        forall i | 0 <= i < |raws| - 1
          ensures decode(raws[i]) == Ok(DecodeAll(before, decode).value[i])
        {
          assert raws[i] == before[i];
        }
      }
    }
  }

  lemma {:induction false} DecodeLonger<W, E>(raws: seq<W>, more: seq<W>, decode: W -> Result<E>)
    ensures DecodeAll(raws, decode).Err? ==> DecodeAll(raws + more, decode) == DecodeAll(raws, decode)
    decreases |more|
  {
    if more == [] {
      assert raws + more == raws;
    } else {
      var all := raws + more;
      assert all[..|all| - 1] == raws + more[..|more| - 1];
      DecodeLonger(raws, more[..|more| - 1], decode);
    }
  }

  /** One request, or as many as it takes to fetch n entries in pages of the given size. */
  function Requests(n: nat, pageSize: nat): nat
    requires pageSize > 0
  {
    if n == 0 then 1 else (n + pageSize - 1) / pageSize
  }

  lemma {:induction false} EnoughRequests(n: nat, pageSize: nat, requests: nat)
    requires 0 < pageSize && 0 < requests && n <= requests * pageSize
    requires n == 0 ==> requests == 1
    requires n > 0 ==> (requests - 1) * pageSize < n
    ensures requests == Requests(n, pageSize)
  {
    if n > 0 {
      var q := (n + pageSize - 1) / pageSize;
      var rest := (n + pageSize - 1) % pageSize;
      assert q * pageSize + rest == n + pageSize - 1;
      if q < requests {
        Monotone(q, requests - 1, pageSize);
      } else if q > requests {
        Monotone(requests + 1, q, pageSize);
      }
    }
  }

  lemma {:induction false} Monotone(a: nat, b: nat, c: nat)
    requires a <= b
    ensures a * c <= b * c
  {
  }

  /** Each entry stood at its own place in the list that one of the requests saw. */
  ghost predicate InPlace<W>(raws: seq<W>, seen: seq<nat>, list: nat -> seq<W>, requests: nat) {
    && |seen| == |raws|
    && forall i | 0 <= i < |raws| :: seen[i] < requests && i < |list(seen[i])| && raws[i] == list(seen[i])[i]
  }

  /** The sizes 0 (for 100) and 1 to 1000. */
  function PageSize(option: int): Option<nat> {
    if option == 0 then Some(100) else if 1 <= option <= 1000 then Some(option) else None
  }

  /** Page sizes, and the fields that cannot be asked for. */
  lemma {:induction false} OptionsInFull(option: int, field: string)
    ensures PageSize(0) == Some(100)
    ensures option != 0 ==> (PageSize(option) == Some(option) <==> 1 <= option <= 1000)
    ensures option != 0 && !(1 <= option <= 1000) ==> PageSize(option) == None
    ensures !ValidField(field) <==>
            field == "" || exists i | 0 <= i < |field| ::
              field[i] == ',' || field[i] as int == 13 || field[i] as int == 10 || field[i] as int == 0
  {
    if exists i | 0 <= i < |field| ::
         field[i] == ',' || field[i] as int == 13 || field[i] as int == 10 || field[i] as int == 0
    {
      var i :| 0 <= i < |field| &&
        (field[i] == ',' || field[i] as int == 13 || field[i] as int == 10 || field[i] as int == 0);
      assert field[i] in field;
    }
  }

  /** A page is the clamped slice, and no other. */
  lemma {:induction false} PageInFull<W>(page: Page<W>, offset: nat, limit: nat, entries: seq<W>)
    ensures var low := if offset < |entries| then offset else |entries|;
      var high := if offset + limit < |entries| then offset + limit else |entries|;
      IsPage(page, offset, limit, entries) <==> page == Page(|entries|, entries[low..high])
  {
    if IsPage(page, offset, limit, entries) && |page.entries| > 0 {
      var i := |page.entries| - 1;
      assert page.entries[i] == entries[offset + i];
    }
  }

  ghost predicate Unchanging<W>(list: nat -> seq<W>) {
    forall k :: list(k) == list(0)
  }

  /** The inner loop: the entries of one page, up to the first that does not decode. */
  method DecodePage<W, E>(entries: seq<E>, page: seq<W>, decode: W -> Result<E>, ghost raws: seq<W>)
    returns (r: Result<seq<E>>)
    requires DecodeAll(raws, decode) == Ok(entries)
    ensures r == DecodeAll(raws + page, decode)
  {
    var decoded := entries;
    assert raws + page[..0] == raws;
    for j := 0 to |page|
      invariant DecodeAll(raws + page[..j], decode) == Ok(decoded)
    {
      assert (raws + page[..j + 1])[..|raws| + j] == raws + page[..j];
      var entry := decode(page[j]);
      if entry.Err? {
        DecodeLonger(raws + page[..j + 1], page[j + 1..], decode);
        assert raws + page[..j + 1] + page[j + 1..] == raws + page;
        return Err(entry.error);
      }
      decoded := decoded + [entry.value];
    }
    assert page[..|page|] == page;
    return Ok(decoded);
  }

  /**
   listEntries, composed with writeEntryList. `list(k)` is the whole list at the time of request k; that its length
   stays bounded is what makes the loop end. The loop never stops early, and whatever it returns stood in the list, in
   this order, at one of the requests. An unchanging list is returned whole, with no entry missing or repeated.
   */
  method ListEntries<W, E>(option: int, fields: seq<string>, decode: W -> Result<E>, list: nat -> seq<W>,
                           ghost bound: nat)
    returns (r: Result<seq<E>>, requests: nat, ghost raws: seq<W>, ghost seen: seq<nat>)
    requires forall k :: |list(k)| <= bound
    ensures PageSize(option) == None ==> r == Err(PAGE_SIZE_RANGE) && requests == 0
    ensures PageSize(option) != None && (exists f | f in fields :: !ValidField(f)) ==>
      r == Err(INVALID_FIELD) && requests == 0
    ensures PageSize(option) != None && (forall f | f in fields :: ValidField(f)) ==>
      && requests > 0
      && InPlace(raws, seen, list, requests)
      && r == DecodeAll(raws, decode)
      && (r.Ok? ==> |r.value| >= |list(requests - 1)|)
      && (Unchanging(list) ==>
            && r == DecodeAll(list(0), decode)
            && (r.Ok? ==> requests == Requests(|list(0)|, PageSize(option).value)))
  {
    hide DecodeAll, Requests;
    requests, raws, seen := 0, [], [];
    var pageSize := option;
    if pageSize == 0 {
      pageSize := 100;
    }
    if pageSize < 1 || pageSize > 1000 {
      return Err(PAGE_SIZE_RANGE), requests, raws, seen;
    }
    for k := 0 to |fields|
      invariant forall j | 0 <= j < k :: ValidField(fields[j])
    {
      if !ValidField(fields[k]) {
        return Err(INVALID_FIELD), requests, raws, seen;
      }
    }
    var entries: seq<E> := [];
    var offset := 0;
    NothingFetched(decode, list);
    hide InPlace, ValidField;
    ghost var fixed := Unchanging(list);
    while true
      invariant offset == |entries| == |raws|
      invariant InPlace(raws, seen, list, requests)
      invariant DecodeAll(raws, decode) == Ok(entries)
      invariant requests > 0 ==> 0 < offset < |list(requests - 1)|
      invariant fixed ==> offset == requests * pageSize && raws <= list(0)
      decreases bound - offset
    {
      var answer := WriteEntryList(offset, pageSize, list(requests));
      var page := answer.value;
      OnePageMore(raws, seen, list, requests, page.entries, list(requests));
      if fixed {
        assert list(requests) == list(0);
        FetchedSoFar(|list(0)|, pageSize, requests, offset, page.entries);
      }
      raws, seen := raws + page.entries, seen + seq(|page.entries|, _ => requests);
      assert raws[..offset] + page.entries == raws;
      requests := requests + 1;
      var decoded := DecodePage(entries, page.entries, decode, raws[..offset]);
      if decoded.Err? {
        if fixed {
          DecodeLonger(raws, list(0)[|raws|..], decode);
          assert raws + list(0)[|raws|..] == list(0);
        }
        return decoded, requests, raws, seen;
      }
      entries := decoded.value;
      if |entries| >= page.count {
        assert fixed ==> raws == list(0);
        return Ok(entries), requests, raws, seen;
      }
      if |page.entries| == 0 {
        return Err(STOPPED), requests, raws, seen;
      }
      offset := offset + |page.entries|;
    }
  }

  lemma {:induction false} NothingFetched<W, E>(decode: W -> Result<E>, list: nat -> seq<W>)
    ensures DecodeAll([], decode) == Ok([]) && InPlace([], [], list, 0)
  {
  }

  /** How far the unchanging list is fetched after one more full page, and that a last page completes it. */
  lemma {:induction false} FetchedSoFar<W>(n: nat, pageSize: nat, requests: nat, offset: nat, page: seq<W>)
    requires 0 < pageSize && offset == requests * pageSize && offset + |page| <= n && |page| <= pageSize
    requires |page| < pageSize ==> offset + |page| >= n
    requires requests > 0 ==> offset < n
    ensures offset + |page| < n ==> offset + |page| == (requests + 1) * pageSize
    ensures offset + |page| >= n ==> requests + 1 == Requests(n, pageSize)
  {
    hide Requests;
    assert (requests + 1) * pageSize == offset + pageSize;
    if offset + |page| >= n {
      assert requests == 0 || n > 0;
      if n == 0 {
        assert requests == 0;
      } else if offset == n {
        assert |page| == 0;
        assert requests == 0;
      }
      EnoughRequests(n, pageSize, requests + 1);
    }
  }

  lemma {:induction false} OnePageMore<W>(raws: seq<W>, seen: seq<nat>, list: nat -> seq<W>, requests: nat,
                                          page: seq<W>,
                                          whole: seq<W>)
    requires InPlace(raws, seen, list, requests) && whole == list(requests)
    requires forall i | 0 <= i < |page| :: |raws| + i < |whole| && page[i] == whole[|raws| + i]
    ensures InPlace(raws + page, seen + seq(|page|, _ => requests), list, requests + 1)
    ensures Unchanging(list) && raws <= list(0) ==> raws + page <= list(0)
  {
    var raws', seen' := raws + page, seen + seq(|page|, _ => requests);
    forall i | 0 <= i < |raws'|
      ensures seen'[i] < requests + 1 && i < |list(seen'[i])| && raws'[i] == list(seen'[i])[i]
    {
      if i >= |raws| {
        assert seen'[i] == requests;
        assert raws'[i] == page[i - |raws|];
      }
    }
    if Unchanging(list) && raws <= list(0) {
      assert whole == list(0);
      if |page| > 0 {
        var i := |page| - 1;
        assert page[i] == whole[|raws| + i];
      }
      assert |raws'| <= |whole|;
      forall i | 0 <= i < |raws'|
        ensures raws'[i] == whole[i]
      {
        assert i >= |raws| ==> raws'[i] == page[i - |raws|];
      }
    }
  }
}
