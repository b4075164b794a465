/**
 What the client checks before and after its requests (write.go, delete.go, entries.go, profiles/object_references.go),
 each check from the characters, bytes and attributes alone.
 */
module ChecksInFull {
  import opened Results
  import opened Bytes
  import opened Text
  import opened References
  import opened ReferenceFile
  import opened Candidates
  import opened DeviceTree
  import opened WriteProtocol
  import opened DeleteProtocol

  // ---------- numbers and IDs ----------

  /** Decimal, with the most significant digit first. */
  lemma {:induction false} ValueInFull(digits: string, last: char)
    requires IsDigits(digits) && '0' <= last <= '9'
    ensures Value([]) == 0 && IsDigits(digits + [last])
    ensures Value(digits + [last]) == 10 * Value(digits) + (last as int - 48)
  {
    assert (digits + [last])[..|digits|] == digits;
  }

  /** No digit more than it takes. */
  lemma {:induction false} ItoaInFull(n: nat)
    ensures Value(Itoa(n)) == n && (n > 0 ==> Itoa(n)[0] != '0') && (n == 0 ==> Itoa(n) == "0")
  {
    if n >= 10 {
      ItoaInFull(n / 10);
    }
  }

  lemma {:induction false} ParseUintInFull(s: string, n: nat)
    ensures ParseUint(s) == Some(n) <==>
            s != "" && IsDigits(s) && Value(s) == n && n < 18446744073709551616
  {
  }

  /** A device ID is refused for being no name, or for one of its characters. */
  lemma {:induction false} ValidIdInFull(id: string)
    ensures !ValidId(id) <==>
            || id == "" || id == "." || id == ".."
            || exists i | 0 <= i < |id| ::
                 id[i] == '/' || id[i] == '\\' || id[i] as int <= 31 || 127 <= id[i] as int <= 159
  {
  }

  // ---------- selectors ----------

  /** A hexadecimal digit in either case, and the lower-case one for it. */
  ghost predicate Lowers(c: char, d: char) {
    || (('0' <= c <= '9' || 'a' <= c <= 'f') && d == c)
    || ('A' <= c <= 'F' && d as int == c as int + 32)
  }

  /** "0x" or "0X", and from four to sixty-four digits of either case. */
  ghost predicate IsHexSelector(selector: string, prefix: string) {
    && 6 <= |selector| <= 66 && selector[0] == '0' && (selector[1] == 'x' || selector[1] == 'X')
    && |prefix| == |selector| - 2 && forall i | 0 <= i < |prefix| :: Lowers(selector[i + 2], prefix[i])
  }

  lemma {:induction false} HexSelectorInFull(selector: string, prefix: string)
    ensures ParseSelector(selector) == Ok(HexPrefix(prefix)) <==> IsHexSelector(selector, prefix)
  {
    hide ParseUint;
    if |selector| >= 2 {
      var tail := selector[2..];
      assert HasPrefix(selector, "0x") <==> selector[0] == '0' && selector[1] == 'x';
      assert HasPrefix(selector, "0X") <==> selector[0] == '0' && selector[1] == 'X';
      if ParseSelector(selector) == Ok(HexPrefix(prefix)) {
        assert prefix == ToLower(tail) && IsHex(prefix);
        forall i | 0 <= i < |prefix|
          ensures Lowers(selector[i + 2], prefix[i])
        {
          assert prefix[i] == LowerChar(tail[i]) && IsHexDigit(prefix[i]);
        }
      }
      if IsHexSelector(selector, prefix) {
        assert ToLower(tail) == prefix by {
          forall i | 0 <= i < |tail|
            ensures LowerChar(tail[i]) == prefix[i]
          {
            assert Lowers(selector[i + 2], prefix[i]);
          }
        }
        assert IsHex(prefix) by {
          forall i | 0 <= i < |prefix|
            ensures IsHexDigit(prefix[i])
          {
            assert Lowers(selector[i + 2], prefix[i]);
          }
        }
      }
    }
  }

  /** Everything else that is accepted is a decimal number of 64 bits. */
  lemma {:induction false} NumberSelectorInFull(selector: string, n: nat)
    ensures ParseSelector(selector) == Ok(Number(n)) <==>
            selector != "" && IsDigits(selector) && Value(selector) == n && n < 18446744073709551616
  {
    if |selector| >= 2 && IsDigits(selector) {
      assert IsDigit(selector[1]);
      assert "0x"[1] == 'x' && "0X"[1] == 'X';
    }
  }

  /** A valid reference file, record by record. */
  lemma {:induction false} ValidatedInFull(f: File)
    ensures Validated(f) <==>
            && f.schema == 1
            && (forall i | 0 <= i < |f.objects| ::
                  && ValidId(f.objects[i].deviceId) && f.objects[i].number < f.next
                  && (f.objects[i].kind == "document" || f.objects[i].kind == "folder"))
            && (forall i, j | 0 <= i < j < |f.objects| ::
                  f.objects[i].number != f.objects[j].number && f.objects[i].deviceId != f.objects[j].deviceId)
  {
    hide ValidId;
    if forall i | 0 <= i < |f.objects| ::
         && ValidId(f.objects[i].deviceId) && f.objects[i].number < f.next
         && (f.objects[i].kind == "document" || f.objects[i].kind == "folder")
    {
      forall r | r in f.objects
        ensures ValidRecord(r, f.next)
      {
        var i :| 0 <= i < |f.objects| && f.objects[i] == r;
      }
    }
    if Validated(f) {
      forall i | 0 <= i < |f.objects|
        ensures ValidRecord(f.objects[i], f.next)
      {
        assert f.objects[i] in f.objects;
      }
    }
  }

  // ---------- names and bodies ----------

  /** A name is sent normalised, or refused for one of its characters or its ending. */
  lemma {:induction false} EntryNameInFull(rules: Rules, name: string, document: bool, sent: string)
    ensures ValidateEntryName(rules, name, document) == Ok(sent) <==>
            && sent == rules.nfc(name) && sent != "" && sent != "." && sent != ".."
            && (forall i | 0 <= i < |sent| ::
                  sent[i] != '/' && sent[i] != '\\' && sent[i] as int > 31 && !(127 <= sent[i] as int <= 159))
            && (document ==>
                  var lowered := rules.lower(sent);
                  |lowered| >= 4 && lowered[|lowered| - 4..] == ".pdf")
  {
  }

  /** A body is a PDF by its first five bytes, and at most a gibibyte. */
  lemma {:induction false} PdfInFull(source: Option<seq<byte>>, body: seq<byte>)
    ensures PreparePdf(source) == Ok(body) <==>
            && source == Some(body) && 5 <= |body| <= 1073741824
            && body[0] == 37 && body[1] == 80 && body[2] == 68 && body[3] == 70 && body[4] == 45
  {
    if source.Some? && |source.value| >= 5 {
      assert PDF_MAGIC <= source.value <==> forall i | 0 <= i < 5 :: source.value[i] == PDF_MAGIC[i];
    }
  }

  // ---------- what is read back ----------

  /** A document read by its ID: its entry with the name normalised, if the checks on the answer let it through. */
  lemma {:induction false} DocumentAnswerInFull(rules: Rules, t: Tree, id: string, e: Entry)
    ensures DocumentAnswer(rules, t, id) == Ok(e) <==>
            && ValidId(id) && id in t.documents && rules.accepts(t.documents[id])
            && e == t.documents[id].(name := rules.nfc(t.documents[id].name))
    ensures DocumentAnswer(rules, t, id) == Err("404") <==> ValidId(id) && id !in t.documents
  {
    hide ValidId;
  }

  lemma {:induction false} UploadChecksInFull(rules: Rules, t: Tree, id: string, filename: string, body: seq<byte>,
                                              revision: string)
    ensures UploadSendable(rules, id, filename) <==>
            ValidId(id) && exists sent :: ValidateEntryName(rules, filename, true) == Ok(sent)
    ensures Uploadable(t, id, revision) <==>
            id in t.documents && (revision == "" || revision == t.documents[id].revision)
    ensures Confirms(rules, t, id, body, revision) <==>
            && id in t.documents && rules.accepts(t.documents[id])
            && t.documents[id].size == Itoa(|body|) && t.documents[id].revision == revision
  {
    hide ValidId, ValidateEntryName, Itoa;
    if UploadSendable(rules, id, filename) {
      assert ValidateEntryName(rules, filename, true) == Ok(ValidateEntryName(rules, filename, true).value);
    }
  }

  lemma {:induction false} CreationChecksInFull(rules: Rules, t: Tree, id: string, parentId: string, filename: string,
                                                name: string, now: string)
    ensures CreationSendable(rules, parentId, filename) <==>
            ValidId(parentId) && exists sent :: ValidateEntryName(rules, filename, true) == Ok(sent)
    ensures CreationSendable(rules, parentId, filename) ==>
      Creating(rules, t, parentId, filename, now) == CreateDocument(t, parentId, rules.nfc(filename), now)
    ensures Shows(rules, t, id, parentId, name) <==>
            && id in t.documents && rules.accepts(t.documents[id])
            && rules.nfc(t.documents[id].name) == name && t.documents[id].parentId == parentId
  {
    hide ValidId, CreateDocument;
    if CreationSendable(rules, parentId, filename) {
      assert ValidateEntryName(rules, filename, true) == Ok(rules.nfc(filename));
    }
  }

  /** An upload that arrives as requests of others come before and after it. */
  lemma {:induction false} AfterUploadInFull(t: Tree, id: string, body: seq<byte>, targetRevision: string, now: string,
                                             beforeUpload: seq<Request>, beforeRead: seq<Request>)
    ensures var seen := ServeAll(t, beforeUpload);
      var (written, r) := Upload(seen, id, body, "", targetRevision, now);
      AfterUpload(t, id, body, targetRevision, now, beforeUpload, beforeRead) ==
        if r.Ok? then ServeAll(written, beforeRead) else seen
  {
    hide Itoa, Atoi, ServeAll;
  }

  /** The folder that DeleteEmpty is willing to delete, and what it takes for a confirmation. */
  lemma {:induction false} DeletionChecksInFull(rules: Rules, t: Tree, id: string, lookup: Result<Entry>)
    ensures FindsFolder(rules, t, id) <==>
            && ValidId(id) && id != "root" && id in t.folders && id !in t.documents
            && rules.accepts(t.folders[id]) && t.folders[id].path != "Document"
    ensures EmptyFolder(t, id) <==>
            && id in t.folders
            && (forall c | c in t.folders :: t.folders[c].parentId != id)
            && (forall c | c in t.documents :: t.documents[c].parentId != id)
    ensures VerifyDeleted(lookup).Ok? <==> lookup == Err("404")
    ensures WithoutFolder(t, id).folders == t.folders - {id} && WithoutFolder(t, id).documents == t.documents
    ensures WithoutFolder(t, id).contents == t.contents && WithoutFolder(t, id).nextId == t.nextId
    ensures WithoutDocument(t, id).documents == t.documents - {id} && WithoutDocument(t, id).folders == t.folders
    ensures WithoutDocument(t, id).contents == t.contents - {id} && WithoutDocument(t, id).nextId == t.nextId
  {
    hide ValidId;
  }
}
