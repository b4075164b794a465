/**
 Replacing a file through a temporary in the same directory (internal/atomicfile/atomicfile.go), on a file system that
 may write short, fail anywhere, or stop for good after any step.
 */
module AtomicFile {
  import opened Results
  import opened Bytes

  type Files = map<string, seq<byte>>

  /** What a write answers: how many bytes it took, and whether it failed, which it may do after taking some. */
  datatype Write = Write(taken: nat, fails: bool)

  /** What the operating system will answer; `writes(k)` is the answer to the k-th write that is made. */
  datatype Faults = Faults(create: bool, chmod: bool, writes: nat -> Write, sync: bool, close: bool, rename: bool,
                           remove: bool)

  /** A directory, and every state it has been in: what a crash could have left behind. */
  class Directory {
    var files: Files
    ghost var history: seq<Files>

    constructor (files: Files)
      ensures this.files == files && history == [files]
    {
      this.files, history := files, [files];
    }

    method Set(name: string, content: seq<byte>)
      modifies this
      ensures files == old(files)[name := content] && history == old(history) + [files]
    {
      files := files[name := content];
      history := history + [files];
    }

    method Remove(name: string)
      modifies this
      ensures files == old(files) - {name} && history == old(history) + [files]
    {
      files := files - {name};
      history := history + [files];
    }

    method Rename(from: string, to: string)
      requires from in files && from != to
      modifies this
      ensures files == old(files)[to := old(files)[from]] - {from} && history == old(history) + [files]
    {
      files := files[to := files[from]] - {from};
      history := history + [files];
    }
  }

  predicate Quiet(faults: Faults) {
    !faults.create && !faults.chmod && !faults.sync && !faults.close && !faults.rename
  }

  /** From the k-th write on, `length` bytes get written: no write that this takes fails or takes nothing. */
  predicate Completes(writes: nat -> Write, k: nat, length: nat)
    decreases length
  {
    length == 0 ||
    (!writes(k).fails && writes(k).taken > 0 &&
     Completes(writes, k + 1, if writes(k).taken < length then length - writes(k).taken else 0))
  }

  /** Two directories that differ at most in one name. */
  predicate SameBut(a: Files, b: Files, name: string) {
    a - {name} == b - {name}
  }

  /** writeAll: everything in order, or an error after a prefix; and it ends however short the writes are. */
  method WriteAll(directory: Directory, name: string, data: seq<byte>, writes: nat -> Write)
    returns (error: Option<string>)
    requires name in directory.files
    modifies directory
    ensures name in directory.files
    ensures error == None ==> directory.files[name] == old(directory.files)[name] + data
    ensures error != None ==>
      exists k | 0 <= k <= |data| :: directory.files[name] == old(directory.files)[name] + data[..k]
    ensures error == None <==> Completes(writes, 0, |data|)
    ensures |directory.history| >= |old(directory.history)|
    ensures directory.history[..|old(directory.history)|] == old(directory.history)
    ensures forall i | |old(directory.history)| <= i < |directory.history| ::
      SameBut(directory.history[i], old(directory.files), name)
    ensures SameBut(directory.files, old(directory.files), name)
  {
    var rest := data;
    var call: nat := 0;
    while |rest| > 0
      invariant name in directory.files && |rest| <= |data| && rest == data[|data| - |rest|..]
      invariant directory.files[name] == old(directory.files)[name] + data[..|data| - |rest|]
      invariant |directory.history| >= |old(directory.history)|
      invariant directory.history[..|old(directory.history)|] == old(directory.history)
      invariant forall i | |old(directory.history)| <= i < |directory.history| ::
        SameBut(directory.history[i], old(directory.files), name)
      invariant SameBut(directory.files, old(directory.files), name)
      invariant Completes(writes, 0, |data|) <==> Completes(writes, call, |rest|)
      decreases |rest|
    {
      var answer := writes(call);
      var written := if answer.taken < |rest| then answer.taken else |rest|;
      ghost var done := |data| - |rest|;
      assert data[..done] + rest[..written] == data[..done + written];
      directory.Set(name, directory.files[name] + rest[..written]);
      if answer.fails {
        return Some("write failed");
      }
      if written == 0 {
        return Some("atomicfile: zero-length write");
      }
      rest := rest[written..];
      call := call + 1;
    }
    return None;
  }

  /** The deferred removal of the temporary, whose error is ignored; where there is none left, it changes nothing. */
  method CleanUp(directory: Directory, temporary: string, fails: bool)
    modifies directory
    ensures directory.files == if fails then old(directory.files) else old(directory.files) - {temporary}
    ensures |directory.history| >= |old(directory.history)|
    ensures directory.history[..|old(directory.history)|] == old(directory.history)
    ensures forall i | |old(directory.history)| <= i < |directory.history| :: directory.history[i] == directory.files
  {
    if !fails {
      directory.Remove(temporary);
    }
  }

  lemma {:induction false} TemporaryDoesNotCount(before: Files, temporary: string)
    ensures SameBut(before, before, temporary)
    ensures SameBut(before[temporary := []], before, temporary)
    ensures forall a: Files :: SameBut(a, before, temporary) ==> SameBut(a - {temporary}, before, temporary)
    ensures forall a: Files, b: Files ::
      SameBut(a, b, temporary) && SameBut(b, before, temporary) ==> SameBut(a, before, temporary)
    ensures forall a: Files :: SameBut(a, before, temporary) && temporary !in before ==> a - {temporary} == before
  {
    assert temporary !in before ==> before - {temporary} == before;
    forall a: Files
      ensures a - {temporary} - {temporary} == a - {temporary}
    {
    }
  }

  lemma {:induction false} RenamingReplaces(before: Files, after: Files, path: string, temporary: string)
    requires SameBut(before, after, temporary) && temporary !in before && temporary in after && temporary != path
    ensures after[path := after[temporary]] - {temporary} == before[path := after[temporary]]
  {
    assert before - {temporary} == before;
    assert after[path := after[temporary]] - {temporary} == (after - {temporary})[path := after[temporary]];
  }

  /**
   Replace. It succeeds exactly when nothing that it needs fails. The target gets all of the data or nothing, on success
   and on every failure; the temporary is gone afterwards, unless removing it fails, which goes unreported; no other
   file is touched; and in every state in between the target held its old content or the new.
   */
  method Replace(directory: Directory, path: string, data: seq<byte>, ownerOnly: bool, temporary: string,
                 faults: Faults)
    returns (error: Option<string>)
    requires temporary !in directory.files && temporary != path
    modifies directory
    ensures error == None ==> directory.files == old(directory.files)[path := data]
    ensures error != None ==> SameBut(directory.files, old(directory.files), temporary)
    ensures error != None && !faults.remove ==> directory.files == old(directory.files)
    ensures error == None <==> ownerOnly && Quiet(faults) && Completes(faults.writes, 0, |data|)
    ensures |directory.history| >= |old(directory.history)|
    ensures forall i | |old(directory.history)| <= i < |directory.history| ::
      || SameBut(directory.history[i], old(directory.files), temporary)
      || SameBut(directory.history[i], old(directory.files)[path := data], temporary)
  {
    hide Completes, SameBut;
    TemporaryDoesNotCount(directory.files, temporary);
    TemporaryDoesNotCount(directory.files[path := data], temporary);
    if !ownerOnly {
      return Some("atomicfile: permission must be owner-only");
    }
    if faults.create {
      return Some("create failed");
    }
    directory.Set(temporary, []);
    if faults.chmod {
      CleanUp(directory, temporary, faults.remove);
      return Some("chmod failed");
    }
    var written := WriteAll(directory, temporary, data, faults.writes);
    if written != None || faults.sync || faults.close {
      CleanUp(directory, temporary, faults.remove);
      return Some("write, sync or close failed");
    }
    assert directory.files[temporary] == data;
    if faults.rename {
      CleanUp(directory, temporary, faults.remove);
      return Some("atomicfile: replace");
    }
    RenamingReplaces(old(directory.files), directory.files, path, temporary);
    directory.Rename(temporary, path);
    CleanUp(directory, temporary, faults.remove);
    return None;
  }
}
