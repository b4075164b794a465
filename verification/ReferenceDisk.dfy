/**
 Saving the reference file (profiles/object_references.go) through atomicfile.Replace: what the store takes for one
 step, on a directory where it takes many.
 */
module ReferenceDisk {
  import opened Results
  import opened Bytes
  import opened ReferenceFile
  import opened ReferenceCache
  import opened AtomicFile
  import opened ReferenceStore

  /** The JSON encoding of a file, and decoding. */
  datatype RawCodec = RawCodec(encode: File -> seq<byte>, decode: seq<byte> -> Option<File>)

  ghost predicate Invertible(c: RawCodec) {
    forall f: File :: c.decode(c.encode(f)) == Some(f)
  }

  /** What the path holds: the encoding of the contents of the store's file, or nothing. */
  predicate Holds(c: RawCodec, files: Files, path: string, file: Option<Stored>) {
    match file
    case None => path !in files
    case Some(stored) => path in files && c.decode(files[path]) == Some(stored.content)
  }

  /**
   The save of the store and the replacement in the directory keep step: they fail together, afterwards the path holds
   what the store takes for its file, and wherever a crash stops the replacement it holds the old file or the new one.
   */
  method Save(c: RawCodec, directory: Directory, path: string, temporary: string, disk: Disk, content: File,
              faults: AtomicFile.Faults)
    returns (error: Option<string>)
    requires Invertible(c) && Holds(c, directory.files, path, disk.file)
    requires temporary !in directory.files && temporary != path
    modifies directory, disk
    ensures Holds(c, directory.files, path, disk.file)
    ensures error == None <==> Quiet(faults) && Completes(faults.writes, 0, |c.encode(content)|)
    ensures error == None ==>
      disk.file == Some(Stored(old(disk.fresh_), content, disk.size(content))) && disk.fresh_ == old(disk.fresh_) + 1
    ensures error != None ==> disk.file == old(disk.file) && disk.fresh_ == old(disk.fresh_)
    ensures |directory.history| >= |old(directory.history)|
    ensures forall i | |old(directory.history)| <= i < |directory.history| ::
      || Holds(c, directory.history[i], path, old(disk.file))
      || Holds(c, directory.history[i], path, Some(Stored(old(disk.fresh_), content, disk.size(content))))
  {
    var replaced := AtomicFile.Replace(directory, path, c.encode(content), true, temporary, faults);
    ghost var next := Some(Stored(disk.fresh_, content, disk.size(content)));
    forall files: Files
      ensures SameBut(files, old(directory.files), temporary) ==> Holds(c, files, path, old(disk.file))
      ensures SameBut(files, old(directory.files)[path := c.encode(content)], temporary) ==> Holds(c, files, path, next)
    {
      ElsewhereIsSame(files, old(directory.files), temporary, path);
      ElsewhereIsSame(files, old(directory.files)[path := c.encode(content)], temporary, path);
    }
    error := disk.Replace(content, replaced != None);
  }

  lemma {:induction false} ElsewhereIsSame(a: Files, b: Files, temporary: string, path: string)
    requires temporary != path
    ensures SameBut(a, b, temporary) ==> (path in a <==> path in b) && (path in a ==> a[path] == b[path])
  {
    if SameBut(a, b, temporary) {
      assert path in a <==> path in a - {temporary};
      assert path in b <==> path in b - {temporary};
      assert path in a ==> a[path] == (a - {temporary})[path];
      assert path in b ==> b[path] == (b - {temporary})[path];
    }
  }
}
