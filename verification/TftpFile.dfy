/**
 The read side of src/tftp/file/tftp_file.c: a pooled object over an open file,
 which is a fixed byte sequence and a position in it.
*/
module Files {
  import opened Wire

  datatype Stream = Stream(content: seq<byte>, position: nat) {
    predicate Valid() {
      position <= |content|
    }
  }

  // ---------- a file object as a value ----------

  datatype File = File(inUse: bool, open: bool, fp: Option<Stream>) {
    predicate Valid() {
      (open <==> fp.Some?) && (open ==> fp.value.Valid())
    }
  }

  /** `disk` maps the paths that `fopen` can open for reading to their contents. */
  function FileOpened(f: File, path: seq<byte>, disk: map<seq<byte>, seq<byte>>): (File, Status) {
    if f.open then (f, InvalidState)
    else if path !in disk then (f.(fp := None), FileError)
    else (f.(fp := Some(Stream(disk[path], 0)), open := true), Ok)
  }

  /** The object after a read, the status, and the bytes put in the buffer. */
  function FileRead(f: File, size: nat, io: ReadIo): (r: (File, Status, seq<byte>))
    requires f.Valid()
    ensures r.0.Valid() && |r.2| <= size
  {
    if !f.open then (f, InvalidState, [])
    else
      var s := f.fp.value;
      var wanted := Min(size, |s.content| - s.position);
      var count := if io.ReadOk? then wanted else Min(io.consumed, wanted);
      (f.(fp := Some(Stream(s.content, s.position + count))),
       if io.ReadOk? then Ok else FileError,
       s.content[s.position..s.position + count])
  }

  function FileClosed(f: File, closeOk: bool): (File, Status) {
    if f.open then (f.(fp := None, open := false), if closeOk then Ok else FileError)
    else (f, Ok)
  }

  function FreeFile(files: seq<File>): (i: nat)
    ensures i <= |files|
    ensures i < |files| ==> !files[i].inUse
    ensures forall j :: 0 <= j < i ==> files[j].inUse
  {
    FirstFree(files, (file: File) => file.inUse)
  }

  // ---------- the objects ----------

  class TftpFile {
    const slot: nat
    var inUse: bool
    var open: bool
    var fp: Option<Stream>

    function Value(): File
      reads this
    {
      File(inUse, open, fp)
    }

    constructor (slot: nat)
      ensures this.slot == slot && Value() == File(false, false, None)
    {
      this.slot := slot;
      inUse, open, fp := false, false, None;
    }

    method Init() returns (status: Status)
      modifies this
      ensures Value() == File(old(inUse), false, None) && status == Ok
    {
      open := false;
      fp := None;
      return Ok;
    }

    method Open(path: seq<byte>, disk: map<seq<byte>, seq<byte>>) returns (status: Status)
      modifies this
      ensures (Value(), status) == FileOpened(old(Value()), path, disk)
    {
      if open {
        return InvalidState;
      }
      fp := if path in disk then Some(Stream(disk[path], 0)) else None;
      if fp.None? {
        return FileError;
      }
      open := true;
      return Ok;
    }

    method ReadInto(buffer: array<byte>, io: ReadIo) returns (status: Status, bytesRead: nat)
      requires Value().Valid()
      modifies this, buffer
      ensures bytesRead <= buffer.Length
      ensures (Value(), status, buffer[..bytesRead]) == FileRead(old(Value()), buffer.Length, io)
    {
      if !open {
        return InvalidState, 0;
      }
      var s := fp.value;
      bytesRead := Min(buffer.Length, |s.content| - s.position);
      if io.ReadFails? {
        bytesRead := Min(io.consumed, bytesRead);
      }
      forall k | 0 <= k < bytesRead {
        buffer[k] := s.content[s.position + k];
      }
      assert buffer[..bytesRead] == s.content[s.position..s.position + bytesRead];
      fp := Some(Stream(s.content, s.position + bytesRead));
      return if io.ReadOk? then Ok else FileError, bytesRead;
    }

    method Close(closeOk: bool) returns (status: Status)
      modifies this
      ensures (Value(), status) == FileClosed(old(Value()), closeOk)
    {
      if open {
        fp := None;
        open := false;
        return if closeOk then Ok else FileError;
      }
      return Ok;
    }

    method Release()
      modifies this
      ensures Value() == old(Value()).(inUse := false)
    {
      inUse := false;
    }
  }

  class FilePool {
    const pool: seq<TftpFile>

    ghost predicate Valid() {
      forall i :: 0 <= i < |pool| ==> pool[i].slot == i
    }

    function Files(): (r: seq<File>)
      reads pool
      ensures |r| == |pool|
      ensures forall i :: 0 <= i < |r| ==> r[i] == pool[i].Value()
    {
      seq(|pool|, i requires 0 <= i < |pool| reads pool => pool[i].Value())
    }

    constructor (size: nat)
      ensures Valid() && fresh(pool)
      ensures Files() == seq(size, _ => File(false, false, None))
    {
      var files: seq<TftpFile> := [];
      for i := 0 to size
        invariant |files| == i && fresh(files)
        invariant forall k :: 0 <= k < i ==> files[k].slot == k && files[k].Value() == File(false, false, None)
      {
        var file := new TftpFile(i);
        files := files + [file];
      }
      pool := files;
    }

    /** Only the object `file` has changed since. */
    twostate lemma OnlyFileChanged(file: TftpFile)
      requires Valid() && file in pool
      requires forall x :: x in pool && x != file ==> unchanged(x)
      ensures Files() == old(Files())[file.slot := file.Value()]
    {
      forall i | 0 <= i < |pool| && pool[i] != file ensures pool[i].Value() == old(pool[i].Value()) {
        assert pool[i] in pool;
      }
    }

    method Acquire() returns (status: Status, out: TftpFile?)
      requires Valid()
      modifies pool
      ensures var k := FreeFile(old(Files()));
              if k == |pool| then status == NoResource && out == null && Files() == old(Files())
              else status == Ok && out == pool[k] && Files() == old(Files())[k := File(true, false, None)]
    {
      var i := 0;
      while i < |pool|
        invariant i <= |pool|
        invariant forall f :: f in pool ==> unchanged(f)
        invariant forall j :: 0 <= j < i ==> pool[j].inUse
      {
        if !pool[i].inUse {
          var file := pool[i];
          file.inUse := true;
          file.open := false;
          file.fp := None;
          return Ok, file;
        }
        i := i + 1;
      }
      return NoResource, null;
    }
  }

  // ---------- the life of a file ----------

  /** Reading in two steps gives what one larger read gives, and never passes the end. */
  lemma ReadsAreConsecutive(f: File, a: nat, b: nat)
    requires f.Valid() && f.open
    ensures var (f1, s1, first) := FileRead(f, a, ReadOk);
            var (f2, s2, second) := FileRead(f1, b, ReadOk);
            var (whole, s, bytes) := FileRead(f, a + b, ReadOk);
            s1 == s2 == s == Ok && f2 == whole && first + second == bytes
  {
    var s := f.fp.value;
    var p := s.position;
    var q := p + Min(a, |s.content| - p);
    var r := q + Min(b, |s.content| - q);
    assert s.content[p..q] + s.content[q..r] == s.content[p..r];
  }

  /** An opened file is read from its start; a closed or failed one is not read; a close ends closed
      whatever `fclose` reports. */
  lemma FileCallsSucceedWhen(f: File, path: seq<byte>, disk: map<seq<byte>, seq<byte>>, size: nat, io: ReadIo, ok: bool)
    requires f.Valid()
    ensures FileOpened(f, path, disk).1 == Ok <==> !f.open && path in disk
    ensures !f.open && path in disk ==>
              FileRead(FileOpened(f, path, disk).0, |disk[path]|, ReadOk).2 == disk[path]
    ensures FileRead(f, size, io).1 == Ok <==> f.open && io.ReadOk?
    ensures FileClosed(f, ok).1 == Ok <==> !f.open || ok
    ensures !FileClosed(f, ok).0.open && FileClosed(f, ok).0.inUse == f.inUse && FileClosed(f, ok).0.Valid()
  {
  }
}
