/** The chunk loops of the WebDAV server: GET, PUT and file COPY over a filesystem that may read short. */
module WebDavTransfer {
  import opened Wrappers

  type Bytes = seq<bv8>

  const READ_CHUNK_SIZE: nat := 1_048_576

  datatype ReadResult = ReadResult(data: Bytes, bytesRead: nat, eof: bool)

  /** What a read promises: some of what was asked for, nothing only at the end, and the truth about the end. */
  ghost predicate HonestRead(file: Bytes, offset: nat, length: nat, r: ReadResult) {
    && r.bytesRead <= |r.data| && r.bytesRead <= length
    && (offset <= |file| ==> offset + r.bytesRead <= |file| && r.data[..r.bytesRead] == file[offset..offset + r.bytesRead])
    && (r.bytesRead == 0 <==> offset >= |file| || length == 0)
    && (r.eof <==> offset + r.bytesRead >= |file|)
  }

  /** A write at an offset, on an emptied file if `truncate`; a gap would be filled with zeros. */
  function Written(before: Bytes, offset: nat, data: Bytes, truncate: bool): Bytes {
    var base := if truncate then [] else before;
    var padded := if |base| < offset then base + seq(offset - |base|, _ => 0) else base;
    padded[..offset] + data + if |padded| > offset + |data| then padded[offset + |data|..] else []
  }

  class Filesystem {
    var files: map<string, Bytes>

    constructor (files: map<string, Bytes>)
      ensures this.files == files
    {
      this.files := files;
    }

    /** Any honest read: how much arrives is up to the phone. */
    method Read(path: string, offset: nat, length: nat) returns (r: ReadResult)
      requires path in files
      ensures HonestRead(files[path], offset, length, r)
    {
      var file := files[path];
      if offset >= |file| || length == 0 {
        return ReadResult([], 0, offset >= |file|);
      }
      var most := if length < |file| - offset then length else |file| - offset;
      var n: nat :| 1 <= n <= most;
      r := ReadResult(file[offset..offset + n], n, offset + n >= |file|);
    }

    method Write(path: string, offset: nat, data: Bytes, truncate: bool)
      modifies this
      ensures files == old(files)[path := Written(Lookup(old(files), path).GetOr([]), offset, data, truncate)]
    {
      var before := if path in files then files[path] else [];
      files := files[path := Written(before, offset, data, truncate)];
    }
  }

  /**
   * Reading a downloaded attachment for the media share: `got` is what the operating system's read returns for the
   * clipped length, at least one byte when any is asked for. The read is honest unless no byte is asked for before the
   * end of the file: the answer then claims the end.
   */
  method ReadMedia(file: Bytes, offset: nat, length: nat, got: nat) returns (r: ReadResult)
    requires length > 0 && offset < |file| ==> 1 <= got <= length && got <= |file| - offset
    ensures HonestRead(file, offset, length, r) <==> length > 0 || offset >= |file|
    ensures length == 0 ==> r == ReadResult([], 0, true)
  {
    var readLen := if length < |file| - offset then length else |file| - offset;
    if readLen <= 0 {
      return ReadResult([], 0, true);
    }
    r := ReadResult(file[offset..offset + got], got, offset + got >= |file|);
  }

  /** Offsets that the loop of a GET may go through until it has sent `size` bytes or reached the end of the file. */
  ghost predicate Offsets(file: Bytes, size: nat, offsets: seq<nat>) {
    && offsets != [] && offsets[0] == 0
    && (forall i | 0 <= i < |offsets| - 1 :: Advances(file, size, offsets[i], offsets[i + 1]))
    && (offsets[|offsets| - 1] >= size || offsets[|offsets| - 1] >= |file|)
  }

  /** Some honest read at `offset` leads to `next`. */
  predicate Advances(file: Bytes, size: nat, offset: nat, next: nat) {
    offset < size && offset < next <= offset + READ_CHUNK_SIZE && next <= |file|
  }

  lemma AdvancesIff(file: Bytes, size: nat, offset: nat, next: nat)
    requires offset <= |file|
    ensures Advances(file, size, offset, next)
       <==> offset < size && next > offset
            && exists r :: HonestRead(file, offset, READ_CHUNK_SIZE, r) && offset + r.bytesRead == next
  {
    if Advances(file, size, offset, next) {
      var r := ReadResult(file[offset..next], next - offset, next >= |file|);
      assert HonestRead(file, offset, READ_CHUNK_SIZE, r) && offset + r.bytesRead == next;
    }
  }

  /** What a GET may send: all of a file no longer than `size`, otherwise `size` bytes and less than a chunk more. */
  predicate PossibleBody(file: Bytes, size: nat, body: Bytes) {
    body <= file
    && if size == 0 then body == []
       else if |file| <= size then body == file
       else size <= |body| < size + READ_CHUNK_SIZE
  }

  ghost predicate SentBy(file: Bytes, size: nat, body: Bytes, offsets: seq<nat>) {
    Offsets(file, size, offsets) && |body| == offsets[|offsets| - 1] && body <= file
  }

  /** These bodies, and no others, come out of the loop. */
  lemma PossibleBodyIff(file: Bytes, size: nat, body: Bytes)
    ensures PossibleBody(file, size, body) <==> exists offsets :: SentBy(file, size, body, offsets)
  {
    if PossibleBody(file, size, body) {
      if body == [] {
        assert SentBy(file, size, body, [0]);
      } else {
        var last := if size < |file| then size - 1 else |file| - 1;
        assert SentBy(file, size, body, ByteByByte(last) + [|body|]);
      }
    }
    if offsets :| SentBy(file, size, body, offsets) {
      var n := |offsets| - 1;
      if n > 0 {
        assert Advances(file, size, offsets[n - 1], offsets[n]);
      }
    }
  }

  function ByteByByte(n: nat): seq<nat> {
    seq(n + 1, i requires 0 <= i <= n => i)
  }

  /**
   * A GET is sure to send the whole file exactly if the reported size is not too small. A transcoded attachment keeps
   * the size of the original, and one that was never downloaded reports zero.
   */
  lemma GetWholeIff(file: Bytes, size: nat)
    ensures (forall body | PossibleBody(file, size, body) :: body == file) <==> size >= |file|
  {
    if size < |file| {
      assert PossibleBody(file, size, file[..size]);
    }
  }

  /** GET and HEAD of a file for which `stat` reports `size`. */
  method HandleGet(fs: Filesystem, path: string, size: nat, headOnly: bool) returns (status: int, body: Bytes)
    ensures path !in fs.files ==> status == 404 && body == []
    ensures path in fs.files ==> status == 200
    ensures path in fs.files ==> if headOnly then body == [] else PossibleBody(fs.files[path], size, body)
  {
    body := [];
    if path !in fs.files {
      return 404, [];
    }
    status := 200;
    if headOnly { return; }
    var file := fs.files[path];
    var offset := 0;
    while offset < size
      invariant offset <= |file| && body == file[..offset]
      invariant offset < size + READ_CHUNK_SIZE && (size == 0 ==> offset == 0)
      decreases |file| - offset
    {
      var r := fs.Read(path, offset, READ_CHUNK_SIZE);
      if r.bytesRead == 0 {
        break;
      }
      body := body + r.data[..r.bytesRead];
      offset := offset + r.bytesRead;
      if r.eof {
        break;
      }
    }
    assert file[..|file|] == file;
  }

  /** PUT stores the concatenation of the request's chunks, replacing what was there. */
  method HandlePut(fs: Filesystem, path: string, chunks: seq<Bytes>) returns (status: int)
    modifies fs
    ensures fs.files == old(fs.files)[path := Flatten(chunks)]
    ensures status == if path in old(fs.files) then 204 else 201
  {
    var existsBefore := path in fs.files;
    var offset := 0;
    var i := 0;
    while i < |chunks|
      invariant 0 <= i <= |chunks|
      invariant offset == |Flatten(chunks[..i])|
      invariant fs.files == if i == 0 then old(fs.files) else old(fs.files)[path := Flatten(chunks[..i])]
    {
      assert chunks[..i + 1][..i] == chunks[..i];
      AppendWrites(Flatten(chunks[..i]), chunks[i]);
      Overwrites(Lookup(fs.files, path).GetOr([]), chunks[i]);
      fs.Write(path, offset, chunks[i], i == 0);
      offset := offset + |chunks[i]|;
      i := i + 1;
    }
    assert chunks[..i] == chunks;
    if i == 0 {
      Overwrites(Lookup(fs.files, path).GetOr([]), []);
      fs.Write(path, 0, [], true);
    }
    status := if existsBefore then 204 else 201;
  }

  /** After a write the data is in place; before it the old bytes or zeros, behind it the old bytes, unless truncated. */
  lemma WrittenExactly(before: Bytes, offset: nat, data: Bytes, truncate: bool)
    ensures var base := if truncate then [] else before;
      var r := Written(before, offset, data, truncate);
      && |r| == (if |base| > offset + |data| then |base| else offset + |data|)
      && r[offset..offset + |data|] == data
      && (forall i | 0 <= i < offset :: r[i] == if i < |base| then base[i] else 0)
      && (forall i | offset + |data| <= i < |r| :: r[i] == base[i])
  {
  }

  lemma AppendWrites(before: Bytes, data: Bytes)
    ensures Written(before, |before|, data, false) == before + data
  {
  }

  lemma Overwrites(before: Bytes, data: Bytes)
    ensures Written(before, 0, data, true) == data
  {
  }

  /** What copying a file onto itself leaves: as much of it as one read returned. */
  ghost predicate SelfCopyLeaves(file: Bytes, left: Bytes) {
    left <= file && |left| <= READ_CHUNK_SIZE && (left == [] <==> file == [])
  }

  /** Any such result is possible: one honest read of the file decides it. */
  lemma SelfCopyLeavesIff(file: Bytes, left: Bytes)
    ensures SelfCopyLeaves(file, left)
       <==> exists r :: HonestRead(file, 0, READ_CHUNK_SIZE, r) && left == r.data[..r.bytesRead]
  {
    if SelfCopyLeaves(file, left) {
      var r := ReadResult(left, |left|, |left| >= |file|);
      assert HonestRead(file, 0, READ_CHUNK_SIZE, r) && left == r.data[..r.bytesRead];
    }
  }

  /** However short the reads may be, a copy onto itself is safe only for files of at most one byte. */
  lemma SelfCopySafeIff(file: Bytes)
    ensures (forall left | SelfCopyLeaves(file, left) :: left == file) <==> |file| <= 1
  {
    if |file| > 1 {
      assert SelfCopyLeaves(file, file[..1]);
    }
  }

  /** However long the reads may be, it shortens every file that does not fit one chunk. */
  lemma SelfCopyShortensLongFiles(file: Bytes)
    ensures (forall left | SelfCopyLeaves(file, left) :: |left| < |file|) <==> |file| > READ_CHUNK_SIZE
  {
    if |file| <= READ_CHUNK_SIZE {
      assert SelfCopyLeaves(file, file);
    }
  }

  /**
   * COPY of a file. A different destination ends up equal to the source and nothing else changes. Onto itself, the
   * first write truncates the file that is still being read: only the first chunk read is left.
   */
  method HandleCopy(fs: Filesystem, srcPath: string, destPath: string) returns (status: int)
    modifies fs
    ensures srcPath !in old(fs.files) ==> status == 404 && fs.files == old(fs.files)
    ensures srcPath in old(fs.files) ==> status == 201
    ensures srcPath in old(fs.files) && destPath != srcPath ==> fs.files == old(fs.files)[destPath := old(fs.files)[srcPath]]
    ensures srcPath in old(fs.files) && destPath == srcPath ==>
      && srcPath in fs.files && fs.files == old(fs.files)[srcPath := fs.files[srcPath]]
      && SelfCopyLeaves(old(fs.files)[srcPath], fs.files[srcPath])
  {
    ghost var firstRead := 0;
    if srcPath !in fs.files {
      return 404;
    }
    var size := |fs.files[srcPath]|;
    ghost var file := fs.files[srcPath];
    var offset := 0;
    while offset < size
      invariant offset <= |file| == size
      invariant (firstRead == 0 <==> offset == 0) && firstRead <= offset && firstRead <= READ_CHUNK_SIZE
      invariant offset == 0 ==> fs.files == old(fs.files)
      invariant offset > 0 && destPath != srcPath ==> fs.files == old(fs.files)[destPath := file[..offset]]
      invariant offset > 0 && destPath == srcPath ==> offset == firstRead && fs.files == old(fs.files)[srcPath := file[..offset]]
      decreases size - offset
    {
      var r := fs.Read(srcPath, offset, READ_CHUNK_SIZE);
      if r.bytesRead == 0 {
        break;
      }
      var chunk := r.data[..r.bytesRead];
      if offset == 0 {
        firstRead := r.bytesRead;
        Overwrites(Lookup(fs.files, destPath).GetOr([]), chunk);
      } else {
        AppendWrites(file[..offset], chunk);
        assert destPath != srcPath ==> file[..offset] + chunk == file[..offset + r.bytesRead];
      }
      ghost var before := fs.files;
      fs.Write(destPath, offset, chunk, offset == 0);
      assert before[destPath := fs.files[destPath]] == old(fs.files)[destPath := fs.files[destPath]];
      offset := offset + r.bytesRead;
      if r.eof {
        break;
      }
    }
    assert file[..|file|] == file;
    if offset == 0 {
      Overwrites(Lookup(fs.files, destPath).GetOr([]), []);
      fs.Write(destPath, 0, [], true);
    }
    status := 201;
  }
}
