/** common/body_storage.go and the counters of common/disk_cache_config.go: a request body is kept in
    memory or in a temporary file, behind one reader interface. File reads return all that is there. */
module BodyStorage {
  import opened Bytes
  import opened Numbers

  datatype Whence = FromStart | FromCurrent | FromEnd

  datatype Op = Read(size: nat) | Seek(offset: int, whence: Whence) | GetBytes | Close

  datatype Reply =
    | Got(bytes: seq<Byte>) | Eof | At(position: int) | Content(bytes: seq<Byte>)
    | Ok | NegativePosition | StorageClosed

  /** The state both kinds of storage share: the content, the cursor, and whether Close was called. */
  datatype Storage = Storage(data: seq<Byte>, pos: nat, closed: bool)

  /** The bytes a read of the given size yields before the end. */
  function Ahead(data: seq<Byte>, pos: nat, size: nat): seq<Byte>
    requires pos < |data|
  {
    if pos + size <= |data| then data[pos..pos + size] else data[pos..]
  }

  function Target(data: seq<Byte>, pos: nat, offset: int, whence: Whence): int {
    match whence
    case FromStart => offset
    case FromCurrent => pos + offset
    case FromEnd => |data| + offset
  }

  function Sought(s: Storage, offset: int, whence: Whence): (Storage, Reply) {
    var target := Target(s.data, s.pos, offset, whence);
    if target < 0 then (s, NegativePosition) else (s.(pos := target), At(target))
  }

  /** `bytes.Reader.Read`: at or past the end it reports the end, whatever the buffer. */
  function MemoryRead(s: Storage, size: nat): (Storage, Reply) {
    if s.pos >= |s.data| then (s, Eof)
    else (s.(pos := s.pos + |Ahead(s.data, s.pos, size)|), Got(Ahead(s.data, s.pos, size)))
  }

  /** `os.File.Read`: an empty buffer is filled at once, even at the end. */
  function FileRead(s: Storage, size: nat): (Storage, Reply) {
    if size == 0 then (s, Got([]))
    else if s.pos >= |s.data| then (s, Eof)
    else (s.(pos := s.pos + |Ahead(s.data, s.pos, size)|), Got(Ahead(s.data, s.pos, size)))
  }

  function MemoryStep(s: Storage, op: Op): (Storage, Reply) {
    if op.Close? then (s.(closed := true), Ok)
    else if s.closed then (s, StorageClosed)
    else match op
         case Read(size) => MemoryRead(s, size)
         case Seek(offset, whence) => Sought(s, offset, whence)
         case GetBytes => (s, Content(s.data))
         case Close => (s, Ok)
  }

  function DiskStep(s: Storage, op: Op): (Storage, Reply) {
    if op.Read? && !s.closed then FileRead(s, op.size) else MemoryStep(s, op)
  }

  // ----- Usage counters -----------------------------------------------------------------

  class Usage {
    var activeDiskFiles: int
    var diskBytes: int
    var activeMemoryBuffers: int
    var memoryBytes: int

    constructor ()
      ensures activeDiskFiles == diskBytes == activeMemoryBuffers == memoryBytes == 0
    {
      activeDiskFiles, diskBytes, activeMemoryBuffers, memoryBytes := 0, 0, 0, 0;
    }

    method IncrementDiskFiles(size: int)
      modifies this`activeDiskFiles, this`diskBytes
      ensures activeDiskFiles == old(activeDiskFiles) + 1 && diskBytes == old(diskBytes) + size
    {
      activeDiskFiles := activeDiskFiles + 1;
      diskBytes := diskBytes + size;
    }

    method DecrementDiskFiles(size: int)
      modifies this`activeDiskFiles, this`diskBytes
      ensures activeDiskFiles == Max(0, old(activeDiskFiles) - 1)
      ensures diskBytes == Max(0, old(diskBytes) - size)
    {
      activeDiskFiles := activeDiskFiles - 1;
      if activeDiskFiles < 0 { activeDiskFiles := 0; }
      diskBytes := diskBytes - size;
      if diskBytes < 0 { diskBytes := 0; }
    }

    method IncrementMemoryBuffers(size: int)
      modifies this`activeMemoryBuffers, this`memoryBytes
      ensures activeMemoryBuffers == old(activeMemoryBuffers) + 1 && memoryBytes == old(memoryBytes) + size
    {
      activeMemoryBuffers := activeMemoryBuffers + 1;
      memoryBytes := memoryBytes + size;
    }

    method DecrementMemoryBuffers(size: int)
      modifies this`activeMemoryBuffers, this`memoryBytes
      ensures activeMemoryBuffers == old(activeMemoryBuffers) - 1 && memoryBytes == old(memoryBytes) - size
    {
      activeMemoryBuffers := activeMemoryBuffers - 1;
      memoryBytes := memoryBytes - size;
    }
  }

  // ----- Storage in memory -----------------------------------------------------------------

  class MemoryStorage {
    const data: seq<Byte>
    var pos: nat
    var closed: bool

    ghost function State(): Storage
      reads this
    {
      Storage(data, pos, closed)
    }

    constructor (data: seq<Byte>, usage: Usage)
      modifies usage`activeMemoryBuffers, usage`memoryBytes
      ensures State() == Storage(data, 0, false)
      ensures usage.activeMemoryBuffers == old(usage.activeMemoryBuffers) + 1
      ensures usage.memoryBytes == old(usage.memoryBytes) + |data|
    {
      this.data := data;
      pos, closed := 0, false;
      new;
      usage.IncrementMemoryBuffers(|data|);
    }

    method DoRead(size: nat) returns (r: Reply)
      modifies this
      ensures (State(), r) == MemoryStep(old(State()), Read(size))
    {
      if closed { return StorageClosed; }
      if pos >= |data| { return Eof; }
      var bytes := Ahead(data, pos, size);
      pos := pos + |bytes|;
      return Got(bytes);
    }

    method DoSeek(offset: int, whence: Whence) returns (r: Reply)
      modifies this
      ensures (State(), r) == MemoryStep(old(State()), Seek(offset, whence))
    {
      if closed { return StorageClosed; }
      var target := Target(data, pos, offset, whence);
      if target < 0 { return NegativePosition; }
      pos := target;
      return At(target);
    }

    method DoBytes() returns (r: Reply)
      ensures (State(), r) == MemoryStep(State(), GetBytes)
    {
      if closed { return StorageClosed; }
      return Content(data);
    }

    method DoClose(usage: Usage) returns (r: Reply)
      modifies this, usage`activeMemoryBuffers, usage`memoryBytes
      ensures (State(), r) == MemoryStep(old(State()), Close)
      ensures usage.activeMemoryBuffers == old(usage.activeMemoryBuffers) - if old(closed) then 0 else 1
      ensures usage.memoryBytes == old(usage.memoryBytes) - if old(closed) then 0 else |data|
    {
      if !closed {
        closed := true;
        usage.DecrementMemoryBuffers(|data|);
      }
      return Ok;
    }
  }

  // ----- Storage on disk -------------------------------------------------------------------

  /** An open temporary file with its cursor. */
  class TempFile {
    var contents: seq<Byte>
    var pos: nat

    constructor (contents: seq<Byte>)
      ensures this.contents == contents && pos == 0
    {
      this.contents := contents;
      pos := 0;
    }

    method FileReadCall(size: nat) returns (r: Reply)
      modifies this`pos
      ensures (Storage(contents, pos, false), r) == FileRead(Storage(contents, old(pos), false), size)
    {
      if size == 0 { return Got([]); }
      if pos >= |contents| { return Eof; }
      var bytes := Ahead(contents, pos, size);
      pos := pos + |bytes|;
      return Got(bytes);
    }

    method FileSeek(offset: int, whence: Whence) returns (r: Reply)
      modifies this`pos
      ensures (Storage(contents, pos, false), r) == Sought(Storage(contents, old(pos), false), offset, whence)
    {
      var target := Target(contents, pos, offset, whence);
      if target < 0 { return NegativePosition; }
      pos := target;
      return At(target);
    }

    /** `io.ReadFull`: read until the buffer is full or the file ends. */
    method ReadFull(size: nat) returns (bytes: seq<Byte>, full: bool)
      modifies this`pos
      ensures full == (size == 0 || old(pos) + size <= |contents|)
      ensures full ==> pos == old(pos) + size && bytes == if size == 0 then [] else contents[old(pos)..pos]
    {
      ghost var start := pos;
      bytes := [];
      while |bytes| < size
        invariant |bytes| <= size && pos == start + |bytes|
        invariant |bytes| > 0 ==> pos <= |contents| && bytes == contents[start..pos]
        decreases size - |bytes|
      {
        var r := FileReadCall(size - |bytes|);
        if r.Eof? { return bytes, false; }
        bytes := bytes + r.bytes;
      }
      return bytes, true;
    }
  }

  class DiskStorage {
    const file: TempFile
    const size: nat
    var closed: bool

    ghost predicate Valid()
      reads this, file
    {
      size == |file.contents|
    }

    ghost function State(): Storage
      reads this, file
    {
      Storage(file.contents, file.pos, closed)
    }

    constructor (data: seq<Byte>, usage: Usage)
      modifies usage`activeDiskFiles, usage`diskBytes
      ensures Valid() && State() == Storage(data, 0, false) && fresh(file)
      ensures usage.activeDiskFiles == old(usage.activeDiskFiles) + 1
      ensures usage.diskBytes == old(usage.diskBytes) + |data|
    {
      file := new TempFile(data);
      size := |data|;
      closed := false;
      new;
      usage.IncrementDiskFiles(|data|);
    }

    method DoRead(n: nat) returns (r: Reply)
      requires Valid()
      modifies file`pos
      ensures Valid() && (State(), r) == DiskStep(old(State()), Read(n))
    {
      if closed { return StorageClosed; }
      r := file.FileReadCall(n);
    }

    method DoSeek(offset: int, whence: Whence) returns (r: Reply)
      requires Valid()
      modifies file`pos
      ensures Valid() && (State(), r) == DiskStep(old(State()), Seek(offset, whence))
    {
      if closed { return StorageClosed; }
      r := file.FileSeek(offset, whence);
    }

    /** Save the position, rewind, read everything, restore the position. */
    method DoBytes() returns (r: Reply)
      requires Valid()
      modifies file`pos
      ensures Valid() && (State(), r) == DiskStep(old(State()), GetBytes)
    {
      if closed { return StorageClosed; }
      var current := file.FileSeek(0, FromCurrent);
      var rewound := file.FileSeek(0, FromStart);
      var data, full := file.ReadFull(size);
      assert data == file.contents;
      var restored := file.FileSeek(current.position, FromStart);
      return Content(data);
    }

    method DoClose(usage: Usage) returns (r: Reply)
      requires Valid()
      modifies this`closed, usage`activeDiskFiles, usage`diskBytes
      ensures Valid() && (State(), r) == DiskStep(old(State()), Close)
      ensures old(closed) ==> unchanged(usage)
      ensures !old(closed) ==>
                && usage.activeDiskFiles == Max(0, old(usage.activeDiskFiles) - 1)
                && usage.diskBytes == Max(0, old(usage.diskBytes) - size)
    {
      if !closed {
        closed := true;
        usage.DecrementDiskFiles(size);
      }
      return Ok;
    }
  }

  // ----- The two kinds answer alike -----------------------------------------------------------

  datatype Trace = Trace(state: Storage, replies: seq<Reply>)

  function RunMemory(s: Storage, ops: seq<Op>): (t: Trace)
    ensures |t.replies| == |ops|
  {
    if ops == [] then Trace(s, [])
    else
      var before := RunMemory(s, ops[..|ops| - 1]);
      var (state, reply) := MemoryStep(before.state, ops[|ops| - 1]);
      Trace(state, before.replies + [reply])
  }

  function RunDisk(s: Storage, ops: seq<Op>): (t: Trace)
    ensures |t.replies| == |ops|
  {
    if ops == [] then Trace(s, [])
    else
      var before := RunDisk(s, ops[..|ops| - 1]);
      var (state, reply) := DiskStep(before.state, ops[|ops| - 1]);
      Trace(state, before.replies + [reply])
  }

  /** A read into an empty buffer while the open storage stands at or past its end. */
  predicate EmptyReadAtEnd(s: Storage, op: Op) {
    op == Read(0) && !s.closed && s.pos >= |s.data|
  }

  /** Over every sequence of operations the two storages go through the same states. */
  lemma {:induction false} SameStates(s: Storage, ops: seq<Op>)
    ensures RunDisk(s, ops).state == RunMemory(s, ops).state
  {
    if ops != [] { SameStates(s, ops[..|ops| - 1]); }
  }

  /** The i-th operation of the run is such a read. */
  ghost predicate StumblesAt(s: Storage, ops: seq<Op>, i: nat)
    requires i < |ops|
  {
    EmptyReadAtEnd(RunMemory(s, ops[..i]).state, ops[i])
  }

  /** REFINEMENT, exactly. Memory and disk storage give the same replies to a sequence of operations if
      and only if it never reads into an empty buffer at the end of the open storage. */
  lemma {:induction false} SameRepliesIff(s: Storage, ops: seq<Op>)
    ensures RunDisk(s, ops).replies == RunMemory(s, ops).replies
       <==> forall i :: 0 <= i < |ops| ==> !StumblesAt(s, ops, i)
  {
    hide MemoryStep, DiskStep, EmptyReadAtEnd;
    if ops != [] {
      var n := |ops| - 1;
      var init := ops[..n];
      SameRepliesIff(s, init);
      SameStates(s, init);
      forall i | 0 <= i < n
        ensures StumblesAt(s, init, i) == StumblesAt(s, ops, i)
      {
        assert init[..i] == ops[..i];
      }
      assert (forall i :: 0 <= i < |ops| ==> !StumblesAt(s, ops, i))
        <==> (forall i :: 0 <= i < n ==> !StumblesAt(s, init, i)) && !StumblesAt(s, ops, n);
      OneReplyDiffers(RunMemory(s, init).state, ops[n]);
      AppendedEqual(RunDisk(s, init).replies, RunMemory(s, init).replies,
                    DiskStep(RunMemory(s, init).state, ops[n]).1, MemoryStep(RunMemory(s, init).state, ops[n]).1);
    }
  }

  /** Such a sequence: one empty read of an empty body ends the memory reader but not the file. */
  lemma EmptyReadDiffers()
    ensures RunMemory(Storage([], 0, false), [Read(0)]).replies != RunDisk(Storage([], 0, false), [Read(0)]).replies
  {
    var ops := [Read(0)];
    assert ops[..0] == [];
    SameRepliesIff(Storage([], 0, false), ops);
    assert StumblesAt(Storage([], 0, false), ops, 0);
  }

  lemma AppendedEqual(a: seq<Reply>, b: seq<Reply>, x: Reply, y: Reply)
    requires |a| == |b|
    ensures a + [x] == b + [y] <==> a == b && x == y
  {
    if a + [x] == b + [y] {
      assert (a + [x])[..|a|] == a && (b + [y])[..|b|] == b;
      assert (a + [x])[|a|] == x && (b + [y])[|b|] == y;
    }
  }

  lemma OneReplyDiffers(s: Storage, op: Op)
    ensures DiskStep(s, op).1 == MemoryStep(s, op).1 <==> !EmptyReadAtEnd(s, op)
  {
  }

  /** Fetching the whole content leaves the cursor where it was, on both kinds. */
  lemma BytesLeavesCursor(s: Storage)
    ensures DiskStep(s, GetBytes).0 == s && MemoryStep(s, GetBytes).0 == s
    ensures !s.closed ==> DiskStep(s, GetBytes).1 == MemoryStep(s, GetBytes).1 == Content(s.data)
  {
  }

  /** The reads after a rewind deliver the content in order: a full read gives all of it. */
  lemma RewindAndReadAll(s: Storage)
    requires !s.closed && s.data != []
    ensures var rewound := DiskStep(s, Seek(0, FromStart)).0;
            DiskStep(rewound, Read(|s.data|)) == (s.(pos := |s.data|), Got(s.data))
  {
    assert s.data[0..|s.data|] == s.data;
  }

  /** A read into a buffer delivers the bytes from the cursor on, as many as fit or are left, and moves
      the cursor past them, on both kinds. */
  lemma ReadDelivers(s: Storage, size: nat)
    requires !s.closed && s.pos < |s.data|
    ensures var n := Min(size, |s.data| - s.pos);
            MemoryStep(s, Read(size)) == DiskStep(s, Read(size))
            == (s.(pos := s.pos + n), Got(s.data[s.pos..s.pos + n]))
  {
    var n := Min(size, |s.data| - s.pos);
    assert s.data[s.pos..s.pos] == [];
    assert Ahead(s.data, s.pos, size) == s.data[s.pos..s.pos + n];
  }

  /** At or past the end there is nothing to read, and the cursor stays. */
  lemma ReadAtEnd(s: Storage, size: nat)
    requires !s.closed && s.pos >= |s.data|
    ensures MemoryStep(s, Read(size)) == (s, Eof)
    ensures DiskStep(s, Read(size)) == (s, if size == 0 then Got([]) else Eof)
  {
  }

  /** What a sequence of reads delivers. */
  function Delivered(replies: seq<Reply>): seq<Byte> {
    if replies == [] then []
    else
      var last := replies[|replies| - 1];
      Delivered(replies[..|replies| - 1]) + if last.Got? then last.bytes else []
  }

  /** Successive reads of any sizes deliver the content from the cursor on without gap or repetition, and
      the whole rest once they ask for enough, on both kinds. */
  lemma {:induction false} ReadsDeliverInOrder(s: Storage, sizes: seq<nat>)
    requires !s.closed && s.pos <= |s.data|
    ensures var n := Min(Total(sizes), |s.data| - s.pos);
            && RunMemory(s, Reads(sizes)).state == RunDisk(s, Reads(sizes)).state == s.(pos := s.pos + n)
            && Delivered(RunMemory(s, Reads(sizes)).replies) == s.data[s.pos..s.pos + n]
            && Delivered(RunDisk(s, Reads(sizes)).replies) == s.data[s.pos..s.pos + n]
  {
    hide MemoryStep, DiskStep, Total, Reads;
    ReadsUnfold(sizes);
    if sizes == [] {
      assert s.data[s.pos..s.pos] == [];
    } else {
      var init, size := sizes[..|sizes| - 1], sizes[|sizes| - 1];
      ReadsDeliverInOrder(s, init);
      var before := s.pos + Min(Total(init), |s.data| - s.pos);
      NextReadContinues(s, before, size);
      RunsGoOn(s, Reads(init), Read(size));
    }
  }

  lemma ReadsUnfold(sizes: seq<nat>)
    ensures sizes == [] ==> Reads(sizes) == [] && Total(sizes) == 0
    ensures sizes != [] ==>
              var init, size := sizes[..|sizes| - 1], sizes[|sizes| - 1];
              Reads(sizes) == Reads(init) + [Read(size)] && Total(sizes) == Total(init) + size
  {
  }

  /** One more operation adds its reply to what has been delivered. */
  lemma RunsGoOn(s: Storage, ops: seq<Op>, op: Op)
    ensures var m, m' := RunMemory(s, ops), RunMemory(s, ops + [op]);
            var (after, r) := MemoryStep(m.state, op);
            m'.state == after && Delivered(m'.replies) == Delivered(m.replies) + if r.Got? then r.bytes else []
    ensures var d, d' := RunDisk(s, ops), RunDisk(s, ops + [op]);
            var (after, r) := DiskStep(d.state, op);
            d'.state == after && Delivered(d'.replies) == Delivered(d.replies) + if r.Got? then r.bytes else []
  {
    hide MemoryStep, DiskStep;
    assert (ops + [op])[..|ops|] == ops;
    var m, d := RunMemory(s, ops + [op]).replies, RunDisk(s, ops + [op]).replies;
    assert m[..|ops|] == RunMemory(s, ops).replies && d[..|ops|] == RunDisk(s, ops).replies;
  }

  function Reads(sizes: seq<nat>): (ops: seq<Op>)
    ensures |ops| == |sizes|
  {
    seq(|sizes|, i requires 0 <= i < |sizes| => Read(sizes[i]))
  }

  function Total(sizes: seq<nat>): nat {
    if sizes == [] then 0 else Total(sizes[..|sizes| - 1]) + sizes[|sizes| - 1]
  }

  lemma NextReadContinues(s: Storage, pos: nat, size: nat)
    requires !s.closed && s.pos <= pos <= |s.data|
    ensures var n := Min(size, |s.data| - pos);
            var (m, mr) := MemoryStep(s.(pos := pos), Read(size));
            var (d, dr) := DiskStep(s.(pos := pos), Read(size));
            && m == d == s.(pos := pos + n)
            && s.data[s.pos..pos] + (if mr.Got? then mr.bytes else []) == s.data[s.pos..pos + n]
            && s.data[s.pos..pos] + (if dr.Got? then dr.bytes else []) == s.data[s.pos..pos + n]
  {
  }

  /** Seeking goes to the offset counted from the start, the cursor or the end, past the end too, and
      refuses to go before the start; on both kinds. */
  lemma SeekGoesTo(s: Storage, offset: int)
    requires !s.closed
    ensures MemoryStep(s, Seek(offset, FromStart)) == DiskStep(s, Seek(offset, FromStart))
            == if offset < 0 then (s, NegativePosition) else (s.(pos := offset), At(offset))
    ensures var there := s.pos + offset;
            MemoryStep(s, Seek(offset, FromCurrent)) == DiskStep(s, Seek(offset, FromCurrent))
            == if there < 0 then (s, NegativePosition) else (s.(pos := there), At(there))
    ensures var there := |s.data| + offset;
            MemoryStep(s, Seek(offset, FromEnd)) == DiskStep(s, Seek(offset, FromEnd))
            == if there < 0 then (s, NegativePosition) else (s.(pos := there), At(there))
  {
  }

  /** A closed storage answers nothing but further Closes, which succeed. */
  lemma ClosedAnswersNothing(s: Storage, op: Op)
    ensures MemoryStep(s, Close) == DiskStep(s, Close) == (s.(closed := true), Ok)
    ensures s.closed && !op.Close? ==> MemoryStep(s, op) == DiskStep(s, op) == (s, StorageClosed)
  {
  }

  // ----- Choosing a storage ----------------------------------------------------------------

  datatype Config = Config(enabled: bool, thresholdMB: int, maxSizeMB: int)

  const MEGABYTE := 0x10_0000

  /** The environment of one creation: configuration, disk bytes in use, and whether the disk fails. */
  datatype Env = Env(config: Config, diskUsage: int, diskFails: bool)

  predicate IsDiskCacheAvailable(env: Env, size: int) {
    env.config.enabled && env.diskUsage + size <= env.config.maxSizeMB * MEGABYTE
  }

  datatype Created = InMemory(data: seq<Byte>) | OnDisk(data: seq<Byte>) | TooLarge | Failed

  function CreateBodyStorage(env: Env, data: seq<Byte>): (r: Created)
    ensures r.InMemory? || r.OnDisk?
    ensures r.data == data
    ensures r.OnDisk? <==> && env.config.enabled && !env.diskFails
                           && env.config.thresholdMB * 1048576 <= |data|
                           && env.diskUsage + |data| <= env.config.maxSizeMB * 1048576
  {
    if && env.config.enabled && |data| >= env.config.thresholdMB * MEGABYTE
       && IsDiskCacheAvailable(env, |data|) && !env.diskFails
    then OnDisk(data)
    else InMemory(data)
  }

  /** What `io.LimitReader(reader, limit)` delivers. */
  function Limited(stream: seq<Byte>, limit: int): seq<Byte> {
    if limit <= 0 then [] else if limit < |stream| then stream[..limit] else stream
  }

  /** The body goes straight to disk: its declared length is known, reaches the threshold and fits. */
  predicate Streams(env: Env, contentLength: int) {
    && env.config.enabled && contentLength > 0
    && env.config.thresholdMB * 1048576 <= contentLength
    && env.diskUsage + contentLength <= env.config.maxSizeMB * 1048576
  }

  /** Both paths read at most one byte more than allowed, so an overlong body is noticed. */
  method CreateBodyStorageFromReader(env: Env, stream: seq<Byte>, contentLength: int, maxBytes: int)
    returns (r: Created)
    ensures r.Failed? <==> Streams(env, contentLength) && env.diskFails
    ensures r.TooLarge? <==> !r.Failed? && |stream| > maxBytes
    ensures r.OnDisk? <==> !r.Failed? && |stream| <= maxBytes
                           && (Streams(env, contentLength) || CreateBodyStorage(env, stream).OnDisk?)
    ensures r.InMemory? || r.OnDisk? ==> |stream| <= maxBytes && r.data == stream
    ensures r.OnDisk? && |stream| <= contentLength ==> env.diskUsage + |stream| <= env.config.maxSizeMB * 1048576
  {
    if env.config.enabled && contentLength > 0 && contentLength >= env.config.thresholdMB * MEGABYTE
       && IsDiskCacheAvailable(env, contentLength)
    {
      if env.diskFails { return Failed; }
      var written := Limited(stream, maxBytes + 1);
      if |written| > maxBytes { return TooLarge; }
      return OnDisk(written);
    }
    var data := Limited(stream, maxBytes + 1);
    if |data| > maxBytes { return TooLarge; }
    r := CreateBodyStorage(env, data);
  }

  // ----- Building the storage -------------------------------------------------------------------

  datatype Body = MemoryBody(memory: MemoryStorage) | DiskBody(disk: DiskStorage)

  /** The body is a new open storage of the kind chosen, holds the data and is the one thing counted. */
  twostate predicate Built(r: Created, new body: Body, usage: Usage)
    requires r.InMemory? || r.OnDisk?
    reads if body.MemoryBody? then {body.memory as object, usage} else {body.disk as object, body.disk.file, usage}
  {
    match body
    case MemoryBody(m) =>
      && r.InMemory? && fresh(m) && m.State() == Storage(r.data, 0, false)
      && usage.activeMemoryBuffers == old(usage.activeMemoryBuffers) + 1
      && usage.memoryBytes == old(usage.memoryBytes) + |r.data|
      && usage.activeDiskFiles == old(usage.activeDiskFiles) && usage.diskBytes == old(usage.diskBytes)
    case DiskBody(d) =>
      && r.OnDisk? && fresh(d) && fresh(d.file) && d.Valid() && d.State() == Storage(r.data, 0, false)
      && usage.activeDiskFiles == old(usage.activeDiskFiles) + 1
      && usage.diskBytes == old(usage.diskBytes) + |r.data|
      && usage.activeMemoryBuffers == old(usage.activeMemoryBuffers) && usage.memoryBytes == old(usage.memoryBytes)
  }

  method Build(r: Created, usage: Usage) returns (body: Body)
    requires r.InMemory? || r.OnDisk?
    modifies usage
    ensures Built(r, body, usage)
  {
    if r.OnDisk? {
      var d := new DiskStorage(r.data, usage);
      body := DiskBody(d);
    } else {
      var m := new MemoryStorage(r.data, usage);
      body := MemoryBody(m);
    }
  }

  /** `CreateBodyStorage` with its effect: the choice is made on the disk bytes counted so far. */
  method NewBodyStorage(config: Config, diskFails: bool, data: seq<Byte>, usage: Usage) returns (body: Body)
    modifies usage
    ensures Built(CreateBodyStorage(Env(config, old(usage.diskBytes), diskFails), data), body, usage)
  {
    body := Build(CreateBodyStorage(Env(config, usage.diskBytes, diskFails), data), usage);
  }

  /** `CreateBodyStorageFromReader` with its effect: a refused or failed body counts nothing. */
  method NewBodyStorageFromReader(config: Config, diskFails: bool, stream: seq<Byte>, contentLength: int, maxBytes: int,
                                  usage: Usage)
    returns (r: Created, bodies: seq<Body>)
    modifies usage
    ensures r.InMemory? || r.OnDisk? ==> |bodies| == 1 && Built(r, bodies[0], usage) && r.data == stream
    ensures r.TooLarge? || r.Failed? ==> bodies == [] && unchanged(usage)
    ensures !diskFails ==> (bodies != [] <==> |stream| <= maxBytes)
  {
    r := CreateBodyStorageFromReader(Env(config, usage.diskBytes, diskFails), stream, contentLength, maxBytes);
    bodies := [];
    if r.InMemory? || r.OnDisk? {
      var body := Build(r, usage);
      bodies := [body];
    }
  }
}
