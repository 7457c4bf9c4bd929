/** The page scanner of `getOpusDuration` in common/audio.go. It reads 27-byte headers of the page
    layout of section 6 of RFC 3533, moves one byte on where no capture pattern starts, skips the
    segment table and body where one does, and keeps the greatest granule position. */
module OggScan {
  import opened Bytes
  import opened Numbers

  const CAPTURE: seq<Byte> := [79, 103, 103, 83]
  const HEADER_SIZE := 27
  const TWO_63 := 0x8000_0000_0000_0000
  const TWO_64 := 0x1_0000_0000_0000_0000

  // ----- Little-endian 64-bit integers -------------------------------------------

  function Pow256(n: nat): (p: nat)
    ensures p > 0
  {
    if n == 0 then 1 else 256 * Pow256(n - 1)
  }

  /** `binary.LittleEndian.Uint64` and its narrower kin. */
  function LeValue(bytes: seq<Byte>): (v: nat) {
    if bytes == [] then 0 else bytes[0] + 256 * LeValue(bytes[1..])
  }

  lemma {:induction false} LeValueBound(bytes: seq<Byte>)
    ensures LeValue(bytes) < Pow256(|bytes|)
  {
    if bytes != [] { LeValueBound(bytes[1..]); }
  }

  function LeBytes(v: nat, n: nat): (bytes: seq<Byte>)
    ensures |bytes| == n
  {
    if n == 0 then [] else [v % 256] + LeBytes(v / 256, n - 1)
  }

  lemma {:induction false} LeValueOfBytes(v: nat, n: nat)
    requires v < Pow256(n)
    ensures LeValue(LeBytes(v, n)) == v
  {
    if n > 0 {
      LeValueOfBytes(v / 256, n - 1);
      assert LeBytes(v, n)[1..] == LeBytes(v / 256, n - 1);
    }
  }

  lemma {:induction false} LeBytesOfValue(bytes: seq<Byte>)
    ensures LeBytes(LeValue(bytes), |bytes|) == bytes
  {
    if bytes != [] {
      LeBytesOfValue(bytes[1..]);
      assert (bytes[0] + 256 * LeValue(bytes[1..])) / 256 == LeValue(bytes[1..]);
    }
  }

  lemma EightBytes()
    ensures Pow256(8) == TWO_64
  {
    assert Pow256(2) == 0x1_0000;
    assert Pow256(4) == 0x1_0000_0000;
    assert Pow256(6) == 0x1_0000_0000_0000;
  }

  /** The conversion from `uint64` to `int64`. */
  function Signed(v: nat): int {
    if v >= TWO_63 then v - TWO_64 else v
  }

  function Unsigned(g: int): (v: nat)
    requires -TWO_63 <= g < TWO_63
    ensures v < TWO_64 && Signed(v) == g
  {
    if g < 0 then g + TWO_64 else g
  }

  // ----- The scanner ---------------------------------------------------------------

  function Sum(bytes: seq<Byte>): nat {
    if bytes == [] then 0 else bytes[0] + Sum(bytes[1..])
  }

  /** The sum over a list, pinned by its parts. */
  lemma {:induction false} SumOfParts(a: seq<Byte>, b: seq<Byte>, x: Byte)
    ensures Sum([]) == 0 && Sum([x]) == x && Sum(a + b) == Sum(a) + Sum(b)
  {
    if a == [] {
      assert a + b == b;
    } else {
      SumOfParts(a[1..], b, x);
      assert (a + b)[1..] == a[1..] + b;
    }
  }

  predicate StartsPage(s: seq<Byte>) {
    |s| >= HEADER_SIZE && s[..4] == CAPTURE
  }

  function GranuleAt(s: seq<Byte>): int
    requires |s| >= HEADER_SIZE
  {
    Signed(LeValue(s[6..14]))
  }

  /** The header and segment table at the front of s are complete. */
  predicate TableComplete(s: seq<Byte>)
    requires |s| >= HEADER_SIZE
  {
    HEADER_SIZE + s[26] <= |s|
  }

  function PageLength(s: seq<Byte>): (n: nat)
    requires |s| >= HEADER_SIZE && TableComplete(s)
    ensures n >= HEADER_SIZE
  {
    HEADER_SIZE + s[26] + Sum(s[HEADER_SIZE..HEADER_SIZE + s[26]])
  }

  /** The greatest granule position the scanner sees in s, or 0. */
  function Scan(s: seq<Byte>): (granule: int)
    ensures granule >= 0
    decreases |s|
  {
    if |s| < HEADER_SIZE then 0
    else if !StartsPage(s) then Scan(s[1..])
    else if !TableComplete(s) then Max(0, GranuleAt(s))
    else if PageLength(s) > |s| then Max(0, GranuleAt(s))
    else Max(GranuleAt(s), Scan(s[PageLength(s)..]))
  }

  /** The bytes one `Read` call with a buffer of the given size returns at an offset. */
  function ReadAt(data: seq<Byte>, offset: nat, size: nat): seq<Byte> {
    if offset >= |data| then []
    else if offset + size > |data| then data[offset..]
    else data[offset..offset + size]
  }

  function SuffixAt(data: seq<Byte>, offset: nat): seq<Byte> {
    if offset >= |data| then [] else data[offset..]
  }

  /** Reads at an offset see the front of the remaining bytes. */
  lemma ReadsSeeSuffix(data: seq<Byte>, offset: nat)
    requires offset + HEADER_SIZE <= |data|
    ensures var s, buf := SuffixAt(data, offset), ReadAt(data, offset, HEADER_SIZE);
            && s == data[offset..] && buf == s[..HEADER_SIZE]
            && buf[0..4] == s[..4] && buf[6..14] == s[6..14] && SuffixAt(data, offset + 1) == s[1..]
  {
    var s := data[offset..];
    assert s[..HEADER_SIZE][0..4] == s[..4] && s[..HEADER_SIZE][6..14] == s[6..14];
  }

  lemma ReadsSeeTable(data: seq<Byte>, offset: nat)
    requires offset + HEADER_SIZE <= |data|
    ensures var s := data[offset..];
            var table := ReadAt(data, offset + HEADER_SIZE, s[26]);
            && (TableComplete(s) <==> |table| == s[26])
            && |table| <= s[26]
            && (TableComplete(s) ==>
                  && table == s[HEADER_SIZE..HEADER_SIZE + s[26]]
                  && SuffixAt(data, offset + PageLength(s)) == if PageLength(s) <= |s| then s[PageLength(s)..] else [])
  {
    hide Sum;
  }

  /** What the scan of the bytes from an offset on is, in terms of the reads made there. */
  lemma ScanByReads(data: seq<Byte>, offset: nat)
    ensures var buf := ReadAt(data, offset, HEADER_SIZE);
            var scan := Scan(SuffixAt(data, offset));
            if |buf| < HEADER_SIZE then scan == 0
            else if buf[0..4] != CAPTURE then scan == Scan(SuffixAt(data, offset + 1))
            else
              var table := ReadAt(data, offset + HEADER_SIZE, buf[26]);
              var granule := Signed(LeValue(buf[6..14]));
              if |table| < buf[26] then scan == Max(0, granule)
              else scan == Max(granule, Scan(SuffixAt(data, offset + HEADER_SIZE + buf[26] + Sum(table))))
  {
    hide LeValue, Signed, Sum, ReadAt;
    if offset + HEADER_SIZE <= |data| {
      ReadsSeeSuffix(data, offset);
      ReadsSeeTable(data, offset);
    } else {
      assert |ReadAt(data, offset, HEADER_SIZE)| < HEADER_SIZE by { ShortRead(data, offset); }
    }
  }

  lemma ShortRead(data: seq<Byte>, offset: nat)
    requires offset + HEADER_SIZE > |data|
    ensures |ReadAt(data, offset, HEADER_SIZE)| < HEADER_SIZE
  {
  }

  /** The size of a page body: the sum of its segment sizes. */
  method BodySize(segmentTable: seq<Byte>) returns (pageSize: nat)
    ensures pageSize == Sum(segmentTable)
  {
    pageSize := 0;
    for i := 0 to |segmentTable|
      invariant pageSize + Sum(segmentTable[i..]) == Sum(segmentTable)
    {
      pageSize := pageSize + segmentTable[i];
      assert segmentTable[i..][1..] == segmentTable[i + 1..];
    }
  }

  /** One turn of the loop: read a header, resynchronise or skip a page, keep the maximum. The turn
      either ends the loop or moves the offset on. */
  method Turn(data: seq<Byte>, offset: nat, total: int) returns (offset': nat, total': int, more: bool)
    requires total >= 0
    ensures more ==> offset < |data| && offset < offset' && total' >= 0
    ensures Max(total, Scan(SuffixAt(data, offset))) ==
            if more then Max(total', Scan(SuffixAt(data, offset'))) else total'
  {
    hide Scan, LeValue, Sum;
    ScanByReads(data, offset);
    offset', total', more := offset, total, false;
    var buf := ReadAt(data, offset, HEADER_SIZE);
    if |buf| < HEADER_SIZE {
      return;
    }
    offset' := offset' + HEADER_SIZE;
    if buf[0..4] != CAPTURE {
      offset' := offset' - 26;
      return offset', total', true;
    }
    var granulePos := Signed(LeValue(buf[6..14]));
    if granulePos > total' {
      total' := granulePos;
    }
    var numSegments := buf[26];
    var segmentTable := ReadAt(data, offset', numSegments);
    if |segmentTable| < numSegments {
      return;
    }
    var pageSize := BodySize(segmentTable);
    return offset' + numSegments + pageSize, total', true;
  }

  /** The loop of the source, from offset 0 and total 0. */
  method LastGranulePosition(data: seq<Byte>) returns (total: int)
    ensures total == Scan(data)
  {
    total := 0;
    var offset: nat, more := 0, true;
    while more
      invariant total >= 0
      invariant if more then Max(total, Scan(SuffixAt(data, offset))) == Scan(data) else total == Scan(data)
      decreases more, if offset >= |data| then 0 else |data| - offset
    {
      offset, total, more := Turn(data, offset, total);
    }
  }

  method GetOpusDuration(data: seq<Byte>) returns (duration: real)
    ensures duration == Scan(data) as real / 48000.0
  {
    var total := LastGranulePosition(data);
    duration := total as real / 48000.0;
  }

  // ----- Pages ---------------------------------------------------------------------

  datatype Page = Page(version: Byte, flags: Byte, granule: int,
                       serial: seq<Byte>, number: seq<Byte>, checksum: seq<Byte>,
                       segments: seq<Byte>, body: seq<Byte>)

  /** A page as RFC 3533 lays it out; the body may hold any bytes, capture patterns included. */
  predicate WellFormed(p: Page) {
    && -TWO_63 <= p.granule < TWO_63
    && |p.serial| == |p.number| == |p.checksum| == 4
    && |p.segments| < 256
    && |p.body| == Sum(p.segments)
  }

  function Header(p: Page): (h: seq<Byte>)
    requires WellFormed(p)
    ensures |h| == HEADER_SIZE
  {
    CAPTURE + [p.version, p.flags] + LeBytes(Unsigned(p.granule), 8)
    + p.serial + p.number + p.checksum + [|p.segments|]
  }

  function Encode(p: Page): (s: seq<Byte>)
    requires WellFormed(p)
  {
    Header(p) + p.segments + p.body
  }

  lemma HeaderFields(p: Page)
    requires WellFormed(p)
    ensures Header(p)[..4] == CAPTURE
    ensures Header(p)[6..14] == LeBytes(Unsigned(p.granule), 8)
    ensures Header(p)[26] == |p.segments|
  {
  }

  /** The layout of section 6 of RFC 3533, byte by byte: "OggS", version, flags, the granule position in
      two's complement, least significant byte first, serial, number, checksum, the number of segments,
      their sizes, the body. */
  lemma PageLayout(p: Page)
    requires WellFormed(p)
    ensures var s, n := Encode(p), |p.segments|;
            && |s| == 27 + n + |p.body|
            && s[0] == 79 && s[1] == 103 && s[2] == 103 && s[3] == 83 && s[4] == p.version && s[5] == p.flags
            && At(s, 6) + 0x100 * At(s, 7) + 0x1_0000 * At(s, 8) + 0x100_0000 * At(s, 9)
                 + 0x1_0000_0000 * (At(s, 10) + 0x100 * At(s, 11) + 0x1_0000 * At(s, 12) + 0x100_0000 * At(s, 13))
               == (if p.granule < 0 then p.granule + 0x1_0000_0000_0000_0000 else p.granule)
            && s[14..18] == p.serial && s[18..22] == p.number && s[22..26] == p.checksum
            && s[26] == n && s[27..27 + n] == p.segments && s[27 + n..] == p.body
  {
    var v := Unsigned(p.granule);
    var b := LeBytes(v, 8);
    EightBytes();
    LeValueOfBytes(v, 8);
    EightByteValue(b);
    HeaderLayout(p);
    var h, s := Header(p), Encode(p);
    assert s[..27] == h;
    assert s[14..18] == h[14..18] && s[18..22] == h[18..22] && s[22..26] == h[22..26];
    forall k | 0 <= k < 8
      ensures At(s, 6 + k) == At(b, k)
    {
      assert h[6..14][k] == h[6 + k];
    }
  }

  function At(s: seq<Byte>, k: nat): int
    requires k < |s|
  {
    s[k]
  }

  lemma EightByteValue(b: seq<Byte>)
    requires |b| == 8
    ensures LeValue(b) == At(b, 0) + 0x100 * At(b, 1) + 0x1_0000 * At(b, 2) + 0x100_0000 * At(b, 3)
              + 0x1_0000_0000 * (At(b, 4) + 0x100 * At(b, 5) + 0x1_0000 * At(b, 6) + 0x100_0000 * At(b, 7))
  {
    assert b[8..] == [];
    FourByteValue(b, 4);
    FourByteValue(b, 0);
    assert b[0..] == b;
  }

  lemma FourByteValue(b: seq<Byte>, i: nat)
    requires i + 4 <= |b|
    ensures LeValue(b[i..]) == At(b, i) + 0x100 * At(b, i + 1) + 0x1_0000 * At(b, i + 2) + 0x100_0000 * At(b, i + 3)
                               + 0x1_0000_0000 * LeValue(b[i + 4..])
  {
    OneByteValue(b, i);
    OneByteValue(b, i + 1);
    OneByteValue(b, i + 2);
    OneByteValue(b, i + 3);
  }

  lemma OneByteValue(b: seq<Byte>, i: nat)
    requires i < |b|
    ensures LeValue(b[i..]) == At(b, i) + 256 * LeValue(b[i + 1..])
  {
    assert b[i..][1..] == b[i + 1..];
  }

  lemma HeaderLayout(p: Page)
    requires WellFormed(p)
    ensures var h := Header(p);
            && h[0] == 79 && h[1] == 103 && h[2] == 103 && h[3] == 83 && h[4] == p.version && h[5] == p.flags
            && h[6..14] == LeBytes(Unsigned(p.granule), 8)
            && h[14..18] == p.serial && h[18..22] == p.number && h[22..26] == p.checksum && h[26] == |p.segments|
  {
  }

  /** An encoded page at the front is recognised, measured and read exactly. */
  lemma EncodedPageAtFront(p: Page, rest: seq<Byte>)
    requires WellFormed(p)
    ensures var s := Encode(p) + rest;
            && StartsPage(s) && TableComplete(s)
            && PageLength(s) == |Encode(p)| && s[PageLength(s)..] == rest
            && GranuleAt(s) == p.granule
  {
    hide Header, LeBytes, LeValue, Sum, Pow256;
    var s := Encode(p) + rest;
    HeaderFields(p);
    assert s[..HEADER_SIZE] == Header(p);
    assert s[..4] == Header(p)[..4];
    assert s[6..14] == Header(p)[6..14];
    assert s[26] == Header(p)[26];
    EightBytes();
    LeValueOfBytes(Unsigned(p.granule), 8);
    assert s[HEADER_SIZE..HEADER_SIZE + s[26]] == p.segments;
  }

  function Decode(s: seq<Byte>): (p: Page)
    requires StartsPage(s) && TableComplete(s) && PageLength(s) <= |s|
  {
    var table := HEADER_SIZE + s[26];
    Page(s[4], s[5], GranuleAt(s), s[14..18], s[18..22], s[22..26], s[HEADER_SIZE..table], s[table..PageLength(s)])
  }

  lemma DecodedHeader(s: seq<Byte>)
    requires StartsPage(s) && TableComplete(s) && PageLength(s) <= |s|
    ensures WellFormed(Decode(s)) && Header(Decode(s)) == s[..HEADER_SIZE]
  {
    EightBytes();
    LeValueBound(s[6..14]);
    LeBytesOfValue(s[6..14]);
    var h := s[..HEADER_SIZE];
    assert h == h[..4] + [h[4], h[5]] + h[6..14] + h[14..18] + h[18..22] + h[22..26] + [h[26]];
    assert Unsigned(GranuleAt(s)) == LeValue(s[6..14]);
  }

  /** Whatever the scanner skips as a page is the encoding of a well-formed page. */
  lemma DecodeEncode(s: seq<Byte>)
    requires StartsPage(s) && TableComplete(s) && PageLength(s) <= |s|
    ensures WellFormed(Decode(s)) && Encode(Decode(s)) == s[..PageLength(s)]
  {
    DecodedHeader(s);
    var table := HEADER_SIZE + s[26];
    assert s[..PageLength(s)] == s[..HEADER_SIZE] + s[HEADER_SIZE..table] + s[table..PageLength(s)];
  }

  // ----- Streams of pages and junk -----------------------------------------------------

  datatype Chunk = Junk(byte: Byte) | Paged(page: Page)

  function Flatten(chunks: seq<Chunk>): seq<Byte>
    requires forall c :: c in chunks && c.Paged? ==> WellFormed(c.page)
  {
    if chunks == [] then []
    else (match chunks[0] case Junk(b) => [b] case Paged(p) => Encode(p)) + Flatten(chunks[1..])
  }

  ghost predicate AllWellFormed(chunks: seq<Chunk>) {
    forall c :: c in chunks && c.Paged? ==> WellFormed(c.page)
  }

  /** No capture pattern starts at a junk byte of `chunks` followed by `tail`. */
  ghost predicate Placed(chunks: seq<Chunk>, tail: seq<Byte>)
    requires AllWellFormed(chunks)
  {
    forall i :: 0 <= i < |chunks| && chunks[i].Junk? ==> !StartsPage(Flatten(chunks[i..]) + tail)
  }

  function MaxGranule(chunks: seq<Chunk>): (g: int)
    ensures g >= 0
  {
    if chunks == [] then 0
    else match chunks[0]
         case Junk(_) => MaxGranule(chunks[1..])
         case Paged(p) => Max(p.granule, MaxGranule(chunks[1..]))
  }

  lemma PlacedTail(chunks: seq<Chunk>, tail: seq<Byte>)
    requires AllWellFormed(chunks) && Placed(chunks, tail) && chunks != []
    ensures Placed(chunks[1..], tail)
  {
    forall i | 0 <= i < |chunks[1..]| && chunks[1..][i].Junk?
      ensures !StartsPage(Flatten(chunks[1..][i..]) + tail)
    {
      assert chunks[1..][i..] == chunks[i + 1..];
      assert chunks[i + 1].Junk?;
    }
  }

  lemma {:induction false} ShortChunksHaveNoPage(chunks: seq<Chunk>)
    requires AllWellFormed(chunks) && |Flatten(chunks)| < HEADER_SIZE
    ensures MaxGranule(chunks) == 0
  {
    if chunks != [] { ShortChunksHaveNoPage(chunks[1..]); }
  }

  lemma ScanOfPage(p: Page, rest: seq<Byte>)
    requires WellFormed(p)
    ensures Scan(Encode(p) + rest) == Max(p.granule, Scan(rest))
  {
    EncodedPageAtFront(p, rest);
  }

  /** SOUNDNESS. On any stream of well-formed pages and misplaced bytes the scan is the maximum of the
      pages' granule positions and of what it finds in the tail, whatever the page bodies hold. */
  lemma {:induction false} ScanOfChunks(chunks: seq<Chunk>, tail: seq<Byte>)
    requires AllWellFormed(chunks) && Placed(chunks, tail)
    ensures Scan(Flatten(chunks) + tail) == Max(MaxGranule(chunks), Scan(tail))
  {
    if chunks == [] {
      assert Flatten(chunks) + tail == tail;
    } else {
      var rest := Flatten(chunks[1..]) + tail;
      PlacedTail(chunks, tail);
      ScanOfChunks(chunks[1..], tail);
      match chunks[0] {
        case Junk(b) =>
          assert Flatten(chunks) + tail == [b] + rest;
          assert !StartsPage([b] + rest) by { assert chunks[0..] == chunks; }
          if |[b] + rest| < HEADER_SIZE {
            ShortChunksHaveNoPage(chunks);
          } else {
            assert ([b] + rest)[1..] == rest;
          }
        case Paged(p) =>
          assert Flatten(chunks) + tail == Encode(p) + rest;
          ScanOfPage(p, rest);
      }
    }
  }

  /** On a concatenation of well-formed pages the scan is the greatest granule position, or 0. */
  lemma ScanOfPages(pages: seq<Page>)
    requires forall p :: p in pages ==> WellFormed(p)
    ensures AllWellFormed(Chunks(pages))
    ensures Scan(Flatten(Chunks(pages))) == MaxGranule(Chunks(pages))
  {
    ScanOfChunks(Chunks(pages), []);
    assert Flatten(Chunks(pages)) + [] == Flatten(Chunks(pages));
  }

  function Chunks(pages: seq<Page>): (chunks: seq<Chunk>)
    ensures |chunks| == |pages| && forall i :: 0 <= i < |pages| ==> chunks[i] == Paged(pages[i])
  {
    seq(|pages|, i requires 0 <= i < |pages| => Paged(pages[i]))
  }

  /** The maximum is attained, and nothing exceeds it. */
  lemma {:induction false} MaxGranuleIsMaximum(chunks: seq<Chunk>)
    ensures forall i :: 0 <= i < |chunks| && chunks[i].Paged? ==> chunks[i].page.granule <= MaxGranule(chunks)
    ensures MaxGranule(chunks) == 0
         || exists i :: 0 <= i < |chunks| && chunks[i].Paged? && chunks[i].page.granule == MaxGranule(chunks)
  {
    if chunks != [] {
      MaxGranuleIsMaximum(chunks[1..]);
      assert forall i :: 0 <= i < |chunks[1..]| ==> chunks[1..][i] == chunks[i + 1];
    }
  }

  /** Leading bytes at which no capture pattern starts do not change the answer. */
  lemma {:induction false} JunkPrefixIsSkipped(junk: seq<Byte>, s: seq<Byte>)
    requires forall i :: 0 <= i < |junk| ==> !StartsPage((junk + s)[i..])
    ensures Scan(junk + s) == Scan(s)
  {
    if junk == [] {
      assert junk + s == s;
    } else {
      assert (junk + s)[0..] == junk + s;
      assert (junk + s)[1..] == junk[1..] + s;
      forall i | 0 <= i < |junk[1..]|
        ensures !StartsPage((junk[1..] + s)[i..])
      {
        assert (junk[1..] + s)[i..] == (junk + s)[i + 1..];
      }
      JunkPrefixIsSkipped(junk[1..], s);
      if |junk + s| < HEADER_SIZE {
        assert |s| < HEADER_SIZE;
      }
    }
  }

  // ----- Every input decomposes --------------------------------------------------------

  /** Where the scanner stops: too short for a header, or a page cut off by the end of the file. */
  predicate Stuck(tail: seq<Byte>) {
    || |tail| < HEADER_SIZE
    || (StartsPage(tail) && (!TableComplete(tail) || PageLength(tail) > |tail|))
  }

  function StuckGranule(tail: seq<Byte>): int
    requires Stuck(tail)
  {
    if |tail| < HEADER_SIZE then 0 else Max(0, GranuleAt(tail))
  }

  lemma PlacedCons(c: Chunk, chunks: seq<Chunk>, tail: seq<Byte>)
    requires AllWellFormed(chunks) && Placed(chunks, tail)
    requires c.Paged? ==> WellFormed(c.page)
    requires AllWellFormed([c] + chunks)
    requires c.Junk? ==> !StartsPage(Flatten([c] + chunks) + tail)
    ensures Placed([c] + chunks, tail)
  {
    var all := [c] + chunks;
    forall i | 0 <= i < |all| && all[i].Junk?
      ensures !StartsPage(Flatten(all[i..]) + tail)
    {
      if i == 0 {
        assert all[0..] == all;
      } else {
        assert all[i..] == chunks[i - 1..];
      }
    }
  }

  lemma FlattenCons(c: Chunk, chunks: seq<Chunk>)
    requires AllWellFormed(chunks) && (c.Paged? ==> WellFormed(c.page))
    ensures AllWellFormed([c] + chunks)
    ensures Flatten([c] + chunks) == (match c case Junk(b) => [b] case Paged(p) => Encode(p)) + Flatten(chunks)
  {
    assert ([c] + chunks)[1..] == chunks;
  }

  /** Every byte string is a stream of pages and junk followed by a tail the scanner cannot pass. */
  lemma {:induction false} Decompose(s: seq<Byte>) returns (chunks: seq<Chunk>, tail: seq<Byte>)
    ensures AllWellFormed(chunks) && Placed(chunks, tail) && Stuck(tail)
    ensures s == Flatten(chunks) + tail
    decreases |s|
  {
    hide Encode, Decode, PageLength, GranuleAt;
    if Stuck(s) {
      chunks, tail := [], s;
    } else {
      var front, rest;
      if StartsPage(s) {
        DecodeEncode(s);
        front, rest := Paged(Decode(s)), s[PageLength(s)..];
      } else {
        front, rest := Junk(s[0]), s[1..];
      }
      assert s == (match front case Junk(b) => [b] case Paged(p) => Encode(p)) + rest;
      var more;
      more, tail := Decompose(rest);
      FlattenCons(front, more);
      chunks := [front] + more;
      assert s == Flatten(chunks) + tail;
      PlacedCons(front, more, tail);
    }
  }

  /** COMPLETENESS. On every byte string the scan is the maximum over exactly the pages of that
      decomposition and the page the end of the file cuts off, if any. */
  lemma EveryInputDecomposes(s: seq<Byte>) returns (chunks: seq<Chunk>, tail: seq<Byte>)
    ensures AllWellFormed(chunks) && Placed(chunks, tail) && Stuck(tail)
    ensures s == Flatten(chunks) + tail
    ensures Scan(s) == Max(MaxGranule(chunks), StuckGranule(tail))
  {
    chunks, tail := Decompose(s);
    ScanOfChunks(chunks, tail);
    assert Scan(tail) == StuckGranule(tail);
  }
}
