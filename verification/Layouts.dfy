/** The formats byte by byte: what is where, by number. */
module Layouts {
  import opened Words
  import opened Crc
  import opened Cobs
  import opened Framing
  import opened Journal
  import opened Package

  /** Half-words and words in memory, low byte first. */
  function HalfAt(s: seq<u8>, at: nat): int
    requires at + 2 <= |s|
  {
    s[at] as int + 0x100 * s[at + 1] as int
  }

  function WordAt(s: seq<u8>, at: nat): int
    requires at + 4 <= |s|
  {
    HalfAt(s, at) + 0x1_0000 * HalfAt(s, at + 2)
  }

  lemma StoredWord(s: seq<u8>, at: nat, v: u32)
    requires at + 4 <= |s| && s[at..at + 4] == Le32(v)
    ensures WordAt(s, at) == v
  {
    LoadStored32(s, at, v);
  }

  lemma StoredHalf(s: seq<u8>, at: nat, v: u16)
    requires at + 2 <= |s| && s[at..at + 2] == Le16(v)
    ensures HalfAt(s, at) == v
  {
    LoadStored16(s, at, v);
  }

  // ----- byte stuffing ------------------------------------------------------------------------

  /** The three equations of the code, which determine it: a last block shorter than 254 bytes, a block
      that a zero ends, and a full block, which stands for no zero. */
  lemma StuffedBlocks(x: seq<u8>, y: seq<u8>)
    requires ZeroFree(x) && |x| <= 254
    ensures |x| < 254 ==> Encode(x) == [|x| + 1] + x
    ensures |x| < 254 ==> Encode(x + [0] + y) == [|x| + 1] + x + Encode(y)
    ensures |x| == 254 ==> Encode(x + y) == [255] + x + Encode(y)
  {
    hide Encode, Run;
    if |x| < 254 {
      RunLength(x, |x|);
      EncodeBlock(x);
      RunLength(x + [0] + y, |x|);
      EncodeBlock(x + [0] + y);
      assert (x + [0] + y)[..|x|] == x && (x + [0] + y)[|x| + 1..] == y;
    } else {
      RunLength(x + y, 254);
      EncodeBlock(x + y);
      assert (x + y)[..254] == x && (x + y)[254..] == y;
    }
  }

  lemma RunLength(s: seq<u8>, n: nat)
    requires n <= |s| && n <= 254 && (forall i | 0 <= i < n :: s[i] != 0)
    requires n < 254 ==> n == |s| || s[n] == 0
    ensures Run(s, FULL) == n
  {
    var k := Run(s, FULL);
  }

  // ----- frames -------------------------------------------------------------------------------

  /** Version 2, type, number, length, payload, and the CRC-16 of all that; stuffed and closed by a zero. */
  lemma FrameLayout(f: Frame)
    requires f.Encodable()
    ensures var p, n := f.Packet(), |f.payload|;
      && |p| == n + 8 && p[0] == 2 && p[1] == f.kind
      && HalfAt(p, 2) == f.sequence && HalfAt(p, 4) == n && p[6..6 + n] == f.payload
      && HalfAt(p, n + 6) == Crc16(p[..n + 6])
      && f.Wire() == Encode(p) + [0]
  {
    hide Crc16, Encode;
    var p, n := f.Packet(), |f.payload|;
    var h := f.Head();
    assert h[2..4] == Le16(f.sequence);
    assert h[4..6] == Le16(n) && h[6..] == f.payload;
    assert forall i | 0 <= i < |h| :: p[i] == h[i];
    assert p[2..4] == h[2..4] && p[4..6] == h[4..6];
    StoredHalf(p, 2, f.sequence);
    StoredHalf(p, 4, n);
    assert p[..n + 6] == h && p[n + 6..n + 8] == Le16(Crc16(h));
    StoredHalf(p, n + 6, Crc16(h));
  }

  // ----- packages -----------------------------------------------------------------------------

  /** The 32 bytes of a header. */
  lemma HeaderLayout(h: Header)
    ensures var b := h.Bytes();
      && |b| == 32 && WordAt(b, 0) == h.magic && HalfAt(b, 4) == h.formatVersion && HalfAt(b, 6) == h.headerSize
      && WordAt(b, 8) == h.targetId && WordAt(b, 12) == h.applicationAddress && WordAt(b, 16) == h.imageSize
      && WordAt(b, 20) == h.firmwareVersion && WordAt(b, 24) == h.imageCrc32 && WordAt(b, 28) == h.headerCrc32
  {
    hide LoadHeader;
    HeaderRoundTrip(h, []);
    assert h.Bytes() + [] == h.Bytes();
    LoadedFields(h.Bytes());
  }

  lemma LoadedFields(b: seq<u8>)
    requires |b| >= 32
    ensures var h := LoadHeader(b);
      && WordAt(b, 0) == h.magic && HalfAt(b, 4) == h.formatVersion && HalfAt(b, 6) == h.headerSize
      && WordAt(b, 8) == h.targetId && WordAt(b, 12) == h.applicationAddress && WordAt(b, 16) == h.imageSize
      && WordAt(b, 20) == h.firmwareVersion && WordAt(b, 24) == h.imageCrc32 && WordAt(b, 28) == h.headerCrc32
  {
  }

  /** What host and device both ask of a header: "FWPK", format 1, 32 bytes, its own CRC-32, load address
      0x8000 and a size that fits the slot. */
  ghost predicate GoodHeader(b: seq<u8>)
    requires |b| >= 32
  {
    && b[0..4] == [0x46, 0x57, 0x50, 0x4B] && HalfAt(b, 4) == 1 && HalfAt(b, 6) == 32
    && WordAt(b, 28) == Crc32(b[..28])
    && WordAt(b, 12) == 0x8000 && 0 < WordAt(b, 16) <= 0x1_7000
  }

  lemma Magic(b: seq<u8>)
    requires |b| >= 4
    ensures b[0..4] == [0x46, 0x57, 0x50, 0x4B] <==> WordAt(b, 0) == 0x4B50_5746
  {
  }

  /** Exactly which byte strings the host takes for a package. */
  lemma ParseExactly(p: seq<u8>)
    ensures Parse(p).Ok? <==>
      && |p| >= 32 && GoodHeader(p)
      && WordAt(p, 20) <= 0xFF_FFFF
      && |p| == 32 + WordAt(p, 16) && WordAt(p, 24) == Crc32(p[32..])
    ensures Parse(p).Ok? ==> Parse(p).value.image == p[32..]
  {
    hide Crc32, LoadHeader;
    if |p| >= 32 {
      LoadedFields(p);
      Magic(p);
    }
  }

  /** And exactly which headers the device accepts: for target CC1M and a whole number of words. */
  lemma DeviceAcceptsExactly(b: seq<u8>)
    requires |b| >= 32
    ensures IsValidPackageHeader(LoadHeader(b)) <==>
      GoodHeader(b) && WordAt(b, 8) == 0x4343_314D && WordAt(b, 16) % 4 == 0
  {
    hide Crc32, LoadHeader;
    LoadedFields(b);
    Magic(b);
    var h := LoadHeader(b);
    BytesOfLoaded(b);
    assert h.Prefix() == h.Bytes()[..28] == b[..28];
  }

  /** Padding: erased bytes up to the next whole word, and no more. */
  lemma PadLayout(image: seq<u8>)
    ensures var p := Pad(image);
      && |p| % 4 == 0 && |image| <= |p| < |image| + 4 && p[..|image|] == image
      && forall i | |image| <= i < |p| :: p[i] == 0xFF
  {
  }

  // ----- records ------------------------------------------------------------------------------

  /** The twelve words of a complete record, as they lie in flash; the second one holds two half-words. */
  lemma RecordLayout(sequence: u32, m: Metadata)
    ensures var s := Complete(Body(sequence, m));
      && s[0] == 0x424C_4D44 && s[1] == 0x30_0002 && s[2] == sequence
      && s[3] == m.state && s[4] == m.imageSize && s[5] == m.imageCrc32 && s[6] == m.firmwareVersion
      && s[7] == m.appRole && s[8] == m.unconfirmedBootCount && s[9] == m.bootAttemptId
      && s[10] == m.confirmedBootAttemptId && s[11] == Crc32(WordBytes(s[..11]))
      && Contents(s) == m
  {
    hide Crc32, WordBytes;
    var s := Complete(Body(sequence, m));
    assert s[..11] == Body(sequence, m);
  }

  lemma {:induction false} WordsAsBytes(ws: seq<u32>, i: nat)
    requires i < |ws|
    ensures |WordBytes(ws)| == 4 * |ws| && WordAt(WordBytes(ws), 4 * i) == ws[i]
  {
    hide Le32;
    WordsLength(ws);
    var b := WordBytes(ws);
    if i == 0 {
      assert b[0..4] == Le32(ws[0]);
      StoredWord(b, 0, ws[0]);
    } else {
      WordsAsBytes(ws[1..], i - 1);
      var c := WordBytes(ws[1..]);
      assert b == Le32(ws[0]) + c;
      assert b[4 * i] == c[4 * (i - 1)] && b[4 * i + 1] == c[4 * (i - 1) + 1];
      assert b[4 * i + 2] == c[4 * (i - 1) + 2] && b[4 * i + 3] == c[4 * (i - 1) + 3];
    }
  }

  lemma {:induction false} WordsLength(ws: seq<u32>)
    ensures |WordBytes(ws)| == 4 * |ws|
  {
    if ws != [] {
      WordsLength(ws[1..]);
    }
  }

  function NumberAfter(n: Option<Newest>): u32 {
    if n.None? then 1 else (n.value.slot[2] as int + 1) % 0x1_0000_0000
  }

  ghost predicate Placed(p: Pages, r: Pages, n: Option<Newest>, s: Slot, k: nat) {
    && (FirstErasedAt(p.primary, k) ==> r.primary == p.primary[k := s] && r.secondary == p.secondary)
    && (NoneErased(p.primary) && FirstErasedAt(p.secondary, k) ==>
          r.primary == p.primary && r.secondary == p.secondary[k := s])
    && (NoneErased(p.primary) && NoneErased(p.secondary) ==>
          if n.Some? && n.value.page == Secondary
          then AloneAtFront(r.primary, s) && r.secondary == p.secondary
          else r.primary == p.primary && AloneAtFront(r.secondary, s))
  }

  ghost predicate AloneAtFront(page: seq<Slot>, s: Slot) {
    |page| == 85 && page[0] == s && forall i | 1 <= i < 85 :: Erased(page[i])
  }

  /** Where an append goes: into the first erased slot, of the primary page if it has one, else of the
      secondary; else to the front of the page that does not hold the newest record, erased before.  Its
      number is one more than that of the newest record, or one. */
  lemma AppendPlace(p: Pages, m: Metadata, k: nat)
    requires p.WellFormed() && k < 85
    ensures Placed(p, Append(p, m, NoFault).0, FindNewest(p), Complete(Body(NumberAfter(FindNewest(p)), m)), k)
  {
    hide Complete, Body, FindNewest, Erased;
    if FirstErasedAt(p.primary, k) {
      ErasedFirst(p.primary, k);
    } else if FirstErasedAt(p.secondary, k) {
      ErasedFirst(p.secondary, k);
    }
    if NoneErased(p.primary) {
      NoErased(p.primary);
    }
    if NoneErased(p.secondary) {
      NoErased(p.secondary);
    }
  }

  ghost predicate NoneErased(page: seq<Slot>) { forall i | 0 <= i < |page| :: !Erased(page[i]) }

  ghost predicate FirstErasedAt(page: seq<Slot>, k: nat) {
    k < |page| && Erased(page[k]) && forall i | 0 <= i < k :: !Erased(page[i])
  }

  lemma {:induction false} ErasedFirst(page: seq<Slot>, k: nat)
    requires FirstErasedAt(page, k)
    ensures FirstErased(page) == k
    decreases |page|
  {
    hide Erased;
    if k > 0 {
      ErasedFirst(page[1..], k - 1);
    }
  }

  lemma {:induction false} NoErased(page: seq<Slot>)
    requires NoneErased(page)
    ensures FirstErased(page) == |page|
    decreases |page|
  {
    hide Erased;
    if page != [] {
      NoErased(page[1..]);
    }
  }
}
