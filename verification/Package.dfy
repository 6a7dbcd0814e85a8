/** Firmware packages: a 32-byte header with its own CRC-32 in front of the application image.
    `Build` and `Parse` are the host tool; `IsValidPackageHeader` is the device's check. */
module Package {
  import opened Words
  import opened Crc

  const PACKAGE_MAGIC: u32 := 0x4B50_5746
  const PACKAGE_FORMAT_VERSION: u16 := 1
  const FIRMWARE_TARGET_ID: u32 := 0x4343_314D
  const APPLICATION_FLASH_START: u32 := 0x8000
  const SLOT_SIZE := 0x1_7000
  const HEADER_SIZE := 32
  const MAX_VERSION := 0xFF_FFFF

  datatype Header = Header(
    magic: u32, formatVersion: u16, headerSize: u16, targetId: u32, applicationAddress: u32,
    imageSize: u32, firmwareVersion: u32, imageCrc32: u32, headerCrc32: u32)
  {
    /** The bytes the header CRC covers. */
    function Prefix(): (s: seq<u8>)
      ensures |s| == HEADER_SIZE - 4
    {
      Le32(magic) + Le16(formatVersion) + Le16(headerSize) + Le32(targetId)
      + Le32(applicationAddress) + Le32(imageSize) + Le32(firmwareVersion) + Le32(imageCrc32)
    }

    function Bytes(): (s: seq<u8>)
      ensures |s| == HEADER_SIZE
    {
      Prefix() + Le32(headerCrc32)
    }
  }

  function LoadHeader(s: seq<u8>): Header
    requires |s| >= HEADER_SIZE
  {
    Header(Load32(s, 0), Load16(s, 4), Load16(s, 6), Load32(s, 8), Load32(s, 12),
           Load32(s, 16), Load32(s, 20), Load32(s, 24), Load32(s, 28))
  }

  /** A word stored at `at` loads back. */
  lemma LoadStored32(s: seq<u8>, at: nat, v: u32)
    requires at + 4 <= |s| && s[at..at + 4] == Le32(v)
    ensures Load32(s, at) == v
  {
    Load32Slice(s, at);
    Load32Le32(v);
  }

  lemma LoadStored16(s: seq<u8>, at: nat, v: u16)
    requires at + 2 <= |s| && s[at..at + 2] == Le16(v)
    ensures Load16(s, at) == v
  {
    assert s[at] == s[at..at + 2][0] && s[at + 1] == s[at..at + 2][1];
  }

  lemma StoreLoaded32(s: seq<u8>, at: nat)
    requires at + 4 <= |s|
    ensures Le32(Load32(s, at)) == s[at..at + 4]
  {
    var a, b, c, d := s[at] as int, s[at + 1] as int, s[at + 2] as int, s[at + 3] as int;
    var v := Load32(s, at);
    assert v / 0x100 == b + 0x100 * c + 0x1_0000 * d;
    assert v / 0x1_0000 == c + 0x100 * d;
    assert v / 0x100_0000 == d;
  }

  lemma StoreLoaded16(s: seq<u8>, at: nat)
    requires at + 2 <= |s|
    ensures Le16(Load16(s, at)) == s[at..at + 2]
  {
  }

  /** Header bytes and header fields determine each other. */
  lemma HeaderRoundTrip(h: Header, rest: seq<u8>)
    ensures LoadHeader(h.Bytes() + rest) == h
  {
    hide Le32, Le16, Load32, Load16;
    var s := h.Bytes() + rest;
    assert s[0..4] == Le32(h.magic);
    assert s[4..6] == Le16(h.formatVersion);
    assert s[6..8] == Le16(h.headerSize);
    assert s[8..12] == Le32(h.targetId);
    assert s[12..16] == Le32(h.applicationAddress);
    assert s[16..20] == Le32(h.imageSize);
    assert s[20..24] == Le32(h.firmwareVersion);
    assert s[24..28] == Le32(h.imageCrc32);
    assert s[28..32] == Le32(h.headerCrc32);
    LoadStored32(s, 0, h.magic);
    LoadStored16(s, 4, h.formatVersion);
    LoadStored16(s, 6, h.headerSize);
    LoadStored32(s, 8, h.targetId);
    LoadStored32(s, 12, h.applicationAddress);
    LoadStored32(s, 16, h.imageSize);
    LoadStored32(s, 20, h.firmwareVersion);
    LoadStored32(s, 24, h.imageCrc32);
    LoadStored32(s, 28, h.headerCrc32);
  }

  lemma BytesOfLoaded(s: seq<u8>)
    requires |s| >= HEADER_SIZE
    ensures LoadHeader(s).Prefix() == s[..HEADER_SIZE - 4]
    ensures LoadHeader(s).Bytes() == s[..HEADER_SIZE]
  {
    hide Le32, Le16, Load32, Load16;
    StoreLoaded32(s, 0);
    StoreLoaded16(s, 4);
    StoreLoaded16(s, 6);
    StoreLoaded32(s, 8);
    StoreLoaded32(s, 12);
    StoreLoaded32(s, 16);
    StoreLoaded32(s, 20);
    StoreLoaded32(s, 24);
    StoreLoaded32(s, 28);
    assert s[..28] == s[0..4] + s[4..6] + s[6..8] + s[8..12] + s[12..16] + s[16..20] + s[20..24] + s[24..28];
    assert s[..32] == s[..28] + s[28..32];
  }

  /** The device's acceptance of a header. */
  predicate IsValidPackageHeader(h: Header) {
    && h.magic == PACKAGE_MAGIC && h.formatVersion == PACKAGE_FORMAT_VERSION
    && h.headerSize == HEADER_SIZE && h.targetId == FIRMWARE_TARGET_ID
    && h.applicationAddress == APPLICATION_FLASH_START
    && 0 != h.imageSize <= SLOT_SIZE && h.imageSize % 4 == 0
    && h.headerCrc32 == Crc32(h.Prefix())
  }

  // ----- host side ----------------------------------------------------------------------------

  datatype PackageError =
    TooShort | UnsupportedHeader | HeaderCrc | AddressOrSize | ReservedVersion | WrongLength | ImageCrc

  datatype Result<T> = Ok(value: T) | Err(error: PackageError)

  datatype Info = Info(header: Header, image: seq<u8>)

  function Parse(package: seq<u8>): Result<Info> {
    if |package| < HEADER_SIZE then Err(TooShort) else
    var h := LoadHeader(package);
    var image := package[HEADER_SIZE..];
    if h.magic != PACKAGE_MAGIC || h.formatVersion != PACKAGE_FORMAT_VERSION
       || h.headerSize != HEADER_SIZE then Err(UnsupportedHeader)
    else if Crc32(package[..HEADER_SIZE - 4]) != h.headerCrc32 then Err(HeaderCrc)
    else if h.applicationAddress != APPLICATION_FLASH_START || h.imageSize > SLOT_SIZE
            || h.imageSize == 0 then Err(AddressOrSize)
    else if h.firmwareVersion > MAX_VERSION then Err(ReservedVersion)
    else if |image| != h.imageSize then Err(WrongLength)
    else if Crc32(image) != h.imageCrc32 then Err(ImageCrc)
    else Ok(Info(h, image))
  }

  /** Padding with erased bytes to a whole number of words. */
  function Pad(image: seq<u8>): (r: seq<u8>)
    ensures |r| % 4 == 0 && image <= r && |r| < |image| + 4
  {
    image + seq((-|image|) % 4, i => 0xFF)
  }

  function BuiltHeader(image: seq<u8>, target: u32, version: u32): Header
    requires |image| <= SLOT_SIZE
  {
    var h := Header(PACKAGE_MAGIC, PACKAGE_FORMAT_VERSION, HEADER_SIZE, target,
                    APPLICATION_FLASH_START, |image|, version, Crc32(image), 0);
    h.(headerCrc32 := Crc32(h.Prefix()))
  }

  function Build(image: seq<u8>, target: u32, version: u32): Result<seq<u8>> {
    var padded := Pad(image);
    if version > MAX_VERSION then Err(ReservedVersion)
    else if padded == [] || |padded| > SLOT_SIZE then Err(AddressOrSize)
    else Ok(BuiltHeader(padded, target, version).Bytes() + padded)
  }

  /** A package can be built exactly for a nonempty image that fits the slot once padded and a
      version whose top byte is clear; parsing it returns the padded image and every field; and the
      device accepts its header exactly when the target is its own. */
  lemma BuildThenParse(image: seq<u8>, target: u32, version: u32)
    ensures Build(image, target, version).Ok? <==>
              version <= MAX_VERSION && 0 < |Pad(image)| <= SLOT_SIZE
    ensures Build(image, target, version).Ok? ==>
              var package := Build(image, target, version).value;
              var h := BuiltHeader(Pad(image), target, version);
              && Parse(package) == Ok(Info(h, Pad(image)))
              && package[..HEADER_SIZE] == h.Bytes()
              && h.targetId == target && h.firmwareVersion == version && h.imageSize == |Pad(image)|
              && (IsValidPackageHeader(h) <==> target == FIRMWARE_TARGET_ID)
  {
    hide Crc32, LoadHeader;
    if Build(image, target, version).Ok? {
      var padded := Pad(image);
      var h := BuiltHeader(padded, target, version);
      var package := h.Bytes() + padded;
      HeaderRoundTrip(h, padded);
      assert package[HEADER_SIZE..] == padded;
      assert package[..HEADER_SIZE - 4] == h.Prefix();
    }
  }

  /** Of any package that parses, from whatever source, the device accepts the header exactly when
      the target matches and the image is a whole number of words: the one check the host leaves to
      the device. */
  lemma ParsedHeaderOnDevice(package: seq<u8>)
    requires Parse(package).Ok?
    ensures var info := Parse(package).value;
      && package == info.header.Bytes() + info.image
      && |info.image| == info.header.imageSize && 0 < |info.image| <= SLOT_SIZE
      && Crc32(info.image) == info.header.imageCrc32
      && (IsValidPackageHeader(info.header) <==>
            info.header.targetId == FIRMWARE_TARGET_ID && |info.image| % 4 == 0)
  {
    hide Crc32, LoadHeader;
    BytesOfLoaded(package);
    assert package == package[..HEADER_SIZE] + package[HEADER_SIZE..];
  }

  /** Damage confined to four adjacent bytes of the image is always noticed. */
  lemma DamagedImageRejected(info: Info, a: seq<u8>, x: seq<u8>, y: seq<u8>, b: seq<u8>)
    requires info.image == a + x + b && |x| == |y| <= 4 && x != y
    requires Parse(info.header.Bytes() + info.image) == Ok(info)
    ensures Parse(info.header.Bytes() + (a + y + b)) == Err(ImageCrc)
  {
    hide Crc32, LoadHeader;
    var h := info.header.Bytes();
    HeaderRoundTrip(info.header, info.image);
    HeaderRoundTrip(info.header, a + y + b);
    assert (h + info.image)[..HEADER_SIZE - 4] == (h + (a + y + b))[..HEADER_SIZE - 4];
    assert (h + (a + y + b))[HEADER_SIZE..] == a + y + b;
    ByteWindowIsBurst(a, x, y, b);
    SmallBurst(LsbStream(a + x + b), LsbStream(a + y + b), 8 * |x|);
    Crc32DetectsBursts(a + x + b, a + y + b);
  }

  lemma SmallBurst(x: Bits, y: Bits, w: nat)
    requires DifferWithin(x, y, w) && w <= 32
    ensures DifferWithin(x, y, 32)
  {
  }

  // ----- chunks -------------------------------------------------------------------------------

  const CHUNK_SIZE := 128

  function Chunk(image: seq<u8>, offset: nat): seq<u8>
    requires offset <= |image|
  {
    image[offset..if offset + CHUNK_SIZE <= |image| then offset + CHUNK_SIZE else |image|]
  }

  /** The device's check on the size and position of a DATA block, with its 32-bit wrap-around. */
  predicate DataAccepted(imageSize: u32, offset: u32, length: u16) {
    && length != 0 && length <= 128 && length % 4 == 0
    && Add32(offset, length) <= imageSize
  }

  /** Every chunk the host cuts at a word offset inside a word-sized image passes that check, and
      ends on a word offset again. */
  lemma ChunksAccepted(image: seq<u8>, offset: nat)
    requires |image| <= SLOT_SIZE && |image| % 4 == 0 && offset % 4 == 0 && offset < |image|
    ensures DataAccepted(|image|, offset, |Chunk(image, offset)|)
    ensures (offset + |Chunk(image, offset)|) % 4 == 0
  {
  }
}
