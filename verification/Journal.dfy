/** The power-loss-safe metadata journal of the bootloader: two flash pages of 85 records.

    Records are appended to the first erased slot, their CRC word last; when both pages are full the
    page that does not hold the newest record is erased.  The functions here are the flash contents
    an append leaves behind, for every point at which it can be cut short. */
module Journal {
  import opened Words
  import opened Crc

  const SLOTS := 85
  const BODY_WORDS := 11
  const SLOT_WORDS := 12
  const METADATA_MAGIC: u32 := 0x424C_4D44
  const METADATA_FORMAT_VERSION := 2
  const RECORD_SIZE := 48
  const ERASED_WORD: u32 := 0xFFFF_FFFF

  /** The twelve words of a record slot. */
  type Slot = w: seq<u32> | |w| == SLOT_WORDS witness seq(SLOT_WORDS, i => 0)

  /** The fields of BootMetadata that belong to its users; the rest is written by the append. */
  datatype Metadata = Metadata(
    state: u32, imageSize: u32, imageCrc32: u32, firmwareVersion: u32, appRole: u32,
    unconfirmedBootCount: u32, bootAttemptId: u32, confirmedBootAttemptId: u32)

  datatype PageId = Primary | Secondary

  datatype Pages = Pages(primary: seq<Slot>, secondary: seq<Slot>) {
    predicate WellFormed() { |primary| == SLOTS && |secondary| == SLOTS }

    function Page(id: PageId): seq<Slot> {
      match id case Primary => primary case Secondary => secondary
    }

    function With(id: PageId, page: seq<Slot>): (r: Pages)
      ensures r.Page(id) == page
      ensures r.Page(Other(id)) == Page(Other(id))
    {
      match id
      case Primary => Pages(page, secondary)
      case Secondary => Pages(primary, page)
    }
  }

  function Other(id: PageId): PageId {
    match id case Primary => Secondary case Secondary => Primary
  }

  // ----- records ------------------------------------------------------------------------------

  function WordBytes(ws: seq<u32>): seq<u8> {
    if ws == [] then [] else Le32(ws[0]) + WordBytes(ws[1..])
  }

  function RecordCrc(body: seq<u32>): u32 {
    Crc32(WordBytes(body))
  }

  function Body(sequence: u32, m: Metadata): (b: seq<u32>)
    ensures |b| == BODY_WORDS
  {
    [METADATA_MAGIC, METADATA_FORMAT_VERSION + 0x1_0000 * RECORD_SIZE, sequence,
     m.state, m.imageSize, m.imageCrc32, m.firmwareVersion, m.appRole,
     m.unconfirmedBootCount, m.bootAttemptId, m.confirmedBootAttemptId]
  }

  function Complete(body: seq<u32>): (s: Slot)
    requires |body| == BODY_WORDS
  {
    body + [RecordCrc(body)]
  }

  predicate Erased(s: Slot) {
    forall i | 0 <= i < SLOT_WORDS :: s[i] == ERASED_WORD
  }

  predicate Valid(s: Slot) {
    && s[0] == METADATA_MAGIC
    && s[1] % 0x1_0000 == METADATA_FORMAT_VERSION
    && s[1] / 0x1_0000 == RECORD_SIZE
    && s[BODY_WORDS] == RecordCrc(s[..BODY_WORDS])
  }

  function Sequence(s: Slot): u32 { s[2] }

  function Contents(s: Slot): Metadata {
    Metadata(s[3], s[4], s[5], s[6], s[7], s[8], s[9], s[10])
  }

  /** Serial number comparison, section 3.2 of RFC 1982. */
  predicate IsSequenceNewer(candidate: u32, reference: u32) {
    candidate != reference && (candidate - reference) % WORD < 0x8000_0000
  }

  lemma CompleteIsValid(sequence: u32, m: Metadata)
    ensures var s := Complete(Body(sequence, m));
      Valid(s) && !Erased(s) && Sequence(s) == sequence && Contents(s) == m
  {
    var b := Body(sequence, m);
    assert Complete(b)[..BODY_WORDS] == b;
  }

  lemma ErasedIsInvalid(s: Slot)
    requires Erased(s)
    ensures !Valid(s)
  {
  }

  // ----- reading ------------------------------------------------------------------------------

  function Better(best: Option<Slot>, s: Slot): Option<Slot> {
    if Valid(s) && (best.None? || IsSequenceNewer(Sequence(s), Sequence(best.value))
                    || Sequence(s) == Sequence(best.value)) then Some(s) else best
  }

  /** The scan of findNewestRecordInPage: up to the first erased slot, later records winning ties. */
  function Scan(best: Option<Slot>, page: seq<Slot>): Option<Slot>
    decreases |page|
  {
    if page == [] || Erased(page[0]) then best else Scan(Better(best, page[0]), page[1..])
  }

  datatype Newest = Newest(page: PageId, slot: Slot)

  /** findNewestMetadataRecord, given what the two pages offer; primary wins a tie. */
  function Choose(a: Option<Slot>, b: Option<Slot>): Option<Newest> {
    if a.None? && b.None? then None
    else if a.None? then Some(Newest(Secondary, b.value))
    else if b.None? then Some(Newest(Primary, a.value))
    else if IsSequenceNewer(Sequence(b.value), Sequence(a.value)) then Some(Newest(Secondary, b.value))
    else Some(Newest(Primary, a.value))
  }

  function FindNewest(p: Pages): Option<Newest> {
    Choose(Scan(None, p.primary), Scan(None, p.secondary))
  }

  /** readBootMetadata. */
  function Read(p: Pages): Option<Metadata> {
    match FindNewest(p)
    case None => None
    case Some(n) => Some(Contents(n.slot))
  }

  /** Index of the first erased slot; the page's length when it is full. */
  function FirstErased(page: seq<Slot>): (k: nat)
    ensures k <= |page|
    ensures k < |page| ==> Erased(page[k])
    ensures forall i | 0 <= i < k :: !Erased(page[i])
  {
    if page == [] || Erased(page[0]) then 0 else
    var k := FirstErased(page[1..]);
    assert forall i | 0 < i <= k :: page[i] == page[1..][i - 1] || i == k;
    k + 1
  }

  predicate Free(page: seq<Slot>) { FirstErased(page) < |page| }

  // ----- appending, with faults ---------------------------------------------------------------

  /** What flash looks like where an operation stopped; `powerLost` tells a power cut from an error
      return.  A fault placed in a step that is not executed has no effect. */
  datatype Fault =
    | NoFault
    | AtErase(page: seq<Slot>, powerLost: bool)
    | AtBody(slot: Slot, powerLost: bool)
    | AtCrc(slot: Slot, powerLost: bool)

  datatype Outcome = Appended | Failed | PowerLost

  function Stopped(powerLost: bool): Outcome {
    if powerLost then PowerLost else Failed
  }

  /** Programming clears bits only, and no more of them than the data asks for. */
  ghost predicate PartlyProgrammed(target: seq<u32>, left: seq<u32>) {
    && |left| == |target|
    && forall i | 0 <= i < |target| :: And(left[i], target[i]) == target[i]
  }

  /** Contents a cut of the body program can leave.  The CRC word is untouched, and no strictly
      partial body has a CRC-32 equal to the erased word. */
  ghost predicate BodyCut(body: seq<u32>, left: Slot) {
    && PartlyProgrammed(body, left[..BODY_WORDS])
    && left[BODY_WORDS] == ERASED_WORD
    && (left[..BODY_WORDS] != body ==> RecordCrc(left[..BODY_WORDS]) != ERASED_WORD)
  }

  /** Contents a cut of the CRC program can leave. */
  ghost predicate CrcCut(body: seq<u32>, left: Slot) {
    && left[..BODY_WORDS] == body
    && PartlyProgrammed([RecordCrc(body)], left[BODY_WORDS..])
  }

  /** An interrupted erase leaves the page as it was, or no valid record in it. */
  ghost predicate EraseCut(before: seq<Slot>, left: seq<Slot>) {
    && |left| == |before|
    && (left == before || NoValid(left))
  }

  ghost predicate NoValid(page: seq<Slot>) {
    forall i | 0 <= i < |page| :: !Valid(page[i])
  }

  function NextSequence(p: Pages): u32 {
    match FindNewest(p)
    case None => 1
    case Some(n) => Add32(Sequence(n.slot), 1)
  }

  /** The page that is erased when both are full. */
  function Victim(p: Pages): PageId {
    match FindNewest(p)
    case None => Secondary
    case Some(n) => Other(n.page)
  }

  function ErasedSlot(): (s: Slot)
    ensures Erased(s)
  {
    seq(SLOT_WORDS, i => ERASED_WORD)
  }

  function ErasedPage(): (page: seq<Slot>)
    ensures |page| == SLOTS
  {
    seq(SLOTS, i => ErasedSlot())
  }

  ghost predicate Legal(p: Pages, m: Metadata, fault: Fault) {
    var body := Body(NextSequence(p), m);
    match fault
    case NoFault => true
    case AtErase(page, _) => EraseCut(p.Page(Victim(p)), page)
    case AtBody(slot, _) => BodyCut(body, slot)
    case AtCrc(slot, _) => CrcCut(body, slot)
  }

  /** Programs one record into a slot: body first, CRC word last. */
  function Write(p: Pages, id: PageId, k: nat, body: seq<u32>, fault: Fault): (r: (Pages, Outcome))
    requires k < |p.Page(id)| && |body| == BODY_WORDS
  {
    match fault
    case AtBody(slot, cut) => (p.With(id, p.Page(id)[k := slot]), Stopped(cut))
    case AtCrc(slot, cut) => (p.With(id, p.Page(id)[k := slot]), Stopped(cut))
    case _ => (p.With(id, p.Page(id)[k := Complete(body)]), Appended)
  }

  /** appendMetadataRecord. */
  function Append(p: Pages, m: Metadata, fault: Fault): (Pages, Outcome)
    requires p.WellFormed()
  {
    var body := Body(NextSequence(p), m);
    if Free(p.primary) then Write(p, Primary, FirstErased(p.primary), body, fault)
    else if Free(p.secondary) then Write(p, Secondary, FirstErased(p.secondary), body, fault)
    else if fault.AtErase? then (p.With(Victim(p), fault.page), Stopped(fault.powerLost))
    else Write(p.With(Victim(p), ErasedPage()), Victim(p), 0, body, fault)
  }

  // ----- the invariant ------------------------------------------------------------------------

  /** Valid records in front of the first erased slot, oldest first. */
  ghost function Live(page: seq<Slot>): seq<Slot> {
    if page == [] || Erased(page[0]) then []
    else (if Valid(page[0]) then [page[0]] else []) + Live(page[1..])
  }

  /** Consecutive sequence numbers, modulo 2^32. */
  ghost predicate Chain(s: seq<Slot>) {
    forall i | 0 <= i < |s| - 1 :: Sequence(s[i + 1]) == Add32(Sequence(s[i]), 1)
  }

  ghost predicate NoValidBeyond(page: seq<Slot>) {
    forall i | FirstErased(page) <= i < |page| :: !Valid(page[i])
  }

  /** The page written next ends the chain of live records. */
  ghost predicate Ordered(p: Pages) {
    var a, b := Live(p.primary), Live(p.secondary);
    if Free(p.primary) then Chain(b + a) && (Free(p.secondary) ==> b == [])
    else if Free(p.secondary) then Chain(a + b)
    else Chain(a + b) || Chain(b + a)
  }

  ghost predicate Inv(p: Pages) {
    && p.WellFormed()
    && NoValidBeyond(p.primary)
    && NoValidBeyond(p.secondary)
    && Ordered(p)
  }
}
