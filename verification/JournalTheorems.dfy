/** The journal is one durable cell: whatever cuts an append short, a later read returns the old
    contents or the complete new ones. */
module JournalTheorems {
  import opened Words
  import opened Journal

  // ----- faults on one slot -------------------------------------------------------------------

  /** A slot in which an append stopped is unreadable, or holds exactly the new record. */
  lemma CutSlot(body: seq<u32>, left: Slot)
    requires |body| == BODY_WORDS && (BodyCut(body, left) || CrcCut(body, left))
    ensures !Valid(left) || left == Complete(body)
  {
    hide RecordCrc;
    if Valid(left) {
      assert left == left[..BODY_WORDS] + [left[BODY_WORDS]];
    }
  }

  // ----- live records -------------------------------------------------------------------------

  lemma {:induction false} NoValidNoLive(page: seq<Slot>)
    requires NoValid(page)
    ensures Live(page) == []
    decreases |page|
  {
    hide Valid, Erased;
    if page != [] {
      assert forall i | 0 <= i < |page| - 1 :: page[1..][i] == page[i + 1];
      NoValidNoLive(page[1..]);
    }
  }

  lemma {:induction false} LiveBound(page: seq<Slot>)
    ensures |Live(page)| <= |page|
    ensures forall i | 0 <= i < |Live(page)| :: Valid(Live(page)[i])
    decreases |page|
  {
    hide Valid, Erased;
    if page != [] {
      LiveBound(page[1..]);
    }
  }

  function Kept(s: Slot): seq<Slot> {
    if Valid(s) then [s] else []
  }

  lemma LiveHead(page: seq<Slot>)
    requires page != [] && !Erased(page[0])
    ensures Live(page) == Kept(page[0]) + Live(page[1..])
    ensures FirstErased(page) == 1 + FirstErased(page[1..])
  {
    hide Valid, Erased;
  }

  /** Programming the first erased slot appends to the live records, or leaves them as they are. */
  lemma {:induction false} LiveAppend(page: seq<Slot>, s: Slot)
    requires Free(page) && NoValidBeyond(page) && !Erased(s)
    ensures var page' := page[FirstErased(page) := s];
      Live(page') == Live(page) + Kept(s) && NoValidBeyond(page')
    decreases |page|
  {
    hide Valid, Erased, Live, Kept, NoValidBeyond, FirstErased;
    if Erased(page[0]) {
      LiveAppendFirst(page, s);
    } else {
      var k := FirstErased(page);
      var page' := page[k := s];
      LiveHead(page);
      NoValidBeyondTail(page);
      LiveAppend(page[1..], s);
      assert page'[1..] == page[1..][k - 1 := s];
      LiveHead(page');
      NoValidBeyondTail(page');
    }
  }

  lemma LiveAppendFirst(page: seq<Slot>, s: Slot)
    requires page != [] && Erased(page[0]) && NoValidBeyond(page) && !Erased(s)
    ensures var page' := page[0 := s];
      FirstErased(page) == 0 && Live(page) == [] && Live(page') == Kept(s) && NoValidBeyond(page')
  {
    hide Valid, Erased;
    var page' := page[0 := s];
    assert page'[1..] == page[1..];
    assert forall i | 0 <= i < |page| - 1 :: page[1..][i] == page[i + 1];
    NoValidNoLive(page[1..]);
    NoValidBeyondTail(page');
  }

  lemma NoValidBeyondTail(page: seq<Slot>)
    requires page != [] && !Erased(page[0])
    ensures NoValidBeyond(page) <==> NoValidBeyond(page[1..])
  {
    hide Valid, Erased;
    assert FirstErased(page) == 1 + FirstErased(page[1..]);
    assert forall i | 1 <= i < |page| :: page[i] == page[1..][i - 1];
  }

  // ----- selection ----------------------------------------------------------------------------

  function Pick(best: Option<Slot>, s: seq<Slot>): Option<Slot>
    decreases |s|
  {
    if s == [] then best else Pick(Better(best, s[0]), s[1..])
  }

  lemma {:induction false} ScanIsPick(best: Option<Slot>, page: seq<Slot>)
    ensures Scan(best, page) == Pick(best, Live(page))
    decreases |page|
  {
    hide Valid, Erased, IsSequenceNewer;
    if page != [] && !Erased(page[0]) {
      ScanIsPick(Better(best, page[0]), page[1..]);
      if Valid(page[0]) {
        assert Live(page)[1..] == Live(page[1..]);
      } else {
        assert Live(page) == Live(page[1..]);
      }
    }
  }

  lemma SuccessorIsNewer(a: u32)
    ensures IsSequenceNewer(Add32(a, 1), a)
  {
    NewerAtDistance(a, 1);
  }

  lemma NewerAtDistance(a: u32, k: nat)
    requires 0 < k < 0x8000_0000
    ensures (Add32(a, k) - a) % WORD == k
    ensures IsSequenceNewer(Add32(a, k), a)
    ensures !IsSequenceNewer(a, Add32(a, k))
  {
    var b := Add32(a, k);
    assert b == if a + k < WORD then a + k else a + k - WORD;
    assert (b - a) % WORD == k;
    assert (a - b) % WORD == WORD - k;
  }

  lemma {:induction false} ChainDistance(s: seq<Slot>, i: nat, j: nat)
    requires Chain(s) && i <= j < |s|
    ensures Sequence(s[j]) == Add32(Sequence(s[i]), j - i)
    decreases j - i
  {
    if i < j {
      ChainDistance(s, i, j - 1);
      assert Sequence(s[j - 1 + 1]) == Add32(Sequence(s[j - 1]), 1);
      AddTwice(Sequence(s[i]), j - 1 - i);
    }
  }

  lemma AddTwice(a: u32, k: nat)
    ensures Add32(Add32(a, k), 1) == Add32(a, k + 1)
  {
    var q, r := (a + k) / WORD, (a + k) % WORD;
    assert a + k == q * WORD + r;
    if r + 1 < WORD {
      assert a + k + 1 == q * WORD + (r + 1);
    } else {
      assert a + k + 1 == (q + 1) * WORD;
    }
  }

  /** Over consecutive valid records the scan ends on the last one, wrap or no wrap. */
  lemma {:induction false} PickLast(best: Option<Slot>, s: seq<Slot>)
    requires Chain(s) && (forall i | 0 <= i < |s| :: Valid(s[i])) && s != []
    requires best.Some? ==> Sequence(s[0]) == Add32(Sequence(best.value), 1)
    ensures Pick(best, s) == Some(s[|s| - 1])
    decreases |s|
  {
    hide Valid, IsSequenceNewer;
    if best.Some? {
      SuccessorIsNewer(Sequence(best.value));
    }
    assert Better(best, s[0]) == Some(s[0]);
    if |s| > 1 {
      assert Sequence(s[0 + 1]) == Add32(Sequence(s[0]), 1);
      assert s == [s[0]] + s[1..];
      ChainParts([s[0]], s[1..]);
      PickLast(Some(s[0]), s[1..]);
    } else {
      assert s[1..] == [];
    }
  }

  lemma ScanLast(page: seq<Slot>)
    requires Chain(Live(page))
    ensures Scan(None, page) == LastOf(Live(page))
  {
    hide Valid, Erased, Live, Scan, Chain;
    ScanIsPick(None, page);
    LiveBound(page);
    if Live(page) != [] {
      PickLast(None, Live(page));
    }
  }

  lemma ChainParts(a: seq<Slot>, b: seq<Slot>)
    requires Chain(a + b)
    ensures Chain(a) && Chain(b)
  {
    var c := a + b;
    forall i | 0 <= i < |a| - 1
      ensures Sequence(a[i + 1]) == Add32(Sequence(a[i]), 1)
    {
      assert a[i] == c[i] && a[i + 1] == c[i + 1];
    }
    forall i | 0 <= i < |b| - 1
      ensures Sequence(b[i + 1]) == Add32(Sequence(b[i]), 1)
    {
      assert b[i] == c[|a| + i] && b[i + 1] == c[|a| + i + 1];
    }
  }

  /** The page whose live records end the chain. */
  ghost predicate EndsWith(p: Pages, id: PageId) {
    Chain(Live(p.Page(Other(id))) + Live(p.Page(id)))
  }

  ghost function AllLive(p: Pages, id: PageId): seq<Slot> {
    Live(p.Page(Other(id))) + Live(p.Page(id))
  }

  ghost function LastOf(s: seq<Slot>): Option<Slot> {
    if s == [] then None else Some(s[|s| - 1])
  }

  lemma LaterHalfIsNewer(older: seq<Slot>, newer: seq<Slot>)
    requires Chain(older + newer) && older != [] && newer != [] && |newer| <= SLOTS
    ensures var a, b := Sequence(older[|older| - 1]), Sequence(newer[|newer| - 1]);
      IsSequenceNewer(b, a) && !IsSequenceNewer(a, b)
  {
    var all := older + newer;
    var i, j := |older| - 1, |all| - 1;
    ChainDistance(all, i, j);
    assert all[i] == older[i] && all[j] == newer[|newer| - 1];
    NewerAtDistance(Sequence(all[i]), j - i);
  }

  /** What selection makes of two pages whose records follow each other. */
  ghost predicate ChosenFrom(n: Option<Newest>, id: PageId, older: seq<Slot>, newer: seq<Slot>) {
    && (n.None? <==> older == [] && newer == [])
    && (newer != [] ==> n == Some(Newest(id, newer[|newer| - 1])))
    && (newer == [] && older != [] ==> n == Some(Newest(Other(id), older[|older| - 1])))
  }

  lemma ChooseLast(older: seq<Slot>, newer: seq<Slot>)
    requires Chain(older + newer) && |newer| <= SLOTS
    ensures ChosenFrom(Choose(LastOf(older), LastOf(newer)), Secondary, older, newer)
    ensures ChosenFrom(Choose(LastOf(newer), LastOf(older)), Primary, older, newer)
  {
    hide IsSequenceNewer, Chain;
    if older != [] && newer != [] {
      LaterHalfIsNewer(older, newer);
    }
  }

  /** Selection finds the end of the chain: the record appended last. */
  lemma NewestIsLast(p: Pages, id: PageId)
    requires p.WellFormed() && EndsWith(p, id)
    ensures ChosenFrom(FindNewest(p), id, Live(p.Page(Other(id))), Live(p.Page(id)))
  {
    hide Live, Scan, Chain, Choose, ChosenFrom;
    var older, newer := Live(p.Page(Other(id))), Live(p.Page(id));
    ChainParts(older, newer);
    ScanLast(p.primary);
    ScanLast(p.secondary);
    LiveBound(p.Page(id));
    ChooseLast(older, newer);
  }

  /** In every journal in order the live records of the two pages, one page behind the other, are at most
      169 sequence numbers apart, so the serial order is total on them and agrees with the order in
      which they were appended; no two carry the same number. */
  lemma LiveSpan(p: Pages) returns (id: PageId)
    requires Inv(p)
    ensures forall i, j | 0 <= i < j < |AllLive(p, id)| ::
      Apart(Sequence(AllLive(p, id)[i]), Sequence(AllLive(p, id)[j]), j - i) && j - i <= 169
  {
    hide Live, Chain, Apart, Valid;
    id := if Free(p.primary) || (!Free(p.secondary) && !Chain(Live(p.primary) + Live(p.secondary))) then Primary else Secondary;
    forall i, j | 0 <= i < j < |AllLive(p, id)|
      ensures Apart(Sequence(AllLive(p, id)[i]), Sequence(AllLive(p, id)[j]), j - i) && j - i <= 169
    {
      SpanInChain(p, id, i, j);
    }
  }

  lemma SpanInChain(p: Pages, id: PageId, i: nat, j: nat)
    requires p.WellFormed() && EndsWith(p, id)
    requires i < j < |AllLive(p, id)|
    ensures Apart(Sequence(AllLive(p, id)[i]), Sequence(AllLive(p, id)[j]), j - i) && j - i <= 169
  {
    hide Live, Chain, Apart;
    var all := AllLive(p, id);
    LiveBound(p.primary);
    LiveBound(p.secondary);
    assert |all| <= 170;
    ChainDistance(all, i, j);
    ApartAtDistance(Sequence(all[i]), j - i);
  }

  /** `b` is `k` steps after `a`, distinct from it, and newer in the serial order but not older. */
  ghost predicate Apart(a: u32, b: u32, k: int) {
    (b - a) % WORD == k && a != b && IsSequenceNewer(b, a) && !IsSequenceNewer(a, b)
  }

  lemma ApartAtDistance(a: u32, k: nat)
    requires 0 < k < 0x8000_0000
    ensures Apart(a, Add32(a, k), k)
  {
    NewerAtDistance(a, k);
  }

  // ----- one append ---------------------------------------------------------------------------

  /** The slot a read returns. */
  ghost function Cell(p: Pages): Option<Slot> {
    match FindNewest(p)
    case None => None
    case Some(n) => Some(n.slot)
  }

  lemma CellIsLast(p: Pages, id: PageId)
    requires p.WellFormed() && EndsWith(p, id)
    ensures Cell(p) == LastOf(AllLive(p, id))
  {
    hide FindNewest, EndsWith, Live;
    NewestIsLast(p, id);
  }

  /** Page `id` has a free slot, and what is written there continues the chain. */
  ghost predicate CanWrite(p: Pages, id: PageId) {
    && p.WellFormed()
    && NoValidBeyond(p.primary) && NoValidBeyond(p.secondary)
    && Free(p.Page(id))
    && EndsWith(p, id)
    && (Free(p.Page(Other(id))) ==> id == Primary && Live(p.secondary) == [])
  }

  lemma ErasedUnique(s: Slot, t: Slot)
    requires Erased(s) && Erased(t)
    ensures s == t
  {
  }

  /** One program operation on the next slot, complete or not. */
  lemma SlotWritten(p: Pages, id: PageId, s: Slot)
    requires CanWrite(p, id)
    requires Valid(s) ==> Chain(AllLive(p, id) + [s])
    ensures var p' := p.With(id, p.Page(id)[FirstErased(p.Page(id)) := s]);
      Inv(p') && EndsWith(p', id) && AllLive(p', id) == AllLive(p, id) + Kept(s)
  {
    hide Valid, Erased, Live, Chain;
    var page, k := p.Page(id), FirstErased(p.Page(id));
    if Erased(s) {
      ErasedIsInvalid(s);
      ErasedUnique(s, page[k]);
      assert page[k := s] == page;
      assert AllLive(p, id) + [] == AllLive(p, id);
      assert p.With(id, page) == p;
      OrderedAgain(p, id);
    } else {
      LiveAppend(page, s);
      var p' := p.With(id, page[k := s]);
      assert AllLive(p', id) == AllLive(p, id) + Kept(s);
      assert AllLive(p, id) + [] == AllLive(p, id);
      OrderedAgain(p', id);
    }
  }

  lemma OrderedAgain(p: Pages, id: PageId)
    requires EndsWith(p, id)
    requires Free(p.Page(Other(id))) ==> id == Primary && Live(p.secondary) == []
    ensures Ordered(p)
  {
    hide Valid, Erased, Live, FirstErased, Chain;
    var a, b := Live(p.primary), Live(p.secondary);
    assert b == [] ==> a + b == b + a;
  }

  lemma FreeCanWrite(p: Pages)
    requires Inv(p) && (Free(p.primary) || Free(p.secondary))
    ensures CanWrite(p, if Free(p.primary) then Primary else Secondary)
  {
    hide Valid, Erased, Live, FirstErased, Chain;
  }

  /** With both pages full, the erased page is never the one that holds the newest record. */
  lemma VictimIsOld(p: Pages)
    requires Inv(p) && !Free(p.primary) && !Free(p.secondary)
    ensures Chain(Live(p.Page(Other(Victim(p)))))
    ensures Cell(p) == LastOf(Live(p.Page(Other(Victim(p)))))
  {
    hide Valid, Erased, Live, FirstErased, Chain, FindNewest;
    var id := if Chain(Live(p.primary) + Live(p.secondary)) then Secondary else Primary;
    assert EndsWith(p, id);
    NewestIsLast(p, id);
    ChainParts(Live(p.Page(Other(id))), Live(p.Page(id)));
    assert Live(p.Page(id)) == [] ==> AllLive(p, id) == Live(p.Page(Other(id)));
  }

  /** Losing every record of the victim page loses nothing that a read can return. */
  lemma VictimCleared(p: Pages, page: seq<Slot>)
    requires Inv(p) && !Free(p.primary) && !Free(p.secondary)
    requires |page| == SLOTS && NoValid(page)
    ensures var p' := p.With(Victim(p), page);
      && Inv(p') && Cell(p') == Cell(p)
      && EndsWith(p', Victim(p))
      && (Free(page) ==> CanWrite(p', Victim(p)))
  {
    hide Valid, Erased, Live, FirstErased, Chain, FindNewest;
    VictimIsOld(p);
    NoValidNoLive(page);
    var v := Victim(p);
    var p' := p.With(v, page);
    assert AllLive(p', v) == Live(p.Page(Other(v))) by {
      assert Live(p.Page(Other(v))) + [] == Live(p.Page(Other(v)));
    }
    CellIsLast(p', v);
    OrderedAgain(p', v);
  }

  lemma ErasedPageHasNone()
    ensures NoValid(ErasedPage()) && FirstErased(ErasedPage()) == 0 && Free(ErasedPage())
  {
    hide Valid;
    assert ErasedPage()[0] == ErasedSlot();
    forall i | 0 <= i < SLOTS
      ensures !Valid(ErasedPage()[i])
    {
      ErasedIsInvalid(ErasedPage()[i]);
    }
  }

  lemma NextContinues(p: Pages, id: PageId, m: Metadata)
    requires p.WellFormed() && EndsWith(p, id)
    ensures Chain(AllLive(p, id) + [Complete(Body(NextSequence(p), m))])
  {
    hide Valid, Live, FindNewest, RecordCrc;
    NewestIsLast(p, id);
    var all, s := AllLive(p, id), Complete(Body(NextSequence(p), m));
    CompleteIsValid(NextSequence(p), m);
  }

  /** The record an append of `m` is about to write. */
  ghost function NewRecord(p: Pages, m: Metadata): Slot {
    Complete(Body(NextSequence(p), m))
  }

  /** What a read may return after an append that ended in `r`. */
  ghost predicate OldOrNew(p: Pages, m: Metadata, p': Pages, r: Outcome) {
    && (Cell(p') == Cell(p) || Cell(p') == Some(NewRecord(p, m)))
    && (r == Appended ==> Cell(p') == Some(NewRecord(p, m)))
  }

  lemma WriteKeeps(p: Pages, id: PageId, m: Metadata, fault: Fault)
    requires CanWrite(p, id) && Legal(p, m, fault)
    ensures var r := Write(p, id, FirstErased(p.Page(id)), Body(NextSequence(p), m), fault);
      Inv(r.0) && OldOrNew(p, m, r.0, r.1)
  {
    hide Valid, Live, Chain, FindNewest, FirstErased, NextSequence, Complete, EndsWith, Inv, CanWrite;
    var body := Body(NextSequence(p), m);
    match fault {
      case AtBody(s, _) =>
        CutSlot(body, s);
        SlotKeeps(p, id, m, s);
      case AtCrc(s, _) =>
        CutSlot(body, s);
        SlotKeeps(p, id, m, s);
      case _ =>
        SlotKeeps(p, id, m, Complete(body));
    }
  }

  lemma SlotKeeps(p: Pages, id: PageId, m: Metadata, s: Slot)
    requires CanWrite(p, id) && (!Valid(s) || s == NewRecord(p, m))
    ensures var p' := p.With(id, p.Page(id)[FirstErased(p.Page(id)) := s]);
      && Inv(p')
      && (Cell(p') == Cell(p) || Cell(p') == Some(NewRecord(p, m)))
      && (s == NewRecord(p, m) ==> Cell(p') == Some(NewRecord(p, m)))
  {
    hide Valid, Live, Chain, FindNewest, FirstErased, NextSequence, Complete, EndsWith, Inv, Cell;
    var p' := p.With(id, p.Page(id)[FirstErased(p.Page(id)) := s]);
    CompleteIsValid(NextSequence(p), m);
    NextContinues(p, id, m);
    SlotWritten(p, id, s);
    WrittenWellFormed(p, id, s);
    CellIsLast(p, id);
    CellIsLast(p', id);
    assert AllLive(p, id) + [] == AllLive(p, id);
  }

  lemma WrittenWellFormed(p: Pages, id: PageId, s: Slot)
    requires p.WellFormed() && Free(p.Page(id))
    ensures p.With(id, p.Page(id)[FirstErased(p.Page(id)) := s]).WellFormed()
  {
  }

  /** Atomicity of one append, for every fault the flash can suffer and at any point: afterwards the
      journal is in order again and a read returns the previous record or the complete new one; a
      reported success means the new one. */
  lemma AppendIsAtomic(p: Pages, m: Metadata, fault: Fault)
    requires Inv(p) && Legal(p, m, fault)
    ensures var r := Append(p, m, fault);
      Inv(r.0) && OldOrNew(p, m, r.0, r.1)
  {
    hide Valid, Live, Chain, FindNewest, FirstErased, Legal, Write, Ordered, EndsWith;
    if Free(p.primary) || Free(p.secondary) {
      FreeCanWrite(p);
      WriteKeeps(p, if Free(p.primary) then Primary else Secondary, m, fault);
    } else if fault.AtErase? {
      EraseFails(p, m, fault);
    } else {
      RotateAndWrite(p, m, fault);
    }
  }

  lemma EraseFails(p: Pages, m: Metadata, fault: Fault)
    requires Inv(p) && !Free(p.primary) && !Free(p.secondary)
    requires fault.AtErase? && Legal(p, m, fault)
    ensures var p' := p.With(Victim(p), fault.page); Inv(p') && Cell(p') == Cell(p)
  {
    hide Valid, Live, Chain, FindNewest, FirstErased, Ordered, EndsWith, Victim;
    if fault.page == p.Page(Victim(p)) {
      assert p.With(Victim(p), fault.page) == p;
    } else {
      VictimCleared(p, fault.page);
    }
  }

  lemma RotateAndWrite(p: Pages, m: Metadata, fault: Fault)
    requires Inv(p) && !Free(p.primary) && !Free(p.secondary)
    requires !fault.AtErase? && Legal(p, m, fault)
    ensures var r := Write(p.With(Victim(p), ErasedPage()), Victim(p), 0, Body(NextSequence(p), m), fault);
      Inv(r.0) && OldOrNew(p, m, r.0, r.1)
  {
    hide Valid, Live, Chain, FindNewest, FirstErased, Write, Ordered, EndsWith, Victim, ErasedPage, Inv, CanWrite;
    var p1 := p.With(Victim(p), ErasedPage());
    ErasedPageHasNone();
    VictimCleared(p, ErasedPage());
    SameNext(p, p1);
    WriteKeeps(p1, Victim(p), m, fault);
  }

  lemma SameNext(p: Pages, q: Pages)
    requires Cell(p) == Cell(q)
    ensures NextSequence(p) == NextSequence(q)
  {
    hide FindNewest;
  }

  // ----- runs ---------------------------------------------------------------------------------

  datatype Op = Op(m: Metadata, fault: Fault)

  /** A run of appends, each cut short or not in a way the flash allows. */
  ghost predicate IsRun(states: seq<Pages>, ops: seq<Op>) {
    && |states| == |ops| + 1
    && forall i | 0 <= i < |ops| :: StepAt(states, ops, i)
  }

  ghost predicate StepAt(states: seq<Pages>, ops: seq<Op>, i: nat)
    requires |states| == |ops| + 1 && i < |ops|
  {
    && states[i].WellFormed()
    && Legal(states[i], ops[i].m, ops[i].fault)
    && states[i + 1] == Append(states[i], ops[i].m, ops[i].fault).0
  }

  ghost predicate Succeeded(states: seq<Pages>, ops: seq<Op>, i: nat)
    requires IsRun(states, ops) && i < |ops|
  {
    assert StepAt(states, ops, i);
    Append(states[i], ops[i].m, ops[i].fault).1 == Appended
  }

  lemma OldOrNewRead(p: Pages, m: Metadata, p': Pages, r: Outcome)
    requires OldOrNew(p, m, p', r)
    ensures Read(p') == Read(p) || Read(p') == Some(m)
    ensures r == Appended ==> Read(p') == Some(m)
  {
    hide FindNewest, Complete, NextSequence;
    CompleteIsValid(NextSequence(p), m);
  }

  /** Durability over whole runs: after any prefix of any run the journal returns what one of the
      appends wrote (or what was there at the start), and none of the appends after that one was
      reported successful.  So a successful append is never lost and nothing is ever invented. */
  lemma {:induction false} JournalIsDurable(states: seq<Pages>, ops: seq<Op>, k: nat) returns (j: nat)
    requires IsRun(states, ops) && Inv(states[0]) && k <= |ops|
    ensures Inv(states[k]) && j <= k
    ensures Read(states[k]) == if j == 0 then Read(states[0]) else Some(ops[j - 1].m)
    ensures forall i | j <= i < k :: !Succeeded(states, ops, i)
    decreases k
  {
    hide Inv, Read, Append, Legal;
    if k == 0 {
      j := 0;
    } else {
      j := JournalIsDurable(states, ops, k - 1);
      var op := ops[k - 1];
      assert StepAt(states, ops, k - 1);
      AppendIsAtomic(states[k - 1], op.m, op.fault);
      OldOrNewRead(states[k - 1], op.m, states[k], Append(states[k - 1], op.m, op.fault).1);
      if Read(states[k]) == Some(op.m) {
        j := k;
      }
    }
  }

  lemma ErasedIsInv()
    ensures Inv(Pages(ErasedPage(), ErasedPage())) && Read(Pages(ErasedPage(), ErasedPage())) == None
  {
    hide Valid, Live, FirstErased, FindNewest;
    ErasedPageHasNone();
    NoValidNoLive(ErasedPage());
    var p := Pages(ErasedPage(), ErasedPage());
    NewestIsLast(p, Primary);
  }

  /** A factory image: one record with sequence number 1 at the start of the primary page. */
  lemma FactoryIsInv(m: Metadata)
    ensures var p := Pages(ErasedPage()[0 := Complete(Body(1, m))], ErasedPage());
      Inv(p) && Read(p) == Some(m)
  {
    ErasedIsInv();
    var p := Pages(ErasedPage(), ErasedPage());
    ErasedPageHasNone();
    AppendIsAtomic(p, m, NoFault);
    OldOrNewRead(p, m, Append(p, m, NoFault).0, Appended);
  }
}
