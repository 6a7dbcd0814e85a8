/** What the boot counter counts.  A ledger lists the boot attempts on record since the last install, and
    which of them were confirmed. */
module BootLedger {
  import opened Words
  import opened Crc
  import opened Framing
  import opened Journal
  import opened JournalTheorems
  import opened Package
  import opened Device
  import opened DeviceTheorems

  /** One entry for each attempt, oldest first: whether it was confirmed. */
  type Attempts = seq<bool>

  /** All attempts that were never confirmed. */
  function Unconfirmed(l: Attempts): nat {
    if l == [] then 0 else Unconfirmed(l[..|l| - 1]) + (if l[|l| - 1] then 0 else 1)
  }

  /** The unconfirmed attempts since the last confirmed one: the consecutive ones. */
  function Consecutive(l: Attempts): nat {
    if l == [] || l[|l| - 1] then 0 else Consecutive(l[..|l| - 1]) + 1
  }

  lemma {:induction false} ConsecutiveBound(l: Attempts)
    ensures Consecutive(l) <= Unconfirmed(l) <= |l|
  {
    if l != [] {
      ConsecutiveBound(l[..|l| - 1]);
    }
  }

  /** The record says of its attempts what the ledger says. */
  ghost predicate Matches(m: Metadata, l: Attempts) {
    && m.unconfirmedBootCount == Unconfirmed(l)
    && Lead(m) == Consecutive(l)
    && m.bootAttemptId == |l| % WORD
  }

  lemma MatchesNothing(m: Metadata)
    requires m.unconfirmedBootCount == m.bootAttemptId == m.confirmedBootAttemptId == 0
    ensures Matches(m, [])
  {
  }

  lemma MatchesAttempt(m: Metadata, l: Attempts)
    requires Matches(m, l) && CountOk(m) && m.unconfirmedBootCount < BOOT_FAILURE_LIMIT
    ensures Matches(Attempt(m), l + [false])
  {
    hide Lead;
    assert (l + [false])[..|l|] == l;
    LeadOfAttempt(m);
    NextAttemptId(|l|);
  }

  lemma NextAttemptId(n: nat)
    ensures (n + 1) % WORD == (n % WORD + 1) % WORD
  {
  }

  lemma MatchesConfirmed(m: Metadata, l: Attempts, id: u32)
    requires Matches(m, l) && m.bootAttemptId == id && m.confirmedBootAttemptId != id
    ensures l != [] && Matches(Confirmed(m, id), l[|l| - 1 := true])
  {
    hide Lead;
    LeadOfConfirmed(m, id);
    assert l[|l| - 1 := true][..|l| - 1] == l[..|l| - 1];
  }

  /** State and role do not matter. */
  lemma MatchesSame(m: Metadata, n: Metadata, l: Attempts)
    requires Matches(m, l)
    requires n == m.(state := n.state, appRole := n.appRole)
    ensures Matches(n, l)
  {
    LeadOfRole(m, n);
  }

  // ----- along a run --------------------------------------------------------------------------

  /** The ledger of the newest record, and that of the updater's own copy of the metadata. */
  datatype Book = Book(stored: Attempts, session: Attempts)

  ghost predicate BookOk(d: Device, b: Book) {
    && Matches(Loaded(d.journal), b.stored)
    && (d.mode.Updating? ==> Matches(d.mode.session.metadata, b.session))
  }

  /** The step's record is the newest one afterwards. */
  ghost predicate Durable(d: Device, step: Step)
    requires Enabled(d, step)
  {
    Written(d, step).Some? && Read(Apply(d, step).journal) == Written(d, step)
  }

  /** An attempt enters the ledger when its record is durable, a confirmation marks the last one, an
      install (BEGIN or END) starts afresh, and SET_ROLE stores the updater's copy. */
  ghost function Enter(d: Device, step: Step, b: Book): Book
    requires Enabled(d, step)
  {
    match step
    case PowerCycle => b
    case DoRequest(_) => b
    case DoBoot(_) =>
      var tried := if Written(d, step).Some? then b.stored + [false] else b.stored;
      Book(if Durable(d, step) then tried else b.stored, tried)
    case DoReady(_, _) =>
      if Durable(d, step) && b.stored != [] then b.(stored := b.stored[|b.stored| - 1 := true]) else b
    case DoFrame(f, _) =>
      Book(if !Durable(d, step) then b.stored else if f.kind == SET_ROLE then b.session else [],
           if f.kind != SET_ROLE && Touches(d, step) then [] else b.session)
  }

  /** The updater's copy of the metadata is replaced. */
  ghost predicate Touches(d: Device, step: Step)
    requires Enabled(d, step) && step.DoFrame?
  {
    var h := Handle(d.journal, d.flash, d.mode.session, step.frame, step.flashFault);
    h.next.Continue? && h.next.session.metadata != d.mode.session.metadata
  }

  lemma BootEnters(d: Device, fault: Fault, b: Book)
    requires DeviceInv(d) && LegalStep(d, DoBoot(fault)) && BookOk(d, b)
    ensures BookOk(Boot(d, fault), Enter(d, DoBoot(fault), b))
  {
    hide Ordered, NoValidBeyond, Legal, Append, Read, ImageCrcMatches, IsApplicationImageValid, Lead, Matches;
    var m := Loaded(d.journal);
    if Bootable(m, d.flash) {
      MatchesAttempt(m, b.stored);
      AppendReads(d.journal, Attempt(m), fault);
    }
  }

  lemma ReadyEnters(d: Device, rf: bool, fault: Fault, b: Book)
    requires DeviceInv(d) && LegalStep(d, DoReady(rf, fault)) && BookOk(d, b)
    ensures BookOk(MarkReady(d, rf, fault), Enter(d, DoReady(rf, fault), b))
  {
    hide Ordered, NoValidBeyond, Legal, Append, Read, ImageCrcMatches, Lead, Matches;
    var id := d.mode.app.attemptId;
    if Confirmable(d.journal, id) {
      var m := Read(d.journal).value;
      MatchesConfirmed(m, b.stored, id);
      AppendReads(d.journal, Confirmed(m, id), fault);
    }
  }

  lemma RequestEnters(d: Device, fault: Fault, b: Book)
    requires DeviceInv(d) && LegalStep(d, DoRequest(fault)) && BookOk(d, b)
    ensures BookOk(RequestUpdate(d, fault), b)
  {
    hide Ordered, NoValidBeyond, Legal, Append, Read, ImageCrcMatches, Lead, Matches;
    MatchesSame(Loaded(d.journal), Requested(d.journal), b.stored);
    AppendReads(d.journal, Requested(d.journal), fault);
  }

  lemma FrameEnters(d: Device, f: Frame, fault: StepFault, b: Book)
    requires DeviceInv(d) && LegalStep(d, DoFrame(f, fault)) && BookOk(d, b)
    ensures BookOk(Apply(d, DoFrame(f, fault)), Enter(d, DoFrame(f, fault), b))
  {
    hide Ordered, NoValidBeyond, Legal, Append, Read, ImageCrcMatches, Lead, Matches, IsValidPackageHeader, LoadHeader,
         Load32, EraseApplication, DataAccepted, And;
    var w, s := Written(d, DoFrame(f, fault)), d.mode.session;
    MatchesNothing(DEFAULT);
    MatchesNothing(Installed(s));
    if w.Some? {
      AppendReads(d.journal, w.value, fault.journal);
      if f.kind == SET_ROLE {
        MatchesSame(s.metadata, w.value, b.session);
      }
    }
  }

  lemma StepEnters(d: Device, step: Step, b: Book)
    requires DeviceInv(d) && LegalStep(d, step) && BookOk(d, b)
    ensures BookOk(Apply(d, step), Enter(d, step, b))
  {
    hide Boot, MarkReady, RequestUpdate, Handle, DeviceInv, Written, Durable, Read, Matches, LegalProgram;
    match step {
      case PowerCycle =>
      case DoBoot(fault) => BootEnters(d, fault, b);
      case DoReady(rf, fault) => ReadyEnters(d, rf, fault, b);
      case DoRequest(fault) => RequestEnters(d, fault, b);
      case DoFrame(f, fault) => FrameEnters(d, f, fault, b);
    }
  }

  ghost function Ledger(states: seq<Device>, steps: seq<Step>, k: nat): Book
    requires DeviceRun(states, steps) && k <= |steps|
    decreases k
  {
    if k == 0 then Book([], []) else
    assert DeviceStepAt(states, steps, k - 1);
    Enter(states[k - 1], steps[k - 1], Ledger(states, steps, k - 1))
  }

  lemma InitialBook(d: Device)
    requires Initial(d)
    ensures BookOk(d, Book([], []))
  {
    hide Inv, Read, ImageCrcMatches, Complete, ErasedPage, Body, Matches;
    MatchesNothing(DEFAULT);
    if d.journal == Pages(ErasedPage(), ErasedPage()) {
      ErasedIsInv();
    } else {
      var m :| FactoryRecord(d, m);
      FactoryIsInv(m);
      MatchesNothing(m);
    }
  }

  lemma {:induction false} RunsKeepBook(states: seq<Device>, steps: seq<Step>, k: nat)
    requires DeviceRun(states, steps) && Initial(states[0]) && k <= |steps|
    ensures BookOk(states[k], Ledger(states, steps, k))
    decreases k
  {
    hide LegalStep, Apply, Initial, Enter, BookOk, DeviceInv;
    if k == 0 {
      InitialBook(states[0]);
    } else {
      RunsKeepBook(states, steps, k - 1);
      RunsKeepInvariant(states, steps, k - 1);
      assert DeviceStepAt(states, steps, k - 1);
      StepEnters(states[k - 1], steps[k - 1], Ledger(states, steps, k - 1));
    }
  }

  ghost predicate CounterMeans(m: Metadata, flash: seq<u8>, l: Attempts) {
    && |flash| == REGION
    && m.unconfirmedBootCount == Unconfirmed(l) <= BOOT_FAILURE_LIMIT
    && Lead(m) == Consecutive(l)
    && m.bootAttemptId == |l| % WORD
    && (m.state == STATE_VALID && IsApplicationImageValid(m, flash) ==>
          (Bootable(m, flash) <==> Unconfirmed(l) < BOOT_FAILURE_LIMIT))
    && ((Unconfirmed(l) >= BOOT_FAILURE_LIMIT <==> Consecutive(l) >= BOOT_FAILURE_LIMIT) <==>
          m.unconfirmedBootCount < BOOT_FAILURE_LIMIT || Lead(m) == m.unconfirmedBootCount)
  }

  /** What the counter of the newest record counts, over every run: all unconfirmed attempts on record
      since the last install.  The distance of its two attempt numbers counts the consecutive ones.  So
      the boot decision is the documented one, three consecutive unconfirmed boots, at exactly the
      records whose counter is below the limit or equal to that distance. */
  lemma CounterIsExact(states: seq<Device>, steps: seq<Step>, k: nat)
    requires DeviceRun(states, steps) && Initial(states[0]) && k <= |steps|
    requires Read(states[k].journal).Some?
    ensures CounterMeans(Read(states[k].journal).value, states[k].flash, Ledger(states, steps, k).stored)
  {
    hide Inv, Read, Lead, IsApplicationImageValid, Initial, ImageCrcMatches, Ledger, DeviceStepAt;
    RunsKeepInvariant(states, steps, k);
    RunsKeepBook(states, steps, k);
    ConsecutiveBound(Ledger(states, steps, k).stored);
  }

  // ----- two consecutive unconfirmed boots that end in the updater ----------------------------

  /** A device that is switched off with a good image on record. */
  ghost predicate Waiting(d: Device, m: Metadata) {
    && DeviceInv(d) && d.mode == Off
    && Read(d.journal) == Some(m) && m.state == STATE_VALID && IsApplicationImageValid(m, d.flash)
  }

  lemma Started(d: Device, m: Metadata) returns (d': Device)
    requires Waiting(d, m) && m.unconfirmedBootCount < BOOT_FAILURE_LIMIT
    ensures LegalStep(d, DoBoot(NoFault)) && d' == Apply(d, DoBoot(NoFault))
    ensures d'.mode == Running(App(true, Attempt(m).bootAttemptId, m.appRole, false, false, false))
    ensures Waiting(d'.(mode := Off), Attempt(m)) && Lead(Attempt(m)) == Lead(m) + 1
  {
    hide Ordered, NoValidBeyond, Append, Read, ImageCrcMatches, Lead, Load32;
    d' := Apply(d, DoBoot(NoFault));
    LeadOfAttempt(m);
    AppendWithoutFault(d.journal, Attempt(m));
    AppendReads(d.journal, Attempt(m), NoFault);
    StepKeeps(d, DoBoot(NoFault));
  }

  lemma BothReady(d: Device, m: Metadata) returns (d1: Device, d2: Device)
    requires Waiting(d.(mode := Off), m) && m.confirmedBootAttemptId != m.bootAttemptId
    requires d.mode == Running(App(true, m.bootAttemptId, m.appRole, false, false, false))
    ensures LegalStep(d, DoReady(true, NoFault)) && d1 == Apply(d, DoReady(true, NoFault))
    ensures LegalStep(d1, DoReady(false, NoFault)) && d2 == Apply(d1, DoReady(false, NoFault))
    ensures Waiting(d2.(mode := Off), Confirmed(m, m.bootAttemptId)) && Lead(Confirmed(m, m.bootAttemptId)) == 0
  {
    hide Ordered, NoValidBeyond, Append, Read, ImageCrcMatches, Lead, Load32;
    var c := Confirmed(m, m.bootAttemptId);
    d1 := Apply(d, DoReady(true, NoFault));
    d2 := Apply(d1, DoReady(false, NoFault));
    LeadOfConfirmed(m, m.bootAttemptId);
    AppendWithoutFault(d.journal, c);
    AppendReads(d.journal, c, NoFault);
    StepKeeps(d, DoReady(true, NoFault));
    StepKeeps(d1, DoReady(false, NoFault));
  }

  lemma RunOneStep(states: seq<Device>, steps: seq<Step>, step: Step, d: Device)
    requires DeviceRun(states, steps) && LegalStep(states[|steps|], step) && d == Apply(states[|steps|], step)
    ensures DeviceRun(states + [d], steps + [step])
  {
    hide LegalStep, Apply;
    var states', steps' := states + [d], steps + [step];
    forall i | 0 <= i < |steps'| ensures DeviceStepAt(states', steps', i) {
      if i < |steps| {
        assert DeviceStepAt(states, steps, i);
      }
    }
  }

  lemma SwitchedOff(d: Device)
    requires Sized(d.journal, d.flash)
    ensures LegalStep(d, PowerCycle) && Apply(d, PowerCycle) == d.(mode := Off)
  {
  }

  const FACTORY_FLASH: seq<u8> := Le32(0x2000_1000) + Le32(0x8001) + ErasedBytes(REGION - 8)

  function FactoryMetadata(): Metadata {
    Metadata(STATE_VALID, 8, Crc32(FACTORY_FLASH[..8]), 1, 1, 0, 0, 0)
  }

  function FactoryDevice(): Device {
    Device(Pages(ErasedPage()[0 := Complete(Body(1, FactoryMetadata()))], ErasedPage()), FACTORY_FLASH, Off)
  }

  lemma FactoryWaits()
    ensures Initial(FactoryDevice()) && Waiting(FactoryDevice(), FactoryMetadata())
  {
    hide Crc32, Inv, Read, Complete, ErasedPage, Body, Le32, Load32;
    var d, m := FactoryDevice(), FactoryMetadata();
    assert d.flash[0..4] == Le32(0x2000_1000) && d.flash[4..8] == Le32(0x8001);
    LoadStored32(d.flash, 0, 0x2000_1000);
    LoadStored32(d.flash, 4, 0x8001);
    assert FactoryRecord(d, m);
    FactoryIsInv(m);
    InitialIsInv(d);
  }

  /** A boot that is never confirmed, and the power cycle that ends it. */
  lemma Aborted(states: seq<Device>, steps: seq<Step>, m: Metadata) returns (states': seq<Device>, steps': seq<Step>)
    requires DeviceRun(states, steps) && Waiting(states[|steps|], m) && m.unconfirmedBootCount < BOOT_FAILURE_LIMIT
    ensures steps' == steps + [DoBoot(NoFault), PowerCycle]
    ensures DeviceRun(states', steps') && states'[0] == states[0]
    ensures Waiting(states'[|steps'|], Attempt(m)) && Lead(Attempt(m)) == Lead(m) + 1
    ensures Attempt(m).unconfirmedBootCount == m.unconfirmedBootCount + 1
  {
    hide LegalStep, Apply, Waiting, Lead, DeviceStepAt;
    var d1 := Started(states[|steps|], m);
    RunOneStep(states, steps, DoBoot(NoFault), d1);
    WaitingIsSized(d1.(mode := Off), Attempt(m));
    SwitchedOff(d1);
    RunOneStep(states + [d1], steps + [DoBoot(NoFault)], PowerCycle, d1.(mode := Off));
    states', steps' := states + [d1] + [d1.(mode := Off)], steps + [DoBoot(NoFault)] + [PowerCycle];
  }

  lemma WaitingIsSized(d: Device, m: Metadata)
    requires Waiting(d, m)
    ensures Sized(d.journal, d.flash)
  {
    hide Ordered, NoValidBeyond, Read, IsApplicationImageValid;
  }

  /** A boot that is confirmed. */
  lemma Completed(states: seq<Device>, steps: seq<Step>, m: Metadata) returns (states': seq<Device>, steps': seq<Step>)
    requires DeviceRun(states, steps) && Waiting(states[|steps|], m) && m.unconfirmedBootCount < BOOT_FAILURE_LIMIT
    ensures steps' == steps + [DoBoot(NoFault), DoReady(true, NoFault), DoReady(false, NoFault), PowerCycle]
    ensures DeviceRun(states', steps') && states'[0] == states[0]
    ensures var c := Confirmed(Attempt(m), Attempt(m).bootAttemptId);
      Waiting(states'[|steps'|], c) && Lead(c) == 0 && c.unconfirmedBootCount == m.unconfirmedBootCount
  {
    hide LegalStep, Apply, Waiting, DeviceStepAt;
    var d1 := Started(states[|steps|], m);
    LeadBounds(m);
    LeadBounds(Attempt(m));
    var d2, d3 := BothReady(d1, Attempt(m));
    var c := Confirmed(Attempt(m), Attempt(m).bootAttemptId);
    WaitingIsSized(d3.(mode := Off), c);
    SwitchedOff(d3);
    var t1, t2 := steps + [DoBoot(NoFault)], steps + [DoBoot(NoFault)] + [DoReady(true, NoFault)];
    RunOneStep(states, steps, DoBoot(NoFault), d1);
    RunOneStep(states + [d1], t1, DoReady(true, NoFault), d2);
    RunOneStep(states + [d1] + [d2], t2, DoReady(false, NoFault), d3);
    RunOneStep(states + [d1] + [d2] + [d3], t2 + [DoReady(false, NoFault)], PowerCycle, d3.(mode := Off));
    states', steps' := states + [d1] + [d2] + [d3] + [d3.(mode := Off)], t2 + [DoReady(false, NoFault)] + [PowerCycle];
  }

  const TWO_ABORTED := [DoBoot(NoFault), PowerCycle, DoBoot(NoFault), PowerCycle]

  const CONFIRMED_BETWEEN :=
    [DoBoot(NoFault), PowerCycle, DoBoot(NoFault), DoReady(true, NoFault), DoReady(false, NoFault), PowerCycle]

  lemma AbortedThenConfirmed(d: Device, m: Metadata) returns (states: seq<Device>, c: Metadata)
    requires Waiting(d, m) && m.unconfirmedBootCount == 0
    ensures DeviceRun(states, CONFIRMED_BETWEEN) && states[0] == d
    ensures Waiting(states[6], c) && Lead(c) == 0 && c.unconfirmedBootCount == 1
  {
    hide LegalStep, Apply, Lead, DeviceStepAt, Waiting, Attempt, Confirmed;
    var steps: seq<Step> := [];
    states := [d];
    states, steps := Aborted(states, steps, m);
    states, steps := Completed(states, steps, Attempt(m));
    c := Confirmed(Attempt(Attempt(m)), Attempt(Attempt(m)).bootAttemptId);
    assert steps == CONFIRMED_BETWEEN;
  }

  lemma TwoAborted(states: seq<Device>, steps: seq<Step>, m: Metadata) returns (states': seq<Device>, n: Metadata)
    requires DeviceRun(states, steps) && Waiting(states[|steps|], m) && m.unconfirmedBootCount == 1 && Lead(m) == 0
    ensures DeviceRun(states', steps + TWO_ABORTED) && states'[0] == states[0]
    ensures Waiting(states'[|steps| + 4], n) && Lead(n) == 2 && n.unconfirmedBootCount == 3
  {
    hide LegalStep, Apply, Lead, DeviceStepAt, Waiting, Attempt;
    var steps' := steps;
    states', steps' := Aborted(states, steps, m);
    states', steps' := Aborted(states', steps', Attempt(m));
    n := Attempt(Attempt(m));
    assert steps' == steps + TWO_ABORTED;
  }

  /** The documented rule fails: after one confirmed boot, two consecutive unconfirmed ones are enough for
      the next boot of a good image to end in the updater. */
  lemma TwoConsecutiveEndInUpdater() returns (states: seq<Device>)
    ensures DeviceRun(states, CONFIRMED_BETWEEN + TWO_ABORTED + [DoBoot(NoFault)]) && Initial(states[0])
    ensures var d := states[11];
      && d.mode.Updating? && |d.flash| == REGION && Read(d.journal).Some?
      && var m := Read(d.journal).value;
         && m.state == STATE_VALID && IsApplicationImageValid(m, d.flash)
         && Lead(m) == 2 && m.unconfirmedBootCount == 3
         && d.mode.session.metadata == m
  {
    hide LegalStep, Apply, Lead, DeviceStepAt, Initial, IsApplicationImageValid, DeviceInv, Read, FactoryDevice, Waiting,
         FactoryMetadata;
    FactoryWaits();
    NewMetadata();
    var c, m;
    states, c := AbortedThenConfirmed(FactoryDevice(), FactoryMetadata());
    states, m := TwoAborted(states, CONFIRMED_BETWEEN, c);
    var d := LimitReached(states[10], m);
    RunOneStep(states, CONFIRMED_BETWEEN + TWO_ABORTED, DoBoot(NoFault), d);
    states := states + [d];
  }

  lemma NewMetadata()
    ensures FactoryMetadata().unconfirmedBootCount == 0
  {
    hide Crc32;
  }

  lemma LimitReached(d: Device, m: Metadata) returns (d': Device)
    requires Waiting(d, m) && m.unconfirmedBootCount >= BOOT_FAILURE_LIMIT
    ensures LegalStep(d, DoBoot(NoFault)) && d' == Apply(d, DoBoot(NoFault))
    ensures d'.mode.Updating? && |d'.flash| == REGION && Read(d'.journal) == Some(m)
    ensures d'.mode.session.metadata == m
    ensures m.state == STATE_VALID && IsApplicationImageValid(m, d'.flash)
  {
    hide Ordered, NoValidBeyond, Append, Read, IsApplicationImageValid, ImageOk, StoredOk;
    d' := Apply(d, DoBoot(NoFault));
  }

  const NO_FAULTS := StepFault(NoFault, FlashOk)

  function SetRoleFrame(role: u32, sequence: u16): Frame { Frame(SET_ROLE, sequence, Le32(role)) }

  /** SET_ROLE without a fault, on a good image, is answered COMPLETE. */
  lemma SetRoleCompletes(d: Device, role: u32, sequence: u16)
    requires DeviceInv(d) && d.mode.Updating? && IsValidAppRole(role)
    requires IsApplicationImageValid(d.mode.session.metadata, d.flash)
    ensures var f := SetRoleFrame(role, sequence);
      && LegalStep(d, DoFrame(f, NO_FAULTS))
      && Handle(d.journal, d.flash, d.mode.session, f, NO_FAULTS).next == Reboot(Frame(COMPLETE, sequence, []))
  {
    hide Ordered, NoValidBeyond, Append, Read, IsApplicationImageValid, Load32, Le32, ImageOk, StoredOk;
    var m := d.mode.session.metadata;
    Load32Le32(role);
    AppendWithoutFault(d.journal, m.(state := STATE_VALID, appRole := role));
  }

  /** And a completed set-role does not always return to the application: at the end of the same run
      SET_ROLE is answered COMPLETE, and the next boot ends in the updater. */
  lemma SetRoleStaysInUpdater(role: u32, sequence: u16) returns (states: seq<Device>, steps: seq<Step>)
    requires IsValidAppRole(role)
    ensures steps == CONFIRMED_BETWEEN + TWO_ABORTED
                     + [DoBoot(NoFault), DoFrame(SetRoleFrame(role, sequence), NO_FAULTS), DoBoot(NoFault)]
    ensures DeviceRun(states, steps) && Initial(states[0])
    ensures states[11].mode.Updating? && Sized(states[11].journal, states[11].flash)
    ensures Handle(states[11].journal, states[11].flash, states[11].mode.session, SetRoleFrame(role, sequence), NO_FAULTS).next
         == Reboot(Frame(COMPLETE, sequence, []))
    ensures states[13].mode.Updating?
  {
    hide LegalStep, Apply, Lead, DeviceStepAt, Initial, IsApplicationImageValid, Read, Inv, Handle, Boot;
    states := TwoConsecutiveEndInUpdater();
    steps := CONFIRMED_BETWEEN + TWO_ABORTED + [DoBoot(NoFault)];
    var d, f := states[11], SetRoleFrame(role, sequence);
    RunsKeepInvariant(states, steps, 11);
    SetRoleCompletes(d, role, sequence);
    LegalIsEnabled(d, DoFrame(f, NO_FAULTS));
    SetRoleKeepsLimit(d, f, NO_FAULTS, NoFault);
    var d1 := Apply(d, DoFrame(f, NO_FAULTS));
    StepKeeps(d, DoFrame(f, NO_FAULTS));
    var d2 := BootLegally(d1);
    RunOneStep(states, steps, DoFrame(f, NO_FAULTS), d1);
    RunOneStep(states + [d1], steps + [DoFrame(f, NO_FAULTS)], DoBoot(NoFault), d2);
    states, steps := states + [d1] + [d2], steps + [DoFrame(f, NO_FAULTS)] + [DoBoot(NoFault)];
  }

  lemma BootLegally(d: Device) returns (d': Device)
    requires d.mode == Off && Sized(d.journal, d.flash)
    ensures LegalStep(d, DoBoot(NoFault)) && d' == Apply(d, DoBoot(NoFault)) == Boot(d, NoFault)
  {
    hide Append, Read, IsApplicationImageValid;
    d' := Apply(d, DoBoot(NoFault));
  }
}
