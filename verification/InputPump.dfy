/** The asynchronous input pump: completion interrupts filling a ring buffer while a reader drains it.

    The mirror image of the output pump, with the differences the drivers make: a file asks for more only
    when a quarter of the buffer is free, stores what came with an error, and holds the buffer locked around
    a whole read.  The reader's library calls are cut into the steps between which an interrupt can arrive. */
module InputPump {
  import opened Rings
  import opened Chains
  import Pump

  datatype Slot = Empty | CallRecv | CallDone

  datatype Resume = ToIdle | ToReading

  /** Where a callback run by Release has got to. */
  datatype Callback = DoneTop | DoneValid | RecvTop | RecvBranch(free: nat) | RecvIssue

  /** Where the reader is. */
  datatype Pc =
    | Idle
    | Showing(want: nat)         // in ConsumeBuffer, after Lock
    | Reading                    // between ConsumeBuffer and FreeBuffer
    | Freeing(len: nat)          // in FreeBuffer, after Lock
    | Releasing(next: Resume)    // before the decrement in Release
    | Testing(next: Resume)      // between the decrement and the test of the slot
    | Calling(at: Callback, next: Resume)

  /** `held` counts the reader's own Locks around library calls; `locked` is `fLocked`, those included.
      `offset`, `length` and `good` are the parameter block: the region of the request and, once it is
      completed, how much of it was filled and whether the result was noErr.  `arrived` is what the device
      handed over, `stored` what was put into the buffer, `taken` what the reader got. */
  datatype State = State(
    driver: Pump.Driver, ring: Ring, bytes: seq<Byte>, front: nat, shown: nat, pc: Pc,
    held: nat, locked: int, slot: Slot, offset: nat, length: nat, good: bool, flying: nat, shutdown: bool,
    arrived: seq<Byte>, stored: seq<Byte>, taken: seq<Byte>)

  /** Arrive is the device writing into the region of its request.  Shutdown is the notification of a
      closing peer or a call of the user; `pos` is the file position a file driver looks at. */
  datatype Event =
    | Read(want: nat)
    | FinishRead(len: nat)
    | Hold         // Lock by the reader itself
    | LetGo        // and the matching Release
    | Shutdown
    | Advance(pos: nat)
    | Arrive(at: nat, data: seq<Byte>)
    | Complete(actual: nat, good: bool, pos: nat)

  // ----- the request size -----

  /** The free space below which no request is made. */
  function Threshold(d: Pump.Driver, size: nat): nat {
    if d.MacFile? then size / 4 else 1
  }

  function Wanted(d: Pump.Driver, free: nat, size: nat): nat {
    if d.MacFile? then Min(free, size / 2) else Min(free, Min(65535, size / 2))
  }

  lemma AlignedBounds(d: Pump.Driver, len: nat, pos: nat)
    ensures 0 <= Pump.Aligned(d, len, pos) <= len && (Pump.Aligned(d, len, pos) == 0 <==> len == 0)
  {
    if d.MacFile? && d.blockSize > 0 {
      Pump.RemainderBelow(pos, d.blockSize);
      Pump.RemainderBelow(len, d.blockSize);
    }
  }

  /** What the receive routine asks ProduceBuffer for. */
  function Demand(d: Pump.Driver, r: Ring, pos: nat): nat {
    AlignedBounds(d, Wanted(d, r.free, r.size), pos + r.valid);
    Pump.Aligned(d, Wanted(d, r.free, r.size), pos + r.valid)
  }

  lemma DemandBounds(d: Pump.Driver, r: Ring, pos: nat)
    ensures Demand(d, r, pos) <= r.free
    ensures Demand(d, r, pos) > 0 <==> r.free > 0 && r.size >= 2
  {
    AlignedBounds(d, Wanted(d, r.free, r.size), pos + r.valid);
  }

  /** How much is asked for: half the buffer and what is free, for sockets at most 65535 bytes; for files
      up to the end of a block or in whole blocks. */
  lemma DemandExactly(d: Pump.Driver, r: Ring, pos: nat)
    ensures var len := Wanted(d, r.free, r.size); var n := Demand(d, r, pos);
      && n <= len && 2 * len <= r.size && (d.MacFile? || len <= 65535)
      && (len == r.free || len == r.size / 2 || (!d.MacFile? && len == 65535))
      && (!d.MacFile? ==> n == len)
      && (d.MacFile? && d.blockSize > 0 ==> Pump.OnBlocks(len, n, pos + r.valid, d.blockSize))
  {
    AlignedBounds(d, Wanted(d, r.free, r.size), pos + r.valid);
    if d.MacFile? && d.blockSize > 0 { Pump.AlignedOnBlocks(d, Wanted(d, r.free, r.size), pos + r.valid); }
  }

  function SmallestSize(d: Pump.Driver): nat {
    if d.MacFile? then 4 else 2
  }

  /** A driver never issues an empty request exactly if the buffer has at least two bytes, or four for a
      file: a quarter of a smaller one is zero, and a full buffer would be read into. */
  lemma RequestNeverEmpty(d: Pump.Driver, size: nat, pos: nat)
    requires size >= 1
    ensures size >= SmallestSize(d) <==>
      forall r :: WellFormed(r) && r.size == size && r.free >= Threshold(d, size) ==> Reserve(r, Demand(d, r, pos)).1 > 0
  {
    var full := Ring(size, 0, 0, 0, size, 0, false);
    assert WellFormed(full) && WellFormed(Fresh(size));
    if size < SmallestSize(d) {
      var r := if d.MacFile? then full else Fresh(size);
      DemandBounds(d, r, pos);
      assert Reserve(r, Demand(d, r, pos)).1 == 0;
    }
    forall r | WellFormed(r) && r.size == size && size >= SmallestSize(d) && r.free >= Threshold(d, size)
      ensures Reserve(r, Demand(d, r, pos)).1 > 0
    {
      DemandBounds(d, r, pos);
      ReserveKeepsStream(r, Demand(d, r, pos), seq(size, i => 0));
    }
  }

  // ----- steps -----

  function Back(next: Resume): Pc {
    if next.ToIdle? then Pc.Idle else Reading
  }

  predicate Looking(pc: Pc) {
    match pc
    case Reading => true
    case Freeing(_) => true
    case Releasing(t) => t.ToReading?
    case Testing(t) => t.ToReading?
    case Calling(_, t) => t.ToReading?
    case _ => false
  }

  /** What came with an error is stored by the file driver only. */
  predicate Accepts(s: State) {
    s.driver.MacFile? || s.good
  }

  predicate InBounds(s: State) {
    WellFormed(s.ring) && |s.bytes| == s.ring.size && Reserved(s.ring, s.length) && s.offset == s.ring.produce
  }

  /** The bytes of the region that count as received. */
  function Received(s: State): seq<Byte>
    requires InBounds(s)
  {
    if Accepts(s) then s.bytes[s.offset..s.offset + s.length] else []
  }

  /** ValidBuffer of the completed request. */
  function Validated(s: State): State
    requires InBounds(s)
  {
    if Accepts(s) then s.(ring := Commit(s.ring, s.length), stored := s.stored + Received(s)) else s
  }

  /** Does the completion routine ask for more? */
  predicate GoesOn(s: State) {
    s.good && !(s.driver.MacFile? && s.shutdown)
  }

  /** The receive routine without room: wait for some, unless a file was shut down. */
  function Full(s: State): State {
    s.(slot := if s.driver.MacFile? && s.shutdown then Empty else CallRecv)
  }

  /** ProduceBuffer and the parameter block. */
  function Prepared(s: State, pos: nat): State
    requires WellFormed(s.ring)
  {
    var (r, part) := Reserve(s.ring, Demand(s.driver, s.ring, pos));
    s.(slot := Empty, ring := r, offset := r.produce, length := part)
  }

  /** The receive routine at interrupt level, in one step. */
  function RecvNow(s: State, pos: nat): State
    requires WellFormed(s.ring)
  {
    if s.ring.free < Threshold(s.driver, s.ring.size) then Full(s)
    else var p := Prepared(s, pos); p.(flying := p.flying + 1)
  }

  /** The completion routine, called by the device. */
  function Completed(s: State, pos: nat): State
    requires InBounds(s)
  {
    if s.locked != 0 then s.(slot := CallDone)
    else
      CommitWellFormed(s.ring, s.length);
      var t := Validated(s.(slot := Empty));
      if GoesOn(t) then RecvNow(t, pos) else if t.good then t else t.(shutdown := true)
  }

  /** The device is done. */
  function Landed(s: State, actual: nat, good: bool): State
    requires InBounds(s) && actual <= s.length
  {
    var t := s.(flying := if s.flying > 0 then s.flying - 1 else 0, length := actual, good := good);
    t.(arrived := t.arrived + if t.driver.MacFile? || good then t.bytes[t.offset..t.offset + actual] else [])
  }

  /** The next step of a callback that Release runs on the reader's own level. */
  function CallbackStep(s: State, pos: nat): State
    requires s.pc.Calling? && WellFormed(s.ring) && (s.pc.at.DoneValid? ==> InBounds(s))
  {
    var next := s.pc.next;
    match s.pc.at
    case DoneTop =>
      if s.locked != 0 then s.(slot := CallDone, pc := Back(next))
      else s.(slot := Empty, pc := Calling(DoneValid, next))
    case DoneValid =>
      var t := Validated(s);
      if GoesOn(t) then t.(pc := Calling(RecvTop, next))
      else t.(shutdown := t.shutdown || !t.good, pc := Back(next))
    case RecvTop => s.(pc := Calling(RecvBranch(s.ring.free), next))
    case RecvBranch(free) =>
      if free < Threshold(s.driver, s.ring.size) then Full(s).(pc := Back(next))
      else Prepared(s, pos).(pc := Calling(RecvIssue, next))
    case RecvIssue => s.(flying := s.flying + 1, pc := Back(next))
  }

  predicate AdvanceReady(s: State) {
    && WellFormed(s.ring) && (s.pc.Calling? && s.pc.at.DoneValid? ==> InBounds(s))
    && (s.pc.Freeing? ==> s.pc.len <= s.ring.valid && (s.pc.len > 0 ==> s.front + s.pc.len <= |s.bytes|))
  }

  /** The next step of the library call the reader is in. */
  function AdvanceStep(s: State, pos: nat): State
    requires AdvanceReady(s)
  {
    match s.pc
    case Idle => s
    case Reading => s
    case Showing(want) =>
      RunNotNegative(s.ring);
      s.(front := s.ring.consume, shown := Min(want, Run(s.ring)), pc := Releasing(ToReading))
    case Freeing(len) =>
      s.(taken := s.taken + (if len == 0 then [] else s.bytes[s.front..s.front + len]),
         ring := Release(s.ring, len), shown := 0, pc := Releasing(ToIdle))
    case Releasing(next) => s.(locked := s.locked - 1, pc := Testing(next))
    case Testing(next) =>
      if s.locked <= 0 && s.slot != Empty then
        s.(pc := Calling(if s.slot.CallRecv? then RecvTop else DoneTop, next))
      else s.(pc := Back(next))
    case Calling(_, _) => CallbackStep(s, pos)
  }

  lemma RunNotNegative(r: Ring)
    requires WellFormed(r)
    ensures 0 <= Run(r) <= r.valid
  {
  }

  predicate Enabled(s: State, e: Event) {
    match e
    case Read(_) => s.pc.Idle?
    case FinishRead(len) => s.pc.Reading? && len <= s.shown
    case Hold => s.pc.Idle?
    case LetGo => s.pc.Idle? && s.held > 0
    case Shutdown => true
    case Advance(_) => true
    case Arrive(at, data) => s.flying > 0 && at + |data| <= s.length
    case Complete(actual, _, _) => s.flying > 0 && actual <= s.length
  }

  // ----- the invariant -----

  predicate Basic(s: State) {
    && WellFormed(s.ring) && s.ring.size >= SmallestSize(s.driver) && |s.bytes| == s.ring.size
    && s.locked == s.held + (if s.pc.Showing? || s.pc.Freeing? || s.pc.Releasing? then 1 else 0)
    && (Looking(s.pc) ==> s.shown <= Run(s.ring) && (s.shown > 0 ==> s.front == s.ring.consume))
    && (s.pc.Freeing? ==> s.pc.len <= s.shown)
    && s.stored == s.taken + Pending(s.ring, s.bytes)
  }

  /** Somebody will look at the slot: the reader still has to go through Release. */
  predicate WillTest(s: State) {
    s.held > 0 || s.pc.Showing? || s.pc.Freeing? || s.pc.Releasing? || s.pc.Testing?
  }

  /** A completed request that was not put into the buffer yet. */
  predicate Waiting(s: State) {
    InBounds(s) && s.arrived == s.stored + Received(s)
  }

  predicate Requested(s: State) {
    InBounds(s) && s.length >= 1 && s.arrived == s.stored
  }

  /** Exactly one of: a request in flight; its completion deferred; the receive routine waiting in the slot
      for room; a callback running; closed for good. */
  predicate Phase(s: State) {
    if s.pc.Calling? then
      && s.flying == 0 && s.held == 0
      && match s.pc.at
         case DoneTop => s.slot.CallDone? && Waiting(s)
         case DoneValid => s.slot.Empty? && Waiting(s)
         case RecvTop => !s.slot.CallDone? && s.arrived == s.stored
         case RecvBranch(free) => !s.slot.CallDone? && s.arrived == s.stored && free == s.ring.free
         case RecvIssue => s.slot.Empty? && Requested(s)
    else if s.flying > 0 then s.flying == 1 && s.slot.Empty? && Requested(s)
    else match s.slot
      case CallDone => WillTest(s) && Waiting(s)
      case CallRecv => s.arrived == s.stored && (s.ring.free < Threshold(s.driver, s.ring.size) || WillTest(s))
      case Empty => s.arrived == s.stored && s.shutdown
  }

  predicate Inv(s: State) {
    Basic(s) && Phase(s)
  }

  lemma InvReady(s: State)
    requires Inv(s)
    ensures AdvanceReady(s)
  {
    if s.pc.Freeing? { RunIsFront(s.ring, s.pc.len, s.bytes); }
  }

  function Step(s: State, e: Event): State
    requires Inv(s)
  {
    if !Enabled(s, e) then s else
      match e
      case Read(want) => s.(locked := s.locked + 1, pc := Showing(want))
      case FinishRead(len) => s.(locked := s.locked + 1, pc := Freeing(len))
      case Hold => s.(held := s.held + 1, locked := s.locked + 1)
      case LetGo => s.(held := s.held - 1, pc := Releasing(ToIdle))
      case Shutdown => s.(shutdown := true)
      case Advance(pos) =>
        InvReady(s);
        AdvanceStep(s, pos)
      case Arrive(at, data) => s.(bytes := Written(s.bytes, s.offset + at, data))
      case Complete(actual, good, pos) => Completed(Landed(s, actual, good), pos)
  }

  /** What the reader looks at is the front of the stream. */
  lemma ShownIsFront(s: State)
    requires Inv(s) && s.pc.Freeing?
    ensures s.pc.len <= Run(s.ring) && s.pc.len <= s.ring.valid
    ensures s.pc.len > 0 ==> s.front == s.ring.consume && s.front + s.pc.len <= |s.bytes|
    ensures s.pc.len > 0 ==> s.bytes[s.front..s.front + s.pc.len] == Pending(s.ring, s.bytes)[..s.pc.len]
  {
    RunIsFront(s.ring, s.pc.len, s.bytes);
  }

  /** A connected socket (or open file) with an empty buffer, after the first call of the receive routine. */
  function Start(d: Pump.Driver, size: nat, bytes: seq<Byte>, pos: nat): State
    requires size >= 1
  {
    RecvNow(State(d, Fresh(size), bytes, 0, 0, Pc.Idle, 0, 0, Empty, 0, 0, true, 0, false, [], [], []), pos)
  }

  lemma StartInv(d: Pump.Driver, size: nat, bytes: seq<Byte>, pos: nat)
    requires size >= SmallestSize(d) && |bytes| == size
    ensures var s := Start(d, size, bytes, pos);
      && Inv(s) && Quiet(s) && s.pc.Idle? && !s.shutdown && s.flying == 1 && s.held == 0
      && s.arrived == s.stored == s.taken == []
  {
    DemandBounds(d, Fresh(size), pos);
  }

  // ----- every step keeps it -----

  lemma ArriveInv(s: State, at: nat, data: seq<Byte>)
    requires Inv(s) && Enabled(s, Arrive(at, data))
    ensures Inv(Step(s, Arrive(at, data)))
  {
    var t := Step(s, Arrive(at, data));
    WriteKeepsPending(s.ring, s.length, s.bytes, t.bytes);
  }

  lemma ReaderInv(s: State, e: Event)
    requires Inv(s) && Enabled(s, e) && (e.Read? || e.FinishRead? || e.Hold? || e.LetGo? || e.Shutdown?)
    ensures Inv(Step(s, e))
  {
    hide Pending, Run, WellFormed;
  }

  lemma ShowInv(s: State, pos: nat)
    requires Inv(s) && AdvanceReady(s) && s.pc.Showing?
    ensures Inv(AdvanceStep(s, pos))
  {
    hide Pending;
    RunNotNegative(s.ring);
  }

  /** FreeBuffer moves the bytes the reader saw from the front of the stream to the reader. */
  lemma FreeInv(s: State, pos: nat)
    requires Inv(s) && AdvanceReady(s) && s.pc.Freeing?
    ensures Inv(AdvanceStep(s, pos))
  {
    hide Pending, Release, WellFormed, Run;
    ShownIsFront(s);
    ReleaseDrops(s.ring, s.pc.len, s.bytes);
    var p := Pending(s.ring, s.bytes);
    assert p == p[..s.pc.len] + p[s.pc.len..];
    AppendAssociates(s.taken, p[..s.pc.len], p[s.pc.len..]);
  }

  lemma ReleaseStepsInv(s: State, pos: nat)
    requires Inv(s) && AdvanceReady(s) && (s.pc.Releasing? || s.pc.Testing?)
    ensures Inv(AdvanceStep(s, pos))
  {
    hide WellFormed, Pending, Run, CallbackStep, Reserved, Threshold, SmallestSize, Release, Demand;
  }

  /** ValidBuffer appends what was received to the stream and leaves the reader's view alone. */
  lemma ValidatedInv(s: State)
    requires Basic(s) && Waiting(s)
    ensures var t := Validated(s); Basic(t) && t.arrived == t.stored
  {
    hide Commit, WellFormed, Pending, Run;
    if Accepts(s) {
      CommitAppends(s.ring, s.length, s.bytes);
      AppendAssociates(s.taken, Pending(s.ring, s.bytes), Received(s));
    }
  }

  /** ProduceBuffer finds room for a non-empty request and leaves the reader's view alone. */
  lemma PreparedInv(s: State, pos: nat)
    requires Basic(s) && s.arrived == s.stored && s.ring.free >= Threshold(s.driver, s.ring.size)
    ensures var t := Prepared(s, pos); Basic(t) && Requested(t)
  {
    hide WellFormed, Pending, Run, Reserve, Demand;
    DemandBounds(s.driver, s.ring, pos);
    ReserveKeepsStream(s.ring, Demand(s.driver, s.ring, pos), s.bytes);
    RunNotNegative(s.ring);
    RunNotNegative(Prepared(s, pos).ring);
  }

  lemma RecvNowInv(s: State, pos: nat)
    requires Basic(s) && s.arrived == s.stored && s.flying == 0 && !s.pc.Calling?
    ensures Inv(RecvNow(s, pos))
  {
    hide WellFormed, Pending, Run, Prepared;
    if s.ring.free >= Threshold(s.driver, s.ring.size) {
      PreparedInv(s, pos);
      PreparedKeeps(s, pos);
    }
  }

  lemma PreparedKeeps(s: State, pos: nat)
    requires WellFormed(s.ring)
    ensures var t := Prepared(s, pos); t.pc == s.pc && t.held == s.held && t.flying == s.flying && t.slot.Empty?
  {
  }

  lemma CompleteInv(s: State, actual: nat, good: bool, pos: nat)
    requires Inv(s) && Enabled(s, Complete(actual, good, pos))
    ensures Inv(Step(s, Complete(actual, good, pos)))
  {
    hide WellFormed, Pending, Run, RecvNow;
    var t := Landed(s, actual, good);
    assert Basic(t) && Waiting(t);
    if s.locked == 0 {
      var u := t.(slot := Empty);
      assert Waiting(u);
      ValidatedInv(u);
      if GoesOn(Validated(u)) { RecvNowInv(Validated(u), pos); }
    }
  }

  lemma InvInBounds(s: State)
    requires Inv(s) && s.flying > 0
    ensures InBounds(s) && s.offset + s.length <= |s.bytes| && s.arrived == s.stored
  {
  }

  lemma RecvNowKeeps(s: State, pos: nat)
    requires WellFormed(s.ring)
    ensures RecvNow(s, pos).stored == s.stored && RecvNow(s, pos).arrived == s.arrived
  {
  }

  lemma CompletedStores(s: State, pos: nat)
    requires InBounds(s)
    ensures var t := Completed(s, pos);
      && t.arrived == s.arrived
      && t.stored == s.stored + if s.locked == 0 && (s.driver.MacFile? || s.good)
                                then s.bytes[s.offset..s.offset + s.length] else []
  {
    hide WellFormed, Pending, Run, RecvNow, Commit;
    CommitWellFormed(s.ring, s.length);
    if s.locked == 0 { RecvNowKeeps(Validated(s.(slot := Empty)), pos); }
  }

  /** What a completion brings, and what is in the buffer when it ran undeferred: everything that was read,
      also with an error if it is a file (the end of the file is such an error), and nothing otherwise. */
  lemma CompletionStores(s: State, actual: nat, good: bool, pos: nat)
    requires Inv(s) && Enabled(s, Complete(actual, good, pos))
    ensures s.offset + actual <= |s.bytes|
    ensures var t := Step(s, Complete(actual, good, pos));
      var data := if s.driver.MacFile? || good then s.bytes[s.offset..s.offset + actual] else [];
      t.arrived == s.arrived + data && t.stored == s.stored + if s.locked == 0 then data else []
  {
    hide WellFormed, Pending, Run, Completed, Inv;
    InvInBounds(s);
    CompletedStores(Landed(s, actual, good), pos);
  }

  /** A completion that runs undeferred asks for more exactly if there was no error, a file is not shut down,
      and there is room; an error shuts the reading side down. */
  lemma CompletionGoesOn(s: State, actual: nat, good: bool, pos: nat)
    requires Inv(s) && Enabled(s, Complete(actual, good, pos))
    ensures var t := Step(s, Complete(actual, good, pos));
      && (t.flying == 1 <==> s.locked == 0 && good && !(s.driver.MacFile? && s.shutdown)
                             && s.ring.free - actual >= (if s.driver.MacFile? then s.ring.size / 4 else 1))
      && (t.slot.CallDone? <==> s.locked != 0)
      && (t.shutdown <==> s.shutdown || (s.locked == 0 && !good))
      && t.pc == s.pc
  {
    hide WellFormed, Pending, Run, Reserve, Demand;
    InvInBounds(s);
    if s.locked == 0 { CommitWellFormed(s.ring, actual); }
  }

  /** The same for one that was deferred, when the reader's Release gets to it. */
  lemma DeferredGoesOn(s: State, pos: nat)
    requires Inv(s) && s.pc.Calling? && s.pc.at.DoneValid?
    ensures WellFormed(s.ring)
    ensures var t := CallbackStep(s, pos);
      && t.stored == t.arrived == s.arrived && t.flying == 0
      && (t.shutdown <==> s.shutdown || !s.good)
      && t.pc == if s.good && !(s.driver.MacFile? && s.shutdown) then Calling(RecvTop, s.pc.next) else Back(s.pc.next)
  {
    hide Pending, Run;
  }

  lemma CallbackInv(s: State, pos: nat)
    requires Inv(s) && s.pc.Calling?
    ensures Inv(CallbackStep(s, pos))
  {
    hide WellFormed, Pending, Run, Prepared, Validated, Reserved, SmallestSize;
    match s.pc.at
    case DoneTop =>
    case DoneValid => ValidatedInv(s); ValidatedKeeps(s);
    case RecvTop =>
    case RecvBranch(free) =>
      if free >= Threshold(s.driver, s.ring.size) { PreparedInv(s, pos); PreparedKeeps(s, pos); }
    case RecvIssue =>
  }

  lemma ValidatedKeeps(s: State)
    requires InBounds(s)
    ensures var t := Validated(s);
      t == s.(ring := t.ring, stored := t.stored)
  {
  }

  lemma AdvanceInv(s: State, pos: nat)
    requires Inv(s) && AdvanceReady(s)
    ensures Inv(AdvanceStep(s, pos))
  {
    match s.pc
    case Idle =>
    case Reading =>
    case Showing(_) => ShowInv(s, pos);
    case Freeing(_) => FreeInv(s, pos);
    case Releasing(_) => ReleaseStepsInv(s, pos);
    case Testing(_) => ReleaseStepsInv(s, pos);
    case Calling(_, _) => CallbackInv(s, pos);
  }

  lemma StepInv(s: State, e: Event)
    requires Inv(s)
    ensures Inv(Step(s, e))
  {
    if Enabled(s, e) {
      match e
      case Advance(pos) =>
        InvReady(s);
        AdvanceInv(s, pos);
      case Arrive(at, data) => ArriveInv(s, at, data);
      case Complete(actual, good, pos) => CompleteInv(s, actual, good, pos);
      case _ => ReaderInv(s, e);
    }
  }

  function Exec(s: State, es: seq<Event>): State
    requires Inv(s)
    decreases |es|
  {
    if es == [] then s else
      StepInv(s, es[0]);
      Exec(Step(s, es[0]), es[1..])
  }

  lemma {:induction false} ExecInv(s: State, es: seq<Event>)
    requires Inv(s)
    ensures Inv(Exec(s, es))
    decreases |es|
  {
    if es != [] {
      StepInv(s, es[0]);
      ExecInv(Step(s, es[0]), es[1..]);
    }
  }

  // ----- what this means -----

  /** The buffer is unlocked and no Release is about to look at the slot. */
  predicate Quiet(s: State) {
    s.locked == 0 && !s.pc.Testing? && !s.pc.Calling?
  }

  /** Outside library calls only the reader's own Locks keep the buffer locked.  Whenever it is unlocked,
      every byte that arrived was taken or waits in the buffer, in order; and unless it is shut down, a read
      is in flight whenever there is room for one and whenever the reader has nothing to read, and otherwise
      the receive routine is armed.  A read in flight leaves no callback armed. */
  lemma {:induction false} InputNeverStalls(s: State, es: seq<Event>)
    requires Inv(s)
    ensures var end := Exec(s, es);
      && Inv(end)
      && (end.pc.Idle? || end.pc.Reading? ==> end.locked == end.held)
      && (Quiet(end) ==>
            && end.flying <= 1 && (end.flying == 1 ==> end.slot.Empty?)
            && end.arrived == end.taken + Pending(end.ring, end.bytes)
            && (!end.shutdown && end.ring.free >= (if end.driver.MacFile? then end.ring.size / 4 else 1) ==> end.flying == 1)
            && (!end.shutdown && end.ring.valid == 0 ==> end.flying == 1)
            && (!end.shutdown && end.flying == 0 ==> end.slot.CallRecv?))
  {
    ExecInv(s, es);
    var end := Exec(s, es);
    if end.ring.valid == 0 { EmptyHasNoTail(end.ring); }
  }

  /** At any step at most one read is in flight, and the reader got a prefix of what arrived: nothing that
      arrived is skipped, repeated or reordered, whatever is interrupted where. */
  lemma {:induction false} TakenIsPrefix(s: State, es: seq<Event>)
    requires Inv(s)
    ensures var end := Exec(s, es); end.flying <= 1 && end.taken <= end.stored <= end.arrived
  {
    ExecInv(s, es);
  }

  // ----- file reads after a shutdown -----

  /** One step of a run. */
  lemma Via(s: State, e: Event, t: State, es: seq<Event>)
    requires Inv(s) && Step(s, e) == t
    ensures Inv(t) && Exec(s, [e] + es) == Exec(t, es)
  {
    hide Step, Inv;
    StepInv(s, e);
    assert ([e] + es)[1..] == es;
  }

  /** `n` steps of the library call the reader is in, and then `es`. */
  function Steps(n: nat, es: seq<Event>): seq<Event> {
    if n == 0 then es else [Advance(0)] + Steps(n - 1, es)
  }

  /** The first of them. */
  lemma On(s: State, t: State, n: nat, es: seq<Event>)
    requires Inv(s) && n > 0 && Step(s, Advance(0)) == t
    ensures Inv(t) && Exec(s, Steps(n, es)) == Exec(t, Steps(n - 1, es))
  {
    hide Step, Inv;
    Via(s, Advance(0), t, Steps(n - 1, es));
  }

  lemma NoSteps(s: State, es: seq<Event>)
    requires Inv(s)
    ensures Steps(0, es) == es && Exec(s, []) == s
  {
  }

  /** Where a library call leads: to bytes that may be looked at, or back to its caller. */
  predicate Opens(pc: Pc) {
    pc.Showing? || (Looking(pc) && !pc.Freeing?)
  }

  function Rank(pc: Pc): nat {
    match pc
    case Idle => 0
    case Reading => 0
    case Releasing(_) => 7
    case Testing(_) => 6
    case Calling(at, _) =>
      (match at case DoneTop => 5 case DoneValid => 4 case RecvTop => 3 case RecvBranch(_) => 2 case RecvIssue => 1)
    case _ => 8
  }

  lemma CallbackDown(s: State)
    requires Inv(s) && s.pc.Calling?
    ensures var t := Step(s, Advance(0));
      Rank(t.pc) < Rank(s.pc) && Opens(t.pc) == Opens(s.pc) && t.held == s.held
  {
    hide WellFormed, Pending, Reserve, Commit, Release, Demand, Written;
    InvReady(s);
  }

  lemma OneDown(s: State)
    requires Inv(s) && Rank(s.pc) > 0
    ensures var t := Step(s, Advance(0));
      Rank(t.pc) < Rank(s.pc) && Opens(t.pc) == Opens(s.pc) && t.held == s.held
      && (s.pc.Showing? ==> t.shown == Min(s.pc.want, Run(s.ring)))
  {
    hide WellFormed, Pending, Reserve, Commit, Release, Demand, Written;
    InvReady(s);
    if s.pc.Calling? { CallbackDown(s); }
  }

  /** Every library call, undisturbed, comes to its end. */
  lemma {:induction false} CallsEnd(s: State) returns (n: nat)
    requires Inv(s)
    ensures n <= Rank(s.pc) <= 8
    ensures var t := Exec(s, Steps(n, []));
      Inv(t) && (if Opens(s.pc) then t.pc.Reading? else t.pc.Idle?) && t.held == s.held
    decreases Rank(s.pc)
  {
    hide Inv, Step, Steps;
    if Rank(s.pc) == 0 {
      n := 0;
      NoSteps(s, []);
    } else {
      var t := Step(s, Advance(0));
      OneDown(s);
      StepInv(s, Advance(0));
      n := CallsEnd(t);
      n := n + 1;
      On(s, t, n, []);
    }
  }

  /** What the reader can do between library calls: read, take as much as it was shown, hold the buffer, and
      let it go as often; and anybody can shut down. */
  lemma CallsBegin(s: State)
    requires Inv(s)
    ensures s.pc.Idle? ==> forall want: nat :: Step(s, Read(want)) == s.(locked := s.locked + 1, pc := Showing(want))
    ensures s.pc.Reading? ==> forall len: nat :: len <= s.shown ==>
              Step(s, FinishRead(len)) == s.(locked := s.locked + 1, pc := Freeing(len))
    ensures s.pc.Idle? ==> Step(s, Hold) == s.(held := s.held + 1, locked := s.locked + 1)
    ensures s.pc.Idle? && s.held > 0 ==> Step(s, LetGo) == s.(held := s.held - 1, pc := Releasing(ToIdle))
    ensures Step(s, Shutdown) == s.(shutdown := true)
    ensures s.flying > 0 ==> forall at: nat, data :: at + |data| <= s.length ==>
              Step(s, Arrive(at, data)) == s.(bytes := Written(s.bytes, s.offset + at, data))
    ensures s.flying > 0 ==> forall actual: nat, good, pos: nat :: actual <= s.length ==>
              Enabled(s, Complete(actual, good, pos))
  {
    hide WellFormed, Pending, Run, Reserve, Commit, Release, Demand, Written, Prepared, Back, Landed, Start;
  }

  /** The library calls, and when their caller may make them. */
  predicate Begins(s: State, e: Event) {
    match e
    case Read(_) => s.pc.Idle?
    case FinishRead(len) => s.pc.Reading? && len <= s.shown
    case LetGo => s.pc.Idle? && s.held > 0
    case _ => false
  }

  /** So a whole call, undisturbed, takes the reader from outside to the bytes it was shown, from there back,
      and leaves the reader's Locks as they were. */
  lemma WholeCall(s: State, e: Event) returns (n: nat)
    requires Inv(s) && Begins(s, e)
    ensures n <= 8
    ensures var t := Exec(s, [e] + Steps(n, []));
      && Inv(t) && (if e.Read? then t.pc.Reading? else t.pc.Idle?)
      && t.held == if e.LetGo? then s.held - 1 else s.held
  {
    hide Inv, Step, Steps;
    CallsBegin(s);
    StepInv(s, e);
    n := CallsEnd(Step(s, e));
    Via(s, e, Step(s, e), Steps(n, []));
  }

  /** Shut down, and nothing will start a read again. */
  predicate Finished(s: State) {
    s.shutdown && s.flying == 0 && s.slot.Empty? && !s.pc.Calling?
  }

  lemma StaysFinished(s: State, e: Event)
    requires Inv(s) && Finished(s)
    ensures Finished(Step(s, e))
  {
    hide WellFormed, Pending, Run, Reserve, Release, Demand;
  }

  lemma {:induction false} NeverReadsAgain(s: State, es: seq<Event>)
    requires Inv(s) && Finished(s)
    ensures Exec(s, es).flying == 0
    decreases |es|
  {
    if es != [] {
      StepInv(s, es[0]);
      StaysFinished(s, es[0]);
      NeverReadsAgain(Step(s, es[0]), es[1..]);
    }
  }

  /** A completed read never starts another one on a file that is shut down. */
  lemma CompletionStopsFile(s: State, actual: nat, good: bool, pos: nat)
    requires Inv(s) && s.driver.MacFile? && s.shutdown && Enabled(s, Complete(actual, good, pos))
    ensures Step(s, Complete(actual, good, pos)).flying == 0
  {
    hide WellFormed, Pending, Run, RecvNow, Prepared, Full;
    assert !GoesOn(Landed(s, actual, good));
  }

  /** Where a Release looks at the slot: exactly when that starts a read on a file that is shut down.  If the
      receive routine runs and finds too little room, that was the last time. */
  lemma ReadAtRelease(s: State)
    requires Inv(s) && s.driver.MacFile? && s.shutdown && s.pc.Testing? && s.flying == 0
    ensures Exec(s, Steps(4, [])).flying == 1 <==>
            s.locked == 0 && s.slot.CallRecv? && s.ring.free >= Threshold(s.driver, s.ring.size)
    ensures s.locked == 0 && s.slot.CallRecv? && s.ring.free < Threshold(s.driver, s.ring.size) ==>
              Finished(Exec(s, Steps(4, [])))
  {
    hide Inv, Exec, Pending, WellFormed, Run, Steps, Demand, Reserve;
    var next := s.pc.next;
    var back := s.(pc := Back(next));
    if s.locked > 0 || s.slot.Empty? {
      TestingLocks(s);
      On(s, back, 4, []);
      IdleSteps(back, 3);
    } else {
      TestingLocks(s);
      var called := s.(pc := Calling(if s.slot.CallRecv? then RecvTop else DoneTop, next));
      On(s, called, 4, []);
      if s.slot.CallRecv? { RoutineRuns(called); } else { DoneRuns(called); }
    }
  }

  lemma TestingLocks(s: State)
    requires Inv(s)
    ensures s.pc.Testing? ==> s.locked >= 0
    ensures s.pc.Idle? || s.pc.Reading? ==> s.locked == s.held
  {
  }

  lemma {:induction false} IdleSteps(s: State, n: nat)
    requires Inv(s) && (s.pc.Idle? || s.pc.Reading?)
    ensures Exec(s, Steps(n, [])) == s
    decreases n
  {
    hide Inv;
    if n == 0 {
      NoSteps(s, []);
    } else {
      IdleStep(s);
      On(s, s, n, []);
      IdleSteps(s, n - 1);
    }
  }

  lemma IdleStep(s: State)
    requires Inv(s) && (s.pc.Idle? || s.pc.Reading?)
    ensures Step(s, Advance(0)) == s
  {
  }

  lemma RoutineRuns(s: State)
    requires Inv(s) && s.driver.MacFile? && s.shutdown && s.flying == 0 && s.pc.Calling? && s.pc.at.RecvTop?
    ensures Exec(s, Steps(3, [])).flying == 1 <==> s.ring.free >= Threshold(s.driver, s.ring.size)
    ensures var t := Exec(s, Steps(3, [])); Inv(t) && t.flying <= 1
    ensures s.ring.free < Threshold(s.driver, s.ring.size) ==> Finished(Exec(s, Steps(3, [])))
  {
    hide Inv, Exec, Pending, WellFormed, Run, Steps, Prepared;
    var next := s.pc.next;
    var branch := s.(pc := Calling(RecvBranch(s.ring.free), next));
    On(s, branch, 3, []);
    InvReady(branch);
    var after := CallbackStep(branch, 0);
    On(branch, after, 2, []);
    if s.ring.free >= Threshold(s.driver, s.ring.size) {
      PreparedKeeps(branch, 0);
      var issued := after.(flying := 1, pc := Back(next));
      On(after, issued, 1, []);
      NoSteps(issued, []);
    } else {
      IdleSteps(after, 1);
    }
  }

  lemma DoneRuns(s: State)
    requires Inv(s) && s.driver.MacFile? && s.shutdown && s.flying == 0 && s.pc.Calling? && s.pc.at.DoneTop?
    requires s.locked == 0
    ensures Exec(s, Steps(3, [])).flying == 0
  {
    hide Inv, Exec, Pending, WellFormed, Run, Steps, Validated;
    var next := s.pc.next;
    var done := s.(slot := Empty, pc := Calling(DoneValid, next));
    On(s, done, 3, []);
    InvReady(done);
    ValidatedKeeps(done);
    var after := CallbackStep(done, 0);
    On(done, after, 2, []);
    IdleSteps(after, 1);
  }

  /** The reader holds the buffer of a file that was shut down with the receive routine armed. */
  predicate Armed(s: State) {
    s.driver.MacFile? && s.shutdown && s.pc.Idle? && s.held == 1 && s.flying == 0 && s.slot.CallRecv?
  }

  function Taking(s: State): State
    requires Inv(s) && 0 <= Run(s.ring)
  {
    s.(locked := s.held + 1, front := s.ring.consume, shown := Run(s.ring), pc := Freeing(Run(s.ring)))
  }

  function RoundEvents(s: State, es: seq<Event>): seq<Event>
    requires 0 <= Run(s.ring)
  {
    [Read(s.ring.valid)] + Steps(3, [FinishRead(Run(s.ring))] + Steps(3, es))
  }

  /** A round of Consume under the reader's own Lock. */
  function Taken(s: State): State
    requires Inv(s) && Armed(s)
  {
    Sizes(s);
    TakingReady(s);
    AdvanceStep(Taking(s), 0).(locked := 1, pc := Pc.Idle)
  }

  lemma TakingReady(s: State)
    requires Inv(s) && s.pc.Idle? && 0 <= Run(s.ring)
    ensures AdvanceReady(Taking(s))
  {
    RunIsFront(s.ring, Run(s.ring), s.bytes);
  }

  /** It takes data and leaves the routine armed. */
  lemma HeldRound(s: State, es: seq<Event>)
    requires Inv(s) && Armed(s) && s.ring.valid > 0
    ensures 0 <= Run(s.ring)
    ensures var t := Taken(s);
      Inv(t) && Armed(t) && t.ring.valid < s.ring.valid && Exec(s, RoundEvents(s, es)) == Exec(t, es)
  {
    hide Inv, Exec, Pending, WellFormed, Run, Steps, Release;
    Sizes(s);
    TakingReady(s);
    var n := Run(s.ring);
    var a1 := s.(locked := 2, pc := Showing(s.ring.valid));
    var a2 := a1.(front := s.ring.consume, shown := n, pc := Releasing(ToReading));
    var a3 := a2.(locked := 1, pc := Testing(ToReading));
    var a4 := a3.(pc := Reading);
    var rest := [FinishRead(n)] + Steps(3, es);
    Via(s, Read(s.ring.valid), a1, Steps(3, rest));
    On(a1, a2, 3, rest);
    On(a2, a3, 2, rest);
    On(a3, a4, 1, rest);
    NoSteps(a4, rest);
    Via(a4, FinishRead(n), Taking(s), Steps(3, es));
    HeldFree(s, es);
  }

  lemma HeldFree(s: State, es: seq<Event>)
    requires Inv(s) && Armed(s) && s.ring.valid > 0 && 0 <= Run(s.ring) && Inv(Taking(s))
    ensures var t := Taken(s);
      Inv(t) && Armed(t) && t.ring.valid < s.ring.valid && Exec(Taking(s), Steps(3, es)) == Exec(t, es)
  {
    hide Inv, Exec, Pending, WellFormed, Run, Steps, Release;
    Sizes(s);
    TakingReady(s);
    var b1 := Taking(s);
    var b2 := AdvanceStep(b1, 0);
    var b3 := b2.(locked := 1, pc := Testing(ToIdle));
    On(b1, b2, 3, es);
    On(b2, b3, 2, es);
    On(b3, Taken(s), 1, es);
    NoSteps(Taken(s), es);
    Shrinks(s.ring, Run(s.ring));
  }

  lemma Sizes(s: State)
    requires Inv(s)
    ensures s.pc.Idle? ==> s.locked == s.held
    ensures 0 <= Run(s.ring) <= s.ring.valid && (s.ring.valid > 0 ==> Run(s.ring) > 0)
    ensures s.ring.valid == 0 ==> s.ring.free >= Threshold(s.driver, s.ring.size)
  {
    if s.ring.valid == 0 { EmptyHasNoTail(s.ring); }
  }

  lemma Shrinks(r: Ring, n: nat)
    requires 0 < n <= r.valid
    ensures Release(r, n).valid < r.valid
  {
  }

  /** Taking enough data and then letting go of the buffer starts a read. */
  lemma {:induction false} ReadsInTheEnd(s: State) returns (es: seq<Event>)
    requires Inv(s) && Armed(s)
    ensures Exec(s, es).flying == 1
    decreases s.ring.valid
  {
    hide Inv, Exec, Steps, Threshold;
    Sizes(s);
    if s.ring.free >= Threshold(s.driver, s.ring.size) {
      es := [LetGo] + Steps(5, []);
      var a := s.(held := 0, pc := Releasing(ToIdle));
      var b := a.(locked := 0, pc := Testing(ToIdle));
      Via(s, LetGo, a, Steps(5, []));
      On(a, b, 5, []);
      ReadAtRelease(b);
    } else {
      HeldRound(s, []);
      var later := ReadsInTheEnd(Taken(s));
      HeldRound(s, later);
      es := RoundEvents(s, later);
    }
  }

  /** Exactly when a file that was shut down, with no read in flight, can still start one: when the shutdown
      found the receive routine armed. */
  lemma FileReadsExactly(s: State)
    requires Inv(s) && Quiet(s) && s.pc.Idle? && s.driver.MacFile? && s.shutdown && s.flying == 0
    ensures s.slot.CallRecv? <==> exists es :: Exec(s, es).flying > 0
  {
    hide Exec, Pending, WellFormed, Run;
    if s.slot.CallRecv? {
      var t := s.(held := 1, locked := 1);
      StepInv(s, Hold);
      var es := ReadsInTheEnd(t);
      Via(s, Hold, t, es);
      assert Exec(s, [Hold] + es).flying > 0;
    } else {
      forall es ensures Exec(s, es).flying == 0 { NeverReadsAgain(s, es); }
    }
  }
}
