/** The asynchronous output pump: a writer filling a ring buffer while completion interrupts drain it.

    One state machine covers the three drivers (TCP, files, PPC).  They differ in how much of the shown data
    one request takes, in whether the end of the data is followed by a close request, and in that the file
    driver holds the buffer locked around a whole write and looks at the shutdown flag before each.  The writer's
    library calls are cut into the steps between which an interrupt can arrive; an interrupt runs its handler in
    one step. */
module Pump {
  import opened Rings
  import opened Chains

  datatype Driver = Tcp | Ppc | MacFile(blockSize: nat)

  /** The single callback slot of the buffer, `fDeferred`. */
  datatype Slot = Empty | CallSend | CallDone

  datatype Resume = ToIdle | ToCopying

  /** Where a callback run by Release has got to. */
  datatype Callback = DoneTop | DoneFree | SendTop | SendBranch(valid: nat) | SendIssue

  /** Where the writer is. */
  datatype Pc =
    | Idle
    | Reserving(want: nat)       // in ProduceBuffer, after Lock
    | Copying                    // between ProduceBuffer and ValidBuffer
    | Committing(len: nat)       // in ValidBuffer, after Lock
    | Stopping                   // in shutdown, before Lock
    | Releasing(next: Resume)    // before the decrement in Release
    | Testing(next: Resume)      // between the decrement and the test of the slot
    | Calling(at: Callback, next: Resume)

  /** `sending` is set while the writer is in a call of send or write, which looks at the shutdown flag on
      entry.  `held` counts the writer's own Locks around library calls; `locked` is `fLocked`, those
      included.  `offset` and `length` are the parameter block.  `flying` counts issued and uncompleted
      requests, `closes` the orderly-close requests, `late` the bytes accepted after the pump was over. */
  datatype State = State(
    driver: Driver, ring: Ring, bytes: seq<Byte>, granted: nat, pc: Pc,
    sending: bool, held: nat, locked: int, slot: Slot, offset: nat, length: nat, flying: nat,
    shutdown: bool, closes: nat, late: nat,
    accepted: seq<Byte>, freed: seq<Byte>, sent: seq<Byte>)

  /** `pos` stands for the file position a file driver looks at when it sends. */
  datatype Event =
    | Send         // enter a send or write
    | Return       // and leave it
    | Write(want: nat)
    | CopyBytes(at: nat, data: seq<Byte>)
    | FinishWrite(len: nat)
    | Hold         // Lock by the writer itself
    | LetGo        // and the matching Release
    | Shutdown
    | Advance(pos: nat)
    | Complete(pos: nat)

  // ----- the request size -----

  function Wanted(d: Driver, valid: nat, size: nat): nat {
    if d.MacFile? then Min(valid, size / 2) else Min(valid, Min(65535, size / 2))
  }

  function Aligned(d: Driver, len: nat, pos: nat): int {
    if d.MacFile? && d.blockSize > 0 then
      var align := pos % d.blockSize;
      if align != 0 then Min(len, d.blockSize - align)
      else if len > d.blockSize then len - len % d.blockSize
      else len
    else len
  }

  /** The length of the request the driver's send routine issues. */
  function RequestLength(d: Driver, r: Ring, pos: nat): int
    requires 0 <= Run(r)
  {
    Aligned(d, Min(Wanted(d, r.valid, r.size), Run(r)), pos)
  }

  /** With data in the buffer every driver requests a non-empty piece of what ConsumeBuffer shows,
      exactly if the buffer is larger than one byte. */
  lemma RequestProgress(d: Driver, r: Ring, pos: nat)
    requires WellFormed(r) && r.valid > 0
    ensures 0 <= Run(r) && 0 <= RequestLength(d, r, pos) <= Run(r)
    ensures RequestLength(d, r, pos) > 0 <==> r.size >= 2
  {
    var len := Min(Wanted(d, r.valid, r.size), Run(r));
    assert Run(r) > 0;
    if d.MacFile? && d.blockSize > 0 {
      RemainderBelow(pos, d.blockSize);
      RemainderBelow(len, d.blockSize);
    }
  }

  lemma RemainderBelow(n: nat, m: nat)
    requires m > 0
    ensures 0 <= n % m < m
  {
  }

  /** What a request may take, and that it takes all it may: half the buffer and what is shown, for sockets
      also 65535 bytes. */
  lemma RequestBounds(d: Driver, r: Ring, pos: nat)
    requires WellFormed(r) && r.valid > 0
    ensures var len := Min(Wanted(d, r.valid, r.size), Run(r));
      && 0 <= RequestLength(d, r, pos) <= len && 2 * len <= r.size && (d.MacFile? || len <= 65535)
      && (len == Run(r) || len == r.size / 2 || (!d.MacFile? && len == 65535))
      && (!d.MacFile? ==> RequestLength(d, r, pos) == len)
      && (d.MacFile? && d.blockSize > 0 ==> OnBlocks(len, RequestLength(d, r, pos), pos, d.blockSize))
  {
    var len := Min(Wanted(d, r.valid, r.size), Run(r));
    assert Run(r) > 0;
    if d.MacFile? && d.blockSize > 0 { AlignedOnBlocks(d, len, pos); }
  }

  /** Of `len` bytes at file position `pos`, `n` stay within the block they begin in, or are whole blocks and
      all of them; nothing is left out otherwise. */
  predicate OnBlocks(len: nat, n: int, pos: nat, block: nat)
    requires block > 0
  {
    && (n == len || (pos + n) % block == 0)
    && (pos % block + n <= block || (pos % block == 0 && n % block == 0 && len - n < block))
    && (pos % block == 0 || pos % block + n <= block)
  }

  lemma AlignedOnBlocks(d: Driver, len: nat, pos: nat)
    requires d.MacFile? && d.blockSize > 0
    ensures OnBlocks(len, Aligned(d, len, pos), pos, d.blockSize)
  {
    var b := d.blockSize;
    RemainderBelow(pos, b);
    RemainderBelow(len, b);
    var n := Aligned(d, len, pos);
    if pos % b != 0 {
      if n != len { UpToBlock(pos, b); }
    } else if len > b {
      WholeBlocks(pos, len, b);
    }
  }

  lemma UpToBlock(pos: nat, b: nat)
    requires b > 0
    ensures (pos + (b - pos % b)) % b == 0
  {
    assert pos == pos / b * b + pos % b;
    assert pos + (b - pos % b) == (pos / b + 1) * b;
    Multiple(pos / b + 1, b);
  }

  lemma WholeBlocks(pos: nat, len: nat, b: nat)
    requires b > 0 && pos % b == 0
    ensures (len - len % b) % b == 0 && (pos + (len - len % b)) % b == 0
  {
    assert len - len % b == len / b * b && pos == pos / b * b;
    Multiple(len / b, b);
    assert pos + (len - len % b) == (pos / b + len / b) * b;
    Multiple(pos / b + len / b, b);
  }

  lemma Multiple(k: nat, b: nat)
    requires b > 0
    ensures k * b % b == 0
  {
    var n, q := k * b, k * b / b;
    assert n == q * b + n % b;
    assert (k - q) * b == n % b;
    if k > q { AtLeastOnce(k - q, b); }
    if k < q { AtLeastOnce(q - k, b); }
  }

  lemma AtLeastOnce(k: nat, b: nat)
    requires k > 0
    ensures k * b >= b
  {
  }

  // ----- steps -----

  function Back(next: Resume): Pc {
    if next.ToIdle? then Pc.Idle else Copying
  }

  predicate Producing(pc: Pc) {
    match pc
    case Copying => true
    case Committing(_) => true
    case Releasing(t) => t.ToCopying?
    case Testing(t) => t.ToCopying?
    case Calling(_, t) => t.ToCopying?
    case _ => false
  }

  /** FreeBuffer of the completed request. */
  function Freed(s: State): State
    requires WellFormed(s.ring) && |s.bytes| == s.ring.size && s.length <= s.ring.valid
  {
    s.(freed := s.freed + Pending(s.ring, s.bytes)[..s.length], ring := Release(s.ring, s.length))
  }

  /** The send routine with nothing to send: wait for data, or close after a shutdown. */
  function Drained(s: State): State {
    if !s.shutdown then s.(slot := CallSend)
    else if !s.driver.MacFile? && s.closes == 0 then s.(closes := 1)
    else s
  }

  /** ConsumeBuffer and the parameter block. */
  function Prepared(s: State, pos: nat): State
    requires WellFormed(s.ring) && s.ring.valid > 0
  {
    RequestProgress(s.driver, s.ring, pos);
    s.(offset := s.ring.consume, length := RequestLength(s.driver, s.ring, pos))
  }

  /** The send routine at interrupt level, in one step. */
  function SendNow(s: State, pos: nat): State
    requires WellFormed(s.ring)
  {
    var t := s.(slot := Empty);
    if t.ring.valid == 0 then Drained(t)
    else var p := Prepared(t, pos); p.(flying := p.flying + 1)
  }

  /** The completion routine, called by the device. */
  function Completed(s: State, pos: nat): State
    requires WellFormed(s.ring) && |s.bytes| == s.ring.size && s.length <= Run(s.ring) && s.offset + s.length <= |s.bytes|
  {
    var t := s.(flying := if s.flying > 0 then s.flying - 1 else 0,
                sent := s.sent + s.bytes[s.offset..s.offset + s.length]);
    if t.locked != 0 then t.(slot := CallDone)
    else
      RunIsFront(s.ring, s.length, s.bytes);
      ReleaseWellFormed(s.ring, s.length);
      SendNow(Freed(t.(slot := Empty)), pos)
  }

  /** The next step of a callback that Release runs on the writer's own level. */
  function CallbackStep(s: State, pos: nat): State
    requires s.pc.Calling? && WellFormed(s.ring) && |s.bytes| == s.ring.size
    requires s.pc.at.DoneFree? ==> s.length <= s.ring.valid
    requires s.pc.at.SendBranch? ==> s.pc.at.valid == s.ring.valid
  {
    var next := s.pc.next;
    match s.pc.at
    case DoneTop =>
      if s.locked != 0 then s.(slot := CallDone, pc := Back(next))
      else s.(slot := Empty, pc := Calling(DoneFree, next))
    case DoneFree => Freed(s).(pc := Calling(SendTop, next))
    case SendTop => s.(slot := Empty, pc := Calling(SendBranch(s.ring.valid), next))
    case SendBranch(v) =>
      if v == 0 then Drained(s).(pc := Back(next))
      else Prepared(s, pos).(pc := Calling(SendIssue, next))
    case SendIssue => s.(flying := s.flying + 1, pc := Back(next))
  }

  /** Shut down, with nothing in flight and nobody left to send anything. */
  predicate Over(s: State) {
    s.shutdown && s.slot.Empty? && s.flying == 0 && !s.pc.Calling?
  }

  predicate CallbackReady(s: State) {
    && (s.pc.Calling? && s.pc.at.DoneFree? ==> s.length <= s.ring.valid)
    && (s.pc.Calling? && s.pc.at.SendBranch? ==> s.pc.at.valid == s.ring.valid)
    && (s.pc.Committing? ==> Reserved(s.ring, s.pc.len))
  }

  /** The next step of the library call the writer is in. */
  function AdvanceStep(s: State, pos: nat): State
    requires WellFormed(s.ring) && |s.bytes| == s.ring.size && CallbackReady(s)
  {
    match s.pc
    case Idle => s
    case Copying => s
    case Reserving(want) =>
      var (r, part) := Reserve(s.ring, want);
      s.(ring := r, granted := part, pc := Releasing(ToCopying))
    case Committing(len) =>
      s.(accepted := s.accepted + s.bytes[s.ring.produce..s.ring.produce + len],
         ring := Commit(s.ring, len), granted := 0, late := if Over(s) then s.late + len else s.late,
         pc := Releasing(ToIdle))
    case Stopping => s.(locked := s.locked + 1, pc := Releasing(ToIdle))
    case Releasing(next) => s.(locked := s.locked - 1, pc := Testing(next))
    case Testing(next) =>
      if s.locked <= 0 && s.slot != Empty then
        s.(pc := Calling(if s.slot.CallSend? then SendTop else DoneTop, next))
      else s.(pc := Back(next))
    case Calling(_, _) => CallbackStep(s, pos)
  }

  /** A send on a socket that has begun goes on after a shutdown; the file driver looks at the flag before
      every write to the buffer. */
  predicate Enabled(s: State, e: Event) {
    match e
    case Send => s.pc.Idle? && !s.shutdown
    case Return => s.pc.Idle?
    case Write(_) => s.pc.Idle? && s.sending && (s.driver.MacFile? ==> !s.shutdown)
    case CopyBytes(at, data) => s.pc.Copying? && at + |data| <= s.granted
    case FinishWrite(len) => s.pc.Copying? && len <= s.granted
    case Hold => s.pc.Idle?
    case LetGo => s.pc.Idle? && s.held > 0
    case Shutdown => s.pc.Idle?
    case Advance(_) => true
    case Complete(_) => s.flying > 0
  }

  // ----- the invariant -----

  /** The parameter block describes bytes at the front of the buffer. */
  predicate Request(s: State) {
    1 <= s.length <= Run(s.ring) && s.offset == s.ring.consume
  }

  predicate Front(s: State)
    requires WellFormed(s.ring) && |s.bytes| == s.ring.size
  {
    Request(s) && s.length <= s.ring.valid && s.sent == s.freed + Pending(s.ring, s.bytes)[..s.length]
  }

  predicate Basic(s: State) {
    && WellFormed(s.ring) && s.ring.size >= 2 && |s.bytes| == s.ring.size
    && s.locked == s.held + (if s.pc.Reserving? || s.pc.Committing? || s.pc.Releasing? then 1 else 0)
    && (Producing(s.pc) ==> Reserved(s.ring, s.granted))
    && (s.pc.Committing? ==> s.pc.len <= s.granted)
    && (Producing(s.pc) || s.pc.Reserving? ==> s.sending && (s.driver.MacFile? ==> !s.shutdown))
    && (!Over(s) || s.driver.MacFile? ==> s.late == 0)
    && s.accepted == s.freed + Pending(s.ring, s.bytes)
  }

  /** Somebody will look at the slot: the writer still has to go through Release. */
  predicate WillTest(s: State) {
    s.held > 0 || s.pc.Reserving? || s.pc.Committing? || s.pc.Releasing? || s.pc.Testing?
  }

  /** Exactly one of: a request in flight; its completion deferred; the send routine waiting in the
      slot; a callback running; closed for good. */
  predicate Phase(s: State)
    requires WellFormed(s.ring) && |s.bytes| == s.ring.size
  {
    if s.pc.Calling? then
      && s.flying == 0 && s.held == 0
      && match s.pc.at
         case DoneTop => s.slot.CallDone? && Front(s)
         case DoneFree => s.slot.Empty? && Front(s)
         case SendTop => !s.slot.CallDone? && s.sent == s.freed
         case SendBranch(v) => s.slot.Empty? && s.sent == s.freed && v == s.ring.valid
         case SendIssue => s.slot.Empty? && s.sent == s.freed && Request(s)
    else if s.flying > 0 then
      s.flying == 1 && s.slot.Empty? && s.sent == s.freed && Request(s)
    else match s.slot
      case CallDone => WillTest(s) && Front(s)
      case CallSend =>
        && s.sent == s.freed && (s.ring.valid == 0 || WillTest(s))
        && (s.shutdown ==> s.pc.Stopping? || WillTest(s))
      case Empty => s.sent == s.freed && s.shutdown && s.ring.valid == s.late && (s.closes == 1 || s.driver.MacFile?)
  }

  /** The connection is closed once, and the pump is over then. */
  predicate ClosedLast(s: State) {
    && s.closes <= 1 && (s.driver.MacFile? ==> s.closes == 0)
    && (s.closes == 1 ==> Over(s))
  }

  predicate Inv(s: State) {
    Basic(s) && Phase(s) && ClosedLast(s)
  }

  function Step(s: State, e: Event): State
    requires Inv(s)
  {
    if !Enabled(s, e) then s else
      match e
      case Send => s.(sending := true)
      case Return => s.(sending := false)
      case Write(want) => s.(locked := s.locked + 1, pc := Reserving(want))
      case CopyBytes(at, data) => s.(bytes := Written(s.bytes, s.ring.produce + at, data))
      case FinishWrite(len) => s.(locked := s.locked + 1, pc := Committing(len))
      case Hold => s.(held := s.held + 1, locked := s.locked + 1)
      case LetGo => s.(held := s.held - 1, pc := Releasing(ToIdle))
      case Shutdown => s.(shutdown := true, pc := Stopping)
      case Advance(pos) => AdvanceStep(s, pos)
      case Complete(pos) =>
        FlyingRequest(s);
        Completed(s, pos)
  }

  lemma FlyingRequest(s: State)
    requires Inv(s) && s.flying > 0
    ensures s.length <= Run(s.ring) && s.offset + s.length <= |s.bytes| && Request(s) && s.length <= s.ring.valid
    ensures s.bytes[s.offset..s.offset + s.length] == Pending(s.ring, s.bytes)[..s.length]
  {
    RunIsFront(s.ring, s.length, s.bytes);
  }

  /** A connected socket (or open file) with an empty buffer: the send routine was called once. */
  function Start(d: Driver, size: nat, bytes: seq<Byte>): State {
    State(d, Fresh(size), bytes, 0, Pc.Idle, false, 0, 0, CallSend, 0, 0, 0, false, 0, 0, [], [], [])
  }

  lemma StartInv(d: Driver, size: nat, bytes: seq<Byte>)
    requires size >= 2 && |bytes| == size
    ensures var s := Start(d, size, bytes);
      && Inv(s) && Quiet(s) && s.pc.Idle? && !s.sending && !s.shutdown && s.flying == 0 && s.closes == 0
      && s.accepted == s.sent == [] && s.late == 0
  {
  }

  // ----- every step keeps it -----

  lemma WriteInv(s: State, want: nat)
    requires Inv(s) && Enabled(s, Write(want))
    ensures Inv(Step(s, Write(want)))
  {
  }

  lemma CopyInv(s: State, at: nat, data: seq<Byte>)
    requires Inv(s) && Enabled(s, CopyBytes(at, data))
    ensures Inv(Step(s, CopyBytes(at, data)))
  {
    var t := Step(s, CopyBytes(at, data));
    WriteKeepsPending(s.ring, s.granted, s.bytes, t.bytes);
  }

  lemma FinishInv(s: State, len: nat)
    requires Inv(s) && Enabled(s, FinishWrite(len))
    ensures Inv(Step(s, FinishWrite(len)))
  {
  }

  lemma ShutdownInv(s: State)
    requires Inv(s) && Enabled(s, Shutdown)
    ensures Inv(Step(s, Shutdown))
  {
  }

  lemma CallerInv(s: State, e: Event)
    requires Inv(s) && Enabled(s, e) && (e.Send? || e.Return? || e.Hold? || e.LetGo?)
    ensures Inv(Step(s, e))
  {
    hide WellFormed, Pending, Run;
  }

  lemma ReserveInv(s: State, pos: nat)
    requires Inv(s) && s.pc.Reserving?
    ensures Inv(AdvanceStep(s, pos))
  {
    ReserveKeepsStream(s.ring, s.pc.want, s.bytes);
  }

  lemma CommitInv(s: State, pos: nat)
    requires Inv(s) && s.pc.Committing?
    ensures Inv(AdvanceStep(s, pos))
  {
    hide Commit, WellFormed, Pending, Run;
    var data := s.bytes[s.ring.produce..s.ring.produce + s.pc.len];
    CommitAppends(s.ring, s.pc.len, s.bytes);
    AppendAssociates(s.freed, Pending(s.ring, s.bytes), data);
    if s.length <= s.ring.valid { PrefixStays(Pending(s.ring, s.bytes), data, s.length); }
  }

  lemma PrefixStays(a: seq<Byte>, b: seq<Byte>, n: nat)
    requires n <= |a|
    ensures (a + b)[..n] == a[..n]
  {
  }

  lemma ReleaseStepsInv(s: State, pos: nat)
    requires Inv(s) && (s.pc.Stopping? || s.pc.Releasing? || s.pc.Testing?)
    ensures Inv(AdvanceStep(s, pos))
  {
    hide WellFormed, Pending, Run;
  }

  /** FreeBuffer of a completed request closes the gap between what was sent and what was freed. */
  lemma FreedInv(s: State)
    requires Basic(s) && Front(s)
    ensures Basic(Freed(s)) && Freed(s).sent == Freed(s).freed
  {
    hide Release, WellFormed, Pending;
    ReleaseDrops(s.ring, s.length, s.bytes);
    var p := Pending(s.ring, s.bytes);
    assert p == p[..s.length] + p[s.length..];
    AppendAssociates(s.freed, p[..s.length], p[s.length..]);
  }

  lemma CallbackInv(s: State, pos: nat)
    requires Inv(s) && s.pc.Calling?
    ensures Inv(CallbackStep(s, pos))
  {
    hide Release, WellFormed, Pending, Aligned;
    match s.pc.at
    case DoneTop =>
    case DoneFree => FreedInv(s);
    case SendTop =>
    case SendBranch(v) =>
      if v > 0 { RequestProgress(s.driver, s.ring, pos); } else { assert s.freed + [] == s.freed == s.accepted; }
    case SendIssue =>
  }

  lemma SendNowInv(s: State, pos: nat)
    requires Basic(s) && ClosedLast(s) && !s.pc.Calling? && s.flying == 0 && s.sent == s.freed
    requires s.late == 0 && s.closes == 0
    ensures Inv(SendNow(s, pos))
  {
    if s.ring.valid > 0 { RequestProgress(s.driver, s.ring, pos); }
  }

  lemma CompleteInv(s: State, pos: nat)
    requires Inv(s) && Enabled(s, Complete(pos))
    ensures Inv(Step(s, Complete(pos)))
  {
    hide Release, WellFormed, Pending, Run, Aligned, Drained;
    FlyingRequest(s);
    var t := s.(flying := 0, slot := Empty, sent := s.sent + s.bytes[s.offset..s.offset + s.length]);
    assert Front(t);
    if s.locked == 0 {
      FreedInv(t);
      SendNowInv(Freed(t), pos);
    }
  }

  lemma StepInv(s: State, e: Event)
    requires Inv(s)
    ensures Inv(Step(s, e))
  {
    if Enabled(s, e) {
      match e
      case Write(want) => WriteInv(s, want);
      case CopyBytes(at, data) => CopyInv(s, at, data);
      case FinishWrite(len) => FinishInv(s, len);
      case Send => CallerInv(s, e);
      case Return => CallerInv(s, e);
      case Hold => CallerInv(s, e);
      case LetGo => CallerInv(s, e);
      case Shutdown => ShutdownInv(s);
      case Advance(pos) => AdvanceInv(s, pos);
      case Complete(pos) => CompleteInv(s, pos);
    }
  }

  lemma AdvanceInv(s: State, pos: nat)
    requires Inv(s)
    ensures Inv(AdvanceStep(s, pos))
  {
    match s.pc
    case Idle =>
    case Copying =>
    case Reserving(_) => ReserveInv(s, pos);
    case Committing(_) => CommitInv(s, pos);
    case Stopping => ReleaseStepsInv(s, pos);
    case Releasing(_) => ReleaseStepsInv(s, pos);
    case Testing(_) => ReleaseStepsInv(s, pos);
    case Calling(_, _) => CallbackInv(s, pos);
  }

  function Exec(s: State, es: seq<Event>): State
    requires Inv(s)
    decreases |es|
  {
    if es == [] then s else
      StepInv(s, es[0]);
      Exec(Step(s, es[0]), es[1..])
  }

  lemma {:induction false} ExecInv(s: State, es: seq<Event>)
    requires Inv(s)
    ensures Inv(Exec(s, es))
    decreases |es|
  {
    if es != [] {
      StepInv(s, es[0]);
      ExecInv(Step(s, es[0]), es[1..]);
    }
  }

  // ----- what this means -----

  /** The buffer is unlocked and no Release is about to look at the slot. */
  predicate Quiet(s: State) {
    s.locked == 0 && !s.pc.Testing? && !s.pc.Calling?
  }

  /** Outside library calls only the writer's own Locks keep the buffer locked.  Whenever it is unlocked
      and not shut down, there is data exactly if one request is in flight, a request in flight leaves no
      callback armed, an idle pump has the send routine armed, and what the device got followed by what is
      buffered is what was accepted. */
  lemma {:induction false} PumpNeverStalls(s: State, es: seq<Event>)
    requires Inv(s)
    ensures var end := Exec(s, es);
      && Inv(end)
      && (end.pc.Idle? || end.pc.Copying? ==> end.locked == end.held)
      && (Quiet(end) ==>
            && end.flying <= 1 && (end.flying == 1 ==> end.slot.Empty?)
            && end.accepted == end.sent + Pending(end.ring, end.bytes)
            && (!end.shutdown ==> (end.ring.valid > 0 <==> end.flying == 1))
            && (!end.shutdown && end.ring.valid == 0 ==> end.slot.CallSend?))
  {
    ExecInv(s, es);
  }

  /** At any step at most one request is in flight, and what the device got is a prefix of what was
      accepted. */
  lemma {:induction false} SentIsPrefix(s: State, es: seq<Event>)
    requires Inv(s)
    ensures var end := Exec(s, es); end.flying <= 1 && end.sent <= end.accepted
  {
    ExecInv(s, es);
    var end := Exec(s, es);
    var p := Pending(end.ring, end.bytes);
    assert end.sent == end.freed || (end.length <= |p| && end.sent == end.freed + p[..end.length]);
  }

  /** After a shutdown the pump drains and closes.  With the buffer unlocked between calls, either a request
      is in flight, or no callback is armed, exactly one close request was made (none for a file), and what
      is left in the buffer is what was accepted after that.  So everything accepted is sent in the end
      exactly if nothing was accepted late. */
  lemma {:induction false} ShutdownDrains(s: State, es: seq<Event>)
    requires Inv(s)
    ensures var end := Exec(s, es);
      && end.closes <= 1 && (end.closes == 1 ==> end.shutdown && end.flying == 0 && end.ring.valid == end.late)
      && (Quiet(end) && end.pc.Idle? && end.shutdown ==>
            && WellFormed(end.ring) && |end.bytes| == end.ring.size
            && end.accepted == end.sent + Pending(end.ring, end.bytes)
            && (end.flying == 0 ==>
                  && end.slot.Empty? && end.ring.valid == end.late && (end.closes == 1 <==> !end.driver.MacFile?)
                  && (end.sent == end.accepted <==> end.late == 0))
            && (end.late == 0 ==> (end.ring.valid == 0 <==> end.flying == 0)))
  {
    ExecInv(s, es);
  }

  lemma NothingNew(s: State, e: Event)
    requires Inv(s) && s.shutdown && (!s.sending || s.driver.MacFile?)
    ensures var t := Step(s, e);
      t.shutdown && (!t.sending || t.driver.MacFile?) && t.accepted == s.accepted && t.late == s.late
  {
    hide WellFormed, Pending, Run, Reserve, Release, Commit, Aligned, Wanted;
  }

  /** Late bytes can only come from a send that was under way at the shutdown, and never on a file: without
      one, a run accepts nothing more, and in the end everything accepted is sent. */
  lemma {:induction false} NoSendUnderWay(s: State, es: seq<Event>)
    requires Inv(s) && s.shutdown && (!s.sending || s.driver.MacFile?) && s.late == 0
    ensures var end := Exec(s, es);
      && end.accepted == s.accepted && end.shutdown && end.late == 0
      && (Quiet(end) && end.pc.Idle? && end.flying == 0 ==> end.sent == s.accepted)
    decreases |es|
  {
    if es == [] {
      ShutdownDrains(s, []);
    } else {
      NothingNew(s, es[0]);
      StepInv(s, es[0]);
      NoSendUnderWay(Step(s, es[0]), es[1..]);
    }
  }

  // ----- a send that outlives the pump -----

  /** One step of a run. */
  lemma Via(s: State, e: Event, t: State, es: seq<Event>)
    requires Inv(s) && Step(s, e) == t
    ensures Inv(t) && Exec(s, [e] + es) == Exec(t, es)
  {
    hide Step, Inv;
    StepInv(s, e);
    assert ([e] + es)[1..] == es;
  }

  /** `n` steps of the library call the writer is in, and then `es`. */
  function Steps(n: nat, es: seq<Event>): seq<Event> {
    if n == 0 then es else [Advance(0)] + Steps(n - 1, es)
  }

  /** The first of them. */
  lemma On(s: State, t: State, n: nat, es: seq<Event>)
    requires Inv(s) && n > 0 && Step(s, Advance(0)) == t
    ensures Inv(t) && Exec(s, Steps(n, es)) == Exec(t, Steps(n - 1, es))
  {
    hide Step, Inv;
    Via(s, Advance(0), t, Steps(n - 1, es));
  }

  lemma InvReady(s: State)
    requires Inv(s)
    ensures WellFormed(s.ring) && |s.bytes| == s.ring.size && CallbackReady(s)
    ensures s.pc.Idle? || s.pc.Copying? ==> s.locked == s.held
    ensures var (r, part) := Reserve(s.ring, 1);
      WellFormed(r) && part <= 1 && Reserved(r, part) && r.size == s.ring.size && (s.ring.free > 0 ==> part == 1)
  {
    ReserveKeepsStream(s.ring, 1, s.bytes);
  }

  /** Where a library call leads: into a production, or back to its caller. */
  predicate Opens(pc: Pc) {
    pc.Reserving? || (Producing(pc) && !pc.Committing?)
  }

  function Rank(pc: Pc): nat {
    match pc
    case Idle => 0
    case Copying => 0
    case Releasing(_) => 7
    case Testing(_) => 6
    case Calling(at, _) =>
      (match at case DoneTop => 5 case DoneFree => 4 case SendTop => 3 case SendBranch(_) => 2 case SendIssue => 1)
    case _ => 8
  }

  lemma CallbackDown(s: State)
    requires Inv(s) && s.pc.Calling?
    ensures var t := Step(s, Advance(0));
      Rank(t.pc) < Rank(s.pc) && Opens(t.pc) == Opens(s.pc) && t.held == s.held && t.sending == s.sending
      && t.shutdown == s.shutdown
  {
    hide WellFormed, Pending, Run, Reserve, Commit, Release, Aligned, Wanted;
  }

  lemma OneDown(s: State)
    requires Inv(s) && Rank(s.pc) > 0
    ensures var t := Step(s, Advance(0));
      Rank(t.pc) < Rank(s.pc) && Opens(t.pc) == Opens(s.pc) && t.held == s.held && t.sending == s.sending
      && t.shutdown == s.shutdown
  {
    hide WellFormed, Pending, Run, Reserve, Commit, Release, Aligned, Wanted;
    if s.pc.Calling? { CallbackDown(s); }
  }

  /** Every library call, undisturbed, comes to its end: ProduceBuffer with a production open, the others
      with none. */
  lemma {:induction false} CallsEnd(s: State) returns (n: nat)
    requires Inv(s)
    ensures n <= Rank(s.pc) <= 8
    ensures var t := Exec(s, Steps(n, []));
      && Inv(t) && (if Opens(s.pc) then t.pc.Copying? else t.pc.Idle?)
      && t.held == s.held && t.sending == s.sending && t.shutdown == s.shutdown
    decreases Rank(s.pc)
  {
    hide Inv, Step, Steps;
    if Rank(s.pc) == 0 {
      n := 0;
      NoSteps([]);
      AtEnd(s);
    } else {
      var t := Step(s, Advance(0));
      OneDown(s);
      StepInv(s, Advance(0));
      n := CallsEnd(t);
      n := n + 1;
      On(s, t, n, []);
    }
  }

  /** What the writer can do between library calls: begin a send unless the connection is shut down, and in it
      write, copy as much as it was granted, and commit; hold the buffer, and let it go as often. */
  lemma CallsBegin(s: State)
    requires Inv(s)
    ensures s.pc.Idle? && !s.shutdown ==> Step(s, Send) == s.(sending := true)
    ensures s.pc.Idle? ==> Step(s, Return) == s.(sending := false)
    ensures s.pc.Idle? && s.sending && (s.driver.MacFile? ==> !s.shutdown) ==>
              forall want: nat :: Step(s, Write(want)) == s.(locked := s.locked + 1, pc := Reserving(want))
    ensures s.pc.Copying? ==> forall at: nat, data :: at + |data| <= s.granted ==>
              Step(s, CopyBytes(at, data)) == s.(bytes := Written(s.bytes, s.ring.produce + at, data))
    ensures s.pc.Copying? ==> forall len: nat :: len <= s.granted ==>
              Step(s, FinishWrite(len)) == s.(locked := s.locked + 1, pc := Committing(len))
    ensures s.pc.Idle? ==> Step(Step(s, Hold), LetGo) == s.(locked := s.locked + 1, pc := Releasing(ToIdle))
    ensures s.pc.Idle? && s.held > 0 ==> Step(s, LetGo) == s.(held := s.held - 1, pc := Releasing(ToIdle))
  {
    hide WellFormed, Pending, Run, Reserve, Commit, Release, Wanted, Aligned, Freed, Drained,
      CallbackStep, AdvanceStep, Completed, SendNow;
    if s.pc.Idle? { CallerInv(s, Hold); }
  }

  /** The library calls, and when their caller may make them. */
  predicate Begins(s: State, e: Event) {
    match e
    case Write(_) => s.pc.Idle? && s.sending && (s.driver.MacFile? ==> !s.shutdown)
    case FinishWrite(len) => s.pc.Copying? && len <= s.granted
    case LetGo => s.pc.Idle? && s.held > 0
    case _ => false
  }

  /** So a whole call, undisturbed, takes the writer from outside into a production, from there back, and
      leaves the send and the writer's Locks as they were. */
  lemma WholeCall(s: State, e: Event) returns (n: nat)
    requires Inv(s) && Begins(s, e)
    ensures n <= 8
    ensures var t := Exec(s, [e] + Steps(n, []));
      && Inv(t) && (if e.Write? then t.pc.Copying? else t.pc.Idle?)
      && t.held == (if e.LetGo? then s.held - 1 else s.held) && t.sending == s.sending && t.shutdown == s.shutdown
  {
    hide Inv, Step, Steps;
    CallsBegin(s);
    StepInv(s, e);
    n := CallsEnd(Step(s, e));
    Via(s, e, Step(s, e), Steps(n, []));
  }

  function LateEvents(z: Byte): seq<Event> {
    [Write(1)] + Steps(3, [CopyBytes(0, [z])] + ([FinishWrite(1)] + Steps(3, [])))
  }

  /** In every state in which the pump is over, a send is under way and there is room, the next byte of that
      send is accepted, and nobody is left to send it. */
  lemma LateWrite(s: State, z: Byte)
    requires Inv(s) && Over(s) && s.pc.Idle? && s.held == 0
    requires s.sending && !s.driver.MacFile? && s.ring.free > 0
    ensures var t := Exec(s, LateEvents(z));
      && Inv(t) && Over(t) && Quiet(t) && t.pc.Idle? && t.accepted == s.accepted + [z]
      && t.sent == s.sent && t.closes == s.closes && t.late == s.late + 1 == t.ring.valid
  {
    hide Inv, Exec, Pending, WellFormed, Reserve, Commit, Run, Steps;
    InvReady(s);
    var r := Reserve(s.ring, 1).0;
    var es := [FinishWrite(1)] + Steps(3, []);
    var open := s.(ring := r, granted := 1, pc := Copying);
    var filled := open.(bytes := Written(s.bytes, r.produce, [z]));
    LateOpen(s, [CopyBytes(0, [z])] + es);
    Via(open, CopyBytes(0, [z]), filled, es);
    LateClose(filled, z);
  }

  lemma LateOpen(s: State, es: seq<Event>)
    requires Inv(s) && Over(s) && s.pc.Idle? && s.held == 0
    requires s.sending && !s.driver.MacFile? && s.ring.free > 0
    ensures WellFormed(s.ring) && var t := s.(ring := Reserve(s.ring, 1).0, granted := 1, pc := Copying);
      Inv(t) && Exec(s, [Write(1)] + Steps(3, es)) == Exec(t, es)
  {
    hide Inv, Exec, Pending, WellFormed, Reserve, Run;
    InvReady(s);
    var a1 := s.(locked := 1, pc := Reserving(1));
    var a2 := a1.(ring := Reserve(s.ring, 1).0, granted := 1, pc := Releasing(ToCopying));
    var a3 := a2.(locked := 0, pc := Testing(ToCopying));
    Via(s, Write(1), a1, Steps(3, es));
    On(a1, a2, 3, es);
    On(a2, a3, 2, es);
    On(a3, a3.(pc := Copying), 1, es);
  }

  lemma LateClose(s: State, z: Byte)
    requires Inv(s) && Over(s) && s.pc.Copying? && s.held == 0 && s.granted == 1 && Reserved(s.ring, 1)
    requires s.locked == 0 && s.ring.size == |s.bytes| && s.bytes[s.ring.produce] == z
    ensures var t := Exec(s, [FinishWrite(1)] + Steps(3, []));
      && Inv(t) && Over(t) && Quiet(t) && t.pc.Idle? && t.accepted == s.accepted + [z]
      && t.sent == s.sent && t.closes == s.closes && t.late == s.late + 1 == t.ring.valid
  {
    hide Inv, Exec, Pending, WellFormed, Run, Commit, Aligned, Release, Reserve;
    var a1 := s.(locked := 1, pc := Committing(1));
    var a2 := s.(locked := 1, accepted := s.accepted + [z], ring := Commit(s.ring, 1), granted := 0,
                 late := s.late + 1, pc := Releasing(ToIdle));
    var a3 := a2.(locked := 0, pc := Testing(ToIdle));
    assert s.bytes[s.ring.produce..s.ring.produce + 1] == [z];
    InvReady(s);
    Via(s, FinishWrite(1), a1, Steps(3, []));
    On(a1, a2, 3, []);
    InvReady(a2);
    On(a2, a3, 2, []);
    On(a3, a3.(pc := Pc.Idle), 1, []);
    AtEnd(a3.(pc := Pc.Idle));
  }

  lemma AtEnd(s: State)
    requires Inv(s)
    ensures Exec(s, []) == s && (Over(s) ==> s.ring.valid == s.late)
  {
  }

  /** Completions drain an unlocked, shut-down connection: after as many as it takes the pump is over. */
  lemma {:induction false} Drain(s: State) returns (n: nat)
    requires Inv(s) && s.shutdown && s.pc.Idle? && s.held == 0 && s.flying == 1
    ensures var t := Exec(s, Completes(n));
      Inv(t) && Over(t) && t.pc.Idle? && t.held == 0 && t.sending == s.sending && t.driver == s.driver
      && t.late == 0 && t.ring.valid == 0 && t.ring.free > 0
    decreases s.ring.valid
  {
    hide WellFormed, Pending, Run, Exec, Inv;
    InvReady(s);
    var t := Step(s, Complete(0));
    StepInv(s, Complete(0));
    OneCompletion(s);
    if t.flying == 1 {
      n := Drain(t);
      Via(s, Complete(0), t, Completes(n));
    } else {
      n := 0;
      Via(s, Complete(0), t, Completes(0));
      AtEnd(t);
    }
    n := n + 1;
  }

  function Completes(n: nat): seq<Event> {
    if n == 0 then [] else [Complete(0)] + Completes(n - 1)
  }

  lemma OneCompletion(s: State)
    requires Inv(s) && s.shutdown && s.pc.Idle? && s.held == 0 && s.flying == 1
    ensures var t := Step(s, Complete(0));
      && t.shutdown && t.pc.Idle? && t.held == 0 && t.sending == s.sending && t.driver == s.driver
      && t.ring.valid < s.ring.valid && (t.flying == 1 || (Over(t) && t.late == 0 && t.ring.valid == 0 && t.ring.free > 0))
  {
    hide Pending, Aligned;
    FlyingRequest(s);
    StepInv(s, Complete(0));
    var t := Step(s, Complete(0));
    if t.ring.valid == 0 { EmptyHasNoTail(t.ring); }
  }

  /** Another thread calls shutdown: with a request in flight nothing else happens. */
  lemma StopBusy(s: State, es: seq<Event>)
    requires Inv(s) && s.pc.Idle? && s.held == 0 && s.locked == 0 && s.flying > 0 && s.slot.Empty?
    ensures Inv(s.(shutdown := true)) && Exec(s, [Shutdown] + Steps(3, es)) == Exec(s.(shutdown := true), es)
  {
    hide Inv, Exec, Pending, Steps;
    var t := s.(shutdown := true);
    Via(s, Shutdown, t.(pc := Stopping), Steps(3, es));
    On(t.(pc := Stopping), t.(locked := 1, pc := Releasing(ToIdle)), 3, es);
    On(t.(locked := 1, pc := Releasing(ToIdle)), t.(pc := Testing(ToIdle)), 2, es);
    On(t.(pc := Testing(ToIdle)), t, 1, es);
    NoSteps(es);
  }

  /** With nothing in flight its Release runs the send routine, which closes the connection. */
  lemma StopIdle(s: State, es: seq<Event>)
    requires Inv(s) && s.pc.Idle? && s.held == 0 && s.locked == 0 && s.flying == 0 && s.slot.CallSend?
    requires s.ring.valid == 0 && !s.driver.MacFile? && s.closes == 0
    ensures var t := s.(shutdown := true, slot := Empty, closes := 1);
      Inv(t) && Exec(s, [Shutdown] + Steps(5, es)) == Exec(t, es)
  {
    hide Inv, Exec, Pending, Steps;
    var t := s.(shutdown := true);
    var called := t.(pc := Calling(SendTop, ToIdle));
    var branch := t.(slot := Empty, pc := Calling(SendBranch(0), ToIdle));
    Via(s, Shutdown, t.(pc := Stopping), Steps(5, es));
    On(t.(pc := Stopping), t.(locked := 1, pc := Releasing(ToIdle)), 5, es);
    On(t.(locked := 1, pc := Releasing(ToIdle)), t.(pc := Testing(ToIdle)), 4, es);
    On(t.(pc := Testing(ToIdle)), called, 3, es);
    On(called, branch, 2, es);
    On(branch, t.(slot := Empty, closes := 1), 1, es);
    NoSteps(es);
  }

  lemma NoSteps(es: seq<Event>)
    ensures Steps(0, es) == es
  {
  }

  /** From every quiet state with a send under way on a socket: a run in which the connection is shut down
      and closed, and then a byte of that send is accepted that nobody will send. */
  lemma StuckRun(s: State, z: Byte) returns (es: seq<Event>)
    requires Inv(s) && Quiet(s) && s.pc.Idle? && !s.shutdown && s.sending && !s.driver.MacFile?
    ensures var t := Exec(s, [Shutdown] + es);
      Inv(t) && Quiet(t) && Over(t) && t.pc.Idle? && t.late == t.ring.valid == 1 && t.sent != t.accepted
  {
    hide Inv, Exec, Pending, WellFormed, Run, Steps, LateEvents, Completes;
    BeforeStop(s);
    var over: State;
    if s.flying == 1 {
      var n := Drain(s.(shutdown := true)) by { StopBusy(s, []); }
      es := Steps(3, Completes(n) + LateEvents(z));
      StopBusy(s, Completes(n) + LateEvents(z));
      ExecConcat(s.(shutdown := true), Completes(n), LateEvents(z));
      over := Exec(s.(shutdown := true), Completes(n));
    } else {
      es := Steps(5, LateEvents(z));
      StopIdle(s, LateEvents(z));
      over := s.(shutdown := true, slot := Empty, closes := 1);
    }
    LateWrite(over, z);
    Unsent(Exec(over, LateEvents(z)));
  }

  lemma BeforeStop(s: State)
    requires Inv(s) && Quiet(s) && s.pc.Idle? && !s.shutdown
    ensures s.held == 0 && s.locked == 0 && s.flying <= 1 && s.late == 0 && s.closes == 0
    ensures s.flying == 1 ==> s.slot.Empty?
    ensures s.flying == 0 ==> s.slot.CallSend? && s.ring.valid == 0 && s.ring.free > 0
  {
    if s.ring.valid == 0 { EmptyHasNoTail(s.ring); }
  }

  lemma Unsent(s: State)
    requires Inv(s) && Over(s) && s.late > 0
    ensures s.sent != s.accepted
  {
    assert |s.accepted| == |s.sent| + s.late;
  }

  lemma {:induction false} ExecConcat(s: State, a: seq<Event>, b: seq<Event>)
    requires Inv(s)
    ensures Inv(Exec(s, a)) && Exec(s, a + b) == Exec(Exec(s, a), b)
    decreases |a|
  {
    if a == [] {
      assert a + b == b;
    } else {
      StepInv(s, a[0]);
      assert (a + b)[1..] == a[1..] + b;
      ExecConcat(Step(s, a[0]), a[1..], b);
    }
  }

  /** Exactly when bytes can be accepted and never sent: when the shutdown comes while a send is under way
      on a socket.  On a file, and between sends, everything accepted is sent. */
  lemma LateExactly(s: State)
    requires Inv(s) && Quiet(s) && s.pc.Idle? && !s.shutdown
    ensures s.sending && !s.driver.MacFile? <==> exists es :: Exec(s, [Shutdown] + es).late > 0
  {
    hide Inv, Exec, Pending, WellFormed, Run;
    BeforeStop(s);
    if s.sending && !s.driver.MacFile? {
      var es := StuckRun(s, 0);
      assert Exec(s, [Shutdown] + es).late > 0;
    } else {
      var t := Step(s, Shutdown);
      forall es ensures Exec(s, [Shutdown] + es).late == 0 {
        Via(s, Shutdown, t, es);
        NoSendUnderWay(t, es);
      }
    }
  }
}
