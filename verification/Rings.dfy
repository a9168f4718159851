/** One ring buffer (GUSIRingBuffer without its replacement chain) as a value.

    Pointers are offsets from `fBuffer`; `size` is `fEnd - fBuffer`.  The functions are the bodies of
    the two-phase operations, the lemmas say what they do to the stream of bytes in the ring. */
module Rings {

  type Byte = bv8

  datatype Ring = Ring(size: nat, consume: nat, produce: nat, free: nat, valid: nat, spare: nat, inUse: bool)

  function Min(a: nat, b: nat): nat {
    if a < b then a else b
  }

  function Distance(size: nat, from: nat, to: nat): int {
    if from > to then (size - from) + to else to - from
  }

  /** The invariant the source itself asserts after every operation. */
  predicate Stated(r: Ring) {
    && r.produce < r.size && r.consume < r.size
    && r.free + r.valid + r.spare == r.size
    && Distance(r.size, r.consume, r.produce) == (r.valid + r.spare) % r.size
    && Distance(r.size, r.produce, r.consume) == r.free % r.size
  }

  /** What has to be added to make it inductive: a skipped tail only exists while the data is wrapped. */
  predicate TailWrapped(r: Ring) {
    r.spare > 0 ==> r.produce <= r.consume < r.size - r.spare
  }

  function Wrap(n: nat, size: nat): nat {
    if n == size then 0 else n
  }

  /** `Stated && TailWrapped` without the remainder operator (see WellFormedIsStated). */
  predicate WellFormed(r: Ring) {
    && r.produce < r.size && r.consume < r.size
    && r.free + r.valid + r.spare == r.size
    && Distance(r.size, r.consume, r.produce) == Wrap(r.valid + r.spare, r.size)
    && Distance(r.size, r.produce, r.consume) == Wrap(r.free, r.size)
    && TailWrapped(r)
  }

  lemma WellFormedIsStated(r: Ring)
    ensures WellFormed(r) <==> Stated(r) && TailWrapped(r)
  {
    if 0 < r.size {
      if r.valid + r.spare < r.size { SmallRemainder(r.valid + r.spare, r.size); }
      if r.free < r.size { SmallRemainder(r.free, r.size); }
      SelfRemainder(r.size);
    }
  }

  lemma SmallRemainder(n: nat, size: nat)
    requires n < size
    ensures n % size == n
  {
  }

  lemma SelfRemainder(size: nat)
    requires 0 < size
    ensures size % size == 0
  {
    assert size == 1 * size + 0;
  }

  function Fresh(size: nat): Ring {
    Ring(size, 0, 0, size, 0, 0, false)
  }

  /** ProduceBuffer on the last ring of a chain: an empty ring restarts at its base; a short tail is
      skipped when the region at the base is more than twice as large and the tail cannot hold `len`. */
  function Reserve(r: Ring, len: nat): (res: (Ring, nat))
    requires WellFormed(r)
  {
    var r0 := if r.valid == 0 then r.(produce := 0, consume := 0, spare := 0, free := r.size) else r;
    var streak := r0.size - r0.produce;
    if streak >= r0.free then
      (r0.(inUse := true), Min(len, r0.free))
    else if streak < r0.free / 2 && streak < len then
      (r0.(spare := streak, produce := 0, free := r0.free - streak, inUse := true), Min(len, r0.free - streak))
    else
      (r0.(inUse := true), Min(len, streak))
  }

  /** The bytes ConsumeBuffer can offer in one piece. */
  function Run(r: Ring): int {
    var streak := r.size - r.consume - r.spare;
    if streak > r.valid then r.valid else streak
  }

  /** A region of `len` bytes at `fProduce` that ValidBuffer may be told about. */
  predicate Reserved(r: Ring, len: nat) {
    r.produce + len <= r.size && len <= r.free
  }

  function Commit(r: Ring, len: nat): Ring
    requires Reserved(r, len)
  {
    var p := r.produce + len;
    r.(inUse := false, valid := r.valid + len, free := r.free - len, produce := if p == r.size then 0 else p)
  }

  function Release(r: Ring, len: nat): Ring
    requires len <= r.valid
  {
    var r0 := r.(free := r.free + len, valid := r.valid - len, consume := r.consume + len);
    if r0.consume == r0.size - r0.spare then r0.(consume := 0, free := r0.free + r0.spare, spare := 0) else r0
  }

  /** Offset of the k-th byte still to be consumed. */
  function Offset(r: Ring, k: nat): int {
    if r.consume + k < r.size - r.spare then r.consume + k else r.consume + k - (r.size - r.spare)
  }

  /** The bytes in the ring, oldest first. */
  function Pending(r: Ring, bytes: seq<Byte>): (s: seq<Byte>)
    requires WellFormed(r) && |bytes| == r.size
    ensures |s| == r.valid
  {
    var end := r.size - r.spare;
    if r.consume + r.valid <= end then bytes[r.consume..r.consume + r.valid]
    else bytes[r.consume..end] + bytes[..r.consume + r.valid - end]
  }

  lemma PendingAt(r: Ring, bytes: seq<Byte>)
    requires WellFormed(r) && |bytes| == r.size
    ensures forall k :: 0 <= k < r.valid ==>
      0 <= Offset(r, k) < r.size && Pending(r, bytes)[k] == bytes[Offset(r, k)]
  {
  }

  /** An empty ring never keeps a skipped tail. */
  lemma EmptyHasNoTail(r: Ring)
    requires WellFormed(r) && r.valid == 0
    ensures r.spare == 0 && r.free == r.size && r.produce == r.consume
  {
  }

  /** ProduceBuffer: the invariant survives, a non-empty part is granted whenever there is both room and
      demand, and neither the stream nor what an outstanding ConsumeBuffer was shown changes. */
  lemma ReserveKeepsStream(r: Ring, len: nat, bytes: seq<Byte>)
    requires WellFormed(r) && |bytes| == r.size
    ensures var (s, part) := Reserve(r, len);
      && WellFormed(s) && s.inUse && s.size == r.size && s.valid == r.valid
      && part <= len && Reserved(s, part)
      && (part == 0 <==> len == 0 || r.free == 0)
      && Pending(s, bytes) == Pending(r, bytes)
      && (r.valid > 0 ==> s.consume == r.consume && Run(s) == Run(r))
  {
    hide Reserve, WellFormed, Pending, Run;
    ReserveShape(r, len);
    ReserveInPlace(r, len, bytes);
  }

  lemma ReserveShape(r: Ring, len: nat)
    requires WellFormed(r)
    ensures var (s, part) := Reserve(r, len);
      && WellFormed(s) && s.inUse && s.size == r.size && s.valid == r.valid
      && part <= len && Reserved(s, part) && (part == 0 <==> len == 0 || r.free == 0)
  {
    if r.valid == 0 { EmptyHasNoTail(r); }
  }

  lemma ReserveInPlace(r: Ring, len: nat, bytes: seq<Byte>)
    requires WellFormed(r) && |bytes| == r.size && WellFormed(Reserve(r, len).0) && Reserve(r, len).0.size == r.size
    ensures var s := Reserve(r, len).0;
      && Pending(s, bytes) == Pending(r, bytes)
      && (r.valid > 0 ==> s.consume == r.consume && Run(s) == Run(r))
  {
  }

  /** How much room there is at `fProduce` in one piece. */
  function RoomAhead(r: Ring): int {
    if r.size - r.produce < r.free then r.size - r.produce else r.free
  }

  /** What is granted: all of the demand or all the room in one piece, where the piece is the one at
      `fProduce`, unless the demand does not fit there and the piece at the base is the larger part of what is
      free; then the tail is given up.  An empty ring starts at its base. */
  lemma ReserveGrants(r: Ring, len: nat)
    requires WellFormed(r)
    ensures var (s, part) := Reserve(r, len);
      && (part == len || part == RoomAhead(s))
      && (r.valid == 0 ==> s.produce == 0 && s.consume == 0 && s.spare == 0 && RoomAhead(s) == r.size)
      && (r.valid > 0 ==>
            var gap := RoomAhead(r);
            if gap < len && 2 * gap + 2 <= r.free then
              s.produce == 0 && s.spare == r.spare + gap && RoomAhead(s) == r.free - gap && s.consume == r.consume
            else s == r.(inUse := true))
  {
    if r.valid == 0 { EmptyHasNoTail(r); }
  }

  /** The producer's region holds no byte still to be consumed. */
  lemma RegionsDisjoint(r: Ring, len: nat, k: nat)
    requires WellFormed(r) && Reserved(r, len) && k < r.valid
    ensures !(r.produce <= Offset(r, k) < r.produce + len)
  {
  }

  predicate SameOutside(a: seq<Byte>, b: seq<Byte>, lo: nat, hi: nat) {
    |a| == |b| && forall i :: 0 <= i < |a| && !(lo <= i < hi) ==> a[i] == b[i]
  }

  /** Filling the reserved region does not disturb the stream. */
  lemma WriteKeepsPending(r: Ring, len: nat, before: seq<Byte>, after: seq<Byte>)
    requires WellFormed(r) && |before| == r.size && Reserved(r, len)
    requires SameOutside(before, after, r.produce, r.produce + len)
    ensures Pending(r, after) == Pending(r, before)
  {
    PendingAt(r, before);
    PendingAt(r, after);
    forall k | 0 <= k < r.valid
      ensures Pending(r, after)[k] == Pending(r, before)[k]
    {
      RegionsDisjoint(r, len, k);
    }
  }

  /** ValidBuffer appends exactly the bytes of the filled region. */
  lemma CommitAppends(r: Ring, len: nat, bytes: seq<Byte>)
    requires WellFormed(r) && |bytes| == r.size && Reserved(r, len)
    ensures var s := Commit(r, len);
      && WellFormed(s) && s.size == r.size
      && Pending(s, bytes) == Pending(r, bytes) + bytes[r.produce..r.produce + len]
      && s.consume == r.consume && Run(s) >= Run(r)
  {
    CommitWellFormed(r, len);
    var s := Commit(r, len);
    PendingAt(r, bytes);
    PendingAt(s, bytes);
    var right := Pending(r, bytes) + bytes[r.produce..r.produce + len];
    forall k | 0 <= k < s.valid
      ensures Pending(s, bytes)[k] == right[k]
    {
      CommitOffsets(r, len, k);
    }
  }

  lemma CommitWellFormed(r: Ring, len: nat)
    requires WellFormed(r) && Reserved(r, len)
    ensures WellFormed(Commit(r, len)) && Run(Commit(r, len)) >= Run(r)
  {
  }

  lemma CommitOffsets(r: Ring, len: nat, k: nat)
    requires WellFormed(r) && Reserved(r, len) && k < r.valid + len
    ensures Offset(Commit(r, len), k) == if k < r.valid then Offset(r, k) else r.produce + (k - r.valid)
  {
  }

  /** FreeBuffer removes exactly the oldest bytes and leaves an outstanding production untouched. */
  lemma ReleaseDrops(r: Ring, len: nat, bytes: seq<Byte>)
    requires WellFormed(r) && |bytes| == r.size && len <= Run(r)
    ensures var s := Release(r, len);
      && WellFormed(s) && s.size == r.size && s.inUse == r.inUse
      && Pending(s, bytes) == Pending(r, bytes)[len..]
      && s.produce == r.produce && s.free >= r.free
  {
    ReleaseWellFormed(r, len);
    var s := Release(r, len);
    PendingAt(r, bytes);
    PendingAt(s, bytes);
    forall k | 0 <= k < s.valid
      ensures Pending(s, bytes)[k] == Pending(r, bytes)[len..][k]
    {
      ReleaseOffsets(r, len, k);
    }
  }

  lemma ReleaseWellFormed(r: Ring, len: nat)
    requires WellFormed(r) && len <= Run(r)
    ensures WellFormed(Release(r, len)) && Release(r, len).free >= r.free
  {
  }

  lemma ReleaseOffsets(r: Ring, len: nat, k: nat)
    requires WellFormed(r) && len <= Run(r) && k < r.valid - len
    ensures Offset(Release(r, len), k) == Offset(r, k + len)
  {
  }

  /** What ConsumeBuffer shows is the front of the stream, in place. */
  lemma RunIsFront(r: Ring, len: nat, bytes: seq<Byte>)
    requires WellFormed(r) && |bytes| == r.size && len <= Run(r)
    ensures r.consume + len <= r.size && len <= r.valid
    ensures bytes[r.consume..r.consume + len] == Pending(r, bytes)[..len]
    ensures Run(r) == 0 <==> r.valid == 0
  {
  }

  // ----- filling a ring without a concurrent consumer -----

  /** After `done` bytes were copied into a ring that started with `free` and `spare`: nothing is lost
      but a new skipped tail, which is less than half of what was free. */
  predicate Filled(r: Ring, free: nat, spare: nat, done: nat) {
    && done + r.free + r.spare == free + spare
    && spare <= r.spare
    && (r.spare > spare ==> 2 * (r.spare - spare) < free)
  }

  /** One chunk of Produce: afterwards all is copied, or the ring is full, or the next chunk starts at
      the base and takes everything there is. */
  lemma ChunkFills(r: Ring, free: nat, spare: nat, done: nat, rest: nat)
    requires WellFormed(r) && Filled(r, free, spare, done) && 0 < rest && 0 < r.free
    requires done > 0 ==> r.produce == 0 && r.valid > 0
    requires done == 0 ==> r.free == free && r.spare == spare
    ensures var (s, part) := Reserve(r, rest);
      && 0 < part <= rest && Reserved(s, part)
      && var t := Commit(s, part);
      && Filled(t, free, spare, done + part)
      && (part == rest || t.free == 0 || (t.produce == 0 && t.valid > 0))
      && (r.produce == 0 && r.valid > 0 ==> part == rest || t.free == 0)
  {
  }

  /** What the bookkeeping means once the loop has stopped. */
  lemma FilledBounds(r: Ring, free: nat, spare: nat, done: nat, total: nat)
    requires Filled(r, free, spare, done) && done <= total && (done == total || r.free == 0)
    ensures Min(total, free / 2) <= done <= Min(total, free)
  {
  }

  /** How far Produce has got on a ring that started with `free` and `spare`: `len` of `total` bytes are in,
      after `chunks` rounds. */
  predicate FilledFrom(r: Ring, free: nat, spare: nat, len: nat, total: nat, chunks: nat) {
    && Filled(r, free, spare, len)
    && (chunks == 0 ==> len == 0 && r.free == free && r.spare == spare)
    && (chunks == 1 ==> 0 < len && (len == total || r.free == 0 || (r.produce == 0 && r.valid > 0)))
    && (chunks == 2 ==> len == total || r.free == 0)
    && chunks <= 2
  }

  lemma FilledStep(r: Ring, free: nat, spare: nat, len: nat, total: nat, chunks: nat)
    requires WellFormed(r) && FilledFrom(r, free, spare, len, total, chunks) && len < total && r.free > 0
    ensures var (s, part) := Reserve(r, total - len);
      && part <= total - len && Reserved(s, part)
      && FilledFrom(Commit(s, part), free, spare, len + part, total, chunks + 1)
  {
    hide Filled, WellFormed, Reserve, Commit;
    ChunkFills(r, free, spare, len, total - len);
  }

  /** What the ring will take of `len` bytes altogether: all that is free, or, when the first chunk skips
      the tail, what remains of it. */
  function Room(r: Ring, len: nat): (n: int)
    requires WellFormed(r)
    ensures 0 <= n <= r.free
  {
    var r0 := if r.valid == 0 then Fresh(r.size) else r;
    var streak := r0.size - r0.produce;
    if streak < r0.free && streak < r0.free / 2 && streak < len then r0.free - streak else r0.free
  }

  /** One chunk does not change how much the ring will take altogether, and if the rest fits, the chunk is not
      empty. */
  lemma RoomStep(r: Ring, rest: nat)
    requires WellFormed(r) && rest > 0
    ensures var (s, part) := Reserve(r, rest);
      && part <= rest && Reserved(s, part) && WellFormed(Commit(s, part))
      && (rest <= Room(r, rest) ==> part > 0)
      && (rest <= Room(r, rest) <==> rest - part <= Room(Commit(s, part), rest - part))
      && Min(rest, Room(r, rest)) == part + Min(rest - part, Room(Commit(s, part), rest - part))
  {
    hide Reserve, Commit, Room, Run, Pending, WellFormed;
    ReserveKeepsStream(r, rest, seq(r.size, _ => 0));
    var (s, part) := Reserve(r, rest);
    CommitWellFormed(s, part);
    RoomTaken(r, rest);
  }

  lemma RoomTaken(r: Ring, rest: nat)
    requires WellFormed(r) && rest > 0
    requires var (s, part) := Reserve(r, rest); part <= rest && Reserved(s, part) && WellFormed(Commit(s, part))
    ensures var (s, part) := Reserve(r, rest);
      Min(rest, Room(r, rest)) == part + Min(rest - part, Room(Commit(s, part), rest - part))
  {
    hide Run, Pending;
    if r.valid == 0 { EmptyHasNoTail(r); }
  }
}
