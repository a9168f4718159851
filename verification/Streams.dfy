/** Whole runs of the buffer chain: a producer, a consumer, SwitchBuffer and PurgeBuffers interleaved
    at the level of the two-phase calls, with the bytes going in and coming out recorded. */
module Streams {
  import opened Rings
  import opened Chains

  /** `heap` holds the live memory blocks, `lost` the live blocks no buffer refers to any more.
      `shown` bytes at `front` are what the outstanding ConsumeBuffer returned. */
  datatype World = World(
    ch: Chain, heap: Heap, prod: Production, front: Pointer, shown: nat,
    accepted: seq<Byte>, delivered: seq<Byte>, lost: multiset<nat>)

  datatype Event =
    | BeginProduce(len: nat)
    | EndProduce(data: seq<Byte>)
    | BeginConsume(want: nat)
    | EndConsume(taken: nat)
    | Switch(size: nat, blk: nat, junk: seq<Byte>)
    | Purge

  /** The shown bytes are still at the front of the top buffer. */
  predicate ShowsFront(ch: Chain, front: Pointer, shown: nat)
    requires |ch| >= 1
  {
    shown > 0 ==> front == Pointer(ch[0].block, ch[0].ring.consume) && shown <= Run(ch[0].ring)
  }

  /** The live blocks are the owned and the lost ones, each once. */
  ghost predicate Books(owned: multiset<nat>, heap: Heap, lost: multiset<nat>) {
    (forall b :: b in heap <==> b in owned + lost) && NoDup(owned + lost)
  }

  ghost predicate Inv(w: World) {
    && Sound(w.ch, w.heap, w.prod)
    && w.accepted == w.delivered + Stream(w.ch, w.heap)
    && ShowsFront(w.ch, w.front, w.shown)
    && Books(Owned(w.ch), w.heap, w.lost)
  }

  function Init(size: nat, blk: nat, junk: seq<Byte>): World {
    World([Node(blk, Fresh(size), [])], map[blk := junk], Idle, Pointer(blk, 0), 0, [], [], multiset{})
  }

  /** What the two callers may do next: one production and one consumption at a time, no more bytes
      than were granted or shown; NewPtr returns a new block with arbitrary contents. */
  predicate Enabled(w: World, e: Event) {
    match e
    case BeginProduce(_) => w.prod.Idle?
    case EndProduce(data) => w.prod.Outstanding? && |data| <= w.prod.len
    case BeginConsume(_) => w.shown == 0
    case EndConsume(taken) => taken <= w.shown
    case Switch(size, blk, junk) => size >= 1 && blk !in w.heap && |junk| == size
    case Purge => true
  }

  ghost function Step(w: World, e: Event): World
    requires Inv(w)
  {
    if !Enabled(w, e) then w else
      match e
      case BeginProduce(len) =>
        BackedWellFormed(w.ch, w.heap);
        var (c, at, part) := ProduceBuffer(w.ch, len);
        w.(ch := c, prod := Outstanding(at, part))
      case EndProduce(data) =>
        WriteKeepsStream(w.ch, w.prod.at, w.prod.len, data, w.heap);
        var at := w.prod.at;
        w.(ch := ValidBuffer(w.ch, at.block, |data|),
           heap := w.heap[at.block := Written(w.heap[at.block], at.offset, data)],
           prod := Idle, accepted := w.accepted + data,
           lost := w.lost + LostByValid(w.ch, at.block, |data|))
      case BeginConsume(want) =>
        ConsumeShowsFront(w.ch, want, w.heap, w.prod);
        var (c, at, part) := ConsumeBuffer(w.ch, want);
        w.(ch := c, front := at, shown := part)
      case EndConsume(taken) =>
        FrontIsStream(w, taken);
        w.(ch := FreeBuffer(w.ch, taken), shown := 0,
           delivered := w.delivered + Seen(w, taken),
           lost := w.lost + LostByFree(w.ch, taken))
      case Switch(size, blk, junk) =>
        var (c, freed) := SwitchBuffer(w.ch, size, blk);
        var h := if SwitchAllocates(w.ch, size) then w.heap[blk := junk] else w.heap;
        w.(ch := c, heap := Disposed(h, freed))
      case Purge =>
        w.(ch := w.ch[0 := w.ch[0].(obsolete := [])], heap := Disposed(w.heap, multiset(w.ch[0].obsolete)))
  }

  /** What the consumer reads through the pointer it was given. */
  ghost function Seen(w: World, taken: nat): seq<Byte>
    requires Inv(w) && taken <= w.shown
  {
    FrontIsStream(w, taken);
    if taken == 0 then [] else w.heap[w.front.block][w.front.offset..w.front.offset + taken]
  }

  lemma FrontIsStream(w: World, taken: nat)
    requires Inv(w) && taken <= w.shown
    ensures taken <= Run(w.ch[0].ring) && taken <= w.ch[0].ring.valid && taken <= Valid(w.ch)
    ensures taken > 0 ==>
              && w.front.block in w.heap && w.front.offset + taken <= |w.heap[w.front.block]|
              && w.heap[w.front.block][w.front.offset..w.front.offset + taken] == Stream(w.ch, w.heap)[..taken]
  {
    assert BackedNode(w.ch[0], w.heap);
    if taken > 0 {
      ConsumeShowsFront(w.ch, taken, w.heap, w.prod);
    }
  }

  // ----- the invariant is inductive -----

  lemma InitInv(size: nat, blk: nat, junk: seq<Byte>)
    requires size >= 1 && |junk| == size
    ensures Inv(Init(size, blk, junk))
  {
    var w := Init(size, blk, junk);
    assert BackedNode(w.ch[0], w.heap);
    assert w.ch[1..] == [];
    EmptyStream(w.ch, w.heap);
    assert Owned(w.ch) + w.lost == multiset{blk};
  }

  lemma BeginProduceInv(w: World, len: nat)
    requires Inv(w) && Enabled(w, BeginProduce(len))
    ensures Inv(Step(w, BeginProduce(len)))
  {
    ProduceKeepsStream(w.ch, len, w.heap);
    assert BackedNode(w.ch[0], w.heap);
    ProduceKeepsBlocks(w.ch, len, w.heap);
  }

  lemma ProduceKeepsBlocks(ch: Chain, len: nat, h: Heap)
    requires Sound(ch, h, Idle)
    ensures AllWellFormed(ch)
    ensures |ProduceBuffer(ch, len).0| >= 1 && ProduceBuffer(ch, len).0[0].block == ch[0].block
  {
    BackedWellFormed(ch, h);
    ProduceGoesLast(ch, len);
  }

  lemma EndProduceInv(w: World, data: seq<Byte>)
    requires Inv(w) && Enabled(w, EndProduce(data))
    ensures Inv(Step(w, EndProduce(data)))
  {
    EndProduceSound(w, data);
    EndProduceData(w, data);
    EndProduceFront(w, data);
    EndProduceBooks(w, data);
  }

  lemma EndProduceSound(w: World, data: seq<Byte>)
    requires Inv(w) && Enabled(w, EndProduce(data))
    ensures var w' := Step(w, EndProduce(data)); Sound(w'.ch, w'.heap, w'.prod)
  {
    WriteKeepsStream(w.ch, w.prod.at, w.prod.len, data, w.heap);
    ValidKeepsSound(w.ch, w.prod.at, w.prod.len, data, w.heap);
  }

  lemma EndProduceData(w: World, data: seq<Byte>)
    requires Inv(w) && Enabled(w, EndProduce(data))
    ensures var w' := Step(w, EndProduce(data));
      Backed(w'.ch, w'.heap) && w'.accepted == w'.delivered + Stream(w'.ch, w'.heap)
  {
    WriteKeepsStream(w.ch, w.prod.at, w.prod.len, data, w.heap);
    ValidAppends(w.ch, w.prod.at, w.prod.len, data, w.heap);
    Associates(w.delivered, Stream(w.ch, w.heap), data);
  }

  lemma Associates(a: seq<Byte>, b: seq<Byte>, c: seq<Byte>)
    ensures (a + b) + c == a + (b + c)
  {
  }

  lemma EndProduceFront(w: World, data: seq<Byte>)
    requires Inv(w) && Enabled(w, EndProduce(data))
    ensures var w' := Step(w, EndProduce(data)); |w'.ch| >= 1 && ShowsFront(w'.ch, w'.front, w'.shown)
  {
    WriteKeepsStream(w.ch, w.prod.at, w.prod.len, data, w.heap);
    ValidTracks(w.ch, w.prod.at, w.prod.len, |data|, w.heap);
    if w.shown > 0 { ShownHasData(w); }
  }

  lemma ShownHasData(w: World)
    requires Inv(w) && w.shown > 0
    ensures w.ch[0].ring.valid > 0
  {
    assert BackedNode(w.ch[0], w.heap);
  }

  lemma EndProduceBooks(w: World, data: seq<Byte>)
    requires Inv(w) && Enabled(w, EndProduce(data))
    ensures var w' := Step(w, EndProduce(data)); Books(Owned(w'.ch), w'.heap, w'.lost)
  {
    var at := w.prod.at;
    WriteKeepsStream(w.ch, at, w.prod.len, data, w.heap);
    ValidOwned(w.ch, at, w.prod.len, |data|, w.heap);
    MoveToLost(Owned(w.ch), Owned(ValidBuffer(w.ch, at.block, |data|)), LostByValid(w.ch, at.block, |data|), w.lost);
  }

  lemma MoveToLost(owned: multiset<nat>, kept: multiset<nat>, moved: multiset<nat>, lost: multiset<nat>)
    requires kept + moved == owned
    ensures kept + (lost + moved) == owned + lost
  {
  }

  lemma BeginConsumeInv(w: World, want: nat)
    requires Inv(w) && Enabled(w, BeginConsume(want))
    ensures Inv(Step(w, BeginConsume(want)))
  {
    ConsumeShowsFront(w.ch, want, w.heap, w.prod);
  }

  lemma EndConsumeInv(w: World, taken: nat)
    requires Inv(w) && Enabled(w, EndConsume(taken))
    ensures Inv(Step(w, EndConsume(taken)))
  {
    FrontIsStream(w, taken);
    FreeKeepsSound(w.ch, taken, w.heap, w.prod);
    EndConsumeData(w, taken);
    EndConsumeBooks(w, taken);
  }

  lemma EndConsumeData(w: World, taken: nat)
    requires Inv(w) && Enabled(w, EndConsume(taken))
    ensures var w' := Step(w, EndConsume(taken));
      Backed(w'.ch, w'.heap) && w'.accepted == w'.delivered + Stream(w'.ch, w'.heap)
  {
    hide Stream, FreeBuffer, Books, NoDup, Tracks, Busy, ConsumeBuffer;
    FrontIsStream(w, taken);
    FreeDrops(w.ch, taken, w.heap, w.prod);
    var s := Stream(w.ch, w.heap);
    assert Seen(w, taken) == s[..taken];
    assert w.delivered + s == (w.delivered + s[..taken]) + s[taken..];
  }

  lemma EndConsumeBooks(w: World, taken: nat)
    requires Inv(w) && Enabled(w, EndConsume(taken))
    ensures var w' := Step(w, EndConsume(taken)); Books(Owned(w'.ch), w'.heap, w'.lost)
  {
    FrontIsStream(w, taken);
    FreeOwned(w.ch, taken);
    MoveToLost(Owned(w.ch), Owned(FreeBuffer(w.ch, taken)), LostByFree(w.ch, taken), w.lost);
  }

  lemma SwitchInv(w: World, size: nat, blk: nat, junk: seq<Byte>)
    requires Inv(w) && Enabled(w, Switch(size, blk, junk))
    ensures Inv(Step(w, Switch(size, blk, junk)))
  {
    var (c, freed) := SwitchBuffer(w.ch, size, blk);
    var allocates := SwitchAllocates(w.ch, size);
    var h := if allocates then w.heap[blk := junk] else w.heap;
    assert blk !in Owned(w.ch) && blk !in w.lost by { assert blk !in Owned(w.ch) + w.lost; }
    SwitchSound(w.ch, size, blk, junk, w.heap, w.prod);
    SwitchFrees(w.ch, size, blk);
    DisposeKeepsStream(c, h, w.prod, freed);
    SwitchOwned(w.ch, size, blk);
    SwitchBooks(w.ch, size, blk, junk, w.heap, w.lost);
    SwitchTop(w.ch, size, blk);
    assert BackedNode(w.ch[0], w.heap);
  }

  lemma SwitchBooks(ch: Chain, size: nat, blk: nat, junk: seq<Byte>, heap: Heap, lost: multiset<nat>)
    requires |ch| >= 1 && Books(Owned(ch), heap, lost) && blk !in heap
    ensures var (c, freed) := SwitchBuffer(ch, size, blk);
      var h := if SwitchAllocates(ch, size) then heap[blk := junk] else heap;
      Books(Owned(c), Disposed(h, freed), lost)
  {
    var (c, freed) := SwitchBuffer(ch, size, blk);
    var added := if SwitchAllocates(ch, size) then multiset{blk} else multiset{};
    SwitchOwned(ch, size, blk);
    assert blk !in Owned(ch) + lost;
    Ledger(Owned(ch), Owned(c), freed, added, lost);
  }

  /** Bookkeeping of one operation: `kept + freed == owned + added`. */
  lemma Ledger(owned: multiset<nat>, kept: multiset<nat>, freed: multiset<nat>, added: multiset<nat>, lost: multiset<nat>)
    requires kept + freed == owned + added && NoDup(owned + lost) && NoDup(added)
    requires forall b :: b in added ==> b !in owned && b !in lost
    ensures NoDup(kept + lost)
    ensures forall b :: b in kept + lost <==> (b in owned + lost || b in added) && b !in freed
  {
    forall b
      ensures (kept + lost)[b] <= 1
      ensures b in kept + lost <==> (b in owned + lost || b in added) && b !in freed
    {
      assert kept[b] + freed[b] == (kept + freed)[b] == owned[b] + added[b];
      assert (owned + lost)[b] == owned[b] + lost[b] <= 1;
    }
  }

  lemma PurgeInv(w: World)
    requires Inv(w)
    ensures Inv(Step(w, Purge))
  {
    var c := w.ch[0 := w.ch[0].(obsolete := [])];
    var freed := multiset(w.ch[0].obsolete);
    PurgeKeepsSound(w.ch, w.heap, w.prod);
    DisposeKeepsStream(c, w.heap, w.prod, freed);
    Ledger(Owned(w.ch), Owned(c), freed, multiset{}, w.lost);
  }

  lemma StepInv(w: World, e: Event)
    requires Inv(w)
    ensures Inv(Step(w, e))
  {
    if Enabled(w, e) {
      match e
      case BeginProduce(len) => BeginProduceInv(w, len);
      case EndProduce(data) => EndProduceInv(w, data);
      case BeginConsume(want) => BeginConsumeInv(w, want);
      case EndConsume(taken) => EndConsumeInv(w, taken);
      case Switch(size, blk, junk) => SwitchInv(w, size, blk, junk);
      case Purge => PurgeInv(w);
    }
  }

  /** What each call does, whenever its caller may make it. */
  lemma StepExactly(w: World, e: Event)
    requires Inv(w)
    ensures var t := Step(w, e);
      match e
      case BeginProduce(len) =>
        w.prod.Idle? ==> AllWellFormed(w.ch) && t.accepted == w.accepted
                         && (t.ch, t.prod.at, t.prod.len) == ProduceBuffer(w.ch, len)
      case EndProduce(data) =>
        w.prod.Outstanding? && |data| <= w.prod.len ==> t.prod.Idle? && t.accepted == w.accepted + data
      case BeginConsume(want) =>
        w.shown == 0 ==> t.ch == w.ch && (t.shown == want || t.shown == w.ch[0].ring.valid
                                          || w.ch[0].ring.consume + t.shown == w.ch[0].ring.size - w.ch[0].ring.spare)
      case EndConsume(taken) =>
        taken <= w.shown ==> taken <= Valid(w.ch) && t.shown == 0
                             && t.delivered == w.delivered + Stream(w.ch, w.heap)[..taken]
      case Switch(size, blk, junk) =>
        size >= 1 && blk !in w.heap && |junk| == size ==> t.ch == SwitchBuffer(w.ch, size, blk).0
      case Purge => |t.ch| == |w.ch| && t.ch[0] == w.ch[0].(obsolete := []) && t.ch[1..] == w.ch[1..]
  {
    hide Stream, Tracks, Busy, NoDup, ValidBuffer, ProduceBuffer, FreeBuffer, SwitchBuffer;
    BackedWellFormed(w.ch, w.heap);
    match e
    case BeginConsume(want) =>
      ConsumeShowsFront(w.ch, want, w.heap, w.prod);
      SettledWhenBusy(w.ch);
    case EndConsume(taken) => if taken <= w.shown { FrontIsStream(w, taken); }
    case _ =>
  }

  ghost function Exec(w: World, es: seq<Event>): World
    requires Inv(w)
    decreases |es|
  {
    if es == [] then w else
      StepInv(w, es[0]);
      Exec(Step(w, es[0]), es[1..])
  }

  /** Main result: over every run the chain is a byte FIFO.  What was delivered is a prefix of what was
      accepted, the rest is exactly the pending stream, and Valid() is its length. */
  lemma {:induction false} ChainIsFifo(w: World, es: seq<Event>)
    requires Inv(w)
    ensures var end := Exec(w, es);
      && Inv(end)
      && end.accepted == end.delivered + Stream(end.ch, end.heap)
      && |end.accepted| - |end.delivered| == Valid(end.ch)
    decreases |es|
  {
    if es != [] {
      StepInv(w, es[0]);
      ChainIsFifo(Step(w, es[0]), es[1..]);
    }
  }

  // ----- memory -----

  /** No buffer behind the top has obsolete blocks of its own to purge. */
  predicate TailsClean(ch: Chain) {
    forall i :: 0 < i < |ch| ==> ch[i].obsolete == []
  }

  predicate PositiveCommits(es: seq<Event>) {
    forall i :: 0 <= i < |es| && es[i].EndProduce? ==> |es[i].data| > 0
  }

  lemma StepClean(w: World, e: Event)
    requires Inv(w) && TailsClean(w.ch) && (e.EndProduce? ==> |e.data| > 0)
    ensures TailsClean(Step(w, e).ch) && Step(w, e).lost == w.lost
  {
    hide Stream, NoDup, Tracks, Reserved, Disposed, Books;
    if Enabled(w, e) {
      match e
      case BeginProduce(len) =>
        BackedWellFormed(w.ch, w.heap);
        ProduceGoesLast(w.ch, len);
      case EndProduce(data) =>
        ValidClosedForm(w.ch, w.prod.at, w.prod.len, |data|, w.heap);
      case BeginConsume(want) =>
        ConsumeShowsFront(w.ch, want, w.heap, w.prod);
      case EndConsume(taken) =>
        FrontIsStream(w, taken);
        FreeClosedForm(w.ch, taken);
      case Switch(size, blk, junk) =>
        SwitchTop(w.ch, size, blk);
      case Purge =>
    }
  }

  lemma {:induction false} RunClean(w: World, es: seq<Event>)
    requires Inv(w) && TailsClean(w.ch) && PositiveCommits(es)
    ensures TailsClean(Exec(w, es).ch) && Exec(w, es).lost == w.lost
    decreases |es|
  {
    if es != [] {
      StepInv(w, es[0]);
      StepClean(w, es[0]);
      assert forall i :: 0 <= i < |es[1..]| ==> es[1..][i] == es[i + 1];
      RunClean(Step(w, es[0]), es[1..]);
    }
  }

  /** Destroying the top buffer disposes its block, its purge list and, recursively, its successors. */
  function Destroyed(ch: Chain): multiset<nat>
    decreases |ch|
  {
    if ch == [] then multiset{} else multiset{ch[0].block} + multiset(ch[0].obsolete) + Destroyed(ch[1..])
  }

  lemma DestroysOwned(ch: Chain)
    ensures Destroyed(ch) == Owned(ch)
  {
  }

  /** Conservation: after any run, destroying the buffer leaves exactly the lost blocks allocated; each
      disposed block was live and is disposed once. */
  lemma DestroyLeavesLost(w: World, es: seq<Event>)
    requires Inv(w)
    ensures var end := Exec(w, es);
      && NoDup(Destroyed(end.ch))
      && (forall b :: b in Destroyed(end.ch) ==> b in end.heap)
      && (forall b :: b in Disposed(end.heap, Destroyed(end.ch)) <==> b in end.lost)
  {
    ChainIsFifo(w, es);
    var end := Exec(w, es);
    DestroysOwned(end.ch);
    NoDupSplit(Owned(end.ch), end.lost);
    forall b ensures b in Disposed(end.heap, Destroyed(end.ch)) <==> b in end.lost {
      assert b in end.heap.Keys <==> b in Owned(end.ch) + end.lost;
    }
  }

  /** If every ValidBuffer length is positive, nothing is left allocated. */
  lemma NoLeak(size: nat, blk: nat, junk: seq<Byte>, es: seq<Event>)
    requires size >= 1 && |junk| == size && PositiveCommits(es)
    ensures Inv(Init(size, blk, junk))
    ensures var end := Exec(Init(size, blk, junk), es);
      Disposed(end.heap, Destroyed(end.ch)) == map[]
  {
    InitInv(size, blk, junk);
    var w := Init(size, blk, junk);
    RunClean(w, es);
    DestroyLeavesLost(w, es);
    var left := Disposed(Exec(w, es).heap, Destroyed(Exec(w, es).ch));
    assert forall b :: b !in left;
    assert left.Keys == {};
  }

  /** Buffers behind an open production were added after it was opened, and have no list yet. */
  predicate AheadClean(w: World)
    requires |w.ch| >= 1
  {
    w.prod.Outstanding? ==> forall i :: Target(w.ch, w.prod.at.block) < i < |w.ch| ==> w.ch[i].obsolete == []
  }

  /** FreeBuffer empties the top buffer and moves up a successor that has a list of its own. */
  predicate Overwrites(w: World, e: Event)
    requires |w.ch| >= 1
  {
    e.EndConsume? && Enabled(w, e) && FreeObsoletes(w.ch, e.taken) && w.ch[1].obsolete != []
  }

  lemma EndProduceLoses(w: World, data: seq<Byte>)
    requires Inv(w) && AheadClean(w) && Enabled(w, EndProduce(data))
    ensures Step(w, EndProduce(data)).lost == w.lost
  {
    hide Stream, NoDup, Tracks, Reserved, Books, ValidBuffer;
    WriteKeepsStream(w.ch, w.prod.at, w.prod.len, data, w.heap);
    var t := Target(w.ch, w.prod.at.block);
    if Adopts(w.ch, t, |data|) { assert w.ch[t + 1].obsolete == []; }
  }

  lemma EndConsumeAhead(w: World, taken: nat)
    requires Inv(w) && AheadClean(w) && Enabled(w, EndConsume(taken))
    ensures AheadClean(Step(w, EndConsume(taken)))
  {
    hide Stream, NoDup, Books, FreeBuffer, Seen;
    FrontIsStream(w, taken);
    FreeClosedForm(w.ch, taken);
    var c := FreeBuffer(w.ch, taken);
    if w.prod.Outstanding? {
      var b := w.prod.at.block;
      var c1 := w.ch[0 := w.ch[0].(ring := Release(w.ch[0].ring, taken))];
      TargetSameBlocks(w.ch, c1, b);
      if FreeObsoletes(w.ch, taken) {
        assert c == ObsoleteBuffer(c1);
        TargetSameBlocks(c1[1..], c, b);
        assert Target(c1, b) == 1 + Target(c1[1..], b);
      }
    }
  }

  lemma SwitchAhead(w: World, size: nat, blk: nat, junk: seq<Byte>)
    requires Inv(w) && Enabled(w, Switch(size, blk, junk))
    ensures |Step(w, Switch(size, blk, junk)).ch| >= 1 && AheadClean(Step(w, Switch(size, blk, junk)))
  {
    hide Stream, NoDup, Books, SwitchBuffer, Disposed, Tracks;
    SwitchTop(w.ch, size, blk);
  }

  lemma StepAhead(w: World, e: Event)
    requires Inv(w) && AheadClean(w)
    ensures Inv(Step(w, e)) && AheadClean(Step(w, e))
  {
    hide Stream, NoDup, Books, Owned, Reserved, Disposed;
    StepInv(w, e);
    if Enabled(w, e) {
      match e
      case BeginProduce(len) => BeginProduceAhead(w, len);
      case EndConsume(taken) => EndConsumeAhead(w, taken);
      case Switch(size, blk, junk) => SwitchAhead(w, size, blk, junk);
      case BeginConsume(want) => ConsumeShowsFront(w.ch, want, w.heap, w.prod);
      case Purge =>
        if w.prod.Outstanding? { TargetSameBlocks(w.ch, w.ch[0 := w.ch[0].(obsolete := [])], w.prod.at.block); }
      case EndProduce(_) =>
    }
  }

  lemma BeginProduceAhead(w: World, len: nat)
    requires Inv(w) && Enabled(w, BeginProduce(len))
    ensures |Step(w, BeginProduce(len)).ch| >= 1 && AheadClean(Step(w, BeginProduce(len)))
  {
    hide Stream, NoDup, Books, ProduceBuffer;
    BackedWellFormed(w.ch, w.heap);
    ProduceGoesLast(w.ch, len);
    var n := |w.ch| - 1;
    forall i | 0 <= i < n ensures w.ch[i].block != w.ch[n].block { BlocksDistinct(w.ch, i, n); }
    ProduceTracks(w.ch, len);
    assert ProduceBuffer(w.ch, len).0[n].ring.inUse;
  }

  /** Of all operations only such a FreeBuffer loses a block. */
  lemma StepLoses(w: World, e: Event)
    requires Inv(w) && AheadClean(w)
    ensures w.lost <= Step(w, e).lost
    ensures Step(w, e).lost == w.lost <==> !Overwrites(w, e)
  {
    hide Stream, NoDup, Tracks, FreeBuffer, ValidBuffer, ProduceBuffer, SwitchBuffer, ConsumeBuffer, Seen;
    if Enabled(w, e) {
      match e
      case EndProduce(data) => EndProduceLoses(w, data);
      case EndConsume(taken) =>
        if Overwrites(w, e) { assert w.ch[1].obsolete[0] in multiset(w.ch[1].obsolete); }
      case _ =>
    }
  }

  ghost predicate EverOverwrites(w: World, es: seq<Event>)
    requires Inv(w)
    decreases |es|
  {
    es != [] && (Overwrites(w, es[0]) || (StepInv(w, es[0]); EverOverwrites(Step(w, es[0]), es[1..])))
  }

  lemma {:induction false} RunLoses(w: World, es: seq<Event>)
    requires Inv(w) && AheadClean(w)
    ensures w.lost <= Exec(w, es).lost
    ensures Exec(w, es).lost == w.lost <==> !EverOverwrites(w, es)
    decreases |es|
  {
    if es != [] {
      StepAhead(w, es[0]);
      StepLoses(w, es[0]);
      RunLoses(Step(w, es[0]), es[1..]);
    }
  }

  /** Exactly when destroying the buffer leaves memory allocated, over all runs. */
  lemma LeakExactly(size: nat, blk: nat, junk: seq<Byte>, es: seq<Event>)
    requires size >= 1 && |junk| == size
    ensures Inv(Init(size, blk, junk))
    ensures var end := Exec(Init(size, blk, junk), es);
      Disposed(end.heap, Destroyed(end.ch)) == map[] <==> !EverOverwrites(Init(size, blk, junk), es)
  {
    InitInv(size, blk, junk);
    var w := Init(size, blk, junk);
    RunLoses(w, es);
    DestroyLeavesLost(w, es);
    var end := Exec(w, es);
    var left := Disposed(end.heap, Destroyed(end.ch));
    if end.lost == multiset{} {
      assert forall b :: b !in left;
      assert left.Keys == {};
    } else {
      var b :| b in end.lost;
      assert b in left;
    }
  }

  /** The blocks an event hands to DisposePtr. */
  function FreedBy(w: World, e: Event): multiset<nat>
    requires |w.ch| >= 1
  {
    if !Enabled(w, e) then multiset{}
    else match e
      case Switch(size, blk, _) => SwitchBuffer(w.ch, size, blk).1
      case Purge => multiset(w.ch[0].obsolete)
      case _ => multiset{}
  }

  /** No block is disposed twice or while a buffer still uses it: what is disposed was live, is disposed
      once, and is neither owned nor live afterwards. */
  lemma DisposalsSafe(w: World, e: Event)
    requires Inv(w)
    ensures var freed := FreedBy(w, e); var w' := Step(w, e);
      && NoDup(freed)
      && (forall b :: b in freed ==> b in w.heap && b !in w'.heap && b !in Owned(w'.ch))
      && (forall i :: 0 <= i < |w'.ch| ==> w'.ch[i].block !in freed)
  {
    StepInv(w, e);
    var freed, w' := FreedBy(w, e), Step(w, e);
    if Enabled(w, e) {
      match e
      case Switch(size, blk, junk) =>
        assert blk !in Owned(w.ch) by { assert blk !in Owned(w.ch) + w.lost; }
        NoDupSub(Owned(w.ch), Owned(w.ch) + w.lost);
        SwitchFrees(w.ch, size, blk);
      case Purge => PurgeKeepsSound(w.ch, w.heap, w.prod);
      case _ =>
    }
    forall b | b in freed ensures b in w.heap && b !in w'.heap && b !in Owned(w'.ch) {
      assert b in Owned(w.ch) + w.lost || e.Purge?;
      if e.Purge? { BlocksOwned(w.ch, 0); assert b in Blocks(w.ch[0]); assert b in Owned(w.ch) + w.lost; }
    }
    forall i | 0 <= i < |w'.ch| ensures w'.ch[i].block !in freed { BlockIsOwned(w'.ch, i); }
  }

  /** Where NoLeak needs its hypothesis: a ValidBuffer leaves a purge list behind the top exactly when it
      closes, with length zero, a production in an empty buffer that is neither the top nor the last. */
  lemma ZeroLengthCommit(ch: Chain, at: Pointer, granted: nat, len: nat, h: Heap)
    requires Sound(ch, h, Outstanding(at, granted)) && len <= granted && TailsClean(ch)
    ensures var t := Target(ch, at.block);
      TailsClean(ValidBuffer(ch, at.block, len)) <==> !(0 < t < |ch| - 1 && len == 0 && ch[t].ring.valid == 0)
  {
    var t := Target(ch, at.block);
    ValidClosedForm(ch, at, granted, len, h);
    if 0 < t && Adopts(ch, t, len) {
      var c := ValidBuffer(ch, at.block, len);
      assert c[t].obsolete == [ch[t].block] + ch[t].obsolete;
    }
  }

  /** A state where it happens, for any three blocks: a byte waits in the top buffer, a production is open
      in the empty second one, and a third was added meanwhile. */
  function LeakChain(p: nat, q: nat, r: nat): Chain {
    [Node(p, Ring(4, 0, 1, 3, 1, 0, false), []), Node(q, Ring(2, 0, 0, 2, 0, 0, true), []), Node(r, Fresh(3), [])]
  }

  lemma LeakChainSound(p: nat, q: nat, r: nat, h: Heap)
    requires p != q && q != r && p != r
    requires p in h && q in h && r in h && |h[p]| == 4 && |h[q]| == 2 && |h[r]| == 3
    ensures Sound(LeakChain(p, q, r), h, Outstanding(Pointer(q, 0), 1))
  {
    var ch := LeakChain(p, q, r);
    LeakTails(ch);
    TargetOf(ch, 1);
    LeakOwned(ch);
    assert BackedNode(ch[0], h) && BackedNode(ch[1], h) && BackedNode(ch[2], h);
  }

  lemma LeakOwned(ch: Chain)
    requires |ch| == 3 && forall i :: 0 <= i < 3 ==> ch[i].obsolete == []
    ensures Owned(ch) == multiset{ch[0].block, ch[1].block, ch[2].block}
  {
    LeakTails(ch);
    OwnedCons(ch);
    OwnedCons(ch[1..]);
    OwnedCons(ch[2..]);
  }

  lemma LeakTails(ch: Chain)
    requires |ch| == 3
    ensures ch[1..] == [ch[1], ch[2]] && ch[1..][1..] == ch[2..] == [ch[2]] && ch[2..][1..] == []
  {
  }

  /** Closed with length zero, the production's block ends up on the third buffer's list; consuming the
      byte makes the top buffer overwrite that list. */
  lemma LeakExample(p: nat, q: nat, r: nat, h: Heap)
    requires p != q && q != r && p != r
    requires p in h && q in h && r in h && |h[p]| == 4 && |h[q]| == 2 && |h[r]| == 3
    ensures var ch := LeakChain(p, q, r);
      && Reserved(ch[Target(ch, q)].ring, 0)
      && var c := ValidBuffer(ch, q, 0);
         c == [ch[0], Node(r, Fresh(3), [q])] && LostByFree(c, 1) == multiset{q}
  {
    hide ValidBuffer, Settle;
    var ch := LeakChain(p, q, r);
    LeakTails(ch);
    TargetOf(ch, 1);
    LeakChainSound(p, q, r, h);
    ValidClosedForm(ch, Pointer(q, 0), 1, 0, h);
    var heir := ch[2].(obsolete := [q]);
    assert [ch[1].block] + ch[1].obsolete == [q];
    assert ValidBuffer(ch, q, 0) == ch[..1] + [heir] + ch[3..] == [ch[0], heir];
    assert multiset(heir.obsolete) == multiset{q};
  }

  lemma RunOne(w: World, e: Event, es: seq<Event>)
    requires Inv(w)
    ensures Inv(Step(w, e)) && Exec(w, [e] + es) == Exec(Step(w, e), es)
  {
    StepInv(w, e);
    assert ([e] + es)[1..] == es;
  }

  // The chains the run goes through: a byte waiting, a production open.

  function OneByte(p: nat): Node {
    Node(p, Ring(4, 0, 1, 3, 1, 0, false), [])
  }

  function Opened(q: nat, size: nat): Node {
    Node(q, Ring(size, 0, 0, size, 0, 0, true), [])
  }

  predicate At(w: World, ch: Chain, prod: Production, shown: nat) {
    w.ch == ch && w.prod == prod && w.shown == shown && w.lost == multiset{}
  }

  lemma OpenFirst(p: nat, size: nat)
    requires size >= 1
    ensures var ch := [Node(p, Fresh(size), [])];
      AllWellFormed(ch) && ProduceBuffer(ch, 1) == ([Opened(p, size)], Pointer(p, 0), 1)
  {
  }

  lemma CloseFirst(p: nat)
    ensures ValidBuffer([Opened(p, 4)], p, 1) == [OneByte(p)] && LostByValid([Opened(p, 4)], p, 1) == multiset{}
  {
    assert [Opened(p, 4)][1..] == [];
  }

  lemma OpenSecond(p: nat, q: nat)
    ensures var ch := [OneByte(p), Node(q, Fresh(2), [])];
      AllWellFormed(ch) && ProduceBuffer(ch, 1) == ([OneByte(p), Opened(q, 2)], Pointer(q, 0), 1)
  {
    hide ProduceBuffer;
    var ch := [OneByte(p), Node(q, Fresh(2), [])];
    OpenFirst(q, 2);
    assert ch[1..] == [Node(q, Fresh(2), [])];
    OpenRest(ch, 1);
    assert [OneByte(p)] + [Opened(q, 2)] == [OneByte(p), Opened(q, 2)];
  }

  lemma OpenRest(ch: Chain, len: nat)
    requires |ch| >= 2 && AllWellFormed(ch) && ch[0].ring.valid > 0
    ensures AllWellFormed(ch[1..])
    ensures var (rest, at, part) := ProduceBuffer(ch[1..], len);
      ProduceBuffer(ch, len) == ([ch[0]] + rest, at, part)
  {
    AllWellFormedRest(ch);
  }

  lemma AddBuffers(p: nat, q: nat, r: nat)
    ensures SwitchBuffer([OneByte(p)], 2, q).0 == [OneByte(p), Node(q, Fresh(2), [])]
    ensures SwitchBuffer([OneByte(p), Opened(q, 2)], 3, r).0 == LeakChain(p, q, r)
  {
    SwitchClosedForm([OneByte(p)], 2, q);
    SwitchClosedForm([OneByte(p), Opened(q, 2)], 3, r);
  }

  /** NewPtr may return any block that is neither owned nor lost. */
  lemma NewBlock(w: World, b: nat)
    requires Inv(w) && b !in Owned(w.ch) + w.lost
    ensures b !in w.heap
  {
  }

  /** A byte goes into the only buffer. */
  lemma FillStep(w: World, p: nat, x: Byte)
    requires Inv(w) && At(w, [Node(p, Fresh(4), [])], Idle, 0)
    ensures var u := Step(w, BeginProduce(1));
      Inv(u) && Inv(Step(u, EndProduce([x]))) && At(Step(u, EndProduce([x])), [OneByte(p)], Idle, 0)
  {
    hide Inv, ProduceBuffer, ValidBuffer, LostByValid, Opened, OneByte, WellFormed, Written;
    OpenFirst(p, 4);
    CloseFirst(p);
    StepInv(w, BeginProduce(1));
    var u := Step(w, BeginProduce(1));
    assert At(u, [Opened(p, 4)], Outstanding(Pointer(p, 0), 1), 0);
    StepInv(u, EndProduce([x]));
  }

  /** The buffer is replaced, a production is opened in the replacement, and that is replaced as well. */
  lemma ReplaceTwice(w: World, p: nat, q: nat, r: nat, j2: seq<Byte>, j3: seq<Byte>)
    requires p != q && q != r && p != r && |j2| == 2 && |j3| == 3
    requires Inv(w) && At(w, [OneByte(p)], Idle, 0)
    ensures var u := Step(w, Switch(2, q, j2));
      && Inv(u) && var v := Step(u, BeginProduce(1));
      && Inv(v) && var z := Step(v, Switch(3, r, j3));
      && Inv(z) && At(z, LeakChain(p, q, r), Outstanding(Pointer(q, 0), 1), 0)
  {
    hide Inv, ProduceBuffer, SwitchBuffer, SwitchAllocates, Disposed, Owned, WellFormed, LeakChain;
    OpenSecond(p, q);
    AddBuffers(p, q, r);
    OwnedSingle(OneByte(p));
    NewBlock(w, q);
    StepInv(w, Switch(2, q, j2));
    var u := Step(w, Switch(2, q, j2));
    assert At(u, [OneByte(p), Node(q, Fresh(2), [])], Idle, 0);
    StepInv(u, BeginProduce(1));
    var v := Step(u, BeginProduce(1));
    assert At(v, [OneByte(p), Opened(q, 2)], Outstanding(Pointer(q, 0), 1), 0);
    OwnedPair(OneByte(p), Opened(q, 2));
    NewBlock(v, r);
    StepInv(v, Switch(3, r, j3));
  }

  lemma OwnedPair(a: Node, b: Node)
    ensures Owned([a, b]) == Blocks(a) + Blocks(b)
  {
    assert [a, b][1..] == [b];
    OwnedSingle(b);
  }

  /** The production is closed with length zero, and the byte is consumed. */
  lemma LoseBlock(w: World, p: nat, q: nat, r: nat)
    requires p != q && q != r && p != r && Inv(w) && At(w, LeakChain(p, q, r), Outstanding(Pointer(q, 0), 1), 0)
    ensures var u := Step(w, EndProduce([]));
      && Inv(u) && var v := Step(u, BeginConsume(1));
      && Inv(v) && Inv(Step(v, EndConsume(1))) && Step(v, EndConsume(1)).lost == multiset{q}
  {
    hide Inv, ValidBuffer, LostByValid, ConsumeBuffer, FreeBuffer, LostByFree, WellFormed, Written, Seen, LeakChain;
    CloseEmpty(w, p, q, r);
    StepInv(w, EndProduce([]));
    var u := Step(w, EndProduce([]));
    assert At(u, [OneByte(p), Node(r, Fresh(3), [q])], Idle, 0);
    ShowByte(u, [OneByte(p), Node(r, Fresh(3), [q])], p);
    StepInv(u, BeginConsume(1));
    var v := Step(u, BeginConsume(1));
    assert At(v, u.ch, Idle, 1);
    StepInv(v, EndConsume(1));
  }

  lemma CloseEmpty(w: World, p: nat, q: nat, r: nat)
    requires p != q && q != r && p != r && Inv(w) && w.ch == LeakChain(p, q, r)
    ensures var c := [OneByte(p), Node(r, Fresh(3), [q])];
      Reserved(w.ch[Target(w.ch, q)].ring, 0) && ValidBuffer(w.ch, q, 0) == c && LostByFree(c, 1) == multiset{q}
    ensures LostByValid(w.ch, q, 0) == multiset{}
  {
    hide ValidBuffer, Stream, NoDup, Tracks, Owned;
    assert BackedNode(w.ch[0], w.heap) && BackedNode(w.ch[1], w.heap) && BackedNode(w.ch[2], w.heap);
    LeakExample(p, q, r, w.heap);
    LeakTails(w.ch);
    TargetOf(w.ch, 1);
  }

  lemma ShowByte(w: World, ch: Chain, p: nat)
    requires Inv(w) && w.ch == ch && |ch| >= 1 && ch[0] == OneByte(p)
    ensures ConsumeBuffer(ch, 1) == (ch, Pointer(p, 0), 1)
  {
    SettledWhenBusy(ch);
  }

  function LeakEvents(x: Byte, q: nat, r: nat, j2: seq<Byte>, j3: seq<Byte>): seq<Event> {
    [BeginProduce(1)] + ([EndProduce([x])] + ([Switch(2, q, j2)] + ([BeginProduce(1)] + ([Switch(3, r, j3)] +
    ([EndProduce([])] + ([BeginConsume(1)] + ([EndConsume(1)] + [])))))))
  }

  /** From the constructor on: a run of eight calls after which a block stays allocated for good. */
  lemma LeakRun(p: nat, q: nat, r: nat, x: Byte, j4: seq<Byte>, j2: seq<Byte>, j3: seq<Byte>)
    requires p != q && q != r && p != r && |j4| == 4 && |j2| == 2 && |j3| == 3
    ensures Inv(Init(4, p, j4))
    ensures var end := Exec(Init(4, p, j4), LeakEvents(x, q, r, j2, j3));
      end.lost == multiset{q} && q in Disposed(end.heap, Destroyed(end.ch))
  {
    hide Step, Inv, LeakChain;
    InitInv(4, p, j4);
    var w0 := Init(4, p, j4);
    var tail7 := [EndConsume(1)] + [];
    var tail6 := [BeginConsume(1)] + tail7;
    var tail5 := [EndProduce([])] + tail6;
    var tail4 := [Switch(3, r, j3)] + tail5;
    var tail3 := [BeginProduce(1)] + tail4;
    var tail2 := [Switch(2, q, j2)] + tail3;
    var tail1 := [EndProduce([x])] + tail2;
    RunOne(w0, BeginProduce(1), tail1);
    var w1 := Step(w0, BeginProduce(1));
    RunOne(w1, EndProduce([x]), tail2);
    FillStep(w0, p, x);
    var w2 := Step(w1, EndProduce([x]));
    RunOne(w2, Switch(2, q, j2), tail3);
    var w3 := Step(w2, Switch(2, q, j2));
    RunOne(w3, BeginProduce(1), tail4);
    var w4 := Step(w3, BeginProduce(1));
    RunOne(w4, Switch(3, r, j3), tail5);
    ReplaceTwice(w2, p, q, r, j2, j3);
    var w5 := Step(w4, Switch(3, r, j3));
    RunOne(w5, EndProduce([]), tail6);
    var w6 := Step(w5, EndProduce([]));
    RunOne(w6, BeginConsume(1), tail7);
    var w7 := Step(w6, BeginConsume(1));
    RunOne(w7, EndConsume(1), []);
    LoseBlock(w5, p, q, r);
    var w8 := Step(w7, EndConsume(1));
    assert Exec(w8, []) == w8;
    DestroyLeavesLost(w0, LeakEvents(x, q, r, j2, j3));
  }
}
