/** GUSIRingBuffer itself: objects linked through `fNewBuffer`, updated in place, over a block memory.

    Every method is proved to compute the chain operation of the same name (Chains.dfy); Produce,
    Consume and Peek, which loop, are proved against the byte stream directly. */
module RingBuffers {
  import opened Rings
  import C = Chains
  import P = Peeking

  /** The Memory Manager calls the buffers use: NewPtr never hands out a live block, DisposePtr may only
      be given a live one. */
  class Memory {
    var blocks: C.Heap
    var next: nat

    ghost predicate Valid()
      reads this
    {
      forall b :: b in blocks ==> b < next
    }

    method NewPtr(size: nat) returns (p: nat)
      requires Valid()
      modifies this
      ensures Valid() && p == old(next) && p !in old(blocks) && next == old(next) + 1
      ensures p in blocks && |blocks[p]| == size && blocks == old(blocks)[p := blocks[p]]
    {
      p := next;
      blocks := blocks[p := seq(size, _ => 0)];
      next := next + 1;
    }

    method DisposePtr(p: nat)
      requires Valid() && p in blocks
      modifies this`blocks
      ensures Valid() && blocks == map b | b in old(blocks) && b != p :: old(blocks)[b]
    {
      blocks := map b | b in blocks && b != p :: blocks[b];
    }

    method BlockMoveData(data: seq<Byte>, p: nat, offset: nat)
      requires Valid() && p in blocks && offset + |data| <= |blocks[p]|
      modifies this`blocks
      ensures Valid() && blocks == old(blocks)[p := C.Written(old(blocks)[p], offset, data)]
    {
      blocks := blocks[p := C.Written(blocks[p], offset, data)];
    }
  }

  class RingBuffer {
    const mem: Memory
    var fBuffer: nat      // the memory block
    var fEnd: nat         // its size; the other pointers are offsets into it as well
    var fConsume: nat
    var fProduce: nat
    var fFree: nat
    var fValid: nat
    var fSpare: nat
    var fInUse: bool
    var fNewBuffer: RingBuffer?
    var fOldBuffer: seq<nat>         // the blocks held by the list of obsolete buffers
    ghost var Repr: set<RingBuffer>  // this buffer and all its successors

    ghost predicate Linked()
      reads this, Repr
      ensures Linked() ==> this in Repr && (fNewBuffer == null ==> Repr == {this})
      decreases Repr
    {
      && this in Repr
      && if fNewBuffer == null then Repr == {this}
         else
           && fNewBuffer in Repr && fNewBuffer.Repr == Repr - {this}
           && fNewBuffer.mem == mem && fNewBuffer.Linked()
    }

    function ToNode(): C.Node
      reads this
    {
      C.Node(fBuffer, Ring(fEnd, fConsume, fProduce, fFree, fValid, fSpare, fInUse), fOldBuffer)
    }

    /** The chain as a value, from this buffer on. */
    ghost function Chain(): (ch: C.Chain)
      requires Linked()
      reads this, Repr
      ensures |ch| >= 1 && ch[0] == ToNode()
      ensures fNewBuffer == null <==> |ch| == 1
      decreases Repr
    {
      if fNewBuffer == null then [ToNode()] else [ToNode()] + fNewBuffer.Chain()
    }

    lemma SuccessorChain()
      requires Linked() && fNewBuffer != null
      ensures fNewBuffer.Chain() == Chain()[1..]
    {
    }

    constructor (memory: Memory, bufsiz: nat)
      requires bufsiz >= 1 && memory.Valid()
      modifies memory
      ensures Linked() && mem == memory && Repr == {this} && fNewBuffer == null
      ensures memory.Valid() && memory.next == old(memory.next) + 1 && fBuffer == old(memory.next)
      ensures fBuffer !in old(memory.blocks) && fBuffer in memory.blocks && |memory.blocks[fBuffer]| == bufsiz
      ensures memory.blocks == old(memory.blocks)[fBuffer := memory.blocks[fBuffer]]
      ensures ToNode() == C.Node(fBuffer, Fresh(bufsiz), [])
      ensures OwnsLive() && SoundWith(C.Idle) && Stream() == []
    {
      mem := memory;
      var p := memory.NewPtr(bufsiz);
      fBuffer, fEnd := p, bufsiz;
      fConsume, fProduce := 0, 0;
      fFree, fValid, fSpare := bufsiz, 0, 0;
      fInUse := false;
      fNewBuffer := null;
      fOldBuffer := [];
      Repr := {this};
      new;
      C.NewChain(Chain(), mem.blocks);
    }

    /** The first assignments of ObsoleteBuffer: everything but the two links. */
    method CopyFields(heir: RingBuffer)
      modifies this`fBuffer, this`fEnd, this`fConsume, this`fProduce, this`fFree, this`fValid, this`fSpare, this`fInUse
      ensures ToNode() == old(heir.ToNode()).(obsolete := fOldBuffer)
    {
      fBuffer, fEnd := heir.fBuffer, heir.fEnd;
      fConsume, fProduce := heir.fConsume, heir.fProduce;
      fFree, fValid, fSpare := heir.fFree, heir.fValid, heir.fSpare;
      fInUse := heir.fInUse;
    }

    method ObsoleteBuffer()
      requires Linked() && fNewBuffer != null
      modifies this, fNewBuffer
      ensures Linked() && Repr < old(Repr)
      ensures |old(Chain())| >= 2 && Chain() == C.ObsoleteBuffer(old(Chain()))
    {
      ghost var was := Chain();
      var heir := fNewBuffer;
      var next := heir.fNewBuffer;
      ghost var rest := if next == null then [] else next.Chain();
      assert heir.Chain() == [heir.ToNode()] + rest && was == [ToNode()] + heir.Chain();
      assert was[2..] == rest;
      var oldBuffer := fBuffer;
      CopyFields(heir);
      fOldBuffer := [oldBuffer] + fOldBuffer;
      fNewBuffer := next;
      heir.fBuffer := oldBuffer;
      heir.fNewBuffer := null;
      Repr := Repr - {heir};
      assert next != null ==> next.Linked() && next.Chain() == rest && next.Repr == Repr - {this};
    }

    /** The loop at the end of ValidBuffer and FreeBuffer and at the start of ConsumeBuffer. */
    method Settle()
      requires Linked()
      modifies Repr
      ensures Linked() && Repr <= old(Repr) && Chain() == C.Settle(old(Chain()))
    {
      while fNewBuffer != null && fValid == 0 && !fInUse
        invariant Linked() && Repr <= old(Repr) && C.Settle(Chain()) == C.Settle(old(Chain()))
        decreases Repr
      {
        ObsoleteBuffer();
      }
    }

    /** ProduceBuffer when there is no replacement buffer. */
    method ReserveHere(want: nat) returns (len: nat)
      requires WellFormed(ToNode().ring)
      modifies this`fProduce, this`fConsume, this`fSpare, this`fFree, this`fInUse
      ensures (ToNode().ring, len) == Reserve(old(ToNode().ring), want)
      ensures ToNode() == old(ToNode()).(ring := ToNode().ring)
    {
      if fValid == 0 {
        fProduce, fConsume := 0, 0;
        fSpare := 0;
        fFree := fEnd;
      }
      var streak := fEnd - fProduce;
      if streak >= fFree {
        streak := fFree;
      } else if streak < fFree / 2 && streak < want {
        fSpare := streak;
        fProduce := 0;
        fFree := fFree - fSpare;
        streak := fFree;
      }
      len := if want > streak then streak else want;
      fInUse := true;
    }

    method ProduceBuffer(want: nat) returns (at: C.Pointer, len: nat)
      requires Linked() && C.AllWellFormed(Chain())
      modifies Repr
      ensures Linked() && Repr <= old(Repr)
      ensures (Chain(), at, len) == C.ProduceBuffer(old(Chain()), want)
      decreases Repr
    {
      hide WellFormed, Reserve, C.ProduceBuffer;
      ghost var was := Chain();
      while fNewBuffer != null
        invariant Linked() && C.AllWellFormed(Chain()) && Repr <= old(Repr)
        invariant C.ProduceBuffer(Chain(), want) == C.ProduceBuffer(was, want)
        decreases Repr
      {
        SuccessorChain();
        C.ProduceCases(Chain(), want);
        if fValid == 0 {
          ObsoleteBuffer();
        } else {
          at, len := fNewBuffer.ProduceBuffer(want);
          Repr := {this} + fNewBuffer.Repr;
          return;
        }
      }
      C.ProduceCases(Chain(), want);
      len := ReserveHere(want);
      at := C.Pointer(fBuffer, fProduce);
    }

    method ConsumeBuffer(want: nat) returns (at: C.Pointer, len: int)
      requires Linked()
      modifies Repr
      ensures Linked() && Repr <= old(Repr)
      ensures (Chain(), at, len) == C.ConsumeBuffer(old(Chain()), want)
    {
      Settle();
      var streak := fEnd - fConsume - fSpare;
      if streak > fValid { streak := fValid; }
      len := if want > streak then streak else want;
      at := C.Pointer(fBuffer, fConsume);
    }

    /** ValidBuffer in the buffer that owns the pointer, before the obsoleting loop. */
    method CommitHere(len: nat)
      requires Reserved(ToNode().ring, len)
      modifies this`fInUse, this`fValid, this`fFree, this`fProduce
      ensures ToNode() == old(ToNode()).(ring := Commit(old(ToNode()).ring, len))
    {
      fInUse := false;
      fValid := fValid + len;
      fFree := fFree - len;
      fProduce := fProduce + len;
      if fProduce == fEnd { fProduce := 0; }
    }

    method ValidBuffer(buffer: nat, len: nat)
      requires Linked() && Reserved(Chain()[C.Target(Chain(), buffer)].ring, len)
      modifies Repr
      ensures Linked() && Repr <= old(Repr)
      ensures Chain() == C.ValidBuffer(old(Chain()), buffer, len)
      decreases Repr
    {
      hide C.Settle, C.ValidBuffer, C.Target, Commit, Reserved;
      ghost var was := Chain();
      C.ValidCases(was, buffer, len);
      if fNewBuffer != null && buffer != fBuffer {
        SuccessorChain();
        fNewBuffer.ValidBuffer(buffer, len);
        Repr := {this} + fNewBuffer.Repr;
        return;
      }
      CommitHere(len);
      assert Chain() == [ToNode()] + was[1..];
      Settle();
    }

    method ReleaseHere(len: nat)
      requires len <= fValid
      modifies this`fFree, this`fValid, this`fConsume, this`fSpare
      ensures ToNode() == old(ToNode()).(ring := Release(old(ToNode()).ring, len))
    {
      fFree := fFree + len;
      fValid := fValid - len;
      fConsume := fConsume + len;
      if fConsume == fEnd - fSpare {
        fConsume := 0;
        fFree := fFree + fSpare;
        fSpare := 0;
      }
    }

    method FreeBuffer(len: nat)
      requires Linked() && len <= fValid
      modifies Repr
      ensures |old(Chain())| >= 1 && len <= old(Chain())[0].ring.valid
      ensures Linked() && Repr <= old(Repr)
      ensures Chain() == C.FreeBuffer(old(Chain()), len)
    {
      ghost var was := Chain();
      ReleaseHere(len);
      assert Chain() == [ToNode()] + was[1..];
      Settle();
    }

    method Valid() returns (n: nat)
      requires Linked()
      ensures n == C.Valid(Chain())
      decreases Repr
    {
      if fNewBuffer != null {
        SuccessorChain();
        n := fNewBuffer.Valid();
        n := n + fValid;
      } else {
        n := fValid;
        assert Chain()[1..] == [];
      }
    }

    method Free() returns (n: nat)
      requires Linked()
      ensures n == Chain()[|Chain()| - 1].ring.free
      decreases Repr
    {
      if fNewBuffer != null {
        SuccessorChain();
        assert Chain()[1..][|Chain()| - 2] == Chain()[|Chain()| - 1];
        n := fNewBuffer.Free();
      } else {
        n := fFree;
      }
    }

    /** `delete fOldBuffer`: each destructor disposes its block and then purges its own list. */
    method PurgeBuffers()
      requires mem.Valid() && C.NoDup(multiset(fOldBuffer)) && forall b :: b in fOldBuffer ==> b in mem.blocks
      modifies this`fOldBuffer, mem`blocks
      ensures mem.Valid() && fOldBuffer == []
      ensures mem.blocks == C.Disposed(old(mem.blocks), multiset(old(fOldBuffer)))
    {
      hide C.NoDup, C.Disposed, Memory.Valid;
      ghost var was, before := fOldBuffer, mem.blocks;
      ghost var k := 0;
      DisposedNone(before);
      assert was[..0] == [];
      while fOldBuffer != []
        invariant k <= |was| && fOldBuffer == was[k..] && mem.Valid()
        invariant mem.blocks == C.Disposed(before, multiset(was[..k]))
        decreases |was| - k
      {
        PurgeHead(was, k, before);
        k := k + 1;
      }
      assert was[..k] == was;
    }

    /** Dispose the first block of the list. */
    method PurgeHead(ghost was: seq<nat>, ghost k: nat, ghost before: C.Heap)
      requires fOldBuffer != [] && k <= |was| && fOldBuffer == was[k..] && mem.Valid()
      requires C.NoDup(multiset(was)) && (forall b :: b in was ==> b in before)
      requires mem.blocks == C.Disposed(before, multiset(was[..k]))
      modifies this`fOldBuffer, mem`blocks
      ensures k < |was| && fOldBuffer == was[k + 1..] && mem.Valid()
      ensures mem.blocks == C.Disposed(before, multiset(was[..k + 1]))
    {
      hide C.NoDup, C.Disposed, Memory.Valid;
      var block := fOldBuffer[0];
      ghost var now := mem.blocks;
      assert block == was[k];
      FirstOccurrence(was, k);
      DisposedHas(before, multiset(was[..k]), block);
      mem.DisposePtr(block);
      DisposedOne(now, block);
      C.DisposedTwice(before, multiset(was[..k]), multiset{block});
      assert was[..k + 1] == was[..k] + [block];
      fOldBuffer := fOldBuffer[1..];
    }

    static lemma DisposedNone(h: C.Heap)
      ensures h == C.Disposed(h, multiset([]))
    {
    }

    static lemma DisposedHas(h: C.Heap, freed: multiset<nat>, b: nat)
      ensures b in C.Disposed(h, freed) <==> b in h && b !in freed
    {
    }

    static lemma FirstOccurrence(s: seq<nat>, i: nat)
      requires i < |s| && C.NoDup(multiset(s))
      ensures s[i] !in s[..i]
    {
      assert s == s[..i] + s[i..];
      assert multiset(s) == multiset(s[..i]) + multiset(s[i..]);
      assert multiset(s)[s[i]] <= 1;
      assert s[i] == s[i..][0] && s[i] in multiset(s[i..]);
    }

    /** Every block the chain is responsible for is live, and it is responsible once. */
    ghost predicate OwnsLive()
      requires Linked()
      reads this, Repr, mem
    {
      mem.Valid() && C.NoDup(C.Owned(Chain())) && forall b :: b in C.Owned(Chain()) ==> b in mem.blocks
    }

    lemma OwnsParts()
      requires Linked() && OwnsLive()
      ensures C.NoDup(multiset(fOldBuffer)) && forall b :: b in fOldBuffer ==> b in mem.blocks
      ensures fBuffer !in fOldBuffer && fBuffer in mem.blocks
      ensures fNewBuffer != null ==>
                && C.NoDup(C.Owned(fNewBuffer.Chain()))
                && forall b :: b in C.Owned(fNewBuffer.Chain()) ==> b in mem.blocks && b != fBuffer && b !in fOldBuffer
    {
      var rest := Chain()[1..];
      assert fNewBuffer != null ==> fNewBuffer.Chain() == rest;
      C.NoDupSplit(C.Blocks(ToNode()), C.Owned(rest));
      C.NoDupSplit(multiset{fBuffer}, multiset(fOldBuffer));
      assert forall b :: b in fOldBuffer ==> b in C.Blocks(ToNode());
      assert fBuffer in C.Blocks(ToNode()) && fBuffer in C.Owned(Chain());
      assert forall b :: b in C.Owned(rest) ==> b in C.Owned(Chain());
    }

    /** PurgeBuffers on a buffer of a chain: the rest of the chain is not affected. */
    method PurgeTop()
      requires Linked() && OwnsLive()
      modifies this`fOldBuffer, mem`blocks
      ensures Linked() && OwnsLive() && Repr == old(Repr) && mem.next == old(mem.next) && fOldBuffer == []
      ensures ToNode() == old(ToNode()).(obsolete := [])
      ensures Chain() == [ToNode()] + old(Chain())[1..]
      ensures mem.blocks == C.Disposed(old(mem.blocks), multiset(old(fOldBuffer)))
    {
      hide C.Owned, C.NoDup;
      ghost var was := Chain();
      OwnsParts();
      C.PurgeOwned(was);
      C.NoDupSplit(C.Owned([was[0].(obsolete := [])] + was[1..]), multiset(fOldBuffer));
      PurgeBuffers();
      assert Chain() == [was[0].(obsolete := [])] + was[1..];
    }

    method SwitchBuffer(bufsiz: nat)
      requires Linked() && OwnsLive() && bufsiz >= 1
      modifies Repr, mem
      ensures Linked() && OwnsLive() && fresh(Repr - old(Repr)) && mem.Valid() && mem.next >= old(mem.next)
      ensures Chain() == C.SwitchBuffer(old(Chain()), bufsiz, old(mem.next)).0
      ensures C.HeapSwitched(old(mem.blocks), mem.blocks, old(Chain()), bufsiz, old(mem.next))
      decreases Repr, 1
    {
      hide C.SwitchBuffer, C.HeapSwitched, C.Disposed, C.Owned, C.NoDup, OwnsLive, Memory.Valid;
      ghost var was, before, blk := Chain(), mem.blocks, mem.next;
      NextUnused();
      PurgeTop();
      if fNewBuffer != null {
        SwitchSuccessor(bufsiz, was[0], before);
      } else {
        NextUnused();
        assert was == [was[0]];
        SwitchLast(bufsiz);
        C.HeapSwitchedLast(before, mem.blocks, was[0], bufsiz, blk);
      }
      C.HeapSwitchedLive(before, mem.blocks, was, bufsiz, blk);
      NowOwnsLive();
    }

    /** SwitchBuffer in a buffer with a successor, after purging. */
    method SwitchSuccessor(bufsiz: nat, ghost top: C.Node, ghost before: C.Heap)
      requires Linked() && OwnsLive() && bufsiz >= 1 && fNewBuffer != null && mem.next !in top.obsolete
      requires mem.blocks == C.Disposed(before, multiset(top.obsolete)) && ToNode() == top.(obsolete := [])
      modifies Repr, mem
      ensures Linked() && fresh(Repr - old(Repr)) && mem.Valid() && mem.next >= old(mem.next)
      ensures var was := [top] + old(Chain())[1..];
        && Chain() == C.SwitchBuffer(was, bufsiz, old(mem.next)).0
        && C.HeapSwitched(before, mem.blocks, was, bufsiz, old(mem.next))
      decreases Repr, 0
    {
      hide C.SwitchBuffer, C.HeapSwitched, C.Disposed, C.Owned, C.NoDup, OwnsLive, Memory.Valid;
      ghost var was, blk := [top] + Chain()[1..], mem.next;
      assert was[1..] == Chain()[1..];
      SuccessorOwnsLive();
      fNewBuffer.SwitchBuffer(bufsiz);
      Repr := {this} + fNewBuffer.Repr;
      C.HeapSwitchedRest(before, mem.blocks, was, bufsiz, blk);
      C.SwitchRest(was, bufsiz, blk);
    }

    /** SwitchBuffer never disturbs a stream, not even while a production is open. */
    method SwitchBetween(bufsiz: nat, ghost prod: C.Production)
      requires Linked() && OwnsLive() && SoundWith(prod) && bufsiz >= 1
      modifies Repr, mem
      ensures Linked() && OwnsLive() && SoundWith(prod) && fresh(Repr - old(Repr))
      ensures Stream() == old(Stream())
    {
      hide C.SwitchBuffer, C.HeapSwitched, C.Sound, C.Stream;
      ghost var was, before := Chain(), mem.blocks;
      NextUnused();
      SwitchBuffer(bufsiz);
      C.HeapSwitchedSound(before, mem.blocks, was, bufsiz, old(mem.next), prod);
    }

    lemma NowOwnsLive()
      requires Linked() && mem.Valid() && C.NoDup(C.Owned(Chain())) && forall b :: b in C.Owned(Chain()) ==> b in mem.blocks
      ensures OwnsLive()
    {
    }

    lemma NextUnused()
      requires Linked() && OwnsLive()
      ensures mem.Valid() && fBuffer in mem.blocks && mem.next !in fOldBuffer && mem.next !in mem.blocks
      ensures mem.next !in C.Owned(Chain()) && C.NoDup(C.Owned(Chain()))
      ensures forall b :: b in C.Owned(Chain()) ==> b in mem.blocks
    {
      OwnsParts();
    }

    lemma SuccessorOwnsLive()
      requires Linked() && OwnsLive() && fNewBuffer != null
      ensures fNewBuffer.OwnsLive() && fNewBuffer.Chain() == Chain()[1..]
    {
      OwnsParts();
    }

    /** SwitchBuffer in the last buffer of the chain, after purging. */
    method SwitchLast(bufsiz: nat)
      requires Linked() && fNewBuffer == null && mem.Valid() && fBuffer in mem.blocks && bufsiz >= 1
      requires fOldBuffer == []
      modifies this, mem
      ensures Linked() && fresh(Repr - old(Repr)) && mem.Valid() && mem.next >= old(mem.next)
      ensures Chain() == C.SwitchBuffer([old(ToNode())], bufsiz, old(mem.next)).0
      ensures C.HeapSwitched(old(mem.blocks), mem.blocks, [old(ToNode())], bufsiz, old(mem.next))
    {
      hide C.SwitchBuffer, C.HeapSwitched;
      ghost var node, before, blk := ToNode(), mem.blocks, mem.next;
      if bufsiz == fEnd {
      } else if !fInUse && fValid == 0 {
        Renew(bufsiz);
      } else {
        fNewBuffer := new RingBuffer(mem, bufsiz);
        Repr := {this} + fNewBuffer.Repr;
      }
      C.SwitchAlone(node, bufsiz, blk, before, mem.blocks);
    }

    /** The empty, unused buffer gets a block of the new size in place of its own. */
    method Renew(bufsiz: nat)
      requires mem.Valid() && fBuffer in mem.blocks
      modifies this`fBuffer, this`fConsume, this`fProduce, this`fEnd, this`fValid, this`fSpare, this`fFree
      modifies this`fInUse, this`fOldBuffer, mem
      ensures mem.Valid() && mem.next >= old(mem.next) && fBuffer == old(mem.next) != old(fBuffer)
      ensures ToNode() == C.Node(fBuffer, Fresh(bufsiz), [])
      ensures fBuffer in mem.blocks && |mem.blocks[fBuffer]| == bufsiz
      ensures mem.blocks ==
              (map b | b in old(mem.blocks) && b != old(fBuffer) :: old(mem.blocks)[b])[fBuffer := mem.blocks[fBuffer]]
    {
      mem.DisposePtr(fBuffer);
      fBuffer := mem.NewPtr(bufsiz);
      fConsume, fProduce := 0, 0;
      fEnd := bufsiz;
      fValid, fSpare := 0, 0;
      fFree := bufsiz;
      fInUse := false;
      fOldBuffer := [];
    }

    /** The destructor's own part: this buffer's block and its purge list. */
    method DisposeOwn()
      requires Linked() && OwnsLive()
      modifies this`fOldBuffer, mem`blocks
      ensures mem.Valid() && Linked() && Repr == old(Repr)
      ensures mem.blocks == C.Disposed(old(mem.blocks), C.Blocks(old(ToNode())))
      ensures fNewBuffer != null ==> fNewBuffer.OwnsLive() && fNewBuffer.Chain() == old(Chain())[1..]
    {
      hide C.NoDup, C.Disposed, C.Owned;
      ghost var before := mem.blocks;
      ghost var purged := multiset(fOldBuffer);
      ghost var block := fBuffer;
      OwnsParts();
      mem.DisposePtr(fBuffer);
      DisposedOne(before, block);
      PurgeBuffers();
      C.DisposedTwice(before, multiset{block}, purged);
      if fNewBuffer != null { StillLive(before, multiset{block} + purged, C.Owned(fNewBuffer.Chain())); }
    }

    /** The destructor of the top buffer. */
    method Destroy()
      requires Linked() && OwnsLive()
      modifies Repr, mem`blocks
      ensures mem.Valid() && mem.blocks == C.Disposed(old(mem.blocks), C.Owned(old(Chain())))
      decreases Repr
    {
      hide OwnsLive, C.Disposed, C.Owned;
      ghost var was, before := Chain(), mem.blocks;
      C.OwnedCons(was);
      DisposeOwn();
      if fNewBuffer != null {
        fNewBuffer.Destroy();
        C.DisposedTwice(before, C.Blocks(was[0]), C.Owned(was[1..]));
      }
    }

    static lemma DisposedOne(h: C.Heap, p: nat)
      ensures C.Disposed(h, multiset{p}) == map b | b in h && b != p :: h[b]
      ensures forall b :: b in C.Disposed(h, multiset{p}) <==> b in h && b != p
    {
    }

    static lemma StillLive(h: C.Heap, freed: multiset<nat>, owned: multiset<nat>)
      requires forall b :: b in owned ==> b in h && b !in freed
      ensures forall b :: b in owned ==> b in C.Disposed(h, freed)
    {
    }

    ghost predicate SoundWith(prod: C.Production)
      requires Linked()
      reads this, Repr, mem
      ensures SoundWith(prod) ==> C.Backed(Chain(), mem.blocks)
    {
      mem.Valid() && C.Sound(Chain(), mem.blocks, prod)
    }

    ghost function Stream(): seq<Byte>
      requires Linked() && C.Backed(Chain(), mem.blocks)
      reads this, Repr, mem
    {
      C.Stream(Chain(), mem.blocks)
    }

    /** The PurgeBuffers call that starts Produce and Consume. */
    method PurgeFirst(ghost prod: C.Production)
      requires Linked() && OwnsLive() && SoundWith(prod)
      modifies this`fOldBuffer, mem`blocks
      ensures Linked() && OwnsLive() && SoundWith(prod) && Stream() == old(Stream()) && Repr == old(Repr)
      ensures |old(Chain())| >= 1 && Chain() == old(Chain())[0 := old(Chain())[0].(obsolete := [])]
    {
      hide C.Owned, C.NoDup, C.Sound, C.Stream, C.Disposed;
      ghost var was, before := Chain(), mem.blocks;
      PurgeTop();
      assert Chain() == was[0 := was[0].(obsolete := [])];
      C.PurgeKeepsSound(was, before, prod);
      C.DisposeKeepsStream(Chain(), before, prod, multiset(was[0].obsolete));
    }

    /** Copy as much of `from` as fits, whenever the loop ends at all (see Chains.ProduceEndsExactly).  A
        single buffer takes at most two chunks and gives up only the bytes that became a skipped tail; in a
        chain everything goes to the last buffer, unless the top buffer is full. */
    method Produce(from: seq<Byte>) returns (len: nat, ghost chunks: nat)
      requires Linked() && OwnsLive() && SoundWith(C.Idle)
      requires C.AllWellFormed(Chain()) && C.ProduceEnds(Chain(), |from|)
      modifies Repr, mem`blocks
      ensures Linked() && OwnsLive() && SoundWith(C.Idle) && Repr <= old(Repr) && fOldBuffer == []
      ensures fNewBuffer == null <==> old(fNewBuffer) == null
      ensures len <= |from| && Stream() == old(Stream()) + from[..len]
      ensures old(fNewBuffer) != null ==> len == if old(fFree) == 0 then 0 else |from|
      ensures old(fNewBuffer) == null ==>
                && chunks <= 2 && (len == |from| || fFree == 0)
                && len + fFree + fSpare == old(fFree + fSpare) && old(fSpare) <= fSpare
                && Min(|from|, old(fFree) / 2) <= len <= Min(|from|, old(fFree))
                && WellFormed(old(ToNode()).ring) && len == Min(|from|, Room(old(ToNode()).ring, |from|))
    {
      hide *;
      ghost var s := Stream();
      CalmChain();
      C.PurgedCalm(Chain(), |from|);
      TopFields();
      PurgeFirst(C.Idle);
      ghost var was := Chain();
      chunks := 0;
      len := 0;
      CalmChain();
      C.UnderwayStart(was, |from|);
      NothingTaken(s, from);
      while len < |from| && fFree > 0
        invariant Linked() && OwnsLive() && SoundWith(C.Idle) && Repr <= old(Repr)
        invariant len <= |from| && Stream() == s + from[..len]
        invariant C.Underway(was, Chain(), len, |from|, chunks)
        decreases |from| - len
      {
        ghost var done, ch := len, Chain();
        StopTest(|from| - len);
        C.UnderwayStep(was, ch, len, |from|, chunks);
        len := ProduceChunk(from, len);
        chunks := chunks + 1;
        Joined(s, from, done, len);
      }
      StopTest(|from| - len);
      C.UnderwayDone(was, Chain(), len, |from|, chunks);
      UnderwayFacts(was, len, |from|, chunks);
      TopFields();
    }

    lemma TopFields()
      requires Linked()
      ensures Chain()[0] == ToNode() && ToNode().ring.free == fFree && ToNode().ring.spare == fSpare
      ensures ToNode().obsolete == fOldBuffer
      ensures fNewBuffer == null <==> |Chain()| == 1
    {
    }

    lemma CalmChain()
      requires Linked() && SoundWith(C.Idle)
      ensures C.Calm(Chain())
    {
      C.SoundIsCalm(Chain(), mem.blocks);
    }

    lemma StopTest(rest: nat)
      requires Linked()
      ensures C.Stopped(Chain(), rest) <==> rest == 0 || fFree == 0
    {
    }

    lemma UnderwayFacts(was: C.Chain, len: nat, total: nat, chunks: nat)
      requires Linked() && C.Underway(was, Chain(), len, total, chunks)
      ensures |Chain()| == |was| && Chain()[0].obsolete == []
    {
    }

    static lemma NothingTaken(s: seq<Byte>, from: seq<Byte>)
      ensures s == s + from[..0]
    {
    }

    static lemma Joined(s: seq<Byte>, from: seq<Byte>, done: nat, len: nat)
      requires done <= len <= |from|
      ensures (s + from[..done]) + from[done..len] == s + from[..len]
    {
    }

    /** One round of the loop in Produce. */
    method ProduceChunk(from: seq<Byte>, done: nat) returns (len: nat)
      requires Linked() && OwnsLive() && SoundWith(C.Idle) && done < |from|
      modifies Repr, mem`blocks
      ensures Linked() && OwnsLive() && SoundWith(C.Idle) && Repr <= old(Repr) && C.AllWellFormed(old(Chain()))
      ensures (Chain(), len - done) == C.Filling(old(Chain()), |from| - done)
      ensures done <= len <= |from| && Stream() == old(Stream()) + from[done..len]
    {
      hide C.ProduceBuffer, C.ValidBuffer, C.Produced, C.Sound, C.Stream, C.Filling, C.Owned, C.NoDup;
      ghost var ch, h := Chain(), mem.blocks;
      ghost var data;
      len, data := ProduceOnce(from, done);
      C.ProducedAppends(ch, h, |from| - done, data, Chain(), mem.blocks);
      C.ProducedOwned(ch, h, |from| - done, data, Chain(), mem.blocks);
    }

    method ProduceOnce(from: seq<Byte>, done: nat) returns (len: nat, ghost data: seq<Byte>)
      requires Linked() && SoundWith(C.Idle) && done < |from|
      modifies Repr, mem`blocks
      ensures Linked() && Repr <= old(Repr) && mem.Valid() && C.AllWellFormed(old(Chain()))
      ensures len == done + C.ProduceBuffer(old(Chain()), |from| - done).2 <= |from| && data == from[done..len]
      ensures C.Produced(old(Chain()), old(mem.blocks), |from| - done, data, Chain(), mem.blocks)
    {
      hide C.ProduceBuffer, C.ValidBuffer, C.Stream, C.Tracks, C.Busy, C.Backed, WellFormed, Commit, Reserve;
      ghost var ch, h := Chain(), mem.blocks;
      C.ProduceFits(ch, |from| - done, h);
      data := from[done..done + C.ProduceBuffer(ch, |from| - done).2];
      C.ProducePossible(ch, h, |from| - done, data);
      var at, part := ProduceBuffer(|from| - done);
      mem.BlockMoveData(from[done..done + part], at.block, at.offset);
      ValidBuffer(at.block, part);
      len := done + part;
    }

    /** Take the oldest bytes; `keep` is false when the caller passed a nil destination. */
    method Consume(want: nat, keep: bool, ghost prod: C.Production) returns (len: nat, to: seq<Byte>)
      requires Linked() && OwnsLive() && SoundWith(prod)
      modifies Repr, mem`blocks
      ensures Linked() && OwnsLive() && SoundWith(prod) && Repr <= old(Repr)
      ensures len == if want < |old(Stream())| then want else |old(Stream())|
      ensures Stream() == old(Stream())[len..]
      ensures keep ==> to == old(Stream())[..len]
    {
      hide *;
      ghost var s := Stream();
      PurgeFirst(prod);
      ghost var taken: seq<Byte> := [];
      len := 0;
      to := [];
      while len < want && fValid > 0
        invariant Linked() && OwnsLive() && SoundWith(prod) && Repr <= old(Repr)
        invariant len == |taken| <= want && s == taken + Stream()
        invariant keep ==> to == taken
        decreases want - len
      {
        TopHasData();
        ghost var chunk;
        var part;
        part, to, chunk := ConsumeChunk(want - len, keep, to, prod);
        C.AppendAssociates(taken, chunk, Stream());
        taken := taken + chunk;
        len := len + part;
      }
      if fValid == 0 { DrainedWhenTopEmpty(prod); }
    }

    lemma DrainedWhenTopEmpty(prod: C.Production)
      requires Linked() && SoundWith(prod) && fValid == 0
      ensures Stream() == []
    {
      C.EmptyTopEmptyChain(Chain(), mem.blocks, prod);
    }

    lemma TopHasData()
      requires Linked() && C.Backed(Chain(), mem.blocks)
      ensures fValid > 0 ==> Stream() != []
    {
      assert Chain()[0].ring.valid == fValid;
    }

    /** One round of the loop in Consume. */
    method ConsumeChunk(want: nat, keep: bool, to0: seq<Byte>, ghost prod: C.Production)
      returns (part: nat, to: seq<Byte>, ghost chunk: seq<Byte>)
      requires Linked() && OwnsLive() && SoundWith(prod)
      modifies Repr
      ensures Linked() && OwnsLive() && SoundWith(prod) && Repr <= old(Repr)
      ensures old(Stream()) == chunk + Stream()
      ensures part == |chunk| <= want && (part == 0 <==> want == 0 || old(Stream()) == [])
      ensures to == if keep then to0 + chunk else to0
    {
      hide C.Sound, C.Stream, C.ConsumeBuffer, C.FreeBuffer, C.Owned, C.NoDup;
      ghost var ch := Chain();
      C.ConsumePossible(ch, mem.blocks, prod, want);
      var at, n := ConsumeBuffer(want);
      to := if keep then to0 + mem.blocks[at.block][at.offset..at.offset + n] else to0;
      chunk := mem.blocks[at.block][at.offset..at.offset + n];
      FreeBuffer(n);
      part := n;
      C.ConsumedDrops(ch, mem.blocks, prod, want, chunk, Chain());
      C.ConsumedOwned(ch, mem.blocks, prod, want, chunk, Chain());
      SoundNoDup(prod);
    }

    lemma SoundNoDup(prod: C.Production)
      requires Linked() && SoundWith(prod)
      ensures mem.Valid() && C.NoDup(C.Owned(Chain()))
    {
    }

    /** Advance along `fNewBuffer` to the next buffer with data. */
    method NextValid() returns (b: RingBuffer?, ghost k: nat)
      requires Linked()
      ensures k <= |Chain()| && k == P.FirstValid(Chain(), 0)
      ensures b == null <==> k == |Chain()|
      ensures b != null ==> b in Repr && b.Repr <= Repr && b.Linked() && b.mem == mem && b.Chain() == Chain()[k..]
      decreases Repr
    {
      hide P.FirstValid;
      P.FirstValidStep(Chain(), 0);
      if fValid > 0 {
        return this, 0;
      } else if fNewBuffer == null {
        P.FirstValidEnd(Chain());
        return null, 1;
      }
      b, k := fNewBuffer.NextValid();
      P.FirstValidShift(Chain(), 1, 0);
      k := k + 1;
    }

    /** Peeker::Peek from a fresh peeker. */
    method Peek(want: nat) returns (to: seq<Byte>)
      requires Linked() && C.Backed(Chain(), mem.blocks)
      ensures to == P.Peek(Chain(), mem.blocks, want)
    {
      hide *;
      ghost var ch := Chain();
      P.StartPositioned(ch, mem.blocks);
      to := [];
      var rest: nat := want;
      var cur: RingBuffer?;
      ghost var k: nat;
      cur, k := NextValid();
      var peek: nat := if cur != null then cur.fConsume else 0;
      PeekStart(cur, k, peek, want);
      while rest > 0 && cur != null
        invariant P.Positioned(ch, mem.blocks, k, peek)
        invariant k <= |ch| && (cur == null <==> k == |ch|)
        invariant cur != null ==> cur.Linked() && cur.mem == mem && cur.Chain() == ch[k..]
        invariant to + P.PeekFrom(ch, mem.blocks, k, peek, rest) == P.Peek(ch, mem.blocks, want)
        decreases rest
      {
        cur.Fields();
        assert ch[k..][0] == ch[k];
        P.PeekOffer(ch, mem.blocks, k, peek, rest);
        var streak := if peek < cur.fConsume then cur.fConsume - peek else cur.fEnd - peek - cur.fSpare;
        if streak > cur.fValid { streak := cur.fValid; }
        var part := if rest > streak then streak else rest;
        P.PeekUnfold(ch, mem.blocks, k, peek, rest, part);
        ghost var to1 := P.Advance(ch, k, peek, part);
        var chunk := mem.blocks[cur.fBuffer][peek..peek + part];
        C.AppendAssociates(to, chunk, P.PeekFrom(ch, mem.blocks, to1.0, to1.1, rest - part));
        to := to + chunk;
        peek := peek + part;
        if peek == cur.fEnd - cur.fSpare { peek := 0; }
        if peek == cur.fConsume {
          cur, k := NextFrom(cur, ch, k);
          peek := if cur != null then cur.fConsume else 0;
          if cur != null {
            cur.Fields();
            assert ch[k..][0] == ch[k];
          }
        }
        rest := rest - part;
      }
      PeekDone(ch, mem.blocks, k, peek, rest);
    }

    lemma Fields()
      requires Linked()
      ensures Chain()[0] == C.Node(fBuffer, Ring(fEnd, fConsume, fProduce, fFree, fValid, fSpare, fInUse), fOldBuffer)
    {
    }

    lemma PeekStart(cur: RingBuffer?, k: nat, peek: nat, want: nat)
      requires Linked() && C.Backed(Chain(), mem.blocks)
      requires k == P.FirstValid(Chain(), 0) && (cur == null <==> k == |Chain()|)
      requires cur != null ==> cur.Linked() && cur.Chain() == Chain()[k..] && peek == cur.fConsume
      requires cur == null ==> peek == 0
      ensures P.Positioned(Chain(), mem.blocks, k, peek)
      ensures [] + P.PeekFrom(Chain(), mem.blocks, k, peek, want) == P.Peek(Chain(), mem.blocks, want)
    {
      P.StartPositioned(Chain(), mem.blocks);
      if cur != null { assert cur.ToNode() == Chain()[k..][0]; }
    }

    static lemma PeekDone(ch: C.Chain, h: C.Heap, k: nat, peek: nat, rest: nat)
      requires P.Positioned(ch, h, k, peek) && (rest == 0 || k == |ch|)
      ensures P.PeekFrom(ch, h, k, peek, rest) == []
    {
    }

    /** The `while ((fCurBuffer = fCurBuffer->fNewBuffer) && !fCurBuffer->fValid)` loop. */
    static method NextFrom(cur: RingBuffer, ghost ch: C.Chain, ghost k: nat) returns (b: RingBuffer?, ghost j: nat)
      requires cur.Linked() && k < |ch| && cur.Chain() == ch[k..]
      ensures j <= |ch| && j == P.FirstValid(ch, k + 1)
      ensures b == null <==> j == |ch|
      ensures b != null ==> b.Linked() && b.mem == cur.mem && b.Chain() == ch[j..]
    {
      hide P.FirstValid;
      assert ch[k..][1..] == ch[k + 1..];
      if cur.fNewBuffer == null {
        P.FirstValidEnd(ch);
        return null, |ch|;
      }
      ghost var d;
      b, d := cur.fNewBuffer.NextValid();
      P.FirstValidShift(ch, k + 1, 0);
      j := k + 1 + d;
      assert ch[k + 1..][d..] == ch[j..];
    }
  }

  /** Round trip: what a buffer accepts comes out again unchanged, in whatever pieces it is consumed, and
      however the buffer is resized meanwhile. */
  method RoundTrip(buffer: RingBuffer, from: seq<Byte>, bufsiz: nat, first: nat) returns (to: seq<Byte>)
    requires buffer.Linked() && buffer.OwnsLive() && buffer.SoundWith(C.Idle) && buffer.Stream() == [] && bufsiz >= 1
    modifies buffer.Repr, buffer.mem
    ensures buffer.Linked() && buffer.OwnsLive() && buffer.SoundWith(C.Idle) && buffer.Stream() == []
    ensures |to| == Min(|from|, old(buffer.fEnd)) && to == from[..|to|]
  {
    hide *;
    EmptyIsAlone(buffer, |from|);
    var len, chunks := buffer.Produce(from);
    ghost var s := from[..len];
    Nothing(s);
    buffer.SwitchBetween(bufsiz, C.Idle);
    to := ConsumeTwice(buffer, first, len, s);
  }

  /** An empty buffer has no replacement, and takes as much as its size. */
  lemma EmptyIsAlone(buffer: RingBuffer, n: nat)
    requires buffer.Linked() && buffer.SoundWith(C.Idle) && buffer.Stream() == []
    ensures C.AllWellFormed(buffer.Chain()) && C.ProduceEnds(buffer.Chain(), n) && buffer.fNewBuffer == null
    ensures WellFormed(buffer.ToNode().ring) && Room(buffer.ToNode().ring, n) == buffer.fEnd
  {
    buffer.CalmChain();
    buffer.TopHasData();
    assert C.BackedNode(buffer.Chain()[0], buffer.mem.blocks);
    EmptyHasNoTail(buffer.ToNode().ring);
  }

  /** Everything in the buffer, in two pieces. */
  method ConsumeTwice(buffer: RingBuffer, first: nat, len: nat, ghost s: seq<Byte>) returns (to: seq<Byte>)
    requires buffer.Linked() && buffer.OwnsLive() && buffer.SoundWith(C.Idle) && buffer.Stream() == s && |s| == len
    modifies buffer.Repr, buffer.mem`blocks
    ensures buffer.Linked() && buffer.OwnsLive() && buffer.SoundWith(C.Idle) && buffer.Stream() == [] && to == s
  {
    hide *;
    var n, start := buffer.Consume(first, true, C.Idle);
    var m, rest := buffer.Consume(len, true, C.Idle);
    to := start + rest;
    TwoPieces(s, n, m);
  }

  lemma Nothing(s: seq<Byte>)
    ensures [] + s == s
  {
  }

  lemma TwoPieces(s: seq<Byte>, n: nat, m: nat)
    requires n <= |s| && m == |s| - n
    ensures s[..n] + s[n..][..m] == s && s[n..][m..] == []
  {
  }
}
