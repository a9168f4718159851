/** The block allocator behind `new element` and `delete element`: blocks of slots with a free count in
    the header that overlays slot 0. */
module Allocators {

  /** A slot holds the element's context, 0 when it is empty. */
  class Block {
    const fMax: nat
    const slots: array<nat>
    var fFree: int

    constructor (max: nat)
      requires max >= 1
      ensures fMax == max && slots.Length == max && fresh(slots) && fFree == max - 1
      ensures forall i :: 0 <= i < max ==> slots[i] == 0
    {
      fMax := max;
      slots := new nat[max](_ => 0);
      fFree := max - 1;
    }

    /** The header is right: `fFree` counts the empty slots in 1..fMax-1. */
    ghost predicate Valid()
      reads this, slots
    {
      && 2 <= fMax <= 32767 && slots.Length == fMax
      && fFree == Empties(slots[1..])
    }
  }

  function Empties(s: seq<nat>): nat {
    if s == [] then 0 else (if s[0] == 0 then 1 else 0) + Empties(s[1..])
  }

  lemma {:induction false} EmptiesUpdate(s: seq<nat>, i: nat, v: nat)
    requires i < |s|
    ensures Empties(s[i := v]) == Empties(s) - (if s[i] == 0 then 1 else 0) + (if v == 0 then 1 else 0)
  {
    if i > 0 {
      assert s[i := v][1..] == s[1..][i - 1 := v];
      EmptiesUpdate(s[1..], i - 1, v);
    } else {
      assert s[i := v][1..] == s[1..];
    }
  }

  lemma {:induction false} AllEmpty(s: seq<nat>)
    ensures Empties(s) <= |s|
    ensures Empties(s) == |s| <==> forall i :: 0 <= i < |s| ==> s[i] == 0
  {
    if s != [] {
      AllEmpty(s[1..]);
      assert forall i :: 0 < i < |s| ==> s[i] == s[1..][i - 1];
    }
  }

  lemma {:induction false} AllZero(s: seq<nat>)
    requires forall i :: 0 <= i < |s| ==> s[i] == 0
    ensures Empties(s) == |s|
  {
    AllEmpty(s);
  }

  /** The free counts of a list of blocks. */
  ghost function Frees(blocks: seq<Block>): (f: seq<int>)
    reads blocks
    ensures |f| == |blocks| && forall i :: 0 <= i < |f| ==> f[i] == blocks[i].fFree
  {
    if blocks == [] then [] else [blocks[0].fFree] + Frees(blocks[1..])
  }

  /** The sum of all entries but the k-th. */
  function SumBut(f: seq<int>, k: int): int {
    if f == [] then 0 else (if k == 0 then 0 else f[0]) + SumBut(f[1..], k - 1)
  }

  lemma {:induction false} SumButSame(f: seq<int>, k: nat, v: int)
    requires k < |f|
    ensures SumBut(f[k := v], k) == SumBut(f, k)
  {
    if k > 0 {
      assert f[k := v][1..] == f[1..][k - 1 := v];
      SumButSame(f[1..], k - 1, v);
    } else {
      assert f[k := v][1..] == f[1..];
    }
  }

  lemma {:induction false} SumButPrefix(f: seq<int>, k: int, n: nat)
    requires n < |f| && forall i :: 0 <= i < |f| ==> f[i] >= 0
    ensures SumBut(f[..n + 1], k) == SumBut(f[..n], k) + (if n == k then 0 else f[n])
    ensures SumBut(f[..n + 1], k) <= SumBut(f, k)
  {
    if n == 0 {
      assert f[..1] == [f[0]] && f[..0] == [];
      SumButNonNegative(f[1..], k - 1);
    } else {
      SumButPrefix(f[1..], k - 1, n - 1);
      assert f[..n + 1][1..] == f[1..][..n] && f[..n][1..] == f[1..][..n - 1];
    }
  }

  lemma SumButNone(f: seq<int>, k: int)
    ensures SumBut(f[..0], k) == 0
  {
  }

  lemma {:induction false} SumButNonNegative(f: seq<int>, k: int)
    requires forall i :: 0 <= i < |f| ==> f[i] >= 0
    ensures SumBut(f, k) >= 0
  {
    if f != [] { SumButNonNegative(f[1..], k - 1); }
  }

  /** An element: its block and its slot. */
  type Element = (Block, nat)

  class Allocator {
    var sBlocks: seq<Block>
    ghost var Blocks: set<Block>   // every block allocated and not disposed, listed or not
    ghost var Live: set<Element>   // every element handed out and not deleted

    constructor ()
      ensures Valid() && sBlocks == [] && Blocks == {} && Live == {}
    {
      sBlocks := [];
      Blocks, Live := {}, {};
    }

    /** The list is in order. */
    ghost predicate Listed()
      reads this, sBlocks, set b | b in sBlocks :: b.slots
    {
      && (forall b :: b in sBlocks ==> b.Valid())
      && (forall i, j :: 0 <= i < j < |sBlocks| ==> sBlocks[i] != sBlocks[j] && sBlocks[i].slots != sBlocks[j].slots)
    }

    /** Live elements sit in occupied slots of blocks that still exist, and a listed block holds no others. */
    ghost predicate Handed()
      reads this, Blocks, set b | b in Blocks :: b.slots
    {
      && (forall b :: b in sBlocks ==> b in Blocks)
      && (forall b :: b in Blocks ==> b.slots.Length == b.fMax)
      && (forall x, y :: x in Blocks && y in Blocks && x != y ==> x.slots != y.slots)
      && (forall e :: e in Live ==> e.0 in Blocks && 1 <= e.1 < e.0.fMax && e.0.slots[e.1] != 0)
      && (forall b, i :: b in sBlocks && 1 <= i < b.fMax && b.slots[i] != 0 ==> (b, i) in Live)
    }

    ghost predicate Valid()
      reads this, Blocks, sBlocks, set b | b in sBlocks :: b.slots, set b | b in Blocks :: b.slots
    {
      Listed() && Handed()
    }

    /** `b` is the first listed block with a free slot. */
    static predicate FirstWithRoom(blocks: seq<Block>, frees: seq<int>, b: Block)
      requires |frees| == |blocks|
    {
      exists k :: 0 <= k < |blocks| && blocks[k] == b && frees[k] != 0 && forall j :: 0 <= j < k ==> frees[j] == 0
    }

    /** `new element(context)`: never a live element, over any sequence of calls. */
    method New(context: nat) returns (b: Block, i: nat)
      requires Valid() && context != 0
      requires (forall x :: x in sBlocks ==> x.fFree == 0) && sBlocks != [] ==> 2 * sBlocks[0].fMax <= 32767
      modifies this, sBlocks, set x | x in sBlocks :: x.slots
      ensures Valid() && b in sBlocks && 1 <= i < b.fMax && b.slots[i] == context
      ensures (b, i) !in old(Live) && Live == old(Live) + {(b, i)} && Blocks == old(Blocks) + {b}
      ensures b in old(sBlocks) ==> old(b.slots[i]) == 0 && sBlocks == old(sBlocks)
      ensures b in old(sBlocks) ==> FirstWithRoom(old(sBlocks), old(Frees(sBlocks)), b)
      ensures forall j :: 1 <= j < i ==> b.slots[j] != 0
      ensures b !in old(sBlocks) ==> fresh(b) && fresh(b.slots) && sBlocks == [b] + old(sBlocks)
      ensures b !in old(sBlocks) <==> forall x :: x in old(sBlocks) ==> old(x.fFree) == 0
      ensures b !in old(sBlocks) ==> b.fMax == if old(sBlocks) == [] then 64 else 2 * old(sBlocks[0].fMax)
      ensures forall x, j :: x in old(Blocks) && 0 <= j < x.fMax && (x != b || j != i) ==> x.slots[j] == old(x.slots[j])
    {
      hide Block.Valid, Empties, FirstWithRoom, Frees;
      b, i := TakeSlot(context);
      Blocks := Blocks + {b};
      Live := Live + {(b, i)};
      assert b.Valid() && b.slots.Length == b.fMax by { Lengths(); }
      HandedAfterNew(b, i);
    }

    lemma Lengths()
      requires Listed()
      ensures forall b :: b in sBlocks ==> b.slots.Length == b.fMax
    {
    }

    /** One more occupied slot, of a listed or a fresh block. */
    twostate lemma HandedAfterNew(new b: Block, i: nat)
      requires old(Handed()) && b in sBlocks && (forall x :: x in sBlocks ==> x == b || x in old(sBlocks))
      requires b.slots.Length == b.fMax && 1 <= i < b.fMax && b.slots[i] != 0
      requires b in old(sBlocks) || (b !in old(Blocks) && forall j :: 1 <= j < b.fMax && j != i ==> b.slots[j] == 0)
      requires b !in old(Blocks) ==> forall x :: x in old(Blocks) ==> x.slots != b.slots
      requires forall x, j :: x in old(Blocks) && 0 <= j < x.fMax && x.slots.Length == x.fMax && (x != b || j != i) ==>
                 x.slots[j] == old(x.slots[j])
      requires Blocks == old(Blocks) + {b} && Live == old(Live) + {(b, i)}
      ensures Handed()
    {
    }

    /** One occupied slot fewer; a block leaves the list, and perhaps existence, without a live element. */
    twostate lemma HandedAfterDelete(new b: Block, i: nat)
      requires old(Handed()) && b in old(Blocks) && b.slots.Length == b.fMax && 1 <= i < b.fMax
      requires forall x :: x in sBlocks ==> x in old(sBlocks)
      requires b in old(sBlocks) ==> b.slots[..] == old(b.slots[..])[i := 0]
      requires b !in old(sBlocks) ==> b.slots[..] == old(b.slots[..])
      requires forall x :: x in old(Blocks) && x != b ==> x.slots[..] == old(x.slots[..])
      requires Blocks == old(Blocks) || (Blocks == old(Blocks) - {b} && b in old(sBlocks) && b !in sBlocks
                                         && forall j :: 1 <= j < b.fMax ==> b.slots[j] == 0)
      requires Live == old(Live) - {(b, i)}
      ensures Handed() && (b !in Blocks ==> forall j :: (b, j) !in Live)
    {
      if b in old(sBlocks) {
        forall j | 0 <= j < b.fMax && j != i ensures b.slots[j] == old(b.slots[j]) {
          assert b.slots[..][j] == old(b.slots[..])[j];
        }
        assert b.slots[..][i] == 0;
      }
    }

    /** The body of operator new. */
    method TakeSlot(context: nat) returns (b: Block, i: nat)
      requires Listed() && context != 0
      requires (forall x :: x in sBlocks ==> x.fFree == 0) && sBlocks != [] ==> 2 * sBlocks[0].fMax <= 32767
      modifies this`sBlocks, sBlocks, set x | x in sBlocks :: x.slots
      ensures Listed() && b in sBlocks && 1 <= i < b.fMax && b.slots[i] == context
      ensures b in old(sBlocks) ==> old(b.slots[i]) == 0 && sBlocks == old(sBlocks)
      ensures b in old(sBlocks) ==> FirstWithRoom(old(sBlocks), old(Frees(sBlocks)), b)
      ensures forall j :: 1 <= j < i ==> b.slots[j] != 0
      ensures b !in old(sBlocks) ==> fresh(b) && fresh(b.slots) && sBlocks == [b] + old(sBlocks)
      ensures b !in old(sBlocks) ==> forall j :: 1 <= j < b.fMax && j != i ==> b.slots[j] == 0
      ensures b !in old(sBlocks) <==> forall x :: x in old(sBlocks) ==> old(x.fFree) == 0
      ensures b !in old(sBlocks) ==> b.fMax == if old(sBlocks) == [] then 64 else 2 * old(sBlocks[0].fMax)
      ensures forall x, j :: x in old(sBlocks) && 0 <= j < x.fMax && (x != b || j != i) ==> x.slots[j] == old(x.slots[j])
    {
      var k := 0;
      while k < |sBlocks| && sBlocks[k].fFree == 0
        invariant 0 <= k <= |sBlocks|
        invariant forall j :: 0 <= j < k ==> sBlocks[j].fFree == 0
      {
        k := k + 1;
      }
      if k < |sBlocks| {
        b := sBlocks[k];
        assert b.Valid() && FirstWithRoom(sBlocks, Frees(sBlocks), b);
      } else {
        b := AddBlock();
      }
      i := FirstEmpty(b);
      Fill(b, i, context);
    }

    /** No block has room: list a fresh one, twice as large as the latest. */
    method AddBlock() returns (b: Block)
      requires Listed() && (sBlocks != [] ==> 2 * sBlocks[0].fMax <= 32767)
      modifies this`sBlocks
      ensures Listed() && fresh(b) && fresh(b.slots) && b.Valid() && b.fFree > 0 && sBlocks == [b] + old(sBlocks)
      ensures b.fMax == if old(sBlocks) == [] then 64 else 2 * old(sBlocks[0].fMax)
      ensures forall j :: 0 <= j < b.fMax ==> b.slots[j] == 0
    {
      var max := if sBlocks != [] then sBlocks[0].fMax * 2 else 64;
      assert sBlocks != [] ==> sBlocks[0].Valid();
      b := new Block(max);
      AllZero(b.slots[1..]);
      sBlocks := [b] + sBlocks;
    }

    /** The scan `while ((++e)->fContext)`; the free count keeps it inside the block. */
    method FirstEmpty(b: Block) returns (i: nat)
      requires b.Valid() && b.fFree > 0
      ensures 1 <= i < b.fMax && b.slots[i] == 0
      ensures forall j :: 1 <= j < i ==> b.slots[j] != 0
    {
      i := 1;
      while b.slots[i] != 0
        invariant 1 <= i < b.fMax && Empties(b.slots[i..]) > 0
        invariant forall j :: 1 <= j < i ==> b.slots[j] != 0
        decreases b.fMax - i
      {
        assert b.slots[i..][1..] == b.slots[i + 1..];
        i := i + 1;
      }
    }

    method Fill(b: Block, i: nat, context: nat)
      requires Listed() && b in sBlocks && 1 <= i < b.fMax && b.slots.Length == b.fMax && b.slots[i] == 0 && context != 0
      modifies b, b.slots
      ensures Listed() && b.slots[..] == old(b.slots[..])[i := context]
    {
      assert b.Valid();
      EmptiesUpdate(b.slots[1..], i - 1, context);
      ghost var was := b.slots[..];
      b.fFree := b.fFree - 1;
      b.slots[i] := context;
      assert b.slots[1..] == was[1..][i - 1 := context];
      OthersStayValid(b);
    }

    twostate lemma OthersStayValid(b: Block)
      requires old(Listed()) && b in sBlocks && sBlocks == old(sBlocks) && b.Valid()
      requires forall x :: x in sBlocks && x != b ==> unchanged(x) && unchanged(x.slots)
      ensures Listed()
    {
    }

    /** `delete element`: in an unlisted block nothing happens; a listed block that becomes empty is disposed
        if the others have more than 32 free slots, and then holds no live element. */
    method Delete(b: Block, i: nat) returns (disposed: bool, ghost at: nat)
      requires Valid() && (b, i) in Live
      modifies this, b, b.slots
      ensures Valid() && Live == old(Live) - {(b, i)}
      ensures Blocks == if disposed then old(Blocks) - {b} else old(Blocks)
      ensures b !in old(sBlocks) ==> !disposed && sBlocks == old(sBlocks) && unchanged(b) && unchanged(b.slots)
      ensures b in old(sBlocks) ==> b.slots[..] == old(b.slots[..])[i := 0]
      ensures disposed ==> forall j :: (b, j) !in Live
      ensures b in old(sBlocks) ==> at < |old(sBlocks)| && old(sBlocks)[at] == b
      ensures disposed <==> b in old(sBlocks) && old(b.fFree) == b.fMax - 2 && SumBut(old(Frees(sBlocks)), at) > 32
      ensures !disposed ==> sBlocks == old(sBlocks)
      ensures disposed ==> sBlocks == old(sBlocks)[at + 1..]
    {
      hide Empties, SumBut, Frees, Block.Valid;
      SlotsApart(b);
      disposed, at := FreeSlot(b, i);
      Live := Live - {(b, i)};
      if disposed { Blocks := Blocks - {b}; }
      HandedAfterDelete(b, i);
    }

    lemma SlotsApart(b: Block)
      requires Handed() && b in Blocks
      ensures b.slots.Length == b.fMax && forall x :: x in Blocks && x != b ==> x.slots != b.slots
    {
    }

    /** The body of operator delete. */
    method FreeSlot(b: Block, i: nat) returns (disposed: bool, ghost at: nat)
      requires Listed() && (b in sBlocks ==> 1 <= i < b.fMax && b.slots.Length == b.fMax && b.slots[i] != 0)
      modifies this`sBlocks, b, b.slots
      ensures Listed()
      ensures b !in old(sBlocks) ==> !disposed && sBlocks == old(sBlocks) && unchanged(b) && unchanged(b.slots)
      ensures b in old(sBlocks) ==> b.slots[..] == old(b.slots[..])[i := 0]
      ensures disposed ==> b !in sBlocks && (forall j :: 1 <= j < b.fMax ==> b.slots[j] == 0)
      ensures b in old(sBlocks) ==> at < |old(sBlocks)| && old(sBlocks)[at] == b
      ensures disposed <==> b in old(sBlocks) && old(b.fFree) == b.fMax - 2 && SumBut(old(Frees(sBlocks)), at) > 32
      ensures !disposed ==> sBlocks == old(sBlocks)
      ensures disposed ==> sBlocks == old(sBlocks)[at + 1..]
    {
      hide Empties, SumBut, Frees;
      disposed := false;
      at := 0;
      var k := 0;
      while k < |sBlocks| && sBlocks[k] != b
        invariant 0 <= k <= |sBlocks|
        invariant forall j :: 0 <= j < k ==> sBlocks[j] != b
      {
        k := k + 1;
      }
      if k < |sBlocks| {
        at := k;
        ghost var frees := Frees(sBlocks);
        Empty(b, i);
        assert Frees(sBlocks) == frees[k := b.fFree];
        SumButSame(frees, k, b.fFree);
        disposed := DropIfIdle(b, k);
      }
    }

    /** An empty block is dropped if the others have room. */
    method DropIfIdle(b: Block, k: nat) returns (dropped: bool)
      requires Listed() && k < |sBlocks| && sBlocks[k] == b
      modifies this`sBlocks
      ensures Listed() && sBlocks == if dropped then old(sBlocks)[k + 1..] else old(sBlocks)
      ensures dropped <==> b.fFree == b.fMax - 1 && SumBut(old(Frees(sBlocks)), k) > 32
      ensures dropped ==> b !in sBlocks && b.slots.Length == b.fMax && forall j :: 1 <= j < b.fMax ==> b.slots[j] == 0
    {
      hide Empties, SumBut, Frees;
      dropped := false;
      if b.fFree == b.fMax - 1 {
        EmptyBlock(b);
        dropped := MoreThan32(b, k);
        if dropped {
          DropThrough(k);
        }
      }
    }

    /** `sBlocks = b->fNext`: what unlinking amounts to, `p` being always nil. */
    method DropThrough(k: nat)
      requires Listed() && k < |sBlocks|
      modifies this`sBlocks
      ensures Listed() && sBlocks == old(sBlocks)[k + 1..]
    {
      hide Block.Valid;
      sBlocks := sBlocks[k + 1..];
    }

    static lemma EmptyBlock(b: Block)
      requires b.Valid() && b.fFree == b.fMax - 1
      ensures forall j :: 1 <= j < b.fMax ==> b.slots[j] == 0
    {
      AllEmpty(b.slots[1..]);
      assert forall j :: 1 <= j < b.fMax ==> b.slots[j] == b.slots[1..][j - 1];
    }

    method Empty(b: Block, i: nat)
      requires Listed() && b in sBlocks && 1 <= i < b.fMax && b.slots.Length == b.fMax && b.slots[i] != 0
      modifies b, b.slots
      ensures Listed() && b.slots[..] == old(b.slots[..])[i := 0] && b.fFree == old(b.fFree) + 1
    {
      assert b.Valid();
      EmptiesUpdate(b.slots[1..], i - 1, 0);
      ghost var was := b.slots[..];
      b.slots[i] := 0;
      b.fFree := b.fFree + 1;
      assert b.slots[1..] == was[1..][i - 1 := 0];
      OthersStayValid(b);
    }

    lemma FreesNonNegative()
      requires Listed()
      ensures forall i :: 0 <= i < |Frees(sBlocks)| ==> Frees(sBlocks)[i] >= 0
    {
      assert forall i :: 0 <= i < |sBlocks| ==> sBlocks[i].Valid();
    }

    /** The summing loop, which stops as soon as it has seen enough. */
    method MoreThan32(b: Block, ghost at: nat) returns (enough: bool)
      requires Listed() && at < |sBlocks| && sBlocks[at] == b
      ensures enough <==> SumBut(Frees(sBlocks), at) > 32
    {
      hide Empties, SumBut, Block.Valid, Frees;
      var sum := 0;
      var k := 0;
      ghost var f := Frees(sBlocks);
      FreesNonNegative();
      SumButNone(f, at);
      while k < |sBlocks|
        invariant 0 <= k <= |sBlocks| && sum == SumBut(f[..k], at) <= 32
      {
        SumButPrefix(f, at, k);
        if sBlocks[k] != b {
          sum := sum + sBlocks[k].fFree;
          if sum > 32 {
            return true;
          }
        }
        k := k + 1;
      }
      assert f[..k] == f;
      return false;
    }
  }

  /** Every listed block but `gone` is still listed. */
  predicate AllStay(before: seq<Block>, after: seq<Block>, gone: Block) {
    forall i :: 0 <= i < |before| && before[i] != gone ==> before[i] in after
  }

  /** Disposing the block at index `k` unlists the blocks in front of it as well, because the pointer to
      the predecessor is never advanced; the other blocks all stay listed exactly if `k` is 0. */
  lemma DisposalUnlists(blocks: seq<Block>, k: nat)
    requires k < |blocks| && forall i, j :: 0 <= i < j < |blocks| ==> blocks[i] != blocks[j]
    ensures AllStay(blocks, blocks[k + 1..], blocks[k]) <==> k == 0
  {
    if k > 0 {
      assert blocks[0] != blocks[k];
      var rest := blocks[k + 1..];
      forall x | x in rest ensures x != blocks[0] {
        var j :| 0 <= j < |rest| && rest[j] == x;
        assert x == blocks[j + k + 1];
      }
    } else {
      assert forall i :: 0 < i < |blocks| ==> blocks[i] == blocks[1..][i - 1];
    }
  }
}
