/** The chain of replacement buffers hanging off a GUSIRingBuffer, and the memory blocks it owns.

    A chain lists the top buffer and then every buffer reached through `fNewBuffer`.  `obsolete` is the
    list of blocks reached through a node's `fOldBuffer`.  The functions are the chain-level bodies of
    the operations; RingBuffer.dfy proves that the imperative methods compute them. */
module Chains {
  import opened Rings

  datatype Node = Node(block: nat, ring: Ring, obsolete: seq<nat>)
  datatype Pointer = Pointer(block: nat, offset: nat)
  type Chain = seq<Node>
  type Heap = map<nat, seq<Byte>>

  // ----- operations -----

  /** The next buffer's fields move into this one; its object keeps the obsolete block.  What the next
      buffer's own `fOldBuffer` pointed to is overwritten. */
  function ObsoleteBuffer(ch: Chain): Chain
    requires |ch| >= 2
  {
    [Node(ch[1].block, ch[1].ring, [ch[0].block] + ch[0].obsolete)] + ch[2..]
  }

  /** The loop `while (fNewBuffer && !fValid && !fInUse) ObsoleteBuffer()`. */
  function Settle(ch: Chain): (res: Chain)
    ensures |ch| >= 1 ==> 1 <= |res| <= |ch|
    decreases |ch|
  {
    if |ch| >= 2 && ch[0].ring.valid == 0 && !ch[0].ring.inUse then Settle(ObsoleteBuffer(ch)) else ch
  }

  predicate AllWellFormed(ch: Chain) {
    forall i :: 0 <= i < |ch| ==> WellFormed(ch[i].ring)
  }

  lemma AllWellFormedRest(ch: Chain)
    requires AllWellFormed(ch) && |ch| >= 2
    ensures AllWellFormed(ch[1..]) && AllWellFormed(ObsoleteBuffer(ch))
  {
    var o := ObsoleteBuffer(ch);
    assert forall i :: 0 < i < |o| ==> o[i] == ch[i + 1];
  }

  function ProduceBuffer(ch: Chain, len: nat): (res: (Chain, Pointer, nat))
    requires |ch| >= 1 && AllWellFormed(ch)
    decreases |ch|
  {
    if |ch| == 1 then
      var (r, part) := Reserve(ch[0].ring, len);
      ([ch[0].(ring := r)], Pointer(ch[0].block, r.produce), part)
    else if ch[0].ring.valid == 0 then
      ProduceBuffer(ObsoleteBuffer(ch), len)
    else
      var (rest, p, part) := ProduceBuffer(ch[1..], len);
      ([ch[0]] + rest, p, part)
  }

  /** ValidBuffer, case by case. */
  lemma ValidCases(ch: Chain, block: nat, len: nat)
    requires |ch| >= 1 && Reserved(ch[Target(ch, block)].ring, len)
    ensures |ch| > 1 && ch[0].block != block ==>
              && Reserved(ch[1..][Target(ch[1..], block)].ring, len)
              && ValidBuffer(ch, block, len) == [ch[0]] + ValidBuffer(ch[1..], block, len)
    ensures |ch| == 1 || ch[0].block == block ==>
              && Reserved(ch[0].ring, len)
              && ValidBuffer(ch, block, len) == Settle([ch[0].(ring := Commit(ch[0].ring, len))] + ch[1..])
  {
  }

  /** ProduceBuffer, case by case. */
  lemma ProduceCases(ch: Chain, len: nat)
    requires |ch| >= 1 && AllWellFormed(ch)
    ensures |ch| == 1 ==> var (r, part) := Reserve(ch[0].ring, len);
              ProduceBuffer(ch, len) == ([ch[0].(ring := r)], Pointer(ch[0].block, r.produce), part)
    ensures |ch| > 1 ==> AllWellFormed(ch[1..]) && AllWellFormed(ObsoleteBuffer(ch))
    ensures |ch| > 1 && ch[0].ring.valid == 0 ==> ProduceBuffer(ch, len) == ProduceBuffer(ObsoleteBuffer(ch), len)
    ensures |ch| > 1 && ch[0].ring.valid > 0 ==> var (rest, p, part) := ProduceBuffer(ch[1..], len);
              ProduceBuffer(ch, len) == ([ch[0]] + rest, p, part)
  {
    if |ch| > 1 { AllWellFormedRest(ch); }
  }

  function ConsumeBuffer(ch: Chain, len: nat): (res: (Chain, Pointer, int))
    requires |ch| >= 1
  {
    var c := Settle(ch);
    var run := Run(c[0].ring);
    (c, Pointer(c[0].block, c[0].ring.consume), if len > run then run else len)
  }

  /** Index of the node whose `ValidBuffer` body runs for a pointer into `block`. */
  function Target(ch: Chain, block: nat): (t: nat)
    requires |ch| >= 1
    ensures t < |ch|
  {
    if |ch| == 1 || ch[0].block == block then 0 else 1 + Target(ch[1..], block)
  }

  function ValidBuffer(ch: Chain, block: nat, len: nat): Chain
    requires |ch| >= 1 && Reserved(ch[Target(ch, block)].ring, len)
    decreases |ch|
  {
    if |ch| > 1 && ch[0].block != block then
      [ch[0]] + ValidBuffer(ch[1..], block, len)
    else
      Settle([ch[0].(ring := Commit(ch[0].ring, len))] + ch[1..])
  }

  function FreeBuffer(ch: Chain, len: nat): Chain
    requires |ch| >= 1 && len <= ch[0].ring.valid
  {
    Settle([ch[0].(ring := Release(ch[0].ring, len))] + ch[1..])
  }

  /** SwitchBuffer, with the block NewPtr would return; also the blocks it disposes. */
  function SwitchBuffer(ch: Chain, size: nat, blk: nat): (res: (Chain, multiset<nat>))
    requires |ch| >= 1
    decreases |ch|
  {
    var top := ch[0].(obsolete := []);
    var purged := multiset(ch[0].obsolete);
    if |ch| > 1 then
      var (rest, freed) := SwitchBuffer(ch[1..], size, blk);
      ([top] + rest, purged + freed)
    else if size == top.ring.size then
      ([top], purged)
    else if !top.ring.inUse && top.ring.valid == 0 then
      ([Node(blk, Fresh(size), [])], purged + multiset{top.block})
    else
      ([top, Node(blk, Fresh(size), [])], purged)
  }

  /** Does SwitchBuffer call NewPtr? */
  predicate SwitchAllocates(ch: Chain, size: nat)
    requires |ch| >= 1
  {
    size != ch[|ch| - 1].ring.size
  }

  function Valid(ch: Chain): nat {
    if ch == [] then 0 else ch[0].ring.valid + Valid(ch[1..])
  }

  /** Blocks a node is responsible for, and those of a whole chain. */
  function Blocks(node: Node): multiset<nat> {
    multiset{node.block} + multiset(node.obsolete)
  }

  function Owned(ch: Chain): multiset<nat> {
    if ch == [] then multiset{} else Blocks(ch[0]) + Owned(ch[1..])
  }

  // ----- what a chain means -----

  predicate BackedNode(node: Node, h: Heap) {
    WellFormed(node.ring) && node.block in h && |h[node.block]| == node.ring.size
  }

  predicate Backed(ch: Chain, h: Heap) {
    forall i :: 0 <= i < |ch| ==> BackedNode(ch[i], h)
  }

  lemma BackedWellFormed(ch: Chain, h: Heap)
    requires Backed(ch, h)
    ensures AllWellFormed(ch)
  {
    forall i | 0 <= i < |ch| ensures WellFormed(ch[i].ring) { assert BackedNode(ch[i], h); }
  }

  function Piece(node: Node, h: Heap): seq<Byte>
    requires BackedNode(node, h)
  {
    Pending(node.ring, h[node.block])
  }

  function Pieces(ch: Chain, h: Heap): (ps: seq<seq<Byte>>)
    requires Backed(ch, h)
    ensures |ps| == |ch| && forall i :: 0 <= i < |ch| ==> ps[i] == Piece(ch[i], h)
  {
    seq(|ch|, i requires 0 <= i < |ch| => Piece(ch[i], h))
  }

  function Flat(ps: seq<seq<Byte>>): seq<Byte> {
    if ps == [] then [] else ps[0] + Flat(ps[1..])
  }

  /** The pending bytes of the whole chain, oldest first. */
  function Stream(ch: Chain, h: Heap): (s: seq<Byte>)
    requires Backed(ch, h)
    ensures |s| == Valid(ch)
  {
    FlatLength(ch, h);
    Flat(Pieces(ch, h))
  }

  lemma {:induction false} FlatLength(ch: Chain, h: Heap)
    requires Backed(ch, h)
    ensures |Flat(Pieces(ch, h))| == Valid(ch)
  {
    if ch != [] {
      assert Pieces(ch, h)[1..] == Pieces(ch[1..], h);
      FlatLength(ch[1..], h);
      assert Pieces(ch, h)[0] == Piece(ch[0], h);
    }
  }

  lemma {:induction false} FlatConcat(a: seq<seq<Byte>>, b: seq<seq<Byte>>)
    ensures Flat(a + b) == Flat(a) + Flat(b)
  {
    if a == [] {
      assert a + b == b;
    } else {
      FlatConcat(a[1..], b);
      assert (a + b)[1..] == a[1..] + b;
      AppendAssociates(a[0], Flat(a[1..]), Flat(b));
    }
  }

  lemma AppendAssociates(a: seq<Byte>, b: seq<Byte>, c: seq<Byte>)
    ensures a + (b + c) == (a + b) + c
    ensures a + (b + c) + [] == (a + b + []) + c
  {
  }

  lemma {:induction false} StreamConcat(a: Chain, b: Chain, h: Heap)
    requires Backed(a, h) && Backed(b, h)
    ensures Backed(a + b, h) && Stream(a + b, h) == Stream(a, h) + Stream(b, h)
  {
    assert Backed(a + b, h);
    assert Pieces(a + b, h) == Pieces(a, h) + Pieces(b, h);
    FlatConcat(Pieces(a, h), Pieces(b, h));
  }

  lemma {:induction false} StreamSingle(node: Node, h: Heap)
    requires BackedNode(node, h)
    ensures Backed([node], h) && Stream([node], h) == Piece(node, h)
  {
    assert Pieces([node], h) == [Piece(node, h)];
    assert Flat([Piece(node, h)]) == Piece(node, h) + Flat([]);
  }

  lemma {:induction false} StreamAt(ch: Chain, i: nat, h: Heap)
    requires Backed(ch, h) && i < |ch| && BackedNode(ch[i], h)
    ensures Stream(ch, h) == Stream(ch[..i], h) + Piece(ch[i], h) + Stream(ch[i + 1..], h)
  {
    StreamSingle(ch[i], h);
    StreamConcat(ch[..i], [ch[i]], h);
    StreamConcat(ch[..i] + [ch[i]], ch[i + 1..], h);
    assert ch == ch[..i] + [ch[i]] + ch[i + 1..];
  }

  lemma {:induction false} StreamCons(ch: Chain, h: Heap)
    requires Backed(ch, h) && |ch| >= 1 && BackedNode(ch[0], h)
    ensures Stream(ch, h) == Piece(ch[0], h) + Stream(ch[1..], h)
  {
    assert Pieces(ch, h)[1..] == Pieces(ch[1..], h);
  }

  /** Replacing one node replaces its piece of the stream. */
  lemma {:induction false} UpdateStream(ch: Chain, i: nat, node: Node, h: Heap)
    requires Backed(ch, h) && i < |ch| && BackedNode(node, h) && BackedNode(ch[i], h)
    ensures Backed(ch[i := node], h)
    ensures Stream(ch[i := node], h) == Stream(ch[..i], h) + Piece(node, h) + Stream(ch[i + 1..], h)
    ensures Piece(node, h) == Piece(ch[i], h) ==> Stream(ch[i := node], h) == Stream(ch, h)
  {
    var c := ch[i := node];
    StreamAt(ch, i, h);
    assert Backed(c, h);
    StreamAt(c, i, h);
    assert c[..i] == ch[..i] && c[i + 1..] == ch[i + 1..];
  }

  lemma {:induction false} EmptyStream(ch: Chain, h: Heap)
    requires Backed(ch, h) && forall i :: 0 <= i < |ch| ==> ch[i].ring.valid == 0
    ensures Stream(ch, h) == []
  {
    EmptyValid(ch);
  }

  lemma {:induction false} EmptyValid(ch: Chain)
    requires forall i :: 0 <= i < |ch| ==> ch[i].ring.valid == 0
    ensures Valid(ch) == 0
  {
    if ch != [] { EmptyValid(ch[1..]); }
  }

  lemma {:induction false} StreamFrame(ch: Chain, h: Heap, h': Heap)
    requires Backed(ch, h)
    requires forall i :: 0 <= i < |ch| ==> ch[i].block in h' && h'[ch[i].block] == h[ch[i].block]
    ensures Backed(ch, h') && Stream(ch, h') == Stream(ch, h)
  {
    forall i | 0 <= i < |ch| ensures BackedNode(ch[i], h') { assert BackedNode(ch[i], h); }
    assert Pieces(ch, h') == Pieces(ch, h);
  }

  /** Only rings changed: same blocks, same lists of obsolete blocks. */
  lemma {:induction false} OwnedAt(ch: Chain, i: nat, node: Node)
    requires i < |ch| && node.block == ch[i].block && node.obsolete == ch[i].obsolete
    ensures Owned(ch[i := node]) == Owned(ch)
  {
    if i > 0 {
      assert ch[i := node][1..] == ch[1..][i - 1 := node];
      OwnedAt(ch[1..], i - 1, node);
    } else {
      assert ch[i := node][1..] == ch[1..];
    }
  }

  lemma {:induction false} OwnedConcat(a: Chain, b: Chain)
    ensures Owned(a + b) == Owned(a) + Owned(b)
  {
    if a == [] {
      assert a + b == b;
    } else {
      assert (a + b)[1..] == a[1..] + b;
      OwnedConcat(a[1..], b);
    }
  }

  lemma {:induction false} BlocksOwned(ch: Chain, i: nat)
    requires i < |ch|
    ensures Blocks(ch[i]) <= Owned(ch)
  {
    if i > 0 { BlocksOwned(ch[1..], i - 1); }
  }

  lemma BlockIsOwned(ch: Chain, i: nat)
    requires i < |ch|
    ensures ch[i].block in Owned(ch)
  {
    BlocksOwned(ch, i);
    assert ch[i].block in Blocks(ch[i]);
  }

  ghost predicate NoDup(m: multiset<nat>) {
    forall b :: m[b] <= 1
  }

  lemma {:induction false} BlocksDistinct(ch: Chain, i: nat, j: nat)
    requires i < j < |ch| && NoDup(Owned(ch))
    ensures ch[i].block != ch[j].block
  {
    assert forall b :: Owned(ch)[b] == Blocks(ch[0])[b] + Owned(ch[1..])[b];
    if i == 0 {
      BlockIsOwned(ch[1..], j - 1);
      assert Blocks(ch[0])[ch[0].block] >= 1;
    } else {
      BlocksDistinct(ch[1..], i - 1, j - 1);
    }
  }

  lemma NoDupSplit(a: multiset<nat>, b: multiset<nat>)
    requires NoDup(a + b)
    ensures NoDup(a) && NoDup(b) && forall x :: x in a ==> x !in b
  {
    assert forall x :: (a + b)[x] == a[x] + b[x];
  }

  // ----- the chain invariant -----

  /** The outstanding production: where ProduceBuffer pointed and how much it granted. */
  datatype Production = Idle | Outstanding(at: Pointer, len: nat)

  /** Every buffer but the last still has data or a production to wait for. */
  predicate Busy(ch: Chain) {
    forall i :: 0 <= i < |ch| - 1 ==> ch[i].ring.valid > 0 || ch[i].ring.inUse
  }

  predicate Tracks(ch: Chain, prod: Production) {
    match prod
    case Idle => forall i :: 0 <= i < |ch| ==> !ch[i].ring.inUse
    case Outstanding(at, len) =>
      |ch| >= 1 && var t := Target(ch, at.block);
      && ch[t].block == at.block && ch[t].ring.produce == at.offset
      && ch[t].ring.inUse && Reserved(ch[t].ring, len)
      && (forall i :: 0 <= i < |ch| && i != t ==> !ch[i].ring.inUse)
      && (forall i :: t < i < |ch| ==> ch[i].ring.valid == 0)
  }

  ghost predicate Sound(ch: Chain, h: Heap, prod: Production) {
    |ch| >= 1 && Backed(ch, h) && Busy(ch) && Tracks(ch, prod) && NoDup(Owned(ch))
  }

  lemma {:induction false} TargetOf(ch: Chain, i: nat)
    requires i < |ch| && forall j :: 0 <= j < i ==> ch[j].block != ch[i].block
    ensures Target(ch, ch[i].block) == i
  {
    if i > 0 { TargetOf(ch[1..], i - 1); }
  }

  lemma {:induction false} TargetIsBlock(ch: Chain, block: nat, t: nat)
    requires |ch| >= 1 && t == Target(ch, block)
    ensures forall j :: 0 <= j < t ==> ch[j].block != block
  {
    if t > 0 {
      TargetIsBlock(ch[1..], block, t - 1);
      assert forall j :: 0 < j < t ==> ch[j] == ch[1..][j - 1];
    }
  }

  // ----- ProduceBuffer -----

  /** With no production outstanding, ProduceBuffer always works on the last buffer of the chain. */
  lemma {:induction false} ProduceGoesLast(ch: Chain, len: nat)
    requires |ch| >= 1 && Busy(ch) && Tracks(ch, Idle)
    requires AllWellFormed(ch)
    ensures var n := |ch| - 1;
      var (r, part) := Reserve(ch[n].ring, len);
      ProduceBuffer(ch, len) == (ch[n := ch[n].(ring := r)], Pointer(ch[n].block, r.produce), part)
  {
    var n := |ch| - 1;
    if n > 0 {
      assert ch[0].ring.valid > 0;
      assert forall i :: 0 <= i < n ==> ch[1..][i] == ch[i + 1];
      ProduceGoesLast(ch[1..], len);
      assert ch[1..][n - 1] == ch[n];
      var (rest, p, given) := ProduceBuffer(ch[1..], len);
      assert ProduceBuffer(ch, len) == ([ch[0]] + rest, p, given);
      var (r, part) := Reserve(ch[n].ring, len);
      assert ch[n := ch[n].(ring := r)] == [ch[0]] + ch[1..][n - 1 := ch[n].(ring := r)];
    } else {
      assert ch[0 := ch[0].(ring := Reserve(ch[0].ring, len).0)] == [ch[0].(ring := Reserve(ch[0].ring, len).0)];
    }
  }

  lemma {:induction false} ProduceTracks(ch: Chain, len: nat)
    requires |ch| >= 1 && Busy(ch) && Tracks(ch, Idle)
    requires AllWellFormed(ch)
    requires forall i :: 0 <= i < |ch| - 1 ==> ch[i].block != ch[|ch| - 1].block
    ensures var (c, p, part) := ProduceBuffer(ch, len);
      && |c| == |ch| && Busy(c) && Tracks(c, Outstanding(p, part)) && part <= len
      && (part == 0 <==> len == 0 || ch[|ch| - 1].ring.free == 0)
      && (forall i :: 0 <= i < |ch| ==> c[i].obsolete == ch[i].obsolete && c[i].block == ch[i].block)
  {
    ProduceGoesLast(ch, len);
    var n := |ch| - 1;
    var r := Reserve(ch[n].ring, len).0;
    ReserveKeepsStream(ch[n].ring, len, seq(ch[n].ring.size, _ => 0));
    var c := ch[n := ch[n].(ring := r)];
    TargetOf(c, n);
  }

  /** ProduceBuffer leaves the stream, the blocks and what an outstanding ConsumeBuffer was shown alone. */
  lemma ProduceKeepsStream(ch: Chain, len: nat, h: Heap)
    requires Sound(ch, h, Idle)
    ensures AllWellFormed(ch)
    ensures var (c, p, part) := ProduceBuffer(ch, len);
      && Sound(c, h, Outstanding(p, part))
      && Stream(c, h) == Stream(ch, h) && Owned(c) == Owned(ch)
      && (ch[0].ring.valid > 0 ==> c[0].ring.consume == ch[0].ring.consume && Run(c[0].ring) == Run(ch[0].ring))
  {
    BackedWellFormed(ch, h);
    ProduceGoesLast(ch, len);
    var n := |ch| - 1;
    forall i | 0 <= i < n ensures ch[i].block != ch[n].block { BlocksDistinct(ch, i, n); }
    ProduceTracks(ch, len);
    var (r, part) := Reserve(ch[n].ring, len);
    var node := ch[n].(ring := r);
    ReserveKeepsStream(ch[n].ring, len, h[ch[n].block]);
    OwnedAt(ch, n, node);
    UpdateStream(ch, n, node, h);
  }

  // ----- ValidBuffer -----

  /** Settle moves at most one step once every buffer behind the first is busy or last. */
  lemma SettleOnce(ch: Chain)
    requires |ch| >= 1 && Busy(ch[1..])
    ensures Settle(ch) ==
            if |ch| >= 2 && ch[0].ring.valid == 0 && !ch[0].ring.inUse then ObsoleteBuffer(ch) else ch
  {
    if |ch| >= 2 && ch[0].ring.valid == 0 && !ch[0].ring.inUse {
      var o := ObsoleteBuffer(ch);
      assert o[0].ring == ch[1..][0].ring;
      if |o| >= 2 { assert o[0].ring.valid > 0 || o[0].ring.inUse; }
    }
  }

  function Replaced(ch: Chain, t: nat, r: Ring): Chain
    requires t < |ch|
  {
    ch[..t] + Settle([ch[t].(ring := r)] + ch[t + 1..])
  }

  lemma {:induction false} ValidAtTarget(ch: Chain, block: nat, len: nat)
    requires |ch| >= 1 && Reserved(ch[Target(ch, block)].ring, len)
    ensures var t := Target(ch, block);
      ValidBuffer(ch, block, len) == Replaced(ch, t, Commit(ch[t].ring, len))
  {
    hide Commit, Settle;
    var t := Target(ch, block);
    if |ch| > 1 && ch[0].block != block {
      ValidAtTarget(ch[1..], block, len);
      assert ch[..t] == [ch[0]] + ch[1..][..t - 1];
      assert ch[1..][t..] == ch[t + 1..];
    }
  }

  /** Whether the zero-length ValidBuffer makes a buffer behind the top adopt its successor. */
  predicate Adopts(ch: Chain, t: nat, len: nat)
    requires t < |ch|
  {
    len == 0 && ch[t].ring.valid == 0 && t < |ch| - 1
  }

  /** The chain after ValidBuffer, without recursion. */
  lemma {:induction false} ValidClosedForm(ch: Chain, at: Pointer, granted: nat, len: nat, h: Heap)
    requires Sound(ch, h, Outstanding(at, granted)) && len <= granted
    ensures var t := Target(ch, at.block);
      var node := ch[t].(ring := Commit(ch[t].ring, len));
      ValidBuffer(ch, at.block, len) ==
      if Adopts(ch, t, len) then ch[..t] + [ch[t + 1].(obsolete := [ch[t].block] + ch[t].obsolete)] + ch[t + 2..]
      else ch[t := node]
  {
    hide Stream, NoDup, Backed, WellFormed, Owned, Settle, Target;
    var t := Target(ch, at.block);
    ValidAtTarget(ch, at.block, len);
    var node := ch[t].(ring := Commit(ch[t].ring, len));
    var tail := [node] + ch[t + 1..];
    assert tail[1..] == ch[t + 1..];
    assert Busy(tail[1..]);
    SettleOnce(tail);
    assert ch[t := node] == ch[..t] + tail;
    if Adopts(ch, t, len) {
      assert tail[2..] == ch[t + 2..];
    }
  }

  lemma BusyAt(ch: Chain, i: nat)
    requires Busy(ch) && i < |ch| - 1
    ensures ch[i].ring.valid > 0 || ch[i].ring.inUse
  {
  }

  /** A buffer is only adopted at the end of the chain. */
  lemma AdoptionAtEnd(ch: Chain, at: Pointer, granted: nat, h: Heap)
    requires Sound(ch, h, Outstanding(at, granted))
    ensures Target(ch, at.block) >= |ch| - 2
  {
    var t := Target(ch, at.block);
    if |ch| >= 2 { BusyAt(ch, |ch| - 2); }
  }

  /** Blocks an operation makes unreachable without disposing of them. */
  function Leaked(ch: Chain): multiset<nat>
    requires |ch| >= 2
  {
    multiset(ch[1].obsolete)
  }

  /** ObsoleteBuffer keeps every block but the ones its successor had obsoleted itself. */
  lemma ObsoleteOwned(ch: Chain)
    requires |ch| >= 2
    ensures Owned(ObsoleteBuffer(ch)) + Leaked(ch) == Owned(ch)
  {
    var o := ObsoleteBuffer(ch);
    assert o[1..] == ch[2..] && ch[1..][1..] == ch[2..];
    assert multiset([ch[0].block] + ch[0].obsolete) == multiset{ch[0].block} + multiset(ch[0].obsolete);
  }

  lemma NoDupSub(s: multiset<nat>, t: multiset<nat>)
    requires NoDup(t) && s <= t
    ensures NoDup(s)
  {
    assert forall b :: s[b] <= t[b];
  }

  // ----- ValidBuffer, with the bytes the producer wrote -----

  function Written(bytes: seq<Byte>, offset: nat, data: seq<Byte>): (res: seq<Byte>)
    requires offset + |data| <= |bytes|
    ensures |res| == |bytes| && res[offset..offset + |data|] == data
    ensures SameOutside(bytes, res, offset, offset + |data|)
  {
    bytes[..offset] + data + bytes[offset + |data|..]
  }

  lemma WriteKeepsStream(ch: Chain, at: Pointer, granted: nat, data: seq<Byte>, h: Heap)
    requires Sound(ch, h, Outstanding(at, granted)) && |data| <= granted
    ensures at.block in h && at.offset + |data| <= |h[at.block]|
    ensures var h' := h[at.block := Written(h[at.block], at.offset, data)];
      Backed(ch, h') && Stream(ch, h') == Stream(ch, h)
  {
    var t := Target(ch, at.block);
    assert BackedNode(ch[t], h);
    var h' := h[at.block := Written(h[at.block], at.offset, data)];
    forall i | 0 <= i < |ch| && i != t ensures ch[i].block != at.block {
      if i < t { BlocksDistinct(ch, i, t); } else { BlocksDistinct(ch, t, i); }
    }
    WriteKeepsPending(ch[t].ring, |data|, h[at.block], h'[at.block]);
    forall i | 0 <= i < |ch| ensures BackedNode(ch[i], h') { assert BackedNode(ch[i], h); }
    SamePendingSameStream(ch, h, h');
  }

  lemma {:induction false} SamePendingSameStream(ch: Chain, h: Heap, h': Heap)
    requires Backed(ch, h) && Backed(ch, h')
    requires forall i :: 0 <= i < |ch| ==> Piece(ch[i], h') == Piece(ch[i], h)
    ensures Stream(ch, h') == Stream(ch, h)
  {
    assert Pieces(ch, h') == Pieces(ch, h);
  }

  lemma AppendAt(ch: Chain, t: nat, node: Node, data: seq<Byte>, h: Heap)
    requires Backed(ch, h) && t < |ch| && BackedNode(ch[t], h) && BackedNode(node, h)
    requires Piece(node, h) == Piece(ch[t], h) + data
    requires forall i :: t < i < |ch| ==> ch[i].ring.valid == 0
    ensures Backed(ch[t := node], h) && Stream(ch[t := node], h) == Stream(ch, h) + data
  {
    UpdateStream(ch, t, node, h);
    StreamAt(ch, t, h);
    EmptyStream(ch[t + 1..], h);
    AppendAssociates(Stream(ch[..t], h), Piece(ch[t], h), data);
  }

  /** The chain after the buffer at `t` adopted its successor. */
  function Adopted(ch: Chain, t: nat): Chain
    requires t + 1 < |ch|
  {
    ch[..t] + [ch[t + 1].(obsolete := [ch[t].block] + ch[t].obsolete)] + ch[t + 2..]
  }

  lemma AdoptKeepsStream(ch: Chain, t: nat, h: Heap)
    requires Backed(ch, h) && t == |ch| - 2 && ch[t].ring.valid == 0 && ch[t + 1].ring.valid == 0
    ensures Backed(Adopted(ch, t), h) && Stream(Adopted(ch, t), h) == Stream(ch, h)
  {
    var heir := ch[t + 1].(obsolete := [ch[t].block] + ch[t].obsolete);
    assert Adopted(ch, t) == ch[..t] + [heir];
    assert ch == ch[..t] + ch[t..];
    assert BackedNode(ch[t + 1], h);
    StreamConcat(ch[..t], [heir], h);
    StreamConcat(ch[..t], ch[t..], h);
    EmptyStream([heir], h);
    EmptyStream(ch[t..], h);
  }

  /** ValidBuffer appends the written bytes at the end of the stream. */
  lemma ValidAppends(ch: Chain, at: Pointer, granted: nat, data: seq<Byte>, h: Heap)
    requires Sound(ch, h, Outstanding(at, granted)) && |data| <= granted
    requires at.block in h && at.offset + |data| <= |h[at.block]|
    ensures var h' := h[at.block := Written(h[at.block], at.offset, data)];
      var c := ValidBuffer(ch, at.block, |data|);
      Backed(c, h') && Stream(c, h') == Stream(ch, h) + data
  {
    hide Busy, WellFormed, ValidBuffer, Pieces, Flat;
    var t := Target(ch, at.block);
    var h' := h[at.block := Written(h[at.block], at.offset, data)];
    ValidClosedForm(ch, at, granted, |data|, h);
    WriteKeepsStream(ch, at, granted, data, h);
    if Adopts(ch, t, |data|) {
      AdoptionAtEnd(ch, at, granted, h);
      AdoptKeepsStream(ch, t, h');
    } else {
      assert BackedNode(ch[t], h');
      CommitAppends(ch[t].ring, |data|, h'[at.block]);
      AppendAt(ch, t, ch[t].(ring := Commit(ch[t].ring, |data|)), data, h');
    }
  }

  /** Blocks lost by a ValidBuffer: what the adopted successor had obsoleted itself. */
  function LostByValid(ch: Chain, block: nat, len: nat): multiset<nat>
    requires |ch| >= 1
  {
    var t := Target(ch, block);
    if Adopts(ch, t, len) then multiset(ch[t + 1].obsolete) else multiset{}
  }

  lemma AdoptOwned(ch: Chain, t: nat)
    requires t + 1 < |ch|
    ensures Owned(Adopted(ch, t)) + multiset(ch[t + 1].obsolete) == Owned(ch)
  {
    var tail := ch[t..];
    var o := ObsoleteBuffer(tail);
    assert ch == ch[..t] + tail && Adopted(ch, t) == ch[..t] + o;
    OwnedConcat(ch[..t], tail);
    OwnedConcat(ch[..t], o);
    ObsoleteOwned(tail);
  }

  lemma {:induction false} ValidOwned(ch: Chain, at: Pointer, granted: nat, len: nat, h: Heap)
    requires Sound(ch, h, Outstanding(at, granted)) && len <= granted
    ensures var c := ValidBuffer(ch, at.block, len);
      Owned(c) + LostByValid(ch, at.block, len) == Owned(ch)
  {
    hide Owned, Settle, ValidBuffer, Stream, NoDup, Busy, Backed, WellFormed;
    var t := Target(ch, at.block);
    ValidClosedForm(ch, at, granted, len, h);
    if Adopts(ch, t, len) {
      AdoptOwned(ch, t);
    } else {
      OwnedAt(ch, t, ch[t].(ring := Commit(ch[t].ring, len)));
    }
  }

  lemma ValidTracks(ch: Chain, at: Pointer, granted: nat, len: nat, h: Heap)
    requires Sound(ch, h, Outstanding(at, granted)) && len <= granted
    ensures var c := ValidBuffer(ch, at.block, len);
      && |c| >= 1 && Busy(c) && Tracks(c, Idle)
      && (ch[0].ring.valid > 0 ==>
            c[0].block == ch[0].block && c[0].ring.consume == ch[0].ring.consume && Run(c[0].ring) >= Run(ch[0].ring))
  {
    hide ValidBuffer, Stream, NoDup, Owned;
    var t := Target(ch, at.block);
    ValidClosedForm(ch, at, granted, len, h);
    AdoptionAtEnd(ch, at, granted, h);
    assert BackedNode(ch[t], h);
    CommitAppends(ch[t].ring, len, h[at.block]);
  }

  /** ValidBuffer closes the production and keeps every other part of the invariant; an outstanding
      ConsumeBuffer still sees its bytes at the same place. */
  lemma ValidKeepsSound(ch: Chain, at: Pointer, granted: nat, data: seq<Byte>, h: Heap)
    requires Sound(ch, h, Outstanding(at, granted)) && |data| <= granted
    requires at.block in h && at.offset + |data| <= |h[at.block]|
    ensures var h' := h[at.block := Written(h[at.block], at.offset, data)];
      var c := ValidBuffer(ch, at.block, |data|);
      && Sound(c, h', Idle)
      && (ch[0].ring.valid > 0 ==>
            c[0].block == ch[0].block && c[0].ring.consume == ch[0].ring.consume && Run(c[0].ring) >= Run(ch[0].ring))
  {
    ValidAppends(ch, at, granted, data, h);
    ValidTracks(ch, at, granted, |data|, h);
    ValidOwned(ch, at, granted, |data|, h);
    NoDupSub(Owned(ValidBuffer(ch, at.block, |data|)), Owned(ch));
  }

  // ----- ConsumeBuffer and FreeBuffer -----

  lemma SettledWhenBusy(ch: Chain)
    requires |ch| >= 1 && Busy(ch)
    ensures Settle(ch) == ch
  {
  }

  /** ConsumeBuffer shows the front of the stream in place: all that was asked for, or all the data of the top
      buffer, or all up to the end of the buffer or its skipped tail. */
  lemma {:induction false} ConsumeShowsFront(ch: Chain, len: nat, h: Heap, prod: Production)
    requires Sound(ch, h, prod)
    ensures var (c, p, part) := ConsumeBuffer(ch, len);
      && c == ch && p.block == ch[0].block && 0 <= part <= len && part <= Run(ch[0].ring)
      && p.block in h && p.offset + part <= |h[p.block]| && part <= Valid(ch)
      && h[p.block][p.offset..p.offset + part] == Stream(ch, h)[..part]
      && (part == 0 <==> len == 0 || Valid(ch) == 0)
      && (part == len || part == ch[0].ring.valid || p.offset + part == ch[0].ring.size - ch[0].ring.spare)
  {
    SettledWhenBusy(ch);
    assert BackedNode(ch[0], h);
    var (c, p, part) := ConsumeBuffer(ch, len);
    RunIsFront(ch[0].ring, Run(ch[0].ring), h[ch[0].block]);
    RunIsFront(ch[0].ring, part, h[ch[0].block]);
    StreamCons(ch, h);
    if ch[0].ring.valid == 0 { EmptyTopEmptyChain(ch, h, prod); }
  }

  lemma EmptyTopEmptyChain(ch: Chain, h: Heap, prod: Production)
    requires Sound(ch, h, prod) && ch[0].ring.valid == 0
    ensures Valid(ch) == 0
  {
    if |ch| >= 2 { BusyAt(ch, 0); }
    EmptyStream(ch, h);
  }

  lemma {:induction false} TargetSameBlocks(a: Chain, b: Chain, block: nat)
    requires |a| == |b| >= 1 && forall i :: 0 <= i < |a| ==> a[i].block == b[i].block
    ensures Target(a, block) == Target(b, block)
  {
    if |a| > 1 && a[0].block != block { TargetSameBlocks(a[1..], b[1..], block); }
  }

  /** Does FreeBuffer make the top buffer adopt its successor? */
  predicate FreeObsoletes(ch: Chain, len: nat)
    requires |ch| >= 1
  {
    |ch| >= 2 && ch[0].ring.valid == len && !ch[0].ring.inUse
  }

  function LostByFree(ch: Chain, len: nat): multiset<nat>
    requires |ch| >= 1
  {
    if FreeObsoletes(ch, len) then multiset(ch[1].obsolete) else multiset{}
  }

  lemma FreeClosedForm(ch: Chain, len: nat)
    requires |ch| >= 1 && Busy(ch) && len <= ch[0].ring.valid
    ensures var c1 := ch[0 := ch[0].(ring := Release(ch[0].ring, len))];
      FreeBuffer(ch, len) == if FreeObsoletes(ch, len) then ObsoleteBuffer(c1) else c1
  {
    var node := ch[0].(ring := Release(ch[0].ring, len));
    assert ch[0 := node] == [node] + ch[1..];
    assert Busy(ch[1..]);
    assert ch[0 := node][1..] == ch[1..];
    SettleOnce(ch[0 := node]);
  }

  lemma FreeOwned(ch: Chain, len: nat)
    requires |ch| >= 1 && Busy(ch) && len <= ch[0].ring.valid
    ensures Owned(FreeBuffer(ch, len)) + LostByFree(ch, len) == Owned(ch)
  {
    FreeClosedForm(ch, len);
    var node := ch[0].(ring := Release(ch[0].ring, len));
    OwnedAt(ch, 0, node);
    if FreeObsoletes(ch, len) { ObsoleteOwned(ch[0 := node]); }
  }

  lemma DropAtTop(ch: Chain, node: Node, len: nat, h: Heap)
    requires Backed(ch, h) && |ch| >= 1 && BackedNode(ch[0], h) && BackedNode(node, h) && len <= ch[0].ring.valid
    requires Piece(node, h) == Piece(ch[0], h)[len..]
    ensures Backed(ch[0 := node], h) && Stream(ch[0 := node], h) == Stream(ch, h)[len..]
  {
    var c := ch[0 := node];
    assert c[1..] == ch[1..];
    assert Backed(c, h);
    StreamCons(ch, h);
    StreamCons(c, h);
    DropFront(Piece(ch[0], h), Stream(ch[1..], h), len);
  }

  lemma DropFront(a: seq<Byte>, b: seq<Byte>, n: nat)
    requires n <= |a|
    ensures (a + b)[n..] == a[n..] + b
  {
  }

  lemma ObsoleteKeepsStream(ch: Chain, h: Heap)
    requires |ch| >= 2 && Backed(ch, h) && ch[0].ring.valid == 0
    ensures Backed(ObsoleteBuffer(ch), h) && Stream(ObsoleteBuffer(ch), h) == Stream(ch, h)
  {
    var c := ObsoleteBuffer(ch);
    assert BackedNode(ch[1], h);
    assert BackedNode(ch[0], h) && BackedNode(c[0], h);
    assert Backed(c, h);
    assert c[1..] == ch[2..] && ch[1..][1..] == ch[2..] && ch[1..][0] == ch[1];
    StreamCons(ch, h);
    StreamCons(ch[1..], h);
    StreamCons(c, h);
  }

  /** FreeBuffer removes exactly the oldest `len` bytes. */
  lemma FreeDrops(ch: Chain, len: nat, h: Heap, prod: Production)
    requires Sound(ch, h, prod) && len <= Run(ch[0].ring)
    ensures len <= ch[0].ring.valid
    ensures Backed(FreeBuffer(ch, len), h) && Stream(FreeBuffer(ch, len), h) == Stream(ch, h)[len..]
  {
    assert BackedNode(ch[0], h);
    ReleaseDrops(ch[0].ring, len, h[ch[0].block]);
    DropAtTop(ch, ch[0].(ring := Release(ch[0].ring, len)), len, h);
    FreeClosedForm(ch, len);
    if FreeObsoletes(ch, len) {
      ObsoleteKeepsStream(ch[0 := ch[0].(ring := Release(ch[0].ring, len))], h);
    }
  }

  lemma FreeBusy(ch: Chain, len: nat)
    requires |ch| >= 1 && Busy(ch) && len <= ch[0].ring.valid
    ensures |FreeBuffer(ch, len)| >= 1 && Busy(FreeBuffer(ch, len))
  {
    FreeClosedForm(ch, len);
  }

  lemma FreeKeepsSound(ch: Chain, len: nat, h: Heap, prod: Production)
    requires Sound(ch, h, prod) && len <= Run(ch[0].ring)
    ensures len <= ch[0].ring.valid && Sound(FreeBuffer(ch, len), h, prod)
  {
    FreeDrops(ch, len, h, prod);
    FreeBusy(ch, len);
    FreeOwned(ch, len);
    NoDupSub(Owned(FreeBuffer(ch, len)), Owned(ch));
    assert BackedNode(ch[0], h);
    ReleaseDrops(ch[0].ring, len, h[ch[0].block]);
    FreeKeepsTracks(ch, len, prod);
  }

  lemma FreeKeepsTracks(ch: Chain, len: nat, prod: Production)
    requires |ch| >= 1 && Busy(ch) && Tracks(ch, prod) && len <= ch[0].ring.valid
    requires var r := Release(ch[0].ring, len);
             r.produce == ch[0].ring.produce && r.size == ch[0].ring.size && r.free >= ch[0].ring.free
    ensures Tracks(FreeBuffer(ch, len), prod)
  {
    hide FreeBuffer;
    FreeClosedForm(ch, len);
    var c := FreeBuffer(ch, len);
    if prod.Outstanding? {
      var t := Target(ch, prod.at.block);
      if FreeObsoletes(ch, len) {
        TargetIsBlock(ch, prod.at.block, t);
        assert ch[0].block != prod.at.block;
        TargetSameBlocks(c, ch[1..], prod.at.block);
        assert forall i :: 0 <= i < |c| ==> c[i].ring == ch[i + 1].ring && c[i].block == ch[i + 1].block;
      } else {
        TargetSameBlocks(c, ch, prod.at.block);
      }
    }
  }

  // ----- SwitchBuffer and PurgeBuffers -----

  function Purged(ch: Chain): (res: Chain)
    ensures |res| == |ch|
    ensures forall i :: 0 <= i < |ch| ==> res[i] == ch[i].(obsolete := [])
  {
    if ch == [] then [] else [ch[0].(obsolete := [])] + Purged(ch[1..])
  }

  lemma {:induction false} SwitchClosedForm(ch: Chain, size: nat, blk: nat)
    requires |ch| >= 1
    ensures var n := |ch| - 1;
      var (c, freed) := SwitchBuffer(ch, size, blk);
      c == if !SwitchAllocates(ch, size) then Purged(ch)
           else if !ch[n].ring.inUse && ch[n].ring.valid == 0 then Purged(ch)[n := Node(blk, Fresh(size), [])]
           else Purged(ch) + [Node(blk, Fresh(size), [])]
  {
    var n := |ch| - 1;
    if n > 0 {
      SwitchClosedForm(ch[1..], size, blk);
      assert ch[1..][n - 1] == ch[n];
      var (rest, f) := SwitchBuffer(ch[1..], size, blk);
      var (c, freed) := SwitchBuffer(ch, size, blk);
      assert c == [ch[0].(obsolete := [])] + rest;
    } else {
      assert ch[1..] == [];
      assert Purged(ch) == [ch[0].(obsolete := [])];
    }
  }

  /** Afterwards the last buffer has the requested size, in place of the old last one if that was empty and
      unused, and behind it otherwise; the buffers in front are as they were, but for their lists. */
  lemma SwitchResizes(ch: Chain, size: nat, blk: nat)
    requires |ch| >= 1
    ensures var c := SwitchBuffer(ch, size, blk).0; var last := ch[|ch| - 1].ring;
      var replaced := size != last.size && !last.inUse && last.valid == 0;
      && |c| == (if size == last.size || replaced then |ch| else |ch| + 1)
      && c[|c| - 1].ring.size == size
      && (size != last.size ==> c[|c| - 1] == Node(blk, Fresh(size), []))
      && (forall i :: 0 <= i < |ch| && !(replaced && i == |ch| - 1) ==> c[i] == ch[i].(obsolete := []))
  {
    SwitchClosedForm(ch, size, blk);
  }

  /** Every block is either kept, freshly allocated or disposed exactly once. */
  lemma {:induction false} SwitchOwned(ch: Chain, size: nat, blk: nat)
    requires |ch| >= 1
    ensures var (c, freed) := SwitchBuffer(ch, size, blk);
      Owned(c) + freed == Owned(ch) + (if SwitchAllocates(ch, size) then multiset{blk} else multiset{})
  {
    hide Owned, SwitchBuffer;
    if |ch| > 1 {
      var (rest, freed) := SwitchBuffer(ch[1..], size, blk);
      var added := if SwitchAllocates(ch, size) then multiset{blk} else multiset{};
      SwitchOwned(ch[1..], size, blk);
      SwitchFreed(ch, size, blk);
      assert ch[1..][|ch| - 2] == ch[|ch| - 1];
      var top := ch[0].(obsolete := []);
      OwnedCons(ch);
      OwnedPrepend(top, rest);
      Regroup(Blocks(top), multiset(ch[0].obsolete), Owned(rest), freed, Owned(ch[1..]), added);
    } else {
      SwitchSingle(ch[0], size, blk);
      assert ch == [ch[0]];
    }
  }

  lemma SwitchFreed(ch: Chain, size: nat, blk: nat)
    requires |ch| >= 2
    ensures var (rest, freed) := SwitchBuffer(ch[1..], size, blk);
      SwitchBuffer(ch, size, blk) == ([ch[0].(obsolete := [])] + rest, multiset(ch[0].obsolete) + freed)
  {
  }

  lemma OwnedPrepend(node: Node, rest: Chain)
    ensures Owned([node] + rest) == Blocks(node) + Owned(rest)
  {
    assert ([node] + rest)[1..] == rest;
  }

  lemma SwitchSingle(node: Node, size: nat, blk: nat)
    ensures var (c, freed) := SwitchBuffer([node], size, blk);
      Owned(c) + freed == Owned([node]) + (if SwitchAllocates([node], size) then multiset{blk} else multiset{})
  {
    var top, added := node.(obsolete := []), Node(blk, Fresh(size), []);
    OwnedSingle(node);
    OwnedSingle(top);
    OwnedSingle(added);
    OwnedPrepend(top, [added]);
    assert [top] + [added] == [top, added];
  }

  lemma Regroup(kept: multiset<nat>, purged: multiset<nat>, rest: multiset<nat>, freed: multiset<nat>,
                was: multiset<nat>, added: multiset<nat>)
    requires rest + freed == was + added
    ensures (kept + rest) + (purged + freed) == ((kept + purged) + was) + added
  {
    assert forall b :: rest[b] + freed[b] == (rest + freed)[b];
    assert forall b :: was[b] + added[b] == (was + added)[b];
  }

  lemma OwnedSingle(node: Node)
    ensures Owned([node]) == Blocks(node)
  {
    assert [node][1..] == [];
  }

  lemma {:induction false} SameRingsSameStream(a: Chain, b: Chain, h: Heap)
    requires Backed(a, h) && |a| == |b|
    requires forall i :: 0 <= i < |a| ==> a[i].block == b[i].block && a[i].ring == b[i].ring
    ensures Backed(b, h) && Stream(b, h) == Stream(a, h)
  {
    forall i | 0 <= i < |b| ensures BackedNode(b[i], h) { assert BackedNode(a[i], h); }
    assert Pieces(b, h) == Pieces(a, h);
  }

  lemma HeapExtended(ch: Chain, h: Heap, blk: nat, junk: seq<Byte>)
    requires Backed(ch, h) && blk !in h
    ensures Backed(ch, h[blk := junk]) && Stream(ch, h[blk := junk]) == Stream(ch, h)
  {
    forall i | 0 <= i < |ch| ensures ch[i].block in h && h[blk := junk][ch[i].block] == h[ch[i].block] {
      assert BackedNode(ch[i], h);
    }
    StreamFrame(ch, h, h[blk := junk]);
  }

  lemma {:induction false} SwitchKeepsStream(ch: Chain, size: nat, blk: nat, junk: seq<Byte>, h: Heap)
    requires |ch| >= 1 && Backed(ch, h) && size >= 1 && blk !in h && |junk| == size
    ensures var (c, freed) := SwitchBuffer(ch, size, blk);
      Backed(c, h[blk := junk]) && Stream(c, h[blk := junk]) == Stream(ch, h)
  {
    var h1 := h[blk := junk];
    var node := Node(blk, Fresh(size), []);
    HeapExtended(ch, h, blk, junk);
    SameRingsSameStream(ch, Purged(ch), h1);
    SwitchClosedForm(ch, size, blk);
    AddEmpty(Purged(ch), node, h1);
    if ch[|ch| - 1].ring.valid == 0 { ReplaceEmptyLast(Purged(ch), node, h1); }
  }

  lemma {:induction false} AddEmpty(ch: Chain, node: Node, h: Heap)
    requires Backed(ch, h) && BackedNode(node, h) && node.ring.valid == 0
    ensures Backed(ch + [node], h) && Stream(ch + [node], h) == Stream(ch, h)
  {
    StreamConcat(ch, [node], h);
    EmptyStream([node], h);
  }

  lemma {:induction false} ReplaceEmptyLast(ch: Chain, node: Node, h: Heap)
    requires Backed(ch, h) && BackedNode(node, h) && node.ring.valid == 0
    requires |ch| >= 1 && ch[|ch| - 1].ring.valid == 0
    ensures Backed(ch[|ch| - 1 := node], h) && Stream(ch[|ch| - 1 := node], h) == Stream(ch, h)
  {
    assert BackedNode(ch[|ch| - 1], h);
    UpdateStream(ch, |ch| - 1, node, h);
  }

  /** The disposed blocks were owned, are not owned any more, and are disposed once. */
  lemma SwitchFrees(ch: Chain, size: nat, blk: nat)
    requires |ch| >= 1 && NoDup(Owned(ch)) && blk !in Owned(ch)
    ensures var (c, freed) := SwitchBuffer(ch, size, blk);
      && NoDup(Owned(c)) && NoDup(freed)
      && (forall b :: b in freed ==> b in Owned(ch) && b !in Owned(c))
  {
    var (c, freed) := SwitchBuffer(ch, size, blk);
    SwitchOwned(ch, size, blk);
    assert NoDup(Owned(c) + freed);
    NoDupSplit(Owned(c), freed);
    FreedNotFresh(ch, size, blk);
    forall b | b in freed ensures b in Owned(ch) && b !in Owned(c) {
      assert b in Owned(c) + freed;
    }
  }

  /** SwitchBuffer keeps the invariant, even between ProduceBuffer and ValidBuffer. */
  lemma SwitchKeepsSound(ch: Chain, size: nat, blk: nat, junk: seq<Byte>, h: Heap, prod: Production)
    requires Sound(ch, h, prod) && size >= 1 && blk !in h && blk !in Owned(ch) && |junk| == size
    ensures var (c, freed) := SwitchBuffer(ch, size, blk);
      && Sound(c, h[blk := junk], prod)
      && (forall i :: 0 < i < |c| ==> c[i].obsolete == [])
      && (ch[0].ring.valid > 0 ==> c[0].block == ch[0].block && c[0].ring == ch[0].ring)
  {
    SwitchKeepsStream(ch, size, blk, junk, h);
    SwitchFrees(ch, size, blk);
    forall i | 0 <= i < |ch| ensures ch[i].block != blk { BlockIsOwned(ch, i); }
    SwitchTracks(ch, size, blk, prod);
    SwitchBusy(ch, size, blk);
    SwitchTop(ch, size, blk);
  }

  lemma {:induction false} FreedNotFresh(ch: Chain, size: nat, blk: nat)
    requires |ch| >= 1 && blk !in Owned(ch)
    ensures blk !in SwitchBuffer(ch, size, blk).1
  {
    if |ch| > 1 { FreedNotFresh(ch[1..], size, blk); }
  }

  lemma {:induction false} SwitchTracks(ch: Chain, size: nat, blk: nat, prod: Production)
    requires |ch| >= 1 && Tracks(ch, prod)
    requires forall i :: 0 <= i < |ch| ==> ch[i].block != blk
    ensures var c := SwitchBuffer(ch, size, blk).0;
      |c| >= 1 && Tracks(c, prod)
  {
    hide SwitchBuffer, Reserved, Purged, SwitchAllocates;
    SwitchClosedForm(ch, size, blk);
    if prod.Outstanding? {
      var c := SwitchBuffer(ch, size, blk).0;
      var t := Target(ch, prod.at.block);
      TargetIsBlock(ch, prod.at.block, t);
      assert c[t] == ch[t].(obsolete := []);
      assert forall j :: 0 <= j < t ==> c[j].block == ch[j].block;
      TargetOf(c, t);
      forall i | 0 <= i < |c| && i != t
        ensures !c[i].ring.inUse && (t < i ==> c[i].ring.valid == 0)
      {
        assert i < |ch| ==> c[i].ring == ch[i].ring || c[i].ring == Fresh(size);
      }
    }
  }

  lemma {:induction false} SwitchBusy(ch: Chain, size: nat, blk: nat)
    requires |ch| >= 1 && Busy(ch)
    ensures Busy(SwitchBuffer(ch, size, blk).0)
  {
    SwitchClosedForm(ch, size, blk);
  }

  lemma SwitchTop(ch: Chain, size: nat, blk: nat)
    requires |ch| >= 1
    ensures var c := SwitchBuffer(ch, size, blk).0;
      && |c| >= 1 && (forall i :: 0 < i < |c| ==> c[i].obsolete == [])
      && (ch[0].ring.valid > 0 ==> c[0].block == ch[0].block && c[0].ring == ch[0].ring)
  {
    SwitchClosedForm(ch, size, blk);
  }

  lemma PurgeKeepsSound(ch: Chain, h: Heap, prod: Production)
    requires Sound(ch, h, prod)
    ensures var c := ch[0 := ch[0].(obsolete := [])];
      var freed := multiset(ch[0].obsolete);
      && Sound(c, h, prod) && Stream(c, h) == Stream(ch, h)
      && Owned(c) + freed == Owned(ch) && NoDup(freed) && (forall b :: b in freed ==> b !in Owned(c))
  {
    hide Stream, Pieces, Flat, WellFormed;
    var c := ch[0 := ch[0].(obsolete := [])];
    SameRingsSameStream(ch, c, h);
    assert c[1..] == ch[1..];
    assert Owned(c) + multiset(ch[0].obsolete) == Owned(ch);
    NoDupSplit(Owned(c), multiset(ch[0].obsolete));
    if prod.Outstanding? { TargetSameBlocks(c, ch, prod.at.block); }
  }

  /** The heap after DisposePtr of every block in `freed`. */
  function Disposed(h: Heap, freed: multiset<nat>): Heap {
    map b | b in h && b !in freed :: h[b]
  }

  lemma DisposeKeepsStream(ch: Chain, h: Heap, prod: Production, freed: multiset<nat>)
    requires Sound(ch, h, prod) && forall b :: b in freed ==> b !in Owned(ch)
    ensures Sound(ch, Disposed(h, freed), prod) && Stream(ch, Disposed(h, freed)) == Stream(ch, h)
  {
    forall i | 0 <= i < |ch|
      ensures ch[i].block in Disposed(h, freed) && Disposed(h, freed)[ch[i].block] == h[ch[i].block]
    {
      assert BackedNode(ch[i], h);
      BlockIsOwned(ch, i);
    }
    StreamFrame(ch, h, Disposed(h, freed));
  }

  lemma DisposedTwice(h: Heap, a: multiset<nat>, b: multiset<nat>)
    ensures Disposed(Disposed(h, a), b) == Disposed(h, a + b)
  {
  }

  /** How SwitchBuffer changes the heap. */
  ghost predicate HeapSwitched(before: Heap, after: Heap, ch: Chain, size: nat, blk: nat)
    requires |ch| >= 1
  {
    var freed := SwitchBuffer(ch, size, blk).1;
    if SwitchAllocates(ch, size) then
      blk in after && |after[blk]| == size && after == Disposed(before[blk := after[blk]], freed)
    else
      after == Disposed(before, freed)
  }

  /** SwitchBuffer in the heap it really runs in: the new block exists only if it was allocated. */
  lemma SwitchSound(ch: Chain, size: nat, blk: nat, junk: seq<Byte>, h: Heap, prod: Production)
    requires Sound(ch, h, prod) && size >= 1 && blk !in h && blk !in Owned(ch) && |junk| == size
    ensures var c := SwitchBuffer(ch, size, blk).0;
      var h1 := if SwitchAllocates(ch, size) then h[blk := junk] else h;
      Sound(c, h1, prod) && Stream(c, h1) == Stream(ch, h)
  {
    SwitchKeepsSound(ch, size, blk, junk, h, prod);
    SwitchKeepsStream(ch, size, blk, junk, h);
    if !SwitchAllocates(ch, size) {
      SwitchClosedForm(ch, size, blk);
      SameRingsSameStream(ch, Purged(ch), h);
    }
  }

  /** SwitchBuffer with the disposals it makes: stream and invariant survive, whatever production is open. */
  lemma HeapSwitchedSound(before: Heap, after: Heap, ch: Chain, size: nat, blk: nat, prod: Production)
    requires Sound(ch, before, prod) && size >= 1 && blk !in before && blk !in Owned(ch)
    requires HeapSwitched(before, after, ch, size, blk)
    ensures var c := SwitchBuffer(ch, size, blk).0; Sound(c, after, prod) && Stream(c, after) == Stream(ch, before)
  {
    hide SwitchBuffer, Disposed, Stream, Owned, NoDup, Busy, Tracks;
    var (c, freed) := SwitchBuffer(ch, size, blk);
    var junk := if SwitchAllocates(ch, size) then after[blk] else seq(size, _ => 0);
    SwitchSound(ch, size, blk, junk, before, prod);
    SwitchFrees(ch, size, blk);
    DisposeKeepsStream(c, if SwitchAllocates(ch, size) then before[blk := junk] else before, prod, freed);
  }

  /** Every block the chain has afterwards is live. */
  lemma HeapSwitchedLive(before: Heap, after: Heap, ch: Chain, size: nat, blk: nat)
    requires |ch| >= 1 && NoDup(Owned(ch)) && blk !in Owned(ch) && (forall b :: b in Owned(ch) ==> b in before)
    requires HeapSwitched(before, after, ch, size, blk)
    ensures var c := SwitchBuffer(ch, size, blk).0; NoDup(Owned(c)) && forall b :: b in Owned(c) ==> b in after
  {
    hide SwitchBuffer, Owned, NoDup;
    var (c, freed) := SwitchBuffer(ch, size, blk);
    SwitchOwned(ch, size, blk);
    SwitchFrees(ch, size, blk);
    forall b | b in Owned(c) ensures b in after {
      assert b in Owned(c) + freed;
      assert b !in freed;
    }
  }

  /** Purging the top's list and then switching the rest is switching the whole chain. */
  lemma HeapSwitchedRest(before: Heap, after: Heap, ch: Chain, size: nat, blk: nat)
    requires |ch| >= 2 && blk !in ch[0].obsolete
    requires HeapSwitched(Disposed(before, multiset(ch[0].obsolete)), after, ch[1..], size, blk)
    ensures HeapSwitched(before, after, ch, size, blk)
  {
    var purged := multiset(ch[0].obsolete);
    var freed := SwitchBuffer(ch[1..], size, blk).1;
    assert ch[1..][|ch| - 2] == ch[|ch| - 1];
    if SwitchAllocates(ch, size) {
      assert Disposed(before, purged)[blk := after[blk]] == Disposed(before[blk := after[blk]], purged);
      DisposedTwice(before[blk := after[blk]], purged, freed);
    } else {
      DisposedTwice(before, purged, freed);
    }
  }

  /** The same for the last buffer of a chain. */
  lemma HeapSwitchedLast(before: Heap, after: Heap, node: Node, size: nat, blk: nat)
    requires blk !in node.obsolete
    requires HeapSwitched(Disposed(before, multiset(node.obsolete)), after, [node.(obsolete := [])], size, blk)
    ensures HeapSwitched(before, after, [node], size, blk)
    ensures SwitchBuffer([node], size, blk).0 == SwitchBuffer([node.(obsolete := [])], size, blk).0
  {
    var purged := multiset(node.obsolete);
    var freed := SwitchBuffer([node.(obsolete := [])], size, blk).1;
    if SwitchAllocates([node], size) {
      assert Disposed(before, purged)[blk := after[blk]] == Disposed(before[blk := after[blk]], purged);
      DisposedTwice(before[blk := after[blk]], purged, freed);
    } else {
      DisposedTwice(before, purged, freed);
    }
  }

  /** SwitchBuffer on a single purged buffer. */
  lemma SwitchAlone(node: Node, size: nat, blk: nat, before: Heap, after: Heap)
    requires node.obsolete == []
    ensures var added := Node(blk, Fresh(size), []);
      SwitchBuffer([node], size, blk).0 ==
      if size == node.ring.size then [node]
      else if !node.ring.inUse && node.ring.valid == 0 then [added] else [node, added]
    ensures size == node.ring.size && after == before ==> HeapSwitched(before, after, [node], size, blk)
    ensures size != node.ring.size && blk in after && |after[blk]| == size && blk != node.block
            && (if !node.ring.inUse && node.ring.valid == 0
                then after == (map b | b in before && b != node.block :: before[b])[blk := after[blk]]
                else after == before[blk := after[blk]])
            ==> HeapSwitched(before, after, [node], size, blk)
  {
    assert Disposed(before, multiset{}) == before;
    if blk in after {
      assert Disposed(before[blk := after[blk]], multiset{}) == before[blk := after[blk]];
      if blk != node.block {
        assert Disposed(before[blk := after[blk]], multiset{node.block})
            == (map b | b in before && b != node.block :: before[b])[blk := after[blk]];
      }
    }
  }

  lemma OwnedCons(ch: Chain)
    requires |ch| >= 1
    ensures Owned(ch) == Blocks(ch[0]) + Owned(ch[1..])
    ensures Blocks(ch[0]) == multiset{ch[0].block} + multiset(ch[0].obsolete)
    ensures |ch| == 1 ==> Owned(ch) == Blocks(ch[0])
  {
  }

  lemma SwitchRest(ch: Chain, size: nat, blk: nat)
    requires |ch| >= 2
    ensures SwitchBuffer(ch, size, blk).0 == [ch[0].(obsolete := [])] + SwitchBuffer(ch[1..], size, blk).0
  {
  }

  /** What a purge of the top's list leaves owned. */
  lemma PurgeOwned(ch: Chain)
    requires |ch| >= 1
    ensures Owned([ch[0].(obsolete := [])] + ch[1..]) + multiset(ch[0].obsolete) == Owned(ch)
  {
    var c := [ch[0].(obsolete := [])] + ch[1..];
    assert c[1..] == ch[1..];
  }

  /** A production of `data` from an idle chain: where it goes and what the chain and heap become. */
  ghost predicate Produced(ch: Chain, h: Heap, len: nat, data: seq<Byte>, c: Chain, h': Heap)
    requires |ch| >= 1 && AllWellFormed(ch)
  {
    var (mid, at, part) := ProduceBuffer(ch, len);
    && |mid| >= 1 && |data| <= part && at.block in h && at.offset + |data| <= |h[at.block]|
    && Reserved(mid[Target(mid, at.block)].ring, |data|)
    && c == ValidBuffer(mid, at.block, |data|)
    && h' == h[at.block := Written(h[at.block], at.offset, data)]
  }

  lemma ProduceFits(ch: Chain, len: nat, h: Heap)
    requires Sound(ch, h, Idle)
    ensures AllWellFormed(ch) && ProduceBuffer(ch, len).2 <= len
  {
    BackedWellFormed(ch, h);
    ProduceGoesLast(ch, len);
  }

  lemma ProducePossible(ch: Chain, h: Heap, len: nat, data: seq<Byte>)
    requires Sound(ch, h, Idle)
    ensures AllWellFormed(ch)
    ensures var (mid, at, part) := ProduceBuffer(ch, len);
      |data| <= part ==>
        && |mid| >= 1 && at.block in h && at.offset + |data| <= |h[at.block]|
        && Reserved(mid[Target(mid, at.block)].ring, |data|)
  {
    ProduceKeepsStream(ch, len, h);
    var (mid, at, part) := ProduceBuffer(ch, len);
    if |data| <= part { WriteKeepsStream(mid, at, part, data, h); }
  }

  /** A whole production: the bytes handed over end up at the end of the stream. */
  lemma ProducedAppends(ch: Chain, h: Heap, len: nat, data: seq<Byte>, c: Chain, h': Heap)
    requires Sound(ch, h, Idle) && AllWellFormed(ch) && Produced(ch, h, len, data, c, h')
    ensures Sound(c, h', Idle) && Stream(c, h') == Stream(ch, h) + data
  {
    ProduceKeepsStream(ch, len, h);
    var (mid, at, part) := ProduceBuffer(ch, len);
    ValidAppends(mid, at, part, data, h);
    ValidKeepsSound(mid, at, part, data, h);
  }

  /** One round of Consume: the bytes at the shown pointer are the oldest, and they are gone after. */
  ghost predicate Consumed(ch: Chain, h: Heap, len: nat, data: seq<Byte>, c: Chain)
    requires |ch| >= 1
  {
    var (mid, at, part) := ConsumeBuffer(ch, len);
    && part >= 0 && |mid| >= 1 && part <= mid[0].ring.valid
    && at.block in h && at.offset + part <= |h[at.block]|
    && data == h[at.block][at.offset..at.offset + part]
    && c == FreeBuffer(mid, part)
  }

  lemma ConsumePossible(ch: Chain, h: Heap, prod: Production, len: nat)
    requires Sound(ch, h, prod)
    ensures var (mid, at, part) := ConsumeBuffer(ch, len);
      && part >= 0 && |mid| >= 1 && part <= mid[0].ring.valid
      && at.block in h && at.offset + part <= |h[at.block]|
  {
    ConsumeShowsFront(ch, len, h, prod);
    FreeDrops(ch, ConsumeBuffer(ch, len).2, h, prod);
  }

  lemma ConsumedDrops(ch: Chain, h: Heap, prod: Production, len: nat, data: seq<Byte>, c: Chain)
    requires Sound(ch, h, prod) && Consumed(ch, h, len, data, c)
    ensures Sound(c, h, prod) && Stream(ch, h) == data + Stream(c, h)
    ensures |data| <= len && (|data| == 0 <==> len == 0 || Stream(ch, h) == [])
  {
    hide Stream, Owned, NoDup, FreeBuffer, ConsumeBuffer, Tracks, Busy, Backed, Release, Run, WellFormed;
    ConsumeShowsFront(ch, len, h, prod);
    FreeDrops(ch, |data|, h, prod);
    FreeKeepsSound(ch, |data|, h, prod);
  }

  /** One round of the loop in Produce on a chain, `fFree` being tested on the top buffer: it makes no
      progress exactly if the last buffer is full, and then leaves the chain as it was, so the loop goes on
      until a completion interrupt has consumed something. */
  lemma ProduceRoundStalls(ch: Chain, len: nat, h: Heap)
    requires Sound(ch, h, Idle) && len > 0
    ensures AllWellFormed(ch)
    ensures var (mid, at, part) := ProduceBuffer(ch, len);
      && (part == 0 <==> ch[|ch| - 1].ring.free == 0)
      && (part == 0 ==>
            && |mid| >= 1 && Reserved(mid[Target(mid, at.block)].ring, 0)
            && ValidBuffer(mid, at.block, 0) == ch)
  {
    hide Reserve, Commit, WellFormed, Stream, ValidBuffer, ProduceBuffer, Settle, Target;
    ProduceKeepsStream(ch, len, h);
    ProduceGoesLast(ch, len);
    var n := |ch| - 1;
    forall i | 0 <= i < n ensures ch[i].block != ch[n].block { BlocksDistinct(ch, i, n); }
    ProduceTracks(ch, len);
    var (mid, at, part) := ProduceBuffer(ch, len);
    if part == 0 {
      assert BackedNode(ch[n], h);
      FullRing(ch[n].ring, len);
      assert !ch[n].ring.inUse;
      TargetOf(mid, n);
      ValidClosedForm(mid, at, 0, 0, h);
      assert mid[n := ch[n]] == ch;
    }
  }

  /** What a chain without an open production satisfies, apart from its bytes. */
  ghost predicate Calm(ch: Chain) {
    |ch| >= 1 && AllWellFormed(ch) && Busy(ch) && Tracks(ch, Idle) && NoDup(Owned(ch))
  }

  lemma SoundIsCalm(ch: Chain, h: Heap)
    requires Sound(ch, h, Idle)
    ensures Calm(ch)
  {
    BackedWellFormed(ch, h);
  }

  /** The chain after a round in which `part` of `rest` bytes were accepted. */
  function Filling(ch: Chain, rest: nat): (res: (Chain, nat))
    requires |ch| >= 1 && AllWellFormed(ch)
    ensures |res.0| == |ch| && res.1 <= rest
  {
    var n := |ch| - 1;
    ReserveKeepsStream(ch[n].ring, rest, seq(ch[n].ring.size, _ => 0));
    var (r, part) := Reserve(ch[n].ring, rest);
    (ch[n := ch[n].(ring := Commit(r, part))], part)
  }

  /** A round of Produce works on the last buffer only, and leaves the chain without an open production. */
  lemma {:induction false} RoundIsFilling(ch: Chain, rest: nat)
    requires Calm(ch)
    ensures var (mid, at, part) := ProduceBuffer(ch, rest);
      && |mid| >= 1 && Reserved(mid[Target(mid, at.block)].ring, part)
      && (ValidBuffer(mid, at.block, part), part) == Filling(ch, rest)
    ensures Calm(Filling(ch, rest).0) && Owned(Filling(ch, rest).0) == Owned(ch)
  {
    hide Reserve, Commit, WellFormed, ValidBuffer, ProduceBuffer, Owned, NoDup;
    var n := |ch| - 1;
    ReserveKeepsStream(ch[n].ring, rest, seq(ch[n].ring.size, _ => 0));
    ProduceGoesLast(ch, rest);
    forall i | 0 <= i < n ensures ch[i].block != ch[n].block { BlocksDistinct(ch, i, n); }
    var (mid, at, part) := ProduceBuffer(ch, rest);
    CommitWellFormed(mid[n].ring, part);
    TargetOf(mid, n);
    ValidAtTarget(mid, at.block, part);
    SettleAlone(mid[n].(ring := Commit(mid[n].ring, part)), mid[n + 1..]);
    FillingOwned(ch, rest);
    NotInUse(mid[n].ring, part);
    var c := Filling(ch, rest).0;
    assert mid[..n] == ch[..n] && c == mid[..n] + [mid[n].(ring := Commit(mid[n].ring, part))];
  }

  lemma NotInUse(r: Ring, len: nat)
    requires Reserved(r, len)
    ensures !Commit(r, len).inUse
  {
  }

  lemma SettleAlone(node: Node, rest: Chain)
    requires rest == []
    ensures Settle([node] + rest) == [node]
  {
  }

  lemma FillingOwned(ch: Chain, rest: nat)
    requires |ch| >= 1 && AllWellFormed(ch)
    ensures Owned(Filling(ch, rest).0) == Owned(ch)
  {
    hide Owned, Reserve, Commit, WellFormed;
    var n := |ch| - 1;
    var (r, part) := Reserve(ch[n].ring, rest);
    ReserveKeepsStream(ch[n].ring, rest, seq(ch[n].ring.size, _ => 0));
    OwnedAt(ch, n, ch[n].(ring := Commit(r, part)));
  }

  /** The test of the loop in Produce, on the top buffer. */
  predicate Stopped(ch: Chain, rest: nat)
    requires |ch| >= 1
  {
    rest == 0 || ch[0].ring.free == 0
  }

  /** `n` rounds of the loop in Produce, or as many as it takes to stop. */
  ghost function Rounds(ch: Chain, rest: nat, n: nat): (res: (Chain, nat))
    requires Calm(ch)
    ensures |res.0| >= 1 && res.1 <= rest
    decreases n
  {
    if n == 0 || Stopped(ch, rest) then (ch, rest) else
      RoundIsFilling(ch, rest);
      var (mid, at, part) := ProduceBuffer(ch, rest);
      Rounds(ValidBuffer(mid, at.block, part), rest - part, n - 1)
  }

  lemma RoundsStep(ch: Chain, rest: nat, n: nat)
    requires Calm(ch) && n > 0 && !Stopped(ch, rest)
    ensures var (c, part) := Filling(ch, rest);
      Calm(c) && Rounds(ch, rest, n) == Rounds(c, rest - part, n - 1)
  {
    hide Filling, ProduceBuffer, ValidBuffer, Calm;
    RoundIsFilling(ch, rest);
  }

  /** Will the loop end?  It does on a single buffer, with a full top, and if the rest fits in the last. */
  predicate ProduceEnds(ch: Chain, rest: nat)
    requires |ch| >= 1 && AllWellFormed(ch)
  {
    |ch| == 1 || ch[0].ring.free == 0 || rest <= Room(ch[|ch| - 1].ring, rest)
  }

  lemma RoundKeepsEnding(ch: Chain, rest: nat)
    requires Calm(ch) && !Stopped(ch, rest)
    ensures var (c, part) := Filling(ch, rest);
      && Calm(c) && (ProduceEnds(ch, rest) <==> ProduceEnds(c, rest - part))
      && (ProduceEnds(ch, rest) ==> part > 0)
  {
    hide Room, Reserve, Commit, WellFormed, NoDup, Owned, Filled, Run, ProduceBuffer, ValidBuffer;
    RoundIsFilling(ch, rest);
    var n := |ch| - 1;
    RoomStep(ch[n].ring, rest);
    ReserveKeepsStream(ch[n].ring, rest, seq(ch[n].ring.size, _ => 0));
  }

  lemma {:induction false} EndsInTime(ch: Chain, rest: nat, n: nat)
    requires Calm(ch) && ProduceEnds(ch, rest) && n >= rest
    ensures var (c, left) := Rounds(ch, rest, n); Stopped(c, left)
    decreases rest
  {
    hide Filling, ProduceEnds, Busy, Tracks, NoDup, Owned, AllWellFormed;
    if !Stopped(ch, rest) {
      RoundsStep(ch, rest, n);
      RoundKeepsEnding(ch, rest);
      var (c, part) := Filling(ch, rest);
      EndsInTime(c, rest - part, n - 1);
    }
  }

  lemma {:induction false} NeverEnds(ch: Chain, rest: nat, n: nat)
    requires Calm(ch) && !ProduceEnds(ch, rest)
    ensures var (c, left) := Rounds(ch, rest, n); !Stopped(c, left)
    decreases n
  {
    hide Filling, Busy, Tracks, NoDup, Owned, AllWellFormed;
    if n > 0 && !Stopped(ch, rest) {
      hide ProduceEnds;
      RoundsStep(ch, rest, n);
      RoundKeepsEnding(ch, rest);
      var (c, part) := Filling(ch, rest);
      NeverEnds(c, rest - part, n - 1);
    }
  }

  /** Exactly when the loop in Produce ends by itself, that is with nothing consumed meanwhile, for every chain
      without an open production. */
  lemma ProduceEndsExactly(ch: Chain, len: nat)
    requires Calm(ch)
    ensures ProduceEnds(ch, len) <==> exists n :: Stopped(Rounds(ch, len, n).0, Rounds(ch, len, n).1)
  {
    if ProduceEnds(ch, len) {
      EndsInTime(ch, len, len);
      assert Stopped(Rounds(ch, len, len).0, Rounds(ch, len, len).1);
    } else {
      forall n: nat ensures !Stopped(Rounds(ch, len, n).0, Rounds(ch, len, n).1) { NeverEnds(ch, len, n); }
    }
  }

  /** Produce is under way: `len` of `total` bytes are in the last buffer.  On a single buffer the counters
      tell how they got there; otherwise the top buffer is not touched. */
  ghost predicate Underway(was: Chain, ch: Chain, len: nat, total: nat, chunks: nat) {
    && |was| >= 1 && Calm(ch) && |ch| == |was| && len <= total && ch[0].obsolete == [] && ProduceEnds(ch, total - len)
    && (|ch| == 1 ==>
          && FilledFrom(ch[0].ring, was[0].ring.free, was[0].ring.spare, len, total, chunks)
          && WellFormed(was[0].ring) && WellFormed(ch[0].ring)
          && Min(total, Room(was[0].ring, total)) == len + Min(total - len, Room(ch[0].ring, total - len)))
    && (|ch| > 1 ==> ch[0].ring == was[0].ring && (ch[0].ring.free == 0 ==> len == 0))
  }

  lemma UnderwayStart(ch: Chain, total: nat)
    requires Calm(ch) && ProduceEnds(ch, total) && ch[0].obsolete == []
    ensures Underway(ch, ch, 0, total, 0)
  {
  }

  lemma UnderwayStep(was: Chain, ch: Chain, len: nat, total: nat, chunks: nat)
    requires Underway(was, ch, len, total, chunks) && !Stopped(ch, total - len)
    ensures var (c, part) := Filling(ch, total - len);
      part > 0 && Underway(was, c, len + part, total, chunks + 1)
  {
    hide Reserve, Commit, WellFormed, Filled, NoDup, Owned, Room;
    RoundKeepsEnding(ch, total - len);
    var n := |ch| - 1;
    assert WellFormed(ch[n].ring);
    if n == 0 {
      RoomStep(ch[0].ring, total - len);
      FilledStep(ch[0].ring, was[0].ring.free, was[0].ring.spare, len, total, chunks);
      ReserveKeepsStream(ch[0].ring, total - len, seq(ch[0].ring.size, _ => 0));
    }
  }

  /** Where Produce has got to when it stops. */
  lemma UnderwayDone(was: Chain, ch: Chain, len: nat, total: nat, chunks: nat)
    requires Underway(was, ch, len, total, chunks) && Stopped(ch, total - len)
    ensures |ch| > 1 ==> len == if was[0].ring.free == 0 then 0 else total
    ensures var r, end := was[0].ring, ch[0].ring;
      |ch| == 1 ==>
        && chunks <= 2 && (len == total || end.free == 0)
        && len + end.free + end.spare == r.free + r.spare && r.spare <= end.spare
        && Min(total, r.free / 2) <= len <= Min(total, r.free)
        && WellFormed(r) && len == Min(total, Room(r, total))
  {
    if |ch| == 1 { FilledBounds(ch[0].ring, was[0].ring.free, was[0].ring.spare, len, total); }
  }

  lemma PurgedCalm(ch: Chain, total: nat)
    requires Calm(ch)
    ensures var c := ch[0 := ch[0].(obsolete := [])];
      |c| == |ch| && AllWellFormed(c) && (ProduceEnds(c, total) <==> ProduceEnds(ch, total))
  {
  }

  /** A production uses the blocks the chain has. */
  lemma ProducedOwned(ch: Chain, h: Heap, rest: nat, data: seq<Byte>, c: Chain, h': Heap)
    requires Sound(ch, h, Idle) && AllWellFormed(ch) && Produced(ch, h, rest, data, c, h')
    requires |data| == ProduceBuffer(ch, rest).2
    ensures c == Filling(ch, rest).0 && |data| == Filling(ch, rest).1 && Owned(c) == Owned(ch) && h'.Keys == h.Keys
  {
    hide ProduceBuffer, ValidBuffer, Filling, Sound, Written;
    SoundIsCalm(ch, h);
    RoundIsFilling(ch, rest);
  }

  /** Blocks only leave the chain when bytes are consumed. */
  lemma ConsumedOwned(ch: Chain, h: Heap, prod: Production, len: nat, data: seq<Byte>, c: Chain)
    requires Sound(ch, h, prod) && Consumed(ch, h, len, data, c)
    ensures Owned(c) <= Owned(ch)
  {
    ConsumeShowsFront(ch, len, h, prod);
    FreeOwned(ch, |data|);
  }

  /** A chain of one new buffer. */
  lemma NewChain(ch: Chain, h: Heap)
    requires |ch| == 1 && ch[0].obsolete == [] && ch[0].block in h
    requires ch[0].ring.size >= 1 && ch[0].ring == Fresh(ch[0].ring.size) && |h[ch[0].block]| == ch[0].ring.size
    ensures Sound(ch, h, Idle) && Stream(ch, h) == [] && Owned(ch) == multiset{ch[0].block}
  {
    assert BackedNode(ch[0], h);
    EmptyStream(ch, h);
    assert ch[1..] == [];
  }

  lemma FullRing(r: Ring, len: nat)
    requires WellFormed(r) && r.free == 0
    ensures Reserve(r, len) == (r.(inUse := true), 0)
    ensures Commit(r.(inUse := true), 0) == r.(inUse := false)
  {
  }
}
