/** Peeker::Peek: reading ahead without consuming. */
module Peeking {
  import opened Rings
  import opened Chains

  /** The next chain member with data, from index `k` on. */
  function FirstValid(ch: Chain, k: nat): (j: nat)
    requires k <= |ch|
    ensures k <= j <= |ch| && (j < |ch| ==> ch[j].ring.valid > 0)
    decreases |ch| - k
  {
    if k == |ch| || ch[k].ring.valid > 0 then k else FirstValid(ch, k + 1)
  }

  lemma FirstValidStep(ch: Chain, k: nat)
    requires k < |ch|
    ensures FirstValid(ch, k) == if ch[k].ring.valid > 0 then k else FirstValid(ch, k + 1)
  {
  }

  lemma FirstValidEnd(ch: Chain)
    ensures FirstValid(ch, |ch|) == |ch|
  {
  }

  lemma FirstValidShift(ch: Chain, k: nat, i: nat)
    requires k + i <= |ch|
    ensures FirstValid(ch, k + i) == k + FirstValid(ch[k..], i)
    decreases |ch| - i
  {
    if k + i < |ch| && ch[k + i].ring.valid == 0 { FirstValidShift(ch, k, i + 1); }
  }

  function DataEnd(r: Ring): int {
    r.size - r.spare
  }

  /** A peek position inside buffer `k`. */
  predicate Positioned(ch: Chain, h: Heap, k: nat, peek: nat) {
    && Backed(ch, h) && k <= |ch|
    && (k < |ch| ==> BackedNode(ch[k], h) && ch[k].ring.valid > 0 && peek < DataEnd(ch[k].ring))
  }

  /** How much PeekBuffer offers at once. */
  function PeekRun(r: Ring, peek: nat): int {
    var streak := if peek < r.consume then r.consume - peek else DataEnd(r) - peek;
    if streak > r.valid then r.valid else streak
  }

  /** Where PeekBuffer leaves the peeker after `part` bytes: buffer index and offset. */
  function Advance(ch: Chain, k: nat, peek: nat, part: nat): (res: (nat, nat))
    requires k < |ch|
    ensures res.0 <= |ch|
  {
    var r := ch[k].ring;
    var p := if peek + part == DataEnd(r) then 0 else peek + part;
    if p == r.consume then
      var j := FirstValid(ch, k + 1);
      (j, if j < |ch| then ch[j].ring.consume else 0)
    else (k, p)
  }

  lemma AdvancePositioned(ch: Chain, h: Heap, k: nat, peek: nat, part: nat)
    requires Positioned(ch, h, k, peek) && k < |ch| && 0 < part <= PeekRun(ch[k].ring, peek)
    ensures peek + part <= |h[ch[k].block]|
    ensures var (j, p) := Advance(ch, k, peek, part); Positioned(ch, h, j, p)
  {
    var (j, p) := Advance(ch, k, peek, part);
    if j < |ch| && j != k {
      assert BackedNode(ch[j], h);
    }
  }

  /** All the bytes Peek copies. */
  function PeekFrom(ch: Chain, h: Heap, k: nat, peek: nat, len: nat): seq<Byte>
    requires Positioned(ch, h, k, peek)
    decreases len
  {
    if len == 0 || k == |ch| then [] else
      var part := Min(len, PeekRun(ch[k].ring, peek));
      AdvancePositioned(ch, h, k, peek, part);
      var (j, p) := Advance(ch, k, peek, part);
      h[ch[k].block][peek..peek + part] + PeekFrom(ch, h, j, p, len - part)
  }

  lemma PeekUnfold(ch: Chain, h: Heap, k: nat, peek: nat, len: nat, part: nat)
    requires Positioned(ch, h, k, peek) && k < |ch| && 0 < len && part == Min(len, PeekRun(ch[k].ring, peek))
    ensures part > 0 && ch[k].block in h && peek + part <= |h[ch[k].block]|
    ensures var (j, p) := Advance(ch, k, peek, part);
      && Positioned(ch, h, j, p)
      && PeekFrom(ch, h, k, peek, len) == h[ch[k].block][peek..peek + part] + PeekFrom(ch, h, j, p, len - part)
    ensures var r := ch[k].ring;
      var q := if peek + part == r.size - r.spare then 0 else peek + part;
      var j := FirstValid(ch, k + 1);
      Advance(ch, k, peek, part) ==
      if q == r.consume then (j, if j < |ch| then ch[j].ring.consume else 0) else (k, q)
  {
    AdvancePositioned(ch, h, k, peek, part);
  }

  lemma PeekNothing(ch: Chain, h: Heap, k: nat, peek: nat, len: nat)
    requires Positioned(ch, h, k, peek) && (len == 0 || k == |ch|)
    ensures PeekFrom(ch, h, k, peek, len) == []
  {
  }

  /** The locals of PeekBuffer: what it offers and takes. */
  lemma PeekOffer(ch: Chain, h: Heap, k: nat, peek: nat, len: nat)
    requires Positioned(ch, h, k, peek) && k < |ch| && 0 < len
    ensures var r := ch[k].ring;
      var streak := if peek < r.consume then r.consume - peek else r.size - peek - r.spare;
      var offer := if streak > r.valid then r.valid else streak;
      PeekRun(r, peek) == offer && 0 < offer && Min(len, PeekRun(r, peek)) == if len > offer then offer else len
  {
  }

  function Start(ch: Chain): (res: (nat, nat))
    ensures res.0 <= |ch|
  {
    var k := FirstValid(ch, 0);
    (k, if k < |ch| then ch[k].ring.consume else 0)
  }

  lemma StartPositioned(ch: Chain, h: Heap)
    requires Backed(ch, h)
    ensures Positioned(ch, h, Start(ch).0, Start(ch).1)
  {
    var k := FirstValid(ch, 0);
    if k < |ch| { assert BackedNode(ch[k], h); }
  }

  function Peek(ch: Chain, h: Heap, len: nat): seq<Byte>
    requires Backed(ch, h)
  {
    StartPositioned(ch, h);
    PeekFrom(ch, h, Start(ch).0, Start(ch).1, len)
  }

  /** How many bytes Peek takes from one buffer, from `p` once around to `fConsume`. */
  function LeftIn(r: Ring, p: nat): int {
    if p < r.consume then r.consume - p else DataEnd(r) - p + r.consume
  }

  /** Those bytes, valid or not. */
  function Around(r: Ring, bytes: seq<Byte>, p: nat): (s: seq<Byte>)
    requires WellFormed(r) && |bytes| == r.size && p < DataEnd(r)
    ensures |s| == LeftIn(r, p)
  {
    if p < r.consume then bytes[p..r.consume] else bytes[p..DataEnd(r)] + bytes[..r.consume]
  }

  /** Peek from the beginning of the next buffer with data. */
  function Onward(ch: Chain, h: Heap, k: nat, len: nat): seq<Byte>
    requires Backed(ch, h) && k <= |ch|
  {
    var j := FirstValid(ch, k);
    if j < |ch| then
      assert BackedNode(ch[j], h);
      PeekFrom(ch, h, j, ch[j].ring.consume, len)
    else []
  }

  lemma OnwardAt(ch: Chain, h: Heap, k: nat, j: nat, p: nat, len: nat)
    requires Backed(ch, h) && k < |ch| && j == FirstValid(ch, k + 1) && Positioned(ch, h, j, p)
    requires p == if j < |ch| then ch[j].ring.consume else 0
    ensures PeekFrom(ch, h, j, p, len) == Onward(ch, h, k + 1, len)
  {
  }

  /** Peek leaves a buffer only after a whole round, whatever is valid in it. */
  lemma {:induction false} PeekGoesAround(ch: Chain, h: Heap, k: nat, p: nat, len: nat)
    requires Positioned(ch, h, k, p) && k < |ch|
    ensures var r := ch[k].ring; var left := LeftIn(r, p);
      PeekFrom(ch, h, k, p, len) ==
      if len <= left then Around(r, h[ch[k].block], p)[..len]
      else Around(r, h[ch[k].block], p) + Onward(ch, h, k + 1, len - left)
    decreases len
  {
    hide PeekFrom, Advance, FirstValid, Onward, Around, LeftIn, Run, Backed, WellFormed, PeekRun;
    var r, bytes := ch[k].ring, h[ch[k].block];
    if len == 0 {
      PeekNothing(ch, h, k, p, 0);
    } else {
      PeekOffer(ch, h, k, p, len);
      var part := Min(len, PeekRun(r, p));
      PeekUnfold(ch, h, k, p, len, part);
      var (j, q) := Advance(ch, k, p, part);
      PartOfRound(r, bytes, p, part);
      var next := if p + part == DataEnd(r) then 0 else p + part;
      if next == r.consume {
        OnwardAt(ch, h, k, j, q, len - part);
        if len == part { PeekNothing(ch, h, j, q, 0); }
      } else {
        PeekGoesAround(ch, h, k, q, len - part);
        SplitRound(Around(r, bytes, p), part, len);
        var beyond := if len > LeftIn(r, p) then len - LeftIn(r, p) else 0;
        AppendAssociates(bytes[p..p + part], Around(r, bytes, q), Onward(ch, h, k + 1, beyond));
      }
    }
  }

  lemma PartOfRound(r: Ring, bytes: seq<Byte>, p: nat, part: nat)
    requires WellFormed(r) && |bytes| == r.size && p < DataEnd(r) && 0 < part <= PeekRun(r, p)
    ensures var next := if p + part == DataEnd(r) then 0 else p + part;
      && part <= LeftIn(r, p)
      && (next == r.consume ==> LeftIn(r, p) == part && Around(r, bytes, p) == bytes[p..p + part])
      && (next != r.consume ==>
            && next < DataEnd(r) && LeftIn(r, next) == LeftIn(r, p) - part
            && Around(r, bytes, p) == bytes[p..p + part] + Around(r, bytes, next))
  {
  }

  lemma SplitRound(s: seq<Byte>, part: nat, len: nat)
    requires part <= len && part <= |s|
    ensures len <= |s| ==> s[..len] == s[..part] + s[part..][..len - part]
  {
  }

  /** The first round of Peek starts with the valid bytes, and holds nothing else if the buffer is full. */
  lemma AroundIsPending(r: Ring, bytes: seq<Byte>)
    requires WellFormed(r) && |bytes| == r.size && r.valid > 0
    ensures r.consume < DataEnd(r) && LeftIn(r, r.consume) == r.valid + r.free
    ensures Around(r, bytes, r.consume)[..r.valid] == Pending(r, bytes)
    ensures r.free == 0 ==> Around(r, bytes, r.consume) == Pending(r, bytes)
  {
    hide WellFormed;
    DataInside(r);
    var end := DataEnd(r);
    assert Around(r, bytes, r.consume) == bytes[r.consume..end] + bytes[..r.consume];
    if r.consume + r.valid <= end {
      assert (bytes[r.consume..end] + bytes[..r.consume])[..r.valid] == bytes[r.consume..r.consume + r.valid];
    } else {
      assert (bytes[r.consume..end] + bytes[..r.consume])[..r.valid]
          == bytes[r.consume..end] + bytes[..r.consume + r.valid - end];
    }
    assert r.free == 0 ==> Around(r, bytes, r.consume)[..r.valid] == Around(r, bytes, r.consume);
  }

  lemma DataInside(r: Ring)
    requires WellFormed(r) && r.valid > 0
    ensures r.consume < DataEnd(r) <= r.size && DataEnd(r) == r.valid + r.free
  {
  }

  /** Peek from buffer `k` on: an empty buffer is skipped; otherwise its data comes first, and what follows
      is the next buffer's if this one is full, and bytes of its own free space if not. */
  lemma OnwardStep(ch: Chain, h: Heap, k: nat, len: nat)
    requires Backed(ch, h) && k < |ch| && BackedNode(ch[k], h)
    ensures var r := ch[k].ring; var piece := Piece(ch[k], h);
      && |piece| == r.valid
      && (r.valid == 0 ==> piece == [] && Onward(ch, h, k, len) == Onward(ch, h, k + 1, len))
      && (r.valid > 0 && len <= r.valid ==> Onward(ch, h, k, len) == piece[..len])
      && (r.valid > 0 && len > r.valid && r.free == 0 ==>
            Onward(ch, h, k, len) == piece + Onward(ch, h, k + 1, len - r.valid))
      && (r.valid > 0 && len > r.valid && r.free > 0 ==>
            |Onward(ch, h, k, len)| > r.valid && Onward(ch, h, k, len)[r.valid] in h[ch[k].block])
  {
    hide PeekFrom, WellFormed, Pending, Advance;
    FirstValidStep(ch, k);
    var r := ch[k].ring;
    if r.valid == 0 {
      PieceEmpty(ch[k], h);
    } else {
      var bytes := h[ch[k].block];
      AroundIsPending(r, bytes);
      PeekGoesAround(ch, h, k, r.consume, len);
      if len <= r.valid { assert Around(r, bytes, r.consume)[..r.valid][..len] == Around(r, bytes, r.consume)[..len]; }
      if r.free > 0 { AroundIn(r, bytes, r.consume); }
    }
  }

  lemma PieceEmpty(node: Node, h: Heap)
    requires BackedNode(node, h) && node.ring.valid == 0
    ensures Piece(node, h) == []
  {
  }

  lemma AroundIn(r: Ring, bytes: seq<Byte>, p: nat)
    requires WellFormed(r) && |bytes| == r.size && p < DataEnd(r)
    ensures forall i :: 0 <= i < |Around(r, bytes, p)| ==> Around(r, bytes, p)[i] in bytes
  {
  }

  lemma StreamStep(ch: Chain, h: Heap, k: nat)
    requires Backed(ch, h) && k < |ch|
    ensures BackedNode(ch[k], h) && Backed(ch[k..], h) && Backed(ch[k + 1..], h) && ch[k..][1..] == ch[k + 1..]
    ensures Stream(ch[k..], h) == Piece(ch[k], h) + Stream(ch[k + 1..], h)
    ensures Valid(ch[k..]) == ch[k].ring.valid + Valid(ch[k + 1..])
  {
    hide Stream, Pieces, Flat, WellFormed;
    var rest := ch[k..];
    assert forall i :: 0 <= i < |rest| ==> rest[i] == ch[k + i];
    assert rest[1..] == ch[k + 1..];
    StreamCons(rest, h);
  }

  lemma PeekIsOnward(ch: Chain, h: Heap, len: nat)
    requires Backed(ch, h)
    ensures Peek(ch, h, len) == Onward(ch, h, 0, len)
  {
    StartPositioned(ch, h);
    if Start(ch).0 == |ch| { PeekNothing(ch, h, |ch|, 0, len); }
  }

  /** Up to the top buffer's data, Peek yields exactly what Consume would, across the wrap and the
      skipped tail. */
  lemma PeekAgreesWithConsume(ch: Chain, h: Heap, len: nat)
    requires Backed(ch, h) && |ch| >= 1 && len <= ch[0].ring.valid
    ensures len <= Valid(ch) && Peek(ch, h, len) == Stream(ch, h)[..len]
  {
    hide Peek, Stream, Onward, WellFormed, Piece;
    assert ch[0..] == ch;
    StreamStep(ch, h, 0);
    PeekIsOnward(ch, h, len);
    OnwardStep(ch, h, 0, len);
    if ch[0].ring.valid == 0 { OnwardNothing(ch, h, 0); }
  }

  lemma {:induction false} OnwardNothing(ch: Chain, h: Heap, k: nat)
    requires Backed(ch, h) && k <= |ch|
    ensures Onward(ch, h, k, 0) == []
  {
  }

  /** Asked for more than a single ring holds, Peek runs on into stale bytes unless the ring is full or
      empty: it compares with `fConsume`, not with `fProduce`. */
  lemma PeekExactly(node: Node, h: Heap, len: nat)
    requires BackedNode(node, h)
    ensures var ch := [node]; var r := node.ring;
      && Backed(ch, h)
      && (Peek(ch, h, len) == Stream(ch, h)[..Min(len, r.valid)] <==>
          len <= r.valid || r.free == 0 || r.valid == 0)
  {
    hide Peek, Onward, WellFormed;
    var ch := [node];
    StreamSingle(node, h);
    PeekIsOnward(ch, h, len);
    OnwardStep(ch, h, 0, len);
    OnwardEnd(ch, h, len);
    OnwardEnd(ch, h, if len > node.ring.valid then len - node.ring.valid else 0);
  }

  lemma OnwardEnd(ch: Chain, h: Heap, len: nat)
    requires Backed(ch, h)
    ensures Onward(ch, h, |ch|, len) == []
  {
  }

  // ----- the whole chain -----

  /** Peek stays right as long as every buffer it has to leave is full. */
  predicate PeekFits(ch: Chain, len: nat)
    decreases |ch|
  {
    if ch == [] then true
    else if ch[0].ring.valid == 0 then PeekFits(ch[1..], len)
    else len <= ch[0].ring.valid || (ch[0].ring.free == 0 && PeekFits(ch[1..], len - ch[0].ring.valid))
  }

  /** The conclusion for one heap. */
  predicate PeekRight(ch: Chain, h: Heap, k: nat, len: nat)
    requires Backed(ch, h) && k <= |ch|
  {
    && Backed(ch[k..], h)
    && Onward(ch, h, k, len) == Stream(ch[k..], h)[..Min(len, Valid(ch[k..]))]
  }

  lemma {:induction false} FitsIsRight(ch: Chain, h: Heap, k: nat, len: nat)
    requires Backed(ch, h) && k <= |ch| && PeekFits(ch[k..], len)
    ensures PeekRight(ch, h, k, len)
    decreases |ch| - k
  {
    hide Stream, Onward, WellFormed, Pending, Piece, Backed;
    if k < |ch| {
      StreamStep(ch, h, k);
      OnwardStep(ch, h, k, len);
      var r := ch[k].ring;
      if r.valid == 0 {
        FitsIsRight(ch, h, k + 1, len);
      } else if len > r.valid {
        FitsIsRight(ch, h, k + 1, len - r.valid);
      }
    } else {
      NothingBehind(ch, h, len);
    }
  }

  lemma NothingBehind(ch: Chain, h: Heap, len: nat)
    requires Backed(ch, h)
    ensures PeekRight(ch, h, |ch|, len)
  {
    assert ch[|ch|..] == [];
  }

  /** The first buffer Peek leaves although it is not full. */
  function Offender(ch: Chain, len: nat): (i: nat)
    requires !PeekFits(ch, len)
    ensures i < |ch|
    decreases |ch|
  {
    if ch[0].ring.valid == 0 then 1 + Offender(ch[1..], len)
    else if ch[0].ring.free > 0 then 0
    else 1 + Offender(ch[1..], len - ch[0].ring.valid)
  }

  /** A memory that gives it away: ones in that buffer, zeros in the others. */
  function Marked(ch: Chain, i: nat): (h: Heap)
    requires forall a, b :: 0 <= a < b < |ch| ==> ch[a].block != ch[b].block
    ensures forall j :: 0 <= j < |ch| ==>
              ch[j].block in h && h[ch[j].block] == seq(ch[j].ring.size, _ => if j == i then 1 else 0)
  {
    map j | 0 <= j < |ch| :: ch[j].block := seq(ch[j].ring.size, _ => if j == i then 1 else 0)
  }

  /** Nothing but zeros behind the marked buffer. */
  lemma {:induction false} ZerosBehind(ch: Chain, h: Heap, k: nat)
    requires Backed(ch, h) && k <= |ch|
    requires forall j :: k <= j < |ch| ==> forall x :: x in h[ch[j].block] ==> x == 0
    ensures Backed(ch[k..], h) && forall x :: x in Stream(ch[k..], h) ==> x == 0
    decreases |ch| - k
  {
    hide Stream, WellFormed, Piece, Backed;
    if k < |ch| {
      StreamStep(ch, h, k);
      ZerosBehind(ch, h, k + 1);
      PieceIn(ch[k], h);
    } else {
      NothingBehind(ch, h, 0);
      EmptyStream(ch[k..], h);
    }
  }

  lemma PieceIn(node: Node, h: Heap)
    requires BackedNode(node, h)
    ensures forall x :: x in Piece(node, h) ==> x in h[node.block]
  {
  }

  predicate MarkedAt(ch: Chain, h: Heap, i: nat)
    requires Backed(ch, h) && i < |ch|
  {
    && BackedNode(ch[i], h) && (forall x :: x in h[ch[i].block] ==> x == 1)
    && (forall j :: i < j < |ch| ==> BackedNode(ch[j], h) && forall x :: x in h[ch[j].block] ==> x == 0)
  }

  lemma MarkedIsMarked(ch: Chain, i: nat)
    requires AllWellFormed(ch) && i < |ch| && forall a, b :: 0 <= a < b < |ch| ==> ch[a].block != ch[b].block
    ensures Backed(ch, Marked(ch, i)) && MarkedAt(ch, Marked(ch, i), i)
  {
    hide WellFormed;
  }

  lemma {:induction false} UnfitIsWrong(ch: Chain, h: Heap, k: nat, len: nat)
    requires Backed(ch, h) && k <= |ch| && !PeekFits(ch[k..], len) && MarkedAt(ch, h, k + Offender(ch[k..], len))
    ensures !PeekRight(ch, h, k, len)
    decreases |ch| - k
  {
    hide Stream, Onward, WellFormed, Pending, Piece, Backed;
    StreamStep(ch, h, k);
    OnwardStep(ch, h, k, len);
    var r := ch[k].ring;
    if r.valid == 0 {
      assert k + Offender(ch[k..], len) == k + 1 + Offender(ch[k + 1..], len);
      UnfitIsWrong(ch, h, k + 1, len);
    } else if r.free == 0 {
      assert k + Offender(ch[k..], len) == k + 1 + Offender(ch[k + 1..], len - r.valid);
      UnfitIsWrong(ch, h, k + 1, len - r.valid);
      SameFront(Piece(ch[k], h), Onward(ch, h, k + 1, len - r.valid), Stream(ch[k + 1..], h),
                Min(len - r.valid, Valid(ch[k + 1..])));
    } else {
      ZerosBehind(ch, h, k + 1);
      NotZeros(Onward(ch, h, k, len), Piece(ch[k], h), Stream(ch[k + 1..], h), Min(len, Valid(ch[k..])));
    }
  }

  lemma NotZeros(o: seq<Byte>, p: seq<Byte>, z: seq<Byte>, n: nat)
    requires n <= |p| + |z| && |o| > |p| && o[|p|] == 1 && forall x :: x in z ==> x == 0
    ensures o != (p + z)[..n]
  {
    if n > |p| {
      assert (p + z)[..n][|p|] == z[0];
      assert z[0] in z;
    }
  }

  lemma SameFront(p: seq<Byte>, o: seq<Byte>, s: seq<Byte>, n: nat)
    requires n <= |s|
    ensures p + o == (p + s)[..|p| + n] ==> o == s[..n]
  {
    assert (p + s)[..|p| + n] == p + s[..n];
    assert o == (p + o)[|p|..] && s[..n] == (p + s[..n])[|p|..];
  }

  /** Over all contents of memory: exactly when Peek agrees with the stream of the whole chain. */
  lemma PeekChainExactly(ch: Chain, len: nat)
    requires AllWellFormed(ch) && forall i, j :: 0 <= i < j < |ch| ==> ch[i].block != ch[j].block
    ensures PeekFits(ch, len) <==>
            forall h :: Backed(ch, h) ==> Peek(ch, h, len) == Stream(ch, h)[..Min(len, Valid(ch))]
  {
    hide PeekFits, Peek, Stream, Onward, Backed, Marked, MarkedAt, AllWellFormed, Valid;
    assert ch[0..] == ch;
    forall h | Backed(ch, h)
      ensures PeekRight(ch, h, 0, len) <==> Peek(ch, h, len) == Stream(ch, h)[..Min(len, Valid(ch))]
    {
      PeekIsOnward(ch, h, len);
    }
    if PeekFits(ch, len) {
      forall h | Backed(ch, h) ensures PeekRight(ch, h, 0, len) { FitsIsRight(ch, h, 0, len); }
    } else {
      var i := Offender(ch, len);
      MarkedIsMarked(ch, i);
      UnfitIsWrong(ch, Marked(ch, i), 0, len);
    }
  }
}
