/** Removal of the first occurrence, which both the queue of contexts and its users rely on. */
module Lists {
  function RemoveFirst<T(==)>(q: seq<T>, c: T): seq<T> {
    if q == [] then [] else if q[0] == c then q[1..] else [q[0]] + RemoveFirst(q[1..], c)
  }

  /** Only the first occurrence goes; everything else keeps its order. */
  lemma {:induction false} RemoveFirstAt<T>(q: seq<T>, c: T, i: nat)
    requires i < |q| && q[i] == c && c !in q[..i]
    ensures RemoveFirst(q, c) == q[..i] + q[i + 1..]
  {
    if i > 0 {
      assert q[0] in q[..i] && q[1..][..i - 1] == q[..i][1..];
      RemoveFirstAt(q[1..], c, i - 1);
      assert q[..i] == [q[0]] + q[1..][..i - 1];
    }
  }

  lemma {:induction false} RemoveAbsent<T>(q: seq<T>, c: T)
    requires c !in q
    ensures RemoveFirst(q, c) == q
  {
    if q != [] { RemoveAbsent(q[1..], c); }
  }

  lemma {:induction false} RemoveFirstCounts<T>(q: seq<T>, c: T)
    ensures multiset(RemoveFirst(q, c)) == multiset(q) - multiset{c}
  {
    if q != [] {
      assert q == [q[0]] + q[1..];
      if q[0] != c { RemoveFirstCounts(q[1..], c); }
    }
  }
}

/** GUSIContextQueue: a singly linked list of contexts with a pointer to its last element. */
module ContextQueues {
  import opened Lists
  import opened Contexts
  import W = Wakeup

  class Element {
    var fContext: Context
    var fNext: Element?

    constructor (context: Context, next: Element?)
      ensures fContext == context && fNext == next
    {
      fContext, fNext := context, next;
    }
  }

  class ContextQueue {
    var fFirst: Element?
    var fLast: Element?
    ghost var Elements: seq<Element>

    /** The list is acyclic, `Elements` lists it in order, and `fLast` is its true end. */
    ghost predicate Valid()
      reads this, Elements
    {
      && (forall i, j :: 0 <= i < j < |Elements| ==> Elements[i] != Elements[j])
      && fFirst == Elem(0)
      && fLast == Elem(|Elements| - 1)
      && (forall i :: 0 <= i < |Elements| ==> Elements[i].fNext == Elem(i + 1))
    }

    ghost function Elem(i: int): Element?
      reads this
    {
      if 0 <= i < |Elements| then Elements[i] else null
    }

    static ghost function Contexts(es: seq<Element>): (s: seq<Context>)
      reads es
      ensures |s| == |es| && forall i :: 0 <= i < |es| ==> s[i] == es[i].fContext
    {
      if es == [] then [] else [es[0].fContext] + Contexts(es[1..])
    }

    ghost function Contents(): seq<Context>
      reads this, Elements
    {
      Contexts(Elements)
    }

    constructor ()
      ensures Valid() && Contents() == [] && Elements == []
    {
      fFirst, fLast := null, null;
      Elements := [];
    }

    predicate Empty()
      requires Valid()
      reads this, Elements
      ensures Empty() <==> Contents() == []
    {
      fFirst == null
    }

    method Front() returns (c: Context?)
      requires Valid()
      ensures c == if Contents() == [] then null else Contents()[0]
    {
      c := if fFirst != null then fFirst.fContext else null;
    }

    method Back() returns (c: Context?)
      requires Valid()
      ensures c == if Contents() == [] then null else Contents()[|Contents()| - 1]
    {
      c := if fLast != null then fLast.fContext else null;
    }

    method PushFront(context: Context)
      requires Valid()
      modifies this
      ensures Valid() && fresh(set e | e in Elements && e !in old(Elements))
      ensures Contents() == [context] + old(Contents())
    {
      hide Valid, Contexts;
      Prepend(context);
      ContextsCons(Elements);
    }

    /** The new element goes in front of the first one. */
    method Prepend(context: Context)
      requires Valid()
      modifies this
      ensures Valid() && |Elements| > 0 && fresh(Elements[0]) && Elements[1..] == old(Elements)
      ensures Elements[0].fContext == context
      ensures forall e :: e in Elements ==> e == Elements[0] || e in old(Elements)
    {
      hide Contents, Contexts;
      ghost var es := Elements;
      fFirst := new Element(context, fFirst);
      if fLast == null { fLast := fFirst; }
      Elements := [fFirst] + es;
    }

    static lemma ContextsCons(es: seq<Element>)
      requires |es| > 0
      ensures Contexts(es) == [es[0].fContext] + Contexts(es[1..])
    {
    }

    method PushBack(context: Context)
      requires Valid()
      modifies this, Elements
      ensures Valid() && fresh(set e | e in Elements && e !in old(Elements))
      ensures Contents() == old(Contents()) + [context]
    {
      hide Valid, Contents, Contexts;
      ghost var s := Contents();
      Listed();
      var e := Append(context);
      Listed();
      assert Contents() == s + [context];
    }

    /** The new element goes behind the last one. */
    method Append(context: Context) returns (e: Element)
      requires Valid()
      modifies this, Elements
      ensures Valid() && fresh(e) && e.fContext == context && Elements == old(Elements) + [e]
      ensures forall x :: x in old(Elements) ==> x.fContext == old(x.fContext)
    {
      hide Contents, Contexts;
      e := new Element(context, null);
      if fLast != null {
        fLast.fNext := e;
      } else {
        fFirst := e;
      }
      fLast := e;
      Elements := Elements + [e];
    }

    method PopFront()
      requires Valid()
      modifies this
      ensures Valid() && forall e :: e in Elements ==> e in old(Elements)
      ensures Contents() == if old(Contents()) == [] then [] else old(Contents())[1..]
    {
      if fFirst != null {
        fFirst := fFirst.fNext;
        if fFirst == null { fLast := null; }
        Elements := Elements[1..];
      }
    }

    method Remove(context: Context)
      requires Valid()
      modifies this, Elements
      ensures Valid() && forall e :: e in Elements ==> e in old(Elements)
      ensures Contents() == RemoveFirst(old(Contents()), context)
    {
      if fFirst == null {
        return;
      }
      if fFirst.fContext == context {
        PopFront();
        return;
      }
      var prev := fFirst;
      var cur := prev.fNext;
      ghost var i := 1;
      while cur != null
        invariant 1 <= i <= |Elements| && prev == Elements[i - 1] && cur == Elem(i)
        invariant forall j :: 0 <= j < i ==> Elements[j].fContext != context
        decreases |Elements| - i
      {
        if cur.fContext == context {
          ghost var s := Contents();
          assert context !in s[..i];
          RemoveFirstAt(s, context, i);
          Unlink(prev, cur, i);
          return;
        }
        prev := cur;
        cur := cur.fNext;
        i := i + 1;
      }
      RemoveAbsent(Contents(), context);
    }

    /** Take the element behind `prev` out of the list. */
    method Unlink(prev: Element, cur: Element, ghost i: nat)
      requires Valid() && 1 <= i < |Elements| && prev == Elements[i - 1] && cur == Elements[i]
      modifies this, prev
      ensures Valid() && forall e :: e in Elements ==> e in old(Elements)
      ensures Contents() == old(Contents())[..i] + old(Contents())[i + 1..]
    {
      hide Contents, Contexts, Elem;
      ghost var s := Contents();
      Listed();
      Bypass(prev, cur, i);
      Listed();
      assert forall j :: 0 <= j < |Elements| ==> Contents()[j] == s[if j < i then j else j + 1];
    }

    method Bypass(prev: Element, cur: Element, ghost i: nat)
      requires Valid() && 1 <= i < |Elements| && prev == Elements[i - 1] && cur == Elements[i]
      modifies this, prev`fNext
      ensures Valid() && |Elements| == |old(Elements)| - 1 && forall e :: e in Elements ==> e in old(Elements)
      ensures forall j :: 0 <= j < |Elements| ==> Elements[j] == old(Elements)[if j < i then j else j + 1]
    {
      hide Contents, Contexts, Without, Link, Valid, Elem;
      ghost var es := Elements;
      Links();
      Relink(prev, cur, i);
      Elements := Without(es, i);
      LinksWithout(es, i);
      NowValid();
    }

    /** The assignments that take `cur` out. */
    method Relink(prev: Element, cur: Element, ghost i: nat)
      requires Valid() && 1 <= i < |Elements| && prev == Elements[i - 1] && cur == Elements[i]
      modifies this`fLast, prev`fNext
      ensures forall k :: 0 <= k < |Elements| && k != i - 1 ==> Link(Elements, k)
      ensures prev.fNext == (if i + 1 < |Elements| then Elements[i + 1] else null)
      ensures fLast == if i + 1 < |Elements| then Elements[|Elements| - 1] else prev
    {
      hide Contents, Contexts;
      Links();
      prev.fNext := cur.fNext;
      if prev.fNext == null { fLast := prev; }
      assert forall k :: 0 <= k < |Elements| && k != i - 1 ==> old(Link(Elements, k)) && Link(Elements, k);
    }

    /** Element `k` points to the next one, the last one to nothing. */
    static ghost predicate Link(es: seq<Element>, k: int)
      reads es
    {
      0 <= k < |es| && es[k].fNext == if k + 1 < |es| then es[k + 1] else null
    }

    lemma Links()
      requires Valid()
      ensures forall k :: 0 <= k < |Elements| ==> Link(Elements, k)
      ensures forall j, k :: 0 <= j < k < |Elements| ==> Elements[j] != Elements[k]
      ensures |Elements| > 0 ==> fFirst == Elements[0]
    {
    }

    lemma NowValid()
      requires forall j, k :: 0 <= j < k < |Elements| ==> Elements[j] != Elements[k]
      requires |Elements| > 0 && fFirst == Elements[0] && fLast == Elements[|Elements| - 1]
      requires forall k :: 0 <= k < |Elements| ==> Link(Elements, k)
      ensures Valid()
    {
      forall k | 0 <= k < |Elements| ensures Elements[k].fNext == Elem(k + 1) { assert Link(Elements, k); }
    }

    static lemma LinksWithout(es: seq<Element>, i: nat)
      requires 1 <= i < |es| && (forall a, b :: 0 <= a < b < |es| ==> es[a] != es[b])
      requires forall k :: 0 <= k < |es| && k != i - 1 ==> Link(es, k)
      requires es[i - 1].fNext == (if i + 1 < |es| then es[i + 1] else null)
      ensures var d := Without(es, i); forall j :: 0 <= j < |d| ==> Link(d, j)
    {
      forall j | 0 <= j < |es| - 1 ensures Link(Without(es, i), j) { LinkWithout(es, i, j); }
    }

    static lemma LinkWithout(es: seq<Element>, i: nat, j: nat)
      requires 1 <= i < |es| && (forall a, b :: 0 <= a < b < |es| ==> es[a] != es[b])
      requires forall k :: 0 <= k < |es| && k != i - 1 ==> Link(es, k)
      requires es[i - 1].fNext == (if i + 1 < |es| then es[i + 1] else null) && j < |es| - 1
      ensures Link(Without(es, i), j)
    {
      hide Without;
      var d := Without(es, i);
      var k := if j < i then j else j + 1;
      assert k != i - 1 ==> Link(es, k);
      assert d[j] == es[k] && (j + 1 < |d| ==> d[j + 1] == es[if j + 1 < i then j + 1 else j + 2]);
    }

    static ghost function Without(es: seq<Element>, i: nat): (res: seq<Element>)
      requires i < |es| && forall j, k :: 0 <= j < k < |es| ==> es[j] != es[k]
      ensures |res| == |es| - 1 && forall j :: 0 <= j < |res| ==> res[j] == es[if j < i then j else j + 1]
      ensures forall j, k :: 0 <= j < k < |res| ==> res[j] != res[k]
      ensures forall e :: e in res ==> e in es
    {
      es[..i] + es[i + 1..]
    }

    lemma Listed()
      ensures |Contents()| == |Elements| && forall j :: 0 <= j < |Elements| ==> Contents()[j] == Elements[j].fContext
    {
    }

    /** Woken, however often. */
    static twostate predicate Woken(c: Context)
      reads c
    {
      && c.fWakeup && c.asleep == old(c.asleep)
      && c.run == if !old(c.fWakeup) && c.fThreadID != W.MAIN && old(c.run).Stopped? then W.Ready else old(c.run)
    }

    lemma ElementAt(i: nat)
      requires Valid() && i < |Elements|
      ensures Elem(i) != null && Elem(i).fNext == Elem(i + 1) && Elem(i).fContext == Contents()[i]
    {
    }

    static lemma AllAllocated(s: seq<Context>)
      ensures forall c :: c in s ==> allocated(c)
    {
    }

    lemma Ends()
      requires Valid()
      ensures fFirst == Elem(0) && |Contents()| == |Elements|
      ensures forall i: nat :: Elem(i) == null <==> i >= |Elements|
    {
    }

    /** Every queued context is woken, however often it is queued; no other context is touched. */
    method Wakeup()
      requires Valid()
      modifies set c | c in Contents(), set c | c in Contents() :: c.fProcess
      ensures Valid() && Contents() == old(Contents())
      ensures forall c :: c in Contents() ==> Woken(c)
    {
      hide Valid, Elem, Contents, Contexts;
      var cur := fFirst;
      ghost var i: nat := 0;
      ghost var s := Contents();
      Ends();
      AllAllocated(s);
      while cur != null
        invariant i <= |Elements| == |s| && cur == Elem(i) && Valid() && Contents() == s
        invariant forall c :: c in s ==> if c in s[..i] then Woken(c) else unchanged(c)
        decreases |Elements| - i
      {
        Ends();
        ElementAt(i);
        WakeOne(cur.fContext);
        cur := cur.fNext;
        i := i + 1;
        assert s[..i] == s[..i - 1] + [s[i - 1]];
      }
      assert s[..i] == s;
    }

    /** One round of the loop. */
    static method WakeOne(context: Context)
      modifies context, context.fProcess
      ensures Woken(context)
    {
      context.Wakeup();
      assert context.Thread(W.Out, false, false) == W.Woken(context.fThreadID, old(context.Thread(W.Out, false, false)));
    }
  }
}
