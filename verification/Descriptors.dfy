/** The descriptor table: sockets shared between slots and tables by a reference count. */
module Descriptors {

  const SIZE: nat := 64

  datatype Result = Fd(fd: nat) | EINVAL | EMFILE | EBADF | Done

  // ----- the table as a value: the slots below fInvalidDescriptor, 0 meaning nil -----

  type Slots = seq<nat>

  predicate FreeSlot(slots: Slots, fd: nat) {
    fd >= |slots| || slots[fd] == 0
  }

  /** The first free slot at or after `start`, if the table ran on forever. */
  function LeastFree(slots: Slots, start: nat): (fd: nat)
    ensures start <= fd && FreeSlot(slots, fd) && (start <= |slots| ==> fd <= |slots|)
    ensures forall k :: start <= k < fd ==> !FreeSlot(slots, k)
    decreases |slots| - start
  {
    if FreeSlot(slots, start) then start else LeastFree(slots, start + 1)
  }

  function Padded(slots: Slots, n: nat): (res: Slots)
    ensures |res| == if n > |slots| then n else |slots|
    ensures forall k :: 0 <= k < |res| ==> res[k] == if k < |slots| then slots[k] else 0
  {
    if n > |slots| then slots + seq(n - |slots|, _ => 0) else slots
  }

  function Installed(slots: Slots, sock: nat, start: int): (Slots, Result) {
    if start < 0 || start >= SIZE then (slots, EINVAL)
    else
      var fd := LeastFree(slots, start);
      if fd >= SIZE then (slots, EMFILE)
      else (Padded(slots, fd + 1)[fd := sock], Fd(fd))
  }

  function Removed(slots: Slots, fd: int): (Slots, Result) {
    if fd < 0 || fd >= |slots| || slots[fd] == 0 then (slots, EBADF)
    else (slots[fd := 0], Done)
  }

  /** The descriptor is the least free one from `start` on; EMFILE means there is none. */
  lemma InstallIsLeast(slots: Slots, sock: nat, start: int)
    requires 0 <= start < SIZE && |slots| <= SIZE
    ensures var (res, r) := Installed(slots, sock, start);
      match r
      case Fd(fd) =>
        && start <= fd < SIZE && FreeSlot(slots, fd) && (forall k :: start <= k < fd ==> !FreeSlot(slots, k))
        && |res| <= SIZE && fd < |res| && res[fd] == sock
        && (forall k :: 0 <= k < |res| && k != fd ==> res[k] == if k < |slots| then slots[k] else 0)
      case EMFILE => res == slots && forall k :: start <= k < SIZE ==> !FreeSlot(slots, k)
      case _ => false
  {
  }

  /** A start outside the table is refused, and nothing else is. */
  lemma InstallRefuses(slots: Slots, sock: nat, start: int)
    ensures Installed(slots, sock, start).1.EINVAL? <==> !(0 <= start < SIZE)
    ensures Installed(slots, sock, start).1.EINVAL? ==> Installed(slots, sock, start).0 == slots
  {
  }

  /** Removing succeeds exactly on an occupied slot, and empties it and no other. */
  lemma RemoveExactly(slots: Slots, fd: int)
    ensures var (res, r) := Removed(slots, fd);
      && (r.Done? <==> 0 <= fd < |slots| && slots[fd] != 0) && (!r.Done? ==> r.EBADF? && res == slots)
      && (r.Done? ==> |res| == |slots| && FreeSlot(res, fd)
                      && forall k :: 0 <= k < |slots| && k != fd ==> res[k] == slots[k])
  {
  }

  /** Round trip: what was installed can be removed again, and then the table holds what it held before. */
  lemma RemoveUndoesInstall(slots: Slots, sock: nat, start: int)
    requires |slots| <= SIZE && sock != 0
    ensures var (res, r) := Installed(slots, sock, start);
      r.Fd? ==>
        && Removed(res, r.fd).1.Done?
        && forall k: nat :: var back := Removed(res, r.fd).0;
             FreeSlot(back, k) == FreeSlot(slots, k) && (!FreeSlot(slots, k) ==> back[k] == slots[k])
  {
    if 0 <= start < SIZE { InstallIsLeast(slots, sock, start); }
  }

  // ----- counting references -----

  function Count(slots: Slots, sock: nat): nat {
    if slots == [] then 0 else (if slots[0] == sock then 1 else 0) + Count(slots[1..], sock)
  }

  lemma {:induction false} CountUpdate(slots: Slots, fd: nat, v: nat, sock: nat)
    requires fd < |slots|
    ensures Count(slots[fd := v], sock) ==
            Count(slots, sock) - (if slots[fd] == sock then 1 else 0) + (if v == sock then 1 else 0)
  {
    if fd > 0 {
      assert slots[fd := v][1..] == slots[1..][fd - 1 := v];
      CountUpdate(slots[1..], fd - 1, v, sock);
    } else {
      assert slots[fd := v][1..] == slots[1..];
    }
  }

  lemma {:induction false} CountConcat(a: Slots, b: Slots, sock: nat)
    ensures Count(a + b, sock) == Count(a, sock) + Count(b, sock)
  {
    if a == [] {
      assert a + b == b;
    } else {
      assert (a + b)[1..] == a[1..] + b;
      CountConcat(a[1..], b, sock);
    }
  }

  lemma {:induction false} CountZeros(n: nat, sock: nat)
    requires sock != 0
    ensures Count(seq(n, _ => 0), sock) == 0
  {
    if n > 0 {
      assert seq(n, _ => 0)[1..] == seq(n - 1, _ => 0);
      CountZeros(n - 1, sock);
    }
  }

  lemma InstallCount(slots: Slots, sock: nat, start: int, s: nat)
    requires s != 0 && sock != 0
    ensures var (res, r) := Installed(slots, sock, start);
      Count(res, s) == Count(slots, s) + (if r.Fd? && s == sock then 1 else 0)
  {
    var (res, r) := Installed(slots, sock, start);
    if r.Fd? {
      var fd := r.fd;
      var padded := Padded(slots, fd + 1);
      if fd + 1 > |slots| {
        CountZeros(fd + 1 - |slots|, s);
        CountConcat(slots, seq(fd + 1 - |slots|, _ => 0), s);
      }
      CountUpdate(padded, fd, sock, s);
    }
  }

  lemma RemoveCount(slots: Slots, fd: int, s: nat)
    requires s != 0
    ensures var (res, r) := Removed(slots, fd);
      Count(res, s) == Count(slots, s) - (if r.Done? && slots[fd] == s then 1 else 0)
  {
    var (res, r) := Removed(slots, fd);
    if r.Done? { CountUpdate(slots, fd, 0, s); }
  }

  // ----- runs over any number of tables -----

  /** `refs` is fRefCount; `closed` records the sockets whose close() was called, in order. */
  datatype World = World(tables: seq<Slots>, refs: map<nat, int>, closed: seq<nat>)

  datatype Event = Install(t: nat, sock: nat, start: int) | Remove(t: nat, fd: int) | Copy(t: nat)

  function Refs(w: World, s: nat): int {
    if s in w.refs then w.refs[s] else 0
  }

  function Total(tables: seq<Slots>, s: nat): nat {
    if tables == [] then 0 else Count(tables[0], s) + Total(tables[1..], s)
  }

  /** AddReference for every occupied slot, in the order of the iterator. */
  function Shared(refs: map<nat, int>, slots: Slots): map<nat, int>
    decreases |slots|
  {
    if slots == [] then refs
    else
      var s := slots[0];
      Shared(if s == 0 then refs else refs[s := (if s in refs then refs[s] else 0) + 1], slots[1..])
  }

  function Step(w: World, e: Event): World {
    if e.t >= |w.tables| then w else
      match e
      case Install(t, sock, start) =>
        if sock == 0 then w else
          var (slots, r) := Installed(w.tables[t], sock, start);
          if r.Fd? then w.(tables := w.tables[t := slots], refs := w.refs[sock := Refs(w, sock) + 1])
          else w
      case Remove(t, fd) =>
        var (slots, r) := Removed(w.tables[t], fd);
        if r.Done? then
          var s := w.tables[t][fd];
          var left := Refs(w, s) - 1;
          World(w.tables[t := slots], w.refs[s := left], if left == 0 then w.closed + [s] else w.closed)
        else w
      case Copy(t) => w.(tables := w.tables + [w.tables[t]], refs := Shared(w.refs, w.tables[t]))
  }

  function Exec(w: World, es: seq<Event>): World
    decreases |es|
  {
    if es == [] then w else Exec(Step(w, es[0]), es[1..])
  }

  /** Every socket's reference count is the number of slots that hold it, over all tables. */
  ghost predicate Counted(w: World) {
    forall s :: s != 0 ==> Refs(w, s) == Total(w.tables, s)
  }

  lemma {:induction false} TotalUpdate(tables: seq<Slots>, t: nat, slots: Slots, s: nat)
    requires t < |tables|
    ensures Total(tables[t := slots], s) == Total(tables, s) - Count(tables[t], s) + Count(slots, s)
  {
    if t > 0 {
      assert tables[t := slots][1..] == tables[1..][t - 1 := slots];
      TotalUpdate(tables[1..], t - 1, slots, s);
    } else {
      assert tables[t := slots][1..] == tables[1..];
    }
  }

  lemma {:induction false} TotalAppend(tables: seq<Slots>, slots: Slots, s: nat)
    ensures Total(tables + [slots], s) == Total(tables, s) + Count(slots, s)
  {
    if tables == [] {
      assert tables + [slots] == [slots] && [slots][1..] == [];
    } else {
      assert (tables + [slots])[1..] == tables[1..] + [slots];
      TotalAppend(tables[1..], slots, s);
    }
  }

  lemma {:induction false} SharedCounts(refs: map<nat, int>, slots: Slots, s: nat)
    requires s != 0
    ensures var res := Shared(refs, slots);
      (if s in res then res[s] else 0) == (if s in refs then refs[s] else 0) + Count(slots, s)
    decreases |slots|
  {
    if slots != [] {
      var s0 := slots[0];
      SharedCounts(if s0 == 0 then refs else refs[s0 := (if s0 in refs then refs[s0] else 0) + 1], slots[1..], s);
    }
  }

  lemma StepCounted(w: World, e: Event)
    requires Counted(w)
    ensures Counted(Step(w, e))
  {
    if e.t < |w.tables| {
      var w' := Step(w, e);
      forall s | s != 0 ensures Refs(w', s) == Total(w'.tables, s) {
        match e
        case Install(t, sock, start) =>
          if sock != 0 {
            InstallCount(w.tables[t], sock, start, s);
            TotalUpdate(w.tables, t, Installed(w.tables[t], sock, start).0, s);
          }
        case Remove(t, fd) =>
          RemoveCount(w.tables[t], fd, s);
          TotalUpdate(w.tables, t, Removed(w.tables[t], fd).0, s);
        case Copy(t) =>
          SharedCounts(w.refs, w.tables[t], s);
          TotalAppend(w.tables, w.tables[t], s);
      }
    }
  }

  /** Over every run of installs, removals and table copies the counts stay exact, so they are never
      negative. */
  lemma {:induction false} RefCountsExact(w: World, es: seq<Event>)
    requires Counted(w)
    ensures Counted(Exec(w, es))
    decreases |es|
  {
    if es != [] {
      StepCounted(w, es[0]);
      RefCountsExact(Step(w, es[0]), es[1..]);
    }
  }

  /** A step does to its table what the call does to a table, and nothing to the others. */
  lemma StepExactly(w: World, e: Event)
    requires e.t < |w.tables| && (e.Install? ==> e.sock != 0)
    ensures var w' := Step(w, e); var slots := w.tables[e.t];
      match e
      case Install(t, sock, start) =>
        && w'.tables == w.tables[t := Installed(slots, sock, start).0] && w'.closed == w.closed
        && Refs(w', sock) == Refs(w, sock) + (if Installed(slots, sock, start).1.Fd? then 1 else 0)
      case Remove(t, fd) =>
        && w'.tables == w.tables[t := Removed(slots, fd).0]
        && (Removed(slots, fd).1.Done? ==> Refs(w', slots[fd]) == Refs(w, slots[fd]) - 1)
        && (!Removed(slots, fd).1.Done? ==> w' == w)
      case Copy(t) => w'.tables == w.tables + [slots] && w'.closed == w.closed
  {
    assert w.tables[e.t := w.tables[e.t]] == w.tables;
    if e.Install? { InstallRefuses(w.tables[e.t], e.sock, e.start); }
  }

  /** close() is called in a step exactly if that step empties the last slot holding the socket. */
  lemma ClosedWithLastSlot(w: World, e: Event, s: nat)
    requires Counted(w) && s != 0
    ensures w.closed <= Step(w, e).closed
    ensures s in Step(w, e).closed[|w.closed|..] <==>
            Total(w.tables, s) > 0 && Total(Step(w, e).tables, s) == 0
  {
    StepCounted(w, e);
    var w' := Step(w, e);
    assert Refs(w', s) == Total(w'.tables, s) && Refs(w, s) == Total(w.tables, s);
    if e.t < |w.tables| && e.Copy? {
      SharedCounts(w.refs, w.tables[e.t], s);
    }
    if w'.closed != w.closed {
      assert w'.closed[|w.closed|..] == [w.tables[e.t][e.fd]];
    } else {
      assert w'.closed[|w.closed|..] == [];
    }
  }

  // ----- the table as an object -----

  class Socket {
    const id: nat
    var fRefCount: int
    var closings: nat   // calls of close()

    constructor (n: nat)
      requires n != 0
      ensures id == n && fRefCount == 0 && closings == 0
    {
      id := n;
      fRefCount := 0;
      closings := 0;
    }

    method AddReference()
      modifies this`fRefCount
      ensures fRefCount == old(fRefCount) + 1
    {
      fRefCount := fRefCount + 1;
    }

    method RemoveReference()
      modifies this
      ensures fRefCount == old(fRefCount) - 1
      ensures closings == if fRefCount == 0 then old(closings) + 1 else old(closings)
    {
      fRefCount := fRefCount - 1;
      if fRefCount == 0 {
        closings := closings + 1;
      }
    }
  }

  class DescriptorTable {
    const fSocket: array<Socket?>
    var fInvalidDescriptor: nat

    ghost predicate Valid()
      reads this, fSocket
    {
      && fSocket.Length == SIZE && fInvalidDescriptor <= SIZE
      && (forall s :: s in fSocket[..] && s != null ==> s.id != 0)
    }

    static ghost function Ids(ss: seq<Socket?>): (slots: Slots)
      ensures |slots| == |ss|
      ensures forall i :: 0 <= i < |ss| ==> slots[i] == if ss[i] == null then 0 else ss[i].id
    {
      seq(|ss|, i requires 0 <= i < |ss| => if ss[i] == null then 0 else ss[i].id)
    }

    ghost function View(): Slots
      requires Valid()
      reads this, fSocket
    {
      Ids(fSocket[..fInvalidDescriptor])
    }

    constructor ()
      ensures Valid() && View() == [] && fresh(fSocket)
    {
      fSocket := new Socket?[SIZE](_ => null);
      fInvalidDescriptor := 0;
    }

    method InstallSocket(sock: Socket, start0: int) returns (r: Result)
      requires Valid() && sock.id != 0
      modifies this, fSocket, sock`fRefCount
      ensures Valid() && (View(), r) == Installed(old(View()), sock.id, start0)
      ensures sock.fRefCount == if r.Fd? then old(sock.fRefCount) + 1 else old(sock.fRefCount)
      ensures r.Fd? ==> fSocket[r.fd] == sock
    {
      if start0 < 0 || start0 >= SIZE {
        return EINVAL;
      }
      var start: nat := start0;
      ghost var slots := View();
      while start < fInvalidDescriptor && fSocket[start] != null
        invariant start <= SIZE && LeastFree(slots, start) == LeastFree(slots, start0)
      {
        start := start + 1;
      }
      if start >= fInvalidDescriptor {
        PadTo(start);
        if start < SIZE {
          fInvalidDescriptor := fInvalidDescriptor + 1;
        } else {
          return EMFILE;
        }
      }
      fSocket[start] := sock;
      assert View() == Padded(slots, start + 1)[start := sock.id];
      sock.AddReference();
      return Fd(start);
    }

    /** `while (start > fInvalidDescriptor) fSocket[fInvalidDescriptor++] = nil` */
    method PadTo(start: nat)
      requires Valid() && fInvalidDescriptor <= start <= SIZE
      modifies this, fSocket
      ensures Valid() && fInvalidDescriptor == start && View() == Padded(old(View()), start)
    {
      ghost var slots := View();
      while start > fInvalidDescriptor
        invariant Valid() && |slots| <= fInvalidDescriptor <= start && View() == Padded(slots, fInvalidDescriptor)
      {
        fSocket[fInvalidDescriptor] := null;
        fInvalidDescriptor := fInvalidDescriptor + 1;
      }
    }

    method RemoveSocket(fd: int) returns (r: Result, ghost sock: Socket?)
      requires Valid()
      modifies this, fSocket, set s | s in fSocket[..]
      ensures Valid() && (View(), r) == Removed(old(View()), fd)
      ensures r.Done? <==> 0 <= fd < |old(View())| && old(View())[fd] != 0
      ensures r.Done? <==> sock != null
      ensures r.Done? ==>
                && 0 <= fd < old(fInvalidDescriptor) && sock == old(fSocket[fd]) && sock.fRefCount == old(sock.fRefCount) - 1
                && sock.closings == if sock.fRefCount == 0 then old(sock.closings) + 1 else old(sock.closings)
      ensures forall s :: s in old(fSocket[..]) && s != null && s != sock ==> unchanged(s)
    {
      if fd < 0 || fd >= fInvalidDescriptor || fSocket[fd] == null {
        return EBADF, null;
      }
      var s := fSocket[fd];
      ghost var slots := View();
      fSocket[fd] := null;
      assert View() == slots[fd := 0];
      s.RemoveReference();
      return Done, s;
    }

    /** The copy made for a new process: the slots are shared, each occupied one counted once. */
    constructor Copy(parent: DescriptorTable)
      requires parent.Valid()
      modifies set s | s in parent.fSocket[..] && s != null :: s`fRefCount
      ensures Valid() && View() == old(parent.View()) && fresh(fSocket)
      ensures forall s :: s in parent.fSocket[..] && s != null ==>
                s.fRefCount == old(s.fRefCount) + References(parent.fSocket[..parent.fInvalidDescriptor], s)
    {
      fSocket := new Socket?[SIZE](i requires 0 <= i < SIZE reads parent, parent.fSocket =>
        if parent.fSocket.Length == SIZE && i < parent.fInvalidDescriptor then parent.fSocket[i] else null);
      fInvalidDescriptor := parent.fInvalidDescriptor;
      new;
      CountAll(parent);
    }

    /** The loop over the iterator, which skips empty slots. */
    method CountAll(ghost parent: DescriptorTable)
      requires parent != this && parent.Valid() && fSocket.Length == SIZE
      requires fInvalidDescriptor == parent.fInvalidDescriptor
      requires fSocket[..fInvalidDescriptor] == parent.fSocket[..fInvalidDescriptor]
      modifies set s | s in parent.fSocket[..] && s != null :: s`fRefCount
      ensures forall s :: s in parent.fSocket[..] && s != null ==>
                s.fRefCount == old(s.fRefCount) + References(parent.fSocket[..parent.fInvalidDescriptor], s)
    {
      hide References;
      var i := 0;
      ghost var all := fSocket[..fInvalidDescriptor];
      NoReferences();
      while i != fInvalidDescriptor
        invariant 0 <= i <= fInvalidDescriptor
        invariant forall s :: s in parent.fSocket[..] && s != null ==>
                    s.fRefCount == old(s.fRefCount) + References(all[..i], s)
        decreases fInvalidDescriptor - i
      {
        ReferencesSnoc(all, i);
        var s := fSocket[i];
        assert s == parent.fSocket[..fInvalidDescriptor][i] && s in parent.fSocket[..];
        if s != null {
          s.AddReference();
        }
        i := i + 1;
        while i < fInvalidDescriptor && fSocket[i] == null
          invariant 0 <= i <= fInvalidDescriptor
          invariant forall s :: s in parent.fSocket[..] && s != null ==>
                      s.fRefCount == old(s.fRefCount) + References(all[..i], s)
        {
          ReferencesNull(all, i);
          i := i + 1;
        }
      }
      assert all[..i] == all;
    }
  }

  /** How many entries are this socket. */
  ghost function References(ss: seq<Socket?>, s: Socket): nat {
    if ss == [] then 0 else (if ss[0] == s then 1 else 0) + References(ss[1..], s)
  }

  lemma {:induction false} ReferencesAt(ss: seq<Socket?>, i: nat, s: Socket)
    requires i < |ss|
    ensures References(ss[..i + 1], s) == References(ss[..i], s) + (if ss[i] == s then 1 else 0)
  {
    if i == 0 {
      assert ss[..1] == [ss[0]] && ss[..0] == [];
    } else {
      assert ss[..i + 1][1..] == ss[1..][..i] && ss[..i][1..] == ss[1..][..i - 1];
      ReferencesAt(ss[1..], i - 1, s);
    }
  }

  lemma NoReferences()
    ensures forall s :: References([], s) == 0
  {
  }

  lemma ReferencesNull(ss: seq<Socket?>, i: nat)
    requires i < |ss| && ss[i] == null
    ensures forall s :: References(ss[..i + 1], s) == References(ss[..i], s)
  {
    ReferencesSnoc(ss, i);
  }

  lemma ReferencesSnoc(ss: seq<Socket?>, i: nat)
    requires i < |ss|
    ensures forall s :: References(ss[..i + 1], s) == References(ss[..i], s) + (if ss[i] == s then 1 else 0)
  {
    forall s ensures References(ss[..i + 1], s) == References(ss[..i], s) + (if ss[i] == s then 1 else 0) {
      ReferencesAt(ss, i, s);
    }
  }
}
