/** GUSIFileSpec::FullPath: a path name built from its end towards its beginning in a scratch area that
    grows at the front. */
module Paths {

  datatype Option<T> = None | Some(value: T)

  /** An FSSpec: a name (at most 63 characters) in the directory with ID `parent`. */
  datatype Spec = Spec(name: seq<char>, parent: int)

  /** fsRtParID: the pseudo-parent of volume roots. */
  const ROOT_PARENT := 1

  /** What the File Manager knows: the spec of each directory. */
  type Catalog = map<int, Spec>

  /** `specs` is the way up from `specs[0]`: each entry is the parent directory of the one before, and it
      ends at a volume root or where the catalog has no answer. */
  predicate Ascends(cat: Catalog, specs: seq<Spec>) {
    && |specs| >= 1
    && (forall i :: 0 <= i < |specs| - 1 ==>
          specs[i].parent != ROOT_PARENT && specs[i].parent in cat && cat[specs[i].parent] == specs[i + 1])
    && (forall i :: 0 <= i < |specs| ==> |specs[i].name| <= 63)
  }

  predicate ReachesRoot(specs: seq<Spec>)
    requires |specs| >= 1
  {
    specs[|specs| - 1].parent == ROOT_PARENT
  }

  predicate Stuck(cat: Catalog, specs: seq<Spec>)
    requires |specs| >= 1
  {
    specs[|specs| - 1].parent != ROOT_PARENT && specs[|specs| - 1].parent !in cat
  }

  /** The text for the way up `specs`, with a colon behind it or not. */
  function Text(specs: seq<Spec>, colon: bool): seq<char> {
    if specs == [] then [] else
      Text(specs[1..], specs[0].name != []) + specs[0].name + (if colon then [':'] else [])
  }

  // ----- how much memory that takes -----

  /** The size of the scratch area once `len` characters, the NUL and room for a colon are in it: grown in
      pieces of 64 as often as necessary. */
  function Grown(size: nat, len: nat): (s: nat)
    ensures s >= size && s >= len + 2
    decreases if len + 2 <= size then 0 else len + 2 - size
  {
    if len + 2 <= size then size else Grown(size + 64, len)
  }

  /** Growing for some text first and for more later is growing once. */
  lemma {:induction false} GrownTwice(size: nat, len: nat, more: nat)
    requires len <= more
    ensures Grown(Grown(size, len), more) == Grown(size, more)
    decreases if len + 2 <= size then 0 else len + 2 - size
  {
    if len + 2 > size { GrownTwice(size + 64, len, more); }
  }

  /** Memory is enough for a path of `len` characters: for the first 256 bytes, and for the last extension,
      during which the old area is still allocated. */
  predicate Enough(memory: nat, size: nat, len: nat) {
    var first := if size == 0 then 256 else size;
    var last := Grown(first, len);
    && (size == 0 ==> memory >= 256)
    && (last > first ==> memory + size >= 2 * last - 64)
  }

  // ----- the scratch area -----

  class Scratch {
    var sScratch: array<char>
    var sScratchSize: nat
    var memory: nat          // what NewPtr can still hand out

    ghost predicate Valid()
      reads this
    {
      sScratch.Length == sScratchSize && (sScratchSize == 0 || sScratchSize >= 256)
    }

    constructor (free: nat)
      ensures Valid() && sScratchSize == 0 && memory == free
    {
      sScratch := new char[0];
      sScratchSize := 0;
      memory := free;
    }

    /** CScratch(extend): false when NewPtr fails.  Extension keeps the old area at the end of the new. */
    method CScratch(extend: bool) returns (ok: bool)
      requires Valid() && (extend ==> sScratchSize > 0)
      modifies this
      ensures Valid() && (sScratch == old(sScratch) || fresh(sScratch))
      ensures extend && ok ==> sScratchSize == old(sScratchSize) + 64 && sScratch[64..] == old(sScratch[..])
      ensures !ok <==> old(memory) < (if extend then old(sScratchSize) + 64 else if old(sScratchSize) == 0 then 256 else 0)
      ensures !ok ==> sScratch == old(sScratch) && unchanged(this)
      ensures !extend && ok ==> sScratchSize == if old(sScratchSize) == 0 then 256 else old(sScratchSize)
      ensures !extend && old(sScratchSize) != 0 ==> unchanged(this)
      ensures memory + sScratchSize == old(memory + sScratchSize)
    {
      if extend {
        if memory < sScratchSize + 64 {
          return false;
        }
        var newScratch := new char[sScratchSize + 64];
        forall i | 0 <= i < sScratchSize {
          newScratch[i + 64] := sScratch[i];
        }
        assert newScratch[64..] == sScratch[..];
        memory := memory - (sScratchSize + 64);
        memory := memory + sScratchSize;
        sScratchSize := sScratchSize + 64;
        sScratch := newScratch;
        ok := true;
      } else if sScratchSize == 0 {
        if memory >= 256 {
          sScratch := new char[256];
          sScratchSize := 256;
          memory := memory - 256;
        }
        ok := sScratchSize != 0;
      } else {
        ok := true;
      }
    }

    /** The text accumulated from `path` to the end of the scratch area. */
    ghost function Tail(path: nat): seq<char>
      requires Valid() && path <= sScratchSize
      reads this, sScratch
    {
      sScratch[path..]
    }

    /** Does the component not fit in front of `path`? */
    static predicate Tight(path: nat, size: nat) {
      path < size + 1
    }

    /** Write a component (and a colon behind it) in front of `path`.  One extension is always enough,
        and there is always room for the colon of the next component; it fails exactly if an extension is
        needed and there is no memory for it. */
    method PrependPathComponent(path: nat, component: seq<char>, colon: bool) returns (res: nat, ok: bool)
      requires Valid() && 1 <= path < sScratchSize && |component| <= 63
      modifies this, sScratch
      ensures Valid() && (sScratch == old(sScratch) || fresh(sScratch))
      ensures memory + sScratchSize == old(memory + sScratchSize)
      ensures var tight := Tight(if colon then path - 1 else path, |component|);
        && (ok <==> tight ==> old(memory) >= old(sScratchSize) + 64)
        && sScratchSize == old(sScratchSize) + if tight && ok then 64 else 0
      ensures ok ==> 1 <= res < sScratchSize
      ensures ok ==> Tail(res) == component + (if colon then [':'] else []) + old(Tail(path))
    {
      hide Tail;
      res := path;
      ghost var text := Tail(path);
      if colon {
        res := res - 1;
        PutColon(res);
        text := [':'] + text;
      }
      res, ok := MakeRoom(res, |component|);
      if ok {
        res := res - |component|;
        CopyName(res, component);
        assert component + text == component + (if colon then [':'] else []) + old(Tail(path));
      }
    }

    /** `*--path = ':'` */
    method PutColon(at: nat)
      requires Valid() && at < sScratchSize
      modifies sScratch
      ensures Tail(at) == [':'] + old(Tail(at + 1))
    {
      sScratch[at] := ':';
    }

    /** Extend the scratch area if the component does not fit. */
    method MakeRoom(path: nat, size: nat) returns (res: nat, ok: bool)
      requires Valid() && path < sScratchSize && size <= 63
      modifies this
      ensures Valid() && (sScratch == old(sScratch) || fresh(sScratch))
      ensures memory + sScratchSize == old(memory + sScratchSize)
      ensures ok <==> Tight(path, size) ==> old(memory) >= old(sScratchSize) + 64
      ensures sScratchSize == old(sScratchSize) + if Tight(path, size) && ok then 64 else 0
      ensures ok ==> size + 1 <= res < sScratchSize && Tail(res) == old(Tail(path))
    {
      res := path;
      ok := true;
      if res < size + 1 {
        var length := sScratchSize - res;
        ok := CScratch(true);
        if ok {
          res := sScratchSize - length;
          assert Tail(res) == sScratch[64..][path..];
        }
      }
    }

    /** memcpy into the scratch area. */
    method CopyName(at: nat, name: seq<char>)
      requires Valid() && at + |name| <= sScratchSize
      modifies sScratch
      ensures Tail(at) == name + old(Tail(at + |name|))
    {
      ghost var was := Tail(at + |name|);
      forall i | 0 <= i < |name| {
        sScratch[at + i] := name[i];
      }
      assert Tail(at)[..|name|] == name && Tail(at)[|name|..] == was;
    }

    /** FullPath: the path name, terminated by NUL, at the returned offset.  It fails exactly if the catalog
        lookup fails on the way up or the memory at hand is not enough for the text. */
    method FullPath(cat: Catalog, spec: Spec, isDirectory: bool, ghost specs: seq<Spec>) returns (res: Option<nat>)
      requires Valid() && Ascends(cat, specs) && specs[0] == spec && (ReachesRoot(specs) || Stuck(cat, specs))
      modifies this, sScratch
      ensures Valid() && memory + sScratchSize == old(memory + sScratchSize)
      ensures var text := Text(specs, isDirectory);
        && (res.Some? <==> ReachesRoot(specs) && Enough(old(memory), old(sScratchSize), |text|))
        && (res.Some? ==> res.value <= sScratchSize && Tail(res.value) == text + ['\0'])
    {
      hide Text, Tail, Grown, Ledger;
      var ok := CScratch(false);
      var current := spec;
      var directory := isDirectory;
      if !ok {
        return None;
      }
      ghost var first, total := sScratchSize, memory + sScratchSize;
      var path := sScratchSize - 1;
      PutEnd();
      ghost var i := 0;
      ghost var text := Text(specs, isDirectory);
      assert specs[0..] == specs;
      while true
        invariant Valid() && (sScratch == old(sScratch) || fresh(sScratch))
        invariant 0 <= i < |specs| && current == specs[i] && 1 <= path < sScratchSize
        invariant Text(specs[i..], directory) + Tail(path) == text + ['\0']
        invariant Ledger(first, path, total) && memory + sScratchSize == total
        decreases |specs| - i
      {
        TextStep(specs, i, directory);
        ghost var rest := Text(specs[i + 1..], current.name != []);
        path, ok := AddComponent(path, current.name, directory, first, total, rest, text);
        if !ok {
          return None;
        }
        directory := current.name != [];
        if current.parent == ROOT_PARENT {
          assert i == |specs| - 1;
          NothingLeft(specs, i, directory, path, text);
          SizesWhenDone(first, path, total, text);
          return Some(path);
        }
        if current.parent !in cat {
          assert i == |specs| - 1;
          return None;
        }
        current := cat[current.parent];
        i := i + 1;
      }
    }

    method PutEnd()
      requires Valid() && sScratchSize >= 256
      modifies sScratch
      ensures Tail(sScratchSize - 1) == ['\0']
      ensures Ledger(sScratchSize, sScratchSize - 1, memory + sScratchSize)
    {
      sScratch[sScratchSize - 1] := '\0';
    }

    /** One round of FullPath: `rest` is the text still to come. */
    method AddComponent(path: nat, component: seq<char>, colon: bool, ghost first: nat, ghost total: nat,
                        ghost rest: seq<char>, ghost text: seq<char>) returns (res: nat, ok: bool)
      requires Valid() && 1 <= path < sScratchSize && |component| <= 63 && Ledger(first, path, total)
      requires (rest + component + (if colon then [':'] else [])) + Tail(path) == text + ['\0']
      modifies this, sScratch
      ensures Valid() && (sScratch == old(sScratch) || fresh(sScratch)) && memory + sScratchSize == total
      ensures ok ==> 1 <= res < sScratchSize && rest + Tail(res) == text + ['\0'] && Ledger(first, res, total)
      ensures !ok ==> Grown(first, |text|) > first && total < 2 * Grown(first, |text|) - 64
    {
      hide Grown;
      ghost var part := component + if colon then [':'] else [];
      Joins(rest, component, if colon then [':'] else [], Tail(path));
      Spent(first, path, |part|, |text|, total);
      res, ok := PrependPathComponent(path, component, colon);
    }

    static lemma TextStep(specs: seq<Spec>, i: nat, colon: bool)
      requires i < |specs|
      ensures Text(specs[i..], colon) ==
              Text(specs[i + 1..], specs[i].name != []) + specs[i].name + (if colon then [':'] else [])
    {
      assert specs[i..][1..] == specs[i + 1..];
    }

    lemma NothingLeft(specs: seq<Spec>, i: nat, colon: bool, path: nat, text: seq<char>)
      requires Valid() && path <= sScratchSize && i + 1 == |specs|
      requires Text(specs[i + 1..], colon) + Tail(path) == text + ['\0']
      ensures Tail(path) == text + ['\0']
    {
      assert specs[i + 1..] == [];
      assert [] + Tail(path) == Tail(path);
    }

    lemma SizesWhenDone(first: nat, path: nat, total: nat, text: seq<char>)
      requires Valid() && Ledger(first, path, total) && Tail(path) == text + ['\0']
      ensures Grown(first, |text|) == sScratchSize
      ensures sScratchSize > first ==> total >= 2 * sScratchSize - 64
    {
      assert |Tail(path)| == |text| + 1;
    }

    /** The loop invariant of FullPath on sizes: the area is as large as the text so far requires. */
    ghost predicate Ledger(first: nat, path: nat, total: nat)
      reads this
    {
      && memory + sScratchSize == total && first >= 256 && path < sScratchSize
      && sScratchSize == Grown(first, sScratchSize - path - 1)
      && (sScratchSize > first ==> total >= 2 * sScratchSize - 64)
    }

    /** The next component of a path of `whole` characters: what an extension for it means for the sizes. */
    lemma Spent(first: nat, path: nat, n: nat, whole: nat, total: nat)
      requires Ledger(first, path, total) && n <= 64 && (sScratchSize - path - 1) + n <= whole
      ensures var len := sScratchSize - path - 1 + n;
        Grown(first, len) == if path < n + 1 then sScratchSize + 64 else sScratchSize
      ensures path < n + 1 ==> Grown(first, whole) >= sScratchSize + 64
      ensures Grown(first, whole) >= sScratchSize
    {
      var len := sScratchSize - path - 1;
      GrownTwice(first, len, len + n);
      GrownTwice(first, len, whole);
      GrownTwice(first, len + n, whole);
    }

    static lemma Joins(a: seq<char>, b: seq<char>, c: seq<char>, d: seq<char>)
      ensures (a + b + c) + d == a + (b + c + d)
    {
    }
  }

  // ----- the text is the colon-joined path -----

  /** The names from the root down to the leaf, without the empty ones. */
  function Components(specs: seq<Spec>): seq<seq<char>> {
    if specs == [] then [] else Components(specs[1..]) + if specs[0].name == [] then [] else [specs[0].name]
  }

  /** Components separated by colons. */
  function Joined(names: seq<seq<char>>): seq<char> {
    if |names| == 0 then []
    else if |names| == 1 then names[0]
    else names[0] + [':'] + Joined(names[1..])
  }

  lemma {:induction false} JoinedSnoc(names: seq<seq<char>>, last: seq<char>)
    requires |names| >= 1
    ensures Joined(names + [last]) == Joined(names) + [':'] + last
  {
    if |names| == 1 {
      assert (names + [last])[1..] == [last];
    } else {
      assert (names + [last])[1..] == names[1..] + [last];
      JoinedSnoc(names[1..], last);
    }
  }

  /** FullPath yields the names from root to leaf joined by colons, empty ones below the volume left out, and
      a final colon exactly for a directory. */
  lemma {:induction false} TextIsJoined(specs: seq<Spec>, colon: bool)
    requires |specs| >= 1 && specs[|specs| - 1].name != []
    ensures |Components(specs)| >= 1
    ensures Text(specs, colon) == Joined(Components(specs)) + (if colon then [':'] else [])
  {
    if |specs| > 1 {
      var name := specs[0].name;
      TextIsJoined(specs[1..], name != []);
      var up := Components(specs[1..]);
      if name == [] {
        assert up + [] == up && Text(specs[1..], false) + [] == Text(specs[1..], false);
      } else {
        JoinedSnoc(up, name);
      }
    } else {
      assert specs[1..] == [];
    }
  }
}
