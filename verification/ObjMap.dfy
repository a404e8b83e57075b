/** The object map of a connection: `ObjMap` of crates/arti-rpcserver/src/objmap.rs and
    objmap/weakrefs.rs, built with weak references.

    Whether a weakly held object is still alive is decided elsewhere, so `alive` is an argument of
    every operation that asks. */
module ObjMap {
  import opened Wrappers
  import opened SlotMap
  import opened GenIdx

  /** An object, named by its address and type (`TaggedAddr`).  A reference in the map keeps the
      address from being reused. */
  datatype Obj = Obj(addr: nat, typeId: nat)

  datatype Objects = Objects(strong: Careful<Obj>, weak: Careful<Obj>, reverse: map<Obj, Key>)

  function NoObjects(): Objects {
    Objects(Empty(), Empty(), map[])
  }

  /** The two invariants stated in the source: the weak arena and the reverse map are inverse to each
      other, so no object is in the weak arena twice. */
  ghost predicate Mirrored(m: Objects) {
    && (forall k | Get(m.weak, k).Some? ::
          Get(m.weak, k).value in m.reverse && m.reverse[Get(m.weak, k).value] == k)
    && (forall o | o in m.reverse :: Get(m.weak, m.reverse[o]) == Some(o))
  }

  ghost predicate ValidObjects(m: Objects) {
    Valid(m.strong) && Valid(m.weak) && Mirrored(m)
  }

  function Lookup(m: Objects, i: GenIdx, alive: set<Obj>): Option<Obj> {
    match i
    case Strong(k) => Get(m.strong, k)
    case Weak(k) =>
      match Get(m.weak, k)
      case Some(o) => if o in alive then Some(o) else None
      case None => None
  }

  function WithStrong(m: Objects, o: Obj, free: Option<nat>): Objects
    requires CanTake(m.strong.base, free)
  {
    m.(strong := Insert(m.strong, o, free))
  }

  function Without(m: Objects, i: GenIdx): Objects {
    match i
    case Strong(k) => m.(strong := Remove(m.strong, k))
    case Weak(k) =>
      match Get(m.weak, k)
      case Some(o) => m.(weak := Remove(m.weak, k), reverse := m.reverse - {o})
      case None => m
  }

  /** Removing an index keeps the map valid, and of all indices only that one loses its object. */
  lemma WithoutDropsOne(m: Objects, i: GenIdx)
    requires ValidObjects(m)
    ensures ValidObjects(Without(m, i))
    ensures forall j, alive :: Lookup(Without(m, i), j, alive) == if j == i then None else Lookup(m, j, alive)
  {
    match i
    case Strong(k) => RemoveRetires(m.strong, k);
    case Weak(k) =>
      if Get(m.weak, k).Some? {
        RemoveRetires(m.weak, k);
      }
  }

  lemma WithStrongAddsOne(m: Objects, o: Obj, free: Option<nat>)
    requires ValidObjects(m) && CanTake(m.strong.base, free)
    ensures var m', k := WithStrong(m, o, free), FreshKey(m.strong.base, free);
            && ValidObjects(m') && IsKey(k) && Get(m.strong, k).None? && !Retired(m.strong, k)
            && (forall j, alive :: Lookup(m', j, alive) == if j == Strong(k) then Some(o) else Lookup(m, j, alive))
  {
    InsertAddsOne(m.strong, o, free);
  }

  function WithWeak(m: Objects, o: Obj, free: Option<nat>): Objects
    requires CanTake(m.weak.base, free)
  {
    m.(weak := Insert(m.weak, o, free), reverse := m.reverse[o := FreshKey(m.weak.base, free)])
  }

  /** Adding an object weakly that was not there changes what one index finds. */
  lemma WithWeakAddsOne(m: Objects, o: Obj, free: Option<nat>, alive: set<Obj>)
    requires ValidObjects(m) && CanTake(m.weak.base, free) && o !in m.reverse && o in alive
    ensures var m', i := WithWeak(m, o, free), Weak(FreshKey(m.weak.base, free));
            && ValidObjects(m')
            && (forall j :: Lookup(m', j, alive) == if j == i then Some(o) else Lookup(m, j, alive))
  {
    InsertAddsOne(m.weak, o, free);
  }

  ghost predicate IsDead(w: Careful<Obj>, k: Key, alive: set<Obj>) {
    Get(w, k).Some? && Get(w, k).value !in alive
  }

  /** `w` is `w0` without the dead entries of its first `i` slots. */
  ghost predicate Swept(w0: Careful<Obj>, w: Careful<Obj>, i: nat, alive: set<Obj>) {
    && |w.base| == |w0.base|
    && (forall k :: Get(w, k) == if k.index < i && IsDead(w0, k, alive) then None else Get(w0, k))
  }

  lemma SweepSlot(w0: Careful<Obj>, m: Objects, i: nat, alive: set<Obj>)
    requires ValidObjects(m) && i < |m.weak.base| && Swept(w0, m.weak, i, alive)
    ensures var k := Key(i, m.weak.base[i].version);
            var m' := if IsDead(m.weak, k, alive) then Without(m, Weak(k)) else m;
            ValidObjects(m') && Swept(w0, m'.weak, i + 1, alive)
  {
    var k := Key(i, m.weak.base[i].version);
    if IsDead(m.weak, k, alive) {
      WithoutDropsOne(m, Weak(k));
      RemoveRetires(m.weak, k);
    }
  }

  /** The map as the code keeps it. */
  class Map {
    var strong: Careful<Obj>
    var weak: Careful<Obj>
    var reverse: map<Obj, Key>

    ghost function Contents(): Objects
      reads this
    {
      Objects(strong, weak, reverse)
    }

    constructor ()
      ensures Contents() == NoObjects() && ValidObjects(Contents())
    {
      strong := Empty();
      weak := Empty();
      reverse := map[];
    }

    method AddStrong(o: Obj, free: Option<nat>) returns (i: GenIdx)
      requires ValidObjects(Contents()) && CanTake(strong.base, free)
      modifies this
      ensures ValidObjects(Contents())
      ensures i == Strong(FreshKey(old(strong).base, free)) && Contents() == WithStrong(old(Contents()), o, free)
    {
      WithStrongAddsOne(Contents(), o, free);
      i := Strong(FreshKey(strong.base, free));
      strong := Insert(strong, o, free);
    }

    /** Returns the removed object, unless it was weakly held and is gone.  The entry that leaves the
        reverse map is the one of the index removed, as the code asserts. */
    method Delete(i: GenIdx, alive: set<Obj>) returns (r: Option<Obj>)
      requires ValidObjects(Contents())
      modifies this
      ensures ValidObjects(Contents())
      ensures Contents() == Without(old(Contents()), i)
      ensures r == Lookup(old(Contents()), i, alive)
    {
      WithoutDropsOne(Contents(), i);
      match i {
        case Strong(k) =>
          r := Get(strong, k);
          strong := Remove(strong, k);
        case Weak(k) =>
          match Get(weak, k) {
            case Some(o) =>
              assert o in reverse && reverse[o] == k;
              weak := Remove(weak, k);
              reverse := reverse - {o};
              r := if o in alive then Some(o) else None;
            case None =>
              r := None;
          }
      }
    }

    /** Drops every dead entry of the weak arena, and nothing else.  `retain` visits the slots in
        order. */
    method Tidy(alive: set<Obj>)
      requires ValidObjects(Contents())
      modifies this
      ensures ValidObjects(Contents()) && strong == old(strong)
      ensures |weak.base| == |old(weak).base|
      ensures forall k :: Get(weak, k) == if IsDead(old(weak), k, alive) then None else Get(old(weak), k)
    {
      for i := 0 to |weak.base|
        invariant strong == old(strong) && ValidObjects(Contents())
        invariant Swept(old(weak), weak, i, alive)
      {
        var k := Key(i, weak.base[i].version);
        SweepSlot(old(weak), Contents(), i, alive);
        match Get(weak, k) {
          case Some(o) =>
            if o !in alive {
              weak := Remove(weak, k);
              reverse := reverse - {o};
            }
          case None =>
        }
      }
    }

    /** Returns the index of `o` in the weak arena, adding it if it is not there.  `full` says that the
        arena is about to grow, which is when dead entries are dropped first; `reuse` is the slot to
        take if it is free by then.  None stands for the panic of an arena that has no index left. */
    method AddWeak(o: Obj, reuse: Option<nat>, full: bool, alive: set<Obj>) returns (i: Option<GenIdx>)
      requires ValidObjects(Contents()) && o in alive
      modifies this
      ensures ValidObjects(Contents()) && strong == old(strong)
      ensures i.Some? ==> i.value.Weak?
      ensures forall j :: Lookup(Contents(), j, alive) == if i == Some(j) then Some(o) else Lookup(old(Contents()), j, alive)
      ensures o in old(reverse) ==> i == Some(Weak(old(reverse)[o])) && Contents() == old(Contents())
      ensures i.None? ==> o !in old(reverse) && |weak.base| >= WORD - 1 && !CanTake(weak.base, reuse)
    {
      if o in reverse {
        return Some(Weak(reverse[o]));
      }
      if full {
        Tidy(alive);
      }
      var free := if CanTake(weak.base, reuse) then reuse else None;
      if !CanTake(weak.base, free) {
        return None;
      }
      WithWeakAddsOne(Contents(), o, free, alive);
      var k := FreshKey(weak.base, free);
      weak := Insert(weak, o, free);
      reverse := reverse[o := k];
      i := Some(Weak(k));
    }
  }
}
