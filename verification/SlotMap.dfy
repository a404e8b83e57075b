/** The generational arena behind object ids: `SlotMap` of crates/slotmap-careful/src/lib.rs.

    It wraps the `slotmap` crate's map, of which it relies on what its own documentation lists: slot
    versions are 32-bit words that start at 0, are odd exactly while the slot is full, and grow by
    one, wrapping around, each time the slot is filled or emptied.  Which free slot an insertion
    takes is the `slotmap` crate's business, so it is an argument here. */
module SlotMap {
  import opened Wrappers

  const WORD := 0x1_0000_0000

  /** The largest version, without the "full" bit, that a key may reach. */
  const SATURATE_AT_VERSION := 0x7fff_fffe

  /** A slot index and the version the slot had when it was filled. */
  datatype Key = Key(index: nat, version: nat)

  datatype Entry<V> = Present(value: V) | Unusable

  datatype Slot<V> = Slot(version: nat, content: Option<Entry<V>>)

  /** The wrapped map; slot 0 is never used. */
  type Base<V> = seq<Slot<V>>

  // ---------------------------------------------------------------------------------------------
  // The wrapped map
  // ---------------------------------------------------------------------------------------------

  function BaseGet<V>(b: Base<V>, k: Key): Option<Entry<V>> {
    if k.index < |b| && b[k.index].version == k.version then b[k.index].content else None
  }

  /** `free` is the free slot to use, or None to grow the map. */
  predicate CanTake<V>(b: Base<V>, free: Option<nat>) {
    match free
    case Some(i) => 0 < i < |b| && b[i].version % 2 == 0
    case None => 0 < |b| < WORD - 1
  }

  function FreshKey<V>(b: Base<V>, free: Option<nat>): Key
    requires CanTake(b, free)
  {
    match free
    case Some(i) => Key(i, b[i].version + 1)
    case None => Key(|b|, 1)
  }

  function BaseInsert<V>(b: Base<V>, e: Entry<V>, free: Option<nat>): Base<V>
    requires CanTake(b, free)
  {
    var slot := Slot(FreshKey(b, free).version, Some(e));
    match free
    case Some(i) => b[i := slot]
    case None => b + [slot]
  }

  function BaseRemove<V>(b: Base<V>, k: Key): Base<V> {
    if BaseGet(b, k).None? then b else b[k.index := Slot((k.version + 1) % WORD, None)]
  }

  // ---------------------------------------------------------------------------------------------
  // The careful map
  // ---------------------------------------------------------------------------------------------

  datatype Careful<V> = Careful(base: Base<V>, unusable: nat)

  function Empty<V>(): Careful<V> {
    Careful([Slot(0, None)], 0)
  }

  predicate IsMaximal(k: Key) {
    k.version / 2 == SATURATE_AT_VERSION
  }

  function Get<V>(c: Careful<V>, k: Key): Option<V> {
    match BaseGet(c.base, k)
    case Some(Present(v)) => Some(v)
    case _ => None
  }

  function Insert<V>(c: Careful<V>, v: V, free: Option<nat>): Careful<V>
    requires CanTake(c.base, free)
  {
    c.(base := BaseInsert(c.base, Present(v), free))
  }

  /** A key that has reached the largest version is not removed: its slot is marked unusable. */
  function Remove<V>(c: Careful<V>, k: Key): Careful<V> {
    if !IsMaximal(k) then c.(base := BaseRemove(c.base, k))
    else if Get(c, k).Some? then
      Careful(c.base[k.index := Slot(k.version, Some(Unusable))], c.unusable + 1)
    else c
  }

  ghost function CountUnusable<V>(b: Base<V>): nat {
    if b == [] then 0
    else CountUnusable(b[..|b| - 1]) + if b[|b| - 1].content == Some(Unusable) then 1 else 0
  }

  ghost predicate SlotFits<V>(s: Slot<V>) {
    && s.version / 2 <= SATURATE_AT_VERSION
    && (s.content.Some? <==> s.version % 2 == 1)
    && (s.content == Some(Unusable) ==> s.version / 2 == SATURATE_AT_VERSION)
  }

  /** The invariants the source states: every key that is present has an allowed version, an
      unusable entry sits at the largest version, and `n_unusable` counts those entries. */
  ghost predicate Valid<V>(c: Careful<V>) {
    && 0 < |c.base| < WORD && c.base[0] == Slot(0, None)
    && (forall i | 0 <= i < |c.base| :: SlotFits(c.base[i]))
    && c.unusable == CountUnusable(c.base)
  }

  /** `k` was given out, and its entry is gone for good. */
  ghost predicate Retired<V>(c: Careful<V>, k: Key) {
    && k.index < |c.base|
    && var s := c.base[k.index];
       k.version < s.version || (k.version == s.version && s.content == Some(Unusable))
  }

  lemma {:induction false} CountAfterUpdate<V>(b: Base<V>, i: nat, s: Slot<V>)
    requires i < |b| && b[i].content != Some(Unusable)
    ensures CountUnusable(b[i := s]) == CountUnusable(b) + if s.content == Some(Unusable) then 1 else 0
  {
    var n := |b| - 1;
    var b' := b[i := s];
    if i < n {
      CountAfterUpdate(b[..n], i, s);
      assert b'[..n] == b[..n][i := s];
    } else {
      assert b'[..n] == b[..n];
    }
  }

  /** Inserting keeps the invariants and adds exactly one binding, under a key that is not in use and
      was never used before. */
  lemma InsertAddsOne<V>(c: Careful<V>, v: V, free: Option<nat>)
    requires Valid(c) && CanTake(c.base, free)
    ensures var c', k := Insert(c, v, free), FreshKey(c.base, free);
            && Valid(c')
            && Get(c, k).None? && !Retired(c, k)
            && k.version % 2 == 1 && k.version < WORD
            && (forall x :: Get(c', x) == if x == k then Some(v) else Get(c, x))
            && (forall x :: Retired(c, x) ==> Retired(c', x))
  {
    var c' := Insert(c, v, free);
    match free
    case Some(i) =>
      assert SlotFits(c.base[i]);
      CountAfterUpdate(c.base, i, c'.base[i]);
    case None =>
      assert c'.base[..|c.base|] == c.base;
  }

  lemma RemoveKeepsValid<V>(c: Careful<V>, k: Key)
    requires Valid(c)
    ensures Valid(Remove(c, k))
  {
    if BaseGet(c.base, k).Some? {
      assert SlotFits(c.base[k.index]);
      if Get(c, k).Some? {
        CountAfterUpdate(c.base, k.index, Remove(c, k).base[k.index]);
      }
    }
  }

  /** Removing keeps the invariants, removes exactly one binding if there is one, and retires its
      key.  The slot's version never wraps around. */
  lemma RemoveRetires<V>(c: Careful<V>, k: Key)
    requires Valid(c)
    ensures var c' := Remove(c, k);
            && Valid(c')
            && (forall x :: Get(c', x) == if x == k then None else Get(c, x))
            && (forall x :: Retired(c, x) ==> Retired(c', x))
            && (Get(c, k).Some? ==> Retired(c', k))
  {
    RemoveKeepsValid(c, k);
    if BaseGet(c.base, k).Some? {
      assert SlotFits(c.base[k.index]);
    }
  }

  /** The key of a slot that may not be used again is the one with the largest version that is given out:
      0x7fff_fffe, with the bit of a full slot. */
  lemma RemoveAtLimit<V>(c: Careful<V>, k: Key)
    requires Valid(c) && Get(c, k).Some?
    ensures k.version <= 0xffff_fffd
    ensures Remove(c, k).base[k.index].content == Some(Unusable) <==> k.version == 0xffff_fffd
    ensures k.version < 0xffff_fffd ==> Remove(c, k).base[k.index] == Slot(k.version + 1, None)
  {
    assert SlotFits(c.base[k.index]);
  }

  /** Why the careful map exists: in the wrapped map, emptying and refilling a slot whose version is
      the largest word gives out the first key of that slot again. */
  lemma WrappedMapReissues<V>(b: Base<V>, i: nat, e: Entry<V>)
    requires 0 < i < |b| && b[i].version == WORD - 1 && b[i].content.Some?
    ensures var b' := BaseRemove(b, Key(i, WORD - 1));
            CanTake(b', Some(i)) && FreshKey(b', Some(i)) == Key(i, 1)
  {
    assert BaseGet(b, Key(i, WORD - 1)).Some?;
  }

  // ---------------------------------------------------------------------------------------------
  // Runs
  // ---------------------------------------------------------------------------------------------

  datatype Op<V> = DoInsert(value: V, free: Option<nat>) | DoRemove(key: Key)

  ghost predicate Step<V>(c: Careful<V>, op: Op<V>, c': Careful<V>) {
    match op
    case DoInsert(v, free) => CanTake(c.base, free) && c' == Insert(c, v, free)
    case DoRemove(k) => c' == Remove(c, k)
  }

  ghost predicate Run<V>(cs: seq<Careful<V>>, ops: seq<Op<V>>) {
    && |cs| == |ops| + 1 && cs[0] == Empty<V>()
    && (forall i | 0 <= i < |ops| :: Step(cs[i], ops[i], cs[i + 1]))
  }

  lemma {:induction false} RunKeepsValid<V>(cs: seq<Careful<V>>, ops: seq<Op<V>>, i: nat)
    requires Run(cs, ops) && i <= |ops|
    ensures Valid(cs[i])
  {
    if i > 0 {
      RunKeepsValid(cs, ops, i - 1);
      assert Step(cs[i - 1], ops[i - 1], cs[i]);
      match ops[i - 1]
      case DoInsert(v, free) => InsertAddsOne(cs[i - 1], v, free);
      case DoRemove(k) => RemoveRetires(cs[i - 1], k);
    }
  }

  /** What one step does to a key that has been given out. */
  lemma StepOnKey<V>(c: Careful<V>, op: Op<V>, c': Careful<V>, k: Key)
    requires Valid(c) && Step(c, op, c')
    ensures Retired(c, k) && Get(c, k).None? ==> Retired(c', k) && Get(c', k).None?
    ensures Get(c, k).Some? ==> if op == DoRemove(k) then Retired(c', k) && Get(c', k).None? else Get(c', k) == Get(c, k)
  {
    match op
    case DoInsert(v, free) => InsertAddsOne(c, v, free);
    case DoRemove(x) => RemoveRetires(c, x);
  }

  /** From the insertion that gave out a key on, the key finds the inserted value until it is removed
      and nothing ever after. */
  lemma {:induction false} KeyLife<V>(cs: seq<Careful<V>>, ops: seq<Op<V>>, i: nat, j: nat)
    requires Run(cs, ops) && i < j <= |ops| && ops[i].DoInsert?
    ensures CanTake(cs[i].base, ops[i].free)
    ensures var k := FreshKey(cs[i].base, ops[i].free);
            if exists r :: i < r < j && ops[r] == DoRemove(k) then Retired(cs[j], k) && Get(cs[j], k) == None
            else Get(cs[j], k) == Some(ops[i].value)
  {
    RunKeepsValid(cs, ops, j - 1);
    assert Step(cs[i], ops[i], cs[i + 1]) && Step(cs[j - 1], ops[j - 1], cs[j]);
    if j == i + 1 {
      InsertAddsOne(cs[i], ops[i].value, ops[i].free);
    } else {
      KeyLife(cs, ops, i, j - 1);
      StepOnKey(cs[j - 1], ops[j - 1], cs[j], FreshKey(cs[i].base, ops[i].free));
    }
  }

  /** No run gives out the same key twice. */
  lemma NeverReissued<V>(cs: seq<Careful<V>>, ops: seq<Op<V>>, i: nat, j: nat)
    requires Run(cs, ops) && i < j < |ops| && ops[i].DoInsert? && ops[j].DoInsert?
    ensures CanTake(cs[i].base, ops[i].free) && CanTake(cs[j].base, ops[j].free)
    ensures FreshKey(cs[i].base, ops[i].free) != FreshKey(cs[j].base, ops[j].free)
  {
    KeyLife(cs, ops, i, j);
    RunKeepsValid(cs, ops, j);
    assert Step(cs[i], ops[i], cs[i + 1]) && Step(cs[j], ops[j], cs[j + 1]);
    InsertAddsOne(cs[j], ops[j].value, ops[j].free);
  }
}
