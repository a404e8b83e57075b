/** Objects seen through the string ids a client uses: the object half of
    crates/arti-rpcserver/src/connection.rs, and the lookups of crates/arti-rpcserver/src/mgr.rs.

    Ids are ASCII strings here; every other string decodes to nothing.  Random words and free slots
    are arguments. */
module Objects {
  import opened Wrappers
  import opened Bytes
  import opened SlotMap
  import opened GenIdx
  import opened ObjMap
  import opened GlobalIds
  import Index = GenIdx
  import Base64

  const CONNECTION_OBJ_ID := "connection"

  datatype LookupError = NoObject(id: string) | WrongType(id: string)

  datatype Target = TheConnection | AnObject(obj: Obj)

  /** The object-related state of a connection; `self` tells whether "connection" still names it. */
  datatype Conn = Conn(id: ConnectionId, objects: ObjMap.Objects, self: bool)

  function NewConn(id: ConnectionId): Conn {
    Conn(id, NoObjects(), true)
  }

  function EncodeLocal(i: GenIdx, r: nat): (s: string)
    ensures |s| == 22
  {
    Base64.Encode(Base64.UrlSafe, ToBytes(i, r))
  }

  function DecodeLocal(s: string): Option<GenIdx> {
    match Base64.Decode(Base64.UrlSafe, s)
    case None => None
    case Some(b) => FromBytes(b)
  }

  /** `id_into_local_idx`, which tells the two kinds of id apart by their length. */
  function ToLocalIdx(me: ConnectionId, key: MacKey, id: string): Result<GenIdx, LookupError> {
    if |id| == B64_ENCODED_LEN then
      match TryDecode(key, id)
      case Some(g) => if g.connection == me then Ok(g.localId) else Err(NoObject(id))
      case None => Err(NoObject(id))
    else
      match DecodeLocal(id)
      case Some(i) => Ok(i)
      case None => Err(NoObject(id))
  }

  function LookupObject(c: Conn, key: MacKey, id: string, alive: set<Obj>): Result<Target, LookupError> {
    if id == CONNECTION_OBJ_ID then
      if c.self then Ok(TheConnection) else Err(NoObject(id))
    else
      match ToLocalIdx(c.id, key, id)
      case Err(e) => Err(e)
      case Ok(i) =>
        match Lookup(c.objects, i, alive)
        case Some(o) => Ok(AnObject(o))
        case None => Err(NoObject(id))
  }

  /** The id that `register_owned` returns for an object at `k`. */
  function IdFor(me: ConnectionId, key: MacKey, k: Key, exposed: bool, r: nat): string {
    if exposed then Encode(GlobalId(me, Strong(k)), key, r) else EncodeLocal(Strong(k), r)
  }

  /** What `release_owned` answers, and the state it leaves. */
  function Release(c: Conn, key: MacKey, id: string): (Conn, Result<Unit, LookupError>) {
    if id == CONNECTION_OBJ_ID then
      (c.(self := false), if c.self then Ok(Unit) else Err(NoObject(id)))
    else
      match ToLocalIdx(c.id, key, id)
      case Err(e) => (c, Err(e))
      case Ok(Weak(_)) => (c, Err(WrongType(id)))
      case Ok(Strong(k)) =>
        (c.(objects := Without(c.objects, Strong(k))),
         if Get(c.objects.strong, k).Some? then Ok(Unit) else Err(NoObject(id)))
  }

  /** A connection's objects, as its methods change them. */
  class Connection {
    const id: ConnectionId
    const macKey: MacKey
    const objects: ObjMap.Map
    var self: bool

    ghost function Contents(): Conn
      reads this, objects
    {
      Conn(id, objects.Contents(), self)
    }

    ghost predicate Valid()
      reads this, objects
    {
      ValidObjects(objects.Contents())
    }

    constructor (id: ConnectionId, macKey: MacKey)
      ensures this.id == id && this.macKey == macKey && fresh(objects)
      ensures Valid() && Contents() == NewConn(id)
    {
      this.id := id;
      this.macKey := macKey;
      objects := new ObjMap.Map();
      self := true;
    }

    method RegisterOwned(o: Obj, exposed: bool, r: nat, free: Option<nat>) returns (name: string)
      requires Valid() && CanTake(objects.strong.base, free)
      modifies objects
      ensures Valid()
      ensures Contents() == old(Contents()).(objects := WithStrong(old(objects.Contents()), o, free))
      ensures name == IdFor(id, macKey, FreshKey(old(objects.strong).base, free), exposed, r)
    {
      var i := objects.AddStrong(o, free);
      if exposed {
        name := Encode(GlobalId(id, i), macKey, r);
      } else {
        name := EncodeLocal(i, r);
      }
    }

    method ReleaseOwned(name: string, alive: set<Obj>) returns (res: Result<Unit, LookupError>)
      requires Valid()
      modifies this, objects
      ensures Valid()
      ensures (Contents(), res) == Release(old(Contents()), macKey, name)
    {
      var removedSome;
      if name == CONNECTION_OBJ_ID {
        removedSome := self;
        self := false;
      } else {
        var idx := ToLocalIdx(id, macKey, name);
        match idx {
          case Err(e) => return Err(e);
          case Ok(i) =>
            if i.Weak? {
              return Err(WrongType(name));
            }
            var removed := objects.Delete(i, alive);
            removedSome := removed.Some?;
        }
      }
      res := if removedSome then Ok(Unit) else Err(NoObject(name));
    }
  }

  // ---------------------------------------------------------------------------------------------
  // Ids
  // ---------------------------------------------------------------------------------------------

  /** A local id decodes to the index it was made for. */
  lemma LocalRoundTrip(i: GenIdx, r: nat)
    requires IsKey(i.key)
    ensures DecodeLocal(EncodeLocal(i, r)) == Some(i)
  {
    Base64.DecodeIff(Base64.UrlSafe, EncodeLocal(i, r), ToBytes(i, r));
    Index.RoundTrip(i, r);
  }

  /** An id that `register_owned` returned is never "connection", its length says which kind it is,
      and it names its object's slot to the connection that made it.  Every other connection refuses a
      global id, and takes a local id for its own slot with that number. */
  lemma IdNamesItsSlot(me: ConnectionId, key: MacKey, k: Key, exposed: bool, r: nat, other: ConnectionId)
    requires IsKey(k)
    ensures var id := IdFor(me, key, k, exposed, r);
            && id != CONNECTION_OBJ_ID
            && |id| == (if exposed then 64 else 22)
            && ToLocalIdx(me, key, id) == Ok(Strong(k))
            && (exposed && other != me ==> ToLocalIdx(other, key, id) == Err(NoObject(id)))
            && (!exposed ==> ToLocalIdx(other, key, id) == Ok(Strong(k)))
  {
    if exposed {
      GlobalIds.RoundTrip(GlobalId(me, Strong(k)), key, r);
    } else {
      LocalRoundTrip(Strong(k), r);
    }
  }

  /** Ids for different slots differ, whatever the random words and the kinds of id. */
  lemma IdsDiffer(me: ConnectionId, key: MacKey, k: Key, exposed: bool, r: nat, k': Key, exposed': bool, r': nat)
    requires IsKey(k) && IsKey(k') && k != k'
    ensures IdFor(me, key, k, exposed, r) != IdFor(me, key, k', exposed', r')
  {
    IdNamesItsSlot(me, key, k, exposed, r, me);
    IdNamesItsSlot(me, key, k', exposed', r', me);
  }

  // ---------------------------------------------------------------------------------------------
  // Runs of one connection
  // ---------------------------------------------------------------------------------------------

  datatype Op =
    | DoRegister(obj: Obj, exposed: bool, random: nat, free: Option<nat>)
    | DoRelease(id: string)

  ghost predicate Step(c: Conn, key: MacKey, op: Op, c': Conn) {
    match op
    case DoRegister(o, exposed, r, free) =>
      CanTake(c.objects.strong.base, free) && c' == c.(objects := WithStrong(c.objects, o, free))
    case DoRelease(id) => c' == Release(c, key, id).0
  }

  ghost predicate StepAt(cs: seq<Conn>, key: MacKey, ops: seq<Op>, i: nat)
    requires i < |ops| < |cs|
  {
    Step(cs[i], key, ops[i], cs[i + 1])
  }

  ghost predicate Run(cs: seq<Conn>, key: MacKey, ops: seq<Op>) {
    && |cs| == |ops| + 1 && cs[0] == NewConn(cs[0].id)
    && (forall i: nat | i < |ops| :: StepAt(cs, key, ops, i))
  }

  /** `op` releases the object at `k`, through any of the many ids that name it. */
  ghost predicate Releases(me: ConnectionId, key: MacKey, op: Op, k: Key) {
    op.DoRelease? && op.id != CONNECTION_OBJ_ID && ToLocalIdx(me, key, op.id) == Ok(Strong(k))
  }

  ghost predicate ReleasedIn(me: ConnectionId, key: MacKey, ops: seq<Op>, k: Key, i: nat, j: nat)
    requires j <= |ops|
  {
    exists q :: i <= q < j && Releases(me, key, ops[q], k)
  }

  lemma StepKeepsValid(c: Conn, key: MacKey, op: Op, c': Conn)
    requires ValidObjects(c.objects) && Step(c, key, op, c')
    ensures ValidObjects(c'.objects) && c'.id == c.id
    ensures forall k :: Retired(c.objects.strong, k) ==> Retired(c'.objects.strong, k)
  {
    match op
    case DoRegister(o, exposed, r, free) =>
      WithStrongAddsOne(c.objects, o, free);
      InsertAddsOne(c.objects.strong, o, free);
    case DoRelease(id) =>
      if id != CONNECTION_OBJ_ID {
        match ToLocalIdx(c.id, key, id)
        case Ok(Strong(k)) =>
          WithoutDropsOne(c.objects, Strong(k));
          RemoveRetires(c.objects.strong, k);
        case _ =>
      }
  }

  lemma {:induction false} RunKeepsValid(cs: seq<Conn>, key: MacKey, ops: seq<Op>, i: nat)
    requires Run(cs, key, ops) && i <= |ops|
    ensures ValidObjects(cs[i].objects) && cs[i].id == cs[0].id
  {
    if i > 0 {
      RunKeepsValid(cs, key, ops, i - 1);
      assert StepAt(cs, key, ops, i - 1);
      StepKeepsValid(cs[i - 1], key, ops[i - 1], cs[i]);
    }
  }

  /** One step either releases the object at `k` or leaves what is there alone. */
  lemma StepOnSlot(c: Conn, key: MacKey, op: Op, c': Conn, k: Key)
    requires ValidObjects(c.objects) && Step(c, key, op, c')
    requires Get(c.objects.strong, k).Some? || Retired(c.objects.strong, k)
    ensures Get(c'.objects.strong, k) == if Releases(c.id, key, op, k) then None else Get(c.objects.strong, k)
    ensures Get(c'.objects.strong, k).Some? || Retired(c'.objects.strong, k)
  {
    match op
    case DoRegister(o, exposed, r, free) => InsertAddsOne(c.objects.strong, o, free);
    case DoRelease(id) =>
      if id != CONNECTION_OBJ_ID {
        match ToLocalIdx(c.id, key, id)
        case Ok(Strong(x)) => RemoveRetires(c.objects.strong, x);
        case _ =>
      }
  }

  ghost function KeyOf(c: Conn, op: Op): Key
    requires op.DoRegister? && CanTake(c.objects.strong.base, op.free)
  {
    FreshKey(c.objects.strong.base, op.free)
  }

  lemma RegisterFillsSlot(c: Conn, key: MacKey, op: Op, c': Conn)
    requires ValidObjects(c.objects) && Step(c, key, op, c') && op.DoRegister?
    ensures IsKey(KeyOf(c, op)) && Get(c'.objects.strong, KeyOf(c, op)) == Some(op.obj)
    ensures Get(c.objects.strong, KeyOf(c, op)).None? && !Retired(c.objects.strong, KeyOf(c, op))
  {
    WithStrongAddsOne(c.objects, op.obj, op.free);
    InsertAddsOne(c.objects.strong, op.obj, op.free);
  }

  lemma RunOnSlot(cs: seq<Conn>, key: MacKey, ops: seq<Op>, k: Key, j: nat)
    requires Run(cs, key, ops) && j < |ops|
    requires Get(cs[j].objects.strong, k).Some? || Retired(cs[j].objects.strong, k)
    ensures Get(cs[j + 1].objects.strong, k) ==
            if Releases(cs[0].id, key, ops[j], k) then None else Get(cs[j].objects.strong, k)
    ensures Get(cs[j + 1].objects.strong, k).Some? || Retired(cs[j + 1].objects.strong, k)
  {
    RunKeepsValid(cs, key, ops, j);
    assert StepAt(cs, key, ops, j);
    StepOnSlot(cs[j], key, ops[j], cs[j + 1], k);
  }

  /** From a state in which `k` has been given out, its slot keeps its content until a release. */
  lemma {:induction false} SlotFrom(cs: seq<Conn>, key: MacKey, ops: seq<Op>, k: Key, i: nat, j: nat)
    requires Run(cs, key, ops) && i <= j <= |ops|
    requires Get(cs[i].objects.strong, k).Some? || Retired(cs[i].objects.strong, k)
    ensures Get(cs[j].objects.strong, k).Some? || Retired(cs[j].objects.strong, k)
    ensures Get(cs[j].objects.strong, k) ==
            if ReleasedIn(cs[0].id, key, ops, k, i, j) then None else Get(cs[i].objects.strong, k)
  {
    if i < j {
      SlotFrom(cs, key, ops, k, i, j - 1);
      RunOnSlot(cs, key, ops, k, j - 1);
    }
  }

  lemma SlotLife(cs: seq<Conn>, key: MacKey, ops: seq<Op>, i: nat, j: nat)
    requires Run(cs, key, ops) && i < j <= |ops| && ops[i].DoRegister?
    ensures StepAt(cs, key, ops, i) && IsKey(KeyOf(cs[i], ops[i]))
    ensures var k := KeyOf(cs[i], ops[i]);
            && (Get(cs[j].objects.strong, k).Some? || Retired(cs[j].objects.strong, k))
            && Get(cs[j].objects.strong, k) ==
               if ReleasedIn(cs[0].id, key, ops, k, i + 1, j) then None else Some(ops[i].obj)
  {
    RunKeepsValid(cs, key, ops, i);
    assert StepAt(cs, key, ops, i);
    RegisterFillsSlot(cs[i], key, ops[i], cs[i + 1]);
    SlotFrom(cs, key, ops, KeyOf(cs[i], ops[i]), i + 1, j);
  }

  /** The object table refines a simple map.  In every run, with any random words, an id that
      `register_owned` returned looks up exactly its object until that object is released, and
      nothing ever after. */
  lemma IdLife(cs: seq<Conn>, key: MacKey, ops: seq<Op>, i: nat, j: nat, alive: set<Obj>)
    requires Run(cs, key, ops) && i < j <= |ops| && ops[i].DoRegister?
    ensures CanTake(cs[i].objects.strong.base, ops[i].free)
    ensures var k := KeyOf(cs[i], ops[i]);
            var id := IdFor(cs[0].id, key, k, ops[i].exposed, ops[i].random);
            LookupObject(cs[j], key, id, alive) ==
            if ReleasedIn(cs[0].id, key, ops, k, i + 1, j) then Err(NoObject(id))
            else Ok(AnObject(ops[i].obj))
  {
    SlotLife(cs, key, ops, i, j);
    RunKeepsValid(cs, key, ops, j);
    IdNamesItsSlot(cs[0].id, key, KeyOf(cs[i], ops[i]), ops[i].exposed, ops[i].random, cs[0].id);
  }

  /** No run of a connection returns the same id twice. */
  lemma IdsNeverRepeat(cs: seq<Conn>, key: MacKey, ops: seq<Op>, i: nat, j: nat)
    requires Run(cs, key, ops) && i < j < |ops| && ops[i].DoRegister? && ops[j].DoRegister?
    ensures CanTake(cs[i].objects.strong.base, ops[i].free) && CanTake(cs[j].objects.strong.base, ops[j].free)
    ensures IdFor(cs[0].id, key, KeyOf(cs[i], ops[i]), ops[i].exposed, ops[i].random)
         != IdFor(cs[0].id, key, KeyOf(cs[j], ops[j]), ops[j].exposed, ops[j].random)
  {
    SlotLife(cs, key, ops, i, j);
    SlotLife(cs, key, ops, j, j + 1);
    RunKeepsValid(cs, key, ops, j);
    assert StepAt(cs, key, ops, j);
    RegisterFillsSlot(cs[j], key, ops[j], cs[j + 1]);
    IdsDiffer(cs[0].id, key, KeyOf(cs[i], ops[i]), ops[i].exposed, ops[i].random,
              KeyOf(cs[j], ops[j]), ops[j].exposed, ops[j].random);
  }

  // ---------------------------------------------------------------------------------------------
  // Releasing
  // ---------------------------------------------------------------------------------------------

  /** Releasing an id that was returned succeeds until its object is released, and finds nothing ever
      after. */
  lemma ReleaseLife(cs: seq<Conn>, key: MacKey, ops: seq<Op>, i: nat, j: nat)
    requires Run(cs, key, ops) && i < j <= |ops| && ops[i].DoRegister?
    ensures CanTake(cs[i].objects.strong.base, ops[i].free)
    ensures var k := KeyOf(cs[i], ops[i]);
            var id := IdFor(cs[0].id, key, k, ops[i].exposed, ops[i].random);
            Release(cs[j], key, id).1 ==
            if ReleasedIn(cs[0].id, key, ops, k, i + 1, j) then Err(NoObject(id)) else Ok(Unit)
  {
    SlotLife(cs, key, ops, i, j);
    RunKeepsValid(cs, key, ops, j);
    IdNamesItsSlot(cs[0].id, key, KeyOf(cs[i], ops[i]), ops[i].exposed, ops[i].random, cs[0].id);
  }

  /** Releasing takes away what one index finds, or changes nothing and says why. */
  lemma ReleaseDropsOne(c: Conn, key: MacKey, id: string)
    requires ValidObjects(c.objects) && id != CONNECTION_OBJ_ID
    ensures var (c', res) := Release(c, key, id);
            match ToLocalIdx(c.id, key, id)
            case Err(e) => c' == c && res == Err(NoObject(id))
            case Ok(Weak(_)) => c' == c && res == Err(WrongType(id))
            case Ok(Strong(k)) =>
              && c'.self == c.self && c'.id == c.id
              && (forall j, alive :: Lookup(c'.objects, j, alive) == if j == Strong(k) then None else Lookup(c.objects, j, alive))
              && (res.Ok? <==> exists alive :: Lookup(c.objects, Strong(k), alive).Some?)
              && (res.Err? ==> res == Err(NoObject(id)))
  {
    match ToLocalIdx(c.id, key, id)
    case Ok(Strong(k)) =>
      WithoutDropsOne(c.objects, Strong(k));
      assert Lookup(c.objects, Strong(k), {}) == Get(c.objects.strong, k);
    case _ =>
  }

  /** An id that does not decode, or names another connection, finds nothing. */
  lemma LookupOfForeignId(c: Conn, key: MacKey, id: string, alive: set<Obj>)
    requires id != CONNECTION_OBJ_ID && ToLocalIdx(c.id, key, id).Err?
    ensures LookupObject(c, key, id, alive) == Err(NoObject(id))
  {
  }

  /** An id for a weakly held object cannot be released, and finds the object while it is alive. */
  lemma WeakIds(c: Conn, key: MacKey, k: Key, exposed: bool, r: nat, alive: set<Obj>)
    requires IsKey(k)
    ensures var id := if exposed then Encode(GlobalId(c.id, Weak(k)), key, r) else EncodeLocal(Weak(k), r);
            && Release(c, key, id) == (c, Err(WrongType(id)))
            && LookupObject(c, key, id, alive)
               == if Get(c.objects.weak, k).Some? && Get(c.objects.weak, k).value in alive
                  then Ok(AnObject(Get(c.objects.weak, k).value)) else Err(NoObject(id))
  {
    if exposed {
      GlobalIds.RoundTrip(GlobalId(c.id, Weak(k)), key, r);
    } else {
      LocalRoundTrip(Weak(k), r);
    }
  }

  /** Some step before `j` released the connection itself. */
  ghost predicate ClosedBefore(ops: seq<Op>, j: nat)
    requires j <= |ops|
  {
    exists q :: 0 <= q < j && ops[q] == DoRelease(CONNECTION_OBJ_ID)
  }

  lemma {:induction false} SelfUntilClosed(cs: seq<Conn>, key: MacKey, ops: seq<Op>, j: nat)
    requires Run(cs, key, ops) && j <= |ops|
    ensures cs[j].self <==> !ClosedBefore(ops, j)
  {
    if j > 0 {
      SelfUntilClosed(cs, key, ops, j - 1);
      assert StepAt(cs, key, ops, j - 1);
      if ops[j - 1] == DoRelease(CONNECTION_OBJ_ID) {
        assert ClosedBefore(ops, j);
      } else if ClosedBefore(ops, j) {
        assert ClosedBefore(ops, j - 1);
      }
    }
  }

  /** The id "connection" finds the connection and can be released, until it is released; after that it
      finds nothing and cannot be released again. */
  lemma ConnectionLife(cs: seq<Conn>, key: MacKey, ops: seq<Op>, j: nat, alive: set<Obj>)
    requires Run(cs, key, ops) && j <= |ops|
    ensures LookupObject(cs[j], key, "connection", alive)
         == if ClosedBefore(ops, j) then Err(NoObject("connection")) else Ok(TheConnection)
    ensures Release(cs[j], key, "connection").1
         == if ClosedBefore(ops, j) then Err(NoObject("connection")) else Ok(Unit)
    ensures Release(cs[j], key, "connection").0.objects == cs[j].objects
  {
    SelfUntilClosed(cs, key, ops, j);
  }

  // ---------------------------------------------------------------------------------------------
  // The manager
  // ---------------------------------------------------------------------------------------------

  /** `RpcMgr::lookup_object`, over the connections that are still alive. */
  function MgrLookup(conns: map<ConnectionId, Conn>, key: MacKey, id: string, alive: set<Obj>)
    : Result<(ConnectionId, Obj), LookupError>
  {
    match TryDecode(key, id)
    case None => Err(NoObject(id))
    case Some(g) =>
      if g.connection !in conns then Err(NoObject(id))
      else match Lookup(conns[g.connection].objects, g.localId, alive)
        case None => Err(NoObject(id))
        case Some(o) => Ok((g.connection, o))
  }

  /** The manager, with a weak reference to each connection: `connections` holds those not dropped. */
  class RpcMgr {
    const macKey: MacKey
    var connections: map<ConnectionId, Connection>
    var poisoned: bool

    constructor (macKey: MacKey)
      ensures this.macKey == macKey && connections == map[] && !poisoned
    {
      this.macKey := macKey;
      connections := map[];
      poisoned := false;
    }

    /** Every live connection is registered under its own id and shares the manager's key. */
    ghost predicate Valid()
      reads this, connections.Values, set c <- connections.Values :: c.objects
    {
      && (forall id <- connections :: connections[id].id == id && connections[id].macKey == macKey)
      && (forall id <- connections :: connections[id].Valid())
    }

    ghost function Contents(): map<ConnectionId, Conn>
      reads this, connections.Values, set c <- connections.Values :: c.objects
    {
      map id <- connections :: connections[id].Contents()
    }

    /** None stands for a panic.  On an id that a live connection already has, the new connection has
        taken the place of that one when the assertion fails; unwinding drops it and poisons the lock. */
    method NewConnection(id: ConnectionId) returns (c: Option<Connection>)
      requires Valid()
      modifies this
      ensures Valid()
      ensures c.Some? <==> !old(poisoned) && id !in old(connections)
      ensures c.Some? ==> fresh(c.value) && fresh(c.value.objects) && c.value.Contents() == NewConn(id)
      ensures c.Some? ==> !poisoned && connections == old(connections)[id := c.value]
      ensures c.None? ==> poisoned
      ensures c.None? ==> connections == if old(poisoned) then old(connections) else old(connections) - {id}
    {
      if poisoned {
        return None;
      }
      if id in connections {
        // Displaced by the new connection, which unwinding drops in turn.
        connections := connections - {id};
        poisoned := true;
        return None;
      }
      var connection := new Connection(id, macKey);
      connections := connections[id := connection];
      c := Some(connection);
    }

    /** None stands for the panic on a poisoned lock, which an id that does not decode never meets. */
    method LookupObject(id: string, alive: set<Obj>) returns (r: Option<Result<(ConnectionId, Obj), LookupError>>)
      requires Valid()
      ensures r.None? <==> poisoned && TryDecode(macKey, id).Some?
      ensures r.Some? ==> r.value == MgrLookup(Contents(), macKey, id, alive)
    {
      match TryDecode(macKey, id) {
        case None => return Some(Err(NoObject(id)));
        case Some(g) =>
          if poisoned {
            return None;
          }
          if g.connection !in connections {
            return Some(Err(NoObject(id)));
          }
          var connection := connections[g.connection];
          // The manager's lock is released before the connection's is taken.
          match g.localId {
            case Strong(k) =>
              var o := Get(connection.objects.strong, k);
              r := Some(if o.Some? then Ok((g.connection, o.value)) else Err(NoObject(id)));
            case Weak(k) =>
              var o := Get(connection.objects.weak, k);
              r := Some(if o.Some? && o.value in alive then Ok((g.connection, o.value)) else Err(NoObject(id)));
          }
      }
    }
  }

  /** A global id made by connection `me` resolves at the manager exactly as `me` itself resolves it,
      while `me` is alive, and to nothing once it is not; every other connection refuses it. */
  lemma ManagerResolves(conns: map<ConnectionId, Conn>, key: MacKey, me: ConnectionId, k: Key, r: nat, alive: set<Obj>)
    requires IsKey(k) && (forall c <- conns :: conns[c].id == c)
    ensures var id := IdFor(me, key, k, true, r);
            && MgrLookup(conns, key, id, alive) ==
               (if me !in conns then Err(NoObject(id))
                else match LookupObject(conns[me], key, id, alive)
                  case Ok(AnObject(o)) => Ok((me, o))
                  case _ => Err(NoObject(id)))
            && (forall c <- conns :: c != me ==> LookupObject(conns[c], key, id, alive) == Err(NoObject(id)))
  {
    GlobalIds.RoundTrip(GlobalId(me, Strong(k)), key, r);
    forall c <- conns ensures c != me ==> LookupObject(conns[c], key, IdFor(me, key, k, true, r), alive)
                                          == Err(NoObject(IdFor(me, key, k, true, r)))
    {
      IdNamesItsSlot(me, key, k, true, r, c);
    }
    IdNamesItsSlot(me, key, k, true, r, me);
  }

  /** End to end: an id that a connection returned for an exposed object resolves, at a manager that
      still knows that connection, to that connection and that object until the object is released,
      and never after. */
  lemma ExposedIdLife(cs: seq<Conn>, key: MacKey, ops: seq<Op>, i: nat, j: nat, conns: map<ConnectionId, Conn>, alive: set<Obj>)
    requires Run(cs, key, ops) && i < j <= |ops| && ops[i].DoRegister? && ops[i].exposed
    requires (forall c <- conns :: conns[c].id == c) && cs[0].id in conns && conns[cs[0].id] == cs[j]
    ensures CanTake(cs[i].objects.strong.base, ops[i].free)
    ensures var k := KeyOf(cs[i], ops[i]);
            var id := IdFor(cs[0].id, key, k, true, ops[i].random);
            MgrLookup(conns, key, id, alive) ==
            if ReleasedIn(cs[0].id, key, ops, k, i + 1, j) then Err(NoObject(id))
            else Ok((cs[0].id, ops[i].obj))
  {
    SlotLife(cs, key, ops, i, j);
    IdLife(cs, key, ops, i, j, alive);
    ManagerResolves(conns, key, cs[0].id, KeyOf(cs[i], ops[i]), ops[i].random, alive);
  }
}
