/**
 The in-memory repository: a map that is written to a store after every change, and a hand-written rollback
 for the case that the store fails. A store that fails keeps what it had.
 */
module MemoryRepository {
  import opened Options

  type ID = string
  const ZERO_ID: ID := ""

  datatype Entity = Entity(id: ID, content: nat)
  const ZERO_ENTITY := Entity(ZERO_ID, 0)

  type Data = map<ID, Entity>

  datatype State = State(data: Data, stored: Data)

  datatype Op =
    | Create(e: Entity)
    | Update(e: Entity)
    | Delete(e: Entity)
    | Save(e: Entity)
    | SaveAll(es: seq<Entity>)
    | UpdateAll(es: seq<Entity>)
    | AddAll(es: seq<Entity>)
    | DeleteByIDs(ids: seq<ID>)
    | DeleteAll

  datatype Outcome = Success | Rejected | StoreFailed

  // ----- what the operations do -----

  /** A Go map gives the zero entity for a missing key. */
  function Get(data: Data, id: ID): Entity { if id in data then data[id] else ZERO_ENTITY }

  function PutAll(data: Data, es: seq<Entity>): Data
    decreases |es|
  {
    if es == [] then data else PutAll(data[es[0].id := es[0]], es[1..])
  }

  function RemoveAll(data: Data, ids: seq<ID>): Data
    decreases |ids|
  {
    if ids == [] then data else RemoveAll(data - {ids[0]}, ids[1..])
  }

  /** The old entities SaveAll collects while it writes the new ones. */
  function Overwritten(data: Data, es: seq<Entity>): seq<Entity>
    decreases |es|
  {
    if es == [] then []
    else [Get(data, es[0].id)] + Overwritten(data[es[0].id := es[0]], es[1..])
  }

  /** The old entities DeleteByIDs collects while it deletes. */
  function Removed(data: Data, ids: seq<ID>): seq<Entity>
    decreases |ids|
  {
    if ids == [] then []
    else [Get(data, ids[0])] + Removed(data - {ids[0]}, ids[1..])
  }

  /** The old entities UpdateAll collects before it writes. */
  function Olds(data: Data, es: seq<Entity>): seq<Entity> {
    if es == [] then [] else [Get(data, es[0].id)] + Olds(data, es[1..])
  }

  ghost predicate HasZeroID(es: seq<Entity>) { exists i :: 0 <= i < |es| && es[i].id == ZERO_ID }

  ghost predicate Accepts(data: Data, op: Op) {
    match op
    case Create(e) => e.id != ZERO_ID && e.id !in data
    case Update(e) => e.id != ZERO_ID && e.id in data
    case Save(e) => e.id != ZERO_ID
    case SaveAll(es) => !HasZeroID(es)
    case UpdateAll(es) => !HasZeroID(es) && forall i :: 0 <= i < |es| ==> es[i].id in data
    case AddAll(es) => !HasZeroID(es) && forall i :: 0 <= i < |es| ==> es[i].id !in data
    case _ => true
  }

  function Apply(data: Data, op: Op): Data {
    match op
    case Create(e) => data[e.id := e]
    case Update(e) => data[e.id := e]
    case Delete(e) => data - {e.id}
    case Save(e) => data[e.id := e]
    case SaveAll(es) => PutAll(data, es)
    case UpdateAll(es) => PutAll(data, es)
    case AddAll(es) => PutAll(data, es)
    case DeleteByIDs(ids) => RemoveAll(data, ids)
    case DeleteAll => map[]
  }

  /** The map after the rollback of a failed store. */
  function RolledBack(data: Data, op: Op): Data {
    var after := Apply(data, op);
    match op
    case Create(e) => after - {e.id}
    case Update(e) => after[e.id := Get(data, e.id)]
    case Delete(e) => after[e.id := Get(data, e.id)]
    case Save(e) => after - {e.id}
    case SaveAll(es) => PutAll(after, Overwritten(data, es))
    case UpdateAll(es) => PutAll(after, Olds(data, es))
    case AddAll(es) => PutAll(after, Overwritten(data, es))
    case DeleteByIDs(ids) => PutAll(after, Removed(data, ids))
    case DeleteAll => map id | id in data :: data[id]
  }

  ghost function Step(s: State, op: Op, storeFails: bool): (State, Outcome) {
    if !Accepts(s.data, op) then (s, Rejected)
    else if storeFails then (State(RolledBack(s.data, op), s.stored), StoreFailed)
    else (State(Apply(s.data, op), Apply(s.data, op)), Success)
  }

  // ----- when the rollback restores the map -----

  /** Every key is its entity's ID, and never the zero ID. */
  predicate KeyedByID(data: Data) {
    forall id :: id in data ==> data[id].id == id && id != ZERO_ID
  }

  /** The last entity with this ID. */
  function LastWith(es: seq<Entity>, id: ID): Option<Entity> {
    if es == [] then None
    else if LastWith(es[1..], id).Some? then LastWith(es[1..], id)
    else if es[0].id == id then Some(es[0]) else None
  }

  /** The last but one entity with this ID. */
  function NextToLastWith(es: seq<Entity>, id: ID): Option<Entity> {
    if es == [] then None
    else if NextToLastWith(es[1..], id).Some? then NextToLastWith(es[1..], id)
    else if es[0].id == id && LastWith(es[1..], id).Some? then Some(es[0]) else None
  }

  ghost predicate Distinct(ids: seq<ID>) { forall i, j :: 0 <= i < j < |ids| ==> ids[i] != ids[j] }

  ghost predicate AllStored(data: Data, ids: seq<ID>) { forall i :: 0 <= i < |ids| ==> ids[i] in data }

  ghost predicate AllKnown(data: Data, es: seq<Entity>) { forall i :: 0 <= i < |es| ==> es[i].id in data }

  /** A condition on the arguments, for each operation, under which its rollback restores the map. */
  ghost predicate RollbackCondition(data: Data, op: Op) {
    match op
    case Save(e) => e.id !in data
    case Delete(e) => e.id in data
    case SaveAll(es) =>
      && AllKnown(data, es)
      && forall i :: 0 <= i < |es| ==>
           var repeated := NextToLastWith(es, es[i].id);
           repeated.Some? ==> repeated.value == data[es[i].id]
    case AddAll(es) => es == []
    case DeleteByIDs(ids) => AllStored(data, ids) && Distinct(ids)
    case _ => true
  }

  lemma {:induction false} PutAllAt(data: Data, es: seq<Entity>, id: ID)
    ensures id in PutAll(data, es) <==> id in data || LastWith(es, id).Some?
    ensures id in PutAll(data, es) ==>
              PutAll(data, es)[id] == if LastWith(es, id).Some? then LastWith(es, id).value else data[id]
    decreases |es|
  {
    if es == [] {
    } else {
      PutAllAt(data[es[0].id := es[0]], es[1..], id);
    }
  }

  lemma {:induction false} RemoveAllAt(data: Data, ids: seq<ID>, id: ID)
    ensures id in RemoveAll(data, ids) <==> id in data && id !in ids
    ensures id in RemoveAll(data, ids) ==> RemoveAll(data, ids)[id] == data[id]
    decreases |ids|
  {
    if ids == [] {
    } else {
      RemoveAllAt(data - {ids[0]}, ids[1..], id);
    }
  }

  /** What the rollback of SaveAll writes last under an ID: what the last write of that ID replaced. */
  lemma {:induction false} OverwrittenAt(data: Data, es: seq<Entity>, id: ID)
    requires KeyedByID(data) && AllKnown(data, es)
    ensures var replaced := if NextToLastWith(es, id).Some? then NextToLastWith(es, id) else Some(Get(data, id));
            LastWith(Overwritten(data, es), id) == if LastWith(es, id).Some? then replaced else None
    decreases |es|
  {
    if es == [] {
    } else {
      var rest := Overwritten(data[es[0].id := es[0]], es[1..]);
      OverwrittenAt(data[es[0].id := es[0]], es[1..], id);
      assert Overwritten(data, es)[1..] == rest;
      NextToLastIsNotLast(es[1..], id);
    }
  }

  lemma {:induction false} NextToLastIsNotLast(es: seq<Entity>, id: ID)
    ensures NextToLastWith(es, id).Some? ==> LastWith(es, id).Some?
  {
    if es == [] {
    } else {
      NextToLastIsNotLast(es[1..], id);
    }
  }

  /** Replacing an entity that was not there leaves a zero entity for the rollback. */
  lemma {:induction false} OverwrittenHasZero(data: Data, es: seq<Entity>)
    requires !AllKnown(data, es)
    ensures LastWith(Overwritten(data, es), ZERO_ID).Some?
    decreases |es|
  {
    var rest := Overwritten(data[es[0].id := es[0]], es[1..]);
    assert Overwritten(data, es)[1..] == rest;
    if es[0].id in data {
      var i :| 0 <= i < |es| && es[i].id !in data;
      assert es[1..][i - 1].id !in data[es[0].id := es[0]];
      OverwrittenHasZero(data[es[0].id := es[0]], es[1..]);
    }
  }

  lemma {:induction false} OldsAt(data: Data, es: seq<Entity>, id: ID)
    requires KeyedByID(data) && AllKnown(data, es)
    ensures LastWith(Olds(data, es), id) == if LastWith(es, id).Some? then Some(Get(data, id)) else None
  {
    if es == [] {
    } else {
      OldsAt(data, es[1..], id);
      assert Olds(data, es)[1..] == Olds(data, es[1..]);
    }
  }

  lemma {:induction false} RemovedAt(data: Data, ids: seq<ID>, id: ID)
    requires KeyedByID(data) && AllStored(data, ids) && Distinct(ids)
    ensures LastWith(Removed(data, ids), id) == if id in ids then Some(Get(data, id)) else None
    decreases |ids|
  {
    if ids == [] {
    } else {
      var data' := data - {ids[0]};
      forall i | 0 <= i < |ids[1..]| ensures ids[1..][i] in data' {
        assert ids[1..][i] == ids[i + 1] != ids[0];
      }
      RemovedAt(data', ids[1..], id);
      assert Removed(data, ids)[1..] == Removed(data', ids[1..]);
    }
  }

  lemma {:induction false} RemovedHasZero(data: Data, ids: seq<ID>)
    requires !(AllStored(data, ids) && Distinct(ids))
    ensures LastWith(Removed(data, ids), ZERO_ID).Some?
    decreases |ids|
  {
    var data' := data - {ids[0]};
    assert Removed(data, ids)[1..] == Removed(data', ids[1..]);
    if ids[0] in data {
      StoredAndDistinctFrom(data, ids);
      RemovedHasZero(data', ids[1..]);
    }
  }

  lemma StoredAndDistinctFrom(data: Data, ids: seq<ID>)
    requires ids != [] && ids[0] in data
    ensures AllStored(data - {ids[0]}, ids[1..]) && Distinct(ids[1..]) ==> AllStored(data, ids) && Distinct(ids)
  {
    var rest := ids[1..];
    assert forall i :: 0 < i < |ids| ==> ids[i] == rest[i - 1];
  }

  /** For every operation: the rollback of a failed store restores the map exactly under the condition above. */
  lemma RollbackRestoresIff(data: Data, op: Op)
    requires KeyedByID(data) && Accepts(data, op)
    ensures RolledBack(data, op) == data <==> RollbackCondition(data, op)
  {
    match op
    case SaveAll(es) => SaveAllRestoresIff(data, es);
    case AddAll(es) =>
      if es != [] {
        assert es[0].id !in data;
        OverwrittenHasZero(data, es);
        PutAllAt(PutAll(data, es), Overwritten(data, es), ZERO_ID);
      }
    case UpdateAll(es) =>
      forall id ensures id in RolledBack(data, op) <==> id in data
                ensures id in data ==> RolledBack(data, op)[id] == data[id]
      {
        PutAllAt(data, es, id);
        OldsAt(data, es, id);
        PutAllAt(PutAll(data, es), Olds(data, es), id);
        if LastWith(es, id).Some? { var _ := LastWithIsListed(es, id); }
      }
    case DeleteByIDs(ids) => DeleteByIDsRestoresIff(data, ids);
    case _ =>
  }

  lemma {:induction false} LastWithIsListed(es: seq<Entity>, id: ID) returns (i: nat)
    requires LastWith(es, id).Some?
    ensures i < |es| && es[i].id == id
  {
    if LastWith(es[1..], id).Some? {
      var k := LastWithIsListed(es[1..], id);
      i := k + 1;
    } else {
      i := 0;
    }
  }

  lemma {:induction false} ListedHasLastWith(es: seq<Entity>, i: nat)
    requires i < |es|
    ensures LastWith(es, es[i].id).Some?
  {
    if i == 0 {
    } else {
      ListedHasLastWith(es[1..], i - 1);
    }
  }

  lemma SaveAllRestoresIff(data: Data, es: seq<Entity>)
    requires KeyedByID(data) && !HasZeroID(es)
    ensures RolledBack(data, SaveAll(es)) == data <==> RollbackCondition(data, SaveAll(es))
  {
    var result := RolledBack(data, SaveAll(es));
    if AllKnown(data, es) {
      forall id ensures id in result <==> id in data
                ensures id in data ==>
                  result[id] == if NextToLastWith(es, id).Some? then NextToLastWith(es, id).value else data[id]
      {
        PutAllAt(data, es, id);
        OverwrittenAt(data, es, id);
        NextToLastIsNotLast(es, id);
        PutAllAt(PutAll(data, es), Overwritten(data, es), id);
        if LastWith(es, id).Some? { var _ := LastWithIsListed(es, id); }
      }
      if RollbackCondition(data, SaveAll(es)) {
        forall id | id in data ensures result[id] == data[id] {
          NextToLastIsNotLast(es, id);
          if LastWith(es, id).Some? { var i := LastWithIsListed(es, id); assert es[i].id == id; }
        }
      }
    } else {
      OverwrittenHasZero(data, es);
      PutAllAt(PutAll(data, es), Overwritten(data, es), ZERO_ID);
    }
  }

  lemma DeleteByIDsRestoresIff(data: Data, ids: seq<ID>)
    requires KeyedByID(data)
    ensures RolledBack(data, DeleteByIDs(ids)) == data <==> AllStored(data, ids) && Distinct(ids)
  {
    var result := RolledBack(data, DeleteByIDs(ids));
    if AllStored(data, ids) && Distinct(ids) {
      forall id ensures id in result <==> id in data
                ensures id in data ==> result[id] == data[id]
      {
        RemoveAllAt(data, ids, id);
        RemovedAt(data, ids, id);
        PutAllAt(RemoveAll(data, ids), Removed(data, ids), id);
      }
    } else {
      RemovedHasZero(data, ids);
      PutAllAt(RemoveAll(data, ids), Removed(data, ids), ZERO_ID);
    }
  }

  // ----- what a lookup finds afterwards -----

  function Lookup(data: Data, id: ID): Option<Entity> { if id in data then Some(data[id]) else None }

  /** The last entity with the ID in the list. */
  ghost predicate LastListed(es: seq<Entity>, id: ID, e: Entity) {
    exists i :: 0 <= i < |es| && es[i] == e && e.id == id && forall j :: i < j < |es| ==> es[j].id != id
  }

  /** What is under `id` after the entities were written in order to a map that held `before` there. */
  ghost predicate WrittenAt(es: seq<Entity>, id: ID, before: Option<Entity>, after: Option<Entity>) {
    if exists i :: 0 <= i < |es| && es[i].id == id then after.Some? && LastListed(es, id, after.value) else after == before
  }

  lemma {:induction false} LastWithIsLast(es: seq<Entity>, id: ID)
    ensures LastWith(es, id).Some? <==> exists i :: 0 <= i < |es| && es[i].id == id
    ensures LastWith(es, id).Some? ==> LastListed(es, id, LastWith(es, id).value)
  {
    if es == [] {
    } else {
      LastWithIsLast(es[1..], id);
      if LastWith(es[1..], id).Some? {
        var i :| 0 <= i < |es[1..]| && es[1..][i] == LastWith(es[1..], id).value
                 && forall j :: i < j < |es[1..]| ==> es[1..][j].id != id;
        assert es[i + 1] == LastWith(es, id).value;
        assert forall j :: i + 1 < j < |es| ==> es[j] == es[1..][j - 1];
      } else {
        assert forall j :: 1 <= j < |es| ==> es[j] == es[1..][j - 1];
        if LastWith(es, id).Some? { assert es[0] == LastWith(es, id).value; }
      }
    }
  }

  lemma PutAllWrites(data: Data, es: seq<Entity>, id: ID)
    ensures WrittenAt(es, id, Lookup(data, id), Lookup(PutAll(data, es), id))
  {
    PutAllAt(data, es, id);
    LastWithIsLast(es, id);
  }

  /** Which calls answer what: zero IDs, known IDs and unknown IDs refuse a call, and else the store decides. */
  lemma AnswersIff(s: State, op: Op, storeFails: bool)
    ensures var refused := match op
                           case Create(e) => e.id == "" || Lookup(s.data, e.id).Some?
                           case Update(e) => e.id == "" || Lookup(s.data, e.id).None?
                           case Save(e) => e.id == ""
                           case SaveAll(es) => exists e :: e in es && e.id == ""
                           case UpdateAll(es) => exists e :: e in es && (e.id == "" || Lookup(s.data, e.id).None?)
                           case AddAll(es) => exists e :: e in es && (e.id == "" || Lookup(s.data, e.id).Some?)
                           case Delete(_) => false
                           case DeleteByIDs(_) => false
                           case DeleteAll => false;
            Step(s, op, storeFails).1 == if refused then Rejected else if storeFails then StoreFailed else Success
    ensures Step(s, op, storeFails).1 == Rejected ==> Step(s, op, storeFails).0 == s
    ensures Step(s, op, storeFails).1 == StoreFailed ==> Step(s, op, storeFails).0.stored == s.stored
  {
    match op
    case SaveAll(es) => assert forall i :: 0 <= i < |es| ==> es[i] in es;
    case UpdateAll(es) => assert forall i :: 0 <= i < |es| ==> es[i] in es;
    case AddAll(es) => assert forall i :: 0 <= i < |es| ==> es[i] in es;
    case _ =>
  }

  /** After every call that succeeds, for every ID: what is under it, in the map and in the store. */
  lemma SuccessfulCallIsLookedUp(s: State, op: Op, storeFails: bool, id: ID)
    requires Step(s, op, storeFails).1 == Success
    ensures var t := Step(s, op, storeFails).0;
            var before, after := Lookup(s.data, id), Lookup(t.data, id);
            && Lookup(t.stored, id) == after
            && match op
               case Create(e) => after == if id == e.id then Some(e) else before
               case Update(e) => after == if id == e.id then Some(e) else before
               case Save(e) => after == if id == e.id then Some(e) else before
               case Delete(e) => after == if id == e.id then None else before
               case SaveAll(es) => WrittenAt(es, id, before, after)
               case UpdateAll(es) => WrittenAt(es, id, before, after)
               case AddAll(es) => WrittenAt(es, id, before, after)
               case DeleteByIDs(ids) => after == if id in ids then None else before
               case DeleteAll => after == None
  {
    match op
    case SaveAll(es) => PutAllWrites(s.data, es, id);
    case UpdateAll(es) => PutAllWrites(s.data, es, id);
    case AddAll(es) => PutAllWrites(s.data, es, id);
    case DeleteByIDs(ids) => RemoveAllAt(s.data, ids, id);
    case _ =>
  }

  /**
   After a call whose store failed: the single operations leave all other IDs alone, and what they leave under their
   own ID is what was there, but for a Save, which leaves nothing, and a Delete, which leaves the zero entity for an
   unknown ID. A failed AddAll has added something under each of its IDs, and leaves all others alone but the zero ID.
   */
  lemma FailedCallIsLookedUp(s: State, op: Op, id: ID)
    requires KeyedByID(s.data) && Step(s, op, true).1 == StoreFailed
    ensures var before, after := Lookup(s.data, id), Lookup(Step(s, op, true).0.data, id);
            match op
            case Create(_) => after == before
            case Update(_) => after == before
            case Save(e) => after == if id == e.id then None else before
            case Delete(e) => after == if id == e.id && before.None? then Some(Entity("", 0)) else before
            case UpdateAll(_) => after == before
            case AddAll(es) => if id in IDs(es) then after.Some? else id != "" ==> after == before
            case DeleteAll => after == before
            case _ => true
  {
    var data := s.data;
    match op
    case UpdateAll(es) => RollbackRestoresIff(data, op);
    case AddAll(es) =>
      PutAllAt(data, es, id);
      PutAllAt(PutAll(data, es), Overwritten(data, es), id);
      LastWithIsLast(es, id);
      if id != ZERO_ID { OverwrittenOfNew(data, es, id); }
    case _ =>
  }

  function IDs(es: seq<Entity>): set<ID> { set e | e in es :: e.id }

  /** What the rollback of new entities writes is under their IDs, or under the zero ID. */
  lemma {:induction false} OverwrittenOfNew(data: Data, es: seq<Entity>, id: ID)
    requires forall i :: 0 <= i < |es| ==> es[i].id != ZERO_ID
    requires KeyedByID(data) && id != ZERO_ID
    ensures id !in IDs(es) ==> LastWith(Overwritten(data, es), id).None?
    decreases |es|
  {
    if es == [] {
    } else {
      var next := data[es[0].id := es[0]];
      assert es[0] in es && forall e :: e in es[1..] ==> e in es;
      OverwrittenOfNew(next, es[1..], id);
      assert Overwritten(data, es)[1..] == Overwritten(next, es[1..]);
    }
  }

  // ----- every run -----

  predicate InSync(s: State) { s.data == s.stored }

  lemma {:induction false} PutAllKeepsKeys(data: Data, es: seq<Entity>)
    requires KeyedByID(data) && !HasZeroID(es)
    ensures KeyedByID(PutAll(data, es))
    decreases |es|
  {
    if es == [] {
    } else {
      assert es[0].id != ZERO_ID;
      assert !HasZeroID(es[1..]) by {
        forall i | 0 <= i < |es[1..]| ensures es[1..][i].id != ZERO_ID { assert es[1..][i] == es[i + 1]; }
      }
      PutAllKeepsKeys(data[es[0].id := es[0]], es[1..]);
    }
  }

  lemma ApplyKeepsKeys(data: Data, op: Op)
    requires KeyedByID(data) && Accepts(data, op)
    ensures KeyedByID(Apply(data, op))
  {
    match op
    case SaveAll(es) => PutAllKeepsKeys(data, es);
    case UpdateAll(es) => PutAllKeepsKeys(data, es);
    case AddAll(es) => PutAllKeepsKeys(data, es);
    case DeleteByIDs(ids) =>
      forall id | id in RemoveAll(data, ids) ensures id in data && RemoveAll(data, ids)[id] == data[id] {
        RemoveAllAt(data, ids, id);
      }
    case _ =>
  }

  /** After one call the map equals the store's content unless the store failed outside the rollback's condition. */
  lemma StepStaysInSyncIff(s: State, op: Op, storeFails: bool)
    requires InSync(s) && KeyedByID(s.data)
    ensures var (t, out) := Step(s, op, storeFails);
            && (InSync(t) <==> out == StoreFailed ==> RollbackCondition(s.data, op))
            && (InSync(t) ==> KeyedByID(t.data))
  {
    if Accepts(s.data, op) {
      RollbackRestoresIff(s.data, op);
      ApplyKeepsKeys(s.data, op);
    }
  }

  datatype Call = Call(op: Op, storeFails: bool)

  ghost function Run(s: State, calls: seq<Call>): State
    decreases |calls|
  {
    if calls == [] then s else Run(Step(s, calls[0].op, calls[0].storeFails).0, calls[1..])
  }

  /** Whenever the store fails, the operation meets the condition of its rollback. */
  ghost predicate RollbacksAreExact(s: State, calls: seq<Call>)
    decreases |calls|
  {
    calls == [] ||
    var (t, out) := Step(s, calls[0].op, calls[0].storeFails);
    (out == StoreFailed ==> RollbackCondition(s.data, calls[0].op)) && RollbacksAreExact(t, calls[1..])
  }

  ghost predicate AlwaysInSync(s: State, calls: seq<Call>) {
    forall n :: 0 <= n <= |calls| ==> InSync(Run(s, calls[..n]))
  }

  lemma AlwaysInSyncStep(s: State, calls: seq<Call>)
    requires calls != []
    ensures AlwaysInSync(s, calls) <==>
              InSync(s) && AlwaysInSync(Step(s, calls[0].op, calls[0].storeFails).0, calls[1..])
  {
    var t := Step(s, calls[0].op, calls[0].storeFails).0;
    assert calls[..0] == [];
    forall n | 1 <= n <= |calls| ensures Run(s, calls[..n]) == Run(t, calls[1..][..n - 1]) {
      assert calls[..n][1..] == calls[1..][..n - 1];
    }
    forall m | 0 <= m <= |calls[1..]| ensures Run(t, calls[1..][..m]) == Run(s, calls[..m + 1]) {
      assert calls[..m + 1][1..] == calls[1..][..m];
    }
  }

  /** Over a whole run the map equals the store's content after each call exactly if every rollback was exact. */
  lemma {:induction false} RunStaysInSyncIff(s: State, calls: seq<Call>)
    requires InSync(s) && KeyedByID(s.data)
    ensures AlwaysInSync(s, calls) <==> RollbacksAreExact(s, calls)
    decreases |calls|
  {
    if calls == [] {
      assert calls[..0] == [];
    } else {
      AlwaysInSyncStep(s, calls);
      StepStaysInSyncIff(s, calls[0].op, calls[0].storeFails);
      var t := Step(s, calls[0].op, calls[0].storeFails).0;
      if InSync(t) {
        RunStaysInSyncIff(t, calls[1..]);
      } else if calls[1..] != [] {
        AlwaysInSyncStep(t, calls[1..]);
      } else {
        assert calls[1..][..0] == [];
      }
    }
  }

  /** Then every key is its entity's ID, never the zero ID, and loading the store gives the live map. */
  lemma {:induction false} RunKeepsKeysAndReloads(s: State, calls: seq<Call>)
    requires InSync(s) && KeyedByID(s.data) && RollbacksAreExact(s, calls)
    ensures var t := Run(s, calls);
            KeyedByID(t.data) && Load(t.stored) == t
    decreases |calls|
  {
    if calls == [] {
    } else {
      StepStaysInSyncIff(s, calls[0].op, calls[0].storeFails);
      RunKeepsKeysAndReloads(Step(s, calls[0].op, calls[0].storeFails).0, calls[1..]);
    }
  }

  /** A new repository over the same store. */
  function Load(stored: Data): State { State(stored, stored) }

  // ----- looking up many IDs -----

  function FindAll(data: Data, ids: seq<ID>): seq<Entity>
    requires AllStored(data, ids)
  {
    seq(|ids|, i requires 0 <= i < |ids| => data[ids[i]])
  }

  /** The entities that the listed IDs select among the keys of `keys`, with repeats. */
  function Selected(data: Data, ids: seq<ID>, keys: set<ID>): multiset<Entity>
    requires keys <= data.Keys
  {
    if ids == [] then multiset{}
    else
      var id := ids[|ids| - 1];
      Selected(data, ids[..|ids| - 1], keys) + (if id in keys then multiset{data[id]} else multiset{})
  }

  /** Counting: the selection over all keys is as long as the list exactly if every listed ID is stored. */
  lemma {:induction false} SelectedCount(data: Data, ids: seq<ID>)
    ensures |Selected(data, ids, data.Keys)| <= |ids|
    ensures |Selected(data, ids, data.Keys)| == |ids| <==> AllStored(data, ids)
    ensures AllStored(data, ids) ==> Selected(data, ids, data.Keys) == multiset(FindAll(data, ids))
  {
    if ids == [] {
    } else {
      var n := |ids| - 1;
      SelectedCount(data, ids[..n]);
      assert AllStored(data, ids) <==> AllStored(data, ids[..n]) && ids[n] in data;
      if AllStored(data, ids) {
        assert FindAll(data, ids) == FindAll(data, ids[..n]) + [data[ids[n]]];
      }
    }
  }

  // An inexact rollback can leave an entity under a key that is not its ID, so AllByIDs is about any map.

  function KeysOf(data: Data, e: Entity, keys: set<ID>): set<ID>
    requires keys <= data.Keys
  {
    set k | k in keys && data[k] == e
  }

  /** How many entities the listed IDs find among the keys of `keys`: all that have the ID, wherever they are. */
  function Total(data: Data, ids: seq<ID>, keys: set<ID>): nat
    requires keys <= data.Keys
  {
    if ids == [] then 0
    else Total(data, ids[..|ids| - 1], keys) + |set k | k in keys && data[k].id == ids[|ids| - 1]|
  }

  lemma {:induction false} TotalAdd(data: Data, ids: seq<ID>, keys: set<ID>, key: ID)
    requires keys <= data.Keys && key in data && key !in keys
    ensures Total(data, ids, keys + {key}) == Total(data, ids, keys) + multiset(ids)[data[key].id]
  {
    if ids == [] {
    } else {
      var n := |ids| - 1;
      TotalAdd(data, ids[..n], keys, key);
      assert ids == ids[..n] + [ids[n]];
      var found := set k | k in keys && data[k].id == ids[n];
      assert (set k | k in keys + {key} && data[k].id == ids[n])
          == if data[key].id == ids[n] then found + {key} else found;
    }
  }

  lemma {:induction false} TotalOfNoKeys(data: Data, ids: seq<ID>)
    ensures Total(data, ids, {}) == 0
  {
    if ids == [] {
    } else {
      TotalOfNoKeys(data, ids[..|ids| - 1]);
    }
  }

  /** The entities under `keys`, each as often as its ID is listed, and that for every key it is under. */
  ghost predicate IsSelection(data: Data, found: multiset<Entity>, ids: seq<ID>, keys: set<ID>)
    requires keys <= data.Keys
  {
    forall e :: found[e] == |KeysOf(data, e, keys)| * multiset(ids)[e.id]
  }

  function Copies(e: Entity, ids: seq<ID>): multiset<Entity> { multiset{}[e := multiset(ids)[e.id]] }

  lemma SelectionAdd(data: Data, found: multiset<Entity>, ids: seq<ID>, keys: set<ID>, key: ID)
    requires keys <= data.Keys && key in data && key !in keys && IsSelection(data, found, ids, keys)
    ensures IsSelection(data, found + Copies(data[key], ids), ids, keys + {key})
  {
    forall e ensures (found + Copies(data[key], ids))[e] == |KeysOf(data, e, keys + {key})| * multiset(ids)[e.id] {
      KeysOfAdd(data, e, keys, key);
      OneMore(|KeysOf(data, e, keys)|, multiset(ids)[e.id]);
    }
  }

  lemma KeysOfAdd(data: Data, e: Entity, keys: set<ID>, key: ID)
    requires keys <= data.Keys && key in data && key !in keys
    ensures |KeysOf(data, e, keys + {key})| == if data[key] == e then |KeysOf(data, e, keys)| + 1 else |KeysOf(data, e, keys)|
  {
    assert KeysOf(data, e, keys + {key}) == KeysOf(data, e, keys) + (if data[key] == e then {key} else {});
  }

  lemma OneMore(n: nat, m: nat)
    ensures (n + 1) * m == n * m + m
  {
  }

  lemma {:induction false} SelectedOfKeyed(data: Data, ids: seq<ID>, e: Entity)
    requires KeyedByID(data)
    ensures Selected(data, ids, data.Keys)[e] == if e.id in data && data[e.id] == e then multiset(ids)[e.id] else 0
  {
    if ids == [] {
    } else {
      SelectedOfKeyed(data, ids[..|ids| - 1], e);
      assert ids == ids[..|ids| - 1] + [ids[|ids| - 1]];
    }
  }

  lemma KeysOfKeyed(data: Data, e: Entity)
    requires KeyedByID(data)
    ensures |KeysOf(data, e, data.Keys)| == if e.id in data && data[e.id] == e then 1 else 0
  {
    assert KeysOf(data, e, data.Keys) == if e.id in data && data[e.id] == e then {e.id} else {};
  }

  /** With every entity under its own ID, the listed IDs select what they are the keys of. */
  lemma SelectionOfKeyed(data: Data, found: multiset<Entity>, ids: seq<ID>)
    requires KeyedByID(data) && IsSelection(data, found, ids, data.Keys)
    ensures found == Selected(data, ids, data.Keys)
  {
    forall e: Entity ensures found[e] == Selected(data, ids, data.Keys)[e] {
      SelectedOfKeyed(data, ids, e);
      KeysOfKeyed(data, e);
    }
  }

  // ----- the repository itself -----

  /** The entities of `from`, each under its own ID; of several with one ID, one is kept. */
  ghost predicate IsRekeyed(data: Data, from: Data) {
    && (forall id :: id in from ==> from[id].id in data)
    && (forall id :: id in data ==> data[id].id == id && exists k :: k in from && from[k] == data[id])
  }

  lemma OneMoreRekeyed(data: Data, before: Data, from: Data, k: ID)
    requires k in from && before == from - {k} && IsRekeyed(data, before)
    ensures IsRekeyed(data[from[k].id := from[k]], from)
  {
    var after := data[from[k].id := from[k]];
    forall id | id in from ensures from[id].id in after {
      if id != k { assert id in before && before[id].id in data; }
    }
    forall id | id in after ensures after[id].id == id && exists j :: j in from && from[j] == after[id] {
      if id == from[k].id {
        assert from[k] == after[id];
      } else {
        var j :| j in before && before[j] == data[id];
        assert from[j] == after[id];
      }
    }
  }

  class MemoryRepository {
    var data: Data
    var stored: Data  // the content of the store

    function StateOf(): State
      reads this
    {
      State(data, stored)
    }

    constructor (content: Data)
      ensures StateOf() == Load(content)
    {
      data, stored := content, content;
    }

    /** The store takes the map as a whole, or fails and keeps what it has. */
    method Store(fails: bool) returns (ok: bool)
      modifies this`stored
      ensures ok == !fails && stored == if fails then old(stored) else data
    {
      if !fails { stored := data; }
      return !fails;
    }

    method Create(entity: Entity, storeFails: bool) returns (out: Outcome)
      modifies this
      ensures (StateOf(), out) == Step(old(StateOf()), Op.Create(entity), storeFails)
    {
      var id := entity.id;
      if id == ZERO_ID { return Rejected; }
      if id in data { return Rejected; }
      data := data[id := entity];
      var ok := Store(storeFails);
      if !ok {
        data := data - {id};
        return StoreFailed;
      }
      return Success;
    }

    method Update(entity: Entity, storeFails: bool) returns (out: Outcome)
      modifies this
      ensures (StateOf(), out) == Step(old(StateOf()), Op.Update(entity), storeFails)
    {
      var id := entity.id;
      if id == ZERO_ID { return Rejected; }
      if id !in data { return Rejected; }
      var oldEntity := data[id];
      data := data[id := entity];
      var ok := Store(storeFails);
      if !ok {
        data := data[id := oldEntity];
        return StoreFailed;
      }
      return Success;
    }

    method Delete(entity: Entity, storeFails: bool) returns (out: Outcome)
      modifies this
      ensures (StateOf(), out) == Step(old(StateOf()), Op.Delete(entity), storeFails)
    {
      var id := entity.id;
      var oldEntity := Get(data, id);
      data := data - {id};
      var ok := Store(storeFails);
      if !ok {
        data := data[id := oldEntity];
        return StoreFailed;
      }
      return Success;
    }

    method Save(entity: Entity, storeFails: bool) returns (out: Outcome)
      modifies this
      ensures (StateOf(), out) == Step(old(StateOf()), Op.Save(entity), storeFails)
    {
      var id := entity.id;
      if id == ZERO_ID { return Rejected; }
      data := data[id := entity];
      var ok := Store(storeFails);
      if !ok {
        data := data - {id};
        return StoreFailed;
      }
      return Success;
    }

    method SaveAll(entities: seq<Entity>, storeFails: bool) returns (out: Outcome)
      modifies this
      ensures (StateOf(), out) == Step(old(StateOf()), Op.SaveAll(entities), storeFails)
    {
      for i := 0 to |entities|
        invariant !HasZeroID(entities[..i])
      {
        if entities[i].id == ZERO_ID { return Rejected; }
      }
      assert entities[..|entities|] == entities;
      var oldEntities := [];
      for i := 0 to |entities|
        invariant stored == old(stored)
        invariant PutAll(data, entities[i..]) == PutAll(old(data), entities)
        invariant oldEntities + Overwritten(data, entities[i..]) == Overwritten(old(data), entities)
      {
        oldEntities := oldEntities + [Get(data, entities[i].id)];
        data := data[entities[i].id := entities[i]];
        assert entities[i..][1..] == entities[i + 1..];
      }
      assert data == PutAll(old(data), entities) && oldEntities == Overwritten(old(data), entities);
      var ok := Store(storeFails);
      if !ok {
        PutBack(oldEntities);
        return StoreFailed;
      }
      return Success;
    }

    method UpdateAll(entities: seq<Entity>, storeFails: bool) returns (out: Outcome)
      modifies this
      ensures (StateOf(), out) == Step(old(StateOf()), Op.UpdateAll(entities), storeFails)
    {
      for i := 0 to |entities|
        invariant !HasZeroID(entities[..i])
      {
        if entities[i].id == ZERO_ID { return Rejected; }
      }
      assert entities[..|entities|] == entities;
      var oldEntities := [];
      for i := 0 to |entities|
        invariant AllKnown(data, entities[..i])
        invariant oldEntities + Olds(data, entities[i..]) == Olds(data, entities)
      {
        if entities[i].id !in data { return Rejected; }
        oldEntities := oldEntities + [data[entities[i].id]];
        assert entities[i..][1..] == entities[i + 1..];
      }
      assert oldEntities == Olds(data, entities);
      PutBack(entities);
      var ok := Store(storeFails);
      if !ok {
        PutBack(oldEntities);
        return StoreFailed;
      }
      return Success;
    }

    method AddAll(entities: seq<Entity>, storeFails: bool) returns (out: Outcome)
      modifies this
      ensures (StateOf(), out) == Step(old(StateOf()), Op.AddAll(entities), storeFails)
    {
      for i := 0 to |entities|
        invariant forall k :: 0 <= k < i ==> entities[k].id !in data
      {
        if entities[i].id in data { return Rejected; }
      }
      out := SaveAll(entities, storeFails);
    }

    method DeleteByIDs(ids: seq<ID>, storeFails: bool) returns (out: Outcome)
      modifies this
      ensures (StateOf(), out) == Step(old(StateOf()), Op.DeleteByIDs(ids), storeFails)
    {
      var oldEntities := [];
      for i := 0 to |ids|
        invariant stored == old(stored)
        invariant RemoveAll(data, ids[i..]) == RemoveAll(old(data), ids)
        invariant oldEntities + Removed(data, ids[i..]) == Removed(old(data), ids)
      {
        oldEntities := oldEntities + [Get(data, ids[i])];
        data := data - {ids[i]};
        assert ids[i..][1..] == ids[i + 1..];
      }
      assert data == RemoveAll(old(data), ids) && oldEntities == Removed(old(data), ids);
      var ok := Store(storeFails);
      if !ok {
        PutBack(oldEntities);
        return StoreFailed;
      }
      return Success;
    }

    /** For a map whose keys are not the IDs, a failing store leaves each entity under its ID, or another one of that ID. */
    method DeleteAll(storeFails: bool) returns (out: Outcome)
      modifies this
      ensures KeyedByID(old(data)) ==> (StateOf(), out) == Step(old(StateOf()), Op.DeleteAll, storeFails)
      ensures !storeFails ==> out == Success && data == stored == map[]
      ensures storeFails ==> out == StoreFailed && stored == old(stored) && IsRekeyed(data, old(data))
    {
      var oldEntities := data;
      data := map[];
      var ok := Store(storeFails);
      if !ok {
        PutBackAll(oldEntities);
        assert oldEntities == RolledBack(oldEntities, Op.DeleteAll);
        return StoreFailed;
      }
      return Success;
    }

    /** The loop over the old map. */
    method PutBackAll(from: Data)
      requires data == map[]
      modifies this`data
      ensures IsRekeyed(data, from) && (KeyedByID(from) ==> data == from)
    {
      var keys := from.Keys;
      while keys != {}
        invariant keys <= from.Keys
        invariant IsRekeyed(data, from - keys) && (KeyedByID(from) ==> data == from - keys)
      {
        var k :| k in keys;
        var rest := keys - {k};
        assert from - keys == (from - rest) - {k};
        OneMoreRekeyed(data, from - keys, from - rest, k);
        data := data[from[k].id := from[k]];
        keys := rest;
      }
      assert from - {} == from;
    }

    /** Writes the entities one after the other, each under its own ID. */
    method PutBack(entities: seq<Entity>)
      modifies this`data
      ensures data == PutAll(old(data), entities)
    {
      for i := 0 to |entities|
        invariant PutAll(data, entities[i..]) == PutAll(old(data), entities)
      {
        data := data[entities[i].id := entities[i]];
        assert entities[i..][1..] == entities[i + 1..];
      }
    }

    /** A nested loop over the map and the list, and a comparison of lengths at the end. */
    method AllByIDs(ids: seq<ID>) returns (r: Option<seq<Entity>>)
      ensures r.Some? <==> Total(data, ids, data.Keys) == |ids|
      ensures r.Some? ==> IsSelection(data, multiset(r.value), ids, data.Keys)
      ensures KeyedByID(data) ==> (r.Some? <==> AllStored(data, ids))
      ensures KeyedByID(data) && r.Some? ==> multiset(r.value) == multiset(FindAll(data, ids))
    {
      var result := [];
      var keys := data.Keys;
      ghost var seen: set<ID> := {};
      TotalOfNoKeys(data, ids);
      assert IsSelection(data, multiset{}, ids, {}) by {
        assert forall e :: KeysOf(data, e, {}) == {};
      }
      while keys != {}
        invariant keys <= data.Keys && seen == data.Keys - keys
        invariant |result| == Total(data, ids, seen)
        invariant IsSelection(data, multiset(result), ids, seen)
      {
        var k :| k in keys;
        TotalAdd(data, ids, seen, k);
        SelectionAdd(data, multiset(result), ids, seen, k);
        var matches := MatchesOf(data[k], ids);
        assert multiset(result + matches) == multiset(result) + Copies(data[k], ids);
        result := result + matches;
        keys := keys - {k};
        seen := seen + {k};
      }
      assert seen == data.Keys;
      if KeyedByID(data) {
        SelectedCount(data, ids);
        SelectionOfKeyed(data, multiset(result), ids);
        assert |multiset(result)| == |result|;
      }
      if |result| != |ids| { return None; }
      return Some(result);
    }

    /** The inner loop: one copy of the entity for each time its ID is listed. */
    method MatchesOf(e: Entity, ids: seq<ID>) returns (matches: seq<Entity>)
      ensures multiset(matches) == Copies(e, ids) && |matches| == multiset(ids)[e.id]
    {
      matches := [];
      for i := 0 to |ids|
        invariant multiset(matches) == Copies(e, ids[..i]) && |matches| == multiset(ids[..i])[e.id]
      {
        assert ids[..i + 1] == ids[..i] + [ids[i]];
        if e.id == ids[i] { matches := matches + [e]; }
      }
      assert ids[..|ids|] == ids;
    }

    /** For a non-empty list ExistAll holds exactly when AllByIDs succeeds. */
    method ExistAll(ids: seq<ID>) returns (r: bool)
      ensures r <==> ids != [] && AllStored(data, ids)
    {
      if |ids| == 0 { return false; }
      for i := 0 to |ids|
        invariant AllStored(data, ids[..i])
      {
        if ids[i] !in data { return false; }
      }
      assert ids[..|ids|] == ids;
      return true;
    }
  }
}
