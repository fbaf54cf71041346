/**
  The lease table: conditional writes, and the lease update that a transaction can undo.
  A stored lease is stamped with the time of its last edit; the undo is a write that is conditional on that stamp.
 */
module LeaseStore {
  import opened Domain

  type Table = map<LeaseKey, Lease>

  datatype StoreError = UnknownItem | ConcurrentDataModification | ItemAlreadyExists | MissingStamp

  datatype PutResult = PutResult(oldItem: Lease, newItem: Lease)

  datatype WriteResult = Written(put: PutResult) | Refused(error: StoreError)

  function EditTime(lease: Lease): Option<int> {
    if lease.meta.Some? then lease.meta.value.lastEditTime else None
  }

  /** Stamps `lease` as edited at `now`; the creation time is kept when there is one. */
  function WithUpdatedMetadata(lease: Lease, now: int): (stamped: Lease)
    ensures stamped.(meta := lease.meta) == lease && EditTime(stamped) == Some(now)
    ensures stamped.meta.value.createdTime ==
            if lease.meta.Some? && lease.meta.value.createdTime.Some? then lease.meta.value.createdTime else Some(now)
  {
    var created := if lease.meta.Some? then lease.meta.value.createdTime else None;
    lease.(meta := Some(Metadata(Some(created.GetOr(now)), Some(now))))
  }

  /** Equal in every field but the metadata. */
  predicate SameContent(a: Lease, b: Lease) {
    a.(meta := b.meta) == b
  }

  /** What an update of `key` does to the table, as the pair of its answer and the table it leaves. */
  function UpdateSpec(table: Table, key: LeaseKey, lease: Lease, expected: Option<Lease>, now: int): (WriteResult, Table) {
    var stamped := WithUpdatedMetadata(lease, now);
    if expected.Some? && EditTime(expected.value).None? then
      (Refused(MissingStamp), table)
    else if key !in table then
      (Refused(if expected.Some? then ConcurrentDataModification else UnknownItem), table)
    else if expected.Some? && EditTime(table[key]) != EditTime(expected.value) then
      (Refused(ConcurrentDataModification), table)
    else
      (Written(PutResult(table[key], stamped)), table[key := stamped])
  }

  /**
    An update writes the stamped item over a stored one. A conditional one also demands that the stored item bears the
    stamp of the expected one, and cannot tell a missing item from a changed one.
   */
  lemma UpdateOutcome(table: Table, key: LeaseKey, lease: Lease, expected: Option<Lease>, now: int)
    ensures var (result, after) := UpdateSpec(table, key, lease, expected, now);
            && (result.Written? <==>
                  && key in table
                  && (expected.Some? ==>
                        EditTime(expected.value).Some? && EditTime(table[key]) == EditTime(expected.value)))
            && (result.Written? ==>
                  && key in after && after == table[key := after[key]] && result.put == PutResult(table[key], after[key])
                  && after[key].(meta := lease.meta) == lease
                  && after[key].meta.Some? && after[key].meta.value.lastEditTime == Some(now))
            && (result.Refused? ==>
                  && after == table
                  && result.error == (if expected.None? then UnknownItem
                                      else if EditTime(expected.value).None? then MissingStamp
                                      else ConcurrentDataModification))
  {
  }

  class DynamoLeaseStore {
    var table: Table

    constructor ()
      ensures table == map[]
    {
      table := map[];
    }

    method Update(key: LeaseKey, lease: Lease, expected: Option<Lease>, now: int) returns (result: WriteResult)
      modifies this
      ensures (result, table) == UpdateSpec(old(table), key, lease, expected, now)
    {
      var item := WithUpdatedMetadata(lease, now);
      if expected.Some? {
        var expectedTime := EditTime(expected.value);
        if expectedTime.None? {
          return Refused(MissingStamp);
        }
        if !(key in table && EditTime(table[key]) == expectedTime) {
          return Refused(ConcurrentDataModification);
        }
        result := Written(PutResult(table[key], item));
        table := table[key := item];
      } else {
        if key !in table {
          return Refused(UnknownItem);
        }
        result := Written(PutResult(table[key], item));
        table := table[key := item];
      }
    }

    method Create(key: LeaseKey, lease: Lease, now: int) returns (created: Option<Lease>)
      modifies this
      ensures key in old(table) ==> created.None? && table == old(table)
      ensures key !in old(table) ==>
                && created == Some(WithUpdatedMetadata(lease, now))
                && table == old(table)[key := created.value]
    {
      if key in table {
        return None;
      }
      created := Some(WithUpdatedMetadata(lease, now));
      table := table[key := created.value];
    }

    method Delete(key: LeaseKey) returns (deleted: Option<Lease>)
      modifies this
      ensures table == old(table) - {key}
      ensures deleted == if key in old(table) then Some(old(table)[key]) else None
    {
      deleted := if key in table then Some(table[key]) else None;
      table := table - {key};
    }

    method Write(w: TimedWrite)
      modifies this
      ensures table == ApplyWrite(old(table), w)
    {
      match w.write
      case UpdateWrite(key, lease, expected) => var _ := Update(key, lease, expected, w.time);
      case CreateWrite(key, lease) => var _ := Create(key, lease, w.time);
      case DeleteWrite(key) => var _ := Delete(key);
    }

    /**
      The update of a transaction that is undone in the end: an unconditional update, then what `others` write, then the
      old item, provided the new one is still stored.
     */
    method UpdateAndRollBack(key: LeaseKey, lease: Lease, t0: int, others: seq<TimedWrite>, t1: int)
      returns (begun: WriteResult, undone: WriteResult)
      modifies this
      ensures (begun, undone, table) == UndoneUpdate(old(table), key, lease, t0, others, t1)
    {
      begun := Update(key, lease, None, t0);
      ghost var written := table;
      var i := 0;
      while i < |others|
        invariant 0 <= i <= |others|
        invariant ApplyAll(written, others) == ApplyAll(table, others[i..])
      {
        assert others[i..][0] == others[i] && others[i..][1..] == others[i + 1..];
        Write(others[i]);
        i := i + 1;
      }
      undone := begun;
      if begun.Written? {
        undone := Update(key, begun.put.oldItem, Some(begun.put.newItem), t1);
      }
    }
  }

  // ----- What other writers may do between a begin and its rollback -----

  datatype Write =
    | UpdateWrite(key: LeaseKey, lease: Lease, expected: Option<Lease>)
    | CreateWrite(key: LeaseKey, lease: Lease)
    | DeleteWrite(key: LeaseKey)

  datatype TimedWrite = TimedWrite(write: Write, time: int)

  function ApplyWrite(table: Table, w: TimedWrite): Table {
    match w.write
    case UpdateWrite(key, lease, expected) => UpdateSpec(table, key, lease, expected, w.time).1
    case CreateWrite(key, lease) => if key in table then table else table[key := WithUpdatedMetadata(lease, w.time)]
    case DeleteWrite(key) => table - {key}
  }

  function ApplyAll(table: Table, history: seq<TimedWrite>): Table
    decreases |history|
  {
    if history == [] then table else ApplyAll(ApplyWrite(table, history[0]), history[1..])
  }

  /** The write changes the row of `key`: it is addressed to it and its condition holds. */
  predicate Touches(table: Table, w: TimedWrite, key: LeaseKey) {
    && w.write.key == key
    && match w.write {
         case UpdateWrite(k, lease, expected) => UpdateSpec(table, k, lease, expected, w.time).0.Written?
         case CreateWrite(k, lease) => k !in table
         case DeleteWrite(k) => k in table
       }
  }

  /** Some write of the history reaches the row of `key`. */
  predicate Touched(table: Table, history: seq<TimedWrite>, key: LeaseKey)
    decreases |history|
  {
    history != [] && (Touches(table, history[0], key) || Touched(ApplyWrite(table, history[0]), history[1..], key))
  }

  /** Every write carries a time after `since`, and the times strictly advance. */
  predicate Advancing(history: seq<TimedWrite>, since: int) {
    history != [] ==> since < history[0].time && Advancing(history[1..], history[0].time)
  }

  /** The answers of the update and of its rollback, with what others write in between, and the table in the end. */
  function UndoneUpdate(table: Table, key: LeaseKey, lease: Lease, t0: int, others: seq<TimedWrite>, t1: int)
    : (WriteResult, WriteResult, Table)
  {
    var (begun, written) := UpdateSpec(table, key, lease, None, t0);
    var between := ApplyAll(written, others);
    if begun.Refused? then (begun, begun, between)
    else
      var (undone, after) := UpdateSpec(between, key, begun.put.oldItem, Some(begun.put.newItem), t1);
      (begun, undone, after)
  }

  lemma {:induction false} UntouchedRowIsKept(table: Table, history: seq<TimedWrite>, key: LeaseKey)
    requires !Touched(table, history, key)
    ensures key in ApplyAll(table, history) <==> key in table
    ensures key in table ==> ApplyAll(table, history)[key] == table[key]
    decreases |history|
  {
    if history != [] {
      UntouchedRowIsKept(ApplyWrite(table, history[0]), history[1..], key);
    }
  }

  /** Once a row was touched after `since`, it is gone or bears a later stamp, whatever follows. */
  lemma {:induction false} TouchedRowIsNewer(table: Table, history: seq<TimedWrite>, key: LeaseKey, since: int)
    requires Advancing(history, since)
    requires
      || Touched(table, history, key)
      || key !in table
      || (EditTime(table[key]).Some? && since < EditTime(table[key]).value)
    ensures var after := ApplyAll(table, history);
            key !in after || (EditTime(after[key]).Some? && since < EditTime(after[key]).value)
    decreases |history|
  {
    if history != [] {
      var next := ApplyWrite(table, history[0]);
      AdvancingWeaken(history[1..], since, history[0].time);
      TouchedRowIsNewer(next, history[1..], key, since);
    }
  }

  lemma {:induction false} AdvancingWeaken(history: seq<TimedWrite>, since: int, later: int)
    requires since <= later && Advancing(history, later)
    ensures Advancing(history, since)
  {
  }

  /**
    The law of the invertible lease update. Between `begin` at `t0` and the rollback at `t1` any number of other writes
    happen, with strictly advancing times. The rollback succeeds exactly when none of them reached the lease; it then
    restores every field but the edit stamp. Otherwise it is refused and the table of the other writers stands.
   */
  lemma RollbackRestoresOrRefuses(
    table: Table, key: LeaseKey, lease: Lease, t0: int, others: seq<TimedWrite>, t1: int)
    requires key in table
    requires Advancing(others, t0)
    ensures var (begun, undone, after) := UndoneUpdate(table, key, lease, t0, others, t1);
            var written := UpdateSpec(table, key, lease, None, t0).1;
            var between := ApplyAll(written, others);
            && begun.Written?
            && (undone.Written? <==> !Touched(written, others, key))
            && (undone.Written? ==>
                  && after == between[key := WithUpdatedMetadata(table[key], t1)]
                  && SameContent(after[key], table[key]))
            && (undone.Refused? ==> undone.error == ConcurrentDataModification && after == between)
  {
    var written := UpdateSpec(table, key, lease, None, t0).1;
    if Touched(written, others, key) {
      TouchedRowIsNewer(written, others, key, t0);
    } else {
      UntouchedRowIsKept(written, others, key);
    }
  }

  /** The last of the writes that reached the row of `key`. */
  function LastWrite(table: Table, history: seq<TimedWrite>, key: LeaseKey): Option<TimedWrite>
    decreases |history|
  {
    if history == [] then None
    else
      var later := LastWrite(ApplyWrite(table, history[0]), history[1..], key);
      if later.Some? then later
      else if Touches(table, history[0], key) then Some(history[0]) else None
  }

  /** The row is what the last write that reached it made of it. */
  lemma {:induction false} LastWriteStands(table: Table, history: seq<TimedWrite>, key: LeaseKey)
    ensures var after, last := ApplyAll(table, history), LastWrite(table, history, key);
            && (last.None? ==> (key in after <==> key in table) && (key in table ==> after[key] == table[key]))
            && (last.Some? && last.value.write.DeleteWrite? ==> key !in after)
            && (last.Some? && !last.value.write.DeleteWrite? ==>
                  && key in after && SameContent(after[key], last.value.write.lease)
                  && EditTime(after[key]) == Some(last.value.time))
    decreases |history|
  {
    if history != [] {
      LastWriteStands(ApplyWrite(table, history[0]), history[1..], key);
    }
  }

  /**
    All that the rollback compares is the stamp. For any other writes, whatever their times: it succeeds iff the last one
    that reached the lease did not delete it and bears the very time of the update. What that write stored is lost then,
    for the content from before the update.
   */
  lemma RollbackOverwritesExactlyEqualStamps(
    table: Table, key: LeaseKey, lease: Lease, t0: int, others: seq<TimedWrite>, t1: int)
    requires key in table
    ensures var (begun, undone, after) := UndoneUpdate(table, key, lease, t0, others, t1);
            var written := UpdateSpec(table, key, lease, None, t0).1;
            var between, last := ApplyAll(written, others), LastWrite(written, others, key);
            && (undone.Written? <==> last.None? || (!last.value.write.DeleteWrite? && last.value.time == t0))
            && (undone.Written? ==> after == between[key := WithUpdatedMetadata(table[key], t1)])
            && (undone.Refused? ==> after == between)
            && (last.Some? && !last.value.write.DeleteWrite? ==>
                  && key in between && SameContent(between[key], last.value.write.lease)
                  && SameContent(after[key], if last.value.time == t0 then table[key] else last.value.write.lease))
  {
    LastWriteStands(UpdateSpec(table, key, lease, None, t0).1, others, key);
  }
}
