/** `Streams` of `cli/src/rpc.rs` as a class over its mutex-guarded map. Each method body that the
    source runs under the lock is proved equal to the lock region of `StreamMux`, and the write loop,
    when nothing else touches its stream, is proved to deliver the whole queue in order. */
module StreamTable {
  import opened Common
  import opened StreamMux

  /** The first `limit` elements, or all of them. */
  function Cut<T>(limit: Option<nat>, s: seq<T>): seq<T> {
    if limit.Some? && limit.value < |s| then s[..limit.value] else s
  }

  lemma CutAppend<T>(limit: Option<nat>, a: seq<T>, b: seq<T>, c: seq<T>)
    requires Cut(limit, a) == a
    ensures Cut(limit, a + b) != a + b ==> Cut(limit, a + (b + c)) == Cut(limit, a + b)
    ensures a + (b + c) == (a + b) + c
  {
  }

  /** A write half whose reader goes away after `limit` bytes, if ever; from then on it fails. */
  class WriteHalf {
    const limit: Option<nat>
    var delivered: seq<byte>
    var shutdowns: nat

    constructor (limit: Option<nat>)
      ensures this.limit == limit && delivered == [] && shutdowns == 0
    {
      this.limit := limit;
      delivered := [];
      shutdowns := 0;
    }

    ghost predicate Valid()
      reads this
    {
      Cut(limit, delivered) == delivered
    }

    method WriteAll(item: seq<byte>) returns (ok: bool)
      requires Valid()
      modifies this`delivered
      ensures Valid() && delivered == Cut(limit, old(delivered) + item)
      ensures ok <==> delivered == old(delivered) + item
    {
      ok := limit == None || |delivered| + |item| <= limit.value;
      delivered := if ok then delivered + item else (delivered + item)[..limit.value];
    }

    method Shutdown()
      modifies this`shutdowns
      ensures shutdowns == old(shutdowns) + 1
    {
      shutdowns := shutdowns + 1;
    }
  }

  class Streams {
    var table: map<nat, StreamRec<WriteHalf>>

    constructor ()
      ensures table == map[]
    {
      table := map[];
    }

    function Slot(id: nat): Slot<WriteHalf>
      reads this
    {
      if id in table then Some(table[id]) else None
    }

    method Insert(id: nat, stream: WriteHalf)
      modifies this
      ensures Slot(id) == InsertRec(stream) && table - {id} == old(table) - {id}
    {
      table := table[id := StreamRec(Some(stream), [], false)];
    }

    /** Returns the half for which the source spawns a write loop. */
    method Write(id: nat, buf: seq<byte>) returns (spawned: Option<WriteHalf>)
      modifies this
      ensures (Slot(id), spawned) == WriteRec(old(Slot(id)), buf) && table - {id} == old(table) - {id}
    {
      spawned := None;
      if id in table {
        var s := table[id];
        s := s.(q := s.q + [buf]);
        if s.write.Some? {
          spawned := s.write;
          s := s.(write := None);
        }
        table := table[id := s];
      }
    }

    method Remove(id: nat)
      modifies this
      modifies if id in table && table[id].write.Some? then {table[id].write.value} else {}
      ensures Slot(id) == RemoveRec(old(Slot(id))).0 && table - {id} == old(table) - {id}
      ensures var w := RemoveRec(old(Slot(id))).1;
              w.Some? ==> w.value.shutdowns == old(if w.Some? then w.value.shutdowns else 0) + 1
                          && w.value.delivered == old(if w.Some? then w.value.delivered else [])
    {
      var removed: Option<WriteHalf> := None;
      if id in table {
        var s := table[id];
        if s.write.Some? {
          table := table - {id};
          removed := s.write;
        } else {
          table := table[id := s.(ended := true)];
        }
      }
      if removed.Some? {
        removed.value.Shutdown();
      }
    }

    /** The locked block of `write_loop`: `itemsVec` is swapped with the queue when there is one. */
    method TakeTurn(id: nat, w: WriteHalf, itemsVec: seq<seq<byte>>) returns (turn: Turn, items: seq<seq<byte>>)
      requires itemsVec == []
      modifies this
      ensures (Slot(id), turn) == TurnRec(old(Slot(id)), w) && table - {id} == old(table) - {id}
      ensures items == if turn.Batch? then turn.items else []
    {
      items := itemsVec;
      if id !in table {
        return Missing, items;
      }
      var rec := table[id];
      if rec.q == [] {
        if rec.ended {
          table := table - {id};
          return Finished, items;
        }
        table := table[id := rec.(write := Some(w))];
        return Parked, items;
      }
      items := rec.q;
      table := table[id := rec.(q := itemsVec)];
      turn := Batch(items);
    }

    /** The `for` loop of `write_loop`: it stops at the first failing item and drops the others. */
    method Drain(w: WriteHalf, items: seq<seq<byte>>)
      requires w.Valid()
      modifies w`delivered
      ensures w.Valid() && w.delivered == Cut(w.limit, old(w.delivered) + Flatten(items))
    {
      ghost var start := w.delivered;
      for i := 0 to |items|
        invariant w.Valid() && w.delivered == start + Flatten(items[..i])
      {
        assert items[..i+1] == items[..i] + [items[i]] && items == items[..i+1] + items[i+1..];
        FlattenPush(items[..i], items[i]);
        FlattenAppend(items[..i+1], items[i+1..]);
        CutAppend(w.limit, w.delivered, items[i], Flatten(items[i+1..]));
        assert start + Flatten(items) == w.delivered + (items[i] + Flatten(items[i+1..]));
        var ok := w.WriteAll(items[i]);
        if !ok {
          return;
        }
        assert w.delivered == start + Flatten(items[..i+1]);
      }
      assert items[..|items|] == items;
    }

    /** `write_loop` when no other task touches the stream meanwhile: the whole queue is written in
        order (up to the point where the half fails), and then the half is back in the record, or,
        if the stream had ended, the record is gone and the half was shut down. */
    method WriteLoop(id: nat, w: WriteHalf)
      requires w.Valid()
      modifies this, w
      ensures table - {id} == old(table) - {id}
      ensures id in old(table) ==> w.delivered == Cut(w.limit, old(w.delivered) + Flatten(old(table)[id].q))
      ensures id in old(table) && !old(table)[id].ended ==> Slot(id) == InsertRec(w) && w.shutdowns == old(w.shutdowns)
      ensures id !in old(table) || old(table)[id].ended ==> Slot(id) == None && w.shutdowns == old(w.shutdowns) + 1
      ensures id !in old(table) ==> w.delivered == old(w.delivered)
    {
      var itemsVec: seq<seq<byte>> := [];
      var running := true;
      while running
        invariant itemsVec == [] && w.Valid() && w.shutdowns == old(w.shutdowns)
        invariant table - {id} == old(table) - {id}
        invariant running ==> (id in table <==> id in old(table))
        invariant !running ==> id !in table && (id in old(table) ==> old(table)[id].ended)
        invariant running && id in table ==> table[id].ended == old(table)[id].ended
        invariant id in old(table) ==>
                    Cut(w.limit, w.delivered + Flatten(if id in table then table[id].q else [])) ==
                    Cut(w.limit, old(w.delivered) + Flatten(old(table)[id].q))
        invariant id !in old(table) ==> w.delivered == old(w.delivered)
        decreases running, if id in table then |table[id].q| else 0
      {
        var turn;
        turn, itemsVec := TakeTurn(id, w, itemsVec);
        match turn
        case Missing => running := false;
        case Finished => running := false;
        case Parked => return;
        case Batch(_) =>
          Drain(w, itemsVec);
          itemsVec := [];
      }
      w.Shutdown();
    }
  }
}
