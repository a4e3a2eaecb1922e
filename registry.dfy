/**
 * The process-wide state of crypto/objects/o_names.c as one object: the
 * name table `names_lh`, the handler stack `name_funcs_stack` and the type
 * counter `names_type_num`, with the operations that update them in place.
 * A NULL table or stack is a `false` liveness flag.  Calls of the caller's
 * free_func are recorded, in order, in the ghost log `freed`.  Allocation
 * outcomes, which the source cannot control, are parameters.
 */
module ObjNames {
  import opened StringOrder
  import opened NameSpec

  /**
   * The retrieve loop of OBJ_NAME_get on an initialised table: look the
   * current name up at the base type and, while the entry is an alias and
   * the flag was not given, redirect to its data, giving up after more than
   * ten redirections.
   */
  method FollowAliases(tbl: Table, name: string, typ: int) returns (r: Option<string>)
    ensures r == Lookup(tbl, name, typ)
  {
    var alias := HasAlias(typ);
    var base := ClearAlias(typ);
    var cur := name;
    var num := 0;
    while true
      invariant 0 <= num <= MaxAliasHops
      invariant alias ==> num == 0 && cur == name
      invariant !alias ==> Lookup(tbl, name, typ) == Retrieve(tbl, base, cur, MaxAliasHops - num)
      decreases MaxAliasHops - num
    {
      var k := Key(base, cur);
      if k !in tbl {
        return None;
      }
      var e := tbl[k];
      if e.alias && !alias {
        num := num + 1;
        if num > MaxAliasHops {
          return None;
        }
        cur := e.data;
      } else {
        return Some(e.data);
      }
    }
  }

  class Registry {
    /** names_lh is non-NULL. */
    var tableLive: bool
    /** The contents of names_lh. */
    var table: Table
    /** name_funcs_stack is non-NULL. */
    var stackLive: bool
    /** The records on name_funcs_stack, indexed by type. */
    var handlers: seq<Handler>
    /** names_type_num: the id the next OBJ_NAME_new_index hands out. */
    var typeNum: int
    /** Every call of a free_func so far, in order. */
    ghost var freed: seq<FreeEvent>

    ghost predicate Valid()
      reads this
    {
      && (!tableLive ==> table == map[])
      && (!stackLive ==> handlers == [])
      && NameTypeNum <= typeNum
      && |handlers| <= typeNum
      && (forall k :: k in table ==> !HasAlias(k.typ))
    }

    /** The static initial state: no table, no stack, counter at OBJ_NAME_TYPE_NUM. */
    constructor ()
      ensures Valid()
      ensures !tableLive && !stackLive && table == map[] && handlers == []
      ensures typeNum == NameTypeNum && freed == []
    {
      tableLive, table := false, map[];
      stackLive, handlers := false, [];
      typeNum := NameTypeNum;
      freed := [];
    }

    /**
     * OBJ_NAME_init: succeeds without change when the table exists, otherwise
     * creates an empty one if the allocation succeeds.
     */
    method Init(allocOk: bool) returns (ok: bool)
      requires Valid()
      modifies this
      ensures Valid()
      ensures old(tableLive) ==> ok && unchanged(this)
      ensures !old(tableLive) ==> ok == allocOk && tableLive == allocOk && table == map[]
      ensures stackLive == old(stackLive) && handlers == old(handlers)
      ensures typeNum == old(typeNum) && freed == old(freed)
    {
      if tableLive {
        return true;
      }
      tableLive := allocOk;
      table := map[];
      ok := tableLive;
    }

    /**
     * OBJ_NAME_new_index: creates the stack if needed, takes the counter as the
     * new id and increments it, pushes default records up to the new id and
     * writes the non-NULL functions into the id's slot.  `stackOk` is whether
     * creating the stack succeeds; `recordAllocs` is how many record
     * allocations succeed before one fails.  A failed record allocation
     * returns 0 but keeps the increment and the records already pushed.
     */
    method NewIndex(hash: Option<nat>, cmp: Option<nat>, free: Option<nat>, stackOk: bool, recordAllocs: nat)
      returns (r: int)
      requires Valid()
      modifies this
      ensures Valid()
      ensures tableLive == old(tableLive) && table == old(table) && freed == old(freed)
      ensures !old(stackLive) && !stackOk ==> r == 0 && unchanged(this)
      ensures old(stackLive) || stackOk ==> stackLive && typeNum == old(typeNum) + 1
      ensures old(stackLive) || stackOk ==> (r != 0 <==> recordAllocs >= typeNum - |old(handlers)|)
      ensures (old(stackLive) || stackOk) && r != 0 ==>
                && r == old(typeNum) && |handlers| == typeNum
                && ExtendedWithDefaults(old(handlers), handlers[..r])
                && handlers[r] == Configure(DefaultHandler, hash, cmp, free)
      ensures (old(stackLive) || stackOk) && r == 0 ==>
                ExtendedWithDefaults(old(handlers), handlers) && |handlers| == |old(handlers)| + recordAllocs
    {
      if !stackLive {
        if !stackOk {
          return 0;
        }
        stackLive := true;
      }
      r := typeNum;
      typeNum := typeNum + 1;
      var i := |handlers|;
      var allocs: nat := recordAllocs;
      while i < typeNum
        invariant |old(handlers)| <= i <= typeNum
        invariant |handlers| == i
        invariant ExtendedWithDefaults(old(handlers), handlers)
        invariant allocs + (i - |old(handlers)|) == recordAllocs
        invariant stackLive && tableLive == old(tableLive) && table == old(table)
        invariant typeNum == old(typeNum) + 1 && r == old(typeNum) && freed == old(freed)
      {
        if allocs == 0 {
          return 0;
        }
        allocs := allocs - 1;
        handlers := handlers + [DefaultHandler];
        i := i + 1;
      }
      assert handlers[r] == DefaultHandler;
      handlers := handlers[r := Configure(handlers[r], hash, cmp, free)];
    }

    /**
     * OBJ_NAME_get: a NULL name finds nothing; otherwise the table is created
     * if missing (`initOk` is whether that succeeds) and the retrieve loop
     * runs.  The table itself is never changed.
     */
    method Get(name: Option<string>, typ: int, initOk: bool) returns (r: Option<string>)
      requires Valid()
      modifies this
      ensures Valid()
      ensures name.None? ==> r == None && unchanged(this)
      ensures name.Some? ==>
                && tableLive == (old(tableLive) || initOk)
                && r == (if tableLive then Lookup(table, name.value, typ) else None)
      ensures table == old(table) && stackLive == old(stackLive) && handlers == old(handlers)
      ensures typeNum == old(typeNum) && freed == old(freed)
    {
      if name.None? {
        return None;
      }
      if !tableLive {
        var ok := Init(initOk);
        if !ok {
          return None;
        }
      }
      r := FollowAliases(table, name.value, typ);
    }

    /**
     * OBJ_NAME_add: stores (alias flag, data) under (type without the flag,
     * name).  An entry already there is replaced and its free_func called; a
     * replacement cannot fail at the insert, only at the record allocation.  `initOk`, `entryOk` and `insertOk` are whether
     * creating the table, allocating the record and inserting a new key succeed.
     */
    method Add(name: string, typ: int, data: string, initOk: bool, entryOk: bool, insertOk: bool)
      returns (ok: bool)
      requires Valid()
      modifies this
      ensures Valid()
      ensures var k := Key(ClearAlias(typ), name);
              && tableLive == (old(tableLive) || initOk)
              && ok == (tableLive && entryOk && (k in old(table) || insertOk))
              && table == (if ok then old(table)[k := Entry(HasAlias(typ), data)] else old(table))
              && freed == old(freed) + (if ok && k in old(table) then FreeCall(handlers, k, old(table)[k]) else [])
      ensures stackLive == old(stackLive) && handlers == old(handlers) && typeNum == old(typeNum)
    {
      if !tableLive {
        ok := Init(initOk);
        if !ok {
          return false;
        }
      }
      var k := Key(ClearAlias(typ), name);
      if !entryOk {
        return false;
      }
      if k in table {
        var evicted := table[k];
        table := table[k := Entry(HasAlias(typ), data)];
        freed := freed + FreeCall(handlers, k, evicted);
      } else {
        if !insertOk {
          return false;
        }
        table := table[k := Entry(HasAlias(typ), data)];
      }
      ok := true;
    }

    /**
     * OBJ_NAME_remove: ignores the alias flag, deletes the entry under
     * (type, name) and calls its free_func; fails without change when there is
     * no table or no such entry.
     */
    method Remove(name: string, typ: int) returns (ok: bool)
      requires Valid()
      modifies this
      ensures Valid()
      ensures var k := Key(ClearAlias(typ), name);
              && ok == (old(tableLive) && k in old(table))
              && table == old(table) - {k}
              && freed == old(freed) + (if ok then FreeCall(handlers, k, old(table)[k]) else [])
      ensures tableLive == old(tableLive) && stackLive == old(stackLive)
      ensures handlers == old(handlers) && typeNum == old(typeNum)
    {
      if !tableLive {
        return false;
      }
      var k := Key(ClearAlias(typ), name);
      if k !in table {
        return false;
      }
      var evicted := table[k];
      table := table - {k};
      freed := freed + FreeCall(handlers, k, evicted);
      ok := true;
    }

    /**
     * OBJ_NAME_do_all: walks the table in its own order and passes on, via
     * do_all_fn, every record whose stored type equals `typ`.  The result is
     * the sequence of callback arguments.
     */
    method DoAll(typ: int) returns (visits: seq<ObjName>)
      requires Valid() && tableLive
      ensures forall o :: o in visits <==> o in EntriesOf(table, typ)
      ensures NoDuplicates(visits)
      ensures |visits| <= |table|
    {
      visits := [];
      var rest := table.Keys;
      while rest != {}
        invariant rest <= table.Keys
        invariant forall o :: o in visits <==>
                    (KeyOf(o) in table && KeyOf(o) !in rest && o.typ == typ
                     && o == Record(KeyOf(o), table[KeyOf(o)]))
        invariant NoDuplicates(visits)
        invariant |visits| + |rest| <= |table|
        decreases |rest|
      {
        var k :| k in rest;
        rest := rest - {k};
        if k.typ == typ {
          visits := visits + [Record(k, table[k])];
        }
      }
    }

    /**
     * OBJ_NAME_do_all_sorted: allocates a scratch array as large as the table
     * (`allocOk` is whether that succeeds; if not, nothing is visited), fills
     * it through do_all_sorted_fn, puts it in strcmp order of name and visits
     * it in that order.
     */
    method DoAllSorted(typ: int, allocOk: bool) returns (visits: seq<ObjName>)
      requires Valid() && tableLive
      ensures !allocOk ==> visits == []
      ensures allocOk ==> forall o :: o in visits <==> o in EntriesOf(table, typ)
      ensures SortedByName(visits)
      ensures NoDuplicates(visits)
    {
      if !allocOk {
        return [];
      }
      var names := new ObjName[|table|];
      var n := 0;
      var all := DoAll(typ);
      var i := 0;
      while i < |all|
        invariant 0 <= n == i <= |all|
        invariant names[..n] == all[..i]
      {
        assert all[i] in EntriesOf(table, typ);
        if all[i].typ == typ {
          names[n] := all[i];
          n := n + 1;
        }
        i := i + 1;
      }
      assert names[..n] == all;
      forall j, m | 0 <= j < m < n ensures names[j].name != names[m].name {
        assert names[j] in EntriesOf(table, typ) && names[m] in EntriesOf(table, typ);
      }
      visits := SortByName(names[..n]);
      assert forall o :: o in visits <==> o in multiset(names[..n]);
      SortedHasNoDuplicates(visits);
    }

    /**
     * names_lh_free_doall: the cleanup walk's step for one entry, removing it
     * through OBJ_NAME_remove when the cleanup type selects it.
     */
    method FreeDoAll(k: Key, freeType: int)
      requires Valid() && tableLive && k in table
      modifies this
      ensures Valid() && tableLive
      ensures table == if Selected(freeType, k) then old(table) - {k} else old(table)
      ensures freed == old(freed) + if Selected(freeType, k) then FreeCall(handlers, k, old(table)[k]) else []
      ensures stackLive == old(stackLive) && handlers == old(handlers) && typeNum == old(typeNum)
    {
      if Selected(freeType, k) {
        assert ClearAlias(k.typ) == k.typ;
        var _ := Remove(k.name, k.typ);
      }
    }

    /**
     * The walk lh_OBJ_NAME_doall(names_lh, names_lh_free_doall) of
     * OBJ_NAME_cleanup, over a snapshot of the keys: every selected entry is
     * removed with its free_func called, in the order `removed` of the walk.
     */
    method SweepTable(freeType: int) returns (ghost removed: seq<Key>)
      requires Valid() && tableLive
      modifies this
      ensures Valid() && tableLive
      ensures forall k :: k in removed <==> k in old(table) && Selected(freeType, k)
      ensures forall i, j :: 0 <= i < j < |removed| ==> removed[i] != removed[j]
      ensures freed == FreeLog(old(freed), old(handlers), old(table), removed)
      ensures table == if freeType < 0 then map[] else Prune(old(table), freeType)
      ensures stackLive == old(stackLive) && handlers == old(handlers) && typeNum == old(typeNum)
    {
      removed := [];
      ghost var before := table;
      ghost var log := freed;
      var rest := table.Keys;
      while rest != {}
        invariant Valid() && tableLive
        invariant stackLive == old(stackLive) && handlers == old(handlers) && typeNum == old(typeNum)
        invariant rest <= before.Keys
        invariant table == Remaining(before, rest, freeType)
        invariant forall k :: k in removed <==> k in before && k !in rest && Selected(freeType, k)
        invariant forall i, j :: 0 <= i < j < |removed| ==> removed[i] != removed[j]
        invariant freed == FreeLog(log, handlers, before, removed)
        decreases |rest|
      {
        var k :| k in rest;
        RemainingStep(before, rest, freeType, k);
        assert k in table && table[k] == before[k];
        if Selected(freeType, k) {
          FreeLogAppend(log, handlers, before, removed, k);
          FreeDoAll(k, freeType);
          removed := removed + [k];
        } else {
          FreeDoAll(k, freeType);
        }
        rest := rest - {k};
      }
      RemainingDone(before, freeType);
    }

    /**
     * OBJ_NAME_cleanup: with no table, nothing.  Otherwise every entry whose
     * type is selected (all of them for a negative type) is removed through
     * OBJ_NAME_remove, which calls its free_func.  A negative type then frees
     * the table and the stack; the counter is kept, so ids are never reused.
     * `removed` is the order in which the table walk reached the entries.
     */
    method Cleanup(typ: int) returns (ghost removed: seq<Key>)
      requires Valid()
      modifies this
      ensures Valid()
      ensures !old(tableLive) ==> unchanged(this) && removed == []
      ensures old(tableLive) ==>
                && (forall k :: k in removed <==> k in old(table) && Selected(typ, k))
                && (forall i, j :: 0 <= i < j < |removed| ==> removed[i] != removed[j])
                && freed == FreeLog(old(freed), old(handlers), old(table), removed)
      ensures old(tableLive) && typ < 0 ==>
                !tableLive && table == map[] && !stackLive && handlers == []
      ensures old(tableLive) && typ >= 0 ==>
                && tableLive && table == Prune(old(table), typ)
                && stackLive == old(stackLive) && handlers == old(handlers)
      ensures typeNum == old(typeNum)
    {
      if !tableLive {
        return [];
      }
      removed := SweepTable(typ);
      if typ < 0 {
        tableLive, table := false, map[];
        stackLive, handlers := false, [];
      }
    }
  }
}
