/**
 * Client methods on fresh registries, each with the outcome proved from the
 * registry's contracts.  Type 1 is OBJ_NAME_TYPE_MD_METH
 * and type 2 OBJ_NAME_TYPE_CIPHER_METH of objects.h.
 */
module Scenarios {
  import opened NameSpec
  import opened ObjNames

  /**
   * A -> B -> C aliases with C canonical: a plain get of A follows both
   * redirections, while a get with the alias flag returns A's own data.
   */
  method AliasChain() returns (resolved: Option<string>, literal: Option<string>)
    ensures resolved == Some("X")
    ensures literal == Some("B")
  {
    AliasFlagSplits(1);
    var reg := new Registry();
    var ok := reg.Add("C", 1, "X", true, true, true);
    ok := reg.Add("B", 1 + AliasBit, "C", true, true, true);
    ok := reg.Add("A", 1 + AliasBit, "B", true, true, true);
    assert reg.table == map[Key(1, "C") := Entry(false, "X"), Key(1, "B") := Entry(true, "C"),
                            Key(1, "A") := Entry(true, "B")];
    assert Retrieve(reg.table, 1, "B", 8) == Some("X");
    resolved := reg.Get(Some("A"), 1, true);
    literal := reg.Get(Some("A"), 1 + AliasBit, true);
  }

  /** An alias naming itself: the eleventh redirection gives up, so nothing is found. */
  method SelfAlias() returns (r: Option<string>)
    ensures r == None
  {
    AliasFlagSplits(1);
    var reg := new Registry();
    var ok := reg.Add("A", 1 + AliasBit, "A", true, true, true);
    SelfAliasNotFound(reg.table, 1, "A", MaxAliasHops);
    r := reg.Get(Some("A"), 1, true);
  }

  /**
   * Two type allocations with a full cleanup between them, which frees the
   * table and the handler stack, hand out distinct ids.
   */
  method IdsNeverReused() returns (first: int, second: int, tornDown: bool)
    ensures NameTypeNum <= first < second
    ensures tornDown
  {
    var reg := new Registry();
    var ok := reg.Init(true);
    first := reg.NewIndex(None, None, None, true, 10);
    var _ := reg.Cleanup(-1);
    tornDown := !reg.tableLive && !reg.stackLive && reg.handlers == [];
    second := reg.NewIndex(None, None, None, true, 10);
  }

  /**
   * Replacing an entry of a type registered with free function 7 calls it once
   * with the old name, type and data; the new data is what get returns.
   */
  method ReplaceFreesOnce() returns (r: Option<string>, ghost events: seq<FreeEvent>)
    ensures r == Some("new")
    ensures events == [FreeEvent(7, "k", NameTypeNum, "old")]
  {
    var reg := new Registry();
    var t := reg.NewIndex(None, None, Some(7), true, 10);
    var ok := reg.Add("k", t, "old", true, true, true);
    ok := reg.Add("k", t, "new", true, true, true);
    events := reg.freed;
    r := reg.Get(Some("k"), t, true);
  }

  /**
   * A cleanup of type 1 leaves type 2 intact; a full cleanup then empties the
   * registry, which a fresh init brings back empty.
   */
  method ScopedThenFullCleanup() returns (kept: Option<string>, gone: Option<string>, after: Option<string>)
    ensures kept == Some("cipher") && gone == None && after == None
  {
    var reg := new Registry();
    var ok := reg.Add("SHA256", 1, "digest", true, true, true);
    ok := reg.Add("AES", 2, "cipher", true, true, true);
    var _ := reg.Cleanup(1);
    kept := reg.Get(Some("AES"), 2, true);
    gone := reg.Get(Some("SHA256"), 1, true);
    var _ := reg.Cleanup(-1);
    ok := reg.Init(true);
    after := reg.Get(Some("AES"), 2, true);
  }

  /**
   * Once any type has been allocated, the built-in slots 0..4 hold NULL
   * free functions, so replacing (or removing) an entry of type 1 makes the
   * code as written call through NULL.
   */
  method NullFreeOnBuiltinType() returns (d: FreeDispatch)
    ensures d == NullCall
  {
    var reg := new Registry();
    var t := reg.NewIndex(None, None, Some(7), true, 10);
    var ok := reg.Add("SHA256", 1, "digest", true, true, true);
    d := FreeDispatchAsWritten(reg.stackLive, reg.handlers, Key(1, "SHA256"), reg.table[Key(1, "SHA256")]);
  }
}
