# OpenSSL named-object registry (`crypto/objects/o_names.c`)

This project is a Dafny model of OpenSSL's process-wide registry of named objects, with proofs about it. Digests, ciphers and other
"kinds" of objects are stored by name under an integer type tag. A name may be an alias whose data is the name it points to.
Callers may allocate new type tags at run time and give each one its own hash, compare and free functions.

- `string_order.dfy`, module `StringOrder`: the sign of `strcmp`, and the facts that make it a strict total order.
- `name_spec.dfy`, module `NameSpec`: values and pure functions. It covers:
  - the type argument and its alias flag (`OBJ_NAME_ALIAS`, bit 15);
  - table keys and entries, and the per-type handler records (`struct name_funcs_st`);
  - the key comparison `obj_name_cmp`;
  - alias resolution, both as the retrieve loop and as a reference definition by hops;
  - the records that enumeration visits, and the strcmp order of the sorted enumeration;
  - the entries that a cleanup selects;
  - the dispatch of the caller's free function.
- `registry.dfy`, module `ObjNames`: the global state `names_lh`, `name_funcs_stack` and `names_type_num`, as the class
  `Registry`. Its methods update that state in place:
  - `Init`, `NewIndex`, `Get`, `Add`, `Remove`;
  - `DoAll`, `DoAllSorted`;
  - the cleanup walk `FreeDoAll` / `SweepTable`, and `Cleanup`.
  A NULL pointer is a `false` liveness flag. Calls of the caller's free function are recorded in order in a ghost log,
  `freed`.
- `scenarios.dfy`, module `Scenarios`: client methods on fresh registries, each with its outcome proved from the contracts.

Modelling choices:

- Names and data pointers are strings.
- Caller-supplied functions are named by a `nat` id.
- Whether an allocation succeeds is a parameter:
  - `allocOk`, `initOk`, `entryOk`, `insertOk`, `stackOk`;
  - `recordAllocs` counts the record allocations that succeed before one fails.
- The constants come from `objects.h`, which is not part of this model: `OBJ_NAME_TYPE_NUM` = 5, `OBJ_NAME_ALIAS` = 0x8000.

Types without a free function:

- Records pushed by `OBJ_NAME_new_index` are zero-filled (line 79), so their `free_func` is NULL.
- Evicting an entry of such a type calls through that NULL (lines 188-196 and 221-229; see "## Findings").
- The model treats a missing free function as a no-op, and keeps the code's behaviour as a separate as-written member.

## Model

| member | source | states |
|---|---|---|
| StringOrder.StrCmp | crypto/objects/o_names.c:279-285 | strcmp's sign is in -1..1 and is zero exactly when the names are equal; a proper prefix sorts first; otherwise the first differing character decides, the smaller code sorting first |
| StringOrder.StrCmpAntisymmetric | crypto/objects/o_names.c:279-285 | swapping the arguments of strcmp negates its result |
| StringOrder.StrCmpTransitive | crypto/objects/o_names.c:279-285 | strcmp order is transitive, as qsort requires of its comparator |
| StringOrder.StrLessTotal | crypto/objects/o_names.c:279-285 | of two distinct names exactly one sorts first |
| NameSpec.HasAlias | crypto/objects/o_names.c:143 | `type & OBJ_NAME_ALIAS` is set exactly when the type, taken modulo 2^16, is at least 2^15 |
| NameSpec.ClearAlias | crypto/objects/o_names.c:143-144 | `type & ~OBJ_NAME_ALIAS` has the alias bit clear and every other bit of the type unchanged |
| NameSpec.AliasFlagSplits | crypto/objects/o_names.c:143-144 | a base type below 2^15, with or without the flag, splits back into the flag and the base |
| NameSpec.HandlerFor | crypto/objects/o_names.c:107-111 | a type with a slot on the stack uses that slot's record; a type without one uses the defaults: strcmp, lh_strhash and no free function |
| NameSpec.Configure | crypto/objects/o_names.c:91-97 | a supplied function is written into the slot, and a NULL argument leaves that field as it was |
| NameSpec.ObjNameCmp | crypto/objects/o_names.c:101-115 | different types compare by their difference; under strcmp the comparison is zero exactly when type and name both match; a custom comparator is consulted only for equal types with an overriding slot |
| NameSpec.ObjNameCmpAntisymmetric | crypto/objects/o_names.c:101-115 | under strcmp, swapping the two keys negates the comparison |
| NameSpec.Retrieve | crypto/objects/o_names.c:149-160 | the retrieve loop at one base type: a missing name finds nothing, and a canonical entry gives its own data |
| NameSpec.Lookup | crypto/objects/o_names.c:143-160 | OBJ_NAME_get on an initialised table: nothing unless the queried name is stored at the base type; with the alias flag, that entry's own data |
| NameSpec.RetrieveByHops | crypto/objects/o_names.c:149-160 | the retrieve loop yields data d exactly when following at most the allowed number of aliases reaches a canonical entry holding d; cycles, dangling aliases and long chains yield nothing |
| NameSpec.SelfAliasNotFound | crypto/objects/o_names.c:149-160 | an alias naming itself is never resolved |
| NameSpec.RetrieveFindsStoredData | crypto/objects/o_names.c:149-160 | a resolved lookup returns the data of a canonical entry stored at the query's base type |
| NameSpec.AddThenLookup | crypto/objects/o_names.c:163-205 | after adding (name, type, data), getting (name, type) returns data, with or without the alias flag |
| NameSpec.RemoveThenLookup | crypto/objects/o_names.c:208-235 | after removing (name, type), getting (name, type) finds nothing |
| NameSpec.EntriesOf | crypto/objects/o_names.c:243-247 | a record is passed on for type t exactly when it is stored and its stored type equals t |
| NameSpec.DoAllSortedCmp | crypto/objects/o_names.c:279-285 | two records compare as equal exactly when their names are equal, compare negative exactly when the first name sorts first by strcmp, and the comparison is antisymmetric |
| NameSpec.InsertByName | crypto/objects/o_names.c:302 | inserting a record into a strictly ascending sequence keeps it ascending and adds exactly that record |
| NameSpec.SortByName | crypto/objects/o_names.c:302 | the sorted scratch array is strictly ascending by strcmp of the names and is a permutation of the collected records |
| NameSpec.SortedHasNoDuplicates | crypto/objects/o_names.c:304-305 | the sorted enumeration visits no record twice |
| NameSpec.Selected | crypto/objects/o_names.c:318 | a negative cleanup type selects every entry; any other selects exactly the entries of that type |
| NameSpec.Prune | crypto/objects/o_names.c:318-319 | a cleanup of type t keeps exactly the entries of the other types, unchanged |
| NameSpec.PruneKeepsRetrieve | crypto/objects/o_names.c:327-345 | removing every entry of type t leaves alias resolution at any other base type unchanged |
| NameSpec.PruneKeepsOtherLookups | crypto/objects/o_names.c:327-345 | a type-scoped cleanup leaves every get on another type unchanged |
| NameSpec.PruneEntries | crypto/objects/o_names.c:327-345 | after a cleanup of t, enumerating t visits nothing and enumerating another type is unchanged |
| NameSpec.FreeDispatchAsWritten | crypto/objects/o_names.c:188-197 | as written, an eviction calls through NULL exactly when the stack exists with more slots than the type and the type has no free function in its slot; otherwise it calls the slot's function or nothing |
| NameSpec.FreeCall | crypto/objects/o_names.c:221-230 | an eviction calls the free function in force for the entry's type once, with the entry's own name, type and data, and calls nothing when the type has none |
| NameSpec.FreeCallAgreesWhereDefined | crypto/objects/o_names.c:188-197 | wherever the code as written does not call through NULL, the corrected dispatch makes the same call |
| NameSpec.FreeLog | crypto/objects/o_names.c:338 | a walk that removes n entries appends at most n free calls to the log and keeps the calls made earlier |
| NameSpec.FreeLogExactlyOnce | crypto/objects/o_names.c:313-320 | a cleanup walk appends as many free calls as there are removed entries whose type has a free function, keeping earlier calls |
| NameSpec.FreeLogEventsBelong | crypto/objects/o_names.c:313-320 | every free call a cleanup walk makes is the call for one of the removed entries, with that entry's own name, type and data |
| NameSpec.FreeLogOnePerKey | crypto/objects/o_names.c:313-320 | over distinct removed entries, each one gets exactly one free call if its type has a free function and none otherwise; entries not removed get none |
| NameSpec.Remaining | crypto/objects/o_names.c:334-338 | part-way through a cleanup walk the table holds the entries not yet reached plus the ones not selected, unchanged |
| NameSpec.RemainingDone | crypto/objects/o_names.c:338-345 | when the walk ends the table is empty for a negative type and otherwise the pruned table |
| ObjNames.FollowAliases | crypto/objects/o_names.c:143-160 | the retrieve loop returns what the reference lookup defines: the exact entry with the alias flag, otherwise the alias chain followed for at most ten redirections |
| ObjNames.Registry.constructor | crypto/objects/o_names.c:28-37 | the static initial state: no table, no handler stack, counter at OBJ_NAME_TYPE_NUM |
| ObjNames.Registry.Init | crypto/objects/o_names.c:48-56 | idempotent: succeeds with no change when the table exists, otherwise succeeds exactly when the table can be created, and then it is empty |
| ObjNames.Registry.NewIndex | crypto/objects/o_names.c:58-99 | fails without change if the stack cannot be created; otherwise returns the counter and increments it, so ids are never reused; it pushes default records up to the new id and writes only the supplied functions into that slot; a failed record allocation returns 0 and keeps the increment and the records already pushed |
| ObjNames.Registry.Get | crypto/objects/o_names.c:133-161 | a NULL name finds nothing; otherwise the table is created lazily and the result is the reference lookup; the table is never changed |
| ObjNames.Registry.Add | crypto/objects/o_names.c:163-206 | the entry is stored under (type without the flag, name) with the flag; a replacement cannot fail at the insert (only the record allocation can fail it) and calls the old entry's free function once; failures leave the table as it was |
| ObjNames.Registry.Remove | crypto/objects/o_names.c:208-235 | ignores the alias flag; succeeds exactly when the entry exists, deletes it and calls its free function once |
| ObjNames.Registry.DoAll | crypto/objects/o_names.c:251-261 | visits exactly the stored records of the requested type, each once |
| ObjNames.Registry.DoAllSorted | crypto/objects/o_names.c:287-309 | visits exactly the records of the type, each once, in strictly ascending strcmp order of name; visits nothing if the scratch array cannot be allocated |
| ObjNames.Registry.FreeDoAll | crypto/objects/o_names.c:313-320 | the cleanup step removes an entry, with its free call, exactly when the cleanup type is negative or equals the entry's type |
| ObjNames.Registry.SweepTable | crypto/objects/o_names.c:334-338 | the walk removes exactly the selected entries, each once, logging their free calls in walk order, and leaves the other entries untouched |
| ObjNames.Registry.Cleanup | crypto/objects/o_names.c:327-346 | nothing without a table; otherwise removes the selected entries with one free call each; a negative type then frees the table and the stack; the type counter is kept |
| Scenarios.AliasChain | crypto/objects/o_names.c:143-160 | with A aliased to B and B aliased to C, getting A returns C's data, while getting A with the alias flag returns A's own data |
| Scenarios.SelfAlias | crypto/objects/o_names.c:149-160 | getting a self-referencing alias returns nothing instead of looping |
| Scenarios.IdsNeverReused | crypto/objects/o_names.c:75-76 | two type allocations on an initialised registry, with a full cleanup between them that frees the table and the stack, return distinct ids at or above OBJ_NAME_TYPE_NUM |
| Scenarios.ReplaceFreesOnce | crypto/objects/o_names.c:185-198 | re-adding a key calls the type's free function exactly once with the old name, type and data; get returns the new data |
| Scenarios.ScopedThenFullCleanup | crypto/objects/o_names.c:327-346 | a cleanup of one type leaves another type's entry gettable; a full cleanup followed by a fresh init leaves nothing |
| Scenarios.NullFreeOnBuiltinType | crypto/objects/o_names.c:77-90 | after one type allocation, replacing or removing an entry of built-in type 1 makes the code as written call through a NULL free function |

## Left out

- `obj_name_hash` (lines 117-131) is not modelled: lh_strhash, custom hash functions and the `^= type` mixing. The table
  is a map from (type, name) to its entry. This differs from the source when a type's hash function changes after
  entries of that type are stored. For example, `OBJ_NAME_add(n, 5, d)` before `OBJ_NAME_new_index(h, NULL, NULL)` returns 5:
  the entry was hashed with `lh_strhash(n) ^ 5` (lines 127-129), but later lookups hash with `h(n) ^ 5` (lines 124-125),
  so in the source they normally miss it, while the map finds it.
- NameSpec.ObjNameCmp: a custom `cmp_func` is returned as a pending call (`ByCustom`), not evaluated. The table is keyed by
  exact (type, name), so two names that a custom comparator treats as equal are not merged, unlike in the hash table.
- NameSpec.ObjNameCmp: a negative stored type gets the default handlers. In the source this matches only while the handler
  stack does not exist (line 107); once it exists, `sk_NAME_FUNCS_value` returns NULL for such a type and it is dereferenced. The same choice is made in `HandlerFor`, and so in the free dispatch (`FreeCall`).
  `FreeDispatchAsWritten` reports these types as a NULL call.
- NameSpec.ObjNameCmp: the type difference `a->type - b->type` is computed on unbounded integers, so C `int` overflow is
  not modelled.
- lhash internals are not modelled: buckets, rehashing, and the `down_load` save, clear and restore around the cleanup walk.
  The cleanup walk runs over a snapshot of the keys, which is what clearing `down_load` makes safe in the source.
- ObjNames.Registry.DoAll and ObjNames.Registry.DoAllSorted:
  - The caller's `fn` and `arg` are not modelled. The methods return the sequence of records passed to `fn`.
  - The order of `DoAll` is left open, because it is the hash table's own order.
  - Both require an initialised table. The source passes `names_lh` to `lh_OBJ_NAME_doall` unchecked (line 260);
    how lhash treats a NULL table is not part of this model.
- ObjNames.Registry.DoAllSorted: qsort is replaced by `SortByName`, which builds the sorted order as a new sequence. The
  scratch array is filled in place, but it is not reordered in place.
- ObjNames.Registry.NewIndex: the source ignores the return value of `sk_NAME_FUNCS_push`. The model assumes every push of an
  allocated record succeeds.
- The following are not modelled:
  - `OBJerr` error reporting;
  - the `CRYPTO_mem_ctrl` bracketing;
  - `OPENSSL_free` of the entry wrappers and handler records;
  - the leak of the new wrapper when an insert fails;
  - the DEC C `OPENSSL_strcmp` macro.
- Memory addresses are not modelled. Names and data are values, so the free function receives the old entry's contents,
  not its pointers.
- Concurrency: the source is not thread-safe. The global `free_type` is shared state, and the model is single-threaded.

## Findings

| source | as written | input that shows it | evidently intended | confidence | as-written member | corrected member |
|---|---|---|---|---|---|---|
| crypto/objects/o_names.c:188-196 | eviction in `OBJ_NAME_add` (and identically 221-229 in `OBJ_NAME_remove`) calls `free_func` whenever the stack has more slots than the type; records pushed at line 79 are zero-filled, so their `free_func` is NULL | `OBJ_NAME_new_index(NULL, NULL, f)`, then `OBJ_NAME_add("SHA256", 1, d)` twice, or `OBJ_NAME_remove("SHA256", 1)`, or `OBJ_NAME_cleanup(-1)` with a type-1 entry present: slot 1 exists with a NULL `free_func`, which is called | a type without a free function frees nothing: the guard should also require a non-NULL `free_func` in the slot | medium, not executed | Scenarios.NullFreeOnBuiltinType | NameSpec.FreeCall |
