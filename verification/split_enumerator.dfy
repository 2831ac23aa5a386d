/** `WeaviateSourceSplitEnumertor`: its constructor, which starts fresh from the
    catalog's tables or rehydrates from a checkpointed `WeaviateSourceState`,
    and its callbacks, every one of which is an empty stub.

    The enumerator is a value: a callback returns the enumerator it leaves
    behind. The lock object and the concurrency of the queue are not
    modelled; no callback touches the collections. */
module SplitEnumerator {
  import opened Wrappers
  import opened JavaInts
  import opened SourceState

  /** Catalog metadata of a table; its contents are not modelled. */
  datatype CatalogTable = CatalogTable(tableId: string)

  /** The engine's enumerator context; its contents are not modelled. */
  datatype Context = Context(contextId: nat)

  /** The four fields the constructor sets. `tables` is the reference passed
      in, which may be `null` on the restore path. */
  datatype Enumerator = Enumerator(
    tables: Option<map<TablePath, CatalogTable>>,
    context: Context,
    pendingTables: seq<TablePath>,
    pendingSplits: SplitMap)

  /** The `NullPointerException` the constructor throws on a `null` argument
      it dereferences. */
  datatype InitError = NullPointer

  /** No element occurs twice. */
  predicate Distinct(s: seq<TablePath>) {
    forall i, j :: 0 <= i < j < |s| ==> s[i] != s[j]
  }

  /** `q` lists every element of `keys` once, in some order. */
  ghost predicate EnumeratesOnce(q: seq<TablePath>, keys: set<TablePath>) {
    && Distinct(q)
    && |q| == |keys|
    && forall t :: t in q <==> t in keys
  }

  /** `new ConcurrentLinkedQueue<>(tables.keySet())`: the keys in the map's
      iteration order, which Java leaves unspecified and which is therefore
      chosen arbitrarily here. */
  method KeyQueue(keys: set<TablePath>) returns (q: seq<TablePath>)
    ensures EnumeratesOnce(q, keys)
  {
    q := [];
    var rest := keys;
    while rest != {}
      invariant rest <= keys
      invariant Distinct(q)
      invariant |q| + |rest| == |keys|
      invariant forall t :: t in q <==> t in keys && t !in rest
      decreases |rest|
    {
      var t :| t in rest;
      q := q + [t];
      rest := rest - {t};
    }
  }

  /** The constructor. `sourceState == null` starts fresh: the queue holds the
      table keys and the split map is empty (`keySet()` on a `null` map
      throws). Otherwise both collections are copied from the state (a `null`
      field throws); `tables` is stored as given either way. */
  method NewEnumerator(context: Context, sourceTables: Option<map<TablePath, CatalogTable>>,
                       sourceState: Option<WeaviateSourceState>)
    returns (r: Result<Enumerator, InitError>)
    ensures sourceState.None? ==> (r.Success? <==> sourceTables.Some?)
    ensures sourceState.None? && r.Success? ==>
      && EnumeratesOnce(r.value.pendingTables, sourceTables.value.Keys)
      && r.value.pendingSplits == map[]
    ensures sourceState.Some? ==>
      (r.Success? <==> sourceState.value.pendingTables.Some? && sourceState.value.pendingSplits.Some?)
    ensures sourceState.Some? && r.Success? ==>
      && r.value.pendingTables == sourceState.value.pendingTables.value
      && r.value.pendingSplits == sourceState.value.pendingSplits.value
    ensures r.Success? ==> r.value.tables == sourceTables && r.value.context == context
  {
    match sourceState
    case None =>
      if sourceTables.None? {
        return Failure(NullPointer);
      }
      var q := KeyQueue(sourceTables.value.Keys);
      r := Success(Enumerator(sourceTables, context, q, map[]));
    case Some(st) =>
      if st.pendingTables.None? || st.pendingSplits.None? {
        return Failure(NullPointer);
      }
      r := Success(Enumerator(sourceTables, context, st.pendingTables.value, st.pendingSplits.value));
  }

  /** Nothing observable differs between two enumerators: same stored tables
      and context, same queue in the same order, same split map. */
  predicate Unchanged(before: Enumerator, after: Enumerator) {
    && after.tables == before.tables
    && after.context == before.context
    && after.pendingTables == before.pendingTables
    && after.pendingSplits == before.pendingSplits
  }

  function Open(e: Enumerator): (r: Enumerator)
    ensures Unchanged(e, r)
  {
    e
  }

  function Run(e: Enumerator): (r: Enumerator)
    ensures Unchanged(e, r)
  {
    e
  }

  function Close(e: Enumerator): (r: Enumerator)
    ensures Unchanged(e, r)
  {
    e
  }

  /** Returned splits are dropped: they reach neither collection. */
  function AddSplitsBack(e: Enumerator, splits: seq<SourceSplit>, subtaskId: Int32): (r: Enumerator)
    ensures Unchanged(e, r)
  {
    e
  }

  /** No split is assigned. */
  function HandleSplitRequest(e: Enumerator, subtaskId: Int32): (r: Enumerator)
    ensures Unchanged(e, r)
  {
    e
  }

  /** No entry is created for the reader. */
  function RegisterReader(e: Enumerator, subtaskId: Int32): (r: Enumerator)
    ensures Unchanged(e, r)
  {
    e
  }

  function NotifyCheckpointComplete(e: Enumerator, checkpointId: Long): (r: Enumerator)
    ensures Unchanged(e, r)
  {
    e
  }

  /** Reports zero whatever is pending. */
  function CurrentUnassignedSplitSize(e: Enumerator): (n: Int32)
    ensures n == 0
  {
    0
  }

  /** Returns `null` for every checkpoint. */
  function SnapshotState(e: Enumerator, checkpointId: Long): (s: Option<WeaviateSourceState>)
    ensures s.None?
  {
    None
  }

  /** The number of splits held in a split map, over all readers: at least
      the length of every reader's list. */
  ghost function SplitCount(m: SplitMap): (n: nat)
    ensures forall id :: id in m ==> |m[id]| <= n
    decreases |m|
  {
    if |m| == 0 then 0
    else
      var k :| k in m;
      var rest := m - {k};
      assert forall id :: id in m && id != k ==> id in rest && rest[id] == m[id];
      |m[k]| + SplitCount(rest)
  }

  /** The work an enumerator holds: queued tables plus pending splits. */
  ghost function PendingWork(e: Enumerator): nat {
    |e.pendingTables| + SplitCount(e.pendingSplits)
  }

  /** The reported unassigned size ignores pending work: it is zero even when
      a table is queued or some reader has a pending split. */
  lemma UnassignedSizeIgnoresPendingWork(e: Enumerator, id: Int32)
    requires |e.pendingTables| > 0 || (id in e.pendingSplits && |e.pendingSplits[id]| > 0)
    ensures CurrentUnassignedSplitSize(e) == 0 < PendingWork(e)
  {
  }

  /** A callback the engine may invoke, with its arguments. */
  datatype Callback =
    | OnOpen
    | OnRun
    | OnClose
    | OnAddSplitsBack(splits: seq<SourceSplit>, subtaskId: Int32)
    | OnHandleSplitRequest(subtaskId: Int32)
    | OnRegisterReader(subtaskId: Int32)
    | OnNotifyCheckpointComplete(checkpointId: Long)
    | OnSnapshotState(checkpointId: Long)
    | OnCurrentUnassignedSplitSize

  function Dispatch(e: Enumerator, c: Callback): Enumerator {
    match c
    case OnOpen => Open(e)
    case OnRun => Run(e)
    case OnClose => Close(e)
    case OnAddSplitsBack(splits, id) => AddSplitsBack(e, splits, id)
    case OnHandleSplitRequest(id) => HandleSplitRequest(e, id)
    case OnRegisterReader(id) => RegisterReader(e, id)
    case OnNotifyCheckpointComplete(cid) => NotifyCheckpointComplete(e, cid)
    case OnSnapshotState(_) => e
    case OnCurrentUnassignedSplitSize => e
  }

  function Replay(e: Enumerator, cs: seq<Callback>): Enumerator
    decreases |cs|
  {
    if |cs| == 0 then e else Replay(Dispatch(e, cs[0]), cs[1..])
  }

  /** Any sequence of callbacks, in any order and with any arguments, leaves
      the enumerator exactly as the constructor built it: the stored tables
      and context never change, and neither do the two collections. */
  lemma {:induction false} CallbacksNeverChangeState(e: Enumerator, cs: seq<Callback>)
    ensures Unchanged(e, Replay(e, cs))
    decreases |cs|
  {
    if |cs| > 0 {
      CallbacksNeverChangeState(Dispatch(e, cs[0]), cs[1..]);
    }
  }

  /** Rebuilding an enumerator from its own snapshot, as a restart does: the
      snapshot is `null`, so the rebuild is a fresh start from the stored
      tables and every pending split is gone. */
  method RestartFromSnapshot(e: Enumerator, checkpointId: Long) returns (r: Result<Enumerator, InitError>)
    ensures e.tables.None? ==> r.Failure?
    ensures e.tables.Some? ==>
      && r.Success?
      && EnumeratesOnce(r.value.pendingTables, e.tables.value.Keys)
      && r.value.pendingSplits == map[]
      && r.value.tables == e.tables
      && r.value.context == e.context
  {
    var snapshot := SnapshotState(e, checkpointId);
    r := NewEnumerator(e.context, e.tables, snapshot);
  }
}
