/** `WeaviateSourceState`: the enumerator's checkpoint record, a Lombok
    `@Data @AllArgsConstructor` class with two fields. Either field may hold
    `null` (`None`); Lombok adds no null checks. */
module SourceState {
  import opened Wrappers
  import opened JavaInts

  /** A table identity (database, schema, table). */
  datatype TablePath = TablePath(databaseName: string, schemaName: string, tableName: string)

  /** A split descriptor, identified by its id; its contents are not modelled. */
  datatype SourceSplit = SourceSplit(splitId: string)

  /** The split lists per reader subtask id. */
  type SplitMap = map<Int32, seq<SourceSplit>>

  datatype WeaviateSourceState = WeaviateSourceState(
    pendingTables: Option<seq<TablePath>>,
    pendingSplits: Option<SplitMap>)

  function GetPendingTables(s: WeaviateSourceState): Option<seq<TablePath>> {
    s.pendingTables
  }

  function GetPendingSplits(s: WeaviateSourceState): Option<SplitMap> {
    s.pendingSplits
  }

  /** `setPendingTables`: replaces its own field; the other is unchanged. */
  function SetPendingTables(s: WeaviateSourceState, v: Option<seq<TablePath>>): (r: WeaviateSourceState)
    ensures GetPendingTables(r) == v
    ensures GetPendingSplits(r) == GetPendingSplits(s)
  {
    s.(pendingTables := v)
  }

  /** `setPendingSplits`: replaces its own field; the other is unchanged. */
  function SetPendingSplits(s: WeaviateSourceState, v: Option<SplitMap>): (r: WeaviateSourceState)
    ensures GetPendingSplits(r) == v
    ensures GetPendingTables(r) == GetPendingTables(s)
  {
    s.(pendingSplits := v)
  }

  /** The all-args constructor followed by the getters gives the arguments
      back verbatim. */
  lemma ConstructorStoresVerbatim(tables: Option<seq<TablePath>>, splits: Option<SplitMap>)
    ensures GetPendingTables(WeaviateSourceState(tables, splits)) == tables
    ensures GetPendingSplits(WeaviateSourceState(tables, splits)) == splits
  {
  }

  /** Setting a field to what its getter returns changes nothing, and a
      second set overrides the first. */
  lemma SetterGetterLaws(s: WeaviateSourceState, t1: Option<seq<TablePath>>, t2: Option<seq<TablePath>>,
                         m1: Option<SplitMap>, m2: Option<SplitMap>)
    ensures SetPendingTables(s, GetPendingTables(s)) == s
    ensures SetPendingSplits(s, GetPendingSplits(s)) == s
    ensures SetPendingTables(SetPendingTables(s, t1), t2) == SetPendingTables(s, t2)
    ensures SetPendingSplits(SetPendingSplits(s, m1), m2) == SetPendingSplits(s, m2)
    ensures SetPendingSplits(SetPendingTables(s, t1), m1) == SetPendingTables(SetPendingSplits(s, m1), t1)
  {
  }

  /** The `@Data` equality: two states are equal exactly when their table
      lists (element by element, in order) and their split maps (same keys,
      same lists) are equal. */
  lemma EqualityIsFieldwise(a: WeaviateSourceState, b: WeaviateSourceState)
    ensures a == b <==>
      && (a.pendingTables.None? <==> b.pendingTables.None?)
      && (a.pendingTables.Some? ==>
            |a.pendingTables.value| == |b.pendingTables.value|
            && forall i :: 0 <= i < |a.pendingTables.value| ==>
                 a.pendingTables.value[i] == b.pendingTables.value[i])
      && (a.pendingSplits.None? <==> b.pendingSplits.None?)
      && (a.pendingSplits.Some? ==>
            a.pendingSplits.value.Keys == b.pendingSplits.value.Keys
            && forall k :: k in a.pendingSplits.value ==>
                 a.pendingSplits.value[k] == b.pendingSplits.value[k])
  {
    if && (a.pendingTables.None? <==> b.pendingTables.None?)
       && (a.pendingTables.Some? ==>
             |a.pendingTables.value| == |b.pendingTables.value|
             && forall i :: 0 <= i < |a.pendingTables.value| ==>
                  a.pendingTables.value[i] == b.pendingTables.value[i])
       && (a.pendingSplits.None? <==> b.pendingSplits.None?)
       && (a.pendingSplits.Some? ==>
             a.pendingSplits.value.Keys == b.pendingSplits.value.Keys
             && forall k :: k in a.pendingSplits.value ==>
                  a.pendingSplits.value[k] == b.pendingSplits.value[k])
    {
      if a.pendingTables.Some? {
        assert a.pendingTables.value == b.pendingTables.value;
      }
      if a.pendingSplits.Some? {
        assert a.pendingSplits.value == b.pendingSplits.value;
      }
    }
  }
}
