/** What the planner takes for a stable key, said about rows. */
module StableKeys {
  import opened Domain
  import opened Relational
  import opened CandidateEdges
  import opened Planner
  import opened InstanceGroups
  import opened SqlValidation

  /** The catalog calls the column nullable. */
  predicate Nullable(e: EntityDefinition, column: string) {
    exists k :: k in e.columns && k.name == column && k.nullable
  }

  ghost predicate InUniqueKey(e: EntityDefinition, column: string) {
    exists key :: key in e.uniqueKeys && column in key
  }

  ghost predicate Complete(t: Table, key: seq<string>) {
    forall i :: 0 <= i < |t| ==> HasKey(t[i], key)
  }

  /** A table that keeps to the catalog: the primary key is complete and unique, unique keys are unique where they
      are complete, and of their columns only nullable ones are null. */
  ghost predicate Conforms(e: EntityDefinition, t: Table) {
    && (e.primaryKey != [] ==> Complete(t, e.primaryKey) && UniqueKey(t, e.primaryKey))
    && (forall key :: key in e.uniqueKeys ==> UniqueKey(t, key))
    && (forall i, c :: 0 <= i < |t| && InUniqueKey(e, c) && !Nullable(e, c) ==> Read(t[i], c).Known?)
  }

  /** No row is stored twice. */
  ghost predicate NoRowTwice(t: Table) {
    forall i, j :: 0 <= i < j < |t| ==> t[i] != t[j]
  }

  /** The catalog rules out that a row is stored twice. */
  ghost predicate AlwaysTellsApart(e: EntityDefinition) {
    forall t :: Conforms(e, t) ==> NoRowTwice(t)
  }

  lemma CompleteKeyTellsApart(t: Table, key: seq<string>)
    requires Complete(t, key) && UniqueKey(t, key)
    ensures NoRowTwice(t)
  {
    forall i, j | 0 <= i < j < |t| ensures t[i] != t[j] {
      assert i in KeyedRows(t, key) && j in KeyedRows(t, key);
      assert KeyAt(t, key, i) != KeyAt(t, key, j);
    }
  }

  lemma NeverNullIsComplete(e: EntityDefinition, t: Table, key: seq<string>)
    requires Conforms(e, t) && key in e.uniqueKeys && forall c :: c in key ==> !Nullable(e, c)
    ensures Complete(t, key)
  {
    forall i | 0 <= i < |t| ensures HasKey(t[i], key) {
      forall k | 0 <= k < |key| ensures Read(t[i], key[k]).Known? {
        assert key[k] in key && InUniqueKey(e, key[k]);
      }
    }
  }

  function KeyColumns(e: EntityDefinition): set<string> {
    set key, c | key in e.uniqueKeys && c in key :: c
  }

  /** Every nullable column is null. */
  function BarestRow(e: EntityDefinition): Row {
    map c | c in KeyColumns(e) && !Nullable(e, c) :: Known(0)
  }

  lemma BarestTwiceConforms(e: EntityDefinition)
    requires e.primaryKey == [] && forall key :: key in e.uniqueKeys ==> exists c :: c in key && Nullable(e, c)
    ensures Conforms(e, [BarestRow(e), BarestRow(e)])
  {
    var t := [BarestRow(e), BarestRow(e)];
    forall key | key in e.uniqueKeys ensures UniqueKey(t, key) {
      var c :| c in key && Nullable(e, c);
      var k :| 0 <= k < |key| && key[k] == c;
      assert !Read(BarestRow(e), key[k]).Known?;
      assert KeyedRows(t, key) == {};
    }
    forall i, c | 0 <= i < |t| && InUniqueKey(e, c) && !Nullable(e, c) ensures Read(t[i], c).Known? {
      var key :| key in e.uniqueKeys && c in key;
      assert c in KeyColumns(e);
    }
  }

  lemma TellsApartExactly(e: EntityDefinition)
    ensures AlwaysTellsApart(e) <==> e.primaryKey != [] || exists key :: key in e.uniqueKeys && forall c :: c in key ==> !Nullable(e, c)
  {
    if e.primaryKey != [] {
      forall t | Conforms(e, t) ensures NoRowTwice(t) { CompleteKeyTellsApart(t, e.primaryKey); }
    } else if key :| key in e.uniqueKeys && forall c :: c in key ==> !Nullable(e, c) {
      forall t | Conforms(e, t) ensures NoRowTwice(t) {
        NeverNullIsComplete(e, t, key);
        CompleteKeyTellsApart(t, key);
      }
    } else {
      BarestTwiceConforms(e);
      var t := [BarestRow(e), BarestRow(e)];
      assert t[0] == t[1];
    }
  }

  /** `e` is the first definition of the entity. */
  ghost predicate FirstOf(definitions: seq<EntityDefinition>, entity: string, i: nat) {
    i < |definitions| && definitions[i].entityId == entity && forall j :: 0 <= j < i ==> definitions[j].entityId != entity
  }

  lemma {:induction false} FindsFirst(definitions: seq<EntityDefinition>, entity: string)
    ensures FindEntity(definitions, entity).Some? <==> exists i: nat :: FirstOf(definitions, entity, i)
    ensures forall i: nat :: FirstOf(definitions, entity, i) ==> FindEntity(definitions, entity) == Some(definitions[i])
  {
    if definitions != [] {
      FindsFirst(definitions[1..], entity);
      if definitions[0].entityId == entity {
        assert FirstOf(definitions, entity, 0);
      } else {
        forall i: nat ensures FirstOf(definitions, entity, i + 1) <==> FirstOf(definitions[1..], entity, i) {
          FirstLater(definitions, entity, i);
        }
        forall i: nat | FirstOf(definitions, entity, i) ensures FindEntity(definitions, entity) == Some(definitions[i]) {
          assert FirstOf(definitions, entity, i - 1 + 1);
        }
        if FindEntity(definitions, entity).Some? {
          var i: nat :| FirstOf(definitions[1..], entity, i);
          assert FirstOf(definitions, entity, i + 1);
        }
      }
    }
  }

  lemma FirstLater(definitions: seq<EntityDefinition>, entity: string, i: nat)
    requires definitions != [] && definitions[0].entityId != entity
    ensures FirstOf(definitions, entity, i + 1) <==> FirstOf(definitions[1..], entity, i)
  {
    if FirstOf(definitions, entity, i + 1) {
      forall j | 0 <= j < i ensures definitions[1..][j].entityId != entity { assert definitions[j + 1].entityId != entity; }
    }
    if FirstOf(definitions[1..], entity, i) {
      forall j | 0 <= j < i + 1 ensures definitions[j].entityId != entity {
        if j > 0 { assert definitions[1..][j - 1].entityId != entity; }
      }
    }
  }

  /** The grain counts as stable exactly when the catalog lists its entity, and the first definition listed rules out
      that a row of it is stored twice. */
  lemma StableGrainExactly(entity: string, definitions: seq<EntityDefinition>)
    ensures StableGrain(entity, definitions) <==> exists i: nat :: FirstOf(definitions, entity, i) && AlwaysTellsApart(definitions[i])
  {
    FindsFirst(definitions, entity);
    if i: nat :| FirstOf(definitions, entity, i) {
      TellsApartExactly(definitions[i]);
    }
  }

  /** The same for an instance of a query: its entity is what counts. */
  lemma StableInstanceExactly(refs: seq<EntityRef>, r: EntityRef, definitions: seq<EntityDefinition>)
    requires DistinctRefs(refs) && r in refs
    ensures StableInstance(refs, r.ref, definitions) <==> exists i: nat :: FirstOf(definitions, r.entity, i) && AlwaysTellsApart(definitions[i])
  {
    FindFacts(refs, r.ref);
    OneEntity(refs, r, Find(refs, r.ref).value);
    StableGrainExactly(r.entity, definitions);
  }
}
