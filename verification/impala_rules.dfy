/** The Impala dialect's rule-to-entity classification: the ten preferred
    grammar rules handed to the candidate collector, the entity categories,
    and the `switch` in `processCandidates` that maps one to the other. */
module ImpalaRules {
  import opened Wrappers
  import opened JsSwitch

  /** Grammar rule identities. The ten named rules are the preferred ones;
      every other rule of the Impala grammar is `Other(id)`. */
  datatype RuleId =
    | FunctionNameCreate
    | TableNameCreate
    | ViewNameCreate
    | DatabaseNameCreate
    | ColumnNamePathCreate
    | TableNamePath
    | FunctionNamePath
    | ViewNamePath
    | DatabaseNamePath
    | ColumnNamePath
    | Other(id: int)

  /** The entity categories the switch can produce: five name-definition
      positions and five name-reference positions. */
  datatype EntityContextType =
    | FUNCTION_CREATE
    | TABLE_CREATE
    | DATABASE_CREATE
    | VIEW_CREATE
    | COLUMN_CREATE
    | DATABASE
    | TABLE
    | VIEW
    | FUNCTION
    | COLUMN

  /** The rules whose contexts the candidate collector reports as rule
      candidates. */
  const PreferredRules: set<RuleId> := {
    FunctionNameCreate,
    TableNameCreate,
    ViewNameCreate,
    DatabaseNameCreate,
    ColumnNamePathCreate,
    TableNamePath,
    FunctionNamePath,
    ViewNamePath,
    DatabaseNamePath,
    ColumnNamePath
  }

  /** A position where a name is being defined. */
  predicate IsCreation(c: EntityContextType) {
    c in {FUNCTION_CREATE, TABLE_CREATE, DATABASE_CREATE, VIEW_CREATE, COLUMN_CREATE}
  }

  /** A grammar rule for the name slot of a CREATE statement. */
  predicate IsCreateRule(r: RuleId) {
    r in {FunctionNameCreate, TableNameCreate, ViewNameCreate, DatabaseNameCreate, ColumnNamePathCreate}
  }

  /** For each category, the one preferred rule that stands for it. */
  function PreferredRuleFor(c: EntityContextType): (r: RuleId)
    ensures r in PreferredRules
  {
    match c
    case FUNCTION_CREATE => FunctionNameCreate
    case TABLE_CREATE => TableNameCreate
    case DATABASE_CREATE => DatabaseNameCreate
    case VIEW_CREATE => ViewNameCreate
    case COLUMN_CREATE => ColumnNamePathCreate
    case DATABASE => DatabaseNamePath
    case TABLE => TableNamePath
    case VIEW => ViewNamePath
    case FUNCTION => FunctionNamePath
    case COLUMN => ColumnNamePath
  }

  /** The classification as a plain lookup table, one entry per rule. */
  function EntityTable(r: RuleId): Option<EntityContextType> {
    match r
    case FunctionNameCreate => Some(FUNCTION_CREATE)
    case TableNameCreate => Some(TABLE_CREATE)
    case ViewNameCreate => Some(VIEW_CREATE)
    case DatabaseNameCreate => Some(DATABASE_CREATE)
    case ColumnNamePathCreate => Some(COLUMN_CREATE)
    case TableNamePath => Some(TABLE)
    case FunctionNamePath => Some(FUNCTION)
    case ViewNamePath => Some(VIEW)
    case DatabaseNamePath => Some(DATABASE)
    case ColumnNamePath => Some(COLUMN)
    case Other(_) => None
  }

  /** The `switch (ruleType)` of `processCandidates`, clause by clause in
      source order. The `columnNamePath` clause has no `break` and falls
      through into `default`, whose only statement is `break`. */
  const ImpalaSwitch: seq<Clause<RuleId, EntityContextType>> := [
    Case(FunctionNameCreate, [Assign(FUNCTION_CREATE), Break]),
    Case(TableNameCreate, [Assign(TABLE_CREATE), Break]),
    Case(DatabaseNameCreate, [Assign(DATABASE_CREATE), Break]),
    Case(ViewNameCreate, [Assign(VIEW_CREATE), Break]),
    Case(ColumnNamePathCreate, [Assign(COLUMN_CREATE), Break]),
    Case(DatabaseNamePath, [Assign(DATABASE), Break]),
    Case(TableNamePath, [Assign(TABLE), Break]),
    Case(ViewNamePath, [Assign(VIEW), Break]),
    Case(FunctionNamePath, [Assign(FUNCTION), Break]),
    Case(ColumnNamePath, [Assign(COLUMN)]),
    Default([Break])
  ]

  /** The category `processCandidates` assigns to a rule candidate: the
      switch run with the variable initially `undefined`. It agrees with the
      lookup table, is defined exactly on the preferred rules, names for each
      category its one rule, and keeps CREATE rules and reference rules apart. */
  function Classify(r: RuleId): (c: Option<EntityContextType>)
    ensures c == EntityTable(r)
    ensures c.Some? <==> r in PreferredRules
    ensures c.Some? ==> PreferredRuleFor(c.value) == r
    ensures c.Some? ==> (IsCreation(c.value) <==> IsCreateRule(r))
  {
    SwitchIsTable(r);
    TableFacts(r);
    Evaluate(ImpalaSwitch, r, None)
  }

  /** Entering the switch at clause `k` whose body assigns `c` and breaks
      yields `c`. */
  lemma ClauseAssigns(r: RuleId, k: nat, c: EntityContextType)
    requires k < |ImpalaSwitch| && Matches(ImpalaSwitch[k], r)
    requires forall i :: 0 <= i < k ==> !Matches(ImpalaSwitch[i], r)
    requires ImpalaSwitch[k].body == [Assign(c), Break]
    ensures Evaluate(ImpalaSwitch, r, None) == Some(c)
  {
    EntersAtCase(ImpalaSwitch, r, k);
    assert ImpalaSwitch[k].body == [Assign(c)] + [Break] + [];
    EvaluateEntered(ImpalaSwitch, r, None, k, [Assign(c)], []);
  }

  /** Running the switch, fall-through included, yields the table entry. */
  lemma {:induction false} SwitchIsTable(r: RuleId)
    ensures Evaluate(ImpalaSwitch, r, None) == EntityTable(r)
  {
    match r
    case FunctionNameCreate => ClauseAssigns(r, 0, FUNCTION_CREATE);
    case TableNameCreate => ClauseAssigns(r, 1, TABLE_CREATE);
    case DatabaseNameCreate => ClauseAssigns(r, 2, DATABASE_CREATE);
    case ViewNameCreate => ClauseAssigns(r, 3, VIEW_CREATE);
    case ColumnNamePathCreate => ClauseAssigns(r, 4, COLUMN_CREATE);
    case DatabaseNamePath => ClauseAssigns(r, 5, DATABASE);
    case TableNamePath => ClauseAssigns(r, 6, TABLE);
    case ViewNamePath => ClauseAssigns(r, 7, VIEW);
    case FunctionNamePath => ClauseAssigns(r, 8, FUNCTION);
    case ColumnNamePath =>
      // No `break`: the statements run on into the `default` clause.
      EntersAtCase(ImpalaSwitch, r, 9);
      EvaluateFallsThrough(ImpalaSwitch, r, None, 9);
      assert StatementsFrom(ImpalaSwitch, 11) == [];
      assert StatementsFrom(ImpalaSwitch, 10) == [Break];
    case Other(_) =>
      EntersAtDefault(ImpalaSwitch, r, 10);
      assert StatementsFrom(ImpalaSwitch, 11) == [];
      assert StatementsFrom(ImpalaSwitch, 10) == [Break];
  }

  /** The lookup table is defined exactly on the preferred rules, is inverted
      by `PreferredRuleFor`, and maps CREATE rules to creation categories. */
  lemma TableFacts(r: RuleId)
    ensures EntityTable(r).Some? <==> r in PreferredRules
    ensures EntityTable(r).Some? ==> PreferredRuleFor(EntityTable(r).value) == r
    ensures EntityTable(r).Some? ==> (IsCreation(EntityTable(r).value) <==> IsCreateRule(r))
  {
  }

  /** Every category is produced by exactly one rule. */
  lemma ClassifyInverse(r: RuleId, c: EntityContextType)
    ensures Classify(r) == Some(c) <==> r == PreferredRuleFor(c)
  {
  }
}
