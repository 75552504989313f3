/** The clause visitor: how `keep`/`drop`, `calc`, `rename` and `aggr` clauses
    become calls on the processing engine. Expressions inside a clause are kept
    as their source text; what the visitor decides is which columns, names,
    roles and aggregations reach the engine, in which order, and which errors
    stop it. */
module ClauseVisitor {
  import opened Values
  import opened Typed
  import opened OrderedMap
  import opened Datasets

  // ---------------------------------------------------------------- names

  predicate Quoted(text: string)
  {
    |text| >= 1 && text[0] == '\'' && text[|text| - 1] == '\''
  }

  /** `getName`: drops one pair of surrounding quotes. The text `'` alone is
      both quote-started and quote-ended, and `substring(1, 0)` throws. */
  function GetName(text: string): (r: Result<string>)
    ensures r.Err? <==> text == "'"
    ensures r.Err? ==> r.error == IndexOutOfBounds
    ensures r.Ok? && !Quoted(text) ==> r.value == text
  {
    if Quoted(text) then
      if |text| == 1 then Err(IndexOutOfBounds) else Ok(text[1..|text| - 1])
    else Ok(text)
  }

  /** A quoted name read back and quoted again is the text it came from. */
  lemma GetNameUnquotes(text: string)
    requires Quoted(text) && GetName(text).Ok?
    ensures "'" + GetName(text).value + "'" == text
  {
    assert text == [text[0]] + text[1..|text| - 1] + [text[|text| - 1]];
  }

  /** Quoting a name and reading it back gives the name. */
  lemma QuotedNameRoundTrip(name: string)
    ensures GetName("'" + name + "'") == Ok(name)
  {
    var text := "'" + name + "'";
    assert Quoted(text);
    assert text[1..|text| - 1] == name;
  }

  /** Only one pair of quotes goes, and an unquoted name stays as it is. */
  lemma NameExamples()
    ensures GetName("m1") == Ok("m1")
    ensures GetName("'m1'") == Ok("m1")
    ensures GetName("''m1''") == Ok("'m1'")
    ensures GetName("'") == Err(IndexOutOfBounds)
  {
    QuotedNameRoundTrip("m1");
    assert "'" + "m1" + "'" == "'m1'";
    QuotedNameRoundTrip("'m1'");
    assert "'" + "'m1'" + "'" == "''m1''";
  }

  predicate Resolves(ids: seq<string>)
  {
    forall k :: 0 <= k < |ids| ==> GetName(ids[k]).Ok?
  }

  /** The names of a list of component ids, collected into a set. */
  function NameSet(ids: seq<string>): (r: Result<set<string>>)
    ensures r.Ok? <==> Resolves(ids)
    ensures r.Err? ==> r.error == IndexOutOfBounds
    decreases |ids|
  {
    if ids == [] then Ok({})
    else
      var init :- NameSet(ids[..|ids| - 1]);
      var n :- GetName(ids[|ids| - 1]);
      Ok(init + {n})
  }

  /** The set holds the name of every id and nothing else. */
  lemma {:induction false} NameSetMembers(ids: seq<string>, n: string)
    requires Resolves(ids)
    ensures n in NameSet(ids).value <==> exists k :: 0 <= k < |ids| && GetName(ids[k]) == Ok(n)
    decreases |ids|
  {
    if ids != [] {
      var init := ids[..|ids| - 1];
      assert Resolves(init);
      NameSetMembers(init, n);
      if exists k :: 0 <= k < |init| && GetName(init[k]) == Ok(n) {
        var k :| 0 <= k < |init| && GetName(init[k]) == Ok(n);
        assert GetName(ids[k]) == Ok(n);
      }
      if exists k :: 0 <= k < |ids| && GetName(ids[k]) == Ok(n) {
        var k :| 0 <= k < |ids| && GetName(ids[k]) == Ok(n);
        if k < |init| {
          assert GetName(init[k]) == Ok(n);
        }
      }
    }
  }

  // ---------------------------------------------------------- keep / drop

  /** The columns, in structure order, whose membership in `names` is `keep`. */
  function KeepOrDropColumns(columns: seq<string>, keep: bool, names: set<string>): seq<string>
    decreases |columns|
  {
    if columns == [] then []
    else
      var init := KeepOrDropColumns(columns[..|columns| - 1], keep, names);
      var c := columns[|columns| - 1];
      if keep == (c in names) then init + [c] else init
  }

  /** A column survives exactly when `keep` names it or `drop` does not. */
  lemma {:induction false} KeepOrDropMembership(columns: seq<string>, keep: bool, names: set<string>, c: string)
    ensures c in KeepOrDropColumns(columns, keep, names) <==> c in columns && (keep == (c in names))
    decreases |columns|
  {
    if columns != [] {
      var init := columns[..|columns| - 1];
      KeepOrDropMembership(init, keep, names, c);
      assert columns == init + [columns[|columns| - 1]];
    }
  }

  /** Selection keeps the structure's order: it distributes over concatenation. */
  lemma {:induction false} KeepOrDropKeepsOrder(xs: seq<string>, ys: seq<string>, keep: bool, names: set<string>)
    ensures KeepOrDropColumns(xs + ys, keep, names) ==
            KeepOrDropColumns(xs, keep, names) + KeepOrDropColumns(ys, keep, names)
    decreases |ys|
  {
    if ys == [] {
      assert xs + ys == xs;
    } else {
      var init := ys[..|ys| - 1];
      KeepOrDropKeepsOrder(xs, init, keep, names);
      assert (xs + ys)[..|xs + ys| - 1] == xs + init;
    }
  }

  /** `keep` and `drop` of the same names split the columns between them. */
  lemma {:induction false} KeepAndDropPartition(columns: seq<string>, names: set<string>)
    ensures multiset(KeepOrDropColumns(columns, true, names)) + multiset(KeepOrDropColumns(columns, false, names))
            == multiset(columns)
    decreases |columns|
  {
    if columns != [] {
      var init := columns[..|columns| - 1];
      KeepAndDropPartition(init, names);
      assert columns == init + [columns[|columns| - 1]];
    }
  }

  /** `visitKeepOrDropClause`: normalised to a projection on the kept columns. */
  function VisitKeepOrDropClause(dataset: DatasetExpr, structure: Structure, keep: bool, ids: seq<string>)
    : (r: Result<DatasetExpr>)
    ensures r.Ok? <==> Resolves(ids)
    ensures r.Ok? ==> r.value.Project? && r.value.source == dataset &&
                      forall c :: c in r.value.columns <==>
                        c in ColumnNames(structure) && (keep == exists k :: 0 <= k < |ids| && GetName(ids[k]) == Ok(c))
  {
    var names :- NameSet(ids);
    var columns := KeepOrDropColumns(ColumnNames(structure), keep, names);
    assert forall c :: c in columns <==> c in ColumnNames(structure) && (keep == (c in names)) by {
      forall c ensures c in columns <==> c in ColumnNames(structure) && (keep == (c in names)) {
        KeepOrDropMembership(ColumnNames(structure), keep, names, c);
      }
    }
    assert forall c :: c in names <==> exists k :: 0 <= k < |ids| && GetName(ids[k]) == Ok(c) by {
      forall c ensures c in names <==> exists k :: 0 <= k < |ids| && GetName(ids[k]) == Ok(c) {
        NameSetMembers(ids, c);
      }
    }
    Ok(Project(dataset, columns))
  }

  // --------------------------------------------------------- aggregations

  /** The role a clause item gets when it states none. */
  function RoleOrMeasure(role: Option<Role>): Role
  {
    if role.None? then Measure else role.value
  }

  /** `convertToAggregation`, on the column `column` of type `ty`: `count()`
      ignores its operand, the other known functions need a number, anything
      else is not implemented. */
  function ConvertToAggregation(fn: AggFunction, column: string, ty: Type): (r: Result<Aggregation>)
    ensures fn == Count ==> r == Ok(CountAll)
    ensures fn == Unsupported ==> r == Err(NotImplemented)
    ensures fn != Count && fn != Unsupported ==>
              (r.Ok? <==> ty in NUMBER_TYPES) &&
              (r.Ok? ==> r.value == Over(fn, column, ty)) &&
              (r.Err? ==> r.error == InvalidType(ty, NUMBER_TYPES))
  {
    match fn
    case Count => Ok(CountAll)
    case Unsupported => Err(NotImplemented)
    case _ =>
      var e :- AssertNumber(Column(column, ty));
      Ok(Over(fn, column, e.ty))
  }

  // ----------------------------------------------------------------- calc

  /** The right-hand side of a calc item: a call of an analytic function, any
      other expression by its source text, or an expression that
      `componentExpressionVisitor` rejects, with the error it raises (a type
      error, say). */
  datatype CalcBody = AnalyticCall(fn: string) | Expression(text: string) | IllTyped(error: Error)

  datatype CalcItem = CalcItem(id: string, role: Option<Role>, body: CalcBody)

  /** The variables of `visitCalcClause`'s loop. */
  datatype CalcState = CalcState(current: DatasetExpr, expressions: OMap<string, string>, roles: OMap<string, Role>)

  /** One iteration: an analytic item is planned at once on the current
      dataset; any other item joins the batch under its name once its
      expression is visited. */
  function CalcStep(st: CalcState, item: CalcItem): (r: Result<CalcState>)
    ensures r.Ok? <==> ItemFault(item).None?
    ensures r.Err? ==> r.error == ItemFault(item).value
    ensures GetName(item.id).Err? ==> r == Err(IndexOutOfBounds)
    ensures r.Ok? && item.body.AnalyticCall? ==> r.value.expressions == st.expressions && r.value.roles == st.roles
    ensures r.Ok? && item.body.Expression? ==> r.value.current == st.current
  {
    var name :- GetName(item.id);
    match item.body
    case AnalyticCall(fn) => Ok(st.(current := Analytic(st.current, name, fn)))
    case Expression(text) =>
      Ok(st.(expressions := Put(st.expressions, name, text),
             roles := Put(st.roles, name, RoleOrMeasure(item.role))))
    case IllTyped(e) => Err(e)
  }

  /** The error an item stops the loop with, if any: first its name, then its
      expression. */
  function ItemFault(item: CalcItem): Option<Error>
  {
    if GetName(item.id).Err? then Some(GetName(item.id).error)
    else if item.body.IllTyped? then Some(item.body.error)
    else None
  }

  /** The loop's variables after the given items. */
  function CalcFold(dataset: DatasetExpr, items: seq<CalcItem>): Result<CalcState>
    decreases |items|
  {
    if items == [] then Ok(CalcState(dataset, Empty(), Empty()))
    else
      var st :- CalcFold(dataset, items[..|items| - 1]);
      CalcStep(st, items[|items| - 1])
  }

  /** What `visitCalcClause` returns: the batch goes to `executeCalc` only
      when it is not empty. */
  function CalcPlan(dataset: DatasetExpr, items: seq<CalcItem>): (r: Result<DatasetExpr>)
    ensures r.Ok? <==> ItemsResolve(items)
    ensures items == [] ==> r == Ok(dataset)
  {
    CalcFoldResolves(dataset, items);
    var st :- CalcFold(dataset, items);
    if st.expressions.values == map[] then Ok(st.current)
    else Ok(Calc(st.current, st.expressions, st.roles))
  }

  lemma {:induction false} CalcFoldStopsAtError(dataset: DatasetExpr, items: seq<CalcItem>, p: seq<CalcItem>)
    requires |p| <= |items| && p == items[..|p|] && CalcFold(dataset, p).Err?
    ensures CalcFold(dataset, items) == CalcFold(dataset, p)
    decreases |items|
  {
    if |p| < |items| {
      var init := items[..|items| - 1];
      assert p == init[..|p|];
      CalcFoldStopsAtError(dataset, init, p);
    } else {
      assert p == items;
    }
  }


  /** `visitCalcClause`. */
  method VisitCalcClause(dataset: DatasetExpr, items: seq<CalcItem>) returns (r: Result<DatasetExpr>)
    ensures r == CalcPlan(dataset, items)
  {
    var current := dataset;
    var expressions: OMap<string, string> := Empty();
    var roles: OMap<string, Role> := Empty();
    var i := 0;
    while i < |items|
      invariant i <= |items|
      invariant CalcFold(dataset, items[..i]) == Ok(CalcState(current, expressions, roles))
    {
      var item := items[i];
      var upTo := items[..i + 1];
      assert upTo[..i] == items[..i];
      var name := GetName(item.id);
      if name.Err? {
        CalcFoldStopsAtError(dataset, items, upTo);
        return Err(name.error);
      }
      match item.body {
        case AnalyticCall(fn) =>
          current := Analytic(current, name.value, fn);
        case Expression(text) =>
          expressions := Put(expressions, name.value, text);
          roles := Put(roles, name.value, RoleOrMeasure(item.role));
        case IllTyped(e) =>
          CalcFoldStopsAtError(dataset, items, upTo);
          return Err(e);
      }
      i := i + 1;
    }
    assert items[..i] == items;
    if expressions.values != map[] {
      current := Calc(current, expressions, roles);
    }
    return Ok(current);
  }

  /** Every name reads and every expression is visited. */
  predicate ItemsResolve(items: seq<CalcItem>)
  {
    forall k :: 0 <= k < |items| ==> GetName(items[k].id).Ok? && !items[k].body.IllTyped?
  }

  /** The analytic items, applied one on top of the other in item order. */
  function AnalyticChain(dataset: DatasetExpr, items: seq<CalcItem>): DatasetExpr
    requires ItemsResolve(items)
    decreases |items|
  {
    if items == [] then dataset
    else
      var below := AnalyticChain(dataset, items[..|items| - 1]);
      var last := items[|items| - 1];
      if last.body.AnalyticCall? then Analytic(below, GetName(last.id).value, last.body.fn) else below
  }

  /** Name and source text of the other items, in item order. */
  function ExpressionPairs(items: seq<CalcItem>): seq<(string, string)>
    requires ItemsResolve(items)
    decreases |items|
  {
    if items == [] then []
    else
      var init := ExpressionPairs(items[..|items| - 1]);
      var last := items[|items| - 1];
      if last.body.Expression? then init + [(GetName(last.id).value, last.body.text)] else init
  }

  /** Name and role of the other items, in item order. */
  function RolePairs(items: seq<CalcItem>): seq<(string, Role)>
    requires ItemsResolve(items)
    decreases |items|
  {
    if items == [] then []
    else
      var init := RolePairs(items[..|items| - 1]);
      var last := items[|items| - 1];
      if last.body.Expression? then init + [(GetName(last.id).value, RoleOrMeasure(last.role))] else init
  }

  /** The loop fails exactly on an unreadable name or a rejected expression. */
  lemma {:induction false} CalcFoldResolves(dataset: DatasetExpr, items: seq<CalcItem>)
    ensures CalcFold(dataset, items).Ok? <==> ItemsResolve(items)
    decreases |items|
  {
    if items != [] {
      var init := items[..|items| - 1];
      CalcFoldResolves(dataset, init);
      ItemsResolveSnoc(items);
    }
  }

  lemma ItemsResolveSnoc(items: seq<CalcItem>)
    requires |items| > 0
    ensures ItemsResolve(items) <==> ItemsResolve(items[..|items| - 1]) && ItemFault(items[|items| - 1]).None?
  {
    var init := items[..|items| - 1];
    assert forall k :: 0 <= k < |init| ==> init[k] == items[k];
  }

  /** The first item that does not go through fails the whole clause with its
      own error. */
  lemma {:induction false} CalcPlanFailsAt(dataset: DatasetExpr, items: seq<CalcItem>, i: nat)
    requires i < |items| && ItemsResolve(items[..i]) && ItemFault(items[i]).Some?
    ensures CalcPlan(dataset, items) == Err(ItemFault(items[i]).value)
  {
    var upTo := items[..i + 1];
    assert upTo[..i] == items[..i] && upTo[i] == items[i];
    CalcFoldResolves(dataset, items[..i]);
    CalcFoldStopsAtError(dataset, items, upTo);
  }

  /** Otherwise the current dataset is the analytic chain, and the batch maps
      are built by `put` of the other items in order. */
  lemma {:induction false} CalcFoldDecomposes(dataset: DatasetExpr, items: seq<CalcItem>)
    requires ItemsResolve(items)
    ensures CalcFold(dataset, items) ==
            Ok(CalcState(AnalyticChain(dataset, items), FromPairs(ExpressionPairs(items)), FromPairs(RolePairs(items))))
    decreases |items|
  {
    if items != [] {
      var init := items[..|items| - 1];
      assert ItemsResolve(init);
      CalcFoldDecomposes(dataset, init);
      var st := CalcState(AnalyticChain(dataset, init), FromPairs(ExpressionPairs(init)), FromPairs(RolePairs(init)));
      var last := items[|items| - 1];
      assert CalcFold(dataset, items) == CalcStep(st, last);
      CalcStepAccepts(st, last);
      if last.body.Expression? {
        var n := GetName(last.id).value;
        var es, rs := ExpressionPairs(items), RolePairs(items);
        assert es[..|es| - 1] == ExpressionPairs(init) && es[|es| - 1] == (n, last.body.text);
        assert rs[..|rs| - 1] == RolePairs(init) && rs[|rs| - 1] == (n, RoleOrMeasure(last.role));
      }
    }
  }

  lemma CalcStepAccepts(st: CalcState, item: CalcItem)
    requires ItemFault(item).None?
    ensures var name := GetName(item.id).value;
      CalcStep(st, item) ==
        if item.body.AnalyticCall? then Ok(st.(current := Analytic(st.current, name, item.body.fn)))
        else Ok(st.(expressions := Put(st.expressions, name, item.body.text),
                    roles := Put(st.roles, name, RoleOrMeasure(item.role))))
  {
  }

  /** The plan: the analytic items first, chained in item order, then a single
      `executeCalc` of all the other items when there is any. */
  lemma CalcPlanShape(dataset: DatasetExpr, items: seq<CalcItem>)
    ensures CalcPlan(dataset, items).Ok? <==> ItemsResolve(items)
    ensures ItemsResolve(items) && ExpressionPairs(items) == [] ==>
              CalcPlan(dataset, items) == Ok(AnalyticChain(dataset, items))
    ensures ItemsResolve(items) && ExpressionPairs(items) != [] ==>
              CalcPlan(dataset, items) ==
              Ok(Calc(AnalyticChain(dataset, items), FromPairs(ExpressionPairs(items)), FromPairs(RolePairs(items))))
  {
    CalcFoldResolves(dataset, items);
    if ItemsResolve(items) {
      CalcFoldDecomposes(dataset, items);
    }
    if ItemsResolve(items) && ExpressionPairs(items) != [] {
      var ps := ExpressionPairs(items);
      assert ps[|ps| - 1].0 in FromPairs(ps).values;
    }
  }

  /** Each column of the batch gets the text and the role of the last item
      that names it; an item without a role gets MEASURE. */
  lemma {:induction false} CalcFoldLastDefinition(dataset: DatasetExpr, items: seq<CalcItem>, k: nat)
    requires ItemsResolve(items) && k < |items| && items[k].body.Expression?
    requires forall j :: k < j < |items| && items[j].body.Expression? ==>
               GetName(items[j].id) != GetName(items[k].id)
    ensures CalcFold(dataset, items).Ok?
    ensures var st := CalcFold(dataset, items).value;
            var name := GetName(items[k].id).value;
            name in st.expressions.values && st.expressions.values[name] == items[k].body.text &&
            name in st.roles.values && st.roles.values[name] == RoleOrMeasure(items[k].role)
    decreases |items|
  {
    CalcFoldResolves(dataset, items);
    var init := items[..|items| - 1];
    assert ItemsResolve(init);
    CalcFoldResolves(dataset, init);
    if k < |items| - 1 {
      CalcFoldLastDefinition(dataset, init, k);
    }
  }

  lemma {:induction false} BatchNamesAgree(items: seq<CalcItem>)
    requires ItemsResolve(items)
    ensures FirstComponents(RolePairs(items)) == FirstComponents(ExpressionPairs(items))
    decreases |items|
  {
    if items != [] {
      var init := items[..|items| - 1];
      BatchNamesAgree(init);
      var last := items[|items| - 1];
      if last.body.Expression? {
        var n := GetName(last.id).value;
        assert FirstComponents(RolePairs(items)) == FirstComponents(RolePairs(init)) + [n];
        assert FirstComponents(ExpressionPairs(items)) == FirstComponents(ExpressionPairs(init)) + [n];
      }
    }
  }

  /** Distinct names reach `executeCalc` in item order. */
  lemma CalcBatchKeepsItemOrder(dataset: DatasetExpr, items: seq<CalcItem>)
    requires ItemsResolve(items) && Distinct(FirstComponents(ExpressionPairs(items)))
    ensures CalcFold(dataset, items).Ok?
    ensures CalcFold(dataset, items).value.expressions.keys == FirstComponents(ExpressionPairs(items))
    ensures CalcFold(dataset, items).value.roles.keys == FirstComponents(ExpressionPairs(items))
  {
    CalcFoldDecomposes(dataset, items);
    BatchNamesAgree(items);
    FromPairsOrder(ExpressionPairs(items));
    FromPairsOrder(RolePairs(items));
  }

  // --------------------------------------------------------------- rename

  datatype RenameItem = RenameItem(fromId: string, toId: string)

  /** The variables of `visitRenameClause`'s loop. */
  datatype RenameState = RenameState(fromTo: OMap<string, string>, renamed: set<string>)

  /** One iteration: both names are read, target first; a target already used
      stops the clause. */
  function RenameStep(st: RenameState, item: RenameItem): (r: Result<RenameState>)
    ensures r.Ok? <==> GetName(item.toId).Ok? && GetName(item.fromId).Ok? && GetName(item.toId).value !in st.renamed
    ensures GetName(item.toId).Err? ==> r == Err(IndexOutOfBounds)
    ensures r.Ok? ==> r.value.renamed == st.renamed + {GetName(item.toId).value}
  {
    var to :- GetName(item.toId);
    var from :- GetName(item.fromId);
    if to in st.renamed then Err(InvalidArgument("duplicate column: " + to))
    else Ok(RenameState(Put(st.fromTo, from, to), st.renamed + {to}))
  }

  lemma RenameStepAccepts(st: RenameState, item: RenameItem)
    requires GetName(item.toId).Ok? && GetName(item.fromId).Ok?
    requires GetName(item.toId).value !in st.renamed
    ensures RenameStep(st, item) ==
              Ok(RenameState(Put(st.fromTo, GetName(item.fromId).value, GetName(item.toId).value),
                             st.renamed + {GetName(item.toId).value}))
  {
  }

  lemma RenameStepRejects(st: RenameState, item: RenameItem)
    requires GetName(item.toId).Err? || GetName(item.fromId).Err? || GetName(item.toId).value in st.renamed
    ensures RenameStep(st, item).Err?
    ensures GetName(item.toId).Err? ==> RenameStep(st, item).error == GetName(item.toId).error
    ensures GetName(item.toId).Ok? && GetName(item.fromId).Err? ==>
              RenameStep(st, item).error == GetName(item.fromId).error
    ensures GetName(item.toId).Ok? && GetName(item.fromId).Ok? ==>
              RenameStep(st, item).error == InvalidArgument("duplicate column: " + GetName(item.toId).value)
  {
  }

  function RenameFold(items: seq<RenameItem>): Result<RenameState>
    decreases |items|
  {
    if items == [] then Ok(RenameState(Empty(), {}))
    else
      var st :- RenameFold(items[..|items| - 1]);
      RenameStep(st, items[|items| - 1])
  }

  /** What `visitRenameClause` returns: one `executeRename` of the whole map. */
  function RenamePlan(dataset: DatasetExpr, items: seq<RenameItem>): (r: Result<DatasetExpr>)
    ensures r.Ok? ==> r.value.Rename? && r.value.source == dataset
    ensures items == [] ==> r == Ok(Rename(dataset, Empty()))
  {
    var st :- RenameFold(items);
    Ok(Rename(dataset, st.fromTo))
  }

  /** A failing step fails the whole clause with that step's error. */
  lemma RenamePlanFailsAt(dataset: DatasetExpr, items: seq<RenameItem>, i: nat)
    requires i < |items| && RenameFold(items[..i]).Ok?
    requires RenameStep(RenameFold(items[..i]).value, items[i]).Err?
    ensures RenamePlan(dataset, items) == Err(RenameStep(RenameFold(items[..i]).value, items[i]).error)
  {
    RenameFoldPrefixStep(items, i);
    RenameFoldStopsAtError(items, items[..i + 1]);
  }

  lemma {:induction false} RenameFoldStopsAtError(items: seq<RenameItem>, p: seq<RenameItem>)
    requires |p| <= |items| && p == items[..|p|] && RenameFold(p).Err?
    ensures RenameFold(items) == RenameFold(p)
    decreases |items|
  {
    if |p| < |items| {
      var init := items[..|items| - 1];
      assert p == init[..|p|];
      RenameFoldStopsAtError(init, p);
    } else {
      assert p == items;
    }
  }


  /** An item whose names read and whose target is new extends the loop's
      variables. */
  lemma RenameAcceptsAt(items: seq<RenameItem>, i: nat, st: RenameState)
    requires i < |items| && RenameFold(items[..i]) == Ok(st)
    requires GetName(items[i].toId).Ok? && GetName(items[i].fromId).Ok?
    requires GetName(items[i].toId).value !in st.renamed
    ensures RenameFold(items[..i + 1]) ==
              Ok(RenameState(Put(st.fromTo, GetName(items[i].fromId).value, GetName(items[i].toId).value),
                             st.renamed + {GetName(items[i].toId).value}))
  {
    RenameFoldPrefixStep(items, i);
    RenameStepAccepts(st, items[i]);
  }

  /** Any other item ends the clause with the error of its first failing
      check. */
  lemma RenameRejectsAt(dataset: DatasetExpr, items: seq<RenameItem>, i: nat, st: RenameState)
    requires i < |items| && RenameFold(items[..i]) == Ok(st)
    requires GetName(items[i].toId).Err? || GetName(items[i].fromId).Err? ||
             GetName(items[i].toId).value in st.renamed
    ensures RenamePlan(dataset, items) ==
              Err(if GetName(items[i].toId).Err? then GetName(items[i].toId).error
                  else if GetName(items[i].fromId).Err? then GetName(items[i].fromId).error
                  else InvalidArgument("duplicate column: " + GetName(items[i].toId).value))
  {
    RenameStepRejects(st, items[i]);
    RenamePlanFailsAt(dataset, items, i);
  }

  /** `visitRenameClause`. */
  method VisitRenameClause(dataset: DatasetExpr, items: seq<RenameItem>) returns (r: Result<DatasetExpr>)
    ensures r == RenamePlan(dataset, items)
  {
    var fromTo: OMap<string, string> := Empty();
    var renamed: set<string> := {};
    var i := 0;
    while i < |items|
      invariant i <= |items|
      invariant RenameFold(items[..i]) == Ok(RenameState(fromTo, renamed))
    {
      var to := GetName(items[i].toId);
      var from := GetName(items[i].fromId);
      if to.Err? || from.Err? || to.value in renamed {
        var e := if to.Err? then to.error
                 else if from.Err? then from.error
                 else InvalidArgument("duplicate column: " + to.value);
        RenameRejectsAt(dataset, items, i, RenameState(fromTo, renamed));
        return Err(e);
      }
      RenameAcceptsAt(items, i, RenameState(fromTo, renamed));
      renamed := renamed + {to.value};
      fromTo := Put(fromTo, from.value, to.value);
      i := i + 1;
    }
    assert items[..i] == items;
    return Ok(Rename(dataset, fromTo));
  }

  predicate RenameResolves(items: seq<RenameItem>)
  {
    forall k :: 0 <= k < |items| ==> GetName(items[k].fromId).Ok? && GetName(items[k].toId).Ok?
  }

  /** The (from, to) names of the items, in item order. */
  function RenamePairs(items: seq<RenameItem>): (ps: seq<(string, string)>)
    requires RenameResolves(items)
    ensures |ps| == |items|
  {
    seq(|items|, k requires 0 <= k < |items| => (GetName(items[k].fromId).value, GetName(items[k].toId).value))
  }

  function Targets(items: seq<RenameItem>): (ts: seq<string>)
    requires RenameResolves(items)
    ensures |ts| == |items|
  {
    seq(|items|, k requires 0 <= k < |items| => GetName(items[k].toId).value)
  }

  lemma RenamePrefix(items: seq<RenameItem>, n: nat)
    requires RenameResolves(items) && n <= |items|
    ensures RenameResolves(items[..n])
    ensures RenamePairs(items[..n]) == RenamePairs(items)[..n]
    ensures Targets(items[..n]) == Targets(items)[..n]
  {
  }

  /** The elements of a sequence, as a set. */
  function ToSet(s: seq<string>): (r: set<string>)
    decreases |s|
  {
    if s == [] then {} else
      var n := |s| - 1;
      assert s == s[..n] + [s[n]];
      ToSet(s[..n]) + {s[n]}
  }

  lemma {:induction false} ToSetMembers(s: seq<string>, x: string)
    ensures x in ToSet(s) <==> x in s
    decreases |s|
  {
    if s != [] {
      var n := |s| - 1;
      ToSetMembers(s[..n], x);
      assert s == s[..n] + [s[n]];
    }
  }


  /** With distinct targets the clause goes through: the map is built by `put`
      of every pair in order and every target is marked as used. */
  lemma {:induction false} RenameFoldAccepts(items: seq<RenameItem>)
    requires RenameResolves(items) && Distinct(Targets(items))
    ensures RenameFold(items) == Ok(RenameState(FromPairs(RenamePairs(items)), ToSet(Targets(items))))
    decreases |items|
  {
    if items != [] {
      var n := |items| - 1;
      var init := items[..n];
      var last := items[n];
      var ts := Targets(items);
      var ps := RenamePairs(items);
      assert RenameResolves(init) && Targets(init) == ts[..n] && RenamePairs(init) == ps[..n] by {
        RenamePrefix(items, n);
      }
      RenameFoldAccepts(init);
      var st := RenameState(FromPairs(ps[..n]), ToSet(ts[..n]));
      assert ts[n] !in st.renamed by {
        ToSetMembers(ts[..n], ts[n]);
      }
      assert GetName(last.toId) == Ok(ts[n]);
      assert ps[n] == (GetName(last.fromId).value, ts[n]);
      assert RenameFold(items) == RenameStep(st, last);
      assert FromPairs(ps) == Put(FromPairs(ps[..n]), ps[n].0, ps[n].1);
      ToSetExtend(ts);
    }
  }

  lemma RenameStepRejectsRepeat(items: seq<RenameItem>, i: nat, j: nat)
    requires RenameResolves(items) && i < j < |items|
    requires Targets(items)[i] == Targets(items)[j] && Distinct(Targets(items)[..j])
    ensures RenameFold(items[..j + 1]) == Err(InvalidArgument("duplicate column: " + Targets(items)[j]))
  {
    var ts := Targets(items);
    RenamePrefix(items, j);
    var prior := Targets(items[..j]);
    RenameFoldAccepts(items[..j]);
    var st := RenameFold(items[..j]).value;
    assert prior[i] == ts[j];
    ToSetMembers(prior, ts[j]);
    assert GetName(items[j].toId) == Ok(ts[j]);
    RenameFoldPrefixStep(items, j);
  }

  /** The fold over one more item is one more step. */
  lemma RenameFoldPrefixStep(items: seq<RenameItem>, k: nat)
    requires k < |items| && RenameFold(items[..k]).Ok?
    ensures RenameFold(items[..k + 1]) == RenameStep(RenameFold(items[..k]).value, items[k])
  {
    var upTo := items[..k + 1];
    assert upTo[..k] == items[..k];
    assert upTo[k] == items[k];
  }

  /** `renamed.add` fails at the first repeated target (item `j`, repeating
      item `i`), whose name is reported. */
  lemma RenameFoldRejectsRepeat(items: seq<RenameItem>, i: nat, j: nat)
    requires RenameResolves(items) && i < j < |items|
    requires Targets(items)[i] == Targets(items)[j] && Distinct(Targets(items)[..j])
    ensures RenameFold(items) == Err(InvalidArgument("duplicate column: " + Targets(items)[j]))
  {
    RenameStepRejectsRepeat(items, i, j);
    RenameFoldStopsAtError(items, items[..j + 1]);
  }


  lemma RenameResolvesExtend(items: seq<RenameItem>)
    requires |items| > 0 && RenameResolves(items[..|items| - 1])
    requires GetName(items[|items| - 1].fromId).Ok? && GetName(items[|items| - 1].toId).Ok?
    ensures RenameResolves(items)
  {
    var n := |items| - 1;
    forall k | 0 <= k < n ensures GetName(items[k].fromId).Ok? && GetName(items[k].toId).Ok? {
      assert items[k] == items[..n][k];
    }
  }

  lemma RenameStepOk(st: RenameState, item: RenameItem)
    requires RenameStep(st, item).Ok?
    ensures GetName(item.toId).Ok? && GetName(item.fromId).Ok?
    ensures GetName(item.toId).value !in st.renamed
    ensures RenameStep(st, item).value.renamed == st.renamed + {GetName(item.toId).value}
  {
  }

  lemma RenameFoldInit(items: seq<RenameItem>)
    requires |items| > 0 && RenameFold(items).Ok?
    ensures RenameFold(items[..|items| - 1]).Ok?
    ensures RenameStep(RenameFold(items[..|items| - 1]).value, items[|items| - 1]) == RenameFold(items)
  {
  }

  /** A clause goes through only if every name reads and the targets are
      distinct; the set of used names then holds exactly the targets. */
  lemma {:induction false} RenameFoldOkOnlyIfDistinct(items: seq<RenameItem>)
    requires RenameFold(items).Ok?
    ensures RenameResolves(items) && Distinct(Targets(items))
    ensures RenameFold(items).value.renamed == ToSet(Targets(items))
    decreases |items|
  {
    if items != [] {
      var n := |items| - 1;
      var init := items[..n];
      var last := items[n];
      RenameFoldInit(items);
      RenameFoldOkOnlyIfDistinct(init);
      RenameStepOk(RenameFold(init).value, last);
      RenameResolvesExtend(items);
      var t := GetName(last.toId).value;
      TargetsSnoc(items);
      ToSetMembers(Targets(init), t);
      DistinctSnoc(Targets(init), t);
      ToSetSnoc(Targets(init), t);
    }
  }

  lemma TargetsSnoc(items: seq<RenameItem>)
    requires |items| > 0 && RenameResolves(items)
    ensures RenameResolves(items[..|items| - 1])
    ensures Targets(items) == Targets(items[..|items| - 1]) + [GetName(items[|items| - 1].toId).value]
  {
    RenamePrefix(items, |items| - 1);
  }

  lemma DistinctSnoc(s: seq<string>, x: string)
    requires Distinct(s) && x !in s
    ensures Distinct(s + [x])
  {
    assert (s + [x])[..|s|] == s;
  }

  lemma ToSetSnoc(s: seq<string>, x: string)
    ensures ToSet(s + [x]) == ToSet(s) + {x}
  {
    assert (s + [x])[..|s|] == s;
  }

  lemma ToSetExtend(s: seq<string>)
    requires |s| > 0
    ensures ToSet(s) == ToSet(s[..|s| - 1]) + {s[|s| - 1]}
  {
  }

  /** The rename plan, both ways: accepted exactly for readable names with
      distinct targets, as one rename of the pairs in order. */
  lemma RenamePlanShape(dataset: DatasetExpr, items: seq<RenameItem>)
    ensures RenamePlan(dataset, items).Ok? <==> RenameResolves(items) && Distinct(Targets(items))
    ensures RenamePlan(dataset, items).Ok? ==>
              RenamePlan(dataset, items).value == Rename(dataset, FromPairs(RenamePairs(items)))
  {
    if RenameFold(items).Ok? {
      RenameFoldOkOnlyIfDistinct(items);
    }
    if RenameResolves(items) && Distinct(Targets(items)) {
      RenameFoldAccepts(items);
    }
  }

  // ----------------------------------------------------------------- aggr

  /** The grouping of an aggregate item: a function over an expression, by its
      source text and with the error `componentExpressionVisitor` raises on
      the expression, if any; or any other alternative of the grammar. */
  datatype Grouping = AggrDataset(fn: AggFunction, text: string, fault: Option<Error>) | OtherGrouping

  datatype AggrItem = AggrItem(id: string, role: Option<Role>, grouping: Grouping)

  predicate OverExpressions(xs: seq<AggrItem>)
  {
    forall k :: 0 <= k < |xs| ==> xs[k].grouping.AggrDataset?
  }

  /** No expression of the items is rejected by the expression visitor. */
  predicate Visited(xs: seq<AggrItem>)
  {
    forall k :: 0 <= k < |xs| ==> !(xs[k].grouping.AggrDataset? && xs[k].grouping.fault.Some?)
  }

  lemma VisitedSnoc(xs: seq<AggrItem>)
    requires |xs| > 0
    ensures var last := xs[|xs| - 1];
            Visited(xs) <==> Visited(xs[..|xs| - 1]) && !(last.grouping.AggrDataset? && last.grouping.fault.Some?)
  {
    var init := xs[..|xs| - 1];
    assert forall k :: 0 <= k < |init| ==> init[k] == xs[k];
  }

  /** The items whose grouping is a function over an expression, in order. */
  function DatasetItems(items: seq<AggrItem>): (xs: seq<AggrItem>)
    ensures OverExpressions(xs)
    ensures forall x :: x in xs <==> x in items && x.grouping.AggrDataset?
    decreases |items|
  {
    if items == [] then []
    else
      var n := |items| - 1;
      assert items == items[..n] + [items[n]];
      var init := DatasetItems(items[..n]);
      if items[n].grouping.AggrDataset? then init + [items[n]] else init
  }

  /** The three `Collectors.toMap` over those items, which share their keys:
      the expression texts and the roles by name. Each item's name is read,
      then its expression visited; a name met twice throws. */
  function ToMaps(xs: seq<AggrItem>): (r: Result<(OMap<string, string>, OMap<string, Role>)>)
    requires OverExpressions(xs)
    ensures r.Err? ==> r.error == IndexOutOfBounds || r.error.DuplicateKey? || !Visited(xs)
    decreases |xs|
  {
    if xs == [] then Ok((Empty(), Empty()))
    else
      var maps :- ToMaps(xs[..|xs| - 1]);
      var last := xs[|xs| - 1];
      var name :- GetName(last.id);
      if last.grouping.fault.Some? then Err(last.grouping.fault.value)
      else if name in maps.0.values then Err(DuplicateKey(name))
      else Ok((Put(maps.0, name, last.grouping.text), Put(maps.1, name, RoleOrMeasure(last.role))))
  }

  /** The first item that does not go through fails the maps with its own
      error: an unreadable name, then a rejected expression, then a repeated
      name. */
  lemma {:induction false} ToMapsFailsAt(xs: seq<AggrItem>, i: nat)
    requires OverExpressions(xs) && i < |xs| && ToMaps(xs[..i]).Ok?
    ensures var x := xs[i];
            (GetName(x.id).Err? ==> ToMaps(xs) == Err(IndexOutOfBounds)) &&
            (GetName(x.id).Ok? && x.grouping.fault.Some? ==> ToMaps(xs) == Err(x.grouping.fault.value)) &&
            (GetName(x.id).Ok? && x.grouping.fault.None? && GetName(x.id).value in ToMaps(xs[..i]).value.0.values ==>
               ToMaps(xs) == Err(DuplicateKey(GetName(x.id).value)))
    decreases |xs|
  {
    if i < |xs| - 1 {
      var init := xs[..|xs| - 1];
      assert init[..i] == xs[..i] && init[i] == xs[i];
      ToMapsFailsAt(init, i);
    } else {
      assert xs[..i] == xs[..|xs| - 1];
    }
  }

  predicate AliasesResolve(items: seq<AggrItem>)
  {
    forall k :: 0 <= k < |items| ==> GetName(items[k].id).Ok?
  }

  function Aliases(items: seq<AggrItem>): (ns: seq<string>)
    requires AliasesResolve(items)
    ensures |ns| == |items|
  {
    seq(|items|, k requires 0 <= k < |items| => GetName(items[k].id).value)
  }

  lemma AliasesPrefix(items: seq<AggrItem>, n: nat)
    requires AliasesResolve(items) && n <= |items|
    ensures AliasesResolve(items[..n]) && Aliases(items[..n]) == Aliases(items)[..n]
  {
  }

  /** One step of the maps: a new name is put in both. */
  lemma ToMapsStep(xs: seq<AggrItem>)
    requires OverExpressions(xs) && |xs| > 0
    requires ToMaps(xs[..|xs| - 1]).Ok? && GetName(xs[|xs| - 1].id).Ok? && xs[|xs| - 1].grouping.fault.None?
    requires GetName(xs[|xs| - 1].id).value !in ToMaps(xs[..|xs| - 1]).value.0.values
    ensures var maps := ToMaps(xs[..|xs| - 1]).value;
            var last := xs[|xs| - 1];
            var name := GetName(last.id).value;
            ToMaps(xs) == Ok((Put(maps.0, name, last.grouping.text), Put(maps.1, name, RoleOrMeasure(last.role))))
  {
  }

  /** With distinct names the maps go through, listing the names in item
      order. */
  lemma {:induction false} ToMapsAccepts(xs: seq<AggrItem>)
    requires OverExpressions(xs) && AliasesResolve(xs) && Visited(xs) && Distinct(Aliases(xs))
    ensures ToMaps(xs).Ok?
    ensures ToMaps(xs).value.0.keys == Aliases(xs) && ToMaps(xs).value.1.keys == Aliases(xs)
    decreases |xs|
  {
    if xs != [] {
      var n := |xs| - 1;
      var init := xs[..n];
      var ns := Aliases(xs);
      assert Aliases(init) == ns[..n] && Distinct(ns[..n]) by {
        AliasesPrefix(xs, n);
        DistinctPrefix(ns, n);
      }
      VisitedSnoc(xs);
      ToMapsAccepts(init);
      var maps := ToMaps(init).value;
      var last := xs[n];
      assert GetName(last.id) == Ok(ns[n]);
      assert ns[n] !in maps.0.values && ns[n] !in maps.1.values by {
        ToMapsValid(init);
      }
      ToMapsStep(xs);
      assert ns == ns[..n] + [ns[n]];
    }
  }

  /** Each name then carries its own item's text and role (MEASURE when none
      is given). */
  lemma ToMapsValues(xs: seq<AggrItem>, k: nat)
    requires OverExpressions(xs) && AliasesResolve(xs) && Visited(xs) && Distinct(Aliases(xs)) && k < |xs|
    ensures ToMaps(xs).Ok?
    ensures var maps := ToMaps(xs).value;
            var name := Aliases(xs)[k];
            name in maps.0.values && maps.0.values[name] == xs[k].grouping.text &&
            name in maps.1.values && maps.1.values[name] == RoleOrMeasure(xs[k].role)
  {
    ToMapsTexts(xs, k);
    ToMapsRoles(xs, k);
  }

  lemma {:induction false} ToMapsTexts(xs: seq<AggrItem>, k: nat)
    requires OverExpressions(xs) && AliasesResolve(xs) && Visited(xs) && Distinct(Aliases(xs)) && k < |xs|
    ensures ToMaps(xs).Ok?
    ensures Aliases(xs)[k] in ToMaps(xs).value.0.values
    ensures ToMaps(xs).value.0.values[Aliases(xs)[k]] == xs[k].grouping.text
    decreases |xs|
  {
    var n := |xs| - 1;
    ToMapsLast(xs);
    if k < n {
      var init := xs[..n];
      assert Aliases(xs)[k] == Aliases(init)[k] && xs[k] == init[k];
      ToMapsTexts(init, k);
      DistinctPairwise(Aliases(xs), k, n);
    }
  }

  lemma {:induction false} ToMapsRoles(xs: seq<AggrItem>, k: nat)
    requires OverExpressions(xs) && AliasesResolve(xs) && Visited(xs) && Distinct(Aliases(xs)) && k < |xs|
    ensures ToMaps(xs).Ok?
    ensures Aliases(xs)[k] in ToMaps(xs).value.1.values
    ensures ToMaps(xs).value.1.values[Aliases(xs)[k]] == RoleOrMeasure(xs[k].role)
    decreases |xs|
  {
    var n := |xs| - 1;
    ToMapsLast(xs);
    if k < n {
      var init := xs[..n];
      assert Aliases(xs)[k] == Aliases(init)[k] && xs[k] == init[k];
      ToMapsRoles(init, k);
      DistinctPairwise(Aliases(xs), k, n);
    }
  }

  /** The last item of a clause with distinct readable names is one more `put` in each map. */
  lemma ToMapsLast(xs: seq<AggrItem>)
    requires OverExpressions(xs) && AliasesResolve(xs) && Visited(xs) && Distinct(Aliases(xs)) && |xs| > 0
    ensures var init := xs[..|xs| - 1];
            OverExpressions(init) && AliasesResolve(init) && Visited(init) && Distinct(Aliases(init)) &&
            Aliases(init) == Aliases(xs)[..|xs| - 1] &&
            ToMaps(init).Ok? && ToMaps(xs).Ok? &&
            ToMaps(xs).value.0 == Put(ToMaps(init).value.0, Aliases(xs)[|xs| - 1], xs[|xs| - 1].grouping.text) &&
            ToMaps(xs).value.1 == Put(ToMaps(init).value.1, Aliases(xs)[|xs| - 1], RoleOrMeasure(xs[|xs| - 1].role))
  {
    var n := |xs| - 1;
    var init := xs[..n];
    var ns := Aliases(xs);
    assert Aliases(init) == ns[..n] && Distinct(ns[..n]) by {
      AliasesPrefix(xs, n);
      DistinctPrefix(ns, n);
    }
    VisitedSnoc(xs);
    assert ToMaps(init).Ok? && ToMaps(init).value.0.keys == ns[..n] by {
      ToMapsAccepts(init);
    }
    assert GetName(xs[n].id) == Ok(ns[n]);
    assert ns[n] !in ToMaps(init).value.0.values by {
      ToMapsValid(init);
    }
    ToMapsStep(xs);
  }

  lemma AliasesExtend(items: seq<AggrItem>)
    requires |items| > 0 && AliasesResolve(items[..|items| - 1]) && GetName(items[|items| - 1].id).Ok?
    ensures AliasesResolve(items)
  {
    var n := |items| - 1;
    forall k | 0 <= k < n ensures GetName(items[k].id).Ok? {
      assert items[k] == items[..n][k];
    }
  }

  lemma ToMapsInit(xs: seq<AggrItem>)
    requires OverExpressions(xs) && |xs| > 0 && ToMaps(xs).Ok?
    ensures ToMaps(xs[..|xs| - 1]).Ok? && GetName(xs[|xs| - 1].id).Ok? && xs[|xs| - 1].grouping.fault.None?
    ensures GetName(xs[|xs| - 1].id).value !in ToMaps(xs[..|xs| - 1]).value.0.values
  {
  }

  /** Both maps are well formed. */
  lemma {:induction false} ToMapsValid(xs: seq<AggrItem>)
    requires OverExpressions(xs) && ToMaps(xs).Ok?
    ensures Valid(ToMaps(xs).value.0) && Valid(ToMaps(xs).value.1)
    decreases |xs|
  {
    if xs != [] {
      var init := xs[..|xs| - 1];
      ToMapsInit(xs);
      ToMapsValid(init);
      var maps := ToMaps(init).value;
      var last := xs[|xs| - 1];
      var name := GetName(last.id).value;
      ToMapsStep(xs);
      PutValid(maps.0, name, last.grouping.text);
      PutValid(maps.1, name, RoleOrMeasure(last.role));
    }
  }

  lemma ToMapsLastIsNew(xs: seq<AggrItem>)
    requires OverExpressions(xs) && |xs| > 0 && ToMaps(xs).Ok?
    requires AliasesResolve(xs[..|xs| - 1]) && Visited(xs[..|xs| - 1]) && Distinct(Aliases(xs[..|xs| - 1]))
    ensures GetName(xs[|xs| - 1].id).Ok?
    ensures GetName(xs[|xs| - 1].id).value !in Aliases(xs[..|xs| - 1])
  {
    ToMapsInit(xs);
    ToMapsAccepts(xs[..|xs| - 1]);
    ToMapsValid(xs[..|xs| - 1]);
  }

  /** The maps go through only if every name reads, every expression is
      visited and no name repeats. */
  lemma {:induction false} ToMapsOkOnlyIfDistinct(xs: seq<AggrItem>)
    requires OverExpressions(xs) && ToMaps(xs).Ok?
    ensures AliasesResolve(xs) && Visited(xs) && Distinct(Aliases(xs))
    decreases |xs|
  {
    if xs != [] {
      var n := |xs| - 1;
      var init := xs[..n];
      assert ToMaps(init).Ok? by {
        ToMapsInit(xs);
      }
      ToMapsOkOnlyIfDistinct(init);
      ToMapsLastIsNew(xs);
      AliasesExtend(xs);
      VisitedSnoc(xs);
      var ns := Aliases(xs);
      assert ns[..n] == Aliases(init) by {
        AliasesPrefix(xs, n);
      }
      assert ns[n] == GetName(xs[n].id).value;
    }
  }

  /** The aggregation planned for one item once its alias is read: a column
      of the normalised dataset is aggregated by the item's function (a
      grouping of another kind cannot be cast); any other alias falls back to
      `count()`. */
  function Collector(normalized: map<string, Type>, alias: string, grouping: Grouping): (r: Result<Aggregation>)
    ensures alias !in normalized ==> r == Ok(CountAll)
    ensures alias in normalized && grouping.OtherGrouping? ==> r == Err(ClassCast)
    ensures alias in normalized && grouping.AggrDataset? ==>
              r == ConvertToAggregation(grouping.fn, alias, normalized[alias])
  {
    if alias !in normalized then Ok(CountAll)
    else if grouping.OtherGrouping? then Err(ClassCast)
    else ConvertToAggregation(grouping.fn, alias, normalized[alias])
  }

  /** The collector map after the given items of the second loop. */
  function CollectorFold(normalized: map<string, Type>, items: seq<AggrItem>): (r: Result<OMap<string, Aggregation>>)
    ensures r.Ok? ==> |r.value.keys| <= |items|
    decreases |items|
  {
    if items == [] then Ok(Empty())
    else
      var m :- CollectorFold(normalized, items[..|items| - 1]);
      var last := items[|items| - 1];
      var alias :- GetName(last.id);
      var agg :- Collector(normalized, alias, last.grouping);
      Ok(Put(m, alias, agg))
  }

  /** The dataset after the first phase: every aggregate over an expression
      computed as a column of its own. */
  function Normalized(dataset: DatasetExpr, items: seq<AggrItem>): DatasetExpr
    requires ToMaps(DatasetItems(items)).Ok?
  {
    var maps := ToMaps(DatasetItems(items)).value;
    Calc(dataset, maps.0, maps.1)
  }

  /** What `visitAggrClause` returns. `structureOf` is the structure the engine
      reports for a planned dataset; `groupBy` comes from the group-by clause. */
  function AggrPlan(dataset: DatasetExpr, groupBy: seq<string>, items: seq<AggrItem>,
                    structureOf: DatasetExpr -> map<string, Type>): (r: Result<DatasetExpr>)
    ensures r.Ok? ==> r.value.Aggr? && r.value.groupBy == groupBy && r.value.source.Calc? && r.value.source.source == dataset
  {
    var maps :- ToMaps(DatasetItems(items));
    var normalized := Calc(dataset, maps.0, maps.1);
    var collectors :- CollectorFold(structureOf(normalized), items);
    Ok(Aggr(normalized, groupBy, collectors))
  }

  /** The fold over one more item: its name, then its aggregation, then one more `put`. */
  lemma CollectorFoldPrefixStep(normalized: map<string, Type>, items: seq<AggrItem>, k: nat)
    requires k < |items| && CollectorFold(normalized, items[..k]).Ok?
    ensures var alias := GetName(items[k].id);
            var next := CollectorFold(normalized, items[..k + 1]);
            (alias.Err? ==> next == Err(alias.error)) &&
            (alias.Ok? && Collector(normalized, alias.value, items[k].grouping).Err? ==>
               next == Err(Collector(normalized, alias.value, items[k].grouping).error)) &&
            (alias.Ok? && Collector(normalized, alias.value, items[k].grouping).Ok? ==>
               next == Ok(Put(CollectorFold(normalized, items[..k]).value, alias.value,
                              Collector(normalized, alias.value, items[k].grouping).value)))
  {
    var upTo := items[..k + 1];
    assert upTo[..k] == items[..k];
    assert upTo[k] == items[k];
  }

  lemma {:induction false} CollectorFoldStopsAtError(normalized: map<string, Type>, items: seq<AggrItem>, p: seq<AggrItem>)
    requires |p| <= |items| && p == items[..|p|] && CollectorFold(normalized, p).Err?
    ensures CollectorFold(normalized, items) == CollectorFold(normalized, p)
    decreases |items|
  {
    if |p| < |items| {
      var init := items[..|items| - 1];
      assert p == init[..|p|];
      CollectorFoldStopsAtError(normalized, init, p);
    } else {
      assert p == items;
    }
  }


  /** The second loop of `visitAggrClause`, over every item. */
  method CollectAggregations(structure: map<string, Type>, items: seq<AggrItem>)
    returns (r: Result<OMap<string, Aggregation>>)
    ensures r == CollectorFold(structure, items)
  {
    var collectors: OMap<string, Aggregation> := Empty();
    var i := 0;
    while i < |items|
      invariant i <= |items|
      invariant CollectorFold(structure, items[..i]) == Ok(collectors)
    {
      CollectorFoldPrefixStep(structure, items, i);
      var alias := GetName(items[i].id);
      if alias.Err? {
        CollectorFoldStopsAtError(structure, items, items[..i + 1]);
        return Err(alias.error);
      }
      var agg := Collector(structure, alias.value, items[i].grouping);
      if agg.Err? {
        CollectorFoldStopsAtError(structure, items, items[..i + 1]);
        return Err(agg.error);
      }
      collectors := Put(collectors, alias.value, agg.value);
      i := i + 1;
    }
    assert items[..i] == items;
    return Ok(collectors);
  }

  /** `visitAggrClause`: the expressions are first computed by one
      `executeCalc`, issued even when there is none, then each item becomes an
      aggregation over the normalised dataset. */
  method VisitAggrClause(dataset: DatasetExpr, groupBy: seq<string>, items: seq<AggrItem>,
                         structureOf: DatasetExpr -> map<string, Type>) returns (r: Result<DatasetExpr>)
    ensures r == AggrPlan(dataset, groupBy, items, structureOf)
  {
    var maps := ToMaps(DatasetItems(items));
    if maps.Err? {
      return Err(maps.error);
    }
    var normalized := Calc(dataset, maps.value.0, maps.value.1);
    var collectors := CollectAggregations(structureOf(normalized), items);
    if collectors.Err? {
      return Err(collectors.error);
    }
    return Ok(Aggr(normalized, groupBy, collectors.value));
  }

  predicate CollectorsDefined(normalized: map<string, Type>, items: seq<AggrItem>)
  {
    AliasesResolve(items) &&
    forall k :: 0 <= k < |items| ==> Collector(normalized, GetName(items[k].id).value, items[k].grouping).Ok?
  }

  /** Each item's alias with its aggregation, in item order. */
  function CollectorPairs(normalized: map<string, Type>, items: seq<AggrItem>): (ps: seq<(string, Aggregation)>)
    requires CollectorsDefined(normalized, items)
    ensures |ps| == |items|
  {
    seq(|items|, k requires 0 <= k < |items| =>
      (GetName(items[k].id).value, Collector(normalized, GetName(items[k].id).value, items[k].grouping).value))
  }

  lemma CollectorPrefix(normalized: map<string, Type>, items: seq<AggrItem>, n: nat)
    requires CollectorsDefined(normalized, items) && n <= |items|
    ensures CollectorsDefined(normalized, items[..n])
    ensures CollectorPairs(normalized, items[..n]) == CollectorPairs(normalized, items)[..n]
  {
    assert forall k :: 0 <= k < n ==> items[..n][k] == items[k];
  }

  lemma CollectorsDefinedExtend(normalized: map<string, Type>, items: seq<AggrItem>)
    requires |items| > 0 && CollectorsDefined(normalized, items[..|items| - 1])
    requires GetName(items[|items| - 1].id).Ok?
    requires Collector(normalized, GetName(items[|items| - 1].id).value, items[|items| - 1].grouping).Ok?
    ensures CollectorsDefined(normalized, items)
  {
    var n := |items| - 1;
    assert forall k :: 0 <= k < n ==> items[..n][k] == items[k];
  }

  /** The second loop goes through exactly when every alias reads and every
      aggregation can be built. */
  lemma {:induction false} CollectorFoldOk(normalized: map<string, Type>, items: seq<AggrItem>)
    ensures CollectorFold(normalized, items).Ok? <==> CollectorsDefined(normalized, items)
    decreases |items|
  {
    if items != [] {
      var n := |items| - 1;
      var init := items[..n];
      CollectorFoldOk(normalized, init);
      if CollectorsDefined(normalized, items) {
        CollectorPrefix(normalized, items, n);
      }
      if CollectorFold(normalized, items).Ok? {
        CollectorsDefinedExtend(normalized, items);
      }
    }
  }

  /** The map is then built by `put` of each item's alias and aggregation in
      order. */
  lemma {:induction false} CollectorFoldDecomposes(normalized: map<string, Type>, items: seq<AggrItem>)
    requires CollectorsDefined(normalized, items)
    ensures CollectorFold(normalized, items) == Ok(FromPairs(CollectorPairs(normalized, items)))
    decreases |items|
  {
    if items != [] {
      var n := |items| - 1;
      var init := items[..n];
      CollectorPrefix(normalized, items, n);
      CollectorFoldDecomposes(normalized, init);
      var ps := CollectorPairs(normalized, items);
      var last := items[n];
      assert GetName(last.id) == Ok(ps[n].0);
      assert Collector(normalized, ps[n].0, last.grouping) == Ok(ps[n].1);
      assert FromPairs(ps) == Put(FromPairs(ps[..n]), ps[n].0, ps[n].1);
    }
  }

  /** The aggr plan, both ways: it goes through exactly when both phases do,
      and is then one aggregation, over the normalised dataset, of every
      item's aggregation put in item order. */
  lemma AggrPlanShape(dataset: DatasetExpr, groupBy: seq<string>, items: seq<AggrItem>,
                      structureOf: DatasetExpr -> map<string, Type>)
    ensures AggrPlan(dataset, groupBy, items, structureOf).Ok? <==>
              ToMaps(DatasetItems(items)).Ok? &&
              CollectorsDefined(structureOf(Normalized(dataset, items)), items)
    ensures AggrPlan(dataset, groupBy, items, structureOf).Ok? ==>
              var s := structureOf(Normalized(dataset, items));
              AggrPlan(dataset, groupBy, items, structureOf).value ==
              Aggr(Normalized(dataset, items), groupBy, FromPairs(CollectorPairs(s, items)))
  {
    if ToMaps(DatasetItems(items)).Ok? {
      var s := structureOf(Normalized(dataset, items));
      CollectorFoldOk(s, items);
      if CollectorsDefined(s, items) {
        CollectorFoldDecomposes(s, items);
      }
    }
  }

  /** The first phase names a column after every aggregate over an
      expression, in item order, and fails on an unreadable name, a rejected
      expression or a repeated name. */
  lemma NormalizedColumns(dataset: DatasetExpr, items: seq<AggrItem>)
    ensures ToMaps(DatasetItems(items)).Ok? <==>
              AliasesResolve(DatasetItems(items)) && Visited(DatasetItems(items)) && Distinct(Aliases(DatasetItems(items)))
    ensures ToMaps(DatasetItems(items)).Ok? ==>
              Normalized(dataset, items).source == dataset &&
              Normalized(dataset, items).expressions.keys == Aliases(DatasetItems(items))
  {
    var xs := DatasetItems(items);
    if ToMaps(xs).Ok? {
      ToMapsOkOnlyIfDistinct(xs);
    }
    if AliasesResolve(xs) && Visited(xs) && Distinct(Aliases(xs)) {
      ToMapsAccepts(xs);
    }
  }

  /** The aggregation of an item is that of the last item with its alias;
      with distinct aliases the collectors come in item order. */
  lemma AggrCollectors(dataset: DatasetExpr, groupBy: seq<string>, items: seq<AggrItem>,
                       structureOf: DatasetExpr -> map<string, Type>, k: nat)
    requires AggrPlan(dataset, groupBy, items, structureOf).Ok?
    requires k < |items|
    requires AliasesResolve(items)
    requires forall j :: k < j < |items| ==> GetName(items[j].id) != GetName(items[k].id)
    ensures var s := structureOf(Normalized(dataset, items));
            var alias := GetName(items[k].id).value;
            var collectors := AggrPlan(dataset, groupBy, items, structureOf).value.collectors;
            alias in collectors.values &&
            Collector(s, alias, items[k].grouping) == Ok(collectors.values[alias])
    ensures Distinct(Aliases(items)) ==>
              AggrPlan(dataset, groupBy, items, structureOf).value.collectors.keys == Aliases(items)
  {
    AggrPlanShape(dataset, groupBy, items, structureOf);
    var s := structureOf(Normalized(dataset, items));
    var ps := CollectorPairs(s, items);
    FromPairsLastWins(ps, k);
    if Distinct(Aliases(items)) {
      assert FirstComponents(ps) == Aliases(items);
      FromPairsOrder(ps);
    }
  }
}
