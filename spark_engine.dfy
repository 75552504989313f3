/** The backend-independent logic of the Spark processing engine: role maps,
    column renaming and its inverse, the union guards, the aliasing done by
    `calc`, and the per-row semantics of the two validation operators.

    A Spark dataset is seen through its column names (for renaming) or through
    its rows, each a map from column name to value; the Spark runtime itself
    is not part of this model. */
module SparkEngine {
  import opened Values
  import opened OrderedMap
  import opened Datasets

  // ---------------------------------------------------------------------
  // Role maps
  // ---------------------------------------------------------------------

  /** `getRoleMap`: `Collectors.toMap(name, role)` over the components; a
      name that occurs twice makes `toMap` throw. */
  function RoleMap(st: Structure): (r: Result<map<string, Role>>)
    ensures r.Ok? ==> forall n :: n in r.value <==> n in ColumnNames(st)
    ensures r.Ok? ==> forall i :: 0 <= i < |st| ==> r.value[st[i].name] == st[i].role
    ensures r.Err? ==> r.error.DuplicateKey? && r.error.key in ColumnNames(st)
    decreases |st|
  {
    if st == [] then Ok(map[])
    else
      var init := st[..|st| - 1];
      var c := st[|st| - 1];
      assert ColumnNames(st) == ColumnNames(init) + [c.name];
      var acc :- RoleMap(init);
      if c.name in acc then Err(DuplicateKey(c.name))
      else Ok(acc[c.name := c.role])
  }

  /** `getRoleMap` fails exactly on a structure that repeats a name. */
  lemma {:induction false} RoleMapOkIffDistinct(st: Structure)
    ensures RoleMap(st).Ok? <==> Distinct(ColumnNames(st))
    decreases |st|
  {
    if st != [] {
      var n := |st| - 1;
      var init := st[..n];
      var ns := ColumnNames(st);
      var prior := ColumnNames(init);
      assert ns == prior + [st[n].name];
      RoleMapOkIffDistinct(init);
      if Distinct(ns) {
        DistinctPrefix(ns, n);
        assert ns[..n] == prior;
        assert st[n].name !in prior by {
          forall j | 0 <= j < n
            ensures prior[j] != st[n].name
          {
            assert prior[j] == ns[j];
          }
        }
      }
    }
  }

  /** `identifierNames`: the names of the IDENTIFIER components, in order. */
  function IdentifierNames(st: Structure): (ns: seq<string>)
    ensures |ns| <= |st|
    ensures forall n :: n in ns <==> exists i :: 0 <= i < |st| && st[i].role == Identifier && st[i].name == n
    decreases |st|
  {
    if st == [] then []
    else
      var init := st[..|st| - 1];
      var c := st[|st| - 1];
      assert forall i :: 0 <= i < |init| ==> init[i] == st[i];
      IdentifierNames(init) + (if c.role == Identifier then [c.name] else [])
  }

  /** The identifier names of a concatenation are those of each part, in
      order. */
  lemma {:induction false} IdentifierNamesAppend(a: Structure, b: Structure)
    ensures IdentifierNames(a + b) == IdentifierNames(a) + IdentifierNames(b)
    decreases |b|
  {
    if b == [] {
      assert a + b == a;
    } else {
      var n := |b| - 1;
      var ab := a + b;
      assert ab[..|ab| - 1] == a + b[..n];
      assert ab[|ab| - 1] == b[n];
      IdentifierNamesAppend(a, b[..n]);
      var tail := if b[n].role == Identifier then [b[n].name] else [];
      assert IdentifierNames(ab) == IdentifierNames(a + b[..n]) + tail;
      assert IdentifierNames(b) == IdentifierNames(b[..n]) + tail;
    }
  }

  // ---------------------------------------------------------------------
  // Renaming columns
  // ---------------------------------------------------------------------

  /** What `rename` makes of one column: a key of the map takes its new name,
      a name that is neither a key nor a value stays, and a name that is
      only a value is dropped. */
  function RenameOne(c: string, fromTo: map<string, string>): seq<string>
  {
    if c in fromTo then [fromTo[c]]
    else if c !in fromTo.Values then [c]
    else []
  }

  /** The columns `rename` selects, column by column in input order. */
  function Renamed(cols: seq<string>, fromTo: map<string, string>): (r: seq<string>)
    ensures |r| <= |cols|
    decreases |cols|
  {
    if cols == [] then []
    else Renamed(cols[..|cols| - 1], fromTo) + RenameOne(cols[|cols| - 1], fromTo)
  }

  /** `rename(dataset, fromTo)`: the column list of the selected dataset. */
  method RenameColumns(cols: seq<string>, fromTo: map<string, string>) returns (out: seq<string>)
    ensures out == Renamed(cols, fromTo)
  {
    out := [];
    var i := 0;
    while i < |cols|
      invariant 0 <= i <= |cols|
      invariant out == Renamed(cols[..i], fromTo)
    {
      var name := cols[i];
      assert cols[..i + 1][..i] == cols[..i];
      if name in fromTo {
        out := out + [fromTo[name]];
      } else if name !in fromTo.Values {
        out := out + [name];
      }
      i := i + 1;
    }
    assert cols[..i] == cols;
  }

  /** Renaming works column by column, so it distributes over concatenation
      and keeps the relative order of the columns. */
  lemma {:induction false} RenamedAppend(a: seq<string>, b: seq<string>, fromTo: map<string, string>)
    ensures Renamed(a + b, fromTo) == Renamed(a, fromTo) + Renamed(b, fromTo)
    decreases |b|
  {
    if b == [] {
      assert a + b == a;
    } else {
      var init, c := b[..|b| - 1], b[|b| - 1];
      assert b == init + [c];
      AppendAssoc(a, init, [c]);
      RenamedAppend(a, init, fromTo);
      RenamedSnoc(a + init, c, fromTo);
      RenamedSnoc(init, c, fromTo);
      AppendAssoc(Renamed(a, fromTo), Renamed(init, fromTo), RenameOne(c, fromTo));
    }
  }

  lemma AppendAssoc(a: seq<string>, b: seq<string>, c: seq<string>)
    ensures a + (b + c) == (a + b) + c
  {
  }

  lemma RenamedSnoc(cols: seq<string>, c: string, fromTo: map<string, string>)
    ensures Renamed(cols + [c], fromTo) == Renamed(cols, fromTo) + RenameOne(c, fromTo)
  {
    assert (cols + [c])[..|cols|] == cols;
  }

  /** A name is selected exactly when some column is a key renamed to it, or
      is that name itself and neither a key nor a value. */
  lemma {:induction false} RenamedMembership(cols: seq<string>, fromTo: map<string, string>, x: string)
    ensures x in Renamed(cols, fromTo) <==>
      exists i :: 0 <= i < |cols| &&
        ((cols[i] in fromTo && fromTo[cols[i]] == x) ||
         (cols[i] !in fromTo && cols[i] !in fromTo.Values && cols[i] == x))
    decreases |cols|
  {
    if cols != [] {
      var n := |cols| - 1;
      var init := cols[..n];
      RenamedMembership(init, fromTo, x);
      assert forall i :: 0 <= i < n ==> init[i] == cols[i];
    }
  }

  /** `invertMap`: `toMap(value, key)` over the entries in their iteration
      order; a value reached from two keys makes `toMap` throw. */
  function InvertEntries(keys: seq<string>, fromTo: map<string, string>): (r: Result<map<string, string>>)
    requires forall i :: 0 <= i < |keys| ==> keys[i] in fromTo
    ensures r.Ok? ==> forall i :: 0 <= i < |keys| ==> fromTo[keys[i]] in r.value
    ensures r.Ok? ==> forall v :: v in r.value ==> exists i :: 0 <= i < |keys| && fromTo[keys[i]] == v && r.value[v] == keys[i]
    ensures r.Err? ==> r.error.DuplicateKey?
    decreases |keys|
  {
    if keys == [] then Ok(map[])
    else
      var init := keys[..|keys| - 1];
      var k := keys[|keys| - 1];
      var acc :- InvertEntries(init, fromTo);
      if fromTo[k] in acc then Err(DuplicateKey(fromTo[k]))
      else Ok(acc[fromTo[k] := k])
  }

  function InvertMap(fromTo: OMap<string, string>): (r: Result<map<string, string>>)
    requires Valid(fromTo)
    ensures r.Ok? ==> forall k :: k in fromTo.values ==> fromTo.values[k] in r.value
    ensures r.Err? ==> r.error.DuplicateKey?
  {
    InvertEntries(fromTo.keys, fromTo.values)
  }

  /** No two keys share a value. */
  predicate Injective(m: map<string, string>)
  {
    forall k1, k2 :: k1 in m && k2 in m && k1 != k2 ==> m[k1] != m[k2]
  }

  /** No two of the listed keys share a value. */
  predicate DistinctValues(keys: seq<string>, fromTo: map<string, string>)
    requires forall i :: 0 <= i < |keys| ==> keys[i] in fromTo
  {
    forall i, j :: 0 <= i < j < |keys| ==> fromTo[keys[i]] != fromTo[keys[j]]
  }

  lemma DistinctValuesExtend(keys: seq<string>, fromTo: map<string, string>)
    requires |keys| > 0 && forall i :: 0 <= i < |keys| ==> keys[i] in fromTo
    ensures DistinctValues(keys, fromTo) <==>
      DistinctValues(keys[..|keys| - 1], fromTo) &&
      forall i :: 0 <= i < |keys| - 1 ==> fromTo[keys[i]] != fromTo[keys[|keys| - 1]]
  {
    var init := keys[..|keys| - 1];
    assert forall i :: 0 <= i < |init| ==> init[i] == keys[i];
  }

  lemma {:induction false} InvertEntriesOk(keys: seq<string>, fromTo: map<string, string>)
    requires forall i :: 0 <= i < |keys| ==> keys[i] in fromTo
    ensures InvertEntries(keys, fromTo).Ok? <==> DistinctValues(keys, fromTo)
    decreases |keys|
  {
    if keys != [] {
      var n := |keys| - 1;
      var init := keys[..n];
      var v := fromTo[keys[n]];
      InvertEntriesOk(init, fromTo);
      DistinctValuesExtend(keys, fromTo);
      if InvertEntries(init, fromTo).Ok? {
        var acc := InvertEntries(init, fromTo).value;
        if v in acc {
          var i :| 0 <= i < n && fromTo[init[i]] == v && acc[v] == init[i];
          assert fromTo[keys[i]] == v;
        } else {
          assert InvertEntries(keys, fromTo) == Ok(acc[v := keys[n]]);
          forall i | 0 <= i < n
            ensures fromTo[keys[i]] != v
          {
            assert init[i] == keys[i];
            assert fromTo[init[i]] in acc;
          }
        }
      }
    }
  }

  /** On success every value maps back to the key it came from. */
  lemma {:induction false} InvertEntriesValues(keys: seq<string>, fromTo: map<string, string>, i: nat)
    requires forall j :: 0 <= j < |keys| ==> keys[j] in fromTo
    requires i < |keys| && InvertEntries(keys, fromTo).Ok?
    ensures InvertEntries(keys, fromTo).value[fromTo[keys[i]]] == keys[i]
    decreases |keys|
  {
    var n := |keys| - 1;
    var init := keys[..n];
    if i < n {
      InvertEntriesValues(init, fromTo, i);
    }
  }

  /** `invertMap` succeeds exactly on an injective map, and then maps every
      value back to its key. */
  lemma InvertMapOk(fromTo: OMap<string, string>)
    requires Valid(fromTo)
    ensures InvertMap(fromTo).Ok? <==> Injective(fromTo.values)
    ensures InvertMap(fromTo).Ok? ==>
      (forall k :: k in fromTo.values ==> InvertMap(fromTo).value[fromTo.values[k]] == k) &&
      (forall v :: v in InvertMap(fromTo).value <==> v in fromTo.values.Values) &&
      (forall v :: v in InvertMap(fromTo).value ==> InvertMap(fromTo).value[v] in fromTo.values)
  {
    InvertEntriesOk(fromTo.keys, fromTo.values);
    if InvertMap(fromTo).Ok? {
      InvertMapInjective(fromTo);
      InvertMapBack(fromTo);
      InvertMapDomain(fromTo);
    } else {
      InvertMapNotInjective(fromTo);
    }
  }

  lemma InvertMapInjective(fromTo: OMap<string, string>)
    requires Valid(fromTo) && DistinctValues(fromTo.keys, fromTo.values)
    ensures Injective(fromTo.values)
  {
    var ks, m := fromTo.keys, fromTo.values;
    forall k1, k2 | k1 in m && k2 in m && k1 != k2
      ensures m[k1] != m[k2]
    {
      var i :| 0 <= i < |ks| && ks[i] == k1;
      var j :| 0 <= j < |ks| && ks[j] == k2;
      if i < j {} else {}
    }
  }

  lemma InvertMapBack(fromTo: OMap<string, string>)
    requires Valid(fromTo) && InvertMap(fromTo).Ok?
    ensures forall k :: k in fromTo.values ==> InvertMap(fromTo).value[fromTo.values[k]] == k
  {
    var ks, m := fromTo.keys, fromTo.values;
    forall k | k in m
      ensures InvertMap(fromTo).value[m[k]] == k
    {
      var i :| 0 <= i < |ks| && ks[i] == k;
      InvertEntriesValues(ks, m, i);
    }
  }

  lemma InvertMapDomain(fromTo: OMap<string, string>)
    requires Valid(fromTo) && InvertMap(fromTo).Ok?
    ensures forall v :: v in InvertMap(fromTo).value <==> v in fromTo.values.Values
    ensures forall v :: v in InvertMap(fromTo).value ==> InvertMap(fromTo).value[v] in fromTo.values
  {
    var ks, m, r := fromTo.keys, fromTo.values, InvertMap(fromTo).value;
    forall v | v in m.Values
      ensures v in r
    {
      var k :| k in m && m[k] == v;
      var i :| 0 <= i < |ks| && ks[i] == k;
    }
  }

  lemma InvertMapNotInjective(fromTo: OMap<string, string>)
    requires Valid(fromTo) && !DistinctValues(fromTo.keys, fromTo.values)
    ensures !Injective(fromTo.values)
  {
    var ks, m := fromTo.keys, fromTo.values;
    var i, j :| 0 <= i < j < |ks| && m[ks[i]] == m[ks[j]];
    DistinctPairwise(ks, i, j);
  }

  /** One column renamed there and back. */
  lemma RenameOneRoundTrip(c: string, fromTo: OMap<string, string>, inverse: map<string, string>)
    requires Valid(fromTo) && InvertMap(fromTo) == Ok(inverse)
    requires c !in fromTo.values ==> c !in fromTo.values.Values
    ensures Renamed(RenameOne(c, fromTo.values), inverse) == [c]
  {
    var m := fromTo.values;
    InvertMapOk(fromTo);
    if c in m {
      assert Renamed([m[c]], inverse) == Renamed([], inverse) + RenameOne(m[c], inverse);
    } else {
      assert c !in inverse.Values by {
        forall v | v in inverse
          ensures inverse[v] != c
        {
          assert inverse[v] in m;
        }
      }
      assert Renamed([c], inverse) == Renamed([], inverse) + RenameOne(c, inverse);
    }
  }

  /** Renaming by an injective map and then by its inverse gives back the
      original columns, provided no kept column already bears a target
      name. */
  lemma {:induction false} RenameRoundTrip(cols: seq<string>, fromTo: OMap<string, string>, inverse: map<string, string>)
    requires Valid(fromTo) && InvertMap(fromTo) == Ok(inverse)
    requires forall i :: 0 <= i < |cols| && cols[i] !in fromTo.values ==> cols[i] !in fromTo.values.Values
    ensures Renamed(Renamed(cols, fromTo.values), inverse) == cols
    decreases |cols|
  {
    if cols != [] {
      var m := fromTo.values;
      var n := |cols| - 1;
      var init := cols[..n];
      var c := cols[n];
      SplitLast(cols);
      assert forall i :: 0 <= i < n ==> init[i] == cols[i];
      RenameRoundTrip(init, fromTo, inverse);
      var once := Renamed(init, m);
      assert Renamed(cols, m) == once + RenameOne(c, m);
      RenamedAppend(once, RenameOne(c, m), inverse);
      RenameOneRoundTrip(c, fromTo, inverse);
      calc {
        Renamed(Renamed(cols, m), inverse);
        Renamed(once, inverse) + Renamed(RenameOne(c, m), inverse);
        init + [c];
        cols;
      }
    }
  }

  lemma SplitLast<T>(s: seq<T>)
    requires |s| > 0
    ensures s == s[..|s| - 1] + [s[|s| - 1]]
  {
  }

  /** The columns a `check_datapoint` adds (or any other column that is
      neither renamed nor a target) survive the rename by the rule aliases
      and back, behind the restored columns. */
  lemma RenameRoundTripWithExtra(cols: seq<string>, extra: seq<string>, fromTo: OMap<string, string>, inverse: map<string, string>)
    requires Valid(fromTo) && InvertMap(fromTo) == Ok(inverse)
    requires forall i :: 0 <= i < |cols| && cols[i] !in fromTo.values ==> cols[i] !in fromTo.values.Values
    requires forall i :: 0 <= i < |extra| ==> extra[i] !in fromTo.values && extra[i] !in fromTo.values.Values
    ensures Renamed(Renamed(cols, fromTo.values) + extra, inverse) == cols + extra
  {
    var m := fromTo.values;
    RenameRoundTrip(cols, fromTo, inverse);
    RenamedAppend(Renamed(cols, m), extra, inverse);
    InvertMapOk(fromTo);
    forall i | 0 <= i < |extra|
      ensures extra[i] !in inverse.Values && extra[i] !in inverse
    {
      forall v | v in inverse
        ensures inverse[v] != extra[i]
      {
        assert inverse[v] in m;
      }
    }
    RenameKeepsUntouched(extra, inverse);
  }

  /** Columns that are neither keys nor values are kept as they are. */
  lemma {:induction false} RenameKeepsUntouched(cols: seq<string>, fromTo: map<string, string>)
    requires forall i :: 0 <= i < |cols| ==> cols[i] !in fromTo.Values && cols[i] !in fromTo
    ensures Renamed(cols, fromTo) == cols
    decreases |cols|
  {
    if cols != [] {
      var n := |cols| - 1;
      RenameKeepsUntouched(cols[..n], fromTo);
      assert cols[..n] + [cols[n]] == cols;
    }
  }

  // ---------------------------------------------------------------------
  // Role map of `executeRename`
  // ---------------------------------------------------------------------

  /** `Map.get`: the value of a key, `null` when absent. */
  function Lookup(m: map<string, Role>, k: string): (r: Option<Role>)
    ensures r.Some? <==> k in m
    ensures r.Some? ==> r.value == m[k]
  {
    if k in m then Some(m[k]) else None
  }

  /** The original roles, as a map whose values may be `null`. */
  function Lift(m: map<string, Role>): (r: map<string, Option<Role>>)
    ensures forall n :: n in r <==> n in m
    ensures forall n :: n in m ==> r[n] == Some(m[n])
  {
    map n | n in m :: Some(m[n])
  }

  /** The copy of the original roles after the entries of `fromTo` up to `keys`
      have been put. */
  function RenamedRoles(original: map<string, Role>, keys: seq<string>, fromTo: map<string, string>): map<string, Option<Role>>
    requires forall i :: 0 <= i < |keys| ==> keys[i] in fromTo
    decreases |keys|
  {
    if keys == [] then Lift(original)
    else
      var k := keys[|keys| - 1];
      RenamedRoles(original, keys[..|keys| - 1], fromTo)[fromTo[k] := Lookup(original, k)]
  }

  /** `executeRename`'s role map: every target takes the role of its source. */
  method RenameRoles(original: map<string, Role>, fromTo: OMap<string, string>) returns (roles: map<string, Option<Role>>)
    requires Valid(fromTo)
    ensures roles == RenamedRoles(original, fromTo.keys, fromTo.values)
  {
    roles := Lift(original);
    var i := 0;
    while i < |fromTo.keys|
      invariant 0 <= i <= |fromTo.keys|
      invariant roles == RenamedRoles(original, fromTo.keys[..i], fromTo.values)
    {
      var from := fromTo.keys[i];
      assert fromTo.keys[..i + 1][..i] == fromTo.keys[..i];
      roles := roles[fromTo.values[from] := Lookup(original, from)];
      i := i + 1;
    }
    assert fromTo.keys[..i] == fromTo.keys;
  }

  /** A name that is no target keeps its original entry (or stays absent). */
  lemma {:induction false} RenamedRolesUntouched(original: map<string, Role>, keys: seq<string>, fromTo: map<string, string>, n: string)
    requires forall i :: 0 <= i < |keys| ==> keys[i] in fromTo
    requires forall i :: 0 <= i < |keys| ==> fromTo[keys[i]] != n
    ensures n in RenamedRoles(original, keys, fromTo) <==> n in original
    ensures n in original ==> RenamedRoles(original, keys, fromTo)[n] == Some(original[n])
    decreases |keys|
  {
    if keys != [] {
      var init := keys[..|keys| - 1];
      assert forall i :: 0 <= i < |init| ==> init[i] == keys[i];
      RenamedRolesUntouched(original, init, fromTo, n);
    }
  }

  /** A target takes the role its source had in the original map, `null` when
      the source is not a column; the last entry for a target wins. */
  lemma {:induction false} RenamedRolesTarget(original: map<string, Role>, keys: seq<string>, fromTo: map<string, string>, i: nat)
    requires forall j :: 0 <= j < |keys| ==> keys[j] in fromTo
    requires i < |keys|
    requires forall j :: i < j < |keys| ==> fromTo[keys[j]] != fromTo[keys[i]]
    ensures fromTo[keys[i]] in RenamedRoles(original, keys, fromTo)
    ensures RenamedRoles(original, keys, fromTo)[fromTo[keys[i]]] == Lookup(original, keys[i])
    decreases |keys|
  {
    var n := |keys| - 1;
    if i < n {
      var init := keys[..n];
      assert forall j :: 0 <= j < |init| ==> init[j] == keys[j];
      RenamedRolesTarget(original, init, fromTo, i);
    }
  }

  // ---------------------------------------------------------------------
  // Union
  // ---------------------------------------------------------------------

  /** A row: column name to value. */
  type Row = map<string, Value>

  /** A Spark row as `Dataset.union` sees it: one value per column, in the
      column order of the dataset it belongs to. */
  type Tuple = seq<Value>

  /** A dataset with its rows. */
  datatype Table = Table(structure: Structure, rows: seq<Tuple>)

  /** What `executeUnion` returns: the single input itself, or the stacked rows
      of every input with the roles of the first one, to be de-duplicated on
      `dedupBy`. The stacked rows are read under the first input's columns. */
  datatype UnionOutcome =
    | Unchanged(table: Table)
    | Stacked(rows: seq<Tuple>, roles: map<string, Role>, dedupBy: seq<string>)

  const INCOMPATIBLE_SCHEMA := "The schema of the dataset is not compatible"

  /** A structure as the `IndexedHashMap` from name to component; a later
      component of the same name replaces an earlier one. */
  function AsMap(st: Structure): (m: map<string, Component>)
    ensures forall n :: n in m <==> n in ColumnNames(st)
    decreases |st|
  {
    if st == [] then map[]
    else
      var init := st[..|st| - 1];
      assert ColumnNames(st) == ColumnNames(init) + [st[|st| - 1].name];
      AsMap(init)[st[|st| - 1].name := st[|st| - 1]]
  }

  /** `IndexedHashMap.equals`: the same components under the same names. */
  predicate SameStructure(a: Structure, b: Structure)
  {
    AsMap(a) == AsMap(b)
  }

  /** With distinct names a name looks up its own component. */
  lemma {:induction false} AsMapDistinct(st: Structure, i: nat)
    requires Distinct(ColumnNames(st)) && i < |st|
    ensures AsMap(st)[st[i].name] == st[i]
    decreases |st|
  {
    var n := |st| - 1;
    var init := st[..n];
    if i < n {
      var ns := ColumnNames(st);
      DistinctPairwise(ns, i, n);
      DistinctPrefix(ns, n);
      assert ns[..n] == ColumnNames(init);
      assert init[i] == st[i];
      AsMapDistinct(init, i);
      assert AsMap(st) == AsMap(init)[st[n].name := st[n]];
    }
  }

  /** Structure equality ignores the order of the columns. */
  lemma SameStructureIgnoresOrder(a: Structure, b: Structure)
    requires Distinct(ColumnNames(a)) && Distinct(ColumnNames(b))
    requires forall c :: c in a <==> c in b
    ensures SameStructure(a, b)
  {
    forall n | n in AsMap(a)
      ensures n in AsMap(b) && AsMap(b)[n] == AsMap(a)[n]
    {
      var i :| 0 <= i < |a| && ColumnNames(a)[i] == n;
      AsMapDistinct(a, i);
      assert a[i] in a;
      var j :| 0 <= j < |b| && b[j] == a[i];
      AsMapDistinct(b, j);
      assert ColumnNames(b)[j] == n;
    }
    forall n | n in AsMap(b)
      ensures n in AsMap(a)
    {
      var j :| 0 <= j < |b| && ColumnNames(b)[j] == n;
      assert b[j] in b;
      var i :| 0 <= i < |a| && a[i] == b[j];
      assert ColumnNames(a)[i] == n;
    }
  }

  /** `checkColNameCompatibility`: every structure equals the first. */
  method CheckColNameCompatibility(structures: seq<Structure>) returns (result: bool)
    requires |structures| > 0
    ensures result <==> forall i :: 1 <= i < |structures| ==> SameStructure(structures[0], structures[i])
  {
    result := true;
    var base := structures[0];
    var i := 1;
    while i <= |structures| - 1
      invariant 1 <= i <= |structures|
      invariant result
      invariant forall j :: 1 <= j < i ==> SameStructure(base, structures[j])
    {
      if !SameStructure(base, structures[i]) {
        result := false;
        break;
      }
      i := i + 1;
    }
  }

  predicate Compatible(tables: seq<Table>)
    requires |tables| > 0
  {
    forall i :: 1 <= i < |tables| ==> SameStructure(tables[0].structure, tables[i].structure)
  }

  /** The rows of every table, table after table, matched by position. */
  function Stack(tables: seq<Table>): (rows: seq<Tuple>)
    ensures |rows| == RowCount(tables)
    ensures |tables| > 0 ==> tables[0].rows <= rows
    decreases |tables|
  {
    if tables == [] then []
    else Stack(tables[..|tables| - 1]) + tables[|tables| - 1].rows
  }

  /** A row is stacked exactly when it is a row of one of the tables. */
  lemma {:induction false} StackMembership(tables: seq<Table>, x: Tuple)
    ensures x in Stack(tables) <==> exists i :: 0 <= i < |tables| && x in tables[i].rows
    decreases |tables|
  {
    if tables != [] {
      var init := tables[..|tables| - 1];
      assert forall i :: 0 <= i < |init| ==> init[i] == tables[i];
      StackMembership(init, x);
    }
  }

  /** The number of rows of all the tables. */
  function RowCount(tables: seq<Table>): nat
    decreases |tables|
  {
    if tables == [] then 0 else RowCount(tables[..|tables| - 1]) + |tables[|tables| - 1].rows|
  }

  /** `union` keeps every row in place: the rows of table `i` follow the rows
      of the tables before it, in their own order. */
  lemma {:induction false} StackOrder(tables: seq<Table>, i: nat, k: nat)
    requires i < |tables| && k < |tables[i].rows|
    ensures |Stack(tables)| == RowCount(tables)
    ensures RowCount(tables[..i]) + k < RowCount(tables)
    ensures Stack(tables)[RowCount(tables[..i]) + k] == tables[i].rows[k]
    decreases |tables|
  {
    var n := |tables| - 1;
    var init := tables[..n];
    if i < n {
      assert init[i] == tables[i] && init[..i] == tables[..i];
      StackOrder(init, i, k);
    } else {
      assert tables[..i] == init;
    }
  }

  /** The value a tuple holds under column `n` when read with structure `st`. */
  function Column(st: Structure, x: Tuple, n: string): Value
    decreases |st|
  {
    if st == [] || x == [] then VNull
    else if st[0].name == n then x[0]
    else Column(st[1..], x[1..], n)
  }

  /** The structure check ignores column order but `union` matches rows by
      position: an input whose columns come in another order passes the check,
      and its values end up under the first input's columns. */
  lemma ReorderedInputIsMisread()
    ensures var a := [Component("id", TLong, Identifier), Component("m", TLong, Measure)];
      var b := [a[1], a[0]];
      var tables := [Table(a, []), Table(b, [[VLong(1), VLong(2)]])];
      && Compatible(tables)
      && Column(b, tables[1].rows[0], "id") == VLong(2)
      && Stack(tables) == [[VLong(1), VLong(2)]]
      && Column(a, Stack(tables)[0], "id") == VLong(1)
  {
    var a := [Component("id", TLong, Identifier), Component("m", TLong, Measure)];
    var b := [a[1], a[0]];
    var tables := [Table(a, []), Table(b, [[VLong(1), VLong(2)]])];
    assert Distinct(ColumnNames(a)) && Distinct(ColumnNames(b)) by {
      assert ColumnNames(a) == ["id", "m"] && ColumnNames(b) == ["m", "id"];
      assert ["id", "m"][..1] == ["id"] && ["m", "id"][..1] == ["m"];
      assert ["id"][..0] == [] && ["m"][..0] == [];
    }
    SameStructureIgnoresOrder(a, b);
    assert tables[..1] == [tables[0]] && tables[..1][..0] == [];
    assert Stack(tables) == Stack(tables[..1]) + tables[1].rows;
  }

  /** The role of every component of the first structure, by name. */
  function DataRoles(st: Structure): (roles: map<string, Role>)
    ensures forall n :: n in roles <==> n in ColumnNames(st)
  {
    var m := AsMap(st);
    map n | n in m :: m[n].role
  }

  /** With distinct names the union's roles are those of `getRoleMap`. */
  lemma DataRolesAreRoleMap(st: Structure)
    requires Distinct(ColumnNames(st))
    ensures RoleMap(st).Ok? && DataRoles(st) == RoleMap(st).value
  {
    RoleMapOkIffDistinct(st);
    DataRolesMatch(st);
    var r, d := RoleMap(st).value, DataRoles(st);
    assert d == r;
  }

  lemma DataRolesMatch(st: Structure)
    requires Distinct(ColumnNames(st)) && RoleMap(st).Ok?
    ensures forall n :: n in DataRoles(st) <==> n in RoleMap(st).value
    ensures forall n :: n in RoleMap(st).value ==> DataRoles(st)[n] == RoleMap(st).value[n]
  {
    var r := RoleMap(st).value;
    forall n | n in r
      ensures DataRoles(st)[n] == r[n]
    {
      var i :| 0 <= i < |st| && ColumnNames(st)[i] == n;
      DataRolesAt(st, i);
    }
  }

  lemma DataRolesAt(st: Structure, i: nat)
    requires Distinct(ColumnNames(st)) && i < |st|
    ensures st[i].name in DataRoles(st) && DataRoles(st)[st[i].name] == st[i].role
  {
    AsMapDistinct(st, i);
  }

  /** The names among `names` whose component is an IDENTIFIER. */
  function IdFilter(names: seq<string>, m: map<string, Component>): seq<string>
    requires forall i :: 0 <= i < |names| ==> names[i] in m
    decreases |names|
  {
    if names == [] then []
    else
      var n := names[|names| - 1];
      IdFilter(names[..|names| - 1], m) + (if m[n].role == Identifier then [n] else [])
  }

  /** The union's de-duplication key: the IDENTIFIER columns in column order. */
  function IdColumns(st: Structure): seq<string>
  {
    IdFilter(ColumnNames(st), AsMap(st))
  }

  lemma {:induction false} IdFilterPrefix(st: Structure, k: nat)
    requires Distinct(ColumnNames(st)) && k <= |st|
    ensures IdFilter(ColumnNames(st)[..k], AsMap(st)) == IdentifierNames(st[..k])
    decreases k
  {
    if k > 0 {
      var ns, m := ColumnNames(st), AsMap(st);
      var p, q := ns[..k], st[..k];
      assert p[..k - 1] == ns[..k - 1] && q[..k - 1] == st[..k - 1];
      assert p[k - 1] == st[k - 1].name && q[k - 1] == st[k - 1];
      IdFilterPrefix(st, k - 1);
      AsMapDistinct(st, k - 1);
      var tail := if st[k - 1].role == Identifier then [st[k - 1].name] else [];
      assert IdFilter(p, m) == IdFilter(ns[..k - 1], m) + tail;
      assert IdentifierNames(q) == IdentifierNames(st[..k - 1]) + tail;
    }
  }

  /** With distinct names the de-duplication key is `identifierNames` of the
      first structure. */
  lemma IdColumnsAreIdentifierNames(st: Structure)
    requires Distinct(ColumnNames(st))
    ensures IdColumns(st) == IdentifierNames(st)
  {
    IdFilterPrefix(st, |st|);
    assert ColumnNames(st)[..|st|] == ColumnNames(st);
    assert st[..|st|] == st;
  }

  /** `executeUnion`'s `dataRoles` loop over the first structure. */
  method UnionRoles(base: Structure) returns (dataRoles: map<string, Role>)
    ensures dataRoles == DataRoles(base)
  {
    var structure := AsMap(base);
    var names := ColumnNames(base);
    dataRoles := map[];
    var i := 0;
    while i < |names|
      invariant 0 <= i <= |names|
      invariant forall n :: n in dataRoles <==> n in names[..i]
      invariant forall n :: n in dataRoles ==> n in structure && dataRoles[n] == structure[n].role
    {
      var item := structure[names[i]];
      assert names[..i + 1] == names[..i] + [names[i]];
      dataRoles := dataRoles[names[i] := item.role];
      i := i + 1;
    }
    assert names[..i] == names;
    assert forall n :: n in dataRoles <==> n in DataRoles(base);
  }

  /** `executeUnion`'s `idColList` loop over the first dataset's columns. */
  method UnionIdColumns(base: Structure) returns (idColList: seq<string>)
    ensures idColList == IdColumns(base)
  {
    var structure := AsMap(base);
    var names := ColumnNames(base);
    idColList := [];
    var i := 0;
    while i < |names|
      invariant 0 <= i <= |names|
      invariant idColList == IdFilter(names[..i], structure)
    {
      assert names[..i + 1][..i] == names[..i];
      if structure[names[i]].role == Identifier {
        idColList := idColList + [names[i]];
      }
      i := i + 1;
    }
    assert names[..i] == names;
  }

  /** `executeUnion`'s fold of `union` over the inputs. */
  method StackRows(tables: seq<Table>) returns (result: seq<Tuple>)
    requires |tables| > 0
    ensures result == Stack(tables)
  {
    result := tables[0].rows;
    assert tables[..1] == [tables[0]];
    assert Stack(tables[..1]) == Stack([]) + tables[0].rows;
    var i := 1;
    while i <= |tables| - 1
      invariant 1 <= i <= |tables|
      invariant result == Stack(tables[..i])
    {
      assert tables[..i + 1][..i] == tables[..i];
      result := result + tables[i].rows;
      i := i + 1;
    }
    assert tables[..i] == tables;
  }

  /** `executeUnion`. */
  method ExecuteUnion(tables: seq<Table>) returns (r: Result<UnionOutcome>)
    ensures |tables| == 0 ==> r == Err(IndexOutOfBounds)
    ensures |tables| > 0 && !Compatible(tables) ==> r == Err(UnsupportedOperation(INCOMPATIBLE_SCHEMA))
    ensures |tables| == 1 ==> r == Ok(Unchanged(tables[0]))
    ensures |tables| > 1 && Compatible(tables) ==>
      r == Ok(Stacked(Stack(tables), DataRoles(tables[0].structure), IdColumns(tables[0].structure)))
  {
    if |tables| == 0 {
      return Err(IndexOutOfBounds);
    }
    var structures := seq(|tables|, i requires 0 <= i < |tables| => tables[i].structure);
    var compatible := CheckColNameCompatibility(structures);
    assert compatible <==> Compatible(tables) by {
      assert forall i :: 0 <= i < |tables| ==> structures[i] == tables[i].structure;
    }
    if !compatible {
      return Err(UnsupportedOperation(INCOMPATIBLE_SCHEMA));
    }
    var dataRoles := UnionRoles(tables[0].structure);
    var idColList := UnionIdColumns(tables[0].structure);
    if |tables| == 1 {
      return Ok(Unchanged(tables[0]));
    }
    var result := StackRows(tables);
    r := Ok(Stacked(result, dataRoles, idColList));
  }

  // ---------------------------------------------------------------------
  // `executeCalc`
  // ---------------------------------------------------------------------

  function Digit(d: nat): (c: char)
    requires d < 10
    ensures '0' <= c <= '9'
    ensures c as int - '0' as int == d
  {
    ('0' as int + d) as char
  }

  /** `Integer.toString` of a non-negative number. */
  function DecimalString(n: nat): (s: string)
    ensures |s| >= 1 && forall i :: 0 <= i < |s| ==> '0' <= s[i] <= '9'
    ensures n >= 10 ==> |s| >= 2
    decreases n
  {
    if n < 10 then [Digit(n)]
    else DecimalString(n / 10) + [Digit(n % 10)]
  }

  /** Different numbers print differently. */
  lemma {:induction false} DecimalStringInjective(a: nat, b: nat)
    requires DecimalString(a) == DecimalString(b)
    ensures a == b
    decreases a
  {
    var s := DecimalString(a);
    if a >= 10 && b >= 10 {
      assert s[|s| - 1] == Digit(a % 10) && s[|s| - 1] == Digit(b % 10);
      assert DecimalString(a / 10) == s[..|s| - 1] == DecimalString(b / 10);
      DecimalStringInjective(a / 10, b / 10);
    } else if a < 10 && b < 10 {
      assert s[0] == Digit(a) && s[0] == Digit(b);
    }
  }

  /** The alias `executeCalc` gives to the item at position `k`. */
  function Alias(name: string, k: nat): string
  {
    name + "_" + DecimalString(k)
  }

  /** The position of the last underscore of `s`, or -1. */
  function LastUnderscore(s: string): (p: int)
    ensures -1 <= p < |s|
    decreases |s|
  {
    if s == [] then -1
    else if s[|s| - 1] == '_' then |s| - 1
    else LastUnderscore(s[..|s| - 1])
  }

  /** The underscore of an alias is its last one: digits follow it. */
  lemma {:induction false} LastUnderscoreOfAlias(name: string, digits: string)
    requires forall i :: 0 <= i < |digits| ==> '0' <= digits[i] <= '9'
    ensures LastUnderscore(name + "_" + digits) == |name|
    decreases |digits|
  {
    var s := name + "_" + digits;
    if digits != [] {
      var init := digits[..|digits| - 1];
      assert s[..|s| - 1] == name + "_" + init;
      LastUnderscoreOfAlias(name, init);
    }
  }

  /** An alias determines its name and its position. */
  lemma AliasInjective(n1: string, k1: nat, n2: string, k2: nat)
    requires Alias(n1, k1) == Alias(n2, k2)
    ensures n1 == n2 && k1 == k2
  {
    var s := Alias(n1, k1);
    var d1, d2 := DecimalString(k1), DecimalString(k2);
    LastUnderscoreOfAlias(n1, d1);
    LastUnderscoreOfAlias(n2, d2);
    assert |n1| == |n2|;
    assert n1 == s[..|n1|] == n2;
    assert d1 == s[|n1| + 1..] == d2;
    DecimalStringInjective(k1, k2);
  }

  /** The aliases of the items, in item order. */
  function Aliases(names: seq<string>): (aliases: seq<string>)
    ensures |aliases| == |names|
    ensures forall k :: 0 <= k < |names| ==> aliases[k] == Alias(names[k], k)
  {
    seq(|names|, k requires 0 <= k < |names| => Alias(names[k], k))
  }

  /** `aliasesToName` after the items up to `names`. */
  function AliasMap(names: seq<string>): map<string, string>
    decreases |names|
  {
    if names == [] then map[]
    else
      var k := |names| - 1;
      AliasMap(names[..k])[Alias(names[k], k) := names[k]]
  }

  /** Every alias maps back to its name, and the map holds nothing else. */
  lemma AliasMapFacts(names: seq<string>)
    ensures forall k :: 0 <= k < |names| ==> Alias(names[k], k) in AliasMap(names) && AliasMap(names)[Alias(names[k], k)] == names[k]
    ensures forall a :: a in AliasMap(names) <==> a in Aliases(names)
  {
    forall k | 0 <= k < |names|
      ensures Alias(names[k], k) in AliasMap(names) && AliasMap(names)[Alias(names[k], k)] == names[k]
    {
      AliasMapAt(names, k);
    }
    forall a
      ensures a in AliasMap(names) <==> a in Aliases(names)
    {
      AliasMapDomain(names, a);
    }
  }

  lemma {:induction false} AliasMapAt(names: seq<string>, k: nat)
    requires k < |names|
    ensures Alias(names[k], k) in AliasMap(names) && AliasMap(names)[Alias(names[k], k)] == names[k]
    decreases |names|
  {
    var n := |names| - 1;
    if k < n {
      var init := names[..n];
      assert init[k] == names[k];
      AliasMapAt(init, k);
      if Alias(names[k], k) == Alias(names[n], n) {
        AliasInjective(names[k], k, names[n], n);
      }
    }
  }

  lemma {:induction false} AliasMapDomain(names: seq<string>, a: string)
    ensures a in AliasMap(names) <==> a in Aliases(names)
    decreases |names|
  {
    if names != [] {
      var n := |names| - 1;
      var init := names[..n];
      AliasMapDomain(init, a);
      assert Aliases(names) == Aliases(init) + [Alias(names[n], n)];
    }
  }

  /** The alias loop of `executeCalc`: item `k` is renamed `name_k`, with `k`
      the number of aliases made so far. */
  method CalcAliases(names: seq<string>) returns (aliasesToName: map<string, string>)
    ensures aliasesToName == AliasMap(names)
    ensures |aliasesToName| == |names|
  {
    aliasesToName := map[];
    var i := 0;
    while i < |names|
      invariant 0 <= i <= |names|
      invariant aliasesToName == AliasMap(names[..i])
      invariant |aliasesToName| == i
    {
      var name := names[i];
      var alias := name + "_" + DecimalString(|aliasesToName|);
      assert alias == Alias(name, i);
      assert alias !in aliasesToName by {
        AliasMapFacts(names[..i]);
        forall k | 0 <= k < i
          ensures Aliases(names[..i])[k] != alias
        {
          if Alias(names[k], k) == alias {
            AliasInjective(names[k], k, name, i);
          }
        }
      }
      assert names[..i + 1][..i] == names[..i];
      aliasesToName := aliasesToName[alias := name];
      i := i + 1;
    }
    assert names[..i] == names;
  }

  /** The aliases that are not yet columns, in order. */
  function Missing(aliases: seq<string>, cols: seq<string>): seq<string>
    decreases |aliases|
  {
    if aliases == [] then []
    else
      var a := aliases[|aliases| - 1];
      Missing(aliases[..|aliases| - 1], cols) + (if a in cols then [] else [a])
  }

  /** `executeCalcEvaluated`: every alias that is not already a column becomes
      a new last column. */
  method CalcEvaluated(cols: seq<string>, aliases: seq<string>) returns (out: seq<string>)
    ensures out == cols + Missing(aliases, cols)
  {
    out := cols;
    var i := 0;
    while i < |aliases|
      invariant 0 <= i <= |aliases|
      invariant out == cols + Missing(aliases[..i], cols)
    {
      var name := aliases[i];
      assert aliases[..i + 1][..i] == aliases[..i];
      i := i + 1;
      if name in cols {
        continue;
      }
      out := out + [name];
    }
    assert aliases[..i] == aliases;
  }

  /** `executeCalc`: the columns after the aliased expressions are added and
      renamed back, and the role map. */
  method ExecuteCalc(st: Structure, names: seq<string>, roles: map<string, Role>)
    returns (r: Result<(seq<string>, map<string, Role>)>)
    ensures RoleMap(st).Err? ==> r == Err(RoleMap(st).error)
    ensures RoleMap(st).Ok? ==>
      && r.Ok?
      && r.value.0 == Renamed(ColumnNames(st) + Missing(Aliases(names), ColumnNames(st)), AliasMap(names))
      && r.value.1 == RoleMap(st).value + roles
  {
    var aliasesToName := CalcAliases(names);
    var evaluated := CalcEvaluated(ColumnNames(st), Aliases(names));
    var renamed := RenameColumns(evaluated, aliasesToName);
    var roleMap :- RoleMap(st);
    r := Ok((renamed, roleMap + roles));
  }

  /** The roles `ExecuteCalc` returns: every column of the structure and every
      recomputed name has one; a recomputed name takes its supplied role, and
      any other column keeps the role of its component. */
  lemma CalcRoles(st: Structure, roles: map<string, Role>)
    requires RoleMap(st).Ok?
    ensures var r := RoleMap(st).value + roles;
      && (forall n :: n in r <==> n in ColumnNames(st) || n in roles)
      && (forall n :: n in roles ==> r[n] == roles[n])
      && (forall i :: 0 <= i < |st| && st[i].name !in roles ==> r[st[i].name] == st[i].role)
  {
  }

  /** The columns that are not recomputed, in order. */
  function KeptColumns(cols: seq<string>, names: seq<string>): seq<string>
    decreases |cols|
  {
    if cols == [] then []
    else
      var c := cols[|cols| - 1];
      KeptColumns(cols[..|cols| - 1], names) + (if c in names then [] else [c])
  }

  lemma {:induction false} MissingAll(aliases: seq<string>, cols: seq<string>)
    requires forall k :: 0 <= k < |aliases| ==> aliases[k] !in cols
    ensures Missing(aliases, cols) == aliases
    decreases |aliases|
  {
    if aliases != [] {
      MissingAll(aliases[..|aliases| - 1], cols);
      SplitLast(aliases);
    }
  }

  /** One more column of a prefix, renamed on its own. */
  lemma RenamedPrefixStep(cols: seq<string>, out: seq<string>, fromTo: map<string, string>, k: nat)
    requires 0 < k <= |cols| && k <= |out|
    requires Renamed(cols[..k - 1], fromTo) == out[..k - 1]
    requires RenameOne(cols[k - 1], fromTo) == [out[k - 1]]
    ensures Renamed(cols[..k], fromTo) == out[..k]
  {
    assert cols[..k][..k - 1] == cols[..k - 1];
    assert out[..k] == out[..k - 1] + [out[k - 1]];
  }

  lemma RenameOneAlias(names: seq<string>, k: nat)
    requires k < |names|
    ensures RenameOne(Aliases(names)[k], AliasMap(names)) == [names[k]]
  {
    AliasMapAt(names, k);
  }

  lemma {:induction false} RenameAliasesBack(names: seq<string>, k: nat)
    requires k <= |names|
    ensures Renamed(Aliases(names)[..k], AliasMap(names)) == names[..k]
    decreases k
  {
    if k > 0 {
      RenameAliasesBack(names, k - 1);
      RenameOneAlias(names, k - 1);
      RenamedPrefixStep(Aliases(names), names, AliasMap(names), k);
    }
  }

  lemma {:induction false} RenameKeptColumns(cols: seq<string>, names: seq<string>)
    requires forall i :: 0 <= i < |cols| ==> cols[i] !in AliasMap(names)
    ensures Renamed(cols, AliasMap(names)) == KeptColumns(cols, names)
    decreases |cols|
  {
    if cols != [] {
      var n := |cols| - 1;
      var c := cols[n];
      RenameKeptColumns(cols[..n], names);
      AliasMapFacts(names);
      assert c in AliasMap(names).Values <==> c in names by {
        if c in names {
          var k :| 0 <= k < |names| && names[k] == c;
          assert AliasMap(names)[Alias(names[k], k)] == c;
        }
        if c in AliasMap(names).Values {
          var a :| a in AliasMap(names) && AliasMap(names)[a] == c;
          var k :| 0 <= k < |names| && Aliases(names)[k] == a;
        }
      }
    }
  }

  /** When no alias is already a column, `calc` keeps the columns it does not
      compute, in order, and then adds every computed name in item order; a
      recomputed column moves to the end. */
  lemma CalcColumns(cols: seq<string>, names: seq<string>)
    requires forall k :: 0 <= k < |names| ==> Alias(names[k], k) !in cols
    ensures Renamed(cols + Missing(Aliases(names), cols), AliasMap(names)) == KeptColumns(cols, names) + names
  {
    var als := Aliases(names);
    MissingAll(als, cols);
    RenamedAppend(cols, als, AliasMap(names));
    AliasMapFacts(names);
    forall i | 0 <= i < |cols|
      ensures cols[i] !in AliasMap(names)
    {
      assert cols[i] in cols;
      assert cols[i] !in als;
    }
    RenameKeptColumns(cols, names);
    RenameAliasesBack(names, |names|);
    assert als[..|names|] == als && names[..|names|] == names;
  }

  // ---------------------------------------------------------------------
  // Validation
  // ---------------------------------------------------------------------

  const RULEID := "ruleid"
  const BOOLVAR := "bool_var"
  const ERRORLEVEL := "errorlevel"
  const ERRORCODE := "errorcode"

  /** The names of `ValidationOutput.INVALID` and `ValidationOutput.ALL`. */
  const OUTPUT_INVALID := "invalid"
  const OUTPUT_ALL := "all"

  /** A column `check_datapoint` adds to each row. */
  predicate RuleColumn(n: string)
  {
    n == RULEID || n == BOOLVAR || n == ERRORLEVEL || n == ERRORCODE
  }

  /** The roles of the datapoint-ruleset result: the dataset's own, with
      `ruleid` an IDENTIFIER and the three rule results MEASUREs. */
  function DatapointRoles(base: map<string, Role>): (r: map<string, Role>)
    ensures RULEID in r && r[RULEID] == Identifier
    ensures BOOLVAR in r && r[BOOLVAR] == Measure
    ensures ERRORLEVEL in r && r[ERRORLEVEL] == Measure
    ensures ERRORCODE in r && r[ERRORCODE] == Measure
    ensures forall n :: n in r <==> n in base || RuleColumn(n)
    ensures forall n :: n in base && !RuleColumn(n) ==> r[n] == base[n]
  {
    base[RULEID := Identifier][BOOLVAR := Measure][ERRORLEVEL := Measure][ERRORCODE := Measure]
  }

  /** The roles of the simple validation result: `errorlevel` and `errorcode`
      are MEASUREs. */
  function SimpleRoles(base: map<string, Role>): (r: map<string, Role>)
    ensures ERRORLEVEL in r && r[ERRORLEVEL] == Measure
    ensures ERRORCODE in r && r[ERRORCODE] == Measure
    ensures forall n :: n in r <==> n in base || n == ERRORLEVEL || n == ERRORCODE
    ensures forall n :: n in base && n != ERRORLEVEL && n != ERRORCODE ==> r[n] == base[n]
  {
    base[ERRORLEVEL := Measure][ERRORCODE := Measure]
  }

  /** The validity of `antecedent -> consequent` on one row: a `null` side
      yields the other side, otherwise the implication. */
  function RuleValidity(antecedent: Option<bool>, consequent: Option<bool>): (r: Option<bool>)
    ensures antecedent.Some? && consequent.Some? ==> r == Some(!antecedent.value || consequent.value)
    ensures r.None? <==> antecedent.None? && consequent.None?
    ensures r == Some(false) <==>
      || (antecedent == Some(true) && consequent == Some(false))
      || (antecedent.None? && consequent == Some(false))
      || (antecedent == Some(false) && consequent.None?)
  {
    if antecedent.None? then consequent
    else if consequent.None? then antecedent
    else Some(!antecedent.value || consequent.value)
  }

  /** The error code (or level) of a rule on one row: the value of its
      expression, kept only when the antecedent is TRUE and the consequent
      FALSE. */
  function DatapointError(expr: Option<Value>, antecedent: Option<bool>, consequent: Option<bool>): (r: Value)
    ensures r != VNull <==>
      expr.Some? && expr.value != VNull && antecedent == Some(true) && consequent == Some(false)
    ensures r != VNull ==> r == expr.value
  {
    if expr.None? then VNull
    else if expr.value == VNull then VNull
    else if antecedent == Some(true) && consequent == Some(false) then expr.value
    else VNull
  }

  /** An error code or level only appears on a row the rule marks invalid. */
  lemma DatapointErrorOnlyWhenInvalid(expr: Option<Value>, antecedent: Option<bool>, consequent: Option<bool>)
    requires DatapointError(expr, antecedent, consequent) != VNull
    ensures RuleValidity(antecedent, consequent) == Some(false)
  {
  }

  /** The converse fails: with a `null` antecedent and a FALSE consequent the
      row is invalid yet carries no error code. */
  lemma InvalidWithoutErrorCode()
    ensures RuleValidity(None, Some(false)) == Some(false)
    ensures DatapointError(Some(VString("E1")), None, Some(false)) == VNull
  {
  }

  /** The values a rule's four expressions take on one row. */
  datatype RuleOutcome = RuleOutcome(
    antecedent: Option<bool>,
    consequent: Option<bool>,
    errorCode: Option<Value>,
    errorLevel: Option<Value>)

  /** A datapoint rule: its name and how its expressions evaluate on a row
      (`None` for an error code or level the rule does not define). */
  datatype DatapointRule = DatapointRule(name: string, evaluate: Row -> RuleOutcome)

  function BoolValue(b: Option<bool>): Value
  {
    if b.None? then VNull else VBool(b.value)
  }

  /** A row's value in a column, `null` for a missing one. */
  function Get(row: Row, n: string): Value
  {
    if n in row then row[n] else VNull
  }

  /** One row of a rule's result: the row with the rule's four columns. */
  function RuleRow(rule: DatapointRule, row: Row): (r: Row)
    ensures forall n :: n in r <==> n in row || RuleColumn(n)
  {
    var o := rule.evaluate(row);
    row[RULEID := VString(rule.name)]
       [BOOLVAR := BoolValue(RuleValidity(o.antecedent, o.consequent))]
       [ERRORLEVEL := DatapointError(o.errorLevel, o.antecedent, o.consequent)]
       [ERRORCODE := DatapointError(o.errorCode, o.antecedent, o.consequent)]
  }

  lemma RuleRowColumns(rule: DatapointRule, row: Row)
    ensures var r := RuleRow(rule, row);
      var o := rule.evaluate(row);
      && RULEID in r && BOOLVAR in r && ERRORLEVEL in r && ERRORCODE in r
      && r[RULEID] == VString(rule.name)
      && r[BOOLVAR] == BoolValue(RuleValidity(o.antecedent, o.consequent))
      && r[ERRORLEVEL] == DatapointError(o.errorLevel, o.antecedent, o.consequent)
      && r[ERRORCODE] == DatapointError(o.errorCode, o.antecedent, o.consequent)
    ensures var r := RuleRow(rule, row);
      forall n :: n in r <==> n in row || RuleColumn(n)
    ensures var r := RuleRow(rule, row);
      forall n :: n in row && !RuleColumn(n) ==> r[n] == row[n]
  {
  }

  function RuleRows(rule: DatapointRule, rows: seq<Row>): (r: seq<Row>)
    ensures |r| == |rows| && forall j :: 0 <= j < |rows| ==> r[j] == RuleRow(rule, rows[j])
  {
    seq(|rows|, j requires 0 <= j < |rows| => RuleRow(rule, rows[j]))
  }

  /** The per-rule results stacked in rule order. */
  function DatapointRows(rules: seq<DatapointRule>, rows: seq<Row>): seq<Row>
    decreases |rules|
  {
    if rules == [] then []
    else DatapointRows(rules[..|rules| - 1], rows) + RuleRows(rules[|rules| - 1], rows)
  }

  /** `x` is the row of some rule on some input row. */
  ghost predicate Produced(rules: seq<DatapointRule>, rows: seq<Row>, x: Row)
  {
    exists i, j :: 0 <= i < |rules| && 0 <= j < |rows| && x == RuleRow(rules[i], rows[j])
  }

  lemma ProducedByLast(rules: seq<DatapointRule>, rows: seq<Row>, x: Row, j: nat)
    requires |rules| > 0 && j < |rows| && x == RuleRows(rules[|rules| - 1], rows)[j]
    ensures Produced(rules, rows, x)
  {
    assert x == RuleRow(rules[|rules| - 1], rows[j]);
  }

  lemma ProducedByInit(rules: seq<DatapointRule>, rows: seq<Row>, x: Row)
    requires |rules| > 0 && Produced(rules[..|rules| - 1], rows, x)
    ensures Produced(rules, rows, x)
  {
    var init := rules[..|rules| - 1];
    var i, j :| 0 <= i < |init| && 0 <= j < |rows| && x == RuleRow(init[i], rows[j]);
    assert rules[i] == init[i];
  }

  lemma ProducedSplit(rules: seq<DatapointRule>, rows: seq<Row>, x: Row)
    requires |rules| > 0 && Produced(rules, rows, x)
    ensures Produced(rules[..|rules| - 1], rows, x) || x in RuleRows(rules[|rules| - 1], rows)
  {
    var n := |rules| - 1;
    var i, j :| 0 <= i < |rules| && 0 <= j < |rows| && x == RuleRow(rules[i], rows[j]);
    if i == n {
      assert RuleRows(rules[n], rows)[j] == x;
    } else {
      assert rules[..n][i] == rules[i];
    }
  }

  lemma ProducedExtend(rules: seq<DatapointRule>, rows: seq<Row>, x: Row)
    requires |rules| > 0
    ensures Produced(rules, rows, x) <==>
      Produced(rules[..|rules| - 1], rows, x) || x in RuleRows(rules[|rules| - 1], rows)
  {
    var last := RuleRows(rules[|rules| - 1], rows);
    if Produced(rules, rows, x) {
      ProducedSplit(rules, rows, x);
    }
    if Produced(rules[..|rules| - 1], rows, x) {
      ProducedByInit(rules, rows, x);
    }
    if x in last {
      var j :| 0 <= j < |rows| && last[j] == x;
      ProducedByLast(rules, rows, x, j);
    }
  }

  /** Every stacked row is the result of one rule on one input row. */
  lemma {:induction false} DatapointRowsMembership(rules: seq<DatapointRule>, rows: seq<Row>, x: Row)
    ensures x in DatapointRows(rules, rows) <==> Produced(rules, rows, x)
    decreases |rules|
  {
    if rules != [] {
      var n := |rules| - 1;
      var init := rules[..n];
      var last := RuleRows(rules[n], rows);
      DatapointRowsMembership(init, rows, x);
      assert DatapointRows(rules, rows) == DatapointRows(init, rows) + last;
      ProducedExtend(rules, rows, x);
    }
  }

  /** The `bool_var = false` filter followed by dropping `bool_var`. */
  function KeepInvalid(rows: seq<Row>): (r: seq<Row>)
    ensures |r| <= |rows|
    decreases |rows|
  {
    if rows == [] then []
    else
      var row := rows[|rows| - 1];
      KeepInvalid(rows[..|rows| - 1]) + (if Get(row, BOOLVAR) == VBool(false) then [row - {BOOLVAR}] else [])
  }

  /** The filter keeps exactly the rows whose `bool_var` is FALSE (not `null`),
      without that column. */
  lemma {:induction false} KeepInvalidMembership(rows: seq<Row>, x: Row)
    ensures x in KeepInvalid(rows) <==>
      exists j :: 0 <= j < |rows| && Get(rows[j], BOOLVAR) == VBool(false) && x == rows[j] - {BOOLVAR}
    decreases |rows|
  {
    if rows != [] {
      var init := rows[..|rows| - 1];
      KeepInvalidMembership(init, x);
      assert forall j :: 0 <= j < |init| ==> init[j] == rows[j];
    }
  }

  /** The filter drops `bool_var` from every kept row and keeps no more rows
      than it is given. */
  lemma KeepInvalidDropsBoolVar(rows: seq<Row>)
    ensures |KeepInvalid(rows)| <= |rows|
    ensures forall x :: x in KeepInvalid(rows) ==> BOOLVAR !in x
  {
    forall x | x in KeepInvalid(rows)
      ensures BOOLVAR !in x
    {
      KeepInvalidMembership(rows, x);
    }
  }

  /** `check_datapoint`: the stacked rule results, filtered to the invalid
      rows for the output `invalid` and by default. The results go through
      `executeUnion`, whose `get(0)` fails on a ruleset without rules. */
  function ValidateDatapoints(rules: seq<DatapointRule>, rows: seq<Row>, output: Option<string>): (r: Result<seq<Row>>)
    ensures rules == [] ==> r == Err(IndexOutOfBounds)
    ensures r.Ok? <==> rules != []
    ensures r.Ok? ==> |r.value| <= |DatapointRows(rules, rows)|
    ensures r.Ok? && (output.None? || output.value == OUTPUT_INVALID) ==> forall x :: x in r.value ==> BOOLVAR !in x
  {
    if rules == [] then Err(IndexOutOfBounds)
    else
      var stacked := DatapointRows(rules, rows);
      if output.None? || output.value == OUTPUT_INVALID then KeepInvalidDropsBoolVar(stacked); Ok(KeepInvalid(stacked))
      else Ok(stacked)
  }


  /** A rule's row for an input row with validity FALSE, as the filter leaves it. */
  ghost predicate InvalidProduced(rules: seq<DatapointRule>, rows: seq<Row>, x: Row)
  {
    exists i, j :: 0 <= i < |rules| && 0 <= j < |rows| &&
      RuleValidity(rules[i].evaluate(rows[j]).antecedent, rules[i].evaluate(rows[j]).consequent) == Some(false) &&
      x == RuleRow(rules[i], rows[j]) - {BOOLVAR}
  }

  lemma InvalidOutputSound(rules: seq<DatapointRule>, rows: seq<Row>, x: Row)
    requires x in KeepInvalid(DatapointRows(rules, rows))
    ensures InvalidProduced(rules, rows, x)
  {
    var stacked := DatapointRows(rules, rows);
    KeepInvalidMembership(stacked, x);
    var k :| 0 <= k < |stacked| && Get(stacked[k], BOOLVAR) == VBool(false) && x == stacked[k] - {BOOLVAR};
    DatapointRowsMembership(rules, rows, stacked[k]);
    var i, j :| 0 <= i < |rules| && 0 <= j < |rows| && stacked[k] == RuleRow(rules[i], rows[j]);
    var o := rules[i].evaluate(rows[j]);
    RuleRowColumns(rules[i], rows[j]);
    assert BoolValue(RuleValidity(o.antecedent, o.consequent)) == VBool(false);
  }

  lemma InvalidOutputComplete(rules: seq<DatapointRule>, rows: seq<Row>, x: Row)
    requires InvalidProduced(rules, rows, x)
    ensures x in KeepInvalid(DatapointRows(rules, rows))
  {
    var stacked := DatapointRows(rules, rows);
    var i, j :| 0 <= i < |rules| && 0 <= j < |rows| &&
      RuleValidity(rules[i].evaluate(rows[j]).antecedent, rules[i].evaluate(rows[j]).consequent) == Some(false) &&
      x == RuleRow(rules[i], rows[j]) - {BOOLVAR};
    var y := RuleRow(rules[i], rows[j]);
    DatapointRowsMembership(rules, rows, y);
    var k :| 0 <= k < |stacked| && stacked[k] == y;
    RuleRowColumns(rules[i], rows[j]);
    assert Get(stacked[k], BOOLVAR) == VBool(false);
    KeepInvalidMembership(stacked, x);
  }

  /** By default `check_datapoint` returns, for every rule and input row that
      the rule marks invalid, that rule's row without `bool_var`. */
  lemma DatapointInvalidOutput(rules: seq<DatapointRule>, rows: seq<Row>, output: Option<string>, x: Row)
    requires output.None? || output == Some(OUTPUT_INVALID)
    ensures ValidateDatapoints(rules, rows, output).Ok? ==>
              (x in ValidateDatapoints(rules, rows, output).value <==> InvalidProduced(rules, rows, x))
  {
    if rules == [] {
      return;
    }
    assert ValidateDatapoints(rules, rows, output) == Ok(KeepInvalid(DatapointRows(rules, rows)));
    if x in KeepInvalid(DatapointRows(rules, rows)) {
      InvalidOutputSound(rules, rows, x);
    }
    if InvalidProduced(rules, rows, x) {
      InvalidOutputComplete(rules, rows, x);
    }
  }

  /** With any other output every stacked row is returned. */
  lemma DatapointOtherOutput(rules: seq<DatapointRule>, rows: seq<Row>, output: string)
    requires output != OUTPUT_INVALID
    ensures ValidateDatapoints(rules, rows, Some(output)) ==
              if rules == [] then Err(IndexOutOfBounds) else Ok(DatapointRows(rules, rows))
  {
  }

  /** `(Boolean) context.get("bool_var")` unboxed into a `boolean`. */
  function BoolVarOf(row: Row): (r: Result<bool>)
    ensures r.Ok? <==> Get(row, BOOLVAR).VBool?
    ensures r.Ok? ==> Get(row, BOOLVAR) == VBool(r.value)
    ensures Get(row, BOOLVAR) == VNull ==> r == Err(NullPointer)
  {
    match Get(row, BOOLVAR)
    case VBool(b) => Ok(b)
    case VNull => Err(NullPointer)
    case _ => Err(ClassCast)
  }

  /** The error code (or level) of the simple validation on one row: `null`
      when the validation has no such expression or the row is valid, the
      expression's value when the row is invalid. */
  function SimpleError(expr: Option<Value>, row: Row): (r: Result<Value>)
    ensures expr.None? ==> r == Ok(VNull)
    ensures expr.Some? ==> (r.Ok? <==> BoolVarOf(row).Ok?)
    ensures expr.Some? && r.Ok? ==> r.value == (if BoolVarOf(row).value then VNull else expr.value)
  {
    if expr.None? then Ok(VNull)
    else
      var valid :- BoolVarOf(row);
      Ok(if valid then VNull else expr.value)
  }

  /** The simple validation: its error code and level expressions. */
  datatype SimpleRule = SimpleRule(errorCode: Option<Row -> Value>, errorLevel: Option<Row -> Value>)

  function Evaluate(e: Option<Row -> Value>, row: Row): Option<Value>
  {
    if e.None? then None else Some(e.value(row))
  }

  /** One row of the simple validation: `errorlevel` and `errorcode` added
      unless the row already has such a column. */
  function SimpleRow(rule: SimpleRule, row: Row): (r: Result<Row>)
    ensures r.Ok? ==> forall n :: n in r.value <==> n in row || n == ERRORLEVEL || n == ERRORCODE
    ensures r.Ok? ==> forall n :: n in row ==> r.value[n] == row[n]
    ensures r.Ok? && ERRORCODE !in row ==> SimpleError(Evaluate(rule.errorCode, row), row) == Ok(r.value[ERRORCODE])
    ensures r.Ok? && ERRORLEVEL !in row ==> SimpleError(Evaluate(rule.errorLevel, row), row) == Ok(r.value[ERRORLEVEL])
  {
    var withLevel :-
      if ERRORLEVEL in row then Ok(row)
      else
        var level :- SimpleError(Evaluate(rule.errorLevel, row), row);
        Ok(row[ERRORLEVEL := level]);
    if ERRORCODE in row then Ok(withLevel)
    else
      var code :- SimpleError(Evaluate(rule.errorCode, row), row);
      Ok(withLevel[ERRORCODE := code])
  }

  /** A row whose `bool_var` is `null` makes an error expression throw. */
  lemma SimpleNullValidity(rule: SimpleRule, row: Row)
    requires Get(row, BOOLVAR) == VNull
    requires (rule.errorCode.Some? && ERRORCODE !in row) || (rule.errorLevel.Some? && ERRORLEVEL !in row)
    ensures SimpleRow(rule, row) == Err(NullPointer)
  {
  }

  function SimpleRows(rule: SimpleRule, rows: seq<Row>): (r: Result<seq<Row>>)
    ensures r.Ok? <==> forall j :: 0 <= j < |rows| ==> SimpleRow(rule, rows[j]).Ok?
    ensures r.Ok? ==> |r.value| == |rows| && forall j :: 0 <= j < |rows| ==> r.value[j] == SimpleRow(rule, rows[j]).value
    decreases |rows|
  {
    if rows == [] then Ok([])
    else
      var init := rows[..|rows| - 1];
      assert forall j :: 0 <= j < |init| ==> init[j] == rows[j];
      var done :- SimpleRows(rule, init);
      var last :- SimpleRow(rule, rows[|rows| - 1]);
      Ok(done + [last])
  }

  /** The simple validation: every row, by default and for the output `all`,
      otherwise the invalid rows without `bool_var`. */
  function ValidateSimple(rule: SimpleRule, rows: seq<Row>, output: Option<string>): (r: Result<seq<Row>>)
    ensures r.Ok? <==> SimpleRows(rule, rows).Ok?
    ensures r.Ok? && (output.None? || output == Some(OUTPUT_ALL)) ==> r.value == SimpleRows(rule, rows).value
    ensures r.Ok? && output.Some? && output != Some(OUTPUT_ALL) ==> r.value == KeepInvalid(SimpleRows(rule, rows).value)
  {
    var computed :- SimpleRows(rule, rows);
    if output.None? || output.value == OUTPUT_ALL then Ok(computed) else Ok(KeepInvalid(computed))
  }

  /** A rule whose antecedent and consequent hold on every row. */
  function AlwaysSatisfied(row: Row): RuleOutcome
  {
    RuleOutcome(Some(true), Some(true), None, None)
  }

  /** The two validations differ in their default output: a valid row is
      dropped by `check_datapoint` and kept by the simple validation. */
  lemma DefaultOutputsDiffer()
    ensures var row: Row := map[BOOLVAR := VBool(true)];
      var rule := DatapointRule("r1", AlwaysSatisfied);
      && ValidateDatapoints([rule], [row], None) == Ok([])
      && ValidateSimple(SimpleRule(None, None), [row], None) == Ok([row[ERRORLEVEL := VNull][ERRORCODE := VNull]])
  {
    var row: Row := map[BOOLVAR := VBool(true)];
    var rule := DatapointRule("r1", AlwaysSatisfied);
    assert DatapointRows([rule], [row]) == [RuleRow(rule, row)] by {
      assert [rule][..0] == [];
    }
    var y := RuleRow(rule, row);
    assert Get(y, BOOLVAR) == VBool(true);
    assert [y][..0] == [];
    assert KeepInvalid([y]) == KeepInvalid([]) + [];
    assert [row][..0] == [];
    var expected := row[ERRORLEVEL := VNull][ERRORCODE := VNull];
    assert SimpleRow(SimpleRule(None, None), row) == Ok(expected);
    assert SimpleRows(SimpleRule(None, None), [row]) == Ok([] + [expected]);
    assert ValidateDatapoints([rule], [row], None) == Ok([]);
    assert [] + [expected] == [expected];
    var sr := SimpleRows(SimpleRule(None, None), [row]);
    assert sr.Ok? && sr.value == [expected];
    assert ValidateSimple(SimpleRule(None, None), [row], None) == Ok(sr.value);
  }
}
