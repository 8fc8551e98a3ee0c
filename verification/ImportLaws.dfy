/** The import lists of a table block: sorted, free of duplicates, exactly the names used, and unambiguous. */
module ImportLaws {
  import opened Wrappers
  import opened Sql
  import opened SchemaModel
  import opened SchemaText
  import Text

  predicate StrictlySorted(names: seq<string>) {
    forall i, j :: 0 <= i < j < |names| ==> Text.Less(names[i], names[j])
  }

  predicate NoDuplicates(names: seq<string>) {
    forall i, j :: 0 <= i < j < |names| ==> names[i] != names[j]
  }

  lemma {:induction false} InsertKeepsSorted(name: string, sorted: seq<string>)
    requires StrictlySorted(sorted) && name !in sorted
    ensures StrictlySorted(Insert(name, sorted))
    ensures forall x :: x in Insert(name, sorted) <==> x == name || x in sorted
  {
    var r := Insert(name, sorted);
    if sorted == [] {
    } else if Text.Less(name, sorted[0]) {
      forall j | 1 <= j < |r|
        ensures Text.Less(r[0], r[j])
      {
        if j > 1 {
          Text.LessTransitive(name, sorted[0], sorted[j - 1]);
        }
      }
    } else {
      Text.LessTotal(name, sorted[0]);
      InsertKeepsSorted(name, sorted[1..]);
      var rest := Insert(name, sorted[1..]);
      assert sorted == [sorted[0]] + sorted[1..];
      forall j | 1 <= j < |r|
        ensures Text.Less(r[0], r[j])
      {
        assert r[j] == rest[j - 1] && rest[j - 1] in rest;
        if r[j] != name {
          var k :| 0 <= k < |sorted[1..]| && sorted[1..][k] == r[j];
          assert sorted[k + 1] == r[j];
        }
      }
      assert forall i, j :: 1 <= i < j < |r| ==> r[i] == rest[i - 1] && r[j] == rest[j - 1];
    }
  }

  /** Sorting a duplicate-free list: strictly increasing, with the same members. */
  lemma {:induction false} SortSorts(names: seq<string>)
    requires NoDuplicates(names)
    ensures StrictlySorted(Sort(names))
    ensures forall x :: x in Sort(names) <==> x in names
  {
    if names != [] {
      SortSorts(names[1..]);
      assert names == [names[0]] + names[1..];
      assert names[0] !in names[1..] by {
        assert forall j :: 0 <= j < |names[1..]| ==> names[1..][j] == names[j + 1];
      }
      InsertKeepsSorted(names[0], Sort(names[1..]));
    }
  }

  /** Some column of the kind carries the name. */
  predicate Carries(columns: seq<ModelColumn>, portable: bool, name: string) {
    exists i :: 0 <= i < |columns| && columns[i].marker.IsPortable() == portable && columns[i].marker.Name() == name
  }

  lemma {:induction false} UsedIsExact(columns: seq<ModelColumn>, portable: bool)
    ensures NoDuplicates(Used(columns, portable))
    ensures forall name :: name in Used(columns, portable) <==> Carries(columns, portable, name)
  {
    if columns != [] {
      var n := |columns| - 1;
      UsedIsExact(columns[..n], portable);
      assert forall i :: 0 <= i < n ==> columns[..n][i] == columns[i];
      forall name
        ensures name in Used(columns, portable) <==> Carries(columns, portable, name)
      {
        CarriesSnoc(columns, portable, name);
      }
    }
  }

  lemma {:induction false} CarriesSnoc(columns: seq<ModelColumn>, portable: bool, name: string)
    requires columns != []
    ensures var n := |columns| - 1;
            Carries(columns, portable, name) <==>
              Carries(columns[..n], portable, name) ||
                  (columns[n].marker.IsPortable() == portable && columns[n].marker.Name() == name)
  {
    var n := |columns| - 1;
    assert forall i :: 0 <= i < n ==> columns[..n][i] == columns[i];
    if Carries(columns[..n], portable, name) {
      var i :| 0 <= i < n && columns[..n][i].marker.IsPortable() == portable && columns[..n][i].marker.Name() == name;
      assert columns[i].marker.Name() == name;
    }
  }

  /**
   Both `use` lists are strictly sorted, and contain exactly the names the columns use; `Nullable` is
   imported exactly when some column is nullable.
   */
  lemma {:induction false} ImportsAreExact(columns: seq<ModelColumn>)
    ensures StrictlySorted(DieselImports(columns)) && StrictlySorted(PortableImports(columns))
    ensures forall name :: name in PortableImports(columns) <==> Carries(columns, true, name)
    ensures forall name :: name in DieselImports(columns) <==>
              Carries(columns, false, name) || (name == "Nullable" && SomeNullable(columns))
  {
    UsedIsExact(columns, true);
    UsedIsExact(columns, false);
    SortSorts(Used(columns, true));
    SortSorts(DieselUsed(columns));
  }

  lemma {:induction false} KindsDoNotClash(p: Marker, d: Marker)
    requires p.IsPortable() && !d.IsPortable()
    ensures p.Name() != d.Name() && p.Name() != "Nullable"
  {
    match p
    case UuidMarker => assert p.Name()[0] == 'U';
    case TimestampMarker => assert |p.Name()| == 9;
    case JsonMarker => assert p.Name()[0] == 'J';
    case BytesMarker => assert p.Name()[1] == 'y';
    case DecimalMarker => assert p.Name()[0] == 'D';
    case _ =>
  }

  /** The path a short name is imported under. */
  function Resolve(diesel: seq<string>, dualdb: seq<string>, name: string): Option<string> {
    if name in diesel then Some(DIESEL + "::" + name)
    else if name in dualdb then Some(DUALDB + "::" + name)
    else None
  }

  /** Every column's short type name resolves through the imports to the marker the mapping gave it, and only there. */
  lemma {:induction false} ImportsResolve(columns: seq<ModelColumn>, i: nat)
    requires i < |columns|
    ensures Resolve(DieselImports(columns), PortableImports(columns), columns[i].marker.Name()) ==
            Some(columns[i].marker.Text())
    ensures columns[i].marker.Name() in DieselImports(columns) <==>
            columns[i].marker.Name() !in PortableImports(columns)
  {
    ImportsAreExact(columns);
    var m := columns[i].marker;
    assert Carries(columns, m.IsPortable(), m.Name());
    if m.IsPortable() {
      KindsDoNotClash(m, TextMarker);
      if Carries(columns, false, m.Name()) {
        var j :| 0 <= j < |columns| && columns[j].marker.IsPortable() == false && columns[j].marker.Name() == m.Name();
        KindsDoNotClash(m, columns[j].marker);
      }
    } else if Carries(columns, true, m.Name()) {
      var j :| 0 <= j < |columns| && columns[j].marker.IsPortable() == true && columns[j].marker.Name() == m.Name();
      KindsDoNotClash(columns[j].marker, m);
    }
  }
}
