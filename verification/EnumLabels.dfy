/** The label codec that `DualEnum` derives: building the table of labels, and encoding and decoding by it. */
module EnumLabels {
  import opened Wrappers

  /** One option inside a `dualdb` attribute of a variant. */
  datatype Meta = Rename(stored: string) | UnknownOption(path: string)

  datatype Attribute = Dualdb(options: seq<Meta>) | Foreign(path: string)

  datatype Variant = Variant(ident: string, isUnit: bool, attributes: seq<Attribute>)

  datatype DeriveError = NotUnit(ident: string) | BadOption(path: string) | NoVariants

  /** A variant and its stored label. */
  datatype Entry = Entry(ident: string, stored: string)

  // ----- Specification of the table -----

  /** All `dualdb` options of a variant, in order. */
  function OptionsOf(attributes: seq<Attribute>): seq<Meta> {
    if attributes == [] then []
    else
      var last := attributes[|attributes| - 1];
      OptionsOf(attributes[..|attributes| - 1]) + (if last.Dualdb? then last.options else [])
  }

  /** The last rename wins; an unknown option ends the reading. */
  function Labelled(stored: string, options: seq<Meta>): Result<string, DeriveError> {
    if options == [] then Ok(stored)
    else
      match Labelled(stored, options[..|options| - 1])
      case Err(e) => Err(e)
      case Ok(before) =>
        match options[|options| - 1]
        case Rename(renamed) => Ok(renamed)
        case UnknownOption(path) => Err(BadOption(path))
  }

  function EntryOf(v: Variant): Result<Entry, DeriveError> {
    if !v.isUnit then Err(NotUnit(v.ident))
    else
      match Labelled(v.ident, OptionsOf(v.attributes))
      case Ok(stored) => Ok(Entry(v.ident, stored))
      case Err(e) => Err(e)
  }

  function Entries(variants: seq<Variant>): Result<seq<Entry>, DeriveError> {
    if variants == [] then Ok([])
    else
      match Entries(variants[..|variants| - 1])
      case Err(e) => Err(e)
      case Ok(before) =>
        match EntryOf(variants[|variants| - 1])
        case Err(e) => Err(e)
        case Ok(entry) => Ok(before + [entry])
  }

  function TableOf(variants: seq<Variant>): Result<seq<Entry>, DeriveError> {
    match Entries(variants)
    case Err(e) => Err(e)
    case Ok(entries) => if entries == [] then Err(NoVariants) else Ok(entries)
  }

  lemma {:induction false} LabelledErrStays(stored: string, options: seq<Meta>, i: nat)
    requires i <= |options| && Labelled(stored, options[..i]).Err?
    ensures Labelled(stored, options) == Labelled(stored, options[..i])
    decreases |options| - i
  {
    if i == |options| {
      assert options[..i] == options;
    } else {
      assert options[..i + 1][..i] == options[..i];
      LabelledErrStays(stored, options, i + 1);
    }
  }

  lemma {:induction false} LabelledAppend(stored: string, a: seq<Meta>, b: seq<Meta>)
    ensures Labelled(stored, a + b) ==
            match Labelled(stored, a) { case Ok(l) => Labelled(l, b) case Err(e) => Err(e) }
    decreases |b|
  {
    if b == [] {
      assert a + b == a;
    } else {
      assert (a + b)[..|a + b| - 1] == a + b[..|b| - 1];
      LabelledAppend(stored, a, b[..|b| - 1]);
    }
  }

  lemma {:induction false} OptionsPrefix(attributes: seq<Attribute>, i: nat)
    requires i <= |attributes|
    ensures OptionsOf(attributes[..i]) <= OptionsOf(attributes)
    decreases |attributes| - i
  {
    if i == |attributes| {
      assert attributes[..i] == attributes;
    } else {
      assert attributes[..i + 1][..i] == attributes[..i];
      OptionsPrefix(attributes, i + 1);
    }
  }

  lemma {:induction false} EntriesErrStays(variants: seq<Variant>, i: nat)
    requires i <= |variants| && Entries(variants[..i]).Err?
    ensures Entries(variants) == Entries(variants[..i])
    decreases |variants| - i
  {
    if i == |variants| {
      assert variants[..i] == variants;
    } else {
      assert variants[..i + 1][..i] == variants[..i];
      EntriesErrStays(variants, i + 1);
    }
  }

  // ----- Building the table -----

  method ReadOptions(start: string, options: seq<Meta>) returns (r: Result<string, DeriveError>)
    ensures r == Labelled(start, options)
  {
    var stored := start;
    for i := 0 to |options|
      invariant Labelled(start, options[..i]) == Ok(stored)
    {
      assert options[..i + 1][..i] == options[..i];
      match options[i]
      case Rename(renamed) =>
        stored := renamed;
      case UnknownOption(path) =>
        LabelledErrStays(start, options, i + 1);
        return Err(BadOption(path));
    }
    assert options[..|options|] == options;
    r := Ok(stored);
  }

  method ReadLabel(v: Variant) returns (r: Result<string, DeriveError>)
    ensures r == Labelled(v.ident, OptionsOf(v.attributes))
  {
    var stored := v.ident;
    for i := 0 to |v.attributes|
      invariant Labelled(v.ident, OptionsOf(v.attributes[..i])) == Ok(stored)
    {
      ghost var before := OptionsOf(v.attributes[..i]);
      assert v.attributes[..i + 1][..i] == v.attributes[..i];
      match v.attributes[i]
      case Dualdb(options) =>
        LabelledAppend(v.ident, before, options);
        var read := ReadOptions(stored, options);
        if read.Err? {
          OptionsPrefix(v.attributes, i + 1);
          var all := OptionsOf(v.attributes);
          assert all[..|before + options|] == before + options;
          LabelledErrStays(v.ident, all, |before + options|);
          return read;
        }
        stored := read.value;
      case Foreign(_) =>
        assert before + [] == before;
    }
    assert v.attributes[..|v.attributes|] == v.attributes;
    r := Ok(stored);
  }

  /** The loop of `dual_enum_impl` over the variants. */
  method BuildTable(variants: seq<Variant>) returns (r: Result<seq<Entry>, DeriveError>)
    ensures r == TableOf(variants)
  {
    var entries: seq<Entry> := [];
    for i := 0 to |variants|
      invariant Entries(variants[..i]) == Ok(entries)
    {
      var v := variants[i];
      assert variants[..i + 1][..i] == variants[..i];
      if !v.isUnit {
        EntriesErrStays(variants, i + 1);
        return Err(NotUnit(v.ident));
      }
      var stored := ReadLabel(v);
      if stored.Err? {
        EntriesErrStays(variants, i + 1);
        return Err(stored.error);
      }
      entries := entries + [Entry(v.ident, stored.value)];
    }
    assert variants[..|variants|] == variants;
    if entries == [] {
      return Err(NoVariants);
    }
    r := Ok(entries);
  }

  // ----- The generated functions -----

  /** `label`: the match from variants to labels. */
  function Label(table: seq<Entry>, ident: string): Option<string> {
    if table == [] then None
    else if table[0].ident == ident then Some(table[0].stored)
    else Label(table[1..], ident)
  }

  /** The decoder of both backends: the first arm whose label is the text. */
  function Decode(table: seq<Entry>, text: string): Option<string> {
    if table == [] then None
    else if table[0].stored == text then Some(table[0].ident)
    else Decode(table[1..], text)
  }

  predicate DistinctIdents(table: seq<Entry>) {
    forall i, j :: 0 <= i < j < |table| ==> table[i].ident != table[j].ident
  }

  predicate DistinctLabels(table: seq<Entry>) {
    forall i, j :: 0 <= i < j < |table| ==> table[i].stored != table[j].stored
  }

  /** Every variant survives being stored and read. */
  predicate RoundTrips(table: seq<Entry>) {
    forall i :: 0 <= i < |table| ==>
      Label(table, table[i].ident).Some? && Decode(table, Label(table, table[i].ident).value) == Some(table[i].ident)
  }

  lemma {:induction false} LabelOfEntry(table: seq<Entry>, i: nat)
    requires DistinctIdents(table) && i < |table|
    ensures Label(table, table[i].ident) == Some(table[i].stored)
  {
    if i > 0 {
      assert forall j, k :: 0 <= j < k < |table[1..]| ==>
               table[1..][j] == table[j + 1] && table[1..][k] == table[k + 1];
      LabelOfEntry(table[1..], i - 1);
    }
  }

  lemma {:induction false} FirstMatch(table: seq<Entry>, i: nat)
    requires i < |table| && forall j :: 0 <= j < i ==> table[j].stored != table[i].stored
    ensures Decode(table, table[i].stored) == Some(table[i].ident)
  {
    if i > 0 {
      assert forall j :: 0 <= j < i - 1 ==> table[1..][j] == table[j + 1];
      FirstMatch(table[1..], i - 1);
    }
  }

  /** Every variant reads back as itself if and only if no two variants share a label. */
  lemma {:induction false} RoundTripsIffDistinct(table: seq<Entry>)
    requires DistinctIdents(table)
    ensures RoundTrips(table) <==> DistinctLabels(table)
  {
    forall i | 0 <= i < |table|
      ensures Label(table, table[i].ident) == Some(table[i].stored)
    {
      LabelOfEntry(table, i);
    }
    if DistinctLabels(table) {
      forall i | 0 <= i < |table|
        ensures Decode(table, table[i].stored) == Some(table[i].ident)
      {
        FirstMatch(table, i);
      }
    } else {
      var i, j :| 0 <= i < j < |table| && table[i].stored == table[j].stored;
      assert Decode(table, table[i].stored) == Decode(table, table[j].stored);
      assert table[i].ident != table[j].ident;
    }
  }

  /** Decoding accepts exactly the labels of the table. */
  lemma {:induction false} DecodeAcceptsLabels(table: seq<Entry>, text: string)
    ensures Decode(table, text).Some? <==> exists i :: 0 <= i < |table| && table[i].stored == text
  {
    if table != [] {
      DecodeAcceptsLabels(table[1..], text);
      assert forall i :: 0 <= i < |table[1..]| ==> table[1..][i] == table[i + 1];
      if exists i :: 0 <= i < |table| && table[i].stored == text {
        var i :| 0 <= i < |table| && table[i].stored == text;
        if i > 0 {
          assert table[1..][i - 1].stored == text;
        }
      }
    }
  }

  // ----- From the declaration -----

  lemma {:induction false} EntriesKeepIdents(variants: seq<Variant>)
    requires Entries(variants).Ok?
    ensures |Entries(variants).value| == |variants|
    ensures forall i :: 0 <= i < |variants| ==> EntryOf(variants[i]) == Ok(Entries(variants).value[i])
  {
    if variants != [] {
      EntriesKeepIdents(variants[..|variants| - 1]);
    }
  }

  /** A variant that derives has no unknown option, and its label is its last rename, or else its name. */
  lemma {:induction false} LabelIsLastRename(start: string, options: seq<Meta>, stored: string)
    ensures Labelled(start, options) == Ok(stored) <==>
            && (forall i :: 0 <= i < |options| ==> options[i].Rename?)
            && stored == if options == [] then start else options[|options| - 1].stored
  {
    if options != [] {
      var before := options[..|options| - 1];
      assert options == before + [options[|options| - 1]];
      if Labelled(start, before).Ok? {
        LabelIsLastRename(start, before, Labelled(start, before).value);
      } else if forall i :: 0 <= i < |before| ==> before[i].Rename? {
        AllRenamesLabel(start, before);
      }
    }
  }

  lemma {:induction false} AllRenamesLabel(start: string, options: seq<Meta>)
    requires forall i :: 0 <= i < |options| ==> options[i].Rename?
    ensures Labelled(start, options).Ok?
  {
    if options != [] {
      AllRenamesLabel(start, options[..|options| - 1]);
    }
  }

  // ----- The table by positions -----

  /** Option o of attribute a, if that is a `dualdb` attribute, counts. */
  predicate OptionAt(attributes: seq<Attribute>, a: int, o: int) {
    0 <= a < |attributes| && attributes[a].Dualdb? && 0 <= o < |attributes[a].options|
  }

  predicate RenameAt(attributes: seq<Attribute>, a: int, o: int) {
    OptionAt(attributes, a, o) && attributes[a].options[o].Rename?
  }

  predicate UnknownAt(attributes: seq<Attribute>, a: int, o: int) {
    OptionAt(attributes, a, o) && attributes[a].options[o].UnknownOption?
  }

  predicate Earlier(a: int, o: int, a': int, o': int) {
    a < a' || (a == a' && o < o')
  }

  ghost predicate LastRename(attributes: seq<Attribute>, a: int, o: int) {
    RenameAt(attributes, a, o) && forall a', o' :: RenameAt(attributes, a', o') ==> !Earlier(a, o, a', o')
  }

  ghost predicate FirstUnknown(attributes: seq<Attribute>, a: int, o: int) {
    UnknownAt(attributes, a, o) && forall a', o' :: UnknownAt(attributes, a', o') ==> !Earlier(a', o', a, o)
  }

  /** The label as the attributes have it: the last rename as written, or else the name. */
  ghost predicate HasLabel(v: Variant, stored: string) {
    || (exists a, o :: LastRename(v.attributes, a, o) && v.attributes[a].options[o].stored == stored)
    || ((forall a, o :: !RenameAt(v.attributes, a, o)) && stored == v.ident)
  }

  /** Why a variant is refused: it has fields, or an option that is no rename, of which the first is named. */
  ghost predicate Refused(v: Variant, e: DeriveError) {
    if !v.isUnit then e == NotUnit(v.ident)
    else
      exists a, o :: FirstUnknown(v.attributes, a, o) && e == BadOption(v.attributes[a].options[o].path)
  }

  predicate Derivable(v: Variant) {
    && v.isUnit
    && forall a, o :: 0 <= a < |v.attributes| && v.attributes[a].Dualdb? && 0 <= o < |v.attributes[a].options| ==>
         v.attributes[a].options[o].Rename?
  }

  lemma {:induction false} OptionsSnoc(attributes: seq<Attribute>)
    requires attributes != []
    ensures var n := |attributes| - 1; var last := attributes[n];
            OptionsOf(attributes) == OptionsOf(attributes[..n]) + if last.Dualdb? then last.options else []
  {
  }

  lemma {:induction false} UnknownIsReported(start: string, options: seq<Meta>) returns (o: nat)
    requires Labelled(start, options).Err?
    ensures o < |options| && options[o].UnknownOption? && forall i :: 0 <= i < o ==> options[i].Rename?
    ensures Labelled(start, options) == Err(BadOption(options[o].path))
  {
    var n := |options| - 1;
    if Labelled(start, options[..n]).Err? {
      o := UnknownIsReported(start, options[..n]);
    } else {
      o := n;
      LabelIsLastRename(start, options[..n], Labelled(start, options[..n]).value);
      assert forall i :: 0 <= i < n ==> options[..n][i] == options[i];
    }
  }

  lemma {:induction false} LabelByPosition(v: Variant)
    requires Labelled(v.ident, OptionsOf(v.attributes)).Ok?
    ensures HasLabel(v, Labelled(v.ident, OptionsOf(v.attributes)).value)
    ensures forall a, o :: OptionAt(v.attributes, a, o) ==> v.attributes[a].options[o].Rename?
    decreases |v.attributes|
  {
    if v.attributes != [] {
      var n := |v.attributes| - 1;
      var last, init := v.attributes[n], v.(attributes := v.attributes[..n]);
      OptionsSnoc(v.attributes);
      var own := if last.Dualdb? then last.options else [];
      LabelledAppend(v.ident, OptionsOf(init.attributes), own);
      var before := Labelled(v.ident, OptionsOf(init.attributes)).value;
      var stored := Labelled(v.ident, OptionsOf(v.attributes)).value;
      LabelIsLastRename(before, own, stored);
      LabelByPosition(init);
      assert forall a, o :: a < n ==> (OptionAt(v.attributes, a, o) <==> OptionAt(init.attributes, a, o));
      if own == [] {
        LabelStays(init, v, before);
      } else {
        assert LastRename(v.attributes, n, |own| - 1);
      }
    }
  }

  /** An attribute without options does not matter. */
  lemma {:induction false} LabelStays(init: Variant, v: Variant, stored: string)
    requires v.attributes != [] && init == v.(attributes := v.attributes[..|v.attributes| - 1])
    requires var last := v.attributes[|v.attributes| - 1]; last.Foreign? || last.options == []
    requires HasLabel(init, stored)
    ensures HasLabel(v, stored)
  {
    forall a, o
      ensures RenameAt(v.attributes, a, o) <==> RenameAt(init.attributes, a, o)
    {
    }
    if exists a, o :: LastRename(init.attributes, a, o) && init.attributes[a].options[o].stored == stored {
      var a, o :| LastRename(init.attributes, a, o) && init.attributes[a].options[o].stored == stored;
      assert LastRename(v.attributes, a, o);
    }
  }

  lemma {:induction false} RefusalByPosition(v: Variant)
    requires Labelled(v.ident, OptionsOf(v.attributes)).Err?
    ensures exists a, o :: FirstUnknown(v.attributes, a, o) &&
              Labelled(v.ident, OptionsOf(v.attributes)).error == BadOption(v.attributes[a].options[o].path)
    decreases |v.attributes|
  {
    var n := |v.attributes| - 1;
    var last, init := v.attributes[n], v.(attributes := v.attributes[..n]);
    OptionsSnoc(v.attributes);
    var own := if last.Dualdb? then last.options else [];
    LabelledAppend(v.ident, OptionsOf(init.attributes), own);
    forall a, o | a < n
      ensures UnknownAt(v.attributes, a, o) <==> UnknownAt(init.attributes, a, o)
    {
    }
    match Labelled(v.ident, OptionsOf(init.attributes))
    case Err(_) =>
      RefusalByPosition(init);
      var a, o :| FirstUnknown(init.attributes, a, o) &&
                  Labelled(v.ident, OptionsOf(init.attributes)).error == BadOption(init.attributes[a].options[o].path);
      assert FirstUnknown(v.attributes, a, o);
    case Ok(before) =>
      LabelByPosition(init);
      var o := UnknownIsReported(before, own);
      assert FirstUnknown(v.attributes, n, o);
  }

  lemma {:induction false} EntryByPosition(v: Variant)
    ensures EntryOf(v).Ok? <==> Derivable(v)
    ensures EntryOf(v).Ok? ==> EntryOf(v).value.ident == v.ident && HasLabel(v, EntryOf(v).value.stored)
    ensures EntryOf(v).Err? ==> Refused(v, EntryOf(v).error)
  {
    if v.isUnit {
      if Labelled(v.ident, OptionsOf(v.attributes)).Ok? {
        LabelByPosition(v);
        assert forall a, o :: OptionAt(v.attributes, a, o) ==> v.attributes[a].options[o].Rename?;
      } else {
        RefusalByPosition(v);
      }
    }
  }

  lemma {:induction false} EntriesFail(variants: seq<Variant>)
    requires Entries(variants).Err?
    ensures exists i :: 0 <= i < |variants| && EntryOf(variants[i]) == Err(Entries(variants).error) &&
              forall j :: 0 <= j < i ==> EntryOf(variants[j]).Ok?
  {
    var n := |variants| - 1;
    if Entries(variants[..n]).Err? {
      EntriesFail(variants[..n]);
    } else {
      EntriesKeepIdents(variants[..n]);
      assert forall j :: 0 <= j < n ==> EntryOf(variants[..n][j]).Ok?;
      assert EntryOf(variants[n]) == Err(Entries(variants).error);
    }
  }

  /**
   The table, by the declaration alone: one entry for each variant, in order, of its name and its label. There is one
   exactly if there are variants, all without fields and without options other than renames.
   */
  lemma {:induction false} TableByDeclaration(variants: seq<Variant>)
    ensures TableOf(variants).Ok? <==>
            variants != [] && forall i :: 0 <= i < |variants| ==> Derivable(variants[i])
    ensures TableOf(variants).Ok? ==>
              var t := TableOf(variants).value;
              && |t| == |variants|
              && forall i :: 0 <= i < |t| ==> t[i].ident == variants[i].ident && HasLabel(variants[i], t[i].stored)
    ensures TableOf(variants).Err? ==>
              || (variants == [] && TableOf(variants).error == NoVariants)
              || exists i :: 0 <= i < |variants| && Refused(variants[i], TableOf(variants).error) &&
                   forall j :: 0 <= j < i ==> Derivable(variants[j])
  {
    forall i | 0 <= i < |variants|
      ensures EntryOf(variants[i]).Ok? <==> Derivable(variants[i])
      ensures EntryOf(variants[i]).Ok? ==>
                EntryOf(variants[i]).value.ident == variants[i].ident &&
                HasLabel(variants[i], EntryOf(variants[i]).value.stored)
      ensures EntryOf(variants[i]).Err? ==> Refused(variants[i], EntryOf(variants[i]).error)
    {
      EntryByPosition(variants[i]);
    }
    if Entries(variants).Ok? {
      EntriesKeepIdents(variants);
    } else {
      EntriesFail(variants);
    }
  }

  /** An enum without renames, whose variants the language keeps distinct, always round-trips. */
  lemma {:induction false} WithoutRenamesRoundTrips(variants: seq<Variant>)
    requires TableOf(variants).Ok?
    requires forall i, j :: 0 <= i < j < |variants| ==> variants[i].ident != variants[j].ident
    requires forall i :: 0 <= i < |variants| ==>
               forall k :: 0 <= k < |OptionsOf(variants[i].attributes)| ==>
                 !OptionsOf(variants[i].attributes)[k].Rename?
    ensures RoundTrips(TableOf(variants).value)
  {
    EntriesKeepIdents(variants);
    var table := TableOf(variants).value;
    forall i | 0 <= i < |variants|
      ensures table[i] == Entry(variants[i].ident, variants[i].ident)
    {
      LabelIsLastRename(variants[i].ident, OptionsOf(variants[i].attributes), table[i].stored);
    }
    RoundTripsIffDistinct(table);
  }
}
