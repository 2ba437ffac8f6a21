/** The catalog: which tables are system tables, the database-name to id
    map, the table auto-selected on start-up and the table search filter. */
module Catalog {
  import Text
  import Gateway

  /** Tables reserved by the data service. */
  const SystemTables: seq<string> := ["_cf_KV", "sqlite_sequence", "sqlite_stat1"]

  /** `SYSTEM_TABLES.includes(name)`. */
  predicate IsSystem(name: string) {
    name in SystemTables
  }

  /** An entry of the `/databases` list. A field the server leaves out is
      modelled as the empty string: both are falsy to the page. */
  datatype DbEntry = DbEntry(name: string, uuid: string)

  predicate Complete(db: DbEntry) {
    db.name != "" && db.uuid != ""
  }

  /** The `reduce` that builds the name-to-uuid map: entries are folded in
      list order, an entry lacking a name or a uuid is skipped, and a later
      entry with the same name overwrites an earlier one. */
  function IdMap(dbs: seq<DbEntry>): map<string, string>
    decreases |dbs|
  {
    if dbs == [] then map[]
    else
      var acc := IdMap(dbs[..|dbs| - 1]);
      var db := dbs[|dbs| - 1];
      if Complete(db) then acc[db.name := db.uuid] else acc
  }

  /** `ids[name]`, with the empty string for `undefined`. */
  function Lookup(ids: map<string, string>, name: string): string {
    if name in ids then ids[name] else ""
  }

  /** A name is in the map exactly when some complete entry carries it. */
  lemma {:induction false} IdMapKeys(dbs: seq<DbEntry>, name: string)
    ensures name in IdMap(dbs) <==> exists i :: 0 <= i < |dbs| && Complete(dbs[i]) && dbs[i].name == name
    decreases |dbs|
  {
    if dbs != [] {
      var init := dbs[..|dbs| - 1];
      IdMapKeys(init, name);
      if exists i :: 0 <= i < |init| && Complete(init[i]) && init[i].name == name {
        var i :| 0 <= i < |init| && Complete(init[i]) && init[i].name == name;
        assert dbs[i] == init[i];
      }
      if exists i :: 0 <= i < |dbs| && Complete(dbs[i]) && dbs[i].name == name {
        var i :| 0 <= i < |dbs| && Complete(dbs[i]) && dbs[i].name == name;
        if i < |init| { assert init[i] == dbs[i]; }
      }
    }
  }

  /** The id a name maps to is the uuid of the LAST complete entry with that
      name: no complete entry after it carries the same name. */
  lemma {:induction false} IdMapLastWins(dbs: seq<DbEntry>, name: string)
    requires name in IdMap(dbs)
    ensures exists i :: (0 <= i < |dbs| && Complete(dbs[i]) && dbs[i].name == name
                         && IdMap(dbs)[name] == dbs[i].uuid
                         && forall j :: i < j < |dbs| ==> !(Complete(dbs[j]) && dbs[j].name == name))
    decreases |dbs|
  {
    var init := dbs[..|dbs| - 1];
    var last := dbs[|dbs| - 1];
    if Complete(last) && last.name == name {
      assert IdMap(dbs)[name] == last.uuid;
    } else {
      IdMapLastWins(init, name);
      var i :| 0 <= i < |init| && Complete(init[i]) && init[i].name == name
        && IdMap(init)[name] == init[i].uuid
        && forall j :: i < j < |init| ==> !(Complete(init[j]) && init[j].name == name);
      assert dbs[i] == init[i];
      assert forall j :: i < j < |init| ==> dbs[j] == init[j];
    }
  }

  /** No id is empty and no name is empty, so `!dbId` fails exactly for
      names missing from the map. */
  lemma {:induction false} IdMapNonEmpty(dbs: seq<DbEntry>, name: string)
    ensures Lookup(IdMap(dbs), name) == "" <==> name !in IdMap(dbs)
    ensures "" !in IdMap(dbs)
    decreases |dbs|
  {
    if dbs != [] {
      IdMapNonEmpty(dbs[..|dbs| - 1], name);
      IdMapNonEmpty(dbs[..|dbs| - 1], "");
    }
  }

  /** `tables.find(t => !SYSTEM_TABLES.includes(t.name))`: the first
      non-system table, if any. */
  function FirstRegular(names: seq<string>): (r: Gateway.Option<string>)
    ensures r.None? <==> forall i :: 0 <= i < |names| ==> IsSystem(names[i])
    ensures r.Some? ==> exists i :: (0 <= i < |names| && names[i] == r.value
                                   && !IsSystem(names[i]) && forall j :: 0 <= j < i ==> IsSystem(names[j]))
    decreases |names|
  {
    if names == [] then Gateway.None
    else if !IsSystem(names[0]) then Gateway.Some(names[0])
    else
      var r := FirstRegular(names[1..]);
      assert forall i :: 1 <= i < |names| ==> names[i] == names[1..][i - 1];
      r
  }

  /** `tables.filter(t => !SYSTEM_TABLES.includes(t.name))`: every
      occurrence of a non-system name is kept and every system name is
      dropped. */
  function NonSystem(names: seq<string>): (r: seq<string>)
    ensures |r| <= |names|
    ensures forall n :: n in r <==> n in names && !IsSystem(n)
    decreases |names|
  {
    if names == [] then []
    else (if IsSystem(names[0]) then [] else [names[0]]) + NonSystem(names[1..])
  }

  /** The filter keeps every occurrence of a non-system name and drops every
      system name, so its length is the number of non-system entries. */
  lemma {:induction false} NonSystemCounts(names: seq<string>)
    ensures forall n :: multiset(NonSystem(names))[n] == if IsSystem(n) then 0 else multiset(names)[n]
    decreases |names|
  {
    if names != [] {
      NonSystemCounts(names[1..]);
      assert names == [names[0]] + names[1..];
    }
  }

  /** The filter keeps catalog order: it distributes over concatenation. */
  lemma {:induction false} NonSystemAppend(a: seq<string>, b: seq<string>)
    ensures NonSystem(a + b) == NonSystem(a) + NonSystem(b)
    decreases |a|
  {
    if a == [] {
      assert a + b == b;
    } else {
      assert (a + b)[0] == a[0];
      assert (a + b)[1..] == a[1..] + b;
      NonSystemAppend(a[1..], b);
    }
  }

  /** The filter keeps every name exactly when no name is a system table. */
  lemma {:induction false} NonSystemKeepsAll(names: seq<string>)
    ensures |NonSystem(names)| == |names| <==> forall i :: 0 <= i < |names| ==> !IsSystem(names[i])
    decreases |names|
  {
    if names != [] {
      NonSystemKeepsAll(names[1..]);
      assert forall i :: 1 <= i < |names| ==> names[i] == names[1..][i - 1];
    }
  }

  /** The table auto-selected is the first table the non-system filter keeps:
      `find` and `filter` agree. */
  lemma {:induction false} FirstRegularIsFirstNonSystem(names: seq<string>)
    ensures FirstRegular(names) == if NonSystem(names) == [] then Gateway.None else Gateway.Some(NonSystem(names)[0])
    decreases |names|
  {
    if names != [] && IsSystem(names[0]) {
      FirstRegularIsFirstNonSystem(names[1..]);
    }
  }

  /** Search matches a name when the lower-cased name includes the
      lower-cased search text. */
  predicate Matches(name: string, search: string) {
    Text.Contains(Text.Lower(name), Text.Lower(search))
  }

  /** `tables.filter(t => t.name.toLowerCase().includes(search.toLowerCase()))`:
      every occurrence of a matching name is kept, and nothing else. */
  function Filtered(names: seq<string>, search: string): (r: seq<string>)
    ensures |r| <= |names|
    ensures forall n :: n in r <==> n in names && Matches(n, search)
    ensures forall n :: multiset(r)[n] == if Matches(n, search) then multiset(names)[n] else 0
    decreases |names|
  {
    if names == [] then []
    else
      var r := (if Matches(names[0], search) then [names[0]] else []) + Filtered(names[1..], search);
      assert names == [names[0]] + names[1..];
      r
  }

  /** The search keeps catalog order: it distributes over concatenation. */
  lemma {:induction false} FilteredAppend(a: seq<string>, b: seq<string>, search: string)
    ensures Filtered(a + b, search) == Filtered(a, search) + Filtered(b, search)
    decreases |a|
  {
    if a == [] {
      assert a + b == b;
    } else {
      assert (a + b)[0] == a[0];
      assert (a + b)[1..] == a[1..] + b;
      FilteredAppend(a[1..], b, search);
    }
  }

  /** An empty search box lists every table, in order. */
  lemma {:induction false} FilteredEmptySearch(names: seq<string>)
    ensures Filtered(names, "") == names
    decreases |names|
  {
    if names != [] {
      Text.ContainsEmpty(Text.Lower(names[0]));
      FilteredEmptySearch(names[1..]);
    }
  }

  /** The search is case-insensitive: lower-casing the search text first
      gives the same list. */
  lemma {:induction false} FilteredIgnoresCase(names: seq<string>, search: string)
    ensures Filtered(names, Text.Lower(search)) == Filtered(names, search)
    decreases |names|
  {
    Text.LowerIdempotent(search);
    if names != [] { FilteredIgnoresCase(names[1..], search); }
  }

  /** Filtering twice by the same text changes nothing more. */
  lemma {:induction false} FilteredIdempotent(names: seq<string>, search: string)
    ensures Filtered(Filtered(names, search), search) == Filtered(names, search)
    decreases |names|
  {
    if names != [] {
      FilteredIdempotent(names[1..], search);
      if Matches(names[0], search) {
        var f := Filtered(names, search);
        assert f == [names[0]] + Filtered(names[1..], search);
        assert f[1..] == Filtered(names[1..], search);
        assert Filtered(f, search) == [f[0]] + Filtered(f[1..], search);
      } else {
        assert Filtered(names, search) == Filtered(names[1..], search);
      }
    }
  }
}
