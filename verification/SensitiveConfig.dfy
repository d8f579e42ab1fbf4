/**
 The sealed configuration of backend/app/sensitive_config.py: two tables seeded once, a digest of their canonical form
 kept in a file, and a load at every start that accepts the tables only if the digest still fits.
 */
module SensitiveConfig {
  import opened Options
  import opened CanonicalJson
  import opened DottedKeys
  import PythonText

  /** A table row; the key is the primary key. */
  datatype Row<V> = Row(key: string, value: V)

  /** The two tables, their rows in whatever order the database returns them. */
  datatype Tables = Tables(functions: seq<Row<Entry>>, values: seq<Row<string>>)

  // ---------------------------------------------------------------------------
  // Sorting by key
  // ---------------------------------------------------------------------------

  /** Strings are compared by code points. */
  predicate AtMost(a: string, b: string) {
    a == [] || (b != [] && (a[0] < b[0] || (a[0] == b[0] && AtMost(a[1..], b[1..]))))
  }

  function Insert<V>(row: Row<V>, rows: seq<Row<V>>): seq<Row<V>> {
    if rows == [] || AtMost(row.key, rows[0].key) then [row] + rows else [rows[0]] + Insert(row, rows[1..])
  }

  function Sort<V>(rows: seq<Row<V>>): seq<Row<V>> { if rows == [] then [] else Insert(rows[0], Sort(rows[1..])) }

  predicate Sorted<V>(rows: seq<Row<V>>) {
    forall i, j :: 0 <= i < j < |rows| ==> AtMost(rows[i].key, rows[j].key)
  }

  /** What a primary key guarantees. */
  ghost predicate KeyUnique<V(!new)>(rows: multiset<Row<V>>) {
    forall r :: r in rows ==> rows[r] == 1 && forall q :: q in rows && q.key == r.key ==> q == r
  }

  lemma {:induction false} AtMostTotal(a: string, b: string)
    ensures AtMost(a, b) || AtMost(b, a)
    ensures AtMost(a, b) && AtMost(b, a) ==> a == b
  {
    if a != [] && b != [] && a[0] == b[0] {
      AtMostTotal(a[1..], b[1..]);
      assert a == [a[0]] + a[1..] && b == [b[0]] + b[1..];
    }
  }

  lemma {:induction false} AtMostTransitive(a: string, b: string, c: string)
    requires AtMost(a, b) && AtMost(b, c)
    ensures AtMost(a, c)
  {
    if a != [] && b != [] && c != [] && a[0] == b[0] == c[0] { AtMostTransitive(a[1..], b[1..], c[1..]); }
  }

  lemma PrependSorted<V>(row: Row<V>, rows: seq<Row<V>>)
    requires Sorted(rows) && forall i :: 0 <= i < |rows| ==> AtMost(row.key, rows[i].key)
    ensures Sorted([row] + rows)
  {
    hide AtMost;
  }

  lemma {:induction false} InsertKeeps<V>(row: Row<V>, rows: seq<Row<V>>)
    ensures multiset(Insert(row, rows)) == multiset(rows) + multiset{row}
  {
    hide AtMost;
    if rows != [] {
      InsertKeeps(row, rows[1..]);
      assert rows == [rows[0]] + rows[1..];
    }
  }

  lemma {:induction false} InsertSorts<V>(row: Row<V>, rows: seq<Row<V>>)
    requires Sorted(rows)
    ensures Sorted(Insert(row, rows))
  {
    hide AtMost;
    if rows == [] {
    } else if AtMost(row.key, rows[0].key) {
      forall i | 0 <= i < |rows| ensures AtMost(row.key, rows[i].key) {
        if i > 0 { AtMostTransitive(row.key, rows[0].key, rows[i].key); }
      }
      PrependSorted(row, rows);
    } else {
      var rest := Insert(row, rows[1..]);
      InsertSorts(row, rows[1..]);
      InsertKeeps(row, rows[1..]);
      AtMostTotal(row.key, rows[0].key);
      forall i | 0 <= i < |rest| ensures AtMost(rows[0].key, rest[i].key) { assert rest[i] in multiset(rest); }
      PrependSorted(rows[0], rest);
    }
  }

  lemma {:induction false} SortSorts<V>(rows: seq<Row<V>>)
    ensures Sorted(Sort(rows)) && multiset(Sort(rows)) == multiset(rows)
  {
    hide Insert, Sorted;
    if rows != [] {
      SortSorts(rows[1..]);
      InsertSorts(rows[0], Sort(rows[1..]));
      InsertKeeps(rows[0], Sort(rows[1..]));
      assert rows == [rows[0]] + rows[1..];
    } else {
      EmptyIsSorted<V>();
    }
  }

  lemma EmptyIsSorted<V>()
    ensures Sorted<V>([])
  {
  }

  lemma TailUnique<V(!new)>(rows: seq<Row<V>>)
    requires rows != []
    ensures multiset(rows[1..]) == multiset(rows) - multiset{rows[0]}
    ensures KeyUnique(multiset(rows)) ==> KeyUnique(multiset(rows[1..]))
    ensures Sorted(rows) ==> Sorted(rows[1..])
  {
    hide AtMost;
    assert rows == [rows[0]] + rows[1..];
    assert multiset(rows) == multiset{rows[0]} + multiset(rows[1..]);
  }

  lemma SameKeySameRow<V(!new)>(rows: multiset<Row<V>>, r: Row<V>, q: Row<V>)
    requires KeyUnique(rows) && r in rows && q in rows && r.key == q.key
    ensures r == q
  {
  }

  /** There is one way to list key-unique rows in order. */
  lemma {:induction false} OneSortedList<V(!new)>(a: seq<Row<V>>, b: seq<Row<V>>)
    requires Sorted(a) && Sorted(b) && multiset(a) == multiset(b) && KeyUnique(multiset(a))
    ensures a == b
  {
    hide AtMost, Sorted, KeyUnique;
    assert |a| == |multiset(a)| && |b| == |multiset(b)|;
    if a != [] {
      var x, y := a[0], b[0];
      assert x in multiset(b) && y in multiset(a);
      FirstIsLeast(a, y);
      FirstIsLeast(b, x);
      AtMostTotal(x.key, y.key);
      SameKeySameRow(multiset(a), x, y);
      TailUnique(a);
      TailUnique(b);
      OneSortedList(a[1..], b[1..]);
      assert a == [x] + a[1..] && b == [y] + b[1..];
    }
  }

  lemma FirstIsLeast<V>(rows: seq<Row<V>>, row: Row<V>)
    requires Sorted(rows) && rows != [] && row in multiset(rows)
    ensures AtMost(rows[0].key, row.key)
  {
    AtMostTotal(rows[0].key, rows[0].key);
    assert row in rows;
  }

  // ---------------------------------------------------------------------------
  // The canonical form
  // ---------------------------------------------------------------------------

  function FunctionItem(row: Row<Entry>): Json {
    Object([Field("challenge_type", Json.Text(row.value.challengeType)),
            Field("function_key", Json.Text(row.key)),
            Field("is_sensitive", Flag(row.value.isSensitive))])
  }

  function ValueItem(row: Row<string>): Json {
    Object([Field("config_key", Json.Text(row.key)), Field("config_value", Json.Text(row.value))])
  }

  function Payload(functions: seq<Row<Entry>>, values: seq<Row<string>>): Json {
    Object([Field("functions", Array(seq(|functions|, i requires 0 <= i < |functions| => FunctionItem(functions[i])))),
            Field("values", Array(seq(|values|, i requires 0 <= i < |values| => ValueItem(values[i]))))])
  }

  function Canonical(t: Tables): string { Dumps(Payload(Sort(t.functions), Sort(t.values))) }

  ghost predicate Keyed(t: Tables) { KeyUnique(multiset(t.functions)) && KeyUnique(multiset(t.values)) }

  /** The same rows in both tables, in any order. */
  ghost predicate SameRows(t: Tables, u: Tables) {
    multiset(t.functions) == multiset(u.functions) && multiset(t.values) == multiset(u.values)
  }

  predicate FieldsInOrder(j: Json) {
    j.Object? && forall i, k :: 0 <= i < k < |j.fields| ==> AtMost(j.fields[i].name, j.fields[k].name)
  }

  lemma {:induction false} AtMostAfter(prefix: string, a: string, b: string)
    requires AtMost(a, b)
    ensures AtMost(prefix + a, prefix + b)
  {
    if prefix == "" {
      assert prefix + a == a && prefix + b == b;
    } else {
      AtMostAfter(prefix[1..], a, b);
      assert (prefix + a)[1..] == prefix[1..] + a && (prefix + b)[1..] == prefix[1..] + b;
    }
  }

  lemma NamesInOrder()
    ensures AtMost("challenge_type", "function_key") && AtMost("function_key", "is_sensitive")
      && AtMost("challenge_type", "is_sensitive")
    ensures AtMost("config_key", "config_value") && AtMost("functions", "values")
  {
    AtMostAfter("config_", "key", "value");
    assert "config_" + "key" == "config_key" && "config_" + "value" == "config_value";
  }

  /** Every object of the payload lists its fields by name, as sorted keys ask for. */
  lemma PayloadIsSorted(t: Tables, f: Row<Entry>, value: Row<string>)
    ensures FieldsInOrder(Payload(t.functions, t.values))
    ensures FieldsInOrder(FunctionItem(f)) && FieldsInOrder(ValueItem(value))
  {
    hide AtMost;
    NamesInOrder();
  }

  /** How a row of the function table stands in the hashed text. */
  lemma FunctionText(key: string, challengeType: string, sensitive: bool)
    requires Plain(key) && Plain(challengeType)
    ensures Dumps(FunctionItem(Row(key, Entry(sensitive, challengeType)))) ==
      "{" + (Pair("challenge_type", "\"" + challengeType + "\"") + "," + (Pair("function_key", "\"" + key + "\"") + ","
      + Pair("is_sensitive", if sensitive then "true" else "false"))) + "}"
  {
    var item := FunctionItem(Row(key, Entry(sensitive, challengeType)));
    var flag := if sensitive then "true" else "false";
    var texts := [Pair("challenge_type", "\"" + challengeType + "\""), Pair("function_key", "\"" + key + "\""),
                  Pair("is_sensitive", flag)];
    PlainText(challengeType);
    PlainText(key);
    assert Dumps(Flag(sensitive)) == flag;
    PlainNames();
    hide Dumps, Plain, Pair, Listed;
    ObjectText(item.fields, texts);
    ThreeListed(texts);
  }

  lemma PlainNames()
    ensures Plain("challenge_type") && Plain("function_key") && Plain("is_sensitive")
    ensures Plain("config_key") && Plain("config_value") && Plain("functions") && Plain("values")
  {
  }

  lemma ThreeListed(texts: seq<string>)
    requires |texts| == 3
    ensures Listed(texts) == texts[0] + "," + (texts[1] + "," + texts[2])
  {
    var rest := texts[1..];
    assert Listed(rest) == rest[0] + "," + Listed(rest[1..]);
    assert Listed(rest[1..]) == texts[2];
  }

  lemma PayloadIsInjective(f: seq<Row<Entry>>, v: seq<Row<string>>, f': seq<Row<Entry>>, v': seq<Row<string>>)
    requires Payload(f, v) == Payload(f', v')
    ensures f == f' && v == v'
  {
    var p, p' := Payload(f, v), Payload(f', v');
    var a, a' := p.fields[0].value.items, p'.fields[0].value.items;
    var b, b' := p.fields[1].value.items, p'.fields[1].value.items;
    assert a == a' && b == b';
    forall i | 0 <= i < |f| ensures f[i] == f'[i] {
      assert a[i] == FunctionItem(f[i]) && a'[i] == FunctionItem(f'[i]);
      assert a[i].fields[0] == a'[i].fields[0] && a[i].fields[1] == a'[i].fields[1]
        && a[i].fields[2] == a'[i].fields[2];
    }
    forall i | 0 <= i < |v| ensures v[i] == v'[i] {
      assert b[i] == ValueItem(v[i]) && b'[i] == ValueItem(v'[i]);
      assert b[i].fields[0] == b'[i].fields[0] && b[i].fields[1] == b'[i].fields[1];
    }
  }

  /** The hashed text is the same exactly for the same rows, whatever order they come in. */
  lemma CanonicalIff(t: Tables, u: Tables)
    requires Keyed(t)
    ensures Canonical(t) == Canonical(u) <==> SameRows(t, u)
  {
    hide Dumps, Payload, Sorted, AtMost, KeyUnique, Sort;
    SortSorts(t.functions);
    SortSorts(t.values);
    SortSorts(u.functions);
    SortSorts(u.values);
    DumpsIsInjective(Payload(Sort(t.functions), Sort(t.values)), Payload(Sort(u.functions), Sort(u.values)));
    if Canonical(t) == Canonical(u) {
      PayloadIsInjective(Sort(t.functions), Sort(t.values), Sort(u.functions), Sort(u.values));
    } else if SameRows(t, u) {
      OneSortedList(Sort(t.functions), Sort(u.functions));
      OneSortedList(Sort(t.values), Sort(u.values));
    }
  }

  // ---------------------------------------------------------------------------
  // Lookup tables
  // ---------------------------------------------------------------------------

  /** The dictionary built row by row. */
  function Table<V>(rows: seq<Row<V>>): map<string, V> {
    if rows == [] then map[]
    else Table(rows[..|rows| - 1])[rows[|rows| - 1].key := rows[|rows| - 1].value]
  }

  lemma {:induction false} TableHolds<V(!new)>(rows: seq<Row<V>>, key: string)
    ensures key in Table(rows) ==> Row(key, Table(rows)[key]) in multiset(rows)
    ensures key !in Table(rows) ==> forall v :: Row(key, v) !in multiset(rows)
  {
    if rows != [] {
      var front, last := rows[..|rows| - 1], rows[|rows| - 1];
      TableHolds(front, key);
      assert rows == front + [last];
    }
  }

  /** Key-unique rows give one table, in any order, and different rows give different tables. */
  lemma TableIff<V(!new)>(a: seq<Row<V>>, b: seq<Row<V>>)
    requires KeyUnique(multiset(a)) && KeyUnique(multiset(b))
    ensures Table(a) == Table(b) <==> multiset(a) == multiset(b)
  {
    hide Table;
    forall key, v ensures key in Table(a) && Table(a)[key] == v <==> Row(key, v) in multiset(a) {
      TableHolds(a, key);
    }
    forall key, v ensures key in Table(b) && Table(b)[key] == v <==> Row(key, v) in multiset(b) {
      TableHolds(b, key);
    }
    if Table(a) == Table(b) {
      forall r ensures multiset(a)[r] == multiset(b)[r] {
        assert r == Row(r.key, r.value);
        assert r in multiset(a) <==> r in multiset(b);
        assert r in multiset(a) ==> multiset(a)[r] == 1;
        assert r in multiset(b) ==> multiset(b)[r] == 1;
      }
    }
    if multiset(a) == multiset(b) {
      assert forall key :: key in Table(a) ==> Row(key, Table(a)[key]) in multiset(b);
      assert forall key :: key in Table(b) ==> Row(key, Table(b)[key]) in multiset(a);
      assert Table(a) == Table(b);
    }
  }

  // ---------------------------------------------------------------------------
  // Bootstrap and load
  // ---------------------------------------------------------------------------

  /** A seed: a function key and its challenge type. */
  datatype Seed = Seed(key: string, challengeType: string)

  const OPAQUE_SERVER_SETUP_KEY := "opaque.server_setup"

  const SENSITIVE_DEFAULTS := [
    Seed("admin.settings.crypto.*", "password"),
    Seed("admin.settings.security.*", "password"),
    Seed("policy.escrow.enable", "password"),
    Seed("policy.escrow.disable", "password"),
    Seed("policy.sharing.*", "password"),
    Seed("admin.audit.export", "password"),
    Seed("admin.audit.configure", "password"),
    Seed("admin.user.freeze", "password"),
    Seed("admin.user.delete", "password"),
    Seed("integration.ldap.configure", "password"),
    Seed("admin.storage.configure", "password"),
    Seed("admin.notifications.configure", "password"),
    Seed("admin.api_keys.manage", "password"),
    Seed("auth.mfa.admin_remove", "password"),
    Seed("auth.mfa.admin_reset", "password"),
    Seed("admin.service_accounts.*", "password"),
    Seed("user.change_password", "password")
  ]

  const NON_SENSITIVE_DEFAULTS := [
    Seed("admin.invite.create", "password"),
    Seed("team.key.rotate", "password")
  ]

  datatype Error = SchemaMissing | BootstrapFailed | HashMissing | IntegrityFailed

  /** The rows a list of seeds makes. */
  function SeedRows(seeds: seq<Seed>, sensitive: bool): (rows: seq<Row<Entry>>)
    ensures |rows| == |seeds|
    ensures forall i :: 0 <= i < |seeds| ==> rows[i] == Row(seeds[i].key, Entry(sensitive, seeds[i].challengeType))
  {
    seq(|seeds|, i requires 0 <= i < |seeds| => Row(seeds[i].key, Entry(sensitive, seeds[i].challengeType)))
  }

  function Seeded(sensitive: seq<Seed>, other: seq<Seed>, setup: string): Tables {
    Tables(SeedRows(sensitive, true) + SeedRows(other, false), [Row(OPAQUE_SERVER_SETUP_KEY, setup)])
  }

  predicate DistinctKeys<V>(rows: seq<Row<V>>) { forall i, j :: 0 <= i < j < |rows| ==> rows[i].key != rows[j].key }

  lemma NoneDistinct<V>()
    ensures DistinctKeys<V>([])
  {
  }

  lemma PrefixNotDistinct<V>(a: seq<Row<V>>, b: seq<Row<V>>)
    requires !DistinctKeys(a)
    ensures !DistinctKeys(a + b)
  {
    var i, j :| 0 <= i < j < |a| && a[i].key == a[j].key;
    assert (a + b)[i] == a[i] && (a + b)[j] == a[j];
  }

  /** What a load makes of the tables and the file. */
  function Verdict(t: Tables, hashFile: Option<string>, digest: string -> string): Option<Error> {
    if hashFile.None? then Some(HashMissing)
    else if digest(Canonical(t)) != PythonText.Strip(hashFile.value) then Some(IntegrityFailed)
    else None
  }

  function Sensitive(config: Config, key: string): bool {
    match Resolve(config, key)
    case Some(entry) => entry.isSensitive
    case None => false
  }

  function ChallengeType(config: Config, key: string): string {
    match Resolve(config, key)
    case Some(entry) => entry.challengeType
    case None => "password"
  }

  /** Both answers come from the exact entry, else from the most specific wildcard, else they are the defaults. */
  lemma ResolvedSensitive(config: Config, key: string)
    ensures key in config ==>
      Sensitive(config, key) == config[key].isSensitive && ChallengeType(config, key) == config[key].challengeType
    ensures forall p :: key !in config && LongestMatch(config, key, p) ==>
      && Sensitive(config, key) == config[p + ".*"].isSensitive
      && ChallengeType(config, key) == config[p + ".*"].challengeType
    ensures key !in config && (forall p :: !Matches(config, key, p)) ==>
      !Sensitive(config, key) && ChallengeType(config, key) == "password"
  {
    hide Resolve;
    ResolveIs(config, key);
  }

  class SensitiveConfig {
    // the database schema and the file beside it
    var schema: Option<Tables>
    var hashFile: Option<string>
    // the frozen module state
    var config: Config
    var values: map<string, string>
    var loaded: bool

    constructor (schema: Option<Tables>, hashFile: Option<string>)
      ensures this.schema == schema && this.hashFile == hashFile && !loaded
    {
      this.schema, this.hashFile := schema, hashFile;
      config, values, loaded := map[], map[], false;
    }

    /** Inserts seeds row by row, as far as the primary key lets it. */
    method InsertSeeds(seeds: seq<Seed>, sensitive: bool, inserted: seq<Row<Entry>>)
      returns (ok: bool, rows: seq<Row<Entry>>)
      requires schema == Some(Tables(inserted, [])) && DistinctKeys(inserted)
      modifies `schema
      ensures schema == Some(Tables(rows, []))
      ensures ok <==> DistinctKeys(inserted + SeedRows(seeds, sensitive))
      ensures ok ==> rows == inserted + SeedRows(seeds, sensitive)
    {
      ghost var all := inserted + SeedRows(seeds, sensitive);
      rows := inserted;
      for n := 0 to |seeds|
        invariant rows == all[..|inserted| + n] && DistinctKeys(rows) && schema == Some(Tables(rows, []))
      {
        var row := Row(seeds[n].key, Entry(sensitive, seeds[n].challengeType));
        assert all[|rows|] == row;
        if j :| 0 <= j < |rows| && rows[j].key == row.key {
          assert all[j] == rows[j];
          return false, rows;
        }
        rows := rows + [row];
        schema := Some(Tables(rows, []));
      }
      assert rows == all;
      ok := true;
    }

    /**
     First start: creates, seeds and seals the tables.  The server's setup blob is None when its module is missing;
     any failure drops the schema again and leaves the file alone.
     */
    method Bootstrap(connects: bool, sensitive: seq<Seed>, other: seq<Seed>, setup: Option<string>, writable: bool,
                     digest: string -> string)
      returns (error: Option<Error>)
      modifies `schema, `hashFile
      ensures error.None? || error == Some(BootstrapFailed)
      ensures connects && old(schema).Some? ==> error.None?
      ensures old(schema).Some? ==> schema == old(schema) && hashFile == old(hashFile)
      ensures old(schema).None? ==>
        (error.None? <==>
          connects && DistinctKeys(SeedRows(sensitive, true) + SeedRows(other, false)) && setup.Some? && writable)
      ensures old(schema).None? && error.None? ==>
        schema == Some(Seeded(sensitive, other, setup.value)) && hashFile == Some(digest(Canonical(schema.value)))
      ensures error.Some? ==> schema == old(schema) && hashFile == old(hashFile)
    {
      hide Canonical, DistinctKeys;
      NoneDistinct<Entry>();
      if !connects { return Some(BootstrapFailed); }
      if schema.Some? { return None; }
      schema := Some(Tables([], []));
      var ok, rows := InsertSeeds(sensitive, true, []);
      assert [] + SeedRows(sensitive, true) == SeedRows(sensitive, true);
      if ok {
        ok, rows := InsertSeeds(other, false, rows);
      } else {
        PrefixNotDistinct(SeedRows(sensitive, true), SeedRows(other, false));
      }
      if !ok || setup.None? {
        schema := None;
        return Some(BootstrapFailed);
      }
      schema := Some(Tables(rows, [Row(OPAQUE_SERVER_SETUP_KEY, setup.value)]));
      if !writable {
        schema := None;
        return Some(BootstrapFailed);
      }
      hashFile := Some(digest(Canonical(schema.value)));
      error := None;
    }

    /**
     Every start: creates the tables if they are missing and may be created, then accepts them if the digest in the
     file is theirs.  The module state changes only on acceptance.
     */
    method Load(superuser: bool, connects: bool, setup: Option<string>, writable: bool, digest: string -> string)
      returns (error: Option<Error>)
      modifies this
      ensures old(schema).Some? ==>
        schema == old(schema) && hashFile == old(hashFile) && error == Verdict(schema.value, hashFile, digest)
      ensures old(schema).None? && !superuser ==> error == Some(SchemaMissing)
      ensures old(schema).None? && superuser ==>
        if connects && setup.Some? && writable
          && DistinctKeys(SeedRows(SENSITIVE_DEFAULTS, true) + SeedRows(NON_SENSITIVE_DEFAULTS, false)) then
          && schema == Some(Seeded(SENSITIVE_DEFAULTS, NON_SENSITIVE_DEFAULTS, setup.value))
          && hashFile == Some(digest(Canonical(schema.value)))
          && error == Verdict(schema.value, hashFile, digest)
        else error == Some(BootstrapFailed)
      ensures error.Some? && old(schema).None? && error.value != IntegrityFailed ==>
        schema.None? && hashFile == old(hashFile)
      ensures error.None? ==>
        schema.Some? && config == Table(schema.value.functions) && values == Table(schema.value.values) && loaded
      ensures error.Some? ==> config == old(config) && values == old(values) && loaded == old(loaded)
    {
      if schema.None? {
        if !superuser { return Some(SchemaMissing); }
        error := Bootstrap(connects, SENSITIVE_DEFAULTS, NON_SENSITIVE_DEFAULTS, setup, writable, digest);
        if error.Some? { return; }
      }
      var functionRows, valueRows := schema.value.functions, schema.value.values;
      if hashFile.None? { return Some(HashMissing); }
      var storedHash := PythonText.Strip(hashFile.value);
      if digest(Canonical(schema.value)) != storedHash { return Some(IntegrityFailed); }
      config := Table(functionRows);
      values := Table(valueRows);
      loaded := true;
      error := None;
    }

    /** None is the error for a call before load. */
    method IsSensitive(key: string) returns (answer: Option<bool>)
      ensures answer.None? <==> !loaded
      ensures loaded && key in config ==> answer == Some(config[key].isSensitive)
      ensures forall p :: loaded && key !in config && LongestMatch(config, key, p) ==>
        answer == Some(config[p + ".*"].isSensitive)
      ensures loaded && key !in config && (forall p :: !Matches(config, key, p)) ==> answer == Some(false)
      ensures loaded ==> answer == Some(Sensitive(config, key))
    {
      ResolvedSensitive(config, key);
      hide LastCover, Join, Split, Matches, LongestMatch;
      if !loaded { return None; }
      if key in config { return Some(config[key].isSensitive); }
      var parts := Split(key);
      var i := |parts| - 1;
      WholeKey(key);
      NextShorter(config, key, |parts|);
      while i > 0
        invariant 0 <= i < |parts|
        invariant LastCover(config, key, |key|) == LastCover(config, key, Remaining(key, i))
      {
        TakenIff(config, key, i);
        var wildcard := Join(parts[..i]) + ".*";
        if wildcard in config { return Some(config[wildcard].isSensitive); }
        NextShorter(config, key, i);
        i := i - 1;
      }
      NothingLeft(config, key);
      return Some(false);
    }

    method GetChallengeType(key: string) returns (answer: Option<string>)
      ensures answer.None? <==> !loaded
      ensures loaded && key in config ==> answer == Some(config[key].challengeType)
      ensures forall p :: loaded && key !in config && LongestMatch(config, key, p) ==>
        answer == Some(config[p + ".*"].challengeType)
      ensures loaded && key !in config && (forall p :: !Matches(config, key, p)) ==> answer == Some("password")
      ensures loaded ==> answer == Some(ChallengeType(config, key))
    {
      ResolvedSensitive(config, key);
      hide LastCover, Join, Split, Matches, LongestMatch;
      if !loaded { return None; }
      if key in config { return Some(config[key].challengeType); }
      var parts := Split(key);
      var i := |parts| - 1;
      WholeKey(key);
      NextShorter(config, key, |parts|);
      while i > 0
        invariant 0 <= i < |parts|
        invariant LastCover(config, key, |key|) == LastCover(config, key, Remaining(key, i))
      {
        TakenIff(config, key, i);
        var wildcard := Join(parts[..i]) + ".*";
        if wildcard in config { return Some(config[wildcard].challengeType); }
        NextShorter(config, key, i);
        i := i - 1;
      }
      NothingLeft(config, key);
      return Some("password");
    }

    /** None is the error, Some(None) a missing key. */
    method GetConfigValue(key: string) returns (answer: Option<Option<string>>)
      ensures answer == if !loaded then None else Some(if key in values then Some(values[key]) else None)
    {
      if !loaded { return None; }
      if key in values { return Some(Some(values[key])); }
      return Some(None);
    }
  }

  // ---------------------------------------------------------------------------
  // Main results
  // ---------------------------------------------------------------------------

  lemma {:induction false} CountsOnce<V>(rows: seq<Row<V>>, r: Row<V>)
    requires DistinctKeys(rows)
    ensures multiset(rows)[r] <= 1
  {
    if rows != [] {
      var rest := rows[1..];
      assert rows == [rows[0]] + rest;
      assert forall i :: 0 <= i < |rest| ==> rest[i] == rows[i + 1];
      CountsOnce(rest, r);
      assert rows[0] !in rest;
    }
  }

  lemma SameKeySameIndex<V>(rows: seq<Row<V>>, r: Row<V>, q: Row<V>)
    requires DistinctKeys(rows) && r in rows && q in rows && q.key == r.key
    ensures q == r
  {
  }

  lemma DistinctIsUnique<V(!new)>(rows: seq<Row<V>>)
    requires DistinctKeys(rows)
    ensures KeyUnique(multiset(rows))
  {
    hide DistinctKeys;
    forall r | r in multiset(rows)
      ensures multiset(rows)[r] == 1 && forall q :: q in multiset(rows) && q.key == r.key ==> q == r
    {
      CountsOnce(rows, r);
      forall q | q in multiset(rows) && q.key == r.key ensures q == r { SameKeySameIndex(rows, r, q); }
    }
  }

  const ALL_SEEDS := SENSITIVE_DEFAULTS + NON_SENSITIVE_DEFAULTS

  const KEY_LENGTHS := [23, 25, 20, 21, 16, 18, 21, 17, 17, 26, 23, 29, 21, 21, 20, 24, 20, 19, 15]

  lemma KeyLengths(i: nat)
    requires i < |KEY_LENGTHS|
    ensures |ALL_SEEDS| == |KEY_LENGTHS| && |ALL_SEEDS[i].key| == KEY_LENGTHS[i]
  {
  }

  /** Two keys of one length. */
  lemma SameLength(i: nat, j: nat)
    requires i < j < |KEY_LENGTHS| && KEY_LENGTHS[i] == KEY_LENGTHS[j]
    ensures (i, j) in {(0, 10), (2, 14), (2, 16), (14, 16), (3, 6), (3, 12), (3, 13), (6, 12), (6, 13), (12, 13),
      (7, 8)}
  {
  }

  lemma SameLengthDiffer()
    ensures "admin.settings.crypto.*"[7] != "admin.storage.configure"[7]
    ensures "policy.escrow.enable"[0] != "auth.mfa.admin_reset"[0]
      && "policy.escrow.enable"[0] != "user.change_password"[0]
    ensures "auth.mfa.admin_reset"[0] != "user.change_password"[0]
    ensures "policy.escrow.disable"[0] != "admin.audit.configure"[0]
      && "policy.escrow.disable"[0] != "auth.mfa.admin_remove"[0]
    ensures "admin.audit.configure"[7] != "admin.api_keys.manage"[7]
      && "admin.audit.configure"[1] != "auth.mfa.admin_remove"[1]
    ensures "admin.api_keys.manage"[1] != "auth.mfa.admin_remove"[1]
      && "admin.user.freeze"[11] != "admin.user.delete"[11]
  {
  }

  lemma SeedKeysDiffer(i: nat, j: nat)
    requires i < j < |ALL_SEEDS|
    ensures ALL_SEEDS[i].key != ALL_SEEDS[j].key
  {
    KeyLengths(i);
    KeyLengths(j);
    if KEY_LENGTHS[i] == KEY_LENGTHS[j] {
      SameLength(i, j);
      SameLengthDiffer();
    }
  }

  /** The shipped seeds have distinct keys, so a first start that reaches the database creates the tables. */
  lemma SeedsAreDistinct()
    ensures DistinctKeys(SeedRows(SENSITIVE_DEFAULTS, true) + SeedRows(NON_SENSITIVE_DEFAULTS, false))
  {
    var rows := SeedRows(SENSITIVE_DEFAULTS, true) + SeedRows(NON_SENSITIVE_DEFAULTS, false);
    forall i, j | 0 <= i < j < |rows| ensures rows[i].key != rows[j].key {
      SeedKeysDiffer(i, j);
      assert rows[i].key == ALL_SEEDS[i].key && rows[j].key == ALL_SEEDS[j].key;
    }
  }

  lemma SeededIsKeyed(setup: string)
    ensures Keyed(Seeded(SENSITIVE_DEFAULTS, NON_SENSITIVE_DEFAULTS, setup))
  {
    hide DistinctKeys;
    SeedsAreDistinct();
    DistinctIsUnique(SeedRows(SENSITIVE_DEFAULTS, true) + SeedRows(NON_SENSITIVE_DEFAULTS, false));
  }

  /** No two texts have one digest, and a digest has no white space around it. */
  ghost predicate CollisionFree(digest: string -> string) {
    && (forall a, b :: digest(a) == digest(b) ==> a == b)
    && forall a :: PythonText.Strip(digest(a)) == digest(a)
  }

  /**
   With the file written for some tables, a load accepts tables exactly when they hold the same rows, in any order,
   which is when both lookup tables are the same; every other content is refused as tampering.
   */
  lemma AcceptsIff(sealed: Tables, found: Tables, digest: string -> string)
    requires CollisionFree(digest) && Keyed(sealed) && Keyed(found)
    ensures Verdict(found, Some(digest(Canonical(sealed))), digest) ==
      if SameRows(found, sealed) then None else Some(IntegrityFailed)
    ensures SameRows(found, sealed) <==>
      Table(found.functions) == Table(sealed.functions) && Table(found.values) == Table(sealed.values)
  {
    hide Canonical, KeyUnique, Table;
    CanonicalIff(found, sealed);
    TableIff(found.functions, sealed.functions);
    TableIff(found.values, sealed.values);
  }

  /** After any accepted load, with whatever the tables have become, every key is answered as the seeds answer it. */
  lemma AnswersAsSeeded(setup: string, found: Tables, digest: string -> string, key: string)
    requires CollisionFree(digest) && Keyed(found)
    requires Verdict(found, Some(digest(Canonical(Seeded(SENSITIVE_DEFAULTS, NON_SENSITIVE_DEFAULTS, setup)))), digest)
      == None
    ensures var seeds := Table(Seeded(SENSITIVE_DEFAULTS, NON_SENSITIVE_DEFAULTS, setup).functions);
      && Sensitive(Table(found.functions), key) == Sensitive(seeds, key)
      && ChallengeType(Table(found.functions), key) == ChallengeType(seeds, key)
    ensures Table(found.values) == map[OPAQUE_SERVER_SETUP_KEY := setup]
  {
    hide Canonical, Resolve, KeyUnique;
    var t := Seeded(SENSITIVE_DEFAULTS, NON_SENSITIVE_DEFAULTS, setup);
    SeededIsKeyed(setup);
    AcceptsIff(t, found, digest);
    OneValue(setup);
  }

  // ---------------------------------------------------------------------------
  // What the shipped seeds answer
  // ---------------------------------------------------------------------------

  /** The seed is the key itself, or a wildcard for what the key begins with. */
  predicate Grants(seed: string, key: string) {
    seed == key || (|seed| >= 2 && seed[|seed| - 2..] == ".*" && seed[..|seed| - 1] <= key)
  }

  ghost predicate IsSeed(seeds: seq<Seed>, key: string) { exists i :: 0 <= i < |seeds| && seeds[i].key == key }

  /** The function table of a first start. */
  function SeedConfig(): Config {
    Table(SeedRows(SENSITIVE_DEFAULTS, true) + SeedRows(NON_SENSITIVE_DEFAULTS, false))
  }

  lemma RowSeeded(rows: seq<Row<Entry>>, key: string, entry: Entry)
    requires rows == SeedRows(SENSITIVE_DEFAULTS, true) + SeedRows(NON_SENSITIVE_DEFAULTS, false)
    ensures Row(key, entry) in multiset(rows) <==>
      && entry.challengeType == "password"
      && (if entry.isSensitive then IsSeed(SENSITIVE_DEFAULTS, key) else IsSeed(NON_SENSITIVE_DEFAULTS, key))
  {
    AllPasswords();
    var a, b := SeedRows(SENSITIVE_DEFAULTS, true), SeedRows(NON_SENSITIVE_DEFAULTS, false);
    if entry.isSensitive && IsSeed(SENSITIVE_DEFAULTS, key) {
      var i :| 0 <= i < |a| && SENSITIVE_DEFAULTS[i].key == key;
      assert rows[i] == a[i];
    }
    if !entry.isSensitive && IsSeed(NON_SENSITIVE_DEFAULTS, key) {
      var i :| 0 <= i < |b| && NON_SENSITIVE_DEFAULTS[i].key == key;
      assert rows[|a| + i] == b[i];
    }
    if Row(key, entry) in multiset(rows) {
      var i :| 0 <= i < |rows| && rows[i] == Row(key, entry);
      assert i < |a| ==> rows[i] == a[i];
      assert i >= |a| ==> rows[i] == b[i - |a|];
    }
  }

  lemma AllPasswords()
    ensures forall i :: 0 <= i < |SENSITIVE_DEFAULTS| ==> SENSITIVE_DEFAULTS[i].challengeType == "password"
    ensures forall i :: 0 <= i < |NON_SENSITIVE_DEFAULTS| ==> NON_SENSITIVE_DEFAULTS[i].challengeType == "password"
  {
  }

  lemma SeedConfigHolds(key: string)
    ensures key in SeedConfig() <==> IsSeed(SENSITIVE_DEFAULTS, key) || IsSeed(NON_SENSITIVE_DEFAULTS, key)
    ensures key in SeedConfig() ==>
      && SeedConfig()[key].challengeType == "password"
      && (SeedConfig()[key].isSensitive <==> IsSeed(SENSITIVE_DEFAULTS, key))
      && (!SeedConfig()[key].isSensitive <==> IsSeed(NON_SENSITIVE_DEFAULTS, key))
  {
    hide Table, DistinctKeys, SeedRows, IsSeed;
    var rows := SeedRows(SENSITIVE_DEFAULTS, true) + SeedRows(NON_SENSITIVE_DEFAULTS, false);
    TableHolds(rows, key);
    RowSeeded(rows, key, Entry(true, "password"));
    RowSeeded(rows, key, Entry(false, "password"));
    if key in Table(rows) { RowSeeded(rows, key, Table(rows)[key]); }
    SeedsAreDistinct();
    DistinctIsUnique(rows);
    SameKey(rows, key);
  }

  lemma SameKey(rows: seq<Row<Entry>>, key: string)
    requires KeyUnique(multiset(rows))
    ensures forall e, f :: Row(key, e) in multiset(rows) && Row(key, f) in multiset(rows) ==> e == f
  {
    forall e, f | Row(key, e) in multiset(rows) && Row(key, f) in multiset(rows) ensures e == f {
      SameKeySameRow(multiset(rows), Row(key, e), Row(key, f));
    }
  }

  /** Only sensitive seeds are wildcards. */
  lemma PlainSeeds(p: string)
    ensures !IsSeed(NON_SENSITIVE_DEFAULTS, p + ".*")
  {
    assert (p + ".*")[|p| + 1] == '*';
  }

  lemma GrantsWildcard(p: string, key: string)
    ensures Grants(p + ".*", key) <==> p + ".*" == key || p + "." <= key
  {
    assert (p + ".*")[|p|..] == ".*" && (p + ".*")[..|p| + 1] == p + ".";
  }

  /**
   After any accepted load a key needs a confirmation exactly when a sensitive seed is the key itself or a wildcard for
   it, and the key is not one of the two seeds that are not sensitive; and the confirmation is always the password.
   */
  lemma SeedAnswers(setup: string, found: Tables, digest: string -> string, key: string)
    requires CollisionFree(digest) && Keyed(found)
    requires Verdict(found, Some(digest(Canonical(Seeded(SENSITIVE_DEFAULTS, NON_SENSITIVE_DEFAULTS, setup)))), digest)
      == None
    ensures Sensitive(Table(found.functions), key) <==>
      && !IsSeed(NON_SENSITIVE_DEFAULTS, key)
      && exists i :: 0 <= i < |SENSITIVE_DEFAULTS| && Grants(SENSITIVE_DEFAULTS[i].key, key)
    ensures ChallengeType(Table(found.functions), key) == "password"
  {
    hide Canonical, Sensitive, ChallengeType, Verdict, Keyed, CollisionFree, Table;
    AnswersAsSeeded(setup, found, digest, key);
    SeedConfigAnswers(key);
  }

  lemma SeedConfigAnswers(key: string)
    ensures Sensitive(SeedConfig(), key) <==>
      && !IsSeed(NON_SENSITIVE_DEFAULTS, key)
      && exists i :: 0 <= i < |SENSITIVE_DEFAULTS| && Grants(SENSITIVE_DEFAULTS[i].key, key)
    ensures ChallengeType(SeedConfig(), key) == "password"
  {
    hide SeedConfig, Sensitive, ChallengeType, Grants;
    var config := SeedConfig();
    SeedConfigHolds(key);
    ResolvedSensitive(config, key);
    LongestMatchIsOne(config, key);
    if key in config {
      if i :| 0 <= i < |SENSITIVE_DEFAULTS| && SENSITIVE_DEFAULTS[i].key == key { GrantsItself(key); }
    } else if p :| LongestMatch(config, key, p) {
      SeedConfigHolds(p + ".*");
      PlainSeeds(p);
      GrantsWildcard(p, key);
      var i :| 0 <= i < |SENSITIVE_DEFAULTS| && SENSITIVE_DEFAULTS[i].key == p + ".*";
    } else {
      forall i | 0 <= i < |SENSITIVE_DEFAULTS| ensures !Grants(SENSITIVE_DEFAULTS[i].key, key) {
        NoMatchNoGrant(config, SENSITIVE_DEFAULTS[i].key, key);
      }
    }
  }

  lemma GrantsItself(key: string)
    ensures Grants(key, key)
  {
  }

  lemma NoMatchNoGrant(config: Config, seed: string, key: string)
    requires key !in config && config == SeedConfig() && IsSeed(SENSITIVE_DEFAULTS, seed)
    requires forall p :: !Matches(config, key, p)
    ensures !Grants(seed, key)
  {
    hide SeedConfig;
    SeedConfigHolds(seed);
    SeedConfigHolds(key);
    if |seed| >= 2 && seed[|seed| - 2..] == ".*" {
      var p := seed[..|seed| - 2];
      assert p + ".*" == seed && p + "." == seed[..|seed| - 1];
      assert !Matches(config, key, p);
    }
  }

  /** So every sensitive seed is, the two others are not, and any change of a sharing policy is. */
  lemma SeedsAnswerThemselves(setup: string, found: Tables, digest: string -> string, rest: string)
    requires CollisionFree(digest) && Keyed(found)
    requires Verdict(found, Some(digest(Canonical(Seeded(SENSITIVE_DEFAULTS, NON_SENSITIVE_DEFAULTS, setup)))), digest)
      == None
    ensures forall i :: 0 <= i < |SENSITIVE_DEFAULTS| ==> Sensitive(Table(found.functions), SENSITIVE_DEFAULTS[i].key)
    ensures !Sensitive(Table(found.functions), "admin.invite.create")
    ensures !Sensitive(Table(found.functions), "team.key.rotate")
    ensures Sensitive(Table(found.functions), "policy.sharing." + rest)
  {
    hide Canonical, Sensitive, Verdict, Keyed, CollisionFree, Table, IsSeed;
    forall i | 0 <= i < |SENSITIVE_DEFAULTS| ensures Sensitive(Table(found.functions), SENSITIVE_DEFAULTS[i].key) {
      var key := SENSITIVE_DEFAULTS[i].key;
      SeedAnswers(setup, found, digest, key);
      GrantsItself(key);
      SeedIs(SENSITIVE_DEFAULTS, i);
      SeedConfigHolds(key);
    }
    SeedIs(NON_SENSITIVE_DEFAULTS, 0);
    SeedIs(NON_SENSITIVE_DEFAULTS, 1);
    SeedAnswers(setup, found, digest, "admin.invite.create");
    SeedAnswers(setup, found, digest, "team.key.rotate");
    var key := "policy.sharing." + rest;
    assert key[0] == 'p';
    SharingIsPlain(key);
    SeedAnswers(setup, found, digest, key);
    GrantsWildcard("policy.sharing", key);
    assert SENSITIVE_DEFAULTS[4].key == "policy.sharing" + ".*" && "policy.sharing" + "." == "policy.sharing.";
  }

  lemma SeedIs(seeds: seq<Seed>, i: nat)
    requires i < |seeds|
    ensures IsSeed(seeds, seeds[i].key)
  {
  }

  lemma SharingIsPlain(key: string)
    requires key != "" && key[0] == 'p'
    ensures !IsSeed(NON_SENSITIVE_DEFAULTS, key)
  {
  }

  lemma OneValue(setup: string)
    ensures Table([Row(OPAQUE_SERVER_SETUP_KEY, setup)]) == map[OPAQUE_SERVER_SETUP_KEY := setup]
  {
    var rows := [Row(OPAQUE_SERVER_SETUP_KEY, setup)];
    assert rows[..|rows| - 1] == [];
  }
}
