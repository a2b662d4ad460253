/** The two settings stores: a map of values in memory, and a table of raw texts in Postgres. */
module Settings {
  import opened Options
  import Strings
  import opened SettingValues

  type Key = string

  // ----- keys -----

  function OrMissing(part: string): string { if part == "" then "MISSING" else part }

  function NewKey(context: string, group: string, setting: string): Key {
    Strings.Join([OrMissing(context), OrMissing(group), OrMissing(setting)], ".")
  }

  function Parts(key: Key): seq<string> { Strings.Split(key, ".") }

  /** The key that the Postgres store makes of a row's key, which must have three parts or more. */
  function ReadKey(key: Key): Key {
    if |Parts(key)| < 3 then "" else NewKey(Parts(key)[0], Parts(key)[1], Parts(key)[2])
  }

  predicate PlainKey(key: Key) {
    |Parts(key)| == 3 && Parts(key)[0] != "" && Parts(key)[1] != "" && Parts(key)[2] != ""
  }

  lemma NoDot(s: string)
    requires forall i :: 0 <= i < |s| ==> s[i] != '.'
    ensures !Strings.Contains(s, ".")
  {
    Strings.ContainsIffOccurs(s, ".");
    forall i ensures !Strings.OccursAt(s, ".", i) {
      if 0 <= i < |s| { assert s[i..i + 1][0] == s[i]; }
    }
  }

  lemma OrMissingHasNoDot(part: string)
    requires !Strings.Contains(part, ".")
    ensures !Strings.Contains(OrMissing(part), ".") && OrMissing(part) != ""
  {
    if part == "" { NoDot("MISSING"); }
  }

  lemma PartsOfNewKey(context: string, group: string, setting: string)
    requires !Strings.Contains(context, ".") && !Strings.Contains(group, ".") && !Strings.Contains(setting, ".")
    ensures Parts(NewKey(context, group, setting)) == [OrMissing(context), OrMissing(group), OrMissing(setting)]
    ensures OrMissing("") == "MISSING" && (context != "" ==> Parts(NewKey(context, group, setting))[0] == context)
    ensures PlainKey(NewKey(context, group, setting))
  {
    OrMissingHasNoDot(context);
    OrMissingHasNoDot(group);
    OrMissingHasNoDot(setting);
    Strings.SplitOfJoin([OrMissing(context), OrMissing(group), OrMissing(setting)], ".");
  }

  /** A key is found again under its own name exactly if it has three parts and none is empty. */
  lemma KeySurvivesIff(key: Key)
    requires |Parts(key)| >= 3
    ensures ReadKey(key) == key <==> PlainKey(key)
  {
    var p := Parts(key);
    Strings.SplitPartsAreFree(key, ".");
    PartsOfNewKey(p[0], p[1], p[2]);
    if PlainKey(key) {
      Strings.JoinOfSplit(key, ".");
      assert p == [p[0], p[1], p[2]];
    }
  }

  // ----- values -----

  const SEPARATOR := "|:|"

  /** What a caller may save. A time comes with its serialisation, a composite with its JSON. */
  datatype Input =
    | Nothing
    | Text(text: string)
    | Integer(n: int, width: Width)
    | Boolean(b: bool)
    | Time(serialised: string)
    | Composite(json: string)
    | Ready(value: Value)

  /** A text that is a time is kept as the time's serialisation; `parse` stands for the library's time parser. */
  function NewValue(x: Input, parse: string -> Option<string>): Value
  {
    match x
    case Nothing => Value("", OfString)
    case Text(s) => (match parse(s) case Some(t) => Value(t, OfTime) case None => Value(s, OfString))
    case Integer(n, w) => Value(FormatInt(n), OfInt(w))
    case Boolean(b) => NewBool(b)
    case Time(t) => Value(t, OfTime)
    case Composite(json) => Value(json, OfJson)
    case Ready(v) => v
  }

  ghost predicate LooksLikeTime(s: string) {
    |s| > 10 && IsDigit(s[0]) && s[4] == '-' && s[10] == 'T' && !Strings.Contains(s, SEPARATOR)
  }

  /** What is used of the time parser: it takes only what looks like a time, and serialises it with the separator. */
  ghost predicate TimeParser(parse: string -> Option<string>) {
    && (forall s :: parse(s).Some? ==> LooksLikeTime(s))
    && (forall s :: parse(s).Some? ==> Strings.Contains(parse(s).value, SEPARATOR))
  }

  /** Reading the raw text back gives the same raw text. */
  ghost predicate Stable(raw: string, parse: string -> Option<string>) {
    NewValue(Text(raw), parse).raw == raw
  }

  /** What a caller can save: no JSON looks like a time, as it begins with a digit only if it is a number. */
  ghost predicate Proper(x: Input, parse: string -> Option<string>) {
    match x
    case Nothing | Text(_) | Boolean(_) => true
    case Integer(n, w) => Fits(n, w)
    case Time(t) => Strings.Contains(t, SEPARATOR)
    case Composite(json) => !LooksLikeTime(json)
    case Ready(v) => Stable(v.raw, parse)
  }

  lemma NumbersAreNoTimes(n: int)
    ensures !LooksLikeTime(FormatInt(n))
  {
    var s := FormatInt(n);
    if |s| > 4 { assert if n < 0 then s[4] == FormatUint(-n)[3] else s[4] == FormatUint(n)[4]; }
  }

  lemma RawSurvives(x: Input, parse: string -> Option<string>)
    requires TimeParser(parse) && Proper(x, parse)
    ensures Stable(NewValue(x, parse).raw, parse)
  {
    if x.Integer? { NumbersAreNoTimes(x.n); }
    var raw := NewValue(x, parse).raw;
    assert x.Ready? || parse(raw).None? || !LooksLikeTime(raw);
  }

  /**
   What was saved is what is read, from memory and, made again of its raw text, from the database: a number at every
   width it fits, a boolean, and a text that is no time as it is.
   */
  lemma SavedValueReadsBack(x: Input, parse: string -> Option<string>, to: Width)
    requires TimeParser(parse) && Proper(x, parse)
    ensures var saved := NewValue(x, parse);
            var loaded := NewValue(Text(saved.raw), parse);
            && loaded.raw == saved.raw && Read(loaded, to) == Read(saved, to) && ReadBool(loaded) == ReadBool(saved)
            && (x.Integer? ==> Read(saved, to) == if Fits(x.n, to) then Some(x.n) else None)
            && (x.Boolean? ==> ReadBool(saved) == Some(x.b) && Read(saved, to) == Some(if x.b then 1 else 0))
            && (x.Text? && parse(x.text).None? ==> saved.raw == x.text)
            && (x.Text? && parse(x.text).Some? ==> saved.raw == parse(x.text).value)
            && (x.Time? ==> saved.raw == x.serialised) && (x.Composite? ==> saved.raw == x.json)
            && (x.Nothing? ==> saved.raw == "" && ReadBool(saved) == Some(false)) && (x.Ready? ==> saved == x.value)
  {
    RawSurvives(x, parse);
    if x.Integer? {
      ReadReturnsIffFits(x.n, x.width, to);
      assert Read(NewInt(x.n, x.width), to) == Read(NewValue(x, parse), to);
    }
    if x.Boolean? { BoolsReadBack(x.b, to); }
  }

  // ----- the stores -----

  datatype Op =
    | Register(settings: map<Key, Input>)
    | Save(key: Key, x: Input)
    | Get(key: Key)
    | GetAll(keys: seq<Key>)
    | Delete(key: Key)

  /** What the caller sees; values by their raw text. */
  datatype Response = Done | Failed | One(raw: string) | NotFound | Many(found: map<Key, string>, complete: bool)

  type Data = map<Key, Value>
  type Table = map<Key, string>

  ghost predicate PlainOp(op: Op) { op.GetAll? ==> forall k :: k in op.keys ==> PlainKey(k) }

  ghost predicate ProperOp(op: Op, parse: string -> Option<string>) {
    && PlainOp(op)
    && (op.Register? ==> forall k :: k in op.settings ==> Proper(op.settings[k], parse))
    && (op.Save? ==> Proper(op.x, parse))
  }

  function Raws(data: Data): Table { map k | k in data :: data[k].raw }

  ghost function MemoryStep(data: Data, op: Op, parse: string -> Option<string>): (Data, Response) {
    match op
    case Register(settings) => ((map k | k in settings :: NewValue(settings[k], parse)) + data, Done)
    case Save(k, x) => (data[k := NewValue(x, parse)], Done)
    case Get(k) => (data, if k in data then One(data[k].raw) else NotFound)
    case GetAll(keys) =>
      (data, Many(map k | k in keys && k in data :: data[k].raw, forall k :: k in keys ==> k in data))
    case Delete(k) => (data - {k}, Done)
  }

  ghost function PostgresStep(table: Table, op: Op, parse: string -> Option<string>): (Table, Response)
    requires PlainOp(op)
  {
    match op
    case Register(settings) =>
      if settings == map[] then (table, Failed)
      else ((map k | k in settings :: NewValue(settings[k], parse).raw) + table, Done)
    case Save(k, x) => (table[k := NewValue(x, parse).raw], Done)
    case Get(k) => (table, if k in table then One(NewValue(Text(table[k]), parse).raw) else NotFound)
    case GetAll(keys) =>
      var found := map k | k in keys && k in table :: NewValue(Text(table[k]), parse).raw;
      (table, Many(found, |keys| == |found|))
    case Delete(k) => (table - {k}, Done)
  }

  // ----- equivalence of the stores -----

  /** Both stores hold the same raw texts, and all of them are stable. */
  ghost predicate Related(data: Data, table: Table, parse: string -> Option<string>) {
    table == Raws(data) && forall k :: k in table ==> Stable(table[k], parse)
  }

  ghost predicate NoRepeats(keys: seq<Key>) { forall i, j :: 0 <= i < j < |keys| ==> keys[i] != keys[j] }

  /** Where the answers are the same: nothing registered, and repeated keys that all exist, are told apart. */
  ghost predicate Agreeable(data: Data, op: Op) {
    match op
    case Register(settings) => settings != map[]
    case GetAll(keys) => NoRepeats(keys) || exists k :: k in keys && k !in data
    case _ => true
  }

  lemma {:induction false} KeyCount(keys: seq<Key>)
    ensures |set k | k in keys| <= |keys|
    ensures |set k | k in keys| == |keys| <==> NoRepeats(keys)
  {
    if keys == [] {
      assert (set k | k in keys) == {};
    } else {
      var rest := keys[1..];
      KeyCount(rest);
      assert (set k | k in keys) == (set k | k in rest) + {keys[0]};
      assert keys[0] in rest ==> !NoRepeats(keys) by {
        if keys[0] in rest {
          var j :| 0 <= j < |rest| && rest[j] == keys[0];
          assert keys[j + 1] == keys[0];
        }
      }
      assert NoRepeats(keys) <==> NoRepeats(rest) && keys[0] !in rest by {
        assert forall i :: 0 <= i < |rest| ==> rest[i] == keys[i + 1];
      }
    }
  }

  /** The number of keys equals the number of settings exactly if all are found and none is listed twice. */
  lemma CompleteByCountIff(keys: seq<Key>, found: map<Key, string>, data: Data)
    requires found.Keys == set k | k in keys && k in data
    ensures |keys| == |found| <==> NoRepeats(keys) && forall k :: k in keys ==> k in data
  {
    KeyCount(keys);
    var all := set k | k in keys;
    assert found.Keys <= all;
    assert found.Keys != all ==> |found.Keys| < |all| by { Smaller(found.Keys, all); }
    assert found.Keys == all <==> forall k :: k in keys ==> k in data by {
      if k :| k in keys && k !in data { assert k in all; }
    }
  }

  lemma Smaller(a: set<Key>, b: set<Key>)
    requires a <= b
    ensures a != b ==> |a| < |b|
  {
    assert b == a + (b - a);
  }

  lemma RawsOfMerge(a: Data, b: Data)
    ensures Raws(a + b) == Raws(a) + Raws(b)
  {
  }

  lemma RegisterAgrees(data: Data, table: Table, op: Op, parse: string -> Option<string>)
    requires TimeParser(parse) && op.Register? && ProperOp(op, parse) && Related(data, table, parse)
    ensures Related(MemoryStep(data, op, parse).0, PostgresStep(table, op, parse).0, parse)
  {
    var new_ := map k | k in op.settings :: NewValue(op.settings[k], parse);
    RawsOfMerge(new_, data);
    forall k | k in Raws(new_) ensures Stable(Raws(new_)[k], parse) { RawSurvives(op.settings[k], parse); }
    if op.settings == map[] {
      assert new_ + data == data;
    } else {
      assert (map k | k in op.settings :: NewValue(op.settings[k], parse).raw) == Raws(new_);
    }
  }

  lemma FoundAgrees(data: Data, table: Table, keys: seq<Key>, parse: string -> Option<string>)
    requires Related(data, table, parse)
    ensures (map k | k in keys && k in table :: NewValue(Text(table[k]), parse).raw)
         == (map k | k in keys && k in data :: data[k].raw)
  {
    forall k | k in keys && k in data ensures NewValue(Text(table[k]), parse).raw == data[k].raw {
      assert Stable(table[k], parse);
    }
  }

  lemma GetAllAgrees(data: Data, table: Table, op: Op, parse: string -> Option<string>)
    requires op.GetAll? && ProperOp(op, parse) && Related(data, table, parse)
    ensures MemoryStep(data, op, parse).1 == PostgresStep(table, op, parse).1 <==> Agreeable(data, op)
  {
    FoundAgrees(data, table, op.keys, parse);
    var found := map k | k in op.keys && k in data :: data[k].raw;
    CompleteByCountIff(op.keys, found, data);
  }

  /** One operation on related stores: they stay related, and the answers differ exactly where they are not agreeable. */
  lemma StepsAgree(data: Data, table: Table, op: Op, parse: string -> Option<string>)
    requires TimeParser(parse) && ProperOp(op, parse) && Related(data, table, parse)
    ensures Related(MemoryStep(data, op, parse).0, PostgresStep(table, op, parse).0, parse)
    ensures MemoryStep(data, op, parse).1 == PostgresStep(table, op, parse).1 <==> Agreeable(data, op)
  {
    match op
    case Register(_) => RegisterAgrees(data, table, op, parse);
    case Save(_, x) => RawSurvives(x, parse);
    case GetAll(_) => GetAllAgrees(data, table, op, parse);
    case Get(_) =>
    case Delete(_) =>
  }

  ghost function MemoryRun(data: Data, ops: seq<Op>, parse: string -> Option<string>): (r: (Data, seq<Response>))
    ensures |r.1| == |ops|
    decreases |ops|
  {
    if ops == [] then (data, [])
    else
      var (d, answer) := MemoryStep(data, ops[0], parse);
      var (end, answers) := MemoryRun(d, ops[1..], parse);
      (end, [answer] + answers)
  }

  ghost function PostgresRun(table: Table, ops: seq<Op>, parse: string -> Option<string>): (r: (Table, seq<Response>))
    requires forall op :: op in ops ==> PlainOp(op)
    ensures |r.1| == |ops|
    decreases |ops|
  {
    if ops == [] then (table, [])
    else
      var (t, answer) := PostgresStep(table, ops[0], parse);
      var (end, answers) := PostgresRun(t, ops[1..], parse);
      (end, [answer] + answers)
  }

  /** Every operation of a run is agreeable when it comes to it. */
  ghost predicate AgreeableRun(data: Data, ops: seq<Op>, parse: string -> Option<string>)
    decreases |ops|
  {
    ops == [] || (Agreeable(data, ops[0]) && AgreeableRun(MemoryStep(data, ops[0], parse).0, ops[1..], parse))
  }

  /** The stores cannot be told apart by a run exactly if every operation of it is agreeable. */
  lemma {:induction false} StoresAreEquivalent(data: Data, table: Table, ops: seq<Op>, parse: string -> Option<string>)
    requires TimeParser(parse) && Related(data, table, parse)
    requires forall op :: op in ops ==> PlainOp(op) && ProperOp(op, parse)
    ensures Related(MemoryRun(data, ops, parse).0, PostgresRun(table, ops, parse).0, parse)
    ensures MemoryRun(data, ops, parse).1 == PostgresRun(table, ops, parse).1 <==> AgreeableRun(data, ops, parse)
    decreases |ops|
  {
    if ops == [] {
    } else {
      StepsAgree(data, table, ops[0], parse);
      var (d, a) := MemoryStep(data, ops[0], parse);
      var (t, b) := PostgresStep(table, ops[0], parse);
      StoresAreEquivalent(d, t, ops[1..], parse);
      var as_, bs := MemoryRun(d, ops[1..], parse).1, PostgresRun(t, ops[1..], parse).1;
      assert ([a] + as_)[0] == a && ([a] + as_)[1..] == as_;
      assert ([b] + bs)[0] == b && ([b] + bs)[1..] == bs;
    }
  }

  lemma EmptyStoresAreRelated(parse: string -> Option<string>)
    ensures Related(map[], map[], parse)
  {
  }

  // ----- the stores themselves -----

  class InMemorySettings {
    var data: Data
    const parse: string -> Option<string>

    constructor (parse: string -> Option<string>)
      ensures data == map[] && this.parse == parse
    {
      data, this.parse := map[], parse;
    }

    method Register(settings: map<Key, Input>)
      modifies this`data
      ensures data == MemoryStep(old(data), Op.Register(settings), parse).0
    {
      var left := settings.Keys;
      while left != {}
        invariant left <= settings.Keys
        invariant data == (map k | k in settings && k !in left :: NewValue(settings[k], parse)) + old(data)
      {
        var key :| key in left;
        if key !in data { Save(key, settings[key]); }
        left := left - {key};
      }
    }

    method Save(key: Key, x: Input)
      modifies this`data
      ensures data == MemoryStep(old(data), Op.Save(key, x), parse).0
    {
      data := data[key := NewValue(x, parse)];
    }

    method Setting(key: Key) returns (r: Option<Value>)
      ensures MemoryStep(data, Get(key), parse).1 == match r case Some(v) => One(v.raw) case None => NotFound
      ensures r.Some? ==> key in data && r.value == data[key]
    {
      if key !in data { return None; }
      r := Some(data[key]);
    }

    method Settings(keys: seq<Key>) returns (settings: map<Key, Value>, notFound: bool)
      ensures MemoryStep(data, GetAll(keys), parse).1 == Many(Raws(settings), !notFound)
      ensures settings == map k | k in keys && k in data :: data[k]
    {
      settings, notFound := map[], false;
      for i := 0 to |keys|
        invariant settings == map k | k in keys[..i] && k in data :: data[k]
        invariant notFound <==> exists k :: k in keys[..i] && k !in data
      {
        assert keys[..i + 1] == keys[..i] + [keys[i]];
        if keys[i] !in data {
          notFound := true;
          continue;
        }
        settings := settings[keys[i] := data[keys[i]]];
      }
      assert keys[..|keys|] == keys;
    }

    method Delete(key: Key)
      modifies this`data
      ensures data == MemoryStep(old(data), Op.Delete(key), parse).0
    {
      data := data - {key};
    }
  }

  /** The rows that a SELECT returns, in any order. */
  datatype Row = Row(key: Key, value: string)

  /** The rows, each filed under what `read` makes of its key. */
  function Filed(rows: seq<Row>, read: Key -> Key, parse: string -> Option<string>): map<Key, Value> {
    if rows == [] then map[]
    else
      var last := rows[|rows| - 1];
      Filed(rows[..|rows| - 1], read, parse)[read(last.key) := NewValue(Text(last.value), parse)]
  }

  /** Rows that keep their keys are found under them. */
  lemma {:induction false} FiledPlain(rows: seq<Row>, read: Key -> Key, table: Table, parse: string -> Option<string>)
    requires forall r :: r in rows ==> read(r.key) == r.key && r.key in table && r.value == table[r.key]
    ensures Filed(rows, read, parse).Keys == set r | r in rows :: r.key
    ensures forall r :: r in rows ==> Filed(rows, read, parse)[r.key].raw == NewValue(Text(table[r.key]), parse).raw
  {
    if rows == [] {
    } else {
      var n := |rows| - 1;
      FiledPlain(rows[..n], read, table, parse);
      assert rows == rows[..n] + [rows[n]];
    }
  }

  lemma FiledIsFound(rows: seq<Row>, read: Key -> Key, table: Table, keys: seq<Key>, parse: string -> Option<string>)
    requires forall k :: k in keys ==> PlainKey(k)
    requires forall r :: r in rows <==> r.key in keys && r.key in table && r.value == table[r.key]
    requires forall r :: r in rows ==> read(r.key) == r.key
    ensures var settings := Filed(rows, read, parse);
            PostgresStep(table, GetAll(keys), parse).1 == Many(Raws(settings), |keys| == |settings|)
  {
    FiledPlain(rows, read, table, parse);
    var settings := Filed(rows, read, parse);
    var found := PostgresStep(table, GetAll(keys), parse).1.found;
    forall k | k in keys && k in table ensures k in settings && settings[k].raw == found[k] {
      assert Row(k, table[k]) in rows;
    }
    assert Raws(settings) == found;
    assert settings.Keys == Raws(settings).Keys;
  }

  class PostgresSettings {
    var table: Table
    const parse: string -> Option<string>

    constructor (parse: string -> Option<string>)
      ensures table == map[] && this.parse == parse
    {
      table, this.parse := map[], parse;
    }

    /** INSERT of all values, ON CONFLICT (key) DO NOTHING; there is no statement without values. */
    method Register(settings: map<Key, Input>) returns (ok: bool)
      modifies this`table
      ensures (table, if ok then Done else Failed) == PostgresStep(old(table), Op.Register(settings), parse)
    {
      var values := map[];
      var left := settings.Keys;
      while left != {}
        invariant left <= settings.Keys
        invariant values == map k | k in settings && k !in left :: NewValue(settings[k], parse).raw
      {
        var key :| key in left;
        values := values[key := NewValue(settings[key], parse).raw];
        left := left - {key};
      }
      if values == map[] {
        assert settings == map[] by { if k :| k in settings { assert k in values; } }
        return false;
      }
      assert values == map k | k in settings :: NewValue(settings[k], parse).raw;
      table := values + table;
      ok := true;
    }

    method Save(key: Key, x: Input)
      modifies this`table
      ensures table == PostgresStep(old(table), Op.Save(key, x), parse).0
    {
      table := table[key := NewValue(x, parse).raw];
    }

    method Setting(key: Key) returns (r: Option<Value>)
      ensures PostgresStep(table, Get(key), parse).1 == match r case Some(v) => One(v.raw) case None => NotFound
    {
      if key !in table { return None; }
      r := Some(NewValue(Text(table[key]), parse));
    }

    /** SELECT of the rows whose key is one of `keys`. */
    method GetSettings(keys: seq<Key>) returns (rows: seq<Row>)
      ensures forall r :: r in rows <==> r.key in keys && r.key in table && r.value == table[r.key]
    {
      rows := [];
      var left := table.Keys;
      while left != {}
        invariant left <= table.Keys
        invariant forall r :: r in rows <==> r.key in keys && r.key in table.Keys - left && r.value == table[r.key]
      {
        var key :| key in left;
        if key in keys { rows := rows + [Row(key, table[key])]; }
        left := left - {key};
      }
    }

    /** The found settings are filed under the keys made of their rows' keys; three parts are taken for granted. */
    method Settings(keys: seq<Key>) returns (settings: map<Key, Value>, notFound: bool, ghost rows: seq<Row>)
      requires forall k :: k in keys && k in table ==> |Parts(k)| >= 3
      ensures forall r :: r in rows <==> r.key in keys && r.key in table && r.value == table[r.key]
      ensures settings == Filed(rows, ReadKey, parse) && (notFound <==> |keys| != |settings|)
      ensures PlainOp(GetAll(keys)) ==> PostgresStep(table, GetAll(keys), parse).1 == Many(Raws(settings), !notFound)
    {
      var dbSettings := GetSettings(keys);
      rows := dbSettings;
      settings := map[];
      for i := 0 to |dbSettings|
        invariant settings == Filed(rows[..i], ReadKey, parse)
      {
        assert rows[..i + 1][..i] == rows[..i];
        var k := Parts(dbSettings[i].key);
        settings := settings[NewKey(k[0], k[1], k[2]) := NewValue(Text(dbSettings[i].value), parse)];
      }
      notFound := |keys| != |settings|;
      assert rows[..|rows|] == rows;
      if PlainOp(GetAll(keys)) {
        forall r | r in rows ensures ReadKey(r.key) == r.key { KeySurvivesIff(r.key); }
        FiledIsFound(rows, ReadKey, table, keys, parse);
      }
    }

    method Delete(key: Key)
      modifies this`table
      ensures table == PostgresStep(old(table), Op.Delete(key), parse).0
    {
      table := table - {key};
    }
  }
}
