/**
 * How the Postgres repository turns an entity into columns and values: columnsAndValues walks the struct
 * by reflection, once over the zero value for the column names and once over each entity for its values.
 */
module ColumnFlattening {
  import Strings

  /** A Go type as reflection shows it; a scalar is everything that is stored as a single column. */
  datatype Type = Scalar | Struct(fields: seq<Field>) | Pointer(to: Type)

  /** `snake` is what the column mapper makes of the field's name; `tag` is its db tag, or empty. */
  datatype Field = Field(snake: string, tag: string, exported: bool, anonymous: bool, typ: Type)

  datatype Value = Leaf(text: string) | Record(values: seq<Value>) | Nil | Ref(to: Value)

  datatype ColVal = ColVal(name: string, value: Value)

  ghost predicate HasType(v: Value, t: Type) {
    match t
    case Scalar => v.Leaf?
    case Pointer(to) => v.Nil? || (v.Ref? && HasType(v.to, to))
    case Struct(fields) =>
      v.Record? && |v.values| == |fields| && forall i :: 0 <= i < |fields| ==> HasType(v.values[i], fields[i].typ)
  }

  function Column(f: Field): string { if f.tag != "" then f.tag else f.snake }

  function JoinPrefix(prefix: string, col: string): string { if prefix == "" then col else prefix + "." + col }

  /** The prefix for the fields of a field that is a struct. */
  function InnerPrefix(f: Field, prefix: string): string {
    if f.anonymous && f.tag == "" then prefix else JoinPrefix(prefix, Column(f))
  }

  /** The fields of an embedded struct without a tag count as fields of the struct around it. */
  predicate Inlined(f: Field) { f.anonymous && f.tag == "" && f.typ.Struct? }

  // ----- what the walk returns -----

  function Flatten(t: Type, v: Value, prefix: string): seq<ColVal>
    requires v.Nil? || HasType(v, t)
    decreases t, 1, 0
  {
    match t
    case Scalar => []
    case Pointer(to) => if v.Nil? then [] else Flatten(to, v.to, prefix)
    case Struct(fields) => if v.Nil? then [] else FlattenFields(t, v, prefix, |fields|)
  }

  function FlattenFields(t: Type, v: Value, prefix: string, n: nat): seq<ColVal>
    requires t.Struct? && HasType(v, t) && n <= |t.fields|
    decreases t, 0, n
  {
    if n == 0 then []
    else
      var f := t.fields[n - 1];
      FlattenFields(t, v, prefix, n - 1) + if f.exported then FlattenField(f, f.typ, v.values[n - 1], prefix) else []
  }

  /** `ft` and `fv` are the field's type and value, or what is left of them after following pointers. */
  function FlattenField(f: Field, ft: Type, fv: Value, prefix: string): seq<ColVal>
    requires fv.Nil? || HasType(fv, ft)
    decreases ft, 2, 0
  {
    match ft
    case Pointer(to) =>
      if fv.Nil? then [ColVal(Column(f), Nil)] + FlattenField(f, to, Nil, prefix)
      else FlattenField(f, to, fv.to, prefix)
    case Struct(_) =>
      Flatten(ft, fv, InnerPrefix(f, prefix))
    case Scalar => [ColVal(JoinPrefix(prefix, Column(f)), fv)]
  }

  method ColumnsAndValues(t: Type, v: Value, prefix: string) returns (result: seq<ColVal>)
    requires v.Nil? || HasType(v, t)
    ensures result == Flatten(t, v, prefix)
    decreases t
  {
    var st, sv := t, v;
    while st.Pointer?
      invariant sv.Nil? || HasType(sv, st)
      invariant st == t || st < t
      invariant Flatten(st, sv, prefix) == Flatten(t, v, prefix)
      decreases st
    {
      if sv.Nil? { return []; }
      st, sv := st.to, sv.to;
    }
    if !st.Struct? || sv.Nil? { return []; }

    result := [];
    for i := 0 to |st.fields|
      invariant result == FlattenFields(st, sv, prefix, i)
    {
      var f := st.fields[i];
      if !f.exported { continue; }
      var ft, fv := f.typ, sv.values[i];
      ghost var before := result;
      while ft.Pointer?
        invariant fv.Nil? || HasType(fv, ft)
        invariant ft == f.typ || ft < f.typ
        invariant result + FlattenField(f, ft, fv, prefix) == before + FlattenField(f, f.typ, sv.values[i], prefix)
        decreases ft
      {
        if fv.Nil? { result := result + [ColVal(Column(f), Nil)]; } else { fv := fv.to; }
        ft := ft.to;
      }
      if ft.Struct? {
        var sub := ColumnsAndValues(ft, fv, InnerPrefix(f, prefix));
        result := result + sub;
      } else {
        result := result + [ColVal(JoinPrefix(prefix, Column(f)), fv)];
      }
    }
  }

  // ----- types without pointers: every exported leaf is one column -----

  ghost predicate PointerFree(t: Type) {
    !t.Pointer? && (t.Struct? ==> forall f :: f in t.fields ==> PointerFree(f.typ))
  }

  /** Columns are never empty and hold no dot. */
  ghost predicate PlainColumns(t: Type) {
    t.Struct? ==> forall f :: f in t.fields ==> PlainColumn(f) && PlainColumns(f.typ)
  }

  ghost predicate PlainColumn(f: Field) { Column(f) != "" && !Strings.Contains(Column(f), ".") }

  /** A path of field numbers that leads to an exported leaf. */
  predicate IsPath(t: Type, path: seq<nat>)
    decreases path
  {
    if path == [] then t.Scalar?
    else t.Struct? && path[0] < |t.fields| && t.fields[path[0]].exported && IsPath(t.fields[path[0]].typ, path[1..])
  }

  function Prepend(i: nat, paths: seq<seq<nat>>): seq<seq<nat>> {
    seq(|paths|, k requires 0 <= k < |paths| => [i] + paths[k])
  }

  /** The paths to all exported leaves, in the order of the declaration. */
  function Paths(t: Type): (paths: seq<seq<nat>>)
    requires PointerFree(t)
    ensures forall k :: 0 <= k < |paths| ==> IsPath(t, paths[k])
    decreases t, 1, 0
  {
    if t.Scalar? then [[]] else PathsOf(t, |t.fields|)
  }

  function PathsOf(t: Type, n: nat): (paths: seq<seq<nat>>)
    requires PointerFree(t) && t.Struct? && n <= |t.fields|
    ensures forall k :: 0 <= k < |paths| ==> IsPath(t, paths[k]) && paths[k] != [] && paths[k][0] < n
    decreases t, 0, n
  {
    if n == 0 then []
    else
      var f := t.fields[n - 1];
      PathsOf(t, n - 1) + if f.exported then Prepend(n - 1, Paths(f.typ)) else []
  }

  /** What a field adds to the names of the leaves below it. */
  function Own(f: Field): seq<string> { if Inlined(f) then [] else [Column(f)] }

  /** The columns along a path, without those of inlined structs. */
  function Labels(t: Type, path: seq<nat>): seq<string>
    requires IsPath(t, path)
    decreases path
  {
    if path == [] then []
    else
      var f := t.fields[path[0]];
      Own(f) + Labels(f.typ, path[1..])
  }

  function ValueAt(t: Type, v: Value, path: seq<nat>): Value
    requires IsPath(t, path) && HasType(v, t)
    decreases path
  {
    if path == [] then v else ValueAt(t.fields[path[0]].typ, v.values[path[0]], path[1..])
  }

  /** The column of a leaf: its labels, joined by dots. */
  function NameOf(t: Type, path: seq<nat>, pre: seq<string>): string
    requires IsPath(t, path)
  {
    Strings.Join(pre + Labels(t, path), ".")
  }

  ghost predicate NonEmptyParts(parts: seq<string>) { forall k :: 0 <= k < |parts| ==> parts[k] != "" }

  lemma {:induction false} JoinWithPrefix(pre: seq<string>, col: string)
    requires NonEmptyParts(pre)
    ensures JoinPrefix(Strings.Join(pre, "."), col) == Strings.Join(pre + [col], ".")
    ensures pre != [] ==> Strings.Join(pre, ".") != ""
  {
    if |pre| == 1 {
      assert (pre + [col])[1..] == [col];
    } else if |pre| > 1 {
      JoinWithPrefix(pre[1..], col);
      assert (pre + [col])[1..] == pre[1..] + [col];
      assert pre[1..] != [];
    }
  }

  ghost predicate Describes(row: seq<ColVal>, t: Type, v: Value, paths: seq<seq<nat>>, pre: seq<string>)
    requires HasType(v, t) && forall k :: 0 <= k < |paths| ==> IsPath(t, paths[k])
  {
    |row| == |paths|
    && forall k :: 0 <= k < |row| ==> row[k] == ColVal(NameOf(t, paths[k], pre), ValueAt(t, v, paths[k]))
  }

  lemma {:induction false} BelowField(t: Type, v: Value, i: nat, path: seq<nat>, pre: seq<string>)
    requires IsPath(t, [i] + path) && HasType(v, t)
    ensures IsPath(t.fields[i].typ, path)
    ensures NameOf(t, [i] + path, pre) == NameOf(t.fields[i].typ, path, pre + Own(t.fields[i]))
    ensures ValueAt(t, v, [i] + path) == ValueAt(t.fields[i].typ, v.values[i], path)
  {
    var f, whole := t.fields[i], [i] + path;
    assert whole[0] == i && whole[1..] == path;
    assert pre + Labels(t, whole) == pre + Own(f) + Labels(f.typ, path) by {
      assert Labels(t, whole) == Own(f) + Labels(f.typ, path);
    }
  }

  lemma {:induction false} FieldIsPerLeaf(t: Type, v: Value, i: nat, pre: seq<string>)
    requires t.Struct? && PointerFree(t) && PlainColumns(t) && HasType(v, t) && NonEmptyParts(pre)
    requires i < |t.fields| && t.fields[i].exported
    ensures Describes(FlattenField(t.fields[i], t.fields[i].typ, v.values[i], Strings.Join(pre, ".")),
                      t, v, Prepend(i, Paths(t.fields[i].typ)), pre)
    decreases t, 0, 0
  {
    var f, paths := t.fields[i], Paths(t.fields[i].typ);
    assert f in t.fields;
    JoinWithPrefix(pre, Column(f));
    forall k | 0 <= k < |paths|
      ensures NameOf(t, [i] + paths[k], pre) == NameOf(f.typ, paths[k], pre + Own(f))
      ensures ValueAt(t, v, [i] + paths[k]) == ValueAt(f.typ, v.values[i], paths[k])
    {
      BelowField(t, v, i, paths[k], pre);
    }
    if f.typ.Struct? {
      assert pre + Own(f) == if Inlined(f) then pre else pre + [Column(f)];
      FieldsArePerLeaf(f.typ, v.values[i], pre + Own(f), |f.typ.fields|);
    } else {
      assert pre + Own(f) + [] == pre + [Column(f)];
    }
  }

  lemma {:induction false} FieldsArePerLeaf(t: Type, v: Value, pre: seq<string>, n: nat)
    requires t.Struct? && PointerFree(t) && PlainColumns(t) && HasType(v, t) && NonEmptyParts(pre) && n <= |t.fields|
    ensures Describes(FlattenFields(t, v, Strings.Join(pre, "."), n), t, v, PathsOf(t, n), pre)
    decreases t, 1, n
  {
    if n > 0 {
      FieldsArePerLeaf(t, v, pre, n - 1);
      if t.fields[n - 1].exported { FieldIsPerLeaf(t, v, n - 1, pre); }
    }
  }

  /** The walk lists the exported leaves in order, each with its own column and its own value. */
  lemma {:induction false} FlattenIsPerLeaf(t: Type, v: Value)
    requires t.Struct? && PointerFree(t) && PlainColumns(t) && HasType(v, t)
    ensures Describes(Flatten(t, v, ""), t, v, Paths(t), [])
  {
    FieldsArePerLeaf(t, v, [], |t.fields|);
  }

  function Names(row: seq<ColVal>): seq<string> { seq(|row|, k requires 0 <= k < |row| => row[k].name) }

  /** The names taken from any one value fit the values taken from any other. */
  lemma NamesAndValuesAreAligned(t: Type, zero: Value, entity: Value)
    requires t.Struct? && PointerFree(t) && PlainColumns(t) && HasType(zero, t) && HasType(entity, t)
    ensures Names(Flatten(t, zero, "")) == Names(Flatten(t, entity, ""))
  {
    FlattenIsPerLeaf(t, zero);
    FlattenIsPerLeaf(t, entity);
  }

  // ----- tags -----

  /** A column is called as its tag says, and only without one as the column mapper calls the field. */
  lemma ScalarColumn(f: Field, v: Value, prefix: string)
    requires v.Leaf?
    ensures var name := if f.tag == "" then f.snake else f.tag;
            FlattenField(f, Scalar, v, prefix) == [ColVal(if prefix == "" then name else prefix + "." + name, v)]
  {
  }

  /** An entity behind pointers is flattened like the entity itself, and nil gives nothing. */
  lemma FlattenFollowsPointers(t: Type, v: Value, prefix: string)
    requires HasType(v, t) && t.Pointer?
    ensures Flatten(t, v, prefix) == if v.Nil? then [] else Flatten(t.to, v.to, prefix)
  {
  }

  lemma {:induction false} RenamedFieldKeepsColumns(f: Field, other: string, ft: Type, fv: Value, prefix: string)
    requires f.tag != "" && (fv.Nil? || HasType(fv, ft))
    ensures FlattenField(f.(snake := other), ft, fv, prefix) == FlattenField(f, ft, fv, prefix)
    decreases ft
  {
    if ft.Pointer? { RenamedFieldKeepsColumns(f, other, ft.to, if fv.Nil? then Nil else fv.to, prefix); }
  }

  function Renamed(t: Type, i: nat, other: string): Type
    requires t.Struct? && i < |t.fields|
  {
    Struct(t.fields[i := t.fields[i].(snake := other)])
  }

  lemma {:induction false} RenamedKeepsFields(t: Type, i: nat, other: string, v: Value, prefix: string, n: nat)
    requires t.Struct? && i < |t.fields| && t.fields[i].tag != "" && n <= |t.fields|
    requires HasType(v, t) && HasType(v, Renamed(t, i, other))
    ensures FlattenFields(Renamed(t, i, other), v, prefix, n) == FlattenFields(t, v, prefix, n)
  {
    if n == 0 {
    } else {
      RenamedKeepsFields(t, i, other, v, prefix, n - 1);
      var f := t.fields[n - 1];
      if n - 1 == i { RenamedFieldKeepsColumns(f, other, f.typ, v.values[i], prefix); }
    }
  }

  /** Renaming a field that has a tag changes neither the columns nor the values of any entity. */
  lemma RenamingTaggedFieldKeepsRows(t: Type, i: nat, other: string, v: Value)
    requires t.Struct? && i < |t.fields| && t.fields[i].tag != "" && HasType(v, t)
    ensures HasType(v, Renamed(t, i, other)) && Flatten(Renamed(t, i, other), v, "") == Flatten(t, v, "")
  {
    var fields := Renamed(t, i, other).fields;
    assert forall k :: 0 <= k < |fields| ==> fields[k].typ == t.fields[k].typ;
    RenamedKeepsFields(t, i, other, v, "", |t.fields|);
  }

  // ----- when the names are distinct -----

  /** The names that the fields of a struct stand for, with those of inlined structs among them. */
  function Members(t: Type, n: nat): set<string>
    requires t.Struct? && n <= |t.fields|
    decreases t, n
  {
    if n == 0 then {}
    else
      var f := t.fields[n - 1];
      Members(t, n - 1) + if !f.exported then {} else if Inlined(f) then Members(f.typ, |f.typ.fields|) else {Column(f)}
  }

  function FieldMembers(f: Field): set<string> {
    if Inlined(f) then Members(f.typ, |f.typ.fields|) else {Column(f)}
  }

  /** No two exported fields of a struct stand for the same name, on every level. */
  ghost predicate SiblingsDistinct(t: Type) {
    t.Struct? ==>
      && (forall i, j :: 0 <= i < j < |t.fields| && t.fields[i].exported && t.fields[j].exported
                         ==> FieldMembers(t.fields[i]) !! FieldMembers(t.fields[j]))
      && forall f :: f in t.fields && f.exported ==> SiblingsDistinct(f.typ)
  }

  lemma {:induction false} FieldIsMember(t: Type, i: nat, n: nat)
    requires t.Struct? && i < n <= |t.fields| && t.fields[i].exported
    ensures FieldMembers(t.fields[i]) <= Members(t, n)
  {
    if i < n - 1 { FieldIsMember(t, i, n - 1); }
  }

  lemma {:induction false} FirstLabelIsMember(t: Type, path: seq<nat>)
    requires IsPath(t, path) && path != []
    ensures Labels(t, path) != [] && Labels(t, path)[0] in FieldMembers(t.fields[path[0]])
    decreases path
  {
    var f := t.fields[path[0]];
    if Inlined(f) {
      FirstLabelIsMember(f.typ, path[1..]);
      FieldIsMember(f.typ, path[1], |f.typ.fields|);
    }
  }

  lemma {:induction false} LabelsDiffer(t: Type, p: seq<nat>, q: seq<nat>)
    requires SiblingsDistinct(t) && IsPath(t, p) && IsPath(t, q) && p != q
    ensures Labels(t, p) != Labels(t, q)
    decreases p
  {
    if p[0] == q[0] {
      var f := t.fields[p[0]];
      assert f in t.fields;
      assert p == [p[0]] + p[1..] && q == [q[0]] + q[1..];
      LabelsDiffer(f.typ, p[1..], q[1..]);
      var a, b := Labels(f.typ, p[1..]), Labels(f.typ, q[1..]);
      assert (Own(f) + a)[|Own(f)|..] == a && (Own(f) + b)[|Own(f)|..] == b;
    } else {
      FirstLabelIsMember(t, p);
      FirstLabelIsMember(t, q);
    }
  }

  ghost predicate Distinct<T>(s: seq<T>) { forall a, b :: 0 <= a < b < |s| ==> s[a] != s[b] }

  lemma {:induction false} PathsAreDistinct(t: Type, n: nat)
    requires PointerFree(t) && t.Struct? && n <= |t.fields|
    ensures Distinct(PathsOf(t, n))
    decreases t, n
  {
    if n == 0 {
    } else {
      PathsAreDistinct(t, n - 1);
      var f := t.fields[n - 1];
      assert f in t.fields;
      if f.typ.Struct? { PathsAreDistinct(f.typ, |f.typ.fields|); }
      var own := Paths(f.typ);
      forall a, b | 0 <= a < b < |own| ensures [n - 1] + own[a] != [n - 1] + own[b] {
        assert ([n - 1] + own[a])[1..] == own[a] && ([n - 1] + own[b])[1..] == own[b];
      }
    }
  }

  lemma {:induction false} LabelsArePlain(t: Type, path: seq<nat>)
    requires PlainColumns(t) && IsPath(t, path)
    ensures Strings.NoneContains(Labels(t, path), ".") && NonEmptyParts(Labels(t, path))
    decreases path
  {
    if path == [] {
    } else {
      assert t.fields[path[0]] in t.fields;
      LabelsArePlain(t.fields[path[0]].typ, path[1..]);
    }
  }

  /** Two leaves share a column exactly if they share all their labels: the dots can be undone. */
  lemma SameNameIffSameLabels(t: Type, p: seq<nat>, q: seq<nat>)
    requires t.Struct? && PlainColumns(t) && IsPath(t, p) && IsPath(t, q)
    ensures NameOf(t, p, []) == NameOf(t, q, []) <==> Labels(t, p) == Labels(t, q)
  {
    LabelsArePlain(t, p);
    LabelsArePlain(t, q);
    FirstLabelIsMember(t, p);
    FirstLabelIsMember(t, q);
    var a, b := Labels(t, p), Labels(t, q);
    assert [] + a == a && [] + b == b;
    Strings.SplitOfJoin(a, ".");
    Strings.SplitOfJoin(b, ".");
  }

  lemma DistinctSiblingsGiveDistinctNames(t: Type, v: Value)
    requires t.Struct? && PointerFree(t) && PlainColumns(t) && SiblingsDistinct(t) && HasType(v, t)
    ensures Distinct(Names(Flatten(t, v, "")))
  {
    FlattenIsPerLeaf(t, v);
    PathsAreDistinct(t, |t.fields|);
    var paths := Paths(t);
    forall a, b | 0 <= a < b < |paths| ensures NameOf(t, paths[a], []) != NameOf(t, paths[b], []) {
      LabelsDiffer(t, paths[a], paths[b]);
      SameNameIffSameLabels(t, paths[a], paths[b]);
    }
  }

  // ----- writing and reading rows -----

  function Quoted(s: string): string { "\"" + Doubled(s) + "\"" }

  function Doubled(s: string): string {
    if s == "" then "" else (if s[0] == '"' then "\"\"" else [s[0]]) + Doubled(s[1..])
  }

  lemma {:induction false} DoubledIsInjective(a: string, b: string)
    requires Doubled(a) == Doubled(b)
    ensures a == b
  {
    if a != "" && b != "" {
      var k := if a[0] == '"' then 2 else 1;
      assert Doubled(a)[0] == a[0] && Doubled(b)[0] == b[0];
      assert Doubled(a)[k..] == Doubled(a[1..]) && Doubled(b)[k..] == Doubled(b[1..]);
      DoubledIsInjective(a[1..], b[1..]);
      assert a == [a[0]] + a[1..] && b == [b[0]] + b[1..];
    }
  }

  lemma QuotedIsInjective(a: string, b: string)
    ensures Quoted(a) == Quoted(b) <==> a == b
  {
    if Quoted(a) == Quoted(b) {
      assert Quoted(a)[1..|Quoted(a)| - 1] == Doubled(a) && Quoted(b)[1..|Quoted(b)| - 1] == Doubled(b);
      DoubledIsInjective(a, b);
    }
  }

  /** A type whose rows keep all its exported leaves apart. */
  ghost predicate Storable(t: Type) {
    t.Struct? && PointerFree(t) && PlainColumns(t) && SiblingsDistinct(t)
  }

  /** The row holds each exported leaf of the entity in the leaf's own column. */
  ghost predicate Holds(row: map<string, Value>, t: Type, entity: Value)
    requires Storable(t) && HasType(entity, t)
  {
    forall k :: 0 <= k < |Paths(t)| ==>
      var name := Quoted(NameOf(t, Paths(t)[k], []));
      name in row && row[name] == ValueAt(t, entity, Paths(t)[k])
  }

  method ColumnNames(t: Type, zero: Value) returns (names: seq<string>)
    requires zero.Nil? || HasType(zero, t)
    ensures |names| == |Flatten(t, zero, "")|
    ensures forall k :: 0 <= k < |names| ==> names[k] == Quoted(Flatten(t, zero, "")[k].name)
  {
    var cols := ColumnsAndValues(t, zero, "");
    names := [];
    for i := 0 to |cols|
      invariant |names| == i && forall k :: 0 <= k < i ==> names[k] == Quoted(cols[k].name)
    {
      names := names + [Quoted(cols[i].name)];
    }
  }

  lemma ColumnsAreDistinct(t: Type, zero: Value, names: seq<string>)
    requires Storable(t) && HasType(zero, t) && |names| == |Flatten(t, zero, "")|
    requires forall k :: 0 <= k < |names| ==> names[k] == Quoted(Flatten(t, zero, "")[k].name)
    ensures Distinct(names)
  {
    DistinctSiblingsGiveDistinctNames(t, zero);
    var row := Flatten(t, zero, "");
    forall a, b | 0 <= a < b < |names| ensures names[a] != names[b] {
      QuotedIsInjective(row[a].name, row[b].name);
      assert Names(row)[a] != Names(row)[b];
    }
  }

  ghost predicate KeepsOthers(row: map<string, Value>, stored: map<string, Value>, columns: seq<string>) {
    && (forall name :: name !in columns ==> (name in row <==> name in stored))
    && (forall name :: name !in columns && name in row ==> row[name] == stored[name])
  }

  /** One SET clause for every column, with the value at the same position. */
  method SetAll(columns: seq<string>, vals: seq<ColVal>, stored: map<string, Value>) returns (row: map<string, Value>)
    requires Distinct(columns) && |columns| <= |vals|
    ensures forall k :: 0 <= k < |columns| ==> columns[k] in row && row[columns[k]] == vals[k].value
    ensures KeepsOthers(row, stored, columns)
  {
    row := stored;
    for i := 0 to |columns|
      invariant forall k :: 0 <= k < i ==> columns[k] in row && row[columns[k]] == vals[k].value
      invariant KeepsOthers(row, stored, columns)
    {
      row := row[columns[i] := vals[i].value];
    }
  }

  /** The row after an update holds the entity; columns of the table that the entity does not have stay. */
  method Update(t: Type, zero: Value, entity: Value, stored: map<string, Value>)
    returns (row: map<string, Value>, ghost columns: seq<string>)
    requires Storable(t) && HasType(zero, t) && HasType(entity, t)
    ensures Holds(row, t, entity)
    ensures |columns| == |Paths(t)| && forall k :: 0 <= k < |columns| ==> columns[k] == Quoted(NameOf(t, Paths(t)[k], []))
    ensures KeepsOthers(row, stored, columns)
  {
    var names := ColumnNames(t, zero);
    columns := names;
    var vals := ColumnsAndValues(t, entity, "");
    ColumnsAreDistinct(t, zero, names);
    FlattenIsPerLeaf(t, zero);
    FlattenIsPerLeaf(t, entity);
    row := SetAll(names, vals, stored);
  }

  /** A row determines all exported leaves of the entity it was written from. */
  lemma RowDeterminesExportedLeaves(t: Type, a: Value, b: Value, row: map<string, Value>, path: seq<nat>)
    requires Storable(t) && HasType(a, t) && HasType(b, t) && Holds(row, t, a) && Holds(row, t, b) && IsPath(t, path)
    ensures ValueAt(t, a, path) == ValueAt(t, b, path)
  {
    EveryLeafIsListed(t, path);
    var k :| 0 <= k < |Paths(t)| && Paths(t)[k] == path;
    assert row[Quoted(NameOf(t, Paths(t)[k], []))] == ValueAt(t, a, path);
  }

  lemma {:induction false} EveryLeafIsListed(t: Type, path: seq<nat>)
    requires PointerFree(t) && IsPath(t, path)
    ensures path in Paths(t)
    decreases path
  {
    if path == [] {
      assert Paths(t)[0] == [];
    } else {
      var f := t.fields[path[0]];
      assert f in t.fields;
      EveryLeafIsListed(f.typ, path[1..]);
      var k :| 0 <= k < |Paths(f.typ)| && Paths(f.typ)[k] == path[1..];
      assert Prepend(path[0], Paths(f.typ))[k] == path;
      ListedFrom(t, path, path[0] + 1, |t.fields|);
    }
  }

  lemma {:induction false} ListedFrom(t: Type, path: seq<nat>, i: nat, n: nat)
    requires PointerFree(t) && t.Struct? && i <= n <= |t.fields| && i > 0 && t.fields[i - 1].exported
    requires path in Prepend(i - 1, Paths(t.fields[i - 1].typ))
    ensures path in PathsOf(t, n)
    decreases n
  {
    if i < n { ListedFrom(t, path, i, n - 1); }
  }

  // ----- fields that are pointers -----

  /** Pointers lead to scalars, possibly through further pointers. */
  ghost predicate PointsToScalars(t: Type) {
    match t
    case Scalar => true
    case Pointer(to) => !to.Struct? && PointsToScalars(to)
    case Struct(fields) => forall f :: f in fields ==> PointsToScalars(f.typ)
  }

  /** The zero value: nil for every pointer. */
  function Zero(t: Type): (v: Value)
    ensures HasType(v, t)
  {
    match t
    case Scalar => Leaf("")
    case Pointer(_) => Nil
    case Struct(fields) => Record(seq(|fields|, i requires 0 <= i < |fields| => Zero(fields[i].typ)))
  }

  /** How many pointers in the exported fields are set. */
  function SetPointers(t: Type, v: Value): nat
    requires HasType(v, t)
    decreases t, 1, 0
  {
    match t
    case Scalar => 0
    case Pointer(to) => if v.Nil? then 0 else 1 + SetPointers(to, v.to)
    case Struct(fields) => SetPointersOf(t, v, |fields|)
  }

  function SetPointersOf(t: Type, v: Value, n: nat): nat
    requires t.Struct? && HasType(v, t) && n <= |t.fields|
    decreases t, 0, n
  {
    if n == 0 then 0
    else
      SetPointersOf(t, v, n - 1)
      + if t.fields[n - 1].exported then SetPointers(t.fields[n - 1].typ, v.values[n - 1]) else 0
  }

  function Depth(t: Type): nat { if t.Pointer? then 1 + Depth(t.to) else 0 }

  lemma {:induction false} NilField(f: Field, ft: Type, prefix: string)
    requires !ft.Struct? && PointsToScalars(ft)
    ensures |FlattenField(f, ft, Nil, prefix)| == Depth(ft) + 1
  {
    if ft.Pointer? { NilField(f, ft.to, prefix); }
  }

  lemma {:induction false} PointerField(f: Field, ft: Type, fv: Value, prefix: string)
    requires !ft.Struct? && PointsToScalars(ft) && HasType(fv, ft)
    ensures |FlattenField(f, ft, fv, prefix)| + SetPointers(ft, fv) == Depth(ft) + 1
  {
    if fv.Nil? { NilField(f, ft, prefix); } else if ft.Pointer? { PointerField(f, ft.to, fv.to, prefix); }
  }

  lemma {:induction false} SetPointersShortenField(f: Field, fv: Value, p: string)
    requires PointsToScalars(f.typ) && HasType(fv, f.typ)
    ensures |FlattenField(f, f.typ, fv, p)| + SetPointers(f.typ, fv) == |FlattenField(f, f.typ, Zero(f.typ), p)|
    decreases f.typ, 1, 0
  {
    if f.typ.Struct? {
      SetPointersShorten(f.typ, fv, InnerPrefix(f, p), |f.typ.fields|);
    } else {
      PointerField(f, f.typ, fv, p);
      PointerField(f, f.typ, Zero(f.typ), p);
    }
  }

  /** Every pointer that is set takes one entry away. */
  lemma {:induction false} SetPointersShorten(t: Type, v: Value, p: string, n: nat)
    requires t.Struct? && PointsToScalars(t) && HasType(v, t) && n <= |t.fields|
    ensures |FlattenFields(t, v, p, n)| + SetPointersOf(t, v, n) == |FlattenFields(t, Zero(t), p, n)|
    decreases t, 0, n
  {
    if n == 0 {
    } else {
      assert t.fields[n - 1] in t.fields;
      SetPointersShorten(t, v, p, n - 1);
      SetPointersShortenField(t.fields[n - 1], v.values[n - 1], p);
    }
  }

  lemma {:induction false} UnsetFieldKeepsNames(f: Field, fv: Value, p: string)
    requires PointsToScalars(f.typ) && HasType(fv, f.typ) && SetPointers(f.typ, fv) == 0
    ensures Names(FlattenField(f, f.typ, fv, p)) == Names(FlattenField(f, f.typ, Zero(f.typ), p))
    decreases f.typ, 1, 0
  {
    if f.typ.Struct? {
      UnsetPointersKeepNames(f.typ, fv, InnerPrefix(f, p), |f.typ.fields|);
    } else {
      assert f.typ.Pointer? ==> fv == Nil == Zero(f.typ);
    }
  }

  lemma {:induction false} UnsetPointersKeepNames(t: Type, v: Value, p: string, n: nat)
    requires t.Struct? && PointsToScalars(t) && HasType(v, t) && n <= |t.fields| && SetPointersOf(t, v, n) == 0
    ensures Names(FlattenFields(t, v, p, n)) == Names(FlattenFields(t, Zero(t), p, n))
    decreases t, 0, n
  {
    if n == 0 {
    } else {
      assert t.fields[n - 1] in t.fields;
      UnsetPointersKeepNames(t, v, p, n - 1);
      if t.fields[n - 1].exported { UnsetFieldKeepsNames(t.fields[n - 1], v.values[n - 1], p); }
      NamesOfFields(t, v, p, n);
      NamesOfFields(t, Zero(t), p, n);
    }
  }

  lemma NamesOfFields(t: Type, v: Value, p: string, n: nat)
    requires t.Struct? && HasType(v, t) && 0 < n <= |t.fields|
    ensures Names(FlattenFields(t, v, p, n)) == Names(FlattenFields(t, v, p, n - 1))
            + if t.fields[n - 1].exported
              then Names(FlattenField(t.fields[n - 1], t.fields[n - 1].typ, v.values[n - 1], p)) else []
  {
  }

  /** With pointers to scalars, the columns of the zero value fit an entity exactly as long as it sets none of them. */
  lemma ColumnsFitIffNoPointerIsSet(t: Type, entity: Value)
    requires t.Struct? && PointsToScalars(t) && HasType(entity, t)
    ensures Names(Flatten(t, Zero(t), "")) == Names(Flatten(t, entity, "")) <==> SetPointers(t, entity) == 0
    ensures |Flatten(t, Zero(t), "")| <= |Flatten(t, entity, "")| <==> SetPointers(t, entity) == 0
  {
    SetPointersShorten(t, entity, "", |t.fields|);
    if SetPointers(t, entity) == 0 { UnsetPointersKeepNames(t, entity, "", |t.fields|); }
  }

  /** And even then the column of a pointer field is named twice. */
  lemma {:induction false} PointerFieldIsNamedTwice(t: Type, i: nat, n: nat) returns (a: nat)
    requires t.Struct? && PointsToScalars(t) && i < n <= |t.fields| && t.fields[i].exported && t.fields[i].typ.Pointer?
    ensures var names := Names(FlattenFields(t, Zero(t), "", n));
            a + 1 < |names| && names[a] == names[a + 1] == Column(t.fields[i])
    decreases n
  {
    var f := t.fields[n - 1];
    if i < n - 1 {
      a := PointerFieldIsNamedTwice(t, i, n - 1);
    } else {
      a := |FlattenFields(t, Zero(t), "", n - 1)|;
      var own := FlattenField(f, f.typ, Nil, "");
      assert f in t.fields && PointsToScalars(f.typ);
      NilField(f, f.typ, "");
      assert own[0].name == own[1].name == Column(f);
      assert Names(FlattenFields(t, Zero(t), "", n))[a] == own[0].name;
    }
  }
}
