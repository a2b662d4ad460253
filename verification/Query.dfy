/** Queries over entities: how they are built, and what both repositories select by them. */
module Query {
  import opened Options
  import Strings

  /** A Go value in an interface: its kind, its type and its content. Scalars compare equal if all three do. */
  datatype Val = Val(kind: string, goType: string, text: string)

  /** A field of an entity; `snake` is what the column mapper makes of the name, `zero` the zero value of the type. */
  datatype FieldDef = FieldDef(name: string, tag: string, snake: string, zero: Val)

  datatype Condition = Condition(field: string, value: Option<Val>)

  datatype QueryError = NilValue | NoField | WrongKind

  datatype Result<T> = Ok(value: T) | Err(error: QueryError)

  type Schema = seq<FieldDef>
  type Entity = seq<Val>

  ghost predicate HasType(e: Entity, schema: Schema) {
    |e| == |schema|
    && forall i :: 0 <= i < |e| ==> e[i].kind == schema[i].zero.kind && e[i].goType == schema[i].zero.goType
  }

  /** Go does not allow two fields of the same name. */
  ghost predicate UniqueNames(schema: Schema) {
    forall i, j :: 0 <= i < j < |schema| ==> schema[i].name != schema[j].name
  }

  // ----- names -----

  function Lower(s: string): (l: string)
    ensures |l| == |s|
  {
    if s == "" then "" else [if 'A' <= s[0] <= 'Z' then s[0] - 'A' + 'a' else s[0]] + Lower(s[1..])
  }

  predicate IsQuoted(s: string) { |s| >= 1 && s[0] == '"' && s[|s| - 1] == '"' }

  lemma {:induction false} LowerAt(s: string, i: nat)
    requires i < |s|
    ensures Lower(s)[i] as int == if 65 <= s[i] as int <= 90 then s[i] as int + 32 else s[i] as int
  {
    if i > 0 { LowerAt(s[1..], i - 1); }
  }

  /** TrimSuffix, then TrimPrefix. */
  function Unquoted(s: string): string
    requires IsQuoted(s)
  {
    if |s| == 1 then "" else s[1..|s| - 1]
  }

  /** A quoted name is a text between two quotes, or one quote that is both. */
  lemma QuotedIff(s: string, text: string)
    ensures IsQuoted(s) && Unquoted(s) == text <==> s == "\"" + text + "\"" || (s == "\"" && text == "")
  {
    if |s| >= 2 && IsQuoted(s) { assert s == "\"" + s[1..|s| - 1] + "\""; }
  }

  /** The name that a condition uses for a field: its column, in quotes if the tag holds a dot. */
  function ConditionName(f: FieldDef): string {
    if f.tag == "" then f.snake else if Strings.Contains(f.tag, ".") then "\"" + f.tag + "\"" else f.tag
  }

  function Column(f: FieldDef): string { if f.tag != "" then f.tag else f.snake }

  predicate Answers(f: FieldDef, lowered: string) { Lower(f.name) == lowered || ConditionName(f) == lowered }

  /** The first field that answers to the name, or |schema|. */
  function FirstAnswering(schema: Schema, lowered: string): (i: nat)
    ensures i <= |schema|
  {
    if schema == [] then 0
    else if Answers(schema[0], lowered) then 0
    else 1 + FirstAnswering(schema[1..], lowered)
  }

  /** The Go name that the memory repository looks up by reflection. */
  function FieldName(schema: Schema, name: string): string {
    if IsQuoted(name) then Unquoted(name)
    else
      var i := FirstAnswering(schema, Lower(name));
      if i < |schema| then schema[i].name else Lower(name)
  }

  function FieldByName(schema: Schema, name: string): (r: Option<nat>)
    ensures r.Some? ==> r.value < |schema|
  {
    if schema == [] then None
    else if schema[0].name == name then Some(0)
    else match FieldByName(schema[1..], name) case Some(i) => Some(i + 1) case None => None
  }

  lemma {:induction false} FirstAnsweringIsFirst(schema: Schema, lowered: string)
    ensures var i := FirstAnswering(schema, lowered);
            && (i < |schema| ==> Answers(schema[i], lowered))
            && forall j :: 0 <= j < i ==> !Answers(schema[j], lowered)
  {
    if schema == [] {
    } else {
      FirstAnsweringIsFirst(schema[1..], lowered);
    }
  }

  lemma {:induction false} FieldByNameFinds(schema: Schema, name: string)
    ensures match FieldByName(schema, name)
            case Some(i) => schema[i].name == name
            case None => forall i :: 0 <= i < |schema| ==> schema[i].name != name
  {
    if schema == [] {
    } else {
      FieldByNameFinds(schema[1..], name);
    }
  }

  lemma FieldByNameIff(schema: Schema, i: nat, name: string)
    requires UniqueNames(schema) && i < |schema|
    ensures FieldByName(schema, name) == Some(i) <==> schema[i].name == name
  {
    FieldByNameFinds(schema, name);
  }

  function Resolve(schema: Schema, name: string): (r: Option<nat>)
    ensures r.Some? ==> r.value < |schema|
  {
    FieldByName(schema, FieldName(schema, name))
  }

  lemma {:induction false} LowerTwice(s: string)
    ensures Lower(Lower(s)) == Lower(s)
  {
    if s == "" {
    } else {
      LowerTwice(s[1..]);
      assert Lower(s)[1..] == Lower(s[1..]);
    }
  }

  /** A name without quotes resolves to the first field that answers to it. */
  lemma ResolvesToFirst(schema: Schema, name: string, i: nat)
    requires UniqueNames(schema) && i < |schema| && !IsQuoted(name)
    ensures Resolve(schema, name) == Some(i) <==> FirstAnswering(schema, Lower(name)) == i
  {
    LowerTwice(name);
    FirstAnsweringIsFirst(schema, Lower(name));
    FieldByNameIff(schema, i, FieldName(schema, name));
  }

  lemma PlainConditionName(f: FieldDef)
    requires !Strings.Contains(Column(f), ".")
    ensures ConditionName(f) == Column(f)
  {
  }

  /** How names are resolved to fields. */
  type Resolver = string -> Option<nat>

  ghost predicate ResolvesTo(resolve: Resolver, schema: Schema) {
    forall name :: resolve(name).Some? ==> resolve(name).value < |schema|
  }

  function MemoryResolver(schema: Schema): (resolve: Resolver)
    ensures ResolvesTo(resolve, schema)
  {
    name => Resolve(schema, name)
  }

  /** The column that the SQL names. */
  function PgFieldName(name: string): string { if IsQuoted(name) then Unquoted(name) else Lower(name) }

  // ----- the memory repository -----

  function CheckCondition(schema: Schema, resolve: Resolver, c: Condition): Option<QueryError>
    requires ResolvesTo(resolve, schema)
  {
    if c.value.None? then Some(NilValue)
    else match resolve(c.field)
      case None => Some(NoField)
      case Some(i) => if c.value.value.kind != schema[i].zero.kind then Some(WrongKind) else None
  }

  /** The problem of the first condition that has one. */
  function FirstError(schema: Schema, resolve: Resolver, conditions: seq<Condition>): Option<QueryError>
    requires ResolvesTo(resolve, schema)
  {
    if conditions == [] then None
    else
      var n := |conditions| - 1;
      var before := FirstError(schema, resolve, conditions[..n]);
      if before.Some? then before else CheckCondition(schema, resolve, conditions[n])
  }

  lemma {:induction false} FirstErrorStays(schema: Schema, resolve: Resolver, conditions: seq<Condition>, k: nat)
    requires ResolvesTo(resolve, schema) && k <= |conditions| && FirstError(schema, resolve, conditions[..k]).Some?
    ensures FirstError(schema, resolve, conditions) == FirstError(schema, resolve, conditions[..k])
  {
    if k < |conditions| {
      var n := |conditions| - 1;
      assert conditions[..n][..k] == conditions[..k];
      FirstErrorStays(schema, resolve, conditions[..n], k);
    } else {
      assert conditions[..k] == conditions;
    }
  }

  predicate Holds(resolve: Resolver, c: Condition, e: Entity) {
    var i := resolve(c.field);
    i.Some? && i.value < |e| && c.value == Some(e[i.value])
  }

  /** The meaning of a query without groups: all its conditions. */
  predicate Matches(resolve: Resolver, conditions: seq<Condition>, e: Entity) {
    conditions == []
    || (Matches(resolve, conditions[..|conditions| - 1], e) && Holds(resolve, conditions[|conditions| - 1], e))
  }

  /** What is wrong with a condition: a missing value before an unknown field, and that before a value of a wrong kind. */
  ghost predicate IsWrong(schema: Schema, resolve: Resolver, c: Condition, why: QueryError)
    requires ResolvesTo(resolve, schema)
  {
    match why
    case NilValue => c.value == None
    case NoField => c.value != None && resolve(c.field) == None
    case WrongKind =>
      c.value != None && exists i: nat :: resolve(c.field) == Some(i) && c.value.value.kind != schema[i].zero.kind
  }

  ghost predicate IsRight(schema: Schema, resolve: Resolver, c: Condition)
    requires ResolvesTo(resolve, schema)
  {
    !IsWrong(schema, resolve, c, NilValue) && !IsWrong(schema, resolve, c, NoField) && !IsWrong(schema, resolve, c, WrongKind)
  }

  /** A query is refused exactly if a condition is wrong, and for the first one that is. */
  lemma {:induction false} FirstErrorIs(schema: Schema, resolve: Resolver, conditions: seq<Condition>)
    requires ResolvesTo(resolve, schema)
    ensures match FirstError(schema, resolve, conditions)
            case None => forall k :: 0 <= k < |conditions| ==> IsRight(schema, resolve, conditions[k])
            case Some(why) =>
              exists k :: 0 <= k < |conditions| && IsWrong(schema, resolve, conditions[k], why)
                          && forall j :: 0 <= j < k ==> IsRight(schema, resolve, conditions[j])
  {
    if conditions == [] {
    } else {
      var n := |conditions| - 1;
      var before := conditions[..n];
      FirstErrorIs(schema, resolve, before);
      assert forall j :: 0 <= j < n ==> before[j] == conditions[j];
      match FirstError(schema, resolve, before)
      case None =>
      case Some(why) =>
        var k :| 0 <= k < n && IsWrong(schema, resolve, before[k], why)
                 && forall j :: 0 <= j < k ==> IsRight(schema, resolve, before[j]);
        assert IsWrong(schema, resolve, conditions[k], why);
    }
  }

  /** An entity is selected exactly if each condition's field has the condition's value, in kind, type and content. */
  lemma {:induction false} MatchesIff(resolve: Resolver, conditions: seq<Condition>, e: Entity)
    ensures Matches(resolve, conditions, e) <==>
              forall k :: 0 <= k < |conditions| ==>
                exists i: nat :: i < |e| && resolve(conditions[k].field) == Some(i) && conditions[k].value == Some(e[i])
  {
    if conditions == [] {
    } else {
      var n := |conditions| - 1;
      MatchesIff(resolve, conditions[..n], e);
      assert forall k :: 0 <= k < n ==> conditions[..n][k] == conditions[k];
    }
  }

  type ID = string

  /** Counts the conditions that an entity meets. */
  method MatchEntity(schema: Schema, resolve: Resolver, conditions: seq<Condition>, e: Entity) returns (r: Result<bool>)
    requires ResolvesTo(resolve, schema) && |e| == |schema|
    ensures r.Err? ==> FirstError(schema, resolve, conditions) == Some(r.error)
    ensures r.Ok? ==> FirstError(schema, resolve, conditions).None? && (r.value <==> Matches(resolve, conditions, e))
  {
    var fieldsThatMatch := 0;
    for k := 0 to |conditions|
      invariant FirstError(schema, resolve, conditions[..k]).None?
      invariant fieldsThatMatch <= k
      invariant fieldsThatMatch == k <==> Matches(resolve, conditions[..k], e)
    {
      var c := conditions[k];
      assert conditions[..k + 1][..k] == conditions[..k];
      if c.value.None? {
        FirstErrorStays(schema, resolve, conditions, k + 1);
        return Err(NilValue);
      }
      var field := resolve(c.field);
      if field.None? {
        FirstErrorStays(schema, resolve, conditions, k + 1);
        return Err(NoField);
      }
      if c.value.value.kind != schema[field.value].zero.kind {
        FirstErrorStays(schema, resolve, conditions, k + 1);
        return Err(WrongKind);
      }
      if e[field.value] == c.value.value { fieldsThatMatch := fieldsThatMatch + 1; }
    }
    assert conditions[..|conditions|] == conditions;
    r := Ok(fieldsThatMatch == |conditions|);
  }

  /**
   * Selects the entities that meet all conditions; `ids` says where the result's entries come from.
   * A query that is wrong is reported only if there is an entity to hold it against.
   */
  method AllBy(schema: Schema, resolve: Resolver, conditions: seq<Condition>, data: map<ID, Entity>)
    returns (r: Result<seq<Entity>>, ghost ids: seq<ID>)
    requires ResolvesTo(resolve, schema) && forall id :: id in data ==> |data[id]| == |schema|
    ensures r.Err? <==> data != map[] && FirstError(schema, resolve, conditions).Some?
    ensures r.Err? ==> r.error == FirstError(schema, resolve, conditions).value
    ensures r.Ok? ==> |ids| == |r.value| && forall k :: 0 <= k < |ids| ==> ids[k] in data && r.value[k] == data[ids[k]]
    ensures r.Ok? ==> forall j, k :: 0 <= j < k < |ids| ==> ids[j] != ids[k]
    ensures r.Ok? ==> forall id :: id in ids <==> id in data && Matches(resolve, conditions, data[id])
  {
    var found := [];
    ids := [];
    var left := data.Keys;
    while left != {}
      invariant left <= data.Keys
      invariant left != data.Keys ==> FirstError(schema, resolve, conditions).None?
      invariant |ids| == |found| && forall k :: 0 <= k < |ids| ==> ids[k] in data && found[k] == data[ids[k]]
      invariant forall j, k :: 0 <= j < k < |ids| ==> ids[j] != ids[k]
      invariant forall id :: id in ids <==> id in data.Keys - left && Matches(resolve, conditions, data[id])
    {
      var id :| id in left;
      var matched := MatchEntity(schema, resolve, conditions, data[id]);
      if matched.Err? {
        assert id in data;
        return Err(matched.error), [];
      }
      if matched.value { found, ids := found + [data[id]], ids + [id]; }
      left := left - {id};
    }
    r := Ok(found);
  }

  // ----- filters -----

  /** One condition for each field of `obj` that is not zero. */
  function FilterUpTo(schema: Schema, obj: Entity, n: nat): (conditions: seq<Condition>)
    requires |obj| == |schema| && n <= |schema|
    ensures forall k :: 0 <= k < |conditions| ==> conditions[k].value.Some?
  {
    if n == 0 then []
    else
      FilterUpTo(schema, obj, n - 1)
      + if obj[n - 1] != schema[n - 1].zero then [Condition(ConditionName(schema[n - 1]), Some(obj[n - 1]))] else []
  }

  method Filter(schema: Schema, obj: Entity) returns (conditions: seq<Condition>)
    requires |obj| == |schema|
    ensures conditions == FilterUpTo(schema, obj, |schema|)
    ensures |conditions| <= |schema|
  {
    conditions := [];
    for i := 0 to |schema|
      invariant conditions == FilterUpTo(schema, obj, i) && |conditions| <= i
    {
      if obj[i] != schema[i].zero {
        conditions := conditions + [Condition(ConditionName(schema[i]), Some(obj[i]))];
      }
    }
  }

  /** The entities that agree with `obj` on all fields of it that are not zero. */
  ghost predicate Agrees(schema: Schema, obj: Entity, e: Entity)
    requires |obj| == |schema| == |e|
  {
    forall i :: 0 <= i < |schema| && obj[i] != schema[i].zero ==> e[i] == obj[i]
  }

  /** The memory repository finds field `i` by the name that a filter gives it. */
  ghost predicate FindsItself(schema: Schema, i: nat)
    requires i < |schema|
  {
    MemoryResolver(schema)(ConditionName(schema[i])) == Some(i)
  }

  /** No quotes and dots in tags, snake-case names without quotes, and Go names that are neither. */
  ghost predicate PlainNames(schema: Schema) {
    forall i :: 0 <= i < |schema| ==> !IsQuoted(Column(schema[i])) && !Strings.Contains(Column(schema[i]), ".")
                                      && Lower(schema[i].name) != schema[i].name
  }

  /** When a field is found: its column is in lower case or spells its own name, and no field before takes the name. */
  lemma FindsItselfIff(schema: Schema, i: nat)
    requires UniqueNames(schema) && PlainNames(schema) && i < |schema|
    ensures FindsItself(schema, i) <==>
            var lowered := Lower(Column(schema[i]));
            && (Column(schema[i]) == lowered || Lower(schema[i].name) == lowered)
            && forall j :: 0 <= j < i ==> Lower(schema[j].name) != lowered && Column(schema[j]) != lowered
  {
    var lowered := Lower(Column(schema[i]));
    forall j | 0 <= j < |schema|
      ensures Answers(schema[j], lowered) <==> Lower(schema[j].name) == lowered || Column(schema[j]) == lowered
    {
      PlainConditionName(schema[j]);
    }
    PlainConditionName(schema[i]);
    ResolvesToFirst(schema, Column(schema[i]), i);
    FirstAnsweringIsFirst(schema, lowered);
  }

  /** All fields that `obj` sets are found by the names that a filter gives them. */
  ghost predicate FindsAll(schema: Schema, resolve: Resolver, obj: Entity)
    requires |obj| == |schema|
  {
    forall i :: 0 <= i < |obj| && obj[i] != schema[i].zero ==> resolve(ConditionName(schema[i])) == Some(i)
  }

  predicate AgreesUpTo(schema: Schema, obj: Entity, e: Entity, n: nat)
    requires |obj| == |schema| == |e| && n <= |schema|
  {
    n == 0 || (AgreesUpTo(schema, obj, e, n - 1) && (obj[n - 1] != schema[n - 1].zero ==> e[n - 1] == obj[n - 1]))
  }

  lemma {:induction false} AgreesIff(schema: Schema, obj: Entity, e: Entity, n: nat)
    requires |obj| == |schema| == |e| && n <= |schema|
    ensures AgreesUpTo(schema, obj, e, n) <==> forall i :: 0 <= i < n && obj[i] != schema[i].zero ==> e[i] == obj[i]
  {
    if n == 0 {
    } else {
      AgreesIff(schema, obj, e, n - 1);
    }
  }

  lemma {:induction false} FilterSelectsUpTo(schema: Schema, resolve: Resolver, obj: Entity, e: Entity, n: nat)
    requires ResolvesTo(resolve, schema) && HasType(obj, schema) && HasType(e, schema) && n <= |schema|
    requires FindsAll(schema, resolve, obj)
    ensures Matches(resolve, FilterUpTo(schema, obj, n), e) <==> AgreesUpTo(schema, obj, e, n)
    ensures FirstError(schema, resolve, FilterUpTo(schema, obj, n)).None?
  {
    if n > 0 {
      FilterSelectsUpTo(schema, resolve, obj, e, n - 1);
      FilterStep(schema, resolve, obj, e, n);
    }
  }

  /** A filter is a valid query, and selects exactly the entities that agree with it wherever it is not zero. */
  lemma FilterSelectsAgreeing(schema: Schema, resolve: Resolver, obj: Entity, e: Entity)
    requires ResolvesTo(resolve, schema) && HasType(obj, schema) && HasType(e, schema) && FindsAll(schema, resolve, obj)
    ensures Matches(resolve, FilterUpTo(schema, obj, |schema|), e) <==> Agrees(schema, obj, e)
    ensures FirstError(schema, resolve, FilterUpTo(schema, obj, |schema|)).None?
  {
    FilterSelectsUpTo(schema, resolve, obj, e, |schema|);
    AgreesIff(schema, obj, e, |schema|);
  }

  lemma FilterStep(schema: Schema, resolve: Resolver, obj: Entity, e: Entity, n: nat)
    requires ResolvesTo(resolve, schema) && HasType(obj, schema) && HasType(e, schema) && 0 < n <= |schema|
    requires FindsAll(schema, resolve, obj)
    ensures Matches(resolve, FilterUpTo(schema, obj, n), e)
       <==> Matches(resolve, FilterUpTo(schema, obj, n - 1), e)
            && (obj[n - 1] != schema[n - 1].zero ==> e[n - 1] == obj[n - 1])
    ensures FirstError(schema, resolve, FilterUpTo(schema, obj, n))
         == FirstError(schema, resolve, FilterUpTo(schema, obj, n - 1))
  {
    var before, now := FilterUpTo(schema, obj, n - 1), FilterUpTo(schema, obj, n);
    if obj[n - 1] == schema[n - 1].zero {
      assert now == before;
    } else {
      assert now[..|before|] == before;
    }
  }

  /** A dotted tag becomes a quoted name, which no Go field has. */
  lemma DottedTagIsNeverFound(schema: Schema, i: nat)
    requires i < |schema| && Strings.Contains(schema[i].tag, ".")
    requires forall j :: 0 <= j < |schema| ==> schema[j].name != schema[i].tag
    ensures Resolve(schema, ConditionName(schema[i])).None?
  {
    var name := ConditionName(schema[i]);
    assert schema[i].tag != "";
    assert name == "\"" + schema[i].tag + "\"";
    assert Unquoted(name) == schema[i].tag;
    FieldByNameFinds(schema, schema[i].tag);
  }

  // ----- building queries: the conditions are a Go slice -----

  /** The backing arrays, each as long as its capacity. */
  type Heap = seq<seq<Condition>>

  datatype Slice = Slice(array_: nat, len: nat)

  ghost predicate InHeap(h: Heap, s: Slice) { s.array_ < |h| && s.len <= |h[s.array_]| }

  function Contents(h: Heap, s: Slice): seq<Condition>
    requires InHeap(h, s)
  {
    h[s.array_][..s.len]
  }

  function Capacity(h: Heap, s: Slice): nat
    requires InHeap(h, s)
  {
    |h[s.array_]|
  }

  /** append: in place while the capacity lasts, else into a new array with the free places in `spare`. */
  function Append(h: Heap, s: Slice, c: Condition, spare: seq<Condition>): (r: (Heap, Slice))
    requires InHeap(h, s)
    ensures InHeap(r.0, r.1) && Contents(r.0, r.1) == Contents(h, s) + [c]
    ensures |r.0| >= |h| && forall a :: 0 <= a < |h| ==> |r.0[a]| == |h[a]|
    ensures forall a :: 0 <= a < |h| && (a != s.array_ || s.len == |h[a]|) ==> r.0[a] == h[a]
  {
    if s.len < |h[s.array_]| then
      (h[s.array_ := h[s.array_][s.len := c]], Slice(s.array_, s.len + 1))
    else
      (h + [Contents(h, s) + [c] + spare], Slice(|h|, s.len + 1))
  }

  /** Two queries are built from one: the first is left alone exactly if the base had no room, or both add the same. */
  lemma BranchesAreIndependentIff(h: Heap, base: Slice, c: Condition, d: Condition,
                                  spareC: seq<Condition>, spareD: seq<Condition>)
    requires InHeap(h, base)
    ensures var (h1, first) := Append(h, base, c, spareC);
            var (h2, second) := Append(h1, base, d, spareD);
            && Contents(h2, base) == Contents(h, base)
            && Contents(h2, second) == Contents(h, base) + [d]
            && (Contents(h2, first) == Contents(h, base) + [c] <==> base.len == Capacity(h, base) || c == d)
  {
    var (h1, first) := Append(h, base, c, spareC);
    var (h2, second) := Append(h1, base, d, spareD);
    if base.len < Capacity(h, base) {
      assert Contents(h2, first) == Contents(h2, second);
      assert (Contents(h, base) + [c])[base.len] == c && (Contents(h, base) + [d])[base.len] == d;
    }
  }

  /** What append leaves free in a new array: it doubles the capacity, as Go does for such short slices. */
  function Spare(capacity: nat): seq<Condition> {
    seq(if capacity == 0 then 0 else capacity - 1, _ => Condition("", None))
  }

  /** A query built by a chain of conditions, from Where's empty slice. */
  function Chain(conditions: seq<Condition>): (r: (Heap, Slice))
    ensures InHeap(r.0, r.1)
  {
    if conditions == [] then ([[]], Slice(0, 0))
    else
      var (h, s) := Chain(conditions[..|conditions| - 1]);
      Append(h, s, conditions[|conditions| - 1], Spare(Capacity(h, s)))
  }

  /** The capacity after `n` appends: the least power of two from `n` on. */
  function CapacityAfter(n: nat): nat {
    if n == 0 then 0
    else
      var c := CapacityAfter(n - 1);
      if n <= c then c else if c == 0 then 1 else 2 * c
  }

  lemma {:induction false} ChainIsBuilt(conditions: seq<Condition>)
    ensures var (h, s) := Chain(conditions);
            Contents(h, s) == conditions && s.len == |conditions| && Capacity(h, s) == CapacityAfter(|conditions|)
  {
    if conditions == [] {
    } else {
      var n := |conditions| - 1;
      ChainIsBuilt(conditions[..n]);
      assert conditions == conditions[..n] + [conditions[n]];
    }
  }

  /** Two queries from one chain of conditions: the first keeps its own exactly if the chain fills its array, or both agree. */
  lemma BranchesOfChainAreIndependentIff(base: seq<Condition>, c: Condition, d: Condition)
    ensures var (h, s) := Chain(base);
            var (h1, first) := Append(h, s, c, Spare(Capacity(h, s)));
            var (h2, second) := Append(h1, s, d, Spare(Capacity(h1, s)));
            && Contents(h2, second) == base + [d]
            && (Contents(h2, first) == base + [c] <==> |base| == CapacityAfter(|base|) || c == d)
  {
    var (h, s) := Chain(base);
    ChainIsBuilt(base);
    var h1 := Append(h, s, c, Spare(Capacity(h, s))).0;
    BranchesAreIndependentIff(h, s, c, d, Spare(Capacity(h, s)), Spare(Capacity(h1, s)));
  }

  /** With three conditions the array has room for a fourth, so the second query overwrites the first one's. */
  lemma FourthConditionIsOverwritten(base: seq<Condition>, c: Condition, d: Condition)
    requires |base| == 3 && c != d
    ensures var (h, s) := Chain(base);
            var (h1, first) := Append(h, s, c, Spare(Capacity(h, s)));
            var (h2, second) := Append(h1, s, d, Spare(Capacity(h1, s)));
            Contents(h2, first) != base + [c]
  {
    BranchesOfChainAreIndependentIff(base, c, d);
    assert CapacityAfter(1) == 1 && CapacityAfter(2) == 2 && CapacityAfter(3) == 4;
  }
}
