/** Queries as SQL: what the Postgres repository selects, and when the memory repository selects the same. */
module QueryTranslation {
  import opened Options
  import opened Query
  import Strings

  /** The column equals the argument. */
  datatype Comparison = Eq(column: string, arg: Val)

  /** A part of the WHERE; all parts are joined by AND, the comparisons of a group by OR. */
  datatype Clause = One(c: Comparison) | AnyOf(cs: seq<Comparison>)

  /** The conditions of a query, and those of its Or groups. */
  datatype GroupedQuery = GroupedQuery(conditions: seq<Condition>, groups: seq<seq<Condition>>)

  predicate AllValued(conditions: seq<Condition>) { forall k :: 0 <= k < |conditions| ==> conditions[k].value.Some? }

  function ComparisonOf(c: Condition): Comparison
    requires c.value.Some?
  {
    Eq(PgFieldName(c.field), c.value.value)
  }

  /** The loop over conditions, for the query itself and for each of its groups. */
  method CompareAll(conditions: seq<Condition>) returns (r: Result<seq<Comparison>>)
    ensures r.Ok? <==> AllValued(conditions)
    ensures r.Ok? ==> r.value == Comparisons(conditions)
    ensures r.Err? ==> r.error == NilValue
  {
    var cs := [];
    for k := 0 to |conditions|
      invariant AllValued(conditions[..k]) && cs == Comparisons(conditions[..k])
    {
      if conditions[k].value.None? { return Err(NilValue); }
      cs := cs + [ComparisonOf(conditions[k])];
      assert conditions[..k + 1] == conditions[..k] + [conditions[k]];
      ComparisonsAppend(conditions[..k], conditions[k]);
    }
    assert conditions[..|conditions|] == conditions;
    r := Ok(cs);
  }

  /** The query is refused for a nil value; without plain conditions the groups are not looked at. */
  method BuildFilteredSQL(q: GroupedQuery) returns (r: Result<seq<Clause>>)
    ensures r.Ok? <==> AllValued(q.conditions) && (q.conditions == [] || forall g :: g in q.groups ==> AllValued(g))
    ensures r.Ok? ==> r.value == WhereOf(q)
    ensures r.Err? ==> r.error == NilValue
  {
    if |q.conditions| == 0 { return Ok([]); }
    var plain := CompareAll(q.conditions);
    if plain.Err? { return Err(plain.error); }
    var grouped := CompareGroups(q.groups);
    if grouped.Err? { return Err(grouped.error); }
    r := Ok(Ones(plain.value) + grouped.value);
  }

  /** One OR for each group. */
  method CompareGroups(groups: seq<seq<Condition>>) returns (r: Result<seq<Clause>>)
    ensures r.Ok? <==> forall g :: g in groups ==> AllValued(g)
    ensures r.Ok? ==> r.value == Groups(groups)
    ensures r.Err? ==> r.error == NilValue
  {
    var clauses := [];
    for n := 0 to |groups|
      invariant forall g :: g in groups[..n] ==> AllValued(g)
      invariant clauses == Groups(groups[..n])
    {
      var inner := CompareAll(groups[n]);
      if inner.Err? {
        assert groups[n] in groups;
        return Err(inner.error);
      }
      clauses := clauses + [AnyOf(inner.value)];
      assert groups[..n + 1] == groups[..n] + [groups[n]];
      GroupsAppend(groups[..n], groups[n]);
    }
    assert groups[..|groups|] == groups;
    r := Ok(clauses);
  }

  function Comparisons(conditions: seq<Condition>): seq<Comparison>
    requires AllValued(conditions)
  {
    if conditions == [] then []
    else Comparisons(conditions[..|conditions| - 1]) + [ComparisonOf(conditions[|conditions| - 1])]
  }

  lemma ComparisonsAppend(before: seq<Condition>, c: Condition)
    requires AllValued(before) && c.value.Some?
    ensures AllValued(before + [c]) && Comparisons(before + [c]) == Comparisons(before) + [ComparisonOf(c)]
  {
    assert (before + [c])[..|before|] == before;
  }

  function Ones(cs: seq<Comparison>): seq<Clause> {
    if cs == [] then [] else Ones(cs[..|cs| - 1]) + [One(cs[|cs| - 1])]
  }

  function Groups(groups: seq<seq<Condition>>): seq<Clause>
    requires forall g :: g in groups ==> AllValued(g)
  {
    if groups == [] then [] else Groups(groups[..|groups| - 1]) + [AnyOf(Comparisons(groups[|groups| - 1]))]
  }

  lemma GroupsAppend(before: seq<seq<Condition>>, g: seq<Condition>)
    requires (forall h :: h in before ==> AllValued(h)) && AllValued(g)
    ensures (forall h :: h in before + [g] ==> AllValued(h)) && Groups(before + [g]) == Groups(before) + [AnyOf(Comparisons(g))]
  {
    assert (before + [g])[..|before|] == before;
  }

  /** The WHERE of a query. */
  function WhereOf(q: GroupedQuery): seq<Clause>
    requires AllValued(q.conditions) && (q.conditions == [] || forall g :: g in q.groups ==> AllValued(g))
  {
    if q.conditions == [] then [] else Ones(Comparisons(q.conditions)) + Groups(q.groups)
  }

  // ----- what SQL selects -----

  predicate IsLetter(c: char) { 'a' <= c <= 'z' || 'A' <= c <= 'Z' || c == '_' }

  predicate IsIdentifier(s: string) {
    s != "" && IsLetter(s[0]) && forall i :: 0 <= i < |s| ==> IsLetter(s[i]) || '0' <= s[i] <= '9'
  }

  /** The column that an unquoted text in the SQL names: Postgres folds identifiers to lower case. */
  ghost predicate NamesColumn(schema: Schema, text: string, i: nat) {
    i < |schema| && IsIdentifier(text) && Column(schema[i]) == Lower(text)
  }

  ghost predicate SatisfiesComparison(schema: Schema, e: Entity, c: Comparison)
    requires |e| == |schema|
  {
    exists i: nat :: NamesColumn(schema, c.column, i) && e[i].text == c.arg.text
  }

  /** The comparisons that hold for an entity in SQL. */
  ghost function Row(schema: Schema, e: Entity): Comparison -> bool
    requires |e| == |schema|
  {
    c => SatisfiesComparison(schema, e, c)
  }

  predicate MeetsClause(holds: Comparison -> bool, clause: Clause) {
    match clause
    case One(c) => holds(c)
    case AnyOf(cs) => exists k :: 0 <= k < |cs| && holds(cs[k])
  }

  predicate MeetsAll(holds: Comparison -> bool, clauses: seq<Clause>) {
    clauses == [] || (MeetsAll(holds, clauses[..|clauses| - 1]) && MeetsClause(holds, clauses[|clauses| - 1]))
  }

  /** The meaning of a WHERE: all its clauses. */
  ghost predicate SatisfiesWhere(schema: Schema, e: Entity, clauses: seq<Clause>)
    requires |e| == |schema|
  {
    MeetsAll(Row(schema, e), clauses)
  }

  lemma {:induction false} MeetsBoth(holds: Comparison -> bool, a: seq<Clause>, b: seq<Clause>)
    ensures MeetsAll(holds, a + b) <==> MeetsAll(holds, a) && MeetsAll(holds, b)
  {
    if b == [] {
      assert a + b == a;
    } else {
      var n := |b| - 1;
      MeetsBoth(holds, a, b[..n]);
      assert (a + b)[..|a + b| - 1] == a + b[..n] && (a + b)[|a + b| - 1] == b[n];
    }
  }

  /** The columns of a table are different. */
  ghost predicate UniqueColumns(schema: Schema) {
    forall i, j :: 0 <= i < j < |schema| ==> Column(schema[i]) != Column(schema[j])
  }

  // ----- one condition -----

  /** The value is one of the field's own type. */
  predicate OfType(v: Val, f: FieldDef) { v.kind == f.zero.kind && v.goType == f.zero.goType }

  /** The condition is about field `i`, for both repositories. */
  ghost predicate About(schema: Schema, resolve: Resolver, c: Condition, i: nat) {
    c.value.Some? && resolve(c.field) == Some(i) && NamesColumn(schema, PgFieldName(c.field), i)
    && OfType(c.value.value, schema[i])
  }

  lemma AboutKeepsMeaning(schema: Schema, resolve: Resolver, c: Condition, i: nat, e: Entity)
    requires UniqueColumns(schema) && HasType(e, schema) && About(schema, resolve, c, i)
    ensures Holds(resolve, c, e) <==> SatisfiesComparison(schema, e, ComparisonOf(c))
  {
    var v := c.value.value;
    assert v == e[i] <==> v.text == e[i].text;
    forall j: nat | NamesColumn(schema, PgFieldName(c.field), j) ensures j == i {}
  }

  function Zeros(schema: Schema): (e: Entity)
    ensures HasType(e, schema)
  {
    seq(|schema|, k requires 0 <= k < |schema| => schema[k].zero)
  }

  /** Entities on which the repositories differ, for a column of another field or a value of another type. */
  lemma ConditionDiffers(schema: Schema, resolve: Resolver, c: Condition, i: nat, j: nat) returns (e: Entity)
    requires UniqueColumns(schema) && c.value.Some? && i < |schema| && c.value.value.kind == schema[i].zero.kind
    requires resolve(c.field) == Some(i) && NamesColumn(schema, PgFieldName(c.field), j)
    requires i != j || !OfType(c.value.value, schema[i])
    ensures HasType(e, schema) && (Holds(resolve, c, e) <==> !SatisfiesComparison(schema, e, ComparisonOf(c)))
  {
    var v := c.value.value;
    if OfType(v, schema[i]) {
      e := Zeros(schema)[i := v][j := schema[j].zero.(text := v.text + "x")];
      assert Holds(resolve, c, e);
      forall k: nat | NamesColumn(schema, PgFieldName(c.field), k) ensures e[k].text != v.text {
        assert k == j;
        assert |e[j].text| != |v.text|;
      }
    } else {
      e := Zeros(schema)[j := schema[j].zero.(text := v.text)];
      assert e[i].goType != v.goType;
      assert NamesColumn(schema, ComparisonOf(c).column, j) && e[j].text == ComparisonOf(c).arg.text;
    }
  }

  /**
   A name that both repositories know, with a value of a kind that the memory repository accepts, selects the same in
   both, for all entities, exactly if it is the same field and the value is of the field's own type.
   */
  lemma ConditionKeepsMeaningIff(schema: Schema, resolve: Resolver, c: Condition, i: nat, j: nat)
    requires UniqueColumns(schema) && c.value.Some? && i < |schema| && c.value.value.kind == schema[i].zero.kind
    requires resolve(c.field) == Some(i) && NamesColumn(schema, PgFieldName(c.field), j)
    ensures (forall e :: HasType(e, schema) ==>
              (Holds(resolve, c, e) <==> SatisfiesComparison(schema, e, ComparisonOf(c))))
       <==> i == j && OfType(c.value.value, schema[i])
  {
    if i == j && OfType(c.value.value, schema[i]) {
      forall e | HasType(e, schema)
        ensures Holds(resolve, c, e) <==> SatisfiesComparison(schema, e, ComparisonOf(c))
      {
        AboutKeepsMeaning(schema, resolve, c, i, e);
      }
    } else {
      var e := ConditionDiffers(schema, resolve, c, i, j);
      assert HasType(e, schema);
    }
  }

  lemma {:induction false} LowerKeepsIdentifiers(s: string)
    ensures forall i :: 0 <= i < |s| ==> IsLetter(Lower(s)[i]) == IsLetter(s[i])
    ensures forall i :: 0 <= i < |s| ==> ('0' <= Lower(s)[i] <= '9' <==> '0' <= s[i] <= '9')
  {
    if s == "" {
    } else {
      LowerKeepsIdentifiers(s[1..]);
      forall i | 0 <= i < |s|
        ensures IsLetter(Lower(s)[i]) == IsLetter(s[i]) && ('0' <= Lower(s)[i] <= '9' <==> '0' <= s[i] <= '9')
      {
        if i > 0 { assert Lower(s)[i] == Lower(s[1..])[i - 1] && s[i] == s[1..][i - 1]; }
      }
    }
  }

  lemma IdentifierIsPlain(s: string)
    requires IsIdentifier(s)
    ensures !IsQuoted(s) && !Strings.Contains(s, ".")
  {
    Strings.ContainsIffOccurs(s, ".");
    forall i ensures !Strings.OccursAt(s, ".", i) {
      if 0 <= i < |s| { assert s[i..i + 1][0] == s[i]; }
    }
  }

  /** Columns that SQL can name without quotes, as they are. */
  ghost predicate SqlColumns(schema: Schema) {
    forall i :: 0 <= i < |schema| ==> IsIdentifier(Column(schema[i])) && Lower(Column(schema[i])) == Column(schema[i])
  }

  lemma AnswersByColumn(f: FieldDef, lowered: string)
    requires IsIdentifier(Column(f))
    ensures Answers(f, lowered) <==> Lower(f.name) == lowered || Column(f) == lowered
  {
    IdentifierIsPlain(Column(f));
    PlainConditionName(f);
  }

  lemma FirstByColumn(schema: Schema, i: nat, lowered: string)
    requires UniqueColumns(schema) && SqlColumns(schema) && i < |schema| && Column(schema[i]) == lowered
    ensures FirstAnswering(schema, lowered) == i <==> forall j :: 0 <= j < i ==> Lower(schema[j].name) != lowered
  {
    forall j | 0 <= j < |schema|
      ensures Answers(schema[j], lowered) <==> Lower(schema[j].name) == lowered || Column(schema[j]) == lowered
    {
      AnswersByColumn(schema[j], lowered);
    }
    FirstAnsweringIsFirst(schema, lowered);
  }

  /** A name without quotes: the column itself in any case, unless an earlier field's Go name is the same. */
  lemma UnquotedMeansTheSameIff(schema: Schema, name: string, i: nat)
    requires UniqueNames(schema) && UniqueColumns(schema) && SqlColumns(schema) && i < |schema| && !IsQuoted(name)
    ensures MemoryResolver(schema)(name) == Some(i) && NamesColumn(schema, PgFieldName(name), i) <==>
            Column(schema[i]) == Lower(name) && forall j :: 0 <= j < i ==> Lower(schema[j].name) != Lower(name)
  {
    LowerTwice(name);
    assert NamesColumn(schema, Lower(name), i) <==> Column(schema[i]) == Lower(name);
    if Column(schema[i]) == Lower(name) {
      ResolvesToFirst(schema, name, i);
      FirstByColumn(schema, i, Lower(name));
    }
  }

  /** A name in quotes: the exact Go name of a field whose column is its lower case. */
  lemma QuotedMeansTheSameIff(schema: Schema, name: string, i: nat)
    requires UniqueNames(schema) && SqlColumns(schema) && i < |schema| && IsQuoted(name)
    ensures MemoryResolver(schema)(name) == Some(i) && NamesColumn(schema, PgFieldName(name), i) <==>
            schema[i].name == Unquoted(name) && Column(schema[i]) == Lower(Unquoted(name))
  {
    var text := Unquoted(name);
    FieldByNameIff(schema, i, text);
    if Column(schema[i]) == Lower(text) {
      LowerKeepsIdentifiers(text);
      assert IsIdentifier(text);
    }
  }

  // ----- whole queries -----

  predicate HoldAll(holds: Comparison -> bool, cs: seq<Comparison>) {
    cs == [] || (HoldAll(holds, cs[..|cs| - 1]) && holds(cs[|cs| - 1]))
  }

  lemma {:induction false} OnesMet(holds: Comparison -> bool, cs: seq<Comparison>)
    ensures MeetsAll(holds, Ones(cs)) <==> HoldAll(holds, cs)
  {
    if cs == [] {
    } else {
      var n := |cs| - 1;
      OnesMet(holds, cs[..n]);
      assert Ones(cs)[..|Ones(cs)| - 1] == Ones(cs[..n]);
    }
  }

  lemma LastComparison(holds: Comparison -> bool, before: seq<Condition>, c: Condition)
    requires AllValued(before) && c.value.Some?
    ensures AllValued(before + [c])
    ensures HoldAll(holds, Comparisons(before + [c])) <==> HoldAll(holds, Comparisons(before)) && holds(ComparisonOf(c))
  {
    ComparisonsAppend(before, c);
    var cs := Comparisons(before);
    assert (cs + [ComparisonOf(c)])[..|cs|] == cs;
  }

  lemma LastMatches(resolve: Resolver, before: seq<Condition>, c: Condition, e: Entity)
    ensures Matches(resolve, before + [c], e) <==> Matches(resolve, before, e) && Holds(resolve, c, e)
  {
    assert (before + [c])[..|before|] == before;
  }

  /** If each condition means the same in both repositories, so does their conjunction. */
  lemma {:induction false} ComparisonsKeepMeaning(resolve: Resolver, holds: Comparison -> bool,
                                                  conditions: seq<Condition>, e: Entity)
    requires AllValued(conditions)
    requires forall k :: 0 <= k < |conditions| ==>
      (Holds(resolve, conditions[k], e) <==> holds(ComparisonOf(conditions[k])))
    ensures Matches(resolve, conditions, e) <==> HoldAll(holds, Comparisons(conditions))
  {
    if conditions == [] {
    } else {
      var n := |conditions| - 1;
      var before, c := conditions[..n], conditions[n];
      assert Holds(resolve, c, e) <==> holds(ComparisonOf(c));
      ComparisonsKeepMeaning(resolve, holds, before, e);
      LastComparison(holds, before, c);
      LastMatches(resolve, before, c, e);
      assert conditions == before + [c];
    }
  }

  ghost predicate FitsOne(schema: Schema, resolve: Resolver, c: Condition) {
    exists i: nat :: About(schema, resolve, c, i)
  }

  /** All conditions are about a field, with values of the fields' own types. */
  ghost predicate Fits(schema: Schema, resolve: Resolver, conditions: seq<Condition>) {
    forall k :: 0 <= k < |conditions| ==> FitsOne(schema, resolve, conditions[k])
  }

  lemma OneKeepsMeaning(schema: Schema, resolve: Resolver, c: Condition, e: Entity)
    requires UniqueColumns(schema) && HasType(e, schema) && FitsOne(schema, resolve, c)
    ensures c.value.Some? && (Holds(resolve, c, e) <==> Row(schema, e)(ComparisonOf(c)))
  {
    var i: nat :| About(schema, resolve, c, i);
    AboutKeepsMeaning(schema, resolve, c, i, e);
  }

  /** For a query without groups the memory repository's match counter selects the rows that the WHERE selects. */
  lemma QueryKeepsMeaning(schema: Schema, conditions: seq<Condition>, e: Entity)
    requires UniqueColumns(schema) && HasType(e, schema) && AllValued(conditions)
    requires Fits(schema, MemoryResolver(schema), conditions)
    ensures Matches(MemoryResolver(schema), conditions, e)
       <==> SatisfiesWhere(schema, e, WhereOf(GroupedQuery(conditions, [])))
  {
    var resolve, holds := MemoryResolver(schema), Row(schema, e);
    forall k | 0 <= k < |conditions|
      ensures Holds(resolve, conditions[k], e) <==> holds(ComparisonOf(conditions[k]))
    {
      assert FitsOne(schema, resolve, conditions[k]);
      OneKeepsMeaning(schema, resolve, conditions[k], e);
    }
    ComparisonsKeepMeaning(resolve, holds, conditions, e);
    PlainWhere(holds, conditions);
  }

  lemma PlainWhere(holds: Comparison -> bool, conditions: seq<Condition>)
    requires AllValued(conditions)
    ensures MeetsAll(holds, WhereOf(GroupedQuery(conditions, []))) <==> HoldAll(holds, Comparisons(conditions))
  {
    OnesMet(holds, Comparisons(conditions));
    assert Ones(Comparisons(conditions)) + [] == Ones(Comparisons(conditions));
  }

  /** Some condition of the group holds in SQL; of an empty group, none does. */
  predicate MeetsGroup(holds: Comparison -> bool, g: seq<Condition>)
    requires AllValued(g)
  {
    exists k :: 0 <= k < |g| && holds(ComparisonOf(g[k]))
  }

  lemma {:induction false} ComparisonAt(conditions: seq<Condition>, k: nat)
    requires AllValued(conditions) && k < |conditions|
    ensures |Comparisons(conditions)| == |conditions| && Comparisons(conditions)[k] == ComparisonOf(conditions[k])
  {
    var n := |conditions| - 1;
    if k < n {
      ComparisonAt(conditions[..n], k);
    } else if n > 0 {
      ComparisonAt(conditions[..n], 0);
    }
  }

  lemma OrIsGroup(holds: Comparison -> bool, g: seq<Condition>)
    requires AllValued(g)
    ensures MeetsClause(holds, AnyOf(Comparisons(g))) <==> MeetsGroup(holds, g)
  {
    forall k | 0 <= k < |g|
      ensures |Comparisons(g)| == |g| && Comparisons(g)[k] == ComparisonOf(g[k])
    {
      ComparisonAt(g, k);
    }
    if k :| 0 <= k < |g| && holds(ComparisonOf(g[k])) { assert holds(Comparisons(g)[k]); }
  }

  lemma LastGroup(holds: Comparison -> bool, before: seq<seq<Condition>>, g: seq<Condition>)
    requires (forall h :: h in before ==> AllValued(h)) && AllValued(g)
    ensures forall h :: h in before + [g] ==> AllValued(h)
    ensures MeetsAll(holds, Groups(before + [g])) <==> MeetsAll(holds, Groups(before)) && MeetsGroup(holds, g)
  {
    GroupsAppend(before, g);
    var clauses := Groups(before);
    assert (clauses + [AnyOf(Comparisons(g))])[..|clauses|] == clauses;
    OrIsGroup(holds, g);
  }

  lemma {:induction false} GroupsMet(holds: Comparison -> bool, groups: seq<seq<Condition>>)
    requires forall g :: g in groups ==> AllValued(g)
    ensures MeetsAll(holds, Groups(groups)) <==> forall g :: g in groups ==> MeetsGroup(holds, g)
  {
    if groups == [] {
    } else {
      var before, g := groups[..|groups| - 1], groups[|groups| - 1];
      GroupsMet(holds, before);
      LastGroup(holds, before, g);
      assert groups == before + [g];
      assert forall h :: h in groups <==> h in before || h == g;
    }
  }

  /**
   With groups the repositories differ on an entity exactly if it meets all plain conditions, there is one, and it
   fails a group: the memory repository never looks at groups, and SQL does only next to a plain condition.
   */
  lemma GroupedQueryAgreesIff(schema: Schema, q: GroupedQuery, e: Entity)
    requires UniqueColumns(schema) && HasType(e, schema) && AllValued(q.conditions)
    requires Fits(schema, MemoryResolver(schema), q.conditions) && forall g :: g in q.groups ==> AllValued(g)
    ensures (Matches(MemoryResolver(schema), q.conditions, e) <==> SatisfiesWhere(schema, e, WhereOf(q))) <==>
            q.conditions == [] || !Matches(MemoryResolver(schema), q.conditions, e)
            || forall g :: g in q.groups ==> MeetsGroup(Row(schema, e), g)
  {
    var holds := Row(schema, e);
    QueryKeepsMeaning(schema, q.conditions, e);
    PlainWhere(holds, q.conditions);
    OnesMet(holds, Comparisons(q.conditions));
    MeetsBoth(holds, Ones(Comparisons(q.conditions)), Groups(q.groups));
    GroupsMet(holds, q.groups);
  }

  // ----- filters in both repositories -----

  /** If the comparison of each set field says that the entity has the filter's value, the WHERE says that it agrees. */
  lemma {:induction false} FilterHoldsIff(holds: Comparison -> bool, schema: Schema, obj: Entity, e: Entity, n: nat)
    requires |obj| == |schema| == |e| && n <= |schema|
    requires forall i :: 0 <= i < n && obj[i] != schema[i].zero ==>
      (holds(ComparisonOf(Condition(ConditionName(schema[i]), Some(obj[i])))) <==> e[i] == obj[i])
    ensures HoldAll(holds, Comparisons(FilterUpTo(schema, obj, n))) <==> AgreesUpTo(schema, obj, e, n)
  {
    if n == 0 {
    } else {
      FilterHoldsStep(holds, schema, obj, n);
      FilterHoldsIff(holds, schema, obj, e, n - 1);
    }
  }

  lemma FilterHoldsStep(holds: Comparison -> bool, schema: Schema, obj: Entity, n: nat)
    requires |obj| == |schema| && 0 < n <= |schema|
    ensures HoldAll(holds, Comparisons(FilterUpTo(schema, obj, n)))
       <==> HoldAll(holds, Comparisons(FilterUpTo(schema, obj, n - 1)))
            && (obj[n - 1] != schema[n - 1].zero ==>
                  holds(ComparisonOf(Condition(ConditionName(schema[n - 1]), Some(obj[n - 1])))))
  {
    var before := FilterUpTo(schema, obj, n - 1);
    if obj[n - 1] == schema[n - 1].zero {
      assert FilterUpTo(schema, obj, n) == before;
    } else {
      var c := Condition(ConditionName(schema[n - 1]), Some(obj[n - 1]));
      LastComparison(holds, before, c);
      assert FilterUpTo(schema, obj, n) == before + [c];
    }
  }

  /** A filter's name of a field is its column. */
  lemma FilterName(schema: Schema, i: nat)
    requires SqlColumns(schema) && i < |schema|
    ensures ConditionName(schema[i]) == Column(schema[i]) && PgFieldName(Column(schema[i])) == Column(schema[i])
    ensures !IsQuoted(Column(schema[i])) && NamesColumn(schema, PgFieldName(Column(schema[i])), i)
  {
    IdentifierIsPlain(Column(schema[i]));
    PlainConditionName(schema[i]);
  }

  lemma FilterComparison(schema: Schema, obj: Entity, e: Entity, i: nat)
    requires UniqueColumns(schema) && SqlColumns(schema) && HasType(obj, schema) && HasType(e, schema) && i < |schema|
    ensures SatisfiesComparison(schema, e, ComparisonOf(Condition(ConditionName(schema[i]), Some(obj[i])))) <==> e[i] == obj[i]
  {
    FilterName(schema, i);
    forall j: nat | NamesColumn(schema, Column(schema[i]), j) ensures j == i {}
  }

  /** No field set by the filter has a column that is the Go name of an earlier field, but for upper and lower case. */
  ghost predicate NoneTaken(schema: Schema, obj: Entity)
    requires |obj| == |schema|
  {
    forall i, j :: 0 <= j < i < |schema| && obj[i] != schema[i].zero ==> Lower(schema[j].name) != Column(schema[i])
  }

  /** The memory repository resolves a filter's name of a field to that field, or to an earlier one that takes the name. */
  lemma FilterNameResolves(schema: Schema, i: nat) returns (j: nat)
    requires UniqueNames(schema) && UniqueColumns(schema) && SqlColumns(schema) && i < |schema|
    ensures j <= i && MemoryResolver(schema)(ConditionName(schema[i])) == Some(j)
    ensures j == i <==> forall k :: 0 <= k < i ==> Lower(schema[k].name) != Column(schema[i])
  {
    FilterName(schema, i);
    var name := Column(schema[i]);
    j := FirstAnswering(schema, Lower(name));
    FirstAnsweringIsFirst(schema, Lower(name));
    AnswersByColumn(schema[i], name);
    ResolvesToFirst(schema, name, j);
    FirstByColumn(schema, i, name);
  }

  lemma FindsAllIff(schema: Schema, obj: Entity)
    requires UniqueNames(schema) && UniqueColumns(schema) && SqlColumns(schema) && |obj| == |schema|
    ensures FindsAll(schema, MemoryResolver(schema), obj) <==> NoneTaken(schema, obj)
  {
    forall i | 0 <= i < |schema|
      ensures MemoryResolver(schema)(ConditionName(schema[i])) == Some(i)
         <==> forall k :: 0 <= k < i ==> Lower(schema[k].name) != Column(schema[i])
    {
      var j := FilterNameResolves(schema, i);
    }
  }

  /** What the memory repository makes of a filter, whatever it resolves the names to. */
  lemma {:induction false} FilterMatches(resolve: Resolver, schema: Schema, obj: Entity, e: Entity, n: nat)
    requires |obj| == |schema| && n <= |schema|
    ensures Matches(resolve, FilterUpTo(schema, obj, n), e) <==>
            forall i :: 0 <= i < n && obj[i] != schema[i].zero ==>
              Holds(resolve, Condition(ConditionName(schema[i]), Some(obj[i])), e)
  {
    if n == 0 {
    } else {
      FilterMatches(resolve, schema, obj, e, n - 1);
      var before, now := FilterUpTo(schema, obj, n - 1), FilterUpTo(schema, obj, n);
      if obj[n - 1] == schema[n - 1].zero {
        assert now == before;
      } else {
        assert now[..|before|] == before;
      }
    }
  }

  /** The last field that the filter sets and that does not resolve to itself. */
  lemma {:induction false} LastTaken(schema: Schema, resolve: Resolver, obj: Entity, n: nat) returns (i: nat)
    requires |obj| == |schema| && n <= |schema|
    requires exists k :: 0 <= k < n && obj[k] != schema[k].zero && resolve(ConditionName(schema[k])) != Some(k)
    ensures i < n && obj[i] != schema[i].zero && resolve(ConditionName(schema[i])) != Some(i)
    ensures forall k :: i < k < n && obj[k] != schema[k].zero ==> resolve(ConditionName(schema[k])) == Some(k)
  {
    if obj[n - 1] != schema[n - 1].zero && resolve(ConditionName(schema[n - 1])) != Some(n - 1) {
      i := n - 1;
    } else {
      i := LastTaken(schema, resolve, obj, n - 1);
    }
  }

  /** If a name is taken, some entity is selected by one repository only: the filter's own, or it with the field changed. */
  lemma TakenNameIsToldApart(schema: Schema, resolve: Resolver, obj: Entity) returns (e: Entity)
    requires HasType(obj, schema) && !FindsAll(schema, resolve, obj)
    requires forall k :: 0 <= k < |schema| ==> ResolvesBack(schema, resolve, k)
    ensures HasType(e, schema)
    ensures Matches(resolve, FilterUpTo(schema, obj, |schema|), e) <==> !Agrees(schema, obj, e)
  {
    if !Matches(resolve, FilterUpTo(schema, obj, |schema|), obj) {
      e := obj;
    } else {
      var i := LastTaken(schema, resolve, obj, |schema|);
      e := obj[i := obj[i].(text := obj[i].text + "x")];
      assert |e[i].text| != |obj[i].text|;
      FilterMatches(resolve, schema, obj, obj, |schema|);
      FilterMatches(resolve, schema, obj, e, |schema|);
      forall k | 0 <= k < |schema| && obj[k] != schema[k].zero
        ensures Holds(resolve, Condition(ConditionName(schema[k]), Some(obj[k])), e)
      {
        assert ResolvesBack(schema, resolve, k);
        assert Holds(resolve, Condition(ConditionName(schema[k]), Some(obj[k])), obj);
      }
    }
  }

  /** The name that a filter gives a field resolves to that field or an earlier one. */
  predicate ResolvesBack(schema: Schema, resolve: Resolver, k: nat)
    requires k < |schema|
  {
    resolve(ConditionName(schema[k])).Some? && resolve(ConditionName(schema[k])).value <= k
  }

  /** With columns that SQL can name, a filter selects the same in both repositories exactly if no name it uses is taken. */
  lemma FilterKeepsMeaningIff(schema: Schema, obj: Entity)
    requires UniqueNames(schema) && UniqueColumns(schema) && SqlColumns(schema) && HasType(obj, schema)
    ensures (forall e :: HasType(e, schema) ==>
               (Matches(MemoryResolver(schema), FilterUpTo(schema, obj, |schema|), e)
                <==> SatisfiesWhere(schema, e, WhereOf(GroupedQuery(FilterUpTo(schema, obj, |schema|), [])))))
       <==> NoneTaken(schema, obj)
  {
    var filter := FilterUpTo(schema, obj, |schema|);
    FindsAllIff(schema, obj);
    forall e | HasType(e, schema)
      ensures SatisfiesWhere(schema, e, WhereOf(GroupedQuery(filter, []))) <==> Agrees(schema, obj, e)
    {
      FilterWhereAgrees(schema, obj, e);
    }
    if NoneTaken(schema, obj) {
      forall e | HasType(e, schema) ensures Matches(MemoryResolver(schema), filter, e) <==> Agrees(schema, obj, e) {
        FilterSelectsAgreeing(schema, MemoryResolver(schema), obj, e);
      }
    } else {
      forall k | 0 <= k < |schema| ensures ResolvesBack(schema, MemoryResolver(schema), k) {
        var j := FilterNameResolves(schema, k);
      }
      var e := TakenNameIsToldApart(schema, MemoryResolver(schema), obj);
    }
  }

  /** The WHERE of a filter selects exactly the entities that agree with it, whatever the memory repository finds. */
  lemma FilterWhereAgrees(schema: Schema, obj: Entity, e: Entity)
    requires UniqueColumns(schema) && SqlColumns(schema) && HasType(obj, schema) && HasType(e, schema)
    ensures SatisfiesWhere(schema, e, WhereOf(GroupedQuery(FilterUpTo(schema, obj, |schema|), []))) <==> Agrees(schema, obj, e)
  {
    var holds := Row(schema, e);
    forall i | 0 <= i < |schema|
      ensures holds(ComparisonOf(Condition(ConditionName(schema[i]), Some(obj[i])))) <==> e[i] == obj[i]
    {
      FilterComparison(schema, obj, e, i);
    }
    FilterHoldsIff(holds, schema, obj, e, |schema|);
    PlainWhere(holds, FilterUpTo(schema, obj, |schema|));
    AgreesIff(schema, obj, e, |schema|);
  }
}
