/** The grammar of template names: `base=>layout=>page#fragment`, or `#fragment` for a component. */
module TemplateNames {
  import opened Options
  import opened Strings

  const SEPARATOR := "=>"
  const FRAGMENT := "#"
  const MAX_SEGMENTS := 3

  datatype ParsedTemplate = ParsedTemplate(
    context: string,
    baseLayout: string,
    contextLayout: string,
    page: string,
    fragment: string,
    renderAsAdminPage: bool,
    isComponent: bool
  )

  predicate IsInvalid(s: string) { Contains(s, SEPARATOR) || Contains(s, FRAGMENT) }

  /** The record made of a name's segments, or None where parseTemplateName returns its first errors. */
  function FromSegments(elem: seq<string>, isComponent: bool): Option<ParsedTemplate>
    requires elem != []
  {
    if |elem| > MAX_SEGMENTS then None
    else
      var layout := if |elem| == 3 then TrimSpace(elem[0]) else "";
      var contextLayout := if |elem| == 3 then TrimSpace(elem[1]) else if |elem| == 2 then TrimSpace(elem[0]) else "";
      var whole := TrimSpace(elem[|elem| - 1]);
      var fragments := Split(whole, FRAGMENT);
      if |fragments| > 2 then None
      else if |fragments| == 1 then Some(ParsedTemplate("", layout, contextLayout, whole, "", false, isComponent))
      else if TrimSpace(fragments[1]) == "" then None
      else
        Some(ParsedTemplate("", layout, contextLayout, TrimSpace(fragments[0]), TrimSpace(fragments[1]), false, isComponent))
  }

  function Segments(name: string): Option<ParsedTemplate> {
    FromSegments(Split(name, SEPARATOR), name != "" && [name[0]] == FRAGMENT)
  }

  function ParseTemplateName(name: string): Option<ParsedTemplate> {
    match Segments(name)
    case None => None
    case Some(p) =>
      if IsInvalid(p.baseLayout) || IsInvalid(p.contextLayout) || IsInvalid(p.page) || IsInvalid(p.fragment) then None
      else Some(p)
  }

  /** The canonical name of a template. */
  function PrintTemplateName(p: ParsedTemplate): string {
    if p.isComponent then FRAGMENT + p.fragment
    else
      Join([p.baseLayout, p.contextLayout, if p.fragment == "" then p.page else p.page + FRAGMENT + p.fragment], SEPARATOR)
  }

  predicate IsPart(s: string) { Trimmed(s) && !IsInvalid(s) }

  /** The records that parsing can produce. */
  predicate WellFormed(p: ParsedTemplate) {
    && p.context == "" && !p.renderAsAdminPage
    && IsPart(p.baseLayout) && IsPart(p.contextLayout) && IsPart(p.page) && IsPart(p.fragment)
    && (p.isComponent ==> p.baseLayout == "" && p.contextLayout == "" && p.page == "" && p.fragment != "")
  }

  lemma FragmentsAreParts(whole: string)
    requires !Contains(whole, SEPARATOR)
    ensures forall k :: 0 <= k < |Split(whole, FRAGMENT)| ==> IsPart(TrimSpace(Split(whole, FRAGMENT)[k]))
  {
    var fragments := Split(whole, FRAGMENT);
    SplitPartsAreFree(whole, FRAGMENT);
    SplitKeepsAbsence(whole, FRAGMENT, SEPARATOR);
    forall k | 0 <= k < |fragments| ensures IsPart(TrimSpace(fragments[k])) {
      TrimSpaceLaws(fragments[k], SEPARATOR);
      TrimSpaceLaws(fragments[k], FRAGMENT);
    }
  }

  lemma OneFragment(whole: string)
    requires |Split(whole, FRAGMENT)| == 1 && Trimmed(whole) && !Contains(whole, SEPARATOR)
    ensures IsPart(whole) && IsPart("")
  {
    SplitPartsAreFree(whole, FRAGMENT);
    assert Split(whole, FRAGMENT)[0] == whole;
  }

  lemma SegmentsAreParts(name: string)
    requires Segments(name).Some?
    ensures var p := Segments(name).value;
            && Trimmed(p.baseLayout) && !Contains(p.baseLayout, SEPARATOR)
            && Trimmed(p.contextLayout) && !Contains(p.contextLayout, SEPARATOR)
            && IsPart(p.page) && IsPart(p.fragment)
  {
    var elem := Split(name, SEPARATOR);
    SplitPartsAreFree(name, SEPARATOR);
    forall k | 0 <= k < |elem| ensures Trimmed(TrimSpace(elem[k])) && !Contains(TrimSpace(elem[k]), SEPARATOR) {
      TrimSpaceLaws(elem[k], SEPARATOR);
    }
    var whole := TrimSpace(elem[|elem| - 1]);
    if |Split(whole, FRAGMENT)| == 1 { OneFragment(whole); } else { FragmentsAreParts(whole); }
  }

  lemma {:induction false} SplitKeepsAbsence(s: string, sep: string, absent: string)
    requires sep != "" && absent != "" && !Contains(s, absent)
    ensures NoneContains(Split(s, sep), absent)
    decreases |s|
  {
    var i := Find(s, sep);
    if i < |s| {
      var first, rest := s[..i], s[i + |sep|..];
      AbsentAround(s, i, i + |sep|, absent);
      SplitKeepsAbsence(rest, sep, absent);
      OneMoreFree(first, Split(rest, sep), absent);
    }
  }

  lemma AbsentAround(s: string, i: nat, j: nat, absent: string)
    requires absent != "" && !Contains(s, absent) && i <= j <= |s|
    ensures !Contains(s[..i], absent) && !Contains(s[j..], absent)
  {
    assert s[0..i] == s[..i] && s[j..|s|] == s[j..];
    PartContains(s, 0, i, absent);
    PartContains(s, j, |s|, absent);
  }

  lemma OneMoreFree(part: string, parts: seq<string>, absent: string)
    requires absent != "" && !Contains(part, absent) && NoneContains(parts, absent)
    ensures NoneContains([part] + parts, absent)
  {
    var all := [part] + parts;
    forall k | 0 <= k < |all| ensures !Contains(all[k], absent) {
      if k > 0 { assert all[k] == parts[k - 1]; }
    }
  }

  /** Only "#" in a layout segment can make the final check of parseTemplateName reject a name. */
  lemma FinalCheckOnlyMeetsFragmentInLayout(name: string)
    requires Segments(name).Some?
    ensures var p := Segments(name).value;
            ParseTemplateName(name).None? <==> Contains(p.baseLayout, FRAGMENT) || Contains(p.contextLayout, FRAGMENT)
  {
    SegmentsAreParts(name);
  }

  /** Whatever parses is well formed; in particular a component has only its fragment. */
  lemma ParsedIsWellFormed(name: string)
    requires ParseTemplateName(name).Some?
    ensures WellFormed(ParseTemplateName(name).value)
  {
    SegmentsAreParts(name);
    var p := ParseTemplateName(name).value;
    if p.isComponent {
      var elem := Split(name, SEPARATOR);
      if |elem| > 1 {
        assert elem[0][0] == name[0];
        LeadingFragmentStays(elem[0]);
        assert false;
      }
      LeadingFragmentStays(name);
      TrimSpaceLaws(name, FRAGMENT);
      var whole := TrimSpace(name);
      assert Split(whole, FRAGMENT)[0] == whole[..0];
    }
  }

  lemma LeadingFragmentStays(s: string)
    requires s != "" && [s[0]] == FRAGMENT
    ensures Contains(TrimSpace(s), FRAGMENT) && TrimSpace(s)[0] == s[0] && Find(TrimSpace(s), FRAGMENT) == 0
  {
    assert TrimLeft(s) == s;
    var j := TrimRightIsPart(s);
    assert j > 0;
    assert s[..j][..1] == FRAGMENT;
  }

  lemma NoSeparatorAt(a: string, b: string, i: nat)
    requires i + 2 <= |a| + 1 + |b|
    requires !OccursAt(a, SEPARATOR, i) && !OccursAt(b, SEPARATOR, i - |a| - 1)
    ensures !OccursAt(a + FRAGMENT + b, SEPARATOR, i)
  {
    var s := a + FRAGMENT + b;
    var w := s[i..i + 2];
    if i + 2 <= |a| {
      assert w == a[i..i + 2];
    } else if i > |a| {
      assert w == b[i - |a| - 1..i - |a| + 1];
    } else {
      assert w[|a| - i] == '#';
    }
  }

  /** "#" between two texts makes no new separator. */
  lemma FragmentMakesNoSeparator(a: string, b: string)
    requires !Contains(a, SEPARATOR) && !Contains(b, SEPARATOR)
    ensures !Contains(a + FRAGMENT + b, SEPARATOR)
  {
    ContainsIffOccurs(a, SEPARATOR);
    ContainsIffOccurs(b, SEPARATOR);
    ContainsIffOccurs(a + FRAGMENT + b, SEPARATOR);
    forall i ensures !OccursAt(a + FRAGMENT + b, SEPARATOR, i) {
      if 0 <= i && i + 2 <= |a| + 1 + |b| { NoSeparatorAt(a, b, i); }
    }
  }

  lemma SeparatorIsBorderFree()
    ensures BorderFree(SEPARATOR)
  {
    assert SEPARATOR[1..] == ">" && SEPARATOR[..1] == "=";
  }

  lemma SplitWhole(whole: string, page: string, fragment: string)
    requires !Contains(page, FRAGMENT) && !Contains(fragment, FRAGMENT)
    requires whole == if fragment == "" then page else page + FRAGMENT + fragment
    ensures Split(whole, FRAGMENT) == if fragment == "" then [page] else [page, fragment]
  {
    if fragment != "" {
      assert Join([page, fragment][1..], FRAGMENT) == fragment;
      SplitOfJoin([page, fragment], FRAGMENT);
    }
  }

  function Whole(p: ParsedTemplate): string {
    if p.fragment == "" then p.page else p.page + FRAGMENT + p.fragment
  }

  lemma WholeIsSegment(p: ParsedTemplate)
    requires WellFormed(p)
    ensures var w := Whole(p);
            && TrimSpace(w) == w && !Contains(w, SEPARATOR)
            && Split(w, FRAGMENT) == (if p.fragment == "" then [p.page] else [p.page, p.fragment])
            && TrimSpace(p.page) == p.page && TrimSpace(p.fragment) == p.fragment
  {
    var w := Whole(p);
    WholeIsTrimmed(p.page, p.fragment);
    FragmentMakesNoSeparator(p.page, p.fragment);
    SplitWhole(w, p.page, p.fragment);
    TrimSpaceLaws(w, SEPARATOR);
    TrimSpaceLaws(p.page, SEPARATOR);
    TrimSpaceLaws(p.fragment, SEPARATOR);
  }

  lemma WholeIsTrimmed(page: string, fragment: string)
    requires Trimmed(page) && Trimmed(fragment)
    ensures fragment != "" ==> Trimmed(page + FRAGMENT + fragment)
  {
    var w := page + FRAGMENT + fragment;
    assert w[0] == (if page == "" then '#' else page[0]);
    assert fragment != "" ==> w[|w| - 1] == fragment[|fragment| - 1];
  }

  lemma ParseOfComponent(p: ParsedTemplate)
    requires WellFormed(p) && p.isComponent
    ensures ParseTemplateName(PrintTemplateName(p)) == Some(p)
  {
    WholeIsSegment(p);
    var name := PrintTemplateName(p);
    assert name == Whole(p);
    assert Split(name, SEPARATOR) == [name];
  }

  lemma SplitOfPage(p: ParsedTemplate)
    requires WellFormed(p) && !p.isComponent
    ensures Split(PrintTemplateName(p), SEPARATOR) == [p.baseLayout, p.contextLayout, Whole(p)]
    ensures PrintTemplateName(p) != "" && [PrintTemplateName(p)[0]] != FRAGMENT
  {
    FragmentMakesNoSeparator(p.page, p.fragment);
    var parts := [p.baseLayout, p.contextLayout, Whole(p)];
    assert NoneContains(parts, SEPARATOR);
    SeparatorIsBorderFree();
    SplitOfJoin(parts, SEPARATOR);
    FirstIsNotFragment(p.baseLayout, Join(parts[1..], SEPARATOR));
    assert Join(parts, SEPARATOR) == p.baseLayout + SEPARATOR + Join(parts[1..], SEPARATOR);
  }

  lemma SegmentsOfPage(p: ParsedTemplate)
    requires WellFormed(p) && !p.isComponent
    ensures FromSegments([p.baseLayout, p.contextLayout, Whole(p)], false) == Some(p)
  {
    WholeIsSegment(p);
    TrimSpaceLaws(p.baseLayout, SEPARATOR);
    TrimSpaceLaws(p.contextLayout, SEPARATOR);
    var elem := [p.baseLayout, p.contextLayout, Whole(p)];
    assert elem[0] == p.baseLayout && elem[1] == p.contextLayout && elem[2] == Whole(p);
  }

  lemma ParseOfPage(p: ParsedTemplate)
    requires WellFormed(p) && !p.isComponent
    ensures ParseTemplateName(PrintTemplateName(p)) == Some(p)
  {
    var name := PrintTemplateName(p);
    SplitOfPage(p);
    SegmentsOfPage(p);
    assert Segments(name) == Some(p);
  }

  lemma FirstIsNotFragment(a: string, rest: string)
    requires !Contains(a, FRAGMENT)
    ensures [(a + SEPARATOR + rest)[0]] != FRAGMENT
  {
    if a != "" { assert [a[0]] == a[..1]; }
  }

  /** Parsing the canonical name of a well-formed record gives the record back. */
  lemma ParseOfPrint(p: ParsedTemplate)
    requires WellFormed(p)
    ensures ParseTemplateName(PrintTemplateName(p)) == Some(p)
  {
    if p.isComponent { ParseOfComponent(p); } else { ParseOfPage(p); }
  }

  /** A separator in front adds an empty segment in front. */
  lemma SplitPadded(name: string)
    ensures Split(SEPARATOR + name, SEPARATOR) == [""] + Split(name, SEPARATOR)
  {
    var padded := SEPARATOR + name;
    assert padded[..2] == SEPARATOR && padded[0 + |SEPARATOR|..] == name;
    assert Find(padded, SEPARATOR) == 0;
  }

  /**
   A short name is a long one with empty segments in front: for any name of one or two segments that is no component,
   putting a separator before it changes nothing. `ParseOfPrint` says what the long names mean.
   */
  lemma ShortNameIsPadded(name: string)
    requires |Split(name, "=>")| < 3 && !("#" <= name)
    ensures ParseTemplateName("=>" + name) == ParseTemplateName(name)
  {
    var elem := Split(name, SEPARATOR);
    var padded := SEPARATOR + name;
    SplitPadded(name);
    assert padded[0] != FRAGMENT[0];
    if name != "" { assert name[..1] == [name[0]]; }
    EmptyIsTrimmed();
    assert ([""] + elem)[|elem|] == elem[|elem| - 1];
    SegmentsPadded(elem);
  }

  lemma EmptyIsTrimmed()
    ensures TrimSpace("") == ""
  {
  }

  lemma SegmentsPadded(elem: seq<string>)
    requires 0 < |elem| < MAX_SEGMENTS
    ensures FromSegments([""] + elem, false) == FromSegments(elem, false)
  {
    EmptyIsTrimmed();
    var padded := [""] + elem;
    assert padded[|elem|] == elem[|elem| - 1];
    if |elem| == 2 { assert padded[1] == elem[0]; }
  }

  /** A name that begins with the fragment mark is a component, and no other name is; the marks allowed are few. */
  lemma ComponentIff(name: string)
    requires ParseTemplateName(name).Some?
    ensures ParseTemplateName(name).value.isComponent <==> "#" <= name
    ensures var elem := Split(name, "=>");
            |elem| <= 3 && |Split(TrimSpace(elem[|elem| - 1]), "#")| <= 2
  {
    if name != "" && [name[0]] == FRAGMENT { assert name[..1] == FRAGMENT; }
  }

  /** Printing and parsing undo each other on every accepted name. */
  lemma RoundTrip(name: string)
    requires ParseTemplateName(name).Some?
    ensures ParseTemplateName(PrintTemplateName(ParseTemplateName(name).value)) == ParseTemplateName(name)
  {
    ParsedIsWellFormed(name);
    ParseOfPrint(ParseTemplateName(name).value);
  }
}
