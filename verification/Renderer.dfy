/**
 The renderer's template cache. A template is built from the views of the shared and of the added contexts and is
 cached under a printed key; rendering a component also leaves an alias among the components of its context.
 */
module Renderer {
  import opened Options
  import opened Strings
  import opened TemplateNames

  const SHARED := ""
  const ADMIN := "admin"
  const CONTENT_BLOCK := "{{block \"content\" .}}{{end}}"
  const SLASH := "/"

  type Texts = map<string, string>

  datatype View = View(layouts: Texts, pages: Texts, defaultLayout: string, components: Texts)
  const NO_VIEW := View(map[], map[], "", map[])

  type Views = map<string, View>

  /** What html/template gets to see: the texts by their role, and the components they can call. */
  datatype Template =
    | Component(text: string, components: Texts)
    | Page(root: string, layout: Option<string>, content: string, components: Texts)

  datatype Error = InvalidName | NoComponent | NoPage | NoLayout | NilComponents
  datatype Result = Built(template: Template) | Failed(error: Error)

  /** A Go map gives the zero value for a missing key. */
  function Text(m: Texts, name: string): string { if name in m then m[name] else "" }
  function ViewOf(views: Views, context: string): View { if context in views then views[context] else NO_VIEW }

  /** A blank definition of a template does not replace an earlier one of the same name. */
  predicate IsBlank(text: string) { TrimSpace(text) == "" }

  function Redefined(earlier: string, text: string): string { if IsBlank(text) then earlier else text }

  function TrimPrefix(s: string, prefix: string): string {
    if prefix <= s then s[|prefix|..] else s
  }

  /** (is a context, is below admin, name of the context) */
  function IsContext(context: string): (bool, bool, string) {
    var path := TrimPrefix(context, SLASH);
    if context == "" then (false, false, SHARED)
    else if ADMIN + SLASH <= path then (true, true, TrimPrefix(path, ADMIN + SLASH))
    else (true, false, context)
  }

  /** The layouts that getParsedTemplate gives a parsed name once its context is known. */
  function WithLayouts(views: Views, isContext: bool, p1: ParsedTemplate): ParsedTemplate {
    var p2 := if isContext && p1.contextLayout == "" then
                p1.(contextLayout := ViewOf(views, p1.context).defaultLayout)
              else p1;
    var p3 := if p2.context == SHARED then p2.(baseLayout := p2.contextLayout, contextLayout := "") else p2;
    if !p3.isComponent && p3.baseLayout == "" then
      p3.(baseLayout := ViewOf(views, SHARED).defaultLayout)
    else p3
  }

  function Resolve(views: Views, context: string, parsed: ParsedTemplate): ParsedTemplate {
    var (isContext, isAdmin, name) := IsContext(context);
    WithLayouts(views, isContext, parsed.(context := name, renderAsAdminPage := isAdmin))
  }

  function GetParsedTemplate(views: Views, context: string, templateName: string): Option<ParsedTemplate> {
    match ParseTemplateName(templateName)
    case None => None
    case Some(parsed) => Some(Resolve(views, context, parsed))
  }

  function Key(p: ParsedTemplate): string {
    if p.isComponent then p.context + SLASH + p.fragment
    else p.context + SLASH + Join([p.baseLayout, p.contextLayout, p.page], SEPARATOR)
  }

  /** buildPageTemplate without its effect on the views; its isContext is `p.context != ""`. */
  function Build(views: Views, p: ParsedTemplate): Result {
    if p.context !in views then Failed(NilComponents)
    else
      var view := views[p.context];
      var shared := ViewOf(views, SHARED);
      if p.isComponent then
        if p.fragment in view.components then
          var text := view.components[p.fragment];
          Built(Component(text, view.components[Key(p) := text]))
        else Failed(NoComponent)
      else
        var withoutLayout := p.baseLayout == "" && p.contextLayout == "";
        var admin := ViewOf(views, ADMIN);
        if !withoutLayout && p.baseLayout !in shared.layouts then Failed(NoLayout)
        else if !withoutLayout && p.renderAsAdminPage && Text(admin.layouts, p.baseLayout) == "" then Failed(NoLayout)
        else if p.page !in view.pages && p.page !in shared.pages then Failed(NoPage)
        else
          var content := if p.page in view.pages then view.pages[p.page] else shared.pages[p.page];
          if withoutLayout then Built(Page(CONTENT_BLOCK, None, content, view.components))
          else
            Built(Page(shared.layouts[p.baseLayout], LayoutText(view, admin, p), content, view.components))
  }

  /** The text of the template "layout": the context's, and below admin the admin context's on top of it. */
  function LayoutText(view: View, admin: View, p: ParsedTemplate): Option<string> {
    var own, admins := Text(view.layouts, p.contextLayout), Text(admin.layouts, p.contextLayout);
    if !p.renderAsAdminPage then if p.context == "" then None else Some(own)
    else if p.context == "" then Some(admins)
    else Some(Redefined(own, admins))
  }

  /** The alias that building a component adds to the components it was found in. */
  function WithAlias(views: Views, p: ParsedTemplate): Views {
    if p.isComponent && p.context in views && p.fragment in views[p.context].components then
      var view := views[p.context];
      views[p.context := view.(components := view.components[Key(p) := view.components[p.fragment]])]
    else views
  }

  predicate CanAdd(views: Views, name: string) { name != "" && name !in views }

  function WithContext(views: Views, name: string, view: View): Views {
    if CanAdd(views, name) then
      views[name := view.(components := ViewOf(views, SHARED).components + view.components)]
    else views
  }

  // ----- the renderer as a state machine -----

  /** A template with the request it was built for; html/template refuses to clone it once it was executed. */
  datatype Entry = Entry(template: Template, madeFor: ParsedTemplate, executed: bool)

  /** `inFlight` are templates that concurrent calls of Render have built but not yet stored. */
  datatype State = State(views: Views, cache: map<string, Entry>, inFlight: seq<Entry>)

  datatype Event =
    | AddContext(name: string, view: View)
    | Request(context: string, templateName: string)  // Render up to the built template
    | Store(index: nat)                               // one of them stores its template
    | Execute(key: string, localised: bool)           // Render executes the cached template, or a localised clone
    | Reload                                          // hot reload clears the cache

  function New(shared: View): State { State(map[SHARED := shared], map[], []) }

  /** The template that Render continues with. */
  function Serve(s: State, request: Option<ParsedTemplate>): Result {
    match request
    case None => Failed(InvalidName)
    case Some(p) => if Key(p) in s.cache then Built(s.cache[Key(p)].template) else Build(s.views, p)
  }

  function AfterRequest(s: State, request: Option<ParsedTemplate>): State {
    match request
    case None => s
    case Some(p) =>
      if Key(p) in s.cache || Build(s.views, p).Failed? then s
      else s.(views := WithAlias(s.views, p), inFlight := s.inFlight + [Entry(Build(s.views, p).template, p, false)])
  }

  function Step(s: State, e: Event): State {
    match e
    case AddContext(name, view) => s.(views := WithContext(s.views, name, view))
    case Request(context, templateName) => AfterRequest(s, GetParsedTemplate(s.views, context, templateName))
    case Store(i) =>
      if i < |s.inFlight| then
        s.(cache := s.cache[Key(s.inFlight[i].madeFor) := s.inFlight[i]], inFlight := s.inFlight[..i] + s.inFlight[i + 1..])
      else s
    case Execute(key, localised) => s.(cache := Executed(s.cache, key, localised))
    case Reload => s.(cache := map[])
  }

  function Executed(cache: map<string, Entry>, key: string, localised: bool): map<string, Entry> {
    if key in cache && !localised then cache[key := cache[key].(executed := true)] else cache
  }

  function Run(shared: View, events: seq<Event>): State {
    if events == [] then New(shared) else Step(Run(shared, events[..|events| - 1]), events[|events| - 1])
  }

  /** The views after the same events if nothing had ever been rendered. */
  function Config(shared: View, events: seq<Event>): Views {
    if events == [] then New(shared).views
    else
      var before := Config(shared, events[..|events| - 1]);
      var e := events[|events| - 1];
      if e.AddContext? then WithContext(before, e.name, e.view) else before
  }

  // ----- what the renderer is used with -----

  /** Component files have no slash in their names, and the only default layout is called "default". */
  ghost predicate TameView(view: View) {
    && (forall name :: name in view.components ==> !Contains(name, SLASH))
    && !Contains(view.defaultLayout, SEPARATOR)
  }

  /** No slash in the context and in the component; the context is requested always or never below admin. */
  predicate TameRequest(belowAdmin: string -> bool, context: string, parsed: Option<ParsedTemplate>) {
    var (_, isAdmin, name) := IsContext(context);
    && !Contains(name, SLASH)
    && isAdmin == belowAdmin(name)
    && (parsed.Some? && parsed.value.isComponent ==> !Contains(parsed.value.fragment, SLASH))
  }

  ghost predicate TameEvent(belowAdmin: string -> bool, e: Event) {
    match e
    case AddContext(name, view) => !Contains(name, SLASH) && TameView(view)
    case Request(context, templateName) => TameRequest(belowAdmin, context, ParseTemplateName(templateName))
    case _ => true
  }

  ghost predicate TameRun(belowAdmin: string -> bool, shared: View, events: seq<Event>) {
    TameView(shared) && forall k :: 0 <= k < |events| ==> TameEvent(belowAdmin, events[k])
  }

  predicate TameParsed(p: ParsedTemplate) {
    && !Contains(p.context, SLASH)
    && !Contains(p.baseLayout, SEPARATOR) && !Contains(p.contextLayout, SEPARATOR)
    && !Contains(p.page, SEPARATOR) && !Contains(p.fragment, SEPARATOR)
    && (p.isComponent ==> !Contains(p.fragment, SLASH))
  }

  // ----- the key -----

  /** What buildPageTemplate reads of a request, apart from renderAsAdminPage. */
  predicate SameInputs(p: ParsedTemplate, q: ParsedTemplate) {
    && p.isComponent == q.isComponent && p.context == q.context
    && (if p.isComponent then p.fragment == q.fragment
        else p.baseLayout == q.baseLayout && p.contextLayout == q.contextLayout && p.page == q.page)
  }

  function AfterContext(p: ParsedTemplate): string {
    if p.isComponent then p.fragment else Join([p.baseLayout, p.contextLayout, p.page], SEPARATOR)
  }

  lemma AfterContextSplits(p: ParsedTemplate)
    requires TameParsed(p)
    ensures Split(AfterContext(p), SEPARATOR)
         == if p.isComponent then [p.fragment] else [p.baseLayout, p.contextLayout, p.page]
  {
    if !p.isComponent {
      var parts := [p.baseLayout, p.contextLayout, p.page];
      assert NoneContains(parts, SEPARATOR);
      SeparatorIsBorderFree();
      SplitOfJoin(parts, SEPARATOR);
    }
  }

  /** Two requests have the same key exactly if they agree on what is read; a component never has a page's key. */
  lemma KeyIsInjective(p: ParsedTemplate, q: ParsedTemplate)
    requires TameParsed(p) && TameParsed(q)
    ensures Key(p) == Key(q) <==> SameInputs(p, q)
  {
    if Key(p) == Key(q) {
      FindFirst(p.context, SLASH, AfterContext(p));
      FindFirst(q.context, SLASH, AfterContext(q));
      assert Key(p) == p.context + SLASH + AfterContext(p);
      assert Key(q) == q.context + SLASH + AfterContext(q);
      var n := |p.context|;
      assert p.context == Key(p)[..n] && q.context == Key(q)[..n];
      assert AfterContext(p) == Key(p)[n + 1..] && AfterContext(q) == Key(q)[n + 1..];
      AfterContextSplits(p);
      AfterContextSplits(q);
    }
  }

  // ----- aliases do not matter -----

  function Visible(components: Texts): Texts {
    map name | name in components && !Contains(name, SLASH) :: components[name]
  }

  ghost predicate SameUpToAliases(live: Result, clean: Result) {
    match (live, clean)
    case (Built(Component(t, c)), Built(Component(t', c'))) => t == t' && Visible(c) == Visible(c')
    case (Built(Page(r, l, t, c)), Built(Page(r', l', t', c'))) =>
      r == r' && l == l' && t == t' && Visible(c) == Visible(c')
    case (Failed(e), Failed(e')) => e == e'
    case _ => false
  }

  /** The live views are the configured ones plus aliases. */
  ghost predicate Extends(views: Views, config: Views) {
    && SHARED in config && views.Keys == config.Keys
    && forall c :: c in config ==>
         && views[c] == config[c].(components := views[c].components)
         && Visible(views[c].components) == config[c].components
         && !Contains(config[c].defaultLayout, SEPARATOR)
  }

  lemma VisibleTwice(components: Texts)
    ensures Visible(Visible(components)) == Visible(components)
  {
  }

  lemma BuildAgrees(views: Views, config: Views, p: ParsedTemplate)
    requires Extends(views, config) && TameParsed(p)
    ensures SameUpToAliases(Build(views, p), Build(config, p))
  {
    if p.context in config && p.isComponent {
      var live := views[p.context].components;
      assert p.fragment in live <==> p.fragment in Visible(live);
      if p.fragment in live {
        AliasIsInvisible(live, p, live[p.fragment]);
        AliasIsInvisible(config[p.context].components, p, live[p.fragment]);
        VisibleTwice(live);
      }
    } else if p.context in config {
      VisibleTwice(views[p.context].components);
    }
  }

  lemma AliasIsInvisible(components: Texts, p: ParsedTemplate, text: string)
    ensures Visible(components[Key(p) := text]) == Visible(components)
  {
    ContainsIffOccurs(Key(p), SLASH);
    assert OccursAt(Key(p), SLASH, |p.context|);
  }

  lemma AliasKeepsExtends(views: Views, config: Views, p: ParsedTemplate)
    requires Extends(views, config)
    ensures Extends(WithAlias(views, p), config)
  {
    var after := WithAlias(views, p);
    if after != views {
      AliasIsInvisible(views[p.context].components, p, views[p.context].components[p.fragment]);
    }
  }

  lemma VisibleOfMerge(a: Texts, b: Texts)
    requires forall name :: name in b ==> !Contains(name, SLASH)
    ensures Visible(a + b) == Visible(a) + b
  {
  }

  lemma AddKeepsExtends(views: Views, config: Views, name: string, view: View)
    requires Extends(views, config) && TameView(view)
    ensures Extends(WithContext(views, name, view), WithContext(config, name, view))
  {
    if CanAdd(views, name) {
      VisibleOfMerge(views[SHARED].components, view.components);
    }
  }

  /** A build that succeeded gives the same template after another context was added. */
  lemma BuildIsMonotone(config: Views, name: string, view: View, p: ParsedTemplate)
    requires SHARED in config && Build(config, p).Built?
    ensures Build(WithContext(config, name, view), p) == Build(config, p)
  {
  }

  lemma ResolvedIsTame(views: Views, config: Views, belowAdmin: string -> bool, context: string, parsed: ParsedTemplate)
    requires Extends(views, config) && WellFormed(parsed) && TameRequest(belowAdmin, context, Some(parsed))
    ensures var p := Resolve(views, context, parsed);
            && p == Resolve(config, context, parsed)
            && TameParsed(p) && p.renderAsAdminPage == belowAdmin(p.context)
  {
    var (isContext, isAdmin, name) := IsContext(context);
    WithLayoutsAgrees(views, config, isContext, parsed.(context := name, renderAsAdminPage := isAdmin));
    WithLayoutsIsTame(config, isContext, parsed.(context := name, renderAsAdminPage := isAdmin));
  }

  lemma WithLayoutsAgrees(views: Views, config: Views, isContext: bool, p: ParsedTemplate)
    requires Extends(views, config)
    ensures WithLayouts(views, isContext, p) == WithLayouts(config, isContext, p)
  {
    assert ViewOf(views, p.context).defaultLayout == ViewOf(config, p.context).defaultLayout;
  }

  lemma WithLayoutsIsTame(config: Views, isContext: bool, p: ParsedTemplate)
    requires (forall c :: c in config ==> !Contains(config[c].defaultLayout, SEPARATOR)) && TameParsed(p)
    ensures var q := WithLayouts(config, isContext, p);
            TameParsed(q) && q.context == p.context && q.renderAsAdminPage == p.renderAsAdminPage
  {
    var none := "";
    assert !Contains(none, SEPARATOR);
    assert !Contains(ViewOf(config, p.context).defaultLayout, SEPARATOR);
    assert !Contains(ViewOf(config, SHARED).defaultLayout, SEPARATOR);
  }

  // ----- every run -----

  ghost predicate EntryAgrees(belowAdmin: string -> bool, config: Views, e: Entry) {
    && TameParsed(e.madeFor)
    && e.madeFor.renderAsAdminPage == belowAdmin(e.madeFor.context)
    && Build(config, e.madeFor).Built?
    && SameUpToAliases(Built(e.template), Build(config, e.madeFor))
  }

  ghost predicate Inv(belowAdmin: string -> bool, config: Views, s: State) {
    && Extends(s.views, config)
    && (forall k :: k in s.cache ==> Key(s.cache[k].madeFor) == k && EntryAgrees(belowAdmin, config, s.cache[k]))
    && (forall i :: 0 <= i < |s.inFlight| ==> EntryAgrees(belowAdmin, config, s.inFlight[i]))
  }

  lemma RequestKeepsInv(belowAdmin: string -> bool, config: Views, s: State, p: ParsedTemplate)
    requires Inv(belowAdmin, config, s)
    requires TameParsed(p) && p.renderAsAdminPage == belowAdmin(p.context)
    ensures Inv(belowAdmin, config, AfterRequest(s, Some(p)))
  {
    AliasKeepsExtends(s.views, config, p);
    BuildAgrees(s.views, config, p);
  }

  lemma AddContextKeepsInv(belowAdmin: string -> bool, config: Views, s: State, name: string, view: View)
    requires Inv(belowAdmin, config, s) && TameView(view)
    ensures Inv(belowAdmin, WithContext(config, name, view), s.(views := WithContext(s.views, name, view)))
  {
    AddKeepsExtends(s.views, config, name, view);
    forall entry: Entry | EntryAgrees(belowAdmin, config, entry)
      ensures EntryAgrees(belowAdmin, WithContext(config, name, view), entry)
    {
      BuildIsMonotone(config, name, view, entry.madeFor);
    }
  }

  lemma RequestEventKeepsInv(belowAdmin: string -> bool, config: Views, s: State, context: string, templateName: string)
    requires Inv(belowAdmin, config, s) && TameEvent(belowAdmin, Request(context, templateName))
    ensures Inv(belowAdmin, config, Step(s, Request(context, templateName)))
  {
    var parsed := ParseTemplateName(templateName);
    if parsed.Some? {
      ParsedIsWellFormed(templateName);
      ResolvedIsTame(s.views, config, belowAdmin, context, parsed.value);
      RequestKeepsInv(belowAdmin, config, s, Resolve(s.views, context, parsed.value));
    }
  }

  lemma StepKeepsInv(belowAdmin: string -> bool, config: Views, s: State, e: Event)
    requires Inv(belowAdmin, config, s) && TameEvent(belowAdmin, e)
    ensures Inv(belowAdmin, if e.AddContext? then WithContext(config, e.name, e.view) else config, Step(s, e))
  {
    match e
    case AddContext(name, view) => AddContextKeepsInv(belowAdmin, config, s, name, view);
    case Request(context, templateName) => RequestEventKeepsInv(belowAdmin, config, s, context, templateName);
    case Store(i) => StoreKeepsInv(belowAdmin, config, s, i);
    case Execute(key, localised) =>
      forall k | k in Step(s, e).cache
        ensures Key(Step(s, e).cache[k].madeFor) == k && EntryAgrees(belowAdmin, config, Step(s, e).cache[k])
      {
        assert EntryAgrees(belowAdmin, config, s.cache[k]);
      }
    case Reload =>
  }

  lemma StoreKeepsInv(belowAdmin: string -> bool, config: Views, s: State, i: nat)
    requires Inv(belowAdmin, config, s)
    ensures Inv(belowAdmin, config, Step(s, Store(i)))
  {
  }

  lemma {:induction false} RunKeepsInv(belowAdmin: string -> bool, shared: View, events: seq<Event>)
    requires TameRun(belowAdmin, shared, events)
    ensures Inv(belowAdmin, Config(shared, events), Run(shared, events))
  {
    if events == [] {
      assert Visible(shared.components) == shared.components;
    } else {
      var before := events[..|events| - 1];
      var e := events[|events| - 1];
      assert TameRun(belowAdmin, shared, before);
      RunKeepsInv(belowAdmin, shared, before);
      StepKeepsInv(belowAdmin, Config(shared, before), Run(shared, before), e);
    }
  }

  /**
   The cache agrees with a fresh build: in every run, with any interleaving of requests, stores, reloads and added
   contexts, what a request is served, template or error, is what a renderer that has never rendered would build.
   */
  lemma CacheAgreesWithFreshBuild(belowAdmin: string -> bool, shared: View, events: seq<Event>,
                                  context: string, templateName: string)
    requires TameRun(belowAdmin, shared, events) && TameRequest(belowAdmin, context, ParseTemplateName(templateName))
    ensures var s, config := Run(shared, events), Config(shared, events);
            SameUpToAliases(
              Serve(s, GetParsedTemplate(s.views, context, templateName)),
              Serve(State(config, map[], []), GetParsedTemplate(config, context, templateName)))
  {
    RunKeepsInv(belowAdmin, shared, events);
    if ParseTemplateName(templateName).Some? {
      ParsedIsWellFormed(templateName);
      var parsed := ParseTemplateName(templateName).value;
      var s, config := Run(shared, events), Config(shared, events);
      ResolvedIsTame(s.views, config, belowAdmin, context, parsed);
      ServeAgrees(belowAdmin, config, s, Resolve(s.views, context, parsed));
    }
  }

  lemma ServeAgrees(belowAdmin: string -> bool, config: Views, s: State, p: ParsedTemplate)
    requires Inv(belowAdmin, config, s)
    requires TameParsed(p) && p.renderAsAdminPage == belowAdmin(p.context)
    ensures SameUpToAliases(Serve(s, Some(p)), Build(config, p))
  {
    BuildAgrees(s.views, config, p);
    if Key(p) in s.cache {
      var q := s.cache[Key(p)].madeFor;
      KeyIsInjective(p, q);
      SameInputsSameBuild(config, p, q);
    }
  }

  lemma SameInputsSameBuild(views: Views, p: ParsedTemplate, q: ParsedTemplate)
    requires SameInputs(p, q) && p.renderAsAdminPage == q.renderAsAdminPage
    ensures Build(views, p) == Build(views, q)
  {
  }

  /**
   Why a context must not be requested both plainly and below admin: both requests have one key, and their fresh
   builds agree exactly if the admin context has a non-empty base, and its layout is blank or repeats the context's.
   */
  lemma MixedUseAgreesIff(views: Views, p: ParsedTemplate)
    requires !p.isComponent && p.context != SHARED && !p.renderAsAdminPage && Build(views, p).Built?
    ensures var below := p.(renderAsAdminPage := true);
            && Key(below) == Key(p)
            && (Build(views, below) == Build(views, p) <==>
                  || (p.baseLayout == "" && p.contextLayout == "")
                  || (Text(ViewOf(views, ADMIN).layouts, p.baseLayout) != ""
                      && (var admins := Text(ViewOf(views, ADMIN).layouts, p.contextLayout);
                          IsBlank(admins) || admins == Text(views[p.context].layouts, p.contextLayout))))
  {
  }

  /** And the cache does serve the wrong one: once the page was stored below admin, it is what a plain request gets. */
  lemma MixedUseIsServed(s: State, p: ParsedTemplate)
    requires s.inFlight == [] && !p.isComponent && Key(p) !in s.cache
    requires Build(s.views, p.(renderAsAdminPage := true)).Built?
    ensures var below := p.(renderAsAdminPage := true);
            var stored := StoreFirst(AfterRequest(s, Some(below)));
            Serve(stored, Some(p.(renderAsAdminPage := false))) == Build(s.views, below)
  {
    var below := p.(renderAsAdminPage := true);
    assert Key(below) == Key(p) == Key(p.(renderAsAdminPage := false));
  }

  function StoreFirst(s: State): State { Step(s, Store(0)) }

  lemma ParsedPage()
    ensures ParseTemplateName("p") == Some(ParsedTemplate("", "", "", "p", "", false, false))
  {
    var p := "p";
    TrimSpaceLaws(p, SEPARATOR);
    assert Split(p, SEPARATOR) == [p];
    assert p[1..] == "" && Find("", FRAGMENT) == 0;
    assert Find(p, FRAGMENT) == 1 && Split(p, FRAGMENT) == [p];
    assert !IsInvalid(p) && !IsInvalid("");
  }

  lemma OneMoreEvent(shared: View, events: seq<Event>, e: Event)
    ensures Run(shared, events + [e]) == Step(Run(shared, events), e)
  {
    assert (events + [e])[..|events|] == events;
  }

  const SHARED_VIEW := View(map["b" := "base"], map["p" := "page"], "b", map[])
  const ADMIN_VIEW := View(map["b" := "base", "l" := "admin layout"], map[], "", map[])
  const SHOP_VIEW := View(map["l" := "shop layout"], map[], "l", map[])

  const ADDED := [AddContext("admin", ADMIN_VIEW), AddContext("shop", SHOP_VIEW)]

  lemma AddedViews()
    ensures Run(SHARED_VIEW, ADDED)
         == State(map["" := SHARED_VIEW, "admin" := ADMIN_VIEW, "shop" := SHOP_VIEW], map[], [])
  {
    OneMoreEvent(SHARED_VIEW, [], ADDED[0]);
    OneMoreEvent(SHARED_VIEW, [ADDED[0]], ADDED[1]);
    assert [] + [ADDED[0]] == [ADDED[0]] && [ADDED[0]] + [ADDED[1]] == ADDED;
  }

  /** Such a run: the page "p" of the context "shop", first requested below admin, is then served with admin's layout. */
  lemma MixedUseExample()
    ensures var s := Run(SHARED_VIEW, ADDED + [Request("admin/shop", "p")] + [Store(0)]);
            var clean := Run(SHARED_VIEW, ADDED);
            && Serve(s, GetParsedTemplate(s.views, "shop", "p"))
               == Built(Page("base", Some("admin layout"), "page", map[]))
            && Serve(clean, GetParsedTemplate(clean.views, "shop", "p"))
               == Built(Page("base", Some("shop layout"), "page", map[]))
  {
    AddedViews();
    var clean := Run(SHARED_VIEW, ADDED);
    ShopRequests(clean.views);
    ShopServes(clean);
    OneMoreEvent(SHARED_VIEW, ADDED, Request("admin/shop", "p"));
    OneMoreEvent(SHARED_VIEW, ADDED + [Request("admin/shop", "p")], Store(0));
  }

  lemma ShopServes(clean: State)
    requires clean == State(map["" := SHARED_VIEW, "admin" := ADMIN_VIEW, "shop" := SHOP_VIEW], map[], [])
    ensures var plain := ParsedTemplate("shop", "b", "l", "p", "", false, false);
            var s := StoreFirst(AfterRequest(clean, Some(plain.(renderAsAdminPage := true))));
            && s.views == clean.views
            && Serve(s, Some(plain)) == Built(Page("base", Some("admin layout"), "page", map[]))
            && Serve(clean, Some(plain)) == Built(Page("base", Some("shop layout"), "page", map[]))
  {
    ShopBuilds(clean.views);
    MixedUseIsServed(clean, ParsedTemplate("shop", "b", "l", "p", "", false, false));
  }

  lemma ShopBuilds(views: Views)
    requires views == map["" := SHARED_VIEW, "admin" := ADMIN_VIEW, "shop" := SHOP_VIEW]
    ensures var plain := ParsedTemplate("shop", "b", "l", "p", "", false, false);
            && Build(views, plain) == Built(Page("base", Some("shop layout"), "page", map[]))
            && Build(views, plain.(renderAsAdminPage := true)) == Built(Page("base", Some("admin layout"), "page", map[]))
  {
  }

  lemma ShopRequests(views: Views)
    requires views == map["" := SHARED_VIEW, "admin" := ADMIN_VIEW, "shop" := SHOP_VIEW]
    ensures var plain := ParsedTemplate("shop", "b", "l", "p", "", false, false);
            && GetParsedTemplate(views, "shop", "p") == Some(plain)
            && GetParsedTemplate(views, "admin/shop", "p") == Some(plain.(renderAsAdminPage := true))
  {
    ParsedPage();
    var below := "admin/shop";
    assert ADMIN + SLASH == "admin/" && below[..6] == "admin/" && below[6..] == "shop";
    assert below[0] != SLASH[0];
    assert TrimPrefix(below, SLASH) == below;
    var plain := "shop";
    assert TrimPrefix(plain, SLASH) == plain;
    assert !(ADMIN + SLASH <= plain);
    assert IsContext(below) == (true, true, "shop") && IsContext(plain) == (true, false, "shop");
  }

  /** Why a component's name must not contain a slash: rendering one component makes its key a component. */
  lemma AliasBecomesComponent(views: Views, p: ParsedTemplate)
    requires p.isComponent && Build(views, p).Built? && Key(p) !in views[p.context].components
    ensures var q := p.(fragment := Key(p));
            && Build(views, q) == Failed(NoComponent)
            && Build(WithAlias(views, p), q).Built?
  {
  }

  // ----- what is built, said of the views -----

  /** A context is what the path says; below "admin/", with or without a slash before it, what follows. */
  lemma ContextIs(context: string, name: string)
    ensures IsContext("admin/" + name) == (true, true, name) && IsContext("/admin/" + name) == (true, true, name)
    ensures context != "" && !("admin/" <= context) && !("/admin/" <= context) ==> IsContext(context) == (true, false, context)
    ensures IsContext("") == (false, false, "")
  {
    var plain, slashed := "admin/" + name, "/admin/" + name;
    assert plain[0] != SLASH[0] && plain[6..] == name;
    assert slashed[1..] == plain;
    assert TrimPrefix(plain, SLASH) == plain && TrimPrefix(slashed, SLASH) == plain;
    assert ADMIN + SLASH == "admin/";
    if SLASH <= context && "admin/" <= context[1..] {
      assert context == SLASH + context[1..];
      assert "/admin/" <= context;
    }
  }

  /** A name that is given wins over the default: the context's for its layout, the shared one for the base. */
  lemma LayoutsAre(views: Views, context: string, parsed: ParsedTemplate)
    ensures var p := Resolve(views, context, parsed);
            var shared := ViewOf(views, "");
            && p.page == parsed.page && p.fragment == parsed.fragment && p.isComponent == parsed.isComponent
            && (p.context != "" ==>
                  && p.contextLayout == (if parsed.contextLayout == "" then ViewOf(views, p.context).defaultLayout
                                         else parsed.contextLayout)
                  && p.baseLayout == (if parsed.baseLayout == "" && !parsed.isComponent then shared.defaultLayout
                                      else parsed.baseLayout))
            && (context == "" ==>
                  && p.context == "" && p.contextLayout == ""
                  && p.baseLayout == (if parsed.contextLayout == "" && !parsed.isComponent then shared.defaultLayout
                                      else parsed.contextLayout))
  {
  }

  /** The page has no layout around it. */
  predicate Bare(p: ParsedTemplate) { p.baseLayout == "" && p.contextLayout == "" }

  ghost predicate LayoutMissing(views: Views, p: ParsedTemplate) {
    && !Bare(p)
    && (!("" in views && p.baseLayout in views[""].layouts)
        || (p.renderAsAdminPage
            && ("admin" in views && p.baseLayout in views["admin"].layouts ==> views["admin"].layouts[p.baseLayout] == "")))
  }

  ghost predicate PageMissing(views: Views, p: ParsedTemplate)
    requires p.context in views
  {
    p.page !in views[p.context].pages && !("" in views && p.page in views[""].pages)
  }

  /** Exactly when a request fails, and how: an unknown context first, then the layout, then the page. */
  lemma BuildFailsIff(views: Views, p: ParsedTemplate)
    ensures Build(views, p) == Failed(NilComponents) <==> p.context !in views
    ensures p.context in views ==>
              (Build(views, p) == Failed(NoComponent) <==> p.isComponent && p.fragment !in views[p.context].components)
    ensures p.context in views ==> (Build(views, p) == Failed(NoLayout) <==> !p.isComponent && LayoutMissing(views, p))
    ensures p.context in views ==>
              (Build(views, p) == Failed(NoPage) <==> !p.isComponent && !LayoutMissing(views, p) && PageMissing(views, p))
    ensures Build(views, p) != Failed(InvalidName)
  {
  }

  lemma InvalidNameIff(s: State, context: string, templateName: string)
    ensures Serve(s, GetParsedTemplate(s.views, context, templateName)) == Failed(InvalidName)
       <==> ParseTemplateName(templateName).None?
  {
    var request := GetParsedTemplate(s.views, context, templateName);
    if request.Some? { BuildFailsIff(s.views, request.value); }
  }

  /**
   What a request is made of: a component of its context; or the context's own page, else the shared page of that name,
   in the shared base, with the context's layout, over which below admin comes admin's unless that is blank.
   */
  lemma BuiltIs(views: Views, p: ParsedTemplate)
    requires Build(views, p).Built?
    ensures var view, built := views[p.context], Build(views, p).template;
            if p.isComponent then
              && built.Component? && p.fragment in view.components && built.text == view.components[p.fragment]
              && built.components == view.components[p.context + "/" + p.fragment := built.text]
            else
              && built.Page? && built.components == view.components
              && (p.page in view.pages ==> built.content == view.pages[p.page])
              && (p.page !in view.pages ==> "" in views && p.page in views[""].pages && built.content == views[""].pages[p.page])
              && if Bare(p) then built.root == "{{block \"content\" .}}{{end}}" && built.layout.None?
                 else
                   && "" in views && p.baseLayout in views[""].layouts && built.root == views[""].layouts[p.baseLayout]
                   && (p.context == "" && !p.renderAsAdminPage ==> built.layout == None)
                   && (p.context != "" && !p.renderAsAdminPage ==> built.layout == Some(Text(view.layouts, p.contextLayout)))
                   && (p.renderAsAdminPage ==>
                         var admins := Text(ViewOf(views, "admin").layouts, p.contextLayout);
                         built.layout == Some(if TrimSpace(admins) == "" && p.context != ""
                                              then Text(view.layouts, p.contextLayout) else admins))
  {
  }

  /** A new context brings its own files, with the shared components where it has none of that name. */
  lemma AddedContextIs(views: Views, name: string, view: View)
    ensures var after := WithContext(views, name, view);
            if name == "" || name in views then after == views
            else
              && after.Keys == views.Keys + {name} && (forall other :: other in views ==> after[other] == views[other])
              && after[name] == view.(components := after[name].components)
              && forall c :: (c in after[name].components <==> c in view.components || c in ViewOf(views, "").components)
                             && (c in after[name].components ==>
                                   after[name].components[c] == if c in view.components then view.components[c]
                                                                else ViewOf(views, "").components[c])
  {
  }

  // Two runs that differ in one page of one context.

  function Repaged(e: Event, name: string, page: string, text: string): Event {
    if e.AddContext? && e.name == name then e.(view := e.view.(pages := e.view.pages[page := text])) else e
  }

  function AllRepaged(events: seq<Event>, name: string, page: string, text: string): seq<Event> {
    seq(|events|, k requires 0 <= k < |events| => Repaged(events[k], name, page, text))
  }

  ghost predicate DifferInPage(views: Views, other: Views, name: string, page: string, text: string) {
    && views.Keys == other.Keys
    && forall c :: c in views ==>
         other[c] == if c == name then views[c].(pages := views[c].pages[page := text]) else views[c]
  }

  lemma {:induction false} RepagedConfig(shared: View, events: seq<Event>, name: string, page: string, text: string)
    requires name != ""
    ensures DifferInPage(Config(shared, events), Config(shared, AllRepaged(events, name, page, text)), name, page, text)
  {
    if events == [] {
    } else {
      var n := |events| - 1;
      RepagedConfig(shared, events[..n], name, page, text);
      var all := AllRepaged(events, name, page, text);
      assert all[..n] == AllRepaged(events[..n], name, page, text) && all[n] == Repaged(events[n], name, page, text);
      if events[n].AddContext? {
        AddedDiffer(Config(shared, events[..n]), Config(shared, all[..n]), events[n], name, page, text);
      }
    }
  }

  lemma AddedDiffer(views: Views, other: Views, e: Event, name: string, page: string, text: string)
    requires name != "" && DifferInPage(views, other, name, page, text) && e.AddContext?
    ensures var e' := Repaged(e, name, page, text);
            DifferInPage(WithContext(views, e.name, e.view), WithContext(other, e'.name, e'.view), name, page, text)
  {
    assert ViewOf(views, SHARED) == ViewOf(other, SHARED);
  }

  lemma BuildsDiffer(views: Views, other: Views, p: ParsedTemplate, name: string, page: string, text: string)
    requires name != "" && DifferInPage(views, other, name, page, text)
    ensures p.context == name && !p.isComponent && p.page == page && Build(other, p).Built? ==>
              Build(other, p).template.content == text
    ensures p.context != name || p.isComponent || p.page != page ==> Build(other, p) == Build(views, p)
  {
    assert ViewOf(views, SHARED) == ViewOf(other, SHARED);
    assert ViewOf(other, ADMIN).layouts == ViewOf(views, ADMIN).layouts;
  }

  lemma TameWhenRepaged(belowAdmin: string -> bool, shared: View, events: seq<Event>, name: string, page: string, text: string)
    requires TameRun(belowAdmin, shared, events)
    ensures TameRun(belowAdmin, shared, AllRepaged(events, name, page, text))
  {
    forall k | 0 <= k < |events| ensures TameEvent(belowAdmin, AllRepaged(events, name, page, text)[k]) {
      assert TameEvent(belowAdmin, events[k]);
    }
  }

  /**
   Over every tame run, with everything cached that may be: changing one page of one context changes what is served for
   that page of that context, which is the new text, and nothing that is served for any other request.
   */
  lemma OwnPageIsServed(belowAdmin: string -> bool, shared: View, events: seq<Event>, context: string, parsed: ParsedTemplate,
                        name: string, page: string, text: string)
    requires name != "" && TameRun(belowAdmin, shared, events)
    requires WellFormed(parsed) && TameRequest(belowAdmin, context, Some(parsed))
    ensures var s, t := Run(shared, events), Run(shared, AllRepaged(events, name, page, text));
            var p := Resolve(s.views, context, parsed);
            var before, after := Serve(s, Some(p)), Serve(t, Some(Resolve(t.views, context, parsed)));
            if p.context == name && !p.isComponent && p.page == page then
              after.Built? ==> after.template.Page? && after.template.content == text
            else SameUpToAliases(after, before)
  {
    var all := AllRepaged(events, name, page, text);
    var s, t := Run(shared, events), Run(shared, all);
    var config, other := Config(shared, events), Config(shared, all);
    TameWhenRepaged(belowAdmin, shared, events, name, page, text);
    RunKeepsInv(belowAdmin, shared, events);
    RunKeepsInv(belowAdmin, shared, all);
    RepagedConfig(shared, events, name, page, text);
    var p := Resolve(s.views, context, parsed);
    ResolvedIsTame(s.views, config, belowAdmin, context, parsed);
    ResolvedIsTame(t.views, other, belowAdmin, context, parsed);
    SameResolved(config, other, context, parsed, name, page, text);
    ServeAgrees(belowAdmin, config, s, p);
    ServeAgrees(belowAdmin, other, t, p);
    BuildsDiffer(config, other, p, name, page, text);
    if !p.isComponent && Build(other, p).Built? { PagesArePages(other, p); }
  }

  lemma PagesArePages(views: Views, p: ParsedTemplate)
    requires !p.isComponent && Build(views, p).Built?
    ensures Build(views, p).template.Page?
  {
  }

  lemma SameResolved(views: Views, other: Views, context: string, parsed: ParsedTemplate,
                     name: string, page: string, text: string)
    requires name != "" && DifferInPage(views, other, name, page, text)
    ensures Resolve(views, context, parsed) == Resolve(other, context, parsed)
  {
    var (isContext, isAdmin, c) := IsContext(context);
    assert ViewOf(views, c).defaultLayout == ViewOf(other, c).defaultLayout;
    assert ViewOf(views, SHARED).defaultLayout == ViewOf(other, SHARED).defaultLayout;
  }

  // ----- localised requests -----

  /** Render panics: it must clone a template that was executed. */
  predicate ClonePanics(s: State, key: string) { key in s.cache && s.cache[key].executed }

  /** The event puts another template, or none, in the place of the cached one. */
  predicate Replaces(s: State, e: Event, key: string) {
    e.Reload? || (e.Store? && e.index < |s.inFlight| && Key(s.inFlight[e.index].madeFor) == key)
  }

  function RunOf(shared: View): seq<Event> -> State { events => Run(shared, events) }

  /** The `i`-th event executes the cached template of `key` itself, and it is still the cached one in the end. */
  ghost predicate ExecutedAt(run: seq<Event> -> State, events: seq<Event>, key: string, i: nat) {
    && i < |events| && events[i] == Execute(key, false) && key in run(events[..i]).cache
    && forall j :: i < j < |events| ==> !Replaces(run(events[..j]), events[j], key)
  }

  ghost predicate InFlightIsNew(s: State) { forall i :: 0 <= i < |s.inFlight| ==> !s.inFlight[i].executed }

  lemma StepPanicsIff(s: State, e: Event, key: string)
    requires InFlightIsNew(s)
    ensures InFlightIsNew(Step(s, e))
    ensures ClonePanics(Step(s, e), key) <==>
              || (e == Execute(key, false) && key in s.cache)
              || (ClonePanics(s, key) && !Replaces(s, e, key))
  {
  }

  /**
   Over every run: a localised request of a cached template panics exactly if the template was executed before by a
   request that was not localised.
   */
  lemma {:induction false} LocalisedRequestPanicsIff(shared: View, events: seq<Event>, key: string)
    ensures ClonePanics(Run(shared, events), key) <==> exists i: nat :: ExecutedAt(RunOf(shared), events, key, i)
    ensures InFlightIsNew(Run(shared, events))
  {
    if events == [] {
    } else {
      var last := |events| - 1;
      var before, e := events[..last], events[last];
      LocalisedRequestPanicsIff(shared, before, key);
      StepPanicsIff(Run(shared, before), e, key);
      if e == Execute(key, false) && key in Run(shared, before).cache {
        assert ExecutedAt(RunOf(shared), events, key, last);
      } else if ClonePanics(Run(shared, events), key) {
        var i: nat :| ExecutedAt(RunOf(shared), before, key, i);
        ExecutedEarlier(RunOf(shared), events, key, i);
      } else {
        forall i: nat ensures !ExecutedAt(RunOf(shared), events, key, i) {
          if i < last { ExecutedEarlier(RunOf(shared), events, key, i); }
        }
      }
    }
  }

  lemma ExecutedEarlier(run: seq<Event> -> State, events: seq<Event>, key: string, i: nat)
    requires i + 1 < |events|
    ensures var last := |events| - 1;
            ExecutedAt(run, events, key, i) <==>
              ExecutedAt(run, events[..last], key, i) && !Replaces(run(events[..last]), events[last], key)
  {
    var last := |events| - 1;
    var before := events[..last];
    assert forall j :: 0 <= j <= last ==> before[..j] == events[..j];
    assert forall j :: 0 <= j < last ==> before[j] == events[j];
  }

  // ----- the renderer itself -----

  /** One call of Render that is not interleaved with others: build what is missing and store it. */
  function AfterRender(s: State, request: Option<ParsedTemplate>): State {
    match request
    case None => s
    case Some(p) =>
      if Key(p) in s.cache || Build(s.views, p).Failed? then s
      else s.(views := WithAlias(s.views, p), cache := s.cache[Key(p) := Entry(Build(s.views, p).template, p, false)])
  }

  lemma RenderIsRequestAndStore(s: State, context: string, templateName: string)
    requires s.inFlight == []
    ensures var request := GetParsedTemplate(s.views, context, templateName);
            AfterRender(s, request) == Step(Step(s, Request(context, templateName)), Store(0))
  {
  }

  class Renderer {
    var views: Views
    var cache: map<string, Entry>
    const hotReload: bool

    function StateOf(): State
      reads this
    {
      State(views, cache, [])
    }

    constructor (shared: View, hotReload: bool)
      ensures StateOf() == New(shared) && this.hotReload == hotReload
    {
      views := map[SHARED := shared];
      cache := map[];
      this.hotReload := hotReload;
    }

    /** `loaded` is what prepareViewTemplates makes of the view files, if they are given and it succeeds. */
    method AddContext(name: string, hasFiles: bool, loaded: Option<View>) returns (added: bool)
      requires SHARED in views
      modifies this`views
      ensures added == (CanAdd(old(views), name) && hasFiles && loaded.Some?)
      ensures views == if added then WithContext(old(views), name, loaded.value) else old(views)
    {
      if name == "" { return false; }
      if !hasFiles { return false; }
      if name in views { return false; }
      if loaded.None? { return false; }
      var view := loaded.value;
      var cc := views[SHARED].components;
      var names := view.components.Keys;
      while names != {}
        invariant names <= view.components.Keys
        invariant cc == views[SHARED].components + (map n | n in view.components && n !in names :: view.components[n])
      {
        var n :| n in names;
        cc := cc[n := view.components[n]];
        names := names - {n};
      }
      assert (map n | n in view.components && n !in names :: view.components[n]) == view.components;
      views := views[name := view.(components := cc)];
      return true;
    }

    method BuildPageTemplate(p: ParsedTemplate) returns (r: Result)
      modifies this`views
      ensures r == Build(old(views), p)
      ensures views == if r.Built? then WithAlias(old(views), p) else old(views)
    {
      if p.context !in views { return Failed(NilComponents); }
      var components := views[p.context].components;
      if p.isComponent {
        if p.fragment !in components { return Failed(NoComponent); }
        var text := components[p.fragment];
        components := components[Key(p) := text];
        views := views[p.context := views[p.context].(components := components)];
        return Built(Component(text, components));
      }
      var shared := ViewOf(views, SHARED);
      var root, layout := CONTENT_BLOCK, None;
      var isPageWithoutLayout := p.baseLayout == "" && p.contextLayout == "";
      if !isPageWithoutLayout {
        if p.baseLayout !in shared.layouts { return Failed(NoLayout); }
        root := shared.layouts[p.baseLayout];
        if p.context != "" {
          layout := Some(Text(views[p.context].layouts, p.contextLayout));
        }
        if p.renderAsAdminPage {
          if Text(ViewOf(views, ADMIN).layouts, p.baseLayout) == "" { return Failed(NoLayout); }
          var text := Text(ViewOf(views, ADMIN).layouts, p.contextLayout);
          if layout.None? || !IsBlank(text) {
            layout := Some(text);
          }
        }
      }
      if p.page in views[p.context].pages {
        return Built(Page(root, layout, views[p.context].pages[p.page], components));
      }
      if p.page !in shared.pages { return Failed(NoPage); }
      return Built(Page(root, layout, shared.pages[p.page], components));
    }

    /** Render after hot reload and name: load or build, store, and execute. */
    method RenderParsed(p: ParsedTemplate, executes: bool, localised: bool) returns (r: Result, panics: bool)
      modifies this
      ensures var s := State(old(views), old(cache), []);
              var served := AfterRender(s, Some(p));
              && r == Serve(s, Some(p))
              && panics == (r.Built? && executes && localised && ClonePanics(served, Key(p)))
              && StateOf() == if r.Built? && executes then Step(served, Execute(Key(p), localised)) else served
    {
      panics := false;
      if Key(p) in cache {
        r := Built(cache[Key(p)].template);
      } else {
        r := BuildPageTemplate(p);
        if r.Failed? { return r, false; }
        cache := cache[Key(p) := Entry(r.template, p, false)];
      }
      if executes {
        if localised {
          panics := cache[Key(p)].executed;
        } else {
          cache := cache[Key(p) := cache[Key(p)].(executed := true)];
        }
      }
    }

    /**
     `executes` says whether the template has the fragment asked for and its data can be made, `localised` whether the
     context holds a language.
     */
    method Render(context: string, templateName: string, executes: bool, localised: bool)
      returns (r: Result, panics: bool)
      modifies this
      ensures var s := State(old(views), if hotReload then map[] else old(cache), []);
              var request := GetParsedTemplate(old(views), context, templateName);
              var served := AfterRender(s, request);
              && r == Serve(s, request)
              && panics == (r.Built? && executes && localised && ClonePanics(served, Key(request.value)))
              && StateOf() == if r.Built? && executes then Step(served, Execute(Key(request.value), localised)) else served
    {
      if hotReload { cache := map[]; }
      var request := GetParsedTemplate(views, context, templateName);
      if request.None? { return Failed(InvalidName), false; }
      r, panics := RenderParsed(request.value, executes, localised);
    }
  }
}
