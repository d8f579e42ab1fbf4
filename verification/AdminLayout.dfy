/**
 The layout of the dashboard in frontend/js/admin.js: tabs and sections in a saved order, merged with the defaults and
 filtered by the user's flags.
 */
module AdminLayout {
  import opened Options

  datatype Tab = Tab(id: string, sections: seq<string>)

  /** The saved preference; either part may be missing. */
  datatype Layout = Layout(tabOrder: Option<seq<string>>, sectionOrder: Option<map<string, seq<string>>>)

  // ---------------------------------------------------------------------------
  // Merging a saved order with the defaults
  // ---------------------------------------------------------------------------

  /** Every object answers to these names, whatever its own keys are. */
  predicate Inherited(id: string) {
    id in {"constructor", "toString", "toLocaleString", "valueOf", "hasOwnProperty", "isPrototypeOf",
           "propertyIsEnumerable", "__proto__", "__defineGetter__", "__defineSetter__", "__lookupGetter__",
           "__lookupSetter__"}
  }

  /** The saved ids a lookup finds something for. */
  function Kept(saved: seq<string>, defaults: seq<string>): seq<string> {
    if saved == [] then []
    else (if saved[0] in defaults || Inherited(saved[0]) then [saved[0]] else []) + Kept(saved[1..], defaults)
  }

  function Missing(defaults: seq<string>, kept: seq<string>): seq<string> {
    if defaults == [] then [] else (if defaults[0] in kept then [] else [defaults[0]]) + Missing(defaults[1..], kept)
  }

  function Arranged(saved: seq<string>, defaults: seq<string>): seq<string> {
    Kept(saved, defaults) + Missing(defaults, Kept(saved, defaults))
  }

  method Arrange(saved: seq<string>, defaults: seq<string>) returns (order: seq<string>)
    ensures order == Arranged(saved, defaults)
  {
    hide Inherited, Kept, Missing;
    Nothing(defaults, Kept(saved, defaults));
    order := [];
    assert saved[0..] == saved && defaults[0..] == defaults;
    for i := 0 to |saved|
      invariant order + Kept(saved[i..], defaults) == Kept(saved, defaults)
    {
      KeptNext(saved, defaults, i);
      if saved[i] in defaults || Inherited(saved[i]) { order := order + [saved[i]]; }
    }
    assert saved[|saved|..] == [];
    var seen := set id | id in order;
    for i := 0 to |defaults|
      invariant order + Missing(defaults[i..], Kept(saved, defaults)) == Arranged(saved, defaults)
      invariant forall id :: id in seen <==> id in Kept(saved, defaults)
    {
      MissingNext(defaults, Kept(saved, defaults), i);
      if defaults[i] !in seen { order := order + [defaults[i]]; }
    }
    assert defaults[|defaults|..] == [];
  }

  lemma KeptNext(saved: seq<string>, defaults: seq<string>, i: nat)
    requires i < |saved|
    ensures Kept(saved[i..], defaults)
      == (if saved[i] in defaults || Inherited(saved[i]) then [saved[i]] else []) + Kept(saved[i + 1..], defaults)
  {
    hide Inherited;
  }

  lemma MissingNext(defaults: seq<string>, kept: seq<string>, i: nat)
    requires i < |defaults|
    ensures Missing(defaults[i..], kept)
      == (if defaults[i] in kept then [] else [defaults[i]]) + Missing(defaults[i + 1..], kept)
  {
  }

  lemma Nothing(defaults: seq<string>, kept: seq<string>)
    ensures Kept([], defaults) == [] && Missing([], kept) == []
  {
  }

  predicate Distinct(s: seq<string>) { forall i, j :: 0 <= i < j < |s| ==> s[i] != s[j] }

  lemma {:induction false} KeptHolds(saved: seq<string>, defaults: seq<string>, id: string)
    ensures id in Kept(saved, defaults) <==> id in saved && (id in defaults || Inherited(id))
  {
    hide Inherited;
    if saved != [] { KeptHolds(saved[1..], defaults, id); }
  }

  lemma {:induction false} MissingHolds(defaults: seq<string>, kept: seq<string>, id: string)
    ensures id in Missing(defaults, kept) <==> id in defaults && id !in kept
  {
    if defaults != [] { MissingHolds(defaults[1..], kept, id); }
  }

  lemma {:induction false} MissingDistinct(defaults: seq<string>, kept: seq<string>)
    requires Distinct(defaults)
    ensures Distinct(Missing(defaults, kept))
  {
    if defaults != [] {
      assert Distinct(defaults[1..]);
      MissingDistinct(defaults[1..], kept);
      MissingHolds(defaults[1..], kept, defaults[0]);
    }
  }

  lemma {:induction false} DistinctIff(s: seq<string>)
    ensures Distinct(s) <==> forall id :: multiset(s)[id] <= 1
  {
    if s != [] {
      var rest := s[1..];
      assert s == [s[0]] + rest;
      DistinctIff(rest);
      if Distinct(s) { assert s[0] !in rest; }
      else if forall id :: multiset(s)[id] <= 1 {
        assert multiset(s)[s[0]] <= 1;
        assert s[0] !in rest;
        assert forall id :: multiset(rest)[id] <= multiset(s)[id];
      }
    }
  }

  /**
   Merging gives every default exactly once, exactly when no kept id is saved twice and none is merely an inherited
   name.
   */
  lemma PermutationIff(saved: seq<string>, defaults: seq<string>)
    requires Distinct(defaults)
    ensures multiset(Arranged(saved, defaults)) == multiset(defaults) <==>
      Distinct(Kept(saved, defaults)) && forall id :: id in saved && Inherited(id) ==> id in defaults
  {
    hide Inherited, Distinct;
    var kept, missing := Kept(saved, defaults), Missing(defaults, Kept(saved, defaults));
    DistinctIff(kept);
    DistinctIff(defaults);
    MissingDistinct(defaults, kept);
    DistinctIff(missing);
    forall id ensures multiset(Arranged(saved, defaults))[id] == multiset(kept)[id] + multiset(missing)[id] {}
    forall id
      ensures id in multiset(kept) <==> id in saved && (id in defaults || Inherited(id))
    {
      KeptHolds(saved, defaults, id);
    }
    forall id ensures id in multiset(missing) <==> id in defaults && id !in kept { MissingHolds(defaults, kept, id); }
    if multiset(Arranged(saved, defaults)) == multiset(defaults) {
      forall id ensures multiset(kept)[id] <= 1 {
        assert multiset(Arranged(saved, defaults))[id] == multiset(defaults)[id];
      }
      forall id | id in saved && Inherited(id) ensures id in defaults {
        assert id in multiset(kept);
        assert id in multiset(Arranged(saved, defaults));
      }
    }
    if Distinct(kept) && forall id :: id in saved && Inherited(id) ==> id in defaults {
      forall id ensures multiset(Arranged(saved, defaults))[id] == multiset(defaults)[id] {
        assert id in multiset(defaults) <==> id in defaults;
        assert id in multiset(kept) <==> id in kept;
      }
    }
  }

  function IndexOf(s: seq<string>, id: string): (i: nat)
    requires id in s
    ensures i < |s| && s[i] == id
  {
    if s[0] == id then 0 else 1 + IndexOf(s[1..], id)
  }

  /** Saved ids by their saved place, then the others by their default place. */
  function Rank(saved: seq<string>, defaults: seq<string>, id: string): nat
    requires id in saved || id in defaults
  {
    if id in saved then IndexOf(saved, id) else |saved| + IndexOf(defaults, id)
  }

  lemma {:induction false} KeptInOrder(saved: seq<string>, defaults: seq<string>, i: nat, j: nat)
    requires Distinct(saved) && i < j < |Kept(saved, defaults)|
    ensures Kept(saved, defaults)[i] in saved && Kept(saved, defaults)[j] in saved
    ensures IndexOf(saved, Kept(saved, defaults)[i]) < IndexOf(saved, Kept(saved, defaults)[j])
  {
    hide Inherited;
    var rest := saved[1..];
    assert Distinct(rest);
    var n := |Kept(saved, defaults)| - |Kept(rest, defaults)|;
    if i >= n {
      KeptInOrder(rest, defaults, i - n, j - n);
    } else {
      KeptHolds(rest, defaults, Kept(saved, defaults)[j]);
    }
  }

  lemma {:induction false} MissingInOrder(defaults: seq<string>, kept: seq<string>, i: nat, j: nat)
    requires Distinct(defaults) && i < j < |Missing(defaults, kept)|
    ensures Missing(defaults, kept)[i] in defaults && Missing(defaults, kept)[j] in defaults
    ensures IndexOf(defaults, Missing(defaults, kept)[i]) < IndexOf(defaults, Missing(defaults, kept)[j])
  {
    var rest := defaults[1..];
    assert Distinct(rest);
    var n := |Missing(defaults, kept)| - |Missing(rest, kept)|;
    if i >= n {
      MissingInOrder(rest, kept, i - n, j - n);
    } else {
      MissingHolds(rest, kept, Missing(defaults, kept)[j]);
    }
  }

  /** Saved ids come first, in saved order; the rest follow in default order. */
  lemma ArrangedInOrder(saved: seq<string>, defaults: seq<string>, i: nat, j: nat)
    requires Distinct(saved) && Distinct(defaults) && i < j < |Arranged(saved, defaults)|
    ensures var a := Arranged(saved, defaults);
      && (a[i] in saved || a[i] in defaults) && (a[j] in saved || a[j] in defaults)
      && Rank(saved, defaults, a[i]) < Rank(saved, defaults, a[j])
  {
    hide Inherited, Distinct;
    var kept, missing := Kept(saved, defaults), Missing(defaults, Kept(saved, defaults));
    var a := Arranged(saved, defaults);
    KeptHolds(saved, defaults, a[i]);
    KeptHolds(saved, defaults, a[j]);
    MissingHolds(defaults, kept, a[i]);
    MissingHolds(defaults, kept, a[j]);
    assert i < |kept| ==> a[i] == kept[i];
    assert j < |kept| ==> a[j] == kept[j];
    assert i >= |kept| ==> a[i] == missing[i - |kept|];
    assert j >= |kept| ==> a[j] == missing[j - |kept|];
    if j < |kept| { KeptInOrder(saved, defaults, i, j); }
    else if i >= |kept| { MissingInOrder(defaults, kept, i - |kept|, j - |kept|); }
  }

  // ---------------------------------------------------------------------------
  // Tabs, sections and flags
  // ---------------------------------------------------------------------------

  /** The flags any one of which shows a section; a section not listed is shown to everybody. */
  const SECTION_FLAGS: map<string, seq<string>> := map[
    "settings" := ["system_settings_manage", "org_settings_manage"],
    "storage" := ["system_settings_manage"],
    "disk" := ["disk_usage_view"],
    "theme" := ["system_settings_manage", "org_settings_manage"],
    "integrations" := ["integrations_notifications_manage", "system_settings_manage"],
    "users" := ["users_view", "users_manage"],
    "invites" := ["users_invite_manage"],
    "service-accounts" := ["service_accounts_manage"],
    "idp" := ["integrations_idp_manage", "system_settings_manage"],
    "teams" := ["teams_manage"],
    "roles" := ["roles_manage", "roles_create"],
    "mfa" := ["users_mfa_manage"],
    "policy" := ["policies_view", "policies_manage"],
    "escrow" := ["escrow_manage"],
    "profiles" := ["org_settings_manage", "sharing_manage"],
    "antivirus" := ["system_settings_manage"],
    "sharing" := ["sharing_manage"],
    "rate-limits" := ["system_settings_manage"],
    "session-policy" := ["system_settings_manage"],
    "audit" := ["audit_log_view"],
    "export" := ["system_settings_manage"]
  ]

  type Flags = map<string, string>

  predicate SectionVisible(id: string, flags: Flags) {
    id !in SECTION_FLAGS
    || exists i | 0 <= i < |SECTION_FLAGS[id]| ::
         SECTION_FLAGS[id][i] in flags && flags[SECTION_FLAGS[id][i]] == "1"
  }

  function Ids(tabs: seq<Tab>): (ids: seq<string>)
    ensures |ids| == |tabs| && forall i :: 0 <= i < |tabs| ==> ids[i] == tabs[i].id
  {
    seq(|tabs|, i requires 0 <= i < |tabs| => tabs[i].id)
  }

  function SectionsOf(tabs: seq<Tab>, id: string): (sections: seq<string>) {
    if tabs == [] then [] else if tabs[0].id == id then tabs[0].sections else SectionsOf(tabs[1..], id)
  }

  function SectionsFor(tabs: seq<Tab>, layout: Layout, id: string): seq<string> {
    if layout.sectionOrder.Some? && id in layout.sectionOrder.value
    then Arranged(layout.sectionOrder.value[id], SectionsOf(tabs, id)) else SectionsOf(tabs, id)
  }

  function SavedTabs(layout: Layout): seq<string> { if layout.tabOrder.Some? then layout.tabOrder.value else [] }

  /** An id that is no tab or section, but was found as an inherited name, makes the page fail. */
  predicate Breaks(tabs: seq<Tab>, layout: Layout) {
    || (exists i | 0 <= i < |SavedTabs(layout)| ::
          Inherited(SavedTabs(layout)[i]) && SavedTabs(layout)[i] !in Ids(tabs))
    || (exists i | 0 <= i < |tabs| :: exists j | 0 <= j < |SectionsFor(tabs, layout, tabs[i].id)| ::
          SectionsFor(tabs, layout, tabs[i].id)[j] !in SectionsOf(tabs, tabs[i].id))
  }

  function Placed(tabs: seq<Tab>, layout: Layout, ids: seq<string>): (r: seq<Tab>)
    ensures |r| == |ids| && forall i :: 0 <= i < |ids| ==> r[i] == Tab(ids[i], SectionsFor(tabs, layout, ids[i]))
  {
    seq(|ids|, i requires 0 <= i < |ids| => Tab(ids[i], SectionsFor(tabs, layout, ids[i])))
  }

  /** The tabs in merged order, each with its sections in merged order. */
  function Loaded(tabs: seq<Tab>, layout: Layout): seq<Tab> {
    Placed(tabs, layout, Arranged(SavedTabs(layout), Ids(tabs)))
  }

  /** None is the failing page. */
  function Apply(tabs: seq<Tab>, prefs: Option<Layout>): Option<seq<Tab>> {
    if prefs.None? then Some(tabs)
    else if Breaks(tabs, prefs.value) then None
    else Some(Loaded(tabs, prefs.value))
  }

  function VisibleSections(sections: seq<string>, flags: Flags): seq<string> {
    if sections == [] then []
    else (if SectionVisible(sections[0], flags) then [sections[0]] else []) + VisibleSections(sections[1..], flags)
  }

  /** The tabs with a visible section, each with its visible ones. */
  function FilterTabs(tabs: seq<Tab>, flags: Flags): seq<Tab> {
    if tabs == [] then []
    else
      var sections := VisibleSections(tabs[0].sections, flags);
      (if sections == [] then [] else [Tab(tabs[0].id, sections)]) + FilterTabs(tabs[1..], flags)
  }

  function SectionOrders(shown: seq<Tab>): map<string, seq<string>> {
    if shown == [] then map[]
    else SectionOrders(shown[..|shown| - 1])[shown[|shown| - 1].id := shown[|shown| - 1].sections]
  }

  /** What leaving the rearranging mode saves. */
  function Saved(shown: seq<Tab>): Layout { Layout(Some(Ids(shown)), Some(SectionOrders(shown))) }

  // ---------------------------------------------------------------------------
  // Saving and loading again
  // ---------------------------------------------------------------------------

  predicate WellFormed(tabs: seq<Tab>) {
    Distinct(Ids(tabs)) && forall id :: id in Ids(tabs) ==> Distinct(SectionsOf(tabs, id))
  }

  /** The layout names nothing twice. */
  predicate DuplicateFree(tabs: seq<Tab>, layout: Layout) {
    && Distinct(Kept(SavedTabs(layout), Ids(tabs)))
    && (layout.sectionOrder.Some? ==>
          forall id :: id in Ids(tabs) && id in layout.sectionOrder.value ==>
            Distinct(Kept(layout.sectionOrder.value[id], SectionsOf(tabs, id))))
  }

  /**
   No saved id is merely an inherited name: each that every object answers to is also a tab, or a section of its tab.
   */
  predicate NoneInherited(tabs: seq<Tab>, layout: Layout) {
    && OwnNames(SavedTabs(layout), Ids(tabs))
    && (layout.sectionOrder.Some? ==>
          forall id :: id in Ids(tabs) && id in layout.sectionOrder.value ==>
            OwnNames(layout.sectionOrder.value[id], SectionsOf(tabs, id)))
  }

  predicate OwnNames(saved: seq<string>, defaults: seq<string>) {
    forall i :: 0 <= i < |saved| && Inherited(saved[i]) ==> saved[i] in defaults
  }

  lemma ArrangedInsideIff(saved: seq<string>, defaults: seq<string>)
    ensures (forall j :: 0 <= j < |Arranged(saved, defaults)| ==> Arranged(saved, defaults)[j] in defaults) <==>
      OwnNames(saved, defaults)
  {
    hide Inherited, Kept, Missing;
    var kept, a := Kept(saved, defaults), Arranged(saved, defaults);
    if OwnNames(saved, defaults) {
      forall j | 0 <= j < |a| ensures a[j] in defaults {
        KeptHolds(saved, defaults, a[j]);
        MissingHolds(defaults, kept, a[j]);
        assert j < |kept| ==> a[j] == kept[j];
        assert j >= |kept| ==> a[j] == Missing(defaults, kept)[j - |kept|];
      }
    }
    if forall j :: 0 <= j < |a| ==> a[j] in defaults {
      forall i | 0 <= i < |saved| && Inherited(saved[i]) ensures saved[i] in defaults {
        KeptHolds(saved, defaults, saved[i]);
        var j :| 0 <= j < |kept| && kept[j] == saved[i];
        assert a[j] == saved[i];
      }
    }
  }

  /** The page fails exactly on a layout with a merely inherited name among its tabs or a tab's sections. */
  lemma AppliesIff(tabs: seq<Tab>, layout: Layout)
    ensures Apply(tabs, Some(layout)).Some? <==> NoneInherited(tabs, layout)
  {
    hide Inherited, Arranged, OwnNames, SectionsOf;
    SavedTabsOwn(tabs, layout);
    forall i | 0 <= i < |tabs|
      ensures SectionsInside(tabs, layout, tabs[i].id) <==> SectionsOwn(tabs, layout, tabs[i].id)
    {
      SectionsInsideIff(tabs, layout, tabs[i].id);
    }
    if NoneInherited(tabs, layout) {
      forall i | 0 <= i < |tabs| ensures tabs[i].id in Ids(tabs) { assert Ids(tabs)[i] == tabs[i].id; }
    }
    if !Breaks(tabs, layout) {
      forall id | id in Ids(tabs) && layout.sectionOrder.Some? && id in layout.sectionOrder.value
        ensures OwnNames(layout.sectionOrder.value[id], SectionsOf(tabs, id))
      {
        var i :| 0 <= i < |tabs| && Ids(tabs)[i] == id;
        assert tabs[i].id == id && SectionsInside(tabs, layout, tabs[i].id);
      }
    }
  }

  predicate SectionsInside(tabs: seq<Tab>, layout: Layout, id: string) {
    forall j :: 0 <= j < |SectionsFor(tabs, layout, id)| ==> SectionsFor(tabs, layout, id)[j] in SectionsOf(tabs, id)
  }

  predicate SectionsOwn(tabs: seq<Tab>, layout: Layout, id: string) {
    layout.sectionOrder.Some? && id in layout.sectionOrder.value ==>
      OwnNames(layout.sectionOrder.value[id], SectionsOf(tabs, id))
  }

  lemma SectionsInsideIff(tabs: seq<Tab>, layout: Layout, id: string)
    ensures SectionsInside(tabs, layout, id) <==> SectionsOwn(tabs, layout, id)
  {
    hide Arranged, OwnNames, SectionsOf;
    if layout.sectionOrder.Some? && id in layout.sectionOrder.value {
      var saved, defaults := layout.sectionOrder.value[id], SectionsOf(tabs, id);
      assert SectionsFor(tabs, layout, id) == Arranged(saved, defaults);
      ArrangedInsideIff(saved, defaults);
      assert SectionsInside(tabs, layout, id) <==>
        forall j :: 0 <= j < |Arranged(saved, defaults)| ==> Arranged(saved, defaults)[j] in defaults;
    } else {
      assert SectionsFor(tabs, layout, id) == SectionsOf(tabs, id);
    }
  }

  lemma SavedTabsOwn(tabs: seq<Tab>, layout: Layout)
    ensures OwnNames(SavedTabs(layout), Ids(tabs)) <==>
      !exists i :: 0 <= i < |SavedTabs(layout)| && Inherited(SavedTabs(layout)[i]) && SavedTabs(layout)[i] !in Ids(tabs)
  {
    hide Inherited;
  }

  /** A page that shows just what the flags allow, in any order. */
  ghost predicate Shows(tabs: seq<Tab>, flags: Flags, shown: seq<Tab>) {
    && Distinct(Ids(shown))
    && (forall id :: id in Ids(shown) <==> id in Ids(tabs) && VisibleSections(SectionsOf(tabs, id), flags) != [])
    && forall k :: 0 <= k < |shown| ==>
         multiset(shown[k].sections) == multiset(VisibleSections(SectionsOf(tabs, shown[k].id), flags))
  }

  lemma {:induction false} VisibleHolds(sections: seq<string>, flags: Flags, id: string)
    ensures multiset(VisibleSections(sections, flags))[id]
      == if SectionVisible(id, flags) then multiset(sections)[id] else 0
  {
    hide SectionVisible;
    if sections != [] {
      VisibleHolds(sections[1..], flags, id);
      assert sections == [sections[0]] + sections[1..];
    }
  }

  lemma {:induction false} VisibleSplits(a: seq<string>, b: seq<string>, flags: Flags)
    requires forall i :: 0 <= i < |a| ==> SectionVisible(a[i], flags)
    requires forall i :: 0 <= i < |b| ==> !SectionVisible(b[i], flags)
    ensures VisibleSections(a + b, flags) == a
  {
    hide SectionVisible;
    if a != [] {
      assert (a + b)[1..] == a[1..] + b;
      VisibleSplits(a[1..], b, flags);
    } else if b != [] {
      assert (a + b)[1..] == a + b[1..];
      VisibleSplits(a, b[1..], flags);
    }
  }

  lemma {:induction false} KeptAll(saved: seq<string>, defaults: seq<string>)
    requires forall i :: 0 <= i < |saved| ==> saved[i] in defaults
    ensures Kept(saved, defaults) == saved
  {
    hide Inherited;
    if saved != [] { KeptAll(saved[1..], defaults); }
  }

  lemma {:induction false} SectionOrderOf(shown: seq<Tab>, id: string)
    ensures id in SectionOrders(shown) <==> id in Ids(shown)
    ensures Distinct(Ids(shown)) ==> forall k :: 0 <= k < |shown| && shown[k].id == id ==>
      SectionOrders(shown)[id] == shown[k].sections
  {
    if shown != [] {
      var front, last := shown[..|shown| - 1], shown[|shown| - 1];
      SectionOrderOf(front, id);
      assert Ids(shown) == Ids(front) + [last.id];
      if Distinct(Ids(shown)) {
        forall k | 0 <= k < |shown| && shown[k].id == id ensures SectionOrders(shown)[id] == shown[k].sections {
          if k < |front| { assert Ids(shown)[k] != Ids(shown)[|shown| - 1] && front[k] == shown[k]; }
        }
      }
    }
  }

  /** A shown tab's saved sections come back in front of its hidden ones. */
  lemma ShownSections(tabs: seq<Tab>, flags: Flags, shown: seq<Tab>, k: nat)
    requires Shows(tabs, flags, shown) && k < |shown|
    ensures var sections := SectionsFor(tabs, Saved(shown), shown[k].id);
      && VisibleSections(sections, flags) == shown[k].sections != []
      && forall id :: id in sections ==> id in SectionsOf(tabs, shown[k].id)
  {
    hide Inherited, SectionVisible, Kept;
    var mine, all := shown[k].sections, SectionsOf(tabs, shown[k].id);
    assert shown[k].id == Ids(shown)[k];
    SectionOrderOf(shown, shown[k].id);
    forall id ensures id in mine <==> id in all && SectionVisible(id, flags) {
      assert id in mine <==> id in multiset(mine);
      VisibleHolds(all, flags, id);
    }
    KeptAll(mine, all);
    forall id
      ensures id in Missing(all, mine) <==> id in all && !SectionVisible(id, flags)
    {
      MissingHolds(all, mine, id);
    }
    VisibleSplits(mine, Missing(all, mine), flags);
    assert |mine| == |multiset(mine)| && |VisibleSections(all, flags)| == |multiset(VisibleSections(all, flags))|;
  }

  function FilteredTab(t: Tab, flags: Flags): seq<Tab> {
    var sections := VisibleSections(t.sections, flags);
    if sections == [] then [] else [Tab(t.id, sections)]
  }

  lemma FilterTabsNext(tabs: seq<Tab>, flags: Flags)
    ensures FilterTabs(tabs, flags)
      == if tabs == [] then [] else FilteredTab(tabs[0], flags) + FilterTabs(tabs[1..], flags)
  {
    hide VisibleSections;
  }

  lemma {:induction false} FilterTabsAdds(a: seq<Tab>, b: seq<Tab>, flags: Flags)
    ensures FilterTabs(a + b, flags) == FilterTabs(a, flags) + FilterTabs(b, flags)
  {
    hide FilteredTab, FilterTabs;
    FilterTabsNext(a, flags);
    if a == [] {
      assert a + b == b;
    } else {
      FilterTabsNext(a + b, flags);
      assert (a + b)[1..] == a[1..] + b;
      FilterTabsAdds(a[1..], b, flags);
    }
  }

  lemma {:induction false} FilterTabsKeeps(placed: seq<Tab>, shown: seq<Tab>, flags: Flags)
    requires |placed| == |shown| && forall k :: 0 <= k < |shown| ==>
      placed[k].id == shown[k].id && VisibleSections(placed[k].sections, flags) == shown[k].sections != []
    ensures FilterTabs(placed, flags) == shown
  {
    hide VisibleSections;
    if shown != [] { FilterTabsKeeps(placed[1..], shown[1..], flags); }
  }

  lemma {:induction false} FilterTabsDrops(placed: seq<Tab>, flags: Flags)
    requires forall k :: 0 <= k < |placed| ==> VisibleSections(placed[k].sections, flags) == []
    ensures FilterTabs(placed, flags) == []
  {
    hide VisibleSections;
    if placed != [] { FilterTabsDrops(placed[1..], flags); }
  }

  lemma SavedDoesNotBreak(tabs: seq<Tab>, flags: Flags, shown: seq<Tab>)
    requires Shows(tabs, flags, shown)
    ensures !Breaks(tabs, Saved(shown))
  {
    hide Inherited, SectionVisible, VisibleSections, Kept;
    forall i | 0 <= i < |shown| ensures Ids(shown)[i] in Ids(tabs) { assert Ids(shown)[i] in Ids(shown); }
    forall i | 0 <= i < |tabs|
      ensures forall j :: 0 <= j < |SectionsFor(tabs, Saved(shown), tabs[i].id)| ==>
        SectionsFor(tabs, Saved(shown), tabs[i].id)[j] in SectionsOf(tabs, tabs[i].id)
    {
      SectionOrderOf(shown, tabs[i].id);
      if tabs[i].id in Ids(shown) {
        var k :| 0 <= k < |shown| && Ids(shown)[k] == tabs[i].id;
        ShownSections(tabs, flags, shown, k);
      }
    }
  }

  /** Any page a user can have arranged is shown again, just so, after saving and loading with the same flags. */
  lemma SaveThenReload(tabs: seq<Tab>, flags: Flags, shown: seq<Tab>)
    requires Shows(tabs, flags, shown)
    ensures Apply(tabs, Some(Saved(shown))).Some?
    ensures FilterTabs(Apply(tabs, Some(Saved(shown))).value, flags) == shown
  {
    hide Inherited, SectionVisible, VisibleSections, Kept, SectionsFor, Breaks, FilterTabs;
    SavedDoesNotBreak(tabs, flags, shown);
    var ids, layout := Ids(shown), Saved(shown);
    var missing := Missing(Ids(tabs), ids);
    forall i | 0 <= i < |ids| ensures ids[i] in Ids(tabs) { assert ids[i] in ids; }
    KeptAll(ids, Ids(tabs));
    var front, back := Placed(tabs, layout, ids), Placed(tabs, layout, missing);
    assert Placed(tabs, layout, ids + missing) == front + back;
    FilterTabsAdds(front, back, flags);
    forall k | 0 <= k < |shown| ensures VisibleSections(front[k].sections, flags) == shown[k].sections != [] {
      ShownSections(tabs, flags, shown, k);
    }
    FilterTabsKeeps(front, shown, flags);
    forall k | 0 <= k < |missing| ensures VisibleSections(back[k].sections, flags) == [] {
      MissingHolds(Ids(tabs), ids, missing[k]);
      assert missing[k] in missing;
      HiddenTab(tabs, flags, shown, missing[k]);
    }
    FilterTabsDrops(back, flags);
  }

  lemma HiddenTab(tabs: seq<Tab>, flags: Flags, shown: seq<Tab>, id: string)
    requires Shows(tabs, flags, shown) && id in Ids(tabs) && id !in Ids(shown)
    ensures VisibleSections(SectionsFor(tabs, Saved(shown), id), flags) == []
  {
    hide VisibleSections;
    SectionOrderOf(shown, id);
  }

  /** The tab t is what the filter makes of the tab p. */
  predicate IsFiltered(p: Tab, t: Tab, flags: Flags) {
    t.id == p.id && t.sections == VisibleSections(p.sections, flags) && t.sections != []
  }

  lemma {:induction false} FilteredHas(placed: seq<Tab>, flags: Flags, t: Tab)
    ensures t in FilterTabs(placed, flags) <==> exists j :: 0 <= j < |placed| && IsFiltered(placed[j], t, flags)
  {
    hide VisibleSections;
    if placed != [] {
      var rest := placed[1..];
      FilteredHas(rest, flags, t);
      if t in FilterTabs(rest, flags) {
        var j :| 0 <= j < |rest| && IsFiltered(rest[j], t, flags);
        assert IsFiltered(placed[j + 1], t, flags);
      }
    }
  }

  lemma {:induction false} FilteredDistinct(placed: seq<Tab>, flags: Flags, id: string)
    ensures multiset(Ids(FilterTabs(placed, flags)))[id] <= multiset(Ids(placed))[id]
  {
    hide VisibleSections;
    if placed != [] {
      FilteredDistinct(placed[1..], flags, id);
      assert Ids(placed) == [placed[0].id] + Ids(placed[1..]);
      var sections := VisibleSections(placed[0].sections, flags);
      if sections == [] {
        assert FilterTabs(placed, flags) == FilterTabs(placed[1..], flags);
      } else {
        assert Ids(FilterTabs(placed, flags)) == [placed[0].id] + Ids(FilterTabs(placed[1..], flags));
      }
    }
  }

  /** The loaded page, before filtering, has every tab once, each with a permutation of its own sections. */
  lemma AppliedIsPermutation(tabs: seq<Tab>, layout: Layout)
    requires WellFormed(tabs) && DuplicateFree(tabs, layout) && NoneInherited(tabs, layout)
    ensures Apply(tabs, Some(layout)) == Some(Loaded(tabs, layout))
    ensures var r := Loaded(tabs, layout);
      && multiset(Ids(r)) == multiset(Ids(tabs)) && Distinct(Ids(r))
      && forall k :: 0 <= k < |r| ==> multiset(r[k].sections) == multiset(SectionsOf(tabs, r[k].id))
  {
    AppliesIff(tabs, layout);
    hide Inherited, Kept, Distinct, NoneInherited;
    var ids, saved := Ids(tabs), SavedTabs(layout);
    forall id | id in saved && Inherited(id) ensures id in ids {
      var i :| 0 <= i < |saved| && saved[i] == id;
    }
    PermutationIff(saved, ids);
    var order := Arranged(saved, ids);
    DistinctIff(order);
    DistinctIff(ids);
    assert Ids(Placed(tabs, layout, order)) == order;
    forall k | 0 <= k < |order|
      ensures multiset(SectionsFor(tabs, layout, order[k])) == multiset(SectionsOf(tabs, order[k]))
    {
      assert order[k] in multiset(order);
      assert order[k] in ids;
      SectionsArePermutation(tabs, layout, order[k]);
    }
  }

  lemma SectionsArePermutation(tabs: seq<Tab>, layout: Layout, id: string)
    requires WellFormed(tabs) && DuplicateFree(tabs, layout) && !Breaks(tabs, layout) && id in Ids(tabs)
    ensures multiset(SectionsFor(tabs, layout, id)) == multiset(SectionsOf(tabs, id))
  {
    hide Inherited, Kept, Distinct;
    var i :| 0 <= i < |tabs| && Ids(tabs)[i] == id;
    assert tabs[i].id == id;
    if layout.sectionOrder.Some? && id in layout.sectionOrder.value {
      var saved, sections := layout.sectionOrder.value[id], SectionsOf(tabs, id);
      forall s | s in saved && Inherited(s) ensures s in sections {
        KeptHolds(saved, sections, s);
        var j :| 0 <= j < |Kept(saved, sections)| && Kept(saved, sections)[j] == s;
        assert SectionsFor(tabs, layout, tabs[i].id)[j] == s;
      }
      PermutationIff(saved, sections);
    }
  }

  lemma VisiblePermutes(a: seq<string>, b: seq<string>, flags: Flags)
    requires multiset(a) == multiset(b)
    ensures multiset(VisibleSections(a, flags)) == multiset(VisibleSections(b, flags))
    ensures VisibleSections(a, flags) == [] <==> VisibleSections(b, flags) == []
  {
    hide VisibleSections;
    forall id ensures multiset(VisibleSections(a, flags))[id] == multiset(VisibleSections(b, flags))[id] {
      VisibleHolds(a, flags, id);
      VisibleHolds(b, flags, id);
    }
    assert |VisibleSections(a, flags)| == |multiset(VisibleSections(a, flags))|;
    assert |VisibleSections(b, flags)| == |multiset(VisibleSections(b, flags))|;
  }

  /**
   A page whose tabs are the defaults', in any order and with their sections in any order, shows what the flags allow.
   */
  lemma FilteredShows(tabs: seq<Tab>, flags: Flags, r: seq<Tab>)
    requires Distinct(Ids(r)) && multiset(Ids(r)) == multiset(Ids(tabs))
    requires forall k :: 0 <= k < |r| ==> multiset(r[k].sections) == multiset(SectionsOf(tabs, r[k].id))
    ensures Shows(tabs, flags, FilterTabs(r, flags))
  {
    hide VisibleSections, FilterTabs, Distinct, SectionsOf;
    var shown := FilterTabs(r, flags);
    DistinctIff(Ids(r));
    forall id ensures multiset(Ids(shown))[id] <= 1 { FilteredDistinct(r, flags, id); }
    DistinctIff(Ids(shown));
    forall k | 0 <= k < |shown|
      ensures multiset(shown[k].sections) == multiset(VisibleSections(SectionsOf(tabs, shown[k].id), flags))
    {
      FilteredTabShows(tabs, flags, r, shown[k]);
    }
    forall id ensures id in Ids(shown) <==> id in Ids(tabs) && VisibleSections(SectionsOf(tabs, id), flags) != [] {
      ShownIdIff(tabs, flags, r, id);
    }
  }

  lemma ShownIdIff(tabs: seq<Tab>, flags: Flags, r: seq<Tab>, id: string)
    requires multiset(Ids(r)) == multiset(Ids(tabs))
    requires forall k :: 0 <= k < |r| ==> multiset(r[k].sections) == multiset(SectionsOf(tabs, r[k].id))
    ensures id in Ids(FilterTabs(r, flags)) <==> id in Ids(tabs) && VisibleSections(SectionsOf(tabs, id), flags) != []
  {
    hide VisibleSections, FilterTabs, SectionsOf;
    if id in Ids(tabs) && VisibleSections(SectionsOf(tabs, id), flags) != [] { VisibleTabFound(tabs, flags, r, id); }
    if id in Ids(FilterTabs(r, flags)) {
      var k :| 0 <= k < |FilterTabs(r, flags)| && Ids(FilterTabs(r, flags))[k] == id;
      FilteredTabShows(tabs, flags, r, FilterTabs(r, flags)[k]);
    }
  }

  lemma FilteredTabShows(tabs: seq<Tab>, flags: Flags, r: seq<Tab>, t: Tab)
    requires multiset(Ids(r)) == multiset(Ids(tabs)) && t in FilterTabs(r, flags)
    requires forall k :: 0 <= k < |r| ==> multiset(r[k].sections) == multiset(SectionsOf(tabs, r[k].id))
    ensures multiset(t.sections) == multiset(VisibleSections(SectionsOf(tabs, t.id), flags))
    ensures t.id in Ids(tabs) && VisibleSections(SectionsOf(tabs, t.id), flags) != []
  {
    hide VisibleSections, FilterTabs, SectionsOf;
    FilteredHas(r, flags, t);
    var j :| 0 <= j < |r| && IsFiltered(r[j], t, flags);
    VisiblePermutes(r[j].sections, SectionsOf(tabs, t.id), flags);
    assert Ids(r)[j] in multiset(Ids(r));
    assert t.id in multiset(Ids(tabs));
  }

  lemma VisibleTabFound(tabs: seq<Tab>, flags: Flags, r: seq<Tab>, id: string)
    requires multiset(Ids(r)) == multiset(Ids(tabs))
    requires forall k :: 0 <= k < |r| ==> multiset(r[k].sections) == multiset(SectionsOf(tabs, r[k].id))
    requires id in Ids(tabs) && VisibleSections(SectionsOf(tabs, id), flags) != []
    ensures id in Ids(FilterTabs(r, flags))
  {
    hide VisibleSections, FilterTabs, SectionsOf;
    assert id in multiset(Ids(tabs));
    assert id in multiset(Ids(r));
    var j :| 0 <= j < |r| && Ids(r)[j] == id;
    VisiblePermutes(r[j].sections, SectionsOf(tabs, id), flags);
    var t := Tab(id, VisibleSections(r[j].sections, flags));
    assert IsFiltered(r[j], t, flags);
    FilteredHas(r, flags, t);
    var k :| 0 <= k < |FilterTabs(r, flags)| && FilterTabs(r, flags)[k] == t;
    assert Ids(FilterTabs(r, flags))[k] == id;
  }

  /** What dragging can do: the same tabs and, in each, the same sections. */
  ghost predicate Rearranged(shown: seq<Tab>, shown': seq<Tab>) {
    && multiset(Ids(shown)) == multiset(Ids(shown'))
    && forall k, j :: 0 <= k < |shown| && 0 <= j < |shown'| && shown[k].id == shown'[j].id ==>
         multiset(shown[k].sections) == multiset(shown'[j].sections)
  }

  lemma RearrangedShows(tabs: seq<Tab>, flags: Flags, shown: seq<Tab>, shown': seq<Tab>)
    requires Shows(tabs, flags, shown) && Rearranged(shown, shown')
    ensures Shows(tabs, flags, shown')
  {
    hide VisibleSections, Distinct;
    DistinctIff(Ids(shown));
    DistinctIff(Ids(shown'));
    forall id ensures id in Ids(shown) <==> id in Ids(shown') {
      assert id in Ids(shown) <==> id in multiset(Ids(shown));
      assert id in Ids(shown') <==> id in multiset(Ids(shown'));
    }
    forall j | 0 <= j < |shown'|
      ensures multiset(shown'[j].sections) == multiset(VisibleSections(SectionsOf(tabs, shown'[j].id), flags))
    {
      assert Ids(shown')[j] in Ids(shown);
      var k :| 0 <= k < |shown| && Ids(shown)[k] == Ids(shown')[j];
      assert shown[k].id == shown'[j].id;
    }
  }

  /**
   For any flags: load a layout that names nothing twice and nothing merely inherited, rearrange what is shown, save,
   and load again; the page is exactly as it was left.
   */
  lemma RearrangementSurvives(tabs: seq<Tab>, layout: Layout, flags: Flags, shown: seq<Tab>)
    requires WellFormed(tabs) && DuplicateFree(tabs, layout) && NoneInherited(tabs, layout)
    requires Rearranged(FilterTabs(Loaded(tabs, layout), flags), shown)
    ensures Apply(tabs, Some(layout)) == Some(Loaded(tabs, layout))
    ensures Apply(tabs, Some(Saved(shown))).Some?
    ensures FilterTabs(Apply(tabs, Some(Saved(shown))).value, flags) == shown
  {
    hide Apply, Loaded, FilterTabs, Shows, Rearranged, Saved, DuplicateFree, NoneInherited;
    AppliedIsPermutation(tabs, layout);
    FilteredShows(tabs, flags, Loaded(tabs, layout));
    RearrangedShows(tabs, flags, FilterTabs(Loaded(tabs, layout), flags), shown);
    SaveThenReload(tabs, flags, shown);
  }

  /** The same from the default page of a user who has saved nothing yet. */
  lemma FirstRearrangementSurvives(tabs: seq<Tab>, flags: Flags, shown: seq<Tab>)
    requires WellFormed(tabs) && Rearranged(FilterTabs(tabs, flags), shown)
    ensures Apply(tabs, Some(Saved(shown))).Some?
    ensures FilterTabs(Apply(tabs, Some(Saved(shown))).value, flags) == shown
  {
    hide Apply, FilterTabs, Shows, Rearranged, Saved;
    forall k | 0 <= k < |tabs| ensures tabs[k].sections == SectionsOf(tabs, tabs[k].id) { OwnSections(tabs, k); }
    FilteredShows(tabs, flags, tabs);
    RearrangedShows(tabs, flags, FilterTabs(tabs, flags), shown);
    SaveThenReload(tabs, flags, shown);
  }

  /** A section that asks for flags is allowed to whoever has one of them. */
  ghost predicate Allowed(section: string, flags: Flags) {
    section in SECTION_FLAGS ==>
      exists flag :: flag in SECTION_FLAGS[section] && flag in flags && flags[flag] == "1"
  }

  lemma VisibleIffAllowed(section: string, flags: Flags)
    ensures SectionVisible(section, flags) <==> Allowed(section, flags)
  {
    if section in SECTION_FLAGS && Allowed(section, flags) {
      var asked := SECTION_FLAGS[section];
      var flag :| flag in asked && flag in flags && flags[flag] == "1";
      var i :| 0 <= i < |asked| && asked[i] == flag;
    }
  }

  /** The page shows the section on the tab. */
  ghost predicate ShowsSection(shown: seq<Tab>, tab: string, section: string) {
    exists k :: 0 <= k < |shown| && shown[k].id == tab && section in shown[k].sections
  }

  lemma ShownIffAllowed(tabs: seq<Tab>, flags: Flags, shown: seq<Tab>, tab: string, section: string)
    requires Shows(tabs, flags, shown)
    ensures ShowsSection(shown, tab, section) <==>
      tab in Ids(tabs) && section in SectionsOf(tabs, tab) && Allowed(section, flags)
  {
    hide SectionVisible, VisibleSections, Allowed, Distinct, SectionsOf;
    var mine := VisibleSections(SectionsOf(tabs, tab), flags);
    VisibleIffAllowed(section, flags);
    VisibleHolds(SectionsOf(tabs, tab), flags, section);
    assert section in mine <==> section in multiset(mine);
    forall k | 0 <= k < |shown| && shown[k].id == tab
      ensures tab in Ids(shown) && (section in shown[k].sections <==> section in mine)
    {
      assert Ids(shown)[k] == tab;
      assert section in shown[k].sections <==> section in multiset(shown[k].sections);
    }
    if tab in Ids(tabs) && section in mine {
      var k :| 0 <= k < |shown| && Ids(shown)[k] == tab;
      assert shown[k].id == tab;
    }
  }

  /**
   Whatever admissible layout was saved, a section is on the page exactly when it is one of its tab's own and asks for
   no flag or for one the user has.
   */
  lemma SectionShownIff(tabs: seq<Tab>, layout: Layout, flags: Flags, tab: string, section: string)
    requires WellFormed(tabs) && DuplicateFree(tabs, layout) && NoneInherited(tabs, layout)
    ensures Apply(tabs, Some(layout)).Some?
    ensures ShowsSection(FilterTabs(Apply(tabs, Some(layout)).value, flags), tab, section) <==>
      tab in Ids(tabs) && section in SectionsOf(tabs, tab) && Allowed(section, flags)
  {
    hide Apply, Loaded, FilterTabs, Shows, ShowsSection, Allowed, DuplicateFree, NoneInherited;
    AppliedIsPermutation(tabs, layout);
    FilteredShows(tabs, flags, Loaded(tabs, layout));
    ShownIffAllowed(tabs, flags, FilterTabs(Loaded(tabs, layout), flags), tab, section);
  }

  const ADMIN_TABS := [
    Tab("system", ["settings", "storage", "disk", "theme"]),
    Tab("users", ["users", "invites", "service-accounts", "idp"]),
    Tab("teams", ["teams"]),
    Tab("roles", ["roles", "mfa", "policy", "escrow"]),
    Tab("security", ["profiles", "antivirus", "sharing", "rate-limits", "session-policy"]),
    Tab("audit", ["audit", "integrations"]),
    Tab("export", ["export"])
  ]

  predicate StartsApart(s: seq<string>) {
    && (forall i :: 0 <= i < |s| ==> |s[i]| >= 2)
    && forall i, j :: 0 <= i < j < |s| ==> |s[i]| != |s[j]| || s[i][0] != s[j][0] || s[i][1] != s[j][1]
  }

  lemma ApartIsDistinct(s: seq<string>)
    requires StartsApart(s)
    ensures Distinct(s)
  {
  }

  lemma ShippedNamesApart()
    ensures StartsApart(Ids(ADMIN_TABS))
    ensures forall k :: 0 <= k < |ADMIN_TABS| ==> StartsApart(ADMIN_TABS[k].sections)
  {
  }

  /** The shipped tabs are well formed, so the results hold of the real page. */
  lemma ShippedTabsAreWellFormed()
    ensures WellFormed(ADMIN_TABS)
  {
    hide StartsApart, Distinct;
    ShippedNamesApart();
    ApartIsDistinct(Ids(ADMIN_TABS));
    forall id | id in Ids(ADMIN_TABS) ensures Distinct(SectionsOf(ADMIN_TABS, id)) {
      var k :| 0 <= k < |ADMIN_TABS| && Ids(ADMIN_TABS)[k] == id;
      OwnSections(ADMIN_TABS, k);
      ApartIsDistinct(ADMIN_TABS[k].sections);
    }
  }

  lemma {:induction false} OwnSections(tabs: seq<Tab>, k: nat)
    requires Distinct(Ids(tabs)) && k < |tabs|
    ensures SectionsOf(tabs, tabs[k].id) == tabs[k].sections
  {
    if k > 0 {
      assert Ids(tabs)[0] != Ids(tabs)[k];
      assert forall j :: 0 <= j < |tabs[1..]| ==> Ids(tabs[1..])[j] == Ids(tabs)[j + 1];
      OwnSections(tabs[1..], k - 1);
    }
  }

  lemma ShippedSectionsAskForFlags()
    ensures forall k :: 0 <= k < |ADMIN_TABS| ==> forall section :: section in ADMIN_TABS[k].sections ==>
      section in SECTION_FLAGS
  {
  }

  /** Every shipped section asks for a flag, so a user without any sees an empty page. */
  lemma NothingWithoutFlags(flags: Flags)
    requires forall flag :: flag in flags ==> flags[flag] != "1"
    ensures FilterTabs(ADMIN_TABS, flags) == []
  {
    hide SectionVisible, VisibleSections;
    ShippedSectionsAskForFlags();
    forall k | 0 <= k < |ADMIN_TABS| ensures VisibleSections(ADMIN_TABS[k].sections, flags) == [] {
      var sections := ADMIN_TABS[k].sections;
      forall i | 0 <= i < |sections| ensures !SectionVisible(sections[i], flags) {
        VisibleIffAllowed(sections[i], flags);
      }
      VisibleSplits([], sections, flags);
      assert [] + sections == sections;
    }
    FilterTabsDrops(ADMIN_TABS, flags);
  }

  /** A saved tab named like something every object has makes the shipped page fail. */
  lemma ConstructorTabFails()
    ensures Apply(ADMIN_TABS, Some(Layout(Some(["constructor"]), None))).None?
  {
    var layout := Layout(Some(["constructor"]), None);
    assert Inherited(SavedTabs(layout)[0]);
    NoConstructorTab();
    assert !OwnNames(SavedTabs(layout), Ids(ADMIN_TABS));
    hide Inherited, OwnNames;
    AppliesIff(ADMIN_TABS, layout);
  }

  lemma NoConstructorTab()
    ensures "constructor" !in Ids(ADMIN_TABS)
  {
    forall i | 0 <= i < |ADMIN_TABS| ensures Ids(ADMIN_TABS)[i] != "constructor" {
      assert |ADMIN_TABS[i].id| != |"constructor"|;
    }
  }
}
