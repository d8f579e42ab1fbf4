/**
 The event filter of frontend/js/admin.js: check boxes for groups of events, read out as a list in which a whole group
 is one prefix; and what backend/app/services/notification_emitter.py then delivers for that list.
 */
module EventFilter {

  /** A group of the catalogue: the entry for all of its events, its events, and entries shown with it but apart. */
  datatype Group = Group(all: string, events: seq<string>, standalones: seq<string>)
  type Catalogue = seq<Group>

  /** The boxes of one group; mixed is the indeterminate mark of the group box. */
  datatype Boxes = Boxes(all: bool, mixed: bool, events: seq<bool>, standalones: seq<bool>)

  // ---------------------------------------------------------------------------
  // Building, clicking, reading
  // ---------------------------------------------------------------------------

  predicate Fits(cat: Catalogue, grid: seq<Boxes>) {
    |grid| == |cat| && forall g :: 0 <= g < |cat| ==> BoxesFit(cat[g], grid[g])
  }

  predicate BoxesFit(group: Group, b: Boxes) {
    |b.events| == |group.events| && |b.standalones| == |group.standalones|
  }

  predicate Any(ticks: seq<bool>) { exists i :: 0 <= i < |ticks| && ticks[i] }
  predicate Every(ticks: seq<bool>) { forall i :: 0 <= i < |ticks| ==> ticks[i] }

  function Ticks(names: seq<string>, filters: seq<string>): (ticks: seq<bool>)
    ensures |ticks| == |names| && forall i :: 0 <= i < |names| ==> (ticks[i] <==> names[i] in filters)
  {
    seq(|names|, i requires 0 <= i < |names| => names[i] in filters)
  }

  function Constant(n: nat, value: bool): (ticks: seq<bool>)
    ensures |ticks| == n && forall i :: 0 <= i < n ==> ticks[i] == value
  {
    seq(n, _ => value)
  }

  function BuildGroup(group: Group, filters: seq<string>): Boxes {
    var allActive := group.all in filters;
    var named := Ticks(group.events, filters);
    Boxes(allActive, !allActive && Any(named), if allActive then Constant(|group.events|, true) else named,
          Ticks(group.standalones, filters))
  }

  function Build(cat: Catalogue, filters: seq<string>): (grid: seq<Boxes>)
    ensures |grid| == |cat| && forall g :: 0 <= g < |cat| ==> grid[g] == BuildGroup(cat[g], filters)
  {
    seq(|cat|, g requires 0 <= g < |cat| => BuildGroup(cat[g], filters))
  }

  function Count(ticks: seq<bool>): nat {
    if ticks == [] then 0 else (if ticks[0] then 1 else 0) + Count(ticks[1..])
  }

  /** The group box follows its events. */
  function Synced(b: Boxes): Boxes {
    var n := Count(b.events);
    b.(all := n != 0 && n == |b.events|, mixed := n != 0 && n != |b.events|)
  }

  function ClickedEvent(b: Boxes, i: nat): Boxes
    requires i < |b.events|
  {
    Synced(b.(events := b.events[i := !b.events[i]]))
  }

  function ClickedStandalone(b: Boxes, i: nat): Boxes
    requires i < |b.standalones|
  {
    b.(standalones := b.standalones[i := !b.standalones[i]])
  }

  /** A click turns the group box over, and its events follow it. */
  function ClickedAll(b: Boxes): Boxes { b.(all := !b.all, mixed := false, events := Constant(|b.events|, !b.all)) }

  /** The names with a tick, in order. */
  function Picked(names: seq<string>, ticks: seq<bool>): seq<string>
    requires |names| == |ticks|
  {
    if names == [] then [] else (if ticks[0] then [names[0]] else []) + Picked(names[1..], ticks[1..])
  }

  /** Whether the first group box carrying this entry is checked. */
  function GroupChecked(cat: Catalogue, grid: seq<Boxes>, all: string): bool
    requires |cat| == |grid|
  {
    cat != [] && if cat[0].all == all then grid[0].all else GroupChecked(cat[1..], grid[1..], all)
  }

  function ReadGroup(group: Group, b: Boxes, covered: bool): seq<string>
    requires BoxesFit(group, b)
  {
    (if b.all then [group.all] else []) + (if covered then [] else Picked(group.events, b.events))
    + Picked(group.standalones, b.standalones)
  }

  /** The read-out of the first n groups. */
  function ReadUpTo(cat: Catalogue, grid: seq<Boxes>, n: nat): seq<string>
    requires Fits(cat, grid) && n <= |cat|
  {
    if n == 0 then []
    else ReadUpTo(cat, grid, n - 1) + ReadGroup(cat[n - 1], grid[n - 1], GroupChecked(cat, grid, cat[n - 1].all))
  }

  function Read(cat: Catalogue, grid: seq<Boxes>): seq<string>
    requires Fits(cat, grid)
  {
    ReadUpTo(cat, grid, |cat|)
  }

  /** A checked group box has all its events checked; the mark shows exactly on an unchecked one with some. */
  predicate GroupInv(b: Boxes) { (b.all ==> Every(b.events)) && (b.mixed <==> !b.all && Any(b.events)) }

  predicate Inv(grid: seq<Boxes>) { forall g :: 0 <= g < |grid| ==> GroupInv(grid[g]) }

  class FilterGrid {
    const cat: Catalogue
    var grid: seq<Boxes>

    predicate Valid()
      reads this
    {
      Fits(cat, grid) && Inv(grid)
    }

    constructor (cat: Catalogue, filters: seq<string>)
      ensures Valid() && this.cat == cat && grid == Build(cat, filters)
    {
      this.cat := cat;
      grid := Build(cat, filters);
      new;
      BuiltKeepsInv(cat, filters);
    }

    method ClickAll(g: nat)
      requires Valid() && g < |cat|
      modifies this
      ensures Valid() && grid == old(grid)[g := ClickedAll(old(grid)[g])]
    {
      ClickKeepsInv(cat, grid, All(g));
      var target := !grid[g].all;
      grid := grid[g := grid[g].(all := target, mixed := false, events := Constant(|grid[g].events|, target))];
    }

    method ClickEvent(g: nat, i: nat)
      requires Valid() && g < |cat| && i < |cat[g].events|
      modifies this
      ensures Valid() && grid == old(grid)[g := ClickedEvent(old(grid)[g], i)]
      ensures grid[g].events == old(grid)[g].events[i := !old(grid)[g].events[i]]
      ensures grid[g].all <==> Every(grid[g].events)
      ensures grid[g].mixed <==> Any(grid[g].events) && !Every(grid[g].events)
    {
      SyncedIff(grid[g], i);
      ClickKeepsInv(cat, grid, Event(g, i));
      grid := grid[g := grid[g].(events := grid[g].events[i := !grid[g].events[i]])];
      var n := Count(grid[g].events);
      if n == 0 {
        grid := grid[g := grid[g].(all := false, mixed := false)];
      } else if n == |grid[g].events| {
        grid := grid[g := grid[g].(all := true, mixed := false)];
      } else {
        grid := grid[g := grid[g].(all := false, mixed := true)];
      }
    }

    method ClickStandalone(g: nat, i: nat)
      requires Valid() && g < |cat| && i < |cat[g].standalones|
      modifies this
      ensures Valid() && grid == old(grid)[g := ClickedStandalone(old(grid)[g], i)]
    {
      ClickKeepsInv(cat, grid, Standalone(g, i));
      grid := grid[g := grid[g].(standalones := grid[g].standalones[i := !grid[g].standalones[i]])];
    }

    method ReadOut() returns (result: seq<string>)
      requires Valid()
      ensures result == Read(cat, grid)
    {
      result := [];
      for g := 0 to |cat|
        invariant result == ReadUpTo(cat, grid, g)
      {
        hide ReadGroup, GroupChecked;
        result := PushGroup(result, cat[g], grid[g], GroupChecked(cat, grid, cat[g].all));
      }
    }
  }

  method PushGroup(result: seq<string>, group: Group, b: Boxes, covered: bool) returns (r: seq<string>)
    requires BoxesFit(group, b)
    ensures r == result + ReadGroup(group, b, covered)
  {
    hide Picked;
    r := result;
    if b.all { r := r + [group.all]; }
    if !covered { r := PushTicked(r, group.events, b.events); }
    r := PushTicked(r, group.standalones, b.standalones);
  }

  method PushTicked(result: seq<string>, names: seq<string>, ticks: seq<bool>) returns (r: seq<string>)
    requires |names| == |ticks|
    ensures r == result + Picked(names, ticks)
  {
    r := result;
    for i := 0 to |names|
      invariant r == result + Picked(names[..i], ticks[..i])
    {
      PickedMore(names, ticks, i);
      if ticks[i] { r := r + [names[i]]; }
    }
    assert names[..|names|] == names && ticks[..|ticks|] == ticks;
  }

  lemma {:induction false} PickedMore(names: seq<string>, ticks: seq<bool>, i: nat)
    requires |names| == |ticks| && i < |names|
    ensures Picked(names[..i + 1], ticks[..i + 1])
      == Picked(names[..i], ticks[..i]) + if ticks[i] then [names[i]] else []
  {
    if i > 0 {
      PickedMore(names[1..], ticks[1..], i - 1);
      assert names[..i + 1][1..] == names[1..][..i] && ticks[..i + 1][1..] == ticks[1..][..i];
      assert names[..i][1..] == names[1..][..i - 1] && ticks[..i][1..] == ticks[1..][..i - 1];
    }
  }

  // ---------------------------------------------------------------------------
  // What every click keeps
  // ---------------------------------------------------------------------------

  datatype Click = All(group: nat) | Event(group: nat, event: nat) | Standalone(group: nat, entry: nat)

  predicate CanClick(cat: Catalogue, c: Click) {
    c.group < |cat|
    && match c
       case All(_) => true
       case Event(g, i) => i < |cat[g].events|
       case Standalone(g, i) => i < |cat[g].standalones|
  }

  function Clicked(cat: Catalogue, grid: seq<Boxes>, c: Click): (r: seq<Boxes>)
    requires Fits(cat, grid) && CanClick(cat, c)
    ensures Fits(cat, r)
  {
    match c
    case All(g) => grid[g := ClickedAll(grid[g])]
    case Event(g, i) => grid[g := ClickedEvent(grid[g], i)]
    case Standalone(g, i) => grid[g := ClickedStandalone(grid[g], i)]
  }

  function Run(cat: Catalogue, grid: seq<Boxes>, clicks: seq<Click>): (r: seq<Boxes>)
    requires Fits(cat, grid) && forall k :: 0 <= k < |clicks| ==> CanClick(cat, clicks[k])
    ensures Fits(cat, r)
    decreases |clicks|
  {
    if clicks == [] then grid else Run(cat, Clicked(cat, grid, clicks[0]), clicks[1..])
  }

  lemma {:induction false} CountIs(ticks: seq<bool>)
    ensures Count(ticks) <= |ticks|
    ensures Count(ticks) == |ticks| <==> Every(ticks)
    ensures Count(ticks) != 0 <==> Any(ticks)
  {
    if ticks != [] {
      CountIs(ticks[1..]);
      assert ticks == [ticks[0]] + ticks[1..];
      if Any(ticks[1..]) {
        var i :| 0 <= i < |ticks[1..]| && ticks[1..][i];
        assert ticks[i + 1];
      }
    }
  }

  /**
   After a click on an event the group box is checked exactly when all events are, and marked exactly when some but not
   all are.
   */
  lemma SyncedIff(b: Boxes, i: nat)
    requires i < |b.events|
    ensures var b' := ClickedEvent(b, i);
      && b'.events == b.events[i := !b.events[i]] && b'.standalones == b.standalones
      && (b'.all <==> Every(b'.events)) && (b'.mixed <==> Any(b'.events) && !Every(b'.events))
  {
    CountIs(b.events[i := !b.events[i]]);
  }

  lemma ClickKeepsInv(cat: Catalogue, grid: seq<Boxes>, c: Click)
    requires Fits(cat, grid) && CanClick(cat, c) && Inv(grid)
    ensures Inv(Clicked(cat, grid, c))
  {
    if c.Event? {
      CountIs(grid[c.group].events[c.event := !grid[c.group].events[c.event]]);
    }
  }

  /** After any clicks on boxes built from any list, a checked group box has all its events checked. */
  lemma {:induction false} RunKeepsInv(cat: Catalogue, grid: seq<Boxes>, clicks: seq<Click>)
    requires Fits(cat, grid) && Inv(grid) && forall k :: 0 <= k < |clicks| ==> CanClick(cat, clicks[k])
    ensures Inv(Run(cat, grid, clicks))
    decreases |clicks|
  {
    hide Inv, Fits, Clicked;
    if clicks != [] {
      ClickKeepsInv(cat, grid, clicks[0]);
      RunKeepsInv(cat, Clicked(cat, grid, clicks[0]), clicks[1..]);
    }
  }

  lemma BuiltKeepsInv(cat: Catalogue, filters: seq<string>)
    ensures Fits(cat, Build(cat, filters)) && Inv(Build(cat, filters))
  {
  }

  // ---------------------------------------------------------------------------
  // What the read-out says
  // ---------------------------------------------------------------------------

  function EntriesOf(group: Group): seq<string> { [group.all] + group.events + group.standalones }

  /** No entry occurs twice in the catalogue. */
  predicate Distinct(cat: Catalogue) {
    forall g, h, k, l ::
      (0 <= g < |cat| && 0 <= h < |cat| && 0 <= k < |EntriesOf(cat[g])| && 0 <= l < |EntriesOf(cat[h])|
       && EntriesOf(cat[g])[k] == EntriesOf(cat[h])[l]) ==> g == h && k == l
  }

  lemma {:induction false} PickedIff(names: seq<string>, ticks: seq<bool>, x: string)
    requires |names| == |ticks|
    ensures x in Picked(names, ticks) <==> exists i :: 0 <= i < |names| && ticks[i] && names[i] == x
  {
    if names != [] {
      PickedIff(names[1..], ticks[1..], x);
      if x in Picked(names[1..], ticks[1..]) {
        var i :| 0 <= i < |names[1..]| && ticks[1..][i] && names[1..][i] == x;
        assert ticks[i + 1] && names[i + 1] == x;
      }
    }
  }

  /** The box of entry k of a group is ticked on its own account. */
  predicate Stands(b: Boxes, k: nat)
    requires k < 1 + |b.events| + |b.standalones|
  {
    if k == 0 then b.all
    else if k <= |b.events| then !b.all && b.events[k - 1]
    else b.standalones[k - 1 - |b.events|]
  }

  lemma ReadGroupIff(group: Group, b: Boxes, x: string)
    requires BoxesFit(group, b)
    ensures x in ReadGroup(group, b, b.all) <==>
      exists k :: 0 <= k < |EntriesOf(group)| && EntriesOf(group)[k] == x && Stands(b, k)
  {
    PickedIff(group.events, b.events, x);
    PickedIff(group.standalones, b.standalones, x);
    var entries := EntriesOf(group);
    if b.all && x == group.all { assert entries[0] == x && Stands(b, 0); }
    if !b.all && x in Picked(group.events, b.events) {
      var i :| 0 <= i < |group.events| && b.events[i] && group.events[i] == x;
      assert entries[i + 1] == x && Stands(b, i + 1);
    }
    if x in Picked(group.standalones, b.standalones) {
      var i :| 0 <= i < |group.standalones| && b.standalones[i] && group.standalones[i] == x;
      assert entries[i + 1 + |group.events|] == x && Stands(b, i + 1 + |group.events|);
    }
  }

  lemma {:induction false} OwnGroupBox(cat: Catalogue, grid: seq<Boxes>, g: nat)
    requires |cat| == |grid| && g < |cat| && forall h :: 0 <= h < g ==> cat[h].all != cat[g].all
    ensures GroupChecked(cat, grid, cat[g].all) == grid[g].all
  {
    if g > 0 { OwnGroupBox(cat[1..], grid[1..], g - 1); }
  }

  lemma {:induction false} ReadIff(cat: Catalogue, grid: seq<Boxes>, n: nat, x: string)
    requires Fits(cat, grid) && n <= |cat|
    requires forall g :: 0 <= g < |cat| ==> GroupChecked(cat, grid, cat[g].all) == grid[g].all
    ensures x in ReadUpTo(cat, grid, n) <==> exists g :: 0 <= g < n && x in ReadGroup(cat[g], grid[g], grid[g].all)
  {
    hide ReadGroup, GroupChecked;
    if n > 0 { ReadIff(cat, grid, n - 1, x); }
  }

  /** An entry is in the read-out exactly when its box is ticked on its own account. */
  lemma EntryReadIff(cat: Catalogue, grid: seq<Boxes>, g: nat, k: nat)
    requires Fits(cat, grid) && Distinct(cat) && g < |cat| && k < |EntriesOf(cat[g])|
    ensures EntriesOf(cat[g])[k] in Read(cat, grid) <==> Stands(grid[g], k)
  {
    hide ReadUpTo, ReadGroup, GroupChecked, Stands;
    var x := EntriesOf(cat[g])[k];
    OwnGroupBoxes(cat, grid);
    ReadIff(cat, grid, |cat|, x);
    forall h | 0 <= h < |cat| ensures x in ReadGroup(cat[h], grid[h], grid[h].all) <==> h == g && Stands(grid[g], k) {
      ReadGroupIff(cat[h], grid[h], x);
    }
  }

  lemma OwnGroupBoxes(cat: Catalogue, grid: seq<Boxes>)
    requires Fits(cat, grid) && Distinct(cat)
    ensures forall g :: 0 <= g < |cat| ==> GroupChecked(cat, grid, cat[g].all) == grid[g].all
  {
    forall g | 0 <= g < |cat| ensures GroupChecked(cat, grid, cat[g].all) == grid[g].all {
      assert forall h :: 0 <= h < |cat| ==> EntriesOf(cat[h])[0] == cat[h].all;
      OwnGroupBox(cat, grid, g);
    }
  }

  /** The place of an entry in the catalogue. */
  datatype Place = Place(group: nat, entry: nat)

  predicate Earlier(p: Place, q: Place) { p.group < q.group || (p.group == q.group && p.entry < q.entry) }

  predicate IsAt(cat: Catalogue, p: Place, x: string) {
    p.group < |cat| && p.entry < |EntriesOf(cat[p.group])| && EntriesOf(cat[p.group])[p.entry] == x
  }

  /** The entries of the list stand at these places, each before the next. */
  ghost predicate AreAt(cat: Catalogue, list: seq<string>, at: seq<Place>) {
    && |at| == |list| && (forall i :: 0 <= i < |at| ==> IsAt(cat, at[i], list[i]))
    && forall i, j :: 0 <= i < j < |at| ==> Earlier(at[i], at[j])
  }

  /** The names of the list stand among the entries at these places from low to high, each before the next. */
  predicate InList(entries: seq<string>, list: seq<string>, at: seq<nat>, low: nat, high: nat) {
    && |at| == |list| && high <= |entries|
    && (forall i :: 0 <= i < |at| ==> low <= at[i] < high && entries[at[i]] == list[i])
    && forall i, j :: 0 <= i < j < |at| ==> at[i] < at[j]
  }

  lemma ThenInList(entries: seq<string>, a: seq<string>, at: seq<nat>, b: seq<string>, bt: seq<nat>, low: nat, mid: nat,
                   high: nat)
    requires low <= mid <= high && InList(entries, a, at, low, mid) && InList(entries, b, bt, mid, high)
    ensures InList(entries, a + b, at + bt, low, high)
  {
  }

  lemma {:induction false} PickedInList(entries: seq<string>, names: seq<string>, ticks: seq<bool>, low: nat)
    returns (at: seq<nat>)
    requires |names| == |ticks| && low + |names| <= |entries|
    requires forall i :: 0 <= i < |names| ==> entries[low + i] == names[i]
    ensures InList(entries, Picked(names, ticks), at, low, low + |names|)
  {
    at := [];
    if names != [] {
      at := PickedInList(entries, names[1..], ticks[1..], low + 1);
      if ticks[0] {
        var rest := Picked(names[1..], ticks[1..]);
        hide Picked;
        ThenInList(entries, [names[0]], [low], rest, at, low, low + 1, low + |names|);
        at := [low] + at;
      }
    }
  }

  /** A group's part of the read-out is in the order of its entries. */
  lemma GroupInOrder(group: Group, b: Boxes, covered: bool) returns (at: seq<nat>)
    requires BoxesFit(group, b)
    ensures InList(EntriesOf(group), ReadGroup(group, b, covered), at, 0, |EntriesOf(group)|)
  {
    hide Picked;
    var entries, n := EntriesOf(group), 1 + |group.events|;
    var events := PickedInList(entries, group.events, b.events, 1);
    var alone := PickedInList(entries, group.standalones, b.standalones, n);
    var all, whole: seq<nat> := if b.all then [group.all] else [], if b.all then [0] else [];
    var ticked, picked: seq<nat> :=
      if covered then [] else Picked(group.events, b.events), if covered then [] else events;
    assert InList(entries, all, whole, 0, 1) && InList(entries, ticked, picked, 1, n);
    hide InList;
    ThenInList(entries, all, whole, ticked, picked, 0, 1, n);
    ThenInList(entries, all + ticked, whole + picked, Picked(group.standalones, b.standalones), alone, 0, n, |entries|);
    at := whole + picked + alone;
  }

  lemma {:induction false} ReadPlaces(cat: Catalogue, grid: seq<Boxes>, n: nat) returns (at: seq<Place>)
    requires Fits(cat, grid) && n <= |cat|
    ensures AreAt(cat, ReadUpTo(cat, grid, n), at) && forall i :: 0 <= i < |at| ==> at[i].group < n
  {
    hide ReadGroup, GroupChecked;
    at := [];
    if n > 0 {
      var g := n - 1;
      at := ReadPlaces(cat, grid, g);
      var covered := GroupChecked(cat, grid, cat[g].all);
      var mine := GroupInOrder(cat[g], grid[g], covered);
      var before, part := ReadUpTo(cat, grid, g), ReadGroup(cat[g], grid[g], covered);
      hide ReadUpTo, Fits;
      at := MorePlaces(cat, before, at, g, part, mine);
    }
  }

  lemma MorePlaces(cat: Catalogue, list: seq<string>, at: seq<Place>, g: nat, more: seq<string>, mine: seq<nat>)
    returns (all: seq<Place>)
    requires AreAt(cat, list, at) && g < |cat| && forall i :: 0 <= i < |at| ==> at[i].group < g
    requires InList(EntriesOf(cat[g]), more, mine, 0, |EntriesOf(cat[g])|)
    ensures AreAt(cat, list + more, all) && forall i :: 0 <= i < |all| ==> all[i].group <= g
  {
    hide EntriesOf;
    all := at + seq(|mine|, i requires 0 <= i < |mine| => Place(g, mine[i]));
    forall i | 0 <= i < |all| ensures IsAt(cat, all[i], (list + more)[i]) {
      if i < |at| { assert all[i] == at[i]; } else { assert all[i] == Place(g, mine[i - |at|]); }
    }
  }

  /** The read-out lists its entries in the order of the catalogue, and none twice. */
  lemma ReadInOrder(cat: Catalogue, grid: seq<Boxes>) returns (at: seq<Place>)
    requires Fits(cat, grid)
    ensures AreAt(cat, Read(cat, grid), at)
    ensures Distinct(cat) ==> forall i, j :: 0 <= i < j < |Read(cat, grid)| ==> Read(cat, grid)[i] != Read(cat, grid)[j]
  {
    at := ReadPlaces(cat, grid, |cat|);
    var list := Read(cat, grid);
    hide Read;
    if Distinct(cat) {
      forall i, j | 0 <= i < j < |list| ensures list[i] != list[j] {
        assert IsAt(cat, at[i], list[i]) && IsAt(cat, at[j], list[j]) && Earlier(at[i], at[j]);
      }
    }
  }

  /** Nothing but entries of the catalogue is read out. */
  lemma ReadOnlyEntries(cat: Catalogue, grid: seq<Boxes>, x: string) returns (g: nat, k: nat)
    requires Fits(cat, grid) && Distinct(cat) && x in Read(cat, grid)
    ensures g < |cat| && k < |EntriesOf(cat[g])| && EntriesOf(cat[g])[k] == x && Stands(grid[g], k)
  {
    hide ReadUpTo, ReadGroup, GroupChecked, Stands;
    OwnGroupBoxes(cat, grid);
    ReadIff(cat, grid, |cat|, x);
    g :| 0 <= g < |cat| && x in ReadGroup(cat[g], grid[g], grid[g].all);
    ReadGroupIff(cat[g], grid[g], x);
    k :| 0 <= k < |EntriesOf(cat[g])| && EntriesOf(cat[g])[k] == x && Stands(grid[g], k);
  }

  /** Whether the box of event i of group g shows a tick. */
  predicate EventTicked(grid: seq<Boxes>, g: nat, i: nat)
    requires g < |grid| && i < |grid[g].events|
  {
    grid[g].events[i]
  }

  /** With group prefixes expanded, the read-out covers exactly the ticked events. */
  lemma ReadOutCoversTicked(cat: Catalogue, grid: seq<Boxes>, g: nat, i: nat)
    requires Fits(cat, grid) && Inv(grid) && Distinct(cat) && g < |cat| && i < |cat[g].events|
    ensures (cat[g].all in Read(cat, grid) || cat[g].events[i] in Read(cat, grid)) <==> EventTicked(grid, g, i)
    ensures !(cat[g].all in Read(cat, grid) && cat[g].events[i] in Read(cat, grid))
  {
    hide Read, Distinct;
    EntryReadIff(cat, grid, g, 0);
    EntryReadIff(cat, grid, g, i + 1);
    assert EntriesOf(cat[g])[0] == cat[g].all && EntriesOf(cat[g])[i + 1] == cat[g].events[i];
    assert GroupInv(grid[g]);
  }

  /** The event is in the list, by itself or by its group. */
  predicate Covers(group: Group, i: nat, filters: seq<string>)
    requires i < |group.events|
  {
    group.all in filters || group.events[i] in filters
  }

  /** What clicks do to the read-out: an event's own box, or its group's, decides alone whether the event is covered. */
  lemma ClickCovers(cat: Catalogue, grid: seq<Boxes>, c: Click, h: nat, j: nat)
    requires Fits(cat, grid) && Inv(grid) && Distinct(cat) && CanClick(cat, c) && h < |cat| && j < |cat[h].events|
    ensures Covers(cat[h], j, Read(cat, Clicked(cat, grid, c))) <==>
      if c == Event(h, j) then !Covers(cat[h], j, Read(cat, grid))
      else if c == All(h) then cat[h].all !in Read(cat, grid)
      else Covers(cat[h], j, Read(cat, grid))
  {
    hide Read, Distinct, Inv;
    var grid' := Clicked(cat, grid, c);
    ClickKeepsInv(cat, grid, c);
    ReadOutCoversTicked(cat, grid, h, j);
    ReadOutCoversTicked(cat, grid', h, j);
    EntryReadIff(cat, grid, h, 0);
    assert EntriesOf(cat[h])[0] == cat[h].all;
  }

  /** Ticking the last event of a group puts the group's entry in the place of all its events. */
  lemma LastTickCompresses(cat: Catalogue, grid: seq<Boxes>, g: nat, i: nat, k: nat)
    requires Fits(cat, grid) && Inv(grid) && Distinct(cat) && CanClick(cat, Event(g, i)) && k < |cat[g].events|
    requires forall j :: 0 <= j < |cat[g].events| ==> (EventTicked(grid, g, j) <==> j != i)
    ensures cat[g].all in Read(cat, Clicked(cat, grid, Event(g, i)))
    ensures cat[g].events[k] !in Read(cat, Clicked(cat, grid, Event(g, i)))
  {
    hide Read, Distinct, Inv;
    var grid' := Clicked(cat, grid, Event(g, i));
    SyncedIff(grid[g], i);
    ClickKeepsInv(cat, grid, Event(g, i));
    assert forall j :: 0 <= j < |cat[g].events| ==> (EventTicked(grid, g, j) <==> grid[g].events[j]);
    EntryReadIff(cat, grid', g, 0);
    assert EntriesOf(cat[g])[0] == cat[g].all;
    ReadOutCoversTicked(cat, grid', g, k);
  }

  /** And a standalone entry is listed exactly according to its own box. */
  lemma ClickListsStandalone(cat: Catalogue, grid: seq<Boxes>, c: Click, h: nat, j: nat)
    requires Fits(cat, grid) && Distinct(cat) && CanClick(cat, c) && h < |cat| && j < |cat[h].standalones|
    ensures cat[h].standalones[j] in Read(cat, Clicked(cat, grid, c)) <==>
      if c == Standalone(h, j) then cat[h].standalones[j] !in Read(cat, grid)
        else cat[h].standalones[j] in Read(cat, grid)
  {
    hide Read, Distinct;
    var grid', k := Clicked(cat, grid, c), j + 1 + |cat[h].events|;
    assert EntriesOf(cat[h])[k] == cat[h].standalones[j];
    EntryReadIff(cat, grid, h, k);
    EntryReadIff(cat, grid', h, k);
  }

  /** Boxes built from a read-out are the boxes that were read, marks included. */
  lemma BuildOfRead(cat: Catalogue, grid: seq<Boxes>)
    requires Fits(cat, grid) && Inv(grid) && Distinct(cat)
    ensures Build(cat, Read(cat, grid)) == grid
  {
    hide Read;
    var filters := Read(cat, grid);
    forall g | 0 <= g < |cat| ensures BuildGroup(cat[g], filters) == grid[g] {
      GroupBuiltBack(cat, grid, g, filters);
    }
  }

  lemma GroupBuiltBack(cat: Catalogue, grid: seq<Boxes>, g: nat, filters: seq<string>)
    requires Fits(cat, grid) && Inv(grid) && Distinct(cat) && g < |cat| && filters == Read(cat, grid)
    ensures BuildGroup(cat[g], filters) == grid[g]
  {
    hide Read, Distinct;
    var group, b, built := cat[g], grid[g], BuildGroup(cat[g], filters);
    assert GroupInv(b);
    EntryReadIff(cat, grid, g, 0);
    forall i | 0 <= i < |b.events| ensures built.events[i] == b.events[i] {
      EntryReadIff(cat, grid, g, i + 1);
      assert EntriesOf(group)[i + 1] == group.events[i];
    }
    forall i | 0 <= i < |b.standalones| ensures built.standalones[i] == b.standalones[i] {
      EntryReadIff(cat, grid, g, i + 1 + |b.events|);
      assert EntriesOf(group)[i + 1 + |b.events|] == group.standalones[i];
    }
    assert built.events == b.events && built.standalones == b.standalones;
    if !b.all { assert forall i :: 0 <= i < |b.events| ==> Ticks(group.events, filters)[i] == b.events[i]; }
  }

  /** From any saved list, after any clicks: closing and opening the dialog changes no box and no later read-out. */
  lemma ReopenChangesNothing(cat: Catalogue, saved: seq<string>, clicks: seq<Click>)
    requires Distinct(cat) && forall k :: 0 <= k < |clicks| ==> CanClick(cat, clicks[k])
    ensures Fits(cat, Build(cat, saved))
    ensures var grid := Run(cat, Build(cat, saved), clicks);
      Build(cat, Read(cat, grid)) == grid && Read(cat, Build(cat, Read(cat, grid))) == Read(cat, grid)
  {
    hide Inv, Read;
    BuiltKeepsInv(cat, saved);
    RunKeepsInv(cat, Build(cat, saved), clicks);
    BuildOfRead(cat, Run(cat, Build(cat, saved), clicks));
  }

  /**
   What opening a saved list and saving it unchanged keeps: exactly its entries that are in the catalogue and are not
   events of a group that is listed as a whole.
   */
  lemma SavedAgainIff(cat: Catalogue, saved: seq<string>, x: string)
    requires Distinct(cat)
    ensures Fits(cat, Build(cat, saved))
    ensures x in Read(cat, Build(cat, saved)) <==>
      x in saved
      && exists g, k :: 0 <= g < |cat| && 0 <= k < |EntriesOf(cat[g])| && EntriesOf(cat[g])[k] == x
           && (1 <= k <= |cat[g].events| ==> cat[g].all !in saved)
  {
    hide Read, Distinct;
    BuiltKeepsInv(cat, saved);
    var grid := Build(cat, saved);
    forall g, k | 0 <= g < |cat| && 0 <= k < |EntriesOf(cat[g])|
      ensures Stands(grid[g], k) <==>
        EntriesOf(cat[g])[k] in saved && (1 <= k <= |cat[g].events| ==> cat[g].all !in saved)
    {
      StandsBuilt(cat[g], saved, k);
    }
    if x in Read(cat, grid) { var g, k := ReadOnlyEntries(cat, grid, x); }
    forall g, k | 0 <= g < |cat| && 0 <= k < |EntriesOf(cat[g])| && EntriesOf(cat[g])[k] == x
      ensures x in Read(cat, grid) <==> Stands(grid[g], k)
    {
      EntryReadIff(cat, grid, g, k);
    }
  }

  lemma StandsBuilt(group: Group, saved: seq<string>, k: nat)
    requires k < |EntriesOf(group)|
    ensures Stands(BuildGroup(group, saved), k) <==>
      EntriesOf(group)[k] in saved && (1 <= k <= |group.events| ==> group.all !in saved)
  {
  }

  // ---------------------------------------------------------------------------
  // What is delivered
  // ---------------------------------------------------------------------------

  const SECURITY_PREFIX := "security:"

  predicate IsSecurity(f: string) { SECURITY_PREFIX <= f }

  /** A filter names an event by itself or by its leading segments. */
  predicate Names(f: string, eventType: string) { eventType == f || f + "." <= eventType }

  lemma NamesIff(f: string, eventType: string)
    ensures Names(f, eventType) <==> exists rest :: eventType == f + rest && (rest == "" || rest[0] == '.')
  {
    if Names(f, eventType) {
      var rest := eventType[|f|..];
      assert eventType == f + rest;
      if eventType != f { assert (f + ".")[|f|] == '.' && eventType[|f|] == '.'; }
    }
    if rest :| eventType == f + rest && (rest == "" || rest[0] == '.') {
      if rest != "" { assert eventType == f + "." + rest[1..]; }
    }
  }

  predicate MatchesFilter(eventType: string, filters: seq<string>) {
    filters == [] || exists i :: 0 <= i < |filters| && !IsSecurity(filters[i]) && Names(filters[i], eventType)
  }

  predicate MatchesSecurityFilter(eventType: string, filters: seq<string>) {
    exists i :: 0 <= i < |filters| && IsSecurity(filters[i]) && Names(filters[i][|SECURITY_PREFIX|..], eventType)
  }

  /**
   The catalogue's naming: an entry names an event of the catalogue only if it is that event or its group's entry, and
   an event is of its group's kind.
   */
  predicate WellNamed(cat: Catalogue) {
    && Distinct(cat)
    && (forall g, i :: 0 <= g < |cat| && 0 <= i < |cat[g].events| ==>
          Names(cat[g].all, cat[g].events[i]) && (IsSecurity(cat[g].all) <==> IsSecurity(cat[g].events[i])))
    && forall g, i, h, k ::
         (0 <= g < |cat| && 0 <= i < |cat[g].events| && 0 <= h < |cat| && 0 <= k < |EntriesOf(cat[h])|
          && Names(EntriesOf(cat[h])[k], cat[g].events[i])) ==> g == h && (k == 0 || k == i + 1)
  }

  /** The server delivers an event of the catalogue for this read-out. */
  predicate Delivered(event: string, filters: seq<string>) {
    if IsSecurity(event) then MatchesSecurityFilter(event[|SECURITY_PREFIX|..], filters)
    else MatchesFilter(event, filters)
  }

  lemma SecurityNames(f: string, e: string)
    requires IsSecurity(f) && IsSecurity(e)
    ensures Names(f[|SECURITY_PREFIX|..], e[|SECURITY_PREFIX|..]) <==> Names(f, e)
  {
    var n := |SECURITY_PREFIX|;
    assert f == SECURITY_PREFIX + f[n..] && e == SECURITY_PREFIX + e[n..];
    assert f + "." == SECURITY_PREFIX + (f[n..] + ".");
  }

  /**
   An event of the catalogue is delivered exactly when its box is ticked; but with no box ticked at all, every
   operational event is.
   */
  lemma DeliveredIffTicked(cat: Catalogue, grid: seq<Boxes>, g: nat, i: nat)
    requires Fits(cat, grid) && Inv(grid) && WellNamed(cat) && g < |cat| && i < |cat[g].events|
    ensures Delivered(cat[g].events[i], Read(cat, grid)) <==>
      EventTicked(grid, g, i) || (Read(cat, grid) == [] && !IsSecurity(cat[g].events[i]))
  {
    hide Read, Distinct, Names, IsSecurity;
    var filters, e := Read(cat, grid), cat[g].events[i];
    ReadOutCoversTicked(cat, grid, g, i);
    if EventTicked(grid, g, i) { TickedIsDelivered(cat, grid, g, i, filters); }
    if Delivered(e, filters) && filters != [] { DeliveredIsTicked(cat, grid, g, i, filters); }
  }

  lemma TickedIsDelivered(cat: Catalogue, grid: seq<Boxes>, g: nat, i: nat, filters: seq<string>)
    requires WellNamed(cat) && g < |cat| && i < |cat[g].events|
    requires cat[g].all in filters || cat[g].events[i] in filters
    ensures Delivered(cat[g].events[i], filters)
  {
    hide Distinct, IsSecurity;
    var e := cat[g].events[i];
    var f := if cat[g].all in filters then cat[g].all else e;
    var j :| 0 <= j < |filters| && filters[j] == f;
    assert Names(f, e) && (IsSecurity(f) <==> IsSecurity(e));
    if IsSecurity(e) { SecurityNames(f, e); }
  }

  lemma DeliveredIsTicked(cat: Catalogue, grid: seq<Boxes>, g: nat, i: nat, filters: seq<string>)
    requires Fits(cat, grid) && Inv(grid) && WellNamed(cat) && g < |cat| && i < |cat[g].events|
    requires filters == Read(cat, grid) && filters != [] && Delivered(cat[g].events[i], filters)
    ensures EventTicked(grid, g, i)
  {
    hide Read, Distinct, Names;
    var e := cat[g].events[i];
    var f: string;
    if IsSecurity(e) {
      var j :| 0 <= j < |filters| && IsSecurity(filters[j])
        && Names(filters[j][|SECURITY_PREFIX|..], e[|SECURITY_PREFIX|..]);
      f := filters[j];
      SecurityNames(f, e);
    } else {
      var j :| 0 <= j < |filters| && !IsSecurity(filters[j]) && Names(filters[j], e);
      f := filters[j];
    }
    assert f in Read(cat, grid) && Names(f, e);
    var h, k := ReadOnlyEntries(cat, grid, f);
    assert GroupInv(grid[g]);
  }

  /** The read-out is empty exactly when no box is ticked. */
  lemma EmptyIff(cat: Catalogue, grid: seq<Boxes>)
    requires Fits(cat, grid) && Inv(grid) && Distinct(cat)
    ensures Read(cat, grid) == [] <==>
      forall g :: 0 <= g < |cat| ==> !grid[g].all && !Any(grid[g].events) && !Any(grid[g].standalones)
  {
    hide Read, Distinct;
    if Read(cat, grid) != [] {
      var g, k := ReadOnlyEntries(cat, grid, Read(cat, grid)[0]);
      if k > |cat[g].events| { assert grid[g].standalones[k - 1 - |cat[g].events|]; }
      assert grid[g].all || Any(grid[g].events) || Any(grid[g].standalones);
    } else {
      forall g | 0 <= g < |cat| ensures !grid[g].all && !Any(grid[g].events) && !Any(grid[g].standalones) {
        EntryReadIff(cat, grid, g, 0);
        forall i | 0 <= i < |grid[g].events| ensures !grid[g].events[i] { EntryReadIff(cat, grid, g, i + 1); }
        forall i | 0 <= i < |grid[g].standalones| ensures !grid[g].standalones[i] {
          EntryReadIff(cat, grid, g, i + 1 + |grid[g].events|);
        }
      }
    }
  }
}
