/**
 The event catalogue frontend/js/admin.js ships: seven groups, each of a prefix and the names under it, and a proof that
 the results about event filters hold of it.

 That no name begins with another is shown by listing each group's names in ascending order, where it is enough to look
 at neighbours.
 */
module EventCatalogue {
  import opened EventFilter

  /** Full event names: a group's entry, a dot and the rest. */
  function Under(all: string, names: seq<string>): (events: seq<string>)
    ensures |events| == |names| && forall i :: 0 <= i < |names| ==> events[i] == all + "." + names[i]
  {
    seq(|names|, i requires 0 <= i < |names| => all + "." + names[i])
  }

  const AUTH_EVENTS := [
    "login.success", "login.failure", "login.blocked", "logout", "stepup.success", "stepup.failure",
    "token.refreshed", "token.revoked", "mfa.enrolled", "mfa.challenged", "mfa.failed", "password.changed",
    "recovery.used", "session.force_terminated", "oidc.login", "ldap.login", "service_account.authenticated",
    "service_account.rejected", "unauthorized", "forbidden", "probe_404", "probe_405", "rate_limited"]

  const FILE_EVENTS := [
    "upload.started", "upload.completed", "upload.aborted", "download.started", "download.completed",
    "download.aborted", "delete", "move", "rename", "share.created", "share.revoked", "share.accessed",
    "lock.applied", "lock.cleared"]

  const ADMIN_EVENTS := [
    "user.suspended", "user.activated", "user.role_changed", "emergency_revocation", "policy.changed",
    "team.member_added", "team.member_removed", "team_key.rotation_started", "team_key.rotation_completed",
    "siem.config_changed", "bootstrap.completed"]

  const SYSTEM_EVENTS := [
    "startup", "api_key.expiring_soon", "api_key.expired"]

  const STORAGE_EVENTS := [
    "volume.capacity_warning", "volume.capacity_ok", "migration.failed"]

  const UPLOAD_EVENTS := [
    "quota.warning", "quota.ok"]

  const SCANNING_EVENTS := [
    "av.infected"]

  /** The shipped groups, in the order they are shown. */
  const CATALOGUE: Catalogue := [
    Group("security:auth", Under("security:auth", AUTH_EVENTS), []),
    Group("security:file", Under("security:file", FILE_EVENTS), []),
    Group("security:admin", Under("security:admin", ADMIN_EVENTS), ["security:user.registered"]),
    Group("system", Under("system", SYSTEM_EVENTS), []),
    Group("storage", Under("storage", STORAGE_EVENTS), []),
    Group("upload", Under("upload", UPLOAD_EVENTS), []),
    Group("file", Under("file", SCANNING_EVENTS), [])]

  // ---------------------------------------------------------------------------
  // Names that go different ways
  // ---------------------------------------------------------------------------

  /** The names part at d, where x has the smaller letter. */
  predicate UpAt(x: string, y: string, d: nat) {
    d < |x| && d < |y| && (forall k :: 0 <= k < d ==> x[k] == y[k]) && x[d] < y[d]
  }

  ghost predicate Up(x: string, y: string) { exists d: nat :: UpAt(x, y, d) }

  /** Neither name is the other, or begins with the other. */
  ghost predicate Clash(x: string, y: string) { exists d: nat :: d < |x| && d < |y| && x[d] != y[d] }

  lemma UpTransitive(x: string, y: string, z: string)
    requires Up(x, y) && Up(y, z)
    ensures Up(x, z)
  {
    var d: nat :| UpAt(x, y, d);
    var e: nat :| UpAt(y, z, e);
    assert UpAt(x, z, if d < e then d else e);
  }

  lemma UpClashes(x: string, y: string)
    requires Up(x, y)
    ensures Clash(x, y) && Clash(y, x)
  {
    var d: nat :| UpAt(x, y, d);
    assert y[d] != x[d];
  }

  lemma ClashNames(x: string, y: string)
    requires Clash(x, y)
    ensures x != y && !Names(x, y) && !Names(y, x)
  {
    var d: nat :| d < |x| && d < |y| && x[d] != y[d];
    assert (x + ".")[d] == x[d] && (y + ".")[d] == y[d];
  }

  lemma ClashGrows(x: string, y: string, s: string, t: string)
    requires Clash(x, y)
    ensures Clash(x + s, y + t) && Clash(x, y + t) && Clash(x + s, y)
  {
    var d: nat :| d < |x| && d < |y| && x[d] != y[d];
    assert (x + s)[d] == x[d] && (y + t)[d] == y[d];
  }

  lemma ClashUnder(all: string, x: string, y: string)
    requires Clash(x, y)
    ensures Clash(all + "." + x, all + "." + y)
  {
    var d: nat :| d < |x| && d < |y| && x[d] != y[d];
    var n := |all| + 1 + d;
    assert (all + "." + x)[n] == x[d] && (all + "." + y)[n] == y[d];
  }

  ghost predicate Apart(names: seq<string>) {
    forall i, j :: 0 <= i < |names| && 0 <= j < |names| && i != j ==> Clash(names[i], names[j])
  }

  predicate Neighbours(names: seq<string>, order: seq<nat>, at: seq<nat>, r: nat) {
    && r + 1 < |order| && r < |at| && order[r] < |names| && order[r + 1] < |names|
    && UpAt(names[order[r]], names[order[r + 1]], at[r])
  }

  /** order lists all names upwards, neighbours part at the given places, and rank finds each name in it. */
  predicate Ascending(names: seq<string>, order: seq<nat>, at: seq<nat>, rank: seq<nat>) {
    && |order| == |names| == |rank| && |names| <= |at| + 1
    && (forall r :: 0 <= r < |order| ==> order[r] < |names|)
    && (forall r :: 0 <= r < |order| - 1 ==> Neighbours(names, order, at, r))
    && (forall i :: 0 <= i < |rank| ==> rank[i] < |order| && order[rank[i]] == i)
  }

  lemma {:induction false} ChainUp(names: seq<string>, order: seq<nat>, at: seq<nat>, rank: seq<nat>, r: nat, s: nat)
    requires Ascending(names, order, at, rank) && r < s < |order|
    ensures Up(names[order[r]], names[order[s]])
    decreases s
  {
    assert Neighbours(names, order, at, s - 1) && UpAt(names[order[s - 1]], names[order[s]], at[s - 1]);
    if r < s - 1 {
      ChainUp(names, order, at, rank, r, s - 1);
      UpTransitive(names[order[r]], names[order[s - 1]], names[order[s]]);
    }
  }

  lemma AscendingIsApart(names: seq<string>, order: seq<nat>, at: seq<nat>, rank: seq<nat>)
    requires Ascending(names, order, at, rank)
    ensures Apart(names)
  {
    forall i, j | 0 <= i < |names| && 0 <= j < |names| && i != j ensures Clash(names[i], names[j]) {
      if rank[i] < rank[j] {
        ChainUp(names, order, at, rank, rank[i], rank[j]);
        UpClashes(names[i], names[j]);
      } else {
        ChainUp(names, order, at, rank, rank[j], rank[i]);
        UpClashes(names[j], names[i]);
      }
    }
  }

  // ---------------------------------------------------------------------------
  // Catalogues made of groups of names
  // ---------------------------------------------------------------------------

  function Alls(cat: Catalogue): (alls: seq<string>)
    ensures |alls| == |cat| && forall g :: 0 <= g < |cat| ==> alls[g] == cat[g].all
  {
    seq(|cat|, g requires 0 <= g < |cat| => cat[g].all)
  }

  /** names[g] are the names of group g; at most one group has a standalone entry, and it goes its own way. */
  ghost predicate Orderly(cat: Catalogue, names: seq<seq<string>>, odd: string) {
    && |names| == |cat| && Apart(Alls(cat))
    && (forall g :: 0 <= g < |cat| ==>
          && cat[g].events == Under(cat[g].all, names[g]) && Apart(names[g])
          && |cat[g].standalones| <= 1 && (cat[g].standalones != [] ==> cat[g].standalones == [odd])
          && Clash(odd, cat[g].all)
          && (IsSecurity(cat[g].all) || Clash(SECURITY_PREFIX, cat[g].all)))
    && forall g, h :: 0 <= g < |cat| && 0 <= h < |cat| && cat[g].standalones != [] && cat[h].standalones != [] ==>
      g == h
  }

  lemma EventsClash(cat: Catalogue, names: seq<seq<string>>, odd: string, g: nat, i: nat, h: nat, j: nat)
    requires Orderly(cat, names, odd) && g < |cat| && i < |cat[g].events| && h < |cat| && j < |cat[h].events|
    requires g != h || i != j
    ensures Clash(cat[h].events[j], cat[g].events[i])
  {
    hide IsSecurity;
    var x, y := names[h][j], names[g][i];
    if g == h {
      ClashUnder(cat[g].all, x, y);
    } else {
      assert Clash(Alls(cat)[h], Alls(cat)[g]);
      ClashGrows(cat[h].all, cat[g].all, "." + x, "." + y);
      assert cat[h].all + "." + x == cat[h].all + ("." + x) && cat[g].all + "." + y == cat[g].all + ("." + y);
    }
  }

  lemma GroupNames(cat: Catalogue, names: seq<seq<string>>, odd: string, h: nat, g: nat, i: nat)
    requires Orderly(cat, names, odd) && g < |cat| && i < |cat[g].events| && h < |cat|
    ensures if g == h then Names(cat[h].all, cat[g].events[i]) && |cat[h].all| < |cat[g].events[i]|
            else Clash(cat[h].all, cat[g].events[i])
    ensures Clash(odd, cat[g].events[i])
    ensures IsSecurity(cat[g].all) <==> IsSecurity(cat[g].events[i])
  {
    var all, rest := cat[g].all, "." + names[g][i];
    assert cat[g].events[i] == all + rest;
    ClashGrows(odd, all, "", rest);
    assert odd + "" == odd;
    if g == h {
      assert (all + rest)[..|all| + 1] == all + ".";
    } else {
      assert Clash(Alls(cat)[h], Alls(cat)[g]);
      ClashGrows(cat[h].all, all, "", rest);
    }
    if IsSecurity(all) {
      assert (all + rest)[..|SECURITY_PREFIX|] == all[..|SECURITY_PREFIX|];
    } else {
      ClashGrows(SECURITY_PREFIX, all, "", rest);
      NotSecurity(all + rest);
    }
  }

  lemma NotSecurity(x: string)
    requires Clash(SECURITY_PREFIX, x)
    ensures !IsSecurity(x)
  {
    var d: nat :| d < |SECURITY_PREFIX| && d < |x| && SECURITY_PREFIX[d] != x[d];
  }

  lemma EntryNames(cat: Catalogue, names: seq<seq<string>>, odd: string, g: nat, i: nat, h: nat, k: nat)
    requires Orderly(cat, names, odd) && g < |cat| && i < |cat[g].events| && h < |cat| && k < |EntriesOf(cat[h])|
    ensures Names(EntriesOf(cat[h])[k], cat[g].events[i]) <==> g == h && (k == 0 || k == i + 1)
    ensures EntriesOf(cat[h])[k] == cat[g].events[i] <==> g == h && k == i + 1
  {
    hide Names, Clash, Orderly;
    var f, e := EntriesOf(cat[h])[k], cat[g].events[i];
    if k == 0 {
      GroupNames(cat, names, odd, h, g, i);
      if g != h { ClashNames(f, e); }
    } else if k <= |cat[h].events| {
      assert f == cat[h].events[k - 1];
      if g == h && k == i + 1 { SelfNames(e); }
      else {
        EventsClash(cat, names, odd, g, i, h, k - 1);
        ClashNames(f, e);
      }
    } else {
      StandaloneIsOdd(cat, names, odd, h, k);
      GroupNames(cat, names, odd, h, g, i);
      ClashNames(odd, e);
    }
  }

  lemma SelfNames(e: string)
    ensures Names(e, e)
  {
  }

  lemma StandaloneIsOdd(cat: Catalogue, names: seq<seq<string>>, odd: string, h: nat, k: nat)
    requires Orderly(cat, names, odd) && h < |cat| && |cat[h].events| < k < |EntriesOf(cat[h])|
    ensures EntriesOf(cat[h])[k] == odd && k == |cat[h].events| + 1 && cat[h].standalones != []
  {
  }

  lemma EntriesDiffer(cat: Catalogue, names: seq<seq<string>>, odd: string, g: nat, k: nat, h: nat, l: nat)
    requires Orderly(cat, names, odd) && g < |cat| && k < |EntriesOf(cat[g])| && h < |cat| && l < |EntriesOf(cat[h])|
    requires EntriesOf(cat[g])[k] == EntriesOf(cat[h])[l]
    ensures g == h && k == l
  {
    hide Names, EntriesOf;
    EntryKinds(cat[g], k);
    EntryKinds(cat[h], l);
    if 1 <= k <= |cat[g].events| {
      EntryNames(cat, names, odd, g, k - 1, h, l);
    } else if 1 <= l <= |cat[h].events| {
      EntryNames(cat, names, odd, h, l - 1, g, k);
    } else {
      if k != 0 { StandaloneIsOdd(cat, names, odd, g, k); }
      if l != 0 { StandaloneIsOdd(cat, names, odd, h, l); }
      if k == 0 && l == 0 && g != h { ClashNames(Alls(cat)[g], Alls(cat)[h]); }
      if k == 0 && l != 0 { ClashNames(odd, cat[g].all); }
      if k != 0 && l == 0 { ClashNames(odd, cat[h].all); }
    }
  }

  lemma EntryKinds(group: Group, k: nat)
    requires k < |EntriesOf(group)|
    ensures k == 0 ==> EntriesOf(group)[k] == group.all
    ensures 1 <= k <= |group.events| ==> EntriesOf(group)[k] == group.events[k - 1]
  {
  }

  lemma OrderlyIsWellNamed(cat: Catalogue, names: seq<seq<string>>, odd: string)
    requires Orderly(cat, names, odd)
    ensures WellNamed(cat)
  {
    hide Orderly, Names, IsSecurity;
    forall g, h, k, l | 0 <= g < |cat| && 0 <= h < |cat| && 0 <= k < |EntriesOf(cat[g])| && 0 <= l < |EntriesOf(cat[h])|
      && EntriesOf(cat[g])[k] == EntriesOf(cat[h])[l] ensures g == h && k == l
    {
      EntriesDiffer(cat, names, odd, g, k, h, l);
    }
    forall g, i | 0 <= g < |cat| && 0 <= i < |cat[g].events|
      ensures Names(cat[g].all, cat[g].events[i]) && (IsSecurity(cat[g].all) <==> IsSecurity(cat[g].events[i]))
    {
      GroupNames(cat, names, odd, g, g, i);
    }
    forall g, i, h, k | 0 <= g < |cat| && 0 <= i < |cat[g].events| && 0 <= h < |cat| && 0 <= k < |EntriesOf(cat[h])|
      && Names(EntriesOf(cat[h])[k], cat[g].events[i]) ensures g == h && (k == 0 || k == i + 1)
    {
      EntryNames(cat, names, odd, g, i, h, k);
    }
  }

  // ---------------------------------------------------------------------------
  // The shipped catalogue
  // ---------------------------------------------------------------------------

  const AUTH_ORDER: seq<nat> := [19, 15, 2, 1, 0, 3, 9, 8, 10, 14, 11, 20, 21, 22, 12, 16, 17, 13, 5, 4, 6, 7, 18]
  const AUTH_AT: seq<nat> := [0, 1, 6, 6, 3, 0, 4, 4, 0, 0, 1, 8, 0, 1, 0, 16, 2, 1, 7, 0, 8, 0]
  const AUTH_RANK: seq<nat> := [4, 3, 2, 5, 19, 18, 20, 21, 7, 6, 8, 10, 14, 17, 9, 1, 15, 16, 22, 0, 11, 12, 13]

  lemma AuthNeighbours0(r: nat)
    requires 0 <= r < 5
    ensures Neighbours(AUTH_EVENTS, AUTH_ORDER, AUTH_AT, r)
  {
  }

  lemma AuthNeighbours1(r: nat)
    requires 5 <= r < 10
    ensures Neighbours(AUTH_EVENTS, AUTH_ORDER, AUTH_AT, r)
  {
  }

  lemma AuthNeighbours2(r: nat)
    requires 10 <= r < 15
    ensures Neighbours(AUTH_EVENTS, AUTH_ORDER, AUTH_AT, r)
  {
  }

  lemma AuthNeighbours3(r: nat)
    requires 15 <= r < 20
    ensures Neighbours(AUTH_EVENTS, AUTH_ORDER, AUTH_AT, r)
  {
  }

  lemma AuthNeighbours4(r: nat)
    requires 20 <= r < 22
    ensures Neighbours(AUTH_EVENTS, AUTH_ORDER, AUTH_AT, r)
  {
  }

  lemma AuthNamesApart()
    ensures Apart(AUTH_EVENTS)
  {
    hide Neighbours, Apart;
    forall r | 0 <= r < |AUTH_ORDER| - 1 ensures Neighbours(AUTH_EVENTS, AUTH_ORDER, AUTH_AT, r) {
      if r < 5 { AuthNeighbours0(r); }
      else if r < 10 { AuthNeighbours1(r); }
      else if r < 15 { AuthNeighbours2(r); }
      else if r < 20 { AuthNeighbours3(r); }
      else { AuthNeighbours4(r); }
    }
    AscendingIsApart(AUTH_EVENTS, AUTH_ORDER, AUTH_AT, AUTH_RANK);
  }

  const FILE_ORDER: seq<nat> := [6, 5, 4, 3, 12, 13, 7, 8, 11, 9, 10, 2, 1, 0]
  const FILE_AT: seq<nat> := [1, 9, 9, 0, 5, 0, 0, 0, 6, 6, 0, 7, 7]
  const FILE_RANK: seq<nat> := [13, 12, 11, 3, 2, 1, 0, 6, 7, 9, 10, 8, 4, 5]

  lemma FileNeighbours0(r: nat)
    requires 0 <= r < 5
    ensures Neighbours(FILE_EVENTS, FILE_ORDER, FILE_AT, r)
  {
  }

  lemma FileNeighbours1(r: nat)
    requires 5 <= r < 10
    ensures Neighbours(FILE_EVENTS, FILE_ORDER, FILE_AT, r)
  {
  }

  lemma FileNeighbours2(r: nat)
    requires 10 <= r < 13
    ensures Neighbours(FILE_EVENTS, FILE_ORDER, FILE_AT, r)
  {
  }

  lemma FileNamesApart()
    ensures Apart(FILE_EVENTS)
  {
    hide Neighbours, Apart;
    forall r | 0 <= r < |FILE_ORDER| - 1 ensures Neighbours(FILE_EVENTS, FILE_ORDER, FILE_AT, r) {
      if r < 5 { FileNeighbours0(r); }
      else if r < 10 { FileNeighbours1(r); }
      else { FileNeighbours2(r); }
    }
    AscendingIsApart(FILE_EVENTS, FILE_ORDER, FILE_AT, FILE_RANK);
  }

  const ADMIN_ORDER: seq<nat> := [10, 3, 4, 9, 5, 6, 8, 7, 1, 2, 0]
  const ADMIN_AT: seq<nat> := [0, 0, 0, 0, 12, 4, 18, 0, 5, 5]
  const ADMIN_RANK: seq<nat> := [10, 8, 9, 1, 2, 4, 5, 7, 6, 3, 0]

  lemma AdminNeighbours0(r: nat)
    requires 0 <= r < 5
    ensures Neighbours(ADMIN_EVENTS, ADMIN_ORDER, ADMIN_AT, r)
  {
  }

  lemma AdminNeighbours1(r: nat)
    requires 5 <= r < 10
    ensures Neighbours(ADMIN_EVENTS, ADMIN_ORDER, ADMIN_AT, r)
  {
  }

  lemma AdminNamesApart()
    ensures Apart(ADMIN_EVENTS)
  {
    hide Neighbours, Apart;
    forall r | 0 <= r < |ADMIN_ORDER| - 1 ensures Neighbours(ADMIN_EVENTS, ADMIN_ORDER, ADMIN_AT, r) {
      if r < 5 { AdminNeighbours0(r); }
      else { AdminNeighbours1(r); }
    }
    AscendingIsApart(ADMIN_EVENTS, ADMIN_ORDER, ADMIN_AT, ADMIN_RANK);
  }

  lemma SystemNamesApart()
    ensures Apart(SYSTEM_EVENTS)
  {
    AscendingIsApart(SYSTEM_EVENTS, [2, 1, 0], [13, 0], [2, 1, 0]);
  }

  lemma StorageNamesApart()
    ensures Apart(STORAGE_EVENTS)
  {
    AscendingIsApart(STORAGE_EVENTS, [2, 1, 0], [0, 16], [2, 1, 0]);
  }

  lemma UploadNamesApart()
    ensures Apart(UPLOAD_EVENTS)
  {
    AscendingIsApart(UPLOAD_EVENTS, [1, 0], [6], [1, 0]);
  }

  lemma ScanningNamesApart()
    ensures Apart(SCANNING_EVENTS)
  {
    AscendingIsApart(SCANNING_EVENTS, [0], [], [0]);
  }

  lemma GroupNamesApart()
    ensures Apart(Alls(CATALOGUE))
  {
    AscendingIsApart(Alls(CATALOGUE), [6, 2, 0, 1, 4, 3, 5], [0, 10, 9, 1, 1, 0], [2, 3, 1, 5, 4, 6, 0]);
  }

  const NAMES := [AUTH_EVENTS, FILE_EVENTS, ADMIN_EVENTS, SYSTEM_EVENTS, STORAGE_EVENTS, UPLOAD_EVENTS, SCANNING_EVENTS]

  lemma OddOneOut(g: nat)
    requires g < |CATALOGUE|
    ensures Clash("security:user.registered", CATALOGUE[g].all)
    ensures IsSecurity(CATALOGUE[g].all) || Clash(SECURITY_PREFIX, CATALOGUE[g].all)
  {
    var all := CATALOGUE[g].all;
    if g < 3 {
      assert "security:user.registered"[9] != all[9];
    } else {
      assert "security:user.registered"[1] != all[1] && SECURITY_PREFIX[1] != all[1];
    }
  }

  /** The shipped catalogue is well named, so every result about event filters holds of the real dialog. */
  lemma ShippedCatalogueIsWellNamed()
    ensures WellNamed(CATALOGUE)
  {
    hide Apart, Clash, IsSecurity, WellNamed;
    AuthNamesApart();
    FileNamesApart();
    AdminNamesApart();
    SystemNamesApart();
    StorageNamesApart();
    UploadNamesApart();
    ScanningNamesApart();
    GroupNamesApart();
    forall g | 0 <= g < |CATALOGUE| ensures Clash("security:user.registered", CATALOGUE[g].all)
      && (IsSecurity(CATALOGUE[g].all) || Clash(SECURITY_PREFIX, CATALOGUE[g].all))
    {
      OddOneOut(g);
    }
    OrderlyIsWellNamed(CATALOGUE, NAMES, "security:user.registered");
  }
}
