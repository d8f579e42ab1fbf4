/**
 The permission-flag rename and split migration of backend/app/database.py, run on every start.

 Tables are maps and sets; one SQL statement is one step.  role_permissions.flag and .role_id are
 foreign keys (backend/app/sql/setup/schema.sql), so a step can fail, and deleting a flag definition
 cascades to the grants that use it.
 */
module PermissionMigration {
  import opened Options

  datatype Flag =
    // retired by the migration
    | CanViewAdminPanel | CanManageSystemSettings | CanManageOrgSettings | CanManageInvites | CanManageUserMfa
    | CanManageTeams | CanManageTeamMembers | CanManageRoles | CanCreateRoles | CanCreateCrossTeamRoles
    | CanViewDiskUsage | CanViewAuditLog | CanExportAuditLog | CanDefinePolicyFields | CanManageEscrow
    | CanManageSharing | CanManageServiceAccounts | CanCopyFiles | CanCreateLinkShares | CanCreateUserShares
    | CanCreateUploadGrants | CanShareFolders
    | CanManageUsers | CanManageIntegrations | CanManagePolicies | CanAccessAllFiles
    // introduced by the migration
    | AdminPanelView | SystemSettingsManage | OrgSettingsManage | UsersView | UsersManage | UsersDelete
    | UsersInviteManage | UsersMfaManage | TeamsManage | TeamsMembersManage | RolesManage | RolesCreate
    | RolesCrossTeamCreate | DiskUsageView | AuditLogView | AuditLogExport | IntegrationsIdpManage
    | IntegrationsNotificationsManage | PoliciesView | PoliciesManage | PoliciesFieldsManage | FilesAccessAllRead
    | FilesAccessAllWrite | FilesCopy | EscrowManage | SharingManage | ServiceAccountsManage | SharesLinkCreate
    | SharesUserCreate | SharesUploadGrantCreate | SharesFolderCreate
    // touched by the back-fill only
    | CanActAsEscrow
    // every other flag name
    | Other(name: string)

  /** A role_permissions row without its key. */
  datatype Grant = Grant(value: string, isLocked: bool, lockedMinTier: Option<int>)
  datatype Key = Key(role: string, flag: Flag)

  datatype Tables = Tables(
    roles: set<string>,             // roles.id
    definitions: set<Flag>,         // role_permission_flags.flag
    grants: map<Key, Grant>,        // role_permissions
    settings: map<string, string>)  // admin_settings

  /** What PostgreSQL's foreign keys keep true of the stored rows. */
  ghost predicate Integrity(t: Tables) {
    forall k :: k in t.grants ==> k.role in t.roles && k.flag in t.definitions
  }

  // ---------------------------------------------------------------------------
  // Statements
  // ---------------------------------------------------------------------------

  datatype Statement =
    | InsertDefinitions(flags: seq<Flag>)
    | CopyGrants(from: Flag, to: Flag)
    | DeleteGrants(flag: Flag)
    | DeleteDefinition(flag: Flag)
    | InsertGrant(role: string, flag: Flag, value: string)
    | InsertSetting(key: string, value: string)

  /** A new row has the table's defaults in the columns the script does not name. */
  function Fresh(value: string): Grant { Grant(value, false, None) }

  /** The rows a copy adds: a role's value moves over unless the role has its own. */
  function CopiedRows(t: Tables, from: Flag, to: Flag): map<Key, Grant> {
    map k | k in (set s | s in t.grants && s.flag == from :: Key(s.role, to))
            && k !in t.grants && Key(k.role, from) in t.grants :: Fresh(t.grants[Key(k.role, from)].value)
  }

  lemma CopiedRow(t: Tables, from: Flag, to: Flag, k: Key)
    ensures k in CopiedRows(t, from, to) <==> k.flag == to && k !in t.grants && Key(k.role, from) in t.grants
  {
    if k.flag == to && k !in t.grants && Key(k.role, from) in t.grants {
      var s := Key(k.role, from);
      assert s in t.grants && s.flag == from && Key(s.role, to) == k;
    }
  }

  /** One statement; None is a foreign-key violation. */
  function Execute(s: Statement, t: Tables): Option<Tables> {
    match s
    case InsertDefinitions(flags) =>
      Some(t.(definitions := t.definitions + set f | f in flags))
    case CopyGrants(from, to) =>
      var rows := CopiedRows(t, from, to);
      if rows == map[] || to in t.definitions then Some(t.(grants := t.grants + rows)) else None
    case DeleteGrants(flag) =>
      Some(t.(grants := map k | k in t.grants && k.flag != flag :: t.grants[k]))
    case DeleteDefinition(flag) =>
      Some(t.(definitions := t.definitions - {flag},
              grants := map k | k in t.grants && k.flag != flag :: t.grants[k]))
    case InsertGrant(role, flag, value) =>
      if Key(role, flag) in t.grants then Some(t)
      else if role in t.roles && flag in t.definitions then
        Some(t.(grants := t.grants[Key(role, flag) := Fresh(value)]))
      else None
    case InsertSetting(key, value) =>
      Some(if key in t.settings then t else t.(settings := t.settings[key := value]))
  }

  function Run(script: seq<Statement>, t: Tables): Option<Tables> {
    if script == [] then Some(t)
    else
      var next := Execute(script[0], t);
      if next.None? then None else Run(script[1..], next.value)
  }

  // ---------------------------------------------------------------------------
  // The script
  // ---------------------------------------------------------------------------

  const NEW_ADMIN_FLAGS: seq<Flag> := [
    AdminPanelView, SystemSettingsManage, OrgSettingsManage, UsersView, UsersManage, UsersDelete,
    UsersInviteManage, UsersMfaManage, TeamsManage, TeamsMembersManage, RolesManage, RolesCreate,
    RolesCrossTeamCreate, DiskUsageView, AuditLogView, AuditLogExport]

  const NEW_FEATURE_FLAGS: seq<Flag> := [
    IntegrationsIdpManage, IntegrationsNotificationsManage, PoliciesView, PoliciesManage, PoliciesFieldsManage,
    FilesAccessAllRead, FilesAccessAllWrite, FilesCopy, EscrowManage, SharingManage, ServiceAccountsManage,
    SharesLinkCreate, SharesUserCreate, SharesUploadGrantCreate, SharesFolderCreate]

  /** The definitions inserted first, in order. */
  const NEW_FLAGS: seq<Flag> := NEW_ADMIN_FLAGS + NEW_FEATURE_FLAGS

  /** The retired flags, in the order the script handles them. */
  const RETIRED_ORDER: seq<Flag> := [
    CanViewAdminPanel, CanManageSystemSettings, CanManageOrgSettings, CanManageInvites, CanManageUserMfa,
    CanManageTeams, CanManageTeamMembers, CanManageRoles, CanCreateRoles, CanCreateCrossTeamRoles,
    CanViewDiskUsage, CanViewAuditLog, CanExportAuditLog, CanDefinePolicyFields, CanManageEscrow,
    CanManageSharing, CanManageServiceAccounts, CanCopyFiles, CanCreateLinkShares, CanCreateUserShares,
    CanCreateUploadGrants, CanShareFolders,
    CanManageUsers, CanManageIntegrations, CanManagePolicies, CanAccessAllFiles]

  /** Simple renames. */
  function RenamedTo(was: Flag): Option<Flag> {
    match was
    case CanViewAdminPanel => Some(AdminPanelView)
    case CanManageSystemSettings => Some(SystemSettingsManage)
    case CanManageOrgSettings => Some(OrgSettingsManage)
    case CanManageInvites => Some(UsersInviteManage)
    case CanManageUserMfa => Some(UsersMfaManage)
    case CanManageTeams => Some(TeamsManage)
    case CanManageTeamMembers => Some(TeamsMembersManage)
    case CanManageRoles => Some(RolesManage)
    case CanCreateRoles => Some(RolesCreate)
    case CanCreateCrossTeamRoles => Some(RolesCrossTeamCreate)
    case CanViewDiskUsage => Some(DiskUsageView)
    case CanViewAuditLog => Some(AuditLogView)
    case CanExportAuditLog => Some(AuditLogExport)
    case CanDefinePolicyFields => Some(PoliciesFieldsManage)
    case CanManageEscrow => Some(EscrowManage)
    case CanManageSharing => Some(SharingManage)
    case CanManageServiceAccounts => Some(ServiceAccountsManage)
    case CanCopyFiles => Some(FilesCopy)
    case CanCreateLinkShares => Some(SharesLinkCreate)
    case CanCreateUserShares => Some(SharesUserCreate)
    case CanCreateUploadGrants => Some(SharesUploadGrantCreate)
    case CanShareFolders => Some(SharesFolderCreate)
    case _ => None
  }

  /** Flags split into several. */
  function SplitInto(was: Flag): seq<Flag> {
    match was
    case CanManageUsers => [UsersView, UsersManage, UsersDelete]
    case CanManageIntegrations => [IntegrationsIdpManage, IntegrationsNotificationsManage]
    case CanManagePolicies => [PoliciesView, PoliciesManage]
    case CanAccessAllFiles => [FilesAccessAllRead, FilesAccessAllWrite]
    case _ => []
  }

  /** The flags the script copies a retired flag's grants to, in order. */
  function Successors(was: Flag): seq<Flag> {
    if RenamedTo(was).Some? then [RenamedTo(was).value] else SplitInto(was)
  }

  /** Which flags go, which come, and how they correspond.  The script is generated from such a plan. */
  datatype Plan = Plan(
    introduced: seq<Flag>,                // new definitions, in the order they are inserted
    order: seq<Flag>,                     // retired flags, in the order they are handled
    successors: Flag -> seq<Flag>,
    predecessor: Flag -> Option<Flag>)
  {
    predicate Retired(f: Flag) { successors(f) != [] }

    predicate Introduced(f: Flag) { predecessor(f).Some? }

    ghost predicate Valid() {
      && (forall f :: f in introduced <==> Introduced(f))
      && (forall f :: f in order <==> Retired(f))
      && (forall f, g :: f in successors(g) <==> predecessor(f) == Some(g))
      && (forall f :: Introduced(f) ==> !Retired(f))
      && !Introduced(CanActAsEscrow) && !Retired(CanActAsEscrow)
    }

    function Copies(was: Flag, news: seq<Flag>): seq<Statement> {
      if news == [] then [] else [CopyGrants(was, news[0])] + Copies(was, news[1..])
    }

    function Group(was: Flag): seq<Statement> {
      Copies(was, successors(was)) + [DeleteGrants(was), DeleteDefinition(was)]
    }

    function Groups(retired: seq<Flag>): seq<Statement> {
      if retired == [] then [] else Group(retired[0]) + Groups(retired[1..])
    }

    function Body(): seq<Statement> { [InsertDefinitions(introduced)] + Groups(order) }

    function Seeds(): seq<Statement> {
      [InsertGrant("server_admin", CanActAsEscrow, "1"), InsertSetting("link_share_max_expiry_days", "0")]
    }

    function Script(): seq<Statement> { Body() + Seeds() }
  }

  const PLAN: Plan := Plan(NEW_FLAGS, RETIRED_ORDER, Successors, Predecessor)

  // ---------------------------------------------------------------------------
  // What the migration should achieve, said without the script
  // ---------------------------------------------------------------------------

  /** The one retired flag a new flag takes over from. */
  function Predecessor(f: Flag): Option<Flag> {
    match f
    case AdminPanelView => Some(CanViewAdminPanel)
    case SystemSettingsManage => Some(CanManageSystemSettings)
    case OrgSettingsManage => Some(CanManageOrgSettings)
    case UsersView => Some(CanManageUsers)
    case UsersManage => Some(CanManageUsers)
    case UsersDelete => Some(CanManageUsers)
    case UsersInviteManage => Some(CanManageInvites)
    case UsersMfaManage => Some(CanManageUserMfa)
    case TeamsManage => Some(CanManageTeams)
    case TeamsMembersManage => Some(CanManageTeamMembers)
    case RolesManage => Some(CanManageRoles)
    case RolesCreate => Some(CanCreateRoles)
    case RolesCrossTeamCreate => Some(CanCreateCrossTeamRoles)
    case DiskUsageView => Some(CanViewDiskUsage)
    case AuditLogView => Some(CanViewAuditLog)
    case AuditLogExport => Some(CanExportAuditLog)
    case IntegrationsIdpManage => Some(CanManageIntegrations)
    case IntegrationsNotificationsManage => Some(CanManageIntegrations)
    case PoliciesView => Some(CanManagePolicies)
    case PoliciesManage => Some(CanManagePolicies)
    case PoliciesFieldsManage => Some(CanDefinePolicyFields)
    case FilesAccessAllRead => Some(CanAccessAllFiles)
    case FilesAccessAllWrite => Some(CanAccessAllFiles)
    case FilesCopy => Some(CanCopyFiles)
    case EscrowManage => Some(CanManageEscrow)
    case SharingManage => Some(CanManageSharing)
    case ServiceAccountsManage => Some(CanManageServiceAccounts)
    case SharesLinkCreate => Some(CanCreateLinkShares)
    case SharesUserCreate => Some(CanCreateUserShares)
    case SharesUploadGrantCreate => Some(CanCreateUploadGrants)
    case SharesFolderCreate => Some(CanShareFolders)
    case _ => None
  }

  /** The grant a role ends up with for a flag: its own, else its predecessor's value, else the back-fill. */
  function Outcome(p: Plan, t: Tables, k: Key): Option<Grant> {
    if p.Retired(k.flag) then None
    else if k in t.grants then Some(t.grants[k])
    else if p.Introduced(k.flag) && Key(k.role, p.predecessor(k.flag).value) in t.grants then
      Some(Fresh(t.grants[Key(k.role, p.predecessor(k.flag).value)].value))
    else if k == Key("server_admin", CanActAsEscrow) then Some(Fresh("1"))
    else None
  }

  /** t1 is the migrated form of t0. */
  ghost predicate Migrated(p: Plan, t0: Tables, t1: Tables) {
    && t1.roles == t0.roles
    && (forall f :: f in t1.definitions <==> (f in t0.definitions || p.Introduced(f)) && !p.Retired(f))
    && (forall k :: (if k in t1.grants then Some(t1.grants[k]) else None) == Outcome(p, t0, k))
    && t1.settings == SeedSetting(t0.settings)
  }

  function SeedSetting(settings: map<string, string>): map<string, string> {
    if "link_share_max_expiry_days" in settings then settings
    else settings["link_share_max_expiry_days" := "0"]
  }

  /** The back-fill's foreign keys: both sides have to be there before the migration starts. */
  predicate EscrowReady(t: Tables) {
    "server_admin" in t.roles && CanActAsEscrow in t.definitions
  }

  // ---------------------------------------------------------------------------
  // Single statements
  // ---------------------------------------------------------------------------

  /** Two starting points the migration cannot tell apart. */
  ghost predicate SameOutcome(p: Plan, t0: Tables, t1: Tables) {
    && t1.roles == t0.roles
    && (forall f :: !p.Retired(f) ==>
          ((f in t0.definitions || p.Introduced(f)) <==> (f in t1.definitions || p.Introduced(f))))
    && (forall k :: Outcome(p, t0, k) == Outcome(p, t1, k))
    && SeedSetting(t1.settings) == SeedSetting(t0.settings)
  }

  /** When a statement of the script leaves the outcome alone. */
  ghost predicate Safe(p: Plan, s: Statement, t: Tables) {
    match s
    case InsertDefinitions(flags) => flags == p.introduced
    case CopyGrants(from, to) => p.predecessor(to) == Some(from) && to in t.definitions
    case DeleteGrants(flag) =>
      && p.Retired(flag)
      && forall role, f :: Key(role, flag) in t.grants && p.predecessor(f) == Some(flag) ==> Key(role, f) in t.grants
    case DeleteDefinition(flag) => p.Retired(flag) && forall role :: Key(role, flag) !in t.grants
    case InsertGrant(role, flag, value) =>
      role == "server_admin" && flag == CanActAsEscrow && value == "1" && EscrowReady(t)
    case InsertSetting(key, value) => key == "link_share_max_expiry_days" && value == "0"
  }

  lemma ExecuteKeepsIntegrity(s: Statement, t: Tables)
    requires Integrity(t)
    ensures Execute(s, t).Some? ==> Integrity(Execute(s, t).value)
  {
    match s
    case CopyGrants(from, to) =>
      var rows := CopiedRows(t, from, to);
      if rows != map[] && to !in t.definitions { assert Execute(s, t).None?; }
    case _ =>
  }

  lemma CopyIsSafe(p: Plan, from: Flag, to: Flag, t: Tables)
    requires p.Valid() && Safe(p, CopyGrants(from, to), t)
    ensures SameOutcome(p, t, Execute(CopyGrants(from, to), t).value)
  {
    var u := Execute(CopyGrants(from, to), t).value;
    forall k ensures Outcome(p, t, k) == Outcome(p, u, k) {
      CopiedRow(t, from, to, k);
      if p.Introduced(k.flag) {
        var g := p.predecessor(k.flag).value;
        CopiedRow(t, from, to, Key(k.role, g));
        assert k.flag in p.successors(g) && p.Retired(g) && g != to;
      }
      assert u.grants == t.grants + CopiedRows(t, from, to);
    }
  }

  lemma InsertIsSafe(p: Plan, t: Tables)
    requires p.Valid()
    ensures SameOutcome(p, t, Execute(InsertDefinitions(p.introduced), t).value)
  {
  }

  lemma DeleteIsSafe(p: Plan, s: Statement, t: Tables)
    requires p.Valid() && Safe(p, s, t) && (s.DeleteGrants? || s.DeleteDefinition?)
    ensures SameOutcome(p, t, Execute(s, t).value)
  {
    var u := Execute(s, t).value;
    forall k ensures Outcome(p, t, k) == Outcome(p, u, k) {
    }
  }

  lemma SafeStep(p: Plan, s: Statement, t: Tables)
    requires p.Valid() && Integrity(t) && Safe(p, s, t)
    ensures Execute(s, t).Some?
    ensures Integrity(Execute(s, t).value) && SameOutcome(p, t, Execute(s, t).value)
  {
    hide SameOutcome, Outcome, Integrity;
    ExecuteKeepsIntegrity(s, t);
    match s
    case InsertDefinitions(flags) => InsertIsSafe(p, t);
    case CopyGrants(from, to) => CopyIsSafe(p, from, to, t);
    case DeleteGrants(flag) => DeleteIsSafe(p, s, t);
    case DeleteDefinition(flag) => DeleteIsSafe(p, s, t);
    case _ => SeedIsSafe(p, s, t);
  }

  lemma SeedIsSafe(p: Plan, s: Statement, t: Tables)
    requires p.Valid() && Safe(p, s, t) && (s.InsertGrant? || s.InsertSetting?)
    ensures Execute(s, t).Some? && SameOutcome(p, t, Execute(s, t).value)
  {
  }

  // ---------------------------------------------------------------------------
  // Runs of statements
  // ---------------------------------------------------------------------------

  /** Every statement of the script is safe where it is executed. */
  ghost predicate AllSafe(p: Plan, script: seq<Statement>, t: Tables)
    decreases |script|
  {
    script != [] ==>
      Safe(p, script[0], t) && (Execute(script[0], t).Some? ==> AllSafe(p, script[1..], Execute(script[0], t).value))
  }

  lemma {:induction false} SafeRun(p: Plan, script: seq<Statement>, t: Tables)
    requires p.Valid() && Integrity(t) && AllSafe(p, script, t)
    ensures Run(script, t).Some?
    ensures Integrity(Run(script, t).value) && SameOutcome(p, t, Run(script, t).value)
    decreases |script|
  {
    if script != [] {
      SafeStep(p, script[0], t);
      SafeRun(p, script[1..], Execute(script[0], t).value);
    }
  }

  lemma {:induction false} RunConcat(a: seq<Statement>, b: seq<Statement>, t: Tables)
    ensures Run(a + b, t) == if Run(a, t).None? then None else Run(b, Run(a, t).value)
    decreases |a|
  {
    if a == [] {
      assert a + b == b;
    } else {
      assert (a + b)[1..] == a[1..] + b;
      if Execute(a[0], t).Some? { RunConcat(a[1..], b, Execute(a[0], t).value); }
    }
  }

  lemma PairRun(p: Plan, a: Statement, b: Statement, t: Tables)
    ensures Run([a, b], t) == if Execute(a, t).None? then None else Execute(b, Execute(a, t).value)
    ensures AllSafe(p, [a, b], t) <==>
            Safe(p, a, t) && (Execute(a, t).Some? ==> Safe(p, b, Execute(a, t).value))
  {
    assert [a, b][1..] == [b] && [b][1..] == [];
    if Execute(a, t).Some? {
      var u := Execute(a, t).value;
      assert Run([b], u) == Execute(b, u) by {
        if Execute(b, u).Some? { assert Run([], Execute(b, u).value) == Execute(b, u); }
      }
      assert AllSafe(p, [b], u) <==> Safe(p, b, u);
    }
  }

  lemma {:induction false} AllSafeConcat(p: Plan, a: seq<Statement>, b: seq<Statement>, t: Tables)
    ensures AllSafe(p, a + b, t) <==> AllSafe(p, a, t) && (Run(a, t).Some? ==> AllSafe(p, b, Run(a, t).value))
    decreases |a|
  {
    if a == [] {
      assert a + b == b;
    } else {
      assert (a + b)[1..] == a[1..] + b;
      if Execute(a[0], t).Some? { AllSafeConcat(p, a[1..], b, Execute(a[0], t).value); }
    }
  }

  /** After the copies of one group, no role holds the retired flag without holding every successor. */
  lemma {:induction false} CopiesCover(p: Plan, was: Flag, news: seq<Flag>, t: Tables)
    requires p.Valid() && Integrity(t) && (forall f :: f in news ==> f in p.successors(was) && f in t.definitions)
    ensures AllSafe(p, p.Copies(was, news), t) && Run(p.Copies(was, news), t).Some?
    ensures var u := Run(p.Copies(was, news), t).value;
      && Integrity(u) && u.definitions == t.definitions
      && (forall k :: k in t.grants ==> k in u.grants)
      && (forall k :: k in u.grants && k !in t.grants ==> k.flag in news)
      && (forall role, f :: Key(role, was) in t.grants && f in news ==> Key(role, f) in u.grants)
    decreases |news|
  {
    if news != [] {
      var s, u := CopyGrants(was, news[0]), Execute(CopyGrants(was, news[0]), t).value;
      assert p.predecessor(news[0]) == Some(was);
      SafeStep(p, s, t);
      forall k ensures k in CopiedRows(t, was, news[0]) <==>
                       k.flag == news[0] && k !in t.grants && Key(k.role, was) in t.grants {
        CopiedRow(t, was, news[0], k);
      }
      CopiesCover(p, was, news[1..], u);
    }
  }

  /** What holds between two groups: new definitions are in, and the flags handled so far are gone. */
  ghost predicate Between(p: Plan, gone: seq<Flag>, t: Tables) {
    && Integrity(t)
    && (forall f :: p.Introduced(f) ==> f in t.definitions)
    && (forall f :: f in gone ==> p.Retired(f) && f !in t.definitions)
  }

  lemma GroupRetires(p: Plan, gone: seq<Flag>, was: Flag, t: Tables)
    requires p.Valid() && p.Retired(was) && Between(p, gone, t)
    ensures AllSafe(p, p.Group(was), t) && Run(p.Group(was), t).Some?
    ensures Between(p, gone + [was], Run(p.Group(was), t).value)
    ensures CanActAsEscrow in t.definitions <==> CanActAsEscrow in Run(p.Group(was), t).value.definitions
  {
    var copies, deletes := p.Copies(was, p.successors(was)), [DeleteGrants(was), DeleteDefinition(was)];
    CopiesCover(p, was, p.successors(was), t);
    AllSafeConcat(p, copies, deletes, t);
    RunConcat(copies, deletes, t);
    var u := Run(copies, t).value;
    forall role, f | Key(role, was) in u.grants && p.predecessor(f) == Some(was) ensures Key(role, f) in u.grants {
      assert f in p.successors(was);
    }
    var v := Execute(DeleteGrants(was), u).value;
    PairRun(p, DeleteGrants(was), DeleteDefinition(was), u);
    SafeStep(p, DeleteGrants(was), u);
    SafeStep(p, DeleteDefinition(was), v);
  }

  lemma {:induction false} GroupsRetire(p: Plan, gone: seq<Flag>, retired: seq<Flag>, t: Tables)
    requires p.Valid() && (forall f :: f in retired ==> p.Retired(f)) && Between(p, gone, t)
    ensures AllSafe(p, p.Groups(retired), t) && Run(p.Groups(retired), t).Some?
    ensures Between(p, gone + retired, Run(p.Groups(retired), t).value)
    ensures CanActAsEscrow in t.definitions <==> CanActAsEscrow in Run(p.Groups(retired), t).value.definitions
    decreases |retired|
  {
    if retired != [] {
      GroupRetires(p, gone, retired[0], t);
      var u := Run(p.Group(retired[0]), t).value;
      GroupsRetire(p, gone + [retired[0]], retired[1..], u);
      AllSafeConcat(p, p.Group(retired[0]), p.Groups(retired[1..]), t);
      RunConcat(p.Group(retired[0]), p.Groups(retired[1..]), t);
      assert gone + [retired[0]] + retired[1..] == gone + retired;
    } else {
      assert gone + retired == gone;
    }
  }

  /** Everything before the back-fill runs from any tables and removes every retired flag. */
  lemma BodyRetires(p: Plan, t: Tables)
    requires p.Valid() && Integrity(t)
    ensures AllSafe(p, p.Body(), t) && Run(p.Body(), t).Some?
    ensures Between(p, p.order, Run(p.Body(), t).value)
    ensures EscrowReady(t) <==> EscrowReady(Run(p.Body(), t).value)
  {
    var first := InsertDefinitions(p.introduced);
    SafeStep(p, first, t);
    var u := Execute(first, t).value;
    GroupsRetire(p, [], p.order, u);
    assert p.Body()[1..] == p.Groups(p.order);
    SafeRun(p, p.Body(), t);
    assert [] + p.order == p.order;
  }

  // ---------------------------------------------------------------------------
  // Main results
  // ---------------------------------------------------------------------------

  /** The last two statements, run on tables the rest of the script has settled. */
  lemma SeedsFinish(p: Plan, u: Tables)
    requires p.Valid() && Between(p, p.order, u)
    ensures EscrowReady(u) <==> Run(p.Seeds(), u).Some?
    ensures EscrowReady(u) ==>
      var w := Run(p.Seeds(), u).value;
      AllSafe(p, p.Seeds(), u) && Between(p, p.order, w)
      && Key("server_admin", CanActAsEscrow) in w.grants && "link_share_max_expiry_days" in w.settings
  {
    hide Outcome, SameOutcome;
    var grant, seed := p.Seeds()[0], p.Seeds()[1];
    PairRun(p, grant, seed, u);
    if EscrowReady(u) {
      SafeStep(p, grant, u);
      SafeStep(p, seed, Execute(grant, u).value);
    } else {
      assert Key("server_admin", CanActAsEscrow) !in u.grants;
    }
  }

  /** The whole script succeeds exactly when the back-fill's role and flag exist, and then migrates. */
  lemma ScriptMigrates(p: Plan, t: Tables)
    requires p.Valid() && Integrity(t)
    ensures Run(p.Script(), t).Some? <==> EscrowReady(t)
    ensures EscrowReady(t) ==> AllSafe(p, p.Script(), t) && Migrated(p, t, Run(p.Script(), t).value)
  {
    BodyRetires(p, t);
    var u := Run(p.Body(), t).value;
    RunConcat(p.Body(), p.Seeds(), t);
    AllSafeConcat(p, p.Body(), p.Seeds(), t);
    SeedsFinish(p, u);
    if EscrowReady(t) {
      SafeRun(p, p.Script(), t);
      Settled(p, t, Run(p.Script(), t).value);
    }
  }

  /** Tables the migration has nothing left to do on are the migrated form of what they came from. */
  lemma Settled(p: Plan, t: Tables, w: Tables)
    requires p.Valid() && Between(p, p.order, w) && SameOutcome(p, t, w)
    requires Key("server_admin", CanActAsEscrow) in w.grants && "link_share_max_expiry_days" in w.settings
    ensures Migrated(p, t, w)
  {
    forall k ensures (if k in w.grants then Some(w.grants[k]) else None) == Outcome(p, w, k) {
      if p.Introduced(k.flag) {
        var g := p.predecessor(k.flag).value;
        assert k.flag in p.successors(g) && g in p.order;
      }
    }
  }

  /** There is only one migrated form, and it depends on the outcome alone. */
  lemma MigratedUnique(p: Plan, t0: Tables, w0: Tables, t1: Tables, w1: Tables)
    requires SameOutcome(p, t0, t1) && Migrated(p, t0, w0) && Migrated(p, t1, w1)
    ensures w0 == w1
  {
    forall k ensures k in w0.grants <==> k in w1.grants {
      assert Outcome(p, t0, k) == Outcome(p, t1, k);
    }
    forall k | k in w0.grants ensures w0.grants[k] == w1.grants[k] {
      assert Outcome(p, t0, k) == Outcome(p, t1, k);
    }
    assert w0.definitions == w1.definitions;
    assert w0.grants == w1.grants;
  }

  /** A first part of the script that runs has come to the back-fill only where the back-fill can be made. */
  lemma PrefixRuns(p: Plan, t: Tables, n: nat)
    requires p.Valid() && Integrity(t) && n <= |p.Script()| && Run(p.Script()[..n], t).Some?
    ensures Integrity(Run(p.Script()[..n], t).value) && SameOutcome(p, t, Run(p.Script()[..n], t).value)
  {
    var done, rest := p.Script()[..n], p.Script()[n..];
    assert p.Script() == done + rest;
    if EscrowReady(t) {
      ScriptMigrates(p, t);
      AllSafeConcat(p, done, rest, t);
    } else {
      BodyRetires(p, t);
      if n > |p.Body()| {
        PastTheBody(p, t, n);
      } else {
        assert p.Body() == done + p.Body()[n..];
        AllSafeConcat(p, done, p.Body()[n..], t);
      }
    }
    SafeRun(p, done, t);
  }

  lemma PastTheBody(p: Plan, t: Tables, n: nat)
    requires p.Valid() && Integrity(t) && |p.Body()| < n <= |p.Script()| && !EscrowReady(t)
    ensures Run(p.Script()[..n], t).None?
  {
    BodyRetires(p, t);
    var u, seeds := Run(p.Body(), t).value, p.Script()[..n][|p.Body()|..];
    assert p.Script()[..n] == p.Body() + seeds;
    RunConcat(p.Body(), seeds, t);
    assert seeds[0] == p.Seeds()[0];
    assert Key("server_admin", CanActAsEscrow) !in u.grants;
  }

  /**
   Stopping after any prefix of the statements and running the whole script again comes to what one uninterrupted run
   comes to, be it the migrated tables or the failure of the back-fill.  No prefix fails where the whole does not.
   */
  lemma Resumable(p: Plan, t: Tables, n: nat)
    requires p.Valid() && Integrity(t) && n <= |p.Script()|
    ensures EscrowReady(t) ==> Run(p.Script()[..n], t).Some?
    ensures Run(p.Script()[..n], t).Some? ==>
      && Integrity(Run(p.Script()[..n], t).value)
      && Run(p.Script(), Run(p.Script()[..n], t).value) == Run(p.Script(), t)
  {
    var done, rest := p.Script()[..n], p.Script()[n..];
    ScriptMigrates(p, t);
    assert p.Script() == done + rest;
    RunConcat(done, rest, t);
    if Run(done, t).Some? {
      PrefixRuns(p, t, n);
      var u := Run(done, t).value;
      ScriptMigrates(p, u);
      assert EscrowReady(u) <==> EscrowReady(t);
      if EscrowReady(t) { MigratedUnique(p, t, Run(p.Script(), t).value, u, Run(p.Script(), u).value); }
    }
  }

  /** The plan in the source is one the results above apply to. */
  lemma PlanIsValid()
    ensures PLAN.Valid()
  {
    hide Successors, Predecessor;
    forall f ensures f in PLAN.introduced <==> PLAN.Introduced(f) { IntroducedListed(f); }
    forall f ensures f in PLAN.order <==> PLAN.Retired(f) { RetiredListed(f); }
    forall f, g ensures f in PLAN.successors(g) <==> PLAN.predecessor(f) == Some(g) { Correspond(f, g); }
    forall f ensures PLAN.Introduced(f) ==> !PLAN.Retired(f) { Disjoint(f); }
    EscrowApart();
  }

  lemma EscrowApart()
    ensures Predecessor(CanActAsEscrow).None? && Successors(CanActAsEscrow) == []
  {
  }

  lemma IntroducedListed(f: Flag)
    ensures f in NEW_FLAGS <==> Predecessor(f).Some?
  {
    hide Predecessor;
    if f in NEW_FLAGS {
      if i :| 0 <= i < |NEW_ADMIN_FLAGS| && NEW_ADMIN_FLAGS[i] == f { AdminIntroduced(i); }
      else if i :| 0 <= i < |NEW_FEATURE_FLAGS| && NEW_FEATURE_FLAGS[i] == f { FeatureIntroduced(i); }
    } else if Predecessor(f).Some? {
      PredecessorListed(f);
    }
  }

  lemma AdminIntroduced(i: nat)
    requires i < |NEW_ADMIN_FLAGS|
    ensures Predecessor(NEW_ADMIN_FLAGS[i]).Some?
  {
  }

  lemma FeatureIntroduced(i: nat)
    requires i < |NEW_FEATURE_FLAGS|
    ensures Predecessor(NEW_FEATURE_FLAGS[i]).Some?
  {
  }

  lemma PredecessorListed(f: Flag)
    requires Predecessor(f).Some?
    ensures f in NEW_ADMIN_FLAGS || f in NEW_FEATURE_FLAGS
  {
  }

  lemma RetiredListed(f: Flag)
    ensures f in RETIRED_ORDER <==> Successors(f) != []
  {
    hide Successors;
    if Successors(f) != [] { RetiredInOrder(f); }
    forall i | 0 <= i < |RETIRED_ORDER| ensures Successors(RETIRED_ORDER[i]) != [] { RetiredAt(i); }
  }

  lemma RetiredInOrder(f: Flag)
    requires Successors(f) != []
    ensures f in RETIRED_ORDER
  {
  }

  lemma RetiredAt(i: nat)
    requires i < |RETIRED_ORDER|
    ensures Successors(RETIRED_ORDER[i]) != []
  {
  }

  lemma Correspond(f: Flag, g: Flag)
    ensures f in Successors(g) <==> Predecessor(f) == Some(g)
  {
    hide Predecessor, RenamedTo, SplitInto;
    if Predecessor(f) == Some(g) { PredecessorSucceeded(f); }
    if RenamedTo(g).Some? { RenamedFrom(g); } else { SplitFrom(g); }
  }

  /** New flags that share their predecessor with another. */
  predicate FromSplit(f: Flag) {
    f.UsersView? || f.UsersManage? || f.UsersDelete? || f.IntegrationsIdpManage? || f.IntegrationsNotificationsManage?
    || f.PoliciesView? || f.PoliciesManage? || f.FilesAccessAllRead? || f.FilesAccessAllWrite?
  }

  lemma SplitPredecessor(f: Flag)
    requires FromSplit(f)
    ensures Predecessor(f).Some? && RenamedTo(Predecessor(f).value).None? && f in SplitInto(Predecessor(f).value)
  {
  }

  lemma RenamePredecessor(f: Flag)
    requires Predecessor(f).Some? && !FromSplit(f)
    ensures RenamedTo(Predecessor(f).value) == Some(f)
  {
  }

  lemma PredecessorSucceeded(f: Flag)
    requires Predecessor(f).Some?
    ensures var g := Predecessor(f).value;
      RenamedTo(g) == Some(f) || (RenamedTo(g).None? && f in SplitInto(g))
  {
    hide Predecessor, RenamedTo, SplitInto, FromSplit;
    if FromSplit(f) { SplitPredecessor(f); } else { RenamePredecessor(f); }
  }

  predicate AdminRename(g: Flag) {
    g.CanViewAdminPanel? || g.CanManageSystemSettings? || g.CanManageOrgSettings? || g.CanManageInvites?
    || g.CanManageUserMfa? || g.CanManageTeams? || g.CanManageTeamMembers? || g.CanManageRoles?
    || g.CanCreateRoles? || g.CanCreateCrossTeamRoles? || g.CanViewDiskUsage?
  }

  lemma AdminRenamed(g: Flag)
    requires AdminRename(g)
    ensures RenamedTo(g).Some? && Predecessor(RenamedTo(g).value) == Some(g)
  {
  }

  lemma FeatureRenamed(g: Flag)
    requires RenamedTo(g).Some? && !AdminRename(g)
    ensures Predecessor(RenamedTo(g).value) == Some(g)
  {
  }

  lemma RenamedFrom(g: Flag)
    requires RenamedTo(g).Some?
    ensures Predecessor(RenamedTo(g).value) == Some(g)
  {
    hide RenamedTo, Predecessor, AdminRename;
    if AdminRename(g) { AdminRenamed(g); } else { FeatureRenamed(g); }
  }

  lemma SplitFrom(g: Flag)
    ensures forall f :: f in SplitInto(g) ==> Predecessor(f) == Some(g)
  {
  }

  lemma Disjoint(f: Flag)
    ensures Predecessor(f).Some? ==> Successors(f) == []
  {
  }

  /** For the flags in the source: however far an earlier attempt got, a boot migrates, and the next changes nothing. */
  lemma SafeOnEveryBoot(t: Tables, n: nat)
    requires Integrity(t) && EscrowReady(t) && n <= |PLAN.Script()|
    ensures var partial := Run(PLAN.Script()[..n], t);
      && partial.Some? && Run(PLAN.Script(), partial.value).Some?
      && var w := Run(PLAN.Script(), partial.value).value;
      && Migrated(PLAN, t, w)
      && Run(PLAN.Script(), w) == Some(w)
  {
    PlanIsValid();
    Resumable(PLAN, t, n);
    ScriptMigrates(PLAN, t);
    Resumable(PLAN, t, |PLAN.Script()|);
    assert PLAN.Script()[..|PLAN.Script()|] == PLAN.Script();
  }

  /** Copying does not carry a lock over: a role whose retired grant was locked ends up with an unlocked successor. */
  lemma LocksAreDropped(t: Tables, role: string, f: Flag)
    requires Integrity(t) && EscrowReady(t) && Predecessor(f).Some?
    requires Key(role, f) !in t.grants && Key(role, Predecessor(f).value) in t.grants
    ensures Run(PLAN.Script(), t).Some?
    ensures var w := Run(PLAN.Script(), t).value;
      Key(role, f) in w.grants
      && w.grants[Key(role, f)] == Grant(t.grants[Key(role, Predecessor(f).value)].value, false, None)
  {
    PlanIsValid();
    ScriptMigrates(PLAN, t);
    assert PLAN.Introduced(f);
  }

  /**
   The back-fill grants the server's administrators the escrow flag, without a lock, and sets the link shares' longest
   expiry to 0, unless either is there already.
   */
  lemma SeedsAreSown(t: Tables)
    requires Integrity(t) && EscrowReady(t)
    ensures Run(PLAN.Script(), t).Some?
    ensures var w, k := Run(PLAN.Script(), t).value, Key("server_admin", CanActAsEscrow);
      && k in w.grants && w.grants[k] == (if k in t.grants then t.grants[k] else Grant("1", false, None))
      && "link_share_max_expiry_days" in w.settings
      && w.settings["link_share_max_expiry_days"] ==
        if "link_share_max_expiry_days" in t.settings then t.settings["link_share_max_expiry_days"] else "0"
  {
    PlanIsValid();
    ScriptMigrates(PLAN, t);
  }

  /** After every single statement, each stored grant's flag is defined and its role exists. */
  lemma {:induction false} IntegrityThroughout(script: seq<Statement>, t: Tables, n: nat)
    requires Integrity(t) && n <= |script|
    ensures Run(script[..n], t).Some? ==> Integrity(Run(script[..n], t).value)
    decreases n
  {
    if n > 0 {
      assert script[..n][1..] == script[1..][..n - 1];
      ExecuteKeepsIntegrity(script[0], t);
      if Execute(script[0], t).Some? { IntegrityThroughout(script[1..], Execute(script[0], t).value, n - 1); }
    }
  }

  // ---------------------------------------------------------------------------
  // The connection the migration runs on
  // ---------------------------------------------------------------------------

  class Connection {
    var roles: set<string>
    var definitions: set<Flag>
    var grants: map<Key, Grant>
    var settings: map<string, string>

    function State(): Tables
      reads this
    {
      Tables(roles, definitions, grants, settings)
    }

    method Restore(t: Tables)
      modifies this
      ensures State() == t
    {
      roles, definitions, grants, settings := t.roles, t.definitions, t.grants, t.settings;
    }

    method ExecuteStatement(s: Statement) returns (ok: bool)
      modifies this
      ensures Execute(s, old(State())) == if ok then Some(State()) else None
      ensures !ok ==> State() == old(State())
    {
      ok := true;
      match s
      case InsertDefinitions(flags) =>
        definitions := definitions + set f | f in flags;
      case CopyGrants(from, to) =>
        var rows := CopiedRows(State(), from, to);
        ok := rows == map[] || to in definitions;
        if ok { grants := grants + rows; }
      case DeleteGrants(flag) =>
        grants := map k | k in grants && k.flag != flag :: grants[k];
      case DeleteDefinition(flag) =>
        definitions := definitions - {flag};
        grants := map k | k in grants && k.flag != flag :: grants[k];
      case InsertGrant(role, flag, value) =>
        if Key(role, flag) !in grants {
          ok := role in roles && flag in definitions;
          if ok { grants := grants[Key(role, flag) := Fresh(value)]; }
        }
      case InsertSetting(key, value) =>
        if key !in settings { settings := settings[key := value]; }
    }

    /** The script inside one transaction: a failing statement rolls everything back and stops the start-up. */
    method MigratePermissions() returns (ok: bool)
      requires Integrity(State())
      modifies this
      ensures ok <==> EscrowReady(old(State()))
      ensures ok ==> Migrated(PLAN, old(State()), State())
      ensures !ok ==> State() == old(State())
      ensures Integrity(State())
    {
      var saved, script := State(), PLAN.Script();
      PlanIsValid();
      ScriptMigrates(PLAN, saved);
      ok := true;
      for i := 0 to |script|
        invariant ok && Integrity(State())
        invariant Run(script, saved) == Run(script[i..], State())
      {
        ExecuteKeepsIntegrity(script[i], State());
        ok := ExecuteStatement(script[i]);
        if !ok {
          Restore(saved);
          return;
        }
        assert script[i..][1..] == script[i + 1..];
      }
    }
  }
}
