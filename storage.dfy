/**
 * `synchronize_storage` of manage-project-storage: for every group of the
 * grant registry that also exists as a system group, make sure its project
 * directory exists and that its Lustre project quota equals the storage the
 * group's active grants allocate (at least 1 GB).
 *
 * The host is abstract: the set of existing directories, what
 * `lfs quota -p <gid>` currently prints for each project id, and the log of
 * every external action taken (file-system calls and `lfs` commands), in
 * order.
 */
module ProjectStorage {
  import opened Wrappers
  import opened Strings
  import opened Grants
  import opened Quota

  // The `stat` permission bits combined for a new project directory.
  const S_ISGID: bv16 := 0x400
  const S_IRUSR: bv16 := 0x100
  const S_IWUSR: bv16 := 0x80
  const S_IXUSR: bv16 := 0x40
  const S_IRGRP: bv16 := 0x20
  const S_IWGRP: bv16 := 0x10
  const S_IXGRP: bv16 := 0x8
  /** Set-group-id, rwx for owner and group, nothing for others: octal 2770. */
  const DIR_MODE: bv16 := S_ISGID | S_IRUSR | S_IWUSR | S_IXUSR | S_IRGRP | S_IWGRP | S_IXGRP

  /** The mode bits are octal 2770 (2*512 + 7*64 + 7*8 = 0x5F8). */
  lemma DirModeIsOctal2770()
    ensures DIR_MODE == 0x5F8
  {
  }

  /** One external effect, in the order the tool performs them. */
  datatype Action =
    | Exec(argv: seq<string>)                           // a command run through `execute`
    | MakeDir(path: string)                             // os.mkdir
    | ChangeMode(path: string, mode: bv16)              // os.chmod
    | ChangeOwner(path: string, uid: int, gid: nat)     // os.chown; uid -1 keeps the owner

  /** An entry of the system group database. */
  datatype SystemGroup = SystemGroup(name: string, gid: nat)

  /** The parts of the machine the tool reads and changes. */
  datatype Host = Host(dirs: set<string>, listings: map<nat, string>, log: seq<Action>)

  /** The host after a run, and the exception that ended it early, if any. */
  datatype Outcome = Outcome(host: Host, failure: Option<PyError>)

  // ---------------------------------------------------------------------------
  // The specification of one run
  // ---------------------------------------------------------------------------

  /** Group name to gid, as the loop over `grp.getgrall()` builds it: a later entry replaces an earlier one. */
  function GidTable(groups: seq<SystemGroup>): map<string, nat> {
    if groups == [] then map[]
    else
      var last := groups[|groups| - 1];
      GidTable(groups[..|groups| - 1])[last.name := last.gid]
  }

  /** The quota applied to a group: the allocated storage, but never below 1 GB. */
  function Capacity(total: int): (c: int)
    ensures c >= 1
    ensures total >= 1 ==> c == total
    ensures total < 1 ==> c == 1
  {
    if total < 1 then 1 else total
  }

  function GroupPath(name: string): string {
    PROJECT_BASE + name
  }

  /**
   * What `lfs quota -p <gid>` prints. A gid whose listing the model does not
   * know reads as empty text, which holds no quota line; Lustre itself prints
   * a row with limit 0 there. Both readings differ from any applied capacity,
   * which is at least 1 GB, so either way one `setquota` follows.
   */
  function ListingOf(h: Host, gid: nat): string {
    if gid in h.listings then h.listings[gid] else ""
  }

  /** The grants the dictionary lists under `name`. */
  function GrantsOf(members: map<string, seq<Grant>>, name: string): seq<Grant> {
    if name in members then members[name] else []
  }

  /** `set_quota(gid, gb)`: the command is logged and Lustre now reports the new hard limit. */
  function SetQuotaOn(h: Host, gid: nat, gb: int): Host {
    h.(listings := h.listings[gid := Listing(gid, GbToKb(gb))], log := h.log + [Exec(SetQuotaCommand(gid, gb))])
  }

  /** The actions that create and tag a missing project directory, before its quota is set. */
  function Provisioning(path: string, gid: nat): seq<Action> {
    [MakeDir(path), ChangeMode(path, DIR_MODE), ChangeOwner(path, -1, gid), Exec(SetProjectCommand(path, gid))]
  }

  /** An existing directory: query the quota and rewrite it only when the reading differs from `cap`. */
  function Reconcile(h: Host, gid: nat, cap: int): Outcome {
    var queried := h.(log := h.log + [Exec(QueryCommand(gid))]);
    var quota := QuotaOfListing(ListingOf(h, gid));
    if quota.Err? then Outcome(queried, Some(quota.error))
    else if quota.value != Some(cap) then Outcome(SetQuotaOn(queried, gid, cap), None)
    else Outcome(queried, None)
  }

  /** A missing directory: create it, set its mode and group, tag it with the project id, set the quota. */
  function Provision(h: Host, path: string, gid: nat, cap: int): Host {
    SetQuotaOn(h.(dirs := h.dirs + {path}, log := h.log + Provisioning(path, gid)), gid, cap)
  }

  /** The body of the loop of `synchronize_storage` for one group and its grants. */
  function Step(gids: map<string, nat>, h: Host, name: string, grants: seq<Grant>): Outcome {
    if name !in gids then Outcome(h, None)
    else
      var total := StorageTotal(grants);
      if total.Err? then Outcome(h, Some(total.error))
      else if GroupPath(name) in h.dirs then Reconcile(h, gids[name], Capacity(total.value))
      else Outcome(Provision(h, GroupPath(name), gids[name], Capacity(total.value)), None)
  }

  /** The groups processed in dictionary order; an exception ends the run with the effects so far. */
  function RunGroups(gids: map<string, nat>, h: Host, names: seq<string>, members: map<string, seq<Grant>>): Outcome {
    if names == [] then Outcome(h, None)
    else
      var prev := RunGroups(gids, h, names[..|names| - 1], members);
      if prev.failure.Some? then prev
      else Step(gids, prev.host, names[|names| - 1], GrantsOf(members, names[|names| - 1]))
  }

  // ---------------------------------------------------------------------------
  // The imperative tool
  // ---------------------------------------------------------------------------

  class StorageHost {
    var dirs: set<string>
    var listings: map<nat, string>
    var log: seq<Action>

    function State(): Host
      reads this
    {
      Host(dirs, listings, log)
    }

    constructor (existingDirs: set<string>, quotaListings: map<nat, string>)
      ensures State() == Host(existingDirs, quotaListings, [])
    {
      dirs := existingDirs;
      listings := quotaListings;
      log := [];
    }

    /** `check_quota(gid)`: runs the query and reads the hard limit, in GB, out of its output. */
    method CheckQuota(gid: nat) returns (quota: Result<Option<int>, PyError>)
      modifies this
      ensures State() == old(State()).(log := old(log) + [Exec(QueryCommand(gid))])
      ensures quota == QuotaOfListing(ListingOf(old(State()), gid))
    {
      var stdout := ListingOf(State(), gid);
      log := log + [Exec(QueryCommand(gid))];
      quota := ReadQuota(stdout);
    }

    /** `set_quota(gid, gb)`. */
    method SetQuota(gid: nat, gb: int)
      modifies this
      ensures State() == SetQuotaOn(old(State()), gid, gb)
    {
      log := log + [Exec(SetQuotaCommand(gid, gb))];
      listings := listings[gid := Listing(gid, GbToKb(gb))];
    }

    /** `set_project(path, gid)`. */
    method SetProject(path: string, gid: nat)
      modifies this
      ensures State() == old(State()).(log := old(log) + [Exec(SetProjectCommand(path, gid))])
    {
      log := log + [Exec(SetProjectCommand(path, gid))];
    }

    /** The existing-directory branch of `synchronize_storage`. */
    method ReconcileQuota(gid: nat, cap: int) returns (failure: Option<PyError>)
      modifies this
      ensures Outcome(State(), failure) == Reconcile(old(State()), gid, cap)
    {
      failure := None;
      var quota := CheckQuota(gid);
      if quota.Err? {
        failure := Some(quota.error);
      } else if quota.value != Some(cap) {
        SetQuota(gid, cap);
      }
    }

    /** The missing-directory branch of `synchronize_storage`. */
    method ProvisionDir(path: string, gid: nat, cap: int)
      modifies this
      ensures State() == Provision(old(State()), path, gid, cap)
    {
      dirs := dirs + {path};
      log := log + [MakeDir(path)];
      log := log + [ChangeMode(path, DIR_MODE)];
      log := log + [ChangeOwner(path, -1, gid)];
      SetProject(path, gid);
      SetQuota(gid, cap);
    }

    /** The body of the loop of `synchronize_storage`, for one group. */
    method SynchronizeGroup(gids: map<string, nat>, group: string, grants: seq<Grant>) returns (failure: Option<PyError>)
      modifies this
      ensures Outcome(State(), failure) == Step(gids, old(State()), group, grants)
    {
      failure := None;
      if group !in gids {
        return;
      }
      var capacity := SumStorage(grants);
      if capacity.Err? {
        failure := Some(capacity.error);
        return;
      }
      var cap := if capacity.value < 1 then 1 else capacity.value;
      var gid := gids[group];
      var path := PROJECT_BASE + group;
      if path in dirs {
        failure := ReconcileQuota(gid, cap);
      } else {
        ProvisionDir(path, gid, cap);
      }
    }

    /** `synchronize_storage`: the gid table from the system groups, then one step per group, in dictionary order. */
    method SynchronizeStorage(systemGroups: seq<SystemGroup>, groupGrants: GroupGrants) returns (failure: Option<PyError>)
      requires forall n :: n in groupGrants.order ==> n in groupGrants.members
      modifies this
      ensures Outcome(State(), failure) == RunGroups(GidTable(systemGroups), old(State()), groupGrants.order, groupGrants.members)
    {
      var gids := BuildGidTable(systemGroups);
      var order, members := groupGrants.order, groupGrants.members;
      ghost var start := State();
      for k := 0 to |order|
        invariant RunGroups(gids, start, order[..k], members) == Outcome(State(), None)
      {
        RunGroupsStep(gids, start, order, members, k);
        failure := SynchronizeGroup(gids, order[k], members[order[k]]);
        if failure.Some? {
          RunFailureSticks(gids, start, order, members, k + 1);
          return;
        }
      }
      assert order[..|order|] == order;
      failure := None;
    }
  }

  /**
   * `main` once the registry data is fetched: group the active grants of the
   * listed groups, then synchronize the storage of those groups.
   */
  method ManageProjectStorage(host: StorageHost, groupNames: seq<string>, grants: seq<Grant>, systemGroups: seq<SystemGroup>)
    returns (failure: Option<PyError>)
    modifies host
    ensures Outcome(host.State(), failure) ==
            RunGroups(GidTable(systemGroups), old(host.State()), FirstOccurrences(groupNames), Grouping(groupNames, grants).members)
  {
    var groupGrants := GroupActiveGrants(groupNames, grants);
    FirstOccurrencesSpec(groupNames);
    failure := host.SynchronizeStorage(systemGroups, groupGrants);
  }

  /** The loop over `grp.getgrall()` that fills the gid table. */
  method BuildGidTable(systemGroups: seq<SystemGroup>) returns (gids: map<string, nat>)
    ensures gids == GidTable(systemGroups)
  {
    gids := map[];
    for i := 0 to |systemGroups|
      invariant gids == GidTable(systemGroups[..i])
    {
      assert systemGroups[..i + 1][..i] == systemGroups[..i];
      gids := gids[systemGroups[i].name := systemGroups[i].gid];
    }
    assert systemGroups[..|systemGroups|] == systemGroups;
  }

  /** One step of a run that has not failed yet. */
  lemma RunGroupsStep(gids: map<string, nat>, h: Host, names: seq<string>, members: map<string, seq<Grant>>, k: nat)
    requires k < |names|
    ensures var prev := RunGroups(gids, h, names[..k], members);
            prev.failure.None? ==>
            RunGroups(gids, h, names[..k + 1], members) == Step(gids, prev.host, names[k], GrantsOf(members, names[k]))
  {
    assert names[..k + 1][..k] == names[..k];
  }

  /** An exception ends the run: later groups are not processed. */
  lemma {:induction false} RunFailureSticks(gids: map<string, nat>, h: Host, names: seq<string>, members: map<string, seq<Grant>>, k: nat)
    requires k <= |names| && RunGroups(gids, h, names[..k], members).failure.Some?
    ensures RunGroups(gids, h, names, members) == RunGroups(gids, h, names[..k], members)
    decreases |names|
  {
    if k < |names| {
      var init := names[..|names| - 1];
      assert init[..k] == names[..k];
      RunFailureSticks(gids, h, init, members, k);
    } else {
      assert names[..k] == names;
    }
  }

  // ---------------------------------------------------------------------------
  // Properties of a run
  // ---------------------------------------------------------------------------

  /** The gid table knows exactly the system group names. */
  lemma {:induction false} GidTableNames(groups: seq<SystemGroup>)
    ensures forall n :: n in GidTable(groups) <==> exists i :: 0 <= i < |groups| && groups[i].name == n
  {
    if groups != [] {
      var init, last := groups[..|groups| - 1], groups[|groups| - 1];
      GidTableNames(init);
      forall n | n in GidTable(groups)
        ensures exists i :: 0 <= i < |groups| && groups[i].name == n
      {
        if n != last.name {
          assert n in GidTable(init);
          var i :| 0 <= i < |init| && init[i].name == n;
          assert groups[i] == init[i];
        } else {
          assert groups[|groups| - 1].name == n;
        }
      }
      forall n | exists i :: 0 <= i < |groups| && groups[i].name == n
        ensures n in GidTable(groups)
      {
        var i :| 0 <= i < |groups| && groups[i].name == n;
        if i < |init| {
          assert init[i] == groups[i];
        }
      }
    }
  }

  /** A name listed more than once gets the gid of its last entry. */
  lemma {:induction false} GidTableLastGid(groups: seq<SystemGroup>, i: nat)
    requires i < |groups| && forall j :: i < j < |groups| ==> groups[j].name != groups[i].name
    ensures groups[i].name in GidTable(groups) && GidTable(groups)[groups[i].name] == groups[i].gid
  {
    var init := groups[..|groups| - 1];
    if i < |init| {
      assert groups[i] == init[i];
      forall j | i < j < |init|
        ensures init[j].name != init[i].name
      {
        assert groups[j] == init[j];
      }
      GidTableLastGid(init, i);
    }
  }

  /**
   * A group whose directory exists: exactly one quota query, then one
   * `setquota` to the applied capacity exactly when the reading differs from
   * it (also when no quota line was found); the directories stay as they are.
   */
  lemma ExistingDirStep(gids: map<string, nat>, h: Host, name: string, grants: seq<Grant>)
    requires name in gids && StorageTotal(grants).Ok? && GroupPath(name) in h.dirs
    ensures var gid, cap := gids[name], Capacity(StorageTotal(grants).value);
            var quota := QuotaOfListing(ListingOf(h, gid));
            var o := Step(gids, h, name, grants);
            && o.host.dirs == h.dirs
            && (quota.Err? ==> o == Outcome(h.(log := h.log + [Exec(QueryCommand(gid))]), Some(quota.error)))
            && (quota == Ok(Some(cap)) ==> o == Outcome(h.(log := h.log + [Exec(QueryCommand(gid))]), None))
            && (quota.Ok? && quota.value != Some(cap) ==>
                  && o.failure == None
                  && o.host.log == h.log + [Exec(QueryCommand(gid)), Exec(SetQuotaCommand(gid, cap))]
                  && QuotaOfListing(ListingOf(o.host, gid)) == Ok(Some(cap)))
  {
    var gid, cap := gids[name], Capacity(StorageTotal(grants).value);
    assert Step(gids, h, name, grants) == Reconcile(h, gid, cap);
    ReconcileOutcome(h, gid, cap);
  }

  /** Reconciling an existing directory, independent of where the capacity comes from. */
  lemma ReconcileOutcome(h: Host, gid: nat, cap: int)
    ensures var quota, queried := QuotaOfListing(ListingOf(h, gid)), h.(log := h.log + [Exec(QueryCommand(gid))]);
            var o := Reconcile(h, gid, cap);
            && o.host.dirs == h.dirs
            && (quota.Err? ==> o == Outcome(queried, Some(quota.error)))
            && (quota == Ok(Some(cap)) ==> o == Outcome(queried, None))
            && (quota.Ok? && quota.value != Some(cap) ==>
                  && o.failure == None
                  && o.host.log == h.log + [Exec(QueryCommand(gid)), Exec(SetQuotaCommand(gid, cap))]
                  && QuotaOfListing(ListingOf(o.host, gid)) == Ok(Some(cap)))
  {
    SetQuotaReadsBack(gid, cap);
  }

  /**
   * A group without a directory: create it, give it mode 2770 and the group,
   * tag it with the project id and set the quota, in that order, with no
   * quota query; afterwards the quota reads back as the applied capacity.
   */
  lemma MissingDirStep(gids: map<string, nat>, h: Host, name: string, grants: seq<Grant>)
    requires name in gids && StorageTotal(grants).Ok? && GroupPath(name) !in h.dirs
    ensures var gid, cap, path := gids[name], Capacity(StorageTotal(grants).value), GroupPath(name);
            var o := Step(gids, h, name, grants);
            && o.failure == None
            && o.host.dirs == h.dirs + {path}
            && o.host.log == h.log + [MakeDir(path), ChangeMode(path, DIR_MODE), ChangeOwner(path, -1, gid),
                                      Exec(SetProjectCommand(path, gid)), Exec(SetQuotaCommand(gid, cap))]
            && Exec(QueryCommand(gid)) !in o.host.log[|h.log|..]
            && QuotaOfListing(ListingOf(o.host, gid)) == Ok(Some(cap))
  {
    var gid, cap, path := gids[name], Capacity(StorageTotal(grants).value), GroupPath(name);
    ProvisionWrites(h, path, gid, cap);
  }

  /** Provisioning appends its five actions, none of them a quota query, and leaves the quota reading back. */
  lemma ProvisionWrites(h: Host, path: string, gid: nat, cap: int)
    ensures var p := Provision(h, path, gid, cap);
            var added := [MakeDir(path), ChangeMode(path, DIR_MODE), ChangeOwner(path, -1, gid),
                          Exec(SetProjectCommand(path, gid)), Exec(SetQuotaCommand(gid, cap))];
            && p.dirs == h.dirs + {path}
            && p.log == h.log + added
            && p.log[|h.log|..] == added
            && Exec(QueryCommand(gid)) !in added
            && QuotaOfListing(ListingOf(p, gid)) == Ok(Some(cap))
  {
    SetQuotaReadsBack(gid, cap);
    var q := Exec(QueryCommand(gid));
    assert q != Exec(SetProjectCommand(path, gid)) by {
      assert QueryCommand(gid)[1] != SetProjectCommand(path, gid)[1];
    }
    assert q != Exec(SetQuotaCommand(gid, cap)) by {
      assert QueryCommand(gid)[1] != SetQuotaCommand(gid, cap)[1];
    }
  }

  /** A step touches only its own group: the log grows, directories are only added, other projects' quotas stay. */
  lemma StepFrame(gids: map<string, nat>, h: Host, name: string, grants: seq<Grant>)
    ensures var o := Step(gids, h, name, grants);
            && h.log <= o.host.log
            && h.dirs <= o.host.dirs
            && (name !in gids ==> o.host == h)
            && forall gid :: (name !in gids || gid != gids[name]) ==> ListingOf(o.host, gid) == ListingOf(h, gid)
  {
  }

  /** An `lfs setquota` command. */
  predicate IsQuotaWrite(a: Action) {
    a.Exec? && |a.argv| > 1 && a.argv[1] == "setquota"
  }

  /** The number of quota writes in a log. */
  function QuotaWrites(log: seq<Action>): nat {
    if log == [] then 0
    else QuotaWrites(log[..|log| - 1]) + if IsQuotaWrite(log[|log| - 1]) then 1 else 0
  }

  lemma {:induction false} QuotaWritesAppend(a: seq<Action>, b: seq<Action>)
    ensures QuotaWrites(a + b) == QuotaWrites(a) + QuotaWrites(b)
    decreases |b|
  {
    if b == [] {
      assert a + b == a;
    } else {
      var init := b[..|b| - 1];
      assert (a + b)[..|a + b| - 1] == a + init;
      QuotaWritesAppend(a, init);
    }
  }

  lemma QuotaWritesOfProvisioning(path: string, gid: nat)
    ensures QuotaWrites(Provisioning(path, gid)) == 0
  {
    var p := Provisioning(path, gid);
    assert !IsQuotaWrite(p[3]) by {
      assert p[3].argv[1] == "project";
    }
    assert p[..1][..0] == [];
    assert QuotaWrites(p[..1]) == 0;
    assert p[..2][..1] == p[..1];
    assert QuotaWrites(p[..2]) == 0;
    assert p[..3][..2] == p[..2];
    assert QuotaWrites(p[..3]) == 0;
    assert p[..4] == p;
  }

  /** A step issues at most one quota write. */
  lemma StepWritesAtMostOnce(gids: map<string, nat>, h: Host, name: string, grants: seq<Grant>)
    ensures var o := Step(gids, h, name, grants);
            h.log <= o.host.log && QuotaWrites(o.host.log) <= QuotaWrites(h.log) + 1
  {
    StepFrame(gids, h, name, grants);
    if name in gids && StorageTotal(grants).Ok? {
      var gid, cap, path := gids[name], Capacity(StorageTotal(grants).value), GroupPath(name);
      var query, write := Exec(QueryCommand(gid)), Exec(SetQuotaCommand(gid, cap));
      assert !IsQuotaWrite(query);
      assert [query][..0] == [] && [write][..0] == [];
      QuotaWritesAppend(h.log, [query]);
      if path in h.dirs {
        ExistingDirStep(gids, h, name, grants);
        QuotaWritesAppend(h.log + [query], [write]);
        assert h.log + [query, write] == h.log + [query] + [write];
      } else {
        MissingDirStep(gids, h, name, grants);
        QuotaWritesOfProvisioning(path, gid);
        QuotaWritesAppend(h.log, Provisioning(path, gid));
        QuotaWritesAppend(h.log + Provisioning(path, gid), [write]);
        assert Step(gids, h, name, grants).host.log == h.log + Provisioning(path, gid) + [write];
      }
    }
  }

  /** The groups of `names` that are system groups, in order. */
  function KnownNames(names: seq<string>, gids: map<string, nat>): (r: seq<string>)
    ensures forall n :: n in r <==> n in names && n in gids
  {
    if names == [] then []
    else
      var last := names[|names| - 1];
      assert names == names[..|names| - 1] + [last];
      KnownNames(names[..|names| - 1], gids) + if last in gids then [last] else []
  }

  /** Groups unknown to the system are skipped without any effect: the run is the run over the known groups alone. */
  lemma {:induction false} UnknownGroupsIgnored(gids: map<string, nat>, h: Host, names: seq<string>, members: map<string, seq<Grant>>)
    ensures RunGroups(gids, h, names, members) == RunGroups(gids, h, KnownNames(names, gids), members)
  {
    if names != [] {
      var init, last := names[..|names| - 1], names[|names| - 1];
      UnknownGroupsIgnored(gids, h, init, members);
      var known, knownInit := KnownNames(names, gids), KnownNames(init, gids);
      var prev := RunGroups(gids, h, init, members);
      assert RunGroups(gids, h, knownInit, members) == prev;
      if last in gids {
        assert known == knownInit + [last];
        assert known[..|known| - 1] == knownInit;
      } else {
        assert known == knownInit;
        assert prev.failure.None? ==> Step(gids, prev.host, last, GrantsOf(members, last)) == prev;
      }
    }
  }

  /** A run issues at most one quota write per system group it processes. */
  lemma {:induction false} RunWritesAtMostOncePerGroup(gids: map<string, nat>, h: Host, names: seq<string>, members: map<string, seq<Grant>>)
    ensures var o := RunGroups(gids, h, names, members);
            h.log <= o.host.log && QuotaWrites(o.host.log) <= QuotaWrites(h.log) + |KnownNames(names, gids)|
  {
    if names != [] {
      var init, last := names[..|names| - 1], names[|names| - 1];
      RunWritesAtMostOncePerGroup(gids, h, init, members);
      var prev := RunGroups(gids, h, init, members);
      if prev.failure.None? {
        StepWritesAtMostOnce(gids, prev.host, last, GrantsOf(members, last));
        StepFrame(gids, prev.host, last, GrantsOf(members, last));
      }
    }
  }

  // ---------------------------------------------------------------------------
  // A second run changes nothing
  // ---------------------------------------------------------------------------

  /** No two distinct processed groups share a gid. */
  ghost predicate GidsDistinct(gids: map<string, nat>, names: seq<string>) {
    forall a, b :: a in names && b in names && a in gids && b in gids && a != b ==> gids[a] != gids[b]
  }

  /** Every known group has its directory and a quota that reads back as its applied capacity. */
  ghost predicate Settled(gids: map<string, nat>, h: Host, names: seq<string>, members: map<string, seq<Grant>>) {
    forall n :: n in names && n in gids ==>
      && StorageTotal(GrantsOf(members, n)).Ok?
      && GroupPath(n) in h.dirs
      && QuotaOfListing(ListingOf(h, gids[n])) == Ok(Some(Capacity(StorageTotal(GrantsOf(members, n)).value)))
  }

  /** The quota queries a settled run issues: one per known group, in order. */
  function QueryLog(gids: map<string, nat>, names: seq<string>): seq<Action> {
    if names == [] then []
    else
      var last := names[|names| - 1];
      QueryLog(gids, names[..|names| - 1]) + if last in gids then [Exec(QueryCommand(gids[last]))] else []
  }

  /** A run that completes leaves every known group settled (given distinct names and gids). */
  lemma {:induction false} RunSettles(gids: map<string, nat>, h: Host, names: seq<string>, members: map<string, seq<Grant>>)
    requires Distinct(names) && GidsDistinct(gids, names)
    requires RunGroups(gids, h, names, members).failure.None?
    ensures Settled(gids, RunGroups(gids, h, names, members).host, names, members)
  {
    if names != [] {
      var init, last := names[..|names| - 1], names[|names| - 1];
      var prev := RunGroups(gids, h, init, members);
      assert names == init + [last];
      RunSettles(gids, h, init, members);
      var grants := GrantsOf(members, last);
      var o := Step(gids, prev.host, last, grants);
      StepFrame(gids, prev.host, last, grants);
      if last in gids {
        if GroupPath(last) in prev.host.dirs {
          ExistingDirStep(gids, prev.host, last, grants);
        } else {
          MissingDirStep(gids, prev.host, last, grants);
        }
      }
      forall n | n in names && n in gids
        ensures && StorageTotal(GrantsOf(members, n)).Ok?
                && GroupPath(n) in o.host.dirs
                && QuotaOfListing(ListingOf(o.host, gids[n])) == Ok(Some(Capacity(StorageTotal(GrantsOf(members, n)).value)))
      {
        if n != last {
          assert n in init;
          assert last !in init;
        }
      }
    }
  }

  /** Over settled groups a run only queries: no directory, quota or project change. */
  lemma {:induction false} SettledRunQueriesOnly(gids: map<string, nat>, h: Host, names: seq<string>, members: map<string, seq<Grant>>)
    requires Settled(gids, h, names, members)
    ensures RunGroups(gids, h, names, members) == Outcome(h.(log := h.log + QueryLog(gids, names)), None)
  {
    if names != [] {
      var init, last := names[..|names| - 1], names[|names| - 1];
      assert names == init + [last];
      SettledRunQueriesOnly(gids, h, init, members);
    }
  }

  /**
   * Idempotence: running again over the state a completed run left behind,
   * with the same groups and grants, only queries the quotas, so it writes
   * no quota and creates no directory.
   */
  lemma SecondRunOnlyQueries(gids: map<string, nat>, h: Host, names: seq<string>, members: map<string, seq<Grant>>)
    requires Distinct(names) && GidsDistinct(gids, names)
    requires RunGroups(gids, h, names, members).failure.None?
    ensures var first := RunGroups(gids, h, names, members).host;
            var second := RunGroups(gids, first, names, members);
            && second == Outcome(first.(log := first.log + QueryLog(gids, names)), None)
            && second.host.dirs == first.dirs
            && QuotaWrites(second.host.log) == QuotaWrites(first.log)
  {
    var first := RunGroups(gids, h, names, members).host;
    RunSettles(gids, h, names, members);
    SettledRunQueriesOnly(gids, first, names, members);
    QueryLogHasNoWrites(gids, names);
    QuotaWritesAppend(first.log, QueryLog(gids, names));
  }

  /**
   * Idempotence of the whole tool: with unchanged registry data and system
   * groups, a second invocation after a completed one only queries quotas.
   */
  lemma ManageTwiceOnlyQueries(h: Host, groupNames: seq<string>, grants: seq<Grant>, systemGroups: seq<SystemGroup>)
    requires GidsDistinct(GidTable(systemGroups), groupNames)
    requires RunGroups(GidTable(systemGroups), h, FirstOccurrences(groupNames), Grouping(groupNames, grants).members).failure.None?
    ensures var gids, names, members := GidTable(systemGroups), FirstOccurrences(groupNames), Grouping(groupNames, grants).members;
            var first := RunGroups(gids, h, names, members).host;
            var second := RunGroups(gids, first, names, members);
            && second.failure.None?
            && second.host.dirs == first.dirs
            && second.host.listings == first.listings
            && QuotaWrites(second.host.log) == QuotaWrites(first.log)
  {
    var gids, names, members := GidTable(systemGroups), FirstOccurrences(groupNames), Grouping(groupNames, grants).members;
    FirstOccurrencesSpec(groupNames);
    SecondRunOnlyQueries(gids, h, names, members);
  }

  lemma {:induction false} QueryLogHasNoWrites(gids: map<string, nat>, names: seq<string>)
    ensures QuotaWrites(QueryLog(gids, names)) == 0
  {
    if names != [] {
      var init, last := names[..|names| - 1], names[|names| - 1];
      QueryLogHasNoWrites(gids, init);
      var tail: seq<Action> := if last in gids then [Exec(QueryCommand(gids[last]))] else [];
      QuotaWritesAppend(QueryLog(gids, init), tail);
      if last in gids {
        assert tail[..0] == [];
      }
    }
  }
}
