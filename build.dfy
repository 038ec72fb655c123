/** The start-up code that turns the repository entries into repository
    objects (cmd/maven-proxy/main.go): a first pass builds the hosted and
    proxy repositories, a second pass builds the groups out of what is
    already registered. Every repository shares the one base storage and,
    for the proxies, the one network. */
module Build {
  import opened Common
  import opened Config
  import opened Storage
  import opened Remote
  import opened Repositories

  /** The first pass builds a repository from an enabled "hosted", "" or
      "proxy" entry, and from nothing else. */
  predicate Leaf(c: Entry) {
    c.mode != 0 && (c.kind == "hosted" || c.kind == "" || c.kind == "proxy")
  }

  /** Which entry each id registered by the first pass comes from, once it
      has seen `n` entries. */
  function FirstPass(configs: seq<Entry>, n: nat): (r: map<string, nat>)
    requires n <= |configs|
    ensures forall id | id in r :: r[id] < n && configs[r[id]].id == id && Leaf(configs[r[id]])
  {
    if n == 0 then map[]
    else
      var m := FirstPass(configs, n - 1);
      if Leaf(configs[n - 1]) then m[configs[n - 1].id := n - 1] else m
  }

  /** The ids of the members a group entry gets, given what is registered
      when the second pass reaches it. */
  function Resolved(c: Entry, registered: set<string>): seq<string>
  {
    KnownIds(c.members, registered)
  }

  /** The second pass registers an enabled group entry when at least one of
      its member ids is registered. */
  predicate Registers(c: Entry, registered: set<string>)
  {
    c.mode != 0 && c.kind == "group" && Resolved(c, registered) != []
  }

  /** Which entry each registered id comes from once the second pass has
      seen `n` entries. No disabled entry is ever registered. */
  function SecondPass(configs: seq<Entry>, n: nat): (r: map<string, nat>)
    requires n <= |configs|
    ensures forall id | id in r :: r[id] < |configs| && configs[r[id]].id == id && configs[r[id]].mode != 0
  {
    if n == 0 then FirstPass(configs, |configs|)
    else
      var m := SecondPass(configs, n - 1);
      if Registers(configs[n - 1], m.Keys) then m[configs[n - 1].id := n - 1] else m
  }

  /** The ids of a sequence of repositories. */
  function Ids(rs: seq<Repository>): seq<string>
  {
    seq(|rs|, i requires 0 <= i < |rs| => rs[i].ID())
  }

  /** `r` is the hosted or proxy repository the first pass makes of `c`:
      same id and mode, storage under the entry's target in `fs`, and the
      network `net` for a proxy. */
  ghost predicate BuiltLeaf(r: Repository, c: Entry, fs: FileSystemStorage, net: Fetcher) {
    match r
    case Hosted(h) =>
      (c.kind == "hosted" || c.kind == "") && h.id == c.id && h.mode == c.mode
      && h.storage.base == fs && h.storage.prefix == c.target
    case Proxy(p) =>
      c.kind == "proxy" && p.id == c.id && p.mode == c.mode && p.cache == c.cache && p.mirrors == c.mirror
      && p.storage.base == fs && p.storage.prefix == c.target && p.client == net
    case Group(_) => false
  }

  /** `r` is what the build makes of entry `j`. A group has the entry's id,
      mode and routes; its members are the ids resolved when the second pass
      reached it, in order, and each is the repository registered for its
      id at that moment. */
  ghost predicate BuiltFrom(r: Repository, configs: seq<Entry>, j: nat, fs: FileSystemStorage, net: Fetcher)
    requires j < |configs|
    decreases j, 1
  {
    var c := configs[j];
    match r
    case Group(g) =>
      var plan := SecondPass(configs, j);
      c.kind == "group" && g.id == c.id && g.mode == c.mode && g.routes == c.routes
      && Ids(g.members) == Resolved(c, plan.Keys)
      && forall k | 0 <= k < |g.members| :: MemberBuilt(g.members[k], configs, plan, j, fs, net)
    case _ => BuiltLeaf(r, c, fs, net)
  }

  /** `m`, a member of a group built from entry `j` with `plan` registered,
      is built from the entry `plan` names for its id; a group member comes
      from an earlier entry. */
  ghost predicate MemberBuilt(m: Repository, configs: seq<Entry>, plan: map<string, nat>, j: nat,
                              fs: FileSystemStorage, net: Fetcher)
    requires j < |configs|
    decreases j, 0
  {
    m.ID() in plan &&
    var p := plan[m.ID()];
    if m.Group? then p < j && BuiltFrom(m, configs, p, fs, net)
    else p < |configs| && BuiltLeaf(m, configs[p], fs, net)
  }

  /** `repoStore` holds, for each id of `plan`, a repository with that id,
      valid over `fs` and `net`, and built from the entry `plan` names. */
  ghost predicate Registry(repoStore: map<string, Repository>, entries: seq<Entry>, plan: map<string, nat>,
                           fs: FileSystemStorage, net: Fetcher)
  {
    repoStore.Keys == plan.Keys &&
    forall id | id in repoStore ::
      repoStore[id].ID() == id && Valid(repoStore[id], fs, net) &&
      plan[id] < |entries| && BuiltFrom(repoStore[id], entries, plan[id], fs, net)
  }

  /** Registering a repository built from entry `j` under its id keeps a
      registry one. */
  lemma RegistryAdd(repoStore: map<string, Repository>, entries: seq<Entry>, plan: map<string, nat>,
                    fs: FileSystemStorage, net: Fetcher, j: nat, r: Repository)
    requires Registry(repoStore, entries, plan, fs, net)
    requires j < |entries| && r.ID() == entries[j].id && Valid(r, fs, net) && BuiltFrom(r, entries, j, fs, net)
    ensures Registry(repoStore[entries[j].id := r], entries, plan[entries[j].id := j], fs, net)
  {
  }

  /** The registry after both passes: every id maps to a repository with
      that id, built from the entry `SecondPass` names, well ranked (so
      the member graph is acyclic) and sharing `fs` and `net`. */
  method BuildRepositories(configs: seq<RepositoryConfig>, fs: FileSystemStorage, net: Fetcher)
    returns (repoStore: map<string, Repository>)
    ensures var entries := Snapshots(configs);
      Registry(repoStore, entries, SecondPass(entries, |entries|), fs, net)
  {
    repoStore := BuildLeaves(configs, fs, net);
    repoStore := BuildGroups(configs, repoStore, fs, net);
  }

  /** The first pass: the hosted and proxy repositories. */
  method BuildLeaves(configs: seq<RepositoryConfig>, fs: FileSystemStorage, net: Fetcher)
    returns (repoStore: map<string, Repository>)
    ensures var entries := Snapshots(configs);
      Registry(repoStore, entries, FirstPass(entries, |entries|), fs, net)
  {
    ghost var entries := Snapshots(configs);
    repoStore := map[];
    for i := 0 to |configs|
      invariant Registry(repoStore, entries, FirstPass(entries, i), fs, net)
    {
      var c := configs[i];
      assert c.Snapshot() == entries[i];
      if c.mode != 0 {
        if c.kind == "hosted" || c.kind == "" {
          var repoStorage := new PrefixedStorage(fs, c.target);
          var repo := new HostedRepository(c.id, c.mode, repoStorage);
          RegistryAdd(repoStore, entries, FirstPass(entries, i), fs, net, i, Hosted(repo));
          repoStore := repoStore[c.id := Hosted(repo)];
        } else if c.kind == "proxy" {
          var repoStorage := new PrefixedStorage(fs, c.target);
          var repo := new ProxyRepository(c.id, c.mode, c.cache, c.mirror, repoStorage, net);
          RegistryAdd(repoStore, entries, FirstPass(entries, i), fs, net, i, Proxy(repo));
          repoStore := repoStore[c.id := Proxy(repo)];
        }
      }
    }
  }

  /** The second pass: the groups, over what is registered so far. */
  method BuildGroups(configs: seq<RepositoryConfig>, leaves: map<string, Repository>, fs: FileSystemStorage, net: Fetcher)
    returns (repoStore: map<string, Repository>)
    requires var entries := Snapshots(configs);
      Registry(leaves, entries, FirstPass(entries, |entries|), fs, net)
    ensures var entries := Snapshots(configs);
      Registry(repoStore, entries, SecondPass(entries, |entries|), fs, net)
  {
    ghost var entries := Snapshots(configs);
    repoStore := leaves;
    for i := 0 to |configs|
      invariant Registry(repoStore, entries, SecondPass(entries, i), fs, net)
    {
      var c := configs[i];
      assert c.Snapshot() == entries[i];
      if c.mode != 0 && c.kind == "group" {
        var members := CollectMembers(c.members, repoStore, fs, net);
        if |members| > 0 {
          var repo := new GroupRepository(c.id, c.mode, members, c.routes);
          AddGroup(repoStore, entries, i, fs, net, repo);
          repoStore := repoStore[c.id := Group(repo)];
        } else {
          SkipEntry(repoStore, entries, i, fs, net);
        }
      } else {
        SkipEntry(repoStore, entries, i, fs, net);
      }
    }
  }

  /** Registering the group built from entry `i` over members taken from
      the registry moves the registry one entry on. */
  lemma AddGroup(repoStore: map<string, Repository>, entries: seq<Entry>, i: nat,
                 fs: FileSystemStorage, net: Fetcher, g: GroupRepository)
    requires i < |entries| && Registry(repoStore, entries, SecondPass(entries, i), fs, net)
    requires var c := entries[i];
      c.mode != 0 && c.kind == "group" && g.id == c.id && g.mode == c.mode && g.routes == c.routes
      && Ids(g.members) == KnownIds(c.members, repoStore.Keys) && |g.members| > 0
    requires forall k :: 0 <= k < |g.members| ==>
      g.members[k].ID() in repoStore && g.members[k] == repoStore[g.members[k].ID()]
      && Valid(g.members[k], fs, net) && g.members[k].Rank() < g.rank
    ensures Registry(repoStore[g.id := Group(g)], entries, SecondPass(entries, i + 1), fs, net)
  {
    var plan := SecondPass(entries, i);
    GroupValid(g, fs, net);
    MembersBuilt(repoStore, entries, i, fs, net, g.members);
    assert Resolved(entries[i], plan.Keys) == Ids(g.members);
    assert BuiltFrom(Group(g), entries, i, fs, net);
    RegistryAdd(repoStore, entries, plan, fs, net, i, Group(g));
  }

  /** An entry the second pass does not register leaves the registry as
      it is. */
  lemma SkipEntry(repoStore: map<string, Repository>, entries: seq<Entry>, i: nat,
                  fs: FileSystemStorage, net: Fetcher)
    requires i < |entries| && Registry(repoStore, entries, SecondPass(entries, i), fs, net)
    requires !Registers(entries[i], repoStore.Keys)
    ensures Registry(repoStore, entries, SecondPass(entries, i + 1), fs, net)
  {
  }

  /** A group over valid members, each ranked below it, is valid. */
  lemma GroupValid(g: GroupRepository, fs: FileSystemStorage, net: Fetcher)
    requires forall k :: 0 <= k < |g.members| ==> g.members[k].Rank() < g.rank && Valid(g.members[k], fs, net)
    ensures Valid(Group(g), fs, net)
  {
  }

  /** Repositories taken from the registry the second pass holds at entry
      `i` are each built from the entry registered for their id. */
  lemma MembersBuilt(repoStore: map<string, Repository>, entries: seq<Entry>, i: nat,
                     fs: FileSystemStorage, net: Fetcher, members: seq<Repository>)
    requires i < |entries| && Registry(repoStore, entries, SecondPass(entries, i), fs, net)
    requires forall k :: 0 <= k < |members| ==> members[k].ID() in repoStore && members[k] == repoStore[members[k].ID()]
    ensures forall k :: 0 <= k < |members| ==> MemberBuilt(members[k], entries, SecondPass(entries, i), i, fs, net)
  {
    var plan := SecondPass(entries, i);
    forall k | 0 <= k < |members|
      ensures MemberBuilt(members[k], entries, plan, i, fs, net)
    {
      var m := members[k];
      var id := m.ID();
      assert BuiltFrom(m, entries, plan[id], fs, net);
      if m.Group? {
        SecondPassGroupsRegister(entries, i, id);
      }
    }
  }

  /** The registered repositories of the listed ids, in order; unknown ids
      are dropped. */
  method CollectMembers(memberIds: seq<string>, repoStore: map<string, Repository>, ghost fs: FileSystemStorage, ghost net: Fetcher)
    returns (members: seq<Repository>)
    requires forall id | id in repoStore :: repoStore[id].ID() == id && Valid(repoStore[id], fs, net)
    ensures Ids(members) == KnownIds(memberIds, repoStore.Keys)
    ensures forall k :: 0 <= k < |members| ==>
      members[k].ID() in repoStore && members[k] == repoStore[members[k].ID()] && Valid(members[k], fs, net)
  {
    members := [];
    for j := 0 to |memberIds|
      invariant Ids(members) == KnownIds(memberIds[..j], repoStore.Keys)
      invariant forall k :: 0 <= k < |members| ==>
        members[k].ID() in repoStore && members[k] == repoStore[members[k].ID()] && Valid(members[k], fs, net)
    {
      var memberId := memberIds[j];
      assert memberIds[..j + 1][..j] == memberIds[..j];
      if memberId in repoStore {
        members := members + [repoStore[memberId]];
      }
    }
    assert memberIds[..|memberIds|] == memberIds;
  }

  // ---------------------------------------------------------------------
  // Which entry wins

  /** After the first pass an id is registered exactly when an enabled
      hosted or proxy entry carries it, and it comes from the last such
      entry. */
  lemma {:induction false} FirstPassLastWins(entries: seq<Entry>, n: nat, id: string)
    requires n <= |entries|
    ensures id in FirstPass(entries, n) <==> exists j :: 0 <= j < n && entries[j].id == id && Leaf(entries[j])
    ensures id in FirstPass(entries, n) ==>
      forall j :: FirstPass(entries, n)[id] < j < n ==> !(entries[j].id == id && Leaf(entries[j]))
    decreases n
  {
    if n > 0 {
      FirstPassLastWins(entries, n - 1, id);
      if entries[n - 1].id == id && Leaf(entries[n - 1]) {
        assert id in FirstPass(entries, n);
      }
    }
  }

  /** The second pass only adds ids. */
  lemma {:induction false} SecondPassGrows(entries: seq<Entry>, m: nat, n: nat)
    requires m <= n <= |entries|
    ensures SecondPass(entries, m).Keys <= SecondPass(entries, n).Keys
    decreases n - m
  {
    if m < n {
      SecondPassGrows(entries, m, n - 1);
    }
  }

  /** A group entry that the second pass registers is replaced only by a
      later entry with the same id: the entry an id ends up with is never
      earlier than a registering group entry with that id. */
  lemma {:induction false} SecondPassLaterWins(entries: seq<Entry>, n: nat, j: nat)
    requires j < n <= |entries|
    requires Registers(entries[j], SecondPass(entries, j).Keys)
    ensures entries[j].id in SecondPass(entries, n) && j <= SecondPass(entries, n)[entries[j].id]
    decreases n - j
  {
    if n == j + 1 {
      assert SecondPass(entries, n) == SecondPass(entries, j)[entries[j].id := j];
    } else {
      SecondPassLaterWins(entries, n - 1, j);
    }
  }

  /** An id the second pass leaves with a group entry is registered by that
      entry: it is enabled and at least one of its members was registered
      when the pass reached it. */
  lemma {:induction false} SecondPassGroupsRegister(entries: seq<Entry>, n: nat, id: string)
    requires n <= |entries|
    requires id in SecondPass(entries, n) && entries[SecondPass(entries, n)[id]].kind == "group"
    ensures var j := SecondPass(entries, n)[id];
      j < n && Registers(entries[j], SecondPass(entries, j).Keys)
    decreases n
  {
    if n > 0 && !(Registers(entries[n - 1], SecondPass(entries, n - 1).Keys) && entries[n - 1].id == id) {
      SecondPassGroupsRegister(entries, n - 1, id);
    }
  }
}
