/** The repository entries of the configuration (pkg/config/config.go) and
    `validateRepositories` (pkg/config/loader.go), which `Load` runs on them
    after decoding: it defaults every enabled entry's target directory to
    its id and drops unknown ids from every group's member list. */
module Config {
  import opened Common

  /** The fields of a `repository` entry at one moment. */
  datatype Entry = Entry(id: string, target: string, mode: bv64, cache: bool, mirror: seq<string>,
                         kind: string, members: seq<string>, routes: map<string, string>)

  /** One `repository` entry, shared by pointer between the configuration
      and the code that reads it. Only `target` and `members` are ever
      rewritten. */
  class RepositoryConfig {
    const id: string
    /** The directory under the local repository that holds its files. */
    var target: string
    /** Bit 4 allows reading, bit 2 writing; 0 disables the entry. */
    const mode: bv64
    const cache: bool
    const mirror: seq<string>
    /** "hosted", "proxy", "group", or "" (read as hosted). */
    const kind: string
    /** The ids of a group's members, in priority order. */
    var members: seq<string>
    const routes: map<string, string>

    constructor (id: string, target: string, mode: bv64, cache: bool, mirror: seq<string>,
                 kind: string, members: seq<string>, routes: map<string, string>)
      ensures this.id == id && this.target == target && this.mode == mode && this.cache == cache
      ensures this.mirror == mirror && this.kind == kind && this.members == members && this.routes == routes
    {
      this.id := id;
      this.target := target;
      this.mode := mode;
      this.cache := cache;
      this.mirror := mirror;
      this.kind := kind;
      this.members := members;
      this.routes := routes;
    }

    /** What the entry holds now. */
    function Snapshot(): Entry
      reads this
    {
      Entry(id, target, mode, cache, mirror, kind, members, routes)
    }
  }

  /** What each entry holds now, in order. */
  function Snapshots(configs: seq<RepositoryConfig>): seq<Entry>
    reads configs
  {
    seq(|configs|, i requires 0 <= i < |configs| reads configs => configs[i].Snapshot())
  }

  /** The ids of `ids` that are in `known`, in their order. */
  function KnownIds(ids: seq<string>, known: set<string>): (r: seq<string>)
    ensures |r| <= |ids|
    decreases |ids|
  {
    if ids == [] then []
    else
      var rest := KnownIds(ids[..|ids| - 1], known);
      if ids[|ids| - 1] in known then rest + [ids[|ids| - 1]] else rest
  }

  /** The first pass indexes an entry: it is enabled, and it is not a group
      without members. */
  predicate Indexed(c: RepositoryConfig)
    reads c`members
  {
    c.mode != 0 && !(c.kind == "group" && |c.members| == 0)
  }

  /** The ids the first pass has indexed after `n` entries. */
  function IndexedIds(repos: seq<RepositoryConfig>, n: nat): set<string>
    requires n <= |repos|
    reads repos`members
  {
    if n == 0 then {}
    else IndexedIds(repos, n - 1) + (if Indexed(repos[n - 1]) then {repos[n - 1].id} else {})
  }

  /** The target an entry has after the first pass, given its target before. */
  function DefaultTarget(c: RepositoryConfig, target: string): string {
    if c.mode != 0 && target == "" then c.id else target
  }

  /** The second pass rewrites the members of every group that has some,
      whatever its mode. */
  predicate Filtered(c: RepositoryConfig, members: seq<string>) {
    c.kind == "group" && |members| > 0
  }

  /** The members an entry has after the second pass, given its members
      before and the ids the first pass indexed. */
  function CheckedMembers(c: RepositoryConfig, members: seq<string>, known: set<string>): seq<string> {
    if Filtered(c, members) then KnownIds(members, known) else members
  }

  /** `validateRepositories`. The first pass defaults the target of every
      enabled entry and indexes the ids of the enabled entries other than
      groups without members; the second pass keeps, in each group with
      members, the ids the first pass indexed. It never fails. */
  method ValidateRepositories(repos: seq<RepositoryConfig>) returns (o: Outcome)
    modifies repos
    ensures o == Done
    ensures forall c | c in repos :: c.target == DefaultTarget(c, old(c.target))
    ensures forall c | c in repos :: c.members == CheckedMembers(c, old(c.members), old(IndexedIds(repos, |repos|)))
  {
    var repoStore := IndexRepositories(repos);
    CheckGroups(repos, repoStore);
    o := Done;
  }

  /** The first pass: defaults targets and indexes ids. */
  method IndexRepositories(repos: seq<RepositoryConfig>) returns (repoStore: map<string, RepositoryConfig>)
    modifies repos
    ensures repoStore.Keys == IndexedIds(repos, |repos|)
    ensures forall c | c in repos :: c.members == old(c.members)
    ensures forall c | c in repos :: c.target == DefaultTarget(c, old(c.target))
  {
    repoStore := map[];
    for i := 0 to |repos|
      invariant repoStore.Keys == IndexedIds(repos, i)
      invariant forall c | c in repos :: c.members == old(c.members)
      invariant forall c | c in repos :: c.target == if c in repos[..i] then DefaultTarget(c, old(c.target)) else old(c.target)
    {
      var repo := repos[i];
      if repo.mode != 0 {
        if repo.target == "" {
          repo.target := repo.id;
        }
        if !(repo.kind == "group" && |repo.members| == 0) {
          repoStore := repoStore[repo.id := repo];
        }
      }
    }
  }

  /** The second pass: every group with members keeps the indexed ones. */
  method CheckGroups(repos: seq<RepositoryConfig>, repoStore: map<string, RepositoryConfig>)
    modifies repos
    ensures forall c | c in repos :: c.target == old(c.target)
    ensures forall c | c in repos :: c.members == CheckedMembers(c, old(c.members), repoStore.Keys)
  {
    for i := 0 to |repos|
      invariant forall c | c in repos :: c.target == old(c.target)
      invariant forall c | c in repos ::
        c.members == if c in repos[..i] then CheckedMembers(c, old(c.members), repoStore.Keys) else old(c.members)
    {
      var repo := repos[i];
      if repo.kind == "group" && |repo.members| > 0 {
        var validMembers := KnownMembers(repo.members, repoStore);
        if repo in repos[..i] {
          KnownIdsIdempotent(old(repo.members), repoStore.Keys);
        }
        repo.members := validMembers;
      }
    }
  }

  /** `validMembers`: the listed ids the index holds, in order. */
  method KnownMembers(ids: seq<string>, repoStore: map<string, RepositoryConfig>) returns (validMembers: seq<string>)
    ensures validMembers == KnownIds(ids, repoStore.Keys)
  {
    validMembers := [];
    for j := 0 to |ids|
      invariant validMembers == KnownIds(ids[..j], repoStore.Keys)
    {
      var memberId := ids[j];
      assert ids[..j + 1][..j] == ids[..j];
      if memberId in repoStore {
        validMembers := validMembers + [memberId];
      }
    }
    assert ids[..|ids|] == ids;
  }

  // ---------------------------------------------------------------------
  // What the member filter keeps

  /** An id survives exactly when it was listed and is known. */
  lemma {:induction false} KnownIdsMembers(ids: seq<string>, known: set<string>)
    ensures forall x :: x in KnownIds(ids, known) <==> x in ids && x in known
    decreases |ids|
  {
    if ids != [] {
      var prev := ids[..|ids| - 1];
      KnownIdsMembers(prev, known);
      assert ids == prev + [ids[|ids| - 1]];
    }
  }

  /** Filtering keeps the order: the survivors of a concatenation are the
      survivors of each part, one after the other. */
  lemma {:induction false} KnownIdsAppend(a: seq<string>, b: seq<string>, known: set<string>)
    ensures KnownIds(a + b, known) == KnownIds(a, known) + KnownIds(b, known)
    decreases |b|
  {
    if b != [] {
      var prev := b[..|b| - 1];
      assert (a + b)[..|a + b| - 1] == a + prev;
      KnownIdsAppend(a, prev, known);
    } else {
      assert a + b == a;
    }
  }

  /** A list of known ids passes unchanged. */
  lemma {:induction false} KnownIdsAllKnown(ids: seq<string>, known: set<string>)
    requires forall i :: 0 <= i < |ids| ==> ids[i] in known
    ensures KnownIds(ids, known) == ids
    decreases |ids|
  {
    if ids != [] {
      KnownIdsAllKnown(ids[..|ids| - 1], known);
    }
  }

  /** Filtering twice against the same ids is filtering once. */
  lemma KnownIdsIdempotent(ids: seq<string>, known: set<string>)
    ensures KnownIds(KnownIds(ids, known), known) == KnownIds(ids, known)
  {
    var r := KnownIds(ids, known);
    KnownIdsMembers(ids, known);
    assert forall i :: 0 <= i < |r| ==> r[i] in r;
    KnownIdsAllKnown(r, known);
  }

  /** An id is indexed exactly when an enabled entry with that id, other
      than a group without members, precedes position `n`. */
  lemma {:induction false} IndexedIdsExactly(repos: seq<RepositoryConfig>, n: nat, x: string)
    requires n <= |repos|
    ensures x in IndexedIds(repos, n) <==> exists j :: 0 <= j < n && repos[j].id == x && Indexed(repos[j])
    decreases n
  {
    if n > 0 {
      IndexedIdsExactly(repos, n - 1, x);
      if repos[n - 1].id == x && Indexed(repos[n - 1]) {
        assert x in IndexedIds(repos, n);
      }
    }
  }
}
