/** What the repositories promise, stated over `GetOutcome`, `PutOutcome`
    and `ListOutcome`: mode bits, the hosted round trip, the proxy's cache
    and mirror fallback, and the group's read priority, write routing and
    listing union. */
module RepositoryFacts {
  import opened Common
  import opened Paths
  import opened Text
  import opened FileTree
  import opened Storage
  import opened Remote
  import opened Repositories

  // ---------------------------------------------------------------------
  // Modes

  /** Setting or clearing the read bit decides readability and leaves
      writability as it was. */
  lemma ReadBitIndependent(m: bv64)
    ensures ReadBit(m | 4) && !ReadBit(m & 0xFFFF_FFFF_FFFF_FFFB)
    ensures WriteBit(m | 4) == WriteBit(m) && WriteBit(m & 0xFFFF_FFFF_FFFF_FFFB) == WriteBit(m)
  {
  }

  /** Setting or clearing the write bit decides writability and leaves
      readability as it was. */
  lemma WriteBitIndependent(m: bv64)
    ensures WriteBit(m | 2) && !WriteBit(m & 0xFFFF_FFFF_FFFF_FFFD)
    ensures ReadBit(m | 2) == ReadBit(m) && ReadBit(m & 0xFFFF_FFFF_FFFF_FFFD) == ReadBit(m)
  {
  }

  /** The three kinds report their names, and only hosted and group
      repositories can be writable. */
  lemma KindsAndPermissions(r: Repository)
    ensures r.Type() == "hosted" <==> r.Hosted?
    ensures r.Type() == "proxy" <==> r.Proxy?
    ensures r.Type() == "group" <==> r.Group?
    ensures r.Proxy? ==> !r.CanWrite()
    ensures r.Hosted? ==> (r.CanRead() <==> r.hosted.mode & 4 == 4) && (r.CanWrite() <==> r.hosted.mode & 2 == 2)
    ensures r.Group? ==> (r.CanRead() <==> r.group.mode & 4 == 4) && (r.CanWrite() <==> r.group.mode & 2 == 2)
    ensures r.Proxy? ==> (r.CanRead() <==> r.proxy.mode & 4 == 4)
  {
  }

  // ---------------------------------------------------------------------
  // Hosted

  /** A hosted repository returns what was put into it, whatever its mode,
      with the content type of the path. */
  lemma HostedRoundTrip(h: HostedRepository, path: string, data: Bytes, t: Tree, now: Time, later: Time)
    requires Wf(t)
    requires PutOutcome(Hosted(h), path, data, t, now).outcome == Done
    ensures var t' := PutOutcome(Hosted(h), path, data, t, now).tree;
      GetOutcome(Hosted(h), path, t', later)
        == GetResult(Hit(data, 200, ReadHeaders(Join(h.storage.prefix, path))), t', [])
  {
    var full := Join(h.storage.prefix, path);
    WriteThenRead(t, full, full, data, now);
  }

  // ---------------------------------------------------------------------
  // Proxy

  /** The mirror at position `j` answers the path with status 200. */
  predicate MirrorServes(p: ProxyRepository, path: string, j: nat)
    requires j < |p.mirrors|
  {
    var f := p.client.answer(p.mirrors[j] + path);
    f.Fetched? && f.status == 200
  }

  /** The URLs of mirrors `k` up to (excluding) `n`, for `path`. */
  function Urls(p: ProxyRepository, path: string, k: nat, n: nat): (r: seq<string>)
    requires k <= n <= |p.mirrors|
    ensures |r| == n - k
    ensures forall j :: 0 <= j < n - k ==> r[j] == p.mirrors[k + j] + path
  {
    seq(n - k, j requires 0 <= j < n - k => p.mirrors[k + j] + path)
  }

  /** A cached copy answers, and no mirror is contacted. */
  lemma ProxyCacheHit(p: ProxyRepository, path: string, t: Tree, now: Time)
    requires FileTree.Read(t, Join(p.storage.prefix, path)).Hit?
    ensures GetOutcome(Proxy(p), path, t, now) == GetResult(FileTree.Read(t, Join(p.storage.prefix, path)), t, [])
  {
  }

  lemma {:induction false} MirrorScanFirst(p: ProxyRepository, path: string, t: Tree, now: Time, k: nat, i: nat)
    requires k <= i < |p.mirrors| && MirrorServes(p, path, i)
    requires forall j :: k <= j < i ==> !MirrorServes(p, path, j)
    ensures var f, o := p.client.answer(p.mirrors[i] + path), MirrorScan(p, path, t, now, k);
      o.reply == Hit(f.data, 200, f.headers) && o.tree == CacheFill(p, path, f.data, t, now)
      && o.contacted == Urls(p, path, k, i + 1)
    decreases i - k
  {
    var o := MirrorScan(p, path, t, now, k);
    if k < i {
      assert !MirrorServes(p, path, k);
      MirrorScanFirst(p, path, t, now, k + 1, i);
      var rest := MirrorScan(p, path, t, now, k + 1);
      assert o == rest.(contacted := [p.mirrors[k] + path] + rest.contacted);
      assert Urls(p, path, k, i + 1) == [p.mirrors[k] + path] + Urls(p, path, k + 1, i + 1);
    } else {
      assert o.contacted == [p.mirrors[k] + path];
      assert Urls(p, path, k, i + 1) == [p.mirrors[k] + path];
    }
  }

  /** On a cache miss the mirrors are asked in order; the first to answer
      200 supplies the reply, and no later mirror is contacted. */
  lemma ProxyMirrorFallback(p: ProxyRepository, path: string, t: Tree, now: Time, i: nat)
    requires FileTree.Read(t, Join(p.storage.prefix, path)).Miss?
    requires i < |p.mirrors| && MirrorServes(p, path, i)
    requires forall j :: 0 <= j < i ==> !MirrorServes(p, path, j)
    ensures var f, o := p.client.answer(p.mirrors[i] + path), GetOutcome(Proxy(p), path, t, now);
      o.reply == Hit(f.data, 200, f.headers) && o.tree == CacheFill(p, path, f.data, t, now)
      && o.contacted == Urls(p, path, 0, i + 1)
  {
    MirrorScanFirst(p, path, t, now, 0, i);
  }

  lemma {:induction false} MirrorScanNone(p: ProxyRepository, path: string, t: Tree, now: Time, k: nat)
    requires k <= |p.mirrors|
    requires forall j :: k <= j < |p.mirrors| ==> !MirrorServes(p, path, j)
    ensures MirrorScan(p, path, t, now, k) == GetResult(Miss(404, NotInAnyMirror), t, Urls(p, path, k, |p.mirrors|))
    decreases |p.mirrors| - k
  {
    if k < |p.mirrors| {
      assert !MirrorServes(p, path, k);
      MirrorScanNone(p, path, t, now, k + 1);
      var rest := MirrorScan(p, path, t, now, k + 1);
      assert MirrorScan(p, path, t, now, k) == rest.(contacted := [p.mirrors[k] + path] + rest.contacted);
      assert Urls(p, path, k, |p.mirrors|) == [p.mirrors[k] + path] + Urls(p, path, k + 1, |p.mirrors|);
    }
  }

  /** On a cache miss with no mirror answering 200, every mirror has been
      asked, the reply is 404 and storage is unchanged. */
  lemma ProxyAllMirrorsFail(p: ProxyRepository, path: string, t: Tree, now: Time)
    requires FileTree.Read(t, Join(p.storage.prefix, path)).Miss?
    requires forall j :: 0 <= j < |p.mirrors| ==> !MirrorServes(p, path, j)
    ensures GetOutcome(Proxy(p), path, t, now) == GetResult(Miss(404, NotInAnyMirror), t, Urls(p, path, 0, |p.mirrors|))
  {
    MirrorScanNone(p, path, t, now, 0);
  }

  lemma {:induction false} MirrorScanKeepsTree(p: ProxyRepository, path: string, t: Tree, now: Time, k: nat)
    requires k <= |p.mirrors|
    requires !p.cache || ContainsFolded(path, "maven-metadata.xml")
    ensures MirrorScan(p, path, t, now, k).tree == t
    decreases |p.mirrors| - k
  {
    if k < |p.mirrors| {
      MirrorScanKeepsTree(p, path, t, now, k + 1);
    }
  }

  /** A proxy whose cache is off, or a request for repository metadata in
      any letter case, never writes to storage. */
  lemma ProxyStorageUntouched(p: ProxyRepository, path: string, t: Tree, now: Time)
    requires !p.cache || ContainsFolded(path, "maven-metadata.xml")
    ensures GetOutcome(Proxy(p), path, t, now).tree == t
  {
    MirrorScanKeepsTree(p, path, t, now, 0);
  }

  /** Metadata is recognised by its file name in any letter case. */
  lemma MetadataNeverCached(p: ProxyRepository, dir: string, name: string, rest: string, t: Tree, now: Time)
    requires ToLower(name) == "maven-metadata.xml"
    ensures GetOutcome(Proxy(p), dir + name + rest, t, now).tree == t
  {
    FoldedInfix(dir, name, rest, "maven-metadata.xml");
    ProxyStorageUntouched(p, dir + name + rest, t, now);
  }

  /** Once a fetched artifact has been cached, the next `Get` of the path is
      answered from storage with the same bytes and contacts no mirror, so
      it succeeds whatever the mirrors answer by then. */
  lemma ProxyServesFromCacheAfterFetch(p: ProxyRepository, path: string, t: Tree, now: Time, later: Time, i: nat)
    requires FileTree.Read(t, Join(p.storage.prefix, path)).Miss?
    requires i < |p.mirrors| && MirrorServes(p, path, i)
    requires forall j :: 0 <= j < i ==> !MirrorServes(p, path, j)
    requires p.cache && !ContainsFolded(path, "maven-metadata.xml")
    requires WriteOutcome(t, Join(p.storage.prefix, path)) == Done
    ensures var f, t' := p.client.answer(p.mirrors[i] + path), GetOutcome(Proxy(p), path, t, now).tree;
      GetOutcome(Proxy(p), path, t', later)
        == GetResult(Hit(f.data, 200, ReadHeaders(Join(p.storage.prefix, path))), t', [])
  {
    var f := p.client.answer(p.mirrors[i] + path);
    var full := Join(p.storage.prefix, path);
    ProxyMirrorFallback(p, path, t, now, i);
    var t' := GetOutcome(Proxy(p), path, t, now).tree;
    assert t' == AfterWrite(t, full, f.data, now);
    WriteThenRead(t, full, full, f.data, now);
    assert FileTree.Read(t', full) == Hit(f.data, 200, ReadHeaders(full));
  }

  // ---------------------------------------------------------------------
  // Group: Get

  /** The URLs contacted by the readable members at positions `k` up to
      (excluding) `i`; unreadable members contribute nothing. */
  function Asked(g: GroupRepository, path: string, t: Tree, now: Time, k: nat, i: nat): seq<string>
    requires WellRanked(Group(g)) && k <= i <= |g.members|
    decreases i - k
  {
    if k == i then [] else AskedOf(g, path, t, now, k) + Asked(g, path, t, now, k + 1, i)
  }

  /** The URLs member `k` contacts while the group asks it. */
  function AskedOf(g: GroupRepository, path: string, t: Tree, now: Time, k: nat): seq<string>
    requires WellRanked(Group(g)) && k < |g.members|
  {
    if g.members[k].CanRead() then GetOutcome(g.members[k], path, t, now).contacted else []
  }

  /** A member that does not serve the path passes the scan on, adding
      the URLs it contacted. */
  lemma MemberScanPass(g: GroupRepository, path: string, t: Tree, now: Time, k: nat)
    requires WellRanked(Group(g)) && k < |g.members|
    requires !Serves(g, path, t, now, k)
    ensures var o, rest := MemberScan(g, path, t, now, k), MemberScan(g, path, t, now, k + 1);
      o.reply == rest.reply && o.tree == rest.tree && o.contacted == AskedOf(g, path, t, now, k) + rest.contacted
  {
    if !g.members[k].CanRead() {
      assert [] + MemberScan(g, path, t, now, k + 1).contacted == MemberScan(g, path, t, now, k + 1).contacted;
    }
  }

  /** Member `i` is readable and has the path. */
  predicate Serves(g: GroupRepository, path: string, t: Tree, now: Time, i: nat)
    requires WellRanked(Group(g)) && i < |g.members|
  {
    g.members[i].CanRead() && GetOutcome(g.members[i], path, t, now).reply.Hit?
  }

  lemma {:induction false} MemberScanFirst(g: GroupRepository, path: string, t: Tree, now: Time, k: nat, i: nat)
    requires WellRanked(Group(g)) && k <= i < |g.members|
    requires Serves(g, path, t, now, i)
    requires forall j :: k <= j < i ==> !Serves(g, path, t, now, j)
    ensures var o, oi := MemberScan(g, path, t, now, k), GetOutcome(g.members[i], path, t, now);
      o.reply == oi.reply && o.tree == oi.tree && o.contacted == Asked(g, path, t, now, k, i) + oi.contacted
    decreases i - k
  {
    if k < i {
      MemberScanFirst(g, path, t, now, k + 1, i);
      MemberScanPass(g, path, t, now, k);
      var a, b, c := AskedOf(g, path, t, now, k), Asked(g, path, t, now, k + 1, i),
                     GetOutcome(g.members[i], path, t, now).contacted;
      assert a + (b + c) == (a + b) + c;
    }
  }

  /** A group answers with the first readable member that has the path,
      in member order; before it, only readable members are asked. */
  lemma GroupGetFirstHit(g: GroupRepository, path: string, t: Tree, now: Time, i: nat)
    requires WellRanked(Group(g)) && i < |g.members|
    requires Serves(g, path, t, now, i)
    requires forall j :: 0 <= j < i ==> !Serves(g, path, t, now, j)
    ensures var o, oi := GetOutcome(Group(g), path, t, now), GetOutcome(g.members[i], path, t, now);
      o.reply == oi.reply && o.tree == oi.tree && o.contacted == Asked(g, path, t, now, 0, i) + oi.contacted
  {
    MemberScanFirst(g, path, t, now, 0, i);
  }

  lemma {:induction false} MemberScanMiss(g: GroupRepository, path: string, t: Tree, now: Time, k: nat)
    requires WellRanked(Group(g)) && k <= |g.members|
    ensures MemberScan(g, path, t, now, k).reply.Miss?
        <==> forall j :: k <= j < |g.members| ==> !Serves(g, path, t, now, j)
    ensures MemberScan(g, path, t, now, k).reply.Miss? ==>
      MemberScan(g, path, t, now, k) == GetResult(Miss(404, NotInAnyMember), t, Asked(g, path, t, now, k, |g.members|))
    decreases |g.members| - k
  {
    if k < |g.members| {
      assert Serves(g, path, t, now, k) || !Serves(g, path, t, now, k);
      MemberScanMiss(g, path, t, now, k + 1);
    }
  }

  /** A group misses exactly when no readable member has the path (in
      particular when no member is readable); it then answers 404, has
      changed nothing, and has asked every readable member. */
  lemma GroupGetMiss(g: GroupRepository, path: string, t: Tree, now: Time)
    requires WellRanked(Group(g))
    ensures GetOutcome(Group(g), path, t, now).reply.Miss?
        <==> forall j :: 0 <= j < |g.members| ==> !Serves(g, path, t, now, j)
    ensures GetOutcome(Group(g), path, t, now).reply.Miss? ==>
      GetOutcome(Group(g), path, t, now)
        == GetResult(Miss(404, NotInAnyMember), t, Asked(g, path, t, now, 0, |g.members|))
  {
    MemberScanMiss(g, path, t, now, 0);
  }

  // ---------------------------------------------------------------------
  // Group: Put

  /** Any path containing "-snapshot", in any letter case, takes the
      "snapshot" route. */
  lemma SnapshotRoute(g: GroupRepository, a: string, x: string, b: string)
    requires ToLower(x) == "-snapshot"
    ensures g.TargetId(a + x + b) == if "snapshot" in g.routes then g.routes["snapshot"] else ""
  {
    FoldedInfix(a, x, b, "-snapshot");
  }

  /** A path no slice of which folds to "-snapshot" takes the "release"
      route; with `SnapshotRoute` this covers every path. */
  lemma ReleaseRoute(g: GroupRepository, path: string)
    requires forall i :: !FoldsAt(path, "-snapshot", i)
    ensures g.TargetId(path) == if "release" in g.routes then g.routes["release"] else ""
  {
    FoldedAt(path, "-snapshot");
  }

  /** A path without a '-' has no slice folding to "-snapshot". */
  lemma HyphenFreeIsRelease(path: string)
    requires '-' !in path
    ensures forall i :: !FoldsAt(path, "-snapshot", i)
  {
    FoldedMissingStart(path, "-snapshot");
    FoldedAt(path, "-snapshot");
  }

  /** A group's put is the put of the first member whose id is the target
      id, and of that member only. */
  lemma GroupPutDelegates(g: GroupRepository, path: string, data: Bytes, t: Tree, now: Time, i: nat)
    requires WellRanked(Group(g)) && Wf(t)
    requires i < |g.members| && g.members[i].ID() == g.TargetId(path)
    requires forall j :: 0 <= j < i ==> g.members[j].ID() != g.TargetId(path)
    ensures PutOutcome(Group(g), path, data, t, now) == PutOutcome(g.members[i], path, data, t, now)
  {
    var r := g.RouteToTarget(path);
    assert g.members[i].ID() == g.TargetId(path);
    assert r.Some?;
    assert g.members[r.value].ID() == g.TargetId(path);
  }

  /** When no member carries the target id the put fails and storage is
      unchanged. */
  lemma GroupPutNoTarget(g: GroupRepository, path: string, data: Bytes, t: Tree, now: Time)
    requires WellRanked(Group(g)) && Wf(t)
    requires forall j :: 0 <= j < |g.members| ==> g.members[j].ID() != g.TargetId(path)
    ensures PutOutcome(Group(g), path, data, t, now) == PutResult(Failed(NoRouteTarget), t)
  {
  }

  /** Routes {release: first member, snapshot: second member}: a snapshot
      artifact goes to the second member, any other path to the first, and
      without a release route any other path is refused unless some member
      has the empty id. */
  lemma GroupWriteRouting(g: GroupRepository, dir: string, x: string, file: string, plain: string, data: Bytes, t: Tree, now: Time)
    requires WellRanked(Group(g)) && Wf(t) && |g.members| == 2
    requires g.members[0].ID() != g.members[1].ID()
    requires "snapshot" in g.routes && g.routes["snapshot"] == g.members[1].ID()
    requires ToLower(x) == "-snapshot" && forall i :: !FoldsAt(plain, "-snapshot", i)
    ensures PutOutcome(Group(g), dir + x + file, data, t, now) == PutOutcome(g.members[1], dir + x + file, data, t, now)
    ensures "release" in g.routes && g.routes["release"] == g.members[0].ID() ==>
      PutOutcome(Group(g), plain, data, t, now) == PutOutcome(g.members[0], plain, data, t, now)
    ensures "release" !in g.routes && g.members[0].ID() != "" && g.members[1].ID() != "" ==>
      PutOutcome(Group(g), plain, data, t, now) == PutResult(Failed(NoRouteTarget), t)
  {
    SnapshotRoute(g, dir, x, file);
    GroupPutDelegates(g, dir + x + file, data, t, now, 1);
    ReleaseRoute(g, plain);
    if "release" in g.routes && g.routes["release"] == g.members[0].ID() {
      GroupPutDelegates(g, plain, data, t, now, 0);
    }
  }

  // ---------------------------------------------------------------------
  // Group: List

  /** Member `i` is readable, lists the path, and reports `name`. */
  ghost predicate Reports(g: GroupRepository, path: string, t: Tree, i: nat, name: string)
    requires WellRanked(Group(g)) && i < |g.members|
  {
    var member := g.members[i];
    member.CanRead() && ListOutcome(member, path, t).Listed?
    && name in Names(ListOutcome(member, path, t).entries)
  }

  lemma ReportedNames(g: GroupRepository, path: string, t: Tree, i: nat, name: string)
    requires WellRanked(Group(g)) && i < |g.members|
    ensures name in Names(Reported(g, path, t, i)) <==> Reports(g, path, t, i, name)
  {
  }

  /** One more member adds exactly the names it reports. */
  lemma CollectedStep(g: GroupRepository, path: string, t: Tree, n: nat)
    requires WellRanked(Group(g)) && 0 < n <= |g.members|
    ensures forall name :: (name in Collected(g, path, t, n)
      <==> name in Collected(g, path, t, n - 1) || Reports(g, path, t, n - 1, name))
  {
    AddNewKeys(Collected(g, path, t, n - 1), Reported(g, path, t, n - 1));
    forall name
      ensures name in Collected(g, path, t, n) <==> name in Collected(g, path, t, n - 1) || Reports(g, path, t, n - 1, name)
    {
      ReportedNames(g, path, t, n - 1, name);
    }
  }

  lemma {:induction false} CollectedKeys(g: GroupRepository, path: string, t: Tree, n: nat)
    requires WellRanked(Group(g)) && n <= |g.members|
    ensures forall name :: name in Collected(g, path, t, n) <==> exists i :: 0 <= i < n && Reports(g, path, t, i, name)
    decreases n
  {
    if n > 0 {
      CollectedKeys(g, path, t, n - 1);
      CollectedStep(g, path, t, n);
      forall name
        ensures name in Collected(g, path, t, n) <==> exists i :: 0 <= i < n && Reports(g, path, t, i, name)
      {
        if name in Collected(g, path, t, n - 1) {
          var i :| 0 <= i < n - 1 && Reports(g, path, t, i, name);
        }
        if exists i :: 0 <= i < n && Reports(g, path, t, i, name) {
          var i :| 0 <= i < n && Reports(g, path, t, i, name);
          if i < n - 1 {
            assert name in Collected(g, path, t, n - 1);
          }
        }
      }
    }
  }

  lemma {:induction false} AddNewFirst(m: map<string, FileInfo>, entries: seq<FileInfo>, k: nat)
    requires k < |entries| && entries[k].name !in m
    requires forall j :: 0 <= j < k ==> entries[j].name != entries[k].name
    ensures entries[k].name in AddNew(m, entries) && AddNew(m, entries)[entries[k].name] == entries[k]
    decreases |entries|
  {
    var prev := entries[..|entries| - 1];
    if k < |entries| - 1 {
      AddNewFirst(m, prev, k);
    } else {
      AddNewKeys(m, prev);
      assert entries[k].name !in Names(prev);
      assert entries[k].name !in AddNew(m, prev);
    }
  }

  /** The listing of a group: entries with distinct names in ascending
      order, whose names are exactly the names some readable member lists
      successfully. */
  lemma GroupListUnion(g: GroupRepository, path: string, t: Tree)
    requires WellRanked(Group(g))
    ensures ListOutcome(Group(g), path, t).Listed?
    ensures var names := Names(ListOutcome(Group(g), path, t).entries);
      StrictlyAscending(names) &&
      forall name :: name in names <==> exists i :: 0 <= i < |g.members| && Reports(g, path, t, i, name)
  {
    var c := Collected(g, path, t, |g.members|);
    CollectedNames(g, path, t, |g.members|);
    CollectedKeys(g, path, t, |g.members|);
    assert Names(SortedEntries(c)) == SortedSeq(c.Keys);
  }

  /** For a name several members report, the group's listing carries the
      entry of the earliest readable member that lists it successfully (its
      first entry of that name). */
  lemma GroupListFirstWins(g: GroupRepository, path: string, t: Tree, i: nat, k: nat)
    requires WellRanked(Group(g)) && i < |g.members|
    requires g.members[i].CanRead() && ListOutcome(g.members[i], path, t).Listed?
    requires var entries := ListOutcome(g.members[i], path, t).entries;
      k < |entries| && forall j :: 0 <= j < k ==> entries[j].name != entries[k].name
    requires forall j :: 0 <= j < i ==> !Reports(g, path, t, j, ListOutcome(g.members[i], path, t).entries[k].name)
    ensures var e, listed := ListOutcome(g.members[i], path, t).entries[k], ListOutcome(Group(g), path, t).entries;
      e in listed && forall x :: x in listed && x.name == e.name ==> x == e
  {
    CollectedLast(g, path, t, i, k);
    ListedFromCollected(g, path, t, ListOutcome(g.members[i], path, t).entries[k]);
  }

  /** The entry a member files first stays to the end of the scan. */
  lemma CollectedLast(g: GroupRepository, path: string, t: Tree, i: nat, k: nat)
    requires WellRanked(Group(g)) && i < |g.members|
    requires g.members[i].CanRead() && ListOutcome(g.members[i], path, t).Listed?
    requires var entries := ListOutcome(g.members[i], path, t).entries;
      k < |entries| && forall j :: 0 <= j < k ==> entries[j].name != entries[k].name
    requires forall j :: 0 <= j < i ==> !Reports(g, path, t, j, ListOutcome(g.members[i], path, t).entries[k].name)
    ensures var e, c := ListOutcome(g.members[i], path, t).entries[k], Collected(g, path, t, |g.members|);
      e.name in c && c[e.name] == e
  {
    CollectedFirst(g, path, t, i, k);
    CollectedStays(g, path, t, i + 1, |g.members|, ListOutcome(g.members[i], path, t).entries[k].name);
  }

  /** An entry collected under its name is the group's only listed entry
      of that name. */
  lemma ListedFromCollected(g: GroupRepository, path: string, t: Tree, e: FileInfo)
    requires WellRanked(Group(g))
    requires var c := Collected(g, path, t, |g.members|); e.name in c && c[e.name] == e
    ensures var listed := ListOutcome(Group(g), path, t).entries;
      e in listed && forall x :: x in listed && x.name == e.name ==> x == e
  {
    CollectedNames(g, path, t, |g.members|);
    SortedEntriesLookup(Collected(g, path, t, |g.members|), e.name);
  }

  /** The member that first reports a name files its first entry of it. */
  lemma CollectedFirst(g: GroupRepository, path: string, t: Tree, i: nat, k: nat)
    requires WellRanked(Group(g)) && i < |g.members|
    requires g.members[i].CanRead() && ListOutcome(g.members[i], path, t).Listed?
    requires var entries := ListOutcome(g.members[i], path, t).entries;
      k < |entries| && forall j :: 0 <= j < k ==> entries[j].name != entries[k].name
    requires forall j :: 0 <= j < i ==> !Reports(g, path, t, j, ListOutcome(g.members[i], path, t).entries[k].name)
    ensures var e := ListOutcome(g.members[i], path, t).entries[k];
      e.name in Collected(g, path, t, i + 1) && Collected(g, path, t, i + 1)[e.name] == e
  {
    var entries := Reported(g, path, t, i);
    assert entries == ListOutcome(g.members[i], path, t).entries;
    CollectedKeys(g, path, t, i);
    AddNewFirst(Collected(g, path, t, i), entries, k);
  }

  /** In the sorted listing of a map filed by name, the entry of a present
      name appears, and is the only entry with that name. */
  lemma SortedEntriesLookup(m: map<string, FileInfo>, name: string)
    requires forall key :: key in m ==> m[key].name == key
    requires name in m
    ensures m[name] in SortedEntries(m)
    ensures forall x :: x in SortedEntries(m) && x.name == name ==> x == m[name]
  {
    var listed := SortedEntries(m);
    var names := SortedSeq(m.Keys);
    assert name in names;
    var idx :| 0 <= idx < |names| && names[idx] == name;
    assert listed[idx] == m[name];
    forall x | x in listed && x.name == name
      ensures x == m[name]
    {
      var j :| 0 <= j < |listed| && listed[j] == x;
      assert listed[j] == m[names[j]];
    }
  }

  /** Once a name is collected, later members do not replace its entry. */
  lemma {:induction false} CollectedStays(g: GroupRepository, path: string, t: Tree, n: nat, m: nat, name: string)
    requires WellRanked(Group(g)) && n <= m <= |g.members|
    requires name in Collected(g, path, t, n)
    ensures name in Collected(g, path, t, m) && Collected(g, path, t, m)[name] == Collected(g, path, t, n)[name]
    decreases m - n
  {
    if n < m {
      CollectedStays(g, path, t, n, m - 1, name);
      CollectedKeeps(g, path, t, m - 1, name);
    }
  }

  lemma CollectedKeeps(g: GroupRepository, path: string, t: Tree, n: nat, name: string)
    requires WellRanked(Group(g)) && n < |g.members|
    requires name in Collected(g, path, t, n)
    ensures name in Collected(g, path, t, n + 1) && Collected(g, path, t, n + 1)[name] == Collected(g, path, t, n)[name]
  {
  }
}
