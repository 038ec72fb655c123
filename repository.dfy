/** The three repository kinds behind the `Repository` interface
    (pkg/repository/repository.go): hosted (pkg/repository/hosted.go),
    proxy (pkg/repository/proxy.go) and group (pkg/repository/group.go).

    Every repository of a running server shares one `FileSystemStorage`
    (each reaches it through its own `PrefixedStorage`) and one network,
    the `Fetcher`. The functions `GetOutcome`, `PutOutcome` and
    `ListOutcome` say what `Get`, `Put` and `List` answer and what they do
    to the shared file tree and to the record of contacted URLs; the methods
    are proved against them. A group's `rank` exceeds the rank of each of
    its members: the member graph is acyclic, and recursion through groups
    terminates. */
module Repositories {
  import opened Common
  import opened Paths
  import opened Text
  import opened FileTree
  import opened Storage
  import opened Remote

  /** The read permission bit of a mode (`mode&4 == 4`). */
  predicate ReadBit(mode: bv64) {
    mode & 4 == 4
  }

  /** The write permission bit of a mode (`mode&2 == 2`). */
  predicate WriteBit(mode: bv64) {
    mode & 2 == 2
  }

  /** A repository as the rest of the server sees it. */
  datatype Repository =
    | Hosted(hosted: HostedRepository)
    | Proxy(proxy: ProxyRepository)
    | Group(group: GroupRepository)
  {
    function ID(): string {
      match this
      case Hosted(h) => h.id
      case Proxy(p) => p.id
      case Group(g) => g.id
    }

    function Type(): string {
      match this
      case Hosted(h) => h.Type()
      case Proxy(p) => p.Type()
      case Group(g) => g.Type()
    }

    predicate CanRead() {
      match this
      case Hosted(h) => h.CanRead()
      case Proxy(p) => p.CanRead()
      case Group(g) => g.CanRead()
    }

    predicate CanWrite() {
      match this
      case Hosted(h) => h.CanWrite()
      case Proxy(p) => p.CanWrite()
      case Group(g) => g.CanWrite()
    }

    /** 0 for a storage-backed repository; above every member for a group. */
    ghost function Rank(): nat {
      if Group? then group.rank else 0
    }

    method Get(path: string, now: Time, ghost fs: FileSystemStorage, ghost net: Fetcher) returns (reply: Reply)
      requires Valid(this, fs, net) && fs.Valid()
      modifies fs, net
      ensures fs.Valid()
      ensures var o := GetOutcome(this, path, old(fs.tree), now);
        reply == o.reply && fs.tree == o.tree && net.contacted == old(net.contacted) + o.contacted
      decreases Rank(), 1, 0
    {
      match this
      case Hosted(h) =>
        reply := h.Get(path);
      case Proxy(p) =>
        reply := p.Get(path, now);
      case Group(g) =>
        reply := g.Get(path, now, fs, net);
    }

    method Put(path: string, data: Bytes, now: Time, ghost fs: FileSystemStorage, ghost net: Fetcher) returns (o: Outcome)
      requires Valid(this, fs, net) && fs.Valid()
      modifies fs
      ensures fs.Valid()
      ensures PutResult(o, fs.tree) == PutOutcome(this, path, data, old(fs.tree), now)
      decreases Rank(), 1, 0
    {
      match this
      case Hosted(h) =>
        o := h.Put(path, data, now);
      case Proxy(p) =>
        o := p.Put(path, data);
      case Group(g) =>
        o := g.Put(path, data, now, fs, net);
    }

    method List(path: string, ghost fs: FileSystemStorage, ghost net: Fetcher) returns (r: Listing)
      requires Valid(this, fs, net)
      ensures r == ListOutcome(this, path, fs.tree)
      decreases Rank(), 1, 0
    {
      match this
      case Hosted(h) =>
        r := h.List(path);
      case Proxy(p) =>
        r := p.List(path);
      case Group(g) =>
        r := g.List(path, fs, net);
    }
  }

  /** Every group sits above its members. */
  ghost predicate WellRanked(r: Repository)
    decreases r.Rank()
  {
    match r
    case Group(g) =>
      forall i | 0 <= i < |g.members| :: g.members[i].Rank() < g.rank && WellRanked(g.members[i])
    case _ => true
  }

  /** Well ranked, and every storage-backed repository reached from `r`
      uses the base storage `fs` and the network `net`. */
  ghost predicate Valid(r: Repository, fs: FileSystemStorage, net: Fetcher) {
    WellRanked(r) && Shares(r, fs, net)
  }

  ghost predicate Shares(r: Repository, fs: FileSystemStorage, net: Fetcher)
    decreases r.Rank()
  {
    match r
    case Hosted(h) => h.storage.base == fs
    case Proxy(p) => p.storage.base == fs && p.client == net
    case Group(g) =>
      forall i | 0 <= i < |g.members| :: g.members[i].Rank() < g.rank ==> Shares(g.members[i], fs, net)
  }

  // ---------------------------------------------------------------------
  // The variants

  class HostedRepository {
    const id: string
    const mode: bv64
    const storage: PrefixedStorage

    constructor (id: string, mode: bv64, storage: PrefixedStorage)
      ensures this.id == id && this.mode == mode && this.storage == storage
    {
      this.id := id;
      this.mode := mode;
      this.storage := storage;
    }

    function Type(): string {
      "hosted"
    }

    predicate CanRead() {
      ReadBit(mode)
    }

    predicate CanWrite() {
      WriteBit(mode)
    }

    /** The storage's `Read`; the mode is not consulted. */
    method Get(path: string) returns (r: Reply)
      ensures r == FileTree.Read(storage.base.tree, Join(storage.prefix, path))
    {
      r := storage.Read(path);
    }

    /** The storage's `Write`; the mode is not consulted. */
    method Put(path: string, data: Bytes, now: Time) returns (o: Outcome)
      requires storage.base.Valid()
      modifies storage.base
      ensures storage.base.Valid()
      ensures o == WriteOutcome(old(storage.base.tree), Join(storage.prefix, path))
      ensures storage.base.tree == AfterWrite(old(storage.base.tree), Join(storage.prefix, path), data, now)
    {
      o := storage.Write(path, data, now);
    }

    method List(path: string) returns (r: Listing)
      ensures r == FileTree.List(storage.base.tree, Join(storage.prefix, path))
    {
      r := storage.List(path);
    }
  }

  class ProxyRepository {
    const id: string
    const mode: bv64
    /** Whether artifacts fetched from a mirror are kept in storage. */
    const cache: bool
    /** Base URLs, tried in this order. */
    const mirrors: seq<string>
    const storage: PrefixedStorage
    const client: Fetcher

    constructor (id: string, mode: bv64, cache: bool, mirrors: seq<string>, storage: PrefixedStorage, client: Fetcher)
      ensures this.id == id && this.mode == mode && this.cache == cache
      ensures this.mirrors == mirrors && this.storage == storage && this.client == client
    {
      this.id := id;
      this.mode := mode;
      this.cache := cache;
      this.mirrors := mirrors;
      this.storage := storage;
      this.client := client;
    }

    function Type(): string {
      "proxy"
    }

    predicate CanRead() {
      ReadBit(mode)
    }

    /** A proxy is never writable, whatever its mode. */
    predicate CanWrite() {
      false
    }

    /** The local copy if there is one; otherwise the first mirror that
        answers 200, stored locally when caching is on and the path is not
        repository metadata. */
    method Get(path: string, now: Time) returns (r: Reply)
      requires storage.base.Valid()
      modifies storage.base, client
      ensures storage.base.Valid()
      ensures var o := GetOutcome(Proxy(this), path, old(storage.base.tree), now);
        r == o.reply && storage.base.tree == o.tree && client.contacted == old(client.contacted) + o.contacted
    {
      var cached := storage.Read(path);
      if cached.Hit? {
        return cached;
      }
      r := Fetch(path, now);
    }

    /** The walk over the mirrors: the first 200 answer wins. */
    method Fetch(path: string, now: Time) returns (r: Reply)
      requires storage.base.Valid()
      modifies storage.base, client
      ensures storage.base.Valid()
      ensures var o := MirrorScan(this, path, old(storage.base.tree), now, 0);
        r == o.reply && storage.base.tree == o.tree && client.contacted == old(client.contacted) + o.contacted
    {
      ghost var t := storage.base.tree;
      ghost var log := client.contacted;
      ghost var goal := MirrorScan(this, path, t, now, 0);
      for i := 0 to |mirrors|
        invariant storage.base.tree == t
        invariant goal.reply == MirrorScan(this, path, t, now, i).reply
        invariant goal.tree == MirrorScan(this, path, t, now, i).tree
        invariant log + goal.contacted == client.contacted + MirrorScan(this, path, t, now, i).contacted
      {
        var url := mirrors[i] + path;
        var f := client.Get(url);
        if f.Fetched? && f.status == 200 {
          assert MirrorScan(this, path, t, now, i)
              == GetResult(Hit(f.data, f.status, f.headers), CacheFill(this, path, f.data, t, now), [url]);
          Fill(path, f.data, now);
          return Hit(f.data, f.status, f.headers);
        }
      }
      r := Miss(404, NotInAnyMirror);
    }

    /** Stores a fetched artifact when caching is on and the path is not
        metadata; the error of the write is ignored. */
    method Fill(path: string, data: Bytes, now: Time)
      requires storage.base.Valid()
      modifies storage.base
      ensures storage.base.Valid()
      ensures storage.base.tree == CacheFill(this, path, data, old(storage.base.tree), now)
    {
      if cache && !ContainsFolded(path, "maven-metadata.xml") {
        var _ := storage.Write(path, data, now);
      }
    }

    /** Always refused; storage is untouched. */
    method Put(path: string, data: Bytes) returns (o: Outcome)
      ensures o == Failed(ReadOnlyRepository)
    {
      o := Failed(ReadOnlyRepository);
    }

    /** The local cache's listing; the mirrors are not asked. */
    method List(path: string) returns (r: Listing)
      ensures r == FileTree.List(storage.base.tree, Join(storage.prefix, path))
    {
      r := storage.List(path);
    }
  }

  class GroupRepository {
    const id: string
    const mode: bv64
    /** The members, in priority order. */
    const members: seq<Repository>
    /** "snapshot" and "release" name the member ids that take writes. */
    const routes: map<string, string>
    ghost const rank: nat

    constructor (id: string, mode: bv64, members: seq<Repository>, routes: map<string, string>)
      ensures this.id == id && this.mode == mode && this.members == members && this.routes == routes
      ensures forall i | 0 <= i < |members| :: members[i].Rank() < rank
    {
      this.id := id;
      this.mode := mode;
      this.members := members;
      this.routes := routes;
      rank := 1 + MaxRank(members);
    }

    function Type(): string {
      "group"
    }

    predicate CanRead() {
      ReadBit(mode)
    }

    predicate CanWrite() {
      WriteBit(mode)
    }

    /** The id of the member that takes a write of `path`: the "snapshot"
        route when the lower-cased path contains "-snapshot", the "release"
        route otherwise; a missing route is the empty id. */
    function TargetId(path: string): string {
      var route := if ContainsFolded(path, "-snapshot") then "snapshot" else "release";
      if route in routes then routes[route] else ""
    }

    /** `routeToTarget`: the position of the first member whose id is the
        target id. */
    function RouteToTarget(path: string): (r: Option<nat>)
      ensures r.Some? ==> r.value < |members| && members[r.value].ID() == TargetId(path)
      ensures r.Some? ==> forall j :: 0 <= j < r.value ==> members[j].ID() != TargetId(path)
      ensures r.None? <==> forall j :: 0 <= j < |members| ==> members[j].ID() != TargetId(path)
    {
      FirstWithId(members, TargetId(path), 0)
    }

    /** The first readable member whose `Get` succeeds answers; unreadable
        members are skipped without being asked. */
    method Get(path: string, now: Time, ghost fs: FileSystemStorage, ghost net: Fetcher) returns (r: Reply)
      requires Valid(Group(this), fs, net) && fs.Valid()
      modifies fs, net
      ensures fs.Valid()
      ensures var o := GetOutcome(Group(this), path, old(fs.tree), now);
        r == o.reply && fs.tree == o.tree && net.contacted == old(net.contacted) + o.contacted
      decreases rank, 0, 0
    {
      ghost var t := fs.tree;
      ghost var log := net.contacted;
      for i := 0 to |members|
        invariant fs.tree == t && fs.Valid()
        invariant MemberScan(this, path, t, now, 0).reply == MemberScan(this, path, t, now, i).reply
        invariant MemberScan(this, path, t, now, 0).tree == MemberScan(this, path, t, now, i).tree
        invariant log + MemberScan(this, path, t, now, 0).contacted
               == net.contacted + MemberScan(this, path, t, now, i).contacted
      {
        var member := members[i];
        if member.CanRead() {
          r := member.Get(path, now, fs, net);
          if r.Hit? {
            return r;
          }
        }
      }
      r := Miss(404, NotInAnyMember);
    }

    /** Routed to exactly one member, or refused when no member has the
        target id. */
    method Put(path: string, data: Bytes, now: Time, ghost fs: FileSystemStorage, ghost net: Fetcher) returns (o: Outcome)
      requires Valid(Group(this), fs, net) && fs.Valid()
      modifies fs
      ensures fs.Valid()
      ensures PutResult(o, fs.tree) == PutOutcome(Group(this), path, data, old(fs.tree), now)
      decreases rank, 0, 0
    {
      var target := RouteToTarget(path);
      if target.None? {
        return Failed(NoRouteTarget);
      }
      o := members[target.value].Put(path, data, now, fs, net);
    }

    /** The union of the readable members' listings: the first entry seen
        for a name wins, members whose listing fails are skipped, and the
        result is sorted by name. */
    method List(path: string, ghost fs: FileSystemStorage, ghost net: Fetcher) returns (r: Listing)
      requires Valid(Group(this), fs, net)
      ensures r == ListOutcome(Group(this), path, fs.tree)
      decreases rank, 0, 0
    {
      var fileMap: map<string, FileInfo> := map[];
      for i := 0 to |members|
        invariant fileMap == Collected(this, path, fs.tree, i)
      {
        var member := members[i];
        if member.CanRead() {
          var listing := member.List(path, fs, net);
          if listing.Listed? {
            fileMap := MergeNew(fileMap, listing.entries);
          }
        }
      }
      CollectedNames(this, path, fs.tree, |members|);
      var result := SortByName(fileMap);
      r := Listed(result);
    }
  }

  /** Files each entry under its name unless the name is already taken. */
  method MergeNew(fileMap: map<string, FileInfo>, entries: seq<FileInfo>) returns (r: map<string, FileInfo>)
    ensures r == AddNew(fileMap, entries)
  {
    r := fileMap;
    for j := 0 to |entries|
      invariant r == AddNew(fileMap, entries[..j])
    {
      var entry := entries[j];
      ghost var next := entries[..j + 1];
      assert next[..|next| - 1] == entries[..j] && next[|next| - 1] == entry;
      if entry.name !in r {
        r := r[entry.name := entry];
      }
    }
    assert entries[..|entries|] == entries;
  }

  /** The collected entries as a sequence sorted by name. */
  method SortByName(fileMap: map<string, FileInfo>) returns (r: seq<FileInfo>)
    ensures r == SortedEntries(fileMap)
  {
    var names := SortNames(fileMap.Keys);
    r := [];
    for k := 0 to |names|
      invariant |r| == k
      invariant forall j :: 0 <= j < k ==> r[j] == fileMap[names[j]]
    {
      r := r + [fileMap[names[k]]];
    }
  }

  ghost function MaxRank(members: seq<Repository>): (m: nat)
    ensures forall i | 0 <= i < |members| :: members[i].Rank() <= m
  {
    if members == [] then 0
    else
      var rest := MaxRank(members[1..]);
      assert forall i | 1 <= i < |members| :: members[i] == members[1..][i - 1];
      if members[0].Rank() > rest then members[0].Rank() else rest
  }

  /** The first position at or after `from` whose member has id `id`. */
  function FirstWithId(members: seq<Repository>, id: string, from: nat): (r: Option<nat>)
    requires from <= |members|
    ensures r.Some? ==> from <= r.value < |members| && members[r.value].ID() == id
    ensures r.Some? ==> forall j :: from <= j < r.value ==> members[j].ID() != id
    ensures r.None? <==> forall j :: from <= j < |members| ==> members[j].ID() != id
    decreases |members| - from
  {
    if from == |members| then None
    else if members[from].ID() == id then Some(from)
    else FirstWithId(members, id, from + 1)
  }

  // ---------------------------------------------------------------------
  // Get

  /** What a `Get` answers, the file tree after it, and the URLs it
      contacted, in order. */
  datatype GetResult = GetResult(reply: Reply, tree: Tree, contacted: seq<string>)

  /** A miss never changes the tree and always has status 404; a hit has
      status 200. */
  function GetOutcome(r: Repository, path: string, t: Tree, now: Time): (o: GetResult)
    requires WellRanked(r)
    ensures o.reply.Miss? ==> o.reply.status == 404 && o.tree == t
    ensures o.reply.Hit? ==> o.reply.status == 200
    decreases r.Rank(), 1, 0
  {
    match r
    case Hosted(h) =>
      GetResult(FileTree.Read(t, Join(h.storage.prefix, path)), t, [])
    case Proxy(p) =>
      var cached := FileTree.Read(t, Join(p.storage.prefix, path));
      if cached.Hit? then GetResult(cached, t, [])
      else MirrorScan(p, path, t, now, 0)
    case Group(g) =>
      MemberScan(g, path, t, now, 0)
  }

  /** A proxy's walk over its mirrors from position `i` on. */
  function MirrorScan(p: ProxyRepository, path: string, t: Tree, now: Time, i: nat): (o: GetResult)
    requires i <= |p.mirrors|
    ensures o.reply.Miss? ==> o.reply == Miss(404, NotInAnyMirror) && o.tree == t
    ensures o.reply.Hit? ==> o.reply.status == 200
    decreases |p.mirrors| - i
  {
    if i == |p.mirrors| then GetResult(Miss(404, NotInAnyMirror), t, [])
    else
      var url := p.mirrors[i] + path;
      var f := p.client.answer(url);
      if f.Fetched? && f.status == 200 then
        GetResult(Hit(f.data, f.status, f.headers), CacheFill(p, path, f.data, t, now), [url])
      else
        var rest := MirrorScan(p, path, t, now, i + 1);
        rest.(contacted := [url] + rest.contacted)
  }

  /** Caching a fetched artifact: the tree after the (error-ignoring) write,
      or the tree unchanged when caching is off or the path is metadata. */
  function CacheFill(p: ProxyRepository, path: string, data: Bytes, t: Tree, now: Time): Tree {
    if p.cache && !ContainsFolded(path, "maven-metadata.xml") then
      AfterWrite(t, Join(p.storage.prefix, path), data, now)
    else t
  }

  /** A group's walk over its members from position `i` on. */
  function MemberScan(g: GroupRepository, path: string, t: Tree, now: Time, i: nat): (o: GetResult)
    requires WellRanked(Group(g)) && i <= |g.members|
    ensures o.reply.Miss? ==> o.reply.status == 404 && o.tree == t
    ensures o.reply.Hit? ==> o.reply.status == 200
    decreases g.rank, 0, |g.members| - i
  {
    if i == |g.members| then GetResult(Miss(404, NotInAnyMember), t, [])
    else
      var member := g.members[i];
      if !member.CanRead() then MemberScan(g, path, t, now, i + 1)
      else
        var o := GetOutcome(member, path, t, now);
        if o.reply.Hit? then o
        else
          var rest := MemberScan(g, path, t, now, i + 1);
          rest.(contacted := o.contacted + rest.contacted)
  }

  // ---------------------------------------------------------------------
  // Put

  datatype PutResult = PutResult(outcome: Outcome, tree: Tree)

  /** What a `Put` answers and the tree after it. A failed put changes
      nothing, and the tree stays well formed. */
  function PutOutcome(r: Repository, path: string, data: Bytes, t: Tree, now: Time): (o: PutResult)
    requires WellRanked(r) && Wf(t)
    ensures Wf(o.tree)
    ensures o.outcome.Failed? ==> o.tree == t
    decreases r.Rank(), 1, 0
  {
    match r
    case Hosted(h) =>
      var full := Join(h.storage.prefix, path);
      WriteKeepsWf(t, full, data, now);
      if WriteOutcome(t, full).Failed? then
        WriteFailureKeepsTree(t, full, data, now);
        PutResult(WriteOutcome(t, full), AfterWrite(t, full, data, now))
      else
        PutResult(WriteOutcome(t, full), AfterWrite(t, full, data, now))
    case Proxy(_) =>
      PutResult(Failed(ReadOnlyRepository), t)
    case Group(g) =>
      match g.RouteToTarget(path)
      case None => PutResult(Failed(NoRouteTarget), t)
      case Some(i) => PutOutcome(g.members[i], path, data, t, now)
  }

  // ---------------------------------------------------------------------
  // List

  /** Adds each entry whose name is not yet present, in order. */
  function AddNew(m: map<string, FileInfo>, entries: seq<FileInfo>): (r: map<string, FileInfo>)
    ensures forall n :: n in m ==> n in r && r[n] == m[n]
    decreases |entries|
  {
    if entries == [] then m
    else
      var prev := entries[..|entries| - 1];
      var last := entries[|entries| - 1];
      var acc := AddNew(m, prev);
      if last.name in acc then acc else acc[last.name := last]
  }

  /** The names present after `AddNew` are the old ones and the entries'. */
  lemma {:induction false} AddNewKeys(m: map<string, FileInfo>, entries: seq<FileInfo>)
    ensures forall n :: n in AddNew(m, entries) <==> n in m || n in Names(entries)
    decreases |entries|
  {
    if entries != [] {
      var prev := entries[..|entries| - 1];
      AddNewKeys(m, prev);
      assert Names(entries) == Names(prev) + [entries[|entries| - 1].name];
    }
  }

  /** The entries gathered from the first `n` members of a group. */
  ghost function Collected(g: GroupRepository, path: string, t: Tree, n: nat): map<string, FileInfo>
    requires WellRanked(Group(g)) && n <= |g.members|
    decreases g.rank, 0, n
  {
    if n == 0 then map[]
    else
      AddNew(Collected(g, path, t, n - 1), Reported(g, path, t, n - 1))
  }

  /** The entries member `i` contributes: its listing when it is readable and
      the listing succeeds, nothing otherwise. */
  ghost function Reported(g: GroupRepository, path: string, t: Tree, i: nat): seq<FileInfo>
    requires WellRanked(Group(g)) && i < |g.members|
    decreases g.rank, 0, 0
  {
    var member := g.members[i];
    if !member.CanRead() then []
    else
      match ListOutcome(member, path, t)
      case ListFailed(_) => []
      case Listed(entries) => entries
  }

  /** The values of a map keyed by name, in ascending name order. */
  ghost function SortedEntries(m: map<string, FileInfo>): (r: seq<FileInfo>)
    ensures |r| == |m|
  {
    var names := SortedSeq(m.Keys);
    seq(|names|, k requires 0 <= k < |names| => m[names[k]])
  }

  /** What a `List` answers. A group's listing never fails. */
  ghost function ListOutcome(r: Repository, path: string, t: Tree): (l: Listing)
    requires WellRanked(r)
    ensures r.Group? ==> l.Listed?
    decreases r.Rank(), 1, 0
  {
    match r
    case Hosted(h) => FileTree.List(t, Join(h.storage.prefix, path))
    case Proxy(p) => FileTree.List(t, Join(p.storage.prefix, path))
    case Group(g) => Listed(SortedEntries(Collected(g, path, t, |g.members|)))
  }

  /** Every collected entry is filed under its own name. */
  lemma {:induction false} CollectedNames(g: GroupRepository, path: string, t: Tree, n: nat)
    requires WellRanked(Group(g)) && n <= |g.members|
    ensures forall name :: name in Collected(g, path, t, n) ==> Collected(g, path, t, n)[name].name == name
    decreases n
  {
    if n > 0 {
      CollectedNames(g, path, t, n - 1);
      AddNewNames(Collected(g, path, t, n - 1), Reported(g, path, t, n - 1));
    }
  }

  lemma {:induction false} AddNewNames(m: map<string, FileInfo>, entries: seq<FileInfo>)
    requires forall name :: name in m ==> m[name].name == name
    ensures forall name :: name in AddNew(m, entries) ==> AddNew(m, entries)[name].name == name
    decreases |entries|
  {
    if entries != [] {
      AddNewNames(m, entries[..|entries| - 1]);
    }
  }
}
