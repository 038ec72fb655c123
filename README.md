# maven-proxy in Dafny

This project is a Dafny model of the artifact-resolution core of maven-proxy, a Maven repository server written in Go. It covers:

- **Storage.** A `FileSystemStorage` over a file tree held in memory (`filetree.dfy`, `storage.dfy`). The `PrefixedStorage` wrapper rewrites every path to `Join(prefix, path)`. `getContentType` maps an extension to a MIME type.
- **The three repository kinds** behind the `Repository` interface (`repository.dfy`, `repository_facts.dfy`):
  - **hosted** forwards to its storage;
  - **proxy** serves its local cache first. It then tries its mirrors in order and may cache what it fetched;
  - **group** reads from the first readable member that has the path. It routes writes by a snapshot/release rule and merges its members' listings.
- **The start-up build** of the repository registry, in two passes (`build.dfy`).
- **The configuration pre-pass** `validateRepositories` (`config.dfy`).
- **HTTP basic authentication** (`auth.dfy`). It uses the UTF-8 and base 64 encodings (`encoding.dfy`).

The model is arranged as follows:

- All repositories share one `FileSystemStorage` object and one `Fetcher` (the network: a fixed answer per URL, plus a record of every URL requested).
- The functions `GetOutcome`, `PutOutcome` and `ListOutcome` say three things: what a repository answers, what the shared tree is afterwards, and which URLs were contacted, in order. The methods are proved against them, and the lemmas of `RepositoryFacts` state the promised behaviour about those functions.
- Each group carries a ghost `rank` above its members' ranks. The build produces only well-ranked registries, so the member graph is acyclic and recursion through groups terminates.

Paths follow `path/filepath` on Unix for relative paths:

- a path is split at slashes;
- empty and "." segments vanish;
- ".." removes the previous segment, or stays when it leads.

Rooted paths are treated as relative ones (see "## Left out").

Storage files a path under its cleaned segments. Strings are sequences of Unicode code points; a Go string that holds valid UTF-8 corresponds to one of them.

## Model

| member | source | states |
|---|---|---|
| Text.ToLower | pkg/repository/group.go:103 | Same length; no ASCII capital is left; a capital becomes its lower-case letter and every other character is unchanged |
| Text.ToLowerIdempotent | pkg/repository/group.go:103 | Lowering twice is lowering once |
| Text.ToLowerSlice | pkg/repository/group.go:103 | Lowering a slice is slicing the lowered string |
| Text.FoldedInfix | pkg/repository/group.go:103 | A piece whose lower-case form is the needle is found by the folded containment test wherever it sits in the path |
| Text.FoldedMissingStart | pkg/repository/group.go:103 | A needle whose first character is not a lower-case letter, and does not occur in the path, is never found |
| Text.FoldedAt | pkg/repository/group.go:103 | The folded containment test succeeds exactly when some slice of the path, lowered, is the needle |
| Text.TrimLeft | pkg/auth/auth.go:47 | The result is a suffix of the input, does not start with white space, and everything dropped before it is white space |
| Text.TrimRight | pkg/auth/auth.go:47 | The result is a prefix of the input, does not end with white space, and everything dropped after it is white space |
| Text.TrimSpaceKeeps | pkg/auth/auth.go:47 | Trimming a string without white space returns it unchanged |
| Text.BelowIrreflexive | pkg/repository/group.go:96-98 | Go's `<` on names is irreflexive |
| Text.BelowTransitive | pkg/repository/group.go:96-98 | Go's `<` on names is transitive |
| Text.BelowTotal | pkg/repository/group.go:96-98 | Two different names are ordered one way or the other |
| Text.MinimumExists | pkg/repository/group.go:96-98 | Every non-empty set of names has a least element |
| Text.SortedSeq | pkg/repository/group.go:91-98 | Strictly ascending, the same elements as the set, and as many |
| Text.AscendingUnique | pkg/repository/group.go:96-98 | Two strictly ascending sequences with the same elements are equal, so the sorted order is unique |
| Text.SortNames | pkg/repository/group.go:91-98 | The loop returns the names of the set in ascending order |
| Paths.Split | pkg/storage/filesystem.go:20 | At least one segment, and no segment holds a slash |
| Paths.Ext | pkg/storage/filesystem.go:75 | A suffix of the path that is empty or starts with the last '.', with no further '.' or '/' |
| Paths.ResolveAppend | pkg/storage/filesystem.go:20 | Cleaning works left to right: cleaning `x + y` is cleaning `y` after `x` |
| Paths.ResolveIsClean | pkg/storage/filesystem.go:20 | Cleaned segments are clean: no empty or "." segment, and ".." only at the front |
| Paths.ResolveOfClean | pkg/storage/filesystem.go:20 | Cleaning an already clean remainder only appends it |
| Paths.SplitPlain | pkg/storage/filesystem.go:20 | A name without a slash is one segment |
| Paths.SplitCons | pkg/storage/filesystem.go:20 | Splitting `c/x` gives `c` followed by the segments of `x` |
| Paths.SplitRender | pkg/storage/filesystem.go:20 | Splitting the rendering of segments gives the segments back |
| Paths.KeyOfJoin | pkg/storage/prefixed.go:24 | The key of `Join(a, b)` is `b`'s segments cleaned after the key of `a` |
| Paths.ResolveExtends | pkg/storage/prefixed.go:29 | Without "..", cleaning only extends the key it starts from |
| Paths.JoinStaysUnder | pkg/storage/prefixed.go:29 | A path without ".." joined under a prefix lands under the prefix's key |
| Paths.ExtOfSuffix | pkg/storage/filesystem.go:75 | A name ending in a dotted extension without further dots or slashes has that extension |
| FileTree.ChildrenAreKeys | pkg/storage/filesystem.go:48 | A name is a child of a directory exactly when the directory's key plus the name is stored |
| FileTree.List | pkg/storage/filesystem.go:44-65 | Listed exactly when the path is a directory. Entries are in strictly ascending name order. The names are exactly the children, and each entry carries its child's size, time and directory flag |
| FileTree.WriteThenRead | pkg/storage/filesystem.go:19-42 | After a successful write, reading the same key gives the data, status 200 and the path's content type |
| FileTree.WriteFrame | pkg/storage/filesystem.go:33-42 | A write leaves every key that is neither the written key nor one of its ancestors exactly as it was |
| FileTree.WriteFailureKeepsTree | pkg/storage/filesystem.go:37-41 | A write that fails (a file on the way, or a directory at the key) changes nothing |
| FileTree.WriteCreatesAncestors | pkg/storage/filesystem.go:37 | After a successful write every ancestor of the path is a directory and the path is a file |
| FileTree.WriteKeepsWf | pkg/storage/filesystem.go:33-42 | A write keeps every proper prefix of a stored key a directory |
| FileTree.ArchiveContentType | pkg/storage/filesystem.go:77-78 | ".jar" gives `application/java-archive` |
| FileTree.XmlContentType | pkg/storage/filesystem.go:79-82 | ".pom" and ".xml" give `application/xml` |
| FileTree.ChecksumContentType | pkg/storage/filesystem.go:83-84 | ".sha1", ".md5", ".sha256" and ".sha512" give `text/plain` |
| FileTree.ChecksumExt | pkg/storage/filesystem.go:83-84 | Any path whose extension is a checksum extension gives `text/plain` |
| FileTree.NoExtension | pkg/storage/filesystem.go:75 | A last element without a dot has no extension |
| FileTree.ContentTypeWithoutExtension | pkg/storage/filesystem.go:85-86 | A last element without a dot gives `application/octet-stream` |
| Storage.FileSystemStorage.constructor | pkg/storage/filesystem.go:15-17 | A storage over the given base path and the tree already on disk |
| Storage.FileSystemStorage.Read | pkg/storage/filesystem.go:19-31 | A hit exactly when the key is a file: its bytes, status 200, `Content-Type` from the path. Otherwise status 404 |
| Storage.FileSystemStorage.Write | pkg/storage/filesystem.go:33-42 | The outcome and the new tree are `WriteOutcome` and `AfterWrite` of the old tree; the tree stays well formed |
| Storage.FileSystemStorage.List | pkg/storage/filesystem.go:44-65 | The loop's entries are `FileTree.List` of the tree |
| Storage.FileSystemStorage.Exists | pkg/storage/filesystem.go:67-71 | True exactly when the key is stored, as a file or a directory |
| Storage.PrefixedStorage.Read | pkg/storage/prefixed.go:23-26 | The base's `Read` of `Join(prefix, path)` |
| Storage.PrefixedStorage.Write | pkg/storage/prefixed.go:28-31 | The base's `Write` of `Join(prefix, path)`: same outcome, same new tree |
| Storage.PrefixedStorage.List | pkg/storage/prefixed.go:33-36 | The base's `List` of `Join(prefix, path)` |
| Storage.PrefixedStorage.Exists | pkg/storage/prefixed.go:38-41 | The base's `Exists` of `Join(prefix, path)` |
| Storage.PrefixedRoundTrip | pkg/storage/prefixed.go:23-31 | Writing through a prefix and reading back through it returns the data with status 200 |
| Storage.WriteKeepsFiles | pkg/storage/filesystem.go:33-42 | Apart from the written key a write creates only directories, and keeps every existing entry |
| Storage.PrefixedWriteStaysUnder | pkg/storage/prefixed.go:28-31 | For a path without "..", a prefixed write keeps every entry outside the prefix |
| Storage.PrefixIsolation | pkg/storage/prefixed.go:23-41 | Under two prefixes apart from each other, a write through one changes nothing the other reads, lists or tests |
| Remote.Fetcher.Get | pkg/repository/proxy.go:70 | The URL's answer, and the URL is appended to the record of contacted URLs |
| Repositories.Repository.Get | pkg/repository/repository.go:25 | Dispatch; the reply, new tree and contacted URLs are `GetOutcome`'s |
| Repositories.Repository.Put | pkg/repository/repository.go:28 | Dispatch; the outcome and new tree are `PutOutcome`'s |
| Repositories.Repository.List | pkg/repository/repository.go:31 | Dispatch; the listing is `ListOutcome`'s |
| Repositories.HostedRepository.Get | pkg/repository/hosted.go:40-42 | Exactly the storage's `Read` of the path under the prefix; the mode is not consulted |
| Repositories.HostedRepository.Put | pkg/repository/hosted.go:44-46 | Exactly the storage's `Write`; the mode is not consulted |
| Repositories.HostedRepository.List | pkg/repository/hosted.go:48-50 | Exactly the storage's `List` |
| Repositories.ProxyRepository.Get | pkg/repository/proxy.go:61-86 | The loop's reply, tree and contacted URLs are `GetOutcome` of the proxy |
| Repositories.ProxyRepository.Fetch | pkg/repository/proxy.go:67-85 | The mirror loop's reply, tree and contacted URLs are `MirrorScan` from the first mirror |
| Repositories.ProxyRepository.Fill | pkg/repository/proxy.go:77-79 | The tree is written only when caching is on and the path does not name metadata; the write's error is ignored |
| Repositories.ProxyRepository.Put | pkg/repository/proxy.go:88-90 | Always the read-only error, and the method modifies nothing |
| Repositories.ProxyRepository.List | pkg/repository/proxy.go:92-95 | The local cache's listing; no mirror is asked |
| Repositories.GroupRepository.constructor | pkg/repository/group.go:20-27 | Keeps id, mode, members and routes; the group ranks above every member |
| Repositories.GroupRepository.RouteToTarget | pkg/repository/group.go:102-119 | The first member whose id is the target id, or none exactly when no member has that id |
| Repositories.GroupRepository.Get | pkg/repository/group.go:45-58 | The loop's reply, tree and contacted URLs are `GetOutcome` of the group |
| Repositories.GroupRepository.Put | pkg/repository/group.go:60-68 | The outcome and new tree are `PutOutcome` of the group |
| Repositories.GroupRepository.List | pkg/repository/group.go:70-100 | The loop's listing is `ListOutcome` of the group |
| Repositories.MergeNew | pkg/repository/group.go:84-88 | The loop files entries as `AddNew` does: first name wins |
| Repositories.SortByName | pkg/repository/group.go:91-98 | The collected entries in ascending name order |
| Repositories.FirstWithId | pkg/repository/group.go:112-118 | The first position from `from` with the id, or none exactly when there is none |
| Repositories.GetOutcome | pkg/repository/repository.go:25 | A miss has status 404 and leaves the tree unchanged; a hit has status 200 |
| Repositories.MirrorScan | pkg/repository/proxy.go:67-85 | A miss is the "not in any mirror" 404 and leaves the tree unchanged; a hit has status 200 |
| Repositories.MemberScan | pkg/repository/group.go:47-57 | A miss has status 404 and leaves the tree unchanged; a hit has status 200 |
| Repositories.PutOutcome | pkg/repository/repository.go:28 | The tree stays well formed, and a failed put leaves it unchanged |
| Repositories.AddNew | pkg/repository/group.go:84-88 | Names already present keep their entries |
| Repositories.AddNewKeys | pkg/repository/group.go:84-88 | The names present afterwards are the earlier names and the entries' names |
| Repositories.CollectedNames | pkg/repository/group.go:84-88 | Every collected entry is filed under its own name |
| Repositories.ListOutcome | pkg/repository/group.go:99 | A group's listing never fails |
| RepositoryFacts.ReadBitIndependent | pkg/repository/group.go:37-43 | Setting or clearing bit 4 decides readability and leaves writability alone |
| RepositoryFacts.WriteBitIndependent | pkg/repository/group.go:37-43 | Setting or clearing bit 2 decides writability and leaves readability alone |
| RepositoryFacts.KindsAndPermissions | pkg/repository/hosted.go:28-38 | Each kind reports its own type name. Hosted and group repositories are readable iff `mode&4 == 4` and writable iff `mode&2 == 2`. A proxy is readable iff `mode&4 == 4` and never writable |
| RepositoryFacts.HostedRoundTrip | pkg/repository/hosted.go:40-46 | After a successful hosted put, a hosted get of the path returns the data with status 200, whatever the mode |
| RepositoryFacts.Urls | pkg/repository/proxy.go:68 | The URLs are `mirror + path`, in mirror order |
| RepositoryFacts.ProxyCacheHit | pkg/repository/proxy.go:63-65 | A cached copy is returned, the tree is unchanged and no URL is contacted |
| RepositoryFacts.MirrorScanFirst | pkg/repository/proxy.go:67-83 | The scan returns the first serving mirror's answer, having contacted exactly the mirrors up to it |
| RepositoryFacts.ProxyMirrorFallback | pkg/repository/proxy.go:61-83 | On a cache miss the first mirror that answers 200 is returned, and no later mirror is contacted |
| RepositoryFacts.MirrorScanNone | pkg/repository/proxy.go:67-85 | With no serving mirror the scan misses with 404 after contacting every mirror |
| RepositoryFacts.ProxyAllMirrorsFail | pkg/repository/proxy.go:61-85 | A cache miss with no mirror answering 200 is a 404, contacts every mirror in order, and leaves storage unchanged |
| RepositoryFacts.MirrorScanKeepsTree | pkg/repository/proxy.go:77-79 | Without caching, or for metadata, the scan never changes the tree |
| RepositoryFacts.ProxyStorageUntouched | pkg/repository/proxy.go:77-79 | A proxy with caching off, or a metadata request, leaves storage unchanged |
| RepositoryFacts.MetadataNeverCached | pkg/repository/proxy.go:77 | A path holding "maven-metadata.xml" in any letter case is never cached |
| RepositoryFacts.ProxyServesFromCacheAfterFetch | pkg/repository/proxy.go:61-80 | After a cached fetch, the next get of the path is served from storage with the fetched bytes and contacts nothing |
| RepositoryFacts.MemberScanPass | pkg/repository/group.go:47-55 | A member that is unreadable or misses passes the scan on, adding the URLs it contacted |
| RepositoryFacts.MemberScanFirst | pkg/repository/group.go:47-55 | The scan answers with the first readable member that has the path, having asked only readable members before it |
| RepositoryFacts.GroupGetFirstHit | pkg/repository/group.go:45-55 | A group answers what its first readable member with the path answers, and the tree and URLs are as that member's get leaves them |
| RepositoryFacts.MemberScanMiss | pkg/repository/group.go:47-57 | The scan misses exactly when no readable member from there on has the path |
| RepositoryFacts.GroupGetMiss | pkg/repository/group.go:45-58 | A group misses with 404 exactly when no readable member has the path, including when none is readable |
| RepositoryFacts.SnapshotRoute | pkg/repository/group.go:103-107 | A path holding "-snapshot" in any letter case targets `routes["snapshot"]`, or "" when that route is missing |
| RepositoryFacts.ReleaseRoute | pkg/repository/group.go:103-110 | A path with no slice that lowers to "-snapshot" targets `routes["release"]`, or "" when that route is missing; with `SnapshotRoute` every path is covered |
| RepositoryFacts.HyphenFreeIsRelease | pkg/repository/group.go:103 | A path without '-' has no slice that lowers to "-snapshot" |
| RepositoryFacts.GroupPutDelegates | pkg/repository/group.go:60-67 | A group put is exactly the put of the first member whose id is the target |
| RepositoryFacts.GroupPutNoTarget | pkg/repository/group.go:62-65 | With no member carrying the target id the put fails and storage is unchanged |
| RepositoryFacts.GroupWriteRouting | pkg/repository/group.go:60-67 | With release and snapshot members, a path holding a folded "-snapshot" goes to the snapshot member and every other path to the release member; without a release route every other path is refused unless a member has the empty id |
| RepositoryFacts.ReportedNames | pkg/repository/group.go:74-88 | A member contributes a name exactly when it is readable, lists the path and reports the name |
| RepositoryFacts.CollectedStep | pkg/repository/group.go:74-88 | One more member adds exactly the names it reports |
| RepositoryFacts.CollectedKeys | pkg/repository/group.go:74-88 | A name is collected exactly when some readable member so far reports it |
| RepositoryFacts.AddNewFirst | pkg/repository/group.go:84-88 | An entry whose name is new and earlier unseen is the one filed |
| RepositoryFacts.GroupListUnion | pkg/repository/group.go:70-100 | A group's listing never fails. Its names are strictly ascending, so distinct. Every listed name is reported by a readable member, and every such name is listed |
| RepositoryFacts.GroupListFirstWins | pkg/repository/group.go:74-88 | For a name several readable members report, the listing carries the entry of the earliest one |
| RepositoryFacts.CollectedLast | pkg/repository/group.go:74-88 | The entry a member files first is still filed after the last member |
| RepositoryFacts.ListedFromCollected | pkg/repository/group.go:91-98 | A collected entry is the only listed entry with its name |
| RepositoryFacts.CollectedFirst | pkg/repository/group.go:74-88 | The first member reporting a name files its first entry of that name |
| RepositoryFacts.SortedEntriesLookup | pkg/repository/group.go:91-98 | In the sorted listing of a map filed by name, a present name's entry appears and is the only one with that name |
| RepositoryFacts.CollectedStays | pkg/repository/group.go:84-88 | Once a name is collected, later members never replace its entry |
| RepositoryFacts.CollectedKeeps | pkg/repository/group.go:84-88 | One further member never replaces a collected entry |
| Config.KnownIds | pkg/config/loader.go:97-105 | Never longer than the listed ids |
| Config.ValidateRepositories | pkg/config/loader.go:65-115 | Returns no error. Every enabled entry with an empty target gets its id as target, and every other target is unchanged. Every group with members keeps, in order, the member ids indexed by the first pass; every other member list is unchanged |
| Config.IndexRepositories | pkg/config/loader.go:69-92 | The index holds exactly the ids of enabled entries other than member-less groups; targets are defaulted |
| Config.CheckGroups | pkg/config/loader.go:95-112 | Each group with members, whatever its mode, is filtered against the index, even when the same entry is listed twice; targets are unchanged |
| Config.KnownMembers | pkg/config/loader.go:97-105 | The loop keeps the ids the index holds, in order |
| Config.KnownIdsMembers | pkg/config/loader.go:97-105 | An id survives exactly when it was listed and is known |
| Config.KnownIdsAppend | pkg/config/loader.go:97-105 | Filtering keeps order: the survivors of `a + b` are those of `a` followed by those of `b` |
| Config.KnownIdsAllKnown | pkg/config/loader.go:97-105 | A list of known ids passes unchanged |
| Config.KnownIdsIdempotent | pkg/config/loader.go:95-106 | Filtering twice against the same index equals filtering once |
| Config.IndexedIdsExactly | pkg/config/loader.go:69-92 | An id is indexed exactly when an enabled entry with it, other than a member-less group, comes earlier |
| Build.FirstPass | cmd/maven-proxy/main.go:35-65 | Each registered id comes from an earlier entry with that id that is enabled and of type "hosted", "" or "proxy" |
| Build.SecondPass | cmd/maven-proxy/main.go:68-98 | Each registered id comes from an enabled entry with that id; a disabled entry never enters the registry |
| Build.RegistryAdd | cmd/maven-proxy/main.go:49 | Registering a repository built from an entry, under its id, keeps the registry invariant |
| Build.BuildRepositories | cmd/maven-proxy/main.go:32-98 | The registry is `SecondPass`. Each id maps to a repository built from the chosen entry: same kind, id and mode; storage under the entry's target; the shared network. A group's members are the ids resolved when it was reached, each the repository registered for that id at that moment, built from that entry in turn. Every repository is well ranked, so the member graph is acyclic |
| Build.BuildLeaves | cmd/maven-proxy/main.go:35-65 | The first-pass registry is `FirstPass`, built from hosted and proxy entries |
| Build.BuildGroups | cmd/maven-proxy/main.go:68-98 | The second pass adds the groups with at least one resolved member, each over the repositories registered for its member ids when it was reached |
| Build.AddGroup | cmd/maven-proxy/main.go:84-96 | Registering the group built from an entry over members taken from the registry moves the registry invariant one entry on |
| Build.MembersBuilt | cmd/maven-proxy/main.go:74-82 | Repositories taken from the registry at an entry are each built from the entry registered for their id; a group among them from an earlier entry |
| Build.SkipEntry | cmd/maven-proxy/main.go:68-98 | An entry the second pass does not register leaves the registry invariant in place |
| Build.GroupValid | cmd/maven-proxy/main.go:89-96 | A group over valid members ranked below it is valid |
| Build.CollectMembers | cmd/maven-proxy/main.go:74-82 | The configured ids present in the registry, in configured order, each exactly the repository registered for its id, and valid |
| Build.FirstPassLastWins | cmd/maven-proxy/main.go:35-65 | After pass 1 an id is registered exactly when an enabled hosted or proxy entry carries it, and the last such entry wins |
| Build.SecondPassGrows | cmd/maven-proxy/main.go:68-98 | The second pass only adds ids |
| Build.SecondPassLaterWins | cmd/maven-proxy/main.go:96 | A registered group entry is replaced only by a later entry with the same id |
| Build.SecondPassGroupsRegister | cmd/maven-proxy/main.go:84-96 | A group in the final registry is enabled and had at least one member registered when the pass reached it |
| Encoding.Utf8Char | pkg/auth/auth.go:32 | One to four bytes, one byte exactly for ASCII |
| Encoding.Utf8Append | pkg/auth/auth.go:32 | Encoding a concatenation concatenates the encodings |
| Encoding.Utf8Ascii | pkg/auth/auth.go:32 | An ASCII string is encoded as its character codes |
| Encoding.Sextet | pkg/auth/auth.go:32 | Alphabet characters read as values below 64 |
| Encoding.Base64 | pkg/auth/auth.go:32 | Four characters for every started group of three bytes |
| Encoding.SextetOfDigit | pkg/auth/auth.go:32 | Each character of the standard alphabet reads back as its value and is never the padding '=' |
| Encoding.QuadDecodes | pkg/auth/auth.go:32 | The four characters of three bytes read back as those bytes |
| Encoding.Base64One | pkg/auth/auth.go:32 | A final single byte comes back from its "==" group |
| Encoding.Base64Two | pkg/auth/auth.go:32 | A final pair of bytes comes back from its "=" group |
| Encoding.UnbaseGroup | pkg/auth/auth.go:32 | A full group in front of more text decodes to its bytes in front of the rest |
| Encoding.Base64Step | pkg/auth/auth.go:32 | Three bytes and more decode group by group |
| Encoding.GroupDecodes | pkg/auth/auth.go:32 | The first group and the rest decode to the first three bytes and the rest |
| Encoding.Base64RoundTrip | pkg/auth/auth.go:32 | Decoding the encoding of any bytes gives them back |
| Encoding.Base64Injective | pkg/auth/auth.go:32 | Different bytes never share an encoding |
| Encoding.Base64Printable | pkg/auth/auth.go:32 | Every character of encoded text lies between '+' and 'z' |
| Encoding.Base64NoSpace | pkg/auth/auth.go:32 | Encoded text holds no white space |
| Auth.CredentialsAppend | pkg/auth/auth.go:30-34 | One more user adds exactly their credential |
| Auth.BasicAuthenticator.constructor | pkg/auth/auth.go:24-37 | The store's keys are exactly the users' `base64(name:password)` texts, each mapped to true |
| Auth.BasicAuthenticator.Authenticate | pkg/auth/auth.go:40-51 | True exactly when the header starts with "Basic " and its trimmed remainder is stored as true; the store is not modified |
| Auth.AcceptedByUsers | pkg/auth/auth.go:24-51 | Over a constructed store, a header is accepted exactly when it has the prefix and its trimmed remainder is some user's credential |
| Auth.UserAccepted | pkg/auth/auth.go:24-51 | "Basic " followed by a configured user's credential is accepted |
| Auth.NoUsersNoAccess | pkg/auth/auth.go:24-51 | With no users, every header is rejected |
| Auth.OtherSchemeRefused | pkg/auth/auth.go:42-44 | A header not starting with exactly "Basic " is rejected |
| Auth.CredentialsDistinct | pkg/auth/auth.go:32-33 | Two users share a credential only when their "name:password" bytes are equal |

## Left out

- Logging (logrus and `log.Printf`) is left out. It has no effect on results.
- The HTTP layer is not part of this model: internal/server/handlers.go, internal/server/server.go, and the middleware in pkg/auth/middleware.go. It is glue that translates results into responses.
- pkg/client/client.go is not part of this model. A proxy's client becomes a `Fetcher`: a fixed answer per URL, plus a record of the URLs requested. A transport error and a body that cannot be read are both the one `FetchError`.
- Each proxy builds its own HTTP client; the model gives all proxies one shared `Fetcher`. Only the order of contacted URLs across the whole server is recorded.
- internal/util/hash.go and internal/util/file.go are not part of this model. They hold digests and real file-system calls.
- `Load` in pkg/config/loader.go is left out: file reading, YAML decoding, defaults and flags. The model starts from decoded entries.
- Concurrency is left out. The source has no locks, and every operation is modelled as running alone.
- Modification times are opaque values passed in as `now`. Parent directories' times are not updated by a write.
- The size of a directory entry is 0; the operating system's value is left out.
- Paths are not checked for traversal, because the source does not check them. A ".." can climb out of a prefix, and `PrefixIsolation` states its guarantee only for paths without "..".
- Paths.Join and Paths.KeyOf treat a rooted path as a relative one. Go's `filepath.Join` keeps the leading '/' and drops a ".." at the root, so `filepath.Join("/releases", "../../x")` is "/x", which the storage files under `x`. The model files it under `["..", "x"]`.
- Keys that climb above the base directory are modelled as their own namespace. On disk, `["..", <base name>]` is the base directory itself; the model keeps it apart.
- Text.ToLower lowers ASCII letters only. Go's `strings.ToLower` also lowers other letters. The result is the same for the two needles the program looks for ("-snapshot", "maven-metadata.xml"): the only non-ASCII code points Go lowers to ASCII are U+0130 and U+212A, which lower to 'i' and 'k', and neither needle contains those letters.
- Go strings may hold invalid UTF-8. The model's strings are sequences of code points, and `[]byte(s)` is their UTF-8 encoding.
- Go's `a < b` on strings compares UTF-8 bytes. `Text.Below` compares code points, which orders valid UTF-8 the same way.
- Repositories.ListOutcome: a group's listing is modelled as the collected entries sorted by name. Go iterates the map in random order and then sorts by name; the names are distinct, so the result is the same.
- Repositories.ProxyRepository.Fill: the error of the cache write is dropped, as in the source. The tree after a failed write is the tree before it.
- A hosted repository's `Get`, `Put` and `List` do not consult its mode, as in the source. Permission checks live in the HTTP layer, which is left out.
- Group recursion needs no cycle detection. The build only ever makes groups over repositories that already exist, which the ghost `rank` records.
- A route key that is missing yields the empty id, as in the source. A member with the empty id then takes the write.
- Nil user or repository pointers in a decoded configuration are left out. The model's sequences hold values only.
- The build reads each configuration entry through `Snapshot`. The build never writes to an entry, so this loses nothing.
- The `Name` field of a repository entry is left out. The core never reads it.
- Repositories.ProxyRepository.Fetch and Repositories.ProxyRepository.Fill are two parts of proxy `Get`, split out as helper methods. They are not separate operations in the source.
- Unbase64 decodes only padded text, with the standard alphabet. It exists to state that the encoding is injective; the source never decodes.
