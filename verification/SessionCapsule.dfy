/**
 Session capsules: what the schema's own refinement loops accept, and the identity
 bytes of an accepted capsule.
 */
module SessionCapsule {
  import opened Wrappers
  import opened JsonText
  import opened Ordering
  import opened CanonicalJson
  import Decimal
  import Utf8
  import opened Bytes

  datatype Provider = Codex | Claude | Cursor

  datatype FileRole = GitPatch | UntrackedFile | Attachment | ProviderPayload

  datatype FileMode = Regular | Executable

  datatype EntryRole = User | Assistant | System | Tool

  datatype CapsuleFile = CapsuleFile(
    path: Text, role: FileRole, mediaType: Text, bytes: nat, sha256: Text, mode: FileMode)

  datatype Repository = Repository(
    host: Text, path: Text, baseCommitSha: Text, sourceBranch: Text, workingDirectory: Text)

  datatype Entry = Entry(
    sequence: nat, role: EntryRole, authorName: Option<Text>, text: Text, createdAt: Option<Text>)

  datatype Source = Source(
    provider: Provider, externalSessionId: Text, payloadFormat: Text, payloadVersion: Text)

  datatype RepositoryState = RepositoryState(patchPath: Option<Text>, approvedUntrackedPaths: seq<Text>)

  /** A capsule as the field schemas leave it. The schema version and the sharing policy
      are literals, so they carry no information here. */
  datatype Capsule = Capsule(
    source: Source, repository: Repository, transcript: seq<Entry>,
    currentObjective: Text, summary: Text, repositoryState: RepositoryState,
    attachmentPaths: seq<Text>, providerPayloadPath: Text, files: seq<CapsuleFile>,
    createdAt: Text, exportedAt: Text)

  // ---------- Acceptance ----------

  datatype Issue =
    | DuplicatePath(index: nat)
    | TooManyBytes
    | WrongRole(path: Text, role: FileRole)
    | BrokenSequence(index: nat)

  const MAX_TOTAL_BYTES: nat := 25 * 1024 * 1024

  function TotalBytes(files: seq<CapsuleFile>): nat {
    if files == [] then 0 else TotalBytes(files[..|files| - 1]) + files[|files| - 1].bytes
  }

  predicate UniquePaths(files: seq<CapsuleFile>) {
    forall i, j :: 0 <= i < j < |files| ==> files[i].path != files[j].path
  }

  predicate HasRole(files: seq<CapsuleFile>, path: Text, role: FileRole) {
    exists i :: 0 <= i < |files| && files[i].path == path && files[i].role == role
  }

  predicate AllHaveRole(files: seq<CapsuleFile>, paths: seq<Text>, role: FileRole) {
    forall i :: 0 <= i < |paths| ==> HasRole(files, paths[i], role)
  }

  /** The rules of the manifest. An empty patch path counts as none. */
  predicate ManifestOk(c: Capsule) {
    && UniquePaths(c.files)
    && TotalBytes(c.files) <= MAX_TOTAL_BYTES
    && HasRole(c.files, c.providerPayloadPath, ProviderPayload)
    && (c.repositoryState.patchPath.Some? && c.repositoryState.patchPath.value != [] ==>
          HasRole(c.files, c.repositoryState.patchPath.value, GitPatch))
    && AllHaveRole(c.files, c.repositoryState.approvedUntrackedPaths, UntrackedFile)
    && AllHaveRole(c.files, c.attachmentPaths, Attachment)
  }

  /** The map the manifest loop has built once it has read `files`. */
  ghost predicate Indexes(m: map<Text, CapsuleFile>, files: seq<CapsuleFile>) {
    && (forall i :: 0 <= i < |files| ==> files[i].path in m)
    && (forall p :: p in m ==> m[p] in files && m[p].path == p)
  }

  lemma RoleThroughIndex(m: map<Text, CapsuleFile>, files: seq<CapsuleFile>, path: Text, role: FileRole)
    requires Indexes(m, files) && UniquePaths(files)
    ensures HasRole(files, path, role) <==> path in m && m[path].role == role
  {
    if path in m {
      var k :| 0 <= k < |files| && files[k] == m[path];
      if HasRole(files, path, role) {
        var i :| 0 <= i < |files| && files[i].path == path && files[i].role == role;
        assert i == k;
      }
    }
  }

  /** `requireRole`. */
  function RoleIssue(m: map<Text, CapsuleFile>, path: Text, role: FileRole): seq<Issue> {
    if path !in m || m[path].role != role then [WrongRole(path, role)] else []
  }

  method RoleIssues(m: map<Text, CapsuleFile>, paths: seq<Text>, role: FileRole) returns (issues: seq<Issue>)
    ensures issues == [] <==> forall i :: 0 <= i < |paths| ==> paths[i] in m && m[paths[i]].role == role
    ensures forall x :: x in issues ==> x.WrongRole? && x.role == role && x.path in paths
  {
    issues := [];
    for n := 0 to |paths|
      invariant issues == [] <==> forall i :: 0 <= i < n ==> paths[i] in m && m[paths[i]].role == role
      invariant forall x :: x in issues ==> x.WrongRole? && x.role == role && x.path in paths
    {
      issues := issues + RoleIssue(m, paths[n], role);
    }
  }

  predicate Duplicate(files: seq<CapsuleFile>, i: nat) {
    i < |files| && exists k :: 0 <= k < i && files[k].path == files[i].path
  }

  lemma IndexStep(m: map<Text, CapsuleFile>, files: seq<CapsuleFile>, n: nat)
    requires n < |files| && Indexes(m, files[..n])
    ensures files[n].path in m <==> Duplicate(files, n)
    ensures Indexes(m[files[n].path := files[n]], files[..n + 1])
  {
    assert files[..n + 1] == files[..n] + [files[n]];
    if files[n].path in m {
      var k :| 0 <= k < n && files[..n][k] == m[files[n].path];
      assert files[k].path == files[n].path;
    }
    if Duplicate(files, n) {
      var k :| 0 <= k < n && files[k].path == files[n].path;
      assert files[..n][k].path in m;
    }
  }

  /** The issues name exactly the first n files that repeat an earlier path. */
  ghost predicate ReportsDuplicates(issues: seq<Issue>, files: seq<CapsuleFile>, n: nat) {
    && (forall x :: x in issues ==> x.DuplicatePath?)
    && (forall i: nat :: DuplicatePath(i) in issues <==> i < n && Duplicate(files, i))
  }

  lemma DuplicatesStep(before: seq<Issue>, issues: seq<Issue>, files: seq<CapsuleFile>, n: nat)
    requires n < |files| && ReportsDuplicates(before, files, n)
    requires issues == if Duplicate(files, n) then before + [DuplicatePath(n)] else before
    ensures ReportsDuplicates(issues, files, n + 1)
  {
    assert forall x :: x in issues <==> x in before || (x == DuplicatePath(n) && Duplicate(files, n));
  }

  lemma UniqueIffNoDuplicate(files: seq<CapsuleFile>)
    ensures UniquePaths(files) <==> forall i: nat :: !Duplicate(files, i)
  {
    if forall i: nat :: !Duplicate(files, i) {
      forall i, j | 0 <= i < j < |files| ensures files[i].path != files[j].path {
        assert !Duplicate(files, j);
      }
    }
  }

  /** The file loop: the last file of each path, the byte total, and an issue exactly where
      an earlier file has the same path. */
  method IndexFiles(files: seq<CapsuleFile>)
    returns (filesByPath: map<Text, CapsuleFile>, totalBytes: nat, issues: seq<Issue>)
    ensures Indexes(filesByPath, files)
    ensures totalBytes == TotalBytes(files)
    ensures issues == [] <==> UniquePaths(files)
    ensures forall x :: x in issues ==> x.DuplicatePath?
    ensures forall i: nat :: DuplicatePath(i) in issues <==> Duplicate(files, i)
  {
    filesByPath, totalBytes, issues := map[], 0, [];
    for n := 0 to |files|
      invariant totalBytes == TotalBytes(files[..n])
      invariant Indexes(filesByPath, files[..n])
      invariant ReportsDuplicates(issues, files, n)
    {
      ghost var before := issues;
      var file := files[n];
      assert files[..n + 1][..n] == files[..n];
      totalBytes := totalBytes + file.bytes;
      IndexStep(filesByPath, files, n);
      if file.path in filesByPath {
        issues := issues + [DuplicatePath(n)];
      }
      DuplicatesStep(before, issues, files, n);
      filesByPath := filesByPath[file.path := file];
    }
    assert files[..|files|] == files;
    NoIssueIffUnique(files, issues);
  }

  lemma NoIssueIffUnique(files: seq<CapsuleFile>, issues: seq<Issue>)
    requires forall x :: x in issues ==> x.DuplicatePath?
    requires forall i: nat :: DuplicatePath(i) in issues <==> Duplicate(files, i)
    ensures issues == [] <==> UniquePaths(files)
  {
    UniqueIffNoDuplicate(files);
    if issues != [] {
      assert issues[0] in issues && issues[0].DuplicatePath?;
      assert DuplicatePath(issues[0].index) in issues;
    } else {
      assert forall i: nat :: DuplicatePath(i) !in issues;
    }
  }

  /** The capsule's `superRefine`: no issue exactly when the manifest is in order. */
  method CheckManifest(c: Capsule) returns (issues: seq<Issue>)
    ensures issues == [] <==> ManifestOk(c)
    ensures forall i: nat :: DuplicatePath(i) in issues <==> Duplicate(c.files, i)
    ensures TooManyBytes in issues <==> TotalBytes(c.files) > MAX_TOTAL_BYTES
  {
    var filesByPath, totalBytes;
    filesByPath, totalBytes, issues := IndexFiles(c.files);
    if totalBytes > MAX_TOTAL_BYTES {
      issues := issues + [TooManyBytes];
    }
    var payload := RoleIssue(filesByPath, c.providerPayloadPath, ProviderPayload);
    var patch := [];
    if c.repositoryState.patchPath.Some? && c.repositoryState.patchPath.value != [] {
      patch := RoleIssue(filesByPath, c.repositoryState.patchPath.value, GitPatch);
    }
    var untracked := RoleIssues(filesByPath, c.repositoryState.approvedUntrackedPaths, UntrackedFile);
    var attached := RoleIssues(filesByPath, c.attachmentPaths, Attachment);
    if UniquePaths(c.files) {
      forall p: Text, r: FileRole
        ensures HasRole(c.files, p, r) <==> p in filesByPath && filesByPath[p].role == r
      {
        RoleThroughIndex(filesByPath, c.files, p, r);
      }
    }
    issues := issues + payload + patch + untracked + attached;
  }

  predicate Broken(entries: seq<Entry>, i: nat) {
    1 <= i < |entries| && entries[i].sequence != entries[i - 1].sequence + 1
  }

  /** The transcript's `superRefine`: neighbours are numbered consecutively. */
  method CheckTranscript(entries: seq<Entry>) returns (issues: seq<Issue>)
    ensures issues == [] <==> Contiguous(entries)
    ensures forall i: nat :: BrokenSequence(i) in issues <==> Broken(entries, i)
  {
    issues := [];
    var index := 1;
    while index < |entries|
      invariant 1 <= index
      invariant forall x :: x in issues ==> x.BrokenSequence?
      invariant forall i: nat :: BrokenSequence(i) in issues <==> i < index && Broken(entries, i)
    {
      if entries[index].sequence != entries[index - 1].sequence + 1 {
        issues := issues + [BrokenSequence(index)];
      }
      index := index + 1;
    }
    if issues == [] {
      forall i | 1 <= i < |entries| ensures entries[i].sequence == entries[i - 1].sequence + 1 {
        assert BrokenSequence(i) !in issues;
      }
      ContiguousFromNeighbours(entries);
    } else {
      ghost var first := issues[0];
      assert first in issues && first.BrokenSequence?;
      assert BrokenSequence(first.index) in issues;
      assert Broken(entries, first.index);
    }
  }

  /** Entry i carries the number i places after the first one. */
  predicate Contiguous(entries: seq<Entry>) {
    forall i :: 0 <= i < |entries| ==> entries[i].sequence == entries[0].sequence + i
  }

  lemma {:induction false} ContiguousFromNeighbours(entries: seq<Entry>)
    requires forall i :: 1 <= i < |entries| ==> entries[i].sequence == entries[i - 1].sequence + 1
    ensures Contiguous(entries)
  {
    if |entries| > 1 {
      var n := |entries| - 1;
      ContiguousFromNeighbours(entries[..n]);
      assert entries[..n][n - 1].sequence == entries[0].sequence + n - 1;
    }
  }

  predicate Accepted(c: Capsule) {
    && ManifestOk(c)
    && 1 <= |c.transcript| <= 10000 && Contiguous(c.transcript)
    && 1 <= |c.files| <= 500
    && |c.attachmentPaths| <= 500
    && |c.repositoryState.approvedUntrackedPaths| <= 500
  }

  // ---------- The capsule as JSON ----------

  function ProviderText(p: Provider): Text {
    match p
    case Codex => Ascii("codex")
    case Claude => Ascii("claude")
    case Cursor => Ascii("cursor")
  }

  function FileRoleText(r: FileRole): Text {
    match r
    case GitPatch => Ascii("git_patch")
    case UntrackedFile => Ascii("untracked_file")
    case Attachment => Ascii("attachment")
    case ProviderPayload => Ascii("provider_payload")
  }

  function FileModeText(m: FileMode): Text {
    if m.Regular? then Ascii("100644") else Ascii("100755")
  }

  function EntryRoleText(r: EntryRole): Text {
    match r
    case User => Ascii("user")
    case Assistant => Ascii("assistant")
    case System => Ascii("system")
    case Tool => Ascii("tool")
  }

  function OptionalText(t: Option<Text>): Json {
    if t.Some? then Str(t.value) else Null
  }

  function Texts(ts: seq<Text>): Json {
    Arr(seq(|ts|, i requires 0 <= i < |ts| => Str(ts[i])))
  }

  /** An object literal: the i-th name with the i-th value. */
  function Record(names: seq<string>, values: seq<Json>): Json
    requires |names| == |values|
  {
    Obj(seq(|names|, i requires 0 <= i < |names| => Member(Ascii(names[i]), values[i])))
  }

  const SOURCE_NAMES := ["provider", "externalSessionId", "payloadFormat", "payloadVersion"]
  const REPOSITORY_NAMES := ["host", "path", "baseCommitSha", "sourceBranch", "workingDirectory"]
  const ENTRY_NAMES := ["sequence", "role", "authorName", "text", "createdAt"]
  const HANDOFF_NAMES := ["currentObjective", "summary"]
  const STATE_NAMES := ["patchPath", "approvedUntrackedPaths"]
  const FILE_NAMES := ["path", "role", "mediaType", "bytes", "sha256", "mode"]
  const SHARING_NAMES := ["normalizedView", "opaqueProviderPayload"]
  const CAPSULE_NAMES := [
    "schemaVersion", "source", "repository", "transcript", "handoff", "repositoryState",
    "attachmentPaths", "providerPayloadPath", "files", "sharing", "createdAt", "exportedAt"]

  function SourceJson(s: Source): Json {
    Record(SOURCE_NAMES, SourceValues(s))
  }

  function SourceValues(s: Source): (vs: seq<Json>)
    ensures |vs| == 4
  {
    [Str(ProviderText(s.provider)), Str(s.externalSessionId), Str(s.payloadFormat), Str(s.payloadVersion)]
  }

  function RepositoryJson(r: Repository): Json {
    Record(REPOSITORY_NAMES, RepositoryValues(r))
  }

  function RepositoryValues(r: Repository): (vs: seq<Json>)
    ensures |vs| == 5
  {
    [Str(r.host), Str(r.path), Str(r.baseCommitSha), Str(r.sourceBranch), Str(r.workingDirectory)]
  }

  function EntryJson(e: Entry): Json {
    Record(ENTRY_NAMES, EntryValues(e))
  }

  function EntryValues(e: Entry): (vs: seq<Json>)
    ensures |vs| == 5
  {
    [Num(NatNumeral(e.sequence)), Str(EntryRoleText(e.role)), OptionalText(e.authorName), Str(e.text),
     OptionalText(e.createdAt)]
  }

  function HandoffJson(objective: Text, summary: Text): Json {
    Record(HANDOFF_NAMES, [Str(objective), Str(summary)])
  }

  function StateJson(s: RepositoryState): Json {
    Record(STATE_NAMES, [OptionalText(s.patchPath), Texts(s.approvedUntrackedPaths)])
  }

  function FileJson(f: CapsuleFile): Json {
    Record(FILE_NAMES, FileValues(f))
  }

  function FileValues(f: CapsuleFile): (vs: seq<Json>)
    ensures |vs| == 6
  {
    [Str(f.path), Str(FileRoleText(f.role)), Str(f.mediaType), Num(NatNumeral(f.bytes)), Str(f.sha256),
     Str(FileModeText(f.mode))]
  }

  function SharingJson(): Json {
    Record(SHARING_NAMES, [Str(Ascii("workspace")), Str(Ascii("importer"))])
  }

  function EntriesJson(es: seq<Entry>): Json {
    Arr(seq(|es|, i requires 0 <= i < |es| => EntryJson(es[i])))
  }

  function FilesJson(fs: seq<CapsuleFile>): Json {
    Arr(seq(|fs|, i requires 0 <= i < |fs| => FileJson(fs[i])))
  }

  function CapsuleValues(c: Capsule): (vs: seq<Json>)
    ensures |vs| == 12
  {
    [Num(NatNumeral(0)), SourceJson(c.source), RepositoryJson(c.repository), EntriesJson(c.transcript),
     HandoffJson(c.currentObjective, c.summary), StateJson(c.repositoryState), Texts(c.attachmentPaths),
     Str(c.providerPayloadPath), FilesJson(c.files), SharingJson(), Str(c.createdAt), Str(c.exportedAt)]
  }

  function CapsuleJson(c: Capsule): Json {
    Record(CAPSULE_NAMES, CapsuleValues(c))
  }

  // ---------- Identity ----------

  const PATH_KEY: CapsuleFile -> seq<nat> := (f: CapsuleFile) => f.path

  /** The set-like collections in their canonical arrangement. */
  function Normalized(c: Capsule): Capsule {
    c.(repositoryState := c.repositoryState.(
         approvedUntrackedPaths := SortBy(c.repositoryState.approvedUntrackedPaths, TEXT_KEY)),
       attachmentPaths := SortBy(c.attachmentPaths, TEXT_KEY),
       files := SortBy(c.files, PATH_KEY))
  }

  /** `serializeSessionCapsuleV0Identity` on an accepted capsule. */
  function Identity(c: Capsule): seq<Byte> {
    CanonicalBytes(CapsuleJson(Normalized(c)))
  }

  /** What the identity is meant to distinguish: everything, except the arrangement of the
      file manifest and of the two path lists. */
  ghost predicate SameCapsule(c: Capsule, d: Capsule) {
    && c.source == d.source && c.repository == d.repository
    && c.transcript == d.transcript
    && c.currentObjective == d.currentObjective && c.summary == d.summary
    && c.repositoryState.patchPath == d.repositoryState.patchPath
    && multiset(c.repositoryState.approvedUntrackedPaths) == multiset(d.repositoryState.approvedUntrackedPaths)
    && multiset(c.attachmentPaths) == multiset(d.attachmentPaths)
    && c.providerPayloadPath == d.providerPayloadPath
    && (set f | f in c.files) == (set f | f in d.files)
    && c.createdAt == d.createdAt && c.exportedAt == d.exportedAt
  }

  ghost predicate DistinctNames(names: seq<string>) {
    forall i, j :: 0 <= i < j < |names| ==> Ascii(names[i]) != Ascii(names[j])
  }

  // ---------- A capsule read by the names of its fields ----------

  function Field(v: Option<Value>, name: string): Option<Value> {
    if v.Some? && v.value.VObj? && Ascii(name) in v.value.fields then Some(v.value.fields[Ascii(name)]) else None
  }

  function TextOf(v: Option<Value>): Option<Text> {
    if v.Some? && v.value.VStr? then Some(v.value.s) else None
  }

  function NullableTextOf(v: Option<Value>): Option<Option<Text>> {
    if v == Some(VNull) then Some(None)
    else if TextOf(v).Some? then Some(TextOf(v))
    else None
  }

  function NatOf(v: Option<Value>): Option<nat> {
    if v.Some? && v.value.VNum? && forall i :: 0 <= i < |v.value.n| ==> Decimal.IsDigit(v.value.n[i])
    then Some(Decimal.ValueOf(v.value.n)) else None
  }

  function AllOf<T>(vs: seq<Value>, read: Option<Value> -> Option<T>): Option<seq<T>> {
    if vs == [] then Some([])
    else
      var x, xs := read(Some(vs[0])), AllOf(vs[1..], read);
      if x.Some? && xs.Some? then Some([x.value] + xs.value) else None
  }

  function ItemsOf<T>(v: Option<Value>, read: Option<Value> -> Option<T>): Option<seq<T>> {
    if v.Some? && v.value.VArr? then AllOf(v.value.items, read) else None
  }

  function ProviderOf(v: Option<Value>): Option<Provider> {
    var t := TextOf(v);
    if t == Some(Ascii("codex")) then Some(Codex)
    else if t == Some(Ascii("claude")) then Some(Claude)
    else if t == Some(Ascii("cursor")) then Some(Cursor)
    else None
  }

  function FileRoleOf(v: Option<Value>): Option<FileRole> {
    var t := TextOf(v);
    if t == Some(Ascii("git_patch")) then Some(GitPatch)
    else if t == Some(Ascii("untracked_file")) then Some(UntrackedFile)
    else if t == Some(Ascii("attachment")) then Some(Attachment)
    else if t == Some(Ascii("provider_payload")) then Some(ProviderPayload)
    else None
  }

  function FileModeOf(v: Option<Value>): Option<FileMode> {
    var t := TextOf(v);
    if t == Some(Ascii("100644")) then Some(Regular)
    else if t == Some(Ascii("100755")) then Some(Executable)
    else None
  }

  function EntryRoleOf(v: Option<Value>): Option<EntryRole> {
    var t := TextOf(v);
    if t == Some(Ascii("user")) then Some(User)
    else if t == Some(Ascii("assistant")) then Some(Assistant)
    else if t == Some(Ascii("system")) then Some(System)
    else if t == Some(Ascii("tool")) then Some(Tool)
    else None
  }

  function SourceOf(v: Option<Value>): Option<Source> {
    var provider, id := ProviderOf(Field(v, "provider")), TextOf(Field(v, "externalSessionId"));
    var format, version := TextOf(Field(v, "payloadFormat")), TextOf(Field(v, "payloadVersion"));
    if provider.Some? && id.Some? && format.Some? && version.Some? then
      Some(Source(provider := provider.value, externalSessionId := id.value,
                  payloadFormat := format.value, payloadVersion := version.value))
    else None
  }

  function RepositoryOf(v: Option<Value>): Option<Repository> {
    var host, path, base := TextOf(Field(v, "host")), TextOf(Field(v, "path")), TextOf(Field(v, "baseCommitSha"));
    var branch, directory := TextOf(Field(v, "sourceBranch")), TextOf(Field(v, "workingDirectory"));
    if host.Some? && path.Some? && base.Some? && branch.Some? && directory.Some? then
      Some(Repository(host := host.value, path := path.value, baseCommitSha := base.value,
                      sourceBranch := branch.value, workingDirectory := directory.value))
    else None
  }

  function EntryOf(v: Option<Value>): Option<Entry> {
    var sequence, role, text := NatOf(Field(v, "sequence")), EntryRoleOf(Field(v, "role")), TextOf(Field(v, "text"));
    var author, created := NullableTextOf(Field(v, "authorName")), NullableTextOf(Field(v, "createdAt"));
    if sequence.Some? && role.Some? && text.Some? && author.Some? && created.Some? then
      Some(Entry(sequence := sequence.value, role := role.value, authorName := author.value,
                 text := text.value, createdAt := created.value))
    else None
  }

  function StateOf(v: Option<Value>): Option<RepositoryState> {
    var patch, paths := NullableTextOf(Field(v, "patchPath")), ItemsOf(Field(v, "approvedUntrackedPaths"), TextOf);
    if patch.Some? && paths.Some? then
      Some(RepositoryState(patchPath := patch.value, approvedUntrackedPaths := paths.value))
    else None
  }

  function FileOf(v: Option<Value>): Option<CapsuleFile> {
    var path, role, mediaType := TextOf(Field(v, "path")), FileRoleOf(Field(v, "role")), TextOf(Field(v, "mediaType"));
    var bytes, sha256, mode := NatOf(Field(v, "bytes")), TextOf(Field(v, "sha256")), FileModeOf(Field(v, "mode"));
    if path.Some? && role.Some? && mediaType.Some? && bytes.Some? && sha256.Some? && mode.Some? then
      Some(CapsuleFile(path := path.value, role := role.value, mediaType := mediaType.value,
                       bytes := bytes.value, sha256 := sha256.value, mode := mode.value))
    else None
  }

  /** The two literals of a capsule. */
  predicate LiteralsOk(v: Option<Value>) {
    && NatOf(Field(v, "schemaVersion")) == Some(0)
    && TextOf(Field(Field(v, "sharing"), "normalizedView")) == Some(Ascii("workspace"))
    && TextOf(Field(Field(v, "sharing"), "opaqueProviderPayload")) == Some(Ascii("importer"))
  }

  function CapsuleOf(v: Option<Value>): Option<Capsule> {
    var source, repository := SourceOf(Field(v, "source")), RepositoryOf(Field(v, "repository"));
    var transcript, files := ItemsOf(Field(v, "transcript"), EntryOf), ItemsOf(Field(v, "files"), FileOf);
    var objective := TextOf(Field(Field(v, "handoff"), "currentObjective"));
    var summary := TextOf(Field(Field(v, "handoff"), "summary"));
    var state, attached := StateOf(Field(v, "repositoryState")), ItemsOf(Field(v, "attachmentPaths"), TextOf);
    var payload := TextOf(Field(v, "providerPayloadPath"));
    var created, exported := TextOf(Field(v, "createdAt")), TextOf(Field(v, "exportedAt"));
    if && LiteralsOk(v) && source.Some? && repository.Some? && transcript.Some? && files.Some?
       && objective.Some? && summary.Some? && state.Some? && attached.Some? && payload.Some?
       && created.Some? && exported.Some?
    then
      Some(Capsule(source := source.value, repository := repository.value, transcript := transcript.value,
                   currentObjective := objective.value, summary := summary.value,
                   repositoryState := state.value, attachmentPaths := attached.value,
                   providerPayloadPath := payload.value, files := files.value,
                   createdAt := created.value, exportedAt := exported.value))
    else None
  }

  // ---------- What was written is read ----------

  lemma RecordField(names: seq<string>, vs: seq<Json>, i: nat)
    requires i < |names| == |vs| && DistinctNames(names)
    ensures var k := Ascii(names[i]);
            k in Meaning(Record(names, vs)).fields && Meaning(Record(names, vs)).fields[k] == Meaning(vs[i])
  {
    var a := Record(names, vs);
    var k := Keys(a.members)[i];
    assert k == Ascii(names[i]);
    assert Get(a, k) == vs[i];
  }

  /** Each name finds its own value. */
  ghost predicate Finds(v: Option<Value>, names: seq<string>, vs: seq<Json>) {
    |names| == |vs| && forall i :: 0 <= i < |names| ==> Field(v, names[i]) == Some(Meaning(vs[i]))
  }

  lemma RecordReads(names: seq<string>, vs: seq<Json>)
    requires |names| == |vs| && DistinctNames(names)
    ensures (forall i :: 0 <= i < |vs| ==> Valid(vs[i])) ==> Valid(Record(names, vs))
    ensures Finds(Some(Meaning(Record(names, vs))), names, vs)
  {
    forall i | 0 <= i < |names|
      ensures Field(Some(Meaning(Record(names, vs))), names[i]) == Some(Meaning(vs[i]))
    {
      RecordField(names, vs, i);
    }
  }

  lemma SourceNamesDistinct()
    ensures DistinctNames(SOURCE_NAMES) && DistinctNames(SHARING_NAMES)
  {
  }

  lemma RepositoryNamesDistinct()
    ensures DistinctNames(REPOSITORY_NAMES)
  {
    assert Ascii(REPOSITORY_NAMES[0])[0] != Ascii(REPOSITORY_NAMES[1])[0];
  }

  lemma EntryNamesDistinct()
    ensures DistinctNames(ENTRY_NAMES)
  {
    assert Ascii(ENTRY_NAMES[1])[0] != Ascii(ENTRY_NAMES[3])[0];
  }

  lemma StateNamesDistinct()
    ensures DistinctNames(STATE_NAMES) && DistinctNames(HANDOFF_NAMES)
  {
  }

  lemma FileNamesDistinct()
    ensures DistinctNames(FILE_NAMES)
  {
    assert Ascii(FILE_NAMES[0])[0] == 112 && Ascii(FILE_NAMES[1])[0] == 114 && Ascii(FILE_NAMES[5])[0] == 109;
  }

  lemma CapsuleNamesDistinct()
    ensures DistinctNames(CAPSULE_NAMES)
  {
    var n := CAPSULE_NAMES;
    assert Ascii(n[2])[0] == 114 && Ascii(n[3])[0] == 116 && Ascii(n[11])[0] == 101;
    assert Ascii(n[4])[0] == 104 && Ascii(n[9])[0] == 115;
    assert Ascii(n[5])[0] == 114 && Ascii(n[6])[0] == 97;
    assert |n[0]| == 13 && |n[1]| == 6 && |n[2]| == |n[3]| == |n[11]| == 10 && |n[4]| == |n[9]| == 7;
    assert |n[5]| == |n[6]| == 15 && |n[7]| == 19 && |n[8]| == 5 && |n[10]| == 9;
  }

  lemma SomeText(j: Json)
    ensures j.Str? ==> TextOf(Some(Meaning(j))) == Some(j.s)
  {
  }

  lemma NatReads(n: nat)
    ensures NatOf(Some(Meaning(Num(NatNumeral(n))))) == Some(n)
  {
    Decimal.DigitsRead(n);
  }

  lemma OptionalTextReads(t: Option<Text>)
    ensures NullableTextOf(Some(Meaning(OptionalText(t)))) == Some(t)
  {
  }

  lemma {:induction false} AllRead<T(!new)>(vs: seq<Value>, read: Option<Value> -> Option<T>, xs: seq<T>)
    requires |vs| == |xs| && forall i :: 0 <= i < |vs| ==> read(Some(vs[i])) == Some(xs[i])
    ensures AllOf(vs, read) == Some(xs)
  {
    if vs != [] {
      AllRead(vs[1..], read, xs[1..]);
      assert xs == [xs[0]] + xs[1..];
    }
  }

  lemma TextsRead(ts: seq<Text>)
    ensures Valid(Texts(ts)) && ItemsOf(Some(Meaning(Texts(ts))), TextOf) == Some(ts)
  {
    var vs := Meaning(Texts(ts)).items;
    forall i | 0 <= i < |ts| ensures TextOf(Some(vs[i])) == Some(ts[i]) {
      assert vs[i] == Meaning(Texts(ts).items[i]);
    }
    AllRead(vs, TextOf, ts);
  }

  lemma ProviderReads(p: Provider)
    ensures ProviderOf(Some(Meaning(Str(ProviderText(p))))) == Some(p)
  {
    assert Ascii("codex")[1] == 111 && Ascii("claude")[1] == 108 && Ascii("cursor")[1] == 117;
  }

  lemma FileRoleReads(r: FileRole)
    ensures FileRoleOf(Some(Meaning(Str(FileRoleText(r))))) == Some(r)
  {
    assert |Ascii("git_patch")| == 9 && |Ascii("untracked_file")| == 14 && |Ascii("attachment")| == 10;
    assert |Ascii("provider_payload")| == 16;
  }

  lemma FileModeReads(m: FileMode)
    ensures FileModeOf(Some(Meaning(Str(FileModeText(m))))) == Some(m)
  {
    assert Ascii("100644")[3] == 54 && Ascii("100755")[3] == 55;
  }

  lemma EntryRoleReads(r: EntryRole)
    ensures EntryRoleOf(Some(Meaning(Str(EntryRoleText(r))))) == Some(r)
  {
    assert |Ascii("user")| == 4 && |Ascii("assistant")| == 9 && |Ascii("system")| == 6 && |Ascii("tool")| == 4;
    assert Ascii("user")[0] == 117 && Ascii("tool")[0] == 116;
  }

  lemma SourceFound(v: Option<Value>, s: Source)
    requires Finds(v, SOURCE_NAMES, SourceValues(s))
    ensures SourceOf(v) == Some(s)
  {
    ProviderReads(s.provider);
    var n := SOURCE_NAMES;
    assert Field(v, n[0]) == Field(v, "provider") && Field(v, n[1]) == Field(v, "externalSessionId");
    assert Field(v, n[2]) == Field(v, "payloadFormat") && Field(v, n[3]) == Field(v, "payloadVersion");
  }

  lemma SourceFinds(s: Source)
    ensures Valid(SourceJson(s)) && Finds(Some(Meaning(SourceJson(s))), SOURCE_NAMES, SourceValues(s))
  {
    SourceNamesDistinct();
    assert forall i :: 0 <= i < |SourceValues(s)| ==> Valid(SourceValues(s)[i]);
    RecordReads(SOURCE_NAMES, SourceValues(s));
  }

  lemma SourceReads(s: Source)
    ensures SourceOf(Some(Meaning(SourceJson(s)))) == Some(s)
  {
    SourceFinds(s);
    SourceFound(Some(Meaning(SourceJson(s))), s);
  }

  lemma RepositoryFound(v: Option<Value>, r: Repository)
    requires Finds(v, REPOSITORY_NAMES, RepositoryValues(r))
    ensures RepositoryOf(v) == Some(r)
  {
    var n := REPOSITORY_NAMES;
    assert Field(v, n[0]) == Field(v, "host") && Field(v, n[1]) == Field(v, "path");
    assert Field(v, n[2]) == Field(v, "baseCommitSha") && Field(v, n[3]) == Field(v, "sourceBranch");
    assert Field(v, n[4]) == Field(v, "workingDirectory");
  }

  lemma RepositoryFinds(r: Repository)
    ensures Valid(RepositoryJson(r)) && Finds(Some(Meaning(RepositoryJson(r))), REPOSITORY_NAMES, RepositoryValues(r))
  {
    RepositoryNamesDistinct();
    assert forall i :: 0 <= i < |RepositoryValues(r)| ==> Valid(RepositoryValues(r)[i]);
    RecordReads(REPOSITORY_NAMES, RepositoryValues(r));
  }

  lemma RepositoryReads(r: Repository)
    ensures RepositoryOf(Some(Meaning(RepositoryJson(r)))) == Some(r)
  {
    RepositoryFinds(r);
    RepositoryFound(Some(Meaning(RepositoryJson(r))), r);
  }

  lemma EntryFound(v: Option<Value>, e: Entry)
    requires Finds(v, ENTRY_NAMES, EntryValues(e))
    ensures EntryOf(v) == Some(e)
  {
    NatReads(e.sequence);
    EntryRoleReads(e.role);
    OptionalTextReads(e.authorName);
    OptionalTextReads(e.createdAt);
    var n := ENTRY_NAMES;
    assert Field(v, n[0]) == Field(v, "sequence") && Field(v, n[1]) == Field(v, "role");
    assert Field(v, n[2]) == Field(v, "authorName") && Field(v, n[3]) == Field(v, "text");
    assert Field(v, n[4]) == Field(v, "createdAt");
  }

  lemma EntryFinds(e: Entry)
    ensures Valid(EntryJson(e)) && Finds(Some(Meaning(EntryJson(e))), ENTRY_NAMES, EntryValues(e))
  {
    EntryNamesDistinct();
    assert forall i :: 0 <= i < |EntryValues(e)| ==> Valid(EntryValues(e)[i]);
    RecordReads(ENTRY_NAMES, EntryValues(e));
  }

  lemma EntryReads(e: Entry)
    ensures EntryOf(Some(Meaning(EntryJson(e)))) == Some(e)
  {
    EntryFinds(e);
    EntryFound(Some(Meaning(EntryJson(e))), e);
  }

  lemma FileFound(v: Option<Value>, f: CapsuleFile)
    requires Finds(v, FILE_NAMES, FileValues(f))
    ensures FileOf(v) == Some(f)
  {
    NatReads(f.bytes);
    FileRoleReads(f.role);
    FileModeReads(f.mode);
    var n := FILE_NAMES;
    assert Field(v, n[0]) == Field(v, "path") && Field(v, n[1]) == Field(v, "role");
    assert Field(v, n[2]) == Field(v, "mediaType") && Field(v, n[3]) == Field(v, "bytes");
    assert Field(v, n[4]) == Field(v, "sha256") && Field(v, n[5]) == Field(v, "mode");
  }

  lemma FileFinds(f: CapsuleFile)
    ensures Valid(FileJson(f)) && Finds(Some(Meaning(FileJson(f))), FILE_NAMES, FileValues(f))
  {
    FileNamesDistinct();
    assert forall i :: 0 <= i < |FileValues(f)| ==> Valid(FileValues(f)[i]);
    RecordReads(FILE_NAMES, FileValues(f));
  }

  lemma FileReads(f: CapsuleFile)
    ensures FileOf(Some(Meaning(FileJson(f)))) == Some(f)
  {
    FileFinds(f);
    FileFound(Some(Meaning(FileJson(f))), f);
  }

  lemma StateFound(v: Option<Value>, s: RepositoryState)
    requires Finds(v, STATE_NAMES, [OptionalText(s.patchPath), Texts(s.approvedUntrackedPaths)])
    ensures StateOf(v) == Some(s)
  {
    OptionalTextReads(s.patchPath);
    TextsRead(s.approvedUntrackedPaths);
    assert STATE_NAMES[0] == "patchPath" && STATE_NAMES[1] == "approvedUntrackedPaths";
  }

  lemma StateFinds(s: RepositoryState)
    ensures Valid(StateJson(s))
    ensures Finds(Some(Meaning(StateJson(s))), STATE_NAMES,
                  [OptionalText(s.patchPath), Texts(s.approvedUntrackedPaths)])
  {
    StateNamesDistinct();
    OptionalTextReads(s.patchPath);
    TextsRead(s.approvedUntrackedPaths);
    RecordReads(STATE_NAMES, [OptionalText(s.patchPath), Texts(s.approvedUntrackedPaths)]);
  }

  lemma StateReads(s: RepositoryState)
    ensures Valid(StateJson(s)) && StateOf(Some(Meaning(StateJson(s)))) == Some(s)
  {
    StateFinds(s);
    StateFound(Some(Meaning(StateJson(s))), s);
  }

  lemma EntriesRead(es: seq<Entry>)
    ensures Valid(EntriesJson(es)) && ItemsOf(Some(Meaning(EntriesJson(es))), EntryOf) == Some(es)
  {
    var vs := Meaning(EntriesJson(es)).items;
    forall i | 0 <= i < |es| ensures Valid(EntryJson(es[i])) && EntryOf(Some(vs[i])) == Some(es[i]) {
      EntryFinds(es[i]);
      EntryReads(es[i]);
      assert vs[i] == Meaning(EntriesJson(es).items[i]);
    }
    AllRead(vs, EntryOf, es);
  }

  lemma FilesRead(fs: seq<CapsuleFile>)
    ensures Valid(FilesJson(fs)) && ItemsOf(Some(Meaning(FilesJson(fs))), FileOf) == Some(fs)
  {
    var vs := Meaning(FilesJson(fs)).items;
    forall i | 0 <= i < |fs| ensures Valid(FileJson(fs[i])) && FileOf(Some(vs[i])) == Some(fs[i]) {
      FileFinds(fs[i]);
      FileReads(fs[i]);
      assert vs[i] == Meaning(FilesJson(fs).items[i]);
    }
    AllRead(vs, FileOf, fs);
  }

  lemma HandoffFound(v: Option<Value>, objective: Text, summary: Text)
    requires Finds(v, HANDOFF_NAMES, [Str(objective), Str(summary)])
    ensures TextOf(Field(v, "currentObjective")) == Some(objective) && TextOf(Field(v, "summary")) == Some(summary)
  {
    var n := HANDOFF_NAMES;
    assert Field(v, n[0]) == Field(v, "currentObjective") && Field(v, n[1]) == Field(v, "summary");
  }

  lemma HandoffReads(objective: Text, summary: Text)
    ensures var v := Some(Meaning(HandoffJson(objective, summary)));
            && Valid(HandoffJson(objective, summary))
            && TextOf(Field(v, "currentObjective")) == Some(objective) && TextOf(Field(v, "summary")) == Some(summary)
  {
    StateNamesDistinct();
    RecordReads(HANDOFF_NAMES, [Str(objective), Str(summary)]);
    HandoffFound(Some(Meaning(HandoffJson(objective, summary))), objective, summary);
  }

  lemma SharingFound(v: Option<Value>)
    requires Finds(v, SHARING_NAMES, [Str(Ascii("workspace")), Str(Ascii("importer"))])
    ensures TextOf(Field(v, "normalizedView")) == Some(Ascii("workspace"))
    ensures TextOf(Field(v, "opaqueProviderPayload")) == Some(Ascii("importer"))
  {
    var n := SHARING_NAMES;
    assert Field(v, n[0]) == Field(v, "normalizedView") && Field(v, n[1]) == Field(v, "opaqueProviderPayload");
  }

  lemma SharingFinds()
    ensures Valid(SharingJson())
    ensures Finds(Some(Meaning(SharingJson())), SHARING_NAMES, [Str(Ascii("workspace")), Str(Ascii("importer"))])
  {
    SourceNamesDistinct();
    RecordReads(SHARING_NAMES, [Str(Ascii("workspace")), Str(Ascii("importer"))]);
  }

  lemma SharingReads()
    ensures var v := Some(Meaning(SharingJson()));
            && TextOf(Field(v, "normalizedView")) == Some(Ascii("workspace"))
            && TextOf(Field(v, "opaqueProviderPayload")) == Some(Ascii("importer"))
  {
    SharingFinds();
    SharingFound(Some(Meaning(SharingJson())));
  }

  ghost predicate PartsOk(c: Capsule) {
    && Valid(SourceJson(c.source)) && Valid(RepositoryJson(c.repository)) && Valid(EntriesJson(c.transcript))
    && Valid(HandoffJson(c.currentObjective, c.summary)) && Valid(StateJson(c.repositoryState))
    && Valid(Texts(c.attachmentPaths)) && Valid(FilesJson(c.files)) && Valid(SharingJson())
  }

  lemma PartsValid(c: Capsule)
    ensures PartsOk(c)
  {
    SourceFinds(c.source);
    RepositoryFinds(c.repository);
    EntriesRead(c.transcript);
    HandoffReads(c.currentObjective, c.summary);
    StateReads(c.repositoryState);
    TextsRead(c.attachmentPaths);
    FilesRead(c.files);
    SharingFinds();
  }

  lemma ValuesValid(c: Capsule)
    requires PartsOk(c)
    ensures forall i :: 0 <= i < 12 ==> Valid(CapsuleValues(c)[i])
  {
  }

  lemma CapsuleFinds(c: Capsule)
    ensures Valid(CapsuleJson(c)) && Finds(Some(Meaning(CapsuleJson(c))), CAPSULE_NAMES, CapsuleValues(c))
  {
    CapsuleNamesDistinct();
    PartsValid(c);
    ValuesValid(c);
    RecordReads(CAPSULE_NAMES, CapsuleValues(c));
  }

  lemma CapsuleValid(c: Capsule)
    ensures Valid(CapsuleJson(c))
  {
    CapsuleFinds(c);
  }

  /** What the fields read as. */
  ghost predicate HasParts(v: Option<Value>, c: Capsule) {
    && SourceOf(Field(v, "source")) == Some(c.source)
    && RepositoryOf(Field(v, "repository")) == Some(c.repository)
    && ItemsOf(Field(v, "transcript"), EntryOf) == Some(c.transcript)
    && TextOf(Field(Field(v, "handoff"), "currentObjective")) == Some(c.currentObjective)
    && TextOf(Field(Field(v, "handoff"), "summary")) == Some(c.summary)
    && StateOf(Field(v, "repositoryState")) == Some(c.repositoryState)
    && ItemsOf(Field(v, "attachmentPaths"), TextOf) == Some(c.attachmentPaths)
    && TextOf(Field(v, "providerPayloadPath")) == Some(c.providerPayloadPath)
    && ItemsOf(Field(v, "files"), FileOf) == Some(c.files)
    && TextOf(Field(v, "createdAt")) == Some(c.createdAt) && TextOf(Field(v, "exportedAt")) == Some(c.exportedAt)
    && LiteralsOk(v)
  }

  lemma LiteralsRead(v: Option<Value>, c: Capsule)
    requires Finds(v, CAPSULE_NAMES, CapsuleValues(c))
    ensures LiteralsOk(v)
  {
    var n := CAPSULE_NAMES;
    assert Field(v, n[0]) == Field(v, "schemaVersion") && Field(v, n[9]) == Field(v, "sharing");
    NatReads(0);
    SharingReads();
  }

  lemma OriginRead(v: Option<Value>, c: Capsule)
    requires Finds(v, CAPSULE_NAMES, CapsuleValues(c))
    ensures SourceOf(Field(v, "source")) == Some(c.source)
    ensures RepositoryOf(Field(v, "repository")) == Some(c.repository)
  {
    var n := CAPSULE_NAMES;
    assert Field(v, n[1]) == Field(v, "source") && Field(v, n[2]) == Field(v, "repository");
    SourceReads(c.source);
    RepositoryReads(c.repository);
  }

  lemma ListsRead(v: Option<Value>, c: Capsule)
    requires Finds(v, CAPSULE_NAMES, CapsuleValues(c))
    ensures ItemsOf(Field(v, "transcript"), EntryOf) == Some(c.transcript)
    ensures ItemsOf(Field(v, "attachmentPaths"), TextOf) == Some(c.attachmentPaths)
    ensures ItemsOf(Field(v, "files"), FileOf) == Some(c.files)
  {
    var n := CAPSULE_NAMES;
    assert Field(v, n[3]) == Field(v, "transcript") && Field(v, n[6]) == Field(v, "attachmentPaths");
    assert Field(v, n[8]) == Field(v, "files");
    EntriesRead(c.transcript);
    TextsRead(c.attachmentPaths);
    FilesRead(c.files);
  }

  lemma WorkRead(v: Option<Value>, c: Capsule)
    requires Finds(v, CAPSULE_NAMES, CapsuleValues(c))
    ensures TextOf(Field(Field(v, "handoff"), "currentObjective")) == Some(c.currentObjective)
    ensures TextOf(Field(Field(v, "handoff"), "summary")) == Some(c.summary)
    ensures StateOf(Field(v, "repositoryState")) == Some(c.repositoryState)
  {
    var n := CAPSULE_NAMES;
    assert Field(v, n[4]) == Field(v, "handoff") && Field(v, n[5]) == Field(v, "repositoryState");
    HandoffReads(c.currentObjective, c.summary);
    StateReads(c.repositoryState);
  }

  lemma TextsFound(v: Option<Value>, c: Capsule)
    requires Finds(v, CAPSULE_NAMES, CapsuleValues(c))
    ensures TextOf(Field(v, "providerPayloadPath")) == Some(c.providerPayloadPath)
    ensures TextOf(Field(v, "createdAt")) == Some(c.createdAt) && TextOf(Field(v, "exportedAt")) == Some(c.exportedAt)
  {
    var n := CAPSULE_NAMES;
    assert Field(v, n[7]) == Field(v, "providerPayloadPath");
    assert Field(v, n[10]) == Field(v, "createdAt") && Field(v, n[11]) == Field(v, "exportedAt");
  }

  lemma PartsRead(v: Option<Value>, c: Capsule)
    requires Finds(v, CAPSULE_NAMES, CapsuleValues(c))
    ensures HasParts(v, c)
  {
    LiteralsRead(v, c);
    OriginRead(v, c);
    ListsRead(v, c);
    WorkRead(v, c);
    TextsFound(v, c);
  }

  lemma CapsuleFound(v: Option<Value>, c: Capsule)
    requires HasParts(v, c)
    ensures CapsuleOf(v) == Some(c)
  {
  }

  /** Read by the names of its fields, a capsule's JSON is the capsule. */
  lemma CapsuleReads(c: Capsule)
    ensures CapsuleOf(Some(Meaning(CapsuleJson(c)))) == Some(c)
  {
    CapsuleFinds(c);
    PartsRead(Some(Meaning(CapsuleJson(c))), c);
    CapsuleFound(Some(Meaning(CapsuleJson(c))), c);
  }

  /** Nothing in a capsule escapes its JSON. */
  lemma CapsuleInjective(c: Capsule, d: Capsule)
    requires Meaning(CapsuleJson(c)) == Meaning(CapsuleJson(d))
    ensures c == d
  {
    CapsuleReads(c);
    CapsuleReads(d);
  }

  /** The bytes of an identity, read as UTF-8, as JSON and as a capsule. */
  function ReadIdentity(bytes: seq<Byte>): Option<Capsule> {
    var text := Utf8.Decode(bytes);
    if text.None? then None
    else
      var read := ReadValue(text.value);
      if read.Some? && read.value.1 == [] then CapsuleOf(Some(read.value.0)) else None
  }

  /** From its identity the capsule can be read back, its collections in order. */
  lemma IdentityReads(c: Capsule)
    ensures ReadIdentity(Identity(c)) == Some(Normalized(c))
  {
    var j := CapsuleJson(Normalized(c));
    CapsuleValid(Normalized(c));
    PrintWellFormed(j);
    Utf8.EncodeDecodes(Print(j));
    Utf8.WellFormedNeedsNoRepair(Print(j));
    PrintReads(j, []);
    assert Print(j) + [] == Print(j);
    CapsuleReads(Normalized(c));
  }

  /** Unique paths make the manifest a set. */
  lemma UniqueFilesAreASet(fs: seq<CapsuleFile>, gs: seq<CapsuleFile>)
    requires UniquePaths(fs) && UniquePaths(gs)
    ensures multiset(fs) == multiset(gs) <==> (set f | f in fs) == (set f | f in gs)
    ensures KeyInjective(fs, PATH_KEY)
  {
    if multiset(fs) == multiset(gs) {
      forall x ensures x in fs <==> x in gs {
        assert x in fs <==> x in multiset(fs);
        assert x in gs <==> x in multiset(gs);
      }
    }
    var S, T := set f | f in fs, set f | f in gs;
    if S == T {
      forall x ensures x in fs <==> x in gs {
        assert x in S <==> x in T;
      }
      DistinctSameElements(fs, gs);
    }
  }

  /** The identity of an accepted capsule is unchanged by exactly the rearrangements it is
      meant to ignore, and by nothing else. */
  lemma IdentityIffSameCapsule(c: Capsule, d: Capsule)
    requires Accepted(c) && Accepted(d)
    ensures Identity(c) == Identity(d) <==> SameCapsule(c, d)
  {
    IdentityReads(c);
    IdentityReads(d);
    assert Identity(c) == Identity(d) <==> Normalized(c) == Normalized(d);
    SortByEqualIffPermutation(
      c.repositoryState.approvedUntrackedPaths, d.repositoryState.approvedUntrackedPaths, TEXT_KEY);
    SortByEqualIffPermutation(c.attachmentPaths, d.attachmentPaths, TEXT_KEY);
    UniqueFilesAreASet(c.files, d.files);
    SortByEqualIffPermutation(c.files, d.files, PATH_KEY);
  }

  /** The order of object keys, at every depth, does not reach the bytes either. */
  lemma IdentityIgnoresKeyOrder(c: Capsule, j: Json)
    requires Valid(j) && Meaning(j) == Meaning(CapsuleJson(Normalized(c)))
    ensures CanonicalBytes(j) == Identity(c)
  {
    CapsuleValid(Normalized(c));
    CanonicalBytesIffSameMeaning(j, CapsuleJson(Normalized(c)));
  }

  /** The serializer. `fields` stands for the schemas of the single fields, which reject a value or
      clean it up; the array bounds and the checks across fields then decide about what they leave. */
  method SerializeIdentity(value: Capsule, fields: Capsule -> Option<Capsule>)
    returns (identity: Option<seq<Byte>>)
    ensures identity.Some? <==> fields(value).Some? && Accepted(fields(value).value)
    ensures identity.Some? ==> identity.value == Identity(fields(value).value)
  {
    var parsed := fields(value);
    if parsed.None? {
      return None;
    }
    var c := parsed.value;
    if |c.transcript| < 1 || |c.transcript| > 10000 || |c.files| < 1 || |c.files| > 500
       || |c.attachmentPaths| > 500 || |c.repositoryState.approvedUntrackedPaths| > 500 {
      return None;
    }
    var transcriptIssues := CheckTranscript(c.transcript);
    var manifestIssues := CheckManifest(c);
    if transcriptIssues != [] || manifestIssues != [] {
      return None;
    }
    return Some(Identity(c));
  }
}
