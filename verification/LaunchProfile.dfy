/**
 Launch profiles: the check of a caller's files and environment, the files written into a fresh
 directory, and the directory's name put into the environment. The check compares the texts of
 paths, the disk has names, and the two come apart.
 */
module LaunchProfile {
  import opened Wrappers
  import opened PathText
  import opened RustText

  const MAX_PROFILE_FILES: nat := 8
  const MAX_PROFILE_FILE_BYTES: nat := 0x2_0000
  const MAX_PROFILE_ENV_VARS: nat := 16
  const MAX_PROFILE_ENV_VALUE_BYTES: nat := 0x8000
  const PROFILE_DIR_TOKEN: string := "{{profileDir}}"

  datatype File = File(path: string, contents: string)
  datatype Var = Var(name: string, value: string)

  datatype ProfileError =
    | TooManyFiles | UnsafePath | DuplicatePath | FileTooLarge(path: string)
    | TooManyVars | BadVarName | ValueTooLarge(name: string)

  // ---------- Validation ----------

  predicate AllNormal(cs: seq<Component>) { forall i :: 0 <= i < |cs| ==> cs[i].Normal? }

  predicate SafePath(path: string) { path != [] && AllNormal(Components(path)) }

  predicate EnvNameChar(c: char) { 'A' <= c <= 'Z' || '0' <= c <= '9' || c == '_' }

  predicate EnvName(name: string) {
    name != [] && !('0' <= name[0] <= '9') && forall i :: 0 <= i < |name| ==> EnvNameChar(name[i])
  }

  /** Safe are the texts that are not empty, begin neither with a slash nor with a dot piece, and have no
      piece that climbs. */
  lemma SafePathIff(path: string)
    ensures SafePath(path)
            <==> && path != [] && path[0] != '/' && Split(path)[0] != "."
                 && forall i :: 0 <= i < |Split(path)| ==> Split(path)[i] != ".."
  {
    var m := Meaningful(Split(path));
    NoRoot(Split(path));
    ParentDirIff(Split(path));
    assert path != [] && path[0] == '/' ==> Components(path)[0] == RootDir;
    assert path != [] && path[0] != '/' && Split(path)[0] == "." ==> Components(path)[0] == CurDir;
    assert path != [] && path[0] != '/' && Split(path)[0] != "." ==> Components(path) == m;
    assert ParentDir in m ==> ParentDir in Components(path);
    assert AllNormal(m) <==> ParentDir !in m by {
      forall i | 0 <= i < |m| && ParentDir !in m ensures m[i].Normal? { assert m[i] in m; }
    }
  }

  /** What is wrong with file i, the earlier ones given. */
  function FileFault(files: seq<File>, i: nat): Option<ProfileError>
    requires i < |files|
  {
    if i >= MAX_PROFILE_FILES then Some(TooManyFiles)
    else if !SafePath(files[i].path) then Some(UnsafePath)
    else if exists j :: 0 <= j < i && files[j].path == files[i].path then Some(DuplicatePath)
    else if Length(files[i].contents) > MAX_PROFILE_FILE_BYTES then Some(FileTooLarge(files[i].path))
    else None
  }

  function VarFault(env: seq<Var>, i: nat): Option<ProfileError>
    requires i < |env|
  {
    if i >= MAX_PROFILE_ENV_VARS then Some(TooManyVars)
    else if !EnvName(env[i].name) then Some(BadVarName)
    else if Length(env[i].value) > MAX_PROFILE_ENV_VALUE_BYTES then Some(ValueTooLarge(env[i].name))
    else None
  }

  predicate FileOk(f: File) { SafePath(f.path) && Length(f.contents) <= MAX_PROFILE_FILE_BYTES }

  predicate VarOk(v: Var) { EnvName(v.name) && Length(v.value) <= MAX_PROFILE_ENV_VALUE_BYTES }

  ghost predicate FilesAccepted(files: seq<File>) {
    && |files| <= MAX_PROFILE_FILES
    && (forall i :: 0 <= i < |files| ==> FileOk(files[i]))
    && (forall i, j :: 0 <= i < j < |files| ==> files[i].path != files[j].path)
  }

  ghost predicate EnvAccepted(env: seq<Var>) {
    |env| <= MAX_PROFILE_ENV_VARS && forall i :: 0 <= i < |env| ==> VarOk(env[i])
  }

  /** Which error belongs to which fault, the earlier ones in this order first. */
  lemma FileFaultIs(files: seq<File>, i: nat)
    requires i < |files|
    ensures var f, fault := files[i], FileFault(files, i);
            var repeated := exists j :: 0 <= j < i && files[j].path == f.path;
            && (fault == Some(TooManyFiles) <==> i >= MAX_PROFILE_FILES)
            && (fault == Some(UnsafePath) <==> i < MAX_PROFILE_FILES && !SafePath(f.path))
            && (fault == Some(DuplicatePath) <==> i < MAX_PROFILE_FILES && SafePath(f.path) && repeated)
            && (fault == Some(FileTooLarge(f.path))
                <==> && i < MAX_PROFILE_FILES && SafePath(f.path) && !repeated
                     && Length(f.contents) > MAX_PROFILE_FILE_BYTES)
            && (fault == None || fault.value in {TooManyFiles, UnsafePath, DuplicatePath, FileTooLarge(f.path)})
  {
  }

  /** A variable's name is of capital letters, digits and underscores, and no digit comes first. */
  lemma EnvNameIff(name: string)
    ensures EnvName(name) <==> && name != "" && name[0] !in DIGITS
                               && forall c :: c in name ==> c in CAPITALS + DIGITS + "_"
  {
    forall c: char ensures EnvNameChar(c) <==> c in CAPITALS + DIGITS + "_" {
      IsCapital(c);
      IsDigit(c);
    }
    if name != "" {
      IsDigit(name[0]);
    }
  }

  lemma VarFaultIs(env: seq<Var>, i: nat)
    requires i < |env|
    ensures var v, fault := env[i], VarFault(env, i);
            && (fault == Some(TooManyVars) <==> i >= MAX_PROFILE_ENV_VARS)
            && (fault == Some(BadVarName) <==> i < MAX_PROFILE_ENV_VARS && !EnvName(v.name))
            && (fault == Some(ValueTooLarge(v.name))
                <==> i < MAX_PROFILE_ENV_VARS && EnvName(v.name) && Length(v.value) > MAX_PROFILE_ENV_VALUE_BYTES)
            && (fault == None || fault.value in {TooManyVars, BadVarName, ValueTooLarge(v.name)})
  {
  }

  lemma FilesFaultless(files: seq<File>)
    ensures FilesAccepted(files) <==> forall i :: 0 <= i < |files| ==> FileFault(files, i).None?
  {
    if forall i :: 0 <= i < |files| ==> FileFault(files, i).None? {
      assert |files| > MAX_PROFILE_FILES ==> FileFault(files, MAX_PROFILE_FILES) == Some(TooManyFiles);
      forall i, j | 0 <= i < j < |files| ensures files[i].path != files[j].path {
        assert FileFault(files, j).None?;
      }
      forall i | 0 <= i < |files| ensures FileOk(files[i]) {
        assert FileFault(files, i).None?;
      }
    } else {
      var i :| 0 <= i < |files| && FileFault(files, i).Some?;
      assert i < MAX_PROFILE_FILES ==> !FileOk(files[i]) || exists j :: 0 <= j < i && files[j].path == files[i].path;
    }
  }

  lemma EnvFaultless(env: seq<Var>)
    ensures EnvAccepted(env) <==> forall i :: 0 <= i < |env| ==> VarFault(env, i).None?
  {
    if forall i :: 0 <= i < |env| ==> VarFault(env, i).None? {
      assert |env| > MAX_PROFILE_ENV_VARS ==> VarFault(env, MAX_PROFILE_ENV_VARS) == Some(TooManyVars);
      forall i | 0 <= i < |env| ensures VarOk(env[i]) {
        assert VarFault(env, i).None?;
      }
    } else {
      var i :| 0 <= i < |env| && VarFault(env, i).Some?;
      assert i < MAX_PROFILE_ENV_VARS ==> !VarOk(env[i]);
    }
  }

  /** Accepted exactly when files and environment keep every limit; otherwise the error is that
      of the first entry at fault, files before variables. */
  method ValidateLaunchProfile(files: seq<File>, env: seq<Var>) returns (r: Option<ProfileError>)
    ensures r.None? <==> FilesAccepted(files) && EnvAccepted(env)
    ensures r.Some? ==> FirstFileFault(files, r) || (FilesAccepted(files) && FirstVarFault(env, r))
  {
    r := ValidateFiles(files);
    if r.None? {
      r := ValidateEnv(env);
    }
  }

  ghost predicate FirstFileFault(files: seq<File>, r: Option<ProfileError>) {
    exists i :: 0 <= i < |files| && FileFault(files, i) == r && forall j :: 0 <= j < i ==> FileFault(files, j).None?
  }

  ghost predicate FirstVarFault(env: seq<Var>, r: Option<ProfileError>) {
    exists i :: 0 <= i < |env| && VarFault(env, i) == r && forall j :: 0 <= j < i ==> VarFault(env, j).None?
  }

  method ValidateFiles(files: seq<File>) returns (r: Option<ProfileError>)
    ensures r.None? <==> FilesAccepted(files)
    ensures r.Some? ==> FirstFileFault(files, r)
  {
    FilesFaultless(files);
    var seen: set<string> := {};
    var count := 0;
    for k := 0 to |files|
      invariant count == k <= MAX_PROFILE_FILES
      invariant forall p :: p in seen <==> exists j :: 0 <= j < k && files[j].path == p
      invariant forall j :: 0 <= j < k ==> FileFault(files, j).None?
    {
      ghost var fault := FileFault(files, k);
      count := count + 1;
      if count > MAX_PROFILE_FILES {
        assert fault == Some(TooManyFiles);
        return Some(TooManyFiles);
      }
      if !SafePath(files[k].path) {
        assert fault == Some(UnsafePath);
        return Some(UnsafePath);
      }
      if files[k].path in seen {
        assert fault == Some(DuplicatePath);
        return Some(DuplicatePath);
      }
      seen := seen + {files[k].path};
      if Length(files[k].contents) > MAX_PROFILE_FILE_BYTES {
        assert fault == Some(FileTooLarge(files[k].path));
        return Some(FileTooLarge(files[k].path));
      }
      assert fault.None?;
    }
    return None;
  }

  method ValidateEnv(env: seq<Var>) returns (r: Option<ProfileError>)
    ensures r.None? <==> EnvAccepted(env)
    ensures r.Some? ==> FirstVarFault(env, r)
  {
    EnvFaultless(env);
    var count := 0;
    for k := 0 to |env|
      invariant count == k <= MAX_PROFILE_ENV_VARS
      invariant forall j :: 0 <= j < k ==> VarFault(env, j).None?
    {
      count := count + 1;
      if count > MAX_PROFILE_ENV_VARS {
        assert VarFault(env, k) == Some(TooManyVars);
        return Some(TooManyVars);
      }
      if !EnvName(env[k].name) {
        assert VarFault(env, k) == Some(BadVarName);
        return Some(BadVarName);
      }
      if Length(env[k].value) > MAX_PROFILE_ENV_VALUE_BYTES {
        assert VarFault(env, k) == Some(ValueTooLarge(env[k].name));
        return Some(ValueTooLarge(env[k].name));
      }
    }
    return None;
  }

  // ---------- Materialization ----------

  type Path = seq<Name>

  datatype Entry = Directory | Contents(text: string)

  type Disk = map<Path, Entry>

  function NamesOf(path: string): seq<Name> { Names(Components(path)) }

  /** A text that can name a file, and not only a directory: it does not end in `/` or `/.`. */
  predicate NamesFile(path: string) {
    var parts := Split(path);
    !IsSilent(parts[|parts| - 1])
  }

  /** How many bytes of a path's text the directory's own text leaves. */
  function Spare(directory: string): nat {
    if Length(directory) + 2 < PATH_MAX then PATH_MAX - 2 - Length(directory) else 0
  }

  /** A text the system takes, joined to the directory. */
  predicate Taken(text: string, spare: nat) { '\0' !in text && Length(text) <= spare }

  /** The system takes a path when the directory, a slash, the path and the final NUL are within
      its limit, and no NUL is inside. */
  lemma TakenIff(directory: string, text: string)
    requires text != ""
    ensures Taken(text, Spare(directory))
            <==> '\0' !in text && Length(directory + "/" + text) + 1 <= PATH_MAX
  {
    LengthAtLeast(text);
    LengthConcat(directory + "/", text);
    LengthConcat(directory, "/");
    AsciiLength("/");
  }

  /** `fs::create_dir_all`, for the places base/n1, base/n1/n2, ..., as far as it comes. */
  function MakeDirs(disk: Disk, base: Path, names: seq<Name>): (Disk, bool)
    decreases |names|
  {
    if names == [] then (disk, true)
    else
      var (d, ok) := MakeDirs(disk, base, names[..|names| - 1]);
      var p := base + names;
      if !ok then (d, false)
      else if p in d then (d, d[p].Directory?)
      else if Length(names[|names| - 1]) > NAME_MAX then (d, false)
      else (d[p := Directory], true)
  }

  /** The directories of one file; without any, nothing is asked of the system. */
  function MakeParents(disk: Disk, dir: Path, path: string, spare: nat): (Disk, bool)
    requires NamesOf(path) != []
  {
    var up := NamesOf(path)[..|NamesOf(path)| - 1];
    if up != [] && !Taken(Join(Leading(Split(path), |up|)), spare) then (disk, false)
    else MakeDirs(disk, dir, up)
  }

  /** The file itself can be opened for writing. */
  predicate Opens(disk: Disk, dir: Path, path: string, spare: nat)
    requires NamesOf(path) != []
  {
    var names := NamesOf(path);
    var target := dir + names;
    && NamesFile(path) && Taken(path, spare) && Length(names[|names| - 1]) <= NAME_MAX
    && !(target in disk && disk[target].Directory?)
  }

  /** One file: its directories, then the file itself. What a failing write has created stays. */
  function WriteFile(disk: Disk, dir: Path, f: File, spare: nat): (Disk, bool) {
    if NamesOf(f.path) == [] then (disk, false)
    else
      var (d, ok) := MakeParents(disk, dir, f.path, spare);
      if !ok || !Opens(d, dir, f.path, spare) then (d, false)
      else (d[dir + NamesOf(f.path) := Contents(f.contents)], true)
  }

  function WriteFiles(disk: Disk, dir: Path, files: seq<File>, spare: nat): (Disk, bool) {
    if files == [] then (disk, true)
    else
      var (d, ok) := WriteFiles(disk, dir, files[..|files| - 1], spare);
      if ok then WriteFile(d, dir, files[|files| - 1], spare) else (d, false)
  }

  /** The token wherever it stands, left to right, replaced. */
  function Expand(value: string, token: string, directory: string): string
    requires token != []
    decreases |value|
  {
    if value == [] then []
    else if token <= value then directory + Expand(value[|token|..], token, directory)
    else [value[0]] + Expand(value[1..], token, directory)
  }

  lemma SafePathHasNames(path: string)
    requires SafePath(path)
    ensures NamesOf(path) != []
  {
    var cs := Components(path);
    assert cs != [] && cs[0].Normal?;
  }

  class Profile {
    var disk: Disk

    constructor (disk: Disk)
      ensures this.disk == disk
    {
      this.disk := disk;
    }

    method WriteOne(dir: Path, f: File, spare: nat) returns (ok: bool)
      requires SafePath(f.path)
      modifies this
      ensures (disk, ok) == WriteFile(old(disk), dir, f, spare)
    {
      SafePathHasNames(f.path);
      var (made, parentsMade) := MakeParents(disk, dir, f.path, spare);
      disk := made;
      if !parentsMade || !Opens(disk, dir, f.path, spare) {
        return false;
      }
      disk := disk[dir + NamesOf(f.path) := Contents(f.contents)];
      return true;
    }

    /** The files one by one, stopping at the first that fails. */
    method WriteAll(dir: Path, files: seq<File>, spare: nat) returns (ok: bool)
      requires forall i :: 0 <= i < |files| ==> SafePath(files[i].path)
      modifies this
      ensures (disk, ok) == WriteFiles(old(disk), dir, files, spare)
    {
      var i := 0;
      while i < |files|
        invariant 0 <= i <= |files|
        invariant WriteFiles(old(disk), dir, files[..i], spare) == (disk, true)
      {
        ok := WriteOne(dir, files[i], spare);
        WriteFilesStep(old(disk), dir, files, spare, i);
        if !ok {
          FailureStays(old(disk), dir, files, spare, i + 1);
          return;
        }
        i := i + 1;
      }
      assert files[..|files|] == files;
      return true;
    }

    /** The files, then the environment with the directory put in. */
    method Materialize(dir: Path, directory: string, files: seq<File>, env: seq<Var>)
      returns (r: Option<seq<Var>>)
      requires forall i :: 0 <= i < |files| ==> SafePath(files[i].path)
      modifies this
      ensures (disk, r.Some?) == WriteFiles(old(disk), dir, files, Spare(directory))
      ensures r.Some? ==> |r.value| == |env| && forall i :: 0 <= i < |env| ==>
                r.value[i] == Var(env[i].name, Expand(env[i].value, PROFILE_DIR_TOKEN, directory))
    {
      var ok := WriteAll(dir, files, Spare(directory));
      if !ok {
        return None;
      }
      var resolved: seq<Var> := [];
      for k := 0 to |env|
        invariant |resolved| == k
        invariant forall j :: 0 <= j < k ==>
                    resolved[j] == Var(env[j].name, Expand(env[j].value, PROFILE_DIR_TOKEN, directory))
      {
        var expanded := Expand(env[k].value, PROFILE_DIR_TOKEN, directory);
        resolved := resolved + [Var(env[k].name, expanded)];
      }
      return Some(resolved);
    }
  }

  lemma WriteFilesStep(disk: Disk, dir: Path, files: seq<File>, spare: nat, i: nat)
    requires i < |files|
    ensures WriteFiles(disk, dir, files[..i + 1], spare)
         == var (d, ok) := WriteFiles(disk, dir, files[..i], spare);
            if ok then WriteFile(d, dir, files[i], spare) else (d, false)
  {
    assert files[..i + 1][..i] == files[..i];
  }

  lemma {:induction false} FailureStays(disk: Disk, dir: Path, files: seq<File>, spare: nat, n: nat)
    requires n <= |files| && !WriteFiles(disk, dir, files[..n], spare).1
    ensures WriteFiles(disk, dir, files, spare) == WriteFiles(disk, dir, files[..n], spare)
    decreases |files|
  {
    if n == |files| {
      assert files[..n] == files;
    } else {
      assert files[..|files| - 1][..n] == files[..n];
      FailureStays(disk, dir, files[..|files| - 1], spare, n);
    }
  }

  // ---------- What is written ----------

  function At(disk: Disk, p: Path): Option<Entry> { if p in disk then Some(disk[p]) else None }

  /** The last contents given for a place. */
  function Lookup(files: seq<File>, names: seq<Name>): Option<string> {
    if files == [] then None
    else if NamesOf(files[|files| - 1].path) == names then Some(files[|files| - 1].contents)
    else Lookup(files[..|files| - 1], names)
  }

  predicate ProperPrefix(x: seq<Name>, y: seq<Name>) { |x| < |y| && x == y[..|x|] }

  ghost predicate Above(files: seq<File>, names: seq<Name>) {
    exists i :: 0 <= i < |files| && ProperPrefix(names, NamesOf(files[i].path))
  }

  /** What the profile asks for at a place below its directory: the last contents given for
      it, a directory on the way to a file, or nothing. */
  ghost function Wanted(files: seq<File>, names: seq<Name>): Option<Entry> {
    if Lookup(files, names).Some? then Some(Contents(Lookup(files, names).value))
    else if Above(files, names) then Some(Directory)
    else None
  }

  ghost predicate Holds(disk: Disk, dir: Path, files: seq<File>) {
    forall names :: names != [] ==> At(disk, dir + names) == Wanted(files, names)
  }

  /** The text names a file, and neither it nor a name in it is more than the system takes. */
  predicate Writable(f: File, spare: nat) {
    && NamesOf(f.path) != [] && NamesFile(f.path) && Taken(f.path, spare)
    && forall i :: 0 <= i < |NamesOf(f.path)| ==> Length(NamesOf(f.path)[i]) <= NAME_MAX
  }

  /** Every text names a file the system takes, and no file is to be an ancestor of another. */
  ghost predicate Clean(files: seq<File>, spare: nat) {
    && (forall i :: 0 <= i < |files| ==> Writable(files[i], spare))
    && (forall i, j :: 0 <= i < |files| && 0 <= j < |files| ==>
          !ProperPrefix(NamesOf(files[i].path), NamesOf(files[j].path)))
  }

  lemma {:induction false} LookupIff(files: seq<File>, names: seq<Name>)
    ensures Lookup(files, names).Some? <==> exists i :: 0 <= i < |files| && NamesOf(files[i].path) == names
  {
    if files != [] {
      var n := |files| - 1;
      LookupIff(files[..n], names);
      assert forall i :: 0 <= i < n ==> files[..n][i] == files[i];
    }
  }

  lemma {:induction false} MakeDirsIs(disk: Disk, base: Path, names: seq<Name>, m: seq<Name>)
    requires m != []
    ensures var (d, ok) := MakeDirs(disk, base, names);
            && (ok ==> At(d, base + m)
                       == if m == names[..if |m| <= |names| then |m| else 0] then Some(Directory)
                          else At(disk, base + m))
            && (|m| > |names| ==> At(d, base + m) == At(disk, base + m))
    decreases |names|
  {
    if names != [] {
      var n := |names| - 1;
      MakeDirsIs(disk, base, names[..n], m);
      assert |m| <= n ==> names[..n][..|m|] == names[..|m|];
      SamePlace(base, m, names);
      assert names[..|names|] == names;
    }
  }

  /** A file stands there, or a name that cannot be given. */
  predicate Blocked(disk: Disk, base: Path, names: seq<Name>, k: nat)
    requires 0 < k <= |names|
  {
    match At(disk, base + names[..k])
    case Some(entry) => entry.Contents?
    case None => Length(names[k - 1]) > NAME_MAX
  }

  lemma {:induction false} MakeDirsFails(disk: Disk, base: Path, names: seq<Name>)
    ensures !MakeDirs(disk, base, names).1 <==> exists k :: 0 < k <= |names| && Blocked(disk, base, names, k)
    decreases |names|
  {
    if names != [] {
      var n := |names| - 1;
      MakeDirsFails(disk, base, names[..n]);
      MakeDirsIs(disk, base, names[..n], names);
      assert names[..|names|] == names;
      forall k | 0 < k <= n ensures Blocked(disk, base, names, k) <==> Blocked(disk, base, names[..n], k) {
        assert names[..n][..k] == names[..k];
      }
      assert MakeDirs(disk, base, names).1
        <==> MakeDirs(disk, base, names[..n]).1 && !Blocked(disk, base, names, |names|);
    }
  }

  lemma {:induction false} MakeDirsFrame(disk: Disk, base: Path, names: seq<Name>, p: Path)
    requires !(base <= p) || p == base
    ensures At(MakeDirs(disk, base, names).0, p) == At(disk, p)
    decreases |names|
  {
    if names != [] {
      MakeDirsFrame(disk, base, names[..|names| - 1], p);
      assert p == base + names ==> base <= p && p != base;
    }
  }

  lemma WriteFileFrame(disk: Disk, dir: Path, f: File, spare: nat, p: Path)
    requires !(dir <= p) || p == dir
    ensures At(WriteFile(disk, dir, f, spare).0, p) == At(disk, p)
  {
    var names := NamesOf(f.path);
    if names != [] {
      MakeDirsFrame(disk, dir, names[..|names| - 1], p);
      assert p != dir + names;
    }
  }

  /** Nothing outside the directory is touched, whether the writing succeeds or not. */
  lemma {:induction false} OnlyBelowDir(disk: Disk, dir: Path, files: seq<File>, spare: nat, p: Path)
    requires !(dir <= p) || p == dir
    ensures At(WriteFiles(disk, dir, files, spare).0, p) == At(disk, p)
    decreases |files|
  {
    if files != [] {
      var n := |files| - 1;
      OnlyBelowDir(disk, dir, files[..n], spare, p);
      WriteFileFrame(WriteFiles(disk, dir, files[..n], spare).0, dir, files[n], spare, p);
    }
  }

  lemma CleanExtend(files: seq<File>, f: File, spare: nat)
    requires Clean(files, spare)
    ensures var n := NamesOf(f.path);
            Clean(files + [f], spare) <==>
              Writable(f, spare) && forall i :: 0 <= i < |files| ==>
                !ProperPrefix(NamesOf(files[i].path), n) && !ProperPrefix(n, NamesOf(files[i].path))
  {
    var all := files + [f];
    assert all[|files|] == f && forall i :: 0 <= i < |files| ==> all[i] == files[i];
    if Clean(all, spare) {
      forall i | 0 <= i < |files|
        ensures !ProperPrefix(NamesOf(files[i].path), NamesOf(f.path))
        ensures !ProperPrefix(NamesOf(f.path), NamesOf(files[i].path))
      {
        assert files[i] == all[i];
      }
    }
  }

  /** What one more file changes in what is wanted. */
  lemma WantedExtend(files: seq<File>, f: File, spare: nat, m: seq<Name>)
    requires Clean(files + [f], spare) && m != []
    ensures var n := NamesOf(f.path);
            Wanted(files + [f], m)
            == if m == n then Some(Contents(f.contents))
               else if ProperPrefix(m, n) then Some(Directory)
               else Wanted(files, m)
  {
    var all := files + [f];
    assert all[..|files|] == files && all[|files|] == f;
    assert forall i :: 0 <= i < |files| ==> all[i] == files[i];
    LookupIff(files, m);
    if ProperPrefix(m, NamesOf(f.path)) {
      assert ProperPrefix(m, NamesOf(all[|files|].path));
      forall i | 0 <= i < |files| ensures NamesOf(files[i].path) != m {
        assert !ProperPrefix(NamesOf(all[i].path), NamesOf(all[|files|].path));
      }
    } else {
      assert Above(all, m) <==> Above(files, m);
    }
  }

  /** What the files so far have put below the directory has names that can be given. */
  lemma WantedNamesFit(files: seq<File>, spare: nat, m: seq<Name>)
    requires Clean(files, spare) && m != [] && Wanted(files, m).Some?
    ensures Length(m[|m| - 1]) <= NAME_MAX
  {
    LookupIff(files, m);
    var i :| 0 <= i < |files| && (NamesOf(files[i].path) == m || ProperPrefix(m, NamesOf(files[i].path)));
    assert Writable(files[i], spare) && NamesOf(files[i].path)[|m| - 1] == m[|m| - 1];
  }

  lemma BlockedIff(disk: Disk, dir: Path, files: seq<File>, spare: nat, n: seq<Name>, k: nat)
    requires Holds(disk, dir, files) && Clean(files, spare) && 0 < k < |n|
    ensures Blocked(disk, dir, n[..|n| - 1], k)
            <==> (exists i :: 0 <= i < |files| && NamesOf(files[i].path) == n[..k]) || Length(n[k - 1]) > NAME_MAX
  {
    var up := n[..|n| - 1];
    assert up[..k] == n[..k] && n[..k][k - 1] == n[k - 1];
    assert At(disk, dir + n[..k]) == Wanted(files, n[..k]);
    LookupIff(files, n[..k]);
    if Wanted(files, n[..k]).Some? {
      WantedNamesFit(files, spare, n[..k]);
    }
  }

  /** The directories can be made exactly when no file given before stands in their way and each
      of their names can be given. */
  lemma MakeDirsIffClear(disk: Disk, dir: Path, files: seq<File>, spare: nat, n: seq<Name>)
    requires Holds(disk, dir, files) && Clean(files, spare) && n != []
    ensures MakeDirs(disk, dir, n[..|n| - 1]).1 <==>
              && (forall i :: 0 <= i < |files| ==> !ProperPrefix(NamesOf(files[i].path), n))
              && (forall k :: 0 <= k < |n| - 1 ==> Length(n[k]) <= NAME_MAX)
  {
    var up := n[..|n| - 1];
    MakeDirsFails(disk, dir, up);
    forall k | 0 < k < |n|
      ensures Blocked(disk, dir, up, k)
              <==> (exists i :: 0 <= i < |files| && NamesOf(files[i].path) == n[..k]) || Length(n[k - 1]) > NAME_MAX
    {
      BlockedIff(disk, dir, files, spare, n, k);
    }
    if MakeDirs(disk, dir, up).1 {
      forall i | 0 <= i < |files| ensures !ProperPrefix(NamesOf(files[i].path), n) {
        var m := NamesOf(files[i].path);
        assert Writable(files[i], spare);
        assert 0 < |m| < |n| ==> !Blocked(disk, dir, up, |m|);
      }
      forall k | 0 <= k < |n| - 1 ensures Length(n[k]) <= NAME_MAX {
        assert !Blocked(disk, dir, up, k + 1);
      }
    } else {
      var k :| 0 < k <= |up| && Blocked(disk, dir, up, k);
      if Length(n[k - 1]) <= NAME_MAX {
        var i :| 0 <= i < |files| && NamesOf(files[i].path) == n[..k];
        assert ProperPrefix(NamesOf(files[i].path), n);
      }
    }
  }

  lemma AfterMakeDirs(disk: Disk, dir: Path, files: seq<File>, n: seq<Name>, m: seq<Name>)
    requires Holds(disk, dir, files) && n != [] && m != [] && MakeDirs(disk, dir, n[..|n| - 1]).1
    ensures At(MakeDirs(disk, dir, n[..|n| - 1]).0, dir + m)
         == if ProperPrefix(m, n) then Some(Directory) else Wanted(files, m)
  {
    var up := n[..|n| - 1];
    MakeDirsIs(disk, dir, up, m);
    assert |m| <= |up| ==> up[..|m|] == n[..|m|];
    assert At(disk, dir + m) == Wanted(files, m);
  }

  /** A text that is taken has a parent text that is taken. */
  lemma ParentTaken(path: string, k: nat, spare: nat)
    requires Taken(path, spare)
    ensures Taken(Join(Leading(Split(path), k)), spare)
  {
    var parent := Join(Leading(Split(path), k));
    LeadingIsPrefix(Split(path), k);
    JoinSplit(path);
    LengthSplit(path, |parent|);
    assert path[..|parent|] == parent;
    assert forall c :: c in parent ==> c in path;
  }

  lemma ParentsMadeIff(disk: Disk, dir: Path, files: seq<File>, spare: nat, f: File)
    requires Holds(disk, dir, files) && Clean(files, spare) && NamesOf(f.path) != [] && Taken(f.path, spare)
    ensures var n := NamesOf(f.path);
            && MakeParents(disk, dir, f.path, spare) == MakeDirs(disk, dir, n[..|n| - 1])
            && (MakeParents(disk, dir, f.path, spare).1 <==>
                  && (forall i :: 0 <= i < |files| ==> !ProperPrefix(NamesOf(files[i].path), n))
                  && (forall k :: 0 <= k < |n| - 1 ==> Length(n[k]) <= NAME_MAX))
  {
    var n := NamesOf(f.path);
    ParentTaken(f.path, |n| - 1, spare);
    MakeDirsIffClear(disk, dir, files, spare, n);
  }

  lemma OpensIff(disk: Disk, dir: Path, files: seq<File>, spare: nat, f: File)
    requires Holds(disk, dir, files) && Clean(files, spare) && NamesOf(f.path) != []
    requires MakeDirs(disk, dir, NamesOf(f.path)[..|NamesOf(f.path)| - 1]).1
    ensures var n := NamesOf(f.path);
            Opens(MakeDirs(disk, dir, n[..|n| - 1]).0, dir, f.path, spare)
            <==> && NamesFile(f.path) && Taken(f.path, spare) && Length(n[|n| - 1]) <= NAME_MAX
                 && forall i :: 0 <= i < |files| ==> !ProperPrefix(n, NamesOf(files[i].path))
  {
    var n := NamesOf(f.path);
    AfterMakeDirs(disk, dir, files, n, n);
    AboveMeansUnder(files, spare, n);
  }

  lemma AllButLast(n: seq<Name>)
    requires n != []
    ensures (forall k :: 0 <= k < |n| ==> Length(n[k]) <= NAME_MAX)
            <==> (forall k :: 0 <= k < |n| - 1 ==> Length(n[k]) <= NAME_MAX) && Length(n[|n| - 1]) <= NAME_MAX
  {
  }

  /** One more file succeeds exactly when the files stay clean, and then the place holds it. */
  lemma WriteStep(disk: Disk, dir: Path, files: seq<File>, spare: nat, f: File)
    requires Holds(disk, dir, files) && Clean(files, spare)
    ensures WriteFile(disk, dir, f, spare).1 <==> Clean(files + [f], spare)
  {
    CleanExtend(files, f, spare);
    if NamesOf(f.path) != [] && Taken(f.path, spare) {
      ParentsMadeIff(disk, dir, files, spare, f);
      AllButLast(NamesOf(f.path));
      if MakeParents(disk, dir, f.path, spare).1 {
        OpensIff(disk, dir, files, spare, f);
      }
    }
  }

  lemma AboveMeansUnder(files: seq<File>, spare: nat, n: seq<Name>)
    requires Clean(files, spare)
    ensures Wanted(files, n) == Some(Directory)
            <==> exists i :: 0 <= i < |files| && ProperPrefix(n, NamesOf(files[i].path))
  {
    LookupIff(files, n);
    forall i, j | 0 <= i < |files| && 0 <= j < |files|
      ensures !(NamesOf(files[i].path) == n && ProperPrefix(n, NamesOf(files[j].path)))
    {
      assert !ProperPrefix(NamesOf(files[i].path), NamesOf(files[j].path));
    }
  }

  lemma SamePlace(dir: Path, m: seq<Name>, n: seq<Name>)
    ensures dir + m == dir + n <==> m == n
  {
    assert (dir + m)[|dir|..] == m && (dir + n)[|dir|..] == n;
  }

  lemma WriteStepHolds(disk: Disk, dir: Path, files: seq<File>, spare: nat, f: File)
    requires Holds(disk, dir, files) && Clean(files, spare) && Clean(files + [f], spare)
    requires WriteFile(disk, dir, f, spare).1
    ensures Holds(WriteFile(disk, dir, f, spare).0, dir, files + [f])
  {
    var n := NamesOf(f.path);
    var d := WriteFile(disk, dir, f, spare).0;
    CleanExtend(files, f, spare);
    ParentsMadeIff(disk, dir, files, spare, f);
    forall m | m != [] ensures At(d, dir + m) == Wanted(files + [f], m) {
      AfterMakeDirs(disk, dir, files, n, m);
      WantedExtend(files, f, spare, m);
      SamePlace(dir, m, n);
    }
  }

  /** Into a fresh directory: writing succeeds exactly when every text names a file the system
      takes and none is to be an ancestor of another; then the directory holds what the profile
      asks for and nothing else. */
  lemma {:induction false} MaterializedExactly(disk: Disk, dir: Path, files: seq<File>, spare: nat)
    requires forall names :: names != [] ==> dir + names !in disk
    ensures WriteFiles(disk, dir, files, spare).1 <==> Clean(files, spare)
    ensures Clean(files, spare) ==> Holds(WriteFiles(disk, dir, files, spare).0, dir, files)
    decreases |files|
  {
    if files != [] {
      var n := |files| - 1;
      MaterializedExactly(disk, dir, files[..n], spare);
      if Clean(files[..n], spare) {
        WriteLast(WriteFiles(disk, dir, files[..n], spare).0, dir, files, spare);
      } else {
        CleanPrefix(files, spare, n);
      }
    }
  }

  lemma CleanPrefix(files: seq<File>, spare: nat, n: nat)
    requires n <= |files|
    ensures Clean(files, spare) ==> Clean(files[..n], spare)
  {
    assert forall i :: 0 <= i < n ==> files[..n][i] == files[i];
  }

  lemma WriteLast(disk: Disk, dir: Path, files: seq<File>, spare: nat)
    requires files != [] && Clean(files[..|files| - 1], spare) && Holds(disk, dir, files[..|files| - 1])
    ensures var (d, ok) := WriteFile(disk, dir, files[|files| - 1], spare);
            (ok <==> Clean(files, spare)) && (ok ==> Holds(d, dir, files))
  {
    var before, f := files[..|files| - 1], files[|files| - 1];
    assert files == before + [f];
    WriteStep(disk, dir, before, spare, f);
    if Clean(files, spare) {
      WriteStepHolds(disk, dir, before, spare, f);
    }
  }

  /** A file reads back as given exactly when no later file with the same names differs from
      it; in particular always when no two files have the same names. */
  lemma ReadsBackIffNotOverwritten(disk: Disk, dir: Path, files: seq<File>, spare: nat, i: nat)
    requires forall names :: names != [] ==> dir + names !in disk
    requires Clean(files, spare) && i < |files|
    ensures var n := NamesOf(files[i].path);
            At(WriteFiles(disk, dir, files, spare).0, dir + n) == Some(Contents(files[i].contents))
            <==> Lookup(files, n) == Some(files[i].contents)
    ensures (forall j :: i < j < |files| ==> NamesOf(files[j].path) != NamesOf(files[i].path)) ==>
              Lookup(files, NamesOf(files[i].path)) == Some(files[i].contents)
  {
    var n := NamesOf(files[i].path);
    MaterializedExactly(disk, dir, files, spare);
    LookupIff(files, n);
    assert Writable(files[i], spare);
    if forall j :: i < j < |files| ==> NamesOf(files[j].path) != n {
      LookupLast(files, i);
    }
  }

  lemma {:induction false} LookupLast(files: seq<File>, i: nat)
    requires i < |files|
    requires forall j :: i < j < |files| ==> NamesOf(files[j].path) != NamesOf(files[i].path)
    ensures Lookup(files, NamesOf(files[i].path)) == Some(files[i].contents)
    decreases |files|
  {
    if i < |files| - 1 {
      LookupLast(files[..|files| - 1], i);
    }
  }

  // ---------- Where texts and names part ----------

  /** The check compares paths as texts, the directory as names: for any two names an accepted
      profile can write one place twice and lose the first contents. */
  lemma AcceptedMayOverwrite(a: Name, b: Name, x: string, y: string, spare: nat)
    requires IsPlain(a) && IsPlain(b) && Length(a) <= NAME_MAX && Length(b) <= NAME_MAX
    requires Taken(a + ['/'] + b, spare) && Taken(a + ['/'] + (['/'] + b), spare)
    requires Length(x) <= MAX_PROFILE_FILE_BYTES && Length(y) <= MAX_PROFILE_FILE_BYTES
    ensures var files := [File(a + ['/'] + b, x), File(a + ['/'] + (['/'] + b), y)];
            FilesAccepted(files) && Clean(files, spare) && Lookup(files, [a, b]) == Some(y)
  {
    DoubledSlash(a, b);
    NamesOfTwo(a, b);
    var f, g := File(a + ['/'] + b, x), File(a + ['/'] + (['/'] + b), y);
    assert NamesOf(f.path) == [a, b] && NamesOf(g.path) == [a, b];
    assert Writable(f, spare) && Writable(g, spare) && FileOk(f) && FileOk(g);
    TwoForOne(f, g, spare);
  }

  lemma TwoForOne(f: File, g: File, spare: nat)
    requires Writable(f, spare) && Writable(g, spare) && FileOk(f) && FileOk(g)
    requires f.path != g.path && NamesOf(f.path) == NamesOf(g.path)
    ensures FilesAccepted([f, g]) && Clean([f, g], spare) && Lookup([f, g], NamesOf(f.path)) == Some(g.contents)
  {
  }

  /** Accepted profiles whose files cannot be written: the text names a directory only, or the
      name is longer than any may be. */
  lemma AcceptedMayFail(a: Name, x: string, spare: nat)
    requires IsPlain(a) && Length(x) <= MAX_PROFILE_FILE_BYTES
    ensures FilesAccepted([File(a + ['/'], x)]) && !Clean([File(a + ['/'], x)], spare)
    ensures Length(a) > NAME_MAX ==> FilesAccepted([File(a, x)]) && !Clean([File(a, x)], spare)
  {
    TrailingSlash(a);
    var f := File(a + ['/'], x);
    assert FileOk(f) && !Writable(f, spare);
    assert [f][0] == f;
    OneName(a);
    var g := File(a, x);
    assert FileOk(g) && NamesOf(g.path)[0] == a;
    assert [g][0] == g;
  }

  lemma OneName(a: Name)
    requires IsPlain(a)
    ensures SafePath(a) && NamesOf(a) == [a]
  {
    JoinedComponents([a]);
    PlainMeaningful([a]);
    assert Join([a]) == a;
  }

  // ---------- The environment ----------

  /** The pieces between occurrences of the token, found left to right. */
  function SplitOn(value: string, token: string): (r: seq<string>)
    requires token != []
    ensures r != []
    decreases |value|
  {
    if value == [] then [[]]
    else if token <= value then [[]] + SplitOn(value[|token|..], token)
    else
      var rest := SplitOn(value[1..], token);
      [[value[0]] + rest[0]] + rest[1..]
  }

  function JoinWith(parts: seq<string>, glue: string): string
    requires parts != []
  {
    if |parts| == 1 then parts[0] else parts[0] + glue + JoinWith(parts[1..], glue)
  }

  lemma JoinHead(c: char, parts: seq<string>, glue: string)
    requires parts != []
    ensures JoinWith([[c] + parts[0]] + parts[1..], glue) == [c] + JoinWith(parts, glue)
  {
    var longer := [[c] + parts[0]] + parts[1..];
    assert longer[1..] == parts[1..];
    if |parts| > 1 {
      assert [c] + parts[0] + glue + JoinWith(parts[1..], glue) == [c] + (parts[0] + glue + JoinWith(parts[1..], glue));
    }
  }

  lemma JoinEmptyHead(parts: seq<string>, glue: string)
    requires parts != []
    ensures JoinWith([[]] + parts, glue) == glue + JoinWith(parts, glue)
  {
    assert ([[]] + parts)[1..] == parts;
    assert [] + glue == glue;
  }

  /** Expanding is cutting at the token and joining the pieces with the directory. */
  lemma {:induction false} ExpandIsSplitJoin(value: string, token: string, directory: string)
    requires token != []
    ensures Expand(value, token, directory) == JoinWith(SplitOn(value, token), directory)
    decreases |value|
  {
    if value != [] {
      if token <= value {
        ExpandIsSplitJoin(value[|token|..], token, directory);
        JoinEmptyHead(SplitOn(value[|token|..], token), directory);
      } else {
        ExpandIsSplitJoin(value[1..], token, directory);
        JoinHead(value[0], SplitOn(value[1..], token), directory);
      }
    }
  }

  /** Cutting loses nothing: a token that stands for itself expands to the same value. */
  lemma {:induction false} ExpandItself(value: string, token: string)
    requires token != []
    ensures Expand(value, token, token) == value
    decreases |value|
  {
    if value != [] {
      if token <= value {
        ExpandItself(value[|token|..], token);
        assert value == token + value[|token|..];
      } else {
        ExpandItself(value[1..], token);
      }
    }
  }

  predicate OccursAt(s: string, token: string, k: nat) {
    k + |token| <= |s| && s[k..k + |token|] == token
  }

  /** The first piece is where the value starts, and the token is not in it. */
  lemma {:induction false} PiecesAreFree(value: string, token: string)
    requires token != []
    ensures SplitOn(value, token)[0] <= value
    ensures forall i, k: nat :: 0 <= i < |SplitOn(value, token)| ==> !OccursAt(SplitOn(value, token)[i], token, k)
    decreases |value|
  {
    if value != [] {
      if token <= value {
        PiecesAreFree(value[|token|..], token);
      } else {
        PiecesAreFree(value[1..], token);
        FirstPieceFree(value, token, SplitOn(value[1..], token)[0]);
      }
    }
  }

  lemma FirstPieceFree(value: string, token: string, piece: string)
    requires token != [] && value != [] && !(token <= value) && piece <= value[1..]
    requires forall k: nat :: !OccursAt(piece, token, k)
    ensures forall k: nat :: !OccursAt([value[0]] + piece, token, k)
  {
    var p := [value[0]] + piece;
    assert p <= value;
    forall k: nat ensures !OccursAt(p, token, k) {
      if k > 0 && k + |token| <= |p| {
        assert p[k..k + |token|] == piece[k - 1..k - 1 + |token|];
        assert !OccursAt(piece, token, k - 1);
      } else if k == 0 && |token| <= |p| {
        assert p[..|token|] == value[..|token|];
      }
    }
  }

  lemma {:induction false} JoinedIsFree(parts: seq<string>, glue: string, token: string, k: nat)
    requires parts != [] && token != [] && glue != [] && glue[0] !in token && token[0] !in glue
    requires forall i, j: nat :: 0 <= i < |parts| ==> !OccursAt(parts[i], token, j)
    ensures !OccursAt(JoinWith(parts, glue), token, k)
    decreases |parts|
  {
    if |parts| > 1 {
      var p, rest := parts[0], JoinWith(parts[1..], glue);
      forall j: nat ensures !OccursAt(rest, token, j) {
        JoinedIsFree(parts[1..], glue, token, j);
      }
      GluedIsFree(p, glue, rest, token, k);
    }
  }

  lemma GluedIsFree(p: string, glue: string, rest: string, token: string, k: nat)
    requires token != [] && glue != [] && glue[0] !in token && token[0] !in glue
    requires forall j: nat :: !OccursAt(p, token, j) && !OccursAt(rest, token, j)
    ensures !OccursAt(p + glue + rest, token, k)
  {
    var s := p + glue + rest;
    if k + |token| <= |s| {
      var w := s[k..k + |token|];
      if k + |token| <= |p| {
        assert w == p[k..k + |token|];
        assert !OccursAt(p, token, k);
      } else if k < |p| {
        assert s[|p|] == glue[0];
        assert w[|p| - k] == glue[0];
      } else if k < |p| + |glue| {
        assert w[0] == glue[k - |p|];
      } else {
        var j := k - |p| - |glue|;
        assert w == rest[j..j + |token|];
        assert !OccursAt(rest, token, j);
      }
    }
  }

  /** With an absolute directory that has no brace in it, no token is left, not even one made
      by the pieces coming together. */
  lemma NoTokenLeft(value: string, directory: string, k: nat)
    requires directory != [] && directory[0] == '/' && '{' !in directory
    ensures !OccursAt(Expand(value, PROFILE_DIR_TOKEN, directory), PROFILE_DIR_TOKEN, k)
  {
    ExpandIsSplitJoin(value, PROFILE_DIR_TOKEN, directory);
    PiecesAreFree(value, PROFILE_DIR_TOKEN);
    JoinedIsFree(SplitOn(value, PROFILE_DIR_TOKEN), directory, PROFILE_DIR_TOKEN, k);
  }
}
