/** The acceptance of a repository snapshot that comes with a new workspace. */
module Snapshot {
  import opened Wrappers
  import opened Bytes
  import opened PathText
  import opened RustText

  const MAX_FILES: nat := 500
  const MAX_TOTAL_BYTES: nat := 0x30_0000
  const MAX_FILE_BYTES: nat := 0x10_0000
  const MAX_PATH_BYTES: nat := 4096
  const USIZE_MAX: nat := 0xFFFF_FFFF_FFFF_FFFF

  datatype SnapshotFile = SnapshotFile(path: string, mode: string, contentBase64: string)

  datatype Snapshot = Snapshot(files: seq<SnapshotFile>, totalBytes: nat)

  datatype Fault = LimitsExceeded | UnsafeEntry | InvalidBase64 | FileTooLarge | SizeOverflow | SizeMismatch

  /** What base64 text stands for, if anything. */
  type Decoder = string -> Option<seq<Byte>>

  function Lower(c: char): char {
    if 'A' <= c <= 'Z' then (c as int + 32) as char else c
  }

  predicate EqIgnoreAsciiCase(s: string, t: string) {
    |s| == |t| && forall i :: 0 <= i < |s| ==> Lower(s[i]) == Lower(t[i])
  }

  predicate Unsafe(c: Component) { !c.Normal? || EqIgnoreAsciiCase(c.name, ".git") }

  predicate SafePath(path: string) {
    && path != [] && Length(path) <= MAX_PATH_BYTES && '\0' !in path && !IsAbsolute(path)
    && forall i :: 0 <= i < |Components(path)| ==> !Unsafe(Components(path)[i])
  }

  predicate LegalMode(mode: string) { mode == "100644" || mode == "100755" || mode == "120000" }

  predicate SafeEntry(f: SnapshotFile) { SafePath(f.path) && LegalMode(f.mode) }

  predicate SmallContent(f: SnapshotFile, decode: Decoder) {
    decode(f.contentBase64).Some? && |decode(f.contentBase64).value| <= MAX_FILE_BYTES
  }

  function DecodedTotal(files: seq<SnapshotFile>, decode: Decoder): nat {
    if files == [] then 0
    else
      var last := decode(files[|files| - 1].contentBase64);
      DecodedTotal(files[..|files| - 1], decode) + if last.Some? then |last.value| else 0
  }

  /** What a snapshot must be like, in no particular order. */
  ghost predicate Accepted(s: Snapshot, decode: Decoder) {
    && |s.files| <= MAX_FILES && s.totalBytes <= MAX_TOTAL_BYTES
    && (forall i :: 0 <= i < |s.files| ==> SafeEntry(s.files[i]) && SmallContent(s.files[i], decode))
    && (forall i, j :: 0 <= i < j < |s.files| ==> s.files[i].path != s.files[j].path)
    && DecodedTotal(s.files, decode) == s.totalBytes
  }

  /** What is wrong with file i, the earlier ones given. */
  function FileFault(files: seq<SnapshotFile>, i: nat, decode: Decoder): Option<Fault>
    requires i < |files|
  {
    if !SafeEntry(files[i]) || exists j :: 0 <= j < i && files[j].path == files[i].path then Some(UnsafeEntry)
    else if decode(files[i].contentBase64).None? then Some(InvalidBase64)
    else if !SmallContent(files[i], decode) then Some(FileTooLarge)
    else None
  }

  /** Which error belongs to which fault. */
  lemma FileFaultIs(files: seq<SnapshotFile>, i: nat, decode: Decoder)
    requires i < |files|
    ensures var f, fault := files[i], FileFault(files, i, decode);
            var unsafe := !SafePath(f.path) || !LegalMode(f.mode) || exists j :: 0 <= j < i && files[j].path == f.path;
            && (fault == Some(UnsafeEntry) <==> unsafe)
            && (fault == Some(InvalidBase64) <==> !unsafe && decode(f.contentBase64).None?)
            && (fault == Some(FileTooLarge)
                <==> !unsafe && decode(f.contentBase64).Some? && |decode(f.contentBase64).value| > MAX_FILE_BYTES)
            && (fault == None || fault.value in {UnsafeEntry, InvalidBase64, FileTooLarge})
  {
  }

  ghost predicate FirstFileFault(files: seq<SnapshotFile>, decode: Decoder, fault: Fault) {
    exists i :: 0 <= i < |files| && FileFault(files, i, decode) == Some(fault)
                && forall j :: 0 <= j < i ==> FileFault(files, j, decode).None?
  }

  lemma FaultlessIffGood(files: seq<SnapshotFile>, decode: Decoder)
    ensures (forall i :: 0 <= i < |files| ==> FileFault(files, i, decode).None?) <==>
              && (forall i :: 0 <= i < |files| ==> SafeEntry(files[i]) && SmallContent(files[i], decode))
              && (forall i, j :: 0 <= i < j < |files| ==> files[i].path != files[j].path)
  {
    if forall i :: 0 <= i < |files| ==> FileFault(files, i, decode).None? {
      forall i, j | 0 <= i < j < |files| ensures files[i].path != files[j].path {
        assert FileFault(files, j, decode).None?;
      }
      forall i | 0 <= i < |files| ensures SafeEntry(files[i]) && SmallContent(files[i], decode) {
        assert FileFault(files, i, decode).None?;
      }
    } else {
      var i :| 0 <= i < |files| && FileFault(files, i, decode).Some?;
      assert !SafeEntry(files[i]) || !SmallContent(files[i], decode)
        || exists j :: 0 <= j < i && files[j].path == files[i].path;
    }
  }

  lemma TotalStep(files: seq<SnapshotFile>, k: nat, decode: Decoder)
    requires k < |files| && decode(files[k].contentBase64).Some?
    ensures DecodedTotal(files[..k + 1], decode)
         == DecodedTotal(files[..k], decode) + |decode(files[k].contentBase64).value|
  {
    assert files[..k + 1][..k] == files[..k];
  }

  /** Accepted exactly when the snapshot is as it must be; the running total never overflows;
      and the error is the first file's fault, the limits coming before every file and the
      declared total after. */
  method ValidateSnapshot(s: Snapshot, decode: Decoder) returns (r: Option<Fault>)
    ensures r.None? <==> Accepted(s, decode)
    ensures r != Some(SizeOverflow)
    ensures r == Some(LimitsExceeded) <==> |s.files| > MAX_FILES || s.totalBytes > MAX_TOTAL_BYTES
    ensures r.Some? && r.value in {UnsafeEntry, InvalidBase64, FileTooLarge} ==>
              FirstFileFault(s.files, decode, r.value)
    ensures r == Some(SizeMismatch) ==> forall i :: 0 <= i < |s.files| ==> FileFault(s.files, i, decode).None?
  {
    if |s.files| > MAX_FILES || s.totalBytes > MAX_TOTAL_BYTES {
      return Some(LimitsExceeded);
    }
    var checked := CheckFiles(s.files, decode);
    FaultlessIffGood(s.files, decode);
    if checked.Err? {
      return Some(checked.error);
    }
    if checked.value != s.totalBytes {
      return Some(SizeMismatch);
    }
    return None;
  }

  /** The loop over the files: their decoded total, or the first fault. */
  method CheckFiles(files: seq<SnapshotFile>, decode: Decoder) returns (r: Result<nat, Fault>)
    requires |files| <= MAX_FILES
    ensures r.Ok? ==> r.value == DecodedTotal(files, decode)
                      && forall i :: 0 <= i < |files| ==> FileFault(files, i, decode).None?
    ensures r.Err? ==> r.error in {UnsafeEntry, InvalidBase64, FileTooLarge} && FirstFileFault(files, decode, r.error)
  {
    var paths: set<string> := {};
    var total := 0;
    for k := 0 to |files|
      invariant forall p :: p in paths <==> exists j :: 0 <= j < k && files[j].path == p
      invariant forall j :: 0 <= j < k ==> FileFault(files, j, decode).None?
      invariant total == DecodedTotal(files[..k], decode) <= k * MAX_FILE_BYTES
    {
      ghost var fault := FileFault(files, k, decode);
      var f := files[k];
      if !SafePath(f.path) || f.path in paths || !LegalMode(f.mode) {
        assert fault == Some(UnsafeEntry);
        return Err(UnsafeEntry);
      }
      paths := paths + {f.path};
      var decoded := decode(f.contentBase64);
      if decoded.None? {
        assert fault == Some(InvalidBase64);
        return Err(InvalidBase64);
      }
      if |decoded.value| > MAX_FILE_BYTES {
        assert fault == Some(FileTooLarge);
        return Err(FileTooLarge);
      }
      if total + |decoded.value| > USIZE_MAX {
        assert false;
        return Err(SizeOverflow);
      }
      total := total + |decoded.value|;
      assert fault.None?;
      TotalStep(files, k, decode);
    }
    assert files[..|files|] == files;
    return Ok(total);
  }

  // ---------- What acceptance means ----------

  lemma {:induction false} PiecesAppear(parts: seq<Name>, i: nat)
    requires i < |parts| && parts[i] != [] && parts[i] != "."
    ensures (if parts[i] == ".." then ParentDir else Normal(parts[i])) in Meaningful(parts)
  {
    var rest := Meaningful(parts[1..]);
    if i > 0 {
      PiecesAppear(parts[1..], i - 1);
    }
    assert forall c :: c in rest ==> c in Meaningful(parts);
  }

  /** `.git` in whatever mixture of letter cases. */
  predicate ReadsGit(n: Name) {
    |n| == 4 && n[0] == '.' && (n[1] == 'g' || n[1] == 'G') && (n[2] == 'i' || n[2] == 'I')
    && (n[3] == 't' || n[3] == 'T')
  }

  lemma ReadsGitIff(n: Name)
    ensures EqIgnoreAsciiCase(n, ".git") <==> ReadsGit(n)
  {
    assert Lower('.') == '.' && Lower('g') == 'g' && Lower('i') == 'i' && Lower('t') == 't';
    if |n| == 4 {
      LowerIs(n[0], '.');
      LowerIs(n[1], 'g');
      LowerIs(n[2], 'i');
      LowerIs(n[3], 't');
    }
  }

  /** Only a letter's own capital becomes it. */
  lemma LowerIs(c: char, d: char)
    requires d == '.' || 'a' <= d <= 'z'
    ensures Lower(c) == d <==> c == d || (d != '.' && c as int + 32 == d as int)
  {
  }

  /** No piece of an accepted path, at any depth and in any letter case, is the repository's own
      directory, and none climbs. */
  lemma AcceptedPathsAvoidGit(path: string, i: nat)
    requires SafePath(path) && i < |Split(path)|
    ensures !ReadsGit(Split(path)[i]) && Split(path)[i] != ".."
  {
    var piece := Split(path)[i];
    ReadsGitIff(piece);
    if ReadsGit(piece) || piece == ".." {
      assert piece != [] && piece != ".";
      PiecesAppear(Split(path), i);
      var c := if piece == ".." then ParentDir else Normal(piece);
      assert c in Components(path) && Unsafe(c);
    }
  }

  /** Acceptable are exactly the texts that are neither empty nor too long, hold no NUL, begin neither
      with a slash nor with a dot piece, and have no piece that climbs or reads `.git`. */
  lemma SafePathIff(path: string)
    ensures SafePath(path)
            <==> && path != [] && Length(path) <= MAX_PATH_BYTES && '\0' !in path
                 && path[0] != '/' && Split(path)[0] != "."
                 && forall i :: 0 <= i < |Split(path)| ==> Split(path)[i] != ".." && !ReadsGit(Split(path)[i])
  {
    assert path != [] && path[0] != '/' && Split(path)[0] == "." ==> Components(path)[0] == CurDir;
    if SafePath(path) {
      forall i | 0 <= i < |Split(path)| ensures Split(path)[i] != ".." && !ReadsGit(Split(path)[i]) {
        AcceptedPathsAvoidGit(path, i);
      }
    } else if path != [] && path[0] != '/' && Split(path)[0] != "." {
      assert Components(path) == Meaningful(Split(path));
      ComponentsArePieces(Split(path));
      if i :| 0 <= i < |Components(path)| && Unsafe(Components(path)[i]) {
        ReadsGitIff(if Components(path)[i].Normal? then Components(path)[i].name else []);
      }
    }
  }

  /** Every component is made of a piece. */
  lemma {:induction false} ComponentsArePieces(parts: seq<Name>)
    ensures forall c :: c in Meaningful(parts) ==>
              if c.Normal? then c.name in parts else c == ParentDir && ".." in parts
  {
    if parts != [] {
      ComponentsArePieces(parts[1..]);
      assert forall p :: p in parts[1..] ==> p in parts;
    }
  }

  lemma TwoTexts(a: Name, b: Name)
    requires IsPlain(a) && IsPlain(b) && '\0' !in a + b
    requires !EqIgnoreAsciiCase(a, ".git") && !EqIgnoreAsciiCase(b, ".git")
    ensures var s, t := a + ['/'] + b, a + ['/'] + (['/'] + b);
            && s != t && Names(Components(s)) == Names(Components(t))
            && (Length(s) <= MAX_PATH_BYTES ==> SafePath(s)) && (Length(t) <= MAX_PATH_BYTES ==> SafePath(t))
  {
    DoubledSlash(a, b);
    assert a + (['/'] + b) == a + ['/'] + b && a + (['/'] + (['/'] + b)) == a + ['/'] + (['/'] + b);
  }

  lemma TwoTotal(f: SnapshotFile, g: SnapshotFile, decode: Decoder)
    requires f.contentBase64 == g.contentBase64 && decode(f.contentBase64).Some?
    ensures DecodedTotal([f, g], decode) == 2 * |decode(f.contentBase64).value|
  {
    assert [f, g][..1] == [f] && [f][..0] == [];
    assert DecodedTotal([f], decode) == |decode(f.contentBase64).value|;
  }

  /** Paths are told apart as texts: two accepted entries can name one file. */
  lemma AcceptedMayNameOneFileTwice(a: Name, b: Name, mode: string, content: string, decode: Decoder)
    requires IsPlain(a) && IsPlain(b) && '\0' !in a + b && Length(a + ['/'] + (['/'] + b)) <= MAX_PATH_BYTES
    requires Length(a + ['/'] + b) <= MAX_PATH_BYTES
    requires !EqIgnoreAsciiCase(a, ".git") && !EqIgnoreAsciiCase(b, ".git") && LegalMode(mode)
    requires decode(content).Some? && 2 * |decode(content).value| <= MAX_FILE_BYTES
    ensures var f := SnapshotFile(a + ['/'] + b, mode, content);
            var g := SnapshotFile(a + ['/'] + (['/'] + b), mode, content);
            && Names(Components(f.path)) == Names(Components(g.path))
            && Accepted(Snapshot([f, g], 2 * |decode(content).value|), decode)
  {
    TwoTexts(a, b);
    var f, g := SnapshotFile(a + ['/'] + b, mode, content), SnapshotFile(a + ['/'] + (['/'] + b), mode, content);
    TwoTotal(f, g, decode);
    assert SafeEntry(f) && SafeEntry(g) && SmallContent(f, decode) && SmallContent(g, decode);
  }

  // ---------- When an accepted snapshot names each file once ----------

  function Place(path: string): seq<Name> { Names(Components(path)) }

  /** Every accepted path has a normal text, accepted as well, for the same place. */
  lemma NormalTextIsSafe(path: string)
    requires SafePath(path)
    ensures Place(path) != [] && Components(path) != []
    ensures SafePath(NormalText(path)) && Place(NormalText(path)) == Place(path)
    ensures NormalText(NormalText(path)) == NormalText(path)
  {
    var cs := Components(path);
    forall i | 0 <= i < |cs| ensures cs[i].Normal? { assert !Unsafe(cs[i]); }
    SomethingIsNamed(path);
    NormalTextIsNormal(path);
    NoRoot(Split(path));
    NotCurDir(path);
    assert ParentDir !in cs;
    NormalIsNoLonger(Split(path), '\0');
    JoinSplit(path);
    NamesArePlain(path);
    assert Components(NormalText(path)) == cs;
    assert IsPlain(Place(path)[0]) && NormalText(path)[0] == Place(path)[0][0];
  }

  lemma SomethingIsNamed(path: string)
    requires path != []
    ensures Components(path) != []
  {
  }

  /** A safe path is relative and does not begin with a dot, so its components are its pieces. */
  lemma NotCurDir(path: string)
    requires SafePath(path) && Components(path) != []
    ensures Components(path) == Meaningful(Split(path))
  {
    assert !Unsafe(Components(path)[0]);
  }

  lemma SamePlaceIffSameNormalText(p: string, q: string)
    requires SafePath(p) && SafePath(q)
    ensures Place(p) != [] && Place(q) != []
    ensures Place(p) == Place(q) <==> NormalText(p) == NormalText(q)
  {
    NormalTextIsSafe(p);
    NormalTextIsSafe(q);
  }

  ghost predicate NamesEachOnce(s: Snapshot) {
    forall i, j :: 0 <= i < j < |s.files| ==> Place(s.files[i].path) != Place(s.files[j].path)
  }

  /** No slash at the end, none doubled, no dot between two: nothing stands for nothing. */
  predicate IsNormal(path: string) { forall i :: 0 <= i < |Split(path)| ==> !IsSilent(Split(path)[i]) }

  /** That can be read off the text, and makes an acceptable path the normal text of its place. */
  lemma IsNormalIff(path: string)
    requires SafePath(path)
    ensures Place(path) != [] && (IsNormal(path) <==> path == NormalText(path))
  {
    NormalTextIsSafe(path);
    NotCurDir(path);
    NamesArePlain(path);
    JoinSplit(path);
    SplitOfJoin(Place(path));
    if IsNormal(path) {
      SplitHasNoSlash(path);
      forall i | 0 <= i < |Split(path)| ensures IsPlain(Split(path)[i]) { AcceptedPathsAvoidGit(path, i); }
      PlainMeaningful(Split(path));
    }
  }

  /** An accepted snapshot names each file once if and only if its paths have different normal
      texts; the check compares the paths themselves, which is enough when they are normal. */
  lemma AcceptedNamesEachOnceIff(s: Snapshot, decode: Decoder)
    requires Accepted(s, decode)
    ensures forall i :: 0 <= i < |s.files| ==> Place(s.files[i].path) != []
    ensures NamesEachOnce(s)
            <==> forall i, j :: 0 <= i < j < |s.files| ==> NormalText(s.files[i].path) != NormalText(s.files[j].path)
    ensures (forall i :: 0 <= i < |s.files| ==> IsNormal(s.files[i].path)) ==> NamesEachOnce(s)
  {
    forall i | 0 <= i < |s.files| ensures Place(s.files[i].path) != [] {
      assert SafeEntry(s.files[i]);
      NormalTextIsSafe(s.files[i].path);
    }
    forall i, j | 0 <= i < j < |s.files|
      ensures Place(s.files[i].path) == Place(s.files[j].path)
              <==> NormalText(s.files[i].path) == NormalText(s.files[j].path)
    {
      assert SafeEntry(s.files[i]) && SafeEntry(s.files[j]);
      SamePlaceIffSameNormalText(s.files[i].path, s.files[j].path);
    }
    NormalNameEachOnce(s, decode);
  }

  lemma NormalNameEachOnce(s: Snapshot, decode: Decoder)
    requires Accepted(s, decode)
    ensures (forall i :: 0 <= i < |s.files| ==> IsNormal(s.files[i].path)) ==> NamesEachOnce(s)
  {
    if forall i :: 0 <= i < |s.files| ==> IsNormal(s.files[i].path) {
      forall i, j | 0 <= i < j < |s.files| ensures Place(s.files[i].path) != Place(s.files[j].path) {
        assert SafeEntry(s.files[i]) && SafeEntry(s.files[j]);
        IsNormalIff(s.files[i].path);
        IsNormalIff(s.files[j].path);
      }
    }
  }

  /** Some accepted snapshot puts the path beside a different text for the same place, a normal one. */
  ghost predicate CanClash(path: string, mode: string, content: string, decode: Decoder) {
    exists q :: IsNormal(q) && q != path && Place(q) == Place(path)
                && Accepted(Snapshot([SnapshotFile(path, mode, content), SnapshotFile(q, mode, content)],
                                     2 * |decode(content).GetOr([])|), decode)
  }

  /** Path by path: the normal texts are exactly those that no accepted snapshot puts beside
      another normal text for their place. */
  lemma CanClashIffNotNormal(path: string, mode: string, content: string, decode: Decoder)
    requires SafePath(path) && LegalMode(mode)
    requires decode(content).Some? && 2 * |decode(content).value| <= MAX_FILE_BYTES
    ensures CanClash(path, mode, content, decode) <==> !IsNormal(path)
  {
    NormalTextIsSafe(path);
    IsNormalIff(path);
    if !IsNormal(path) {
      var q := NormalText(path);
      IsNormalIff(q);
      var f, g := SnapshotFile(path, mode, content), SnapshotFile(q, mode, content);
      TwoTotal(f, g, decode);
      assert SafeEntry(f) && SafeEntry(g) && SmallContent(f, decode) && SmallContent(g, decode);
      assert IsNormal(q) && Accepted(Snapshot([f, g], 2 * |decode(content).GetOr([])|), decode);
    } else if CanClash(path, mode, content, decode) {
      var q :| IsNormal(q) && q != path && Place(q) == Place(path)
               && Accepted(Snapshot([SnapshotFile(path, mode, content), SnapshotFile(q, mode, content)],
                                    2 * |decode(content).GetOr([])|), decode);
      assert SafeEntry([SnapshotFile(path, mode, content), SnapshotFile(q, mode, content)][1]);
      IsNormalIff(q);
    }
  }
}
