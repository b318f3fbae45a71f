/** Creating a write's missing parent directories among symbolic links, and when all of them are
    inside the workspace. */
module ParentCreation {
  import opened Wrappers
  import opened PathText
  import opened RustText

  type Path = seq<Name>

  datatype Node = Dir | File | Link(absolute: bool, target: seq<Name>)

  /** The file system: entries at physical paths below a root that is always there. Names resolve
      through the links, up to a limit. */
  type Tree = map<Path, Node>

  datatype Error = Escapes | Invalid | Failed

  function NodeAt(t: Tree, p: Path): Option<Node> {
    if p == [] then Some(Dir) else if p in t then Some(t[p]) else None
  }

  /** An entry has a proper name and lives in a directory. */
  predicate Placed(t: Tree, p: Path) {
    p in t ==> p != [] && IsPlain(p[|p| - 1]) && NodeAt(t, p[..|p| - 1]) == Some(Dir)
  }

  ghost predicate Valid(t: Tree) {
    forall p {:trigger Placed(t, p)} :: Placed(t, p)
  }

  function Parent(p: Path): Path { if p == [] then [] else p[..|p| - 1] }

  /** Resolve names one by one from a physical place, following every link. */
  function Walk(t: Tree, at: Path, names: seq<Name>, links: nat): Option<Path>
    decreases links, |names|
  {
    if names == [] then Some(at)
    else if NodeAt(t, at) != Some(Dir) then None
    else if names[0] == "." then Walk(t, at, names[1..], links)
    else if names[0] == ".." then Walk(t, Parent(at), names[1..], links)
    else
      match NodeAt(t, at + [names[0]])
      case None => None
      case Some(Link(absolute, target)) =>
        if links == 0 then None
        else Walk(t, if absolute then [] else at, target + names[1..], links - 1)
      case Some(_) => Walk(t, at + [names[0]], names[1..], links)
  }

  /** `fs::canonicalize`, for an absolute path. */
  function Canonical(t: Tree, p: Path, links: nat): Option<Path> { Walk(t, [], p, links) }

  /** A place reached without links: an entry that is not one itself, or the root. */
  ghost predicate Physical(t: Tree, p: Path) {
    NodeAt(t, p).Some? && !NodeAt(t, p).value.Link?
  }

  lemma {:induction false} WalkIsPhysical(t: Tree, at: Path, names: seq<Name>, links: nat)
    requires Valid(t) && Physical(t, at) && Walk(t, at, names, links).Some?
    ensures Physical(t, Walk(t, at, names, links).value)
    decreases links, |names|
  {
    if names == [] {
    } else if names[0] == "." {
      WalkIsPhysical(t, at, names[1..], links);
    } else if names[0] == ".." {
      assert Placed(t, at);
      WalkIsPhysical(t, Parent(at), names[1..], links);
    } else {
      match NodeAt(t, at + [names[0]])
      case Some(Link(absolute, target)) =>
        WalkIsPhysical(t, if absolute then [] else at, target + names[1..], links - 1);
      case Some(_) => WalkIsPhysical(t, at + [names[0]], names[1..], links);
    }
  }

  lemma {:induction false} PrefixesAreDirs(t: Tree, p: Path, k: nat)
    requires Valid(t) && k < |p| && NodeAt(t, p).Some?
    ensures NodeAt(t, p[..k]) == Some(Dir) && IsPlain(p[k])
    decreases |p| - k
  {
    var q := p[..|p| - 1];
    assert Placed(t, p);
    if k < |p| - 1 {
      PrefixesAreDirs(t, q, k);
      assert q[..k] == p[..k];
    }
  }

  lemma {:induction false} WalkDown(t: Tree, p: Path, k: nat, links: nat)
    requires Valid(t) && Physical(t, p) && k <= |p|
    ensures Walk(t, p[..k], p[k..], links) == Some(p)
    decreases |p| - k
  {
    if k == |p| {
      assert p[..k] == p;
    } else {
      WalkDown(t, p, k + 1, links);
      PrefixesAreDirs(t, p, k);
      if k + 1 < |p| {
        PrefixesAreDirs(t, p, k + 1);
      }
      assert p[..k] + [p[k]] == p[..k + 1];
      assert p[..|p|] == p;
      assert p[k..][1..] == p[k + 1..];
    }
  }

  /** A canonical path resolves to itself, spending no link. */
  lemma PhysicalIsCanonical(t: Tree, p: Path, links: nat)
    requires Valid(t) && Physical(t, p)
    ensures Canonical(t, p, links) == Some(p)
  {
    WalkDown(t, p, 0, links);
    assert p[..0] == [] && p[0..] == p;
  }

  /** Resolving the first names, then the rest from there, spending links on both. */
  lemma {:induction false} WalkThen(t: Tree, at: Path, x: seq<Name>, y: seq<Name>, m: nat, n: nat)
    requires Walk(t, at, x, m).Some? && Walk(t, Walk(t, at, x, m).value, y, n).Some?
    ensures Walk(t, at, x + y, m + n) == Walk(t, Walk(t, at, x, m).value, y, n)
    decreases m, |x|
  {
    if x == [] {
      assert x + y == y;
      MoreLinks(t, at, y, n, m + n);
    } else {
      assert (x + y)[1..] == x[1..] + y;
      if x[0] == "." {
        WalkThen(t, at, x[1..], y, m, n);
      } else if x[0] == ".." {
        WalkThen(t, Parent(at), x[1..], y, m, n);
      } else {
        match NodeAt(t, at + [x[0]])
        case Some(Link(absolute, target)) =>
          assert target + (x[1..] + y) == target + x[1..] + y;
          WalkThen(t, if absolute then [] else at, target + x[1..], y, m - 1, n);
        case Some(_) => WalkThen(t, at + [x[0]], x[1..], y, m, n);
      }
    }
  }

  /** Names resolved without links take nothing from those that follow. */
  lemma {:induction false} WalkFurther(t: Tree, at: Path, x: seq<Name>, y: seq<Name>, links: nat)
    requires Walk(t, at, x, 0).Some?
    ensures Walk(t, at, x + y, links) == Walk(t, Walk(t, at, x, 0).value, y, links)
    decreases |x|
  {
    if x == [] {
      assert x + y == y;
    } else {
      assert (x + y)[1..] == x[1..] + y;
      WalkFurther(t, if x[0] == "." then at else if x[0] == ".." then Parent(at) else at + [x[0]], x[1..], y, links);
    }
  }

  /** What a path means, one name after a place without links: `.` and `..` stay or go up, a
      link stands for its target seen from the directory that holds it, and nothing is below
      what is no directory or is not there. */
  lemma NextName(t: Tree, d: Path, name: Name, rest: seq<Name>, links: nat)
    requires Valid(t) && Physical(t, d)
    ensures var p := Canonical(t, d + [name] + rest, links);
            if d != [] && t[d] == File then p == None
            else if name == "." then p == Canonical(t, d + rest, links)
            else if name == ".." then p == Canonical(t, d[..if d == [] then 0 else |d| - 1] + rest, links)
            else if d + [name] !in t then p == None
            else t[d + [name]].Link? ==>
              var at := if t[d + [name]].absolute then [] else d;
              p == if links == 0 then None else Canonical(t, at + t[d + [name]].target + rest, links - 1)
  {
    Resumes(t, d, [name] + rest, links);
    assert d + ([name] + rest) == d + [name] + rest && ([name] + rest)[1..] == rest;
    Resumes(t, d, rest, links);
    assert Placed(t, d);
    Resumes(t, Parent(d), rest, links);
    if d + [name] in t && t[d + [name]].Link? && links > 0 {
      var target := t[d + [name]].target + rest;
      Resumes(t, d, target, links - 1);
      Resumes(t, [], target, links - 1);
      assert d + target == d + t[d + [name]].target + rest;
      assert [] + target == [] + t[d + [name]].target + rest;
    }
  }

  lemma Resumes(t: Tree, d: Path, rest: seq<Name>, links: nat)
    requires Valid(t) && Physical(t, d)
    ensures Canonical(t, d + rest, links) == Walk(t, d, rest, links)
  {
    PhysicalIsCanonical(t, d, 0);
    WalkFurther(t, [], d, rest, links);
  }

  lemma {:induction false} MoreLinks(t: Tree, at: Path, names: seq<Name>, m: nat, n: nat)
    requires Walk(t, at, names, m).Some? && m <= n
    ensures Walk(t, at, names, n) == Walk(t, at, names, m)
    decreases m, |names|
  {
    if names == [] {
    } else if names[0] == "." {
      MoreLinks(t, at, names[1..], m, n);
    } else if names[0] == ".." {
      MoreLinks(t, Parent(at), names[1..], m, n);
    } else {
      match NodeAt(t, at + [names[0]])
      case Some(Link(absolute, target)) =>
        MoreLinks(t, if absolute then [] else at, target + names[1..], m - 1, n - 1);
      case Some(_) => MoreLinks(t, at + [names[0]], names[1..], m, n);
    }
  }

  /** New entries where there were none leave every successful resolution as it was. */
  lemma {:induction false} WalkGrows(t: Tree, t': Tree, at: Path, names: seq<Name>, links: nat)
    requires forall p :: p in t ==> p in t' && t'[p] == t[p]
    requires Walk(t, at, names, links).Some?
    ensures Walk(t', at, names, links) == Walk(t, at, names, links)
    decreases links, |names|
  {
    if names == [] {
    } else if names[0] == "." {
      WalkGrows(t, t', at, names[1..], links);
    } else if names[0] == ".." {
      WalkGrows(t, t', Parent(at), names[1..], links);
    } else {
      match NodeAt(t, at + [names[0]])
      case Some(Link(absolute, target)) =>
        WalkGrows(t, t', if absolute then [] else at, target + names[1..], links - 1);
      case Some(_) => WalkGrows(t, t', at + [names[0]], names[1..], links);
    }
  }

  // ---------- The operations ----------

  /** What the system calls of one request put up with: how many links a walk may follow, and
      the texts that `exists`, `canonicalize` and `create_dir` do not refuse for a reason of
      their own, such as their length. Nothing is assumed of them. */
  datatype Limits = Limits(links: nat, seen: Path -> bool, canonical: Path -> bool, makes: Path -> bool)

  /** `Path::exists`, which takes every error for absence. */
  predicate Exists(t: Tree, p: Path, lim: Limits) {
    lim.seen(p) && Canonical(t, p, lim.links).Some?
  }

  datatype Mkdir = Made | AlreadyExists | NotMade

  /** `fs::create_dir`: the parent resolves to a directory, and the name must not be taken. */
  function MakeDir(t: Tree, p: Path, lim: Limits): (Tree, Mkdir) {
    if p == [] || !IsPlain(p[|p| - 1]) then (t, AlreadyExists)
    else if !lim.makes(p) then (t, NotMade)
    else
      match Canonical(t, Parent(p), lim.links)
      case None => (t, NotMade)
      case Some(d) =>
        if NodeAt(t, d) != Some(Dir) then (t, NotMade)
        else if d + [p[|p| - 1]] in t then (t, AlreadyExists)
        else (t[d + [p[|p| - 1]] := Dir], Made)
  }

  /** How long the deepest ancestor is that exists, as far as the test can tell; none when the
      walk meets `..` or the top first. */
  function Climb(t: Tree, p: Path, lim: Limits): (r: Option<nat>)
    ensures r.Some? ==> r.value <= |p| && Exists(t, p[..r.value], lim)
  {
    if Exists(t, p, lim) then
      assert p[..|p|] == p;
      Some(|p|)
    else if p == [] || p[|p| - 1] == ".." then None
    else
      var r := Climb(t, p[..|p| - 1], lim);
      assert r.Some? ==> p[..|p| - 1][..r.value] == p[..r.value];
      r
  }

  lemma ClimbStep(t: Tree, p: Path, name: Name, lim: Limits)
    requires !Exists(t, p + [name], lim) && name != ".."
    ensures Climb(t, p + [name], lim) == Climb(t, p, lim)
  {
    assert (p + [name])[..|p + [name]| - 1] == p;
  }

  datatype Outcome = Outcome(tree: Tree, error: Option<Error>)

  /** Create the names one beneath the other, whatever is there already left alone. */
  function MakeAll(t: Tree, cursor: Path, names: seq<Name>, lim: Limits): Outcome
    decreases |names|
  {
    if names == [] then Outcome(t, None)
    else
      var next := cursor + [names[0]];
      match MakeDir(t, next, lim)
      case (t', NotMade) => Outcome(t', Some(Failed))
      case (t', _) => MakeAll(t', next, names[1..], lim)
  }

  function CreateParents(t: Tree, root: Path, parent: Path, lim: Limits): Outcome {
    match Climb(t, parent, lim)
    case None => Outcome(t, Some(Escapes))
    case Some(k) =>
      if !lim.canonical(parent[..k]) then Outcome(t, Some(Failed))
      else
        var c := Canonical(t, parent[..k], lim.links).value;
        if root <= c then MakeAll(t, c, parent[k..], lim) else Outcome(t, Some(Escapes))
  }

  lemma Suffix(names: seq<Name>, i: nat)
    requires i < |names|
    ensures names[i..] == [names[i]] + names[i + 1..] && names[i..][1..] == names[i + 1..]
  {
  }

  class FileSystem {
    var tree: Tree

    constructor (tree: Tree)
      ensures this.tree == tree
    {
      this.tree := tree;
    }

    method CreateDir(p: Path, lim: Limits) returns (r: Mkdir)
      modifies this
      ensures (tree, r) == MakeDir(old(tree), p, lim)
    {
      if p == [] || !IsPlain(p[|p| - 1]) {
        return AlreadyExists;
      }
      if !lim.makes(p) {
        return NotMade;
      }
      var d := Canonical(tree, Parent(p), lim.links);
      if d.None? || NodeAt(tree, d.value) != Some(Dir) {
        return NotMade;
      }
      var entry := d.value + [p[|p| - 1]];
      if entry in tree {
        return AlreadyExists;
      }
      tree := tree[entry := Dir];
      return Made;
    }

    /** Climb to the deepest ancestor that exists, check where it really is, and create the
        rest beneath that place. */
    method CreateParentsWithin(root: Path, parent: Path, lim: Limits) returns (error: Option<Error>)
      modifies this
      ensures Outcome(tree, error) == CreateParents(old(tree), root, parent, lim)
    {
      var missing: seq<Name> := [];
      var existing := parent;
      assert parent[..|parent|] == parent;
      while !Exists(tree, existing, lim)
        invariant tree == old(tree) && existing == parent[..|existing|]
        invariant |existing| + |missing| == |parent|
        invariant forall i :: 0 <= i < |missing| ==> missing[i] == parent[|parent| - 1 - i]
        invariant Climb(tree, parent, lim) == Climb(tree, existing, lim)
        decreases |existing|
      {
        if existing == [] || existing[|existing| - 1] == ".." {
          return Some(Escapes);
        }
        missing := missing + [existing[|existing| - 1]];
        assert existing[..|existing| - 1] == parent[..|existing| - 1];
        existing := Parent(existing);
      }
      if !lim.canonical(existing) {
        return Some(Failed);
      }
      var cursor := Canonical(tree, existing, lim.links).value;
      if !(root <= cursor) {
        return Some(Escapes);
      }
      assert forall i :: 0 <= i < |missing| ==> missing[i] == parent[|existing|..][|missing| - 1 - i];
      error := CreateEach(cursor, missing, parent[|existing|..], lim);
    }

    /** The names collected on the way up, taken from the last. */
    method CreateEach(start: Path, missing: seq<Name>, ghost names: seq<Name>, lim: Limits)
      returns (error: Option<Error>)
      requires |names| == |missing| && forall i :: 0 <= i < |missing| ==> missing[i] == names[|missing| - 1 - i]
      modifies this
      ensures Outcome(tree, error) == MakeAll(old(tree), start, names, lim)
    {
      var cursor := start;
      var i := |missing|;
      assert names[0..] == names;
      while i > 0
        invariant 0 <= i <= |missing|
        invariant MakeAll(tree, cursor, names[|names| - i..], lim) == MakeAll(old(tree), start, names, lim)
      {
        Suffix(names, |names| - i);
        i := i - 1;
        cursor := cursor + [missing[i]];
        var r := CreateDir(cursor, lim);
        if r.NotMade? {
          return Some(Failed);
        }
      }
      return None;
    }

    /** Where a write to a path relative to the root goes. */
    method ResolveForWrite(root: Path, relative: string, createParents: bool, lim: Limits)
      returns (r: Result<Path, Error>)
      modifies this
      ensures (tree, r) == Resolve(old(tree), root, relative, createParents, lim)
    {
      var joined := CleanJoin(root, relative);
      if joined.None? || joined.value == [] {
        return Err(Invalid);
      }
      var candidate := joined.value;
      if createParents {
        var error := CreateParentsWithin(root, Parent(candidate), lim);
        if error.Some? {
          return Err(error.value);
        }
      }
      if !lim.canonical(Parent(candidate)) {
        return Err(Failed);
      }
      var parent := Canonical(tree, Parent(candidate), lim.links);
      if parent.None? {
        return Err(Failed);
      }
      if !(root <= parent.value) {
        return Err(Escapes);
      }
      return Ok(parent.value + [candidate[|candidate| - 1]]);
    }
  }

  /** A nonempty relative text without `..`, put below the root. */
  function CleanJoin(root: Path, relative: string): Option<Path> {
    if relative == [] || RootDir in Components(relative) || ParentDir in Components(relative) then None
    else Some(root + Names(Components(relative)))
  }

  /** What is made of the parent before the write, if anything. */
  function Prepare(t: Tree, root: Path, parent: Path, createParents: bool, lim: Limits): Outcome {
    if createParents then CreateParents(t, root, parent, lim) else Outcome(t, None)
  }

  function Resolve(
    t: Tree, root: Path, relative: string, createParents: bool, lim: Limits): (Tree, Result<Path, Error>)
  {
    match CleanJoin(root, relative)
    case None => (t, Err(Invalid))
    case Some(candidate) =>
      if candidate == [] then (t, Err(Invalid)) else ResolveAt(t, root, candidate, createParents, lim)
  }

  function ResolveAt(
    t: Tree, root: Path, candidate: Path, createParents: bool, lim: Limits): (Tree, Result<Path, Error>)
    requires candidate != []
  {
    var up, name := Parent(candidate), candidate[|candidate| - 1];
    var made := Prepare(t, root, up, createParents, lim);
    var parent := Canonical(made.tree, up, lim.links);
    var r :=
      if made.error.Some? then Err(made.error.value)
      else if !lim.canonical(up) || parent.None? then Err(Failed)
      else if root <= parent.value then Ok(parent.value + [name])
      else Err(Escapes);
    (made.tree, r)
  }

  // ---------- What gets created ----------

  /** `names` as fresh directories, each in the one before, the first in `place`. */
  function AddDirs(t: Tree, place: Path, names: seq<Name>): Tree
    decreases |names|
  {
    if names == [] then t
    else AddDirs(t[place + [names[0]] := Dir], place + [names[0]], names[1..])
  }

  /** One of the places place/n1, place/n1/n2, ... */
  predicate Below(p: Path, place: Path, names: seq<Name>) {
    |place| < |p| <= |place + names| && p == (place + names)[..|p|]
  }

  lemma BelowStep(p: Path, place: Path, names: seq<Name>)
    requires names != []
    ensures Below(p, place, names) <==> p == place + [names[0]] || Below(p, place + [names[0]], names[1..])
  {
    assert place + names == place + [names[0]] + names[1..];
    assert (place + names)[..|place| + 1] == place + [names[0]];
  }

  lemma {:induction false} AddDirsEntries(t: Tree, place: Path, names: seq<Name>, p: Path)
    ensures p in AddDirs(t, place, names) <==> p in t || Below(p, place, names)
    ensures p in AddDirs(t, place, names) ==>
              AddDirs(t, place, names)[p] == if Below(p, place, names) then Dir else t[p]
    decreases |names|
  {
    if names != [] {
      var next := place + [names[0]];
      AddDirsEntries(t[next := Dir], next, names[1..], p);
      BelowStep(p, place, names);
    }
  }

  /** The place where the first new directory goes and how many names are passed before it. */
  function Landing(t: Tree, cursor: Path, names: seq<Name>, lim: Limits): Option<(Path, nat)>
    decreases |names|
  {
    if names == [] || !lim.makes(cursor + [names[0]]) then None
    else
      match Canonical(t, cursor, lim.links)
      case None => None
      case Some(d) =>
        if NodeAt(t, d) != Some(Dir) then None
        else if d + [names[0]] !in t then Some((d, 0))
        else
          match Landing(t, cursor + [names[0]], names[1..], lim)
          case None => None
          case Some((place, j)) => Some((place, j + 1))
  }

  /** How many of the names `create_dir` puts up with, one beneath the other. */
  function Accepted(cursor: Path, names: seq<Name>, lim: Limits): (m: nat)
    ensures m <= |names|
    decreases |names|
  {
    if names == [] || !lim.makes(cursor + [names[0]]) then 0
    else 1 + Accepted(cursor + [names[0]], names[1..], lim)
  }

  lemma DirStaysValid(t: Tree, place: Path, name: Name)
    requires Valid(t) && IsPlain(name) && NodeAt(t, place) == Some(Dir) && place + [name] !in t
    ensures Valid(t[place + [name] := Dir])
  {
    var t' := t[place + [name] := Dir];
    forall p ensures Placed(t', p) {
      assert Placed(t, p);
      if p == place + [name] {
        assert p[..|p| - 1] == place;
      }
    }
  }

  /** Nothing can be in the way inside a directory that is not there. */
  lemma NothingInside(t: Tree, p: Path, name: Name)
    requires Valid(t) && p != [] && p !in t
    ensures p + [name] !in t
  {
    assert Placed(t, p + [name]);
    assert (p + [name])[..|p + [name]| - 1] == p;
  }

  lemma FirstFresh(t: Tree, cursor: Path, place: Path, name: Name, lim: Limits)
    requires Valid(t) && Canonical(t, cursor, lim.links) == Some(place) && NodeAt(t, place) == Some(Dir)
    requires IsPlain(name) && place + [name] !in t && lim.makes(cursor + [name])
    ensures var t' := t[place + [name] := Dir];
            && MakeDir(t, cursor + [name], lim) == (t', Made) && Valid(t')
            && Canonical(t', cursor + [name], lim.links) == Some(place + [name])
  {
    assert Parent(cursor + [name]) == cursor;
    DirStaysValid(t, place, name);
    FreshResolves(t, cursor, place, name, lim.links);
  }

  lemma FreshResolves(t: Tree, cursor: Path, place: Path, name: Name, links: nat)
    requires Canonical(t, cursor, links) == Some(place) && NodeAt(t, place) == Some(Dir)
    requires IsPlain(name) && place + [name] !in t
    ensures Canonical(t[place + [name] := Dir], cursor + [name], links) == Some(place + [name])
  {
    var t' := t[place + [name] := Dir];
    WalkGrows(t, t', [], cursor, links);
    assert Walk(t', place, [name], 0) == Some(place + [name]);
    WalkThen(t', [], cursor, [name], links, 0);
  }

  /** The names are created from the place the cursor resolves to, as far as they are put up with. */
  ghost predicate Creates(t: Tree, cursor: Path, place: Path, names: seq<Name>, lim: Limits) {
    var m := Accepted(cursor, names, lim);
    var t' := AddDirs(t, place, names[..m]);
    && MakeAll(t, cursor, names, lim) == Outcome(t', if m == |names| then None else Some(Failed))
    && Valid(t') && Canonical(t', cursor + names[..m], lim.links) == Some(place + names[..m])
  }

  lemma CreatesOneMore(t: Tree, cursor: Path, place: Path, names: seq<Name>, lim: Limits)
    requires names != [] && lim.makes(cursor + [names[0]])
    requires MakeDir(t, cursor + [names[0]], lim) == (t[place + [names[0]] := Dir], Made)
    requires Creates(t[place + [names[0]] := Dir], cursor + [names[0]], place + [names[0]], names[1..], lim)
    ensures Creates(t, cursor, place, names, lim)
  {
    OneLonger(cursor, names, Accepted(cursor + [names[0]], names[1..], lim));
    OneLonger(place, names, Accepted(cursor + [names[0]], names[1..], lim));
  }

  /** A cursor that resolves to a directory without the next name: the names are created. */
  lemma {:induction false} AllFresh(t: Tree, cursor: Path, place: Path, names: seq<Name>, lim: Limits)
    requires Valid(t) && Canonical(t, cursor, lim.links) == Some(place) && NodeAt(t, place) == Some(Dir)
    requires forall i :: 0 <= i < |names| ==> IsPlain(names[i])
    requires names != [] ==> place + [names[0]] !in t
    ensures Creates(t, cursor, place, names, lim)
    decreases |names|
  {
    if names == [] || !lim.makes(cursor + [names[0]]) {
      assert cursor + names[..0] == cursor && place + names[..0] == place && names[..0] == [];
    } else {
      var next, made := cursor + [names[0]], place + [names[0]];
      FirstFresh(t, cursor, place, names[0], lim);
      if |names| > 1 {
        NothingInside(t, made, names[1]);
      }
      AllFresh(t[made := Dir], next, made, names[1..], lim);
      CreatesOneMore(t, cursor, place, names, lim);
    }
  }

  lemma OneLonger(p: Path, names: seq<Name>, m: nat)
    requires m < |names|
    ensures p + [names[0]] + names[1..][..m] == p + names[..m + 1]
    ensures names[..m + 1][0] == names[0] && names[..m + 1][1..] == names[1..][..m]
  {
  }

  /** The names created from a landing on. */
  function Created(cursor: Path, names: seq<Name>, j: nat, lim: Limits): seq<Name>
    requires j <= |names|
  {
    names[j..][..Accepted(cursor + names[..j], names[j..], lim)]
  }

  /** Exactly what creation does to the tree, whatever links are in the way: nothing, or the
      names from some point on, as far as they are put up with, as fresh directories beneath one
      place. */
  lemma {:induction false} CreationIsOneBranch(t: Tree, cursor: Path, names: seq<Name>, lim: Limits)
    requires Valid(t) && forall i :: 0 <= i < |names| ==> IsPlain(names[i])
    ensures var landing := Landing(t, cursor, names, lim);
            var made := MakeAll(t, cursor, names, lim);
            && Valid(made.tree)
            && (landing.None? ==> made.tree == t)
            && (landing.Some? ==>
                  var (place, j) := landing.value;
                  && j < |names| && place + [names[j]] !in t
                  && var created := Created(cursor, names, j, lim);
                     && created != [] && created[0] == names[j]
                     && made == Outcome(
                                  AddDirs(t, place, created), if |created| == |names| - j then None else Some(Failed)))
    decreases |names|
  {
    if names != [] && lim.makes(cursor + [names[0]]) {
      var next := cursor + [names[0]];
      assert Parent(next) == cursor;
      match Canonical(t, cursor, lim.links)
      case None =>
      case Some(d) =>
        if NodeAt(t, d) == Some(Dir) {
          if d + [names[0]] in t {
            CreationIsOneBranch(t, next, names[1..], lim);
            var rest := Landing(t, next, names[1..], lim);
            if rest.Some? {
              CreatedCons(cursor, names, rest.value.1, lim);
            }
          } else {
            AllFresh(t, cursor, d, names, lim);
            assert names[0..] == names && cursor + names[..0] == cursor;
          }
        }
    }
  }

  lemma CreatedCons(cursor: Path, names: seq<Name>, j: nat, lim: Limits)
    requires j < |names|
    ensures Created(cursor + [names[0]], names[1..], j, lim) == Created(cursor, names, j + 1, lim)
  {
    assert names[1..][j..] == names[j + 1..];
    assert cursor + [names[0]] + names[1..][..j] == cursor + names[..j + 1];
  }

  // ---------- Inside the root ----------

  /** Every change is a new directory strictly below the root. */
  ghost predicate Inside(t: Tree, t': Tree, root: Path) {
    && (forall p :: p in t ==> p in t' && t'[p] == t[p])
    && (forall p :: p in t' && p !in t ==> t'[p] == Dir && root <= p && p != root)
  }

  /** Where the missing names start, and the canonical place they are created from. */
  ghost predicate Starts(t: Tree, parent: Path, lim: Limits, k: nat, c: Path) {
    && Climb(t, parent, lim) == Some(k) && k <= |parent| && lim.canonical(parent[..k])
    && Canonical(t, parent[..k], lim.links) == Some(c)
  }

  lemma {:induction false} ClimbMisses(t: Tree, p: Path, lim: Limits, k: nat, i: nat)
    requires Climb(t, p, lim) == Some(k) && k < i <= |p|
    ensures !Exists(t, p[..i], lim) && p[i - 1] != ".."
    decreases |p|
  {
    if i == |p| {
      assert p[..i] == p;
    } else {
      ClimbMisses(t, p[..|p| - 1], lim, k, i);
      assert p[..|p| - 1][..i] == p[..i];
    }
  }

  lemma BranchInside(t: Tree, place: Path, names: seq<Name>, root: Path)
    requires names != [] && place + [names[0]] !in t && NodeAt(t, root).Some?
    ensures Inside(t, AddDirs(t, place, names), root) ==> root <= place
    ensures Valid(t) && root <= place ==> Inside(t, AddDirs(t, place, names), root)
  {
    var first := place + [names[0]];
    AddDirsEntries(t, place, names, first);
    BelowStep(first, place, names);
    if Inside(t, AddDirs(t, place, names), root) {
      assert root <= first && root != first;
      assert place == first[..|place|] && root == first[..|root|] && root == place[..|root|];
    }
    if Valid(t) && root <= place {
      forall p ensures Below(p, place, names) ==> p !in t && root <= p && p != root {
        if Below(p, place, names) { BelowAbsent(t, place, names, p); }
      }
      forall p ensures p in AddDirs(t, place, names) <==> p in t || Below(p, place, names) {
        AddDirsEntries(t, place, names, p);
      }
      forall p | p in AddDirs(t, place, names)
        ensures AddDirs(t, place, names)[p] == if Below(p, place, names) then Dir else t[p]
      {
        AddDirsEntries(t, place, names, p);
      }
    }
  }

  lemma {:induction false} BelowAbsent(t: Tree, place: Path, names: seq<Name>, p: Path)
    requires Valid(t) && Below(p, place, names) && place + [names[0]] !in t
    ensures p !in t
    decreases |p|
  {
    assert names != [];
    if |p| == |place| + 1 {
      assert p == place + [names[0]];
    } else {
      var q := p[..|p| - 1];
      assert q == (place + names)[..|q|];
      BelowAbsent(t, place, names, q);
      assert Placed(t, p);
    }
  }

  lemma MissingArePlain(t: Tree, parent: Path, lim: Limits, k: nat)
    requires Climb(t, parent, lim) == Some(k) && k <= |parent|
    requires forall i :: 0 <= i < |parent| ==> IsPlain(parent[i]) || parent[i] == ".."
    ensures forall i :: 0 <= i < |parent[k..]| ==> IsPlain(parent[k..][i])
  {
    forall i | 0 <= i < |parent[k..]| ensures IsPlain(parent[k..][i]) {
      ClimbMisses(t, parent, lim, k, k + i + 1);
    }
  }

  /** The guarantee, with its exact condition, for every limit and every refusal. Creation,
      successful or not, only adds directories below the root, if and only if the place it lands
      in, links followed from the canonical ancestor, is not outside the root. */
  lemma InsideIffLandsInside(t: Tree, root: Path, parent: Path, lim: Limits)
    requires Valid(t) && NodeAt(t, root) == Some(Dir)
    requires forall i :: 0 <= i < |parent| ==> IsPlain(parent[i]) || parent[i] == ".."
    ensures Inside(t, CreateParents(t, root, parent, lim).tree, root)
            <==> (forall k: nat, c :: Starts(t, parent, lim, k, c) && root <= c ==>
                    var landing := Landing(t, c, parent[k..], lim);
                    landing.Some? ==> root <= landing.value.0)
  {
    if Climb(t, parent, lim).Some? && lim.canonical(parent[..Climb(t, parent, lim).value]) {
      var k := Climb(t, parent, lim).value;
      var c := Canonical(t, parent[..k], lim.links).value;
      assert Starts(t, parent, lim, k, c);
      if root <= c {
        MissingArePlain(t, parent, lim, k);
        CreationIsOneBranch(t, c, parent[k..], lim);
        var landing := Landing(t, c, parent[k..], lim);
        if landing.Some? {
          BranchInside(t, landing.value.0, Created(c, parent[k..], landing.value.1, lim), root);
        }
      }
    }
  }

  /** One further name from a canonical place. */
  lemma OneMore(t: Tree, c: Path, name: Name, links: nat)
    requires Valid(t) && Physical(t, c)
    ensures Canonical(t, c + [name], links) == Walk(t, c, [name], links)
  {
    PhysicalIsCanonical(t, c, 0);
    WalkFurther(t, [], c, [name], links);
  }

  /** The guarantee under a condition on the tree and the path: the first name taken for missing
      is missing, even to a walk that may follow twice as many links and refuses nothing. */
  lemma MissingForGoodIsInside(t: Tree, root: Path, parent: Path, lim: Limits, k: nat, c: Path)
    requires Valid(t) && NodeAt(t, root) == Some(Dir)
    requires forall i :: 0 <= i < |parent| ==> IsPlain(parent[i]) || parent[i] == ".."
    requires Starts(t, parent, lim, k, c)
    requires k < |parent| ==> Canonical(t, parent[..k + 1], 2 * lim.links).None?
    ensures Inside(t, CreateParents(t, root, parent, lim).tree, root)
  {
    InsideIffLandsInside(t, root, parent, lim);
    WalkIsPhysical(t, [], parent[..k], lim.links);
    PhysicalIsCanonical(t, c, lim.links);
    if k < |parent| && NodeAt(t, c) == Some(Dir) && c + [parent[k]] in t {
      var n := parent[k];
      OneMore(t, c, n, lim.links);
      assert parent[..k] + [n] == parent[..k + 1];
      if Walk(t, c, [n], lim.links).Some? {
        WalkThen(t, [], parent[..k], [n], lim.links, lim.links);
      }
      assert Landing(t, c, parent[k..], lim).None?;
    }
  }

  /** Below a root that is seen to exist, the climb ends at the root or above nothing but names
      taken for missing. */
  lemma {:induction false} ClimbEndsAtRoot(t: Tree, root: Path, names: seq<Name>, lim: Limits)
    requires Exists(t, root, lim)
    requires forall i :: 0 <= i < |names| ==> IsPlain(names[i])
    ensures Climb(t, root + names, lim).Some? && Climb(t, root + names, lim).value >= |root|
    decreases |names|
  {
    if names == [] {
      assert root + names == root;
    } else if !Exists(t, root + names, lim) {
      var before, name := names[..|names| - 1], names[|names| - 1];
      ClimbEndsAtRoot(t, root, before, lim);
      assert root + names == root + before + [name];
      ClimbStep(t, root + before, name, lim);
    }
  }

  // ---------- Limits that mislead ----------

  const WORKSPACE: Path := ["w"]

  /** A workspace holding a link to itself and a link out, to a directory without a `c`. */
  ghost predicate Linked(t: Tree) {
    && Valid(t)
    && NodeAt(t, WORKSPACE) == Some(Dir)
    && NodeAt(t, WORKSPACE + ["s"]) == Some(Link(false, ["."]))
    && NodeAt(t, WORKSPACE + ["b"]) == Some(Link(true, ["out"]))
    && NodeAt(t, ["out"]) == Some(Dir)
    && ["out", "c"] !in t
  }

  /** `s/s/.../s` n times, then the rest. */
  function Loops(n: nat, rest: seq<Name>): seq<Name> {
    if n == 0 then rest else ["s"] + Loops(n - 1, rest)
  }

  lemma {:induction false} LoopsWalk(t: Tree, n: nat, rest: seq<Name>, links: nat)
    requires Linked(t)
    ensures Walk(t, WORKSPACE, Loops(n, rest), links)
         == if n <= links then Walk(t, WORKSPACE, rest, links - n) else None
  {
    if n > 0 {
      var more := Loops(n - 1, rest);
      assert (["s"] + more)[1..] == more;
      if links > 0 {
        LoopsWalk(t, n - 1, rest, links - 1);
        assert (["."] + more)[1..] == more;
      }
    }
  }

  lemma LoopsCanonical(t: Tree, n: nat, rest: seq<Name>, links: nat)
    requires Linked(t)
    ensures Canonical(t, WORKSPACE + Loops(n, rest), links)
         == if n <= links then Walk(t, WORKSPACE, rest, links - n) else None
  {
    LoopsWalk(t, n, rest, links);
    PhysicalIsCanonical(t, WORKSPACE, 0);
    WalkFurther(t, [], WORKSPACE, Loops(n, rest), links);
  }

  lemma {:induction false} LoopsSplit(n: nat, rest: seq<Name>)
    ensures Loops(n, rest) == Loops(n, []) + rest && |Loops(n, [])| == n
  {
    if n > 0 {
      LoopsSplit(n - 1, rest);
    }
  }

  /** The path and its two ancestors. */
  lemma LoopsPath(n: nat)
    ensures var p := WORKSPACE + Loops(n, []);
            && |p| == n + 1
            && p + ["b"] == WORKSPACE + Loops(n, ["b"])
            && p + ["b"] + ["c"] == WORKSPACE + Loops(n, ["b", "c"])
            && (p + ["b"] + ["c"])[..n + 1] == p && (p + ["b"] + ["c"])[n + 1..] == ["b", "c"]
  {
    LoopsSplit(n, ["b"]);
    LoopsSplit(n, ["b", "c"]);
  }

  /** The link out takes one link. */
  lemma OutWalk(t: Tree, rest: seq<Name>, links: nat)
    requires Linked(t)
    ensures Walk(t, WORKSPACE, ["b"] + rest, links)
         == if links == 0 then None else Walk(t, ["out"], rest, links - 1)
  {
    assert (["b"] + rest)[1..] == rest;
    if links > 0 {
      assert (["out"] + rest)[1..] == rest;
      assert [] + ["out"] == ["out"];
    }
  }

  lemma LoopsClimb(t: Tree, lim: Limits)
    requires Linked(t) && lim.canonical(WORKSPACE + Loops(lim.links, []))
    requires lim.seen(WORKSPACE + Loops(lim.links, []))
    ensures Starts(t, WORKSPACE + Loops(lim.links, ["b", "c"]), lim, lim.links + 1, WORKSPACE)
  {
    var n := lim.links;
    var p := WORKSPACE + Loops(n, []);
    LoopsPath(n);
    LoopsCanonical(t, n, [], n);
    LoopsCanonical(t, n, ["b"], n);
    LoopsCanonical(t, n, ["b", "c"], n);
    OutWalk(t, [], 0);
    OutWalk(t, ["c"], 0);
    assert ["b"] + [] == ["b"] && ["b"] + ["c"] == ["b", "c"];
    ClimbStep(t, p, "b", lim);
    ClimbStep(t, p + ["b"], "c", lim);
  }

  lemma MakeB(t: Tree, lim: Limits)
    requires Linked(t) && lim.makes(WORKSPACE + ["b"])
    ensures MakeDir(t, WORKSPACE + ["b"], lim) == (t, AlreadyExists)
  {
    assert Parent(WORKSPACE + ["b"]) == WORKSPACE;
    PhysicalIsCanonical(t, WORKSPACE, lim.links);
  }

  lemma MakeC(t: Tree, lim: Limits)
    requires Linked(t) && lim.links >= 1 && lim.makes(WORKSPACE + ["b"] + ["c"])
    ensures MakeDir(t, WORKSPACE + ["b"] + ["c"], lim) == (t[["out", "c"] := Dir], Made)
  {
    assert Parent(WORKSPACE + ["b"] + ["c"]) == WORKSPACE + ["b"];
    OneMore(t, WORKSPACE, "b", lim.links);
    OutWalk(t, [], lim.links);
    assert ["b"] + [] == ["b"];
    assert ["out"] + ["c"] == ["out", "c"];
  }

  /** Once the climb stops at the workspace with the link out among the missing names, a
      directory is created outside. */
  lemma CreatesOutside(t: Tree, parent: Path, lim: Limits, k: nat)
    requires Linked(t) && lim.links >= 1 && lim.makes(WORKSPACE + ["b"]) && lim.makes(WORKSPACE + ["b"] + ["c"])
    requires Starts(t, parent, lim, k, WORKSPACE) && parent[k..] == ["b", "c"]
    ensures CreateParents(t, WORKSPACE, parent, lim) == Outcome(t[["out", "c"] := Dir], None)
    ensures !Inside(t, t[["out", "c"] := Dir], WORKSPACE)
  {
    MakeB(t, lim);
    MakeC(t, lim);
    assert ["b", "c"][1..] == ["c"] && ["c"][1..] == [];
    var p: Path := ["out", "c"];
    assert p in t[p := Dir] && p !in t && p[0] != "w";
  }

  /** Nothing but the links is limited. */
  function OnlyLinks(links: nat): Limits {
    Limits(links, _ => true, _ => true, _ => true)
  }

  lemma OnlyLinksAllows(links: nat, p: Path)
    ensures var lim := OnlyLinks(links); lim.links == links && lim.seen(p) && lim.canonical(p) && lim.makes(p)
  {
  }

  lemma LoopsMislead(t: Tree, lim: Limits)
    requires Linked(t) && lim.links >= 1
    requires lim.canonical(WORKSPACE + Loops(lim.links, [])) && lim.seen(WORKSPACE + Loops(lim.links, []))
    requires lim.makes(WORKSPACE + ["b"]) && lim.makes(WORKSPACE + ["b"] + ["c"])
    ensures CreateParents(t, WORKSPACE, WORKSPACE + Loops(lim.links, ["b", "c"]), lim)
         == Outcome(t[["out", "c"] := Dir], None)
    ensures !Inside(t, t[["out", "c"] := Dir], WORKSPACE)
  {
    LoopsClimb(t, lim);
    LoopsPath(lim.links);
    CreatesOutside(t, WORKSPACE + Loops(lim.links, ["b", "c"]), lim, lim.links + 1);
  }

  /** For every limit on links and every such tree there is a path that uses the limit up just
      before the link out of the workspace, nothing else being refused: the name looks missing,
      yet resolves from the canonical ancestor, and a directory is created outside. */
  lemma LimitMisleads(t: Tree, links: nat)
    requires Linked(t) && links >= 1
    ensures CreateParents(t, WORKSPACE, WORKSPACE + Loops(links, ["b", "c"]), OnlyLinks(links))
         == Outcome(t[["out", "c"] := Dir], None)
    ensures !Inside(t, t[["out", "c"] := Dir], WORKSPACE)
  {
    OnlyLinksAllows(links, WORKSPACE + Loops(links, []));
    OnlyLinksAllows(links, WORKSPACE + ["b"]);
    OnlyLinksAllows(links, WORKSPACE + ["b"] + ["c"]);
    LoopsMislead(t, OnlyLinks(links));
  }

  function AbsoluteText(p: Path): string {
    if p == [] then "/" else ['/'] + Join(p)
  }

  /** How the climb spells an ancestor: as much of the request's own text as reaches it. */
  function Spelled(root: Path, relative: string, p: Path): string {
    if |p| <= |root| then AbsoluteText(p)
    else AbsoluteText(root) + ['/'] + Join(Leading(Split(relative), |p| - |root|))
  }

  /** The limits of a Linux guest on the texts of one request. */
  function SystemLimits(links: nat, root: Path, relative: string): Limits {
    Limits(
      links,
      p => Length(Spelled(root, relative, p)) < PATH_MAX,
      _ => true,
      p => p != [] && Length(p[|p| - 1]) <= NAME_MAX && Length(AbsoluteText(p)) < PATH_MAX)
  }

  /** `././.../b/c/f`, with n dots. */
  function Dots(n: nat): string {
    if n == 0 then "b/c/f" else "." + ['/'] + Dots(n - 1)
  }

  function DotPieces(n: nat): seq<Name> {
    if n == 0 then ["b", "c", "f"] else ["."] + DotPieces(n - 1)
  }

  lemma {:induction false} DotsSplit(n: nat)
    ensures Split(Dots(n)) == DotPieces(n) && Names(Meaningful(DotPieces(n))) == ["b", "c", "f"]
    ensures ParentDir !in Meaningful(DotPieces(n))
  {
    if n == 0 {
      ThreeNames();
    } else {
      DotsSplit(n - 1);
      SplitFirst(".", Dots(n - 1));
      MeaningfulCons(".", DotPieces(n - 1));
    }
  }

  lemma ThreeNames()
    ensures Split("b/c/f") == ["b", "c", "f"] && Names(Meaningful(["b", "c", "f"])) == ["b", "c", "f"]
    ensures ParentDir !in Meaningful(["b", "c", "f"])
  {
    SplitFirst("f", "");
    SplitFirst("c", "f");
    assert "c" + ['/'] + "f" == "c/f" && ["c"] + ["f"] == ["c", "f"];
    SplitFirst("b", "c/f");
    assert "b" + ['/'] + "c/f" == "b/c/f" && ["b"] + ["c", "f"] == ["b", "c", "f"];
    PlainMeaningful(["b", "c", "f"]);
  }

  /** However few names are asked for, the dots before them are spelled out. */
  lemma {:induction false} DotsSpelled(n: nat, k: nat)
    requires k > 0
    ensures |Join(Leading(DotPieces(n), k))| >= 2 * n
  {
    if n > 0 {
      DotsSpelled(n - 1, k);
      var rest := Leading(DotPieces(n - 1), k);
      assert DotPieces(n)[1..] == DotPieces(n - 1) && DotPieces(n)[0] == ".";
      assert (["."] + rest)[1..] == rest;
      assert Join(["."] + rest) == "." + ['/'] + Join(rest);
    }
  }

  /** An ancestor below the workspace, spelled with the dots, is too long to be seen. */
  lemma DotsUnseen(n: nat, p: Path, links: nat)
    requires |p| > 1 && 2 * n >= PATH_MAX
    ensures !SystemLimits(links, WORKSPACE, Dots(n)).seen(p)
  {
    DotsSplit(n);
    DotsSpelled(n, |p| - 1);
    LengthAtLeast(Spelled(WORKSPACE, Dots(n), p));
  }

  lemma ShortJoins()
    ensures Join(["w"]) == "w" && Join(["w", "b"]) == "w/b" && Join(["w", "b", "c"]) == "w/b/c"
  {
    assert ["w", "b"][1..] == ["b"] && Join(["b"]) == "b" && Join(["c"]) == "c";
    assert ["b", "c"][1..] == ["c"] && Join(["b", "c"]) == "b" + ['/'] + "c";
    assert ["w", "b", "c"][1..] == ["b", "c"];
    assert "w" + ['/'] + "b" == "w/b" && "w" + ['/'] + ("b" + ['/'] + "c") == "w/b/c";
  }

  lemma ShortTexts()
    ensures AbsoluteText(["w"]) == "/w" && AbsoluteText(["w", "b"]) == "/w/b"
    ensures AbsoluteText(["w", "b", "c"]) == "/w/b/c"
    ensures Length("/w") == 2 && Length("/w/b") == 4 && Length("/w/b/c") == 6 && Length("b") == Length("c") == 1
  {
    ShortJoins();
    assert ['/'] + "w" == "/w" && ['/'] + "w/b" == "/w/b" && ['/'] + "w/b/c" == "/w/b/c";
    AsciiLength("/w");
    AsciiLength("/w/b");
    AsciiLength("/w/b/c");
    AsciiLength("b");
    AsciiLength("c");
  }

  /** The same without any limit on links in play: with enough dots in front, every ancestor below
      the workspace is spelled with more bytes than a path may have, and looks missing. */
  lemma LengthMisleads(t: Tree, links: nat, n: nat)
    requires Linked(t) && links >= 1 && 2 * n >= PATH_MAX
    ensures CleanJoin(WORKSPACE, Dots(n)) == Some(["w", "b", "c", "f"])
    ensures CreateParents(t, WORKSPACE, ["w", "b", "c"], SystemLimits(links, WORKSPACE, Dots(n)))
         == Outcome(t[["out", "c"] := Dir], None)
    ensures !Inside(t, t[["out", "c"] := Dir], WORKSPACE)
  {
    DotsJoin(n);
    DotLimits(n, links);
    UnseenMisleads(t, SystemLimits(links, WORKSPACE, Dots(n)));
  }

  /** The workspace is seen, nothing below it is, and all of it may be made. */
  predicate OnlyTopSeen(lim: Limits) {
    && lim.seen(WORKSPACE) && !lim.seen(WORKSPACE + ["b"]) && !lim.seen(WORKSPACE + ["b"] + ["c"])
    && lim.canonical(WORKSPACE) && lim.makes(WORKSPACE + ["b"]) && lim.makes(WORKSPACE + ["b"] + ["c"])
  }

  lemma UnseenMisleads(t: Tree, lim: Limits)
    requires Linked(t) && lim.links >= 1 && OnlyTopSeen(lim)
    ensures CreateParents(t, WORKSPACE, ["w", "b", "c"], lim) == Outcome(t[["out", "c"] := Dir], None)
    ensures !Inside(t, t[["out", "c"] := Dir], WORKSPACE)
  {
    StartsBelow(t, WORKSPACE, "b", "c", lim);
    assert WORKSPACE + ["b"] + ["c"] == ["w", "b", "c"];
    CreatesOutside(t, ["w", "b", "c"], lim, 1);
  }

  lemma TopSeen(n: nat, links: nat)
    ensures SystemLimits(links, WORKSPACE, Dots(n)).seen(WORKSPACE)
  {
    ShortTexts();
  }

  lemma ShortMade(n: nat, links: nat)
    ensures var lim := SystemLimits(links, WORKSPACE, Dots(n)); lim.makes(["w", "b"]) && lim.makes(["w", "b", "c"])
  {
    ShortTexts();
  }

  lemma DotLimits(n: nat, links: nat)
    requires 2 * n >= PATH_MAX
    ensures OnlyTopSeen(SystemLimits(links, WORKSPACE, Dots(n)))
  {
    TopSeen(n, links);
    ShortMade(n, links);
    DotsUnseen(n, WORKSPACE + ["b"], links);
    DotsUnseen(n, WORKSPACE + ["b"] + ["c"], links);
    assert WORKSPACE + ["b"] == ["w", "b"] && WORKSPACE + ["b"] + ["c"] == ["w", "b", "c"];
  }

  /** Two names below an existing directory that are not seen. */
  lemma StartsBelow(t: Tree, d: Path, b: Name, c: Name, lim: Limits)
    requires Valid(t) && NodeAt(t, d) == Some(Dir) && b != ".." && c != ".."
    requires lim.seen(d) && lim.canonical(d) && !lim.seen(d + [b]) && !lim.seen(d + [b] + [c])
    ensures Starts(t, d + [b] + [c], lim, |d|, d) && (d + [b] + [c])[|d|..] == [b, c]
  {
    PhysicalIsCanonical(t, d, lim.links);
    ClimbStep(t, d, b, lim);
    ClimbStep(t, d + [b], c, lim);
    assert (d + [b] + [c])[..|d|] == d;
  }

  lemma DotComponents(n: nat)
    requires n > 0
    ensures Components(Dots(n)) == [CurDir] + Meaningful(DotPieces(n)) && Dots(n) != []
  {
    DotsSplit(n);
    assert !IsAbsolute(Dots(n)) && Split(Dots(n))[0] == ".";
  }

  lemma DotsJoin(n: nat)
    requires n > 0
    ensures CleanJoin(WORKSPACE, Dots(n)) == Some(["w", "b", "c", "f"])
  {
    DotsSplit(n);
    DotComponents(n);
    var m := Meaningful(DotPieces(n));
    NoRoot(DotPieces(n));
    assert ([CurDir] + m)[1..] == m;
    assert Names([CurDir] + m) == Names(m);
    assert RootDir !in [CurDir] + m && ParentDir !in [CurDir] + m;
    assert WORKSPACE + ["b", "c", "f"] == ["w", "b", "c", "f"];
  }

  /** There is such a tree. */
  lemma LinkedExists()
    ensures Linked(
              map[["w"] := Dir, ["out"] := Dir, ["w", "s"] := Link(false, ["."]), ["w", "b"] := Link(true, ["out"])])
  {
    var t: Tree :=
      map[["w"] := Dir, ["out"] := Dir, ["w", "s"] := Link(false, ["."]), ["w", "b"] := Link(true, ["out"])];
    forall p ensures Placed(t, p) {
      if p == ["w", "s"] || p == ["w", "b"] {
        assert p[..1] == ["w"];
      }
    }
    assert WORKSPACE + ["s"] == ["w", "s"] && WORKSPACE + ["b"] == ["w", "b"];
  }
  // ---------- Where a write may go ----------

  /** An accepted write goes to a plain name in a canonical place at or below the root. */
  lemma WritesStayInside(t: Tree, root: Path, relative: string, createParents: bool, lim: Limits)
    requires Valid(t) && NodeAt(t, root) == Some(Dir) && (forall i :: 0 <= i < |root| ==> IsPlain(root[i]))
    ensures var (t', r) := Resolve(t, root, relative, createParents, lim);
            r.Ok? ==>
              && r.value != [] && IsPlain(r.value[|r.value| - 1])
              && root <= Parent(r.value) && Valid(t') && Physical(t', Parent(r.value))
              && Names(Components(relative)) != []
  {
    var names := Names(Components(relative));
    if Resolve(t, root, relative, createParents, lim).1.Ok? {
      NamesArePlain(relative);
      ResolvedIsInside(t, root, root + names, createParents, lim);
      if names == [] {
        assert root + names == root;
        AboveRoot(t, Prepare(t, root, Parent(root), createParents, lim).tree, root, lim.links);
      }
    }
  }

  lemma ResolvedIsInside(t: Tree, root: Path, candidate: Path, createParents: bool, lim: Limits)
    requires Valid(t) && candidate != [] && forall i :: 0 <= i < |candidate| ==> IsPlain(candidate[i])
    ensures var made := Prepare(t, root, Parent(candidate), createParents, lim);
            var parent := Canonical(made.tree, Parent(candidate), lim.links);
            && Valid(made.tree) && (forall p :: p in t ==> p in made.tree && made.tree[p] == t[p])
            && (parent.Some? ==>
                  && Physical(made.tree, parent.value)
                  && Parent(parent.value + [candidate[|candidate| - 1]]) == parent.value)
  {
    var made := Prepare(t, root, Parent(candidate), createParents, lim);
    CreationIsValid(t, root, Parent(candidate), lim);
    if Canonical(made.tree, Parent(candidate), lim.links).Some? {
      WalkIsPhysical(made.tree, [], Parent(candidate), lim.links);
    }
  }

  /** The root's own parent is no place to write. */
  lemma AboveRoot(t: Tree, t': Tree, root: Path, links: nat)
    requires Valid(t) && NodeAt(t, root) == Some(Dir) && root != []
    requires forall p :: p in t ==> p in t' && t'[p] == t[p]
    ensures Canonical(t', Parent(root), links) == Some(Parent(root)) && !(root <= Parent(root))
  {
    PrefixesAreDirs(t, root, |root| - 1);
    PhysicalIsCanonical(t, Parent(root), links);
    WalkGrows(t, t', [], Parent(root), links);
  }

  lemma BranchKeeps(t: Tree, place: Path, names: seq<Name>)
    requires Valid(t) && names != [] && place + [names[0]] !in t
    ensures forall p :: p in t ==> p in AddDirs(t, place, names) && AddDirs(t, place, names)[p] == t[p]
  {
    forall p | p in t ensures p in AddDirs(t, place, names) && AddDirs(t, place, names)[p] == t[p] {
      AddDirsEntries(t, place, names, p);
      if Below(p, place, names) { BelowAbsent(t, place, names, p); }
    }
  }

  lemma CreationIsValid(t: Tree, root: Path, parent: Path, lim: Limits)
    requires Valid(t) && forall i :: 0 <= i < |parent| ==> IsPlain(parent[i])
    ensures var t' := CreateParents(t, root, parent, lim).tree;
            Valid(t') && forall p :: p in t ==> p in t' && t'[p] == t[p]
  {
    var climb := Climb(t, parent, lim);
    if climb.Some? {
      var k := climb.value;
      var c := Canonical(t, parent[..k], lim.links).value;
      CreationIsOneBranch(t, c, parent[k..], lim);
      var landing := Landing(t, c, parent[k..], lim);
      if landing.Some? {
        BranchKeeps(t, landing.value.0, Created(c, parent[k..], landing.value.1, lim));
      }
    }
  }

  // ---------- The ordinary case ----------

  /** Ancestors that are directories or absent, in a system that refuses none of their texts. */
  ghost predicate Ordinary(t: Tree, root: Path, names: seq<Name>, lim: Limits) {
    && Valid(t) && NodeAt(t, root) == Some(Dir)
    && (forall i :: 0 <= i < |names| ==> IsPlain(names[i]))
    && (forall i :: 0 <= i <= |names| ==> lim.canonical(root + names[..i]))
    && (forall i :: 0 < i <= |names| ==>
          NodeAt(t, root + names[..i]) in {None, Some(Dir)} && lim.makes(root + names[..i]))
  }

  lemma MissingTail(t: Tree, d: Path, rest: seq<Name>, links: nat)
    requires Valid(t) && Physical(t, d) && rest != [] && IsPlain(rest[0]) && d + [rest[0]] !in t
    ensures Canonical(t, d + rest, links).None?
  {
    PhysicalIsCanonical(t, d, 0);
    WalkFurther(t, [], d, rest, links);
  }

  /** What resolves along an ordinary path is a directory under its own name. */
  lemma {:induction false} OrdinaryResolves(t: Tree, root: Path, names: seq<Name>, lim: Limits, i: nat)
    requires Ordinary(t, root, names, lim) && i <= |names| && Canonical(t, root + names[..i], lim.links).Some?
    ensures NodeAt(t, root + names[..i]) == Some(Dir)
    ensures Canonical(t, root + names[..i], lim.links) == Some(root + names[..i])
  {
    var j := LastDir(t, root, names);
    var d := root + names[..j];
    if i > j {
      assert root + names[..i] == d + names[j..i];
      assert d + [names[j]] == root + names[..j + 1];
      MissingTail(t, d, names[j..i], lim.links);
    } else if i < j {
      assert d[..|root| + i] == root + names[..i];
      PrefixesAreDirs(t, d, |root| + i);
    }
    PhysicalIsCanonical(t, root + names[..i], lim.links);
  }

  lemma {:induction false} LastDir(t: Tree, root: Path, names: seq<Name>) returns (j: nat)
    requires Valid(t) && NodeAt(t, root) == Some(Dir)
    ensures j <= |names| && NodeAt(t, root + names[..j]) == Some(Dir)
    ensures j < |names| ==> NodeAt(t, root + names[..j + 1]) != Some(Dir)
    decreases |names|
  {
    j := 0;
    assert root + names[..0] == root;
    while j < |names| && NodeAt(t, root + names[..j + 1]) == Some(Dir)
      invariant j <= |names| && NodeAt(t, root + names[..j]) == Some(Dir)
    {
      j := j + 1;
    }
  }

  lemma {:induction false} OrdinaryAccepted(root: Path, names: seq<Name>, i: nat, lim: Limits)
    requires i <= |names| && forall k :: i < k <= |names| ==> lim.makes(root + names[..k])
    ensures Accepted(root + names[..i], names[i..], lim) == |names| - i
    decreases |names| - i
  {
    if i < |names| {
      assert root + names[..i] + [names[i]] == root + names[..i + 1] && names[i..][1..] == names[i + 1..];
      OrdinaryAccepted(root, names, i + 1, lim);
    }
  }

  ghost predicate AllMade(t: Tree, root: Path, names: seq<Name>, lim: Limits, i: nat)
    requires i <= |names|
  {
    var made := MakeAll(t, root + names[..i], names[i..], lim);
    && made.error.None? && Inside(t, made.tree, root)
    && Canonical(made.tree, root + names, lim.links) == Some(root + names)
  }

  lemma OrdinaryFresh(t: Tree, root: Path, names: seq<Name>, lim: Limits, i: nat)
    requires Ordinary(t, root, names, lim) && i < |names| && NodeAt(t, root + names[..i]) == Some(Dir)
    requires root + names[..i] + [names[i]] !in t
    ensures AllMade(t, root, names, lim, i)
  {
    var d, rest := root + names[..i], names[i..];
    PhysicalIsCanonical(t, d, lim.links);
    AllFresh(t, d, d, rest, lim);
    OrdinaryAccepted(root, names, i, lim);
    assert rest[..|rest|] == rest && d + rest == root + names;
    BranchInside(t, d, rest, root);
  }

  lemma OrdinaryThere(t: Tree, root: Path, names: seq<Name>, lim: Limits, i: nat)
    requires Ordinary(t, root, names, lim) && i < |names| && NodeAt(t, root + names[..i]) == Some(Dir)
    requires root + names[..i] + [names[i]] in t && AllMade(t, root, names, lim, i + 1)
    ensures AllMade(t, root, names, lim, i)
  {
    var d, rest := root + names[..i], names[i..];
    PhysicalIsCanonical(t, d, lim.links);
    assert d + [rest[0]] == root + names[..i + 1] && rest[1..] == names[i + 1..] && Parent(d + [rest[0]]) == d;
  }

  /** From an ancestor that is there, through those that are there, to those that are not. */
  lemma {:induction false} OrdinaryMakes(t: Tree, root: Path, names: seq<Name>, lim: Limits, i: nat)
    requires Ordinary(t, root, names, lim) && i <= |names| && NodeAt(t, root + names[..i]) == Some(Dir)
    ensures AllMade(t, root, names, lim, i)
    decreases |names| - i
  {
    if i == |names| {
      assert root + names[..i] == root + names && names[i..] == [];
      PhysicalIsCanonical(t, root + names, lim.links);
    } else if root + names[..i] + [names[i]] in t {
      assert root + names[..i] + [names[i]] == root + names[..i + 1];
      OrdinaryMakes(t, root, names, lim, i + 1);
      OrdinaryThere(t, root, names, lim, i);
    } else {
      OrdinaryFresh(t, root, names, lim, i);
    }
  }

  /** Where every ancestor is a directory or absent, and none of their texts is refused but
      perhaps by the test for existence, creation succeeds and what was asked for is there, under
      its own name. */
  lemma OrdinaryPathsAreCreated(t: Tree, root: Path, names: seq<Name>, lim: Limits)
    requires Ordinary(t, root, names, lim) && lim.seen(root)
    ensures var made := CreateParents(t, root, root + names, lim);
            && made.error.None? && Inside(t, made.tree, root)
            && Canonical(made.tree, root + names, lim.links) == Some(root + names)
  {
    PhysicalIsCanonical(t, root, lim.links);
    ClimbEndsAtRoot(t, root, names, lim);
    var k := Climb(t, root + names, lim).value;
    var i := k - |root|;
    assert (root + names)[..k] == root + names[..i] && (root + names)[k..] == names[i..];
    OrdinaryResolves(t, root, names, lim, i);
    OrdinaryMakes(t, root, names, lim, i);
  }

  // ---------- Where a write does go ----------

  /** The texts that name nothing below the root: empty, absolute, or climbing. */
  predicate BadText(relative: string) {
    relative == [] || relative[0] == '/' || exists i :: 0 <= i < |Split(relative)| && Split(relative)[i] == ".."
  }

  lemma BadTextIff(root: Path, relative: string)
    ensures CleanJoin(root, relative).None? <==> BadText(relative)
  {
    ParentDirIff(Split(relative));
    NoRoot(Split(relative));
    var m := Meaningful(Split(relative));
    assert forall c :: c in Components(relative) && c != CurDir && c != RootDir ==> c in m;
    assert forall c :: c in m ==> c in Components(relative);
    assert IsAbsolute(relative) ==> Components(relative)[0] == RootDir;
  }

  lemma {:induction false} MakeAllFails(t: Tree, cursor: Path, names: seq<Name>, lim: Limits)
    ensures MakeAll(t, cursor, names, lim).error in {None, Some(Failed)}
    decreases |names|
  {
    if names != [] {
      var made := MakeDir(t, cursor + [names[0]], lim);
      if !made.1.NotMade? {
        MakeAllFails(made.0, cursor + [names[0]], names[1..], lim);
      }
    }
  }

  lemma AnswerAt(t: Tree, root: Path, up: Path, name: Name, createParents: bool, lim: Limits)
    ensures var (t', r) := ResolveAt(t, root, up + [name], createParents, lim);
            && (!createParents ==> t' == t) && r != Err(Invalid)
            && (r.Ok? ==>
                  && r.value != [] && r.value[|r.value| - 1] == name
                  && Canonical(t', up, lim.links) == Some(Parent(r.value)))
  {
    assert Parent(up + [name]) == up;
    if createParents && Climb(t, up, lim).Some? {
      var k := Climb(t, up, lim).value;
      MakeAllFails(t, Canonical(t, up[..k], lim.links).value, up[k..], lim);
    }
    var parent := Canonical(Prepare(t, root, up, createParents, lim).tree, up, lim.links);
    assert parent.Some? ==> Parent(parent.value + [name]) == parent.value;
  }

  lemma LastSplits(root: Path, names: seq<Name>)
    requires root + names != []
    ensures root + names == Parent(root + names) + [(root + names)[|root + names| - 1]]
    ensures names != [] ==> Parent(root + names) == root + names[..|names| - 1]
  {
  }

  /** An accepted write goes to the last name asked for, in the place where the names before it lead
      in the tree as it then is, nothing having changed unless parents were to be created. Only a bad
      text, or one that names nothing when the root is the top, is called invalid. */
  lemma WritesGoWhereAsked(t: Tree, root: Path, relative: string, createParents: bool, lim: Limits)
    requires Valid(t) && NodeAt(t, root) == Some(Dir) && (forall i :: 0 <= i < |root| ==> IsPlain(root[i]))
    ensures var (t', r) := Resolve(t, root, relative, createParents, lim);
            var names := Names(Components(relative));
            && (!createParents ==> t' == t)
            && (r == Err(Invalid) <==> BadText(relative) || root + names == [])
            && (r.Ok? ==>
                  && names != [] && r.value != [] && r.value[|r.value| - 1] == names[|names| - 1]
                  && Canonical(t', root + names[..|names| - 1], lim.links) == Some(Parent(r.value)))
  {
    BadTextIff(root, relative);
    var candidate := root + Names(Components(relative));
    if candidate != [] {
      LastSplits(root, Names(Components(relative)));
      AnswerAt(t, root, Parent(candidate), candidate[|candidate| - 1], createParents, lim);
      NamesOfAccepted(t, root, relative, createParents, lim);
    }
  }

  lemma NamesOfAccepted(t: Tree, root: Path, relative: string, createParents: bool, lim: Limits)
    requires Valid(t) && NodeAt(t, root) == Some(Dir) && (forall i :: 0 <= i < |root| ==> IsPlain(root[i]))
    ensures Resolve(t, root, relative, createParents, lim).1.Ok? ==> Names(Components(relative)) != []
  {
    WritesStayInside(t, root, relative, createParents, lim);
  }

  /** Without creation, a write is accepted exactly when the names before the last lead to a place at or
      below the root. */
  lemma AcceptedIff(t: Tree, root: Path, relative: string, lim: Limits)
    requires Valid(t) && NodeAt(t, root) == Some(Dir) && (forall i :: 0 <= i < |root| ==> IsPlain(root[i]))
    ensures var names := Names(Components(relative));
            Resolve(t, root, relative, false, lim).1.Ok?
            <==> && !BadText(relative) && names != [] && lim.canonical(root + names[..|names| - 1])
                 && Canonical(t, root + names[..|names| - 1], lim.links).Some?
                 && root <= Canonical(t, root + names[..|names| - 1], lim.links).value
  {
    BadTextIff(root, relative);
    NamesOfAccepted(t, root, relative, false, lim);
    if root + Names(Components(relative)) != [] {
      LastSplits(root, Names(Components(relative)));
    }
  }

  /** On an ordinary path that is the root and the names, the missing ones created if that is asked for. */
  lemma OrdinaryWritesGoBelow(t: Tree, root: Path, relative: string, lim: Limits)
    requires !BadText(relative) && Names(Components(relative)) != []
    requires var names := Names(Components(relative));
             Ordinary(t, root, names[..|names| - 1], lim) && lim.seen(root)
    ensures var names := Names(Components(relative));
            && Resolve(t, root, relative, true, lim).1 == Ok(root + names)
            && (NodeAt(t, root + names[..|names| - 1]) == Some(Dir) ==>
                  Resolve(t, root, relative, false, lim) == (t, Ok(root + names)))
  {
    var names := Names(Components(relative));
    BadTextIff(root, relative);
    LastSplits(root, names);
    assert (root + names)[|root + names| - 1] == names[|names| - 1];
    OrdinaryAnswer(t, root, names[..|names| - 1], names[|names| - 1], lim);
  }

  lemma OrdinaryAnswer(t: Tree, root: Path, up: seq<Name>, name: Name, lim: Limits)
    requires Ordinary(t, root, up, lim) && lim.seen(root)
    ensures ResolveAt(t, root, root + up + [name], true, lim).1 == Ok(root + up + [name])
    ensures NodeAt(t, root + up) == Some(Dir) ==>
              ResolveAt(t, root, root + up + [name], false, lim) == (t, Ok(root + up + [name]))
  {
    assert Parent(root + up + [name]) == root + up;
    OrdinaryPathsAreCreated(t, root, up, lim);
    assert lim.canonical(root + up[..|up|]) && up[..|up|] == up;
    if NodeAt(t, root + up) == Some(Dir) {
      PhysicalIsCanonical(t, root + up, lim.links);
    }
  }
}
