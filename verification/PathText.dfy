/**
 Paths as the guest service and the HTTP interface read them: text cut at `/`, where empty
 pieces and interior dots stand for nothing, a dot in front of a relative path is kept, and
 two dots climb. Texts and the names in them are different things: `a/b` and `a//b` are two
 texts for one place, and `a/` names a directory only.
 */
module PathText {
  import opened RustText

  type Name = string

  /** What Linux allows a path's text, its end mark included, and one name in it. */
  const PATH_MAX: nat := 4096
  const NAME_MAX: nat := 255

  datatype Component = RootDir | CurDir | ParentDir | Normal(name: Name)

  /** The pieces between slashes; one more than there are slashes. */
  function Split(s: string): (r: seq<Name>)
    ensures r != []
  {
    if s == [] then [[]]
    else
      var rest := Split(s[1..]);
      if s[0] == '/' then [[]] + rest else [[s[0]] + rest[0]] + rest[1..]
  }

  function Join(parts: seq<Name>): string
    requires parts != []
  {
    if |parts| == 1 then parts[0] else parts[0] + ['/'] + Join(parts[1..])
  }

  /** The pieces that name something, in order. */
  function Meaningful(parts: seq<Name>): seq<Component> {
    if parts == [] then []
    else
      var rest := Meaningful(parts[1..]);
      if IsSilent(parts[0]) then rest
      else [if parts[0] == ".." then ParentDir else Normal(parts[0])] + rest
  }

  predicate IsSilent(part: Name) { part == [] || part == "." }

  /** The shortest beginning in which k pieces name something, or all there are. */
  function Leading(parts: seq<Name>, k: nat): (r: seq<Name>)
    requires parts != []
    ensures r != []
  {
    if |parts| == 1 || (k <= 1 && !IsSilent(parts[0])) then [parts[0]]
    else [parts[0]] + Leading(parts[1..], if IsSilent(parts[0]) then k else k - 1)
  }

  lemma {:induction false} LeadingIsPrefix(parts: seq<Name>, k: nat)
    requires parts != []
    ensures Join(Leading(parts, k)) <= Join(parts)
  {
    if |parts| > 1 && !(k <= 1 && !IsSilent(parts[0])) {
      var more := if IsSilent(parts[0]) then k else k - 1;
      LeadingIsPrefix(parts[1..], more);
      assert ([parts[0]] + Leading(parts[1..], more))[1..] == Leading(parts[1..], more);
    }
  }

  predicate IsAbsolute(s: string) { s != [] && s[0] == '/' }

  /** `Path::components`: a dot counts only as the first piece of a relative path. */
  function Components(s: string): seq<Component> {
    (if IsAbsolute(s) then [RootDir] else if Split(s)[0] == "." then [CurDir] else []) + Meaningful(Split(s))
  }

  /** The names among the components. */
  function Names(cs: seq<Component>): seq<Name> {
    if cs == [] then []
    else (if cs[0].Normal? then [cs[0].name] else []) + Names(cs[1..])
  }

  predicate IsPlain(n: Name) { n != [] && n != "." && n != ".." && '/' !in n }

  lemma {:induction false} SplitHasNoSlash(s: string)
    ensures forall i :: 0 <= i < |Split(s)| ==> '/' !in Split(s)[i]
  {
    if s != [] {
      SplitHasNoSlash(s[1..]);
    }
  }

  /** Joining the pieces gives the text back: nothing is lost in splitting. */
  lemma {:induction false} JoinSplit(s: string)
    ensures Join(Split(s)) == s
  {
    if s != [] {
      JoinSplit(s[1..]);
      var rest := Split(s[1..]);
      if s[0] == '/' {
        assert Split(s)[1..] == rest;
        assert Join(Split(s)) == [] + ['/'] + s[1..];
      } else if |rest| > 1 {
        assert Split(s)[1..] == rest[1..];
        assert [s[0]] + rest[0] + ['/'] + Join(rest[1..]) == [s[0]] + (rest[0] + ['/'] + Join(rest[1..]));
      }
    }
  }

  lemma {:induction false} MeaningfulNamesArePlain(parts: seq<Name>)
    requires forall i :: 0 <= i < |parts| ==> '/' !in parts[i]
    ensures forall i :: 0 <= i < |Names(Meaningful(parts))| ==> IsPlain(Names(Meaningful(parts))[i])
  {
    if parts != [] {
      MeaningfulNamesArePlain(parts[1..]);
      var m := Meaningful(parts);
      if !IsSilent(parts[0]) {
        assert m[1..] == Meaningful(parts[1..]);
      }
    }
  }

  lemma {:induction false} NoRoot(parts: seq<Name>)
    ensures RootDir !in Meaningful(parts) && CurDir !in Meaningful(parts)
  {
    if parts != [] {
      NoRoot(parts[1..]);
    }
  }

  lemma {:induction false} ParentDirIff(parts: seq<Name>)
    ensures ParentDir in Meaningful(parts) <==> exists i :: 0 <= i < |parts| && parts[i] == ".."
  {
    if parts != [] {
      var rest := parts[1..];
      ParentDirIff(rest);
      if ParentDir in Meaningful(rest) {
        var i :| 0 <= i < |rest| && rest[i] == "..";
        assert parts[i + 1] == "..";
      }
      if i :| 0 < i < |parts| && parts[i] == ".." {
        assert rest[i - 1] == "..";
      }
    }
  }

  /** Names that can stand as entries are what they say. */
  lemma {:induction false} PlainMeaningful(parts: seq<Name>)
    requires forall i :: 0 <= i < |parts| ==> IsPlain(parts[i])
    ensures Names(Meaningful(parts)) == parts && ParentDir !in Meaningful(parts)
    ensures forall i :: 0 <= i < |Meaningful(parts)| ==> Meaningful(parts)[i].Normal?
  {
    if parts != [] {
      PlainMeaningful(parts[1..]);
      assert Meaningful(parts)[1..] == Meaningful(parts[1..]);
    }
  }

  /** The names of any text can each stand as a directory entry. */
  lemma NamesArePlain(s: string)
    ensures forall i :: 0 <= i < |Names(Components(s))| ==> IsPlain(Names(Components(s))[i])
  {
    SplitHasNoSlash(s);
    MeaningfulNamesArePlain(Split(s));
    var m := Meaningful(Split(s));
    var c := Components(s);
    if c != m {
      assert c[1..] == m;
    }
  }

  // ---------- Where texts and names part ----------

  lemma {:induction false} SplitFirst(a: Name, s: string)
    requires '/' !in a
    ensures Split(a + ['/'] + s) == [a] + Split(s) && Split(a) == [a]
  {
    if a == [] {
      assert (a + ['/'] + s)[1..] == s;
    } else {
      SplitFirst(a[1..], s);
      assert a[0] in a && [a[0]] + a[1..] == a;
      assert (a + ['/'] + s)[1..] == a[1..] + ['/'] + s;
      assert ([a[1..]] + Split(s))[1..] == Split(s);
    }
  }

  lemma MeaningfulCons(p: Name, rest: seq<Name>)
    ensures Meaningful([p] + rest)
         == (if IsSilent(p) then [] else [if p == ".." then ParentDir else Normal(p)]) + Meaningful(rest)
  {
    assert ([p] + rest)[1..] == rest;
  }

  /** Two texts for one place: a doubled slash changes nothing. */
  lemma DoubledSlash(a: Name, b: Name)
    requires IsPlain(a) && IsPlain(b)
    ensures var s, t := a + ['/'] + b, a + ['/'] + (['/'] + b);
            s != t && Split(s) == [a] + [b] && Split(t) == [a] + ([[]] + [b])
            && Components(s) == Components(t) == [Normal(a), Normal(b)]
  {
    SplitFirst(a, b);
    SplitFirst(b, []);
    SplitFirst([], b);
    assert [] + ['/'] + b == ['/'] + b;
    SplitFirst(a, ['/'] + b);
    MeaningfulCons(b, []);
    MeaningfulCons([], [b]);
    MeaningfulCons(a, [b]);
    MeaningfulCons(a, [[]] + [b]);
    assert [b] + [] == [b];
    assert |a + ['/'] + b| + 1 == |a + ['/'] + (['/'] + b)|;
  }

  /** A text that names a directory only. */
  lemma TrailingSlash(a: Name)
    requires IsPlain(a)
    ensures var s := a + ['/']; Components(s) == [Normal(a)] && Split(s) == [a, []]
  {
    SplitFirst(a, []);
    assert a + ['/'] + [] == a + ['/'];
    MeaningfulCons([], []);
    var empty: Name := [];
    assert [empty] + [] == [empty] && [a] + [empty] == [a, []];
    MeaningfulCons(a, [[]]);
  }

  lemma NamesOfTwo(a: Name, b: Name)
    ensures Names([Normal(a), Normal(b)]) == [a, b]
  {
    assert [Normal(a), Normal(b)][1..] == [Normal(b)];
    assert [Normal(b)][1..] == [];
    assert Names([Normal(b)]) == [b];
  }

  // ---------- The normal text of a place ----------

  /** The names with single slashes between them. */
  function NormalText(s: string): string
    requires Names(Components(s)) != []
  {
    Join(Names(Components(s)))
  }

  lemma {:induction false} SplitOfJoin(parts: seq<Name>)
    requires parts != [] && forall i :: 0 <= i < |parts| ==> '/' !in parts[i]
    ensures Split(Join(parts)) == parts
  {
    if |parts| == 1 {
      SplitFirst(parts[0], []);
    } else {
      SplitOfJoin(parts[1..]);
      SplitFirst(parts[0], Join(parts[1..]));
    }
  }

  /** Names that can stand as entries, joined, are read back as they are. */
  lemma JoinedComponents(names: seq<Name>)
    requires names != [] && forall i :: 0 <= i < |names| ==> IsPlain(names[i])
    ensures Components(Join(names)) == Meaningful(names) && Names(Components(Join(names))) == names
    ensures !IsAbsolute(Join(names))
  {
    SplitOfJoin(names);
    PlainMeaningful(names);
    assert IsPlain(names[0]) && names[0][0] in names[0] && Join(names)[0] == names[0][0];
  }

  /** Components that are all names are those names. */
  lemma {:induction false} AllNormalAreNames(cs: seq<Component>)
    requires forall i :: 0 <= i < |cs| ==> cs[i].Normal?
    ensures |Names(cs)| == |cs| && forall i :: 0 <= i < |cs| ==> cs[i] == Normal(Names(cs)[i])
  {
    if cs != [] {
      AllNormalAreNames(cs[1..]);
    }
  }

  /** A place has one normal text: the same components, again normal. */
  lemma NormalTextIsNormal(s: string)
    requires Components(s) != [] && forall i :: 0 <= i < |Components(s)| ==> Components(s)[i].Normal?
    ensures Names(Components(s)) != []
    ensures Components(NormalText(s)) == Components(s) && NormalText(NormalText(s)) == NormalText(s)
    ensures !IsAbsolute(NormalText(s))
  {
    var names := Names(Components(s));
    AllNormalAreNames(Components(s));
    NamesArePlain(s);
    JoinedComponents(names);
    PlainMeaningful(names);
    AllNormalAreNames(Meaningful(names));
  }

  /** Dropping silent pieces lengthens nothing and brings nothing in. */
  lemma {:induction false} NormalIsNoLonger(parts: seq<Name>, c: char)
    requires parts != [] && ParentDir !in Meaningful(parts) && Names(Meaningful(parts)) != []
    ensures Length(Join(Names(Meaningful(parts)))) <= Length(Join(parts))
    ensures c != '/' && c in Join(Names(Meaningful(parts))) ==> c in Join(parts)
  {
    if |parts| > 1 {
      var rest := parts[1..];
      var kept := Names(Meaningful(rest));
      LengthConcat(parts[0] + ['/'], Join(rest));
      LengthConcat(parts[0], ['/']);
      if kept != [] {
        NormalIsNoLonger(rest, c);
      }
      if !IsSilent(parts[0]) {
        assert Meaningful(parts)[1..] == Meaningful(rest);
        assert Names(Meaningful(parts)) == [parts[0]] + kept;
        if kept != [] {
          assert ([parts[0]] + kept)[1..] == kept;
          LengthConcat(parts[0] + ['/'], Join(kept));
        }
      }
    }
  }
}
