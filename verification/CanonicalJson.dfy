/**
 The canonical JSON printer behind the capsule identity.

 `Json` is a value as the runtime holds it: an object is its own properties in
 insertion order. `Value` is what that JSON means: an object is a map. What is printed
 reads as its meaning, and the meaning determines it.
 */
module CanonicalJson {
  import opened Wrappers
  import opened JsonText
  import opened Ordering
  import Decimal
  import Utf8
  import opened Bytes

  predicate NumeralUnit(c: CodeUnit) { Decimal.IsDigit(c) || c == 43 || c == 45 || c == 46 || c == 101 }

  /** A finite number as `JSON.stringify` writes it, the shortest decimal numeral that reads back
      as it: digits, sign, point and exponent. Equal numbers have equal numerals, different ones
      different. */
  type Numeral = t: Text
    | t != [] && (t[0] == 45 || Decimal.IsDigit(t[0])) && forall i :: 0 <= i < |t| ==> NumeralUnit(t[i])
    witness [48]

  datatype Member = Member(key: Text, value: Json)

  datatype Json =
    | Null
    | Bool(b: bool)
    | Num(n: Numeral)
    | NotFinite
    | Str(s: Text)
    | Arr(items: seq<Json>)
    | Obj(members: seq<Member>)

  datatype Value =
    | VNull
    | VBool(b: bool)
    | VNum(n: Numeral)
    | VStr(s: Text)
    | VArr(items: seq<Value>)
    | VObj(fields: map<Text, Value>)

  predicate DistinctKeys(ms: seq<Member>) {
    forall i, j :: 0 <= i < j < |ms| ==> ms[i].key != ms[j].key
  }

  /** What the runtime guarantees of every object: one property per key. */
  predicate Valid(j: Json) {
    match j
    case Arr(items) => forall i :: 0 <= i < |items| ==> Valid(items[i])
    case Obj(ms) => DistinctKeys(ms) && forall i :: 0 <= i < |ms| ==> Valid(ms[i].value)
    case _ => true
  }

  function Keys(ms: seq<Member>): (ks: seq<Text>)
    ensures |ks| == |ms| && forall i :: 0 <= i < |ms| ==> ks[i] == ms[i].key
  {
    seq(|ms|, i requires 0 <= i < |ms| => ms[i].key)
  }

  /** `value[key]` for a key the object has. */
  function Get(j: Json, key: Text): (v: Json)
    requires j.Obj? && key in Keys(j.members)
    ensures v < j
    ensures exists i :: 0 <= i < |j.members| && j.members[i].key == key && j.members[i].value == v
  {
    Lookup(j.members, key)
  }

  function Lookup(ms: seq<Member>, key: Text): (v: Json)
    requires key in Keys(ms)
    ensures exists i :: 0 <= i < |ms| && ms[i].key == key && ms[i].value == v
  {
    if ms[0].key == key then ms[0].value
    else
      assert forall i :: 1 <= i < |ms| ==> Keys(ms[1..])[i - 1] == Keys(ms)[i];
      Lookup(ms[1..], key)
  }

  /** Objects as maps, at every depth. JSON has no NaN and no infinity; `JSON.stringify` makes
      them null. */
  ghost function Meaning(j: Json): Value
    decreases j, 1
  {
    match j
    case Null => VNull
    case NotFinite => VNull
    case Bool(b) => VBool(b)
    case Num(n) => VNum(n)
    case Str(s) => VStr(s)
    case Arr(items) => VArr(seq(|items|, i requires 0 <= i < |items| => Meaning(items[i])))
    case Obj(ms) => VObj(map k | k in Keys(ms) :: Meaning(Get(j, k)))
  }

  const TEXT_KEY: Text -> seq<nat> := t => t

  /** `Object.keys(value).sort()`. */
  function SortedKeys(ms: seq<Member>): (ks: seq<Text>)
    ensures multiset(ks) == multiset(Keys(ms))
    ensures forall k :: k in ks <==> k in Keys(ms)
  {
    var ks := SortBy(Keys(ms), TEXT_KEY);
    assert forall k :: k in ks <==> k in multiset(ks);
    assert forall k :: k in Keys(ms) <==> k in multiset(Keys(ms));
    ks
  }

  const NULL_TEXT := Ascii("null")
  const TRUE_TEXT := Ascii("true")
  const FALSE_TEXT := Ascii("false")
  const COMMA: Text := [44]
  const COLON: Text := [58]
  const OPEN_ARRAY: Text := [91]
  const CLOSE_ARRAY: Text := [93]
  const OPEN_OBJECT: Text := [123]
  const CLOSE_OBJECT: Text := [125]

  /** The numeral of a natural number below the point where exponents begin. */
  function NatNumeral(n: nat): (t: Numeral)
    ensures t == Decimal.Digits(n)
  {
    var d := Decimal.Digits(n);
    assert forall i :: 0 <= i < |d| ==> Decimal.IsDigit(d[i]);
    seq(|d|, i requires 0 <= i < |d| => d[i])
  }

  function Print(j: Json): Text
    decreases j, 1, 0
  {
    match j
    case Null => NULL_TEXT
    case NotFinite => NULL_TEXT
    case Bool(b) => if b then TRUE_TEXT else FALSE_TEXT
    case Num(n) => n
    case Str(s) => Quote(s)
    case Arr(items) => OPEN_ARRAY + PrintItems(j, 0) + CLOSE_ARRAY
    case Obj(ms) => OPEN_OBJECT + PrintFields(j, SortedKeys(ms)) + CLOSE_OBJECT
  }

  /** The items of array j from index i on, joined by commas. */
  function PrintItems(j: Json, i: nat): Text
    requires j.Arr? && i <= |j.items|
    decreases j, 0, |j.items| - i
  {
    if i == |j.items| then []
    else Print(j.items[i]) + (if i + 1 == |j.items| then [] else COMMA + PrintItems(j, i + 1))
  }

  function PrintFields(j: Json, ks: seq<Text>): Text
    requires j.Obj? && forall k :: k in ks ==> k in Keys(j.members)
    decreases j, 0, |ks|
  {
    if ks == [] then []
    else
      Quote(ks[0]) + COLON + Print(Get(j, ks[0]))
      + (if |ks| == 1 then [] else COMMA + PrintFields(j, ks[1..]))
  }

  // ---------- Reading canonical text ----------

  /** How many numeral units t begins with. */
  function NumeralRun(t: Text): (n: nat)
    ensures n <= |t| && forall i :: 0 <= i < n ==> NumeralUnit(t[i])
  {
    if t == [] || !NumeralUnit(t[0]) then 0 else 1 + NumeralRun(t[1..])
  }

  /** JSON values (section 3 of RFC 8259) at the beginning of t, without any white space, the names in
      each object strictly ascending by code units. */
  function ReadValue(t: Text): (r: Option<(Value, Text)>)
    ensures r.Some? ==> |r.value.1| < |t|
    decreases |t|, 0
  {
    if t == [] then None
    else if t[0] == '"' as int then
      match ReadString(t)
      case None => None
      case Some((s, rest)) => Some((VStr(s), rest))
    else if t[0] == '[' as int then
      if |t| > 1 && t[1] == ']' as int then Some((VArr([]), t[2..]))
      else
        match ReadItems(t[1..])
        case None => None
        case Some((items, rest)) => Some((VArr(items), rest))
    else if t[0] == '{' as int then
      if |t| > 1 && t[1] == '}' as int then Some((VObj(map[]), t[2..]))
      else
        match ReadMembers(t[1..], None)
        case None => None
        case Some((fields, rest)) => Some((VObj(fields), rest))
    else if Ascii("null") <= t then Some((VNull, t[4..]))
    else if Ascii("true") <= t then Some((VBool(true), t[4..]))
    else if Ascii("false") <= t then Some((VBool(false), t[5..]))
    else if t[0] == '-' as int || Decimal.IsDigit(t[0]) then
      Some((VNum(Leading(t, NumeralRun(t))), t[NumeralRun(t)..]))
    else None
  }

  function Leading(t: Text, n: nat): (m: Numeral)
    requires t != [] && n == NumeralRun(t) && (t[0] == '-' as int || Decimal.IsDigit(t[0]))
    ensures m == t[..n] && n > 0
  {
    t[..n]
  }

  /** One item or more, up to the closing bracket. */
  function ReadItems(t: Text): (r: Option<(seq<Value>, Text)>)
    ensures r.Some? ==> |r.value.1| < |t|
    decreases |t|, 1
  {
    match ReadValue(t)
    case None => None
    case Some((v, rest)) =>
      if rest == [] then None
      else if rest[0] == ']' as int then Some(([v], rest[1..]))
      else if rest[0] != ',' as int then None
      else
        match ReadItems(rest[1..])
        case None => None
        case Some((items, more)) => Some(([v] + items, more))
  }

  /** One member or more, named after `last`, up to the closing brace. */
  function ReadMembers(t: Text, last: Option<Text>): (r: Option<(map<Text, Value>, Text)>)
    ensures r.Some? ==> |r.value.1| < |t|
    decreases |t|, 1
  {
    match ReadString(t)
    case None => None
    case Some((key, colon)) =>
      if colon == [] || colon[0] != ':' as int || (last.Some? && !Precedes(last.value, key)) then None
      else
        match ReadValue(colon[1..])
        case None => None
        case Some((v, rest)) =>
          if rest == [] then None
          else if rest[0] == '}' as int then Some((map[key := v], rest[1..]))
          else if rest[0] != ',' as int then None
          else
            match ReadMembers(rest[1..], Some(key))
            case None => None
            case Some((fields, more)) => Some((fields[key := v], more))
  }

  // ---------- The printed text reads as the meaning ----------

  /** What may come after a printed value: nothing, a comma or a closing bracket. */
  predicate Follow(u: Text) {
    u == [] || u[0] == 44 || u[0] == 93 || u[0] == 125
  }

  lemma LiteralsAre()
    ensures NULL_TEXT == [110, 117, 108, 108] && TRUE_TEXT == [116, 114, 117, 101]
    ensures FALSE_TEXT == [102, 97, 108, 115, 101]
    ensures Ascii("null") == NULL_TEXT && Ascii("true") == TRUE_TEXT && Ascii("false") == FALSE_TEXT
  {
  }

  lemma LiteralReads(j: Json, u: Text)
    requires j.Null? || j.NotFinite? || j.Bool?
    ensures ReadValue(Print(j) + u) == Some((Meaning(j), u))
  {
    LiteralsAre();
    var p := Print(j);
    assert forall i :: 0 <= i < |p| ==> (p + u)[i] == p[i];
    assert (p + u)[|p|..] == u;
  }

  lemma {:induction false} NumeralRunEnds(n: Text, u: Text)
    requires Follow(u) && forall i :: 0 <= i < |n| ==> NumeralUnit(n[i])
    ensures NumeralRun(n + u) == |n|
  {
    if n == [] {
      assert n + u == u;
    } else {
      NumeralRunEnds(n[1..], u);
      assert (n + u)[0] == n[0] && (n + u)[1..] == n[1..] + u;
    }
  }

  /** No numeral unit can follow a value, so a numeral ends where it ends. */
  lemma NumeralReads(n: Numeral, u: Text)
    requires Follow(u)
    ensures ReadValue(n + u) == Some((VNum(n), u))
  {
    NumeralRunEnds(n, u);
    LiteralsAre();
    assert (n + u)[0] == n[0] && (n + u)[..|n|] == n && (n + u)[|n|..] == u;
  }

  /** What a printed value begins with; nothing that ends one. */
  lemma PrintStarts(j: Json)
    ensures Print(j) != [] && !Follow(Print(j))
  {
    LiteralsAre();
  }

  /** The text from item i of array j on, the closing bracket and u included. */
  ghost function ItemsText(j: Json, i: nat, u: Text): Text
    requires j.Arr? && i <= |j.items|
  {
    PrintItems(j, i) + CLOSE_ARRAY + u
  }

  ghost function ItemsTail(j: Json, i: nat, u: Text): Text
    requires j.Arr? && i <= |j.items|
  {
    if i == |j.items| then CLOSE_ARRAY + u else COMMA + ItemsText(j, i, u)
  }

  lemma ItemsTextStep(j: Json, i: nat, u: Text)
    requires j.Arr? && i <= |j.items|
    ensures i < |j.items| ==> ItemsText(j, i, u) == Print(j.items[i]) + ItemsTail(j, i + 1, u)
    ensures i < |j.items| ==> !Follow(ItemsText(j, i, u))
    ensures i == |j.items| ==> ItemsText(j, i, u) == CLOSE_ARRAY + u && Follow(ItemsText(j, i, u))
  {
    if i < |j.items| {
      PrintStarts(j.items[i]);
      var p, rest := Print(j.items[i]), if i + 1 == |j.items| then [] else COMMA + PrintItems(j, i + 1);
      Reassociate(p, rest, CLOSE_ARRAY, u);
      if i + 1 < |j.items| {
        Reassociate(COMMA, PrintItems(j, i + 1), CLOSE_ARRAY, u);
      }
    }
  }

  lemma Reassociate(p: Text, r: Text, e: Text, u: Text)
    ensures (p + r) + e + u == p + (r + e + u)
    ensures [] + e + u == e + u
  {
  }

  lemma ItemsTailFollows(j: Json, i: nat, u: Text)
    requires j.Arr? && i <= |j.items|
    ensures ItemsTail(j, i, u)[0] == (if i == |j.items| then 93 else 44) && Follow(ItemsTail(j, i, u))
  {
  }

  lemma ArrayTextStep(j: Json, u: Text)
    requires j.Arr?
    ensures Print(j) + u == OPEN_ARRAY + ItemsText(j, 0, u)
  {
    Reassociate(OPEN_ARRAY, PrintItems(j, 0), CLOSE_ARRAY, u);
  }

  ghost function FieldsText(j: Json, ks: seq<Text>, u: Text): Text
    requires j.Obj? && forall k :: k in ks ==> k in Keys(j.members)
  {
    PrintFields(j, ks) + CLOSE_OBJECT + u
  }

  ghost function FieldsTail(j: Json, ks: seq<Text>, u: Text): Text
    requires j.Obj? && forall k :: k in ks ==> k in Keys(j.members)
  {
    if ks == [] then CLOSE_OBJECT + u else COMMA + FieldsText(j, ks, u)
  }

  lemma FieldsTextHead(q: Text, c: Text, p: Text, t: Text)
    ensures q + c + p + t == q + (c + (p + t))
  {
  }

  lemma FieldsTextStep(j: Json, ks: seq<Text>, u: Text)
    requires j.Obj? && forall k :: k in ks ==> k in Keys(j.members)
    ensures ks != [] ==>
              FieldsText(j, ks, u) == Quote(ks[0]) + (COLON + (Print(Get(j, ks[0])) + FieldsTail(j, ks[1..], u)))
    ensures ks == [] ==> FieldsText(j, ks, u) == CLOSE_OBJECT + u
    ensures FieldsText(j, ks, u)[0] == (if ks == [] then 125 else 34)
  {
    if ks != [] {
      var q, p := Quote(ks[0]), Print(Get(j, ks[0]));
      var rest := if |ks| == 1 then [] else COMMA + PrintFields(j, ks[1..]);
      Reassociate(q + COLON + p, rest, CLOSE_OBJECT, u);
      if |ks| > 1 {
        Reassociate(COMMA, PrintFields(j, ks[1..]), CLOSE_OBJECT, u);
      }
      FieldsTextHead(q, COLON, p, rest + CLOSE_OBJECT + u);
    }
  }

  lemma ObjectTextStep(j: Json, u: Text)
    requires j.Obj?
    ensures Print(j) + u == OPEN_OBJECT + FieldsText(j, SortedKeys(j.members), u)
  {
    Reassociate(OPEN_OBJECT, PrintFields(j, SortedKeys(j.members)), CLOSE_OBJECT, u);
  }

  lemma FieldsTailFollows(j: Json, ks: seq<Text>, u: Text)
    requires j.Obj? && forall k :: k in ks ==> k in Keys(j.members)
    ensures FieldsTail(j, ks, u)[0] == (if ks == [] then 125 else 44) && Follow(FieldsTail(j, ks, u))
  {
  }

  lemma GetValid(j: Json, k: Text)
    requires j.Obj? && Valid(j) && k in Keys(j.members)
    ensures Valid(Get(j, k))
  {
  }

  /** A printed value, with anything behind it that can follow a value, reads as what it means. */
  lemma {:induction false} PrintReads(j: Json, u: Text)
    requires Valid(j) && Follow(u)
    ensures ReadValue(Print(j) + u) == Some((Meaning(j), u))
    decreases j, 1, 0
  {
    match j
    case Num(n) => NumeralReads(n, u);
    case Str(s) =>
      QuoteReads(s, u);
      assert (Quote(s) + u)[0] == QUOTE;
    case Arr(items) => ArrayReads(j, u);
    case Obj(ms) => ObjectReads(j, u);
    case _ => LiteralReads(j, u);
  }

  lemma {:induction false} ArrayReads(j: Json, u: Text)
    requires j.Arr? && Valid(j) && Follow(u)
    ensures ReadValue(Print(j) + u) == Some((Meaning(j), u))
    decreases j, 0, |j.items| + 1
  {
    var x := ItemsText(j, 0, u);
    ArrayTextStep(j, u);
    ItemsTextStep(j, 0, u);
    assert (OPEN_ARRAY + x)[1..] == x && (OPEN_ARRAY + x)[1] == x[0];
    if j.items == [] {
      assert (CLOSE_ARRAY + u)[1..] == u && (OPEN_ARRAY + x)[2..] == u;
    } else {
      ItemsRead(j, 0, u);
      assert Meaning(j).items[0..] == Meaning(j).items;
    }
  }

  lemma {:induction false} ItemsRead(j: Json, i: nat, u: Text)
    requires j.Arr? && Valid(j) && i < |j.items|
    ensures ReadItems(ItemsText(j, i, u)) == Some((Meaning(j).items[i..], u))
    decreases j, 0, |j.items| - i
  {
    var rest := ItemsTail(j, i + 1, u);
    ItemsTextStep(j, i, u);
    ItemsTailFollows(j, i + 1, u);
    PrintReads(j.items[i], rest);
    assert Meaning(j).items[i] == Meaning(j.items[i]);
    if i + 1 == |j.items| {
      assert rest[1..] == u;
      assert Meaning(j).items[i..] == [Meaning(j.items[i])];
    } else {
      ItemsRead(j, i + 1, u);
      assert rest[1..] == ItemsText(j, i + 1, u);
      assert Meaning(j).items[i..] == [Meaning(j.items[i])] + Meaning(j).items[i + 1..];
    }
  }

  /** Every key comes before all that are listed after it. */
  lemma KeysAscend(j: Json)
    requires j.Obj? && DistinctKeys(j.members)
    ensures var ks := SortedKeys(j.members); forall i, k :: 0 <= i < k < |ks| ==> Precedes(ks[i], ks[k])
  {
    var ks := SortedKeys(j.members);
    ByKeyOrdered(TEXT_KEY);
    SortSorts(Keys(j.members), ByKey(TEXT_KEY));
    SortedKeysDistinct(j.members);
    forall i, k | 0 <= i < k < |ks| ensures Precedes(ks[i], ks[k]) {
      assert ByKey(TEXT_KEY)(ks[i], ks[k]);
      LexLeqIff(ks[i], ks[k]);
    }
  }

  lemma SortedKeysDistinct(ms: seq<Member>)
    requires DistinctKeys(ms)
    ensures var ks := SortedKeys(ms); forall i, k :: 0 <= i < k < |ks| ==> ks[i] != ks[k]
  {
    var ks := SortedKeys(ms);
    forall i, k | 0 <= i < k < |ks| ensures ks[i] != ks[k] {
      DistinctMultiplicity(Keys(ms), ks[i]);
      if ks[i] == ks[k] {
        TwiceInside(ks, i, k);
      }
    }
  }

  lemma TwiceInside<T>(s: seq<T>, i: nat, k: nat)
    requires i < k < |s| && s[i] == s[k]
    ensures multiset(s)[s[i]] >= 2
  {
    assert s == s[..k] + [s[k]] + s[k + 1..];
    assert s[..k][i] == s[i];
  }

  /** The braces of an object. */
  lemma BracesRead(x: Text)
    requires x != []
    ensures ReadValue(OPEN_OBJECT + x)
         == if x[0] == 125 then Some((VObj(map[]), x[1..]))
            else if ReadMembers(x, None).Some? then
              Some((VObj(ReadMembers(x, None).value.0), ReadMembers(x, None).value.1))
            else None
  {
    var t := OPEN_OBJECT + x;
    assert t[0] == 123 && t[1..] == x && t[1] == x[0] && t[2..] == x[1..];
  }

  lemma {:induction false} ObjectReads(j: Json, u: Text)
    requires j.Obj? && Valid(j) && Follow(u)
    ensures ReadValue(Print(j) + u) == Some((Meaning(j), u))
    decreases j, 0, |SortedKeys(j.members)| + 1
  {
    var ks := SortedKeys(j.members);
    var x := FieldsText(j, ks, u);
    ObjectTextStep(j, u);
    FieldsTextStep(j, ks, u);
    BracesRead(x);
    AllFields(j);
    if ks == [] {
      assert (CLOSE_OBJECT + u)[1..] == u;
    } else {
      KeysAscend(j);
      FieldsRead(j, ks, None, u);
    }
  }

  lemma AllFields(j: Json)
    requires j.Obj?
    ensures FieldsOf(j, SortedKeys(j.members)) == Meaning(j).fields
  {
  }

  ghost function FieldsOf(j: Json, ks: seq<Text>): map<Text, Value>
    requires j.Obj? && forall k :: k in ks ==> k in Keys(j.members)
  {
    map k | k in ks :: Meaning(Get(j, k))
  }

  /** The first member and what is after it. */
  lemma MemberReads(key: Text, x: Text, v: Value, rest: Text, last: Option<Text>)
    requires ReadValue(x) == Some((v, rest)) && rest != []
    requires last.Some? ==> Precedes(last.value, key)
    ensures ReadMembers(Quote(key) + (COLON + x), last)
         == if rest[0] == 125 then Some((map[key := v], rest[1..]))
            else if rest[0] == 44 && ReadMembers(rest[1..], Some(key)).Some? then
              Some((ReadMembers(rest[1..], Some(key)).value.0[key := v], ReadMembers(rest[1..], Some(key)).value.1))
            else None
  {
    QuoteReads(key, COLON + x);
    assert (COLON + x)[0] == 58 && (COLON + x)[1..] == x;
  }

  lemma FieldsOfCons(j: Json, ks: seq<Text>)
    requires j.Obj? && ks != [] && forall k :: k in ks ==> k in Keys(j.members)
    ensures FieldsOf(j, ks) == FieldsOf(j, ks[1..])[ks[0] := Meaning(Get(j, ks[0]))]
    ensures |ks| == 1 ==> FieldsOf(j, ks) == map[ks[0] := Meaning(Get(j, ks[0]))]
  {
  }

  lemma {:induction false} FieldsRead(j: Json, ks: seq<Text>, last: Option<Text>, u: Text)
    requires j.Obj? && Valid(j) && ks != [] && forall k :: k in ks ==> k in Keys(j.members)
    requires forall i, k :: 0 <= i < k < |ks| ==> Precedes(ks[i], ks[k])
    requires last.Some? ==> Precedes(last.value, ks[0])
    ensures ReadMembers(FieldsText(j, ks, u), last) == Some((FieldsOf(j, ks), u))
    decreases j, 0, |ks|
  {
    var rest := FieldsTail(j, ks[1..], u);
    FieldsTextStep(j, ks, u);
    FieldsTailFollows(j, ks[1..], u);
    FieldsOfCons(j, ks);
    GetValid(j, ks[0]);
    PrintReads(Get(j, ks[0]), rest);
    MemberReads(ks[0], Print(Get(j, ks[0])) + rest, Meaning(Get(j, ks[0])), rest, last);
    if |ks| == 1 {
      assert (CLOSE_OBJECT + u)[1..] == u;
    } else {
      FieldsRead(j, ks[1..], Some(ks[0]), u);
      assert (COMMA + FieldsText(j, ks[1..], u))[1..] == FieldsText(j, ks[1..], u);
    }
  }

  /** So a printed value can be told from the front of any text that continues it. */
  lemma PrintParses(a: Json, b: Json, u: Text, v: Text)
    requires Valid(a) && Valid(b) && Follow(u) && Follow(v)
    requires Print(a) + u == Print(b) + v
    ensures Meaning(a) == Meaning(b) && u == v
  {
    PrintReads(a, u);
    PrintReads(b, v);
  }

  // ---------- The meaning determines the printed text ----------

  lemma SameKeysSorted(a: Json, b: Json)
    requires a.Obj? && b.Obj? && DistinctKeys(a.members) && DistinctKeys(b.members)
    requires forall k :: k in Keys(a.members) <==> k in Keys(b.members)
    ensures SortedKeys(a.members) == SortedKeys(b.members)
  {
    DistinctSameElements(Keys(a.members), Keys(b.members));
    SortByEqualIffPermutation(Keys(a.members), Keys(b.members), TEXT_KEY);
  }

  lemma DistinctMultiplicity<T>(s: seq<T>, x: T)
    requires forall i, j :: 0 <= i < j < |s| ==> s[i] != s[j]
    ensures multiset(s)[x] == if x in s then 1 else 0
  {
    if s != [] {
      var n := |s| - 1;
      DistinctMultiplicity(s[..n], x);
      assert s == s[..n] + [s[n]];
      assert x in s <==> x in s[..n] || x == s[n];
    }
  }

  lemma DistinctSameElements<T>(s: seq<T>, t: seq<T>)
    requires forall i, j :: 0 <= i < j < |s| ==> s[i] != s[j]
    requires forall i, j :: 0 <= i < j < |t| ==> t[i] != t[j]
    requires forall x :: x in s <==> x in t
    ensures multiset(s) == multiset(t)
  {
    forall x ensures multiset(s)[x] == multiset(t)[x] {
      DistinctMultiplicity(s, x);
      DistinctMultiplicity(t, x);
    }
  }

  lemma {:induction false} MeaningPrints(a: Json, b: Json)
    requires Valid(a) && Valid(b) && Meaning(a) == Meaning(b)
    ensures Print(a) == Print(b)
    decreases a, 1, 0
  {
    if a.Arr? {
      assert |a.items| == |Meaning(a).items| == |b.items|;
      ItemsPrint(a, b, 0);
    } else if a.Obj? {
      assert Meaning(a).fields.Keys == Meaning(b).fields.Keys;
      assert forall k :: k in Keys(a.members) <==> k in Meaning(a).fields;
      assert forall k :: k in Keys(b.members) <==> k in Meaning(b).fields;
      SameKeysSorted(a, b);
      FieldsPrint(a, b, SortedKeys(a.members));
    }
  }

  lemma {:induction false} ItemsPrint(a: Json, b: Json, i: nat)
    requires a.Arr? && b.Arr? && Valid(a) && Valid(b) && Meaning(a) == Meaning(b)
    requires i <= |a.items| == |b.items|
    ensures PrintItems(a, i) == PrintItems(b, i)
    decreases a, 0, |a.items| - i
  {
    if i < |a.items| {
      assert Meaning(a.items[i]) == Meaning(a).items[i] == Meaning(b).items[i] == Meaning(b.items[i]);
      MeaningPrints(a.items[i], b.items[i]);
      ItemsPrint(a, b, i + 1);
    }
  }

  lemma {:induction false} FieldsPrint(a: Json, b: Json, ks: seq<Text>)
    requires a.Obj? && b.Obj? && Valid(a) && Valid(b) && Meaning(a) == Meaning(b)
    requires forall k :: k in ks ==> k in Keys(a.members) && k in Keys(b.members)
    ensures PrintFields(a, ks) == PrintFields(b, ks)
    decreases a, 0, |ks|
  {
    if ks != [] {
      var k := ks[0];
      assert Meaning(Get(a, k)) == Meaning(a).fields[k] == Meaning(b).fields[k] == Meaning(Get(b, k));
      GetValid(a, k);
      GetValid(b, k);
      MeaningPrints(Get(a, k), Get(b, k));
      FieldsPrint(a, b, ks[1..]);
    }
  }

  /** Canonical JSON is a complete invariant: equal text exactly for the same JSON value
      with objects read as maps. */
  lemma CanonicalTextIffSameMeaning(a: Json, b: Json)
    requires Valid(a) && Valid(b)
    ensures Print(a) == Print(b) <==> Meaning(a) == Meaning(b)
  {
    if Print(a) == Print(b) {
      PrintParses(a, b, [], []);
    }
    if Meaning(a) == Meaning(b) {
      MeaningPrints(a, b);
    }
  }

  // ---------- The printed text as bytes ----------

  lemma WrappedWellFormed(open: Text, t: Text, close: Text)
    requires WellFormed(t)
    requires forall i :: 0 <= i < |open| ==> open[i] < 128
    requires forall i :: 0 <= i < |close| ==> close[i] < 128
    ensures WellFormed(open + t + close)
  {
    Utf8.AsciiWellFormed(open);
    Utf8.AsciiWellFormed(close);
    Utf8.WellFormedConcat(open, t);
    Utf8.WellFormedConcat(open + t, close);
  }

  lemma {:induction false} PrintWellFormed(j: Json)
    ensures WellFormed(Print(j))
    decreases j, 1, 0
  {
    match j
    case Num(n) => Utf8.AsciiWellFormed(n);
    case Str(s) => Utf8.QuoteWellFormed(s);
    case Arr(items) =>
      ItemsWellFormed(j, 0);
      WrappedWellFormed(OPEN_ARRAY, PrintItems(j, 0), CLOSE_ARRAY);
    case Obj(ms) =>
      FieldsWellFormed(j, SortedKeys(ms));
      WrappedWellFormed(OPEN_OBJECT, PrintFields(j, SortedKeys(ms)), CLOSE_OBJECT);
    case _ => Utf8.AsciiWellFormed(Print(j));
  }

  lemma {:induction false} ItemsWellFormed(j: Json, i: nat)
    requires j.Arr? && i <= |j.items|
    ensures WellFormed(PrintItems(j, i))
    decreases j, 0, |j.items| - i
  {
    if i < |j.items| {
      PrintWellFormed(j.items[i]);
      ItemsWellFormed(j, i + 1);
      Utf8.AsciiWellFormed(COMMA);
      Utf8.WellFormedConcat(COMMA, PrintItems(j, i + 1));
      Utf8.WellFormedConcat(Print(j.items[i]), if i + 1 == |j.items| then [] else COMMA + PrintItems(j, i + 1));
    }
  }

  lemma {:induction false} FieldsWellFormed(j: Json, ks: seq<Text>)
    requires j.Obj? && forall k :: k in ks ==> k in Keys(j.members)
    ensures WellFormed(PrintFields(j, ks))
    decreases j, 0, |ks|
  {
    if ks != [] {
      var q, p := Quote(ks[0]), Print(Get(j, ks[0]));
      Utf8.QuoteWellFormed(ks[0]);
      PrintWellFormed(Get(j, ks[0]));
      FieldsWellFormed(j, ks[1..]);
      Utf8.AsciiWellFormed(COMMA);
      Utf8.AsciiWellFormed(COLON);
      Utf8.WellFormedConcat(COMMA, PrintFields(j, ks[1..]));
      Utf8.WellFormedConcat(q, COLON);
      Utf8.WellFormedConcat(q + COLON, p);
      Utf8.WellFormedConcat(q + COLON + p, if |ks| == 1 then [] else COMMA + PrintFields(j, ks[1..]));
    }
  }

  /** `new TextEncoder().encode(canonicalJson(value))`. */
  function CanonicalBytes(j: Json): seq<Byte> {
    Utf8.Encode(Print(j))
  }

  /** The bytes lose nothing the text says, unpaired surrogates in strings included. */
  lemma CanonicalBytesIffSameMeaning(a: Json, b: Json)
    requires Valid(a) && Valid(b)
    ensures CanonicalBytes(a) == CanonicalBytes(b) <==> Meaning(a) == Meaning(b)
  {
    PrintWellFormed(a);
    PrintWellFormed(b);
    if CanonicalBytes(a) == CanonicalBytes(b) {
      Utf8.EncodeInjective(Print(a), Print(b));
    }
    CanonicalTextIffSameMeaning(a, b);
  }
}
