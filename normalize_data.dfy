/**
 * The frontend's `normalizeData`: the alias-table skill label, the de-duplication of skills by
 * label into the core / nice-to-have / other groups, the first-occurrence merge of the resume's
 * and the job description's lists, and the defaults of the preview record.
 */
module NormalizeData {
  import opened Wrappers
  import opened Strings
  import opened JsonValues

  // ---------------------------------------------------------------- canon and label

  /** The alias table, keyed by canonical text. */
  const AliasMap: map<string, string> := map[
    "react.js" := "ReactJS",
    "react" := "ReactJS",
    "html" := "HTML",
    "css" := "CSS",
    "html/css" := "HTML/CSS",
    "oop" := "Object-Oriented Programming",
    "o.o.p" := "Object-Oriented Programming",
    "dsa" := "Data Structures and Algorithms",
    "ds&a" := "Data Structures and Algorithms",
    "hibernate jpa" := "Hibernate/JPA",
    "jpa" := "JPA",
    "spring boot" := "Spring Boot",
    "javascript" := "JavaScript"
  ]

  /** `s.replace(/[._]/g, …)`: a dot is dropped and an underscore becomes a space. */
  function DropDotsUnderscores(s: string): (r: string)
    ensures '.' !in r && '_' !in r
    decreases |s|
  {
    if s == [] then []
    else (if s[0] == '.' then "" else if s[0] == '_' then " " else [s[0]]) + DropDotsUnderscores(s[1..])
  }

  /** `s.replace(/\s+/g, " ")`: every run of white space becomes one space. */
  function CollapseSpaces(s: string): string
    decreases |s|
  {
    if s == [] then []
    else if IsJsSpace(s[0]) then " " + CollapseSpaces(s[Span(s, 0, IsJsSpace)..])
    else [s[0]] + CollapseSpaces(s[1..])
  }

  /** `canon`: lower case, white space collapsed, then trimmed. */
  function Canon(s: string): string {
    Trim(CollapseSpaces(LowerStr(s)), IsJsSpace)
  }

  /** The text `label` looks up in the alias table. */
  function Key(s: string): string {
    Canon(DropDotsUnderscores(s))
  }

  /**
   * `label` with the table's own entries only: the alias of the canonical text, the two
   * spellings handled outside the table, or the text unchanged.
   */
  function Label(s: string): string {
    var c := Key(s);
    if c in AliasMap then AliasMap[c]
    else if c == "reactjs" then "ReactJS"
    else if c == "hibernate" then "Hibernate"
    else s
  }

  /** Every label that differs from its input. */
  const Canonical: seq<string> := [
    "ReactJS", "HTML", "CSS", "HTML/CSS", "Object-Oriented Programming",
    "Data Structures and Algorithms", "Hibernate/JPA", "JPA", "Spring Boot", "JavaScript", "Hibernate"
  ]

  lemma LabelIsCanonicalOrSame(s: string)
    ensures Label(s) == s || Label(s) in Canonical
  {
    var c := Key(s);
    if c in AliasMap {
      AliasValuesCanonical(c);
    }
  }

  lemma AliasValuesCanonical(c: string)
    requires c in AliasMap
    ensures AliasMap[c] in Canonical
  {
  }

  // Text that `Key` leaves as it is up to case.

  /** No dot or underscore, only ' ' as white space, never doubled and never at either end. */
  predicate Plain(s: string) {
    (forall k :: 0 <= k < |s| ==> s[k] != '.' && s[k] != '_' && (IsJsSpace(s[k]) ==> s[k] == ' '))
    && (forall k :: 0 <= k < |s| - 1 ==> !(s[k] == ' ' && s[k + 1] == ' '))
    && (s == [] || (s[0] != ' ' && s[|s| - 1] != ' '))
  }

  lemma {:induction false} DropPlain(s: string)
    requires forall k :: 0 <= k < |s| ==> s[k] != '.' && s[k] != '_'
    ensures DropDotsUnderscores(s) == s
    decreases |s|
  {
    if s != [] {
      DropPlain(s[1..]);
    }
  }

  lemma {:induction false} CollapsePlain(s: string)
    requires forall k :: 0 <= k < |s| ==> (IsJsSpace(s[k]) ==> s[k] == ' ')
    requires forall k :: 0 <= k < |s| - 1 ==> !(s[k] == ' ' && s[k + 1] == ' ')
    ensures CollapseSpaces(s) == s
    decreases |s|
  {
    if s != [] {
      if IsJsSpace(s[0]) {
        assert Span(s, 0, IsJsSpace) == 1 by {
          if |s| > 1 {
            assert !IsJsSpace(s[1]);
          }
        }
      }
      CollapsePlain(s[1..]);
    }
  }

  lemma TrimPlain(s: string)
    requires s == [] || (!IsJsSpace(s[0]) && !IsJsSpace(s[|s| - 1]))
    ensures Trim(s, IsJsSpace) == s
  {
    if s != [] {
      assert Span(s, 0, IsJsSpace) == 0;
      assert TrimEnd(s, IsJsSpace) == s;
    }
  }

  lemma LowerKeepsSpaces(c: char)
    ensures IsJsSpace(Lower(c)) <==> IsJsSpace(c)
    ensures Lower(c) == ' ' <==> c == ' '
  {
  }

  /** Lower-casing keeps text plain. */
  lemma LowerPlain(s: string)
    requires Plain(s)
    ensures Plain(LowerStr(s))
  {
    var l := LowerStr(s);
    forall k | 0 <= k < |l|
      ensures l[k] != '.' && l[k] != '_' && (IsJsSpace(l[k]) ==> l[k] == ' ')
    {
      LowerKeepsSpaces(s[k]);
    }
    forall k | 0 <= k < |l| - 1
      ensures !(l[k] == ' ' && l[k + 1] == ' ')
    {
      LowerKeepsSpaces(s[k]);
      LowerKeepsSpaces(s[k + 1]);
    }
    if l != [] {
      LowerKeepsSpaces(s[0]);
      LowerKeepsSpaces(s[|s| - 1]);
    }
  }

  /** On plain text the lookup key is the lower-cased text. */
  lemma PlainKey(s: string)
    requires Plain(s)
    ensures Key(s) == LowerStr(s)
  {
    DropPlain(s);
    LowerPlain(s);
    var l := LowerStr(s);
    CollapsePlain(l);
    TrimPlain(l);
  }

  predicate IsWordLetter(c: char) {
    ('a' <= c <= 'z') || ('A' <= c <= 'Z') || c == ' ' || c == '/' || c == '-'
  }

  /** Letters, single inner spaces, slashes and hyphens: text every label value is made of. */
  predicate Simple(s: string) {
    (forall k :: 0 <= k < |s| ==> IsWordLetter(s[k]))
    && (forall k :: 0 <= k < |s| - 1 ==> !(s[k] == ' ' && s[k + 1] == ' '))
    && (s == [] || (s[0] != ' ' && s[|s| - 1] != ' '))
  }

  lemma SimpleKey(s: string, c: string)
    requires Simple(s) && LowerStr(s) == c
    ensures Key(s) == c
  {
    assert Plain(s);
    PlainKey(s);
  }

  /** A simple text longer than every table key is its own label. */
  lemma LongIsOwnLabel(s: string)
    requires Simple(s) && |s| > 13
    ensures Label(s) == s
  {
    assert Plain(s);
    PlainKey(s);
    assert |Key(s)| == |s|;
  }

  /** The web-stack canonical names: their keys map back to them. */
  lemma WebCanonicalOwnLabel(v: string)
    requires v == "HTML" || v == "CSS" || v == "HTML/CSS"
    ensures Label(v) == v
  {
    CanonicalEntries();
    if v == "HTML" {
      SimpleKey(v, "html");
      AliasFixed(v, "html");
    } else if v == "CSS" {
      SimpleKey(v, "css");
      AliasFixed(v, "css");
    } else {
      SimpleKey(v, "html/css");
      AliasFixed(v, "html/css");
    }
  }

  /** The Java-stack canonical names the table maps to: their keys map back to them. */
  lemma JavaCanonicalOwnLabel(v: string)
    requires v == "JPA" || v == "Spring Boot" || v == "JavaScript"
    ensures Label(v) == v
  {
    CanonicalEntries();
    if v == "JPA" {
      SimpleKey(v, "jpa");
      AliasFixed(v, "jpa");
    } else if v == "Spring Boot" {
      SimpleKey(v, "spring boot");
      AliasFixed(v, "spring boot");
    } else {
      SimpleKey(v, "javascript");
      AliasFixed(v, "javascript");
    }
  }

  /** "Hibernate/JPA" has a key of thirteen characters with a slash, which the table lacks. */
  lemma HibernateJpaOwnLabel(v: string)
    requires v == "Hibernate/JPA"
    ensures Label(v) == v
  {
    assert Plain(v);
    PlainKey(v);
    assert |Key(v)| == 13 && Key(v)[9] == '/';
    UnlistedFixed(v, Key(v));
  }

  /** "ReactJS" and "Hibernate" are labelled outside the table, with their own spelling. */
  lemma SpecialSpellingOwnLabel(v: string)
    requires v == "ReactJS" || v == "Hibernate"
    ensures Label(v) == v
  {
    if v == "ReactJS" {
      SimpleKey(v, "reactjs");
      SpecialFixed(v, "reactjs");
    } else {
      SimpleKey(v, "hibernate");
      SpecialFixed(v, "hibernate");
    }
  }

  /** The table entries that map a canonical name's key back to it. */
  lemma CanonicalEntries()
    ensures "html" in AliasMap && AliasMap["html"] == "HTML"
    ensures "css" in AliasMap && AliasMap["css"] == "CSS"
    ensures "html/css" in AliasMap && AliasMap["html/css"] == "HTML/CSS"
    ensures "jpa" in AliasMap && AliasMap["jpa"] == "JPA"
    ensures "spring boot" in AliasMap && AliasMap["spring boot"] == "Spring Boot"
    ensures "javascript" in AliasMap && AliasMap["javascript"] == "JavaScript"
  {
  }

  /** The longest canonical name is longer than every table key. */
  lemma DataStructuresOwnLabel(v: string)
    requires v == "Data Structures and Algorithms"
    ensures Label(v) == v
  {
    LongIsOwnLabel(v);
  }

  /** No table key has seven or nine characters, and the one of thirteen has a space at 9. */
  lemma AliasKeyShapes(c: string)
    requires c in AliasMap
    ensures |c| != 7 && |c| != 9 && (|c| == 13 ==> c[9] == ' ') && (|c| == 11 ==> c[0] == 's')
  {
  }

  lemma SpecialFixed(s: string, c: string)
    requires Key(s) == c && (|c| == 7 || |c| == 9)
    requires (c == "reactjs" && s == "ReactJS") || (c == "hibernate" && s == "Hibernate")
    ensures Label(s) == s
  {
    if c in AliasMap {
      AliasKeyShapes(c);
    }
  }

  /** Text whose key the table maps back to it is its own label. */
  lemma AliasFixed(s: string, c: string)
    requires Key(s) == c && c in AliasMap && AliasMap[c] == s
    ensures Label(s) == s
  {
  }

  lemma UnlistedFixed(s: string, c: string)
    requires Key(s) == c && |c| == 13 && c[9] == '/'
    ensures Label(s) == s
  {
    if c in AliasMap {
      AliasKeyShapes(c);
    }
  }

  /** Every label that differs from its input is its own label. */
  lemma CanonicalIsOwnLabel(i: nat)
    requires i < |Canonical|
    ensures Label(Canonical[i]) == Canonical[i]
  {
    var v := Canonical[i];
    if i == 4 {
      LongIsOwnLabel(v);
    } else if i == 5 {
      DataStructuresOwnLabel(v);
    } else if i == 6 {
      HibernateJpaOwnLabel(v);
    } else if i == 0 || i == 10 {
      SpecialSpellingOwnLabel(v);
    } else if i < 4 {
      WebCanonicalOwnLabel(v);
    } else {
      JavaCanonicalOwnLabel(v);
    }
  }

  /** `label` is idempotent: a label is its own label. */
  lemma LabelIdempotent(s: string)
    ensures Label(Label(s)) == Label(s)
  {
    LabelIsCanonicalOrSame(s);
    if Label(s) != s {
      var i :| 0 <= i < |Canonical| && Canonical[i] == Label(s);
      CanonicalIsOwnLabel(i);
    }
  }

  // ---------------------------------------------------------------- `label` as written

  /**
   * What `aliasMap[c]` can yield as written: the lookup also sees the properties every object
   * inherits. Of those, only `constructor` survives lower-casing and the removal of `_`, and it
   * yields the `Object` function rather than a string.
   */
  datatype LabelValue = Text(s: string) | ObjectConstructor

  function LabelAsWritten(s: string): LabelValue {
    var c := Key(s);
    if c in AliasMap then Text(AliasMap[c])
    else if c == "constructor" then ObjectConstructor
    else if c == "reactjs" then Text("ReactJS")
    else if c == "hibernate" then Text("Hibernate")
    else Text(s)
  }

  const LabelError := "TypeError: s.replace is not a function"

  /** `label` applied to a value `label` produced: a function has no `replace`, so it throws. */
  function RelabelAsWritten(v: LabelValue): Result<LabelValue, string> {
    match v
    case Text(s) => Ok(LabelAsWritten(s))
    case ObjectConstructor => Err(LabelError)
  }

  /** `uniqPushByLabel` as written, on values the first `label` produced. */
  function UniqPushAsWritten(arr: seq<LabelValue>, item: LabelValue): Result<seq<LabelValue>, string> {
    match RelabelAsWritten(item)
    case Err(e) => Err(e)
    case Ok(l) =>
      if exists j :: 0 <= j < |arr| && RelabelAsWritten(arr[j]) == Ok(l) then Ok(arr) else Ok(arr + [l])
  }

  /** Outside the one inherited key, the table lookup as written is the own-key lookup. */
  lemma LabelAsWrittenAgrees(s: string)
    ensures Key(s) != "constructor" ==> LabelAsWritten(s) == Text(Label(s))
    ensures Key(s) == "constructor" ==> LabelAsWritten(s) == ObjectConstructor && Label(s) == s
  {
    if Key(s) == "constructor" {
      assert |Key(s)| == 11 && Key(s)[0] == 'c';
      if Key(s) in AliasMap {
        AliasKeyShapes(Key(s));
      }
    }
  }

  /**
   * A skill spelled "Constructor" (in the resume's skills or in either list of the job
   * description) is labelled with the `Object` function, and the push that follows throws, so
   * the whole normalisation fails; with own keys only, the skill keeps its name.
   */
  lemma ConstructorSkillThrows(arr: seq<LabelValue>)
    ensures LabelAsWritten("Constructor") == ObjectConstructor
    ensures UniqPushAsWritten(arr, LabelAsWritten("Constructor")) == Err(LabelError)
    ensures Label("Constructor") == "Constructor"
  {
    SimpleKey("Constructor", "constructor");
    LabelAsWrittenAgrees("Constructor");
  }

  // ---------------------------------------------------------------- de-duplication by label

  /**
   * `uniqPushByLabel` with the labelling passed in (`label` at every call): the item's label is
   * appended unless an entry already has that label.
   */
  function PushByLabel(arr: seq<string>, item: string, labelOf: string -> string): seq<string> {
    if exists j :: 0 <= j < |arr| && labelOf(arr[j]) == labelOf(item) then arr else arr + [labelOf(item)]
  }

  /** `items.forEach(s => uniqPushByLabel(arr, s))` from an empty `arr`. */
  function ByLabel(items: seq<string>, labelOf: string -> string): seq<string>
    decreases |items|
  {
    if items == [] then []
    else PushByLabel(ByLabel(items[..|items| - 1], labelOf), items[|items| - 1], labelOf)
  }

  method UniqPushByLabel(arr: seq<string>, item: string, labelOf: string -> string) returns (r: seq<string>)
    ensures r == PushByLabel(arr, item, labelOf)
  {
    var l := labelOf(item);
    var found := false;
    var k := 0;
    while k < |arr| && !found
      invariant 0 <= k <= |arr|
      invariant found <==> exists j :: 0 <= j < k && labelOf(arr[j]) == l
    {
      found := labelOf(arr[k]) == l;
      k := k + 1;
    }
    if found {
      r := arr;
    } else {
      r := arr + [l];
    }
  }

  method FillByLabel(items: seq<string>, labelOf: string -> string) returns (arr: seq<string>)
    ensures arr == ByLabel(items, labelOf)
  {
    arr := [];
    for i := 0 to |items|
      invariant arr == ByLabel(items[..i], labelOf)
    {
      assert items[..i + 1][..i] == items[..i];
      arr := UniqPushByLabel(arr, items[i], labelOf);
    }
    assert items[..|items|] == items;
  }

  /** `items.map(label)`. */
  function Relabel(items: seq<string>, labelOf: string -> string): (r: seq<string>)
    ensures |r| == |items|
  {
    seq(|items|, k requires 0 <= k < |items| => labelOf(items[k]))
  }

  ghost predicate Idempotent(labelOf: string -> string) {
    forall x :: labelOf(labelOf(x)) == labelOf(x)
  }

  lemma LabelIsIdempotent()
    ensures Idempotent(Label)
  {
    forall x ensures Label(Label(x)) == Label(x) {
      LabelIdempotent(x);
    }
  }

  /** The first occurrence of each element, in order: the reference for "first seen". */
  function Distinct(xs: seq<string>): seq<string>
    decreases |xs|
  {
    if xs == [] then []
    else
      var d := Distinct(xs[..|xs| - 1]);
      if xs[|xs| - 1] in d then d else d + [xs[|xs| - 1]]
  }

  /** The index of the first occurrence of `x`. */
  function FirstAt(xs: seq<string>, x: string): (i: nat)
    requires x in xs
    ensures i < |xs| && xs[i] == x && forall k :: 0 <= k < i ==> xs[k] != x
    decreases |xs|
  {
    if xs[0] == x then 0 else 1 + FirstAt(xs[1..], x)
  }

  lemma FirstAtPrefix(xs: seq<string>, y: string, x: string)
    requires x in xs
    ensures x in xs + [y] && FirstAt(xs + [y], x) == FirstAt(xs, x)
  {
    var i := FirstAt(xs, x);
    var j := FirstAt(xs + [y], x);
    assert (xs + [y])[i] == x;
  }

  /**
   * The first occurrences of the elements, each once, ordered by where each first occurs.
   */
  lemma {:induction false} DistinctSpec(xs: seq<string>)
    ensures forall x :: x in Distinct(xs) <==> x in xs
    ensures forall i, j :: 0 <= i < j < |Distinct(xs)| ==> Distinct(xs)[i] != Distinct(xs)[j]
    ensures forall i, j :: 0 <= i < j < |Distinct(xs)| ==>
              FirstAt(xs, Distinct(xs)[i]) < FirstAt(xs, Distinct(xs)[j])
    decreases |xs|
  {
    if xs != [] {
      var init, y := xs[..|xs| - 1], xs[|xs| - 1];
      assert xs == init + [y];
      DistinctSpec(init);
      var d := Distinct(init);
      forall x | x in init {
        FirstAtPrefix(init, y, x);
      }
      if y !in init {
        assert FirstAt(xs, y) == |init|;
      }
    }
  }

  lemma {:induction false} ByLabelIsDistinct(items: seq<string>, labelOf: string -> string)
    requires Idempotent(labelOf)
    ensures ByLabel(items, labelOf) == Distinct(Relabel(items, labelOf))
    ensures forall x :: x in ByLabel(items, labelOf) ==> labelOf(x) == x
    decreases |items|
  {
    if items != [] {
      var init, it := items[..|items| - 1], items[|items| - 1];
      ByLabelIsDistinct(init, labelOf);
      var d := ByLabel(init, labelOf);
      var rs := Relabel(items, labelOf);
      assert rs[..|rs| - 1] == Relabel(init, labelOf);
      assert (exists j :: 0 <= j < |d| && labelOf(d[j]) == labelOf(it)) <==> labelOf(it) in d;
    }
  }

  /**
   * Pushing by label keeps one entry per label: the entries are the labels of the items, each
   * its own label, with no two alike, in the order in which each label is first seen.
   */
  lemma ByLabelSpec(items: seq<string>, labelOf: string -> string)
    requires Idempotent(labelOf)
    ensures var r, ls := ByLabel(items, labelOf), Relabel(items, labelOf);
      && (forall x :: x in r <==> x in ls)
      && (forall x :: x in r ==> labelOf(x) == x)
      && (forall i, j :: 0 <= i < j < |r| ==> labelOf(r[i]) != labelOf(r[j]))
      && (forall i, j :: 0 <= i < j < |r| ==> FirstAt(ls, r[i]) < FirstAt(ls, r[j]))
  {
    ByLabelIsDistinct(items, labelOf);
    DistinctSpec(Relabel(items, labelOf));
  }

  /** The resume skills `other` considers: those not already in `core` or `nice`. */
  function Unclaimed(rs: seq<string>, core: seq<string>, nice: seq<string>): seq<string>
    decreases |rs|
  {
    if rs == [] then []
    else
      var s := rs[|rs| - 1];
      Unclaimed(rs[..|rs| - 1], core, nice) + (if s !in core && s !in nice then [s] else [])
  }

  /** `resumeSkills.forEach(s => { if (!core.includes(s) && !nice.includes(s)) uniqPushByLabel(other, s) })`. */
  method FillOther(rs: seq<string>, core: seq<string>, nice: seq<string>, labelOf: string -> string)
    returns (other: seq<string>)
    ensures other == ByLabel(Unclaimed(rs, core, nice), labelOf)
  {
    other := [];
    for i := 0 to |rs|
      invariant other == ByLabel(Unclaimed(rs[..i], core, nice), labelOf)
    {
      var s := rs[i];
      assert rs[..i + 1][..i] == rs[..i];
      if s !in core && s !in nice {
        var u := Unclaimed(rs[..i + 1], core, nice);
        assert u == Unclaimed(rs[..i], core, nice) + [s];
        assert u[..|u| - 1] == Unclaimed(rs[..i], core, nice);
        other := UniqPushByLabel(other, s, labelOf);
      } else {
        assert Unclaimed(rs[..i + 1], core, nice) == Unclaimed(rs[..i], core, nice);
      }
    }
    assert rs[..|rs|] == rs;
  }

  lemma {:induction false} UnclaimedMembers(rs: seq<string>, core: seq<string>, nice: seq<string>, x: string)
    ensures x in Unclaimed(rs, core, nice) <==> x in rs && x !in core && x !in nice
    decreases |rs|
  {
    if rs != [] {
      UnclaimedMembers(rs[..|rs| - 1], core, nice, x);
      assert rs == rs[..|rs| - 1] + [rs[|rs| - 1]];
    }
  }

  /**
   * On labelled resume skills, `other` holds exactly the skills found in neither `core` nor
   * `nice`, one entry per label: every resume skill ends up in one of the three groups.
   */
  lemma OtherSpec(rs: seq<string>, core: seq<string>, nice: seq<string>, labelOf: string -> string)
    requires Idempotent(labelOf)
    requires forall s :: s in rs ==> labelOf(s) == s
    ensures var other := ByLabel(Unclaimed(rs, core, nice), labelOf);
      && (forall x :: x in other <==> x in rs && x !in core && x !in nice)
      && (forall s :: s in rs ==> s in core || s in nice || s in other)
      && (forall i, j :: 0 <= i < j < |other| ==> labelOf(other[i]) != labelOf(other[j]))
  {
    var u := Unclaimed(rs, core, nice);
    ByLabelSpec(u, labelOf);
    forall x ensures x in Relabel(u, labelOf) <==> x in u {
      UnclaimedMembers(rs, core, nice, x);
      if x in u {
        var k :| 0 <= k < |u| && u[k] == x;
        assert Relabel(u, labelOf)[k] == x;
      }
      if x in Relabel(u, labelOf) {
        var k :| 0 <= k < |u| && Relabel(u, labelOf)[k] == x;
        UnclaimedMembers(rs, core, nice, u[k]);
        assert u[k] in u;
      }
    }
    forall x ensures x in u <==> x in rs && x !in core && x !in nice {
      UnclaimedMembers(rs, core, nice, x);
    }
  }

  // ---------------------------------------------------------------- mergeList

  /**
   * An element of the `seen` set. A set compares strings, numbers and `true` by value and an
   * object or array by identity; every item of the two lists is a distinct object, so such a
   * key is identified by the position of its item in `a` followed by `b`.
   */
  datatype MergeKey = KeyText(text: string) | KeyNumber(n: int) | KeyTrue | KeyItem(pos: nat)

  /** `key ? (item?.[key] || JSON.stringify(item)) : JSON.stringify(item)`. */
  function KeyOf(item: Json, pos: nat, key: Option<string>): MergeKey {
    var v := if key.Some? then Prop(Some(item), key.value) else None;
    if Truthy(v) then
      match v.value
      case Str(s) => KeyText(s)
      case Num(n) => KeyNumber(n)
      case Bool(_) => KeyTrue
      case _ => KeyItem(pos)
    else KeyText(Stringify(item))
  }

  /** The key of every item of `xs`, in order. */
  function Keys(xs: seq<Json>, key: Option<string>): (ks: seq<MergeKey>)
    ensures |ks| == |xs|
  {
    seq(|xs|, p requires 0 <= p < |xs| => KeyOf(xs[p], p, key))
  }

  /** No earlier key equals the key at `p`. */
  predicate IsFirst<K(==)>(ks: seq<K>, p: nat)
    requires p < |ks|
  {
    forall q :: 0 <= q < p ==> ks[q] != ks[p]
  }

  /** The positions below `n` whose key is the first of its kind, in increasing order. */
  function FirstPositions<K(==)>(ks: seq<K>, n: nat): (ps: seq<nat>)
    requires n <= |ks|
    ensures forall i :: 0 <= i < |ps| ==> ps[i] < n
    decreases n
  {
    if n == 0 then []
    else FirstPositions(ks, n - 1) + (if IsFirst(ks, n - 1) then [n - 1] else [])
  }

  function Pick(xs: seq<Json>, ps: seq<nat>): (r: seq<Json>)
    requires forall i :: 0 <= i < |ps| ==> ps[i] < |xs|
    ensures |r| == |ps|
  {
    seq(|ps|, i requires 0 <= i < |ps| => xs[ps[i]])
  }

  /** What `mergeList(a, b, key)` returns. */
  function Merged(a: seq<Json>, b: seq<Json>, key: Option<string>): seq<Json> {
    Pick(a + b, FirstPositions(Keys(a + b, key), |a + b|))
  }

  /** The keys before `n`: the `seen` set after the items before `n`. */
  function KeysBefore<K>(ks: seq<K>, n: nat): set<K>
    requires n <= |ks|
  {
    set q | 0 <= q < n :: ks[q]
  }

  /** One call of `add` on the item at position `p` of `a` followed by `b`. */
  lemma AddStep(xs: seq<Json>, ks: seq<MergeKey>, p: nat, out: seq<Json>, seen: set<MergeKey>)
    requires p < |xs| == |ks|
    requires out == Pick(xs, FirstPositions(ks, p)) && seen == KeysBefore(ks, p)
    ensures ks[p] !in seen ==>
      out + [xs[p]] == Pick(xs, FirstPositions(ks, p + 1)) && seen + {ks[p]} == KeysBefore(ks, p + 1)
    ensures ks[p] in seen ==>
      out == Pick(xs, FirstPositions(ks, p + 1)) && seen == KeysBefore(ks, p + 1)
  {
    if ks[p] in seen {
      var q :| 0 <= q < p && ks[q] == ks[p];
    }
    assert KeysBefore(ks, p + 1) == seen + {ks[p]};
  }

  /** The key at position `start + i` of `xs` is that of `items[i]` when `items` sits at `start`. */
  lemma KeyInPlace(xs: seq<Json>, items: seq<Json>, start: nat, key: Option<string>, i: nat)
    requires start + |items| <= |xs| && items == xs[start..start + |items|] && i < |items|
    ensures start + i < |Keys(xs, key)| && Keys(xs, key)[start + i] == KeyOf(items[i], start + i, key)
  {
    assert items[i] == xs[start + i];
  }

  /** `add(item)`: an item whose key was not seen is appended and its key recorded. */
  method Add(item: Json, k: MergeKey, out: seq<Json>, seen: set<MergeKey>)
    returns (out': seq<Json>, seen': set<MergeKey>)
    ensures k !in seen ==> out' == out + [item] && seen' == seen + {k}
    ensures k in seen ==> out' == out && seen' == seen
  {
    out', seen' := out, seen;
    if k !in seen {
      seen' := seen + {k};
      out' := out + [item];
    }
  }

  /**
   * `items.forEach(add)`, where `items` sits at position `start` of `xs` (the list `a` followed
   * by `b`): `out` and `seen` go from the state after `start` items to the state after
   * `start + |items|`.
   */
  method AddAll(ghost xs: seq<Json>, items: seq<Json>, start: nat, key: Option<string>,
                out: seq<Json>, seen: set<MergeKey>)
    returns (out': seq<Json>, seen': set<MergeKey>)
    requires start + |items| <= |xs| && items == xs[start..start + |items|]
    requires out == Pick(xs, FirstPositions(Keys(xs, key), start))
    requires seen == KeysBefore(Keys(xs, key), start)
    ensures out' == Pick(xs, FirstPositions(Keys(xs, key), start + |items|))
    ensures seen' == KeysBefore(Keys(xs, key), start + |items|)
  {
    ghost var ks := Keys(xs, key);
    out', seen' := out, seen;
    for p := start to start + |items|
      invariant out' == Pick(xs, FirstPositions(ks, p))
      invariant seen' == KeysBefore(ks, p)
    {
      var k := KeyOf(items[p - start], p, key);
      KeyInPlace(xs, items, start, key, p - start);
      AddStep(xs, ks, p, out', seen');
      out', seen' := Add(items[p - start], k, out', seen');
    }
  }

  /** `mergeList(a, b, key)`: `add` over `a`, then over `b`. */
  method MergeList(a: seq<Json>, b: seq<Json>, key: Option<string>) returns (out: seq<Json>)
    ensures out == Merged(a, b, key)
  {
    ghost var xs := a + b;
    assert a == xs[0..|a|] && b == xs[|a|..|a| + |b|];
    var seen: set<MergeKey>;
    out, seen := AddAll(xs, a, 0, key, [], {});
    out, seen := AddAll(xs, b, |a|, key, out, seen);
  }

  lemma {:induction false} FirstPositionsSpec<K>(ks: seq<K>, n: nat)
    requires n <= |ks|
    ensures var ps := FirstPositions(ks, n);
      && (forall p: nat :: p in ps <==> p < n && IsFirst(ks, p))
      && (forall i, j :: 0 <= i < j < |ps| ==> ps[i] < ps[j])
    decreases n
  {
    if n > 0 {
      FirstPositionsSpec(ks, n - 1);
    }
  }

  lemma {:induction false} FirstPositionsGrow<K>(ks: seq<K>, m: nat, n: nat)
    requires m <= n <= |ks|
    ensures |FirstPositions(ks, m)| <= |FirstPositions(ks, n)|
    ensures FirstPositions(ks, n)[..|FirstPositions(ks, m)|] == FirstPositions(ks, m)
    decreases n - m
  {
    if m < n {
      FirstPositionsGrow(ks, m, n - 1);
      var pm, pn := FirstPositions(ks, m), FirstPositions(ks, n - 1);
      assert FirstPositions(ks, n)[..|pn|] == pn;
      assert FirstPositions(ks, n)[..|pm|] == pn[..|pm|];
    }
  }

  /** The first positions below `n` depend only on the keys below `n`. */
  lemma {:induction false} FirstPositionsOfPrefix<K>(ks: seq<K>, ks': seq<K>, n: nat)
    requires n <= |ks| && n <= |ks'| && ks[..n] == ks'[..n]
    ensures FirstPositions(ks, n) == FirstPositions(ks', n)
    decreases n
  {
    if n > 0 {
      assert ks[..n - 1] == ks'[..n - 1] by {
        assert ks[..n - 1] == ks[..n][..n - 1];
        assert ks'[..n - 1] == ks'[..n][..n - 1];
      }
      FirstPositionsOfPrefix(ks, ks', n - 1);
      assert forall q :: 0 <= q < n ==> ks[q] == ks[..n][q] == ks'[q];
      assert IsFirst(ks, n - 1) == IsFirst(ks', n - 1);
    }
  }

  /** Every key is the key of a first position at or before it. */
  lemma {:induction false} FirstCovers<K>(ks: seq<K>, q: nat)
    requires q < |ks|
    ensures exists p :: p in FirstPositions(ks, |ks|) && p <= q && ks[p] == ks[q]
    decreases q
  {
    FirstPositionsSpec(ks, |ks|);
    if !IsFirst(ks, q) {
      var q' :| 0 <= q' < q && ks[q'] == ks[q];
      FirstCovers(ks, q');
    }
  }

  /** Every key is the key of a kept position at or before it. */
  ghost predicate EveryKeyKept<K>(ks: seq<K>, ps: seq<nat>) {
    forall q :: 0 <= q < |ks| ==> exists i :: 0 <= i < |ps| && ps[i] <= q && ks[ps[i]] == ks[q]
  }

  /** The first positions are increasing and carry pairwise different keys. */
  lemma FirstKeysDistinct<K>(ks: seq<K>)
    ensures var ps := FirstPositions(ks, |ks|);
      forall i, j :: 0 <= i < j < |ps| ==> ps[i] < ps[j] && ks[ps[i]] != ks[ps[j]]
  {
    var ps := FirstPositions(ks, |ks|);
    FirstPositionsSpec(ks, |ks|);
    forall i, j | 0 <= i < j < |ps| ensures ks[ps[i]] != ks[ps[j]] {
      assert ps[j] in ps;
    }
  }

  /** Every key is the key of a first position at or before it. */
  lemma FirstKeysCover<K>(ks: seq<K>)
    ensures EveryKeyKept(ks, FirstPositions(ks, |ks|))
  {
    var ps := FirstPositions(ks, |ks|);
    forall q | 0 <= q < |ks| ensures exists i :: 0 <= i < |ps| && ps[i] <= q && ks[ps[i]] == ks[q] {
      FirstCovers(ks, q);
      var p :| p in ps && p <= q && ks[p] == ks[q];
      var i :| 0 <= i < |ps| && ps[i] == p;
    }
  }

  /**
   * `mergeList` keeps, in list order, exactly the items whose key no earlier item has: no two
   * kept items share a key, and every item's key is the key of a kept item at or before it.
   */
  lemma MergedSpec(a: seq<Json>, b: seq<Json>, key: Option<string>)
    ensures var xs, ks := a + b, Keys(a + b, key);
      var ps, r := FirstPositions(ks, |xs|), Merged(a, b, key);
      && |r| == |ps|
      && (forall i :: 0 <= i < |ps| ==> r[i] == xs[ps[i]])
      && (forall p: nat :: p in ps <==> p < |xs| && IsFirst(ks, p))
      && (forall i, j :: 0 <= i < j < |ps| ==> ps[i] < ps[j] && ks[ps[i]] != ks[ps[j]])
      && EveryKeyKept(ks, ps)
  {
    var ks := Keys(a + b, key);
    FirstPositionsSpec(ks, |ks|);
    FirstKeysDistinct(ks);
    FirstKeysCover(ks);
  }

  /**
   * The resume's items come first: the merge begins with the resume's list merged on its own,
   * and every later item comes from the job description.
   */
  lemma MergedResumeFirst(a: seq<Json>, b: seq<Json>, key: Option<string>)
    ensures var m, r := Merged(a, [], key), Merged(a, b, key);
      && |m| <= |r| && r[..|m|] == m
      && forall i :: |m| <= i < |r| ==> r[i] in b
  {
    var xs := a + b;
    var ks := Keys(xs, key);
    MergedAlone(a, b, key);
    FirstPositionsGrow(ks, |a|, |xs|);
    var ps, pa := FirstPositions(ks, |xs|), FirstPositions(ks, |a|);
    var r := Merged(a, b, key);
    assert r[..|pa|] == Pick(xs, pa) by {
      forall i | 0 <= i < |pa| ensures r[i] == xs[pa[i]] {
        assert ps[..|pa|][i] == ps[i];
      }
    }
    forall i | |pa| <= i < |r| ensures r[i] in b {
      LaterPositionsInB(ks, |a|, i);
      assert r[i] == b[ps[i] - |a|];
    }
  }

  /** The resume's list merged on its own picks the same positions of `a + b` below `|a|`. */
  lemma MergedAlone(a: seq<Json>, b: seq<Json>, key: Option<string>)
    ensures Merged(a, [], key) == Pick(a + b, FirstPositions(Keys(a + b, key), |a|))
  {
    var xs := a + b;
    var ks := Keys(xs, key);
    assert a + [] == a;
    var ka := Keys(a, key);
    assert ks[..|a|] == ka[..|a|] by {
      forall q | 0 <= q < |a| ensures ks[q] == ka[q] {
        assert xs[q] == a[q];
      }
    }
    FirstPositionsOfPrefix(ks, ka, |a|);
    var pa := FirstPositions(ks, |a|);
    assert Merged(a, [], key) == Pick(a, pa);
    forall i | 0 <= i < |pa| ensures a[pa[i]] == xs[pa[i]] {
    }
  }

  /** A first position listed after those below `m` is at least `m`. */
  lemma LaterPositionsInB<K>(ks: seq<K>, m: nat, i: nat)
    requires m <= |ks|
    requires |FirstPositions(ks, m)| <= i < |FirstPositions(ks, |ks|)|
    ensures m <= FirstPositions(ks, |ks|)[i]
  {
    var ps, pm := FirstPositions(ks, |ks|), FirstPositions(ks, m);
    FirstPositionsGrow(ks, m, |ks|);
    FirstPositionsSpec(ks, |ks|);
    FirstPositionsSpec(ks, m);
    assert forall k :: 0 <= k < |pm| ==> pm[k] == ps[k] < ps[i];
  }

  // ---------------------------------------------------------------- normalizeData

  /** The record `normalizeData` returns for the preview. */
  datatype Preview = Preview(
    name: Json, email: Json, phone: Json, links: Json, jobTitle: Json, jobCompany: Json, summary: Json,
    skills: seq<string>, core: seq<string>, nice: seq<string>, other: seq<string>,
    experience: seq<Json>, education: seq<Json>,
    projects: seq<Json>, achievements: seq<Json>, certifications: seq<Json>, awards: seq<Json>,
    publications: seq<Json>, languages: seq<Json>, hobbies: seq<Json>)

  /** `json?.resume || {}`, `json?.job || {}`. */
  function Section(json: Option<Json>, k: string): Json {
    Or(Prop(json, k), Obj([]))
  }

  function Field(v: Json, k: string): Option<Json> {
    Prop(Some(v), k)
  }

  /** `Array.isArray(v) ? v : []`. */
  function ArrayOrEmpty(v: Option<Json>): seq<Json> {
    if v.Some? && v.value.Arr? then v.value.items else []
  }

  /** `label` needs a string: on any other value `s.replace` throws. */
  predicate AllText(items: seq<Json>) {
    forall k :: 0 <= k < |items| ==> items[k].Str?
  }

  function Texts(items: seq<Json>): (r: seq<string>)
    requires AllText(items)
    ensures |r| == |items|
  {
    seq(|items|, k requires 0 <= k < |items| => items[k].s)
  }

  /** `(v || []).forEach`: a truthy value that is not an array has no `forEach`. */
  predicate ListLike(v: Option<Json>) {
    !Truthy(v) || v.value.Arr?
  }

  function ListOf(v: Option<Json>): seq<Json>
    requires ListLike(v)
  {
    if Truthy(v) then v.value.items else []
  }

  const ForEachError := "TypeError: forEach is not a function"

  predicate Mergeable(r: Json, j: Json, field: string) {
    ListLike(Field(r, field)) && ListLike(Field(j, field))
  }

  /** Every list `normalizeData` merges can be iterated, on both sides. */
  predicate AllMergeable(r: Json, j: Json) {
    && Mergeable(r, j, "projects")
    && Mergeable(r, j, "achievements")
    && Mergeable(r, j, "languages")
    && Mergeable(r, j, "hobbies")
    && Mergeable(r, j, "certifications")
    && Mergeable(r, j, "awards")
    && Mergeable(r, j, "publications")
  }

  /** `mergeList(r[field] || [], j[field] || [], key)`. */
  function MergeOf(r: Json, j: Json, field: string, key: Option<string>): seq<Json>
    requires Mergeable(r, j, field)
  {
    Merged(ListOf(Field(r, field)), ListOf(Field(j, field)), key)
  }

  /** The skills of one list, each labelled, or `None` when `label` would throw on one of them. */
  function LabelledSkills(v: Option<Json>): Option<seq<string>> {
    var items := ArrayOrEmpty(v);
    if AllText(items) then Some(Relabel(Texts(items), Label)) else None
  }

  /** What `normalizeData(json)` returns, or the error it throws. */
  function Normalize(json: Option<Json>): Result<Preview, string> {
    var r, j := Section(json, "resume"), Section(json, "job");
    var resumeSkills := LabelledSkills(Field(r, "skills"));
    var jdReq := LabelledSkills(Field(j, "skills_required"));
    var jdNice := LabelledSkills(Field(j, "nice_to_have"));
    if resumeSkills.None? || jdReq.None? || jdNice.None? then Err(LabelError)
    else if !AllMergeable(r, j) then Err(ForEachError)
    else
      var core := ByLabel(jdReq.value, Label);
      var nice := ByLabel(jdNice.value, Label);
      var other := ByLabel(Unclaimed(resumeSkills.value, core, nice), Label);
      Ok(Preview(
        Or(Field(r, "name"), Str("Your Name")),
        Or(Field(r, "email"), Str("")),
        Or(Field(r, "phone"), Str("")),
        Or(Field(r, "links"), Or(Field(r, "profiles"), Arr([]))),
        Or(Field(j, "title"), Str("")),
        Or(Field(j, "company"), Str("")),
        Or(Field(r, "summary"), Or(Field(r, "objective"), Str(""))),
        core + nice + other, core, nice, other,
        ArrayOrEmpty(Field(r, "experience")),
        ArrayOrEmpty(Field(r, "education")),
        MergeOf(r, j, "projects", Some("name")),
        MergeOf(r, j, "achievements", None),
        MergeOf(r, j, "certifications", Some("name")),
        MergeOf(r, j, "awards", Some("title")),
        MergeOf(r, j, "publications", Some("title")),
        MergeOf(r, j, "languages", None),
        MergeOf(r, j, "hobbies", None)))
  }

  /** One `mergeList` call of `normalizeData`. */
  method MergeField(r: Json, j: Json, field: string, key: Option<string>) returns (res: Result<seq<Json>, string>)
    ensures Mergeable(r, j, field) ==> res == Ok(MergeOf(r, j, field, key))
    ensures !Mergeable(r, j, field) ==> res == Err(ForEachError)
  {
    var a, b := Field(r, field), Field(j, field);
    if !ListLike(a) || !ListLike(b) {
      return Err(ForEachError);
    }
    var out := MergeList(ListOf(a), ListOf(b), key);
    return Ok(out);
  }

  /** `normalizeData(json)`, step by step in the order of the source. */
  method NormalizeData(json: Option<Json>) returns (res: Result<Preview, string>)
    ensures res == Normalize(json)
  {
    var r, j := Section(json, "resume"), Section(json, "job");
    var resumeSkills := LabelledSkills(Field(r, "skills"));
    var jdReq := LabelledSkills(Field(j, "skills_required"));
    var jdNice := LabelledSkills(Field(j, "nice_to_have"));
    if resumeSkills.None? || jdReq.None? || jdNice.None? {
      return Err(LabelError);
    }
    var core := FillByLabel(jdReq.value, Label);
    var nice := FillByLabel(jdNice.value, Label);
    var other := FillOther(resumeSkills.value, core, nice, Label);
    var projects := MergeField(r, j, "projects", Some("name"));
    if projects.Err? {
      return Err(projects.error);
    }
    var achievements := MergeField(r, j, "achievements", None);
    if achievements.Err? {
      return Err(achievements.error);
    }
    var languages := MergeField(r, j, "languages", None);
    if languages.Err? {
      return Err(languages.error);
    }
    var hobbies := MergeField(r, j, "hobbies", None);
    if hobbies.Err? {
      return Err(hobbies.error);
    }
    var certifications := MergeField(r, j, "certifications", Some("name"));
    if certifications.Err? {
      return Err(certifications.error);
    }
    var awards := MergeField(r, j, "awards", Some("title"));
    if awards.Err? {
      return Err(awards.error);
    }
    var publications := MergeField(r, j, "publications", Some("title"));
    if publications.Err? {
      return Err(publications.error);
    }
    res := Ok(Preview(
      Or(Field(r, "name"), Str("Your Name")),
      Or(Field(r, "email"), Str("")),
      Or(Field(r, "phone"), Str("")),
      Or(Field(r, "links"), Or(Field(r, "profiles"), Arr([]))),
      Or(Field(j, "title"), Str("")),
      Or(Field(j, "company"), Str("")),
      Or(Field(r, "summary"), Or(Field(r, "objective"), Str(""))),
      core + nice + other, core, nice, other,
      ArrayOrEmpty(Field(r, "experience")),
      ArrayOrEmpty(Field(r, "education")),
      projects.value, achievements.value, certifications.value, awards.value,
      publications.value, languages.value, hobbies.value));
  }

  /** `normalizeData` fails exactly when a skill is not a string or a merged list cannot be iterated. */
  lemma NormalizeOutcome(json: Option<Json>)
    ensures var r, j := Section(json, "resume"), Section(json, "job");
      var textSkills := AllText(ArrayOrEmpty(Field(r, "skills")))
        && AllText(ArrayOrEmpty(Field(j, "skills_required"))) && AllText(ArrayOrEmpty(Field(j, "nice_to_have")));
      && (Normalize(json).Ok? <==> textSkills && AllMergeable(r, j))
      && (!textSkills ==> Normalize(json) == Err(LabelError))
      && (textSkills && !AllMergeable(r, j) ==> Normalize(json) == Err(ForEachError))
  {
  }

  /** Labels are their own labels, so labelling a labelled list changes nothing. */
  lemma {:induction false} RelabelLabelled(texts: seq<string>)
    ensures forall x :: x in Relabel(texts, Label) ==> Label(x) == x
    ensures Relabel(Relabel(texts, Label), Label) == Relabel(texts, Label)
  {
    var ls := Relabel(texts, Label);
    forall k | 0 <= k < |ls| ensures Label(ls[k]) == ls[k] {
      LabelIdempotent(texts[k]);
    }
  }

  /**
   * The skill groups: `core` and `nice` are the labels of the job description's required and
   * nice-to-have skills, each once, in first-seen order; `other` is exactly the resume's
   * labelled skills found in neither, each once; every resume skill lands in a group; and
   * `skills` is the three groups one after the other.
   */
  lemma NormalizeSkills(json: Option<Json>)
    requires Normalize(json).Ok?
    ensures var r, j := Section(json, "resume"), Section(json, "job");
      var rs := LabelledSkills(Field(r, "skills")).value;
      var req := LabelledSkills(Field(j, "skills_required")).value;
      var opt := LabelledSkills(Field(j, "nice_to_have")).value;
      var p := Normalize(json).value;
      && p.skills == p.core + p.nice + p.other
      && p.core == Distinct(req)
      && p.nice == Distinct(opt)
      && (forall x :: x in p.other <==> x in rs && x !in p.core && x !in p.nice)
      && (forall i, k :: 0 <= i < k < |p.other| ==> Label(p.other[i]) != Label(p.other[k]))
      && (forall s :: s in rs ==> s in p.core || s in p.nice || s in p.other)
  {
    var r, j := Section(json, "resume"), Section(json, "job");
    var rs := LabelledSkills(Field(r, "skills")).value;
    var req := LabelledSkills(Field(j, "skills_required")).value;
    var opt := LabelledSkills(Field(j, "nice_to_have")).value;
    LabelIsIdempotent();
    RelabelLabelled(Texts(ArrayOrEmpty(Field(r, "skills"))));
    RelabelLabelled(Texts(ArrayOrEmpty(Field(j, "skills_required"))));
    RelabelLabelled(Texts(ArrayOrEmpty(Field(j, "nice_to_have"))));
    ByLabelIsDistinct(req, Label);
    ByLabelIsDistinct(opt, Label);
    var core, nice := ByLabel(req, Label), ByLabel(opt, Label);
    OtherSpec(rs, core, nice, Label);
  }

  /**
   * The defaults: "Your Name" for a missing name, "" for a missing e-mail, phone, job title or
   * company, the links or else the profiles or else [], the summary or else the objective or
   * else "", and experience and education passed on when they are arrays and [] otherwise.
   */
  lemma NormalizeDefaults(json: Option<Json>)
    requires Normalize(json).Ok?
    ensures var r, j, p := Section(json, "resume"), Section(json, "job"), Normalize(json).value;
      && (Truthy(Field(r, "name")) ==> Some(p.name) == Field(r, "name"))
      && (!Truthy(Field(r, "name")) ==> p.name == Str("Your Name"))
      && (Truthy(Field(r, "links")) ==> Some(p.links) == Field(r, "links"))
      && (Truthy(Field(r, "email")) ==> Some(p.email) == Field(r, "email"))
      && (!Truthy(Field(r, "email")) ==> p.email == Str(""))
      && (Truthy(Field(r, "phone")) ==> Some(p.phone) == Field(r, "phone"))
      && (!Truthy(Field(r, "phone")) ==> p.phone == Str(""))
      && (Truthy(Field(j, "title")) ==> Some(p.jobTitle) == Field(j, "title"))
      && (!Truthy(Field(j, "title")) ==> p.jobTitle == Str(""))
      && (Truthy(Field(j, "company")) ==> Some(p.jobCompany) == Field(j, "company"))
      && (!Truthy(Field(j, "company")) ==> p.jobCompany == Str(""))
      && (!Truthy(Field(r, "links")) && Truthy(Field(r, "profiles")) ==> Some(p.links) == Field(r, "profiles"))
      && (!Truthy(Field(r, "links")) && !Truthy(Field(r, "profiles")) ==> p.links == Arr([]))
      && (Truthy(Field(r, "summary")) ==> Some(p.summary) == Field(r, "summary"))
      && (!Truthy(Field(r, "summary")) && Truthy(Field(r, "objective")) ==> Some(p.summary) == Field(r, "objective"))
      && (!Truthy(Field(r, "summary")) && !Truthy(Field(r, "objective")) ==> p.summary == Str(""))
      && (Field(r, "experience").Some? && Field(r, "experience").value.Arr? ==>
            p.experience == Field(r, "experience").value.items)
      && (!(Field(r, "experience").Some? && Field(r, "experience").value.Arr?) ==> p.experience == [])
      && (Field(r, "education").Some? && Field(r, "education").value.Arr? ==>
            p.education == Field(r, "education").value.items)
      && (!(Field(r, "education").Some? && Field(r, "education").value.Arr?) ==> p.education == [])
  {
  }

  /** With no data at all the preview is the empty template. */
  lemma NormalizeEmpty()
    ensures Normalize(None) == Ok(Preview(
      Str("Your Name"), Str(""), Str(""), Arr([]), Str(""), Str(""), Str(""),
      [], [], [], [], [], [], [], [], [], [], [], [], []))
  {
    var r := Section(None, "resume");
    assert r == Obj([]);
    assert Merged([], [], Some("name")) == [];
    assert Merged([], [], Some("title")) == [];
    assert Merged([], [], None) == [];
  }
}
