/**
 * Keyword grouping of a flat skill list into six fixed categories plus an "Other" remainder.
 * The template path and the document path carry textually identical copies of this routine.
 */
module SkillGroups {
  import opened Strings
  import opened ResumeData

  datatype Category = Category(name: string, keywords: seq<string>)

  /** The category table, in its iteration order. */
  const Table: seq<Category> := [
    Category("Frontend", ["html", "css", "javascript", "typescript", "react", "angular", "vue"]),
    Category("Backend", ["java", "python", "go", "c#", "node", "php", "spring", "django", "flask"]),
    Category("Frameworks", ["spring boot", "express", "hibernate", "jpa", "next.js", "fastapi"]),
    Category("Databases", ["mysql", "postgres", "mongodb", "oracle", "sqlite", "redis", "dynamodb"]),
    Category("Tools", ["git", "docker", "kubernetes", "maven", "gradle", "postman", "vscode", "intellij"]),
    Category("Concepts", ["oop", "object-oriented", "microservices", "algorithms", "data structures", "ci/cd", "agile"])
  ]

  const OtherLabel := "Other"

  /** Some keyword occurs in the lower-cased skill. */
  predicate HasKeyword(skill: string, keywords: seq<string>) {
    exists k :: 0 <= k < |keywords| && Contains(LowerStr(skill), keywords[k])
  }

  /** The skills of category `c`, in input order. */
  function Found(skills: seq<string>, c: Category): (r: seq<string>)
    ensures |r| <= |skills|
  {
    if skills == [] then []
    else (if HasKeyword(skills[0], c.keywords) then [skills[0]] else []) + Found(skills[1..], c)
  }

  /** The non-empty groups of the first `n` categories, in table order. */
  function GroupsUpTo(skills: seq<string>, n: nat): seq<SkillGroup>
    requires n <= |Table|
  {
    if n == 0 then []
    else
      var found := Found(skills, Table[n - 1]);
      GroupsUpTo(skills, n - 1) + (if found != [] then [SkillGroup(Table[n - 1].name, found)] else [])
  }

  /** The skill matches some category's keywords. */
  predicate Categorized(skill: string) {
    exists c :: 0 <= c < |Table| && HasKeyword(skill, Table[c].keywords)
  }

  /** The skills no category takes, in input order. */
  function Leftover(skills: seq<string>): (r: seq<string>)
    ensures |r| <= |skills|
  {
    if skills == [] then []
    else (if !Categorized(skills[0]) then [skills[0]] else []) + Leftover(skills[1..])
  }

  /** The grouping as one expression: the category groups, then "Other" when it is non-empty. */
  function Grouping(skills: seq<string>): seq<SkillGroup> {
    if skills == [] then []
    else
      var left := Leftover(skills);
      GroupsUpTo(skills, |Table|) + (if left != [] then [SkillGroup(OtherLabel, left)] else [])
  }

  /** Whether a skill lies in some group of `groups` (the set comprehension of the source). */
  predicate InSomeGroup(s: string, groups: seq<SkillGroup>) {
    exists g :: 0 <= g < |groups| && s in groups[g].items
  }

  /**
   * The source's loop: one pass over the table appending each non-empty group, then the
   * skills that are in no group so far.
   */
  method GroupSkills(skills: seq<string>) returns (result: seq<SkillGroup>)
    ensures result == Grouping(skills)
  {
    result := [];
    if skills == [] {
      return;
    }
    for c := 0 to |Table|
      invariant result == GroupsUpTo(skills, c)
    {
      var found := Found(skills, Table[c]);
      if found != [] {
        result := result + [SkillGroup(Table[c].name, found)];
      }
    }
    var leftover: seq<string> := [];
    for i := 0 to |skills|
      invariant leftover == Leftover(skills[..i])
    {
      LeftoverSnoc(skills[..i], skills[i]);
      assert skills[..i + 1] == skills[..i] + [skills[i]];
      InGroupsIffCategorized(skills, skills[i]);
      if !InSomeGroup(skills[i], result) {
        leftover := leftover + [skills[i]];
      }
    }
    assert skills[..|skills|] == skills;
    if leftover != [] {
      result := result + [SkillGroup(OtherLabel, leftover)];
    }
  }

  // ---------------------------------------------------------------- lemmas

  lemma {:induction false} FoundSnoc(xs: seq<string>, x: string, c: Category)
    ensures Found(xs + [x], c) == Found(xs, c) + (if HasKeyword(x, c.keywords) then [x] else [])
  {
    if xs == [] {
      assert [x][1..] == [];
    } else {
      assert (xs + [x])[1..] == xs[1..] + [x];
      FoundSnoc(xs[1..], x, c);
    }
  }

  lemma {:induction false} LeftoverSnoc(xs: seq<string>, x: string)
    ensures Leftover(xs + [x]) == Leftover(xs) + (if !Categorized(x) then [x] else [])
  {
    if xs == [] {
      assert [x][1..] == [];
    } else {
      assert (xs + [x])[1..] == xs[1..] + [x];
      LeftoverSnoc(xs[1..], x);
    }
  }

  /** `Found` keeps exactly the skills with a keyword of the category. */
  lemma {:induction false} FoundMembers(skills: seq<string>, c: Category, s: string)
    ensures s in Found(skills, c) <==> s in skills && HasKeyword(s, c.keywords)
  {
    if skills != [] {
      FoundMembers(skills[1..], c, s);
      assert skills == [skills[0]] + skills[1..];
    }
  }

  /** `Leftover` keeps exactly the skills no category takes. */
  lemma {:induction false} LeftoverMembers(skills: seq<string>, s: string)
    ensures s in Leftover(skills) <==> s in skills && !Categorized(s)
  {
    if skills != [] {
      LeftoverMembers(skills[1..], s);
      assert skills == [skills[0]] + skills[1..];
    }
  }

  /** The groups of the first `n` categories: one per non-empty category, label and items. */
  lemma {:induction false} GroupsUpToMembers(skills: seq<string>, n: nat, s: string)
    requires n <= |Table|
    ensures InSomeGroup(s, GroupsUpTo(skills, n))
      <==> s in skills && exists c :: 0 <= c < n && HasKeyword(s, Table[c].keywords)
  {
    if n > 0 {
      var prev := GroupsUpTo(skills, n - 1);
      var found := Found(skills, Table[n - 1]);
      var last := if found != [] then [SkillGroup(Table[n - 1].name, found)] else [];
      assert GroupsUpTo(skills, n) == prev + last;
      InSomeGroupAppend(s, prev, last);
      assert InSomeGroup(s, last) <==> s in found by {
        if found != [] {
          assert last[0].items == found;
        }
      }
      GroupsUpToMembers(skills, n - 1, s);
      FoundMembers(skills, Table[n - 1], s);
      assert (exists c :: 0 <= c < n && HasKeyword(s, Table[c].keywords))
        <==> ((exists c :: 0 <= c < n - 1 && HasKeyword(s, Table[c].keywords))
              || HasKeyword(s, Table[n - 1].keywords));
    }
  }

  lemma InSomeGroupAppend(s: string, a: seq<SkillGroup>, b: seq<SkillGroup>)
    ensures InSomeGroup(s, a + b) <==> InSomeGroup(s, a) || InSomeGroup(s, b)
  {
    if InSomeGroup(s, a + b) {
      var k :| 0 <= k < |a + b| && s in (a + b)[k].items;
      if k >= |a| {
        assert (a + b)[k] == b[k - |a|];
      }
    }
    if InSomeGroup(s, a) {
      var k :| 0 <= k < |a| && s in a[k].items;
      assert (a + b)[k] == a[k];
    }
    if InSomeGroup(s, b) {
      var k :| 0 <= k < |b| && s in b[k].items;
      assert (a + b)[k + |a|] == b[k];
    }
  }

  lemma InGroupsIffCategorized(skills: seq<string>, s: string)
    ensures InSomeGroup(s, GroupsUpTo(skills, |Table|)) <==> s in skills && Categorized(s)
  {
    GroupsUpToMembers(skills, |Table|, s);
  }

  /**
   * Each of the first `n` categories' groups is that category's label and found skills, which
   * are non-empty; the groups follow the table order.
   */
  lemma {:induction false} GroupsUpToShape(skills: seq<string>, n: nat)
    requires n <= |Table|
    ensures var g := GroupsUpTo(skills, n);
      && |g| <= n
      && (forall k :: 0 <= k < |g| ==> TableIndex(g[k].name) < n && IsCategoryGroup(skills, g[k]))
      && (forall k, l :: 0 <= k < l < |g| ==> TableIndex(g[k].name) < TableIndex(g[l].name))
  {
    if n > 0 {
      GroupsUpToShape(skills, n - 1);
      LabelIndex(n - 1);
      var prev := GroupsUpTo(skills, n - 1);
      var g := GroupsUpTo(skills, n);
      assert forall k :: 0 <= k < |prev| ==> g[k] == prev[k];
    }
  }

  /** A group holding exactly the skills of the category its label names, and at least one. */
  predicate IsCategoryGroup(skills: seq<string>, g: SkillGroup) {
    var c := TableIndex(g.name);
    c < |Table| && g == SkillGroup(Table[c].name, Found(skills, Table[c])) && g.items != []
  }

  /** The position of a label in the table; labels outside it (such as "Other") come after. */
  function TableIndex(name: string): nat {
    if name == "Frontend" then 0
    else if name == "Backend" then 1
    else if name == "Frameworks" then 2
    else if name == "Databases" then 3
    else if name == "Tools" then 4
    else if name == "Concepts" then 5
    else 6
  }

  lemma LabelIndex(c: nat)
    requires c < |Table|
    ensures TableIndex(Table[c].name) == c
  {
  }

  /** The category groups come first; "Other", when present, is one more group at the end. */
  lemma GroupingSplit(skills: seq<string>)
    ensures var g := Grouping(skills);
      var cat := GroupsUpTo(skills, |Table|);
      && (skills == [] ==> g == [])
      && (skills != [] ==> g[..|cat|] == cat)
      && (skills != [] && Leftover(skills) != [] ==> |g| == |cat| + 1 && g[|cat|] == SkillGroup(OtherLabel, Leftover(skills)))
      && (skills != [] && Leftover(skills) == [] ==> g == cat)
  {
  }

  /** The groups are in table order, "Other" last, each label at most once. */
  lemma GroupingOrder(skills: seq<string>)
    ensures var g := Grouping(skills);
      forall k, l :: 0 <= k < l < |g| ==> TableIndex(g[k].name) < TableIndex(g[l].name)
  {
    if skills != [] {
      var cat := GroupsUpTo(skills, |Table|);
      var g := Grouping(skills);
      GroupingSplit(skills);
      GroupsUpToShape(skills, |Table|);
      assert TableIndex(OtherLabel) == 6;
      forall k, l | 0 <= k < l < |g| ensures TableIndex(g[k].name) < TableIndex(g[l].name) {
        assert g[k] == cat[k];
        if l < |cat| {
          assert g[l] == cat[l];
        }
      }
    }
  }

  /**
   * Every group is non-empty; "Other" holds exactly the uncategorised skills in input order and
   * is present only if there are any; every other group holds exactly the skills with one of its
   * category's keywords, in input order.
   */
  lemma GroupingContents(skills: seq<string>)
    ensures var g := Grouping(skills);
      && (forall k :: 0 <= k < |g| && g[k].name != OtherLabel ==> IsCategoryGroup(skills, g[k]))
      && (forall k :: 0 <= k < |g| && g[k].name == OtherLabel ==> g[k].items == Leftover(skills) != [])
      && (Leftover(skills) != [] && skills != [] ==> exists k :: 0 <= k < |g| && g[k].name == OtherLabel)
  {
    if skills != [] {
      var cat := GroupsUpTo(skills, |Table|);
      var g := Grouping(skills);
      GroupingSplit(skills);
      GroupsUpToShape(skills, |Table|);
      forall k | 0 <= k < |g|
        ensures g[k].name != OtherLabel ==> IsCategoryGroup(skills, g[k])
        ensures g[k].name == OtherLabel ==> g[k].items == Leftover(skills) != []
      {
        if k < |cat| {
          assert g[k] == cat[k];
          assert IsCategoryGroup(skills, cat[k]);
          assert cat[k].name != OtherLabel by {
            assert TableIndex(cat[k].name) < 6;
            assert TableIndex(OtherLabel) == 6;
          }
        } else {
          assert g[k] == SkillGroup(OtherLabel, Leftover(skills));
        }
      }
      if Leftover(skills) != [] {
        assert g[|cat|].name == OtherLabel;
      }
    }
  }

  /** Every input skill lands in at least one group. */
  lemma GroupingCovers(skills: seq<string>, s: string)
    requires s in skills
    ensures InSomeGroup(s, Grouping(skills))
  {
    var cat := GroupsUpTo(skills, |Table|);
    var g := Grouping(skills);
    InGroupsIffCategorized(skills, s);
    if Categorized(s) {
      var k :| 0 <= k < |cat| && s in cat[k].items;
      assert g[k] == cat[k];
    } else {
      LeftoverMembers(skills, s);
      assert g[|cat|].items == Leftover(skills);
    }
  }

  /** Every item of a category group is an input skill containing one of that category's keywords. */
  lemma GroupItemsMatch(skills: seq<string>, c: nat, s: string)
    requires c < |Table| && s in Found(skills, Table[c])
    ensures s in skills
    ensures exists k :: 0 <= k < |Table[c].keywords| && Contains(LowerStr(s), Table[c].keywords[k])
  {
    FoundMembers(skills, Table[c], s);
  }
}
