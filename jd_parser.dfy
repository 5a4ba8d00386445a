/**
 * The job-description parser after the language model has answered: the reply is decoded and,
 * when it is a JSON object, the fields the rest of the backend reads are filled in with empty
 * defaults, one `setdefault` at a time.
 */
module JdParser {
  import opened Wrappers
  import opened JsonValues
  import ResumeParser

  /** `d.setdefault(k, v)` on a dictionary: a missing key is added at the end. */
  function SetDefault(members: seq<Member>, k: string, v: Json): (r: seq<Member>)
    ensures Get(members, k).Some? ==> r == members
    ensures Get(members, k).None? ==> r == members + [Member(k, v)]
  {
    if Get(members, k).Some? then members else members + [Member(k, v)]
  }

  /** The fields `parse_jd` fills, in its order. */
  const JdFields: seq<string> := [
    "title", "company", "skills_required", "nice_to_have", "projects", "achievements",
    "certifications", "awards", "publications", "languages", "hobbies"
  ]

  /** The default of a field: "" for the title and the company, [] for the lists. */
  function JdDefault(k: string): Json {
    if k == "title" || k == "company" then Str("") else Arr([])
  }

  /** `setdefault` applied to each of `keys` in turn. */
  function FillDefaults(members: seq<Member>, keys: seq<string>): seq<Member>
    decreases |keys|
  {
    if keys == [] then members
    else FillDefaults(SetDefault(members, keys[0], JdDefault(keys[0])), keys[1..])
  }

  /**
   * `parse_jd` after the model call: `loaded` is `json.loads(raw)`, `None` when it raises.
   * A reply that decodes to something other than an object makes `setdefault` raise.
   */
  method ParseJd(raw: string, loaded: Option<Json>) returns (r: Result<Json, string>)
    ensures loaded.None? ==> r == Ok(ResumeParser.ParseFailed(raw))
    ensures loaded.Some? && loaded.value.Obj? ==> r == Ok(Obj(FillDefaults(loaded.value.members, JdFields)))
    ensures loaded.Some? && !loaded.value.Obj? ==> r.Err?
  {
    if loaded.None? {
      return Ok(ResumeParser.ParseFailed(raw));
    }
    if !loaded.value.Obj? {
      return Err("AttributeError: object has no attribute 'setdefault'");
    }
    var data := loaded.value.members;
    ghost var fields := JdFields;
    FieldDefaults();
    assert fields[0..] == fields;
    FillStep(data, fields, 0, "title", Str(""));
    data := SetDefault(data, "title", Str(""));
    FillStep(data, fields, 1, "company", Str(""));
    data := SetDefault(data, "company", Str(""));
    FillStep(data, fields, 2, "skills_required", Arr([]));
    data := SetDefault(data, "skills_required", Arr([]));
    FillStep(data, fields, 3, "nice_to_have", Arr([]));
    data := SetDefault(data, "nice_to_have", Arr([]));
    FillStep(data, fields, 4, "projects", Arr([]));
    data := SetDefault(data, "projects", Arr([]));
    FillStep(data, fields, 5, "achievements", Arr([]));
    data := SetDefault(data, "achievements", Arr([]));
    FillStep(data, fields, 6, "certifications", Arr([]));
    data := SetDefault(data, "certifications", Arr([]));
    FillStep(data, fields, 7, "awards", Arr([]));
    data := SetDefault(data, "awards", Arr([]));
    FillStep(data, fields, 8, "publications", Arr([]));
    data := SetDefault(data, "publications", Arr([]));
    FillStep(data, fields, 9, "languages", Arr([]));
    data := SetDefault(data, "languages", Arr([]));
    FillStep(data, fields, 10, "hobbies", Arr([]));
    data := SetDefault(data, "hobbies", Arr([]));
    assert fields[11..] == [];
    r := Ok(Obj(data));
  }

  /** The fields of `JdFields` one by one, with their defaults. */
  lemma FieldDefaults()
    ensures |JdFields| == 11
    ensures JdFields[0] == "title" && JdDefault("title") == Str("")
    ensures JdFields[1] == "company" && JdDefault("company") == Str("")
    ensures JdFields[2] == "skills_required" && JdDefault("skills_required") == Arr([])
    ensures JdFields[3] == "nice_to_have" && JdDefault("nice_to_have") == Arr([])
    ensures JdFields[4] == "projects" && JdDefault("projects") == Arr([])
    ensures JdFields[5] == "achievements" && JdDefault("achievements") == Arr([])
    ensures JdFields[6] == "certifications" && JdDefault("certifications") == Arr([])
    ensures JdFields[7] == "awards" && JdDefault("awards") == Arr([])
    ensures JdFields[8] == "publications" && JdDefault("publications") == Arr([])
    ensures JdFields[9] == "languages" && JdDefault("languages") == Arr([])
    ensures JdFields[10] == "hobbies" && JdDefault("hobbies") == Arr([])
  {
  }

  /** One `setdefault` of the chain: the `i`-th field is `k`, with default `v`. */
  lemma FillStep(data: seq<Member>, keys: seq<string>, i: nat, k: string, v: Json)
    requires i < |keys| && keys[i] == k && JdDefault(k) == v
    ensures FillDefaults(data, keys[i..]) == FillDefaults(SetDefault(data, k, v), keys[i + 1..])
  {
    assert keys[i..][1..] == keys[i + 1..];
  }

  // ---------------------------------------------------------------- what the defaults guarantee

  lemma {:induction false} GetAppend(members: seq<Member>, extra: Member, k: string)
    ensures Get(members + [extra], k)
      == if Get(members, k).Some? then Get(members, k) else if extra.key == k then Some(extra.value) else None
    decreases |members|
  {
    if members == [] {
      assert [] + [extra] == [extra];
    } else {
      assert (members + [extra])[1..] == members[1..] + [extra];
      GetAppend(members[1..], extra, k);
    }
  }

  /**
   * After the defaults every listed key is present; a key that was present keeps its value, a
   * listed key that was missing holds its default, and the original members stay in front.
   */
  lemma {:induction false} FillDefaultsSpec(members: seq<Member>, keys: seq<string>, k: string)
    ensures Get(members, k).Some? ==> Get(FillDefaults(members, keys), k) == Get(members, k)
    ensures Get(members, k).None? && k !in keys ==> Get(FillDefaults(members, keys), k).None?
    ensures Get(members, k).None? && k in keys ==> Get(FillDefaults(members, keys), k) == Some(JdDefault(k))
    ensures members <= FillDefaults(members, keys)
    decreases |keys|
  {
    if keys != [] {
      var next := SetDefault(members, keys[0], JdDefault(keys[0]));
      if Get(members, keys[0]).None? {
        GetAppend(members, Member(keys[0], JdDefault(keys[0])), k);
      }
      FillDefaultsSpec(next, keys[1..], k);
      assert next[..|members|] == members;
      assert FillDefaults(members, keys)[..|next|][..|members|] == members;
      assert k in keys <==> k == keys[0] || k in keys[1..];
    }
  }

  /**
   * On a decoded object, `parse_jd` leaves the eleven fields present, keeps every value the
   * reply gave, fills a missing title or company with "" and a missing list with [], and
   * does not touch other keys.
   */
  lemma JdDefaultsFilled(members: seq<Member>, k: string)
    ensures var d := FillDefaults(members, JdFields);
      && (k in JdFields ==> Get(d, k).Some?)
      && (Get(members, k).Some? ==> Get(d, k) == Get(members, k))
      && (Get(members, k).None? && (k == "title" || k == "company") ==> Get(d, k) == Some(Str("")))
      && (Get(members, k).None? && k in JdFields && k != "title" && k != "company" ==>
            Get(d, k) == Some(Arr([])))
      && (k !in JdFields ==> Get(d, k) == Get(members, k))
      && members <= d
  {
    FillDefaultsSpec(members, JdFields, k);
    assert "title" in JdFields && "company" in JdFields;
  }

  /** The failure reply is returned as it is, with no defaults added. */
  lemma FailureHasNoDefaults(raw: string, k: string)
    requires k in JdFields
    ensures Get(ResumeParser.ParseFailed(raw).members, k).None?
  {
  }
}
