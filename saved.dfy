/**
 * The saved-files router: the containment check that keeps every requested path under the
 * save root, the listing filter and order, and the download header. Paths are resolved
 * lexically (symbolic links are not followed); the directory listing and the existence test
 * are inputs, since they read the file system.
 */
module Saved {
  import opened Wrappers
  import opened Strings
  import opened Sorting

  /** An absolute path as its list of components; `[]` is the file-system root. */
  type Path = seq<string>

  /** A resolved path: no empty, `.` or `..` component and no separator inside a component. */
  predicate Normal(p: Path) {
    forall k :: 0 <= k < |p| ==> p[k] != "" && p[k] != "." && p[k] != ".." && '/' !in p[k]
  }

  predicate NotSlash(c: char) { c != '/' }

  /** The components of `s` between its `/` separators (empty ones included). */
  function Split(s: string): (parts: seq<string>)
    ensures |parts| >= 1
    decreases |s|
  {
    var n := Span(s, 0, NotSlash);
    if n == |s| then [s] else [s[..n]] + Split(s[n + 1..])
  }

  /** One component applied to a resolved path, as `Path.resolve` does without the file system. */
  function Step(cur: Path, c: string): Path {
    if c == "" || c == "." then cur
    else if c == ".." then (if cur == [] then [] else cur[..|cur| - 1])
    else cur + [c]
  }

  function Walk(cur: Path, comps: seq<string>): Path
    decreases |comps|
  {
    if comps == [] then cur else Walk(Step(cur, comps[0]), comps[1..])
  }

  /** `(base / sub).resolve()`: an absolute `sub` replaces the base. */
  function Resolve(base: Path, sub: string): Path {
    if |sub| > 0 && sub[0] == '/' then Walk([], Split(sub)) else Walk(base, Split(sub))
  }

  /** `base` is `p` itself or one of its ancestors (`p.parents`). */
  predicate Within(base: Path, p: Path) {
    |base| <= |p| && p[..|base|] == base
  }

  datatype HttpError = HttpError(status: int, detail: string)

  const InvalidPath := HttpError(400, "Invalid path.")

  /** `_safe_resolve`: the resolved target, or a 400 error when it lies outside the base. */
  function SafeResolve(base: Path, subpath: Option<string>): Result<Path, HttpError> {
    var target := Resolve(base, subpath.GetOr(""));
    if !(|base| < |target| && target[..|base|] == base) && target != base then Err(InvalidPath)
    else Ok(target)
  }

  /** The check accepts exactly the targets at or below the base, and rejects with a 400. */
  lemma SafeResolveSpec(base: Path, subpath: Option<string>)
    ensures SafeResolve(base, subpath).Ok? <==> Within(base, Resolve(base, subpath.GetOr("")))
    ensures SafeResolve(base, subpath).Ok? ==> SafeResolve(base, subpath).value == Resolve(base, subpath.GetOr(""))
    ensures SafeResolve(base, subpath).Err? ==> SafeResolve(base, subpath).error == HttpError(400, "Invalid path.")
  {
    var target := Resolve(base, subpath.GetOr(""));
    if |target| == |base| && target[..|base|] == base {
      assert target == target[..|base|];
    }
  }

  /** No subpath, or an empty one, resolves to the base itself. */
  lemma {:induction false} EmptySubpath(base: Path)
    ensures SafeResolve(base, None) == Ok(base)
    ensures SafeResolve(base, Some("")) == Ok(base)
  {
    assert Split("") == [""];
    assert Walk(base, [""]) == Walk(base, []) == base;
  }

  /** The components of `comps` that name an entry (neither empty nor `.`). */
  function Names(comps: seq<string>): seq<string>
    decreases |comps|
  {
    if comps == [] then []
    else (if comps[0] == "" || comps[0] == "." then [] else [comps[0]]) + Names(comps[1..])
  }

  lemma {:induction false} WalkForward(cur: Path, comps: seq<string>)
    requires forall k :: 0 <= k < |comps| ==> comps[k] != ".."
    ensures Walk(cur, comps) == cur + Names(comps)
    decreases |comps|
  {
    if comps != [] {
      var c, rest := comps[0], comps[1..];
      WalkForward(Step(cur, c), rest);
      assert Names(comps) == (if c == "" || c == "." then [] else [c]) + Names(rest);
      if c == "" || c == "." {
        assert Names(comps) == Names(rest);
      } else {
        assert Step(cur, c) + Names(rest) == cur + ([c] + Names(rest));
      }
    }
  }

  /** A relative subpath without `..` stays below the base: the check accepts it. */
  lemma ForwardSubpathAccepted(base: Path, sub: string)
    requires |sub| == 0 || sub[0] != '/'
    requires forall k :: 0 <= k < |Split(sub)| ==> Split(sub)[k] != ".."
    ensures SafeResolve(base, Some(sub)) == Ok(base + Names(Split(sub)))
  {
    WalkForward(base, Split(sub));
    SafeResolveSpec(base, Some(sub));
    assert (base + Names(Split(sub)))[..|base|] == base;
  }

  /** Going up from the base leaves it: `..` is rejected. */
  lemma ParentRejected(base: Path)
    requires base != []
    ensures SafeResolve(base, Some("..")) == Err(HttpError(400, "Invalid path."))
  {
    assert Span("..", 0, NotSlash) == 2;
    assert Split("..") == [".."];
    assert Walk(base, [".."]) == Walk(base[..|base| - 1], []);
  }

  lemma {:induction false} SplitNoSlash(s: string)
    ensures forall k :: 0 <= k < |Split(s)| ==> '/' !in Split(s)[k]
    decreases |s|
  {
    var n := Span(s, 0, NotSlash);
    SpanIsMaximalRun(s, 0, NotSlash);
    if n < |s| {
      SplitNoSlash(s[n + 1..]);
      var rest := Split(s[n + 1..]);
      forall k | 0 <= k < |Split(s)| ensures '/' !in Split(s)[k] {
        if k > 0 {
          assert Split(s)[k] == rest[k - 1];
        }
      }
    }
  }

  lemma {:induction false} WalkNormal(cur: Path, comps: seq<string>)
    requires Normal(cur)
    requires forall k :: 0 <= k < |comps| ==> '/' !in comps[k]
    ensures Normal(Walk(cur, comps))
    decreases |comps|
  {
    if comps != [] {
      WalkNormal(Step(cur, comps[0]), comps[1..]);
    }
  }

  /** Whatever the subpath, an accepted target is a resolved path below the base. */
  lemma AcceptedIsNormal(base: Path, subpath: Option<string>)
    requires Normal(base)
    requires SafeResolve(base, subpath).Ok?
    ensures Normal(SafeResolve(base, subpath).value)
    ensures Within(base, SafeResolve(base, subpath).value)
  {
    var sub := subpath.GetOr("");
    SplitNoSlash(sub);
    assert Normal([]);
    WalkNormal([], Split(sub));
    WalkNormal(base, Split(sub));
    SafeResolveSpec(base, subpath);
  }

  // ---------------------------------------------------------------- listing

  /**
   * A directory entry as the listing reports it. `modified` stands for the modification time;
   * the router compares its ISO-8601 text, whose order is the order of the times.
   */
  datatype Entry = Entry(name: string, isDir: bool, modified: int)

  datatype Listing = Listing(root: Path, dir: Option<Path>, items: seq<Entry>)

  /** An entry survives the filter: not a directory unless asked for, and matching the pattern. */
  predicate Kept(e: Entry, includeDirs: bool, pattern: Option<string>) {
    (!e.isDir || includeDirs)
    && (pattern == None || pattern.value == "" || Contains(LowerStr(e.name), LowerStr(pattern.value)))
  }

  /** The surviving entries in directory order. */
  function Listed(entries: seq<Entry>, includeDirs: bool, pattern: Option<string>): seq<Entry>
    decreases |entries|
  {
    if entries == [] then []
    else
      var init := entries[..|entries| - 1];
      var e := entries[|entries| - 1];
      Listed(init, includeDirs, pattern) + (if Kept(e, includeDirs, pattern) then [e] else [])
  }

  /** The sort key `(not is_dir, modified)`. */
  function ItemKey(e: Entry): Key {
    Key(if e.isDir then 0 else 1, e.modified)
  }

  /** The listed items, sorted by descending key. */
  function Items(entries: seq<Entry>, includeDirs: bool, pattern: Option<string>): seq<Entry> {
    SortDesc(Listed(entries, includeDirs, pattern), ItemKey)
  }

  /**
   * `list_saved`: `targetExists` is whether the target exists and `entries` is its directory
   * listing, both read from the file system.
   */
  method ListSaved(base: Path, subdir: Option<string>, pattern: Option<string>, includeDirs: bool,
                   targetExists: bool, entries: seq<Entry>)
    returns (r: Result<Listing, HttpError>)
    ensures SafeResolve(base, subdir).Err? ==> r == Err(SafeResolve(base, subdir).error)
    ensures SafeResolve(base, subdir).Ok? && !targetExists ==> r == Ok(Listing(base, None, []))
    ensures SafeResolve(base, subdir).Ok? && targetExists ==>
      r == Ok(Listing(base, Some(SafeResolve(base, subdir).value), Items(entries, includeDirs, pattern)))
  {
    var target := SafeResolve(base, subdir);
    if target.Err? {
      return Err(target.error);
    }
    if !targetExists {
      return Ok(Listing(base, None, []));
    }
    var items: seq<Entry> := [];
    for i := 0 to |entries|
      invariant items == Listed(entries[..i], includeDirs, pattern)
    {
      var entry := entries[i];
      assert entries[..i + 1][..i] == entries[..i];
      if entry.isDir && !includeDirs {
        continue;
      }
      if pattern.Some? && pattern.value != "" && !Contains(LowerStr(entry.name), LowerStr(pattern.value)) {
        continue;
      }
      items := items + [entry];
    }
    assert entries[..|entries|] == entries;
    items := SortDesc(items, ItemKey);
    r := Ok(Listing(base, Some(target.value), items));
  }

  /** An entry is listed iff it is in the directory and passes both filters. */
  lemma {:induction false} ListedMembers(entries: seq<Entry>, includeDirs: bool, pattern: Option<string>, x: Entry)
    ensures x in Listed(entries, includeDirs, pattern) <==> x in entries && Kept(x, includeDirs, pattern)
    decreases |entries|
  {
    if entries != [] {
      var init := entries[..|entries| - 1];
      ListedMembers(init, includeDirs, pattern, x);
      assert entries == init + [entries[|entries| - 1]];
    }
  }

  /** The listing holds exactly the kept entries, each as often as the directory does. */
  lemma ItemsContents(entries: seq<Entry>, includeDirs: bool, pattern: Option<string>, x: Entry)
    ensures multiset(Items(entries, includeDirs, pattern)) == multiset(Listed(entries, includeDirs, pattern))
    ensures x in Items(entries, includeDirs, pattern) <==> x in entries && Kept(x, includeDirs, pattern)
  {
    SortDescPermutes(Listed(entries, includeDirs, pattern), ItemKey);
    ListedMembers(entries, includeDirs, pattern, x);
    assert x in Items(entries, includeDirs, pattern)
      <==> x in multiset(Items(entries, includeDirs, pattern));
  }

  /**
   * Files come before directories, each kind newest first, and entries with equal kind and
   * time keep their directory order.
   */
  lemma ItemsOrder(entries: seq<Entry>, includeDirs: bool, pattern: Option<string>)
    ensures forall i, j :: 0 <= i < j < |Items(entries, includeDirs, pattern)| ==>
      var a, b := Items(entries, includeDirs, pattern)[i], Items(entries, includeDirs, pattern)[j];
      (a.isDir ==> b.isDir) && (a.isDir == b.isDir ==> a.modified >= b.modified)
    ensures forall k :: WithKey(Items(entries, includeDirs, pattern), ItemKey, k)
                     == WithKey(Listed(entries, includeDirs, pattern), ItemKey, k)
  {
    var items := Items(entries, includeDirs, pattern);
    SortDescSorted(Listed(entries, includeDirs, pattern), ItemKey);
    forall i, j | 0 <= i < j < |items|
      ensures var a, b := items[i], items[j];
              (a.isDir ==> b.isDir) && (a.isDir == b.isDir ==> a.modified >= b.modified)
    {
      assert !Above(ItemKey(items[j]), ItemKey(items[i]));
    }
    forall k ensures WithKey(items, ItemKey, k) == WithKey(Listed(entries, includeDirs, pattern), ItemKey, k) {
      SortDescStable(Listed(entries, includeDirs, pattern), ItemKey, k);
    }
  }

  /** Directories are listed only on request. */
  lemma DirectoriesOnRequest(entries: seq<Entry>, pattern: Option<string>, x: Entry)
    requires x.isDir
    ensures x !in Items(entries, false, pattern)
  {
    ItemsContents(entries, false, pattern, x);
  }

  // ---------------------------------------------------------------- sizes and downloads

  /** `_fmt_size` where it does not use floating point: `None` stands for the scaled form. */
  function FmtSize(bytes: int): Option<string> {
    if bytes <= 0 then Some("0 B") else None
  }

  /** The `Content-Disposition` header of a download. */
  function ContentDisposition(name: string): string {
    "attachment; filename=\"" + name + "\""
  }

  /** `target.name`: the last component, or "" for the root. */
  function BaseName(p: Path): string {
    if p == [] then "" else p[|p| - 1]
  }
}
