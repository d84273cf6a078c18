/** The registry generator: from the project's file list and the configuration
    to one component document per item and a manifest listing them all. The
    directory walk and the writing of JSON files are I/O and stay outside. */
module GenRegistry {
  import opened Common
  import opened RegistryConfig

  datatype FileEntry = FileEntry(fileType: string, path: string, target: string, content: string)

  datatype ComponentDoc = ComponentDoc(
    name: string,
    docType: string,
    dependencies: seq<string>,
    registryDependencies: seq<string>,
    files: seq<FileEntry>)

  /** A configured item with the short name `main` derives from its file name. */
  datatype Component<P> = Component(item: Item<P>, shortName: string)

  datatype ManifestEntry = ManifestEntry(name: string, item: string, file: string, entryType: string)

  // ---------------------------------------------------------------------------
  // Selecting files

  /** `patterns.some(pattern => pattern.test(path))`. */
  predicate MatchesAny<P>(patterns: seq<P>, path: string, test: (P, string) -> bool)
  {
    exists k :: 0 <= k < |patterns| && test(patterns[k], path)
  }

  /** A file is kept when some include pattern matches it and no exclude pattern does. */
  predicate Kept<P>(item: Item<P>, path: string, test: (P, string) -> bool)
  {
    MatchesAny(item.includes, path, test) && !MatchesAny(item.excludes, path, test)
  }

  predicate NoDuplicates<T(==)>(s: seq<T>)
  {
    forall i, j :: 0 <= i < j < |s| ==> s[i] != s[j]
  }

  /** The include/exclude pass of `buildComponentJSON`: `matchedFiles` is a JS
      `Set`, kept here as a duplicate-free sequence in insertion order. */
  method CollectMatches<P>(allFiles: seq<string>, item: Item<P>, test: (P, string) -> bool)
    returns (matched: seq<string>)
    ensures NoDuplicates(matched)
    ensures forall p :: p in matched <==> p in allFiles && Kept(item, p, test)
  {
    matched := [];
    var i := 0;
    while i < |allFiles|
      invariant 0 <= i <= |allFiles|
      invariant NoDuplicates(matched)
      invariant forall p :: p in matched <==> p in allFiles[..i] && Kept(item, p, test)
    {
      var file := allFiles[i];
      assert allFiles[..i + 1] == allFiles[..i] + [file];
      var isIncluded := MatchesAny(item.includes, file, test);
      if isIncluded {
        var isExcluded := MatchesAny(item.excludes, file, test);
        if !isExcluded && file !in matched {
          matched := matched + [file];
        }
      }
      i := i + 1;
    }
    assert allFiles[..i] == allFiles;
  }

  // ---------------------------------------------------------------------------
  // Sorting: `Array.prototype.sort` without a comparator orders strings by code units

  predicate CodeUnitLess(a: string, b: string)
  {
    if |a| == 0 then |b| > 0
    else if |b| == 0 then false
    else if a[0] != b[0] then a[0] < b[0]
    else CodeUnitLess(a[1..], b[1..])
  }

  lemma {:induction false} CodeUnitLessIrreflexive(a: string)
    ensures !CodeUnitLess(a, a)
  {
    if |a| > 0 {
      CodeUnitLessIrreflexive(a[1..]);
    }
  }

  lemma {:induction false} CodeUnitLessTransitive(a: string, b: string, c: string)
    requires CodeUnitLess(a, b) && CodeUnitLess(b, c)
    ensures CodeUnitLess(a, c)
  {
    if |a| > 0 && |b| > 0 && |c| > 0 && a[0] == b[0] && b[0] == c[0] {
      CodeUnitLessTransitive(a[1..], b[1..], c[1..]);
    }
  }

  /** Two different strings are ordered one way or the other. */
  lemma {:induction false} CodeUnitLessTotal(a: string, b: string)
    requires a != b
    ensures CodeUnitLess(a, b) || CodeUnitLess(b, a)
  {
    if |a| > 0 && |b| > 0 && a[0] == b[0] {
      assert a == [a[0]] + a[1..] && b == [b[0]] + b[1..];
      CodeUnitLessTotal(a[1..], b[1..]);
    }
  }

  predicate StrictlySorted(s: seq<string>)
  {
    forall i, j :: 0 <= i < j < |s| ==> CodeUnitLess(s[i], s[j])
  }

  function Insert(x: string, s: seq<string>): seq<string>
  {
    if s == [] then [x]
    else if CodeUnitLess(x, s[0]) then [x] + s
    else [s[0]] + Insert(x, s[1..])
  }

  /** `[...matchedFiles].sort()`. */
  function SortPaths(s: seq<string>): seq<string>
  {
    if s == [] then [] else Insert(s[0], SortPaths(s[1..]))
  }

  /** Inserting adds exactly one copy of `x`. */
  lemma {:induction false} InsertElements(x: string, s: seq<string>)
    ensures multiset(Insert(x, s)) == multiset(s) + multiset{x}
  {
    if s != [] && !CodeUnitLess(x, s[0]) {
      var tail := s[1..];
      assert s == [s[0]] + tail;
      InsertElements(x, tail);
      assert Insert(x, s) == [s[0]] + Insert(x, tail);
    }
  }

  lemma {:induction false} InsertSorted(x: string, s: seq<string>)
    requires StrictlySorted(s) && x !in s
    ensures multiset(Insert(x, s)) == multiset(s) + multiset{x}
    ensures StrictlySorted(Insert(x, s))
  {
    InsertElements(x, s);
    if s == [] {
    } else if CodeUnitLess(x, s[0]) {
      forall y | y in s ensures CodeUnitLess(x, y) {
        if y != s[0] {
          CodeUnitLessTransitive(x, s[0], y);
        }
      }
      ConsSorted(x, s);
    } else {
      CodeUnitLessTotal(x, s[0]);
      var tail := s[1..];
      assert s == [s[0]] + tail;
      InsertSorted(x, tail);
      var t := Insert(x, tail);
      forall y | y in t ensures CodeUnitLess(s[0], y) {
        assert y in multiset(t);
      }
      ConsSorted(s[0], t);
    }
  }

  /** Putting a string before a sorted list of larger strings keeps it sorted. */
  lemma ConsSorted(h: string, t: seq<string>)
    requires StrictlySorted(t) && forall y :: y in t ==> CodeUnitLess(h, y)
    ensures StrictlySorted([h] + t)
  {
    var r := [h] + t;
    forall i, j | 0 <= i < j < |r| ensures CodeUnitLess(r[i], r[j]) {
      assert r[j] == t[j - 1];
      if i > 0 {
        assert r[i] == t[i - 1];
      }
    }
  }

  /** Sorting a duplicate-free list gives a strictly ascending permutation of it. */
  lemma {:induction false} SortPathsCorrect(s: seq<string>)
    requires NoDuplicates(s)
    ensures multiset(SortPaths(s)) == multiset(s)
    ensures StrictlySorted(SortPaths(s))
  {
    if s != [] {
      var tail := s[1..];
      assert s == [s[0]] + tail;
      assert NoDuplicates(tail) by {
        forall i, j | 0 <= i < j < |tail| ensures tail[i] != tail[j] {
          assert tail[i] == s[i + 1] && tail[j] == s[j + 1];
        }
      }
      SortPathsCorrect(tail);
      assert s[0] !in tail by {
        forall k | 0 <= k < |tail| ensures tail[k] != s[0] {
          assert tail[k] == s[k + 1];
        }
      }
      assert s[0] !in multiset(SortPaths(tail));
      InsertSorted(s[0], SortPaths(tail));
    }
  }

  /** A strictly ascending list is determined by its elements. */
  lemma {:induction false} SortedUnique(a: seq<string>, b: seq<string>)
    requires StrictlySorted(a) && StrictlySorted(b)
    requires forall x :: x in a <==> x in b
    ensures a == b
  {
    if a != [] {
      assert a[0] in b;
    }
    if b != [] {
      assert b[0] in a;
    }
    if a != [] && b != [] {
      assert a[0] == b[0] by {
        assert a[0] in b && b[0] in a;
        var k :| 0 <= k < |b| && b[k] == a[0];
        var m :| 0 <= m < |a| && a[m] == b[0];
        if k != 0 && m != 0 {
          CodeUnitLessTransitive(a[0], b[0], a[0]);
          CodeUnitLessIrreflexive(a[0]);
        }
      }
      forall x ensures x in a[1..] <==> x in b[1..] {
        CodeUnitLessIrreflexive(x);
        if x in a[1..] {
          var k :| 1 <= k < |a| && a[k] == x;
          assert x != a[0] && x in b;
        }
        if x in b[1..] {
          var k :| 1 <= k < |b| && b[k] == x;
          assert x != b[0] && x in a;
        }
      }
      SortedUnique(a[1..], b[1..]);
      assert a == [a[0]] + a[1..] && b == [b[0]] + b[1..];
    }
  }

  // ---------------------------------------------------------------------------
  // File entries

  /** The type tag, decided in order: a `.tsx` under `/components/`, then
      anything under `/hooks/`, then a `.md`, and `registry:lib` otherwise. */
  function FileType(sourcePath: string): string
  {
    if EndsWith(sourcePath, ".tsx") && Contains(sourcePath, "/components/") then "registry:ui"
    else if Contains(sourcePath, "/hooks/") then "registry:hook"
    else if EndsWith(sourcePath, ".md") then "registry:doc"
    else "registry:lib"
  }

  function ToFileEntry(sourcePath: string): FileEntry
  {
    FileEntry(FileType(sourcePath), sourcePath, PathRewriter(sourcePath), "")
  }

  function Paths(files: seq<FileEntry>): (r: seq<string>)
    ensures |r| == |files| && forall k :: 0 <= k < |files| ==> r[k] == files[k].path
  {
    seq(|files|, k requires 0 <= k < |files| => files[k].path)
  }

  /** The only slashes in `components/<dir>/<file>.tsx`, with slash-free `dir`
      and `file`, sit right after `components` and right after `dir`. */
  lemma SlashPositions(dir: string, file: string, j: nat)
    requires '/' !in dir && '/' !in file
    requires j < |"components/" + dir + "/" + file + ".tsx"| && j != 10 && j != 11 + |dir|
    ensures ("components/" + dir + "/" + file + ".tsx")[j] != '/'
  {
    var p := "components/" + dir + "/" + file + ".tsx";
    var slash := 11 + |dir|;
    if j < 10 {
      assert p[j] == "components"[j];
    } else if 10 < j < slash {
      assert p[j] == dir[j - 11];
    } else if slash < j < slash + 1 + |file| {
      assert p[j] == file[j - slash - 1];
    } else if j > slash {
      assert p[j] == ".tsx"[j - slash - 1 - |file|];
    }
  }

  /** In `components/<dir>/<file>.tsx` with slash-free `dir` and `file`, a
      segment `/<seg>/` can only occur right after `components`, with `seg`
      equal to `dir`. */
  lemma SegmentOccurrence(dir: string, file: string, seg: string, i: nat)
    requires '/' !in dir && '/' !in file && '/' !in seg
    ensures OccursAt("components/" + dir + "/" + file + ".tsx", "/" + seg + "/", i) ==> i == 10 && dir == seg
  {
    var p := "components/" + dir + "/" + file + ".tsx";
    var pat := "/" + seg + "/";
    var slash := 11 + |dir|;
    if OccursAt(p, pat, i) {
      var e := i + |pat| - 1;
      assert p[i] == pat[0] == '/';
      assert p[e] == pat[|pat| - 1] == '/';
      if i != 10 && i != slash {
        SlashPositions(dir, file, i);
      }
      if e != 10 && e != slash {
        SlashPositions(dir, file, e);
      }
      assert i < e && 10 < slash;
      forall j | i < j < e ensures p[j] == pat[j - i] {
      }
      assert p[11..slash] == dir;
      assert p[i + 1..e] == pat[1..|pat| - 1] == seg;
    }
  }

  /** Paths listed relative to the project root start with their top directory
      and carry no leading `/`. A `.tsx` file directly inside a component folder,
      `components/<dir>/<file>.tsx`, therefore contains `/components/` or
      `/hooks/` only when the folder itself is named `components` or `hooks`;
      in every other folder it is tagged `registry:lib`, not `registry:ui`. */
  lemma ComponentSourcesAreLib(dir: string, file: string)
    requires '/' !in dir && '/' !in file
    requires dir != "components" && dir != "hooks"
    ensures FileType("components/" + dir + "/" + file + ".tsx") == "registry:lib"
  {
    var p := "components/" + dir + "/" + file + ".tsx";
    SegmentAbsent(dir, file, "components");
    assert "/" + "components" + "/" == "/components/";
    SegmentAbsent(dir, file, "hooks");
    assert "/" + "hooks" + "/" == "/hooks/";
    assert !EndsWith(p, ".md") by {
      assert p[|p| - 1] == 'x';
    }
  }

  /** A component source contains `/<seg>/` only when its folder is `seg`. */
  lemma SegmentAbsent(dir: string, file: string, seg: string)
    requires '/' !in dir && '/' !in file && '/' !in seg && dir != seg
    ensures !Contains("components/" + dir + "/" + file + ".tsx", "/" + seg + "/")
  {
    forall i: nat | i <= |"components/" + dir + "/" + file + ".tsx"|
      ensures !OccursAt("components/" + dir + "/" + file + ".tsx", "/" + seg + "/", i)
    {
      SegmentOccurrence(dir, file, seg, i);
    }
  }

  // ---------------------------------------------------------------------------
  // Dependencies: `{...defaults.dependencies, ...item.dependencies}`

  /** Spreading `src` into `obj`, entry by entry. */
  function SpreadInto(obj: Entries, src: Entries): Entries
    decreases |src|
  {
    if src == [] then obj else SpreadInto(Assign(obj, src[0].0, src[0].1), src[1..])
  }

  function MergeDependencies(defaults: Entries, own: Entries): Entries
  {
    SpreadInto(SpreadInto([], defaults), own)
  }

  lemma {:induction false} SpreadIntoSpec(obj: Entries, src: Entries)
    requires DistinctKeys(obj)
    ensures var r := SpreadInto(obj, src);
      && DistinctKeys(r)
      && Keys(obj) <= Keys(r)
      && (forall x :: x in Keys(r) <==> x in Keys(obj) || x in Keys(src))
      && (forall x :: x in Keys(src) ==> ValueOf(r, x) == ValueOf(src, x))
      && (forall x :: x !in Keys(src) ==> ValueOf(r, x) == ValueOf(obj, x))
  {
    SpreadIntoKeys(obj, src);
    SpreadIntoValues(obj, src);
  }

  /** The key half of `SpreadIntoSpec`. */
  lemma SpreadIntoKeys(obj: Entries, src: Entries)
    requires DistinctKeys(obj)
    ensures var r := SpreadInto(obj, src);
      && DistinctKeys(r)
      && Keys(obj) <= Keys(r)
      && (forall x :: x in Keys(r) <==> x in Keys(obj) || x in Keys(src))
  {
    SpreadIntoDistinct(obj, src);
    SpreadIntoPrefix(obj, src);
    SpreadIntoMembers(obj, src);
  }

  /** Spreading keeps the keys distinct. */
  lemma {:induction false} SpreadIntoDistinct(obj: Entries, src: Entries)
    requires DistinctKeys(obj)
    ensures DistinctKeys(SpreadInto(obj, src))
    decreases |src|
  {
    if src != [] {
      AssignKeys(obj, src[0].0, src[0].1);
      SpreadIntoDistinct(Assign(obj, src[0].0, src[0].1), src[1..]);
    }
  }

  /** Spreading keeps the old keys first, in their order. */
  lemma {:induction false} SpreadIntoPrefix(obj: Entries, src: Entries)
    requires DistinctKeys(obj)
    ensures Keys(obj) <= Keys(SpreadInto(obj, src))
    decreases |src|
  {
    if src != [] {
      var mid := Assign(obj, src[0].0, src[0].1);
      AssignKeys(obj, src[0].0, src[0].1);
      SpreadIntoPrefix(mid, src[1..]);
      var r := SpreadInto(mid, src[1..]);
      assert Keys(obj) == Keys(mid)[..|Keys(obj)|];
      assert Keys(mid) == Keys(r)[..|Keys(mid)|];
      assert Keys(obj) == Keys(r)[..|Keys(obj)|];
    }
  }

  /** After spreading, the keys are the old keys and the spread keys. */
  lemma {:induction false} SpreadIntoMembers(obj: Entries, src: Entries)
    requires DistinctKeys(obj)
    ensures forall x :: x in Keys(SpreadInto(obj, src)) <==> x in Keys(obj) || x in Keys(src)
    decreases |src|
  {
    if src != [] {
      var mid := Assign(obj, src[0].0, src[0].1);
      AssignKeys(obj, src[0].0, src[0].1);
      SpreadIntoMembers(mid, src[1..]);
      assert Keys(src) == [src[0].0] + Keys(src[1..]);
    }
  }

  /** The value half of `SpreadIntoSpec`. */
  lemma SpreadIntoValues(obj: Entries, src: Entries)
    requires DistinctKeys(obj)
    ensures var r := SpreadInto(obj, src);
      && (forall x :: x in Keys(src) ==> ValueOf(r, x) == ValueOf(src, x))
      && (forall x :: x !in Keys(src) ==> ValueOf(r, x) == ValueOf(obj, x))
  {
    SpreadIntoSpreadValues(obj, src);
    SpreadIntoKeptValues(obj, src);
  }

  /** A key the spread map does not have keeps its value. */
  lemma {:induction false} SpreadIntoKeptValues(obj: Entries, src: Entries)
    requires DistinctKeys(obj)
    ensures forall x :: x !in Keys(src) ==> ValueOf(SpreadInto(obj, src), x) == ValueOf(obj, x)
    decreases |src|
  {
    if src != [] {
      var key, value := src[0].0, src[0].1;
      var mid := Assign(obj, key, value);
      AssignKeys(obj, key, value);
      AssignValues(obj, key, value);
      SpreadIntoKeptValues(mid, src[1..]);
      assert Keys(src) == [key] + Keys(src[1..]);
    }
  }

  /** A key the spread map has takes the spread map's value. */
  lemma {:induction false} SpreadIntoSpreadValues(obj: Entries, src: Entries)
    requires DistinctKeys(obj)
    ensures forall x :: x in Keys(src) ==> ValueOf(SpreadInto(obj, src), x) == ValueOf(src, x)
    decreases |src|
  {
    if src != [] {
      var key, value := src[0].0, src[0].1;
      var mid := Assign(obj, key, value);
      var rest := src[1..];
      AssignKeys(obj, key, value);
      AssignValues(obj, key, value);
      SpreadIntoSpreadValues(mid, rest);
      SpreadIntoKeptValues(mid, rest);
      assert Keys(src) == [key] + Keys(rest);
      forall x | x in Keys(src) ensures ValueOf(SpreadInto(obj, src), x) == ValueOf(src, x) {
        ValueOfLastWins(src, x);
      }
    }
  }

  /** In a list of entries, the value of a key is decided by its last entry:
      the rest of the list when it has the key, else the first entry. */
  lemma {:induction false} ValueOfLastWins(src: Entries, x: string)
    requires src != []
    ensures x in Keys(src[1..]) ==> ValueOf(src, x) == ValueOf(src[1..], x)
    ensures x !in Keys(src[1..]) && src[0].0 == x ==> ValueOf(src, x) == Some(src[0].1)
    ensures x !in Keys(src[1..]) && src[0].0 != x ==> ValueOf(src, x) == None
    decreases |src|
  {
    if |src| > 1 {
      var init := src[..|src| - 1];
      assert init[1..] == src[1..|src| - 1];
      assert Keys(src[1..]) == Keys(init[1..]) + [src[|src| - 1].0];
      if src[|src| - 1].0 != x {
        ValueOfLastWins(init, x);
        assert src[1..][..|src[1..]| - 1] == init[1..];
      }
    }
  }

  /** The merged map has every default key and every per-item key, no key twice,
      the defaults' keys first and in their order, and on a collision the
      per-item version wins. */
  lemma MergeDependenciesSpec(defaults: Entries, own: Entries)
    ensures DistinctKeys(MergeDependencies(defaults, own))
    ensures forall x :: x in Keys(MergeDependencies(defaults, own)) <==> x in Keys(defaults) || x in Keys(own)
    ensures forall x :: x in Keys(own) ==> ValueOf(MergeDependencies(defaults, own), x) == ValueOf(own, x)
    ensures forall x :: x !in Keys(own) ==> ValueOf(MergeDependencies(defaults, own), x) == ValueOf(defaults, x)
    ensures DistinctKeys(defaults) ==> Keys(defaults) <= Keys(MergeDependencies(defaults, own))
  {
    var d := SpreadInto([], defaults);
    SpreadIntoSpec([], defaults);
    assert Keys([]) == [];
    forall x ensures ValueOf(d, x) == ValueOf(defaults, x) {
      if x !in Keys(defaults) {
        ValueOfAbsent(defaults, x);
      }
    }
    SpreadIntoSpec(d, own);
    if DistinctKeys(defaults) {
      SpreadDistinctIsCopy([], defaults);
      assert [] + defaults == defaults;
    }
  }

  /** Spreading entries with distinct keys none of which the target has appends them as they are. */
  lemma {:induction false} SpreadDistinctIsCopy(obj: Entries, src: Entries)
    requires DistinctKeys(obj + src)
    ensures SpreadInto(obj, src) == obj + src
    decreases |src|
  {
    if src != [] {
      var key := src[0].0;
      assert KeyIndex(obj, key) == None by {
        forall k | 0 <= k < |obj| ensures obj[k].0 != key {
          assert (obj + src)[k] == obj[k] && (obj + src)[|obj|] == src[0];
        }
      }
      assert Assign(obj, key, src[0].1) == obj + [src[0]];
      assert obj + src == (obj + [src[0]]) + src[1..];
      SpreadDistinctIsCopy(obj + [src[0]], src[1..]);
    }
  }

  /** `Object.entries(dependencies).map(([name, version]) => `${name}@${version}`)`. */
  function DependencyStrings(e: Entries): (r: seq<string>)
    ensures |r| == |e|
    ensures forall k :: 0 <= k < |e| ==> r[k] == e[k].0 + "@" + e[k].1
  {
    seq(|e|, k requires 0 <= k < |e| => e[k].0 + "@" + e[k].1)
  }

  // ---------------------------------------------------------------------------
  // The integrity check's parse of `name@version`: /^(@?[^@]+)@(.+)$/

  predicate IsLineTerminator(c: char)
  {
    c == '\n' || c == '\r' || c == '\U{2028}' || c == '\U{2029}'
  }

  /** `name` matches `@?[^@]+`. */
  predicate ValidPackageName(name: string)
  {
    |name| >= 1 &&
    if name[0] == '@' then |name| >= 2 && '@' !in name[1..] else '@' !in name
  }

  /** `version` matches `.+`. */
  predicate ValidVersion(version: string)
  {
    |version| >= 1 && forall k :: 0 <= k < |version| ==> !IsLineTerminator(version[k])
  }

  function ParseDependency(s: string): Option<(string, string)>
  {
    var off := if |s| > 0 && s[0] == '@' then 1 else 0;
    match IndexOf(s[off..], "@")
    case None => None
    case Some(j) =>
      if j == 0 then None
      else
        var name := s[..off + j];
        var version := s[off + j + 1..];
        if ValidVersion(version) then Some((name, version)) else None
  }

  /** A dependency string built from a well-formed name and version parses back to them. */
  lemma DependencyRoundTrip(name: string, version: string)
    requires ValidPackageName(name) && ValidVersion(version)
    ensures ParseDependency(name + "@" + version) == Some((name, version))
  {
    var s := name + "@" + version;
    var off := if name[0] == '@' then 1 else 0;
    var x := s[off..];
    var j := |name| - off;
    assert x[j] == '@';
    assert x[..j] == name[off..];
    FirstCharAt(x, '@', j);
    assert s[..off + j] == name;
    assert s[off + j + 1..] == version;
  }

  /** Every rendered dependency of well-formed entries parses back to its entry. */
  lemma DependencyStringsParse(e: Entries)
    requires forall k :: 0 <= k < |e| ==> ValidPackageName(e[k].0) && ValidVersion(e[k].1)
    ensures forall k :: 0 <= k < |e| ==> ParseDependency(DependencyStrings(e)[k]) == Some(e[k])
  {
    forall k | 0 <= k < |e| ensures ParseDependency(DependencyStrings(e)[k]) == Some(e[k]) {
      DependencyRoundTrip(e[k].0, e[k].1);
    }
  }

  /** Whatever parses is a well-formed name, an `@` and a well-formed version. */
  lemma DependencyParseSound(s: string)
    requires ParseDependency(s).Some?
    ensures var (name, version) := ParseDependency(s).value;
      s == name + "@" + version && ValidPackageName(name) && ValidVersion(version)
  {
    var off := if |s| > 0 && s[0] == '@' then 1 else 0;
    var j := IndexOf(s[off..], "@").value;
    var name := s[..off + j];
    assert s[off..][j] == '@';
    assert s == name + "@" + s[off + j + 1..];
    forall i | off <= i < |name| ensures name[i] != '@' {
      assert !OccursAt(s[off..], "@", i - off);
      assert s[off..][i - off..i - off + 1] == [name[i]];
    }
    if name[0] == '@' {
      assert name[1..] == s[1..off + j];
    }
  }

  // ---------------------------------------------------------------------------
  // Registry dependencies

  /** `allComponents.find(c => c.shortName === shortName)`. */
  function FindByShortName<P>(comps: seq<Component<P>>, shortName: string): (r: Option<nat>)
    ensures r.Some? ==> r.value < |comps| && comps[r.value].shortName == shortName
    ensures r.Some? ==> forall k :: 0 <= k < r.value ==> comps[k].shortName != shortName
    ensures r.None? <==> forall k :: 0 <= k < |comps| ==> comps[k].shortName != shortName
  {
    if comps == [] then None
    else if comps[0].shortName == shortName then Some(0)
    else match FindByShortName(comps[1..], shortName)
      case None => None
      case Some(k) => Some(k + 1)
  }

  function ResolveRegistryDependency<P>(baseUrl: string, comps: seq<Component<P>>, shortName: string): string
  {
    match FindByShortName(comps, shortName)
    case Some(k) => baseUrl + "/r/" + ReplaceFirst(comps[k].item.fileName, ".json", "")
    case None => shortName
  }

  function ResolveRegistryDependencies<P>(baseUrl: string, comps: seq<Component<P>>, deps: seq<string>): seq<string>
  {
    seq(|deps|, k requires 0 <= k < |deps| => ResolveRegistryDependency(baseUrl, comps, deps[k]))
  }

  /** The list keeps its length and order; an entry naming a component becomes
      that component's URL, any other entry is passed through. */
  lemma ResolveRegistryDependenciesSpec<P>(baseUrl: string, comps: seq<Component<P>>, deps: seq<string>)
    ensures var r := ResolveRegistryDependencies(baseUrl, comps, deps);
      && |r| == |deps|
      && forall k :: 0 <= k < |deps| ==>
           ((forall c :: 0 <= c < |comps| ==> comps[c].shortName != deps[k]) ==> r[k] == deps[k])
    ensures var r := ResolveRegistryDependencies(baseUrl, comps, deps);
      forall k, c :: 0 <= k < |deps| && 0 <= c < |comps| && comps[c].shortName == deps[k]
        && (forall b :: 0 <= b < c ==> comps[b].shortName != deps[k])
        ==> r[k] == baseUrl + "/r/" + ReplaceFirst(comps[c].item.fileName, ".json", "")
  {
    var r := ResolveRegistryDependencies(baseUrl, comps, deps);
    forall k, c | 0 <= k < |deps| && 0 <= c < |comps| && comps[c].shortName == deps[k]
        && (forall b :: 0 <= b < c ==> comps[b].shortName != deps[k])
      ensures r[k] == baseUrl + "/r/" + ReplaceFirst(comps[c].item.fileName, ".json", "")
    {
      var f := FindByShortName(comps, deps[k]);
      assert f.Some?;
      assert f.value == c;
    }
  }

  // ---------------------------------------------------------------------------
  // Component documents

  /** `fileName.replace(/\.json$/, "")`. */
  function ShortName(fileName: string): (r: string)
    ensures EndsWith(fileName, ".json") ==> r + ".json" == fileName
    ensures !EndsWith(fileName, ".json") ==> r == fileName
  {
    if EndsWith(fileName, ".json") then fileName[..|fileName| - 5] else fileName
  }

  function Components<P>(items: seq<Item<P>>): (r: seq<Component<P>>)
    ensures |r| == |items|
    ensures forall k :: 0 <= k < |items| ==> r[k].item == items[k] && r[k].shortName == ShortName(items[k].fileName)
  {
    seq(|items|, k requires 0 <= k < |items| => Component(items[k], ShortName(items[k].fileName)))
  }

  /** `componentConfig.type || "registry:ui"`. */
  function DocType<P>(item: Item<P>): string
  {
    if item.itemType != "" then item.itemType else "registry:ui"
  }

  /** What `buildComponentJSON` promises about the document it returns. */
  ghost predicate IsComponentDoc<P>(allFiles: seq<string>, comp: Component<P>, comps: seq<Component<P>>,
                                    cfg: Config<P>, test: (P, string) -> bool, doc: ComponentDoc)
  {
    && doc.name == comp.item.name
    && doc.docType == DocType(comp.item)
    && StrictlySorted(Paths(doc.files))
    && (forall p :: p in Paths(doc.files) <==> p in allFiles && Kept(comp.item, p, test))
    && (forall k :: 0 <= k < |doc.files| ==> doc.files[k] == ToFileEntry(doc.files[k].path))
    && doc.dependencies == DependencyStrings(MergeDependencies(cfg.defaults, comp.item.dependencies))
    && doc.registryDependencies == ResolveRegistryDependencies(cfg.baseUrl, comps, comp.item.registryDependencies)
  }

  /** `buildComponentJSON(allFiles, componentConfig, allComponents)`. */
  method BuildComponent<P>(allFiles: seq<string>, comp: Component<P>, comps: seq<Component<P>>,
                           cfg: Config<P>, test: (P, string) -> bool)
    returns (doc: ComponentDoc)
    ensures IsComponentDoc(allFiles, comp, comps, cfg, test, doc)
  {
    var matched := CollectMatches(allFiles, comp.item, test);
    var sorted := SortPaths(matched);
    SortPathsCorrect(matched);
    var files := seq(|sorted|, k requires 0 <= k < |sorted| => ToFileEntry(sorted[k]));
    assert Paths(files) == sorted;
    forall p ensures p in sorted <==> p in matched {
      assert p in sorted <==> p in multiset(sorted);
    }
    var dependencies := MergeDependencies(cfg.defaults, comp.item.dependencies);
    var registryDependencies := ResolveRegistryDependencies(cfg.baseUrl, comps, comp.item.registryDependencies);
    doc := ComponentDoc(comp.item.name, DocType(comp.item), DependencyStrings(dependencies),
                        registryDependencies, files);
  }

  /** The generator is deterministic: the document is fully decided by its
      inputs, so re-running on an unchanged tree gives the same output. */
  lemma ComponentDocDetermined<P>(allFiles: seq<string>, comp: Component<P>, comps: seq<Component<P>>,
                                  cfg: Config<P>, test: (P, string) -> bool, d1: ComponentDoc, d2: ComponentDoc)
    requires IsComponentDoc(allFiles, comp, comps, cfg, test, d1)
    requires IsComponentDoc(allFiles, comp, comps, cfg, test, d2)
    ensures d1 == d2
  {
    SortedUnique(Paths(d1.files), Paths(d2.files));
    assert |d1.files| == |d2.files|;
    forall k | 0 <= k < |d1.files| ensures d1.files[k] == d2.files[k] {
      assert Paths(d1.files)[k] == Paths(d2.files)[k];
    }
  }

  // ---------------------------------------------------------------------------
  // The whole run

  /** The manifest: one entry per item, in configuration order. */
  function Manifest<P>(baseUrl: string, comps: seq<Component<P>>): seq<ManifestEntry>
  {
    seq(|comps|, k requires 0 <= k < |comps| =>
      ManifestEntry(comps[k].item.name, baseUrl + "/r/" + comps[k].shortName,
                    "r/" + comps[k].item.fileName, DocType(comps[k].item)))
  }

  /** `main` without the I/O: build every component, then the manifest. */
  method Generate<P>(allFiles: seq<string>, cfg: Config<P>, test: (P, string) -> bool)
    returns (docs: seq<ComponentDoc>, manifest: seq<ManifestEntry>)
    ensures |docs| == |cfg.items|
    ensures forall k :: 0 <= k < |docs| ==>
      IsComponentDoc(allFiles, Components(cfg.items)[k], Components(cfg.items), cfg, test, docs[k])
    ensures manifest == Manifest(cfg.baseUrl, Components(cfg.items))
  {
    var comps := Components(cfg.items);
    docs := [];
    var i := 0;
    while i < |comps|
      invariant 0 <= i <= |comps|
      invariant |docs| == i
      invariant forall k :: 0 <= k < i ==> IsComponentDoc(allFiles, comps[k], comps, cfg, test, docs[k])
    {
      var doc := BuildComponent(allFiles, comps[i], comps, cfg, test);
      ghost var before := docs;
      docs := docs + [doc];
      assert forall k :: 0 <= k < i ==> docs[k] == before[k];
      assert docs[i] == doc;
      i := i + 1;
    }
    manifest := Manifest(cfg.baseUrl, comps);
  }

  /** Every manifest entry's URL is `<baseUrl>/r/<short name>` (so it contains
      `/r/`), its type is the document's type, its file is `r/` + the item's
      file name, and stripping the first `r/` from it gives that file name back. */
  lemma ManifestEntriesSpec<P>(baseUrl: string, items: seq<Item<P>>)
    ensures var m := Manifest(baseUrl, Components(items));
      && |m| == |items|
      && forall k :: 0 <= k < |m| ==>
           && m[k].name == items[k].name
           && m[k].item == baseUrl + "/r/" + ShortName(items[k].fileName)
           && Contains(m[k].item, "/r/")
           && m[k].entryType == DocType(items[k])
           && m[k].file == "r/" + items[k].fileName
           && ReplaceFirst(m[k].file, "r/", "") == items[k].fileName
  {
    var comps := Components(items);
    var m := Manifest(baseUrl, comps);
    forall k | 0 <= k < |m|
      ensures Contains(m[k].item, "/r/")
      ensures ReplaceFirst(m[k].file, "r/", "") == items[k].fileName
    {
      assert OccursAt(m[k].item, "/r/", |baseUrl|);
      ReplaceLeading(m[k].file, "r/", "");
    }
  }

  // ---------------------------------------------------------------------------
  // The shipped configuration

  /** For the shipped items, the short name is the item name. */
  lemma ShippedShortNames()
    ensures forall k :: 0 <= k < |Items| ==> Components(Items)[k].shortName == Items[k].name
  {
    ItemFileNames();
    forall k | 0 <= k < |Items| ensures Components(Items)[k].shortName == Items[k].name {
      var f := Items[k].fileName;
      assert EndsWith(f, ".json");
      assert f[..|f| - 5] == Items[k].name;
    }
  }

  /** The shipped manifest entry of each item points at `<baseUrl>/r/<name>`
      and at the file `r/<name>.json`. */
  lemma ShippedManifest(env: Option<string>)
    ensures var m := Manifest(BaseUrl(env), Components(Items));
      && |m| == 12
      && forall k :: 0 <= k < 12 ==>
           m[k].item == BaseUrl(env) + "/r/" + Items[k].name
           && m[k].file == "r/" + Items[k].name + ".json"
           && m[k].entryType == "registry:ui"
  {
    ShippedShortNames();
    ItemFileNames();
  }

  /** No configured registry dependency (`button`, `dialog`, `badge`, `input`,
      `label`) names one of the shipped items, so all of them pass through as
      names for the external registry. */
  lemma ShippedRegistryDependenciesPassThrough(env: Option<string>, k: nat)
    requires k < |Items|
    ensures ResolveRegistryDependencies(BaseUrl(env), Components(Items), Items[k].registryDependencies)
         == Items[k].registryDependencies
  {
    ShippedShortNames();
    ItemRegistryDependencies();
    var comps := Components(Items);
    var deps := Items[k].registryDependencies;
    forall d | 0 <= d < |deps|
      ensures ResolveRegistryDependency(BaseUrl(env), comps, deps[d]) == deps[d]
    {
      assert deps[d] in ExternalRegistryNames;
      forall c | 0 <= c < |comps| ensures comps[c].shortName != deps[d] {
        assert comps[c].shortName == Items[c].name;
      }
    }
  }

  /** Merging maps whose keys are all distinct appends the item's map to the defaults. */
  lemma MergeDistinctAppends(defaults: Entries, own: Entries)
    requires DistinctKeys(defaults + own)
    ensures MergeDependencies(defaults, own) == defaults + own
  {
    assert DistinctKeys([] + defaults) by {
      assert [] + defaults == defaults == (defaults + own)[..|defaults|];
    }
    SpreadDistinctIsCopy([], defaults);
    assert [] + defaults == defaults;
    SpreadDistinctIsCopy(defaults, own);
  }

  /** The shipped default keys and the Radix dialog package are pairwise distinct. */
  lemma ShippedKeysDistinct()
    ensures DistinctKeys(DefaultDependencies + RadixDialog)
    ensures DistinctKeys(DefaultDependencies + [])
  {
    assert DefaultDependencies + [] == DefaultDependencies;
  }

  /** Each shipped dependency string parses back into its package and version. */
  lemma ShippedDependenciesParse(k: nat)
    requires k < |Items|
    ensures var e := MergeDependencies(DefaultDependencies, Items[k].dependencies);
      forall d :: 0 <= d < |e| ==> ParseDependency(DependencyStrings(e)[d]) == Some(e[d])
  {
    ItemDependencies();
    var own := Items[k].dependencies;
    ShippedKeysDistinct();
    MergeDistinctAppends(DefaultDependencies, own);
    var e := DefaultDependencies + own;
    forall d | 0 <= d < |e| ensures ParseDependency(DependencyStrings(e)[d]) == Some(e[d]) {
      assert e[d] in DefaultDependencies + RadixDialog;
      ShippedEntriesWellFormed();
      DependencyRoundTrip(e[d].0, e[d].1);
    }
  }

  lemma ShippedEntriesWellFormed()
    ensures forall e | e in DefaultDependencies + RadixDialog :: ValidPackageName(e.0) && ValidVersion(e.1)
  {
    forall i | 0 <= i < |DefaultDependencies|
      ensures ValidPackageName(DefaultDependencies[i].0) && ValidVersion(DefaultDependencies[i].1)
    {
      DefaultEntryWellFormed(i);
    }
    RadixEntryWellFormed();
  }

  lemma RadixEntryWellFormed()
    ensures ValidPackageName(RadixDialog[0].0) && ValidVersion(RadixDialog[0].1)
  {
    assert ValidPackageName("@radix-ui/react-dialog") && ValidVersion("1.1.4");
  }

  lemma DefaultEntryWellFormed(i: nat)
    requires i < |DefaultDependencies|
    ensures ValidPackageName(DefaultDependencies[i].0) && ValidVersion(DefaultDependencies[i].1)
  {
    if i == 0 {
      assert ValidPackageName("react") && ValidVersion("^19.0.0");
    } else if i == 1 {
      assert ValidPackageName("lucide-react") && ValidVersion("^0.454.0");
    } else if i == 2 {
      assert ValidPackageName("class-variance-authority") && ValidVersion("^0.7.1");
    } else if i == 3 {
      assert ValidPackageName("clsx") && ValidVersion("^2.1.1");
    } else {
      assert ValidPackageName("tailwind-merge") && ValidVersion("^3.3.1");
    }
  }

  /** The selection rule on a `-full` item: it ships what its base item ships
      plus the README, when the tree has one. */
  lemma FullVariantSelection(k: nat, path: string)
    requires k < 6
    ensures Kept(Items[2 * k + 1], path, Matches)
        <==> Kept(Items[2 * k], path, Matches) || AnchoredLiteral(path) == Items[2 * k].excludes[0]
  {
    FullVariants();
    var base, full := Items[2 * k], Items[2 * k + 1];
    assert MatchesAny(full.includes, path, Matches) <==> AnchoredLiteral(path) in full.includes;
    assert MatchesAny(base.includes, path, Matches) <==> AnchoredLiteral(path) in base.includes;
    assert MatchesAny(base.excludes, path, Matches) <==> AnchoredLiteral(path) in base.excludes;
    assert IsFullVariant(base, full);
  }
}
