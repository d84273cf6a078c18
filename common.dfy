/** Shared vocabulary of the model: optional values, the outcome of an awaited
    callback, and the handful of JavaScript string operations the registry
    generator and the widgets rely on (`startsWith`, `endsWith`, `includes`,
    `indexOf`, `replace` with a string pattern, `split`, `trim`). */
module Common {

  datatype Option<T> = None | Some(value: T)

  /** What an awaited user callback did: it resolved, or it threw / rejected. */
  datatype Outcome = Resolved | Rejected(reason: string)

  /** JavaScript truthiness of an optional string prop: `undefined` and `""` are falsy. */
  predicate Truthy(s: Option<string>)
  {
    s.Some? && s.value != ""
  }

  /** Appends `c` to a callback trace when the callback prop is present (`cb?.()`). */
  function Fire<C>(trace: seq<C>, present: bool, c: C): (r: seq<C>)
    ensures present ==> r == trace + [c]
    ensures !present ==> r == trace
  {
    if present then trace + [c] else trace
  }

  // ---------------------------------------------------------------------------
  // Searching

  /** `String.prototype.endsWith`. */
  predicate EndsWith(s: string, suffix: string)
  {
    |suffix| <= |s| && s[|s| - |suffix|..] == suffix
  }

  /** `pat` occurs in `s` starting at index `i`. */
  predicate OccursAt(s: string, pat: string, i: nat)
  {
    i + |pat| <= |s| && s[i..i + |pat|] == pat
  }

  /** `String.prototype.includes`. */
  predicate Contains(s: string, pat: string)
  {
    exists i: nat :: i <= |s| && OccursAt(s, pat, i)
  }

  /** First index at or after `from` where `pat` occurs (`indexOf(pat, from)`). */
  function IndexFrom(s: string, pat: string, from: nat): (r: Option<nat>)
    decreases |s| - from
    ensures r.Some? ==> from <= r.value && OccursAt(s, pat, r.value)
    ensures r.Some? ==> forall j: nat :: from <= j < r.value ==> !OccursAt(s, pat, j)
    ensures r.None? ==> forall j: nat :: from <= j ==> !OccursAt(s, pat, j)
  {
    if from + |pat| > |s| then None
    else if s[from..from + |pat|] == pat then Some(from)
    else IndexFrom(s, pat, from + 1)
  }

  /** `String.prototype.indexOf`, with -1 as None. */
  function IndexOf(s: string, pat: string): (r: Option<nat>)
    ensures r.Some? ==> OccursAt(s, pat, r.value)
    ensures r.Some? ==> forall j: nat :: j < r.value ==> !OccursAt(s, pat, j)
    ensures r.None? ==> forall j: nat :: !OccursAt(s, pat, j)
  {
    IndexFrom(s, pat, 0)
  }

  /** `indexOf` finds nothing exactly when `includes` is false. */
  lemma IndexOfContains(s: string, pat: string)
    ensures IndexOf(s, pat).None? <==> !Contains(s, pat)
  {
    var r := IndexOf(s, pat);
    if r.Some? {
      assert r.value <= |s| && OccursAt(s, pat, r.value);
    }
  }

  /** `s.replace(pat, rep)` for a string `pat`: only the first occurrence is
      replaced (the replacement strings of this model contain no `$`). */
  function ReplaceFirst(s: string, pat: string, rep: string): string
  {
    match IndexOf(s, pat)
    case None => s
    case Some(i) => s[..i] + rep + s[i + |pat|..]
  }

  /** Replacing the first occurrence of a pattern by itself changes nothing. */
  lemma ReplaceFirstBySelf(s: string, pat: string)
    ensures ReplaceFirst(s, pat, pat) == s
  {
    match IndexOf(s, pat)
    case None =>
    case Some(i) =>
      assert s[i..i + |pat|] == pat;
      assert s == s[..i] + s[i..i + |pat|] + s[i + |pat|..];
  }

  /** When `s` starts with `pat`, `replace` rewrites exactly that leading occurrence. */
  lemma ReplaceLeading(s: string, pat: string, rep: string)
    requires pat <= s
    ensures ReplaceFirst(s, pat, rep) == rep + s[|pat|..]
  {
    assert s[0..|pat|] == pat;
    assert IndexOf(s, pat) == Some(0) by {
      assert OccursAt(s, pat, 0);
    }
    assert s[..0] + rep == rep;
  }

  /** `indexOf` of a single character finds `j` when `x[j]` is its first occurrence. */
  lemma FirstCharAt(x: string, c: char, j: nat)
    requires j < |x| && x[j] == c && c !in x[..j]
    ensures IndexOf(x, [c]) == Some(j)
  {
    assert OccursAt(x, [c], j);
    forall i: nat | i < j ensures !OccursAt(x, [c], i) {
      assert x[..j][i] == x[i];
    }
  }

  /** What `indexOf` of a single character reports is its first occurrence. */
  lemma FirstCharBefore(x: string, c: char, j: nat)
    requires IndexOf(x, [c]) == Some(j)
    ensures j < |x| && x[j] == c && c !in x[..j]
  {
    assert x[j..j + 1] == [c];
    forall i | 0 <= i < j ensures x[..j][i] != c {
      assert !OccursAt(x, [c], i);
      assert x[i..i + 1] == [x[i]];
    }
  }

  // ---------------------------------------------------------------------------
  // Splitting

  /** `s.split(sep)` for a non-empty separator string: the pieces between the
      non-overlapping occurrences of `sep`, found from the left. */
  function Split(s: string, sep: string): (parts: seq<string>)
    requires |sep| > 0
    decreases |s|
    ensures |parts| >= 1
  {
    var k := IndexOf(s, sep);
    if k.None? then [s] else [s[..k.value]] + Split(s[k.value + |sep|..], sep)
  }

  /** `parts.join(sep)`. */
  function Join(parts: seq<string>, sep: string): string
    requires |parts| >= 1
  {
    if |parts| == 1 then parts[0] else parts[0] + sep + Join(parts[1..], sep)
  }

  lemma JoinCons(head: string, tail: seq<string>, sep: string)
    requires |tail| >= 1
    ensures Join([head] + tail, sep) == head + sep + Join(tail, sep)
  {
    assert ([head] + tail)[1..] == tail;
  }

  /** Splitting and joining again gives back the original string. */
  lemma {:induction false} SplitJoin(s: string, sep: string)
    requires |sep| > 0
    ensures Join(Split(s, sep), sep) == s
    decreases |s|
  {
    var k := IndexOf(s, sep);
    if k.Some? {
      var i := k.value;
      var rest := s[i + |sep|..];
      SplitAtFirst(s, sep, i);
      SplitJoin(rest, sep);
      JoinCons(s[..i], Split(rest, sep), sep);
      Rejoin(s, sep, i);
    }
  }

  /** Cutting out an occurrence and putting it back gives the string again. */
  lemma Rejoin(s: string, pat: string, i: nat)
    requires OccursAt(s, pat, i)
    ensures s == s[..i] + pat + s[i + |pat|..]
  {
    assert s == s[..i] + s[i..i + |pat|] + s[i + |pat|..];
  }

  /** Joining one more part appends the separator and the part. */
  lemma {:induction false} JoinSnoc(parts: seq<string>, x: string, sep: string)
    requires |parts| >= 1
    ensures Join(parts + [x], sep) == Join(parts, sep) + sep + x
    decreases |parts|
  {
    if |parts| > 1 {
      assert (parts + [x])[1..] == parts[1..] + [x];
      JoinSnoc(parts[1..], x, sep);
    } else {
      assert (parts + [x])[1..] == [x];
    }
  }

  /** Splitting at the first occurrence of the separator. */
  lemma SplitAtFirst(s: string, sep: string, p: nat)
    requires |sep| > 0 && IndexOf(s, sep) == Some(p)
    ensures Split(s, sep) == [s[..p]] + Split(s[p + |sep|..], sep)
  {
  }

  /** `indexOf` reports the first occurrence. */
  lemma FirstOccurrence(s: string, sep: string, p: nat)
    requires OccursAt(s, sep, p)
    requires forall i: nat :: i < p ==> !OccursAt(s, sep, i)
    ensures IndexOf(s, sep) == Some(p)
  {
    var r := IndexOf(s, sep);
    assert r.Some? by {
      assert OccursAt(s, sep, p);
    }
    assert r.value >= p by {
      assert OccursAt(s, sep, r.value);
    }
  }

  /** A string with exactly one occurrence of the separator splits into the
      text before it and the text after it. */
  lemma SplitOnce(a: string, sep: string, y: string)
    requires |sep| > 0
    requires forall i: nat :: i < |a| ==> !OccursAt(a + (sep + y), sep, i)
    requires forall i: nat :: i < |y| ==> !OccursAt(y, sep, i)
    ensures Split(a + (sep + y), sep) == [a, y]
  {
    SeparatorAfter(a, sep, y);
    SplitWithoutSeparator(y, sep);
    SplitAround(a, sep, y);
  }

  /** Splitting where `indexOf` finds the separator right after `a`, when the
      rest `y` splits into itself. */
  lemma SplitAround(a: string, sep: string, y: string)
    requires |sep| > 0 && IndexOf(a + (sep + y), sep) == Some(|a|)
    requires Split(y, sep) == [y]
    ensures Split(a + (sep + y), sep) == [a, y]
  {
    var s := a + (sep + y);
    SplitAtFirst(s, sep, |a|);
    assert s[|a| + |sep|..] == y;
    assert s[..|a|] == a;
  }

  /** With no earlier occurrence, `indexOf` finds the separator right after `a`. */
  lemma SeparatorAfter(a: string, sep: string, y: string)
    requires forall i: nat :: i < |a| ==> !OccursAt(a + (sep + y), sep, i)
    ensures IndexOf(a + (sep + y), sep) == Some(|a|)
  {
    var s := a + (sep + y);
    assert OccursAt(sep + y, sep, 0) by {
      assert (sep + y)[0..|sep|] == sep;
    }
    OccursShift(a, sep + y, sep, 0);
    FirstOccurrence(s, sep, |a|);
  }

  /** A string in which the separator never occurs splits into itself alone. */
  lemma SplitWithoutSeparator(s: string, sep: string)
    requires |sep| > 0 && forall i: nat :: i < |s| ==> !OccursAt(s, sep, i)
    ensures Split(s, sep) == [s]
  {
    if IndexOf(s, sep).Some? {
      assert false;
    }
  }

  /** A pattern cannot occur where its first character does not. */
  lemma NotOccursAtFirstChar(s: string, pat: string, i: nat)
    requires |pat| > 0 && (i >= |s| || s[i] != pat[0])
    ensures !OccursAt(s, pat, i)
  {
    if i + |pat| <= |s| {
      assert s[i..i + |pat|][0] == s[i];
    }
  }

  /** Occurrences in `b` are occurrences in `a + b`, shifted by `|a|`. */
  lemma OccursShift(a: string, b: string, pat: string, i: nat)
    ensures OccursAt(a + b, pat, |a| + i) <==> OccursAt(b, pat, i)
  {
    if |a| + i + |pat| <= |a + b| {
      assert (a + b)[|a| + i..|a| + i + |pat|] == b[i..i + |pat|];
    }
  }

  /** An occurrence at or after `m` is an occurrence in the suffix from `m`. */
  lemma OccursInSuffix(s: string, pat: string, m: nat, j: nat)
    requires m <= j && OccursAt(s, pat, j)
    ensures OccursAt(s[m..], pat, j - m)
  {
    assert s[m..][j - m..j - m + |pat|] == s[j..j + |pat|];
  }

  /** Two occurrences of the separator that do not overlap give at least three
      pieces, whatever else the string holds. */
  lemma SplitTwoOccurrences(s: string, sep: string, i: nat, j: nat)
    requires |sep| > 0 && OccursAt(s, sep, i) && OccursAt(s, sep, j) && i + |sep| <= j
    ensures |Split(s, sep)| >= 3
  {
    OccurrenceFound(s, sep, i);
    var p := IndexOf(s, sep).value;
    var rest := s[p + |sep|..];
    SplitAtFirst(s, sep, p);
    OccursInSuffix(s, sep, p + |sep|, j);
    OccurrenceFound(rest, sep, j - (p + |sep|));
    SplitAtFirst(rest, sep, IndexOf(rest, sep).value);
  }

  /** `indexOf` finds an occurrence at or before any known one. */
  lemma OccurrenceFound(s: string, pat: string, i: nat)
    requires OccursAt(s, pat, i)
    ensures IndexOf(s, pat).Some? && IndexOf(s, pat).value <= i
  {
  }

  /** No piece of a split contains the separator. */
  lemma {:induction false} SplitPiecesFree(s: string, sep: string)
    requires |sep| > 0
    ensures forall k :: 0 <= k < |Split(s, sep)| ==> !Contains(Split(s, sep)[k], sep)
    decreases |s|
  {
    match IndexOf(s, sep)
    case None =>
    case Some(i) =>
      var rest := s[i + |sep|..];
      SplitPiecesFree(rest, sep);
      var head := s[..i];
      forall j: nat | OccursAt(head, sep, j) ensures false {
        assert head[j..j + |sep|] == s[j..j + |sep|];
        assert OccursAt(s, sep, j);
      }
  }

  /** `s.split(c).shift()` for a one-character separator: the text before the first `c`. */
  function TakeUntil(s: string, c: char): (r: string)
    ensures r <= s && c !in r
    ensures |r| < |s| ==> s[|r|] == c
  {
    if s == [] then []
    else if s[0] == c then []
    else [s[0]] + TakeUntil(s[1..], c)
  }

  /** The text before `c` is `v` when `v` has no `c` and what follows starts with `c`. */
  lemma TakeUntilPrefix(v: string, rest: string, c: char)
    requires c !in v && (rest == [] || rest[0] == c)
    ensures TakeUntil(v + rest, c) == v
  {
    var s := v + rest;
    var r := TakeUntil(s, c);
    assert forall j :: 0 <= j < |r| ==> s[j] == r[j] != c;
    assert forall j :: 0 <= j < |v| ==> s[j] == v[j] != c;
    assert |v| < |s| ==> s[|v|] == c;
    assert |r| == |v|;
    assert r == s[..|r|] == v;
  }

  // ---------------------------------------------------------------------------
  // Trimming

  /** ECMAScript WhiteSpace and LineTerminator code points (what `trim` removes). */
  predicate IsJsSpace(c: char)
  {
    c == ' ' || c == '\t' || c == '\n' || c == '\r' || c == '\U{000B}' || c == '\U{000C}'
    || c == '\U{00A0}' || c == '\U{1680}' || ('\U{2000}' <= c <= '\U{200A}')
    || c == '\U{2028}' || c == '\U{2029}' || c == '\U{202F}' || c == '\U{205F}'
    || c == '\U{3000}' || c == '\U{FEFF}'
  }

  function TrimStart(s: string): (r: string)
    ensures |r| <= |s| && r == s[|s| - |r|..]
    ensures r != [] ==> !IsJsSpace(r[0])
    ensures forall i :: 0 <= i < |s| - |r| ==> IsJsSpace(s[i])
  {
    if s != [] && IsJsSpace(s[0]) then
      var r := TrimStart(s[1..]);
      assert s[1..][|s| - 1 - |r|..] == s[|s| - |r|..];
      assert forall i :: 1 <= i < |s| - |r| ==> s[i] == s[1..][i - 1];
      r
    else s
  }

  function TrimEnd(s: string): (r: string)
    ensures |r| <= |s| && r == s[..|r|]
    ensures r != [] ==> !IsJsSpace(r[|r| - 1])
    ensures forall i :: |r| <= i < |s| ==> IsJsSpace(s[i])
  {
    if s != [] && IsJsSpace(s[|s| - 1]) then
      var r := TrimEnd(s[..|s| - 1]);
      assert s[..|s| - 1][..|r|] == s[..|r|];
      assert forall i :: |r| <= i < |s| - 1 ==> s[i] == s[..|s| - 1][i];
      r
    else s
  }

  /** `String.prototype.trim`. */
  function Trim(s: string): string
  {
    TrimEnd(TrimStart(s))
  }

  /** `s.trim()` is empty exactly when every character of `s` is white space. */
  lemma TrimEmptyIffBlank(s: string)
    ensures Trim(s) == "" <==> forall i :: 0 <= i < |s| ==> IsJsSpace(s[i])
  {
    var t := TrimStart(s);
    if Trim(s) == "" {
      forall i | 0 <= i < |s| ensures IsJsSpace(s[i]) {
        if i >= |s| - |t| {
          assert t[i - (|s| - |t|)] == s[i];
        }
      }
    } else {
      var r := Trim(s);
      assert r[0] == t[0];
      assert s[|s| - |t|] == t[0];
    }
  }

  // ---------------------------------------------------------------------------
  // Ordered key/value lists: a JavaScript object's own properties in insertion
  // order (and, in the browser model, a cookie jar)

  type Entries = seq<(string, string)>

  function Keys(e: Entries): (r: seq<string>)
    ensures |r| == |e| && forall k :: 0 <= k < |e| ==> r[k] == e[k].0
  {
    seq(|e|, k requires 0 <= k < |e| => e[k].0)
  }

  /** Position of a key in an object's entry list, if present. */
  function KeyIndex(e: Entries, key: string): (r: Option<nat>)
    ensures r.Some? ==> r.value < |e| && e[r.value].0 == key
    ensures r.None? <==> forall k :: 0 <= k < |e| ==> e[k].0 != key
  {
    if e == [] then None
    else if e[|e| - 1].0 == key then Some(|e| - 1)
    else KeyIndex(e[..|e| - 1], key)
  }

  /** Assigning a property: an existing key keeps its position and takes the new
      value; a new key is appended. */
  function Assign(obj: Entries, key: string, value: string): Entries
  {
    match KeyIndex(obj, key)
    case Some(k) => obj[k := (key, value)]
    case None => obj + [(key, value)]
  }

  /** The value a key has in an object literal: its last entry wins. */
  function ValueOf(e: Entries, key: string): Option<string>
  {
    if e == [] then None
    else if e[|e| - 1].0 == key then Some(e[|e| - 1].1)
    else ValueOf(e[..|e| - 1], key)
  }

  predicate DistinctKeys(e: Entries)
  {
    forall i, j :: 0 <= i < j < |e| ==> e[i].0 != e[j].0
  }

  lemma ValueOfDistinct(e: Entries, k: nat)
    requires DistinctKeys(e) && k < |e|
    ensures ValueOf(e, e[k].0) == Some(e[k].1)
    decreases |e|
  {
    if k != |e| - 1 {
      ValueOfDistinct(e[..|e| - 1], k);
    }
  }

  lemma ValueOfAbsent(e: Entries, key: string)
    requires forall k :: 0 <= k < |e| ==> e[k].0 != key
    ensures ValueOf(e, key) == None
    decreases |e|
  {
    if e != [] {
      ValueOfAbsent(e[..|e| - 1], key);
    }
  }

  /** Every entry after an assignment is an old entry or the assigned pair. */
  lemma AssignEntries(obj: Entries, key: string, value: string)
    ensures var r := Assign(obj, key, value);
      forall k :: 0 <= k < |r| ==> r[k] in obj || r[k] == (key, value)
  {
  }

  /** One assignment: keys stay distinct, the key now has the value, every other
      key keeps its value, and the old keys keep their positions. */
  lemma AssignSpec(obj: Entries, key: string, value: string)
    requires DistinctKeys(obj)
    ensures var r := Assign(obj, key, value);
      && DistinctKeys(r)
      && Keys(obj) <= Keys(r)
      && (forall x :: x in Keys(r) <==> x in Keys(obj) || x == key)
      && ValueOf(r, key) == Some(value)
      && (forall x :: x != key ==> ValueOf(r, x) == ValueOf(obj, x))
  {
    AssignKeys(obj, key, value);
    AssignValues(obj, key, value);
  }

  /** The key half of `AssignSpec`. */
  lemma AssignKeys(obj: Entries, key: string, value: string)
    requires DistinctKeys(obj)
    ensures var r := Assign(obj, key, value);
      && DistinctKeys(r)
      && Keys(obj) <= Keys(r)
      && (forall x :: x in Keys(r) <==> x in Keys(obj) || x == key)
  {
    var r := Assign(obj, key, value);
    match KeyIndex(obj, key)
    case Some(k) =>
      assert Keys(r) == Keys(obj);
    case None =>
      assert r[..|obj|] == obj;
      assert Keys(r) == Keys(obj) + [key];
  }

  /** The value half of `AssignSpec`. */
  lemma AssignValues(obj: Entries, key: string, value: string)
    requires DistinctKeys(obj)
    ensures var r := Assign(obj, key, value);
      && ValueOf(r, key) == Some(value)
      && (forall x :: x != key ==> ValueOf(r, x) == ValueOf(obj, x))
  {
    var r := Assign(obj, key, value);
    match KeyIndex(obj, key)
    case Some(k) =>
      assert DistinctKeys(r) by {
        AssignKeys(obj, key, value);
      }
      ValueOfDistinct(r, k);
      forall x | x != key ensures ValueOf(r, x) == ValueOf(obj, x) {
        if j :| 0 <= j < |obj| && obj[j].0 == x {
          ValueOfDistinct(obj, j);
          ValueOfDistinct(r, j);
        } else {
          ValueOfAbsent(obj, x);
          ValueOfAbsent(r, x);
        }
      }
    case None =>
      assert r[..|obj|] == obj;
      forall x | x != key ensures ValueOf(r, x) == ValueOf(obj, x) {
      }
  }
}
