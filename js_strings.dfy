/**
 * The JavaScript string operations the shell relies on: `indexOf`, `startsWith`,
 * `endsWith`, `trim`, `split` with a one-character separator, `join`, and the
 * default (UTF-16 code unit) ordering that `Array.prototype.sort` uses.
 *
 * Strings are sequences of Unicode scalar values. All the shell's tokens are
 * ASCII, so wherever the shell compares or cuts strings the order of positions
 * and the slices taken agree with JavaScript's; the positions themselves differ
 * from code-unit positions after a character outside the Basic Multilingual
 * Plane. The sort order is modelled on code units below.
 */
module JsStrings {
  import opened Wrappers

  /** `t` occurs in `s` starting at position `i`. */
  predicate OccursAt(s: string, t: string, i: nat) {
    i + |t| <= |s| && s[i..i + |t|] == t
  }

  /** `s.indexOf(t, from)`: the first position at or after `from` where `t` occurs. */
  function IndexOfFrom(s: string, t: string, from: nat): (r: Option<nat>)
    ensures r.Some? ==> from <= r.value && OccursAt(s, t, r.value)
    ensures r.Some? ==> forall j: nat :: from <= j < r.value ==> !OccursAt(s, t, j)
    ensures r.None? ==> forall j: nat :: from <= j ==> !OccursAt(s, t, j)
    decreases |s| - from
  {
    if from + |t| > |s| then None
    else if s[from..from + |t|] == t then Some(from)
    else IndexOfFrom(s, t, from + 1)
  }

  /** `s.indexOf(t)`, with `None` standing for JavaScript's -1. */
  function IndexOf(s: string, t: string): (r: Option<nat>)
    ensures r.Some? ==> OccursAt(s, t, r.value)
    ensures r.Some? ==> forall j: nat :: j < r.value ==> !OccursAt(s, t, j)
    ensures r.None? ==> forall j: nat :: !OccursAt(s, t, j)
  {
    IndexOfFrom(s, t, 0)
  }

  /** The first occurrence is determined by the two facts that define it. */
  lemma IndexOfIs(s: string, t: string, k: nat)
    requires OccursAt(s, t, k)
    requires forall j: nat :: j < k ==> !OccursAt(s, t, j)
    ensures IndexOf(s, t) == Some(k)
  {
  }

  predicate StartsWith(s: string, prefix: string) {
    |prefix| <= |s| && s[..|prefix|] == prefix
  }

  predicate EndsWith(s: string, suffix: string) {
    |suffix| <= |s| && s[|s| - |suffix|..] == suffix
  }

  /**
   * The characters `String.prototype.trim` removes: ECMAScript's WhiteSpace
   * (tab, vertical tab, form feed, space, no-break space, byte order mark and
   * the space separators of category Zs) and LineTerminator (LF, CR, U+2028, U+2029).
   */
  predicate IsWhiteSpace(c: char) {
    var n := c as int;
    n == 0x09 || n == 0x0A || n == 0x0B || n == 0x0C || n == 0x0D || n == 0x20 ||
    n == 0xA0 || n == 0x1680 || (0x2000 <= n <= 0x200A) || n == 0x2028 || n == 0x2029 ||
    n == 0x202F || n == 0x205F || n == 0x3000 || n == 0xFEFF
  }

  /** The number of white-space characters at the start of `s`. */
  function Leading(s: string): (n: nat)
    ensures n <= |s|
    ensures forall i :: 0 <= i < n ==> IsWhiteSpace(s[i])
    ensures n < |s| ==> !IsWhiteSpace(s[n])
  {
    if |s| > 0 && IsWhiteSpace(s[0]) then 1 + Leading(s[1..]) else 0
  }

  /** The number of white-space characters at the end of `s`. */
  function Trailing(s: string): (n: nat)
    ensures n <= |s|
    ensures forall i :: |s| - n <= i < |s| ==> IsWhiteSpace(s[i])
    ensures n < |s| ==> !IsWhiteSpace(s[|s| - 1 - n])
  {
    if |s| > 0 && IsWhiteSpace(s[|s| - 1]) then 1 + Trailing(s[..|s| - 1]) else 0
  }

  /**
   * `s.trim()`: the unique infix of `s` that neither starts nor ends with white
   * space and is surrounded in `s` by white space only.
   */
  function Trim(s: string): (r: string)
    ensures |r| <= |s|
    ensures Leading(s) + |r| <= |s| && r == s[Leading(s)..Leading(s) + |r|]
    ensures forall i :: 0 <= i < Leading(s) ==> IsWhiteSpace(s[i])
    ensures forall i :: Leading(s) + |r| <= i < |s| ==> IsWhiteSpace(s[i])
    ensures r == [] || (!IsWhiteSpace(r[0]) && !IsWhiteSpace(r[|r| - 1]))
  {
    var t := s[Leading(s)..];
    t[..|t| - Trailing(t)]
  }

  /** A string that neither starts nor ends with white space is its own trim. */
  lemma TrimTrimmed(s: string)
    requires s == [] || (!IsWhiteSpace(s[0]) && !IsWhiteSpace(s[|s| - 1]))
    ensures Trim(s) == s
  {
    if s != [] {
      assert Leading(s) == 0;
      assert Trailing(s) == 0;
    }
  }

  /** `s.split(sep)` for a one-character separator: the pieces between separators, at least one. */
  function Split(s: string, sep: char): (parts: seq<string>)
    ensures |parts| >= 1
    ensures forall i :: 0 <= i < |parts| ==> sep !in parts[i]
    decreases |s|
  {
    if |s| == 0 then [""]
    else
      var rest := Split(s[1..], sep);
      if s[0] == sep then [""] + rest
      else [[s[0]] + rest[0]] + rest[1..]
  }

  /** `parts.join(sep)`. */
  function Join(parts: seq<string>, sep: string): string
    decreases |parts|
  {
    if |parts| == 0 then ""
    else if |parts| == 1 then parts[0]
    else parts[0] + sep + Join(parts[1..], sep)
  }

  /** Joining the pieces of a split with the separator gives back the original string. */
  lemma {:induction false} JoinSplit(s: string, sep: char)
    ensures Join(Split(s, sep), [sep]) == s
    decreases |s|
  {
    if |s| > 0 {
      var rest := Split(s[1..], sep);
      JoinSplit(s[1..], sep);
      assert s == [s[0]] + s[1..];
      if s[0] != sep {
        if |rest| > 1 {
          assert rest == [rest[0]] + rest[1..];
          assert Join(rest, [sep]) == rest[0] + [sep] + Join(rest[1..], [sep]);
        }
      }
    }
  }

  /** Splitting a string built by joining separator-free pieces gives back the pieces. */
  lemma {:induction false} SplitJoin(parts: seq<string>, sep: char)
    requires |parts| >= 1
    requires forall i :: 0 <= i < |parts| ==> sep !in parts[i]
    ensures Split(Join(parts, [sep]), sep) == parts
    decreases |parts|, |parts[0]|
  {
    if |parts[0]| > 0 {
      var p := parts[0];
      var tail := [p[1..]] + parts[1..];
      assert p[1..] == p[1..] && sep !in p[1..] by {
        forall c | c in p[1..] ensures c != sep { assert c in p; }
      }
      assert forall i :: 0 <= i < |tail| ==> sep !in tail[i] by {
        forall i | 0 <= i < |tail| ensures sep !in tail[i] {
          if i > 0 { assert tail[i] == parts[i]; }
        }
      }
      SplitJoin(tail, sep);
      var s := Join(parts, [sep]);
      if |parts| == 1 {
        assert s == p;
        assert Join(tail, [sep]) == p[1..];
      } else {
        var rest := Join(parts[1..], [sep]);
        assert s == p + [sep] + rest;
        assert tail[1..] == parts[1..];
        assert Join(tail, [sep]) == p[1..] + [sep] + rest;
        assert (p + [sep] + rest)[1..] == p[1..] + [sep] + rest;
      }
      assert s[1..] == Join(tail, [sep]);
      assert s[0] == p[0] && p[0] != sep;
      assert [p[0]] + p[1..] == p;
      assert tail[1..] == parts[1..];
      assert parts == [p] + parts[1..];
    } else if |parts| > 1 {
      SplitJoin(parts[1..], sep);
      var s := Join(parts, [sep]);
      assert s == [sep] + Join(parts[1..], [sep]);
      assert s[1..] == Join(parts[1..], [sep]);
      assert parts == [""] + parts[1..];
    }
  }

  /** The first piece of a split is the text before the first separator. */
  lemma {:induction false} SplitFirst(s: string, sep: char)
    ensures var parts := Split(s, sep);
      match IndexOf(s, [sep])
      case None => parts == [s]
      case Some(i) => |parts| > 1 && parts[0] == s[..i] && Join(parts[1..], [sep]) == s[i + 1..]
  {
    var parts := Split(s, sep);
    JoinSplit(s, sep);
    var p := parts[0];
    if |parts| == 1 {
      assert sep !in s;
      forall j: nat ensures !OccursAt(s, [sep], j) {
        if j < |s| {
          assert s[j] in s;
          assert s[j..j + 1] == [s[j]];
        }
      }
    } else {
      assert s == p + [sep] + Join(parts[1..], [sep]);
      assert OccursAt(s, [sep], |p|) by { assert s[|p|..|p| + 1] == [sep]; }
      forall j: nat | j < |p| ensures !OccursAt(s, [sep], j) {
        assert s[j] == p[j] && p[j] in p;
        assert s[j..j + 1] == [s[j]];
      }
      IndexOfIs(s, [sep], |p|);
      assert s[..|p|] == p;
      assert s[|p| + 1..] == Join(parts[1..], [sep]);
    }
  }

  /**
   * Where a character sorts under JavaScript's default string ordering, which
   * compares UTF-16 code units: characters below U+D800 keep their place, the
   * supplementary characters (written as a surrogate pair whose first unit lies
   * in U+D800..U+DBFF) come next, and U+E000..U+FFFF sort after both.
   */
  function Utf16Rank(c: char): (r: int)
    ensures (c as int < 0xD800 || c as int >= 0x10000) ==> r == c as int
  {
    var n := c as int;
    if 0xE000 <= n < 0x10000 then n + 0x110000 else n
  }

  /** Different characters have different ranks. */
  lemma Utf16RankInjective(a: char, b: char)
    requires Utf16Rank(a) == Utf16Rank(b)
    ensures a == b
  {
    assert a as int == b as int;
  }

  /** `a <= b` in JavaScript's default string order: lexicographic on code units. */
  predicate Utf16LessEq(a: string, b: string)
    decreases |a|
  {
    |a| == 0 ||
    (|b| > 0 &&
     (Utf16Rank(a[0]) < Utf16Rank(b[0]) || (a[0] == b[0] && Utf16LessEq(a[1..], b[1..]))))
  }

  /** The order is total. */
  lemma {:induction false} Utf16LessEqTotal(a: string, b: string)
    ensures Utf16LessEq(a, b) || Utf16LessEq(b, a)
    decreases |a|
  {
    if |a| > 0 && |b| > 0 {
      if a[0] == b[0] {
        Utf16LessEqTotal(a[1..], b[1..]);
      } else if Utf16Rank(a[0]) == Utf16Rank(b[0]) {
        Utf16RankInjective(a[0], b[0]);
      }
    }
  }

  /** The order is antisymmetric. */
  lemma {:induction false} Utf16LessEqAntisymmetric(a: string, b: string)
    requires Utf16LessEq(a, b) && Utf16LessEq(b, a)
    ensures a == b
    decreases |a|
  {
    if |a| > 0 {
      assert a[0] == b[0];
      Utf16LessEqAntisymmetric(a[1..], b[1..]);
      assert a == [a[0]] + a[1..] && b == [b[0]] + b[1..];
    }
  }

  /** The order is transitive. */
  lemma {:induction false} Utf16LessEqTransitive(a: string, b: string, c: string)
    requires Utf16LessEq(a, b) && Utf16LessEq(b, c)
    ensures Utf16LessEq(a, c)
    decreases |a|
  {
    if |a| > 0 && a[0] == b[0] && b[0] == c[0] {
      Utf16LessEqTransitive(a[1..], b[1..], c[1..]);
    }
  }

  predicate Sorted(s: seq<string>) {
    forall i :: 0 <= i < |s| - 1 ==> Utf16LessEq(s[i], s[i + 1])
  }

  /** The head of a sorted list is at most every element of it. */
  lemma {:induction false} SortedHeadLeast(s: seq<string>, i: int)
    requires Sorted(s) && 0 <= i < |s|
    ensures Utf16LessEq(s[0], s[i])
    decreases i
  {
    if i == 0 {
      Utf16LessEqTotal(s[0], s[0]);
    } else {
      SortedHeadLeast(s, i - 1);
      Utf16LessEqTransitive(s[0], s[i - 1], s[i]);
    }
  }

  /**
   * Two sorted arrangements of the same strings are equal, so any correct sort,
   * `Array.prototype.sort` included, gives the same list as `Sort`.
   */
  lemma {:induction false} SortedUnique(x: seq<string>, y: seq<string>)
    requires Sorted(x) && Sorted(y) && multiset(x) == multiset(y)
    ensures x == y
    decreases |x|
  {
    if |x| > 0 {
      SortedSameHead(x, y);
      SameHeadTails(x, y);
      SortedTail(x);
      SortedTail(y);
      SortedUnique(x[1..], y[1..]);
      assert x == [x[0]] + x[1..] && y == [y[0]] + y[1..];
    }
  }

  /** Sorted arrangements of the same non-empty strings start with the same string. */
  lemma SortedSameHead(x: seq<string>, y: seq<string>)
    requires Sorted(x) && Sorted(y) && multiset(x) == multiset(y) && |x| > 0
    ensures |y| > 0 && x[0] == y[0]
  {
    assert x[0] in multiset(y);
    var j :| 0 <= j < |y| && y[j] == x[0];
    assert y[0] in multiset(x);
    var k :| 0 <= k < |x| && x[k] == y[0];
    SortedHeadLeast(y, j);
    SortedHeadLeast(x, k);
    Utf16LessEqAntisymmetric(x[0], y[0]);
  }

  /** Removing the same head from two arrangements of the same strings leaves arrangements of the same strings. */
  lemma SameHeadTails(x: seq<string>, y: seq<string>)
    requires |x| > 0 && |y| > 0 && x[0] == y[0] && multiset(x) == multiset(y)
    ensures multiset(x[1..]) == multiset(y[1..])
  {
    assert x == [x[0]] + x[1..] && y == [y[0]] + y[1..];
    assert multiset(x[1..]) == multiset(x) - multiset{x[0]};
    assert multiset(y[1..]) == multiset(y) - multiset{y[0]};
  }

  /** The tail of a sorted list is sorted. */
  lemma SortedTail(s: seq<string>)
    requires Sorted(s) && |s| > 0
    ensures Sorted(s[1..])
  {
    forall i | 0 <= i < |s[1..]| - 1 ensures Utf16LessEq(s[1..][i], s[1..][i + 1]) {
      assert s[1..][i] == s[i + 1] && s[1..][i + 1] == s[i + 2];
    }
  }

  function Insert(x: string, s: seq<string>): (r: seq<string>)
    ensures |r| == |s| + 1
    ensures multiset(r) == multiset(s) + multiset{x}
    ensures r[0] == x || (|s| > 0 && r[0] == s[0])
    decreases |s|
  {
    if |s| == 0 then [x]
    else if Utf16LessEq(x, s[0]) then [x] + s
    else
      assert s == [s[0]] + s[1..];
      [s[0]] + Insert(x, s[1..])
  }

  lemma {:induction false} InsertSorted(x: string, s: seq<string>)
    requires Sorted(s)
    ensures Sorted(Insert(x, s))
    decreases |s|
  {
    if |s| > 0 && !Utf16LessEq(x, s[0]) {
      Utf16LessEqTotal(x, s[0]);
      InsertSorted(x, s[1..]);
      var r := Insert(x, s[1..]);
      assert Sorted(s[1..]) by {
        forall i | 0 <= i < |s[1..]| - 1 ensures Utf16LessEq(s[1..][i], s[1..][i + 1]) {
          assert s[1..][i] == s[i + 1];
        }
      }
      assert Utf16LessEq(s[0], r[0]) by {
        if |s| > 1 { assert Utf16LessEq(s[0], s[1]); }
      }
      var full := [s[0]] + r;
      forall i | 0 <= i < |full| - 1 ensures Utf16LessEq(full[i], full[i + 1]) {
        if i > 0 { assert full[i] == r[i - 1] && full[i + 1] == r[i]; }
      }
    }
  }

  /** `Array.prototype.sort()` with no comparator: sorted, and a permutation of its input. */
  function Sort(s: seq<string>): (r: seq<string>)
    ensures Sorted(r)
    ensures multiset(r) == multiset(s)
    decreases |s|
  {
    if |s| == 0 then []
    else
      var rest := Sort(s[1..]);
      InsertSorted(s[0], rest);
      assert s == [s[0]] + s[1..];
      Insert(s[0], rest)
  }
}
