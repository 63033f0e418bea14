/**
 * String helpers with the meaning of the JavaScript string methods the site
 * calls: `startsWith`, `replace(/^prefix/, '')`, `split(c)` and the global
 * single-character `replace(/c/g, repl)`. `Join` is a reference definition:
 * the site never joins, but `split` and `replace` are proved against it.
 */
module Text {

  /** `prefix` is an initial segment of `s` (JavaScript's `s.startsWith(prefix)`). */
  predicate StartsWith(s: string, prefix: string)
    ensures StartsWith(s, prefix) <==>
              |prefix| <= |s| && forall i :: 0 <= i < |prefix| ==> s[i] == prefix[i]
  {
    |prefix| <= |s| && s[..|prefix|] == prefix
  }

  /** `suffix` is a final segment of `s`. */
  predicate EndsWith(s: string, suffix: string)
  {
    |suffix| <= |s| && s[|s| - |suffix|..] == suffix
  }

  /** The parts of a concatenation are its prefix and its suffix. */
  lemma ConcatEnds(a: string, b: string)
    ensures StartsWith(a + b, a)
    ensures EndsWith(a + b, b)
  {
    assert (a + b)[..|a|] == a;
    assert (a + b)[|a|..] == b;
  }

  lemma StartsWithTransitive(s: string, t: string, u: string)
    requires StartsWith(s, t) && StartsWith(t, u)
    ensures StartsWith(s, u)
  {
    assert s[..|u|] == s[..|t|][..|u|];
  }

  lemma EndsWithTransitive(s: string, t: string, u: string)
    requires EndsWith(s, t) && EndsWith(t, u)
    ensures EndsWith(s, u)
  {
    assert s[|s| - |u|..] == s[|s| - |t|..][|t| - |u|..];
  }

  /** Removes one leading occurrence of `prefix`, as `s.replace(/^prefix/, '')` does. */
  function StripPrefix(s: string, prefix: string): (r: string)
    ensures StartsWith(s, prefix) ==> s == prefix + r
    ensures !StartsWith(s, prefix) ==> r == s
  {
    if StartsWith(s, prefix) then s[|prefix|..] else s
  }

  /** Number of occurrences of `c` in `s`. */
  function Count(s: string, c: char): (n: nat)
    ensures n <= |s|
    ensures n == 0 <==> c !in s
  {
    if |s| == 0 then 0
    else (if s[0] == c then 1 else 0) + Count(s[1..], c)
  }

  lemma {:induction false} CountAppend(a: string, b: string, c: char)
    ensures Count(a + b, c) == Count(a, c) + Count(b, c)
    decreases |a|
  {
    if |a| == 0 {
      assert a + b == b;
    } else {
      assert (a + b)[1..] == a[1..] + b;
      CountAppend(a[1..], b, c);
    }
  }

  /** Index of the first occurrence of `c` in `s`. */
  function IndexOf(s: string, c: char): (i: nat)
    requires c in s
    ensures i < |s| && s[i] == c
    ensures c !in s[..i]
  {
    if s[0] == c then 0
    else
      var i := 1 + IndexOf(s[1..], c);
      assert s[..i] == [s[0]] + s[1..][..i - 1];
      i
  }

  /** `parts` glued back together with `sep` between neighbours (JavaScript's `join`). */
  function Join(parts: seq<string>, sep: string): (r: string)
    decreases |parts|
  {
    if |parts| == 0 then ""
    else if |parts| == 1 then parts[0]
    else parts[0] + sep + Join(parts[1..], sep)
  }

  /**
   * JavaScript's `s.split(c)` for a one-character separator: the maximal runs
   * between occurrences of `c`. There is always at least one part (the empty
   * string splits into `[""]`), and joining the parts with `c` gives `s` back.
   */
  function Split(s: string, c: char): (parts: seq<string>)
    ensures |parts| == Count(s, c) + 1
    ensures forall i :: 0 <= i < |parts| ==> c !in parts[i]
    ensures Join(parts, [c]) == s
    decreases |s|
  {
    if |s| == 0 then [""]
    else
      var rest := Split(s[1..], c);
      assert s == [s[0]] + s[1..];
      if s[0] == c then
        JoinAfterSeparator(rest, [c]);
        [""] + rest
      else
        var parts := [[s[0]] + rest[0]] + rest[1..];
        JoinExtendFirst(s[0], rest, [c]);
        assert forall i :: 1 <= i < |parts| ==> parts[i] == rest[i];
        parts
  }

  /** A string without `c` is a single part. */
  lemma SplitWithout(s: string, c: char)
    requires c !in s
    ensures Split(s, c) == [s]
  {
  }

  /** A first run free of `c`, then `c`, then the rest: the run is the first part. */
  lemma {:induction false} SplitAfterRun(p: string, c: char, q: string)
    requires c !in p
    ensures Split(p + [c] + q, c) == [p] + Split(q, c)
    decreases |p|
  {
    var s := p + [c] + q;
    if |p| == 0 {
      assert s[1..] == q;
    } else {
      assert s[1..] == p[1..] + [c] + q;
      SplitAfterRun(p[1..], c, q);
      assert [p[0]] + p[1..] == p;
    }
  }

  /** Splitting undoes joining, for parts that do not contain the separator. */
  lemma {:induction false} SplitOfJoin(parts: seq<string>, c: char)
    requires |parts| >= 1
    requires forall i :: 0 <= i < |parts| ==> c !in parts[i]
    ensures Split(Join(parts, [c]), c) == parts
    decreases |parts|
  {
    if |parts| == 1 {
      SplitWithout(parts[0], c);
    } else {
      SplitOfJoin(parts[1..], c);
      SplitAfterRun(parts[0], c, Join(parts[1..], [c]));
      assert [parts[0]] + parts[1..] == parts;
    }
  }

  /**
   * Every occurrence of `c` in `s` replaced by `repl`: JavaScript's
   * `s.replace(/c/g, repl)` for a one-character pattern. A string without `c`
   * is returned unchanged, and a non-empty replacement never shortens it.
   */
  function ReplaceChar(s: string, c: char, repl: string): (r: string)
    ensures c !in s ==> r == s
    ensures |s| <= |r| || |repl| == 0
    decreases |s|
  {
    if |s| == 0 then ""
    else (if s[0] == c then repl else [s[0]]) + ReplaceChar(s[1..], c, repl)
  }

  /**
   * The global replacement is the same as splitting on `c` and joining the parts
   * with `repl`: each occurrence becomes `repl`, and the text between
   * occurrences is kept.
   */
  lemma {:induction false} ReplaceCharIsSplitJoin(s: string, c: char, repl: string)
    ensures ReplaceChar(s, c, repl) == Join(Split(s, c), repl)
    decreases |s|
  {
    if |s| > 0 {
      ReplaceCharIsSplitJoin(s[1..], c, repl);
      var rest := Split(s[1..], c);
      if s[0] == c {
        JoinAfterSeparator(rest, repl);
      } else {
        JoinExtendFirst(s[0], rest, repl);
      }
    }
  }

  /** Joining `[""] + rest` puts one separator in front of the joined rest. */
  lemma JoinAfterSeparator(rest: seq<string>, sep: string)
    requires |rest| >= 1
    ensures Join([""] + rest, sep) == sep + Join(rest, sep)
  {
    assert ([""] + rest)[1..] == rest;
  }

  /** Prepending a character to the first part prepends it to the join. */
  lemma JoinExtendFirst(x: char, rest: seq<string>, sep: string)
    requires |rest| >= 1
    ensures Join([[x] + rest[0]] + rest[1..], sep) == [x] + Join(rest, sep)
  {
    var parts := [[x] + rest[0]] + rest[1..];
    if |rest| > 1 {
      assert parts[1..] == rest[1..];
    }
  }

  /** No `c` survives the replacement when `repl` has none. */
  lemma {:induction false} ReplaceCharRemoves(s: string, c: char, repl: string)
    requires c !in repl
    ensures c !in ReplaceChar(s, c, repl)
    decreases |s|
  {
    if |s| > 0 {
      ReplaceCharRemoves(s[1..], c, repl);
    }
  }

  /** Each occurrence of `c` grows the string by `|repl| - 1`. */
  lemma {:induction false} ReplaceCharLength(s: string, c: char, repl: string)
    ensures |ReplaceChar(s, c, repl)| == |s| + Count(s, c) * (|repl| - 1)
    decreases |s|
  {
    if |s| > 0 {
      ReplaceCharLength(s[1..], c, repl);
      var k := |repl| - 1;
      var n := Count(s[1..], c);
      var rest := ReplaceChar(s[1..], c, repl);
      if s[0] == c {
        assert ReplaceChar(s, c, repl) == repl + rest;
        MultiplySuccessor(n, k);
      } else {
        assert ReplaceChar(s, c, repl) == [s[0]] + rest;
      }
    }
  }

  lemma MultiplySuccessor(n: int, k: int)
    ensures (n + 1) * k == n * k + k
  {
  }
}
