/** The parts of java.lang.String that the command-line builders use:
    replace and trim. */
module JavaString {

  /** The characters String.trim strips: every char whose code is at most U+0020. */
  predicate Blank(c: char) {
    c <= ' '
  }

  /** s holds a character that String.trim keeps. */
  predicate HasVisible(s: string) {
    exists k :: 0 <= k < |s| && !Blank(s[k])
  }

  /** s begins with t. */
  predicate StartsWith(s: string, t: string) {
    |t| <= |s| && forall i :: 0 <= i < |t| ==> s[i] == t[i]
  }

  /** A non-empty sequence is its head before its tail, also in front of b. */
  lemma ConsConcat<T>(a: seq<T>, b: seq<T>)
    requires a != []
    ensures (a + b)[0] == a[0] && (a + b)[1..] == a[1..] + b && a + b == [a[0]] + (a[1..] + b)
  {
  }

  lemma SliceConcat<T>(a: seq<T>, b: seq<T>, n: nat)
    requires n <= |a|
    ensures (a + b)[..n] == a[..n] && (a + b)[n..] == a[n..] + b
  {
  }

  lemma Assoc<T>(p: seq<T>, x: T, q: seq<T>)
    ensures p + [x] + q == p + ([x] + q)
  {
  }

  lemma Regroup<T>(p: seq<T>, q: seq<T>, x: T, r: seq<T>)
    ensures p + (q + [x] + r) == (p + q) + [x] + r
  {
  }

  // ---------------------------------------------------------------------
  // String.replace(CharSequence, CharSequence)
  // ---------------------------------------------------------------------

  /** String.replace: every non-overlapping occurrence of target, found by a
      left-to-right scan, is replaced; an empty target matches before every
      character and at the end. */
  function Replace(s: string, target: string, replacement: string): (r: string)
    decreases |s|
  {
    if |target| == 0 then
      if s == [] then replacement
      else replacement + [s[0]] + Replace(s[1..], target, replacement)
    else if s == [] then []
    else if StartsWith(s, target) then replacement + Replace(s[|target|..], target, replacement)
    else [s[0]] + Replace(s[1..], target, replacement)
  }

  /** s does not begin with t when they differ at index i. */
  lemma NotStartsWith(s: string, t: string, i: nat)
    requires i < |t| && (i >= |s| || s[i] != t[i])
    ensures !StartsWith(s, t)
  {
    if |t| <= |s| {
      assert s[..|t|][i] == s[i];
    }
  }

  /** What does not begin a + b with t does not begin a with t. */
  lemma NotStartsWithPrefix(a: string, b: string, t: string)
    requires !StartsWith(a + b, t)
    ensures !StartsWith(a, t)
  {
    if |t| <= |a| {
      assert forall i :: 0 <= i < |t| ==> (a + b)[i] == a[i];
    }
  }

  /** Where the target does not begin, one character is copied. */
  lemma ReplaceCopy(s: string, target: string, replacement: string)
    requires s != [] && |target| > 0 && !StartsWith(s, target)
    ensures Replace(s, target, replacement) == [s[0]] + Replace(s[1..], target, replacement)
  {
  }

  /** Where the target begins, it is replaced. */
  lemma ReplaceMatch(t: string, rest: string, replacement: string)
    requires |t| > 0
    ensures Replace(t + rest, t, replacement) == replacement + Replace(rest, t, replacement)
  {
    assert (t + rest)[..|t|] == t;
    assert (t + rest)[|t|..] == rest;
  }

  /** A prefix free of the target's first character is copied unchanged. */
  lemma {:induction false} ReplaceSkip(a: string, b: string, target: string, replacement: string)
    requires |target| > 0 && target[0] !in a
    ensures Replace(a + b, target, replacement) == a + Replace(b, target, replacement)
    decreases |a|
  {
    if a == [] {
      assert a + b == b;
    } else {
      var s := a + b;
      ConsConcat(a, b);
      NotStartsWith(s, target, 0);
      ReplaceCopy(s, target, replacement);
      ReplaceSkip(a[1..], b, target, replacement);
      ConsConcat(a, Replace(b, target, replacement));
    }
  }

  /** Where the target begins, it is replaced. */
  lemma ReplaceMatchAt(s: string, target: string, replacement: string)
    requires |target| > 0 && StartsWith(s, target)
    ensures Replace(s, target, replacement) == replacement + Replace(s[|target|..], target, replacement)
  {
  }

  /** The replace of a + [c] + b, when the target starts the text before c. */
  lemma ReplaceAroundMatch(a: string, c: char, b: string, target: string, replacement: string)
    requires |target| > 0 && c !in target && StartsWith(a + [c] + b, target)
    requires |target| <= |a| ==>
      Replace(a[|target|..] + [c] + b, target, replacement)
      == Replace(a[|target|..], target, replacement) + [c] + Replace(b, target, replacement)
    ensures |target| <= |a|
    ensures Replace(a + [c] + b, target, replacement)
         == Replace(a, target, replacement) + [c] + Replace(b, target, replacement)
  {
    var n := |target|;
    var cb := [c] + b;
    var s := a + cb;
    Assoc(a, c, b);
    assert n <= |a| by {
      assert forall i :: 0 <= i < n ==> s[i] == target[i] != c;
      assert s[|a|] == c;
    }
    SliceConcat(a, cb, n);
    ReplaceMatchAt(s, target, replacement);
    ReplaceMatchAt(a, target, replacement);
    Assoc(a[n..], c, b);
    Regroup(replacement, Replace(a[n..], target, replacement), c, Replace(b, target, replacement));
  }

  /** The replace of a + [c] + b, when the target does not start it. */
  lemma ReplaceAroundCopy(a: string, c: char, b: string, target: string, replacement: string)
    requires |target| > 0 && a != [] && !StartsWith(a + [c] + b, target)
    requires Replace(a[1..] + [c] + b, target, replacement)
          == Replace(a[1..], target, replacement) + [c] + Replace(b, target, replacement)
    ensures Replace(a + [c] + b, target, replacement)
         == Replace(a, target, replacement) + [c] + Replace(b, target, replacement)
  {
    var cb := [c] + b;
    var s := a + cb;
    Assoc(a, c, b);
    NotStartsWithPrefix(a, cb, target);
    ConsConcat(a, cb);
    ReplaceCopy(s, target, replacement);
    ReplaceCopy(a, target, replacement);
    Assoc(a[1..], c, b);
    Regroup([a[0]], Replace(a[1..], target, replacement), c, Replace(b, target, replacement));
  }

  /** Replacing distributes over a separator character the target does not contain. */
  lemma {:induction false} ReplaceAround(a: string, c: char, b: string, target: string, replacement: string)
    requires |target| > 0 && c !in target
    ensures Replace(a + [c] + b, target, replacement)
         == Replace(a, target, replacement) + [c] + Replace(b, target, replacement)
    decreases |a|
  {
    if a == [] {
      assert a + [c] + b == [c] + b;
      ReplaceSkip([c], b, target, replacement);
    } else if StartsWith(a + [c] + b, target) {
      if |target| <= |a| {
        ReplaceAround(a[|target|..], c, b, target, replacement);
      }
      ReplaceAroundMatch(a, c, b, target, replacement);
    } else {
      ReplaceAround(a[1..], c, b, target, replacement);
      ReplaceAroundCopy(a, c, b, target, replacement);
    }
  }

  /** A character the target does not contain survives replacing. */
  lemma {:induction false} ReplaceKeeps(s: string, target: string, replacement: string, c: char)
    requires |target| > 0 && c in s && c !in target
    ensures c in Replace(s, target, replacement)
    decreases |s|
  {
    var k :| 0 <= k < |s| && s[k] == c;
    if StartsWith(s, target) {
      assert forall i :: 0 <= i < |target| ==> s[i] == target[i] != c;
      assert s[|target|..][k - |target|] == c;
      ReplaceKeeps(s[|target|..], target, replacement, c);
    } else if k > 0 {
      assert s[1..][k - 1] == c;
      ReplaceKeeps(s[1..], target, replacement, c);
    }
  }

  /** A character in neither the input nor the replacement is absent from the result. */
  lemma {:induction false} ReplaceAvoids(s: string, target: string, replacement: string, c: char)
    requires c !in s && c !in replacement
    ensures c !in Replace(s, target, replacement)
    decreases |s|
  {
    if s != [] {
      if |target| == 0 {
        ReplaceAvoids(s[1..], target, replacement, c);
      } else if StartsWith(s, target) {
        ReplaceAvoids(s[|target|..], target, replacement, c);
      } else {
        ReplaceAvoids(s[1..], target, replacement, c);
      }
    }
  }

  /** A string in which the target's first character does not occur is left as it is. */
  lemma ReplaceAbsent(s: string, target: string, replacement: string)
    requires |target| > 0 && target[0] !in s
    ensures Replace(s, target, replacement) == s
  {
    ReplaceSkip(s, [], target, replacement);
    assert s + [] == s;
  }

  /** t occurs nowhere in s. */
  predicate NoOccurrence(s: string, t: string) {
    forall i :: 0 <= i < |s| ==> !StartsWith(s[i..], t)
  }

  /** A string in which the target occurs nowhere is left as it is. */
  lemma {:induction false} ReplaceNone(s: string, target: string, replacement: string)
    requires |target| > 0 && NoOccurrence(s, target)
    ensures Replace(s, target, replacement) == s
    decreases |s|
  {
    if s != [] {
      assert s[0..] == s;
      ReplaceCopy(s, target, replacement);
      forall i | 0 <= i < |s[1..]| ensures !StartsWith(s[1..][i..], target) {
        assert s[1..][i..] == s[i + 1..];
      }
      ReplaceNone(s[1..], target, replacement);
      assert [s[0]] + s[1..] == s;
    }
  }

  /** The first occurrence of the target is replaced, the text before it is
      copied, and the scan goes on after it: when no occurrence starts
      inside a, a + target + b becomes a + replacement + the replace of b. */
  lemma {:induction false} ReplaceFirst(a: string, target: string, b: string, replacement: string)
    requires |target| > 0
    requires forall i :: 0 <= i < |a| ==> !StartsWith(a[i..] + (target + b), target)
    ensures Replace(a + (target + b), target, replacement) == a + (replacement + Replace(b, target, replacement))
    decreases |a|
  {
    var u := target + b;
    if a == [] {
      assert a + u == u;
      ReplaceMatch(target, b, replacement);
    } else {
      assert a[0..] == a;
      ConsConcat(a, u);
      ReplaceCopy(a + u, target, replacement);
      forall i | 0 <= i < |a[1..]| ensures !StartsWith(a[1..][i..] + u, target) {
        assert a[1..][i..] == a[i + 1..];
      }
      ReplaceFirst(a[1..], target, b, replacement);
      ConsConcat(a, replacement + Replace(b, target, replacement));
    }
  }

  // ---------------------------------------------------------------------
  // String.trim()
  // ---------------------------------------------------------------------

  /** s without its leading blank characters. */
  function TrimStart(s: string): (r: string)
    ensures |r| <= |s| && r == s[|s| - |r|..]
    ensures forall k :: 0 <= k < |s| - |r| ==> Blank(s[k])
    ensures r != [] ==> !Blank(r[0])
    decreases |s|
  {
    if s != [] && Blank(s[0]) then TrimStart(s[1..]) else s
  }

  /** s without its trailing blank characters. */
  function TrimEnd(s: string): (r: string)
    ensures |r| <= |s| && r == s[..|r|]
    ensures forall k :: |r| <= k < |s| ==> Blank(s[k])
    ensures r != [] ==> !Blank(r[|r| - 1])
    decreases |s|
  {
    if s != [] && Blank(s[|s| - 1]) then TrimEnd(s[..|s| - 1]) else s
  }

  /** No blank character at either end of s. */
  predicate Trimmed(s: string) {
    s == [] || (!Blank(s[0]) && !Blank(s[|s| - 1]))
  }

  /** String.trim: strips blank characters from both ends. */
  function Trim(s: string): (r: string)
    ensures r == [] <==> !HasVisible(s)
    ensures Trimmed(r)
  {
    TrimBothEnds(s);
    TrimEnd(TrimStart(s))
  }

  /** A string whose ends are not blank is left as it is. */
  lemma TrimTrimmed(s: string)
    requires Trimmed(s)
    ensures Trim(s) == s
  {
  }

  lemma TrimBothEnds(s: string)
    ensures TrimEnd(TrimStart(s)) == [] <==> !HasVisible(s)
    ensures Trimmed(TrimEnd(TrimStart(s)))
  {
    var t := TrimStart(s);
    var r := TrimEnd(t);
    if HasVisible(s) {
      TrimStartKeepsVisible(s);
      TrimEndVisible(t);
    }
    if r != [] {
      assert r[0] == t[0] == s[|s| - |t|];
    }
  }

  lemma {:induction false} TrimStartBlankPrefix(a: string, b: string)
    requires !HasVisible(a)
    ensures TrimStart(a + b) == TrimStart(b)
    decreases |a|
  {
    if a == [] {
      assert a + b == b;
    } else {
      assert !Blank(a[0]) ==> HasVisible(a);
      assert (a + b)[1..] == a[1..] + b;
      assert !HasVisible(a[1..]) by {
        forall k | 0 <= k < |a| - 1 ensures Blank(a[1..][k]) {
          assert a[1..][k] == a[k + 1];
        }
      }
      TrimStartBlankPrefix(a[1..], b);
    }
  }

  lemma {:induction false} TrimStartVisiblePrefix(a: string, b: string)
    requires HasVisible(a)
    ensures TrimStart(a + b) == TrimStart(a) + b
    decreases |a|
  {
    if Blank(a[0]) {
      assert (a + b)[1..] == a[1..] + b;
      assert HasVisible(a[1..]) by {
        var k :| 0 <= k < |a| && !Blank(a[k]);
        assert k > 0 && !Blank(a[1..][k - 1]);
      }
      TrimStartVisiblePrefix(a[1..], b);
    }
  }

  lemma {:induction false} TrimEndVisibleSuffix(a: string, b: string)
    requires HasVisible(b)
    ensures TrimEnd(a + b) == a + TrimEnd(b)
    decreases |b|
  {
    var n := |b|;
    if Blank(b[n - 1]) {
      assert (a + b)[..|a + b| - 1] == a + b[..n - 1];
      assert HasVisible(b[..n - 1]) by {
        var k :| 0 <= k < n && !Blank(b[k]);
        assert k < n - 1 && !Blank(b[..n - 1][k]);
      }
      TrimEndVisibleSuffix(a, b[..n - 1]);
    }
  }

  lemma TrimStartKeepsVisible(s: string)
    requires HasVisible(s)
    ensures HasVisible(TrimStart(s))
  {
    var k :| 0 <= k < |s| && !Blank(s[k]);
    var r := TrimStart(s);
    assert k >= |s| - |r|;
    assert !Blank(r[k - (|s| - |r|)]);
  }

  lemma TrimEndVisible(s: string)
    requires HasVisible(s)
    ensures TrimEnd(s) != []
  {
    var k :| 0 <= k < |s| && !Blank(s[k]);
    assert k < |TrimEnd(s)|;
  }

  lemma TrimStartShape(s: string, c: char)
    requires c !in s
    ensures c !in TrimStart(s)
  {
    var t := TrimStart(s);
    assert forall i :: 0 <= i < |t| ==> t[i] == s[|s| - |t| + i];
  }

  lemma TrimEndShape(s: string, c: char)
    requires c !in s
    ensures c !in TrimEnd(s)
  {
    var t := TrimEnd(s);
    assert forall i :: 0 <= i < |t| ==> t[i] == s[i];
  }

  lemma HasVisibleAfter(a: string, b: string)
    requires HasVisible(b)
    ensures HasVisible(a + b)
  {
    var k :| 0 <= k < |b| && !Blank(b[k]);
    assert (a + b)[|a| + k] == b[k];
  }

  // ---------------------------------------------------------------------
  // Contiguous parts
  // ---------------------------------------------------------------------

  /** t is a contiguous part of s. */
  predicate IsSlice(t: string, s: string) {
    exists a, b :: 0 <= a <= b <= |s| && t == s[a..b]
  }

  /** A slice of a slice is a slice of the whole. */
  lemma SliceSlice<T>(s: seq<T>, c: nat, d: nat, a: nat, b: nat)
    requires c <= d <= |s| && a <= b <= d - c
    ensures s[c..d][a..b] == s[c + a..c + b]
  {
    var u := s[c..d];
    assert forall i :: 0 <= i < b - a ==> u[a..b][i] == u[a + i] == s[c + a + i];
  }

  lemma SuffixSlice(t: string, s: string, j: nat)
    requires j <= |s| && IsSlice(t, s[j..])
    ensures IsSlice(t, s)
  {
    var a, b :| 0 <= a <= b <= |s[j..]| && t == s[j..][a..b];
    assert s[j..] == s[j..|s|];
    SliceSlice(s, j, |s|, a, b);
  }

  lemma TrimIsSlice(s: string)
    ensures IsSlice(Trim(s), s)
  {
    var t := TrimStart(s);
    var r := TrimEnd(t);
    var c := |s| - |t|;
    assert t == s[c..|s|];
    assert r == t[0..|r|];
    SliceSlice(s, c, |s|, 0, |r|);
  }
}
