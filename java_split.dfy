/** String.split as the command-line builders call it: on "\n" and on the
    regular expression " +", both with limit 0. */
module JavaSplit {
  import opened JavaString

  /** The first field of f with c put in front of it. */
  function Prepend(c: char, f: seq<string>): (r: seq<string>)
    requires |f| >= 1
    ensures |r| == |f| && r[0] == [c] + f[0] && r[1..] == f[1..]
  {
    [[c] + f[0]] + f[1..]
  }

  /** The pieces of s between separators, the trailing empty piece included.
      A separator is one sep character or, when merge holds, a maximal run of
      them (the regular expression "sep+"). A leading separator leaves an
      empty first piece, as String.split does for a match of non-zero width. */
  function Fields(s: string, sep: char, merge: bool): (r: seq<string>)
    ensures |r| >= 1
    decreases |s|
  {
    if s == [] then [[]]
    else if s[0] != sep then Prepend(s[0], Fields(s[1..], sep, merge))
    else if merge && |s| > 1 && s[1] == sep then Fields(s[1..], sep, merge)
    else [[]] + Fields(s[1..], sep, merge)
  }

  /** ps without its trailing empty strings, as split with limit 0 returns it. */
  function DropTrailingEmpty(ps: seq<string>): (r: seq<string>)
    ensures r <= ps
    ensures r == [] || r[|r| - 1] != []
    ensures forall k :: |r| <= k < |ps| ==> ps[k] == []
  {
    if ps == [] || ps[|ps| - 1] != [] then ps else DropTrailingEmpty(ps[..|ps| - 1])
  }

  /** String.split with limit 0: the whole string when no separator occurs,
      otherwise the fields without the trailing empty ones. */
  function Split(s: string, sep: char, merge: bool): (r: seq<string>)
    ensures forall k :: 0 <= k < |r| ==> sep !in r[k]
  {
    if sep !in s then [s]
    else
      FieldsAvoid(s, sep, merge);
      DropTrailingEmpty(Fields(s, sep, merge))
  }

  /** s.split("\n") */
  function SplitLines(s: string): seq<string> {
    Split(s, '\n', false)
  }

  /** s.split(" +") */
  function SplitOnSpaces(s: string): (r: seq<string>)
    ensures forall k :: 0 <= k < |r| ==> ' ' !in r[k]
    ensures s != [] && s[0] != ' ' && s[|s| - 1] != ' ' ==>
              |r| >= 1 && forall k :: 0 <= k < |r| ==> r[k] != []
  {
    var r := Split(s, ' ', true);
    assert s != [] && s[0] != ' ' && s[|s| - 1] != ' ' ==>
             |r| >= 1 && forall k :: 0 <= k < |r| ==> r[k] != [] by {
      if s != [] && s[0] != ' ' && s[|s| - 1] != ' ' && ' ' in s {
        FieldsOfUnpadded(s);
        DropNothing(Fields(s, ' ', true));
      }
    }
    r
  }

  /** Every line followed by a newline character: the text a Java text block
      denotes when its closing delimiter stands on a line of its own. */
  function Terminated(lines: seq<string>): string {
    if lines == [] then [] else lines[0] + "\n" + Terminated(lines[1..])
  }

  /** The strings one after the other. */
  function Concat(ss: seq<string>): string {
    if ss == [] then [] else ss[0] + Concat(ss[1..])
  }

  /** s with every c removed. */
  function Without(s: string, c: char): (r: string)
    ensures c !in r
  {
    if s == [] then [] else (if s[0] == c then [] else [s[0]]) + Without(s[1..], c)
  }

  // ---------------------------------------------------------------------
  // The fields
  // ---------------------------------------------------------------------

  lemma AvoidCons(x: string, rest: seq<string>, c: char)
    requires c !in x && forall k :: 0 <= k < |rest| ==> c !in rest[k]
    ensures forall k :: 0 <= k < |[x] + rest| ==> c !in ([x] + rest)[k]
  {
  }

  lemma AvoidPrepend(d: char, f: seq<string>, c: char)
    requires |f| >= 1 && d != c && forall k :: 0 <= k < |f| ==> c !in f[k]
    ensures forall k :: 0 <= k < |Prepend(d, f)| ==> c !in Prepend(d, f)[k]
  {
    var r := Prepend(d, f);
    forall k | 0 <= k < |r| ensures c !in r[k] {
      if k > 0 {
        assert r[k] == f[k];
      }
    }
  }

  /** No field holds the separator. */
  lemma {:induction false} FieldsAvoid(s: string, sep: char, merge: bool)
    ensures forall k :: 0 <= k < |Fields(s, sep, merge)| ==> sep !in Fields(s, sep, merge)[k]
    decreases |s|
  {
    if s != [] {
      FieldsAvoid(s[1..], sep, merge);
      if s[0] != sep {
        AvoidPrepend(s[0], Fields(s[1..], sep, merge), sep);
      } else if !(merge && |s| > 1 && s[1] == sep) {
        AvoidCons([], Fields(s[1..], sep, merge), sep);
      }
    }
  }

  /** Without a separator, s is its only field. */
  lemma {:induction false} FieldsNone(s: string, sep: char, merge: bool)
    requires sep !in s
    ensures Fields(s, sep, merge) == [s]
    decreases |s|
  {
    if s != [] {
      FieldsNone(s[1..], sep, merge);
      assert [s[0]] + s[1..] == s;
    }
  }

  /** A field ended by one separator, not followed by another when runs
      merge, comes off the front. */
  lemma {:induction false} FieldsStep(a: string, c: char, b: string, merge: bool)
    requires c !in a
    requires merge ==> b == [] || b[0] != c
    ensures Fields(a + [c] + b, c, merge) == [a] + Fields(b, c, merge)
    decreases |a|
  {
    var s := a + [c] + b;
    if a == [] {
      assert s == [c] + b;
      assert s[1..] == b;
    } else {
      assert s[0] == a[0] && s[1..] == a[1..] + [c] + b;
      FieldsStep(a[1..], c, b, merge);
      assert [a[0]] + a[1..] == a;
    }
  }

  /** A leading run of separators, merged, leaves one empty field in front. */
  lemma {:induction false} FieldsLeadingRun(n: nat, c: char, b: string)
    requires n >= 1 && (b == [] || b[0] != c)
    ensures Fields(seq(n, _ => c) + b, c, true) == [[]] + Fields(b, c, true)
    decreases n
  {
    var s := seq(n, _ => c) + b;
    assert s[0] == c;
    if n == 1 {
      assert s == [c] + b && s[1..] == b;
    } else {
      assert s[1] == c;
      assert s[1..] == seq(n - 1, _ => c) + b;
      FieldsLeadingRun(n - 1, c, b);
    }
  }

  /** With runs merged, a field ended by a run of any positive length of
      separators comes off the front, as one field: the whole run is one
      separator. */
  lemma {:induction false} FieldsRun(a: string, c: char, n: nat, b: string)
    requires c !in a && n >= 1 && (b == [] || b[0] != c)
    ensures Fields(a + seq(n, _ => c) + b, c, true) == [a] + Fields(b, c, true)
    decreases |a|
  {
    var s := a + seq(n, _ => c) + b;
    if a == [] {
      assert s == seq(n, _ => c) + b;
      FieldsLeadingRun(n, c, b);
    } else {
      assert s[0] == a[0] && s[1..] == a[1..] + seq(n, _ => c) + b;
      FieldsRun(a[1..], c, n, b);
      assert [a[0]] + a[1..] == a;
    }
  }

  /** The first field is empty exactly when s is empty or starts with a
      separator. */
  lemma {:induction false} FieldsHead(s: string, sep: char, merge: bool)
    ensures Fields(s, sep, merge)[0] == [] <==> s == [] || s[0] == sep
    decreases |s|
  {
    if s != [] && s[0] == sep && merge && |s| > 1 && s[1] == sep {
      FieldsHead(s[1..], sep, merge);
    }
  }

  /** When s does not end with a separator (merged runs), every field after
      the first is non-empty. */
  lemma {:induction false} FieldsTail(s: string, sep: char)
    requires s == [] || s[|s| - 1] != sep
    ensures forall k :: 1 <= k < |Fields(s, sep, true)| ==> Fields(s, sep, true)[k] != []
    decreases |s|
  {
    if s != [] {
      var f := Fields(s[1..], sep, true);
      FieldsTail(s[1..], sep);
      if s[0] != sep {
        var r := Prepend(s[0], f);
        forall k | 1 <= k < |r| ensures r[k] != [] {
          assert r[k] == f[k];
        }
      } else if !(|s| > 1 && s[1] == sep) {
        FieldsHead(s[1..], sep, true);
        var r := [[]] + f;
        forall k | 1 <= k < |r| ensures r[k] != [] {
          assert r[k] == f[k - 1];
        }
      }
    }
  }

  /** A string with no space at either end splits into non-empty fields. */
  lemma FieldsOfUnpadded(s: string)
    requires s != [] && s[0] != ' ' && s[|s| - 1] != ' '
    ensures forall k :: 0 <= k < |Fields(s, ' ', true)| ==> Fields(s, ' ', true)[k] != []
  {
    FieldsHead(s, ' ', true);
    FieldsTail(s, ' ');
  }

  /** Nothing to drop when the last string is non-empty. */
  lemma DropNothing(ps: seq<string>)
    requires forall k :: 0 <= k < |ps| ==> ps[k] != []
    ensures DropTrailingEmpty(ps) == ps
  {
  }

  lemma DropTrailingEmptyIgnoresEmpty(ps: seq<string>)
    ensures DropTrailingEmpty(ps + [[]]) == DropTrailingEmpty(ps)
  {
    assert (ps + [[]])[..|ps|] == ps;
  }

  lemma ConsSnoc<T>(xs: seq<T>, y: T)
    requires xs != []
    ensures xs + [y] == [xs[0]] + (xs[1..] + [y])
  {
  }

  lemma {:induction false} FieldsOfTerminated(lines: seq<string>)
    requires forall k :: 0 <= k < |lines| ==> '\n' !in lines[k]
    ensures Fields(Terminated(lines), '\n', false) == lines + [[]]
  {
    if lines != [] {
      var rest := lines[1..];
      calc {
        Fields(Terminated(lines), '\n', false);
        Fields(lines[0] + ['\n'] + Terminated(rest), '\n', false);
        { FieldsStep(lines[0], '\n', Terminated(rest), false); }
        [lines[0]] + Fields(Terminated(rest), '\n', false);
        { FieldsOfTerminated(rest); }
        [lines[0]] + (rest + [[]]);
        { ConsSnoc(lines, []); }
        lines + [[]];
      }
    }
  }

  /** Splitting newline-terminated lines on "\n" gives the lines back, less
      the trailing empty ones. */
  lemma SplitLinesOfTerminated(lines: seq<string>)
    requires |lines| > 0
    requires forall k :: 0 <= k < |lines| ==> '\n' !in lines[k]
    ensures SplitLines(Terminated(lines)) == DropTrailingEmpty(lines)
  {
    var s := Terminated(lines);
    assert s[|lines[0]|] == '\n';
    FieldsOfTerminated(lines);
    DropTrailingEmptyIgnoresEmpty(lines);
  }

  // ---------------------------------------------------------------------
  // Order: the fields put back together
  // ---------------------------------------------------------------------

  lemma ConcatCons(x: string, ys: seq<string>)
    ensures Concat([x] + ys) == x + Concat(ys)
  {
    assert ([x] + ys)[1..] == ys;
  }

  lemma ConcatPrepend(c: char, f: seq<string>)
    requires |f| >= 1
    ensures Concat(Prepend(c, f)) == [c] + Concat(f)
  {
    var x, ys := f[0], f[1..];
    assert f == [x] + ys;
    calc {
      Concat(Prepend(c, f));
      Concat([[c] + x] + ys);
      { ConcatCons([c] + x, ys); }
      ([c] + x) + Concat(ys);
      { Assoc3([c], x, Concat(ys)); }
      [c] + (x + Concat(ys));
      { ConcatCons(x, ys); }
      [c] + Concat(f);
    }
  }

  lemma Assoc3<T>(a: seq<T>, b: seq<T>, c: seq<T>)
    ensures (a + b) + c == a + (b + c)
  {
  }

  lemma {:induction false} ConcatAppend(a: seq<string>, b: seq<string>)
    ensures Concat(a + b) == Concat(a) + Concat(b)
  {
    if a != [] {
      assert (a + b)[1..] == a[1..] + b;
      ConcatAppend(a[1..], b);
    } else {
      assert a + b == b;
    }
  }

  lemma {:induction false} WithoutAppend(a: string, b: string, c: char)
    ensures Without(a + b, c) == Without(a, c) + Without(b, c)
  {
    if a != [] {
      assert (a + b)[1..] == a[1..] + b;
      WithoutAppend(a[1..], b, c);
    } else {
      assert a + b == b;
    }
  }

  lemma {:induction false} WithoutAbsent(s: string, c: char)
    requires c !in s
    ensures Without(s, c) == s
  {
    if s != [] {
      WithoutAbsent(s[1..], c);
    }
  }

  /** The fields put back together are s without its separators. */
  lemma {:induction false} ConcatFields(s: string, sep: char, merge: bool)
    ensures Concat(Fields(s, sep, merge)) == Without(s, sep)
    decreases |s|
  {
    if s != [] {
      ConcatFields(s[1..], sep, merge);
      if s[0] != sep {
        ConcatPrepend(s[0], Fields(s[1..], sep, merge));
      } else if !(merge && |s| > 1 && s[1] == sep) {
        ConcatCons([], Fields(s[1..], sep, merge));
      }
    }
  }

  lemma {:induction false} ConcatDropTrailingEmpty(ps: seq<string>)
    ensures Concat(DropTrailingEmpty(ps)) == Concat(ps)
    decreases |ps|
  {
    if ps != [] && ps[|ps| - 1] == [] {
      var init := ps[..|ps| - 1];
      assert ps == init + [[]];
      ConcatAppend(init, [[]]);
      ConcatDropTrailingEmpty(init);
    }
  }

  /** Splitting on " +" keeps every other character, in order: the pieces
      put back together are s without its spaces. */
  lemma SplitOnSpacesKeepsOrder(s: string)
    ensures Concat(SplitOnSpaces(s)) == Without(s, ' ')
  {
    if ' ' !in s {
      WithoutAbsent(s, ' ');
      ConcatCons(s, []);
    } else {
      ConcatDropTrailingEmpty(Fields(s, ' ', true));
      ConcatFields(s, ' ', true);
    }
  }

  // ---------------------------------------------------------------------
  // Every field is a contiguous part of s
  // ---------------------------------------------------------------------

  lemma PrefixSlice(t: string, s: string)
    requires t <= s
    ensures IsSlice(t, s)
  {
    assert t == s[0..|t|];
  }

  lemma ConsPrefix(c: char, t: string, s: string)
    requires s != [] && s[0] == c && t <= s[1..]
    ensures [c] + t <= s
  {
    assert forall i :: 0 <= i < |t| ==> ([c] + t)[i + 1] == t[i] == s[1..][i] == s[i + 1];
  }

  /** The first field is a prefix of s, every other one a slice of it. */
  lemma {:induction false} FieldsSlices(s: string, sep: char, merge: bool)
    ensures Fields(s, sep, merge)[0] <= s
    ensures forall k :: 0 <= k < |Fields(s, sep, merge)| ==> IsSlice(Fields(s, sep, merge)[k], s)
    decreases |s|
  {
    var r := Fields(s, sep, merge);
    if s == [] {
      PrefixSlice([], []);
    } else {
      var f := Fields(s[1..], sep, merge);
      FieldsSlices(s[1..], sep, merge);
      FieldsHead(s, sep, merge);
      if s[0] != sep {
        ConsPrefix(s[0], f[0], s);
      }
      forall k | 0 <= k < |r| ensures IsSlice(r[k], s) {
        if k == 0 {
          PrefixSlice(r[0], s);
        } else if s[0] != sep {
          assert r[k] == f[k];
          SuffixSlice(r[k], s, 1);
        } else if merge && |s| > 1 && s[1] == sep {
          SuffixSlice(r[k], s, 1);
        } else {
          assert r[k] == f[k - 1];
          SuffixSlice(r[k], s, 1);
        }
      }
    }
  }

  /** Every token split off s is a contiguous part of s. */
  lemma SplitOnSpacesSlices(s: string)
    ensures forall k :: 0 <= k < |SplitOnSpaces(s)| ==> IsSlice(SplitOnSpaces(s)[k], s)
  {
    if ' ' in s {
      FieldsSlices(s, ' ', true);
    } else {
      PrefixSlice(s, s);
    }
  }

  /** A string without a space is its own only piece. */
  lemma SplitOnSpacesNone(s: string)
    requires ' ' !in s
    ensures SplitOnSpaces(s) == [s]
  {
  }
}
