/** Words joined by single spaces: the shape of a rendered template line,
    and what replacing, trimming and splitting do to it. */
module Words {
  import opened JavaString
  import opened JavaSplit

  /** k space characters. */
  function Spaces(k: nat): (r: string)
    ensures |r| == k && forall i :: 0 <= i < k ==> r[i] == ' '
  {
    seq(k, _ => ' ')
  }

  /** The words separated by single spaces. */
  function JoinWords(ws: seq<string>): string {
    if |ws| == 0 then []
    else if |ws| == 1 then ws[0]
    else ws[0] + " " + JoinWords(ws[1..])
  }

  lemma {:induction false} JoinWordsStarts(ws: seq<string>)
    requires |ws| >= 1 && ws[0] != []
    ensures JoinWords(ws) != [] && JoinWords(ws)[0] == ws[0][0]
  {
  }

  lemma {:induction false} JoinWordsEnds(ws: seq<string>)
    requires |ws| >= 1 && ws[|ws| - 1] != []
    ensures JoinWords(ws) != [] && JoinWords(ws)[|JoinWords(ws)| - 1] == ws[|ws| - 1][|ws[|ws| - 1]| - 1]
  {
    if |ws| > 1 {
      JoinWordsEnds(ws[1..]);
    }
  }

  lemma JoinWordsSpace(ws: seq<string>)
    requires |ws| > 1
    ensures ' ' in JoinWords(ws)
  {
    assert JoinWords(ws)[|ws[0]|] == ' ';
  }

  lemma {:induction false} JoinWordsKeeps(ss: seq<string>, i: nat, j: nat)
    requires i < |ss| && j < |ss[i]|
    ensures ss[i][j] in JoinWords(ss)
    decreases |ss|
  {
    if i == 0 {
      assert JoinWords(ss)[j] == ss[0][j];
    } else {
      JoinWordsKeeps(ss[1..], i - 1, j);
      assert JoinWords(ss) == ss[0] + " " + JoinWords(ss[1..]);
    }
  }

  lemma {:induction false} JoinWordsAvoids(ss: seq<string>, c: char)
    requires c != ' ' && forall k :: 0 <= k < |ss| ==> c !in ss[k]
    ensures c !in JoinWords(ss)
    decreases |ss|
  {
    if |ss| > 1 {
      JoinWordsAvoids(ss[1..], c);
    }
  }

  lemma {:induction false} JoinWordsSnoc(ss: seq<string>)
    requires |ss| >= 2
    ensures JoinWords(ss) == JoinWords(ss[..|ss| - 1]) + " " + ss[|ss| - 1]
    decreases |ss|
  {
    if |ss| > 2 {
      JoinWordsSnoc(ss[1..]);
      assert ss[1..][..|ss| - 2] == ss[..|ss| - 1][1..];
    }
  }

  lemma JoinWordsCons(x: string, ys: seq<string>)
    requires |ys| >= 1
    ensures JoinWords([x] + ys) == x + " " + JoinWords(ys)
  {
    assert ([x] + ys)[1..] == ys;
  }

  lemma SpacesInvisible(k: nat)
    ensures !HasVisible(Spaces(k))
  {
  }

  lemma JoinWordsVisible(ys: seq<string>)
    requires |ys| >= 1 && HasVisible(ys[|ys| - 1])
    ensures HasVisible(JoinWords(ys))
  {
    if |ys| >= 2 {
      JoinWordsSnoc(ys);
      HasVisibleAfter(JoinWords(ys[..|ys| - 1]) + " ", ys[|ys| - 1]);
    }
  }

  // ---------------------------------------------------------------------
  // Splitting joined words
  // ---------------------------------------------------------------------

  lemma {:induction false} FieldsOfJoinWords(ws: seq<string>)
    requires |ws| >= 1
    requires forall k :: 0 <= k < |ws| ==> ws[k] != [] && ' ' !in ws[k]
    ensures Fields(JoinWords(ws), ' ', true) == ws
  {
    if |ws| == 1 {
      FieldsNone(ws[0], ' ', true);
    } else {
      var rest := ws[1..];
      JoinWordsStarts(rest);
      assert JoinWords(ws) == ws[0] + [' '] + JoinWords(rest);
      FieldsStep(ws[0], ' ', JoinWords(rest), true);
      FieldsOfJoinWords(rest);
      assert ws == [ws[0]] + rest;
    }
  }

  /** Splitting words joined by single spaces on " +" gives the words back. */
  lemma SplitOnSpacesOfJoinWords(ws: seq<string>)
    requires |ws| >= 1
    requires forall k :: 0 <= k < |ws| ==> ws[k] != [] && ' ' !in ws[k]
    ensures SplitOnSpaces(JoinWords(ws)) == ws
  {
    if |ws| > 1 {
      FieldsOfJoinWords(ws);
      JoinWordsSpace(ws);
      assert ws[|ws| - 1] != [];
    }
  }

  // ---------------------------------------------------------------------
  // Trimming joined words
  // ---------------------------------------------------------------------

  /** The words with the trailing blanks of the last one removed. */
  function TrimLastWord(ys: seq<string>): (r: seq<string>)
    requires |ys| >= 1
    ensures |r| == |ys|
  {
    ys[..|ys| - 1] + [TrimEnd(ys[|ys| - 1])]
  }

  /** The words once trimmed: the first loses its leading blanks and the
      last its trailing ones. */
  function TrimWords(ss: seq<string>): (r: seq<string>)
    requires |ss| >= 1
    ensures |r| == |ss|
  {
    if |ss| == 1 then [Trim(ss[0])] else [TrimStart(ss[0])] + TrimLastWord(ss[1..])
  }

  lemma TrimWordsAt(ss: seq<string>, k: nat)
    requires k < |ss|
    ensures TrimWords(ss)[k] == if |ss| == 1 then Trim(ss[0])
                                else if k == 0 then TrimStart(ss[0])
                                else if k == |ss| - 1 then TrimEnd(ss[k])
                                else ss[k]
  {
    if |ss| > 1 && k > 0 {
      var ys := ss[1..];
      assert TrimWords(ss)[k] == TrimLastWord(ys)[k - 1];
      if k < |ss| - 1 {
        assert TrimLastWord(ys)[k - 1] == ys[..|ys| - 1][k - 1];
      }
    }
  }

  /** Trimming space-free words that each hold a visible character, joined by
      single spaces, leaves every word non-empty and space-free. */
  lemma TrimWordsShape(ss: seq<string>)
    requires |ss| >= 1
    requires forall k :: 0 <= k < |ss| ==> ' ' !in ss[k] && HasVisible(ss[k])
    ensures forall k :: 0 <= k < |ss| ==> TrimWords(ss)[k] != [] && ' ' !in TrimWords(ss)[k]
  {
    var r := TrimWords(ss);
    var n := |ss|;
    forall k | 0 <= k < n ensures r[k] != [] && ' ' !in r[k] {
      TrimWordsAt(ss, k);
      TrimStartKeepsVisible(ss[k]);
      TrimStartShape(ss[k], ' ');
      TrimEndShape(ss[k], ' ');
      TrimEndShape(TrimStart(ss[k]), ' ');
      TrimEndVisible(ss[k]);
    }
  }

  /** Words without blank characters are what trimming leaves them. */
  lemma TrimWordsVisible(ss: seq<string>)
    requires |ss| >= 1
    requires forall k :: 0 <= k < |ss| ==> ss[k] != [] && !Blank(ss[k][0]) && !Blank(ss[k][|ss[k]| - 1])
    ensures TrimWords(ss) == ss
  {
    forall k | 0 <= k < |ss| ensures TrimWords(ss)[k] == ss[k] {
      TrimWordsAt(ss, k);
      assert TrimStart(ss[k]) == ss[k];
      assert TrimEnd(ss[k]) == ss[k];
    }
  }

  /** Words that keep a visible character trim at their first word only. */
  lemma TrimStartJoin(pre: string, ss: seq<string>)
    requires !HasVisible(pre)
    requires |ss| >= 2 && HasVisible(ss[0])
    ensures TrimStart(pre + JoinWords(ss)) == TrimStart(ss[0]) + " " + JoinWords(ss[1..])
  {
    var j := JoinWords(ss);
    var tail := " " + JoinWords(ss[1..]);
    assert j == ss[0] + tail;
    TrimStartVisiblePrefix(ss[0], tail);
    TrimStartBlankPrefix(pre, ss[0] + tail);
  }

  lemma TrimEndJoin(ys: seq<string>)
    requires |ys| >= 1 && HasVisible(ys[|ys| - 1])
    ensures TrimEnd(JoinWords(ys)) == JoinWords(TrimLastWord(ys))
  {
    var n := |ys|;
    var r := TrimLastWord(ys);
    if n == 1 {
      assert TrimEnd([] + ys[0]) == [] + TrimEnd(ys[0]) by {
        TrimEndVisibleSuffix([], ys[0]);
      }
      assert [] + ys[0] == ys[0];
      assert [] + TrimEnd(ys[0]) == TrimEnd(ys[0]);
    } else {
      JoinWordsSnoc(ys);
      JoinWordsSnoc(r);
      assert r[..n - 1] == ys[..n - 1];
      TrimEndVisibleSuffix(JoinWords(ys[..n - 1]) + " ", ys[n - 1]);
    }
  }

  lemma TrimJoin(k: nat, ss: seq<string>)
    requires |ss| >= 1
    requires forall i :: 0 <= i < |ss| ==> HasVisible(ss[i])
    ensures Trim(Spaces(k) + JoinWords(ss)) == JoinWords(TrimWords(ss))
  {
    var n := |ss|;
    SpacesInvisible(k);
    if n == 1 {
      TrimStartBlankPrefix(Spaces(k), ss[0]);
    } else {
      TrimStartJoin(Spaces(k), ss);
      var x := TrimStart(ss[0]);
      var ys := ss[1..];
      assert HasVisible(ys[|ys| - 1]);
      TrimEndJoin(ys);
      JoinWordsVisible(ys);
      TrimEndVisibleSuffix(x + " ", JoinWords(ys));
      JoinWordsCons(x, TrimLastWord(ys));
      assert Trim(Spaces(k) + JoinWords(ss)) == TrimEnd(x + " " + JoinWords(ys));
    }
  }
}
