/** The stream pipeline both command-line builders run over the lines of
    their text block: fill the placeholders, trim, drop the empty lines and,
    in one of them, split each line on runs of spaces. */
module CommandLine {
  import opened JavaString
  import opened JavaSplit
  import opened Words
  import opened Template

  // ---------------------------------------------------------------------
  // The stages
  // ---------------------------------------------------------------------

  /** .map(e -> e.trim()) */
  function TrimAll(ss: seq<string>): (r: seq<string>)
    ensures |r| == |ss| && forall k :: 0 <= k < |r| ==> r[k] == Trim(ss[k])
    decreases |ss|
  {
    if ss == [] then [] else [Trim(ss[0])] + TrimAll(ss[1..])
  }

  /** .filter(e -> !e.isEmpty()) */
  function NonEmpty(ss: seq<string>): (r: seq<string>)
    ensures |r| <= |ss|
    ensures forall k :: 0 <= k < |r| ==> r[k] != [] && r[k] in ss
    ensures (forall k :: 0 <= k < |ss| ==> ss[k] != []) ==> r == ss
    ensures (forall k :: 0 <= k < |ss| ==> ss[k] == []) ==> r == []
    decreases |ss|
  {
    if ss == [] then []
    else
      var rest := NonEmpty(ss[1..]);
      assert forall k :: 0 <= k < |ss| - 1 ==> ss[1..][k] == ss[k + 1];
      if ss[0] == [] then rest else [ss[0]] + rest
  }

  /** .flatMap(e -> Stream.of(e.split(" +"))) */
  function SplitAll(ss: seq<string>): (r: seq<string>)
    ensures forall k :: 0 <= k < |r| ==> ' ' !in r[k]
    ensures (forall k :: 0 <= k < |ss| ==> ss[k] != [] && Trimmed(ss[k])) ==>
              forall k :: 0 <= k < |r| ==> r[k] != []
    decreases |ss|
  {
    if ss == [] then []
    else
      var first := SplitOnSpaces(ss[0]);
      var rest := SplitAll(ss[1..]);
      assert forall k :: 0 <= k < |ss| - 1 ==> ss[1..][k] == ss[k + 1];
      assert forall k :: 0 <= k < |first + rest| ==>
               (first + rest)[k] == if k < |first| then first[k] else rest[k - |first|];
      first + rest
  }

  /** The filter keeps a non-empty string and drops an empty one. */
  lemma NonEmptyOne(x: string)
    ensures NonEmpty([x]) == if x == [] then [] else [x]
  {
    assert [x][1..] == [];
  }

  /** The filter acts on each string on its own: what it keeps of a + b is
      what it keeps of a followed by what it keeps of b. With NonEmptyOne
      this fixes it as Java's filter: every non-empty string, in order. */
  lemma {:induction false} NonEmptyAppend(a: seq<string>, b: seq<string>)
    ensures NonEmpty(a + b) == NonEmpty(a) + NonEmpty(b)
    decreases |a|
  {
    if a == [] {
      assert a + b == b;
    } else {
      assert (a + b)[0] == a[0] && (a + b)[1..] == a[1..] + b;
      NonEmptyAppend(a[1..], b);
    }
  }

  /** Dropping the empty strings keeps every remaining one trimmed. */
  lemma NonEmptyTrimmed(ss: seq<string>)
    requires forall k :: 0 <= k < |ss| ==> Trimmed(ss[k])
    ensures forall k :: 0 <= k < |NonEmpty(ss)| ==> Trimmed(NonEmpty(ss)[k])
  {
    var r := NonEmpty(ss);
    forall k | 0 <= k < |r| ensures Trimmed(r[k]) {
      assert r[k] in ss;
    }
  }

  /** The lines with their placeholders filled, trimmed, blank ones dropped:
      the arguments one per line. */
  function Arguments(lines: seq<string>, env: Env): (r: seq<string>)
    ensures forall k :: 0 <= k < |r| ==> r[k] != [] && Trimmed(r[k])
  {
    var trimmed := TrimAll(FillAll(lines, env));
    NonEmptyTrimmed(trimmed);
    NonEmpty(trimmed)
  }

  // ---------------------------------------------------------------------
  // The pipeline line by line
  // ---------------------------------------------------------------------

  /** What the pipeline makes of one line, without the final split. */
  function LineArguments(s: string, env: Env): seq<string> {
    var t := Trim(Fill(s, env));
    if t == [] then [] else [t]
  }

  /** What the splitting pipeline makes of one line. */
  function LineTokens(s: string, env: Env): seq<string> {
    var t := Trim(Fill(s, env));
    if t == [] then [] else SplitOnSpaces(t)
  }

  /** The arguments of a template, line after line. */
  function TemplateArguments(ls: seq<Line>, env: Env): seq<string>
    decreases |ls|
  {
    if ls == [] then [] else LineArguments(RenderLine(ls[0]), env) + TemplateArguments(ls[1..], env)
  }

  /** The tokens of a template, line after line. */
  function TemplateTokens(ls: seq<Line>, env: Env): seq<string>
    decreases |ls|
  {
    if ls == [] then [] else LineTokens(RenderLine(ls[0]), env) + TemplateTokens(ls[1..], env)
  }

  // ---------------------------------------------------------------------
  // The pipeline works line by line
  // ---------------------------------------------------------------------

  lemma ArgumentsNil(env: Env)
    ensures Arguments([], env) == []
  {
  }

  lemma {:induction false} ArgumentsCons(x: string, rest: seq<string>, env: Env)
    ensures Arguments([x] + rest, env) == LineArguments(x, env) + Arguments(rest, env)
  {
    var ls := [x] + rest;
    assert ls[0] == x && ls[1..] == rest;
    var t := TrimAll(FillAll(ls, env));
    assert t[0] == Trim(Fill(x, env));
    assert t[1..] == TrimAll(FillAll(rest, env)) by {
      assert FillAll(ls, env)[1..] == FillAll(rest, env);
    }
  }

  /** Filling, trimming and filtering the lines of a + b gives the
      arguments of a followed by those of b. */
  lemma {:induction false} ArgumentsAppend(a: seq<string>, b: seq<string>, env: Env)
    ensures Arguments(a + b, env) == Arguments(a, env) + Arguments(b, env)
    decreases |a|
  {
    if a == [] {
      assert a + b == b;
      ArgumentsNil(env);
    } else {
      calc {
        Arguments(a + b, env);
        { assert a + b == [a[0]] + (a[1..] + b); ArgumentsCons(a[0], a[1..] + b, env); }
        LineArguments(a[0], env) + Arguments(a[1..] + b, env);
        { ArgumentsAppend(a[1..], b, env); }
        LineArguments(a[0], env) + (Arguments(a[1..], env) + Arguments(b, env));
        { Assoc3(LineArguments(a[0], env), Arguments(a[1..], env), Arguments(b, env)); }
        (LineArguments(a[0], env) + Arguments(a[1..], env)) + Arguments(b, env);
        { assert a == [a[0]] + a[1..]; ArgumentsCons(a[0], a[1..], env); }
        Arguments(a, env) + Arguments(b, env);
      }
    }
  }

  /** An empty line yields no argument. */
  lemma LineArgumentsEmpty(env: Env)
    ensures LineArguments([], env) == [] && LineTokens([], env) == []
  {
    FillEmpty(env);
  }

  /** The empty strings split drops at the end would have yielded no
      argument anyway. */
  lemma {:induction false} ArgumentsDropTrailingEmpty(ls: seq<string>, env: Env)
    ensures Arguments(DropTrailingEmpty(ls), env) == Arguments(ls, env)
    decreases |ls|
  {
    if ls != [] && ls[|ls| - 1] == [] {
      var init := ls[..|ls| - 1];
      assert ls == init + [[]];
      ArgumentsDropTrailingEmpty(init, env);
      ArgumentsAppend(init, [[]], env);
      ArgumentsCons([], [], env);
      LineArgumentsEmpty(env);
    }
  }

  /** The arguments of the rendered lines of a template are those of its
      lines one after the other. */
  lemma {:induction false} ArgumentsOfLines(ls: seq<Line>, env: Env)
    ensures Arguments(RenderLines(ls), env) == TemplateArguments(ls, env)
    decreases |ls|
  {
    if ls != [] {
      assert RenderLines(ls) == [RenderLine(ls[0])] + RenderLines(ls[1..]);
      ArgumentsCons(RenderLine(ls[0]), RenderLines(ls[1..]), env);
      ArgumentsOfLines(ls[1..], env);
    }
  }

  /** Every word of every line is as a text block holds it. */
  predicate LiteralLines(ls: seq<Line>) {
    forall i, k :: 0 <= i < |ls| && 0 <= k < |ls[i].words| ==> Literal(ls[i].words[k])
  }

  /** A rendered line of literal words holds no line break. */
  lemma RenderLineNoBreak(l: Line)
    requires forall k :: 0 <= k < |l.words| ==> Literal(l.words[k])
    ensures '\n' !in RenderLine(l)
  {
    var ss := RenderWords(l.words);
    forall k | 0 <= k < |ss| ensures '\n' !in ss[k] {
      RenderWordsAt(l.words, k);
      LiteralVisible(l.words[k]);
    }
    JoinWordsAvoids(ss, '\n');
  }

  /** Splitting the text of a template at its line breaks gives back its
      rendered lines, and so the arguments of its lines. */
  lemma ArgumentsOfText(ls: seq<Line>, env: Env)
    requires ls != [] && LiteralLines(ls)
    ensures Arguments(SplitLines(Render(ls)), env) == TemplateArguments(ls, env)
  {
    var rs := RenderLines(ls);
    forall k | 0 <= k < |rs| ensures '\n' !in rs[k] {
      RenderLinesAt(ls, k);
      RenderLineNoBreak(ls[k]);
    }
    SplitLinesOfTerminated(rs);
    ArgumentsDropTrailingEmpty(rs, env);
    ArgumentsOfLines(ls, env);
  }

  // ---------------------------------------------------------------------
  // The final split works argument by argument
  // ---------------------------------------------------------------------

  lemma {:induction false} SplitAllAppend(a: seq<string>, b: seq<string>)
    ensures SplitAll(a + b) == SplitAll(a) + SplitAll(b)
    decreases |a|
  {
    if a == [] {
      assert a + b == b;
    } else {
      assert (a + b)[0] == a[0] && (a + b)[1..] == a[1..] + b;
      SplitAllAppend(a[1..], b);
      Assoc3(SplitOnSpaces(a[0]), SplitAll(a[1..]), SplitAll(b));
    }
  }

  /** Splitting the arguments of a line gives its tokens. */
  lemma SplitLineArguments(s: string, env: Env)
    ensures SplitAll(LineArguments(s, env)) == LineTokens(s, env)
  {
    var t := Trim(Fill(s, env));
    if t != [] {
      assert [t][1..] == [];
    }
  }

  /** The tokens of a template are its arguments split on runs of spaces. */
  lemma {:induction false} TokensOfArguments(ls: seq<Line>, env: Env)
    ensures SplitAll(TemplateArguments(ls, env)) == TemplateTokens(ls, env)
    decreases |ls|
  {
    if ls != [] {
      var s := RenderLine(ls[0]);
      SplitAllAppend(LineArguments(s, env), TemplateArguments(ls[1..], env));
      SplitLineArguments(s, env);
      TokensOfArguments(ls[1..], env);
    }
  }

  /** The final split drops the spaces and keeps every other character in
      its order. */
  lemma {:induction false} SplitAllKeepsOrder(ss: seq<string>)
    ensures Concat(SplitAll(ss)) == Without(Concat(ss), ' ')
    decreases |ss|
  {
    if ss != [] {
      var first := SplitOnSpaces(ss[0]);
      calc {
        Concat(SplitAll(ss));
        { ConcatAppend(first, SplitAll(ss[1..])); }
        Concat(first) + Concat(SplitAll(ss[1..]));
        { SplitOnSpacesKeepsOrder(ss[0]); SplitAllKeepsOrder(ss[1..]); }
        Without(ss[0], ' ') + Without(Concat(ss[1..]), ' ');
        { WithoutAppend(ss[0], Concat(ss[1..]), ' '); }
        Without(ss[0] + Concat(ss[1..]), ' ');
      }
    }
  }

  // ---------------------------------------------------------------------
  // One template line
  // ---------------------------------------------------------------------

  /** Every word of l is as a text block holds it, can be filled one
      replace call at a time, and keeps a literal character whatever env
      replaces. */
  predicate Written(l: Line, env: Env) {
    forall k :: 0 <= k < |l.words| ==>
      Literal(l.words[k]) && Fillable(l.words[k]) && Anchored(l.words[k], env)
  }

  /** No value holds "${" or a character that String.trim strips. */
  predicate Clean(env: Env) {
    ValuesNoMarker(env) && forall k :: 0 <= k < |env| ==> AllVisible(env[k].value)
  }

  /** A line without words yields neither an argument nor a token. */
  lemma LineBlank(l: Line, env: Env)
    requires l.words == []
    ensures LineArguments(RenderLine(l), env) == []
    ensures LineTokens(RenderLine(l), env) == []
  {
    var s := RenderLine(l);
    assert s == Spaces(l.indent);
    FillNoDollar(s, env);
    SpacesInvisible(l.indent);
  }

  /** Filling the words of a line that is written as above keeps a visible
      character in each. */
  lemma FilledWordsVisible(l: Line, env: Env)
    requires Written(l, env)
    ensures forall k :: 0 <= k < |l.words| ==> HasVisible(FillAll(RenderWords(l.words), env)[k])
  {
    var ws := RenderWords(l.words);
    forall k | 0 <= k < |l.words| ensures HasVisible(FillAll(ws, env)[k]) {
      FillAllAt(ws, env, k);
      RenderWordsAt(l.words, k);
      AnchoredVisible(l.words[k], env);
    }
  }

  /** Values free of a blank character c leave the filled words of a line
      written as above free of c. */
  lemma FilledWordsAvoid(l: Line, env: Env, c: char)
    requires Written(l, env) && Blank(c) && ValuesAvoid(env, c)
    ensures forall k :: 0 <= k < |l.words| ==> c !in FillAll(RenderWords(l.words), env)[k]
  {
    var ws := RenderWords(l.words);
    forall k | 0 <= k < |l.words| ensures c !in FillAll(ws, env)[k] {
      FillAllAt(ws, env, k);
      RenderWordsAt(l.words, k);
      LiteralVisible(l.words[k]);
      FillAvoids(ws[k], env, c);
    }
  }

  /** A line with a word yields exactly one argument: the whole line filled
      and trimmed. */
  lemma LineKept(l: Line, env: Env)
    requires l.words != [] && Written(l, env)
    ensures LineArguments(RenderLine(l), env) == [Trim(Fill(RenderLine(l), env))]
  {
    var ss := FillAll(RenderWords(l.words), env);
    FilledWordsVisible(l, env);
    FillLine(l.indent, RenderWords(l.words), env);
    JoinWordsVisible(ss);
    HasVisibleAfter(Spaces(l.indent), JoinWords(ss));
  }

  /** When no value holds a space, a line yields one token per word: the
      word filled and trimmed. */
  lemma LineTokensCount(l: Line, env: Env)
    requires l.words != [] && Written(l, env) && ValuesAvoid(env, ' ')
    ensures LineTokens(RenderLine(l), env) == TrimWords(FillAll(RenderWords(l.words), env))
  {
    var ss := FillAll(RenderWords(l.words), env);
    FilledWordsVisible(l, env);
    FilledWordsAvoid(l, env, ' ');
    FillLine(l.indent, RenderWords(l.words), env);
    TrimJoin(l.indent, ss);
    TrimWordsShape(ss);
    var ts := TrimWords(ss);
    JoinWordsStarts(ts);
    SplitOnSpacesOfJoinWords(ts);
  }

  /** With clean values, the filled words of a line are its words with
      every placeholder replaced at once, none of them empty and none with
      a character String.trim strips. */
  lemma FilledWordsExact(l: Line, env: Env)
    requires Written(l, env) && Clean(env)
    ensures FillAll(RenderWords(l.words), env) == RenderWords(SubstituteAll(l.words, env))
    ensures forall k :: 0 <= k < |l.words| ==>
              RenderWords(SubstituteAll(l.words, env))[k] != []
              && AllVisible(RenderWords(SubstituteAll(l.words, env))[k])
  {
    var ws := RenderWords(l.words);
    var vs := RenderWords(SubstituteAll(l.words, env));
    forall k | 0 <= k < |l.words|
      ensures FillAll(ws, env)[k] == vs[k] && vs[k] != [] && AllVisible(vs[k])
    {
      var w := l.words[k];
      FillAllAt(ws, env, k);
      RenderWordsAt(l.words, k);
      SubstituteAllAt(l.words, env, k);
      RenderWordsAt(SubstituteAll(l.words, env), k);
      FillRenderWord(w, env);
      SubstituteVisible(w, env);
      AnchoredVisible(w, env);
    }
  }

  /** With clean values, a line yields exactly its words with every
      placeholder replaced at once. */
  lemma LineTokensExact(l: Line, env: Env)
    requires l.words != [] && Written(l, env) && Clean(env)
    ensures LineTokens(RenderLine(l), env) == RenderWords(SubstituteAll(l.words, env))
  {
    var vs := RenderWords(SubstituteAll(l.words, env));
    FilledWordsExact(l, env);
    VisibleWords(vs);
    CleanAvoidsSpace(env);
    calc {
      LineTokens(RenderLine(l), env);
      { LineTokensCount(l, env); }
      TrimWords(FillAll(RenderWords(l.words), env));
      TrimWords(vs);
      { TrimWordsVisible(vs); }
      vs;
    }
  }

  /** Words without a blank character have no blank first or last one. */
  lemma VisibleWords(vs: seq<string>)
    requires forall k :: 0 <= k < |vs| ==> vs[k] != [] && AllVisible(vs[k])
    ensures forall k :: 0 <= k < |vs| ==> vs[k] != [] && !Blank(vs[k][0]) && !Blank(vs[k][|vs[k]| - 1])
  {
  }

  lemma CleanAvoidsSpace(env: Env)
    requires Clean(env)
    ensures ValuesAvoid(env, ' ')
  {
    forall k | 0 <= k < |env| ensures ' ' !in env[k].value {
      assert AllVisible(env[k].value);
    }
  }

  /** With clean values, a line yields exactly one argument: its words with
      every placeholder replaced at once, joined by single spaces. */
  lemma LineArgumentsExact(l: Line, env: Env)
    requires l.words != [] && Written(l, env) && Clean(env)
    ensures LineArguments(RenderLine(l), env) == [JoinWords(RenderWords(SubstituteAll(l.words, env)))]
  {
    var vs := RenderWords(SubstituteAll(l.words, env));
    FilledWordsExact(l, env);
    LineKept(l, env);
    FillLine(l.indent, RenderWords(l.words), env);
    forall k | 0 <= k < |vs| ensures HasVisible(vs[k]) {
      assert !Blank(vs[k][0]);
    }
    TrimJoin(l.indent, vs);
    TrimWordsVisible(vs);
  }

  /** When every placeholder of a line is bound and no value holds "${",
      the filled line holds no "${". */
  lemma FilledLineNoMarker(l: Line, env: Env)
    requires Written(l, env) && ValuesNoMarker(env)
    requires forall k :: 0 <= k < |l.words| ==> Bound(l.words[k], env)
    ensures NoMarker(Fill(RenderLine(l), env))
  {
    var ws := RenderWords(l.words);
    var ss := FillAll(ws, env);
    forall k | 0 <= k < |ss| ensures NoMarker(ss[k]) {
      var w := l.words[k];
      FillAllAt(ws, env, k);
      RenderWordsAt(l.words, k);
      FillRenderWord(w, env);
      SubstituteFillable(w, env);
      SubstituteBound(w, env);
      RenderWordNoMarker(Substitute(w, env));
    }
    JoinWordsNoMarker(l.indent, ss);
    FillLine(l.indent, ws, env);
  }

  /** ... and so no argument and no token of the line holds "${". */
  lemma LineNoMarker(l: Line, env: Env)
    requires Written(l, env) && ValuesNoMarker(env)
    requires forall k :: 0 <= k < |l.words| ==> Bound(l.words[k], env)
    ensures forall k :: 0 <= k < |LineArguments(RenderLine(l), env)| ==> NoMarker(LineArguments(RenderLine(l), env)[k])
    ensures forall k :: 0 <= k < |LineTokens(RenderLine(l), env)| ==> NoMarker(LineTokens(RenderLine(l), env)[k])
  {
    FilledLineNoMarker(l, env);
    StringNoMarker(RenderLine(l), env);
  }

  /** A line whose filled text holds no "${" gives arguments and tokens
      without it. */
  lemma StringNoMarker(s: string, env: Env)
    requires NoMarker(Fill(s, env))
    ensures forall k :: 0 <= k < |LineArguments(s, env)| ==> NoMarker(LineArguments(s, env)[k])
    ensures forall k :: 0 <= k < |LineTokens(s, env)| ==> NoMarker(LineTokens(s, env)[k])
  {
    PiecesNoMarker(Fill(s, env));
    TrimmedNoMarker(Trim(Fill(s, env)));
  }

  /** The argument and the tokens made of a trimmed line without "${"
      hold no "${". */
  lemma TrimmedNoMarker(t: string)
    requires NoMarker(t)
    requires t != [] ==> forall k :: 0 <= k < |SplitOnSpaces(t)| ==> NoMarker(SplitOnSpaces(t)[k])
    ensures var a := if t == [] then [] else [t]; forall k :: 0 <= k < |a| ==> NoMarker(a[k])
    ensures var b := if t == [] then [] else SplitOnSpaces(t); forall k :: 0 <= k < |b| ==> NoMarker(b[k])
  {
  }

  /** Trimming and splitting on spaces take pieces of a string, so they
      bring no "${" into it. */
  lemma PiecesNoMarker(f: string)
    requires NoMarker(f)
    ensures NoMarker(Trim(f))
    ensures Trim(f) != [] ==> forall k :: 0 <= k < |SplitOnSpaces(Trim(f))| ==> NoMarker(SplitOnSpaces(Trim(f))[k])
  {
    var t := Trim(f);
    TrimIsSlice(f);
    NoMarkerOfSlice(t, f);
    if t != [] {
      SplitOnSpacesSlices(t);
      forall k | 0 <= k < |SplitOnSpaces(t)| ensures NoMarker(SplitOnSpaces(t)[k]) {
        NoMarkerOfSlice(SplitOnSpaces(t)[k], t);
      }
    }
  }

  // ---------------------------------------------------------------------
  // A whole template
  // ---------------------------------------------------------------------

  predicate WrittenLines(ls: seq<Line>, env: Env) {
    forall i :: 0 <= i < |ls| ==> Written(ls[i], env)
  }

  /** Every placeholder of the template is bound. */
  predicate BoundLines(ls: seq<Line>, env: Env) {
    forall i, k :: 0 <= i < |ls| && 0 <= k < |ls[i].words| ==> Bound(ls[i].words[k], env)
  }

  /** The lines that hold at least one word. */
  function WordLines(ls: seq<Line>): (r: seq<Line>)
    decreases |ls|
  {
    if ls == [] then []
    else if ls[0].words == [] then WordLines(ls[1..])
    else [ls[0]] + WordLines(ls[1..])
  }

  /** The number of words of the template. */
  function WordCount(ls: seq<Line>): nat
    decreases |ls|
  {
    if ls == [] then 0 else |ls[0].words| + WordCount(ls[1..])
  }

  /** Each line filled and trimmed. */
  function FilledLines(ls: seq<Line>, env: Env): (r: seq<string>)
    ensures |r| == |ls|
    decreases |ls|
  {
    if ls == [] then [] else [Trim(Fill(RenderLine(ls[0]), env))] + FilledLines(ls[1..], env)
  }

  /** A line with every placeholder replaced at once, its words joined by
      single spaces and without its indentation. */
  function LineText(l: Line, env: Env): string {
    JoinWords(RenderWords(SubstituteAll(l.words, env)))
  }

  /** A line's words with every placeholder replaced at once. */
  function LineWords(l: Line, env: Env): seq<string> {
    RenderWords(SubstituteAll(l.words, env))
  }

  /** Every placeholder replaced at once, then each line's words joined by
      single spaces: the arguments the template is written to give. */
  function ExpectedArguments(ls: seq<Line>, env: Env): seq<string>
    decreases |ls|
  {
    if ls == [] then []
    else
      (if ls[0].words == [] then [] else [JoinWords(RenderWords(SubstituteAll(ls[0].words, env)))])
      + ExpectedArguments(ls[1..], env)
  }

  /** Every placeholder replaced at once, then every word on its own: the
      tokens the template is written to give. */
  function ExpectedTokens(ls: seq<Line>, env: Env): seq<string>
    decreases |ls|
  {
    if ls == [] then [] else RenderWords(SubstituteAll(ls[0].words, env)) + ExpectedTokens(ls[1..], env)
  }

  /** Whatever the values, the arguments are the lines holding a word,
      each filled and trimmed, in their order. */
  lemma {:induction false} TemplateArgumentsLines(ls: seq<Line>, env: Env)
    requires WrittenLines(ls, env)
    ensures TemplateArguments(ls, env) == FilledLines(WordLines(ls), env)
    decreases |ls|
  {
    if ls != [] {
      TemplateArgumentsLines(ls[1..], env);
      if ls[0].words == [] {
        LineBlank(ls[0], env);
      } else {
        LineKept(ls[0], env);
        assert ([ls[0]] + WordLines(ls[1..]))[1..] == WordLines(ls[1..]);
      }
    }
  }

  /** When no value holds a space, the template yields one token per
      word. */
  lemma {:induction false} TemplateTokensCount(ls: seq<Line>, env: Env)
    requires WrittenLines(ls, env) && ValuesAvoid(env, ' ')
    ensures |TemplateTokens(ls, env)| == WordCount(ls)
    decreases |ls|
  {
    if ls != [] {
      TemplateTokensCount(ls[1..], env);
      if ls[0].words == [] {
        LineBlank(ls[0], env);
      } else {
        LineTokensCount(ls[0], env);
      }
    }
  }

  /** With clean values the arguments are exactly the expected ones. */
  lemma {:induction false} TemplateArgumentsExact(ls: seq<Line>, env: Env)
    requires WrittenLines(ls, env) && Clean(env)
    ensures TemplateArguments(ls, env) == ExpectedArguments(ls, env)
    decreases |ls|
  {
    if ls != [] {
      TemplateArgumentsExact(ls[1..], env);
      if ls[0].words == [] {
        LineBlank(ls[0], env);
      } else {
        LineArgumentsExact(ls[0], env);
      }
    }
  }

  /** With clean values the tokens are exactly the expected ones. */
  lemma {:induction false} TemplateTokensExact(ls: seq<Line>, env: Env)
    requires WrittenLines(ls, env) && Clean(env)
    ensures TemplateTokens(ls, env) == ExpectedTokens(ls, env)
    decreases |ls|
  {
    if ls != [] {
      TemplateTokensExact(ls[1..], env);
      if ls[0].words == [] {
        LineBlank(ls[0], env);
      } else {
        LineTokensExact(ls[0], env);
      }
    }
  }

  /** When every placeholder is bound and no value holds "${", no argument
      and no token holds "${". */
  lemma {:induction false} TemplateNoMarker(ls: seq<Line>, env: Env)
    requires WrittenLines(ls, env) && BoundLines(ls, env) && ValuesNoMarker(env)
    ensures forall k :: 0 <= k < |TemplateArguments(ls, env)| ==> NoMarker(TemplateArguments(ls, env)[k])
    ensures forall k :: 0 <= k < |TemplateTokens(ls, env)| ==> NoMarker(TemplateTokens(ls, env)[k])
    decreases |ls|
  {
    if ls != [] {
      TemplateNoMarker(ls[1..], env);
      LineNoMarker(ls[0], env);
      AllAppend(LineArguments(RenderLine(ls[0]), env), TemplateArguments(ls[1..], env));
      AllAppend(LineTokens(RenderLine(ls[0]), env), TemplateTokens(ls[1..], env));
    }
  }

  /** NoMarker holds of every element of a + b when it does of those of a
      and of b. */
  lemma AllAppend(a: seq<string>, b: seq<string>)
    requires forall k :: 0 <= k < |a| ==> NoMarker(a[k])
    requires forall k :: 0 <= k < |b| ==> NoMarker(b[k])
    ensures forall k :: 0 <= k < |a + b| ==> NoMarker((a + b)[k])
  {
    forall k | 0 <= k < |a + b| ensures NoMarker((a + b)[k]) {
      if k >= |a| {
        assert (a + b)[k] == b[k - |a|];
      }
    }
  }

  /** A word as the text block holds it, fillable and anchored. */
  predicate WrittenText(w: Word, env: Env) {
    Literal(w) && Fillable(w) && Anchored(w, env)
  }

  lemma WrittenLine(l: Line, env: Env)
    requires forall k :: 0 <= k < |l.words| ==> WrittenText(l.words[k], env)
    ensures Written(l, env)
  {
  }

  lemma WrittenLinesCons(l: Line, ls: seq<Line>, env: Env)
    requires Written(l, env) && WrittenLines(ls, env)
    ensures WrittenLines([l] + ls, env)
  {
    assert forall i :: 1 <= i < |ls| + 1 ==> ([l] + ls)[i] == ls[i - 1];
  }

  // ---------------------------------------------------------------------
  // Unfolding the expected arguments and tokens of a concrete template
  // ---------------------------------------------------------------------

  /** The tokens a template is written to give, one line at a time. */
  lemma ExpectedTokensCons(l: Line, rest: seq<Line>, env: Env)
    ensures ExpectedTokens([l] + rest, env) == LineWords(l, env) + ExpectedTokens(rest, env)
  {
    assert ([l] + rest)[1..] == rest;
  }

  lemma WordCountCons(l: Line, rest: seq<Line>)
    ensures WordCount([l] + rest) == |l.words| + WordCount(rest)
  {
    assert ([l] + rest)[1..] == rest;
  }

  /** A display of fourteen elements, one cons at a time. */
  lemma SeqOf14<X>(x0: X, x1: X, x2: X, x3: X, x4: X, x5: X, x6: X, x7: X, x8: X, x9: X, x10: X, x11: X, x12: X, x13: X)
    ensures [x0, x1, x2, x3, x4, x5, x6, x7, x8, x9, x10, x11, x12, x13]
         == [x0] + ([x1] + ([x2] + ([x3] + ([x4] + ([x5] + ([x6] + ([x7] + ([x8] + ([x9] + ([x10] + ([x11] + ([x12] + ([x13] + [])))))))))))))
  {
  }

  /** Ten singletons put together, one after the other. */
  lemma Gather<X>(x0: X, x1: X, x2: X, x3: X, x4: X, x5: X, x6: X, x7: X, x8: X, x9: X)
    ensures [x0] + ([x1] + ([x2] + ([x3] + ([x4] + ([x5] + ([x6] + ([x7] + ([x8] + ([x9] + [])))))))))
         == [x0, x1, x2, x3, x4, x5, x6, x7, x8, x9]
  {
  }

  /** The tokens a template of fourteen lines is written to give, line by
      line. */
  lemma ExpectedTokensOf14(l0: Line, l1: Line, l2: Line, l3: Line, l4: Line, l5: Line, l6: Line, l7: Line, l8: Line, l9: Line, l10: Line, l11: Line, l12: Line, l13: Line, env: Env)
    ensures ExpectedTokens([l0, l1, l2, l3, l4, l5, l6, l7, l8, l9, l10, l11, l12, l13], env)
         == LineWords(l0, env) + (LineWords(l1, env) + (LineWords(l2, env) + (LineWords(l3, env) + (LineWords(l4, env) + (LineWords(l5, env) + (LineWords(l6, env) + (LineWords(l7, env) + (LineWords(l8, env) + (LineWords(l9, env) + (LineWords(l10, env) + (LineWords(l11, env) + (LineWords(l12, env) + (LineWords(l13, env) + [])))))))))))))
  {
    var s14: seq<Line> := [];
    var s13 := [l13] + s14;
    var s12 := [l12] + s13;
    var s11 := [l11] + s12;
    var s10 := [l10] + s11;
    var s9 := [l9] + s10;
    var s8 := [l8] + s9;
    var s7 := [l7] + s8;
    var s6 := [l6] + s7;
    var s5 := [l5] + s6;
    var s4 := [l4] + s5;
    var s3 := [l3] + s4;
    var s2 := [l2] + s3;
    var s1 := [l1] + s2;
    var s0 := [l0] + s1;
    ExpectedTokensCons(l0, s1, env);
    ExpectedTokensCons(l1, s2, env);
    ExpectedTokensCons(l2, s3, env);
    ExpectedTokensCons(l3, s4, env);
    ExpectedTokensCons(l4, s5, env);
    ExpectedTokensCons(l5, s6, env);
    ExpectedTokensCons(l6, s7, env);
    ExpectedTokensCons(l7, s8, env);
    ExpectedTokensCons(l8, s9, env);
    ExpectedTokensCons(l9, s10, env);
    ExpectedTokensCons(l10, s11, env);
    ExpectedTokensCons(l11, s12, env);
    ExpectedTokensCons(l12, s13, env);
    ExpectedTokensCons(l13, s14, env);
    SeqOf14(l0, l1, l2, l3, l4, l5, l6, l7, l8, l9, l10, l11, l12, l13);
  }

  /** A template of fourteen written lines is written. */
  lemma WrittenOf14(l0: Line, l1: Line, l2: Line, l3: Line, l4: Line, l5: Line, l6: Line, l7: Line, l8: Line, l9: Line, l10: Line, l11: Line, l12: Line, l13: Line, env: Env)
    requires Written(l0, env) && Written(l1, env) && Written(l2, env) && Written(l3, env) && Written(l4, env) && Written(l5, env) && Written(l6, env) && Written(l7, env) && Written(l8, env) && Written(l9, env) && Written(l10, env) && Written(l11, env) && Written(l12, env) && Written(l13, env)
    ensures LiteralLines([l0, l1, l2, l3, l4, l5, l6, l7, l8, l9, l10, l11, l12, l13]) && WrittenLines([l0, l1, l2, l3, l4, l5, l6, l7, l8, l9, l10, l11, l12, l13], env)
  {
  }

  /** The words of a template of fourteen lines. */
  lemma WordCountOf14(l0: Line, l1: Line, l2: Line, l3: Line, l4: Line, l5: Line, l6: Line, l7: Line, l8: Line, l9: Line, l10: Line, l11: Line, l12: Line, l13: Line)
    ensures WordCount([l0, l1, l2, l3, l4, l5, l6, l7, l8, l9, l10, l11, l12, l13]) == |l0.words| + |l1.words| + |l2.words| + |l3.words| + |l4.words| + |l5.words| + |l6.words| + |l7.words| + |l8.words| + |l9.words| + |l10.words| + |l11.words| + |l12.words| + |l13.words|
  {
    var s14: seq<Line> := [];
    var s13 := [l13] + s14;
    var s12 := [l12] + s13;
    var s11 := [l11] + s12;
    var s10 := [l10] + s11;
    var s9 := [l9] + s10;
    var s8 := [l8] + s9;
    var s7 := [l7] + s8;
    var s6 := [l6] + s7;
    var s5 := [l5] + s6;
    var s4 := [l4] + s5;
    var s3 := [l3] + s4;
    var s2 := [l2] + s3;
    var s1 := [l1] + s2;
    var s0 := [l0] + s1;
    WordCountCons(l0, s1);
    WordCountCons(l1, s2);
    WordCountCons(l2, s3);
    WordCountCons(l3, s4);
    WordCountCons(l4, s5);
    WordCountCons(l5, s6);
    WordCountCons(l6, s7);
    WordCountCons(l7, s8);
    WordCountCons(l8, s9);
    WordCountCons(l9, s10);
    WordCountCons(l10, s11);
    WordCountCons(l11, s12);
    WordCountCons(l12, s13);
    WordCountCons(l13, s14);
    SeqOf14(l0, l1, l2, l3, l4, l5, l6, l7, l8, l9, l10, l11, l12, l13);
  }

  /** The words of a line of one word or of none. */
  lemma LineWordsOne(l: Line, w: Word, env: Env, a: string)
    requires l.words == [w] && RenderWord(Substitute(w, env)) == a
    ensures LineWords(l, env) == [a]
  {
    OneWordTokens(w, env, a);
  }

  lemma LineWordsTwo(l: Line, v: Word, w: Word, env: Env, a: string, b: string)
    requires l.words == [v, w] && RenderWord(Substitute(v, env)) == a && RenderWord(Substitute(w, env)) == b
    ensures LineWords(l, env) == [a, b]
  {
    TwoWordTokens(v, w, env, a, b);
  }

  lemma LineWordsNone(l: Line, env: Env)
    requires l.words == []
    ensures LineWords(l, env) == []
  {
  }

  lemma RenderOneWord(w: Word, env: Env)
    ensures RenderWords(SubstituteAll([w], env)) == [RenderWord(Substitute(w, env))]
  {
    assert [w][1..] == [];
    assert SubstituteAll([w], env) == [Substitute(w, env)];
    assert [Substitute(w, env)][1..] == [];
  }

  /** A line of one word yields that word's rendering as its one token. */
  lemma OneWordTokens(w: Word, env: Env, a: string)
    requires RenderWord(Substitute(w, env)) == a
    ensures RenderWords(SubstituteAll([w], env)) == [a]
  {
    RenderOneWord(w, env);
  }

  /** A line of two words yields their renderings as its two tokens. */
  lemma TwoWordTokens(v: Word, w: Word, env: Env, a: string, b: string)
    requires RenderWord(Substitute(v, env)) == a && RenderWord(Substitute(w, env)) == b
    ensures RenderWords(SubstituteAll([v, w], env)) == [a, b]
  {
    RenderTwoWords(v, w, env);
  }

  lemma RenderTwoWords(v: Word, w: Word, env: Env)
    ensures RenderWords(SubstituteAll([v, w], env)) == [RenderWord(Substitute(v, env)), RenderWord(Substitute(w, env))]
  {
    assert [v, w][1..] == [w];
    RenderOneWord(w, env);
    assert SubstituteAll([v, w], env) == [Substitute(v, env), Substitute(w, env)];
    assert [Substitute(v, env), Substitute(w, env)][1..] == [Substitute(w, env)];
  }

  lemma NoWords(env: Env)
    ensures RenderWords(SubstituteAll([], env)) == []
  {
  }

  /** A line of literal text only, without indentation, is its own only
      token and argument. */
  lemma ConstantLine(t: seq<TextChar>, env: Env)
    requires t != []
    ensures RenderLine(Line(0, [[Text(t)]])) == t
    ensures LineTokens(t, env) == [t] && LineArguments(t, env) == [t]
  {
    ConstantRender(t);
    TextNoDollar(t);
    TextVisible(t);
    PlainLine(t, env);
  }

  /** An indented line of literal text only is its own only argument,
      without its indentation. */
  lemma IndentedConstant(n: nat, t: seq<TextChar>, env: Env)
    requires t != []
    ensures LineArguments(RenderLine(Line(n, [[Text(t)]])), env) == [t]
  {
    var s := RenderLine(Line(n, [[Text(t)]]));
    ConstantRender(t);
    assert s == Spaces(n) + t;
    TextNoDollar(t);
    TextVisible(t);
    SpacesInvisible(n);
    assert '$' !in Spaces(n) by {
      assert forall k :: 0 <= k < |Spaces(n)| ==> Blank(Spaces(n)[k]);
    }
    FillNoDollar(s, env);
    assert HasVisible(t) by {
      assert !Blank(t[0]);
    }
    assert JoinWords([t]) == t;
    TrimJoin(n, [t]);
    TrimTrimmed(t);
  }

  /** The lines holding a word, one line at a time. */
  lemma WordLinesKeep(l: Line, rest: seq<Line>)
    requires l.words != []
    ensures WordLines([l] + rest) == [l] + WordLines(rest)
  {
    assert ([l] + rest)[1..] == rest;
  }

  lemma WordLinesSkip(l: Line, rest: seq<Line>)
    requires l.words == []
    ensures WordLines([l] + rest) == WordLines(rest)
  {
    assert ([l] + rest)[1..] == rest;
  }

  /** The arguments a template is written to give, one line at a time. */
  lemma ExpectedArgumentsKeep(l: Line, rest: seq<Line>, env: Env)
    requires l.words != []
    ensures ExpectedArguments([l] + rest, env) == [LineText(l, env)] + ExpectedArguments(rest, env)
  {
    assert ([l] + rest)[1..] == rest;
  }

  lemma ExpectedArgumentsSkip(l: Line, rest: seq<Line>, env: Env)
    requires l.words == []
    ensures ExpectedArguments([l] + rest, env) == ExpectedArguments(rest, env)
  {
    assert ([l] + rest)[1..] == rest;
  }

  /** A line of one word reads as that word's rendering. */
  lemma LineTextOne(l: Line, w: Word, env: Env, a: string)
    requires l.words == [w] && RenderWord(Substitute(w, env)) == a
    ensures LineText(l, env) == a
  {
    OneWordTokens(w, env, a);
  }

  /** Each filled line is the line at the same place, filled and trimmed. */
  lemma {:induction false} FilledLinesAt(ls: seq<Line>, env: Env, k: nat)
    requires k < |ls|
    ensures FilledLines(ls, env)[k] == Trim(Fill(RenderLine(ls[k]), env))
    decreases k
  {
    if k > 0 {
      FilledLinesAt(ls[1..], env, k - 1);
    }
  }

  /** A line without '$' and without spaces, not blank at either end, is
      its own only token and argument. */
  lemma PlainLine(s: string, env: Env)
    requires s != [] && '$' !in s && ' ' !in s && Trimmed(s)
    ensures LineTokens(s, env) == [s] && LineArguments(s, env) == [s]
  {
    FillNoDollar(s, env);
    TrimTrimmed(s);
    SplitOnSpacesNone(s);
  }

  lemma ConstantRender(t: seq<TextChar>)
    ensures RenderLine(Line(0, [[Text(t)]])) == t
  {
    var l := Line(0, [[Text(t)]]);
    assert RenderWords(l.words) == [RenderWord([Text(t)])] by {
      assert l.words[1..] == [];
    }
    assert RenderWord([Text(t)]) == t by {
      assert [Text(t)][1..] == [];
    }
  }
}
