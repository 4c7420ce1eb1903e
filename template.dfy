/** A Java text block with ${name} placeholders, and the chain of
    String.replace calls that fills them in.

    A template line is kept as its indentation and its space-separated words;
    a word is a sequence of pieces: literal text, a placeholder, or a value a
    placeholder was replaced by. Rendering a word gives the characters the
    text block holds there. */
module Template {
  import opened JavaString
  import opened JavaSplit
  import opened Words
  import opened Wrappers

  /** A character of literal template text: nothing String.trim strips, and
      neither of the two characters that open a placeholder. */
  type TextChar = c: char | c > ' ' && c != '$' && c != '{' witness 'a'

  /** A character of a placeholder name: a text character other than '}'. */
  type NameChar = c: char | c > ' ' && c != '$' && c != '{' && c != '}' witness 'a'

  type Name = seq<NameChar>

  datatype Piece =
    | Text(text: seq<TextChar>)
    | Hole(name: Name)
    | Val(value: string)

  type Word = seq<Piece>

  /** A line of the text block once its incidental indentation is removed. */
  datatype Line = Line(indent: nat, words: seq<Word>)

  /** One String.replace("${name}", value) call of a chain. */
  datatype Binding = Binding(name: Name, value: string)

  type Env = seq<Binding>

  // ---------------------------------------------------------------------
  // Rendering
  // ---------------------------------------------------------------------

  /** The placeholder "${name}". */
  function Placeholder(n: Name): (r: string)
    ensures |r| == |n| + 3 && r[0] == '$' && r[1] == '{' && r[|r| - 1] == '}'
  {
    "${" + n + "}"
  }

  function RenderPiece(p: Piece): string {
    match p
    case Text(t) => t
    case Hole(n) => Placeholder(n)
    case Val(v) => v
  }

  function RenderWord(w: Word): string
    decreases |w|
  {
    if w == [] then [] else RenderPiece(w[0]) + RenderWord(w[1..])
  }

  function RenderWords(ws: seq<Word>): (r: seq<string>)
    ensures |r| == |ws|
    decreases |ws|
  {
    if ws == [] then [] else [RenderWord(ws[0])] + RenderWords(ws[1..])
  }

  /** The line's indentation, then its words separated by single spaces. */
  function RenderLine(l: Line): string {
    Spaces(l.indent) + JoinWords(RenderWords(l.words))
  }

  function RenderLines(ls: seq<Line>): (r: seq<string>)
    ensures |r| == |ls|
    decreases |ls|
  {
    if ls == [] then [] else [RenderLine(ls[0])] + RenderLines(ls[1..])
  }

  /** The string a text block denotes whose closing delimiter stands on a
      line of its own: every line followed by a newline. */
  function Render(ls: seq<Line>): string {
    Terminated(RenderLines(ls))
  }

  // ---------------------------------------------------------------------
  // Filling: the chain of replace calls, and the substitution it amounts to
  // ---------------------------------------------------------------------

  /** s.replace("${n1}", v1).replace("${n2}", v2)... in the order of env. */
  function Fill(s: string, env: Env): string
    decreases |env|
  {
    if env == [] then s
    else Fill(Replace(s, Placeholder(env[0].name), env[0].value), env[1..])
  }

  function FillAll(ss: seq<string>, env: Env): (r: seq<string>)
    ensures |r| == |ss|
    decreases |ss|
  {
    if ss == [] then [] else [Fill(ss[0], env)] + FillAll(ss[1..], env)
  }

  /** The value the first binding of n gives it. */
  function Lookup(env: Env, n: Name): (r: Option<string>)
    ensures r.None? <==> forall k :: 0 <= k < |env| ==> env[k].name != n
    ensures r.Some? ==> exists k :: 0 <= k < |env| && env[k] == Binding(n, r.value)
    decreases |env|
  {
    if env == [] then None
    else if env[0].name == n then Some(env[0].value)
    else
      var r := Lookup(env[1..], n);
      assert forall k :: 0 <= k < |env| - 1 ==> env[1..][k] == env[k + 1];
      r
  }

  function SubstPiece(p: Piece, env: Env): Piece {
    match p
    case Hole(n) => (match Lookup(env, n) case Some(v) => Val(v) case None => p)
    case _ => p
  }

  /** The simultaneous substitution: every placeholder whose name env binds
      becomes the value of its first binding; the rest is left alone. */
  function Substitute(w: Word, env: Env): (r: Word)
    ensures |r| == |w|
    decreases |w|
  {
    if w == [] then [] else [SubstPiece(w[0], env)] + Substitute(w[1..], env)
  }

  function SubstituteAll(ws: seq<Word>, env: Env): (r: seq<Word>)
    ensures |r| == |ws|
    decreases |ws|
  {
    if ws == [] then [] else [Substitute(ws[0], env)] + SubstituteAll(ws[1..], env)
  }

  /** No "${" in s. */
  predicate NoMarker(s: string) {
    forall i :: 0 <= i < |s| - 1 ==> !(s[i] == '$' && s[i + 1] == '{')
  }

  predicate ValuesNoMarker(env: Env) {
    forall k :: 0 <= k < |env| ==> NoMarker(env[k].value)
  }

  /** A word whose placeholders can be filled one replace call at a time:
      literal text is never empty, a value never holds "${", and of two
      neighbouring pieces at least one is literal text. */
  predicate Fillable(w: Word) {
    && (forall k :: 0 <= k < |w| ==> (w[k].Text? ==> w[k].text != []) && (w[k].Val? ==> NoMarker(w[k].value)))
    && (forall k :: 0 <= k < |w| - 1 ==> w[k].Text? || w[k + 1].Text?)
  }

  /** A word as a text block holds it: literal text and placeholders only. */
  predicate Literal(w: Word) {
    forall k :: 0 <= k < |w| ==> !w[k].Val?
  }

  predicate NoHoles(w: Word) {
    forall k :: 0 <= k < |w| ==> !w[k].Hole?
  }

  /** The names env binds, in its order. */
  function Names(env: Env): (r: seq<Name>)
    ensures |r| == |env| && forall k :: 0 <= k < |env| ==> r[k] == env[k].name
  {
    seq(|env|, k requires 0 <= k < |env| => env[k].name)
  }

  /** Every placeholder of w is bound by env. */
  predicate Bound(w: Word, env: Env) {
    forall k :: 0 <= k < |w| ==> w[k].Hole? ==> w[k].name in Names(env)
  }

  // ---------------------------------------------------------------------
  // Replacing one placeholder
  // ---------------------------------------------------------------------

  lemma NoMarkerSlice(s: string, i: int, j: int)
    requires NoMarker(s) && 0 <= i <= j <= |s|
    ensures NoMarker(s[i..j])
  {
    forall k | 0 <= k < j - i - 1
      ensures !(s[i..j][k] == '$' && s[i..j][k + 1] == '{')
    {
      assert s[i..j][k] == s[i + k] && s[i..j][k + 1] == s[i + k + 1];
    }
  }

  /** Two placeholders start alike only when their names are equal: a name
      holds no '}'. */
  lemma NamesDistinguish(n: Name, m: Name, rest: string)
    requires StartsWith(Placeholder(m) + rest, Placeholder(n))
    ensures n == m
  {
    var s := Placeholder(m) + rest;
    var t := Placeholder(n);
    assert s[..|t|] == t;
    var p := if |n| < |m| then |n| else |m|;
    assert s[p + 2] == t[p + 2];
    assert |n| == |m|;
    forall k | 0 <= k < |n| ensures n[k] == m[k] {
      assert s[k + 2] == m[k] && t[k + 2] == n[k];
    }
  }

  /** Text free of "${" is copied unchanged by a replace whose target opens
      with "${", unless it ends in '$' and the rest opens with '{'. */
  lemma {:induction false} ReplaceSkipNoMarker(a: string, b: string, target: string, replacement: string)
    requires |target| >= 2 && target[0] == '$' && target[1] == '{'
    requires NoMarker(a) && (b == [] || b[0] != '{')
    ensures Replace(a + b, target, replacement) == a + Replace(b, target, replacement)
    decreases |a|
  {
    if a == [] {
      assert a + b == b;
    } else {
      var s := a + b;
      ConsConcat(a, b);
      if a[0] != '$' {
        NotStartsWith(s, target, 0);
      } else if |a| >= 2 {
        assert s[1] == a[1];
        NotStartsWith(s, target, 1);
      } else {
        assert |s| >= 2 ==> s[1] == b[0];
        NotStartsWith(s, target, 1);
      }
      ReplaceCopy(s, target, replacement);
      NoMarkerSlice(a, 1, |a|);
      ReplaceSkipNoMarker(a[1..], b, target, replacement);
      ConsConcat(a, Replace(b, target, replacement));
    }
  }

  /** A placeholder is replaced when its name is the target's, and kept
      otherwise. */
  lemma ReplacePlaceholder(m: Name, rest: string, n: Name, v: string)
    ensures Replace(Placeholder(m) + rest, Placeholder(n), v)
         == (if m == n then v else Placeholder(m)) + Replace(rest, Placeholder(n), v)
  {
    var p := Placeholder(m);
    var t := Placeholder(n);
    if m == n {
      ReplaceMatch(t, rest, v);
    } else {
      var s := p + rest;
      assert !StartsWith(s, t) by {
        if StartsWith(s, t) {
          NamesDistinguish(n, m, rest);
        }
      }
      ReplaceCopy(s, t, v);
      ConsConcat(p, rest);
      ClosedNoDollar(m);
      ReplaceSkip(p[1..], rest, t, v);
      ConsConcat(p, Replace(rest, t, v));
    }
  }

  lemma ClosedNoDollar(m: Name)
    ensures '$' !in Placeholder(m)[1..]
  {
    var tail := Placeholder(m)[1..];
    forall k | 0 <= k < |tail| ensures tail[k] != '$' {
      if 0 < k < |tail| - 1 {
        assert tail[k] == m[k - 1];
      }
    }
  }

  // ---------------------------------------------------------------------
  // The replace chain fills a word as the substitution does
  // ---------------------------------------------------------------------

  lemma FillableTail(w: Word)
    requires Fillable(w) && w != []
    ensures Fillable(w[1..])
  {
    forall k | 0 <= k < |w| - 1 ensures w[1..][k] == w[k + 1] {
    }
  }

  lemma RenderWordStart(w: Word)
    requires w != [] && w[0].Text? && w[0].text != []
    ensures RenderWord(w) != [] && RenderWord(w)[0] == w[0].text[0]
  {
  }

  /** One replace call fills the placeholders it names, when no value in
      the word holds "${". */
  lemma {:induction false} ReplaceRenderWord(w: Word, b: Binding)
    requires Fillable(w) && NoMarker(b.value)
    ensures Replace(RenderWord(w), Placeholder(b.name), b.value) == RenderWord(Substitute(w, [b]))
    decreases |w|
  {
    if w != [] {
      var t := Placeholder(b.name);
      var rest := RenderWord(w[1..]);
      FillableTail(w);
      ReplaceRenderWord(w[1..], b);
      match w[0]
      case Text(x) =>
        assert forall k :: 0 <= k < |x| ==> x[k] != '$';
        ReplaceSkip(x, rest, t, b.value);
      case Val(x) =>
        if |w| > 1 {
          assert w[1].Text?;
          RenderWordStart(w[1..]);
        }
        ReplaceSkipNoMarker(x, rest, t, b.value);
      case Hole(m) =>
        ReplacePlaceholder(m, rest, b.name, b.value);
    }
  }

  /** A word stays fillable when its placeholders are filled with values
      free of "${". */
  lemma SubstituteFillable(w: Word, env: Env)
    requires Fillable(w) && ValuesNoMarker(env)
    ensures Fillable(Substitute(w, env))
  {
    SubstitutePieces(w, env);
  }

  lemma {:induction false} SubstitutePieces(w: Word, env: Env)
    ensures forall k :: 0 <= k < |w| ==> Substitute(w, env)[k] == SubstPiece(w[k], env)
    decreases |w|
  {
    if w != [] {
      SubstitutePieces(w[1..], env);
    }
  }

  /** Substituting by one binding and then by the rest is substituting by all. */
  lemma SubstituteCompose(w: Word, b: Binding, env: Env)
    ensures Substitute(Substitute(w, [b]), env) == Substitute(w, [b] + env)
  {
    SubstitutePieces(w, [b]);
    SubstitutePieces(Substitute(w, [b]), env);
    SubstitutePieces(w, [b] + env);
    forall k | 0 <= k < |w|
      ensures Substitute(Substitute(w, [b]), env)[k] == Substitute(w, [b] + env)[k]
    {
      if w[k].Hole? {
        assert ([b] + env)[1..] == env;
      }
    }
  }

  lemma SubstituteNothing(w: Word)
    ensures Substitute(w, []) == w
  {
    SubstitutePieces(w, []);
  }

  /** The chain of replace calls fills a fillable word exactly as the
      simultaneous substitution does, when no value holds "${". */
  lemma {:induction false} FillRenderWord(w: Word, env: Env)
    requires Fillable(w) && ValuesNoMarker(env)
    ensures Fill(RenderWord(w), env) == RenderWord(Substitute(w, env))
    decreases |env|
  {
    if env == [] {
      SubstituteNothing(w);
    } else {
      var b := env[0];
      ReplaceRenderWord(w, b);
      SubstituteFillable(w, [b]);
      var w1 := Substitute(w, [b]);
      assert ValuesNoMarker(env[1..]) by {
        forall k | 0 <= k < |env| - 1 ensures NoMarker(env[1..][k].value) {
          assert env[1..][k] == env[k + 1];
        }
      }
      FillRenderWord(w1, env[1..]);
      SubstituteCompose(w, b, env[1..]);
      assert [b] + env[1..] == env;
    }
  }

  // ---------------------------------------------------------------------
  // No placeholder is left
  // ---------------------------------------------------------------------

  lemma NoMarkerAppend(a: string, b: string)
    requires NoMarker(a) && NoMarker(b)
    requires a == [] || b == [] || a[|a| - 1] != '$' || b[0] != '{'
    ensures NoMarker(a + b)
  {
    var s := a + b;
    forall i | 0 <= i < |s| - 1 ensures !(s[i] == '$' && s[i + 1] == '{') {
      if i + 1 < |a| {
        assert s[i] == a[i] && s[i + 1] == a[i + 1];
      } else if i >= |a| {
        assert s[i] == b[i - |a|] && s[i + 1] == b[i + 1 - |a|];
      } else {
        assert s[i] == a[|a| - 1] && s[i + 1] == b[0];
      }
    }
  }

  lemma TextNoDollar(x: seq<TextChar>)
    ensures '$' !in x && NoMarker(x)
  {
    assert forall k :: 0 <= k < |x| ==> x[k] != '$';
  }

  lemma TextVisible(x: seq<TextChar>)
    ensures ' ' !in x && Trimmed(x)
  {
    assert forall k :: 0 <= k < |x| ==> x[k] != ' ';
  }

  /** A fillable word without placeholders renders without "${". */
  lemma {:induction false} RenderWordNoMarker(w: Word)
    requires Fillable(w) && NoHoles(w)
    ensures NoMarker(RenderWord(w))
    decreases |w|
  {
    if w != [] {
      FillableTail(w);
      assert NoHoles(w[1..]) by {
        forall k | 0 <= k < |w| - 1 ensures !w[1..][k].Hole? {
          assert w[1..][k] == w[k + 1];
        }
      }
      RenderWordNoMarker(w[1..]);
      var rest := RenderWord(w[1..]);
      match w[0]
      case Text(x) =>
        TextNoDollar(x);
        NoMarkerAppend(x, rest);
      case Val(x) =>
        if |w| > 1 {
          assert w[1].Text?;
          RenderWordStart(w[1..]);
        }
        NoMarkerAppend(x, rest);
    }
  }

  /** Substituting by an env that binds every placeholder leaves none. */
  lemma SubstituteBound(w: Word, env: Env)
    requires Bound(w, env)
    ensures NoHoles(Substitute(w, env))
  {
    SubstitutePieces(w, env);
    forall k | 0 <= k < |w| && w[k].Hole? ensures Lookup(env, w[k].name).Some? {
      var i :| 0 <= i < |env| && Names(env)[i] == w[k].name;
    }
  }

  /** Words free of "${" joined by spaces, after an indentation, are free of it. */
  lemma {:induction false} JoinWordsNoMarker(k: nat, ss: seq<string>)
    requires forall i :: 0 <= i < |ss| ==> NoMarker(ss[i])
    ensures NoMarker(Spaces(k) + JoinWords(ss))
    decreases |ss|
  {
    if |ss| <= 1 {
      NoMarkerAppend(Spaces(k), JoinWords(ss));
    } else {
      JoinWordsNoMarker(1, ss[1..]);
      assert Spaces(1) == " ";
      assert JoinWords(ss) == ss[0] + (" " + JoinWords(ss[1..]));
      NoMarkerAppend(ss[0], " " + JoinWords(ss[1..]));
      NoMarkerAppend(Spaces(k), JoinWords(ss));
    }
  }

  // ---------------------------------------------------------------------
  // Filling a whole line
  // ---------------------------------------------------------------------

  lemma {:induction false} ReplaceJoinWords(ss: seq<string>, target: string, replacement: string)
    requires |target| > 0 && ' ' !in target
    ensures Replace(JoinWords(ss), target, replacement) == JoinWords(ReplaceAll(ss, target, replacement))
    decreases |ss|
  {
    if |ss| > 1 {
      ReplaceAround(ss[0], ' ', JoinWords(ss[1..]), target, replacement);
      ReplaceJoinWords(ss[1..], target, replacement);
    }
  }

  function ReplaceAll(ss: seq<string>, target: string, replacement: string): (r: seq<string>)
    ensures |r| == |ss|
    decreases |ss|
  {
    if ss == [] then [] else [Replace(ss[0], target, replacement)] + ReplaceAll(ss[1..], target, replacement)
  }

  lemma PlaceholderShape(n: Name)
    ensures ' ' !in Placeholder(n) && '\n' !in Placeholder(n)
  {
    var t := Placeholder(n);
    forall k | 0 <= k < |t| ensures t[k] != ' ' && t[k] != '\n' {
      if 2 <= k < |t| - 1 {
        assert t[k] == n[k - 2];
      }
    }
  }

  /** Replace calls act word by word: the placeholder never spans a space. */
  lemma {:induction false} FillLine(k: nat, ss: seq<string>, env: Env)
    ensures Fill(Spaces(k) + JoinWords(ss), env) == Spaces(k) + JoinWords(FillAll(ss, env))
    decreases |env|
  {
    if env == [] {
      FillAllNothing(ss);
    } else {
      var t := Placeholder(env[0].name);
      var v := env[0].value;
      PlaceholderShape(env[0].name);
      ReplaceSkip(Spaces(k), JoinWords(ss), t, v);
      ReplaceJoinWords(ss, t, v);
      FillLine(k, ReplaceAll(ss, t, v), env[1..]);
      FillAllStep(ss, env);
    }
  }

  lemma {:induction false} FillAllNothing(ss: seq<string>)
    ensures FillAll(ss, []) == ss
    decreases |ss|
  {
    if ss != [] {
      FillAllNothing(ss[1..]);
    }
  }

  lemma {:induction false} FillAllStep(ss: seq<string>, env: Env)
    requires env != []
    ensures FillAll(ReplaceAll(ss, Placeholder(env[0].name), env[0].value), env[1..]) == FillAll(ss, env)
    decreases |ss|
  {
    if ss != [] {
      FillAllStep(ss[1..], env);
    }
  }

  // ---------------------------------------------------------------------
  // Characters that filling keeps, and characters it cannot bring in
  // ---------------------------------------------------------------------

  /** c occurs in no placeholder that env replaces. */
  predicate Durable(c: char, env: Env) {
    c != '$' && c != '{' && c != '}' && forall k :: 0 <= k < |env| ==> c !in env[k].name
  }

  /** w is literal text only, or some literal character of w is durable. */
  predicate Anchored(w: Word, env: Env) {
    || (w != [] && forall k :: 0 <= k < |w| ==> w[k].Text? && w[k].text != [])
    || exists i, j :: 0 <= i < |w| && w[i].Text? && 0 <= j < |w[i].text| && Durable(w[i].text[j], env)
  }

  /** A word of literal text only renders without '$' and, when it is not
      empty, with a visible character. */
  lemma {:induction false} ConstantWord(w: Word)
    requires w != [] && forall k :: 0 <= k < |w| ==> w[k].Text? && w[k].text != []
    ensures '$' !in RenderWord(w) && HasVisible(RenderWord(w))
    decreases |w|
  {
    var x := w[0].text;
    TextNoDollar(x);
    assert !Blank(x[0]);
    if |w| > 1 {
      ConstantWord(w[1..]);
    } else {
      assert RenderWord(w[1..]) == [];
    }
    assert RenderWord(w) == x + RenderWord(w[1..]);
    assert RenderWord(w)[0] == x[0];
  }

  /** Every value is free of c. */
  predicate ValuesAvoid(env: Env, c: char) {
    forall k :: 0 <= k < |env| ==> c !in env[k].value
  }

  /** No character of s is one that String.trim strips. */
  predicate AllVisible(s: string) {
    forall k :: 0 <= k < |s| ==> !Blank(s[k])
  }

  /** Filling keeps every durable character of its input. */
  lemma {:induction false} FillKeeps(s: string, env: Env, c: char)
    requires c in s && Durable(c, env)
    ensures c in Fill(s, env)
    decreases |env|
  {
    if env != [] {
      var n := env[0].name;
      assert c !in Placeholder(n) by {
        var t := Placeholder(n);
        forall k | 0 <= k < |t| ensures t[k] != c {
          if 2 <= k < |t| - 1 {
            assert t[k] == n[k - 2];
          }
        }
      }
      ReplaceKeeps(s, Placeholder(n), env[0].value, c);
      assert Durable(c, env[1..]) by {
        forall k | 0 <= k < |env| - 1 ensures c !in env[1..][k].name {
          assert env[1..][k] == env[k + 1];
        }
      }
      FillKeeps(Replace(s, Placeholder(n), env[0].value), env[1..], c);
    }
  }

  /** Filling brings in no character that neither its input nor a value holds. */
  lemma {:induction false} FillAvoids(s: string, env: Env, c: char)
    requires c !in s && ValuesAvoid(env, c)
    ensures c !in Fill(s, env)
    decreases |env|
  {
    if env != [] {
      ReplaceAvoids(s, Placeholder(env[0].name), env[0].value, c);
      assert ValuesAvoid(env[1..], c) by {
        forall k | 0 <= k < |env| - 1 ensures c !in env[1..][k].value {
          assert env[1..][k] == env[k + 1];
        }
      }
      FillAvoids(Replace(s, Placeholder(env[0].name), env[0].value), env[1..], c);
    }
  }

  /** The empty line stays empty. */
  lemma {:induction false} FillEmpty(env: Env)
    ensures Fill([], env) == []
    decreases |env|
  {
    if env != [] {
      FillEmpty(env[1..]);
    }
  }

  /** A string without '$' holds no placeholder and is left as it is. */
  lemma {:induction false} FillNoDollar(s: string, env: Env)
    requires '$' !in s
    ensures Fill(s, env) == s
    decreases |env|
  {
    if env != [] {
      ReplaceAbsent(s, Placeholder(env[0].name), env[0].value);
      FillNoDollar(s, env[1..]);
    }
  }

  /** Every literal character of a word is in its rendering. */
  lemma {:induction false} RenderWordHas(w: Word, i: nat, j: nat)
    requires i < |w| && w[i].Text? && j < |w[i].text|
    ensures w[i].text[j] in RenderWord(w)
    decreases i
  {
    if i == 0 {
      assert RenderWord(w)[j] == w[0].text[j];
    } else {
      RenderWordHas(w[1..], i - 1, j);
    }
  }

  /** An anchored word keeps a character String.trim does not strip, whatever
      the values. */
  lemma AnchoredVisible(w: Word, env: Env)
    requires Anchored(w, env)
    ensures HasVisible(Fill(RenderWord(w), env))
  {
    if w != [] && forall k :: 0 <= k < |w| ==> w[k].Text? && w[k].text != [] {
      ConstantWord(w);
      FillNoDollar(RenderWord(w), env);
      return;
    }
    var i, j :| 0 <= i < |w| && w[i].Text? && 0 <= j < |w[i].text| && Durable(w[i].text[j], env);
    var c := w[i].text[j];
    RenderWordHas(w, i, j);
    FillKeeps(RenderWord(w), env, c);
    var r := Fill(RenderWord(w), env);
    var k :| 0 <= k < |r| && r[k] == c;
    assert !Blank(r[k]);
  }

  lemma AllVisibleAppend(a: string, b: string)
    requires AllVisible(a) && AllVisible(b)
    ensures AllVisible(a + b)
  {
    forall k | 0 <= k < |a + b| ensures !Blank((a + b)[k]) {
      if k < |a| {
        assert (a + b)[k] == a[k];
      } else {
        assert (a + b)[k] == b[k - |a|];
      }
    }
  }

  /** A word renders without blank characters when its values have none. */
  lemma {:induction false} RenderWordVisible(w: Word)
    requires forall k :: 0 <= k < |w| ==> w[k].Val? ==> AllVisible(w[k].value)
    ensures AllVisible(RenderWord(w))
    decreases |w|
  {
    if w != [] {
      assert forall k :: 0 <= k < |w| - 1 ==> w[1..][k] == w[k + 1];
      RenderWordVisible(w[1..]);
      match w[0] {
        case Text(x) =>
          assert forall k :: 0 <= k < |x| ==> x[k] > ' ';
        case Hole(n) =>
          var t := Placeholder(n);
          forall k | 0 <= k < |t| ensures !Blank(t[k]) {
            if 2 <= k < |t| - 1 {
              assert t[k] == n[k - 2];
            }
          }
        case Val(x) =>
      }
      AllVisibleAppend(RenderPiece(w[0]), RenderWord(w[1..]));
    }
  }

  /** A word as the text block holds it renders without blank characters. */
  lemma LiteralVisible(w: Word)
    requires Literal(w)
    ensures AllVisible(RenderWord(w))
  {
    RenderWordVisible(w);
  }

  /** Substituting values without blank characters into a word as the text
      block holds it leaves no blank character either. */
  lemma SubstituteVisible(w: Word, env: Env)
    requires Literal(w)
    requires forall k :: 0 <= k < |env| ==> AllVisible(env[k].value)
    ensures AllVisible(RenderWord(Substitute(w, env)))
  {
    var r := Substitute(w, env);
    SubstitutePieces(w, env);
    forall k | 0 <= k < |r| && r[k].Val? ensures AllVisible(r[k].value) {
      var v := Lookup(env, w[k].name).value;
      var i :| 0 <= i < |env| && env[i] == Binding(w[k].name, v);
    }
    RenderWordVisible(r);
  }

  // ---------------------------------------------------------------------
  // The element-wise functions, one element at a time
  // ---------------------------------------------------------------------

  lemma {:induction false} RenderWordsAt(ws: seq<Word>, k: nat)
    requires k < |ws|
    ensures RenderWords(ws)[k] == RenderWord(ws[k])
    decreases k
  {
    if k > 0 {
      RenderWordsAt(ws[1..], k - 1);
    }
  }

  lemma {:induction false} RenderLinesAt(ls: seq<Line>, k: nat)
    requires k < |ls|
    ensures RenderLines(ls)[k] == RenderLine(ls[k])
    decreases k
  {
    if k > 0 {
      RenderLinesAt(ls[1..], k - 1);
    }
  }

  lemma {:induction false} FillAllAt(ss: seq<string>, env: Env, k: nat)
    requires k < |ss|
    ensures FillAll(ss, env)[k] == Fill(ss[k], env)
    decreases k
  {
    if k > 0 {
      FillAllAt(ss[1..], env, k - 1);
    }
  }

  lemma {:induction false} SubstituteAllAt(ws: seq<Word>, env: Env, k: nat)
    requires k < |ws|
    ensures SubstituteAll(ws, env)[k] == Substitute(ws[k], env)
    decreases k
  {
    if k > 0 {
      SubstituteAllAt(ws[1..], env, k - 1);
    }
  }

  lemma NoMarkerOfSlice(t: string, s: string)
    requires IsSlice(t, s) && NoMarker(s)
    ensures NoMarker(t)
  {
    var a, b :| 0 <= a <= b <= |s| && t == s[a..b];
    NoMarkerSlice(s, a, b);
  }

  /** A word is anchored by any durable character of its literal text. */
  lemma AnchoredAt(w: Word, env: Env, i: nat, j: nat)
    requires i < |w| && w[i].Text? && j < |w[i].text| && Durable(w[i].text[j], env)
    ensures Anchored(w, env)
  {
  }

  /** Substituting into a word and rendering it works piece by piece. */
  lemma RenderSubstituteCons(p: Piece, w: Word, env: Env)
    ensures RenderWord(Substitute([p] + w, env)) == RenderPiece(SubstPiece(p, env)) + RenderWord(Substitute(w, env))
  {
    var x := [p] + w;
    assert x[0] == p && x[1..] == w;
    var y := Substitute(x, env);
    assert y[0] == SubstPiece(p, env) && y[1..] == Substitute(w, env);
  }

  lemma RenderSubstituteLast(p: Piece, env: Env)
    ensures RenderWord(Substitute([p], env)) == RenderPiece(SubstPiece(p, env))
  {
    assert [p][1..] == [];
    var y := Substitute([p], env);
    assert y[1..] == [];
  }

  lemma RenderSubstitute2(a: Piece, b: Piece, env: Env)
    ensures RenderWord(Substitute([a, b], env)) == RenderPiece(SubstPiece(a, env)) + RenderPiece(SubstPiece(b, env))
  {
    assert [a, b] == [a] + [b];
    RenderSubstituteCons(a, [b], env);
    RenderSubstituteLast(b, env);
  }

  lemma RenderSubstitute3(a: Piece, b: Piece, c: Piece, env: Env)
    ensures RenderWord(Substitute([a, b, c], env))
         == RenderPiece(SubstPiece(a, env)) + (RenderPiece(SubstPiece(b, env)) + RenderPiece(SubstPiece(c, env)))
  {
    assert [a, b, c] == [a] + [b, c];
    RenderSubstituteCons(a, [b, c], env);
    RenderSubstitute2(b, c, env);
  }

  lemma {:induction false} RenderSubstituteAppend(a: Word, b: Word, env: Env)
    ensures RenderWord(Substitute(a + b, env)) == RenderWord(Substitute(a, env)) + RenderWord(Substitute(b, env))
    decreases |a|
  {
    if a == [] {
      assert a + b == b;
    } else {
      calc {
        RenderWord(Substitute(a + b, env));
        { assert a + b == [a[0]] + (a[1..] + b); RenderSubstituteCons(a[0], a[1..] + b, env); }
        RenderPiece(SubstPiece(a[0], env)) + RenderWord(Substitute(a[1..] + b, env));
        { RenderSubstituteAppend(a[1..], b, env); }
        RenderPiece(SubstPiece(a[0], env)) + (RenderWord(Substitute(a[1..], env)) + RenderWord(Substitute(b, env)));
        { Assoc3(RenderPiece(SubstPiece(a[0], env)), RenderWord(Substitute(a[1..], env)), RenderWord(Substitute(b, env))); }
        (RenderPiece(SubstPiece(a[0], env)) + RenderWord(Substitute(a[1..], env))) + RenderWord(Substitute(b, env));
        { assert a == [a[0]] + a[1..]; RenderSubstituteCons(a[0], a[1..], env); }
        RenderWord(Substitute(a, env)) + RenderWord(Substitute(b, env));
      }
    }
  }

  /** A name made of ASCII letters only. */
  predicate Letters(n: Name) {
    forall i :: 0 <= i < |n| ==> 'a' <= n[i] <= 'z' || 'A' <= n[i] <= 'Z'
  }

  /** Names made of letters only cannot hold any other character. */
  lemma DurableNonLetter(c: char, env: Env)
    requires c != '$' && c != '{' && c != '}' && !('a' <= c <= 'z') && !('A' <= c <= 'Z')
    requires forall k :: 0 <= k < |env| ==> Letters(env[k].name)
    ensures Durable(c, env)
  {
    forall k | 0 <= k < |env| ensures c !in env[k].name {
      assert Letters(env[k].name);
    }
  }

  lemma BoundAppend(a: Word, b: Word, env: Env)
    requires Bound(a, env) && Bound(b, env)
    ensures Bound(a + b, env)
  {
    forall k | 0 <= k < |a + b| && (a + b)[k].Hole? ensures (a + b)[k].name in Names(env) {
      if k >= |a| {
        assert (a + b)[k] == b[k - |a|];
      }
    }
  }
}
