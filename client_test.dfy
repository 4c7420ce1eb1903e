/** test.client.ClientTest: runs the app client from the unpacked ear
    with a command line built from a text block, one argument per
    non-blank line. */
module ClientTest {
  import opened Wrappers
  import opened JavaString
  import opened JavaSplit
  import opened Template
  import opened CommandLine
  import opened ClientOptions
  import opened Launch

  /** The placeholder the client name is written into, and the fixed
      value every call puts there. */
  const JarName: Name := "clientJarName"
  const ClientMain: string := "client-main"

  const EarDirectory: string := "target/app-client.ear"
  const ClientJarPath: string := "target/app-client.ear/client-main.jar"

  /** The text block of getClientCmdLine, line by line. */
  const ClientTemplate: seq<Line> := [
    Line(0, [JavaWord]),
    Indented([DebugWord]),
    Indented([InstallRootWord]),
    Indented([PolicyWord]),
    Indented([LoginWord]),
    Indented([LoaderWord]),
    ClientOptions.Blank,
    Indented([AgentWord(JarName)]),
    ClientOptions.Blank,
    Indented([ClasspathWord]),
    Indented([ClasspathValueWord]),
    ClientOptions.Blank,
    Indented([MainClassWord]),
    ClientOptions.Blank
  ]

  /** The four replace calls, in their order; the third always writes
      "client-main". */
  function ClientEnv(glassfishHome: string, clientJar: string, suspend: string): Env {
    [Binding(GlassfishHomeName, glassfishHome), Binding(ClientJarName, clientJar),
     Binding(JarName, ClientMain), Binding(SuspendName, suspend)]
  }

  lemma ClientTemplateWritten(env: Env)
    requires Anchors(env)
    ensures LiteralLines(ClientTemplate) && WrittenLines(ClientTemplate, env)
  {
    JavaWordWritten(env);
    DebugWordWritten(env);
    InstallRootWordWritten(env);
    PolicyWordWritten(env);
    LoginWordWritten(env);
    LoaderWordWritten(env);
    AgentWordWritten(JarName, env);
    ClasspathWordWritten(env);
    ClasspathValueWordWritten(env);
    MainClassWordWritten(env);
    var T := ClientTemplate;
    assert T == [T[0], T[1], T[2], T[3], T[4], T[5], T[6], T[7], T[8], T[9], T[10], T[11], T[12], T[13]];
    WrittenLine(T[0], env);
    WrittenLine(T[1], env);
    WrittenLine(T[2], env);
    WrittenLine(T[3], env);
    WrittenLine(T[4], env);
    WrittenLine(T[5], env);
    WrittenLine(T[6], env);
    WrittenLine(T[7], env);
    WrittenLine(T[8], env);
    WrittenLine(T[9], env);
    WrittenLine(T[10], env);
    WrittenLine(T[11], env);
    WrittenLine(T[12], env);
    WrittenLine(T[13], env);
    WrittenOf14(T[0], T[1], T[2], T[3], T[4], T[5], T[6], T[7], T[8], T[9], T[10], T[11], T[12], T[13], env);
  }

  lemma ClientTemplateBound(env: Env)
    requires BindsShared(env) && JarName in Names(env)
    ensures BoundLines(ClientTemplate, env)
  {
    SharedWordsBound(env);
    AgentWordBound(env, JarName);
  }

  lemma ClientEnvClean(glassfishHome: string, clientJar: string, suspend: string)
    requires NoMarker(glassfishHome) && NoMarker(clientJar) && NoMarker(suspend)
    ensures ValuesNoMarker(ClientEnv(glassfishHome, clientJar, suspend))
  {
    assert NoMarker(ClientMain) by {
      assert forall k :: 0 <= k < |ClientMain| ==> ClientMain[k] != '$';
    }
  }

  lemma ClientEnvVisible(glassfishHome: string, clientJar: string, suspend: string)
    requires AllVisible(glassfishHome) && AllVisible(clientJar) && AllVisible(suspend)
    ensures forall k :: 0 <= k < 4 ==> AllVisible(ClientEnv(glassfishHome, clientJar, suspend)[k].value)
  {
    assert AllVisible(ClientMain) by {
      assert forall k :: 0 <= k < |ClientMain| ==> ClientMain[k] > ' ';
    }
  }

  lemma ClientEnvAnchors(glassfishHome: string, clientJar: string, suspend: string)
    ensures Anchors(ClientEnv(glassfishHome, clientJar, suspend))
  {
    var env := ClientEnv(glassfishHome, clientJar, suspend);
    assert forall k :: 0 <= k < |env| ==> Letters(env[k].name);
    DurableNonLetter('-', env);
    DurableNonLetter('/', env);
    DurableNonLetter('.', env);
  }

  lemma ClientEnvNames(glassfishHome: string, clientJar: string, suspend: string)
    ensures Names(ClientEnv(glassfishHome, clientJar, suspend)) == [GlassfishHomeName, ClientJarName, JarName, SuspendName]
  {
  }

  lemma ClientEnvLookup(glassfishHome: string, clientJar: string, suspend: string)
    ensures Lookup(ClientEnv(glassfishHome, clientJar, suspend), GlassfishHomeName) == Some(glassfishHome)
    ensures Lookup(ClientEnv(glassfishHome, clientJar, suspend), ClientJarName) == Some(clientJar)
    ensures Lookup(ClientEnv(glassfishHome, clientJar, suspend), JarName) == Some(ClientMain)
    ensures Lookup(ClientEnv(glassfishHome, clientJar, suspend), SuspendName) == Some(suspend)
  {
    var env := ClientEnv(glassfishHome, clientJar, suspend);
    assert env[1..] == [env[1], env[2], env[3]] && env[1..][1..] == [env[2], env[3]] && env[1..][1..][1..] == [env[3]];
  }

  // ---------------------------------------------------------------------
  // getClientCmdLine
  // ---------------------------------------------------------------------

  /** getClientCmdLine: the text block split at its line breaks, the four
      placeholders filled line by line, every line trimmed and the blank
      ones dropped. No argument is empty or has a blank at either end. */
  function ClientCmdLine(glassfishHome: string, clientJar: string, suspend: string): (r: seq<string>)
    ensures forall k :: 0 <= k < |r| ==> r[k] != [] && Trimmed(r[k])
  {
    Arguments(SplitLines(Render(ClientTemplate)), ClientEnv(glassfishHome, clientJar, suspend))
  }

  /** The command line is the arguments of the template lines, one line
      after the other. */
  lemma ClientArguments(glassfishHome: string, clientJar: string, suspend: string)
    ensures ClientCmdLine(glassfishHome, clientJar, suspend)
         == TemplateArguments(ClientTemplate, ClientEnv(glassfishHome, clientJar, suspend))
    ensures WrittenLines(ClientTemplate, ClientEnv(glassfishHome, clientJar, suspend))
    ensures BoundLines(ClientTemplate, ClientEnv(glassfishHome, clientJar, suspend))
  {
    var env := ClientEnv(glassfishHome, clientJar, suspend);
    ClientEnvAnchors(glassfishHome, clientJar, suspend);
    ClientEnvNames(glassfishHome, clientJar, suspend);
    ClientTemplateWritten(env);
    ClientTemplateBound(env);
    ArgumentsOfText(ClientTemplate, env);
  }

  /** The lines of the text block that hold a word: all but the four
      blank ones. */
  lemma ClientWordLinesOf()
    ensures var T := ClientTemplate;
            WordLines(T) == [T[0], T[1], T[2], T[3], T[4], T[5], T[7], T[9], T[10], T[12]]
  {
    var T := ClientTemplate;
    assert T == [T[0], T[1], T[2], T[3], T[4], T[5], T[6], T[7], T[8], T[9], T[10], T[11], T[12], T[13]];
    ClientShape(T[0], T[1], T[2], T[3], T[4], T[5], T[6], T[7], T[8], T[9], T[10], T[11], T[12], T[13]);
  }

  /** Which lines of fourteen of the client's shape hold a word. */
  lemma ClientShape(l0: Line, l1: Line, l2: Line, l3: Line, l4: Line, l5: Line, l6: Line,
                    l7: Line, l8: Line, l9: Line, l10: Line, l11: Line, l12: Line, l13: Line)
    requires l0.words != [] && l1.words != [] && l2.words != [] && l3.words != [] && l4.words != []
    requires l5.words != [] && l6.words == [] && l7.words != [] && l8.words == [] && l9.words != []
    requires l10.words != [] && l11.words == [] && l12.words != [] && l13.words == []
    ensures WordLines([l0, l1, l2, l3, l4, l5, l6, l7, l8, l9, l10, l11, l12, l13])
         == [l0, l1, l2, l3, l4, l5, l7, l9, l10, l12]
  {
    var s14: seq<Line> := [];
    var s13 := [l13] + s14;
    var s12 := [l12] + s13;
    var s11 := [l11] + s12;
    var s10 := [l10] + s11;
    var s9 := [l9] + s10;
    var s8 := [l8] + s9;
    var s7 := [l7] + s8;
    var s6 := [l6] + s7;
    var s5 := [l5] + s6;
    var s4 := [l4] + s5;
    var s3 := [l3] + s4;
    var s2 := [l2] + s3;
    var s1 := [l1] + s2;
    var s0 := [l0] + s1;
    WordLinesKeep(l0, s1);
    WordLinesKeep(l1, s2);
    WordLinesKeep(l2, s3);
    WordLinesKeep(l3, s4);
    WordLinesKeep(l4, s5);
    WordLinesKeep(l5, s6);
    WordLinesSkip(l6, s7);
    WordLinesKeep(l7, s8);
    WordLinesSkip(l8, s9);
    WordLinesKeep(l9, s10);
    WordLinesKeep(l10, s11);
    WordLinesSkip(l11, s12);
    WordLinesKeep(l12, s13);
    WordLinesSkip(l13, s14);
    SeqOf14(l0, l1, l2, l3, l4, l5, l6, l7, l8, l9, l10, l11, l12, l13);
    Gather(l0, l1, l2, l3, l4, l5, l7, l9, l10, l12);
  }

  /** Whatever the values, there are exactly ten arguments, and each is
      one non-blank template line, filled and trimmed, in template order:
      a value holding a space stays inside its argument. */
  lemma ClientArgumentsAreLines(glassfishHome: string, clientJar: string, suspend: string)
    ensures ClientCmdLine(glassfishHome, clientJar, suspend)
         == FilledLines(WordLines(ClientTemplate), ClientEnv(glassfishHome, clientJar, suspend))
    ensures |ClientCmdLine(glassfishHome, clientJar, suspend)| == 10
  {
    var env := ClientEnv(glassfishHome, clientJar, suspend);
    ClientArguments(glassfishHome, clientJar, suspend);
    TemplateArgumentsLines(ClientTemplate, env);
    ClientWordLinesOf();
  }

  /** Whatever the values, the first argument is "java", and "-classpath"
      is followed at once by the gf-client.jar line, filled and trimmed. */
  lemma ClientPositions(glassfishHome: string, clientJar: string, suspend: string)
    ensures var r := ClientCmdLine(glassfishHome, clientJar, suspend);
            |r| == 10 && r[0] == "java" && r[7] == "-classpath"
            && r[8] == Trim(Fill(RenderLine(Indented([ClasspathValueWord])), ClientEnv(glassfishHome, clientJar, suspend)))
  {
    var env := ClientEnv(glassfishHome, clientJar, suspend);
    var W := WordLines(ClientTemplate);
    ClientArgumentsAreLines(glassfishHome, clientJar, suspend);
    ClientWordLinesOf();
    assert W[0] == Line(0, [[Text("java")]]);
    assert W[7] == Line(4, [[Text(ClasspathOption)]]);
    assert W[8] == Indented([ClasspathValueWord]);
    FilledLinesAt(W, env, 0);
    FilledLinesAt(W, env, 7);
    FilledLinesAt(W, env, 8);
    IndentedConstant(0, "java", env);
    IndentedConstant(4, ClasspathOption, env);
  }

  /** What the template is written to give, for fourteen lines of the
      client's shape. */
  lemma ClientExpectedShape(l0: Line, l1: Line, l2: Line, l3: Line, l4: Line, l5: Line, l6: Line, l7: Line,
                              l8: Line, l9: Line, l10: Line, l11: Line, l12: Line, l13: Line, env: Env)
    requires l0.words != [] && l1.words != [] && l2.words != [] && l3.words != [] && l4.words != []
    requires l5.words != [] && l6.words == [] && l7.words != [] && l8.words == [] && l9.words != []
    requires l10.words != [] && l11.words == [] && l12.words != [] && l13.words == []
    ensures ExpectedArguments([l0, l1, l2, l3, l4, l5, l6, l7, l8, l9, l10, l11, l12, l13], env)
         == [LineText(l0, env), LineText(l1, env), LineText(l2, env), LineText(l3, env), LineText(l4, env),
             LineText(l5, env), LineText(l7, env), LineText(l9, env), LineText(l10, env), LineText(l12, env)]
  {
    var s14: seq<Line> := [];
    var s13 := [l13] + s14;
    var s12 := [l12] + s13;
    var s11 := [l11] + s12;
    var s10 := [l10] + s11;
    var s9 := [l9] + s10;
    var s8 := [l8] + s9;
    var s7 := [l7] + s8;
    var s6 := [l6] + s7;
    var s5 := [l5] + s6;
    var s4 := [l4] + s5;
    var s3 := [l3] + s4;
    var s2 := [l2] + s3;
    var s1 := [l1] + s2;
    var s0 := [l0] + s1;
    ExpectedArgumentsKeep(l0, s1, env);
    ExpectedArgumentsKeep(l1, s2, env);
    ExpectedArgumentsKeep(l2, s3, env);
    ExpectedArgumentsKeep(l3, s4, env);
    ExpectedArgumentsKeep(l4, s5, env);
    ExpectedArgumentsKeep(l5, s6, env);
    ExpectedArgumentsSkip(l6, s7, env);
    ExpectedArgumentsKeep(l7, s8, env);
    ExpectedArgumentsSkip(l8, s9, env);
    ExpectedArgumentsKeep(l9, s10, env);
    ExpectedArgumentsKeep(l10, s11, env);
    ExpectedArgumentsSkip(l11, s12, env);
    ExpectedArgumentsKeep(l12, s13, env);
    ExpectedArgumentsSkip(l13, s14, env);
    SeqOf14(l0, l1, l2, l3, l4, l5, l6, l7, l8, l9, l10, l11, l12, l13);
    Gather(LineText(l0, env), LineText(l1, env), LineText(l2, env), LineText(l3, env), LineText(l4, env),
           LineText(l5, env), LineText(l7, env), LineText(l9, env), LineText(l10, env), LineText(l12, env));
  }

  /** The command line the text block spells out, with the values in
      place of the placeholders and "client-main" as the client name. */
  function ClientCommand(glassfishHome: string, clientJar: string, suspend: string): seq<string> {
    ["java", DebugArg(suspend), InstallRootArg(glassfishHome), PolicyArg(glassfishHome),
     LoginArg(glassfishHome), LoaderOption, AgentArg(glassfishHome, clientJar, ClientMain),
     ClasspathOption, ClasspathArg(glassfishHome, clientJar), MainClass]
  }

  lemma ClientExpectedCommand(env: Env, glassfishHome: string, clientJar: string, suspend: string)
    requires Lookup(env, GlassfishHomeName) == Some(glassfishHome)
    requires Lookup(env, ClientJarName) == Some(clientJar)
    requires Lookup(env, JarName) == Some(ClientMain)
    requires Lookup(env, SuspendName) == Some(suspend)
    ensures ExpectedArguments(ClientTemplate, env) == ClientCommand(glassfishHome, clientJar, suspend)
  {
    var T := ClientTemplate;
    assert T == [T[0], T[1], T[2], T[3], T[4], T[5], T[6], T[7], T[8], T[9], T[10], T[11], T[12], T[13]];
    ClientExpectedShape(T[0], T[1], T[2], T[3], T[4], T[5], T[6], T[7], T[8], T[9], T[10], T[11], T[12], T[13], env);
    ConstantFilled("java", env); LineTextOne(T[0], JavaWord, env, "java");
    DebugWordFilled(env, suspend); LineTextOne(T[1], DebugWord, env, DebugArg(suspend));
    InstallRootWordFilled(env, glassfishHome); LineTextOne(T[2], InstallRootWord, env, InstallRootArg(glassfishHome));
    PolicyWordFilled(env, glassfishHome); LineTextOne(T[3], PolicyWord, env, PolicyArg(glassfishHome));
    LoginWordFilled(env, glassfishHome); LineTextOne(T[4], LoginWord, env, LoginArg(glassfishHome));
    ConstantFilled(LoaderOption, env); LineTextOne(T[5], LoaderWord, env, LoaderOption);
    AgentWordFilled(env, glassfishHome, clientJar, JarName, ClientMain);
    LineTextOne(T[7], AgentWord(JarName), env, AgentArg(glassfishHome, clientJar, ClientMain));
    ConstantFilled(ClasspathOption, env); LineTextOne(T[9], ClasspathWord, env, ClasspathOption);
    ClasspathValueWordFilled(env, glassfishHome, clientJar);
    LineTextOne(T[10], ClasspathValueWord, env, ClasspathArg(glassfishHome, clientJar));
    ConstantFilled(MainClass, env); LineTextOne(T[12], MainClassWord, env, MainClass);
  }

  /** When no value holds "${" or a blank character, the command line is
      exactly the text block's lines with the values put in, the client
      name being "client-main" whatever the arguments. */
  lemma ClientExact(glassfishHome: string, clientJar: string, suspend: string)
    requires NoMarker(glassfishHome) && NoMarker(clientJar) && NoMarker(suspend)
    requires AllVisible(glassfishHome) && AllVisible(clientJar) && AllVisible(suspend)
    ensures ClientCmdLine(glassfishHome, clientJar, suspend) == ClientCommand(glassfishHome, clientJar, suspend)
  {
    var env := ClientEnv(glassfishHome, clientJar, suspend);
    ClientArguments(glassfishHome, clientJar, suspend);
    ClientEnvClean(glassfishHome, clientJar, suspend);
    ClientEnvVisible(glassfishHome, clientJar, suspend);
    TemplateArgumentsExact(ClientTemplate, env);
    ClientEnvLookup(glassfishHome, clientJar, suspend);
    ClientExpectedCommand(env, glassfishHome, clientJar, suspend);
  }

  /** When no value holds "${", no argument holds "${": every placeholder
      has been replaced. */
  lemma ClientNoPlaceholder(glassfishHome: string, clientJar: string, suspend: string)
    requires NoMarker(glassfishHome) && NoMarker(clientJar) && NoMarker(suspend)
    ensures forall k :: 0 <= k < |ClientCmdLine(glassfishHome, clientJar, suspend)| ==>
              NoMarker(ClientCmdLine(glassfishHome, clientJar, suspend)[k])
  {
    var env := ClientEnv(glassfishHome, clientJar, suspend);
    ClientArguments(glassfishHome, clientJar, suspend);
    ClientEnvClean(glassfishHome, clientJar, suspend);
    TemplateNoMarker(ClientTemplate, env);
  }

  // ---------------------------------------------------------------------
  // runClient
  // ---------------------------------------------------------------------

  /** runClient: lists the unpacked ear (which fails when it is missing),
      then starts the app client from the client jar inside it and judges
      it by Await. The properties, whether the ear directory exists and the
      app client's finishing and exit value are parameters. */
  function RunClient(homeProperty: Option<string>, suspendProperty: Option<string>, earExists: bool,
                     finished: bool, exitValue: int): (r: Run)
    ensures |r.launched| == (if earExists then 1 else 0)
    ensures earExists ==>
              r.launched[0] == ClientCmdLine(GlassfishHome(homeProperty), ClientJarPath, SuspendFlag(suspendProperty))
              && Verdict(r.calls, r.thrown) == Await(finished, exitValue)
    ensures !earExists ==> r.calls == [] && r.thrown == Some(NoSuchFile(EarDirectory))
    ensures r.thrown.None? <==> earExists && finished && exitValue == 0
  {
    if !earExists then
      Run([], [], Some(NoSuchFile(EarDirectory)))
    else
      var v := Await(finished, exitValue);
      Run([ClientCmdLine(GlassfishHome(homeProperty), ClientJarPath, SuspendFlag(suspendProperty))], v.calls, v.thrown)
  }

  /** The app client command runClient starts has ten arguments, begins
      with "java" and names the client jar inside the unpacked ear, for
      every value of the properties. */
  lemma RunClientCommand(homeProperty: Option<string>, suspendProperty: Option<string>, finished: bool, exitValue: int)
    ensures var c := RunClient(homeProperty, suspendProperty, true, finished, exitValue).launched[0];
            |c| == 10 && c[0] == "java" && c[7] == "-classpath"
  {
    ClientPositions(GlassfishHome(homeProperty), ClientJarPath, SuspendFlag(suspendProperty));
  }
}
