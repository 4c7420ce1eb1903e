/** test.glassfish.ClientTest: downloads the client stub jar from the
    server with asadmin, then runs the app client from it with a command
    line built from a text block. */
module GlassfishClientTest {
  import opened Wrappers
  import opened JavaString
  import opened JavaSplit
  import opened Words
  import opened Template
  import opened CommandLine
  import opened ClientOptions
  import opened Launch

  const AppName: string := "app-client"
  const AppClientModuleName: string := "client-main"

  const ModuleName: Name := "appClientModuleName"

  /** The text block of getStartAppClientCmdLine, line by line. */
  const StartTemplate: seq<Line> := [
    Line(0, [JavaWord]),
    Indented([DebugWord]),
    ClientOptions.Blank,
    Indented([InstallRootWord]),
    Indented([PolicyWord]),
    Indented([LoginWord]),
    Indented([LoaderWord]),
    ClientOptions.Blank,
    Indented([AgentWord(ModuleName)]),
    ClientOptions.Blank,
    Indented([ClasspathWord, ClasspathValueWord]),
    ClientOptions.Blank,
    Indented([MainClassWord]),
    ClientOptions.Blank
  ]

  /** The four replace calls, in their order. */
  function StartEnv(glassfishHome: string, clientJar: string, appClientModuleName: string, suspend: string): Env {
    [Binding(GlassfishHomeName, glassfishHome), Binding(ClientJarName, clientJar),
     Binding(ModuleName, appClientModuleName), Binding(SuspendName, suspend)]
  }

  /** Every line of the text block is written so that filling can neither
      erase a word nor join two, whatever the values. */
  lemma StartTemplateWritten(env: Env)
    requires Anchors(env)
    ensures LiteralLines(StartTemplate) && WrittenLines(StartTemplate, env)
  {
    JavaWordWritten(env);
    DebugWordWritten(env);
    InstallRootWordWritten(env);
    PolicyWordWritten(env);
    LoginWordWritten(env);
    LoaderWordWritten(env);
    AgentWordWritten(ModuleName, env);
    ClasspathWordWritten(env);
    ClasspathValueWordWritten(env);
    MainClassWordWritten(env);
    var T := StartTemplate;
    assert T == [T[0], T[1], T[2], T[3], T[4], T[5], T[6], T[7], T[8], T[9], T[10], T[11], T[12], T[13]];
    WrittenLine(T[0], env);
    WrittenLine(T[1], env);
    WrittenLine(T[2], env);
    WrittenLine(T[3], env);
    WrittenLine(T[4], env);
    WrittenLine(T[5], env);
    WrittenLine(T[6], env);
    WrittenLine(T[7], env);
    WrittenLine(T[8], env);
    WrittenLine(T[9], env);
    WrittenLine(T[10], env);
    WrittenLine(T[11], env);
    WrittenLine(T[12], env);
    WrittenLine(T[13], env);
    WrittenOf14(T[0], T[1], T[2], T[3], T[4], T[5], T[6], T[7], T[8], T[9], T[10], T[11], T[12], T[13], env);
  }

  /** Every placeholder of the text block is one of the four the replace
      calls fill. */
  lemma StartTemplateBound(env: Env)
    requires BindsShared(env) && ModuleName in Names(env)
    ensures BoundLines(StartTemplate, env)
  {
    SharedWordsBound(env);
    AgentWordBound(env, ModuleName);
  }

  lemma StartEnvAvoids(glassfishHome: string, clientJar: string, appClientModuleName: string, suspend: string)
    requires ' ' !in glassfishHome && ' ' !in clientJar && ' ' !in appClientModuleName && ' ' !in suspend
    ensures ValuesAvoid(StartEnv(glassfishHome, clientJar, appClientModuleName, suspend), ' ')
  {
  }

  lemma StartEnvClean(glassfishHome: string, clientJar: string, appClientModuleName: string, suspend: string)
    requires NoMarker(glassfishHome) && NoMarker(clientJar) && NoMarker(appClientModuleName) && NoMarker(suspend)
    ensures ValuesNoMarker(StartEnv(glassfishHome, clientJar, appClientModuleName, suspend))
  {
  }

  lemma StartEnvVisible(glassfishHome: string, clientJar: string, appClientModuleName: string, suspend: string)
    requires AllVisible(glassfishHome) && AllVisible(clientJar) && AllVisible(appClientModuleName) && AllVisible(suspend)
    ensures forall k :: 0 <= k < 4 ==> AllVisible(StartEnv(glassfishHome, clientJar, appClientModuleName, suspend)[k].value)
  {
  }

  lemma StartEnvAnchors(glassfishHome: string, clientJar: string, appClientModuleName: string, suspend: string)
    ensures Anchors(StartEnv(glassfishHome, clientJar, appClientModuleName, suspend))
  {
    var env := StartEnv(glassfishHome, clientJar, appClientModuleName, suspend);
    assert forall k :: 0 <= k < |env| ==> Letters(env[k].name);
    DurableNonLetter('-', env);
    DurableNonLetter('/', env);
    DurableNonLetter('.', env);
  }

  lemma StartEnvNames(glassfishHome: string, clientJar: string, appClientModuleName: string, suspend: string)
    ensures Names(StartEnv(glassfishHome, clientJar, appClientModuleName, suspend)) == [GlassfishHomeName, ClientJarName, ModuleName, SuspendName]
  {
  }

  lemma StartEnvLookup(glassfishHome: string, clientJar: string, appClientModuleName: string, suspend: string)
    ensures Lookup(StartEnv(glassfishHome, clientJar, appClientModuleName, suspend), GlassfishHomeName) == Some(glassfishHome)
    ensures Lookup(StartEnv(glassfishHome, clientJar, appClientModuleName, suspend), ClientJarName) == Some(clientJar)
    ensures Lookup(StartEnv(glassfishHome, clientJar, appClientModuleName, suspend), ModuleName) == Some(appClientModuleName)
    ensures Lookup(StartEnv(glassfishHome, clientJar, appClientModuleName, suspend), SuspendName) == Some(suspend)
  {
    var env := StartEnv(glassfishHome, clientJar, appClientModuleName, suspend);
    assert env[1..] == [env[1], env[2], env[3]] && env[1..][1..] == [env[2], env[3]] && env[1..][1..][1..] == [env[3]];
  }

  // ---------------------------------------------------------------------
  // getStartAppClientCmdLine
  // ---------------------------------------------------------------------

  /** getStartAppClientCmdLine: the text block split at its line breaks,
      the four placeholders filled line by line, every line trimmed, the
      blank ones dropped and the rest split on runs of spaces. No token is
      empty and none holds a space, whatever the values. */
  function StartAppClientCmdLine(glassfishHome: string, clientJar: string, appClientModuleName: string, suspend: string): (r: seq<string>)
    ensures forall k :: 0 <= k < |r| ==> r[k] != [] && ' ' !in r[k]
  {
    var env := StartEnv(glassfishHome, clientJar, appClientModuleName, suspend);
    SplitAll(Arguments(SplitLines(Render(StartTemplate)), env))
  }

  /** The command line is the tokens of the template lines, one line after
      the other. */
  lemma StartTokens(glassfishHome: string, clientJar: string, appClientModuleName: string, suspend: string)
    ensures StartAppClientCmdLine(glassfishHome, clientJar, appClientModuleName, suspend)
         == TemplateTokens(StartTemplate, StartEnv(glassfishHome, clientJar, appClientModuleName, suspend))
    ensures WrittenLines(StartTemplate, StartEnv(glassfishHome, clientJar, appClientModuleName, suspend))
    ensures BoundLines(StartTemplate, StartEnv(glassfishHome, clientJar, appClientModuleName, suspend))
  {
    var env := StartEnv(glassfishHome, clientJar, appClientModuleName, suspend);
    StartEnvAnchors(glassfishHome, clientJar, appClientModuleName, suspend);
    StartEnvNames(glassfishHome, clientJar, appClientModuleName, suspend);
    StartTemplateWritten(env);
    StartTemplateBound(env);
    ArgumentsOfText(StartTemplate, env);
    TokensOfArguments(StartTemplate, env);
  }

  /** The first token is "java", whatever the values. */
  lemma StartFirstToken(glassfishHome: string, clientJar: string, appClientModuleName: string, suspend: string)
    ensures |StartAppClientCmdLine(glassfishHome, clientJar, appClientModuleName, suspend)| >= 1
    ensures StartAppClientCmdLine(glassfishHome, clientJar, appClientModuleName, suspend)[0] == "java"
  {
    var env := StartEnv(glassfishHome, clientJar, appClientModuleName, suspend);
    StartTokens(glassfishHome, clientJar, appClientModuleName, suspend);
    ConstantLine("java", env);
    assert StartTemplate[0] == Line(0, [[Text("java")]]);
  }

  lemma StartWordCount()
    ensures WordCount(StartTemplate) == 10
  {
    var T := StartTemplate;
    assert T == [T[0], T[1], T[2], T[3], T[4], T[5], T[6], T[7], T[8], T[9], T[10], T[11], T[12], T[13]];
    WordCountOf14(T[0], T[1], T[2], T[3], T[4], T[5], T[6], T[7], T[8], T[9], T[10], T[11], T[12], T[13]);
  }


  /** When no value holds a space, the command line has exactly 10 tokens:
      the 9 lines with words, one of them holding two. */
  lemma StartTokenCount(glassfishHome: string, clientJar: string, appClientModuleName: string, suspend: string)
    requires ' ' !in glassfishHome && ' ' !in clientJar && ' ' !in appClientModuleName && ' ' !in suspend
    ensures |StartAppClientCmdLine(glassfishHome, clientJar, appClientModuleName, suspend)| == 10
  {
    var env := StartEnv(glassfishHome, clientJar, appClientModuleName, suspend);
    StartTokens(glassfishHome, clientJar, appClientModuleName, suspend);
    StartEnvAvoids(glassfishHome, clientJar, appClientModuleName, suspend);
    TemplateTokensCount(StartTemplate, env);
    StartWordCount();
  }

  /** The tokens keep the order of the text: put together, they are the
      non-blank lines, each filled and trimmed, in their order, without
      their spaces. */
  lemma StartKeepsOrder(glassfishHome: string, clientJar: string, appClientModuleName: string, suspend: string)
    ensures Concat(StartAppClientCmdLine(glassfishHome, clientJar, appClientModuleName, suspend))
         == Without(Concat(FilledLines(WordLines(StartTemplate), StartEnv(glassfishHome, clientJar, appClientModuleName, suspend))), ' ')
  {
    var env := StartEnv(glassfishHome, clientJar, appClientModuleName, suspend);
    StartTokens(glassfishHome, clientJar, appClientModuleName, suspend);
    ArgumentsOfText(StartTemplate, env);
    TemplateArgumentsLines(StartTemplate, env);
    SplitAllKeepsOrder(TemplateArguments(StartTemplate, env));
  }

  /** When no value holds "${", no token holds "${": every placeholder has
      been replaced. */
  lemma StartNoPlaceholder(glassfishHome: string, clientJar: string, appClientModuleName: string, suspend: string)
    requires NoMarker(glassfishHome) && NoMarker(clientJar) && NoMarker(appClientModuleName) && NoMarker(suspend)
    ensures forall k :: 0 <= k < |StartAppClientCmdLine(glassfishHome, clientJar, appClientModuleName, suspend)| ==>
              NoMarker(StartAppClientCmdLine(glassfishHome, clientJar, appClientModuleName, suspend)[k])
  {
    var env := StartEnv(glassfishHome, clientJar, appClientModuleName, suspend);
    StartTokens(glassfishHome, clientJar, appClientModuleName, suspend);
    StartEnvClean(glassfishHome, clientJar, appClientModuleName, suspend);
    TemplateNoMarker(StartTemplate, env);
  }

  /** The command line the text block spells out, with the values in
      place of the placeholders. */
  function StartCommand(glassfishHome: string, clientJar: string, appClientModuleName: string, suspend: string): seq<string> {
    ["java", DebugArg(suspend), InstallRootArg(glassfishHome), PolicyArg(glassfishHome),
     LoginArg(glassfishHome), LoaderOption, AgentArg(glassfishHome, clientJar, appClientModuleName),
     ClasspathOption, ClasspathArg(glassfishHome, clientJar), MainClass]
  }

  /** Every line of the text block contributes exactly the words the
      command line shows. */
  lemma StartExpectedCommand(env: Env, glassfishHome: string, clientJar: string, appClientModuleName: string, suspend: string)
    requires Lookup(env, GlassfishHomeName) == Some(glassfishHome)
    requires Lookup(env, ClientJarName) == Some(clientJar)
    requires Lookup(env, ModuleName) == Some(appClientModuleName)
    requires Lookup(env, SuspendName) == Some(suspend)
    ensures ExpectedTokens(StartTemplate, env) == StartCommand(glassfishHome, clientJar, appClientModuleName, suspend)
  {
    var T := StartTemplate;
    assert T == [T[0], T[1], T[2], T[3], T[4], T[5], T[6], T[7], T[8], T[9], T[10], T[11], T[12], T[13]];
    ExpectedTokensOf14(T[0], T[1], T[2], T[3], T[4], T[5], T[6], T[7], T[8], T[9], T[10], T[11], T[12], T[13], env);
    ConstantFilled("java", env); LineWordsOne(T[0], JavaWord, env, "java");
    DebugWordFilled(env, suspend); LineWordsOne(T[1], DebugWord, env, DebugArg(suspend));
    LineWordsNone(T[2], env);
    InstallRootWordFilled(env, glassfishHome); LineWordsOne(T[3], InstallRootWord, env, InstallRootArg(glassfishHome));
    PolicyWordFilled(env, glassfishHome); LineWordsOne(T[4], PolicyWord, env, PolicyArg(glassfishHome));
    LoginWordFilled(env, glassfishHome); LineWordsOne(T[5], LoginWord, env, LoginArg(glassfishHome));
    ConstantFilled(LoaderOption, env); LineWordsOne(T[6], LoaderWord, env, LoaderOption);
    LineWordsNone(T[7], env);
    AgentWordFilled(env, glassfishHome, clientJar, ModuleName, appClientModuleName);
    LineWordsOne(T[8], AgentWord(ModuleName), env, AgentArg(glassfishHome, clientJar, appClientModuleName));
    LineWordsNone(T[9], env);
    ConstantFilled(ClasspathOption, env); ClasspathValueWordFilled(env, glassfishHome, clientJar);
    LineWordsTwo(T[10], ClasspathWord, ClasspathValueWord, env, ClasspathOption, ClasspathArg(glassfishHome, clientJar));
    LineWordsNone(T[11], env);
    ConstantFilled(MainClass, env); LineWordsOne(T[12], MainClassWord, env, MainClass);
    LineWordsNone(T[13], env);
    AssembleStart(ExpectedTokens(T, env), LineWords(T[0], env), LineWords(T[1], env), LineWords(T[2], env), LineWords(T[3], env), LineWords(T[4], env), LineWords(T[5], env), LineWords(T[6], env), LineWords(T[7], env), LineWords(T[8], env), LineWords(T[9], env), LineWords(T[10], env), LineWords(T[11], env), LineWords(T[12], env), LineWords(T[13], env),
      "java", DebugArg(suspend), InstallRootArg(glassfishHome), PolicyArg(glassfishHome), LoginArg(glassfishHome),
      LoaderOption, AgentArg(glassfishHome, clientJar, appClientModuleName), ClasspathOption,
      ClasspathArg(glassfishHome, clientJar), MainClass);
  }

  /** Regroups the line-by-line concatenation into the ten words. */
  lemma AssembleStart(e: seq<string>, w0: seq<string>, w1: seq<string>, w2: seq<string>, w3: seq<string>, w4: seq<string>, w5: seq<string>, w6: seq<string>, w7: seq<string>, w8: seq<string>, w9: seq<string>, w10: seq<string>, w11: seq<string>, w12: seq<string>, w13: seq<string>,
                      a0: string, a1: string, a2: string, a3: string, a4: string,
                      a5: string, a6: string, a7: string, a8: string, a9: string)
    requires e == w0 + (w1 + (w2 + (w3 + (w4 + (w5 + (w6 + (w7 + (w8 + (w9 + (w10 + (w11 + (w12 + (w13 + [])))))))))))))
    requires w2 == [] && w7 == [] && w9 == [] && w11 == [] && w13 == []
    requires w0 == [a0] && w1 == [a1] && w3 == [a2] && w4 == [a3] && w5 == [a4]
    requires w6 == [a5] && w8 == [a6] && w10 == [a7, a8] && w12 == [a9]
    ensures e == [a0, a1, a2, a3, a4, a5, a6, a7, a8, a9]
  {
  }


  /** When no value holds "${" or a blank character, the command line is
      exactly the text block's words with the values put in. */
  lemma StartExact(glassfishHome: string, clientJar: string, appClientModuleName: string, suspend: string)
    requires NoMarker(glassfishHome) && NoMarker(clientJar) && NoMarker(appClientModuleName) && NoMarker(suspend)
    requires AllVisible(glassfishHome) && AllVisible(clientJar) && AllVisible(appClientModuleName) && AllVisible(suspend)
    ensures StartAppClientCmdLine(glassfishHome, clientJar, appClientModuleName, suspend)
         == StartCommand(glassfishHome, clientJar, appClientModuleName, suspend)
  {
    var env := StartEnv(glassfishHome, clientJar, appClientModuleName, suspend);
    StartTokens(glassfishHome, clientJar, appClientModuleName, suspend);
    StartEnvClean(glassfishHome, clientJar, appClientModuleName, suspend);
    StartEnvVisible(glassfishHome, clientJar, appClientModuleName, suspend);
    TemplateTokensExact(StartTemplate, env);
    StartEnvLookup(glassfishHome, clientJar, appClientModuleName, suspend);
    StartExpectedCommand(env, glassfishHome, clientJar, appClientModuleName, suspend);
  }

  // ---------------------------------------------------------------------
  // downloadClientStubJar
  // ---------------------------------------------------------------------

  const StubFailedMessage: string := "Failed to get client stub jar"
  const StubMissingMessage: string := "Client stub jar not found: "

  /** The asadmin command that fetches the client stubs of appName into
      the target directory. */
  function StubCommand(glassfishHome: string, appName: string): seq<string> {
    [glassfishHome + "/bin/asadmin", "get-client-stubs", "--appName", appName, "target"]
  }

  /** Where asadmin leaves the stub jar, relative to the working directory. */
  function StubJarPath(appName: string): string {
    "target/" + appName + "Client.jar"
  }

  /** The stub jar is looked for in the destination directory the stub
      command names, under the application name that command passes. */
  lemma StubJarInDestination(glassfishHome: string, appName: string)
    ensures var c := StubCommand(glassfishHome, appName);
            |c| == 5 && c[1] == "get-client-stubs" && c[2] == "--appName"
            && StubJarPath(appName) == c[4] + "/" + c[3] + "Client.jar"
  {
  }

  /** File.getAbsolutePath of a relative, non-empty path on a Unix file
      system: the path resolved against the working directory. The result
      starts with the working directory and ends with a separator and the
      path; the separator is not doubled when the working directory is the
      root. */
  function AbsolutePath(workingDirectory: string, path: string): (r: string)
    ensures |r| > |path| && r[|r| - |path| - 1] == '/' && r[|r| - |path|..] == path
    ensures |workingDirectory| <= |r| - |path| && r[..|workingDirectory|] == workingDirectory
    ensures workingDirectory == "/" ==> |r| == |path| + 1
    ensures workingDirectory != "/" ==> |r| == |workingDirectory| + 1 + |path|
  {
    if workingDirectory == "/" then "/" + path else workingDirectory + "/" + path
  }

  /** downloadClientStubJar: runs the stub command, fails on a non-zero
      exit, then fails when the stub jar is not among the existing files
      and otherwise answers its absolute path. The exit value of the stub
      command and the set of existing files are parameters. */
  function DownloadClientStubJar(glassfishHome: string, appName: string, exit: int,
                                 existing: set<string>, workingDirectory: string): (r: Result<string, Thrown>)
    ensures r.Success? <==> exit == 0 && StubJarPath(appName) in existing
    ensures exit != 0 ==> r == Failure(IllegalState(StubFailedMessage))
    ensures exit == 0 && StubJarPath(appName) !in existing ==>
              r == Failure(IllegalState(StubMissingMessage + AbsolutePath(workingDirectory, StubJarPath(appName))))
    ensures r.Success? ==> r.value == AbsolutePath(workingDirectory, StubJarPath(appName))
  {
    if exit != 0 then
      Failure(IllegalState(StubFailedMessage))
    else if StubJarPath(appName) !in existing then
      Failure(IllegalState(StubMissingMessage + AbsolutePath(workingDirectory, StubJarPath(appName))))
    else
      Success(AbsolutePath(workingDirectory, StubJarPath(appName)))
  }

  /** The path the download answers names the stub jar: it ends with
      "/target/" + appName + "Client.jar", whatever the working directory. */
  lemma DownloadNamesStubJar(glassfishHome: string, appName: string, exit: int,
                             existing: set<string>, workingDirectory: string)
    requires DownloadClientStubJar(glassfishHome, appName, exit, existing, workingDirectory).Success?
    ensures var p := DownloadClientStubJar(glassfishHome, appName, exit, existing, workingDirectory).value;
            var tail := "/target/" + appName + "Client.jar";
            |p| >= |tail| && p[|p| - |tail|..] == tail
  {
    var p := DownloadClientStubJar(glassfishHome, appName, exit, existing, workingDirectory).value;
    var tail := "/target/" + appName + "Client.jar";
    if workingDirectory == "/" {
      assert p == tail;
    } else {
      assert p == workingDirectory + tail;
    }
  }

  // ---------------------------------------------------------------------
  // runClient
  // ---------------------------------------------------------------------

  /** runClient: the stub jar is downloaded first; only when that
      succeeds is the app client started, from the downloaded jar, and
      judged by Await. The properties, the stub command's exit value, the
      existing files, the working directory and the app client's
      finishing and exit value are parameters. */
  function RunClient(homeProperty: Option<string>, suspendProperty: Option<string>, stubExit: int,
                     existing: set<string>, workingDirectory: string, finished: bool, exitValue: int): (r: Run)
    ensures 1 <= |r.launched| <= 2
    ensures r.launched[0] == StubCommand(GlassfishHome(homeProperty), AppName)
    ensures |r.launched| == 2 <==> stubExit == 0 && StubJarPath(AppName) in existing
    ensures |r.launched| == 2 ==>
              r.launched[1] == StartAppClientCmdLine(GlassfishHome(homeProperty),
                                                     AbsolutePath(workingDirectory, StubJarPath(AppName)),
                                                     AppClientModuleName, SuspendFlag(suspendProperty))
    ensures |r.launched| == 1 ==> r.calls == [] && r.thrown.Some? && r.thrown.value.IllegalState?
    ensures |r.launched| == 2 ==> Verdict(r.calls, r.thrown) == Await(finished, exitValue)
    ensures r.thrown.None? <==> stubExit == 0 && StubJarPath(AppName) in existing && finished && exitValue == 0
  {
    var glassfishHome := GlassfishHome(homeProperty);
    var stub := StubCommand(glassfishHome, AppName);
    match DownloadClientStubJar(glassfishHome, AppName, stubExit, existing, workingDirectory)
    case Failure(e) => Run([stub], [], Some(e))
    case Success(jar) =>
      var v := Await(finished, exitValue);
      Run([stub, StartAppClientCmdLine(glassfishHome, jar, AppClientModuleName, SuspendFlag(suspendProperty))],
          v.calls, v.thrown)
  }

  lemma NoSpaceAppend(a: string, b: string)
    requires ' ' !in a && ' ' !in b
    ensures ' ' !in a + b
  {
  }

  lemma HomeWithoutSpace(homeProperty: Option<string>)
    requires ' ' !in PropertyText(homeProperty)
    ensures ' ' !in GlassfishHome(homeProperty)
  {
    NoSpaceAppend(PropertyText(homeProperty), "/glassfish");
  }

  lemma JarWithoutSpace(workingDirectory: string)
    requires ' ' !in workingDirectory
    ensures ' ' !in AbsolutePath(workingDirectory, StubJarPath(AppName))
  {
    var q := StubJarPath(AppName);
    assert q == "target/app-clientClient.jar";
    assert ' ' !in q;
    if workingDirectory != "/" {
      assert AbsolutePath(workingDirectory, q) == workingDirectory + ("/" + q);
    }
  }

  /** The app client command runClient starts begins with "java", and has
      exactly 10 tokens when neither the glassfish.home property nor the
      working directory holds a space. */
  lemma RunClientCommand(homeProperty: Option<string>, suspendProperty: Option<string>, stubExit: int,
                         existing: set<string>, workingDirectory: string, finished: bool, exitValue: int)
    requires stubExit == 0 && StubJarPath(AppName) in existing
    ensures var c := RunClient(homeProperty, suspendProperty, stubExit, existing, workingDirectory, finished, exitValue).launched[1];
            |c| >= 1 && c[0] == "java"
    ensures ' ' !in PropertyText(homeProperty) && ' ' !in workingDirectory ==>
              |RunClient(homeProperty, suspendProperty, stubExit, existing, workingDirectory, finished, exitValue).launched[1]| == 10
  {
    var glassfishHome := GlassfishHome(homeProperty);
    var jar := AbsolutePath(workingDirectory, StubJarPath(AppName));
    var suspend := SuspendFlag(suspendProperty);
    var r := RunClient(homeProperty, suspendProperty, stubExit, existing, workingDirectory, finished, exitValue);
    assert r.launched[1] == StartAppClientCmdLine(glassfishHome, jar, AppClientModuleName, suspend);
    StartFirstToken(glassfishHome, jar, AppClientModuleName, suspend);
    if ' ' !in PropertyText(homeProperty) && ' ' !in workingDirectory {
      HomeWithoutSpace(homeProperty);
      JarWithoutSpace(workingDirectory);
      assert ' ' !in AppClientModuleName && ' ' !in suspend;
      StartTokenCount(glassfishHome, jar, AppClientModuleName, suspend);
    }
  }
}
