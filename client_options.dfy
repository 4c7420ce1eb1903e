/** The literal text both command-line templates share: the options of the
    app-client JVM and the arguments of its agent. */
module ClientOptions {
  import opened Wrappers
  import opened JavaSplit
  import opened Template
  import opened CommandLine

  const AgentlibOption: seq<TextChar> := "-agentlib:jdwp=transport=dt_socket," + "server=y,suspend="
  const AddressSuffix: seq<TextChar> := ",address=9008"
  const InstallRootOption: seq<TextChar> := "-Dcom.sun.aas.installRoot="
  const PolicyOption: seq<TextChar> := "-Djava.security.policy="
  const PolicyFile: seq<TextChar> := "/bin/lib/appclient/client.policy"
  const LoginOption: seq<TextChar> := "-Djava.security.auth.login.config="
  const LoginFile: seq<TextChar> := "/lib/appclient/appclientlogin.conf"
  const LoaderOption: seq<TextChar> := "-Djava.system.class.loader=" + LoaderClass
  const LoaderClass: seq<TextChar> := "org.glassfish.appclient.client." + "acc.agent.ACCAgentClassLoader"
  const AgentOption: seq<TextChar> := "-javaagent:"
  const GfClientJar: seq<TextChar> := "/lib/gf-client.jar"
  const ConfigXmlArg: seq<TextChar> := "=arg=-configxml,arg="
  const AccXml: seq<TextChar> := "/domains/domain1/config/" + "glassfish-acc.xml"
  const ClientJarArg: seq<TextChar> := ",client=jar="
  const NameArg: seq<TextChar> := ",arg=-name,arg="
  const AuthArgs: seq<TextChar> :=
    ",arg=-textauth,arg=-user,arg=jee," + "arg=-password,arg=j2ee,arg=-xml,arg="
  const ClasspathOption: seq<TextChar> := "-classpath"
  const MainClass: seq<TextChar> := "org.glassfish.appclient.client." + "AppClientGroupFacade"

  const GlassfishHomeName: Name := "glassfishHome"
  const ClientJarName: Name := "clientJar"
  const SuspendName: Name := "suspend"

  /** -agentlib:jdwp=...,suspend=${suspend},address=9008 */
  const DebugWord: Word := [Text(AgentlibOption), Hole(SuspendName), Text(AddressSuffix)]

  /** -Dcom.sun.aas.installRoot=${glassfishHome} */
  const InstallRootWord: Word := [Text(InstallRootOption), Hole(GlassfishHomeName)]

  /** -Djava.security.policy=${glassfishHome}/bin/lib/appclient/client.policy */
  const PolicyWord: Word := [Text(PolicyOption), Hole(GlassfishHomeName), Text(PolicyFile)]

  /** -Djava.security.auth.login.config=${glassfishHome}/lib/appclient/appclientlogin.conf */
  const LoginWord: Word := [Text(LoginOption), Hole(GlassfishHomeName), Text(LoginFile)]

  const LoaderWord: Word := [Text(LoaderOption)]

  /** -javaagent:${glassfishHome}/lib/gf-client.jar=arg=-configxml,arg= */
  const AgentHead: Word := [Text(AgentOption), Hole(GlassfishHomeName), Text(GfClientJar + ConfigXmlArg)]

  /** ${glassfishHome}/domains/domain1/config/glassfish-acc.xml,client=jar=${clientJar} */
  const AgentClient: Word := [Hole(GlassfishHomeName), Text(AccXml + ClientJarArg), Hole(ClientJarName)]

  /** ,arg=-name,arg=${moduleName},arg=-textauth,...,arg=-xml,arg= */
  function AgentName(moduleName: Name): Word {
    [Text(NameArg), Hole(moduleName), Text(AuthArgs)]
  }

  /** ${glassfishHome}/domains/domain1/config/glassfish-acc.xml */
  const AgentConfig: Word := [Hole(GlassfishHomeName), Text(AccXml)]

  /** The -javaagent option with the agent's arguments, naming the client
      module through placeholder moduleName. */
  function AgentWord(moduleName: Name): Word {
    AgentHead + AgentClient + AgentName(moduleName) + AgentConfig
  }

  const ClasspathWord: Word := [Text(ClasspathOption)]

  /** ${glassfishHome}/lib/gf-client.jar:${clientJar} */
  const ClasspathValueWord: Word := [Hole(GlassfishHomeName), Text(GfClientJar + ":"), Hole(ClientJarName)]

  const MainClassWord: Word := [Text(MainClass)]

  /** A line of the text block after its common indentation is stripped. */
  function Indented(ws: seq<Word>): Line {
    Line(4, ws)
  }

  const Blank: Line := Line(0, [])

  /** env binds the three names both templates share. */
  predicate BindsShared(env: Env) {
    GlassfishHomeName in Names(env) && ClientJarName in Names(env) && SuspendName in Names(env)
  }

  /** Names free of the characters the words are anchored by. */
  predicate Anchors(env: Env) {
    Durable('-', env) && Durable('/', env) && Durable('.', env)
  }

  lemma DebugWordWritten(env: Env)
    requires Anchors(env)
    ensures WrittenText(DebugWord, env)
  {
    AnchoredAt(DebugWord, env, 0, 0);
  }

  lemma InstallRootWordWritten(env: Env)
    requires Anchors(env)
    ensures WrittenText(InstallRootWord, env)
  {
    AnchoredAt(InstallRootWord, env, 0, 0);
  }

  lemma PolicyWordWritten(env: Env)
    requires Anchors(env)
    ensures WrittenText(PolicyWord, env)
  {
    AnchoredAt(PolicyWord, env, 0, 0);
  }

  lemma LoginWordWritten(env: Env)
    requires Anchors(env)
    ensures WrittenText(LoginWord, env)
  {
    AnchoredAt(LoginWord, env, 0, 0);
  }

  lemma LoaderWordWritten(env: Env)
    requires Anchors(env)
    ensures WrittenText(LoaderWord, env)
  {
    AnchoredAt(LoaderWord, env, 0, 0);
  }

  lemma AgentWordWritten(moduleName: Name, env: Env)
    requires Anchors(env)
    ensures WrittenText(AgentWord(moduleName), env)
  {
    var w := AgentWord(moduleName);
    assert w == [Text(AgentOption), Hole(GlassfishHomeName), Text(GfClientJar + ConfigXmlArg),
                 Hole(GlassfishHomeName), Text(AccXml + ClientJarArg), Hole(ClientJarName),
                 Text(NameArg), Hole(moduleName), Text(AuthArgs), Hole(GlassfishHomeName), Text(AccXml)];
    assert Literal(w);
    assert forall k :: 0 <= k < |w| ==> (w[k].Text? ==> w[k].text != []);
    assert forall k :: 0 <= k < |w| - 1 ==> w[k].Text? || w[k + 1].Text?;
    AnchoredAt(w, env, 0, 0);
  }

  lemma ClasspathWordWritten(env: Env)
    requires Anchors(env)
    ensures WrittenText(ClasspathWord, env)
  {
    AnchoredAt(ClasspathWord, env, 0, 0);
  }

  lemma ClasspathValueWordWritten(env: Env)
    requires Anchors(env)
    ensures WrittenText(ClasspathValueWord, env)
  {
    AnchoredAt(ClasspathValueWord, env, 1, 0);
  }

  lemma MainClassWordWritten(env: Env)
    requires Anchors(env)
    ensures WrittenText(MainClassWord, env)
  {
    AnchoredAt(MainClassWord, env, 0, 3);
  }

  /** "java": the first line of both text blocks. */
  const JavaWord: Word := [Text("java")]

  lemma JavaWordWritten(env: Env)
    ensures WrittenText(JavaWord, env)
  {
  }

  // ---------------------------------------------------------------------
  // The words with their values in place
  // ---------------------------------------------------------------------

  function DebugArg(suspend: string): string {
    AgentlibOption + (suspend + AddressSuffix)
  }

  function InstallRootArg(glassfishHome: string): string {
    InstallRootOption + glassfishHome
  }

  function PolicyArg(glassfishHome: string): string {
    PolicyOption + (glassfishHome + PolicyFile)
  }

  function LoginArg(glassfishHome: string): string {
    LoginOption + (glassfishHome + LoginFile)
  }

  function AgentHeadArg(glassfishHome: string): string {
    AgentOption + (glassfishHome + (GfClientJar + ConfigXmlArg))
  }

  function AgentClientArg(glassfishHome: string, clientJar: string): string {
    glassfishHome + ((AccXml + ClientJarArg) + clientJar)
  }

  function AgentNameArg(moduleName: string): string {
    NameArg + (moduleName + AuthArgs)
  }

  function AgentConfigArg(glassfishHome: string): string {
    glassfishHome + AccXml
  }

  function AgentArg(glassfishHome: string, clientJar: string, moduleName: string): string {
    AgentHeadArg(glassfishHome)
    + (AgentClientArg(glassfishHome, clientJar) + (AgentNameArg(moduleName) + AgentConfigArg(glassfishHome)))
  }

  function ClasspathArg(glassfishHome: string, clientJar: string): string {
    glassfishHome + (GfClientJar + ":" + clientJar)
  }

  lemma DebugWordFilled(env: Env, suspend: string)
    requires Lookup(env, SuspendName) == Some(suspend)
    ensures RenderWord(Substitute(DebugWord, env)) == DebugArg(suspend)
    ensures RenderWords(SubstituteAll([DebugWord], env)) == [DebugArg(suspend)]
  {
    RenderSubstitute3(DebugWord[0], DebugWord[1], DebugWord[2], env);
    OneWordTokens(DebugWord, env, DebugArg(suspend));
  }

  lemma InstallRootWordFilled(env: Env, glassfishHome: string)
    requires Lookup(env, GlassfishHomeName) == Some(glassfishHome)
    ensures RenderWord(Substitute(InstallRootWord, env)) == InstallRootArg(glassfishHome)
    ensures RenderWords(SubstituteAll([InstallRootWord], env)) == [InstallRootArg(glassfishHome)]
  {
    RenderSubstitute2(InstallRootWord[0], InstallRootWord[1], env);
    OneWordTokens(InstallRootWord, env, InstallRootArg(glassfishHome));
  }

  lemma PolicyWordFilled(env: Env, glassfishHome: string)
    requires Lookup(env, GlassfishHomeName) == Some(glassfishHome)
    ensures RenderWord(Substitute(PolicyWord, env)) == PolicyArg(glassfishHome)
    ensures RenderWords(SubstituteAll([PolicyWord], env)) == [PolicyArg(glassfishHome)]
  {
    RenderSubstitute3(PolicyWord[0], PolicyWord[1], PolicyWord[2], env);
    OneWordTokens(PolicyWord, env, PolicyArg(glassfishHome));
  }

  lemma LoginWordFilled(env: Env, glassfishHome: string)
    requires Lookup(env, GlassfishHomeName) == Some(glassfishHome)
    ensures RenderWord(Substitute(LoginWord, env)) == LoginArg(glassfishHome)
    ensures RenderWords(SubstituteAll([LoginWord], env)) == [LoginArg(glassfishHome)]
  {
    RenderSubstitute3(LoginWord[0], LoginWord[1], LoginWord[2], env);
    OneWordTokens(LoginWord, env, LoginArg(glassfishHome));
  }

  lemma AgentHeadFilled(env: Env, glassfishHome: string)
    requires Lookup(env, GlassfishHomeName) == Some(glassfishHome)
    ensures RenderWord(Substitute(AgentHead, env)) == AgentHeadArg(glassfishHome)
  {
    RenderSubstitute3(AgentHead[0], AgentHead[1], AgentHead[2], env);
  }

  lemma AgentClientFilled(env: Env, glassfishHome: string, clientJar: string)
    requires Lookup(env, GlassfishHomeName) == Some(glassfishHome)
    requires Lookup(env, ClientJarName) == Some(clientJar)
    ensures RenderWord(Substitute(AgentClient, env)) == AgentClientArg(glassfishHome, clientJar)
  {
    RenderSubstitute3(AgentClient[0], AgentClient[1], AgentClient[2], env);
  }

  lemma AgentNameFilled(env: Env, moduleName: Name, moduleValue: string)
    requires Lookup(env, moduleName) == Some(moduleValue)
    ensures RenderWord(Substitute(AgentName(moduleName), env)) == AgentNameArg(moduleValue)
  {
    var w := AgentName(moduleName);
    RenderSubstitute3(w[0], w[1], w[2], env);
  }

  lemma AgentConfigFilled(env: Env, glassfishHome: string)
    requires Lookup(env, GlassfishHomeName) == Some(glassfishHome)
    ensures RenderWord(Substitute(AgentConfig, env)) == AgentConfigArg(glassfishHome)
  {
    RenderSubstitute2(AgentConfig[0], AgentConfig[1], env);
  }

  lemma AgentWordFilled(env: Env, glassfishHome: string, clientJar: string, moduleName: Name, moduleValue: string)
    requires Lookup(env, GlassfishHomeName) == Some(glassfishHome)
    requires Lookup(env, ClientJarName) == Some(clientJar)
    requires Lookup(env, moduleName) == Some(moduleValue)
    ensures RenderWord(Substitute(AgentWord(moduleName), env)) == AgentArg(glassfishHome, clientJar, moduleValue)
    ensures RenderWords(SubstituteAll([AgentWord(moduleName)], env)) == [AgentArg(glassfishHome, clientJar, moduleValue)]
  {
    var a, b, c, d := AgentHead, AgentClient, AgentName(moduleName), AgentConfig;
    AgentHeadFilled(env, glassfishHome);
    AgentClientFilled(env, glassfishHome, clientJar);
    AgentNameFilled(env, moduleName, moduleValue);
    AgentConfigFilled(env, glassfishHome);
    calc {
      RenderWord(Substitute(AgentWord(moduleName), env));
      { Assoc3(a + b, c, d); Assoc3(a, b, c + d); }
      RenderWord(Substitute(a + (b + (c + d)), env));
      { RenderSubstituteAppend(a, b + (c + d), env); }
      RenderWord(Substitute(a, env)) + RenderWord(Substitute(b + (c + d), env));
      { RenderSubstituteAppend(b, c + d, env); RenderSubstituteAppend(c, d, env); }
      RenderWord(Substitute(a, env)) + (RenderWord(Substitute(b, env))
        + (RenderWord(Substitute(c, env)) + RenderWord(Substitute(d, env))));
    }
    OneWordTokens(AgentWord(moduleName), env, AgentArg(glassfishHome, clientJar, moduleValue));
  }

  lemma ClasspathValueWordFilled(env: Env, glassfishHome: string, clientJar: string)
    requires Lookup(env, GlassfishHomeName) == Some(glassfishHome)
    requires Lookup(env, ClientJarName) == Some(clientJar)
    ensures RenderWord(Substitute(ClasspathValueWord, env)) == ClasspathArg(glassfishHome, clientJar)
    ensures RenderWords(SubstituteAll([ClasspathWord, ClasspathValueWord], env)) == [ClasspathOption, ClasspathArg(glassfishHome, clientJar)]
  {    ConstantFilled(ClasspathOption, env);

    RenderSubstitute3(ClasspathValueWord[0], ClasspathValueWord[1], ClasspathValueWord[2], env);
    ConstantFilled(ClasspathOption, env);
    TwoWordTokens(ClasspathWord, ClasspathValueWord, env, ClasspathOption, ClasspathArg(glassfishHome, clientJar));
  }

  // ---------------------------------------------------------------------
  // Every placeholder of the words is bound
  // ---------------------------------------------------------------------

  lemma SharedWordsBound(env: Env)
    requires BindsShared(env)
    ensures Bound(JavaWord, env) && Bound(DebugWord, env) && Bound(InstallRootWord, env)
    ensures Bound(PolicyWord, env) && Bound(LoginWord, env) && Bound(LoaderWord, env)
    ensures Bound(ClasspathWord, env) && Bound(ClasspathValueWord, env) && Bound(MainClassWord, env)
  {
  }

  lemma AgentWordBound(env: Env, moduleName: Name)
    requires BindsShared(env) && moduleName in Names(env)
    ensures Bound(AgentWord(moduleName), env)
  {
    BoundAppend(AgentHead, AgentClient, env);
    BoundAppend(AgentHead + AgentClient, AgentName(moduleName), env);
    BoundAppend(AgentHead + AgentClient + AgentName(moduleName), AgentConfig, env);
  }

  /** A word of one piece of literal text is that text, whatever env. */
  lemma ConstantFilled(t: seq<TextChar>, env: Env)
    ensures RenderWord(Substitute([Text(t)], env)) == t
    ensures RenderWords(SubstituteAll([[Text(t)]], env)) == [t]
  {
    RenderSubstituteLast(Text(t), env);
    OneWordTokens([Text(t)], env, t);
  }
}
