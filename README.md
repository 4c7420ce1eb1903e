# appclient-env: command lines and verdicts of the app client tests

The repository's two `ClientTest` classes start a GlassFish application
client in its own JVM. Each builds that JVM's argument vector from a
Java text block holding `${...}` placeholders. It splits the block at
`"\n"` and replaces each placeholder by a literal, every-occurrence
`String.replace`, in a fixed order. Then it trims every line and drops
the blank ones.

- `test.glassfish.ClientTest.getStartAppClientCmdLine` also splits every
  remaining line on runs of spaces (`split(" +")`).
- `test.client.ClientTest.getClientCmdLine` keeps one argument per line.

Around those builders, `runClient` decides the test's verdict:

- it waits up to 1000 seconds;
- if the app client is still running it destroys it and throws;
- otherwise it asserts an exit value of 0.

The glassfish variant first downloads a client stub jar with
`asadmin get-client-stubs`. It fails on a non-zero exit or a missing jar
file.

The model is pure functions and lemmas, in these modules:

- `JavaString`: `String.replace` and `String.trim`.
- `JavaSplit`: `String.split` with a one-character pattern and with
  `" +"`, including Java's rule of dropping trailing empty strings.
- `Words`: lines made of words joined by single spaces.
- `Template`: a text block as indented lines of words. Each word is made
  of literal text and placeholders. `Fill` is the chain of `replace` calls.
  `Substitute` is a simultaneous substitution. `FillRenderWord` proves
  the two equal under two conditions. The word must be fillable: its
  literal pieces are non-empty, any value already in it holds no `${`,
  and no two placeholders stand side by side. No bound value may contain
  `${`. Every word of both text blocks is fillable.
- `CommandLine`: the generic stream pipeline
  `split → replace* → trim → filter → (split " +")` and its theorems.
- `ClientOptions`: the option words both text blocks share.
- `Launch`: properties, the suspend flag and the wait-and-judge step.
- `GlassfishClientTest` and `ClientTest`: the two classes.

Values read from the environment arrive as parameters:

- `System.getProperty` results are `Option<string>`; a missing property
  concatenates as `"null"`, as in Java.
- The existing files are a set of relative paths.
- The working directory is a string.
- Whether the process finished in time, and its exit value, are a `bool`
  and an `int`.

## Model

| member | source | states |
|---|---|---|
| JavaString.ReplaceFirst | src/test/java/test/glassfish/ClientTest.java:111-114 | `String.replace` with a non-empty target, for any strings: the text before the first occurrence is copied, that occurrence becomes the replacement, and the scan goes on after it |
| JavaString.ReplaceNone | src/test/java/test/client/ClientTest.java:129-132 | a string in which the target occurs nowhere is left unchanged by `replace` |
| JavaString.ReplaceAround | src/test/java/test/glassfish/ClientTest.java:111-114 | replacing a target that lacks a separator character distributes over text on both sides of that separator |
| JavaString.ReplaceAbsent | src/test/java/test/client/ClientTest.java:129-132 | a line in which the target's first character never occurs is left unchanged by `replace` |
| JavaString.Trim | src/test/java/test/glassfish/ClientTest.java:115 | `String.trim`: the result is empty exactly when the input has no character above U+0020, and otherwise starts and ends with such a character |
| JavaString.TrimStart | src/test/java/test/client/ClientTest.java:133 | the leading part removed by `trim` consists only of blank characters, and the rest is a suffix of the input |
| JavaString.TrimEnd | src/test/java/test/client/ClientTest.java:133 | the trailing part removed by `trim` consists only of blank characters, and the rest is a prefix of the input |
| JavaSplit.FieldsStep | src/test/java/test/glassfish/ClientTest.java:110 | splitting on one character: a field ended by a single separator comes off the front as it is |
| JavaSplit.FieldsRun | src/test/java/test/glassfish/ClientTest.java:117 | splitting on `" +"`: a field ended by a run of separators of any positive length comes off the front, and the whole run counts as one separator |
| JavaSplit.Split | src/test/java/test/glassfish/ClientTest.java:110 | `String.split` with limit 0: no piece contains the separator |
| JavaSplit.SplitOnSpaces | src/test/java/test/glassfish/ClientTest.java:117 | `split(" +")`: no piece holds a space, and a non-empty string with no space at either end yields only non-empty pieces |
| JavaSplit.DropTrailingEmpty | src/test/java/test/client/ClientTest.java:128 | trailing empty strings are removed and only those: the result is a prefix of the input, and it does not end with "" |
| JavaSplit.ConcatFields | src/test/java/test/glassfish/ClientTest.java:117 | the fields joined back together are the input with its separators removed |
| JavaSplit.SplitOnSpacesKeepsOrder | src/test/java/test/glassfish/ClientTest.java:117 | the pieces of `split(" +")`, joined, are the line without its spaces, in order |
| JavaSplit.SplitLinesOfTerminated | src/test/java/test/client/ClientTest.java:111-128 | splitting a text block whose lines each end in `"\n"` on `"\n"` gives back its lines, less the trailing empty ones |
| Words.SplitOnSpacesOfJoinWords | src/test/java/test/glassfish/ClientTest.java:117 | words joined by single spaces split back, under `" +"`, into exactly those words |
| Words.TrimJoin | src/test/java/test/glassfish/ClientTest.java:115 | trimming an indented line of visible words trims only the outer ends of its first and last words |
| Template.Lookup | src/test/java/test/glassfish/ClientTest.java:111-114 | a placeholder's value is absent exactly when no binding names it, and is otherwise a value bound to it |
| Template.FillRenderWord | src/test/java/test/glassfish/ClientTest.java:111-114 | for a fillable word, the chain of `replace` calls on its rendered text equals the simultaneous substitution of the bound values when no value contains `${` |
| Template.FillAllStep | src/test/java/test/client/ClientTest.java:129-132 | one `replace` followed by the remaining ones is the whole chain |
| Template.SubstituteCompose | src/test/java/test/client/ClientTest.java:129-132 | substituting one binding and then the rest equals substituting all of them together |
| Template.SubstituteBound | src/test/java/test/glassfish/ClientTest.java:111-114 | a word whose placeholders are all bound has no placeholder left after substitution |
| Template.FillAvoids | src/test/java/test/glassfish/ClientTest.java:111-114 | a character missing from the line and from every value is missing after the replacements |
| Template.FillKeeps | src/test/java/test/client/ClientTest.java:129-132 | a character of the line that is not `$`, `{` or `}` and occurs in no placeholder name survives the replacements, so a line with literal text never becomes blank |
| Template.ReplaceJoinWords | src/test/java/test/glassfish/ClientTest.java:111-114 | replacing a target without a space acts word by word on a space-joined line |
| CommandLine.Arguments | src/test/java/test/client/ClientTest.java:128-135 | the `replace`/`trim`/`filter` pipeline over the split lines: every argument is non-empty with no blank character at either end |
| CommandLine.SplitAll | src/test/java/test/glassfish/ClientTest.java:117 | the `flatMap` of `split(" +")`: no token holds a space, and trimmed non-empty lines give only non-empty tokens |
| CommandLine.NonEmptyAppend | src/test/java/test/glassfish/ClientTest.java:116 | `filter(!isEmpty)` acts on each string on its own: what it keeps of a + b is what it keeps of a, then what it keeps of b; with `NonEmptyOne` (a string is kept exactly when it is non-empty) it keeps every non-empty string, in order |
| CommandLine.ArgumentsOfText | src/test/java/test/glassfish/ClientTest.java:93-116 | the pipeline applied to the split text block equals the pipeline applied line by line to the template |
| CommandLine.ArgumentsAppend | src/test/java/test/client/ClientTest.java:128-135 | the pipeline maps each line on its own: the arguments of a + b are those of a followed by those of b |
| CommandLine.TokensOfArguments | src/test/java/test/glassfish/ClientTest.java:110-118 | splitting the arguments on spaces gives the tokens of the template's lines, in line order |
| CommandLine.SplitAllKeepsOrder | src/test/java/test/glassfish/ClientTest.java:117 | the tokens joined together are the arguments joined together without spaces: nothing is reordered, lost or added |
| CommandLine.TemplateArgumentsLines | src/test/java/test/client/ClientTest.java:128-135 | each argument is exactly one template line that has words, filled and trimmed, in template order; no line is split and none is dropped |
| CommandLine.TemplateTokensCount | src/test/java/test/glassfish/ClientTest.java:110-118 | when no value holds a space, the token count is the number of words written in the template |
| CommandLine.TemplateArgumentsExact | src/test/java/test/client/ClientTest.java:128-135 | when every value is visible and free of `${`, each argument is the line's words with the values in place, joined by single spaces |
| CommandLine.TemplateTokensExact | src/test/java/test/glassfish/ClientTest.java:110-118 | under the same hypothesis, the tokens are the template's words with the values in place, in order |
| CommandLine.TemplateNoMarker | src/test/java/test/glassfish/ClientTest.java:111-114 | when no value contains `${`, no argument and no token contains `${` |
| CommandLine.LineTokensExact | src/test/java/test/glassfish/ClientTest.java:111-117 | one filled, trimmed and split line gives the line's words with the values in place |
| Launch.GlassfishHome | src/test/java/test/glassfish/ClientTest.java:63 | the glassfish.home property followed by "/glassfish", or "null/glassfish" when the property is unset |
| Launch.SuspendFlag | src/test/java/test/glassfish/ClientTest.java:76 | "y" exactly when appclient.suspend is set, "n" exactly when it is not |
| Launch.Await | src/test/java/test/glassfish/ClientTest.java:80-89 | waits 1000 seconds; destroys the process exactly when it did not finish, and reads the exit value exactly when it did; throws RuntimeException("AppClient process timed out") on a timeout; fails the assertion with expected 0 on a non-zero exit; passes exactly when the process finished with 0 |
| Launch.TimeoutIgnoresExitValue | src/test/java/test/client/ClientTest.java:97-104 | a process that timed out is judged without its exit value: the wait and the destroy are the same whatever that value would be |
| GlassfishClientTest.StartAppClientCmdLine | src/test/java/test/glassfish/ClientTest.java:92-124 | no token is empty and no token contains a space, whatever the values |
| GlassfishClientTest.StartTokens | src/test/java/test/glassfish/ClientTest.java:93-118 | the command line is the template's line tokens, one line after another |
| GlassfishClientTest.StartFirstToken | src/test/java/test/glassfish/ClientTest.java:94-118 | the first token is "java" whatever the values |
| GlassfishClientTest.StartTokenCount | src/test/java/test/glassfish/ClientTest.java:93-118 | when no value contains a space there are exactly 10 tokens: 9 non-blank lines, and the `-classpath` line holds two words |
| GlassfishClientTest.StartKeepsOrder | src/test/java/test/glassfish/ClientTest.java:110-118 | the tokens joined together are the non-blank lines, filled and trimmed, in template order, without their spaces |
| GlassfishClientTest.StartNoPlaceholder | src/test/java/test/glassfish/ClientTest.java:111-114 | when no value contains `${`, no token contains `${` (so none of the four placeholders survives) |
| GlassfishClientTest.StartExpectedCommand | src/test/java/test/glassfish/ClientTest.java:93-108 | the words the text block spells out, with the four values in place, are the ten arguments `java`, the jdwp agent option, the installRoot, policy, login configuration and class loader options, `-javaagent:…`, `-classpath`, `…/lib/gf-client.jar:<clientJar>` and the main class |
| GlassfishClientTest.StartExact | src/test/java/test/glassfish/ClientTest.java:93-118 | when every value is visible and free of `${`, the command line is exactly those ten arguments |
| GlassfishClientTest.StubJarInDestination | src/test/java/test/glassfish/ClientTest.java:129-144 | the jar that is checked for lies in the destination directory the `get-client-stubs` command names, under the application name that command passes |
| GlassfishClientTest.AbsolutePath | src/test/java/test/glassfish/ClientTest.java:146-149 | a relative path resolved against the working directory: the result starts with the working directory and ends with one "/" and the path, and the separator is not doubled when the working directory is the root |
| GlassfishClientTest.DownloadClientStubJar | src/test/java/test/glassfish/ClientTest.java:126-150 | with the command `StubCommand` and the relative path `StubJarPath`: succeeds exactly when the exit is 0 and the stub jar exists; a non-zero exit throws IllegalStateException("Failed to get client stub jar"); a missing jar throws "Client stub jar not found: " + its absolute path; success returns that absolute path |
| GlassfishClientTest.DownloadNamesStubJar | src/test/java/test/glassfish/ClientTest.java:144-149 | a successful download returns a path ending in "/target/" + appName + "Client.jar" |
| GlassfishClientTest.RunClient | src/test/java/test/glassfish/ClientTest.java:62-90 | always launches the stub command; launches the app client exactly when the download succeeds, with the command line built from the home, the stub jar path, "client-main" and the suspend flag; a failed download throws IllegalStateException with no process calls; otherwise the verdict is Await's; the run passes exactly when the download succeeds and the app client finishes with 0 |
| GlassfishClientTest.RunClientCommand | src/test/java/test/glassfish/ClientTest.java:71-76 | the app client command begins with "java", and has 10 tokens when neither the glassfish.home property nor the working directory contains a space |
| ClientTest.ClientCmdLine | src/test/java/test/client/ClientTest.java:109-142 | no argument is empty or has a blank character at either end, whatever the values |
| ClientTest.ClientArguments | src/test/java/test/client/ClientTest.java:111-135 | the command line is the template's line arguments, one line after another |
| ClientTest.ClientWordLinesOf | src/test/java/test/client/ClientTest.java:111-126 | the text block has ten lines with words: all but its four blank lines |
| ClientTest.ClientArgumentsAreLines | src/test/java/test/client/ClientTest.java:128-135 | for all values, exactly 10 arguments, each one non-blank template line filled and trimmed, in template order; values holding spaces are never split |
| ClientTest.ClientPositions | src/test/java/test/client/ClientTest.java:112-135 | for all values, the first argument is "java", the eighth is "-classpath" and the ninth is the filled and trimmed gf-client.jar classpath line |
| ClientTest.ClientEnvLookup | src/test/java/test/client/ClientTest.java:129-132 | `${clientJarName}` is bound to the literal "client-main", whatever the parameters; the other three placeholders are bound to their parameters |
| ClientTest.ClientExpectedCommand | src/test/java/test/client/ClientTest.java:111-126 | the lines the text block spells out, with the values in place, are the ten arguments from `java` to the main class, with `-classpath` and its value as separate arguments |
| ClientTest.ClientExact | src/test/java/test/client/ClientTest.java:111-135 | when every value is visible and free of `${`, the command line is exactly those ten arguments |
| ClientTest.ClientNoPlaceholder | src/test/java/test/client/ClientTest.java:129-132 | when no value contains `${`, no argument contains `${` |
| ClientTest.RunClient | src/test/java/test/client/ClientTest.java:65-107 | a missing unpacked ear throws NoSuchFileException before anything is launched; otherwise it launches exactly one command line, built from the home, "target/app-client.ear/client-main.jar" and the suspend flag, and the verdict is Await's; the run passes exactly when the ear exists and the app client finishes with 0 |
| ClientTest.RunClientCommand | src/test/java/test/client/ClientTest.java:74-77 | for every property value the launched command has 10 arguments, starts with "java" and has "-classpath" as its eighth |

## Left out

- Process machinery: `Runtime.exec`, `startReadingClientProcess`, `readClientProcess` and its reader threads and loops. Whether the process ended within the wait, and its exit value, are parameters. No time passes in the model.
- The stub download process's own `waitFor()` is reduced to its exit value, a parameter.
- `createDeploymentVehicle` in both classes (archive assembly and unpacking) and `ClientMain`: library and container calls whose code is not part of this model.
- `System.out.println` diagnostics and ANSI banners.
- `Files.list` is reduced to whether the unpacked ear directory exists; the listing itself is only printed.
- `File.exists` is reduced to membership of the relative path in a set of existing files.
- GlassfishClientTest.AbsolutePath: `File.getAbsolutePath` is modelled only for a non-empty relative path, which the stub jar path always is. An empty or absolute path is resolved differently and is not modelled. The working directory is taken as given. `File`'s removal of doubled or trailing separators from the relative path is not modelled.
- The unused first assignment of `clientCmdLine` in `test.client.ClientTest.runClient` (line 73) is overwritten before use, so it is not modelled.
- JUnit's formatting of the assertion message is not modelled. The failure is recorded with its message, the expected 0 and the actual exit value.
- Characters are Dafny `char`s. Java's UTF-16 code units and supplementary characters are not distinguished.
- GlassfishClientTest.StartExact: the exact ten-token form is proved only when every value is free of `${` and holds only characters above U+0020. Without those, a value could create a new placeholder for a later `replace`, or add spaces or blanks that `trim` and `split` would act on.
- ClientTest.ClientExact: the same two hypotheses on its values, for the same reasons. The count, order and position results (`ClientArgumentsAreLines`, `ClientPositions`) hold without them.
- GlassfishClientTest.StartTokenCount: the count of 10 is proved only when no value holds a space; a value with spaces splits into more tokens.
- GlassfishClientTest.RunClientCommand: the count of 10 needs the glassfish.home property and the working directory to be free of spaces, since both end up in tokens.
