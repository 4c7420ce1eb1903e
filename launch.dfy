/** What both test classes do around the processes they start: the
    system properties they read and the verdict they draw from the app
    client process. The operating system's answers (did the process end
    within the wait, its exit value) come in as parameters. */
module Launch {
  import opened Wrappers

  /** The exceptions and assertion failures the tests throw. */
  datatype Thrown =
    | IllegalState(message: string)
    | Runtime(message: string)
    | NoSuchFile(path: string)
    | AssertionFailed(message: string, expected: int, actual: int)

  /** What the test asks of the app client process, in order. */
  datatype Call = WaitFor(seconds: nat) | Destroy | ExitValue

  /** The calls made on the process and what was thrown, if anything. */
  datatype Verdict = Verdict(calls: seq<Call>, thrown: Option<Thrown>)

  const WaitSeconds: nat := 1000
  const TimedOutMessage: string := "AppClient process timed out"
  const NonZeroExitMessage: string := "AppClient process exited with non-zero code"

  /** Java's string concatenation writes a null property as "null". */
  function PropertyText(property: Option<string>): string {
    match property
    case None => "null"
    case Some(value) => value
  }

  /** The glassfish.home property with "/glassfish" appended. */
  function GlassfishHome(property: Option<string>): (r: string)
    ensures |r| >= 10 && r[|r| - 10..] == "/glassfish"
    ensures property.Some? ==> r[..|r| - 10] == property.value
    ensures property.None? ==> r == "null/glassfish"
  {
    PropertyText(property) + "/glassfish"
  }

  /** The suspend flag: "y" exactly when appclient.suspend is set. */
  function SuspendFlag(property: Option<string>): (r: string)
    ensures r == "y" <==> property.Some?
    ensures r == "n" <==> property.None?
  {
    if property.Some? then "y" else "n"
  }

  /** Waits up to 1000 seconds for the app client; on a timeout destroys
      it and fails, otherwise asserts that its exit value is 0. */
  function Await(finished: bool, exitValue: int): (r: Verdict)
    ensures |r.calls| == 2 && r.calls[0] == WaitFor(WaitSeconds)
    ensures Destroy in r.calls <==> !finished
    ensures ExitValue in r.calls <==> finished
    ensures r.thrown.None? <==> finished && exitValue == 0
    ensures !finished ==> r.thrown == Some(Runtime(TimedOutMessage))
    ensures finished && exitValue != 0 ==> r.thrown == Some(AssertionFailed(NonZeroExitMessage, 0, exitValue))
  {
    if finished then
      Verdict([WaitFor(WaitSeconds), ExitValue],
              if exitValue == 0 then None else Some(AssertionFailed(NonZeroExitMessage, 0, exitValue)))
    else
      Verdict([WaitFor(WaitSeconds), Destroy], Some(Runtime(TimedOutMessage)))
  }

  /** A process that did not finish in time is judged without its exit
      value: the verdict is the same whatever that value would be. */
  lemma TimeoutIgnoresExitValue(a: int, b: int)
    ensures Await(false, a) == Await(false, b)
    ensures Await(false, a).calls == [WaitFor(WaitSeconds), Destroy]
  {
  }

  /** One run of a test: the command lines handed to Runtime.exec, in
      order, the calls made on the app client process and what the test
      threw, if anything. */
  datatype Run = Run(launched: seq<seq<string>>, calls: seq<Call>, thrown: Option<Thrown>)
}
