/**
 * The JMeter Java sampler that posts a randomly chosen request-body file to
 * a configured HTTP target and records the outcome as a sample result.
 *
 * The HTTP exchange, the file read and the clock are not modelled: what the
 * exchange produced is an input (`Exchange`), as is the directory listing
 * (`Directory`) and the sequence of random draws.
 */
module Sampler {
  import opened Wrappers
  import opened JavaLang
  import InFlight

  /** The response code recorded when the exchange threw. */
  const ResponseCode500: string := "500"
  /** SampleResult.TEXT, the data-type marker of a textual response. */
  const Text: string := "text"
  /** The status of System.exit on a missing or empty input directory. */
  const ExitStatus: int := 1

  /** A request-body file and its position in the directory listing it was drawn from. */
  datatype RequestBodyFile = RequestBodyFile(name: string, index: int)

  /** What the input directory looks like when it is listed. */
  datatype Directory =
    | Invalid(e: Throwable)            // Paths.get throws: a malformed path, or no path at all
    | Missing                          // Files.notExists holds
    | Unlistable                       // it exists, but File.listFiles returns null (not a directory)
    | Listing(entries: seq<string>)    // the base names File.listFiles returns, in its order

  /** How getRandomFile ends. */
  datatype Selection =
    | Selected(file: RequestBodyFile)
    | Exit(status: int)               // System.exit: the process ends
    | Thrown(e: Throwable)            // an exception escapes
    | Drawing                         // every supplied draw was rejected; the loop would draw again

  /** What reading the file and exchanging it with the target produced. */
  datatype Exchange =
    | Response(code: int, message: string, lines: seq<string>)  // lines as BufferedReader.readLine returns them
    | ReadFailed(e: Throwable)       // Files.readAllBytes threw
    | ExchangeFailed(e: Throwable)   // the URL, connection, write or read threw

  /** The fields of a JMeter SampleResult that the sampler sets. */
  datatype SampleResult = SampleResult(
    threadName: string,
    successful: bool,
    responseCode: string,
    responseMessage: string,
    responseData: string,
    dataType: string)

  /** How runTest ends. */
  datatype RunOutcome =
    | Returned(result: SampleResult)
    | Exited(status: int)
    | Threw(e: Throwable)
    | StillDrawing

  function NewSampleResult(threadName: string): SampleResult {
    SampleResult(threadName, false, "", "", "", "")
  }

  /** Every draw is a value of Random.nextInt(fileNum), so lies in [0, fileNum). */
  predicate DrawsInRange(dir: Directory, draws: seq<int>) {
    dir.Listing? ==> forall k :: 0 <= k < |draws| ==> 0 <= draws[k] < |dir.entries|
  }

  // ---------------------------------------------------------------------
  // Specification functions
  // ---------------------------------------------------------------------

  /**
   * The file getRandomFile selects, given the set of indices in flight when
   * it is called. With the queue off the first draw is taken; with it on,
   * the first draw that is not in flight.
   */
  function SelectionOf(useQueue: bool, dir: Directory, draws: seq<int>, claimed: set<int>): Selection
    requires DrawsInRange(dir, draws)
  {
    match dir
    case Invalid(e) => Thrown(e)
    case Missing => Exit(ExitStatus)
    case Unlistable => Thrown(NullPointerException)
    case Listing(entries) =>
      if |entries| == 0 then Exit(ExitStatus)
      else if !useQueue then
        if draws == [] then Drawing else Selected(RequestBodyFile(entries[draws[0]], draws[0]))
      else
        match InFlight.FirstFree(draws, claimed)
        case None => Drawing
        case Some(j) => Selected(RequestBodyFile(entries[draws[j]], draws[j]))
  }

  /** The response text: every line read, each followed by a carriage return. */
  function ResponseText(lines: seq<string>): (text: string)
    ensures |text| == TotalLength(lines) + |lines|
    ensures lines != [] ==> text[|text| - 1] == '\r'
  {
    if lines == [] then "" else lines[0] + "\r" + ResponseText(lines[1..])
  }

  /**
   * The result fields the catch block sets over whatever the result held:
   * the sample failed, with code "500", a message naming the exception and
   * its stack trace as the data, which is never empty.
   */
  function CaughtResult(result: SampleResult, e: Throwable): (r: SampleResult)
    ensures !r.successful
    ensures r.responseCode == ResponseCode500
    ensures r.responseMessage == "Exception: " + ThrowableToString(e)
    ensures ThrowableToString(e) <= r.responseData && |r.responseData| > 0
    ensures r.dataType == Text
    ensures r.threadName == result.threadName
  {
    result.(
      successful := false,
      responseMessage := "Exception: " + ThrowableToString(e),
      responseData := StackTraceText(e),
      dataType := Text,
      responseCode := ResponseCode500)
  }

  /** The exception an exchange that failed threw. */
  function FailureOf(exchange: Exchange): Option<Throwable> {
    match exchange
    case Response(_, _, _) => None
    case ReadFailed(e) => Some(e)
    case ExchangeFailed(e) => Some(e)
  }

  /**
   * How the try block and its `catch (Exception e)` end once `file` was
   * selected: a response is recorded as the status says, an exception is
   * recorded with code "500", and an error (a throwable that is not an
   * exception) is not caught.
   */
  function SampleOf(threadName: string, file: RequestBodyFile, exchange: Exchange): (out: RunOutcome)
    ensures out.Returned? || out.Threw?
    ensures out.Threw? <==> FailureOf(exchange).Some? && !FailureOf(exchange).value.isException
    ensures out.Threw? ==> out.e == FailureOf(exchange).value
    ensures out.Returned? ==> out.result.dataType == Text
    ensures out.Returned? ==> (out.result.successful <==> exchange.Response? && exchange.code == 200)
    ensures exchange.Response? ==>
              && ParseInt(out.result.responseCode) == Some(exchange.code)
              && out.result.responseMessage == exchange.message
              && out.result.responseData == ResponseText(exchange.lines)
    ensures out.Returned? && !exchange.Response? ==>
              && out.result.responseCode == ResponseCode500
              && out.result.responseMessage == "Exception: " + ThrowableToString(FailureOf(exchange).value)
  {
    var named := threadName + " - " + file.name;
    match exchange
    case ReadFailed(e) =>
      if e.isException then Returned(CaughtResult(NewSampleResult(threadName), e)) else Threw(e)
    case ExchangeFailed(e) =>
      if e.isException then Returned(CaughtResult(NewSampleResult(named), e)) else Threw(e)
    case Response(code, message, lines) =>
      IntToStringRoundTrip(code);
      Returned(SampleResult(named, code == 200, IntToString(code), message, ResponseText(lines), Text))
  }

  /** How runTest ends, given the set of indices in flight when it starts. */
  function RunTestOf(useQueue: bool, threadName: string, dir: Directory, draws: seq<int>,
                     exchange: Exchange, claimed: set<int>): RunOutcome
    requires DrawsInRange(dir, draws)
  {
    match SelectionOf(useQueue, dir, draws, claimed)
    case Exit(status) => Exited(status)
    case Drawing => StillDrawing
    case Thrown(e) =>
      // the file is still null: with the queue on, the finally block's
      // dereference throws, and that exception replaces whatever was pending
      if useQueue then Threw(NullPointerException)
      else if e.isException then Returned(CaughtResult(NewSampleResult(threadName), e))
      else Threw(e)
    case Selected(file) => SampleOf(threadName, file, exchange)
  }

  // ---------------------------------------------------------------------
  // Properties of the selection
  // ---------------------------------------------------------------------

  /** A selected file is an entry of the listing, and its index lies in [0, fileNum). */
  lemma SelectedIndexInRange(useQueue: bool, dir: Directory, draws: seq<int>, claimed: set<int>)
    requires DrawsInRange(dir, draws)
    ensures var sel := SelectionOf(useQueue, dir, draws, claimed);
            sel.Selected? ==>
              && dir.Listing?
              && 0 <= sel.file.index < |dir.entries|
              && sel.file.name == dir.entries[sel.file.index]
  {
  }

  /**
   * With the queue on, the selected index was not in flight, and the
   * selection is the first draw that was not: every earlier draw was rejected.
   */
  lemma QueueSelectsFirstFreeDraw(dir: Directory, draws: seq<int>, claimed: set<int>)
    requires DrawsInRange(dir, draws)
    ensures var sel := SelectionOf(true, dir, draws, claimed);
            sel.Selected? ==>
              && sel.file.index !in claimed
              && exists j :: 0 <= j < |draws| && draws[j] == sel.file.index &&
                   forall k :: 0 <= k < j ==> draws[k] in claimed
  {
    var sel := SelectionOf(true, dir, draws, claimed);
    if sel.Selected? {
      var j := InFlight.FirstFree(draws, claimed).value;
      assert draws[j] == sel.file.index;
    }
  }

  /**
   * The queued selection is one worker's run of draw steps on the shared
   * pool: it ends holding the selected index, which joins the set in flight.
   */
  lemma QueueSelectionClaimsInPool(p: InFlight.Pool, w: InFlight.Worker, dir: Directory, draws: seq<int>)
    requires DrawsInRange(dir, draws)
    requires w !in p.holding
    ensures var sel := SelectionOf(true, dir, draws, p.inFlight);
            sel.Selected? ==>
              InFlight.Run(p, InFlight.DrawSteps(w, draws)) ==
              InFlight.Pool(p.inFlight + {sel.file.index}, p.holding[w := sel.file.index])
  {
    InFlight.DrawsClaimFirstFree(p, w, draws);
  }

  /** With the queue on, the loop keeps drawing exactly when every draw so far hit an index in flight. */
  lemma QueueDrawsWhileAllClaimed(dir: Directory, draws: seq<int>, claimed: set<int>)
    requires DrawsInRange(dir, draws)
    requires dir.Listing? && |dir.entries| > 0
    ensures SelectionOf(true, dir, draws, claimed) == Drawing <==>
            forall k :: 0 <= k < |draws| ==> draws[k] in claimed
  {
  }

  /** With the queue off, the set in flight plays no part: the first draw is taken. */
  lemma NoQueueTakesFirstDraw(dir: Directory, draws: seq<int>, claimed: set<int>)
    requires DrawsInRange(dir, draws)
    requires dir.Listing? && |dir.entries| > 0 && |draws| > 0
    ensures SelectionOf(false, dir, draws, claimed) == Selected(RequestBodyFile(dir.entries[draws[0]], draws[0]))
  {
  }

  /** A missing directory or an empty listing ends the process with status 1 and yields no file. */
  lemma ExitIffNoEntries(useQueue: bool, dir: Directory, draws: seq<int>, claimed: set<int>)
    requires DrawsInRange(dir, draws)
    ensures SelectionOf(useQueue, dir, draws, claimed).Exit? <==> dir.Missing? || dir == Listing([])
    ensures SelectionOf(useQueue, dir, draws, claimed).Exit? ==>
              SelectionOf(useQueue, dir, draws, claimed).status == 1
  {
  }

  // ---------------------------------------------------------------------
  // Properties of the run
  // ---------------------------------------------------------------------

  /** The process exits exactly when there is nothing to select, and then no result is produced. */
  lemma RunExitsIffNoEntries(useQueue: bool, threadName: string, dir: Directory, draws: seq<int>,
                             exchange: Exchange, claimed: set<int>)
    requires DrawsInRange(dir, draws)
    ensures var out := RunTestOf(useQueue, threadName, dir, draws, exchange, claimed);
            out.Exited? <==> dir.Missing? || dir == Listing([])
  {
  }

  /**
   * A result is marked successful exactly when a file was selected and the
   * target answered with status 200; the recorded code then reads "200".
   */
  lemma SuccessIffStatus200(useQueue: bool, threadName: string, dir: Directory, draws: seq<int>,
                            exchange: Exchange, claimed: set<int>)
    requires DrawsInRange(dir, draws)
    ensures var out := RunTestOf(useQueue, threadName, dir, draws, exchange, claimed);
            out.Returned? ==>
              && (out.result.successful <==>
                    SelectionOf(useQueue, dir, draws, claimed).Selected? && exchange.Response? && exchange.code == 200)
              && (out.result.successful <==> out.result.responseCode == "200")
  {
    var out := RunTestOf(useQueue, threadName, dir, draws, exchange, claimed);
    if out.Returned? && exchange.Response? && SelectionOf(useQueue, dir, draws, claimed).Selected? {
      IntToStringInjective(exchange.code, 200);
    }
  }

  /**
   * The "500" written for an exception is the same text a real HTTP 500
   * response is recorded with: the response code alone does not tell the two apart.
   */
  lemma SentinelCodeCollidesWithStatus500(threadName: string, file: RequestBodyFile, e: Throwable,
                                          message: string, lines: seq<string>)
    requires e.isException
    ensures SampleOf(threadName, file, Response(500, message, lines)).result.responseCode ==
            SampleOf(threadName, file, ExchangeFailed(e)).result.responseCode
  {
    assert IntToString(500) == "500";
  }

  /**
   * The thread name gets " - " and the file name appended once the file was
   * read; when reading the file throws, the name is left as it was.
   */
  lemma ThreadNameNamesFile(threadName: string, file: RequestBodyFile, exchange: Exchange)
    ensures var out := SampleOf(threadName, file, exchange);
            out.Returned? ==>
              out.result.threadName == if exchange.ReadFailed? then threadName else threadName + " - " + file.name
  {
  }

  /**
   * An error thrown while reading the file or exchanging it (a throwable
   * that is not an exception, such as an OutOfMemoryError) is not caught:
   * it escapes runTest, after the finally block has run.
   */
  lemma ErrorsEscapeRunTest(useQueue: bool, threadName: string, dir: Directory, draws: seq<int>,
                            exchange: Exchange, claimed: set<int>)
    requires DrawsInRange(dir, draws)
    requires SelectionOf(useQueue, dir, draws, claimed).Selected?
    requires FailureOf(exchange).Some? && !FailureOf(exchange).value.isException
    ensures RunTestOf(useQueue, threadName, dir, draws, exchange, claimed) == Threw(FailureOf(exchange).value)
  {
  }

  /**
   * When the directory cannot be listed, the NullPointerException is caught
   * and recorded; with the queue on, the finally block then dereferences the
   * unassigned file and a second NullPointerException escapes runTest.
   */
  lemma UnlistableDirectory(useQueue: bool, threadName: string, draws: seq<int>, exchange: Exchange, claimed: set<int>)
    ensures var out := RunTestOf(useQueue, threadName, Unlistable, draws, exchange, claimed);
            && (useQueue ==> out == Threw(NullPointerException))
            && (!useQueue ==> out.Returned? && out.result.responseCode == ResponseCode500 && !out.result.successful)
  {
  }

  /**
   * When Paths.get rejects the directory parameter, its exception is
   * recorded with the queue off, and replaced by the finally block's
   * NullPointerException with the queue on; an error escapes as it is.
   */
  lemma InvalidPathOutcome(useQueue: bool, threadName: string, e: Throwable, draws: seq<int>, exchange: Exchange,
                           claimed: set<int>)
    ensures var out := RunTestOf(useQueue, threadName, Invalid(e), draws, exchange, claimed);
            && (useQueue ==> out == Threw(NullPointerException))
            && (!useQueue && e.isException ==>
                  out.Returned? && out.result.responseMessage == "Exception: " + ThrowableToString(e))
            && (!useQueue && !e.isException ==> out == Threw(e))
  {
  }

  // ---------------------------------------------------------------------
  // Properties of the response text
  // ---------------------------------------------------------------------

  predicate NoCarriageReturn(line: string) {
    forall i :: 0 <= i < |line| ==> line[i] != '\r'
  }

  /** Cuts a text into its lines, each ended by a carriage return (the last one possibly not). */
  function SplitLines(s: string): seq<string>
    decreases |s|
  {
    if s == [] then []
    else
      var k := IndexOf(s, '\r');
      if k == |s| then [s] else [s[..k]] + SplitLines(s[k + 1..])
  }

  /**
   * Lines read by BufferedReader.readLine never hold a carriage return, so
   * the response text keeps every line and its order: cutting it at the
   * carriage returns gives the lines back.
   */
  lemma {:induction false} ResponseTextKeepsLines(lines: seq<string>)
    requires forall k :: 0 <= k < |lines| ==> NoCarriageReturn(lines[k])
    ensures SplitLines(ResponseText(lines)) == lines
  {
    if lines != [] {
      var s := ResponseText(lines);
      var rest := ResponseText(lines[1..]);
      assert s == lines[0] + ("\r" + rest);
      var k := IndexOf(s, '\r');
      assert s[|lines[0]|] == '\r';
      assert k == |lines[0]|;
      assert s[..k] == lines[0];
      assert s[k + 1..] == rest;
      ResponseTextKeepsLines(lines[1..]);
    }
  }

  function TotalLength(lines: seq<string>): nat {
    if lines == [] then 0 else |lines[0]| + TotalLength(lines[1..])
  }

  // ---------------------------------------------------------------------
  // The shared set and the sampler
  // ---------------------------------------------------------------------

  /** The synchronized set of in-flight indices; one object shared by every sampler. */
  class IndexSet {
    var members: set<int>

    constructor ()
      ensures members == {}
    {
      members := {};
    }

    /** Set.add: adds `i`, and reports whether it was absent. */
    method Add(i: int) returns (added: bool)
      modifies this
      ensures added <==> i !in old(members)
      ensures members == old(members) + {i}
    {
      added := i !in members;
      members := members + {i};
    }

    /** Set.remove: removes `i` if present. */
    method Remove(i: int)
      modifies this
      ensures members == old(members) - {i}
    {
      members := members - {i};
    }
  }

  /** The text from line k on is line k, a carriage return, then the text from line k + 1 on. */
  lemma ResponseTextStep(lines: seq<string>, k: nat)
    requires k < |lines|
    ensures ResponseText(lines[k..]) == lines[k] + "\r" + ResponseText(lines[k + 1..])
  {
    assert lines[k..][1..] == lines[k + 1..];
  }

  /** Reads the response line by line into a buffer, a carriage return after each line. */
  method ReadResponse(lines: seq<string>) returns (response: string)
    ensures response == ResponseText(lines)
  {
    response := "";
    var k := 0;
    while k < |lines|
      invariant 0 <= k <= |lines|
      invariant response + ResponseText(lines[k..]) == ResponseText(lines)
    {
      ResponseTextStep(lines, k);
      response := response + (lines[k] + "\r");
      k := k + 1;
    }
  }

  class PostRequestSampler {
    var useQueue: bool
    /** The static processingFileIndexSet: every sampler is built over the same object. */
    const processingFileIndexSet: IndexSet

    constructor (shared: IndexSet)
      ensures useQueue && processingFileIndexSet == shared
    {
      useQueue := true;
      processingFileIndexSet := shared;
    }

    /**
     * getRandomFile: validates the directory, then draws indices until one
     * is accepted. `used` is the number of draws consumed.
     */
    method GetRandomFile(dir: Directory, draws: seq<int>) returns (sel: Selection, used: nat)
      requires DrawsInRange(dir, draws)
      modifies processingFileIndexSet
      ensures sel == SelectionOf(useQueue, dir, draws, old(processingFileIndexSet.members))
      ensures processingFileIndexSet.members ==
        if sel.Selected? && useQueue then old(processingFileIndexSet.members) + {sel.file.index}
        else old(processingFileIndexSet.members)
      ensures used <= |draws|
      ensures sel.Selected? ==> used >= 1 && sel.file.index == draws[used - 1]
    {
      if dir.Invalid? {
        return Thrown(dir.e), 0;
      }
      if dir.Missing? {
        return Exit(ExitStatus), 0;
      }
      if dir.Unlistable? {
        return Thrown(NullPointerException), 0;
      }
      var files := dir.entries;
      var fileNum := |files|;
      if fileNum == 0 {
        return Exit(ExitStatus), 0;
      }
      ghost var claimed := processingFileIndexSet.members;
      var fileIndex := 0;
      used := 0;
      while true
        invariant used <= |draws|
        invariant processingFileIndexSet.members == claimed
        invariant useQueue ==> forall j :: 0 <= j < used ==> draws[j] in claimed
        invariant !useQueue ==> used == 0
        decreases |draws| - used
      {
        if used == |draws| {
          return Drawing, used;
        }
        fileIndex := draws[used];
        used := used + 1;
        if !useQueue {
          break;
        }
        var added := processingFileIndexSet.Add(fileIndex);
        if added {
          assert InFlight.FirstFree(draws, claimed) == Some(used - 1);
          break;
        }
      }
      sel := Selected(RequestBodyFile(files[fileIndex], fileIndex));
    }

    /**
     * runTest: selects a file, records the exchange's outcome in a result,
     * and in the finally block gives the file's index back when the queue is
     * on. Only exceptions are caught; an error propagates once the finally
     * block has run. System.exit ends the process without running the
     * finally block.
     */
    method RunTest(useQueueParam: bool, threadName: string, dir: Directory, draws: seq<int>, exchange: Exchange)
      returns (outcome: RunOutcome)
      requires DrawsInRange(dir, draws)
      modifies this, processingFileIndexSet
      ensures useQueue == useQueueParam
      ensures outcome == RunTestOf(useQueueParam, threadName, dir, draws, exchange, old(processingFileIndexSet.members))
      ensures processingFileIndexSet.members == old(processingFileIndexSet.members)
    {
      useQueue := useQueueParam;
      var result := NewSampleResult(threadName);
      var file: Option<RequestBodyFile> := None;

      // try
      var uncaught: Option<Throwable> := None;
      var sel, _ := GetRandomFile(dir, draws);
      match sel {
        case Exit(status) =>
          return Exited(status);
        case Drawing =>
          return StillDrawing;
        case Thrown(e) =>
          if e.isException {
            result := CaughtResult(result, e);
          } else {
            uncaught := Some(e);
          }
        case Selected(f) =>
          file := Some(f);
          match exchange {
            case ReadFailed(e) =>
              if e.isException {
                result := CaughtResult(result, e);
              } else {
                uncaught := Some(e);
              }
            case ExchangeFailed(e) =>
              result := result.(threadName := result.threadName + " - " + f.name);
              if e.isException {
                result := CaughtResult(result, e);
              } else {
                uncaught := Some(e);
              }
            case Response(code, message, lines) =>
              result := result.(threadName := result.threadName + " - " + f.name);
              var response := ReadResponse(lines);
              if code == 200 {
                result := result.(successful := true);
              } else {
                result := result.(successful := false);
              }
              result := result.(responseMessage := message);
              result := result.(responseCode := IntToString(code));
              result := result.(responseData := response);
              result := result.(dataType := Text);
          }
      }

      // finally
      if useQueue {
        if file.None? {
          return Threw(NullPointerException);
        }
        processingFileIndexSet.Remove(file.value.index);
      }
      if uncaught.Some? {
        return Threw(uncaught.value);
      }
      return Returned(result);
    }
  }
}
