# JMeter POST-request sampler and thread/response-time graph, modelled in Dafny

This project models the two pieces of sequential logic in a JMeter extension.

- **The POST request sampler** (`sampler.dfy`, module `Sampler`). Each JMeter worker thread calls `runTest`. It picks a random request-body file from an input directory and posts it to a target. The outcome goes into a `SampleResult`. With `USE_QUEUE` on, a file index is claimed in a static, synchronized set of in-flight indices. A random draw whose index is already claimed is rejected and drawn again. The `finally` block gives the index back. A missing directory or an empty one ends the process with `System.exit(1)`.
- **The in-flight index set under concurrency** (`in_flight.dfy`, module `InFlight`). This is a state machine over interleaved worker steps. Each step is one draw (an atomic add-if-absent) or one finish (an atomic remove).
- **The "threads and response times vs time" graph** (`thread_response_time_graph.dfy`, module `ThreadAndResponseTimeGraph`). It covers `add`, which fixes and moves the start of the time axis (`relativeStartTime`, `isJtlLoad`) and plots the scaled thread count and the response time. It also covers `normalizeTime`, which truncates a time to a multiple of the granulation.
- `java_lang.dfy` (module `JavaLang`) gives the Java library behaviour these results depend on. That is 32-bit `int` wrap-around, the truncating `%`, `Integer.toString`, `Throwable.toString` and `printStackTrace`. `wrappers.dfy` holds an `Option` type.

The model takes several things as inputs instead of computing them:

- the directory listing (`Directory`: a path `Paths.get` rejects with a throwable, missing, not listable, or a list of base names);
- the random draws, each in `[0, fileNum)` as `Random.nextInt(fileNum)` guarantees;
- what reading the file and doing the HTTP exchange produced (`Exchange`: a response with status, message and lines, or a throwable raised while reading the file, or one raised during the exchange; each throwable is marked as an `Exception` or not);
- for the graph: the engine's test start time, the granulation, the current thread count and the scale setting.

The sampler's shared static set is an `IndexSet` object. Sampler objects are built over it by reference, so several samplers can share one set. `GetRandomFile` and `RunTest` are proved against the specification functions `SelectionOf` and `RunTestOf`. `RunTest` also leaves the shared set as it found it. The lemmas state the properties of those functions.

Behaviour of the code worth knowing:

- An exception is recorded with response code `"500"`. A real HTTP 500 response is recorded with the same text, so the response code alone does not tell the two apart (`SentinelCodeCollidesWithStatus500`).
- The catch clause at line 143 catches `Exception` only. An `Error` thrown while reading the file or during the exchange (an `OutOfMemoryError` from `readAllBytes`, say) is not recorded: it escapes `runTest` after the `finally` block has released the index (`ErrorsEscapeRunTest`).
- If the input path exists but is not a directory, `listFiles` returns null and a NullPointerException is thrown at line 199. It is caught and recorded. With the queue on, the `finally` block then dereferences the still-null file at line 181, and that second NullPointerException escapes `runTest` (`UnlistableDirectory`). The same happens when `Paths.get` at line 189 rejects the directory parameter (`InvalidPathOutcome`). The index is therefore released on every path only once a file was selected.
- `System.exit` does not run the `finally` block. Nothing has been claimed at that point, so the set is unchanged.

## Model

| member | source | states |
|---|---|---|
| `JavaLang.WrapInt` | JMeterExtension/src/com/tpeter/loadtest/jmeter/vizualizers/ThreadAndResponseTimeVSTimeGUI.java:128-132 | an `int` product is congruent to the exact product modulo 2^32, in the 32-bit range, and equal to it when it fits |
| `JavaLang.Rem` | JMeterExtension/src/com/tpeter/loadtest/jmeter/vizualizers/ThreadAndResponseTimeVSTimeGUI.java:150-152 | Java's `%`: the remainder takes the dividend's sign, its magnitude is below the divisor, and quotient times divisor plus remainder is the dividend |
| `JavaLang.IntToString` | JMeterExtension/src/com/tpeter/loadtest/jmeter/sampler/PostRequestSampler.java:139 | the rendering is non-empty, starts with '-' iff the number is negative, and is all decimal digits otherwise |
| `JavaLang.IntToStringRoundTrip` | JMeterExtension/src/com/tpeter/loadtest/jmeter/sampler/PostRequestSampler.java:139 | the decimal rendering of the status code reads back as the same number |
| `JavaLang.IntToStringInjective` | JMeterExtension/src/com/tpeter/loadtest/jmeter/sampler/PostRequestSampler.java:139 | two codes have the same rendering iff they are equal |
| `JavaLang.ThrowableToStringInjective` | JMeterExtension/src/com/tpeter/loadtest/jmeter/sampler/PostRequestSampler.java:146 | for class names without a colon, the description (class name, then ": " and the message when there is one) determines the class name and the message, and the reverse |
| `JavaLang.ColonAfterClassName` | JMeterExtension/src/com/tpeter/loadtest/jmeter/sampler/PostRequestSampler.java:146 | in a description the first colon is the one right after the class name, and the description is just the class name iff there is no message |
| `JavaLang.StackTraceText` | JMeterExtension/src/com/tpeter/loadtest/jmeter/sampler/PostRequestSampler.java:148-151 | the stack-trace text begins with the exception's description line |
| `InFlight.FirstFree` | JMeterExtension/src/com/tpeter/loadtest/jmeter/sampler/PostRequestSampler.java:208-211 | the loop stops at a draw not in the set and every earlier draw was in it; no stop exactly when every draw was in the set |
| `InFlight.Apply` | JMeterExtension/src/com/tpeter/loadtest/jmeter/sampler/PostRequestSampler.java:179-211 | one atomic step: a draw by an idle worker claims the drawn index, adding it to the set, iff no one holds it, and otherwise changes nothing; a draw by a worker already holding an index changes nothing; a finish removes the worker's index from the set and the worker from the holders (nothing changes for a worker holding nothing); other workers keep what they hold |
| `InFlight.IdleValid` | JMeterExtension/src/com/tpeter/loadtest/jmeter/sampler/PostRequestSampler.java:51 | the initially empty set satisfies the pool invariant |
| `InFlight.ClaimPreservesValid` | JMeterExtension/src/com/tpeter/loadtest/jmeter/sampler/PostRequestSampler.java:209-211 | an atomic add-if-absent by an idle worker keeps the invariant: the set is exactly the held indices, one holder per index |
| `InFlight.ReleasePreservesValid` | JMeterExtension/src/com/tpeter/loadtest/jmeter/sampler/PostRequestSampler.java:179-182 | removing a finished worker's index keeps the invariant |
| `InFlight.StepPreservesValid` | JMeterExtension/src/com/tpeter/loadtest/jmeter/sampler/PostRequestSampler.java:208-211 | every draw or finish step keeps the invariant |
| `InFlight.RunPreservesValid` | JMeterExtension/src/com/tpeter/loadtest/jmeter/sampler/PostRequestSampler.java:51 | every interleaving of worker steps keeps the invariant |
| `InFlight.ReachableHaveUniqueHolders` | JMeterExtension/src/com/tpeter/loadtest/jmeter/sampler/PostRequestSampler.java:208-211 | from the empty set, no two in-flight workers ever hold the same index, whatever the interleaving |
| `InFlight.DrawsClaimFirstFree` | JMeterExtension/src/com/tpeter/loadtest/jmeter/sampler/PostRequestSampler.java:208-211 | an idle worker's run of draws ends holding the first free draw, added to the set, or changes nothing if none was free |
| `InFlight.SampleLeavesPoolAsFound` | JMeterExtension/src/com/tpeter/loadtest/jmeter/sampler/PostRequestSampler.java:154-183 | a worker that claims an index and then finishes leaves the set and the holders exactly as they were |
| `InFlight.FreeIndexExists` | JMeterExtension/src/com/tpeter/loadtest/jmeter/sampler/PostRequestSampler.java:208-211 | with fewer workers in flight than files, some index in `[0, fileNum)` is free, so a draw can succeed |
| `InFlight.SaturatedRejectsDraws` | JMeterExtension/src/com/tpeter/loadtest/jmeter/sampler/PostRequestSampler.java:208-211 | when every index is in flight, every draw is rejected (the loop has no bound) |
| `InFlight.ReleasedIndexReclaimable` | JMeterExtension/src/com/tpeter/loadtest/jmeter/sampler/PostRequestSampler.java:180-182 | right after a worker releases its index, another idle worker can claim that same index |
| `InFlight.OneFileTwoWorkers` | JMeterExtension/src/com/tpeter/loadtest/jmeter/sampler/PostRequestSampler.java:209-211 | with one file, the second worker is rejected while the first holds index 0, and gets index 0 after the first finishes |
| `Sampler.SelectedIndexInRange` | JMeterExtension/src/com/tpeter/loadtest/jmeter/sampler/PostRequestSampler.java:198-216 | a selected file comes from a listing, its index lies in `[0, fileNum)`, and its name is that listing entry |
| `Sampler.QueueSelectsFirstFreeDraw` | JMeterExtension/src/com/tpeter/loadtest/jmeter/sampler/PostRequestSampler.java:208-211 | with the queue on, the selected index was not in flight, and it is a draw all of whose predecessors were in flight |
| `Sampler.QueueSelectionClaimsInPool` | JMeterExtension/src/com/tpeter/loadtest/jmeter/sampler/PostRequestSampler.java:208-211 | the queued selection is the pool step in which the worker claims the selected index |
| `Sampler.QueueDrawsWhileAllClaimed` | JMeterExtension/src/com/tpeter/loadtest/jmeter/sampler/PostRequestSampler.java:208-211 | with the queue on, selection is still drawing iff every draw hit an index in flight |
| `Sampler.NoQueueTakesFirstDraw` | JMeterExtension/src/com/tpeter/loadtest/jmeter/sampler/PostRequestSampler.java:209-211 | with the queue off, the first draw is selected whatever is in flight |
| `Sampler.ExitIffNoEntries` | JMeterExtension/src/com/tpeter/loadtest/jmeter/sampler/PostRequestSampler.java:188-205 | selection exits with status 1 iff the directory is missing or empty |
| `Sampler.RunExitsIffNoEntries` | JMeterExtension/src/com/tpeter/loadtest/jmeter/sampler/PostRequestSampler.java:89-90 | a run ends the process, with no result, iff the directory is missing or empty |
| `Sampler.SampleOf` | JMeterExtension/src/com/tpeter/loadtest/jmeter/sampler/PostRequestSampler.java:90-141 | once a file is selected: an error (a throwable that is not an exception) escapes as it is; otherwise a result is returned, of text type, successful iff the response has status 200; on a response the code parses back to the status and the message and data are the server's |
| `Sampler.CaughtResult` | JMeterExtension/src/com/tpeter/loadtest/jmeter/sampler/PostRequestSampler.java:143-153 | on an exception: unsuccessful, code "500", message "Exception: " plus the description, non-empty data beginning with the description, data type text, thread name kept |
| `Sampler.SuccessIffStatus200` | JMeterExtension/src/com/tpeter/loadtest/jmeter/sampler/PostRequestSampler.java:131-139 | a returned result is successful iff a file was selected and the status is 200, iff its response code reads "200" |
| `Sampler.SentinelCodeCollidesWithStatus500` | JMeterExtension/src/com/tpeter/loadtest/jmeter/sampler/PostRequestSampler.java:153 | the code recorded for a caught exception is the same text as a real HTTP 500 response's code |
| `Sampler.ThreadNameNamesFile` | JMeterExtension/src/com/tpeter/loadtest/jmeter/sampler/PostRequestSampler.java:90-92 | on a returned result the thread name has " - " and the file name appended, unless reading the file threw first |
| `Sampler.UnlistableDirectory` | JMeterExtension/src/com/tpeter/loadtest/jmeter/sampler/PostRequestSampler.java:143-182 | for a path that cannot be listed: a NullPointerException escapes with the queue on; with it off, a "500" result is returned |
| `Sampler.ErrorsEscapeRunTest` | JMeterExtension/src/com/tpeter/loadtest/jmeter/sampler/PostRequestSampler.java:143-183 | once a file was selected, an error raised while reading or exchanging it escapes runTest unchanged |
| `Sampler.InvalidPathOutcome` | JMeterExtension/src/com/tpeter/loadtest/jmeter/sampler/PostRequestSampler.java:143-189 | for a directory parameter `Paths.get` rejects: with the queue on a NullPointerException escapes; with it off an exception is recorded and an error escapes |
| `Sampler.ResponseText` | JMeterExtension/src/com/tpeter/loadtest/jmeter/sampler/PostRequestSampler.java:119-124 | the response text has the lines' total length plus one character per line, and ends with a carriage return when any line was read |
| `Sampler.ResponseTextKeepsLines` | JMeterExtension/src/com/tpeter/loadtest/jmeter/sampler/PostRequestSampler.java:119-124 | cutting the response text at carriage returns gives back the lines read, in order |
| `Sampler.ReadResponse` | JMeterExtension/src/com/tpeter/loadtest/jmeter/sampler/PostRequestSampler.java:119-124 | the buffer loop yields each line followed by a carriage return |
| `Sampler.IndexSet.constructor` | JMeterExtension/src/com/tpeter/loadtest/jmeter/sampler/PostRequestSampler.java:51 | the shared set starts empty |
| `Sampler.IndexSet.Add` | JMeterExtension/src/com/tpeter/loadtest/jmeter/sampler/PostRequestSampler.java:211 | add reports true iff the index was absent, and the set then contains it |
| `Sampler.IndexSet.Remove` | JMeterExtension/src/com/tpeter/loadtest/jmeter/sampler/PostRequestSampler.java:181 | remove takes out exactly that index |
| `Sampler.PostRequestSampler.constructor` | JMeterExtension/src/com/tpeter/loadtest/jmeter/sampler/PostRequestSampler.java:51-53 | the queue is on by default and the sampler uses the shared set |
| `Sampler.PostRequestSampler.GetRandomFile` | JMeterExtension/src/com/tpeter/loadtest/jmeter/sampler/PostRequestSampler.java:188-217 | the selection is `SelectionOf` the set as it was; the set grows by exactly the selected index when the queue is on and is otherwise unchanged; the selected index is the last draw used |
| `Sampler.PostRequestSampler.RunTest` | JMeterExtension/src/com/tpeter/loadtest/jmeter/sampler/PostRequestSampler.java:74-186 | the outcome is `RunTestOf` the set as it was, and on every outcome the shared set ends as it began, because a claimed index is always released |
| `ThreadAndResponseTimeGraph.NormalizeTime` | JMeterExtension/src/com/tpeter/loadtest/jmeter/vizualizers/ThreadAndResponseTimeVSTimeGUI.java:150-152 | the result is a multiple of the granulation; for t >= 0 it lies in `(t - g, t]`, and for t < 0 in `[t, t + g)` |
| `ThreadAndResponseTimeGraph.FirstSampleFixesStart` | JMeterExtension/src/com/tpeter/loadtest/jmeter/vizualizers/ThreadAndResponseTimeVSTimeGUI.java:74-84 | a first sample takes a non-zero test start time (live), else the sample's start (file load); either is truncated to a multiple of g |
| `ThreadAndResponseTimeGraph.LiveStartIsStable` | JMeterExtension/src/com/tpeter/loadtest/jmeter/vizualizers/ThreadAndResponseTimeVSTimeGUI.java:74-91 | in a live test, with the start set, a sample changes nothing |
| `ThreadAndResponseTimeGraph.JtlStartOnlyMovesEarlier` | JMeterExtension/src/com/tpeter/loadtest/jmeter/vizualizers/ThreadAndResponseTimeVSTimeGUI.java:85-91 | when loading a file, the start never increases; an earlier sample moves it to that sample's bucket, any other sample leaves it |
| `ThreadAndResponseTimeGraph.ModeFixedOnceStarted` | JMeterExtension/src/com/tpeter/loadtest/jmeter/vizualizers/ThreadAndResponseTimeVSTimeGUI.java:74-91 | `isJtlLoad` changes only while the start is unset |
| `ThreadAndResponseTimeGraph.JtlStartPrecedesAllSamples` | JMeterExtension/src/com/tpeter/loadtest/jmeter/vizualizers/ThreadAndResponseTimeVSTimeGUI.java:85-91 | after loading any run of samples, the start is a positive multiple of g, no later than before, and no later than every sample's start |
| `ThreadAndResponseTimeGraph.LiveStartStableOverRun` | JMeterExtension/src/com/tpeter/loadtest/jmeter/vizualizers/ThreadAndResponseTimeVSTimeGUI.java:74-91 | in a live test with the start set, any run of samples leaves it unchanged |
| `ThreadAndResponseTimeGraph.PlotsOf` | JMeterExtension/src/com/tpeter/loadtest/jmeter/vizualizers/ThreadAndResponseTimeVSTimeGUI.java:128-135 | four points, all in the end time's bucket (a multiple of g within one granulation below a non-negative end time); the thread rows get threadsCount * thrScaleBy as a Java int, congruent modulo 2^32 and exact when it fits; the response rows get the elapsed time; the overall rows carry the "Overall " label |
| `ThreadAndResponseTimeGraph.ThreadLabelNamesScale` | JMeterExtension/src/com/tpeter/loadtest/jmeter/vizualizers/ThreadAndResponseTimeVSTimeGUI.java:93-97 | the thread row's label holds the decimal scale, which reads back as the scale |
| `ThreadAndResponseTimeGraph.ThreadAndResponseTimeVsTimeGui.constructor` | JMeterExtension/src/com/tpeter/loadtest/jmeter/vizualizers/ThreadAndResponseTimeVSTimeGUI.java:39-41 | the start is unset, not loading a file, and nothing is plotted |
| `ThreadAndResponseTimeGraph.ThreadAndResponseTimeVsTimeGui.Add` | JMeterExtension/src/com/tpeter/loadtest/jmeter/vizualizers/ThreadAndResponseTimeVSTimeGUI.java:68-138 | an excluded sample changes nothing; otherwise the start state moves by `NextStartState`, the scale is taken from the settings, and the sample's four points are appended |

## Left out

- The HTTP exchange (URL building, `HttpURLConnection`, the output and input streams) and `Files.readAllBytes` are network and file I/O. Only their outcome is modelled, as the `Exchange` input. In practice `HttpURLConnection.getInputStream` throws for statuses of 400 and above. That turns such a response into a recorded exception, and the model leaves the choice to the `Exchange` input.
- `sampleStart`/`sampleEnd` timing is a clock side effect and is not modelled. Neither is the printing of errors while closing streams.
- The concurrency of the synchronized set is not modelled directly. Each `add` and `remove` is one atomic step. Interleavings appear only in the `InFlight` pool state machine. `RunTest` runs one sample with no other worker in between.
- `java.util.Random` is replaced by a finite sequence of draws, each in `[0, fileNum)`. No claim is made about the distribution of the draws.
- `Sampler.PostRequestSampler.GetRandomFile`: the source's selection loop is unbounded. The model stops when the supplied draws run out, reporting `Drawing` (and `RunTest` reports `StillDrawing`), where the source would keep drawing.
- Process termination by `System.exit(1)` is represented as the `Exit`/`Exited` outcome.
- Stack traces are modelled only partly. The NullPointerExceptions the JVM raises carry no frames and no message in the model, so newer JDKs' detailed null-pointer messages are not modelled. Stack traces omit "Caused by" sections and use "\n" as the line separator.
- `getDefaultParameters` and the parsing of the sampler's parameters (`Boolean.parseBoolean` of `USE_QUEUE`) are left out. The queue flag, directory listing and thread name are inputs.
- `RequestBodyFile.getFileAsPath` is a `java.nio` call. The file is a (name, index) value.
- Chart rows are reduced to an ordered log of plotted points. This leaves out `getNewRow`, row averaging and the row lookup. Line 104 looks the overall thread row up in `model`, but line 122 creates it in `modelAggregate`. The model assumes the row creation hands back the existing row with that label, as the points go there.
- The rest of the graph is Swing or JMeter GUI work and is left out: `super.add`, `handleRelativeStartTime`, `updateGui`, `clearData`, `updateData`, `clearRowsFromCompositeModels`, the labels of the GUI, and `MySettingsJPanel`. The thread-count scale (10 unless the user changes it) is an input of `Add`.
- `getGranulation` is assumed positive (`requires granulation > 0`). Java `long` overflow of times is not modelled, because times are unbounded integers.
- `ThreadAndResponseTimeGraph.JtlStartOnlyMovesEarlier`: stated only for non-negative sample start times. For negative times Java's `%` rounds toward zero, so the bucket start can lie above the sample's start.
- `ThreadAndResponseTimeGraph.JtlStartPrecedesAllSamples`: stated only for samples starting at or after one granulation. An earlier sample truncates the start to 0, and 0 means "unset", so the next sample fixes the start afresh.
- Throwables are classified only as an `Exception` or not (`isException`). A throwable that is not an exception, whether an `Error` or another subclass of `Throwable`, is treated alike: the catch clause does not take it.
- A null directory parameter is not a separate case. `Paths.get` then throws a NullPointerException, which is the `Invalid` directory case with that throwable. A `SecurityException` from `Files.notExists` or `listFiles` is not modelled.
