# FMITerminalBlock: queue, predictors, network channel and data files

FMITerminalBlock runs a simulation model in soft real time. A dispatcher thread repeats four steps:
ask a predictor for the next event of the model, add this prediction to a timed queue, take the first
event that is due, and distribute it to the listeners. Subscriber threads add external events to the
same queue at any moment; an earlier external event makes the prediction obsolete. Publishers send
output values over the network, subscribers parse them from chunks of bytes, and two loggers write
files that Python scripts read.

This project models these parts and proves what they promise:

- **Time conversion** (`TimeConversion.dfy`): seconds to microsecond ticks and back, negative times included.
- **Queue and dispatcher** (`TimedQueue.dfy`, `EventQueue.dfy`, `Dispatcher.dfy`,
  `DispatcherProofs.dfy`, `DispatcherTheorems.dfy`, `EventLoop.dfy`): the list discipline, the
  queue object, and all interleavings of the threads as a transition system. A step is what a thread
  does while it holds the queue mutex, or one record in the timing log. Times are real numbers, the
  tolerance is any non-negative number, the clock never runs backwards, and the predictions are
  arbitrary. The theorems hold in every reachable state of every run. Comparisons up to the tolerance
  are not transitive; `AddPredictionKeepsOrder` says exactly when a prediction breaks the order for
  callers that do not follow the dispatcher's protocol.
- **Predictors** (`EventPredictor.dfy`, `PredictorRuns.dfy`, `OneStepPredictor.dfy`, `OneStepRuns.dfy`,
  `OneStepSuppression.dfy`, `Simulation.dfy`, `Images.dfy`): both predictors as objects, and composed with the dispatcher. The solver is known by
  its contract only: a predicted time is not before the current time, and an update reaches the time it
  is asked for.
- **Timing trace** (`TimingReader.dfy`, `TimingTrace.dfy`): the reader against an independent meaning of
  a trace, and the proof that the log of every run is a trace it reads without an error.
- **Network channel** (`Asn1Codec.dfy`, `Asn1Subscriber.dfy`, `Asn1Parsing.dfy`, `Asn1Variables.dfy`,
  `Asn1Publisher.dfy`, `Asn1EndToEnd.dfy`): the COMPACT encoding of IEC 61499-1, Annex E, the incremental parser, and the way
  from the publisher's events to the subscriber's events.
- **Data files** (`CsvText.dfy`, `CsvLines.dfy`, `CsvDataLogger.dfy`, `CsvReader.dfy`, `CsvRoundTrip.dfy`,
  `CsvLogFile.dfy`, `EventFilters.dfy`): the CSV logger, the CSV reader that has to undo it, and the filters behind the reader.
- **Channel configuration** (`ChannelRegistry.dfy`, `ChannelConfiguration.dfy`): how variables get their port
  identifiers, and why inputs and outputs never share one. This is what the predictors rely on.

Code that updates state in place is modelled by classes and loops. Each method is proved against a
function of the old state, and the theorems are about these functions.

Some promises hold only under a condition. Then the code is kept as it is, and the condition is part of
an if-and-only-if:

- Suppressing model events that change nothing is lossless with the one-step predictor if and only if every
  external event sets an input or lies at or after the stop time, or the model has no outputs
  (`LosslessExactlyWithInputs`). Any other event makes the predictor forget a step whose changes nobody has
  seen (`ChangesGetLost`).
- A prediction keeps the queue in order if and only if it does not replace a concurrent prediction while
  being more than the tolerance after the entry behind it (`AddPredictionKeepsOrder`). In the dispatcher's
  runs predictions never meet.
- How a byte stream is cut into chunks does not matter if and only if the stream meets no unsupported tag
  before its last byte (`ChunkIndependence`); such a tag drops whatever else is buffered.
- A logged file is read back if and only if all types are known, no name and no string has a line break, and
  there are no events, or there is at least one variable and no name is used twice (`LogIsReadBack`).
- The timing reader finishes if and only if no time is finalized more often than it is registered, and in
  strict mode no live time is registered again (`ReaderYieldsSinglePeriods`).
- The interpolating filter keeps its image between passes. If its source yields the same events afresh, a
  second pass agrees with the first one if and only if every variable that the first event does not set is
  never set or is set last to its initial value (`SecondPassAgrees`). The CSV reader is not such a source:
  its rows are used up by the first pass.
- Unpacking a string literal also accepts one final line break, which escaping never produces
  (`UnpackInvertsEscape`).

The documentation of `get` announces a `std::logic_error` for an empty queue
(`include/timing/TimedEventQueue.h:87-88`), but the code waits for an event; the model waits, and
`GetDeliversPredictionOrEarlier` shows that the dispatcher never gets there.

## Model

| member | source | states |
|---|---|---|
| TimeConversion.RelativeTicksIsFloor | src/timing/TimedEventQueue.cpp:201-207 | Splitting off whole seconds before truncating gives the tick that the time falls into, for negative times too. |
| TimeConversion.RoundTripLosesLessThanATick | src/timing/TimedEventQueue.cpp:193-214 | Converting a time to the clock and back loses less than a microsecond and never rounds up. |
| TimeConversion.ClockRoundTrip | src/timing/TimedEventQueue.cpp:193-214 | Converting a clock value to simulation time and back returns it unchanged. |
| TimeConversion.SystemTimeIsMonotone | src/timing/TimedEventQueue.cpp:193-207 | A later simulation time is never mapped to an earlier clock value. |
| TimeConversion.FutureMeansClockIsBehind | src/timing/TimedEventQueue.cpp:216-221 | An event that is not in the future is less than a tick ahead of the simulation clock, and an event that the clock has reached is not in the future. |
| TimedQueue.OrderBounds | src/timing/TimedEventQueue.cpp:174-191 | In an ordered queue an external event is at most one tolerance after any later entry, a prediction at most two. |
| TimedQueue.AddExternalIsExact | src/timing/TimedEventQueue.cpp:42-72 | An external event deletes the prediction at the front if and only if this is more than the tolerance after it. It goes behind everything that is at most the tolerance after it and in front of the next entry, and all other entries keep their places. |
| TimedQueue.AddPredictionIsExact | src/timing/TimedEventQueue.cpp:42-72 | A prediction is rejected exactly if the front, once a prediction more than the tolerance after it is gone, is more than the tolerance before it; otherwise it goes to the front in place of any prediction that is there. |
| TimedQueue.AddExternalKeepsOrder | src/timing/TimedEventQueue.cpp:42-72 | Adding any external event to any ordered queue keeps it ordered. |
| TimedQueue.AddFirstPrediction | src/timing/TimedEventQueue.cpp:42-72 | A prediction that meets no other one is rejected exactly if the front is more than the tolerance before it; otherwise it is put at the front. Nothing else changes, and the queue stays ordered. |
| TimedQueue.AddPredictionKeepsOrder | src/timing/TimedEventQueue.cpp:42-72 | Adding a prediction to any ordered queue keeps it ordered unless it replaces a concurrent prediction and lies more than the tolerance after the entry behind that one, and then the order breaks. |
| TimedQueue.AddPredictionAwaits | src/timing/TimedEventQueue.cpp:42-72 | After a prediction was added, the front is this prediction or an external event strictly before it, if and only if the front was not another prediction more than the tolerance before it. |
| TimedQueue.AddExternalStillAwaits | src/timing/TimedEventQueue.cpp:42-72 | External events that are added in the meantime do not change that. |
| TimedQueue.AddConserves | src/timing/TimedEventQueue.cpp:42-72 | Every entry of the old queue and the new entry is queued or deleted, counted with multiplicity. |
| TimedQueue.OnlyPredictionsOutdated | src/timing/TimedEventQueue.cpp:146-172 | An insertion deletes nothing but predictions. |
| TimedQueue.RepeatedPredictionsDrift | src/timing/TimedEventQueue.cpp:160-172 | Two predictions without a delivery in between break the order exactly if the first one was accepted, the second one is concurrent with it, and the second one is more than the tolerance after the external event. |
| EventQueue.TimedEventQueue.InitStartTimeNow | src/timing/TimedEventQueue.cpp:28-40 | The start time becomes the simulation time of this instant up to less than a tick, and the barrier opens. |
| EventQueue.TimedEventQueue.GetTimeStampNow | src/timing/TimedEventQueue.cpp:111-118 | The time stamp belongs to exactly the current tick of the clock. |
| EventQueue.TimedEventQueue.RemoveFuturePredictions | src/timing/TimedEventQueue.cpp:146-158 | Removes the front, and deletes it, exactly if it is a prediction more than the tolerance after the given time. |
| EventQueue.TimedEventQueue.RemoveConcurrentPrediction | src/timing/TimedEventQueue.cpp:160-172 | Removes the front, and deletes it, exactly if it is a prediction within the tolerance of the given time. |
| EventQueue.TimedEventQueue.PushEntry | src/timing/TimedEventQueue.cpp:174-191 | Inserts a prediction at the front and an external event before the first entry more than the tolerance later; neither assertion fails if predictions do not meet and neighbours are ordered. |
| EventQueue.TimedEventQueue.AddEvent | src/timing/TimedEventQueue.cpp:42-72 | The new queue, the deleted events and the notification are those of the list discipline. |
| EventQueue.TimedEventQueue.PushExternalEvent | src/timing/TimedEventQueue.cpp:103-109 | An external event deletes the front exactly if this is a prediction more than the tolerance later, goes behind everything at most the tolerance later, and wakes the consumer. |
| EventQueue.TimedEventQueue.PollOnce | src/timing/TimedEventQueue.cpp:81-98 | One pass of the loop in get waits for a signal, waits for the due time of the front, or takes the front out. |
| DispatcherProofs.RunInv | src/timing/EventDispatcher.cpp:43-65 | The whole invariant of queue, wake-ups, deliveries and life cycles holds after every run. |
| DispatcherTheorems.QueueStaysOrdered | src/timing/TimedEventQueue.cpp:146-191 | In every run at most one prediction is queued, at the front and only while the dispatcher waits for it, and the order bounds hold for all pairs and all neighbours, so that no assertion of push can fail. |
| DispatcherTheorems.PredictionsNeverMeet | src/timing/EventDispatcher.cpp:50-55 | Whenever the dispatcher adds a prediction, no other one is queued; the prediction goes to the front unless the front is more than the tolerance before it. |
| DispatcherTheorems.GetDeliversPredictionOrEarlier | src/timing/EventDispatcher.cpp:50-63 | get never meets an empty queue, and it returns the prediction of the iteration or an external event strictly before it. |
| DispatcherTheorems.GetTakesTheDueFront | src/timing/TimedEventQueue.cpp:81-98 | In every run get hands out the front as soon as the simulation clock has reached its time, and waits while the clock is at least a microsecond behind it. |
| DispatcherTheorems.StopsAtStopTime | src/timing/EventDispatcher.cpp:43-65 | The dispatcher has ended if and only if it has distributed an event that is not before the stop time. |
| DispatcherTheorems.OnlyEarlierEventsOutdate | src/timing/TimedEventQueue.cpp:42-72 | In every run an entry is outdated only after an external event was added that is more than the tolerance before it. |
| DispatcherTheorems.EarlierEventsOutdate | src/timing/TimedEventQueue.cpp:146-158 | In every run a prediction is not queued any more once an event was added after it that is more than the tolerance before it. |
| DispatcherTheorems.NoLostWakeUp | src/timing/TimedEventQueue.cpp:67-98 | A consumer that waits without a pending signal waits exactly for the due time of the current front. |
| DispatcherTheorems.NothingDeliveredEarly | src/timing/TimedEventQueue.cpp:88-97 | No event is delivered while the simulation clock is a microsecond or more behind it. |
| DispatcherTheorems.LateDeliveriesWereAddedLate | src/timing/TimedEventQueue.cpp:42-101 | If an event is delivered after one that is more than two tolerances later, all its additions happened after that earlier delivery. |
| DispatcherTheorems.EventsAreConserved | src/timing/EventDispatcher.cpp:87-102 | Every added event is in exactly one place: queued once, delivered, or outdated; only predictions are outdated, and nothing is deleted twice. |
| DispatcherTheorems.LogFollowsTheLifeOfAnEvent | src/timing/EventDispatcher.cpp:51-61 | Each event logs one registration, then begin and end of its distribution or, for predictions only, that it is outdated, in this order. |
| DispatcherTheorems.StagesByPosition | src/timing/EventDispatcher.cpp:51-61 | The stages of an event are those of all its records in the history, in the order of the records. |
| EventLoop.EventDispatcher.AddEvent | src/timing/TimedEventQueue.cpp:42-72 | The queue object changes as the list discipline says, and the history records the addition and exactly the events that the queue deleted for it. |
| EventLoop.EventDispatcher.Take | src/timing/EventDispatcher.cpp:43-102 | In every reachable state the objects take the step of the transition system, history and deleted events included, and no assertion of the queue fails. |
| EventLoop.EventDispatcher.Run | src/timing/EventDispatcher.cpp:43-65 | After any schedule of the threads the dispatcher and the queue object are in the state that the transition system reaches, with the same history. |
| Images.Update | src/network/CompactASN1Publisher.cpp:173-192 | Every listed port holds the value of the last variable of the event with this port, or its old value if there is none, and it is reported whether the event mentions a port. |
| Images.LastAssignedAt | src/network/CompactASN1Publisher.cpp:173-192 | The last assignment to a port is the value of the variable with this port that no other one follows, or the initial value if no variable has the port. |
| Images.LastAssignedOfConcat | src/network/CompactASN1Publisher.cpp:173-192 | Images can be updated event by event: the result is the last assignment of the whole history. |
| EventPredictor.Predictor.PredictNextEvent | src/model/EventPredictor.cpp:140-161 | Returns a lazy event at the answer of the solver, or the outputs at the current time if direct outputs are assumed and an input is pending; an error changes nothing. |
| EventPredictor.Predictor.GetOutputVariables | src/model/EventPredictor.cpp:210-245 | The first query asks the solver to update to the predicted time, moves the model there and fetches the outputs, later queries return the same without asking; it fails exactly if the update misses the time by more than twice the resolution. |
| EventPredictor.Predictor.GetVariables | src/model/LazyEvent.cpp:22-34 | A lazy event reports that it is outdated exactly if the model has passed it; otherwise reading it settles the predictor. |
| EventPredictor.Predictor.UpdateInputImage | src/model/EventPredictor.cpp:474-506 | All four input images hold the last values that the event assigns, and the result tells whether any input was mentioned. |
| EventPredictor.Predictor.EventTriggered | src/model/EventPredictor.cpp:163-208 | Each input port of the event takes over the value of the last variable with this port, all others keep theirs. For an event with an input the solver is asked to update to the time of the event if this is more than the resolution after the current time, else to the current time, and the model is there afterwards; other events change nothing but what reading them settles. It fails exactly if the event cannot be read. |
| PredictorRuns.LazyEventsAreNeverOutdated | src/model/LazyEvent.cpp:22-34 | In every run of dispatcher and predictor a delivered lazy event is the latest prediction: it is never outdated, the assertions of the query hold, and later listeners read it without a further change. |
| PredictorRuns.UpdatesStayWithinThePrediction | src/model/EventPredictor.cpp:163-208 | The model is only asked to update to a time between its current time and its last prediction, and only external events set inputs. |
| PredictorRuns.DiscardedPredictionsLeaveNoTrace | src/model/EventPredictor.cpp:444-463 | The current time of the model is a function of the distributed events alone. |
| PredictorRuns.DistributionMovesModel | src/model/EventPredictor.cpp:163-208 | In every run the distribution of a model event brings the model to the time of this event. An external event with an input brings it to its own time if this is more than the resolution after the current time and leaves it in place otherwise. Nothing else moves it. |
| PredictorRuns.DirectOutputsFollowInputs | src/model/EventPredictor.cpp:140-161 | In every run the first prediction after an external event with an input is made at the current time with its outputs if direct outputs are assumed; all other predictions are those of the solver. |
| PredictorRuns.ModelClockNeverRunsBackwards | src/model/EventPredictor.cpp:163-208 | The current time of the model never decreases along a run, even if late events arrive. |
| OneStepPredictor.Predictor.PredictOneStep | src/model/OneStepEventPredictor.cpp:378-397 | The loop ends with the first answer of the integrator that is an error or completes the step; the model is at this answer, or the error is reported. |
| OneStepPredictor.Predictor.UpdateOutputImage | src/model/OneStepEventPredictor.cpp:399-451 | The image becomes what was fetched, and the result tells whether any value differs; if a value cannot be fetched, the error is reported and only the values before it are updated. |
| OneStepPredictor.Predictor.PredictNextEvent | src/model/OneStepEventPredictor.cpp:75-96 | Repeats the cached event if there is one. Otherwise it makes a step that ends with the last answer of the integrator and offers its changes, and it fails exactly if this answer is an error or an output cannot be fetched. |
| OneStepPredictor.Predictor.EventTriggered | src/model/OneStepEventPredictor.cpp:98-118 | Each input takes over the value of the last variable of the event with its port, all others keep theirs, and the model handles the event; the cache is cleared if and only if the event sets no input. It fails exactly if the model rejects an input. |
| OneStepRuns.StepsWaitForDelivery | src/model/OneStepEventPredictor.cpp:75-118 | In every run each step of the model was delivered, is on offer, or was dropped by an external event without inputs, counted exactly; a step is made only when none is on offer. Without such events steps wait for the delivery of the one before. |
| OneStepSuppression.SuppressionIsLossless | src/model/OneStepEventPredictor.cpp:399-473 | If every registered external event sets an input or lies at or after the stop time, the last non-empty event that was distributed, or the initial outputs, equals the outputs fetched after the latest delivered step. |
| OneStepSuppression.ChangesGetLost | src/model/OneStepEventPredictor.cpp:75-118 | For every other external event and every model with outputs there is a run of the dispatcher with this event alone after which the outputs have changed, but the listeners have been told that nothing has. |
| OneStepSuppression.LosslessExactlyWithInputs | src/model/OneStepEventPredictor.cpp:75-118 | Whatever external events are allowed: suppression is lossless in all runs if and only if each of them sets an input or lies at or after the stop time, or the model has no outputs. |
| OneStepRuns.PredictionsRepeat | src/model/OneStepEventPredictor.cpp:75-96 | In every run all predictions have the same time and the same values as long as no event without inputs is distributed between them, model events included. |
| TimingReader.CompletedAreSinglePeriods | scripts/timing/reader.py:47-77 | A record completes an entry exactly if it ends a live period with a single registration. The entry has simulation time, real time and kind of the registering record, the real time of the last begin in the period, if any, and that of the ending record, unless this says that the event is outdated. |
| TimingReader.Reader.AddNewEvent | scripts/timing/reader.py:103-122 | A new time is opened with the times and the kind of its record; a live time is moved to, or counted in, the duplicates, or reported in strict mode. |
| TimingReader.Reader.FinalizeEvent | scripts/timing/reader.py:124-139 | An open time yields its entry, with the end stamp only if the distribution has ended; a duplicate is counted down, and an unknown time fails. |
| TimingReader.Reader.Read | scripts/timing/reader.py:47-77 | The loop over the records computes the reading of the trace, up to the first failure. |
| TimingReader.ReaderYieldsSinglePeriods | scripts/timing/reader.py:47-139 | The reader succeeds if and only if no time is finalized more often than registered and, in strict mode, no live time is registered again; it then yields exactly the completed single periods. |
| TimingReader.TablesAreDisjoint | scripts/timing/reader.py:103-139 | The two tables never share a time and hold exactly the live times, duplicates with their live count. |
| TimingTrace.OrderlyHistoryIsReadable | scripts/timing/timing_entry.py:82-89 | For any history in which events are used in order, the trace is readable and all its entries are complete. |
| TimingTrace.EveryRunIsReadable | src/timing/EventDispatcher.cpp:51-102 | The stage log of every run is read without an error, however times are rounded in print; the assertion of is_triggered holds for every entry, and distributed entries have both stamps. |
| TimingTrace.LoneEventsAreReported | src/timing/EventDispatcher.cpp:51-102 | In every run each event that shares its printed time with no other and was distributed or outdated is reported by the reader, with the simulation times at which it was registered, its distribution began and its distribution ended. |
| Simulation.SimulateMultiStep | src/timing/EventDispatcher.cpp:43-65 | Along any schedule, dispatcher, queue and multi-step predictor objects stay in the state of the composed system; no assertion and no check of the predictor fails. |
| Simulation.SimulateOneStep | src/timing/EventDispatcher.cpp:43-65 | The same for the one-step predictor, as long as the answers of the integrator complete the steps. |
| Asn1Codec.ReadUndoesEncode | src/network/CompactASN1Subscriber.cpp:222-265 | Reading returns the encoded value and consumes exactly its bytes, whatever follows. |
| Asn1Codec.EncodedBytes | src/network/CompactASN1Publisher.cpp:227-293 | The bytes of every value: tag, then length and contents, most significant byte first, negative numbers in two's complement. |
| Asn1Codec.ReadingIsStable | src/network/CompactASN1Subscriber.cpp:293-425 | More bytes never change a value that was read or a bad tag, and fewer bytes than reported missing do not complete a value. |
| Asn1Codec.UnfinishedIsShort | src/network/CompactASN1Subscriber.cpp:325-369 | An unfinished value has at most 65537 bytes. |
| Asn1Codec.SignedBack | src/network/CompactASN1Subscriber.cpp:399-425 | Four bytes, most significant first, restore every 32-bit integer, negative ones included. |
| Asn1Subscriber.Init | src/network/CompactASN1Subscriber.cpp:33-57 | A channel is refused if and only if it has no port. |
| Asn1Subscriber.PartialEvent.PushNextValue | src/network/PartialEvent.cpp:53-61 | The value is assigned to the next port of the template, which is then used up. |
| Asn1Subscriber.PartialEvent.IgnoreNextValue | src/network/PartialEvent.cpp:63-67 | The next port is skipped, and the variables stay as they are. |
| Asn1Subscriber.Subscriber.HandlePacketTimeout | src/network/CompactASN1Subscriber.cpp:132-142 | If an event is open, exactly the variables collected so far are pushed, no event is open and the buffer is empty afterwards; otherwise nothing changes. |
| Asn1Subscriber.Subscriber.ReadXREALVariable | src/network/CompactASN1Subscriber.cpp:293-323 | Consumes the tag and the bytes of a real number, most significant first, or reports how many bytes are missing and consumes nothing. |
| Asn1Subscriber.Subscriber.ReadXINTVariable | src/network/CompactASN1Subscriber.cpp:399-425 | Consumes the tag and four bytes in two's complement, or reports how many bytes are missing and consumes nothing. |
| Asn1Subscriber.Subscriber.ReadSTRINGVariable | src/network/CompactASN1Subscriber.cpp:325-369 | Consumes tag, length and characters of a string, or reports how many bytes are missing and consumes nothing. |
| Asn1Subscriber.Subscriber.ReadNextVariable | src/network/CompactASN1Subscriber.cpp:222-291 | Dispatching on the tag to the read functions reads and converts exactly the value that the bytes stand for; an unfinished value or a bad tag leaves the buffer as it is. |
| Asn1Subscriber.Subscriber.ProcessRawDataToEvent | src/network/CompactASN1Subscriber.cpp:190-220 | Fills the open event until it is complete, the buffer is empty, or the rest cannot be read, without changing what a scan of the buffer yields. |
| Asn1Subscriber.Subscriber.CommitData | src/network/CompactASN1Subscriber.cpp:89-120 | The loop ends, and a chunk has exactly the effect of the parser function: complete events are pushed, a bad tag pushes what is there and clears the buffer. |
| Asn1Parsing.ParserStaysConsistent | src/network/CompactASN1Subscriber.cpp:89-161 | For any chunks and timeouts: a missing event means an empty buffer, an open one has ports left, at most 65537 bytes are buffered, and pushed variables are type-correct and in port order. |
| Asn1Variables.InputsAreCollected | src/network/CompactASN1Subscriber.cpp:89-142 | A chunk adds to what was pushed and what is open exactly the variables that its complete values stand for, port after port; a timeout adds and drops none, and pushes what is open. |
| Asn1Variables.NothingReadIsLost | src/network/CompactASN1Subscriber.cpp:89-161 | Whatever chunks, timeouts and bad tags arrive: a variable that was read is at all later times in the same place of what was pushed or is open. |
| Asn1Variables.ValuesFillEvents | src/network/CompactASN1Subscriber.cpp:190-220 | Pushed events and filled ports account for every value: an event is pushed with the last of its ports and not before. |
| Asn1Variables.BadTagPushesOpenEvent | src/network/CompactASN1Subscriber.cpp:104-108 | An unsupported tag behind complete values pushes the variables they have left open, even if there are none, and drops all bytes from the tag on. |
| Asn1Parsing.ScanStopsAtUnread | src/network/CompactASN1Subscriber.cpp:190-265 | Where parsing stops, and whether at an unsupported tag, depends on the bytes alone, not on the ports and their conversions. |
| Asn1Parsing.CleanStreamsMayBeCut | src/network/CompactASN1Subscriber.cpp:89-120 | A stream without an unsupported tag before its last byte has the same effect for every way of cutting it. |
| Asn1Parsing.DirtyStreamsMustNotBeCut | src/network/CompactASN1Subscriber.cpp:104-108 | Any other stream can be cut so that the effect differs. |
| Asn1Parsing.ChunkIndependence | src/network/CompactASN1Subscriber.cpp:89-265 | Pushed events and parser state are independent of the cuts if and only if the stream meets no unsupported tag before its last byte. |
| Asn1Publisher.InitOutputTypes | src/network/CompactASN1Publisher.cpp:102-146 | Each port gets its configured type or the default of its kind; the first port that can have no type is reported, as unsupported exactly if the name is unknown, else as not convertible. |
| Asn1Publisher.Publisher.EventTriggered | src/network/CompactASN1Publisher.cpp:43-54 | A message with all current values is sent if and only if a variable of the event has a port of the channel; each port holds the value of the last such variable, or its old value. |
| Asn1Publisher.Publisher.EncodeOutputVariables | src/network/CompactASN1Publisher.cpp:194-225 | The message is the concatenation of the encoded values in port order. |
| Asn1Publisher.EncodeNumber | src/network/CompactASN1Publisher.cpp:227-265 | Shifting and masking produces the tag and the bytes of the number, most significant first. |
| Asn1Publisher.EncodeString | src/network/CompactASN1Publisher.cpp:280-293 | A string is sent with its length modulo 65536 and cut to this length. |
| Asn1EndToEnd.PublishedIsLastAssigned | src/network/CompactASN1Publisher.cpp:72-100 | The publisher holds for each port the value that the whole history assigned last, or the default of its type. |
| Asn1EndToEnd.EqualTypesArrive | src/network/CompactASN1Subscriber.cpp:267-291 | With equal types on both sides integers and double precision reals arrive unchanged, booleans normalised, strings cut to their length modulo 65536, and single precision reals as their rounded value converted back. |
| Asn1EndToEnd.WhatIsPublishedArrives | src/network/CompactASN1Subscriber.cpp:89-265 | The messages of any history, cut into chunks in any way, push exactly one event for each message with the variables that arrive, and leave nothing behind, also if conversions fail. |
| Asn1EndToEnd.SendersConcernTheChannel | src/network/CompactASN1Publisher.cpp:43-54 | Messages are sent, in order, for exactly the events that have a variable of a port of the channel. |
| Asn1EndToEnd.PushedEventsHoldLastValues | src/network/CompactASN1Subscriber.cpp:89-265 | With equal types on both sides, one event is pushed for each event that concerns the channel. It has exactly one variable per port in port order: what arrives of the last variable of this port up to that event, by its position in the history, or of the default value if there is none. |
| Asn1EndToEnd.Publish | src/network/CompactASN1Publisher.cpp:43-54 | The publisher object sends the messages of the history and holds its last values. |
| Asn1EndToEnd.Receive | src/network/CompactASN1Subscriber.cpp:89-120 | The subscriber object consumes chunk after chunk with the effect of the parser. |
| Asn1EndToEnd.Transmit | src/network/CompactASN1Subscriber.cpp:89-120 | Publisher and subscriber object together, with any network that cuts the bytes: the expected events are pushed and nothing is left. |
| CsvText.UnpackInvertsEscape | scripts/data/reader.py:179-191 | Unpacking yields a string if and only if the literal is its escaped form, perhaps with one final line break. |
| CsvText.DoubleIsCharacterwise | src/timing/CSVDataLogger.cpp:171-189 | Escaping doubles each quote and copies every other character. |
| CsvText.MergeRepairsSplit | scripts/data/reader.py:157-177 | Splitting at every separator and merging by quote parity equals splitting at unquoted separators, for every line. |
| CsvText.MergeRestoresFields | scripts/data/reader.py:157-177 | Joined fields are restored if and only if all separators in them are quoted and only the last one may end inside a string. |
| CsvText.EscapedIsProtected | src/timing/CSVDataLogger.cpp:171-189 | Every separator in an escaped string is quoted, and the string is closed. |
| CsvDataLogger.Logger.constructor | src/timing/CSVDataLogger.cpp:100-142 | A new logger has written the two header lines. |
| CsvDataLogger.Logger.AppendString | src/timing/CSVDataLogger.cpp:171-189 | The string is written between quotes, with every inner quote doubled. |
| CsvDataLogger.Logger.FindVariable | src/timing/CSVDataLogger.cpp:216-231 | The variable of the port that no other one precedes is found, or nothing if no variable has the port. |
| CsvDataLogger.Logger.EventTriggered | src/timing/CSVDataLogger.cpp:62-81 | One line is appended: the time, then for each port of the header its field, empty for an absent variable. |
| CsvDataLogger.RowHasSemicolons | src/timing/CSVDataLogger.cpp:62-81 | A line is the time and a semicolon, then the fields with one semicolon between any two of them. |
| CsvDataLogger.WriteLog | src/timing/CSVDataLogger.cpp:62-142 | The file of a whole history is its two header lines and one line for each event. |
| CsvReader.Reader.MergeColumns | scripts/data/reader.py:157-177 | The loop over the fields and the parity flag computes the merged row. |
| CsvReader.Reader.AddHeader | scripts/data/reader.py:36-90 | The names and types of a valid header are registered; a missing or malformed header is a ValueError. |
| CsvReader.TypesHaveNames | scripts/data/reader.py:49-90 | The names of the four types that logger and reader agree on; the unknown type has a name that is not read. |
| CsvReader.Reader.ParseOneRow | scripts/data/reader.py:113-155 | A row becomes its time and the values of its non-empty columns, with the errors of the original in their order. |
| CsvReader.Reader.GenerateEvents | scripts/data/reader.py:102-111 | Yields one event for each row before the first erroneous one, and then this error. |
| CsvReader.Reader.ReadFile | scripts/data/reader.py:15-47 | Header and events of a file; if a row is an error, the events before it have been delivered. |
| CsvRoundTrip.RowIsRestored | scripts/data/reader.py:102-111 | A row of closed fields is split and merged back into its fields. |
| CsvRoundTrip.PresentLooksUp | scripts/data/reader.py:134-155 | The event that is expected has a value for a column if and only if the logged event has a variable for it, and then this value. |
| CsvRoundTrip.RowIsRead | scripts/data/reader.py:113-132 | A logged row is parsed to the expected event if there is a variable and no name is used twice, and is an error otherwise. |
| CsvLines.BrokenRow | src/timing/CSVDataLogger.cpp:62-81 | A line break in a field ends the line within this field, whatever follows. |
| CsvLines.CutLiteralIsOpen | src/timing/CSVDataLogger.cpp:171-189 | An escaped string that is cut at its first line break is an open string with an odd number of quotes. |
| CsvLogFile.BrokenEventIsRejected | scripts/data/reader.py:113-155 | The first line of an event that has a string with a line break is never parsed, for any header of these names and types. |
| CsvLogFile.LogIsReadBack | scripts/data/reader.py:36-132 | Reading the text of a log restores names, types, times and present variables if and only if all types are known, no name and no string has a line break, and there is no event, or at least one variable and no repeated name. Otherwise reading fails. |
| CsvLogFile.WriteAndRead | scripts/data/reader.py:15-132 | Logger and reader object one after the other: the reader delivers what was logged under exactly this condition. |
| EventFilters.InterpolationIsLatest | scripts/data/filtered_reader.py:132-156 | Every delivered event has for each variable of the header its latest value so far or its initial value, and keeps its other variables. |
| EventFilters.LatestByIndex | scripts/data/filtered_reader.py:146-156 | The latest value of a variable is the one of the last event that has it. |
| EventFilters.NonEmptyPositions | scripts/data/filtered_reader.py:35-45 | What is selected stands exactly at the positions of the non-empty events, in order. |
| EventFilters.DroppingCommutes | scripts/data/filtered_reader.py:35-45 | Interpolating without the empty events yields exactly the interpolated stream restricted to the non-empty events. |
| EventFilters.SecondPassAgrees | scripts/data/filtered_reader.py:132-144 | If the source yields the same events afresh, a second pass agrees with the first one if and only if every variable that the first event does not set is never set, or is set last to its initial value. |
| EventFilters.LateVariablesDiffer | scripts/data/filtered_reader.py:132-144 | A variable that only a later event sets to another value makes the passes differ. |
| EventFilters.EmptyEventFilter.FilterEvents | scripts/data/filtered_reader.py:35-45 | The very events that have a variable are passed on, in their order: those at the positions of the non-empty events. |
| EventFilters.ConstantInterpolationEventFilter.GetInitialVariableImage | scripts/data/filtered_reader.py:77-102 | The image covers exactly the header with converted or default values; it fails if and only if a conversion fails or a given name is unknown. |
| EventFilters.ConstantInterpolationEventFilter.SyncVariable | scripts/data/filtered_reader.py:146-156 | A present variable updates the image, an absent one is taken from it. |
| EventFilters.ConstantInterpolationEventFilter.SyncEvent | scripts/data/filtered_reader.py:138-141 | One event updates the whole image and is completed by it, whatever the order of the columns. |
| EventFilters.ConstantInterpolationEventFilter.InterpolateVariables | scripts/data/filtered_reader.py:132-144 | All events of the source are completed in place, and the image is the one after the last event. |
| EventFilters.InterpolateNonEmpty | scripts/data/filtered_reader.py:35-156 | Both filters in a row deliver the completed events of the whole stream without the empty ones. |
| ChannelConfiguration.PortIDDrawer.GetNextPortID | src/base/PortIDDrawer.cpp:21-27 | Each draw returns the next number of the type and changes no other counter. |
| ChannelConfiguration.ChannelMapping.GetID | src/base/ChannelMapping.cpp:248-261 | The identifier of the first equal name of the type, or a negative one if there is none. |
| ChannelConfiguration.ChannelMapping.GetPortID | src/base/ChannelMapping.cpp:84-100 | The first type that has the name decides, and a name that no type has is an error. |
| ChannelConfiguration.ChannelMapping.AddVariables | src/base/ChannelMapping.cpp:205-246 | The ports of a channel, in order up to the first gap in the configuration, or an error with what was registered before it. |
| ChannelConfiguration.ChannelMapping.AddChannels | src/base/ChannelMapping.cpp:180-203 | The channels, in order up to the first gap in the configuration, or an error with what was registered before it; names and identifiers stay parallel. |
| ChannelConfiguration.SettleMappings | src/base/ApplicationContext.cpp:238-258 | The mappings of inputs and outputs that are built from one source have no identifier in common. |
| ChannelConfiguration.MappingsAreWellPosed | src/base/ChannelMapping.cpp:205-246 | Two mappings from one source, in either order, fulfil what both predictors demand: no output is ever taken for an input. |
| ChannelRegistry.RefusedMappings | src/base/ChannelMapping.cpp:217-230 | A configuration is refused if and only if a variable has no name or a type code other than 0 to 4. |
| ChannelRegistry.ChannelsAreResolved | src/base/ChannelMapping.cpp:205-246 | Every port of every channel has the identifier under which its name and type are registered. |
| ChannelRegistry.PortsHaveConfiguredTypes | src/base/ChannelMapping.cpp:217-237 | The type of every port is the one of its code: 0 real, 1 integer, 2 boolean, 3 string, and unknown for 4 or a missing code. |
| ChannelRegistry.OnlyConfiguredChannels | src/base/ChannelMapping.cpp:232-237 | Every registered variable was known before or is configured in a channel. |
| ChannelRegistry.IdentifiersAreUnique | src/base/ChannelMapping.cpp:232-237 | Two ports of a mapping have the same identifier if and only if their variables have the same name and type. |
| ChannelRegistry.SharedSourceSeparates | src/base/PortIDDrawer.cpp:21-27 | Within a mapping identifiers stay unique, and none of them occurs in a mapping built later from the same source, even if one of them was refused half-way. |

## Left out

- Locks and condition variables: a critical section is one atomic step, the notification reaches the consumer only while it waits, and spurious wake-ups are steps that may happen at any time. The initialization barrier is a flag.
- The list of listeners: a distribution is one begin and one end; the predictor is the only listener whose state is modelled together with the dispatcher.
- EventPredictor.Predictor.EventTriggered: the state of the solver behind updateState and syncState is not modelled, only the time it is asked for; a solver error ends a run.
- PredictorRuns.LazyEventsAreNeverOutdated: assumes that the solver never predicts a time before its current one.
- The call of abs in getOutputVariables (src/model/EventPredictor.cpp:216) is the absolute value of a real number; an integer overload would truncate it.
- Floating point: times are real numbers, bit patterns of reals are opaque words, NaN and rounding are not modelled.
- Asn1Publisher.EncodeNumber: a single precision real is four bytes, as intended; the original copies the size of the double it was converted from (src/network/CompactASN1Publisher.cpp:250).
- Conversion between different types (boost::convert) is an arbitrary partial function; only between equal types it is assumed to change nothing.
- Asn1Subscriber.Subscriber.CommitData: the time stamps of received events are left out.
- The packet timer: a timeout is a step that may happen between any two chunks. Cancelling, termination requests and the sockets are left out.
- OneStepPredictor.Predictor.UpdateOutputImage: the images of the four types are one list, so a failure can be at any value, while the model fails for all values of a type at once; the guard for models without outputs makes no difference there.
- OneStepPredictor.Predictor.PredictOneStep: the integrator is assumed to fail or to complete the step after finitely many answers; otherwise the original loops forever.
- What the model does when it handles an event is not modelled, only that it is told to; a solver error ends a run.
- The text of numbers: CSV fields of numbers are opaque tokens without separators, quotes and line breaks, and which tokens can be converted is a parameter.
- TimingReader.Reader.Read: the rows of the timing file are records already; the number of fields, the numbers in them and the check of the stage code are left out, and entries are values instead of objects.
- EventFilters.ConstantInterpolationEventFilter.InterpolateVariables: the source makes an event object of its own for each event, as the reader does.
- EventFilters.SecondPassAgrees: assumes a source that can be read twice; the CSV reader yields nothing in a second pass.
- ChannelConfiguration.ChannelMapping.AddVariables: port numbers are unbounded, and the configuration of a port that is kept for the channel is left out.
- The accessors of a channel mapping that list all names, all identifiers and the ports of a channel or count them, and toString: they read the vectors whose contents are modelled.
- Application context, property trees, command line, logging sinks, network manager, threads, solver configuration, data set statistics and HTML output: configuration, user interface and library calls.
