# A Dafny model of logNOT

logNOT follows log files as byte streams, cuts them into items, counts regular-expression matches per
time window (optionally per CRC-32 of the match) and queues shell actions when a rate leaves its
bounds. This project models the stateful algorithms behind that and proves what they promise over
whole runs. `dafny verify dfyconfig.toml` checks everything.

| file | models |
|---|---|
| `event_queues.dfy` | `LNFreq`: the per-key queues of time stamps, capped, purged and emptied (monitor.cpp) |
| `rate_engine.dfy` | the match loop, `LNLogItem` and the down-bound checker thread, interleaved at every lock release |
| `rate_history.dfy` | what runs of the rate engine do, read off their steps: every match counted and tested, every item visited in every pass |
| `framer.dfy` | `LNLogFile::fetchNextLog` and the loop that drains it |
| `crc32.dfy` | the table-driven CRC-32 against division of polynomials |
| `action_queue.dfy` | `LNActionQueue` over `LNCondition` as a step system |
| `action_trails.dfy` | the places a call of `push` or `pop` goes through, and what the calls put in and get out |
| `replacing.dfy` | `LNUtility::replaceString` |
| `rewriting.dfy` | the action templates of `LNActionPreprocessor::run` |
| `manual.dfy` | what the manual promises of actions, against that |
| `repeat_log.dfy` | repeat suppression in `LNLog::log` |
| `frequency_text.dfy` | `explodeString` and the printed form of a frequency |
| `text.dfy`, `options.dfy` | string search, C strings, optional values |

Code that updates objects is a class whose methods are proved against functions on values; the two
protocols (the item locks, the action queue) are step systems over those functions. Reads of the
clock, results of `read` and results of the regular-expression engine are parameters. The clock never
runs backwards, and may move between the two readings of one `Match`; the checker's pause of five seconds
is not modelled, its passes start at any time. The two protocols are tied down by functions of the steps
alone: `RunHistory` says that the state after every run holds what its steps say, `CallsFollowTheirTrail`
that every call goes the way the source writes.

## What the code does differently from what one would expect

* **A purge can step over a queue.** Erasing an entry that is not the first restarts the loop at the
  first key and then skips it (monitor.cpp:112-118). `Skipped` says which key that is: when the first
  two queues both go stale, the third is never looked at. `PassIsCompleteIff` gives the exact condition
  under which a pass is complete; `PassCanLeaveStaleStamps` is a concrete pass that is not. The source
  increments the iterator of an entry it has just erased; the model continues at the next key, and lets
  an iterator at the end stay there, where the C++ library leaves both undefined.
* **An item taken from the hold is too long.** `item = m_trash_hold` copies the overwritten separator
  and everything behind it (monitor.cpp:671-674), and `Match` looks at its whole length
  (monitor.cpp:251-252). The model keeps that: `ItemIsLineIff` says exactly when it happens. Of n > 1 lines in
  one read every item but the first carries all lines behind its own (`ItemsOfOneRead`), so that a pattern
  found only in the last line is counted n - 1 times (`LastLineInEveryItem`). The exactness theorems are
  about the C string in the item, which is the line.
* **A separator that straddles two reads is not found in that fetch** (monitor.cpp:713-729). It is lost for
  good when more data follows at once (`CutSeparatorIsLost`), and found by the next fetch when the data runs
  out first (`CutSeparatorIsFoundLater`); `CutNewlines` shows both. Items are the lines of the stream for any
  separator as long as no read ends inside one (`WatchExact`), and whatever the reads if and only if the
  separator has one byte (`OneByteIff`).
* **A down-bound decision can be wrong when the clock moves between reading `tnow` and emptying the queue**
  (action_queue.cpp:82-91): a match in between is lost to the next pass, `SlipLosesAMatch` is such a run.
  `DownBoundSound` bounds the error by that delay; decisions are exact when the queue was emptied before
  the window (`DownBoundExact`), and for every delay up to `d` if and only if `d` is 0 (`ExactUpToIff`).
* **Two down-bound alarms of one item can be raised closer together than its period** when the clock moves
  between `tnow` and the earlier one: `start_time` is set to `tnow` (action_queue.cpp:91). `RaisesTooClose`
  is such a run, `RaisedSpacing` the bound, `RaisesSpacedIff` the exact condition.
* **The look-up of a match can fail** when a purge comes more than a period after the match
  (monitor.cpp:132); `LookupCanFail` is such a run, `LookupFailsIff` the exact condition.
* **A frequency above 2^31 - 1 may not survive printing and parsing** ("%d" prints 32 bits,
  monitor.cpp:63); `PrintParseIff` is the exact condition.
* **A wake-up can be lost**: pop tests the queue and waits in two critical sections
  (action_queue.cpp:26-33). In every system with a consumer and a producer, and in no other, some run ends
  with commands queued, every consumer asleep and no push under way (`WakeUpLostIff`); it takes a
  consumer that goes to sleep while the queue holds a command (`CarefulNeverStrands`).
* **Replacing need not end** (utility.cpp:81-83): `ReplaceDiverges`, `SelfReferenceDiverges`. For a search
  text of one character `ReplaceCharEndsIff` is exact. For longer ones there is a gap between `ReplaceEnds`
  and `ReplaceDiverges`: it can end although the replacement is neither shorter nor lacks a character
  (`EndsWithoutShrinking`), and go on for ever although the replacement does not contain the search text
  (`EndlessWithoutContaining`). What lies between is the termination of a one-rule rewriting system, which is
  left open.
* **An argument can be taken for another one**: `$1` is also found in `$10`, so `$10` gets the value of
  `$1` and a zero when `$1` comes first (monitor.cpp:345-352). For the same reason `\$1` loses its dollar
  when the action has an argument `$1` (`EscapedDollar`). An argument at the very start of an action is
  not matched (monitor.cpp:319); it is replaced only when an argument after it is found in its spelling
  (`LeadingArgument`). `PreprocessMeans` says what every template becomes.
* **A backslash cannot be escaped.** The manual (README:277) promises `\\` for a backslash; the code rescans
  after each replacement of `\$` (monitor.cpp:364), so that a whole run of backslashes before a dollar
  disappears: `\\$1` gives `$1`, where the manual promises a backslash and the value (`DoubledBackslash`).
  For actions without arguments the code does what the manual promises if and only if no two backslashes
  stand in a row (`EscapesDocumentedIff`); for templates if and only if, moreover, no argument is taken for
  another one (`PreprocessDocumentedIff`).
* **A repetition can be suppressed in a later minute than the message it repeats** when debug messages
  are logged (debug.cpp:75): `SuppressedIff` and `MovedMinuteIff` are exact, `DebugMovesTheMinute` is a log
  in which it happens.

## Model

| member | source | states |
|---|---|---|
| EventQueues.Freq.PushEvent | monitor.cpp:78-101 | the queue of the key is cut to its newest count + 10 stamps, then the new stamp is appended; all other queues are unchanged |
| EventQueues.Freq.RemoveDeprecated | monitor.cpp:103-121 | the pass ends, and leaves every queue without its stale front stamps and no queue that went empty, except for the key it steps over, which is untouched; a period of 2^63 or more counts as negative |
| EventQueues.Freq.GetMessuringCount | monitor.cpp:123-139 | key 0 gives the number of stamps in all queues, any other present key the length of its queue |
| EventQueues.Freq.ResetMessuring | monitor.cpp:141-160 | key 0 empties every queue and keeps the keys, any other present key empties only its queue |
| EventQueues.Freq.SetFromString | monitor.cpp:66-76 | succeeds exactly on texts with two parts; then both numbers are set, otherwise nothing changes |
| EventQueues.Freq.ToString | monitor.cpp:62-64 | the text is the decimal numerals of both numbers, cut to signed 32-bit words, around a slash, and parsing it gives these numbers back, sign-extended to 64 bits |
| EventQueues.DropBeforeIsFilter | monitor.cpp:109-111 | popping stale stamps off the front of an ascending queue leaves exactly the stamps not older than the cutoff |
| EventQueues.PurgedFilters | monitor.cpp:103-121 | a complete pass over ascending queues keeps exactly the keys with a fresh stamp, and of their queues exactly the fresh stamps, still ascending |
| EventQueues.PassIsCompleteIff | monitor.cpp:103-121 | a pass equals the complete pass if and only if it steps over no key, or over one whose queue is not empty and has a fresh front |
| EventQueues.PassCanLeaveStaleStamps | monitor.cpp:112-118 | a pass over three stale queues leaves the third |
| EventQueues.KeepsOnPush | monitor.cpp:92-100 | pushing under the hard limit keeps: the queue is a suffix of everything pushed since the reset, of at most count + 11 stamps, and lacks only stale stamps unless it is full |
| EventQueues.KeepsOnPurge | monitor.cpp:103-121 | so does a purge with a later cutoff |
| EventQueues.KeepsOnPass | monitor.cpp:103-121 | so does a whole pass, which also leaves nothing stale, except under the key it steps over, whose queue is untouched |
| EventQueues.KeepsDecides | monitor.cpp:92-100 | for every window that starts at or after the last purge cutoff, the capped queue has more (fewer) than count stamps in it exactly when the uncapped history since the reset has |
| RateEngine.LogItem.Match | monitor.cpp:247-269 | a match is counted once under its key in the up-bound queues and once, with or without usecrc and with a second reading of the clock, under 0 in the down-bound queue; no match changes nothing |
| RateEngine.LogItem.UpBoundFreqExcess | monitor.cpp:271-275 | the answer is whether the count under the key exceeds the limit; the key must be present |
| RateEngine.LogItem.DownBoundFreqExcess | monitor.cpp:277-280 | the answer is whether fewer stamps than the limit are held |
| RateEngine.LogItem.RemoveDeprecatedEvents | monitor.hpp:97-102 | both sides are purged with one reading of the clock, for any period |
| RateEngine.LogItem.ResetDownBoundFreqMessuring | monitor.hpp:104-107 | only the down-bound queue is emptied |
| RateEngine.LogItem.ResetUpBoundFreqMessuring | monitor.hpp:109-112 | all up-bound queues are emptied, as the only caller asks |
| RateEngine.StepKeepsInv | action_queue.cpp:72-98 | every step of the reader, the checker and the clock, in any order the item locks allow, keeps the invariant of items, alarm budget, look-up, pass, `start_time` and alarm spacing, and the checker goes from each item to the next one only |
| RateEngine.StartTimeIsLatestAlarm | action_queue.cpp:75-91 | in every reachable state `start_time` is the pass time of the latest down-bound alarm of any item, or the start of the checker, and uptime counts from what it was before the running pass |
| RateEngine.QueuesAreSuffixes | monitor.cpp:92-100 | in every reachable state each queue is a suffix of the matches of its key since the last reset, of at most count + 11 stamps, and lacks only stale ones unless full; on the up-bound side the last purge that looked at the key has left nothing stale |
| RateEngine.DownBoundDecision | action_queue.cpp:82-93 | in every reachable state the checker alarms exactly when the bound is enabled, more than a period has passed since the checker started and since every alarm of an earlier pass, and fewer than count of all matches since the item's last reset lie in the period before the purge |
| RateEngine.DownBoundSound | action_queue.cpp:72-94 | an alarm means that fewer than count matches of the whole unpruned history lie in the period before the purge, shortened by the delay between `tnow` and the item's last reset |
| RateEngine.DownBoundExact | action_queue.cpp:82-93 | if the item's queue was last emptied before the window: an alarm if and only if enabled, more than a period since the start and since every earlier alarm of any item, and fewer than count of all matches in the period |
| RateEngine.DownBoundExactWithoutSlip | action_queue.cpp:82-93 | the same if the clock stood still between reading `tnow` and the item's last reset |
| RateEngine.SlipLosesAMatch | action_queue.cpp:82-91 | a run in which a match during a delay of one second is lost, and an alarm is raised although the match lies in the period |
| RateEngine.ExactUpToIff | action_queue.cpp:82-91 | all decisions about items whose last reset was delayed by at most d seconds are exact if and only if d is 0 |
| RateEngine.DownBoundSpacing | action_queue.cpp:82-91 | the pass times (`tnow`) of any two down-bound alarms of one item are more than its period apart |
| RateEngine.RaisedSpacing | action_queue.cpp:82-91 | the moments at which they are raised are more than the period apart, less the delay between `tnow` and the earlier one |
| RateEngine.RaisesTooClose | action_queue.cpp:82-91 | a run in which an alarm raised a second late is followed by the next one exactly one period later |
| RateEngine.RaisesSpacedIff | action_queue.cpp:82-91 | alarms raised at most d seconds after `tnow` are always followed by the next one of the item after more than a period if and only if d is 0 |
| RateEngine.LookupSafe | monitor.cpp:132-136 | if the clock moved at most a period since the match, the test finds the key it was counted under, whatever purges ran in between |
| RateEngine.LookupFailsIff | monitor.cpp:132-136 | the test reads through the end iterator if and only if the key is not 0 and some purge that did not step over it came more than a period after the match |
| RateEngine.LookupCanFail | monitor.cpp:132-136 | for every item with usecrc and every CRC but 0 there is a run in which that happens |
| RateEngine.UpBoundExact | main.cpp:271-280 | in every reachable state, unless the look-up fails: an alarm if and only if more than count matches since the last alarm (of the key, or of all keys when it is 0) are not older than the cutoff of the last purge that looked at their key |
| RateEngine.UpBoundSandwich | main.cpp:271-280 | so more than count of these matches in the period raise an alarm, and an alarm means more than count in the period plus the age of any purge that looked at all of them |
| RateEngine.PlainPurgesAreComplete | monitor.cpp:103-121 | without usecrc no purge of a run ever steps over a key |
| RateEngine.AlarmBudget | main.cpp:271-280 | in every run the up-bound alarms of an item times (count + 1) never exceed its matches, with and without usecrc |
| RateHistory.RunHistory | main.cpp:257-285 | after every run the state is what its steps say: for every item its matches with key and time, its counts for the down-bound, the times of its purges, its last emptyings and its alarms; the pass time; the alarms of the checker with item, pass and moment; and where both threads stand |
| RateHistory.EveryMatchIsCounted | monitor.cpp:258-263 | in every reachable state an item has as many down-bound counts as matches, with or without usecrc, less one while its latest match is between its two counts; each count comes at or after its match and not after the next one |
| RateHistory.ActionsAreAlarms | action_queue.cpp:85-90 | in every reachable state the queued down-bound actions are those of the recorded alarms, in order, and each item has as many up-bound actions as up-bound alarms |
| RateHistory.StepsAsEnabled | monitor.cpp:247-248 | in every reachable state a step can be taken if and only if its thread has come to it and, for the checker, no match holds the lock of its item |
| RateHistory.PassVisitsEveryItem | action_queue.cpp:77-94 | between the start of a pass and the next return to sleep every item is purged once and then tested once, in the order of the items, for any number of items and whatever the reader does meanwhile |
| RateHistory.DueAlarmsAreRaised | action_queue.cpp:85-91 | over every run the alarms raised are exactly those due at the tests (enabled, quiet for the period, fewer counts since the last reset than the limit in the period before the purge), in their order, each with one action |
| RateHistory.PassAlarmsEveryDueItem | action_queue.cpp:82-93 | in every pass every item has its test, and if it is due there, its alarm is recorded and its action queued by the end of the pass |
| RateHistory.PassCanEnd | action_queue.cpp:77-94 | from every reachable state the running pass can be brought to its end in at most 3 n + 2 steps for n items, without a new match |
| RateHistory.EveryMatchIsTested | main.cpp:271-280 | whatever the checker does meanwhile, a match is followed by its second count, then by a test if and only if there are captures, then by the emptying of the queues if and only if the test found more live matches than the limit |
| RateHistory.ExcessesAreRaised | main.cpp:271-280 | over every run the up-bound actions added for an item are as many as the tests of it that found more live matches than the limit |
| Framer.LogFile.FetchNextLog | monitor.cpp:657-732 | one fetch: the item from the hold, or reading until an item is complete, the hold exceeds its limit and is discarded, or the data ends; a closed file changes nothing |
| Framer.LogFile.Drain | main.cpp:257-285 | the drain hands out the items of the next stretch of the watch, in order, and stops at the first fetch without one |
| Framer.FetchKeeps | monitor.cpp:657-732 | a fetch accounts for every byte: hold plus unread data is item and separator, or discarded text, followed by the new hold and unread data; the hold stays within 4096 bytes and something shrinks |
| Framer.ItemIsLineIff | monitor.cpp:669-676 | the string handed out equals the line in it if and only if the hold contained no separator |
| Framer.ZeroEndsItem | monitor.cpp:720-726 | a read that begins with a zero byte ends the item in the hold, and nothing is held behind it |
| Framer.FetchSeesCStrings | monitor.cpp:713-729 | of other reads nothing behind the first zero byte is ever seen |
| Framer.WatchConserves | monitor.cpp:657-732 | over any run and for any nonempty separator the bytes read are the items each followed by the separator, the discarded texts and the final hold, in order |
| Framer.ItemsOfOneRead | monitor.cpp:671-674 | of several lines in one read, the first is handed out as it is; every other one with the overwritten separator and all lines behind it |
| Framer.LastLineInEveryItem | monitor.cpp:671-674 | so the last line of a read is part of every string handed out but the first |
| Framer.WatchExact | monitor.cpp:657-732 | for lines of at most 4096 bytes and reads that do not end inside a separator, the items are exactly the lines of the stream, once each and in order, and the rest is held |
| Framer.ChunkIndependenceIff | monitor.cpp:683-688 | for a one-byte separator, every way of cutting a stream into reads of at most 1023 bytes gives exactly its lines if and only if no line and no unterminated rest is longer than 4096 bytes |
| Framer.OneByteIff | monitor.cpp:713-729 | streams with lines within the limit are split into their lines however they are cut into reads if and only if the separator has one byte |
| Framer.CutSeparatorIsLost | monitor.cpp:713-729 | when more data follows at once, one item holds the text on both sides of a cut separator and the separator |
| Framer.CutSeparatorIsFoundLater | monitor.cpp:669-676 | when the data runs out first, the next fetch finds it in the hold |
| Framer.EmptySeparatorStalls | monitor.cpp:669-676 | with an empty separator a held text is handed out again without end, which is why a drain needs a separator |
| Crc32.CrcTable.MakeCrcTable | utility.cpp:127-143 | afterwards every table entry is eight single-bit steps on its index |
| Crc32.CrcTable.UpdateCrc | utility.cpp:145-155 | the table-driven loop returns the bitwise CRC, which is the inverted remainder by the generator x^32 + x^26 + x^23 + x^22 + x^16 + x^12 + x^11 + x^10 + x^8 + x^7 + x^5 + x^4 + x^2 + x + 1, whatever the state of the table was |
| Crc32.TableEntry | utility.cpp:132-140 | the inner loop performs eight single-bit steps |
| Crc32.TableStep | utility.cpp:151-153 | a look-up by the low byte and a shift by eight equal eight single-bit steps on the whole register |
| Crc32.UpdateConcat | utility.cpp:145-155 | updating with a and then with b equals updating once with the joined text, for every seed |
| Crc32.UpdateIsRemainder | utility.cpp:127-155 | the CRC is the inverted remainder of the message, with the inverted seed added to its first 32 terms, by the generator x^32 + x^26 + x^23 + x^22 + x^16 + x^12 + x^11 + x^10 + x^8 + x^7 + x^5 + x^4 + x^2 + x + 1, which is given by its exponents and not by the constant of the program |
| Crc32.RegisterAsWord | utility.cpp:151-153 | table steps over bytes are bit steps on the register xor their little-endian word |
| Crc32.BurstDetected | utility.cpp:127-159 | two different texts of equal length that differ only inside four consecutive bytes have different CRCs |
| ActionQueue.StepKeepsInv | action_queue.cpp:16-45 | every step keeps mutual exclusion of both mutexes and the conservation of commands, and begins to wait only behind a look that found the queue empty |
| ActionQueue.FifoConservation | action_queue.cpp:16-45 | in every run of any number of threads the commands pushed, in critical-section order, are those returned, in order, followed by at most one in flight and the queue |
| ActionQueue.EmptyHandedOnlyWhenDrained | action_queue.cpp:35-42 | a pop gives up without a command only in its second critical section, at a moment when every command pushed has been returned |
| ActionQueue.LockOrder | core.cpp:374-417 | no thread requests the queue mutex while holding one, nor the condition's mutex while holding it; a sleeper holds none; the holder of the condition's mutex waits for nobody |
| ActionQueue.NoCircularWait | core.cpp:374-417 | no state of any run has a circular wait |
| ActionQueue.CallCanReturn | action_queue.cpp:16-45 | from every state of the invariant a thread inside push, or inside a pop that has found a command or has been woken, is brought to return by finitely many steps of running threads, without new calls or spurious wake-ups |
| ActionQueue.CommandIsAttended | action_queue.cpp:16-33 | in every run in which no consumer goes to sleep while the queue holds a command, a queued command finds some consumer awake or some push about to signal |
| ActionQueue.CarefulNeverStrands | action_queue.cpp:26-33 | such a run never ends with a command queued, every consumer asleep and no push under way |
| ActionQueue.WakeUpCanBeLost | action_queue.cpp:26-33 | in every system with a consumer and a producer, any commands can be left in the queue with every consumer asleep and no push under way |
| ActionQueue.WakeUpLostIff | action_queue.cpp:26-33 | some run in which consumers only pop and the others only push ends that way if and only if there are a consumer and a producer |
| ActionTrails.CallsFollowTheirTrail | action_queue.cpp:16-45 | in every run every call of push and pop goes through the places of its source in their order, and is back only at the end; whether a pop waits is decided by whether the queue was empty at its look, and its result is what stood in front when it took |
| ActionTrails.WaitsOnlyWhenEmpty | action_queue.cpp:22-33 | in every run a thread is inside the wait only in a pop whose look found the queue empty; a pop that found a command goes on to take the queue mutex and never waits |
| ActionTrails.RecordsAreOfCalls | action_queue.cpp:16-45 | the commands recorded as pushed are those of the calls of push, one each, and those recorded as returned are what the pops found in front |
| ActionTrails.StepsAsEnabled | core.cpp:374-417 | a thread can go on if and only if no other holds the mutex it asks for; a sleeper only wakes, and a signal wakes any sleeper, or nobody when there is none |
| Replacing.ReplaceString | utility.cpp:75-85 | the loop returns the result of repeated leftmost replacement, which contains no occurrence of the search text |
| Replacing.ReplaceEnds | utility.cpp:75-85 | it ends within as many steps as the subject is long, leaving no occurrence, when the replacement is shorter than the search text or lacks one of its characters |
| Replacing.ReplaceDiverges | utility.cpp:81-83 | it never ends once the search text occurs and the replacement contains it |
| Replacing.ReplaceCharEndsIff | utility.cpp:75-85 | for a search text of one character it ends if and only if the character is not in the subject or not in the replacement |
| Replacing.EndlessWithoutContaining | utility.cpp:81-83 | a replacement that does not contain the search text, with which it never ends |
| Replacing.EndsWithoutShrinking | utility.cpp:81-83 | a replacement that is neither shorter nor lacks a character, with which it ends |
| Rewriting.Run | monitor.cpp:308-365 | the loop of run returns the result of repeatedly replacing the leftmost argument and then unescaping dollars |
| Rewriting.ReplaceFills | monitor.cpp:341-352 | replacing the spelling of the argument whose turn it is by a text without dollar and backslash changes every argument, leading argument and escape whose name begins with that argument's, and nothing else |
| Rewriting.PreprocessMeans | monitor.cpp:308-365 | for every template and argument values without dollar and backslash the rewriting ends, and equals a one-pass substitution in which an argument is taken for the first one of the template found in its spelling, the rest of its name staying behind the value, after which every run of backslashes before a dollar is deleted; `@` stands for the line, the number in front of a name for the match of that index, a space for an unknown one |
| Rewriting.LeadingArgument | monitor.cpp:319 | an argument at the start of an action stays as it is if and only if no argument after it is found in its spelling; otherwise it is replaced as one anywhere else would be |
| Rewriting.EscapedDollar | monitor.cpp:331-364 | an escaped dollar, also one before a digit or @, gives a dollar if and only if no argument of the action is found in it and what follows it; otherwise its backslash stays and that argument is replaced |
| Manual.NumberedArgument | monitor.cpp:341-352 | an argument whose name is a decimal numeral of n, between any texts without dollar and backslash, becomes the match of index n, and a space when there is none |
| Manual.LineArgument | monitor.cpp:343-346 | `$@` there becomes the log line |
| Manual.ArgumentReplaced | monitor.cpp:332-352 | so does every other name of digits and `@`: the number at its start is the index |
| Manual.EscapesDocumentedIff | monitor.cpp:364 | an action without a match becomes itself less every run of backslashes before a dollar, which is what the manual promises if and only if no two backslashes stand in a row |
| Manual.DoubledBackslash | monitor.cpp:364 | two backslashes before an argument: the code drops both and substitutes nothing, the manual promises a backslash and the value |
| Manual.PreprocessDocumentedIff | monitor.cpp:308-365 | the rewriting of a template is what the manual promises, whatever the values, if and only if every argument, also one at the start, is the first one found in its own spelling, none is found in an escape, and no two backslashes stand in a row |
| Manual.ShortInOrder | monitor.cpp:319 | templates of one-character arguments without a leading one and without an escape before a digit or @ meet the condition on arguments |
| Rewriting.SelfReferenceDiverges | monitor.cpp:331-359 | an argument whose value contains the argument keeps the loop from ending |
| RepeatLog.Log.Write | debug.cpp:55-160 | a repetition in the same minute is only counted; otherwise a pending count is flushed as a line and the message printed; a debug message leaves the remembered CRC alone |
| RepeatLog.Lossless | debug.cpp:63-93 | while fewer than 2^31 - 1 messages were logged, the output with each "repeated N times" read as N - 1 further occurrences, and the pending count, give back the CRCs of all messages in order |
| RepeatLog.OthersArePrinted | debug.cpp:75-160 | every message that is not suppressed, each debug message among them, is printed as it is and in order |
| RepeatLog.SuppressedIff | debug.cpp:63-75 | after any log, a message is suppressed if and only if it is no debug message, has the CRC of the last message printed that is none, and lies in the same interval of 60 seconds, counted from 0, as the last message printed of any kind (in the first before there is one) |
| RepeatLog.MovedMinuteIff | debug.cpp:63-75 | a suppressed message was printed in another minute than its own if and only if a debug message of another minute was printed after it; one that repeats no message has CRC 0 |
| RepeatLog.PlainSuppressedIff | debug.cpp:65-75 | without debug messages and from second 60 on, a message is suppressed if and only if the last message printed has its CRC and lies in the same interval of 60 seconds |
| RepeatLog.DebugMovesTheMinute | debug.cpp:75 | with a debug message in between, a message is suppressed that was last printed in an earlier minute |
| FrequencyText.ExplodeString | utility.cpp:42-63 | the loop returns the fragments between separators found from left to right, without an empty one at the end |
| FrequencyText.ExplodeJoin | utility.cpp:42-63 | joining the fragments gives back the string, less one separator at its end when nothing follows that |
| FrequencyText.FragmentsSeparate | utility.cpp:51-61 | no fragment contains the separator |
| FrequencyText.UnsignedReads | monitor.cpp:73-74 | a number without a sign is what its leading digits denote by their places, behind any white space and whatever follows |
| FrequencyText.SignedReads | monitor.cpp:73-74 | the same with a sign |
| FrequencyText.ParseReads | monitor.cpp:66-76 | a text is parsed to the numbers in front of and behind its first slash, whatever stands behind a second one |
| FrequencyText.ParseRefuses | monitor.cpp:69-72 | a text without a slash, or with nothing behind its only one, is refused |
| FrequencyText.PrintParseIff | monitor.cpp:62-76 | parsing a printed frequency always succeeds and gives the sign-extended lower halves of both numbers, which are the 64-bit numbers themselves if and only if each is a sign-extended 32-bit value |

## Left out

- RateEngine.UpBoundExact: says nothing when the look-up fails, because reading through the end iterator is undefined; LookupFailsIff says when that is.
- Periods of 2^63 seconds or more, which the program turns into negative ones: the methods follow the code on them, the theorems about runs have periods below 2^63.
- Rewriting.PreprocessMeans: its templates have no argument right after an escape, a bare dollar or a leading argument, and none right after another argument that is filled in later, because there a value can join its neighbours to form a new argument.
- Replacing.ReplaceEnds: is not an exact condition; neither is that of ReplaceDiverges.
- Replacing.ReplaceString: is called with a number of steps that suffices, because the loop need not end; ReplaceEnds gives such numbers.
- Framer.WatchExact: says nothing of reads that end inside a separator, because such a separator is not found in the same fetch; conservation holds for every separator.
- NUL bytes in the stream: FetchSeesCStrings and ZeroEndsItem say what a fetch makes of them, the theorems about whole streams are about streams without.
- Limits within 10 of 2^64 (a configured count of -1 to -10), for which the hard limit wraps around: the queue theorems require count + 10 below 2^64.
- `atoi` on numbers outside `int`, which C leaves undefined.
- The regular-expression engine (its results are inputs), except for the fixed pattern of action templates.
- A match that returns no captures with usecrc, for which the program reads an empty vector.
- Items whose action is empty, empty lines, `sizeExcess` and the size actions, which enqueue without counting.
- ActionQueue.CommandIsAttended: does not say that an awake consumer is ever scheduled, because scheduling is left to the system.
- `LNMutex::disable` for signal handlers, the debug-build lock timeout, `timedWait` and `broadcast`.
- File open, reopen, truncation, rotation and notification, whose outcomes the kernel decides; read errors end the data.
- Reloading the configuration while threads run; which option `usecrc` is read from (configuration.cpp:186).
- Running actions, writing to standard output or syslog; exit after a fatal message.
