# SoHoT: the machinery its conclusions rest on

This project models, in Dafny 4.11, the parts of the local-model harness (`harness/`, `evals/`) that decide what a
measurement means, what is adopted and what is deleted, and proves properties of that model over every input, every
interleaving and every history. `dafny verify dfyconfig.toml` checks all of it.

Where the source changes things step by step the model does too: the stream assembler, the GGUF cursor, the tool-call
dictionary, the downloads table, the keepers, the weights directories, the adoptions store, the chained runners and
the paged reader are methods and classes with the source's fields, each proved equal to a specification function. The
laws are lemmas about those functions, so they hold of the methods. The pure parts are functions.

| file | models |
|---|---|
| Streaming, StreamingLaws, StreamingBody | `harness/completion.py`: a server-sent event stream folded into a message (the `data:` line subset of section 9.2.6 of the WHATWG HTML standard) |
| Gguf, GgufLaws, GgufTypes | `harness/context.py`: the header reader ("File Structure" in the GGUF specification) against a writer |
| KvPlan, KvPrice | `harness/context.py`: KV cost, the choice of context, the plan and the preset |
| MachineLock | `harness/exclusive.py`, `harness/delegate.py`: processes stepping over the machine-wide lock, each able to die at any step |
| SignTest, SignScale | `harness/paired.py`: the exact sign test, how it moves with each count and under scaling |
| AdoptGate, AdoptRho, AdoptRepeats, AdoptFlips, AdoptRounding, AdoptMetric | `harness/adopt.py`, `harness/paired.py`, `harness/power.py`, `harness/winners.py`: the statistical gate, repeated draws, turned losses, the rounding, and the pass rates the metric gate ranks by |
| AdoptStore, AdoptServe | `harness/adopt.py`: adoptions recorded and resolved per lane and machine |
| Ledger, LedgerLaws | `harness/downloads.py`: the downloads table and its drift against the disk |
| Disk, DiskLaws, SpecKeepers | `harness/disk.py`: keepers, inventory, deletion and stamping |
| AdoptedKeepers | `harness/disk.py` and `harness/adopt.py`: the deletion with the adoptions everywhere() names |
| Ladder | `evals/run.py`, `evals/core.py`: the budget ladder and its accounts |
| Receipts | `evals/core.py`, `evals/run.py`: which runs may be compared |
| SpecGrammar | `harness/engines.py`, `evals/run.py`: candidate specs and identity suffixes |
| Screen | `evals/run.py`: the cases a candidate is screened on |
| Bootstrap | `evals/compare.py`: the paired bootstrap |
| BenchmarkImport | `evals/benchmark_import.py`: paged, early-stopping case selection |
| Common, Text | options, sorting, and Python's string operations |

## What turned out otherwise

Where one of these is a property that fails, a lemma gives an input or a run that shows it, and the exact condition is
proved beside it where there is one.

- An adoption can rest on more lost than gained. The paired gate is two-sided, and the metric gate ranks by pass
  rate over all the cases each candidate sat, rounded to thousandths. Twenty cases against sixteen, six of them
  shared, is enough (`ReversedRowsAreAdopted`); over the same ids it takes thousands of them, which `SameIdsBounds`
  bounds. `NeverReversesExactly` says when it cannot happen.
- More evidence for the challenger can retract an adoption on more gained than lost: the design effect is estimated
  again from the turned rows, and nine gained to one lost over five cases drawn twice passes where ten to none does
  not. An adoption on more gained than lost survives every such change exactly when cases are drawn once
  (`FlipsAreSafeExactlyUnrepeated`); at one fixed design effect it always does. The metric gate never retracts so.
- The rounding in `paired_p` is conservative for gains only. Shrinking never makes a count more significant exactly
  when no more was lost than gained or nothing was gained (`ShrinkingIsConservativeExactly`); against the other
  roundings of the same quotients `RoundingIsConservativeExactly` says when.
- `everywhere()`, which deletion reads as every machine's adoptions, reads only machines some adoption was made on.
  Weights another machine serves by an all-machines adoption can be deleted (`SparesServedExactly`).
- The reference and schema guards read the spec untrimmed while the row keeps it trimmed. Histories are free of
  forbidden adoptions exactly when no receipt key or proposal name is one that trimming turns into a reference model
  or an unenforced engine (`HistoriesAreAllowedExactly`).
- With a floor below 1024, a model trained for less than 1024 tokens is served at its trained length, which is no
  multiple of 1024; `WholeStepsExactly` says when.
- A truncated GGUF string is returned short. A string declared longer than 2^63-1 makes `read` raise what `plan` does
  not catch, so one such file keeps every row's choice from being committed (`PlanStopsExactly`); a seek too far is
  caught and only that row is refused.
- A streamed tool-call fragment without an index takes the number of calls so far, so it can merge into a call that
  has that index (`UnindexedStayApartExactly`).
- A probe by `busy` makes a concurrent `try_held` say no, and a child that outlives its parent runs beside the next
  owner of the lock.
- Deleting a GGUF file also unlinks the links to it in its directory, kept or not. A live row of a path inside a
  removed hub directory becomes drift (`DriftIsLeft`); the harness's callers of `start` and `record` write no such row,
  so that one is hypothetical. Both conditions are exact.
- `compare_runs` checks every file against the first, which is enough only if the first records everything the others
  might differ on; a run on its own is never checked, so a spoiled one is accepted.
- In exact arithmetic the default bootstrap interval leaves 75 differences below it and 74 above, so naming the other
  candidate the baseline does not mirror it on all data (`SwappingMirrorsExactly`).
- The self-invoking importer looks at the count only after taking an item, so asked for none it takes one.

## Model

| member | source | states |
|---|---|---|
| Streaming.ToolCalls.Merge | harness/completion.py:439-453 | Folding one tool-call fragment in place: at the named index, else at the number of calls so far, taken or not; no other entry changes; a later id replaces, a name and a string argument append, any other argument value replaces. |
| Streaming.FoldChoice | harness/completion.py:412-427 | One choice's delta folds words, reasoning, tool fragments, token log and finish reason into the accumulator in the order the loop does. |
| Streaming.Assemble | harness/completion.py:389-436 | The loop over timed lines is the fold `Run`: it ends at `[DONE]` or at the end of the lines, and raises on a late line, an unparsable chunk or a server error. |
| StreamingLaws.AssembledExactlyWhenClean | harness/completion.py:395-436 | A body comes back if and only if every line up to the end mark is in time, parses and carries no error. |
| StreamingLaws.StreamedEqualsWhole | harness/completion.py:389-436 | For every reply and every stream of nonempty fragments that emits it, in any cut and any interleaving that keeps each stream's own order, the assembled message is the one a whole reply has, tool calls in index order. |
| StreamingLaws.InterleavingIsFree | harness/completion.py:439-453 | Swapping two neighbouring fragments of different streams leaves a stream of the same reply, so the family above is closed under interleaving. |
| StreamingLaws.CuttingIsFree | harness/completion.py:412-453 | Cutting any fragment in two, words, reasoning, or a tool call's id, name and arguments over two parts, leaves a stream of the same reply. |
| StreamingLaws.EveryReplyHasAStream | harness/completion.py:389-436 | Every reply has a clean stream that emits it, so the equality with the whole reply speaks of every reply. |
| StreamingLaws.UnindexedStayApartExactly | harness/completion.py:439-453 | Any further fragments without an index make a call each if and only if every index so far is below the number of calls; otherwise some such run merges two. |
| StreamingLaws.NothingAfterDoneIsRead | harness/completion.py:403-404 | Lines after the end mark never matter. |
| StreamingLaws.NoiseChangesNothing | harness/completion.py:400-401 | A line that is not a `data:` line may be put anywhere, if it is in time, without changing the outcome. |
| StreamingLaws.FirstTokenTimes | harness/completion.py:412-436 | Each first-token time is the time of the first line with a fragment of its kind, and is missing if and only if there is none. |
| StreamingLaws.StreamedReadsAsWhole | harness/completion.py:273-326 | What `complete_full` and `chat` read from the assembled message is what they read from a whole reply that says the same. |
| StreamingBody.LineIs | harness/completion.py:400-405 | A data line is its payload with the white space about it taken off: the end mark, a chunk, or text that does not parse; any other line is nothing. |
| StreamingBody.BodyIs | harness/completion.py:409-436 | Of every clean stream: usage, timings and model are those of the last chunk before the end mark that has one, and empty if and only if none has; the finish reason is the last choice's that gives one; the tokens are all choices' in order. |
| StreamingBody.FirstOffenceDecides | harness/completion.py:395-408 | A stream is unclean if and only if some line is the first that is late, does not parse or carries an error, and the outcome is that line's: a timeout, a parse error, or the server's own words. |
| Gguf.ReadValue | harness/context.py:28-43 | Terminates on every byte string, with lexicographic measures; a value that is read has consumed at least one byte and began inside the file. |
| Gguf.ReadMany | harness/context.py:38-42 | A list that is read has exactly the declared count, which is at most the bytes that were left. |
| Gguf.Reader.Value | harness/context.py:28-43 | The cursor-moving reader of one value returns and leaves the cursor where the value function says. |
| Gguf.Reader.Array | harness/context.py:33-42 | The array branch, its seek past a long scalar array included, does the same. |
| Gguf.Reader.Elements | harness/context.py:38-42 | The loop over an array's elements does the same. |
| Gguf.Reader.Meta | harness/context.py:163-177 | The header reader: magic, version below 2, counts, then pairs, with every error case of the function. |
| Gguf.Reader.Pairs | harness/context.py:173-177 | The loop over key-value pairs fills the map the function computes, a later key replacing an earlier one. |
| GgufLaws.ValueRoundTrip | harness/context.py:28-43 | Reading the encoding of any well formed value, at any place in any file, returns it with arrays over 4096 elements dropped and the cursor right after it. |
| GgufLaws.ArrayRoundTrip | harness/context.py:33-42 | The same for arrays, nested to any depth, by the kept, the read-and-dropped and the skipped path. |
| GgufLaws.HeaderRoundTrip | harness/context.py:163-177 | A header followed by arbitrary bytes reads as exactly its metadata, cursor right after it. |
| GgufLaws.KeptMetaIsTheMap | harness/context.py:173-177 | With distinct keys the result has exactly the written keys, each with its own kept value. |
| GgufLaws.StringIsWholeExactlyWhenPresent | harness/context.py:23-25 | A string is never refused for being cut short; it is whole if and only if its bytes are in the file. |
| GgufLaws.TruncatedStringIsAccepted | harness/context.py:23-25 | A ten-byte string with one byte present reads as that byte, so truncation is not always refused. |
| GgufLaws.StartsArePaidFor | harness/context.py:28-43 | The values the reader starts on, nested ones included, are at most the bytes consumed, or the bytes left plus one when it fails, whatever counts the file declares. |
| GgufLaws.ManyStartsArePaidFor | harness/context.py:38-42 | The same for the elements of an array. |
| GgufLaws.OverdeclaredArrayIsRefused | harness/context.py:33-42 | A declared count above the bytes that remain is refused unless the array is skipped by a seek. |
| GgufLaws.OverflowIsDeclared | harness/context.py:23-43 | Only a file in which some eight bytes declare a string longer than a read takes can overflow the reader. |
| GgufLaws.NextKeyOverflowsExactly | harness/context.py:163-177 | After any written pairs, with more declared, eight bytes of a key's length at the end of the file overflow the reader if and only if they are over the limit, and are a truncation otherwise. |
| GgufLaws.LongKeyOverflows | harness/context.py:163-177 | Such a length over the limit overflows it whatever follows. |
| GgufTypes.TypesAre | harness/context.py:9-31 | Byte by byte: each of the eleven scalar type numbers has its own width, byte order and sign, a value cut short is refused, and any number but those and 8 and 9 is no type. |
| GgufTypes.ReadOnlyGguf | harness/context.py:163-172 | A file is read only if it starts with the four letters GGUF and a version of at least 2 and holds its two counts; which of the three it lacks decides the error. |
| KvPlan.FitsGalois | harness/context.py:146-148 | A number of 1024-token steps passes the nested floor divisions if and only if its KV for all slots is within the room. |
| KvPlan.ChooseIsLargest | harness/context.py:137-160 | With a trained context of at least 1024, the choice is the largest multiple of 1024 not above it whose KV for every slot fits, or 0 when that is under the floor. |
| KvPlan.WholeStepsExactly | harness/context.py:148-155 | The chosen context is no multiple of 1024 if and only if the model was trained for less than 1024 tokens, the floor allows that and one whole step would have fitted. |
| KvPlan.ChooseMonotone | harness/context.py:137-160 | More weights or slots never raise the choice; more budget or cap never lowers it. |
| KvPlan.Downloads.Plan | harness/context.py:225-260 | The loop reads each file through the header reader, writes each live row's choice in place, leaves rows of absent files alone, commits and returns the plans in row order; at the first file that raises what is not caught it stops with the rows before it written, nothing committed and no plan. |
| KvPlan.PlanStopsExactly | harness/context.py:242-260 | It stops so if and only if some row's bytes declare a string too long where the reader comes to it, or its metadata raises what is not caught; a seek too far does not stop it. |
| KvPlan.LongKeyStopsThePlan | harness/context.py:23-25 | Thirty-two bytes, a header of one pair whose key is to be 2^63 bytes long, stop it. |
| KvPlan.ChosenFits | harness/context.py:75-90 | Whatever the header says, a nonzero choice, the fixed-slot plan included, has planned KV within the room beside its own weights and under the cap. |
| KvPlan.PresetFits | harness/context.py:334-347 | Every section of the preset written from a plan belongs to a planned row, names the cache type that was priced and allocates KV within that room. |
| KvPlan.RoundingIsUnderAByte | harness/context.py:124-134 | The true cost of a served context is at least the planned one and less than one byte a token above it. |
| KvPrice.PriceIsTheSum | harness/context.py:109-134 | For any shape, the numbers priced a token are a key and a value length for every KV head of each layer, one layer at a time: layers that list no heads, predicted layers and all but each interval's last drop out, and a length not declared is the embedding over the most query heads. |
| KvPrice.PriceIsTheCount | harness/context.py:109-134 | For a shape of no negative counts, that price is the number of elements of the set of cached numbers: each of a layer, a head, key or value, and a place. |
| KvPrice.PricedExactly | harness/context.py:127 | There is no price if and only if the header lists query heads and lists none. |
| KvPrice.ServedCacheFits | harness/context.py:225-260 | Every stem in the preset has a row whose whole cache, counted as that set for every served token, takes less than a byte a token over its room. |
| KvPrice.OrdinaryShape | harness/context.py:124-155 | 32 layers of 8 KV heads of 128 cost 131072 bytes a token at f16, and a gibibyte of room serves 8192 tokens. |
| MachineLock.RunsKeepInv | harness/exclusive.py:100-195 | Every interleaving of held, try_held and probes, with a crash possible at every step, keeps the invariant of the lock, the holder file and the flag. |
| MachineLock.LockIsExclusive | harness/exclusive.py:100-189 | In every reachable state at most one live process is past its own take and not past its release, and the lock is free exactly when there is none. |
| MachineLock.NoStaleLock | harness/exclusive.py:127-165 | When nobody live holds the lock, a waiter can take it at once, whatever holder file a crash left. |
| MachineLock.RefusedExactlyWhenHeld | harness/exclusive.py:168-189 | try_held says no if and only if another live process holds the lock, a probe included. |
| MachineLock.FileNamesTheBody | harness/exclusive.py:155-163 | If its write succeeded, the holder file names a process throughout its body. |
| MachineLock.StaleNamesAreOfTheDead | harness/exclusive.py:71-77 | A name in the file that is not the owner's is of a process that died holding, or whose unlink failed. |
| MachineLock.FlagComesFromAHolder | harness/exclusive.py:135-163 | A process that carries the flag set it as a holder or inherited it down a chain of parents from one that was in its own body. |
| MachineLock.BorrowedBlocksWereInherited | harness/exclusive.py:135-137 | A process inside a block without the lock inherited the flag from a process that was once in its own body. |
| MachineLock.GatedBlocksHoldTheMachine | harness/exclusive.py:45-53 | In every reachable state a live process inside a block of an image, video, eval, ramp, external or chaos run, unless try_held told it no, holds the lock or carries the flag of one that did; in a block of its own it holds the lock. |
| MachineLock.OtherKindsNeverWait | harness/exclusive.py:135-137 | No process ever waits for any other kind, and one may be entered at any time whoever holds the lock. |
| MachineLock.GatedKindsAsk | harness/exclusive.py:135-144 | For one of those kinds a process without the flag can only start to wait, and one with it is let through. |
| MachineLock.OrphansRunBesideTheOwner | harness/exclusive.py:135-137 | A run in which a child that outlived its parent is in a block beside the next owner: exclusion is of processes that took the lock themselves. |
| MachineLock.ProbesCanRefuse | harness/delegate.py:74-85 | A run in which a probe makes try_held say no although no block holds the lock. |
| MachineLock.Announce | harness/exclusive.py:144-153 | The polling loop announces a holder each time its identity changes, never twice in a row, and has always announced the latest. |
| SignTest.TailPascal | harness/paired.py:56-65 | The lower tail of the binomial obeys Pascal's rule. |
| SignTest.TailComplement | harness/paired.py:56-65 | The lower and the upper tail make up all outcomes. |
| SignTest.GainingLowersP | harness/paired.py:56-65 | With at least as many gained as lost, one gain more never raises p. |
| SignTest.LosingRaisesP | harness/paired.py:56-65 | With more gained than lost, one loss more never lowers p. |
| SignTest.PMonotone | harness/paired.py:56-65 | The exact two-sided test is monotone in each count on the gaining side. |
| SignTest.PIsOneExactly | harness/paired.py:56-65 | p is exactly 1 if and only if the two counts differ by at most one. |
| AdoptGate.ShrinkingKeepsTheOrder | harness/adopt.py:207-212 | Dividing by any design effect of at least 1, gained rounded down and lost up, leaves lost at most one above gained when more was gained, and never lifts gained above lost otherwise. |
| AdoptGate.SignificanceKeepsTheDirection | harness/adopt.py:207-212 | A significant shrunk count leans the way of the raw count, by two or more. |
| AdoptGate.AdoptionRestsOnTheRawDirection | harness/adopt.py:228-248 | An adoption rests on more shrunk gains than losses if and only if the raw count does. |
| AdoptGate.ReversedCountIsAdopted | harness/adopt.py:228-248 | The paired gate is two-sided: once the metric gate says better, none gained against six lost is adopted; a step, since the metric gate has to say so. |
| AdoptGate.FlippingALossKeepsTheGate | harness/adopt.py:207-248 | At one fixed design effect, turning a lost cell into a gained one keeps a significant gain significant; a step for rows whose design effect does not move. |
| AdoptGate.FlipsNeverRetractExactly | harness/adopt.py:207-248 | At one fixed design effect, however many losses are turned into gains, a significant count stays significant if and only if more was gained than lost; a step likewise. |
| AdoptGate.FlippingCanRetractAReversedAdoption | harness/adopt.py:207-248 | None to six passes the paired gate and one to five does not. |
| AdoptGate.RoundingCanMakeALossSignificant | harness/adopt.py:210-225 | One gained against six lost at a design effect of 1.01 goes from p 0.125 to 0.03125. |
| AdoptFlips.FlippedCell | harness/paired.py:120-139 | Turning the challenger's lost draws in the rows moves exactly those cells from lost to gained. |
| AdoptFlips.UnrepeatedFlipsNeverRetractExactly | harness/adopt.py:196-248 | Over rows that draw each case once, an adoption stands however many lost rows are turned into gained ones if and only if more was gained than lost. |
| AdoptFlips.OddRho | harness/power.py:151-195 | Five cases of two or more draws, one draw of one case unlike the rest for both candidates, have an intraclass correlation of exactly 0. |
| AdoptFlips.OddWins | harness/adopt.py:196-248 | Such rows, the incumbent passing that draw alone and the challenger every other, are adopted on more gained than lost at every repeat of two or more. |
| AdoptFlips.TurnedIsRefused | harness/adopt.py:196-248 | Turning their one lost draw into a gained one makes every case constant, which the design effect shrinks to five against none, and the adoption is refused. |
| AdoptFlips.FlipsAreSafeExactlyUnrepeated | harness/adopt.py:196-248 | At r draws a case, an adoption on more gained than lost survives every turning of losses into gains, the design effect estimated again from the turned rows, if and only if r is 1. |
| AdoptRho.AnovaIs | harness/power.py:158-174 | What icc accumulates, by the rows: squares of each draw about its case's mean and of each case's mean about the candidate's, one for every row; draws, cases, and both degrees of freedom as what they count. |
| AdoptRho.PartsMakeTheWhole | harness/power.py:163-173 | The squares between and within cases add up to those about the candidate's own mean. |
| AdoptRho.RhoIsTheEstimate | harness/power.py:175-181 | The correlation is none if and only if a degree of freedom is missing or nothing varies, 0 if and only if cases differ no more than their draws, and above that the one number at which between * (1 - rho) == within * (1 + (k - 1) * rho), k being the draws of a case. |
| AdoptRho.DeffIs | harness/adopt.py:207-211 | The design effect is 1 and the correlation, 1 where there is none, for each draw of a case after its first. |
| AdoptRho.TwelveDrawsAreAdopted | harness/adopt.py:202-248 | Four cases drawn three times, 0, 0, 1 and 2 passed against all twelve: a correlation of 5/23, nine to none shrunk to six to none, p of 1/32, adopted once the metric gate says better. |
| SignScale.ScalingNeverLowersP | harness/paired.py:56-65 | With no more lost than gained, counts scaled down with no more gained for each loss never have a lower p. |
| AdoptRounding.ShrinkingIsConservativeExactly | harness/adopt.py:207-216 | The shrunk count is at every design effect no more significant than the raw one if and only if no more was lost than gained or nothing was gained. |
| AdoptRounding.RoundingIsConservativeExactly | harness/adopt.py:210-213 | No other rounding of the two quotients, at any design effect, is more significant than gained down and lost up if and only if no more was lost than gained, or one was lost to none. |
| AdoptRounding.AdoptedGainsAreSignificantUnshrunk | harness/adopt.py:228-248 | So an adoption on more gained than lost is significant on the raw count too. |
| AdoptMetric.NeverReversesExactly | harness/winners.py:60-91 | Where no case is repeated: every adoption over two sets of case ids rests on more gained than lost if and only if no number of shared passes lets the challenger, six behind on the shared ids and ahead on its own, tie or pass in rates rounded to thousandths, whichever way ties go. |
| AdoptMetric.ReversedRowsAreAdopted | harness/adopt.py:70-82 | Twenty and sixteen rows sharing six cases: 0.3 against 0.625 passed, none gained and six lost, adopted whatever comes after the rate. |
| AdoptMetric.RanksByPasses | harness/winners.py:60-91 | Over the same ids, fewer than a thousand, the metric gate asks for more passes, and what comes after the rate decides if and only if there are as many. |
| AdoptMetric.SameIdsNeverReverse | harness/adopt.py:228-248 | Over the same ids, however cases repeat, no adoption under 5000 ids rests on as many lost as gained or more. |
| AdoptMetric.SameIdsBounds | evals/core.py:1205-1208 | Over the same unrepeated ids that holds under 6000 of them and fails for some answers over more than 7000, because the rates are rounded. |
| AdoptMetric.ReversalsNeedRoom | harness/adopt.py:207-248 | For any rows: a reversed adoption needs room for five behind, or for six where nothing is shrunk. |
| AdoptMetric.TurningKeepsTheMetricGate | harness/winners.py:60-91 | Turning lost rows into gained ones never takes the metric gate's answer back. |
| AdoptMetric.RepeatsKeepTheVerdict | harness/adopt.py:124-248 | Equal draws keep the pass rates, so both gates and the verdict are those of a single draw, the metric gate's ties being answered alike. |
| AdoptRepeats.CellScales | harness/paired.py:120-139 | When every case is answered the same way on all draws, the head-to-head cell is the single draw's times the number of draws. |
| AdoptRepeats.EqualDrawsCorrelate | harness/power.py:151-195 | Equal draws give an intraclass correlation of 1, or none, for which 1 is taken. |
| AdoptRepeats.RepeatsShrinkToOneDraw | harness/adopt.py:196-216 | The shrunk counts of such rows are the counts of one draw. |
| AdoptRepeats.RepeatInvariance | harness/adopt.py:124-248 | The shrunk counts and p, and the verdict at one answer of the metric gate, are those of a single draw for every number of draws. |
| AdoptRepeats.TwoAgainstOneIsNeverAdopted | harness/adopt.py:228-248 | Two cases gained against one lost is refused at every repeat. |
| AdoptStore.Store.Resolved | harness/adopt.py:392-414 | The loop over rows in scope, oldest first, fills the two dictionaries the fold computes. |
| AdoptStore.ServedIsNewest | harness/adopt.py:392-425 | The served row of a lane is the newest in-scope, non-reference row that fits if made by hand, and there is one if and only if such a row exists. |
| AdoptStore.RefusedIsNewer | harness/adopt.py:392-430 | The refused row is the newest unfit by-hand row later than the served one, and there is one if and only if such a row exists. |
| AdoptStore.Store.Record | harness/adopt.py:259-346 | Recording appends at most one row, or raises, exactly as the cases of the source say. |
| AdoptStore.RecordKeepsAllowedExactly | harness/adopt.py:259-346 | From allowed rows, a call leaves a forbidden one if and only if it writes a row and its spec slips through: untrimmed, a known name, and once trimmed a reference model or unenforced in a schema lane. |
| AdoptStore.HistoriesAreAllowedExactly | harness/adopt.py:252-346 | Over a set of receipt keys and proposal names, no history writes an adoption of a reference model or of an unenforced engine in a schema lane if and only if no name is slippery: trimming changes it into one the guards would have stopped. |
| AdoptStore.HistoriesKeepIds | harness/adopt.py:317-330 | Every row of a history has its place as its id, so ids stay distinct. |
| AdoptStore.ASpacedReferenceSlips | harness/adopt.py:273-292 | A reference model's name with a space before it is such a name: the guard reads the spec as given and the row keeps it trimmed. |
| AdoptStore.OtherMachinesAreUnmoved | harness/adopt.py:392-414 | With fit fixed, recording on one machine without all-machines changes no lane of any other. |
| AdoptServe.WritesExactly | harness/adopt.py:252-330 | A call writes its one row if and only if the verdict adopts and is not held, is of a known kind, names no reference model, is of an engine that keeps the lane's schema, has a runnable spec that is found again, fits if by hand, and has no row yet. |
| AdoptServe.AdoptedIsServed | harness/adopt.py:259-417 | From then on every machine the row reaches, all of them if the verdict says so, serves that very row for its lane if it can; every other lane, and every lane elsewhere, is served as before. |
| AdoptServe.AdoptedHereIsServedHere | harness/adopt.py:292-297 | The machine that adopts serves what it adopted if and only if the trimmed spec is no reference model. |
| AdoptStore.Store.GatherEverywhere | harness/adopt.py:545-553 | The two loops gather, per lane, the specs the machines in the table serve. |
| AdoptStore.EverywhereCoversExactly | harness/adopt.py:545-553 | For the machines adoptions are recorded on, everywhere() names what a machine serves, whatever the rows and whatever fits, if and only if the machine is one of them or nothing is recorded. |
| Ledger.Table.Start | harness/downloads.py:184-200 | Reuses the newest live row of the kind and path in place, else appends one in flight. |
| Ledger.Table.Record | harness/downloads.py:221-235 | Starting, naming and finishing a row leave the table the function computes. |
| Ledger.Table.Remove | harness/downloads.py:238-261 | Stamps every live row of the path, or appends a removed one if there is none. |
| Ledger.Table.RecordUnrecorded | harness/downloads.py:347-368 | The two loops leave the settled table and count what was stamped and recorded. |
| LedgerLaws.LatestIsNewest | harness/downloads.py:184-200 | The row start() reuses is the newest live one of its kind and path, and it appends if and only if there is none. |
| LedgerLaws.RemovedIs | harness/downloads.py:238-261 | After a removal the live rows are the old ones at every other path, in place, and rows removed earlier are untouched. |
| LedgerLaws.NoDriftMeans | harness/downloads.py:324-333 | Drift is empty on both sides if and only if every live row but a partial's has its path and every scanned path has a live row. |
| LedgerLaws.ScanIs | harness/downloads.py:309-321 | A scan lists exactly the real directories of the hub called models-- and a repo, and the names that end in .gguf in any letter case. |
| LedgerLaws.RecordingClearsDrift | harness/downloads.py:324-368 | After record_unrecorded drift is empty on both sides and removed rows are as they were. |
| LedgerLaws.RecordingAgainWritesNothing | harness/downloads.py:347-368 | A second call leaves the table as it is. |
| LedgerLaws.StartIsInFlight | harness/downloads.py:184-200 | From start to finish the row is live, in flight and not complete; a reused row keeps its repo, origin and proposal. |
| LedgerLaws.FinishMeasures | harness/downloads.py:203-218 | finish measures the row's path and marks it complete if and only if what is there loads and nothing failed, and touches no other row. |
| LedgerLaws.RecordMeasures | harness/downloads.py:221-238 | record leaves the newest live row of the path and kind, or a new one if there is none, measured, with its source and the repo it had or else the one given, and every other row as it was. |
| LedgerLaws.RecordingMeasures | harness/downloads.py:347-375 | After record_unrecorded every scanned path that had no live row has one measured there, complete if and only if it loads. |
| Disk.Keepers.Add | harness/disk.py:226-239 | Adding a spec keeps exactly its repos and stems, its lane if it names none, and counts a problem if it has no lane either. |
| Disk.Keepers.Collect | harness/disk.py:218-257 | The keepers are exactly those of every alias, typed default, adoption and tooling repo; problems are empty if and only if nothing is unknown. |
| Disk.ScanEntries | harness/disk.py:280-341 | The scan's loops, which attach each link to its owner in place, give one entry per scanned path with its links and proposals. |
| DiskLaws.EntriesAreScanned | harness/disk.py:301-341 | A hub entry's links are exactly the GGUF links that lead into it, and no owned link is an entry. |
| DiskLaws.RowForIsNewest | harness/disk.py:280-287 | An entry is named by the newest live row of its path; there is none if and only if no live row has the path. |
| DiskLaws.EntriesTell | harness/disk.py:290-341 | An entry takes its repo from its path's row, is unrecorded if and only if there is none, and carries exactly the proposals of that row and of its links' rows. |
| DiskLaws.InventoryPathsDiffer | harness/disk.py:398-414 | No two entries of an inventory have one path. |
| DiskLaws.NamedWeightsAreKept | harness/disk.py:197-239 | A use that names weights keeps every entry they match, repos whatever their case. |
| DiskLaws.UnnamedWinnerKeepsItsLane | harness/disk.py:356-368 | A winner that names none keeps every entry of its lane and of unknown lane. |
| DiskLaws.UnnamedAliasStopsDeletion | harness/disk.py:232-239 | An alias that names none leaves the keepers unknown. |
| DiskLaws.ToolingIsProtected | harness/disk.py:255-257 | A tooling repo's entry is kept. |
| DiskLaws.KeptExactly | harness/disk.py:356-380 | The keepers keep an entry if and only if some use's weights match it, a winner that names none has its lane or its lane is not known, or it is tooling. |
| DiskLaws.JudgedByTheNewest | harness/disk.py:371-377 | An entry is judged by the verdict of the greatest id among its proposals', if any has one. |
| DiskLaws.GroupExactly | harness/disk.py:372-395 | An entry is reported as kept, queued or rejected if and only if the keepers keep it or its newest verdict, if its path has a row, is of that kind, and with that verdict's time and id. |
| DiskLaws.DeletableExactly | harness/disk.py:371-442 | A deletion of rejections, or of unknowns, may take an entry if and only if it is recorded, not kept, and its newest verdict is what that deletion asks for, a rejection a day old or more; any other deletion takes nothing. |
| Disk.WeightsDisk.Remove | harness/disk.py:458-482 | One removal unlinks and removes in place what the function says, and fails where the source raises. |
| Disk.WeightsDisk.Delete | harness/disk.py:490-507 | Unknown keepers leave the disk and the table alone; otherwise what is planned is removed in order and what was removed is stamped. |
| Disk.WeightsDisk.Stamp | harness/disk.py:445-455 | The two loops stamp each removed path and then its links. |
| DiskLaws.RefusedIsSpared | harness/disk.py:427-507 | Whatever safe_to_delete refuses is still there after a deletion, with the links attached to it, unless it is itself a link to a planned file. |
| DiskLaws.RefusedSurvivesExactly | harness/disk.py:476-482 | Where links are not chained, a refused entry survives if and only if it is no link to a planned file of its directory. |
| DiskLaws.KeptEntriesSurvive | harness/disk.py:197-507 | End to end, for whatever adoptions the keepers are given: an entry any alias, default, given adoption or tooling repo matches, or whose lane a winner keeps, or that no row records, or rejected under a day ago, survives every deletion with its links, unless it is itself a link to a planned file. |
| SpecKeepers.LlamaSpecKeepsItsFile | harness/disk.py:202-204 | Through any deletion: a use of llamacpp: and a name, with any revision, options, letter case and with or without .gguf, keeps the GGUF file of that name and whatever it is linked from. |
| SpecKeepers.EngineSpecKeepsItsRepos | harness/disk.py:205-208 | One that names an engine of the table keeps the repos listed for the whole name, or else for what stands before its first colon or slash. |
| SpecKeepers.PresetSpecKeepsItsRepo | harness/disk.py:210-211 | mflux: and a preset keeps the repo that preset loads. |
| SpecKeepers.RepoSpecKeepsItself | harness/disk.py:212-214 | A spec with a slash and neither a colon nor a comma keeps the repo of that id. |
| SpecKeepers.AliasKeepsItsWeights | harness/disk.py:199-201 | An alias keeps the repos and the files the gateway gives it. |
| SpecKeepers.StoredSpecKeepsItsWeights | harness/disk.py:209 | Any other spec keeps the repos and the files of its stored candidate row. |
| SpecKeepers.UnnamedWinnerKeepsTheLane | harness/disk.py:232-241 | A default or adoption in which nothing names weights keeps every entry one of whose proposals is of its lane, text being code, or of no known lane or of all, and every entry without a proposal. |
| SpecKeepers.EmptyAliasStopsDeletion | harness/disk.py:232-241 | An alias the gateway gives no weights, of an engine that loads some, makes the inventory a problem, so nothing is deleted. |
| SpecKeepers.UnreadGatewayStopsDeletion | harness/disk.py:219-223 | So does a gateway config that was not read whole, and a gateway without aliases. |
| DiskLaws.StampAllIs | harness/disk.py:445-455 | After a deletion the live rows are the old ones at every path that was not stamped. |
| DiskLaws.UnrecordedLinkIsStamped | harness/downloads.py:241-263 | A removed link that had no live row gets a removed one: a GGUF file of the deleted entry's repo, found by the scan. |
| DiskLaws.DeletionStampsWhatItTakes | harness/disk.py:458-507 | A deletion stamps every path it takes but those inside a hub directory, and takes every path it stamps. |
| DiskLaws.DeletionDriftsExactly | harness/disk.py:445-507 | From an empty drift, a deletion leaves drift if and only if some live row that is not a partial's names a path inside a removed hub directory. |
| AdoptedKeepers.DeleteServed | harness/disk.py:490-507 | What a deletion leaves on disk, nothing removed when the keepers are unknown, is the tree the next three rows speak of. |
| AdoptedKeepers.CoveredWeightsSurvive | harness/disk.py:218-257 | With the keepers read from everywhere(), weights a machine serves by adoption survive every deletion when everywhere() names them, unless they are a link to a planned file. |
| AdoptedKeepers.ServedWeightsAreDeleted | harness/disk.py:249-254 | With a small and then a large model adopted for all machines on each of some machines, and another machine the large one does not fit on, a deletion on any machine, that one included, takes the small model's weights, which that machine serves. |
| AdoptedKeepers.SparesServedExactly | harness/disk.py:249-257 | On any machine, its own included, no deletion takes weights a machine serves, but for such a link, if and only if adoptions are recorded on the machine or on none. |
| AdoptedKeepers.DriftIsLeft | harness/disk.py:445-507 | A table that agrees with the disk and holds a live row inside a hub directory no longer agrees once the directory is deleted. |
| Ladder.RunLaddersClimb | evals/run.py:360-373 | Any ladder a run accepts is two or more strictly increasing budgets of at least 1. |
| Ladder.AskedLadderIsTakenExactly | evals/run.py:360-373 | A list is taken as the ladder if and only if its parts spell two or more budgets that rise from at least one, and is refused as no list of counts if and only if some part spells none; a lane without a ladder has none. |
| Ladder.CapIsTheRoomLeft | harness/delegate.py:97-102 | A budget is within the cap if and only if it leaves the prompt its tokens, at three characters a token. |
| Ladder.RungsEndAtTheRoom | evals/run.py:376-386 | With room for a token, the rungs are a strictly increasing ladder: a first stretch of the asked one and then the lower of its top and the room, each fitting the context. |
| Ladder.ALadderIsNeverEmptied | evals/run.py:376-386 | Whatever the context, the rungs increase and are empty if and only if the ladder is. |
| Ladder.NoRoomTriesTheFirst | evals/run.py:376-386 | With no room for a token only the first rung is tried; with no known context, all of them. |
| Ladder.Runner.SetBudget | evals/run.py:389-394 | Every runner of a wrapped chain is at the budget afterwards. |
| Ladder.Climb | evals/run.py:397-412 | The loop tries rungs with the whole chain at each budget until a reply passes or is not cut off; the row is the last reply, with every attempt and their total time. |
| Ladder.EveryClimbClimbs | evals/run.py:397-412 | Whatever the replies, the attempts are a first stretch of the rungs, each but the last cut off and unpassed, ending early only at one that stops the climb. |
| Ladder.EveryAttemptIsRecorded | evals/run.py:397-412 | Each attempt records its own rung's reply, with the whole budget for the cost of a reply cut off without a count, so every attempt before the last has a cost. |
| Ladder.ByRung | evals/core.py:1260-1269 | The nested loops credit each rung with its tries, passes and seconds, lowest rung first. |
| Ladder.TriesAreAccountedFor | evals/core.py:1260-1269 | Over rows that climbed one ladder, the tries at a rung are its passes, its other failures and the tries at the next rung; all rows try the first. |
| Ladder.PassesAreTheRowsPassed | evals/core.py:1260-1269 | Whatever ladder each row climbed, the passes over all rungs are the rows that passed. |
| Ladder.SecondsAreTheRowsTime | evals/core.py:1260-1269 | The seconds credited over all the rungs are the rows' total time. |
| Receipts.RefusalIsSymmetric | evals/core.py:819-932 | The verdict and the axis it names do not depend on which run is first. |
| Receipts.ComparableWithItself | evals/core.py:807-858 | A run is comparable with itself if and only if no router swap spoiled it. |
| Receipts.ComparableIs | evals/core.py:859-932 | Two runs are comparable if and only if neither is spoiled, they agree on every recorded axis, and clash on no optional axis or shared key. |
| Receipts.JudgesExactlyWhenItRecordsAll | evals/core.py:868-932 | Any two runs a run accepts are comparable with each other if and only if it is spoiled or records every optional axis and every device, launch and instrument key they may name. |
| Receipts.CompareRuns | evals/run.py:1285-1293 | The loop accepts if and only if every later run is comparable with the first, and otherwise names the first refused run and its axis. |
| Receipts.CheckingAgainstTheFirstIsEnough | evals/run.py:1285-1293 | If the first of the accepted runs records all, every two of them are comparable, each with itself included, if and only if there are two or more or the only one is not spoiled. |
| SpecGrammar.SplitCandidates | evals/run.py:1332-1347 | The loop over comma chunks keeps options with the candidate before them, as the function says. |
| SpecGrammar.SplitRecoversExactlyWellFormed | evals/run.py:1332-1347 | Splitting a comma-joined list gives the list back if and only if every spec is trimmed parts with options after the first, and none but the first begins with an option. |
| SpecGrammar.SplittingTwiceIsOnce | evals/run.py:1332-1347 | Any input is read as a well formed list, which reads as itself. |
| SpecGrammar.ParseOptions | harness/engines.py:115-125 | The loop fills the option map, a later key replacing an earlier one, and refuses the first chunk that is not key=value. |
| SpecGrammar.ParsedAreClean | harness/engines.py:115-125 | Parsed keys and values are trimmed and hold no comma, and no key an equals sign. |
| SpecGrammar.PrintingRoundTrips | harness/engines.py:92-125 | Options printed in any order parse back as the same options. |
| SpecGrammar.SuffixRoundTrips | harness/engines.py:70-97 | Parsing the suffix gives back the options less the environmental, the named and the empty ones; there is no suffix if and only if none is left. |
| SpecGrammar.SuffixIsIdentity | harness/engines.py:70-97 | Two parsed option lists get one suffix if and only if they agree on what is kept, however each was written. |
| SpecGrammar.SuffixTellsApartExactly | harness/engines.py:67-96 | Two option lists get different suffixes if and only if some option tells them apart that is not empty, not the root or the language model, and not said by the label already. |
| Screen.CasesForAre | evals/run.py:592-615 | The narrowing filters together test each case by itself. |
| Screen.FirstOfEach | evals/run.py:647-652 | Sorting and filling a dictionary by setdefault gives the first case of each lane. |
| Screen.FirstEachIs | evals/run.py:647-652 | With ids that name cases, the firsts are exactly the cases no other of their modality and language precedes, in order of id. |
| Screen.ScreenCases | evals/run.py:655-683 | The loops give each candidate's picks once each, shrunk. |
| Screen.ShrinkIs | evals/run.py:676-682 | Shrinking lowers the named whole numbers to their limits, touches nothing else and is idempotent. |
| Screen.ScreenedAsIfAlone | evals/run.py:647-683 | Among the screen's cases for any candidates, each is screened on the shrunken first case per lane of those it could take alone. |
| Screen.ScreenedOnSomething | evals/run.py:904-908 | So it is screened on something if and only if it can take some case. |
| Bootstrap.Paired | evals/compare.py:47-60 | The loop fills the nested dictionary; the shared cases are exactly those every candidate has a number for, in increasing order. |
| Bootstrap.TableIsTheLastRows | evals/compare.py:47-60 | A candidate has a number for a case if and only if some row gives one, and it is the last row's. |
| Bootstrap.CellsAre | evals/compare.py:32-60 | A number is the last row's: word errors over the words spoken, one if not told, for wer, and the metric itself over one for any other. |
| Bootstrap.RateIsPooled | evals/compare.py:63-75 | A rate is pooled numerators over pooled denominators, 0 over nothing, and the mean where every denominator is one. |
| Bootstrap.FindInterval | evals/compare.py:69-89 | The loop over any draws gives the difference and the interval at the two order statistics. |
| Bootstrap.IntervalIsOrdered | evals/compare.py:83-89 | For every sequence of draws the interval is ordered and its ends are differences that were drawn. |
| Bootstrap.DominatedIsNeverBetter | evals/compare.py:63-106 | A candidate with at least the baseline's errors on every shared case and equal denominators is never better on a lower-is-better metric, nor worse on a higher-is-better one. |
| Bootstrap.StrictlyDominatedIsWorse | evals/compare.py:63-106 | With more errors on every case and positive denominators it is always separable and worse. |
| Bootstrap.EndsMirrorExactly | evals/compare.py:84-86 | The two ends are equally far from the ends of the sorted differences if and only if the tail is not a positive whole number of resamples. |
| Bootstrap.SwappingTurnsTheIntervalRound | evals/compare.py:69-89 | Where they are, swapping candidate and baseline negates and turns the interval. |
| Bootstrap.SwappingMirrorsExactly | evals/compare.py:69-89 | At a number of resamples and a confidence, swapping turns the interval round for every table and all draws if and only if the two ends are equally far in; otherwise two cases are enough for it not to. |
| Bootstrap.TheDefaultIsLopsided | evals/compare.py:29-86 | At 3000 resamples and 95 % they are not: 75 differences lie below the interval and 74 above. |
| BenchmarkImport.Cursor.Next | evals/benchmark_import.py:162-173 | One step of the generator: the next row in order, or none at the end; a page is asked for only when the last is used up. |
| BenchmarkImport.EachRow | evals/benchmark_import.py:162-173 | Over a faithful API every row is yielded once, in order. |
| BenchmarkImport.SelectLabelled | evals/benchmark_import.py:187-198 | Bounded pools and early exit select exactly the cases of a full scan, for every count asked. |
| BenchmarkImport.PoolsAreEnough | evals/benchmark_import.py:188-198 | Full pools, or the whole dataset, make the cases the whole sides make. |
| BenchmarkImport.CaseIsHalfAndHalf | evals/benchmark_import.py:121-134 | A case is the next two positive and the next two negative pages, whatever the shuffle. |
| BenchmarkImport.NoConstantAnswerPasses | evals/benchmark_import.py:17-18 | A case has four pages, each with its published answer, and neither constant answer passes it. |
| BenchmarkImport.NoPageIsUsedTwice | evals/benchmark_import.py:195-198 | No item is in two cases. |
| BenchmarkImport.PagesOfACaseDiffer | evals/benchmark_import.py:195-198 | Nor twice in one. |
| BenchmarkImport.PageIs | evals/benchmark_import.py:109-114 | A row is a page if and only if its text, without outer white space, has one to 1500 characters; its answer is yes if and only if its label, likewise and in any case, is the one that stands for yes. |
| BenchmarkImport.CaseIsInDigestOrder | evals/benchmark_import.py:117-122 | A case shows its pages in the order of their digests. |
| BenchmarkImport.SelectedAreAllThatFit | evals/benchmark_import.py:187-200 | As many cases as asked for, or as the pages of the shorter side make. |
| BenchmarkImport.SelectSelfInvoking | evals/benchmark_import.py:178-186 | The loop picks the first items that convert, and at least one if any does. |
| BenchmarkImport.FirstNExactly | evals/benchmark_import.py:178-186 | That is the first n of the full scan if and only if n is at least 1 or nothing converts. |

## Left out

- HTTP, SQL, subprocesses, threads and file systems as such: servers, tables and trees are values or parameters; a stream is a list of lines with their times.
- JSON: a chunk is what a parser, given as a function, makes of a line; a non-string argument value is the text json.dumps gives it.
- Floating point: p-values, rates, tails and times are exact reals; printed rounding, 1e-9 slack and the rounding of seconds are not modelled.
- Messages: reasons, `why` texts, warnings and reports are dropped or reduced to the axis or case they name.
- UTF-8 decoding of GGUF strings, Python's recursion limit, memory (a declared string below 2^63 bytes is read short, not allocated) and a file system's own limit on positions.
- What Python's conversions make of metadata of the wrong type: a parameter that may give a shape, a caught error or one that is not caught.
- Unicode case: lower-casing is on ASCII letters.
- `coresident_bytes`, the budget and the cap of the KV planner are parameters.
- Locks within one process (threads), asynchronous exceptions between two steps of a process, and forks that share a lock descriptor.
- MachineLock.StaleNamesAreOfTheDead: rests on process ids never being used again, which the model takes for granted.
- MachineLock.FileNamesTheBody: assumes the holder write succeeded, as the source ignores its failure.
- MachineLock.BorrowedBlocksWereInherited: says the holder was once in its own body, not that it still is, because a child may outlive it.
- `decide_by_hand`, and the split branch of `decide` for runs on one side of the holdout: easy or not visible.
- AdoptMetric.ReversalsNeedRoom: for repeated cases it is one way; what they can be shrunk to depends on how the draws of each case fall, so `NeverReversesExactly` is of unrepeated ones.
- What the metric gate ranks by after the pass rate (metrics, then the median) is a parameter; the summaries ranked are taken to be those of the paired rows, as `_summary` makes them for a split.
- The power plan's answer, `fit`, schema enforcement, `_gguf_repo`, `_measure`, `loadable` and the candidate rows `_stored` reads are parameters.
- A machine known under several ids: `current` is asked for one id, and `fit` is the same throughout a claim.
- `downloads.finish` with a changed path, `backfill`, and rows of other kinds than a hub directory or a GGUF file.
- The clock: every stamp of one call carries one time.
- Entries are values, so an Entry shared between two lists is not modelled; the scan replaces its owner's entry in place in the list.
- Chains of links, links that lead through other directories, and partial failure inside a recursive removal.
- DiskLaws.KeptEntriesSurvive: does not cover a kept link of the GGUF directory to a planned file, which the source unlinks; `RefusedSurvivesExactly` says so exactly.
- DiskLaws.DeletionDriftsExactly: assumes links are not chained and lead to no directory named like a GGUF file.
- `clear_incomplete`, `clean` and `sweep`: partial downloads have no row that must agree.
- `int()` of a ladder's parts is a parameter; `compare_across`, merging of summaries and printing are left out.
- Nested dictionaries of a receipt (sampling, knobs) are flat maps of text, compared whole as the source does.
- `engines.resolve` beyond its grammar: the builder table is a dispatch.
- What selection reads of a candidate (kind, modality, method, lanes, language) is given; `screen_pool` and `expand_cases` are left out as easy filters.
- Random draws and digests: any draws and any digest are allowed; the seeded generator is not modelled.
- BenchmarkImport.Cursor.Next: assumes the API answers faithfully; an API that changes its total mid-way is not modelled.
- `convert_self_invoking`'s own checks are a parameter; writing and replacing case files is left out.
- `summarize` beyond `by_rung`, `delegate.admit` and `_gate`: counts and wiring that would add only easy members.
