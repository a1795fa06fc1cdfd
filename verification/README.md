# gotmux in Dafny

This project models how gotmux talks to tmux over its two transports, an argv subprocess and a
one-line-per-request control connection, and proves that the two stay consistent and that the control
protocol keeps its promises over every run. `dafny verify dfyconfig.toml` checks it.

Byte strings are sequences of 8-bit characters. Code that loops or updates fields is modelled as methods and
classes, each proved against a recursive specification; laws are lemmas about those specifications. Code that
runs concurrently is a state machine over its atomic steps.

| file | models |
|---|---|
| Words, Spelling, Listing | the command-text lexer and splitter; grammars of what words and sequences may be written as, and that the two accept exactly those |
| Argv | quoting, and writers stacked one per nesting level |
| Command, Sequence | plans as trees of any depth, their text and argv printers, both readers, and the agreement of the two routes |
| CommandLine, RootOptions | the root-argument printer and the parser that undoes it; what any command line means, flag by flag |
| Records, Expression | the length-prefixed record codec, in 64-bit arithmetic; embedding an expression in a record format |
| StreamReader | the PTY reader that strips CR in the caller's own buffer, an `array` it reads and writes at once |
| ControlCodec, Frames | the control-frame reader, and that it returns exactly what a well-formed stream says |
| Read | demultiplexing the answer to a multi-list read |
| Formats | the formats guard conditions are made of, and an evaluator that says what they mean |
| Diagnostics | what a tmux diagnostic says went wrong |
| Identity | guard wrapping and unwrapping, over an execution semantics of node trees on an abstract server |
| Executor | bounded buffers, operation budgets, and the request wire with its nonce command |
| Collector | collecting a reply from frames |
| Dispatch, DispatchSafety, DispatchOutcome, DispatchProgress, DispatchExample | callers, dispatcher, tmux and stop as a state machine; its invariants and what they give over every run; what callers must be told; what each actor can wait for; one request's whole life |
| EventStream, EventSafety | event readers, publisher, finishers and stop as a state machine; likewise |

## Assumptions

- Nonces are fresh: no frame but the reply to a request's own nonce command equals its nonce.
- tmux answers the lines of a connection in order. Within an answer, flags, data and failure are arbitrary.
- Unsolicited frames are unflagged and carry none of the library's prefixes. Notification decoding is an
  arbitrary predicate on lines.
- A source under the CR reader returns at least one byte at a time until its end.
- Contexts can end, and timers fire, at any step; any goroutine can call stop at any time. A semaphore or a
  context may treat a waiter in any order.
- A server under a guard evaluates conditions as an arbitrary function of condition, target and world that
  does not change the world; only a condition with a target can find it missing. What the conditions check is
  proved against an evaluator of the few directives they use, which reads comparisons, conjunctions, choices,
  loops, variables and byte expansions as tmux documents them.
- A transport delivers a guarded plan's output up to its limit. When a subprocess is canceled, `drain`
  (`tmux/exec.go:188-213`) can close its pipes with stdout unread while stderr already names a missing target, and
  `unwrap` can then report not-sent for a plan that ran. The not-sent results cover such a run only with their limit
  read as the number of bytes that arrived; `Identity.UnwrapUndoesWrap` does not speak of it.

## Findings

Where a natural statement of a property is not what the code does, the model follows the code and the exact
condition is proved.

- A reply without an error can follow a failed frame of its own: unflagged empty failures are ignored
  (`tmux/control_dispatch.go:160-163`). The same lines let a stray failed frame fail a request it does not belong
  to, so isolation holds of a reply's output and not of its error. Over any frames a collection has no failure
  exactly when every one was fine and nothing was cut (`Collector.CollectedMeaning`); over any run a result has no
  error exactly when its nonce was consumed, its context was not seen done, all it received before the nonce was
  fine, and nothing was cut (`DispatchSafety.ConfirmedExactly`). `Collector.FailureIgnored` shows what one failed
  frame does, `DispatchExample.ConfirmedDespite` a run.
- The same lines drop a successful frame, with its data, that is unflagged and carries none of the library's
  prefixes, so a reply without an error can lack something tmux printed for it (`DispatchExample.ConfirmedDespite`).
  A reply's output is all that its successful frames hold exactly when there is no such frame
  (`Collector.OutputWhole`, `DispatchSafety.EffectSoundness`); and the reader only accepts such frames when they
  start as a `TGO-DONE:` or `TGO-READY:` token (`Frames.OnlyTokensDropped`).
- `unwrap` can report not-sent for a plan that ran, when a guard has links, the output limit is shorter than guardOK,
  and the transport can recognise a missing target; not-sent can be trusted on every server exactly otherwise
  (`Identity.NotSentExactly`).
- A subprocess's diagnostic is classified as far as its stderr budget lets it through. With fewer than the 19 bytes
  of "can't find session:" left, a link whose session is gone is passed on as an error of unknown effect and not
  reported as not sent (`Diagnostics.SessionSeen`, `Identity.UnwrapUndoesWrap`).
- After stop has returned, a reservation can remain while another goroutine is inside `finish` between setting
  the terminal error and releasing; it is the only way (`EventSafety.AfterStop`, `EventSafety.ReservedAfterStop`).
- The CR reader drops the DSC preamble only when its first chunk holds it whole, so its own output depends on
  chunking by those seven bytes, and on nothing else (`StreamReader.ReadAll`). `readControlUnit` drops a preamble
  that is left, and the first unit starts at the same byte either way if and only if no second preamble follows the
  first; when one does, the reader that dropped the first starts its first unit seven bytes later
  (`StreamReader.PreambleOnce`).
- `baseArgs` prints `-u` both for the default UTF-8 mode and for the forced one, and a command line without it reads
  back as the default. So a configuration is recovered whole exactly when it forces UTF-8
  (`CommandLine.CarriedWhole`), and what is recovered prints the same root arguments exactly when the flag was not
  omitted (`CommandLine.CarriedPrints`).
- The sequence splitter refuses the line feed that ends `plan.text`, for every plan (`Sequence.TextRefused`), so the
  two routes are compared on the line without it.
- A record whose value grew between its length and its expansion is taken to the end of its line, and is data of its
  frame like any other (`Frames.FrameRoundTrip`). One whose value shrank is taken to the end of the line in which the
  scanner gives up: short by one byte it takes the whole next line with it, even the one that ends the frame
  (`Frames.ShrunkTakesEnd`), and the reader goes on inside that frame.

## Model

| member | source | states |
|---|---|---|
| Words.ParseWords | internal/wire/words.go:14-79 | The lexer loop computes exactly the recursive lexer `Lex`, with its quote, escape, fresh and started state, and refuses exactly the same texts; `Spelling.LexExactly` says which those are |
| Words.SplitSequence | internal/wire/words.go:107-168 | SplitSequence and SplitBindingSequence compute exactly the parts of `Split`, or refuse with it; the flag is the escaped separator, and `Listing.SplitExactly` says what the parts are |
| Spelling.LexExactly | internal/wire/words.go:14-368 | The lexer accepts exactly what a grammar of words can write (bytes, letter escapes, escaped punctuation, octal, continued lines, single and double quotes, blanks, a comment), as the words it spells, and refuses every other text; the grammar has its own escape table and character sets |
| Listing.SplitExactly | internal/wire/words.go:81-215 | The splitter accepts exactly what a grammar of sequences can write, as the commands it lists; a semicolon after a backslash ends a command of a binding and stands for itself elsewhere |
| Listing.TrimExactly | internal/wire/words.go:249-256 | A part is trimmed of the blanks at its ends and of nothing else |
| Sequence.EscapeRoundTrip | internal/wire/words.go:304-368 | The escape decoder undoes the octal escape printer for every byte but NUL, whatever follows, and spans exactly the four bytes |
| Argv.Write | internal/wire/argv.go:55-91 | Through any stack of QuoteWriters, in the chunks they pass down, the bottom writer gains exactly the nested quoting of what was written, or the limit is exceeded by the whole, or the text holds a NUL |
| Argv.Sink.Put | internal/wire/argv.go:119-133 | The bottom writer appends or counts, and refuses exactly what would pass the limit |
| Argv.ValidCommandExactly | internal/wire/argv.go:38-50 | A command name is a letter followed by letters, digits, hyphens and underscores, and nothing else is one |
| Argv.QuoteNAppend | internal/wire/argv.go:55-91 | Quoting at any depth is a homomorphism: writing in pieces and writing at once give the same bytes |
| Argv.QuotePrintable | internal/wire/argv.go:55-91 | Quoted text is printable ASCII without a quote: no byte of the input can end the word or the line |
| Command.EscapeArgShields | internal/wire/argv.go:28-34 | Any argument, whatever semicolons and backslashes it ends in, comes back from the argv splitter as itself and never ends its command |
| Command.WriteArg | tmux/command.go:614-636 | Writes the quoted value of an argument at any nesting depth, succeeding only on valid texts and nested lists and failing only on invalid ones or on size |
| Command.WriteNode | tmux/command.go:638-658 | Writes the rendering of one command; refuses exactly invalid names and arguments, or an exceeded size |
| Command.WriteNodes | tmux/command.go:660-676 | Streaming a nested node list through the writer stack yields the quoting of its finished rendering |
| Command.PlanText | tmux/command.go:691-702 | text is the rendering and a line feed exactly for valid trees |
| Command.PlanSize | tmux/command.go:678-689 | size succeeds exactly when text succeeds within the limit, and returns its length |
| Command.PlanArgv | tmux/command.go:704-728 | argv is the escaped word list exactly for trees whose nested lists are valid |
| Command.SplitArgvCommands | tmux/command.go:518-558 | The splitter loop computes the word lists of the recursive reader `SplitArgv` |
| Command.SplitArgvExactly | tmux/command.go:518-558 | Whatever the arguments, their commands are the runs of words between ends that hold a word; an argument is a word, the last word of a command, or an end |
| Command.ArgumentRead | tmux/command.go:518-558 | Every argument says exactly one of these |
| Command.ArgvDelivers | tmux/command.go:518-558 | Splitting a valid plan's argv gives back the plan's own commands, nested arguments as their rendering |
| Sequence.ParseSequence | tmux/command.go:210-237 | Computes the commands of the split and lexed text, skipping empty parts and refusing invalid words |
| Sequence.SequenceExactly | tmux/command.go:210-237 | A text parses if and only if it splits into parts that all lex, each to no words or to a valid command, and gives those commands in order |
| Sequence.LexNode | internal/wire/words.go:14-79 | A rendered command lexes to exactly its own words, through octal escapes and nested quoting |
| Sequence.SplitRender | internal/wire/words.go:107-168 | Splitting a rendered plan returns exactly its rendered commands: no quoted separator splits |
| Sequence.TextIsOneLine | tmux/command.go:691-702 | A valid plan's text holds no newline and no NUL, so it is one line |
| Sequence.TextRefused | internal/wire/words.go:107-274 | For every valid plan the splitter refuses the line feed that ends the plan's text |
| Sequence.TransportsAgree | tmux/command.go:518-558 | For every valid plan the argv route and the text route both deliver the plan's own command word lists |
| Sequence.TreeRoundTrip | tmux/command.go:614-676 | Reading a rendered plan again, level by level, recovers the whole tree at every nesting depth |
| CommandLine.ParseFlagBundle | tmux/command.go:284-406 | The bundle loop computes the state and argument count of `Bundle`, or refuses with it |
| CommandLine.ParseCommandLine | tmux/command.go:241-282 | The parser loop computes `ParseArgs`: root flags, verbosity and policy, then the command sequence; `RootOptions.ParseExactly` says what that means |
| CommandLine.SplitJoin | tmux/command.go:408-418 | Terminal features joined by commas are split back into the same list |
| CommandLine.SplitCommaExactly | tmux/command.go:408-418 | A value is split at every comma and nowhere else |
| RootOptions.FlagsDecide | tmux/command.go:241-489 | However flags are bundled and values attached, a command line means what its flags say as data: last values, counts, the action by the last of c, D, h, V and by C, and every refusal |
| RootOptions.ParseExactly | tmux/command.go:241-489 | The parser accepts exactly the command lines that can be so written and do not clash, and refuses every other |
| CommandLine.ParseUndoesPrinter | tmux/server.go:240-281 | Parsing baseArgs followed by a valid plan's argv recovers socket, config file, features, log level, colour and login flags, start policy and the exact commands |
| CommandLine.CarriedWhole | tmux/server.go:240-281 | A configuration is recovered whole if and only if it forces UTF-8 |
| CommandLine.CarriedPrints | tmux/server.go:240-281 | What is recovered prints the same root arguments if and only if the original did not omit the UTF-8 flag |
| Records.EncodeRecord | internal/wire/records.go:69-82 | The loop builds the recursive encoding |
| Records.RecordReader.ReadByte | internal/wire/records.go:214-227 | One byte is consumed and teed, or none at the end |
| Records.ReadDecimal | internal/wire/records.go:382-418 | Computes the decimal specification in 64-bit arithmetic that never overflows, consuming exactly the bytes it examined |
| Records.ReadField | internal/wire/records.go:342-372 | Computes the field specification and consumes exactly its bytes, on success and on failure |
| Records.ReadHeader | internal/wire/records.go:252-272 | Computes the header specification and consumes exactly its bytes |
| Records.ScanRecord | internal/wire/records.go:287-340 | Computes the record specification, consumes exactly its bytes, and re-serialises the record it read |
| Records.ReadRecord | internal/wire/records.go:87-97 | The teed wire of ReadRecordWire and the re-serialised wire of ReadRecord both equal the bytes consumed |
| Records.RecordRoundTrip | internal/wire/records.go:69-82 | Scanning an encoding under limit m, whatever follows it, returns its fields and stops after it if and only if there are at most 1024 fields and at most m bytes |
| Records.RecordCanonical | internal/wire/records.go:287-340 | Every accepted input is byte for byte the encoding of its result, within both limits |
| Records.DecimalForward | internal/wire/records.go:382-418 | Every decimal that fits the limit is read back, whatever follows it |
| Records.TornRefused | internal/wire/records.go:287-372 | A record whose value is longer than declared is malformed just after the byte where its comma should be, whatever fields came before |
| Records.ParseRecords | internal/wire/records.go:105-123 | The loop computes the row specification |
| Records.RecordStreamRoundTrip | internal/wire/records.go:105-123 | Concatenated records parse to the same rows if and only if every row has the expected width |
| Records.RecordStreamCanonical | internal/wire/records.go:105-123 | Whatever parses is exactly the concatenation of its rows' encodings |
| Expression.NestedExpression | internal/wire/records.go:156-198 | The loop over the openings stack computes the recursive rewriting |
| Expression.NestedBalanced | internal/wire/records.go:156-198 | The result is balanced under the escape rules and never below zero, for every input |
| Expression.NestedFixpoints | internal/wire/records.go:156-198 | The rewriting leaves a string alone if and only if it is balanced, and is idempotent |
| Expression.NestedKeeps | internal/wire/records.go:156-198 | Whatever the expression, its nested form is all of its bytes up to the first opening that is never closed, or a last lone #, with # before each unmatched brace and nothing else added |
| Expression.TemplateCloses | internal/wire/records.go:51-67 | A scan of the template around any expression closes exactly at the template's own brace |
| StreamReader.ControlStreamReader.Transform | tmux/control_codec.go:372-392 | Rewriting in place never overwrites an unread source byte, though source and destination overlap; the emitted bytes are those of the stripped input |
| StreamReader.ControlStreamReader.Read | tmux/control_codec.go:312-349 | Whatever the chunk and buffer lengths, the bytes returned so far are what stripping allows, and at the end the whole stripped input, a trailing CR included |
| StreamReader.FeedAppend | tmux/control_codec.go:372-392 | Stripping in two chunks, carrying a held CR, is stripping at once |
| StreamReader.FeedIsStrip | tmux/control_codec.go:372-392 | Feeding byte by byte and flushing the held CR deletes exactly each CR before an LF |
| StreamReader.StripUndoesOnlcr | tmux/control_codec.go:372-392 | Stripping undoes a terminal that sends each LF as CR LF, whatever the bytes, CRs of the data included |
| StreamReader.ReadAll | tmux/control_codec.go:312-361 | Reading to the end through buffers of any sizes and chunks of any lengths gives the stripped input, without a preamble exactly when the first chunk holds it whole |
| StreamReader.PreambleOnce | tmux/control_codec.go:107-144 | Whether or not the first chunk held the preamble whole, the first unit starts at the same byte: if and only if no second preamble follows the first |
| ControlCodec.BoundedLine | tmux/control_codec.go:73-103 | However the buffer splits it, a line is returned whole, or refused by its whole length |
| ControlCodec.ReadRecordWireChunk | tmux/control_codec.go:164-180 | Takes a whole record, or a torn one to the end of its line, within what is left of the limit |
| ControlCodec.ReadFrame | tmux/control_codec.go:237-290 | Computes the frame specification and on success leaves the reader just after the end line |
| ControlCodec.FrameWithinLimit | tmux/control_codec.go:237-290 | On every success the begin line and the data together are within the frame limit |
| ControlCodec.FrameLibrary | tmux/control_codec.go:196-290 | A successful frame's data starts, if it has any, as a record or a marker of the library |
| ControlCodec.ReadControlUnit | tmux/control_codec.go:107-144 | Computes the next unit: preamble, terminator, frame or notification |
| Frames.HeaderRoundTrip | tmux/control_codec.go:44-67 | The printed identity of a begin, end or error line is read back exactly where its numbers fit 64 bits and its flags are 0 or 1, and no other kind accepts it |
| Frames.FrameRoundTrip | tmux/control_codec.go:196-306 | Any interleaving of encoded records (whose fields may hold %end, %error, %exit or newlines), records torn by a value longer than declared, markers and notifications before a matching end reads back as exactly its data and notifications if and only if it fits the limit |
| Frames.ShrunkTakesEnd | tmux/control_codec.go:164-180 | A value one byte shorter than declared makes its record take the whole next line, even the one that ends the frame |
| Frames.FrameEndsExactly | tmux/control_codec.go:182-235 | After any body that fits, a begin, end or error line ends the frame if and only if it is an end or error line with the frame's own identity, and an end line only where there was no diagnostic; any other line of the three loses the frame |
| Frames.LineRefused | tmux/control_codec.go:107-144 | Outside a frame an end or error line, or one that is no notification, is no unit; any other is its notification |
| Frames.BeginRefused | tmux/control_codec.go:107-290 | A begin line is a unit if and only if it names an identity and a frame follows |
| Frames.LongRefused | tmux/control_codec.go:73-103 | A line over the limit is refused for that, one without its line feed ends the input, and neither is a unit |
| Frames.TrailerEnds | tmux/control_codec.go:69-144 | The DSC terminator ends the stream, at its head or as a line with blanks around it |
| Frames.StreamRoundTrip | tmux/control_codec.go:107-144 | Any sequence of frames and notifications is read as exactly those, in order, and the reader goes on with what follows |
| Frames.TerminalRoundTrip | tmux/control_codec.go:107-392 | Over such a terminal, behind its preamble and whatever the first chunk, any sequence of frames and notifications is read as exactly those |
| Read.RecordMap | tmux/read.go:247-254 | The loop builds the field map |
| Read.RowMapLookup | tmux/read.go:247-254 | Every field whose name no later field repeats is found with its own value |
| Read.DecodeRead | tmux/read.go:186-245 | With or without the identity record of a probed read, computes the demultiplexing specification of what follows it with every index in range, and maps each row by its own request's fields |
| Read.ProbedRoundTrip | tmux/read.go:186-245 | A probed answer is accepted if and only if it starts with an identity record of the right width that serverInfo accepts |
| Read.DemuxRoundTrip | tmux/read.go:186-245 | The decoder returns lists if and only if the answer is those lists' records with one boundary between requests and every row of its request's width |
| Formats.FormatText | tmux/identity.go:94-109 | The loop builds the formatted text |
| Formats.FormatBytesExact | tmux/identity.go:94-109 | No value can alter the comparison it stands in: its formatted form is balanced, shows no comma, and expands to exactly the value |
| Formats.ItoaExactly | tmux/identity.go:119-127 | A number in a condition is written in digits without leading zeros, with a sign exactly where it is negative |
| Formats.EqMeans | tmux/identity.go:111-113 | The comparison expands to 1 exactly where the variable has the value, and can stand as an operand itself |
| Formats.AndMeans | tmux/identity.go:114 | The conjunction expands to 1 exactly where both operands are truthy |
| Formats.AnyMeans | tmux/identity.go:153-199 | A window or client loop around a condition is truthy exactly where the condition holds for some item |
| Identity.IdentityMeans | tmux/identity.go:119-127 | The identity condition holds exactly in a daemon with that pid, start time and socket path, whatever bytes the path is made of |
| Identity.LinkMeans | tmux/identity.go:153-199 | A link condition holds exactly where some window of the target has that id at that index |
| Identity.ClientMeans | tmux/identity.go:153-199 | A client condition holds exactly where some client has that name, pid and creation time |
| Identity.GuardMeans | tmux/identity.go:153-199 | On a server that expands formats all checks hold exactly when the daemon, every link and every client are the ones the guard names |
| Identity.Wrap | tmux/identity.go:153-199 | The backward loops build the checks nested in the order identity, links, clients around guardOK and the plan |
| Identity.ChecksOrder | tmux/identity.go:153-199 | Which condition, target and marker each check has, in order |
| Identity.GuardTransparency | tmux/identity.go:153-199 | On any server and in any world: guardOK followed by exactly the plan's output, final world and error when every check holds; otherwise the world unchanged and only the first failing check's marker, or its missing target |
| Identity.UnwrapUndoesWrap | tmux/identity.go:153-257 | With room for the longest marker, on either transport, unwrap gives the plan's own delivery when every check holds, even if it prints guard-like text; otherwise not-sent with the cause of the first failing check, or, where a link's target is missing and the transport cannot recognise the diagnostic, that error |
| Diagnostics.ClassifyExactly | tmux/executor.go:102-150 | A diagnostic with the words for a refused access is a permission error wherever they stand; any other means what its first words say, and nothing known without any of them |
| Identity.UnwrapCut | tmux/identity.go:153-257 | With an output limit too short for the marker a guard prints, unwrap passes on the error for the cut output, or the plan's own, unless that is a missing target and the guard has links |
| Identity.UnwrapForeign | tmux/identity.go:201-257 | Output that starts with no marker and comes without an error is of unknown effect |
| Diagnostics.SessionSeen | tmux/executor.go:102-150 | A missing session is recognised in a cut diagnostic if and only if its 19-byte prefix is left whole |
| Diagnostics.ShortText | tmux/executor.go:102-118 | No text shorter than ten bytes is taken for a missing target |
| Identity.NotSentSound | tmux/identity.go:201-257 | A not-sent report means some check failed, so no node of the plan ran, when guardOK fits the output limit, no link is checked, or the transport sees too little of a diagnostic to recognise any missing target |
| Identity.NotSentExactly | tmux/identity.go:201-257 | That condition is exact: not-sent can be trusted on every server if and only if it holds |
| Executor.Buffer.Write | tmux/exec.go:52-79 | The buffer holds exactly the first limit bytes written so far, and has fired its overflow callback once if and only if there were more |
| Executor.CopyAll | tmux/exec.go:52-86 | Over any chunks: the first limit bytes of their concatenation, and one callback if and only if it is longer |
| Executor.Operation.CheckInputLimit | tmux/executor.go:224-246 | Admits exactly the valid plans whose text, overhead and input fit what is left, and charges exactly that |
| Executor.Operation.Execute | tmux/executor.go:260-287 | Captures exactly the first bytes left in each output budget, on both transports, and pays for them |
| Executor.ExecuteAll | tmux/executor.go:224-287 | Over any sequence of executions charged input and captured stdout and stderr each stay within their limits, and each execution gets exactly what the earlier ones left |
| Executor.BuildRequestWire | tmux/control_dispatch.go:272-291 | The payload is the plan's line and the nonce line, or the limit error exactly when they do not fit |
| Executor.NonceLength | tmux/control_dispatch.go:272-291 | The nonce command is 64 bytes and a line feed |
| Executor.AdmittedWireFits | tmux/executor.go:224-246 | For every plan admitted on a control connection the nonce command fits the 128 bytes charged; both lines read back as their own commands |
| Executor.ChargeAndBuild | tmux/executor.go:224-246 | Charging a plan and building its wire within that charge: once admitted, the payload is built, the limit error cannot occur, and no more is written than was charged |
| Collector.AppendFrameData | tmux/control_dispatch.go:132-145 | Appends the first bytes that fit, and says whether all did |
| Collector.Collection.Handle | tmux/control_dispatch.go:147-181 | Ends on the nonce frame and otherwise updates result and failure as `Take` |
| Collector.CollectFrames | tmux/control_dispatch.go:92-130 | Collects exactly the frames before the first nonce frame |
| Collector.CollectedMeaning | tmux/control_dispatch.go:132-181 | Output and diagnostics are the first bytes of the request's own frames', and there is no failure if and only if every frame was fine and nothing was cut |
| Collector.FailureIgnored | tmux/control_dispatch.go:147-181 | After any frames, one failed frame more adds no error if and only if it is unflagged and empty; a stray failed frame adds no output |
| Collector.OutputWhole | tmux/control_dispatch.go:147-181 | The output collected from any frames is all that the successful ones hold if and only if none of them is unflagged, unprefixed and not empty |
| Frames.OnlyTokensDropped | tmux/control_codec.go:196-290 | Of the successful frames the reader accepts, only those that start as a TGO-DONE: or TGO-READY: token can be dropped with their data |
| DispatchSafety.EffectSoundness | tmux/control_dispatch.go:293-465 | Over every interleaving: a caller told not-sent has had no byte written, then or later; a reply without error means both lines written, its nonce consumed, only ignorable failures, and the output of all the frames emitted for it, which is all that its successful frames hold if and only if none of them is unflagged, unprefixed and not empty |
| DispatchSafety.ReplyIsolation | tmux/control_dispatch.go:92-181 | A caller's output is collected from a prefix of the frames tmux emitted for its own request, whatever else happened |
| DispatchSafety.ConfirmedExactly | tmux/control_dispatch.go:147-341 | Over every interleaving, a result has no error if and only if its nonce was consumed, its context was not seen done, every frame received by then, own or stray, was fine, and its output was not cut |
| DispatchOutcome.NotSentWhenever | tmux/control_dispatch.go:293-465 | Over every interleaving, the result sent to a caller says not-sent if and only if writing never began; a caller is told unknown only if the dispatcher's compare-and-swap had taken its request, so one never taken is always reported as not sent |
| DispatchOutcome.AnsweredUnlessDisturbed | tmux/control_dispatch.go:92-428 | While no context ends, nothing fails and nobody stops the connection, a request that can fit and has returned was answered by tmux and told so, without an error exactly when every frame was fine and nothing was cut |
| DispatchOutcome.EndedEarly | tmux/control_dispatch.go:92-341 | Over every run: a context seen done before the request is taken, or a wire that cannot be built, means not a byte is ever written and the result says so; a failing write, stop or the drain timer while collecting means an unknown result, with the output of its own frames so far |
| DispatchOutcome.HandshakeDecides | tmux/control_dispatch.go:92-234 | Over every interleaving, the handshake's nonce lets the dispatcher serve requests if and only if its context was not seen done, every frame before it was fine by the rules of startup, its output was not cut and its identity is accepted; otherwise the connection is stopped |
| DispatchProgress.CallerGoesOn | tmux/control_dispatch.go:365-521 | In every reachable state a caller waits for a count while all are held, for bytes while its own do not fit, for a result until it has been sent one, and for nothing else |
| DispatchProgress.DispatcherGoesOn | tmux/control_dispatch.go:92-363 | In every reachable state the dispatcher waits only for a request, for stop to return once it has called it, or for a frame |
| DispatchProgress.CollectingEnds | tmux/control_dispatch.go:92-130 | Collecting can always be ended: its context can be seen done once, the drain timer can fire from then on and not before, and stop is seen once signaled |
| DispatchProgress.GivingUpEnds | tmux/control_dispatch.go:365-465 | A caller whose context has ended takes at most eight more steps of its own: each brings it closer to its return |
| DispatchProgress.TooLargeRefused | tmux/control_dispatch.go:365-428 | A request larger than the connection admits is refused at once |
| DispatchProgress.ShutdownProgress | tmux/control_dispatch.go:261-465 | In every reachable state whose stop has returned, the dispatcher can go on until it exits, and so can every caller that has not returned, unless it is about to be served |
| DispatchSafety.OneAtATime | tmux/control_dispatch.go:293-341 | About to write, nothing of any other request is on its way; while writing or collecting, everything is its own or unsolicited and its nonce comes last |
| DispatchSafety.NonceLast | tmux/control_dispatch.go:92-130 | In every reachable state, a nonce about to be consumed leaves nothing of its request behind, and everything emitted for it has been heard |
| DispatchSafety.PermitConservation | tmux/control_dispatch.go:484-495 | In every reachable state the semaphores hold exactly the permits of acquirers and of enqueued, unreleased requests, within their sizes |
| DispatchSafety.PermitsSuffice | tmux/control_dispatch.go:505-521 | No release gives back more than is held, and the full-queue branch is unreachable |
| DispatchSafety.PermitsReturned | tmux/control_dispatch.go:189-270 | When every caller has returned and the dispatcher has exited, both semaphores are empty |
| DispatchSafety.DeliveredOnce | tmux/control_dispatch.go:196-270 | No request is sent two results, and when the dispatcher has exited every enqueued request has been sent one |
| DispatchSafety.ResultNeverBlocks | tmux/control_dispatch.go:467-473 | The one-slot send is never blocked, and a caller that blocks to receive is about to be served |
| DispatchSafety.StepKeeps | tmux/control_dispatch.go:343-428 | Every step of callers, dispatcher, tmux and stop keeps the invariants |
| DispatchExample.Confirmable | tmux/control_dispatch.go:365-428 | On any connection that can admit it a request can be confirmed after any frame that is fine, leaving no permit held: a whole run from the handshake to the caller |
| DispatchExample.ConfirmedDespite | tmux/control_dispatch.go:147-181 | Runs in which a reply without an error follows a failed frame of its own, and in which it lacks what a successful one printed |
| EventSafety.ReservationsExact | tmux/event_stream.go:65-229 | Over every interleaving: reserved bytes are the sum over registered streams and fit EventBytes, the number of registered streams fits MaxStreams, each queue keeps its quotas with an exact counter, and queued bytes fit the reservation |
| EventSafety.GapFree | tmux/event_stream.go:119-296 | What Next has returned is a prefix of the publications since registration; with its queue it is all of them but the one being handed out |
| EventSafety.QueuedExactly | tmux/event_stream.go:251-275 | Over every interleaving, when the publisher turns to a live stream the event goes to the end of its queue if and only if both quotas have room for it; otherwise nothing is queued and the stream is about to be dropped |
| EventSafety.LostOnlyWhenFull | tmux/event_stream.go:231-275 | Over every run a stream is over with the lost-events error only after an event that did not fit its quotas |
| EventSafety.RegisteredExactly | tmux/event_stream.go:65-216 | Over every interleaving, a stream is opened if and only if the options are in range, stop has not begun, and one stream and its bytes more fit beside those registered; it starts empty |
| EventSafety.NextExactly | tmux/event_stream.go:119-166 | Next returns the oldest publication not yet returned from a live stream that holds one, waits on one that holds none, returns no event from one that is over, and goes on from waiting exactly on a wake token or a closed done |
| EventSafety.GivingUpKeeps | tmux/event_stream.go:119-166 | A reader whose context ends can always leave, and leaves the stream and its unread events as they were |
| EventSafety.NeverStuck | tmux/event_stream.go:231-296 | In every reachable state the publisher can publish or go on, or the finish it waits for can; and so for stop |
| EventSafety.NoLostWakeup | tmux/event_stream.go:119-275 | A reader parked on a non-empty queue or an ended stream can go on, or a pusher or finisher that will let it can |
| EventSafety.TerminalOnce | tmux/event_stream.go:231-249 | A terminal error is set once, and nothing is returned after it |
| EventSafety.AfterStop | tmux/control.go:498-529 | Once stop has returned every stream is over, and reservations are zero if and only if no other finisher stands between setting a terminal error and releasing |
| EventSafety.ReservedAfterStop | tmux/control.go:498-529 | Such a finisher does keep a reservation past stop: a run that shows it |
| EventSafety.StepKeeps | tmux/event_stream.go:65-296 | Every step of readers, publisher, finishers and stop keeps the invariants |

## Left out

- Processes, pipes, PTYs, signals, terminal modes, socket discovery, clocks and timers; a timeout is a step that may happen at any time.
- Liveness: that a step which can be taken is taken. The state machines prove what every reachable state keeps and that some step can be taken.
- Byte-level interleaving inside one write to stdin: a request counts as touched from before its first byte, and its two lines reach tmux one after the other.
- The reader goroutine's own buffering between the connection and the frame channel, whose frames stay in order; the frames it drops once stopCh is closed.
- The identity check of a startup or probe record: the dispatcher model takes it as a choice, and decodeRead as an arbitrary predicate on the record's fields.
- Stopping a subprocess early, when a buffer overflows or its context ends: a guard's plan is modelled as run to its end or its first error.
- Pane selection in publish: published events are those that passed it.
- Event sizes and contents: an event is an identity and a size; decodeEvent is not part of this model.
- Error values, texts, wrapping and timeouts' sources; an error is kept where a caller can tell it apart by effect.
- The typed API (clients, operations, creation, buffers, hooks, layouts, options), which assembles flags.
- tmux's own formats and parsers beyond the repository's readers and the directives of guard conditions.
- Octal decoding of pane output, environment and version parsing, `$TMUX`, snapshots, logging.
- Validation of configurations other than the sockets and features the root arguments carry.
- Words.SplitSequence: does not model the error texts that tell one refusal from another.
- Records.ReadRecord: models a reader over bytes that are all there; an input/output error other than the end of input is not modelled.
- DispatchSafety.ReplyIsolation: speaks of a reply's output and not of its error, which a stray failed frame can cause; DispatchSafety.ConfirmedExactly says when.
