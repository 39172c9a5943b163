# A verified model of the ruso bytecode runtime

This project models four connected pieces of the runtime that executes compiled security checks, and proves
what they promise. It is written in Dafny 4.11; `dafny verify dfyconfig.toml` checks all of it.

- **The executor** (`src/runtime/executor.rs`, `context.rs`, `matcher.rs`). `Vm` gives the machine on values: a
  state of variables, responses, sessions, evidence and flags, a program counter and a stack of loop frames, and
  one step per instruction. `Contexts` and `Execution` follow the code in imperative form - a class with mutable
  fields, a `while` loop, helpers that push, advance and pop frames in place - each method proved to compute the
  machine's step. `Structured` is the meaning the byte code is meant to have: nested `for`, one-armed `if`, `break` and
  `continue`, by recursion, with no program counter and no stack. `Refinement` proves that the machine on
  well-nested code computes that meaning within an explicit bound. `LoopStack`, `Scoping`, `Expansion`, `Safety`
  and `Runs` prove the invariants of the stack, lexical scoping, a transformation, index safety, and what findings,
  evidence and retries amount to over whole runs; `Replies` tells what is stored, which sessions are open and what is
  sent from the exchanges of a run. `Verdicts` and `Instructions` say what matchers and single instructions mean in
  terms of responses, variables and operands, without the functions that compute it.
- **The binary codec** (`src/runtime/binary.rs`). `Wire` and `Format` define the encoding of every constituent as
  a pair of functions: `PutX(v, t)` is the encoding of `v` followed by `t`, `GetX(b)` reads one `X` off the front
  of `b`. `Codec` proves the laws of whole programs, `Layout` fixes the bytes that reading back cannot
  tell: byte order, tags,
  opcodes, the order of fields, and what is refused. `Binary`, `Encoder` and `Decoder` follow the code in imperative
  form: a growing buffer, an advancing cursor, counted loops, recursion over nested request bodies, operand validation.
  `DecodedRuns` carries validation over to the executor, and back: what is refused would panic.
- **Template expansion** (`src/runtime/interpolate.rs`). `Template` is the byte-wise definition, `Interpolation`
  the loop over characters, with the laws of rendering and expanding.
- **The port check** (`src/runtime/port_cache.rs`). `PortCache` has the cache object with its two critical
  sections and the protocol of concurrent calls as a state machine over their atomic steps; `Precheck` computes the
  endpoints of a run; `Agreement` proves that what a run connects to was among them.
- `WholeRuns` puts the pieces together: bytes to result without a panic, and connections only to endpoints found open.

Conventions. A string is its UTF-8 bytes (`Utf8`), machine integers are bounded integers, and `usize` has 64 bits.
Errors are values; an index out of range, which panics the thread, is the error `Panic`, so that its absence
can be stated. The network is an oracle: the n-th exchange of a run gets the n-th answer, and a run records its
exchanges. Regular expressions, the number, duration, URL and IP-address parsers, lossy decoding and truncation are
unknown functions (`Engine`, `Resolver`), so every theorem holds for all of them. The script budget is a number of
instructions. That strings are valid UTF-8, which the original's types say, is a precondition of the imperative
executor (`Vm.ValidTexts`); for decoded programs it is proved.

A program is well nested (`Structured.WellNested`) when the body of an `if_match` at `pc` is `[pc + 1, else_pc)`,
that of a `for` is `[pc + 1, end_pc - 1)` with its `loop_back` at `end_pc - 1`, `break` and `continue` occur only
inside loops and `loop_back` only as a loop's end. Validation accepts other programs; index safety, scoping,
findings, sessions and the agreement of check and send are proved for those too.

Two statements have an exact condition where the plain promise fails. `decode(encode(p)) == Ok(p)` fails for
lengths of 2^32 and more, for operands out of range and for strings that are not UTF-8, and holds for all other
programs (`Codec.RoundTrip`). The newest probe's result does not always stay in the cache:
`PortCache.OlderProbeCanWin` is a run after which the cache contradicts the newest answer. A caller can check the
exact condition before its call: beginning it is safe if and only if no other call for the endpoint is in flight
(`PortCache.BeginningIsSafeIff`); `PortCache.NewestIsSafeIff` gives the condition for every reachable state,
overlaps included.

The table leaves out the straight-line readers and writers of the codec, one for each constituent, whose contracts
have the same form as those listed, the tables of tags and fields in `Layout`, and the steps of `set`, `send` and the
ending and waiting instructions, which `Instructions` spells out.

## Model

| member | source | states |
|---|---|---|
| `Refinement.WellNestedHalts` | src/runtime/executor.rs:251-407 | Every run of well-nested code halts with no budget: within the recursive bound (a loop costs 1 + n(cost(body)+1), n at most the longest `set_list`) the machine is past its end, with the result - error, variables, responses, latch, finding flag, evidence, wire - that the recursive semantics of nested for/if/break/continue gives |
| `Refinement.WellNestedRun` | src/runtime/executor.rs:251-407 | So under any budget of at least that bound the run ends with exactly that result, never with the budget error, whatever the network answers |
| `Refinement.Simulates` | src/runtime/executor.rs:251-407 | From the start of any laid-out block, under any loop stack, the machine reaches the landing point of the block's structured outcome within the block's cost |
| `Refinement.SimulatesFor` | src/runtime/executor.rs:329-356 | The same for a whole `for`: snapshot of the values at entry, empty list skips the body, frame pushed and popped |
| `Refinement.SimulatesLoop` | src/runtime/executor.rs:427-538 | The same for the rounds still to come of a loop whose frame is on top of the stack |
| `Refinement.RunFollows` | src/runtime/executor.rs:257-265 | A machine that has ended within the budget gives the run its result |
| `Refinement.ExecKeepsLists` | src/runtime/executor.rs:273-282 | List variables come only from `set_list`, so none is ever longer than the longest one in the code |
| `Refinement.FlowIsScoped` | src/runtime/executor.rs:521-538 | Code outside loops never ends by `break` or `continue` |
| `Structured.DecompileIsLaid` | src/runtime/bytecode.rs:84-115 | Well-nested code is the layout of the block read back from it, with `break`/`continue` only inside loops |
| `Structured.LaidIsNested` | src/runtime/bytecode.rs:84-115 | The layout of any proper block is well nested, and reading it back gives that block |
| `Structured.WellNestedIffLayout` | src/runtime/executor.rs:1224-1256 | Code is well nested if and only if it lays out some structured program, and that program is unique |
| `Structured.NestedLoops` | src/runtime/executor.rs:1224-1302 | For instance: a loop in a loop with a guarded `break`, a `continue` and a `stop` after it is well nested and reads back as that |
| `LoopStack.ReachableNesting` | src/runtime/executor.rs:440-538 | In every reachable state of well-nested code the loop stack is the static nesting of `pc`: same depth, each frame's addresses those of its enclosing loop, index in range; the three "outside loop" errors never arise |
| `LoopStack.StepKeepsNesting` | src/runtime/executor.rs:440-538 | One step of any instruction keeps that invariant |
| `LoopStack.LoopExitKeepsNesting` | src/runtime/executor.rs:457-538 | `loop_back`, `break` and `continue` always find their loop in well-nested code |
| `LoopStack.ForKeepsNesting` | src/runtime/executor.rs:427-452 | Entering a loop, or passing over an empty one, keeps the invariant |
| `Scoping.LoopScoping` | src/runtime/executor.rs:438-529 | On any code: from a loop instruction to the first state back at its depth, the item variable has exactly the value, or absence, it had before, whatever the body did and whichever loops reused the name; execution goes on at `end_pc` |
| `Scoping.StepAbove` | src/runtime/executor.rs:457-529 | One step above a depth keeps the frames below, or leaves the loop at that depth and restores its variable |
| `Scoping.ForRestores` | src/runtime/executor.rs:438-529 | A structured `for` that completes leaves its variable as it found it; an empty one changes nothing |
| `Expansion.RewritePreservesRuns` | src/runtime/executor.rs:301-304 | Replacing every `match_all` by single matches, all jump targets relocated by prefix sums, keeps a program well nested and keeps the outcome of its runs, errors included |
| `Expansion.ExpandMeaning` | src/runtime/executor.rs:785-817 | The same replacement on structured programs, from any state |
| `Expansion.MatchAllStep` | src/runtime/matcher.rs:186-200 | One `match_all` is its first match followed by the `match_all` of the rest, with the same short-circuit and the same error |
| `Expansion.ExpandLaid` | src/runtime/executor.rs:301-356 | The rewritten code is the layout of the expanded block at the relocated address |
| `Safety.NeverPanics` | src/runtime/executor.rs:266-405 | With validated operands no run of any length, well nested or not, indexes a pool, a compiled table or a string range out of bounds, a wrapped 32-bit `start + len` included |
| `Safety.StepIsSafe` | src/runtime/executor.rs:266-405 | One step from any state, whatever its program counter and stack |
| `Safety.StepPanicsIff` | src/runtime/executor.rs:266-405 | One step panics if and only if validation refuses its instruction, and no failed match passes it over |
| `DecodedRuns.AdmittedIffNothingPanics` | src/runtime/binary.rs:97-193 | The final check of decoding admits a program if and only if, once loaded, no state in which no match has failed makes an instruction of it panic: nothing is let through that indexes out of range, and nothing else is refused |
| `DecodedRuns.ReportedDefect` | src/runtime/binary.rs:120-137 | The defect reported is that of the first instruction with an operand out of range, a bad range only when the single operand before it is in order |
| `DecodedRuns.LoadsIff` | src/runtime/executor.rs:153-202 | A program loads if and only if every pattern it will use compiles; the error names one that does not |
| `Safety.BasicFine` | src/runtime/executor.rs:266-405 | Each instruction fails only with an ordinary error of the program when its operands are in range |
| `DecodedRuns.DecodedNeverPanics` | src/runtime/binary.rs:97-113 | Whatever bytes were decoded, no run of the program they hold panics |
| `DecodedRuns.DecodedTexts` | src/runtime/binary.rs:376-384 | Every template a decoded program can expand is valid UTF-8, so no slice of one panics |
| `WholeRuns.ExecuteBytes` | src/runtime/executor.rs:133-139 | Any bytes at all, decoded, loaded, checked and run: the result is the decoder's error, the loader's, or the reported run, and never a panic |
| `DecodedRuns.DecodedIsLoaded` | src/runtime/executor.rs:153-202 | Decoding and loading establish the bounds and the alignment of the compiled tables that index safety rests on |
| `Vm.FromProgram` | src/runtime/executor.rs:153-202 | A loaded executor shares the program's pools, and each entry of its compiled tables comes from the pool entry at its index |
| `Runs.FindingOfRun` | src/runtime/executor.rs:365-410 | Told from the events of all steps of a completed run: there is a finding exactly when the check is named, no `stop` was executed and every match evaluated passed; its evidence is the collected texts in order |
| `Runs.RunSteps` | src/runtime/executor.rs:257-407 | A successful run is the machine's steps up to its end |
| `Runs.BudgetExhausted` | src/runtime/executor.rs:257-265 | A run not over after as many instructions as its budget allows ends with the budget's error |
| `Runs.RunLog` | src/runtime/executor.rs:785-849 | Over any stretch of a run the latch, the stop flag and the evidence are exactly what the executed instructions say |
| `Runs.NothingAfterFailure` | src/runtime/executor.rs:785-849 | Once a match has failed no match is evaluated and no evidence is added |
| `Runs.RetryMeaning` | src/runtime/executor.rs:759-783 | At most `count` attempts; returns at the first success, otherwise with the last attempt's error (its own error when `count` is zero) |
| `Replies.StoredIsLastReply` | src/runtime/executor.rs:587-669 | At every point of every run: what is stored for a probe without a session, and no `save` writes to, is the reply the network gave to its last answered exchange - HTTP response, resolved addresses or socket data with host and port -, and nothing when none was answered |
| `Replies.SessionDataIsConcatenation` | src/runtime/executor.rs:655-668 | For a TCP or UDP session probe no `save` writes to, what is stored at any point of any run is the in-order concatenation of the chunks of its successful exchanges |
| `Replies.SessionsFollowTheWire` | src/runtime/executor.rs:671-757 | At any point of any run a session is open exactly when its probe keeps one and an exchange of it has succeeded, and an exchange reuses the session exactly when it was open by then |
| `Replies.WhatIsSent` | src/runtime/executor.rs:540-634 | A socket exchange goes to the expanded host, at the probe's port - 53 for `dns` without one -, with the overriding or expanded payload; `tcp` and `udp` need a port and `udp` refuses TLS; a `dns` probe with neither port nor payload only asks for addresses |
| `Replies.NothingIsSent` | src/runtime/executor.rs:540-567 | A host or payload that names a list stops a socket probe before anything is sent |
| `Replies.OtherSends` | src/runtime/executor.rs:576-604 | An HTTP probe always makes its request and succeeds exactly when it is answered; an unknown name makes none |
| `Runs.SendIsOneExchange` | src/runtime/executor.rs:569-669 | A send makes at most one exchange; it succeeds exactly when the network answers, and what is stored then is that answer - for a probe with a session, appended to the socket data already there; the record says truly whether it was answered |
| `Vm.SendProbe` | src/runtime/executor.rs:569-669 | A send changes responses, sessions and the wire only; a failed one changes no response and no session |
| `Vm.RetrySend` | src/runtime/executor.rs:759-783 | The same for all attempts of a `retry` together |
| `Matcher.AnyIsNotAllNegated` | src/runtime/matcher.rs:186-216 | `match_any` on a regex-free list is the negation of `match_all` on the negated list, errors included |
| `Matcher.StopsAtSamePosition` | src/runtime/matcher.rs:186-216 | Both evaluations stop at the same position despite short-circuiting |
| `Matcher.NegatedVerdict` | src/runtime/matcher.rs:44-184 | Negating a predicate negates its verdict and keeps its error |
| `Matcher.NegatedComparison` | src/runtime/matcher.rs:244-282 | Negating an operator negates a numeric or duration comparison, errors kept; what each operator compares is `Verdicts.ComparisonMeaning` |
| `Verdicts.ComparisonMeaning` | src/runtime/matcher.rs:244-283 | A status, size or time comparison is true exactly when the number measured stands in the relation the operator names to the number the operand denotes - a literal, a parsed numeral or duration -, for each of the six operators; an operand that denotes none gives its error |
| `Verdicts.Trichotomy` | src/runtime/matcher.rs:244-283 | Of `<`, `==` and `>` exactly one accepts a response; `<=`, `>=` and `!=` are what these make them |
| `Verdicts.ComparisonsAreMonotone` | src/runtime/matcher.rs:244-283 | `==` accepts a single value; what `<` or `<=` accepts stays accepted when it shrinks, what `>` or `>=` accepts when it grows |
| `Verdicts.ContainsMeaning` | src/runtime/matcher.rs:60-184 | `contains` holds exactly when what the field shows - body, first header of the name or nothing, joined answers, socket data - is some bytes, the text, and some bytes; `not contains` denies exactly that |
| `Verdicts.RegexMeaning` | src/runtime/matcher.rs:26-42 | A regex is put to the same text with the matcher's own pattern, as bytes for socket data |
| `Verdicts.RefusalMeaning` | src/runtime/matcher.rs:44-184 | Which predicates are refused for which field, and which replies for the others |
| `Verdicts.AllMeaning` | src/runtime/matcher.rs:186-200 | The verdict on all of a list is that of the first matcher that does not hold, true when every one does |
| `Verdicts.AnyMeaning` | src/runtime/matcher.rs:202-216 | The verdict on any of a list is that of the first matcher that is not false, false when every one is |
| `Verdicts.SameHeaderIff` | src/runtime/matcher.rs:235-242 | Header names are the same when they differ at most in the case of ASCII letters |
| `Verdicts.JoinSnoc` | src/runtime/executor.rs:1025-1033 | Resolved addresses are joined in order with one space between each two |
| `Matcher.CompiledRegexIsPresent` | src/runtime/matcher.rs:26-42 | The compiled table never lacks the regex its matcher needs |
| `Matcher.BytesContains` | src/runtime/matcher.rs:222-233 | The search through windows finds the needle exactly when it occurs at some offset; the empty needle always |
| `Matcher.LookupHeader` | src/runtime/matcher.rs:235-242 | The first header whose name matches without regard to case; none exactly when no name matches |
| `Matcher.ContainsSurvivesAppend` | src/runtime/matcher.rs:155-165 | Session data that grows never loses a found text: `contains` stays true, `not contains` false |
| `Matcher.MissingHeader` | src/runtime/matcher.rs:104-112 | A missing header contains the empty text and no other |
| `Runs.ExtractMeaning` | src/runtime/executor.rs:859-935 | Extraction binds one variable: to the capture or the body, never empty, or to a header's value, which may be |
| `Interpolation.Expand` | src/runtime/interpolate.rs:12-43 | The loop over `char_indices` computes the byte-wise leftmost-placeholder definition, and so what the template's tokens emit, told from the variables; both slices are taken at character boundaries and the skipping stops exactly after `}}` |
| `Interpolation.NextChar` | src/runtime/interpolate.rs:18-20 | Advancing the iterator moves from one character boundary to the next, never over one |
| `Interpolation.TokensPartition` | src/runtime/interpolate.rs:20-40 | Each template byte is copied once or lies in exactly one placeholder, and the expansion of any template is its tokens' texts in order - bytes copied, each name's bound text, nothing for an unbound name - or the error of the first name bound to a list |
| `Interpolation.RenderRoundTrip` | src/runtime/interpolate.rs:20-56 | Rendering literals (no `{{`, no two adjacent) and identifiers padded with any white space, and expanding: literals verbatim, for each hole the text its name is bound to or nothing, never rescanned; the first hole bound to a list is the error |
| `Interpolation.OneHole` | src/runtime/interpolate.rs:20-56 | A text, a placeholder and a text expand to the texts with the bound text, nothing, or the list error between |
| `Interpolation.RenderFailsOnLists` | src/runtime/interpolate.rs:45-56 | A rendered template fails if and only if some identifier in it is bound to a list |
| `Interpolation.OutputIsValid` | src/runtime/interpolate.rs:12-43 | Expanding a string with string values gives a string: valid UTF-8 |
| `Interpolation.HoleParses` | src/runtime/interpolate.rs:58-65 | A padded identifier between `{{` and `}}` is recognised whole, whatever follows |
| `Interpolation.PlaceholderIsRendered` | src/runtime/interpolate.rs:58-65 | Every placeholder recognised is such a rendered identifier |
| `Interpolation.IdentIff` | src/runtime/interpolate.rs:67-76 | Identifiers are the nonempty strings of ASCII letters, digits and underscores that do not start with a digit |
| `Interpolation.SpaceTable` | src/runtime/interpolate.rs:62 | The padding trimmed is exactly the characters with the Unicode White_Space property, in UTF-8 |
| `Interpolation.BraceBeforeHole` | src/runtime/interpolate.rs:58-65 | A lone `{` before a placeholder starts none itself |
| `Template.InterpolateReadsOnlyNames` | src/runtime/interpolate.rs:26-27 | Expansion depends only on the variables the template names |
| `Template.InterpolateFailsOnLists` | src/runtime/interpolate.rs:45-56 | Expansion fails exactly when a named variable is a list, and only with that error |
| `Template.CopyRun` | src/runtime/interpolate.rs:39 | Text without `{` is copied unchanged |
| `Template.PlaceholderMeaning` | src/runtime/interpolate.rs:58-65 | A placeholder is recognised exactly when what stands before the first `}}` is an identifier once trimmed; it ends just past that |
| `Template.FindClose` | src/runtime/interpolate.rs:59 | The first `}}`, and none before it |
| `Utf8.ValidIff` | src/runtime/binary.rs:376-384 | Valid strings are the encodings of sequences of Unicode scalar values, and no others |
| `Utf8.BoundaryIffValidRest` | src/runtime/interpolate.rs:24 | Slicing a valid string leaves a valid string exactly at the character boundaries |
| `Codec.RoundTrip` | src/runtime/binary.rs:49-96 | `decode(encode(p))` is `Ok(p)` if and only if all lengths fit 32 bits, all strings are valid UTF-8 and every operand is in range |
| `Codec.Normalisation` | src/runtime/binary.rs:64-96 | Whatever bytes decode to `p`, encoding `p` decodes to `p` again, is no longer, and is equally long if and only if no probe name was repeated |
| `Codec.PrefixFree` | src/runtime/binary.rs:81-83 | Anything appended to accepted bytes makes them rejected, as trailing bytes |
| `Codec.TruncationRejected` | src/runtime/binary.rs:64-96 | Every proper prefix of accepted bytes is rejected |
| `Codec.CanonicalForm` | src/runtime/binary.rs:49-62 | Two accepted byte strings mean the same program exactly when they have the same re-encoding |
| `Codec.DecodedIsOk` | src/runtime/binary.rs:64-96 | Only representable, validated programs are decoded |
| `Codec.LastEntryCounts` | src/runtime/binary.rs:513-523 | Of several probe entries of one name the last counts; no other names are in the table |
| `Codec.TableOfEntries` | src/runtime/binary.rs:503-523 | Writing the probe table in name order and inserting the entries back gives the same table |
| `Codec.TableOfSize` | src/runtime/binary.rs:513-523 | The table read is never larger than its entries, and as large exactly when names are distinct |
| `Codec.CodeDefect` | src/runtime/binary.rs:141-192 | There is no defect exactly when every operand of every instruction is in range; that nothing else is refused is `DecodedRuns.AdmittedIffNothingPanics` |
| `Codec.Admit` | src/runtime/binary.rs:81-95 | Bytes left over are reported before operands are checked |
| `Codec.GetHeader` | src/runtime/binary.rs:66-73 | Accepted bytes start with `RUSO` and version 1 |
| `Wire.PutList` | src/runtime/binary.rs:767-772 | Every element takes at least a byte, so the count check never rejects what was written, and the list reads back |
| `Wire.GetList` | src/runtime/binary.rs:774-782 | What is read can be written in exactly the bytes consumed |
| `Wire.ListExtends` | src/runtime/binary.rs:774-782 | A list read gives the same value and consumption whatever follows |
| `Wire.GetOpt` | src/runtime/binary.rs:386-412 | What is read, whatever its tag byte, can be written in exactly the bytes consumed |
| `Wire.PutBytes` | src/runtime/binary.rs:291-295 | The length is cast to 32 bits; a shorter string reads back |
| `Format.PutObject` | src/runtime/binary.rs:697-703 | A nested body reads back, however deep, when its lengths and strings are representable |
| `Format.GetObject` | src/runtime/binary.rs:705-713 | What is read can be written in exactly the bytes consumed, however deep it nests |
| `Format.GetValue` | src/runtime/binary.rs:750-765 | The same for one value of a body |
| `Format.GetObjectExtends` | src/runtime/binary.rs:705-765 | Reading a nested body does not depend on the bytes after it |
| `Wire.GetCount` | src/runtime/binary.rs:423-431 | An accepted count never exceeds the bytes left |
| `Format.PutInstr` | src/runtime/binary.rs:1105-1204 | Every instruction reads back |
| `Format.GetInstr` | src/runtime/binary.rs:1206-1270 | What is read takes exactly its encoded size and has the opcode of the first byte, so the reserved opcodes are refused |
| `Layout.ProgramLayout` | src/runtime/binary.rs:49-62 | Every encoding is the letters RUSO, version 1, metadata, probes, then strings, payloads, matchers, extracts, evidence, and last the code as its count and the bytes of each instruction |
| `Layout.InstrLayout` | src/runtime/binary.rs:1105-1204 | The bytes of every instruction: opcodes 1-17 and 19-23 and the operands in order, low byte first |
| `Layout.LongLayout` | src/runtime/binary.rs:275-285 | Numbers are written with the low byte first, 64-bit ones as low word and high word |
| `Layout.UnknownTag` | src/runtime/binary.rs:64-96 | Any tag or opcode that is not written is refused, each with its own defect |
| `Layout.ShortInput` | src/runtime/binary.rs:351-431 | A number without its bytes, a length or count beyond the bytes left and text that is not UTF-8 are refused, each with its own defect |
| `Layout.HeaderRefused` | src/runtime/binary.rs:64-73 | The first five bytes decide between end of input, bad magic and bad version |
| `Encoder.Encode` | src/runtime/binary.rs:49-62 | The bytes built are the canonical encoding, probes in name order |
| `Encoder.WriteProbes` | src/runtime/binary.rs:503-511 | The table is appended in increasing name order, as the sorted entry list |
| `Encoder.SortNames` | src/runtime/binary.rs:504-505 | Sorting the keys gives them in byte order, each once |
| `Ordering.StrLeIff` | src/runtime/binary.rs:504-505 | One name stands before another when it is a beginning of it or has the smaller byte where they first differ |
| `Encoder.WriteObject` | src/runtime/binary.rs:697-703 | Appends exactly its encoding: count, then keys and values, recursively |
| `Encoder.WriteBodyValue` | src/runtime/binary.rs:715-748 | Appends exactly its encoding: tag 0-4 and content, recursively |
| `Encoder.WriteStrings` | src/runtime/binary.rs:767-772 | Appends exactly its encoding: count and strings |
| `Encoder.WritePayloads` | src/runtime/binary.rs:784-790 | Appends exactly its encoding: count and length-prefixed payloads |
| `Encoder.WriteCode` | src/runtime/binary.rs:1088-1093 | Appends exactly its encoding: count and instructions |
| `Decoder.Decode` | src/runtime/binary.rs:64-96 | Gives the program or the first error that decoding the bytes has |
| `Decoder.ValidateProgram` | src/runtime/binary.rs:114-193 | Accepts exactly when every operand is in range, which is exactly when nothing can panic (`DecodedRuns.AdmittedIffNothingPanics`), and otherwise reports the first defect; jump targets are not looked at |
| `Decoder.ValidateInstr` | src/runtime/binary.rs:141-191 | The first out-of-range operand of one instruction, checked in the written order |
| `Decoder.ReadProbes` | src/runtime/binary.rs:513-523 | Agrees with parsing the remaining bytes: a later entry of the same name replaces an earlier one |
| `Decoder.ReadObject` | src/runtime/binary.rs:705-713 | Agrees with parsing the remaining bytes: counted loop, recursion bounded by the bytes left |
| `Decoder.ReadBodyValue` | src/runtime/binary.rs:750-765 | Agrees with parsing the remaining bytes: five kinds; other tags refused |
| `Decoder.ReadStrings` | src/runtime/binary.rs:774-782 | Agrees with parsing the remaining bytes: counted loop |
| `Decoder.ReadPayloads` | src/runtime/binary.rs:792-804 | Agrees with parsing the remaining bytes: counted loop; an overlong payload has its own error |
| `Decoder.ReadCode` | src/runtime/binary.rs:1095-1103 | Agrees with parsing the remaining bytes: counted loop |
| `Binary.Reader.Need` | src/runtime/binary.rs:351-358 | Takes the next `n` bytes and moves past them, or reports the end |
| `Binary.Reader.Str` | src/runtime/binary.rs:376-384 | Refuses a length beyond the buffer before taking it, and bytes that are not UTF-8 |
| `Binary.Reader.BoundedCount` | src/runtime/binary.rs:423-431 | Refuses exactly the counts that exceed the bytes left |
| `Wire.FromLeToLe` | src/runtime/binary.rs:275-285 | Little-endian bytes of a number that fits read back as the number |
| `Instructions.SetThenExpand` | src/runtime/executor.rs:267-272 | What `set` binds is what a later placeholder of that name gives; other names give what they did |
| `Instructions.ExpandedInOrder` | src/runtime/executor.rs:275-279 | Templates of a range are expanded in order, each on its own; the first that fails gives the error |
| `Instructions.SetListMeaning` | src/runtime/executor.rs:273-282 | `set_list` binds exactly the list of its strings' expansions |
| `Instructions.SetListThenFor` | src/runtime/executor.rs:343-356 | A list that `set_list` bound is what a `for` over that variable goes through |
| `Instructions.ForMeaning` | src/runtime/executor.rs:329-356 | A `for` goes through the expansions of its strings or the list bound to its variable, none when unbound: it skips an empty list, else binds the first value, remembers the old binding and enters the body |
| `Instructions.LoopBackMeaning` | src/runtime/executor.rs:457-517 | `loop_back` binds the next value and returns to the head; after the last the variable is again what it was |
| `Instructions.IfMeaning` | src/runtime/executor.rs:322-328 | `if` enters its body exactly when no match has failed yet and its matcher holds |
| `Instructions.MatchMeaning` | src/runtime/executor.rs:785-849 | `match` lowers the latch and `assert` ends the run exactly when the matcher does not hold; both are passed over once the latch is down |
| `Instructions.MatchAllMeaning` | src/runtime/executor.rs:799-817 | `match_all` is decided by the first matcher of its range that does not hold |
| `Instructions.MatchAnyMeaning` | src/runtime/executor.rs:819-837 | `match_any` passes when some matcher of its range holds and none before it errs, and lowers the latch when every one is false |
| `Instructions.SaveMeaning` | src/runtime/executor.rs:359-364 | After `save` a matcher gives the same verdict under either name; every other target gives what it did |
| `Instructions.ExtractMeaning` | src/runtime/executor.rs:859-935 | What `extract` binds in every case, and each way it ends the run |
| `Instructions.EvidenceMeaning` | src/runtime/executor.rs:937-1012 | `evidence` adds the text shortened, or the nonempty capture of its pattern; an unmatched pattern ends the run |
| `Instructions.EvidenceRefused` | src/runtime/executor.rs:937-1012 | A missing response, a reply that is not HTTP and a missing header end the run, each with its error |
| `Contexts.Context.FromSpec` | src/runtime/context.rs:57-81 | A fresh context: nothing bound, latch and finding flag set, empty stack |
| `Contexts.Context.SetVariable` | src/runtime/context.rs:83-86 | Binds the variable, changes nothing else |
| `Contexts.Context.RestoreOrRemoveVariable` | src/runtime/context.rs:93-107 | The variable has the given value or absence, every other one is as before |
| `Contexts.Context.AliasResponse` | src/runtime/context.rs:117-121 | Copies a response that is there; otherwise nothing changes |
| `Contexts.Context.FinalizeFinding` | src/runtime/context.rs:127-135 | Sets the finding the run's state calls for, and takes the evidence when latch and flag are set |
| `Contexts.Context.InjectScanTargetVariables` | src/runtime/executor.rs:1015-1023 | Writes the scan target's variables over whatever the names held |
| `Contexts.Context.EnterForeach` | src/runtime/executor.rs:427-452 | Variables, stack and next program counter are those of the machine's loop entry |
| `Contexts.Context.StepLoopBack` | src/runtime/executor.rs:457-517 | Advances the top frame in place, or pops it and restores its variable, as the machine's step does |
| `Contexts.Context.StepBreak` | src/runtime/executor.rs:521-529 | Pops the frame and restores its variable, as the machine's step does |
| `Contexts.Context.StepContinue` | src/runtime/executor.rs:532-538 | Jumps to the innermost `loop_back`, changing nothing |
| `Execution.RunBytecode` | src/runtime/executor.rs:233-422 | A closed endpoint skips the run; otherwise the result reports the machine run's outcome, finding and variables |
| `Execution.MainLoop` | src/runtime/executor.rs:257-407 | The `while` loop over the mutable context computes the machine's run under the same budget |
| `Execution.OneTurn` | src/runtime/executor.rs:266-405 | One turn is one step of the machine, for every instruction |
| `Execution.ExpandAll` | src/runtime/executor.rs:273-282 | Collecting expanded values stops at the first template that fails |
| `Execution.DoFor` | src/runtime/executor.rs:329-356 | Collecting the values and entering the loop is the machine's `for` step |
| `Execution.SendProbe` | src/runtime/executor.rs:569-669 | Result and whole state after a send, failed or not, are the machine's, of which `Runs.SendIsOneExchange` and `Replies.StoredIsLastReply` say what is stored |
| `Execution.ExchangeData` | src/runtime/executor.rs:671-757 | A kept session is reused, a new one remembered only after it answered |
| `Execution.DoRetrySend` | src/runtime/executor.rs:759-783 | The retry loop computes the attempts of the specification, stopping at the first success |
| `Execution.ApplyMatch` | src/runtime/executor.rs:785-797 | Skipped when the latch is down; otherwise lowers it exactly when the matcher fails |
| `Execution.ApplyMatchAll` | src/runtime/executor.rs:799-817 | The same for all of a range |
| `Execution.ApplyMatchAny` | src/runtime/executor.rs:819-837 | The same for any of a range |
| `Execution.RequireAssert` | src/runtime/executor.rs:839-849 | Aborts exactly when the latch is up and the matcher fails or errs |
| `Execution.DoExtract` | src/runtime/executor.rs:859-935 | Binds the extracted value when the latch is up |
| `Execution.DoEvidence` | src/runtime/executor.rs:365-375 | Appends the collected text when the latch is up |
| `Precheck.EndpointsForRun` | src/runtime/port_cache.rs:63-99 | The TCP probes' normalised endpoints and, with an HTTP probe, the scan target's, sorted, each once, whatever order the table is walked in |
| `Precheck.CheckForRun` | src/runtime/port_cache.rs:102-124 | Every endpoint is probed in order; the one reported is the first found closed |
| `Precheck.DedupeEndpoints` | src/runtime/port_cache.rs:210-214 | The elements in increasing order, each once |
| `Precheck.RequiredIff` | src/runtime/port_cache.rs:63-99 | An endpoint is checked if and only if some TCP probe with a port goes there or, when there is an HTTP probe, it is the target's, port 443 or 80 when its URL names none |
| `Precheck.ResolveNeverFallsBack` | src/runtime/port_cache.rs:68-70 | Filling in the scan variables never fails, so the fallback to the raw host is never taken |
| `Precheck.FirstClosedUnique` | src/runtime/port_cache.rs:102-124 | At most one answer satisfies what the check promises |
| `Agreement.SendsWerePrechecked` | src/runtime/executor.rs:617-634 | In every run, every TCP connection of a probe whose host's variables no instruction binds - also one whose failure aborts the run - goes to a normalised host and port that was pre-checked |
| `Agreement.SameHost` | src/runtime/port_cache.rs:63-70 | Such a host resolves at send time exactly as it did for the check |
| `Agreement.StepAgrees` | src/runtime/executor.rs:251-407 | One step keeps the unbound variables at their injected values and the wire within the checked endpoints |
| `WholeRuns.UnskippedConnectsToOpen` | src/runtime/executor.rs:233-249 | In a run that was not skipped, at every step and in the send that aborts it, every TCP connection of such a probe goes to an endpoint whose check answered open |
| `Targets.InjectedEqualsPrechecked` | src/runtime/port_cache.rs:180-196 | The variables of the check are those injected into a run, all of them strings |
| `Targets.ScanVariables` | src/runtime/port_cache.rs:166-196 | The variables of a run: the URL unless empty, and when it has a host that host normalised and the port in decimal, 443 for `https` and 80 otherwise when none is given |
| `Targets.NormalMeaning` | src/runtime/port_cache.rs:201-208 | An address is written canonically whatever brackets stand around it; any other host keeps everything but the case of its ASCII letters |
| `Targets.CaseDoesNotMatter` | src/runtime/port_cache.rs:201-208 | Any case of a host name normalises alike |
| `Targets.BracketsDoNotMatter` | src/runtime/port_cache.rs:201-208 | An address literal normalises alike with and without brackets |
| `Targets.DecimalRoundTrip` | src/runtime/port_cache.rs:184-187 | The text of `scan_port` is the port's decimal number |
| `PortCache.EveryInterleaving` | src/runtime/port_cache.rs:130-163 | However concurrent calls interleave: at most 4096 entries, each the last insertion under its key, all at least as recent as the last check of every displaced key; every answer was inserted by some call, within 30 s when it came from the cache |
| `PortCache.StepKeeps` | src/runtime/port_cache.rs:130-163 | One atomic step of any call keeps all of that |
| `PortCache.NothingForgotten` | src/runtime/port_cache.rs:146-155 | While at most 4096 distinct endpoints were probed, none is ever displaced |
| `PortCache.FreshIsServed` | src/runtime/port_cache.rs:133-140 | A lookup that finds an entry younger than 30 s is served from it, open or closed |
| `PortCache.ProbesAreSpaced` | src/runtime/port_cache.rs:130-163 | While calls for an endpoint do not overlap and it is not displaced, it is never probed twice within 30 s |
| `PortCache.NewestIsSafeIff` | src/runtime/port_cache.rs:130-163 | In any reachable state: every continuation without further overlap keeps the newest stored result for a key in the cache if and only if at most one call for it is in flight and neither its result nor the entry has been overtaken |
| `PortCache.BeginningIsSafeIff` | src/runtime/port_cache.rs:130-142 | After calls for a key that did not overlap, beginning one that misses keeps the entry equal to the newest probe's result in every such continuation if and only if no other call for the key is in flight |
| `PortCache.NewestWinsAlone` | src/runtime/port_cache.rs:130-163 | When calls for one key never overlap, its entry is the newest probe's result |
| `PortCache.NewestIsLastAnswer` | src/runtime/port_cache.rs:142-162 | Once no result waits, the newest stored result is the newest answer and the entry says it |
| `PortCache.OverlapCanFail` | src/runtime/port_cache.rs:142-162 | Two calls for one key in flight, in whatever state, can finish so that the older result stays |
| `PortCache.NeverSafeWithOverlap` | src/runtime/port_cache.rs:130-163 | From any state, further calls that do overlap can lose the newest result |
| `PortCache.OlderProbeCanWin` | src/runtime/port_cache.rs:142-162 | A run after which no call is in flight and the cache says the opposite of the newest answer |
| `PortCache.Cache.Lookup` | src/runtime/port_cache.rs:133-140 | A hit exactly when there is an entry younger than the time to live, and then its state, open or closed |
| `PortCache.Cache.OldestKey` | src/runtime/port_cache.rs:148-151 | The scan finds an entry no other is older than; none exactly when the cache is empty |
| `PortCache.Cache.Store` | src/runtime/port_cache.rs:143-161 | Displaces an oldest entry exactly when the cache is full and the key new, then inserts |
| `PortCache.Cache.GetState` | src/runtime/port_cache.rs:130-163 | One call alone: an entry under the normalised key younger than 30 s is the answer and nothing changes; otherwise the probe's answer is given and inserted |

## Left out

- Socket, TLS and HTTP traffic: replies and failures are the oracle's answers.
- Vm.SendProbe: the building of an HTTP request, with the expansion of its fields and the error when one is a list, is part of the oracle's answer, because bodies, multipart forms and URL joining are glue over libraries.
- Execution.SendProbe: likewise for HTTP probes.
- Runs.SendIsOneExchange: an HTTP exchange stands for a request together with its automatic retries.
- Waiting: `sleep`, the delay between retries and connect timeouts take no time in the model.
- Wall-clock time: the budget counts instructions, and the cache's clock is a number that never decreases; a run without a budget is one whose budget is large enough.
- The regex engine, `Url::parse`, `IpAddr` parsing, `parse_duration`, `truncate_str` and lossy decoding: unknown functions; nothing is claimed about what they compute.
- Narrowing of huge durations to 64 bits inside `compare_duration_ms`: the parser's result is taken as already narrowed.
- Error messages and tracing: an error is a constructor with its subject, not a text.
- Report fields other than the finding's presence, name and evidence: copied from the metadata.
- Header maps of HTTP responses are searched in a given order; which of two names differing only in case comes first is not modelled.
- Sorting uses insertion in place of the library's sort; the result is specified and does not depend on it.
- Hex helpers, the disassembler, request bodies and URL joining: glue over libraries, easy to state.
- `TooShort`, an error the decoder never returns.
- Termination and the loop-stack invariant for code that is not well nested: validation accepts arbitrary jump targets.
- Loop variables on `stop` and `exit` inside a loop: the code does not unwind frames there.
- Refinement.WellNestedRun: says nothing about budgets below the bound, where a run may end with the budget error.
- Expansion.RewritePreservesRuns: for relocated addresses below 2^32, since a jump target has 32 bits.
- Agreement.SendsWerePrechecked: a connection reused from an open session is recorded with the host of the send, the code opens none.
- PortCache.Cache.GetState: one call without others between its critical sections; the interleavings are the state machine's.
- Context.sessions holds the transport of an open session, not the connection.
- The documentation of `Instr::Send` speaks of the string or payload pool for its payload; the code uses the payload pool only, and so does the model.
- Precheck.CheckForRun: takes what the cache answers for each endpoint as given, because the cache may be shared with other runs.
- `format_socket_addr`: used only to open connections.
- Replies.StoredIsLastReply: says nothing about names a `save` writes to; what one `save` does is `Instructions.SaveMeaning`.
- Replies.SessionDataIsConcatenation: likewise.
- PortCache.ProbesAreSpaced: overlapping calls, and an endpoint that was displaced, may probe again sooner; the code promises nothing there.
