# Verified models of four cores

This project models four parts of Nmap in Dafny and proves what they are for. `dafny verify dfyconfig.toml`
checks all of it.

- **The LPeg compiler and matching machine** (`lpeg.c`, modules `Lpeg*`). A pattern is a tree; `LpegTree.Eval`
  says what it means (parsing expression grammars, with captures, rules and grammars). The static analyses,
  the optimising code generator, the closing of calls, the peephole pass and the backtracking machine with its
  stack of pending choices are modelled as the code does them. The main theorem says what compiling and running
  gives, for every pattern, and exactly when that is the meaning: `LpegTheorem.CompilerCorrect` with
  `LpegTheorem.AnswerExact` and, for the code as it runs, `LpegMatch.CompileAndMatch`. Beside it stand termination of accepted grammars, the exact meaning of the
  grammar checks, the stack discipline, the capture list, and the flat arrays trees are built and rearranged in. The
  analyses that steer the optimisations are not only sound: `LpegExact` and `LpegLayouts` say exactly what they answer and
  exactly when each layout is used.
- **The streaming JSON writer** (`json.cc`, modules `Json*`). `JsonGrammar` is a reference parser for RFC 8259.
  Whatever XML events are mirrored and wherever the scan is interrupted, the document that comes out is one JSON
  text (`JsonStream.Interrupted`), in line mode every line is (`JsonStream.LineModeInOrder`), the document is
  laid out as promised (`JsonStream.DocumentOf`) and says what converting the whole tree says, exactly where its
  containers do (`JsonBatch.StreamingIsBatch`). `JsonKept.Account` says what of all that is reported reaches the value. `JsonWriter.Writer` is the writer itself, over elements in memory, and emits
  exactly that text piece by piece.
- **The IPv6 OS detection host** (`FPEngine.cc`, modules `Fp*`): a host that wraps up has its best timed round in every
  interleaving of scheduling, transmission and responses, and the retransmission timeout stays bounded. `FpEngine` shows
  when the engine's loop sees that a host is done, and when it takes it away too early or never.
- **The idle scan** (`idle_scan.cc`, modules `Idle*`): the recursive search reports exactly what it has set open
  whatever the zombie counts; it is right when the zombie counts right and also when it misses whole slices the first time,
  because every half that was not searched is counted again; and no chunk is empty for exactly the options that 16 bits
  do not cut to 0.

The form follows the source: analyses and code layouts are functions; the code generator, the passes, the machine,
the writer, the host, the timer and the scan are classes and methods that change state, each proved against such a
function.

## How the compiler theorem is put together

`LpegCode.Gen` is the code of a tree, layout by layout, and `LpegActual.Act` what that code does, as a function of the
tree. `LpegPlace` says when code stands at a place in a program whose calls are closed, `LpegCorrect.Sim` is the
simulation: from any place where the code of a pattern stands, the machine reaches the same end as from behind it with
the match of `Act`, or as from the failure of the stack with its failure. It assumes what the generator assumes: that the
test before the code passed, that behind the code any character outside the follow set fails, and with `opt` that the
top of the stack is a choice. `LpegCompiler.Compile` builds the same code in place and its peephole pass only makes
changes that `LpegPeephole.RewritePreserves` allows.

The code departs from the meaning of a pattern in two places. Both are part of `Act`, so that the theorem holds for all
patterns; there is an exact condition, for the first loop by loop, for the second match by match, and for both a
condition on the pattern that is enough:

- `lpeg.c:1656` passes `opt` into the body of a loop that is coded with a test. An optional pattern at the end of the
  body then leaves the loop where it should go on with the next round. A loop that is left does what it means if and only
  if its test fails there (`LpegActual.LeaveExact`), and where all loops that are left do, the code finds the match
  (`LpegActual.StaysAgree`). None is left if no body is coded differently under `opt`: `LpegPremise.TailsSafe`, with
  `LpegPremise.OptTailExact`. `LpegOptBug.OptTailBreaks` gives patterns that stop early.
- `lpeg.c:1046-1063`: `hascaptures` does not follow calls, so a capture that is recorded in one instruction, or a
  look-ahead that looks behind, may have a body with captures after all. `LpegCoded.Coded` is the meaning with the
  captures as they are then recorded. It differs from the meaning in captures only (`LpegCoded.SameEnd`); the capture
  list is right if and only if no such body recorded anything in the match (`LpegCoded.ListExact`). Patterns from whose
  such bodies no capture is reachable through calls, `LpegCoded.CapsSafe`, are right on every subject
  (`LpegCoded.SafeIsMeant`); `LpegOptBug.CallHidesCaptures` is one that is not.

Two more concern termination. `lpeg.c:3083-3084` drops the inherited nullable flag for a nested grammar, so
`verifygrammar` accepts a grammar that never ends (`LpegHalts.NestedEscapes`). `LpegVerify.Lost` says exactly when the
flag of the walk is wrong, and a grammar has bounded left calls if and only if it is accepted and what the walk leaves
out for that reason has them bounded (`LpegVerify.Covered`, `LpegVerify.VerifyGrammarExact`). And `lp_behind`
(`lpeg.c:2746-2757`) builds look-behinds with calls in them, under predicates, which `verifyrule` never enters:
`LpegHalts.BehindEscapes` is an accepted grammar that never ends, `LpegHalts.FirstWalkEscapes` one on which computing
the first set does not end. The halting theorems, and with them `CompilerCorrect`, ask for `LpegHalts.BehindsEnd`: no
rule gets back to itself through a call inside a look-behind. That holds where no look-behind holds a call
(`LpegHalts.NoBehindCallsEnd`), and exactly where there is no such cycle (`LpegLoaded.BehindsEndExact`). The simulation and `ProgramCorrect` do not need it.

## Notes on the source

- `json.h` promises that invalid bytes become U+FFFD "so that the result is always a well-formed JSON string"; that is
  `JsonQuoting.ParseEscaped`, and a byte is invalid exactly when RFC 3629 gives it no character
  (`JsonQuoting.LegalIsUtf8`).
- `json.cc:580-581` says that nothing an element reported is dropped. `JsonConvert.NseLosesNothing` shows when that is
  so for the texts of elems: not when one stands under the key `_` beside siblings without a key, because `json.cc:648`
  overwrites it. The text of a table, text beside structure in a script, and what an elem holds are dropped without
  exception (`JsonConvert.TextDropped`). `JsonKept.Dropped` names all that is dropped of any element, and `JsonKept.Account`
  shows that nothing else is.
- `json.cc:816` gives each record of line mode a type. An attribute or a child of that name takes its place:
  `JsonKept.TypeKept`.
- `idle_scan.cc:1227-1228` and `1252-1253` can never run: `flatcount1` and `flatcount2` have just been set to
  `retrycount`, so one of them cannot be 1 where the other is 0. They are not in the model.
- `json.cc:977-982` writes every child of a container as an array, `json.cc:684` converts only the children that are always
  arrays to one. `JsonBatch.ContainerDiffers` shows an input, `JsonBatch.ContainerExact` when it makes no difference.
- `FPEngine.cc:2186` asserts that the number of answers does not become negative; `FpRounds.Host.Retransmit` proves it.
- `FPEngine.cc:1918-1924` counts a probe twice that is given up and answered afterwards. Then `done` may never hold, and
  `os_scan` goes on for ever (`FpEngine.LateAnswer`, `FpEngine.Drive`, `FpEngine.DoneExact`).
- `FPEngine.cc:1166-1184` removes a host that is done without calling `set_done_and_wrap_up`, which only `schedule` and
  `callback` do. If the last probes were given up, the best timed round is not restored (`FpEngine.BestRoundDropped`).
- `idle_scan.cc:116-117` keeps the limits of the group size in 16 bits, and the options may be larger: see
  `IdleTiming.CutOptions` and `IdleTiming.ScanSticks`.

## Model

| member | source | states |
|---|---|---|
| LpegTree.EvalMoreFuel | lpeg.c:3486-3628 | A pattern that has an answer has the same answer for every larger allowance of rule calls and loop rounds, so the meaning is one function of pattern, subject and position. |
| LpegAnalysisSound.NullableSound | lpeg.c:1084-1118 | A pattern that matches the empty string is nullable. |
| LpegAnalysisSound.NofailSound | lpeg.c:1084-1118 | A nofail pattern fails on no subject at no position. |
| LpegAnalysisSound.NofailIsNullable | lpeg.c:1084-1118 | What cannot fail is also nullable, however far calls are followed for the one and for the other. |
| LpegExact.NullableExact | lpeg.c:1084-1118 | A pattern without unbounded left calls is nullable if and only if it matches the empty subject once all its predicates are taken to pass. |
| LpegExact.NofailExact | lpeg.c:1084-1118 | Such a pattern is nofail if and only if it matches the empty subject once all its negations and look-behinds are taken to fail. |
| LpegAnalysisSound.FixedlenSound | lpeg.c:1125-1158 | Every match of a pattern of fixed length n consumes exactly n characters. |
| LpegExact.FixedlenExact | lpeg.c:1125-1158 | A pattern has the fixed length n if and only if n is the one length it can take, where a choice takes what either side takes, a sequence takes sums, predicates take nothing, and repetitions and calls nested more than 200 deep take no known length. |
| LpegAnalysisSound.FirstSound | lpeg.c:1175-1250 | A match that consumes starts with a character of the first set; one that does not, with that or a character outside the follow set; with return 0 there is no match at the end of the subject. |
| LpegAnalysisSound.NofailFirst | lpeg.c:1175-1250 | For a pattern that cannot fail the first set under the full follow set is full, and return 1 says that it may match at the end of the subject. |
| LpegExact.FirstExact | lpeg.c:1175-1250 | The first set has exactly the characters that the pattern can begin by taking and those of the follow set that it can leave to what follows; the flag says exactly whether it can match at the end of the subject. |
| LpegAnalysisSound.HeadfailExact | lpeg.c:1257-1279 | A headfail pattern succeeds exactly when the next character is in its first set with the full set as follow set. |
| LpegAnalysisSound.HeadfailNotEmpty | lpeg.c:1257-1279 | For a headfail pattern the first set is computed with return 0. |
| LpegExact.HeadfailShape | lpeg.c:1257-1279 | A pattern is headfail if and only if every way through its choices starts with a test of one character and goes on with patterns that are nofail. |
| LpegExact.NeedfollowExact | lpeg.c:1287-1302 | A follow set is asked for if and only if the pattern ends in a choice or a repetition. |
| LpegExact.CapturesExact | lpeg.c:1046-1063 | A pattern has captures if and only if one of its parts is one; calls are not followed. |
| LpegCharset.CharsetTypeOf | lpeg.c:955-994 | The loop over the 32 bytes classifies a bitmap as failing on all, one given character, any, or a set, exactly by the characters it holds. |
| LpegVerify.CheckauxSaturates | lpeg.c:1084-1118 | Where no chain of left calls is longer than allowed, chasing calls further does not change nullable or nofail. |
| LpegVerify.FirstSaturates | lpeg.c:1175-1250 | Where no chain of left calls is longer than allowed, chasing calls further does not change first sets. |
| LpegVerify.HeadfailSaturates | lpeg.c:1257-1279 | Where no chain of left calls is longer than allowed, chasing calls further does not change headfail. |
| LpegVerify.VerifyRuleExact | lpeg.c:3047-3087 | A pattern has no chain of left calls longer than the rules still allowed if and only if the walk accepts and covers it, that is, what it does not enter because a nested grammar made it forget the flag has none either; the flag it returns is the given one or the nullability of the pattern if and only if it was not forgotten (Lost). Grammars inside rules were accepted before. |
| LpegVerify.LeftRecursionExact | lpeg.c:3020-3085 | No rule that a rule reaches by left calls reaches itself if and only if the walk accepts and covers it, and what is rejected is always left recursive; that at most 200 calls are counted makes no difference. |
| LpegVerify.BoundedExact | lpeg.c:3020-3085 | Left calls from a rule are bounded exactly when no rule reached by left calls reaches itself; grammars inside rules were accepted before. |
| LpegVerify.ReportedRecursive | lpeg.c:3020-3085 | The rule named in the error is left recursive: left calls lead to it and back to it. The other error, of too many left calls, needs a grammar with 200 rules. |
| LpegVerify.CheckLoopsExact | lpeg.c:3008-3025 | The loop check passes exactly when no loop outside nested grammars, which were accepted before, has a nullable body. |
| LpegVerify.VerifyGrammarExact | lpeg.c:3090-3108 | A grammar has bounded left calls and loops with bodies that consume if and only if it is accepted and its walks cover it; its rules may hold grammars that were accepted before. |
| LpegVerify.FlatGrammarExact | lpeg.c:3090-3108 | Without grammars inside rules all is covered: acceptance is exactly that left calls are bounded and loops have bodies that consume. (Calls inside look-behinds are no left calls: see BehindEscapes.) |
| LpegLoaded.GrammarsLoadedExact | lpeg.c:3124-3142 | The grammars of a pattern count as loaded if and only if each of them, however deep, was accepted and its walks cover it. |
| LpegLoaded.LoadedExact | lpeg.c:2638-2660 | A pattern counts as loaded if and only if its grammars do and no loop outside them has a nullable body. |
| LpegLoaded.BehindsEndExact | lpeg.c:2746-2757 | The premise about look-behinds holds if and only if in no grammar of the pattern a rule gets back to itself through a call inside a look-behind. |
| LpegLoaded.StarLoads | lpeg.c:2638-2668 | p^n is loaded and well formed if and only if p is, and p is not nullable where n is at least 0. |
| LpegLoaded.PairsLoad | lpeg.c:2598-2636 | Sequences, choices and differences of loaded patterns are loaded. |
| LpegLayouts.BehindBuilds | lpeg.c:2746-2756 | A pattern without captures that can take one length only may be looked behind at if and only if that length is from 1 to 255. |
| LpegHalts.CallFreeHalts | lpeg.c:3008-3018 | A call-free pattern with consuming loop bodies has an answer on every subject; its grammars are accepted and their look-behinds end. |
| LpegHalts.RuleHalts | lpeg.c:3047-3110 | Every part of every rule of an accepted grammar has an answer on every subject, if no rule gets back to itself through a call inside a look-behind. |
| LpegHalts.LoadedHalts | lpeg.c:3047-3110 | Every pattern whose grammars, also those inside rules, the loader accepted by walks that cover them has an answer on every subject from every position, if no rule gets back to itself through a call inside a look-behind. |
| LpegHalts.NestedEscapes | lpeg.c:3083-3084 | A grammar inside a rule that always consumes makes the walk lose the flag, and so accept a grammar that has no answer, however much is allowed; its walk is not covered. |
| LpegHalts.HarmlessLoss | lpeg.c:3083-3084 | Forgetting the flag does no harm in S <- !{a} b, with a grammar in braces: nothing is called behind it, and the pattern is among those that halt. |
| LpegHalts.BehindEscapes | lpeg.c:2746-2757 | The grammar S <- B(. !S), which looks one character behind, is accepted, is flat and covered, and has no answer at position 1, however much is allowed: lp_behind does not look for calls and the walk does not enter look-behinds. |
| LpegHalts.NoBehindCallsEnd | lpeg.c:2746-2757 | If no look-behind holds a call, no rule gets back to itself through one. |
| LpegHalts.FirstEnds | lpeg.c:1175-1250 | The walk that computes first sets, which does enter look-behinds, ends on every part of an accepted grammar, if no rule gets back to itself through a call inside a look-behind. |
| LpegHalts.FirstWalkEscapes | lpeg.c:1238-1248 | For the accepted grammar S <- B(!S .) that walk does not end. |
| LpegPremise.OptTailExact | lpeg.c:1544-1585 | The code of a pattern depends on its opt flag exactly when the syntactic test says so. |
| LpegActual.StaysAgree | lpeg.c:1428-1809 | The code finds what is recorded for the meaning of the pattern if, in the course of the match, a loop is left through the choice above it only where its test would end it too. |
| LpegActual.LeaveExact | lpeg.c:1643-1680 | A loop that is left through the choice above it, where its body does what it means, does what it means if and only if its test fails there. |
| LpegActual.TailsStay | lpeg.c:1643-1680 | In patterns no loop body of which is coded differently under opt, no loop is left too early, on any subject. |
| LpegActual.NoTailSame | lpeg.c:1544-1681 | Where the code does not depend on opt, it does the same with it, and does not leave. |
| LpegActual.ActNullable | lpeg.c:1084-1118 | The code of a pattern that is not nullable does not succeed without consuming, also where it leaves a loop early. |
| LpegActual.ActNofail | lpeg.c:1084-1118 | The code of a nofail pattern does not fail. |
| LpegActual.ActFixedlen | lpeg.c:1125-1158 | The code of a pattern of fixed length n consumes exactly n characters. |
| LpegActual.ActFirst | lpeg.c:1175-1250 | First sets announce where the code of a pattern succeeds, under every follow set it was generated for. |
| LpegActual.ActHeadfail | lpeg.c:1257-1279 | The code of a headfail pattern succeeds exactly when the next character is in its first set. |
| LpegActHalts.LoadedActs | lpeg.c:3047-3110 | The code of every loaded pattern whose look-behinds end comes to an end on every subject from every position. |
| LpegActHalts.RuleActs | lpeg.c:3047-3110 | The code of every part of every rule of an accepted grammar whose look-behinds end comes to an end. |
| LpegCoded.SameEnd | lpeg.c:1428-1809 | What the code records differs from the meaning in captures only: the pattern matches, fails and ends alike. |
| LpegCoded.HonestExact | lpeg.c:1428-1809 | The captures recorded for a match are those it means if and only if every capture in one instruction, every look-ahead by looking behind and every look-behind that takes part had a body that recorded none. |
| LpegCoded.ListExact | lpeg.c:1046-1063 | The capture list left for a match is the list of the captures it means if and only if the match is honest in that sense; the list determines the captures. |
| LpegCoded.OneInstructionExact | lpeg.c:1611-1623 | A capture in one instruction leaves the right list if and only if its body recorded nothing. |
| LpegCoded.LookBehindExact | lpeg.c:1587-1603 | A look-ahead by looking behind leaves the right list if and only if its body recorded nothing. |
| LpegCoded.CapturelessSound | lpeg.c:1046-1063 | A pattern from which calls reach no capture means none and records none. |
| LpegCoded.SafeIsMeant | lpeg.c:1046-1063 | Where no capture is reachable through calls from the bodies for which the generator asks hascaptures, the code records what the pattern means, on every subject. |
| LpegCoded.CapturedCallIsSafe | lpeg.c:1046-1063 | A grammar with a capture around a call to a rule without captures and calls, such as S <- {A}, A <- a, meets CapsSafe. |
| LpegCoded.QuietIsSafe | lpeg.c:1046-1063 | Patterns without captures under rules without captures meet CapsSafe. |
| LpegCoded.CallFreeIsSafe | lpeg.c:1046-1063 | Patterns without calls of their own, whatever they capture, meet CapsSafe if their grammars do. |
| LpegPlace.GrammarPlaced | lpeg.c:1710-1752 | In the code of a grammar the calls that are closed lead to the rules they name, and each rule stands where its position says. |
| LpegPlace.CorrectCallsDone | lpeg.c:1710-1727 | After the pass no open call is left. |
| LpegPlace.RawPlaced | lpeg.c:1734-1750 | The code of a rule stands in the grammar code with its calls resolved to the positions of all rules. |
| LpegCorrect.Sim | lpeg.c:1428-1809 | From where the code of a pattern stands the machine ends as Act says: as from behind it with the match and the captures as recorded, or where the choice above resumes, or as from the failure of the pending choices; for every pattern, grammar, test, follow set, opt flag, stack and capture list the generator allows. |
| LpegCorrect.SimChoiceOpt | lpeg.c:1544-1585 | An optional pattern under a choice that is renewed goes on, or leaves through that choice. |
| LpegCorrect.SimChoiceTest | lpeg.c:1544-1585 | A choice whose branches start with different characters needs no backtracking. |
| LpegCorrect.SimChoiceFull | lpeg.c:1544-1585 | A choice with a pending alternative, with or without a test in front, goes on behind it; an optional first pattern may leave to the same place. |
| LpegCorrect.SimLoopTest | lpeg.c:1643-1679 | A loop left by a test makes its rounds, and ends where its body leaves through the choice above. |
| LpegCorrect.SimLoopChoice | lpeg.c:1643-1679 | A loop with partial commits makes its rounds and ends behind them, or through the choice above if it renews that one. |
| LpegCorrect.SimSpan | lpeg.c:1643-1679 | A span consumes what repeating its set consumes. |
| LpegCorrect.SimNot | lpeg.c:1689-1703 | The code of a negated pattern, by test or by choice and double failure, fails where that of the pattern succeeds, and the reverse. |
| LpegCorrect.SimAnd | lpeg.c:1587-1603 | A look-ahead leaves the position as it was; by back commit it leaves the captures too, by looking behind it leaves what its body recorded. |
| LpegCorrect.SimBehind | lpeg.c:1526-1530 | A look-behind matches the characters before the position. |
| LpegCorrect.SimCapture | lpeg.c:1611-1623 | A capture in a pair records itself with what its body recorded inside; one in a single instruction records itself behind that. |
| LpegCorrect.SimSeq | lpeg.c:1765-1782 | A sequence passes the test and the follow set on as its parts may use them. |
| LpegCorrect.SimCall | lpeg.c:1710-1727 | A rule call, or the jump it became at the end of a rule, goes on behind the call as the rule matches. |
| LpegCorrect.SimGrammar | lpeg.c:1734-1750 | The code of a grammar matches as its first rule. |
| LpegLayouts.ChoiceByTestExact | lpeg.c:1528-1550 | A choice is coded with a test alone if and only if one character decides its first pattern, or that pattern needs a character and no character can start both. |
| LpegLayouts.LoopByTestExact | lpeg.c:1635-1655 | A loop is coded with a test alone if and only if one character decides its body, or the body needs a character and no character can start both the body and what follows. |
| LpegLayouts.FixedExact | lpeg.c:1584-1620 | A look-ahead looks behind, and a capture takes one instruction, if and only if the body can take one length only, at most 255 or 15, and no part of it is a capture. |
| LpegLayouts.FollowExact | lpeg.c:1765-1777 | The first pattern of a sequence that ends in a choice or a repetition gets exactly the characters with which the second one, or what follows that, can start; any other gets all. |
| LpegLayouts.TestExact | lpeg.c:1481-1502 | There is a test if and only if a character is needed, and exactly those of the set pass it. |
| LpegLayouts.CharsetExact | lpeg.c:1455-1472 | A set is coded as an any if and only if it is full or is the set just tested. |
| LpegLayouts.CostExact | lpeg.c:1520-1700 | The code of every pattern has exactly the number of instructions, and of choices pushed, that its layouts need: a choice or loop decided by a test pushes none, nor does one that uses the choice above it. |
| LpegLayouts.TailCallsJump | lpeg.c:1710-1727 | A call with nothing but jumps between it and a return becomes a jump. |
| LpegCompiler.CompileState.CodeChar | lpeg.c:1428-1434 | Appends the code for a character, an any after a dominating test. |
| LpegCompiler.CompileState.CodeCharset | lpeg.c:1455-1472 | Appends the code for a set, an any after a test for the same set. |
| LpegCompiler.CompileState.CodeTestset | lpeg.c:1481-1502 | Appends the test for a first set, none if the pattern may match the empty string. |
| LpegCompiler.CompileState.FinalTargetOf | lpeg.c:1508-1512 | The loop over unconditional jumps ends at the target the specification names, when there is no cycle of them. |
| LpegCompiler.CompileState.Codegen | lpeg.c:1784-1809 | Appends exactly the code of the pattern to what is there and changes nothing before it. |
| LpegCompiler.CompileState.CodeChoice | lpeg.c:1544-1579 | Appends the code of a choice in the layout the first sets allow. |
| LpegCompiler.CompileState.CodeRep | lpeg.c:1637-1681 | Appends the code of a repetition in the layout the first set and the opt flag allow. |
| LpegCompiler.CompileState.CodeNot | lpeg.c:1689-1703 | Appends the code of a negation. |
| LpegCompiler.CompileState.CodeAnd | lpeg.c:1587-1603 | Appends the code of a look-ahead. |
| LpegCompiler.CompileState.CodeCapture | lpeg.c:1611-1623 | Appends the code of a capture. |
| LpegCompiler.CompileState.CodeGrammar | lpeg.c:1734-1750 | Appends the call of the first rule, the rules and the jump over them, with closed calls. |
| LpegCompiler.CompileState.CloseCalls | lpeg.c:1710-1727 | The in-place pass over the range turns every open call into the call or the tail jump of the specification. |
| LpegCompiler.CompileState.Peephole | lpeg.c:1821-1860 | The in-place pass leaves code whose runs end as before and need stacks of the same depth. Afterwards no label leads to a jump, and no jump leads to a return, a failure, an end or a commit. |
| LpegCompiler.Compile | lpeg.c:1866-1875 | The runs of the compiled code end as those of the code of the pattern followed by an end, and need stacks of the same depth; no label in it leads to a jump, and no jump to what could stand in its place. |
| LpegPeephole.SettlesSoon | lpeg.c:1508-1512 | On code without a cycle of unconditional jumps the chase ends at an instruction that is no jump. |
| LpegPeephole.RewritePreserves | lpeg.c:1821-1860 | One step of the pass keeps the outcome from every instruction and every state on every subject. |
| LpegPeephole.RewriteKeepsDepth | lpeg.c:1821-1860 | One step of the pass keeps the depth of the stack that any run needs, from every state on every subject. |
| LpegPeephole.RewriteTidy | lpeg.c:1821-1860 | One step of the pass leaves code without jump cycles. |
| LpegTidy.GenTidy | lpeg.c:1428-1809 | No label in the code of a pattern leads into a cycle of unconditional jumps. |
| LpegTidy.ProgramTidy | lpeg.c:1866-1876 | The code the peephole pass gets has no cycle of unconditional jumps. |
| LpegTheorem.ProgramCorrect | lpeg.c:1428-1809 | Whenever the code of a pattern comes to an end, the machine ends on it with the end of the match and the captures that Act gives, or gives up if it fails. |
| LpegTheorem.CompilerCorrect | lpeg.c:1428-1876 | Every loaded pattern, if no rule gets back to itself through a call inside a look-behind, has an answer and its code comes to an end, and a run of its compiled code ends with exactly that and with nothing else. |
| LpegTheorem.AnswerExact | lpeg.c:1428-1809 | That end is the answer of the pattern, failure or the right end position, wherever no loop is left too early; then the capture list is right if and only if the match is honest. On every subject both hold for the patterns with TailsSafe and CapsSafe. |
| LpegTheorem.OneEnd | lpeg.c:3486-3628 | A run has at most one end. |
| LpegTheorem.StackDiscipline | lpeg.c:3506-3611 | In no run of the compiled code of a loaded pattern whose look-behinds end does a reachable state break what the assertions of the interpreter say: end sees the give-up frame, return a call, commits a choice. |
| LpegOptBug.OptTailBreaks | lpeg.c:1643-1680 | For all characters d, e, a, b, c with b different from a and c, the pattern (de(a(ac)?)*)? matches four characters of deaab and the machine stops after three; only TailsSafe excludes it. |
| LpegOptBug.CallHidesCaptures | lpeg.c:1046-1063 | A capture around a call to a rule with a capture is recorded in the wrong order, behind the capture it should hold; the pattern is compiled, and only CapsSafe excludes it. |
| LpegMatch.NeverStuck | lpeg.c:3506-3611 | A run that ends with an answer never gets stuck on the way. |
| LpegMatch.DoubleStack | lpeg.c:3403-3420 | The stack gets twice its size, or the limit if that is less, and keeps its frames; at the limit it is refused. |
| LpegMatch.Interpreter.constructor | lpeg.c:3486-3500 | The machine starts with the give-up frame and an empty capture list. |
| LpegMatch.Interpreter.Fail | lpeg.c:3612-3628 | Failure drops pending calls and resumes the newest choice with its position and captures. |
| LpegMatch.Interpreter.ExecChars | lpeg.c:3525-3565 | The instructions that look at characters do what the step function says. |
| LpegMatch.Interpreter.ExecJumps | lpeg.c:3534-3572 | Tests and jumps do what the step function says. |
| LpegMatch.Interpreter.ExecPops | lpeg.c:3515-3524 | Returns and commits do what the step function says, in place. |
| LpegMatch.Interpreter.ExecPushes | lpeg.c:3573-3593 | Choices and calls push the frame of the step function unless the limit is hit. |
| LpegMatch.Interpreter.ExecCaptures | lpeg.c:3653-3687 | Captures are recorded as the step function says, with growth of the list. |
| LpegMatch.RunMachine | lpeg.c:3486-3690 | The interpreter loop ends where the steps end, with the answer and the capture list of that end; the stack limit is reported if and only if some step needs more frames than are granted. |
| LpegMatch.CompileAndMatch | lpeg.c:3201-3240 | Compiling a loaded pattern whose look-behinds end and matching it gives what its code does: the meaning of the pattern wherever no loop is left too early, with a capture list that reads as the recorded captures and, exactly if the match is honest, as its captures; the stack limit is reported if and only if the run of the code of the pattern needs more pending choices and calls than granted. |
| LpegCaptures.ReadEncoded | lpeg.c:1611-1623 | Reading what was recorded for a list of captures, anywhere in a list, gives the captures back. |
| LpegCaptures.ListFaithful | lpeg.c:3653-3687 | The capture list of a match determines its captures, whether entries came in pairs or were merged. |
| LpegCaptures.FindOpen | lpeg.c:432-440 | The walk back over the list lands on the open entry not matched in between. |
| LpegCaptures.NextCap | lpeg.c:446-459 | The walk forward lands behind the matching close. |
| LpegCaptures.OpenSkips | lpeg.c:432-440 | Whole captures are skipped on the way back. |
| LpegCaptures.CloseSkips | lpeg.c:446-459 | Whole captures are skipped on the way forward. |
| LpegCaptures.BracketsMatch | lpeg.c:432-459 | In a recorded list the open entry and the close entry of a capture find each other. |
| LpegCaptures.EvalCaptures | lpeg.c:3653-3687 | The captures of a match are in order inside its slice, all the way down. |
| LpegBuild.TreeAtFlat | lpeg.c:2303-2330 | Following the links of a flat tree gives the tree back, wherever it stands in an array. |
| LpegBuild.LpSeq | lpeg.c:2598-2608 | The array built for a sequence is the layout of the simplified sequence. |
| LpegBuild.SeqTreeMeans | lpeg.c:2598-2608 | The simplified sequence means the sequence. |
| LpegBuild.LpChoice | lpeg.c:2617-2632 | The array built for a choice is the layout of the simplified choice. |
| LpegBuild.ChoiceTreeMeans | lpeg.c:2617-2632 | The simplified choice means the choice, also while calls are still open. |
| LpegBuild.LpSub | lpeg.c:2693-2712 | The array built for a difference is the layout of the difference. |
| LpegBuild.SubTreeMeans | lpeg.c:2693-2712 | A difference matches as its first pattern does, where the second does not match. |
| LpegBuild.TreesSimplified | lpeg.c:2598-2690 | A sequence, choice or difference is simplified exactly where one part cannot match, is empty or cannot fail, or both are sets. |
| LpegBuild.LpStar | lpeg.c:2638-2668 | The array built for p^n is the layout for n, and a body that may match the empty string is refused for n of at least 0. |
| LpegBuild.AtLeastMeans | lpeg.c:2638-2668 | p^n fails when fewer than n rounds match and goes on as p* after them otherwise. |
| LpegBuild.AtMostMeans | lpeg.c:2638-2668 | p^-n makes as many rounds as match, at most n, and never fails. |
| LpegFix.CorrectAssociativity | lpeg.c:2191-2203 | The in-place rotations end, keep the size, touch nothing else, and leave the layout of the right-nested tree. |
| LpegFix.RotatedMeans | lpeg.c:2191-2203 | The rotated tree means the tree. |
| LpegFix.FinalFix | lpeg.c:2213-2239 | The adjustments succeed exactly when every call names a rule, and leave the layout of the adjusted pattern in place. |
| LpegFix.FixRules | lpeg.c:3131-3136 | The adjustments of a grammar adjust each of its rules and nothing else. |
| LpegFix.FixedMeans | lpeg.c:2213-2239 | Adjusted patterns under adjusted rules mean what they meant. |
| LpegFix.FixedGrammarMeans | lpeg.c:2213-2239 | An adjusted grammar means what it meant. |
| LpegFix.FixedRightNested | lpeg.c:2191-2203 | After the adjustments no sequence starts with a sequence and no choice with a choice. |
| JsonQuoting.LegalIsUtf8 | json.cc:283-314 | A sequence passes the code point test exactly when it is a character by section 4 of RFC 3629. |
| JsonQuoting.Utf8SeqValid | json.cc:283-314 | The loop accepts exactly the multi-byte characters of RFC 3629. |
| JsonQuoting.JsonQuote | json.cc:316-375 | The loop gives the quoted string of the specification. |
| JsonQuoting.ParseEscaped | json.cc:316-375 | Whatever its bytes, a quoted string is a string of section 7 of RFC 8259, read back as the repaired bytes. |
| JsonQuoting.RepairedKeepsUtf8 | json.cc:316-375 | Well-formed UTF-8 is not changed. |
| JsonQuoting.RepairedIsUtf8 | json.cc:316-375 | The repaired string is well-formed UTF-8. |
| JsonQuoting.EscapedPlain | json.cc:316-375 | No byte below the space survives quoting. |
| JsonQuoting.EscapedSame | json.cc:316-375 | Quoting never shortens; it changes nothing if and only if the string is well-formed UTF-8 without control characters, quotes and backslashes. |
| JsonQuoting.RepairedSize | json.cc:316-375 | Each byte that belongs to no character becomes the three bytes of U+FFFD, and a string is unchanged if and only if it is well-formed. |
| JsonQuoting.RecogniserExact | json.cc:377-422 | The recogniser accepts exactly the numbers of section 6 of RFC 8259. |
| JsonQuoting.JsonIsNumber | json.cc:377-422 | The index loops accept exactly the numbers of section 6 of RFC 8259. |
| JsonDump.DumpValue | json.cc:203-259 | The printer gives the text of the specification. |
| JsonDump.ParseDump | json.cc:203-259 | Reading the text of a value gives the value with its strings repaired, at every indent and level, and reads no further. |
| JsonDump.DumpIsText | json.cc:203-259 | The text of a value is one JSON text of the repaired value. |
| JsonDump.CompactOneLine | json.cc:203-259 | Compact text has no byte below the space, so no line break. |
| JsonDump.DeeperIndented | json.cc:203-259 | Starting at a deeper level indents every line but the first by as much more and changes nothing else. |
| JsonDump.ItemIndented | json.cc:203-259 | An item stands on a line of its own, one step further to the right than its array. |
| JsonConvert.GroupAddKeys | json.cc:582-599 | Adding keeps keys distinct and adds no other key. |
| JsonConvert.GroupAddLookup | json.cc:582-599 | Adding touches the value of its key alone, which becomes an array with the old values in front. |
| JsonConvert.GroupAddLeaves | json.cc:582-599 | Adding loses no string of what was there or was added. |
| JsonConvert.TypedAttribute | json.cc:555-570 | An attribute becomes a boolean, a number if it is one, or stays a string. |
| JsonKept.TypedExact | json.cc:555-570 | The value is a number if and only if the attribute is numeric and its text a number, and a boolean if and only if it is timedout and says true or false; the text is kept in every case. |
| JsonConvert.ConvertValid | json.cc:708-747 | Every number in a converted element is a number literal. |
| JsonConvert.NseLeaves | json.cc:601-652 | The texts in the value of script output, with those overwritten under the key _, are exactly the texts of its elems, each as often. |
| JsonConvert.LostExact | json.cc:638-648 | Something is overwritten exactly when a text stands under the key _ beside siblings without a key. |
| JsonConvert.NseLosesNothing | json.cc:601-652 | The value of script output has exactly the texts of its elems if and only if no text stands under the key _ beside siblings without a key. |
| JsonConvert.TextDropped | json.cc:601-678 | The text of a table, the text of a script that has tables or elems, and what an elem holds make no difference to the value. |
| JsonKept.NseShape | json.cc:613-652 | Without keys script output is the list of the values in order. Otherwise it is an object that has under each key the values of that key in order, alone or joined in an array, and under _ the list of those without a key. |
| JsonKept.ScriptShape | json.cc:654-678 | A script becomes an object; under data stands its structured output, else its text if there is any, else what the attributes gave, and under every other key what they gave. |
| JsonKept.ScriptLeaves | json.cc:654-678 | The value of a script has exactly the values of its attributes, less any under data, and the texts of its elems, if and only if no text stands under the key _ beside siblings without a key; without structure it has its text instead. |
| JsonKept.ElementShape | json.cc:708-747 | The text of any other element is its value if there is nothing else, and otherwise stands under _text; every other key has what attributes and children gave it. |
| JsonKept.Account | json.cc:601-747 | For every element: each attribute value and each text reported for it or inside it is in the converted value, or is among those that Dropped names, each as often. |
| JsonKept.ScriptKeysApart | json.cc:486-496 | The scripts before and after the hosts have keys that no other element has. |
| JsonElements.JsonObject.Set | json.cc:143-152 | The loop replaces the value of the key where it stands or adds the key at the end. |
| JsonElements.JsonObject.Add | json.cc:582-599 | Adds to the array of the key, makes one of the old and the new value, or adds the key. |
| JsonElements.ConvertNseChildren | json.cc:613-652 | The loops over the children in memory give the list, the mapping, or the mapping with the rest under _. |
| JsonElements.ConvertScript | json.cc:654-678 | The conversion of a script in memory is that of its tree, of which ScriptShape and ScriptLeaves say what it keeps. |
| JsonElements.ConvertElement | json.cc:708-747 | The conversion of an element in memory is that of its tree. |
| JsonElements.JsonElement.AddChild | json.cc:445-449 | A new empty element becomes the last child. |
| JsonStream.Interrupted | json.cc:1044-1104 | For every sequence of mirror calls, balanced or not, finishing leaves exactly one JSON text, and neither a second finish nor any later call adds to it. |
| JsonStream.RunSound | json.cc:863-1042 | In every reachable state all kept values are well formed and the header comes before the hosts. |
| JsonStream.LineModeInOrder | json.cc:817-889 | After every mirror call the output is whole lines, each the compact text of one object: the scan record with the attributes known when it was written and the preamble before it, then one record for each completed element that is not of the preamble, in order of arrival. |
| JsonStream.LineModeFinished | json.cc:1073-1088 | At the end of every run of line mode the records are exactly: the scan record with the attributes and the preamble before it, one for each element that is not of the preamble, also those still open, and those of what came late of the preamble. |
| JsonStream.DocumentOf | json.cc:863-990 | The document of every run, however it ends, is exactly: the attributes known when the header was written, the preamble before it, the hosts in order of arrival, and the other elements grouped by key in order of first appearance. |
| JsonStream.SinkOfRun | json.cc:949-990 | In every run of either mode, what has been written is a function of the completed elements and of the root attributes known when the header was written. |
| JsonStream.HeaderHasAttrs | json.cc:863-905 | If the attributes of the root were reported before its first child was complete, the header has all of them. |
| JsonKept.LineRecordExact | json.cc:817-830 | A record has the members of its value, the type if none of them is called so, and the value itself under value if it is no object. |
| JsonKept.TypeKept | json.cc:817-830 | The type of a record tells its kind if and only if its value has no other member called type. |
| JsonKept.ScanRecordExact | json.cc:872-888 | The scan record has the preamble without runstats, then the attributes, then the type, each where those before say nothing. |
| JsonKept.TailExact | json.cc:1068-1080 | At the end of line mode there is a record for each item of an array held back, and one for each other value. |
| JsonBatch.BodyCaptured | json.cc:992-1042 | Mirroring a tree captures that tree, reports its attributes first, and ending its root finishes the scan. |
| JsonBatch.RunElement | json.cc:992-1042 | Mirroring an element inside another one adds it to the children of that one. |
| JsonBatch.ChildrenAsOps | json.cc:708-746 | Converting a tree adds its attributes and children one after the other under their keys. |
| JsonBatch.ContainerExact | json.cc:976-984 | Writing a container gives what converting it gives if and only if, for every key that is new, its first value is that of an element that is always an array, or is no array and another value follows under the key. |
| JsonBatch.ContainerDiffers | json.cc:976-984 | A hostscript with a single child that is not always an array is written with an array where the conversion has the bare value. |
| JsonBatch.ArraysAgree | json.cc:684-706 | Containers that hold only elements that are always arrays, as the DTD has them, agree with their conversion. |
| JsonBatch.SameAsWhole | json.cc:833-990 | Without collisions a key has the value it has in the converted tree, though the order of the parts differs, if and only if the containers agree on it. |
| JsonBatch.StreamingIsBatch | json.cc:833-1104 | For every sequence of events with the attributes of the root first and no key used twice, interrupted or not: the document has the promised layout, and a key has the value that converting the tree of all that was reported gives it if and only if the containers agree on that key; hosts is there even when there are none. |
| JsonLayout.OpeningStep | json.cc:803-814 | A member emitted with its comma extends the start of the object by that member. |
| JsonLayout.HostsStep | json.cc:907-939 | A host emitted with its comma or bracket extends the array of hosts. |
| JsonLayout.HostsClosed | json.cc:1090-1096 | Closing the array of hosts completes the member hosts. |
| JsonLayout.DocumentClosed | json.cc:1098-1103 | The last line completes the serialized object. |
| JsonOutput.Output.WriteTopMember | json.cc:803-814 | Emits one member with the comma it needs. |
| JsonOutput.Output.BufferPending | json.cc:833-855 | Holds a value back under its key, with what is held there. |
| JsonOutput.Output.WriteHeader | json.cc:863-905 | Writes the header once, with all that is held back but runstats, and the output says so. |
| JsonOutput.Output.WriteHost | json.cc:907-939 | Writes a host behind the header, and the output says so. |
| JsonOutput.Output.FlushSubtree | json.cc:949-990 | A completed child of the root goes where the specification says, and the output says so. |
| JsonOutput.Output.Close | json.cc:1071-1103 | The end of the output makes it the text of the whole object, or adds the records held back. |
| JsonWriter.Writer.StartElement | json.cc:992-1011 | The stack in memory follows the model through the start of an element. |
| JsonWriter.Writer.AddAttribute | json.cc:1013-1017 | The element on top gets the attribute; nothing else changes. |
| JsonWriter.Writer.AddCharacters | json.cc:1019-1023 | The element on top gets the text, unless it is the root. |
| JsonWriter.Writer.EndElement | json.cc:1025-1042 | The end of an element closes it, writes it out, or finishes the scan. |
| JsonWriter.Writer.Finish | json.cc:1044-1104 | Ends what is open, writes what was held back and closes the output; a second call adds nothing. |
| JsonWriter.Mirror | json.cc:992-1104 | The writer, run on any events and finished, emits exactly what the model says: one JSON text, or whole lines. |
| FpTimeout.Timer.UpdateRto | FPEngine.cc:1383-1428 | The fields are updated as the estimate is. |
| FpTimeout.SampleWeights | FPEngine.cc:1383-1428 | An eighth of the difference moves the average and a quarter of it the variation, up to rounding down; the first sample is the average and its half the variation; samples of probes sent again change nothing. |
| FpTimeout.StepBounded | FPEngine.cc:1391-1428 | One sample keeps the average between the least and the greatest sample and the variation bounded. |
| FpTimeout.RunBounded | FPEngine.cc:1383-1428 | Over every run of samples at most M: the average stays between the least and greatest sample used, the variation in 0..M, the timeout in 500000..M+max(500000,4M); retransmitted samples change nothing. |
| FpTimeout.FitsInt32 | FPEngine.cc:1383-1428 | With samples up to 429496729 microseconds no intermediate value leaves the range of a 32-bit int. |
| FpTimeout.SteadySettles | FPEngine.cc:1416-1418 | A steady round trip time is learnt: the variation wears off and only the granularity stays. |
| FpRounds.BestRoundWins | FPEngine.cc:2156-2183 | Keeping the first best round and comparing it with the last one gives the responses of one single round that no round exceeds; the last round wins ties. |
| FpRounds.SavedBest | FPEngine.cc:2156-2183 | The saved responses are those of an earlier round that no earlier round exceeds, or there are none. |
| FpRounds.Host.Schedule | FPEngine.cc:1935-2209 | Keeps the count of answers exact and the saved round best. Detection ends exactly if the sum of answered and given up probes is their number, and then with the best round; otherwise the probes that timed out are sent again or given up as the two checks say, a round of timed probes is saved or dropped whole exactly when it is due, and probes are sent as slots are granted. |
| FpRounds.Host.CheckRegular | FPEngine.cc:2018-2076 | Of the probes that timed out without a response, those tried too often are given up and counted, up to the first that is not, which alone is sent again; nothing else changes. |
| FpRounds.Host.CheckTimed | FPEngine.cc:2078-2206 | The timed probes tried too often are given up and counted; all timed probes are sent again exactly when each has an answer or has timed out with tries left, and some have none. |
| FpRounds.Host.Retransmit | FPEngine.cc:2154-2206 | All timed responses of a round are moved or dropped together and their answers taken back, all timed probes and no others count one more try; the count of answers cannot become negative. |
| FpRounds.Host.Callback | FPEngine.cc:2291-2357 | The first matching probe without a response takes the packet and counts one more reply; nothing else changes in the probes. The round trip estimate takes the sample unless the probe was sent again. The result is 0 exactly for a timed probe that was sent again and had a reply before, else the number of its transmissions; without a taker it is negative and nothing changes. It ends detection exactly if the sum of answered and given up probes becomes their number. |
| FpRounds.Host.SetDoneAndWrapUp | FPEngine.cc:2221-2268 | Ends with the better of the saved and the last round, whole. |
| FpRounds.Host.Transmitted | FPEngine.cc:396-418 | A failed transmission gives the probe up and counts it as unanswered. |
| FpEngine.SumExact | FPEngine.cc:1918-1924 | The sum of answered and given up probes is their number exactly when each probe is one or the other, as long as none is both; when each is one or the other, exactly if none is both. |
| FpEngine.DoneExact | FPEngine.cc:1918-1924 | Once every probe is answered or given up, done says so if and only if none was answered that had been given up. |
| FpEngine.LateAnswer | FPEngine.cc:2018-2076 | A run for any number of tries: a probe is given up in one pass and answered before the next, and the host is not done although nothing is outstanding. |
| FpEngine.Drive | FPEngine.cc:1149-1202 | After that no sequence of passes, transmissions and answers makes the host done again. |
| FpEngine.Pass | FPEngine.cc:1163-1184 | A host that is done is removed as it is, without being wrapped up; the others are asked for something to send. |
| FpEngine.RemovedExact | FPEngine.cc:1163-1184 | A host removed before it has wrapped up has the responses of its best round if and only if no saved round has more. |
| FpEngine.BestRoundDropped | FPEngine.cc:2078-2206 | A run in which the first of two timed probes is answered in the first round only: the host is done and not wrapped up, and is left without that response. |
| IdleTiming.InitiallyBounded | idle_scan.cc:503-505 | The first group size and delay are within their bounds if and only if what 16 bits keep of the limits is in order and at least 1. |
| IdleTiming.Starts | idle_scan.cc:773-782 | The limits are 4 and 100, or those of the options, the group starts with 30 or, with losses, 12 as far as they allow, and the delay with 0 or 5000. |
| IdleTiming.CutOptions | idle_scan.cc:503-505 | A greatest parallelism of 65536 is cut to 0 and makes the first chunk empty, a least one of 65536 is cut to 0 too. |
| IdleTiming.UpdateBounded | idle_scan.cc:869-903 | Every update keeps the delay in 0..100000 and the group size between 0 and the larger limit; it keeps the group size between the lesser of the limits and 4 and the larger limit, and within the limits, if they are at least 1 and in order. |
| IdleTiming.AdjustedExact | idle_scan.cc:855-906 | With ports missed the delay becomes the lesser of 100000 and 10000 more, and the group the lesser of four fifths and what half a second of delays fits, as the lower limit allows; with phantom ports the delay stays and the group shrinks likewise; with a match the delay eases and the group grows by at most a tenth, within the delays and the upper limit. |
| IdleTiming.AfterCountExact | idle_scan.cc:1059-1075 | With probes lost the delay becomes the lesser of 100000 and 5000 more, without it eases; the group does not grow but to the lower limit. |
| IdleTiming.EasedExact | idle_scan.cc:888-890 | A delay is eased to the whole part of the given share of it, to none if that share is below 500. |
| IdleTiming.ChunksNotEmpty | idle_scan.cc:1328-1334 | After every run of updates from the start a chunk has at least one port, if and only if 16 bits leave neither limit 0; it never has more than twice the larger limit. |
| IdleTiming.ScanSticks | idle_scan.cc:1328-1334 | If the least group size is cut to 0, there are updates after which a chunk is empty, and stays so whatever is counted, so that the loop does not go on. |
| IdleScan.Scan.CountOpen | idle_scan.cc:1099-1135 | At most six tries, until one is in range; that is the result, or the scan is given up after six. |
| IdleScan.Scan.CountOnce | idle_scan.cc:1059-1075 | A count eases or slows the timing by whether probes were lost. |
| IdleScan.Scan.AdjustIdleTiming | idle_scan.cc:855-906 | The timing becomes the adjusted one, of which AdjustedExact says the direction, within its bounds. |
| IdleScan.Scan.ScanHalf | idle_scan.cc:1160-1188 | A half is counted, and searched if it has more than one port and one is said to be open, which ends with a comparison of the two; else nothing is set open. A searched half is right if the counts below it are, and a half that was just counted may be wrong. |
| IdleScan.Scan.RecountHalf | idle_scan.cc:1208-1256 | A half that was not searched is counted again, and searched if that finds ports, with a comparison of the counts; then it is right wherever that count and those below it are. |
| IdleScan.Scan.TreeScan | idle_scan.cc:1140-1267 | For every counter the search ends and returns exactly the number of ports of its slice that it set open, touching no other. Unless that is the expected number, each half has been searched or counted twice. The open ports are exactly the right ones if the counter was right throughout; or if its errors were zeros for slices it had not been asked about before, and the expected number is not too low; or if it erred only in the first counts of the halves and both were rechecked. |
| IdleScan.CountIsSize | idle_scan.cc:1140-1267 | Without repetitions the count of a slice is the number of its ports. |
| IdleScan.Scan.ScanChunks | idle_scan.cc:1328-1334 | The chunks cover each port once, in order, and none is empty if neither limit is 0; the loop ends if the lower limit is not 0. Exactly the right ports are set open whenever the only errors of the counter were zeros for slices it had not been asked about before. |
| IdleScan.Scan.ScanPorts | idle_scan.cc:1328-1353 | Every port gets a state: open if it was set open, closed or filtered otherwise; the right one whenever the only errors of the counter were zeros for slices it had not been asked about before. |

## Left out

- LpegTheorem.CompilerCorrect: for patterns whose look-behinds end (`BehindsEnd`), since only their runs are shown to end.
- LpegTheorem.StackDiscipline: for the same patterns.
- LpegMatch.CompileAndMatch: for the same patterns; the subject's length and the position arithmetic of `lp_match` for negative or
  too large start positions are not part of it.
- LpegTheorem.AnswerExact: `TailsSafe` is sufficient for all subjects, and tight in what the code depends on (`OptTailExact`). The
  condition `Stays` is about one match, since whether a loop is ever left too early on some subject is not decidable
  from the pattern. It asks the same of parts that are tried in vain, and so is sufficient for a whole pattern; for a
  single loop the condition is exact (`LpegActual.LeaveExact`).
- LpegTheorem.ProgramCorrect: for patterns on which computing a first set does not end (`LpegHalts.FirstWalkEscapes`) it speaks of
  code that the original never gets to emit.
- LpegExact.NullableExact: for patterns whose left calls are bounded, which those of accepted grammars that the walks cover are;
  so are `LpegExact.NofailExact`, `LpegExact.FirstExact` and what is said about layouts with them.
- LpegCoded.SafeIsMeant: `CapsSafe` is sufficient for all subjects. The exact condition, `Honest`, is about one match, since
  whether a reachable capture is ever made on some subject is again not decidable from the pattern.
- LpegHalts.LoadedHalts: for grammars that the walks cover (`Covered`), which those without unbounded left calls are, and whose
  look-behinds end (`BehindsEnd`). Other accepted grammars may halt or not; whether a call inside a look-behind is made
  again at the same position is not decidable from the pattern. `LpegHalts.NestedEscapes` and `LpegHalts.BehindEscapes`
  do not halt.
- LpegCompiler.CompileState.Peephole: one sequence element stands for one instruction. The slots of an instruction and the revisit at
  `lpeg.c:1846`, which depends on what the slot before reads as, are not modelled; the model revisits the instruction.
- LpegAnalysisSound.FirstSound: the analyses chase the rule calls of a grammar up to 201 deep and then answer cautiously, where the
  code goes on; for accepted grammars the bound is never reached (`LpegVerify.CheckauxSaturates`, `LpegVerify.FirstSaturates`,
  `LpegVerify.HeadfailSaturates`).
- LpegBuild.LpChoice: keys of captures are indices into one table that is already joined; `joinktables` and `correctkeys` are not modelled.
- LpegFix.FinalFix: a call keeps the number of its rule where `fixonecall` stores a distance, and the fields a node does not use are 0.
- Run-time captures, the evaluation of captures to Lua values, substitution, locale and debug output of `lpeg.c`: they call Lua.
- JsonConvert.NseLosesNothing: for trees of tables and elems, which is all that scripts put there.
- JsonBatch.StreamingIsBatch: without collisions of keys and with the attributes of the root first; otherwise the document is
  still one JSON text, and `JsonStream.DocumentOf` still tells its members.
- JsonWriter.Writer.StartElement: a writer is made enabled; calls on a disabled writer do nothing. Names and values are never null.
- The tables of element and attribute names in `json.cc` are taken over as they are; no law is stated about single entries
  beyond `JsonKept.KeysTested`.
- Writing to and flushing the log: emission appends to a string of bytes.
- IdleTiming.UpdateBounded: group sizes are real numbers; rounding of binary fractions is not modelled.
- IdleScan.Scan.CountOnce: the counter is an arbitrary function of how often it was asked; probes, sleeps and IP identifiers are outside.
- IdleScan.Scan.TreeScan: the round trip estimate of the target (`adjust_timeouts2`) is outside. The conditions under which the
  open ports are right are sufficient: two errors can make up for each other, and a first count that misses some ports of a
  slice but not all can make a wrong total the expected one.
- FpRounds.Host.Callback: which probes a packet answers is given; parsing it and the packets themselves are outside.
- FpRounds.Host.Schedule: the network controller's decisions, the random offsets and the clock are given.
- FpEngine.DoneExact: for hosts whose given up probes were counted once; a failed transmission of a probe that had been given up
  counts it again, as `FpRounds.Host.Transmitted` says.
- The host groups of `FPEngine6::os_scan`, its events, fingerprint vectors and their classification: clocks, library calls and floating point.
- Every other part of the repository.
