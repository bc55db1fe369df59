# Plain-data evaluation of CEL programs, and its neighbours

A CEL program can be evaluated by the engine or, on plain data, by a host function compiled from a plan of the program. The promise of that fast path is that it changes no result: the function answers what CEL answers, and sends everything else to the engine. The larger part of this project models the Python and the JavaScript compiler, their target languages and the engine's evaluation of plans, and settles how far the promise holds. The smaller part does the same for the algorithms around it: the flattening encoder of the JavaScript binding, JSON boxing and adapting of protobuf values, the descriptor loader, the equality cost, Base64, the duration text rewrite, and the value comparator of the conformance tests.

Every lemma switches automatic induction off (`{:induction false}`), so that no proof rests on it. Many small lemmas only name a fact that the verifier finds by itself.

## How it is laid out

| modules | what they hold |
|---|---|
| `Values`, `Plans`, `Encodings`, `Engine` | values, plan trees, the three text encodings, the conversion of bindings, and CEL evaluation with error-absorbing `&&`, `\|\|`, `all` and `exists` |
| `PythonTarget`, `Layout`, `Emitter`, `Compiler` | the generated Python and what it does, its indented lines, the compiler as a function of its state, and the compiler as an object that mutates lists and shared dictionaries |
| `LazySemantics`, `Soundness`, `Completeness` | the reading that hoists and caches nothing, its agreement with CEL, and when it has to have a value |
| `EmitterShape`, `EmitterFacts`, `Simulation`, `CompiledPlans` | the compiled function is the lazy reading, exactly |
| `DefiniteAssignment`, `ScopedFlow`, `CacheLeaks` | when every variable of the generated code is assigned before it is read |
| `Contract`, `Conversion`, `Deviations`, `QualifiedNames` | the contract of the fast path, programs that only read what converts, the inputs on which the contract fails, and qualified names |
| `JavaScriptTarget`, `JavaScriptEmitter`, `JavaScriptReading`, `JavaScriptSoundness`, `JavaScriptCompleteness`, `JavaScriptNumbers` | the same for the JavaScript compiler, with integers in doubles and texts in UTF-16 |
| `PlainStream`, `PlainRoundTrip`, `PlainValues`, `PlainEncoder`, `PlainBindings`, `PlainMeaning` | the tag stream, its decoder, object graphs, the encoder with its buffers and budgets, and what the engine receives |
| `ProtoJson`, `ProtoMaps`, `ProtoAny`, `EqualityCosts`, `Descriptors` | the protobuf side |
| `Base64`, `Durations`, `ConformanceValues` | the self-contained algorithms |

## What was found

The documentation (README.md:546, `bindings/python/src/cel/program.py:62-70`) promises that plain-data evaluation leaves the result unchanged. Four families of inputs break the promise. Call by call that is all: for every program outside the third family, evaluation differs from the engine exactly when the compiled function reads a variable that was never assigned, or answers on bindings that the engine refuses to convert, or its matcher raises an error that the engine does not raise there (`Contract.DiffersExactly`).

1. `bindings/python/src/cel/plain.py:298-306` restores the dictionary `before` ahead of the `else` part without copying it, so what the `else` part reads stays in the cache after the conditional. A later use of it can then read a variable that was never assigned, and Python raises `UnboundLocalError` out of the call. No answer changes (`Contract.LeaksOnlyRaise`). The concrete program is `(f ? false : m.c.s) || m.c.s` with `f` true (`Deviations.LeakingCall`). Exact condition on the generated code: no path through it reads an unassigned variable if and only if forgetting what `else` parts read would generate the same code (`CacheLeaks.SafeIffScoped`), which can be decided from the program. Paths are taken branch by branch, so this is sufficient for calls and not necessary: `(f ? false : m.c.s) && !f && m.c.s` has such a path, and no call takes it. The condition always holds without conditionals (`Contract.UnconditionalEmission`).
2. The matcher of a literal pattern raises the engine's own `EvaluationError` out of the compiled function (`bindings/python/src/cel/plain.py:311-316`, `bindings/python/src/cel/program.py:45-53`, `src/python.zig:871`, and in the same way `bindings/typescript/index.ts:1160-1167`). A refused pattern alone is no deviation: the engine raises the same (`Deviations.MatcherRaisesToo`). The results differ exactly when the engine raises something else or nothing: the bindings do not convert, or another operand absorbs the error, or another error comes first, or the pattern has more than 65,536 bytes, is therefore never compiled, and is reported by the matcher as an invalid argument and by the engine as a limit (`src/program.zig:164-168`). `x.matches(p) || true` is the case of an absorbed error, for all texts and patterns: the results differ exactly when the matcher raises and the error is not fatal for the engine (`Deviations.MatcherEscapes`). The limits of RE2 are fatal (`src/eval.zig:1425-1430`) and never absorbed. With patterns that are compiled and match every text within the limits nothing is raised (`Contract.AcceptedPatternsNeverRaise`).
3. A selection chain that spells the name of a built-in type, `net.IP`, `net.CIDR` or a name of the well-known protobuf descriptors, is that type for the engine (`src/eval.zig:1131-1170`), also where a binding has the first name; the compiled function reads the field (`Deviations.TypeNameIsRead`). The engine's result therefore does not depend on the field, and of any two different texts in it at least one makes `a.b == text` differ (`Deviations.TypeNamesAreRead`). The compiled function tests dotted binding keys on every call, but not these names. That there are no such names is sufficient, not necessary.
4. The engine converts all bindings first and refuses texts without a UTF-8 encoding and integers beyond 64 bits (`src/python.zig:391-455`). The compiled function answers without looking at what the program does not read, which the documentation says. But it also reads texts without the check where they are compared with a literal or tested against one, looked up in a list of literals, or used as a key (`bindings/python/src/cel/plain.py:140-143`, `181-188`, `219-222`, `264-268`, `317-328`): `x == 'a'` with a lone surrogate in `x` is false instead of an error (`Deviations.IllFormedTextsAreRead`, for all ill-formed texts). Exact condition, for all programs outside the first and the third family: the results are equal if and only if the call is left to the engine, or the bindings convert and, where the matcher raised, CEL evaluation raises the same error (`Contract.PlainDataChangesNothing`). Said of the data alone, with accepted patterns: the results differ if and only if evaluation meets plain data only and the bindings do not convert (`Completeness.DiffersOnPlainData`). Where a program reads no text unchecked, everything it reads converts: it answers what the engine answers for the bindings without everything that does not convert (`Conversion.CheckedTextsConvert`).

The JavaScript compiler has no cache and checks every text it reads, so of these only the second and the third, and what is not read, apply to it, with the same exact condition (`JavaScriptSoundness.PlainDataChangesNothing`).

How much the fast path takes on is settled as well: a call answers if and only if CEL evaluation, without what it need not look at, reads values of the expected shapes only and meets no error (`Completeness.AnswersOnPlainData`, `JavaScriptCompleteness.AnswersOnPlainData`). There is one exception: Python's remainder computes the quotient first and leaves -2^63 % -1 to the engine, where it is 0 (`Completeness.RemainderBails`).

A further limit is not the program's own: Abseil rounds every component of a duration down to quarters of a nanosecond, so `0.3ns0.3ns0.4ns` is read as no nanosecond at all (`Durations.RoundingLosesNanoseconds`). The rewriting of long nanosecond counts changes nothing about that rounding.

## Model

| member | source | states |
|---|---|---|
| Contract.PlainDataChangesNothing | bindings/python/src/cel/program.py:60-80 | for every program outside the first and the third family, all bindings and whatever RE2 makes of the patterns: evaluation with `plain_data=True` has the result of the engine, errors included, if and only if the call is left to the engine, or it answers and the bindings convert, or the matcher raises and on bindings that convert CEL evaluation gives the same error; nothing else is raised |
| Contract.DiffersExactly | bindings/python/src/cel/program.py:60-80 | for every program without built-in names and all bindings, evaluation with `plain_data=True` differs from the engine if and only if the compiled function reads a variable that was never assigned, or answers although the bindings do not convert, or its matcher raises an error that the engine does not raise |
| Contract.AcceptedPatternsNeverRaise | bindings/python/src/cel/program.py:45-80 | outside the first three families, all patterns being accepted by RE2 within its limits: nothing is raised, and the results are equal if and only if the bindings convert or the call is left to the engine |
| Contract.LeaksOnlyRaise | bindings/python/src/cel/plain.py:298-306 | the shared dictionary changes no answer and no bail: a call does what it would do with the scoped cache, or reads an unassigned variable; given that no pattern makes the matcher raise |
| Contract.SafeCalls | bindings/python/src/cel/plain.py:351-399 | where the `else` cache makes no difference and no pattern raises, a call is determined by the lazy reading: its value when there is one and the bindings are admitted, BAIL otherwise |
| Contract.UnconditionalEmission | bindings/python/src/cel/plain.py:290-310 | without conditionals the shared dictionary makes no difference to the generated code |
| CompiledPlans.AnswersAreCel | bindings/python/src/cel/plain.py:157-329 | compiler correctness: whenever a compiled function answers, for any plan without built-in names, any bindings, either treatment of the cache and any matcher that gives the engine's answers where it answers, CEL evaluation of the plan gives that value, and the engine answers it too unless it refuses to convert the bindings |
| CompiledPlans.CallsAnswerTheReading | bindings/python/src/cel/plain.py:351-399 | hoisting, caching and guards are exact: a call answers if and only if the bindings have no dotted name of the plan, every object root is a dictionary, and the read-everything-again reading has a value, and it answers that value; the only exceptions are the matcher's and, with the shared dictionary, an unassigned variable |
| CompiledPlans.RefusedPlans | bindings/python/src/cel/plain.py:358-367 | the accepted plans, exactly, operator by operator: which are refused is a property of the plan and the types it infers, not of the compiler's state |
| CompiledPlans.RootsRun | bindings/python/src/cel/plain.py:121-129 | the hoisted reads load every root, or bail exactly when one is no dictionary |
| Completeness.AnswersOnPlainData | bindings/python/src/cel/plain.py:351-399 | when the fast path must answer, in terms of CEL evaluation: for every accepted program without built-in names and all bindings, a call answers if and only if no dotted name is bound, the object roots are dictionaries, every read that evaluation needs is a boolean, a 64-bit integer, a text, a list or a dictionary as its place expects, and no operator fails; then it answers the CEL result, or, where the `else` cache leaks, may read an unassigned variable |
| Completeness.ReadsExactly | bindings/python/src/cel/plain.py:131-329 | the same at every node, under any comprehension variables: the lazy reading has a value if and only if CEL evaluation of the node meets plain data only; operands that are short-circuited and items behind the deciding one do not count, `size` takes no map |
| Completeness.DiffersOnPlainData | bindings/python/src/cel/program.py:60-80 | for every compiled program outside the first three families with accepted patterns: `plain_data=True` changes the result if and only if evaluation meets plain data only and the bindings do not convert |
| Completeness.InferredType | bindings/python/src/cel/plain.py:78-89 | an accepted plan is accepted for its inferred type only, and one without an inferred type for every scalar type |
| Completeness.RemainderBails | bindings/python/src/cel/plain.py:59-69 | -2^63 % -1 bails in Python and is 0 in CEL |
| Simulation.EmitSimulates | bindings/python/src/cel/plain.py:157-329 | at every node, in every state of the compiler: the emitted block leaves a store that satisfies the cache invariant, changes only the block's own variables, and yields the value of the lazy reading; it stops only where the reading has none |
| Simulation.CachedSimulates | bindings/python/src/cel/plain.py:111-119 | an object read served from the cache is the value of reading the path again, and its variable is assigned whenever the cache is scoped |
| Simulation.PathMeaning | bindings/python/src/cel/plain.py:111-129 | the provenance recorded for an object variable is the path of fields from a root that the plan selects |
| EmitterShape.EmitShape | bindings/python/src/cel/plain.py:107-149 | variables are allocated once and in order, the cache only names allocated variables of known provenance, and a block assigns only variables allocated for it and never a hoisted one |
| EmitterFacts.EmitFacts | bindings/python/src/cel/plain.py:170-180 | the dotted names a function refuses and the roots it hoists are those of the plan, whatever the order of emission |
| Soundness.PlainIsCel | bindings/python/src/cel/plain.py:157-329 | where the lazy plain-data reading of any subplan under any comprehension variables has a plain value, that value is the CEL result, although CEL evaluates both operands of `&&` and `\|\|` and all items of `all` and `exists`; given a matcher that gives the engine's answers, and no chain whose dotted name is a binding or built in |
| Soundness.SelectNotResolved | src/eval.zig:1131-1170 | a chain whose dotted name is neither a binding key nor a built-in type is not resolved as one name |
| Soundness.ArithmeticAgrees | bindings/python/src/cel/plain.py:43-69 | the checked helpers, floor division corrected to truncation, answer what int64 arithmetic with overflow errors answers |
| Soundness.BytesAgree | bindings/python/src/cel/plain.py:317-328 | the engine's tests on UTF-8 bytes and Python's on code points agree, lone surrogates included |
| Soundness.TextMembership | bindings/python/src/cel/plain.py:264-268 | membership in the literal set is heterogeneous membership in the list |
| DefiniteAssignment.FlowDecides | bindings/python/src/cel/plain.py:99-101 | definite assignment is defined by all walks through the generated code, branches skipped and loops run any number of times; the flow analysis decides it in both directions |
| DefiniteAssignment.MissingWalk | bindings/python/src/cel/plain.py:99-101 | where the flow analysis finds a variable unassigned there is a path on which it is read unassigned |
| CacheLeaks.ScopedIsDefinitelyAssigned | bindings/python/src/cel/plain.py:206-208 | with the cache scoped, that is, restored after every block but for the roots hoisted to the start of the function, every variable of the code of every plan is assigned on every path before it is read |
| CacheLeaks.SafeIffScoped | bindings/python/src/cel/plain.py:298-306 | as written, the code is definitely assigned if and only if the scoped cache generates the same code |
| CacheLeaks.ScopedCompilesToo | bindings/python/src/cel/plain.py:298-306 | the treatment of the cache does not change which plans compile |
| Deviations.LeakingCall | bindings/python/src/cel/plain.py:298-306 | `(f ? false : m.c.s) \|\| m.c.s`: as written the call raises, with the scoped cache (only hoisted roots outlive the `else` part) it answers true, and so does CEL |
| Deviations.IllFormedTextsAreRead | bindings/python/src/cel/plain.py:219-222 | for every name, literal and ill-formed text: comparing the name with the literal answers with `plain_data=True` and is refused without, although the program is in none of the other families |
| Conversion.CheckedTextsConvert | bindings/python/src/cel/plain.py:131-149 | for every program outside the first three families, with accepted patterns and well-formed names and literals, that reads no text unchecked, and all bindings: a call does the same on the bindings stripped of everything that does not convert, and what it answers the engine answers for those, its size limits permitting |
| Conversion.ReadingStripped | bindings/python/src/cel/plain.py:131-149 | at every node: reading stripped bindings gives the stripped value, or gives up just as before |
| Conversion.StrippedBindingsConvert | src/python.zig:391-470 | stripped bindings convert within the limits, and bindings that convert have nothing to strip |
| Deviations.MatcherEscapes | bindings/python/src/cel/plain.py:311-316 | for every pattern and every text that converts, `x.matches(p) \|\| true` raises what the matcher raises, and differs from the engine, which gives true, if and only if the matcher raises and the engine's error is not fatal; the error of an invalid pattern always is absorbed |
| Deviations.MatcherRaisesToo | src/program.zig:164-168 | for every pattern and every text that converts, `x.matches(p)` alone has the same result, errors included, if and only if the pattern is not too long to be compiled |
| Deviations.TypeNamesAreRead | src/eval.zig:1415-1419 | for every built-in name of two parts, every literal and every other text: with the literal or with the other text bound to that path, the two evaluations of `a.b == literal` differ, whatever the engine makes of comparing a type with a text |
| Deviations.TypeNameIsRead | src/eval.zig:1131-1170 | for every built-in name of two parts and every text bound to that path, the compiled `a.b == literal` answers whether the text is the literal, while CEL compares the type with the literal |
| Layout.LinesRoundTrip | bindings/python/src/cel/plain.py:368-380 | the generated lines, read back by their indentation alone, are the emitted code: nesting, `else` and `break` end up where they belong |
| Compiler.Compiler.Emit | bindings/python/src/cel/plain.py:157-329 | the mutating compiler, visiting a node, appends exactly the lines of the functional emitter and leaves its state, the shared dictionary included |
| Compiler.Compiler.Fresh | bindings/python/src/cel/plain.py:107-109 | the next variable |
| Compiler.Compiler.FindLocal | bindings/python/src/cel/plain.py:151-155 | the innermost comprehension variable of the name |
| Compiler.Compiler.ReadValue | bindings/python/src/cel/plain.py:131-149 | appends the assignment and its guard |
| Compiler.Compiler.RootRead | bindings/python/src/cel/plain.py:121-129 | hoists a root once and remembers it |
| Compiler.Compiler.ObjectRead | bindings/python/src/cel/plain.py:111-119 | looks the object up at every enclosing indentation, or reads and remembers it |
| Compiler.Compiler.EmitLogic | bindings/python/src/cel/plain.py:197-212 | `&&` and `\|\|` with the dictionary copied and restored |
| Compiler.Compiler.EmitQuantifier | bindings/python/src/cel/plain.py:269-289 | `all` and `exists` with scope pushed and popped and the dictionary restored |
| Compiler.Compiler.EmitCond | bindings/python/src/cel/plain.py:290-310 | `?:` with one saved dictionary used for both restores, so that the `else` part writes into it |
| Compiler.CompileLines | bindings/python/src/cel/plain.py:351-380 | compiles exactly the accepted plans; the lines parse back to the body of the function whose behaviour is proved |
| QualifiedNames.LongestPrefixWins | src/eval.zig:1131-1170 | a chain of any length evaluates to the fields after the longest prefix that is a binding or a built-in type |
| QualifiedNames.LocalsShadow | src/eval.zig:1131-1170 | under a comprehension variable of the root name no prefix is looked up |
| QualifiedNames.FieldByField | bindings/python/src/cel/plain.py:336-343 | when no dotted prefix is bound or built in, resolution is field-by-field selection from the root |
| JavaScriptSoundness.PlainDataChangesNothing | bindings/typescript/index.ts:1151-1168 | for all plans the engine emits without built-in names, all bindings and whatever RE2 makes of the patterns: plain-data evaluation in JavaScript has the engine's result if and only if the call is left to the engine, or it answers and the bindings convert, or the matcher raises and on bindings that convert CEL evaluation gives the same error; nothing else is thrown |
| JavaScriptSoundness.AcceptedPatternsNeverThrow | bindings/typescript/index.ts:1151-1168 | with accepted patterns nothing is thrown, and the results are equal if and only if the bindings convert or the call is left to the engine |
| JavaScriptCompleteness.AnswersOnPlainData | bindings/typescript/index.ts:977-1020 | when the compiled JavaScript must answer: for every plan the engine emits without built-in names and all bindings whose texts and lists are no longer than 2^53-1, a call answers if and only if no key has a dot and CEL evaluation of the converted bindings, bigints left out, meets plain data only, integers being safe ones; then it answers the CEL result |
| JavaScriptCompleteness.ReadsExactly | bindings/typescript/index.ts:689-850 | the same at every node, under any comprehension variables, for data without bigints |
| JavaScriptCompleteness.BigIntsAreNotRead | bindings/typescript/index.ts:835-850 | at every node: reading is not affected by putting nothing in place of every bigint |
| JavaScriptCompleteness.RefusedPlans | bindings/typescript/index.ts:977-995 | JavaScript and Python compile the same plans |
| JavaScriptSoundness.AnswersAreCel | bindings/typescript/index.ts:684-850 | for every plan the engine emits without built-in names and any matcher that gives the engine's answers where it answers: whenever the compiled JavaScript answers, CEL evaluation gives that value on the converted bindings, whatever does not convert being out of the way: nothing that fails to convert is read |
| JavaScriptSoundness.ConvertedIsCel | src/node.zig:1061-1115 | what converts in JavaScript is converted to a value the engine takes |
| JavaScriptSoundness.ConvertedBindings | src/node.zig:1034-1048 | the same for whole bindings |
| JavaScriptSoundness.CallsAnswerTheReading | bindings/typescript/index.ts:977-1020 | it answers if and only if the bindings are an object without dotted names and the reading has a value; no undeclared temporary is used, no operator meets an operand it is not meant for, and only the matcher raises |
| JavaScriptSoundness.HostsAgree | bindings/typescript/index.ts:684-850 | for every plan the engine emits and both compile, built-in names included, with the matchers of one engine: Python and JavaScript never answer differently on the same data |
| JavaScriptSoundness.ReadingIsCel | bindings/typescript/index.ts:853-915 | the reading of any subplan, with integers in doubles and texts in UTF-16 units, is the CEL result on the converted data |
| JavaScriptReading.EmissionReads | bindings/typescript/index.ts:689-850 | the emitted expression evaluates to the reading whatever the temporaries hold: shared temporaries, repeated needles and arrow parameters never interfere |
| JavaScriptReading.MembersReads | bindings/typescript/index.ts:782-794 | the chain of comparisons with a copied needle is membership |
| JavaScriptEmitter.PlainCompiler.EmitNode | bindings/typescript/index.ts:689-833 | the object with its counter and stack of scopes emits what the functional compiler emits and always restores the stack |
| JavaScriptEmitter.PlainCompiler.Guard | bindings/typescript/index.ts:835-850 | one more temporary around a read |
| JavaScriptEmitter.CompileFastPath | bindings/typescript/index.ts:977-995 | compiles boolean and text plans, declaring every temporary |
| JavaScriptNumbers.ArithmeticIsExact | bindings/typescript/index.ts:914-931 | under any nearest rounding the five operators on safe integers give the exact result if and only if it is safe, and bail otherwise; what they give is the CEL result |
| JavaScriptNumbers.DivisionIsExact | bindings/typescript/index.ts:926-928 | truncating the rounded quotient of safe integers is truncating division |
| JavaScriptNumbers.NeverRoundsUp | bindings/typescript/index.ts:926-928 | a quotient below an integer does not round up to it |
| JavaScriptNumbers.RoundedInteger | bindings/typescript/index.ts:914-925 | rounding an integer sum, difference or product leaves it alone or keeps it unsafe |
| JavaScriptNumbers.NegationIsExact | bindings/typescript/index.ts:932-934 | negation is exact and never bails |
| Encodings.StringSize | bindings/typescript/index.ts:889-896 | the loop returns the number of code points of every well-formed UTF-16 string |
| Encodings.SizeIsCount | bindings/typescript/index.ts:889-896 | the units that are not high surrogates are as many as the code points |
| Encodings.ThreeViewsAgree | bindings/typescript/index.ts:941-953 | prefix, suffix and substring tests agree on UTF-16 units, UTF-8 bytes and code points |
| Encodings.TestsAgree | bindings/typescript/index.ts:941-953 | the same for every self-synchronizing encoding |
| Encodings.Utf8KeepsOrder | src/eval.zig:494 | the engine's order on UTF-8 bytes is the order of the texts by code points, for all texts |
| Engine.OrderIsTotal | src/eval.zig:486-505 | on integers, texts and booleans the six comparison operators agree on one total order |
| Encodings.ReadAfterWrite | bindings/typescript/index.ts:960-962 | writing a well-formed text gives a well-formed string that reads back |
| Encodings.WriteAfterRead | bindings/typescript/index.ts:960-962 | a well-formed string is what its text is written as |
| PlainEncoder.PlainEncoder.WriteBindings | bindings/typescript/index.ts:449-460 | on any object graph, cyclic ones too, encoding terminates, succeeds if and only if the graph unfolds to a tree of at most 100,000 values and keys and 1,048,576 bytes, and then the buffers hold exactly that tree's stream |
| PlainEncoder.PlainEncoder.WriteValue | bindings/typescript/index.ts:535-612 | one value: success exactly within the limits; `remaining` drops by the values and keys written and never below zero; the path of active containers is restored |
| PlainEncoder.PlainEncoder.WriteObject | bindings/typescript/index.ts:564-612 | containers by kind, captured maps and deferred values included |
| PlainEncoder.PlainEncoder.WriteArray | bindings/typescript/index.ts:579-588 | an array is refused as its own ancestor or when longer than the remaining budget |
| PlainEncoder.PlainEncoder.WriteEntries | bindings/typescript/index.ts:614-621 | keys and values in order, symbol keys refused |
| PlainEncoder.PlainEncoder.WriteString | bindings/typescript/index.ts:472-512 | appends the UTF-8 bytes of a well-formed string within 1,048,576 bytes, across any growth of the byte buffer, and refuses every other string |
| PlainEncoder.PlainEncoder.Push | bindings/typescript/index.ts:462-470 | appends one number, across growth of the number buffer |
| PlainEncoder.PlainEncoder.Defer | bindings/typescript/index.ts:514-522 | records a deferred value with the current path |
| PlainEncoder.PlainEncoder.Enter | bindings/typescript/index.ts:524-533 | refuses an object that is one of its own ancestors, otherwise extends the path by it |
| PlainValues.UnfoldedIsShallow | bindings/typescript/index.ts:535-536 | what unfolds is nowhere deeper than the limit |
| PlainValues.DepthLimit | bindings/typescript/index.ts:535-536 | a value unfolds under up to 128 containers, the bindings included, and no more |
| PlainRoundTrip.RoundTrip | src/node.zig:1061-1115 | decoding the stream of any tree within the limits gives the tree back and leaves nothing, signed high and unsigned low halves of bigints included |
| PlainRoundTrip.DecodesTree | src/node.zig:1061-1115 | the same at every position inside a longer stream, with budgets |
| PlainRoundTrip.UniquelyDecodable | bindings/typescript/index.ts:449-621 | two trees with the same numbers, bytes and deferred list are the same tree |
| PlainBindings.BindingsRoundTrip | src/node.zig:1034-1048 | what the encoder writes for bindings decodes to the unfolded bindings |
| PlainMeaning.SentIsMeant | src/node.zig:1061-1115 | for every value of the object graph that the encoder takes: what the decoder's tree means to the engine is the conversion of the binding tree that the compiled function reads, so the results about the two speak of the same data |
| PlainMeaning.BindingsSent | src/node.zig:1034-1048 | the same for whole bindings, entry by entry |
| PlainMeaning.ReadableConverts | src/node.zig:1061-1115 | of what the encoder takes, the decoder accepts exactly what the results about compiled functions call converted, deferred values aside |
| ProtoMaps.ThroughStoredValue | src/protobuf.cc:452-560 | for every nested value with distinct map keys and every message store that keeps messages but for the order of map entries: boxing into `google.protobuf.Value` and adapting back gives the normal form up to that order, and succeeds exactly when the value is boxable and limits and budgets suffice |
| ProtoMaps.StoredCosts | src/protobuf.cc:835-866 | adapting a message draws the same work and stays within the same limits in any order of map entries |
| ProtoMaps.StoredAdapted | src/protobuf.cc:835-866 | messages that differ in the order of map entries adapt to values that do |
| ProtoMaps.ReorderedLookup | src/protobuf.cc:852-863 | reordered maps hold the same keys with reordered values, each entry having its counterpart |
| ProtoMaps.BoxedDistinct | src/protobuf.cc:686-692 | the messages of values with distinct keys have distinct keys |
| ProtoJson.Scope.ThroughValue | src/protobuf.cc:452-560 | the same with entries kept in order, and for exactly the announced units and bytes |
| ProtoJson.AdaptedBoxed | src/protobuf.cc:475-520 | the normal form: integers up to 2^53-1 become doubles, larger ones decimal texts, bytes Base64, nulls are kept inside lists and maps |
| ProtoJson.NormalTwice | src/protobuf.cc:475-520 | a second round trip changes nothing |
| ProtoJson.DecimalRead | src/protobuf.cc:483-488 | the decimal text of a large integer denotes it |
| ProtoJson.DigitsAreShort | src/protobuf.cc:483-488 | the decimal text consists of digits and has no leading zero |
| ProtoJson.NormalIntegers | src/protobuf.cc:475-490 | integers become doubles exactly between -2^53 and 2^53, and otherwise texts that denote them |
| ProtoJson.Scope.BoxValue | src/protobuf.cc:419-560 | boxing any nested value: exact success condition, exact result, exact work |
| ProtoJson.Scope.BoxList | src/protobuf.cc:633-694 | a list item by item within the remaining work |
| ProtoJson.Scope.BoxMap | src/protobuf.cc:633-694 | a map entry by entry; a key that is no text is a type error |
| ProtoJson.Scope.AdaptValue | src/protobuf.cc:943-1022 | adapting any nested message: exact success condition, result and work |
| ProtoJson.Scope.AdaptList | src/protobuf.cc:835-941 | the items of a list value |
| ProtoJson.Scope.AdaptStruct | src/protobuf.cc:835-941 | the fields of a struct value |
| ProtoJson.AdaptIsCheaper | src/protobuf.cc:835-1022 | adapting a message takes less work than boxing it took |
| ProtoAny.ThroughAny | src/protobuf.cc:563-629 | boxing a scalar or an opaque message into `google.protobuf.Any` and adapting it back gives exactly what was boxed, timestamps and durations included, and succeeds exactly when it is storable and depth, work, text and wire budgets suffice |
| ProtoAny.BoxAny | src/protobuf.cc:563-629 | exact success condition, full type URL, bytes and work of boxing a scalar or an opaque message; a duration is written as seconds and nanoseconds that make it up at 1,000,000,000 to the second, of no opposite signs; only timestamps out of range overflow |
| ProtoAny.AdaptAny | src/protobuf.cc:994-1021 | exact success condition, result and work of adapting any message that holds a scalar or an opaque message, whatever its type URL and bytes; a duration is adapted to its seconds at 1,000,000,000 nanoseconds and its nanoseconds; unknown types, invalid URLs or bytes, and overflows are told apart |
| ProtoAny.MeaningWrapped | src/protobuf.cc:446-455 | splitting every 64-bit duration into seconds and nanoseconds by truncating division and joining them is exact |
| ProtoAny.DurationSplits | src/protobuf.cc:446-455 | there is one way to split a number of nanoseconds into seconds and fewer than 1,000,000,000 nanoseconds of no opposite sign, and it is the one written |
| ProtoAny.DurationJoins | src/protobuf.cc:961-974 | a duration message is accepted if and only if it is such a split of a 64-bit number, which it then means; a wrong split is invalid |
| ProtoAny.TimestampYears | src/protobuf.cc:438-440 | timestamps are storable and adapted exactly from the first second of year 1 to the last one of year 9999, counted in days of the Gregorian calendar from 1970 |
| ProtoAny.WrappedMeaning | src/protobuf.cc:949-974 | a message that passes the range and sign tests is the message of the scalar it means, so the tests accept nothing twice |
| ProtoAny.NameAfterSlash | src/protobuf.cc:996-1002 | the name after the last slash of a type URL is the type name |
| Descriptors.LoadFiles | src/protobuf.cc:111-147 | success gives every file exactly once after its dependencies. If the builder takes every file whose dependencies are built, loading succeeds if and only if names are unique and dependencies closed and acyclic; with any builder, refusing such files leaves a pool of some of them, in order and built, and a file that is next and that the builder refuses |
| Descriptors.OrderExists | src/protobuf.cc:111-147 | for unique names, an order of building exists if and only if dependencies are closed and acyclic |
| Descriptors.OrderImpliesAcyclic | src/protobuf.cc:117-143 | an order of building leaves no missing file and no cycle |
| Descriptors.NoProgress | src/protobuf.cc:140-143 | a pass that builds nothing means a missing file or a cycle |
| Descriptors.StuckHasCycle | src/protobuf.cc:140-143 | files that all wait for one another contain a cycle |
| EqualityCosts.Scope.Cost | src/protobuf.cc:1068-1092 | for any memo built by earlier calls, the memoised cost is the uncached saturating sum over the message tree, and the memo stays correct |
| EqualityCosts.Scope.Equal | src/protobuf.cc:1094-1107 | the charge is the larger of the two costs, independent of earlier queries; nothing is charged when the budget does not suffice |
| EqualityCosts.SaturatedSum | src/protobuf.cc:1062-1066 | saturating after every addition is saturating once at the end |
| EqualityCosts.FieldsOfAll | src/protobuf.cc:1068-1092 | the count is that of the flat list of all nested messages: the declared fields and one for each |
| EqualityCosts.ChargeIsSymmetric | src/protobuf.cc:1094-1107 | comparing in either order costs and answers the same, given a symmetric comparison |
| EqualityCosts.NestedCostsLess | src/protobuf.cc:1068-1092 | a nested message never costs more fields than the message around it |
| Base64.EvaluateDecode | src/encoders.zig:34-73 | the decoder with its in-place patch of the last digit has the outcome the specification gives, failing tests in order, charges included |
| Base64.EvaluateEncode | src/encoders.zig:21-33 | encoding within the limit for exactly the charged work |
| Base64.AcceptedIff | src/encoders.zig:34-73 | acceptance, exactly: digits, padding and tail after removing line breaks, the size limit and the work budget |
| Base64.StrippedParts | src/encoders.zig:37-48 | line breaks are skipped character by character: only carriage returns and line feeds are left out, and nothing else of any part of the text |
| Base64.BreaksDecodeAlike | src/encoders.zig:37-48 | line breaks inserted anywhere do not change the decoded bytes, given the budget |
| Base64.DecodeCanonicalises | src/encoders.zig:52-73 | accepted bytes encode to the digits of the text with unused tail bits cleared and full padding |
| Base64.DecodeAfterEncode | src/encoders.zig:21-73 | decode after encode is the identity for both alphabets, for exactly the announced work |
| Base64.BytesOfDigits | src/encoders.zig:29-32 | bytes come back from their digits |
| Base64.DigitsOfBytes | src/encoders.zig:59-73 | digits come back from their bytes, except for the cleared tail bits |
| Base64.SameNumber | src/encoders.zig:29-32 | the digits are the same number in base 64 as the bytes in base 256, completed with zero bits |
| Base64.EncodedLength | src/encoders.zig:25-27 | the encoded length is four times the groups of three, rounded up, and what follows the digits is `=` |
| Base64.Budget.Charge | src/encoders.zig:76-79 | charging takes the cost or leaves the budget alone |
| Durations.NormalizePreservesMeaning | src/temporal.cc:38-65 | for every duration text, any number of components and any sign, the rewritten text is a duration text of the same rational value without long nanosecond counts |
| Durations.Normalize | src/temporal.cc:38-65 | the loop with its three positions computes the rewriting function on every input |
| Durations.NormalizedText | src/temporal.cc:38-65 | from any point between components, the loop produces the shifted components |
| Durations.ShiftedValue | src/temporal.cc:50-60 | moving the point nine places and changing `ns` to `s` keeps the value |
| Durations.ParseDuration | src/temporal.cc:29-77 | given a parser: characters, first try, rewritten second try, and the range; what is stored is the value read without what is beyond whole nanoseconds, on either side of zero. With a parser that rounds components down to quarters of a nanosecond, every duration text with up to eighteen integer digits, 27 for nanoseconds, gives the nanoseconds of its ticks or is out of range, and texts of whole nanoseconds give exactly what they denote |
| Durations.ParsingIsExact | src/temporal.cc:29-77 | with a parser that rounds every component down to quarters of a nanosecond, refuses or saturates, every duration text with up to eighteen integer digits, 27 for nanoseconds, is read as exactly its components in those ticks, by whichever attempt succeeds |
| Durations.WholeTicksAreExact | src/temporal.cc:29-77 | where every component is a whole number of ticks, what is read is the value the text denotes |
| Durations.TicksClose | src/temporal.cc:66-72 | rounding loses less than a tick for every component, and nothing if and only if every component is a whole number of ticks |
| Durations.ShiftedAllTicks | src/temporal.cc:38-65 | the rewriting changes no component's rounding |
| Durations.RoundingLosesNanoseconds | src/temporal.cc:66-72 | `0.3ns0.3ns0.4ns` denotes one nanosecond and is read as none |
| ConformanceValues.ValuesEqual | conformance/values.py:124-160 | the comparator, greedy matching included, answers exactly the order-independent equality |
| ConformanceValues.EntriesMatch | conformance/values.py:146-158 | popping the first match succeeds if and only if some bijection pairs equal entries |
| ConformanceValues.FirstMatch | conformance/values.py:152-157 | the first equal candidate, or none |
| ConformanceValues.AnyCandidate | conformance/values.py:152-157 | whichever equal candidate is popped, a bijection remains for the rest if there was one |
| ConformanceValues.Reflexive | conformance/values.py:124-160 | a value equals itself if and only if it is well formed everywhere |
| ConformanceValues.SameIsIdentical | conformance/values.py:124-160 | only the order of map entries is forgotten: without maps, equal values are identical |
| ConformanceValues.Symmetric | conformance/values.py:124-160 | equality is symmetric |
| ConformanceValues.Transitive | conformance/values.py:124-160 | equality is transitive |

## Left out

- Work metering: the fast path counts no steps and every match in it has a fresh budget, so a program that exceeds the engine's limits may still be answered; limits of the evaluator are not modelled.
- Engine.Evaluate: the limits of the conversion on depth, number of values and bytes, and which values outside the plain-data shape convert, are parameters; which exception a refusal raises is not modelled.
- Values.Key: dictionary keys other than booleans, integers and texts cannot be expressed: `UInt` keys, and floats, None and tuples, which the engine refuses wherever they are nested (`src/python.zig:446-460`), so "all bindings" does not cover them.
- Values outside the plain-data shape: floats, bytes, null, types, timestamps and messages are opaque, and so are the operators on them.
- Iteration over a map with `all` and `exists`: left to the host parameter of the engine, since the compiled functions bail on it.
- RE2: a parameter of the engine and of the compiled functions; that it answers the same for the same text and pattern in both is built in, the length limit on patterns and the fatal errors are modelled.
- The parser, the checker, and the emitter of plans: a plan is any plan tree, except that the JavaScript results assume the integer range and well-formed texts that `src/fast_plan.zig:44-51` guarantees.
- The depth limit of plans (64, `src/fast_plan.zig:27`), Python's recursion limit, CPython's limit of about twenty statically nested loops, beyond which deeply nested `all` and `exists` make the compilation at `bindings/python/src/cel/plain.py:397` raise `SyntaxError`, and the text of generated JavaScript.
- JavaScript's negative zero: `Number.isSafeInteger` accepts it and the engine takes it for a double; numbers are modelled by their value, so the sign of zero is not captured.
- Doubles: the ends of the exponent range are left out, which safe integers do not reach.
- JavaScript getters, proxies, inherited properties, holes in arrays and captured intrinsics: objects are maps of own properties.
- Engine.Resolve: which names are built in is a parameter, and they stand for opaque values, the enum constants of well-known descriptors included; containers, constants and extension functions are left out, and so are the plans of programs that have any, because the engine emits none.
- Engine.Eval: error kinds are modelled, error messages and partial results of failed calls are not.
- PlainEncoder.PlainEncoder.EncodeInto: bytes behind the counted ones after a refused string are unspecified, as they are in the source's protocol.
- PlainStream: the converter of deferred values (typed arrays, captured maps, wrapper classes) is not part of this model; a deferred value decodes to its place in the deferred list.
- ProtoJson.Scope.BoxValue: messages are values here, so filling them in place, arena ownership and descriptor lookup are not captured; timestamps, durations, enums and nested messages, which go through protobuf's JSON text, and boxing into other message types are left out.
- ProtoJson.Scope.ThroughValue: entries of maps are kept in order here, which protobuf does not promise; ProtoMaps.ThroughStoredValue drops the assumption.
- ProtoAny.BoxAny: the wire format and the known type names are parameters that lose nothing; lists and maps inside `google.protobuf.Any` are left out.
- ProtoAny.AdaptAny: of the well-known types, `Struct`, `ListValue`, a `Value` other than null, a nested `Any` and the narrow wrappers `FloatValue`, `Int32Value` and `UInt32Value` inside `google.protobuf.Any` are left out; other messages are opaque.
- Descriptors.LoadFiles: building one file is a parameter, and messages of failed builds are left out.
- EqualityCosts.Scope.Equal: the byte size of a message and the comparison itself are parameters.
- Durations.ParseDuration: Abseil's parser is a parameter, assumed to read duration texts in quarter-nanosecond ticks where it answers, with fractions of at most 17 digits for minutes and 15 for hours; texts that are no durations are covered only as far as that parser refuses them.
- ConformanceValues.ValuesEqual: numbers given as JSON texts are decoded, messages are compared by a canonical form.
- Evaluation of timestamps, selectors, formatting, networks and optionals; type codecs, report summaries, ownership and garbage collection.
