# Verified models of Luau's test runner, tools and analysis helpers

This project models the parts of the Luau repository whose correctness does not show in any one
function body: a test runner steered by what earlier runs recorded, a search with a single backtrack
point, delta debugging, a walk over cyclic type graphs, a printer built on a mutable comma flag, an
arena of SSA definitions, pruned tree searches, and the heap and profile tools. One Dafny file stands
for one source file or component. Check it with `dafny verify dfyconfig.toml`.

| file | component | main result |
|---|---|---|
| `Glob.dfy` | `wildcmp` in `extern/doctest.h` | the matcher with one backtrack point decides the declarative meaning of a pattern, for any character equivalence; the two the runner uses compare exactly, and after lowering the 26 letters |
| `Subcases.dfy`, `SubcaseEngine.dfy`, `SubcaseFailures.dfy` | subcases in `extern/doctest.h` | the re-run loop ends, runs every leaf subcase once in depth-first source order and reports nothing else, if and only if sibling signatures are distinct; on any tree a run reports exactly the ways down to what it enters |
| `FlagBisect.dfy` | `tools/flag-bisect.py` | for every oracle the search returns an order-preserving sublist that is the input itself or hot, and 1-minimal, if and only if no flag is repeated; so does the parallel search in every order of completion, under the same condition; a cubic and a quadratic bound on oracle calls and on jobs started |
| `Autocomplete.dfy`, `AutocompleteEntries.dfy` | `autocompleteProps` | termination on every finite type graph; which names are offered, and with which entry, on every acyclic type; exactly when a union offers the names common to its options |
| `Json.dfy`, `SyntaxTree.dfy`, `AstReader.dfy`, `AstJsonEncoder.dfy` | `AstJsonEncoder.cpp` | the text of a tree parses, under the grammar of RFC 8259, if and only if nothing in it instantiates with type arguments; what it parses to reads back, by the names of members, as the tree |
| `Defs.dfy` | `Def.cpp` | every reachable arena is flat; `phi` is an ordered set join |
| `AstQuery.dfy` | `AstQuery.cpp` | the pruned search equals the plain one; exactly when its answer is the one deepest node |
| `Layout.dfy` | `tools/svg.py` | widths are subtree sums, children lie inside their parents, widest first and equal widths in order, nodes of equal depth never overlap |
| `Trace.dfy` | `tools/tracegraph.py` | what each end event adds, told from the events alone; self time is conserved after every event and never negative |
| `HeapGraph.dfy` | `tools/heapgraph.py`, search | which fields are strong references; visited is reachable, each new object is charged once, at a node that spells a shortest chain of references; exactly when the analysis fails |
| `HeapCategories.dfy` | `tools/heapgraph.py`, categories | exactly when splitting by category keeps the total size |
| `HeapSnapshot.dfy` | `tools/heapsnapshot.py` | reading the flat arrays gives back every object's references, type and address |
| `Numprint.dfy` | `tools/numprint.py` | powers of ten are exact or bracketed by one unit; exactly when the bit loop yields the top bits |
| `MapSums.dfy`, `Wrappers.dfy` | | sums over maps, and what several components share |

State that the source updates in place is a class with those fields (`SubcaseEngine.Context`,
`AstJsonEncoder.Encoder`, `Defs.DefArena`, `AstQuery.FindNode`, `HeapSnapshot.Builder`) or an array
(`Layout`); its loops are loops with invariants. Specification functions carry the lemmas, and the
methods are proved equal to them.

These results say where the code falls short of the property one would expect, and exactly when it
does not:

- `SubcaseEngine.EachLeafOnceIffDistinct`: every leaf runs once, and nothing else happens, if and only if
  sibling signatures are distinct. With repeated ones a run can read the stack behind its end
  (`SubcaseFailures.TwinsGoOutOfRange`), and a test can be re-run for ever (`SubcaseFailures.DoubledNeverEnds`).
- `FlagBisect.MinimisesIffDistinct`, `FlagBisect.ParallelMinimisesIffDistinct`: both searches minimise
  for every oracle if and only if no flag is repeated (`FlagBisect.RepeatedFlags`); with repeated flags a
  parallel round can start jobs for ever (`FlagBisect.CrowdNeverEnds`).
- `Autocomplete.UnionKeepsCommon`: a union offers exactly the names its options have in common if and
  only if the later options offer them without passing through the first. What the first option has
  seen is carried over, so a name can be lost (`Autocomplete.SharedFirstOptionLosesNames`).
- `AstJsonEncoder.Encode`: an instantiation with type arguments is written without separators, and its
  text parses nowhere (`AstJsonEncoder.InstantiatedCallBreaks`); all other trees of the fragment have a
  JSON text.
- `AstQuery.FindNodeAtPosition`: at the end of the document there is one deepest node if and only if
  no two siblings end there (`AstQuery.EmptyNodeAtEnd`).
- `Numprint.WindowIsTopBits`: for powers of two the rounded-up logarithm is one short of the bit
  length, and the bit loop yields 0; for all other numbers it yields the top bits.
- `HeapCategories.Split`: categories that share a name overwrite each other, and categories from 256
  on are dropped; the total is kept if and only if neither happens
  (`HeapCategories.SharedNameLosesSize`).

## Model

| member | source | states |
|---|---|---|
| `Glob.WildcmpBy` | extern/doctest.h:4065-4099 | for every equivalence that separates the terminator, returns true exactly when the recursive, declarative matcher accepts; the loops end by the measure (pattern behind the last star, restart point, position) |
| `Glob.Wildcmp` | extern/doctest.h:4065-4099 | decides what the filter means: case-sensitive, a match of the string as it is; otherwise a match of the two strings with the 26 capital letters replaced by the small ones and everything else kept |
| `Glob.ComparesAsMeant` | extern/doctest.h:4070-4086 | comparing character by character, lowered or not, is comparing the lowered strings, or the strings themselves |
| `Glob.ToLowerIs` | extern/doctest.h:4070-4070 | lowering is given by the 26 pairs of letters and changes no other character |
| `Glob.CaseDoesNotMatter` | extern/doctest.h:4065-4099 | names that differ in the case of letters only are accepted by the same case-insensitive filters |
| `Glob.SkipLiteralPrefix` | extern/doctest.h:4069-4076 | either refutes the match or leaves an equivalent problem at the end of the string or in front of a star |
| `Glob.OnlyStars` | extern/doctest.h:4095-4098 | accepts exactly when the rest of the pattern matches the empty string |
| `Glob.LastStarSuffices` | extern/doctest.h:4079-4084 | when a later star is met, every match by way of an earlier restart is also one by way of the new star: forgetting the old backtrack point loses nothing |
| `Glob.NoRestartAtEnd` | extern/doctest.h:4078-4093 | with the string used up no remembered restart can match |
| `Glob.MeetStar` | extern/doctest.h:4079-4084 | a star keeps the invariant of the second loop with a new restart point, and a final star means a match |
| `Glob.MeetOther` | extern/doctest.h:4085-4092 | a matching character advances, any other falls back to the restart point, and either keeps the invariant |
| `Glob.UsedUp` | extern/doctest.h:4078-4098 | when the string is used up, the whole problem is whether the rest of the pattern matches nothing |
| `Glob.LiteralRun` | extern/doctest.h:4085-4088 | a star-free stretch of pattern consumes as many characters as it has |
| `Glob.StarAbsorbs` | extern/doctest.h:4079-4084 | what a star accepts it also accepts with more in front |
| `Glob.StarOpens` | extern/doctest.h:4079-4084 | a star matches exactly when the rest matches here or at some later restart |
| `Glob.EmptyMatch` | extern/doctest.h:4095-4098 | the empty string is matched by exactly the patterns of stars |
| `Glob.MatchesAny` | extern/doctest.h:4101-4111 | true exactly when some filter accepts the name in this sense, or the list is empty and empty lists match |
| `SubcaseEngine.Context.Enter` | extern/doctest.h:4157-4187 | computes the constructor step on every state an execution can be in: which subcases are entered, reported or remembered for the next run, and when the stack is read behind its end |
| `SubcaseEngine.ReportsAreEntered` | extern/doctest.h:4157-4187 | on any body, repeated siblings included, descending or behind the leaf: the reports added are, in order, the signatures of the scopes around each subcase entered with its own behind them, each followed by the reports from inside it |
| `SubcaseEngine.RunReportsEntered` | extern/doctest.h:6913-6964 | so it is for every run of a test |
| `SubcaseEngine.Context.Leave` | extern/doctest.h:4193-4205 | computes the destructor step: a leaf clears the next path, and a subcase with nothing left behind it becomes fully traversed |
| `SubcaseEngine.Context.RunBody` | extern/doctest.h:4157-4205 | executes any body, repeated siblings included, as the step functions say, or stops at a read behind the end of the stack |
| `SubcaseEngine.Context.RunSubcase` | extern/doctest.h:4157-4205 | the same for one subcase from its constructor to the end of its scope |
| `SubcaseEngine.ExecBody` | extern/doctest.h:4157-4205 | with distinct siblings: descending, a body enters exactly the way to its target leaf, finishes that leaf, and leaves the path to the depth-first successor; behind the leaf it enters nothing and remembers the first subcase met |
| `SubcaseEngine.DescendOne` | extern/doctest.h:4160-4169 | the same for the one subcase of a body that is entered |
| `SubcaseEngine.ExecEntered` | extern/doctest.h:4193-4205 | the body of an entered subcase and its destructor together finish its target leaf |
| `SubcaseEngine.Context.RunTest` | extern/doctest.h:6913-6964 | for every tree and any number of runs watched: where the loop stands is what the step functions say; watched for one run per leaf, it has ended with the leaves in order, one run each, and exactly the paths to them reported, if and only if sibling signatures are distinct |
| `SubcaseEngine.EachLeafOnceIffDistinct` | extern/doctest.h:6913-6964 | the loop ends without a read out of range, with the leaves as its runs and the ways down to them as its reports, if and only if sibling signatures are distinct at every level |
| `SubcaseEngine.DistinctRunsEachLeaf` | extern/doctest.h:6913-6964 | with distinct siblings the loop ends, whatever the tree |
| `SubcaseEngine.LoopReports` | extern/doctest.h:4170-4175 | on any tree the reports are at least the ways down, and more as soon as a run passes a repeated sibling |
| `SubcaseEngine.SomeLeafMeetsRepeat` | extern/doctest.h:4160-4169 | in a tree with a repeated signature the way down to some leaf passes it |
| `SubcaseEngine.Reenters` | extern/doctest.h:4171-4175 | behind a finished leaf a sibling with the signature on the stack is entered again |
| `SubcaseFailures.TwiceIsReportedTwice` | extern/doctest.h:4171-4175 | `a { b }` met twice in one body, as in a loop: one run, and the reports a, ab, a, ab |
| `SubcaseFailures.TwinsGoOutOfRange` | extern/doctest.h:4170-4172 | of `a { b }, a { c }` the second run reads the stack behind its end, and `c` never runs |
| `SubcaseFailures.DoubledNeverEnds` | extern/doctest.h:4176-4185 | `a { b { x } c { y } }` written twice is re-run for ever: inner subcases are never marked as traversed |
| `Subcases.LeavesAreTheLeaves` | extern/doctest.h:6913-6964 | the list of leaves holds exactly the paths that end in an empty body, none twice if siblings are distinct |
| `Subcases.SuccessorOrder` | extern/doctest.h:4176-4185 | the target of a run is the first remaining leaf, and the leaves remaining from its successor are the others in order |
| `Subcases.SuccessorHere` | extern/doctest.h:4176-4185 | the same where the first subcase is the one to run |
| `Subcases.FinishTarget` | extern/doctest.h:4197-4205 | marking the target as traversed marks nothing at or behind its successor |
| `Subcases.NextRun` | extern/doctest.h:6913-6964 | the end of a run sets up the next one: its path leads into the tree and everything behind it is untouched |
| `Subcases.DescendFirst` | extern/doctest.h:4160-4169 | a descent goes on into the first subcase when that is the wanted one or none is wanted |
| `FlagBisect.Round` | tools/flag-bisect.py:268-282 | takes the first hot candidate in order and counts the calls; without one, no candidate is hot; with more slices asked for than flags the whole list, known to be hot, is taken again with a lower granularity |
| `FlagBisect.TrySlices` | tools/flag-bisect.py:249-282 | the loop over the slices of one length, empty slices included |
| `FlagBisect.Ddmin` | tools/flag-bisect.py:261-290 | for any list of flags: ends with a sublist that is the input itself or hot; for distinct flags also nonempty if the input is and 1-minimal if it has two flags or more, with at most 2n(n-1)(n+1)/3 and at most 2n^2+8n calls |
| `FlagBisect.ParallelRound` | tools/flag-bisect.py:298-342 | in every order of completion the round ends with a hot candidate, or with no candidate hot; it starts one job per candidate |
| `FlagBisect.DdminParallel` | tools/flag-bisect.py:292-350 | for any list of flags: ends as some order of completion does, with a sublist that is the input itself or hot, or in a round that starts jobs for ever; for distinct flags always with a minimised list, and with at most 2n(n-1)(n+1)/3 and at most 2n^2+8n jobs started |
| `FlagBisect.ParallelMinimisesIffDistinct` | tools/flag-bisect.py:292-350 | every order of completion ends with a minimised list, for every oracle and already for every oracle on sets of flags, if and only if no flag is repeated |
| `FlagBisect.EveryOrderMinimises` | tools/flag-bisect.py:299-350 | on distinct flags, from every state the loop can be in |
| `FlagBisect.CrowdNeverEnds` | tools/flag-bisect.py:249-254 | eight flags, six of them equal, on which some order of completion leads to a round of empty slices, which never ends |
| `FlagBisect.ComplementOfSlice` | tools/flag-bisect.py:256-258 | on distinct flags the complement by membership is what surrounds the slice |
| `FlagBisect.CandidatesShrink` | tools/flag-bisect.py:249-258 | every candidate is a nonempty, shorter, distinct sublist with room for its granularity |
| `FlagBisect.CandidatesDropEach` | tools/flag-bisect.py:249-258 | with slices of one flag every single flag is left out by some candidate |
| `FlagBisect.CandidatesCount` | tools/flag-bisect.py:249-258 | a round has at most two candidates per flag and at most four per unit of granularity |
| `FlagBisect.SliceLength` | tools/flag-bisect.py:249-254 | with 2 <= granularity <= length a slice is never empty and at most half |
| `FlagBisect.MinimisesIffDistinct` | tools/flag-bisect.py:261-290 | the result is minimised in this sense for every oracle, and already for every oracle on sets of flags, if and only if no flag is repeated |
| `FlagBisect.MinimiseMinimises` | tools/flag-bisect.py:268-290 | on distinct flags, from every state the loop can be in |
| `FlagBisect.RepeatedFlags` | tools/flag-bisect.py:256-258 | with a repeated flag, one of two oracles on sets of flags defeats both searches: hot only without flags, and none is left; or hot only with all flags, and the whole list is returned although one of the equal flags can be left out |
| `FlagBisect.EmptyOrWholeFrom` | tools/flag-bisect.py:249-287 | at every granularity, the first of these oracles ends both searches with no flag, or the second with the whole list |
| `FlagBisect.AllOrNothing` | tools/flag-bisect.py:256-258 | a candidate that keeps all flags is a slice whose complement, also a candidate, is empty |
| `FlagBisect.CandidateForm` | tools/flag-bisect.py:249-258 | every candidate is a nonempty slice of at most its share, or what membership leaves without one |
| `FlagBisect.CandidatesAt` | tools/flag-bisect.py:249-258 | with the greatest slice length of which as many as the granularity fit: the k-th slice begins at k times the length and ends there plus the length or at the end of the list, its complement comes right before it, and there are no other candidates |
| `FlagBisect.FirstHotIsFirst` | tools/flag-bisect.py:268-282 | what a round takes is hot, and nothing that comes before it in the round is |
| `FlagBisect.StuckIsMinimal` | tools/flag-bisect.py:284-286 | a round at the finest granularity without a hot candidate proves 1-minimality |
| `FlagBisect.StepShrinks` | tools/flag-bisect.py:273-282 | taking a hot candidate keeps the state of the search, with 2 <= granularity <= length |
| `FlagBisect.BudgetOfMove` | tools/flag-bisect.py:273-282 | taking a candidate pays for the calls of its round in both budgets |
| `FlagBisect.BudgetOfRefinement` | tools/flag-bisect.py:284-287 | doubling the granularity, or stopping, pays for the calls of a fruitless round |
| `FlagBisect.CubicClosedForm` | tools/flag-bisect.py:268-287 | the closed form of the cubic budget |
| `FlagBisect.BudgetBounds` | tools/flag-bisect.py:268-287 | the budgets at the start are the two bounds |
| `Autocomplete.Visit` | Analysis/src/AutocompleteCore.cpp:331-336 | the walk ends on every closed finite graph, cyclic ones included, by (unseen unions and intersections, unseen types); the types seen grow by the start and stay in the graph |
| `Autocomplete.VisitUnion` | Analysis/src/AutocompleteCore.cpp:525-604 | the same below a union, although later options restart with part of the types seen |
| `Autocomplete.VisitIndex` | Analysis/src/AutocompleteCore.cpp:456-478 | the same along `__index` |
| `Autocomplete.AutocompleteProps` | Analysis/src/AutocompleteCore.cpp:331-617 | the procedure over its two updated maps ends and computes the walk |
| `Autocomplete.FillMetatableProps` | Analysis/src/AutocompleteCore.cpp:456-478 | the procedure computes the walk along `__index` |
| `Autocomplete.CompleteParts` | Analysis/src/AutocompleteCore.cpp:511-524 | the loop over parts computes the walk over an intersection; earlier entries win |
| `Autocomplete.CompleteOptions` | Analysis/src/AutocompleteCore.cpp:525-604 | the loops over options compute the walk over a union |
| `Autocomplete.CompleteLaterOptions` | Analysis/src/AutocompleteCore.cpp:554-603 | the erasing loop keeps the entries every later option that counts offers |
| `Autocomplete.UnionKeepsCommon` | Analysis/src/AutocompleteCore.cpp:525-604 | on every acyclic type: a union offers exactly the names each of its options offers by itself, if and only if each of these names is offered by the later options without passing through the first one that counts, where that is an intersection |
| `Autocomplete.UnionOffersExactly` | Analysis/src/AutocompleteCore.cpp:525-604 | against the ideal of nested unions and intersections: a union offers exactly its names if and only if every option offers each of them, the later ones without passing through the first |
| `Autocomplete.OffersExactly` | Analysis/src/AutocompleteCore.cpp:480-604 | where no first option recurs below a later one, the names offered are exactly: own and inherited readable names of classes, names of tables, names of any part, names common to all options that count |
| `Autocomplete.TreesOfferExactly` | Analysis/src/AutocompleteCore.cpp:480-604 | so on all types whose parts and options share no types |
| `Autocomplete.VisitOffers` | Analysis/src/AutocompleteCore.cpp:480-604 | on every acyclic type and for any types seen before: the walk adds exactly the names that are offered when the seen types offer nothing, and which unions and intersections stay seen |
| `Autocomplete.ExternOffers` | Analysis/src/AutocompleteCore.cpp:480-486 | the class case: its own and its ancestors' names |
| `Autocomplete.PartsOffer` | Analysis/src/AutocompleteCore.cpp:511-524 | an intersection adds the names any part offers, given the types seen |
| `Autocomplete.UnionOffers` | Analysis/src/AutocompleteCore.cpp:525-604 | a union offers what its first option that counts and all later ones offer, the first hidden from the later ones if it is an intersection |
| `Autocomplete.OptionsOffer` | Analysis/src/AutocompleteCore.cpp:554-603 | the later options keep exactly the names all of them offer, given the unions and intersections seen |
| `Autocomplete.HidingLoses` | Analysis/src/AutocompleteCore.cpp:556-569 | the more types are seen before, the fewer names are offered |
| `Autocomplete.NeverTooMany` | Analysis/src/AutocompleteCore.cpp:480-604 | never a name that should not be offered |
| `Autocomplete.ExternNearest` | Analysis/src/AutocompleteCore.cpp:417-454 | along a class chain a name maps to the nearest class that can read it, with the class the chain started from, and earlier entries stay |
| `AutocompleteEntries.VisitEntries` | Analysis/src/AutocompleteCore.cpp:331-617 | on every acyclic type, for any entries before and any types seen: a name keeps the entry it had, unless a table has it as a string key; otherwise it gets that of the nearest class that can read it, with the class the chain began at, of the table's string key or property, of the first part that offers it, or of the first option that counts |
| `AutocompleteEntries.CompletionEntries` | Analysis/src/AutocompleteCore.cpp:331-617 | so completion of a type gives each name the entry of the type, and no entry to other names |
| `AutocompleteEntries.OptionsKeepEntries` | Analysis/src/AutocompleteCore.cpp:590-603 | later options only erase entries, they never replace one |
| `AutocompleteEntries.FirstOptionWins` | Analysis/src/AutocompleteCore.cpp:550-603 | a property that two tables give different types has in their union the type of the first |
| `AutocompleteEntries.TableEntries` | Analysis/src/AutocompleteCore.cpp:487-501 | a table: earlier entries go before its properties, and its string keys, the last of equal ones, before both; keys only behind a point |
| `AutocompleteEntries.PassedOver` | Analysis/src/AutocompleteCore.cpp:531-588 | beside nil, and with the flag beside an error or never type, an option completes as it does alone |
| `AutocompleteEntries.NothingInCommon` | Analysis/src/AutocompleteCore.cpp:531-603 | without the flag an error or never type in a union leaves nothing to offer |
| `AutocompleteEntries.IndexEntries` | Analysis/src/AutocompleteCore.cpp:456-478 | `__index` leads to a table itself or to the first result of a function, and that table fills in what is missing |
| `AutocompleteEntries.MetatableEntries` | Analysis/src/AutocompleteCore.cpp:502-510 | a table with a metatable gives its own entries before those of the table behind `__index` |
| `AutocompleteEntries.StringLiteralEntries` | Analysis/src/AutocompleteCore.cpp:605-616 | a string literal gives the entries of the table behind the `__index` of the built-in string type |
| `Autocomplete.SharedFirstOptionLosesNames` | Analysis/src/AutocompleteCore.cpp:550-588 | in a union of an intersection `a` and an intersection of `a` and other types, a name that only `a` offers should be offered and is not |
| `Autocomplete.ExampleLosesNames` | Analysis/src/AutocompleteCore.cpp:550-588 | such a type, of six nodes, that should offer two names and offers none |
| `Json.StringRoundTrip` | Analysis/src/AstJsonEncoder.cpp:134-173 | decoding an escaped string under section 7 of RFC 8259 gives back every character |
| `Json.DigitsRoundTrip` | Analysis/src/AstJsonEncoder.cpp:179-202 | decimal digits read back as the number |
| `Json.IntParses` | Analysis/src/AstJsonEncoder.cpp:179-202 | signed integers read back as the number |
| `Json.ItemsParse` | Analysis/src/AstJsonEncoder.cpp:388-403 | comma-separated values parse to the list |
| `Json.MembersParse` | Analysis/src/AstJsonEncoder.cpp:88-98 | comma-separated members parse to the list, in order |
| `Json.RoundTrip` | Analysis/src/AstJsonEncoder.cpp:277-287 | every value, written and followed by anything that ends it, parses to itself |
| `Json.TextRoundTrip` | Analysis/src/AstJsonEncoder.cpp:277-287 | the same for a whole text |
| `Json.RowBreaks` | Analysis/src/AstJsonEncoder.cpp:289-292 | wherever two values are written directly behind each other, the text around them does not parse as a value, whatever follows it |
| `Json.TextBreaks` | Analysis/src/AstJsonEncoder.cpp:289-292 | so the whole text does not parse |
| `AstJsonEncoder.Encoder.NewChunk` | Analysis/src/AstJsonEncoder.cpp:44-48 | a new chunk changes no text |
| `AstJsonEncoder.Encoder.AppendChunk` | Analysis/src/AstJsonEncoder.cpp:50-71 | the joined chunks grow by exactly the text, the last chunk stays below the chunk size, and all chunks but the last are left alone |
| `AstJsonEncoder.Encoder.WriteChar` | Analysis/src/AstJsonEncoder.cpp:138-170 | appends the escape of one character |
| `AstJsonEncoder.Encoder.WriteString` | Analysis/src/AstJsonEncoder.cpp:134-173 | appends the quoted string |
| `AstJsonEncoder.Encoder.WritePosition` | Analysis/src/AstJsonEncoder.cpp:240-245 | appends line and column |
| `AstJsonEncoder.Encoder.WriteLocation` | Analysis/src/AstJsonEncoder.cpp:247-254 | appends a location as a quoted string that needs no escapes |
| `AstJsonEncoder.Encoder.BeginProp` | Analysis/src/AstJsonEncoder.cpp:88-98 | writes a comma exactly when the object already has a member, then the name |
| `AstJsonEncoder.Encoder.PropNode` | Analysis/src/AstJsonEncoder.cpp:88-98 | adds one member, the value of the node, to the open object |
| `AstJsonEncoder.Encoder.PropArray` | Analysis/src/AstJsonEncoder.cpp:88-98 | adds one member, the array of values |
| `AstJsonEncoder.Encoder.WriteArray` | Analysis/src/AstJsonEncoder.cpp:388-403 | appends the array of the items' values and leaves the comma flag as it was |
| `AstJsonEncoder.Encoder.OpenObject` | Analysis/src/AstJsonEncoder.cpp:280-281 | starts an object and saves the comma flag |
| `AstJsonEncoder.Encoder.CloseObject` | Analysis/src/AstJsonEncoder.cpp:285-286 | ends the object with all its members and restores the flag |
| `AstJsonEncoder.Encoder.WriteLocal` | Analysis/src/AstJsonEncoder.cpp:256-270 | appends the value of a local, with or without annotation, and restores the flag |
| `AstJsonEncoder.Encoder.WriteTableItem` | Analysis/src/AstJsonEncoder.cpp:539-557 | appends the value of a table item and restores the flag |
| `AstJsonEncoder.Encoder.WriteNode` | Analysis/src/AstJsonEncoder.cpp:277-287 | appends the value of a node and restores the flag |
| `AstJsonEncoder.Encoder.Write` | Analysis/src/AstJsonEncoder.cpp:289-292 | the same for everything that can be written |
| `AstJsonEncoder.Encoder.WriteInstantiate` | Ast/src/Ast.cpp:577-584 | a node without a writer of its own: its expression and its type arguments are written one behind the other |
| `AstJsonEncoder.Encoder.WriteIfFields` | Analysis/src/AstJsonEncoder.cpp:746-760 | adds the members of a conditional, the optional else branch only when present |
| `AstJsonEncoder.Encoder.WriteForFields` | Analysis/src/AstJsonEncoder.cpp:836-852 | adds the members of a numeric loop, the optional step only when present |
| `AstJsonEncoder.Encoder.WriteBlockFields` | Analysis/src/AstJsonEncoder.cpp:721-744 | the hand-written members of a block come out as ordinary members |
| `AstJsonEncoder.Encode` | Analysis/src/AstJsonEncoder.cpp:277-292 | the text of a tree parses if nothing written instantiates with type arguments, and does not parse otherwise; what it parses to reads back, member by member, as the tree without the keys of list items and without instantiations |
| `AstReader.ReadsBack` | Analysis/src/AstJsonEncoder.cpp:277-292 | a reader that looks up types and members by name, and knows nothing of the order or manner of writing, gets the tree back from the value of every tree without such instantiations, with no child in another's place |
| `AstReader.BinaryReadsBack` | Analysis/src/AstJsonEncoder.cpp:681-693 | in particular an operator with its left and right operand, each where it was |
| `AstReader.LocationReadsBack` | Analysis/src/AstJsonEncoder.cpp:240-254 | the four numbers of a location are recovered from its text |
| `AstReader.OpReadsBack` | Analysis/src/AstJsonEncoder.cpp:630-679 | every operator is recovered from its name |
| `AstReader.TableItemReadsBack` | Analysis/src/AstJsonEncoder.cpp:539-557 | a table item with its kind, its key unless it is a list item, and its value |
| `AstJsonEncoder.ValueIsClean` | Analysis/src/AstJsonEncoder.cpp:277-292 | the value of a tree is JSON exactly when nothing written in it instantiates with type arguments |
| `AstJsonEncoder.InstantiatedCallBreaks` | Ast/src/Ast.cpp:577-584 | a call whose function is instantiated with a type argument has a text that does not parse |
| `Defs.DefArena.FreshCell` | Analysis/src/Def.cpp:39-42 | adds a cell to a flat arena; it is subscripted exactly when asked for |
| `Defs.DefArena.CollectOperands` | Analysis/src/Def.cpp:21-37 | appends the atoms of a definition that are new, in order |
| `Defs.DefArena.Phi` | Analysis/src/Def.cpp:49-60 | returns the ordered, deduplicated join; the arena stays flat |
| `Defs.PhiKeepsFlat` | Analysis/src/Def.cpp:49-60 | no phi ever has a single operand, and all operands are different, earlier cells or empty phis; earlier definitions never change |
| `Defs.EveryArenaIsFlat` | Analysis/src/Def.cpp:39-60 | the same for every arena that any sequence of requests builds |
| `Defs.NestedPhi` | Analysis/src/Def.cpp:28-36 | joining a phi is joining what it was made of, in place |
| `Defs.PhiAssociative` | Analysis/src/Def.cpp:44-60 | both ways of joining three definitions join the same atoms in the same order |
| `Defs.PhiCommutativeIdempotent` | Analysis/src/Def.cpp:44-60 | order does not matter to the set of atoms, and a definition joined with itself is itself |
| `Defs.PhiSubscripted` | Analysis/src/Def.cpp:11-19 | a join contains a subscripted definition exactly when an input does |
| `Defs.AppendNewTwice` | Analysis/src/Def.cpp:24-25 | removing duplicates first makes no difference |
| `AstQuery.FindNode.Consider` | Analysis/src/AstQuery.cpp:135-153 | remembers exactly the nodes at the position, the end of the document included |
| `AstQuery.OrderIsTextOrder` | Ast/include/Luau/Location.h:33-50 | positions of a text are ordered as the numbers of characters in front of them, for any lengths of lines |
| `AstQuery.LocationIsRange` | Ast/src/Location.cpp:21-39 | so a location encloses another, or contains a position, with its end or without it, exactly when its range of characters does |
| `AstQuery.FindNode.Visit` | Analysis/src/AstQuery.cpp:135-153 | on well-nested trees, cutting off nodes that miss gives the result of visiting everything |
| `AstQuery.FindNode.VisitBlock` | Analysis/src/AstQuery.cpp:165-180 | the same with statements skipped before and cut off behind the position |
| `AstQuery.FindNodeAtPosition` | Analysis/src/AstQuery.cpp:263-275 | the root for positions before it, else the last node found by the plain search; it is the one deepest node if and only if the position is before the end of the document or no two siblings end there |
| `AstQuery.LastHitIsDeepest` | Analysis/src/AstQuery.cpp:135-153 | the nodes at the position are exactly those on the way to the last one found |
| `AstQuery.DeepestIsSharp` | Analysis/src/AstQuery.cpp:143-150 | a single deepest node at the end of the document rules out two siblings ending there, anywhere in the tree |
| `AstQuery.EmptyNodeAtEnd` | Analysis/src/AstQuery.cpp:143-150 | an empty node behind another at the end of the document: the node found is not the one deepest |
| `AstQuery.DeepestThrough` | Analysis/src/AstQuery.cpp:135-153 | the deepest node of the child that is hit is the deepest of the parent |
| `AstQuery.NoHitBelow` | Analysis/src/AstQuery.cpp:135-153 | below a node that misses, everything misses |
| `AstQuery.HitAt` | Analysis/src/AstQuery.cpp:169-177 | the scan over the children ends with what lies below the one that is hit |
| `AstQuery.FindScopeAtPosition` | Analysis/src/AstQuery.cpp:286-305 | none only for no scopes; for nested scopes the one found is enclosed by all scopes at the position |
| `Layout.Subtree` | tools/svg.py:20-30 | lists the root first and every node of the tree once, parents before children, and nothing else; the children of each node are one block, blocks in order |
| `Layout.ChildrenAreNew` | tools/svg.py:24-28 | in a tree the worklist never meets a node twice |
| `Layout.MeasureOne` | tools/svg.py:37-40 | a width is the node's own plus those of its children |
| `Layout.InsertByWidth` | tools/svg.py:44-44 | keeps the order by width, the members and their total; the new node comes last among those of its width |
| `Layout.SortedByWidth` | tools/svg.py:44-44 | a permutation in descending order of width, in which the nodes of equal width keep their order; the widths above any bound add up as before |
| `Layout.PlaceInOrder` | tools/svg.py:43-46 | each child starts where the ones before it end, the first at zero |
| `Layout.SortedAhead` | tools/svg.py:44-46 | in the sorted list, the widths in front of a node add up to those of the nodes that are wider or as wide and earlier in the unsorted one |
| `Layout.PlaceChildren` | tools/svg.py:43-46 | children are side by side within the total of their widths, and each begins behind exactly those that are wider and those as wide that come before it; other offsets stay |
| `Layout.MeasureAll` | tools/svg.py:36-46 | after the first pass every width is the sum of self widths at and below the node, and children fit, widest first |
| `Layout.ShiftChildren` | tools/svg.py:49-51 | the children of a node get its depth plus one and its offset added |
| `Layout.ShiftAll` | tools/svg.py:48-51 | after the second pass this holds for every node of the tree |
| `Layout.LayoutTree` | tools/svg.py:35-51 | widths are subtree sums, every child lies inside its parent one level deeper, at its parent's offset plus the widths of its wider siblings and of those as wide before it, and no two nodes of equal depth overlap |
| `Layout.EqualDepthApart` | tools/svg.py:48-51 | nodes of equal depth are apart wherever in the tree they are |
| `Layout.ChildInside` | tools/svg.py:48-51 | the interval of a child lies inside its parent's |
| `Layout.ChildStarts` | tools/svg.py:43-51 | where a child begins, in absolute terms |
| `Layout.SumSplits` | tools/svg.py:37-40 | the sum over a subtree is the node's own plus the sums over its children's subtrees |
| `Layout.CountInBlock` | tools/svg.py:37-40 | a node lies below exactly one child of each of its proper ancestors |
| `Layout.WidthStep` | tools/svg.py:36-40 | measuring in reverse order gives the subtree sum |
| `Layout.PackStep` | tools/svg.py:36-46 | measuring one more node leaves the nodes measured before as they were |
| `Trace.Process` | tools/tracegraph.py:41-92 | the body of the event loop computes one step; it fails exactly when a scope ends that has not begun |
| `Trace.EndScope` | tools/tracegraph.py:54-92 | the path, raw and self time of the scope that ends, and the stack left with the parent informed |
| `Trace.Analyse` | tools/tracegraph.py:38-92 | the self times by path after the whole trace, or failure |
| `Trace.StackTells` | tools/tracegraph.py:41-92 | the stack of a thread holds exactly the scopes begun and not yet ended, outermost first, each with the caption and time of its begin event and the time of the finished scopes directly inside it |
| `Trace.EndNotesSelfTime` | tools/tracegraph.py:53-82 | an end event adds one self time: at the path of all open captions, outermost first, the time since its scope began without that of the scopes directly inside it |
| `Trace.OthersNoteNothing` | tools/tracegraph.py:41-52 | no other event adds one |
| `Trace.RefusedIff` | tools/tracegraph.py:73-73 | the trace is refused exactly when some event ends a scope while none is open in its thread |
| `Trace.RunConserves` | tools/tracegraph.py:73-92 | after every event of every well-nested trace, total self time is the time of the finished outermost scopes plus the children's time noted in open frames |
| `Trace.StepConserves` | tools/tracegraph.py:41-92 | one event keeps this |
| `Trace.EndConserves` | tools/tracegraph.py:53-92 | in particular the end of a scope |
| `Trace.CloseConserves` | tools/tracegraph.py:73-92 | what the parent is told and what is added balance |
| `Trace.ClosedTraceAddsUp` | tools/tracegraph.py:73-92 | with all scopes ended, the self times add up to the outermost durations |
| `Trace.RunNonNegative` | tools/tracegraph.py:73-82 | with events in order in every thread, no self time is negative, and open frames are nested |
| `Trace.TicksAreSelfTimes` | tools/tracegraph.py:73-82 | the ticks of a node are the sum of the self times of the scopes that ended at its path |
| `Trace.TicksNonNegative` | tools/tracegraph.py:73-82 | so with events in order the ticks of every node are nonnegative |
| `Trace.PoppedNested` | tools/tracegraph.py:84-92 | ending a scope keeps the frames of the thread nested and its self time nonnegative |
| `HeapGraph.Analyse` | tools/heapgraph.py:65-152 | ends, for any dump; fails exactly when something reachable is no object of the dump, is a table with a key or a `__mode` that is none, or is a thread with names for some of its slots only; otherwise visited is exactly what is reachable over the strong references, every object is at a node that spells a chain of as few references as any, sizes and counts are those of the new objects at each node, each counted once, and the total is theirs |
| `HeapGraph.ChargeNew` | tools/heapgraph.py:83-86 | charging an object keeps sizes, counts and total right; objects of the old dump are not charged |
| `HeapGraph.VisitNext` | tools/heapgraph.py:80-152 | visiting an object keeps the invariant of the search: what is met is reachable in as many steps as its level says, and what is missing is pending at the next level |
| `HeapGraph.SearchStarts` | tools/heapgraph.py:66-72 | it holds with the roots in the queue |
| `HeapGraph.LevelsAreLeast` | tools/heapgraph.py:74-152 | levels with the roots at 0 and no reference leading more than one level up cover everything reachable and are no more than the length of any chain |
| `HeapGraph.SearchEnds` | tools/heapgraph.py:74-152 | a search that has come to its end has visited everything reachable, at the nearest node |
| `HeapGraph.LevelsGoOn` | tools/heapgraph.py:74-152 | the queue stays in the order of levels and holds two of them at most |
| `HeapGraph.EdgesLead` | tools/heapgraph.py:88-152 | what is queued for an object leads to exactly what it refers to |
| `HeapGraph.EdgesAreReferences` | tools/heapgraph.py:88-152 | what is queued are exactly the strong references, told from the fields of an object, each with the path it is charged under: string keys; other keys unless the mode has a k; values unless it has a v; array elements, metatables, environments, protos, upvalues, stack slots below their frame, constants, inner protos, and upvalue targets |
| `HeapGraph.LeadsIs` | tools/heapgraph.py:88-152 | so an object leads to another exactly when one of these fields refers to it |
| `HeapGraph.ModeHas` | tools/heapgraph.py:93-97 | the mode is the string under the key `__mode` of the metatable, if there is one |
| `HeapGraph.WeakValueIsNotKept` | tools/heapgraph.py:93-111 | a table with weak values does not lead to the value of its only pair |
| `HeapGraph.WeakKeyIsNotKept` | tools/heapgraph.py:93-111 | a table with weak keys does not lead to a key of its only pair that is no string |
| `HeapGraph.DanglingIs` | tools/heapgraph.py:43-50 | the mode cannot be read exactly when the first pair with the key `__mode` has a value that is no object of the dump |
| `HeapGraph.ChargeTotal` | tools/heapgraph.py:83-86 | one more object adds its size to the total, or nothing if it is old |
| `HeapCategories.Annotate` | tools/heapgraph.py:154-165 | the same tree with low categories merged, every node marked with exactly the categories at and below it |
| `HeapCategories.FilteredTree` | tools/heapgraph.py:167-202 | there is a tree exactly when the category occurs; node by node it has the objects of that category, without empty branches |
| `HeapCategories.KeptTotal` | tools/heapgraph.py:167-202 | its sizes add up to the objects of the category |
| `HeapCategories.Split` | tools/heapgraph.py:204-216 | fails exactly when a category with objects has no name; otherwise holds the last category of every name, and with positive sizes keeps the total exactly when all categories are below 256 and no two with objects share a name |
| `HeapCategories.SplitTree` | tools/heapgraph.py:218-224 | the same for marking and splitting together, against the tree before both |
| `HeapCategories.CategoriesPartition` | tools/heapgraph.py:207-214 | the categories below a bound hold the whole size exactly when no object is of a higher one |
| `HeapCategories.AddAccounted` | tools/heapgraph.py:210-214 | a name used again loses the earlier tree, and something is lost only then |
| `HeapCategories.SharedNameLosesSize` | tools/heapgraph.py:210-214 | two categories of one name with an object each: half of the size is gone |
| `HeapCategories.RelabelledObjects` | tools/heapgraph.py:154-165 | marking keeps all objects in place, up to merged categories |
| `HeapCategories.MergedSizes` | tools/heapgraph.py:154-157 | merging gives category 0 the sizes of all categories below the bound, leaves these nothing, and leaves the others as they were |
| `HeapSnapshot.ReadAddresses` | tools/heapsnapshot.py:40-59 | the registry first, every object once, with the inverse index |
| `HeapSnapshot.Builder.Intern` | tools/heapsnapshot.py:89-94 | gives the index of the string, strings stay distinct, earlier indices stay valid |
| `HeapSnapshot.Builder.AddEdge` | tools/heapsnapshot.py:85-98 | adds a record that stands for the reference, with the node index times the field count as target |
| `HeapSnapshot.Builder.AddNode` | tools/heapsnapshot.py:81-83 | adds a record with type, name, id, size and edge count of the object |
| `HeapSnapshot.Builder.EmitPair` | tools/heapsnapshot.py:109-128 | one or two references for a pair, by which of key and value are objects and whether the key is a string |
| `HeapSnapshot.Builder.EmitTable` | tools/heapsnapshot.py:104-135 | the references of a table: pairs, array, metatable |
| `HeapSnapshot.Builder.EmitEdges` | tools/heapsnapshot.py:104-187 | the references of any object, and how many |
| `HeapSnapshot.Builder.EmitObject` | tools/heapsnapshot.py:100-189 | the references of an object, then its node with their number |
| `HeapSnapshot.Build` | tools/heapsnapshot.py:100-189 | records for all objects in order, with distinct strings |
| `HeapSnapshot.Convert` | tools/heapsnapshot.py:62-206 | for every closed dump, decoding the flat arrays gives back exactly the references and the record of every object |
| `HeapSnapshot.EdgesAreReferences` | tools/heapsnapshot.py:104-187 | the edges of an object are exactly its references, told from its fields, each with its kind and label |
| `HeapSnapshot.OneEdgeEach` | tools/heapsnapshot.py:104-187 | and there is one for every address the fields give |
| `HeapSnapshot.TypeTells` | tools/heapsnapshot.py:12-34 | looked up in the header, the type number of a node and its name tell the type of its object |
| `HeapSnapshot.NameTells` | tools/heapsnapshot.py:104-187 | the name of a string's node is the string, and every other name has the address of the object in its last parentheses, before the mark of the main thread |
| `HeapSnapshot.FieldsTell` | tools/heapsnapshot.py:12-37 | so the fields of a node record, in the order the header names them, tell address, id, size and number of edges of its object |
| `HeapSnapshot.KindIsInHeader` | tools/heapsnapshot.py:21-34 | the number of a kind of edge is the place of its name in the header |
| `HeapSnapshot.FlatReads` | tools/heapsnapshot.py:198-205 | decoding the edges of the i-th node gives its list |
| `HeapSnapshot.StartIs` | tools/heapsnapshot.py:65-68 | the edges of a node start at the sum of the earlier edge counts |
| `HeapSnapshot.FlatAt` | tools/heapsnapshot.py:198-200 | the i-th group of a flattened list starts at i times the field count |
| `HeapSnapshot.ConcatWithin` | tools/heapsnapshot.py:65-68 | the edges of a node are a contiguous block |
| `HeapSnapshot.RecordReads` | tools/heapsnapshot.py:96-98 | a record decodes to the reference it stands for |
| `Numprint.HighBits` | tools/numprint.py:15-23 | the bit loop computes the shifted window of the number below its rounded-up logarithm |
| `Numprint.WindowStep` | tools/numprint.py:19-21 | one more bit of the number sets the bit it is moved to |
| `Numprint.WindowIsTopBits` | tools/numprint.py:15-23 | the window is the number rounded down to its top bits if and only if the number is not a power of two; for those it is 0 |
| `Numprint.PositivePower` | tools/numprint.py:28-29 | for any width: exact when the power of five fits, else the power of ten lies in the last unit below the result; the result has full width |
| `Numprint.NegativePower` | tools/numprint.py:30-36 | the scaled reciprocal lies in the last unit below the result, unless its integer part is a power of two, and then the result is 1 |
| `Numprint.NearPower` | tools/numprint.py:34-36 | that exception needs a power of two just above the power of five |
| `Numprint.PowerOfTwoIsSmall` | tools/numprint.py:34-36 | so it needs an integer part below the power of five |
| `Numprint.NoExceptionWhileLarge` | tools/numprint.py:34-36 | it does not arise while 50^m is at most 2^w times 16^m |
| `Numprint.NoExceptionUpTo470` | tools/numprint.py:34-36 | with 13 bits or more it does not arise for m up to 470, so not in the table, which reaches to 292 |
| `Numprint.NotThatNear` | tools/numprint.py:34-36 | no power of two is that close above a power of five up to the 470th: 339/146 is too good an approximation of the logarithm of five |
| `Numprint.Pow10Approx` | tools/numprint.py:25-36 | 2^127 for exponent 0; exact or bracketed, with full width, for positive exponents; bracketed, with full width, for negative ones down to -470 and further unless the integer part is a power of two, and then 1 |
| `Numprint.SmallPowersAreExact` | tools/numprint.py:28-29 | powers whose odd part fits lose no bits |
| `Numprint.TenIsNoPowerOfTwo` | tools/numprint.py:28-29 | no positive power of ten is a power of two, so the exception never arises there |
| `Numprint.NextBit` | tools/numprint.py:19-21 | a remainder by a doubled modulus adds one bit |

## Left out

- Subcase filters, exceptions, aborting after failed assertions, reporters other than `subcase_start`, timers: the subcase model is of a static tree that runs to its end.
- Path hashing in `extern/doctest.h`: a path stands for its hash, so collisions are not modelled.
- SubcaseEngine.Context.RunTest: watches the loop for a given number of runs, since a method must end and the loop need not; on which trees with repeated siblings it ends is not characterised, beyond the examples.
- FlagBisect.Ddmin: takes the oracle as a deterministic predicate on flag lists; its bounds on calls are for distinct flags.
- FlagBisect.DdminParallel: an endless round is an outcome, not a run without end; its bounds on jobs are for distinct flags.
- Subprocesses, event loop internals, progress display, repeated attempts and the choice between pass and fail in `tools/flag-bisect.py`.
- `follow` and the flattening of nested unions: types come with aliases resolved and options as the iterator yields them.
- Type correctness, parentheses, deprecation and documentation fields of completion entries, and the keyword dispatcher: they rest on solvers that are not part of this model.
- Autocomplete.VisitOffers: leaves out cyclic types, and metatables, string literals and primitives with a metatable below unions and intersections, whose entries a union may erase from the map they share; they are part of the termination result.
- AutocompleteEntries.VisitEntries: is on the same acyclic types; for metatables and string literals the entries are stated where tables are behind them.
- Floating-point constants in the encoder (`NaN` and `Infinity` are not JSON), and most node kinds with a writer of their own: the fragment has groups, constants, locals, calls, instantiations, name indexing, tables, interpolated strings, binary operators, blocks, conditionals, returns, local statements, numeric loops and union types.
- Class and type function statements, which like instantiations have no writer of their own: their children are written in their place.
- Fractions, exponents and surrogate pairs in the JSON grammar: the encoder fragment writes none.
- Comment locations and the second entry point of the encoder.
- The special case for function statements in `FindNode`, the other visitors of `AstQuery.cpp`, and what scopes are used for.
- Locations and symbols of definitions in `Def.cpp`.
- Layout.LayoutTree: nodes are numbers and their fields are arrays indexed by them; the children dictionary is a sequence.
- SVG text, JavaScript and colours in `tools/svg.py`.
- Trace.Analyse: captions stand for name and formatted arguments, and timestamps are integers, so truncation of fractional ticks is not modelled.
- HeapGraph.Analyse: takes nodes of the tree as paths of names; a thread without a stack cannot be expressed.
- HeapCategories.Annotate: works on tree values and returns the marked tree, so writing categories into shared object records is not captured; every object is charged to one node.
- HeapSnapshot.Convert: takes the numeric id of an address as a parameter, and an object of an unknown type cannot be expressed.
- Reading and writing JSON files in all tools.
- Numprint.NegativePower: whether the exception arises for some exponent below -470 is left open.
- Numprint.HighBits: takes the logarithm as exact, so rounding of `math.log2` on large numbers is not modelled.
- The compact tables and `pow5_64` in `tools/numprint.py`.
