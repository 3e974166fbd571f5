# Verified model of the script core

This project models the hard parts of a Lisp-like scripting system and its module loader and
proves what they promise, for all inputs and all runs.

- **Module loader** (`ModuleLoader.dfy`): the depth-first walk of a possibly cyclic requires
  graph, as a class with its two registry maps and a log of top-level runs. The file system is a
  finite map; whether a top-level succeeds is an arbitrary function of the runs so far.
- **Open-addressed tables** (`Probing.dfy`, `InternedPtrMap.dfy`, `SymbolTable.dfy`): linear
  probing under a load limit refines a plain map and a canonical naming of strings. Hashes are
  arbitrary functions.
- **Reader and printer** (`Objects.dfy`, `Tokens.dfy`, `Reader.dfy`, `Forms.dfy`,
  `Comments.dfy`, `TokenMeanings.dfy`, `PrintRoundTrip.dfy`, `Misreading.dfy`, `ReadableStrings.dfy`, `SourceLines.dfy`,
  `Completeness.dfy`, `ScannedText.dfy`, `TypeSpecs.dfy`): a cursor machine over text, proved against reading functions. A *form* is a
  concrete syntax tree that fixes every character; one theorem says that reading the text of a
  form gives the object it spells. Printing, pretty-printing and type specifications are each
  shown to write a form, and their round trips follow. `Misreading` is the converse: text that is not
  well-formed reads as something else or not at all, wherever in an object the fault is. Blanks and
  comments, tokens, string literals and what the completeness test counts are described by small
  grammars of their own.
- **Pretty printer** (`PrettyNodes.dfy`, `NodeValues.dfy`, `PrettyLayout.dfy`, `PrettyBreaks.dfy`,
  `PrettyForms.dfy`, `PrettyText.dfy`, `PrettyRender.dfy`, `PrettyPrinter.dfy`): break flags that trigger each other, a fixpoint loop
  over measured lengths, and the rendering of the result, whose line breaks and columns
  `PrettyText` describes. A node is addressed by its path from the
  root; a broken list is one that has a style.
- **Evaluator** (`Arguments.dfy`, `Evaluation.dfy`, `EvaluatingPrimitives.dfy`, `Interpreter.dfy`,
  `FuelIndependence.dfy`, `EvaluationLaws.dfy`, `SpecialFormLaws.dfy`):
  `Evaluation` says what an expression means, without any stack of active environments, and what no
  evaluation ever changes. The interpreter, with its stack, computes the same, restores the stack
  after values and EvalExceptions, and lets it only grow otherwise. Evaluation is bounded by a number
  of steps, and that number is shown not to matter: a result obtained with some number is the result
  with every larger one. The laws say what each kind of call and each special form comes to, from the
  values and stores of its parts.
- **Codec and source references** (`Archive.dfy`, `TextDb.dfy`): the variable-length integers and
  the marking of a pair graph.

Some promises do not hold of the code as it stands; the model keeps the code, shows the failure and
states the exact condition:

- INT_MIN does not survive the integer codec (`Archives.RoundTrip`).
- A failed load leaves a readable root module registered although its top-level never completed, so
  that a later load takes it for initialised (`ModuleLoader.Carbon.LoadModuleWithImports`,
  `ModuleLoader.FailedLoadPoisonsRegistry`).
- The empty list and the none object print as names and read back as symbols
  (`PrintRoundTrip.PrintedTextReadsBack`).
- Strings that hold a quote or a backslash are printed without escapes, and characters other than the
  printable ones under names that the reader does not know: neither reads back, nor does anything that
  holds one (`Misreading.PrintedTextReadsBackExactly`).
- A newline character literal that is an element of a list is counted twice by the line counter
  (`SourceLines.LineCountIsRight`, `SourceLines.LineOfLogged`, `SourceLines.NewlineLiteralDrifts`).
- Different quote prefixes on one object are printed in reverse order
  (`NodeValues.ValueIsOriginal`, `PrettyPrinter.MixedQuotesAreSwapped`).
- A symbol that ends in a number sign and a backslash hides a closing parenthesis from the
  completeness test (`Completeness.PrintedPairCompletesAtItsEnd`,
  `Completeness.UnsettledSymbolHidesParenthesis`).
- A comma printed before a symbol that starts with an at sign is read as the other prefix, and no text
  with that in it reads back (`Misreading.LaidOutTextReadsBack`, `PrettyPrinter.CommaTakesAtSign`).
- An empty argument vector of a type specification is lost (`TypeSpecs.PrintedSpecParsesBack`).
- The measured length of an improper list leaves out its dot and one blank
  (`PrettyPrinter.FlatLength`).
- The comments on argument matching call an unknown key an error, but `&key` in a parameter list
  also allows any key, so unknown keys are accepted and a repeated key takes its last value
  (`Arguments.UndeclaredKey`, `Arguments.UndeclaredKeyIsBound`; common/script/Interpreter.cpp:1871-1876
  against common/script/Interpreter.cpp:2047-2053).
- The comments on the code's error handlers speak of #f and the empty list as one value; they are
  two, and exactly these two end the error, with themselves as value (`Evaluation.ResponseDecides`).
- A handler or callback that declares keywords can be made, but no call of it from the interpreter
  succeeds (`Evaluation.MadeFunctionApplies`).
- `apply` leaves the rest parameter of a function empty, whatever the list holds
  (`EvaluatingPrimitives.ApplyLosesRest`).

Characters stand for bytes. Integers are unbounded where the source cannot leave its own range;
the 32-bit arithmetic of the codec and of table addresses and the 64-bit range of integer literals
are explicit. Environments and function objects live in a store and are referred to by number.
What primitives do is a parameter: they get the call, the arguments, the environment and the store,
may call the evaluator as often as they like, and may do anything that keeps what evaluation keeps. `dafny verify dfyconfig.toml` checks everything.

## Model

| member | source | states |
|---|---|---|
| ModuleLoader.World.FirstExisting | common/carbon/Carbon.cpp:507-526 | the resolver answers with an existing candidate, and with none exactly when no candidate exists |
| ModuleLoader.FirstExistingIsFirst | common/carbon/Carbon.cpp:515-526 | the answer is the first existing candidate in search order |
| ModuleLoader.ResolveEndsAt | common/carbon/Carbon.cpp:506-526 | so does the resolver that the walk is described with |
| ModuleLoader.Carbon.LoadModule | common/carbon/Carbon.cpp:263-315 | a module is registered under its path and stem exactly when it was registered before or its file can be read; otherwise nothing changes |
| ModuleLoader.Carbon.RunTopLevel | common/carbon/Carbon.cpp:616-655 | an unknown name fails without a run; a known one adds exactly one run of its module to the log, which succeeds or fails as that top-level does at that point |
| ModuleLoader.Carbon.FindCandidate | common/carbon/Carbon.cpp:506-536 | finds nothing exactly when the file is in none of the requiring module's directory, the roots and the project; what it finds is in that directory if there is one there, else in the first root that has one, else in the project |
| ModuleLoader.Carbon.LoadNeeds | common/carbon/Carbon.cpp:476-540 | requirements are loaded in order up to the first failure; on success all of them are visited, on failure a reachable broken module is named |
| ModuleLoader.Carbon.FinishModule | common/carbon/Carbon.cpp:550-556 | the top-level runs last and keeps the order of the log |
| ModuleLoader.Carbon.LoadModuleRecursive | common/carbon/Carbon.cpp:397-557 | one step of the depth-first walk: keeps the walk invariant (order, at most one run each, closure of finished modules), terminates because the unvisited paths shrink, and on failure leaves the registry in a described state |
| ModuleLoader.Carbon.LoadModuleWithImports | common/carbon/Carbon.cpp:363-367 | over every requires graph and every registry: requirements that do not lead back run first, each module runs once, nothing runs after a failure; it fails exactly when something newly reached is broken, and, if no top-level ever fails, exactly when a file or a requirement newly reached is missing; success means everything newly reached is registered and has run; every newly registered module has run, unless something newly reached is broken and the root could be read; a registered root is not loaded again |
| ModuleLoader.Carbon.LoadFromSettled | common/carbon/Carbon.cpp:363-367 | on a registry in which everything has run: success means everything reachable has run, and everything has run afterwards unless something newly reached is broken and the root could be read |
| ModuleLoader.FailedLoadPoisonsRegistry | common/carbon/Carbon.cpp:428-440 | a root that requires a missing file: the first load fails, the second succeeds, and the root is registered and has never run |
| ModuleLoader.ReachesPastOrInto | common/carbon/Carbon.cpp:428-435 | leading out of modules that are closed under requirements does not happen |
| ModuleLoader.RunModule | common/carbon/Carbon.cpp:541-556 | running a module whose requirements were all visited keeps the log ordered |
| ModuleLoader.EnterModule | common/carbon/Carbon.cpp:422-431 | marking a module visited before its requirements keeps the walk invariant, on cycles too |
| ModuleLoader.VisitRegistered | common/carbon/Carbon.cpp:428-435 | a module that was registered before the walk needs no work |
| ModuleLoader.FinishedWalk | common/carbon/Carbon.cpp:419-557 | at the end of a successful walk everything reachable from the root has run |
| ModuleLoader.FinishedWalkBrokeNothing | common/carbon/Carbon.cpp:445-540 | a successful walk has met no unreadable file, no missing requirement and no failed run |
| ModuleLoader.AcyclicRunsAreTopological | common/carbon/Carbon.cpp:541-556 | without cycles the runs are a topological order: each requirement was registered before or ran before |
| Probing.MaskIsAddress | common/script/Object.hpp:490-493 | the bitwise and of the mask with the 32-bit sum of hash and step is the remainder that the tables of the model use; a statement for the reader, which connects the two |
| Probing.ProbeCovers | common/script/Object.hpp:490-493 | a probe of as many steps as there are slots visits every slot |
| Probing.EmptySlotMeansAbsent | common/script/Object.hpp:494-495 | a probe that meets an empty slot has proved the key absent |
| Probing.ProbeStops | common/script/Object.hpp:503-503 | below the load limit a probe always meets the key or an empty slot, so the not-reached assertions never fire |
| Probing.InsertKeepsTable | common/script/Object.hpp:514-522 | filling the first empty slot of the probe keeps the table well probed and adds one binding |
| Probing.UpdateKeepsTable | common/script/Object.hpp:524-527 | overwriting a value keeps the table well probed |
| Probing.LoadLimitLeavesRoom | common/script/Object.hpp:631-631 | the load limit is below the table size and grows with it |
| InternedPtrMaps.InternedPtrMap.Clear | common/script/Object.hpp:533-540 | the map is empty |
| InternedPtrMaps.InternedPtrMap.Lookup | common/script/Object.hpp:478-504 | the answer of a plain map, from the scan of small tables and the probe of larger ones alike |
| InternedPtrMaps.InternedPtrMap.Set | common/script/Object.hpp:506-531 | the contents are those of a plain map after the assignment, whether or not the table was resized |
| InternedPtrMaps.InternedPtrMap.Resize | common/script/Object.hpp:607-632 | the table doubles and every binding survives |
| InternedPtrMaps.Execute | common/script/Object.hpp:506-540 | any sequence of set and clear leaves what a plain map would hold |
| SymbolTables.SymbolTable.constructor | common/script/Object.cpp:73-80 | an empty table of two slots is valid |
| SymbolTables.SymbolTable.Intern | common/script/Object.cpp:110-143 | a known name keeps its pointer and nothing changes; a new name gets a new pointer; pointers handed out before are kept; the recursive call after a resize finds the name and terminates |
| SymbolTables.SymbolTable.Probe | common/script/Object.cpp:114-139 | the probe ends at the name's own entry or at a free one |
| SymbolTables.SymbolTable.Resize | common/script/Object.cpp:145-169 | entries move, pointers and names do not |
| SymbolTables.CanonicalIsInjective | common/script/Object.cpp:133-138 | different names have different pointers |
| SymbolTables.InternAll | common/script/Object.cpp:110-169 | over any sequence of calls two answers are equal exactly when the names are |
| Archives.Archive.WriteCompactIndex | common/script/Archive.cpp:216-264 | the bytes appended are the encoding of the value |
| Archives.Archive.WriteGroups | common/script/Archive.cpp:230-262 | the second to fifth bytes by the thresholds 2^13, 2^20 and 2^27 |
| Archives.Archive.ReadCompactIndex | common/script/Archive.cpp:177-215 | the value read and the bytes left are those of the decoder |
| Archives.Archive.ReadGroups | common/script/Archive.cpp:188-206 | continuation bytes are read as long as their top bit says so |
| Archives.RoundTrip | common/script/Archive.cpp:176-266 | decoding undoes encoding and leaves what follows, exactly when the value is not INT_MIN |
| Archives.IntMinReadsAsZero | common/script/Archive.cpp:217-228 | INT_MIN is written as minus zero and reads back as zero |
| Archives.EncodedSize | common/script/Archive.cpp:222-262 | one to five bytes by the thresholds 2^6, 2^13, 2^20 and 2^27 |
| Archives.EncodedBytes | common/script/Archive.cpp:216-264 | which bits of the magnitude each byte holds, where the sign is, and when a byte says that another follows |
| Archives.DecodedValue | common/script/Archive.cpp:177-215 | the value of any one to five bytes, the low bits of each at its place |
| Archives.SequenceRoundTrip | common/script/Archive.cpp:176-266 | values written back to back decode to the same sequence with no byte left over, exactly when none is INT_MIN |
| Archives.GroupsByThreshold | common/script/Archive.cpp:230-262 | the recursive grouping is the nested writing of the source |
| TextDbs.TextDb.InheritInfo | common/script/TextDb.cpp:229-250 | exactly the pairs reachable from the child without passing a mapped pair are added, all with the parent's reference; earlier entries stay; it terminates on shared and cyclic graphs |
| TextDbs.TextDb.MarkTop | common/script/TextDb.cpp:237-247 | one step of the worklist keeps the marking invariant and either shrinks the work or marks a new pair |
| TextDbs.ClosedMarkingHoldsFree | common/script/TextDb.cpp:236-247 | a marking closed under the unmapped pairs holds everything reachable without passing a mapped one |
| Objects.PrintPair | common/script/Object.cpp:1346-1367 | the loop over the cdr chain prints what the recursive definition says, dotted ends included |
| Objects.EqualIsIdentity | common/script/Object.cpp:793-824 | operator== is structural equality, except that the none object equals nothing |
| Objects.ParseUndoesDecimal | common/script/Object.cpp:287-289 | reading decimal digits undoes writing them |
| Reading.TextStream.ReadChar | common/script/Reader.hpp:34-40 | one character, and one more line after a newline |
| Reading.TextStream.SeekPastWhitespaceAndComments | common/script/Reader.cpp:56-95 | the cursor stops where the reading functions say; what that skips is said by Comments.SkipsExactlyComments |
| Comments.SkipsExactlyComments | common/script/Reader.cpp:56-95 | what is skipped is exactly a run of blanks, line comments and block comments, written by a grammar of its own, after which none begins, or a comment that the end of the text cuts off |
| Comments.CommentsBeforeForm | common/script/Reader.cpp:184-195 | a form after comments is read as if they were not there |
| TokenMeanings.TokenExtent | common/script/Reader.cpp:379-448 | which characters are tokens of their own, and up to which characters other tokens go |
| TokenMeanings.RadixTokens | common/script/Reader.cpp:821-877 | hexadecimal and binary digits denote the number they spell, as 64 bits read with a sign; more bits are an error |
| TokenMeanings.CharacterTokens | common/script/Reader.cpp:909-932 | a printable character stands for itself, and three escapes for a newline, a blank and a tabulator |
| TokenMeanings.FloatToken | common/script/Reader.cpp:793-819 | digits with one point are a float |
| TokenMeanings.LiteralIsRead | common/script/Reader.cpp:730-784 | a string literal denotes its characters, each written as itself, as one of four escapes or by its code, and ends after its closing quote |
| TokenMeanings.UnknownEscape | common/script/Reader.cpp:752-775 | any other escape is an error |
| Reading.TextStream.GetNextToken | common/script/Reader.cpp:379-448 | the token, its offset, its line and the new cursor position; every token is logged with the number of moves back before it |
| Reading.TextStream.ReadStringLiteral | common/script/Reader.cpp:730-784 | the characters of a literal with its escapes, failing on an unknown escape and at the end of the text |
| Reading.TextStream.ReadObject | common/script/Reader.cpp:497-532 | the object an ordinary token denotes |
| Reading.TextStream.ReadForm | common/script/Reader.cpp:184-251 | one form: object and cursor are those of the reading functions; on every outcome, failing reads too, the cursor moved back exactly where FormRollbacks says and the tokens read are those of FormTokens |
| Reading.TextStream.ReadListElement | common/script/Reader.cpp:653-705 | an element that is not a list is read again from its first character |
| Reading.TextStream.MoveBack | common/script/Reader.cpp:680-682 | moving back keeps the line count, which is then too high by one if the token was a newline literal |
| Reading.TokenNewlines | common/script/Reader.cpp:379-448 | the only newline a token can hold is the character of a literal |
| Reading.TextStream.ReadNextOfList | common/script/Reader.cpp:627-723 | what one token makes of a list: an element, the dot, the end, or an error |
| Reading.TextStream.ReadListForm | common/script/Reader.cpp:617-723 | a list with its dot and its end, with its moves back and its tokens on every outcome |
| Forms.ReadsLeaf | common/script/Reader.cpp:574-611 | every readable atom, followed by a blank or a closing parenthesis, is one token that denotes it |
| Forms.IntToken | common/script/Reader.cpp:879-907 | every 64-bit integer in decimal is read as itself |
| Forms.ReadsForm | common/script/Reader.cpp:184-251 | reading the text of any well-formed form, with any blanks between its tokens, gives the object it spells and stops right after it |
| Forms.ReadsTail | common/script/Reader.cpp:617-723 | the same for the rest of a list, its dot included |
| Forms.MalformedLists | common/script/Reader.cpp:627-723 | a dot with nothing before it, a second dot, an element after the dotted end and an unclosed list are errors |
| PrintRoundTrip.FlatFormIsPrint | common/script/Object.cpp:1346-1367 | printing an object writes one particular form of it |
| PrintRoundTrip.RereadIsSame | common/script/Object.cpp:1187-1193 | the empty list and the none object are the only things that print as something else |
| PrintRoundTrip.PrintedTextReadsBack | common/script/Object.cpp:1346-1367 | reading printed text consumes all of it and gives the same object exactly when the empty list occurs only as the end of a list and the none object does not occur |
| Misreading.StringMisses | common/script/Reader.cpp:730-784 | a string that holds a quote or a backslash is printed without escapes and never reads back, whatever follows it |
| Misreading.CharacterMisses | common/script/Object.cpp:257-286 | a character that is printed with a name or a number never reads back |
| Misreading.ItemsStay | common/script/Reader.cpp:627-723 | whatever is read later, a list keeps the elements read so far |
| Misreading.PrefixesRead | common/script/Reader.cpp:184-251 | a chain of quote prefixes is read prefix by prefix |
| Misreading.TreeIsMisread | common/script/PrettyPrinter.cpp:324-459 | wherever an unreadable atom or a comma before an at sign stands in a tree, the text of the whole tree, with any blanks, is not read or is read as another object than the one it spells and the one it was made from |
| Misreading.PrintedTextReadsBackExactly | common/script/Object.cpp:1346-1367 | printed text reads back as what it spells exactly when every atom is readable, and as the same object exactly when, besides, the empty list occurs only as the end of a list and the none object does not occur |
| ReadableStrings.GetReadableString | common/script/Reader.cpp:947-966 | the escaped form of the string up to its first NUL |
| ReadableStrings.EscapedStringReadsBack | common/script/Reader.cpp:730-784 | an escaped byte string followed by a quote reads back as itself and ends just after that quote |
| ReadableStrings.ReadableStringRoundTrip | common/script/Reader.cpp:947-966 | the round trip holds exactly for strings without NUL |
| SourceLines.SourceText.BuildOffsets | common/script/SourceText.cpp:17-28 | one entry after each newline, the first one after a byte order mark, and the size of the text |
| SourceLines.SourceText.GetLineIdx | common/script/SourceText.cpp:43-57 | the number of newlines before the offset; an error past the end |
| SourceLines.SourceText.GetOffsetOfLine | common/script/SourceText.cpp:59-61 | the offset just after the newline that starts the line |
| SourceLines.FormMovesBackToElements | common/script/Reader.cpp:653-705 | the cursor moves back to a position exactly when an element other than a list begins there, of the list that is read or of a list within it |
| SourceLines.LineCountIsRight | common/script/Reader.hpp:34-40 | at any time, after failed reads too, the line count is the number of newlines before the cursor exactly when no list element read so far was a newline literal |
| SourceLines.LineOfLogged | common/script/Reader.cpp:379-448 | the line of a token, inside a list or not, is the line of its offset in the table exactly when no list element before it was a newline literal |
| SourceLines.ReadForms | common/script/Reader.cpp:184-251 | reading any number of forms, up to the first that fails: where the cursor moved back, which tokens were read, and when the line count is right |
| SourceLines.PlainTextCountsRight | common/script/Reader.cpp:379-448 | on a text without newline literals the line count and the line of every token read are right |
| SourceLines.NewlineLiteralDrifts | common/script/Reader.cpp:680-684 | with a newline literal in a list the count does go wrong |
| SourceLines.LiteralOutsideListIsCountedOnce | common/script/Reader.cpp:184-251 | outside of lists the same literal is read with its line right and no move back |
| Completeness.IsExpressionComplete | common/script/Reader.cpp:992-1068 | the verdict of the scanner on a whole text |
| ScannedText.TextVerdict | common/script/Reader.cpp:992-1068 | the verdict on any text, from what it is made of: strings, line comments and character literals count for nothing; it is complete when a bracket too many is closed, or when all brackets and strings are closed in the end |
| ScannedText.TextIsSegments | common/script/Reader.cpp:992-1068 | every text is made of such parts |
| Completeness.ListCompletesAtItsEnd | common/script/Reader.cpp:992-1068 | a list is complete at its end, if every closing parenthesis in it is counted, and at no earlier point |
| Completeness.PrintedPairCompletesAtItsEnd | common/script/Reader.cpp:992-1068 | a nonempty proper prefix of a printed pair is never complete; the whole is complete exactly when no symbol ending in a number sign and a backslash stands last in a list; brackets in strings and character literals do not count |
| Completeness.UnsettledSymbolHidesParenthesis | common/script/Reader.cpp:1026-1033 | such a list reads back as itself and yet counts as incomplete |
| TypeSpecs.ParseTypeSpec | common/type_system/Deftype.cpp:1039-1090 | the loop over arguments and tags computes the recursive meaning of a written type |
| TypeSpecs.SpecFormIsPrint | common/type_system/TypeSpec.cpp:266-285 | a printed type specification is one particular form |
| TypeSpecs.ParsesSpec | common/type_system/Deftype.cpp:1039-1090 | parsing gives the specification with empty argument vectors dropped if its types and tags are acceptable, and fails otherwise |
| TypeSpecs.PrintedSpecParsesBack | common/type_system/TypeSpec.cpp:266-285 | printing, reading and parsing gives the same specification exactly when its types and tags are acceptable and no argument vector is empty |
| TypeSpecs.NormalizeIsSame | common/type_system/TypeSpec.cpp:48-62 | equality tells an empty argument vector from an absent one |
| PrettyNodes.ToNodeIsShaped | common/script/PrettyPrinter.cpp:62-148 | trees made from objects have no empty list and no improper list of one part |
| PrettyNodes.SpacedIsWellFormed | common/script/PrettyPrinter.cpp:324-459 | other blanks between the same tokens leave a text readable |
| PrettyNodes.SpacedValue | common/script/PrettyPrinter.cpp:324-459 | and leave its meaning |
| PrettyLayout.ChildrenListedLater | common/script/PrettyPrinter.cpp:42-59 | in the linking order the children of a node come after it, so that the reverse order measures children first |
| PrettyLayout.OrderHolds | common/script/PrettyPrinter.cpp:42-59 | the linking order lists every node |
| PrettyForms.DefinitionStyle | common/script/PrettyPrinter.cpp:215-218 | definitions are always broken, with name and parameters on the first line |
| PrettyForms.MethodStyle | common/script/PrettyPrinter.cpp:218-223 | so are methods, with one element more if the third is an atom |
| PrettyForms.BlockStyle | common/script/PrettyPrinter.cpp:223-233 | blocks are always broken, with one element beside their name |
| PrettyForms.ClausesStyle | common/script/PrettyPrinter.cpp:270-273 | cond, else and loop are always broken after their name |
| PrettyForms.OperatorStyle | common/script/PrettyPrinter.cpp:207-236 | the operands of an operator stand below each other; only if is always broken |
| PrettyForms.OtherStyle | common/script/PrettyPrinter.cpp:196-206 | any other list is broken after its first element, and only if it must |
| PrettyForms.LetTakesBindings | common/script/PrettyPrinter.cpp:226-232 | a let takes its bindings along if there are several |
| PrettyForms.CondTakesClauses | common/script/PrettyPrinter.cpp:236-244 | a cond takes all its clauses along |
| PrettyForms.CaseTakesClauses | common/script/PrettyPrinter.cpp:244-254 | a case takes its clauses along but not its key |
| PrettyBreaks.Layout.BreakList | common/script/PrettyPrinter.cpp:201-266 | terminates because unbroken lists shrink; a list is never broken twice; every newly broken list gets its style, its companions and its ancestors broken |
| PrettyBreaks.Layout.BreakCompanions | common/script/PrettyPrinter.cpp:224-255 | the children that a let, cond or case takes with it are broken |
| PrettyBreaks.Layout.BreakAncestors | common/script/PrettyPrinter.cpp:258-265 | every proper ancestor ends up broken unless the path leaves it through its last child |
| PrettyBreaks.Layout.BreakTop | common/script/PrettyPrinter.cpp:201-266 | an outermost call restores the invariant for all broken lists |
| PrettyBreaks.Layout.InsertRequiredBreaks | common/script/PrettyPrinter.cpp:269-283 | every form that must break is broken, and nothing is broken if there is none |
| PrettyBreaks.Layout.RecomputeLengths | common/script/PrettyPrinter.cpp:151-198 | the reverse pass makes every measured length the recursive one |
| PrettyBreaks.Layout.ComputeLength | common/script/PrettyPrinter.cpp:155-193 | the length of a node from its children's |
| PrettyBreaks.Layout.BreakTooLong | common/script/PrettyPrinter.cpp:286-304 | something is broken exactly when some unbroken list is too long |
| PrettyBreaks.Layout.RunAlgorithm | common/script/PrettyPrinter.cpp:286-308 | a pass that breaks nothing means that everything fits, and changes nothing |
| PrettyBreaks.Layout.LayOut | common/script/PrettyPrinter.cpp:476-486 | the loop terminates for every tree and width; in the end every list is broken or fits the line, required breaks are made, and a tree that fits is left alone |
| PrettyRender.AppendNode | common/script/PrettyPrinter.cpp:324-459 | whatever the break flags and indents, the appended text has the tokens of the flat text, with the blanks and line breaks that Laid describes; with no break below it is the flat text |
| PrettyRender.AppendFlat | common/script/PrettyPrinter.cpp:422-453 | an unbroken list: single blanks between its elements, and its closing parenthesis on a line of its own exactly when a list at its end is broken |
| PrettyRender.AppendBroken | common/script/PrettyPrinter.cpp:343-420 | a broken list: as many elements as its style says on the first line, each other one on a line of its own in the column of the style or beside its keyword, and the closing parenthesis on a line of its own below the opening one |
| PrettyRender.AppendFirstLine | common/script/PrettyPrinter.cpp:343-375 | the elements on the first line, each laid out from its column, and the last blank taken back |
| PrettyRender.AppendOtherLines | common/script/PrettyPrinter.cpp:381-409 | the elements on lines of their own in the column of the style, what follows a keyword beside it |
| PrettyRender.ExtraOffsetAdvances | common/script/PrettyPrinter.cpp:311-321 | looking back for a newline gives the length of the last line of what was added |
| PrettyText.BrokenHasNewline | common/script/PrettyPrinter.cpp:343-420 | the text of a node in which a list is broken has a line break |
| PrettyPrinter.FlatLength | common/script/PrettyPrinter.cpp:151-198 | the measured length of an unbroken tree is the length of its text, less two characters for each dot |
| PrettyPrinter.FitsOnOneLine | common/script/PrettyPrinter.cpp:269-308 | a tree without forced breaks whose text fits needs no break |
| PrettyPrinter.FlatIsPrinted | common/script/PrettyPrinter.cpp:62-148 | without quote forms the flat layout is the printed form |
| NodeValues.ToNodeKeepsObject | common/script/PrettyPrinter.cpp:83-146 | a tree determines the object it was made from |
| NodeValues.ValueIsOriginal | common/script/PrettyPrinter.cpp:83-110 | the text spells the object exactly when every chain of quote prefixes reads the same in both directions and nothing prints as a name |
| NodeValues.RenderableIsWellFormed | common/script/PrettyPrinter.cpp:329-337 | the flat text is that of a well-formed form exactly when its atoms can be read and no comma stands before an at sign |
| PrettyPrinter.CommaTakesAtSign | common/script/PrettyPrinter.cpp:329-337 | an instance: (unquote @x) is printed as ,@x and reads as (unquote-splicing x) |
| PrettyPrinter.MixedQuotesAreSwapped | common/script/PrettyPrinter.cpp:83-110 | two different prefixes on one object change places |
| Misreading.LaidOutTextReadsBack | common/script/PrettyPrinter.cpp:461-489 | any layout of an object reads back as what it spells exactly when its atoms are readable and no comma stands before an at sign, and as the object itself exactly when, besides, its quote prefixes are symmetric and nothing prints as a name |
| PrettyPrinter.ToString | common/script/PrettyPrinter.cpp:468-489 | for every object and width: the text is laid out with lists broken that must break, take others along or do not fit, and no others if none has to; it has a line break whenever some list must break or the whole does not fit; read back as what it spells exactly when the object can be rendered, and as the object exactly when its prefixes are symmetric too; on one line, equal to the plain printer's text, when it fits and nothing is quoted or forced to break |
| Arguments.ParseArgSpec | common/script/Interpreter.cpp:2010-2130 | the loop over a parameter list with its markers |
| Arguments.ParseUndoesWrite | common/script/Interpreter.cpp:2010-2130 | parsing a parameter list written in the conventional order gives the specification it stands for |
| Arguments.OtherParameters | common/script/Interpreter.cpp:2010-2130 | the other ways to write a parameter, their defaults, and what is no parameter |
| Arguments.ParsedSpecIsNotVariadic | common/script/Interpreter.cpp:2010-2130 | parsed specifications never take nameless arguments |
| Arguments.GetArgsWithSpec | common/script/Interpreter.cpp:1821-1917 | positional arguments, then keys, then the rest, with defaults, errors included |
| Arguments.FillDefaults | common/script/Interpreter.cpp:1905-1914 | missing keys get their defaults, and a missing key without one is an error, in whatever order the keys are visited |
| Arguments.CallIsPartitioned | common/script/Interpreter.cpp:1821-1917 | an accepted call is exactly its positional arguments, its keys and values and its rest, in order, and every declared key has a value |
| Arguments.PartitionedCallIsAccepted | common/script/Interpreter.cpp:1821-1917 | every list made that way is accepted with exactly these arguments |
| Arguments.UndeclaredKey | common/script/Interpreter.cpp:1871-1876 | a key that is not declared is accepted, and bound, exactly when the specification allows any key |
| Arguments.UndeclaredKeyIsBound | common/script/Interpreter.cpp:2047-2053 | with the parameters (&key (a 1)), the call (:b 2) binds b |
| Arguments.GetArgs | common/script/Interpreter.cpp:1743-1803 | the arguments of a primitive, keywords anywhere |
| Arguments.PrimitiveCallIsPartitioned | common/script/Interpreter.cpp:1743-1803 | an accepted call of a primitive is a mixture of positional arguments and of keys with their values, then the rest |
| Arguments.PartitionedPrimitiveCallIsAccepted | common/script/Interpreter.cpp:1743-1803 | every such mixture with enough arguments is accepted with exactly these arguments |
| Arguments.SetArgsInEnv | common/script/Interpreter.cpp:390-427 | binding in the order positional, named, rest, with its checks |
| Arguments.BindingSucceeds | common/script/Interpreter.cpp:390-427 | after a call was matched, binding arguments of the same shape fails only for the rest of a variadic specification without a rest name |
| Arguments.ParsedSpecAlwaysBinds | common/script/Interpreter.cpp:390-427 | so it never fails for a parameter list written in a program |
| Arguments.ParametersAreBound | common/script/Interpreter.cpp:401-420 | what each name is bound to, later declarations hiding earlier ones, other names untouched |
| Evaluation.EvalForm | common/script/Interpreter.cpp:816-878 | no evaluation changes the parent, handler or global mark of an environment, removes a variable, changes a heap object, or changes a constant of a global environment; environments stay older than those nested in them and functions point to existing ones |
| Evaluation.EvalPair | common/script/Interpreter.cpp:1004-1099 | the same for every call |
| Evaluation.EvalLet | common/script/Interpreter.cpp:1468-1573 | the same for let, which sets variables in its new environment only |
| Evaluation.EvalWithErrorHandler | common/script/Interpreter.cpp:2408-2436 | the same for with-error-handler, which installs the handler in a new environment only |
| Evaluation.SetVar | common/script/Interpreter.cpp:1280-1283 | setting a variable changes nothing else, provided it is not a constant at global level |
| Evaluation.EvalArgs | common/script/Interpreter.cpp:1970-2004 | evaluated arguments have the shape of the unevaluated ones |
| Evaluation.EnvToSet | common/script/Interpreter.cpp:1270-1293 | set! finds an environment that has the variable, and never a constant at global level |
| Evaluation.Alphabetical | common/script/Interpreter.cpp:1977-1979 | the keys of a map, each once |
| Evaluation.FunctionCallBinds | common/script/Interpreter.cpp:1075-1093 | a function call whose arguments match and evaluate always binds its parameters |
| Evaluation.MacroCallBinds | common/script/Interpreter.cpp:1054-1073 | and so does a macro call whose arguments match |
| Interpreters.Interpreter.EvalWithRewind | common/script/Interpreter.cpp:816-878 | computes the meaning of the expression whatever is on the stack, and leaves the stack as it was when it ends with a value or an EvalException; otherwise the stack may only have grown |
| Interpreters.Interpreter.EvalPushed | common/script/Interpreter.cpp:818-822 | another exception leaves the pushed environment behind |
| Interpreters.Interpreter.Recover | common/script/Interpreter.cpp:829-876 | what the response of an error handler does with the error |
| Evaluation.ResponseDecides | common/script/Interpreter.cpp:829-876 | the error ends exactly when the handler answers with the empty list or #f, and that is the value; otherwise it goes on, with one frame more exactly when the answer is a pair |
| EvaluationLaws.VariableLaw | common/script/Interpreter.cpp:360-388 | a variable has its value in the nearest environment that has it, from that of the expression outwards, else its value as a constant, else it is an error |
| EvaluationLaws.SelfLaw | common/script/Interpreter.cpp:922-949 | what is its own value |
| EvaluationLaws.UnhandledLaw | common/script/Interpreter.cpp:826-834 | an error goes on where no handler is installed, with one frame more unless it begins there |
| EvaluationLaws.HandlerLaw | common/script/Interpreter.cpp:829-900 | a handler runs inside the environment where it was made, with message, form and trace; its answer ends the error, adds a frame or lets it go on, and what does not answer takes its place |
| EvaluationLaws.BodyLaw | common/script/Interpreter.cpp:975-993 | forms evaluated in order, up to the first that does not yield a value |
| EvaluationLaws.ArgumentsLaw | common/script/Interpreter.cpp:1970-2004 | arguments by position, by key in alphabetical order, then the rest, each from the store the one before left |
| EvaluationLaws.FunctionCallLaw | common/script/Interpreter.cpp:1075-1093 | the body of a function runs in a new environment inside the one where the function was made, whatever environment calls it, with each parameter bound to its evaluated argument |
| EvaluationLaws.FreeVariableLaw | common/script/Interpreter.cpp:360-388 | a name that is no parameter means what it means where the function was made |
| EvaluationLaws.ClosureLaw | common/script/Interpreter.cpp:1086-1092 | a function that gives back a free variable gives its value where the function was made |
| EvaluationLaws.MacroCallLaw | common/script/Interpreter.cpp:1054-1073 | the body of a macro runs inside the environment of the call with the arguments as written, and what it comes to is evaluated in the place of the call |
| EvaluationLaws.PrimitiveCallLaw | common/script/Interpreter.cpp:1024-1052 | a primitive gets its evaluated arguments |
| EvaluationLaws.NotCallableLaw | common/script/Interpreter.cpp:1095-1098 | anything else at the head of a call is an error |
| SpecialFormLaws.QuoteLaw | common/script/Interpreter.cpp:1350-1358 | quote gives its argument as written |
| SpecialFormLaws.CondLaw | common/script/Interpreter.cpp:1388-1419 | if the tests before a clause yield #f in order and its own something else, cond comes to what the body of that clause comes to, or to the value of its test |
| SpecialFormLaws.NoClauseLaw | common/script/Interpreter.cpp:1412-1414 | if all tests yield #f, so does cond |
| SpecialFormLaws.WhileLaw | common/script/Interpreter.cpp:1579-1610 | rounds as long as the test does not yield #f; the value is that of the last form of the last round, or the empty list |
| SpecialFormLaws.LetLaw | common/script/Interpreter.cpp:1468-1573 | let evaluates its bindings outside, let* inside the new environment, each is set there, and the body runs there |
| SpecialFormLaws.DefineLaw | common/script/Interpreter.cpp:1234-1258 | define sets the variable where it is called, and never a constant |
| SpecialFormLaws.DefineInLaw | common/script/Interpreter.cpp:1249-1257 | with :env the environment is evaluated first, and the variable is set in it |
| SpecialFormLaws.SetLaw | common/script/Interpreter.cpp:1263-1294 | set! changes the nearest variable of that name; a constant at global level and an unknown name are errors |
| SpecialFormLaws.LambdaLaw | common/script/Interpreter.cpp:1296-1320 | lambda makes a function that closes over the environment of the call |
| SpecialFormLaws.MacroLaw | common/script/Interpreter.cpp:1322-1345 | a macro expression makes a macro |
| SpecialFormLaws.WithErrorHandlerLaw | common/script/Interpreter.cpp:2408-2436 | the handler is evaluated first, must be a function, and is installed in a new environment in which the body runs |
| Interpreters.Interpreter.CallLambdaInternal | common/script/Interpreter.cpp:662-715 | a handler called with message, form and trace |
| Interpreters.Interpreter.Eval | common/script/Interpreter.cpp:922-949 | evaluation by kind of object |
| Interpreters.Interpreter.TrySymbolLookup | common/script/Interpreter.cpp:360-388 | the innermost binding, then the constants |
| Interpreters.Interpreter.EvalCall | common/script/Interpreter.cpp:1004-1016 | the head is evaluated first |
| Interpreters.Interpreter.Dispatch | common/script/Interpreter.cpp:1016-1099 | dispatch on what the head is |
| Interpreters.Interpreter.EvalPrimitive | common/script/Interpreter.cpp:1024-1052 | a primitive gets evaluated arguments and the environment, may call the evaluator and may change the store |
| Interpreters.Interpreter.RunPrimitive | common/script/Interpreter.cpp:1024-1052 | a primitive that calls the evaluator, any number of times, gets the meaning of each call as its answer, and the stack is as after any evaluation |
| EvaluatingPrimitives.EvalPrimitiveEvaluates | common/script/Interpreter.cpp:4363-4367 | eval of one argument is the meaning of that argument |
| EvaluatingPrimitives.EvalPrimitiveCalls | common/script/Interpreter.cpp:4372-4382 | eval of a function and arguments is a call of that function |
| EvaluatingPrimitives.ApplyPrimitiveCalls | common/script/Interpreter.cpp:3408-3421 | apply evaluates the body of a function with the elements of a list as its positional arguments |
| EvaluatingPrimitives.ApplyLosesRest | common/script/Interpreter.cpp:3392-3421 | apply binds what a call binds unless there are more arguments than parameters: then the rest parameter stays empty |
| Interpreters.Interpreter.EvalMacroCall | common/script/Interpreter.cpp:1054-1073 | a macro gets unevaluated arguments, and its expansion is evaluated in the environment of the call |
| Interpreters.Interpreter.EvalLambdaCall | common/script/Interpreter.cpp:1075-1093 | a function body is evaluated in a new environment inside the one where the function was made |
| Interpreters.Interpreter.EvalListReturnLast | common/script/Interpreter.cpp:975-993 | the last value of a sequence; an improper sequence is another exception |
| Interpreters.Interpreter.EvalArguments | common/script/Interpreter.cpp:1970-2004 | positional arguments in order, keys alphabetically, then a new list of the rest |
| Interpreters.InOrder | common/script/Interpreter.cpp:1977-1979 | picking the first key each time traverses the keys alphabetically |
| Interpreters.Interpreter.EvalDefineSpecial | common/script/Interpreter.cpp:1234-1258 | define, in this environment or the one given by :env, never over a constant |
| Interpreters.Interpreter.EvalSetSpecial | common/script/Interpreter.cpp:1263-1294 | set! in the nearest environment that has the variable, never a constant at global level |
| Interpreters.Interpreter.FindEnvToSet | common/script/Interpreter.cpp:1270-1293 | the walk up the environments |
| Interpreters.Interpreter.EvalLambdaSpecial | common/script/Interpreter.cpp:1296-1320 | a value is a new heap object, a function with the parsed parameters that closes over the environment; nothing else changes, and after an error nothing at all |
| Evaluation.MadeFunctionApplies | common/script/Interpreter.cpp:1296-1320 | a call from the interpreter of the function a lambda expression made runs its body inside the environment of that expression, with the parameters standing for the values, exactly when the number of values fits and no keywords are declared; else it is an error, of the other kind if keywords are declared |
| Interpreters.Interpreter.EvalMacroSpecial | common/script/Interpreter.cpp:1322-1345 | a value is a new heap object, a macro with the parsed parameters; nothing else changes, and after an error nothing at all |
| Evaluation.MadeMacroExpands | common/script/Interpreter.cpp:1322-1345 | any call that matches the parameters of the macro a macro expression made runs its body inside the environment of the call, with the parameters, optional, keyword and rest ones included, standing for the unevaluated arguments, and evaluates the result |
| Interpreters.Interpreter.EvalCondSpecial | common/script/Interpreter.cpp:1388-1419 | the first clause whose test is true |
| Interpreters.Interpreter.EvalWhileSpecial | common/script/Interpreter.cpp:1579-1610 | the loop and the value of its last form |
| Interpreters.Interpreter.EvalLetCommonSpecial | common/script/Interpreter.cpp:1468-1573 | let and let*, with their own entry on the stack |
| Interpreters.Interpreter.BindAll | common/script/Interpreter.cpp:1517-1556 | bindings are evaluated outside for let and inside for let* |
| Interpreters.Interpreter.EvalWithErrorHandlerSpecial | common/script/Interpreter.cpp:2408-2436 | the handler is evaluated first and installed in a new environment |
| FuelIndependence.FormWithMore | common/script/Interpreter.cpp:816-878 | an evaluation that ends gives the same result and store with one more step allowed |
| FuelIndependence.MoreFuel | common/script/Interpreter.cpp:816-878 | and with any number of further steps |
| FuelIndependence.MeaningIsUnique | common/script/Interpreter.cpp:816-878 | so an expression has at most one meaning, whatever number of steps is allowed |
| FuelIndependence.WhileWithMore | common/script/Interpreter.cpp:1579-1610 | the same for loops |
| FuelIndependence.InteractWithMore | common/script/Interpreter.cpp:1024-1052 | the same for primitives that call the evaluator |

## Left out

- `InternedPtrMap::remove`: it assigns through a reference where it means to rebind it (common/script/Object.hpp:590), so a shifted entry is overwritten; the map refinement covers set, clear and lookup.
- Loading from a binary in memory, unloading and reloading modules; the contents of binary files beyond readability and the names they require.
- Files that share a stem and paths in more than one spelling: one file per stem and canonical paths are preconditions, as is a registry that starts out initialised.
- Tables of 2^31 and more slots.
- Arrays, and lists in square brackets beyond reading them; floats keep the digits they were written with.
- Reader macros other than the four quote prefixes, and evaluation while reading.
- Bytes from 128 on in symbols, which the model does not accept.
- Pairs shared between objects: objects are values except in `TextDb.dfy`, so changing a pair in place is not modelled.
- The range errors of floating-point literals.
- The text of a source line; only the line index and the offset table are modelled.
- The widths of the layout counters.
- The primitive `get-context` (common/script/Interpreter.cpp:4968-4987), which reads the stack of environments: what it returns depends on the stack, so it has no meaning apart from it. Every other primitive is covered, as long as it keeps the parent, handler and global mark of environments, their variables and the heap objects made so far.
- The form and the owner function recorded in an environment.
- The special forms and, or, quasiquote and eval-args, which would add members of the same kind as cond.
- The wording of the interpreter's own error messages, its profiler and its printed reports.
- Interpreters.Interpreter.EvalWithRewind: does not fix the stack after an exception other than an EvalException, because the source does not restore it then.
- Arguments.ParseUndoesWrite: speaks of parameter lists in the conventional order with each marker at most once; ParseArgSpec itself covers every list.
- ModuleLoader.Carbon.LoadModule: requires one file per stem, because the registry keeps one entry per stem and leaves stale paths behind otherwise.
- SymbolTables.SymbolTable.constructor: starts with no names; the core symbols that the source interns at once are further calls of Intern.
- Misreading.PrintedTextReadsBackExactly: says nothing of symbols whose name is not one plain token, such as names with blanks in them, and of floats, whose printed digits are not modelled.
- Misreading.LaidOutTextReadsBack: the same.
- PrettyPrinter.ToString: the same for what it says about reading back.
- PrettyText.BrokenHasNewline: where an element of a list has no text at all, as a symbol without a name, the columns of the elements after it on the same line are left open.
- Objects.EqualIsIdentity: compares floats by the digits they were written with, and knows no arrays or hash tables.
- PrettyNodes.ToNodeIsShaped: speaks of objects without arrays; an empty array would be an empty list node.
- Interpreters.Interpreter.Eval: knows no pointers, native objects, arrays and hash tables, which evaluate to what they hold or to themselves.
- Sockets, the REPL around the completeness test, command tables, configuration, the virtual machine, the scheduler and garbage collection.
