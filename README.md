# Tutorial steps of the micro:bit Python editor, in Dafny

This project models the tutorial feature of the micro:bit Python editor and
proves properties of the model. A tutorial is a run of step records. The
runs form doubly-linked lists: a step names its neighbours by slug. All steps
of all tutorials sit in one flat collection. Four parts are modelled:

- **The step record** (`model.ts`), in `model.dfy`. It is the `Tutorial`
  datatype plus the invariants its declaration states in comments. For a
  collection there is `WellFormed`: records valid, slugs unique, links
  resolving and agreeing both ways, and linked steps sharing the tutorial name.
- **The tutorial-file parser** (`parser/parser.tsx`), in `parser.dfy` and
  `parser_props.dfy`. The class `TutorialParser.Parser` keeps the fields of
  the original class: step slots, name, author and icon. Its methods follow
  the original loops, and each method is proved against a pure
  specification: `ProcessLine` for one line, `RunFrom` for a run of lines,
  `Link` for `#linkList` and `ParseSpec` for a whole call. Thrown errors
  become a `ParseError` value carrying the line counter at the throw. The
  properties of the line machine, the continuation scan, the line counter
  and the linking pass are lemmas in `ParserProperties`.
- **The panel's data handlers** (`TutorialsDocumentation.tsx`), in
  `links.dfy`. These are opening a step by slug, the menu of run heads, "Add
  before", "Add after", "Delete" and "Add new tutorial". The class
  `LinkModel.TutorialCollection` holds the `tutorials` state. Its methods are
  proved equal to pure functions of the old collection. "Delete" keeps a
  well-formed collection well-formed. "Add before", "Add after" and "Add new
  tutorial" keep it well-formed only when the key of the new step is not
  already a slug, which the code does not check; lemmas give inputs where the
  key is taken. `runs.dfy` (module `RunOrder`) adds what link integrity alone
  does not give: a ranking of the steps along forward links, which rules out
  cycles. Every handler keeps a ranked collection ranked, and in a ranked
  collection every step reaches a run head of its tutorial that the menu
  lists.
- **The document-tree renderer** (`EditorTextRenderer.tsx`), in
  `renderer.dfy`. The tree is an already-built `Node` datatype, and the
  React output is the abstract `Inline` datatype. A text node's format bits
  wrap bold innermost, then italic, strikethrough, and underline outermost
  (`WrapLayers`).

`js_strings.dfy` models the JavaScript string built-ins the code calls:
`trim`, `indexOf`, `split`, `parseInt`, number printing, first-occurrence
`replace`, and lower-casing with `\s` replacement. `wrappers.dfy` holds
`Option` and `Result`.

Where the code departs from the intended design, the model follows the code:

- Continuation lines are not skipped. `linesToSkip` is never set, so after a
  property whose value runs on, the loop reads each continuation line again
  as a line of its own (`ContinuationLineReread`).
- The `continue` after `TutorialProperties [` skips the line-counter
  increment. Later error line numbers are one lower than the physical line,
  and the continuation scan of a value starts at its own line
  (`HeaderAtTopLags`).
- A gap in the step numbers leaves a hole. `#linkList` dereferences it and
  throws, so the parse fails (`LinkHoleFails`).
- A property inside the property block reaches every step parsed so far,
  step titles and contents included (`HeaderPropertyReachesEveryStep`).
- "Add new tutorial" compares ids and names, not slugs. It can create a
  duplicate slug (`NewTutorialMayDuplicateSlug`).
- "Add before" and "Add after" key the new step by tutorial name and
  collection size, not by a fresh value. The key can already be a slug: next
  to a new tutorial alone in the collection it is that tutorial's own key,
  and after a "Delete" shrinks the collection an earlier key comes round
  again. Two steps then share a slug (`AddBeforeMayDuplicateSlug`,
  `AddAfterMayDuplicateSlug`).

## Model

| member | source | states |
|---|---|---|
| TutorialModel.SlugIdentifies | src/documentation/tutorials/TutorialsDocumentation.tsx:79-81 | with unique slugs, two positions carrying the same slug are the same position |
| JsStrings.TrimStartDropsLeadingWhite | src/documentation/tutorials/parser/parser.tsx:99 | `trimStart` removes exactly the leading white space: the result is a suffix, everything dropped is white, and the result does not start with white space |
| JsStrings.TrimEndDropsTrailingWhite | src/documentation/tutorials/parser/parser.tsx:99 | `trimEnd` removes exactly the trailing white space |
| JsStrings.IndexOf | src/documentation/tutorials/parser/parser.tsx:109 | -1 exactly when the character is absent, otherwise the position of its first occurrence |
| JsStrings.Split | src/documentation/tutorials/parser/parser.tsx:85 | `split` yields at least one piece, and no piece contains the separator |
| JsStrings.JoinSplit | src/documentation/tutorials/parser/parser.tsx:85 | joining the pieces of `split` with the separator gives back the text |
| JsStrings.SplitJoin | src/documentation/tutorials/parser/parser.tsx:143 | splitting pieces joined by a separator they lack gives back the pieces |
| JsStrings.SplitAtSeparator | src/documentation/tutorials/parser/parser.tsx:143 | a text whose first separator follows `p` splits into `p` and the pieces of the rest |
| JsStrings.SplitNoSeparator | src/documentation/tutorials/parser/parser.tsx:143 | a text without the separator is a single piece |
| JsStrings.DecimalValueOfNatToString | src/documentation/tutorials/parser/parser.tsx:169 | the decimal value of a printed number is the number |
| JsStrings.NatToStringInjective | src/documentation/tutorials/parser/parser.tsx:65-66 | distinct numbers print differently |
| JsStrings.ParseIntOfNatToString | src/documentation/tutorials/parser/parser.tsx:160 | `parseInt` reads back any printed natural number |
| JsStrings.ParseIntWithoutDigits | src/documentation/tutorials/parser/parser.tsx:160-166 | a token with no decimal digit is NaN to `parseInt` |
| JsStrings.ReplaceFirst | src/documentation/tutorials/TutorialsDocumentation.tsx:150 | a string `replace` changes only the first occurrence, and only that character |
| JsStrings.ReplaceFirstAbsent | src/documentation/tutorials/TutorialsDocumentation.tsx:303 | a name without a blank is unchanged by the replacement |
| JsStrings.TrimUntouched | src/documentation/tutorials/TutorialsDocumentation.tsx:301 | a name without surrounding white space is its own trim |
| JsStrings.Slugify | src/documentation/tutorials/parser/parser.tsx:63 | lower-casing followed by `\s` to `-` keeps the length, maps each white-space character to `-` and each other character to its lower case, and leaves no white space |
| TutorialParser.ArrayWrite | src/documentation/tutorials/parser/parser.tsx:168-190 | an array write at a valid index overwrites or extends with holes, and leaves every other slot; any other index leaves the array unchanged |
| TutorialParser.NewStep | src/documentation/tutorials/parser/parser.tsx:168-190 | the fresh record of step `n`: id `n`, slug `step-n`, the current defaults, title `nil`, empty content, flags false with hint and links `nil` |
| TutorialParser.StoreStep | src/documentation/tutorials/parser/parser.tsx:168 | a step opener writes its record to slot `n - 1` and keeps the defaults |
| TutorialParser.SetField | src/documentation/tutorials/parser/parser.tsx:18-36 | each recognised name sets its field; any other name changes nothing |
| TutorialParser.SetPropertySpec | src/documentation/tutorials/parser/parser.tsx:15-38 | only the addressed slot changes, and only when it holds a record |
| TutorialParser.SetAll | src/documentation/tutorials/parser/parser.tsx:41-43 | every record gets the property, and holes stay holes |
| TutorialParser.SetTutorialPropertySpec | src/documentation/tutorials/parser/parser.tsx:40-57 | every record gets the property; name, author and icon also become the defaults |
| TutorialParser.ScanValue | src/documentation/tutorials/parser/parser.tsx:121-127 | a completed value ends in `;` |
| TutorialParser.DropLast | src/documentation/tutorials/parser/parser.tsx:130 | the value loses exactly its last character |
| TutorialParser.FirstHole | src/documentation/tutorials/parser/parser.tsx:64-66 | the first slot without a record, all slots before it holding records |
| TutorialParser.LinkedUpTo | src/documentation/tutorials/parser/parser.tsx:61-75 | after the pass has handled `m` slots, those slots carry their new slugs and links, and later slots are untouched |
| TutorialParser.LinkAdvance | src/documentation/tutorials/parser/parser.tsx:65-73 | one iteration over two present slots extends the linked prefix by one slot |
| TutorialParser.LinkStopsAtHole | src/documentation/tutorials/parser/parser.tsx:65-66 | a hole after slot `i` stops the pass after slot `i` has been renamed |
| TutorialParser.Parser.constructor | src/documentation/tutorials/parser/parser.tsx:8-12 | no slots, and the three defaults `nil` |
| TutorialParser.Parser.SetProperty | src/documentation/tutorials/parser/parser.tsx:15-38 | the fields become those of the specification |
| TutorialParser.Parser.SetTutorialProperty | src/documentation/tutorials/parser/parser.tsx:40-57 | the loop over the slots sets the property on every record, then the default is updated |
| TutorialParser.Parser.LinkList | src/documentation/tutorials/parser/parser.tsx:61-75 | the loop ends with the slots of `Link`, and fails exactly where `Link` fails |
| TutorialParser.Parser.ReadBlockLine | src/documentation/tutorials/parser/parser.tsx:101-138 | one line inside a block behaves as `BlockLine`: a closer, a property, or an error |
| TutorialParser.Parser.ReadProperty | src/documentation/tutorials/parser/parser.tsx:108-137 | a property line behaves as `PropertyLine` |
| TutorialParser.Parser.ScanContents | src/documentation/tutorials/parser/parser.tsx:119-127 | the continuation loop returns what `ScanValue` specifies |
| TutorialParser.Parser.ReadOutsideLine | src/documentation/tutorials/parser/parser.tsx:139-196 | one line outside a block behaves as `OutsideLine` |
| TutorialParser.Parser.ReadLine | src/documentation/tutorials/parser/parser.tsx:99-198 | one pass of the loop body behaves as `ProcessLine`, and the counter stays within one of the line index |
| TutorialParser.Parser.Parse | src/documentation/tutorials/parser/parser.tsx:77-207 | the result and the fields afterwards are those of `ParseSpec` |
| ParserProperties.OutsideLineOutcome | src/documentation/tutorials/parser/parser.tsx:139-196 | outside a block, a line is accepted exactly when it is blank, the property-block opener or a numbered step opener; any other line throws at the current line number, leaving the fields alone; a blank line only advances the counter |
| ParserProperties.OpenerErrors | src/documentation/tutorials/parser/parser.tsx:141-166 | an opener that is not two tokens, a mismatch between `TutorialProperties` and `[`, and a NaN step number each throw their error |
| ParserProperties.PropertiesOpenerTokens | src/documentation/tutorials/parser/parser.tsx:143 | `TutorialProperties [` splits into exactly its two tokens |
| ParserProperties.HeaderOpenerKeepsLineCount | src/documentation/tutorials/parser/parser.tsx:149-157 | the property-block opener switches mode without advancing the counter |
| ParserProperties.StepOpenerStoresFreshRecord | src/documentation/tutorials/parser/parser.tsx:159-192 | a step opener `n {` puts a fresh record in slot `n - 1`, replacing any earlier one and filling a gap with holes; it makes `n` the current step and advances the counter |
| ParserProperties.StepOpenerRuns | src/documentation/tutorials/parser/parser.tsx:159-192 | the loop state after a step opener, as one update |
| ParserProperties.ParsedRecordViolatesValid | src/documentation/tutorials/parser/parser.tsx:175-187 | the record a step opener creates breaks all three record invariants of the `Tutorial` declaration |
| ParserProperties.ScanValueFindsFirstSemicolon | src/documentation/tutorials/parser/parser.tsx:119-127 | the value is extended by blank-prefixed raw lines up to the first extension that ends in `;`; the scan fails exactly when no extension up to the end of the file does |
| ParserProperties.BlockLineNeedsColon | src/documentation/tutorials/parser/parser.tsx:109-114 | inside a block, any line without a colon other than the closer throws at the current line, blank lines included |
| ParserProperties.PropertySplitAtFirstColon | src/documentation/tutorials/parser/parser.tsx:109-137 | a property line is split at its first colon into a trimmed colon-free name and a trimmed value; the value's scan decides between the unterminated error and the applied property |
| ParserProperties.LineCountAdvance | src/documentation/tutorials/parser/parser.tsx:149-198 | every accepted line advances the counter by one, except the property-block opener |
| ParserProperties.RunFromLineCountGrows | src/documentation/tutorials/parser/parser.tsx:92-199 | over any run of lines the counter never decreases |
| ParserProperties.RunFromLineCountBounded | src/documentation/tutorials/parser/parser.tsx:92-199 | over any run of lines the counter grows by at most one per line |
| ParserProperties.UnknownPropertyChangesNothing | src/documentation/tutorials/parser/parser.tsx:18-36 | an unrecognised property name changes nothing in either kind of block |
| ParserProperties.HeaderPropertyReachesEveryStep | src/documentation/tutorials/parser/parser.tsx:40-57 | a property-block property is set on every record parsed so far, whatever its name; only name, author and icon change the defaults |
| ParserProperties.StepPropertyTouchesCurrentSlot | src/documentation/tutorials/parser/parser.tsx:134-137 | a step-block property changes at most the current slot, and nothing when that slot is a hole; the defaults stay |
| ParserProperties.LinkCompletes | src/documentation/tutorials/parser/parser.tsx:61-75 | with two or more slots and no hole, the pass completes over every slot |
| ParserProperties.LinkedNeighbours | src/documentation/tutorials/parser/parser.tsx:64-74 | after a complete pass, slot `j` has slug `base-(j+1)` and each adjacent pair is linked both ways with the flags set |
| ParserProperties.LinkedEnds | src/documentation/tutorials/parser/parser.tsx:61-75 | the head keeps its backward link and the tail its forward link; no other field of a record changes |
| ParserProperties.SlugAtInjective | src/documentation/tutorials/parser/parser.tsx:65-66 | the slugs given by the pass are pairwise distinct |
| ParserProperties.LinkHoleFails | src/documentation/tutorials/parser/parser.tsx:64-66 | with two or more slots, any hole makes the pass fail |
| ParserProperties.ContinuationLineReread | src/documentation/tutorials/parser/parser.tsx:88-127 | the line after a property line is read again as a line of its own; without a colon it throws at the next line number, after the property has been stored |
| ParserProperties.HeaderAtTopLags | src/documentation/tutorials/parser/parser.tsx:120-157 | after a first-line property-block opener, the second line is read with the counter still at 1 |
| ParserProperties.OpenerTokens | src/documentation/tutorials/parser/parser.tsx:85-143 | the opener line `n {` is one line, unchanged by trimming, and splits into the number and the brace |
| ParserProperties.OpenerLineRuns | src/documentation/tutorials/parser/parser.tsx:159-192 | a first line `n {` stores the fresh record of step `n`, enters the step block and advances the counter to 2 |
| ParserProperties.LinkAfterOneOpener | src/documentation/tutorials/parser/parser.tsx:61-75 | after one step opener on an empty parser, step 1 passes the linking pass unchanged, and any higher step number leaves a hole that fails it |
| ParserProperties.UnclosedStepFile | src/documentation/tutorials/parser/parser.tsx:77-207 | a file that ends inside an open step block is no error: `1 {` alone parses to one record with slug `step-1`, id `1`, no hint, no links, and the fields as they were; `n {` for a larger `n` fails in the linking pass |
| ParserProperties.SingleStepFile | src/documentation/tutorials/parser/parser.tsx:77-207 | a file of one closed step block `1 {` / `}` parses to that one record (`step-1`, id `1`, both link flags false); a larger step number fails in the linking pass |
| ParserProperties.OneLineFile | src/documentation/tutorials/parser/parser.tsx:77-207 | a one-line file whose line the loop accepts without storing a step parses to no steps and leaves the fields as they were |
| ParserProperties.UnclosedPropertiesFile | src/documentation/tutorials/parser/parser.tsx:77-207 | a file that ends inside an open, empty property block parses to no steps without an error |
| ParserProperties.EmptyFileParsesToNothing | src/documentation/tutorials/parser/parser.tsx:77-207 | on a parser with no slots, an empty file gives no steps and leaves the fields as they were |
| ParserProperties.ParseOutcome | src/documentation/tutorials/parser/parser.tsx:201-206 | a successful parse empties the slots and keeps the defaults it ended with; a failing line leaves the fields as they were at the throw |
| LinkModel.FindBySlug | src/documentation/tutorials/TutorialsDocumentation.tsx:79-81 | the first position whose slug matches; none exactly when the slug is absent |
| LinkModel.FindBySlugUnique | src/documentation/tutorials/TutorialsDocumentation.tsx:79-81 | with unique slugs, the lookup of a step's slug finds that step |
| LinkModel.OpenStep | src/documentation/tutorials/TutorialsDocumentation.tsx:79-92 | no anchor id opens nothing; otherwise the first record with that slug opens |
| LinkModel.MenuHeads | src/documentation/tutorials/TutorialsDocumentation.tsx:283-284 | the menu holds exactly the records without a predecessor flag |
| LinkModel.MenuHeadsAppend | src/documentation/tutorials/TutorialsDocumentation.tsx:283-284 | the menu keeps collection order |
| LinkModel.StepBefore | src/documentation/tutorials/TutorialsDocumentation.tsx:149-173 | the new record's id and slug are `NewStepKey`: the anchor's tutorial name with its first blank replaced by `-`, then `-` and the collection length; it keeps the anchor's tutorial name, points forward at the anchor and copies its backward link |
| LinkModel.StepAfter | src/documentation/tutorials/TutorialsDocumentation.tsx:189-213 | the new record gets the same `NewStepKey` id and slug and the anchor's tutorial name, points back at the anchor and copies its forward link |
| LinkModel.Predecessor | src/documentation/tutorials/TutorialsDocumentation.tsx:175-177 | a found predecessor carries the slug the anchor's backward link names |
| LinkModel.Successor | src/documentation/tutorials/TutorialsDocumentation.tsx:215-217 | a found successor carries the slug the anchor's forward link names |
| LinkModel.AddBefore | src/documentation/tutorials/TutorialsDocumentation.tsx:148-186 | the collection grows by the new record; the anchor is its old record with only its backward link (and, when it is its own predecessor, its forward link) set to the new key; a found predecessor is its old record with only the forward link set to the new key; every other record is unchanged |
| LinkModel.AddAfter | src/documentation/tutorials/TutorialsDocumentation.tsx:188-225 | the collection grows by the new record; the anchor is its old record with only its forward link (and, when it is its own successor, its backward link) set to the new key; a found successor is its old record with only the backward link set to the new key; every other record is unchanged |
| LinkModel.RepairNeighbours | src/documentation/tutorials/TutorialsDocumentation.tsx:229-262 | the repair keeps every slug and name |
| LinkModel.Delete | src/documentation/tutorials/TutorialsDocumentation.tsx:227-264 | the collection is one shorter: the steps before and after the anchor keep their slugs and their order |
| LinkModel.AddBeforeLinks | src/documentation/tutorials/TutorialsDocumentation.tsx:175-183 | only the predecessor's forward link and the anchor's backward link change, to the new key |
| LinkModel.AddBeforeSlugs | src/documentation/tutorials/TutorialsDocumentation.tsx:164-174 | the slugs afterwards are the old ones plus the new key |
| LinkModel.PredecessorFound | src/documentation/tutorials/TutorialsDocumentation.tsx:175-177 | in a well-formed collection, a defined backward link is always found, and the step found points forward at the anchor |
| LinkModel.SuccessorFound | src/documentation/tutorials/TutorialsDocumentation.tsx:215-217 | in a well-formed collection, a defined forward link is always found, and the step found points back at the anchor |
| LinkModel.AddBeforeForward | src/documentation/tutorials/TutorialsDocumentation.tsx:148-186 | after "Add before", every forward link is answered by a backward link, within one tutorial |
| LinkModel.AddBeforeBackward | src/documentation/tutorials/TutorialsDocumentation.tsx:148-186 | after "Add before", every backward link is answered by a forward link |
| LinkModel.AddBeforeValidUnique | src/documentation/tutorials/TutorialsDocumentation.tsx:148-186 | with a fresh key, records stay valid and slugs unique |
| LinkModel.AddBeforeLinksResolve | src/documentation/tutorials/TutorialsDocumentation.tsx:148-186 | every link still names a step |
| LinkModel.AddBeforeLinksAgree | src/documentation/tutorials/TutorialsDocumentation.tsx:148-186 | links agree in both directions |
| LinkModel.AddBeforeWellFormed | src/documentation/tutorials/TutorialsDocumentation.tsx:148-186 | "Add before" keeps a well-formed collection well-formed when the new key is fresh |
| LinkModel.AddAfterLinks | src/documentation/tutorials/TutorialsDocumentation.tsx:215-222 | only the successor's backward link and the anchor's forward link change, to the new key |
| LinkModel.AddAfterSlugs | src/documentation/tutorials/TutorialsDocumentation.tsx:204-214 | the slugs afterwards are the old ones plus the new key |
| LinkModel.AddAfterForward | src/documentation/tutorials/TutorialsDocumentation.tsx:188-225 | after "Add after", every forward link is answered by a backward link, within one tutorial |
| LinkModel.AddAfterBackward | src/documentation/tutorials/TutorialsDocumentation.tsx:188-225 | after "Add after", every backward link is answered by a forward link |
| LinkModel.AddAfterValidUnique | src/documentation/tutorials/TutorialsDocumentation.tsx:188-225 | with a fresh key, records stay valid and slugs unique |
| LinkModel.AddAfterLinksResolve | src/documentation/tutorials/TutorialsDocumentation.tsx:188-225 | every link still names a step |
| LinkModel.AddAfterLinksAgree | src/documentation/tutorials/TutorialsDocumentation.tsx:188-225 | links agree in both directions |
| LinkModel.AddAfterWellFormed | src/documentation/tutorials/TutorialsDocumentation.tsx:188-225 | "Add after" keeps a well-formed collection well-formed when the new key is fresh |
| LinkModel.RepairLinks | src/documentation/tutorials/TutorialsDocumentation.tsx:229-262 | in a well-formed collection, the predecessor takes the anchor's forward link and the successor its backward link; every other link and the hints stay |
| LinkModel.RepairKeepsOtherFields | src/documentation/tutorials/TutorialsDocumentation.tsx:229-262 | on any collection the repair changes only the four link fields of each record: title, content, id, icon, author, hint, language and compatibility stay |
| LinkModel.RepairRecord | src/documentation/tutorials/TutorialsDocumentation.tsx:229-262 | in a well-formed collection, each whole record after the repair is its old record with exactly the links `RepairLinks` gives |
| LinkModel.OnlyNeighboursPointAt | src/documentation/tutorials/TutorialsDocumentation.tsx:229-262 | only the anchor's own neighbours link to it |
| LinkModel.DeleteForward | src/documentation/tutorials/TutorialsDocumentation.tsx:227-264 | after the repair, forward links between surviving steps are answered by backward links |
| LinkModel.DeleteBackward | src/documentation/tutorials/TutorialsDocumentation.tsx:227-264 | after the repair, backward links between surviving steps are answered by forward links |
| LinkModel.DeleteResolves | src/documentation/tutorials/TutorialsDocumentation.tsx:227-264 | no surviving link names the deleted step |
| LinkModel.DeleteAt | src/documentation/tutorials/TutorialsDocumentation.tsx:228 | position `k` after the deletion holds the repaired record from before it |
| LinkModel.DeleteKeepsOtherFields | src/documentation/tutorials/TutorialsDocumentation.tsx:227-264 | every step that survives "Delete" keeps all its fields except the four link fields |
| LinkModel.DeleteSlugs | src/documentation/tutorials/TutorialsDocumentation.tsx:228 | every other step's slug survives |
| LinkModel.DeleteValidUnique | src/documentation/tutorials/TutorialsDocumentation.tsx:227-264 | records stay valid and slugs unique |
| LinkModel.DeleteLinksResolve | src/documentation/tutorials/TutorialsDocumentation.tsx:227-264 | every link still names a step |
| LinkModel.DeleteLinksAgree | src/documentation/tutorials/TutorialsDocumentation.tsx:227-264 | links agree in both directions |
| LinkModel.DeleteWellFormed | src/documentation/tutorials/TutorialsDocumentation.tsx:227-264 | "Delete" keeps a well-formed collection well-formed |
| LinkModel.DeleteJoinsNeighbours | src/documentation/tutorials/TutorialsDocumentation.tsx:230-239 | deleting an interior step links its former neighbours to each other |
| LinkModel.DeleteHeadPromotesSuccessor | src/documentation/tutorials/TutorialsDocumentation.tsx:250-258 | deleting the head of a longer run puts its successor in the menu |
| LinkModel.DeleteSingleton | src/documentation/tutorials/TutorialsDocumentation.tsx:259-261 | deleting a one-step run changes no other step |
| LinkModel.DeleteNeedsRecordInvariant | src/documentation/tutorials/TutorialsDocumentation.tsx:229-240 | a head carrying a `nil` backward link takes the two-neighbour branch and leaves its successor pointing at the deleted slug |
| LinkModel.NewTutorialWellFormed | src/documentation/tutorials/TutorialsDocumentation.tsx:299-326 | a new tutorial is a listed run of one, and the collection stays well-formed when its key is fresh |
| LinkModel.NewTutorialLinksAgree | src/documentation/tutorials/TutorialsDocumentation.tsx:319-324 | the new step has no links, and no old step links to it |
| LinkModel.PlainNameKey | src/documentation/tutorials/TutorialsDocumentation.tsx:303 | a trimmed name without blanks keys as `name-1` |
| LinkModel.MyTutKey | src/documentation/tutorials/TutorialsDocumentation.tsx:303 | the name `my-tut` keys as `my-tut-1` |
| LinkModel.NewTutorialMayDuplicateSlug | src/documentation/tutorials/TutorialsDocumentation.tsx:301 | the acceptance test can admit a tutorial whose key is already another step's slug |
| LinkModel.FirstAddKeyCollides | src/documentation/tutorials/TutorialsDocumentation.tsx:150 | for a new tutorial alone in an empty collection, the key "Add before" or "Add after" gives the next step is that tutorial's own slug |
| LinkModel.AddBeforeMayDuplicateSlug | src/documentation/tutorials/TutorialsDocumentation.tsx:148-174 | "Add before" on a well-formed one-step collection can leave two steps with the same slug |
| LinkModel.AddAfterMayDuplicateSlug | src/documentation/tutorials/TutorialsDocumentation.tsx:188-214 | "Add after" on a well-formed one-step collection can leave two steps with the same slug |
| LinkModel.FindById | src/documentation/tutorials/TutorialsDocumentation.tsx:301 | `find` by `_id`: a match, or none exactly when no record has the id |
| LinkModel.FindByName | src/documentation/tutorials/TutorialsDocumentation.tsx:301 | `find` by name: a match, or none exactly when no record has the name |
| LinkModel.AcceptsNewTutorial | src/documentation/tutorials/TutorialsDocumentation.tsx:301 | accepted exactly when the trimmed name is non-empty, no record has the new key as id, and no record has the trimmed name |
| LinkModel.NewTutorialStep | src/documentation/tutorials/TutorialsDocumentation.tsx:302-323 | the new record has id and slug equal to the key, the trimmed name, no links, and satisfies the record invariants |
| LinkModel.TutorialCollection.Open | src/documentation/tutorials/TutorialsDocumentation.tsx:79-81 | the open record is the first whose slug is the anchor id; none when the id is absent |
| LinkModel.TutorialCollection.AddStepBefore | src/documentation/tutorials/TutorialsDocumentation.tsx:148-186 | the collection becomes `AddBefore` of the old one |
| LinkModel.TutorialCollection.AddStepAfter | src/documentation/tutorials/TutorialsDocumentation.tsx:188-225 | the collection becomes `AddAfter` of the old one |
| LinkModel.TutorialCollection.DeleteStep | src/documentation/tutorials/TutorialsDocumentation.tsx:227-264 | the collection becomes `Delete` of the old one |
| LinkModel.TutorialCollection.AddNewTutorial | src/documentation/tutorials/TutorialsDocumentation.tsx:299-326 | accepted exactly when `AcceptsNewTutorial` holds; then the new step is appended, otherwise nothing changes |
| RunOrder.SelfLinkedStepIsUnlisted | src/documentation/tutorials/TutorialsDocumentation.tsx:283-284 | a step linked to itself both ways is well-formed, has no ranking, and is missing from the menu: link integrity alone does not make a run a list |
| RunOrder.FreshKeyUnlinked | src/documentation/tutorials/TutorialsDocumentation.tsx:150 | in a well-formed collection no link names a key that is not a slug |
| RunOrder.BeforeEdgeRises | src/documentation/tutorials/TutorialsDocumentation.tsx:148-186 | with a fresh key, every forward link after "Add before" rises in the ranking that puts the new step just below the anchor |
| RunOrder.AfterEdgeRises | src/documentation/tutorials/TutorialsDocumentation.tsx:188-225 | with a fresh key, every forward link after "Add after" rises in the ranking that puts the new step just above the anchor |
| RunOrder.RepairedEdgeRises | src/documentation/tutorials/TutorialsDocumentation.tsx:229-262 | after the neighbour repair, a forward link between steps is an old link or one that skips the anchor, so it rises in the old ranking |
| RunOrder.DeleteEdgeRises | src/documentation/tutorials/TutorialsDocumentation.tsx:227-264 | every forward link after "Delete" rises in the old ranking without the anchor |
| RunOrder.AddBeforeAcyclic | src/documentation/tutorials/TutorialsDocumentation.tsx:148-186 | "Add before" keeps a well-formed ranked collection ranked when its key is fresh |
| RunOrder.AddAfterAcyclic | src/documentation/tutorials/TutorialsDocumentation.tsx:188-225 | "Add after" keeps a well-formed ranked collection ranked when its key is fresh |
| RunOrder.DeleteAcyclic | src/documentation/tutorials/TutorialsDocumentation.tsx:227-264 | "Delete" keeps a well-formed ranked collection ranked |
| RunOrder.NewTutorialAcyclic | src/documentation/tutorials/TutorialsDocumentation.tsx:299-326 | "Add new tutorial" keeps a well-formed ranked collection ranked when its key is fresh |
| RunOrder.WalkCons | src/documentation/tutorials/TutorialsDocumentation.tsx:175-177 | a backward link followed by a backward walk is a backward walk |
| RunOrder.PredecessorRanksLower | src/documentation/tutorials/TutorialsDocumentation.tsx:175-177 | a step with a predecessor flag links back to a step of the same tutorial with a smaller rank |
| RunOrder.EveryStepReachesHead | src/documentation/tutorials/TutorialsDocumentation.tsx:283-284 | in a well-formed ranked collection every step reaches, by backward links, a run head of the same tutorial, and the menu lists that head |
| RunOrder.MenuNonEmpty | src/documentation/tutorials/TutorialsDocumentation.tsx:283-284 | a non-empty well-formed ranked collection has a non-empty menu |
| EditorRenderer.RenderAllPointwise | src/documentation/tutorials/EditorTextRenderer.tsx:20 | mapping over children succeeds exactly when every child renders, with one result per child, in order |
| EditorRenderer.ParagraphKeepsChildren | src/documentation/tutorials/EditorTextRenderer.tsx:19-20 | a paragraph or root renders as one paragraph holding its children's renderings in order; without children it throws |
| EditorRenderer.PlainTextIsLeaves | src/documentation/tutorials/EditorTextRenderer.tsx:5-14 | the plain text of a node with children is the in-order concatenation of its leaves' texts |
| EditorRenderer.ChildrenTextIsLeaves | src/documentation/tutorials/EditorTextRenderer.tsx:6-10 | the fold over children concatenates the leaves of all children in order |
| EditorRenderer.CodeDiscardsFormatting | src/documentation/tutorials/EditorTextRenderer.tsx:17-18 | a code node renders as one code embed of its plain text, whatever the formats in its subtree |
| EditorRenderer.PlainTextIgnoresFormat | src/documentation/tutorials/EditorTextRenderer.tsx:5-14 | plain text does not depend on any format |
| EditorRenderer.HasBitLowFour | src/documentation/tutorials/EditorTextRenderer.tsx:23-32 | each tested mask bit depends only on `format` modulo 16 |
| EditorRenderer.WrapIgnoresHighBits | src/documentation/tutorials/EditorTextRenderer.tsx:21-35 | bits above 8 do not change the rendering |
| EditorRenderer.WrapDepthBits | src/documentation/tutorials/EditorTextRenderer.tsx:22-35 | each set bit adds exactly one wrap |
| EditorRenderer.WrapDepth | src/documentation/tutorials/EditorTextRenderer.tsx:21-35 | the number of wraps is the number of set bits in `format & 15` |
| EditorRenderer.FormatZeroIsBareText | src/documentation/tutorials/EditorTextRenderer.tsx:22-35 | format 0 renders the bare text |
| EditorRenderer.WrapNesting | src/documentation/tutorials/EditorTextRenderer.tsx:23-34 | examples of the nesting: formats 1, 3, 12 and 15 |
| EditorRenderer.LayerStep | src/documentation/tutorials/EditorTextRenderer.tsx:23-34 | one `if` of the format chain adds exactly its own tag outside lower-bit tags, keeping their order and the text inside |
| EditorRenderer.LayersOrdered | src/documentation/tutorials/EditorTextRenderer.tsx:22-35 | for any choice of bits, the wraps run in strictly descending bit order from the outside in, around the bare text |
| EditorRenderer.LayersChosen | src/documentation/tutorials/EditorTextRenderer.tsx:22-35 | for any choice of bits, the wraps are exactly the chosen ones |
| EditorRenderer.ZeroLast | src/documentation/tutorials/EditorTextRenderer.tsx:23-25 | in a descending tag list that holds bold, bold comes last (innermost) |
| EditorRenderer.WrapLayers | src/documentation/tutorials/EditorTextRenderer.tsx:21-35 | for every format, the wraps are exactly the set bits of `format & 15`, each once, underline outermost whenever bit 3 is set and bold innermost whenever bit 0 is set, around the bare text |
| EditorRenderer.WrapKeepsText | src/documentation/tutorials/EditorTextRenderer.tsx:21-35 | wrapping never changes the text shown, and an undefined text shows as nothing |
| EditorRenderer.RenderKeepsText | src/documentation/tutorials/EditorTextRenderer.tsx:5-38 | a well-shaped tree renders without throwing; when every text it reaches is defined, the elements show exactly its plain text |
| EditorRenderer.RenderAllKeepsText | src/documentation/tutorials/EditorTextRenderer.tsx:19-20 | well-shaped children render; when all their texts are defined, they show the concatenation of their plain texts |
| EditorRenderer.ConvertKeepsText | src/documentation/tutorials/EditorTextRenderer.tsx:40-42 | converting editor data renders its root; when all its texts are defined, it shows the root's plain text |
| EditorRenderer.UndefinedTextShowsNothing | src/documentation/tutorials/EditorTextRenderer.tsx:5-22 | a paragraph holding a text node without `text` renders as a paragraph showing nothing, while its plain text is the string `undefined` |

## Left out

- EditorRenderer.RenderKeepsText: the shown text equals the plain text only
  for trees whose text nodes all carry `text`. React shows an undefined
  child as nothing, while the plain-text fold turns it into the string
  `undefined` (`UndefinedTextShowsNothing`).
- EditorRenderer.RenderAllKeepsText: the same restriction, for a list of
  children.
- EditorRenderer.ConvertKeepsText: the same restriction, for the root of the
  editor data.
- The ranking of `RunOrder` is not shown for the collection the parser
  builds, and that a run has only one head is not stated.

- React output, Chakra layout, edit mode, the column count and navigation
  through `onNavigate` are user interface. Each handler is modelled only by
  its effect on the collection.
- The module-level `active` variable is ambient interface state.
- In-place mutation and aliasing in the panel handlers. The handlers publish
  a new array, then mutate record objects that both arrays share. The model
  updates records as values and publishes the result in one step. A record's
  identity is its position, so "Delete" removes a position rather than an
  object.
- Icon and slug objects are reduced to their `asset` and `current` strings.
  `_type` tags and the `HasCompatibility` field's meaning are not modelled.
- Error messages are reduced to an error kind and the line counter.
- The JSON parsing of editor data and the Lexical editor itself are not
  modelled. The tree is taken as already built, and a `format` is taken to be
  an integer.
- `parseInt` returns a double in JavaScript. The model returns an unbounded
  integer, so precision loss on very long digit strings is not modelled.
- JsStrings.Slugify: lower-cases ASCII letters only, because full Unicode
  case mapping is out of scope.
- Number printing (`String(n)`) is modelled for natural numbers only. A
  step opener whose number is zero or negative writes outside the array,
  which JavaScript keeps as a property that iteration does not see, so the
  model drops that write.
- The `linesToSkip` branch of the loop in `parse` is dead code, since the
  variable is never set, and the model leaves it out.
- The parse result keeps `Option<Tutorial>` slots, where JavaScript would
  copy a hole as `undefined`. With two or more slots a hole makes the
  linking pass fail (`LinkHoleFails`), so a successful result holds no holes.
