# Ferroada: a verified model of the proxy's hard parts

Ferroada is a reverse proxy that inspects traffic. This project models, in Dafny 4.11, the parts of it that
carry the most branching, state or arithmetic, and proves what they are for:

- the GraphQL parser, cost analyser and quota, singly and composed (`GraphqlAst`, `GraphqlGrammar`,
  `GraphqlParser`, `GraphqlRoundTrip`, `GraphqlWalk`, `GraphqlCycles`, `GraphqlLaws`, `GraphqlQuota`, `GraphqlPolicy`,
  `GraphqlAdmission`);
- the OpenAPI schema validator and its closed world (`Openapi`, `OpenapiLaws`);
- canonical route paths and the overlay of route policies (`Utf8`, `Canonical`, `Routes`);
- connection slots and the connection rate filter (`Slots`, `RateFilter`);
- civil dates (`Calendar`), card masking (`CardMask`), the decaying behavioural score (`Decay`), the replay cache
  for tokens (`Replay`), the origin pool (`OriginPool`) and gRPC framing (`GrpcFrames`).

`dafny verify dfyconfig.toml` checks everything. Code of the source that updates things step by step is a class or
a method with a loop, proved against a specification function; what the source promises is proved about that
function, for all inputs or over all runs.

## How to read it

**GraphQL.** The analyser never builds the document with all fragments inlined; it walks, saturates and stops at the
first cap. `GraphqlWalk` defines that inlined document and its cost over unbounded integers, and the walk is proved
to refine it: it succeeds exactly when the ideal values fit the caps, and then reports them. `GraphqlCycles` ties the
two ways in which inlining can fail to walks in the graph of fragments. `GraphqlGrammar` gives concrete syntax trees,
a printer and a reference parser that are inverse to each other; the parser class of `GraphqlParser` follows the
reference. `GraphqlPolicy` composes parser, analyser and quota for a whole batch.

**Answers, not names.** A method is proved equal to a specification function, and what that function answers is then
stated without it: `GraphqlLaws` gives cost, depth, aliases and introspection field by field, `GraphqlAdmission` tells
what passes from the syntax tree alone, `GraphqlRoundTrip` parses every document back from its written form, and
`OpenapiLaws` says what an accepted value is, keyword by keyword, at every depth. The other modules hold such laws
beside their methods.

**Interleavings.** `Slots` and `OriginPool` are machines whose steps are what a thread does between two points where
others can intervene; the methods of their classes are sequences of these steps. `RateFilter`, `GraphqlQuota` and
`Replay` take each operation as one step. Clocks never go back; where the source reads the clock twice in one operation
the model does too.

**Where the source does not quite do what one expects**, the model follows the source and the exact condition is proved:

- A rate check reads the clock once for itself and, when it sweeps, a second time. The limit per address therefore
  holds for every interval of the window less that drift (`RateFilter.RatesAreBounded`), and for no longer ones
  (`RateFilter.DriftCanAdmitOneMore`). The global limit holds for the whole window.
- A decay of the behavioural score reads the clock once for the elapsed time and once for the time it records. The
  stored score is within half a point of the ideal one when the two readings agree
  (`Decay.LazyStaysCloseToIdeal`); otherwise what falls between them adds up without bound (`Decay.LateDecaysDrift`).
- The check of spooled routes at load time queries the policy with each prefix as if it were a URI. A prefix with a
  decoded `?` is cut there. Without such prefixes the check passes exactly when every URI is safe
  (`Routes.LoadCheckCoversAllUris`); with any such prefix there are patches for which it passes wrongly
  (`Routes.LoadCheckMissesQuestionMarks`), and `Routes.PrefixesStandForAllUris` is the check that would be exact for all.
- A larger depth budget can turn acceptance into refusal, through `oneOf` only (`Openapi.OneOfIsNotMonotone`,
  `Openapi.LargerBudgetAcceptsMore`).
- The sum of cursor and offset in a pick wraps at the width of the machine word. A pick looks at every origin exactly
  when that does not happen or the number of origins divides the word's range (`OriginPool.ReachesAll`,
  `OriginPool.WrapSkips`). With a word of 64 bits it takes a run of about 2^64 picks to get there
  (`OriginPool.WrapCanMissReady`).
- A failure opens the circuit and then marks the origin down; a health check that succeeds takes the mark away and then
  closes the circuit. Between two such updates an open circuit can be without a mark: it belongs to an origin that is
  marked down or is being updated (`OriginPool.RunIsGuarded`), and a pick claims the probe of a half-open circuit only
  if it overlaps such an update of that origin (`OriginPool.PickClaimsOnlyUnderWay`, `OriginPool.ProbeNeedsUpdate`).
  That does happen (`OriginPool.ProbeCanBeClaimed`).
- When the replay cache is full of live entries it drops nine in ten of them. Until that happens a token is used once
  (`Replay.TokenIsUsedOnce`); whenever it happens some live token can be used again (`Replay.ThinningReadmits`,
  `Replay.TokenCanBeUsedTwice`).

## Model

| member | source | states |
|---|---|---|
| GraphqlWalk.TimesIsProduct | src/graphql.rs:682-697 | the repeated addition that stands for multiplier times child cost is the product |
| GraphqlWalk.ListMultiplier | src/graphql.rs:717-740 | the loop returns the specified multiplier, for literal sizes, integer variables and everything else |
| GraphqlWalk.MultiplierIsTheMaximum | src/graphql.rs:717-740 | the multiplier is at least 1 and every size asked for by `first`, `last` or `limit`, where an integer asks for itself, a variable with an integer value for that value and anything else for the default, and it is 1 or one of these |
| GraphqlWalk.SummarizeAppend | src/graphql.rs:659-715 | cost, depth, aliases and flags of inlined selections combine independently of how they are grouped |
| GraphqlWalk.SettledIsExact | src/graphql.rs:671-697 | where nothing exceeds the caps, the saturated counters hold the exact values |
| GraphqlWalk.FieldSettles | src/graphql.rs:678-697 | the field's own charge, the child walk and the multiplication afterwards settle at the ideal cost of the field |
| GraphqlWalk.Walker.Walk | src/graphql.rs:659-715 | walking a set credits exactly its ideal summary, or fails for a reason the ideal document has; visits are paid for by fields |
| GraphqlWalk.Walker.WalkItems | src/graphql.rs:664-714 | the same for the loop over the selections of a set |
| GraphqlWalk.Walker.Visit | src/graphql.rs:665-713 | the same for one selection: field, spread (with the stack of open fragments) or inline fragment |
| GraphqlWalk.Walker.ChargeField | src/graphql.rs:672-678 | a field adds exactly its own summary to the counters: one to the cost, its alias, its introspection mark |
| GraphqlWalk.Walker.VisitField | src/graphql.rs:666-697 | a field is credited exactly its ideal summary, or fails when the cap is crossed, by itself or through its children |
| GraphqlWalk.Walker.VisitChildren | src/graphql.rs:682-696 | the cost of a field with children is one plus multiplier times the children's ideal cost, or the failure is justified |
| GraphqlWalk.AnalyzeDocument | src/graphql.rs:604-634 | succeeds iff the inlined document has no cycle, no missing fragment, and depth and unbounded cost within the caps; then the numbers are the ideal ones; every error is justified; selections visited are bounded by (cap + 2) * (64 * (fragments + 1) + 1) |
| GraphqlCycles.CycleMeansRepeatingWalk | src/graphql.rs:698-708 | inlining meets a cycle iff some walk along spreads from the selections repeats a fragment |
| GraphqlCycles.MissingMeansUndefinedFragment | src/graphql.rs:698-708 | inlining meets an undefined fragment iff some walk along spreads leads to one |
| GraphqlLaws.VariablesStandForValues | src/graphql.rs:717-740 | writing the integer value of each bound variable in its place, everywhere in the document, changes neither cost nor depth nor any other value |
| GraphqlLaws.IdealIsFieldByField | src/graphql.rs:659-715 | each field of the inlined selections costs the product of the list sizes around it; the aliases are those of the fields, introspection means `__schema` or `__type` among them, and the depth is that of the deepest field with a set |
| GraphqlLaws.DocumentIsFieldByField | src/graphql.rs:604-634 | the same for a document with all its operations |
| GraphqlLaws.CapsAreTheStricter | src/graphql.rs:604-634 | the caps are the configured limits, and never more than 64 levels and a cost of 100000 |
| GraphqlGrammar.ValueSound | src/graphql.rs:1255-1294 | what the value parser takes is the printed form of a value within the depth limit |
| GraphqlGrammar.ValueComplete | src/graphql.rs:1255-1294 | every printed value within the depth limit is read back, whatever follows it |
| GraphqlGrammar.BlockSound | src/graphql.rs:1105-1131 | a parsed selection set is the printed form of a non-empty tree that nests at most 64 deep |
| GraphqlGrammar.BlockComplete | src/graphql.rs:1105-1131 | a printed selection set is read back, or is too deep when it nests further |
| GraphqlGrammar.NodeSound | src/graphql.rs:1133-1161 | spread, inline fragment and field are told apart as printed |
| GraphqlGrammar.NodeComplete | src/graphql.rs:1133-1161 | each printed selection is read back as itself |
| GraphqlGrammar.FieldSound | src/graphql.rs:1163-1189 | alias, arguments, directives and set of a field are those printed |
| GraphqlGrammar.FieldComplete | src/graphql.rs:1163-1189 | a printed field is read back |
| GraphqlGrammar.VarDefsSound | src/graphql.rs:1221-1253 | parsed variable definitions, with types, defaults and directives, are those printed |
| GraphqlGrammar.VarDefsComplete | src/graphql.rs:1221-1253 | printed variable definitions are read back |
| GraphqlGrammar.DefinitionsSound | src/graphql.rs:776-837 | accepted definitions are the printed form of well-formed ones with distinct fragment names, nested at most 64 deep |
| GraphqlGrammar.DefinitionsComplete | src/graphql.rs:776-837 | printed definitions are read back, or found too deep |
| GraphqlParser.Parser.ParseValue | src/graphql.rs:1255-1294 | consumes the tokens and returns the value that the reference parser gives |
| GraphqlParser.Parser.ParseArguments | src/graphql.rs:1191-1208 | follows the reference for an optional argument list |
| GraphqlParser.Parser.ParseDirectives | src/graphql.rs:1210-1219 | follows the reference for any number of directives |
| GraphqlParser.Parser.ParseType | src/graphql.rs:1241-1253 | follows the reference for named, list and non-null types |
| GraphqlParser.Parser.ParseVariableDefs | src/graphql.rs:1221-1239 | follows the reference for variable definitions |
| GraphqlParser.Parser.ParseSelectionSet | src/graphql.rs:1105-1131 | follows the reference, restores the nesting count, and records too deep exactly when the reference does |
| GraphqlParser.Parser.ParseSelection | src/graphql.rs:1133-1161 | follows the reference for one selection |
| GraphqlParser.Parser.ParseField | src/graphql.rs:1163-1189 | follows the reference for a field with or without alias |
| GraphqlParser.Parser.ParseDefinition | src/graphql.rs:791-824 | follows the reference for shorthand, operation and fragment definitions |
| GraphqlParser.ParseDocument | src/graphql.rs:776-837 | the result is the reference result, and an accepted document is shaped: no empty set, nested at most 64 deep |
| GraphqlParser.AcceptsExactlyTheGrammar | src/graphql.rs:776-837 | a token stream is accepted with a document iff it is the printed form of well-formed definitions, within the nesting limit, that erase to that document |
| GraphqlParser.PrintedDocumentsAreReadBack | src/graphql.rs:776-837 | for every well-formed tree, printing and parsing gives back the same operations and fragments; one level of nesting too many gives TooDeep |
| GraphqlParser.AcceptedIsShaped | src/graphql.rs:1105-1131 | the shape on which the bound on visits relies holds of every accepted document |
| GraphqlRoundTrip.DocumentsReadBack | src/graphql.rs:776-837 | every document without empty sets, nested at most 64 deep, with 64-bit integers and no fragment called `on`, written out with its fragments in any order and parsed, comes back as it was |
| GraphqlRoundTrip.NamesCanBeListed | src/graphql.rs:776-837 | such an order exists for every set of fragment names |
| GraphqlRoundTrip.TheRestIsDropped | src/graphql.rs:1133-1294 | directives, type conditions, the text of an alias and every value but integers and variables are read and dropped |
| GraphqlQuota.SaturatingSumIsCapped | src/graphql.rs:306-310 | the saturating fold is the sum, capped once |
| GraphqlQuota.LiveTwice | src/graphql.rs:293-305 | dropping expired hits early does not change what is live later |
| GraphqlQuota.IntervalIsLive | src/graphql.rs:305-310 | what any window-long interval reaching now holds is live now |
| GraphqlQuota.LiveIsTheWindow | src/graphql.rs:305-310 | the live cost is what the window that ends now holds |
| GraphqlQuota.SweptAreRecent | src/graphql.rs:292-299 | a key that a sweep leaves has an accepted charge in the window that ends now |
| GraphqlQuota.SweepKeepsLive | src/graphql.rs:292-299 | the sweep keeps every key's live hits and never adds keys |
| GraphqlQuota.AcceptKeepsLive | src/graphql.rs:304-314 | after an acceptance the book still agrees with the log for every key |
| GraphqlQuota.AcceptKeepsQuota | src/graphql.rs:306-314 | after an acceptance every interval of one window still holds at most the quota, for every key |
| GraphqlQuota.QuotaBook.constructor | src/graphql.rs:135-149 | an empty book |
| GraphqlQuota.QuotaBook.SweepIfDue | src/graphql.rs:292-299 | every 256th call leaves only keys charged within the window; the book stays in step with the log |
| GraphqlQuota.QuotaBook.Charge | src/graphql.rs:304-314 | a key with room is charged iff the window that ends now has room for the cost |
| GraphqlQuota.QuotaBook.Consume | src/graphql.rs:280-315 | accepts iff what the key was charged in the window that ends now plus the new cost fits, and the key has room; there is no room only with 50000 other keys, which right after a sweep were all charged within the window; the log grows by exactly the acceptance; no interval of one window ever holds more than the quota |
| GraphqlPolicy.OperationsCost | src/graphql.rs:659-715 | in a parsed document without cycles and missing fragments the cost is at least the number of operations |
| GraphqlPolicy.TruncationIsHarmless | src/graphql.rs:241-246 | the cast of the number of operations to 32 bits changes nothing for a document that can pass |
| GraphqlPolicy.NamedExactly | src/graphql.rs:212-235 | an operation is named as required iff it has a query, a claimed digest is 64 hexadecimal digits and the query's own, and the query is listed where only listed ones may pass; without a limit 64 operations may pass |
| GraphqlPolicy.EvaluateOp | src/graphql.rs:212-273 | one operation passes iff it is named as required, parses, and its inlined document is within every limit; errors are justified; the bound on visits holds for every source |
| GraphqlPolicy.EvaluateDocument | src/graphql.rs:241-273 | the same from the parsed document on |
| GraphqlPolicy.Evaluate | src/graphql.rs:201-278 | a batch passes iff all its operations do and together they are not too many; its price is the exact sum of ideal costs, so no counter wraps or saturates |
| GraphqlPolicy.Admit | src/graphql.rs:276-315 | with a quota an allowed batch is charged exactly its ideal cost, a refused one nothing, and the quota holds throughout; it is refused for its quota only when the window that ends now has no room for it or 50000 keys are held; without a quota the evaluation alone decides |
| GraphqlAdmission.AdmissibleExactly | src/graphql.rs:212-273 | an operation passes iff it is named as required and its tokens are those of a well-formed tree with an operation, whose spreads never repeat a fragment nor miss one, whose fields lie within the depth, cost together at most the limit, carry no more aliases than allowed, and ask for no introspection unless allowed |
| GraphqlAdmission.NoMarksMeanSpreadsEnd | src/graphql.rs:698-708 | the document has neither mark iff every walk along spreads from every operation ends, at a defined fragment |
| Openapi.CollectPropertyNames | src/openapi.rs:1383-1400 | the set grows by exactly the names reachable through references and allOf within the budget |
| Openapi.CollectFromAll | src/openapi.rs:1383-1400 | the same for the list under allOf |
| Openapi.StrictImpliesLax | src/openapi.rs:1021-1171 | what is accepted with undeclared keys denied is accepted without, for every schema |
| Openapi.NamesGrow | src/openapi.rs:1383-1400 | a larger budget gathers at least the same names |
| Openapi.AllowsAdditionalGrows | src/openapi.rs:1360-1381 | a larger budget still finds an allowance for additional properties |
| Openapi.BudgetGrows | src/openapi.rs:1021-1171 | without oneOf at a schema position, one more level of budget keeps acceptance |
| Openapi.LargerBudgetAcceptsMore | src/openapi.rs:1021-1171 | without oneOf at a schema position, every larger budget keeps acceptance |
| Openapi.OneOfIsNotMonotone | src/openapi.rs:1112-1125 | a document, schema and instance accepted with budget 2 and refused with budget 3 |
| Openapi.LooksIntoMeansChecked | src/openapi.rs:1126-1169 | a schema that describes objects or arrays checks every instance of that kind |
| Openapi.StepKeepsAcceptance | src/openapi.rs:1021-1321 | accepting a check means accepting every check it leads to: references, allOf, properties, items |
| Openapi.StrictCoversEveryKey | src/openapi.rs:1268-1358 | with undeclared keys denied, each key of an accepted object is declared or admitted as additional |
| Openapi.ClosedWorld | src/openapi.rs:1021-1171 | along every run of checks, at every depth, each key of each object checked against an object-describing schema is covered |
| Openapi.NothingAllowed | src/openapi.rs:1360-1381 | where additionalProperties is absent or false at every schema position, nothing is admitted as additional, through references and allOf too |
| Openapi.CoveredMeansDeclared | src/openapi.rs:1323-1400 | then covered keys are exactly the gathered property names |
| Openapi.StepKeepsNoAdditional | src/openapi.rs:1021-1321 | and every check that a step leads to is against such a schema again, beside a reference too |
| Openapi.OnlyDeclaredKeys | src/openapi.rs:1021-1400 | so from hypotheses on the document and the first schema alone: at every depth, each key of each object checked against an object-describing schema is among the names gathered through references and allOf |
| OpenapiLaws.TypeMeansKind | src/openapi.rs:1173-1244 | a schema that only names a type accepts exactly the values of that kind, for each of the seven names, and everything but null for an unknown one; a strict object must then be empty |
| OpenapiLaws.ObjectExactly | src/openapi.rs:1268-1321 | an object schema accepts exactly the objects that have every required key and whose keys are each accepted by their property schema, or by what is said of additional ones |
| OpenapiLaws.ArrayExactly | src/openapi.rs:1246-1266 | an array schema accepts exactly the arrays whose items are all accepted |
| OpenapiLaws.NullExactly | src/openapi.rs:1070-1092 | null is accepted against a typed schema iff it is nullable or `null` is among the types |
| OpenapiLaws.RefExactly | src/openapi.rs:1029-1053 | a reference alone means its target with one level less of budget, and one that leads nowhere accepts nothing |
| OpenapiLaws.FalseClosesComposition | src/openapi.rs:1323-1358 | beside a reference or allOf, `additionalProperties: false` leaves only gathered names unless a part allows more, in lax checks too |
| OpenapiLaws.EveryKeywordIsKept | src/openapi.rs:1021-1321 | at every check that an accepted one rests on, at any depth: the value equals `const`, is listed in `enum`, is of the type, or of one of the types, that the schema names, holds every required key where the schema describes objects, is accepted by some member of a non-empty `anyOf`, by exactly one of `oneOf` and by all of `allOf` |
| Canonical.DecodeInvertsEncode | src/config.rs:1308-1332 | decoding succeeds with a result iff the input is a percent-encoding of that result |
| Canonical.DecodeFixesPlain | src/config.rs:1308-1323 | decoding leaves exactly the inputs without a percent sign unchanged |
| Canonical.HexDigits | src/config.rs:1325-1332 | the hexadecimal digits are those of both cases with their values, and nothing else is one |
| Canonical.PercentDecode | src/config.rs:1308-1323 | the loop decodes, or fails on a bad escape |
| Canonical.DecodeFully | src/config.rs:1280-1293 | at most eight changing rounds, then a fixed point or refusal |
| Canonical.RemoveDotSegments | src/config.rs:1295-1304 | the push and pop loop resolves dot segments as specified; what that does is stated by the laws below |
| Canonical.CanonicalRoutePath | src/config.rs:1280-1306 | the whole function equals its specification |
| Canonical.DotDotRemovesSegment | src/config.rs:1295-1304 | anywhere among the pieces, a segment and the `..` after it cancel |
| Canonical.DotDotStopsAtRoot | src/config.rs:1295-1304 | a leading `..` removes nothing |
| Canonical.IdlePiecesVanish | src/config.rs:1295-1304 | an empty piece or `.` can be dropped anywhere |
| Canonical.SegmentsStay | src/config.rs:1295-1304 | proper segments stay, in their order |
| Canonical.DotsInPaths | src/config.rs:1280-1306 | the same for whole paths with nothing to decode |
| Canonical.BackslashIsSlash | src/config.rs:1294 | a backslash has the effect of a slash |
| Canonical.SplitJoin | src/config.rs:1296-1305 | splitting at slashes inverts joining |
| Canonical.RenderedIsCanonical | src/config.rs:1280-1306 | a rendered list of proper segments is its own canonical form |
| Canonical.CanonicalIsIdempotent | src/config.rs:1280-1306 | canonicalisation is idempotent, and its result consists of segments without percent sign, backslash, empty, `.` or `..` |
| Canonical.EncodingIsInvisible | src/config.rs:1280-1293 | up to eight rounds of encoding, each of every percent sign and any other bytes, leave the result unchanged |
| Canonical.NinthRoundIsRefused | src/config.rs:1280-1293 | a path that needs more than eight changing decodes is refused |
| Canonical.CanonicalAddsNoBytes | src/config.rs:1280-1306 | where there is nothing to decode, the result holds no byte but slashes that the path does not |
| Routes.MatchingIsOnSegments | src/config.rs:1356-1364 | prefix matching of canonical paths is exactly the prefix relation on segment lists |
| Routes.MatchesFormAChain | src/config.rs:1356-1364 | prefixes that match one path match each other, and are equal when equally long |
| Routes.MatchingIsTransitive | src/config.rs:1356-1364 | what matches a matching prefix matches the path |
| Routes.InspectionPolicy | src/config.rs:337-361 | filter, sort and overlay in the loop give the specified policy, with the fallback for a URI that does not decode |
| Routes.UndecodableUri | src/config.rs:337-361 | a URI that does not decode is denied everything as soon as some route demands completeness or denies, and is open otherwise |
| Routes.NoEscapeByBadEncoding | src/config.rs:337-361 | so whatever some decodable URI is held to, an undecodable one is held to completeness and to denial for both reasons |
| Routes.PathEndsAtQuestion | src/config.rs:337-339 | the path is what stands before the first question mark |
| Routes.OverlayDecides | src/config.rs:1243-1278 | after an overlay each field is what the patch decides, or what it was |
| Routes.OverlaySetsWhatItNames | src/config.rs:1243-1278 | a patch sets what it names; completeness, when named, also sets the two actions that are not |
| Routes.LongestDeciderWins | src/config.rs:337-361 | each field of the policy is set by the longest matching prefix that decides it, and is open when none does |
| Routes.DeclarationOrderIsIrrelevant | src/config.rs:337-361 | with distinct prefixes the policy does not depend on the order of declaration |
| Routes.PolicyOfLongestPrefix | src/config.rs:337-361 | the policy of a path is the policy of its longest matching prefix, or open when none matches |
| Routes.ValidateSpoolRoutes | src/config.rs:1099-1109 | the loop answers the load check |
| Routes.PrefixesStandForAllUris | src/config.rs:337-373 | every URI is safe iff the policy at every prefix is |
| Routes.LoadCheckCoversAllUris | src/config.rs:1099-1109 | without question marks in prefixes the load check passes iff every URI with a body limit demands complete inspection |
| Routes.LoadCheckMissesQuestionMarks | src/config.rs:1099-1109 | for every list of canonical prefixes one of which holds a question mark there are patches that pass the check and a URI that is not safe |
| Routes.MergeInspectionRoutes | src/config.rs:1147-1204 | each prefix ends up with the merge of everything declared for it, and no prefix is listed twice unless the list of complete prefixes repeats one |
| Routes.PatchAfterMerge | src/config.rs:1035-1045 | one merge changes the patch of its own prefix only |
| Routes.LastWordWins | src/config.rs:1147-1204 | for each field of each prefix the last entry that says anything of it decides, before it the entries above, and the list of complete prefixes first of all |
| Slots.StepConserves | src/connection.rs:157-231 | every step keeps counter = reservations + guards + threads in between, within the maximum |
| Slots.SlotsAreConserved | src/connection.rs:157-231 | in every interleaving: the sum holds, the maximum holds, the counter never wraps below zero and is zero when nothing is held |
| Slots.ActiveConnectionState.constructor | src/connection.rs:176-184 | empty, with a maximum of at least one |
| Slots.ActiveConnectionState.Increment | src/connection.rs:186-192 | takes a slot iff one is free |
| Slots.ActiveConnectionState.EvictExpiredPending | src/connection.rs:221-231 | exactly the reservations of 65 seconds and more go, and their slots with them; a sequence of eviction steps |
| Slots.ActiveConnectionState.ReservePending | src/connection.rs:200-209 | reserves iff a slot is free after eviction; a second reservation of an address takes no second slot; a sequence of enabled steps of the machine |
| Slots.ActiveConnectionState.Activate | src/connection.rs:211-219 | a live reservation becomes a guard, otherwise a slot is taken iff one is free; a sequence of enabled steps of the machine |
| Slots.ActiveConnectionState.Drop | src/connection.rs:169-173 | dropping a guard returns its slot; one step of the machine |
| RateFilter.PopExpired | src/connection.rs:100-112 | the loop removes exactly the expired front of a queue |
| RateFilter.SpacedMeansFew | src/connection.rs:100-140 | attempts spaced by a window leave at most the maximum in every interval |
| RateFilter.StepIsSound | src/connection.rs:100-154 | each check keeps queues and log in step, and refuses only when a limit is reached |
| RateFilter.ConnectionRateFilter.constructor | src/connection.rs:66-98 | an empty filter |
| RateFilter.ConnectionRateFilter.Check | src/connection.rs:100-154 | the filter is in the state of the run so far, and the answer is the one the run gives, sweep included |
| RateFilter.RunIsSound | src/connection.rs:100-154 | queues and log are in step at the end of every run from an empty filter |
| RateFilter.RatesAreBounded | src/connection.rs:100-154 | in every run: at most the global maximum in every window, at most the maximum per address in every window less the drift, and never more addresses than allowed |
| RateFilter.RefusalsHaveReasons | src/connection.rs:100-140 | in every run a refusal means that a maximum is reached in the window that ends now, or that the table holds its maximum of other addresses, each of which, if the check swept, has an accepted attempt in the window that ends at the sweep |
| RateFilter.TableIsAccountedFor | src/connection.rs:100-154 | at the end of every run each address of the table had an accepted attempt in the window that ended at the last sweep, or was checked since |
| RateFilter.SweptAreSeen | src/connection.rs:142-154 | an address that a sweep leaves has such an attempt |
| RateFilter.QueuesHoldWhatIsLive | src/connection.rs:100-154 | in every run the live part of each queue is the live part of the log, per address and for all |
| RateFilter.DriftCanAdmitOneMore | src/connection.rs:142-154 | for every window and every drift a run in which one address gets two attempts, with a maximum of one, in an interval one longer than the window less the drift |
| Calendar.YearOfEraIsRight | src/metrics.rs:225-238 | the closed form picks the year of the era that contains the day |
| Calendar.FormulaSteps | src/metrics.rs:225-238 | the formula moves from each day to the next day of the Gregorian calendar |
| Calendar.FormulaIsTheCalendar | src/metrics.rs:225-238 | for every day count it equals stepping day by day from 1970-01-01 |
| Calendar.SteppedDatesExist | src/metrics.rs:225-238 | stepping meets existing dates only |
| Calendar.DatesAreValidAndIncrease | src/metrics.rs:225-238 | dates are valid and strictly increase, so different days have different dates |
| Calendar.CopiesAgree | src/cidrs.rs:653-667 | the second copy gives the same date for every second count |
| CardMask.Luhn | src/dlp.rs:658-673 | the loop computes the Luhn sum of ISO/IEC 7812-1 |
| CardMask.LuhnCatchesOneWrongDigit | src/dlp.rs:658-673 | changing one digit changes the check |
| CardMask.CardsExactly | src/dlp.rs:554-673 | a card number is 13 to 19 digits, not all the same, whose sum by position, every second one from the right doubled and its own digits added, ends in zero |
| CardMask.DigitsOneByOne | src/dlp.rs:554-577 | the digits of a stretch are the values of its digit characters in order |
| CardMask.CardRunEnd | src/dlp.rs:541-552 | the loop finds the end of the digit and separator run |
| CardMask.BestCardEnd | src/dlp.rs:554-577 | the loop finds the specified end of a card in a run |
| CardMask.BestEndIsLast | src/dlp.rs:554-577 | that end is the last one at which a valid card ends on a boundary, and none is found only when there is none |
| CardMask.MaskCards | src/dlp.rs:507-539 | the scan writes the specified text and counts the cards |
| CardMask.MaskingIsIdempotent | src/dlp.rs:507-539 | masking the output again changes nothing and counts nothing |
| CardMask.NoRunStartsWithACard | src/dlp.rs:507-539 | no run of the output starts with a valid card, wherever it starts: at the beginning, after other text, or after a separator that continues no run |
| CardMask.NoCardIsLeft | src/dlp.rs:507-577 | in the output no stretch of digits with single spaces and hyphens between them, starting where no run goes on and followed by no digit, is a card |
| CardMask.RegionsAreCards | src/dlp.rs:507-586 | masked regions are disjoint, ordered, as many as counted, and each a Luhn-valid group of 13 to 19 digits |
| CardMask.RegionsPassTheCheck | src/dlp.rs:507-673 | each masked region starts and ends with a digit that no digit follows, holds only digits, spaces and hyphens, and passes the check by position |
| CardMask.OnlyCardDigitsChange | src/dlp.rs:507-539 | outside JSON the length stays, and exactly the digits of the regions become `*` |
| CardMask.JsonOnlyAddsQuotes | src/dlp.rs:507-586 | in JSON the same cards are masked, and the output is the other one with quotation marks around exactly the masked regions that are number tokens |
| CardMask.NumberTokensExactly | src/dlp.rs:579-586 | a number token is a stretch of digits after `:`, `[` or `,` and before `,`, `}`, `]` or the end, white space apart |
| Decay.LazyStaysCloseToIdeal | src/behavioral.rs:139-150 | after any sequence of scoring events the stored score is within half a point of the ideal one, up to the time between two readings of the clock, with no other drift |
| Decay.LateDecaysDrift | src/behavioral.rs:139-145 | for every gap a run in which the stored score is that far above the ideal one |
| Decay.JudgeIsJustified | src/behavioral.rs:281-318 | block and throttle follow the ideal score up to the slack, in both directions |
| Decay.IpProfile.constructor | src/behavioral.rs:121-137 | a fresh profile, with no events |
| Decay.IpProfile.DecayNow | src/behavioral.rs:139-145 | the stored score is what one more event of no points makes of it |
| Decay.IpProfile.Bump | src/behavioral.rs:281-282 | points without decay are points at the last reading of the clock |
| Decay.IpProfile.Add | src/behavioral.rs:147-150 | exactly these points are charged |
| Decay.IpProfile.ResetPathWindowIfExpired | src/behavioral.rs:158-164 | the path list and its flag are cleared, and the window started again, exactly when the reading of the clock is a window or more after its start |
| Decay.IpProfile.NotePath | src/behavioral.rs:246-258 | the list grows by a new hash, and 20 points are charged exactly when the flag goes up |
| Decay.HashesAreListedOnce | src/behavioral.rs:183-191 | a hash joins the list once, at its end, and only up to 64 of them |
| Decay.IpProfile.NoteUserAgent | src/behavioral.rs:260-279 | 8 points without a user agent, 15 exactly when the rotation flag goes up |
| Decay.IpProfile.Charge | src/behavioral.rs:243-281 | the charges of one request add up to its tenth of a point and its penalties; paths are counted for 60 seconds, the path flag stands for more than 30 of them and the rotation flag for more than 3 user agents |
| Decay.IpProfile.ScoreKey | src/behavioral.rs:221-320 | a banned client is refused and charged nothing; otherwise the verdict is justified by the ideal score, the charge is exact, the flags stand for more than 30 paths within 60 seconds and more than 3 user agents, and a block bans for the configured time from its last reading of the clock |
| Decay.IpProfile.RecordWafBlock | src/behavioral.rs:323-334 | charges 20 points |
| Decay.IpProfile.RecordResponse | src/behavioral.rs:337-362 | charges 3, 5 and 3 points for 404, 401 and 403, and nothing otherwise |
| Replay.EntryStays | src/jwt.rs:804-834 | an entry stays in the cache as long as it has not expired |
| Replay.JtiIsUsedOnce | src/jwt.rs:288-293 | a second token with the same `jti` is accepted only after the first one's expiry and leeway (section 4.1.7 of RFC 7519) |
| Replay.TokenIsUsedOnce | src/jwt.rs:739-742 | no token is accepted twice, even where the sum of expiry and leeway wraps |
| Replay.AcceptedExactly | src/jwt.rs:804-834 | an attempt is accepted iff the token is genuine and has a `jti`, its expiry plus leeway, wrapping at 64 bits, is not past, it is neither issued nor valid only later than the leeway from now, and no live use of its key precedes it |
| Replay.ClaimsHoldExactly | src/jwt.rs:739-747 | the claims alone, and which of them an expired token fails |
| Replay.ThinningReadmits | src/jwt.rs:811-819 | in every run, when the cache is full of live entries and the next attempt thins it, some accepted token that has not expired is forgotten; unless its sum of expiry and leeway wraps it is accepted again at the same instant |
| Replay.TokenCanBeUsedTwice | src/jwt.rs:811-819 | a run from an empty cache in which one token is accepted twice before it expires |
| Replay.StepEnters | src/jwt.rs:804-834 | in any state an attempt enters at most its own key, on acceptance only, and the cache never outgrows its limit |
| Replay.Thin | src/jwt.rs:813-819 | the fallback keeps one entry in ten, unchanged |
| Replay.JwtVerifier.constructor | src/jwt.rs:228 | an empty cache |
| Replay.JwtVerifier.RememberJti | src/jwt.rs:804-834 | purge, fallback, and refusal of a live key; below 50000 entries nothing is dropped, and the cache never outgrows that number |
| Replay.JwtVerifier.Authenticate | src/jwt.rs:279-293 | a token that fails a check uses up nothing; below 50000 entries no live entry is lost; every call is a step of the runs above, and as long as the purge made room it follows the runs of single use |
| OriginPool.ReachesAll | src/origin.rs:271-273 | without a wrap, or with one at a multiple of the number of origins, a pick looks at every origin |
| OriginPool.WrapSkips | src/origin.rs:271-273 | otherwise some origin is not looked at |
| OriginPool.PickClaimsOnlyUnderWay | src/origin.rs:172-185 | an undisturbed pick claims a probe only for an origin that is being updated, and leaves every other circuit as it was |
| OriginPool.ProbeNeedsUpdate | src/origin.rs:280-285 | a pick that others come between, from its look at the mark to its question to the circuit, changes the circuit only by claiming the probe, and only if an update of that origin was under way in between |
| OriginPool.ProbeCanBeClaimed | src/origin.rs:117-121 | a run in which a pick claims the probe between the two updates of a health check |
| OriginPool.StepKeepsGuarded | src/origin.rs:112-206 | every step of every thread keeps: open circuits belong to origins marked down or being updated, failures and probes mean an open circuit |
| OriginPool.RunIsGuarded | src/origin.rs:112-206 | so it holds at every point of every interleaving |
| OriginPool.StaysDown | src/origin.rs:310-315 | an origin marked down stays so until a health check on it takes the mark away |
| OriginPool.FailedIsNotPicked | src/origin.rs:262-289 | after a failure has marked an origin no pick, disturbed or not, gets past the mark before a health check takes it away |
| OriginPool.OpenIsNotPicked | src/origin.rs:172-205 | and from the moment the circuit opens no pick gets it for five seconds, marked or not, unless a success closes the circuit first |
| OriginPool.CircuitAnswers | src/origin.rs:172-185 | a closed circuit answers yes, an open one only after five seconds and while no probe is out, and that answer sends the probe |
| OriginPool.OneProbeAtATime | src/origin.rs:172-206 | in every interleaving, between two probes of a circuit it was closed or a failure was recorded |
| OriginPool.FailureFreesTheProbe | src/origin.rs:187-206 | in every interleaving, a failure answers the probe: if nothing else happens to the circuit the next question gets through iff it comes five seconds later |
| OriginPool.ReadyMeansUp | src/origin.rs:274-285 | in every run an origin that is not being updated can be picked iff it is untried and not marked down |
| OriginPool.HasReadyForecastsPick | src/origin.rs:291-302 | the readiness question never denies what a first pick can find, and promises too much only for an origin that is being updated and has a claimed probe |
| OriginPool.PickFindsReady | src/origin.rs:262-289 | a pick returns an origin iff one is untried, up and sendable, when the sum does not wrap badly |
| OriginPool.WrapCanMissReady | src/origin.rs:271-273 | for every bad wrap a run from an empty pool that ends with a ready origin and a pick that finds none |
| OriginPool.PicksGoRound | src/origin.rs:262-289 | with every origin up and none being updated, successive picks return successive origins |
| OriginPool.RoundReturnsEachOnce | src/origin.rs:262-289 | so as many picks as there are origins return every origin, and different origins exactly once each |
| OriginPool.SitePool.constructor | src/origin.rs:152-159 | an empty pool, guarded |
| OriginPool.SitePool.CanSend | src/origin.rs:172-185 | answers whether the circuit lets traffic through, and claims the probe only when it does |
| OriginPool.SitePool.Pick | src/origin.rs:262-289 | the loop is the step of an undisturbed pick: first ready origin from the cursor, no circuit changed but the picked one's |
| OriginPool.SitePool.RecordSuccess | src/origin.rs:304-308 | closes the circuit and leaves the mark: one step |
| OriginPool.SitePool.RecordFailure | src/origin.rs:310-315 | opens the circuit and then marks the origin: two steps of one thread |
| OriginPool.SitePool.Check | src/origin.rs:112-127 | success takes the mark away and then closes the circuit, two steps of one thread; failure sets the mark |
| GrpcFrames.CutsAgree | src/grpc.rs:310-335 | two ways to cut a body into frames agree as far as both go |
| GrpcFrames.FirstFrameIsDetermined | src/grpc.rs:318-331 | the first frame of a body and the rest are determined by the body |
| GrpcFrames.NextFrame | src/grpc.rs:313-332 | one turn of the loop extends the frames cut so far by exactly the next one |
| GrpcFrames.FaultsExactly | src/grpc.rs:313-331 | too long iff a whole header, high byte first, claims more than the maximum; malformed iff the header is cut short, or the length is allowed and the frame is marked compressed or cut short |
| GrpcFrames.IterFrames | src/grpc.rs:310-335 | succeeds iff the body is a concatenation of uncompressed length-prefixed messages within the maximum, and returns exactly those; otherwise the error is that of the first faulty frame |

## Left out

- The lexer of the GraphQL parser: the model starts from tokens and a flag that says whether they end because the source does.
- Reading a batch from a request body, the hash of a query and the normalisation of a claimed hash: they are fields of the operation.
- The failure pointers and reason texts of the OpenAPI validator, the matching of paths, parameters and media types, and the resolution of pointer text: references resolve in a map.
- Routes.MergeInspectionRoutes: the inspection patches of a route only; its layer-1 rules, GraphQL, authorization and redaction settings, which the source merges in the same loop, are not part of it.
- The text of configuration files and the messages of its panics: a failed load check is the value false.
- GraphqlPolicy.Evaluate: the number of fragments is compared after its cast to 32 bits, as in the source, so a document with that many fragments is not excluded.
- GraphqlQuota.QuotaBook.Consume: one policy with one window, since an overlaid policy shares the book with its base and may bring another window; and one step, although the source tests the number of keys before it locks the entry, so that threads can take the book past its number of keys, and reads the clock before it.
- RateFilter.RatesAreBounded: the clock readings of successive checks are taken not to decrease, although the source reads the clock before it takes its lock.
- Replay.JtiIsUsedOnce: for runs in which the purge of expired entries always makes room; what the fallback does is stated by Replay.ThinningReadmits.
- Replay.JwtVerifier.Authenticate: signature, issuer, audience and subject are one answer given from outside, and the sum of expiry and leeway wraps, as in a build without overflow checks.
- OriginPool.PickFindsReady: for picks that no other thread comes between; what a disturbed pick can do is stated by OriginPool.ProbeNeedsUpdate, OriginPool.FailedIsNotPicked and OriginPool.OpenIsNotPicked.
- OriginPool.FailureFreesTheProbe: for a count of failures that does not wrap at 32 bits with this failure, as in the next line.
- OriginPool.OpenIsNotPicked: for a count of failures that does not wrap at 32 bits with this failure; when it wraps the circuit keeps its earlier time of opening.
- OriginPool.SitePool.Pick: addresses stand for their canonical form, all questions of an undisturbed pick are asked at one instant, and a site with a single backend, which needs no pool, is not part of it.
- Decay.IpProfile.ScoreKey: one profile that is not removed; the cleanup of the map of profiles and 32-bit floating point are not modelled.
- Compression, regular-expression redaction, protobuf decoding, deadlines of gRPC calls, the event rings of the metrics, signatures and all network code.
