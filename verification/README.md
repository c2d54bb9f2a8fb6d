# Verified model of grpcbridge

grpcbridge is a proxy that serves gRPC services to web clients. This project models its routing, path-template,
stream-forwarding, reflection and framing logic in Dafny 4.11 and proves what that code promises its callers.
`dafny verify dfyconfig.toml` checks all of it.

Code that works step by step is a method or a class proved against a specification function, and the promises are lemmas
about that function; concurrent code is a system of interleaved steps with invariants over every run. `Text` holds the
string operations of Go's standard library that the code calls. Many proofs begin with `hide`, which keeps definitions out
of a proof that needs only lemmas about them.

## The parts

**Path templates, `internal/httprule/gwbased`.** `Lexing` is the three-state splitter that both front ends share, as
the loop the code has and as a function whose results lose nothing; `FieldPaths` splits a dotted field path, for both.
`GwTemplate` states the grammar the parser follows; `GwParser` has the tokenizer, the parser class that advances
through its tokens, and the printer, each proved to compute what the grammar says. `GwShape` proves what parsing
guarantees, `GwRoundTrip` that printed text splits and parses as expected. `GwInverse.RoundTripIff` is the main result:
for every list of segments and every verb, printing and then parsing gives the template back if and only if the
template is well-formed. `GwCompile` compiles to opcode/operand pairs over a constant pool and reads the code back with
a stack machine: the code means the template if and only if no literal and no field path is empty, which the parser
guarantees. `GwStrict` is the grammar without the parser's leniency towards "/", and says exactly on which templates
the two differ. `GwShorthand` settles templates written by hand: `{path}` stands for `{path=*}` wherever it is written,
and the name of every RPC is a template.

**Path templates and the trie, `internal/httprule`.** `HttpRule`, `HttpRuleParser` and `HttpRuleSound` do the same for
the second front end. The main result is `HttpRuleExact.ParsedIff`, which says exactly what the parser accepts and as
what: without a NUL an input parses to some segments and verb if and only if they are well made and, printed, are the
input with `{path}` written `{path=*}` (`HttpRuleExpanded` proves that this writing out changes no parse). By
`HttpRuleInverse.RenderedIff` a parsed template renders as its input unless that has a NUL or ends with a colon that
gets lost, which is any closing colon behind a literal and one that stands alone behind a variable. `TrieModel` is the
routing trie as a value. `Trie` is the linked structure, changed in place: after any sequence of additions (`TrieIndex`
has its invariant) it shows exactly the map from place to the template added last, and it stays a tree. `TrieFind`,
`TrieParsed` and `TrieMisled` settle when what `Find` returns matches the request path, for all templates that `Parse`
makes (`HttpRuleShape` says what they look like, `HttpRuleMade` builds those that mislead). While no literal has a
colon, it always matches if and only if the last path component is *safe*: it does not start with a piece that could be
a colon-free literal, a colon, a piece that could be a verb, and another colon (`TrieMisled.MisledIff`). Where literals
may have colons the condition is stronger, and again exact (`TrieMisled.MisledByAnyIff`). `TrieFound` settles the other
half: for safe paths `Find` returns exactly the matching templates that nothing blocks, and finds none only when each
matching one is blocked (`TrieParsed.FoundExactly`). Four things block a template: at some component an edge that goes
first also fits; the last component is a literal with a verb where the template has a wildcard; its verb has a colon
behind a last literal; or the node behind its wildcard has a template without a verb.

**Dynamic HTTP routing table, `routing/pattern_router.go`.** `RoutingTable` is the table as ordered lists of entries
per HTTP method. `PatternTable` is the table the code has: linked lists edited in place, a second map from each target
to raw list elements, and immutable snapshots cloned from it; `LinkedIndex` is that structure as a value. Lists and
links stay mutually inverse, every update refines the ordered table, and a snapshot never changes. `RouteHttp` builds a
target's routes, exactly those its description asks for and in its order, and decides a request over one snapshot: the
first route in list order that does not skip the request decides. Each is tried on the original path components, with
its verb taken off the last one where that ends with it (`RouteHttp.RightVerdict`). While given changes happen before
each route that is tried, the table decides as it was when the snapshot was loaded, and ends up with exactly those
changes.

**Stream forwarder, `grpcadapter/forwarder.go`.** `Forwarder` is `Forward` as a system of interleaved steps over
streams that answer as they please. `ForwarderSafety` and `ForwarderResponses` prove order, delivery, headers and
trailers, one result per channel, clean return, progress, and that few steps follow once the context is done.
`ForwarderOutcome` settles what `Forward` returns: `Noted` records, from the steps alone, how each stream ended and which
result was taken last, and in every run the returned value is the one that follows from it.

**Reflection, `reflection/`.** `Dependencies` closes a set of files under imports: for any server the outcome is settled
by what was asked and answered (`Dependencies.Settled`), and the kept files are closed when it succeeds; against a
server that answers exactly, every round fetches one breadth-first level, the kept
files are exactly the reachable ones, each once, and the limit is reported if and only if some reachable file lies
farther. `PipelinedClient` is the pipelined exchange of requests and responses with its semaphore, `PipelinedOutcome`
settles what it returns in every run, and `ResolveNow` is the wake-up protocol of the poller.

**Service router, `routing/service_router.go` and `internal/syncset`.** `ServiceRoutes` is ownership of services as a
value, `ServiceRouter` the router with its watchers, recording every state that lock-free readers may see.

**Framing, `webbridge/grpcweb.go`.** `Framing` encodes and decodes the "Length-Prefixed-Message" of the "Requests"
section of gRPC's PROTOCOL-HTTP2.

## Where the code and its own words differ

The model follows the code.

- `reflection/resolver.go:414-416` says that duplicates are dropped, but the set of processed names is never written to:
  an answer that holds a file twice gives it twice (`Dependencies.Resolver.FileDescriptors`, `Dependencies.DuplicatesKept`),
  and a retrieval ends without duplicates if and only if it started without and no answer repeats a new name
  (`Dependencies.Resolver.RetrieveDependencies`).
- `routing/service_router.go:180-182` defers to documentation by which an update updates the description, but
  `LoadOrStore` keeps the description stored first for a service that stays (`ServiceRoutes.DescriptionShown`).
- `internal/httprule/gwbased/parse.go:250-252` accepts a "/" token for any punctuation. What this amounts to is that a "/"
  where a segment should start is a wildcard: "//" parses as one, and the two grammars agree on every template without "//"
  and "=/" (`GwStrict.StrictIff`, `GwStrict.StrictOnPlain`, `GwStrict.SlashIsWildcard`).
- `internal/httprule/parse.go:87-98` drops a colon that closes the input (`HttpRuleInverse.ColonsLost`).
- `internal/httprule/parse.go:214-250` takes a NUL in the input for its end marker (`HttpRuleInverse.NulIsRoot`).
- `internal/httprule/trie.go:69-74` looks at the pieces of a multi-colon suffix one by one and forgets the later ones, so
  that templates are returned that do not match (`TrieMisled.UnsafeMisled`) and a template whose verb has a colon is missed
  on its own path (`TrieMisled.LoneMissed`).
- `webbridge/grpcweb.go:241` reads at most four megabytes of a longer message and leaves the rest in the body, where it is
  read as the next header; a message comes out whole if and only if it is not longer (`Framing.FirstFrame`).

## Model

| member | source | states |
|---|---|---|
| Lexing.SplitPath | internal/httprule/tokenize.go:19-46 | the splitting loop cuts the path at exactly the separators of its state |
| Lexing.TokensConcat | internal/httprule/tokenize.go:19-52 | for every input the tokens before the end marker, joined, are the input |
| Lexing.TokensNonEmpty | internal/httprule/tokenize.go:25-46 | for every input no token is empty |
| Lexing.TokensLexed | internal/httprule/tokenize.go:13-46 | every token is a separator of its state or a word without one, and two words never stand side by side |
| PathChars.PCharsAvoid | internal/httprule/gwbased/parse.go:274-331 | a string of pchars holds none of the characters that structure a template |
| GwParser.TakeVerb | internal/httprule/gwbased/parse.go:81-109 | the verb is cut at the first colon behind a variable and at the last colon otherwise |
| GwParser.TokenizePath | internal/httprule/gwbased/parse.go:39-112 | tokens and verb of a path, the end marker last |
| GwParser.ExpectPChars | internal/httprule/gwbased/parse.go:283-331 | the automaton accepts exactly the sequences of pchars of RFC 3986 |
| GwParser.ExpectIdent | internal/httprule/gwbased/parse.go:334-356 | accepts exactly the identifiers |
| GwParser.Parser.Accept | internal/httprule/gwbased/parse.go:247-272 | takes the next token if and only if it fits the term; accepted and remaining tokens stay the token list |
| GwParser.Parser.TopLevelSegments | internal/httprule/gwbased/parse.go:121-134 | succeeds exactly when the grammar derives all tokens, and yields its segments |
| GwParser.Parser.Segments | internal/httprule/gwbased/parse.go:136-153 | the loop yields the segments the grammar derives, never reading past the end marker |
| GwParser.Parser.SegmentM | internal/httprule/gwbased/parse.go:155-179 | one segment, tried as wildcards, literal, variable |
| GwParser.Parser.VariableM | internal/httprule/gwbased/parse.go:181-208 | a variable with its body, "*" when it has none |
| GwParser.Parser.FieldPath | internal/httprule/gwbased/parse.go:210-226 | a dotted path of identifiers |
| GwParser.Parse | internal/httprule/gwbased/parse.go:20-37 | parsing agrees with the grammar on every input, refusals included |
| GwParser.SegmentString | internal/httprule/gwbased/types.go:30-48 | the text of a segment |
| GwParser.SegmentStrings | internal/httprule/gwbased/types.go:42-54 | the texts of segments in order |
| GwParser.TemplateString | internal/httprule/gwbased/types.go:50-60 | the text of a template |
| GwShape.SegmentsShape | internal/httprule/gwbased/parse.go:136-208 | whatever parses has pchar literals other than "*" and "**", identifier paths and non-empty variable-free bodies |
| GwShape.NoVariableInVariable | internal/httprule/gwbased/parse.go:181-208 | no variable starts inside a variable, because the splitter knows no "{" there |
| GwInverse.ParsedShape | internal/httprule/gwbased/parse.go:20-226 | every template that parses is the root or well-shaped |
| GwInverse.PrintThenParse | internal/httprule/gwbased/types.go:42-60 | a well-formed template is given back by parsing its text |
| GwInverse.StructuredVerbLost | internal/httprule/gwbased/parse.go:39-112 | a verb holding "/" or "{" is never read back |
| GwInverse.ColonLiteralLost | internal/httprule/gwbased/parse.go:98-109 | a last literal with a colon does not survive without a verb |
| GwInverse.RoundTripIff | internal/httprule/gwbased/types.go:42-60 | printing and parsing give a template back if and only if it is well-formed |
| GwCompile.CompileSegment | internal/httprule/gwbased/compile.go:45-80 | the operations of a segment |
| GwCompile.CompileSegments | internal/httprule/gwbased/compile.go:66-86 | the operations of segments in order |
| GwCompile.Compile | internal/httprule/gwbased/compile.go:82-121 | opcode and operand pairs encode the operations one by one, constants are pooled in order of first use, fields are the captures |
| GwCompile.Constants | internal/httprule/gwbased/compile.go:93-107 | the pool holds no constant twice |
| GwCompile.RunEncoded | internal/httprule/gwbased/compile.go:82-121 | decoding the pairs through the pool runs exactly like the operations they encode, so every operand is in range |
| GwCompile.CompiledMeaning | internal/httprule/gwbased/compile.go:66-108 | the code reads back as the template if and only if no literal and no field path is empty |
| GwCompile.ParsedCompiles | internal/httprule/gwbased/compile.go:82-121 | the code of every template that parses reads back as its segments, without stack underflow |
| GwCompile.ConcatJoinsOwnPushes | internal/httprule/gwbased/compile.go:66-80 | every concatenation stands where some variable's operations put it, behind one push for each segment of its body and before its capture, and joins exactly these pushes |
| GwCompile.FieldsInOrder | internal/httprule/gwbased/compile.go:109-111 | the fields of a parsed template are its variables' paths in order |
| GwStrict.StrictIff | internal/httprule/gwbased/parse.go:247-256 | for every input the grammar without the leniency for "/" parses the same, or nothing when a "/" stands where a segment should start |
| GwStrict.SegmentsAgree | internal/httprule/gwbased/parse.go:136-179 | on all token lists both grammars consume the same tokens and yield the same segments unless a "/" was taken for one |
| GwStrict.ComponentsAgree | internal/httprule/gwbased/parse.go:210-226 | in a field path the leniency changes nothing |
| GwStrict.StrictOnPlain | internal/httprule/gwbased/parse.go:247-256 | both grammars agree on every template without "//" and "=/" |
| GwStrict.SlashIsWildcard | internal/httprule/gwbased/parse.go:155-162 | "//" and "/{a=/}" parse with a wildcard for the "/", and the strict grammar refuses them |
| GwShorthand.ShortFormParses | internal/httprule/gwbased/parse.go:181-208 | whichever variables with the body "*" are written without it, parsing gives the same segments and verb |
| GwShorthand.ParseWritten | internal/httprule/gwbased/parse.go:181-208 | whatever follows, the tokens of a segment, its body written or not, parse to it |
| GwShorthand.RpcNameParses | bridgedesc/types.go:77-94 | the canonical name of every RPC parses to the literals of its service and its method, so its default binding can be built |
| RoutingTable.OthersUntouched | routing/pattern_router.go:355-387 | an update leaves the other targets' entries and their order alone |
| RoutingTable.UpdatesKeepTable | routing/pattern_router.go:355-401 | no update leaves an empty list or two entries of one target |
| RoutingTable.RemoveUndoesAdd | routing/pattern_router.go:355-401 | removing a target after adding it gives the same table as removing it without the addition |
| RoutingTable.HistoryDetermines | routing/pattern_router.go:355-419 | after any history each list holds exactly the targets whose last update has routes for the method, with those routes, in the order in which each last came to the back |
| LinkedIndex.OnePerTarget | routing/pattern_router.go:334-341 | inverse lists and links hold at most one element per target and list |
| LinkedIndex.RemovedTogether | routing/pattern_router.go:403-409 | taking an element out with its link keeps lists and links inverse and drops just that entry |
| LinkedIndex.ReplacedInPlace | routing/pattern_router.go:370-372 | a new value through the link keeps lists and links inverse and replaces the entry where it stands |
| LinkedIndex.AddedAtBack | routing/pattern_router.go:379-382 | a new linked element keeps lists and links inverse and puts the entry at the back |
| LinkedIndex.AllDone | routing/pattern_router.go:359-386 | once every linked and every new method is handled the table is the updated one |
| PatternTable.CloneLinkedList | routing/pattern_router.go:456-462 | the copy carries the same values in new elements |
| PatternTable.MutableTable.constructor | routing/pattern_router.go:343-352 | the empty table and its empty snapshot |
| PatternTable.MutableTable.RemoveRoute | routing/pattern_router.go:403-409 | exactly this element leaves its list, and an emptied list the table |
| PatternTable.MutableTable.AddRoute | routing/pattern_router.go:411-419 | a new element with the value stands at the back of the method's list |
| PatternTable.MutableTable.Commit | routing/pattern_router.go:421-428 | the snapshot shows the table and consists of new lists and elements |
| PatternTable.MutableTable.CopyLists | routing/pattern_router.go:421-425 | the loop copies every list into new lists and elements that carry the same values |
| PatternTable.MutableTable.SetRoutes | routing/pattern_router.go:371 | the element shows the new value and every other its old one |
| PatternTable.MutableTable.DropLink | routing/pattern_router.go:363-368 | a linked method without routes loses its element, and the others stay as they were |
| PatternTable.MutableTable.KeepLink | routing/pattern_router.go:370-375 | a linked method with routes gets them where its element stands |
| PatternTable.MutableTable.UpdateLink | routing/pattern_router.go:362-376 | one linked method is handled and leaves the pending ones |
| PatternTable.MutableTable.UpdateLinks | routing/pattern_router.go:359-376 | the first loop updates or drops every linked element and keeps the table halfway between old and new |
| PatternTable.MutableTable.AddLinks | routing/pattern_router.go:378-382 | the second loop adds the methods left over |
| PatternTable.MutableTable.AddLink | routing/pattern_router.go:379-382 | one new method gets a linked element at the back |
| PatternTable.MutableTable.UpdateTarget | routing/pattern_router.go:359-384 | both loops together turn the table into the updated one |
| PatternTable.MutableTable.AddTarget | routing/pattern_router.go:355-387 | lists and links stay inverse, the table becomes the ordered table with the target's entries replaced in place, dropped or appended, and the published snapshot shows it |
| PatternTable.MutableTable.RemoveTarget | routing/pattern_router.go:390-401 | lists and links stay inverse, the target's entries are gone, and the published snapshot shows it |
| PatternTable.MutableTable.DropTarget | routing/pattern_router.go:394-398 | every element linked from the target leaves the table, and its links are forgotten |
| RouteHttp.RouteBuilder.AddBinding | routing/pattern_router.go:302-315 | one buildable binding joins the routes of its HTTP method, an unbuildable one changes nothing |
| RouteHttp.BuildPatternRoutes | routing/pattern_router.go:226-266 | each HTTP method gets exactly the buildable bindings declared for it, in order; an RPC that declares none is asked for by its name under POST |
| RouteHttp.RoutesInOrder | routing/pattern_router.go:229-263 | the routes are those of the places of the description that ask for a buildable one, in the order of service, RPC and binding, and no place is missing |
| RouteHttp.OneOrder | routing/pattern_router.go:229-263 | only one list of routes is that |
| RouteHttp.BuildService | routing/pattern_router.go:229-263 | the routes of one service join those before it |
| RouteHttp.BuildRpc | routing/pattern_router.go:232-262 | the routes of one RPC join those before it, the default one when it declares no binding |
| RouteHttp.TryRoute | routing/pattern_router.go:97-145 | a last component p:verb, p not empty, is matched as p with the verb; the verb alone is not found; anything else is matched whole without a verb; each match result gives its own answer, whatever the reused buffer held |
| RouteHttp.VerdictIsRight | routing/pattern_router.go:105-140 | what a route says is the verdict so written out, for all components and all matchers |
| RouteHttp.OneVerdict | routing/pattern_router.go:105-140 | there is one such verdict |
| RouteHttp.TryEntry | routing/pattern_router.go:446-453 | the routes of one element are tried in order until one decides |
| RouteHttp.Decide | routing/pattern_router.go:440-454 | the iteration is decided by the first route of the list that does not skip |
| RouteHttp.RouteHTTP | routing/pattern_router.go:76-160 | a path without a leading slash is invalid; else the answer is the verdict, written out, of the first route of one snapshot that does not skip, not found when all skip, unavailable when its target has no connection |
| RouteHttp.FirstDecidesOnce | routing/pattern_router.go:96-152 | the first deciding route determines the answer uniquely |
| RouteHttp.FirstWrittenOut | routing/pattern_router.go:96-152 | the first deciding route decides by the verdict written out, and those before it skip by it |
| RouteHttp.ApplyChange | routing/pattern_router.go:355-401 | a change leaves every snapshot handed out before as it was |
| RouteHttp.Replay | routing/pattern_router.go:355-432 | whatever changes follow, a snapshot shows the table of its commit |
| RouteHttp.SlotsAreCandidates | routing/pattern_router.go:446-453 | the candidates are the routes at their places in the list, element by element in order |
| RouteHttp.TryEntryAmid | routing/pattern_router.go:446-453 | the routes of one element are tried in order until one decides; the given changes before each tried one, and no others, are in the table then |
| RouteHttp.DecideAmid | routing/pattern_router.go:431-454 | the route tried last is the first of the loaded snapshot that does not skip, or all skip; the given changes before each tried route, and no others, are in the table then |
| RouteHttp.RouteAmidChanges | routing/pattern_router.go:76-160 | while the table changes the request is decided, by verdicts written out, by the table of the history as it was when the snapshot was loaded, and the table ends up with exactly the given changes before the routes up to the deciding one |
| ForwarderResponses.InvRun | grpcadapter/forwarder.go:71-308 | every interleaving keeps the invariants of callers, channels, requests and responses |
| ForwarderSafety.MainStep | grpcadapter/forwarder.go:71-155 | every step keeps what is known about the calling goroutine |
| ForwarderSafety.ChannelStep | grpcadapter/forwarder.go:87-153 | every step keeps what is known about the two channels |
| ForwarderSafety.RequestStep | grpcadapter/forwarder.go:184-224 | every step keeps the order of requests |
| ForwarderResponses.ResponseStep | grpcadapter/forwarder.go:226-308 | every step keeps the order of headers, responses and trailers |
| ForwarderResponses.RequestsInOrder | grpcadapter/forwarder.go:129-145 | sent requests are a prefix of the received ones with at most one in flight; CloseSend after EOF comes when all are sent, and no Send follows it |
| ForwarderResponses.ResponsesInOrder | grpcadapter/forwarder.go:226-260 | headers once and first, responses in order with at most one in flight, trailers at most once and last |
| ForwarderResponses.UnaryResponse | grpcadapter/forwarder.go:265-308 | a unary response is sent at most once, after its status or a second message came; trailers are skipped exactly after a second message |
| ForwarderResponses.NilMeansDelivered | grpcadapter/forwarder.go:146-153 | a nil result means that every response up to the server's EOF was delivered, or the one response of a unary call |
| ForwarderResponses.ResultsHandedOverOnce | grpcadapter/forwarder.go:125-153 | both channels have room for their one result, the request side reports exactly one error, and at most two results are taken |
| ForwarderResponses.CleanReturn | grpcadapter/forwarder.go:76-115 | waiting starts after cancel and Close, and on return no goroutine runs and an opened stream is closed |
| ForwarderResponses.NeverStuck | grpcadapter/forwarder.go:125-155 | until Forward returns some goroutine can always move |
| ForwarderResponses.FewStepsLeft | grpcadapter/forwarder.go:67-70 | once the context is done, with streams that honour it, only a bounded number of steps follows |
| ForwarderOutcome.ReturnsVerdict | grpcadapter/forwarder.go:71-155 | in every run what Forward returns follows from how the streams and the context answered: an early failure to receive, open or send, the error of the side whose result was taken last, the status for a done context, or nil |
| ForwarderOutcome.NilExactly | grpcadapter/forwarder.go:146-153 | a call with streamed responses whose response side decides returns nil if and only if the server ended with EOF and every message was delivered |
| ForwarderOutcome.ServerToldOfEnd | grpcadapter/forwarder.go:129-145 | once the request side's EOF was taken, or the unary request went out, CloseSend has been called |
| HttpRuleParser.CheckIdent | internal/httprule/parse.go:253-275 | accepts exactly the identifiers and the empty string |
| HttpRuleParser.CheckLiteral | internal/httprule/parse.go:278-290 | accepts exactly the sequences of pchars |
| HttpRuleParser.ConsumePchar | internal/httprule/parse.go:296-328 | takes one pchar off the front, so that the rest decides the whole |
| HttpRuleParser.Parser.Accept | internal/httprule/parse.go:214-250 | takes the next token if and only if it fits; accepted and left tokens stay the token list |
| HttpRuleParser.Parser.ParseTemplate | internal/httprule/parse.go:74-105 | agrees with the grammar, the verb taken off the last literal or the token behind a variable |
| HttpRuleParser.Parser.Segments | internal/httprule/parse.go:111-135 | the loop stops behind "**" and yields the segments the grammar derives |
| HttpRuleParser.Parser.SegmentM | internal/httprule/parse.go:137-156 | one segment, tried as wildcards, literal, variable |
| HttpRuleParser.Parser.VariableM | internal/httprule/parse.go:158-188 | a variable with its body, "*" when it has none |
| HttpRuleParser.Parser.FieldPath | internal/httprule/parse.go:190-212 | a dotted path of identifiers |
| HttpRuleParser.Parse | internal/httprule/parse.go:48-67 | parsing agrees with the grammar on every input, refusals included |
| HttpRuleSound.ExpandedSame | internal/httprule/tokenize.go:19-52 | writing `{path}` as `{path=*}` in the text is the same as writing it in the tokens |
| HttpRuleSound.NameOver | internal/httprule/parse.go:253-254 | a name token the parser accepts in a field path is a non-empty identifier, although the check does not refuse the empty one |
| HttpRuleSound.NoVariableInVariable | internal/httprule/parse.go:171-175 | no variable starts inside a variable |
| HttpRuleSound.SegmentsSound | internal/httprule/parse.go:111-188 | what is parsed renders as the tokens consumed, has variable-free bodies, and has "**" at its end only |
| HttpRuleSound.SegmentSound | internal/httprule/parse.go:137-156 | a parsed segment renders as the tokens it consumed |
| HttpRuleSound.VariableSound | internal/httprule/parse.go:158-188 | a parsed variable renders as the tokens it consumed, with its body written out |
| HttpRuleSound.PathSound | internal/httprule/parse.go:190-212 | a parsed field path is dotted identifiers and renders as its tokens |
| HttpRuleShape.ParsedSegments | internal/httprule/parse.go:74-188 | for every input literals and verb of a parsed template hold pchars only, more than one component is taken at its very end only, and a verb with a colon stands behind a variable |
| HttpRuleInverse.ExpandedEnd | internal/httprule/tokenize.go:19-52 | writing `{path}` as `{path=*}` changes nothing behind the last "/" or "}" |
| HttpRuleInverse.SameEnd | internal/httprule/parse.go:74-105 | behind its last "/" or "}" the input has just the last literal and the verb, with its colon even when the verb is empty |
| HttpRuleInverse.DroppedIff | internal/httprule/parse.go:84-98 | a closing colon is dropped if and only if the input ends with one that stands behind a literal, or alone behind a variable |
| HttpRuleInverse.RenderedUpToColon | internal/httprule/parse.go:48-212 | a parsed template, with the dropped closing colon put back, renders as its input if and only if the input has no NUL |
| HttpRuleInverse.RenderedIff | internal/httprule/parse.go:48-212 | every input that parses renders as itself if and only if it has no NUL, no closing colon behind a literal and none alone behind a variable |
| HttpRuleInverse.NulIsRoot | internal/httprule/parse.go:74-77 | the input of a slash and a NUL parses to the root template and renders as the slash |
| HttpRuleInverse.ColonsLost | internal/httprule/parse.go:84-98 | "/a:" and "/{a}:" parse and render without their colon |
| HttpRuleMade.LiteralDecoyParses | internal/httprule/parse.go:48-105 | wildcards, then a literal of pchars, a colon and a colon-free verb of pchars parse as that template |
| HttpRuleMade.VariableDecoyParses | internal/httprule/parse.go:48-105 | wildcards, then a variable holding any literal, and any verb of pchars parse as that template |
| HttpRuleMade.AnyPathParses | internal/httprule/parse.go:48-135 | "/**" parses as one multi-wildcard |
| HttpRuleExpanded.SpreadTokens | internal/httprule/tokenize.go:19-46 | splitting the input with `{path}` written `{path=*}` splits it like the input, with two tokens more before each such "}" |
| HttpRuleExpanded.SegmentsSpread | internal/httprule/parse.go:111-188 | on all token lists these two tokens change nothing in what is parsed, refusals included |
| HttpRuleExpanded.ExpandedParses | internal/httprule/parse.go:48-212 | every input parses like the input with `{path}` written `{path=*}`, or neither does |
| HttpRuleExact.PrintedParses | internal/httprule/parse.go:48-212 | every well-made template is what its text parses to |
| HttpRuleExact.ParsedWellMade | internal/httprule/parse.go:48-212 | what parses is well made, and its text is the expanded input |
| HttpRuleExact.ParsedIff | internal/httprule/parse.go:48-212 | an input parses to given segments and verb and has no NUL if and only if they are well made and, printed, are the input with `{path}` written `{path=*}` |
| TrieModel.AncestorsArePrefixes | internal/httprule/trie.go:22-34 | the nodes on the way to a template are those of the prefixes of its path |
| TrieModel.HistoryDetermines | internal/httprule/trie.go:22-34 | after any additions each place holds the template added there last, and there is a node for each prefix of an added path only |
| TrieIndex.Node.AddLiteral | internal/httprule/trie.go:140-150 | leads to the node behind the literal, a new empty one only when there was none |
| TrieIndex.Node.AddWildcard | internal/httprule/trie.go:152-158 | leads to the node behind the wildcard, a new empty one only when there was none |
| TrieIndex.Node.AddMultiWildcard | internal/httprule/trie.go:160-166 | leads to the node behind "**", a new empty one only when there was none |
| TrieIndex.Node.AddVerb | internal/httprule/trie.go:169-181 | the template is on the node itself, or on a new leaf under its verb |
| TrieIndex.Grown | internal/httprule/trie.go:140-166 | a new node behind a new edge keeps the nodes a tree indexed by their paths |
| TrieIndex.Rooted | internal/httprule/trie.go:23-25 | a new root keeps the nodes a tree |
| TrieIndex.EntriesGrown | internal/httprule/trie.go:140-166 | a new node brings no template and disturbs none |
| TrieIndex.EntriesOnNode | internal/httprule/trie.go:169-173 | a template put on a node changes the entry of that place and no other |
| TrieIndex.EntriesOnLeaf | internal/httprule/trie.go:175-180 | a template put on a new leaf changes the entry of that place and no other, and leaves stay unshared |
| Trie.Trie.Root | internal/httprule/trie.go:23-27 | the root of the method, new when there was none |
| Trie.Trie.AddSegment | internal/httprule/trie.go:115-128 | leads along the flattened segment, adding nodes on the way only and moving no template |
| Trie.Trie.AddVariable | internal/httprule/trie.go:130-138 | a variable leads where its body leads |
| Trie.Trie.PutTemplate | internal/httprule/trie.go:169-181 | the template is the entry of its place, and all others stay |
| Trie.Trie.Add | internal/httprule/trie.go:22-34 | the nodes stay a tree, and the trie shows the old map with the template added at its place |
| Trie.Trie.DfsLeaf | internal/httprule/trie.go:89-102 | finds the node's own template, else one under a verb that ends the path; nothing only when there is none |
| Trie.Trie.DfsVerb | internal/httprule/trie.go:68-75 | the verb loop finds what its specification finds on the view |
| Trie.Trie.Dfs | internal/httprule/trie.go:48-87 | terminates on every path and returns what the search order literal, verb, wildcard, "**" allows, nothing only when it allows nothing |
| Trie.Trie.Find | internal/httprule/trie.go:37-46 | the linked trie finds what its search order allows; where no template sits at a misleading place that is a template of the method that matches and is not blocked, and none only when each that matches is blocked |
| Trie.Build | internal/httprule/trie.go:14-34 | a trie filled template by template shows the value that its history determines |
| TrieFind.VerbHitShape | internal/httprule/trie.go:66-75 | a hit of the verb loop takes as verb one piece between two colons or behind the last |
| TrieFind.LeafSound | internal/httprule/trie.go:89-102 | a template found at a leaf matches the whole path |
| TrieFind.WithoutVerb | internal/httprule/trie.go:94-99 | edges that match a path and do not end in its last component still match with the verb taken off |
| TrieFind.DfsSound | internal/httprule/trie.go:48-87 | whatever dfs returns matches the whole path, where no template sits at a place that the last component makes misleading |
| TrieFind.FindSound | internal/httprule/trie.go:37-102 | whatever Find returns is a template of that method that matches, where no template sits at a place that the last component makes misleading |
| TrieFound.HitIffTaken | internal/httprule/trie.go:66-75 | the verb loop hits exactly the template whose literal precedes and whose verb follows the last colon |
| TrieFound.FoundLeads | internal/httprule/trie.go:48-87 | whatever dfs returns matches the path, and no edge, no verb and no other template of its node came before it |
| TrieFound.LeadsFound | internal/httprule/trie.go:48-102 | every template that matches the path and is not blocked may be returned |
| TrieFound.FoundIff | internal/httprule/trie.go:37-102 | where no template sits at a misleading place, Find may return a template if and only if it matches under the method and is not blocked: no literal or wildcard edge goes before its own, no literal with a verb takes the last component from its wildcard, behind a literal its verb has no colon, and behind a wildcard its node has no template without a verb |
| TrieParsed.ParsedShape | internal/httprule/parse.go:74-188 | for every input a parsed template has no variable inside a variable, "**" only as its last flattened segment, and only pchars in its literals and its verb |
| TrieParsed.ParsedIsClear | internal/httprule/trie.go:22-34 | templates from Parse leave Find nothing to go astray on for a safe component when no literal has a colon, and for an always safe one in any case |
| TrieParsed.FoundWasAdded | internal/httprule/trie.go:37-102 | whatever Find returns for a safe path was added under that method and matches the whole path under its flattened segments and verb |
| TrieParsed.FoundExactly | internal/httprule/trie.go:37-102 | over any history of parsed templates, for a safe path Find may return a template if and only if it matches and is not blocked |
| TrieParsed.FindAdded | internal/httprule/trie.go:37-102 | Find in the linked trie of parsed templates returns for a safe path a template added under the method that matches and is not blocked, and none only when each that matches is blocked |
| TrieMisled.DecoyHit | internal/httprule/trie.go:66-75 | the verb loop goes past the other pieces of a component and takes the one piece that is a template's verb |
| TrieMisled.UnsafeMisled | internal/httprule/trie.go:66-75 | for every path whose last component is not safe one template that Parse makes, without a colon in its literals, is returned without matching |
| TrieMisled.MisledIff | internal/httprule/trie.go:37-102 | some history of parsed templates without colons in their literals makes Find return one that does not match if and only if the last component is not safe |
| TrieMisled.MisledByAnyIff | internal/httprule/trie.go:37-102 | some history of parsed templates makes Find return one that does not match if and only if the last component is not always safe |
| TrieMisled.ColonLiteralMisleads | internal/httprule/trie.go:61-64 | the parsed template whose last literal is x:v and whose verb is v is returned without matching for every path that ends in x:v, safe though it is |
| TrieMisled.LoneFoundIff | internal/httprule/trie.go:66-75 | a parsed template alone in the trie is found on a safe path that it matches by its last literal and its verb if and only if the verb has no colon |
| TrieMisled.LoneMissed | internal/httprule/trie.go:69-74 | the parsed "/{a=b}::y", and each like it, is not found on its own path, although it is alone, the path is safe and no literal has a colon |
| TrieMisled.AlwaysMissed | internal/httprule/trie.go:48-87 | for every method and path two parsed templates, "/**" and one of more wildcards than the path has components, make Find find nothing although "/**" matches |
| TrieMisled.NeverBacktracks | internal/httprule/trie.go:48-87 | an instance of a blocked template: with the parsed "/a:w" and "/*/c:v" nothing is found for "/a/c:v", although the second matches it |
| Dependencies.UpdatePresent | reflection/util.go:43-47 | adds exactly the names of the files |
| Dependencies.GrowMissing | reflection/util.go:50-58 | adds exactly the imports that are not present |
| Dependencies.ShrinkMissing | reflection/util.go:61-65 | removes exactly the names of the files |
| Dependencies.Resolver.FileDescriptors | reflection/resolver.go:393-424 | all files of the answer in order, each beside its own bytes, refused when one does not parse; their names are distinct if and only if no two blobs of the answer decode to one name |
| Dependencies.Collected.KeepNew | reflection/resolver.go:367-374 | keeps the files not present before the round, each beside its own bytes |
| Dependencies.Resolver.Round | reflection/resolver.go:356-384 | asks for exactly the missing files; fails if and only if there is no answer or one does not parse, reports exactly the names asked for and not answered, and else leaves the unknown imports of the new files missing; moves a run against an exact server one breadth-first level on without a duplicate |
| Dependencies.Resolver.RetrieveDependencies | reflection/resolver.go:347-391 | for any server each outcome holds if and only if what was asked and answered gives it, with only services asked for too; the old files stay an unchanged prefix, bundles stay aligned, nil means closed under imports; the files end up distinct if and only if they were and no answer repeats a new name; a run against an exact server fetches one level a round up to the first empty level or the limit |
| Dependencies.RoundAccounted | reflection/resolver.go:366-384 | after every round each import is present or missing, for any server |
| Dependencies.NextLevel | reflection/resolver.go:366-384 | a batch with exactly the missing files leaves exactly the next level missing |
| Dependencies.LevelsDecide | reflection/resolver.go:354-391 | some reachable file lies beyond the limit if and only if the level at the limit is not empty |
| Dependencies.ExactOutcome | reflection/resolver.go:354-391 | the limit is reported if and only if some reachable file lies farther; otherwise exactly the reachable files are kept, each as the server has it and each once |
| Dependencies.KeptDistinct | reflection/resolver.go:366-374 | a round adds no second file of a name if and only if its answer names no file twice that was not present |
| Dependencies.GatheredDistinct | reflection/resolver.go:354-387 | over any sequence of answers no file is there twice if and only if none was before and no answer repeats a new name |
| Dependencies.DecodedDistinct | reflection/resolver.go:404-421 | the files of an answer have distinct names if and only if no two of its blobs decode to one name |
| Dependencies.DuplicatesKept | reflection/resolver.go:404-421 | an answer of one blob twice decodes to its file twice, and both are kept |
| PipelinedClient.InvRun | reflection/client.go:125-217 | every interleaving keeps the invariants of requester, receiver and caller |
| PipelinedClient.AwaitedWereSent | reflection/client.go:176-217 | requests go out in order, awaited responses never exceed sent requests, and the semaphore always has room |
| PipelinedClient.NilMeansAll | reflection/client.go:159-173 | a nil error means that every request was sent and the result is the in-order concatenation of all responses |
| PipelinedClient.BothNilMeansAll | reflection/client.go:159-173 | the call returns the responses if and only if both results taken were nil; an error it returns is one of theirs |
| PipelinedOutcome.ReturnsVerdict | reflection/client.go:125-217 | in every run what the call returns follows from how its sends, its receives and its context answered |
| PipelinedOutcome.ErrorsAreTheirs | reflection/client.go:125-217 | it returns all responses if and only if neither side failed, and an error is that of a side that failed, of the only one if the other did not |
| PipelinedClient.NoneOutlives | reflection/client.go:135-142 | neither goroutine outlives the call, and both are cancelled before it waits |
| PipelinedClient.NeverStuck | reflection/client.go:125-217 | until the call returns some side can always move |
| PipelinedClient.CallEnds | reflection/client.go:125-217 | every run takes at most four steps a request and eleven more |
| ResolveNow.InvRun | reflection/resolver.go:164-215 | every interleaving of poller and callers keeps channels and functions paired |
| ResolveNow.ClosedOnce | reflection/resolver.go:207-215 | no channel is closed twice, although the functions read the field only when called |
| ResolveNow.NoRequestLost | reflection/resolver.go:164-194 | a request since the last resolve() closed the current channel, is held before the current function fired, or is being answered |
| ResolveNow.RequestServed | reflection/resolver.go:164-215 | with a request outstanding at most seven steps lead to the next resolve(), even if the interval never ends |
| ServiceRoutes.UpdatedAgrees | routing/service_router.go:218-258 | an update keeps routes and service lists in agreement |
| ServiceRoutes.RemovedAgrees | routing/service_router.go:260-271 | a removal keeps routes and service lists in agreement |
| ServiceRoutes.OwnersDisjoint | routing/service_router.go:55-58 | no two targets own the same service |
| ServiceRoutes.HistoryAgrees | routing/service_router.go:218-271 | after any history a service is routed to a target if and only if that target's list holds it |
| ServiceRoutes.OnlyOwnerGivesUp | routing/service_router.go:230-256 | a service leaves its owner if and only if the owner itself gives it up, and else keeps the description stored first |
| ServiceRoutes.NeverStolen | routing/service_router.go:218-271 | over any run a service stays with its owner until the owner gives it up |
| ServiceRoutes.FreeIsTaken | routing/service_router.go:230-233 | an unrouted service goes to the first update that lists it |
| ServiceRoutes.DescriptionShown | routing/service_router.go:230-246 | after an update a service shows the new description if and only if it was unrouted or showed it before |
| ServiceRoutes.ParsedRpcName | routing/service_router.go:273-281 | exactly the names of the form service "/" method, with or without a leading slash, are taken apart |
| ServiceRouter.SyncSet.Add | internal/syncset/syncset.go:21-31 | adds the key and tells whether it was new |
| ServiceRouter.SyncSet.Remove | internal/syncset/syncset.go:34-44 | removes the key and tells whether it was there |
| ServiceRouter.ServiceRouter.constructor | routing/service_router.go:62-71 | nothing is routed or watched |
| ServiceRouter.ServiceRouter.LoadOrStore | routing/service_router.go:230-232 | a value already stored stays and is returned |
| ServiceRouter.ServiceRouter.Delete | routing/service_router.go:252 | exactly this service is unrouted |
| ServiceRouter.ServiceRouter.UpdateRoutes | routing/service_router.go:218-258 | the table becomes the updated one, and no state in between unroutes a kept service or touches a foreign one |
| ServiceRouter.ServiceRouter.RemoveTarget | routing/service_router.go:260-271 | the target's services go one by one and no other changes at any moment |
| ServiceRouter.ServiceRouter.RouteRpc | routing/service_router.go:81-111 | a call is routed by its service name alone, refused when malformed, unknown or without connection |
| ServiceRouter.ServiceRouter.Watch | routing/service_router.go:164-170 | a watcher for a target that has none, and an error otherwise |
| ServiceRouter.ServiceRouterWatcher.UpdateDesc | routing/service_router.go:183-194 | updates of other targets and through closed watchers change nothing |
| ServiceRouter.ServiceRouterWatcher.Close | routing/service_router.go:204-211 | the target owns nothing afterwards and can be watched again; a second call panics and changes nothing |
| Framing.BigEndianInverse | webbridge/grpcweb.go:430 | writing and reading a 32-bit length are inverse in both directions |
| Framing.PutUint32 | webbridge/grpcweb.go:430 | four bytes of the buffer become the length, the others stay |
| Framing.LpmMessage | webbridge/grpcweb.go:423-433 | one zero byte, the length modulo 2^32, the payload |
| Framing.Body.ReadFull | webbridge/grpcweb.go:229-243 | fills the buffer from the front of the body, or reports a clean end, a short one, or a broken connection |
| Framing.GrpcWebStream.Recv | webbridge/grpcweb.go:226-253 | one message that parses off the body, or a header, body or message error, and the bytes left; the end if and only if nothing is left of a body that does not break |
| Framing.FirstFrame | webbridge/grpcweb.go:237-250 | the first message comes out whole, or as a message error when it does not parse, with the rest left, if and only if it has at most 2^22 bytes |
| Framing.BadFrame | webbridge/grpcweb.go:247-250 | a message of 1 to 2^22 bytes gives a message error with the rest left if and only if it does not parse |
| Framing.EndIff | webbridge/grpcweb.go:229-235 | the end of the stream is reported if and only if nothing is left and the body does not break |
| Framing.StreamRoundTrip | webbridge/grpcweb.go:226-253 | frames decode to their payloads and then the end, or up to the first that does not parse; of payloads that parse, if and only if none exceeds 2^22 bytes |
| Framing.EndsBetweenMessages | webbridge/grpcweb.go:226-253 | a stream of messages cut or broken after any number of bytes gives exactly the payloads that came whole, up to the first that does not parse, and then the end if and only if it was cut between two messages, all parsed, and did not break; else an error |

## Left out

- Error texts and log lines: an error is a constructor or None, without its wording.
- `runtime.NewPattern` and `MatchAndEscape` of grpc-gateway: patterns come from a build parameter and a match is an arbitrary function that may overwrite the buffer it is given.
- `container/list`: a list is a field holding the sequence of its elements, whose values change in place; its prev and next pointers are not modelled.
- Protobuf marshalling, unmarshalling and descriptors: messages are byte strings or numbers, and parsing is a parameter.
- Mutexes, atomic pointers and the memory model: operations under one mutex are single calls; the forwarder, the pipelined client, the wake-up protocol and lock-free readers of the service router are interleaved step by step.
- Overlapping UpdateDesc and Close on one watcher: the closed flag is read before the table's lock, so that an update may land after Close; calls on one watcher are taken to follow one another.
- Trie.Trie.Find: on a path whose last component lets templates mislead the search, what it returns is promised by its search order alone (`TrieModel`); elsewhere it is settled exactly (`TrieFound.FoundIff`).
- TrieFind.DfsSound: soundness is stated where no template sits at a misleading place; for parsed templates that is a condition on the last path component, which is exact (`TrieMisled.MisledIff`, `TrieMisled.MisledByAnyIff`).
- `PatternRouterWatcher`: the same life cycle as the service router's watchers.
- `ServiceRouter.RouteHTTP`: RouteGRPC with other status codes.
- decodeTimeout, metadata filtering, hashing of descriptors, reordering of reflection methods, connection pool and connections, option defaults: tables, plumbing or library behaviour.
- HTTP and WebSocket handlers, JSON transcoding, query parameters, server-sent events, configuration, generated code: input and output.
- Real time: timeouts and deadlines are steps or answers that may come at any moment.
