# A verified model of the web server's parsers, cache and routing

The server reads an nginx-style configuration, collects requests from a socket, parses them one
character at a time, chooses a handler by URI prefix, and, in its proxy handler, answers from a
response cache or from an upstream server. This project models those parts in Dafny, without the
sockets, and proves what they promise for every input and every run.

- **Configuration** (`ConfigTree`, `ConfigLexer`, `ConfigParser`, `ConfigTheorems`, `ConfigEndings`,
  `ConfigCharacters`): the printer, the five-state scanner with its one-character pushback, and the
  stack-driven parser. A text is accepted with tree `c` if and only if `c` is well formed and the
  text's tokens, comments aside, are the tokens of `c`. Printing and parsing are inverse exactly on
  well-formed trees, every accepted tree is one, and the blocks collected at closing braces are the
  tree's blocks in post-order.
- **Block set-up** (`ConfigBlocks`, `BlockAgreement`, `BlockLayouts`, `BlockHandlers`):
  `port::setConfigBlocks` scans the file a second time for headers and pairs them with parsed blocks
  by position. On every layout of a flat config each header gets its own block if and only if two
  things hold: every empty block of a handler outside the six listed ones is directly followed by a
  plain statement, and no comment stands between `location` and the handler type or, for an unlisted
  handler, between that and the brace.
- **Requests** (`RequestSyntax`, `RequestMachine`, `RequestTheorems`, `RequestVerdicts`,
  `FoldedFields`, `RequestParser`, `UrlPath`): the 21-state request parser as an object, kept in
  step with a machine over structured partial messages. A fresh parser accepts after exactly `n`
  characters if and only if those are the serialisation of a well-formed message, and reports that
  message; it waits exactly while the text can still become a message and gives up at the first
  character after which it cannot. The split is unique, chunking makes no difference, pipelined
  requests come out in order, and the derived path agrees with the other URL decoder.
- **Proxy** (`ProxyCache`, `Directives`, `LinkRewriter`): the cache over every history of requests
  from the empty cache, the Cache-Control parser against a fold over the comma split, and the link
  rewriter against a positional definition, with the exact condition under which it is injective.
- **Lookup and sessions** (`StaticFiles`, `Routing`, `Session`, `Intake`, `HandOffs`, `Service`,
  `Slashes`): longest-prefix searches over maps that lookups themselves grow, the accumulation of
  reads into requests, and the parser all sessions share, which carries what one text leaves
  unfinished into the next. The parts are put together for every run of reads of any number of
  sessions: which leftovers a routed request can notice, and which handlers must be registered so
  that no null handler is called.

How the source is rendered. Objects whose methods update fields are classes; their methods are proved
against functions, and the theorems are about those functions. Text is `string`, one `char` per byte;
codes above 127 stand for the negative values of a signed `char`. A C++ exception is `None`. Where the
source has no defined behaviour or loops forever the model has an explicit outcome: `Broken` and
`NoMeaning` for indexing an empty path, `Hangs` and `NeverReturns` for a token loop at the end of the
file, `OutOfRange` for an assignment past the end of a vector, `NullDereference` for a call through a
null handler. The clock, the upstream answer, file contents and the regular expressions are
parameters. A hex escape is read as the GNU standard library reads it.

Where the source departs from its own documentation the code is followed:

- `include/config_parser.h` says `Parse` returns true iff the config is valid; a valid config followed
  by one unfinished bare token is accepted and the token dropped (`UnfinishedTokenIsDropped`). With a
  line break after it, a text is accepted exactly when it is accepted without one and does not end in
  such a token (`NothingDroppedIff`).
- `min-fresh` replaces the verdict of the other limits and grows easier to meet with age, and the
  staleness is cut down to an `int` (`NeverReturnsIff`); `no-store` on a cached page stores the new
  answer (`NoStoreOutcome`).
- Folded header lines are joined with nothing between them, where section 2.2 of RFC 2616 has a
  single space. Character by character, a field has its RFC value exactly when it is not folded
  (`ValueIsRfcIff`); as a list of words, exactly when every continuation with text follows a value that
  is empty or ends in a blank (`WordsAreRfcIff`). A Content-Length folded between its digits announces
  a longer body (`FoldedLengthGrows`).
- A comment inside a block header, which the parser allows, makes the set-up fail
  (`CommentInHeaderFails`).
- `reset(request_)` clears the request object but not the shared parser. A text that leaves more than a
  method name in it changes how the next checked request is routed, and one that leaves a method name
  only does not (`LeftoverGarblesUri`, `RoutesAlikeIffClear`, `RoutedByOwnUriIff`).
- A handler for `/` is described as the one for undefined paths; without it a request that matches
  nothing makes a later request for `/` call a null handler (`RunsSafeIffRoot`, `ReadsSafeIff`).

## Model

| member | source | states |
|---|---|---|
| ConfigTree.StatementToString | src/config_parser.cc:28-51 | the append loops produce the recursive printed form of a statement |
| ConfigTree.ConfigToString | src/config_parser.cc:20-26 | the append loop produces the printed form of a config |
| ConfigLexer.ParseToken | src/config_parser.cc:67-147 | the scanning loop returns the next token of the remaining input and leaves exactly the rest, the ending character of a bare token pushed back |
| ConfigLexer.GetToken | src/config_parser.cc:280-284 | the value of the next token; the input moves past it |
| ConfigLexer.ScanProper | src/config_parser.cc:76-146 | every token a scan yields has a value possible for its kind: normal tokens are lexable, punctuation is itself, an end-of-file token may carry an unfinished token or comment |
| ConfigLexer.LexAllDelivered | src/config_parser.cc:67-147 | of all tokens of a text only the last is an end or an error |
| ConfigLexer.NextTokenPrinted | src/config_parser.cc:89-136 | a lexable token followed by an ending character is scanned as itself |
| ConfigLexer.LexStatements | src/config_parser.cc:20-51 | printed well-formed statements, at any depth and before any text, scan to the flattening of the tree |
| ConfigParser.NginxConfigParser.HandleToken | src/config_parser.cc:161-256 | one loop iteration is one step of the reference machine; braces and configs on the stacks stay matched, and the checks at 224-227 and 248-249 are dead |
| ConfigParser.NginxConfigParser.Parse | src/config_parser.cc:149-263 | result, tree and collected blocks are those of the run over all tokens; at every loop head the stacks match and the last statement is open after a normal token |
| ConfigTheorems.StepKeeps | src/config_parser.cc:176-230 | every step that goes on extends the record of tokens read by its token, keeps the collected blocks in post-order and the trees well formed |
| ConfigTheorems.RunSound | src/config_parser.cc:157-257 | an accepting run read exactly the tokens of the tree it returns |
| ConfigTheorems.RunStatements | src/config_parser.cc:184-230 | from any state ready for a statement, the tokens of well-formed statements add those statements and their blocks in post-order |
| ConfigTheorems.ParseIffGrammar | src/config_parser.cc:149-263 | a text is accepted with tree c if and only if c is well formed and the text's tokens without comments are the tokens of c up to the end of file |
| ConfigTheorems.RoundTrip | src/config_parser.cc:20-51 | parsing the printed form at any depth gives back the tree if and only if the tree is well formed |
| ConfigTheorems.NormalForm | src/config_parser.cc:149-263 | the tree of any accepted text is well formed, and printing and reparsing reproduces it |
| ConfigTheorems.CollectedBlocks | src/config_parser.cc:205-230 | after any accepted parse the collected blocks are all blocks of the final tree in post-order |
| ConfigTheorems.UnfinishedTokenIsDropped | src/config_parser.cc:140-146 | a valid config followed by an unfinished bare token is accepted without it |
| ConfigEndings.LayoutWithBreak | src/config_parser.cc:67-147 | a text with a line break after it is a layout of a config exactly when the text is one and does not end inside a bare token |
| ConfigEndings.NothingDroppedIff | include/config_parser.h:32-33 | with a line break after it a text is accepted if and only if it is accepted without one and does not end inside a bare token, and the tree is the same |
| ConfigCharacters.BlanksAreSkipped | src/config_parser.cc:100-104 | any run of spaces, tabs, carriage returns and line feeds before a token is skipped |
| ConfigCharacters.WordIsToken | src/config_parser.cc:128-136 | a bare word is one token before a space, a tab, a line feed, a semicolon or a brace, each named |
| ConfigCharacters.CommentIsToken | src/config_parser.cc:122-127 | a comment runs to the next line feed or carriage return |
| ConfigCharacters.QuotedIsToken | src/config_parser.cc:110-121 | a text in either kind of quotes is one token up to its closing quote, whatever is in it |
| ConfigCharacters.OpenQuoteFails | src/config_parser.cc:140-146 | a text that ends inside quotes ends in an error token |
| ConfigCharacters.PrintedLines | src/config_parser.cc:28-51 | the exact lines a statement and a block print as |
| ConfigCharacters.CrlfLines | src/config_parser.cc:76-146 | statements, opening and closing lines with CRLF ends read as with plain ones |
| ConfigTheorems.ParseAppends | src/config_parser.cc:149-263 | into any config and with any parser a text is accepted exactly when it is accepted alone, and its statements and blocks are added after the earlier ones |
| ConfigBlocks.SkipTo | src/port.cc:172-173 | the inner loop ends just after the awaited token, or never, in which case no remaining token is the awaited one |
| ConfigBlocks.Port.ReadHeader | src/port.cc:157-189 | after `location` and a prefix, the handler type is read, the header recorded and the body skipped as the reference scan does |
| ConfigBlocks.Port.ScanHeaders | src/port.cc:150-193 | the nested loops append exactly the headers of the token-by-token scan, or never end |
| ConfigBlocks.Port.AssignContents | src/port.cc:198-203 | the i-th block becomes the i-th header's content; it fails exactly when there are more blocks than headers |
| ConfigBlocks.Port.SetConfigBlocks | src/port.cc:141-207 | the outcome is that of the parser's blocks paired with the scan's headers, and the config is left with the tree of the parse |
| BlockAgreement.ScanFindsAllIffGuarded | src/port.cc:154-193 | the scan finds all headers of a flat config in order if it is guarded, and hangs or finds fewer if not |
| BlockLayouts.ScanIgnoresComments | src/port.cc:154-193 | comments that leave the headers intact do not change the scan |
| BlockLayouts.ScanFindsIntactOnly | src/port.cc:154-193 | from any point, the scan finds no more comment-free headers than there are intact ones ahead |
| BlockLayouts.BrokenHeaderIsMissed | src/port.cc:154-193 | on a layout of a flat config with a header that is not intact the scan does not find the config's headers |
| BlockLayouts.SetUpDecidedByScan | src/port.cc:194-203 | headers and blocks are paired as in the config exactly when the scan finds all its headers in order |
| BlockLayouts.ScansAgreeIff | src/port.cc:141-207 | on any layout of a flat config each header gets its own block if and only if the config is guarded and the layout's headers are intact; unguarded and intact, the set-up never completes |
| BlockLayouts.PrintedConfigSetsUp | src/port.cc:141-207 | the printed form of a flat config is set up with each header and its own block if and only if the config is guarded |
| BlockLayouts.EmptyStaticBlockFails | src/port.cc:176-188 | a config whose only block is an empty StaticHandler block parses but is never set up |
| BlockLayouts.CommentInHeaderFails | src/port.cc:157-203 | a concrete layout of a flat, guarded config with a comment before the handler type runs out of range |
| BlockHandlers.SetUpIff | src/port.cc:141-207 | the exact condition for a complete set-up with the six handlers given by name |
| BlockHandlers.EmptyBlockIsSetUp | src/port.cc:164-174 | an empty block of each of the six handlers, anywhere among blocks that are not empty, gets its header and block, and so do all others |
| BlockHandlers.OtherEmptyBlockFails | src/port.cc:176-188 | an empty block of any other handler at the end or right before a block fails in every layout |
| BlockHandlers.BackendIsSetUp | src/port.cc:141-207 | the text of the shipped backend configuration is set up with both headers and their own blocks |
| UrlPath.FindDots | src/request_parser.cc:209-209 | the search finds two dots in a row exactly when there are |
| UrlPath.DerivePath | src/request_parser.cc:178-212 | the decoding loop and checks compute the path of a non-empty URI |
| UrlPath.Decode | src/utils.cc:171-193 | the loop computes the lenient decoding |
| UrlPath.StrictAgreesWithLenient | src/request_parser.cc:180-205 | wherever the strict decoder succeeds the two decoders agree, and a non-empty URI decodes to something non-empty |
| UrlPath.PathDerivation | src/request_parser.cc:174-215 | the path is empty exactly for a bad escape or two dots in a row; else it is the lenient decoding, completed with index.html, and has no two dots in a row |
| UrlPath.EscapedDecodes | src/utils.cc:177-183 | both decoders give back any bytes from their percent-encoding |
| UrlPath.MixedDecodes | src/request_parser.cc:180-205 | both decoders give back any text, each character written as itself, as a plus sign for a space, or escaped with hex digits of either case |
| UrlPath.BadEscape | src/utils.cc:177-188 | a percent sign without a readable number makes the parser give up on the path and is left out by the other decoder |
| UrlPath.OddEscapes | src/utils.cc:179-183 | how escapes with a sign, a blank or one digit read, and which do not |
| UrlPath.DotsIff | src/request_parser.cc:209-209 | two dots in a row means that the path falls into something, two dots and something |
| RequestSyntax.HeaderMapAgrees | src/request_parser.cc:470-473 | the header map and the header search agree: the first header of a name counts |
| RequestSyntax.MethodIsNamed | src/request_parser.cc:444-468 | the method is the one of the eight whose name the verb spells in any mix of cases, and PATCH if none |
| RequestSyntax.RequestCarriesMessage | src/request_parser.cc:43-50 | the request object has the message's method, URI, version and body, and of each header name the first value |
| RequestMachine.StepSound | src/request_parser.cc:148-442 | every step keeps the invariant of its state, records exactly its character, and accepts only a well-formed message equal to the text read |
| RequestTheorems.FeedAppend | src/request_parser.cc:37-56 | feeding a text is feeding any prefix of it and then, if there is no result yet, the rest |
| RequestTheorems.ChunkingIndependence | src/request_parser.cc:37-56 | for every cutting into chunks, result, characters used and final progress equal those of one call on the whole input |
| RequestTheorems.FeedSound | src/request_parser.cc:148-442 | from any reachable state the progress or message reached spells exactly the characters fed |
| RequestTheorems.Completeness | src/request_parser.cc:148-442 | every well-formed message followed by anything is accepted as itself at its last character |
| RequestTheorems.Soundness | src/request_parser.cc:148-442 | what a fresh parser accepts is the serialisation of the well-formed message it reports |
| RequestTheorems.AcceptIffMessage | src/request_parser.cc:148-442 | a fresh parser accepts message m after n characters if and only if m is well formed and those characters serialise it |
| RequestTheorems.UniqueSplit | src/request_parser.cc:148-442 | a text splits in at most one way into a request line, folded headers, blank line, body of the announced length, and rest |
| RequestTheorems.LengthAsWritten | src/request_parser.cc:413-415 | a Content-Length written in decimal announces that many body characters |
| RequestTheorems.LengthIs | src/request_parser.cc:413-415 | the announced length is the number a Content-Length begins with, after blanks and a sign; out of range announces none and a negative one wraps around |
| RequestVerdicts.Verdicts | src/request_parser.cc:37-442 | a new parser accepts exactly a text that begins with a message, waits exactly on one a message begins with, is undefined exactly after a name and two spaces, and else rejects, at the first character after which no message is possible |
| RequestVerdicts.NameCharacters | src/request_parser.cc:117-137 | the characters of method and header names, the seventeen excluded separators spelled out |
| RequestVerdicts.TextCharacters | src/request_parser.cc:122-124 | the characters of URIs and header values |
| FoldedFields.ValueIsRfcIff | src/request_parser.cc:349-401 | a field's value is, character by character, the one section 2.2 of RFC 2616 gives it if and only if it has no continuation lines |
| FoldedFields.WordsAreRfcIff | src/request_parser.cc:349-401 | a field has the words of its RFC value if and only if every continuation line with text follows a value that is empty or ends in a blank |
| FoldedFields.HeadersAreRfcIff | src/request_parser.cc:329-401 | all headers of a request have their RFC values if and only if none is folded |
| FoldedFields.FoldedLengthGrows | src/request_parser.cc:349-415 | a Content-Length folded as 1 and 2 announces twelve body characters, where its RFC value reads as one |
| RequestTheorems.Pipelining | src/request_parser.cc:37-56 | parsing concatenated messages again and again from where the parser stopped yields exactly their requests in order, uses everything and ends fresh |
| RequestParser.RequestParser.constructor | src/request_parser.cc:13-13 | a new parser is in the fresh state |
| RequestParser.RequestParser.Reset | src/request_parser.cc:16-25 | every field is back in the fresh state, `remaining` excepted |
| RequestParser.RequestParser.GetHeaderValue | src/request_parser.cc:97-104 | the search loop returns the first header's value or the empty string |
| RequestParser.RequestParser.HandleTarget | src/request_parser.cc:151-222 | method and URI characters, the path derivation included, follow the machine |
| RequestParser.RequestParser.HandleProtocol | src/request_parser.cc:223-282 | the protocol name and the first version digit follow the machine |
| RequestParser.RequestParser.HandleVersionNumber | src/request_parser.cc:283-319 | the version numbers follow the machine |
| RequestParser.RequestParser.HandleHeaderStart | src/request_parser.cc:329-348 | a new header, a continuation line or the blank line begins as in the machine |
| RequestParser.RequestParser.HandleHeaderLws | src/request_parser.cc:349-366 | leading blanks of a continuation line leave the value unchanged; its text extends it |
| RequestParser.RequestParser.HandleHeaderName | src/request_parser.cc:367-379 | header name characters follow the machine |
| RequestParser.RequestParser.HandleSpaceBeforeValue | src/request_parser.cc:380-388 | exactly one space opens an empty value |
| RequestParser.RequestParser.HandleHeaderValue | src/request_parser.cc:389-401 | header value characters follow the machine |
| RequestParser.RequestParser.HandleNewline2 | src/request_parser.cc:402-410 | the end of a header line closes the header |
| RequestParser.RequestParser.HandleLineEnd | src/request_parser.cc:411-429 | the blank line starts a body of the announced length, or completes the message when there is none |
| RequestParser.RequestParser.HandleBody | src/request_parser.cc:430-438 | body characters are counted down to the complete message |
| RequestParser.RequestParser.NextCharHandler | src/request_parser.cc:148-442 | each character moves all fields as the machine moves its partial message, and raw_request_ records it |
| RequestParser.RequestParser.Parse | src/request_parser.cc:37-56 | result, end position, written request and final state are those of feeding the text to the machine; a good request is written with the message's method by name, URI, version, first headers and body, a bad one from what was read before |
| RequestParser.PathInEveryState | src/request_parser.cc:174-215 | in every reachable state path_ is empty or the lenient decoding of the URI, completed with index.html, without two dots in a row |
| RequestParser.BodyAccounting | src/request_parser.cc:411-438 | while the body is read, characters read and characters remaining add up to the announced length, and some remain |
| LinkRewriter.ParseHtmlBody | src/proxy_handler.cc:166-209 | the loop inserts the served address, without a last slash, before exactly the slashes that follow a single quote |
| LinkRewriter.SlashSplitsPage | src/proxy_handler.cc:181-208 | at any slash the page falls into two parts rewritten by themselves, with the target before the slash exactly after one quote and not two |
| LinkRewriter.RewrittenLength | src/proxy_handler.cc:181-208 | the output is longer by the number of such slashes times the target's length |
| LinkRewriter.DeletingInsertions | src/proxy_handler.cc:166-209 | for every target, deleting the inserted characters gives the page back, and what is deleted is the target once per link |
| LinkRewriter.LinksCanBeUndone | src/proxy_handler.cc:166-209 | for every target that, between a quote and a slash, shows a link, the original page is recovered from the rewritten one |
| LinkRewriter.LinksCollide | src/proxy_handler.cc:166-209 | for every other target two different pages are rewritten to the same page |
| LinkRewriter.InjectiveIff | src/proxy_handler.cc:166-209 | for every target the rewriting is injective if and only if the target between a quote and a slash shows a link; for one without quotes, if and only if it is empty or starts with a slash |
| LinkRewriter.ServedPrefixHasNoQuotes | src/proxy_handler.cc:407-410 | a handler reachable by a quoted lookup key serves the prefix between the quotes, which has no quote in it |
| Directives.ReadValue | src/proxy_handler.cc:235-245 | name and number of a limit; only the last character decides whether the text counts as a number |
| Directives.ParseToken | src/proxy_handler.cc:224-248 | the loop body reads one directive |
| Directives.ParseLast | src/proxy_handler.cc:252-273 | the code after the loop reads the last directive the same way |
| Directives.ParseCacheHdrs | src/proxy_handler.cc:213-276 | loop and tail together are one left-to-right fold over the comma split, later duplicates winning and any exception ending it |
| Directives.DirectiveRoundTrip | src/proxy_handler.cc:225-248 | a written directive, with any blanks around it, reads as what it means |
| Directives.DirectivesRoundTrip | src/proxy_handler.cc:211-276 | every non-empty list of well-formed directives with any blanks around them, joined by commas, parses back to its map |
| Directives.LimitIsRead | src/proxy_handler.cc:229-248 | what a limit with any text after its equals sign counts as: its number, -1, or an exception |
| Directives.BareLimit | src/proxy_handler.cc:229-248 | a limit without a number counts as -1 |
| Directives.KnownFlags | src/proxy_handler.cc:224-248 | no-cache, no-store and only-if-cached count as 1 |
| ProxyCache.ProxyHandler.CacheControl | src/proxy_handler.cc:288-375 | flags, returned verdict and cache after the decision, for all directives, hits and misses |
| ProxyCache.ProxyHandler.UseCache | src/proxy_handler.cc:378-384 | the cached answer; called only with the key present |
| ProxyCache.ProxyHandler.StoreCache | src/proxy_handler.cc:400-405 | a page is inserted only if the URI has none |
| ProxyCache.ProxyHandler.HandleRequest | src/proxy_handler.cc:21-161 | answer and new cache are those of the reference step; a Cache-Control value that throws changes nothing, and an upstream address that cannot be formed throws after the cache decision |
| ProxyCache.CacheIsSources | src/proxy_handler.cc:155-159 | in every run the cache holds for each URI exactly the page that the events for this URI alone determine |
| ProxyCache.CacheHistory | src/proxy_handler.cc:288-405 | in every run from the empty cache an entry is a 200 answer, the first to a storable request for its URI since the last erasing one, or the erasing request's own |
| ProxyCache.StoredStays | src/proxy_handler.cc:400-405 | once something was storable the URI stays cached until an erasing request |
| ProxyCache.ServedWasFetched | src/proxy_handler.cc:29-33 | every page served from the cache was fetched with code 200 for the same URI earlier in the run, and respects max-age when there is no min-fresh |
| ProxyCache.ServedIffAgeAllowed | src/proxy_handler.cc:294-357 | in every run a request is answered from the cache if and only if its URI has a source, it asks for neither no-cache nor no-store, and the source's age at the three clock readings is within the given limits |
| ProxyCache.NoStoreOutcome | src/proxy_handler.cc:352-371 | in every run, no-store on a URI without a source or with no-cache leaves the cache unchanged; otherwise the request itself becomes the source if its answer is 200, and else there is none |
| ProxyCache.AnswerIs | src/proxy_handler.cc:21-161 | in every run the answer is the source's page, the 504 response with its two headers, or the upstream answer, and exactly when each |
| ProxyCache.CacheStep | src/proxy_handler.cc:352-405 | in every run one more request changes the entry of its own URI only, and exactly when it removes it or puts a 200 answer in |
| ProxyCache.OnlyIfCachedMiss | src/proxy_handler.cc:36-39 | only-if-cached on a URI without a source is answered with 504 whatever the upstream server would say, and leaves the cache alone |
| ProxyCache.ResolvesIff | src/proxy_handler.cc:42-50 | the upstream address can be formed exactly for absolute URIs and those the served prefix occurs in |
| ProxyCache.ComplainsIff | src/proxy_handler.cc:294-357 | with one limit or none the returned verdict is false exactly if the page cannot be used |
| ProxyCache.NeverReturnsIff | src/cached_page.cc:5-25 | for a page of the default age and a clock that does not run backwards, once refused is refused for good if and only if the request never uses the cache, has a negative min-fresh, or has none and a max-stale that is absent, joined by a max-age, or the smallest int; while the staleness fits an int, exactly a positive min-fresh brings pages back |
| Slashes.LastSlashOfPrefix | src/static_file_handler.cc:290-299 | searching for the last slash in a prefix is searching that far in the whole |
| StaticFiles.StaticFileHandler.Lookup | src/static_file_handler.cc:288-288 | the root of a key; an absent key is inserted with an empty one |
| StaticFiles.StaticFileHandler.ReplacePath | src/static_file_handler.cc:278-302 | the URI with its longest rooted prefix replaced by the root, or the empty string; at most empty entries for prefixes of the URI are added |
| StaticFiles.ResolveStandsFor | src/static_file_handler.cc:278-302 | the path is the root of the longest rooted prefix followed by the rest of the URI, told by the roots alone |
| StaticFiles.LookupsNeverInterfere | src/static_file_handler.cc:288-301 | after any sequence of calls every URI resolves as it did at the start |
| Routing.KeyIsLongestPrefix | src/session.cc:190-218 | the chosen key is at least as long as any registered prefix reached by cutting at slashes |
| Routing.KeyIsAPrefix | src/session.cc:190-218 | the chosen key is registered and is one of those prefixes |
| Routing.Server.FindKey | src/session.cc:190-218 | the shrinking loop finds that key, or reports that nothing matches |
| Routing.Server.HandlerTask | src/session.cc:271-296 | which handler is called, when the error page is sent, and the null entry inserted for "/" |
| Routing.Server.RouteRequest | src/session.cc:190-225 | an absolute URI gets the handler of "/http", any other that of its longest registered prefix, else that of "/" or the error page, told by the registered keys alone; the map changes only by the null entry for "/" |
| Routing.DispatchIsRight | src/session.cc:190-296 | the same of the reference functions |
| Routing.LongestOrNone | src/session.cc:202-218 | for every URI one tried prefix is the longest registered or none is registered |
| Routing.RootKeepsRunsSafe | src/session.cc:276-296 | with a handler for "/" and no null handlers, over every run the map is unchanged and every request reaches a real handler |
| Routing.RunsSafeIffRoot | src/session.cc:276-296 | no run calls through a null handler if and only if "/" is registered |
| Routing.AdmissibleRunsSafeIff | src/session.cc:196-296 | over runs of URIs that are empty or begin with a slash, `http://` or `https://`, no null handler is called if and only if "/" is registered, or the empty prefix together with "/http" or keys for both schemes |
| Intake.FrontDesk.ReadUri | src/session.cc:188-190 | the URI read and the state left in the shared parser are those of feeding the text to what was left before |
| Intake.FrontDesk.GoodRequest | src/session.cc:185-243 | the handler called and the map afterwards are those for the URI the shared parser makes of the text, and the handler is the right one by the registered keys |
| Intake.FrontDesk.BadRequest | src/session.cc:247-269 | the logged URI and the state left in the shared parser |
| Intake.PendingBodyTakesText | src/session.cc:185-190 | a text handed on while a body is pending is routed by the earlier request's URI |
| Intake.PendingUriTakesMethod | src/session.cc:185-190 | a request handed on while a URI is pending is routed by that URI followed by its method |
| Intake.LeftoverGarblesUri | src/session.cc:185-269 | after the bad text `X aaaa` a request for `/` is routed as `aaaaGET` |
| Intake.UnbiasedIffNew | src/session.cc:12-12 | over all texts, the URI of the request object, logged or routed, is the one a new parser gives if and only if nothing is left in the shared one |
| Intake.HandOffsIndependentIff | src/session.cc:185-269 | throughout a run every possible next text leads to its own URI, logged or routed, if and only if every text so far settles on its own |
| Intake.CheckedUriIsAdmissible | src/utils.cc:63-77 | a new parser takes every text that begins with a method name, a space and a checked target to a URI that is empty or begins like the target |
| HandOffs.NameGoesUnnoticed | src/session.cc:185-190 | a text that begins with a name character is routed the same after a leftover method name as by a new parser |
| HandOffs.RoutesAlikeIffClear | src/session.cc:185-190 | every checked text is routed as by a new parser if and only if nothing or a method name only is left in the shared one |
| HandOffs.RoutedByOwnUriIff | src/session.cc:185-269 | throughout a run every checked next text is routed by its own URI if and only if each text so far is a part of a method name or brings the parser to a verdict |
| HandOffs.RoutedAsWritten | src/session.cc:185-190 | after such a run a text beginning with a well-formed message is routed by the message's URI and leaves nothing in the parser |
| HandOffs.HarmlessRunsSafe | src/session.cc:185-296 | with covering handlers no such run whose good texts were checked calls a null handler or is undefined |
| HandOffs.HarmlessRunsSafeIff | src/session.cc:185-296 | all such runs are safe if and only if the handlers cover the URIs a checked line can carry |
| HandOffs.ScreenedRunsSafeIff | src/session.cc:185-296 | all runs whose good texts were checked, leftovers included, are free of null calls if and only if "/" is registered |
| Service.KnownMethodChecked | src/utils.cc:63-100 | a text that matches a request line pattern and has a known method up to its first space has that space right after the method |
| Service.ReadsAreScreened | src/session.cc:45-131 | for reads of any number of sessions in any order, every text handed on as good begins like a checked one |
| Service.ReadsAreSafe | src/session.cc:45-296 | for every run of reads: no null call with covering handlers and texts harmless to each other, and none with "/" registered |
| Service.ReadsSafeIff | src/session.cc:45-296 | no run of reads calls a null handler if and only if "/" is registered |
| Session.FilteredIffCRLFs | src/utils.cc:57-61 | filtering leaves nothing exactly of a run of CRLFs |
| Session.Session.LongStringHandler | src/session.cc:30-43 | a whole request in one read is handed off with what was collected, only while idle |
| Session.Session.HandleRead | src/session.cc:45-131 | event and state after a read, for all checks |
| Session.BodyIsCollected | src/session.cc:45-131 | at every point http_body is the chunks since the last hand-off, dropped ones aside, and empty while no request is being collected |
| Session.HandOffIsCollected | src/session.cc:45-131 | every text handed on is the concatenation of the chunks since the previous hand-off, dropped ones aside |
| Session.CollectingMeansChecked | src/session.cc:69-110 | while a request is being collected, everything kept since the last hand-off passed its check and began with a request line |
| Session.GoodTextWasChecked | src/session.cc:33-67 | a text handed on as good passed the whole-request check in one idle read, or is a request line with a known method, lines that passed their checks, and a CRLF |
| Session.NamesMethodIff | src/utils.cc:4-38 | a line's first word is a known method exactly if the line is one of nine names or begins with one and a space |
| Session.IdleEvent | src/session.cc:30-131 | in every run, what a read is handed on as while nothing is being collected, exactly |
| Session.CollectingEvent | src/session.cc:58-110 | in every run, what a read is handed on as while a request is being collected, exactly, and with which text |
| Session.LinesAreHandedOn | src/session.cc:58-110 | a request that comes in line by line is handed on as good, whole, at its blank line |
| Session.DroppedOnlyIdleCRLFs | src/session.cc:114-120 | only runs of CRLFs are dropped, and only while idle |

## Left out

- ConfigParser.NginxConfigParser.Parse: keeps the configs under construction as values, linked to their parents when they close, so sharing between the tree, the pointer stack and the shallow copies in config_blocks_content is not modelled.
- ConfigBlocks.Port.SetConfigBlocks: what stays in config_blocks when the call never returns or writes out of range, which leaves no defined state, is not stated.
- ProxyCache.ProxyHandler.HandleRequest: the upstream request, the exact destination URI and the response headers are one arbitrary fetched response.
- Intake.CheckedUriIsAdmissible: of a checked text only the beginning is used, a method name, a space and a target that begins with a slash, `http://` or `https://`.
- Service.ReadsSafeIff: the checks are any that match the beginning of the request line patterns and let a plain request for `/` pass.
- Session.Session.HandleRead: the text of a read is any string, whatever the number of bytes transferred; how it comes out of the buffer, with bytes of an earlier read behind it, is not modelled.
- Opening and reading files, including the Parse overload that takes a file name.
- checkPortNum, checkFilePath and the port number checks in src/port.cc: easy members.
- SetUri and the accessors of the request parser: easy members.
- update_cache and update_age of cached_page, which the handler never calls.
- The regular expressions of check_requestLine, check_header and check_request, which are parameters.
- Sockets, threads, promises, the dispatcher, logging, and the echo, health, error, status and cache handlers.
- Building file responses in src/static_file_handler.cc, and src/response.cc.
