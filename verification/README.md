# A verified model of the HTTP(S) server's front end

The server reads an nginx-style configuration, registers one request handler for each location it
names, routes requests to them by longest path prefix, and keeps counters that a status page shows.
This project models that behaviour in Dafny and proves what the code promises of it.

- **Lexing** (`Lexer.dfy`, `Quoting.dfy`, `TokenStream.dfy`). The five-state loop reads a stream with
  one character of push-back and computes `Scan`, a function on the unread text. About that function:
  round trips for both quote styles and for escaped bare words, with their exact ranges; exactly
  which tokens are read back as they are printed; and layout that makes no difference.
- **Parsing** (`ConfigTree.dfy`, `Grammar.dfy`, `RoundTrip.dfy`, `ConfigHeap.dfy`,
  `ConfigParser.dfy`). The parse loop runs on real objects with its two stacks. Its invariant,
  `ConfigParser.Spine`, says that the stacked configurations are the open path of the tree; every
  `top`, `back` and `pop` is in range because of it. The objects it leaves are the tree of a stack
  machine on values, which accepts exactly Config ::= Stmt*, Stmt ::= NORMAL+ (`;` | `{` Config `}`).
  Printing and parsing gives back exactly the well-formed trees whose tokens are all print-safe.
- **Extracting** (`Strings.dfy`, `Extract.dfy`). The port and the key paths are searched in printed
  text. For every tree it is proved where such a search lands and what it reads there. It finds what
  a search of the tree finds if it lands on the keyword itself and a clean token follows: not empty,
  no blank at its start, and no space, tab or semicolon in it. A longer word that contains the keyword
  can hide a port and can invent one, as `listen80` does.
- **Routing** (`FileRoot.dfy`, `ProxyUrl.dfy`, `Routing.dfy`, `Locations.dfy`). First-wins
  registration, the two constructors that read their blocks, the proxy's url splitting, and the two
  prefix lookups, which agree for every uri. `Locations.dfy` says what they come to in terms of the
  tokens of the file and the characters of the uri.
- **Serving** (`Session.dfy`, `Status.dfy`). The receive buffer, NULs in it included, the moment of
  the answer, the counters that all sessions share, and the rows of the status page, which add up to
  its total.

A loop over a `std::map` is modelled as a loop that takes the keys in any order. A C++ exception is a
result: `Throws` for `stoi`, not `ok` for a handler's constructor. `npos` is `None`. Strings are
sequences of characters; the stream's `good()` is a field.

Where the code and what one would expect of it differ, the code is modelled and a lemma says so:
`Quoting.LeadingEscapeJoinsWords`, `TokenStream.LayoutAfterLead`, `TokenStream.DanglingWordDropped`,
`Grammar.DanglingWordUnnoticed`, `Grammar.QuotesAreForgotten`, `Extract.LongerWordDecides`,
`Extract.TextAndTreeDiffer`, and the exceptions in `Quoting.BareRoundTrip`,
`Extract.PortScanIsTreeSearch`, `Extract.PathScanIsTreeSearch`, `RoundTrip.PrintParseExactly`,
`Session.ChunkingDoesNotMatter` (`Session.NulsMatter`), `Routing.HandlerExists`
(`Routing.NobodyServesStar`) and `Status.RowDecodes`. The comment above `parse_url` gives
`index.html` for a path; the code keeps the slash, and so does `ProxyUrl.ParseUrl`.

## Model

| member | source | states |
|---|---|---|
| Lexer.CharStream.Get | src/config_parser.cc:77-80 | a read at the end makes the stream not good and takes nothing; any other takes the next character |
| Lexer.CharStream.Unget | src/config_parser.cc:120 | puts the last character back in front of the unread text |
| Lexer.ParseToken | src/config_parser.cc:73-225 | for every stream and every initial value, the loop's token type, value and unread rest are those of `Scan`; it terminates |
| Lexer.Scan | src/config_parser.cc:73-225 | a token that is neither end of file nor error consumes something; punctuation has its own character for a value; no token has type START |
| Quoting.NothingInvented | src/config_parser.cc:128-214 | value and rest of a word are together never longer than what was collected and unread before |
| Quoting.NothingDoubled | src/config_parser.cc:110-214 | each single character occurs in a word and its rest together at most as often as in what was collected and unread, and the double quote that opened a token once less |
| Quoting.QuoteRoundTrip | src/config_parser.cc:128-185 | for both quote styles, every value that does not end in a backslash, quoted and with its quotes escaped, is read back before every terminator: bare from double quotes, with its quotes from single ones |
| Quoting.QuoteTerminators | src/config_parser.cc:144-155 | a closing quote ends a token before a blank, a semicolon or an opening brace; before anything else, a closing brace included, and at the end of the text it is an error |
| Quoting.BareTerminators | src/config_parser.cc:193-197 | a plain word is ended, and left in front of its terminator, by a blank, a semicolon or a brace and by nothing else |
| Quoting.QuotedNeverEndsInBackslash | src/config_parser.cc:128-185 | for both quotes and every text, the body of the token the lexer returns does not end in a backslash, and the value is the body as the lexer keeps it |
| Quoting.QuoteRange | src/config_parser.cc:94-101 | for both quotes, the values of quoted tokens are exactly the bodies that do not end in a backslash: bare from double quotes, with both quotes from single ones |
| Quoting.BareRoundTrip | src/config_parser.cc:90-126 | for every value, every terminator of a word and every text after it, the escaped value is read back if and only if it is a single-quoted token without an escapable character, or escapable characters and backslashes, then an ordinary character, then no newline, and no final backslash unless a newline or carriage return ends it |
| Quoting.LeadingEscapeJoinsWords | src/config_parser.cc:106-123 | after any leading escapes and any blanks, whatever text follows, the lexer is between tokens with the escaped characters collected |
| Quoting.JoinedWords | src/config_parser.cc:106-126 | leading escapes, blanks and an escaped word become one token if and only if the word would be read back as a bare one |
| Quoting.PrintSafeExact | src/config_parser.cc:73-225 | a token followed by what the printer puts after it is read back unchanged if and only if it is print-safe |
| TokenStream.Tokens | src/config_parser.cc:233-321 | a text has at most one token more than characters |
| TokenStream.OneEnd | src/config_parser.cc:233-321 | the stream is words and punctuation, then one end of file or error |
| TokenStream.DanglingWordDropped | src/config_parser.cc:82-224 | exactly which texts yield end of file only: layout, leading escapes, and at most one word in which every character that could end it is protected by a backslash |
| TokenStream.LooksNoFurther | src/config_parser.cc:128-214 | a word or comment depends on the text up to its terminator only: any other rest gives the same token |
| TokenStream.LayoutIndependent | src/config_parser.cc:82-107 | blanks and finished comments inserted where the lexer is between tokens with nothing collected leave the token stream as it was |
| TokenStream.LayoutAfterLead | src/config_parser.cc:90-123 | layout after leading escapes changes nothing if it is blanks only; with a comment in it, all that was collected is lost |
| TokenStream.PlainTokens | src/config_parser.cc:73-225 | every word of a text without double quotes and backslashes is print-safe |
| ConfigTree.LexPrint | src/config_parser.cc:21-57 | lexing a printed tree with print-safe tokens, at any depth and before any text, gives exactly the tokens the tree stands for and then those of the text |
| ConfigTree.IndentIsBlank | src/config_parser.cc:35-37 | the indentation is two blanks for each level and nothing else |
| ConfigTree.PrintedLine | src/config_parser.cc:38-48 | a statement of two tokens is written on a line of its own: indentation, the tokens with a blank between them, a semicolon |
| ConfigTree.PrintedBlock | src/config_parser.cc:38-57 | a block with two tokens is written as a line for its tokens and an opening brace, its body one level deeper, and a line for the closing brace |
| ConfigHeap.AppendIndent | src/config_parser.cc:35-37 | two blanks for each level, none for a negative depth |
| ConfigHeap.NginxConfigStatement.ToString | src/config_parser.cc:33-57 | the printed text of the tree the object holds |
| ConfigHeap.NginxConfig.ToString | src/config_parser.cc:21-27 | the printed text of the tree the object holds |
| ConfigHeap.NginxConfig.Reset | src/config_parser.cc:29-31 | the configuration holds the empty tree |
| ConfigHeap.SameTree | include/config_parser.h:13-28 | an object structure holds one tree only |
| Grammar.Complete | src/config_parser.cc:227-327 | the machine accepts every derivation and appends its statements to what was there |
| Grammar.Sound | src/config_parser.cc:227-327 | what the machine accepts is the flattening of the tree it leaves, which is well-formed |
| Grammar.ConsumedStep | src/config_parser.cc:246-320 | each step that goes on adds exactly its token to those the open lists stand for |
| Grammar.ParseIsGrammar | src/config_parser.cc:227-327 | a text is accepted if and only if the grammar derives its tokens, and the tree left then is the derived one after what was there |
| Grammar.AcceptedIsWellFormed | src/config_parser.cc:250-266 | an accepted text adds only statements with at least one token, at every depth |
| Grammar.ParseIsUnambiguous | src/config_parser.cc:227-327 | no token stream derives from two trees |
| Grammar.RunBased | src/config_parser.cc:227-229 | statements already in the configuration change neither the verdict nor the new ones, on every run |
| Grammar.PrintParseRoundTrip | src/config_parser.cc:21-57 | parsing the print, at any depth, of a well-formed tree with print-safe tokens succeeds and rebuilds exactly that tree |
| Grammar.LayoutDoesNotMatter | src/config_parser.cc:241-244 | layout inserted at a boundary changes neither verdict nor tree |
| Grammar.DanglingWordUnnoticed | src/config_parser.cc:192-224 | any text after a printed configuration leaves verdict and tree as they were if and only if it holds no token, so an unfinished word is not noticed |
| Grammar.QuotesAreForgotten | src/config_parser.cc:38-43 | for all print-safe a and b, the double-quoted token `a b` is one token when parsed and two when its print is parsed again |
| RoundTrip.TokensCount | src/config_parser.cc:73-321 | the tokens of any text have together at most as many backslashes, double quotes and hashes as the text |
| RoundTrip.KeptToken | src/config_parser.cc:73-225 | a token that comes back from what the printer writes without the loss of a backslash or double quote, wherever the lexer stops after it, is print-safe |
| RoundTrip.TreeSafe | src/config_parser.cc:21-57 | if the print of a tree lexes to the tokens of the tree, then every token is print-safe |
| RoundTrip.PrintParseExactly | src/config_parser.cc:21-57 | for every tree and every depth, parsing its print rebuilds it if and only if every statement has a token and every token is print-safe |
| RoundTrip.AcceptedReprints | src/config_parser.cc:227-327 | the tree of an accepted text survives printing and parsing if and only if every word of the text is print-safe |
| RoundTrip.PlainTextReprints | src/config_parser.cc:227-327 | the tree of every accepted text without double quotes and backslashes survives printing and parsing |
| ConfigParser.AddToken | src/config_parser.cc:250-266 | a word keeps the spine and steps the machine; the back of the top's statements exists |
| ConfigParser.OpenBlock | src/config_parser.cc:273-284 | an opening brace keeps the spine, one configuration deeper |
| ConfigParser.CloseBlock | src/config_parser.cc:285-299 | a closing brace keeps the spine, one configuration shallower |
| ConfigParser.SpineIsOpenPath | src/config_parser.cc:228-299 | at every head of the parse loop the stack's bottom is the caller's configuration, each entry above is the block of the last statement of the one below, and after a word the top's last statement exists and has no block |
| ConfigParser.SpineIsTree | src/config_parser.cc:228-299 | the objects on the spine are, read from the caller's configuration, the machine's collapsed tree |
| ConfigParser.Parse | src/config_parser.cc:227-327 | for every stream and configuration, the answer and the tree left, also when the answer is no, are those of the machine on the text; at most one token more than characters is read |
| Extract.AfterPrint | src/config_parser.cc:357-379 | at every depth and for all tokens, a search of printed text for a keyword lands where the first token that contains it is, and the field after it is what the tree has from there on |
| Extract.LandAllWhole | src/config_parser.cc:350-356 | a tree without a landing has no keyword; where the landing is the keyword itself, what comes after it is what the tree search finds |
| Extract.PortScanReads | src/config_parser.cc:343-409 | for every tree, the port is what is read at the first token that contains the keyword; without one there is none |
| Extract.PortScanIsTreeSearch | src/config_parser.cc:343-409 | for every tree, text and tree give the same port if and only if no token contains the keyword; or the first that does is the keyword, and ends its statement, or a clean token follows, or nothing that is a port is read; or it is a longer word, and the port read after it is also the one after the keyword, or neither is one |
| Extract.GetPortNumber | src/config_parser.cc:343-409 | the answer is the search of the printed texts, for `listen` if the type is HTTP and for `ssl-port` if it is HTTPS; the out-parameter changes on success only, to the port as a 16-bit short |
| Extract.ShortReadsBack | src/config_parser.cc:402 | the stored short read back as an unsigned 16-bit number is the port |
| Extract.ConfiguredPort | src/config_parser.cc:362-402 | whatever follows, a statement of keyword and number, with no token before it that has the keyword in it, configures its number: up to 65535 it is the port, up to 2147483647 it is refused, above that the conversion throws |
| Extract.TidyPort | src/config_parser.cc:362-402 | in a tidy file the same holds of the number after the first keyword, at any depth |
| Extract.PortFromText | src/config_parser.cc:227-409 | from characters to the port: the text `listen N;`, parsed, configures N, for every number N |
| Extract.LongerWordDecides | src/config_parser.cc:362 | whatever follows, a first statement that is a longer word with the keyword in it fixes the port that the text gives and says nothing to the tree search |
| Extract.TextAndTreeDiffer | src/config_parser.cc:362 | the text invents the port of `listen80`, and misses the one of `listen 80` after `listener` |
| Extract.NeverPastTheEnd | src/config_parser.cc:422-434 | after a keyword in a printed statement there is always a character that is not blank, so no substring starts at npos, whatever the tokens |
| Extract.NginxConfigParser.GetKeyPath | src/config_parser.cc:412-444 | each path is the field after its keyword, `private_key_root` or `public_key_root`, in the last statement whose text has it, or unchanged; true if and only if neither is empty |
| Extract.ConfiguredPath | src/config_parser.cc:412-444 | whatever comes before, a statement of keyword and clean path, with no token after it that has the keyword in it, configures its path |
| Extract.ConfiguredKeys | src/config_parser.cc:412-444 | with both key statements at the end of a file each path is that of its own key |
| Extract.PathScanReads | src/config_parser.cc:412-444 | for every tree, the path is what is read at the landing in the last statement that has one, or the old path |
| Extract.PathScanIsTreeSearch | src/config_parser.cc:412-444 | for every tree, text and tree give the same path if and only if there is no landing; or the last is the keyword, and a semicolon or a clean token follows, or an empty one with nothing after it; or it is a longer word, and what is read after it is also what the tree search gives |
| Extract.TidyFilesAgree | src/config_parser.cc:343-444 | port and path are those of the tree search in every file in which each token that contains the keyword is the keyword, with a clean token after it or at the end of a statement without a block |
| Extract.BareIsClean | src/config_parser.cc:192-214 | a bare token is clean, so it is read whole after a keyword |
| FileRoot.FileHandler.ReadConfig | src/file_handler.cc:13-19 | the root is that of the statements read in order |
| FileRoot.LastRootCounts | src/file_handler.cc:14-19 | the last statement of `root` and one argument gives the root |
| FileRoot.NoRoot | src/file_handler.cc:14-19 | without a root statement of one argument the root is `/` |
| ProxyUrl.RemoveEndSlash | src/proxy_handler.cc:30-33 | the url without exactly its trailing slashes |
| ProxyUrl.SplitAndRebuild | src/proxy_handler.cc:35-47 | a url that is split is its parts put together, up to trailing slashes; it is not split if and only if it has no `://` then |
| ProxyUrl.BuildAndSplit | src/proxy_handler.cc:35-47 | canonical parts are recovered exactly from their url |
| ProxyUrl.SplitRange | src/proxy_handler.cc:29-48 | the results of splitting are exactly the canonical parts and the three empty strings |
| ProxyUrl.TrailingSlashes | src/proxy_handler.cc:30-35 | more trailing slashes never change the result |
| ProxyUrl.ProtocolIs | src/proxy_handler.cc:35-41 | the protocol of a url is http, or https, if and only if the url is it, `://` and something that is not all slashes |
| ProxyUrl.PlainUrl | src/proxy_handler.cc:29-48 | a url of http or https, a host, a path or none, and any number of slashes is split into these; without a path it is `/` |
| ProxyUrl.ProxyHandler.ReadConfig | src/proxy_handler.cc:50-66 | the fields are those of the statements read in order; not ok where the constructor throws |
| ProxyUrl.ThrowsExactly | src/proxy_handler.cc:54-57 | the constructor throws if and only if some statement is `host` and one argument that is no http or https url |
| ProxyUrl.LastOneCounts | src/proxy_handler.cc:53-65 | the last statement of `host` and one argument gives host and path, the last of `port` and one argument the port |
| ProxyUrl.NotSet | src/proxy_handler.cc:50-66 | without such a statement host and path, or port, stay empty |
| Routing.PopSlashes | src/dispatcher.cc:36-39 | the stripped path |
| Routing.Dispatcher.InitHandlers | src/dispatcher.cc:66-90 | the handlers are those the rows register, their number is returned, and the shared names gain exactly their types; not ok when a constructor throws. Only blocks that a constructor reads need to be readable, and of a proxy's only what it comes to |
| Routing.Dispatcher.AddHandler | src/dispatcher.cc:96-141 | adds the handler under the stripped path if and only if that is free and the type is one of the seven, which are named, and a proxy can be set up; says whether it did |
| Routing.FirstWins | src/dispatcher.cc:66-141 | besides the 404 handler, which stays at `/`, there is a handler at exactly the paths some location row with a known type asks for, made from the first such row |
| Routing.KeysStripped | src/dispatcher.cc:97-99 | every registered path is without trailing slashes |
| Routing.ThrowsWhen | src/dispatcher.cc:122-125 | construction throws if and only if a row that is the first for its path asks for a proxy that cannot be set up |
| Routing.ConstructServers | src/server_main.cc:50-53 | the two dispatchers of one configuration have the same handlers, and the shared names are their types |
| Routing.Dispatcher.GetRequestHandler | src/dispatcher.cc:32-55 | the handler of the longest non-empty key that is a prefix of the stripped uri, in whatever order the map is read |
| Routing.LongestIsUnique | src/dispatcher.cc:44-52 | there is only one longest prefix |
| Routing.HandlerExists | src/dispatcher.cc:32-90 | a uri has a handler if and only if it starts with a slash, or some location row of a known type has a non-empty stripped path that is a prefix of the stripped uri |
| Locations.StripIs | src/dispatcher.cc:36-39 | what is left of a path without its slashes is the one path without slashes at its end, or `/`, that slashes after it turn into the path |
| Locations.FirstLocation | src/dispatcher.cc:66-141 | at every path without slashes at its end there is a handler if and only if some row is `location`, the path with any slashes, and one of the seven types by name; it is that of the first such row, and at `/` the 404 handler |
| Locations.OwnPath | src/dispatcher.cc:32-55 | in every map a registered path, with any slashes after it, is routed to its own entry |
| Locations.RoutedToLongest | src/dispatcher.cc:32-141 | from the tokens of the file to the handler: a uri goes to the first location at the longest path that is a prefix of it |
| Locations.RoutedToRoot | src/dispatcher.cc:32-141 | a uri of which no location is a prefix goes to the 404 handler if it starts with a slash, and to nobody otherwise |
| Locations.BadProxyThrows | src/dispatcher.cc:122-125 | a dispatcher cannot be constructed if and only if the first location at some path other than `/` is a proxy with a host that is no http or https url |
| Routing.NobodyServesStar | src/session.cc:162-166 | without such a location the target `*` has no handler |
| Routing.SlashesDoNotMatter | src/dispatcher.cc:36-39 | slashes appended to a non-empty uri change neither lookup |
| Routing.InfoIsKinds | src/dispatcher.cc:66-141 | after any positive number of dispatchers with the same handlers the shared names are the types of those handlers |
| Routing.LookupsAgree | src/session.cc:107-126 | then, for every uri, the name looked up is the type of the handler looked up, and there is none if there is none |
| Session.Session.GetHandlerName | src/session.cc:107-126 | the name at the longest prefix, or the empty name |
| Session.Session.Start | src/session.cc:47-51 | the buffer is all NUL and a read into its start is outstanding |
| Session.Session.EndOfRequest | src/session.cc:78-82 | whether `\r\n\r\n` or `\n\n` occurs in the C string in the buffer |
| Session.Session.AppendData | src/session.cc:84-101 | the next read goes right behind the C string in the buffer |
| Session.Session.SendResponse | src/session.cc:128-193 | the text received is handed on; a well-formed request is counted once with its code, a malformed one is not |
| Session.Session.HandleRead | src/session.cc:199-218 | answers if and only if there was no error and the text has a blank line; reads on without one; neither after an error |
| Session.Session.Deliver | src/session.cc:84-101 | a chunk of any bytes replaces what is in the buffer behind the C string, as far as it reaches; then the handler runs on the new C string |
| Session.Serve | src/session.cc:199-218 | over every run of reads, whatever the bytes, one answer to the first text seen with a blank line, or none; it is counted once |
| Session.TextIsAll | src/session.cc:78-101 | the session sees exactly what was received if and only if no chunk has a NUL |
| Session.AnswersAtFirst | src/session.cc:199-218 | the answer comes with the first chunk after which the text seen has a blank line, not earlier |
| Session.AnswersLineEnds | src/session.cc:78-82 | bytes without a NUL are answered if and only if together they are something, `\r\n\r\n` or `\n\n`, and something |
| Session.ChunkingDoesNotMatter | src/session.cc:78-82 | whether the session answers does not depend on how the bytes were cut into reads, if they have no NUL or a blank line before the first |
| Session.NulsMatter | src/session.cc:84-101 | bytes whose first blank line appears when the NULs are left out are not answered if they come at once, and are if they come one by one |
| Session.Accounts.Record | src/session.cc:167-168 | the count grows by one and the code is appended to its uri's list; count and list lengths stay equal |
| Session.LedgerBalances | src/session.cc:166-168 | over every run of requests the count is the sum of the lengths of all lists |
| Session.LedgerCounts | src/session.cc:166-168 | over every run each code is in its uri's list exactly as often as it was answered for it |
| Session.LedgerLists | src/session.cc:168 | over every run each uri's list is what was answered for it, in the order of the answers; a uri never answered has none |
| Session.ServeAll | src/session.cc:166-218 | for any number of sessions and any interleaving of their reads, each answers as if it were alone, and the shared counters are those of the run of all answered requests |
| Session.Recorded | src/session.cc:167-168 | one more code is one more in the sum of all list lengths |
| Status.Split | src/status_handler.cc:31-49 | the parts of `SplitFrom` |
| Status.SplitKeepsText | src/status_handler.cc:31-49 | parts are non-empty and delimiter-free, and together are the text without delimiters |
| Status.SplitOfJoin | src/status_handler.cc:31-49 | splitting undoes joining of non-empty delimiter-free parts |
| Status.KeyIsInjective | src/status_handler.cc:16 | different pairs of uri and code have different keys, for all uris |
| Status.Condense | src/status_handler.cc:11-26 | each pair is counted under its own key as often as its code occurs, nothing else is, and the counts sum to the list lengths |
| Status.TallyIsUnique | src/status_handler.cc:11-26 | there is one such map only, whatever the order of counting |
| Strings.DecOfValue | src/status_handler.cc:16 | the numeral of a number is the only one without a leading zero |
| Status.RowDecodes | src/status_handler.cc:57-60 | a printed row splits into uri, code and count if and only if the uri is non-empty and has no blank |
| Status.StatusPage | src/status_handler.cc:51-68 | every row is a uri, a code and its count, every answered pair has a row, and the counts shown sum to the total shown |

## Left out

- Sockets, TLS, accept loops, threads and `io_service`: foreign calls. A read is a chunk that arrives; callbacks run one at a time, because the shared counters have no lock to reason from.
- HTTP parsing and response serialisation are library code: what they make of a text is the function `reply` given to a session. It answers with a uri only where the lookup finds a handler, which `Routing.HandlerExists` says exactly; the source follows a null pointer otherwise, as for the target `*` (`Routing.NobodyServesStar`).
- Requests of the buffer's length or more, which the source assumes not to occur.
- The widths of `int request_count`, of the status page's counts and of print depths: counters are unbounded.
- `unget` always succeeds after a read, as it does for files and string streams.
- The token type QUOTED_STRING, which the lexer never returns and the parser ignores.
- Opening the configuration file by name, printed traces and logging.
- Port types other than HTTP and HTTPS, for which the source searches from an uninitialised position.
- Location statements without a block, statements without tokens at the top or in a block that a file handler's or proxy's constructor reads, and urls of slashes alone where a proxy's constructor comes to them, on which the source reads out of bounds: preconditions of the registration. Parsed configurations have a token in each statement (`Grammar.AcceptedIsWellFormed`).
- Routing.Dispatcher.AddHandler: of the seven constructors only the file handler's and the proxy's read the block, and those two are modelled.
- A handler is the value of its type, path and block; the block is the configuration object itself.
- Following proxy requests and redirects (`issue_outside_request`): a network client without a bound on its recursion.
- The file handler's path and MIME lookup, and the echo, health, sleep and 404 handlers: short and without state.
- The HTML of the status page beyond its rows and total.
