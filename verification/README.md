# xwp-server: a verified model

xwp-server is a small threaded HTTP server in C that reads its configuration with its own XML
reader, passes requests on to uwsgi back ends and logs with a bundled copy of zlog. This project
models the parts of it that are hardest to get right and proves what they do, in Dafny.
`dafny verify dfyconfig.toml` checks everything.

The model follows the program file by file:

| files | component |
|---|---|
| `CText`, `XmlSyntax`, `XmlModel`, `XmlParser`, `XmlTree`, `XmlBuilder`, `XmlRoundTrip` | the XML reader, its tree builder and the tree |
| `Digits`, `ZlogBuf`, `HexDump` | the size-limited log buffer and the hex dump written to it |
| `Options`, `HashTable` | the hash table of zlog |
| `Rules`, `Category`, `CategoryTable` | log rules, level bitmaps, categories and configuration reload |
| `TimeCache` | per-thread time stamp caches across reloads |
| `ArrayList`, `Rotater`, `RotaterLock` | log rotation on a file system, and its two-layer lock |
| `Connection`, `Server`, `ServerProgress` | worker, timeout guard and listener threads as interleaved steps, what always holds and what they get done |
| `HttpHeader`, `HttpReceive`, `Sockets`, `HttpBody` | receiving a message over arbitrary `recv` splits |
| `Uwsgi` | the two-pass encoder of the uwsgi request packet |

Code that works in place is a class or a method with loops, proved against functions on values;
what the source promises is then proved of those functions. Threads are state machines whose steps
are single reads and writes of shared fields, with sequentially consistent memory, and properties
of them hold in every state of every schedule. Foreign calls are parameters: `recv` is a
list of sizes, a failing system call or allocation is an oracle, `strftime` and `localtime_r`
are functions, the parsed configuration is an argument.

Seven promises turn out to be false at an edge. Each has the exact condition under which it holds,
one that can be checked before the call, and an instance where it fails:

- A time stamp is the uncached text unless the clock shows second 0 and the slot has not been used
  (`TimeCache.Event.WriteTime`, `TimeCache.AlwaysUncached`; fails in `TimeCache.EpochLost`).
- A rolling rotation keeps every archive it should exactly when no kept archive lies in a gap
  beyond its own place (`Rotater.RollLossless`; fails in `Rotater.LostArchive`).
- A body read until the peer closes is complete exactly when the header buffer or the body buffer
  has room for two bytes, or the body fits what is there (`HttpBody.ReceiveAll`; fails in
  `HttpBody.SecondByteLost`).
- A reload is all or nothing exactly when the file does not parse or no allocation for a category's
  new rules fails; a failed table update is not rolled back (`CategoryTable.Env.Reload`; fails in
  `CategoryTable.RulesLost`).
- The uwsgi length is the number of bytes written exactly below 65536 bytes
  (`Uwsgi.CalcPacketLen`; fails in `Uwsgi.WrappedLength`).
- An empty-element tag raises its end event unless blanks follow a list of 32 attributes
  (`XmlRoundTrip.EndTagLost`, which says both).
- A timeout ends a run unless its worker waits for the mutex to finalize a request; then worker and
  guard wait for each other for ever (`ServerProgress.TimeoutEnds`, `ServerProgress.WaitForEver`;
  reached in `ServerProgress.BothWaitReached`).

Besides, a text at the very end of an XML document raises no event (`XmlRoundTrip.LastTextLost`).

## Model

| member | source | states |
|---|---|---|
| XmlParser.StrTrim | src/xml_parser.c:537-566 | the string in the buffer becomes its trimmed form in place, and nothing else in the buffer changes |
| XmlParser.XmlParser.StrDup | src/xml_parser.c:209-236 | a token below 128 characters always ends up trimmed and terminated behind the tokens stored before, which stay readable when the buffer moves |
| XmlParser.XmlParser.ParseAttrs | src/xml_parser.c:238-316 | the character state machine stores exactly the names and values the token-level grammar finds, at most 64 strings, and stops where it stops |
| XmlParser.XmlParser.ParseHead | src/xml_parser.c:318-355 | tag name and attributes of a start tag or processing instruction, including input that ends inside the name |
| XmlParser.XmlParser.ParseStartTag | src/xml_parser.c:318-372 | the events and final position of a start tag, with an end event for the empty-element form |
| XmlParser.XmlParser.ParseEndTag | src/xml_parser.c:374-390 | one end event with the trimmed name, none when the input ends first |
| XmlParser.XmlParser.ParseComment | src/xml_parser.c:392-441 | a comment ends at the first '>' after its first double dash |
| XmlParser.XmlParser.ParsePi | src/xml_parser.c:443-492 | the event and final position of a processing instruction |
| XmlParser.XmlParser.ParseText | src/xml_parser.c:494-517 | the text up to the next '<' is one event and the read pointer backs up one character; without a '<' there is no event |
| XmlParser.XmlParser.Round | src/xml_parser.c:91-195 | a round of the main loop keeps "events raised plus events of the rest are the events of the document", and consumes input or leaves the text state |
| XmlParser.XmlParser.Parse | src/xml_parser.c:74-198 | for every NUL-free text the builder calls are, one for one and in order, the events of the token-level grammar; the loop terminates although text backs up |
| XmlModel.FlattenPairs | src/xml_tree.c:187-220 | copying attributes to a flat array and back gives the same list if and only if there are at most 32 of them |
| XmlRoundTrip.LastTextLost | src/xml_parser.c:494-517 | a text that nothing follows raises no event |
| XmlRoundTrip.DocumentRoundTrip | src/xml_parser.c:74-517 | reading any document that was written with either kind of quote and any blanks between and inside tags raises exactly one event for each of its parts, but for a text at its very end |
| XmlRoundTrip.PrintedEvents | src/xml_parser.c:209-236 | the builder calls are those of visiting the trees that were written: names and values arrive without the blanks around them |
| XmlRoundTrip.EndTagLost | src/xml_parser.c:254-372 | the end event of an empty-element tag is missing exactly when blanks follow 32 attributes |
| XmlRoundTrip.StraysAreErrors | src/xml_parser.c:111-134 | a character that cannot follow '<' is one error, and the tag behind it is read as if it were not there |
| XmlRoundTrip.DashesMissing | src/xml_parser.c:159-187 | every character in front of the first dash of a comment, and one in place of the second, is an error; the comment is read all the same |
| XmlRoundTrip.Unfinished | src/xml_parser.c:318-517 | input that ends inside a tag name raises the start or instruction event; inside an end tag or a comment it raises none |
| XmlTree.ReplayTree | src/xml_tree.c:187-249 | the events of visiting a tree, fed to a builder in any state, append an equal tree under the current node and return to that node |
| XmlTree.ReplayForest | src/xml_tree.c:187-249 | the same for any forest whose nodes have at most 32 attributes |
| XmlTree.TakesBalanced | src/xml_builder_tree.c:40-60 | a builder takes a sequence of calls if and only if no end tag comes while no element is open |
| XmlTree.ErrorsIgnored | src/xml_builder_tree.c:94-99 | reported errors leave no trace in the tree |
| XmlBuilder.TreeBuilder.constructor | src/xml_builder_tree.c:114-135 | an empty store with the root element |
| XmlBuilder.TreeBuilder.AddChild | src/xml_tree.c:167-185 | the sibling chain of the current node grows by the new node at its end, and all other chains stay |
| XmlBuilder.TreeBuilder.Handle | src/xml_builder_tree.c:40-99 | each builder call is the abstract step on the tree; false exactly when the builder's assertion fails |
| XmlBuilder.TreeBuilder.Feed | src/xml_builder_tree.c:40-99 | any sequence of builder calls is the abstract run |
| XmlBuilder.TreeBuilder.GetTree | src/xml_builder_tree.c:137-149 | hands out the first of the root's children, which stay a chain of siblings with the same trees below them, and the root forgets them |
| XmlBuilder.TreeBuilder.FlatAttrs | src/xml_tree.c:195-218 | the flat attribute array, cut at 64 strings |
| XmlBuilder.TreeBuilder.VisitBelow | src/xml_tree.c:187-241 | following links raises the events of the tree below the node |
| XmlBuilder.TreeBuilder.Visit | src/xml_tree.c:187-249 | following children and siblings raises the events of the forest from that node on, for children of a node and for roots that were handed out |
| XmlBuilder.Replay | src/xml_tree.c:187-249 | visiting a chain of siblings of one builder with another builder as visitor appends an equal forest under the latter's current node |
| XmlBuilder.TreeBuilder.Find | src/xml_tree.c:319-341 | the index-th child element of that name, or NULL |
| XmlBuilder.NamedTrees | src/xml_tree.c:319-341 | the nodes so numbered are the child elements of that name in document order |
| XmlBuilder.ReadDocument | src/xml_parser.c:74-198 | text to tree: parsing a document written in any layout with a fresh builder rebuilds exactly the trees it means, but for a final text |
| Digits.NumeralValue | src/zlog/src/buf.c:291-294 | the digits written denote the number |
| Digits.PaddedValue | src/zlog/src/buf.c:296-305 | zero padding does not change the number |
| Digits.NumeralShape | src/zlog/src/buf.c:279-294 | only digits, lower-case above nine, and no zero in front |
| Digits.WordLengths | src/zlog/src/buf.c:279-294 | 32-bit and 64-bit numbers fit the scratch arrays of the writers |
| ZlogBuf.AppendBounded | src/zlog/src/buf.c:516-556 | bounded appends compose: writing piece by piece shows what one write of everything shows, and a full buffer never changes again |
| ZlogBuf.CutIsFinal | src/zlog/src/buf.c:152-163 | stopping at the write that hits the limit shows what going on would show |
| ZlogBuf.CutShape | src/zlog/src/buf.c:152-163 | a cut text agrees with what was written up to the mark, and ends in the mark or is the beginning of it |
| ZlogBuf.AdjustedShape | src/zlog/src/buf.c:559-646 | character by character: the text up to its maximum at the left or right end, spaces for the rest |
| ZlogBuf.ZlogBuf.New | src/zlog/src/buf.c:98-149 | which sizes and marks are refused |
| ZlogBuf.ZlogBuf.Truncate | src/zlog/src/buf.c:152-163 | the end of the contents is overwritten by the mark, or by its beginning |
| ZlogBuf.ZlogBuf.Resize | src/zlog/src/buf.c:171-216 | contents kept; grows by enough, or to the limit and says so |
| ZlogBuf.ZlogBuf.Vprintf | src/zlog/src/buf.c:218-275 | formatted output is a bounded append (section 7.19.6.5 of C99), an encoding error changes nothing |
| ZlogBuf.ZlogBuf.Digitize | src/zlog/src/buf.c:344-372 | the digit loop leaves the numeral right-aligned in the scratch array |
| ZlogBuf.ZlogBuf.PrintfDec32 | src/zlog/src/buf.c:279-342 | a bounded append of the zero-padded decimal numeral |
| ZlogBuf.ZlogBuf.PrintfDec64 | src/zlog/src/buf.c:344-433 | a bounded append of the zero-padded decimal numeral |
| ZlogBuf.ZlogBuf.PrintfHex | src/zlog/src/buf.c:435-513 | a bounded append of the zero-padded hexadecimal numeral |
| ZlogBuf.ZlogBuf.Append | src/zlog/src/buf.c:516-556 | a bounded append of the string |
| ZlogBuf.ZlogBuf.AdjustAppend | src/zlog/src/buf.c:559-646 | a bounded append of the string cut and padded to its widths |
| ZlogBuf.ZlogBuf.CutAdjusted | src/zlog/src/buf.c:604-624 | at the limit, both ways of sharing out the room left between text and padding write the beginning of the padded text |
| ZlogBuf.ZlogBuf.PadNumber | src/zlog/src/buf.c:296-341 | zeros and digits are a bounded append, also when the room left ends among the zeros |
| ZlogBuf.ZlogBuf.PerformAll | src/zlog/src/buf.c:152-646 | after any writes of any kinds the contents are the concatenated pieces if they fit, else their first size_max-1 characters ending in the mark; initial size and growth do not matter |
| HexDump.LineShape | src/zlog/src/spec.c:285-328 | every line below number 10^10 is 80 characters, its hex cells at columns 14 to 61 |
| HexDump.DumpDecodes | src/zlog/src/spec.c:266-346 | a dump of n bytes has max(1, ceil(n/16)) lines of fixed width, and decoding its hex cells gives the bytes back |
| HexDump.LineShows | src/zlog/src/spec.c:285-340 | line k shows its number, and in its last 16 columns the printable bytes as themselves, dots for the others and spaces behind the last |
| HexDump.DumpLines | src/zlog/src/spec.c:266-346 | behind the header a dump is these lines in order |
| HexDump.WriteLines | src/zlog/src/spec.c:282-346 | the nested loops write the dump line by line or stop at the limit |
| HexDump.WriteHex | src/zlog/src/spec.c:266-346 | the loops together are one bounded append of the dump, whether or not they run to the end |
| HashTable.HashTable.constructor | src/zlog/src/zc_hashtable.c:39-70 | an empty table |
| HashTable.HashTable.Find | src/zlog/src/zc_hashtable.c:157-169 | NULL exactly for keys not in the map, else the entry of the key |
| HashTable.HashTable.Get | src/zlog/src/zc_hashtable.c:171-183 | map lookup |
| HashTable.HashTable.Put | src/zlog/src/zc_hashtable.c:185-238 | map update; buckets stay acyclic with matching prev and next links, every entry in bucket hash mod size, nelem the size of the map, 10(nelem-1) <= 13 tab_size |
| HashTable.HashTable.AddEntry | src/zlog/src/zc_hashtable.c:216-234 | a new binding in front of its bucket |
| HashTable.HashTable.Rehash | src/zlog/src/zc_hashtable.c:120-155 | the table doubles and no binding changes |
| HashTable.HashTable.MoveEntry | src/zlog/src/zc_hashtable.c:138-147 | relinking one entry keeps the half-moved table consistent |
| HashTable.HashTable.Remove | src/zlog/src/zc_hashtable.c:240-279 | map removal, nothing for a missing key |
| HashTable.HashTable.Clean | src/zlog/src/zc_hashtable.c:97-118 | the empty map |
| HashTable.HashTable.Begin | src/zlog/src/zc_hashtable.c:281-294 | the first entry in iteration order |
| HashTable.HashTable.Next | src/zlog/src/zc_hashtable.c:296-313 | the following entry in iteration order, NULL after the last |
| HashTable.VisitsOnce | src/zlog/src/zc_hashtable.c:281-313 | the iteration order contains every binding of the map exactly once |
| Rules.MasksAreShifts | src/zlog/src/rule.c:656-667 | the bit masks are the shifts of the source |
| Rules.FillBitmap | src/zlog/src/rule.c:653-671 | the 32 bytes for each comparison and level |
| Rules.NewRule | src/zlog/src/rule.c:653-671 | the bitmap of a new rule is set for exactly the levels that `zlog_rule_output` passes on |
| Rules.BitmapMeans | src/zlog/src/category.h:45-46 | the bit that is tested for a level is set for "*", for levels from, equal to or other than the rule's, as its comparison character says |
| Rules.MatchIsCover | src/zlog/src/rule.c:981-1009 | the matching code takes "*", equal names, and for a pattern "aa_" exactly "aa" and what starts with "aa_" |
| Rules.MatchingIs | src/zlog/src/category.c:85-97 | the matching rules are, in order, those for "*", for the very name, and for a prefix that ends in '_' |
| Rules.FallsBack | src/zlog/src/category.c:99-118 | where no rule matches, the category gets the last rule for "!", or none |
| Category.OverlapAllows | src/zlog/src/category.c:60-66 | the bytewise or of bitmaps allows what either allows |
| Category.Category.ObtainRules | src/zlog/src/category.c:68-123 | on success the category has the matching rules in order, or else the last wastebin rule, and the bitmap of exactly their levels; it returns -1, and the category has none, exactly when the failing allocation is one of those it needs |
| Category.Category.UpdateRules | src/zlog/src/category.c:159-181 | the old rules and bitmap are in the backup, whether or not new ones were obtained; -1 exactly when a needed allocation fails |
| Category.Category.CommitRules | src/zlog/src/category.c:185-198 | the backup is gone, the rules stay |
| Category.Category.RollbackRules | src/zlog/src/category.c:203-228 | the backup, if any, is back in force |
| Category.Category.NeedlessLevel | src/zlog/src/category.h:45-46 | a level is rejected if and only if no rule of the category would output it |
| Category.Category.Output | src/zlog/src/category.c:232-244 | the rules that write the event, in order |
| Category.PassingIs | src/zlog/src/category.c:232-244 | the rules that write an event are, in order, those whose comparison takes its level |
| Category.NeedlessWritesNothing | src/zlog/src/category.c:232-244 | an event is written nowhere if and only if no rule outputs its level, so the bitmap test skips nothing that counts |
| CategoryTable.OrderFacts | src/zlog/src/category_table.c:74-105 | the loops over the table meet every category exactly once |
| CategoryTable.UpdateAll | src/zlog/src/category_table.c:68-82 | -1 exactly when the plan strikes some category; each category is backed up or untouched; on success all use the new rules, on failure one has none |
| CategoryTable.CommitAll | src/zlog/src/category_table.c:84-95 | every backup is gone and every category keeps its rules |
| CategoryTable.RollbackAll | src/zlog/src/category_table.c:97-108 | every category with a backup is restored from it |
| CategoryTable.UpdateThenRollback | src/zlog/src/category_table.c:68-108 | an update that stops at any category, then a rollback, restores the rules and bitmap of every category |
| CategoryTable.UpdateThenCommit | src/zlog/src/category_table.c:68-95 | a complete update and a commit leave every category with exactly the rules obtained from the new list |
| CategoryTable.Env.constructor | src/zlog/src/zlog.c:78-146 | the state after the first successful initialisation |
| CategoryTable.Env.Reload | src/zlog/src/zlog.c:220-307 | -1 exactly when the call is due and the file does not parse or the plan strikes some category; otherwise the configuration is installed in every category, from any state; from a quiet state all categories keep their rules or all get the new ones exactly when the file does not parse or the plan strikes none; a call that is not due changes nothing |
| CategoryTable.Env.Install | src/zlog/src/zlog.c:267-281 | the part of a reload after parsing, with the same exact condition |
| CategoryTable.RulesLost | src/zlog/src/zlog.c:267-291 | a reload of a parsed file without memory for the only category's rules returns -1, and the one rule the category had is gone |
| CategoryTable.NewCategory | src/zlog/src/category.c:125-155 | NULL for a name that is too long and when the rules cannot be obtained, else a category that uses the rules |
| CategoryTable.Env.FetchCategory | src/zlog/src/category_table.c:111-138 | an existing category is returned, a new one is entered with the rules of the current configuration, and no other changes; NULL when a new one cannot be made |
| TimeCache.NewSpec | src/zlog/src/spec.c:534-536 | a time conversion gets the next cache slot |
| TimeCache.ReadConf | src/zlog/src/spec.c:534-589 | time conversion i of a configuration has slot i, and the count is the number of slots |
| TimeCache.Event.constructor | src/zlog/src/event.c:61-103 | zeroed caches |
| TimeCache.Event.Reset | src/zlog/src/event.c:106-175 | a new log call has no time stamp yet |
| TimeCache.Event.WriteTime | src/zlog/src/spec.c:59-84 | the text is the uncached strftime of the event's second, except the empty text for an unused slot at second 0; the caches stay coherent |
| TimeCache.EpochLost | src/zlog/src/spec.c:66-83 | that exception happens: a new event at second 0 writes the empty text |
| TimeCache.AlwaysUncached | src/zlog/src/spec.c:59-84 | in the reference machine, which has no caches, every text of a run in which the clock never shows second 0 is the uncached strftime of the event's second |
| TimeCache.CallEnters | src/zlog/src/zlog.c:427-463 | from any state of any run of an initialised process a thread outside gets inside a log call exactly if no allocation it needs fails: one without data, two with stale data, none with current data; it then has current data and no time stamp |
| TimeCache.CallWrites | src/zlog/src/zlog.c:622-677 | a log call without failures writes one text, in the format of the configuration, for the second of the clock |
| TimeCache.CallKeepsSecond | src/zlog/src/spec.c:62-64 | as long as a log call lasts it keeps its time stamp and its configuration, whatever other threads and the clock do |
| TimeCache.ConfArrives | src/zlog/src/zlog.c:220-307 | a new configuration waits until no thread is inside, and then makes every thread's data stale |
| TimeCache.NewFormats | src/zlog/src/zlog.c:220-307 | after it every thread writes in the new formats, with none of its old texts |
| TimeCache.NothingNew | src/zlog/src/zlog.c:126-307 | a file that does not parse, a second initialisation and a reload before the first change nothing |
| TimeCache.Finished | src/zlog/src/zlog.c:309-336 | finalisation waits for the threads inside, and none gets inside afterwards |
| TimeCache.FractionStamps | src/zlog/src/spec.c:112-126 | a fraction takes the time stamp only if there is none |
| TimeCache.CallEnds | src/zlog/src/zlog.c:670-677 | a log call ends for its thread alone, and a thread that ends takes its own data along |
| TimeCache.Process.DoInit | src/zlog/src/zlog.c:126-166 | the reference step: a successful initialisation raises the version, so no thread's caches count as current |
| TimeCache.Process.DoReload | src/zlog/src/zlog.c:220-307 | the reference step: a successful reload installs the configuration and raises the version |
| TimeCache.Process.DoFini | src/zlog/src/zlog.c:309-336 | the reference step: the process is no longer initialised |
| TimeCache.Process.Renew | src/zlog/src/thread.c:75-192 | a thread gets fresh caches for the current configuration that no other thread shares |
| TimeCache.Process.Fetch | src/zlog/src/zlog.c:427-463 | the thread's data is current afterwards, new or rebuilt where it was missing or stale, and other threads are untouched; when it succeeds is said by CallEnters |
| TimeCache.Process.DoBegin | src/zlog/src/zlog.c:622-649 | the reference step: a log call starts only with current caches and without a time stamp |
| TimeCache.Process.Convert | src/zlog/src/spec.c:59-84 | a time conversion inside a log call uses a slot within bounds, of its own thread only, and all caches stay right for the configuration in force |
| TimeCache.Process.DoTime | src/zlog/src/spec.c:59-84 | the reference step: the conversion's own format, the event's second, and the text for them |
| TimeCache.Process.DoFraction | src/zlog/src/spec.c:112-126 | the reference step: a fraction may be the first to take the time stamp |
| TimeCache.Process.Perform | src/zlog/src/zlog.c:126-677 | every step does to the process what it does to the reference machine, and writes the same |
| TimeCache.Process.Run | src/zlog/src/zlog.c:220-677 | for every schedule of log calls of any threads, initialisations, reloads and finalisations, the output is exactly that of the reference machine, and so nothing but uncached texts unless the clock shows second 0 |
| ArrayList.ArrayList.Expand | src/zlog/src/zc_arraylist.c:69-87 | the size doubles at least, the contents stay, the new part is NULL |
| ArrayList.ArrayList.Set | src/zlog/src/zc_arraylist.c:89-102 | the slot is set, slots jumped over are NULL |
| ArrayList.ArrayList.Add | src/zlog/src/zc_arraylist.c:104-107 | the contents grow by one at the end |
| ArrayList.ArrayList.InsertInner | src/zlog/src/zc_arraylist.c:110-128 | insertion at a position, or filling a NULL slot |
| ArrayList.ArrayList.SortAdd | src/zlog/src/zc_arraylist.c:130-144 | insertion in front of the first element that compares greater |
| Rotater.InsertIndex | src/zlog/src/rotater.c:187-190 | with the one-sided comparison of indices, sorted insertion keeps the list strictly increasing |
| Rotater.ListsUnique | src/zlog/src/rotater.c:192-241 | a directory has one sorted listing only |
| Rotater.Rotater.AddArchiveFiles | src/zlog/src/rotater.c:192-241 | for any order of directory entries, the list holds every archive once, sorted by index |
| Rotater.Rotater.RollFiles | src/zlog/src/rotater.c:296-356 | exactly which archives exist and what they contain after a rolling rotation, or after a system call that failed at any position, also when archives are overwritten |
| Rotater.Rotater.SeqFiles | src/zlog/src/rotater.c:243-293 | the same for a sequence rotation |
| Rotater.Rotater.Lsmv | src/zlog/src/rotater.c:438-477 | listing and moving together |
| Rotater.Rotater.Rotate | src/zlog/src/rotater.c:549-584 | nothing happens to a file that is small enough with the next message; it fails only if a system call fails |
| Rotater.RollLossless | src/zlog/src/rotater.c:302-335 | all kept archives survive if and only if none of them lies in a gap beyond its own place |
| Rotater.GapLoses | src/zlog/src/rotater.c:302-335 | with only the indices 2 and 3 in use, the rotation leaves the content of 3 as archive 1 and that of 2 is gone |
| Rotater.LostArchive | src/zlog/src/rotater.c:296-356 | a run in which that happens |
| Rotater.RollRefines | src/zlog/src/rotater.c:296-356 | without such a gap the rotation is one step of a bounded newest-first queue: the first max_count of the log file followed by the old archives, or all of them |
| Rotater.RollStopped | src/zlog/src/rotater.c:296-356 | when position and index differ by at most one, a rotation stopped anywhere keeps that so, and loses only archives past the limit |
| Rotater.SeqBase | src/zlog/src/rotater.c:263-290 | the new archive has an unused index above all others, the survivors keep their order and contents, and at most max_count + 1 remain |
| Rotater.RollingOutcome | src/zlog/src/rotater.c:296-356 | a rotation of a directory that shows a log gives a directory that shows the log after one queue step, or after losing only what was to go |
| Rotater.SequenceOutcome | src/zlog/src/rotater.c:243-293 | the same for a sequence rotation: the oldest archives go, the new one comes last |
| Rotater.Perform | src/zlog/src/rotater.c:540-584 | one write or rotation of either kind |
| Rotater.Run | src/zlog/src/rotater.c:243-584 | from a directory without archives, any run of writes and rotations of one kind with any failing system calls keeps strictly increasing indices, dense ones under rolling rotation, no text is lost but with archives past the limit (all text written is the archived history followed by the log file, and with one limit the newest max_count - 1 of the history are kept, max_count under sequence rotation), and without failures the directory is exactly the abstract log |
| Rotater.NewestKept | src/zlog/src/rotater.c:243-356 | with one limit throughout, the archives are the newest max_count of the whole history, newest first, or under sequence rotation the newest max_count + 1, oldest first |
| Rotater.LoggedInGroups | src/zlog/src/rotater.c:560-577 | texts written one by one, each behind its rotation, end up in groups, one for each archive and the log file: none above the limit except for a single text and an earlier log file, and none that could have taken the next text |
| Rotater.OutputOne | src/zlog/src/rule.c:150-197 | a rule writes first, and the file is rotated afterwards exactly if the text alone fits below the limit but another of that length would not |
| RotaterLock.StepKeeps | src/zlog/src/rotater.c:480-538 | every step of every thread keeps: mutex owners are the threads inside, and the critical ones' process owns the file lock |
| RotaterLock.RunKeeps | src/zlog/src/rotater.c:480-538 | so it holds after every schedule |
| RotaterLock.MutualExclusion | src/zlog/src/rotater.c:480-584 | in every schedule at most one thread of all processes is between a successful trylock and the release of the file lock |
| RotaterLock.NothingKept | src/zlog/src/rotater.c:496-512 | a thread whose trylock has failed holds no mutex |
| RotaterLock.GivenBack | src/zlog/src/rotater.c:498-512 | after a failed fcntl the next step gives the mutex back |
| RotaterLock.TrylockSucceeds | src/zlog/src/rotater.c:482-518 | without failures a trylock succeeds exactly if no thread of the process is inside and no other process has the file |
| RotaterLock.UnlockReleases | src/zlog/src/rotater.c:520-538 | an unlock without failures frees the file and the mutex |
| Connection.WorkerKeeps | src/connection.c:356-421 | every step of the worker keeps the protocol invariant, wherever the guard is |
| Connection.GuardKeeps | src/connection.c:427-460 | every step of the guard keeps it, wherever the worker is |
| Server.ListenerKeeps | src/server.c:33-65 | every step of a listener keeps the free list, the ownership of connections and all protocols |
| Server.GuardianKeeps | src/server.c:67-83 | every step of the guard thread does |
| Server.RunKeeps | src/server.c:33-83 | so the invariant holds after every schedule |
| Server.CreateServer | src/server.c:95-112 | the list set-up establishes it, for any positive number of connections |
| Server.SomethingFree | src/server.c:44-49 | with as many listeners as connections, a listener that holds none finds a non-empty free list |
| Server.AssertionsHold | src/server.c:46-56 | in every schedule every assertion of the two files holds when it is reached, and a new run finds fd = -1 and timedout = 0 |
| Server.OnePlace | src/server.c:41-62 | in every schedule a connection is on the free list exactly once and held by nobody, or not on it and held by exactly one listener |
| Server.ClosedOnce | src/connection.c:285-460 | in every schedule the descriptors a connection has closed are those of its runs that reached RUNNING, each once and in order, all of them whenever it is REUSEABLE |
| ServerProgress.NobodyCutOff | src/connection.c:427-460 | in every schedule in which no run is overdue no run is marked, the guard closes nothing, and a descriptor stays stored until its own worker has closed it |
| ServerProgress.OverdueCutOff | src/connection.c:436-447 | an overdue run is marked and its descriptor closed once by the guard's next steps, whatever the listeners do between them |
| ServerProgress.TimeoutEnds | src/connection.c:379-447 | a worker that does not wait for the mutex then leaves its run with its next two steps, and the guard goes on |
| ServerProgress.WaitForEver | src/connection.c:217-227 | a worker that does wait for it, to finalize a request, and the guard wait for each other in every continuation |
| ServerProgress.BothWaitReached | src/connection.c:379-447 | a schedule from a new server that gets there |
| ServerProgress.RunsOnce | src/connection.c:356-421 | a run serves any number of requests, closes its descriptor once and leaves the connection reuseable |
| ServerProgress.RunFails | src/connection.c:229-243 | a run without its first request leaves the connection alone; one without a further request ends and closes |
| ServerProgress.WholeRound | src/server.c:33-65 | a listener that is let do its work accepts the next descriptor, serves and closes it, and puts the connection back where it was |
| HttpHeader.ParseIsFold | src/http_request.c:304-405 | the headers of a block are its lines folded through `http_header_set` |
| HttpHeader.ParseAppend | src/http_request.c:315-405 | text that arrives later never changes what was parsed; an unfinished line is parsed again from its start |
| HttpHeader.ParsePrefix | src/http_request.c:315-405 | a text finishes the block exactly when it reaches its end, with the same result whatever follows |
| HttpHeader.BlockRoundTrip | src/http_request.c:304-405 | a block written in any layout, with or without carriage returns, is read whole, ends at its blank line whatever comes behind it, and gives exactly the names and values that were written |
| HttpReceive.HeaderBuf.FindEol | src/http_request.c:18-28 | the end of the line, or NULL for an unfinished one |
| HttpReceive.HeaderBuf.GetToken | src/utils.c:83-104 | the token between delimiters, one NUL written behind it, nothing else changed; for any delimiters and any string |
| HttpReceive.HeaderBuf.SetHeader | src/http.c:463-485 | on references into the buffer: the first stored name that starts with the new one gets the value, else a header is added |
| HttpReceive.HeaderBuf.Line | src/http_request.c:330-399 | the in-place NULs of a line leave all stored headers readable, and add the one the line means |
| HttpReceive.HeaderBuf.ParseHeaderLine | src/http_request.c:304-405 | headers, position and return value are those of the parse of the unread text |
| HttpReceive.HeaderBuf.ProcessHeaders | src/http_request.c:600-659 | for every way `recv` splits a well-formed block that fits the buffer, headers and final position are those of one parse of the whole text, and nothing behind the block is lost |
| HttpBody.ReceiveFixed | src/http_request.c:870-945 | the body is the first content_len bytes of leftover and stream for every split; the capacity assertion never fails; which status an error sets |
| HttpBody.FixedBuffer | src/http_request.c:879-912 | a buffer with room for the body that starts with the leftover, in new memory or shared with the header buffer |
| HttpBody.MakeRoom | src/http_request.c:806-840 | a full buffer is replaced with its text kept, and stays full only if the sizes are stuck |
| HttpBody.LimitIs | src/http_request.c:806-840 | how capacities grow from one buffer to the next, up to the first above the limit |
| HttpBody.ReceiveOnce | src/http_request.c:806-858 | one round of that loop: refused, failed, at the end with everything that is read, or further on |
| HttpBody.ReceiveAll | src/http_request.c:797-863 | a body read to the close is the whole stream if and only if the buffers are roomy, else exactly its first max(header room, content_body_buf_size) bytes; it is refused exactly when it fills the first capacity above max_content_len that the buffers grow to; it is never longer than max(header room, content_body_buf_size, max_content_len + max_content_len/2) |
| HttpBody.SecondByteLost | src/http_request.c:818-858 | with room for one byte each, the body "ab" is received as "a" |
| HttpBody.ProcessBody | src/http_request.c:785-945 | nothing is read for HEAD and for an empty body; for the other cases what is received, when, and which status an error sets |
| Uwsgi.CalcPacketLen | src/module_uwsgi.c:107-169 | the 16-bit length is the total modulo 65536, so it is the total if and only if that is below 65536 |
| Uwsgi.HeaderVarsIs | src/module_uwsgi.c:220-259 | a header is left out exactly if its name begins with Content-Type or Content-Leng in either case; the others are sent behind HTTP_ in capitals with '_' for '-', in order |
| Uwsgi.VarLayout | src/module_uwsgi.c:75-105 | the bytes of a variable: two lengths, low byte first, each in front of its text |
| Uwsgi.WrappedLength | src/module_uwsgi.c:107-169 | a request with a document root of 65536 characters, for which the length is too small |
| Uwsgi.PutNumber | src/utils.c:153-159 | two bytes, the low one first |
| Uwsgi.AddParam | src/module_uwsgi.c:75-105 | one more variable behind those already written, for C strings whose lengths match their contents, as the source asserts |
| Uwsgi.AddHeader | src/module_uwsgi.c:234-258 | one more header, renamed in place |
| Uwsgi.AddHeaders | src/module_uwsgi.c:220-259 | all headers but Content-Type and Content-Length, renamed, in order |
| Uwsgi.WritePacket | src/module_uwsgi.c:182-262 | below 65536 bytes the precomputed length equals the bytes written, and decoding the block gives the CGI variables and then the renamed headers in order |
| Uwsgi.RoundTrip | src/module_uwsgi.c:75-105 | decoding undoes encoding for any variables that fit their length fields |

## Left out

- XmlParser.XmlParser.StrDup: says nothing about tokens of 128 characters and more, which the buffer growth of the source may not fit.
- XmlParser.XmlParser.Parse: leaves open what a builder receives for such tokens.
- XmlParser.XmlParser.ParseHead: says nothing about the name a builder receives when the input ends inside a tag name, because the source then points at whatever is in its buffer.
- XmlParser.StrTrim: the character in front of the whole buffer, which the source looks at when the very first token is empty, counts as no space.
- XmlRoundTrip.DocumentRoundTrip: text inside a tag that is neither a name, an attribute nor blanks, tags with more than 32 attributes and two texts side by side are not among the documents that are written.
- XmlBuilder.ReadDocument: the reader records its builder calls and the builder is fed with them afterwards; in the source they alternate.
- HashTable.HashTable.Put: entries, like the nodes of XmlBuilder.TreeBuilder, live in a growing store and are linked by index instead of by pointer; freed entries stay in it. Failing allocation of an entry or a table is not modelled, nor are the callbacks that free keys and values. The load factor 1.3, like the growth factor 1.5 of ZlogBuf.ZlogBuf.Resize, is an exact fraction.
- ZlogBuf.ZlogBuf.Resize: failing `realloc` is not modelled.
- Rules.NewRule: the level is resolved and between 0 and 255; the parsing of the rule line is not modelled.
- Category.Category.NeedlessLevel: the bitmap is read at rest; the source also reads it without the lock while a reload is under way.
- Category.Category.ObtainRules: the plan of failures lets every added rule fail; the source allocates only when the list outgrows its size.
- CategoryTable.NewCategory: a failing allocation of the category itself is not modelled.
- CategoryTable.Env.FetchCategory: a failing entry of the new category in the table, which gives NULL too, is not modelled.
- CategoryTable.Env.Reload: a configuration whose rules point to freed memory after a failed update is not modelled, only that some category then has no rules.
- TimeCache.Process.DoReload: a reload whose category table update fails is not a case.
- TimeCache.Process.Run: reloads whose category table update fails are not among the steps; the version is an unbounded number, and message buffers of a thread are not modelled.
- ArrayList.ArrayList.Set: an index of twice the size or more, for which the source makes too little room, is excluded.
- ArrayList.ArrayList.SortAdd: lists with NULL slots, on which the comparison of the source is not defined, are excluded.
- Rotater.Rotater.AddArchiveFiles: every index has one canonical name, and names that match the pattern without a number, which the source lists with index 0, are passed over; path lengths, the pattern itself and index overflow are not modelled.
- RotaterLock.MutualExclusion: one rotater for each process, so the closing of the lock file by a reload is not modelled.
- Connection.WorkerKeeps: the worker, the guard and the listeners are steps on values, since threads interleave; upstream abort, request pools and their lifetime are not modelled, and no fairness of the scheduler is assumed.
- Server.CreateServer: at least one connection; with none the source reads past its array.
- Server.ClosedOnce: says nothing about the descriptor of a run that fails before it is RUNNING, which the source does not close.
- HttpReceive.HeaderBuf.ParseHeaderLine: lines without a name or a colon and lines with a NUL are excluded, because the search for the colon then leaves the line; so is the switch to a large header buffer.
- HttpReceive.HeaderBuf.ProcessHeaders: the same well-formed lines, in a block that fits the buffer.
- HttpReceive.HeaderBuf.Line: only well-formed lines.
- HttpHeader.ParseIsFold: no map-like law of headers is claimed, since names are compared by prefix.
- Uwsgi.WritePacket: totals of 65536 bytes and more are excluded, for which the buffer of the source is too small, and strings with a NUL inside, whose lengths do not match their contents.
- HttpBody.ReceiveFixed: failing allocation is not modelled.
- Request line and URL parsing, static files, error pages, content types, vhost and location matching: easy members or foreign calls.
- The configuration files of the server and of zlog, formats and the other conversions of a log line, MDC, records, syslog and pipes: scanning code and finite tables.
- Pools, arrays, sockets, signals, processes and the main program.
