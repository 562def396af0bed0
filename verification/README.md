# Verified models of the MariaDB client tools

A Dafny 4.11 model of the parts of the MariaDB client tools that are protocols, lexers or
in-place buffer algorithms, with proofs of what they are for. `dafny verify dfyconfig.toml`
checks everything.

| file | component |
|---|---|
| `Text.dfy` | characters and zero-terminated strings, as the tools see them |
| `ArgParser.dfy` | `get_arg`: the argument of a client command, checked or unescaped in place |
| `Splitter.dfy` | `add_line`, `find_command`, `com_delimiter` as a pure scanner |
| `InPlace.dfy` | `add_line` on a line that stands in a larger array, read and written at two positions; refines `Splitter` |
| `SplitterFacts.dfy` | facts about every run of the splitter, and when it leaves the line |
| `Statements.dfy` | a script printer, independent of the scanner, that the splitter undoes |
| `Lookup.dfy` | `find_command`: which printed command lines are commands |
| `LineReader.dfy` | the growing, shifting, refilled buffer of `client/readline.cc` |
| `Batch.dfy` | `read_and_execute` in batch mode as functions of the lines, and of the lines in the reader's buffer |
| `Scripts.dfy` | whole scripts with command lines and changing delimiters |
| `Quit.dfy` | leaving the client in the middle of a statement |
| `Overwrite.dfy` | what it means when a line overwrites the first byte of the next one |
| `Execute.dfy` | `read_and_execute` itself: each line executed where it stands in the reader's buffer |
| `CompletionHash.dfy`, `Completer.dfy` | the prefix index for tab completion, and its generator |
| `InsertBatching.dfy` | extended INSERTs of `mysqldump` |
| `DumpServer.dfy`, `DumpTrace.dfy`, `Dump.dfy` | the consistent-dump protocol of `mysqldump` against a server that other clients use: the server, the commands and what their order guarantees, and the program |
| `Escaping.dfy` | the two `field_escape` functions and CDATA printing |
| `LoadData.dfy`, `RowFilter.dfy`, `Flashback.dfy` | the event state machines of `mysqlbinlog` |
| `ImportThrottle.dfy` | the worker threads of `mysqlimport --use-threads` |

How the outside appears:

- The server and the client commands that `add_line` calls are an arbitrary function
  (`Env.world`) of everything sent so far. It may fail, change the buffer, the delimiter and the
  quoting rules. `DELIMITER`, `CLEAR` and `QUIT` are modelled themselves.
- `my_read` returns any positive number of bytes that the file has and the caller asked for.
- Between any two commands of `mysqldump`, other clients and running replication slaves commit
  any transactions, unless the global read lock is held, and rotate the log. LOCK TABLES keeps
  them from changing these tables until UNLOCK TABLES or the next LOCK TABLES.
- A run of `mysqlimport` is any interleaving of the steps of main and of the workers. Waits may
  end at any time and `pthread_create` may fail.
- Characters are single bytes. Command names are compared under an arbitrary folding
  (`Env.fold`), and the completion index works for an arbitrary hash function.

Main results, in the order of the table: `add_line` in place is the scanner, for every line and
carried state (`AddLineInPlace`); printed scripts come apart into exactly their statements
(`ScriptSplits`), also with command lines and new delimiters between them (`ScriptRuns`,
`FileRuns`); batch mode has the effect of the lines of its input, whatever the reads return,
if and only if no line has overwritten the next one with anything that matters
(`ReadAndExecute`, `RunCommands`, `RunsAlike`); the count comparison of `find_longest_match` finds the longest common prefix
(`FindLongestMatch`); greedy INSERT packing is optimal (`GreedyIsBest`); a dump with a position
recovers the live data, and the default mode dumps one state of each database (`DumpMain`); both escapes close exactly at their quote (`EscapeCloses`);
LOAD DATA streams, row filters and flashback do what they say over whole logs
(`GroupDelivered`, `LogPrinted`, `FlashbackRestores`); the thread throttle is safe and never
stuck, and every table gets its try (`ThrottleIsSafe`, `EveryTableTried`, `ReachableCanFinish`).

Where the code differs from what one would expect:

- A binary-mode line that ends inside a string with a lone backslash takes its terminator as
  data (client/mysql.cc:2412). `OverrunIff` says exactly when, for every line and state. If
  nothing was dropped from the line, the newline then lands behind the terminator
  (`SpillsExactly`). In batch mode this is the reader's buffer, and the byte there is the first
  one of the next line, if it has been read already. Only such bytes are lost (`SeenAs` in
  `ReadAndExecute`), and they are: two schedules of short reads of
  the same input dispatch different statements (`ByteLost`, and `SelectLost` for
  `select 'a\` newline `b';`). The effect is that of the input's lines if and only if no byte was
  overwritten by something else, or only blanks follow from there on (`RunsAlike`).
- `completion_hash_exists` compares the whole word that created the bucket. It tells whether the
  oldest word with a prefix is that prefix itself, not whether the word was added: with `selects`
  added before `select`, it misses `select` (`SelectMissed`). `OldestIs` has the exact condition.
- After `quit` and `\q` the unfinished statement is still sent (client/mysql.cc:2203-2212), on every
  input, exactly if what the command found in the buffer is more than white space and control
  characters (`EveryQuit`). For `\q` behind the text of a statement that is the text
  (`QuitSendsRest`, and `SelectQuit` for `select 1 \q`). With a delimiter after it, `quit` is itself
  that statement (`QuitSendsItself`).
- For the empty text on a table without words, the completion generator goes on with what an
  abandoned walk has left over (`Completions`). A table loses its words only in
  `completion_hash_clean` (`Clean`), and the client then adds the names of its commands, so this is
  never met there (`Session.Complete`).
- `mysqldump --routines` with selected tables dumps the routines before the tables, under a LOCK
  TABLES of their own, which ends the lock of the tables (client/mysqldump.c:5947-5952). In the
  default mode each table is read behind its lock if and only if whole databases are dumped, or no
  routines are (`ReadsBehindLocks`, `SelectedLocked`).
- do_start_slave_sql starts every slave that does not run, also those that did not run before
  the dump, unlike its comment says (`StartSlaves`). The slaves run as before if and only if there
  is no --dump-slave or all of them ran before (`DumpMain`).
- Outside binary mode a cut in a line longer than the buffer can fall between `\r` and `\n`, and
  the `\r` then stays (`ReturnKept`). `ReadAll` says that this is exactly when the pieces do not
  glue back to the lines.
- Without a newline at the end of the input, the last line keeps a trailing `\r`
  (client/readline.cc:70-80 with 229-267).

## Model

| member | source | states |
|---|---|---|
| `ArgParser.GetArg` | client/mysql.cc:4640-4696 | CHECK and GET accept the same lines; CHECK leaves the line alone; GET leaves exactly the unescaped argument, terminated, at the returned place, and writes nothing behind the line |
| `ArgParser.ScanCheck` | client/mysql.cc:4669-4695 | stepping over escapes finds out whether there is a closed, non-empty argument |
| `ArgParser.ScanGet` | client/mysql.cc:4669-4695 | shifting the text left under the scan leaves the same argument as unescaping it on the side |
| `ArgParser.UnescapeQuoted` | client/mysql.cc:4669-4688 | unescaping undoes quoting, for every text and each of the three quotes |
| `ArgParser.ArgumentRoundTrip` | client/mysql.cc:4640-4696 | every non-empty argument can be passed to a long command in quotes and comes back unchanged |
| `Splitter.DelimiterSet` | client/mysql.cc:4511-4536 | a delimiter given in quotes is set, cut to 15 bytes; one with a backslash is refused and the old one stays |
| `ArgParser.BareArgument` | client/mysql.cc:4640-4696 | so can one without quotes, blanks and backslashes, up to the first blank |
| `Splitter.DelimiterBare` | client/mysql.cc:4511-4536 | a delimiter given without quotes is set, cut to 15 bytes, up to the first blank |
| `ArgParser.SlashedArgument` | client/mysql.cc:4640-4696 | every non-empty argument can be passed with backslashes, to long and to short commands, bare or quoted, and comes back unchanged |
| `Splitter.DelimiterLongLine` | client/mysql.cc:4511-4520 | of a line longer than 255 bytes the first 255 count |
| `Lookup.LetterFinds` | client/mysql.cc:2248-2273 | each letter finds its command and no other letter finds one; in binary mode only `\C` does |
| `Lookup.NameFinds` | client/mysql.cc:2286-2345 | outside binary mode a name, in any case, finds its command if nothing follows it or an argument that the command takes, and otherwise none |
| `Lookup.NameAlone` | client/mysql.cc:2286-2345 | a name alone finds its command |
| `Lookup.NameWithArgument` | client/mysql.cc:2327-2338 | a name with a printed argument, bare or quoted, finds its command if and only if that takes parameters |
| `Lookup.DelimiterFinds` | client/mysql.cc:2299-2307 | DELIMITER is found although the delimiter follows it |
| `Lookup.BinaryFinds` | client/mysql.cc:2319-2324 | in binary mode DELIMITER alone is found |
| `Lookup.NoCommand` | client/mysql.cc:2299-2307 | a word that names no command finds none; neither does a text with `\g`, or with the delimiter unless it is a DELIMITER command |
| `Splitter.StepBound` | client/mysql.cc:2412-2419 | a step leaves the line only for a lone last backslash, in binary mode, inside a string |
| `InPlace.AddLineInPlace` | client/mysql.cc:2351-2637 | for every line, carried state, delimiter and world, anywhere in an array: the in-place loop dispatches the same, keeps the same buffer and carries the same state as the pure scanner; nothing outside the line and its terminator is written, except a newline in the next byte, exactly if the line spills |
| `InPlace.DoEscape` | client/mysql.cc:2397-2465 | a backslash: end of input, escape in a string, command with its parameters removed, or complaint, as in the scanner |
| `InPlace.DoDelimiter` | client/mysql.cc:2467-2509 | a delimiter: the statement, with the comment that trails it, goes out as a query or a command |
| `InPlace.DoLineComment` | client/mysql.cc:2510-2556 | a comment to the end of the line is dropped, kept, or sent at once when it stands alone |
| `InPlace.DoChar` | client/mysql.cc:2591-2609 | an ordinary character, with the space for a removed comment; the write position does not overtake the read position |
| `InPlace.DoStep` | client/mysql.cc:2369-2610 | each turn of the loop does the scanner's step and keeps the unread part of the line intact |
| `SplitterFacts.RunExclusive` | client/mysql.cc:2044-2200 | over any input, `in_string` and `ml_comment` are never both set |
| `SplitterFacts.OverrunIff` | client/mysql.cc:2412-2419 | for every line and state, the terminator is taken as data if and only if it is binary mode and the line ends, read in pairs, in a lone backslash inside a string it starts in or opens |
| `SplitterFacts.OverrunExactly` | client/mysql.cc:2412-2419 | the same for any text inside a string that it does not close |
| `SplitterFacts.TerminatorTaken` | client/mysql.cc:2412-2419 | what is kept of such a text: all of it, and the terminator exactly if it ends in a lone backslash |
| `SplitterFacts.SpillsExactly` | client/mysql.cc:2612-2630 | the newline lands behind the terminator if and only if that happens, the line is neither truncated nor ignored, and every step of the scan kept exactly the characters it took |
| `SplitterFacts.SpillsInside` | client/mysql.cc:2612-2630 | a line inside a string that it does not close: if and only if it ends, in binary mode, in a lone backslash |
| `Overwrite.SpillsOpened` | client/mysql.cc:2612-2630 | the same for a line of any code, closed strings and version comments that then opens the string itself |
| `Statements.ScriptSplits` | client/mysql.cc:2351-2637 | with comments kept or dropped: whatever strings and comments contain, a printed script of any number of lines, with strings and comments over several lines, version comments, comments to the end of a line, two dashes as code and as a comment, and short commands with their parameters, is dispatched as exactly its statements and commands, in order, and the unfinished text is kept |
| `Statements.ScanQuoted` | client/mysql.cc:2397-2419 | a printed string is one unit: nothing in it is a delimiter, a comment or a command |
| `Statements.StringUnder` | client/mysql.cc:2391-2419 | the same under ANSI_QUOTES and NO_BACKSLASH_ESCAPES, for a string written by these rules |
| `Statements.ScanItems` | client/mysql.cc:2369-2610 | scanning a printed line has the meaning of its items; version comments are kept as code, with their delimiters at work; `\N` is kept, and a letter of no command is complained of |
| `Statements.ScanShort` | client/mysql.cc:2420-2460 | a short command gets the rest of the line and the statement so far; its parameters, up to the delimiter or the end of a version comment, are removed; CLEAR alone drops the statement |
| `Statements.AddRow` | client/mysql.cc:2351-2637 | one line of a script, also one that starts or ends inside a string or a comment, or ends in a line comment, or was cut |
| `Statements.DelimiterLine` | client/mysql.cc:2612-2630 | a line of code gets a newline behind it if and only if it does not start with `delimiter`, in any case |
| `Scripts.ScriptRuns` | client/mysql.cc:2044-2200 | over every printed script with command lines: a line that names a command is one outside strings and comments, between statements, and with --named-commands also in the middle of one, and all others are text; exactly the statements and commands are dispatched, in order; DELIMITER and CLEAR do what they say |
| `Scripts.FileRuns` | client/mysql.cc:2044-2212 | the same from the text of the file, with either line end, and the unfinished statement sent at the end |
| `Scripts.CommandLine` | client/mysql.cc:2180-2196 | from any state, exactly when a line that names a command is run as one |
| `Scripts.UseShop` | client/mysql.cc:2180-2196 | one such line |
| `Scripts.SplitStored` | client/readline.cc:58-80 | splitting a file gives the lines that were stored in it |
| `Scripts.MarkSkipped` | client/mysql.cc:2094-2108 | a byte order mark on the first line is as if it were not there |
| `Scripts.ZeroByteEnds` | client/mysql.cc:2076-2092 | outside binary mode a zero byte ends the run before its line does anything, and nothing more is sent |
| `LineReader.ReadAll` | client/readline.cc:58-80 | for every input and schedule of short reads the lines are those of plain splitting; each truncated piece is too long for the buffer, not empty and holds no newline, and a command string has none; the pieces glue back to the lines, always in binary mode or from a command string, and otherwise exactly if no cut parted `\r` from `\n` |
| `LineReader.GlueSplits` | client/readline.cc:229-267 | in binary mode, gluing cut pieces and splitting at newlines agree |
| `LineReader.GlueExactly` | client/readline.cc:58-80 | outside binary mode they agree if and only if no cut parted a carriage return from its newline |
| `LineReader.ReturnKept` | client/readline.cc:58-80 | every text that ends in `\r`, cut there, is a case where they differ |
| `LineReader.LineBuffer.constructor` | client/readline.cc:113-129 | the whole file is pending |
| `LineReader.LineBuffer.FromString` | client/readline.cc:132-149 | on a new buffer, the command and one newline are pending |
| `LineReader.LineBuffer.AddString` | client/readline.cc:132-149 | on a buffer that holds commands, reading starts over and the new command is joined to them by a space |
| `LineReader.LineBuffer.BatchReadline` | client/readline.cc:58-80 | the returned line is the next raw line without newline and carriage return, terminated; what is pending afterwards is exactly the rest; no line of a command string is cut |
| `LineReader.LineBuffer.InternReadLine` | client/readline.cc:229-267 | pending input is a raw line followed by what stays pending; found exactly when something was pending; no line of a command string is cut |
| `LineReader.LineBuffer.FillBuffer` | client/readline.cc:159-226 | refilling, growing and shifting lose, repeat or reorder no byte; a last line without a newline gets one |
| `Execute.ReadAndExecute` | client/mysql.cc:2044-2212 | for every input and schedule of reads the effect is that of the pieces read, in order, and these are the input with newlines over exactly the bytes that stand right behind a line that spilled and had been read by then; for command strings, and for lines that fit the buffer, the effect is a function of the input and of where reads ended, and it is that of the input's lines if and only if nothing was damaged |
| `Execute.RunCommands` | client/mysql.cc:1855-1863 | any number of -e options have the effect of the lines of their texts, joined by spaces, always outside binary mode, and in it if and only if nothing was damaged |
| `Overwrite.RunsAlike` | client/mysql.cc:2044-2212 | for every input and every set of places where the reader had not read on: the run in the reader's buffer has the effect of the lines if and only if no byte was overwritten by something else, or only blanks follow from there on |
| `Overwrite.AlikeInText` | client/mysql.cc:2197-2212 | inside a string, the run over a text and the run that finds a newline in place of its first character end alike if and only if the text is blank |
| `Overwrite.PiecesKeep` | client/mysql.cc:2351-2637 | whatever lines follow, what stands in the statement buffer stays there until the buffer goes out with an event |
| `Overwrite.ByteLost` | client/mysql.cc:2622-2630 | for every line that spills and any input after it that is not blank, two schedules of reads have different effects |
| `Overwrite.SelectLost` | client/mysql.cc:2622-2630 | one such script, for every command table and every folding of names |
| `Overwrite.TextUndamaged` | client/mysql.cc:2412-2419 | outside binary mode nothing is ever overwritten |
| `Execute.DoTurn` | client/mysql.cc:2070-2200 | one line in the reader's buffer: zero byte check, byte order mark, command lookup, then the splitter in place; of the input still to come at most the first byte changes, exactly if the line spills and that byte has been read |
| `Quit.EveryQuit` | client/mysql.cc:2044-2212 | on every input that a QUIT ends, however written, the statement that it found in the buffer is sent after it, exactly if it is more than white space and control characters, and nothing else |
| `Quit.QuitSendsRest` | client/mysql.cc:2203-2212 | `\q` behind any printed items sends the statement that they leave unfinished, under the same condition, and the lines after it are not looked at |
| `Quit.QuitSendsItself` | client/mysql.cc:2203-2212 | a QUIT that ends with the delimiter is sent as a statement after it, under the same condition |
| `Quit.SelectQuit` | client/mysql.cc:2203-2212 | one such script |
| `CompletionHash.HashTable.Update` | client/completion_hash.cc:60-111 | for any hash function, one word joins the list of its prefix, newest first, and no other list changes |
| `CompletionHash.HashTable.AddWord` | client/completion_hash.cc:220-226 | after any sequence of calls the table indexes exactly the words added |
| `CompletionHash.HashTable.Clean` | client/completion_hash.cc:205-210 | the table indexes no word |
| `CompletionHash.HashTable.Rebuild` | client/mysql.cc:2893-2966 | the old words are gone, and the table indexes the given names, without those that were to be looked up and were found |
| `CompletionHash.GathersAll` | client/mysql.cc:2893-2966 | although a lookup can miss a word, exactly the given names are indexed |
| `CompletionHash.HashTable.Find` | client/completion_hash.cc:113-133 | the bucket of a prefix lists exactly the added words with that prefix, newest first, with their number; none if there is no such word |
| `CompletionHash.HashTable.Exists` | client/completion_hash.cc:136-156 | true exactly if the oldest word with this prefix is the word itself |
| `CompletionHash.SelectMissed` | client/completion_hash.cc:136-156 | a word that was added and is not found |
| `CompletionHash.OldestIs` | client/completion_hash.cc:136-156 | an added word is found if and only if no longer word with that prefix was added before it |
| `CompletionHash.HashTable.FindLongestMatch` | client/completion_hash.cc:173-202 | the result is the longest common prefix of all matches, with all of them |
| `CompletionHash.UnderIsMatches` | client/completion_hash.cc:220-226 | entering each word under all its prefixes makes the list under a key the list of words with that prefix |
| `CompletionHash.CountsDecide` | client/completion_hash.cc:189-199 | an extension along one word that keeps the number of matches keeps all of them, and one that loses some ends the common prefix |
| `Completer.WalkListsAll` | client/mysql.cc:2825-2865 | a walk over all chains lists every non-empty word as often as it was added |
| `Completer.Generator.Next` | client/mysql.cc:2795-2870 | each call returns the next word still to come, or NULL when there is none, also from what an abandoned walk has left over |
| `Completer.Generator.Completions` | client/mysql.cc:2795-2870 | all calls for a text give the matching words, newest first; for the empty text every non-empty word, as often as it was added, if and only if there is a word or nothing was left over |
| `Completer.UsedByWords` | client/mysql.cc:2830-2839 | a slot is in use if and only if there is a non-empty word |
| `Completer.Session.Rehash` | client/mysql.cc:2874-2966 | afterwards exactly the commands and the other names are indexed |
| `Completer.Session.Complete` | client/mysql.cc:2795-2870 | after any sequence of rebuilding and completing: all words that match, and nothing else |
| `InsertBatching.DumpRows` | client/mysqldump.c:4423-4457 | the file is the sequence of INSERT statements of the greedy packing |
| `InsertBatching.StatementLength` | client/mysqldump.c:4219 | the count exceeds the bytes written by exactly the number of rows and 3 |
| `InsertBatching.StatementText` | client/mysqldump.c:4423-4457 | rows are separated by commas, and a semicolon and a newline end the statement |
| `InsertBatching.GreedyPacks` | client/mysqldump.c:4423-4457 | every row is in exactly one statement, in order, and every statement of several rows has fewer bytes than the limit |
| `InsertBatching.GreedyIsBest` | client/mysqldump.c:4423-4457 | no order-preserving partition under the same accounting has fewer statements |
| `DumpServer.TableReplay` | client/mysqldump.c:6049-6102 | replaying the rest of the log on a table as of any point gives the table now |
| `DumpServer.UntouchedContent` | client/mysqldump.c:5536-5556 | a table that nothing since a point has changed is as of that point |
| `DumpTrace.ReadsBehindLocks` | client/mysqldump.c:5536-5556 | in the default mode each table is read behind a LOCK TABLES of it that still holds, if and only if whole databases are dumped or no routines are |
| `DumpTrace.SelectedLocked` | client/mysqldump.c:5911-5952 | for selected tables, if and only if no routines are dumped |
| `DumpTrace.ProgramsLocked` | client/mysqldump.c:5640-5655 | events and routines are dumped under locks of their own, and no lock is left behind a database |
| `DumpTrace.FlushesOnce` | client/mysqldump.c:7014-7038 | in the consistent modes the logs are flushed exactly if asked to, once, behind the global lock and before the snapshot, the position and all reads; the global lock is taken exactly if something needs it |
| `DumpTrace.FlushesEach` | client/mysqldump.c:5557-5564 | in the default mode they are flushed once for each database, and again for its views, exactly if asked to |
| `DumpTrace.PurgesIfAsked` | client/mysqldump.c:7130-7133 | the old logs are purged exactly if asked to, once, after everything was read |
| `DumpTrace.NeverUnlocks` | client/mysqldump.c:7014-7058 | a --lock-all-tables dump sends no UNLOCK TABLES |
| `DumpTrace.QuietSnapshot` | client/mysqldump.c:7014-7058 | no LOCK TABLES, log flush or global lock after the snapshot |
| `Dump.GetOptions` | client/mysqldump.c:1291-1314 | which option vectors are refused, every option of those that are not, and what main can rely on |
| `Dump.LockAndFlush` | client/mysqldump.c:7014-7038 | exactly when the global lock is held, what is sent, and that no flush is left for later in the consistent modes |
| `Dump.PinAndPrint` | client/mysqldump.c:7046-7058 | in all three modes, reads are pinned to one point of the history; the printed position is that point, and the printed slave positions are those of that point |
| `Dump.StopSlaves` | client/mysqldump.c:6131-6166 | no slave runs afterwards |
| `Dump.ShowSlavePositions` | client/mysqldump.c:6192-6271 | stopped slaves stand where they stood at the pinned point |
| `Dump.StartSlaves` | client/mysqldump.c:6273-6312 | every slave runs afterwards, and nothing else was sent |
| `DumpServer.ExecutedStays` | client/mysqldump.c:6131-6166 | slaves that do not run execute nothing, whatever others commit |
| `Dump.ShowPosition` | client/mysqldump.c:6049-6102 | the position of the locked log, or of the snapshot itself |
| `Dump.DumpDatabase` | client/mysqldump.c:5513-5655 | exactly what is sent; all rows are as of the pinned point, or, with --lock-tables, as of the one point at which the tables were locked |
| `Dump.DumpSelected` | client/mysqldump.c:5911-6045 | the same, with --lock-tables only without routines |
| `Dump.DumpDatabases` | client/mysqldump.c:5325-5352 | the same for any list of databases and tables, with events, routines and views |
| `Dump.DumpMain` | client/mysqldump.c:7005-7147 | whatever other clients and slaves commit: in the consistent modes all tables, the printed position and the printed slave positions are of one point of the history; the position is not purged, and replaying the log from it gives the live data; in the default mode the tables of each database are of one point, unless selected tables are dumped with routines; exactly the commands of the trace are sent; --delete-master-logs purges all logs that were there before; the global lock is held at the end exactly with --lock-all-tables; after --dump-slave all slaves run; the slaves run as before if and only if there is no --dump-slave or all of them ran before |
| `Dump.AsOfRecovers` | client/mysqldump.c:7005-7058 | a dump as of a point of the log recovers from there, also after anything committed later |
| `Escaping.EscapeCloses` | client/mysqldump.c:3935-3963 | for every text the literal closes exactly at the added quote, whatever follows that is not a quote, and means what the text meant |
| `Escaping.DumpFieldEscape` | client/mysqldump.c:3935-3963 | appends the quoted literal |
| `Escaping.ImportFieldEscape` | client/mysqlimport.c:632-653 | writes the same text without the quotes, in at most twice the length, and nothing outside |
| `Escaping.CdataRoundTrip` | client/mysqldump.c:2333-2356 | reading the sections by section 2.7 of XML 1.0 and joining them gives back every string between the two added newlines |
| `Escaping.PrintXmlCdata` | client/mysqldump.c:2333-2356 | the printed sections are those of the round trip |
| `LoadData.Processor.ProcessFirst` | client/mysqlbinlog.cc:542-608 | a new file, shared with no other open load, holds the first block |
| `LoadData.Processor.ProcessAppend` | client/mysqlbinlog.cc:670-708 | the block joins the file of its id alone, or is ignored with a warning |
| `LoadData.Processor.Grab` | client/mysqlbinlog.cc:369-411 | the file of an id in the right format is handed over and forgotten |
| `LoadData.ProcessLog` | client/mysqlbinlog.cc:1096-1241 | over a whole log, each event does what it would do if its file id were alone |
| `LoadData.TrackOnly` | client/mysqlbinlog.cc:369-411 | events of other ids make no difference |
| `LoadData.GroupDelivered` | client/mysqlbinlog.cc:1145-1241 | for every interleaving, executing hands over the first block and the appended blocks in order, once; later blocks are ignored |
| `LoadData.SkippedCreate` | client/mysqlbinlog.cc:1096-1144 | a filtered first block in the old format counts as if it were not there |
| `LoadData.EndsOfGroup` | client/mysqlbinlog.cc:1145-1241 | a filtered statement says nothing and its file is forgotten; one of the other format is warned of and changes nothing |
| `RowFilter.Printer.PrintRow` | client/mysqlbinlog.cc:865-946 | a rows event of an ignored map is dropped; the last one of a statement clears the ignored maps and the kept Annotate, and flushes the cache even when dropped |
| `RowFilter.Printer.ProcessEvent` | client/mysqlbinlog.cc:1242-1430 | one event: hold back an Annotate, filter a map, or print rows |
| `RowFilter.StatementPrinted` | client/mysqlbinlog.cc:865-946 | one statement prints its annotation if some map passes, the passing maps, and the rows of passing maps |
| `RowFilter.LogPrinted` | client/mysqlbinlog.cc:1242-1430 | the same over every log of well-formed statements; ignored maps, kept Annotate and cache are empty at every boundary |
| `RowFilter.LogConcerns` | client/mysqlbinlog.cc:1242-1430 | an event comes out if and only if it is a map of the database and table asked for, or rows of one in the same statement |
| `Flashback.Flashback.PrintRowEvent` | client/mysqlbinlog.cc:874-972 | rows events are collected with moved end flags and printed last to first at the end of the statement |
| `Flashback.PrintBackwards` | client/mysqlbinlog.cc:3172-3190 | the output loop reverses |
| `Flashback.Flashback.Dump` | client/mysqlbinlog.cc:1472-1493 | the file is the output of the state machine over the whole log |
| `Flashback.OutputIsReverse` | client/mysqlbinlog.cc:874-972 | for every well-formed log, statements and their events come out in exact reverse, each inverted, the end flag on exactly the last event of each |
| `Flashback.OutputBracketed` | client/mysqlbinlog.cc:3172-3190 | the output for a log of transactions is one of transactions |
| `Flashback.UndoRestores` | client/mysqlbinlog.cc:948-972 | undoing the row changes of an event in reverse restores the rows |
| `Flashback.FlashbackRestores` | client/mysqlbinlog.cc:3172-3190 | running the output after the log restores the rows as they were before it |
| `ImportThrottle.RunInv` | client/mysqlimport.c:657-791 | the invariant of counter, mutex and threads holds in every state of every run |
| `ImportThrottle.ThrottleIsSafe` | client/mysqlimport.c:751-791 | never more live workers than the limit; the counter is the live workers plus main's pending creation; the mutex excludes; no worker needs it when main destroys it |
| `ImportThrottle.OneWorkerPerTable` | client/mysqlimport.c:751-778 | each table goes to at most one worker, in order |
| `ImportThrottle.EveryTableTried` | client/mysqlimport.c:751-778 | when main is done, each table either had its worker started, which is through, or its thread could not be created, and not both |
| `ImportThrottle.WaitsAtLimit` | client/mysqlimport.c:754-760 | main waits exactly when as many workers live as may |
| `ImportThrottle.ReachableCanFinish` | client/mysqlimport.c:780-791 | from every reachable state some continuation ends, with every table imported whose thread could be created so far: the threads never block each other for good |

## Left out

- Multibyte character sets: `add_line` copies multibyte characters as they are; the model has one byte per character.
- Interactive mode, history, prompts, pager and tee, and command functions other than `delimiter`, `clear` and `quit`.
- An empty delimiter, which only `--delimiter=` can set.
- Failed allocations, read errors, `--force` and the exits after errors.
- Execute.ReadAndExecute: lines longer than the buffer are covered as the pieces they are cut into, because a cut can fall inside a delimiter or an escape and the splitter then sees two lines.
- Statements.ScriptSplits: no comment starts inside a version comment; no word ends in a dash, a slash or the start of the delimiter; what a delimiter ends is not a client command, and `\d` and `\q` are not among the short commands (`Scripts.ScriptRuns` and `Quit.QuitSendsRest` have them). `AddLineInPlace` covers all of these.
- GET_NEXT in `get_arg`; a short command at the very end of a line, which the callers never pass.
- The concrete hash function `hashpjw` and the 32-bit width of bucket counts; chains and entry lists are sequences.
- Completer.Generator.Next: the same as for `Completions`, in the line below.
- Completer.Generator.Completions: for the empty text on a table without words, a lookup that failed must not have left a NULL bucket beside old entries, because the C code follows it; that the old entries are freed memory by then is not modelled. Neither is met in the client (`Completer.Session.Complete`).
- Dump.DumpMain: tables are transactional, `information_schema` and `performance_schema`, which are not locked, are not dumped, no other client changes table definitions, purges logs or starts slaves; GTID output is not modelled, and savepoints are left out because they do not touch the snapshot.
- `create_delimiter` in `mysqldump`, whose loop does not end when the text contains `;;`.
- Flashback.FlashbackRestores: how a rows event is encoded; its inverse exchanges insert and delete, swaps the images and reverses the rows. Filtering together with `--flashback` is left out, because skipped events are still queued there.
- LoadData.Processor.UnusedName: the limit of 1000 tries and the form of the names in `create_unique_file`.
- Other filters of `mysqlbinlog` (`--server-id`, positions, times), `--rewrite-db`, XA and STOP events.
- ImportThrottle.ReachableCanFinish: shows that a run can always be finished, not that a fair scheduler finishes it; the loading itself is one step.
- Connection setup, SSL and option tables of all tools, and the tools `mysqladmin`, `mysqlcheck`, `mysqlslap`, `mysql_upgrade`, `mysql_plugin` and `mariadb-conv`.
