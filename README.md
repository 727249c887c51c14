# StackWriter and the SplunkConnection data handling, in Dafny

This project models two pieces of the Calcite (optiq) code base and proves what they promise.

**`org.eigenbase.util.StackWriter`** is a filtering `java.io.Writer` used to generate formatted SQL text.
- Every character goes through `write(int)`.
- Six directive codes change the writer's state: `INDENT`, `OUTDENT`, `OPEN_SQL_STRING_LITERAL`, `CLOSE_SQL_STRING_LITERAL`, `OPEN_SQL_IDENTIFIER` and `CLOSE_SQL_IDENTIFIER`.
- The state is an indentation depth, a "need indent" flag set by a newline, and a stack of open quote characters.
- A quote character written while `k` equal quotes are open is written `2^k` times. This is how quotes nested in SQL literals are escaped.

Files:
- `emitter_spec.dfy` (module `EmitterSpec`) gives the behaviour as functions over a `WriterState` value:
  - `Step` is one `write(int)` call, with the directives as a `Token` datatype;
  - `Run` is a sequence of calls that stops at the first exception;
  - the module's lemmas prove the properties.
- `stack_writer.dfy` (module `StackWriting`) holds the class `StackWriter`:
  - its fields are the Java fields;
  - the underlying writer is an append-only `out: seq<char>`;
  - each method, loops included, is proved to produce exactly the state that `Step` or `Run` gives.

**`net.hydromatic.optiq.impl.splunk.search.SplunkConnection`** talks to a Splunk server. The project covers only its data handling:
- `splunk_args.dfy` (module `SplunkArgs`) covers:
  - `parseArgs`, which reads `-name value` pairs into a map;
  - the construction of the export request's arguments. The `LinkedHashMap` is a sequence of key/value entries, and `put` keeps the position of an existing key.
  - The four fixed `put` calls of the source are written as one loop over the four entries, in the same order.
- `splunk_results.dfy` (module `SplunkResults`) covers the two ways the CSV rows of a search are handed over:
  - `parseResults` passes every row as wide as the header to a listener;
  - `SplunkResultIterator` chooses a mode from the header and the wanted fields in its constructor, then projects each row as wide as the header in `moveNext`.
  - The CSV reader is replaced by the rows it would return. The first row is the header.

`options.dfy` holds the `Option` type, which stands for Java's nullable references.

Where the class comment of `StackWriter` and its code disagree, the model follows the code:
- A new writer has `needIndent == false`, so the first line is never indented, whatever the depth. `EmitterSpec.FirstLineNotIndented` proves this.
- The comment's example output shows the first line indented; `EmitterSpec.ClassCommentExample` proves the output the code gives for the example.

A header the iterator does not accept (empty, or one empty name) leaves `source` at its default `0` and `sources` at `null`, and the model keeps that:
- rows of that width still yield their first cell;
- an empty header together with an empty row makes `moveNext` index outside the row;
- `parseResults` delivers nothing for such headers.

## Model

| member | source | states |
|---|---|---|
| StackWriting.StackWriter.constructor | core/src/main/java/org/eigenbase/util/StackWriter.java:119-123 | a new writer keeps its indentation unit, has depth 0, no pending indentation, no open quotes and has written nothing |
| StackWriting.StackWriter.IndentIfNeeded | core/src/main/java/org/eigenbase/util/StackWriter.java:127-134 | when an indentation is pending it writes the unit `depth` times (nothing for depth ≤ 0) and clears the flag; otherwise it writes nothing |
| StackWriting.StackWriter.CopiesOf | core/src/main/java/org/eigenbase/util/StackWriter.java:138-143 | the count starts at 1 and doubles once per open quote equal to `q`, so it is `2^k` for `k` equal open quotes |
| StackWriting.StackWriter.WriteQuote | core/src/main/java/org/eigenbase/util/StackWriter.java:136-147 | after any pending indentation, writes the quote `2^k` times, where `k` is how many equal quotes are on the stack; the stack is unchanged |
| StackWriting.StackWriter.PushQuote | core/src/main/java/org/eigenbase/util/StackWriter.java:149-152 | writes the quote over the current stack, then adds it to the top |
| StackWriting.StackWriter.PopQuote | core/src/main/java/org/eigenbase/util/StackWriter.java:154-159 | an empty stack throws with the state unchanged; a different top throws "mismatched quotes" with the top already removed; a matching top is removed and the quote written over the rest |
| StackWriting.StackWriter.Write | core/src/main/java/org/eigenbase/util/StackWriter.java:162-203 | one `write(int)` call leaves exactly the state, and throws exactly the exception, of one step of the emitter |
| StackWriting.StackWriter.WriteChars | core/src/main/java/org/eigenbase/util/StackWriter.java:206-212 | equals writing `cbuf[off..off+len-1]` one character at a time; an index outside the array throws after the characters before it are written |
| StackWriting.StackWriter.WriteString | core/src/main/java/org/eigenbase/util/StackWriter.java:215-221 | equals writing `str[off..off+len-1]` one character at a time; an index outside the string throws after the characters before it are written |
| StackWriting.PrintSqlStringLiteral | core/src/main/java/org/eigenbase/util/StackWriter.java:229-233 | writes an open-literal directive, the text and a close-literal directive, and never throws |
| StackWriting.PrintSqlIdentifier | core/src/main/java/org/eigenbase/util/StackWriter.java:241-245 | writes an open-identifier directive, the text and a close-identifier directive, and never throws |
| EmitterSpec.Indentation | core/src/main/java/org/eigenbase/util/StackWriter.java:129-131 | the indentation is `depth` copies of the unit, and empty when the depth is zero or negative |
| EmitterSpec.Slice | core/src/main/java/org/eigenbase/util/StackWriter.java:209-210 | every character a bulk write reaches is the one at `off + j`; when every index is in range it reaches exactly `len` characters (none for `len ≤ 0`), otherwise fewer than `len`, ending at the first index outside the text |
| EmitterSpec.QuoteCopies | core/src/main/java/org/eigenbase/util/StackWriter.java:136-147 | a quote (character or open directive) writes exactly `2^k` copies, with `k` the equal quotes open; open quotes of the other kind do not change `k`, another equal one doubles the count |
| EmitterSpec.CopiesAfterOpens | core/src/main/java/org/eigenbase/util/StackWriter.java:138-143 | `n` more open single quotes multiply the number of copies of a single quote by `2^n` |
| EmitterSpec.NestedOpens | core/src/main/java/org/eigenbase/util/StackWriter.java:149-152 | `n` nested literal opens write `c(2^n − 1)` quotes in all, `c` being the copies before them, and leave `n` more single quotes open |
| EmitterSpec.CloseFaults | core/src/main/java/org/eigenbase/util/StackWriter.java:154-159 | a close throws if and only if the stack is empty or its top is the other quote; the empty stack is left as is, a mismatched top is already popped; a matching close pops and writes the quote over the rest |
| EmitterSpec.OpenCloseBalance | core/src/main/java/org/eigenbase/util/StackWriter.java:170-181 | an open and its matching close around a balanced body restore the stack and write the same run of quotes |
| EmitterSpec.IndentOutdent | core/src/main/java/org/eigenbase/util/StackWriter.java:164-169 | indent and outdent change only the depth, by +1 and −1, write nothing, and the depth may go below zero |
| EmitterSpec.DepthTracksDirectives | core/src/main/java/org/eigenbase/util/StackWriter.java:164-169 | after any run that does not throw, the depth is the starting depth plus the indents minus the outdents |
| EmitterSpec.CarriageReturn | core/src/main/java/org/eigenbase/util/StackWriter.java:186-191 | `\r` is written through and changes nothing else: no indentation, flag and depth unchanged |
| EmitterSpec.RunPlain | core/src/main/java/org/eigenbase/util/StackWriter.java:162-203 | characters and indent/outdent directives never throw and never touch the quote stack |
| EmitterSpec.EscapedRun | core/src/main/java/org/eigenbase/util/StackWriter.java:192-201 | a line with no pending indentation is written character by character, each quote doubled per equal open quote |
| EmitterSpec.EscapeTextIdentity | core/src/main/java/org/eigenbase/util/StackWriter.java:198-201 | text without quote characters is written unchanged |
| EmitterSpec.RunAppend | core/src/main/java/org/eigenbase/util/StackWriter.java:209-211 | writing two token sequences one after the other equals writing their concatenation, the first exception ending both |
| EmitterSpec.PendingIndentRun | core/src/main/java/org/eigenbase/util/StackWriter.java:127-134 | with an indentation pending, a line is preceded by the indentation once and then written escaped |
| EmitterSpec.NewlineIndentsOnce | core/src/main/java/org/eigenbase/util/StackWriter.java:182-201 | after `\n` the next line is preceded exactly once by the unit repeated `depth` times, and the flag is then clear |
| EmitterSpec.StringLiteralEscaping | core/src/main/java/org/eigenbase/util/StackWriter.java:229-233 | a literal is one run of quotes, the text escaped over one more open single quote, and the same run again; the stack is restored |
| EmitterSpec.FirstLineNotIndented | core/src/main/java/org/eigenbase/util/StackWriter.java:104-134 | on a new writer an indent directive does not indent the first line, because no newline has set the flag |
| EmitterSpec.DocumentedLiteral | core/src/main/java/org/eigenbase/util/StackWriter.java:40-53 | a literal holding `c > 'alabama'`, a fragment of the example's query, comes out as `'c > ''alabama'''` on a new writer |
| EmitterSpec.CharsAppend | core/src/main/java/org/eigenbase/util/StackWriter.java:209-220 | writing a text one character at a time is writing its two halves one after the other |
| EmitterSpec.PlainRun | core/src/main/java/org/eigenbase/util/StackWriter.java:192-201 | text with no line break and no quote character, with no indentation pending, is appended exactly as it is and changes nothing else |
| EmitterSpec.ClassCommentRun | core/src/main/java/org/eigenbase/util/StackWriter.java:35-44 | the example's calls, for any indentation unit, write its first line unindented, the query escaped after two units, and the closing quote after one unit, and end with depth 0, no quote open and an indentation pending |
| EmitterSpec.ClassCommentExample | core/src/main/java/org/eigenbase/util/StackWriter.java:31-54 | with four-space indentation the example writes `execute remote(link_name,'`, then `        select * from t where c > ''alabama''`, then `    ');`, each line ended by `\n`; unlike the comment's output, the first line is not indented |
| EmitterSpec.AlabamaEscaped | core/src/main/java/org/eigenbase/util/StackWriter.java:52-53 | inside one open literal, `'alabama'` is written as `''alabama''` |
| SplunkArgs.ParseArgs | splunk/src/main/java/net/hydromatic/optiq/impl/splunk/search/SplunkConnection.java:235-246 | the loop over pairs leaves the map and throws the message exactly as the pairwise reading from the front does |
| SplunkArgs.ParseArgsKeys | splunk/src/main/java/net/hydromatic/optiq/impl/splunk/search/SplunkConnection.java:235-246 | with every name starting with `-`, nothing is thrown and the keys are the caller's keys plus each name without its first character |
| SplunkArgs.ParseArgsLastWins | splunk/src/main/java/net/hydromatic/optiq/impl/splunk/search/SplunkConnection.java:238-245 | a key holds the value following the last name for it, or `""` when that name is the last argument |
| SplunkArgs.ParseArgsUntouched | splunk/src/main/java/net/hydromatic/optiq/impl/splunk/search/SplunkConnection.java:235-246 | a key no name mentions keeps its prior value, or stays absent |
| SplunkArgs.ParseArgsFailure | splunk/src/main/java/net/hydromatic/optiq/impl/splunk/search/SplunkConnection.java:240-245 | at the first name without `-` it throws that name's message, with exactly the pairs before it stored |
| SplunkArgs.ParseArgsThrowsIff | splunk/src/main/java/net/hydromatic/optiq/impl/splunk/search/SplunkConnection.java:240-244 | it throws if and only if some name (even position) does not start with `-` |
| SplunkArgs.MainDefaultsExample | splunk/src/main/java/net/hydromatic/optiq/impl/splunk/search/SplunkConnection.java:274-282 | `--print false -search` over the six defaults of the entry point sets `-print` to false, adds `search` as `""`, and keeps the other five defaults |
| SplunkArgs.Lookup | splunk/src/main/java/net/hydromatic/optiq/impl/splunk/search/SplunkConnection.java:144-154 | `get` finds a value exactly for the keys present, and with distinct keys it is the value stored under that key |
| SplunkArgs.Put | splunk/src/main/java/net/hydromatic/optiq/impl/splunk/search/SplunkConnection.java:148-154 | `put` keeps the key order and adds a new key at the end, and keeps keys distinct |
| SplunkArgs.PutLookup | splunk/src/main/java/net/hydromatic/optiq/impl/splunk/search/SplunkConnection.java:148-154 | after `put`, the key holds the new value and every other key its old one |
| SplunkArgs.PutAll | splunk/src/main/java/net/hydromatic/optiq/impl/splunk/search/SplunkConnection.java:145-147 | copying the caller's map into the empty map gives the caller's entries in their order |
| SplunkArgs.PutFixedArgs | splunk/src/main/java/net/hydromatic/optiq/impl/splunk/search/SplunkConnection.java:148-154 | the four puts set search, output_mode=csv, preview=0 and check_connection=0, keep every other key, and append only the fixed keys that were absent, in order |
| SplunkArgs.SearchArgs | splunk/src/main/java/net/hydromatic/optiq/impl/splunk/search/SplunkConnection.java:144-154 | the request arguments hold the caller's arguments first and the four fixed ones overriding any same-named argument; the other keys keep the caller's values; keys are distinct |
| SplunkResults.IndexOf | splunk/src/main/java/net/hydromatic/optiq/impl/splunk/search/SplunkConnection.java:353-363 | `indexOf` is the first position of the field, or −1 exactly when the header lacks it |
| SplunkResults.FirstOfWidth | splunk/src/main/java/net/hydromatic/optiq/impl/splunk/search/SplunkConnection.java:383-384 | the first row as wide as the header; every row before it is skipped |
| SplunkResults.SplunkResultIterator.constructor | splunk/src/main/java/net/hydromatic/optiq/impl/splunk/search/SplunkConnection.java:341-374 | takes the first row as header; an unaccepted header leaves source 0 and no sources; one wanted field gives its index or −1; wanted equal to the header gives −2; otherwise −3 with a fresh array of per-field indices |
| SplunkResults.SplunkResultIterator.MoveNext | splunk/src/main/java/net/hydromatic/optiq/impl/splunk/search/SplunkConnection.java:380-417 | skips rows of another width and projects the first of the header's width per mode; returns false with no rows left when there is none; an index outside the row throws with current unchanged |
| SplunkResults.SplunkResultIterator.Projected | splunk/src/main/java/net/hydromatic/optiq/impl/splunk/search/SplunkConnection.java:385-406 | the switch on `source` for one row yields the projection of that row in the iterator's mode, or nothing where the row is indexed outside its bounds (see `ProjectionMeaning` for what each mode yields) |
| SplunkResults.Remap | splunk/src/main/java/net/hydromatic/optiq/impl/splunk/search/SplunkConnection.java:386-393 | the re-mapped array holds, for each wanted field, the row's cell at its header index or null where the header lacks it, and the loop fails exactly when an index falls outside the row, as projection in mode −3 prescribes |
| SplunkResults.ParseResults | splunk/src/main/java/net/hydromatic/optiq/impl/splunk/search/SplunkConnection.java:178-204 | an accepted header is passed on with every row of its width, in order; any other header passes nothing at all |
| SplunkResults.RowsOfWidthMembers | splunk/src/main/java/net/hydromatic/optiq/impl/splunk/search/SplunkConnection.java:184-193 | the listener receives a row if and only if the row is in the input and is as wide as the header |
| SplunkResults.ProjectDefined | splunk/src/main/java/net/hydromatic/optiq/impl/splunk/search/SplunkConnection.java:385-406 | with an accepted header, projecting a row of the header's width never indexes outside it |
| SplunkResults.ProjectionMeaning | splunk/src/main/java/net/hydromatic/optiq/impl/splunk/search/SplunkConnection.java:345-406 | one wanted field yields its value at its first header position, or null when absent; the whole header yields the row as is; otherwise an array with each wanted field's value, or null where the header lacks it |
| SplunkResults.IteratorMatchesListener | splunk/src/main/java/net/hydromatic/optiq/impl/splunk/search/SplunkConnection.java:383-406 | the iterator yields one value per row the listener receives, in the same order, each the projection of that row |
| SplunkResults.UnusableHeaders | splunk/src/main/java/net/hydromatic/optiq/impl/splunk/search/SplunkConnection.java:345-348 | a one-empty-name header is refused, yet the iterator yields the cell of each one-cell row; an empty header with an empty row indexes outside the row |

## Left out

- The network and HTTP side of `SplunkConnection` is not modelled: `connect`, `post`, URL formatting, session keys, `appendURLEncodedArgs` and `close`. These are I/O and foreign calls.
- CSV parsing by `au.com.bytecode.opencsv.CSVReader` is foreign code. The rows it would return are a parameter, and an `IOException` from it is not modelled.
- Logging, stack-trace capture and the swallowed `IOException` paths are not modelled.
- `printUsage` and `main` are console output and `System.exit`. Only the defaults `main` passes to `parseArgs` appear, in `SplunkArgs.MainDefaultsExample`.
- `DummySearchResultListener` is left out: it only prints and counts. The listener is modelled by what it receives (`SplunkResults.ParseResults`).
- The iterator's `reset`, which throws, and `close` are left out. `current()` is the field `current`.
- `SplunkResults.SplunkResultIterator.MoveNext`: in mode −2 the Java code makes the row array itself current. The model holds a copy of its values, so aliasing of that array is not captured.
- `SplunkResults.SplunkResultIterator.constructor`: `wantedFields` is a non-null sequence. A null list, which the Java code dereferences only for an accepted header, is not modelled.
- `SplunkArgs.SearchArgs` requires the caller's entries to have distinct keys, which every Java `Map` has.
- `RelToSqlConverterTest.java` holds only tests of classes that are not part of this model.
- `StackWriting.StackWriter.Write`: `indentationDepth` is an unbounded integer, so the 32-bit wrap-around of the Java `int` after 2^31 indents is not modelled.
- `StackWriting.StackWriter.Write` covers only character codes and the six directives. Other `int` arguments, which the Java code truncates to 16 bits when writing, are not modelled.
- `StackWriting.StackWriter.WriteQuote`: the copy count `n` is unbounded. The Java `int` overflows when 31 or more equal quotes are open, and then nothing is written.
- `StackWriting.StackWriter.WriteString` and `StackWriting.StackWriter.WriteChars` compute `off + len` without 32-bit overflow.
- `flush` and `close` of the underlying writer are not modelled. The underlying writer is the sequence `out`.
- The class comment's example goes through a `PrintWriter`. `EmitterSpec.ClassCommentExample` writes its `print` and `println` calls as the characters they hand to `write(int)`, taking the platform-dependent line separator of `println` to be `\n`; the final `pw.close()` and the `System.out` output are not modelled.
- `StackWriting.StackWriter.WriteString`, `StackWriting.StackWriter.WriteChars` and `SplunkArgs.ParseArgs`: a Java `char` is a UTF-16 code unit, while a Dafny `char` is a Unicode scalar value. Text is modelled as a sequence of whole characters, so `off`, `len` and the first-character drop of `parseArgs` count characters, and surrogate pairs and lone surrogates are not modelled.
- `StackWriting.PrintSqlStringLiteral`, `StackWriting.PrintSqlIdentifier` and `SplunkArgs.SearchArgs` take non-null strings. A null `s` makes `PrintWriter.print` write the four characters `null` between the directives (StackWriter.java lines 231 and 243), and a null `search` is stored as the value of `search` (SplunkConnection.java line 148); neither is modelled.
