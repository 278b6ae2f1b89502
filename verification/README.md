# A verification model of a small web server and of the shell it ships

The repository is a web server that runs Lua scripts.  It carries its own HTTP request parser and,
for its database, the command-line shell of SQLite.  This project models the parts of both in which
the code is intricate, in Dafny, and proves what they compute.  Where the source changes an array,
a buffer or the fields of a structure, the model does too: such a method is proved against a
function on values, and lemmas state what that function means.

| modules | what they model |
|---|---|
| `Fips202`, `LaneBits`, `Keccak` | the permutation of FIPS 202 (sections 3.2 to 3.4), its meaning bit by bit, and the unrolled, in-place form of it |
| `Sponge`, `SpongeLoading`, `Sha3Context` | the SHA-3 functions of FIPS 202 (sections 4, 5.1 and 6.1) and the context that computes them |
| `QueryStream`, `StreamBytes`, `QueryHash` | the byte stream of a query's results, told by its bytes, and its hash |
| `Csv`, `CsvReader`, `CsvImport` | the CSV writer, the reader with its two characters of lookback and growing buffer, and the import loop |
| `Strings`, `SqlText`, `SqlPrint` | SQL literals and the `replace` expressions around them |
| `Keywords`, `KeywordNames`, `Identifiers` | identifier quoting: the keyword search and the growing text |
| `CText`, `Tokenizer` | the C-string printer, and the tokenizer that cuts and resolves a command line in place |
| `Glob`, `GlobPatterns` | the pattern matcher against a declarative meaning of patterns, and that meaning told from their characters |
| `Pretty`, `PrettyLines` | the schema pretty-printer, two passes over one buffer, and where its lines break |
| `Http`, `HttpGrammar`, `HttpLanguage`, `HttpUnfinished` | the request parser as a state machine, the language it accepts, with its alphabets written out, and the requests that end too early |
| `HttpParser`, `HttpBuffer` | the parser in its own form, and the buffer it leaves to the script runner |
| `Decimals`, `Letters`, `CStrings`, `Options` | printed numbers, the letters of ASCII, NUL-terminated strings and optional values |

## How the pieces fit

*Hashing.*  `Keccak.View` reads the stored lanes as a state of the standard, for a layout that shifts with
each round; the rounds are proved one by one and the layout returns after four.  A `Context` stands
for a `Loading`, a sponge with part of a block loaded, whatever its byte order, so that the two loops
of an update and the two byte orders need one specification.  `Sha3Context.Digest` states the result for any
sequence of updates.  `QueryHash.Sha3Query` feeds the same context and so computes the hash of a
stream that `QueryStream.StreamInjective` shows to be uniquely decodable.

*What both sides share.*  A model and the statement about it use the same rotation, alphabets, character
classes and number formats.  These are pinned by laws of their own, in terms of bits, codes and characters
written out: `LaneBits`, `StreamBytes`, `HttpLanguage`, `KeywordNames`, `GlobPatterns`, `PrettyLines`, the last
sections of `CText` and `Csv`, and `SqlPrint.CharCalls`.

*CSV.*  `ReadField`, `ReadRow` and `ReadTable` describe the reader on all inputs.  The class
`ImportCtx` refines it, and the round-trip theorems are about the functions.  The prepared statement
of the import is an object that keeps its bindings, and counts in ghost state how often each was bound.

*SQL text.*  `Expr` evaluates a printed expression, leftmost replacement included, at the start of any
text.  A placeholder is safe because none of its occurrences can overlap a boundary; that an unused one is
found is a counting argument on positions.

*Command lines.*  `Tokens` is the functional tokenizer.  The in-place one writes NULs over delimiters
and resolves escapes in the same buffer; its arguments are indices that are read as C strings.

*Patterns.*  `Lex` turns a pattern into tokens, `Covers` says which piece of a text a token matches, and
`Matches` asks for a way to cut the text.  The matcher is shown to agree for all patterns, including
runs of spaces and number signs.

*HTTP.*  `Step` and `Run` are the state machine; a configuration is the buffer before and behind the
index.  `HttpGrammar` proves that the accepted texts are exactly the printed requests, and
`HttpUnfinished` which texts leave the machine waiting for more.  The class `HttpParser.Parser` refines the
machine in place, knowing of no byte behind the NUL.  `HttpBuffer` reads the pointers as C strings, before and after the script runner has written `index.lua` over the
end of the path.

## Where the code and its comments differ

- The comment at libs/sqlite/shell.c:1238 calls the hashed integers little-endian; the loop at
  libs/sqlite/shell.c:1320 stores the most significant byte first, and so does the model.
- The comment at libs/sqlite/shell.c:3525 lists `\s` as a space; the code has no such case, and
  the model gives the letter s.
- In the error state the HTTP parser reads one more character before it halts.  That read is behind the
  terminating NUL exactly for a request that ends too early.  The buffer is allocated with eight bytes for
  each character (jorgeNetwork.cpp:70), so the read stays inside of it; the model asks for one byte
  behind the NUL for these requests and for none otherwise.

## Model

| member | source | states |
|---|---|---|
| `Keccak.KeccakF1600Step` | libs/sqlite/shell.c:754-1069 | Six in-place passes of four rounds, with no lane ever moved back, turn the 25 lanes into exactly KECCAK-f[1600] (24 theta, rho, pi, chi, iota rounds of FIPS 202) of the lanes before; everything behind lane 24 is untouched |
| `Keccak.Round0` | libs/sqlite/shell.c:801-866 | Round 0 of a block reads the state in the layout of 0 rounds and leaves one textbook round of it in the layout of 1 rounds |
| `Keccak.Round1` | libs/sqlite/shell.c:868-933 | Round 1 of a block reads the state in the layout of 1 rounds and leaves one textbook round of it in the layout of 2 rounds |
| `Keccak.Round2` | libs/sqlite/shell.c:935-1000 | Round 2 of a block reads the state in the layout of 2 rounds and leaves one textbook round of it in the layout of 3 rounds |
| `Keccak.Round3` | libs/sqlite/shell.c:1002-1067 | Round 3 of a block reads the state in the layout of 3 rounds and leaves one textbook round of it in the layout of 4 rounds |
| `Keccak.Block` | libs/sqlite/shell.c:812-822 | Each of the twenty five-lane blocks writes row y of the next state to the five lanes it has just read, and leaves all other rows as they are |
| `Keccak.RowValues` | libs/sqlite/shell.c:800-1068 | The row that holds lane (x,y) after k rounds, the k-fold image under (x,y) -> (x, x+2y mod 5), in closed form; after four rounds it is y again |
| `Keccak.ViewFour` | libs/sqlite/shell.c:1002-1068 | The layout after four rounds is the standard one, so the loop can start again |
| `Keccak.HomesDistinct` | libs/sqlite/shell.c:812-866 | In every layout different lanes of the state have different places in the array |
| `Keccak.RoundConstants` | libs/sqlite/shell.c:759-772 | Every entry of the table RC is the round constant that the shift register of FIPS 202 (Algorithms 5 and 6) generates |
| `Fips202.RhoOffsetValues` | libs/sqlite/shell.c:812-866 | The rotation counts written in the rounds are the offsets that the walk of section 3.2.2 of FIPS 202 assigns to the lanes |
| `LaneBits.BitOfRotate` | libs/sqlite/shell.c:798-798 | A rotation by n moves bit z of a lane to bit (z+n) mod 64, for every n and z below 64 |
| `LaneBits.BitOfParity` | libs/sqlite/shell.c:801-805 | A bit of the sum of a column's five lanes is the parity of their bits |
| `LaneBits.BitOfChiLane` | libs/sqlite/shell.c:817-822 | A bit of the nonlinear step is a differing from the conjunction of not b and c |
| `LaneBits.BitOfTheta` | libs/sqlite/shell.c:801-810 | Bit by bit theta is the formula of section 3.2.1 of FIPS 202: each bit differs by the parities of the columns (x-1,z) and (x+1,z-1) |
| `LaneBits.BitOfRho` | libs/sqlite/shell.c:812-816 | Rho moves bit z of a lane up by the lane's offset, around the end of the lane |
| `LaneBits.BitOfPi` | libs/sqlite/shell.c:812-816 | Pi puts lane (x+3y,x) at (x,y) |
| `LaneBits.BitOfChi` | libs/sqlite/shell.c:817-822 | Chi is the formula of section 3.2.4, bit by bit |
| `LaneBits.BitOfIota` | libs/sqlite/shell.c:818-818 | Iota changes only lane (0,0), by the bits of the round constant |
| `LaneBits.BitOfStateByte` | libs/sqlite/shell.c:1154-1157 | Bit k of byte i of the state is bit (8i+k) mod 64 of lane (8i+k)/64, as the standard numbers them |
| `LaneBits.LoadedByte` | libs/sqlite/shell.c:1123-1131 | Loading a byte is the exclusive or with the lane that has this byte at its place and zeros elsewhere |
| `Sha3Context.Context.constructor` | libs/sqlite/shell.c:1076-1099 | A new context stands for the zero sponge with nothing loaded; the rate is (1600-2d)/8 for each of the four sizes, and that of 256 for size 0; the mask fits the byte order |
| `Sha3Context.Context.Update` | libs/sqlite/shell.c:1105-1137 | Whatever the byte order, the alignment and the point in the block, and whichever of the word and byte loops runs, the sponge that the context stands for has loaded exactly the given bytes, and nLoaded stays below the rate |
| `Sha3Context.Context.LoadEight` | libs/sqlite/shell.c:1112-1121 | Xoring one aligned word is loading its eight bytes, with the permutation at the end of a block |
| `Sha3Context.Context.LoadByte` | libs/sqlite/shell.c:1124-1136 | Xoring one byte through the byte-order mask is loading it in logical order |
| `Sha3Context.Context.Pad` | libs/sqlite/shell.c:1146-1153 | Both padding branches, with the jump of nLoaded, load the padding bytes of SHA-3 for the current block |
| `Sha3Context.Context.CopyHash` | libs/sqlite/shell.c:1154-1157 | The bytes behind the rate become the rate bytes of the state in logical order, also for the mask 7 |
| `Sha3Context.Context.Final` | libs/sqlite/shell.c:1144-1160 | The returned bytes are the state bytes after loading the padding |
| `Sha3Context.MaskedIsXor` | libs/sqlite/shell.c:1128-1131 | The arithmetic form of the byte mask is the exclusive or of the source |
| `Sha3Context.Digest` | libs/sqlite/shell.c:1076-1160 | For sizes 224, 256, 384 and 512 and any cutting of the message into updates the first size/8 bytes are the SHA-3 hash of the concatenation |
| `Sha3Context.PadLoaded` | libs/sqlite/shell.c:1149-1152 | Setting nLoaded to the last byte of the block has the effect of loading the zero bytes in between |
| `Sha3Context.LoadedCount` | libs/sqlite/shell.c:1132-1136 | nLoaded is the number of bytes loaded so far modulo the rate |
| `SpongeLoading.LoadConcat` | libs/sqlite/shell.c:1105-1137 | How a message is cut into updates makes no difference |
| `SpongeLoading.LoadIsAbsorb` | libs/sqlite/shell.c:1123-1136 | Loading whole blocks byte by byte is the absorbing phase of the sponge (section 4 of FIPS 202) |
| `SpongeLoading.LoadWord` | libs/sqlite/shell.c:1112-1121 | At a multiple of eight, eight byte loads are one exclusive or with a little-endian word |
| `Sponge.PaddingBits` | libs/sqlite/shell.c:1146-1153 | The one-byte case 0x86 and the case 0x06 ... 0x80 are, bit by bit, the suffix 01 followed by pad10*1, and fill the last block |
| `QueryStream.StreamInjective` | libs/sqlite/shell.c:1301-1357 | The hashed stream determines the statements' texts and all rows of typed values, with no column counts in it |
| `QueryStream.SegmentEnds` | libs/sqlite/shell.c:1308-1355 | A value's segment tells its type, its content and its own end, whatever bytes follow |
| `QueryStream.CountEnds` | libs/sqlite/shell.c:1302-1302 | A printed size and its colon are determined by the stream, whatever follows |
| `StreamBytes.NumberOfEightBytes` | libs/sqlite/shell.c:1318-1323 | The eight bytes of a number, read in base 256 with the first one counting most, are that number |
| `StreamBytes.CountDigits` | libs/sqlite/shell.c:1302-1302 | A size is written as its decimal digits in ASCII, without leading zeros, and a colon |
| `StreamBytes.SegmentBytes` | libs/sqlite/shell.c:1309-1355 | Each kind of value starts with the letter N, I, F, T or B by its ASCII code |
| `StreamBytes.StreamExample` | libs/sqlite/shell.c:1301-1357 | The bytes of a one-row result in full: S, size and statement, R, N, and T with the size twelve |
| `QueryHash.HashStepVformat` | libs/sqlite/shell.c:1203-1216 | For every size that fits an int the 50-byte buffer cuts nothing off: the whole tag, number and colon are hashed |
| `QueryHash.NumberBytes` | libs/sqlite/shell.c:1313-1337 | The shifting loop stores a 64-bit number most significant byte first behind its tag |
| `QueryHash.HashRow` | libs/sqlite/shell.c:1307-1356 | A row adds R and the segments of its columns, in order, to what has been hashed |
| `QueryHash.HashQuery` | libs/sqlite/shell.c:1301-1358 | A statement adds its sized text and its rows to what has been hashed |
| `QueryHash.Sha3Query` | libs/sqlite/shell.c:1270-1361 | A digest comes out exactly when the size is one of four and every statement prepares and is read-only, and it is the SHA-3 hash of the stream of the statements; otherwise the first error does |
| `Csv.Scan` | libs/sqlite/shell.c:1749-1757 | The scanning loop returns 0 exactly for a field that has to be quoted |
| `Csv.OutputCsv` | libs/sqlite/shell.c:1743-1772 | A field is written bare or between quotes with its quotes doubled, a NULL as the null value, followed by the separator if asked for |
| `Csv.OutputRecord` | libs/sqlite/shell.c:2077-2093 | In front of the first row the names of the columns are written, if asked for, then the row unless it has no fields; each line has separators between its fields and the row separator at its end |
| `Csv.OutputTable` | libs/sqlite/shell.c:2077-2093 | The text of a result is that of its rows, NULLs included, with the header as a first row if it is asked for and there are rows |
| `Csv.FieldRoundTrip` | libs/sqlite/shell.c:3771-3831 | Every written field is read back as it was, whether the separator, an LF, a CR LF or the end of the file follows, and the reader stands behind that end |
| `Csv.RowRoundTrip` | libs/sqlite/shell.c:3771-3831 | A written row is read back as its fields, whether an LF, a CR LF or the end of the file ends it |
| `Csv.UnquotedRoundTrip` | libs/sqlite/shell.c:3818-3828 | A text that can stand without quotes, such as a null value, is read back as it was at each of these ends; only an empty one cannot be the last of the file |
| `Csv.TableRoundTrip` | libs/sqlite/shell.c:3771-3831 | Any table of non-empty rows, written with a one-byte separator and rows ended by LF or CR LF, is read back with the same fields, row boundaries and row count; a NULL comes back as the null value, if that can stand without quotes |
| `Csv.OpenTableRoundTrip` | libs/sqlite/shell.c:3771-3831 | So is a table whose last row ends with the file |
| `Csv.NoNulls` | libs/sqlite/shell.c:1743-1772 | Without NULLs what comes back is the table itself |
| `Csv.BareFields` | libs/sqlite/shell.c:1719-1765 | A field is written without quotes exactly when it is not empty and has only characters from ! to ~ that are neither a quote nor the separator |
| `Csv.StrayQuote` | libs/sqlite/shell.c:3790-3815 | A single quote inside a quoted field, with an ordinary character behind it, is kept as text, and the field goes on to its closing quote |
| `Csv.StrayQuoteCr` | libs/sqlite/shell.c:3795-3815 | So is a single quote with a CR behind it that no LF follows, even in front of a separator |
| `Csv.TrailingCr` | libs/sqlite/shell.c:3818-3828 | A field without quotes that ends in CR keeps it in front of a separator and at the end of the file, and loses it in front of an LF |
| `Csv.NeverClosed` | libs/sqlite/shell.c:3807-3812 | A quoted field without a closing quote takes the rest of the file |
| `Csv.QuotedBody` | libs/sqlite/shell.c:3786-3817 | Inside a written quoted field the two-character lookback never sees an end |
| `Csv.ReadShortens` | libs/sqlite/shell.c:3776-3780 | Every read consumes input or reports the end of the file |
| `CsvReader.ClosingQuoteDropped` | libs/sqlite/shell.c:3795-3803 | When the lookback closes a field, backing up to the quote drops exactly the closing quote, or that quote and one CR |
| `CsvReader.ImportCtx.AppendChar` | libs/sqlite/shell.c:3746-3756 | A character is appended, and there is always room for a final NUL behind it |
| `CsvReader.ImportCtx.DropClosingQuote` | libs/sqlite/shell.c:3800-3800 | Backing up finds the last quote and never goes below index 0 |
| `CsvReader.ImportCtx.ReadQuoted` | libs/sqlite/shell.c:3786-3817 | On every input the quoted-field loop computes the functional reader's field, terminator and remaining input, and counts the row separators it consumed |
| `CsvReader.ImportCtx.ReadPlain` | libs/sqlite/shell.c:3818-3828 | On every input the unquoted branch computes the functional reader's field, terminator and remaining input, and counts the row separators it consumed |
| `CsvReader.ImportCtx.ReadOneField` | libs/sqlite/shell.c:3771-3831 | One call computes the functional reader's result in the growing buffer, puts the NUL in range behind it, and adds to nLine the row separators consumed (the row separator not being a quote) |
| `CsvImport.ImportRow` | libs/sqlite/shell.c:5157-5196 | A turn of the loop inserts, for short, exact, over-long and last rows, the row cut or filled with NULLs, every parameter bound exactly once for it; at the end of the file it inserts nothing |
| `CsvImport.Statement.Step` | libs/sqlite/shell.c:5190-5191 | An insert takes the bindings as they are and keeps them, and may happen only when each parameter has been bound once since the one before |
| `CsvImport.Import` | libs/sqlite/shell.c:5156-5197 | The loop ends, and has inserted exactly the rows that the functional import of the text gives |
| `CsvImport.InsertedRows` | libs/sqlite/shell.c:5156-5197 | The inserted rows are the rows of the text, one each, fitted to the columns |
| `CsvImport.ImportRoundTrip` | libs/sqlite/shell.c:5156-5197 | Importing a written table of nCol NUL-free columns, with rows ended by LF or CR LF, inserts that table, with NULLs as the null value |
| `CsvImport.ImportOpenRoundTrip` | libs/sqlite/shell.c:5156-5197 | So does importing a table whose last row ends with the file |
| `CsvImport.FitCases` | libs/sqlite/shell.c:5159-5189 | Fields beyond the columns are dropped and missing ones are NULL |
| `SqlText.OneCandidatePerPosition` | libs/sqlite/shell.c:1540-1542 | A position of z can start at most one of the generated strings |
| `SqlText.CandidatesRunOut` | libs/sqlite/shell.c:1540-1542 | So if the first n generated strings all occur in z, n is at most its length |
| `SqlText.UnusedString` | libs/sqlite/shell.c:1532-1544 | The search ends for every string shorter than 2^32-1, the counter never wraps, and the result is the first of zA, zB and the generated strings that does not occur in z |
| `SqlText.CandidateFits` | libs/sqlite/shell.c:1541-1541 | A generated string and its NUL fit the buffer of 20 bytes, for every value of the counter |
| `SqlText.CandidateText` | libs/sqlite/shell.c:1541-1541 | The generated string for a number is its decimal digits behind zA, in parentheses |
| `SqlText.PlaceholdersIndependent` | libs/sqlite/shell.c:1607-1614 | No occurrence of one placeholder can begin in the other or end in either across a boundary |
| `Strings.ReplaceUndoes` | libs/sqlite/shell.c:1638-1643 | Leftmost non-overlapping replacement of an independent placeholder that does not occur in the text gives back its character and touches nothing else |
| `Strings.ReplaceFirst` | libs/sqlite/shell.c:1638-1643 | Replacement replaces the first occurrence and goes on in the same way behind it |
| `Strings.ReplaceNone` | libs/sqlite/shell.c:1638-1643 | A text without the pattern stays as it is |
| `SqlText.ReplacementsUndo` | libs/sqlite/shell.c:1638-1643 | The inner replacement followed by the outer one turns the text with placeholders back into the original |
| `SqlPrint.PrintedDenotes` | libs/sqlite/shell.c:1597-1644 | Unquoting the literal and evaluating the nested replace calls gives the original text |
| `SqlPrint.ReplaceTailValue` | libs/sqlite/shell.c:1638-1643 | The evaluator reads the number of a call of char in decimal and puts the character of that code in place of the placeholder |
| `SqlPrint.CharCalls` | libs/sqlite/shell.c:1638-1643 | So char(10) stands for LF and char(13) for CR |
| `SqlPrint.PutBody` | libs/sqlite/shell.c:1616-1636 | The copying loop writes the text with quotes doubled and line ends replaced by the placeholders |
| `SqlPrint.OutputQuotedString` | libs/sqlite/shell.c:1551-1579 | The output is a SQL expression, wherever it stands, for the string |
| `SqlPrint.OutputQuotedEscapedString` | libs/sqlite/shell.c:1590-1646 | The output is a SQL expression for the string and has no CR or LF in it; its placeholders are the first unused ones, `\n` or `\012` and `\r` or `\015` being tried first |
| `Keywords.KeywordsSorted` | libs/sqlite/shell.c:666-685 | The keyword table is strictly sorted in the order of the case-insensitive comparison |
| `Keywords.CompareTransitive` | libs/sqlite/shell.c:692-702 | That comparison is transitive, which the binary search relies on |
| `KeywordNames.CompareEqual` | libs/sqlite/shell.c:692-702 | The comparison gives 0 exactly for names of equal length that are the same letter by letter up to case |
| `KeywordNames.KeywordUpToCase` | libs/sqlite/shell.c:692-702 | So a name is a keyword exactly when it is an entry of the table up to case |
| `KeywordNames.KeywordExamples` | libs/sqlite/shell.c:666-702 | As order is, in lower case, while title stands between two entries |
| `KeywordNames.WordChars` | libs/sqlite/shell.c:687-690 | A word starts with a letter or an underscore and goes on in letters, digits and underscores, each alphabet written out |
| `Identifiers.QuoteChar` | libs/sqlite/shell.c:664-704 | No quote is asked for exactly when the name is a word and no entry of the table is equal to it; the binary search misses none |
| `Identifiers.AppendedIsName` | libs/sqlite/shell.c:617-654 | What is appended with the answer of quoteChar is the name as a plain word that is no keyword, or a quoted form whose unquoting is the name |
| `Identifiers.ShellText.Append` | libs/sqlite/shell.c:617-654 | The text grows by exactly the bare or quoted string; the length stays below the allocation and a NUL stands at it |
| `CText.OutputCString` | libs/sqlite/shell.c:1651-1677 | The loop writes the escaped text between double quotes |
| `CText.UnescapeEscape` | libs/sqlite/shell.c:1651-1677 | Resolving the escapes that the printer writes gives the text back, for every string of bytes |
| `CText.UnescapeChar` | libs/sqlite/shell.c:3535-3569 | That holds byte by byte, whatever follows |
| `CText.PrintedAs` | libs/sqlite/shell.c:1655-1675 | Each byte is printed as it stands, as a letter or itself behind a backslash, or as three octal digits, by its code |
| `CText.EscapedLetter` | libs/sqlite/shell.c:3538-3551 | The letters a, b, t, n, v, f and r behind a backslash stand for the codes 7, 8, 9, 10, 11, 12 and 13 |
| `CText.EscapedOther` | libs/sqlite/shell.c:3552-3570 | Any other character but an octal digit stands for itself behind a backslash |
| `CText.EscapedOctal` | libs/sqlite/shell.c:3558-3568 | One to three octal digits stand for the byte of their value, and a fourth is text |
| `CText.EscapedLength` | libs/sqlite/shell.c:4617-4621 | The quoted-token loop stops at the quote behind a printed string and nowhere before |
| `CText.ArgumentsTokens` | libs/sqlite/shell.c:4612-4632 | Tokenizing printed arguments gives them back, up to the number there is room for |
| `CText.LineTokens` | libs/sqlite/shell.c:4612-4632 | A command name and printed arguments are tokenized into the name and the arguments |
| `CText.SingleQuoted` | libs/sqlite/shell.c:4612-4625 | An argument between single quotes is read back as it stands, backslashes and double quotes included |
| `CText.SingleOpen` | libs/sqlite/shell.c:4617-4624 | Without a second quote it goes on to the end of the line |
| `CText.DoubleQuoted` | libs/sqlite/shell.c:4618-4625 | Between double quotes a quote behind a backslash does not end the argument, and the escapes are resolved |
| `CText.WordAlone` | libs/sqlite/shell.c:4626-4631 | A word ends at white space only, and its escapes are resolved |
| `CText.Classes` | libs/sqlite/shell.c:4612-4631 | White space, printable characters, octal digits and quotes by their codes |
| `Tokenizer.CopyResolved` | libs/sqlite/shell.c:3535-3571 | The writing index never passes the reading index, so that all that is unread is what was there; the written part is the resolved text so far |
| `Tokenizer.ResolveBackslashes` | libs/sqlite/shell.c:3531-3573 | The C string becomes its resolved text, which is not longer; nothing outside of it changes |
| `Tokenizer.ReadEscape` | libs/sqlite/shell.c:3537-3568 | Letters, quotes, backslashes and one to three octal digits are read as the escape's value, cut to a byte |
| `Tokenizer.Tokenize` | libs/sqlite/shell.c:4607-4632 | At most 50 arguments, each of which reads as the value of its token up to a NUL that an octal escape put in it; cutting and resolving a token never changes an earlier argument or unread text |
| `Tokenizer.TokenizePrinted` | libs/sqlite/shell.c:4607-4632 | For a printed command line the arguments read as the name and the printed strings, up to 50 |
| `Glob.TestcaseGlob` | libs/sqlite/shell.c:4245-4317 | For every pattern and text the matcher ends and returns 1 exactly when the text can be cut into one piece for each token of the pattern with only white space left over |
| `Glob.MatchClass` | libs/sqlite/shell.c:4277-4305 | The scan of a class finds its end and whether the character is in its ranges; a class that is not closed is reported |
| `GlobPatterns.ClassMeaning` | libs/sqlite/shell.c:4277-4305 | A class matches a character exactly when it is written in it, as a character, in a span with both ends, as a first bracket or as a last minus sign; with a caret in front exactly when it is not |
| `GlobPatterns.OneCharacter` | libs/sqlite/shell.c:4277-4305 | [c] matches c alone, and [^c] every other character |
| `GlobPatterns.OneSpan` | libs/sqlite/shell.c:4293-4296 | [a-b] matches the characters from a to b, and [^a-b] all others |
| `GlobPatterns.UnclosedClass` | libs/sqlite/shell.c:4283-4305 | A class without a closing bracket matches nothing; a bracket that comes first does not close it |
| `GlobPatterns.PlainMeaning` | libs/sqlite/shell.c:4311-4316 | A pattern without special characters matches itself and any white space behind it |
| `GlobPatterns.QuestionMark` | libs/sqlite/shell.c:4275-4276 | A question mark takes any one character |
| `GlobPatterns.StarThenPlain` | libs/sqlite/shell.c:4255-4274 | A star in front of such a pattern matches a text that ends with it, white space apart |
| `GlobPatterns.StarThenItself` | libs/sqlite/shell.c:4267-4274 | Directly behind a star a number sign or a white-space character stands for itself |
| `GlobPatterns.SpaceThen` | libs/sqlite/shell.c:4251-4254 | White space in a pattern takes a whole run of white space, of any kind and length |
| `GlobPatterns.NumberMeaning` | libs/sqlite/shell.c:4306-4310 | A number sign takes a number with or without a sign when no digit follows it, and nothing else |
| `Glob.AfterStarClass` | libs/sqlite/shell.c:4261-4265 | Behind a star, trying a class at each character finds a match exactly when there is one |
| `Glob.AfterStarLiteral` | libs/sqlite/shell.c:4267-4274 | Behind a star, looking for the next literal and trying the rest there finds a match exactly when there is one |
| `Glob.SkipStars` | libs/sqlite/shell.c:4256-4258 | Collapsing a run of stars and question marks keeps what is matched |
| `Glob.StarOne` | libs/sqlite/shell.c:4256-4258 | A star and a question mark behind it can change places |
| `Glob.MatchesStar` | libs/sqlite/shell.c:4261-4274 | A star matches nothing, or one character and then again as a star |
| `Glob.MatchesSpaces` | libs/sqlite/shell.c:4251-4254 | A run of spaces in a pattern matches one run of spaces of the text, taken whole |
| `Glob.MatchesNumber` | libs/sqlite/shell.c:4306-4310 | A number sign matches an optional sign and all the digits that follow |
| `HttpParser.Parser.Dispatch` | jorgeNetwork.cpp:109-303 | Each state's branch, with its writes into the buffer, is the step of the state machine; no branch reads behind the NUL, where a valid parser knows of no byte |
| `HttpParser.Parse` | jorgeNetwork.cpp:98-305 | For every NUL-terminated buffer the loop ends, with the buffer and the request fields of the state machine's run; unless the request is unfinished it needs no byte behind the NUL |
| `Http.StepShortens` | jorgeNetwork.cpp:109-303 | Every step moves the index forward or halts, and keeps the length of the buffer |
| `HttpGrammar.ParsePrinted` | jorgeNetwork.cpp:98-305 | Every request printed from verb, path, version, headers and body over the accepted alphabets is parsed through the blank line into exactly these parts, in order |
| `HttpGrammar.AcceptedIsPrinted` | jorgeNetwork.cpp:98-305 | Every request that is parsed through the blank line is such a printed request |
| `HttpGrammar.AcceptsIffPrinted` | jorgeNetwork.cpp:98-305 | So the parser accepts a text if and only if it is a printed request |
| `HttpLanguage.Alphabets` | jorgeNetwork.cpp:109-303 | Blanks, letters, path, field and value characters, each alphabet written out |
| `HttpLanguage.VersionLines` | jorgeNetwork.cpp:109-303 | The version line is HTTP/1.0 or HTTP/1.1 in any case, and CR LF |
| `HttpLanguage.OkIsWellFormed` | jorgeNetwork.cpp:109-303 | The parts of a printed request are those over these alphabets |
| `HttpLanguage.AcceptsIffWellFormed` | jorgeNetwork.cpp:98-305 | The parser accepts a text if and only if it is a request over these alphabets, with any body |
| `HttpLanguage.ExampleRequest` | jorgeNetwork.cpp:98-305 | GET /index.lua with Host: localhost:8080 and a body is parsed into these strings |
| `HttpBuffer.OnlyDelimitersChange` | jorgeNetwork.cpp:127-294 | Whatever the request, only blanks, colons and CRs change, those only to NULs, and none of them from the parser's last index on |
| `HttpUnfinished.WaitsIffUnfinished` | jorgeNetwork.cpp:109-303 | The texts that leave the machine waiting for more are exactly the requests that end too early: in the verb, in the path, in front of the version, or in a header line behind any number of whole ones |
| `HttpUnfinished.ReadsPastNulIffUnfinished` | jorgeNetwork.cpp:109-303 | The final read of the error state is behind the terminating NUL exactly when the text before the NUL is such a request; otherwise the parser's index never passes the NUL |
| `HttpUnfinished.UnfinishedExample` | jorgeNetwork.cpp:109-303 | A lone verb letter is such a request, and so is the empty text; a bare line end is not |
| `HttpUnfinished.RunWithNul` | jorgeNetwork.cpp:109-303 | What lies behind the NUL never influences the result |
| `HttpBuffer.ParsedReads` | jorgeNetwork.cpp:98-305 | After a parse the pointers read, as C strings, as the verb, the path, each field and value in order, and the body |
| `HttpBuffer.AppendIndex` | jorgeLua.cpp:121-140 | The buffer becomes the one with index.lua and a NUL written over it from the path's end on, if the path ends in a slash, and stays as it is otherwise |
| `HttpBuffer.IndexFits` | jorgeLua.cpp:121-140 | After every parse through the blank line there is room for it: the path grows by index.lua, and verb, headers and body read as before |
| `Pretty.SqueezedText` | libs/sqlite/shell.c:1979-1990 | The first pass changes only white space, and leaves none doubled, none behind an opening parenthesis, none in front of a parenthesis and none at the ends |
| `Pretty.Squeeze` | libs/sqlite/shell.c:1979-1988 | The copying loop writes what is kept to the front of the buffer and never over an unread character, nor reads in front of it |
| `Pretty.FirstPass` | libs/sqlite/shell.c:1978-1990 | The first pass leaves the squeezed text and its NUL at the start of the buffer |
| `Pretty.PrintSchemaLineN` | libs/sqlite/shell.c:1846-1851 | The line is printed, with IF NOT EXISTS where it starts like a quoted CREATE TABLE, and the buffer is as before, although a NUL was written into it |
| `Pretty.PutOne` | libs/sqlite/shell.c:1992-2014 | A turn of the second pass prints and keeps what the functional layout says and leaves the unread text as it was |
| `Pretty.SecondPass` | libs/sqlite/shell.c:1991-2016 | All lines but the last are printed, and the last one is left as the string at the start of the buffer |
| `Pretty.LinesText` | libs/sqlite/shell.c:1976-2017 | The lines together have the text's characters that are not white space, in their order |
| `Pretty.PrettyCase` | libs/sqlite/shell.c:1961-2020 | The output of the case is the functional pretty-printer's, for NULL, for views and triggers and for all other texts |
| `Pretty.LinesCreates` | libs/sqlite/shell.c:1839-1845 | The lines that get an IF NOT EXISTS are counted by one walk over the squeezed text that keeps only the depth of parentheses: the text itself and each line behind a parenthesis, comma or line end at depth one count if they start like a quoted CREATE TABLE |
| `Pretty.PrettyKeepsText` | libs/sqlite/shell.c:1961-2020 | For every text the output is, but for white space, the text and one semicolon, with that many insertions of IF NOT EXISTS, each between a CREATE TABLE and a quote |
| `Pretty.PrettyAddsOnlySemicolon` | libs/sqlite/shell.c:1961-2020 | So nothing but a semicolon and white space is added exactly when that number is zero, which it is for views and triggers |
| `Pretty.ShortCreate` | libs/sqlite/shell.c:1839-1845 | A short squeezed text that starts like a quoted CREATE TABLE is printed with the phrase behind these words, once |
| `Pretty.CreateExample` | libs/sqlite/shell.c:1839-1845 | As for the text of a table with a quoted name |
| `Pretty.TightSqueezed` | libs/sqlite/shell.c:1978-1990 | A text that is squeezed already goes through the first pass unchanged |
| `PrettyLines.SqueezedRun` | libs/sqlite/shell.c:1979-1987 | Between two squeezed pieces a run of white space becomes its first character, or nothing next to a parenthesis |
| `PrettyLines.TableLayout` | libs/sqlite/shell.c:1990-2015 | The lines of a table: its head up to the parenthesis, one for each item with its comma, with nested parentheses in it or not, the last item, and the closing parenthesis with what follows; the white space behind a break is dropped |
| `PrettyLines.PrettyTable` | libs/sqlite/shell.c:1989-2017 | A table of 79 characters or more is printed with each item on a line of its own, indented by two spaces |
| `PrettyLines.PrettyShort` | libs/sqlite/shell.c:1989-2017 | A shorter text is printed on one line |
| `PrettyLines.KeptExactly` | libs/sqlite/shell.c:1970-1972 | The texts that are kept are those that start with CREATE VIEW or CREATE TRIG, up to case |
| `PrettyLines.PrettyKept` | libs/sqlite/shell.c:1970-1975 | A view or a trigger is printed unchanged, with a semicolon and a line end behind it |

## Left out

- Keccak.Block: stands for the twenty unrolled blocks of KeccakF1600Step; the round constant is xored into lane 0 behind the first block of a round instead of in the middle of it, which touches the same lane.
- Glob.TestcaseGlob: compares class ranges as the signed characters of the usual platforms; where char is unsigned, ranges of non-ASCII characters differ.
- Csv.TableRoundTrip: covers one-byte ASCII separators other than quote, CR, LF and NUL; for longer separators the comparison at libs/sqlite/shell.c:1753 always looks at the start of the field.
- CsvReader.ImportCtx.ReadOneField: interrupts and the messages about unescaped and unterminated quotes are not modelled; the line count is claimed for a row separator other than the quote.  A separator byte above 127 is sign-extended in the source, where it never equals a character read; the model compares characters, so its claims are about separators below 128.
- CsvImport.Import: ASCII mode, the creation of a missing table and the messages about rows of the wrong length are not modelled; the engine's insert always succeeds.
- SqlText.UnusedString: stated for strings shorter than 2^32-1 characters, the range of the counter.
- SqlPrint.OutputQuotedEscapedString: the switch of the output stream between binary and text mode is not modelled.
- SqlPrint.ReplaceTailValue: the evaluator knows char(n) for ASCII codes only, which are all that the printer writes.
- GlobPatterns.ClassMeaning: covers the classes of ASCII characters in which a minus sign is part of a span or comes last; Glob.MatchClass covers every class.
- PrettyLines.PrettyTable: covers the texts with one list in matching parentheses; Pretty.PrettyCase and Pretty.PrettyKeepsText cover every text.
- Identifiers.ShellText.Append: reallocation always succeeds and sizes do not overflow.
- QueryHash.Sha3Query: preparing and stepping statements is the engine's work; its results come in as values, and the sizes are C ints; a NULL text, which gives no result, and the default size of 256 are not modelled.
- HttpParser.Parse: sockets, timeouts and the assembly of the buffer from packets are not modelled; the parser starts from a finished NUL-terminated buffer.
- Text is modelled as characters where the source has bytes; only the modules about hashing, C-string printing and number overflow use the byte range.
- Parser locals, the import context, the growing text and the hash context are objects; the parser's header list is a sequence of indices instead of a linked list of pointers.
- Inner loops are methods of their own, with pointers that advance through a string modelled as suffixes in the matcher and as indices elsewhere.
- The Lua bindings, script loading and the echo list: calls into foreign code and list appends.
- The database engine itself, backups, dumps and the other dot-commands: their source is not part of this model.
- Terminal layout, prompts, help texts and Windows-only branches: user interface.
- Number formatting of floating-point values: only their 64 bits are hashed here.
- The plain matching of identifiers by locale-dependent character classes: the C locale is assumed.
