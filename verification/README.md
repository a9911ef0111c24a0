# Verified models of Mogobiz core

Dafny models of five components of Mogobiz, with proofs of what they promise. Everything is checked
with `dafny verify dfyconfig.toml`; nothing is executed.

* **Base64** (`Base64*.dfy`): the three dialects (standard, URL-safe, ordered), quartet coding, the batch
  encoder and decoder with Java's array sizes and `int` arithmetic, and the two streams, which code the same
  bytes one at a time. Specification functions (`Base64Spec`) say what a text is; array code and stream
  classes are proved equal to them; the round trip, the refinement of batch by streams, line lengths and the
  order of the ordered dialect are lemmas about them. `Base64Letters` writes the alphabets out and gives a
  reference encoder; `Base64Texts`, `Base64Meaning` and `Base64StreamTexts` say what decoding makes of any text.
* **Mustache** (`Mustache*.dfy`): scanner, one-pass parser, white space stripping, squashing, nesting, name
  lookup through a chain of contexts with a memo, and the renderer with its template cache. The parser
  method does everything in one loop, as the source does. It is proved equal to a composition of small
  functions (lex, check, strip, squash, nest), and the results about templates are lemmas about those.
  `MustacheWritten` writes trees out as templates and parses them back; `MustacheOutcomes`, `MustachePaths`
  and `MustacheEndToEnd` say what each kind of node prints and what each name stands for.
* **GeoIP** (`GeoIp*.dfy`): the binary trie in a byte array, walked by address bits, over memory, index cache
  or disk. `GeoIpLayout` lays tries out in files and proves that lookups descend them.
* **Incremental scaling** (`ScalrIncremental.dfy`): the loop that shrinks an image in rounds, and which
  images it releases.
* **Date formatting** (`FormatDate.dfy`): the loop that rewrites a pattern text until no pattern is left.

## What the proofs show where code and intention differ

* Base64 decoding gives the encoded bytes back if and only if three times the text length is an `int`
  (`RoundTrip`); the size estimate multiplies first, and overflows for longer texts.
* A pulling encoder leaves out the batch encoder's last newline exactly when lines are broken and the input
  is a positive multiple of 57 bytes (`PullIsBatch`).
* Flushing a pushing encoder does not count the padded quartet towards the line: with line breaks on, a line
  can become arbitrarily long (`FlushedLinesOverflow`), although lines are documented to have at most 76
  characters. The limit holds exactly when no padded flush stands on a line that a newline ends, and those on
  the last line fit it together with its whole groups, which the lengths of the flushed stretches decide
  (`FlushedLinesExactly`).
* Encodings in the ordered dialect sort as their inputs do, for all inputs of two lengths, if and only if the
  lengths are equal or the shorter one is a multiple of three (`OrderKeptExactly`).
* White space on a last line that no newline ends is never stripped, even if the line holds only a section
  tag; and comments, partials and delimiter tags make a line standalone like section tags do, while the
  source's comment speaks of section tags only.
* Lookups in memory or through the index cache fail exactly when the walk reads a node whose eight-byte window
  the array does not hold whole (`ArrayIsWalk`). With three-byte records the index cache is two bytes short, so
  that it fails exactly for walks that read the last node (`IndexCacheShortRecords`).
* A database cannot be opened with both caches: the file is closed before the index cache is read (`Open`).
* Incremental scaling stops short of a target smaller than 6 (fraction 7) or 1 (fraction 2)
  (`TargetMetExactly`).
* In a date pattern an `a` followed by exactly one `M` is rewritten twice, since the `M` of AM or PM makes a
  month pattern with it; in all other texts rewriting to the end equals one pass from left to right
  (`FixIsOnePassExactly`). The 12-hour field loses its leading zero from noon until ten (`TwelveHourField`).

## Model

| member | source | states |
|---|---|---|
| Base64Alphabet.AlphabetThenDecodabet | utils/src/main/java/com/mogobiz/utils/Base64.java:247-424 | Each decoding table inverts its alphabet on all 64 sextets; letters are ASCII and neither padding nor newline. |
| Base64Alphabet.DecodabetThenAlphabet | utils/src/main/java/com/mogobiz/utils/Base64.java:247-424 | No byte but the sextet's own letter decodes to it, in any dialect. |
| Base64Alphabet.OrderedAlphabetIncreases | utils/src/main/java/com/mogobiz/utils/Base64.java:370-383 | The ordered alphabet is strictly increasing in unsigned byte order. |
| Base64Letters.AlphabetIsWritten | utils/src/main/java/com/mogobiz/utils/Base64.java:247-445 | The letter of every sextet is the character at its place in the 64 that the option bits choose, written out: section 4 of RFC 3548 for URL_SAFE, the ordered alphabet for ORDERED alone, section 3 otherwise. |
| Base64Letters.DecodabetIsWritten | utils/src/main/java/com/mogobiz/utils/Base64.java:256-463 | By the option bits, a byte is a letter of that alphabet with its place, padding, one of the four blanks, or illegal, and the decoding table says which. |
| Base64Quartet.Rejoin | utils/src/main/java/com/mogobiz/utils/Base64.java:539-541 | Splitting 24 bits into sextets and joining the first n+1 of them gives back the first n bytes. |
| Base64Quartet.UnblockBlock | utils/src/main/java/com/mogobiz/utils/Base64.java:1060-1129 | Decoding any quartet, full or padded, of any dialect gives its one to three bytes back. |
| Base64Quartet.BlockLetters | utils/src/main/java/com/mogobiz/utils/Base64.java:543-567 | Padding stands exactly for the missing bytes; every other letter decodes to a sextet; none is a newline. |
| Base64Quartet.BlockRegroupsBits | utils/src/main/java/com/mogobiz/utils/Base64.java:522-568 | A quartet spells the bits of its bytes six at a time, zero-padded at the end. |
| Base64Codec.Encode3to4 | utils/src/main/java/com/mogobiz/utils/Base64.java:522-568 | Writes the quartet at the destination offset and changes nothing else; with no bytes, nothing. |
| Base64Codec.EncodeBytesToBytes | utils/src/main/java/com/mogobiz/utils/Base64.java:910-1024 | Rejects exactly the bad offsets and lengths; otherwise every write is in bounds and the result is the encoding of the slice. |
| Base64Codec.RoomForGroup | utils/src/main/java/com/mogobiz/utils/Base64.java:979-999 | The guessed array has room for every group's quartet and for the newline due after it. |
| Base64Codec.RoomForEnd | utils/src/main/java/com/mogobiz/utils/Base64.java:1001-1004 | The guessed array has room for the padded quartet. |
| Base64Length.EstimateIsTight | utils/src/main/java/com/mogobiz/utils/Base64.java:979-1020 | The guess is exact, except one too long exactly when lines are broken, bytes are left over and the number of quartets is a multiple of 19. |
| Base64Length.EncodeLength | utils/src/main/java/com/mogobiz/utils/Base64.java:986-1020 | The text has 4*ceil(n/3) bytes, plus one for each 19 whole groups when lines are broken. |
| Base64Length.EncodeLines | utils/src/main/java/com/mogobiz/utils/Base64.java:990-999 | With line breaks every 77th byte and no other is a newline; without, there is none. |
| Base64Length.BreakingInsertsNewlines | utils/src/main/java/com/mogobiz/utils/Base64.java:990-999 | Taking the newlines out of a broken text gives the unbroken text. |
| Base64Length.EncodeRegroupsBits | utils/src/main/java/com/mogobiz/utils/Base64.java:910-1024 | The letters of the whole text spell the input's bits, then no, four or two zero bits. |
| Base64Letters.EncodeIsReference | utils/src/main/java/com/mogobiz/utils/Base64.java:910-1024 | But for line breaks an encoding is the letters, in the alphabet written out, that the input's bits spell six by six, and padding to a multiple of four. |
| Base64Codec.Decode4to3 | utils/src/main/java/com/mogobiz/utils/Base64.java:1060-1129 | Fails exactly on bad offsets, changing nothing; otherwise writes the quartet's bytes, says how many, and changes nothing else. |
| Base64Codec.Decode | utils/src/main/java/com/mogobiz/utils/Base64.java:1174-1235 | On every input, also malformed, returns or fails as the letter-by-letter decoder with a 32-bit size estimate does. |
| Base64Texts.DecodeRefuses | utils/src/main/java/com/mogobiz/utils/Base64.java:1181-1196 | Which offsets and lengths are refused, and that lengths whose tripled value wraps to a negative size fail with a negative array size. |
| Base64Texts.BlanksDoNotMatter | utils/src/main/java/com/mogobiz/utils/Base64.java:1204-1230 | If a text decodes, every text that differs from it in tabs, line feeds, carriage returns and spaces only decodes to the same bytes. |
| Base64Texts.FirstIllegalThrows | utils/src/main/java/com/mogobiz/utils/Base64.java:1204-1229 | If an illegal byte comes before any quartet closed by padding, the first such byte is reported with its position. |
| Base64Texts.LegalTextDecodes | utils/src/main/java/com/mogobiz/utils/Base64.java:1204-1235 | Without such a byte a text decodes, whatever else is wrong with it. |
| Base64Meaning.UnblockSpells | utils/src/main/java/com/mogobiz/utils/Base64.java:1060-1129 | A quartet of letters, padded or not, decodes to the first whole bytes of its letters' bits, stray bits included. |
| Base64Meaning.UnblockEntries | utils/src/main/java/com/mogobiz/utils/Base64.java:1060-1129 | Any quartet, also with padding or blanks in odd places: how many bytes it makes and how they mix the table's entries, markers included. |
| Base64Meaning.TextSpellsBytes | utils/src/main/java/com/mogobiz/utils/Base64.java:1174-1235 | Letters decode to the bits of their places in the alphabet written out: in whole quartets, a rest being dropped, or, if padding completes a quartet, in whole bytes, whatever follows. |
| Base64RoundTrip.RoundTrip | utils/src/main/java/com/mogobiz/utils/Base64.java:910-1235 | For all bytes, dialects and line breaking, wherever the text lies: decoding returns the encoded bytes if and only if three times the text length is below 2^31. |
| Base64RoundTrip.RunEncode | utils/src/main/java/com/mogobiz/utils/Base64.java:1195-1235 | With room for whole quartets the decoder ends with exactly the encoded bytes, stopping at padding. |
| Base64RoundTrip.RunFits | utils/src/main/java/com/mogobiz/utils/Base64.java:1195-1216 | For every text, what is decoded fits the output array. |
| Base64RoundTrip.EstimateSuffices | utils/src/main/java/com/mogobiz/utils/Base64.java:1195-1216 | For every text, however malformed, whose tripled length is an int, the size estimate is never exceeded. |
| Base64Order.BlockKeepsOrder | utils/src/main/java/com/mogobiz/utils/Base64.java:370-383 | One ordered quartet, full or padded, compares as its bytes do. |
| Base64Order.OrderPreserved | utils/src/main/java/com/mogobiz/utils/Base64.java:370-383 | For byte strings of equal length, or of which the shorter is in whole groups, unsigned lexicographic order is equivalent to the order of the ordered encodings. |
| Base64Order.ZerosReverse | utils/src/main/java/com/mogobiz/utils/Base64.java:370-383 | For every length not in whole groups and every longer one, the zero strings of the two lengths sort one way and their encodings the other. |
| Base64Order.OrderKeptExactly | utils/src/main/java/com/mogobiz/utils/Base64.java:370-383 | For any two lengths, the order is kept for all byte strings of these lengths if and only if the lengths are equal or the shorter is a multiple of three. |
| Base64Output.OutputStream.constructor | utils/src/main/java/com/mogobiz/utils/Base64.java:1940-1952 | A new stream has an empty buffer, line and sink. |
| Base64Output.OutputStream.Write | utils/src/main/java/com/mogobiz/utils/Base64.java:1968-2009 | One byte changes the whole state, sink included, as the abstract push step says, in both directions of coding and while suspended. |
| Base64Output.OutputStream.WriteBytes | utils/src/main/java/com/mogobiz/utils/Base64.java:2022-2034 | Writing an array equals writing its bytes one by one up to the first exception; the suspended shortcut does too. |
| Base64Output.OutputStream.FlushBase64 | utils/src/main/java/com/mogobiz/utils/Base64.java:2043-2054 | Writes the padded quartet of an unfinished group and forgets it; fails when decoding with letters pending. |
| Base64Output.OutputStream.SuspendEncoding | utils/src/main/java/com/mogobiz/utils/Base64.java:2084-2087 | Flushes, and suspends unless that failed. |
| Base64Output.OutputStream.ResumeEncoding | utils/src/main/java/com/mogobiz/utils/Base64.java:2097-2099 | Ends suspension and changes nothing else. |
| Base64Output.SplitWrites | utils/src/main/java/com/mogobiz/utils/Base64.java:1968-2034 | However the input is split into writes, the state reached is that of writing the concatenation. |
| Base64OutputRuns.PushIsBatch | utils/src/main/java/com/mogobiz/utils/Base64.java:1968-2054 | Writing any bytes and flushing leaves exactly the batch encoding in the sink, line breaks included. |
| Base64OutputRuns.RunExplained | utils/src/main/java/com/mogobiz/utils/Base64.java:1968-2099 | Over every run of writes, flushes, suspensions and resumptions, the state is the one its history of segments explains. |
| Base64OutputRuns.FlushedRun | utils/src/main/java/com/mogobiz/utils/Base64.java:1968-2099 | After any run and a flush the sink is the text of the run's segments, the line length carried from one to the next. |
| Base64OutputRuns.FlushedRunUnbroken | utils/src/main/java/com/mogobiz/utils/Base64.java:1968-2099 | Without line breaks the sink is the concatenation of each flushed segment's own encoding and each suspended segment's raw bytes. |
| Base64OutputRuns.FlushedLinesOverflow | utils/src/main/java/com/mogobiz/utils/Base64.java:1983-2054 | Writing and flushing n single bytes gives 4n letters without a newline, for every n and also with line breaks. |
| Base64Lines.FlushedLinesExactly | utils/src/main/java/com/mogobiz/utils/Base64.java:1968-2054 | For every run that writes nothing past the encoder, no line of the flushed text exceeds 76 letters if and only if no padded flush stands on a line that a newline ends and those on the last line, with its whole groups, are at most 19 quartets. |
| Base64Lines.WritesAreEncoded | utils/src/main/java/com/mogobiz/utils/Base64.java:1968-2054 | Runs of writes and flushes write nothing past the encoder. |
| Base64OutputRuns.PushDecodes | utils/src/main/java/com/mogobiz/utils/Base64.java:1994-2008 | Writing an encoding, with or without line breaks, through a decoding stream leaves the bytes in the sink and nothing pending. |
| Base64StreamTexts.WriteOutcome | utils/src/main/java/com/mogobiz/utils/Base64.java:1994-2008 | What writing any byte to a decoding stream comes to: blanks are ignored, illegal bytes throw, letters and padding are kept and a fourth one decodes; the highest bit of a byte is ignored. |
| Base64StreamTexts.JammedOutcome | utils/src/main/java/com/mogobiz/utils/Base64.java:1996-1998 | After a quartet outside the table's range every further letter throws. |
| Base64StreamTexts.FlushOutcome | utils/src/main/java/com/mogobiz/utils/Base64.java:2043-2087 | Flushing or suspending a decoding stream throws exactly in the middle of a quartet. |
| Base64StreamTexts.PushIsRun | utils/src/main/java/com/mogobiz/utils/Base64.java:1994-2008 | On letters and blanks the pushing decoder has written and holds just what the batch decoder has and does. |
| Base64Input.InputStream.constructor | utils/src/main/java/com/mogobiz/utils/Base64.java:1729-1740 | A new stream has read nothing. |
| Base64Input.InputStream.FillEncoding | utils/src/main/java/com/mogobiz/utils/Base64.java:1754-1777 | Refilling while encoding takes up to three bytes and holds their quartet, or finds the end. |
| Base64Input.InputStream.FillDecoding | utils/src/main/java/com/mogobiz/utils/Base64.java:1780-1811 | Refilling while decoding skips meaningless bytes and holds the next quartet's bytes; a broken quartet fails. |
| Base64Input.InputStream.NextMeaningful | utils/src/main/java/com/mogobiz/utils/Base64.java:1786-1798 | Skips exactly the bytes that collecting a quartet skips. |
| Base64Input.InputStream.Read | utils/src/main/java/com/mogobiz/utils/Base64.java:1750-1845 | One read changes the whole state and returns as the abstract pull step says. |
| Base64Input.InputStream.ReadBytes | utils/src/main/java/com/mogobiz/utils/Base64.java:1861-1877 | Reading an array equals that many single reads; it says how many, and -1 only at the end. |
| Base64InputRuns.PullTextIsEncoding | utils/src/main/java/com/mogobiz/utils/Base64.java:1814-1835 | What is pulled from any point of a line, plus at most one newline, is the batch text from there. |
| Base64InputRuns.PullIsBatch | utils/src/main/java/com/mogobiz/utils/Base64.java:1750-1845 | The bytes pulled before the end are the batch encoding, but for one trailing newline when lines are broken and the input is a positive multiple of 57 bytes. |
| Base64InputRuns.EndIsFinal | utils/src/main/java/com/mogobiz/utils/Base64.java:1750-1845 | Once an encoding stream is at its end, every further read says so. |
| Base64InputRuns.PullDecodes | utils/src/main/java/com/mogobiz/utils/Base64.java:1780-1845 | Reading a batch encoding through a decoding stream returns the bytes and then the end, for ever. |
| Base64StreamTexts.JunkIsSkipped | utils/src/main/java/com/mogobiz/utils/Base64.java:1784-1797 | Bytes that are neither letters nor padding, the highest bit ignored, make no difference to what a decoding stream reads. |
| Base64StreamTexts.JunkyEncodingReadsBack | utils/src/main/java/com/mogobiz/utils/Base64.java:1780-1845 | An encoding with any such bytes inserted is read back to the bytes encoded. |
| Base64StreamTexts.RefillOutcome | utils/src/main/java/com/mogobiz/utils/Base64.java:1784-1811 | What a refilling read comes to by the letters and padding left: the end, improper padding, a byte outside the table's range, or the quartet's first byte. |
| MustacheScanner.Scanner.Scan | template/src/main/resources/template/mustache.js:293-305 | Takes the match at the position, if there is one, and advances by just that. |
| MustacheScanner.Scanner.ScanUntil | template/src/main/resources/template/mustache.js:311-330 | Takes everything before the least matching index, or all of it, and advances by just that. |
| MustacheScanner.Search | template/src/main/resources/template/mustache.js:311-312 | The least index at which the expression matches, and none exactly if it matches nowhere. |
| MustacheScanner.SpaceCharacters | template/src/main/resources/template/mustache.js:58-61 | The characters that count as white space, listed. |
| MustacheTiles.TagFits | template/src/main/resources/template/mustache.js:153-182 | A closed tag is, in this order: the opening delimiter, white space, the symbol of its kind, white space, its value (trimmed), what ends the value for that symbol, and the closing delimiter. |
| MustacheReading.TagReadsBack | template/src/main/resources/template/mustache.js:153-182 | A tag written out from white space, a symbol and a value is read as that value with the symbol's kind (`#`, `^`, `/`, `>`, `&`, `{`, `!` or none) and takes just its own text, for all usable delimiters. |
| MustacheReading.SetReadsBack | template/src/main/resources/template/mustache.js:111-121 | A set-delimiter tag written out is read as one, and the first two words in it are the delimiters in force behind it. |
| MustacheLexer.NewTagsUsable | template/src/main/resources/template/mustache.js:111-121 | Delimiters that a closed set-delimiter tag sets are again non-empty and free of white space. |
| MustacheTiles.LexTiles | template/src/main/resources/template/mustache.js:125-182 | Before stripping, the tokens of a readable template tile it with no gap or overlap, and before an unreadable tag they tile a prefix of it; text tokens show the text they cover, and a tag is spelled out there in the delimiters in force at that place. |
| MustacheParser.ScanTag | template/src/main/resources/template/mustache.js:153-182 | Reads one tag with the scanner: kind, value, length and whether it is closed, as the reading function says. |
| MustacheParser.CheckSection | template/src/main/resources/template/mustache.js:184-194 | Pushes or pops the open sections, or fails with the right one of the two errors. |
| MustacheParser.CheckedRuns | template/src/main/resources/template/mustache.js:184-194 | Where the check passes, nesting never pops an empty stack, and both have the same sections open. |
| MustacheParser.StrippedNests | template/src/main/resources/template/mustache.js:209 | Of a template that the check passes, the stripped token list nests. |
| MustacheParser.ParseTemplate | template/src/main/resources/template/mustache.js:86-210 | The one-pass parser with its five variables equals lexing, checking, stripping, squashing and nesting, the first error included. |
| MustacheWritten.WrittenParsesBack | template/src/main/resources/template/mustache.js:86-210 | Any tree of text, tags and nested sections, written out in any usable delimiters with any white space in its tags, is parsed back to that tree, every node at the place where it was written. |
| MustacheWritten.SetThenParsesBack | template/src/main/resources/template/mustache.js:197-200 | The same behind a set-delimiter tag, written in the delimiters that it names. |
| MustacheErrors.ErrorsExplained | template/src/main/resources/template/mustache.js:178-207 | For every template: the tokens before the error are open sections with trees before and inside them, and the error is the next closing tag that does not fit, named and placed, or an unreadable tag, or the innermost section left open; otherwise the template is accepted. |
| MustacheErrors.UnclosedTagAtEnd | template/src/main/resources/template/mustache.js:178-179 | An unclosed tag is reported at the end of the template. |
| MustacheErrors.BadDelimiters | template/src/main/resources/template/mustache.js:111-116 | Delimiters are refused when the last tag read sets them to a single word. |
| MustacheLines.TokenBuffer.PushText | template/src/main/resources/template/mustache.js:135-150 | After each character the token buffer, holes included, is the declarative stripping of all tokens pushed so far. |
| MustacheLines.TokenBuffer.PushTag | template/src/main/resources/template/mustache.js:181-200 | The same after each tag. |
| MustacheLines.TokenBuffer.StripSpace | template/src/main/resources/template/mustache.js:98-108 | At the end of a line, deleting the recorded indices makes the buffer the stripping of all tokens again. |
| MustacheLines.StripNewline | template/src/main/resources/template/mustache.js:98-108 | A newline removes the text of its own line exactly if the line has a tag and nothing solid, and no earlier line changes. |
| MustacheLines.StripSnoc | template/src/main/resources/template/mustache.js:98-108 | A token that is not a newline removes nothing. |
| MustacheLines.UnfinishedKept | template/src/main/resources/template/mustache.js:147-207 | On a line that no newline has ended, a last line included, nothing is dropped. |
| MustacheSquash.SquashTokens | template/src/main/resources/template/mustache.js:216-235 | Extending the last text token in place gives the recursive squashing of the tokens that are left. |
| MustacheSquash.NestSquash | template/src/main/resources/template/mustache.js:216-270 | At every point, nesting the squashed list is squashing the nested tree. |
| MustacheSquash.NestOfSquash | template/src/main/resources/template/mustache.js:216-270 | Squashing keeps a list balanced, and its tree is the squashed tree of the list. |
| MustacheTokens.NestTokens | template/src/main/resources/template/mustache.js:243-270 | On a balanced list the collector and stack loop builds the tree, never popping an empty stack. |
| MustacheTokens.NestAfterFlatten | template/src/main/resources/template/mustache.js:243-270 | Nesting the flat list of any tree gives the tree. |
| MustacheTokens.NestKeepsTokens | template/src/main/resources/template/mustache.js:243-270 | At every point, the stack and the collector together hold exactly the tokens read, in order. |
| MustacheTokens.FlattenAfterNest | template/src/main/resources/template/mustache.js:243-270 | Flattening the nested tree, closing tags put back, gives the flat list. |
| MustacheFidelity.CheckDecidesNesting | template/src/main/resources/template/mustache.js:184-207 | The check passes exactly the token lists that are the flattening of some tree with equal names on its sections' tags. |
| MustacheFidelity.AcceptsExactlyNested | template/src/main/resources/template/mustache.js:86-210 | The parser accepts exactly the templates whose tags can all be read and whose section tags are properly nested with equal names. |
| MustacheFidelity.TreeIsFlatList | template/src/main/resources/template/mustache.js:181-270 | Flattening an accepted template's tree gives its stripped, squashed list, with all tags of the template in order and unchanged. |
| MustacheFidelity.DroppedIsBlank | template/src/main/resources/template/mustache.js:98-108 | Only white space is dropped. |
| MustacheFidelity.DroppedExactly | template/src/main/resources/template/mustache.js:98-201 | Exactly the text of those newline-ended lines is dropped that hold at least one tag, only tags of the six kinds that print no value, and no text but white space. |
| MustacheFidelity.NoHoleInText | template/src/main/resources/template/mustache.js:98-108 | Text is never joined across dropped text: a tag would stand there. |
| MustacheSpans.SquashFaithful | template/src/main/resources/template/mustache.js:216-235 | After stripping and squashing, spans increase without overlap, each text token is the template text of its span, each tag is spelled out in its span in the delimiters in force there, and the characters covered are those of the tokens kept. |
| MustacheSpans.TreeLiesInTemplate | template/src/main/resources/template/mustache.js:181-270 | In an accepted template's tree, siblings' spans increase without overlap, a section's contents lie between its tags, every text is that of its span, and every tag is spelled out in its span, value and symbol, in the delimiters in force there. |
| MustacheSpans.OnlyStandaloneSpaceIsDropped | template/src/main/resources/template/mustache.js:98-201 | A character is missing from the tree exactly when it is white space in text on a newline-ended line with a tag, no printing tag and no other text. |
| MustacheSpans.SectionText | template/src/main/resources/template/mustache.js:475-476 | For every section at any depth, the slice handed to section functions is exactly the text of all tokens between its own two tags. |
| MustacheContext.SplitIsExact | template/src/main/resources/template/mustache.js:364-366 | Splitting a dotted name loses nothing and leaves no dot. |
| MustacheContext.WalkFindsInnermost | template/src/main/resources/template/mustache.js:363-379 | The walk yields the innermost view's value that is not null, and the outermost view's if all are. |
| MustachePaths.LookupFollowsPath | template/src/main/resources/template/mustache.js:354-388 | A name, split at its dots unless it has none or begins with one, stands for what its path of properties leads to in the innermost view in which the path does not break; a function found is called on the innermost view of all. |
| MustachePaths.LookupFindsNothing | template/src/main/resources/template/mustache.js:354-388 | If the path breaks in every view, the name stands for null or undefined. |
| MustachePaths.LookupNested | template/src/main/resources/template/mustache.js:364-370 | The dotted name of a path finds the leaf of objects nested along it. |
| MustachePaths.DotIsOwnView | template/src/main/resources/template/mustache.js:336-388 | A single dot stands for the innermost view. |
| MustacheContext.Context.constructor | template/src/main/resources/template/mustache.js:336-340 | A new context, its memo holding only its own view, stands in front of its parent's views; null becomes an empty object. |
| MustacheContext.Context.Push | template/src/main/resources/template/mustache.js:346-348 | A fresh context with this one's views behind it. |
| MustacheContext.Context.OwnLookUp | template/src/main/resources/template/mustache.js:364-373 | One view's value for a name, following a dotted name property by property until null. |
| MustacheContext.Context.LookUp | template/src/main/resources/template/mustache.js:354-388 | Whatever was looked up before, the result equals the plain walk without a memo; only the memo changes. |
| MustacheRender.EscapedIsSafe | template/src/main/resources/template/mustache.js:43-56 | Escaped text contains no angle bracket, quote or slash, and reading its entities back gives the text. |
| MustacheOutcomes.NamePrintsEscaped | template/src/main/resources/template/mustache.js:511-517 | A name tag prints its value's text escaped: no dangerous character, and unescaped it is that text; nothing for null. |
| MustacheOutcomes.RawPrintsText | template/src/main/resources/template/mustache.js:504-510 | A raw tag prints its value's text as it is. |
| MustacheOutcomes.TextPrintsItself | template/src/main/resources/template/mustache.js:518-521 | Text prints itself; comments and set-delimiter tags print nothing. |
| MustacheOutcomes.PartialPrintsTemplate | template/src/main/resources/template/mustache.js:494-503 | A partial tag prints the template of its name in the same views, and nothing if there is none. |
| MustacheOutcomes.BadTemplateThrows | template/src/main/resources/template/mustache.js:429-433 | Rendering a template that cannot be parsed ends with the parser's error. |
| MustacheOutcomes.NodesPrintInOrder | template/src/main/resources/template/mustache.js:455-524 | Nodes print one after the other. |
| MustacheOutcomes.NodesStop | template/src/main/resources/template/mustache.js:455-524 | The first node that fails ends the rendering with its own outcome. |
| MustacheOutcomes.InvertedSection | template/src/main/resources/template/mustache.js:485-493 | An inverted section prints its contents once if its value is one of the listed falsy values or an empty array, and nothing otherwise. |
| MustacheOutcomes.ValueSection | template/src/main/resources/template/mustache.js:459-484 | A section prints nothing for a falsy value, its contents with an object or a string as innermost view, and its contents in the same views for true and for numbers. |
| MustacheOutcomes.ArraySection | template/src/main/resources/template/mustache.js:465-468 | A section over an array prints its contents once for each item, in order, with the item as innermost view. |
| MustacheOutcomes.ArraySectionStops | template/src/main/resources/template/mustache.js:465-468 | The first item whose contents fail ends the section with that outcome. |
| MustacheOutcomes.FunctionSection | template/src/main/resources/template/mustache.js:471-479 | A section function is handed the innermost view and the template's text between the section's tags. |
| MustacheOutcomes.FunctionRuns | template/src/main/resources/template/mustache.js:449-479 | What a section function returns is printed as it is, and a template it asks for is rendered in the section's views. |
| MustacheEndToEnd.NameTemplate | template/src/main/resources/template/mustache.js:429-525 | From text to output: the template `{{name}}`, with any white space in it, prints the escaped value. |
| MustacheEndToEnd.RawTemplate | template/src/main/resources/template/mustache.js:429-525 | The templates `{{&name}}` and `{{{name}}}` print the value as it is. |
| MustacheEndToEnd.SectionTemplate | template/src/main/resources/template/mustache.js:429-525 | A template of a section with text inside prints the text once, as often as there are items, or not at all, by the section's symbol and value. |
| MustacheRender.RenderSquashed | template/src/main/resources/template/mustache.js:444-525 | A squashed tree renders as the tree it was made from, in all contexts, under arrays, inverted and function sections, with any partials. |
| MustacheRender.SquashingPreservesMeaning | template/src/main/resources/template/mustache.js:216-270 | An accepted template renders as the tree nested from its flat tokens with the holes removed and nothing joined. |
| MustacheFuel.EnoughFuel | template/src/main/resources/template/mustache.js:494-503 | A result reached within some depth of partials and section functions is the result at every greater depth. |
| MustacheFuel.FuelSuffices | template/src/main/resources/template/mustache.js:494-503 | Without section functions, when partials ask only for partials of lower rank, fuel above the ranks of those asked for is enough. |
| MustacheFuel.PlainNeedsNoFuel | template/src/main/resources/template/mustache.js:444-525 | Without partials and section functions no fuel is needed. |
| MustacheWriter.Writer.ParseCached | template/src/main/resources/template/mustache.js:410-418 | A cached tree is returned whatever the delimiters; a failed parse is not cached; with the default delimiters the cache makes no difference. |
| MustacheWriter.Writer.ClearCache | template/src/main/resources/template/mustache.js:402-404 | Empties the cache. |
| MustacheWriter.Writer.RenderView | template/src/main/resources/template/mustache.js:429-433 | With any valid cache, hence after any run of renderings and clearings, the result is the cache-free one, and the cache stays valid. |
| MustacheWriter.Writer.RenderTemplate | template/src/main/resources/template/mustache.js:429-433 | The same in an existing context with any memo. |
| MustacheWriter.Writer.RenderTokens | template/src/main/resources/template/mustache.js:444-525 | The loop over tokens, which parses, caches and looks up as it goes, outputs what the pure rendering of the tree does. |
| MustacheWriter.Writer.RenderToken | template/src/main/resources/template/mustache.js:458-521 | The same for one token of any kind. |
| MustacheWriter.Writer.RenderItems | template/src/main/resources/template/mustache.js:465-468 | The same for a section over an array, with one pushed context for each item. |
| MustacheWriter.Writer.Run | template/src/main/resources/template/mustache.js:449-479 | The same for a section function and the templates it has rendered in the section's context. |
| GeoIpTrie.FoundIsLeaf | core/src/main/java/com/maxmind/geoip/LookupService.java:1163-1174 | A result is at least the segment count, and its netmask is the number of bits used, at least one. |
| GeoIpTrie.VisitedBelowSegments | core/src/main/java/com/maxmind/geoip/LookupService.java:1163-1174 | Every node after the first that is read lies below the segment count. |
| GeoIpTrie.PrefixMap | core/src/main/java/com/maxmind/geoip/LookupService.java:1127-1181 | In the abstract trie every address sharing the bits used gets the same value and netmask. |
| GeoIpTrie.SeekIsPrefixMap | core/src/main/java/com/maxmind/geoip/LookupService.java:1061-1181 | The same for lookups in each of the three storages, for every database content. |
| GeoIpLayout.LookupIsDescent | core/src/main/java/com/maxmind/geoip/LookupService.java:1061-1181 | For any binary trie laid out in a file node by node, the record for 0 first and the lowest byte first, a lookup answers with the leaf reached by going left on 0 and right on 1, and with its depth as the netmask, from each storage that holds the windows. |
| GeoIpLayout.WalkIsDescent | core/src/main/java/com/maxmind/geoip/LookupService.java:1061-1181 | The abstract walk through such a file is that descent, from any node of the trie. |
| GeoIpLayout.RecordBytes | core/src/main/java/com/maxmind/geoip/LookupService.java:1152-1161 | Both records of a window, spelled out byte by byte for three-byte and four-byte records. |
| GeoIpTrie.FetchReads | core/src/main/java/com/maxmind/geoip/LookupService.java:1133-1151 | Byte by byte, what a fetched window holds: arrays give whole windows or fail, the disk gives every byte it has and leaves the rest as it was. |
| GeoIpTrie.ArrayIsWalk | core/src/main/java/com/maxmind/geoip/LookupService.java:1133-1176 | From memory or the index cache, a lookup throws exactly when the walk reads a node whose window the array does not hold, and is the abstract walk otherwise. |
| GeoIpTrie.DiskIsWalk | core/src/main/java/com/maxmind/geoip/LookupService.java:1143-1151 | From disk, the lookup is the abstract walk whenever the walk's nodes are in the file, short reads at its end included. |
| GeoIpTrie.IndexCacheShortRecords | core/src/main/java/com/maxmind/geoip/LookupService.java:402-411 | With three-byte records the index cache fails exactly for the addresses whose walk reads the last node, and equals the walk for all others. |
| GeoIpTrie.IndexCacheLongRecords | core/src/main/java/com/maxmind/geoip/LookupService.java:402-411 | With four-byte records below 2^31 the index cache always equals the walk. |
| GeoIpTrie.StoragesAgree | core/src/main/java/com/maxmind/geoip/LookupService.java:1133-1161 | Memory, disk and walk are equal if the file holds the windows of all nodes read, and memory throws otherwise; all three storages and the walk are equal if the index cache holds them, and the index cache throws otherwise. |
| GeoIpLookup.BytesToLong | core/src/main/java/com/maxmind/geoip/LookupService.java:1189-1199 | The long is below 2^32 and its bits, highest first, are those of the four bytes in order. |
| GeoIpLookup.BigEndianBit | core/src/main/java/com/maxmind/geoip/LookupService.java:1189-1199 | Bit k from the top of a big-endian number is bit k of its byte string, for any number of bytes. |
| GeoIpLookup.LongBitsAreBytesBits | core/src/main/java/com/maxmind/geoip/LookupService.java:1163 | The bits tested in the long are those of the four bytes of the address. |
| GeoIpLookup.LongBitsSpell | core/src/main/java/com/maxmind/geoip/LookupService.java:1163 | The bits tested in a long spell it, from its highest bit to its lowest. |
| GeoIpLookup.BytesBitsSpell | core/src/main/java/com/maxmind/geoip/LookupService.java:1098-1101 | The bits tested in a byte array spell its bytes, from the highest bit of the first byte on. |
| GeoIpLookup.LookupService.Open | core/src/main/java/com/maxmind/geoip/LookupService.java:394-411 | Fails exactly if the index cache is asked for and the file is too short for it or was closed after filling the memory buffer; otherwise the buffers hold the file, and as much of it as the index takes. |
| GeoIpLookup.LookupService.CopyWindow | core/src/main/java/com/maxmind/geoip/LookupService.java:1133-1142 | Copies a whole window, and fails exactly if it is not inside the buffer. |
| GeoIpLookup.LookupService.ReadFile | core/src/main/java/com/maxmind/geoip/LookupService.java:1143-1151 | Reads a window; at the end of the file the rest of it keeps its old bytes. |
| GeoIpLookup.LookupService.ReadNode | core/src/main/java/com/maxmind/geoip/LookupService.java:1133-1151 | Fetches a node's window from the storage that the options select. |
| GeoIpLookup.LookupService.Children | core/src/main/java/com/maxmind/geoip/LookupService.java:1152-1161 | Both records in int arithmetic, and spelled out byte by byte for three-byte and four-byte records: the first three or four bytes for 0, the next ones for 1. |
| GeoIpLookup.LookupService.SeekCountryV6 | core/src/main/java/com/maxmind/geoip/LookupService.java:1061-1119 | The lookup is the storage's walk by the 128 bits of the address; the netmask field is set exactly when a leaf is found. |
| GeoIpLookup.LookupService.SeekCountry | core/src/main/java/com/maxmind/geoip/LookupService.java:1127-1181 | The same for the 32 bits of an IPv4 address. |
| ScalrIncremental.StepTowardsLimit | utils/src/main/scala/com/mogobiz/utils/Scalr.java:2242-2284 | A dimension stops changing exactly at max(target, min(source, fraction - 1)), and every round keeps that limit. |
| ScalrIncremental.RoundKeepsFraction | utils/src/main/scala/com/mogobiz/utils/Scalr.java:2242-2251 | A round leaves (f - 1)/f of a dimension above the target, rounded up, but not less than the target. |
| ScalrIncremental.SmallIsKept | utils/src/main/scala/com/mogobiz/utils/Scalr.java:2242-2251 | A dimension that is not above the target is left alone. |
| ScalrIncremental.LimitReached | utils/src/main/scala/com/mogobiz/utils/Scalr.java:2232-2323 | After k rounds a dimension is at its limit or at least k smaller than the source. |
| ScalrIncremental.TargetMetExactly | utils/src/main/scala/com/mogobiz/utils/Scalr.java:2232-2323 | The wanted size is met if and only if it is the source's or at least fraction - 1. |
| ScalrIncremental.CeilHalf | utils/src/main/scala/com/mogobiz/utils/Scalr.java:2242-2251 | Halving and rounding up after a division rounded up is one division rounded up. |
| ScalrIncremental.HalvingClosedForm | utils/src/main/scala/com/mogobiz/utils/Scalr.java:2232-2323 | With fraction 2, a dimension after k rounds is max(target, ceil(source / 2^k)). |
| ScalrIncremental.ScaleImageIncrementally | utils/src/main/scala/com/mogobiz/utils/Scalr.java:2194-2333 | With fraction 7 for ULTRA_QUALITY and 2 otherwise, the result has both limits as its size; the interim images have the sizes of the rounds and all but the result are flushed once; the result and the caller's image never are. |
| FormatDate.DigitsAreTheNumber | template/src/main/resources/template/custom.js:31-47 | The digits put in for a natural number read as that number. |
| FormatDate.FieldsShowTheDate | template/src/main/resources/template/custom.js:32-45 | Every numeric field of a valid date reads back as the part of the date it stands for (the short year as the year less 1900, negative if need be), the year without superfluous zeros, and with exactly two digits for month, day, hour, minute and second. |
| FormatDate.TwelveHourField | template/src/main/resources/template/custom.js:40-47 | The marker is AM before noon and PM from then on, and with the 12-hour field tells the hour; the field has two characters except from noon until ten at night. |
| FormatDate.ReplacementIsLighter | template/src/main/resources/template/custom.js:31-48 | A weighted count of letters falls with every replacement, on valid and invalid dates, so that the loop ends for every text. |
| FormatDate.RewriteAll | template/src/main/resources/template/custom.js:22-52 | The loop ends, with the rewriting fixpoint as its result. |
| FormatDate.PatternText | template/src/main/resources/template/custom.js:31-47 | The chain of comparisons picks the replacement on valid and invalid dates. |
| FormatDate.FormatDate | template/src/main/resources/template/custom.js:12-55 | Text without a bar is returned unchanged; otherwise the text after the first bar is rewritten by the date before it. |
| FormatDate.FixIsNormal | template/src/main/resources/template/custom.js:24-51 | No pattern occurs in the result, whatever the text and the date. |
| FormatDate.InvalidFields | template/src/main/resources/template/custom.js:31-48 | For an invalid date a year comes out as the two N's of NaN and every other field as nothing. |
| FormatDate.LongestIsLongest | template/src/main/resources/template/custom.js:14 | The reference pass reads the longest pattern of the list that the text starts with. |
| FormatDate.RoundKeepsOnePass | template/src/main/resources/template/custom.js:26-50 | A round of the loop in which a replaced `a` is not followed by `M` leaves the outcome of the left-to-right pass unchanged. |
| FormatDate.FixIsOnePassExactly | template/src/main/resources/template/custom.js:14-52 | For a valid date the loop's result equals one left-to-right longest-match pass if and only if no `a` is followed by exactly one `M`. |

## Left out

- Base64: GZIP, objects, files, `ByteBuffer` and `CharBuffer` variants, and `close` are not modelled.
- Base64: the tables' negative markers are constructors of a datatype, whose raw value is the table entry's low byte.
- Base64Codec.EncodeBytesToBytes: the guessed text length has to be below 2^31, as Java arrays demand, and `off + len` does not wrap around.
- Base64Output.OutputStream.Write: `position` is unbounded; the source's wraps around after 2^31 letters written to a decoder that keeps throwing.
- Mustache: token lists and trees are values; that squashing changes text tokens in place and that cached trees share their arrays is not captured.
- Mustache: a section node keeps its whole closing token, of which the source keeps the start.
- Mustache: delimiters handed to the parser are a pair of non-empty strings without white space; strings are split only for set-delimiter tags.
- Mustache: views do not change during rendering; the host's properties, function calls, section functions and conversions to text are arbitrary but deterministic.
- Mustache: a section function cannot catch an exception of the rendering it asks for.
- Mustache: names and templates that are properties of JavaScript's object prototype (`name in cache`, `cache[template]`) get no special treatment.
- Mustache: characters are single units, and white space is JavaScript's set of single characters.
- MustacheWriter.Writer.RenderTokens: how deep partials and section functions nest, and how many templates one section function asks for, is bounded by `fuel`; beyond it the outcome is a value of its own (`EnoughFuel` shows that it is never confused with a result, `FuelSuffices` when it does not occur).
- Mustache: partials are strings, the original template is always given, and module wiring and `Mogobiz.render` are not modelled.
- GeoIP: finding the structure information, reloading by modification time, printing, DNS, `InetAddress`, location and organisation records are not modelled.
- GeoIpLookup.LookupService.Open: what the structure information says, a segment count of at most three bytes included, is given; I/O errors other than a short or closed file do not occur.
- GeoIpTrie.IndexCacheLongRecords: four-byte records from 2^31 on, which the source reads as negative offsets, are excluded by a condition on the walk; `ArrayIsWalk` covers them.
- Scaling: pixels, hints, logging and the choice of target sizes (with its rounding of floats) are not modelled; an image is its size and a count of flushes.
- Dates: `parseInt` and the time zone's calendar are one function from the text before the bar to a date; for invalid dates single fields are described, and the result of any text is shown to be free of patterns.
- The rest of `custom.js`, the coordinates, tables and holders of the GeoIP library, and the administration interface are not modelled.
