# importappengine migrator, modelled in Dafny

`go/tools/importappengine/main.go` is a one-shot migrator for a blog exported from App Engine. It does the following, in order:

1. It reads three line-record files: `texts.txt`, `articles.txt` and `crashes.txt`. Each holds blocks separated by a blank line, and each block holds `Key: Value` lines.
2. It checks that every article version id names a loaded text.
3. It renumbers the texts 0, 1, 2, … in load order and rewires the articles' version ids.
4. It serializes the texts and articles into one `|`-separated line each.
5. It moves each crash report into a content-addressed tree under a new SHA-1. The report is first prefixed with a three-line header, and the record is updated with the new hash.
6. It writes `blogdata.txt`, `article_redirects.txt` and `crashesdata.txt`.
7. It copies every text blob into the destination `blobs/xx/yy/<sha1>` tree.

Any error is fatal (`log.Fatalf` or a panic), and the run stops there.

The model follows the program's structure, one module per concern:

| module | what it holds |
|---|---|
| `Wrappers` | `Option`, `Result` and `Outcome` |
| `GoStrings` | the parts of Go's `strings`, `bytes` and `strconv` that the program uses: `Split`, `SplitN(…, ": ", 2)`, `Index`, `Replace`, `TrimSpace`, `Atoi` and `%d` |
| `Encoding` | `encoding/hex` and `%x`, and `base64.StdEncoding` with its round trip |
| `Times` | `time.Parse` with the layout `2006-01-02 15:04:05`, `Time.Unix` and `Time.Format(time.RFC3339)`, for UTC times |
| `Records` | `Text`, `Article`, `Crash`, `ArticleRedirect`, and the `Fatal` reasons for stopping |
| `Ip` | `compactIpStr`, with 32-bit shifts, wrap-around addition, bitwise or, and Go's operator precedence |
| `Parse` | `parseText`, `parseArticle` and `parseCrash` as methods with the source's loop. Each is proved equal to a fold of a field setter over the block's lines. Lemmas say which blocks are accepted, and that a repeated key keeps its last value. |
| `Framing` | how the `bytes.Index(d, "\n\n")` loop cuts a file into blocks, with a round trip |
| `Loaders` | `loadTexts`, `loadArticles` and `loadCrashes` as methods with the source's loop |
| `Redirects` | `addRedirectIfNeeded` |
| `Integrity` | `verifyData` and `renumberTexts`. The latter works in place on arrays of records. |
| `Serialize` | `remSep`, `boolToStr`, `sanitizeTag`, `serTags`, `serVersions`, `serText`, `serArticle`, `serCrash`, `serTextsAndArticles`, `serCrashes` and the redirect line. Lemmas read every field of every line back. |
| `Blobs` | a `Store` class whose `files` map is the file system. It models `blobPath`, `blobCrashesPath`, `copyBlobs` (a copy is skipped when the destination exists), `getCrashPrefixData` and `copyCrashesBlobs`, which works in place on an array of crashes. |
| `Migrate` | `saveStrings`, `saveArticleRedirects` and `main`, as methods on the `Store`, specified by functions of the old store |

Four external helpers are parameters of the model, as function values: the blog's `ShortenId` and `Urlify`, `Sha1OfBytes`, and `ExtractSumatraCrashingLine`. The file system is a `map<string, string>` from path to contents.

Behaviour of the code the model keeps, that a reader might not expect:

- **Unknown crash keys.** `parseCrash` ignores an unknown key (main.go:216-233 has no final `else`). `parseText` and `parseArticle` both stop on one.
- **IP compaction.** `compactIpStr` only checks that there are four dot-separated parts. A part that `Atoi` rejects as not a number becomes 0. A part outside the 64-bit range is clamped by `Atoi` to -2^63 or 2^63-1 and then cut to its low 32 bits, so it becomes 0 or `ffffffff`. A part over 255 spills into its neighbours through the shifts. The packing is `((a<<24 | b<<16) + c<<8) | d`, because `+` and `|` share a precedence level in Go (main.go:195).
- **Tags.** `serTags` strips `,` from tags but not `|` (main.go:314-328). The `IpAddrInternal` field of a crash line is not passed through `remSep` (main.go:205). `ArticleFieldCount` states what a `|` in a tag does to the article line.
- **Redirects.** They are computed while loading, from the article ids as read. Renumbering changes text ids only, never article ids.
- **Trailing text.** Text after the last `"\n\n"` of an input file is not a record (main.go:160-167). `Framing.Trailing` gives it a name.
- **Partial output.** A fatal error in `copyCrashesBlobs` or `copyBlobs` leaves in place the files that were already written.

## Model

| member | source | states |
|---|---|---|
| GoStrings.Split | go/tools/importappengine/main.go:186 | `strings.Split` with a one-character separator: there is at least one piece, and no piece holds the separator |
| GoStrings.JoinSplit | go/tools/importappengine/main.go:186 | joining the pieces of a split with the separator gives the input back |
| GoStrings.SplitJoin | go/tools/importappengine/main.go:94-95 | splitting a join of separator-free pieces gives the pieces back, which is how `TG` reads a serialized tag list |
| GoStrings.SplitCount | go/tools/importappengine/main.go:186-190 | a split has one more piece than the input has separators, so `len(parts) != 4` means "not exactly three dots" |
| GoStrings.SplitConcat | go/tools/importappengine/main.go:65 | splitting `x + sep + y` is splitting `x`, then splitting `y` |
| GoStrings.SevenFieldsCount | go/tools/importappengine/main.go:342-350 | a seven-field line whose fields hold no separator, except possibly the sixth, splits into 7 fields plus one per separator in the sixth |
| GoStrings.FindPair | go/tools/importappengine/main.go:160-161 | `bytes.Index(d, "\n\n")`: the first position where the pair starts; none when the pair does not occur |
| GoStrings.SplitKeyValue | go/tools/importappengine/main.go:118-120 | `SplitN(p, ": ", 2)`: none exactly when the line has no `": "`; otherwise the key before the first `": "` and the whole rest as the value, which together rebuild the line |
| GoStrings.SplitKeyValueOf | go/tools/importappengine/main.go:118-120 | a line built from a key without `": "` and any value splits back into that key and that value |
| GoStrings.RemoveAll | go/tools/importappengine/main.go:39-41 | `strings.Replace(s, c, "", -1)` leaves no `c` |
| GoStrings.RemoveAllSpec | go/tools/importappengine/main.go:39-41 | it removes every `c` and keeps every other character with its count; a string without `c` is unchanged |
| GoStrings.TrimSpaceSpec | go/tools/importappengine/main.go:81 | `TrimSpace`: the result is the input with a run of white space cut off each end, and it neither starts nor ends with white space |
| GoStrings.TrimSpaceIdempotent | go/tools/importappengine/main.go:83-86 | trimming twice is trimming once |
| GoStrings.AtoiItoa | go/tools/importappengine/main.go:72-75 | `Atoi` reads back every integer `%d` prints |
| GoStrings.ItoaNoSeparators | go/tools/importappengine/main.go:330-340 | a printed integer is digits after an optional `-`, so it holds none of `,`, `|`, `.` or a newline |
| Encoding.HexDecode | go/tools/importappengine/main.go:127-130 | `hex.DecodeString` succeeds exactly on an even number of hex digits, upper or lower case, and gives half as many bytes |
| Encoding.HexEncode | go/tools/importappengine/main.go:441 | `%x` of a byte array prints two lowercase hex digits per byte |
| Encoding.HexRoundTrip | go/tools/importappengine/main.go:441 | decoding the `%x` of bytes gives the bytes back |
| Encoding.NatToHexValue | go/tools/importappengine/main.go:196 | `%x` of a number reads back as the number, and starts with `0` only for zero |
| Encoding.Base64Encode | go/tools/importappengine/main.go:200 | the standard encoding has four characters per started group of three bytes |
| Encoding.Base64RoundTrip | go/tools/importappengine/main.go:200 | decoding the standard encoding of bytes gives the bytes back |
| Encoding.Base64Alphabet | go/tools/importappengine/main.go:200-201 | the encoding holds no `|` or newline, and `=` only in its last group |
| Encoding.DigestBase64 | go/tools/importappengine/main.go:200-201 | a 20-byte hash encodes to 28 characters that end in exactly one `=`, so cutting the last character drops only padding and loses nothing |
| Times.ParseTime | go/tools/importappengine/main.go:44-50 | a parsed time is exactly the date its first ten characters read and the clock after the spaces that follow; a string whose eleventh character is not a space does not parse |
| Times.ParseFormatLayout | go/tools/importappengine/main.go:44-50 | `parseTime` reads back every valid time written in its own layout |
| Times.FormatLayout | go/tools/importappengine/main.go:44 | the layout `2006-01-02 15:04:05`: 19 characters, the date, a space, then the clock |
| Times.FormatRFC3339 | go/tools/importappengine/main.go:424 | `Format(time.RFC3339)` of a UTC time: 20 characters, the date, `T`, the clock and `Z` |
| Times.UnixEpoch | go/tools/importappengine/main.go:202 | `Unix()` is 0 at 1970-01-01 00:00:00 UTC |
| Times.UnixOfZeroTime | go/tools/importappengine/main.go:202 | a record without an `On` line keeps Go's zero time, which serializes as -62135596800 |
| Times.NextDayInMonth | go/tools/importappengine/main.go:202 | the day count behind `Unix()` grows by one from a day to the next within a month |
| Times.NextDayAcrossMonth | go/tools/importappengine/main.go:202 | … from the last day of a month to the first of the next, leap years included |
| Times.NextDayAcrossYear | go/tools/importappengine/main.go:202 | … and from December 31 to January 1 |
| Parse.FoldErrSticks | go/tools/importappengine/main.go:68-109 | the first fatal line decides the block's error; later lines do not matter |
| Parse.FoldOkIff | go/tools/importappengine/main.go:117-149 | a block is accepted exactly when each of its lines is, when the setter fails only on invalid key/value pairs |
| Parse.MapResultOk | go/tools/importappengine/main.go:97-105 | reading each token succeeds exactly when every token reads, and then the result holds each token's value in order |
| Parse.DigestOfAccepts | go/tools/importappengine/main.go:125-131 | an `M` value is accepted exactly when it is 40 hex digits |
| Parse.DigestOfHex | go/tools/importappengine/main.go:125-131 | the `%x` of a hash is accepted as `M` and reads back as that hash |
| Parse.FormatOfValues | go/tools/importappengine/main.go:134-145 | `html`, `textile`, `markdown` and `text` are formats 0, 1, 2 and 3, and nothing else is a format |
| Parse.SetTextLine | go/tools/importappengine/main.go:121-148 | one `parseText` line sets the field its key names, or gives the fatal error of the source |
| Parse.ParseText | go/tools/importappengine/main.go:113-151 | the loop over the lines computes the fold of the field setter, starting from the zero `Text` |
| Parse.TextOfAccepts | go/tools/importappengine/main.go:117-149 | a text block is accepted exactly when every line has a `": "`, its key is `I`, `M`, `On` or `F`, and that key can read its value |
| Parse.TextLastWins | go/tools/importappengine/main.go:117-149 | an accepted text holds, for each key, the value of that key's last line, or the zero value when the key is absent |
| Parse.ParseVersions | go/tools/importappengine/main.go:96-105 | `V` is split on `,` and every token must be an integer; the result is the tokens' values in order |
| Parse.EmptyVersionsFatal | go/tools/importappengine/main.go:96-101 | an empty `V` line is fatal, because splitting `""` gives one empty token |
| Parse.SetArticleLine | go/tools/importappengine/main.go:72-108 | one `parseArticle` line: the inverted `P?`, the `P2` value `None` read as empty, the trimmed `P1`, `P2` and `T`, the ignored `IS`, and fatal errors for a bad `I`, `On` or `V` or an unknown key |
| Parse.ParseArticle | go/tools/importappengine/main.go:64-111 | the loop over the lines computes the fold of the article field setter, starting from the zero `Article` |
| Parse.ArticleOfAccepts | go/tools/importappengine/main.go:68-109 | an article block is accepted exactly when every line has a `": "` and a known key; only `I`, `On` and `V` can reject their value |
| Parse.ArticleLastWins | go/tools/importappengine/main.go:68-109 | an accepted article holds, for each key, what that key's last line sets |
| Parse.SetCrashLine | go/tools/importappengine/main.go:217-233 | one `parseCrash` line; `Ip` also stores the compacted address, and an unknown key changes nothing |
| Parse.ParseCrash | go/tools/importappengine/main.go:210-236 | the loop over the lines computes the fold of the crash field setter, starting from the zero `Crash` |
| Parse.CrashOfAccepts | go/tools/importappengine/main.go:213-234 | a crash block is accepted exactly when every line has a `": "` and its `M` and `On` values read; any other key is accepted |
| Parse.CrashLastWins | go/tools/importappengine/main.go:213-234 | an accepted crash holds, for each key, the value of that key's last line |
| Framing.BlocksCover | go/tools/importappengine/main.go:160-167 | the file is its blocks, each followed by `"\n\n"`, then the trailing text the loop leaves unread |
| Framing.BlocksAreBlocks | go/tools/importappengine/main.go:160-167 | no block holds `"\n\n"` or ends in a newline |
| Framing.TrailingNoBlankLine | go/tools/importappengine/main.go:160-167 | the trailing text holds no `"\n\n"` |
| Framing.BlocksOfFramed | go/tools/importappengine/main.go:160-167 | writing blocks, each followed by `"\n\n"`, and then any text without `"\n\n"` reads back as those blocks and that text |
| Framing.LoadExample | go/tools/importappengine/main.go:160-167 | a last record with no blank line after it is not read |
| Loaders.BlocksStep | go/tools/importappengine/main.go:160-166 | one loop step: parse the block before the first `"\n\n"`, then resume after it; the first failing block stops the load |
| Loaders.LoadTexts | go/tools/importappengine/main.go:153-169 | the texts of the file's blocks in order, or the first block's fatal error |
| Loaders.LoadCrashes | go/tools/importappengine/main.go:246-262 | the crashes of the file's blocks in order, or the first block's fatal error |
| Loaders.LoadArticles | go/tools/importappengine/main.go:284-304 | the articles in order, and the redirects that each article needs, in article order |
| Redirects.RedirectsFor | go/tools/importappengine/main.go:264-277 | an article gives at most two redirects, each one of its permalinks that is set and differs from its new address, pointing at its id, and every such permalink among them |
| Redirects.RedirectsForShape | go/tools/importappengine/main.go:264-277 | one redirect per permalink that needs it, P1's first and P2's last |
| Redirects.AddRedirectIfNeeded | go/tools/importappengine/main.go:264-277 | the list gains this article's redirects at its end, and its earlier entries are kept |
| Redirects.AllRedirectsFrom | go/tools/importappengine/main.go:292-302 | every redirect of the load is the old `P1` or `P2` of some article, is non-empty, differs from that article's new address and points at its id |
| Redirects.OneOldPermalink | go/tools/importappengine/main.go:264-277 | an article whose `P1` is already its new address and whose `P2` is an old one gets exactly one redirect |
| Ip.CompactIpStr | go/tools/importappengine/main.go:184-197 | the loop over the parts fills the four-element array the packing reads |
| Ip.CompactIpUnchanged | go/tools/importappengine/main.go:186-190 | the address comes back unchanged exactly when it is not four dot-separated parts |
| Ip.PackOctets | go/tools/importappengine/main.go:195 | for octets, the expression with Go's precedence is the big-endian 32-bit value |
| Ip.Octet | go/tools/importappengine/main.go:192-193 | a part that is not a number is 0; one above 2^63-1 is clamped there and becomes `ffffffff`; one below -2^63 becomes 0; any other keeps its value modulo 2^32 |
| Ip.CompactIpOfQuad | go/tools/importappengine/main.go:184-197 | a dotted quad of octets becomes the lowercase hex of its big-endian 32-bit value |
| Ip.BitOrDisjoint | go/tools/importappengine/main.go:195 | an or of bits that do not overlap is their sum |
| Integrity.VerifyData | go/tools/importappengine/main.go:455-468 | passes exactly when every version id of every article is some text's id; otherwise it names a listed version id that no text has |
| Integrity.RenumberTexts | go/tools/importappengine/main.go:499-514 | in place, texts get ids 0, 1, 2, … in order, and each version id becomes the new id of the last text that had it; fails exactly when some version id has no text |
| Integrity.RewireVersions | go/tools/importappengine/main.go:505-512 | each version id is rewritten through the map in place; an id missing from the map is fatal |
| Integrity.OldToNewLast | go/tools/importappengine/main.go:501-504 | the map's keys are the text ids, and each maps to the index of the last text with that id |
| Integrity.RewiredOk | go/tools/importappengine/main.go:505-512 | rewiring one article succeeds exactly when all its version ids are mapped; only `versions` changes, entry by entry |
| Integrity.RenumberOkIff | go/tools/importappengine/main.go:526-527 | after `verifyData` passes, `renumberTexts` cannot fail, and conversely |
| Integrity.RenumberShape | go/tools/importappengine/main.go:499-514 | renumbering changes only ids; each rewritten version points at the last text with its old id |
| Integrity.RenumberKeepsIntegrity | go/tools/importappengine/main.go:499-514 | after renumbering, every version id still names a text |
| Serialize.RemSep | go/tools/importappengine/main.go:39-41 | the result holds no `|` |
| Serialize.RemSepSpec | go/tools/importappengine/main.go:39-41 | exactly the `|` characters are removed, and a string without one is unchanged |
| Serialize.BoolToStr | go/tools/importappengine/main.go:306-312 | true is `"1"` and false is empty |
| Serialize.SanitizeTag | go/tools/importappengine/main.go:314-316 | the result holds no `,` |
| Serialize.SanitizeTagSpec | go/tools/importappengine/main.go:314-316 | exactly the `,` characters are removed, and a `|` stays |
| Serialize.SerTags | go/tools/importappengine/main.go:318-328 | the loop builds the sanitized tags joined by `,` with no trailing comma |
| Serialize.SerVersions | go/tools/importappengine/main.go:330-340 | the loop builds the decimal versions joined by `,` with no trailing comma |
| Serialize.TagsRoundTrip | go/tools/importappengine/main.go:318-328 | splitting the tags field on `,` gives back each tag without its commas; no tags make an empty field |
| Serialize.VersionsRoundTrip | go/tools/importappengine/main.go:330-340 | splitting the versions field on `,` and reading each token gives back every version |
| Serialize.HashField | go/tools/importappengine/main.go:354-356 | the hash field is 27 characters without `|` or newline, and appending the `=` back decodes it to the hash |
| Serialize.NoPipeInFields | go/tools/importappengine/main.go:318-340 | with `|`-free tags, neither list field holds a `|` |
| Serialize.TextLineFields | go/tools/importappengine/main.go:353-358 | a text line is `T`, four `|`-separated fields and a newline, and id, time, format and hash read back from them |
| Serialize.SerText | go/tools/importappengine/main.go:353-358 | a text line starts with `T` and ends with its newline |
| Serialize.ArticleLineFields | go/tools/importappengine/main.go:342-351 | an article line with `|`-free tags is `A`, its seven fields and a newline |
| Serialize.SerArticle | go/tools/importappengine/main.go:342-351 | an article line starts with `A` and ends with a newline |
| Serialize.ArticleFieldCount | go/tools/importappengine/main.go:342-351 | an article line has seven fields plus one per `|` left in its tags |
| Serialize.CrashLineFields | go/tools/importappengine/main.go:199-208 | a crash line is `C`, six fields and a newline, the first decoding to the hash, as long as the compacted address holds no `|` |
| Serialize.SerCrash | go/tools/importappengine/main.go:199-208 | a crash line starts with `C` and ends with a newline |
| Serialize.SerTextsAndArticles | go/tools/importappengine/main.go:360-369 | one line per text, then one per article, each in order |
| Serialize.SerCrashes | go/tools/importappengine/main.go:238-244 | one line per crash, in order |
| Serialize.RedirectLineRoundTrip | go/tools/importappengine/main.go:491 | the `%d|%s` line of a redirect reads back as that redirect, whatever its url holds |
| Serialize.RedirectLine | go/tools/importappengine/main.go:491 | a redirect line is the printed id, then the first `|` of the line, and ends with a newline |
| Blobs.AreaPath | go/tools/importappengine/main.go:371-375 | a path exists exactly when the hash has at least four characters; a shorter one is the fatal slice error |
| Blobs.AreaPathShape | go/tools/importappengine/main.go:371-375 | the path is `dir/area/h[0:2]/h[2:4]/h` |
| Blobs.BlobPath | go/tools/importappengine/main.go:371-375 | a path exists exactly when the hash has four characters, else the error names the hash; the path starts with `dir/blobs/` and ends with the whole hash |
| Blobs.BlobCrashesPath | go/tools/importappengine/main.go:397-401 | the same, under `dir/blobs_crashes/` |
| Blobs.AreaPathInjective | go/tools/importappengine/main.go:371-375 | distinct hashes get distinct paths |
| Blobs.BlobAreasApart | go/tools/importappengine/main.go:397-401 | no text blob path is a crash blob path |
| Blobs.BlobPathExample | go/tools/importappengine/main.go:371-375 | a worked path, and a hash too short to have one |
| Blobs.Store.CopyBlobs | go/tools/importappengine/main.go:377-395 | the loop over the texts makes the copies and stops at the first fatal error |
| Blobs.CopyAllKeeps | go/tools/importappengine/main.go:377-395 | copying never overwrites or removes a file |
| Blobs.CopyAllPass | go/tools/importappengine/main.go:377-395 | the copy passes when every source blob exists, and after a pass every text's destination blob exists |
| Blobs.CopyAllAdds | go/tools/importappengine/main.go:377-395 | every new file is the destination blob of some text |
| Blobs.CopyAllContents | go/tools/importappengine/main.go:377-395 | a blob that was absent from the destination gets the source's contents |
| Blobs.CopyAllIdempotent | go/tools/importappengine/main.go:385-393 | running the copy again after a pass changes nothing, because each copy is skipped when its destination exists |
| Blobs.SourcesKept | go/tools/importappengine/main.go:377-395 | after a pass the source blobs are all still there |
| Blobs.CopyPresentNoop | go/tools/importappengine/main.go:385-393 | when every destination already exists, the copy passes and writes nothing |
| Blobs.CrashPrefix | go/tools/importappengine/main.go:421-426 | the header starts with `App: ` and ends with a newline |
| Blobs.CrashPrefixLines | go/tools/importappengine/main.go:421-426 | the header is exactly the `App:`, `Ip:` and `On:` lines, each ending in a newline |
| Blobs.RFC3339NoNewline | go/tools/importappengine/main.go:424 | the time in the header cannot break its line |
| Blobs.CrashStep | go/tools/importappengine/main.go:430-452 | one crash passes exactly when its source report exists, and fails on a short hash or a missing report with that error; it overwrites nothing, and the record's new hash names a report in the store |
| Blobs.Store.CopyCrashBlob | go/tools/importappengine/main.go:429-452 | one crash: its report with the header in front is stored under the new hash when absent, and the record carries the new hash, hex string and crashed line; a missing report is fatal and writes nothing |
| Blobs.Store.CopyCrashesBlobs | go/tools/importappengine/main.go:428-453 | the loop over the crashes updates the records in place and stops at the first fatal error, leaving later records unchanged |
| Blobs.CrashesAllKeeps | go/tools/importappengine/main.go:428-453 | moving the crash reports never overwrites or removes a file |
| Blobs.CrashesAllAddressed | go/tools/importappengine/main.go:436-449 | every new file is stored under the hex of its content's hash |
| Blobs.CrashesAllSources | go/tools/importappengine/main.go:430-434 | when the move passes, every crash had a source report |
| Blobs.CrashesAllRehash | go/tools/importappengine/main.go:435-450 | when the move passes, each record carries the hash and crashed line of its header plus its source report |
| Blobs.CrashRehashAt | go/tools/importappengine/main.go:435-450 | the same, for one crash |
| Blobs.CrashesAllFields | go/tools/importappengine/main.go:435-450 | the move changes only the hash, its hex string and the crashed line; after a pass the hex string is the hash's `%x` |
| Blobs.CrashesAllStored | go/tools/importappengine/main.go:439-449 | after a pass, each record's new hash names a stored report |
| Blobs.CrashBlobMatchesRecord | go/tools/importappengine/main.go:436-449 | a report stored by the move hashes to its record's new hash |
| Blobs.CrashesAllPass | go/tools/importappengine/main.go:428-453 | the move passes whenever every crash's source report exists |
| Migrate.SaveStrings | go/tools/importappengine/main.go:470-482 | the file becomes the strings written one after another; nothing else changes |
| Migrate.SaveArticleRedirects | go/tools/importappengine/main.go:484-497 | the file becomes one `<id>|<url>` line per redirect; nothing else changes |
| Migrate.ConcatAppend | go/tools/importappengine/main.go:476-481 | writing two lists of strings is writing the first, then the second |
| Migrate.LoadInputs | go/tools/importappengine/main.go:523-525 | the three loaders in main's order; the first that cannot read its file or a record stops the run |
| Migrate.SaveData | go/tools/importappengine/main.go:533-540 | the three data files hold the serialized texts and articles, the redirects, and the crashes |
| Migrate.SavedFiles | go/tools/importappengine/main.go:538-540 | each data file is stored with its contents |
| Migrate.DataPathsApart | go/tools/importappengine/main.go:533-540 | no data file is a blob path |
| Migrate.RenumberAndSerialize | go/tools/importappengine/main.go:527-528 | after renumbering, the strings are a text line per renumbered text, then an article line per rewired article |
| Migrate.CopyCrashes | go/tools/importappengine/main.go:530-531 | the crash records and files after the move, and how it ended |
| Migrate.Migrate | go/tools/importappengine/main.go:516-544 | a load failure or an unknown version stops the run before anything is written; otherwise the run is `Exported` of the loaded data |
| Migrate.Export | go/tools/importappengine/main.go:527-542 | renumber, serialize, move the crashes, save and copy blobs, in main's order |
| Migrate.ExportedPass | go/tools/importappengine/main.go:527-542 | a run that passes moved every crash, saved all three data files, and then copied the blobs |
| Migrate.ExportSaves | go/tools/importappengine/main.go:538-540 | after a successful run, the three data files hold the renumbered data, the redirects and the rehashed crashes |
| Migrate.ExportTextBlobs | go/tools/importappengine/main.go:542 | after a successful run, every text's blob is in the destination tree |
| Migrate.RenumberedBlobs | go/tools/importappengine/main.go:527 | renumbering keeps each text's hash, so the blobs copied for the renumbered texts are those of the loaded ones |
| Migrate.ExportCrashBlobs | go/tools/importappengine/main.go:530-531 | after a successful run, each crash record's hex string is its new hash, and the destination holds a report under it |

## Left out

- File I/O. `ReadFileAll`, `os.Create`, `WriteString`, `CopyFile` and `WriteBytesToFile` are updates of the `files` map. Only a missing file can fail. A failed write or copy is not modelled.
- `PathExists(srcDataDir)`, `PathExists(dstDataDir)` and every `CreateDirIfNotExists` (main.go:517-522, 386, 444, 534). The map has no directories.
- `filepath.Join` is a `/` concatenation. The `Clean` step it also performs is not modelled.
- `copyFileAddText` (main.go:403-419) is never called, so it is not part of this model.
- The `Printf` lines and the `fmt.Sprintf` results that are thrown away (main.go:392, 451, 467, 543) print or compute nothing the run uses.
- `Sha1OfBytes`, `ShortenId`, `Urlify` and `ExtractSumatraCrashingLine` live outside this file. The model takes them as parameters, so no property depends on what they compute.
- `strconv.Atoi` range errors on ids. Integers are unbounded, so an id outside 64 bits is read rather than rejected. The clamping `Atoi` does on a range error is modelled only in `compactIpStr`, where the error is ignored and the clamped value used.
- `TrimSpace` trims ASCII white space only. Unicode spaces are not modelled.
- Times are UTC civil times, which is what `parseTime` returns for a layout without a zone. The fractional seconds that `time.Parse` accepts after the seconds are dropped, because neither `Unix()` nor RFC 3339 output shows them.
- The unused global `dataDir` (main.go:17) is shadowed by the local one in `main`.
- VerifyData: on failure it names an unknown listed version id. The contract does not say that this id is the first one in article order.
- RenumberTexts: on failure it says nothing about the articles array. In Go, `panic` ends the run partway through the rewrite.
- CrashesAllRehash: it ties a record to the report in the original store only when that report was already there. A report that an earlier crash of the same run wrote is not covered.
- CrashRehashAt: the same restriction as CrashesAllRehash. It ties the record at one index to a report of the original store only, not to one that an earlier crash of the same run wrote.
- CrashBlobMatchesRecord: it speaks of report paths that were new to the store. A report already present is kept, and its contents are not compared with the record.
- CopyAllContents: it speaks of blobs that were absent from the destination beforehand. A blob already there is left as it was (CopyAllKeeps).
- ArticleLineFields: it requires tags without `|`. ArticleFieldCount covers the general case.
- CrashLineFields: it requires a compacted address without `|`. A raw IPv6 string can hold any character, and it reaches the line as it is.
