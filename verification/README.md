# Verification of the vedruino core

Dafny models, with proofs, of the parts of the firmware and of its tools where a
mistake is hardest to see: the JSON parser and path search, the script that packs
JSON into C arrays, the log distributor and its client, the OTA updater, and the
socket helpers under them. `dafny verify dfyconfig.toml` checks all of it.

## What is modelled

**lwjson** (`JsonTree`, `JsonLex`, `JsonMachine`, `JsonGrammar`, `JsonComplete`,
`JsonSound`, `JsonLanguage`, `JsonErrors`, `JsonLetters`, `Decimals`, `JsonNumbers`,
`RfcScalars`, `JsonRfc`, `JsonReader`, `TokenPool`, `TokenWalk`, `JsonPath`,
`LwJson`). The class `LwJson` is the parser as it stands: a token array, the root
token, a cursor over a NUL-terminated text, and the `next` field of an open
container lent to its parent until the container closes. It is proved to compute
exactly what a machine on values (`JsonMachine.Parse`) computes, for any text and
any pool size, results and tree alike; read back by kinds and links alone, the pool
is that tree (`TokenWalk`). The machine is then related to two grammars that know
nothing of it. `JsonGrammar` is the language the code accepts, as concrete syntax
with a printer; a text is accepted if and only if it is printed by a document of
that grammar that fits the pool, and the tree returned is the document's.
`RfcScalars` and `JsonRfc` state section 2 of RFC 4627 on their own, down to the
letters and to what numbers say; every text of it round-trips, and which of the
accepted texts are the RFC's is decided by a condition on their documents.
`JsonErrors` says which error a text gets that is not accepted. Path search is
proved to find the first token in the pool that a path leads to along the links,
names and places compared part by part.

**cjsongen.py** (`CJsonGen`). The white-space stripper is proved to preserve the
parse: same tokens, same tree, for every text the parser accepts, and to remove
exactly the white space between them.

**netlog** (`NetlogTable`, `NetlogStreams`, `Netlog`, `NetlogRuns`, `NetlogSafety`,
`NetlogTexts`, `NetlogClient`, `NetlogWorld`, `NetlogReports`). The class `Netlog`
holds the client array and its two counters, and its methods are the sections run
under `clients_mutex`; each is tied to a function on the table as a value.
`NetlogRuns` lets the control task's sections interleave with flushes;
`NetlogSafety` proves what holds in every state of every run, and `NetlogTexts` what
text each client has received by then. `NetlogClient` is the Python client by
itself. `NetlogWorld` puts one client and the board together: the board's sections
and flushes, restarts at any moment, the steps of a subscription, boot messages and
datagrams that arrive late, out of order, repeatedly or never. `NetlogReports` has
what follows from it. Whether a send succeeds is decided by the environment: a
function from the number of the send to a boolean.

**ota.c** (`Ota`). The server over NOR flash, where a write can only clear bits,
with failing reads, writes, erases, receives and allocations as inputs.

**ip.c** (`Ip`). Address text, sending with retries, receiving exactly n bytes.

## Where the code and its documentation differ

- The comments at `src/lib/lwjson/lwjson.c:476` and `:692` require RFC 4627. The
  accepted language is wider: commas may repeat, trail, or be missing behind a
  closed container; the root may stay open; numbers may have leading zeros and
  `e-+5`; form feed is a blank; control characters may stand in strings.
  `JsonLanguage.AcceptedExactlyDocuments` says exactly how wide,
  `JsonRfc.AcceptedRfcTexts` that this list is complete, and `JsonRfc.WiderThanRfc`
  gives a text.
- `pk_tcp_recvn` (`src/lib/ip.c:216-229`) reads every piece to the start of the
  buffer, while `src/lib/ip.h` promises that the received bytes are in the buffer.
  `Ip.IntactOnlyInOneRead` proves that this holds for all payloads exactly if
  everything arrives in one read.
- When a send fails during a flush, `del_client(i)` moves the next client into slot
  i and the loop goes on behind it (`src/lib/netlog.c:395-414`), so that client gets
  no copy of the block, and its packet numbers do not show the gap.
  `NetlogTable.WhoMissesTheBlock`, `NetlogTable.NobodySkippedIff` and
  `NetlogStreams.SkippedUnnoticed` say when and how, and
  `NetlogStreams.SecondOfTwoSkipped` shows it on two clients.
- `docs/netlog.md:106-109` has the packet numbers tell of lost or reordered
  datagrams. A boot message of an older session that arrives late makes the client
  forget the number it has seen (`tools/netlog.py:226-227`), while the board finds
  the client in its table and counts on (`src/lib/netlog.c:264-267`); the next
  datagram is then reported although nothing is missing.
  `NetlogReports.LosslessReportedIff` says exactly when this happens and
  `NetlogReports.StaleAtFive` gives a case. A TCP client loses its log connection in
  the same way, and the board does not open another one
  (`NetlogReports.StaleCostsLog`, `NetlogReports.NeverReconnects`).
- `docs/netlog.md:106-107` has each message in its own datagram; the code cuts what
  stdout flushes into blocks of the buffer size, so this holds exactly for flushes
  that are not empty and fit the buffer (`NetlogStreams.OneDatagramIff`,
  `NetlogStreams.TwoDatagrams`).
- Path search has four quirks, all part of what `TokenWalk.Names` and
  `TokenWalk.Fits` say a path means: a path that ends in a dot behind a key never
  matches, `#1.` means the same as `#1`, a wildcard as the last step never matches,
  and an index wraps around at 2^32.
- The MD5 branches of `src/lib/ota.c` are guarded by a macro of another name than
  the generated one, so `docs/ota.md`'s `verify_md5` has no effect and the model has
  no MD5.

## Model

| member | source | states |
|---|---|---|
| JsonLanguage.AcceptedExactlyDocuments | src/lib/lwjson/lwjson.c:482-688 | whatever the text and the pool, parsing succeeds if and only if the text is printed by a document of the relaxed grammar with no more values than tokens |
| JsonLanguage.ParseSound | src/lib/lwjson/lwjson.c:521-682 | an accepted text is given back as a well-formed document: every bracket matched, no nested container open, and the result is that document's tree |
| JsonComplete.ParseDocument | src/lib/lwjson/lwjson.c:482-688 | every document yields its own tree when it fits the pool and lwjsonERRMEM when it does not, never another error |
| JsonLanguage.Unambiguous | src/lib/lwjson/lwjson.c:482-688 | a text never has two readings with different trees |
| JsonLanguage.UnclosedEnds | src/lib/lwjson/lwjson.c:672-682 | a text accepted with its root open has a child, and ends in a comma or, if no gap follows, in the closing bracket of its last child, which is a container |
| JsonRfc.RoundTrip | src/lib/lwjson/lwjson.c:474-688 | any RFC 4627 text with N values below the root, in the RFC's own letters, parses to exactly what it says, numbers included, if the pool has N tokens, and gives lwjsonERRMEM otherwise |
| RfcScalars.ScalarIs | src/lib/lwjson/lwjson.c:594-643 | every string, number and literal name of sections 2.2 to 2.5 is one to the parser and comes out with the RFC's meaning |
| RfcScalars.FromScalarIs | src/lib/lwjson/lwjson.c:594-643 | and what the parser reads without using its liberties is one of the RFC |
| JsonNumbers.IntegerParsed | src/lib/lwjson/lwjson.c:230-233 | for every n, the digits of n parse to the integer n, and with a minus to -n |
| JsonNumbers.RealParsed | src/lib/lwjson/lwjson.c:235-296 | with D the integer that all digits make, the value times ten to the length of the fraction is D times ten to the exponent, the exponent's power being on the other side after a minus |
| JsonNumbers.NumberCases | src/lib/lwjson/lwjson.c:206-298 | `1e2` is 100, `5e-1` is 0.5, `-1.5` is -1.5 and `-5` is the integer -5 |
| Decimals.NumberMeans | src/lib/lwjson/lwjson.c:206-298 | the same for every number of the relaxed syntax, leading zeros and `e-+5` included, with the integer type exactly without fraction and exponent |
| JsonErrors.ErrIff | src/lib/lwjson/lwjson.c:538-547 | lwjsonERR is given exactly for a closed document that fits the pool and has something other than blanks behind it |
| JsonErrors.ParIff | src/lib/lwjson/lwjson.c:487-491 | lwjsonERRPAR is given exactly for the empty text |
| JsonErrors.MemoryOnly | src/lib/lwjson/lwjson.c:551-556 | a token for every character is always enough, and any outcome but lwjsonERRMEM is the same with more tokens |
| JsonLetters.OneBetween | src/lib/lwjson/lwjson.c:68-100 | the single characters that may stand between the brackets of an array are the five blanks, form feed included, the digits and another opening bracket |
| JsonLetters.EscapesAre | src/lib/lwjson/lwjson.c:128-139 | a string of a backslash and one more character is accepted exactly for the eight escapes |
| JsonLetters.HexAre | src/lib/lwjson/lwjson.c:141-153 | a string of `\u` and four more characters is accepted exactly if all four are hexadecimal digits |
| JsonLetters.PlainAre | src/lib/lwjson/lwjson.c:123-161 | any other single character but quote and backslash is accepted in a string, control characters too |
| JsonRfc.RfcEnds | src/lib/lwjson/lwjson.c:474-482 | no text of the RFC ends in a comma |
| JsonRfc.AcceptedRfcTexts | src/lib/lwjson/lwjson.c:474-482 | an accepted text is a text of the RFC if and only if it is printed by a strict document: root closed, exactly one comma between elements and none elsewhere, no form feed, and RFC keys, strings and numbers |
| JsonRfc.WiderThanRfc | src/lib/lwjson/lwjson.c:668-682 | a case that is not: `[1,` is accepted as an array of 1, and no text of the RFC is that text |
| JsonSound.Sound | src/lib/lwjson/lwjson.c:521-671 | a successful run from any point in the middle of a text, with any containers open, has read elements of the grammar and attached exactly their values |
| JsonComplete.RunElems | src/lib/lwjson/lwjson.c:521-671 | any list of elements, whatever is open around it and whatever follows, costs one token per value and is attached in order, or runs out of tokens |
| JsonComplete.RunStop | src/lib/lwjson/lwjson.c:659-682 | with only the root open, a text that stops behind a comma, or behind nothing, is accepted with the children read so far |
| JsonLex.LexStringSound | src/lib/lwjson/lwjson.c:110-164 | what is read as a string consists of plain characters and legal escapes and is followed by its closing quote |
| JsonLex.LexStringComplete | src/lib/lwjson/lwjson.c:110-164 | every legal string body is read up to its own closing quote, escaped quotes included |
| JsonLex.LexNumberComplete | src/lib/lwjson/lwjson.c:206-275 | every number of the relaxed syntax is read in full, with the same sign, digits, fraction and exponent |
| JsonReader.SkipBlanks | src/lib/lwjson/lwjson.c:68-100 | stops at the first non-blank or at the NUL, never behind it, and fails exactly at the end |
| JsonReader.HexDigits | src/lib/lwjson/lwjson.c:141-153 | succeeds exactly if four hexadecimal digits stand at the cursor, and never passes the NUL in finding out |
| JsonReader.StringBody | src/lib/lwjson/lwjson.c:121-163 | start and length are exactly the bytes between the quotes, also with escapes of two and six bytes, and unterminated or ill-escaped strings are errors |
| JsonReader.ParseString | src/lib/lwjson/lwjson.c:110-164 | succeeds exactly on a legal string behind optional blanks, with the cursor behind its closing quote |
| JsonReader.ParsePropertyName | src/lib/lwjson/lwjson.c:173-196 | succeeds exactly on a string and a colon with a value behind it; the name is the string |
| JsonReader.Matches | src/lib/lwjson/lwjson.c:602-631 | the literal comparison is exact and does not read past the NUL |
| JsonReader.Digits | src/lib/lwjson/lwjson.c:230-253 | consumes all digits at the cursor; the result is their base-ten value and the power of ten their number |
| JsonReader.ScaleBy | src/lib/lwjson/lwjson.c:277-285 | without a minus the result is the value times 10^e; with one, the result times 10^e is the value |
| JsonReader.Fraction | src/lib/lwjson/lwjson.c:235-257 | adds frac / 10^k for k digits; a dot without digits is an error |
| JsonReader.ExponentPart | src/lib/lwjson/lwjson.c:258-286 | multiplies by ten to the exponent, or after a minus gives the number that times that power is the value; a mark without digits is an error |
| JsonReader.ParseNumber | src/lib/lwjson/lwjson.c:206-298 | the value is sign * (int + frac/10^k) * 10^e over exact reals, and an integer exactly when neither a dot nor an exponent is written |
| JsonReader.CheckAfterOpen | src/lib/lwjson/lwjson.c:438-456 | accepts exactly a key or closing brace in an object and a value or closing bracket in an array |
| LwJson.LwJson.constructor | src/lib/lwjson/lwjson.c:465-472 | a new instance has a zeroed pool and nothing parsed |
| LwJson.LwJson.AllocToken | src/lib/lwjson/lwjson.c:55-61 | hands out the next slot zeroed, or NULL with nothing changed when all are in use |
| LwJson.ReadScalar | src/lib/lwjson/lwjson.c:594-643 | the token ends up holding the scalar at the cursor, its links and name untouched, or the text is no scalar |
| LwJson.LwJson.AppendChild | src/lib/lwjson/lwjson.c:570-578 | the new token becomes the last link of the current container's children while every other open container keeps its pointer to its parent |
| LwJson.LwJson.ReadValue | src/lib/lwjson/lwjson.c:580-670 | keeps the pool invariant over reading a scalar with its delimiter or opening a container, and agrees with the machine, errors included |
| LwJson.LwJson.Member | src/lib/lwjson/lwjson.c:551-671 | one element read into the pool: invariant kept, cursor strictly advanced, outcome that of the machine |
| LwJson.LwJson.Loop | src/lib/lwjson/lwjson.c:520-682 | the loop terminates with each turn advancing the cursor, and on success the pool is the layout of the resulting tree with nothing open |
| LwJson.LwJson.Parse | src/lib/lwjson/lwjson.c:482-688 | for any NUL-terminated text and any pool the result code and the tree are those of the machine; an empty text leaves the instance as it was and any other failure clears the parsed flag |
| LwJson.LwJson.ParsedReadsBack | src/lib/lwjson/lwjson.c:521-688 | after a successful parse the pool, read back from the root by token kinds, first_child and next, with names and strings cut out of the text, is exactly the parsed value |
| TokenWalk.ListReadsBack | src/lib/lwjson/lwjson.c:570-648 | a laid-out child list reads back as the members it was made from, in order, with their names and values |
| LwJson.LwJson.EachTokenOnce | src/lib/lwjson/lwjson.c:570-593 | after a successful parse a walk over first_child and next meets slots 0, 1, 2, ... each once, so the tokens form one tree in document order |
| TokenPool.ChainIsOpen | src/lib/lwjson/lwjson.c:591-592 | while containers are open, following next from the current one visits exactly the open ancestors and ends with the root's NULL |
| TokenPool.WalkIsPreorder | src/lib/lwjson/lwjson.c:570-578 | the links of any laid-out child list are a preorder walk of consecutive slots |
| TokenPool.AppendBehindLast | src/lib/lwjson/lwjson.c:574-577 | linking a token behind the last child keeps the layout of everything that is open |
| TokenPool.AppendFirst | src/lib/lwjson/lwjson.c:571-572 | setting a first child of an empty container keeps the layout of everything that is open |
| TokenPool.OpenNew | src/lib/lwjson/lwjson.c:582-593 | storing the parent in the new container's next makes it the innermost open one |
| TokenPool.AddScalar | src/lib/lwjson/lwjson.c:594-648 | filling the new slot with a scalar makes it the last, NULL-terminated child |
| TokenPool.CloseTop | src/lib/lwjson/lwjson.c:533-539 | resetting next turns the container into its parent's complete last child |
| LwJson.PathSegment | src/lib/lwjson/lwjson.c:308-352 | cuts at the first dot, says whether it is the last segment and where the rest starts, and never reads past the path's NUL |
| LwJson.ParseIndex | src/lib/lwjson/lwjson.c:380-387 | succeeds exactly on digits, with their value modulo 2^32 |
| LwJson.LwJson.NameMatches | src/lib/lwjson/lwjson.c:415-416 | holds exactly if the token's name equals the segment |
| LwJson.LwJson.Find | src/lib/lwjson/lwjson.c:360-430 | returns the token at the least address the path selects below the parent, NULL if it selects none |
| LwJson.LwJson.FindKey | src/lib/lwjson/lwjson.c:411-427 | the key case, with backtracking over duplicate keys |
| LwJson.LwJson.FindAny | src/lib/lwjson/lwjson.c:403-409 | the wildcard case, with backtracking over all elements |
| LwJson.LwJson.FindIndex | src/lib/lwjson/lwjson.c:375-401 | the index case: only that element is searched |
| LwJson.LwJson.FindPath | src/lib/lwjson/lwjson.c:719-724 | on a parsed instance the result is the first token of the pool that the path leads to: each token on the way is a child of the one before, by the links, and has the part's name, or its place for `#n`, or is any element for `#`; it reads back as the value reached in the tree on the same way; NULL exactly if the path leads nowhere |
| LwJson.LwJson.FindPathFrom | src/lib/lwjson/lwjson.c:737-749 | the same from any token of the tree, with NULL for a token that is no container |
| TokenWalk.FoundIs | src/lib/lwjson/lwjson.c:360-430 | what depth-first search over the steps of a path finds is what the path leads to, part by part, empty parts and trailing dots included |
| TokenWalk.KeyFound | src/lib/lwjson/lwjson.c:414-426 | in an object that has the key k the path k finds the first child of that name, with that name and value |
| TokenWalk.IndexFound | src/lib/lwjson/lwjson.c:376-401 | in an array the path `#n` finds element n, counted from 0 and modulo 2^32, and NULL exactly if the array is too short |
| TokenWalk.KeyCases | src/lib/lwjson/lwjson.c:414-426 | `a` in {"a":1,"b":2} finds 1 and `b` finds 2 |
| TokenWalk.IndexCases | src/lib/lwjson/lwjson.c:376-401 | `#0` in [7,8] finds 7 and `#1` finds 8 |
| JsonPath.FirstIsLeast | src/lib/lwjson/lwjson.c:360-430 | depth-first search with backtracking returns a selected address no later than any other selected one, and none exactly if nothing is selected |
| JsonPath.SlotsFollowOrder | src/lib/lwjson/lwjson.c:55-61 | the order of selected addresses is the order of their tokens in the pool |
| JsonPath.FirstFindsFirst | src/lib/lwjson/lwjson.c:360-430 | the token found has the least slot of all tokens the path selects |
| CJsonGen.Generate | tools/cjsongen.py:26-56 | the loop fails or prints, for each character of the stripped text, its code, and a zero behind them |
| CJsonGen.GenDocument | tools/cjsongen.py:29-53 | on any document of the parser's grammar the script fails exactly if a string has a line break, and otherwise writes the stripped document |
| CJsonGen.OutputPacks | tools/cjsongen.py:29-53 | for an accepted text the output is the same document, its strings, numbers, names and brackets as they were, with no space, tab, carriage return or line feed between them and all commas and form feeds in their places |
| CJsonGen.PackedIsShortest | tools/cjsongen.py:37-39 | no document that differs from it only in white space has a shorter text |
| CJsonGen.SpacesGone | tools/cjsongen.py:37-39 | `{ "a": 1 }` comes out as `{"a":1}` |
| CJsonGen.StripDocIs | tools/cjsongen.py:37-39 | dropping that white space leaves a document with the same tree |
| CJsonGen.ParsePreserved | tools/cjsongen.py:29-53 | for every text the parser accepts and the script does not refuse, the output parses to the same tree with the same pool |
| CJsonGen.FailsOnLineBreaks | tools/cjsongen.py:30-35 | on an accepted text the script refuses exactly if a key or string of it contains a line break |
| CJsonGen.Idempotent | tools/cjsongen.py:29-53 | for any text at all, a second pass changes nothing |
| CJsonGen.CodesAreOfText | tools/cjsongen.py:41-53 | no character is invented, so an ASCII text gives codes that fit a char |
| Ip.TextInjective | src/lib/ip.c:29-49 | two address texts are equal if and only if address and port are |
| Ip.TextFits | src/lib/ip.h:24 | the text with its NUL fits the 24-byte buffer for every address and port |
| Ip.TextIs | src/lib/ip.c:31-47 | the text of an address made of four octets, the first one the most significant, is those octets in that order and the port |
| Ip.DottedIs | src/lib/ip.c:42 | written in decimal with dots between them and a colon in front of the port |
| Ip.AddrToStr | src/lib/ip.c:29-49 | the buffer receives the whole text and a NUL |
| Ip.TcpSend | src/lib/ip.c:132-155 | write is called again only after ENOMEM and at most 101 times in all; the send succeeds exactly if the last call did, and the peer's stream grows by the prefix whose length is returned, by nothing on failure |
| Ip.TcpSendN | src/lib/ip.c:178-187 | terminates; on true the stream grew by the whole buffer, on false by a proper prefix of it |
| Ip.TcpRecvN | src/lib/ip.c:216-229 | the stream loses exactly what was read, n bytes on success; the buffer holds the pieces laid over one another at its start |
| Ip.IntactOnlyInOneRead | src/lib/ip.c:216-229 | for reads of given lengths every payload arrives intact if and only if there is a single read |
| Ip.DamagedBySecondRead | src/lib/ip.c:216-229 | for any two or more reads there is a payload that is damaged |
| Netlog.Netlog.constructor | src/lib/netlog.c:46-61 | the module starts with no clients and nothing sent |
| Netlog.Netlog.GetClientIdx | src/lib/netlog.c:334-340 | the first client of that address, -1 exactly if none |
| Netlog.Netlog.GetFreeIdx | src/lib/netlog.c:343-348 | the slot behind the last client, -1 exactly if the table is full |
| Netlog.Netlog.DelClient | src/lib/netlog.c:351-362 | removes that client only, keeps the order of the others, closes its socket, and keeps the UDP counter exact |
| Netlog.Netlog.MoveDown | src/lib/netlog.c:357-359 | the overlapping move loses no slot but the first |
| Netlog.Netlog.Insert | src/lib/netlog.c:292-309 | given the free slot that its assertion asks for, appends the client behind the others, with packet number 0 and its address if it is a UDP client, and counts it |
| Netlog.Netlog.Unsub | src/lib/netlog.c:314-331 | with distinct addresses in the table exactly the client of that address is gone and the others are there in order, its socket is closed, the UDP counter loses one if it was a UDP client, nothing is sent; an absent address changes nothing |
| NetlogTable.UnsubscribedLeaves | src/lib/netlog.c:314-331 | the same of the table as a value |
| Netlog.Netlog.FillUdpBuf | src/lib/netlog.c:390-392 | the block stands in the buffer behind the packet number's byte |
| Netlog.Netlog.SendOne | src/lib/netlog.c:395-408 | a UDP client gets its number and the current block, which the buffer still holds; a TCP client gets the block |
| Netlog.Netlog.Turn | src/lib/netlog.c:395-414 | a client is sent to and stays, or its send fails and it is removed; the buffer keeps the block for the next UDP client |
| Netlog.Netlog.SendBlockToAll | src/lib/netlog.c:395-414 | the loop that deletes while it iterates does to table, counters and sockets what the pass over the table as a value does |
| Netlog.Netlog.Flush | src/lib/netlog.c:364-424 | a whole flush, block by block, is the flush of the table as a value, console copy included |
| NetlogTable.IndexOf | src/lib/netlog.c:334-340 | a found index is the first with that address, and nothing is found exactly if no entry has it |
| NetlogTable.SendAllIs | src/lib/netlog.c:395-414 | after the loop the table is the starting one minus the clients whose send failed, in order, the block went to exactly the delivered ones, and the failed ones' sockets are closed |
| NetlogTable.WhoMissesTheBlock | src/lib/netlog.c:351-362 | the clients that do not get the block are exactly the failed ones and the immediate successor of each |
| NetlogTable.NobodySkippedIff | src/lib/netlog.c:410-413 | no kept client misses the block if and only if no send but the last client's fails |
| NetlogTable.SendAllKeeps | src/lib/netlog.c:351-362 | a block conserves sockets (in the table or closed), adds no address, and takes from the UDP counter what it takes from the table |
| NetlogTable.FlushKeeps | src/lib/netlog.c:378-424 | the same over a whole flush |
| NetlogStreams.SentToEach | src/lib/netlog.c:395-408 | each client's socket gets the block in one piece, once, or not at all |
| NetlogStreams.FlushInStep | src/lib/netlog.c:396-404 | whatever sends fail, every client still in the table has received consecutively numbered datagrams and its next number continues them |
| NetlogStreams.SkippedUnnoticed | src/lib/netlog.c:410-413 | a skipped client stays in the table with nothing sent and its next number unchanged, so the loss is invisible to it |
| NetlogStreams.SecondOfTwoSkipped | src/lib/netlog.c:395-414 | a case: of two clients the first one's send fails, and the second gets nothing either and is kept |
| NetlogStreams.FlushFits | src/lib/netlog.c:386-393 | every datagram of a flush fits the UDP buffer |
| NetlogStreams.FlushText | src/lib/netlog.c:378-424 | whatever sends fail, a flush gives a client exactly the blocks whose fate for it is delivered, in order |
| NetlogStreams.FlushGained | src/lib/netlog.c:378-424 | while none of its sends fails, a flush gives every client exactly the flushed bytes, however they are cut, and a UDP client one datagram for each piece of at most the buffer size |
| NetlogStreams.OneDatagramIff | src/lib/netlog.c:385-393 | a flush without failing sends reaches a UDP client as a single datagram if and only if it is not empty and fits the buffer |
| NetlogStreams.TwoDatagrams | src/lib/netlog.c:390 | one byte more than the buffer holds makes two datagrams |
| NetlogStreams.FlushToConsole | src/lib/netlog.c:416-418 | a flush with nobody in the table goes to the console whole, and one that leaves a client in the table not at all |
| NetlogSafety.NextKeeps | src/lib/netlog.c:256-331 | every section of the control task and every flush keeps the invariant on table, counters, sockets and streams |
| NetlogSafety.RunSafe | src/lib/netlog.c:256-375 | in every state of every interleaving the "should never fail" assertion holds, the table is within bounds with an exact UDP counter and distinct addresses, and no socket is closed twice or used once closed |
| NetlogSafety.RunNumbered | src/lib/netlog.c:396-404 | in every state of every interleaving the first bytes of a UDP client's datagrams are 0, 1, 2, ... modulo 128 since its subscription, each fits the buffer, and each went to the address and port it is in the table under |
| NetlogSafety.JoinsIfRoom | src/lib/netlog.c:256-312 | from any state in which an address is absent and the control task idle, its sections lead to a table with that client behind the others if there is room, and to the same state if there is none |
| NetlogSafety.JoinsOnlyIfAsked | src/lib/netlog.c:256-312 | in every run a client is put into the table only after it asked for udp or tcp while it was not in it, room was found, and its socket was opened, for tcp also connected |
| NetlogTexts.LeftForGood | src/lib/netlog.c:314-331 | in every run an unsubscription takes the client of that address and no other out of the table, its socket is closed, and that socket never gets anything again |
| NetlogTexts.RunText | src/lib/netlog.c:292-424 | in every run, whoever joins and leaves and whatever fails, a client has received since its subscription exactly the blocks delivered to it |
| NetlogTexts.RunDelivers | src/lib/netlog.c:292-424 | in every run, a client still in the table and with no send failed since its subscription has received exactly the concatenation of everything flushed since |
| NetlogTexts.UdpAndTcpAgree | src/lib/netlog.c:395-408 | in every run, two clients that joined with no flush in between have seen the same text, be they UDP or TCP |
| NetlogClient.BootRoundTrip | tools/netlog.py:200-206 | a datagram reads as a boot message of a board exactly if it starts with what that board broadcasts |
| NetlogClient.BootLayout | src/lib/netlog.c:199-201 | and that is 48 bytes: the ten of the magic, the six of the MAC address, the 32 of the session |
| NetlogClient.LogClient.HandleBcast | tools/netlog.py:200-229 | resubscribes exactly on a boot message of its own board with another session; takes over that identity, restarts the packet count or drops the TCP log; otherwise changes nothing |
| NetlogClient.LogClient.HandleDatagram | tools/netlog.py:279-289 | passes on all but the first byte, and reports a number that is not the next one |
| NetlogWorld.WorldNextKeeps | tools/netlog.py:105-137 | every section and flush of the board, a restart at any moment, the answer to a subscription and its arrival, any datagram on either port and the acceptance of a connection keep client and board consistent |
| NetlogWorld.FlushNumbered | src/lib/netlog.c:396-404 | a UDP client's datagrams stay consecutively numbered over a flush even if the client is removed on the way |
| NetlogReports.ReportedIff | tools/netlog.py:279-289 | in every run, for arrivals in any order: behind a boot message that passed the filter a datagram is reported exactly if its number is not 0, and else exactly if it is not one more than the last one's |
| NetlogReports.InOrderReportedIff | tools/netlog.py:226-289 | in every run with k datagrams lost right before an arrival in order: reported if and only if k mod 128 != 0 within a subscription; behind a boot message that passed, if and only if its number is not 0, which for a new entry is the number of its datagrams lost |
| NetlogReports.LosslessReportedIff | tools/netlog.py:226-289 | in every run with nothing lost or reordered: reported if and only if a boot message passed since the last arrival while the sending entry was already in the table and the number is not 0, or the last arrival was a late datagram of the entry before this one |
| NetlogReports.StaleMessage | tools/netlog.py:200-229 | a late message of an older session makes an up-to-date client subscribe again with no effect on the board |
| NetlogReports.StaleReported | tools/netlog.py:226-227 | after it the next datagram is reported with nothing lost, if and only if the entry's next number is not 0 |
| NetlogReports.StaleAtFive | tools/netlog.py:226-227 | the case of a client that has received numbers 0 to 4: datagram 5 is reported |
| NetlogReports.LogConnectionIff | tools/netlog.py:222-258 | in every run, with no connection waiting, a TCP client's log connection is that of its last entry if and only if the entry was made after the last boot message that passed, or its connection was the first one waiting then |
| NetlogReports.StaleCostsLog | tools/netlog.py:222-224 | after a late message of an older session a TCP client is in the table, has the live session stored, and has no log connection |
| NetlogReports.NeverReconnects | src/lib/netlog.c:264-267 | on every path from there it gets no log connection until the board makes a new entry for it |
| NetlogReports.RestartTracked | tools/netlog.py:72-137 | whatever boot messages are lost, repeated, reordered or stale and whenever the board restarts, also between making the entry and answering: a client that has handled a message of the live session and is back in its main loop has that session stored and is in the board's table exactly once, unless the board has removed it since; and at most one copy per boot passes the filter |
| Ota.WriteExact | src/lib/ota.c:265-266 | writing behind what is programmed stores exactly the data |
| Ota.WriteIsExactIff | src/lib/ota.c:265-266 | on any flash contents a write stores its data if and only if it need not set a bit |
| Ota.EraseSizeFits | src/lib/ota.c:367-376 | the erased range is whole blocks of 4096 bytes, covers the written bytes, stays in the partition and exceeds them by less than a block |
| Ota.AnsweredOkIff | src/lib/ota.c:210-326 | a request is answered OK if and only if its header is read and fits, some first chunks reach the announced size inside the partition with every write succeeding, and the image is accepted for booting |
| Ota.Server.EraseUpdPart | src/lib/ota.c:367-384 | clears the rounded range and nothing else; if all that was touched is below the count, the whole partition is clean |
| Ota.Server.CheckUpdPart | src/lib/ota.c:335-365 | clean means every byte is 0xff, dirty means one is not, and an error means a read or an allocation failed |
| Ota.Server.WriteRaw | src/lib/ota.c:265 | succeeds only inside the partition and touches nothing outside its range, even when it fails part-way |
| Ota.Server.Receive | src/lib/ota.c:244-272 | however it ends, nothing behind the counted bytes was touched; on OK the partition is exactly the received payload and erased behind it, and the count exceeds the announced size by less than one receive |
| Ota.AnswerIs | src/lib/ota.c:210-333 | each of the six answers is given exactly if what it stands for has happened: the size exceeds the partition; the magic, the size or the md5 is not read; everything came and was stored and is too little; the payload completes and the image is accepted, or is invalid; or memory, a receive, a write, the space or the boot call failed |
| Ota.Server.HandleReq | src/lib/ota.c:210-333 | gives that answer; nothing behind the counted bytes is touched; on OK the partition is exactly the payload |
| Ota.Server.ServerTask | src/lib/ota.c:103-208 | over any sequence of connections, each time the server is back in accept the whole partition is 0xff and the count 0; it restarts on the first request that is answered OK, with exactly that payload in the partition; and only failing flash or memory shuts it down |

## Left out

- Numbers are unbounded integers and exact reals: `long long` overflow and float rounding are not modelled, so the number results hold where the digits fit.
- `lwjson_parse_ex` on a buffer without a terminating NUL, and NULL arguments; the entry modelled is `lwjson_parse`. The comment option is off, as in `src/lib/lwjson/lwjson_opt.h`.
- `lwjson_free`, the streaming API and the print functions of lwjson; the last two are declared in `lwjson.h` and have no implementation in the repository.
- The pool after a failed parse: only the result code, the parsed flag and the safety of all accesses are stated.
- JsonReader.ParseString: on failure the out-pointers of the C function may be half written, which is not modelled.
- LwJson.LwJson.FindPathFrom: a token that does not belong to the parsed tree is not covered.
- CJsonGen.Generate: the array as a sequence of numbers, not its C spelling; the line-end translation of Python's stdin happens before it and is not modelled.
- Log messages of the netlog module itself, in particular the unprotected listing of the table at `src/lib/netlog.c:172-176`, and the switching of stdout that keeps a flush from recursing.
- Netlog.Netlog.SendTo: a send passes on the whole block or fails; a short write to a TCP client, which the code counts as success, is not modelled, nor are the retries inside a UDP send.
- Netlog.Netlog.constructor: tasks, mutex, broadcast and the MAC address; the mutex appears as the atomicity of its sections.
- NetlogSafety.RunSafe: a socket whose connection fails is never closed by the code; the model counts it as opened and says no more about it.
- Parsing of control requests, apart from the choice of the protocol, and the answers to them.
- NetlogReports.RestartTracked: session ids are assumed distinct, and nobody else subscribes the client's own address and port; a client whose subscription is refused or unanswered stops, as the script does.
- NetlogReports.LogConnectionIff: a log connection that breaks by itself (`tools/netlog.py:261-276`) is not modelled.
- NetlogClient.LogClient.HandleDatagram: an empty datagram raises an error in the script; datagrams are assumed to fit its receive buffer of 1024 bytes.
- Ota.Server.HandleReq: what the header reads bring is an input, because `pk_tcp_recvn` may spoil them; the model uses only the stored size and whether each read succeeds.
- Ota.Server.EraseRange: a failing erase leaves the flash as it was; the server stops after it in any case.
- MD5, the boot partition switch itself and the restart; the statistics logged around an update.
- mqtt, wifi, mdns, i2c tools, sysmon, logging, configuration, build and the other scripts: plumbing around hardware or libraries, or easy members only.
