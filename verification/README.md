# fetchmail, modelled and verified

A model in Dafny of the parts of fetchmail where a mistake loses mail, fetches it twice, or
answers a server wrongly, with proofs of what those parts are for.

- **The UID store** (`IdBits`, `PatriciaTrie`, `TrieLinks`, `NumIndex`, `UidList`, `UidStore`, `TrieFree`):
  the PATRICIA trie of `uid_db.c` as nodes with pointers, its record array and message-number index, and
  the traversal without a stack that frees it. `PatriciaTrie` has the shape of a trie as a value,
  `TrieLinks` says how pointers realise it, and `UidList` is the store as a list, which the class
  `UidStore.UidDb` is proved against.
- **POP3 bookkeeping** (`Pop3Uidl`, `Pop3Polls`, `Pop3Store`): fast and full UIDL, what counts as old, the swap of
  the two stores at the end of a poll, and whole runs of polls, on stores seen as lists; and the search and the
  verdicts of fast UIDL on the trie, the record array and the number index themselves.
- **IMAP** (`ImapMailbox`, `ImapSession`, `FetchTalk`, `FetchLoop`, `FetchRuns`): a server's mailbox and its
  EXPUNGE responses, the client's counters and its translation of message numbers, the fetch loop of `driver.c`
  with the commands it sends about each message, and whole sessions with errors anywhere.
- **Cryptography** (`DesTables`, `Des`, `DesComplement`, `DesVector`, `SmbDes`, `SmbVector`, `Md5Block`, `Md5`,
  `Md5Context`, `Md5Vector`, `CramMd5`): DES as `smbdes.c` does it on arrays of bits, MD5 in streaming form, and
  HMAC-MD5; each cipher and digest also against a published answer, followed step by step.
- **Text** (`MsgId`, `Base64`, `ArgvExchange`, `GetoptSpec`, `Getopt`, `GetoptReports`, `IdFile`, `SavedLists`, with
  `CText` in common): the message-id recogniser, the base64 codecs, option scanning with argv rearranged, and the
  file of saved UIDs.
- **Address headers** (`ReplyHackSpec`, `ReplyHack`, `ReplyRoom`, `ReplyRuns`, `ReplyPieces`, `ReplyTraps`,
  `ReplyText`, `ReplyAddresses`, `ReplyLists`): `reply_hack`, what its insertions have in common for every header, and
  which addresses of a list are given the host.

Code that changes things in place is modelled by classes and methods over arrays and pointers, each proved
against a function of the old state; the properties are then proved of those functions. What a server, a
delivery agent or the user does is a parameter.

`dafny verify dfyconfig.toml` checks everything.

## Findings

Four properties that one would expect do not hold of the code. Each has an input that shows it and the exact
situation in which it fails.

- **A header gets the host name once for each address** (`rfc822.c:51-229`). For `Cc:a, ,` and host `h`,
  reply_hack makes `Cc:a@h@h, ,` (`ReplyHackSpec.DoubledHost`). A comma behind a blank address is itself taken
  for a bare name, so that the end of the next address puts the host in once more, as far back as blanks and
  commas go. Two insertions fall between the same commas if and only if such a trap is sprung
  (`ReplyTraps.ApartExactly`): a blank address stands between commas with a comma or a header end right behind it,
  its closing comma is scanned as the beginning of an address, and from the first comma behind the last insertion up
  to the blank address there are only blanks and commas. So `Cc:a,, ,` is hit as well, and `Cc:, ,` is not.
- **An address without a host is given one, behind its name, and no other is** (`rfc822.c:113-205`). For lists of
  plain addresses, addresses with a comment and addresses in brackets, `ReplyAddresses.IsGiven` and
  `ReplyAddresses.HostPlace` say exactly which are given the host and where. They are as expected but for three things.
  The character behind a comma is passed over, so that a bare name of one letter directly behind it is not seen:
  `To: a,b` becomes `To: a@h,b` (`ReplyLists.BehindComma`). The bracket that closes an address with its own host, or
  the null address `<>`, is passed over as well, so that the addresses behind it are taken for part of a bracket, up
  to the next bracket without a host: `To: <a@x>, bo` stays as it is (`ReplyLists.BehindBrackets`). And a comment
  directly behind a name of one letter, or one that ends in a semicolon, is taken for part of the name:
  `To: a(A)` becomes `To: a(A)@h` (`ReplyLists.BehindComment`).
- **A message leaves an IMAP mailbox only for a reason of this run** (`imap.c:673-707`, `imap.c:1365-1372`).
  EXPUNGE takes whatever is flagged, so a pass loses a message that it did not tell the server to delete exactly if
  that had been flagged before and an EXPUNGE was completed, whether or not the pass ended with an error
  (`FetchRuns.VisitMailbox`; an EXPUNGE that breaks off takes what the server got to). Without "keep" nothing is
  flagged when the first pass begins. `FetchRuns.FlaggedBeforeGoesToo` runs the failing case with "keep" and
  "limitflush".
- **The room reserved for a rewritten header suffices** (`rfc822.c:88-91`). It does for every header if and only if
  the host name does not end in a comma (`ReplyRoom.RoomExactly`): such a comma is taken for the end of the address,
  so that in `To:<a><a>` both addresses are given the host, while room is reserved for one. What is proved of
  reply_hack is therefore proved for the other host names.

Where comments and code disagree, the model follows the code: `set_uid_db_num` does not write `rec->num`
(`uid_db.c:351-379`), although its comment says that it sets the number of the record.

## Model

| member | source | states |
|---|---|---|
| IdBits.FindFirstDiffBit | uid_db.c:128-157 | -1 exactly for equal ids, else the first bit in which the ids differ, however long each is |
| IdBits.StandaloneBit | uid_db.c:187-209 | the bit chosen for a node on its own is where its id first differs from the empty key |
| PatriciaTrie.SearchFinds | uid_db.c:411-446 | in a trie with the PATRICIA invariant a search ends at a node with the key looked for exactly if the trie has that key, and always at some key of the trie |
| PatriciaTrie.KeysAgree | uid_db.c:66-102 | all keys below a node agree before the bit the node tests |
| PatriciaTrie.InsertKeepsPatricia | uid_db.c:237-286 | putting a node in at the place found keeps the PATRICIA invariant and adds exactly its key |
| PatriciaTrie.InsertKeepsShape | uid_db.c:237-286 | insertion adds exactly one node, none occurs twice, and up-links still lead to the node itself or one above it |
| PatriciaTrie.NullEdgeIsLeft | uid_db.c:66-102 | the NULL edge, which stands for the empty key, is always a left edge, so no walk turns right into NULL |
| TrieLinks.Relinked | uid_db.c:237-286 | the four or five pointer writes of an insertion turn pointers that realise a trie into pointers that realise the trie with the new node |
| TrieLinks.PlaceFound | uid_db.c:104-120 | where the walk up stops, every node above tests an earlier bit and every node below on the path a later one |
| TrieLinks.EdgeKind | uid_db.c:66-102 | comparing bit indices tells edges that go down from up-links |
| UidStore.UidDb.WalkDown | uid_db.c:66-102 | returns the last node of the search path, the side taken there and what that edge leads to |
| UidStore.UidDb.WalkUp | uid_db.c:104-120 | returns the highest node of the path that tests a bit after the given one, and its parent |
| UidStore.UidDb.PatInsert | uid_db.c:237-286 | after the pointer writes the trie is well formed and finds, for every id including the new one, the head of the list of its records |
| UidStore.UidDb.InsertIntoRecords | uid_db.c:311-333 | the record is appended; the array grows when it is full and keeps its contents |
| UidStore.UidDb.UidDbInsert | uid_db.c:335-348 | the record is the last of the store, and trie, array and index stay consistent |
| UidStore.UidDb.FindUidById | uid_db.c:411-446 | the earliest record with the id, or NULL if there is none |
| UidStore.UidDb.LastUidInDb | uid_db.c:448-462 | the latest record with the id, or NULL exactly if there is none |
| UidStore.NextListsSameId | uid_db.c:222-234 | following `next` from the record found visits exactly the records with that id, in insertion order |
| UidStore.UidDb.Insert | uid_db.c:335-348 | as a list: the new entry comes last, and all numbers lead where they led |
| UidStore.UidDb.Lookup | uid_db.c:411-446 | as a list: the first entry with the id |
| UidStore.UidDb.SetUidDbNum | uid_db.c:351-379 | as a map: the number leads to the record and no other number is touched, even when the array grows downwards |
| UidStore.UidDb.LookupNum | uid_db.h:98-105 | the record entered last under the number, or NULL |
| UidStore.UidDb.ResetUidDbNums | uid_db.c:381-408 | all numbers are forgotten if there is one below the highest, and else none |
| UidStore.UidDb.FindUidByPos | uid_db.h:108-111 | the record at a place of the insertion order, or NULL |
| NumIndex.NumNdx.SetNum | uid_db.c:351-379 | the view of the downward-growing array as a map gains one entry and keeps all others |
| NumIndex.NumNdx.SetPos0 | uid_db.h:80-84 | all numbers are forgotten |
| NumIndex.NumNdx.ResetNums | uid_db.c:381-408 | the loop over the slots stays in bounds, and the view is emptied exactly if there is a number below the highest |
| TrieFree.FreeUidList | uid_db.c:465-477 | frees every record of a list exactly once |
| TrieFree.FreePatTrie | uid_db.c:479-527 | the traversal ends, and never looks at a node or a record after it was freed |
| TrieFree.FreeUidDb | uid_db.c:529-539 | every node and every record of the store is freed, and none twice |
| Pop3Uidl.Log2CeilIs | pop3.c:816-873 | the bound on probes is the rounded-up binary logarithm |
| Pop3Uidl.Pop3.FastUidl | pop3.c:816-873 | the binary search ends at a boundary: message `last` is seen, the next one unseen; at most log2(count + 1) probes; no id is forgotten and no verdict changes |
| Pop3Uidl.Pop3.ListAll | pop3.c:1058-1130 | after a full listing both stores agree on every verdict and index the same messages; the count of new ones is the number of ids not seen before |
| Pop3Uidl.Pop3.GetRange | pop3.c:972-1134 | when fast UIDL is used, and what either kind of listing leaves for the poll |
| Pop3Uidl.Pop3.IsOld | pop3.c:1191-1232 | old exactly if the UID was stored as other than unseen, but for the fast-mode exceptions spelled out |
| Pop3Uidl.Pop3.MarkUidSeen | pop3.c:1347-1360 | exactly this message becomes seen, in both stores, with status SEEN |
| Pop3Uidl.Pop3.Delete | pop3.c:1362-1376 | DELE is sent; exactly this message becomes seen; it is marked deleted if the server agrees, else seen |
| Pop3Uidl.Pop3.ExpungeUids | uid.c:295-299 | every entry marked deleted in the store in use becomes expunged, and no other changes |
| Pop3Uidl.Pop3.FinishQuery | fetchmail.c:799-804 | after success a listing replaces the old store; otherwise the old one stays; the numbers are cleared if there is one below the highest |
| Pop3Uidl.Pop3.SettleMessage | driver.c:558-835 | what is sent about one message and the mark it is left with: read if new and not too large, then deleted or marked as seen |
| Pop3Uidl.Pop3.RunPoll | pop3.c:972-1414 | one poll: if the server answers, it judges messages up to the first that ends it; every answer is right about the store it began with (in fast mode: past the boundary); the commands sent are those the answers call for; of the messages on the server exactly those seen before or now judged new and dealt with are seen afterwards, and each judged message has its mark |
| Pop3Uidl.MarkedAtEnd | uid.c:285-299 | the mark of a judged message after the poll: one to be deleted is EXPUNGED after a QUIT and else DELETED, provided that the server agreed and that a full listing was taken over; otherwise it is SEEN, as is a message that was delivered and kept; after a listing was taken over, no other message has a mark of deletion |
| Pop3Polls.SaidExactly | pop3.c:1362-1376 | RETR is sent exactly for the messages judged new and not too large; DELE exactly for the old ones with "flush", the oversized ones with "limitflush", and the delivered ones unless mail is kept |
| Pop3Polls.ReadFirst | driver.c:600-835 | a delivered message is deleted right after it was read and accepted |
| Pop3Polls.RunPolls | fetchmail.c:790-804 | a run of polls is a chain of polls, each beginning with the store the one before left |
| Pop3Polls.FetchedOnce | pop3.c:1191-1232 | over any run of polls, fast or full, with any errors: a message fetched once is judged old, and not read again, by every later poll that comes to it, while it stays in the mailbox |
| Pop3Polls.NothingForgotten | uid.c:394-413 | polls that do not end by taking over a full listing forget no seen id |
| Pop3Polls.FastAgainstFull | pop3.c:816-873 | fast and full UIDL give the same answers if and only if every message up to where the search ended is seen |
| Pop3Polls.FastRefinesFull | pop3.c:816-873 | with new messages last, fast UIDL answers exactly as full UIDL does |
| Pop3Polls.FullAndFast | pop3.c:972-1414 | two polls run from equal stores, one with full and one with fast UIDL, judge every message of the mailbox alike if and only if all messages up to where the search ended were seen; then they leave the same messages seen |
| Pop3Store.FastUidl | pop3.c:816-873 | the search on the UID store itself: trie, array and index stay valid, the boundary is found with at most log2(count + 1) probes, and no id is forgotten |
| Pop3Store.SearchMailbox | pop3.c:972-1056 | with all numbers forgotten first: the boundary is right about the store as it was |
| Pop3Store.IsOld | pop3.c:1191-1232 | after a search, on the store itself: old by its place, or because the server would not tell the UID, or because that was stored as other than unseen |
| Pop3Store.MarkSeen | pop3.c:1347-1360 | on the store itself: the record under the number becomes seen, and nothing else changes |
| ImapMailbox.ExpungeRenumbers | imap.c:53-180 | a client that applies the EXPUNGE responses one by one, renumbering after each, ends with exactly the mailbox without its deleted messages |
| ImapSession.Session.UntaggedResponse | imap.c:53-180 | the counters after an EXISTS or an EXPUNGE response, and the number of new messages kept non-negative |
| ImapSession.Session.InternalExpunge | imap.c:673-707 | succeeds exactly if as many messages went as the client had deleted; only then the message numbers are shifted; and the log says whether an EXPUNGE was completed or broke off |
| ImapSession.SyncExpunge | imap.c:673-707 | such an expunge keeps client and server in step: later messages are at their number less `expunged` |
| ImapSession.Session.GetPartialSizes | imap.c:1007-1084 | every size recorded is that of the message it is recorded for, or 0, whatever numbers the server speaks of |
| ImapSession.SearchFinds | imap.c:771-876 | the search yields exactly the numbers of messages that are not seen (and, with "keep", not flagged as deleted) |
| ImapSession.Session.GetRange | imap.c:878-1005 | a folder just opened: the client knows how many messages there are and which are unseen; without "keep" none is left flagged |
| ImapSession.Session.Delete | imap.c:1299-1348 | the STORE goes to the message meant; success leaves client and server in step, with one more message deleted or expunged and fewer than a period waiting |
| ImapSession.Session.MarkSeen | imap.c:1350-1363 | the STORE goes to the message meant, which is then seen |
| ImapSession.Session.EndMailbox | imap.c:1365-1372 | expunges exactly if deletions are waiting |
| FetchLoop.Deliver | driver.c:600-782 | the headers are asked for, and then the body exactly if the headers were passed on; a message is left to be deleted exactly if it was read completely and the sink accepted it, or if it was refused |
| FetchLoop.FlagTheMail | driver.c:784-835 | STORE \Deleted is sent exactly for an old message with "flush", an oversized one with "limitflush", and one accepted or refused for good unless mail is kept; STORE \Seen exactly for the latter with "keep" |
| FetchLoop.DeleteMessage | imap.c:1299-1348 | one STORE \Deleted, for this message; success counts one more deletion |
| FetchLoop.MarkMessage | imap.c:1350-1363 | one STORE \Seen, for this message |
| FetchLoop.ProperlyDeleted | driver.c:600-835 | what must have gone before a STORE \Deleted: nothing for an old or an oversized message; the headers and then the body of an accepted one; the headers of a refused one |
| FetchLoop.SizeOf | driver.c:529-556 | the size looked at is that of this message, or unknown, for every width of the window of sizes |
| FetchLoop.FetchMessages | driver.c:439-849 | with failures anywhere: every command was for the message meant; about each message only the commands were sent that its outcome calls for, in their order, and all of them if no error came before; every message is there, or a STORE \Deleted was sent about it, or it had been flagged before; only the right sizes are compared with the limit; and the messages taken in are counted and no more than the fetch limit |
| FetchRuns.VisitMailbox | driver.c:1305-1466 | a pass, however it ends: the same; a message that the server was not told to delete is gone exactly if it had been flagged before and an EXPUNGE was completed (or perhaps if one broke off); and without an error all there was a reason to delete is gone |
| FetchRuns.RunFolder | driver.c:1304-1516 | over all passes and the logout, with errors anywhere: every message that was in the mailbox is there, or some pass told the server to delete it, or it was flagged when found; each visit is one of the passes, begins with what the one before left, and does what VisitMailbox says; the run as a whole keeps the fetch limit; without "keep" the first visit finds nothing flagged |
| FetchRuns.GoneExactly | driver.c:439-849 | of a pass that came to its end with all sizes known, exactly this is gone: what the server was told to delete, and what had been flagged before if the pass completed an EXPUNGE |
| FetchRuns.GoneForAReason | driver.c:439-849 | for a message of such a run that was not flagged when found and is gone: the pass and the number under which it was deleted, with the commands sent about it: unread, old with "flush" or oversized with "limitflush"; or after its headers and then its body were fetched and it was accepted; or after its headers were fetched and it was refused; the last two not with "keep" |
| FetchRuns.CountedNext | driver.c:1470-1472 | one more pass keeps the count of messages taken in and the fetch limit of the whole run |
| FetchRuns.FlaggedBeforeGoesToo | imap.c:1365-1372 | the exception is real: a run of the whole folder in which all goes well loses a message flagged before that it never told the server to delete |
| DesTables.SourceTables | smbdes.c:52-148 | the tables keep every index in range, and the initial and final permutations undo each other |
| Des.RoundsUndone | smbdes.c:217-256 | the rounds on swapped halves with the subkeys reversed give back the swapped start, for every list of subkeys |
| Des.CryptUndone | smbdes.c:210-259 | permutations and rounds are undone by the same with the subkeys reversed, for every list of subkeys |
| Des.Deciphering | smbdes.c:183-260 | each direction of dohash undoes the other, for every key and block |
| DesComplement.Complementation | smbdes.c:183-260 | the complementation law of DES: the complement of a block under the complement of the key is enciphered to the complement, for all usable tables, keys and blocks and both directions |
| DesVector.KnownAnswer | smbdes.c:183-260 | with the tables of the source, block 0123456789ABCDEF under key 133457799BBCDFF1 gives 85E813540F0AB405, through all sixteen subkeys, S-box lookups and rounds |
| SmbVector.ParityIgnored | smbdes.c:262-277 | keys that differ only in the eighth bit of a byte give the same cipher, since the key permutation skips these bits |
| SmbVector.HashAnswer | smbdes.c:280-306 | the same answer byte by byte, from the seven bytes of the key |
| SmbDes.DoHash | smbdes.c:183-260 | the loops over arrays of bits compute the cipher, in both directions |
| SmbDes.StrToKey | smbdes.c:262-277 | the eight key bytes have the 56 key bits in order, and a 0 after every seventh |
| SmbDes.SmbHash | smbdes.c:280-306 | eight bytes of the output are the cipher of eight bytes of the input; nothing else is written; both may be the same array |
| SmbDes.EOldPwHash | smbdes.c:328-332 | each half of the old input enciphered under its own seven key bytes, with the tables of the source |
| SmbDes.DP16 | smbdes.c:322-326 | each half of the old input deciphered under its own seven key bytes |
| SmbDes.CryptedUndone | smbdes.c:322-332 | D_P16 undoes E_old_pw_hash, and the other way round, for all sixteen bytes and every key |
| Md5Block.CoreFunctions | md5c.c:149-156 | the optimised core functions are F, G, H and I of section 3.4 of RFC 1321 |
| Md5Block.MD5Transform | md5c.c:166-247 | the 64 unrolled steps are the four rounds of RFC 1321 with their word order, shifts and constants |
| Md5Context.MD5Context.MD5Update | md5c.c:59-102 | after any update, at any alignment, the context is that of the message fed so far; the bit count carries into its second word |
| Md5Context.MD5Context.MD5Final | md5c.c:108-147 | the digest is that of the padded message as a whole, and the context is cleared |
| Md5Context.DigestOfChunks | md5c.c:59-147 | feeding a message in pieces, however it is cut, gives the digest of the whole |
| Md5.PaddedToBlocks | md5c.c:108-147 | the padded message is a whole number of blocks |
| Md5Vector.KnownDigest | md5c.c:59-247 | the digest of "abc" is that of section A.5 of RFC 1321, through all 64 steps |
| CramMd5.EmptyKey | cram.c:30-61 | with the empty key the pads are the bytes 0x36 inside and 0x5C outside, 64 times each |
| CramMd5.ZerosAtEnd | cram.c:30-61 | zero bytes at the end of a key make no difference, up to the length of a block |
| CramMd5.HmacMd5 | cram.c:20-61 | HMAC of section 2 of RFC 2104 with MD5, for keys of any length; a response of the wrong length is left alone |
| MsgId.AtomCharacters | rfc822valid.c:10-11 | the listed characters are those RFC 822 allows in an atom |
| MsgId.ScanQuotedString | rfc822valid.c:27-47 | accepts the one quoted string that begins here, if there is one |
| MsgId.ValidMsgId | rfc822valid.c:91-128 | accepts exactly the strings with a prefix that the grammar of RFC 822 derives from msg-id, and no string has two such prefixes |
| Base64.To64FromBits | base64.c:30-56 | writes the base64 of section 6.8 of RFC 2045 and a NUL, and nothing behind it |
| Base64.EncodedText | base64.c:30-56 | an encoding is made of digits, with as many "=" at its end as bytes are wanting to a multiple of three |
| Base64.PublishedEncodings | base64.c:30-56 | the encodings of section 10 of RFC 4648 |
| Base64.ValueExactly | base64.c:17-28 | only the digits have a value, each its place in the table |
| Base64.AcceptedExactly | base64.c:58-107 | from64tobits accepts exactly a line end, or groups of four digits with "=" in the third or fourth place, up to the first group that ends in "=", which nothing need follow, or the end of the line |
| Base64.DigitTable | base64.c:14-15 | the digits computed here are those of the table |
| Base64.From64ToBits | base64.c:58-107 | -1 exactly for malformed input or too little room, else the bytes decoded; never writes behind the limit |
| Base64.EncBase64 | rpa.c:573-606 | encoding from the end in place, over its own input, yields the same encoding |
| Base64.DecBase64 | rpa.c:515-555 | decoding in place yields the sextets packed into bytes for legal input, 0 for any other |
| Base64.PackUndoesEncode | rpa.c:515-606 | DecBase64's decoding undoes either encoder, for all byte strings |
| Base64.StrictUndoesEncode | base64.c:30-107 | from64tobits undoes either encoder, for all byte strings but the empty one, with or without a line end |
| Base64.StrictOfNothing | base64.c:58-107 | the empty encoding is refused unless it has a line end |
| Base64.ShiftsAreDivisions | base64.c:36-54 | the shifts and masks are the divisions and remainders used here |
| ArgvExchange.Exchange | getopt.c:227-281 | the loop of shrinking block swaps puts the second block before the first, each in its own order |
| ArgvExchange.ExchangedBlocks | getopt.c:217-227 | that is: what precedes, the second block, the first block, what follows |
| GetoptSpec.ScanPartitions | getopt.c:375-676 | every element of argv is an option, an argument of one, the first "--", or a non-option, and both lists keep the order of argv |
| Getopt.MatchLong | getopt.c:486-513 | an exact match, or else an abbreviation of exactly one option |
| Getopt.Getopt.GetOpt | getopt.c:375-676 | one call yields the next report and leaves the rest of the scan and the final argv as they were going to be |
| Getopt.ScanAll | getopt.c:375-676 | all calls together report what the arguments say in their original order; argv ends as program name, options with their arguments, and the rest in order |
| GetoptReports.LineScanned | getopt.c:375-676 | a command line is scanned into what was written: operands, groups of letters, values in the same element or the next one, long options by name or abbreviation with values behind "=" or in the next element, optional values, the mistakes among these, and "--" |
| GetoptReports.EveryLine | getopt.c:375-676 | every argv can be read as such a line, so this says what all of them mean |
| SavedLists.CutLine | uid.c:179-228 | the searches over the buffer find the five places where a line is cut, and the buffer is cut there and nowhere else |
| SavedLists.SavedLists.TakeLine | uid.c:179-252 | a line's id goes to the host it belongs to, or else the line is restored byte for byte and put on the scratch list |
| SavedLists.SavedLists.InitializeSavedLists | uid.c:124-256 | loading is a function of the file, cut as fgets cuts it |
| SavedLists.SavedLists.WriteSavedLists | uid.c:449-521 | the file holds one line for each id seen or deleted and then the scratch lines; without any it is removed |
| IdFile.PrintedLine | uid.c:179-228 | a printed line is taken apart into the same user, host and id, also when the user holds blanks or "@" and the id holds "@" |
| IdFile.SavedThenLoaded | uid.c:124-521 | after saving and loading each host has its seen and deleted ids in order, and lines of other hosts come back byte for byte |
| IdFile.KeptExactly | uid.c:449-500 | of the ids of a host just those seen or deleted are kept, as often as they are there, and all come back as seen |
| IdFile.SurvivesCycles | uid.c:124-521 | nothing more is lost or changed in any number of further cycles |
| ReplyHack.Rewriter.InsertHost | rfc822.c:155-159 | shifting from the far end opens the text at one place and puts "@host" there |
| ReplyHack.ReplyHack | rfc822.c:51-229 | the loop over the buffer, within the room reserved, computes the rewritten header |
| ReplyHackSpec.RewrittenInPlaces | rfc822.c:87-215 | the result is the header with "@host" put in at places from left to right, at most one more than it has commas, and is shorter than the room reserved |
| ReplyRoom.RoomExactly | rfc822.c:87-215 | the room reserved is enough for every header if and only if the host does not end in a comma |
| ReplyHackSpec.StepKeeps | rfc822.c:102-215 | every step keeps what is not yet scanned, and logs where it put the host in |
| ReplyPieces.OneHostPerPiece | rfc822.c:102-215 | unless a trap is sprung (a blank address, scanned afresh, with only blanks and commas between it and the last address given the host) no two insertions fall between the same commas |
| ReplyTraps.LiveDoubles | rfc822.c:127-171 | a trap that is sprung puts two insertions between the same commas |
| ReplyTraps.ApartExactly | rfc822.c:102-215 | no two insertions fall between the same commas if and only if no trap is sprung |
| ReplyTraps.DoubledByTrap | rfc822.c:127-171 | the header of the next row is such a case: its insertions fall between the same commas |
| ReplyHackSpec.DoubledHost | rfc822.c:127-171 | the input that shows it: `Cc:a, ,` becomes `Cc:a@h@h, ,` |
| ReplyAddresses.AddressRun | rfc822.c:113-205 | one address and the comma or line end behind it: what it is depends only on how it is written, whether an address with its own host in brackets went before, and whether it is the last; if it is given the host, then at the one place that its writing tells |
| ReplyLists.ListRewritten | rfc822.c:51-229 | a whole header: every address of a list of plain addresses, addresses with comments and addresses in brackets with phrases and quoted strings becomes what its own writing calls for, and nothing else changes |
| ReplyLists.TwoPlain | rfc822.c:113-171 | in particular, a plain address is given the host behind its last letter exactly if it has a letter and neither "@" nor "!" |
| ReplyLists.OneOfTwo | rfc822.c:132-133 | `To: al@x, bo` becomes `To: al@x, bo@h` |
| ReplyLists.NullAddress | rfc822.c:94-98 | the null address is left alone in every address header |
| ReplyLists.BehindComma | rfc822.c:208-214 | `To: a,b` becomes `To: a@h,b`, since the character behind a comma is passed over |
| ReplyLists.BehindBrackets | rfc822.c:195-205 | `To: <a@x>, bo` stays as it is, since the closing bracket is passed over |
| ReplyLists.BehindComment | rfc822.c:164-167 | `To: a(A)` becomes `To: a(A)@h`, since the comment is taken for part of the name |

## Left out

- Empty ids: the store is modelled for non-empty ids without NULs; the source would enter "" like any other.
- NumIndex.NumNdx.SetNum: does not model `unsigned` overflow of sizes, and numbers above the highest announced are a precondition, as in the source.
- UidStore: `swap_uid_db_data` is modelled on lists only; allocation failure ends the program and is left out.
- TrieFree.FreeUidDb: the two arrays of the store, which are freed by single calls, are left out.
- Pop3Uidl.Pop3: keeps the two stores as lists, in the form that the contracts of UidStore.UidDb give them; on the store itself Pop3Store has the search, the verdicts and the marks of fast UIDL, and not the two stores of a full listing side by side.
- Pop3Uidl.Pop3.Delete: requires the record the source dereferences; after a listing that was cut short there may be none.
- Pop3Uidl.Pop3.RunPoll: polls with "fetchall", the LAST command, slow UIDL and servers that give two messages one UID are left out; a listing that can be parsed to its end is taken to be complete.
- ImapSession.Session: other clients change nothing during the run; server identifiers ascend; idling, READ-ONLY mailboxes, the fallback when SEARCH fails, responses with impossible numbers and the parsing of response text are left out.
- FetchLoop.FetchMessages: reading, delivery and the trailers are given by an outcome for every message; timeouts, warnings about oversized messages and progress reports are left out; without all sizes, which of the commands called for were in fact sent is left open.
- FetchRuns.VisitMailbox: which flagged messages an EXPUNGE takes that breaks off is up to the server, so there the condition is only necessary.
- FetchRuns.RunFolder: one folder; `transient` errors only count; that the run keeps the fetch limit is stated for servers and agents that do not fail with the code PS_MAXFETCH of their own.
- DesVector.KnownAnswer, Md5Vector.KnownDigest: one answer each; the other published ones are left out, and so is one for HMAC.
- SmbDes.EOldPwHash: E_P16, E_P24, the cred_hash functions and SamOEMhash, which are made of the same parts, are left out.
- Md5Context.MD5Context.MD5Update: pieces shorter than 2^32 bytes, the width of its length argument; byteReverse is the order in which words are read from bytes.
- CramMd5.HmacMd5: key and challenge shorter than 2^32 bytes.
- MsgId.ValidMsgId: NUL ends the string and is no character of it, although RFC 822 allows it in quoted strings.
- Base64.From64ToBits: reports at the debug level are left out.
- Getopt.ScanAll: the PERMUTE order with long options and `long_only` off; POSIXLY_CORRECT, option strings that begin with "+" or "-", the `flag` field and error messages are left out.
- IdFile.SavedThenLoaded: for names the parser can take apart again (no blank in the user behind an "@", no blank or "@" in the host), ids that are not empty and hold no blanks, lines below the 512-byte limit of fgets, and hosts that differ but for case; files with NULs and errors of the file system are left out.
- ReplyHack.ReplyHack: a host that ends in a comma, for which the room reserved does not suffice (ReplyRoom.RoomExactly), is excluded; `isspace` is that of the C locale.
- ReplyLists.ListRewritten: headers whose parentheses are balanced and stand behind names, whose quotes stand in phrases and whose brackets close; empty pieces between commas are those of ReplyTraps; a quoted string that the scan takes for part of a bracket is read as text.
- ReplyTraps.ApartExactly: addresses are what raw commas separate, so one with a quoted comma counts as two; an address that names its own host counts as one without insertion.
- `nxtaddr`, `smbmd4`, sockets, TLS, authentication other than the above, configuration parsing and the daemon loop are left out: they are effects of the operating system or add only members of the same kind.
