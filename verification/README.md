# BitlBee, verified in part

A Dafny model of the parts of BitlBee, the gateway from IRC to instant messaging, that have the most
state, branching or arithmetic, and proofs of what those parts are for. `dafny verify dfyconfig.toml`
checks all of it.

An object whose methods change its fields is a class here as well; a loop in the code is a loop with
invariants; in-place work on a buffer is done on an array. Each such method is proved against a
function on values, and what the code promises is proved about these functions, over all inputs or
all runs.

| modules | what they model |
|---|---|
| `Bytes`, `Options`, `CStrings` | bytes, missing values, zero-terminated strings in buffers, sorted lists |
| `MerkleDamgard`, `Md5`, `Sha1` | streaming MD5 and SHA-1 against one-shot digests, HMAC |
| `DesBits`, `Des` | triple DES: permutations, rounds, key order, CBC |
| `DesFips`, `DesWires`, `DesConforms` | FIPS 46-3 with its tables, bit by bit, and the proof that `Des` computes it |
| `ArcFour`, `Arc`, `Base64`, `StoredPassword` | ArcFour as a trace of its array and as lib/arc.c has it, base64, and the password attribute of the settings file |
| `XmlTree`, `XmlRules`, `XmlStream` | documents, parser events, dispatcher and garbage collector on values, and the rules of both said from names and marks |
| `XmlNode`, `XmlParser`, `XmlRun`, `XmlPrint` | the linked nodes, the stream parser, its runs, printing and copying |
| `IpcSpec`, `IpcRules`, `IpcRun`, `Ipc` | the session-takeover protocol of the master process, and what its steps do to the fields of each child |
| `EventsSpec`, `Events` | the table of event handlers, with callbacks that change it |
| `ChannelList`, `Channels` | control channels as a view of the buddy list |
| `NickChars`, `Nick`, `UserIndex` | nicks, making them unique, and the index of users |
| `Framing`, `Lines` | cutting the IRC stream into lines, and lines into words and back |
| `DccAcks`, `DccCourse`, `Dcc` | file transfers, their acknowledgements, and the course of one in which nothing goes wrong |
| `RootCommands` | root commands by unique prefix |
| `Http`, `OAuth` | percent-encoding, parameter lists, stored tokens |

Where a method and the function that specifies it rest on the same definition, a constant, a table or a
rule, that definition is tied to something outside: the tables of FIPS 46-3, the byte sequences of
RFC 1321, RFC 3174, RFC 2104, RFC 4648 and RFC 3986, or a statement in the bare fields, characters and
numbers of the state (`XmlRules`, `IpcRules`, `ChannelList.Shown`, `EventsSpec.StepEffect`, `ArcFour`).

What the code does not determine by itself is a parameter, so that the theorems hold for every value
of it: the block functions of MD5 and SHA-1, the S-boxes, random bytes, the answers of XML handlers,
the outcome of every read, write, send, accept and connect, what a callback does (as a script of
operations), and what `sscanf` makes of characters that are not two hexadecimal digits. In the
takeover protocol, `fails` holds the children whose pipe is broken during a step.

The model stops where the code would use freed memory: `fault` says that this point was reached, and
the theorems say exactly when.

What was found on the way, each with its exact condition where there is one:

- `md5_finish` clears only the size of a pointer at the end (`Md5.Context.Emit`).
- `sha1_append` still reports success in the call in which the message becomes too long
  (`Sha1.Context.Append`).
- `xt_handle` returns 0 both when a handler aborts and when no element has arrived
  (`XmlParser.Parser.Round`). The read callback of the Jabber module takes both for an abort, so it
  stops reading, and no handler has ended the connection, exactly when a read leaves no element: the
  first read when it begins none, for example because it ends behind the XML declaration
  (`XmlRun.Run`, `XmlRun.NoHandlerAborted`).
- With one broken pipe, `ipc_master_free_one` walks on from a freed list cell when the partner of the
  freed child holds a descriptor and is the broken one (`IpcRun.OneBroken`, `IpcRun.FaultReached`).
  When TAKEOVER AUTH or DONE cannot be passed on, the sender is freed and not the peer that is broken.
- A handler for a negative descriptor would leave an index entry behind
  (`EventsSpec.RemoveAgree`); a callback can make the dispatcher read a freed handler
  (`EventsSpec.DispatchFault`, `EventsSpec.FaultExample`); a registration for both directions can end
  up with one (`EventsSpec.Directions`, `EventsSpec.OneDirection`).
- A control channel joined automatically is not filled (`Channels.Irc.AutoJoin`). After a leave and an
  automatic join it is right exactly if it should show nobody (`Channels.Irc.Rejoin`); a run after
  which it is not is `Channels.Unfilled`. `fill_by` set to `rest` selects everyone, like `all`.
- When every one of the 257 tried nicks is taken, the random one may be somebody's
  (`Nick.DedupeOk`).
- `irc_user_new` with an unusable or used nick breaks the user index (`UserIndex.Index.New`).
- A read that meets an empty buffer, begins with a line end and has more behind it loses all of it,
  as happens when CRLF is cut in two (`Framing.Chunking`, `Framing.SplitLineEnd`).
- A command name that is the beginning of the next one cannot be reached (`RootCommands.ExactName`);
  the shipped table has none (`RootCommands.Shipped`).
- In a file transfer, freed memory is used after an accept callback that ends the transfer
  (`Dcc.Transfer.Accept`) and when the last bytes arrive after the protocol was done
  (`Dcc.Transfer.Receive`, with a run that gets there in `Dcc.LastBytes`). When `accept` fails, its
  answer overwrites the listening socket, which stays open (`Dcc.Transfer.Accept`). A transfer that
  ends before it has a socket closes descriptor 0 (`Dcc.Transfer.FtClose`, `Dcc.Transfer.RecvStart`).
- `http_decode` steps over the end of its string exactly if a number follows every percent sign that
  its loop finds and the last of them is among the last two characters (`Http.Outcomes`). For a
  percent sign at the very end, with none before it, that is so whenever `sscanf` does not answer 0
  for an empty input (`Http.PercentAtEnd`); it answers -1.

## Model

The first 74 rows are the main results; the others, module by module, are what they rest on.

| member | source | states |
|---|---|---|
| XmlRun.Run | protocols/jabber/io.c:174-198 | The read loop of the stream parser, over every document, cut into any batches of events, for any handlers: after each batch a round of xt_handle and xt_cleanup at depth 1. The loop stops exactly at the first round that has nothing to handle or that a handler aborts. Until then every finished child of the root was dispatched once, complete, in document order, then the root, and what is kept are the open elements; when a handler aborts, exactly the children up to that one were dispatched. Each was given to the rows of the handler table that suit its name and its parent's in any case, or `<root>`, up to the first that does not answer XT_NEXT |
| XmlRules.CallsRule | lib/xmltree.c:182-198 | Which rows of the handler table get a node, and whether one aborts, from the names alone, for every table, parent and answer of the handlers |
| XmlRun.Incomplete | lib/xmltree.c:32-260 | In every valid parser state the live nodes without XT_COMPLETE are exactly the open elements |
| XmlRun.NoHandlerAborted | protocols/jabber/io.c:184-188 | The read callback takes a round that answers 0 for an aborted one; the first read gives that answer, with no handler called, exactly if it begins no element |
| XmlParser.Parser.Round | lib/xmltree.c:156-260 | xt_handle and then xt_cleanup at depth 1 make exactly the calls the document owes, free its finished parts, and never a node from the root to the current one; xt_handle answers 0 exactly when a handler aborts or no root has come, and then nothing is freed |
| XmlNode.Node.Cleanup | lib/xmltree.c:209-260 | The unlinking loop leaves the cleaned tree, well linked, and frees exactly the nodes that left it |
| XmlRules.HandleMarks | lib/xmltree.c:156-204 | At every depth, a walk that no handler aborts marks exactly the complete nodes that the depth reaches, and changes nothing else |
| XmlRules.CleanSweeps | lib/xmltree.c:209-260 | At every depth, no node that the clean-up reaches is left seen |
| XmlNode.Node.Dup | lib/xmltree.c:384-423 | The copy has the same value, right parent and sibling links, and no node in common with the original |
| XmlPrint.ReplayRoot | lib/xmltree.c:262-309 | What is printed for a tree is a document whose root is that tree, complete and unmarked, with empty text as no text |
| IpcRun.RunKeeps | ipc.c:138-231 | Over every run from a proper state, to_child is a symmetric, irreflexive matching inside child_list until freed memory is used |
| IpcRun.FromTheStart | ipc.c:138-231 | The same for every run from an empty child list |
| IpcRun.StepKeeps | ipc.c:138-231 | Every step of the master from a proper state uses freed memory exactly under a stated condition, and otherwise gives a proper state in which nothing outside the parties has changed; what the step does to each child, its nick, password, to_child and to_fd, is said in these fields: whoever is told of a failed takeover has neither to_child nor to_fd left |
| IpcRun.StepHas | ipc.c:138-231 | What each step does to the list and to the fields of each child, for a new child, a hang-up and every command, as long as no freed memory is used |
| IpcRun.OneBroken | ipc.c:494-515 | With at most one broken pipe, freed memory is used exactly when a child goes on a hang-up, or because TAKEOVER AUTH cannot be passed on, and its partner holds a descriptor and is the broken one |
| IpcRun.FaultReached | ipc.c:787-813 | A run with one broken pipe that walks on from a freed list cell |
| Ipc.Master.FreeOne | ipc.c:787-813 | The mutually recursive clean-up terminates with a shorter list and does what the specification says |
| EventsSpec.GoneForever | lib/events_libevent.c:244-270 | Over every run an id that is gone stays gone, and removing it is a no-op |
| EventsSpec.StepKeeps | lib/events_libevent.c:120-294 | Every step keeps the agreement and never gives an id twice; which registrations a step adds, takes over and takes away, and that the others stay as they are, is said in their fields |
| EventsSpec.DispatchKeeps | lib/events_libevent.c:120-169 | Whatever a callback does, the tables agree; a FALSE return takes away its own registration only, so one it made for its own descriptor lives on |
| EventsSpec.DispatchFault | lib/events_libevent.c:147-158 | A freed handler is read exactly when the callback returns FALSE after an operation of it has registered its descriptor again and a later removal or closesocket has freed it under the id it had then |
| EventsSpec.FaultExample | lib/events_libevent.c:147-158 | A callback that does this |
| Events.Table.Passthrough | lib/events_libevent.c:120-169 | Dispatching a handler whose callback runs any script of operations gives the tables of the specification |
| EventsSpec.Directions | lib/events_libevent.c:177-213 | A new registration watches every direction it asks for, unless it asks for both and takes over an entry that libevent watches in one only |
| EventsSpec.OneDirection | lib/events_libevent.c:177-213 | A handler that reads a descriptor, and then is asked for in both directions, still only reads |
| EventsSpec.RemoveAgree | lib/events_libevent.c:244-270 | Removal keeps the tables in agreement, leaving no entry for a freed handler, except exactly for a registered negative descriptor |
| Des.DecryptEncrypt | lib/des.c:432-508 | des3_decrypt undoes des3_encrypt for all three keys, every block and all S-box contents (FIPS 46-3) |
| Des.EncryptNot | lib/des.c:432-508 | The complementation property: complemented keys and block give the complemented ciphertext |
| Des.CbcDecryptEncrypt | lib/des.c:510-537 | A receiver with the same key and IV recovers every message (section 6.2 of NIST SP 800-38A) |
| DesConforms.EncryptIsFips | lib/des.c:432-508 | On every block and for all three keys, encryption is the TDEA of FIPS 46-3 with its tables IP, E, P, PC-1, PC-2, the shifts and the inverse of IP, bit by bit; the S-boxes with the permutation P in them are a parameter |
| DesConforms.DecryptIsFips | lib/des.c:432-508 | So is decryption |
| DesConforms.MessageIsFips | lib/des.c:510-537 | Each block of the ciphertext is the TDEA of the message block XORed with the ciphertext block before it, the first with the IV |
| Md5.DigestOfChunks | lib/md5.c:76-163 | For every cutting of a message into calls the digest is the one-shot MD5 of the concatenation (sections 3.1 to 3.5 of RFC 1321), for every block function: the padded message ends in its bit count, the words begin as the bytes 01 23 45 67 to 76 54 32 10, and they come out low-order byte first |
| Sha1.DigestOfChunks | lib/sha1.c:103-197 | For every cutting the digest is the one-shot SHA-1 of the concatenation (sections 4 and 6.1 of RFC 3174); it fails exactly from 2^64 bits on: the padded message ends in its bit count, the words begin as H0 to H4, and they come out high-order byte first |
| Sha1.Hmac | lib/sha1.c:381-422 | sha1_hmac is the code of section 2 of RFC 2104 for keys longer and not longer than 64 bytes, on the lengths that survive the conversion to unsigned. The key, digested when it is longer than 64 bytes and filled up with zeros, XORed with 0x36 begins the inner message and XORed with 0x5c the outer one |
| Arc.PasswordRoundTrip | lib/arc.c:139-223 | A password without zero bytes comes back as a C string for every padding, filler, IV and key, and the length is a multiple of the padding |
| StoredPassword.RoundTrip | storage_xml.c:506-507 | Every password without zero bytes that is encrypted and encoded for the file is read back unchanged |
| StoredPassword.Save | storage_xml.c:506-507 | What is written is the base64 of the IV and the password, padded to a multiple of twelve and enciphered with the master password and the IV |
| Arc.KeyInjective | lib/arc.c:170-178 | Two passwords with the same key are the same |
| Arc.KeysDiverge | lib/arc.c:76-82 | Two keys of one length up to 256 leave the key setup in the same state up to the byte in which they first differ, and with another j behind it |
| Base64.DecodeEncode | lib/base64.c:50-153 | Decoding undoes encoding for every text, whether char is signed or not (section 4 of RFC 4648) |
| Base64.EncodedIsRfc4648 | lib/base64.c:50-80 | The encoding is that of section 4 of RFC 4648: groups of 24 bits as four symbols of its table 1, filled up with equals signs |
| Framing.Chunking | irc.c:328-458 | The executed lines are exactly the non-empty complete lines of the stream and the buffer its unfinished end, if and only if no read that meets an empty buffer begins with a line end and goes on after it |
| Framing.SplitLineEnd | irc.c:337-398 | A CRLF cut in two loses the line behind it |
| Framing.FeedLines | irc.c:337-458 | The lines of a stream are its runs of characters other than CR and LF that one of those ends, and its unfinished end is the run behind the last |
| Lines.RoundTrip | irc.c:461-550 | irc_parse_line gives back the list that irc_build_line printed if and only if the first word is non-empty, space-free and not colon-led, the middle ones are space-free and not colon-led, and the last has a space or is not colon-led (section 2.3.1 of RFC 1459) |
| Lines.OverTheWire | irc.c:328-550 | A built line without line ends in its words is cut out as one line by the framing and taken apart into the same words |
| Lines.BuiltIs | irc.c:521-550 | A built line is its words with a space between them, a colon in front of the last one if it has a space, and CR and LF |
| Channels.Irc.UserStatus | irc_im.c:99-139 | The view holds after a change of state: each joined control channel lists exactly the buddies it wants, once each, with the mode of their state. In every joined control channel a buddy is listed, and with which flags, as its account, group, protocol and state and the settings of the channel say |
| Channels.Irc.Join | irc_commands.c:187-196 | A channel joined by command shows exactly the buddies it wants, and us. The channel then lists the buddies of its account, group or protocol whose state has a mode, with the flag of that mode, and no others |
| Channels.Irc.ViewDisplays | irc_im.c:142-193 | A view shows, in every joined control channel, exactly the buddies that its settings select, in the fields of the buddies and the settings |
| Channels.Irc.AutoJoin | irc_channel.c:409-446 | An automatic join does not fill the channel: the view holds afterwards exactly if the list was right before |
| Channels.Irc.Rejoin | irc_channel.c:441-444 | A control channel that was left and is joined automatically again shows what it should exactly if it should show no buddy at all |
| Channels.Unfilled | irc_channel.c:441-444 | A run after which a joined control channel does not show the buddy it should |
| Nick.DedupeUnderscores | nick.c:220-264 | A valid nick of length L at most 23, with fewer than 24-L other nicks in use, gets the fewest underscores that make it free |
| Nick.DedupeOk | nick.c:220-264 | In every case the result is valid: the first free one of 257 candidates, or else the random fallback |
| UserIndex.Index.SetNick | irc_user.c:115-163 | A rename succeeds exactly for a valid nick that nobody else has, and then moves only that user; a refused one changes nothing |
| UserIndex.Index.ByName | irc_user.c:104-113 | The hash lookup finds exactly the user that a scan of the list with nick_cmp finds, for every name, when the users have nicks shorter than the buffers of nick_cmp |
| Dcc.Run | dcc.c:133-497 | Over every run of events a started transfer ends at most once, after which no handler is left and, unless accept() has failed, no descriptor is open; it closes no other's; the acknowledged size never goes down, and no memory is used after it was freed while the protocol is done only outside its callbacks. In a run in which nothing goes wrong it completes exactly if the protocol is done and everything has gone through, when sending also according to the peer; otherwise it goes on |
| Dcc.Sends | dcc.c:87-290 | A file that is offered, accepted and sent in whatever writes, with acknowledgements in whatever reads, completes exactly if the protocol is done and the last acknowledgement has the size of the file, whichever comes first |
| Dcc.Receives | dcc.c:294-395 | A file that is received in whatever reads completes exactly if the protocol is done and all bytes have come |
| Dcc.Transfer.Receive | dcc.c:350-395 | What a read counts, and the number modulo 2^32 it acknowledges; afterwards at most 1024 bytes are unacknowledged; freed memory is used exactly when the write function ended the transfer and reported success, or the complete, acknowledged file finishes a transfer whose protocol was done |
| Dcc.LastBytes | dcc.c:350-395 | A run in which the protocol is done when it is given the last bytes of a file, and freed memory is used |
| Dcc.Transfer.Accept | dcc.c:230-251 | Accepting replaces the listening socket and its watch; when accept fails the listening socket stays open and is lost; freed memory is used exactly when the accept callback cancels, is done with all acknowledged, or writes while a write is pending, incompletely or nothing |
| Dcc.Transfer.Ack | dcc.c:253-290 | A complete word is refused, and the transfer aborted, exactly when it exceeds what was sent or falls below what was acknowledged; otherwise it is the new count, and the transfer finishes exactly when all is acknowledged and the protocol is done |
| RootCommands.ExactName | root_commands.c:58-63 | A command can be given by its own name exactly if that is not a prefix of the next one's |
| RootCommands.Execute | root_commands.c:49-72 | A command runs exactly when it is the only one with the given prefix and has enough words |
| RootCommands.Add | root_commands.c:1425-1449 | A command is inserted in order exactly if a slot is free and its name is new; the table stays sorted, duplicate-free and terminated |
| RootCommands.Shipped | root_commands.c:1387-1422 | The shipped table is sorted, and each of its commands can be given by its own name |
| Http.DecodeEncode | lib/misc.c:273-331 | http_decode undoes http_encode on every string of bytes (section 2.1 of RFC 3986) |
| Http.Outcomes | lib/misc.c:280-298 | http_decode empties the string exactly if no number follows some percent sign that its loop finds; if one follows each, the loop steps past the end exactly if the last one it finds is among the last two characters |
| Http.PercentAtEnd | lib/misc.c:280-287 | A percent sign at the very end makes the loop step past it, whenever sscanf does not answer 0 there |
| OAuth.RoundTrip | lib/oauth.c:143-201 | oauth_params_parse of oauth_params_string gives the list back if and only if it is sorted (section 5.1 of OAuth Core 1.0a) |
| OAuth.TokensRoundTrip | lib/oauth.c:410-435 | oauth_from_string recovers both tokens from oauth_to_string, a missing one as missing |
| MerkleDamgard.ChainAppend | lib/md5.c:107-112 | Running the block function over two stretches of whole blocks is running it over their concatenation, for every block function; MD5 and SHA-1 both rest on it |
| Md5.Cvt32IsLittleEndian | lib/md5.c:42-59 | A word converted by cvt32 and stored in the host's order lies in memory low-order byte first, on either kind of host |
| Md5.Context.Append | lib/md5.c:76-117 | After md5_append the context has absorbed the old message and the new data, wherever the block borders fall |
| Md5.Context.Pad | lib/md5.c:128-156 | md5_finish runs the block function over 0x80, the zeros that bring the message to 56 mod 64, and the bit count, in one or two blocks |
| Md5.Context.Emit | lib/md5.c:157-162 | The digest is the four words low-order byte first; the closing memset clears only the size of a pointer, so the last digest words stay in the context |
| Md5.Context.Finish | lib/md5.c:123-163 | Closing a context yields the one-shot digest of everything appended |
| Md5.DigestIsRfc1321 | lib/md5.c:61-163 | The one-shot digest is that of sections 3.1 to 3.5 of RFC 1321, with its words as the bytes of section 3.3 |
| Sha1.Context.AppendByte | lib/sha1.c:177-193 | One byte more is absorbed, and the context is corrupted exactly from 2^64 bits on |
| Sha1.Context.Append | lib/sha1.c:155-197 | The result and the new state of sha1_append in every case; a message that becomes too long is still reported as success by the call in which it does |
| Sha1.Context.Pad | lib/sha1.c:331-376 | sha1_pad runs the block function over 0x80, zeros to 56 mod 64, and the length, high-order word first, in one or two blocks |
| Sha1.Context.Finish | lib/sha1.c:103-133 | A sound context gives the one-shot digest of its message, again when closed again; a corrupted one gives its error and no digest |
| Sha1.DigestIsRfc3174 | lib/sha1.c:68-133 | The one-shot digest is that of sections 4 and 6.1 of RFC 3174, with its words H0 to H4 |
| Sha1.Rfc2104Is | lib/sha1.c:381-422 | The code of section 2 of RFC 2104 in bytes: the two pads, the filled-up key and the two digests |
| Des.FPInvertsIP | lib/des.c:236-258 | The final permutation undoes the initial one on every block |
| Des.IPInvertsFP | lib/des.c:236-258 | The initial permutation undoes the final one on every block |
| DesWires.InitialAll | lib/des.c:236-247 | Each of the 64 bits behind the initial permutation is the one that the table IP of FIPS 46-3 names, each half rotated by one |
| DesWires.FinalAll | lib/des.c:249-258 | So for the final permutation and the inverse of IP |
| DesWires.ChoiceAll | lib/des.c:279-300 | The two halves of the key are what the table PC-1 of FIPS 46-3 picks |
| Des.Round | lib/des.c:262-275 | DES_ROUND, with its rotation and its eight S-box lookups in two groups, adds the cipher function of one half and two subkey words to the other half |
| Des.RoundsInverse | lib/des.c:262-275 | Rounds with the subkey pairs reversed, on exchanged halves, undo the rounds, for all subkeys and S-boxes |
| Des.ReversePairsAt | lib/des.c:441-451 | The reversed schedule holds the pairs back to front, each pair in its own order |
| Des.SingleInverse | lib/des.c:476-483 | One DES with the reversed schedule undoes one DES |
| Des.TripleInverse | lib/des.c:458-498 | The whole block function over three reversed schedules undoes the one over the three schedules |
| Des.Des3Context.MainKeySchedule | lib/des.c:279-346 | des_main_ks writes the schedule of one key into its 32 words and nothing else |
| Des.Des3Context.SpreadKeys | lib/des.c:441-451 | The in-place loop turns three schedules into the encryption and the decryption subkeys, each reversed where it must be |
| Des.Des3Context.SetKeys | lib/des.c:432-454 | esk and dsk hold the encryption and decryption subkeys of the three keys |
| Des.Des3Context.Crypt | lib/des.c:458-508 | des3_crypt writes the block function of its input, also when input and output are the same buffer |
| Des.KeyScheduleNot | lib/des.c:279-346 | Complementing the key complements every subkey word, in the bits the round uses |
| DesConforms.ScheduleFits | lib/des.c:279-346 | The 32 subkey words hold the bits of the sixteen subkeys of FIPS 46-3, where the rounds look for them |
| DesConforms.AlgorithmFits | lib/des.c:458-475 | The permutations and sixteen rounds over such words are the algorithm of FIPS 46-3 |
| Des.CbcInverse | lib/des.c:524-534 | CBC decryption undoes CBC encryption over any pair of inverse block functions |
| Des.SslDes3Encrypt | lib/des.c:510-537 | The CBC ciphertext, or 0 and nothing for a key that is not 24 bytes or a message that is not whole blocks |
| XmlStream.HandleFreshKids | lib/xmltree.c:169-200 | The finished children are dispatched once, in document order, up to the first for which a handler aborts; those before it are marked and the open last one is left alone |
| XmlStream.OpenRound | lib/xmltree.c:156-260 | Handling and cleaning an open document at depth 1 dispatches and frees the finished children of the root and leaves the open elements as they are; an aborting handler ends the round there |
| XmlStream.FeedBehind | lib/xmltree.c:32-102 | Freeing handled children early does not change what later events do |
| XmlStream.RoundFollows | lib/xmltree.c:32-260 | One batch and one round keep the log equal to what the whole document so far asks for, or, if a handler aborts, to what it asks for up to there |
| XmlNode.Node.AppendChild | lib/xmltree.c:56-67 | The walk along the next pointers hangs the new node behind the last child and touches no other link |
| XmlNode.Node.Handle | lib/xmltree.c:156-204 | The recursive walk makes the calls, the marks and the result of the specification, and keeps the tree well linked |
| XmlNode.Node.FreeNode | lib/xmltree.c:426-452 | xt_free_node frees every node of the subtree and no other |
| XmlNode.Dispatch | lib/xmltree.c:176-198 | The scan of the handler table makes the calls of the specification and stops at the first answer that is not XT_NEXT. A row is called if its name is missing or that of the node in any case, its parent is missing or that of the node in any case, or exactly `<root>` at the root, and all earlier such rows answered XT_NEXT |
| XmlRules.CallsUnique | lib/xmltree.c:182-198 | That rule leaves one answer |
| XmlParser.Parser.StartElement | lib/xmltree.c:32-78 | The linked tree of the document with the element opened; the new node is the current one |
| XmlParser.Parser.TextEvent | lib/xmltree.c:80-94 | The text goes to the current element, and nowhere when there is none |
| XmlParser.Parser.EndElement | lib/xmltree.c:96-102 | The current element is complete and its parent is the current one |
| XmlParser.Parser.Cleanup | lib/xmltree.c:209-260 | A seen root is freed with everything below it; otherwise the path to the current element survives |
| XmlParser.Parser.Reset | lib/xmltree.c:126-139 | Everything that was kept is freed and the parser is empty |
| XmlRun.IncompletePath | lib/xmltree.c:32-102 | The nodes without XT_COMPLETE are exactly the path from the root to the current element |
| XmlRun.OneChild | lib/xmltree.c:209-260 | After a round an open root has at most one child, and that one is incomplete |
| XmlPrint.Print | lib/xmltree.c:276-309 | The recursive printer writes the markup of the tree, as the events it is read back as |
| XmlPrint.Replay | lib/xmltree.c:32-102 | Reading back what is printed for a tree adds the same tree as the next finished child, however the parser cuts the text |
| XmlPrint.RebuiltClear | lib/xmltree.c:276-309 | A tree as the parser builds it is read back exactly as it was |
| XmlPrint.Reparse | lib/xmltree.c:262-309 | Printing and parsing again gives a new, disjoint, well-linked tree with the same names, attributes, texts and child order |
| IpcSpec.FreeKeeps | ipc.c:787-813 | ipc_master_free_one keeps the links a matching and changes only the freed child and its partner, unless the partner holds a descriptor and cannot be written to; then, and only then, it walks on from a freed list cell. A partner that was told has neither to_child nor to_fd left |
| IpcSpec.FailBothKeeps | ipc.c:494-515 | Telling both parties that a takeover failed unlinks them and touches no one else; freed memory is used exactly when both hold a descriptor and neither can be written to. Whoever was told has neither to_child nor to_fd left |
| IpcSpec.BroadcastKeeps | ipc.c:736-743 | A broadcast frees exactly the children that cannot be written to; freed memory is used exactly when two linked ones both fail and the later holds a descriptor |
| IpcSpec.IdentifyKeeps | ipc.c:138-175 | IDENTIFY links at most the sender and one older session that are both unlinked, and keeps the matching; when it uses freed memory |
| IpcSpec.TakeoverKeeps | ipc.c:178-231 | TAKEOVER AUTH, DONE and FAIL keep the matching and change nothing outside the sender's pair; when they use freed memory |
| IpcRules.FreeHas | ipc.c:787-813 | What freeing a child does to its partner and to no one else, in the fields of the children |
| IpcRules.BothHas | ipc.c:494-515 | What a failed takeover does to both parties |
| IpcRules.TakeoverHas | ipc.c:178-231 | What each sub-command does to sender and peer: whom it tells, whom it frees, which links go |
| IpcRules.IdentifyHas | ipc.c:138-175 | Which older session is offered, that it is the first with the nick and password that is free, and what sender and session then hold |
| IpcRules.BroadcastHas | ipc.c:736-743 | Who is left after a broadcast, and with which links |
| Ipc.Master.TakeoverFail | ipc.c:494-515 | The same for ipc_master_takeover_fail, for one party and for both |
| Ipc.Master.Identify | ipc.c:138-175 | The search for the older session, the offer and the answer, on the fields of the children |
| Ipc.Master.Takeover | ipc.c:178-231 | The three sub-commands on the fields of the children, in the order of the code |
| Ipc.Master.Broadcast | ipc.c:736-743 | The loop that frees while it walks the list |
| Ipc.Master.NewClient | ipc.c:887-904 | A new child is on the list with no link, and the state stays proper |
| Ipc.Master.ReadLine | ipc.c:608-629 | A whole line from a child is the step of the specification; the state is proper afterwards unless freed memory was used, and when that is |
| Ipc.Master.FreeFd | ipc.c:815-829 | A hang-up frees the one child with that descriptor, or nobody |
| EventsSpec.AddInputAgree | lib/events_libevent.c:171-218 | b_input_add hands out the next id and keeps the id table and both descriptor indexes in agreement |
| EventsSpec.CloseAgree | lib/events_libevent.c:272-294 | After closesocket nothing is registered for the descriptor, and nothing else has gone |
| Events.Table.AddInput | lib/events_libevent.c:171-218 | The hash tables and handlers after b_input_add, with the entry taken over or a new one |
| Events.Table.Remove | lib/events_libevent.c:244-270 | The hash tables after b_event_remove, and id_dead set exactly for the handler being dispatched |
| Events.Table.CloseSocket | lib/events_libevent.c:272-294 | Both removals of closesocket |
| Events.Table.Callback | lib/events_libevent.c:120-155 | id_dead says exactly whether the handler being dispatched was freed under the id it was called with |
| ChannelList.ShowUsersIs | irc_channel.c:724-769 | A show_users value is refused exactly when some part names no state; otherwise each state gets the mode of the last part that names it, or none |
| ChannelList.ShownIs | irc_channel.c:771-790 | When a buddy is due, and with which flags, for each of the five rules, in the fields of buddy and settings |
| ChannelList.FillNames | irc_channel.c:674-694 | The five names of fill_by, and that any other is refused |
| ChannelList.OnlineSigns | irc_channel.c:740-763 | The signs +, % and @ behind a state give the modes 4, 2 and 1 |
| ChannelList.NoSign | irc_channel.c:740-763 | Any other end gives the mode 8 |
| Channels.Channel.SetMode | irc_channel.c:352-363 | The flags of a listed user are set, and nothing else changes |
| Channels.Irc.AddUser | irc_channel.c:213-234 | The user is listed once; the JOINED flag holds exactly when we are listed |
| Channels.Irc.DelUser | irc_channel.c:236-279 | The user is not listed any more; when we leave, only root stays |
| Channels.Irc.UpdateOne | irc_im.c:142-193 | One buddy is listed in the channel with exactly the flags due to it, or not at all, and no one else is affected; which flags those are is said in the fields of the buddy and the settings |
| Channels.Irc.UpdateAll | irc_im.c:142-193 | The channel lists every buddy exactly as its settings say |
| Channels.Irc.UserGroup | irc_im.c:331-351 | The view holds after a change of group |
| Channels.Irc.UserNew | irc_im.c:45-92 | The view holds with the new buddy |
| Channels.Irc.UserFree | irc_im.c:94-97 | The view holds without the buddy, which no channel lists any more |
| Channels.Irc.Quit | irc_user.c:200-218 | irc_user_quit takes the buddy off every channel and leaves the others as they are |
| Channels.Irc.SetFill | irc_channel.c:674-694 | The view holds under the new fill_by; an unknown value is refused and changes nothing; each of the five names selects its rule |
| Channels.Irc.SetGroup | irc_channel.c:696-706 | The view holds under the new group |
| Channels.Irc.SetAccount | irc_channel.c:658-672 | The view holds under the new account; an unknown one is refused and changes nothing |
| Channels.Irc.SetProtocol | irc_channel.c:708-722 | The view holds under the new protocol; an unknown one is refused and changes nothing |
| Channels.Irc.SetShowUsers | irc_channel.c:724-769 | The view holds under the new modes; a refused value changes nothing |
| Channels.Irc.NewChannel | irc_channel.c:34-59 | The view holds with a new control channel that nobody has joined |
| Channels.Irc.Part | irc_channel.c:236-279 | After leaving, the channel is not joined and keeps only root, unless it is temporary |
| Arc.AlwaysPermutation | lib/arc.c:59-116 | S is a permutation of all bytes after key setup and after every byte produced |
| Arc.Cipher.Schedule | lib/arc.c:76-82 | The in-place swaps of arc_keymaker |
| Arc.Cipher.GetByte | lib/arc.c:103-116 | The next state and byte of the generator |
| Arc.Streamed | lib/arc.c:59-116 | The bytes of the generator come from a trace of exchanges in S: key setup and output of ArcFour |
| Arc.DecodeEncode | lib/arc.c:139-223 | arc_decode recovers every text under the same password, for every IV |
| Arc.Encode | lib/arc.c:139-188 | The buffer of arc_encode: IV, then the masked padded text. The text is padded with a zero and random bytes to a multiple, and each byte is XORed with that of the stream keyed by the bytes of the password and the IV, 1024 places on |
| Arc.Decode | lib/arc.c:190-223 | The text and a zero behind it, or -1 and an empty string without an IV; the bytes are those of the text XORed with the stream keyed by the password and the IV in front |
| Base64.EncodeReal | lib/base64.c:50-80 | The loop writes exactly the encoding and a zero, inside a buffer of 4*ceil(n/3)+1 bytes; it is that of RFC 4648 |
| Base64.DecodeReal | lib/base64.c:116-153 | The loop writes exactly the decoding, inside a buffer of 3 bytes per 4 characters |
| Base64.ReverseDigit | lib/base64.c:96-104 | The reverse table takes every digit and the padding back to its value |
| Base64.StopsAt | lib/base64.c:116-153 | Decoding ends at the padding and, where char is unsigned, at every character that is no symbol |
| Nick.StrippedOk | nick.c:285-309 | nick_strip leaves a valid nick, or nothing exactly when no character was allowed; a valid nick stays as it is |
| Nick.StrippedIs | nick.c:285-309 | At most 24 allowed characters stay, or an underscore before at most 22 that begin with a digit |
| Nick.NickOkIs | nick.c:311-324 | A proper nick has 1 to 24 allowed characters and does not begin with a digit |
| Nick.NthIs | nick.c:230-238 | The candidates are the nick with more and more underscores up to 23 characters, and then with higher and higher first characters |
| Nick.FallbackIs | nick.c:259 | The fallback is "xx" and the random number in hexadecimal |
| Nick.Strip | nick.c:285-309 | The in-place loops leave the stripped nick, whatever was behind it in the buffer |
| Nick.Dedupe | nick.c:220-264 | The loop on the buffer ends within its 256 turns with that nick |
| NickChars.InTables | nick.c:32-33 | A character is allowed in a nick exactly when it is in one of the two strings |
| NickChars.Characters | nick.c:32-33 | The allowed characters, written out |
| NickChars.Alike | nick.c:326-347 | Which characters count as the same: a letter in both cases, and four pairs of others |
| NickChars.SameNickIs | nick.c:372-386 | nick_cmp finds two nicks of up to 1023 characters equal exactly when they have allowed characters only that fold to the same |
| UserIndex.MakeTable | nick.c:328-336 | The table filled from the two strings folds exactly the allowed characters |
| UserIndex.Lower | nick.c:326-347 | nick_lc folds the nick in place up to the first character that is not allowed, and succeeds exactly when there is none |
| UserIndex.Added | irc_user.c:37-43 | List and hash table agree after an insertion exactly if the nick is valid and was not in use |
| UserIndex.Removed | irc_user.c:89-90 | They agree after a removal |
| UserIndex.Index.New | irc_user.c:29-46 | irc_user_new adds the user under its key; the index is sound afterwards exactly if the nick is valid and unused |
| UserIndex.Index.Free | irc_user.c:89-90 | irc_user_free takes the user out of both |
| CStrings.InsertSorted | irc_user.c:43 | Insertion in front of the first element that is not smaller keeps a list strictly sorted exactly if the key is new |
| CStrings.FirstDifference | irc_user.c:165-170 | strcmp compares the first characters that differ |
| Framing.PiecesFeed | irc.c:402-458 | Unless a buffer begins with a line end, its pieces are its complete lines, none of them empty, and then its unfinished end |
| Framing.SplitLines | irc.c:402-458 | irc_splitlines cuts the buffer in place into those pieces; lines[] grows before it is exceeded and ends with NULL |
| Framing.AllExecuted | irc.c:337-398 | Stopping at the first empty piece executes all complete lines, or nothing at all when the buffer begins with a line end |
| Framing.Client.Process | irc.c:328-396 | The executed lines and the new readbuffer |
| Framing.Client.Read | bitlbee.c:215-240 | One read appends its text up to a zero byte and processes it; the connection is given up exactly for an unfinished line over 1024 characters |
| Framing.ReadsFeed | irc.c:328-396 | When no harmful read occurs, cutting a stream into reads makes no difference |
| Framing.ReadsWeight | irc.c:434-451 | No character comes out that did not come in, and some are lost at the first harmful read |
| Lines.Count | irc.c:478-487 | The counting pass finds as many words as the line has |
| Lines.ParseLine | irc.c:461-518 | The words of the line, in place, in an array of exactly their number, or NULL exactly when there is no command |
| Lines.Length | irc.c:529-534 | The computed length is the length of the printed line |
| Lines.BuildLine | irc.c:521-550 | The printed line and its zero fill the buffer exactly |
| Lines.PrefixDropped | irc.c:468-476 | A prefix and the spaces in front of the command are left out |
| DccAcks.AcksArrive | dcc.c:362-365 | The words of a sent stream of acknowledgements are the acknowledged numbers |
| DccAcks.WordsAre | dcc.c:265-268 | The words are groups of four bytes, the first counting most |
| DccCourse.WholeFile | dcc.c:253-290 | A file in one write and one acknowledgement, the protocol being done before or after it, is a run in which nothing goes wrong and everything goes through |
| Dcc.Transfer.Store | dcc.c:257-266 | However the bytes arrive, complete words are the successive big-endian words of the stream and the rest waits in the buffer |
| Dcc.Transfer.ProtoFinished | irc_im.c:1063-1071 | The protocol's end finishes the transfer at once if all is acknowledged, and is remembered otherwise |
| Dcc.Transfer.SendWrite | dcc.c:426-456 | A write counts exactly when it was complete and none was pending; everything else aborts; the handler for the next write is there exactly when some of the file is left |
| Dcc.Transfer.CanWrite | dcc.c:413-420 | When the socket is writable the callback is forgotten and the protocol asked for more: what its write, end or cancellation does to the count, the handlers and the transfer |
| Dcc.Transfer.Progress | dcc.c:155-172 | The timer aborts exactly when nothing was sent since it last ran |
| Dcc.Transfer.WriteRequest | dcc.c:401-411 | A request while a watch is recorded aborts; otherwise a watch is added |
| Dcc.Transfer.Close | dcc.c:459-483 | No event handler refers to the transfer any more and its socket is closed; a transfer that never had one closes descriptor 0 |
| Dcc.Transfer.SendStart | dcc.c:87-131 | A transfer within the size limit listens on its socket, with its watch and its timer; every other outcome leaves nothing |
| Dcc.Transfer.FtClose | irc_im.c:1058-1061 | A transfer that the protocol ends before it has a socket closes descriptor 0 |
| Dcc.Transfer.RecvStart | dcc.c:294-333 | A transfer the protocol can write connects, with its watch and its timer; every other outcome aborts it |
| RootCommands.Contiguous | root_commands.c:57-63 | In a sorted table a first match is the only one exactly if the next entry does not match |
| RootCommands.Search | root_commands.c:1433-1439 | The place of a name in the order, unless some entry has it in any case |
| RootCommands.BeginsIs | root_commands.c:57-63 | When a name begins with a word, and when two names are the same, letter by letter in any case |
| RootCommands.ShippedNeeds | root_commands.c:1387-1422 | How many words each shipped command needs |
| Http.EncodedChars | lib/misc.c:308-331 | Only unreserved characters and percent signs come out |
| Http.Escapes | lib/misc.c:312-322 | An unreserved character stays, and any other becomes a percent sign and its two upper-case hexadecimal digits |
| Http.Digits | lib/misc.c:280-289 | The digits that http_decode reads are those that http_encode writes, and their lower-case forms |
| Http.Encode | lib/misc.c:308-331 | The in-place loop leaves the encoding in a buffer of three characters per byte |
| Http.Decode | lib/misc.c:273-304 | The in-place loop leaves the decoding of the string |
| OAuth.SetGet | lib/oauth.c:98-141 | After oauth_params_set the key has the new value and no other, other keys keep theirs, and the list stays sorted |
| OAuth.Params.Put | lib/oauth.c:87-96 | The list with the entry inserted in order; nothing without a key or a value |
| OAuth.Params.Remove | lib/oauth.c:98-117 | The list without the entries of that key |
| OAuth.Params.Lookup | lib/oauth.c:125-141 | The first value of that key |
| OAuth.Params.Parse | lib/oauth.c:143-169 | The entries of the input are inserted, and the input, cut up meanwhile, is as it was |
| OAuth.Params.ToString | lib/oauth.c:180-201 | Entries with encoded values, ampersands between them |
| OAuth.TokensFromString | lib/oauth.c:423-435 | Both tokens of every string that oauth_to_string prints |
| OAuth.TokensText | lib/oauth.c:410-421 | The printed text of both tokens, of one and of the other |

## Left out

- Md5.DigestOfChunks: the rounds of `md5_transform` are a parameter; the theorem holds for every one.
- Sha1.DigestOfChunks: likewise `sha1_process_block`; null pointers are not modelled.
- Des.DecryptEncrypt: the contents of the S-boxes are a parameter.
- DesConforms.EncryptIsFips: likewise; the parameter holds the S-boxes with the permutation P already in them, as the code's tables do.
- Arc.PasswordRoundTrip: the key is taken as a byte sequence; passwords over 2^31 bytes are not modelled.
- Base64.DecodeEncode: rejection of malformed text is not claimed, since with signed characters the code does not reject it.
- IpcRun.RunKeeps: nothing is said of a run after it has used freed memory; passing descriptors, the child side, forking, restarts and saved state are not modelled.
- Nick.Dedupe: the nicks of others are a set of keys; nick_gen and saved nicks are not modelled.
- UserIndex.Index.SetNick: the sharing of the user, host and full name strings with the nick is not modelled.
- RootCommands.Add: the names are plain characters; locale-dependent case is not modelled.
- XmlRun.Run: depth 1, as the Jabber module asks for; at other depths a handler may get a node whose handled children are gone already, depending on the batches. Handlers do not change the tree. GMarkup is a source of balanced events for one root element; its own errors are not modelled.
- XmlParser.Parser.Round: depth 1 for the same reason; `XmlNode.Node.Handle` and `XmlNode.Node.Cleanup` hold at every depth.
- XmlStream.OpenRound: likewise depth 1.
- XmlPrint.Print: escaping and unescaping are GMarkup's, so the printed text appears as the events it is read back as, and the cutting of texts into events is a parameter.
- XmlPrint.Reparse: likewise, printer and parser meet in the events and not in characters.
- IpcSpec.TakeoverKeeps: all writes to one child within a step have the same outcome, so a write that fails and a second one to the same child that succeeds is not covered.
- IpcSpec.FailBothKeeps: likewise, writes to one child within a step have the same outcome.
- IpcRun.StepKeeps: likewise, writes to one child within a step have the same outcome.
- IpcRun.OneBroken: likewise, a pipe that is broken at the first write of a step is broken at the second.
- Events.Table.AddInput: the class is about descriptors that are not negative, as its callers' are; `EventsSpec` says what happens to others.
- Channels.Irc.AddUser: the sorted position in the member list and the lines sent to the client.
- Channels.Irc.UserGroup: the new nick that the buddy may get between the two updates.
- Channels.Irc.NewChannel: the refusal of an unusable or used name, and the type of the channel.
- Channels.Irc.AutoJoin: one turn of the loop, for a control channel whose auto_join is set; rooms are not modelled.
- Channels.Irc.UserStatus: the lines sent to the client, watches and chat channels.
- UserIndex.Lower: a byte from 0x80 on, which indexes outside the table in the code, counts as not allowed.
- UserIndex.Index.ByName: nothing is said of users whose nick has over 1023 characters, nor of longer names against one that has just as many; valid nicks have at most 24.
- Framing.Client.Process: the conversion of character sets and the end of the connection during a command.
- Dcc.Transfer.Close: the free, canceled and finished callbacks of the protocol.
- Dcc.Sends: a run in which the timer looks for progress is not among those in which nothing goes wrong.
- Dcc.Run: sizes are unbounded; the request line and the messages are not modelled; a callback of the protocol does one thing, and its canceled and finished callbacks do none.
- Http.Decode: what `sscanf` answers where no two hexadecimal digits follow is a parameter; what is read after the loop has left the string is not modelled.
- Sockets, processes, files, system logging, signals: only the outcomes of reads and writes appear.
- SSL back ends, libotr, iconv, LDAP and the Windows ports: foreign or unfinished code.
- HTTP client, URL and INI parsing, the Jabber handlers, message formatting, help and settings storage: mostly plumbing, they would add easy members.
