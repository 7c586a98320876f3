# A verified model of the lobby server, its wire formats and the game client's network layer

The repository is a small multiplayer framework: a C++ server that keeps lobbies of players and relays messages
between them, and a Lua client that packs game values, frames them, and rebuilds rosters and messages from a byte
stream. This project models both ends and proves what they promise each other.

| file | what it models |
|---|---|
| `Bytes.dfy` | bytes, big-endian fields, chunk lists |
| `Floats.dfy` | the single and double packers over exact reals, with infinities and NaN as separate values |
| `MsgPack.dfy`, `MsgPackLaws.dfy`, `MsgPackRoundTrip.dfy` | the MessagePack coder as functions; locality, integers, the array test, the round trip |
| `MsgPackFormats.dfy`, `MsgPackStreams.dfy` | every format byte for byte, shortest forms, when packing fails; what iterating over a byte string yields |
| `MsgPackCodec.dfy` | the packer's buffer and the two cursors as classes, proved against those functions |
| `BlobVarint.dfy`, `BlobBuffers.dfy`, `BlobTables.dfy` | variable-length integers, the growable writer and the reader, tables with cycle detection |
| `Roster.dfy` | a lobby's players: ids, sorted insertion, removal, master; the `Lobby` class |
| `LobbyProtocol.dfy` | the server as a transition system over sessions, lobbies, mutexes and outboxes |
| `LobbyInvariants.dfy`, `LobbyMembership.dfy`, `LobbyViews.dfy`, `LobbyRelays.dfy` | what each step keeps |
| `LobbyRuns.dfy` | the main results over whole runs |
| `LobbySessions.dfy` | the handlers of a session run from start to end, as methods that take the protocol's steps |
| `LobbyWire.dfy`, `LobbyOutboxes.dfy` | the bytes of lobby messages in both directions; everything posted fits them |
| `Framing.dfy`, `Connection.dfy` | length-prefixed messages, `readMessage`, the read loop, the single-writer send queue |
| `Queue.dfy`, `ClientLaws.dfy`, `SendLaws.dfy`, `NetClient.dfy` | the client's queue; its receive loop over any message handler, as intended and as written; its sending loop; its handlers, reassembly and sending |
| `EndToEnd.dfy` | rosters and relayed values reach the client, requests the server |

## How the server is modelled

A step of the protocol is one lock-held change of a roster, one iteration of a sending loop, one lookup, one lock
release, one connection or one disconnection. Any session may take the next step, so a run is any interleaving the
strands and the shared mutexes allow. A session's `outbox` is the list of messages posted to its connection; the write
strand queues them in that order, and `Connection.dfy` says how they leave. A lobby name is any unused name of at most
28 bytes: two words of `server/src/words.cpp`, of at most 14 letters each.

A run is *safe* when no member creates a lobby, and a member's join is refused and names its own lobby. Membership
theorems need exactly that: from a coherent state a step leads to a coherent state if and only if it is safe.

A step can also fail: `LobbyProtocol.Attempt` says whether it goes, waits for a mutex or the strand, or ends in a failed
assertion or an empty `playerId`. A run is made of steps that go. After a safe run, the handlers of a session fail
exactly when its last join was refused (`HandlersFailExactly`), and such a run exists (`JoinLockedLobby`).
`LobbyProtocol.AttemptGoes` ties the two together.

## Where the code differs from its intent

- `Queue:size` is `front - back + 1`, right for one element only; `concatUntil` uses it and adds a chunk instead of
  its length. As written, only the front chunk is ever looked at. Both forms are modelled: the flag `fixed` of
  `NetClient.ConcatUntil` and `NetClient.Net.Receive` chooses. Conservation and order hold as written; completeness
  holds for the intended form, and for the code as written exactly when no message of the stream crosses the end of a
  read (`FrontCompletesExactly`).
- `Queue:clear` leaves two nil slots.
- `readMessage` compares with `msgSize + 4` in 32 bits, so sizes above 2^32 - 5 end in a failed assertion until
  enough bytes have come (`CrashesExactly`, `HeaderAloneCrashes`).
- A refused join leaves `lobby_` set without a `playerId`, on which the next sendMessage, lock or unlock fails its
  assertion, and the next leave uses an empty optional. A member that is refused by another lobby keeps its id, and its
  next leave removes whoever has that id there (`LeaveAfterRefusal`, `LeaveRemovesAnother`).
- The server relays payloads unread, and the client unpacks them without a guard: one that is no packed value raises an
  error at every receiver (`DeliversExactly`, `RelayGarbage`).
- The server does not check for the end of a message (`OverreadExactly`, `CutRequestOverreads`).
- The reply to `requestLobbyUpdate` is sent after the lock is released, so a client may end with an old roster
  (`StaleReply`).
- `vs32size` is one too small in four ranges.
- The array test of MessagePack's `without_hole` mode takes a table with a fractional key for an array when the largest
  key equals the number of keys; such a table does not survive.
- Encoded exponent 0 is not read as subnormal (`SubnormalMisread`), and magnitudes below the smallest encoded one become
  zero: `KeptExactly` says which finite numbers survive.
- `toLower` returns its argument, so lobby names are compared as they are.

## Model

| member | source | states |
|---|---|---|
| Floats.FloatRoundTrip | client/libs/msgpack.lua:391-421 | five bytes with tag 0xCA; reading them back gives the number kept by the single format |
| Floats.DoubleRoundTrip | client/libs/msgpack.lua:423-457 | nine bytes with tag 0xCB; reading them back gives the number kept by the double format |
| Floats.TruncatesTowardZero | client/libs/msgpack.lua:573-602 | in the exponent range the kept number is nearer zero by less than one unit of the format, and equal exactly when the bits fit |
| Floats.KeptExactly | client/libs/msgpack.lua:604-633 | a finite number survives if and only if it is zero, or in range with bits that fit |
| Floats.KeptIdempotent | client/libs/msgpack.lua:391-457 | a second pack and unpack changes nothing, infinities and NaN included |
| Floats.Normalized | client/libs/msgpack.lua:423-457 | every positive number of at most 53 significant bits is k * 2^j with a k of just 53 bits |
| Floats.DoubleKeptExactly | client/libs/msgpack.lua:423-457 | what the double packer keeps of k * 2^j: all of it above 2^-1023 up to the largest double, so of every normal double; zero at or below 2^-1023, infinite above |
| Floats.SingleKeptExactly | client/libs/msgpack.lua:391-421 | what the single packer keeps of k * 2^j with a k of 24 bits: all of it above 2^-127 up to the largest single; zero at or below 2^-127, infinite above |
| Floats.SubnormalMisread | client/libs/msgpack.lua:604-633 | every subnormal double as other writers encode it is read as another number, and as which |
| MsgPackLaws.DecodeLocal | client/libs/msgpack.lua:526-571 | appending bytes changes a result only from missing bytes to something else; a success keeps value and length |
| MsgPackLaws.DecodeCut | client/libs/msgpack.lua:526-571 | bytes behind a decoded value are not needed to decode it |
| MsgPackLaws.DecodeConsumes | client/libs/msgpack.lua:526-535 | a success consumes a nonempty prefix that decodes to the same value alone |
| MsgPackLaws.PrefixFree | client/libs/msgpack.lua:840-848 | no valid encoding is a proper prefix of another; a cut one is reported as missing bytes |
| MsgPackLaws.SignedValue | client/libs/msgpack.lua:679-737 | the byte-minus-0xFF formulas compute two's complement |
| MsgPackLaws.IntegerRoundTrip | client/libs/msgpack.lua:263-378 | both integer packers decode back to every whole number strictly between -9007199254740991 and 9007199254740991 |
| MsgPackLaws.UnsignedIsShortest | client/libs/msgpack.lua:263-321 | no integer encoding of a number is shorter than the unsigned packer's |
| MsgPackRoundTrip.NumberRoundTrip | client/libs/msgpack.lua:459-479 | a number reads back as itself if integral and small, else as the kept number |
| MsgPackRoundTrip.NumberFitsExactly | client/libs/msgpack.lua:391-479 | a number packs and unpacks to itself if and only if it is a small integer, infinite, NaN, zero, or in range with bits that fit the chosen format |
| MsgPackRoundTrip.KeyFitsExactly | client/libs/msgpack.lua:159-179 | a key of a table comes back unchanged if and only if it is no number or one that fits |
| MsgPackRoundTrip.StringRoundTrip | client/libs/msgpack.lua:82-144 | strings read back in all three string formats |
| MsgPackRoundTrip.MapHeaderDecodes | client/libs/msgpack.lua:159-179 | every map header leads to reading that many pairs |
| MsgPackRoundTrip.ArrayHeaderDecodes | client/libs/msgpack.lua:181-201 | every array header leads to reading that many items |
| MsgPackRoundTrip.ArrayTestExact | client/libs/msgpack.lua:205-225 | a table whose keys are 1..n takes the array form; one in array form has keys 1..n exactly when its keys are whole |
| MsgPackRoundTrip.DecodePacked | client/libs/msgpack.lua:517-571 | decoding a packed value gives its unpacked form, for any order of the pairs and before any suffix |
| MsgPackRoundTrip.MeaningSurvives | client/libs/msgpack.lua:517-571 | the unpacked form means the same, as a Lua value, if and only if the value is faithful: its numbers and keys fit, and no table in array form has a fractional key |
| MsgPackRoundTrip.RoundTrip | client/libs/msgpack.lua:840-848 | unpacking a packed value succeeds and preserves its meaning exactly for faithful values |
| MsgPackRoundTrip.SameTables | client/libs/msgpack.lua:558-571 | two tables mean the same if and only if they have the same keys and under each a value that means the same |
| MsgPackRoundTrip.IntegersAreFaithful | client/libs/msgpack.lua:205-225 | nested tables of nil, booleans, strings and whole numbers below 9007199254740991 in magnitude are always faithful |
| MsgPackRoundTrip.FractionalKeysFail | client/libs/msgpack.lua:205-225 | a table with keys 0.5 and 2 that does not survive |
| MsgPackFormats.IntegersSurvive | client/libs/msgpack.lua:459-466 | with every setting, every whole number strictly between -9007199254740991 and 9007199254740991 reads back as itself, before any suffix |
| MsgPackFormats.FloatPackerExactly | client/libs/msgpack.lua:459-479 | a number goes to the float packer of the setting if and only if it is no whole number in that range |
| MsgPackFormats.LimitIsLost | client/libs/msgpack.lua:459-466 | 9007199254740991 itself goes to the single packer and comes back as another number |
| MsgPackFormats.PackFailsExactly | client/libs/msgpack.lua:82-201 | packing fails if and only if a string or a table of more than 4294967295 is among what is packed |
| MsgPackFormats.SignedUsed | client/libs/msgpack.lua:323-378 | the signed packer uses the tags of immediate and signed integers only |
| MsgPackFormats.SignedIsShortest | client/libs/msgpack.lua:323-378 | no encoding of a number with such a tag is shorter than the signed packer's |
| MsgPackFormats.StringShortest | client/libs/msgpack.lua:82-144 | in each of the three modes, the packer's header has a tag of that mode, and no header with one announces the string in fewer bytes |
| MsgPackFormats.MapHeaderShortest | client/libs/msgpack.lua:159-179 | no map header announces a count in fewer bytes |
| MsgPackFormats.ArrayHeaderShortest | client/libs/msgpack.lua:181-201 | no array header announces a count in fewer bytes |
| MsgPackFormats.OneByteFormats | client/libs/msgpack.lua:755-805 | nil, booleans, small integers and empty tables by their byte; the byte that is no format; what is too long or too short |
| MsgPackFormats.IntegerFormats | client/libs/msgpack.lua:635-737 | tags 0xCC to 0xCF and 0xD0 to 0xD3 announce one, two, four and eight bytes, most significant first, unsigned or in two's complement |
| MsgPackFormats.StringFormats | client/libs/msgpack.lua:537-548 | tags 0xA0 to 0xBF, 0xD9 to 0xDB and 0xC4 to 0xC6 announce a string with its length in the tag or in one, two or four bytes |
| MsgPackFormats.TableFormats | client/libs/msgpack.lua:755-805 | the tags and count fields of arrays and maps |
| MsgPackFormats.SmallTables | client/libs/msgpack.lua:550-571 | an array and a map of one, byte for byte |
| MsgPackFormats.DroppedKeys | client/libs/msgpack.lua:558-571 | a key that is nil or NaN is dropped with its value |
| MsgPackFormats.ExtensionsAreNil | client/libs/msgpack.lua:739-753 | an extension reads as nil |
| MsgPackFormats.FloatFormats | client/libs/msgpack.lua:391-457 | 1/2 and -5/2 in both precisions, byte for byte |
| MsgPackCodec.PackBuffer.Add | client/libs/msgpack.lua:62-80 | appends exactly the packed bytes of the value, or fails exactly on an overflow |
| MsgPackCodec.PackBuffer.AddTable | client/libs/msgpack.lua:205-225 | the counting loop, the choice of form and the filling loops append the packed table |
| MsgPackCodec.PackBuffer.Count | client/libs/msgpack.lua:206-219 | the loop over the keys computes form, count and largest key |
| MsgPackCodec.PackBuffer.AddPairs | client/libs/msgpack.lua:159-179 | the map loop appends keys and values in the order visited |
| MsgPackCodec.PackBuffer.AddItems | client/libs/msgpack.lua:181-201 | the array loop appends the items 1 to n |
| MsgPackCodec.PackToString | client/libs/msgpack.lua:517-521 | the whole packer computes the packed bytes |
| MsgPackCodec.Cursor.Underflow | client/libs/msgpack.lua:807-838 | trimming and refilling leave the unread bytes and the chunks to come unchanged, and fail exactly when they do not suffice |
| MsgPackCodec.Cursor.UnpackCursor | client/libs/msgpack.lua:526-535 | one value from the unread bytes, exactly as the decoder reads their concatenation |
| MsgPackCodec.Cursor.UnpackArray | client/libs/msgpack.lua:550-556 | the item loop reads what the decoder reads |
| MsgPackCodec.Cursor.UnpackMap | client/libs/msgpack.lua:558-571 | the pair loop reads what the decoder reads, dropping nil and NaN keys |
| MsgPackCodec.Cursor.Next | client/libs/msgpack.lua:850-871 | a step of the iterator ends exactly when nothing is unread |
| MsgPackCodec.UnpackString | client/libs/msgpack.lua:840-848 | `unpack` over a string |
| MsgPackCodec.UnpackerOverString | client/libs/msgpack.lua:850-857 | the iterator over a string yields the values and the final error of `DecodeAll`, which is what `YieldsInOrder` says |
| MsgPackCodec.UnpackerOverLoader | client/libs/msgpack.lua:858-867 | the iterator over any chunks yields the values and the error of the iterator over their concatenation |
| MsgPackStreams.YieldsInOrder | client/libs/msgpack.lua:850-871 | of encodings one after the other, and a tail that is empty or unreadable, iterating yields just their values, in order, and no error or the tail's |
| MsgPackStreams.Splits | client/libs/msgpack.lua:850-871 | every byte string consists of such encodings and such a tail |
| MsgPackStreams.PackedInOrder | client/libs/msgpack.lua:850-871 | packed values one after the other come back all, in order, without an error, each with its meaning if and only if it is faithful |
| BlobVarint.Vu32RoundTrip | client/libs/BlobWriter.lua:64-76 | reads back from exactly its own bytes if and only if not negative, before any suffix; every cut is out of data |
| BlobVarint.Vu32SizeRight | client/libs/BlobWriter.lua:213-230 | the announced size is the size written |
| BlobVarint.Vs32RoundTrip | client/libs/BlobWriter.lua:77-95 | every 32-bit signed number reads back from exactly its own bytes; every cut is out of data |
| BlobVarint.Vs32SizeExactly | client/libs/BlobWriter.lua:231-249 | the announced signed size is right except in four ranges, where it is one too small |
| BlobVarint.VarintBytes | client/libs/BlobWriter.lua:64-95 | both variable-length forms, byte for byte |
| BlobBuffers.GrownSize | client/libs/BlobWriter.lua:265-271 | the new size is at least what is asked for, and at least half as much again |
| BlobBuffers.GrownSizeExactly | client/libs/BlobWriter.lua:265-271 | the new size is just what is asked for when that is half as much again, else half as much again rounded up, and at least one byte |
| BlobBuffers.U16RoundTrip | client/libs/BlobWriter.lua:35-43 | two bytes that hold the number in either byte order |
| BlobBuffers.U32RoundTrip | client/libs/BlobWriter.lua:48-59 | four bytes that hold the number in either byte order |
| BlobBuffers.FieldBytes | client/libs/BlobWriter.lua:35-59 | both byte orders, byte for byte |
| BlobBuffers.WrittenSinceClear | client/libs/BlobWriter.lua:196-203 | what was written before the last clear does not matter |
| BlobBuffers.Writer.Allocate | client/libs/BlobWriter.lua:254-264 | a fresh buffer of the given size with the old contents, cut to it |
| BlobBuffers.Writer.Grow | client/libs/BlobWriter.lua:265-271 | reallocation keeps the contents |
| BlobBuffers.Writer.PutByte | client/libs/BlobWriter.lua:23-30 | appends one byte, growing if full |
| BlobBuffers.Writer.PutHalf | client/libs/BlobWriter.lua:35-43 | appends the low two bytes of any integer in the writer's order |
| BlobBuffers.Writer.PutWord | client/libs/BlobWriter.lua:48-59 | appends the low four bytes of any integer in the writer's order |
| BlobBuffers.Writer.PutVu32 | client/libs/BlobWriter.lua:64-76 | appends the unsigned variable-length form |
| BlobBuffers.Writer.PutVs32 | client/libs/BlobWriter.lua:77-95 | appends the signed variable-length form |
| BlobBuffers.Writer.PutRaw | client/libs/BlobWriter.lua:113-122 | appends the bytes; fails only when nothing is copied into no buffer |
| BlobBuffers.Writer.PutString | client/libs/BlobWriter.lua:19-22 | appends the length and the bytes |
| BlobBuffers.Writer.Clear | client/libs/BlobWriter.lua:196-203 | empties the contents, with a new buffer if a size is given |
| BlobBuffers.Writer.Perform | client/libs/BlobWriter.lua:23-63 | any list of calls, up to the first that raises an error, leaves the concatenation of what was written since the last clear, across all reallocations |
| BlobBuffers.StringRoundTrip | client/libs/BlobReader.lua:17-24 | a counted string reads back, before any suffix |
| BlobBuffers.Reader.GetByte | client/libs/BlobReader.lua:39-46 | the next byte, or out of data |
| BlobBuffers.Reader.GetHalf | client/libs/BlobReader.lua:51-58 | the next two bytes in the reader's order, or out of data |
| BlobBuffers.Reader.GetWord | client/libs/BlobReader.lua:63-70 | the next four bytes in the reader's order, or out of data |
| BlobBuffers.Reader.GetRaw | client/libs/BlobReader.lua:134-141 | the next bytes, or out of data; of a reader without data not even no bytes |
| BlobBuffers.Reader.GetString | client/libs/BlobReader.lua:17-24 | a counted string, or out of data |
| BlobBuffers.Reader.GetVu32 | client/libs/BlobReader.lua:94-112 | the bit tests byte by byte read the unsigned form |
| BlobBuffers.Reader.GetVs32 | client/libs/BlobReader.lua:113-133 | the bit tests byte by byte read the signed form |
| BlobBuffers.CollectIs | client/libs/BlobReader.lua:94-112 | testing the top bit of the accumulated number is testing the top bit of its last byte |
| BlobTables.FailureFound | client/libs/BlobWriter.lua:272-300 | every failure has a path from the table to its reason: a cycle, or a value without an encoding |
| BlobTables.NothingMissed | client/libs/BlobWriter.lua:272-300 | what is written has no path with a repetition and none to a value without an encoding |
| BlobTables.WritesExactly | client/libs/BlobWriter.lua:272-300 | a table is written if and only if neither a cycle nor an unsupported value can be reached |
| BlobTables.CycleExactly | client/libs/BlobWriter.lua:276-278 | with only supported values, the cycle error is raised if and only if a cycle can be reached |
| BlobTables.ReadsBack | client/libs/BlobReader.lua:273-276 | a tagged value reads back as its tree, before any suffix |
| BlobTables.TableRoundTrip | client/libs/BlobReader.lua:28-38 | for every acyclic supported graph the reader rebuilds a tree that stands for the table, and stops at its end: its stores are, in order, the pairs whose value is no function, with scalars as themselves and tables as trees that stand for them |
| BlobTables.UnfoldShows | client/libs/BlobWriter.lua:272-300 | what is written of any value stands for it, by a relation of graph and tree that does not mention the writer |
| BlobTables.ShownOnce | client/libs/BlobWriter.lua:272-300 | only one tree stands for a value |
| BlobTables.TagBytes | client/libs/BlobWriter.lua:333-345 | the tags in plain numbers: stop 0, string 2, table 3, true 4, false 5, zero 6, negative 7, positive 8; a table is its tag, its stores and a stop |
| BlobTables.WriteAndRead | client/libs/BlobWriter.lua:272-300 | writer and then reader, on any graph: written if and only if neither a cycle nor an unsupported value can be reached, and what is read stands for the table |
| BlobTables.WriteTable | client/libs/BlobWriter.lua:272-285 | terminates on every graph; marks and unmarks tables; appends the encoding of the unfolded tree or fails with its error |
| BlobTables.WritePairs | client/libs/BlobWriter.lua:280-282 | the loop over the pairs |
| BlobTables.WriteTaggedPair | client/libs/BlobWriter.lua:286-292 | skips pairs whose value is a function |
| BlobTables.WriteTagged | client/libs/BlobWriter.lua:293-300 | the tag and the value by its type |
| BlobTables.WriteNumber | client/libs/BlobWriter.lua:438-455 | the tag of a whole number by its sign |
| BlobTables.GetTagged | client/libs/BlobReader.lua:273-276 | the tag and the value it announces, except for the number and 64-bit tags |
| BlobTables.GetTable | client/libs/BlobReader.lua:28-38 | the loop that stores pairs, without number and 64-bit tags, until a stop tag comes in the place of a key |
| Roster.NextIdSmallestFree | server/src/LobbySession.cpp:18-30 | the new id is the smallest one free, and below 255 unless the lobby is full |
| Roster.SortedUnique | server/src/LobbySession.cpp:36 | there is one sorted arrangement of distinct ids, so any sort gives it |
| Roster.AddKeepsValid | server/src/LobbySession.cpp:32-38 | adding keeps everyone, adds one player, and keeps ids increasing and small |
| Roster.RemoveKeepsValid | server/src/LobbySession.cpp:49-54 | removing takes out one player and keeps the others in order |
| Roster.OneMaster | server/src/LobbySession.cpp:61-65 | the master is the player with the least id, and there is none only in an empty lobby |
| Roster.AllRostersValid | server/src/LobbySession.cpp:18-54 | over all sequences of adds and removes ids stay increasing and below 255, and the size at most 255 |
| Roster.Lobby.GetNextPlayerId | server/src/LobbySession.cpp:18-30 | the search loop finds the id |
| Roster.Lobby.AddPlayer | server/src/LobbySession.cpp:32-38 | the new roster and the new player's id |
| Roster.Lobby.GetPlayerIndexById | server/src/LobbySession.cpp:40-47 | the search loop finds the player |
| Roster.Lobby.RemovePlayer | server/src/LobbySession.cpp:49-54 | just that player is gone |
| Roster.Lobby.IsPlayerMaster | server/src/LobbySession.cpp:61-65 | whether the id is the least one in the lobby |
| LobbyInvariants.StructureKept | server/src/LobbySession.cpp:186-296 | every step keeps rosters valid and encoded once per change, and mutex ownership consistent with the handlers |
| LobbyMembership.CoherentExactly | server/src/LobbySession.cpp:186-241 | from a coherent state a step leads to a coherent state if and only if it is safe |
| LobbyViews.ViewsKept | server/src/LobbySession.cpp:186-241 | every safe step keeps every member's view |
| LobbyRelays.RelaysKept | server/src/LobbySession.cpp:263-284 | every step keeps relays exactly-once and in order |
| LobbyRuns.RunsAreStructured | server/src/LobbySession.cpp:186-296 | the structure holds in every reachable state, safe run or not |
| LobbyRuns.SafeRunsKeepAll | server/src/LobbySession.cpp:186-296 | structure, membership, views and relays hold in every state of a safe run |
| LobbyRuns.CoherentRunsExactly | server/src/LobbySession.cpp:186-241 | a run is coherent throughout if and only if all its steps are safe |
| LobbyRuns.RostersInRuns | server/src/LobbySession.cpp:18-65 | in every run rosters are valid and a non-empty lobby has one master, its least id |
| LobbyRuns.EnterExactly | server/src/LobbySession.cpp:32-59 | in every run a join that has the mutex adds its player, with a free id and under its name, if and only if the lobby is unlocked and has fewer than 255 players; else the lobby stays as it is |
| LobbyRuns.HistoryRecords | server/src/LobbySession.cpp:186-241 | only entries and leaves change a roster, and each change is recorded once |
| LobbyRuns.ComingAndGoing | server/src/LobbySession.hpp:75-76 | connecting adds an empty session, disconnecting takes one away; lobbies and other sessions stay |
| LobbyRuns.OneEntryEach | server/src/LobbySession.cpp:186-225 | a session with an id has exactly one entry in all rosters: in its lobby, under its id, over its connection |
| LobbyRuns.OutsidersHaveNone | server/src/LobbySession.cpp:186-241 | a session without an id has no entry anywhere |
| LobbyRuns.LeavingRemovesOwn | server/src/LobbySession.cpp:227-241 | leaving removes the leaver's entry and no other, in any lobby |
| LobbyRuns.HandlersFindTheirPlayer | server/src/LobbySession.cpp:49-54 | after a safe run a session with an id always finds its player in its lobby |
| LobbyRuns.StrandedExactly | server/src/LobbySession.cpp:203-225 | in every run a session between handlers has a lobby and no id if and only if its last join, made without an id, was refused by `canJoin` |
| LobbyRuns.HandlersFailExactly | server/src/LobbySession.cpp:227-284 | after a safe run the next sendMessage, lock or unlock of an idle session fails if and only if its last join was so refused, and so does its next leave once it gets the mutex |
| LobbyRuns.HeldMutexesProgress | server/src/LobbySession.cpp:186-284 | in every reachable state a lobby whose mutex is held has a holder whose next step can be taken |
| LobbyRuns.RosterView | server/src/LobbySession.cpp:186-241 | with no writer, a member has been sent its welcome and every roster since it joined, in order; the last is the current one and all list it |
| LobbyRuns.RosterViewAnyTime | server/src/LobbySession.cpp:186-241 | at any time it has been sent a prefix of that, at most one roster behind |
| LobbyRuns.RelayOrder | server/src/LobbySession.cpp:263-284 | between relays a connection has been posted exactly what was relayed to it, once each and in the sender's order |
| LobbyRuns.RelayOrderAnyTime | server/src/LobbySession.cpp:263-284 | during a relay it has all of them or all but the last |
| LobbyRuns.NoEcho | server/src/LobbySession.cpp:276-281 | nobody is posted a copy of its own relays |
| LobbyRuns.RelayedToOthers | server/src/LobbySession.cpp:263-284 | a relay is for exactly the other live members of the lobby, under the sender's id |
| LobbySessions.LobbyServer.SendToAll | server/src/LobbySession.cpp:158-165 | every player's live connection is posted the data once, no other connection anything, and no membership changes |
| LobbySessions.LobbyServer.ProcessCreateLobby | server/src/LobbySession.cpp:186-201 | the sender, member or not, ends as the only player, with id 0, of a new unlocked lobby whose mutex is free, and is posted the welcome and the roster |
| LobbySessions.LobbyServer.ProcessJoinLobby | server/src/LobbySession.cpp:203-225 | joins if and only if some session refers to the lobby, it is unlocked and it has fewer than 255 players: welcome, then the new roster to all; a refused join changes `lobby_` only, and the run stays safe exactly as stated |
| LobbySessions.LobbyServer.ProcessLeaveLobby | server/src/LobbySession.cpp:227-241 | only the sender is gone, refers to no lobby, and the others are posted the roster; or the failure of an empty id; or nothing outside a lobby |
| LobbySessions.LobbyServer.ProcessSendMessage | server/src/LobbySession.cpp:263-284 | one copy to every entry under another id; or the failed assertion; or nothing outside a lobby |
| LobbySessions.LobbyServer.SetLobbyLocked | server/src/LobbySession.cpp:243-261 | only a master changes the lock of its own lobby; or the failed assertion |
| LobbySessions.LobbyServer.ProcessRequestLobbyUpdate | server/src/LobbySession.cpp:286-296 | the sender in a lobby is posted its roster, and nothing else changes |
| LobbySessions.RelayedToMembers | server/src/LobbySession.cpp:263-284 | after a safe run `processSendMessage` posts one copy to each other live member of the lobby, and to no other connection |
| LobbySessions.JoinLockedLobby | server/src/LobbySession.cpp:203-261 | a safe run from the start, a refused join, after which leave, lock, unlock and sendMessage of that session fail |
| LobbySessions.MemberMustNotCreate | server/src/LobbySession.cpp:186-201 | a member that creates a lobby leaves a stale entry behind |
| LobbySessions.CreateTwice | server/src/LobbySession.cpp:186-201 | such a run from the start, with the stale entry it ends in |
| LobbySessions.LeaveAfterRefusal | server/src/LobbySession.cpp:203-241 | after a member's refused join its leave fails if the lobby it named has no player with its id, and else removes that player, who is the member itself if and only if it named its own lobby; the run is safe exactly then |
| LobbySessions.LeaveRemovesAnother | server/src/LobbySession.cpp:203-241 | such a run from the start: a leave empties another lobby, whose player stays connected, and leaves a stale entry in its own |
| LobbyOutboxes.OutboxesInRuns | server/src/LobbySession.cpp:158-184 | in every run, safe or not, all messages posted to live sessions, replies included, fit their encoding and have a reason of their kind |
| LobbyOutboxes.PostedMessagesFit | server/src/LobbySession.cpp:167-184 | spelled out: lobby names below 256 bytes, all ids below 255, rosters sorted with names and counts below 256, payloads below 65536 bytes |
| LobbyWire.BufferWriter.String8 | server/src/serialization.hpp:145-157 | a count cut to one byte, and the bytes |
| LobbyWire.BufferWriter.EncodeLobbyJoined | server/src/LobbySession.cpp:167-173 | appends the welcome's bytes |
| LobbyWire.BufferWriter.EncodeLobbyUpdate | server/src/LobbySession.cpp:175-184 | appends the roster's bytes |
| LobbyWire.BufferWriter.EncodePlayers | server/src/LobbySession.cpp:180-183 | the loop over the players appends their entries |
| LobbyWire.BufferWriter.EncodeRelay | server/src/LobbySession.cpp:269-272 | appends the relayed message's bytes |
| LobbyWire.JoinedReadsBack | client/net.lua:96-108 | the client reads the lobby and id the server wrote |
| LobbyWire.RelayReadsBack | client/net.lua:110-120 | the client reads the sender's id and payload |
| LobbyWire.UpdateReadsBack | client/net.lua:122-138 | the client reads exactly the roster the server wrote, sorting after each entry |
| LobbyWire.JoinedBytes | server/src/LobbySession.cpp:167-173 | the welcome, byte for byte, from type 3 |
| LobbyWire.RelayBytes | server/src/LobbySession.cpp:269-272 | the relayed message, byte for byte, from type 8 |
| LobbyWire.UpdateBytes | server/src/LobbySession.cpp:175-184 | the roster of none and of one, byte for byte, from type 10 |
| LobbyWire.EntriesAppend | server/src/LobbySession.cpp:180-183 | the entries of a roster follow one another in its order |
| LobbyWire.CutUpdate | client/net.lua:122-138 | of an update that breaks off behind its count, the client reads just the entries that are complete, and it is an error |
| LobbyWire.CutJoined | client/net.lua:96-108 | a welcome that breaks off anywhere cannot be read |
| LobbyWire.CutRelay | client/net.lua:110-120 | a relayed message that breaks off anywhere cannot be read |
| LobbyWire.BufferReader.String8 | server/src/serialization.hpp:109-121 | a counted string, or a read outside the message |
| LobbyWire.ProcessMessage | server/src/LobbySession.cpp:298-337 | the request in a message by its type; unknown types are ignored |
| LobbyWire.RequestReadsBack | server/src/LobbySession.cpp:298-337 | an encoded request is understood as that request if and only if its names and payload fit their counts |
| LobbyWire.RequestBytes | client/net.lua:9-21 | every request, byte for byte, from its type |
| LobbyWire.IgnoredExactly | server/src/LobbySession.hpp:80-94 | a message is ignored if and only if its type is 1, 3, 8, 10 or at least 12 |
| LobbyWire.OverreadExactly | server/src/serialization.hpp:90-121 | the server reads outside a message if and only if it is shorter than its type and the counts in it need |
| LobbyWire.CutRequestOverreads | server/src/serialization.hpp:90-121 | so it does for every proper beginning of every encoded request |
| Framing.ParseConserves | server/src/serialization.cpp:10-22 | parsing a stream loses nothing and leaves nothing complete |
| Framing.ParseUnique | server/src/serialization.cpp:10-22 | only one list of messages and one incomplete rest make up a stream |
| Framing.ParseResumes | server/src/serialization.cpp:10-22 | parsing may stop and resume anywhere |
| Framing.ReadMessage | server/src/serialization.cpp:10-22 | no message, the first message, or a failed assertion, with the bytes consumed and the size test in 32 bits |
| Framing.ServeConserves | server/src/Server.cpp:47-57 | re-framed messages and the read buffer are the bytes committed |
| Framing.ServedPrefix | server/src/LobbySession.cpp:127-142 | the messages extracted are the first of the stream, and the rest is still in the buffer |
| Framing.ChunkingsComparable | server/src/LobbySession.cpp:127-142 | two ways to cut one stream give comparable message lists |
| Framing.DrainedExactly | server/src/LobbySession.cpp:127-142 | a read leaves no complete message behind if and only if at most one had arrived |
| Framing.SecondMessageWaits | server/src/LobbySession.cpp:127-142 | two messages in one read: the second stays in the buffer |
| Framing.ShortMessagesServed | server/src/serialization.cpp:10-22 | messages of at most 2^32 - 5 bytes never make the assertion fail, in any chunks |
| Framing.CrashesExactly | server/src/serialization.cpp:10-22 | a server fails if and only if some read leaves, behind the messages extracted before, a size above 2^32 - 5 without all its bytes |
| Framing.HeaderAloneCrashes | server/src/serialization.cpp:10-22 | such a stream: the four bytes of the size 2^32 - 1, alone in the first read |
| Connections.HappenKeeps | server/src/Server.cpp:59-89 | posts and completions keep the queue consistent; a write starts only when none is outstanding and none has failed |
| Connections.LinkRuns | server/src/Server.cpp:59-89 | in every run: written and queue are what was queued, at most one write, over the unchanged front |
| Connections.BusyExactly | server/src/Server.cpp:59-89 | without errors a write is outstanding if and only if the queue is non-empty |
| Connections.SilentAfterError | server/src/Server.cpp:82-89 | after a failed write nothing is started or written any more |
| Connections.QuietMeansSent | server/src/Server.cpp:59-89 | when no write is outstanding and none failed, everything queued has been written, in order |
| Connections.Connection.QueueMessage | server/src/Server.cpp:59-71 | a post on the write strand |
| Connections.Connection.SendFromQueue | server/src/Server.cpp:73-80 | starts a write of the front, when none is outstanding |
| Connections.Connection.SendDone | server/src/Server.cpp:82-89 | a completion |
| Connections.Connection.ReadBuf | server/src/Server.cpp:47-57 | a read event: commit, extract at most one message, and read again unless an error came |
| Queues.Queue.Push | client/queue.lua:9-12 | appends |
| Queues.Queue.PushFront | client/queue.lua:14-17 | prepends |
| Queues.Queue.Peek | client/queue.lua:19-21 | the slot at an offset from the front, or nil |
| Queues.Queue.PeekBack | client/queue.lua:23-25 | the slot at an offset from the back, or nil |
| Queues.Queue.Pop | client/queue.lua:27-35 | takes the front, or an error exactly when empty |
| Queues.Queue.PopBack | client/queue.lua:37-45 | takes the back, or an error exactly when empty |
| Queues.Queue.Size | client/queue.lua:47-49 | as written: two less the number of slots, which is right for one slot only |
| Queues.Queue.Empty | client/queue.lua:51-53 | no slots |
| Queues.Queue.Clear | client/queue.lua:55-59 | leaves two nil slots |
| NetClient.ConcatUntil | client/net.lua:151-175 | intended: succeeds exactly if the queue holds enough, and then the front does; as written: exactly if the front does; bytes unchanged |
| NetClient.Net.PopMessage | client/net.lua:191-212 | takes the first message of the stream, or of the front chunk, and leaves the rest |
| NetClient.Net.Receive | client/net.lua:177-223 | the receive loop is draining the stream, as intended, or the front chunks, as written; it terminates by bytes left |
| NetClient.Net.OnLobbyJoined | client/net.lua:96-108 | the handler's new state, or an error without one |
| NetClient.Net.OnRelayMessage | client/net.lua:110-120 | the event it pushes, or an error without one |
| NetClient.Net.OnUpdateLobby | client/net.lua:122-138 | the roster and the event, or an error with the roster read so far |
| NetClient.Net.IsMaster | client/net.lua:256-259 | whether the first player has the asked or own id, or an error if and only if there are no players |
| NetClient.Send | client/net.lua:225-243 | what the socket was handed and what stays queued are as `SendLaws.Sending` says for the same attempts, about which see the rows of `SendLaws`; no byte is made up or lost but with a broken socket |
| SendLaws.SendsAll | client/net.lua:225-243 | when every chunk is taken in full, all bytes are handed over in order and the queue is empty |
| SendLaws.SendsPart | client/net.lua:225-243 | when a chunk is the first not taken in full, the bytes before it and the part taken are handed over, and its rest is queued before the chunks behind |
| SendLaws.SendsUntilBroken | client/net.lua:225-243 | when the socket breaks on a chunk, the bytes before it are handed over, it is lost, and the chunks behind stay |
| SendLaws.BlockedTriesAgain | client/net.lua:225-243 | a chunk that times out is tried again, whole |
| SendLaws.StopsOnlyThen | client/net.lua:225-243 | chunks stay queued only when the attempts are used up, or the last one made took part of a chunk or broke |
| SendLaws.SendConserves | client/net.lua:225-243 | bytes accepted, lost and queued are those that were queued and those sent again after a timeout; none are lost unless the socket breaks, none sent again unless a timed-out attempt took some |
| NetClient.SendRequest | client/net.lua:55-78 | queues one frame holding the encoded request, whose counts are cut to their width |
| ClientLaws.DrainConserves | client/net.lua:177-223 | intended: dispatched messages re-framed and the queue are the bytes that came |
| ClientLaws.DrainCompletes | client/net.lua:177-223 | intended: no complete message is left unless a handler failed |
| ClientLaws.ChunksDoNotMatter | client/net.lua:177-223 | intended: however a stream is cut, its messages are dispatched as if it had come at once |
| ClientLaws.FrontConserves | client/net.lua:151-223 | as written: dispatched messages re-framed and the queue are the bytes that came |
| ClientLaws.FrontConservesOverReads | client/net.lua:151-223 | as written, over any reads: dispatched messages re-framed and the queue are the bytes received |
| ClientLaws.FrontSafeOverReads | client/net.lua:151-223 | as written, over any reads: the first messages of the stream are dispatched, in order |
| ClientLaws.CutsAreEnds | client/net.lua:177-189 | the cuts of a stream are the ends of its reads |
| ClientLaws.FrontReaches | client/net.lua:151-223 | as written, one `receive` dispatches just the messages before the first that crosses the end of a chunk, up to a failing handler |
| ClientLaws.AsWrittenExactly | client/net.lua:151-223 | as written, over any reads: just the messages before the first that crosses the end of a read are dispatched, up to a failing handler, and the queue holds the rest |
| ClientLaws.FrontCompletesExactly | client/net.lua:151-223 | as written, over any reads without a failing handler: no complete message is left if and only if no message of the stream crosses the end of a read |
| ClientLaws.AsWrittenAsIntended | client/net.lua:151-223 | when no message crosses the end of a read, the code as written does what is intended |
| ClientLaws.StuckForever | client/net.lua:151-175 | as written: once the front chunk is short, no later data is looked at |
| ClientLaws.SplitMessageIsLost | client/net.lua:151-175 | a message in two reads is never dispatched as written, and is as intended |
| EndToEnd.HandlesWire | client/net.lua:96-138 | handling the bytes of a message does what the message means, and fails if and only if it is a relay whose payload does not unpack |
| EndToEnd.HandledSpelledOut | client/net.lua:96-138 | the new state of the client after each kind of message, field by field |
| EndToEnd.CutMessageFails | client/net.lua:96-138 | every message that breaks off behind its type is an error; only of a roster the complete entries are kept |
| EndToEnd.OtherMessagesDropped | client/net.lua:214-221 | an empty message, and one whose type is not 3, 8 or 10, changes nothing |
| EndToEnd.StreamTells | client/net.lua:177-223 | intended, at any time: of a stream of messages, in any chunks, the client was told those that have arrived completely, up to the first it cannot read, which is an error; what has arrived of the next is kept |
| EndToEnd.StreamTellsAsWritten | client/net.lua:151-223 | as written, at any time: the same for the messages before the first that crosses the end of a read, and all later bytes stay queued |
| EndToEnd.OutboxTells | server/src/LobbySession.cpp:158-184 | a member's whole outbox gives its client its id, its lobby and the current roster, unless a reply came after the last broadcast; then the reply's roster |
| EndToEnd.StaleReply | server/src/LobbySession.cpp:286-296 | a safe run from the start after which that roster is not the lobby's |
| EndToEnd.DeliveredSoFar | client/net.lua:177-223 | intended: in every run, safe or not, and at any time, the client was told the first messages posted to it, as many as have arrived, up to the first it cannot read |
| EndToEnd.DeliveredSoFarAsWritten | client/net.lua:151-223 | as written: the same for the messages before the first that crosses the end of a read |
| EndToEnd.DeliversExactly | client/net.lua:110-120 | intended: in every run, safe or not, a client sent its whole outbox raises an error if and only if some relayed payload does not unpack; without one it is told everything, with one what was posted before the first such payload |
| EndToEnd.DeliversExactlyAsWritten | client/net.lua:110-120 | as written: the same when no message crosses the end of a read |
| EndToEnd.RelayGarbage | server/src/LobbySession.cpp:263-284 | a safe run from the start, with a relayed byte 0xC1, after which the receiver's client fails in any chunks |
| EndToEnd.CarriedSoFar | server/src/Server.cpp:59-89 | at any time, with or without errors, what a connection has written is the start of the stream of messages posted to it |
| EndToEnd.RosterReachesClient | client/net.lua:256-259 | intended: in every safe run, over the send queue and any chunks, there is an error exactly if a payload does not unpack; else the client has its id and lobby, and the lobby's roster with both sides agreeing on the master for every id, or the roster of a reply posted last |
| EndToEnd.RosterReachesClientAsWritten | client/net.lua:256-259 | as written: the same when no message crosses the end of a read |
| EndToEnd.RelaysSoFar | client/net.lua:110-120 | intended: in every safe run and at any time, each message told is one event, and those from one sender are the first of the values relayed to the receiver, decoded, once each and in order |
| EndToEnd.RelaysSoFarAsWritten | client/net.lua:110-120 | as written, over any reads: the same |
| EndToEnd.RelaysReachClient | client/net.lua:110-120 | intended: in every safe run, over the send queue and any chunks, there is an error exactly if a payload does not unpack; else every message posted is one event, and those from one sender are all the values relayed to the receiver, decoded, once each and in order |
| EndToEnd.RelaysReachClientAsWritten | client/net.lua:110-120 | as written: the same when no message crosses the end of a read |
| EndToEnd.RelayedValueArrives | client/net.lua:90-120 | the event of one relayed message holding a value as the client packs it: under the sender's id, and meaning the same if and only if the value is faithful |
| EndToEnd.ClientBytes | client/net.lua:6-7 | the client packs integers unsigned, strings as strings of the shortest form, and other numbers in single precision |
| EndToEnd.RequestsArrive | server/src/LobbySession.cpp:127-142 | a client's requests that fit their counts are extracted and understood in order, in any chunks |
| EndToEnd.EmptyMessageOverreads | server/src/serialization.cpp:10-22 | an empty message is extracted, and its type is read outside of it |

## Left out

- LobbySessions.LobbyServer: handlers run uninterrupted there; interleavings are the runs of `LobbyProtocol`, whose sessions and lobbies are values and not objects.
- LobbyRuns.SafeRunsKeepAll: a session disconnects only between handlers, since a handler keeps its session alive.
- LobbyRuns.RosterView: counts welcomes and broadcasts; replies to `requestLobbyUpdate` are in `OutboxTells`.
- EndToEnd.RosterReachesClient: for the intended queue; as written see `RosterReachesClientAsWritten`.
- EndToEnd.RelaysReachClient: for the intended queue, while the sender is between relays; at any time see `RelaysSoFar`, as written `RelaysReachClientAsWritten`.
- EndToEnd.StreamTells: for the intended queue; as written see `StreamTellsAsWritten`. What the client does after an error is not modelled.
- ClientLaws.DrainCompletes: is about `receive` with the intended queue size and chunk lengths; as written see `FrontCompletesExactly`.
- NetClient.Send: the loop that retries is not claimed to terminate.
- MsgPackLaws.IntegerRoundTrip: 64-bit integers of 2^53 - 1 and above are decoded by the source in rounded doubles, here exactly.
- BlobBuffers.Writer.PutHalf: fractional arguments, and those beyond the range of the bit operations, are not modelled; the same holds for `PutWord`.
- BlobTables.TableRoundTrip: a table read back is the list of stores that fill it, in order; shared tables come back as copies, as the reader makes them.
- BlobTables.GetTagged: the number tag and the 64-bit tags are told apart but not read, since writer and reader disagree on the latter.
- BlobTables.GetTable: stops with the same error at a pair that holds such a tag.
- LobbyWire.BufferReader: a read past the end of a message is only marked as such; what it yields is not modelled.
- Sockets, threads and the event loops: bytes arriving, writes completing and bytes accepted are inputs.
- `net.update`, which receives and then either hands out one event or sends.
- The `with_hole` and `always_as_map` modes, the ext packers and readers, and the build with four-byte numbers in `client/libs/msgpack.lua`.
- Tables as keys, and NaN keys, of packed tables.
- `pack` and `unpack` format strings, arrays, C strings and 64-bit fields of the blob classes.
- Random lobby names, word lists, configuration and logging; `createLobby` is not claimed to terminate.
- Drawing, scenes and games of the client.
