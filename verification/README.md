# Model of the gvfs client

This project models the parts of gvfs where a mistake is easy to make and hard to see, and
proves what they promise.

* **The stream protocol.** A file opened through gvfs is read and written over a socket to a
  daemon. The client drives that socket with hand-written state machines that cope with short
  reads and writes, cancellation, sequence numbers, seek generations, half-read data blocks and
  blocks read ahead. `Wire`, `RequestStream` and `StreamIo` hold the byte layout and what both
  directions share; `ReadChannel` and `WriteChannel` the daemon and the socket; `StreamState`
  and `WriteState` what a stream keeps between steps; `InputStream` and `OutputStream` the
  machines, their synchronous driver, the public operations and whole sessions.
* **Names.** `Paths` is the in-place path normaliser against a stack of components,
  `PathPrefixes` the prefix algebra and the way to the FUSE mountpoint and back, `MountSpecs`
  the sorted item array against the map it stands for and its string form, `Uris` the URI
  encoder and decoder (sections 3 and 3.2 of RFC 3986), `UriLimits` which URIs survive them,
  `UriMappers` the SMB and AFP mappings, `DnsSd` the encoded service triples (section 4.1 of
  RFC 6763). `Text` defines the GLib string functions these use: percent escapes (section 2.1 of
  RFC 3986), splitting, comparison, UTF-8.
* **Laws.** A round trip does not tell a codec from another one that errs the same way in both
  directions. `TextLaws`, `PathLaws`, `SpecLaws`, `UriLaws` and `WireLaws` say what the single
  functions do, in characters and bytes, on inputs that no writer of the model produces too.
* **Smaller cores.** `FuseHandles` is the FUSE daemon's handle with its cached stream position
  (over `FileContents`), `FileInfos` the marshalling of file attributes, `FtpList` the tokeniser
  and the symbolic-link lines of an FTP listing. `Sequences` holds what all modules share.

C strings are sequences of characters 1 to 255 (`Text.IsText`) or of bytes. Integers are
unbounded unless a width matters: sequence numbers and header words are taken modulo 2^32,
header arithmetic is done in 32 and 64 bits, offsets travel as two 32-bit words, and the skip
count of the FUSE daemon goes through a C int. What the environment decides (how many bytes a
socket call moves, when the caller cancels, what the daemon answers and when, which open fails)
is a nondeterministic choice, so that every theorem is about every choice. So are the bytes of a
buffer that nothing has written to.

Large invariants are sealed with `Sequences.Mark`: a predicate `forall k :: Mark(x, k) ==> P(x)` is
opened by mentioning `Mark(x, 0)`. It has the meaning of `P` and keeps the proofs small.

## Findings

These are behaviours of the code, each with its exact condition.

* A seek cancelled before its first byte is sent stores -1 in a boolean, so it reports success
  and sets the offset to 0 (`InputStream.FileInputStream.Seek`, `OutputStream.FileOutputStream.Seek`).
* A refused seek on a read stream has already bumped the generation and dropped read-ahead data,
  so the next read starts beyond the reported offset by exactly the bytes dropped and met on the
  way (`InputStream.FileInputStream.Seek`); `StreamState.RefusedSeekLosesData` gives such states.
* A channel whose backend blocks requests, as it does while an unmount is tried, refuses a seek
  without counting it. The client has counted it, and takes every later block for an old one, even
  when the channel is unblocked (`InputStream.FileInputStream.Seek`, `StreamState.NeverCurrent`).
* A query cancelled before its first byte takes back twenty bytes and not its attributes; the
  stream survives if and only if there were none (`QueryInfo` of both streams).
* The write stream enlarges its input buffer before it reads a reply. If a cancellation is begun
  while part of it is unread, whether the read was cut short or cancelled, and only then, the
  buffer is no longer the received part of a reply (`OutputStream.FileOutputStream.AppendCancel`,
  `Iterate`), and the machine goes on with undefined bytes for a header (`StepGarbled`), which may
  say that any number of bytes was written (`OutputStream.AnyCount`).
* The normaliser keeps a second leading slash if components are left (`Paths.Canonicalize`).
* A mount spec with a prefix and nothing but a type is printed as a string that its own reader
  rejects (`MountSpecs.LonePrefix`).
* The normal form of an encoded DNS-SD triple decodes to another triple if an escape of its type
  stands for a dot: the type is then cut at that dot (`DnsSd.NormalizeKeepsTriple`, `DnsSd.NormalizeMovesDot`).
* A password is dropped by the URI decoder, although client/test-uri-utils.c:18 expects to see it
  again (`Uris.UriRoundTrip`). With no path, the port of a bracketed host is looked for in the
  query (`Uris.HostFits`).
* An open with O_TRUNC through a handle that is held for writing does not empty the file
  (`FuseHandles.FileHandle.Open`).
* A read that skips 2^31 bytes or more at once, on a stream that cannot seek, fails and leaves the
  cached position wrong (`FuseHandles.FileHandle.Read`).
* A read whose seek or skip fails may have moved the stream all the same. The cached position stays,
  and a later read at it returns, without an error, bytes from further on
  (`FuseHandles.ReadsFurtherOn`).
* An append to a FUSE handle whose stream was opened for editing lands at the stream's position
  (`FuseHandles.FileHandle.WriteStream`).
* Creating a file through a used handle keeps the old cached position, and padding a file leaves
  the cached position at its end while the stream goes back; making a file smaller on a stream
  that cannot truncate reports success and does nothing (`FuseHandles.FileHandle.Create`,
  `FuseHandles.FileHandle.TruncateStream`).
* The time of an `ls -l` line may be a number of five digits, although the comment at
  daemon/ParseFTPList.c:1048 lists four (`FtpList.TimesExactly`).
* An object that cannot be printed ends the demarshalled info (`FileInfos.InfoBack`).

## Model

| member | source | states |
|---|---|---|
| InputStream.Session | client/gdaemonfileinputstream.c:481-864 | any run of reads, seeks, queries and closes, each cancellable at any moment: every call up to where the run stopped is logged with the replies it decoded and the requests it put on the wire, which are all of those of the connection, does what its result says, and begins at the tell(), the place in the file and the amount of data held where the one before it ended; each call asks for what it is (READ with the count up to 4 MiB, SEEK_SET or SEEK_END with the target, QUERY_INFO with the attributes, CLOSE), followed at most by a CANCEL that names it, and a read is silent if and only if it is served from what is held or cancelled; a run stops only at a dead connection, a query taken back with attributes, or a seek refused by a blocked channel |
| InputStream.Perform | client/gdaemonfileinputstream.c:830-864 | one call of such a run: what its event says is true, tell(), the place of the next byte and the data held before and after it included; an empty read means the end of the file, and no byte of the data heard is lost or made up |
| InputStream.ReadsAtTell | client/gdaemonfileinputstream.c:830-864 | end to end, in every run that starts in step: a read with tell() = o, with no seek lost since the last one that took place, returns exactly the file's bytes at o, none only at the end of the file, and moves tell() to o + n |
| InputStream.TellIsRight | client/gdaemonfileinputstream.c:1340-1377 | in every such run tell() is the place of the next byte, unless, since the last seek that took place, one was taken back, one was refused that dropped or met data, or the stream was closed |
| InputStream.Conservation | client/gdaemonfileinputstream.c:597-733 | in every run, as long as no seek is answered: the bytes returned and those held afterwards are exactly those held before and the data of the replies decoded, and the place of the next byte moves by the bytes returned |
| InputStream.SinceSeek | client/gdaemonfileinputstream.c:1177-1190 | since the last seek that the daemon answered, the bytes returned plus the bytes queued and unread are exactly the data of the replies decoded |
| InputStream.FileInputStream.Read | client/gdaemonfileinputstream.c:830-864 | the bytes returned are the file's at the cursor, at most the count, and none only at the real end of the file; offset and cursor advance by as many, and the reply stream by exactly the data decoded; the requests it adds are READ with the smaller of the count and 4 MiB, and perhaps a CANCEL that names it if there is a cancellable, and there are none if and only if data is held or the read is cancelled; a cancelled one leaves the connection as it was |
| InputStream.FileInputStream.Seek | client/gdaemonfileinputstream.c:1340-1377 | a seek that takes place puts offset and cursor at the target; a refused one leaves the offset and moves the cursor forward by exactly the bytes queued, the rest of the current block and the data met on the way, so that tell() stays right if and only if there were none, or, refused by a blocked channel, leaves the client a generation ahead; one taken back before its first byte needs a cancellable, returns true and sets the offset to 0; what is sent is SEEK_SET or SEEK_END with the 64-bit target in two words, and perhaps its CANCEL |
| InputStream.FileInputStream.QueryInfo | client/gdaemonfileinputstream.c:1620-1650 | a query moves neither cursor nor offset, and the reply stream by exactly the data it meets, which is kept; its result is what the last reply says; what is sent is QUERY_INFO with the attributes, and perhaps its CANCEL; one taken back early needs a cancellable and leaves the stream valid if and only if it asked for no attributes |
| InputStream.FileInputStream.Close | client/gdaemonfileinputstream.c:1073-1112 | success means that the last reply decoded is CLOSED, a refusal that it is an ERROR; what is sent is CLOSE, and perhaps its CANCEL; the stream's invariant is kept unless the connection failed, and the socket is closed |
| InputStream.FileInputStream.RunSync | client/gdaemonfileinputstream.c:481-561 | the driver ends. On an answered end the last reply decoded is the first that ends the operation, in the log of every reply the daemon put, and the queue is what follows it; on a failure with the daemon gone no reply it put since the operation began would have ended it; a cancelled end needs a cancellable, which is looked at before and after every I/O |
| InputStream.FileInputStream.Turn | client/gdaemonfileinputstream.c:493-557 | one I/O call and the machine after it: with the cancellable firing at either moment, the machine hands over its next request or its end, nearer to the end by cancellation not sent, unsent bytes, daemon steps and reply bytes |
| InputStream.FileInputStream.Iterate | client/gdaemonfileinputstream.c:573-828 | from every state the machine reaches its next I/O request or its end, with framing, request numbering and the data position intact |
| InputStream.FileInputStream.Begin | client/gdaemonfileinputstream.c:584-638 | a read ends at once, with as much of the first queued block as it asks for, if anything current is queued, else reads the block it stands in if that is current, else sends READ with its size; every other operation sends its own request |
| InputStream.FileInputStream.TakeFromFront | client/gdaemonfileinputstream.c:597-617 | the bytes taken are the file's bytes at the cursor, as many as the first queued block has or as are asked for; the rest of the block stays queued |
| InputStream.FileInputStream.TakePreRead | client/gdaemonfileinputstream.c:586-619 | queued blocks of an older generation are dropped, and the first current one serves the read, with all it has or all that is asked for |
| InputStream.FileInputStream.AppendRequest | client/gdaemonfileinputstream.c:413-435 | the encoded request, with the next number modulo 2^32, is put in the output buffer and on the connection |
| InputStream.FileInputStream.UnappendRequest | client/gdaemonfileinputstream.c:403-411 | the last twenty bytes of the output buffer go and the number is taken back |
| InputStream.FileInputStream.InitSeek | client/gdaemonfileinputstream.c:1145-1162 | the offset is made absolute for a seek from the current position and sent in two words |
| InputStream.FileInputStream.CancelEarly | client/gdaemonfileinputstream.c:1165-1175 | before its first byte a cancelled request leaves connection and sequence number as they were |
| InputStream.FileInputStream.MarkSeekSent | client/gdaemonfileinputstream.c:1177-1190 | once the first byte of a seek is sent the generation is bumped and the queue of blocks is empty |
| InputStream.FileInputStream.OnHandleInput | client/gdaemonfileinputstream.c:668-693 | a cancellation is sent once, with the operation's number, then the machine goes on in the block or the header it stands in |
| InputStream.FileInputStream.OnInputBlock | client/gdaemonfileinputstream.c:695-716 | a block of the current generation is read, up to what a read asks for and whole for a query; any other is skipped whole, and only that can be cancelled |
| InputStream.FileInputStream.OnSkipBlock | client/gdaemonfileinputstream.c:718-733 | skipped bytes are accounted for: what is left of the block is exactly the recorded size |
| InputStream.FileInputStream.OnReadBlock | client/gdaemonfileinputstream.c:795-816 | bytes of the current block handed to the caller are the file's bytes at the cursor |
| InputStream.FileInputStream.OnQueryBlock | client/gdaemonfileinputstream.c:1511-1539 | a query keeps the data it meets: what it reads of a block is queued behind what is queued already |
| InputStream.FileInputStream.OnHeaderBytes | client/gdaemonfileinputstream.c:735-759 | the buffer is exactly the received prefix of one reply; exactly the missing bytes of that reply are asked for, and that cannot be cancelled |
| InputStream.FileInputStream.OnData | client/gdaemonfileinputstream.c:774-782 | after the header of a data block the stream stands at its first byte, with its size and generation |
| InputStream.FileInputStream.OnReply | client/gdaemonfileinputstream.c:761-792 | a whole reply ends the operation if and only if it answers its request; the data block of a read begins to be read; every other reply is passed over whole |
| InputStream.JudgedWell | client/gdaemonfileinputstream.c:761-792 | which replies the words of the header tell to end an operation: exactly those that do |
| StreamState.MissingBytesExact | client/gdaemonfileinputstream.c:437-456 | with its 32-bit sum and 64-bit difference, the number of missing bytes ends the fixed header first and then exactly the whole reply |
| StreamState.HeadIsWhole | client/gdaemonfileinputstream.c:748-759 | when nothing is missing the buffer is one whole reply (or the header of a data block) |
| StreamState.HoldsQueue | client/gdaemonfileinputstream.c:1511-1539 | queueing bytes of a block keeps queued bytes, block remainder and stream position contiguous in the file |
| StreamState.HoldsTake | client/gdaemonfileinputstream.c:597-617 | conservation when bytes are taken from the queue: what remains starts where what was returned ended |
| StreamState.HoldsConsume | client/gdaemonfileinputstream.c:718-733 | conservation when block bytes are skipped or returned; bytes of an older generation never move the cursor |
| StreamState.HoldsSeek | client/gdaemonfileinputstream.c:1311-1318 | when the answer to a seek is decoded the cursor is the position the daemon reports |
| StreamState.TracksReply | client/gdaemonfileinputstream.c:1293-1331 | of the replies in flight only the answer carries the operation's number, modulo 2^32 and within capacity |
| StreamState.QueuedBlock | client/gdaemonfileinputstream.c:1519-1532 | a block appended to the queue continues the file where the queue ended |
| StreamState.ListensDecode | client/gdaemonfileinputstream.c:761-792 | passing over a reply that does not end the operation keeps the account of every reply decoded since it began |
| StreamState.ListensEnd | client/gdaemonfileinputstream.c:1293-1331 | the reply that ends an operation is the first that does, and without a seek the position has moved by exactly the data decoded |
| StreamState.NothingEnds | client/gdaemonfileinputstream.c:550-556 | once the daemon has gone and everything was decoded, no reply since the operation began ends it |
| StreamState.RefusedSeekLosesData | client/gdaemonfileinputstream.c:1177-1190 | with every file that is not empty there is a valid connection with a block on its way before the refusal of a seek: the refusal finds the client's place past that block |
| StreamState.NeverCurrent | daemon/gvfschannel.c:317-333 | after a seek that a blocked channel refused, no block is ever of the client's generation, however many seeks both sides count later |
| StreamState.SeekUncounted | client/gdaemonfileinputstream.c:1177-1190 | decoding such a refusal leaves the client exactly one generation ahead, with nothing current queued |
| RequestStream.ParseEncoded | daemon/gvfschannel.c:485-535 | the daemon's reader finds in the encoded requests exactly those requests, each with its data |
| RequestStream.RequestsAreWhole | common/gvfsdaemonprotocol.h:26-75 | bytes sent in order parse into whole requests numbered 1, 2, 3, ... modulo 2^32, with their data |
| RequestStream.AllRequestsAreWhole | daemon/gvfschannel.c:431-535 | the same for the whole history at once |
| RequestStream.BeginInOrder | client/gdaemonfileinputstream.c:413-435 | beginning a request keeps the stream of requests in order |
| RequestStream.WithdrawInOrder | client/gdaemonfileinputstream.c:403-411 | taking back a request of which nothing was sent restores the stream of requests |
| RequestStream.SendInOrder | client/gdaemonfileinputstream.c:640-665 | sending any part of what is unsent keeps the stream of requests in order |
| RequestStream.OpenRequested | client/gdaemonfileinputstream.c:413-435 | the requests between two histories are one operation's: its own, or none, and behind it at most a CANCEL whose argument is the low 32 bits of its number, which needs a cancellable |
| ReadChannel.SentRequests | client/gdaemonfileinputstream.c:413-435 | for the read stream: flushed output is whole requests in order |
| ReadChannel.AppendIsValid | daemon/gvfsreadchannel.c:254-308 | whatever reply the daemon appends, the reply stream still leads from the client's point of it to the daemon's |
| ReadChannel.DecodeIsValid | client/gdaemonfileinputstream.c:459-470 | decoding one reply keeps framing and the link to the daemon's position |
| ReadChannel.Connection.DaemonStep | daemon/gvfschannel.c:301-430 | the daemon takes requests in order, answers each but CANCEL once, sends data ahead, or the error of a failed readahead job |
| ReadChannel.Connection.Answer | daemon/gvfsreadchannel.c:138-208 | an answer is an error, counted as a seek or, from a blocked channel, not, or what the request asks for; a data block carries generation and bytes of the daemon's position |
| ReadChannel.Connection.Receive | client/gdaemonfileinputstream.c:510-557 | a socket read gives between one byte and the size asked for, in order, or the socket fails, perhaps inside a reply, or the daemon has hung up |
| ReadChannel.Connection.Send | client/gdaemonfileinputstream.c:527-534 | a socket write takes at least one byte of the unsent tail, in order, or the socket fails |
| Wire.OffsetRoundTrip | client/gdaemonfileinputstream.c:1150-1157 | the two words of a seek request carry every signed 64-bit offset |
| Wire.ReplyWords | common/gvfsdaemonprotocol.h:26-75 | the four words of a reply header are read back from any buffer that starts with it |
| WireLaws.CommandBytes | common/gvfsdaemonprotocol.h:26-58 | the first four bytes of a request are those of its command, 0 to 7 |
| WireLaws.KindBytes | common/gvfsdaemonprotocol.h:60-75 | the first four bytes of a reply are those of its type, 0 to 6 |
| WireLaws.WordBytes | common/gvfsdaemonprotocol.h:26-75 | four bytes are those of a word if and only if they add up to it, the most significant one first |
| OutputStream.Session | client/gdaemonfileoutputstream.c:432-700 | any run of writes, seeks, truncations, queries and closes: every call up to where the run stopped does to the daemon's file what its result says, the result is what the last reply decoded says, the replies and requests of all events are those of the connection, and each call begins with the tell() and the file that the one before it left; each call asks for what it is, followed at most by a CANCEL that names it, and for nothing if and only if it is rejected or taken back; a run without cancellables stops only when the socket has failed or the daemon has gone |
| OutputStream.Perform | client/gdaemonfileoutputstream.c:666-700 | one call of such a run: file, position and tell() afterwards follow from call and result |
| OutputStream.WritesAtTell | client/gdaemonfileoutputstream.c:666-700 | end to end, in every run that starts in step: a write with tell() = o that reports n, with no seek taken back since the last one that took place, puts its first n bytes at o, changes nothing else, and moves tell() to o + n |
| OutputStream.TellIsRight | client/gdaemonfileoutputstream.c:1020-1057 | in every such run tell() is the daemon's position, unless a seek was taken back since the last one that took place |
| OutputStream.FileOutputStream.Write | client/gdaemonfileoutputstream.c:666-700 | a result of n means the first n bytes given are in the file at the daemon's position, nothing else changed, and offset and position advanced by n; what is sent is WRITE with the caller's bytes up to 4 MiB, and perhaps its CANCEL; one taken back needs a cancellable and changes nothing |
| OutputStream.FileOutputStream.Seek | client/gdaemonfileoutputstream.c:1020-1057 | a performed seek puts both sides at the target; a refused one changes nothing; what is sent is SEEK_SET or SEEK_END with the target, and perhaps its CANCEL; one taken back before its first byte needs a cancellable, returns true and sets the offset to 0, which is right if and only if it was 0 |
| OutputStream.FileOutputStream.TruncateTo | client/gdaemonfileoutputstream.c:1190-1222 | a performed truncation resizes the file to the size asked for and leaves the offset; what is sent is TRUNCATE with the size in two words, and perhaps its CANCEL |
| OutputStream.FileOutputStream.QueryInfo | client/gdaemonfileoutputstream.c:1368-1400 | a query changes neither file nor offset; what is sent is QUERY_INFO with the attributes, and perhaps its CANCEL; the stream stays valid if and only if it was not taken back with attributes |
| OutputStream.FileOutputStream.Close | client/gdaemonfileoutputstream.c:827-866 | the answer is the last reply decoded; one that succeeds brings the entity tag; what is sent is CLOSE, and perhaps its CANCEL; the file is what the writes before it left, the stream's invariant is kept and the socket is closed |
| OutputStream.FileOutputStream.RunSync | client/gdaemonfileoutputstream.c:432-512 | the driver ends: with the request taken back untouched, answered by the first reply that carries its number, on a failed socket with no such reply decoded, with the daemon gone and no such reply ever put, or, only with a cancellable, with the cancellation begun on an input buffer that is no longer the received part of a reply |
| OutputStream.FileOutputStream.Turn | client/gdaemonfileoutputstream.c:444-508 | one I/O call and the machine after it, the cancellable firing at either moment; same lexicographic measure |
| OutputStream.FileOutputStream.Iterate | client/gdaemonfileoutputstream.c:524-664 | from every state the machine reaches its next I/O request or its end with buffers and connection in step; a cancellation garbles the input buffer if and only if it is begun with part of that buffer unread |
| OutputStream.FileOutputStream.TakeBack | client/gdaemonfileoutputstream.c:354-361 | a request taken back before its first byte restores connection, number and, but for query attributes, the output buffer |
| OutputStream.FileOutputStream.AppendRequest | client/gdaemonfileoutputstream.c:363-384 | the header (and attributes) go to the output buffer, under the next number modulo 2^32 |
| OutputStream.FileOutputStream.Begin | client/gdaemonfileoutputstream.c:534-542 | each operation's request: command, arguments and data |
| OutputStream.FileOutputStream.OnWrote | client/gdaemonfileoutputstream.c:544-573 | what is unsent is the rest of the buffer and, for a write, the caller's data behind it |
| OutputStream.FileOutputStream.OnSendData | client/gdaemonfileoutputstream.c:575-588 | the data of a write is sent from where the last socket write stopped, to its end |
| OutputStream.FileOutputStream.AppendCancel | client/gdaemonfileoutputstream.c:591-603 | a CANCEL is sent once; afterwards the input buffer is what has been received of a reply if and only if the last read was complete |
| OutputStream.FileOutputStream.StepGarbled | client/gdaemonfileoutputstream.c:605-652 | what the machine does next with such a buffer, whatever its undefined bytes are: it takes them for a header; if it then ignores the buffer it is in step again if and only if nothing of the reply had been received |
| OutputStream.FileOutputStream.GoOnGarbled | client/gdaemonfileoutputstream.c:544-652 | the same from the moment the CANCEL is begun: it goes out whole or the socket fails, and what follows depends on the undefined bytes |
| OutputStream.AnyCount | client/gdaemonfileoutputstream.c:605-652 | for every n there are undefined bytes with which a cancelled write ends as one that wrote n, although no reply told it |
| OutputStream.FileOutputStream.Drive | client/gdaemonfileoutputstream.c:432-512 | an operation changes nothing, or its request is on the wire and the first reply with its number is its answer and says its outcome and effect |
| OutputStream.FileOutputStream.OnInput | client/gdaemonfileoutputstream.c:605-621 | the unread end of the buffer is dropped and exactly the missing bytes of the one reply are asked for, which can be cancelled until a CANCEL is sent |
| OutputStream.FileOutputStream.OnReply | client/gdaemonfileoutputstream.c:623-652 | a whole reply with the operation's number is its answer; every other reply is discarded whole |
| OutputStream.Conclusion | client/gdaemonfileoutputstream.c:628-645 | the words of the answer are read as the outcome that the daemon's reply stands for |
| OutputStream.Outcomes | client/gdaemonfileoutputstream.c:628-645 | which outcomes each operation can have and what the file is after each |
| WriteState.MissingBytesExact | client/gdaemonfileoutputstream.c:386-407 | missing bytes end the fixed header, then exactly the whole reply, for ERROR, CLOSED and INFO replies with bodies and all others |
| WriteState.WholeReply | client/gdaemonfileoutputstream.c:409-420 | when nothing is missing the buffer is one whole reply and its words and body are that reply's |
| WriteState.NumberTells | client/gdaemonfileoutputstream.c:628-640 | of all replies in flight only the answer carries the operation's number, although older requests may be answered again |
| WriteState.DecodedOne | client/gdaemonfileoutputstream.c:628-652 | decoding one more reply: it is the first that carries the operation's number, or there is still none |
| WriteChannel.AnswerIsValid | daemon/gvfswritechannel.c:165-235 | performing a request and queueing its answer keeps the connection valid |
| WriteChannel.RepeatIsValid | daemon/gvfschannel.c:650-682 | a stray reply to an older request keeps the connection valid |
| WriteChannel.DecodeIsValid | client/gdaemonfileoutputstream.c:409-420 | decoding one reply keeps framing, and the answer where it is |
| WriteChannel.SentRequests | client/gdaemonfileoutputstream.c:363-384 | for the write stream: flushed output is whole requests in order, each WRITE followed by its data |
| WriteChannel.WriteConnection.DaemonStep | daemon/gvfswritechannel.c:94-163 | the daemon performs the request it owes an answer to once it has arrived, or repeats an old reply |
| Paths.Canonicalize | common/gmountspec.c:575-633 | the in-place loop returns one slash and the components left after dropping empty and "." ones and popping on "..", two slashes if the path began with two and components are left; it ends because the text from the cursor shrinks even when the cursor moves back |
| Paths.CanonicalIsIdempotent | common/gmountspec.c:575-633 | canonicalising twice is canonicalising once, and the components are the same |
| Paths.ComponentsAreNormal | common/gmountspec.c:575-633 | no component left is empty, ".", ".." or holds a slash |
| PathLaws.UnrootedIsRooted | common/gmountspec.c:580-583 | a path without a leading slash gives what it gives with one, text and components |
| PathLaws.RelativeIsRooted | common/gmountspec.c:575-633 | slash-joined normal components without a leading slash come out with one and otherwise as they are |
| PathLaws.DoubleRootStays | common/gmountspec.c:608-617 | a second leading slash stays if and only if there are components |
| PathLaws.AddComponent | common/gmountspec.c:589-626 | what one more component behind a path does: an empty one or "." nothing, ".." takes the last component away if there is one, any other is added |
| Paths.Pass | common/gmountspec.c:589-626 | one pass of the loop drops, pops or keeps a component and shortens what follows the cursor |
| Paths.TakeDotDot | common/gmountspec.c:595-607 | a ".." component goes together with the component before it, and the cursor moves back to its start |
| Paths.BackUp | common/gmountspec.c:597-605 | the backward scan stops at the start of the component before, and never before the root |
| Paths.KeepComponent | common/gmountspec.c:608-617 | another component is kept with its separator |
| Paths.RemoveSeparators | common/gmountspec.c:619-625 | additional separators at the cursor are removed |
| Paths.MoveTail | common/gmountspec.c:591-625 | memmove of the tail of a NUL-terminated buffer cuts exactly the bytes between |
| PathPrefixes.PlainIsCanonical | common/gmountspec.c:575-633 | slash-joined normal components are exactly the canonical paths without a second leading slash |
| PathPrefixes.PrefixIsComponentPrefix | common/gmountspec.c:352-371 | on such paths path_has_prefix is exactly the prefix relation of component sequences |
| PathLaws.HasPrefixExactly | common/gmountspec.c:352-371 | on any texts: a prefix matches what starts with it, if it is empty or ends with a slash, or the path ends there or goes on with one; no prefix matches everything |
| PathLaws.ResolvedExactly | common/gmounttracker.c:134-177 | what is left of any path: all of it without a prefix, what follows the prefix, from its last slash on if it ends with one, and "/" if that is nothing |
| PathPrefixes.ApplyUndoesResolve | common/gmounttracker.c:134-177 | stripping the mount prefix, putting it back and canonicalising gives the path, for every path below the prefix |
| PathPrefixes.PrefixMatchesExactly | client/gdaemonfile.c:303-345 | a file is below another exactly when its components properly extend the other's, or both are the root |
| PathPrefixes.RelativeRoundTrip | client/gdaemonfile.c:347-387 | resolving the relative path against the parent gives the descendant |
| PathLaws.AbsoluteStands | client/gdaemonfile.c:379-381 | an absolute path does not depend on what it is resolved against |
| PathLaws.RelativeIsAppended | client/gdaemonfile.c:371-387 | any other is put behind it with one slash between and normalised, and the empty one gives the path itself |
| PathLaws.RelativeIsRest | client/gdaemonfile.c:347-368 | the relative path is the descendant's own components joined by slashes |
| PathPrefixes.ParentThenChild | client/gdaemonfile.c:243-266 | the child with a file's basename of the file's parent is the file, for every file but the root, which has no parent |
| PathPrefixes.GetBasename | client/gdaemonfile.c:153-168 | the basename is the last component; the root's is itself |
| PathPrefixes.GetParent | client/gdaemonfile.c:243-266 | the parent is the path of all components but the last; the root has none |
| PathPrefixes.LookupByFusePath | client/gdaemonvfs.c:705-735 | the first cached mount whose mountpoint is a component prefix of the FUSE path, or none if there is none |
| PathPrefixes.FuseRoundTrip | client/gdaemonvfs.c:998-1010 | a path mapped to the FUSE mountpoint and back through its mount, and canonicalised, is the same path, mount root and "/" prefix included |
| PathLaws.FusePathIs | client/gdaemonfile.c:191-199 | on the FUSE mount a file's own components follow the mountpoint |
| PathPrefixes.FuseBack | client/gdaemonfile.c:191-199 | the same on component sequences, with the mapped path below its mountpoint |
| MountSpecs.MapDetermines | common/gmountspec.c:329-350 | the strictly sorted array is a function of the map: equal maps, equal arrays |
| MountSpecs.ItemsEqual | common/gmountspec.c:329-350 | position-wise equality; on strictly sorted arrays exactly equality of the maps |
| MountSpecs.MountSpec.Set | common/gmountspec.c:139-184 | the map is updated at the key, the array stays strictly sorted; the key "prefix" sets the canonical mount prefix instead; invalid UTF-8 clears the valid flag |
| MountSpecs.MountSpec.SetWithLen | common/gmountspec.c:186-193 | sets at most len bytes of the value, as the mount prefix if the key is "prefix" |
| MountSpecs.MountSpec.SetMountPrefix | common/gmountspec.c:111-117 | the mount prefix is always canonical |
| MountSpecs.MountSpec.Copy | common/gmountspec.c:211-229 | a copy has the same items, prefix and validity |
| MountSpecs.MountSpec.constructor | common/gmountspec.c:44-60 | a new spec holds its type, if any, and the prefix "/" |
| MountSpecs.MountSpec.Lookup | common/gmountspec.c:421-436 | the value of the key in the map, or none |
| MountSpecs.MountSpec.Equal | common/gmountspec.c:393-401 | equality is equality of maps and prefixes |
| MountSpecs.MountSpec.Match | common/gmountspec.c:403-412 | a mount matches exactly when the maps agree and its prefix is one of the path |
| MountSpecs.MountSpec.Hash | common/gmountspec.c:373-391 | exclusive-or of the string hashes of prefix and values |
| MountSpecs.EqualHashes | common/gmountspec.c:373-401 | equal specs hash equally |
| MountSpecs.Build | common/gmountspec.c:186-209 | any run of sets leaves the map of the last value of each key, strictly sorted |
| MountSpecs.SetBothWays | common/gmountspec.c:139-184 | two different keys may be set in either order |
| MountSpecs.NewFromData | common/gmountspec.c:62-80 | items in any order are sorted; distinct keys give a valid spec |
| MountSpecs.SortIs | common/gmountspec.c:62-80 | sorting anything with the members of a strictly sorted array gives that array |
| TextLaws.LessByFirstDifference | common/gmountspec.c:35-42 | the items are in the order of the first character that differs, a prefix first |
| MountSpecs.MountSpec.ToString | common/gmountspec.c:450-490 | type, colon, the other items as escaped pairs with commas, and the prefix unless it is "/" |
| SpecLaws.PrintsExactly | common/gmountspec.c:450-490 | the text of a spec: type, colon, and the other items in order as key, equals sign and escaped value, with commas between them, and last the prefix unless it is "/" |
| MountSpecs.FromString | common/gmountspec.c:492-572 | the spec that the text describes, or which of the two ways it fails |
| SpecLaws.ReadsExactly | common/gmountspec.c:492-572 | any text of pairs, with or without a type: it gives no spec if and only if a value other than the prefix has malformed escapes, and else the items are exactly the type and the pairs, and the prefix is that of the last "prefix" pair, or "/" if there is none or it is malformed |
| SpecLaws.RefusedExactly | common/gmountspec.c:519-535 | a text is refused for its pairs if and only if one of its pieces has no equals sign or more than one |
| MountSpecs.StringRoundTrip | common/gmountspec.c:450-572 | reading the string form back gives an equal spec if and only if there is a type without colon, no key holds "=" or ",", and the prefix is "/" or some other item exists |
| MountSpecs.PrintedReadsBack | common/gmountspec.c:450-572 | the sufficient half, by escaping, splitting, sorting and idempotent canonicalisation |
| MountSpecs.ReadBackIsPrintable | common/gmountspec.c:492-572 | the necessary half |
| MountSpecs.LonePrefix | common/gmountspec.c:480-486 | a prefix with no item besides the type is printed as an empty pair that the reader rejects |
| MountSpecs.ThroughString | common/gmountspec.c:450-572 | a spec object sent through its string form comes back equal if and only if the form can carry it |
| Text.UnescapeUndoesEscape | common/gmountspec.c:476-478 | unescaping undoes percent escaping, with or without UTF-8 kept, for every text |
| Text.EscapeHides | common/gmountspec.c:476-478 | a reserved character that is not allowed never shows in an escaped text |
| TextLaws.EscapedByte | common/gmountspec.c:476-478 | a byte that is neither unreserved nor allowed becomes a percent sign and two capital hexadecimal digits, and any other stays |
| TextLaws.UnescapesExactly | common/gmountspec.c:537 | a text can be unescaped if and only if every percent sign starts two hexadecimal digits of a character other than NUL that is not illegal |
| TextLaws.UnescapedOne | common/gmountspec.c:537 | what an escape stands for |
| TextLaws.Utf8IsEncoding | common/gmountspec.c:133 | a text is valid UTF-8 if and only if it is the encoding of a sequence of Unicode scalar values without NUL |
| Uris.DecodeEncode | client/gvfsuriutils.c:55-332 | for both values of allow_utf8, decoding an encoded URI gives it back without what follows the first colon of the user information |
| Uris.UriRoundTrip | client/gvfsuriutils.c:55-332 | for a URI that fits, the round trip is exact if and only if the user information has no colon |
| UriLimits.UriRoundTripExactly | client/gvfsuriutils.c:55-332 | for both values of allow_utf8, a URI comes back as it was if and only if it fits and has no password: lower-case scheme, a host, a path that is empty or starts with a slash, a query without "#", a fragment without "?" unless a query is there, and a bracketed host that nothing in it or after it takes apart |
| UriLimits.Survivors | client/gvfsuriutils.c:55-276 | the necessary half: what survives fits |
| UriLimits.TailIsCut | client/gvfsuriutils.c:98-131 | what the decoder cuts off as query and fragment is exactly what the encoder would print for them |
| UriLimits.DecodedOuter | client/gvfsuriutils.c:98-147 | in a surviving URI the cut falls where the encoder put it, so that nothing before it holds a question mark |
| UriLimits.HostBound | client/gvfsuriutils.c:193-262 | a decoded host is no longer than the text before its port |
| UriLimits.BracketNeeds | client/gvfsuriutils.c:193-262 | a bracketed host that survives holds no slash, question mark or at-sign, no colon after its bracket, and no port is found in the query |
| UriLimits.NeedsHost | client/gvfsuriutils.c:288-310 | a URI without host comes back with an empty one |
| Uris.DecodeUri | client/gvfsuriutils.c:55-276 | the walk over the text computes the decoded URI of the text, errors included |
| Uris.DecodeScheme | client/gvfsuriutils.c:69-96 | a scheme starts with a letter, holds scheme characters up to the colon, and is lowered (`UriLaws.LoweredAt` says how) |
| UriLaws.LoweredAt | client/gvfsuriutils.c:94-95 | a capital of the scheme becomes the small letter at the same distance from a, and every other character stays |
| UriLaws.SchemeCaseIsIgnored | client/gvfsuriutils.c:69-96 | a URI decodes to the same however the letters of its scheme are cased |
| UriLaws.SchemeExactly | client/gvfsuriutils.c:73-88 | a URI has a scheme if and only if it starts with a letter and only scheme characters precede its first colon; without one it is refused |
| UriLaws.DecodedWithAuthority | client/gvfsuriutils.c:98-275 | every URI with an authority, whether or not the encoder prints it so: each part is what stands between its delimiters, user, host and path unescaped; malformed escapes in user or path refuse the whole and in the host lose the host |
| UriLaws.DecodedWithoutAuthority | client/gvfsuriutils.c:98-275 | without two slashes the rest is the path, refused if and only if an escape in it is malformed or hides a slash |
| UriLaws.DecodedBrackets | client/gvfsuriutils.c:193-262 | a host in brackets is kept as it is, up to the first colon behind the bracket; without a closing bracket it is refused |
| Uris.DecodeUserHost | client/gvfsuriutils.c:155-192 | the last at-sign ends the user information, its first colon ends the user |
| Uris.DecodeHostPort | client/gvfsuriutils.c:193-262 | a host in brackets is kept as it is and its port looked for after the bracket, other hosts are unescaped |
| Uris.FindPort | client/gvfsuriutils.c:207-230 | the first colon after the bracket that no slash precedes |
| Uris.EncodeUri | client/gvfsuriutils.c:278-332 | scheme, authority if there is a host, path, query and fragment in turn |
| UriLaws.KeptCharacters | client/gvfsuriutils.c:284-313 | which characters the encoder leaves as they are in user, host and path; every other byte becomes an escape of three characters |
| Uris.DecimalRead | client/gvfsuriutils.c:236-241 | a printed port is read back in front of anything that is no digit |
| Uris.PartsBack | client/gvfsuriutils.c:98-131 | query and fragment are cut off exactly where the encoder put them |
| Uris.AuthorityBack | client/gvfsuriutils.c:142-265 | user, host and port are read back from the authority the encoder printed |
| UriMappers.SmbRoundTrip | client/smburi.c:79-268 | a well-formed SMB spec of each type and a path in it come back from their URI |
| UriMappers.SmbRoundTripExactly | client/smburi.c:79-268 | a spec and a path whose URI comes back (`UriLimits.UriRoundTripExactly`) come back from it if and only if names are folded already and hold no slash, no key is one the mapper does not know, the port is a printed number other than 0, -1 and 445, and user and domain are told apart by the first semicolon |
| UriMappers.SmbIsInjective | client/smburi.c:201-268 | different places have different SMB URIs |
| UriMappers.SmbFromUri | client/smburi.c:79-187 | key by key, for every kind of place: without a host the network; else the server is the folded host, the port is kept unless it is 445 or missing, and type, share and path follow from the names between the slashes; the user is the user information, or what follows its first semicolon, the domain what precedes it, each if it is not empty, and without user information there is neither |
| UriMappers.SmbSays | client/smburi.c:79-187 | the same of the decoded URI |
| UriMappers.SmbToUri | client/smburi.c:201-268 | the URI of a spec and a path |
| UriMappers.RelativePaths | client/smburi.c:221-247 | a path without a leading slash is printed like the same path with one in a share or volume, and like "/" on a server |
| UriMappers.SmbThroughUri | client/smburi.c:79-268 | a spec object printed and read back has the same items, and the path is the same |
| UriMappers.NewSmbSpec | client/smburi.c:103-168 | server, share and non-default port; "._" entries belong to the server |
| UriMappers.SetSmbUser | client/smburi.c:170-182 | domain and user are cut at the first semicolon, empty ones are left out |
| UriMappers.Scan | client/smburi.c:105-136 | what a URI path names: nothing, one entry, or something below one |
| UriMappers.LocateExactly | client/smburi.c:104-146 | however many slashes stand before, between and behind them, a path of one name is an entry, of more is something below the first, and of none the root |
| UriMappers.AfpRoundTrip | client/afpuri.c:66-228 | a well-formed AFP spec and a path in it come back from their URI |
| UriMappers.AfpRoundTripExactly | client/afpuri.c:66-228 | the same for AFP, where no spec with a port comes back |
| UriMappers.AfpIsInjective | client/afpuri.c:175-228 | different places have different AFP URIs |
| UriMappers.AfpFromUri | client/afpuri.c:66-162 | key by key: host and user are those of the URI, type, volume and path follow from the names between the slashes, there is nothing else, and without a host there is no spec |
| UriMappers.AfpToUri | client/afpuri.c:175-228 | the URI of a spec and a path |
| UriMappers.AfpThroughUri | client/afpuri.c:66-228 | a spec object printed and read back has the same items, and the path is the same |
| FuseHandles.Session | client/gvfsfusedaemon.c:1067-2021 | any run of open, read, write, create, truncate and release, by any mixture of openers, whether or not the cached position is right: every call does to file, stream and position what its event says, from where the calls before it left them, and a call fails only if an operation on the file or a stream failed in it, or it is a read that skipped 2^31 bytes or more or a write off the cached position of a stream that cannot seek |
| FuseHandles.Step | client/gvfsfusedaemon.c:1067-2021 | one call of such a run: where a write lands for every mode and place of the stream, what a read returns, what a truncation leaves, and how far the stream is beyond the cached position afterwards |
| FuseHandles.Succeeds | client/gvfsfusedaemon.c:1264-1502 | in which no operation on the file or a stream fails: from a right position a read that skips fewer than 2^31 bytes succeeds and gives the file's bytes at its offset, on a file that cannot seek too, where it reopens the file to go back; so does a write to the end, on a file that can seek, or where the stream stands; open, create and truncate succeed |
| FuseHandles.RightAfter | client/gvfsfusedaemon.c:1067-2021 | a call leaves a right cached position right if and only if it is not a read whose seek or skip failed having moved the stream, or that skipped 2^31 bytes or more, not a create on a handle with another position than 0, and not a truncation that padded with the stream elsewhere |
| FuseHandles.RightOverRun | client/gvfsfusedaemon.c:1067-2021 | the cached position is right after every run of such calls |
| FuseHandles.ReadsAtOffset | client/gvfsfusedaemon.c:1351-1407 | in every such run, every read that succeeds gives the file's bytes at its offset |
| FuseHandles.WritesAtOffset | client/gvfsfusedaemon.c:1480-1502 | in every such run, every write that succeeds changes exactly the bytes at its offset, or appends, or writes at the cached position if only the call appends |
| FuseHandles.ReadsFurtherOn | client/gvfsfusedaemon.c:1275-1290 | after a read whose seek or skip failed having moved the stream by n, a read at the cached position that succeeds without a seek returns the bytes n further on |
| FuseHandles.ReadBack | client/gvfsfusedaemon.c:1351-1502 | in every run, a successful read after a successful write at the same offset on a stream not opened for appending gives back what was written |
| FuseHandles.FileHandle.Read | client/gvfsfusedaemon.c:1351-1407 | a result that is not negative is the number of bytes read where the stream stands, and the stream is then beyond the cached position by what it was before, or not at all if it was sought or opened; from a right position it stays right if and only if fewer than 2^31 bytes were skipped and none were lost by a failed seek or skip, and otherwise the read fails; a read that fails has seen the open, the seek, the skip or the read of a stream fail, or skipped 2^31 bytes or more |
| FuseHandles.FileHandle.ReadStream | client/gvfsfusedaemon.c:1264-1348 | the same for one attempt on the stream that is held |
| FuseHandles.FileHandle.MoveTo | client/gvfsfusedaemon.c:1275-1325 | seek, skip ahead, or refuse to go back, with exactly the bytes that the stream moves and the cached position does not |
| FuseHandles.FileHandle.Write | client/gvfsfusedaemon.c:1480-1502 | where the data lands: at the end if the stream appends, where the stream stands if the call appends or the cached position is the offset, and at the offset otherwise; a write that fails has seen an operation of the stream fail, or was off the cached position of a stream that cannot seek |
| FuseHandles.FileHandle.WriteStream | client/gvfsfusedaemon.c:1410-1477 | without the append flag the stream is brought to the offset, unless the cached position says that it is there; with it the data goes where the stream stands, which is the end only if it was opened for appending |
| FuseHandles.FileHandle.SetupInputStream | client/gvfsfusedaemon.c:970-1014 | an open read stream is kept with its position; otherwise the file is opened at its start |
| FuseHandles.FileHandle.SetupOutputStream | client/gvfsfusedaemon.c:1019-1064 | an open write stream is kept; otherwise the file is replaced, or opened for appending or editing |
| FuseHandles.FileHandle.CloseStream | client/gvfsfusedaemon.c:252-277 | no stream is held afterwards |
| FuseHandles.FileHandle.Open | client/gvfsfusedaemon.c:1067-1102 | open sets up a stream in the direction of the flags; the file is emptied if and only if the flags say so, no stream was held for writing and the open succeeds |
| FuseHandles.FileHandle.Release | client/gvfsfusedaemon.c:1243-1261 | release closes the stream |
| FuseHandles.FileHandle.Create | client/gvfsfusedaemon.c:1170-1240 | after a create the cached position is the stream's if and only if it was 0 before |
| FuseHandles.FileHandle.PadFile | client/gvfsfusedaemon.c:1898-1916 | zeros are written block by block up to the size, from the end, or from where the stream stands if the cached position is the end |
| FuseHandles.FileHandle.TruncateStream | client/gvfsfusedaemon.c:1918-1978 | in exactly which cases a success means that the file has the size asked for; from a right cached position it is wrong afterwards if and only if the file was padded while the stream stood elsewhere than at the new size, and a failure loses nothing of the file |
| FuseHandles.FileHandle.Ftruncate | client/gvfsfusedaemon.c:1980-2021 | the same behind the setup of the output stream; after padding the cached position is the new size and the stream stands where it stood |
| FileInfos.InfoRoundTrip | common/gvfsfileinfo.c:95-317 | an info comes back as it was if and only if every name, string, list and object can be carried and no attribute is invalid |
| FileInfos.InfoBack | common/gvfsfileinfo.c:95-317 | exactly what comes back of any info: everything from the first unprintable object on is lost, invalid attributes are left out, oversized strings and lists are emptied |
| FileInfos.AttributeBack | common/gvfsfileinfo.c:118-130 | the reader of an attribute takes exactly what its writer put |
| FileInfos.ValueBack | common/gvfsfileinfo.c:132-190 | the reader of each type of value takes exactly what its writer put |
| FileInfos.StringListBack | common/gvfsfileinfo.c:48-93 | the reader of a string list takes exactly what its writer put |
| FileInfos.StringBack | common/gvfsfileinfo.c:29-79 | the reader of a string takes exactly what its writer put; a string over 65535 bytes is empty |
| WireLaws.CountBytes | common/gvfsfileinfo.c:117-119 | the first four bytes are the number of attributes, the most significant byte first |
| WireLaws.AttributeBytes | common/gvfsfileinfo.c:121-136 | the bytes of an attribute: the length of its name in two, its name, its type (0 to 9), its status and its value |
| WireLaws.NumberBytes | common/gvfsfileinfo.c:146-170 | a number of any of the four types is written if and only if its bytes add up to it, the most significant first, negative ones by two's complement |
| WireLaws.OtherBytes | common/gvfsfileinfo.c:138-190 | the bytes of strings, lists, booleans and objects |
| FileInfos.Marshal | common/gvfsfileinfo.c:95-204 | the loop writes the count and every attribute in turn |
| FileInfos.Demarshal | common/gvfsfileinfo.c:206-317 | the loop reads attributes until the count or the first one it does not know |
| WireLaws.UnknownEnds | common/gvfsfileinfo.c:286-309 | reading ends at an attribute of unknown type and at an object that is not there |
| WireLaws.MissingReads | common/gvfsfileinfo.c:67-79 | a string of which bytes are missing is what is there, a number of which bytes are missing is 0 |
| DnsSd.TripleRoundTrip | common/gvfsdnssdutils.c:147-296 | decoding undoes encoding if and only if the type starts with an underscore and has exactly one dot and the domain is not empty |
| DnsSd.TripleBack | common/gvfsdnssdutils.c:147-296 | the sufficient half |
| DnsSd.NeedsOneDot | common/gvfsdnssdutils.c:250-272 | a type with no dot takes over a label of the domain, one with more loses its own |
| DnsSd.NeedsUnderscore | common/gvfsdnssdutils.c:219-245 | without an underscore the name is never cut where it ended |
| DnsSd.NormalizeIsIdempotent | common/gvfsdnssdutils.c:298-322 | normalising twice is normalising once, on every accepted triple with well-formed escapes |
| DnsSd.NormalFormSays | common/gvfsdnssdutils.c:298-322 | the normal form decodes to the same name, and to a type and a domain that make the same text, the type having one dot |
| DnsSd.NormalizeKeepsTriple | common/gvfsdnssdutils.c:298-322 | the normal form decodes to the triple of the text itself if and only if no escape of its type stands for a dot |
| DnsSd.NormalizeMovesDot | common/gvfsdnssdutils.c:298-322 | a text of which the normal form decodes to another triple |
| DnsSd.NormalFormsAgree | common/gvfsdnssdutils.c:298-322 | two texts have one normal form if and only if they decode to the same name and to the same text of type and domain |
| DnsSd.EncodeTriple | common/gvfsdnssdutils.c:147-171 | the three escaped parts with dots, the dots of the name escaped too |
| DnsSd.EscapeServiceName | common/gvfsdnssdutils.c:66-87 | every dot becomes an escape |
| DnsSd.DotEscaped | common/gvfsdnssdutils.c:66-87 | a dot becomes a percent sign, 2 and a small e |
| DnsSd.DecodeTriple | common/gvfsdnssdutils.c:187-296 | the index loops find the dot before an underscore and the second dot after it |
| FtpList.Tokenize | daemon/ParseFTPList.c:79-98 | the tokens are the first sixteen runs of characters that are not blank, in order |
| FtpList.RunsAreMaximal | daemon/ParseFTPList.c:79-98 | those runs are non-empty, maximal, in order and apart |
| FtpList.RunsCover | daemon/ParseFTPList.c:79-98 | no character that is not blank is outside the runs |
| FtpList.SplitLink | daemon/ParseFTPList.c:1190-1226 | name, arrow and target are exactly the tail; the split is by the size when that fits, otherwise at the last arrow with both sides non-empty, and none exactly when there is no such arrow |
| FtpList.FindMarker | daemon/ParseFTPList.c:1042-1112 | the rightmost size and date columns |
| FtpList.TimesExactly | daemon/ParseFTPList.c:1059-1081 | the last column of a date passes the test if and only if it has one of six forms: four or five digits, hour and minute with one or two digits for the hour, or these with seconds |
| FtpList.NameIsThere | daemon/ParseFTPList.c:1172-1188 | the name starts inside the line, at the latest with the token after the date |
| FtpList.ParseLink | daemon/ParseFTPList.c:1026-1226 | an accepted link line: permissions, rightmost columns, name start and exact split |

## Left out

- The asynchronous drivers of both streams (they share the iterators; async reads do not advance the offset), D-Bus proxies, GTask callbacks, mount operations, volume monitors, icons and Avahi.
- The gvfsd backends. The daemon side of a stream is modelled from daemon/gvfschannel.c, daemon/gvfsreadchannel.c and daemon/gvfswritechannel.c as one that takes requests in order; a refused request is taken to leave its file position as it was, and on the write side its file too, and a daemon never reports more bytes written than it was sent.
- Runs are finite: the daemon hangs up after any number of steps, chosen in advance. At most 2^32 - 2 requests of a read stream may be unanswered at once; beyond that numbers on the wire repeat.
- InputStream.Session: a run ends at a seek that a blocked channel refused; what follows is said of the blocks (`StreamState.NeverCurrent`), not of the calls.
- OutputStream.Session: a run ends at a cancellation that garbles the input buffer; `StepGarbled` and `GoOnGarbled` follow the machine from there for one pass, and further passes on undefined bytes are not followed.
- ReadChannel.Connection.DaemonStep: the error of a failed readahead job carries the number 0; it is left out while a request whose number is 0 modulo 2^32 may be waiting, which takes 2^32 - 1 requests.
- InputStream.FileInputStream.Close: the results of closing the two socket streams themselves are not modelled, nor are those of `OutputStream.FileOutputStream.Close`; after a close every socket call fails.
- UriMappers.SmbRoundTripExactly: specs whose URI does not itself come back are left open; case folding is any function that neither empties a name nor adds a slash to one. The same holds for `UriMappers.AfpRoundTripExactly`.
- Uris.DecimalRead: atoi is modelled without overflow, which is undefined in C; the same holds for the size column of `FtpList.ParseLink`.
- MountSpecs.FromString: a malformed escape in a value makes the code keep a NULL pointer; the model reports that case and goes no further. Unique specs, reference counts and the D-Bus form are left out.
- FuseHandles.Stream: a failed seek of an output stream is assumed not to move it, and a stream's own account of its position to be right. Rename, locking and the meaning of the cached size are left out.
- FuseHandles.Session: the sizes of one request fit a C int.
- FileInfos.Marshal: icons stand for the string they print as; an info is the sequence of its attributes with distinct names.
- DnsSd.NormalizeIsIdempotent: triples with malformed escapes, for which the code prints NULL pointers, are left out; so is the dns-sd:// form.
- FtpList.ParseLink: only symbolic links of the `ls -l` branch; dates, the NetWare permissions and the EPLF, VMS, CMS, DOS, OS/2, W16 and dls branches are left out.
- The mount cache agrees with the daemon only as far as `PathPrefixes.LookupByFusePath` says: it takes the first match.
