# A verified model of CANopen transfers, mappings and scans

This project models the parts of the CANopen library in which several operations have to agree
with each other or with a peer, and proves what they guarantee:

* **SDO transfers.** The client's expedited and segmented streams together with the SDO server and the
  data store of a local node (`SdoClient`, `SdoServer`, `LocalNode`); block download against a receiver
  that accepts segments in order and acknowledges the last good one (`BlockDownload`); block upload over
  a channel that loses segments (`BlockUpload`); the CRC and the seven-byte segments both use (`Crc`,
  `CrcRemainder`, `Blocks`). The rules of the block protocol are those of section 7.2.4.3 of CiA 301.
* **LSS Fastscan.** The master's bit-by-bit scan of a bus of any number of slaves that follow the
  Fastscan service of CiA 305 (`FastScan`).
* **PDO mapping.** Variables packed at bit offsets into one message (`PdoBuffer`, `PdoLayout`), the
  ordered writes that save a configuration to a device that enforces section 7.5.2.36 of CiA 301
  (`PdoDevice`), reading it back (`PdoReadBack`), and the object doing all of this (`PdoMapping`). The object
  dictionary behind this and the server is `Dictionary`.
* **Integer and bit-field codecs** (`Codec`, `BitFields`), on integers that are unbounded
  two's-complement bit strings as in Python (`Bits`).

Classes whose methods update fields are classes here, with the same fields and one method for each
method of the source; each is tied by its `ensures` to a function on values (`Serve`, `Exchange`,
`Fate`, `Run`, `Apply`), and the properties are lemmas about those functions. Peers and channels are
ordinary state: a channel loses the segments a finite list of booleans names, block sizes come from a
list, a client's channel may carry a number of stray responses, an LSS bus may be unreliable, a clock need
not be prompt.

## What the proofs say

* *Block download.* `Fate` predicts the whole transfer from the losses and block sizes alone, and
  `Download` is proved to follow it: the receiver stores exactly the payload when the sub-block that
  carries the last segment arrives whole (losses before it, also inside retransmissions of
  retransmissions, do no harm), and the client raises when it does not. The CRC covers each byte once
  exactly when no retransmission is interrupted by another.
* *CRC.* The checksum is the remainder of the data, read as a polynomial, divided by
  x^16 + x^12 + x^5 + 1; it is linear, data followed by its own checksum has checksum zero, and no change
  confined to two adjacent bytes goes unnoticed.
* *Block upload.* `BlockUpload.Fate` computes from the losses alone which segments are returned and whether
  the transfer completes, and `Upload` is proved to follow it; only a clock that runs out while responses are
  still coming in stops it earlier. What is returned is a prefix of the data, and all of it at the end, exactly
  when in every sub-block with a gap a later segment arrives; a CRC-checked upload that ends normally has the
  server's CRC.
* *Segmented transfers.* From any earlier state of client and server a download followed by an upload
  returns the bytes; n > 4 bytes take 1 + ceil(n / 7) requests; data of unknown size is stored as written.
* *Server.* One reply per request, iff the request is no abort and an object has been named; the buffer
  is the payloads of exactly the segments whose toggle bit matched.
* *Fastscan.* Whatever replies get lost, an identity is only returned for slaves that have it; without
  losses it is the least one, in 133 messages, and repeating the scan enumerates the bus in order.
* *PDO.* The message is a set of independent cells; a save that stops anywhere leaves the device as it
  was, or the PDO disabled, or the complete new configuration enabled; reading undoes saving.

## Where the code falls short of its promise

Each of these is kept in the model as the code has it, with the exact condition proved.  (The dummy-fill
branch of `save_generator`, which cannot be reached, is the exception; see below.)

* A last sub-block that comes up short cannot be retransmitted: `write` refuses once the last segment is
  out (`canopen/sdo/client.py:749`). `Download` raises exactly when `Fate` says so.
* A retransmission that ends clears the flag of the one it interrupted (`canopen/sdo/client.py:848`), so
  some data enters the CRC twice and the final check fails unless the two CRCs happen to collide
  (`InterruptedRetransmissionSpoilsCrc`, `Download`).
* After a read timeout the segment that the retransmission delivers has been counted already; the test
  at `canopen/sdo/client.py:588` fails on it, and a second retransmission drops it. Without a CRC the upload
  then ends as a success without that segment (`OneGap`, `SecondSegmentMissing`; `CompleteIsAll` for when).
* Before the first request that names an object the server's `abort` raises itself and nothing is sent
  (`canopen/sdo/server.py:189`).
* A rejected last segment stays in the buffer without a change of toggle, so a repetition is taken twice, and
  doubled data of the right length is stored (`canopen/sdo/server.py:166-172`, `RejectedSegmentTakenTwice`,
  `DoubledDataStored`).
* An empty download is stored, but uploading it is refused (`canopen/sdo/server.py:70-73`, `RoundTrip`).
* The 24, 40, 48 and 56-bit types accept values that only fit their container and drop the top bytes
  (`TruncationIsSilent`, `RawRoundTrip`).
* The most negative value of a signed bit field reads back without its sign, because the sign test at
  `canopen/pdo/base.py:728` is strict (`ReadsBackLastWritten`).
* A negative value of a signed field inside its container sets the bits above the field, and a
  non-negative one raises if the container's top bit is set (`canopen/pdo/base.py:759-764`). A bit field of
  a 24, 40, 48 or 56-bit type also overwrites the bytes between its type and the container it is packed
  through, and raises when that container runs past the message. A field that crosses the end of its type
  raises for values that reach beyond the container, and a value too large for its field, which is not
  checked, spills into the next. `WritePartial` and `ReadPartial` give every case, `WriteKeepsToItself` the
  exact condition for no harm.
* A byte-aligned field mapped with fewer bits than its type is written at full width, over its neighbours or
  past the end of the message, which gets longer (`canopen/pdo/base.py:766`, `WriteShortened`).
* `save_generator` is prepared for aborts, but `save` performs the writes outside the generator, so an
  abort ends the save at once (`canopen/pdo/base.py:511-521`, `canopen/pdo/base.py:555-561`). The marker it
  yields for dummy entries is also not the one `save` tests for.

## Model

| member | source | states |
|---|---|---|
| BlockDownload.SubBlock | canopen/sdo/client.py:794-848 | What one sub-block does to a transfer: the one holding all remaining segments delivers iff none of them is lost; any other continues at the first missing segment |
| BlockDownload.AfterManyFate | canopen/sdo/client.py:763-796 | Sending several segments within a sub-block does not change the outcome of the transfer, only how far it is |
| BlockDownload.LosslessDelivers | canopen/sdo/client.py:737-848 | Without further losses every transfer delivers, whatever block sizes in 1..127 the receiver chooses |
| BlockDownload.EarlyLossesAreHarmless | canopen/sdo/client.py:737-848 | Any losses that end 127 segments before the end of the payload still let the transfer deliver, for all block sizes |
| BlockDownload.LossesInOneSubBlockAreHarmless | canopen/sdo/client.py:794-848 | Any losses confined to one sub-block, not the last, leave data and CRC right |
| BlockDownload.NeverCleanAgain | canopen/sdo/client.py:843-848 | Once a retransmission has been interrupted by another the CRC never covers the data exactly once again |
| BlockDownload.InterruptedRetransmissionSpoilsCrc | canopen/sdo/client.py:843-848 | A retransmission cut short by a second one delivers the data but counts some of it twice in the CRC, for all transfers of that shape |
| BlockDownload.LossInLastSubBlockIsFatal | canopen/sdo/client.py:749-750 | Any loss in the sub-block with the last segment makes the transfer fail, however long the payload |
| BlockDownload.BlockDownloadStream.constructor | canopen/sdo/client.py:684-735 | A new stream is at the start of the transfer `Start` describes, with the receiver's first block size |
| BlockDownload.BlockDownloadStream.Write | canopen/sdo/client.py:737-761 | Takes up to 7 bytes, asks for more when fewer than 7 come before the end, refuses after the last segment; on success one more segment is sent and the fate of the transfer is unchanged |
| BlockDownload.BlockDownloadStream.Send | canopen/sdo/client.py:763-796 | One segment and the reaction to its acknowledgement keep the invariant: acknowledged data plus current block is the first `pos` bytes, sequence numbers stay in 1..127, the CRC covers what has been reached |
| BlockDownload.BlockDownloadStream.Transmit | canopen/sdo/client.py:774-793 | The frame, the block buffer and the CRC of one segment take the transfer one segment further |
| BlockDownload.BlockDownloadStream.Emit | canopen/sdo/client.py:774-786 | The frame carries the next sequence number and the end flag exactly on the last segment, which also sets the size of the last sub-block |
| BlockDownload.BlockDownloadStream.Record | canopen/sdo/client.py:787-793 | Position, block buffer and CRC after a segment; the CRC skips it while retransmitting |
| BlockDownload.BlockDownloadStream.BlockAck | canopen/sdo/client.py:801-827 | A full acknowledgement clears the block and leaves the size it announced as the size of the next sub-block, a short one retransmits; fails only if the transfer's fate is to fail. The receiver answers only after as many segments as it announced, or the last one |
| BlockDownload.BlockDownloadStream.Clear | canopen/sdo/client.py:822-827 | The acknowledged block becomes part of the acknowledged data; the next sub-block starts empty, at sequence number 0, with the block size the receiver announced |
| BlockDownload.BlockDownloadStream.GoBack | canopen/sdo/client.py:833-844 | Position, sequence number and block are those of the first segment the acknowledgement left out, and the announced block size applies |
| BlockDownload.BlockDownloadStream.Retransmit | canopen/sdo/client.py:829-848 | Ends with everything of the failed sub-block sent again and the transfer's fate unchanged, also when it is interrupted by further retransmissions; terminates by losses left |
| BlockDownload.BlockDownloadStream.ResendAll | canopen/sdo/client.py:845-847 | The loop over the block, with the invariant of a retransmission under way |
| BlockDownload.BlockDownloadStream.Close | canopen/sdo/client.py:850-873 | The receiver drops the announced filling and stores exactly the payload, iff the CRC sent is that of the payload |
| BlockDownload.EndFrame | canopen/sdo/client.py:860-867 | The end request byte by byte: 0xC1 with four times the filling added, then the CRC with its low byte first |
| BlockDownload.FinishedView | canopen/sdo/client.py:790-793 | At the end of a transfer the CRC input is the payload iff no retransmission was interrupted |
| BlockDownload.Download | canopen/sdo/client.py:737-873 | For every payload of at least one byte, every list of losses and of block sizes: stored exactly when delivered and, with CRC, the CRC agrees; raises when the last sub-block is short; the CRC covers the payload once iff no retransmission was interrupted |
| BlockUpload.TakenInOrder | canopen/sdo/client.py:568-654 | Whatever is lost, segments are returned in order and at most once, and a complete transfer returns the last one |
| BlockUpload.TakesAll | canopen/sdo/client.py:588-593 | While every gap is noticed what is returned has no gap, repeat or swap; a complete transfer returns everything iff every gap was noticed by a later segment of its sub-block |
| BlockUpload.TailsSuffice | canopen/sdo/client.py:588-593 | That is so in particular when the last segment of every sub-block arrives |
| BlockUpload.LeadTaken | canopen/sdo/client.py:586-589 | The segments of a sub-block up to its first loss are returned |
| BlockUpload.LosslessTakesAll | canopen/sdo/client.py:568-601 | Without further losses everything is returned |
| BlockUpload.OneGap | canopen/sdo/client.py:582-628 | For every sub-block with a gap and nothing lost behind it: everything is returned if a later segment arrives, the segment of the gap is missing from a complete transfer if none does, and the transfer fails if it is the last one |
| BlockUpload.SecondSegmentMissing | canopen/sdo/client.py:582-593 | Of 21 bytes the second segment is lost with the third behind it: bytes 0..6 and 14..20 are returned as complete |
| BlockUpload.ReturnedPrefix | canopen/sdo/client.py:568-611 | While every gap is noticed the bytes returned so far are a prefix of the data |
| BlockUpload.CompleteIsAll | canopen/sdo/client.py:594-611 | What a complete transfer returns is the data iff every gap was noticed, and is seven bytes shorter for each segment skipped |
| BlockUpload.BlockUploadStream.constructor | canopen/sdo/client.py:518-566 | After the initiate the server's first sub-block is on its way, at the line where the transfer starts |
| BlockUpload.BlockUploadStream.Retransmit | canopen/sdo/client.py:613-628 | Returns only the first segment of the sub-block sent again, past any leftovers; with a prompt clock exactly when there is one and it is not lost |
| BlockUpload.BlockUploadStream.Fetch | canopen/sdo/client.py:582-593 | Gets hold of the segment the losses determine, also when one is dropped after a timeout; with a prompt clock exactly when there is one |
| BlockUpload.BlockUploadStream.Accept | canopen/sdo/client.py:594-601 | Acknowledges a full or last sub-block, cuts the filling off the last segment, and keeps the outcome of the rest |
| BlockUpload.BlockUploadStream.EndUpload | canopen/sdo/client.py:638-654 | The closing response yields the filling of the last segment and the CRC |
| BlockUpload.BlockUploadStream.Deliver | canopen/sdo/client.py:602-611 | Each segment returned enters the CRC once; at the end it must be the server's |
| BlockUpload.BlockUploadStream.Read | canopen/sdo/client.py:568-611 | Returns the next segment of the outcome, or fails with a prompt clock exactly when the outcome ends there, or reports that the CRC of all that was returned is wrong |
| BlockUpload.BlockUploadStream.ReadAll | canopen/sdo/client.py:568-611 | Reading until nothing comes back returns the segments of the outcome, one after the other |
| BlockUpload.Upload | canopen/sdo/client.py:508-654 | A whole upload for all data, losses and clocks: it returns the segments of the outcome, stopping early only when the clock runs out; with a prompt clock it succeeds iff the outcome is complete and the CRC agrees, and it returns the data iff every gap was noticed |
| Crc.CrcXmodem.Process | canopen/sdo/base.py:20-21 | The running CRC is `Update` of everything processed, and `Update` from 0 is the CRC-16/XMODEM of `ChecksumIsRemainder` |
| CrcRemainder.ChecksumIsRemainder | canopen/sdo/base.py:16-24 | A word is the checksum of the data iff it differs from the data times x^16 by a multiple of x^16 + x^12 + x^5 + 1 |
| CrcRemainder.ChecksumOfOne | canopen/sdo/base.py:16-24 | The checksum of the byte 1 is 0x1021 |
| CrcRemainder.Residue | canopen/sdo/base.py:16-24 | Data followed by its checksum, high byte first, has checksum 0 |
| CrcRemainder.ChecksumLinear | canopen/sdo/base.py:16-24 | The checksum of the bytewise exclusive or of two strings of one length is the exclusive or of their checksums |
| CrcRemainder.ChangedByteDetected | canopen/sdo/base.py:16-24 | Changing one byte changes the checksum, always |
| CrcRemainder.AdjacentChangesDetected | canopen/sdo/base.py:16-24 | So does any change confined to two adjacent bytes |
| Crc.UpdateConcat | canopen/sdo/base.py:20-21 | Processing data in chunks equals processing it whole |
| Blocks.FillingDropped | canopen/sdo/client.py:860-862 | The padded segments without the announced filling are the payload |
| Blocks.JoinedIsPrefix | canopen/sdo/client.py:752-755 | The first k segments of seven bytes are the first 7k bytes of the data |
| SdoServer.AnsweredExactly | canopen/sdo/server.py:32-60 | One request is answered, with eight bytes, iff it is no abort and it or an earlier one named an object |
| SdoServer.OneReplyPerRequest | canopen/sdo/server.py:32-191 | The same for every request of every run from every reachable state |
| SdoServer.ExpeditedDownload | canopen/sdo/server.py:135-159 | What an expedited download stores (the bytes its size says, or all four without a size) or with which code it is refused, from the dictionary entry; a refusal changes no object |
| SdoServer.UnsizedDownloadStoresFour | canopen/sdo/server.py:143-149 | Command 0x22 stores all four bytes |
| SdoServer.ReadOnlyRefused | canopen/sdo/server.py:143-149 | An expedited download to an object without write access is answered by abort 0x06010002, and nothing is stored |
| SdoServer.UploadRequest | canopen/sdo/server.py:61-86 | What an upload request is answered, byte by byte or with which code, from the dictionary entry and the store; it changes no object |
| SdoServer.UnsupportedRefused | canopen/sdo/server.py:51-52 | Block downloads and unknown commands are aborted with 0x05040001 and leave objects and transfers alone |
| SdoServer.LastSegment | canopen/sdo/server.py:161-182 | The last segment stores everything collected or is refused with the code the dictionary entry gives |
| SdoServer.SegmentTaken | canopen/sdo/server.py:161-166 | A segment is appended iff its toggle bit matches; otherwise state is unchanged and the refusal is sent |
| SdoServer.RunCollects | canopen/sdo/server.py:161-182 | Over a run of segments the buffer grows by exactly the payloads whose toggle matched |
| SdoServer.ServerReassembles | canopen/sdo/server.py:135-182 | After a segmented initiate from any earlier state the buffer is exactly those payloads |
| SdoServer.RepeatRefused | canopen/sdo/server.py:161-182 | A segment is answered positively iff its toggle matches and it is not a rejected last one; repeated, it is then refused and changes nothing |
| SdoServer.SegmentToggles | canopen/sdo/server.py:162-178 | The toggle advances with every segment taken except a rejected last one |
| SdoServer.SegmentStores | canopen/sdo/server.py:168-172 | A segment stores the buffer iff it is taken, last and not rejected |
| SdoServer.RejectedSegmentTakenTwice | canopen/sdo/server.py:161-182 | A repeated segment changes the buffer again iff it carries data, was last and was rejected; it is then appended twice, and the doubled data is stored if the node accepts it |
| SdoServer.DoubledDataStored | canopen/sdo/server.py:161-182 | Two bytes sent twice as last segment to an UNSIGNED32: refused the first time, stored doubled the second |
| SdoServer.Server.OnRequest | canopen/sdo/server.py:32-60 | State and response are those of `Serve`, for all services, wrong toggles, unknown objects and other exceptions |
| SdoServer.Server.OnInitUpload | canopen/sdo/server.py:61-86 | Expedited, segmented or refused upload, and the object named |
| SdoServer.Server.OnSegmentedUpload | canopen/sdo/server.py:88-112 | Seven bytes leave the buffer, the toggle alternates, the last segment is marked |
| SdoServer.Server.OnInitDownload | canopen/sdo/server.py:135-159 | Expedited data goes to the node, a segmented download opens an empty buffer |
| SdoServer.Server.OnSegmentedDownload | canopen/sdo/server.py:161-182 | Segment taken, refused, or handed to the node when last |
| LocalNode.LocalNode.SetData | canopen/node/local.py:116-140 | 0x06020000 for no index, 0x06090011 for no subindex, 0x06010002 for no 'w' in the access type where that is checked, 0x06070010 for another length than a number type has, no error otherwise; stored iff there is no error, and nothing changes if there is |
| LocalNode.LocalNode.GetData | canopen/node/local.py:87-114 | 0x06020000, 0x06090011, 0x06010001 for an object that may not be read, else the callback's data, the stored data, the encoded value or default, and 0x060A0023 when there is none of them |
| LocalNode.WriteJudged | canopen/node/local.py:116-140 | The same verdict on every write, from the dictionary entry alone |
| LocalNode.ReadJudged | canopen/node/local.py:87-114 | The same verdict on every read |
| LocalNode.ReadAfterWrite | canopen/node/local.py:87-153 | A write is what the next read of that object returns and changes no other object |
| SdoClient.Client.RequestResponse | canopen/sdo/client.py:89-104 | One request, answered by the server it is connected to, by nothing (then aborted) or by a stray response |
| SdoClient.TimeoutReported | canopen/sdo/client.py:97-103 | A request that gets no response is aborted with 0x05040000, which the server notes and which changes no object |
| SdoClient.InitiateServed | canopen/sdo/client.py:411-424 | A segmented initiate opens the same transfer at the server from any earlier state |
| SdoClient.SegmentServed | canopen/sdo/client.py:457-479 | A segment with the agreed toggle is appended, and stored or refused by the node when last; both toggles advance |
| SdoClient.ExpeditedServed | canopen/sdo/client.py:426-453 | The server stores exactly the 1 to 4 bytes of an expedited download, or reports the node's error |
| SdoClient.UploadServed | canopen/sdo/client.py:305-334 | What the server answers to an upload request, for every outcome of reading the object |
| SdoClient.UploadSegmentServed | canopen/sdo/client.py:353-370 | The server sends the next seven bytes and keeps the rest |
| SdoClient.InitiateParses | canopen/sdo/client.py:308-334 | The client reads back size and expedited data from the server's response |
| SdoClient.ResponseUnderstood | canopen/sdo/client.py:308-334 | Every upload response is read off its bytes: 0x42 four bytes and no size, 0x43 to 0x4F one to four bytes, 0x41 a size with its low byte first, 0x40 neither |
| SdoClient.InitiateUpload | canopen/sdo/client.py:303-334 | Size and expedited data are those of the response received, also from servers that give no size; with this server they are the object's |
| SdoClient.WritableStream.Write | canopen/sdo/client.py:432-482 | Up to seven bytes are added to the transfer, client and server agreeing on the toggle bit; the last ones are stored or refused |
| SdoClient.WritableStream.WriteSegment | canopen/sdo/client.py:457-482 | The segmented branch: data, toggle, last-segment bit and outcome |
| SdoClient.WritableStream.WriteExpedited | canopen/sdo/client.py:440-455 | The expedited branch: stored exactly, or the node's refusal |
| SdoClient.WritableStream.Close | canopen/sdo/client.py:484-499 | An unfinished transfer is closed by an empty last segment, and everything written is stored |
| SdoClient.OpenWritable | canopen/sdo/client.py:391-430 | Which transfers are expedited, and that server and client are in step after a segmented initiate |
| SdoClient.Download | canopen/sdo/client.py:170-196 | From any earlier server state, expedited, segmented or forced: the object holds exactly the data, or the node's refusal is reported and nothing changes |
| SdoClient.DownloadPieces | canopen/sdo/client.py:432-499 | Size unknown: however the caller splits the data, the server stores the concatenation |
| SdoClient.ReadableStream.Read | canopen/sdo/client.py:336-370 | Returns the next seven bytes the server holds, in one request, and ends with them |
| SdoClient.ReadableStream.ReadAll | canopen/sdo/client.py:336-370 | Returns all the server holds in ceil(n / 7) requests; terminates even if stray responses arrive |
| SdoClient.OpenReadable | canopen/sdo/client.py:289-334 | The stream has the size and expedited data the response announces; with this server it holds the expedited data, or the server holds it all, or the refusal is reported |
| SdoClient.Upload | canopen/sdo/client.py:120-145 | Exactly what the node reads out or its refusal; n > 4 bytes take 1 + ceil(n / 7) requests; a response 0x42, whoever sends it, gives its four bytes |
| SdoClient.RoundTrip | canopen/sdo/client.py:120-196 | A download followed by an upload returns the bytes; an empty download cannot be uploaded |
| FastScan.ResetStarts | canopen/lss.py:257-262 | The first message is answered iff an unconfigured slave exists, and every such slave is at part 0 afterwards |
| FastScan.BitProbeMovesNothing | canopen/lss.py:265-272 | While the next part is the part being scanned, bit probes move no slave |
| FastScan.BitProbeAnswered | canopen/lss.py:269-270 | A bit probe is answered iff the least candidate has that bit clear |
| FastScan.ConfirmMoves | canopen/lss.py:274-276 | The confirmation of a part moves on exactly the slaves that agree with it, after the last part into configuration state |
| FastScan.LeastCandidate | canopen/lss.py:264-281 | Among the slaves agreeing so far one has the least next part |
| FastScan.LeastExtends | canopen/lss.py:264-281 | Fixing that part keeps what was found lexicographically least |
| FastScan.LssMaster.SendCommand | canopen/lss.py:371-403 | The queue is emptied before each message, so a response is always to the message just sent |
| FastScan.Message | canopen/lss.py:292-294 | The message byte by byte: 0x51, the number with its low byte first, bit, part and next part |
| FastScan.LssMaster.SendFastScanMessage | canopen/lss.py:292-304 | Identified only if some slave matches; on a reliable bus iff |
| FastScan.LssMaster.ScanPart | canopen/lss.py:265-272 | 32 probes find the least value of one part among the slaves that agree so far, and move no slave |
| FastScan.LssMaster.ScanAndConfirm | canopen/lss.py:264-281 | One round finds and confirms one part in 33 messages |
| FastScan.LssMaster.FastScan | canopen/lss.py:247-286 | Lexicographically least identity in exactly 133 messages, nothing found iff no slave is left, exactly the found slaves moved; with lost replies still never a wrong identity |
| FastScan.ScanTakesLeast | canopen/lss.py:257-286 | A scan leaves only greater identities behind, and with distinct identities takes exactly one slave |
| FastScan.EnumeratesNext | canopen/lss.py:257-286 | A further scan extends the list of identities in strictly increasing order |
| FastScan.Enumerate | canopen/lss.py:257-286 | Repeated scans find every unconfigured identity once in increasing order, the last call finding nothing, with 133 n + 1 messages |
| PdoBuffer.WritePartial | canopen/pdo/base.py:746-764 | For every bit field and every value of its type: it raises iff the container does not lie in the message or does not take the shifted value, and otherwise every bit of the message afterwards is known |
| PdoBuffer.WriteKeepsToItself | canopen/pdo/base.py:757-764 | Such a write changes no bit outside the field iff it does not raise and the message already has what the write puts behind the field |
| PdoBuffer.FittingBlends | canopen/pdo/base.py:757-764 | For a value that fits the field that means: behind the field (a negative value) or behind the type there is its sign |
| PdoBuffer.WriteAligned | canopen/pdo/base.py:765-766 | Writing a byte-aligned field puts in the bits of the whole integer and no others, and makes the message longer when it runs past the end |
| PdoBuffer.WriteShortened | canopen/pdo/base.py:765-766 | A byte-aligned field keeps to itself iff the whole integer lies in the message and what of it is not mapped is there already |
| PdoBuffer.FieldAcrossTypeRaises | canopen/pdo/base.py:763-764 | Five bits of an UNSIGNED8 at bit 6: writing 31 raises |
| PdoBuffer.ContainerPastEndRaises | canopen/pdo/base.py:717-764 | Twenty bits of an UNSIGNED24 at bit 4 of three bytes: every write and every read raises |
| PdoBuffer.ShortenedGrowsMessage | canopen/pdo/base.py:765-766 | Eight bits of an UNSIGNED16 as the only entry: a write makes the message two bytes long |
| PdoBuffer.WriteCell | canopen/pdo/base.py:737-768 | A write to a cell stores the value in its bits and leaves every other bit alone |
| PdoBuffer.ReadPartial | canopen/pdo/base.py:717-731 | Reading a bit field of any integer type raises iff the container does not lie in the message, and otherwise returns the value its bits spell, sign-extended unless it is the most negative one |
| PdoBuffer.ReadCell | canopen/pdo/base.py:710-735 | The same for every cell, bit field or not |
| PdoLayout.EntriesDisjoint | canopen/pdo/base.py:600-612 | Entries appended one after the other share no bit |
| PdoLayout.FewestBytes | canopen/pdo/base.py:305-306 | The message has at most n bytes iff it has at most 8 n bits, so at most eight iff it has at most 64 |
| PdoLayout.StoredUpdatesOneCell | canopen/pdo/base.py:737-768 | A write changes what its own entry holds and what no other entry holds |
| PdoLayout.MessageIsCells | canopen/pdo/base.py:710-768 | After any sequence of writes every entry reads the last value written to it |
| PdoLayout.ReadsBackLastWritten | canopen/pdo/base.py:710-768 | That read decodes to the written value iff it is not the most negative one of a signed bit field |
| PdoDevice.MiddleEffect | canopen/pdo/base.py:490-546 | What all writes between disabling and enabling do to the device, and exactly when none is refused |
| PdoDevice.MappingEffect | canopen/pdo/base.py:511-546 | Count 0, entries, count: the mapping and number of entries afterwards, accepted iff they fit 64 bits and the device |
| PdoDevice.ComEffect | canopen/pdo/base.py:490-509 | The four parameters are saved where set and writable, and kept otherwise |
| PdoDevice.ComWritten | canopen/pdo/base.py:490-509 | Each parameter is written iff it is set and its own subindex (2, 3, 5, 6) is writable |
| PdoDevice.FullSave | canopen/pdo/base.py:473-553 | The whole list of writes, in order, when everything is set and writable |
| PdoDevice.InterruptedSaveIsSafe | canopen/pdo/base.py:473-553 | After any prefix of the writes the device is in its old state, or the PDO is disabled, or the complete new configuration is enabled |
| PdoDevice.FailedSaveDisables | canopen/pdo/base.py:473-553 | A save that raises leaves the PDO disabled |
| PdoDevice.SaveEffect | canopen/pdo/base.py:473-553 | When every write is accepted, and the configuration and COB-ID the device then has |
| PdoDevice.MappingCompleteIff | canopen/pdo/base.py:522-524 | The device ends with the whole mapping iff each entry was writable or already held its value |
| PdoReadBack.UnpackAfterPack | canopen/pdo/base.py:408-416 | Index, subindex and length come back from an entry in both field orders, the length iff at most 127 |
| PdoReadBack.EntryInNumbers | canopen/pdo/base.py:522-536 | The mapping entry as a number, index first or in Curtis order |
| PdoReadBack.EntriesRoundTrip | canopen/pdo/base.py:404-418 | The list of entries read is the list saved iff every entry is known, has an index and a length of 1..127 |
| PdoReadBack.PackedLength | canopen/pdo/base.py:532-536 | The lengths in the entries add up to the length of the message |
| PdoReadBack.CobIdReadBack | canopen/pdo/base.py:373-379 | The COB-ID comes back iff it has 29 bits, and then so do the enabled and RTR flags |
| PdoReadBack.CobIdInNumbers | canopen/pdo/base.py:483-487 | A disabled PDO has 0x80000000 added to its COB-ID, one without remote requests 0x40000000 |
| PdoReadBack.SaveAcceptedIff | canopen/pdo/base.py:473-553 | With writable entries a save is accepted iff the message has at most 64 bits and the device has the objects |
| PdoReadBack.ReadUndoesSave | canopen/pdo/base.py:366-553 | Reading what a save stored gives the same COB-ID, flags, transmission type, timing parameters and entries |
| PdoMapping.PdoMap.AddVariable | canopen/pdo/base.py:588-623 | The variable is appended behind the last one, or nothing is if it is unknown; the data is reset to zeros in the fewest bytes that hold all bits |
| PdoMapping.PdoMap.Clear | canopen/pdo/base.py:583-586 | No entries, data unchanged |
| PdoMapping.PdoMap.SetRaw | canopen/pdo/base.py:737-768 | The data is the next state of the run of writes, unchanged if the write raises |
| PdoMapping.PdoMap.GetRaw | canopen/pdo/base.py:710-735 | For every cell the value its bits spell, whatever was written around it; the most negative value of a signed bit field without its sign |
| PdoMapping.PdoMap.WriteAllThenRead | canopen/pdo/base.py:710-768 | Through the object, after any sequence of writes an entry reads its last value |
| PdoMapping.PdoMap.ComRecordWrites | canopen/pdo/base.py:490-509 | The writes for the parameters, or a KeyError before the first of them |
| PdoMapping.PdoMap.WriteMapping | canopen/pdo/base.py:511-546 | The writes of the mapping in order, up to the first refusal |
| PdoMapping.PdoMap.Save | canopen/pdo/base.py:473-561 | The device ends in the state the list of writes describes, also when one is refused; a save that raises leaves the PDO disabled, any other leaves data of the fewest bytes that hold all bits |
| PdoMapping.PdoMap.Read | canopen/pdo/base.py:366-443 | Settings and entries are those the device holds, or the first lookup or transfer that fails; the data has the fewest bytes that hold all bits |
| PdoMapping.SaveThenRead | canopen/pdo/base.py:366-561 | One object saves, another reads: same settings, entries and length, and exactly when both succeed |
| Codec.UnpackAfterPack | canopen/objectdictionary/datatypes.py:60-127 | Unpack of pack is the value iff it is in the range of the type; pack raises iff it is out of the range of the container |
| Codec.PackAfterUnpack | canopen/objectdictionary/datatypes.py:60-127 | Pack of unpack is the bytes, for every byte string of the width; unpack raises iff the width is wrong |
| Codec.UnpackInRange | canopen/objectdictionary/datatypes.py:60-127 | Every byte string of the width decodes to a value in the range of the type |
| Codec.UnpackBit | canopen/objectdictionary/datatypes.py:60-127 | The bits of the value are those of the buffer, continued by the sign |
| Codec.RawRoundTrip | canopen/objectdictionary/__init__.py:464-498 | A raw value survives encoding iff it is in the range of its data type; ValueError iff it exceeds the container |
| Codec.DecodesNumber | canopen/objectdictionary/__init__.py:333-352 | For each of the sixteen integer types: its number of bytes, the number they make, less 2^(8 n) for a signed type with the top bit set, and the error for any other length |
| Codec.EncodesNumber | canopen/objectdictionary/__init__.py:333-352 | For each of them the bytes of every number in its range |
| Codec.EncodeRefuses | canopen/objectdictionary/__init__.py:333-352 | For each of them which numbers raise |
| Codec.TruncationIsSilent | canopen/objectdictionary/datatypes.py:60-90 | 2^24 is accepted for UNSIGNED24 and another value is read back |
| BitFields.BuildMask | canopen/objectdictionary/__init__.py:568-570 | The mask has exactly the listed bits; a negative offset raises |
| BitFields.DecodeBits | canopen/objectdictionary/__init__.py:535-548 | The result holds the listed bits, or those listed under the name, moved down to the lowest, and nothing else; errors for unknown names, no bits and negative bits |
| BitFields.EncodeBits | canopen/objectdictionary/__init__.py:550-573 | Only the bits listed, or listed under the name, change, to those of the pattern; the same errors |
| BitFields.DecodeAfterEncode | canopen/objectdictionary/__init__.py:535-573 | Extracting after inserting gives the pattern restricted to the listed bits |
| BitFields.ContiguousFieldRoundTrip | canopen/objectdictionary/__init__.py:535-573 | For a field without holes that is the pattern itself iff it fits |
| BitFields.SecondInsertOverrides | canopen/objectdictionary/__init__.py:550-573 | A second insert into the same bits leaves no trace of the first |
| BitFields.EncodeAfterDecode | canopen/objectdictionary/__init__.py:535-573 | Inserting what was extracted changes nothing |
| BitFields.DisjointInsertsCommute | canopen/objectdictionary/__init__.py:550-573 | Inserts into disjoint bits commute |

## Left out

- Threads, asyncio, locks, sleeps, retries of a full send buffer and logging. The clock in
  `_retransmit` of a block upload is prompt or a nondeterministic choice.
- `io.BufferedWriter` and `io.BufferedReader`: the caller keeps offering the data that is left, or keeps
  reading until nothing comes back. Closing a stream whose block download has failed is not modelled.
- Block download without a size, where `close` does not know the last segment.
- Malformed responses in block transfers: the peer of a block transfer conforms to the protocol. In
  segmented transfers stray responses of other clients are modelled.
- Read and write callbacks that raise; a read callback is the data it returns.
- REAL types, strings, physical and descriptive values in the codecs; minimum and maximum warnings.
- Array templates of the object dictionary (an index of an array that is not listed).
- PDO mappings declared as arrays, whose iteration reads the device, and the dummy-fill branch with its
  `@@fill_map` marker, which no abort can reach.
- PdoMapping.PdoMap.Read: does not model `read(from_od=True)`, which takes the same values from the object
  dictionary instead of the device.
- Fields that are no cells (see `WriteKeepsToItself` and `WriteShortened`) are not part of the claim that
  the message is a set of independent cells; what one write or one read of them does is proved.
- BOOLEAN and REAL types and entries of no length in a mapping, and the transmission that follows a write.
- COB-ID, transmission type, count and the first subindex of a PDO record are taken to exist on the device
  and in the dictionary; values of other parameters are taken to fit their objects.
- Lookup of PDO variables by name or position, and registering the PDO for reception after a save or read.
- Replies to an LSS message that arrive after the next one was sent; lost replies are modelled.
- The other LSS services, EDS and EPF files, CiA 402 profiles, NMT, EMCY, SYNC, TIME and the node scanner.
