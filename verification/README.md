# Stateful algorithms of a GStreamer plugin set

The plugin set is a collection of GStreamer 0.10 elements and of the scripts that build their
documentation. This project models the parts that keep state or transform data, and proves what
they promise over whole runs. Arrays and fields that the code updates in place are updated in place
here; the classes and methods are proved against functions on values, and the laws are proved about
those functions.

| file of the plugin set | models | laws |
|---|---|---|
| `ssdemux/src/ssmanifestparse.c` | `Manifest`, `Quality`, `UrlTemplate`, `CodecData` | `ManifestLaws`, `CodecDataLaws`, and the second halves of `Quality` and `UrlTemplate` |
| `ssdemux/src/gstssdemux.c` | `FragmentCache`, `Manifest` (look-ahead lists) | `FragmentCacheLaws`, `ManifestLaws` |
| `audiotp/src/gstaudiotp.c` | `ReverseQueue` | `ReverseQueueLaws` |
| `encodebin/src/gstencodebin.c` | `PauseClock` | `PauseClockLaws` |
| `avsystem/src/gstavsysmemsink.c` | `YuvFrame`, `FramePipeline` | in the same modules |
| `common/scangobj-merge.py` | `ScanGobj` over `Regex` and `OrderedDict` | `ScanGobjFixedPoint`, `ScanGobjReload`, `ScanGobjMerge`, `ScanGobjFormat` |
| `common/mangle-tmpl.py` | `MangleTmpl` over `Regex` | `MangleTmplLaws` |

A list with a pointer into it (`GList *`) is a sequence and an index. Threads are steps that may come
in any order; a call that blocks is two steps, before and behind its wait. Clocks, network results
and the success of a push or of blocking a pad are parameters of the steps. 64-bit times wrap around
where the code lets them, and a null pointer that the code would follow is an outcome of its own.

## Where the code does not do what it is for

Each of these is a theorem that says exactly when the code does meet the property, or that it never does.

- Codec data: the two length fields of the record are right if and only if the parameter set is
  shorter than 256 bytes (`CodecDataLaws.LengthFieldIff`, `ConvertedDecodesIff`), because the high
  byte is shifted by 16. The PPS is found if and only if its first byte is 0x68 and the first byte of
  the SPS is not (`SearchFindsPps`).
- Timeline: a fragment with a time and no duration gets the duration 0, since the code reads the time
  of the node itself where it means the next one (`ManifestLaws.TimeOnlyDurationIff`).
- Live delivery: on a timeline with increasing times every fragment is delivered exactly once if and
  only if the consumer was never woken out of a wait (`ManifestLaws.DeliveredOnceIff`); the producer
  and the woken consumer both move the cursor.
- Seeking: the end-of-list flag is not cleared, so a stream that was read to its end stays at its end
  after any seeks (`ManifestLaws.NothingAfterEnd`, `SeekThenNextIff`). A flushing seek leaves the
  cached buffers, and they come first in the new segment (`FragmentCacheLaws.QueueSurvivesSeek`).
- Quality: "no switch" is reported for a move up, and a switch for staying at the bottom
  (`Quality.VerdictTellsIff`); at a constant rate the level may swing between both ends of the ladder
  for ever (`SettlesIff`); the comparator has the wrong sign from a difference of 2^31 on (`CompareIff`).
- Reverse playback: where the direction of the batches changes, the cut-off is the wrong end of the
  batch before, and time stamps go up or repeat if and only if the batch has a buffer between the two
  ends (`ReverseQueueLaws.RunGoesDownIff`). At the end of the stream the last batch is sent without a
  cut-off and in the direction of the batch before it (`EndGoesDownIff`), and a stream that ends within
  its first batch always leaves from the newest end (`EndOfFirstBatchIff`).
- Pausing: the offset is the time the pads were blocked without the time that passed, still blocked,
  behind a pause at running time 0, a failed unblocking or a restart until the next pause or the resume
  that succeeds (`PauseClockLaws.OffsetIsSumIff`, `LostWhileIdle`); a time stamp at the resume is ahead
  by just that time (`ResumeContinuesPauseIff`).
- Rotation: every pixel is written 1, width + 1 or height places behind its place
  (`FramePipeline.CodeIndexIsOffset`), so the target needs that much more room (`RoomIff`); the sink's
  own target, which is as large as the frame, is left by every turn (`TurnLeavesFrame`).
- Chroma: for an odd width the last block of a row takes its colour from the next row of blocks, if
  there is one (`YuvFrame.BlockwiseChromaIff`). The first chroma plane is left for an even width with an
  odd height, for an odd width with two rows, and for odd sides unless the frame is at least four rows
  higher than wide (`PlanesApartIff`).
- Templates: a second run of the template tool changes the file again if and only if the description
  that goes into an existing short description holds a section header (`MangleTmplLaws.MangleTwiceIff`).
- URIs: different fragments get the same URI for some bitrates and times if and only if there are only
  digits between the two fields of the template, and these are at most eight or repeat themselves
  within nine places (`UrlTemplate.UrisApartIff`).

## Model

| member | source | states |
|---|---|---|
| Manifest.StreamNode.ParseFragmentNode | ssdemux/src/ssmanifestparse.c:374-482 | a node is refused without a duration unless it has a time and a sibling; otherwise its fragment is appended with the time of the node or the end of the fragment before it, and the duration is added to the stream's |
| ManifestLaws.ParsedNodes | ssdemux/src/ssmanifestparse.c:391-478 | a list of nodes is parsed if and only if every node is acceptable; numbers, times and durations of all fragments; the stream's duration is the sum over the list modulo 2^64 |
| ManifestLaws.TimesAreSums | ssdemux/src/ssmanifestparse.c:415-432 | behind any fragment, as long as nodes carry no time, a fragment starts at that fragment's time plus the durations in between |
| ManifestLaws.StartsAreSums | ssdemux/src/ssmanifestparse.c:391-478 | [MS-SSTR] section 2.2.2.6: with durations everywhere and a time at most on the first node, parsing succeeds and fragment k starts at the first time plus the sum of the durations before it |
| ManifestLaws.TimeOnlyDurationIff | ssdemux/src/ssmanifestparse.c:433-453 | a fragment with a time only lasts until the next node's time if and only if the next node has the same time |
| Manifest.StreamNode.AppendNextFragment | ssdemux/src/ssmanifestparse.c:1182-1251 | refused on an empty list; a fragment newer than the last one is appended, with the gap as its duration if it has none, and moves the cursor of an exhausted stream; an older one changes nothing |
| ManifestLaws.AppendKeeps | ssdemux/src/ssmanifestparse.c:1203-1239 | appending keeps the cursor inside the list, keeps everything listed, keeps the stream's duration the sum over the list, and keeps times strictly increasing |
| ManifestLaws.DurationIsSum | ssdemux/src/ssmanifestparse.c:476-478 | in every state behind parsing, any look-ahead list and any run of announcements, requests and wake-ups, the stream's duration is the sum over its whole list modulo 2^64 |
| Manifest.StreamNode.AppendLiveParams | ssdemux/src/gstssdemux.c:657-686 | the entries of a look-ahead list are appended one after the other, up to the first refusal |
| ManifestLaws.LastIsNewest | ssdemux/src/gstssdemux.c:668-686 | behind a look-ahead list no entry of it is newer than the last fragment |
| ManifestLaws.AnnouncedList | ssdemux/src/ssmanifestparse.c:1203-1230 | a look-ahead list of newer and newer entries becomes as many fragments behind all others, each with its time and its duration, or the gap to the fragment before it if it has none |
| ManifestLaws.OverlapAddsNothing | ssdemux/src/gstssdemux.c:668-686 | look-ahead lists that overlap leave the stream as if every fragment had been announced once |
| Manifest.StreamNode.GetNextFragment | ssdemux/src/ssmanifestparse.c:887-946 | at the end of the list a live stream waits and a stored one ends; otherwise the fragment under the cursor is handed out and the cursor moves on, or the end is marked |
| Manifest.StreamNode.TakeFragment | ssdemux/src/ssmanifestparse.c:904-946 | the part behind the wait: exactly the fragment under the cursor, then one step or the end mark |
| Manifest.StreamNode.WakeUp | ssdemux/src/ssmanifestparse.c:888-946 | a call that waited moves the cursor first, and may run off the list |
| ManifestLaws.NextsGiveSlice | ssdemux/src/ssmanifestparse.c:887-946 | stored playback in any state, also behind seeks: n requests give exactly the n fragments from the cursor on, or all there are; the end is marked exactly when the last one was given; the next answer is the next fragment or the end of the stream |
| ManifestLaws.StoredGivesAll | ssdemux/src/ssmanifestparse.c:887-946 | so from a cursor c with the end not marked: the fragments c up to c + n, and the end of the stream exactly behind the last one |
| ManifestLaws.SliceBehindSeek | ssdemux/src/ssmanifestparse.c:887-946 | what is given between two seeks is the contiguous piece from where the first one landed, or nothing if the stream had been read to its end |
| ManifestLaws.WakeGivesSecond | ssdemux/src/ssmanifestparse.c:888-946 | a woken consumer is given exactly the second fragment that it has not been given, and runs off the list if there is no second one |
| ManifestLaws.DeliveredOnceIff | ssdemux/src/ssmanifestparse.c:887-946 | over every interleaving of announcements, requests and wake-ups: from the first cursor on every fragment is handed out once and in order if, and with increasing times only if, no consumer was woken out of a wait; then end-of-list set means the cursor's element is the last and delivered, clear means exactly what is in front of it was delivered |
| ManifestLaws.PromptIsNeverWoken | ssdemux/src/ssmanifestparse.c:1235-1240 | if an announcement always comes before the request that would wait, the consumer never waits |
| ManifestLaws.GotIncreases | ssdemux/src/ssmanifestparse.c:1203-1240 | start times of what is handed out strictly increase over the run |
| ManifestLaws.RequestsAreDistinct | ssdemux/src/ssmanifestparse.c:887-948 | over such a run no URI is requested twice, whatever quality switches come in between |
| Manifest.SeekForward | ssdemux/src/ssmanifestparse.c:1272-1278 | the loop stops at the first start from the cursor on that is not before the target, and runs off the list if and only if there is none |
| Manifest.SeekBackward | ssdemux/src/ssmanifestparse.c:1285-1291 | the loop stops at the last start up to the cursor that is not behind the target, and runs off the list if and only if there is none |
| Manifest.StreamNode.SeekStream | ssdemux/src/ssmanifestparse.c:1264-1301 | both loops move the cursor to where the search says, a video stream falls back to its lowest bitrate, the chosen start is reported, and nothing else changes |
| Manifest.Presentation.SeekNth | ssdemux/src/ssmanifestparse.c:1264-1308 | one stream is sought, all others keep their state, and the segment start is raised to its start if that is later |
| Manifest.Presentation.SeekManifest | ssdemux/src/ssmanifestparse.c:1253-1314 | every stream is sought in turn, starting from a segment start of 0 |
| ManifestLaws.SeekBrackets | ssdemux/src/ssmanifestparse.c:1270-1296 | on ordered starts a seek fails if and only if the target is outside the timeline; forward it lands on the last fragment strictly before the target, backward on the last one not behind it, and the target lies between the fragment and its successor |
| ManifestLaws.SeekDependsOnCursorIff | ssdemux/src/ssmanifestparse.c:1270-1296 | two cursors give different results if and only if the target is the exact start of a fragment behind the first and up to the second |
| ManifestLaws.StartsAscend | ssdemux/src/ssmanifestparse.c:1267-1275 | scaling to nanoseconds, with rounding and saturation, keeps start times in order |
| ManifestLaws.ScaleIsFloor | ssdemux/src/ssmanifestparse.c:1267-1275 | a start in nanoseconds is the exact one rounded down while it fits into 64 bits, and the highest number otherwise |
| ManifestLaws.SeekLandsIff | ssdemux/src/ssmanifestparse.c:1264-1301 | on a stream with non-decreasing times that fit, in its own ticks: a seek fails exactly outside of the timeline; forward it lands on the last fragment with time * 10^9 < target * timescale, backward on the last one with time * 10^9 < (target + 1) * timescale, otherwise it stays; the level is 0 for video and kept otherwise, and nothing else changes |
| ManifestLaws.SoughtStreams | ssdemux/src/ssmanifestparse.c:1263-1309 | in a seek every stream ends up where its own search puts it, missing streams stay missing |
| ManifestLaws.SeekSucceedsIff | ssdemux/src/ssmanifestparse.c:1263-1309 | no cursor runs off its list if and only if the search succeeds in each stream |
| ManifestLaws.SegmentStartsLatest | ssdemux/src/ssmanifestparse.c:1306-1308 | the new segment start is the maximum of the chosen starts over all streams |
| ManifestLaws.NothingAfterEnd | ssdemux/src/ssmanifestparse.c:1263-1313 | once the end is marked, no sequence of seeks and requests on a stored stream delivers anything |
| ManifestLaws.SeekThenNextIff | ssdemux/src/ssmanifestparse.c:887-946 | the fragment a seek landed on is the next one delivered if and only if the end had not been marked |
| Manifest.StreamNode.SetLadder | ssdemux/src/ssmanifestparse.c:597-600 | the quality levels are put in sorted order and nothing else changes |
| Quality.CompareIff | ssdemux/src/ssmanifestparse.c:110-115 | the comparator has the sign of the difference if and only if the difference fits into 32 signed bits |
| Quality.CompareWraps | ssdemux/src/ssmanifestparse.c:110-115 | 3 Gbit/s compares below 0 |
| Quality.SortAscends | ssdemux/src/ssmanifestparse.c:597-600 | a ladder whose bitrates lie within 2^31 of each other is sorted into ascending order, and is a permutation of the levels |
| Quality.SwitchQualityLevel | ssdemux/src/ssmanifestparse.c:1142-1180 | both loops end; above 1.4 times the bitrate at entry the level goes to the top, below 1.1 times to the bottom, in between it stays; audio only is reported if and only if the rate is below and the stream is live |
| Manifest.StreamNode.SwitchQualityLevel | ssdemux/src/ssmanifestparse.c:1142-1180 | the same on the stream's own ladder, changing the level only |
| Quality.MovesOneWay | ssdemux/src/ssmanifestparse.c:1149-1177 | a switch never moves both ways; the level is unchanged if and only if the rate is in the band, or the end it would move to is reached already; above 1.4 times the bitrate it ends at the highest bitrate, below 1.1 times at the lowest |
| Quality.VerdictTellsIff | ssdemux/src/ssmanifestparse.c:1149-1179 | "no switch" is reported exactly when nothing moved, except for a move up and for staying at the bottom; audio only exactly for a live stream whose rate is below 1.1 times the bitrate, audio and video for a stored one |
| Quality.SettlesIff | ssdemux/src/ssmanifestparse.c:1142-1180 | at a constant rate the level is settled after two switches if and only if the rate suits the entry level or an end of the ladder; otherwise it changes at every switch |
| UrlTemplate.BaseIsLongest | ssdemux/src/ssmanifestparse.c:193-202 | the base is the longest prefix of the manifest URI that ends in '/', and there is none if and only if there is no '/' |
| UrlTemplate.ExpandSupported | ssdemux/src/ssmanifestparse.c:908-949 | [MS-SSTR] section 2.2.2.4: a template pre{x}mid{y}post gives base, pre, decimal bitrate, mid, decimal time, post |
| UrlTemplate.ExpandForm | ssdemux/src/ssmanifestparse.c:913-948 | every template with two '{': no URI if nothing stands behind one of them; a field without its '}' ends the URI at the number in front of it |
| UrlTemplate.ExpandNeedsFields | ssdemux/src/ssmanifestparse.c:913-936 | and no URI with fewer of them |
| UrlTemplate.KeepsApartIff | ssdemux/src/ssmanifestparse.c:918-936 | over all 32-bit bitrates and 64-bit times, also those that print with a sign, bitrate and time can be read back from the text if and only if there is a character other than a digit between them, or at least nine digits that do not repeat themselves within nine places |
| UrlTemplate.UrisApartIff | ssdemux/src/ssmanifestparse.c:908-949 | the same for whole URIs of a supported template: no two fragments share one if and only if the text between the fields is not ambiguous |
| UrlTemplate.UrisDistinct | ssdemux/src/ssmanifestparse.c:908-949 | unless that text is ambiguous two fragments have the same URI if and only if bitrate and time agree |
| CodecData.StrStr | ssdemux/src/ssmanifestparse.c:1335-1337 | the first place of the pattern, or its absence everywhere |
| CodecDataLaws.HexDigitIff | ssdemux/src/ssmanifestparse.c:1415-1427 | a character has a value exactly if it is a hexadecimal digit in either case, and the value is its place in the alphabet |
| CodecDataLaws.HexNumberIsStrtol | ssdemux/src/ssmanifestparse.c:23-41 | two characters are read as `strtol` reads them in base 16: blanks, a sign, a prefix in front of a digit, and the digits that follow |
| CodecDataLaws.CopyIff | ssdemux/src/ssmanifestparse.c:1457-1473 | on any text: an even one whose pairs are numbers is copied byte for byte, an odd one that ends with a digit overruns the buffer, any other one stops |
| CodecData.CopyLoop | ssdemux/src/ssmanifestparse.c:1457-1473 | the loop writes the decoded bytes from its start index on, leaves everything in front, stops at the first pair that is no number, and overruns exactly where the specification does |
| CodecData.CopiedLength | ssdemux/src/ssmanifestparse.c:1494-1511 | a loop that ends has read the whole text and written half as many bytes, which fill the buffer exactly |
| CodecData.AppendNals | ssdemux/src/ssmanifestparse.c:1444-1487 | the grown buffer keeps the header and receives the SPS |
| CodecData.AppendPps | ssdemux/src/ssmanifestparse.c:1475-1511 | the grown buffer keeps everything and receives count, length and PPS; the final index is the declared length |
| CodecData.ConvertParts | ssdemux/src/ssmanifestparse.c:1377-1511 | both parts are converted, with the error and the undefined outcomes in the code's order |
| CodecData.Convert | ssdemux/src/ssmanifestparse.c:1316-1545 | the whole conversion equals its specification on every text |
| CodecDataLaws.FoundIsPattern | ssdemux/src/ssmanifestparse.c:1335 | a match at an even digit is five whole bytes, at an odd digit six bytes with the outer nibbles free |
| CodecDataLaws.PatternOnlyAtPps | ssdemux/src/ssmanifestparse.c:1333-1335 | in a stream of two units without three zero bytes in a row (ITU-T H.264 section 7.4.1) the pattern stands at no digit but those of the two start codes, and there only in front of a byte 0x68 |
| CodecDataLaws.SearchFindsPps | ssdemux/src/ssmanifestparse.c:1335-1373 | for every stream of two units: the start code of the PPS if the PPS begins with 0x68 and the SPS does not, the very beginning if the SPS does, nothing otherwise |
| CodecDataLaws.LengthFieldIff | ssdemux/src/ssmanifestparse.c:1441-1442 | the two length bytes read back as the length if and only if it is below 256 |
| CodecDataLaws.UnitIff | ssdemux/src/ssmanifestparse.c:1437-1473 | a parameter set behind its length is read back, and nothing behind it touched, if and only if it is shorter than 256 bytes |
| CodecDataLaws.RecordDecodesIff | ssdemux/src/ssmanifestparse.c:1388-1511 | a reader of the AVCDecoderConfigurationRecord (ISO/IEC 14496-15:2004 section 5.2.4.1) recovers profile, compatibility, level, SPS and PPS if and only if both sets are shorter than 256 bytes |
| CodecDataLaws.StreamConverts | ssdemux/src/ssmanifestparse.c:1316-1511 | every spelling of every stream of two units, in either case of the digits: the record of its parameter sets, a failure if the SPS is shorter than four bytes, and undefined behaviour if the PPS is not found or the SPS is taken for it |
| CodecDataLaws.WrittenConverts | ssdemux/src/ssmanifestparse.c:1316-1511 | in particular the text that a writer of hexadecimal digits gives, with each digit in either case |
| CodecDataLaws.ConvertedDecodesIff | ssdemux/src/ssmanifestparse.c:1316-1511 | the record has 8 + SPS + 3 + PPS bytes, and decodes to what was in the stream if and only if both sets are shorter than 256 bytes |
| ReverseQueue.AudioTp.ChainBuffer | audiotp/src/gstaudiotp.c:393-518 | at a discontinuity the queue is emptied from the end its direction asks for, below the cut-off, up to the first failing push; then the batch's ends become the cut-offs and the buffer is queued |
| ReverseQueue.AudioTp.DrainOnEvent | audiotp/src/gstaudiotp.c:312-345 | a segment or the end of the stream empties the queue without a cut-off, past failing pushes |
| ReverseQueue.AudioTp.Flush | audiotp/src/gstaudiotp.c:359-367 | a flush drops the queue and keeps direction and cut-offs |
| ReverseQueueLaws.DrainIsBelow | audiotp/src/gstaudiotp.c:452-493 | while pushes succeed, emptying the queue sends its buffers in reversed or arrival order, filtered by the cut-off |
| ReverseQueueLaws.DrainStops | audiotp/src/gstaudiotp.c:452-493 | with pushes that may fail: sent is what is below the cut-off up to the first failing push, that buffer is lost, and all below the cut-off behind it is still to come |
| ReverseQueueLaws.RefusedChain | audiotp/src/gstaudiotp.c:471-484 | a discontinuity whose push fails loses that buffer and the one that arrived, and keeps the cut-offs |
| ReverseQueueLaws.DrainAllLoses | audiotp/src/gstaudiotp.c:312-345 | a segment or the end of the stream empties the whole queue and loses exactly the buffers that are refused |
| ReverseQueueLaws.RunSends | audiotp/src/gstaudiotp.c:430-517 | over every run of batches the output is the concatenation of all batches but the last, each in play order and cut off at an end of the batch before it |
| ReverseQueueLaws.SentGoesDownIff | audiotp/src/gstaudiotp.c:465-496 | for batches that run strictly in one direction each, with low ends that do not rise: what the first n send out strictly decreases if and only if wherever the direction changes the batch has no time stamp from the lower end of the one before it up to its upper end |
| ReverseQueueLaws.RunGoesDownIff | audiotp/src/gstaudiotp.c:430-517 | the same for all time stamps sent at discontinuities over a whole run |
| ReverseQueueLaws.RunGoesDown | audiotp/src/gstaudiotp.c:430-517 | so they strictly decrease in every run of one direction |
| ReverseQueueLaws.DirectionsMustAgree | audiotp/src/gstaudiotp.c:465-470 | a run whose change of direction is not clear, in which a time stamp is sent twice |
| ReverseQueueLaws.FlushStartsOver | audiotp/src/gstaudiotp.c:359-367 | what is sent behind a flush is what the same batches send from the initial state, whatever was played before |
| ReverseQueueLaws.EndedIs | audiotp/src/gstaudiotp.c:332-345 | for every run of at least two batches the end of the stream sends the last one whole, in the direction of the one before it |
| ReverseQueueLaws.EndGoesDownIff | audiotp/src/gstaudiotp.c:332-345 | time stamps go down to the very end if and only if every earlier change of direction is clear, the last batch has the direction of the one before it or is a single buffer, and it ends below the lower end of that batch |
| ReverseQueueLaws.EndOfFirstBatchIff | audiotp/src/gstaudiotp.c:332-345 | a stream that ends within its first batch is sent newest first, which is right if and only if the batch did not arrive in reverse order |
| PauseClock.EncodeBin.PauseStream | encodebin/src/gstencodebin.c:2892-2988 | pausing blocks first and keeps the time of a pause that runs; resuming closes the gap even if unblocking fails; without a clock both times are cleared |
| PauseClock.EncodeBin.SetPauseProperty | encodebin/src/gstencodebin.c:850-854 | a value the property has already changes nothing; another one is one call |
| PauseClock.EncodeBin.ReadyToPaused | encodebin/src/gstencodebin.c:1409-1413 | both times are reset, the pause flag stays |
| PauseClock.EncodeBin.TimestampProbe | encodebin/src/gstencodebin.c:3184-3225 | the buffer's time stamp is reduced by the offset, modulo 2^64 |
| PauseClock.EncodeBin.HighSpeedProbe | encodebin/src/gstencodebin.c:3199-3210 | the buffer's time stamp is multiplied, modulo 2^64 |
| PauseClockLaws.OffsetIsSumIff | encodebin/src/gstencodebin.c:2892-2973 | over every run of pauses, resumes, failed blocks, retries and restarts: the offset is the time the pads have been blocked minus the time lost, it never exceeds the running time, stretches do not overlap, and it is the whole time if and only if since the last restart every call that found the pads blocked without a pause time came at the running time of the call before it |
| PauseClockLaws.LostWhileIdle | encodebin/src/gstencodebin.c:2905-2967 | time is lost exactly while the pads are blocked and the pause time is 0, which starts with a pause at 0 or a failed unblocking and ends with the next pause or the resume that succeeds |
| PauseClockLaws.LostSinceIff | encodebin/src/gstencodebin.c:2905-2967 | from any point of a run on, no further time is lost if and only if no such call comes late |
| PauseClockLaws.RepeatsMoveNothing | encodebin/src/gstencodebin.c:2896-2973 | a repeated pause and a retried resume move neither the offset nor the time of the pause |
| PauseClockLaws.PropertyIsCall | encodebin/src/gstencodebin.c:850-854 | every run of settings and restarts, in the order of their running times, is a possible run of the two calls and leaves the same clock, so all laws about calls hold for the property; and throughout, the property shows whether the pads are blocked, which is the value last set with success |
| PauseClockLaws.BlindCallsOnlyBlock | encodebin/src/gstencodebin.c:2920-2957 | as long as there is no clock, any calls block and unblock the pads and nothing else, and time stamps stay as they are |
| PauseClockLaws.LostClockForgets | encodebin/src/gstencodebin.c:2920-2957 | a run that loses its clock forgets all pauses with the first call that needs it, and no other call does |
| PauseClockLaws.StampsStayInOrder | encodebin/src/gstencodebin.c:3184-3225 | for buffers stamped not before the latest resume the subtraction never underflows, and adjusted time stamps keep the input order over the whole run |
| PauseClockLaws.HighSpeedStaysInOrder | encodebin/src/gstencodebin.c:3199-3210 | while products fit into 64 bits, the adjusted time stamps of the run stay in order behind the multiplication and are as many times further apart |
| PauseClockLaws.ResumeContinuesPauseIff | encodebin/src/gstencodebin.c:2941-2946 | from a pause, over any failed and repeated calls, to the resume that succeeds: the adjusted time there is the adjusted time at the pause plus the time lost, and equal to it if and only if no call in between that found the pads blocked without a pause time came late |
| FragmentCache.DemuxStream.NewBuffer | ssdemux/src/gstssdemux.c:1063-1139 | a buffer is queued until enough fragments are there; then the segment is announced once, the queue is pushed in order up to the first failure, and the buffer behind it, restamped in audio-only mode |
| FragmentCache.DemuxStream.EndOfDownload | ssdemux/src/gstssdemux.c:942-944 | one more fragment is counted |
| FragmentCache.DemuxStream.FlushingSeek | ssdemux/src/gstssdemux.c:429-437 | counting and announcing start again, the queue stays |
| FragmentCache.DemuxStream.SwitchToDummies | ssdemux/src/gstssdemux.c:598 | the time of the next dummy frame is set and nothing else |
| FragmentCacheLaws.NextStampIs | ssdemux/src/gstssdemux.c:1120-1128 | behind a switch to dummy frames, whatever happens in between: the next time stamp is the start time plus one frame duration for every frame stamped since, modulo 2^64 |
| FragmentCacheLaws.DummyIsStamped | ssdemux/src/gstssdemux.c:1110-1135 | so the dummy frame behind k stamped ones is pushed with the start time plus k frame durations, and with that duration |
| FragmentCacheLaws.DrainIs | ssdemux/src/gstssdemux.c:1110-1118 | draining pushes the queue in its order up to the first refused push; that buffer is lost and the rest stays queued |
| FragmentCacheLaws.ArrivalIs | ssdemux/src/gstssdemux.c:1080-1135 | the whole effect of one buffer, with all that may be refused: what the pad is given, what stays queued, and the next dummy time |
| FragmentCacheLaws.CountIsDownloads | ssdemux/src/gstssdemux.c:942-944 | over every run the counter is the number of downloads completed since the last flushing seek |
| FragmentCacheLaws.AcceptedIff | ssdemux/src/gstssdemux.c:1081-1135 | a buffer is taken if and only if the cache is still filling up, or the segment is announced or accepted and each push of the queued buffers and of the new one succeeds |
| FragmentCacheLaws.NothingLostIff | ssdemux/src/gstssdemux.c:1080-1135 | over every run, across seeks: pushed followed by queued is received, buffer by buffer with its own time stamp and duration, but for the two times of stamped dummy frames, if and only if all that was due with each buffer was accepted; the segments on the pad carry the start and duration of the arrivals that announced them; since the last flushing seek the pad has seen nothing, or one segment and then data only |
| FragmentCacheLaws.QueueSurvivesSeek | ssdemux/src/gstssdemux.c:429-437 | what is pushed and queued since a flushing seek is the queue at the seek followed by what has arrived since; the first buffer of the new segment is an old one if and only if the queue was not empty |
| YuvFrame.Yuv420ToArgb | avsystem/src/gstavsysmemsink.c:131-177 | every pixel of the target has the four bytes of its luma and chroma samples, and nothing behind the frame is touched |
| YuvFrame.GreyAndBright | avsystem/src/gstavsysmemsink.c:124-128 | neutral chroma gives grey, and more luma makes no channel darker |
| YuvFrame.ColoursAreNear | avsystem/src/gstavsysmemsink.c:124-128 | each channel is that of ITU-R BT.601, rounded down to within 0.03 and clipped |
| YuvFrame.PlanesOfColours | avsystem/src/gstavsysmemsink.c:148-164 | red does not depend on the first chroma plane, and blue not on the second |
| YuvFrame.BlockwiseChromaIff | avsystem/src/gstavsysmemsink.c:159-160 | two pixels share a chroma sample exactly when they are in the same block of two by two, if and only if the width is even or there is one row of blocks |
| YuvFrame.PlanesApartIff | avsystem/src/gstavsysmemsink.c:148-160 | for every size, no pixel reads across the end of the first chroma plane if and only if both sides are even, or only the width is odd and there are at least four rows, or both are odd and the frame is at least four rows higher than wide |
| YuvFrame.EvenFrameIsReadable | avsystem/src/gstavsysmemsink.c:148-160 | with even sides all reads are inside one and a half bytes per pixel |
| FramePipeline.RotatePure | avsystem/src/gstavsysmemsink.c:179-233 | every write is inside the target if and only if it has room for frame and offset; then the window behind the offset is exactly the rotated frame and everything else is as before |
| FramePipeline.RotateByDegrees | avsystem/src/gstavsysmemsink.c:191-224 | so for the four known angles; any other one leaves the target as it was |
| FramePipeline.CodeIndexIsOffset | avsystem/src/gstavsysmemsink.c:201-227 | the code's target index is the pixel's true place plus 0, 1, width + 1 or height |
| FramePipeline.DegreesPlace | avsystem/src/gstavsysmemsink.c:191-224 | where the degrees take each pixel: 90 to the right, 180 upside down, 270 to the left |
| FramePipeline.RoomIff | avsystem/src/gstavsysmemsink.c:201-229 | all writes are inside a target if and only if it has room for the frame and the offset |
| FramePipeline.TurnLeavesFrame | avsystem/src/gstavsysmemsink.c:581-595 | in a target as large as the frame every turn of a non-empty frame writes behind the end |
| FramePipeline.SourceTurned | avsystem/src/gstavsysmemsink.c:201-227 | rotation is a bijection between places: every source pixel is placed exactly once |
| FramePipeline.TurnBack | avsystem/src/gstavsysmemsink.c:201-227 | turning a place and turning it back by the inverse angle is the identity |
| FramePipeline.TurnsAdd | avsystem/src/gstavsysmemsink.c:201-219 | two quarter turns are a half turn, a half and a quarter turn are three quarters |
| FramePipeline.RotateBack | avsystem/src/gstavsysmemsink.c:197-231 | rotating a rotated frame back by the inverse angle restores it, for every size |
| FramePipeline.ResizePure | avsystem/src/gstavsysmemsink.c:235-275 | the target is exactly the scaled frame and the rest is as before |
| FramePipeline.ScaledInRange | avsystem/src/gstavsysmemsink.c:256-267 | for sources up to 65536 and targets below 32768, where the shifts fit into an int, the index is inside the source |
| FramePipeline.ScaledIsFloor | avsystem/src/gstavsysmemsink.c:256-267 | the index is the 16.16 quotient of the place and the factor, both rounded down |
| FramePipeline.TakenAt | avsystem/src/gstavsysmemsink.c:263-270 | columns are scaled by the widths and rows by the heights |
| FramePipeline.ScaledKeepsOrder | avsystem/src/gstavsysmemsink.c:256-267 | in that range indices keep the order of the target's places, and are the identity for equal sizes |
| FramePipeline.ScaledIsClose | avsystem/src/gstavsysmemsink.c:256-267 | while the 16.16 factor is at least the source size the index is the exact quotient or one more |
| FramePipeline.ResizeToSame | avsystem/src/gstavsysmemsink.c:235-275 | scaling to the same size changes nothing |
| Regex.Search | common/scangobj-merge.py:109-117 | the leftmost place at which the pattern matches, or none anywhere |
| Regex.MatchRenders | common/scangobj-merge.py:95-106 | a match covers exactly the text its groups and literals spell |
| Regex.RenderMatches | common/scangobj-merge.py:95-106 | and the other way round: a text that starts with something the pattern spells is matched |
| Regex.MatchCut | common/scangobj-merge.py:95-106 | no match looks behind its own end |
| Regex.LazyTookFirst | common/scangobj-merge.py:91-94 | a lazy group ends at the first place of the closing tag |
| Regex.LazyTakesFirst | common/scangobj-merge.py:91-94 | and a text in which the closing tag starts nowhere earlier is what a lazy group takes |
| Regex.WellCutReads | common/scangobj-merge.py:159-167 | words in front of white space, lazy groups in front of a literal that does not start earlier, and a last greedy group are read back exactly from what they spell |
| ScanGobjFixedPoint.NameSplitsAtLast | common/scangobj-merge.py:95-101 | the greedy object group ends at the last "::" of the name line, also where it overlaps itself |
| ScanGobj.GDoc.Record | common/scangobj-merge.py:109-122 | a block changes its own object and entry only, setting an entry again replaces it in place |
| ScanGobj.GDoc.LoadData | common/scangobj-merge.py:107-122 | loading applies the blocks in the order `findall` yields them |
| ScanGobjFormat.ArgsLoad | common/scangobj-merge.py:143-185 | a file of arguments in the written-out format, however its blocks are set apart, sets exactly these entries with exactly these six fields: names without white space and without a later "::", type and flags without white space, other fields that do not hold the tags behind them |
| ScanGobjFormat.SignalsLoad | common/scangobj-merge.py:86-122 | the same for signals with any arguments |
| ScanGobjFormat.ArgLoads | common/scangobj-merge.py:168-183 | one such block sets exactly its entry |
| ScanGobjFormat.SignalLoads | common/scangobj-merge.py:107-122 | one such block sets exactly its entry |
| ScanGobjFormat.NamedOnly | common/scangobj-merge.py:109-118 | a block with a name and no fields makes its object known and leaves all entries |
| ScanGobjFormat.NamelessBlock | common/scangobj-merge.py:107-110 | a block without a name changes nothing |
| ScanGobj.GDoc.GetData | common/scangobj-merge.py:124-137 | printing yields every entry of every object in dictionary order |
| ScanGobjFormat.ArgIsGood | common/scangobj-merge.py:187-203 | an argument is printed in the written-out format |
| ScanGobjFormat.SignalIsGood | common/scangobj-merge.py:124-135 | and a signal |
| ScanGobjFormat.PrintIs | common/scangobj-merge.py:124-137 | the written file: every entry in order, an empty line between two of them |
| ScanGobjFixedPoint.LoadedIsGood | common/scangobj-merge.py:107-132 | every block that loads into an entry prints as a block that loads into the same entry |
| ScanGobjReload.FindPrinted | common/scangobj-merge.py:107-137 | in a printed file `findall` finds exactly the printed blocks |
| ScanGobjReload.ParseOfPrint | common/scangobj-merge.py:86-137 | a printed database parses to the same objects and entries in the same order, without objects that have no entry |
| ScanGobjReload.PrintOfLines | common/scangobj-merge.py:124-137 | printing depends on the entries alone |
| ScanGobjMerge.PrintIsFixedPoint | common/scangobj-merge.py:86-205 | for every text and both grammars, loading what was printed and printing again gives the identical text |
| ScanGobjMerge.LoadIsMerge | common/scangobj-merge.py:107-122 | loading into a filled database is merging with the database of the file alone |
| ScanGobjMerge.SecondFileWins | common/scangobj-merge.py:207-224 | objects and entries of the first file in first-appearance order, then the new ones of the second, with the second file's fields wherever both have the entry |
| ScanGobjMerge.MergeAssociates | common/scangobj-merge.py:168-183 | merging is associative, order included |
| ScanGobjMerge.MergeAgain | common/scangobj-merge.py:168-183 | merging the same database again changes nothing |
| ScanGobjMerge.LoadingLaws | common/scangobj-merge.py:207-224 | loading a file twice is loading it once, and three files may be grouped either way |
| ScanGobjMerge.RerunChangesNothing | common/scangobj-merge.py:215-224 | a second run of the tool with the same new file leaves the written file as it is |
| MangleTmpl.Tmpl.ReadFile | common/mangle-tmpl.py:29-48 | the loop reads ids and sections as the specification does, dropping lines in front of the first header |
| MangleTmpl.Tmpl.OutputText | common/mangle-tmpl.py:62-72 | the loops print header and content of each id in order |
| MangleTmpl.Tmpl.MangleFile | common/mangle-tmpl.py:142-152 | the short description is replaced, the include line put in front of the long one unless it is there; fails without a non-empty long description |
| MangleTmplLaws.ConcatOfReadLines | common/mangle-tmpl.py:33 | the lines of a text, joined, are the text |
| MangleTmplLaws.HeaderIsRead | common/mangle-tmpl.py:34-40 | a printed header line is read as its id |
| MangleTmplLaws.GluedHeader | common/mangle-tmpl.py:34-40 | also behind text without its line feed |
| MangleTmplLaws.Reread | common/mangle-tmpl.py:29-72 | what is printed reads back as the same ids, with the printed contents as lines, also where the last content lacks its line feed |
| MangleTmplLaws.OutputIsFixedPoint | common/mangle-tmpl.py:29-72 | for every file, reading and printing twice is reading and printing once |
| MangleTmplLaws.UnchangedIffExact | common/mangle-tmpl.py:29-72 | reading and printing leaves any file as it is if and only if nothing precedes the first header, every header line is exact behind what the section before it leaves open, and repeated ids have equal lines |
| MangleTmplLaws.MangledContents | common/mangle-tmpl.py:142-152 | the text of each section of any file behind the per-file step: the description, the include line in front of a long description that does not start with it, and everything else as it was; and which content may lack its line feed |
| MangleTmplLaws.MangleTwiceIff | common/mangle-tmpl.py:137-153 | for every file the whole per-file step is idempotent if and only if the description that replaces an existing short description holds no section header |

## Left out

- Colour as such: the channels are claimed to be near those of ITU-R BT.601 and no more; range and gamma are not modelled.
- Floating point: the thresholds 1.4 and 1.1, the scale factors and the scaled places are exact; rounding to `float` or `double` is not modelled.
- XML, HTTP, libxml2, piff parsing and base64: models start from attributes that have been read and from nodes without blanks between them; an absent attribute is the value -1, as in the code.
- The caps builders around the hexadecimal loops for audio and protection headers: only the codec data conversion is modelled.
- Codec data of several SPS or PPS units: the code keeps them together as one unit, and so does the model, but the laws are about one of each. Texts of 4 GiB and more, whose lengths do not fit into `unsigned int`, are not modelled.
- `twisted.python.util.OrderedDict` is not part of the repository: keys are taken to keep the place of their first assignment. An `Object` of the merge tool is the dictionary of its entries; reading and writing the files themselves is not modelled.
- Character encodings and the universal newline mode of Python are not modelled: a text is a sequence of characters.
- `g_list_sort` is modelled as a merge sort that halves the list; the ladder it yields is what matters.
- Locks: a step is what runs under one lock. The wait of a live consumer is modelled as two steps; that the lock of the manifest is held meanwhile, and the signal that ends the wait, are not.
- ManifestLaws.NothingAfterEnd: is about stored presentations; seeks to targets outside the timeline, which follow a null pointer, are left aside in these runs.
- PauseClockLaws.OffsetIsSumIff: is about runs with a clock; calls without one are in `PauseClockLaws.BlindCallsOnlyBlock` and `LostClockForgets`.
- ReverseQueueLaws.RunSends: is about runs without a failing push; what one failing push leaves is in `ReverseQueueLaws.DrainStops` and `DrainAllLoses`.
- FragmentCache: buffers are an identity and two times; payload, caps and the counter's wrap-around at 2^32 are left out.
- ReverseQueue: buffers are metadata; the silent payload, caps and segment bookkeeping are left out.
- FramePipeline.Shifted: targets of 32768 or more columns or rows, for which the code's shift leaves the range of an int, are not modelled; neither is a source of more than 65536.
- FramePipeline: a pixel stands for its bytes, which are always copied together.
- The first fragment of a live stream: moving the cursor to the last node before the first request is the precondition under which increasing times ask for nothing in `ManifestLaws.DeliveredOnceIff`.
- Linking of encoders, device sinks and sources, DRM, property tables, caps negotiation, plugin registration and the build system.
