# t2h in Dafny

t2h serves the files of a torrent over HTTP while they are still being downloaded. This project models
the parts of it whose correctness is hardest to see, in the order in which a byte travels:

| file | what it models |
|---|---|
| Sorting, SequentialTracker, TorrentFiles, TrackedFile | the sequential-piece tracker: how many leading pieces of a file are announced |
| TrackerRuns, TrackerWindows, TrackerRestarts | whole runs of it: any order of arrival, increasing runs, disorder inside a window, and what it does after its file has been completed |
| NotificationUnit | the bounded pending queue and the delivery thread |
| FileInfoBuffer | the HTTP side's table of files and its subscribers |
| ChunkedStream | the stream that blocks for bytes and sends chunks |
| TorrentCore, TorrentOrder | torrents with their files and torrent-wide pieces, the events they publish, and when what they announce is on disk |
| Pipeline, Progress | all of the above as one transition system over all interleavings: what is safe in each of them, and what can always be reached |
| EventRing | the intrusive ring of event binders and the walk with a bookmark |
| SocketQueue, Shutdown | the bounded queue between master and workers, and the protocol of start and stop |
| RequestFraming | cutting the byte stream of a connection into requests |
| Glob, Md5, UrlCodec, UriCleaner | the server's pattern matcher, streaming digest, percent-encoding and path cleaning |
| RequestParser, RequestGrammar, RequestLanguage, HeaderPrinter | the request parser, its grammar, the proof that it accepts exactly that, and the header printer it inverts |
| RangeHeader | range requests from the header to the numbers in the reply |

Objects that the source updates in place are classes, and their methods are proved against functions on
values; what the source promises is proved about those functions, over all inputs or all runs.
Sections under a mutex are single steps. Timed waits end at any moment. Reads, writes and the handlers of
requests are nondeterministic, with the contracts written at the methods that stand for them.

## Where the code does not do what one would expect

The model follows the code in each of these, with a lemma for the exact condition where there is one.

- Tracker: a walk in retry mode throws when the window ends behind the pieces, which can only happen
  after a file has been completed once, and does (`ReportThrows`, `NeverThrowsBeforeRestart`,
  `ThrowsInSomeOrder`, `ThrowsAfterCompletion`, `ThirteenPiecesThrow`). The retry limit has no effect
  (`RetryLimitIsRedundant`). A run that does not start at the file's first piece is announced although the
  beginning may be missing (`IncreasingRunSound`, `MissingStartAnnounced`). After a completion the published
  numbers can go down (`NumbersStayUp` and `ReplayNumbers` have the exact conditions, `ThirteenThenEight` an
  input).
- Notifications: the test of the state before delivery is always true, so every notification is delivered.
- Closed ranges: the last chunk is read at full size, so more or fewer bytes than advertised can be sent
  (`ClosedRangeLength`, `RangesMissed`).
- Ranges: an open range with a start above 0 states a length that is one too large (`OpenRangeReply`), `-n`
  means the first n + 1 positions (`SuffixRangeReply`), and `bend_2` is never reset
  (`src/common/http_utility/http_utility.cpp:165`).
- Framing: a worker keeps its buffer from one client to the next (`LeftoverChangesFraming`), and a request
  with an unknown HTTP version keeps the content length of the request before it, so that the requests
  behind it can be lost (`BodylessBoundary`, `StaleLengthLosesRequest`, `GetIsLost`).
- Shutdown: the starting thread increments the worker counter without the mutex, so the increment can be
  lost when a worker fails at once (`LostIncrement`, `ReturnDecides`).
- URL encoder: an escape that does not fit is passed over but the characters after it are still encoded,
  and the place it leaves keeps whatever was in the buffer (`UrlEncode`).
- Path cleaning: two dots at the very start of a path stay (`ParentOnlyInFront`).

## Model

| member | source | states |
|---|---|---|
| TrackedFile.FileInfo.constructor | src/core/torrent_core/torrent_info.cpp:106-147 | a new tracker record has the state computed from the file's place in the torrent, and satisfies the invariant |
| TrackedFile.FileInfo.UpdateCounters | src/core/torrent_core/torrent_info.cpp:54-66 | the three counters and a running retry counter go up together, and nothing moves once all pieces are counted |
| TrackedFile.FileInfo.ScanWindow | src/core/torrent_core/torrent_info.cpp:242-256 | the walk over the window ends where the specification's walk ends, or throws where it leaves the vector |
| TrackedFile.FileInfo.CloseWindow | src/core/torrent_core/torrent_info.cpp:258-276 | a finished window moves the positions and the announced bytes, an unfinished one starts a retry |
| TrackedFile.FileInfo.Report | src/core/torrent_core/torrent_info.cpp:229-281 | one piece of the file: the fields become those of the specification, also when the exception is thrown |
| TrackedFile.FileInfoUpdate | src/core/torrent_core/torrent_info.cpp:218-285 | the records become what the list-level specification says: only the first file that the piece overlaps is updated; the result names it exactly when it announces more, and the exception is passed on |
| TorrentFiles.FirstInRangeAt | src/core/torrent_core/torrent_info.cpp:225-229 | the file that is credited is the first one in the list that the piece overlaps |
| TrackedFile.FileInfo.Reinit | src/core/torrent_core/torrent_info.cpp:287-294 | a completed file starts counting again and keeps the end of its window and its announced bytes |
| SequentialTracker.FreshInv | src/core/torrent_core/torrent_info.cpp:106-147 | the tracker invariant holds at the start: counters equal and within the pieces, unused slots at INT_MAX, positions in order |
| SequentialTracker.WindowLength | src/core/torrent_core/torrent_info.cpp:78-84 | how many blocks a window has, in every case of what may be downloaded ahead |
| SequentialTracker.ReportInv | src/core/torrent_core/torrent_info.cpp:218-285 | any piece, in any order, keeps the invariant, the announced bytes never decrease, and an announcement is made exactly when they increase |
| SequentialTracker.ReportThrows | src/core/torrent_core/torrent_info.cpp:244-256 | the range exception is thrown exactly on a retry whose window ends behind the pieces |
| SequentialTracker.RetryLimitIsRedundant | src/core/torrent_core/torrent_info.cpp:234-238 | a check is due exactly when the window is full and pieces are missing; the retry limit decides nothing |
| SequentialTracker.ScanStopsAtGap | src/core/torrent_core/torrent_info.cpp:242-256 | without a retry the walk stops at the first gap and stays inside the vector |
| SequentialTracker.ScanRunsOff | src/core/torrent_core/torrent_info.cpp:242-256 | with a retry the walk passes gaps and leaves the vector exactly when the window ends behind it |
| SequentialTracker.CheckInv | src/core/torrent_core/torrent_info.cpp:229-281 | sorting, walking and closing a window keep the invariant |
| TrackerRuns.AnyOrder | src/core/torrent_core/torrent_info.cpp:218-294 | after any alerts in any order, exceptions included, the invariant holds, av_pieces[0..total) is a permutation of the first reports since the last completion, and announced bytes have not decreased |
| TrackerRuns.CheckSorts | src/core/torrent_core/torrent_info.cpp:238-241 | after a window check the remembered pieces are sorted |
| TrackerRuns.NeverThrowsBeforeRestart | src/core/torrent_core/torrent_info.cpp:218-285 | until a file completes for the first time no order of pieces makes the tracker throw |
| TrackerRuns.IncreasingRun | src/core/torrent_core/torrent_info.cpp:218-285 | pieces in increasing order: the announced bytes in closed form, through the first window's retry and all later windows |
| TrackerRuns.IncreasingRunLag | src/core/torrent_core/torrent_info.cpp:218-285 | while pieces are missing the announcement is at most what was counted and at most chocked_range blocks behind it |
| TrackerRuns.IncreasingRunSound | src/core/torrent_core/torrent_info.cpp:218-285 | after n consecutive pieces from any piece on, and with m leading pieces of the file on disk, the announcement is on disk if and only if fewer than m pieces are announced, or m of a file that starts with a piece, or none; the number announced is a closed form of n |
| TrackerRuns.NothingAnnounced | src/core/torrent_core/torrent_info.cpp:236-237 | when that number is 0, as bounds on n |
| TrackerRuns.WithoutGapSound | src/core/torrent_core/torrent_info.cpp:218-285 | with no gap from the first piece on, the announcement is always on disk |
| TrackerRuns.MissingStartAnnounced | src/core/torrent_core/torrent_info.cpp:272-276 | a concrete file of thirteen bytes of which ten are announced although its first piece is missing |
| TrackerRuns.SmallFileWaits | src/core/torrent_core/torrent_info.cpp:218-285 | a file over one or two pieces is announced by its completion only |
| TrackerRuns.WindowStartStep | src/core/torrent_core/torrent_info.cpp:258-276 | the closed form moves by one window each time one is filled |
| TrackerRuns.BlocksLag | src/core/torrent_core/torrent_info.cpp:258-276 | the closed form lags at least one block and at most one window |
| TrackerWindows.SortedWindows | src/core/torrent_core/torrent_info.cpp:239-241 | when pieces come window by window, in any order inside each, sorting what was reported puts the pieces of all whole windows at their places |
| TrackerWindows.CheckCovered | src/core/torrent_core/torrent_info.cpp:242-281 | a check on such pieces announces only pieces that were reported, and one more was reported behind them |
| TrackerWindows.ReportTidy | src/core/torrent_core/torrent_info.cpp:218-285 | every report of such a run keeps that |
| TrackerWindows.WindowsSound | src/core/torrent_core/torrent_info.cpp:218-285 | when the pieces of a file arrive window by window, in any order inside each window, every announced byte lies in a piece that was reported, or before the piece that the windows start with |
| TrackerWindows.ConsecutiveInWindows | src/core/torrent_core/torrent_info.cpp:218-285 | pieces in increasing order are such a run |
| TrackerRestarts.HealthyAlways | src/core/torrent_core/torrent_info.cpp:218-294 | whatever a tracker is told, in any order and with any number of completions, the bounds hold that the results on completed files rest on |
| TrackerRestarts.AnyOrderBounded | src/core/torrent_core/sequential_torrent_controller.cpp:357-360 | so what pieces announce is less than the file by at least its last two pieces, and the clamp to the file's size never acts |
| TrackerRestarts.ReplayRun | src/core/torrent_core/torrent_info.cpp:218-294 | after a completion, pieces in order: all counters in closed form, through the retries of the window that was left open and all later windows |
| TrackerRestarts.RunLimited | src/core/torrent_core/torrent_info.cpp:218-294 | after a completion, pieces in any order announce no more than all of them do in order |
| TrackerRestarts.RestartThrows | src/core/torrent_core/torrent_info.cpp:244-256 | a restarted tracker that is fed with consecutive pieces throws on exactly those behind the first full window and before the last two, if the window that was left open ends behind the pieces |
| TrackerRestarts.ThrowsAfterCompletion | src/core/torrent_core/torrent_info.cpp:287-294 | the same after the completion of a file with any history |
| TrackerRestarts.ThrowsInSomeOrder | src/core/torrent_core/torrent_info.cpp:244-294 | after a completion some order of pieces makes the tracker throw if and only if the window that was left open ends behind the pieces and is full before the last two |
| TrackerRestarts.ThrowsOnReplay | src/core/torrent_core/torrent_info.cpp:287-294 | for a file whose pieces come in order twice, the condition in terms of the number of pieces and the window length |
| TrackerRestarts.ThirteenPiecesThrow | src/core/torrent_core/torrent_info.cpp:244-246 | a concrete file for which it throws |
| TrackerRestarts.NumbersGrow | src/core/torrent_core/sequential_torrent_controller.cpp:357-360 | between completions the published numbers never decrease, for any alerts in any order |
| TrackerRestarts.NumbersAfterCompletion | src/core/torrent_core/sequential_torrent_controller.cpp:375-379 | after a completion every number that a piece publishes is below the size, so the numbers stay up if and only if the pieces announce no more than before it |
| TrackerRestarts.NumbersStayUp | src/core/torrent_core/sequential_torrent_controller.cpp:375-379 | no order of pieces makes the numbers go down after a completion if and only if as many bytes were announced before it as a closed form of the window length, the end of the open window and the number of pieces |
| TrackerRestarts.ReplayNumbers | src/core/torrent_core/sequential_torrent_controller.cpp:375-379 | for n pieces in order: what is announced, and the same condition, in closed form of n |
| TrackerRestarts.RestartAnnounces | src/core/torrent_core/torrent_info.cpp:272-276 | each piece announces a number if and only if the closed form rises above what was ever announced, and then announces the closed form |
| TrackerRestarts.FirstNumber | src/core/torrent_core/sequential_torrent_controller.cpp:357-379 | the first number that is published after a completion, and when |
| TrackerRestarts.ThirteenThenEight | src/core/torrent_core/sequential_torrent_controller.cpp:375-379 | a concrete file that publishes 13 and then 8 |
| Sorting.SortedSorts | src/core/torrent_core/torrent_info.cpp:239-241 | the library sort used for partial_sort sorts |
| Sorting.SortedPermutes | src/core/torrent_core/torrent_info.cpp:239-241 | and permutes |
| NotificationUnit.Worker.AddNotification | src/common/notification_model/notification_unit.cpp:46-53 | a notification is accepted exactly when work is not stopped and at most max_notifications are pending |
| NotificationUnit.Worker.CopyPendingNotifications | src/common/notification_model/notification_unit.cpp:69-82 | all pending notifications move behind the undelivered ones, in order |
| NotificationUnit.Worker.NotifyReceiver | src/common/notification_model/notification_unit.cpp:84-98 | all notifications of the worker are delivered in order, also those in the states ignore and done |
| NotificationUnit.MayDeliver | src/common/notification_model/notification_unit.cpp:89-90 | the test of the state before a delivery holds for every state |
| NotificationUnit.AddAccepts | src/common/notification_model/notification_unit.cpp:46-53 | a notification is accepted, as the last one, exactly when work is not stopped and at most max_notifications are pending; otherwise nothing changes |
| NotificationUnit.NextConserves | src/common/notification_model/notification_unit.cpp:46-124 | every step keeps accepted == delivered ++ in transit ++ pending, and pending within max_notifications + 1 |
| NotificationUnit.RunConserves | src/common/notification_model/notification_unit.cpp:46-124 | in every interleaving of producers, stop request and worker: delivery in order, at most once, nothing lost in between |
| NotificationUnit.NotifyDrains | src/common/notification_model/notification_unit.cpp:84-98 | the delivery loop left alone hands over its k oldest notifications in 2k steps |
| NotificationUnit.RunWorks | src/common/notification_model/notification_unit.cpp:100-124 | as long as nobody asks it to stop the worker is in its loop, and it is asked exactly by a stop |
| NotificationUnit.EverythingIsDelivered | src/common/notification_model/notification_unit.cpp:69-124 | from any such state the worker alone delivers everything that was accepted |
| NotificationUnit.ExitDelivers | src/common/notification_model/notification_unit.cpp:100-124 | at its exit it delivers everything if it is to drain and something is pending, otherwise nothing more |
| FileInfoBuffer.Infos.OnFileAdd | src/core/http_server/details/file_info_buffer.hpp:76-99 | a new path gets a record with no bytes; a known path has its sizes reset and its subscribers are not told |
| FileInfoBuffer.Infos.OnFileUpdate | src/core/http_server/details/file_info_buffer.cpp:91-107 | the record of the path and every stream subscribed to it get the new number, no other stream does and none is broken; an unknown path changes nothing |
| FileInfoBuffer.Infos.OnFileRemove | src/core/http_server/details/file_info_buffer.cpp:76-89 | the record leaves the table, exactly its subscribers are broken, and nobody is told a number |
| FileInfoBuffer.Infos.GetInfo | src/core/http_server/details/file_info_buffer.cpp:109-118 | exactly the record of the path, or nothing |
| FileInfoBuffer.Infos.RegistrSubscriber | src/core/http_server/details/file_info_buffer.cpp:40-48 | the subscriber is appended and told the present number at once, under the same lock |
| FileInfoBuffer.Infos.OnNotify | src/core/http_server/details/file_info_buffer_realtime_updater.cpp:18-38 | each kind of notification performs its buffer operation, with what each waiting stream hears of it |
| FileInfoBuffer.ApplyFolds | src/core/http_server/details/file_info_buffer_realtime_updater.cpp:18-38 | the table after a notification is the fold step of the table before it, whatever records and subscribers there are |
| FileInfoBuffer.AddFolds | src/core/http_server/details/file_info_buffer.hpp:76-99 | adding a path shows as that path with its size and no bytes, and leaves every other path alone |
| FileInfoBuffer.UpdateFolds | src/core/http_server/details/file_info_buffer.cpp:91-107 | updating shows as the new number for that path only, although records are shared by reference |
| FileInfoBuffer.RemoveFolds | src/core/http_server/details/file_info_buffer.cpp:76-89 | removing shows as the path being gone and nothing else |
| FileInfoBuffer.RegisterKeepsView | src/core/http_server/details/file_info_buffer.cpp:40-48 | subscribing does not change what the table shows |
| FileInfoBuffer.UpdateTells | src/core/http_server/details/file_info_buffer.cpp:91-107 | an update tells the number to exactly the streams that wait on the record of the path, and breaks none |
| FileInfoBuffer.RemoveBreaks | src/core/http_server/details/file_info_buffer.cpp:76-89 | removing a path breaks exactly those |
| FileInfoBuffer.RegisterTells | src/core/http_server/details/file_info_buffer.cpp:40-48 | a new subscriber joins the record and is told its number, and nobody else is affected |
| FileInfoBuffer.AddKeepsSubscribers | src/core/http_server/details/file_info_buffer.hpp:76-99 | adding a path tells nobody, and a known path keeps its subscribers |
| FileInfoBuffer.SubscribersStay | src/core/http_server/details/file_info_buffer.cpp:76-107 | updating and removing a path changes nobody's subscription |
| ChunkedStream.HsChunkedOstream.WaitForBytes | src/core/http_server/details/hs_chunked_ostream_impl.cpp:130-148 | success exactly when the stream is not broken and enough bytes are announced, whatever callbacks arrive meanwhile; at once if they were announced before |
| ChunkedStream.HsChunkedOstream.SendChunk | src/core/http_server/details/hs_chunked_ostream_impl.cpp:89-115 | what is written is the part of the file at the seek position, and success means all that was read was written |
| ChunkedStream.HsChunkedOstream.WriteContent | src/core/http_server/details/hs_chunked_ostream_impl.cpp:61-124 | on every outcome one contiguous slice from read_start is written, and what of it lies in the range was announced before; it fails only if the stream is broken, an open, read or write has failed, or neither the next chunk nor the rest of the range is announced; success with full reads ends where the length lemmas below compute; a broken stream writes nothing more; the loop terminates |
| ChunkedStream.HsChunkedOstream.OnBytesAvaliableChange | src/core/http_server/details/hs_chunked_ostream_impl.cpp:35-44 | the stream takes over the number it is told |
| ChunkedStream.HsChunkedOstream.OnBreak | src/core/http_server/details/hs_chunked_ostream_impl.cpp:46-55 | the stream is broken |
| ChunkedStream.OpenRangeEnd | src/core/http_server/details/hs_chunked_ostream_impl.cpp:74-121 | with full reads a range up to the file size ends exactly at the end of the file |
| ChunkedStream.ClosedRangeLength | src/core/http_server/details/hs_chunked_ostream_impl.cpp:74-121 | a closed range a..b gets exactly the advertised b - a + 1 bytes if and only if the chunks end there: the condition in terms of b - a, the chunk size and the file size |
| ChunkedStream.RangesMissed | src/core/http_server/details/hs_chunked_ostream_impl.cpp:74-121 | two ranges that get one byte too few and two bytes too many |
| ChunkedStream.WaitsForNextChunk | src/core/http_server/details/hs_chunked_ostream_impl.cpp:77-83 | what is waited for is there exactly when the whole next chunk is, or all of the range |
| ChunkedStream.GoesOn | src/core/http_server/details/hs_chunked_ostream_impl.cpp:110-120 | behind a chunk that was written the loop goes on, or ends, in terms of position, chunk and range |
| TorrentCore.NextInv | src/core/torrent_core/sequential_torrent_controller.cpp:224-274 | every alert of every torrent, in any order, keeps all trackers consistent |
| TorrentCore.FilesInOrder | src/core/torrent_core/torrent_info.cpp:106-147 | the files of a torrent lie one behind the other from its first byte on |
| TorrentCore.AddPublishes | src/core/torrent_core/sequential_torrent_controller.cpp:224-274 | adding a torrent publishes each of its files with its path and size, in order |
| TorrentCore.PiecePublishes | src/core/torrent_core/sequential_torrent_controller.cpp:344-365 | a finished piece publishes a number exactly when the announced bytes of a file grow: for that file, and at most its size |
| TorrentCore.CompletionPublishes | src/core/torrent_core/sequential_torrent_controller.cpp:366-399 | a completion publishes the size, and the tracker of that file starts again |
| TorrentCore.DeletePublishes | src/core/torrent_core/sequential_torrent_controller.cpp:383-399 | deleting a torrent publishes that its files are gone |
| TorrentCore.OutboxIsKept | src/core/torrent_core/sequential_torrent_controller.cpp:224-399 | no alert drops a message that still has to be sent |
| TorrentCore.PieceReachesDisk | src/core/torrent_core/sequential_torrent_controller.cpp:344-361 | a piece that reaches the disk is there before it is reported, and nothing else has changed |
| TorrentOrder.CreditedIff | src/core/torrent_core/torrent_info.cpp:225-229 | in a torrent whose files lie one behind the other, a piece is credited to file k if and only if it is one of its pieces and not a first piece in which the file before ends |
| TorrentOrder.PieceKeepsFile | src/core/torrent_core/torrent_info.cpp:218-285 | a piece of the window that its file is in, or the first of the next one, keeps the announcements of every file on disk |
| TorrentOrder.PieceKeepsIncreasing | src/core/torrent_core/torrent_info.cpp:218-285 | when the pieces of a torrent finish in increasing order, each file sees its own from its first credited piece on, without a gap |
| TorrentOrder.InOrderIsOrderly | src/core/torrent_core/sequential_torrent_controller.cpp:224-274 | torrents whose pieces finish in increasing order are a special case of such window by window runs, at every step |
| TorrentOrder.AnnouncedThere | src/core/torrent_core/sequential_torrent_controller.cpp:357-360 | when the pieces of each file finish window by window, what its tracker announces is on disk, also for a file that starts in the middle of a piece credited to another file |
| TorrentOrder.NextSound | src/core/torrent_core/sequential_torrent_controller.cpp:344-399 | every step of an orderly run keeps that |
| TorrentOrder.NextTruthful | src/core/torrent_core/sequential_torrent_controller.cpp:344-399 | in an orderly run every announcement is on disk when it is made |
| TorrentOrder.TruthStays | src/core/torrent_core/sequential_torrent_controller.cpp:344-399 | and stays there, in the torrent and file that the announcement names |
| Pipeline.NextInv | src/core/torrent_core/sequential_torrent_controller.cpp:224-399 | every step of publisher, notification worker and streams keeps the end-to-end invariant, whatever the order of alerts |
| Pipeline.StreamingIsSafe | src/core/http_server/http_server_core.cpp:160-235 | in every interleaving, for pieces in any order and paths used again, each byte that was sent and that the client had asked for (of a request without an end: each byte below a size that was delivered for the path) is below the number its stream had been told, which a delivered message announced for that path |
| Pipeline.BufferShowsPrefix | src/core/http_server/details/file_info_buffer_realtime_updater.cpp:18-38 | in every interleaving the buffer's table is the fold of a prefix of the accepted notifications, and all of those were published |
| Pipeline.DeliverStep | src/core/external_api/hc_event_source_adapter.cpp:27-63 | what is delivered was published, and a delivery extends the fold by one event |
| Pipeline.OrderlyIsTruthful | src/core/torrent_core/sequential_torrent_controller.cpp:344-399 | when the torrents are orderly, everything published is on disk |
| Pipeline.OrderlyStreamsFromDisk | src/core/http_server/http_server_core.cpp:160-235 | then each byte that was sent and that the client had asked for is on disk, in the very torrent and file whose announcement let it be sent |
| Pipeline.RequestsWereMade | src/core/http_server/http_server_core.cpp:160-235 | what a stream sends belongs to the path and the request of a look-up |
| Pipeline.TableShowsLatest | src/core/http_server/details/file_info_buffer_realtime_updater.cpp:18-38 | the table shows what the last event about a path says |
| Pipeline.StreamsAreUpToDate | src/core/http_server/details/file_info_buffer.cpp:40-107 | in every interleaving a stream that subscribed while its record was in the table is unbroken exactly as long as it is there, and then has been told the last number announced for the path, unless the path was added anew since |
| Progress.StreamsSendInOrder | src/core/http_server/details/hs_chunked_ostream_impl.cpp:74-121 | in every interleaving every stream sends one chunk behind the other from the start it asked for |
| Progress.OneBehindTheOther | src/core/http_server/details/hs_chunked_ostream_impl.cpp:74-121 | of two chunks of a stream with none of it between them the later starts where the other ends |
| Progress.FirstChunk | src/core/http_server/details/hs_chunked_ostream_impl.cpp:74-121 | its first chunk starts at that start |
| Progress.ArrivedProceeds | src/core/http_server/details/hs_chunked_ostream_impl.cpp:77-89 | a waiting stream gets to send exactly when it is not broken and has been told of the whole next chunk or of all that was asked for |
| Progress.SendProceeds | src/core/http_server/details/hs_chunked_ostream_impl.cpp:89-120 | a chunk that was read and written goes out, and the stream waits for the next one or ends |
| Progress.Serve | src/core/http_server/details/hs_chunked_ostream_impl.cpp:61-124 | a stream can be served to the end of what was asked for, or to where the next chunk is not announced |
| Progress.PublishAll | src/common/notification_model/notification_unit.cpp:46-124 | all messages that wait to be sent can be delivered, in their order |
| Progress.CompletedFileIsServed | src/core/http_server/http_server_core.cpp:212-235 | from every reachable state without a stop: when a torrent is added and a file of it completed, there is a run in which a stream that asks for the whole file sends every byte of it, in order |
| EventRing.Unlink | src/common/utility/basic_events.hpp:30-35 | the neighbours of a node become each other's, the node becomes a ring of one, everything else stays |
| EventRing.AttachAfter | src/common/utility/basic_events.hpp:49-54 | the ring with the node inserted behind the given one, linked in both directions |
| EventRing.EventSource.Unbind | src/common/utility/basic_events.hpp:30-35 | the ring without the binder; nothing happens to a binder on its own |
| EventRing.EventSource.Bind | src/common/utility/basic_events.hpp:118-127 | the binder leaves its place and becomes the first of the ring with the new sink |
| EventRing.EventSource.BindFrom | src/common/utility/basic_events.hpp:118-127 | the same from the ring of another source, which is that ring without the binder then |
| EventRing.EventSource.Adopt | src/common/utility/basic_events.hpp:17-22 | a binder on its own can be bound |
| EventRing.EventSource.CallSink | src/common/utility/basic_events.hpp:95-101 | a sink that unbinds anything, itself included, leaves the bookmark where the walk has to go on, and no bookmark stays |
| EventRing.EventSource.PostEvent | src/common/utility/basic_events.hpp:90-104 | terminates, calls what the bookmark-free walk calls, in that order, and leaves a well-formed ring that is the old one minus the unbound |
| EventRing.WalkCallsOnce | src/common/utility/basic_events.hpp:93-103 | only binders of the ring with a sink are called, each at most once |
| EventRing.WalkInRingOrder | src/common/utility/basic_events.hpp:93-103 | the calls are made in the order of the ring |
| EventRing.CalledIffBoundAtItsTurn | src/common/utility/basic_events.hpp:93-103 | a binder with a sink is called if and only if no call before it in the ring has unbound it |
| EventRing.BookmarkSplits | src/common/utility/basic_events.hpp:96-99 | whatever is unbound around it, the bookmark separates what remains before it from what remains behind it |
| EventRing.KeepCut | src/common/utility/basic_events.hpp:30-35 | removing one node by position is removing it by identity |
| Md5.Context.Count | src/common/network/details/mongoose.c:2089-2095 | both counter words with carry: 64-bit addition of the length in bits, modulo 2^64 |
| Md5.Context.Used | src/common/network/details/mongoose.c:2097-2097 | the low counter word determines how full the block buffer is |
| Md5.Context.FinishBlock | src/common/network/details/mongoose.c:2099-2112 | a started block is completed and folded |
| Md5.Context.FoldBlocks | src/common/network/details/mongoose.c:2114-2120 | all whole blocks of the data are folded |
| Md5.Context.Update | src/common/network/details/mongoose.c:2089-2123 | keeps the invariant (chain folds all whole blocks, buffer holds the rest, counter is the length) and appends the data to the message |
| Md5.Context.Pad | src/common/network/details/mongoose.c:2125-2142 | the one or two last blocks: what is folded and what is in the buffer are the padded message before its length |
| Md5.Context.Final | src/common/network/details/mongoose.c:2125-2151 | the digest is the fold over the padded message, length modulo 2^64 with its low byte first, and the context is wiped |
| Md5.AbsorbAppend | src/common/network/details/mongoose.c:2114-2120 | folding in two portions of whole blocks is folding at once |
| Md5.LengthWords | src/common/network/details/mongoose.c:2144-2145 | the two words written are the low and the high word of the length in bits modulo 2^64 |
| Md5.PaddedOneBlock | src/common/network/details/mongoose.c:2129-2142 | padding that fits one block |
| Md5.PaddedTwoBlocks | src/common/network/details/mongoose.c:2129-2142 | padding that needs a second block |
| Md5.LittleEndianValue | src/common/network/details/mongoose.c:2144-2149 | a word is written so that the byte at index i counts 256^i |
| Md5.PaddedMeans | src/common/network/details/mongoose.c:2125-2145 | the padded message: whole blocks, the message, 0x80, as few zeros as possible, and eight bytes that stand for the length in bits modulo 2^64 |
| Md5.BytesMean | src/common/network/details/mongoose.c:2148-2149 | the sixteen bytes of a digest stand for the four words of the chain |
| Md5.DigestMeans | src/common/network/details/mongoose.c:2125-2151 | so the digest stands for what the padded message folds to |
| Md5.InitialBytes | src/common/network/details/mongoose.c:1997-2005 | the initial chain is the bytes 01 23 .. 32 10 |
| Md5.MgMd5 | src/common/network/details/mongoose.c:2167-2183 | the digest of the concatenation, in hexadecimal, of strings whose length is first cut to 32 bits; of the strings themselves when they are shorter than 2^32 |
| Md5.Bin2Str | src/common/network/details/mongoose.c:2156-2164 | two lower-case digits for each byte |
| Md5.HexDecodes | src/common/network/details/mongoose.c:2156-2164 | the digits give every byte back |
| Glob.MatchPrefix | src/common/network/details/mongoose.c:859-896 | the answer of the first alternative that describes a non-empty prefix, otherwise that of the last; terminates |
| Glob.MatchAlternative | src/common/network/details/mongoose.c:869-896 | without a bar: the length of the longest described prefix, or -1 exactly when there is none |
| Glob.MatchStar | src/common/network/details/mongoose.c:876-890 | trying runs for a star from the longest down finds the longest match |
| Glob.LaterIsLonger | src/common/network/details/mongoose.c:887-890 | why the first hit is the longest match: of two places where the rest matches, the later one reaches at least as far |
| Glob.StarLongest | src/common/network/details/mongoose.c:876-890 | the longest run that lets the rest match gives the longest match of the whole |
| Glob.AnswerSound | src/common/network/details/mongoose.c:859-868 | a positive answer is described by some alternative, and there is one if and only if some alternative describes a non-empty prefix |
| Glob.AnswerUnique | src/common/network/details/mongoose.c:859-868 | pattern and string determine the answer |
| Glob.SpanStops | src/common/network/details/mongoose.c:878-883 | a single star runs exactly as far as there is no slash |
| Glob.LiteralMatches | src/common/network/details/mongoose.c:891-893 | a pattern without special characters describes itself |
| Glob.PlainThen | src/common/network/details/mongoose.c:869-896 | ordinary characters and question marks in front of a pattern describe as many characters, one each |
| Glob.PlainMatches | src/common/network/details/mongoose.c:869-896 | on their own they describe exactly the prefix of their length, if they describe that |
| Glob.WholeMatches | src/common/network/details/mongoose.c:873-875 | with a dollar sign behind them they describe exactly the whole string |
| Glob.SuffixMatches | src/common/network/details/mongoose.c:869-896 | a star, such characters and a dollar sign describe exactly the whole of each string that ends so, behind anything without a slash, or for two stars behind anything |
| RequestFraming.GetRequestLen | src/common/network/details/mongoose.c:1785-1803 | the scan of the buffer gives the length that the declarative lemmas below characterise |
| RequestFraming.CompleteHead | src/common/network/details/mongoose.c:1785-1803 | length r is answered if and only if r ends the first empty line and no forbidden character comes before it |
| RequestFraming.MalformedHead | src/common/network/details/mongoose.c:1785-1803 | malformed is answered if and only if a forbidden character, not the last in the buffer, comes before any empty line |
| RequestFraming.AnswerIsStable | src/common/network/details/mongoose.c:1785-1803 | an answer other than incomplete is not changed by any bytes that follow |
| RequestFraming.Connection.constructor | src/common/network/details/mongoose.c:4737-4742 | a worker's record starts with an empty buffer of 16384 bytes and content length 0 |
| RequestFraming.Connection.Pull | src/common/network/details/mongoose.c:1475-1492 | a read takes the next bytes of the stream, nothing only at its end; it fails exactly when the socket does or the server is stopping, and takes none in the first case |
| RequestFraming.Connection.ReadRequest | src/common/network/details/mongoose.c:2875-2893 | for any way the stream is cut into reads: the length of the first request of the stream cut at the buffer size, and the stream is conserved; nothing is read when the buffer has the answer, and it fails only after a failed read |
| RequestFraming.Connection.ParseHttpRequest | src/common/network/details/mongoose.c:2832-2863 | scanning the whole buffer with stale bytes behind the data finds the same length, and what the header block means depends on its bytes only |
| RequestFraming.Connection.MgRead | src/common/network/details/mongoose.c:1494-1537 | gives out the body bytes of the stream in order, from buffer and socket, never beyond the content length, short only at the end of the stream, and negative exactly after a failed read |
| RequestFraming.Connection.HandleOne | src/common/network/details/mongoose.c:4659-4684 | a valid request of a known version sets the content length; any other leaves the one of the request before it, and nothing of its body is read |
| RequestFraming.HandledBoundary | src/common/network/details/mongoose.c:4690-4694 | behind a handled request the next one is looked for in the right place if and only if its body was all buffered or all read |
| RequestFraming.UnhandledBoundary | src/common/network/details/mongoose.c:4690-4694 | behind any other request, in terms of the content length of the request before it and what is buffered |
| RequestFraming.BodylessBoundary | src/common/network/details/mongoose.c:4668-4694 | behind a request without a body, if and only if it was handled, or the old content length is 0, or nothing else is buffered |
| RequestFraming.StaleLengthLosesRequest | src/common/network/details/mongoose.c:4666-4696 | on a fresh connection, a request with a body, one of unknown version and a third that is not longer than that body, all buffered: the third is lost |
| RequestFraming.LinesAreHead | src/common/network/details/mongoose.c:1785-1803 | printable lines and an empty line are one header block |
| RequestFraming.GetIsLost | src/common/network/details/mongoose.c:4666-4701 | such requests, written out with their header lines |
| RequestFraming.Connection.Finish | src/common/network/details/mongoose.c:4659-4696 | one request: what was passed over follows from the content length, what was buffered and what was read |
| RequestFraming.Connection.Discard | src/common/network/details/mongoose.c:4690-4696 | what remains is the stream behind the header block and the part of the body that was passed over |
| RequestFraming.Connection.Serve | src/common/network/details/mongoose.c:4642-4696 | one turn of the loop: the next request is answered, or why there is none |
| RequestFraming.Connection.ProcessNewConnection | src/common/network/details/mongoose.c:4642-4702 | the requests handled are framed pieces of the stream one behind the other, each what its header block says, with the content length it had or inherited; a request that is in the buffer is handled first; all but the last one were kept alive, and the ending tells why there are no more: the last is not kept alive, a read failed, or the rest is malformed, too large or incomplete |
| RequestFraming.RequestsInOrder | src/common/network/details/mongoose.c:4642-4702 | with right boundaries the requests handled are the first of the stream, and the rest starts with the next one |
| RequestFraming.RequestsWithBodies | src/common/network/details/mongoose.c:4642-4702 | so handled requests whose bodies were all buffered or all read are cut at exact boundaries |
| RequestFraming.BodylessRequests | src/common/network/details/mongoose.c:4642-4702 | and so are requests without bodies, each handled, or behind a content length of 0, or with nothing else buffered |
| RequestFraming.Connection.NextClient | src/common/network/details/mongoose.c:4746-4767 | the worker's next client: bytes left in the buffer come before its stream |
| RequestFraming.LeftoverChangesFraming | src/common/network/details/mongoose.c:4642-4651 | every stream of that client is framed as its own if and only if nothing was left in the buffer |
| SocketQueue.Context.ProduceSocket | src/common/network/details/mongoose.c:4782-4800 | waits exactly on a full queue that is not stopping, otherwise appends if there is room |
| SocketQueue.Context.ConsumeSocket | src/common/network/details/mongoose.c:4705-4732 | waits exactly on an empty queue that is not stopping, otherwise hands out the oldest socket, if any; serving it is refused when stopping |
| SocketQueue.WrapKeepsContents | src/common/network/details/mongoose.c:4722-4725 | lowering both counters keeps the meaning of every slot and brings the tail to at most 20 |
| SocketQueue.StepRefinesFifo | src/common/network/details/mongoose.c:4705-4800 | each section under the mutex is a step of a FIFO with 20 places and keeps the invariant |
| SocketQueue.RunSplits | src/common/network/details/mongoose.c:4705-4800 | actions are performed one after the other |
| SocketQueue.RunIsFifo | src/common/network/details/mongoose.c:4705-4800 | in every interleaving of a producer and any number of consumers: produced == handed out ++ contents, 0 <= head - tail <= 20, tail <= 20, head <= 40, and stopping exactly after a stop |
| SocketQueue.NoDeadlock | src/common/network/details/mongoose.c:4709-4712 | producer and consumers never wait at the same time, and when stopping nobody waits |
| Shutdown.StepKeepsInv | src/common/network/details/mongoose.c:4734-4779 | every step of starter, workers, master and stopper keeps the invariant, given a right counter when mg_start returns |
| Shutdown.RunIsSafe | src/common/network/details/mongoose.c:4873-4942 | over whole runs the invariant holds if the counter covers the workers when mg_start returns |
| Shutdown.SafeWithoutEarlyFailure | src/common/network/details/mongoose.c:5020-5030 | it does in every run in which no worker runs out of memory before that; from then on the counter is exactly the number of workers before their decrement |
| Shutdown.NothingAfterFree | src/common/network/details/mongoose.c:4930-4942 | once the context is freed no step of any thread is possible that would use it |
| Shutdown.NothingAfterDestroy | src/common/network/details/mongoose.c:4886-4890 | once the master destroys the mutex no worker can take any step |
| Shutdown.ReturnDecides | src/common/network/details/mongoose.c:5020-5032 | everything that can happen after mg_start returns is safe if and only if the counter covers the workers then |
| Shutdown.LostIncrement | src/common/network/details/mongoose.c:5024-5030 | a reachable state where it does not: the unlocked increment of the starting thread is lost against the decrement of a worker without memory |
| Shutdown.CheckKeepsInv | src/common/network/details/mongoose.c:4879-4884 | the master leaves its wait only when every worker has unlocked the mutex for the last time |
| RequestParser.Consume | src/common/http_utility/http_request_parser.cpp:65-366 | the last header exists wherever it is written to, and a decision leaves the parser as it was |
| RequestParser.CharacterClasses | src/common/http_utility/http_request_parser.cpp:10-38 | which characters are control characters, special, digits or part of a token |
| RequestParser.HttpRequestParser.ConsumeChar | src/common/http_utility/http_request_parser.cpp:65-366 | the in-place update of state and request on one character, for every state |
| RequestParser.HttpRequestParser.Parse | src/common/http_utility/http_request_parser.hpp:57-72 | the loop consumes up to and including the deciding character, and sets the method type then |
| RequestParser.HttpRequestParser.ResetState | src/common/http_utility/http_request_parser.cpp:57-60 | the parser is back at the start of a request |
| RequestParser.SplitInvariance | src/common/http_utility/http_request_parser.hpp:57-72 | any number of calls on pieces of the input gives the outcome of one call on the whole |
| RequestGrammar.Progress | src/common/http_utility/http_request_parser.cpp:65-366 | what has been read is always a half-written message of the grammar with exactly its fields |
| RequestLanguage.AcceptedIsWritten | src/common/http_utility/http_request_parser.cpp:65-366 | what is accepted is the written form of a good message |
| RequestLanguage.WrittenIsAccepted | src/common/http_utility/http_request_parser.cpp:65-366 | the written form of every good message is accepted, whatever follows |
| RequestLanguage.ParserIsExact | src/common/http_utility/http_request_parser.cpp:65-366 | true is answered if and only if the input starts with a written good message, which is exactly what was consumed and whose fields were extracted |
| RequestLanguage.PiecesAreExact | src/common/http_utility/http_request_parser.hpp:57-72 | the same over several parse calls, with the method type |
| RequestLanguage.CanFinish | src/common/http_utility/http_request_parser.cpp:65-366 | from every state some input completes a request |
| RequestLanguage.RefusesExactly | src/common/http_utility/http_request_parser.cpp:65-366 | false is answered if and only if the input neither starts with a good message nor is the start of one |
| RequestLanguage.HeaderBlockIsAccepted | src/common/http_utility/http_request_parser.cpp:253-355 | header lines with folding and the empty line are accepted from where a header line may start |
| HeaderPrinter.HttpReply.Put | src/common/http_utility/http_reply.cpp:157-181 | text is copied into place, or the access outside the buffer throws and nothing has changed |
| HeaderPrinter.HttpReply.AddHeaderDirectly | src/common/http_utility/http_reply.cpp:148-182 | name, separator and value are appended; a buffer that must not grow stays as it is and the call fails |
| HeaderPrinter.HttpReply.AddHeader | src/common/http_utility/http_reply.cpp:66-92 | one whole header line or nothing |
| HeaderPrinter.HttpReply.AddHeaders | src/common/http_utility/http_reply.cpp:66-92 | adding a list of headers one by one appends exactly their lines |
| HeaderPrinter.HttpReply.AddContent | src/common/http_utility/http_reply.cpp:94-121 | an empty line and the content; empty content is refused, a buffer that must not grow is emptied |
| HeaderPrinter.PrintedHeadersAreReadBack | src/common/http_utility/http_reply.cpp:66-92 | printed headers and the empty line are parsed to exactly that list if and only if every name is a non-empty token and no value has a control character |
| UrlCodec.UrlEncode | src/common/network/details/mongoose.c:2477-2495 | what is in the buffer on every buffer size; it is the encoding if and only if that is shorter than the buffer |
| UrlCodec.PlaceAll | src/common/network/details/mongoose.c:2482-2492 | the loop: what is left in the buffer, place by place, and nothing else changed |
| UrlCodec.FitsExactly | src/common/network/details/mongoose.c:2482-2492 | escapes that do not fit are dropped exactly when the whole encoding does not fit |
| UrlCodec.PlainCharacters | src/common/network/details/mongoose.c:2477-2485 | which characters stand for themselves |
| UrlCodec.PlacedPrefix | src/common/network/details/mongoose.c:2482-2492 | what fits is written and the encoder goes on behind it |
| UrlCodec.PlacedGap | src/common/network/details/mongoose.c:2482-2492 | an escape that does not fit leaves its first place as it was and the encoder goes on behind that |
| UrlCodec.UrlDecode | src/common/network/details/mongoose.c:1619-1643 | the decoded prefix that fits, also when the destination is the source |
| UrlCodec.EscapeDecodes | src/common/network/details/mongoose.c:1619-1643 | two hexadecimal digits in either case behind a percent sign give their value; of other characters only the plus sign changes, in a form |
| UrlCodec.RoundTrip | src/common/network/details/mongoose.c:1619-1643 | decoding an encoding gives the string back in both modes; a short buffer gets the prefix that fits |
| UrlCodec.UtilityUrlDecode | src/common/http_utility/http_utility.cpp:41-69 | decoded text and success as specified, with what the stream extraction accepts as two hexadecimal characters |
| UrlCodec.ExtractsExactly | src/common/http_utility/http_utility.cpp:41-69 | what two characters are extracted as, for digits, white space, signs and anything else |
| UrlCodec.SpaceCharacters | src/common/http_utility/http_utility.cpp:41-69 | which characters are white space there |
| UrlCodec.DigitValue | src/common/network/details/mongoose.c:1619-1643 | hexadecimal digits and their values, in lower and upper case; the encoder writes lower case |
| UrlCodec.UtilityRoundTrip | src/common/http_utility/http_utility.cpp:41-69 | the utility decoder gives an encoded string back |
| UrlCodec.EncodeThenDecode | src/common/network/details/mongoose.c:2477-2495 | encode then decode is the identity for both decoders, both modes and every large enough buffer |
| UrlCodec.DecodersAgree | src/common/http_utility/http_utility.cpp:41-69 | both decoders agree wherever every percent sign starts an escape |
| UriCleaner.RemoveDoubleDotsAndDoubleSlashes | src/common/network/details/mongoose.c:1850-1869 | in place, the string becomes its cleaned form with a terminator |
| UriCleaner.CleanInPlace | src/common/network/details/mongoose.c:1853-1867 | the write position never passes the read position, so the cleaned form replaces the string from its start |
| UriCleaner.CleanedIsClean | src/common/network/details/mongoose.c:1853-1867 | no slash or backslash is followed by another one or by two dots |
| UriCleaner.CleanMeans | src/common/network/details/mongoose.c:1853-1867 | clean means that no slash or backslash is followed by another one or by two dots |
| UriCleaner.UnchangedIffClean | src/common/network/details/mongoose.c:1850-1869 | a string is unchanged if and only if it was clean |
| UriCleaner.CleaningTwice | src/common/network/details/mongoose.c:1850-1869 | cleaning is idempotent |
| UriCleaner.CleanedIsSubsequence | src/common/network/details/mongoose.c:1853-1867 | the characters of the result stand at increasing places of the input, and only slashes, backslashes and dots at the others |
| UriCleaner.CleanedKeepsOthers | src/common/network/details/mongoose.c:1853-1867 | all characters other than slashes, backslashes and dots are kept in order |
| UriCleaner.ParentOnlyInFront | src/common/network/details/mongoose.c:1853-1867 | behind a slash or backslash of a cleaned path no segment starts with two dots, and the path itself does if and only if it did before |
| RangeHeader.RangeFields.CastStringRangeToInt | src/common/http_utility/http_utility.cpp:18-35 | a bound is all for nothing or a star, the number in 64 bits, or bad |
| RangeHeader.RangeFields.ParseValue | src/common/http_utility/http_utility.cpp:84-111 | one part sets its two fields, or is refused, or throws when it would start behind its end |
| RangeHeader.RangeFields.TranslateRangeHeader | src/common/http_utility/http_utility.cpp:139-171 | the fields after parsing, the second part first, on every outcome; bend_2 is not reset |
| RangeHeader.TranslateIsExact | src/common/http_utility/http_utility.cpp:139-161 | a header is accepted if and only if it is a unit, an equals sign and one or two ranges of good bounds, with exactly those bounds, and rejected otherwise |
| RangeHeader.NeverThrows | src/common/http_utility/http_utility.cpp:139-161 | no header makes parsing throw |
| RangeHeader.OneRangeRoundTrip | src/common/http_utility/http_utility.cpp:139-161 | a printed range with non-negative 64-bit bounds, missing bounds or stars parses back to the same bounds |
| RangeHeader.TwoRangesRoundTrip | src/common/http_utility/http_utility.cpp:139-161 | the same for two ranges |
| RangeHeader.DecimalRoundTrip | src/common/http_utility/http_utility.cpp:29-29 | printing and reading decimal numbers |
| RangeHeader.CastReads | src/common/http_utility/http_utility.cpp:29-29 | a number is read with or without a sign exactly when it fits 64 bits |
| RangeHeader.CastRefuses | src/common/http_utility/http_utility.cpp:29-29 | nothing but digits with or without a sign is read |
| RangeHeader.ReplyIsConsistent | src/core/http_server/details/replies/partial_content_reply.cpp:24-39 | the stated range lies in the file and has the stated length if and only if it is closed with 0 <= a <= b < size, or open from 0 |
| RangeHeader.ClosedRangeReply | src/core/http_server/http_server_core.cpp:160-189 | from header to reply: a-b with a <= b < size is answered by a-b/size and b - a + 1 |
| RangeHeader.OpenRangeReply | src/core/http_server/http_server_core.cpp:160-189 | 0- is answered by the whole file; after any other start the stated length is one too many |
| RangeHeader.SuffixRangeReply | src/core/http_server/http_server_core.cpp:160-189 | -n is answered by the first n + 1 positions |

## Left out

- Md5.Context.Final: the compression rounds are a parameter, so no concrete digest is computed; a little-endian machine is assumed.
- Md5.MgMd5: an argument list is a sequence of byte strings.
- Glob.MatchPrefix: the character right behind a pattern is taken not to be a star, as patterns end at a NUL or a separator; lengths are unbounded where the C code casts them to int.
- RequestFraming.Connection.Discard: the sum of header length and content length is not bounded to 64 bits, so a Content-Length within 16384 of the largest number is not covered.
- RequestFraming.Connection.ParseHttpRequest: which fields it extracts; what a header block means is a parameter that depends on its bytes.
- RequestFraming.Connection.HandleOne: what the handler does apart from reading the body, and the two ways to read a body that bypass mg_read (upload forwarding and websockets).
- Shutdown.StepKeepsInv: liveness, such as workers being woken up; mg_stop is called once, after mg_start has returned.
- SocketQueue.Context.ConsumeSocket: the waits on condition variables are repeated attempts; whether a thread is woken is not modelled.
- Pipeline.StreamingIsSafe: bytes from the end of a requested range on, which the last chunk of a closed range can hold and which need not be announced; a closed range ends before its last byte, as the code waits for that many bytes.
- Progress.CompletedFileIsServed: that the threads do get to run; it says that a run exists, not that every run gets there.
- Pipeline.OrderlyStreamsFromDisk: torrents whose pieces finish in an order that breaks the windows of a file, for which the code does not give it (IncreasingRunSound has the exact condition for consecutive pieces).
- TrackerRuns.AnyOrder: soundness of announcements when pieces arrive in an order that breaks the windows, which the code does not give; piece numbers up to INT_MAX - 2.
- TrackedFile.FileInfo.constructor: files of size 0, for which the code divides by a block size of 0.
- TorrentCore.NextInv: files of size 0 in a torrent, for the same reason; what happens to the alert thread when the exception of the tracker leaves a handler.
- TrackedFile.FileInfo.Report: the calls that set piece priorities in libtorrent.
- NotificationUnit.Worker.NotifyReceiver: a notification's state is fixed; setting it to done after the delivery is not modelled.
- NotificationUnit.RunConserves: starting the unit again after a stop, and full delivery at exit, which the code does not promise.
- FileInfoBuffer.Infos.OnFileRemove: the removed record is taken to be read before it is erased; the code uses the erased iterator, and does so for unknown paths too.
- FileInfoBuffer.Infos.RegistrSubscriber: unsubscribing, by number or by reference, and stopping the buffer.
- EventRing.EventSource.PostEvent: sinks that bind, which would wait for the source's own lock; sinks that unbind binders of another source, which do not touch this ring; unbinding by other threads; the policy's queue of calls; the second way to bind, through the source, which names a member that does not exist.
- RequestParser.Consume: version numbers are unbounded integers; the state for the first character of a URI is in the model but is never entered.
- HeaderPrinter.HttpReply.AddHeader: running out of memory.
- UrlCodec.UtilityUrlDecode: locales with other white space or digit grouping.
- RangeHeader.ReplyIsConsistent: lengths are unbounded integers, so an end at the largest 64-bit number does not overflow; the other reply headers (entity tag, dates).
- RangeHeader.RangeFields.TranslateRangeHeader: the variant for a list of headers and the one built on sscanf.
- Directory listing, CGI, SSI, Lua, WebDAV, SSL, password files, SHA-1, base64 and websockets of the embedded server.
- libtorrent sessions, JSON settings, logging, the C interface and its handle tables, error resolvers, thread pools.
