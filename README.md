# HLS relay core, modelled in Dafny

`streamer.py` relays a live stream over HTTP. A background worker runs a transcoder
that writes `segmentNNN.ts` files into a temporary directory. While the transcoder
runs, the worker polls that directory once per tick and replaces the server's set
of available segment numbers with what it finds. HTTP clients fetch
`/stream.m3u8`, which is rendered from that set, and then fetch each
`/segmentNNN.ts`, which is streamed from the directory in 1 MiB chunks. The worker
restarts the transcoder after it exits. It gives up after three failed attempts,
and it cleans the directory after every attempt.

The model has seven modules in six files:

- `text.dfy` — `Wrappers.Option`, plus module `Text`: decimal digits, `str(n)`, `int()`, `{:03d}` padding, `startswith`/`endswith`, and `"\n".join` with its inverse `split("\n")`.
- `naming.dfy` — module `Naming`: the segment file name `segment{n:03d}.ts` and the search `re.search(r'segment(\d+).ts', s)` that reads it back. The regular expression is modelled as Python's `re` engine applies it:
  - the leftmost start offset wins;
  - at that offset the greedy `\d+` backtracks, so the longest group whose continuation matches is taken;
  - the unescaped `.` matches any character except a newline.
- `playlist.dfy` — module `Hls`: the media playlist as a function of the set of numbers, and the handler's loop that builds it. The playlist uses `#EXTM3U`, `#EXT-X-VERSION`, `#EXT-X-TARGETDURATION`, `#EXT-X-MEDIA-SEQUENCE` and `#EXTINF` from RFC 8216, sections 4.3.1.1, 4.3.1.2, 4.3.3.1, 4.3.3.2 and 4.3.2.1.
- `http.dfy` — module `Http`: route selection in `do_GET`, `do_HEAD`, the segment handler with its 400/404/200 answers, and its chunked copy loop.
  - The directory is a map from file name to bytes.
  - The client is an oracle that says, for each chunk write, whether the connection is gone.
- `relay.dfy` — module `Relay`:
  - the `cleanup` filter;
  - the per-tick reconciliation of the directory listing into a set of numbers;
  - the `stream_worker` retry loop, as pure step functions;
  - class `Server`, which holds the shared state (`availableSegments` and the directory) and whose methods run `cleanup`, one poll, and the whole worker loop against those step functions.
- `overlay.dfy` — module `Overlay`: `get_overlay_position`.

An attempt of the worker is an input value `Attempt`. It is either `Failed` or `Ran(polls)`:

- `Failed`: no playlist URL was found, or the transcoder could not be started.
- `Ran(polls)`: the transcoder ran while the worker polled the directory, and then it exited. `polls` gives the directory contents at each poll.

A poll whose listing holds a `segment`-prefixed name the pattern does not match raises an exception inside the comprehension. That counts as a failed attempt.

Behaviour of the code worth knowing:

- Nothing evicts segments in step with the advertised set. The set is replaced wholesale at each poll from whatever the directory holds, and this includes files the transcoder is still writing.
- After an attempt, `cleanup` deletes every segment file but leaves the advertised set as it was. Until the next successful poll, every advertised segment is answered 404 (`Relay.AdvertisedButGone`). Once the worker has given up, this lasts for good.
- A poll that raises leaves the transcoder process running. The model has no process handles, so this is not represented.

## Model

| member | source | states |
|---|---|---|
| Text.NatToString | streamer.py:75 | `str(n)` is a non-empty run of decimal digits, with a leading `0` exactly when n is 0, and a single digit for n below 10 (so `str(0)` is exactly `0`) |
| Text.DigitsValue | streamer.py:94 | the value `int()` reads from L digits is below 10^L; with `Text.NatToStringValue` and `Text.LeadingZerosValue` it is the number the digits spell |
| Text.ZerosValue | streamer.py:94 | a run of zeros reads as 0 |
| Text.NatToStringValue | streamer.py:75 | `int(str(n)) == n` for every n |
| Text.LeadingZerosValue | streamer.py:94 | leading zeros do not change the value `int()` reads |
| Text.PaddedValue | streamer.py:79 | the `{:03d}` rendering of n is all digits and reads back as n |
| Text.ZeroPad | streamer.py:79 | padding yields at least `width` characters: zeros, then the original text |
| Text.JoinLines | streamer.py:81 | `"\n".join` starts with the first line, and when more lines follow, a newline comes right after it; `Text.SplitJoin` is its inverse |
| Text.SplitAtFirst | streamer.py:81 | splitting on `"\n"` takes a first line without a newline off whole and splits the rest separately |
| Text.SplitJoin | streamer.py:81 | splitting a `"\n".join` of newline-free lines on `"\n"` gives back exactly those lines |
| Naming.SegmentName | streamer.py:79 | `f"segment{n:03d}.ts"` (also the name looked up at streamer.py:95 and the transcoder's `segment%03d.ts` at streamer.py:168) is `segment`, a digit field of at least three characters, then `.ts` |
| Naming.SegmentNameDigits | streamer.py:79 | the digit field of the name for n holds only digits and reads back as n |
| Naming.SegmentNameParts | streamer.py:79 | the name is exactly the prefix, the digit field and the extension |
| Naming.DigitRun | streamer.py:88 | the digit run at an offset is maximal: all digits, and then the end or a non-digit |
| Naming.Backtrack | streamer.py:88 | greedy `\d+` with backtracking yields the longest group length at most k whose `.ts` continuation matches, or none when no length matches |
| Naming.MatchFrom | streamer.py:88 | a match at one offset has the longest possible group; none is returned only when no group length matches there |
| Naming.SearchFrom | streamer.py:88 | the match found is at the leftmost offset that has one, with its longest group; none is returned only when no offset matches |
| Naming.ParseSegment | streamer.py:88-94 | the search fails exactly when the pattern matches nowhere in the path |
| Naming.GroupValue | streamer.py:94 | no number exactly when there is no match; otherwise the value of the matched digit group, which holds only digits |
| Naming.ParseLeftmostLongest | streamer.py:88-94 | the leftmost match with its longest group determines the number parsed |
| Naming.SearchFindsLeftmost | streamer.py:88 | the search returns the leftmost match together with its longest group |
| Naming.SpelledNameMatch | streamer.py:88 | in `segment`, digits, `.ts` after a prefix with no `s`, the leftmost match starts after the prefix and its longest group is exactly the digits |
| Naming.ParseDigits | streamer.py:88-94 | `segment`, digits, `.ts` after a prefix with no `s` parses to the value of those digits |
| Naming.ParseSpelling | streamer.py:88-95 | every zero-padded spelling of n in a segment name parses back to n |
| Naming.ParseSegmentName | streamer.py:79-95 | the name emitted for n, alone or after `/`, parses back to n, so each playlist URI reaches the file it names |
| Naming.LeadingZerosNormalised | streamer.py:94-95 | `/segment0005.ts` parses to 5, whose file is `segment005.ts` |
| Hls.Sorted | streamer.py:66 | `sorted(available)` has the set's size, holds exactly the numbers of the set, and is strictly ascending, so it has no duplicates |
| Hls.TagTexts | streamer.py:74-78 | the target duration reads `13` (`SEGMENT_DURATION + 1`), and each duration tag reads `#EXTINF:12.000,` |
| Hls.HeaderTexts | streamer.py:71-75 | the four header lines read `#EXTM3U`, `#EXT-X-VERSION:3`, `#EXT-X-TARGETDURATION:13` and `#EXT-X-MEDIA-SEQUENCE:` followed by the first number |
| Hls.EntriesAt | streamer.py:77-79 | segment i contributes `#EXTINF` at line 2i of the body and its name at line 2i+1 |
| Hls.EntriesExtend | streamer.py:77-79 | each pass of the loop appends `#EXTINF` and the name of the next number |
| Hls.Playlist | streamer.py:66-81 | an empty set gives exactly the two-tag text; any other set gives text that starts with `#EXTM3U` and a newline; its lines are given by `Hls.PlaylistShape` |
| Hls.AppendEntries | streamer.py:77-79 | the loop appends exactly the entry lines of the numbers, in order, after the header |
| Hls.RenderPlaylist | streamer.py:66-81 | the handler's loop produces exactly the playlist text for the set |
| Hls.EmptyPlaylistShape | streamer.py:67-69 | an empty set gives exactly `#EXTM3U\n#EXT-X-VERSION:3\n` |
| Hls.PlaylistLines | streamer.py:71-81 | the text of a non-empty playlist splits back into its four header lines and its entry lines |
| Hls.PlaylistHeaderLines | streamer.py:71-76 | a non-empty playlist has 4 + 2·\|set\| lines, the first four being `#EXTM3U`, `#EXT-X-VERSION:3`, `#EXT-X-TARGETDURATION:13` and the media sequence of the first number listed |
| Hls.PlaylistEntryLines | streamer.py:77-79 | after the header, line 4+2i is `#EXTINF:12.000,` and line 5+2i names the i-th number in sorted order |
| Hls.PlaylistShape | streamer.py:66-81 | a non-empty playlist has 4 + 2·\|set\| lines: the version, target-duration and media-sequence tags (the last naming the minimum), then `#EXTINF:12.000,` and `segmentNNN.ts` for each number in strictly ascending order, covering exactly the set |
| Hls.NoTrailingNewline | streamer.py:81 | a non-empty playlist does not end in a newline |
| Hls.LastLineNotEmpty | streamer.py:81 | a join whose last line is non-empty and has no newline does not end in a newline |
| Hls.PlaylistUrisParse | streamer.py:77-95 | every URI line of the playlist parses back, as a request path, to the number it was rendered from |
| Http.RouteOf | streamer.py:44-56 | `/` and `/health` go to the landing page, and exactly `/stream.m3u8` goes to the playlist; any path starting with `/segment` goes to the segment handler; everything else is 404 (each case both ways) |
| Http.Head | streamer.py:39-42 | HEAD on any path gives 200, `Content-type: text/plain` and no body |
| Http.Read | streamer.py:108 | `f.read(1 MiB)` returns the next bytes of the file: a full chunk unless it reaches the end, never more than 1 MiB, and empty exactly at the end |
| Http.CopyChunks | streamer.py:107-113 | the bytes written are a prefix of the file. They are all of it exactly when no write meets a disconnect; otherwise the loop stops at the first disconnect, after whole chunks |
| Http.HandleSegment | streamer.py:86-116 | 400 when the pattern does not match; 404 when the canonical file is absent; otherwise 200 with the video/MP2T, no-cache and `Content-Length` = file size headers, and a delivered prefix of that file as the body |
| Http.HandleGet | streamer.py:44-56 | each route gets its response: the landing page, the playlist of the current set, the segment response, or 404 |
| Http.SegmentPathRoute | streamer.py:52 | every playlist URI requested as `/segmentNNN.ts` takes the segment route |
| Http.PlaylistUriServed | streamer.py:86-113 | a URI from the playlist takes the segment route. It is answered 404 when its file is gone; otherwise it is answered 200 with the file's length, and the client gets the whole file when it stays connected |
| Http.MalformedPathRefused | streamer.py:88-92 | a path with no match is refused with 400 whatever the directory holds |
| Relay.Cleaned | streamer.py:119-125 | after cleanup no name starts with `segment` or ends with `.m3u8` (the filter `Relay.Removable`); every other file is kept with its contents; nothing is added |
| Relay.CleanedIdempotent | streamer.py:119-125 | cleaning twice is cleaning once |
| Relay.CleanedExactly | streamer.py:119-125 | a directory holding exactly the non-removable files of another, unchanged, is that directory cleaned |
| Relay.RemoveStep | streamer.py:121-125 | one turn of the cleanup loop keeps every file of the original directory that was not removed, with its contents, and nothing else |
| Relay.SweptAll | streamer.py:119-125 | once every listed name has been visited, the directory is the original one cleaned |
| Relay.ListDir | streamer.py:120 | the listing names every file of the directory exactly once, in an order left open |
| Relay.Reconcile | streamer.py:176-179 | a poll fails exactly when some `segment`-prefixed name does not match; otherwise it yields exactly the numbers parsed from the `segment`-prefixed names |
| Relay.ReconcileMatchesScan | streamer.py:176-180 | the poll's result depends only on the directory's names, not on the listing order |
| Relay.RunPollsRaises | streamer.py:174-186 | a run raises exactly when one of its polls does not parse |
| Relay.RunPollsLast | streamer.py:174-180 | polls that all parse raise nothing and leave the set and the directory of the last poll |
| Relay.Step | streamer.py:147-188 | one pass of the loop: `retry` rises by exactly one for an attempt that raises and stays the same when the transcoder exits normally; afterwards no removable file is left; a failed attempt does not touch the advertised set and leaves the old directory cleaned; a run with no polls changes nothing but the cleanup; a run whose polls all parse ends with exactly the last poll's set (earlier contents are not kept) and that poll's directory, cleaned |
| Relay.Run | streamer.py:145-190 | `retry` never decreases and never passes 3; when the worker ends below 3, every outcome was used and `retry` counts all the failures among them |
| Relay.RunUnfold | streamer.py:145-188 | while `retry` is below 3 and outcomes remain, the worker's course is one pass of the loop followed by the rest, counting one more attempt |
| Relay.RunRaisesAt | streamer.py:174-188 | a run that first fails to parse at poll i counts one failure, keeps the set of poll i - 1 (the old set when i is 0) and ends with poll i's directory, cleaned |
| Relay.RunPollsRaiseAt | streamer.py:174-180 | polls that parse up to a first unparseable poll i raise, keeping the set of poll i - 1 (or the starting set) and the directory of poll i |
| Relay.RunRetry | streamer.py:145-190 | the worker makes at most as many attempts as there are outcomes, and `retry` equals the number of attempts made that raised |
| Relay.RunStops | streamer.py:146-190 | the worker stops when `retry` reaches 3, unless the outcomes run out first; before its last attempt `retry` was still below 3 |
| Relay.AdvertisedButGone | streamer.py:180-188 | after an attempt, a segment still advertised has no file and is answered 404 |
| Relay.Server.constructor | streamer.py:198-201 | at startup the directory is cleaned and nothing is advertised |
| Relay.Server.Cleanup | streamer.py:119-125 | the directory becomes its cleaned version; the advertised set is unchanged |
| Relay.Server.Poll | streamer.py:174-180 | the set is replaced wholesale by the numbers in the listing, or left as it was when the listing raises |
| Relay.Server.WatchTranscoder | streamer.py:174-180 | polling while the transcoder runs ends with the flag, set and directory of the run of polls, stopping at the first listing that raises |
| Relay.Server.StreamWorker | streamer.py:144-190 | the final retry count, the advertised set, the directory and the number of attempts are those of the worker state machine |
| Overlay.OverlayPosition | streamer.py:26-33 | a name other than the four corners gets the top-left coordinates `margin:margin` |
| Overlay.TopCorners | streamer.py:26-30 | `top-left` gives `10:10` and `top-right` gives `main_w-overlay_w-10:10` |
| Overlay.BottomLeft | streamer.py:31 | `bottom-left` gives `10:main_h-overlay_h-10` |
| Overlay.BottomRight | streamer.py:32 | `bottom-right` gives `main_w-overlay_w-10:main_h-overlay_h-10` |
| Overlay.TableEntries | streamer.py:28-33 | the table has exactly the four corner keys, each with its coordinates |
| Overlay.UnknownPositionFallsBack | streamer.py:33 | any other name falls back to the top-left `10:10` |
| Overlay.CornersDistinct | streamer.py:28-33 | different corners give different coordinates |

## Left out

- `capture_m3u8_url` (streamer.py:127-142) depends on browser automation and timing-based waits. An attempt in which it finds no URL is the outcome `Failed`.
- Building the transcoder command and running `subprocess.Popen`/`poll` (streamer.py:154-174) are process plumbing. An attempt's polls are supplied as input, and the process a raising poll leaves running is not represented.
- The threaded server, the lock and the worker thread (streamer.py:35-36, 175, 200-214) are not modelled. Each request and each poll runs sequentially. A request is answered from a snapshot of the set and the directory.
- Real file and socket I/O, `time.sleep` and `print` are replaced by maps, listings and the disconnect oracle. A file removed between the existence check and `open` is not modelled, and neither is a directory named like a segment file, which passes `os.path.exists` and then fails to open.
- `main`'s check for the transcoder binary (streamer.py:194-196) is environment I/O.
- Relay.Server.StreamWorker: the source loops until three attempts have failed. The model also stops when its finite list of outcomes is exhausted, so a worker that never fails three times is described only up to the outcomes given.
- Naming.ParseSegment: `\d` and `int()` are modelled on the ASCII digits `0`–`9` only. Python's `str` patterns and `int()` also accept other Unicode decimal digits. A request path is decoded as Latin-1 and holds none. But the poll at streamer.py:178 lists every name in `/tmp` (streamer.py:23), so a file such as `segment١.ts` (U+0661) left there by another program parses to 1 in Python. For that name `Relay.Reconcile` returns None, and the model counts a failed attempt.
- Naming.ParseSegment: the interpreter's limit on integer-string conversion is not modelled. Since Python 3.11 (and the 3.8.14, 3.9.14 and 3.10.7 security releases), `int()` raises ValueError on more than 4300 digits. A request such as `/segment` followed by 4301 digits and `.ts` therefore raises at streamer.py:94. The `except` at streamer.py:115 catches it, and no status line is sent. `Http.HandleSegment` instead answers 404 for it, or 200 if such a file existed. The same limit makes `f"{n:03d}"` raise for numbers of more than 4300 digits, so `Naming.ParseSegmentName` and `Text.NatToStringValue` hold "for every n" beyond what the interpreter renders. No real file name is affected, because names are at most 255 bytes.
- Relay.Server.Cleanup: only a file that is already gone is skipped, as at streamer.py:124. `os.remove` can also raise `IsADirectoryError` or `PermissionError`, for example on a directory or a root-owned file in `/tmp` whose name starts with `segment`. That exception is not caught. In `stream_worker` it escapes the `finally` at streamer.py:188, so the worker thread ends at once, without the message at streamer.py:190; `retry` is below 3 unless that attempt was the third failure, since `retry += 1` (streamer.py:185) runs before the `finally`. At streamer.py:198 it ends `main` before the server is bound. In the model the directory holds only plain files that can be removed, so every removal succeeds.
- Http.HandleSegment: the `Content-Length` header and the body come from the same snapshot of the file. In the source, `os.path.getsize` (streamer.py:104) and the reads (streamer.py:107-108) happen at different times. A segment the transcoder is still writing can grow in between, so the body can be longer than the declared `Content-Length`. `Http.PlaylistUriServed` has the same limit, since it fixes the length as the file's size.
- Http.HandleSegment: a write that fails in some way other than a disconnect, and the handler's catch-all `except`, are not modelled.
- Http.CopyChunks: a chunk is either written whole or fails. A partially completed socket write is not modelled.
