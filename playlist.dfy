/** The HLS media playlist served at `/stream.m3u8`, rendered from the set of
    segment numbers currently known (RFC 8216: `#EXTM3U` and `#EXT-X-VERSION`,
    sections 4.3.1.1 and 4.3.1.2; `#EXT-X-TARGETDURATION`, section 4.3.3.1;
    `#EXT-X-MEDIA-SEQUENCE`, section 4.3.3.2; `#EXTINF`, section 4.3.2.1). */
module Hls {
  import opened Text
  import opened Wrappers
  import opened Naming

  /** Nominal segment length in seconds, the value given to ffmpeg's `-hls_time`. */
  const SegmentDuration: nat := 12

  /** What is written when no segment is known yet: two tags, each ending in a newline. */
  const EmptyPlaylist := "#EXTM3U\n#EXT-X-VERSION:3\n"

  const ExtM3u := "#EXTM3U"
  const VersionTag := "#EXT-X-VERSION:3"
  const TargetDurationTag := "#EXT-X-TARGETDURATION:" + NatToString(SegmentDuration + 1)
  /** `f"#EXTINF:{SEGMENT_DURATION:.3f},"`; the duration is a whole number, so three zero decimals follow. */
  const ExtInf := "#EXTINF:" + NatToString(SegmentDuration) + ".000,"

  function MediaSequenceTag(first: nat): string
  {
    "#EXT-X-MEDIA-SEQUENCE:" + NatToString(first)
  }

  predicate StrictlyIncreasing(s: seq<nat>)
  {
    forall i, j :: 0 <= i < j < |s| ==> s[i] < s[j]
  }

  /** `m` is the smallest element of `s`. */
  predicate IsMin(m: nat, s: set<nat>)
  {
    m in s && forall x :: x in s ==> m <= x
  }

  lemma {:induction false} HasMinimum(s: set<nat>)
    requires s != {}
    ensures exists m :: IsMin(m, s)
    decreases |s|
  {
    var y :| y in s;
    if s == {y} {
      assert IsMin(y, s);
    } else {
      HasMinimum(s - {y});
      var m :| IsMin(m, s - {y});
      var low := if y < m then y else m;
      forall x | x in s ensures low <= x {
        if x != y { assert x in s - {y}; }
      }
      assert IsMin(low, s);
    }
  }

  /** `sorted(available_segments)`: the numbers of the set, each once, smallest first. */
  function Sorted(s: set<nat>): (r: seq<nat>)
    ensures |r| == |s|
    ensures forall x :: x in r <==> x in s
    ensures StrictlyIncreasing(r)
    decreases |s|
  {
    if s == {} then []
    else
      HasMinimum(s);
      var m :| IsMin(m, s);
      var rest := Sorted(s - {m});
      assert forall x :: x in rest ==> m < x by {
        forall x | x in rest ensures m < x {
          assert x in s - {m};
        }
      }
      ConsIncreasing(m, rest);
      [m] + rest
  }

  lemma ConsIncreasing(m: nat, rest: seq<nat>)
    requires StrictlyIncreasing(rest)
    requires forall x :: x in rest ==> m < x
    ensures StrictlyIncreasing([m] + rest)
  {
    var r := [m] + rest;
    forall i, j | 0 <= i < j < |r| ensures r[i] < r[j] {
      assert r[j] == rest[j - 1] && rest[j - 1] in rest;
      if i > 0 { assert r[i] == rest[i - 1]; }
    }
  }

  /** The four header lines of a non-empty playlist. */
  function Header(first: nat): seq<string>
  {
    [ExtM3u, VersionTag, TargetDurationTag, MediaSequenceTag(first)]
  }

  /** One `#EXTINF` line and one URI line per segment, in the order given. */
  function Entries(segments: seq<nat>): seq<string>
  {
    if segments == [] then []
    else Entries(segments[..|segments| - 1]) + [ExtInf, SegmentName(segments[|segments| - 1])]
  }

  lemma {:induction false} EntriesAt(segments: seq<nat>, i: nat)
    requires i < |segments|
    ensures |Entries(segments)| == 2 * |segments|
    ensures Entries(segments)[2 * i] == ExtInf
    ensures Entries(segments)[2 * i + 1] == SegmentName(segments[i])
  {
    var last := |segments| - 1;
    var init := segments[..last];
    var name := SegmentName(segments[last]);
    assert Entries(segments) == Entries(init) + [ExtInf, name];
    EntriesLength(init);
    if i < last {
      EntriesAt(init, i);
      assert init[i] == segments[i];
    }
  }

  lemma {:induction false} EntriesLength(segments: seq<nat>)
    ensures |Entries(segments)| == 2 * |segments|
  {
    if segments != [] {
      EntriesLength(segments[..|segments| - 1]);
    }
  }

  /** The playlist text served for the set `available`: the two-tag text while no
      segment is known, otherwise the `#EXTM3U` line first, then newline-joined lines. */
  function Playlist(available: set<nat>): (r: string)
    ensures available == {} ==> r == EmptyPlaylist
    ensures available != {} ==> StartsWith(r, ExtM3u + "\n")
  {
    var segments := Sorted(available);
    if segments == [] then EmptyPlaylist
    else JoinLines(Header(segments[0]) + Entries(segments))
  }

  /** The handler's construction: sort, emit the header, append two lines per segment, join. */
  method RenderPlaylist(available: set<nat>) returns (text: string)
    ensures text == Playlist(available)
  {
    var segments := Sorted(available);
    if segments == [] {
      return EmptyPlaylist;
    }
    var playlist := AppendEntries(Header(segments[0]), segments);
    text := JoinLines(playlist);
  }

  /** The loop of the handler: an `#EXTINF` line and a URI line appended per segment. */
  method AppendEntries(header: seq<string>, segments: seq<nat>) returns (lines: seq<string>)
    ensures lines == header + Entries(segments)
  {
    lines := header;
    for i := 0 to |segments|
      invariant lines == header + Entries(segments[..i])
    {
      EntriesExtend(segments, i);
      lines := lines + [ExtInf, SegmentName(segments[i])];
    }
    assert segments[..|segments|] == segments;
  }

  /** Each pass of the rendering loop appends the two lines of the next segment. */
  lemma EntriesExtend(segments: seq<nat>, i: nat)
    requires i < |segments|
    ensures Entries(segments[..i + 1]) == Entries(segments[..i]) + [ExtInf, SegmentName(segments[i])]
  {
    assert segments[..i + 1][..i] == segments[..i];
  }

  lemma TagTexts()
    ensures TargetDurationTag == "#EXT-X-TARGETDURATION:13"
    ensures ExtInf == "#EXTINF:12.000,"
  {
    assert NatToString(13) == "13" by { assert NatToString(1) == "1"; }
    assert NatToString(12) == "12" by { assert NatToString(1) == "1"; }
  }

  lemma DigitsHaveNoNewline(s: string)
    requires AllDigits(s)
    ensures '\n' !in s
  {
  }

  lemma SegmentNameHasNoNewline(n: nat)
    ensures '\n' !in SegmentName(n)
  {
    var digits := ZeroPad(NatToString(n), NumberWidth);
    assert '\n' !in digits by {
      PaddedValue(n, NumberWidth);
      DigitsHaveNoNewline(digits);
    }
    assert SegmentName(n) == SegmentPrefix + digits + SegmentExtension;
  }

  lemma HeaderHasNoNewline(first: nat)
    ensures forall i :: 0 <= i < |Header(first)| ==> '\n' !in Header(first)[i]
  {
    TagTexts();
    DigitsHaveNoNewline(NatToString(first));
  }

  lemma {:induction false} EntriesHaveNoNewline(segments: seq<nat>)
    ensures forall i :: 0 <= i < |Entries(segments)| ==> '\n' !in Entries(segments)[i]
  {
    if segments != [] {
      var last := |segments| - 1;
      var init := Entries(segments[..last]);
      assert Entries(segments) == init + [ExtInf, SegmentName(segments[last])];
      assert '\n' !in ExtInf by { TagTexts(); }
      EntriesHaveNoNewline(segments[..last]);
      SegmentNameHasNoNewline(segments[last]);
    }
  }

  /** Without segments the playlist is the two bare header tags. */
  lemma EmptyPlaylistShape()
    ensures Playlist({}) == "#EXTM3U\n#EXT-X-VERSION:3\n"
  {
  }

  /** The text of a non-empty playlist splits back into its header and entry lines. */
  lemma PlaylistLines(available: set<nat>)
    requires available != {}
    ensures SplitLines(Playlist(available)) == Header(Sorted(available)[0]) + Entries(Sorted(available))
  {
    var segments := Sorted(available);
    var header, entries := Header(segments[0]), Entries(segments);
    HeaderHasNoNewline(segments[0]);
    EntriesHaveNoNewline(segments);
    var lines := header + entries;
    forall i | 0 <= i < |lines| ensures '\n' !in lines[i] {
      if i >= |header| { assert lines[i] == entries[i - |header|]; }
    }
    SplitJoin(lines);
  }

  /** The first four lines of a non-empty playlist: version, target duration, and the
      media sequence of the first segment listed. */
  lemma PlaylistHeaderLines(available: set<nat>)
    requires available != {}
    ensures var lines := SplitLines(Playlist(available));
      && |lines| == 4 + 2 * |available|
      && lines[0] == "#EXTM3U"
      && lines[1] == "#EXT-X-VERSION:3"
      && lines[2] == "#EXT-X-TARGETDURATION:13"
      && lines[3] == "#EXT-X-MEDIA-SEQUENCE:" + NatToString(Sorted(available)[0])
  {
    var segments := Sorted(available);
    var lines := SplitLines(Playlist(available));
    var header := Header(segments[0]);
    assert |lines| == 4 + 2 * |available| && forall t :: 0 <= t < 4 ==> lines[t] == header[t] by {
      PlaylistLines(available);
      EntriesLength(segments);
    }
    HeaderTexts(segments[0]);
  }

  lemma HeaderTexts(first: nat)
    ensures |Header(first)| == 4
    ensures Header(first)[0] == "#EXTM3U" && Header(first)[1] == "#EXT-X-VERSION:3"
    ensures Header(first)[2] == "#EXT-X-TARGETDURATION:13"
    ensures Header(first)[3] == "#EXT-X-MEDIA-SEQUENCE:" + NatToString(first)
  {
    TagTexts();
  }

  /** After the header, each segment in sorted order has its `#EXTINF` line and its URI line. */
  lemma PlaylistEntryLines(available: set<nat>)
    requires available != {}
    ensures var lines := SplitLines(Playlist(available));
      && |lines| == 4 + 2 * |available|
      && forall i :: 0 <= i < |available| ==>
           lines[4 + 2 * i] == "#EXTINF:12.000," && lines[5 + 2 * i] == SegmentName(Sorted(available)[i])
  {
    var segments := Sorted(available);
    PlaylistLines(available);
    EntriesLength(segments);
    TagTexts();
    forall i | 0 <= i < |available|
      ensures Entries(segments)[2 * i] == ExtInf && Entries(segments)[2 * i + 1] == SegmentName(segments[i])
    {
      EntriesAt(segments, i);
    }
  }

  /** A non-empty playlist has four header lines, then an `#EXTINF` line and a URI
      line for each segment in strictly ascending order, the media sequence being
      the smallest segment number. */
  lemma PlaylistShape(available: set<nat>)
    requires available != {}
    ensures var lines := SplitLines(Playlist(available));
      && |lines| == 4 + 2 * |available|
      && lines[0] == "#EXTM3U"
      && lines[1] == "#EXT-X-VERSION:3"
      && lines[2] == "#EXT-X-TARGETDURATION:13"
      && lines[3] == "#EXT-X-MEDIA-SEQUENCE:" + NatToString(Sorted(available)[0])
      && (forall i :: 0 <= i < |available| ==>
            lines[4 + 2 * i] == "#EXTINF:12.000," && lines[5 + 2 * i] == SegmentName(Sorted(available)[i]))
    ensures IsMin(Sorted(available)[0], available)
    ensures StrictlyIncreasing(Sorted(available))
    ensures forall x :: x in Sorted(available) <==> x in available
  {
    var segments := Sorted(available);
    PlaylistHeaderLines(available);
    PlaylistEntryLines(available);
    forall x | x in available ensures segments[0] <= x {
      var j :| 0 <= j < |segments| && segments[j] == x;
    }
  }

  /** A non-empty playlist is joined with single newlines and has none at its end. */
  lemma NoTrailingNewline(available: set<nat>)
    requires available != {}
    ensures |Playlist(available)| >= 1 && Playlist(available)[|Playlist(available)| - 1] != '\n'
  {
    var segments := Sorted(available);
    var lines := Header(segments[0]) + Entries(segments);
    EntriesAt(segments, |segments| - 1);
    SegmentNameHasNoNewline(segments[|segments| - 1]);
    LastLineNotEmpty(lines);
  }

  lemma {:induction false} LastLineNotEmpty(lines: seq<string>)
    requires |lines| >= 1 && lines[|lines| - 1] != [] && '\n' !in lines[|lines| - 1]
    ensures |JoinLines(lines)| >= 1 && JoinLines(lines)[|JoinLines(lines)| - 1] != '\n'
    decreases |lines|
  {
    if |lines| > 1 {
      LastLineNotEmpty(lines[1..]);
    }
  }

  /** Every URI the playlist lists, requested relative to `/stream.m3u8`, is parsed
      back by the segment handler into the number it was rendered from. */
  lemma PlaylistUrisParse(available: set<nat>)
    requires available != {}
    ensures var lines := SplitLines(Playlist(available));
      && |lines| == 4 + 2 * |available|
      && forall i :: 0 <= i < |available| ==> ParseSegment("/" + lines[5 + 2 * i]) == Some(Sorted(available)[i])
  {
    PlaylistLines(available);
    EntriesLength(Sorted(available));
    forall i | 0 <= i < |available|
      ensures ParseSegment("/" + SplitLines(Playlist(available))[5 + 2 * i]) == Some(Sorted(available)[i])
    {
      EntriesAt(Sorted(available), i);
      ParseSegmentName("/", Sorted(available)[i]);
    }
  }
}
