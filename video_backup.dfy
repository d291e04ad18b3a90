/** The Slack-to-YouTube video backup bot: on a message in the watched
    channel it picks the first video attached, skips titles already backed
    up, uploads the file and logs one row per attempt in a spreadsheet. */
module VideoBackup {
  import opened Wrappers
  import opened Text

  /** A file attached to a Slack message. */
  datatype SlackFile = SlackFile(urlPrivate: string, name: string)

  /** The `{"url", "name"}` pair chosen for upload. */
  datatype Video = Video(url: string, name: string)

  /** The suffixes accepted as video, case-sensitively. */
  const VideoExtensions: seq<string> := [".mov", ".MOV", ".mp4", ".MP4"]

  /** The inner loop of `find_latest_video`: does `url` end with one of
      `exts`? */
  function EndsWithAny(url: string, exts: seq<string>): bool {
    if exts == [] then false
    else EndsWith(url, exts[0]) || EndsWithAny(url, exts[1..])
  }

  lemma {:induction false} EndsWithAnyExists(url: string, exts: seq<string>)
    ensures EndsWithAny(url, exts) <==> exists k :: 0 <= k < |exts| && EndsWith(url, exts[k])
  {
    if exts != [] {
      EndsWithAnyExists(url, exts[1..]);
      if EndsWithAny(url, exts[1..]) {
        var k :| 0 <= k < |exts[1..]| && EndsWith(url, exts[1..][k]);
        assert EndsWith(url, exts[k + 1]);
      }
      if exists k :: 0 <= k < |exts| && EndsWith(url, exts[k]) {
        var k :| 0 <= k < |exts| && EndsWith(url, exts[k]);
        if k > 0 {
          assert exts[1..][k - 1] == exts[k];
        }
      }
    }
  }

  predicate IsVideoUrl(url: string) {
    EndsWithAny(url, VideoExtensions)
  }

  /** `find_latest_video`: despite its name, the FIRST attached file, in
      message order, whose private URL ends with a video suffix. */
  function FindLatestVideo(files: seq<SlackFile>): (found: Option<Video>)
    ensures found.Some? ==> IsVideoUrl(found.value.url)
    ensures found.Some? ==> exists i :: 0 <= i < |files| && files[i] == SlackFile(found.value.url, found.value.name)
  {
    if files == [] then None
    else if IsVideoUrl(files[0].urlPrivate) then Some(Video(files[0].urlPrivate, files[0].name))
    else FindLatestVideo(files[1..])
  }

  /** No video is found exactly when no attached file has a video suffix. */
  lemma {:induction false} NoVideoIffNoVideoFile(files: seq<SlackFile>)
    ensures FindLatestVideo(files).None? <==> forall i :: 0 <= i < |files| ==> !IsVideoUrl(files[i].urlPrivate)
  {
    if files != [] {
      NoVideoIffNoVideoFile(files[1..]);
      assert forall i :: 1 <= i < |files| ==> files[i] == files[1..][i - 1];
    }
  }

  /** The file found is the first video file, and its URL and name are taken
      from that same file. */
  lemma {:induction false} FoundVideoIsFirst(files: seq<SlackFile>, i: nat)
    requires i < |files| && IsVideoUrl(files[i].urlPrivate)
    requires forall j :: 0 <= j < i ==> !IsVideoUrl(files[j].urlPrivate)
    ensures FindLatestVideo(files) == Some(Video(files[i].urlPrivate, files[i].name))
  {
    if i > 0 {
      assert forall j :: 0 <= j < i - 1 ==> files[1..][j] == files[j + 1];
      FoundVideoIsFirst(files[1..], i - 1);
    }
  }

  /** Every video suffix has four characters, so a URL is a video exactly
      when its last four characters are one of them. */
  lemma VideoUrlByLastFour(url: string)
    requires |url| >= 4
    ensures IsVideoUrl(url) <==> url[|url| - 4..] in VideoExtensions
  {
    EndsWithAnyExists(url, VideoExtensions);
    assert forall k :: 0 <= k < |VideoExtensions| ==> |VideoExtensions[k]| == 4;
  }

  /** The suffix check is case-sensitive: `.Mp4` is not a video. */
  lemma MixedCaseIsNotVideo()
    ensures FindLatestVideo([SlackFile("clip.Mp4", "clip")]) == None
  {
    var clip := "clip.Mp4";
    assert clip[|clip| - 4..] == ".Mp4";
    VideoUrlByLastFour(clip);
  }

  /** Of two videos, the first one attached is taken. */
  lemma FirstOfTwoVideos()
    ensures FindLatestVideo([SlackFile("notes.txt", "notes"), SlackFile("a.mp4", "a"), SlackFile("b.MOV", "b")])
      == Some(Video("a.mp4", "a"))
  {
    var files := [SlackFile("notes.txt", "notes"), SlackFile("a.mp4", "a"), SlackFile("b.MOV", "b")];
    var notes, a := "notes.txt", "a.mp4";
    assert notes[|notes| - 4..] == ".txt";
    assert a[|a| - 4..] == ".mp4";
    VideoUrlByLastFour(notes);
    VideoUrlByLastFour(a);
    FoundVideoIsFirst(files, 1);
  }

  // ---------------------------------------------------------------------------
  // download_slack_file

  /** `file_url.split(".")[-1]`: the text after the last dot, the whole URL
      when it has none. */
  function ExtensionOf(url: string): (ext: string)
    ensures '.' !in ext
  {
    var parts := Split(url, '.');
    parts[|parts| - 1]
  }

  /** The name the download is saved under. */
  function LocalFilename(url: string): string {
    "video." + ExtensionOf(url)
  }

  /** Whatever precedes the last dot, the extension is what follows it. */
  lemma {:induction false} ExtensionAfterLastDot(base: string, ext: string)
    requires '.' !in ext
    ensures ExtensionOf(base + "." + ext) == ext
    decreases |base|
  {
    if '.' in base {
      var d := FirstDot(base);
      var rest := base[d + 1..];
      SplitAtFirstDot(base, d, ext);
      ExtensionAfterLastDot(rest, ext);
    } else {
      assert base + "." + ext == base + ['.'] + ext;
      SplitAfterPart(base, '.', ext);
      SplitWithoutSeparator(ext, '.');
    }
  }

  /** Splitting at the first dot leaves the split of what follows it. */
  lemma SplitAtFirstDot(base: string, d: nat, ext: string)
    requires d < |base| && base[d] == '.' && '.' !in base[..d]
    ensures var parts := Split(base + "." + ext, '.');
      parts == [base[..d]] + Split(base[d + 1..] + "." + ext, '.')
  {
    var x, rest := base[..d], base[d + 1..];
    assert base == x + ['.'] + rest;
    assert base + "." + ext == x + ['.'] + (rest + "." + ext);
    SplitAfterPart(x, '.', rest + "." + ext);
  }

  /** The position of the first dot. */
  function FirstDot(s: string): (d: nat)
    requires '.' in s
    ensures d < |s| && s[d] == '.' && '.' !in s[..d]
  {
    if s[0] == '.' then 0
    else
      var d := FirstDot(s[1..]);
      assert s[..d + 1] == [s[0]] + s[1..][..d];
      d + 1
  }

  /** A video is saved under `video` followed by the very suffix it
      matched, so `clip.MOV` becomes `video.MOV`. */
  lemma VideoFilenameKeepsSuffix(url: string)
    requires IsVideoUrl(url)
    ensures exists k ::
              0 <= k < |VideoExtensions| && EndsWith(url, VideoExtensions[k])
              && LocalFilename(url) == "video" + VideoExtensions[k]
  {
    EndsWithAnyExists(url, VideoExtensions);
    var k :| 0 <= k < |VideoExtensions| && EndsWith(url, VideoExtensions[k]);
    assert '.' !in VideoExtensions[k][1..];
    var suffix := VideoExtensions[k];
    SuffixSplit(url, suffix);
  }

  /** A URL ending with `.ext` for a dot-free `ext` has extension `ext`. */
  lemma SuffixSplit(url: string, suffix: string)
    requires EndsWith(url, suffix) && |suffix| >= 1 && suffix[0] == '.' && '.' !in suffix[1..]
    ensures LocalFilename(url) == "video" + suffix
  {
    var ext := suffix[1..];
    assert suffix == "." + ext;
    var base := url[..|url| - |suffix|];
    assert url == base + suffix;
    assert base + "." + ext == base + ("." + ext);
    ExtensionAfterLastDot(base, ext);
  }

  // ---------------------------------------------------------------------------
  // check_if_video_exists

  /** A spreadsheet row as `get_all_records` returns it, reduced to the two
      columns the bot reads. */
  datatype SheetRecord = SheetRecord(title: string, status: string)

  const Succeeded := "succeeded"
  const Failed := "failed"

  /** `check_if_video_exists`: scans the records for a successful upload
      with this title. */
  function CheckIfVideoExists(records: seq<SheetRecord>, title: string): (uploaded: bool)
    ensures uploaded ==> SheetRecord(title, Succeeded) in records
  {
    if records == [] then false
    else if records[0].title == title && records[0].status == Succeeded then true
    else CheckIfVideoExists(records[1..], title)
  }

  /** A title counts as uploaded exactly when some record of it succeeded. */
  lemma {:induction false} VideoExistsIff(records: seq<SheetRecord>, title: string)
    ensures CheckIfVideoExists(records, title) <==>
      exists i :: 0 <= i < |records| && records[i].title == title && records[i].status == Succeeded
  {
    if records != [] {
      VideoExistsIff(records[1..], title);
      assert forall i :: 1 <= i < |records| ==> records[i] == records[1..][i - 1];
    }
  }

  /** A logged failure never blocks a later upload of the same title, and a
      logged success always does. */
  lemma LoggedRowEffect(records: seq<SheetRecord>, title: string, row: SheetRecord)
    ensures row.status != Succeeded ==>
      CheckIfVideoExists(records + [row], title) == CheckIfVideoExists(records, title)
    ensures row == SheetRecord(title, Succeeded) ==> CheckIfVideoExists(records + [row], title)
  {
    VideoExistsIff(records, title);
    VideoExistsIff(records + [row], title);
    var all := records + [row];
    assert forall i :: 0 <= i < |records| ==> all[i] == records[i];
    assert all[|records|] == row;
  }

  // ---------------------------------------------------------------------------
  // handle_message_events

  /** The fields of a message event the bot reads; `None` is a missing key. */
  datatype MessageEvent = MessageEvent(
    subtype: Option<string>, eventType: Option<string>, user: Option<string>,
    channel: Option<string>, text: Option<string>, files: Option<seq<SlackFile>>)

  /** The event gate: not a deletion or an edit, a plain message, not from
      the bot itself, and in the configured channel. */
  predicate Accepted(event: MessageEvent, botUser: string, channelId: string) {
    && event.subtype != Some("message_deleted") && event.subtype != Some("message_changed")
    && event.eventType == Some("message")
    && event.user != Some(botUser)
    && event.channel == Some(channelId)
  }

  /** The upload the bot asks for: the downloaded file, titled with the
      Slack file name and described by the message text. */
  datatype UploadRequest = UploadRequest(filename: string, title: string, description: string)

  /** What handling one event does: nothing, a reply in the thread, or an
      upload followed by a reply and a logged row. */
  datatype Outcome =
    | Ignored
    | Replied(message: string)
    | Uploaded(request: UploadRequest, message: string, row: seq<string>)

  /** The upload succeeded when its response carries a non-empty `id`. */
  predicate UploadSucceeded(uploadId: Option<string>) {
    uploadId.Some? && uploadId.value != ""
  }

  function WatchUrl(id: string): string {
    "https://www.youtube.com/watch?v=" + id
  }

  /** The row appended to the sheet after an upload attempt: time, name,
      Slack URL, message text, YouTube URL and status. */
  function ResultRow(now: string, video: Video, text: string, uploadId: Option<string>): (row: seq<string>)
    ensures |row| == 6 && row[1] == video.name
    ensures row[5] == Succeeded <==> UploadSucceeded(uploadId)
    ensures row[5] == Succeeded || row[5] == Failed
    ensures row[4] == "" <==> !UploadSucceeded(uploadId)
  {
    if UploadSucceeded(uploadId) then [now, video.name, video.url, text, WatchUrl(uploadId.value), Succeeded]
    else [now, video.name, video.url, text, "", Failed]
  }

  /** `handle_message_events`. The clock reading `now`, the sheet's
      records, the upload's `id` and the printed form of the upload
      response are parameters. */
  method HandleMessageEvent(
    event: MessageEvent, botUser: string, channelId: string, records: seq<SheetRecord>,
    uploadId: Option<string>, responseText: string, now: string)
    returns (outcome: Outcome)
    ensures outcome.Ignored? <==> !Accepted(event, botUser, channelId)
    ensures Accepted(event, botUser, channelId) && FindLatestVideo(event.files.GetOr([])).None? ==>
      outcome == Replied("*Video not found*")
    ensures Accepted(event, botUser, channelId) && FindLatestVideo(event.files.GetOr([])).Some? ==>
      var video := FindLatestVideo(event.files.GetOr([])).value;
      if CheckIfVideoExists(records, video.name) then
        outcome == Replied("*This video has already been uploaded*")
      else
        && outcome.Uploaded?
        && outcome.request == UploadRequest(LocalFilename(video.url), video.name, event.text.GetOr(""))
        && outcome.row == ResultRow(now, video, event.text.GetOr(""), uploadId)
        && (UploadSucceeded(uploadId) ==> outcome.message == "*Successfully uploaded video*\n" + WatchUrl(uploadId.value))
        && (!UploadSucceeded(uploadId) ==> outcome.message == "*Failed to upload video*\n" + responseText)
  {
    if event.subtype == Some("message_deleted") || event.subtype == Some("message_changed") {
      return Ignored;
    }
    if !(event.eventType == Some("message") && event.user != Some(botUser)) {
      return Ignored;
    }
    if event.channel != Some(channelId) {
      return Ignored;
    }
    var found := FindLatestVideo(event.files.GetOr([]));
    if found.None? {
      return Replied("*Video not found*");
    }
    var video := found.value;
    if CheckIfVideoExists(records, video.name) {
      return Replied("*This video has already been uploaded*");
    }
    var filename := LocalFilename(video.url);
    var description := event.text.GetOr("");
    var request := UploadRequest(filename, video.name, description);
    var message, writeData;
    if uploadId.Some? && uploadId.value != "" {
      var videoUrl := WatchUrl(uploadId.value);
      message := "*Successfully uploaded video*\n" + videoUrl;
      writeData := [now, video.name, video.url, description, videoUrl, Succeeded];
    } else {
      message := "*Failed to upload video*\n" + responseText;
      writeData := [now, video.name, video.url, description, "", Failed];
    }
    outcome := Uploaded(request, message, writeData);
  }

  /** Once a successful row is logged, the same message handled again is
      answered with "already uploaded" instead of a second upload. */
  lemma SecondDeliveryIsRefused(records: seq<SheetRecord>, video: Video, now: string, text: string, uploadId: Option<string>)
    requires UploadSucceeded(uploadId)
    ensures var row := ResultRow(now, video, text, uploadId);
      CheckIfVideoExists(records + [SheetRecord(row[1], row[5])], video.name)
  {
    var row := ResultRow(now, video, text, uploadId);
    LoggedRowEffect(records, video.name, SheetRecord(row[1], row[5]));
  }
}
