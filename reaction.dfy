/**
 * The reaction handler: when the magnifying-glass reaction is added to a
 * message, look the message up, check that its first attachment is a PNG or
 * JPEG image, fetch and describe it, announce that it is being processed, and
 * upload the recoloured (and possibly resized) image with a caption into the
 * message's thread.
 *
 * Every collaborator (message history, public-URL sharing, the fetch and
 * description block, decoding and colour correction, resizing, posting and
 * uploading) is an abstract input that succeeds or fails: a `World`.  The
 * handler's output is the ordered trace of the calls it makes to Slack and
 * to the fetch-and-describe block; decoding, colour correction and resizing
 * are not steps of their own.  `Thread` keeps the calls that become visible
 * in the thread.
 */
module Reaction {
  import opened Wrappers
  import opened Decimal
  import opened Scaling
  import opened AppSettings

  /** The reaction name that triggers the handler (the magnifying-glass emoji). */
  const TriggerReaction := "mag"

  /** The alt-text setting value that adds the description to the caption. */
  const AltTextEnabled := "Enabled"

  datatype Event = Event(reaction: string, channel: string, ts: string)

  datatype FileInfo = FileInfo(id: string, prettyType: string)

  /** A message as the history lookup returns it; `files` is absent from a message without attachments. */
  datatype Message = Message(files: Option<seq<FileInfo>>)

  /** The first caption of the description service: its text and its confidence as a rounded percentage. */
  datatype Description = Description(text: string, confidencePercent: int)

  /** What each collaborator does on this run. */
  datatype World = World(
    history: Option<Message>,   // None: the lookup raised, or returned no message
    publicUrlOk: bool,          // the call that makes the file public
    fetched: Option<Description>, // page fetch, image fetch, description and temporary write, as one block
    decoded: Option<Size>,      // decoding and colour correction, with the size of the corrected image
    resizeOk: bool,             // the resize call, for a target size that is not empty
    uploadOk: bool,             // the final upload
    failingPosts: set<string>)  // the texts of the thread notices whose posting raises

  /** The four notices the handler posts into the thread. */
  datatype Notice = NoImage | InvalidFile | FetchError | Processing

  function NoticeText(n: Notice): string {
    match n
    case NoImage => "\U{2753} Hmmm, there's no image attached to this message to be processed!"
    case InvalidFile => "\U{274C} Uh oh, that's not a valid file! Your attachment must be a PNG or JPG."
    case FetchError => "\U{274C} Oh no, an error occurred! Please contact the admin."
    case Processing => "\U{2705} Your image is being processed!"
  }

  /** One call the handler makes to Slack or to the fetch-and-describe block. */
  datatype Step =
    | LookUp(channel: string, ts: string)
    | SharePublicUrl(fileId: string)
    | FetchAndDescribe(fileId: string)
    | Post(channel: string, ts: string, text: string)
    | Upload(channel: string, ts: string, comment: string, size: Size)

  predicate IsImageType(prettyType: string) {
    prettyType == "PNG" || prettyType == "JPEG" || prettyType == "JFIF"
  }

  function CaptionHead(coloring: string): string {
    "Here is the converted image! " + coloring + "-friendly."
  }

  function AltTextLine(d: Description): string {
    "\n\nAlt Text: " + d.text + " (" + ConfidenceText(d.confidencePercent) + " Confidence)."
  }

  /** The caption of the uploaded image: the coloring it was made for, then the alt text exactly when the setting is "Enabled". */
  function Caption(s: Settings, d: Description): (c: string)
    ensures |c| >= |CaptionHead(s.coloring)| && c[..|CaptionHead(s.coloring)|] == CaptionHead(s.coloring)
    ensures |c| > |CaptionHead(s.coloring)| <==> s.altText == AltTextEnabled
    ensures s.altText == AltTextEnabled ==> c[|CaptionHead(s.coloring)|..] == AltTextLine(d)
  {
    var head := CaptionHead(s.coloring);
    if s.altText == AltTextEnabled then
      assert (head + AltTextLine(d))[..|head|] == head;
      assert (head + AltTextLine(d))[|head|..] == AltTextLine(d);
      head + AltTextLine(d)
    else
      head
  }

  /**
   * The size of the image that gets uploaded: the corrected image's size at
   * 100%, the scaled size otherwise; None when decoding, reading the
   * percentage or resizing raises.
   */
  function FinalSize(s: Settings, w: World): (r: Option<Size>)
    ensures r.Some? <==> (w.decoded.Some? && ParsePercent(s.resize).Some? &&
      (ParsePercent(s.resize).value != 100 ==>
        w.resizeOk && TargetSize(w.decoded.value, ParsePercent(s.resize).value).width > 0 &&
        TargetSize(w.decoded.value, ParsePercent(s.resize).value).height > 0))
    ensures r.Some? ==> r.value == TargetSize(w.decoded.value, ParsePercent(s.resize).value)
  {
    match w.decoded
    case None => None
    case Some(size) =>
      match ParsePercent(s.resize)
      case None => None
      case Some(p) =>
        if p == 100 then Some(size)
        else
          var t := Size(ScaledDim(size.width, p), ScaledDim(size.height, p));
          if w.resizeOk && t.width > 0 && t.height > 0 then Some(t) else None
  }

  /** The calls the handler makes for event e under settings s. */
  function ReactionTrace(s: Settings, e: Event, w: World): seq<Step> {
    if e.reaction != TriggerReaction then []
    else [LookUp(e.channel, e.ts)] + AfterLookUp(s, e, w)
  }

  function AfterLookUp(s: Settings, e: Event, w: World): seq<Step> {
    match w.history
    case None => []
    case Some(m) =>
      match m.files
      case None => [Post(e.channel, e.ts, NoticeText(NoImage))]
      case Some(files) =>
        if |files| == 0 then []
        else if !IsImageType(files[0].prettyType) then [Post(e.channel, e.ts, NoticeText(InvalidFile))]
        else [SharePublicUrl(files[0].id), FetchAndDescribe(files[0].id)] + AfterFetch(s, e, w)
  }

  function AfterFetch(s: Settings, e: Event, w: World): seq<Step> {
    match w.fetched
    case None => [Post(e.channel, e.ts, NoticeText(FetchError))]
    case Some(d) =>
      [Post(e.channel, e.ts, NoticeText(Processing))] +
      if NoticeText(Processing) in w.failingPosts then []
      else
        match FinalSize(s, w)
        case None => []
        case Some(size) => [Upload(e.channel, e.ts, Caption(s, d), size)]
  }

  /** The part of one call that shows in the thread: a notice whose post went through, an upload that succeeded. */
  function Visible(step: Step, w: World): seq<Step> {
    match step
    case Post(_, _, text) => if text in w.failingPosts then [] else [step]
    case Upload(_, _, _, _) => if w.uploadOk then [step] else []
    case _ => []
  }

  /** What a trace leaves in the thread. */
  function Thread(t: seq<Step>, w: World): seq<Step> {
    if t == [] then [] else Visible(t[0], w) + Thread(t[1..], w)
  }

  /**
   * The handler itself, step by step, reading the settings from the store.
   * Each failing collaborator ends the run the way the handler's exception
   * handling does.
   */
  method HandleReaction(store: SettingsStore, e: Event, w: World) returns (trace: seq<Step>)
    ensures trace == ReactionTrace(store.Snapshot(), e, w)
  {
    ghost var settings := store.Snapshot();
    trace := [];
    if e.reaction != TriggerReaction {
      return;
    }
    trace := trace + [LookUp(e.channel, e.ts)];
    assert ReactionTrace(settings, e, w) == trace + AfterLookUp(settings, e, w);
    if w.history.None? {
      // the message is left unbound; using it raises into the outer handler
      return;
    }
    var message := w.history.value;
    if message.files.None? {
      trace := trace + [Post(e.channel, e.ts, NoticeText(NoImage))];
      return;
    }
    var files := message.files.value;
    if |files| == 0 {
      // indexing the first file raises into the outer handler
      return;
    }
    if !IsImageType(files[0].prettyType) {
      trace := trace + [Post(e.channel, e.ts, NoticeText(InvalidFile))];
      return;
    }
    var fileId := files[0].id;
    trace := trace + [SharePublicUrl(fileId)];
    if !w.publicUrlOk {
      // logged and ignored
    }
    trace := trace + [FetchAndDescribe(fileId)];
    assert ReactionTrace(settings, e, w) == trace + AfterFetch(settings, e, w);
    if w.fetched.None? {
      trace := trace + [Post(e.channel, e.ts, NoticeText(FetchError))];
      return;
    }
    var description := w.fetched.value;
    ghost var before := trace;
    trace := trace + [Post(e.channel, e.ts, NoticeText(Processing))];
    if NoticeText(Processing) in w.failingPosts || w.decoded.None? {
      assert AfterFetch(settings, e, w) == [Post(e.channel, e.ts, NoticeText(Processing))];
      return;
    }
    var size := w.decoded.value;
    var percent := ParsePercent(store.resize);
    if percent.None? {
      assert AfterFetch(settings, e, w) == [Post(e.channel, e.ts, NoticeText(Processing))];
      return;
    }
    if percent.value != 100 {
      var newWidth := ScaledDim(size.width, percent.value);
      var newHeight := ScaledDim(size.height, percent.value);
      if !w.resizeOk || newWidth == 0 || newHeight == 0 {
        assert AfterFetch(settings, e, w) == [Post(e.channel, e.ts, NoticeText(Processing))];
        return;
      }
      size := Size(newWidth, newHeight);
    }
    var comment := CaptionHead(store.coloring);
    if store.altText == AltTextEnabled {
      comment := comment + AltTextLine(description);
    }
    assert comment == Caption(settings, description);
    assert FinalSize(settings, w) == Some(size);
    trace := trace + [Upload(e.channel, e.ts, comment, size)];
    assert trace == before + ([Post(e.channel, e.ts, NoticeText(Processing))] + [Upload(e.channel, e.ts, comment, size)]);
  }

  /** The calls that leave nothing in the thread by themselves. */
  predicate IsCall(st: Step) {
    st.LookUp? || st.SharePublicUrl? || st.FetchAndDescribe?
  }

  lemma {:induction false} ThreadAppend(a: seq<Step>, b: seq<Step>, w: World)
    ensures Thread(a + b, w) == Thread(a, w) + Thread(b, w)
  {
    if a == [] {
      assert a + b == b;
    } else {
      assert (a + b)[0] == a[0];
      assert (a + b)[1..] == a[1..] + b;
      ThreadAppend(a[1..], b, w);
    }
  }

  lemma ThreadSingle(st: Step, w: World)
    ensures Thread([st], w) == Visible(st, w)
  {
    assert [st][1..] == [];
  }

  /** Lookups, sharing and fetching show nothing: the thread of `calls + rest` is that of `rest`. */
  lemma {:induction false} ThreadSkipsCalls(calls: seq<Step>, rest: seq<Step>, w: World)
    requires forall i :: 0 <= i < |calls| ==> IsCall(calls[i])
    ensures Thread(calls + rest, w) == Thread(rest, w)
  {
    if calls == [] {
      assert calls + rest == rest;
    } else {
      ThreadAppend([calls[0]], calls[1..] + rest, w);
      ThreadSingle(calls[0], w);
      assert calls + rest == [calls[0]] + (calls[1..] + rest);
      ThreadSkipsCalls(calls[1..], rest, w);
    }
  }

  /** Any reaction other than the trigger causes no call at all. */
  lemma OtherReactionsIgnored(s: Settings, e: Event, w: World)
    requires e.reaction != TriggerReaction
    ensures ReactionTrace(s, e, w) == []
  {
  }

  /** A failed lookup ends in the outer handler: nothing is posted. */
  lemma LookUpFailureIsSilent(s: Settings, e: Event, w: World)
    requires e.reaction == TriggerReaction && w.history.None?
    ensures ReactionTrace(s, e, w) == [LookUp(e.channel, e.ts)]
    ensures Thread(ReactionTrace(s, e, w), w) == []
  {
    ThreadSingle(LookUp(e.channel, e.ts), w);
  }

  /** A message without `files` gets the no-image notice and nothing else: no fetch, no upload. */
  lemma MissingFilesNotice(s: Settings, e: Event, w: World)
    requires e.reaction == TriggerReaction && w.history == Some(Message(None))
    ensures ReactionTrace(s, e, w) == [LookUp(e.channel, e.ts), Post(e.channel, e.ts, NoticeText(NoImage))]
    ensures Thread(ReactionTrace(s, e, w), w) == Visible(Post(e.channel, e.ts, NoticeText(NoImage)), w)
  {
    ThreadSkipsCalls([LookUp(e.channel, e.ts)], [Post(e.channel, e.ts, NoticeText(NoImage))], w);
    ThreadSingle(Post(e.channel, e.ts, NoticeText(NoImage)), w);
  }

  /** A first attachment that is not PNG, JPEG or JFIF gets the invalid-file notice and nothing else. */
  lemma InvalidTypeNotice(s: Settings, e: Event, w: World, files: seq<FileInfo>)
    requires e.reaction == TriggerReaction && w.history == Some(Message(Some(files)))
    requires |files| > 0 && !IsImageType(files[0].prettyType)
    ensures ReactionTrace(s, e, w) == [LookUp(e.channel, e.ts), Post(e.channel, e.ts, NoticeText(InvalidFile))]
    ensures Thread(ReactionTrace(s, e, w), w) == Visible(Post(e.channel, e.ts, NoticeText(InvalidFile)), w)
  {
    ThreadSkipsCalls([LookUp(e.channel, e.ts)], [Post(e.channel, e.ts, NoticeText(InvalidFile))], w);
    ThreadSingle(Post(e.channel, e.ts, NoticeText(InvalidFile)), w);
  }

  /**
   * A failure anywhere in the fetch and description block posts the generic
   * error and ends the run: no processing notice, no upload.  This holds
   * whatever the alt-text setting says, since the description is fetched in
   * the same block.
   */
  lemma FetchFailureIsFatal(s: Settings, e: Event, w: World, files: seq<FileInfo>)
    requires e.reaction == TriggerReaction && w.history == Some(Message(Some(files)))
    requires |files| > 0 && IsImageType(files[0].prettyType) && w.fetched.None?
    ensures ReactionTrace(s, e, w) ==
      [LookUp(e.channel, e.ts), SharePublicUrl(files[0].id), FetchAndDescribe(files[0].id), Post(e.channel, e.ts, NoticeText(FetchError))]
    ensures Thread(ReactionTrace(s, e, w), w) == Visible(Post(e.channel, e.ts, NoticeText(FetchError)), w)
  {
    var calls := [LookUp(e.channel, e.ts), SharePublicUrl(files[0].id), FetchAndDescribe(files[0].id)];
    assert ReactionTrace(s, e, w) == calls + [Post(e.channel, e.ts, NoticeText(FetchError))];
    ThreadSkipsCalls(calls, [Post(e.channel, e.ts, NoticeText(FetchError))], w);
    ThreadSingle(Post(e.channel, e.ts, NoticeText(FetchError)), w);
  }

  /** A failure of the public-URL call alone changes nothing: the run goes on to the fetch. */
  lemma PublicUrlFailureSwallowed(s: Settings, e: Event, w: World)
    ensures ReactionTrace(s, e, w.(publicUrlOk := false)) == ReactionTrace(s, e, w.(publicUrlOk := true))
  {
  }

  /**
   * On the success path the thread shows the processing notice and then the
   * upload into the same channel and thread; a failing upload leaves only
   * the notice.
   */
  lemma SuccessPath(s: Settings, e: Event, w: World, files: seq<FileInfo>, d: Description, size: Size)
    requires e.reaction == TriggerReaction && w.history == Some(Message(Some(files)))
    requires |files| > 0 && IsImageType(files[0].prettyType) && w.fetched == Some(d)
    requires NoticeText(Processing) !in w.failingPosts && FinalSize(s, w) == Some(size)
    ensures ReactionTrace(s, e, w) ==
      [LookUp(e.channel, e.ts), SharePublicUrl(files[0].id), FetchAndDescribe(files[0].id),
       Post(e.channel, e.ts, NoticeText(Processing)), Upload(e.channel, e.ts, Caption(s, d), size)]
    ensures w.uploadOk ==> (Thread(ReactionTrace(s, e, w), w) ==
      [Post(e.channel, e.ts, NoticeText(Processing)), Upload(e.channel, e.ts, Caption(s, d), size)])
    ensures !w.uploadOk ==> Thread(ReactionTrace(s, e, w), w) == [Post(e.channel, e.ts, NoticeText(Processing))]
  {
    var calls := [LookUp(e.channel, e.ts), SharePublicUrl(files[0].id), FetchAndDescribe(files[0].id)];
    var notice, upload := Post(e.channel, e.ts, NoticeText(Processing)), Upload(e.channel, e.ts, Caption(s, d), size);
    assert ReactionTrace(s, e, w) == calls + ([notice] + [upload]);
    ThreadSkipsCalls(calls, [notice] + [upload], w);
    ThreadAppend([notice], [upload], w);
    ThreadSingle(notice, w);
    ThreadSingle(upload, w);
  }

  /** When decoding, reading the percentage or resizing raises, the run stops after the processing notice. */
  lemma TransformFailureStopsAfterNotice(s: Settings, e: Event, w: World, files: seq<FileInfo>)
    requires e.reaction == TriggerReaction && w.history == Some(Message(Some(files)))
    requires |files| > 0 && IsImageType(files[0].prettyType) && w.fetched.Some?
    requires NoticeText(Processing) in w.failingPosts || FinalSize(s, w).None?
    ensures ReactionTrace(s, e, w) ==
      [LookUp(e.channel, e.ts), SharePublicUrl(files[0].id), FetchAndDescribe(files[0].id), Post(e.channel, e.ts, NoticeText(Processing))]
    ensures Thread(ReactionTrace(s, e, w), w) == Visible(Post(e.channel, e.ts, NoticeText(Processing)), w)
  {
    var calls := [LookUp(e.channel, e.ts), SharePublicUrl(files[0].id), FetchAndDescribe(files[0].id)];
    assert ReactionTrace(s, e, w) == calls + [Post(e.channel, e.ts, NoticeText(Processing))];
    ThreadSkipsCalls(calls, [Post(e.channel, e.ts, NoticeText(Processing))], w);
    ThreadSingle(Post(e.channel, e.ts, NoticeText(Processing)), w);
  }

  /**
   * Every run leaves at most two things in the thread, all addressed to the
   * event's channel and thread; two only as the processing notice followed
   * by the upload.
   */
  lemma ThreadOutcome(s: Settings, e: Event, w: World)
    ensures |Thread(ReactionTrace(s, e, w), w)| <= 2
    ensures forall st :: st in Thread(ReactionTrace(s, e, w), w) ==>
      (st.Post? && st.channel == e.channel && st.ts == e.ts) ||
      (st.Upload? && st.channel == e.channel && st.ts == e.ts)
    ensures |Thread(ReactionTrace(s, e, w), w)| == 2 ==>
      Thread(ReactionTrace(s, e, w), w)[0] == Post(e.channel, e.ts, NoticeText(Processing)) &&
      Thread(ReactionTrace(s, e, w), w)[1].Upload?
  {
    if e.reaction == TriggerReaction {
      match w.history
      case None => LookUpFailureIsSilent(s, e, w);
      case Some(m) =>
        match m.files
        case None => MissingFilesNotice(s, e, w);
        case Some(files) =>
          if |files| == 0 {
            ThreadSingle(LookUp(e.channel, e.ts), w);
          } else if !IsImageType(files[0].prettyType) {
            InvalidTypeNotice(s, e, w, files);
          } else if w.fetched.None? {
            FetchFailureIsFatal(s, e, w, files);
          } else if NoticeText(Processing) !in w.failingPosts && FinalSize(s, w).Some? {
            SuccessPath(s, e, w, files, w.fetched.value, FinalSize(s, w).value);
          } else {
            TransformFailureStopsAfterNotice(s, e, w, files);
          }
    }
  }

  /** The description is needed even with alt text disabled: nothing is uploaded unless the fetch and description block succeeded. */
  lemma UploadNeedsDescription(s: Settings, e: Event, w: World)
    requires w.fetched.None?
    ensures forall st :: st in ReactionTrace(s, e, w) ==> !st.Upload?
  {
  }

  /** Without alt text, the caption of an upload determines the coloring it names. */
  lemma CaptionDeterminesColoring(s1: Settings, d1: Description, s2: Settings, d2: Description)
    requires s1.altText != AltTextEnabled && s2.altText != AltTextEnabled
    requires Caption(s1, d1) == Caption(s2, d2)
    ensures s1.coloring == s2.coloring
  {
    var c := Caption(s1, d1);
    var prefix := "Here is the converted image! ";
    var suffix := "-friendly.";
    assert c == prefix + s1.coloring + suffix;
    assert c == prefix + s2.coloring + suffix;
    assert s1.coloring == c[|prefix|..|c| - |suffix|];
    assert s2.coloring == c[|prefix|..|c| - |suffix|];
  }

  /** The caption under the default settings: Deuteranopia, with the alt text. */
  lemma DefaultCaption(d: Description)
    ensures Caption(DefaultSettings, d) ==
      "Here is the converted image! " + "Deuteranopia" + "-friendly." + "\n\nAlt Text: " + d.text +
      " (" + ConfidenceText(d.confidencePercent) + " Confidence)."
  {
    var confidence := ConfidenceText(d.confidencePercent);
    assert Caption(DefaultSettings, d) == CaptionHead("Deuteranopia") + AltTextLine(d);
    Associate(CaptionHead("Deuteranopia"), d.text, confidence);
  }

  lemma Associate(head: string, text: string, confidence: string)
    ensures head + ("\n\nAlt Text: " + text + " (" + confidence + " Confidence).") ==
      head + "\n\nAlt Text: " + text + " (" + confidence + " Confidence)."
  {
  }

  /**
   * A PNG reacted to with Deuteranopia, 100% and alt text enabled: the upload
   * keeps the corrected image's size and its caption names the coloring and
   * carries the description with its percentage.
   */
  lemma DeuteranopiaExample(e: Event, w: World, d: Description, size: Size)
    requires e.reaction == TriggerReaction
    requires w.history == Some(Message(Some([FileInfo("F1", "PNG")])))
    requires w.fetched == Some(d) && w.decoded == Some(size) && NoticeText(Processing) !in w.failingPosts && w.uploadOk
    ensures Thread(ReactionTrace(DefaultSettings, e, w), w) ==
      [Post(e.channel, e.ts, NoticeText(Processing)), Upload(e.channel, e.ts, Caption(DefaultSettings, d), size)]
  {
    MenuPercents();
    assert FinalSize(DefaultSettings, w) == Some(size);
    SuccessPath(DefaultSettings, e, w, [FileInfo("F1", "PNG")], d, size);
  }
}
