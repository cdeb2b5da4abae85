/**
 * The three-stage summarisation pipeline: stage 1 turns the audio into a draft
 * (a multimodal call, with a transcription fallback, or a segmented
 * transcription for large files), stage 2 reviews the draft and stage 3
 * rewrites it with the review. Every model call is answered by a `Backend`
 * the caller supplies; each stage reports the result together with the log of
 * the calls, file removals and progress notifications it made, in order.
 */
module AiSummarizer {
  import opened Wrappers
  import opened Text

  /** Files above this size skip the multimodal call. */
  const LargeAudioBytes: nat := 24 * 1024 * 1024
  /** Length of one transcription segment, in seconds. */
  const SegmentSeconds: nat := 600

  const ContextHeader: string := "请对以下视频内容进行转写和总结："
  const TranscriptHeading: string := "\n\n转写文本:\n\n"

  const Stage1Notice: string := "🔬 [1/3] Gemini 转写生成初稿..."
  const Stage2Notice: string := "🧠 [2/3] DeepSeek 深度审视..."
  const Stage3Notice: string := "🌐 [3/3] Sonnet 联网搜索生成终稿..."
  const DoneNotice: string := "✅ 处理完成"

  // ---------------------------------------------------------------------------
  // Calls, their answers and the log
  // ---------------------------------------------------------------------------

  /** The audio a transcription works on: the whole file or the segment that
      starts at the given second. */
  datatype AudioSource = Original | SegmentAt(start: int)

  /** The model calls the pipeline makes. */
  datatype Request =
    | DraftFromAudio(context: string)         // multimodal draft from the audio and the context
    | Transcription(audio: AudioSource)       // Whisper transcription
    | TranscriptionByChat(audio: AudioSource) // multimodal transcription, temperature 0.1
    | DraftFromTranscript(prompt: string)     // draft from a transcript
    | Review(prompt: string)                  // stage 2
    | Enrich(userContent: string)             // stage 3

  /** A content block of the stage 3 reply; a missing field is `None`. */
  datatype Block = Block(kind: Option<string>, text: Option<string>)

  /** The `content` of the stage 3 reply: absent, JSON null, a string or a
      list of blocks. */
  datatype Content = Missing | Null | Str(s: string) | Blocks(blocks: seq<Block>)

  /** The answers the services would give: a text for every request but the
      last, and a content for the stage 3 request. */
  datatype Backend = Backend(answer: Request -> Result<string>, enrich: string -> Result<Content>)

  datatype Event = Asked(request: Request) | Removed(segment: int) | Notified(message: string)

  /** A result together with what was done to reach it. */
  datatype Traced<T> = Traced(result: Result<T>, log: seq<Event>)

  // ---------------------------------------------------------------------------
  // Prompt builders
  // ---------------------------------------------------------------------------

  /** `_build_context`: the header line, then the title, author and
      requirement lines that are non-empty, joined by newlines. */
  function BuildContext(title: string, author: string, requirement: string): string {
    var lines := [ContextHeader]
      + (if title != "" then ["标题：" + title] else [])
      + (if author != "" then ["作者：" + author] else [])
      + (if requirement != "" then ["\n用户特别要求：" + requirement] else []);
    Join(lines, "\n")
  }

  /** Optional text: `s` when `present`, nothing otherwise. */
  function When(present: bool, s: string): string {
    if present then s else ""
  }

  /** The context written out: the header comes first, and each line is there
      exactly when its field is non-empty, in the order title, author,
      requirement; the requirement line is preceded by an empty line. */
  lemma BuildContextLayout(title: string, author: string, requirement: string)
    ensures BuildContext(title, author, requirement) ==
      ContextHeader
      + When(title != "", "\n标题：" + title)
      + When(author != "", "\n作者：" + author)
      + When(requirement != "", "\n\n用户特别要求：" + requirement)
  {
    var a := [ContextHeader];
    var b := a + (if title != "" then ["标题：" + title] else []);
    var c := b + (if author != "" then ["作者：" + author] else []);
    var d := c + (if requirement != "" then ["\n用户特别要求：" + requirement] else []);
    assert Join(a, "\n") == ContextHeader;
    assert "\n标题：" + title == "\n" + ("标题：" + title);
    assert "\n作者：" + author == "\n" + ("作者：" + author);
    assert "\n\n用户特别要求：" + requirement == "\n" + ("\n用户特别要求：" + requirement);
    JoinAppendOptional(a, title != "", "标题：" + title);
    JoinAppendOptional(b, author != "", "作者：" + author);
    JoinAppendOptional(c, requirement != "", "\n用户特别要求：" + requirement);
    assert BuildContext(title, author, requirement) == Join(d, "\n");
  }

  lemma JoinAppendOptional(lines: seq<string>, present: bool, s: string)
    requires lines != []
    ensures Join(lines + (if present then [s] else []), "\n") == Join(lines, "\n") + When(present, "\n" + s)
  {
    if present {
      assert (lines + [s])[..|lines|] == lines;
    } else {
      assert lines + [] == lines;
    }
  }

  /** The user prompt of a draft made from a transcript. */
  function TranscriptPrompt(context: string, transcript: string): string {
    context + TranscriptHeading + transcript
  }

  function ReviewPrompt(draft: string): string {
    "以下是初稿，请审视：\n\n---\n" + draft + "\n---\n\n请输出审查报告。"
  }

  /** The user content of stage 3: the draft section, the review section, a
      requirement section only when there is a requirement, the instruction. */
  function Stage3Content(draft: string, review: string, requirement: string): string {
    var c := "## 初稿\n" + draft + "\n\n## 审查报告\n" + review + "\n";
    var c := if requirement != "" then c + "\n## 用户要求\n" + requirement + "\n" else c;
    c + "\n请执行搜索任务并输出最终版笔记。"
  }

  /** The requirement section is there exactly when the requirement is not
      empty, between the review and the instruction. */
  lemma Stage3ContentSections(draft: string, review: string, requirement: string)
    ensures var c := Stage3Content(draft, review, requirement);
      var head := "## 初稿\n" + draft + "\n\n## 审查报告\n" + review + "\n";
      var tail := "\n请执行搜索任务并输出最终版笔记。";
      && |head| + |tail| <= |c|
      && c[..|head|] == head
      && c[|c| - |tail|..] == tail
      && (c[|head|..|c| - |tail|] == "" <==> requirement == "")
      && (requirement != "" ==> c[|head|..|c| - |tail|] == "\n## 用户要求\n" + requirement + "\n")
  {
    var c := Stage3Content(draft, review, requirement);
    var head := "## 初稿\n" + draft + "\n\n## 审查报告\n" + review + "\n";
    var tail := "\n请执行搜索任务并输出最终版笔记。";
    var mid := When(requirement != "", "\n## 用户要求\n" + requirement + "\n");
    assert c == head + mid + tail;
    assert c[..|head|] == head;
    assert c[|c| - |tail|..] == tail;
    assert c[|head|..|c| - |tail|] == mid;
  }

  // ---------------------------------------------------------------------------
  // Stage 1
  // ---------------------------------------------------------------------------

  /** `_transcribe_audio`: Whisper, and when it fails, a multimodal chat. */
  function Transcribe(audio: AudioSource, b: Backend): (t: Traced<string>)
    ensures t.result.Err? <==> b.answer(Transcription(audio)).Err? && b.answer(TranscriptionByChat(audio)).Err?
    ensures b.answer(Transcription(audio)).Ok? ==> t.result == b.answer(Transcription(audio))
    ensures b.answer(Transcription(audio)).Err? ==> t.result == b.answer(TranscriptionByChat(audio))
  {
    var whisper := b.answer(Transcription(audio));
    if whisper.Ok? then
      Traced(whisper, [Asked(Transcription(audio))])
    else
      Traced(b.answer(TranscriptionByChat(audio)), [Asked(Transcription(audio)), Asked(TranscriptionByChat(audio))])
  }

  /** `_stage1_fallback`: transcribe the whole file, then draft from the transcript. */
  function Fallback(context: string, b: Backend): Traced<string> {
    var t := Transcribe(Original, b);
    if t.result.Err? then t
    else
      var request := DraftFromTranscript(TranscriptPrompt(context, t.result.value));
      Traced(b.answer(request), t.log + [Asked(request)])
  }

  /** The number of segments `while start < duration` cuts: the count of
      multiples of 600 below `duration`, ceil(duration / 600) when positive. */
  function SegmentCount(duration: real): (n: nat)
    ensures n == 0 <==> duration <= 0.0
    ensures forall k: nat :: k < n <==> (k * SegmentSeconds) as real < duration
  {
    if duration <= 0.0 then 0
    else
      var q := duration / SegmentSeconds as real;
      var f := q.Floor;
      if f as real == q then f else f + 1
  }

  /** The start second of every segment. */
  function SegmentStarts(duration: real): (starts: seq<int>)
    ensures |starts| == SegmentCount(duration)
    ensures forall i :: 0 <= i < |starts| ==> starts[i] == i * SegmentSeconds
    ensures Increasing(starts)
  {
    seq(SegmentCount(duration), i => i * SegmentSeconds)
  }

  /** Strictly increasing: each start comes before every later one. */
  predicate Increasing(xs: seq<int>) {
    forall i, j :: 0 <= i < j < |xs| ==> xs[i] < xs[j]
  }

  /** The starts whose segment file was produced, in order. */
  function ProducedSegments(starts: seq<int>, produced: int -> bool): (segments: seq<int>)
    ensures |segments| <= |starts|
    ensures forall s :: s in segments <==> s in starts && produced(s)
  {
    if starts == [] then []
    else
      var last := starts[|starts| - 1];
      ProducedSegments(starts[..|starts| - 1], produced) + (if produced(last) then [last] else [])
  }

  /** The segments kept stay in the order of their starts, so the
      transcripts are joined in time order. */
  lemma {:induction false} ProducedSegmentsInOrder(starts: seq<int>, produced: int -> bool)
    requires Increasing(starts)
    ensures Increasing(ProducedSegments(starts, produced))
    decreases |starts|
  {
    if starts != [] {
      var init := starts[..|starts| - 1];
      var last := starts[|starts| - 1];
      var prev := ProducedSegments(init, produced);
      ProducedSegmentsInOrder(init, produced);
      forall i | 0 <= i < |prev|
        ensures prev[i] < last
      {
        assert prev[i] in init;
        var k :| 0 <= k < |init| && init[k] == prev[i];
        assert starts[k] == prev[i];
      }
    }
  }

  /** The segments cut from a file start at increasing seconds. */
  lemma SegmentsInTimeOrder(duration: real, produced: int -> bool)
    ensures Increasing(ProducedSegments(SegmentStarts(duration), produced))
  {
    ProducedSegmentsInOrder(SegmentStarts(duration), produced);
  }

  /** The outcome of the segment loop: the transcripts obtained and the log. */
  datatype Transcripts = Transcripts(parts: seq<string>, log: seq<Event>)

  /** The transcription loop: every segment is transcribed, a failure is
      skipped, and the segment's file is removed in either case. */
  function TranscribeAll(segments: seq<int>, b: Backend): Transcripts {
    if segments == [] then Transcripts([], [])
    else
      var prev := TranscribeAll(segments[..|segments| - 1], b);
      var s := segments[|segments| - 1];
      var t := Transcribe(SegmentAt(s), b);
      Transcripts(
        prev.parts + (if t.result.Ok? then [t.result.value] else []),
        prev.log + t.log + [Removed(s)])
  }

  /** What a large file needs from the outside: its size, the duration
      `ffprobe` reports (`None` when its output is not a number) and which
      segment files `ffmpeg` produces. */
  datatype Audio = Audio(size: nat, duration: Option<real>, produced: int -> bool)

  /** `_stage1_large_audio`: cut, transcribe what can be transcribed, draft
      from the joined transcripts. */
  function LargeAudio(audio: Audio, context: string, b: Backend): Traced<string> {
    match audio.duration
    case None => Traced(Err("ValueError: could not convert string to float"), [])
    case Some(duration) =>
      var tr := TranscribeAll(ProducedSegments(SegmentStarts(duration), audio.produced), b);
      var request := DraftFromTranscript(TranscriptPrompt(context, Join(tr.parts, "\n")));
      Traced(b.answer(request), tr.log + [Asked(request)])
  }

  /** `stage1_transcribe_and_draft`. */
  function Stage1(audio: Audio, title: string, author: string, requirement: string, b: Backend): Traced<string> {
    var context := BuildContext(title, author, requirement);
    if audio.size > LargeAudioBytes then
      LargeAudio(audio, context, b)
    else
      var primary := b.answer(DraftFromAudio(context));
      if primary.Ok? then
        Traced(primary, [Asked(DraftFromAudio(context))])
      else
        var f := Fallback(context, b);
        Traced(f.result, [Asked(DraftFromAudio(context))] + f.log)
  }

  // ---------------------------------------------------------------------------
  // Stages 2 and 3, and the pipeline
  // ---------------------------------------------------------------------------

  /** `stage2_critical_review`. */
  function Stage2(draft: string, b: Backend): Traced<string> {
    Traced(b.answer(Review(ReviewPrompt(draft))), [Asked(Review(ReviewPrompt(draft)))])
  }

  /** The `text` of every `type == "text"` block, in order; a missing `text` is "". */
  function BlockTexts(blocks: seq<Block>): (texts: seq<string>)
    ensures |texts| <= |blocks|
    ensures |blocks| == 1 ==> texts == if blocks[0].kind == Some("text") then [blocks[0].text.GetOr("")] else []
    ensures texts == [] <==> forall i :: 0 <= i < |blocks| ==> blocks[i].kind != Some("text")
  {
    if blocks == [] then []
    else
      var last := blocks[|blocks| - 1];
      BlockTexts(blocks[..|blocks| - 1]) + (if last.kind == Some("text") then [last.text.GetOr("")] else [])
  }

  /** The text stage 3 returns: the blocks' texts joined by newlines, the
      string itself, "" when there is no content, and `None` for JSON null. */
  function ExtractText(content: Content): (text: Option<string>)
    ensures text.None? <==> content.Null?
    ensures content.Missing? ==> text == Some("")
    ensures content.Str? ==> text == Some(content.s)
    ensures content.Blocks? && BlockTexts(content.blocks) == [] ==> text == Some("")
    ensures content.Blocks? && |BlockTexts(content.blocks)| == 1 ==> text == Some(BlockTexts(content.blocks)[0])
  {
    match content
    case Missing => Some("")
    case Null => None
    case Str(s) => Some(s)
    case Blocks(blocks) => Some(Join(BlockTexts(blocks), "\n"))
  }

  /** `stage3_enrich_and_finalize`. */
  function Stage3(draft: string, review: string, requirement: string, b: Backend): Traced<Option<string>> {
    var content := Stage3Content(draft, review, requirement);
    var reply := b.enrich(content);
    Traced(if reply.Ok? then Ok(ExtractText(reply.value)) else Err(reply.error), [Asked(Enrich(content))])
  }

  /** A progress notification, sent only when there is a callback. */
  function Notice(callback: bool, message: string): seq<Event> {
    if callback then [Notified(message)] else []
  }

  /** `summarize_with_audio`: the three stages in order, each announced, the
      first failure ending the run. */
  function Summarize(audio: Audio, title: string, author: string, requirement: string, callback: bool, b: Backend)
    : Traced<Option<string>>
  {
    AfterStage1(Stage1(audio, title, author, requirement, b), requirement, callback, b)
  }

  /** The run once stage 1 has given `s1`. */
  function AfterStage1(s1: Traced<string>, requirement: string, callback: bool, b: Backend): Traced<Option<string>> {
    var log1 := Notice(callback, Stage1Notice) + s1.log;
    if s1.result.Err? then Traced(Err(s1.result.error), log1)
    else
      var s2 := Stage2(s1.result.value, b);
      var log2 := log1 + Notice(callback, Stage2Notice) + s2.log;
      if s2.result.Err? then Traced(Err(s2.result.error), log2)
      else
        var s3 := Stage3(s1.result.value, s2.result.value, requirement, b);
        var log3 := log2 + Notice(callback, Stage3Notice) + s3.log;
        if s3.result.Err? then Traced(Err(s3.result.error), log3)
        else Traced(s3.result, log3 + Notice(callback, DoneNotice))
  }

  // ---------------------------------------------------------------------------
  // The loops of `_stage1_large_audio`
  // ---------------------------------------------------------------------------

  /** The cutting loop: a segment every 600 seconds while the start is below
      the duration, kept when its file was produced. */
  method CutSegments(duration: real, produced: int -> bool) returns (segments: seq<int>)
    ensures segments == ProducedSegments(SegmentStarts(duration), produced)
  {
    segments := [];
    var start := 0;
    ghost var k: nat := 0;
    while (start as real) < duration
      invariant k <= SegmentCount(duration) && start == k * SegmentSeconds
      invariant segments == ProducedSegments(SegmentStarts(duration)[..k], produced)
      decreases SegmentCount(duration) - k
    {
      assert SegmentStarts(duration)[..k + 1][..k] == SegmentStarts(duration)[..k];
      if produced(start) {
        segments := segments + [start];
      }
      start := start + SegmentSeconds;
      k := k + 1;
    }
    assert SegmentStarts(duration)[..k] == SegmentStarts(duration);
  }

  /** The transcription loop. */
  method TranscribeSegments(segments: seq<int>, b: Backend) returns (parts: seq<string>, log: seq<Event>)
    ensures Transcripts(parts, log) == TranscribeAll(segments, b)
  {
    parts, log := [], [];
    for i := 0 to |segments|
      invariant Transcripts(parts, log) == TranscribeAll(segments[..i], b)
    {
      assert segments[..i + 1][..i] == segments[..i];
      var t := Transcribe(SegmentAt(segments[i]), b);
      if t.result.Ok? {
        parts := parts + [t.result.value];
      }
      log := log + t.log + [Removed(segments[i])];
    }
    assert segments[..|segments|] == segments;
  }

  /** `_stage1_large_audio` with its two loops. */
  method LargeAudioDraft(audio: Audio, context: string, b: Backend) returns (t: Traced<string>)
    ensures t == LargeAudio(audio, context, b)
  {
    if audio.duration.None? {
      return Traced(Err("ValueError: could not convert string to float"), []);
    }
    var segments := CutSegments(audio.duration.value, audio.produced);
    var parts, log := TranscribeSegments(segments, b);
    var request := DraftFromTranscript(TranscriptPrompt(context, Join(parts, "\n")));
    t := Traced(b.answer(request), log + [Asked(request)]);
  }

  // ---------------------------------------------------------------------------
  // Properties
  // ---------------------------------------------------------------------------

  /** The requests of a log, in order. */
  function Requests(log: seq<Event>): seq<Request> {
    if log == [] then []
    else Requests(log[..|log| - 1]) + (if log[|log| - 1].Asked? then [log[|log| - 1].request] else [])
  }

  /** The segment files removed in a log, in order. */
  function Removals(log: seq<Event>): seq<int> {
    if log == [] then []
    else Removals(log[..|log| - 1]) + (if log[|log| - 1].Removed? then [log[|log| - 1].segment] else [])
  }

  /** The notifications of a log, in order. */
  function Notices(log: seq<Event>): seq<string> {
    if log == [] then []
    else Notices(log[..|log| - 1]) + (if log[|log| - 1].Notified? then [log[|log| - 1].message] else [])
  }

  lemma LogAppend(a: seq<Event>, c: seq<Event>)
    ensures Requests(a + c) == Requests(a) + Requests(c)
    ensures Removals(a + c) == Removals(a) + Removals(c)
    ensures Notices(a + c) == Notices(a) + Notices(c)
  {
    RequestsAppend(a, c);
    RemovalsAppend(a, c);
    NoticesAppend(a, c);
  }

  lemma {:induction false} RequestsAppend(a: seq<Event>, c: seq<Event>)
    ensures Requests(a + c) == Requests(a) + Requests(c)
    decreases |c|
  {
    if c == [] {
      assert a + c == a;
    } else {
      RequestsAppend(a, c[..|c| - 1]);
      assert (a + c)[..|a + c| - 1] == a + c[..|c| - 1];
    }
  }

  lemma {:induction false} RemovalsAppend(a: seq<Event>, c: seq<Event>)
    ensures Removals(a + c) == Removals(a) + Removals(c)
    decreases |c|
  {
    if c == [] {
      assert a + c == a;
    } else {
      RemovalsAppend(a, c[..|c| - 1]);
      assert (a + c)[..|a + c| - 1] == a + c[..|c| - 1];
    }
  }

  lemma {:induction false} NoticesAppend(a: seq<Event>, c: seq<Event>)
    ensures Notices(a + c) == Notices(a) + Notices(c)
    decreases |c|
  {
    if c == [] {
      assert a + c == a;
    } else {
      NoticesAppend(a, c[..|c| - 1]);
      assert (a + c)[..|a + c| - 1] == a + c[..|c| - 1];
    }
  }

  /** The transcripts of two runs of segments are those of each in turn. */
  lemma {:induction false} TranscribeAllAppend(a: seq<int>, c: seq<int>, b: Backend)
    ensures TranscribeAll(a + c, b).parts == TranscribeAll(a, b).parts + TranscribeAll(c, b).parts
    decreases |c|
  {
    if c == [] {
      assert a + c == a;
    } else {
      var init := c[..|c| - 1];
      TranscribeAllAppend(a, init, b);
      assert (a + c)[..|a + c| - 1] == a + init;
      assert (a + c)[|a + c| - 1] == c[|c| - 1];
    }
  }

  /** Best effort: a segment whose transcription fails contributes nothing,
      and the segments after it are still transcribed. */
  lemma TranscribeAllSkipsFailure(a: seq<int>, s: int, c: seq<int>, b: Backend)
    requires Transcribe(SegmentAt(s), b).result.Err?
    ensures TranscribeAll(a + [s] + c, b).parts == TranscribeAll(a + c, b).parts
  {
    TranscribeAllAppend(a + [s], c, b);
    TranscribeAllAppend(a, [s], b);
    TranscribeAllAppend(a, c, b);
    assert [s][..0] == [];
  }

  /** Requests that are transcriptions of segment files. */
  predicate SegmentTranscriptions(requests: seq<Request>) {
    forall i :: 0 <= i < |requests| ==>
      (requests[i].Transcription? || requests[i].TranscriptionByChat?) && requests[i].audio.SegmentAt?
  }

  /** Transcribing one segment removes no file and asks for transcriptions of
      that segment only. */
  lemma TranscribeSegmentEvents(s: int, b: Backend)
    ensures var t := Transcribe(SegmentAt(s), b);
      Removals(t.log) == [] && SegmentTranscriptions(Requests(t.log))
  {
    var audio := SegmentAt(s);
    var first := [Asked(Transcription(audio))];
    assert first[..0] == [];
    assert Requests(first) == [Transcription(audio)] && Removals(first) == [];
    if b.answer(Transcription(audio)).Err? {
      var log := first + [Asked(TranscriptionByChat(audio))];
      assert log[..1] == first;
      assert Requests(log) == [Transcription(audio), TranscriptionByChat(audio)];
      assert Removals(log) == [];
    }
  }

  /** Every segment file is removed, in order, whether or not its
      transcription succeeded. */
  lemma {:induction false} TranscribeAllRemovesEverySegment(segments: seq<int>, b: Backend)
    ensures Removals(TranscribeAll(segments, b).log) == segments
    decreases |segments|
  {
    if segments != [] {
      var init := segments[..|segments| - 1];
      var s := segments[|segments| - 1];
      var prev := TranscribeAll(init, b);
      var t := Transcribe(SegmentAt(s), b);
      TranscribeAllRemovesEverySegment(init, b);
      TranscribeSegmentEvents(s, b);
      RemovalsAppend(prev.log, t.log);
      RemovalsAppend(prev.log + t.log, [Removed(s)]);
      assert [Removed(s)][..0] == [];
      assert init + [s] == segments;
    }
  }

  /** The transcription loop asks for nothing but transcriptions of segments. */
  lemma {:induction false} TranscribeAllAsksTranscriptionsOnly(segments: seq<int>, b: Backend)
    ensures SegmentTranscriptions(Requests(TranscribeAll(segments, b).log))
    decreases |segments|
  {
    if segments != [] {
      var init := segments[..|segments| - 1];
      var s := segments[|segments| - 1];
      var prev := TranscribeAll(init, b);
      var t := Transcribe(SegmentAt(s), b);
      TranscribeAllAsksTranscriptionsOnly(init, b);
      TranscribeSegmentEvents(s, b);
      RequestsAppend(prev.log, t.log);
      RequestsAppend(prev.log + t.log, [Removed(s)]);
      assert [Removed(s)][..0] == [];
    }
  }

  /** No request is a draft from the audio itself. */
  predicate AsksNoAudioDraft(requests: seq<Request>) {
    forall i :: 0 <= i < |requests| ==> !requests[i].DraftFromAudio?
  }

  lemma TranscriptionsThenDraft(requests: seq<Request>, r: Request)
    requires SegmentTranscriptions(requests) && !r.DraftFromAudio?
    ensures AsksNoAudioDraft(requests + [r])
  {
  }

  /** The segmented path asks for transcriptions of segments and then for one
      draft from the transcript, never for a draft from the audio. */
  lemma LargeAudioRequests(audio: Audio, context: string, b: Backend)
    ensures AsksNoAudioDraft(Requests(LargeAudio(audio, context, b).log))
  {
    if audio.duration.Some? {
      var segments := ProducedSegments(SegmentStarts(audio.duration.value), audio.produced);
      var tr := TranscribeAll(segments, b);
      var r := DraftFromTranscript(TranscriptPrompt(context, Join(tr.parts, "\n")));
      assert LargeAudio(audio, context, b).log == tr.log + [Asked(r)];
      TranscribeAllAsksTranscriptionsOnly(segments, b);
      RequestsAppend(tr.log, [Asked(r)]);
      assert [Asked(r)][..0] == [];
      TranscriptionsThenDraft(Requests(tr.log), r);
    }
  }

  /** Routing of a file over 24 MiB: the segmented path, which never makes the
      multimodal call. */
  lemma Stage1RoutingLarge(audio: Audio, title: string, author: string, requirement: string, b: Backend)
    requires audio.size > LargeAudioBytes
    ensures AsksNoAudioDraft(Requests(Stage1(audio, title, author, requirement, b).log))
  {
    LargeAudioRequests(audio, BuildContext(title, author, requirement), b);
  }

  /** Routing of a file of at most 24 MiB: the multimodal call comes first. */
  lemma Stage1RoutingSmall(audio: Audio, title: string, author: string, requirement: string, b: Backend)
    requires audio.size <= LargeAudioBytes
    ensures var log := Stage1(audio, title, author, requirement, b).log;
      Requests(log) != [] && Requests(log)[0] == DraftFromAudio(BuildContext(title, author, requirement))
  {
    var context := BuildContext(title, author, requirement);
    var log := Stage1(audio, title, author, requirement, b).log;
    var first := [Asked(DraftFromAudio(context))];
    assert first[..0] == [];
    RequestsAppend(first, log[1..]);
    assert log == first + log[1..];
  }

  /** Whisper is asked first; the multimodal transcription is asked only
      when Whisper fails. */
  lemma TranscribeRequests(audio: AudioSource, b: Backend)
    ensures Requests(Transcribe(audio, b).log) ==
      [Transcription(audio)] + (if b.answer(Transcription(audio)).Err? then [TranscriptionByChat(audio)] else [])
  {
    var first := [Asked(Transcription(audio))];
    assert first[..0] == [];
    assert Requests(first) == [Transcription(audio)];
    if b.answer(Transcription(audio)).Err? {
      var log := first + [Asked(TranscriptionByChat(audio))];
      assert log[..1] == first;
      assert Requests(log) == [Transcription(audio), TranscriptionByChat(audio)];
    }
  }

  /** `_stage1_fallback` in the services' answers: the draft is made from
      the first transcription that succeeds, Whisper before the multimodal
      one; the fallback fails when both transcriptions fail, with the
      multimodal transcription's error, or when that draft fails. */
  lemma FallbackChain(context: string, b: Backend)
    ensures var whisper := b.answer(Transcription(Original));
      var chat := b.answer(TranscriptionByChat(Original));
      var transcribed := whisper.Ok? || chat.Ok?;
      var transcript := if whisper.Ok? then whisper.value else if chat.Ok? then chat.value else "";
      var draft := DraftFromTranscript(TranscriptPrompt(context, transcript));
      var f := Fallback(context, b);
      && (f.result.Err? <==> !transcribed || b.answer(draft).Err?)
      && (transcribed ==> f.result == b.answer(draft))
      && (!transcribed ==> f.result == chat)
      && Requests(f.log) ==
           [Transcription(Original)]
           + (if whisper.Err? then [TranscriptionByChat(Original)] else [])
           + (if transcribed then [draft] else [])
  {
    var t := Transcribe(Original, b);
    TranscribeRequests(Original, b);
    if t.result.Ok? {
      var r := DraftFromTranscript(TranscriptPrompt(context, t.result.value));
      RequestsAppend(t.log, [Asked(r)]);
      assert [Asked(r)][..0] == [];
    }
  }

  /** The fallback chain of a file of at most 24 MiB, in the services'
      answers: the multimodal draft is taken when it succeeds; otherwise the
      draft is made from the first transcription that succeeds, Whisper
      before the multimodal one, and stage 1 fails when both transcriptions
      fail or that draft does. Each call is made only when every call before
      it in the chain failed. */
  lemma Stage1FallbackChain(audio: Audio, title: string, author: string, requirement: string, b: Backend)
    requires audio.size <= LargeAudioBytes
    ensures var context := BuildContext(title, author, requirement);
      var primary := b.answer(DraftFromAudio(context));
      var whisper := b.answer(Transcription(Original));
      var chat := b.answer(TranscriptionByChat(Original));
      var transcribed := whisper.Ok? || chat.Ok?;
      var transcript := if whisper.Ok? then whisper.value else if chat.Ok? then chat.value else "";
      var draft := DraftFromTranscript(TranscriptPrompt(context, transcript));
      var s1 := Stage1(audio, title, author, requirement, b);
      && (s1.result.Err? <==> primary.Err? && (!transcribed || b.answer(draft).Err?))
      && (primary.Ok? ==> s1.result == primary)
      && (primary.Err? && transcribed ==> s1.result == b.answer(draft))
      && (primary.Err? && !transcribed ==> s1.result == chat)
      && Requests(s1.log) ==
           [DraftFromAudio(context)]
           + if primary.Ok? then []
             else
               [Transcription(Original)]
               + (if whisper.Err? then [TranscriptionByChat(Original)] else [])
               + (if transcribed then [draft] else [])
  {
    var context := BuildContext(title, author, requirement);
    var first := [Asked(DraftFromAudio(context))];
    assert first[..0] == [];
    assert Requests(first) == [DraftFromAudio(context)];
    FallbackChain(context, b);
    if b.answer(DraftFromAudio(context)).Err? {
      RequestsAppend(first, Fallback(context, b).log);
    }
  }

  /** The pipeline succeeds exactly when all three stages do, with stage 3's
      text, and there is no partial result: a failure returns that stage's error. */
  lemma SummarizeOutcome(audio: Audio, title: string, author: string, requirement: string, callback: bool, b: Backend)
    ensures var s1 := Stage1(audio, title, author, requirement, b);
      var r := Summarize(audio, title, author, requirement, callback, b).result;
      && (r.Ok? <==>
           s1.result.Ok?
           && Stage2(s1.result.value, b).result.Ok?
           && Stage3(s1.result.value, Stage2(s1.result.value, b).result.value, requirement, b).result.Ok?)
      && (r.Ok? ==> r == Stage3(s1.result.value, Stage2(s1.result.value, b).result.value, requirement, b).result)
      && (s1.result.Err? ==> r == Err(s1.result.error))
      && (s1.result.Ok? && Stage2(s1.result.value, b).result.Err? ==>
            r == Err(Stage2(s1.result.value, b).result.error))
      && (s1.result.Ok? && Stage2(s1.result.value, b).result.Ok? ==>
            r == Stage3(s1.result.value, Stage2(s1.result.value, b).result.value, requirement, b).result)
  {
  }

  /** How many stages a run starts: the first always, each next one only when
      the previous succeeded. */
  function StagesStarted(s1: Result<string>, s2: Result<string>): nat {
    if s1.Err? then 1 else if s2.Err? then 2 else 3
  }

  /** Order: the requests of a run are those of stage 1, then the review of
      the draft, then the stage 3 request on the draft, the review and the
      requirement, each only once the stage before succeeded. */
  lemma SummarizeRequests(audio: Audio, title: string, author: string, requirement: string, callback: bool, b: Backend)
    ensures var s1 := Stage1(audio, title, author, requirement, b);
      var run := Summarize(audio, title, author, requirement, callback, b);
      var draft := if s1.result.Ok? then s1.result.value else "";
      var s2 := Stage2(draft, b);
      var review := if s2.result.Ok? then s2.result.value else "";
      Requests(run.log) ==
        Requests(s1.log)
        + (if s1.result.Ok? then [Review(ReviewPrompt(draft))] else [])
        + (if s1.result.Ok? && s2.result.Ok? then [Enrich(Stage3Content(draft, review, requirement))] else [])
  {
    AfterStage1Requests(Stage1(audio, title, author, requirement, b), requirement, callback, b);
  }

  lemma AfterStage1Requests(s1: Traced<string>, requirement: string, callback: bool, b: Backend)
    ensures var run := AfterStage1(s1, requirement, callback, b);
      var draft := if s1.result.Ok? then s1.result.value else "";
      var s2 := Stage2(draft, b);
      var review := if s2.result.Ok? then s2.result.value else "";
      Requests(run.log) ==
        Requests(s1.log)
        + (if s1.result.Ok? then [Review(ReviewPrompt(draft))] else [])
        + (if s1.result.Ok? && s2.result.Ok? then [Enrich(Stage3Content(draft, review, requirement))] else [])
  {
    var n1 := Notice(callback, Stage1Notice);
    NoticeLog(callback, Stage1Notice);
    LogAppend(n1, s1.log);
    if s1.result.Ok? {
      var draft := s1.result.value;
      var s2 := Stage2(draft, b);
      LaterStagesRequests(n1 + s1.log, draft, requirement, callback, b);
      if s2.result.Ok? {
        LaterRequestsOk(s1, requirement, callback, b);
      } else {
        assert Requests(s1.log) + [Review(ReviewPrompt(draft))] + [] == Requests(s1.log) + [Review(ReviewPrompt(draft))];
      }
    } else {
      assert Requests(s1.log) + [] + [] == Requests(s1.log);
    }
  }

  lemma LaterRequestsOk(s1: Traced<string>, requirement: string, callback: bool, b: Backend)
    requires s1.result.Ok? && Stage2(s1.result.value, b).result.Ok?
    requires var draft := s1.result.value;
      var s2 := Stage2(draft, b);
      var s3 := Stage3(draft, s2.result.value, requirement, b);
      var log3 := Notice(callback, Stage1Notice) + s1.log + Notice(callback, Stage2Notice) + s2.log + Notice(callback, Stage3Notice) + s3.log;
      && Requests(Notice(callback, Stage1Notice) + s1.log) == Requests(s1.log)
      && Requests(log3) == Requests(Notice(callback, Stage1Notice) + s1.log) + [Review(ReviewPrompt(draft)), Enrich(Stage3Content(draft, s2.result.value, requirement))]
      && Requests(log3 + Notice(callback, DoneNotice)) == Requests(log3)
    ensures var draft := s1.result.value;
      var review := Stage2(draft, b).result.value;
      Requests(AfterStage1(s1, requirement, callback, b).log) ==
        Requests(s1.log) + [Review(ReviewPrompt(draft))] + [Enrich(Stage3Content(draft, review, requirement))]
  {
    var draft := s1.result.value;
    var review := Stage2(draft, b).result.value;
    assert [Review(ReviewPrompt(draft)), Enrich(Stage3Content(draft, review, requirement))]
      == [Review(ReviewPrompt(draft))] + [Enrich(Stage3Content(draft, review, requirement))];
  }

  /** The callback is told before each stage starts and once more at the end
      of a successful run, and never when there is no callback. */
  lemma SummarizeNotices(audio: Audio, title: string, author: string, requirement: string, callback: bool, b: Backend)
    ensures var s1 := Stage1(audio, title, author, requirement, b);
      var run := Summarize(audio, title, author, requirement, callback, b);
      var s2 := Stage2(if s1.result.Ok? then s1.result.value else "", b);
      var k := StagesStarted(s1.result, s2.result) + if run.result.Ok? then 1 else 0;
      Notices(run.log) == if callback then [Stage1Notice, Stage2Notice, Stage3Notice, DoneNotice][..k] else []
  {
    var s1 := Stage1(audio, title, author, requirement, b);
    Stage1HasNoNotices(audio, title, author, requirement, b);
    AfterStage1Notices(s1, requirement, callback, b);
  }

  lemma AfterStage1Notices(s1: Traced<string>, requirement: string, callback: bool, b: Backend)
    requires Notices(s1.log) == []
    ensures var run := AfterStage1(s1, requirement, callback, b);
      var s2 := Stage2(if s1.result.Ok? then s1.result.value else "", b);
      var k := StagesStarted(s1.result, s2.result) + if run.result.Ok? then 1 else 0;
      Notices(run.log) == if callback then [Stage1Notice, Stage2Notice, Stage3Notice, DoneNotice][..k] else []
  {
    var all := [Stage1Notice, Stage2Notice, Stage3Notice, DoneNotice];
    var run := AfterStage1(s1, requirement, callback, b);
    var n := Notices(run.log);
    if s1.result.Ok? {
      var s2 := Stage2(s1.result.value, b);
      if s2.result.Ok? {
        var s3 := Stage3(s1.result.value, s2.result.value, requirement, b);
        RunNoticesLater(s1, requirement, callback, b);
        if s3.result.Ok? {
          assert all[..4] == all;
        } else {
          assert all[..3] == [Stage1Notice, Stage2Notice, Stage3Notice];
        }
      } else {
        RunNoticesStage2Failed(s1, requirement, callback, b);
        assert all[..2] == [Stage1Notice, Stage2Notice];
      }
    } else {
      RunNoticesStage1Failed(s1, requirement, callback, b);
      assert all[..1] == [Stage1Notice];
    }
  }

  lemma RunNoticesStage1Failed(s1: Traced<string>, requirement: string, callback: bool, b: Backend)
    requires Notices(s1.log) == [] && s1.result.Err?
    ensures Notices(AfterStage1(s1, requirement, callback, b).log) == if callback then [Stage1Notice] else []
  {
    NoticeLog(callback, Stage1Notice);
    LogAppend(Notice(callback, Stage1Notice), s1.log);
  }

  lemma RunNoticesStage2Failed(s1: Traced<string>, requirement: string, callback: bool, b: Backend)
    requires Notices(s1.log) == [] && s1.result.Ok? && Stage2(s1.result.value, b).result.Err?
    ensures Notices(AfterStage1(s1, requirement, callback, b).log) == if callback then [Stage1Notice, Stage2Notice] else []
  {
    var log1 := Notice(callback, Stage1Notice) + s1.log;
    NoticeLog(callback, Stage1Notice);
    LogAppend(Notice(callback, Stage1Notice), s1.log);
    StageLogOrder(log1, callback, Stage2Notice, Asked(Review(ReviewPrompt(s1.result.value))));
  }

  lemma RunNoticesLater(s1: Traced<string>, requirement: string, callback: bool, b: Backend)
    requires Notices(s1.log) == [] && s1.result.Ok? && Stage2(s1.result.value, b).result.Ok?
    ensures var s3 := Stage3(s1.result.value, Stage2(s1.result.value, b).result.value, requirement, b);
      Notices(AfterStage1(s1, requirement, callback, b).log) ==
        if !callback then []
        else if s3.result.Ok? then [Stage1Notice, Stage2Notice, Stage3Notice, DoneNotice]
        else [Stage1Notice, Stage2Notice, Stage3Notice]
  {
    var draft := s1.result.value;
    var s2 := Stage2(draft, b);
    var s3 := Stage3(draft, s2.result.value, requirement, b);
    var log1 := Notice(callback, Stage1Notice) + s1.log;
    var log2 := log1 + Notice(callback, Stage2Notice) + s2.log;
    var log3 := log2 + Notice(callback, Stage3Notice) + s3.log;
    NoticeLog(callback, Stage1Notice);
    LogAppend(Notice(callback, Stage1Notice), s1.log);
    StageLogOrder(log1, callback, Stage2Notice, Asked(Review(ReviewPrompt(draft))));
    StageLogOrder(log2, callback, Stage3Notice, s3.log[0]);
    assert s3.log == [s3.log[0]];
    NoticeLog(callback, DoneNotice);
    LogAppend(log3, Notice(callback, DoneNotice));
  }

  /** The requests of the part of a run after a successful stage 1, whose log
      so far is `log1`: the review, then the stage 3 request once the review
      succeeded, and nothing more at the end. */
  lemma LaterStagesRequests(log1: seq<Event>, draft: string, requirement: string, callback: bool, b: Backend)
    ensures var s2 := Stage2(draft, b);
      var log2 := log1 + Notice(callback, Stage2Notice) + s2.log;
      && Requests(log2) == Requests(log1) + [Review(ReviewPrompt(draft))]
      && (s2.result.Ok? ==>
           var s3 := Stage3(draft, s2.result.value, requirement, b);
           var log3 := log2 + Notice(callback, Stage3Notice) + s3.log;
           && Requests(log3) == Requests(log1) + [Review(ReviewPrompt(draft)), Enrich(Stage3Content(draft, s2.result.value, requirement))]
           && Requests(log3 + Notice(callback, DoneNotice)) == Requests(log3))
  {
    var s2 := Stage2(draft, b);
    StageLogOrder(log1, callback, Stage2Notice, Asked(Review(ReviewPrompt(draft))));
    if s2.result.Ok? {
      var s3 := Stage3(draft, s2.result.value, requirement, b);
      var log2 := log1 + Notice(callback, Stage2Notice) + s2.log;
      StageLogOrder(log2, callback, Stage3Notice, s3.log[0]);
      assert s3.log == [s3.log[0]];
      var log3 := log2 + Notice(callback, Stage3Notice) + s3.log;
      NoticeLog(callback, DoneNotice);
      RequestsAppend(log3, Notice(callback, DoneNotice));
    }
  }

  /** Announcing a stage and making its one request. */
  lemma StageLogOrder(log: seq<Event>, callback: bool, message: string, e: Event)
    requires e.Asked?
    ensures Requests(log + Notice(callback, message) + [e]) == Requests(log) + [e.request]
    ensures Notices(log + Notice(callback, message) + [e]) == Notices(log) + Notice2(callback, message)
  {
    NoticeLog(callback, message);
    SingleEventLog(e);
    LogAppend(log, Notice(callback, message));
    LogAppend(log + Notice(callback, message), [e]);
  }

  /** The notifications a notice contributes. */
  function Notice2(callback: bool, message: string): seq<string> {
    if callback then [message] else []
  }

  lemma SingleEventLog(e: Event)
    ensures Requests([e]) == if e.Asked? then [e.request] else []
    ensures Notices([e]) == if e.Notified? then [e.message] else []
  {
    assert [e][..0] == [];
  }

  lemma NoticeLog(callback: bool, message: string)
    ensures Requests(Notice(callback, message)) == []
    ensures Notices(Notice(callback, message)) == Notice2(callback, message)
  {
    if callback {
      SingleEventLog(Notified(message));
    }
  }

  /** Stage 1 sends no notification of its own. */
  lemma Stage1HasNoNotices(audio: Audio, title: string, author: string, requirement: string, b: Backend)
    ensures Notices(Stage1(audio, title, author, requirement, b).log) == []
  {
    var context := BuildContext(title, author, requirement);
    if audio.size > LargeAudioBytes {
      LargeAudioHasNoNotices(audio, context, b);
    } else {
      var primary := Asked(DraftFromAudio(context));
      SingleEventLog(primary);
      if b.answer(DraftFromAudio(context)).Err? {
        FallbackHasNoNotices(context, b);
        LogAppend([primary], Fallback(context, b).log);
      }
    }
  }

  lemma LargeAudioHasNoNotices(audio: Audio, context: string, b: Backend)
    ensures Notices(LargeAudio(audio, context, b).log) == []
  {
    if audio.duration.Some? {
      var segments := ProducedSegments(SegmentStarts(audio.duration.value), audio.produced);
      var tr := TranscribeAll(segments, b);
      TranscribeAllHasNoNotices(segments, b);
      var request := DraftFromTranscript(TranscriptPrompt(context, Join(tr.parts, "\n")));
      LogAppend(tr.log, [Asked(request)]);
      SingleEventLog(Asked(request));
    }
  }

  lemma FallbackHasNoNotices(context: string, b: Backend)
    ensures Notices(Fallback(context, b).log) == []
  {
    var t := Transcribe(Original, b);
    TranscribeHasNoNotices(Original, b);
    if t.result.Ok? {
      var request := Asked(DraftFromTranscript(TranscriptPrompt(context, t.result.value)));
      SingleEventLog(request);
      LogAppend(t.log, [request]);
    }
  }

  lemma TranscribeHasNoNotices(audio: AudioSource, b: Backend)
    ensures Notices(Transcribe(audio, b).log) == []
  {
    var t := Transcribe(audio, b);
    SingleEventLog(t.log[0]);
    if |t.log| == 2 {
      assert t.log == [t.log[0]] + [t.log[1]];
      SingleEventLog(t.log[1]);
      LogAppend([t.log[0]], [t.log[1]]);
    } else {
      assert t.log == [t.log[0]];
    }
  }

  lemma {:induction false} TranscribeAllHasNoNotices(segments: seq<int>, b: Backend)
    ensures Notices(TranscribeAll(segments, b).log) == []
    decreases |segments|
  {
    if segments != [] {
      var init := segments[..|segments| - 1];
      var s := segments[|segments| - 1];
      var prev := TranscribeAll(init, b);
      var t := Transcribe(SegmentAt(s), b);
      TranscribeAllHasNoNotices(init, b);
      TranscribeHasNoNotices(SegmentAt(s), b);
      SingleEventLog(Removed(s));
      LogAppend(prev.log, t.log);
      LogAppend(prev.log + t.log, [Removed(s)]);
    }
  }

  /** Extracting text blocks from two runs of blocks is extracting from each in turn. */
  lemma {:induction false} BlockTextsAppend(a: seq<Block>, c: seq<Block>)
    ensures BlockTexts(a + c) == BlockTexts(a) + BlockTexts(c)
    decreases |c|
  {
    if c == [] {
      assert a + c == a;
    } else {
      var init := c[..|c| - 1];
      BlockTextsAppend(a, init);
      assert (a + c)[..|a + c| - 1] == a + init;
    }
  }
}
