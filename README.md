# Douyin summarizer bot: a verified model of its core

The bot receives WeCom (enterprise WeChat) callback messages. It ignores
re-deliveries through a short-lived dedup cache. When a user shares a Douyin
link, it opens a two-minute window for extra requirements. Then it runs the
video's audio through a three-stage AI pipeline and sends the result back as
text or markdown messages. This project models the core of that system in
Dafny and proves properties of the model.

- `wrappers.dfy` (module `Wrappers`): `Option` and `Result`.
- `text.dfy` (module `Text`): the Python `str` operations the core relies on.
  These are UTF-8 encoded length (section 3 of RFC 3629), slicing, `rfind`,
  `find`, `split` and `join` on one character, `strip`, `lower` and `str(int)`.
- `wechat_api.dfy` (module `WechatApi`): the message client in
  `app/services/wechat_api.py`. It covers the cached access token (refreshed
  60 s before expiry, default lifetime 7200 s), the text splitter (at most
  2000 UTF-8 bytes per part, cut preferably after a newline, with `[i/n]`
  markers), the markdown line packer (at most 1800 bytes per part) and the
  check of the media-upload reply. Class `WeCom` holds the module's token
  globals and an outbox of the messages posted.
- `ai_summarizer.dfy` (module `AiSummarizer`): the pipeline in
  `app/services/ai_summarizer.py`. It covers the context builder, stage 1
  routing (over 24 MiB goes to the segmented path), the fallback chain
  (multimodal draft, then Whisper, then multimodal transcription), the
  600-second segmentation and best-effort transcript join, the content and
  text extraction of stage 3, and the order of stages, errors and progress
  notifications. Model calls are answered by a `Backend` the caller supplies.
  Each stage returns its result together with the log of the calls, segment
  removals and notifications it made.
- `bot.dfy` (module `Bot`): the orchestration in `main.py`.
  - `Webhook` holds the dedup cache: the key is `msg_id + "_" + create_time`,
    the TTL is 300 s and stale entries are swept on every new message.
  - `Requirement` is the requirement merge with the trigger words 开始,
    start, ok and 好, compared after `strip().lower()`.
  - `Registry` is the per-user task registry, driven by three events: a text
    message, the debounce timer firing, and a pipeline run ending. Each method
    is proved against a state-transition function (`OnMessage`, `OnTimerFire`,
    `OnPipelineDone`). `Tracked` (every processing entry has a run in flight)
    is proved to hold across all three events. `Exclusive` (at most one run
    per user) is proved for the timer, the end of a run and the corrected
    message handler `OnMessageIntended`. The message handler as written
    breaks it (`Bot.LinkWhileProcessing`).

The model follows the code where it behaves in ways that are easy to miss:
- `handle_message` sends a busy reply to text that arrives while the user's
  task is processing (main.py:181-183). A message with a link, though, is
  routed to `_start_new_task` before that check (main.py:176-178), which
  replaces the task that is running. See the findings below.
- The dedup sweep drops entries strictly older than 300 s. The duplicate test
  treats an entry as live only while it is less than 300 s old. So a message
  exactly 300 s old is neither a duplicate nor swept (`Bot.BoundaryAge`).
- The segmented stage-1 path has no fallback. When its final chat fails,
  stage 1 fails.

## Model

| member | source | states |
|---|---|---|
| WechatApi.FittingCut | app/services/wechat_api.py:48-50 | The shrinking loop stops at the longest prefix of at most 2000 characters whose UTF-8 encoding fits in 2000 bytes. Every longer candidate does not fit. |
| WechatApi.FitCutBounds | app/services/wechat_api.py:48-50 | For content over the limit, the fitting prefix holds at least 500 characters and is shorter than the content. So every round of the splitter makes progress and leaves a remainder. |
| WechatApi.NextCutPrefersNewline | app/services/wechat_api.py:51-53 | The cut falls just after the last newline of the fitting prefix when that newline lies beyond the prefix's middle. Otherwise it falls at the prefix's end. No newline lies between the cut and the prefix's end. |
| WechatApi.CutPoint | app/services/wechat_api.py:48-53 | Computes that cut, which lies strictly inside the content. |
| WechatApi.TextSplit | app/services/wechat_api.py:44-55 | Every part is non-empty and at most 2000 UTF-8 bytes. There are no parts exactly when the content is empty. There is one part exactly when the content fits. |
| WechatApi.TextSplitConcat | app/services/wechat_api.py:44-55 | Concatenating the parts gives back the content. Nothing is lost, duplicated or reordered. |
| WechatApi.SplitText | app/services/wechat_api.py:43-55 | The `while content` loop, with its `break` on a fitting rest, produces exactly `TextSplit(content)`. |
| WechatApi.MarkerBytes | app/services/wechat_api.py:60 | The `[i/n]\n` marker is ASCII: its byte length is the number of digits of i and of n, plus 4. |
| WechatApi.LabelledBytes | app/services/wechat_api.py:58-60 | A sent part carries a marker only when there are several parts and it is not the first. Its byte size grows by exactly the marker's size. |
| WechatApi.ReterminatedSplit | app/services/wechat_api.py:80-81 | Splitting on newlines and giving every piece its newline back yields the content followed by one newline. |
| WechatApi.PackLinesInvariant | app/services/wechat_api.py:80-87 | After any number of lines, the loop state holds the lines seen so far, re-terminated and in order. The closed parts are well formed. Each closed part was closed only because the next line would not fit after it. |
| WechatApi.MarkdownPartsPacking | app/services/wechat_api.py:77-90 | The parts concatenate to the content plus a final newline. Each part ends with a newline. A part exceeds 1800 bytes only when it is a single line that is too long by itself. A part ends only where the first line of the next part would not fit. |
| WechatApi.MarkdownPartsEmpty | app/services/wechat_api.py:80-90 | Empty content is sent as one part holding a single newline. |
| WechatApi.MarkdownPartsNonEmpty | app/services/wechat_api.py:89-90 | At least one markdown part is always sent. |
| WechatApi.PackMarkdown | app/services/wechat_api.py:77-90 | The `for` loop over the lines produces exactly `MarkdownParts(content)`. |
| WechatApi.TokenOutcome | app/services/wechat_api.py:27-31 | A fetched token is accepted exactly when `errcode` is present and 0 and the reply holds `access_token`. The token returned is that field. |
| WechatApi.WeCom.GetAccessToken | app/services/wechat_api.py:13-33 | The cached token is returned, and nothing changes, exactly when it is non-empty and more than 60 s from expiry. Otherwise the reply decides. On success the cache holds the new token, which expires `expires_in` seconds (7200 when absent) after the reply arrives. On failure the cache is untouched. |
| WechatApi.WeCom.SendTextMessage | app/services/wechat_api.py:36-68 | Succeeds exactly when a token is available. A failure posts nothing. A success posts every part of `TextSplit(content)` in order, with its position marker. The token cache ends as `TokenCacheAfter` says: kept when fresh or when the fetch failed, otherwise the fetched token and its expiry. |
| WechatApi.WeCom.PostTextParts | app/services/wechat_api.py:57-68 | Appends one text post per part, in order, labelled as `Labelled` says. |
| WechatApi.WeCom.SendMarkdownMessage | app/services/wechat_api.py:71-106 | As written: with a token, only the first part is posted. The call succeeds exactly when there is one part, because the pacing sleep refers to an unimported `asyncio`. Without a token nothing is posted. The token cache ends as `TokenCacheAfter` says. |
| WechatApi.WeCom.SendMarkdownMessageIntended | app/services/wechat_api.py:71-106 | As intended: succeeds exactly when a token is available, and then posts every part of `MarkdownParts(content)` in order. The token cache ends as `TokenCacheAfter` says. |
| WechatApi.WeCom.PostMarkdownParts | app/services/wechat_api.py:92-101 | Appends one markdown post per part, in order. |
| WechatApi.UploadOutcome | app/services/wechat_api.py:119-122 | The upload fails exactly when the request fails or `errcode` is present and non-zero. Otherwise it returns `media_id`, or "" when absent. |
| WechatApi.WeCom.UploadTempMedia | app/services/wechat_api.py:109-122 | Fails when no token can be had. Otherwise the upload reply decides, as `UploadOutcome` states. On every path the token cache ends as `TokenCacheAfter` says. |
| WechatApi.TwoLongLinesNeedTwoParts | app/services/wechat_api.py:80-90 | Markdown of two 1000-character lines is packed into at least two parts. So the multi-part path of `send_markdown_message` is reachable. |
| AiSummarizer.BuildContextLayout | app/services/ai_summarizer.py:245-250 | The context is the header line, then a title line, an author line and an empty line before the requirement line. Each line is present exactly when its field is non-empty, in that order. |
| AiSummarizer.Stage3ContentSections | app/services/ai_summarizer.py:202-204 | The stage-3 content starts with the draft and review sections and ends with the instruction. A requirement section lies between them exactly when the requirement is non-empty. |
| AiSummarizer.Transcribe | app/services/ai_summarizer.py:169-182 | Transcription fails exactly when both Whisper and the multimodal transcription fail. When Whisper succeeds, its text is the result. When Whisper fails, the multimodal transcription's answer is the result. |
| AiSummarizer.TranscribeRequests | app/services/ai_summarizer.py:169-182 | Whisper is asked first. The multimodal transcription is asked next only when Whisper failed. |
| AiSummarizer.FallbackChain | app/services/ai_summarizer.py:131-139 | In the services' answers: the draft is made from the first transcript that succeeds, Whisper's before the multimodal one. The fallback fails exactly when both transcriptions fail, with the multimodal error, or when that draft fails. The requests are Whisper, then the multimodal transcription only if Whisper failed, then the draft only if a transcript exists. |
| AiSummarizer.Stage1FallbackChain | app/services/ai_summarizer.py:124-139 | For audio of at most 24 MiB, in the services' answers: the multimodal draft is the result when it succeeds. Otherwise the fallback chain decides, and stage 1 fails exactly when the multimodal draft fails and then either both transcriptions or the transcript draft fail. The requests list the multimodal draft, then each call of the chain only when every earlier call failed. |
| AiSummarizer.Stage1RoutingSmall | app/services/ai_summarizer.py:105-125 | For audio of at most 24 MiB, the first request is the multimodal draft with the built context. |
| AiSummarizer.Stage1RoutingLarge | app/services/ai_summarizer.py:105-107 | For audio over 24 MiB, no request is a multimodal draft from the whole audio. |
| AiSummarizer.SegmentCount | app/services/ai_summarizer.py:150-155 | The number of segments is the number of multiples of 600 below the duration, that is ceil(D/600) for a positive duration D. It is 0 exactly when the duration is not positive. |
| AiSummarizer.ProducedSegments | app/services/ai_summarizer.py:154 | A start is kept exactly when it is one of the segment starts and its file was produced. |
| AiSummarizer.ProducedSegmentsInOrder | app/services/ai_summarizer.py:150-155 | When the starts increase, the kept segments increase too, so no segment is reordered. |
| AiSummarizer.SegmentsInTimeOrder | app/services/ai_summarizer.py:150-164 | The segments cut from a file start at strictly increasing seconds, so the transcripts are joined in time order. |
| AiSummarizer.CutSegments | app/services/ai_summarizer.py:150-155 | The `while start < duration` loop yields exactly the produced segments of the 600-second starts, in order. |
| AiSummarizer.TranscribeSegments | app/services/ai_summarizer.py:157-162 | The segment loop yields exactly the transcripts and the log of `TranscribeAll`. |
| AiSummarizer.LargeAudioDraft | app/services/ai_summarizer.py:142-166 | The segmented path with both loops equals `LargeAudio`. When the duration is not a number it fails before anything is cut. |
| AiSummarizer.TranscribeAllSkipsFailure | app/services/ai_summarizer.py:157-160 | A segment whose transcription fails contributes nothing to the transcript, and the segments after it are still transcribed. |
| AiSummarizer.TranscribeAllRemovesEverySegment | app/services/ai_summarizer.py:161-162 | Every segment file is removed once, in order, whether or not its transcription succeeded. |
| AiSummarizer.TranscribeAllAsksTranscriptionsOnly | app/services/ai_summarizer.py:157-159 | The segment loop asks only for transcriptions of segments. |
| AiSummarizer.LargeAudioRequests | app/services/ai_summarizer.py:142-166 | The segmented path never asks for a multimodal draft from the audio. |
| AiSummarizer.BlockTexts | app/services/ai_summarizer.py:222-223 | A single block contributes its `text`, or "" when it has none, exactly when its type is "text", and nothing otherwise. There are at most as many texts as blocks, and none exactly when no block has type "text". |
| AiSummarizer.BlockTextsAppend | app/services/ai_summarizer.py:222-223 | Text extraction distributes over concatenation of block lists, so the block order is kept. With the one-block case of `BlockTexts`, this fixes the texts of every block list. |
| AiSummarizer.ExtractText | app/services/ai_summarizer.py:221-224 | Missing content gives "". A string is returned unchanged. The result is missing exactly when the content is JSON null. A block list without text blocks gives "", and a single text block gives its text alone. |
| AiSummarizer.SummarizeOutcome | app/services/ai_summarizer.py:227-242 | The pipeline succeeds exactly when all three stages do, with stage 3's text. The first failing stage's error is returned as is: stage 1's, else stage 2's, else stage 3's. |
| AiSummarizer.SummarizeRequests | app/services/ai_summarizer.py:232-239 | The requests are those of stage 1, then the review of the draft, then the stage-3 request built from draft, review and requirement. Each comes only after the previous stage succeeded. |
| AiSummarizer.SummarizeNotices | app/services/ai_summarizer.py:229-241 | With a callback, the notifications are the announcements of the stages that started, then "done" only on success. Without a callback there are none. |
| AiSummarizer.Stage1HasNoNotices | app/services/ai_summarizer.py:101-182 | Stage 1, on every path, sends no notification itself. |
| Bot.DedupKeyFields | main.py:124-126 | The dedup key splits back into message id and create time at its first underscore, when the id has no underscore. A missing field counts as "". |
| Bot.DedupKeyInjective | main.py:124-126 | When neither message id contains an underscore, two keys are equal exactly when their message ids and create times are equal. WeCom's `MsgId` is numeric, so this premise holds for its callbacks. |
| Bot.RecordedCache | main.py:128-134 | Recording keeps the new key with the current time and drops every entry more than 300 s old. Every other entry keeps its time. The same key is a duplicate for exactly the next 300 s. |
| Bot.BoundaryAge | main.py:128-134 | An entry exactly 300 s old is neither a duplicate nor swept. |
| Bot.Webhook.Sweep | main.py:133-134 | The sweep loop leaves exactly the entries at most 300 s old. |
| Bot.Webhook.Receive | main.py:107-146 | Always answers "success". A message without type or sender, or a duplicate, changes nothing. Any other message is recorded and the cache swept. Only a text message with content is dispatched. |
| Bot.Requirement | main.py:230-233 | The merged requirement is either the share text or the follow-up text. With no follow-up, which is the timer's path, it is the share text. |
| Bot.TriggerKeepsShareText | main.py:230-233 | A follow-up that is a trigger word after strip and lower keeps the share text. |
| Bot.FollowUpReplacesShareText | main.py:230-233 | Any other non-blank follow-up replaces the share text. |
| Bot.TriggerDespiteCaseAndSpace | main.py:232 | A trigger word surrounded by whitespace, in any letter case, still keeps the share text. |
| Bot.FollowUpStartsRun | main.py:153-172 | A non-link message to a waiting task stores the stripped text as the extra requirement, marks the task processing and starts one run with the merged requirement. It sends no reply. |
| Bot.TimerStartsCurrentEntry | main.py:210-225 | When the timer fires, a run starts with the current entry's link and requirement only if the entry exists and is not processing. Otherwise nothing changes. |
| Bot.PipelineDoneRemovesEntry | main.py:287-294 | The end of a run removes the user's entry, whatever it now is, and one in-flight run. Other users' entries are untouched. |
| Bot.AfterRunStartTracked | main.py:221-225 | Starting a run keeps every processing entry backed by a run in flight. |
| Bot.OnMessageTracked | main.py:149-197 | Every message keeps every processing entry backed by a run in flight. |
| Bot.OnTimerFireTracked | main.py:210-218 | A timer firing keeps every processing entry backed by a run in flight. |
| Bot.OnPipelineDoneTracked | main.py:287-294 | The end of a run keeps every processing entry backed by a run in flight. |
| Bot.AfterRunStartExclusive | main.py:221-225 | Starting a run on a waiting entry keeps at most one run per user, in flight exactly while the entry is processing. |
| Bot.AfterNewTaskExclusive | main.py:200-207 | Creating a task for a user with no run keeps exclusivity. |
| Bot.OnTimerFireExclusive | main.py:210-218 | The timer's re-check keeps exclusivity. A timer racing an explicit trigger cannot start a second run. |
| Bot.OnPipelineDoneExclusive | main.py:287-294 | The end of a run keeps exclusivity. |
| Bot.OnMessageIntendedExclusive | main.py:149-191 | The corrected message handler keeps exclusivity on every message. |
| Bot.LinkWhileProcessing | main.py:153-179 | As written: a link sent while the user's task is processing replaces the entry and breaks exclusivity. A following "开始" starts a second concurrent run. The first run's cleanup then removes the second task's entry while that run is still in flight. |
| Bot.Registry.constructor | main.py:64-76 | The registry starts with no tasks, runs or replies. |
| Bot.Registry.StartNewTask | main.py:200-207 | Stores a fresh task and delivers the acknowledgement, arming the timer. If that send raises, the failure reply is delivered instead and no timer is armed. |
| Bot.Registry.ProcessTask | main.py:221-233 | Does nothing when the user has no entry. Otherwise it marks the entry processing and starts a run with the merged requirement. |
| Bot.Registry.Message | main.py:149-197 | The new state is `OnMessage` of the old one: follow-up, new link, busy reply or help reply. |
| Bot.Registry.MessageIntended | main.py:149-191 | The new state is `OnMessageIntended` of the old one. |
| Bot.Registry.TimerFire | main.py:210-218 | The new state is `OnTimerFire` of the old one. |
| Bot.Registry.PipelineDone | main.py:287-294 | The new state is `OnPipelineDone` of the old one. |

## Left out

- HTTP, the callback's signature check and decryption, and XML parsing are not modelled. Replies of the token, upload and model endpoints are parameters (`TokenReply`, `UploadReply`, `Backend`). The parsed callback fields are `Option` parameters, `None` when the element is missing.
- Clocks are parameters (`now`, `later`) holding exact reals, so float rounding of `time.time()` is not modelled.
- `extract_url_from_text` and `extract_user_requirement` are not part of this model. Their results are the `link` and `inlineReq` parameters.
- The body of a pipeline run in `_process_task` is not modelled. That covers download, audio extraction, video code, knowledge store, PDF, delivery of the summary and the failure message. A run is the `Run` record at its start and the `PipelineDone` event at its end.
- Timers and tasks are events. Cancelling a timer is the `timerLive` flag set to false.
- Bot.Registry.TimerFire: accepts a fire for any user at any time, not only while a live timer exists. Its own re-check decides, as in the source.
- Bot.Registry.StartNewTask: treats the acknowledgement send and the timer creation as one step. Another event that interleaves at that `await` is not modelled.
- Bot.Registry.Message: a failed send of the busy or help reply is not modelled. Those replies are recorded as sent.
- WechatApi.WeCom: each method is one atomic step. In the source every `await` on the HTTP client is a suspension point, so the posts of two concurrent sends to one user can interleave, and two callers that both find the token stale can both fetch one. The model's outbox holds each call's posts contiguously.
- WechatApi.WeCom.SendTextMessage: a post that raises is not modelled, so every part is recorded as posted. The source ignores HTTP status, as the model does.
- WechatApi.WeCom.SendMarkdownMessage: the 0.2 s pacing sleep is not modelled, only the `NameError` it raises. A failing post is logged and skipped in the source, so it is simply recorded.
- `_chat` is a `Backend` answer, which leaves out its message layout, models, temperatures and timeouts.
- AiSummarizer.LargeAudioDraft: `ffprobe` and `ffmpeg` are the `Audio` fields `duration` and `produced`. A non-numeric duration is an error. Infinite or NaN durations are not modelled. Segment files are named by their start second.
- AiSummarizer.Stage3: a malformed reply (no `choices`, a block that is not an object) is an `Err` of `enrich`. Blocks are modelled only as their `type` and `text` fields.
- AiSummarizer.Transcribe: the Whisper response is its text. Its HTTP status check is folded into `Err`.
- Logging and the random video code are not modelled.

## Findings

| source | as written | input that shows it | evidently intended | confidence | as-written member | corrected member |
|---|---|---|---|---|---|---|
| app/services/wechat_api.py:105-106 | `send_markdown_message` paces multi-part sends with `asyncio.sleep`, but the module does not import `asyncio` | markdown of two 1000-character lines: two parts, `NameError` after the first post, second part never sent | every part is posted | not executed | WechatApi.WeCom.SendMarkdownMessage, WechatApi.TwoLongLinesNeedTwoParts | WechatApi.WeCom.SendMarkdownMessageIntended |
| main.py:153-179 | a link from a user whose task is processing falls through to `_start_new_task`, which overwrites the entry | task processing for "u", then a link from "u", then "开始" from "u": two concurrent runs for "u", and the first run's `finally` removes the second task | a user with a task in progress gets the busy reply | not executed | Bot.Registry.Message, Bot.LinkWhileProcessing | Bot.Registry.MessageIntended, Bot.OnMessageIntendedExclusive |
