/**
 * The WeCom (enterprise WeChat) message API client: the cached access token,
 * the splitting of plain text and markdown into messages that fit the
 * transport's byte limits, and the check of the media-upload reply.
 * HTTP requests are replaced by the replies they would get, supplied by the
 * caller; the messages posted are recorded in an outbox.
 */
module WechatApi {
  import opened Wrappers
  import opened Text

  /** Byte limit of one text message. */
  const MaxTextBytes: nat := 2000
  /** Byte limit of one markdown message. */
  const MaxMarkdownBytes: nat := 1800
  /** A cached token is refreshed this many seconds before it expires. */
  const TokenMargin: real := 60.0
  /** Lifetime assumed when the token reply has no `expires_in`. */
  const DefaultExpiresIn: real := 7200.0

  // ---------------------------------------------------------------------------
  // Plain-text splitting
  // ---------------------------------------------------------------------------

  /** Searching down from `c`, the first prefix length whose encoding fits the
      text limit (prefixes of length 0 always fit). */
  function FitCutFrom(s: string, c: nat): (r: nat)
    ensures r <= c
    ensures ByteLength(Prefix(s, r)) <= MaxTextBytes
    ensures forall c' :: r < c' <= c ==> ByteLength(Prefix(s, c')) > MaxTextBytes
    decreases c
  {
    if ByteLength(Prefix(s, c)) <= MaxTextBytes then c else FitCutFrom(s, c - 1)
  }

  /** The largest cut of at most `MaxTextBytes` characters whose prefix fits. */
  function FitCut(s: string): nat {
    FitCutFrom(s, MaxTextBytes)
  }

  /** Content that does not fit has a fitting cut of at least 500 characters
      (no character takes more than 4 bytes), and that cut leaves something behind. */
  lemma FitCutBounds(s: string)
    requires ByteLength(s) > MaxTextBytes
    ensures MaxTextBytes / 4 <= FitCut(s) < |s|
  {
    var fit := FitCut(s);
    FitBounds(s, fit, Prefix(s, fit), Prefix(s, MaxTextBytes / 4));
  }

  lemma FitBounds(s: string, fit: nat, p: string, q: string)
    requires ByteLength(s) > MaxTextBytes
    requires p == Prefix(s, fit) && ByteLength(p) <= MaxTextBytes
    requires q == Prefix(s, MaxTextBytes / 4)
    requires fit < MaxTextBytes / 4 ==> ByteLength(q) > MaxTextBytes
    ensures MaxTextBytes / 4 <= fit < |s|
  {
    assert |s| > MaxTextBytes / 4;
    assert |q| == MaxTextBytes / 4;
    assert |p| == |s| ==> p == s by {
      assert s[..|s|] == s;
    }
    assert p != s;
  }

  /** Where the splitter cuts content that does not fit in one message (the
      rule itself is stated by NextCutPrefersNewline). */
  function NextCut(s: string): (cut: nat)
    requires ByteLength(s) > MaxTextBytes
    ensures MaxTextBytes / 8 < cut < |s|
    ensures ByteLength(s[..cut]) <= MaxTextBytes
  {
    FitCutBounds(s);
    var fit := FitCut(s);
    var nl := RFind(s[..fit], '\n');
    var cut := if nl > fit / 2 then nl + 1 else fit;
    assert Prefix(s, fit) == s[..fit];
    ByteLengthPrefix(s, cut, fit);
    cut
  }

  /** The cut falls after the last newline of the fitting prefix when that
      newline lies beyond the prefix's middle, and at the end of the fitting
      prefix when no newline does. */
  lemma NextCutPrefersNewline(s: string)
    requires ByteLength(s) > MaxTextBytes
    ensures FitCut(s) / 2 < NextCut(s) <= FitCut(s)
    ensures forall j :: NextCut(s) <= j < FitCut(s) ==> s[j] != '\n'
    ensures NextCut(s) < FitCut(s) ==> s[NextCut(s) - 1] == '\n'
    ensures forall j :: FitCut(s) / 2 < j < FitCut(s) && s[j] == '\n' ==> s[NextCut(s) - 1] == '\n'
    ensures (forall j :: FitCut(s) / 2 < j < FitCut(s) ==> s[j] != '\n') ==> NextCut(s) == FitCut(s)
  {
    var fit := FitCut(s);
    NextCutIs(s, fit);
    var pre := s[..fit];
    var nl := RFind(pre, '\n');
    forall j | nl < j < fit
      ensures s[j] != '\n'
    {
      assert s[j] == pre[j];
    }
  }

  /** The first message cut from content that does not fit. */
  function FirstPart(s: string): string
    requires ByteLength(s) > MaxTextBytes
  {
    s[..NextCut(s)]
  }

  /** The parts the splitting loop of `send_text_message` produces: none for
      empty content, the content itself when it fits, and otherwise the first
      cut followed by the parts of what remains. Every part is non-empty and
      fits the limit. */
  function TextSplit(content: string): (parts: seq<string>)
    ensures forall i :: 0 <= i < |parts| ==> parts[i] != [] && ByteLength(parts[i]) <= MaxTextBytes
    ensures parts == [] <==> content == []
    ensures |parts| == 1 <==> content != [] && ByteLength(content) <= MaxTextBytes
    decreases |content|
  {
    if content == [] then []
    else if ByteLength(content) <= MaxTextBytes then [content]
    else
      var cut := NextCut(content);
      [content[..cut]] + TextSplit(content[cut..])
  }

  /** Round trip: the parts concatenate back to the content. */
  lemma {:induction false} TextSplitConcat(content: string)
    ensures Concat(TextSplit(content)) == content
    decreases |content|
  {
    var parts := TextSplit(content);
    if content == [] {
    } else if ByteLength(content) <= MaxTextBytes {
      ConcatAppend([], content);
    } else {
      var cut := NextCut(content);
      var rest := TextSplit(content[cut..]);
      assert parts == [content[..cut]] + rest by {
        TextSplitCons(content);
      }
      assert Concat(rest) == content[cut..] by {
        TextSplitConcat(content[cut..]);
      }
      assert Concat(parts) == content[..cut] + Concat(rest) by {
        ConcatFront(parts);
        assert parts[1..] == rest;
      }
      PrefixSuffix(content, cut);
    }
  }

  /** The cut made from a given fitting cut. */
  lemma NextCutIs(s: string, fit: nat)
    requires ByteLength(s) > MaxTextBytes && fit == FitCut(s)
    ensures fit < |s|
    ensures var nl := RFind(s[..fit], '\n');
      NextCut(s) == if nl > fit / 2 then nl + 1 else fit
  {
    FitCutBounds(s);
  }

  /** The last round of the splitting loop: the rest fits and is the last part. */
  lemma SplitLastPart(parts: seq<string>, rest: string, content: string)
    requires parts + TextSplit(rest) == TextSplit(content)
    requires rest != [] && ByteLength(rest) <= MaxTextBytes
    ensures parts + [rest] == TextSplit(content)
  {
  }

  /** Any other round: the cut prefix is the next part. */
  lemma SplitNextPart(parts: seq<string>, rest: string, content: string, cut: nat)
    requires parts + TextSplit(rest) == TextSplit(content)
    requires ByteLength(rest) > MaxTextBytes && cut == NextCut(rest)
    ensures cut <= |rest|
    ensures (parts + [rest[..cut]]) + TextSplit(rest[cut..]) == TextSplit(content)
  {
    TextSplitCons(rest);
    assert (parts + [rest[..cut]]) + TextSplit(rest[cut..]) == parts + ([rest[..cut]] + TextSplit(rest[cut..]));
  }

  /** Content that does not fit splits into its first cut and the split of the rest. */
  lemma TextSplitCons(s: string)
    requires ByteLength(s) > MaxTextBytes
    ensures TextSplit(s) == [s[..NextCut(s)]] + TextSplit(s[NextCut(s)..])
  {
  }

  /** The inner loop of the splitter: shrink the cut from `MaxTextBytes`
      characters until the prefix fits. */
  method FittingCut(s: string) returns (cut: nat)
    ensures cut <= MaxTextBytes && ByteLength(Prefix(s, cut)) <= MaxTextBytes
    ensures forall c :: cut < c <= MaxTextBytes ==> ByteLength(Prefix(s, c)) > MaxTextBytes
    ensures cut == FitCut(s)
  {
    cut := MaxTextBytes;
    while ByteLength(Prefix(s, cut)) > MaxTextBytes
      invariant FitCutFrom(s, cut) == FitCut(s)
      decreases cut
    {
      cut := cut - 1;
    }
  }

  /** One round of the splitting loop: the fitting cut, moved back to just
      after the last newline when that lies beyond the cut's middle. */
  method CutPoint(s: string) returns (cut: nat)
    requires ByteLength(s) > MaxTextBytes
    ensures 0 < cut < |s|
    ensures cut == NextCut(s)
  {
    var fit := FittingCut(s);
    NextCutIs(s, fit);
    cut := fit;
    var lastNewline := RFind(s[..fit], '\n');
    if lastNewline > fit / 2 {
      cut := lastNewline + 1;
    }
  }

  /** The splitting loop of `send_text_message`. */
  method SplitText(content: string) returns (parts: seq<string>)
    ensures parts == TextSplit(content)
  {
    parts := [];
    var rest := content;
    ghost var all := TextSplit(content);
    while rest != []
      invariant parts + TextSplit(rest) == all
      decreases |rest|
    {
      if ByteLength(rest) <= MaxTextBytes {
        SplitLastPart(parts, rest, content);
        parts := parts + [rest];
        break;
      }
      var cut := CutPoint(rest);
      SplitNextPart(parts, rest, content, cut);
      parts := parts + [rest[..cut]];
      rest := rest[cut..];
    }
  }

  /** The `[i/n]` line put before message `i` (counting from 1) of `n`. */
  function PartMarker(i: nat, n: nat): string {
    "[" + DecimalString(i) + "/" + DecimalString(n) + "]\n"
  }

  /** The text actually sent for part `i`: unmarked when there is a single part
      and for the first part, marked with its position otherwise. */
  function Labelled(parts: seq<string>, i: nat): string
    requires i < |parts|
  {
    if |parts| > 1 && i > 0 then PartMarker(i + 1, |parts|) + parts[i] else parts[i]
  }

  /** The marker is ASCII: one byte for each of its characters. */
  lemma MarkerBytes(i: nat, n: nat)
    ensures ByteLength(PartMarker(i, n)) == |DecimalString(i)| + |DecimalString(n)| + 4
  {
    var m := PartMarker(i, n);
    var a, b := DecimalString(i), DecimalString(n);
    assert m == "[" + a + "/" + b + "]\n";
    forall k | 0 <= k < |m| ensures m[k] as int < 0x80 {
      if 1 <= k < 1 + |a| {
        assert m[k] == a[k - 1];
      } else if 2 + |a| <= k < 2 + |a| + |b| {
        assert m[k] == b[k - 2 - |a|];
      }
    }
    ByteLengthAscii(m);
  }

  /** The text sent for a part is the part plus its marker, so a marked part
      may go past `MaxTextBytes` by the marker's length. */
  lemma LabelledBytes(parts: seq<string>, i: nat)
    requires i < |parts|
    ensures ByteLength(Labelled(parts, i)) ==
      ByteLength(parts[i]) + if |parts| > 1 && i > 0 then |DecimalString(i + 1)| + |DecimalString(|parts|)| + 4 else 0
  {
    if |parts| > 1 && i > 0 {
      MarkerBytes(i + 1, |parts|);
      ByteLengthAppend(PartMarker(i + 1, |parts|), parts[i]);
    }
  }

  // ---------------------------------------------------------------------------
  // Markdown line packing
  // ---------------------------------------------------------------------------

  /** Every line followed by a newline: `"".join(p + "\n" for p in lines)`. */
  function Reterminated(lines: seq<string>): string {
    if lines == [] then "" else Reterminated(lines[..|lines| - 1]) + lines[|lines| - 1] + "\n"
  }

  lemma {:induction false} ReterminatedJoin(lines: seq<string>)
    requires |lines| >= 1
    ensures Reterminated(lines) == Join(lines, "\n") + "\n"
  {
    if |lines| > 1 {
      ReterminatedJoin(lines[..|lines| - 1]);
    } else {
      assert lines[..0] == [];
    }
  }

  /** Re-terminating the lines of `content` appends one newline to it. */
  lemma ReterminatedSplit(content: string)
    ensures Reterminated(Split(content, '\n')) == content + "\n"
  {
    ReterminatedJoin(Split(content, '\n'));
  }

  /** A part made of one line: its only newline is the final character. */
  predicate IsOneLine(p: string) {
    p != [] && p[|p| - 1] == '\n' && forall j :: 0 <= j < |p| - 1 ==> p[j] != '\n'
  }

  /** The first line of a part, with its newline. */
  function FirstLine(p: string): (l: string)
    requires '\n' in p
    ensures |l| <= |p| && IsOneLine(l) && l == p[..|l|]
  {
    p[..Find(p, '\n') + 1]
  }

  /** A part as the packer leaves it: it ends with a newline, and it fits the
      markdown limit unless it is a single line. */
  predicate PartOk(p: string) {
    p != [] && p[|p| - 1] == '\n' && (ByteLength(p) <= MaxMarkdownBytes || IsOneLine(p))
  }

  /** Part `a` was closed because the first line of its successor `b` would
      not fit after it. */
  predicate ClosedBefore(a: string, b: string) {
    '\n' in b && ByteLength(a + FirstLine(b)) > MaxMarkdownBytes
  }

  /** Every part is well formed and was closed only because of its successor. */
  ghost predicate PartsWellFormed(parts: seq<string>) {
    && (forall i :: 0 <= i < |parts| ==> PartOk(parts[i]))
    && (forall i :: 1 <= i < |parts| ==> ClosedBefore(parts[i - 1], parts[i]))
  }

  /** What the markdown packer promises: the parts hold the content's lines,
      each re-terminated by a newline and none split; a part goes over the limit
      only when it is a single line that is over it by itself; and a part ends
      only where its next line would no longer fit. */
  ghost predicate IsMarkdownPacking(content: string, parts: seq<string>) {
    Concat(parts) == content + "\n" && PartsWellFormed(parts)
  }

  /** The state of the packing loop: the parts closed so far and the part
      being filled. */
  datatype Packing = Packing(parts: seq<string>, current: string)

  /** One turn of the packing loop, on a line with its newline: the line
      starts a new part when adding it to the current one would go over the
      limit, and is added to the current part otherwise. */
  function PackStep(st: Packing, line: string): Packing {
    if ByteLength(st.current + line) > MaxMarkdownBytes then
      Packing(if st.current != [] then st.parts + [st.current] else st.parts, line)
    else
      Packing(st.parts, st.current + line)
  }

  /** The state after the loop has taken the given lines, in order. */
  function PackLines(lines: seq<string>): Packing {
    if lines == [] then Packing([], "")
    else PackStep(PackLines(lines[..|lines| - 1]), lines[|lines| - 1] + "\n")
  }

  /** The parts `send_markdown_message` sends: the closed parts and the last
      one, if it holds anything. */
  function MarkdownParts(content: string): seq<string> {
    var st := PackLines(Split(content, '\n'));
    if st.current != [] then st.parts + [st.current] else st.parts
  }

  /** What the loop keeps true of its state. */
  ghost predicate PackingInvariant(lines: seq<string>, st: Packing) {
    && Concat(st.parts) + st.current == Reterminated(lines)
    && PartsWellFormed(st.parts)
    && (st.current != [] ==> PartOk(st.current))
    && (lines != [] ==> st.current != [])
    && (st.parts != [] ==> st.current != [] && ClosedBefore(st.parts[|st.parts| - 1], st.current))
  }

  /** Closing a well-formed part whose successor's first line would not fit
      keeps the parts well formed. */
  lemma PartsWellFormedAppend(parts: seq<string>, p: string)
    requires PartsWellFormed(parts) && PartOk(p)
    requires parts != [] ==> ClosedBefore(parts[|parts| - 1], p)
    ensures PartsWellFormed(parts + [p])
  {
  }

  lemma {:induction false} PackLinesInvariant(lines: seq<string>)
    requires forall i :: 0 <= i < |lines| ==> '\n' !in lines[i]
    ensures PackingInvariant(lines, PackLines(lines))
  {
    if lines != [] {
      var init := lines[..|lines| - 1];
      PackLinesInvariant(init);
      PackStepInvariant(init, PackLines(init), lines[|lines| - 1]);
      assert init + [lines[|lines| - 1]] == lines;
    }
  }

  /** A line without a newline, once re-terminated, is one line. */
  lemma Reterminate(lines: seq<string>, p: string)
    requires '\n' !in p
    ensures IsOneLine(p + "\n")
    ensures Reterminated(lines + [p]) == Reterminated(lines) + (p + "\n")
  {
    var line := p + "\n";
    assert forall j :: 0 <= j < |p| ==> line[j] == p[j];
    assert (lines + [p])[..|lines|] == lines;
  }

  /** One turn of the loop keeps its invariant. */
  lemma PackStepInvariant(lines: seq<string>, st: Packing, p: string)
    requires '\n' !in p
    requires PackingInvariant(lines, st)
    ensures PackingInvariant(lines + [p], PackStep(st, p + "\n"))
  {
    Reterminate(lines, p);
    if ByteLength(st.current + (p + "\n")) > MaxMarkdownBytes {
      PackStepClose(lines, st, p);
    } else {
      PackStepExtend(lines, st, p);
    }
  }

  /** A line that does not fit after the current part closes it and starts the next. */
  lemma PackStepClose(lines: seq<string>, st: Packing, p: string)
    requires IsOneLine(p + "\n") && ByteLength(st.current + (p + "\n")) > MaxMarkdownBytes
    requires Reterminated(lines + [p]) == Reterminated(lines) + (p + "\n")
    requires PackingInvariant(lines, st)
    ensures PackingInvariant(lines + [p], PackStep(st, p + "\n"))
  {
    var line := p + "\n";
    assert PackStep(st, line) == Packing(if st.current != [] then st.parts + [st.current] else st.parts, line);
    assert FirstLine(line) == line;
    if st.current != [] {
      ConcatAppend(st.parts, st.current);
      PartsWellFormedAppend(st.parts, st.current);
    }
  }

  /** A line that fits is added to the current part, whose first line stays. */
  lemma PackStepExtend(lines: seq<string>, st: Packing, p: string)
    requires IsOneLine(p + "\n") && ByteLength(st.current + (p + "\n")) <= MaxMarkdownBytes
    requires Reterminated(lines + [p]) == Reterminated(lines) + (p + "\n")
    requires PackingInvariant(lines, st)
    ensures PackingInvariant(lines + [p], PackStep(st, p + "\n"))
  {
    var line := p + "\n";
    var current := st.current + line;
    assert PackStep(st, line) == Packing(st.parts, current);
    assert Concat(st.parts) + current == Reterminated(lines + [p]) by {
      AppendAssoc(Concat(st.parts), st.current, line);
    }
    assert PartOk(current) by {
      ExtendPart(st.current, line);
    }
    assert st.parts != [] ==> ClosedBefore(st.parts[|st.parts| - 1], current) by {
      if st.parts != [] {
        ClosedBeforeExtend(st.parts[|st.parts| - 1], st.current, line);
      }
    }
    PackingInvariantIntro(lines + [p], Packing(st.parts, current));
  }

  /** The invariant, conjunct by conjunct. */
  lemma PackingInvariantIntro(lines: seq<string>, st: Packing)
    requires Concat(st.parts) + st.current == Reterminated(lines)
    requires PartsWellFormed(st.parts)
    requires st.current != [] && PartOk(st.current)
    requires st.parts != [] ==> ClosedBefore(st.parts[|st.parts| - 1], st.current)
    ensures PackingInvariant(lines, st)
  {
  }

  lemma AppendAssoc(a: string, b: string, c: string)
    ensures a + (b + c) == a + b + c
  {
  }

  /** A fitting line added to a part keeps it a part. */
  lemma ExtendPart(current: string, line: string)
    requires IsOneLine(line) && ByteLength(current + line) <= MaxMarkdownBytes
    requires current != [] ==> PartOk(current)
    ensures PartOk(current + line)
  {
    assert (current + line)[|current + line| - 1] == line[|line| - 1];
  }

  /** Adding a line to a part does not change its first line. */
  lemma ClosedBeforeExtend(previous: string, current: string, line: string)
    requires ClosedBefore(previous, current)
    ensures ClosedBefore(previous, current + line)
  {
    FindAppend(current, line, '\n');
    assert FirstLine(current + line) == FirstLine(current);
  }

  /** The markdown parts hold the content's lines, each re-terminated by a
      newline and none split; a part goes over the limit only when it is a
      single line that is over it by itself; and a part ends only where its
      next line would no longer fit. */
  lemma MarkdownPartsPacking(content: string)
    ensures IsMarkdownPacking(content, MarkdownParts(content))
  {
    var lines := Split(content, '\n');
    var st := PackLines(lines);
    assert PackingInvariant(lines, st) by {
      PackLinesInvariant(lines);
    }
    assert MarkdownParts(content) == st.parts + [st.current];
    assert Concat(st.parts + [st.current]) == content + "\n" by {
      ReterminatedSplit(content);
      ConcatAppend(st.parts, st.current);
    }
    PartsWellFormedAppend(st.parts, st.current);
  }

  /** Empty content is sent as a single part holding one newline. */
  lemma MarkdownPartsEmpty()
    ensures MarkdownParts("") == ["\n"]
  {
    MarkdownPartsPacking("");
    var parts := MarkdownParts("");
    assert Concat(parts) == "\n";
    assert forall i :: 0 <= i < |parts| ==> PartOk(parts[i]);
    ConcatNonEmptyParts(parts);
  }

  /** The packing loop of `send_markdown_message`. */
  method PackMarkdown(content: string) returns (parts: seq<string>)
    ensures parts == MarkdownParts(content)
  {
    var lines := Split(content, '\n');
    parts := [];
    var current := "";
    for k := 0 to |lines|
      invariant Packing(parts, current) == PackLines(lines[..k])
    {
      var line := lines[k] + "\n";
      assert lines[..k + 1][..k] == lines[..k];
      if ByteLength(current + line) > MaxMarkdownBytes {
        if current != [] {
          parts := parts + [current];
        }
        current := line;
      } else {
        current := current + line;
      }
    }
    assert lines[..|lines|] == lines;
    if current != [] {
      parts := parts + [current];
    }
  }

  /** Non-empty parts that concatenate to a one-character string are that string alone. */
  lemma ConcatNonEmptyParts(parts: seq<string>)
    requires forall i :: 0 <= i < |parts| ==> parts[i] != []
    requires |Concat(parts)| == 1
    ensures parts == [Concat(parts)]
  {
    ConcatLength(parts);
    SingleConcat(parts);
  }

  lemma {:induction false} ConcatLength(parts: seq<string>)
    requires forall i :: 0 <= i < |parts| ==> parts[i] != []
    ensures |Concat(parts)| >= |parts|
  {
    if parts != [] {
      ConcatLength(parts[..|parts| - 1]);
    }
  }

  // ---------------------------------------------------------------------------
  // Replies of the token and upload endpoints
  // ---------------------------------------------------------------------------

  /** The reply to the token request: no JSON at all (network or decoding
      failure), or the fields of the JSON object, each absent or present. */
  datatype TokenReply =
    | TokenUnreachable
    | TokenJson(errcode: Option<int>, accessToken: Option<string>, expiresIn: Option<real>)

  /** What `get_access_token` makes of a reply when it has to fetch: it raises
      unless `errcode` is present and 0 and the reply holds `access_token`. */
  function TokenOutcome(reply: TokenReply): (r: Result<string>)
    ensures r.Ok? <==> reply.TokenJson? && reply.errcode == Some(0) && reply.accessToken.Some?
    ensures r.Ok? ==> r.value == reply.accessToken.value
  {
    match reply
    case TokenUnreachable => Err("token request failed")
    case TokenJson(errcode, token, _) =>
      if errcode != Some(0) then Err("Token获取失败")
      else if token.None? then Err("KeyError: access_token")
      else Ok(token.value)
  }

  datatype UploadReply =
    | UploadUnreachable
    | UploadJson(errcode: Option<int>, mediaId: Option<string>)

  /** What `upload_temp_media` makes of the upload reply: it raises exactly when
      `errcode` is present and non-zero, and otherwise returns `media_id`, or ""
      when the reply has none. */
  function UploadOutcome(reply: UploadReply): (r: Result<string>)
    ensures r.Err? <==> reply.UploadUnreachable? || (reply.errcode.Some? && reply.errcode.value != 0)
    ensures r.Ok? ==> r.value == reply.mediaId.GetOr("")
  {
    match reply
    case UploadUnreachable => Err("upload request failed")
    case UploadJson(errcode, mediaId) =>
      if errcode.Some? && errcode.value != 0 then Err("上传失败") else Ok(mediaId.GetOr(""))
  }

  // ---------------------------------------------------------------------------
  // The client: module-level token cache and the messages it posts
  // ---------------------------------------------------------------------------

  datatype MessageKind = TextMessage | MarkdownMessage
  datatype Post = Post(user: string, kind: MessageKind, content: string)

  /** The posts `send_text_message` makes for a list of parts. */
  function TextPosts(user: string, parts: seq<string>): (posts: seq<Post>)
    ensures |posts| == |parts|
    ensures forall i :: 0 <= i < |parts| ==> posts[i] == Post(user, TextMessage, Labelled(parts, i))
  {
    seq(|parts|, i requires 0 <= i < |parts| => Post(user, TextMessage, Labelled(parts, i)))
  }

  function MarkdownPosts(user: string, parts: seq<string>): (posts: seq<Post>)
    ensures |posts| == |parts|
    ensures forall i :: 0 <= i < |parts| ==> posts[i] == Post(user, MarkdownMessage, parts[i])
  {
    seq(|parts|, i requires 0 <= i < |parts| => Post(user, MarkdownMessage, parts[i]))
  }

  class WeCom {
    /** `_access_token` and `_token_expires_at` of the module. */
    var accessToken: string
    var tokenExpiresAt: real
    /** Every message posted, in order. */
    var outbox: seq<Post>

    constructor ()
      ensures accessToken == "" && tokenExpiresAt == 0.0 && outbox == []
    {
      accessToken := "";
      tokenExpiresAt := 0.0;
      outbox := [];
    }

    /** The cached token may be used at time `now`. */
    predicate TokenFresh(now: real)
      reads this
    {
      accessToken != "" && now < tokenExpiresAt - TokenMargin
    }

    /** The token cache after a call that needed a token at time `now`: kept
        when the cached token was fresh or the fetch failed, and otherwise the
        fetched token, expiring `expires_in` seconds (7200 when absent) after
        the reply arrived at `later`. */
    twostate predicate TokenCacheAfter(now: real, reply: TokenReply, later: real)
      reads this
    {
      if old(TokenFresh(now)) || TokenOutcome(reply).Err? then
        accessToken == old(accessToken) && tokenExpiresAt == old(tokenExpiresAt)
      else
        accessToken == TokenOutcome(reply).value && tokenExpiresAt == later + reply.expiresIn.GetOr(DefaultExpiresIn)
    }

    /** `get_access_token`: `now` is the clock when it is called, `reply` what
        the token endpoint would answer and `later` the clock once it has. */
    method GetAccessToken(now: real, reply: TokenReply, later: real) returns (r: Result<string>, fetched: bool)
      modifies this`accessToken, this`tokenExpiresAt
      ensures fetched <==> !old(TokenFresh(now))
      ensures !fetched ==> r == Ok(old(accessToken)) && unchanged(this)
      ensures fetched ==> r == TokenOutcome(reply)
      ensures fetched && r.Ok? ==>
        accessToken == r.value && tokenExpiresAt == later + reply.expiresIn.GetOr(DefaultExpiresIn)
      ensures r.Err? ==> unchanged(this)
      ensures TokenCacheAfter(now, reply, later)
    {
      if TokenFresh(now) {
        return Ok(accessToken), false;
      }
      fetched := true;
      r := TokenOutcome(reply);
      if r.Ok? {
        accessToken := r.value;
        tokenExpiresAt := later + reply.expiresIn.GetOr(DefaultExpiresIn);
      }
    }

    /** `send_text_message`: fetch the token (a failure raises before anything
        is sent), split the content and post every part, marked with its
        position when there are several. */
    method SendTextMessage(user: string, content: string, now: real, reply: TokenReply, later: real)
      returns (r: Result<()>)
      modifies this
      ensures r.Ok? <==> old(TokenFresh(now)) || TokenOutcome(reply).Ok?
      ensures r.Err? ==> unchanged(this)
      ensures r.Ok? ==> outbox == old(outbox) + TextPosts(user, TextSplit(content))
      ensures TokenCacheAfter(now, reply, later)
    {
      var token, _ := GetAccessToken(now, reply, later);
      if token.Err? {
        return Err(token.error);
      }
      var parts := SplitText(content);
      PostTextParts(user, parts);
      r := Ok(());
    }

    /** The sending loop of `send_text_message`: one post per part, every part
        after the first marked with its position when there are several. */
    method PostTextParts(user: string, parts: seq<string>)
      modifies this`outbox
      ensures outbox == old(outbox) + TextPosts(user, parts)
    {
      ghost var posts := TextPosts(user, parts);
      for i := 0 to |parts|
        invariant outbox == old(outbox) + posts[..i]
      {
        var text := if |parts| > 1 && i > 0 then PartMarker(i + 1, |parts|) + parts[i] else parts[i];
        assert posts[i] == Post(user, TextMessage, text);
        outbox := outbox + [Post(user, TextMessage, text)];
        assert posts[..i + 1] == posts[..i] + [posts[i]];
      }
      assert posts[..|parts|] == posts;
    }

    /** `send_markdown_message` as written: after posting the first part, the
        pacing step refers to `asyncio`, which the module does not import, so
        with more than one part it raises `NameError` and no further part is
        posted. (A failing post itself is logged and skipped.) */
    method SendMarkdownMessage(user: string, content: string, now: real, reply: TokenReply, later: real)
      returns (r: Result<()>)
      modifies this
      ensures !old(TokenFresh(now)) && TokenOutcome(reply).Err? ==> r.Err? && unchanged(this)
      ensures old(TokenFresh(now)) || TokenOutcome(reply).Ok? ==>
        && outbox == old(outbox) + MarkdownPosts(user, MarkdownParts(content)[..1])
        && (r.Ok? <==> |MarkdownParts(content)| == 1)
      ensures TokenCacheAfter(now, reply, later)
    {
      var token, _ := GetAccessToken(now, reply, later);
      if token.Err? {
        return Err(token.error);
      }
      var parts := PackMarkdown(content);
      MarkdownPartsNonEmpty(content);
      ghost var cachedToken, cachedExpiry := accessToken, tokenExpiresAt;
      for i := 0 to |parts|
        invariant accessToken == cachedToken && tokenExpiresAt == cachedExpiry
        invariant i <= 1 && (|parts| > 1 ==> i == 0)
        invariant outbox == old(outbox) + MarkdownPosts(user, parts[..i])
      {
        outbox := outbox + [Post(user, MarkdownMessage, parts[i])];
        assert MarkdownPosts(user, parts[..i + 1]) == MarkdownPosts(user, parts[..i]) + [Post(user, MarkdownMessage, parts[i])];
        if |parts| > 1 {
          assert parts[..1] == parts[..i + 1];
          return Err("NameError: name 'asyncio' is not defined");
        }
      }
      r := Ok(());
    }

    /** `send_markdown_message` as evidently intended: every part is posted,
        pausing between posts when there are several. */
    method SendMarkdownMessageIntended(user: string, content: string, now: real, reply: TokenReply, later: real)
      returns (r: Result<()>)
      modifies this
      ensures r.Ok? <==> old(TokenFresh(now)) || TokenOutcome(reply).Ok?
      ensures r.Err? ==> unchanged(this)
      ensures r.Ok? ==> outbox == old(outbox) + MarkdownPosts(user, MarkdownParts(content))
      ensures TokenCacheAfter(now, reply, later)
    {
      var token, _ := GetAccessToken(now, reply, later);
      if token.Err? {
        return Err(token.error);
      }
      var parts := PackMarkdown(content);
      PostMarkdownParts(user, parts);
      r := Ok(());
    }

    /** The sending loop of the intended `send_markdown_message`. */
    method PostMarkdownParts(user: string, parts: seq<string>)
      modifies this`outbox
      ensures outbox == old(outbox) + MarkdownPosts(user, parts)
    {
      for i := 0 to |parts|
        invariant outbox == old(outbox) + MarkdownPosts(user, parts)[..i]
      {
        outbox := outbox + [Post(user, MarkdownMessage, parts[i])];
        assert MarkdownPosts(user, parts)[..i + 1] == MarkdownPosts(user, parts)[..i] + [MarkdownPosts(user, parts)[i]];
      }
    }

    /** `upload_temp_media`: fetch the token, upload, check the reply. */
    method UploadTempMedia(now: real, reply: TokenReply, later: real, upload: UploadReply) returns (r: Result<string>)
      modifies this`accessToken, this`tokenExpiresAt
      ensures !old(TokenFresh(now)) && TokenOutcome(reply).Err? ==> r.Err?
      ensures old(TokenFresh(now)) || TokenOutcome(reply).Ok? ==> r == UploadOutcome(upload)
      ensures TokenCacheAfter(now, reply, later)
    {
      var token, _ := GetAccessToken(now, reply, later);
      if token.Err? {
        return Err(token.error);
      }
      r := UploadOutcome(upload);
    }
  }

  // ---------------------------------------------------------------------------
  // Properties
  // ---------------------------------------------------------------------------

  /** The witness for the markdown finding: two 1000-character lines need two
      parts, so the call as written posts only the first. */
  function TwoLongLines(): string {
    seq(1000, _ => 'a') + "\n" + seq(1000, _ => 'b')
  }

  lemma TwoLongLinesNeedTwoParts()
    ensures |MarkdownParts(TwoLongLines())| >= 2
  {
    var w := TwoLongLines() + "\n";
    assert w[1000] == '\n' && |w| == 2002;
    assert !IsOneLine(w);
    ByteLengthAscii(w);
    MarkdownPartsPacking(TwoLongLines());
    var parts := MarkdownParts(TwoLongLines());
    SingleConcat(parts);
  }

  /** A list of one part concatenates to that part. */
  lemma SingleConcat(parts: seq<string>)
    ensures |parts| == 0 ==> Concat(parts) == ""
    ensures |parts| == 1 ==> Concat(parts) == parts[0]
  {
    if |parts| == 1 {
      assert parts == [] + [parts[0]];
      ConcatAppend([], parts[0]);
    }
  }

  /** There is always at least one markdown part. */
  lemma MarkdownPartsNonEmpty(content: string)
    ensures MarkdownParts(content) != []
  {
    MarkdownPartsPacking(content);
    SingleConcat(MarkdownParts(content));
  }
}
