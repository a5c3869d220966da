/** Collecting the first events of an SSE stream (apps/api/test/support/sse.ts). */
module SseCollect {
  import opened Prelude
  import opened SseFrames

  /** What one frame yields; `Malformed` is the JSON parser's exception. */
  datatype Parsed<+V> = NoData | Payload(value: V) | Malformed

  datatype Outcome<+V> = Collected(events: seq<V>) | StreamEnded(got: nat) | BadPayload | NoBody | Aborted

  /**
   * What the connection gives: nothing before the timer aborts it, a response without a body, or a body whose reads
   * deliver `chunks` and then report the end, or fail because the timer fired.
   */
  datatype Response = Unanswered | Bodiless | Body(chunks: seq<string>, timedOut: bool)

  /** Reads JSON text; `None` stands for a syntax error. */
  type JsonParser<!V> = string -> Option<V>

  // ---- One frame ----

  function Lines(s: string): (r: seq<string>)
    ensures r != []
    decreases |s|
  {
    if '\n' !in s then [s]
    else
      var i := LineEnd(s);
      [s[..i]] + Lines(s[i + 1..])
  }

  function LineEnd(s: string): (i: nat)
    requires '\n' in s
    ensures i < |s| && s[i] == '\n' && forall k :: 0 <= k < i ==> s[k] != '\n'
  {
    if s[0] == '\n' then 0 else 1 + LineEnd(s[1..])
  }

  function Unlines(lines: seq<string>): string
    requires lines != []
  {
    if |lines| == 1 then lines[0] else lines[0] + (['\n'] + Unlines(lines[1..]))
  }

  /** The lines are the parts between line feeds, nothing lost. */
  lemma {:induction false} LinesPartition(s: string)
    ensures Unlines(Lines(s)) == s
    ensures forall line :: line in Lines(s) ==> '\n' !in line
    decreases |s|
  {
    if '\n' in s {
      var i := LineEnd(s);
      LinesPartition(s[i + 1..]);
      UnlinesCons(s[..i], Lines(s[i + 1..]));
      assert s == s[..i] + (['\n'] + s[i + 1..]);
    }
  }

  lemma UnlinesCons(line: string, lines: seq<string>)
    requires lines != []
    ensures Unlines([line] + lines) == line + (['\n'] + Unlines(lines))
  {
    ConcatParts([line], lines);
  }

  const DATA := "data:"

  predicate NoDataLine(lines: seq<string>) {
    forall line :: line in lines ==> !StartsWith(line, DATA)
  }

  function FirstDataLine(lines: seq<string>): (r: Option<string>)
    ensures r.Some? ==> StartsWith(r.value, DATA)
  {
    if lines == [] then None
    else if StartsWith(lines[0], DATA) then Some(lines[0])
    else FirstDataLine(lines[1..])
  }

  /** The first data line is a data line with none before it, and there is none exactly when no line is one. */
  lemma {:induction false} FirstDataLineIsFirst(lines: seq<string>) returns (k: nat)
    ensures FirstDataLine(lines).None? <==> NoDataLine(lines)
    ensures FirstDataLine(lines).Some? ==>
      k < |lines| && FirstDataLine(lines) == Some(lines[k]) && NoDataLine(lines[..k])
  {
    k := 0;
    if lines != [] && !StartsWith(lines[0], DATA) {
      var rest := lines[1..];
      k := FirstDataLineIsFirst(rest);
      if FirstDataLine(rest).Some? { assert lines[..k + 1] == [lines[0]] + rest[..k]; }
      k := k + 1;
      assert lines == [lines[0]] + rest;
    }
  }

  /** The characters that JavaScript trims: WhiteSpace and LineTerminator, ECMA-262 sections 12.2 and 12.3. */
  predicate IsSpace(c: char) {
    c in "\t\n\r\U{000B}\U{000C} \U{00A0}\U{1680}\U{2028}\U{2029}\U{202F}\U{205F}\U{3000}\U{FEFF}"
    || '\U{2000}' <= c <= '\U{200A}'
  }

  /** The code points of the table in ECMA-262 section 12.2, those of Unicode's space separators, and section 12.3's. */
  lemma SpaceCodes(c: char)
    ensures IsSpace(c) <==>
      || c as int in {9, 11, 12, 32, 160, 0xFEFF}
      || c as int in {0x1680, 0x202F, 0x205F, 0x3000} || 0x2000 <= c as int <= 0x200A
      || c as int in {10, 13, 0x2028, 0x2029}
  {
  }

  function TrimEnd(s: string): string {
    if s != "" && IsSpace(s[|s| - 1]) then TrimEnd(s[..|s| - 1]) else s
  }

  function TrimStart(s: string): string {
    if s != "" && IsSpace(s[0]) then TrimStart(s[1..]) else s
  }

  function Trim(s: string): string {
    TrimStart(TrimEnd(s))
  }

  predicate AllSpace(s: string) {
    forall c :: c in s ==> IsSpace(c)
  }

  /** Trimming removes white space at both ends, all of it and nothing else. */
  lemma TrimSpec(s: string) returns (before: string, after: string)
    ensures s == before + Trim(s) + after && AllSpace(before) && AllSpace(after)
    ensures Trim(s) != "" ==> !IsSpace(Trim(s)[0]) && !IsSpace(Trim(s)[|Trim(s)| - 1])
  {
    after := TrimEndSpec(s);
    before := TrimStartSpec(TrimEnd(s));
  }

  lemma {:induction false} TrimEndSpec(s: string) returns (after: string)
    ensures s == TrimEnd(s) + after && AllSpace(after)
    ensures TrimEnd(s) != "" ==> !IsSpace(TrimEnd(s)[|TrimEnd(s)| - 1])
  {
    after := "";
    if s != "" && IsSpace(s[|s| - 1]) {
      var init, last := s[..|s| - 1], [s[|s| - 1]];
      var inner := TrimEndSpec(init);
      HeadAndLast(s);
      ConcatAssoc(TrimEnd(init), inner, last);
      after := inner + last;
    }
  }

  lemma {:induction false} TrimStartSpec(s: string) returns (before: string)
    ensures s == before + TrimStart(s) && AllSpace(before)
    ensures TrimStart(s) != "" ==> !IsSpace(TrimStart(s)[0]) && TrimStart(s)[|TrimStart(s)| - 1] == s[|s| - 1]
  {
    before := "";
    if s != "" && IsSpace(s[0]) {
      var inner := TrimStartSpec(s[1..]);
      HeadAndLast(s);
      ConcatAssoc([s[0]], inner, TrimStart(s[1..]));
      before := [s[0]] + inner;
    }
  }

  function ParseFrame<V>(parse: JsonParser<V>, frame: string): Parsed<V> {
    match FirstDataLine(Lines(frame))
    case None => NoData
    case Some(line) =>
      match parse(Trim(line[|DATA|..]))
      case None => Malformed
      case Some(v) => Payload(v)
  }

  /** Line `k` starts with `data:` and none before it does. */
  predicate FirstDataAt(lines: seq<string>, k: nat) {
    k < |lines| && "data:" <= lines[k] && forall j :: 0 <= j < k ==> !("data:" <= lines[j])
  }

  lemma {:induction false} FirstDataLineAt(lines: seq<string>, k: nat)
    requires FirstDataAt(lines, k)
    ensures FirstDataLine(lines) == Some(lines[k])
  {
    if k > 0 {
      assert !("data:" <= lines[0]);
      forall j | 0 <= j < k - 1 ensures !("data:" <= lines[1..][j]) { assert !("data:" <= lines[j + 1]); }
      FirstDataLineAt(lines[1..], k - 1);
    }
  }

  /** What a frame yields: nothing without a `data:` line, otherwise what the trimmed text of the first parses to. */
  lemma ParseFrameYields<V>(parse: JsonParser<V>, frame: string, k: nat)
    ensures ParseFrame(parse, frame).NoData? <==> forall line :: line in Lines(frame) ==> !("data:" <= line)
    ensures FirstDataAt(Lines(frame), k) ==>
      ParseFrame(parse, frame) == match parse(Trim(Lines(frame)[k][5..]))
                                  case None => Malformed
                                  case Some(v) => Payload(v)
  {
    var first := FirstDataLineIsFirst(Lines(frame));
    if FirstDataAt(Lines(frame), k) { FirstDataLineAt(Lines(frame), k); }
  }

  // ---- The whole stream, as one pass over its frames ----

  function CollectFrames<V>(parse: JsonParser<V>, frames: seq<string>, count: int, events: seq<V>): (out: Outcome<V>)
    ensures !out.NoBody? && !out.Aborted?
    decreases |frames|
  {
    if |events| >= count then Collected(events)
    else if frames == [] then StreamEnded(|events|)
    else
      match ParseFrame(parse, frames[0])
      case Malformed => BadPayload
      case NoData => CollectFrames(parse, frames[1..], count, events)
      case Payload(v) => CollectFrames(parse, frames[1..], count, events + [v])
  }

  /** The inner loop: takes events from the frames at hand until the count is reached; `None` is a malformed frame. */
  method TakeEvents<V>(parse: JsonParser<V>, frames: seq<string>, count: int, before: seq<V>,
                       ghost pending: seq<string>)
      returns (taken: Option<seq<V>>)
    requires |before| < count
    ensures CollectFrames(parse, frames + pending, count, before)
         == if taken.None? then BadPayload else CollectFrames(parse, pending, count, taken.value)
  {
    var events := before;
    ghost var left := frames + pending;
    ghost var goal := CollectFrames(parse, left, count, before);
    FramesEnd(frames, pending);
    var k := 0;
    while k < |frames|
      invariant 0 <= k <= |frames| && |events| < count
      invariant left == frames[k..] + pending
      invariant goal == CollectFrames(parse, left, count, events)
    {
      HeadOfRest(frames, k, pending, left);
      match ParseFrame(parse, frames[k]) {
        case Malformed => return None;
        case NoData =>
        case Payload(v) => events := events + [v];
      }
      left := left[1..];
      if |events| >= count { break; }
      k := k + 1;
    }
    taken := Some(events);
  }

  /** The outcome for a response, by one pass over the frames of all its text. */
  function CollectResponse<V>(parse: JsonParser<V>, response: Response, count: int): Outcome<V> {
    match response
    case Unanswered => Aborted
    case Bodiless => NoBody
    case Body(chunks, timedOut) =>
      var out := CollectFrames(parse, Split(Concat(chunks)).frames, count, []);
      if out.StreamEnded? && timedOut then Aborted else out
  }

  /** Reads chunks until `count` events are in hand; the result is that of one pass over the frames of all text. */
  method CollectSseEvents<V>(parse: JsonParser<V>, response: Response, count: int) returns (out: Outcome<V>)
    ensures out == CollectResponse(parse, response, count)
  {
    if response.Unanswered? { return Aborted; }
    if response.Bodiless? { return NoBody; }
    var chunks := response.chunks;
    var events: seq<V> := [];
    var buffer := "";
    var read := 0;
    ghost var left := Split(Concat(chunks)).frames;
    ghost var goal := CollectFrames(parse, left, count, []);
    StreamEnds("", chunks);
    while |events| < count
      invariant 0 <= read <= |chunks| && Search(buffer).None?
      invariant left == Split(buffer + Concat(chunks[read..])).frames
      invariant goal == CollectFrames(parse, left, count, events)
      decreases |chunks| - read
    {
      if read == |chunks| {
        StreamEnds(buffer, chunks);
        if response.timedOut { return Aborted; }
        return StreamEnded(|events|);
      }
      var frames, rest := SplitFrames(buffer + chunks[read]);
      NextChunk(buffer, chunks, read, frames, rest);
      buffer := rest;
      read := read + 1;
      left := Split(buffer + Concat(chunks[read..])).frames;
      var taken := TakeEvents(parse, frames, count, events, left);
      if taken.None? { return BadPayload; }
      events := taken.value;
    }
    out := Collected(events);
  }

  lemma StreamEnds(buffer: string, chunks: seq<string>)
    ensures "" + Concat(chunks[0..]) == Concat(chunks)
    ensures buffer + Concat(chunks[|chunks|..]) == buffer
  {
    DropNoneOrAll(chunks);
    ConcatEmpty(buffer);
    ConcatEmpty(Concat(chunks));
  }

  lemma FramesEnd(frames: seq<string>, pending: seq<string>)
    ensures frames[0..] + pending == frames + pending
    ensures frames[|frames|..] + pending == pending
  {
    DropNoneOrAll(frames);
    ConcatEmpty(pending);
  }

  lemma HeadOfRest(frames: seq<string>, k: nat, pending: seq<string>, left: seq<string>)
    requires k < |frames| && left == frames[k..] + pending
    ensures left != [] && left[0] == frames[k] && left[1..] == frames[k + 1..] + pending
  {
    DropWithin(frames[k..], pending, 1);
    assert frames[k..][1..] == frames[k + 1..];
  }

  lemma {:induction false} NextChunk(buffer: string, chunks: seq<string>, read: nat, frames: seq<string>, rest: string)
    requires read < |chunks| && Pieces(frames, rest) == Split(buffer + chunks[read])
    ensures Split(buffer + Concat(chunks[read..])).frames == frames + Split(rest + Concat(chunks[read + 1..])).frames
    ensures Search(rest).None?
  {
    var later := Concat(chunks[read + 1..]);
    assert chunks[read..][1..] == chunks[read + 1..];
    ConcatAssoc(buffer, chunks[read], later);
    SplitResumes(buffer + chunks[read], later, Pieces(frames, rest));
    RestSplitsToItself(buffer + chunks[read]);
  }

  // ---- What the pass returns ----

  /** Payloads of the frames, in order; frames without data are skipped. */
  function Payloads<V>(parse: JsonParser<V>, frames: seq<string>): seq<V> {
    if frames == [] then []
    else
      var init := Payloads(parse, frames[..|frames| - 1]);
      match ParseFrame(parse, frames[|frames| - 1])
      case Payload(v) => init + [v]
      case _ => init
  }

  predicate WellFormed<V>(parse: JsonParser<V>, frames: seq<string>) {
    forall f :: f in frames ==> !ParseFrame(parse, f).Malformed?
  }

  /** The first `k` frames hold exactly `count` payloads, the last of them in the last frame. */
  predicate ReachesCount<V>(parse: JsonParser<V>, frames: seq<string>, count: int, k: nat)
    requires k <= |frames|
  {
    && WellFormed(parse, frames[..k])
    && if count <= 0 then k == 0
       else k > 0 && |Payloads(parse, frames[..k])| == count && |Payloads(parse, frames[..k - 1])| < count
  }

  lemma PayloadsGrow<V>(parse: JsonParser<V>, frames: seq<string>, j: nat, k: nat)
    requires j <= k <= |frames|
    ensures |Payloads(parse, frames[..j])| <= |Payloads(parse, frames[..k])| <= |Payloads(parse, frames[..j])| + k - j
    decreases k
  {
    if j < k {
      PayloadsGrow(parse, frames, j, k - 1);
      assert frames[..k][..k - 1] == frames[..k - 1];
    }
  }

  /** While the count is not reached and nothing is malformed, the pass has collected the payloads so far. */
  lemma {:induction false} PassSoFar<V>(parse: JsonParser<V>, frames: seq<string>, count: int, k: nat)
    requires k <= |frames| && WellFormed(parse, frames[..k])
    requires k > 0 ==> |Payloads(parse, frames[..k - 1])| < count
    ensures CollectFrames(parse, frames, count, [])
         == CollectFrames(parse, frames[k..], count, Payloads(parse, frames[..k]))
    decreases k
  {
    if k == 0 {
      assert frames[0..] == frames;
    } else {
      var f := frames[k - 1];
      assert frames[..k][..k - 1] == frames[..k - 1];
      assert forall g :: g in frames[..k - 1] ==> g in frames[..k];
      assert f in frames[..k];
      if k > 1 { PayloadsGrow(parse, frames, k - 2, k - 1); }
      PassSoFar(parse, frames, count, k - 1);
      assert frames[k - 1..][0] == f && frames[k - 1..][1..] == frames[k..];
    }
  }

  lemma CollectsFirst<V>(parse: JsonParser<V>, frames: seq<string>, count: int, k: nat)
    requires k <= |frames| && ReachesCount(parse, frames, count, k)
    ensures CollectFrames(parse, frames, count, []) == Collected(Payloads(parse, frames[..k]))
  {
    PassSoFar(parse, frames, count, k);
  }

  /** Every stream falls in one of the three cases. */
  lemma {:induction false} SomeCase<V>(parse: JsonParser<V>, frames: seq<string>, count: int, k: nat)
      returns (at: nat)
    requires k <= |frames| && WellFormed(parse, frames[..k]) && |Payloads(parse, frames[..k])| < count
    ensures at <= |frames|
    ensures (ReachesCount(parse, frames, count, at))
         || (at == |frames| && WellFormed(parse, frames) && |Payloads(parse, frames)| < count)
         || (at < |frames| && Stops(parse, frames, count, at))
    decreases |frames| - k
  {
    if k == |frames| {
      assert frames[..k] == frames;
      return k;
    }
    if ParseFrame(parse, frames[k]).Malformed? {
      return k;
    }
    assert frames[..k + 1][..k] == frames[..k];
    assert frames[..k + 1] == frames[..k] + [frames[k]];
    if |Payloads(parse, frames[..k + 1])| < count {
      at := SomeCase(parse, frames, count, k + 1);
    } else {
      PayloadsGrow(parse, frames, k, k + 1);
      at := k + 1;
    }
  }

  /** Frame `k` is malformed and is reached before the count. */
  predicate Stops<V>(parse: JsonParser<V>, frames: seq<string>, count: int, k: nat)
    requires k < |frames|
  {
    WellFormed(parse, frames[..k]) && |Payloads(parse, frames[..k])| < count && ParseFrame(parse, frames[k]).Malformed?
  }

  lemma StopsAt<V>(parse: JsonParser<V>, frames: seq<string>, count: int, k: nat)
    requires k < |frames| && Stops(parse, frames, count, k)
    ensures CollectFrames(parse, frames, count, []).BadPayload?
  {
    if k > 0 { PayloadsGrow(parse, frames, k - 1, k); }
    PassSoFar(parse, frames, count, k);
  }

  lemma EndsShort<V>(parse: JsonParser<V>, frames: seq<string>, count: int)
    requires WellFormed(parse, frames) && |Payloads(parse, frames)| < count
    ensures CollectFrames(parse, frames, count, []) == StreamEnded(|Payloads(parse, frames)|)
  {
    var n := |frames|;
    assert frames[..n] == frames;
    if n > 0 { PayloadsGrow(parse, frames, n - 1, n); }
    PassSoFar(parse, frames, count, n);
  }

  /**
   * Main result: collection succeeds exactly with the payloads of the shortest well-formed run of frames that
   * holds `count` of them; it ends short exactly when the whole stream is well formed and holds fewer; it fails
   * on a payload exactly when a malformed frame comes before the count is reached.
   */
  lemma CollectExactly<V>(parse: JsonParser<V>, frames: seq<string>, count: int)
    ensures forall es :: (
      CollectFrames(parse, frames, count, []) == Collected(es)
      <==> exists k: nat ::
             k <= |frames| && ReachesCount(parse, frames, count, k) && es == Payloads(parse, frames[..k]))
    ensures forall n :: (
      CollectFrames(parse, frames, count, []) == StreamEnded(n)
      <==> WellFormed(parse, frames) && n == |Payloads(parse, frames)| < count)
    ensures CollectFrames(parse, frames, count, []).BadPayload?
      <==> exists k: nat :: k < |frames| && Stops(parse, frames, count, k)
  {
    forall k: nat | k <= |frames| && ReachesCount(parse, frames, count, k)
      ensures CollectFrames(parse, frames, count, []) == Collected(Payloads(parse, frames[..k]))
    {
      CollectsFirst(parse, frames, count, k);
    }
    forall k: nat | k < |frames| && Stops(parse, frames, count, k)
      ensures CollectFrames(parse, frames, count, []).BadPayload?
    {
      StopsAt(parse, frames, count, k);
    }
    if WellFormed(parse, frames) && |Payloads(parse, frames)| < count { EndsShort(parse, frames, count); }
    if count <= 0 {
      assert ReachesCount(parse, frames, count, 0);
    } else {
      var at := SomeCase(parse, frames, count, 0);
    }
  }

  /** Without an answer before the timer fires, or without a body, the outcome is that error, whatever the count. */
  lemma NothingToRead<V>(parse: JsonParser<V>, response: Response, count: int)
    ensures response.Unanswered? ==> CollectResponse(parse, response, count) == Aborted
    ensures CollectResponse(parse, response, count) == NoBody <==> response.Bodiless?
  {
  }

  /**
   * A body that is cut off by the timer is aborted exactly when what arrived is well formed and holds too few payloads;
   * in every other case, and whenever `count` payloads had arrived, the timer makes no difference.
   */
  lemma AbortedExactly<V>(parse: JsonParser<V>, chunks: seq<string>, count: int, cut: Outcome<V>, whole: Outcome<V>)
    requires cut == CollectResponse(parse, Body(chunks, true), count)
    requires whole == CollectResponse(parse, Body(chunks, false), count)
    ensures cut.Aborted? <==> TooFew(parse, Split(Concat(chunks)).frames, count)
    ensures cut.Aborted? <==> whole.StreamEnded?
    ensures !cut.Aborted? ==> cut == whole
  {
    EndsShortExactly(parse, Split(Concat(chunks)).frames, count);
  }

  /** Well formed, with fewer than `count` payloads. */
  predicate TooFew<V>(parse: JsonParser<V>, frames: seq<string>, count: int) {
    WellFormed(parse, frames) && |Payloads(parse, frames)| < count
  }

  lemma EndsShortExactly<V>(parse: JsonParser<V>, frames: seq<string>, count: int)
    ensures CollectFrames(parse, frames, count, []).StreamEnded? <==> TooFew(parse, frames, count)
  {
    if WellFormed(parse, frames) && |Payloads(parse, frames)| < count {
      EndsShort(parse, frames, count);
    } else {
      CollectExactly(parse, frames, count);
      var out := CollectFrames(parse, frames, count, []);
      assert forall n :: out == StreamEnded(n) ==> WellFormed(parse, frames) && |Payloads(parse, frames)| < count;
    }
  }

  // ---- LF and CRLF streams carry the same events ----

  lemma {:induction false} CrlfKeepsDataLine(frame: string)
    requires '\r' !in frame
    ensures var plain, sent := FirstDataLine(Lines(frame)), FirstDataLine(Lines(ToCrlf(frame)));
      plain == sent || (plain.Some? && sent == Some(plain.value + "\r"))
    decreases |frame|
  {
    if '\n' !in frame {
      CrlfWithoutLineFeed(frame);
    } else {
      var i := LineEnd(frame);
      var line, tail := frame[..i], frame[i + 1..];
      CrlfFirstLine(frame);
      DataPrefixIgnoresReturn(line);
      ConcatParts([line], Lines(tail));
      ConcatParts([line + "\r"], Lines(ToCrlf(tail)));
      CrlfKeepsDataLine(tail);
    }
  }

  lemma DataPrefixIgnoresReturn(line: string)
    ensures StartsWith(line + "\r", DATA) <==> StartsWith(line, DATA)
  {
    if |line| >= |DATA| {
      DropWithin(line, "\r", |DATA|);
    } else if |line| == 4 {
      assert (line + "\r")[..5][4] == '\r';
    }
  }

  lemma {:induction false} CrlfWithoutLineFeed(s: string)
    requires '\n' !in s
    ensures ToCrlf(s) == s
  {
    if s != "" {
      assert s[0] in s;
      CrlfWithoutLineFeed(s[1..]);
      assert [s[0]] + s[1..] == s;
    }
  }

  lemma {:induction false} CrlfFirstLine(frame: string)
    requires '\n' in frame && '\r' !in frame
    ensures Lines(ToCrlf(frame)) == [frame[..LineEnd(frame)] + "\r"] + Lines(ToCrlf(frame[LineEnd(frame) + 1..]))
  {
    var i := LineEnd(frame);
    var line, tail := frame[..i], frame[i + 1..];
    assert frame == line + (['\n'] + tail);
    ToCrlfAppend(line, ['\n'] + tail);
    CrlfWithoutLineFeed(line);
    ConcatParts(['\n'], tail);
    ConcatAssoc("\r", ['\n'], ToCrlf(tail));
    ConcatAssoc(line, "\r", ['\n'] + ToCrlf(tail));
    assert "\r" + ['\n'] == "\r\n";
    LineEndIs(line + "\r", ToCrlf(tail), ToCrlf(frame));
  }

  lemma LineEndIs(line: string, tail: string, s: string)
    requires '\n' !in line && s == line + (['\n'] + tail)
    ensures Lines(s) == [line] + Lines(tail)
  {
    var n := |line|;
    ConcatParts(line, ['\n'] + tail);
    ConcatParts(['\n'], tail);
    assert s[n] == s[n..][0] == '\n';
    LineEndAt(s, n);
    assert s[n + 1..] == s[n..][1..];
  }

  lemma LineEndAt(s: string, n: nat)
    requires n < |s| && s[n] == '\n' && '\n' !in s[..n]
    ensures LineEnd(s) == n
  {
    assert forall k :: 0 <= k < n ==> s[k] == s[..n][k] != '\n';
  }

  lemma TrimDropsCarriageReturn(s: string)
    ensures Trim(s + "\r") == Trim(s)
  {
    var t := s + "\r";
    assert t[..|t| - 1] == s;
  }

  lemma {:induction false} CrlfFrameParsesAlike<V>(parse: JsonParser<V>, frame: string)
    requires '\r' !in frame
    ensures ParseFrame(parse, ToCrlf(frame)) == ParseFrame(parse, frame)
  {
    CrlfKeepsDataLine(frame);
    var plain := FirstDataLine(Lines(frame));
    if plain.Some? {
      DropWithin(plain.value, "\r", |DATA|);
      TrimDropsCarriageReturn(plain.value[|DATA|..]);
    }
  }

  lemma {:induction false} CollectAlike<V>(parse: JsonParser<V>, frames: seq<string>, count: int, events: seq<V>)
    requires forall f :: f in frames ==> '\r' !in f
    ensures CollectFrames(parse, Map(ToCrlf, frames), count, events) == CollectFrames(parse, frames, count, events)
    decreases |frames|
  {
    if |events| < count && frames != [] {
      CrlfFrameParsesAlike(parse, frames[0]);
      ConcatParts([ToCrlf(frames[0])], Map(ToCrlf, frames[1..]));
      match ParseFrame(parse, frames[0])
      case Malformed =>
      case NoData => CollectAlike(parse, frames[1..], count, events);
      case Payload(v) => CollectAlike(parse, frames[1..], count, events + [v]);
    }
  }

  lemma {:induction false} FramesKeepCharacters(s: string, c: char)
    requires c !in s
    ensures forall f :: f in Split(s).frames ==> c !in f
    decreases |s|
  {
    var m := Search(s);
    if m.Some? {
      FramesKeepCharacters(s[m.value + SepAt(s, m.value)..], c);
    }
  }

  /** A server that ends its lines with CR LF delivers the same events as one that ends them with LF. */
  lemma {:induction false} CrlfStreamCollectsAlike<V>(parse: JsonParser<V>, text: string, count: int)
    requires '\r' !in text
    ensures CollectFrames(parse, Split(ToCrlf(text)).frames, count, [])
         == CollectFrames(parse, Split(text).frames, count, [])
  {
    CrlfStreamSplitsAlike(text);
    FramesKeepCharacters(text, '\r');
    CollectAlike(parse, Split(text).frames, count, []);
  }
}
