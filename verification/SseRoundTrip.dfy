/**
 * From a writer to the collector (apps/api/test/support/sse.ts): events written as frames of field lines, with silent
 * frames in between, any mix of terminators, and cut into any chunks, are collected in order.
 */
module SseRoundTrip {
  import opened Prelude
  import opened SseFrames
  import opened SseCollect

  /**
   * What a writer sends, each with the terminator after it. An event has field lines before its `data:` line, and the
   * JSON text of its value there; a silent frame has no `data:` line, as a comment that keeps the connection alive.
   */
  datatype Item<+V> =
    | Event(fields: seq<string>, text: string, value: V, end: Terminator)
    | Silent(lines: seq<string>, end: Terminator)

  predicate OneLine(line: string) {
    line != "" && '\n' !in line && '\r' !in line
  }

  /** The text is on one line, without white space around it, as `JSON.stringify` writes it. */
  predicate Bare(text: string) {
    OneLine(text) && !IsSpace(text[0]) && !IsSpace(text[|text| - 1])
  }

  ghost predicate Sendable<V>(parse: JsonParser<V>, item: Item<V>) {
    match item
    case Event(fields, text, value, _) =>
      && Bare(text) && parse(text) == Some(value)
      && NoDataLine(fields) && forall line :: line in fields ==> OneLine(line)
    case Silent(lines, _) => NoDataLine(lines) && forall line :: line in lines ==> OneLine(line)
  }

  ghost predicate AllSendable<V>(parse: JsonParser<V>, items: seq<Item<V>>) {
    forall k :: 0 <= k < |items| ==> Sendable(parse, items[k])
  }

  function FrameOf<V>(item: Item<V>): string {
    match item
    case Event(fields, text, _, _) => Unlines(fields + ["data: " + text])
    case Silent(lines, _) => if lines == [] then "" else Unlines(lines)
  }

  function FramesOf<V>(items: seq<Item<V>>): (r: seq<string>)
    ensures |r| == |items|
  {
    if items == [] then [] else [FrameOf(items[0])] + FramesOf(items[1..])
  }

  function EndsOf<V>(items: seq<Item<V>>): (r: seq<Terminator>)
    ensures |r| == |items|
  {
    if items == [] then [] else [items[0].end] + EndsOf(items[1..])
  }

  /** The values of the events among the items, in order. */
  function ValuesOf<V>(items: seq<Item<V>>): seq<V> {
    if items == [] then []
    else if items[0].Event? then [items[0].value] + ValuesOf(items[1..])
    else ValuesOf(items[1..])
  }

  /** What is written for the items. */
  function Wire<V>(items: seq<Item<V>>): string {
    Join(FramesOf(items), EndsOf(items))
  }

  // ---- One frame ----

  predicate OneLines(lines: seq<string>) {
    lines != [] && forall line :: line in lines ==> OneLine(line)
  }

  lemma {:induction false} LinesOfUnlines(lines: seq<string>)
    requires OneLines(lines)
    ensures Lines(Unlines(lines)) == lines
  {
    var line, rest := lines[0], lines[1..];
    HeadAndLast(lines);
    assert line in lines && OneLine(line);
    if rest != [] {
      LinesOfUnlines(rest);
      LineEndIs(line, Unlines(rest), Unlines(lines));
    }
  }

  /** No line feed at either end or next to another, and no carriage return. */
  ghost predicate Spaced(s: string) {
    && s != "" && '\r' !in s && s[0] != '\n' && s[|s| - 1] != '\n'
    && forall i :: 0 <= i < |s| - 1 ==> s[i] != '\n' || s[i + 1] != '\n'
  }

  lemma SpacedLine(line: string)
    requires OneLine(line)
    ensures Spaced(line)
  {
    assert forall i :: 0 <= i < |line| ==> line[i] in line;
  }

  lemma SpacedCons(line: string, rest: string)
    requires OneLine(line) && Spaced(rest)
    ensures Spaced(line + (['\n'] + rest))
  {
    var s := line + (['\n'] + rest);
    SpacedLine(line);
    assert forall i :: 0 <= i < |line| ==> s[i] == line[i];
    assert s[|line|] == '\n';
    assert forall i :: |line| < i < |s| ==> s[i] == rest[i - |line| - 1];
  }

  lemma {:induction false} SpacedUnlines(lines: seq<string>)
    requires OneLines(lines)
    ensures Spaced(Unlines(lines))
  {
    if |lines| == 1 {
      SpacedLine(lines[0]);
    } else {
      SpacedUnlines(lines[1..]);
      SpacedCons(lines[0], Unlines(lines[1..]));
    }
  }

  lemma SpacedIsFramable(s: string, end: Terminator)
    requires Spaced(s)
    ensures Framable(s, end)
  {
    assert forall i :: 0 <= i < |s| ==> s[i] in s;
    forall i: nat | i <= |s| ensures SepAt(s, i) == 0 {}
  }

  lemma {:induction false} FirstAfterFields(fields: seq<string>, line: string)
    requires NoDataLine(fields) && StartsWith(line, DATA)
    ensures FirstDataLine(fields + [line]) == Some(line)
  {
    if fields != [] {
      assert fields[0] in fields && forall f :: f in fields[1..] ==> f in fields;
      FirstAfterFields(fields[1..], line);
      assert (fields + [line])[1..] == fields[1..] + [line];
    }
  }

  lemma TrimsToText(text: string)
    requires Bare(text)
    ensures Trim(" " + text) == text
  {
    var s := " " + text;
    assert s[|s| - 1] == text[|text| - 1];
    assert TrimEnd(s) == s && s[1..] == text;
    assert IsSpace(s[0]) by {
      assert "\t\n\r\U{000B}\U{000C} "[5] == ' ';
    }
    assert TrimStart(s) == TrimStart(text) == text;
  }

  lemma DataLine(text: string)
    requires OneLine(text)
    ensures var line := "data: " + text; StartsWith(line, DATA) && line[|DATA|..] == " " + text && OneLine(line)
  {
    var line := "data: " + text;
    assert line[..5] == DATA && line[5..] == " " + text;
  }

  /** A written event's frame can be told apart from any terminator, and its payload is the event's value. */
  lemma FrameCarries<V>(parse: JsonParser<V>, item: Item<V>)
    requires Sendable(parse, item) && item.Event?
    ensures Framable(FrameOf(item), item.end) && ParseFrame(parse, FrameOf(item)) == Payload(item.value)
  {
    var line := "data: " + item.text;
    var lines := item.fields + [line];
    DataLine(item.text);
    LinesOfUnlines(lines);
    SpacedUnlines(lines);
    SpacedIsFramable(Unlines(lines), item.end);
    FirstAfterFields(item.fields, line);
    TrimsToText(item.text);
  }

  /** A silent frame can be told apart too, and carries nothing. */
  lemma SilentCarriesNothing<V>(parse: JsonParser<V>, item: Item<V>)
    requires Sendable(parse, item) && item.Silent?
    ensures Framable(FrameOf(item), item.end) && ParseFrame(parse, FrameOf(item)).NoData?
  {
    if item.lines == [] {
      assert Lines("") == [""] && SepAt("", 0) == 0;
    } else {
      LinesOfUnlines(item.lines);
      SpacedUnlines(item.lines);
      SpacedIsFramable(Unlines(item.lines), item.end);
    }
    var k := FirstDataLineIsFirst(Lines(FrameOf(item)));
  }

  // ---- All frames ----

  lemma {:induction false} FramesFramable<V>(parse: JsonParser<V>, items: seq<Item<V>>)
    requires AllSendable(parse, items)
    ensures AllFramable(FramesOf(items), EndsOf(items))
  {
    if items != [] {
      var frames, ends := FramesOf(items), EndsOf(items);
      if items[0].Event? { FrameCarries(parse, items[0]); } else { SilentCarriesNothing(parse, items[0]); }
      assert AllSendable(parse, items[1..]);
      FramesFramable(parse, items[1..]);
      AllFramableCons(frames, ends);
    }
  }

  /** The pass over the frames, given what it has `got` and what more there is. */
  function Expected<V>(got: seq<V>, more: seq<V>, count: int): Outcome<V> {
    if |got| >= count then Collected(got)
    else if |got| + |more| >= count then Collected(got + more[..count - |got|])
    else StreamEnded(|got| + |more|)
  }

  lemma ExpectedCons<V>(got: seq<V>, more: seq<V>, count: int)
    requires |got| < count && more != []
    ensures Expected(got, more, count) == Expected(got + [more[0]], more[1..], count)
  {
    if |got| + |more| >= count {
      var n := count - |got|;
      assert more[..n] == [more[0]] + more[1..][..n - 1];
      ConcatAssoc(got, [more[0]], more[1..][..n - 1]);
      if n == 1 { ConcatEmpty(got + [more[0]]); }
    }
  }

  lemma {:induction false} PassCollects<V>(parse: JsonParser<V>, items: seq<Item<V>>, count: int, got: seq<V>)
    requires AllSendable(parse, items)
    ensures CollectFrames(parse, FramesOf(items), count, got) == Expected(got, ValuesOf(items), count)
    decreases |items|
  {
    if items != [] && |got| < count {
      var item, rest := items[0], items[1..];
      assert AllSendable(parse, rest);
      ConcatParts([FrameOf(item)], FramesOf(rest));
      if item.Event? {
        FrameCarries(parse, item);
        PassCollects(parse, rest, count, got + [item.value]);
        ConcatParts([item.value], ValuesOf(rest));
        ExpectedCons(got, ValuesOf(items), count);
      } else {
        SilentCarriesNothing(parse, item);
        PassCollects(parse, rest, count, got);
      }
    }
  }

  /** The outcome for `values`, of which `count` are wanted. */
  function Wanted<V>(values: seq<V>, timedOut: bool, count: int): Outcome<V> {
    if count <= |values| then Collected(values[..if count < 0 then 0 else count])
    else if timedOut then Aborted
    else StreamEnded(|values|)
  }

  lemma ExpectedFromNothing<V>(values: seq<V>, timedOut: bool, count: int)
    ensures var out := Expected([], values, count);
      Wanted(values, timedOut, count) == if out.StreamEnded? && timedOut then Aborted else out
  {
    if 0 < count <= |values| { ConcatEmpty(values[..count]); }
  }

  lemma WireSplits<V>(parse: JsonParser<V>, items: seq<Item<V>>, text: string)
    requires AllSendable(parse, items) && text == Wire(items)
    ensures Split(text).frames == FramesOf(items)
  {
    FramesFramable(parse, items);
    JoinThenSplit(FramesOf(items), EndsOf(items));
  }

  /**
   * Main result: whatever the field lines, the silent frames, the terminators and the chunks, collecting `count` events
   * gives the first `count` values that were written, in order; when fewer were written, it ends short or is aborted.
   */
  lemma WrittenIsCollected<V>(parse: JsonParser<V>, items: seq<Item<V>>, chunks: seq<string>, timedOut: bool,
                              count: int)
    requires AllSendable(parse, items) && Concat(chunks) == Wire(items)
    ensures CollectResponse(parse, Body(chunks, timedOut), count) == Wanted(ValuesOf(items), timedOut, count)
  {
    WireSplits(parse, items, Concat(chunks));
    PassCollects(parse, items, count, []);
    ExpectedFromNothing(ValuesOf(items), timedOut, count);
  }

  lemma {:induction false} ValuesWithSilent<V>(before: seq<Item<V>>, silent: Item<V>, after: seq<Item<V>>)
    requires silent.Silent?
    ensures ValuesOf(before + [silent] + after) == ValuesOf(before + after)
  {
    if before == [] {
      assert [] + [silent] + after == [silent] + after && [] + after == after;
    } else {
      assert (before + [silent] + after)[1..] == before[1..] + [silent] + after;
      assert (before + after)[1..] == before[1..] + after;
      ValuesWithSilent(before[1..], silent, after);
    }
  }

  /** So a silent frame anywhere among the items, however the bytes then fall into chunks, changes no outcome. */
  lemma SilentChangesNothing<V>(parse: JsonParser<V>, before: seq<Item<V>>, silent: Item<V>, after: seq<Item<V>>,
                                chunks: seq<string>, with: seq<string>, timedOut: bool, count: int)
    requires silent.Silent? && AllSendable(parse, before + [silent] + after)
    requires Concat(chunks) == Wire(before + after) && Concat(with) == Wire(before + [silent] + after)
    ensures CollectResponse(parse, Body(with, timedOut), count) == CollectResponse(parse, Body(chunks, timedOut), count)
  {
    var all := before + [silent] + after;
    forall k | 0 <= k < |before + after| ensures Sendable(parse, (before + after)[k]) {
      assert (before + after)[k] == all[if k < |before| then k else k + 1];
    }
    ValuesWithSilent(before, silent, after);
    WrittenIsCollected(parse, before + after, chunks, timedOut, count);
    WrittenIsCollected(parse, all, with, timedOut, count);
  }
}
