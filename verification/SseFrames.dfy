/** Cutting a Server-Sent Events text into frames (apps/api/test/support/sse.ts). */
module SseFrames {
  import opened Prelude

  datatype Pieces = Pieces(frames: seq<string>, rest: string)

  /** Length of the match of `\r?\n\r?\n` that starts at `i`; 0 when there is none. */
  function SepAt(s: string, i: nat): nat
    requires i <= |s|
  {
    var j := if i < |s| && s[i] == '\r' then i + 1 else i;
    if j < |s| && s[j] == '\n' then
      var k := if j + 1 < |s| && s[j + 1] == '\r' then j + 2 else j + 1;
      if k < |s| && s[k] == '\n' then k + 1 - i else 0
    else 0
  }

  /** The match is one of the four texts that `\r?\n\r?\n` stands for, and each of those is a match. */
  lemma SepIsOneOfFour(s: string, i: nat, n: nat)
    requires i + n <= |s|
    ensures SepAt(s, i) == n > 0 <==> s[i..i + n] in {"\n\n", "\r\n\n", "\n\r\n", "\r\n\r\n"}
  {
    var m := s[i..i + n];
    assert forall k :: 0 <= k < n ==> m[k] == s[i + k];
    if SepAt(s, i) == n > 0 {
      assert m == if n == 2 then [m[0], m[1]] else if n == 3 then [m[0], m[1], m[2]] else [m[0], m[1], m[2], m[3]];
    }
    if m in {"\n\n", "\r\n\n", "\n\r\n", "\r\n\r\n"} {
      assert n >= 2 && m[n - 1] == '\n' && (m[0] == '\n' || (m[0] == '\r' && m[1] == '\n'));
    }
  }

  ghost predicate HasSep(s: string) {
    exists i: nat :: i <= |s| && SepAt(s, i) > 0
  }

  /** Leftmost separator at or after `from`: what a regular-expression search returns. */
  function Search(s: string, from: nat := 0): (m: Option<nat>)
    requires from <= |s|
    ensures m.Some? ==> from <= m.value < |s| && 0 < SepAt(s, m.value) && m.value + SepAt(s, m.value) <= |s|
    decreases |s| - from
  {
    if SepAt(s, from) > 0 then Some(from)
    else if from == |s| then None
    else Search(s, from + 1)
  }

  /** There is no separator in `s` at a position from `from` to `to - 1`. */
  ghost predicate NoSep(s: string, from: nat, to: nat) {
    forall j: nat :: from <= j < to && j <= |s| ==> SepAt(s, j) == 0
  }

  lemma {:induction false} SearchSpec(s: string, from: nat, i: nat)
    requires from <= |s|
    ensures Search(s, from) == Some(i) <==> from <= i <= |s| && SepAt(s, i) > 0 && NoSep(s, from, i)
    ensures Search(s, from) == None <==> NoSep(s, from, |s| + 1)
    decreases |s| - from
  {
    if SepAt(s, from) == 0 {
      if from < |s| {
        SearchSpec(s, from + 1, i);
        assert forall to: nat :: from < to ==> (NoSep(s, from, to) <==> NoSep(s, from + 1, to));
      }
    }
  }

  lemma SearchNone(s: string)
    ensures Search(s).None? <==> !HasSep(s)
  {
    SearchSpec(s, 0, 0);
    if !HasSep(s) { assert NoSep(s, 0, |s| + 1); }
  }

  function Prepend(frames: seq<string>, p: Pieces): Pieces {
    Pieces(frames + p.frames, p.rest)
  }

  /** The frames of `s` and its unterminated tail. */
  function Split(s: string): Pieces
    decreases |s|
  {
    match Search(s)
    case None => Pieces([], s)
    case Some(i) => Prepend([s[..i]], Split(s[i + SepAt(s, i)..]))
  }

  lemma SplitStep(s: string, i: nat, frame: string, tail: string, after: Pieces)
    requires Search(s) == Some(i) && frame == s[..i] && tail == s[i + SepAt(s, i)..] && after == Split(tail)
    ensures Split(s) == Prepend([frame], after)
  {
    calc {
      Split(s);
      Prepend([s[..i]], Split(s[i + SepAt(s, i)..]));
      Prepend([frame], Split(tail));
    }
  }
  method SplitFrames(buffer: string) returns (frames: seq<string>, rest: string)
    ensures Pieces(frames, rest) == Split(buffer)
    ensures |rest| <= |buffer|
  {
    frames, rest := [], buffer;
    ghost var goal := Split(buffer);
    ConcatEmpty(goal.frames);
    var found := Search(rest);
    while found.Some?
      invariant |rest| <= |buffer|
      invariant found == Search(rest)
      invariant goal == Prepend(frames, Split(rest))
      decreases |rest|
    {
      var frame, tail := rest[..found.value], rest[found.value + SepAt(rest, found.value)..];
      SplitStep(rest, found.value, frame, tail, Split(tail));
      ConcatAssoc(frames, [frame], Split(tail).frames);
      frames, rest := frames + [frame], tail;
      found := Search(rest);
    }
    ConcatEmpty(frames);
  }

  // ---- A text and its extensions ----

  lemma SepInPrefix(a: string, b: string, i: nat)
    requires i <= |a|
    ensures SepAt(a, i) > 0 ==> SepAt(a + b, i) == SepAt(a, i)
    ensures i + SepAt(a + b, i) <= |a| ==> SepAt(a + b, i) == SepAt(a, i)
  {
    var s := a + b;
    assert forall k :: 0 <= k < |a| ==> s[k] == a[k];
  }

  lemma NoSepInPrefix(a: string, b: string, i: nat)
    requires i <= |a| && SepAt(a, i) > 0 && NoSep(a, 0, i)
    ensures NoSep(a + b, 0, i)
  {
    forall j: nat | j < i ensures SepAt(a + b, j) == 0 {
      SepInPrefix(a, b, j);
      assert SepAt(a, j) == 0;
      var s := a + b;
      assert forall k :: 0 <= k < |a| ==> s[k] == a[k];
    }
  }

  /** More text never moves the leftmost separator, even one that a longer match could have swallowed. */
  lemma SearchIsStable(a: string, b: string)
    requires Search(a).Some?
    ensures Search(a + b) == Search(a)
    ensures SepAt(a + b, Search(a).value) == SepAt(a, Search(a).value)
  {
    var i := Search(a).value;
    SearchSpec(a, 0, i);
    SepInPrefix(a, b, i);
    NoSepInPrefix(a, b, i);
    SearchSpec(a + b, 0, i);
  }

  /** Cutting after any prefix and resuming from its rest loses and moves nothing. */
  lemma {:induction false} SplitResumes(a: string, b: string, first: Pieces)
    requires first == Split(a)
    ensures Split(a + b) == Prepend(first.frames, Split(first.rest + b))
    decreases |a|
  {
    var m := Search(a);
    if m.None? {
      ConcatEmpty(Split(a + b).frames);
    } else {
      var i, cut := m.value, m.value + SepAt(a, m.value);
      var frame, after := a[..i], a[cut..];
      SplitStep(a, i, frame, after, Split(after));
      SplitStepExtended(a, b, a + b, i, after);
      SplitResumes(after, b, Split(after));
      ConcatAssoc([frame], Split(after).frames, Split(first.rest + b).frames);
    }
  }

  lemma SplitStepExtended(a: string, b: string, whole: string, i: nat, after: string)
    requires Search(a) == Some(i) && after == a[i + SepAt(a, i)..] && whole == a + b
    ensures Split(whole) == Prepend([a[..i]], Split(after + b))
  {
    SearchIsStable(a, b);
    DropWithin(a, b, i + SepAt(a, i));
    DropWithin(a, b, i);
    SplitStep(whole, i, a[..i], after + b, Split(after + b));
  }

  /** Feeding chunks one at a time, keeping the rest between them. */
  function Feed(rest: string, chunks: seq<string>): Pieces
    decreases |chunks|
  {
    if chunks == [] then Pieces([], rest)
    else
      var now := Split(rest + chunks[0]);
      var later := Feed(now.rest, chunks[1..]);
      Pieces(now.frames + later.frames, later.rest)
  }

  lemma {:induction false} RestSplitsToItself(s: string)
    ensures Split(Split(s).rest) == Pieces([], Split(s).rest)
    decreases |s|
  {
    var m := Search(s);
    if m.Some? {
      RestSplitsToItself(s[m.value + SepAt(s, m.value)..]);
    }
  }

  lemma {:induction false} FeedFrom(rest: string, chunks: seq<string>)
    requires Search(rest).None?
    ensures Feed(rest, chunks) == Split(rest + Concat(chunks))
    decreases |chunks|
  {
    if chunks == [] {
      assert rest + Concat(chunks) == rest;
    } else {
      var now := Split(rest + chunks[0]);
      RestSplitsToItself(rest + chunks[0]);
      FeedFrom(now.rest, chunks[1..]);
      SplitResumes(rest + chunks[0], Concat(chunks[1..]), now);
      ConcatAssoc(rest, chunks[0], Concat(chunks[1..]));
    }
  }

  /** Main result: where the chunks fall does not matter. */
  lemma {:induction false} ChunkingIsIrrelevant(chunks: seq<string>)
    ensures Feed("", chunks) == Split(Concat(chunks))
  {
    FeedFrom("", chunks);
    assert "" + Concat(chunks) == Concat(chunks);
  }

  lemma NoSeparatorBeforeFirst(s: string)
    requires Search(s).Some?
    ensures !HasSep(s[..Search(s).value])
  {
    var i := Search(s).value;
    SearchSpec(s, 0, i);
    assert s[..i] + s[i..] == s;
    forall j: nat | j <= i ensures SepAt(s[..i], j) == 0 {
      SepInPrefix(s[..i], s[i..], j);
      if j < i { assert SepAt(s, j) == 0; }
    }
  }

  /** No frame, and not the rest, contains a separator. */
  lemma {:induction false} PiecesHaveNoSeparator(s: string)
    ensures forall f :: f in Split(s).frames ==> !HasSep(f)
    ensures !HasSep(Split(s).rest)
    decreases |s|
  {
    var m := Search(s);
    if m.Some? {
      var frame, tail := s[..m.value], s[m.value + SepAt(s, m.value)..];
      NoSeparatorBeforeFirst(s);
      SplitStep(s, m.value, frame, tail, Split(tail));
      PiecesHaveNoSeparator(tail);
    } else {
      SearchNone(s);
    }
  }

  // ---- Writing frames and reading them back ----

  datatype Terminator = Lf | Crlf {
    function Text(): string { if Lf? then "\n\n" else "\r\n\r\n" }
  }

  function Join(frames: seq<string>, ends: seq<Terminator>): string
    requires |frames| == |ends|
  {
    if frames == [] then "" else frames[0] + (ends[0].Text() + Join(frames[1..], ends[1..]))
  }

  /** The frame can be told apart from the terminator that follows it. */
  ghost predicate Framable(frame: string, end: Terminator) {
    && !HasSep(frame)
    && (frame != "" ==> frame[|frame| - 1] != '\n')
    && (frame != "" && end.Lf? ==> frame[|frame| - 1] != '\r')
  }

  lemma SepAfter(a: string, b: string, i: nat)
    requires i <= |b|
    ensures SepAt(a + b, |a| + i) == SepAt(b, i)
  {
    var s := a + b;
    assert forall k :: 0 <= k < |b| ==> s[|a| + k] == b[k];
  }

  lemma TerminatorMatches(end: Terminator, tail: string)
    ensures SepAt(end.Text() + tail, 0) == |end.Text()|
  {
    assert forall k :: 0 <= k < |end.Text()| ==> (end.Text() + tail)[k] == end.Text()[k];
  }

  lemma NothingEarlier(frame: string, end: Terminator, tail: string, j: nat)
    requires Framable(frame, end) && j < |frame|
    ensures SepAt(frame + (end.Text() + tail), j) == 0
  {
    var more := end.Text() + tail;
    SepInPrefix(frame, more, j);
    assert SepAt(frame, j) == 0;
    var s := frame + more;
    assert s[|frame| - 1] == frame[|frame| - 1];
    assert s[|frame|] == end.Text()[0];
  }

  lemma SomethingEarlier(frame: string, end: Terminator, tail: string) returns (j: nat)
    requires !Framable(frame, end)
    ensures j < |frame| && SepAt(frame + (end.Text() + tail), j) > 0
  {
    var more := end.Text() + tail;
    if HasSep(frame) {
      j :| j <= |frame| && SepAt(frame, j) > 0;
      SepInPrefix(frame, more, j);
    } else {
      j := |frame| - 1;
      var s := frame + more;
      assert s[j] == frame[j];
      assert s[|frame|] == end.Text()[0] && s[|frame| + 1] == end.Text()[1];
    }
  }

  lemma TerminatorFound(frame: string, end: Terminator, tail: string)
    ensures Search(frame + (end.Text() + tail)).Some?
  {
    TerminatorMatches(end, tail);
    SepAfter(frame, end.Text() + tail, 0);
    SearchNone(frame + (end.Text() + tail));
  }

  lemma NothingBefore(frame: string, end: Terminator, tail: string)
    ensures Framable(frame, end) <==> NoSep(frame + (end.Text() + tail), 0, |frame|)
  {
    if Framable(frame, end) {
      forall j: nat | j < |frame| ensures SepAt(frame + (end.Text() + tail), j) == 0 {
        NothingEarlier(frame, end, tail, j);
      }
    } else {
      var j := SomethingEarlier(frame, end, tail);
    }
  }

  /** The first separator of `frame + terminator + tail` is that terminator exactly when the frame is framable. */
  lemma {:induction false} FirstCut(frame: string, end: Terminator, tail: string)
    ensures Framable(frame, end) <==> Search(frame + (end.Text() + tail)) == Some(|frame|)
    ensures SepAt(frame + (end.Text() + tail), |frame|) == |end.Text()|
  {
    TerminatorMatches(end, tail);
    SepAfter(frame, end.Text() + tail, 0);
    SearchSpec(frame + (end.Text() + tail), 0, |frame|);
    NothingBefore(frame, end, tail);
  }

  lemma SplitFirst(frame: string, end: Terminator, tail: string)
    requires Framable(frame, end)
    ensures Split(frame + (end.Text() + tail)) == Prepend([frame], Split(tail))
  {
    var more := end.Text() + tail;
    FirstCut(frame, end, tail);
    ConcatParts(frame, more);
    ConcatParts(end.Text(), tail);
    DropTwice(frame + more, |frame|, |end.Text()|);
    SplitStep(frame + more, |frame|, frame, tail, Split(tail));
  }

  lemma DropTwice(s: string, m: nat, n: nat)
    requires m + n <= |s|
    ensures s[m..][n..] == s[m + n..]
  {
  }

  lemma SplitFirstWrong(frame: string, end: Terminator, tail: string)
    requires !Framable(frame, end)
    ensures var p := Split(frame + (end.Text() + tail)); p.frames != [] && p.frames[0] != frame
  {
    var s := frame + (end.Text() + tail);
    FirstCut(frame, end, tail);
    SearchSpec(s, 0, |frame|);
    var m := Search(s);
    TerminatorFound(frame, end, tail);
    var after := s[m.value + SepAt(s, m.value)..];
    SplitStep(s, m.value, s[..m.value], after, Split(after));
    assert |s[..m.value]| != |frame|;
  }

  ghost predicate AllFramable(frames: seq<string>, ends: seq<Terminator>)
    requires |frames| == |ends|
  {
    forall k :: 0 <= k < |frames| ==> Framable(frames[k], ends[k])
  }

  lemma AllFramableCons(frames: seq<string>, ends: seq<Terminator>)
    requires |frames| == |ends| > 0
    ensures AllFramable(frames, ends) <==> Framable(frames[0], ends[0]) && AllFramable(frames[1..], ends[1..])
  {
    if Framable(frames[0], ends[0]) && AllFramable(frames[1..], ends[1..]) {
      forall k | 0 <= k < |frames| ensures Framable(frames[k], ends[k]) {
        if k > 0 { assert frames[k] == frames[1..][k - 1]; }
      }
    }
  }

  /** Round trip, exactly: joined frames split back to themselves iff every frame is framable before its terminator. */
  lemma {:induction false} JoinThenSplit(frames: seq<string>, ends: seq<Terminator>)
    requires |frames| == |ends|
    ensures Split(Join(frames, ends)) == Pieces(frames, "") <==> AllFramable(frames, ends)
    decreases |frames|
  {
    if frames != [] {
      var tail := Join(frames[1..], ends[1..]);
      AllFramableCons(frames, ends);
      if Framable(frames[0], ends[0]) {
        SplitFirst(frames[0], ends[0], tail);
        JoinThenSplit(frames[1..], ends[1..]);
        SameCons(frames, Split(tail).frames);
      } else {
        SplitFirstWrong(frames[0], ends[0], tail);
      }
    }
  }

  lemma LineFeedAlone()
    ensures Split("\n") == Pieces([], "\n")
  {
    assert SepAt("\n", 0) == 0 && SepAt("\n", 1) == 0;
    SearchSpec("\n", 0, 0);
  }

  lemma FirstOfThree(s: string)
    requires s == "a\n\n\n"
    ensures Search(s) == Some(1) && SepAt(s, 1) == 2
  {
    assert SepAt(s, 0) == 0;
    SearchSpec(s, 0, 1);
  }

  /** A frame that ends in a line feed comes back shorter, and its last character is taken for the next frame's. */
  lemma TrailingLineFeedMoves(s: string)
    requires s == "a\n\n\n"
    ensures Join(["a\n"], [Lf]) == s && Split(s) == Pieces(["a"], "\n")
  {
    FirstOfThree(s);
    assert s[..1] == "a" && s[3..] == "\n";
    LineFeedAlone();
    SplitStep(s, 1, "a", "\n", Pieces([], "\n"));
    assert "a\n" + ("\n\n" + "") == s;
  }

  lemma SameCons(all: seq<string>, tail: seq<string>)
    requires all != []
    ensures [all[0]] + tail == all <==> tail == all[1..]
  {
    ConcatParts([all[0]], tail);
    assert [all[0]] + all[1..] == all;
  }

  // ---- LF and CRLF streams decode alike ----

  /** The same text with every line feed sent as CR LF. */
  function ToCrlf(s: string): string {
    if s == "" then "" else Sent(s[0]) + ToCrlf(s[1..])
  }

  function Sent(c: char): string {
    if c == '\n' then "\r\n" else [c]
  }

  lemma {:induction false} ToCrlfAppend(a: string, b: string)
    ensures ToCrlf(a + b) == ToCrlf(a) + ToCrlf(b)
  {
    if a == "" {
      assert a + b == b;
    } else {
      DropWithin(a, b, 1);
      ToCrlfAppend(a[1..], b);
      ConcatAssoc(Sent(a[0]), ToCrlf(a[1..]), ToCrlf(b));
    }
  }

  lemma ToCrlfHead(s: string)
    requires '\r' !in s
    ensures ToCrlf(s) != "" ==> ToCrlf(s)[0] != '\n' && (ToCrlf(s)[0] == '\r' <==> s[0] == '\n')
  {
  }

  lemma TailHasNoSeparator(s: string)
    requires s != "" && !HasSep(s)
    ensures !HasSep(s[1..])
  {
    forall i: nat | i <= |s[1..]| ensures SepAt(s[1..], i) == 0 {
      SepAfter([s[0]], s[1..], i);
      assert [s[0]] + s[1..] == s;
      assert SepAt(s, i + 1) == 0;
    }
  }

  lemma {:induction false} ToCrlfAddsNoSeparatorAt(s: string, j: nat)
    requires '\r' !in s && !HasSep(s) && j <= |ToCrlf(s)|
    ensures SepAt(ToCrlf(s), j) == 0
  {
    if s != "" {
      var t, head := s[1..], Sent(s[0]);
      TailHasNoSeparator(s);
      if j >= |head| {
        ToCrlfAddsNoSeparatorAt(t, j - |head|);
        SepAfter(head, ToCrlf(t), j - |head|);
      } else if s[0] == '\n' {
        AfterLoneLineFeed(s);
        LoneLineFeed(ToCrlf(t), j);
      }
    }
  }

  lemma AfterLoneLineFeed(s: string)
    requires '\r' !in s && s != "" && s[0] == '\n' && !HasSep(s)
    ensures var rest := ToCrlf(s[1..]); rest != "" ==> rest[0] != '\n' && rest[0] != '\r'
  {
    assert SepAt(s, 0) == 0;
    ToCrlfHead(s[1..]);
  }

  lemma LoneLineFeed(rest: string, j: nat)
    requires rest != "" ==> rest[0] != '\n' && rest[0] != '\r'
    requires j < 2
    ensures SepAt("\r\n" + rest, j) == 0
  {
    var s := "\r\n" + rest;
    assert rest != "" ==> s[2] == rest[0];
  }

  lemma ToCrlfAddsNoSeparator(s: string)
    requires '\r' !in s && !HasSep(s)
    ensures !HasSep(ToCrlf(s))
  {
    forall j: nat | j <= |ToCrlf(s)| ensures SepAt(ToCrlf(s), j) == 0 {
      ToCrlfAddsNoSeparatorAt(s, j);
    }
  }

  lemma {:induction false} ToCrlfEnd(s: string)
    requires s != ""
    ensures ToCrlf(s) != "" && ToCrlf(s)[|ToCrlf(s)| - 1] == s[|s| - 1]
  {
    if |s| > 1 {
      ToCrlfEnd(s[1..]);
    }
  }

  lemma {:induction false} ToCrlfFramable(frame: string)
    requires '\r' !in frame && Framable(frame, Lf)
    ensures Framable(ToCrlf(frame), Crlf)
  {
    ToCrlfAddsNoSeparator(frame);
    if frame != "" { ToCrlfEnd(frame); }
  }

  lemma {:induction false} ToCrlfTerminated(frame: string, tail: string)
    ensures ToCrlf(frame + (Lf.Text() + tail)) == ToCrlf(frame) + (Crlf.Text() + ToCrlf(tail))
  {
    ToCrlfAppend(frame, Lf.Text() + tail);
    ToCrlfAppend(Lf.Text(), tail);
    assert Lf.Text()[1..] == "\n" && "\n"[1..] == "";
    assert ToCrlf("\n") == "\r\n";
    assert ToCrlf(Lf.Text()) == "\r\n" + "\r\n" == Crlf.Text();
  }

  /** In a text without carriage returns the first separator is a plain blank line. */
  lemma CutAtBlankLine(s: string) returns (frame: string, tail: string)
    requires '\r' !in s && Search(s).Some?
    ensures s == frame + (Lf.Text() + tail)
    ensures Framable(frame, Lf) && '\r' !in frame && '\r' !in tail && |tail| < |s|
  {
    var i := Search(s).value;
    assert SepAt(s, i) == 2 && s[i] == '\n' && s[i + 1] == '\n';
    frame, tail := s[..i], s[i + 2..];
    assert s == frame + (Lf.Text() + tail);
    FirstCut(frame, Lf, tail);
  }

  /** A stream without carriage returns and the same stream sent with CR LF give the same frames, line ends aside. */
  lemma {:induction false} CrlfStreamSplitsAlike(s: string)
    requires '\r' !in s
    ensures Split(ToCrlf(s)) == Pieces(Map(ToCrlf, Split(s).frames), ToCrlf(Split(s).rest))
    decreases |s|
  {
    SearchNone(s);
    if Search(s).None? {
      ToCrlfAddsNoSeparator(s);
      SearchNone(ToCrlf(s));
    } else {
      var frame, tail := CutAtBlankLine(s);
      SplitFirst(frame, Lf, tail);
      ToCrlfFramable(frame);
      SplitFirst(ToCrlf(frame), Crlf, ToCrlf(tail));
      ToCrlfTerminated(frame, tail);
      CrlfStreamSplitsAlike(tail);
      ConcatParts([frame], Split(tail).frames);
    }
  }
}
