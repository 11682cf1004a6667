/** The chunked reader of the assistant's event stream. */
module StreamFraming {
  import opened Common

  /** The index of the first blank line (two line feeds), or the length if there is none. */
  function BlankLine(s: string): (i: nat)
    ensures i <= |s|
    ensures i < |s| ==> i + 1 < |s| && s[i] == '\n' && s[i + 1] == '\n'
  {
    if |s| < 2 then |s|
    else if s[0] == '\n' && s[1] == '\n' then 0
    else 1 + BlankLine(s[1..])
  }

  /** `split('\n\n')`: the pieces between blank lines, found from the left. */
  function Split(s: string): (pieces: seq<string>)
    ensures |pieces| > 0
    decreases |s|
  {
    var i := BlankLine(s);
    if i == |s| then [s] else [s[..i]] + Split(s[i + 2..])
  }

  function Last<T>(s: seq<T>): T
    requires |s| > 0
  {
    s[|s| - 1]
  }

  function Init<T>(s: seq<T>): seq<T>
    requires |s| > 0
  {
    s[..|s| - 1]
  }

  /** The frames a text completes, and the tail it leaves. */
  function Frames(text: string): seq<string> {
    Init(Split(text))
  }

  function Tail(text: string): string {
    Last(Split(text))
  }

  function IndexOf(s: string, c: char): (i: nat)
    ensures i <= |s|
  {
    if s == "" || s[0] == c then 0 else 1 + IndexOf(s[1..], c)
  }

  /** `split('\n')`. */
  function Lines(s: string): seq<string>
    decreases |s|
  {
    var i := IndexOf(s, '\n');
    if i == |s| then [s] else [s[..i]] + Lines(s[i + 1..])
  }

  const DATA := "data: "

  /** The first line that starts with `data: `, without that start. */
  function FirstData(lines: seq<string>): Option<string> {
    if lines == [] then None
    else if DATA <= lines[0] then Some(lines[0][|DATA|..])
    else FirstData(lines[1..])
  }

  /** What is yielded: the values, and whether a `JSON.parse` error ended the stream. */
  datatype Delivery<T> = Delivery(values: seq<T>, failed: bool)

  type Parser<T> = string -> Option<T>

  /** Frames in order; a frame without data is skipped, a malformed one ends the stream. */
  function Deliver<T>(frames: seq<string>, parse: Parser<T>): Delivery<T> {
    if frames == [] then Delivery([], false)
    else
      match FirstData(Lines(frames[0]))
      case None => Deliver(frames[1..], parse)
      case Some(data) =>
        match parse(data)
        case None => Delivery([], true)
        case Some(v) =>
          var rest := Deliver(frames[1..], parse);
          Delivery([v] + rest.values, rest.failed)
  }

  /** One delivery after another; the second only runs when the first did not fail. */
  function Then<T>(a: Delivery<T>, b: Delivery<T>): Delivery<T> {
    if a.failed then a else Delivery(a.values + b.values, b.failed)
  }

  function Concat(chunks: seq<string>): string {
    if chunks == [] then "" else Concat(chunks[..|chunks| - 1]) + chunks[|chunks| - 1]
  }

  // ---------------------------------------------------------------- splitting as text arrives

  /** No blank line starts before the one that is found. */
  lemma {:induction false} BlankLineIsFirst(s: string, k: nat)
    requires k < BlankLine(s) && k + 1 < |s|
    ensures !(s[k] == '\n' && s[k + 1] == '\n')
  {
    if k > 0 {
      BlankLineIsFirst(s[1..], k - 1);
    }
  }

  lemma {:induction false} BlankLineOfAppended(a: string, b: string)
    requires BlankLine(a) < |a|
    ensures BlankLine(a + b) == BlankLine(a)
  {
    if !(a[0] == '\n' && a[1] == '\n') {
      assert (a + b)[1..] == a[1..] + b;
      BlankLineOfAppended(a[1..], b);
    }
  }

  /**
   * Appending text to what was split: the frames already completed stand, and only the
   * tail is split again.
   */
  lemma {:induction false} SplitAppended(a: string, b: string)
    ensures Split(a + b) == Init(Split(a)) + Split(Last(Split(a)) + b)
    decreases |a|
  {
    var i := BlankLine(a);
    if i == |a| {
      assert Init([a]) == [];
    } else {
      var head, rest := a[..i], a[i + 2..];
      SplitAppended(rest, b);
      SplitAfterBlank(a, i, head, rest);
      BlankAppended(a, b, i, head, rest);
      ConsEnds(head, Split(rest), Split(Last(Split(rest)) + b));
    }
  }

  lemma BlankAppended(a: string, b: string, i: nat, head: string, rest: string)
    requires i == BlankLine(a) < |a| && head == a[..i] && rest == a[i + 2..]
    ensures Split(a + b) == [head] + Split(rest + b)
  {
    BlankLineOfAppended(a, b);
    SplitAfterBlank(a + b, i, head, rest + b);
  }

  lemma SplitAfterBlank(s: string, i: nat, head: string, rest: string)
    requires i == BlankLine(s) < |s| && head == s[..i] && rest == s[i + 2..]
    ensures Split(s) == [head] + Split(rest)
  {
  }

  lemma ConsEnds<T>(x: T, p: seq<T>, q: seq<T>)
    requires |p| > 0
    ensures Init([x] + p) + q == [x] + (Init(p) + q) && Last([x] + p) == Last(p)
  {
  }

  lemma FramesAppended(a: string, b: string)
    ensures Frames(a + b) == Frames(a) + Frames(Tail(a) + b)
    ensures Tail(a + b) == Tail(Tail(a) + b)
  {
    SplitAppended(a, b);
  }

  lemma {:induction false} DeliverConcat<T>(x: seq<string>, y: seq<string>, parse: Parser<T>)
    ensures Deliver(x + y, parse) == Then(Deliver(x, parse), Deliver(y, parse))
  {
    if x == [] {
      assert x + y == y;
    } else {
      assert (x + y)[1..] == x[1..] + y;
      DeliverConcat(x[1..], y, parse);
    }
  }

  // ---------------------------------------------------------------- what is delivered

  function DataOf(frame: string): Option<string> {
    FirstData(Lines(frame))
  }

  /** How many of the first `n` frames have a `data: ` line. */
  function DataCount(frames: seq<string>, n: nat): nat
    requires n <= |frames|
  {
    if n == 0 then 0
    else DataCount(frames, n - 1) + (if DataOf(frames[n - 1]).Some? then 1 else 0)
  }

  /** `stop` is the first frame with data that does not parse, or the end without one. */
  predicate StopsAt<T(!new)>(frames: seq<string>, parse: Parser<T>, stop: nat) {
    && stop <= |frames|
    && (forall i | 0 <= i < stop :: DataOf(frames[i]).Some? ==> parse(DataOf(frames[i]).value).Some?)
    && (stop < |frames| ==>
          DataOf(frames[stop]).Some? && parse(DataOf(frames[stop]).value).None?)
  }

  /** One value for each frame with data before `stop`, in order: what its data parses to. */
  ghost predicate ValuesUpTo<T(!new)>(
    frames: seq<string>, parse: Parser<T>, stop: nat, values: seq<T>)
    requires stop <= |frames|
  {
    && |values| == DataCount(frames, stop)
    && forall i | 0 <= i < stop :: ValueOf(frames, parse, values, i)
  }

  /** The data of frame `i`, if it has any, parses to the value in its place. */
  ghost predicate ValueOf<T>(frames: seq<string>, parse: Parser<T>, values: seq<T>, i: nat)
    requires i < |frames|
  {
    DataOf(frames[i]).Some? ==>
      && DataCount(frames, i) < |values|
      && Some(values[DataCount(frames, i)]) == parse(DataOf(frames[i]).value)
  }

  /** The values of all frames before the first malformed one; failed exactly if there is one. */
  ghost predicate DeliversExactly<T(!new)>(
    frames: seq<string>, parse: Parser<T>, delivery: Delivery<T>)
  {
    exists stop: nat ::
      && StopsAt(frames, parse, stop) && ValuesUpTo(frames, parse, stop, delivery.values)
      && (delivery.failed <==> stop < |frames|)
  }

  lemma {:induction false} DataCountCons(frame: string, rest: seq<string>, n: nat)
    requires n <= |rest|
    ensures DataCount([frame] + rest, n + 1) ==
            (if DataOf(frame).Some? then 1 else 0) + DataCount(rest, n)
  {
    if n > 0 {
      DataCountCons(frame, rest, n - 1);
    }
  }

  lemma {:induction false} DeliveryExact<T(!new)>(frames: seq<string>, parse: Parser<T>)
    ensures DeliversExactly(frames, parse, Deliver(frames, parse))
  {
    if frames == [] {
      assert StopsAt(frames, parse, 0) && ValuesUpTo(frames, parse, 0, []);
    } else {
      var frame, rest := frames[0], frames[1..];
      assert frames == [frame] + rest;
      DeliveryExact(rest, parse);
      if DataOf(frame).Some? && parse(DataOf(frame).value).None? {
        assert StopsAt(frames, parse, 0) && ValuesUpTo(frames, parse, 0, []);
      } else {
        var later := Deliver(rest, parse);
        var stop: nat :| StopsAt(rest, parse, stop) && ValuesUpTo(rest, parse, stop, later.values)
                         && (later.failed <==> stop < |rest|);
        StopsLater(frame, rest, parse, stop);
        ValuesCons(frame, rest, parse, stop, later.values, Deliver(frames, parse).values);
      }
    }
  }

  lemma StopsLater<T(!new)>(frame: string, rest: seq<string>, parse: Parser<T>, stop: nat)
    requires StopsAt(rest, parse, stop)
    requires DataOf(frame).Some? ==> parse(DataOf(frame).value).Some?
    ensures StopsAt([frame] + rest, parse, stop + 1)
  {
  }

  /** The values of a frame put in front of others. */
  ghost predicate Prepended<T>(frame: string, parse: Parser<T>, later: seq<T>, values: seq<T>) {
    match DataOf(frame)
    case None => values == later
    case Some(data) => parse(data).Some? && values == [parse(data).value] + later
  }

  lemma ValuesCons<T(!new)>(
    frame: string, rest: seq<string>, parse: Parser<T>, stop: nat, later: seq<T>, values: seq<T>)
    requires stop <= |rest| && ValuesUpTo(rest, parse, stop, later)
    requires Prepended(frame, parse, later, values)
    ensures ValuesUpTo([frame] + rest, parse, stop + 1, values)
  {
    DataCountCons(frame, rest, stop);
    forall i | 0 <= i < stop + 1 ensures ValueOf([frame] + rest, parse, values, i) {
      if i > 0 {
        ValueCons(frame, rest, parse, later, values, i - 1);
      }
    }
  }

  lemma ValueCons<T>(
    frame: string, rest: seq<string>, parse: Parser<T>, later: seq<T>, values: seq<T>, i: nat)
    requires i < |rest| && ValueOf(rest, parse, later, i) && Prepended(frame, parse, later, values)
    ensures ValueOf([frame] + rest, parse, values, i + 1)
  {
    DataCountCons(frame, rest, i);
    assert ([frame] + rest)[i + 1] == rest[i];
  }

  // ---------------------------------------------------------------- the reader

  /**
   * The reader. Whatever the chunks, it yields what the frames of the whole text yield;
   * an unterminated tail is dropped.
   */
  method StreamAssistantMessage<T(!new)>(chunks: seq<string>, parse: Parser<T>)
    returns (delivery: Delivery<T>)
    ensures delivery == Deliver(Frames(Concat(chunks)), parse)
    ensures var pieces := Split(Concat(chunks));
            DeliversExactly(pieces[..|pieces| - 1], parse, delivery)
  {
    var buffer := "";
    var values: seq<T> := [];
    var i := 0;
    while i < |chunks|
      invariant 0 <= i <= |chunks|
      invariant buffer == Tail(Concat(chunks[..i]))
      invariant Deliver(Frames(Concat(chunks[..i])), parse) == Delivery(values, false)
    {
      ghost var before := Concat(chunks[..i]);
      assert chunks[..i + 1][..i] == chunks[..i];
      assert Concat(chunks[..i + 1]) == before + chunks[i];
      ChunkAdds(before, chunks[i], values, parse);
      buffer := buffer + chunks[i];
      var pieces := Split(buffer);
      var frames := Init(pieces);
      buffer := Last(pieces);
      var failed;
      values, failed := YieldFrames(frames, parse, values);
      i := i + 1;
      if failed {
        FailedStays(chunks, i, parse);
        DeliveryExact(Frames(Concat(chunks)), parse);
        return Delivery(values, true);
      }
    }
    assert chunks[..|chunks|] == chunks;
    DeliveryExact(Frames(Concat(chunks)), parse);
    delivery := Delivery(values, false);
  }

  /** The inner loop over the frames a chunk completed. */
  method YieldFrames<T>(frames: seq<string>, parse: Parser<T>, before: seq<T>)
    returns (values: seq<T>, failed: bool)
    ensures Delivery(values, failed) == Then(Delivery(before, false), Deliver(frames, parse))
  {
    values := before;
    var j := 0;
    while j < |frames|
      invariant 0 <= j <= |frames|
      invariant Then(Delivery(before, false), Deliver(frames, parse))
             == Then(Delivery(values, false), Deliver(frames[j..], parse))
    {
      var line := FirstData(Lines(frames[j]));
      assert frames[j..][1..] == frames[j + 1..];
      if line.Some? {
        var parsed := parse(line.value);
        if parsed.None? {
          assert values + [] == values;
          return values, true;
        }
        ghost var rest := Deliver(frames[j + 1..], parse).values;
        assert values + ([parsed.value] + rest) == (values + [parsed.value]) + rest;
        values := values + [parsed.value];
      }
      j := j + 1;
    }
    assert values + [] == values;
    failed := false;
  }

  lemma ChunkAdds<T>(before: string, chunk: string, values: seq<T>, parse: Parser<T>)
    requires Deliver(Frames(before), parse) == Delivery(values, false)
    ensures Tail(before + chunk) == Tail(Tail(before) + chunk)
    ensures Deliver(Frames(before + chunk), parse) ==
            Then(Delivery(values, false), Deliver(Frames(Tail(before) + chunk), parse))
  {
    FramesAppended(before, chunk);
    DeliverConcat(Frames(before), Frames(Tail(before) + chunk), parse);
  }

  /** Once delivery fails, later chunks add nothing. */
  lemma FailedStays<T>(chunks: seq<string>, i: nat, parse: Parser<T>)
    requires i <= |chunks|
    requires Deliver(Frames(Concat(chunks[..i])), parse).failed
    ensures Deliver(Frames(Concat(chunks)), parse) == Deliver(Frames(Concat(chunks[..i])), parse)
  {
    var rest := ConcatSplit(chunks, i);
    FramesAppended(Concat(chunks[..i]), rest);
    DeliverConcat(Frames(Concat(chunks[..i])), Frames(Tail(Concat(chunks[..i])) + rest), parse);
  }

  lemma {:induction false} ConcatSplit(chunks: seq<string>, i: nat) returns (rest: string)
    requires i <= |chunks|
    ensures Concat(chunks) == Concat(chunks[..i]) + rest
  {
    if i == |chunks| {
      assert chunks[..i] == chunks;
      rest := "";
    } else {
      var n := |chunks| - 1;
      var r := ConcatSplit(chunks[..n], i);
      assert chunks[..n][..i] == chunks[..i];
      rest := r + chunks[n];
      assert Concat(chunks[..i]) + r + chunks[n] == Concat(chunks[..i]) + rest;
    }
  }

  // ---------------------------------------------------------------- what splitting means

  function JoinBlank(pieces: seq<string>): string
    requires |pieces| > 0
  {
    if |pieces| == 1 then pieces[0] else pieces[0] + "\n\n" + JoinBlank(pieces[1..])
  }

  /** A split found from the left: no piece reaches past the first blank line. */
  predicate LeftmostPieces(pieces: seq<string>)
    requires |pieces| > 0
  {
    if |pieces| == 1 then BlankLine(pieces[0]) == |pieces[0]|
    else BlankLine(pieces[0] + "\n\n") == |pieces[0]| && LeftmostPieces(pieces[1..])
  }

  /** The pieces of a text are the one leftmost cut that joins back to the text. */
  lemma {:induction false} SplitExact(s: string, pieces: seq<string>)
    requires |pieces| > 0
    ensures pieces == Split(s) <==> JoinBlank(pieces) == s && LeftmostPieces(pieces)
    decreases |s| + |pieces|
  {
    SplitJoins(s);
    if JoinBlank(pieces) == s && LeftmostPieces(pieces) {
      LeftmostIsSplit(pieces);
    }
  }

  lemma {:induction false} SplitJoins(s: string)
    ensures JoinBlank(Split(s)) == s && LeftmostPieces(Split(s))
    decreases |s|
  {
    var i := BlankLine(s);
    if i < |s| {
      SplitJoins(s[i + 2..]);
      BlankLineAtEnd(s, i);
      CutOnBlankLine(s, i);
      JoinCons(s[..i], Split(s[i + 2..]));
    }
  }

  lemma CutOnBlankLine(s: string, i: nat)
    requires i + 1 < |s| && s[i] == '\n' && s[i + 1] == '\n'
    ensures s == s[..i] + "\n\n" + s[i + 2..]
  {
  }

  lemma JoinCons(head: string, pieces: seq<string>)
    requires |pieces| > 0
    ensures JoinBlank([head] + pieces) == head + "\n\n" + JoinBlank(pieces)
    ensures LeftmostPieces([head] + pieces) <==>
            BlankLine(head + "\n\n") == |head| && LeftmostPieces(pieces)
  {
    assert ([head] + pieces)[1..] == pieces;
  }

  /** Cutting a text right after its first blank line keeps that blank line the first. */
  lemma {:induction false} BlankLineAtEnd(s: string, i: nat)
    requires i == BlankLine(s) < |s|
    ensures BlankLine(s[..i] + "\n\n") == i
  {
    var t := s[..i] + "\n\n";
    assert t == s[..i + 2];
    if i > 0 {
      BlankLineAtEnd(s[1..], i - 1);
      assert t[1..] == s[1..][..i - 1] + "\n\n";
    }
  }

  lemma {:induction false} LeftmostIsSplit(pieces: seq<string>)
    requires |pieces| > 0 && LeftmostPieces(pieces)
    ensures Split(JoinBlank(pieces)) == pieces
  {
    if |pieces| > 1 {
      var head, rest := pieces[0], JoinBlank(pieces[1..]);
      LeftmostIsSplit(pieces[1..]);
      SplitJoined(head, rest);
      assert pieces == [head] + pieces[1..];
    }
  }

  lemma SplitJoined(head: string, rest: string)
    requires BlankLine(head + "\n\n") == |head|
    ensures Split(head + "\n\n" + rest) == [head] + Split(rest)
  {
    var s := head + "\n\n" + rest;
    BlankLineOfAppended(head + "\n\n", rest);
    assert s[..|head|] == head && s[|head| + 2..] == rest;
    SplitAfterBlank(s, |head|, head, rest);
  }

  // ---------------------------------------------------------------- the data line of a frame

  function JoinLines(lines: seq<string>): string
    requires |lines| > 0
  {
    if |lines| == 1 then lines[0] else lines[0] + "\n" + JoinLines(lines[1..])
  }

  ghost predicate SingleLines(lines: seq<string>) {
    forall i | 0 <= i < |lines| :: '\n' !in lines[i]
  }

  lemma {:induction false} IndexOfExact(s: string, c: char)
    ensures c !in s[..IndexOf(s, c)]
    ensures IndexOf(s, c) < |s| ==> s[IndexOf(s, c)] == c
  {
    if s != "" && s[0] != c {
      IndexOfExact(s[1..], c);
      var i := IndexOf(s, c);
      assert s[..i] == [s[0]] + s[1..][..i - 1];
    }
  }

  lemma {:induction false} IndexOfAfter(a: string, c: char, b: string)
    requires c !in a && (b == "" || b[0] == c)
    ensures IndexOf(a + b, c) == |a|
  {
    if a == "" {
      assert a + b == b;
    } else {
      assert a[0] in a && a[0] != c;
      assert (a + b)[1..] == a[1..] + b;
      IndexOfAfter(a[1..], c, b);
    }
  }

  lemma {:induction false} LinesJoin(s: string)
    ensures |Lines(s)| > 0 && JoinLines(Lines(s)) == s && SingleLines(Lines(s))
    decreases |s|
  {
    var i := IndexOf(s, '\n');
    IndexOfExact(s, '\n');
    if i == |s| {
      assert s[..i] == s;
    } else {
      var rest := Lines(s[i + 1..]);
      LinesJoin(s[i + 1..]);
      assert ([s[..i]] + rest)[1..] == rest;
      assert s == s[..i] + "\n" + s[i + 1..];
    }
  }

  lemma LineAlone(s: string)
    requires '\n' !in s
    ensures Lines(s) == [s]
  {
    IndexOfExact(s, '\n');
  }

  lemma LinesOfCons(head: string, rest: string)
    requires '\n' !in head
    ensures Lines(head + ("\n" + rest)) == [head] + Lines(rest)
  {
    var s := head + ("\n" + rest);
    IndexOfAfter(head, '\n', "\n" + rest);
    assert s[..|head|] == head && s[|head| + 1..] == rest;
  }

  lemma {:induction false} JoinedLines(lines: seq<string>)
    requires |lines| > 0 && SingleLines(lines)
    ensures Lines(JoinLines(lines)) == lines
  {
    var head := lines[0];
    assert lines == [head] + lines[1..];
    if |lines| == 1 {
      LineAlone(head);
    } else {
      var rest := JoinLines(lines[1..]);
      assert SingleLines(lines[1..]);
      JoinedLines(lines[1..]);
      assert JoinLines(lines) == head + ("\n" + rest);
      LinesOfCons(head, rest);
    }
  }

  /** The lines of a frame are the one cut at line feeds that joins back to the frame. */
  lemma LinesExact(s: string, lines: seq<string>)
    requires |lines| > 0
    ensures lines == Lines(s) <==> JoinLines(lines) == s && SingleLines(lines)
  {
    LinesJoin(s);
    if JoinLines(lines) == s && SingleLines(lines) {
      JoinedLines(lines);
    }
  }

  /** Line `i` is the first one that starts with `data: `, and `data` is what follows. */
  predicate FirstDataAt(lines: seq<string>, i: nat, data: string) {
    && i < |lines| && lines[i] == "data: " + data
    && forall k | 0 <= k < i :: !("data: " <= lines[k])
  }

  /** The data of a frame is that of its first `data: ` line; there is none without one. */
  lemma {:induction false} FirstDataExact(lines: seq<string>)
    ensures FirstData(lines).None? <==> forall k | 0 <= k < |lines| :: !("data: " <= lines[k])
    ensures FirstData(lines).Some? ==> exists i: nat :: FirstDataAt(lines, i, FirstData(lines).value)
  {
    if lines != [] {
      if DATA <= lines[0] {
        assert lines[0] == DATA + lines[0][|DATA|..];
        assert FirstDataAt(lines, 0, FirstData(lines).value);
      } else {
        FirstDataExact(lines[1..]);
        assert forall k | 1 <= k < |lines| :: lines[k] == lines[1..][k - 1];
        if FirstData(lines).Some? {
          var data := FirstData(lines).value;
          var i: nat :| FirstDataAt(lines[1..], i, data);
          assert FirstDataAt(lines, i + 1, data);
        }
      }
    }
  }
}
