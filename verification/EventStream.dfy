/**
  * The event stream of the chat: the panel writes one data line and a blank line per event,
  * the browser reads chunks of text and delivers the events of the completed blocks (a subset
  * of sections 9.2.5 and 9.2.6 of the WHATWG HTML standard).
  */
module EventStream {
  import opened Basics

  // ---------------------------------------------------------------------------
  // String.prototype.split

  /** Where the separator first occurs from i on, |s| if nowhere. */
  function IndexFrom(s: string, sep: string, i: nat): (k: nat)
    requires sep != "" && i <= |s|
    ensures i <= k <= |s|
    ensures k < |s| ==> MatchAt(s, sep, k)
    ensures forall j :: i <= j < k ==> !MatchAt(s, sep, j)
    decreases |s| - i
  {
    if i == |s| || MatchAt(s, sep, i) then i else IndexFrom(s, sep, i + 1)
  }

  /** The parts between the separators, found from left to right. */
  function Split(s: string, sep: string): (parts: seq<string>)
    requires sep != ""
    ensures parts != []
    decreases |s|
  {
    var i := IndexFrom(s, sep, 0);
    if i == |s| then [s] else [s[..i]] + Split(s[i + |sep|..], sep)
  }

  function Last(parts: seq<string>): string
    requires parts != []
  {
    parts[|parts| - 1]
  }

  function Init(parts: seq<string>): seq<string>
    requires parts != []
  {
    parts[..|parts| - 1]
  }

  /** The parts with the separator between them. */
  function Join(parts: seq<string>, sep: string): string
    requires parts != []
  {
    if |parts| == 1 then parts[0] else parts[0] + sep + Join(parts[1..], sep)
  }

  /** Nothing is lost, and no part contains the separator. */
  lemma {:induction false} SplitJoins(s: string, sep: string)
    requires sep != ""
    ensures Join(Split(s, sep), sep) == s
    ensures forall part :: part in Split(s, sep) ==> !Occurs(part, sep)
    decreases |s|
  {
    var i := IndexFrom(s, sep, 0);
    if i < |s| {
      var rest := Split(s[i + |sep|..], sep);
      SplitJoins(s[i + |sep|..], sep);
      assert ([s[..i]] + rest)[1..] == rest;
      assert s == s[..i] + s[i..i + |sep|] + s[i + |sep|..];
      NoneBefore(s, sep, i);
    } else {
      assert Split(s, sep) == [s];
    }
  }

  lemma NoneBefore(s: string, sep: string, i: nat)
    requires i <= |s| && forall j :: 0 <= j < i ==> !MatchAt(s, sep, j)
    requires sep != ""
    ensures !Occurs(s[..i], sep)
  {
    forall j | MatchAt(s[..i], sep, j) ensures MatchAt(s, sep, j) && j < i {
      assert s[..i][j..j + |sep|] == s[j..j + |sep|];
    }
  }

  const BLANK_LINE := "\n\n"

  lemma {:induction false} LastPartClean(s: string)
    ensures !Occurs(Last(Split(s, BLANK_LINE)), BLANK_LINE)
    decreases |s|
  {
    var i := IndexFrom(s, BLANK_LINE, 0);
    if i < |s| {
      LastPartClean(s[i + 2..]);
      LastCons(s[..i], Split(s[i + 2..], BLANK_LINE));
    }
  }

  lemma LastCons(first: string, parts: seq<string>)
    requires parts != []
    ensures Last([first] + parts) == Last(parts)
    ensures Init([first] + parts) == [first] + Init(parts)
  {
  }

  ghost predicate FirstMatch(s: string, sep: string, i: nat) {
    MatchAt(s, sep, i) && forall j :: 0 <= j < i ==> !MatchAt(s, sep, j)
  }

  lemma FirstMatchFound(s: string, sep: string, i: nat)
    requires sep != "" && FirstMatch(s, sep, i)
    ensures IndexFrom(s, sep, 0) == i
  {
    var k := IndexFrom(s, sep, 0);
    assert k < |s| ==> MatchAt(s, sep, k);
  }

  /** A first match decides the first part. */
  lemma SplitAtFirst(s: string, sep: string, i: nat)
    requires sep != "" && FirstMatch(s, sep, i)
    ensures Split(s, sep) == [s[..i]] + Split(s[i + |sep|..], sep)
  {
    FirstMatchFound(s, sep, i);
  }

  lemma MatchInPrefix(x: string, y: string, sep: string, j: nat)
    requires j + |sep| <= |x|
    ensures MatchAt(x + y, sep, j) == MatchAt(x, sep, j)
  {
    assert (x + y)[j..j + |sep|] == x[j..j + |sep|];
  }

  lemma FirstMatchInPrefix(x: string, y: string, sep: string, i: nat)
    requires sep != "" && i < |x| && i == IndexFrom(x, sep, 0)
    ensures FirstMatch(x + y, sep, i) && i + |sep| <= |x|
  {
    forall j: nat | j <= i ensures MatchAt(x + y, sep, j) == MatchAt(x, sep, j) {
      MatchInPrefix(x, y, sep, j);
    }
  }

  lemma FirstMatchStays(x: string, y: string, i: nat)
    requires i < |x| && i == IndexFrom(x, BLANK_LINE, 0)
    ensures Split(x + y, BLANK_LINE) == [x[..i]] + Split(x[i + 2..] + y, BLANK_LINE)
  {
    FirstMatchInPrefix(x, y, BLANK_LINE, i);
    SplitAtFirst(x + y, BLANK_LINE, i);
    assert (x + y)[i + 2..] == x[i + 2..] + y && (x + y)[..i] == x[..i];
  }

  /** Splitting may be resumed: the parts found so far stay, the last one is split again
    * together with what follows. */
  lemma {:induction false} SplitResumes(x: string, y: string)
    ensures Split(x + y, BLANK_LINE) == Init(Split(x, BLANK_LINE)) + Split(Last(Split(x, BLANK_LINE)) + y, BLANK_LINE)
    decreases |x|
  {
    var i := IndexFrom(x, BLANK_LINE, 0);
    if i < |x| {
      FirstMatchStays(x, y, i);
      SplitResumes(x[i + 2..], y);
      ResumeCons(x[..i], Split(x[i + 2..], BLANK_LINE), y);
    } else {
      ResumeCons(x, [], y);
    }
  }

  lemma ResumeCons(first: string, parts: seq<string>, y: string)
    ensures parts == [] ==> Init([first]) + Split(first + y, BLANK_LINE) == Split(first + y, BLANK_LINE)
    ensures parts != [] ==>
      var more := Split(Last(parts) + y, BLANK_LINE);
      Init([first] + parts) + Split(Last([first] + parts) + y, BLANK_LINE) == [first] + (Init(parts) + more)
  {
    if parts != [] {
      LastCons(first, parts);
    }
  }

  // ---------------------------------------------------------------------------
  // apiStream

  const DATA := "data: "

  /** The event of a line, if it is a data line whose rest parses. */
  function LineEvents<E>(parse: string -> Option<E>, line: string): seq<E> {
    if MatchAt(line, DATA, 0) && parse(line[6..]).Some? then [parse(line[6..]).value] else []
  }

  function LinesEvents<E>(parse: string -> Option<E>, lines: seq<string>): seq<E> {
    if lines == [] then [] else LineEvents(parse, lines[0]) + LinesEvents(parse, lines[1..])
  }

  function BlockEvents<E>(parse: string -> Option<E>, block: string): seq<E> {
    LinesEvents(parse, Split(block, "\n"))
  }

  function BlocksEvents<E>(parse: string -> Option<E>, blocks: seq<string>): seq<E> {
    if blocks == [] then [] else BlockEvents(parse, blocks[0]) + BlocksEvents(parse, blocks[1..])
  }

  /** The events of a whole text: split it once and drop the unfinished tail. */
  function TextEvents<E>(parse: string -> Option<E>, text: string): seq<E> {
    BlocksEvents(parse, Init(Split(text, BLANK_LINE)))
  }

  lemma {:induction false} BlocksEventsConcat<E>(parse: string -> Option<E>, a: seq<string>, b: seq<string>)
    ensures BlocksEvents(parse, a + b) == BlocksEvents(parse, a) + BlocksEvents(parse, b)
  {
    if a == [] {
      assert a + b == b;
    } else {
      assert (a + b)[1..] == a[1..] + b;
      BlocksEventsConcat(parse, a[1..], b);
    }
  }

  lemma {:induction false} LinesEventsConcat<E>(parse: string -> Option<E>, a: seq<string>, b: seq<string>)
    ensures LinesEvents(parse, a + b) == LinesEvents(parse, a) + LinesEvents(parse, b)
  {
    if a == [] {
      assert a + b == b;
    } else {
      assert (a + b)[1..] == a[1..] + b;
      LinesEventsConcat(parse, a[1..], b);
    }
  }

  /** Delivers the events of one block, line by line. */
  method DeliverBlock<E>(parse: string -> Option<E>, block: string) returns (events: seq<E>)
    ensures events == BlockEvents(parse, block)
  {
    events := [];
    var lines := Split(block, "\n");
    for i := 0 to |lines|
      invariant events == LinesEvents(parse, lines[..i])
    {
      LinesEventsConcat(parse, lines[..i], [lines[i]]);
      assert lines[..i + 1] == lines[..i] + [lines[i]];
      if MatchAt(lines[i], DATA, 0) {
        var event := parse(lines[i][6..]);
        if event.Some? {
          events := events + [event.value];
        }
      }
    }
    assert lines[..|lines|] == lines;
  }

  function Carry(text: string): string { Last(Split(text, BLANK_LINE)) }

  /** What follows for a text of which x is read, with only the last part of x carried over. */
  lemma EventsResume<E>(parse: string -> Option<E>, x: string, y: string)
    ensures TextEvents(parse, x + y) == TextEvents(parse, x) + TextEvents(parse, Carry(x) + y)
    ensures Carry(x + y) == Carry(Carry(x) + y)
  {
    var done, tail := Init(Split(x, BLANK_LINE)), Split(Carry(x) + y, BLANK_LINE);
    SplitResumes(x, y);
    assert Init(done + tail) == done + Init(tail);
    BlocksEventsConcat(parse, done, Init(tail));
  }

  /** The reader: a buffer carried over the chunks, events delivered as blocks complete. The
    * result depends on the concatenation of the chunks only. */
  method ApiStream<E>(parse: string -> Option<E>, chunks: seq<string>) returns (events: seq<E>)
    ensures events == TextEvents(parse, Flatten(chunks))
  {
    events := [];
    var buffer := "";
    ghost var text := "";
    assert chunks[..0] == [];
    for i := 0 to |chunks|
      invariant text == Flatten(chunks[..i])
      invariant buffer == Carry(text) && !Occurs(buffer, BLANK_LINE)
      invariant events == TextEvents(parse, text)
    {
      EventsResume(parse, text, chunks[i]);
      LastPartClean(text + chunks[i]);
      var delivered;
      delivered, buffer := DeliverBlocks(parse, buffer + chunks[i]);
      events := events + delivered;
      text := text + chunks[i];
      FlattenSnoc(chunks[..i], chunks[i]);
      assert chunks[..i + 1] == chunks[..i] + [chunks[i]];
    }
    assert chunks[..|chunks|] == chunks;
  }

  lemma BlocksEventsStep<E>(parse: string -> Option<E>, parts: seq<string>, i: nat)
    requires i < |parts|
    ensures BlocksEvents(parse, parts[..i + 1]) == BlocksEvents(parse, parts[..i]) + BlockEvents(parse, parts[i])
  {
    assert parts[..i + 1] == parts[..i] + [parts[i]];
    BlocksEventsConcat(parse, parts[..i], [parts[i]]);
    assert BlocksEvents(parse, [parts[i]]) == BlockEvents(parse, parts[i]) + [];
  }

  method DeliverBlocks<E>(parse: string -> Option<E>, text: string) returns (events: seq<E>, buffer: string)
    ensures events == TextEvents(parse, text)
    ensures buffer == Carry(text)
  {
    var parts := Split(text, BLANK_LINE);
    buffer, parts := Last(parts), Init(parts);
    events := [];
    for i := 0 to |parts|
      invariant events == BlocksEvents(parse, parts[..i])
    {
      BlocksEventsStep(parse, parts, i);
      var delivered := DeliverBlock(parse, parts[i]);
      events := events + delivered;
    }
    assert parts[..|parts|] == parts;
  }

  // ---------------------------------------------------------------------------
  // chatStream and the round trip

  function WriteEvent<E>(encode: E -> string, event: E): string { DATA + encode(event) + BLANK_LINE }

  function WriteEvents<E>(encode: E -> string, events: seq<E>): string {
    if events == [] then "" else WriteEvent(encode, events[0]) + WriteEvents(encode, events[1..])
  }

  /** What goes over the wire. */
  lemma {:induction false} WireText<E>(encode: E -> string, events: seq<E>)
    ensures WriteEvents(encode, events)
         == Flatten(seq(|events|, i requires 0 <= i < |events| => "data: " + encode(events[i]) + "\n\n"))
  {
    var texts := seq(|events|, i requires 0 <= i < |events| => "data: " + encode(events[i]) + "\n\n");
    if events != [] {
      WireText(encode, events[1..]);
      assert texts[1..]
          == seq(|events| - 1, i requires 0 <= i < |events| - 1 => "data: " + encode(events[1..][i]) + "\n\n");
    }
  }

  lemma {:induction false} WriteEventsSnoc<E>(encode: E -> string, events: seq<E>, last: E)
    ensures WriteEvents(encode, events + [last]) == WriteEvents(encode, events) + WriteEvent(encode, last)
  {
    if events == [] {
      assert events + [last] == [last];
      assert WriteEvents(encode, [last]) == WriteEvent(encode, last) + "";
    } else {
      assert (events + [last])[1..] == events[1..] + [last];
      WriteEventsSnoc(encode, events[1..], last);
    }
  }

  /** The HTTP response the panel streams into. */
  class Response {
    var text: string
    var ended: bool

    constructor ()
      ensures text == "" && !ended
    {
      text, ended := "", false;
    }

    method Write(chunk: string)
      requires !ended
      modifies this
      ensures text == old(text) + chunk && !ended
    {
      text := text + chunk;
    }

    /** Relays the model's events as they arrive; if it fails after them, one last event tells. */
    method ChatStream<E>(encode: E -> string, arriving: seq<E>, failure: Option<E>)
      requires !ended && text == ""
      modifies this
      ensures ended
      ensures text == WriteEvents(encode, arriving + if failure.Some? then [failure.value] else [])
    {
      for i := 0 to |arriving|
        invariant !ended && text == WriteEvents(encode, arriving[..i])
      {
        WriteEventsSnoc(encode, arriving[..i], arriving[i]);
        assert arriving[..i + 1] == arriving[..i] + [arriving[i]];
        Write(WriteEvent(encode, arriving[i]));
      }
      assert arriving[..|arriving|] == arriving;
      if failure.Some? {
        WriteEventsSnoc(encode, arriving, failure.value);
        Write(WriteEvent(encode, failure.value));
      } else {
        assert arriving + [] == arriving;
      }
      ended := true;
    }
  }

  /** The encoding is one line and decodes back. */
  ghost predicate Faithful<E>(encode: E -> string, parse: string -> Option<E>, event: E) {
    OneLine(encode(event)) && parse(encode(event)) == Some(event)
  }

  lemma NoMatchInLine(s: string, n: nat, sep: string)
    requires n <= |s| && OneLine(s[..n]) && sep != "" && sep[0] == '\n'
    ensures forall j :: 0 <= j < n ==> !MatchAt(s, sep, j)
  {
    forall j | 0 <= j < n ensures !MatchAt(s, sep, j) {
      assert s[..n][j] == s[j];
      MatchStarts(s, sep, j);
    }
  }

  lemma MatchStarts(s: string, sep: string, j: nat)
    requires sep != ""
    ensures MatchAt(s, sep, j) ==> s[j] == sep[0]
  {
    assert MatchAt(s, sep, j) ==> s[j] == s[j..j + |sep|][0];
  }

  lemma NoBreakNoSplit(s: string)
    requires OneLine(s)
    ensures Split(s, "\n") == [s]
  {
    assert s[..|s|] == s;
    NoMatchInLine(s, |s|, "\n");
    var k := IndexFrom(s, "\n", 0);
    assert k < |s| ==> MatchAt(s, "\n", k);
  }

  lemma WrittenBlock(line: string, rest: string)
    requires OneLine(line)
    ensures Split(line + BLANK_LINE + rest, BLANK_LINE) == [line] + Split(rest, BLANK_LINE)
  {
    var s := line + BLANK_LINE + rest;
    assert s[|line|..|line| + 2] == BLANK_LINE;
    assert s[|line| + 2..] == rest && s[..|line|] == line;
    NoMatchInLine(s, |line|, BLANK_LINE);
    SplitAtFirst(s, BLANK_LINE, |line|);
  }

  lemma DataLine<E>(encode: E -> string, parse: string -> Option<E>, event: E)
    requires Faithful(encode, parse, event)
    ensures var line := DATA + encode(event);
      OneLine(line) && BlockEvents(parse, line) == [event]
  {
    var line := DATA + encode(event);
    forall i | 0 <= i < |line| ensures line[i] != '\n' {
      if i >= 6 { assert line[i] == encode(event)[i - 6]; }
    }
    NoBreakNoSplit(line);
    assert line[0..6] == DATA && line[6..] == encode(event);
    assert LinesEvents(parse, [line]) == LineEvents(parse, line) + LinesEvents(parse, []);
  }

  // Blocks of several lines

  /** Lines that make up one block: none of them empty. */
  ghost predicate Plain(lines: seq<string>) { lines != [] && forall l :: l in lines ==> l != "" && OneLine(l) }

  ghost predicate NoBlankLine(t: string) {
    t != "" && t[0] != '\n' && t[|t| - 1] != '\n' && forall i :: 0 <= i < |t| - 1 ==> t[i] != '\n' || t[i + 1] != '\n'
  }

  lemma {:induction false} JoinedPlain(lines: seq<string>)
    requires Plain(lines)
    ensures NoBlankLine(Join(lines, "\n"))
  {
    assert lines[0] in lines;
    if |lines| > 1 {
      assert forall l :: l in lines[1..] ==> l in lines;
      JoinedPlain(lines[1..]);
      AppendPlain(lines[0], Join(lines[1..], "\n"));
    }
  }

  lemma AppendPlain(line: string, rest: string)
    requires line != "" && OneLine(line) && NoBlankLine(rest)
    ensures NoBlankLine(line + "\n" + rest)
  {
    var t := line + "\n" + rest;
    forall i | 0 <= i < |t| - 1 ensures t[i] != '\n' || t[i + 1] != '\n' {
      if i > |line| {
        assert t[i] == rest[i - |line| - 1] && t[i + 1] == rest[i - |line|];
      } else if i == |line| {
        assert t[i + 1] == rest[0];
      } else {
        assert t[i] == line[i];
      }
    }
    assert t[|t| - 1] == rest[|rest| - 1];
  }

  lemma {:induction false} SplitOfJoined(lines: seq<string>)
    requires lines != [] && forall l :: l in lines ==> OneLine(l)
    ensures Split(Join(lines, "\n"), "\n") == lines
  {
    assert lines[0] in lines && lines == [lines[0]] + lines[1..];
    if |lines| == 1 {
      NoBreakNoSplit(lines[0]);
    } else {
      var s, rest := Join(lines, "\n"), Join(lines[1..], "\n");
      assert forall l :: l in lines[1..] ==> l in lines;
      SplitOfJoined(lines[1..]);
      assert s == lines[0] + "\n" + rest && s[..|lines[0]|] == lines[0] && s[|lines[0]| + 1..] == rest;
      assert s[|lines[0]|..|lines[0]| + 1] == "\n";
      NoMatchInLine(s, |lines[0]|, "\n");
      SplitAtFirst(s, "\n", |lines[0]|);
    }
  }

  lemma BlankAt(s: string, j: nat)
    ensures MatchAt(s, BLANK_LINE, j) ==> s[j] == '\n' && s[j + 1] == '\n'
  {
    if MatchAt(s, BLANK_LINE, j) {
      CharAt(s, BLANK_LINE, j, j);
      CharAt(s, BLANK_LINE, j, j + 1);
    }
  }

  lemma BlockEnd(t: string)
    requires NoBlankLine(t)
    ensures Split(t + BLANK_LINE, BLANK_LINE) == [t, ""]
  {
    var s := t + BLANK_LINE;
    forall j | 0 <= j < |t| ensures !MatchAt(s, BLANK_LINE, j) {
      BlankAt(s, j);
      assert s[j] == t[j] && (j + 1 < |t| ==> s[j + 1] == t[j + 1]);
    }
    assert s[|t|..|t| + 2] == BLANK_LINE && s[..|t|] == t && s[|t| + 2..] == "";
    SplitAtFirst(s, BLANK_LINE, |t|);
    assert Split("", BLANK_LINE) == [""];
  }

  /** The events that one line gives. */
  function OfLine<E>(parse: string -> Option<E>, line: string): seq<E> {
    if |line| >= 6 && line[..6] == "data: " && parse(line[6..]).Some? then [parse(line[6..]).value] else []
  }

  lemma {:induction false} LinesGive<E>(parse: string -> Option<E>, lines: seq<string>)
    ensures LinesEvents(parse, lines)
         == Flatten(seq(|lines|, i requires 0 <= i < |lines| => OfLine(parse, lines[i])))
  {
    var parts := seq(|lines|, i requires 0 <= i < |lines| => OfLine(parse, lines[i]));
    if lines != [] {
      LinesGive(parse, lines[1..]);
      assert parts[1..]
          == seq(|lines| - 1, i requires 0 <= i < |lines| - 1 => OfLine(parse, lines[1..][i]));
      assert |lines[0]| >= 6 ==> lines[0][0..6] == lines[0][..6];
    }
  }

  /** One block: each of its lines that starts as a data line and parses gives its event, in
    * order; the others give none. */
  lemma BlockGives<E>(parse: string -> Option<E>, lines: seq<string>)
    requires Plain(lines)
    ensures TextEvents(parse, Join(lines, "\n") + "\n\n")
         == Flatten(seq(|lines|, i requires 0 <= i < |lines| => OfLine(parse, lines[i])))
  {
    var block := Join(lines, "\n");
    JoinedPlain(lines);
    BlockEnd(block);
    SplitOfJoined(lines);
    LinesGive(parse, lines);
    assert Init([block, ""]) == [block];
    assert BlocksEvents(parse, [block]) == BlockEvents(parse, block) + [];
  }

  /** The reader of the whole written text delivers exactly the written events. */
  lemma {:induction false} ReadsWhatWasWritten<E>(encode: E -> string, parse: string -> Option<E>, events: seq<E>)
    requires forall e :: e in events ==> Faithful(encode, parse, e)
    ensures TextEvents(parse, WriteEvents(encode, events)) == events
    ensures Carry(WriteEvents(encode, events)) == ""
  {
    if events == [] {
      WrittenNothing(parse);
    } else {
      var rest := WriteEvents(encode, events[1..]);
      DataLine(encode, parse, events[0]);
      ReadsWhatWasWritten(encode, parse, events[1..]);
      FirstBlockRead(parse, DATA + encode(events[0]), rest);
      assert events == [events[0]] + events[1..];
    }
  }

  lemma WrittenNothing<E>(parse: string -> Option<E>)
    ensures TextEvents(parse, "") == [] && Carry("") == ""
  {
    assert Init([""]) == [];
  }

  lemma FirstBlockRead<E>(parse: string -> Option<E>, line: string, rest: string)
    requires OneLine(line)
    ensures TextEvents(parse, line + BLANK_LINE + rest) == BlockEvents(parse, line) + TextEvents(parse, rest)
    ensures Carry(line + BLANK_LINE + rest) == Carry(rest)
  {
    var parts := Split(rest, BLANK_LINE);
    WrittenBlock(line, rest);
    LastCons(line, parts);
    assert ([line] + Init(parts))[1..] == Init(parts);
  }

  /** The text in chunks of the given sizes, the rest in a last one. */
  function Cut(text: string, sizes: seq<nat>): seq<string>
    decreases sizes
  {
    if sizes == [] then [text]
    else
      var n := if sizes[0] < |text| then sizes[0] else |text|;
      [text[..n]] + Cut(text[n..], sizes[1..])
  }

  lemma {:induction false} CutWhole(text: string, sizes: seq<nat>)
    ensures Flatten(Cut(text, sizes)) == text
    decreases sizes
  {
    if sizes != [] {
      var n := if sizes[0] < |text| then sizes[0] else |text|;
      CutWhole(text[n..], sizes[1..]);
      assert text == text[..n] + text[n..];
    } else {
      assert text + [] == text;
    }
  }

  /** One answer from the model to the browser: whatever chunks the text arrives in, the browser
    * is given the events as they arrived, and after them the failure if there was one. */
  method Exchange<E>(encode: E -> string, parse: string -> Option<E>, arriving: seq<E>, failure: Option<E>,
                     sizes: seq<nat>) returns (events: seq<E>)
    requires forall e :: e in arriving || failure == Some(e) ==> Faithful(encode, parse, e)
    ensures events == arriving + if failure.Some? then [failure.value] else []
  {
    ghost var told := arriving + if failure.Some? then [failure.value] else [];
    var response := new Response();
    response.ChatStream(encode, arriving, failure);
    CutWhole(response.text, sizes);
    ReadsWhatWasWritten(encode, parse, told);
    events := ApiStream(parse, Cut(response.text, sizes));
  }
}
