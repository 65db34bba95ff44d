/**
 The browser's two readers of newline-delimited JSON. The network may cut the response anywhere; each
 reader keeps the unfinished line in a buffer. `parse` is JSON.parse, None where it throws.
 */
module Ndjson {
  import opened Wrappers
  import opened Text

  // ---------- the whole stream ----------

  function Concat(chunks: seq<string>): string {
    if chunks == [] then "" else chunks[0] + Concat(chunks[1..])
  }

  /** The lines of a text that are finished by a newline. */
  function Complete(s: string): seq<string> {
    Split(s, '\n')[..|Split(s, '\n')| - 1]
  }

  /** What follows the last newline. */
  function Unfinished(s: string): string {
    Split(s, '\n')[|Split(s, '\n')| - 1]
  }

  /** What a reader has done: the events it handled, and the line it threw on, if any. */
  datatype Outcome<E> = Outcome(events: seq<E>, bad: Option<string>)

  /** Handle the lines in order; skip some; stop at the first that does not parse. */
  function Handled<E>(lines: seq<string>, skip: string -> bool, parse: string -> Option<E>): Outcome<E> {
    if lines == [] then Outcome([], None)
    else if skip(lines[0]) then Handled(lines[1..], skip, parse)
    else if parse(lines[0]).None? then Outcome([], Some(lines[0]))
    else Then(parse(lines[0]).value, Handled(lines[1..], skip, parse))
  }

  function Then<E>(e: E, rest: Outcome<E>): Outcome<E> {
    rest.(events := [e] + rest.events)
  }

  /** The first reader skips empty lines only. */
  predicate IsEmpty(line: string) {
    line == ""
  }

  /** JavaScript's white space. */
  predicate JsSpace(c: char) {
    || '\t' <= c <= '\r' || c == ' ' || c == '\U{a0}' || c == '\U{1680}' || '\U{2000}' <= c <= '\U{200a}'
    || c == '\U{2028}' || c == '\U{2029}' || c == '\U{202f}' || c == '\U{205f}' || c == '\U{3000}' || c == '\U{feff}'
  }

  /** The second reader skips what `trim` leaves empty. */
  predicate IsBlank(line: string) {
    forall i :: 0 <= i < |line| ==> JsSpace(line[i])
  }

  // ---------- splitting in pieces ----------

  lemma NothingFinished(s: string)
    requires '\n' !in s
    ensures Complete(s) == [] && Unfinished(s) == s
  {
    IndexOfIs(s, '\n', |s|);
  }

  lemma SplitFirst(s: string, i: nat)
    requires i == IndexOf(s, '\n') < |s|
    ensures Split(s, '\n') == [s[..i]] + Split(s[i + 1..], '\n')
  {
  }

  lemma SplitStep(s: string, i: nat)
    requires i == IndexOf(s, '\n') < |s|
    ensures Split(s, '\n') == [s[..i]] + Split(s[i + 1..], '\n')
    ensures Complete(s) == [s[..i]] + Complete(s[i + 1..]) && Unfinished(s) == Unfinished(s[i + 1..])
  {
    SplitFirst(s, i);
    AllButLast(s[..i], Split(s[i + 1..], '\n'));
  }

  lemma AllButLast<T>(first: T, rest: seq<T>)
    requires rest != []
    ensures ([first] + rest)[..|[first] + rest| - 1] == [first] + rest[..|rest| - 1]
    ensures ([first] + rest)[|[first] + rest| - 1] == rest[|rest| - 1]
  {
  }

  /** Splitting a longer text: the finished lines stay, the unfinished one goes on. */
  lemma {:induction false} SplitConcat(a: string, b: string)
    ensures Split(a + b, '\n') == Complete(a) + Split(Unfinished(a) + b, '\n')
    decreases |a|
  {
    var i := IndexOf(a, '\n');
    if i == |a| {
      NothingFinished(a);
      assert [] + Split(a + b, '\n') == Split(a + b, '\n');
    } else {
      var rest := a[i + 1..];
      assert (a + b)[..i] == a[..i] && (a + b)[i + 1..] == rest + b;
      IndexOfIs(a + b, '\n', i);
      SplitStep(a + b, i);
      SplitStep(a, i);
      SplitConcat(rest, b);
      Assoc([a[..i]], Complete(rest), Split(Unfinished(rest) + b, '\n'));
    }
  }

  lemma CompleteConcat(a: string, b: string)
    ensures Complete(a + b) == Complete(a) + Complete(Unfinished(a) + b)
    ensures Unfinished(a + b) == Unfinished(Unfinished(a) + b)
  {
    SplitConcat(a, b);
    var more := Split(Unfinished(a) + b, '\n');
    var all := Complete(a) + more;
    assert all[..|all| - 1] == Complete(a) + more[..|more| - 1];
    assert all[|all| - 1] == more[|more| - 1];
  }

  lemma CompleteLine(line: string, rest: string)
    requires '\n' !in line
    ensures Complete(line + ['\n'] + rest) == [line] + Complete(rest)
  {
    var s := line + ['\n'] + rest;
    PartitionAt(line, '\n', rest);
    assert s[..|line|] == line && s[|line| + 1..] == rest;
    var pieces := Split(rest, '\n');
    assert ([line] + pieces)[..|pieces|] == [line] + pieces[..|pieces| - 1];
  }

  lemma {:induction false} HandledConcat<E>(
      a: seq<string>, b: seq<string>, skip: string -> bool, parse: string -> Option<E>)
    ensures Handled(a + b, skip, parse) == Joined(Handled(a, skip, parse), Handled(b, skip, parse))
  {
    if a == [] {
      assert a + b == b;
      assert [] + Handled(b, skip, parse).events == Handled(b, skip, parse).events;
    } else {
      assert (a + b)[1..] == a[1..] + b && (a + b)[0] == a[0];
      HandledConcat(a[1..], b, skip, parse);
      if !skip(a[0]) && parse(a[0]).Some? {
        ThenJoined(parse(a[0]).value, Handled(a[1..], skip, parse), Handled(b, skip, parse));
      }
    }
  }

  /** What comes after counts only while nothing was thrown. */
  function Joined<E>(a: Outcome<E>, b: Outcome<E>): Outcome<E> {
    if a.bad.Some? then a else Outcome(a.events + b.events, b.bad)
  }

  lemma ThenJoined<E>(e: E, a: Outcome<E>, b: Outcome<E>)
    ensures Joined(Then(e, a), b) == Then(e, Joined(a, b))
  {
    assert [e] + (a.events + b.events) == [e] + a.events + b.events;
  }

  lemma JoinedNothing<E>(a: Outcome<E>)
    ensures Joined(a, Outcome([], None)) == a && Joined(Outcome([], None), a) == a
  {
    assert a.events + [] == a.events && [] + a.events == a.events;
  }

  lemma JoinedTwice<E>(a: Outcome<E>, b: Outcome<E>, c: Outcome<E>)
    ensures Joined(Joined(a, b), c) == Joined(a, Joined(b, c))
  {
    assert a.events + b.events + c.events == a.events + (b.events + c.events);
  }

  // ---------- the first reader: the Ollama page ----------

  /** One chunk's finished lines. */
  method HandleLines<E>(lines: seq<string>, parse: string -> Option<E>, before: Outcome<E>) returns (after: Outcome<E>)
    requires before.bad.None?
    ensures after == Joined(before, Handled(lines, IsEmpty, parse))
  {
    after := before;
    assert lines[0..] == lines;
    for k := 0 to |lines|
      invariant after.bad.None?
      invariant Joined(after, Handled(lines[k..], IsEmpty, parse)) == Joined(before, Handled(lines, IsEmpty, parse))
    {
      assert lines[k..][0] == lines[k] && lines[k..][1..] == lines[k + 1..];
      if lines[k] != "" {
        var event := parse(lines[k]);
        if event.None? {
          assert after.events + [] == after.events;
          return after.(bad := Some(lines[k]));
        }
        AppendOne(after, event.value, Handled(lines[k + 1..], IsEmpty, parse));
        after := after.(events := after.events + [event.value]);
      }
    }
    JoinedNothing(after);
  }

  lemma AppendOne<E>(a: Outcome<E>, e: E, rest: Outcome<E>)
    requires a.bad.None?
    ensures Joined(a, Then(e, rest)) == Joined(a.(events := a.events + [e]), rest)
  {
    assert a.events + ([e] + rest.events) == a.events + [e] + rest.events;
  }

  /** One chunk: split the buffer at its newlines, keep the last piece. */
  method HandleSplit<E>(arrived: string, parse: string -> Option<E>, before: Outcome<E>)
    returns (after: Outcome<E>, buffer: string)
    requires before.bad.None?
    ensures after == Joined(before, Handled(Complete(arrived), IsEmpty, parse))
    ensures buffer == Unfinished(arrived)
  {
    var lines := Split(arrived, '\n');
    buffer := lines[|lines| - 1];
    after := HandleLines(lines[..|lines| - 1], parse, before);
  }

  /** `streamOllama`'s loop. */
  method ReadBySplit<E>(chunks: seq<string>, parse: string -> Option<E>) returns (read: Outcome<E>)
    ensures read == Handled(Complete(Concat(chunks)), IsEmpty, parse)
  {
    var buffer := "";
    read := Outcome([], None);
    assert chunks[0..] == chunks && "" + Concat(chunks) == Concat(chunks);
    JoinedNothing(Handled(Complete(Concat(chunks)), IsEmpty, parse));
    for k := 0 to |chunks|
      invariant read.bad.None?
      invariant Joined(read, Handled(Complete(buffer + Concat(chunks[k..])), IsEmpty, parse))
             == Handled(Complete(Concat(chunks)), IsEmpty, parse)
      invariant '\n' !in buffer
    {
      assert chunks[k..][0] == chunks[k] && chunks[k..][1..] == chunks[k + 1..];
      ghost var rest := Concat(chunks[k + 1..]);
      Assoc(buffer, chunks[k], rest);
      buffer := buffer + chunks[k];
      StepRead(read, buffer, rest, IsEmpty, parse);
      UnfinishedHasNoBreak(buffer);
      read, buffer := HandleSplit(buffer, parse, read);
      if read.bad.Some? {
        return;
      }
    }
    assert chunks[|chunks|..] == [] && buffer + "" == buffer;
    NothingFinished(buffer);
    JoinedNothing(read);
  }

  lemma {:induction false} UnfinishedHasNoBreak(s: string)
    ensures '\n' !in Unfinished(s)
    decreases |s|
  {
    var i := IndexOf(s, '\n');
    if i < |s| {
      UnfinishedHasNoBreak(s[i + 1..]);
    } else {
      assert s[..i] == s;
    }
  }

  /** A buffer's finished lines may be handled at once, before the rest arrives. */
  lemma StepRead<E>(read: Outcome<E>, buffer: string, rest: string, skip: string -> bool, parse: string -> Option<E>)
    ensures Joined(read, Handled(Complete(buffer + rest), skip, parse))
         == Joined(Joined(read, Handled(Complete(buffer), skip, parse)),
                   Handled(Complete(Unfinished(buffer) + rest), skip, parse))
  {
    CompleteConcat(buffer, rest);
    HandledConcat(Complete(buffer), Complete(Unfinished(buffer) + rest), skip, parse);
    JoinedTwice(read, Handled(Complete(buffer), skip, parse),
      Handled(Complete(Unfinished(buffer) + rest), skip, parse));
  }

  // ---------- the second reader: the analyst page ----------

  /** One chunk: cut the buffer at each newline in turn. */
  method HandleBuffer<E>(arrived: string, parse: string -> Option<E>, before: Outcome<E>)
    returns (after: Outcome<E>, buffer: string)
    requires before.bad.None?
    ensures after == Joined(before, Handled(Complete(arrived), IsBlank, parse))
    ensures after.bad.None? ==> buffer == Unfinished(arrived)
  {
    after, buffer := before, arrived;
    var newline := IndexOf(buffer, '\n');
    while newline < |buffer|
      invariant newline == IndexOf(buffer, '\n')
      invariant after.bad.None?
      invariant Joined(after, Handled(Complete(buffer), IsBlank, parse))
           == Joined(before, Handled(Complete(arrived), IsBlank, parse))
      invariant Unfinished(buffer) == Unfinished(arrived)
      decreases |buffer|
    {
      var line := buffer[..newline];
      var rest := buffer[newline + 1..];
      assert buffer == line + ['\n'] + rest;
      CompleteLine(line, rest);
      assert ([line] + Complete(rest))[1..] == Complete(rest);
      if !IsBlank(line) {
        var event := parse(line);
        if event.None? {
          assert after.events + [] == after.events;
          return after.(bad := Some(line)), rest;
        }
        AppendOne(after, event.value, Handled(Complete(rest), IsBlank, parse));
        after := after.(events := after.events + [event.value]);
      }
      assert Unfinished(buffer) == Unfinished(rest);
      buffer := rest;
      newline := IndexOf(buffer, '\n');
    }
    NothingFinished(buffer);
    JoinedNothing(after);
  }

  /** `applyAnalystServer`'s loop. */
  method ReadBySlicing<E>(chunks: seq<string>, parse: string -> Option<E>) returns (read: Outcome<E>)
    ensures read == Handled(Complete(Concat(chunks)), IsBlank, parse)
  {
    var buffer := "";
    read := Outcome([], None);
    assert chunks[0..] == chunks && "" + Concat(chunks) == Concat(chunks);
    JoinedNothing(Handled(Complete(Concat(chunks)), IsBlank, parse));
    for k := 0 to |chunks|
      invariant read.bad.None?
      invariant Joined(read, Handled(Complete(buffer + Concat(chunks[k..])), IsBlank, parse))
             == Handled(Complete(Concat(chunks)), IsBlank, parse)
      invariant '\n' !in buffer
    {
      assert chunks[k..][0] == chunks[k] && chunks[k..][1..] == chunks[k + 1..];
      ghost var rest := Concat(chunks[k + 1..]);
      Assoc(buffer, chunks[k], rest);
      buffer := buffer + chunks[k];
      StepRead(read, buffer, rest, IsBlank, parse);
      UnfinishedHasNoBreak(buffer);
      read, buffer := HandleBuffer(buffer, parse, read);
      if read.bad.Some? {
        return;
      }
    }
    assert chunks[|chunks|..] == [] && buffer + "" == buffer;
    NothingFinished(buffer);
    JoinedNothing(read);
  }

  // ---------- when the readers agree ----------

  /** White space and nothing else, but not empty: JSON.parse throws on it. */
  predicate Stray(line: string) {
    line != "" && IsBlank(line)
  }

  ghost predicate RejectsStray<E>(parse: string -> Option<E>) {
    forall line :: Stray(line) ==> parse(line).None?
  }

  /** A stray line comes before any line that does not parse. */
  ghost predicate StrayFirst<E>(lines: seq<string>, parse: string -> Option<E>) {
    exists i :: 0 <= i < |lines| && Stray(lines[i])
      && forall j :: 0 <= j < i ==> lines[j] == "" || parse(lines[j]).Some?
  }

  lemma StrayFirstStep<E>(lines: seq<string>, parse: string -> Option<E>)
    requires lines != [] && !Stray(lines[0])
    ensures StrayFirst(lines, parse) <==>
      (lines[0] == "" || parse(lines[0]).Some?) && StrayFirst(lines[1..], parse)
  {
    var rest := lines[1..];
    if StrayFirst(lines, parse) {
      var i :| 0 <= i < |lines| && Stray(lines[i])
        && forall j :: 0 <= j < i ==> lines[j] == "" || parse(lines[j]).Some?;
      assert rest[i - 1] == lines[i];
      assert forall j :: 0 <= j < i - 1 ==> rest[j] == lines[j + 1];
    }
    if (lines[0] == "" || parse(lines[0]).Some?) && StrayFirst(rest, parse) {
      var i :| 0 <= i < |rest| && Stray(rest[i]) && forall j :: 0 <= j < i ==> rest[j] == "" || parse(rest[j]).Some?;
      assert lines[i + 1] == rest[i];
      assert forall j :: 1 <= j < i + 1 ==> lines[j] == rest[j - 1];
    }
  }

  /** The second reader never throws on a stray line. */
  lemma {:induction false} NeverBlamesStray<E>(lines: seq<string>, parse: string -> Option<E>)
    ensures var bad := Handled(lines, IsBlank, parse).bad; bad.Some? ==> !Stray(bad.value)
  {
    if lines != [] {
      NeverBlamesStray(lines[1..], parse);
    }
  }

  /** Both readers do the same, for every way the stream is cut, exactly when no stray line comes first. */
  lemma {:induction false} ReadersAgreeIff<E>(lines: seq<string>, parse: string -> Option<E>)
    requires RejectsStray(parse)
    ensures Handled(lines, IsEmpty, parse) == Handled(lines, IsBlank, parse) <==> !StrayFirst(lines, parse)
  {
    if lines != [] {
      if Stray(lines[0]) {
        NeverBlamesStray(lines, parse);
        assert Handled(lines, IsEmpty, parse).bad == Some(lines[0]);
        assert StrayFirst(lines, parse);
      } else {
        StrayFirstStep(lines, parse);
        ReadersAgreeIff(lines[1..], parse);
        if lines[0] != "" && parse(lines[0]).Some? {
          ThenInjective(parse(lines[0]).value, Handled(lines[1..], IsEmpty, parse),
            Handled(lines[1..], IsBlank, parse));
        }
      }
    }
  }

  lemma ThenInjective<E>(e: E, a: Outcome<E>, b: Outcome<E>)
    ensures Then(e, a) == Then(e, b) <==> a == b
  {
    assert ([e] + a.events)[1..] == a.events && ([e] + b.events)[1..] == b.events;
  }

  /** One line with a single space: the first reader throws on it, the second skips it. */
  lemma ReadersPartExample<E>(parse: string -> Option<E>)
    requires RejectsStray(parse)
    ensures Handled(Complete(" \n"), IsEmpty, parse) == Outcome([], Some(" "))
    ensures Handled(Complete(" \n"), IsBlank, parse) == Outcome([], None)
  {
    CompleteLine(" ", "");
    NothingFinished("");
    assert " " + ['\n'] + "" == " \n" && [" "] + [] == [" "];
    assert JsSpace(" "[0]) && Stray(" ");
    assert [" "][1..] == [];
  }

  // ---------- a server's own stream ----------

  /** How a server writes its events: one line each, without a newline inside, which parses back. */
  ghost predicate Codec<E(!new)>(encode: E -> string, parse: string -> Option<E>) {
    forall e: E :: '\n' !in encode(e) && !IsBlank(encode(e)) && parse(encode(e)) == Some(e)
  }

  function Written<E>(encode: E -> string, events: seq<E>): string {
    if events == [] then "" else encode(events[0]) + ['\n'] + Written(encode, events[1..])
  }

  lemma FirstHandled<E>(line: string, rest: seq<string>, parse: string -> Option<E>)
    requires !IsBlank(line) && parse(line).Some?
    ensures Handled([line] + rest, IsEmpty, parse) == Then(parse(line).value, Handled(rest, IsEmpty, parse))
    ensures Handled([line] + rest, IsBlank, parse) == Then(parse(line).value, Handled(rest, IsBlank, parse))
  {
    assert ([line] + rest)[1..] == rest;
  }

  /** Both readers have handled exactly these events of the text. */
  ghost predicate BothSee<E(!new)>(text: string, parse: string -> Option<E>, events: seq<E>) {
    && Handled(Complete(text), IsEmpty, parse) == Outcome(events, None)
    && Handled(Complete(text), IsBlank, parse) == Outcome(events, None)
  }

  lemma SeeOneMore<E(!new)>(line: string, rest: string, parse: string -> Option<E>, e: E, events: seq<E>)
    requires '\n' !in line && !IsBlank(line) && parse(line) == Some(e) && BothSee(rest, parse, events)
    ensures BothSee(line + ['\n'] + rest, parse, [e] + events)
  {
    CompleteLine(line, rest);
    FirstHandled(line, Complete(rest), parse);
  }

  lemma SeeNothing<E(!new)>(text: string, parse: string -> Option<E>)
    requires '\n' !in text
    ensures BothSee(text, parse, [])
  {
    NothingFinished(text);
  }

  lemma CutInLine(line: string, rest: string, n: nat)
    requires n <= |line| && '\n' !in line
    ensures (line + ['\n'] + rest)[..n] == line[..n] && '\n' !in line[..n]
  {
  }

  lemma CutLater(line: string, rest: string, n: nat)
    requires |line| < n <= |line| + 1 + |rest|
    ensures (line + ['\n'] + rest)[..n] == line + ['\n'] + rest[..n - |line| - 1]
  {
  }

  /** Of the first `n` characters of the stream exactly the first `k` events are complete, and handled. */
  ghost predicate SeenUpTo<E(!new)>(encode: E -> string, parse: string -> Option<E>, events: seq<E>, n: nat, k: nat) {
    && n <= |Written(encode, events)| && k <= |events| && (k == |events| <==> n == |Written(encode, events)|)
    && BothSee(Written(encode, events)[..n], parse, events[..k])
  }

  lemma SeenInLine<E(!new)>(encode: E -> string, parse: string -> Option<E>, events: seq<E>, n: nat)
    requires Codec(encode, parse) && events != [] && n <= |encode(events[0])|
    ensures SeenUpTo(encode, parse, events, n, 0)
  {
    CutInLine(encode(events[0]), Written(encode, events[1..]), n);
    SeeNothing(encode(events[0])[..n], parse);
  }

  lemma SeenLater<E(!new)>(encode: E -> string, parse: string -> Option<E>, events: seq<E>, n: nat, k: nat)
    requires Codec(encode, parse) && events != [] && n > |encode(events[0])|
    requires SeenUpTo(encode, parse, events[1..], n - |encode(events[0])| - 1, k)
    ensures SeenUpTo(encode, parse, events, n, k + 1)
  {
    var line, rest := encode(events[0]), Written(encode, events[1..]);
    SeeOneMore(line, rest[..n - |line| - 1], parse, events[0], events[1..][..k]);
    CutLater(line, rest, n);
    assert events[..k + 1] == [events[0]] + events[1..][..k];
  }

  /**
   Whatever part of the stream arrives, in whatever pieces, both readers have handled exactly the events
   whose lines are complete.
   */
  lemma {:induction false} ReadersSeeCompleteEvents<E(!new)>(
      encode: E -> string, parse: string -> Option<E>, events: seq<E>, n: nat)
    returns (k: nat)
    requires Codec(encode, parse) && n <= |Written(encode, events)|
    ensures k <= |events| && (k == |events| <==> n == |Written(encode, events)|)
    ensures BothSee(Written(encode, events)[..n], parse, events[..k])
  {
    if events == [] {
      k := 0;
      SeeNothing("", parse);
      assert Written(encode, events)[..n] == "" && events[..k] == [];
    } else if n <= |encode(events[0])| {
      k := 0;
      SeenInLine(encode, parse, events, n);
    } else {
      var later := ReadersSeeCompleteEvents(encode, parse, events[1..], n - |encode(events[0])| - 1);
      SeenLater(encode, parse, events, n, later);
      k := later + 1;
    }
  }
}
