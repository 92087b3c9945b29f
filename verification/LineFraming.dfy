/** Newline-delimited frames over a byte stream that may be cut anywhere: the receiving side of the IPC socket. */
module LineFraming {
  import opened Wrappers

  /** Position of the first newline, or the length if there is none. */
  function FirstNewline(text: string): (i: nat)
    ensures i <= |text|
  {
    if text == [] || text[0] == '\n' then 0 else FirstNewline(text[1..]) + 1
  }

  ghost predicate BeginsWithLine(text: string, i: nat) {
    i < |text| && text[i] == '\n' && forall j | 0 <= j < i :: text[j] != '\n'
  }

  lemma {:induction false} FirstNewlineFound(text: string)
    ensures var i := FirstNewline(text); if i < |text| then BeginsWithLine(text, i) else NewlineFree(text)
  {
    if text != [] && text[0] != '\n' {
      FirstNewlineFound(text[1..]);
      assert forall j | 1 <= j < |text| :: text[j] == text[1..][j - 1];
    }
  }

  lemma {:induction false} FirstNewlineIs(text: string, i: nat)
    requires BeginsWithLine(text, i)
    ensures FirstNewline(text) == i
  {
    if i > 0 {
      FirstNewlineIs(text[1..], i - 1);
    }
  }

  /** The complete lines of a text, and what follows the last newline. */
  function Split(text: string): (seq<string>, string)
    decreases |text|
  {
    var i := FirstNewline(text);
    if i == |text| then ([], text)
    else
      var (lines, rest) := Split(text[i + 1..]);
      ([text[..i]] + lines, rest)
  }

  function Serialize(messages: seq<string>): string {
    if messages == [] then "" else messages[0] + "\n" + Serialize(messages[1..])
  }

  class Receiver {
    var buffer: string
    ghost var handled: seq<string>

    constructor ()
      ensures buffer == "" && handled == []
    {
      buffer, handled := "", [];
    }

    /** The `data` handler; `handled` records the calls of the message handler. */
    method OnData(chunk: string)
      modifies this
      ensures var (lines, rest) := Split(old(buffer) + chunk);
        handled == old(handled) + lines && buffer == rest
    {
      buffer := buffer + chunk;
      ghost var all := Split(buffer);
      var idx := FirstNewline(buffer);
      while idx < |buffer|
        invariant idx == FirstNewline(buffer)
        invariant handled + Split(buffer).0 == old(handled) + all.0
        invariant Split(buffer).1 == all.1
        decreases |buffer|
      {
        var line := buffer[..idx];
        assert Split(buffer) == ([line] + Split(buffer[idx + 1..]).0, Split(buffer[idx + 1..]).1);
        buffer := buffer[idx + 1..];
        handled := handled + [line];
        idx := FirstNewline(buffer);
      }
      assert Split(buffer) == ([], buffer);
    }

    /** Any number of chunks. */
    method Receive(chunks: seq<string>)
      requires buffer == "" && handled == []
      modifies this
      ensures handled == Split(Flatten(chunks)).0 && buffer == Split(Flatten(chunks)).1
    {
      var i := 0;
      while i < |chunks|
        invariant 0 <= i <= |chunks|
        invariant handled == Split(Flatten(chunks[..i])).0 && buffer == Split(Flatten(chunks[..i])).1
      {
        assert chunks[..i + 1][..i] == chunks[..i];
        SplitInTwo(Flatten(chunks[..i]), chunks[i]);
        OnData(chunks[i]);
        i := i + 1;
      }
      assert chunks[..i] == chunks;
    }
  }

  predicate NewlineFree(text: string) {
    forall i | 0 <= i < |text| :: text[i] != '\n'
  }

  /** A line in front is split off first. */
  lemma FirstLine(text: string, i: nat)
    requires BeginsWithLine(text, i)
    ensures Split(text) == ([text[..i]] + Split(text[i + 1..]).0, Split(text[i + 1..]).1)
  {
    FirstNewlineIs(text, i);
  }

  lemma SplitLine(line: string, rest: string)
    requires NewlineFree(line)
    ensures Split(line + "\n" + rest) == ([line] + Split(rest).0, Split(rest).1)
  {
    var text := line + "\n" + rest;
    FirstLine(text, |line|);
    assert text[..|line|] == line && text[|line| + 1..] == rest;
  }

  /** Where the stream is cut makes no difference. */
  lemma {:induction false} SplitInTwo(a: string, b: string)
    ensures Split(a + b) == (Split(a).0 + Split(Split(a).1 + b).0, Split(Split(a).1 + b).1)
    decreases |a|
  {
    var i := FirstNewline(a);
    if i == |a| {
      assert [] + Split(a + b).0 == Split(a + b).0;
    } else {
      FirstNewlineFound(a);
      SplitInTwo(a[i + 1..], b);
      FirstLine(a, i);
      LineThenMore(a, b, i);
      Regroup(a[..i], Split(a[i + 1..]).0, Split(Split(a[i + 1..]).1 + b).0);
    }
  }

  /** More text behind does not change the first line. */
  lemma LineThenMore(a: string, b: string, i: nat)
    requires BeginsWithLine(a, i)
    ensures Split(a + b) == ([a[..i]] + Split(a[i + 1..] + b).0, Split(a[i + 1..] + b).1)
  {
    assert BeginsWithLine(a + b, i);
    FirstLine(a + b, i);
    assert (a + b)[..i] == a[..i] && (a + b)[i + 1..] == a[i + 1..] + b;
  }

  lemma Regroup(line: string, l: seq<string>, r: seq<string>)
    ensures [line] + (l + r) == [line] + l + r
  {
  }

  /** Between chunks the buffer never holds a newline, and no line handed over contains one. */
  lemma {:induction false} SplitParts(text: string)
    ensures NewlineFree(Split(text).1)
    ensures forall line | line in Split(text).0 :: NewlineFree(line)
    decreases |text|
  {
    var i := FirstNewline(text);
    FirstNewlineFound(text);
    if i < |text| {
      FirstLine(text, i);
      SplitParts(text[i + 1..]);
    }
  }

  /** Nothing is lost: the lines, each with its newline, and the rest make up the text. */
  lemma {:induction false} SplitLossless(text: string)
    ensures Serialize(Split(text).0) + Split(text).1 == text
    decreases |text|
  {
    var i := FirstNewline(text);
    FirstNewlineFound(text);
    if i < |text| {
      FirstLine(text, i);
      SplitLossless(text[i + 1..]);
      Rejoin(text, i, Split(text[i + 1..]).0, Split(text[i + 1..]).1);
    }
  }

  lemma Rejoin(text: string, i: nat, lines: seq<string>, rest: string)
    requires i < |text| && text[i] == '\n' && Serialize(lines) + rest == text[i + 1..]
    ensures Serialize([text[..i]] + lines) + rest == text
  {
    var line := text[..i];
    assert ([line] + lines)[1..] == lines;
    assert Serialize([line] + lines) == line + "\n" + Serialize(lines);
    assert text == line + "\n" + text[i + 1..];
    assert line + "\n" + Serialize(lines) + rest == line + "\n" + (Serialize(lines) + rest);
  }

  lemma {:induction false} SplitSerialized(messages: seq<string>)
    requires forall m | m in messages :: NewlineFree(m)
    ensures Split(Serialize(messages)) == (messages, "")
  {
    if messages != [] {
      assert messages[0] in messages;
      SplitLine(messages[0], Serialize(messages[1..]));
      SplitSerialized(messages[1..]);
      assert messages == [messages[0]] + messages[1..];
    }
  }

  /**
   * Messages without newlines, serialized one after another and cut into chunks anywhere, arrive one by one in
   * order, and nothing is left over. Since every serialized message is such a line, this holds for all of them.
   */
  lemma ArriveInOrder(messages: seq<string>, chunks: seq<string>)
    requires forall m | m in messages :: NewlineFree(m)
    requires Flatten(chunks) == Serialize(messages)
    ensures Split(Flatten(chunks)).0 == messages && Split(Flatten(chunks)).1 == ""
  {
    SplitSerialized(messages);
  }

  /** After a part of the stream, the lines handed over are a prefix of the messages. */
  lemma PrefixArrives(messages: seq<string>, received: string, pending: string)
    requires forall m | m in messages :: NewlineFree(m)
    requires received + pending == Serialize(messages)
    ensures Split(received).0 <= messages
  {
    SplitSerialized(messages);
    SplitInTwo(received, pending);
  }

  /** A message containing a newline is not framed: the receiver sees two lines. */
  lemma FramingNeedsNewlineFree(messages: seq<string>)
    ensures Split(Serialize(messages)) == (messages, "") <==> forall m | m in messages :: NewlineFree(m)
  {
    if forall m | m in messages :: NewlineFree(m) {
      SplitSerialized(messages);
    }
    SplitParts(Serialize(messages));
  }
}
