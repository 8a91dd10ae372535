/** The lines a log viewer shows (web/src/hooks/useWebSocket.ts). */
module LogLines {
  import opened SplitText

  const MAX_LOG_LINES := 10_000

  function Capped(lines: seq<string>): seq<string> {
    if |lines| > MAX_LOG_LINES then lines[|lines| - MAX_LOG_LINES..] else lines
  }

  predicate EndsWithNewline(s: string) { s != "" && s[|s| - 1] == '\n' }

  /** The lines after a message, before they are cut to the last MAX_LOG_LINES. */
  function Joined(prev: seq<string>, text: string): seq<string> {
    if text == "" then prev
    else
      var more := Split(text, '\n');
      if prev != [] && !EndsWithNewline(prev[|prev| - 1]) && more[0] != "" then Glued(prev, more) else prev + more
  }

  class LogView {
    var lines: seq<string>

    constructor ()
      ensures lines == []
    {
      lines := [];
    }

    method OnMessage(text: string)
      modifies this
      ensures lines == if text == "" then old(lines) else Capped(Joined(old(lines), text))
    {
      hide Split;
      if text == "" { return; }
      var newLines := Split(text, '\n');
      var updated := lines;
      if |updated| > 0 && !EndsWithNewline(lines[|lines| - 1]) && newLines[0] != "" {
        updated := updated[|updated| - 1 := updated[|updated| - 1] + newLines[0]];
        assert updated == lines[..|lines| - 1] + [lines[|lines| - 1] + newLines[0]];
        var result := updated + newLines[1..];
        lines := if |result| > MAX_LOG_LINES then result[|result| - MAX_LOG_LINES..] else result;
      } else {
        var result := updated + newLines;
        lines := if |result| > MAX_LOG_LINES then result[|result| - MAX_LOG_LINES..] else result;
      }
    }
  }

  /** The lines shown after some messages. */
  function Shown(messages: seq<string>): seq<string> {
    if messages == [] then []
    else
      var prev, text := Shown(messages[..|messages| - 1]), messages[|messages| - 1];
      if text == "" then prev else Capped(Joined(prev, text))
  }

  predicate Continues(prev: string, text: string) {
    prev != "" && text != "" && text[0] == '\n'
  }

  /** The text of the messages, with one more newline before each message after the first that starts with one. */
  function Assembled(messages: seq<string>): string {
    if messages == [] then ""
    else
      var prev, text := Assembled(messages[..|messages| - 1]), messages[|messages| - 1];
      if Continues(prev, text) then prev + "\n" + text else prev + text
  }

  function Lines(text: string): seq<string> {
    if text == "" then [] else Split(text, '\n')
  }

  /** One message: the lines of the longer text. */
  lemma JoinedIsLines(prev: string, text: string)
    ensures Joined(Lines(prev), text) == Lines(if Continues(prev, text) then prev + "\n" + text else prev + text)
  {
    if text == "" {
      assert prev + text == prev;
    } else if prev == "" {
      assert prev + text == text;
      assert [] + Split(text, '\n') == Split(text, '\n');
    } else {
      NoneInside(prev, '\n');
      FirstPiece(text, '\n');
      SplitAtSeparator(prev, text, '\n');
      SplitConcat(prev, text, '\n');
      var lines := Split(prev, '\n');
      assert lines[|lines| - 1] in lines;
    }
  }

  lemma JoinedTail(lines: seq<string>, text: string, k: nat)
    requires k < |lines|
    ensures Joined(lines, text) == lines[..k] + Joined(lines[k..], text)
    ensures |Joined(lines[k..], text)| >= |lines| - k
  {
    hide Split, Glued;
    assert lines == lines[..k] + lines[k..];
    assert lines[k..][|lines| - k - 1] == lines[|lines| - 1];
    if text != "" {
      GluedTail(lines, Split(text, '\n'), k);
      assert lines + Split(text, '\n') == lines[..k] + (lines[k..] + Split(text, '\n'));
    }
  }

  lemma GluedTail(lines: seq<string>, more: seq<string>, k: nat)
    requires k < |lines| && more != []
    ensures Glued(lines, more) == lines[..k] + Glued(lines[k..], more)
    ensures |Glued(lines[k..], more)| >= |lines| - k
  {
  }

  lemma CappedTail(head: seq<string>, tail: seq<string>)
    requires |tail| >= MAX_LOG_LINES
    ensures Capped(head + tail) == Capped(tail)
  {
  }

  /** Cutting before a message makes no difference after it. */
  lemma CapEarly(lines: seq<string>, text: string)
    ensures Capped(Joined(Capped(lines), text)) == Capped(Joined(lines, text))
  {
    hide Joined;
    if |lines| > MAX_LOG_LINES {
      var k := |lines| - MAX_LOG_LINES;
      JoinedTail(lines, text, k);
      CappedTail(lines[..k], Joined(lines[k..], text));
    }
  }

  /** The viewer shows the last MAX_LOG_LINES lines of the assembled text. */
  lemma {:induction false} ShownIsAssembled(messages: seq<string>)
    ensures Shown(messages) == Capped(Lines(Assembled(messages)))
    ensures var lines := Lines(Assembled(messages));
      Shown(messages) == if |lines| <= 10_000 then lines else lines[|lines| - 10_000..]
  {
    if messages != [] {
      hide Joined, Lines;
      var before, text := messages[..|messages| - 1], messages[|messages| - 1];
      ShownIsAssembled(before);
      JoinedIsLines(Assembled(before), text);
      CapEarly(Lines(Assembled(before)), text);
      NoMessage(Lines(Assembled(before)));
    }
  }

  lemma NoMessage(lines: seq<string>)
    ensures Joined(lines, "") == lines && Capped(Capped(lines)) == Capped(lines)
  {
  }

  // ---- when no newline is added ----

  function Whole(messages: seq<string>): string {
    if messages == [] then "" else Whole(messages[..|messages| - 1]) + messages[|messages| - 1]
  }

  /** How many messages after the first text start with a newline. */
  function Added(messages: seq<string>): nat {
    if messages == [] then 0
    else
      Added(messages[..|messages| - 1]) +
      (if Continues(Whole(messages[..|messages| - 1]), messages[|messages| - 1]) then 1 else 0)
  }

  lemma {:induction false} AssembledLength(messages: seq<string>)
    ensures |Assembled(messages)| == |Whole(messages)| + Added(messages)
    ensures Added(messages) == 0 ==> Assembled(messages) == Whole(messages)
    ensures Assembled(messages) == "" <==> Whole(messages) == ""
    ensures |Split(Assembled(messages), '\n')| == |Split(Whole(messages), '\n')| + Added(messages)
  {
    if messages != [] {
      hide Split;
      var before, text := messages[..|messages| - 1], messages[|messages| - 1];
      AssembledLength(before);
      SplitAtSeparator(Assembled(before), text, '\n');
      SplitConcat(Assembled(before), text, '\n');
      SplitConcat(Whole(before), text, '\n');
    }
  }

  /** Without the limit, the viewer's lines are those of the received text exactly when
      no message after the first starts with a newline. */
  lemma LinesOfTheText(messages: seq<string>)
    ensures Lines(Assembled(messages)) == Lines(Whole(messages)) <==> Added(messages) == 0
  {
    AssembledLength(messages);
  }
}
