/**
 * The completion log. Each pane's cleanup trap appends one line `"$RC <name>"`;
 * the listener (`tail_f`) collects what `readline` returns into whole lines, and
 * `tail_f_loop` splits each line into the `(name, return_code)` event it queues.
 */
module CompletionLog {
  import opened Wrappers
  import PyText

  /** One queued completion: the task name and the return code as the text read from the log. */
  datatype Event = Event(name: string, returnCode: string)

  /** The line the cleanup trap appends for a task that exited with code text `rc`. */
  function LogLine(rc: string, name: string): string
  {
    rc + " " + name + "\n"
  }

  /** `''.join(pieces)`. */
  function Concat(pieces: seq<string>): string
  {
    if |pieces| == 0 then [] else Concat(pieces[..|pieces| - 1]) + pieces[|pieces| - 1]
  }

  lemma {:induction false} ConcatAppend(a: seq<string>, b: seq<string>)
    ensures Concat(a + b) == Concat(a) + Concat(b)
    decreases |b|
  {
    if b == [] {
      assert a + b == a;
    } else {
      var b' := b[..|b| - 1];
      assert (a + b)[..|a + b| - 1] == a + b';
      ConcatAppend(a, b');
    }
  }

  lemma ConcatOne(c: string)
    ensures Concat([c]) == c
  {
    assert [c][..0] == [];
  }

  /** A piece that `readline` can return: non-empty, and ending in a newline when it is a whole line. */
  predicate EndsLine(s: string)
  {
    s != [] && s[|s| - 1] == '\n'
  }

  /** `readline` returns text up to and including the first newline, so a newline can only end a chunk. */
  predicate NewlineOnlyAtEnd(s: string)
  {
    forall k :: 0 <= k < |s| - 1 ==> s[k] != '\n'
  }

  /** The listener's state: the lines yielded so far and the partial pieces held back. */
  datatype Tail = Tail(lines: seq<string>, accumulated: seq<string>)

  /**
   * One `readline` result. The empty string is end of data (`tail_f` then
   * sleeps and polls again); any other chunk is appended to `accumulated`, and a
   * chunk ending in a newline completes a line, which is yielded, and resets it.
   */
  function Feed(st: Tail, chunk: string): Tail
  {
    if |chunk| == 0 then st
    else
      var acc := st.accumulated + [chunk];
      if EndsLine(chunk) then Tail(st.lines + [Concat(acc)], []) else Tail(st.lines, acc)
  }

  /** The listener's state after reading `chunks` in order. */
  function Accumulate(chunks: seq<string>): Tail
  {
    if chunks == [] then Tail([], []) else Feed(Accumulate(chunks[..|chunks| - 1]), chunks[|chunks| - 1])
  }

  /** Yielded lines end in a newline; held-back pieces are non-empty and do not. */
  predicate TailInvariant(st: Tail)
  {
    && (forall m :: 0 <= m < |st.lines| ==> EndsLine(st.lines[m]))
    && (forall m :: 0 <= m < |st.accumulated| ==> st.accumulated[m] != [] && !EndsLine(st.accumulated[m]))
  }

  /** Joining one more piece appends its text. */
  lemma Snoc(a: seq<string>, c: string)
    ensures Concat(a + [c]) == Concat(a) + c
  {
    ConcatAppend(a, [c]);
    ConcatOne(c);
  }

  /** One chunk keeps the invariant. */
  lemma FeedKeeps(st: Tail, c: string)
    requires TailInvariant(st)
    ensures TailInvariant(Feed(st, c))
  {
  }

  /** One chunk adds exactly its own text to what is yielded or held back. */
  lemma FeedText(st: Tail, c: string)
    ensures Concat(Feed(st, c).lines) + Concat(Feed(st, c).accumulated) == Concat(st.lines) + Concat(st.accumulated) + c
  {
    var r := Feed(st, c);
    if |c| > 0 {
      var acc := st.accumulated + [c];
      Snoc(st.accumulated, c);
      if EndsLine(c) {
        Snoc(st.lines, Concat(acc));
        assert r.accumulated == [];
        assert Concat(r.accumulated) == [];
        assert Concat(r.lines) == Concat(st.lines) + Concat(acc);
      } else {
        assert r.lines == st.lines;
        assert Concat(r.accumulated) == Concat(st.accumulated) + c;
      }
    } else {
      assert c == [];
      assert r == st;
    }
  }

  /**
   * What the listener keeps: every yielded line ends in a newline, every piece
   * held back is non-empty and has no terminating newline, and the yielded lines
   * followed by the held-back pieces are exactly the text read, nothing dropped.
   */
  lemma {:induction false} AccumulateFacts(chunks: seq<string>)
    ensures TailInvariant(Accumulate(chunks))
    ensures Concat(Accumulate(chunks).lines) + Concat(Accumulate(chunks).accumulated) == Concat(chunks)
    decreases |chunks|
  {
    if |chunks| > 0 {
      var init := chunks[..|chunks| - 1];
      var c := chunks[|chunks| - 1];
      AccumulateFacts(init);
      FeedKeeps(Accumulate(init), c);
      FeedText(Accumulate(init), c);
      Snoc(init, c);
      assert init + [c] == chunks;
    }
  }

  /** No newline anywhere in `s`. */
  predicate NoNewline(s: string)
  {
    forall k :: 0 <= k < |s| ==> s[k] != '\n'
  }

  /** Each yielded line has its only newline at the end, and the held-back text has none. */
  predicate SingleLines(st: Tail)
  {
    (forall m :: 0 <= m < |st.lines| ==> NewlineOnlyAtEnd(st.lines[m])) && NoNewline(Concat(st.accumulated))
  }

  lemma FeedSingleLines(st: Tail, c: string)
    requires SingleLines(st) && NewlineOnlyAtEnd(c)
    ensures SingleLines(Feed(st, c))
  {
    if |c| > 0 {
      var acc := st.accumulated + [c];
      Snoc(st.accumulated, c);
      var text := Concat(acc);
      assert text == Concat(st.accumulated) + c;
      if EndsLine(c) {
        assert NewlineOnlyAtEnd(text) by {
          forall k | 0 <= k < |text| - 1 ensures text[k] != '\n' {
            if k >= |Concat(st.accumulated)| {
              assert text[k] == c[k - |Concat(st.accumulated)|];
            }
          }
        }
        assert Concat(Feed(st, c).accumulated) == [];
      } else {
        assert NoNewline(text) by {
          forall k | 0 <= k < |text| ensures text[k] != '\n' {
            if k >= |Concat(st.accumulated)| {
              assert text[k] == c[k - |Concat(st.accumulated)|];
            }
          }
        }
      }
    } else {
      assert c == [];
    }
  }

  /**
   * When every chunk has the shape `readline` gives, every yielded line holds
   * exactly one newline, at its end, and the held-back text holds none.
   */
  lemma {:induction false} ReadlineLines(chunks: seq<string>)
    requires forall m :: 0 <= m < |chunks| ==> NewlineOnlyAtEnd(chunks[m])
    ensures SingleLines(Accumulate(chunks))
    ensures forall m :: 0 <= m < |Accumulate(chunks).lines| ==> EndsLine(Accumulate(chunks).lines[m])
    decreases |chunks|
  {
    AccumulateFacts(chunks);
    if |chunks| > 0 {
      var init := chunks[..|chunks| - 1];
      ReadlineLines(init);
      FeedSingleLines(Accumulate(init), chunks[|chunks| - 1]);
    } else {
      assert Concat([]) == [];
    }
  }

  /** Chunks that are each one whole line are yielded as they are, with nothing held back. */
  lemma {:induction false} WholeLinesPassThrough(chunks: seq<string>)
    requires forall m :: 0 <= m < |chunks| ==> EndsLine(chunks[m])
    ensures Accumulate(chunks) == Tail(chunks, [])
    decreases |chunks|
  {
    if chunks != [] {
      var init := chunks[..|chunks| - 1];
      var c := chunks[|chunks| - 1];
      WholeLinesPassThrough(init);
      assert Accumulate(chunks) == Feed(Tail(init, []), c);
      ConcatOne(c);
      assert [] + [c] == [c];
      assert init + [c] == chunks;
    }
  }

  /**
   * `tail_f` over the chunks `readline` returns: the lines it yields and the
   * pieces it still holds in `accumulated`.
   */
  method TailF(chunks: seq<string>) returns (lines: seq<string>, accumulated: seq<string>)
    ensures Tail(lines, accumulated) == Accumulate(chunks)
  {
    lines, accumulated := [], [];
    var i := 0;
    while i < |chunks|
      invariant 0 <= i <= |chunks|
      invariant Tail(lines, accumulated) == Accumulate(chunks[..i])
    {
      var line := chunks[i];
      assert chunks[..i + 1][..i] == chunks[..i];
      if |line| > 0 {
        accumulated := accumulated + [line];
        if line[|line| - 1] == '\n' {
          lines := lines + [Concat(accumulated)];
          accumulated := [];
        }
      }
      i := i + 1;
    }
    assert chunks[..i] == chunks;
  }

  /** `s.split(' ', 1)` when it yields two parts: the text before the first space and the rest. */
  function SplitFirstSpace(s: string): (r: Option<(string, string)>)
    ensures r == None <==> ' ' !in s
    ensures r.Some? ==> s == r.value.0 + " " + r.value.1 && ' ' !in r.value.0
  {
    if s == [] then None
    else if s[0] == ' ' then Some(([], s[1..]))
    else match SplitFirstSpace(s[1..])
      case None => None
      case Some(parts) => Some(([s[0]] + parts.0, parts.1))
  }

  /**
   * `return_code, name = line.strip().split(' ', 1)`: None where the unpacking
   * raises, that is when the stripped line holds no space.
   */
  function ParseLine(line: string): Option<Event>
  {
    match SplitFirstSpace(PyText.Strip(line))
    case None => None
    case Some(parts) => Some(Event(parts.1, parts.0))
  }

  /** A code text the shell can print: non-empty and free of whitespace. */
  predicate CodeText(rc: string)
  {
    rc != [] && forall k :: 0 <= k < |rc| ==> !PyText.IsSpace(rc[k])
  }

  /** Helper for `ListenerDeliversAll`: a code text holds no newline, since a newline is whitespace. */
  lemma CodeTextNoNewline(rc: string)
    requires CodeText(rc)
    ensures NoNewline(rc)
  {
    forall k | 0 <= k < |rc| ensures rc[k] != '\n' {
      assert !PyText.IsSpace(rc[k]);
    }
  }

  /**
   * A name that comes back whole from the log: non-empty, not ending in whitespace
   * (which the line's `strip()` would drop), and free of newlines (where `readline` would cut the line).
   */
  predicate LoggableName(name: string)
  {
    name != [] && !PyText.IsSpace(name[|name| - 1]) && NoNewline(name)
  }

  /** Splitting at the first space recovers a space-free head and everything after it. */
  lemma {:induction false} SplitAfterHead(head: string, rest: string)
    requires ' ' !in head
    ensures SplitFirstSpace(head + " " + rest) == Some((head, rest))
    decreases |head|
  {
    var s := head + " " + rest;
    if head != [] {
      assert s[0] == head[0] && head[0] != ' ';
      assert s[1..] == head[1..] + " " + rest;
      SplitAfterHead(head[1..], rest);
      assert [head[0]] + head[1..] == head;
    } else {
      assert s[1..] == rest;
    }
  }

  /** The line written for `(rc, name)` parses back to that event; the name may contain spaces. */
  lemma ParseLogLine(rc: string, name: string)
    requires CodeText(rc) && LoggableName(name)
    ensures ParseLine(LogLine(rc, name)) == Some(Event(name, rc))
  {
    var body := rc + " " + name;
    var line := LogLine(rc, name);
    assert line == body + "\n";
    assert PyText.LStrip(line) == line;
    assert line[..|line| - 1] == body;
    assert PyText.RStrip(body) == body;
    assert PyText.Strip(line) == body;
    assert ' ' !in rc by {
      forall k | 0 <= k < |rc| ensures rc[k] != ' ' { assert !PyText.IsSpace(rc[k]); }
    }
    SplitAfterHead(rc, name);
  }

  /** A logged line starts with its code, so `lstrip()` leaves it alone. */
  lemma LStripLogLine(rc: string, name: string)
    requires CodeText(rc)
    ensures PyText.LStrip(LogLine(rc, name)) == LogLine(rc, name)
  {
    assert LogLine(rc, name)[0] == rc[0];
  }

  /**
   * `strip()` of a logged line keeps the code and, after its space, the name
   * without its trailing whitespace; a name that is all whitespace goes with it.
   */
  lemma StripLogLine(rc: string, name: string)
    requires CodeText(rc)
    ensures PyText.Strip(LogLine(rc, name)) ==
      if PyText.RStrip(name) == [] then rc else rc + " " + PyText.RStrip(name)
  {
    var kept := PyText.RStrip(name);
    var line := LogLine(rc, name);
    LStripLogLine(rc, name);
    var trail := name[|kept|..] + "\n";
    assert name == kept + name[|kept|..];
    if kept == [] {
      assert line == rc + (" " + trail);
      PyText.RStripAfter(rc, " " + trail);
    } else {
      var head := rc + " " + kept;
      assert line == head + trail;
      assert head[|head| - 1] == kept[|kept| - 1];
      PyText.RStripAfter(head, trail);
    }
  }

  /**
   * A name that ends in whitespace comes back without it: the line's `strip()`
   * removes the whitespace together with the newline.
   */
  lemma ParseLogLineStripsName(rc: string, name: string)
    requires CodeText(rc) && PyText.RStrip(name) != []
    ensures ParseLine(LogLine(rc, name)) == Some(Event(PyText.RStrip(name), rc))
  {
    StripLogLine(rc, name);
    assert ' ' !in rc by {
      forall k | 0 <= k < |rc| ensures rc[k] != ' ' { assert !PyText.IsSpace(rc[k]); }
    }
    SplitAfterHead(rc, PyText.RStrip(name));
  }

  /**
   * A name that is empty or all whitespace leaves only the code after `strip()`,
   * so the unpacking raises and the listener thread ends.
   */
  lemma ParseLogLineBlankName(rc: string, name: string)
    requires CodeText(rc) && PyText.RStrip(name) == []
    ensures ParseLine(LogLine(rc, name)) == None
  {
    StripLogLine(rc, name);
    assert ' ' !in rc by {
      forall k | 0 <= k < |rc| ensures rc[k] != ' ' { assert !PyText.IsSpace(rc[k]); }
    }
  }

  /** The events of the leading lines that split, up to the first one that does not. */
  function Leading(parses: seq<Option<Event>>): (events: seq<Event>)
    ensures |events| <= |parses|
    ensures forall m :: 0 <= m < |events| ==> parses[m] == Some(events[m])
    ensures |events| < |parses| ==> parses[|events|] == None
  {
    if parses == [] || parses[0].None? then [] else [parses[0].value] + Leading(parses[1..])
  }

  /** When every line splits, all of their events are queued. */
  lemma {:induction false} LeadingAllSome(parses: seq<Option<Event>>, events: seq<Event>)
    requires |parses| == |events| && forall m :: 0 <= m < |events| ==> parses[m] == Some(events[m])
    ensures Leading(parses) == events
    decreases |events|
  {
    if events != [] {
      LeadingAllSome(parses[1..], events[1..]);
      assert [events[0]] + events[1..] == events;
    }
  }

  /**
   * `tail_f_loop`: the events it puts on the queue for these lines. It stops at
   * the first line that does not split, where the unpacking raises and ends the thread.
   */
  function Forward(lines: seq<string>): (events: seq<Event>)
    ensures |events| <= |lines|
    ensures forall m :: 0 <= m < |events| ==> ParseLine(lines[m]) == Some(events[m])
    ensures |events| < |lines| ==> ParseLine(lines[|events|]) == None
  {
    Leading(seq(|lines|, k requires 0 <= k < |lines| => ParseLine(lines[k])))
  }

  /** The lines the cleanup traps write for these events, one per event. */
  function LogLines(events: seq<Event>): (r: seq<string>)
    ensures |r| == |events| && forall m :: 0 <= m < |events| ==> r[m] == LogLine(events[m].returnCode, events[m].name)
  {
    seq(|events|, m requires 0 <= m < |events| => LogLine(events[m].returnCode, events[m].name))
  }

  /** A logged line ends in a newline. */
  lemma LogLineEndsLine(rc: string, name: string)
    ensures EndsLine(LogLine(rc, name))
  {
    var line := LogLine(rc, name);
    assert line[|line| - 1] == '\n';
  }

  /** A logged line has its only newline at its end, so `readline` returns it as one piece. */
  lemma LogLineReadWhole(rc: string, name: string)
    requires NoNewline(rc) && NoNewline(name)
    ensures EndsLine(LogLine(rc, name)) && NewlineOnlyAtEnd(LogLine(rc, name))
  {
    var line := LogLine(rc, name);
    assert line == rc + " " + name + "\n";
    forall k | 0 <= k < |line| - 1 ensures line[k] != '\n' {
      if k < |rc| {
        assert line[k] == rc[k];
      } else if k > |rc| {
        assert line[k] == name[k - |rc| - 1];
      }
    }
  }

  /** `tail_f_loop` queues one event per well-formed logged line, in order. */
  lemma ForwardLogLines(events: seq<Event>)
    requires forall m :: 0 <= m < |events| ==> CodeText(events[m].returnCode) && LoggableName(events[m].name)
    ensures Forward(LogLines(events)) == events
  {
    var lines := LogLines(events);
    var parses := seq(|lines|, k requires 0 <= k < |lines| => ParseLine(lines[k]));
    forall m | 0 <= m < |events| ensures parses[m] == Some(events[m]) {
      ParseLogLine(events[m].returnCode, events[m].name);
    }
    LeadingAllSome(parses, events);
  }

  /**
   * End to end: when the log holds one line per finished task, `readline` can
   * return each line as one piece; read so, the listener yields those lines with
   * nothing held back and queues exactly those events, in order.
   */
  lemma ListenerDeliversAll(events: seq<Event>)
    requires forall m :: 0 <= m < |events| ==> CodeText(events[m].returnCode) && LoggableName(events[m].name)
    ensures forall m :: 0 <= m < |events| ==> NewlineOnlyAtEnd(LogLines(events)[m])
    ensures Accumulate(LogLines(events)) == Tail(LogLines(events), [])
    ensures Forward(Accumulate(LogLines(events)).lines) == events
  {
    var lines := LogLines(events);
    forall m | 0 <= m < |lines| ensures EndsLine(lines[m]) && NewlineOnlyAtEnd(lines[m]) {
      CodeTextNoNewline(events[m].returnCode);
      LogLineReadWhole(events[m].returnCode, events[m].name);
    }
    WholeLinesPassThrough(lines);
    ForwardLogLines(events);
  }
}
