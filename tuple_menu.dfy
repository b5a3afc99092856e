/**
 * The interactive loop of the tuples guide. After the table of contents, each
 * turn reads a line, normalises it with `strip().lower()` and dispatches on
 * it: `quit` or `exit` says goodbye, `all` runs the twelve sections in order
 * with a pause between them and leaves the loop, a number from 1 to 12 runs
 * that section (section 1 and section 4 bring extra demonstrations), `toc`
 * shows the contents again, and anything else is reported.
 *
 * Operator input is a sequence of lines; each `input()` consumes one line,
 * the pauses included, and reading past the last line raises `EOFError`.
 * Output is a trace of events. Demonstrations are opaque; `failing` is the
 * set of those that raise when run, and `run_example` reports each such
 * exception instead of letting it escape.
 */
module TupleMenu {
  import opened Common
  import opened Text

  /** The highest section number, `max(sections.keys())`. */
  const LastSection := 12

  /** A demonstration: one of the twelve numbered sections or one of the additional demos. */
  datatype Demo = Section(n: nat) | Properties | Indexing | UnpackingAdvanced

  /** What a normalised choice asks for. */
  datatype Command = Quit | All | Number(n: nat) | Toc | Invalid

  datatype Event =
    | Contents                           // the table of contents
    | Farewell                           // "Thanks for learning about Python tuples!"
    | AllHeader                          // "Running all sections..."
    | Outcome(demo: Demo, raised: bool)  // one `run_example` call; `raised` prints "Error running example"
    | Pause                              // "Press Enter to continue to the next section..."
    | Completed(n: nat)                  // "Section n completed!" and the prompt for the next choice
    | InvalidSection                     // "Invalid section number. Please choose 1-12"
    | InvalidChoice                      // "Invalid choice. Enter a section number (1-12), ..."
    | ErrorReported                      // "An error occurred: ..." and "Please try again."
    | EndOfInput                         // `input()` raised `EOFError`, ending the program

  // ---------------------------------------------------------------------------
  // Reading a choice

  /** The command a line selects, after `strip().lower()`. */
  function Parse(line: string): Command {
    Classify(Lower(Strip(line)))
  }

  /**
   * The `if`/`elif` chain on the normalised choice. The branches never
   * overlap: no keyword is a digit string, so a choice is a number exactly
   * when it is all digits, and then the number is its decimal value.
   */
  function Classify(choice: string): (c: Command)
    ensures c == Quit <==> choice == "quit" || choice == "exit"
    ensures c == All <==> choice == "all"
    ensures c == Toc <==> choice == "toc"
    ensures c.Number? <==> IsDigits(choice)
    ensures c.Number? ==> c.n == DecimalValue(choice)
  {
    assert !IsDigits("quit") && !IsDigits("exit") && !IsDigits("all") && !IsDigits("toc") by {
      assert !IsDigit("quit"[0]) && !IsDigit("exit"[0]) && !IsDigit("all"[0]) && !IsDigit("toc"[0]);
    }
    if choice == "quit" || choice == "exit" then Quit
    else if choice == "all" then All
    else if IsDigits(choice) then Number(DecimalValue(choice))
    else if choice == "toc" then Toc
    else Invalid
  }

  /** Blanks around a choice do not change what it selects. */
  lemma ParsePadded(a: string, s: string, b: string)
    requires AllSpace(a) && AllSpace(b)
    requires s != [] && !IsSpace(s[0]) && !IsSpace(s[|s| - 1])
    ensures Parse(a + s + b) == Parse(s)
  {
    StripPadded(a, s, b);
    StripPadded([], s, []);
    assert [] + s + [] == s;
  }

  /** Upper-case letters select what the lower-case ones do: `QUIT` quits, `ALL` runs everything. */
  lemma ParseIgnoresCase(s: string)
    requires s != [] && !IsSpace(s[0]) && !IsSpace(s[|s| - 1])
    ensures Parse(Upper(s)) == Parse(s)
  {
    assert Lower(Strip(Upper(s))) == Lower(Strip(s)) by {
      StripBordered(s);
      StripUpper(s);
      LowerUpper(s);
    }
  }

  /** A string with non-blank ends is its own `strip()`. */
  lemma StripBordered(s: string)
    requires s != [] && !IsSpace(s[0]) && !IsSpace(s[|s| - 1])
    ensures Strip(s) == s
  {
    StripPadded([], s, []);
    assert [] + s + [] == s;
  }

  /** Upper-casing keeps the ends of a string non-blank, so `strip()` leaves it alone too. */
  lemma StripUpper(s: string)
    requires s != [] && !IsSpace(s[0]) && !IsSpace(s[|s| - 1])
    ensures Strip(Upper(s)) == Upper(s)
  {
    CaseKeepsSpace(s[0]);
    CaseKeepsSpace(s[|s| - 1]);
    StripBordered(Upper(s));
  }

  lemma LowerUpper(s: string)
    ensures Lower(Upper(s)) == Lower(s)
  {
    forall k | 0 <= k < |s| ensures Lower(Upper(s))[k] == Lower(s)[k] {
      LowerUpperChar(s[k]);
    }
  }

  lemma LowerUpperChar(c: char)
    ensures LowerChar(UpperChar(c)) == LowerChar(c)
  {
  }

  /** A section number with leading zeros selects the same section: `007` is section 7. */
  lemma ParseLeadingZero(s: string)
    requires IsDigits(s)
    ensures Parse("0" + s) == Parse(s)
  {
    var z := "0" + s;
    assert IsDigits(z) by {
      assert forall i :: 1 <= i < |z| ==> z[i] == s[i - 1];
    }
    DigitsPlain(s);
    DigitsPlain(z);
    LeadingZero(s);
  }

  /** A string of digits is left alone by `strip()` and `lower()` and is no keyword. */
  lemma DigitsPlain(s: string)
    requires IsDigits(s)
    ensures Lower(Strip(s)) == s
    ensures s != "quit" && s != "exit" && s != "all" && s != "toc"
  {
    StripPadded([], s, []);
    assert [] + s + [] == s;
    assert Lower(s) == s;
    assert s[0] != 'q' && s[0] != 'e' && s[0] != 'a' && s[0] != 't';
  }

  // ---------------------------------------------------------------------------
  // One turn of `while True`

  /** Events produced and input left over by a stretch of the program; `completed` is false when it met the end of input. */
  datatype Run = Run(events: seq<Event>, rest: seq<string>, completed: bool)

  function Prefixed(pre: seq<Event>, r: Run): Run {
    Run(pre + r.events, r.rest, r.completed)
  }

  lemma PrefixedTwice(a: seq<Event>, b: seq<Event>, r: Run)
    ensures Prefixed(a, Prefixed(b, r)) == Prefixed(a + b, r)
  {
    assert a + (b + r.events) == (a + b) + r.events;
  }

  /**
   * Sections `i` to 12 of the `all` choice: each runs through `run_example`,
   * and every section but the last is followed by `pause_for_user`, which
   * reads a line. A pause with no line left raises `EOFError`.
   */
  function AllFrom(last: nat, i: nat, failing: set<Demo>, input: seq<string>): (r: Run)
    requires 1 <= i <= last
    ensures |r.rest| <= |input|
    decreases last - i
  {
    var head := [Outcome(Section(i), Section(i) in failing)];
    if i == last then Run(head, input, true)
    else if input == [] then Run(head + [Pause], [], false)
    else Prefixed(head + [Pause], AllFrom(last, i + 1, failing, input[1..]))
  }

  /** Section `n` through `run_example`, then the demos section 1 and section 4 add. */
  function SectionRun(n: nat, failing: set<Demo>): seq<Event> {
    var main := [Outcome(Section(n), Section(n) in failing)];
    if n == 1 then main + [Outcome(Properties, Properties in failing), Outcome(Indexing, Indexing in failing)]
    else if n == 4 then main + [Outcome(UnpackingAdvanced, UnpackingAdvanced in failing)]
    else main
  }

  /** The events of one turn, the input it leaves, and whether the loop ends after it. */
  datatype Turn = Turn(events: seq<Event>, rest: seq<string>, stop: bool)

  /**
   * One turn of the loop, as the source writes it. `EOFError` is an
   * `Exception`, so reading past the end of input, for the choice or for a
   * pause, lands in the `except Exception` handler: the error is reported and
   * the loop goes round again.
   */
  function StepAsWritten(failing: set<Demo>, input: seq<string>): (t: Turn)
    ensures |t.rest| <= |input|
    ensures t.stop <==> input != [] && (Parse(input[0]) == Quit || (Parse(input[0]) == All && |input| >= LastSection))
    ensures Farewell in t.events <==> input != [] && Parse(input[0]) == Quit
    ensures EndOfInput !in t.events
    ensures !t.stop ==> t.rest == [] || t.rest == input[1..]
  {
    if input == [] then Turn([ErrorReported], [], false)
    else
      var rest := input[1..];
      match Parse(input[0])
      case Quit => Turn([Farewell], rest, true)
      case All =>
        var r := AllFrom(LastSection, 1, failing, rest);
        AllOrder(LastSection, 1, failing, rest);
        AllNoFarewell(LastSection, 1, failing, rest);
        if r.completed then Turn([AllHeader] + r.events, r.rest, true)
        else Turn([AllHeader] + r.events + [ErrorReported], [], false)
      case Number(n) =>
        if 1 <= n <= LastSection then Turn(SectionRun(n, failing) + [Completed(n)], rest, false)
        else Turn([InvalidSection], rest, false)
      case Toc => Turn([Contents], rest, false)
      case Invalid => Turn([InvalidChoice], rest, false)
  }

  /**
   * One turn with reading past the end of input ending the program instead:
   * every turn that does not end the loop consumes at least one line.
   */
  function Step(failing: set<Demo>, input: seq<string>): (t: Turn)
    ensures |t.rest| <= |input|
    ensures !t.stop ==> |t.rest| < |input|
  {
    if input == [] then Turn([EndOfInput], [], true)
    else
      var rest := input[1..];
      match Parse(input[0])
      case Quit => Turn([Farewell], rest, true)
      case All =>
        var r := AllFrom(LastSection, 1, failing, rest);
        if r.completed then Turn([AllHeader] + r.events, r.rest, true)
        else Turn([AllHeader] + r.events + [EndOfInput], [], true)
      case Number(n) =>
        if 1 <= n <= LastSection then Turn(SectionRun(n, failing) + [Completed(n)], rest, false)
        else Turn([InvalidSection], rest, false)
      case Toc => Turn([Contents], rest, false)
      case Invalid => Turn([InvalidChoice], rest, false)
  }

  /** The loop from one turn on, each turn as `Step` gives it. */
  function Session(failing: set<Demo>, input: seq<string>): (trace: seq<Event>)
    decreases |input|
  {
    var t := Step(failing, input);
    if t.stop then t.events else t.events + Session(failing, t.rest)
  }

  // ---------------------------------------------------------------------------
  // The loop as methods

  /** The `for section_num in sorted(sections.keys())` loop of the `all` choice. */
  method RunAll(failing: set<Demo>, input: seq<string>) returns (events: seq<Event>, rest: seq<string>, completed: bool)
    ensures Run(events, rest, completed) == AllFrom(LastSection, 1, failing, input)
  {
    events := [];
    rest := input;
    for n := 1 to LastSection + 1
      invariant n <= LastSection ==> Prefixed(events, AllFrom(LastSection, n, failing, rest)) == AllFrom(LastSection, 1, failing, input)
      invariant n == LastSection + 1 ==> Run(events, rest, true) == AllFrom(LastSection, 1, failing, input)
    {
      var head := [Outcome(Section(n), Section(n) in failing)];
      if n < LastSection {
        if rest == [] {
          return events + (head + [Pause]), [], false;
        }
        PrefixedTwice(events, head + [Pause], AllFrom(LastSection, n + 1, failing, rest[1..]));
        events := events + (head + [Pause]);
        rest := rest[1..];
      } else {
        events := events + head;
      }
    }
    completed := true;
  }

  /** The body of `while True`: read a choice and act on it. */
  method Iteration(failing: set<Demo>, input: seq<string>) returns (events: seq<Event>, rest: seq<string>, stop: bool)
    ensures Turn(events, rest, stop) == Step(failing, input)
  {
    if input == [] {
      return [EndOfInput], [], true;
    }
    var choice := Lower(Strip(input[0]));
    rest := input[1..];
    if choice == "quit" || choice == "exit" {
      return [Farewell], rest, true;
    } else if choice == "all" {
      var all, after, completed := RunAll(failing, rest);
      if completed {
        return [AllHeader] + all, after, true;
      }
      return [AllHeader] + all + [EndOfInput], [], true;
    } else if IsDigits(choice) {
      var n := DecimalValue(choice);
      if 1 <= n <= LastSection {
        events := SectionRun(n, failing) + [Completed(n)];
      } else {
        events := [InvalidSection];
      }
      return events, rest, false;
    } else if choice == "toc" {
      return [Contents], rest, false;
    }
    return [InvalidChoice], rest, false;
  }

  /** The `while True` loop: turn after turn until one ends it. */
  method TupleLoop(failing: set<Demo>, input: seq<string>) returns (trace: seq<Event>)
    ensures trace == Session(failing, input)
  {
    trace := [];
    var rest := input;
    while true
      invariant trace + Session(failing, rest) == Session(failing, input)
      decreases |rest|
    {
      var events, after, stop := Iteration(failing, rest);
      if stop {
        return trace + events;
      }
      Associative(trace, events, Session(failing, after));
      trace := trace + events;
      rest := after;
    }
  }

  /** `main`: the table of contents, then the loop. */
  method RunGuide(failing: set<Demo>, input: seq<string>) returns (trace: seq<Event>)
    ensures trace == [Contents] + Session(failing, input)
  {
    var session := TupleLoop(failing, input);
    trace := [Contents] + session;
  }

  // ---------------------------------------------------------------------------
  // What each choice does

  /** A line that normalises to `quit` or `exit` ends the session with the farewell. */
  lemma SessionQuit(failing: set<Demo>, input: seq<string>)
    requires input != []
    requires Lower(Strip(input[0])) == "quit" || Lower(Strip(input[0])) == "exit"
    ensures Session(failing, input) == [Farewell]
  {
  }

  /**
   * A number from 1 to 12 runs that section through `run_example`, then the
   * extra demos of sections 1 and 4, announces completion, and the loop goes
   * on with the next line, whichever demos raised.
   */
  lemma SessionNumber(failing: set<Demo>, input: seq<string>, n: nat)
    requires input != [] && Parse(input[0]) == Number(n)
    requires 1 <= n <= LastSection
    ensures Session(failing, input) == SectionRun(n, failing) + [Completed(n)] + Session(failing, input[1..])
    ensures Demos(SectionRun(n, failing))
         == [Section(n)] + (if n == 1 then [Properties, Indexing] else if n == 4 then [UnpackingAdvanced] else [])
  {
    SectionRunDemos(n, failing);
  }

  /** The demos one section number runs: the section, then the extra ones of sections 1 and 4. */
  lemma SectionRunDemos(n: nat, failing: set<Demo>)
    ensures Demos(SectionRun(n, failing))
         == [Section(n)] + (if n == 1 then [Properties, Indexing] else if n == 4 then [UnpackingAdvanced] else [])
  {
    var main := [Outcome(Section(n), Section(n) in failing)];
    if n == 1 {
      DemosConcat(main, [Outcome(Properties, Properties in failing), Outcome(Indexing, Indexing in failing)]);
    } else if n == 4 {
      DemosConcat(main, [Outcome(UnpackingAdvanced, UnpackingAdvanced in failing)]);
    }
  }

  /** A number outside 1 to 12, such as `0`, is reported and the loop goes on. */
  lemma SessionOutOfRange(failing: set<Demo>, input: seq<string>, n: nat)
    requires input != [] && Parse(input[0]) == Number(n)
    requires n == 0 || n > LastSection
    ensures Session(failing, input) == [InvalidSection] + Session(failing, input[1..])
  {
  }

  /** `toc` shows the contents again and the loop goes on. */
  lemma SessionToc(failing: set<Demo>, input: seq<string>)
    requires input != [] && Lower(Strip(input[0])) == "toc"
    ensures Session(failing, input) == [Contents] + Session(failing, input[1..])
  {
  }

  /** A line that is no command, the empty line included, is reported and the loop goes on. */
  lemma SessionInvalid(failing: set<Demo>, input: seq<string>)
    requires input != []
    requires Lower(Strip(input[0])) !in {"quit", "exit", "all", "toc"}
    requires !IsDigits(Lower(Strip(input[0])))
    ensures Session(failing, input) == [InvalidChoice] + Session(failing, input[1..])
  {
  }

  /** Only `quit` and `exit` say goodbye: no other turn prints the farewell. */
  lemma StepFarewell(failing: set<Demo>, input: seq<string>)
    ensures Farewell in Step(failing, input).events <==>
      input != [] && (Lower(Strip(input[0])) == "quit" || Lower(Strip(input[0])) == "exit")
  {
    if input != [] && Parse(input[0]) == All {
      var r := AllFrom(LastSection, 1, failing, input[1..]);
      AllNoFarewell(LastSection, 1, failing, input[1..]);
      assert Farewell !in [AllHeader];
      assert Farewell !in [EndOfInput];
    } else if input != [] && Parse(input[0]).Number? {
      var n := Parse(input[0]).n;
      assert Farewell !in SectionRun(n, failing);
    }
  }

  /** The `all` choice never prints the farewell, and meets the end of input only as a failed pause. */
  lemma {:induction false} AllNoFarewell(last: nat, i: nat, failing: set<Demo>, input: seq<string>)
    requires 1 <= i <= last
    ensures Farewell !in AllFrom(last, i, failing, input).events
    ensures EndOfInput !in AllFrom(last, i, failing, input).events
    decreases last - i
  {
    if i < last && input != [] {
      AllNoFarewell(last, i + 1, failing, input[1..]);
    }
  }

  // ---------------------------------------------------------------------------
  // The `all` choice

  /** The demos `run_example` ran, in order, as the events record them. */
  function Demos(events: seq<Event>): (ds: seq<Demo>)
    ensures |ds| <= |events|
  {
    if events == [] then []
    else (if events[0].Outcome? then [events[0].demo] else []) + Demos(events[1..])
  }

  lemma {:induction false} DemosConcat(a: seq<Event>, b: seq<Event>)
    ensures Demos(a + b) == Demos(a) + Demos(b)
  {
    if a == [] {
      assert a + b == b;
    } else {
      assert (a + b)[0] == a[0] && (a + b)[1..] == a[1..] + b;
      DemosConcat(a[1..], b);
    }
  }

  /** The numbered sections `lo` to `hi - 1`, as demos. */
  function Sections(lo: nat, hi: nat): (ds: seq<Demo>)
    ensures |ds| == if lo < hi then hi - lo else 0
    decreases hi - lo
  {
    if lo < hi then [Section(lo)] + Sections(lo + 1, hi) else []
  }

  /**
   * The `all` choice from section `i` runs the sections in ascending order,
   * each once, reading one line per pause: with enough lines all of them up to
   * the last, and otherwise up to the section whose pause finds no line left.
   */
  lemma AllOrder(last: nat, i: nat, failing: set<Demo>, input: seq<string>)
    requires 1 <= i <= last
    ensures AllFrom(last, i, failing, input).completed <==> |input| >= last - i
    ensures Demos(AllFrom(last, i, failing, input).events) == Sections(i, Reached(last, i, input) + 1)
    ensures AllFrom(last, i, failing, input).rest == input[Reached(last, i, input) - i..]
  {
    AllCompleted(last, i, failing, input);
    AllDemos(last, i, failing, input);
    AllRest(last, i, failing, input);
  }

  lemma {:induction false} AllCompleted(last: nat, i: nat, failing: set<Demo>, input: seq<string>)
    requires 1 <= i <= last
    ensures AllFrom(last, i, failing, input).completed <==> |input| >= last - i
    decreases last - i
  {
    if i < last && input != [] {
      AllCompleted(last, i + 1, failing, input[1..]);
    }
  }

  lemma {:induction false} AllRest(last: nat, i: nat, failing: set<Demo>, input: seq<string>)
    requires 1 <= i <= last
    ensures AllFrom(last, i, failing, input).rest == input[Reached(last, i, input) - i..]
    decreases last - i
  {
    if i < last && input != [] {
      var k := Reached(last, i, input);
      assert Reached(last, i + 1, input[1..]) == k;
      AllRest(last, i + 1, failing, input[1..]);
      assert input[1..][k - (i + 1)..] == input[k - i..];
    }
  }

  lemma {:induction false} AllDemos(last: nat, i: nat, failing: set<Demo>, input: seq<string>)
    requires 1 <= i <= last
    ensures Demos(AllFrom(last, i, failing, input).events) == Sections(i, Reached(last, i, input) + 1)
    decreases last - i
  {
    var k := Reached(last, i, input);
    var head := [Outcome(Section(i), Section(i) in failing)];
    DemosHead(i, Section(i) in failing);
    if i < last && input != [] {
      var next := AllFrom(last, i + 1, failing, input[1..]);
      AllFromStep(last, i, failing, input);
      assert Reached(last, i + 1, input[1..]) == k;
      AllDemos(last, i + 1, failing, input[1..]);
      DemosConcat(head + [Pause], next.events);
      assert Sections(i, k + 1) == [Section(i)] + Sections(i + 1, k + 1);
    } else {
      assert k == i;
      assert Sections(i, k + 1) == [Section(i)] + Sections(i + 1, k + 1);
      assert Sections(i + 1, k + 1) == [];
    }
  }

  /** A section answered by a pause, then the sections after it. */
  lemma AllFromStep(last: nat, i: nat, failing: set<Demo>, input: seq<string>)
    requires 1 <= i < last && input != []
    ensures AllFrom(last, i, failing, input)
         == Prefixed([Outcome(Section(i), Section(i) in failing)] + [Pause], AllFrom(last, i + 1, failing, input[1..]))
  {
  }

  /** One section of the `all` choice, with or without the pause after it, records that section alone. */
  lemma DemosHead(i: nat, raised: bool)
    ensures Demos([Outcome(Section(i), raised)]) == [Section(i)]
    ensures Demos([Outcome(Section(i), raised)] + [Pause]) == [Section(i)]
  {
    DemosConcat([Outcome(Section(i), raised)], [Pause]);
  }

  /** A completed run ends with its last section. */
  lemma {:induction false} AllEndsWithLast(last: nat, i: nat, failing: set<Demo>, input: seq<string>)
    requires 1 <= i <= last
    requires AllFrom(last, i, failing, input).completed
    ensures |AllFrom(last, i, failing, input).events| >= 1
    ensures AllFrom(last, i, failing, input).events[|AllFrom(last, i, failing, input).events| - 1]
         == Outcome(Section(last), Section(last) in failing)
    decreases last - i
  {
    if i < last {
      AllEndsWithLast(last, i + 1, failing, input[1..]);
    }
  }

  /**
   * `all` runs sections 1 to 12 once each, in ascending order, and leaves the
   * loop. The eleven pauses read one line each; with fewer lines the session
   * ends at the section whose pause meets the end of input.
   */
  lemma SessionAll(failing: set<Demo>, input: seq<string>)
    requires input != [] && Lower(Strip(input[0])) == "all"
    ensures Demos(Session(failing, input)) == Sections(1, Reached(LastSection, 1, input[1..]) + 1)
    ensures |Session(failing, input)| >= 2 && Session(failing, input)[0] == AllHeader
    ensures Session(failing, input)[|Session(failing, input)| - 1]
         == if |input| >= LastSection then Outcome(Section(LastSection), Section(LastSection) in failing) else EndOfInput
  {
    var r := AllFrom(LastSection, 1, failing, input[1..]);
    var tail: seq<Event> := if r.completed then [] else [EndOfInput];
    SessionAllTrace(failing, input);
    AllOrder(LastSection, 1, failing, input[1..]);
    AllTraceEnds(r, tail);
    if r.completed {
      AllEndsWithLast(LastSection, 1, failing, input[1..]);
    }
  }

  /** The `all` turn is the header, the sections, and the end of input if a pause met it. */
  lemma SessionAllTrace(failing: set<Demo>, input: seq<string>)
    requires input != [] && Parse(input[0]) == All
    ensures Session(failing, input)
         == [AllHeader] + AllFrom(LastSection, 1, failing, input[1..]).events
            + (if AllFrom(LastSection, 1, failing, input[1..]).completed then [] else [EndOfInput])
  {
    SessionAllTurn(failing, input);
  }

  /** What the header and the optional end of input add around a run of sections. */
  lemma AllTraceEnds(r: Run, tail: seq<Event>)
    requires r.events != [] && tail == (if r.completed then [] else [EndOfInput])
    ensures Demos([AllHeader] + r.events + tail) == Demos(r.events)
    ensures ([AllHeader] + r.events + tail)[0] == AllHeader
    ensures |[AllHeader] + r.events + tail| >= 2
    ensures ([AllHeader] + r.events + tail)[|[AllHeader] + r.events + tail| - 1]
         == if r.completed then r.events[|r.events| - 1] else EndOfInput
  {
    DemosConcat([AllHeader], r.events);
    DemosConcat([AllHeader] + r.events, tail);
    if r.completed {
      assert tail == [];
    }
  }

  // ---------------------------------------------------------------------------
  // Failures are isolated

  /** An event with the outcome of its demo forgotten. */
  function EraseOne(e: Event): Event {
    if e.Outcome? then Outcome(e.demo, false) else e
  }

  /** The events with every outcome's `raised` flag forgotten. */
  function Erase(events: seq<Event>): (r: seq<Event>)
    ensures |r| == |events|
    ensures forall k :: 0 <= k < |events| ==> r[k] == EraseOne(events[k])
  {
    if events == [] then [] else [EraseOne(events[0])] + Erase(events[1..])
  }

  lemma EraseConcat(a: seq<Event>, b: seq<Event>)
    ensures Erase(a + b) == Erase(a) + Erase(b)
  {
  }

  /** Which sections of an `all` run raise changes only their reports. */
  lemma {:induction false} AllIsolated(last: nat, i: nat, f: set<Demo>, g: set<Demo>, input: seq<string>)
    requires 1 <= i <= last
    ensures Erase(AllFrom(last, i, f, input).events) == Erase(AllFrom(last, i, g, input).events)
    ensures AllFrom(last, i, f, input).rest == AllFrom(last, i, g, input).rest
    ensures AllFrom(last, i, f, input).completed == AllFrom(last, i, g, input).completed
    decreases last - i
  {
    EraseHead(i, Section(i) in f);
    EraseHead(i, Section(i) in g);
    if i < last && input != [] {
      var hf := [Outcome(Section(i), Section(i) in f)] + [Pause];
      var hg := [Outcome(Section(i), Section(i) in g)] + [Pause];
      var nf := AllFrom(last, i + 1, f, input[1..]);
      var ng := AllFrom(last, i + 1, g, input[1..]);
      AllFromStep(last, i, f, input);
      AllFromStep(last, i, g, input);
      AllIsolated(last, i + 1, f, g, input[1..]);
      assert Erase(hf + nf.events) == Erase(hg + ng.events) by {
        EraseConcat(hf, nf.events);
        EraseConcat(hg, ng.events);
      }
    }
  }

  /** One section of the `all` choice, with its outcome forgotten. */
  lemma EraseHead(i: nat, raised: bool)
    ensures Erase([Outcome(Section(i), raised)]) == [Outcome(Section(i), false)]
    ensures Erase([Outcome(Section(i), raised)] + [Pause]) == [Outcome(Section(i), false), Pause]
  {
    EraseConcat([Outcome(Section(i), raised)], [Pause]);
  }

  /** Which demos raise changes only their reports, never what a turn reads or whether the loop ends. */
  lemma StepIsolated(f: set<Demo>, g: set<Demo>, input: seq<string>)
    ensures Erase(Step(f, input).events) == Erase(Step(g, input).events)
    ensures Step(f, input).rest == Step(g, input).rest
    ensures Step(f, input).stop == Step(g, input).stop
  {
    if input != [] && Parse(input[0]) == All {
      AllTurnIsolated(f, g, input);
    } else if input != [] && Parse(input[0]).Number? && 1 <= Parse(input[0]).n <= LastSection {
      var n := Parse(input[0]).n;
      assert Step(f, input).events == SectionRun(n, f) + [Completed(n)];
      assert Step(g, input).events == SectionRun(n, g) + [Completed(n)];
      SectionIsolated(n, f, g);
    }
  }

  /** The `all` turn reads the same lines and ends the same way whichever sections raise. */
  lemma AllTurnIsolated(f: set<Demo>, g: set<Demo>, input: seq<string>)
    requires input != [] && Parse(input[0]) == All
    ensures Erase(Step(f, input).events) == Erase(Step(g, input).events)
    ensures Step(f, input).rest == Step(g, input).rest
    ensures Step(f, input).stop == Step(g, input).stop
  {
    var rf := AllFrom(LastSection, 1, f, input[1..]);
    var rg := AllFrom(LastSection, 1, g, input[1..]);
    var tail: seq<Event> := if rf.completed then [] else [EndOfInput];
    AllIsolated(LastSection, 1, f, g, input[1..]);
    SessionAllTurn(f, input);
    SessionAllTurn(g, input);
    EraseConcat([AllHeader], rf.events);
    EraseConcat([AllHeader], rg.events);
    EraseConcat([AllHeader] + rf.events, tail);
    EraseConcat([AllHeader] + rg.events, tail);
  }

  /** The `all` turn as one trace: header, sections, and the end of input if a pause met it. */
  lemma SessionAllTurn(failing: set<Demo>, input: seq<string>)
    requires input != [] && Parse(input[0]) == All
    ensures Step(failing, input).events
         == [AllHeader] + AllFrom(LastSection, 1, failing, input[1..]).events
            + (if AllFrom(LastSection, 1, failing, input[1..]).completed then [] else [EndOfInput])
    ensures Step(failing, input).stop
    ensures Step(failing, input).rest
         == if AllFrom(LastSection, 1, failing, input[1..]).completed then AllFrom(LastSection, 1, failing, input[1..]).rest else []
  {
    var r := AllFrom(LastSection, 1, failing, input[1..]);
    if r.completed {
      assert [AllHeader] + r.events + [] == [AllHeader] + r.events;
    }
  }

  /** A numbered section and its extras report differently but run the same demos. */
  lemma SectionIsolated(n: nat, f: set<Demo>, g: set<Demo>)
    ensures Erase(SectionRun(n, f) + [Completed(n)]) == Erase(SectionRun(n, g) + [Completed(n)])
  {
    EraseConcat(SectionRun(n, f), [Completed(n)]);
    EraseConcat(SectionRun(n, g), [Completed(n)]);
    assert Erase(SectionRun(n, f)) == Erase(SectionRun(n, g));
  }

  /**
   * `run_example` catches every exception a demo raises, so which demos fail
   * changes only the error reports: the session reads the same lines, runs
   * the same demos in the same order, and ends in the same way.
   */
  lemma {:induction false} FailuresIsolated(f: set<Demo>, g: set<Demo>, input: seq<string>)
    ensures Erase(Session(f, input)) == Erase(Session(g, input))
    decreases |input|
  {
    StepIsolated(f, g, input);
    var tf := Step(f, input);
    var tg := Step(g, input);
    if !tf.stop {
      FailuresIsolated(f, g, tf.rest);
      EraseConcat(tf.events, Session(f, tf.rest));
      EraseConcat(tg.events, Session(g, tg.rest));
    }
  }

  // ---------------------------------------------------------------------------
  // Running out of input

  /** The turns of the loop as the source writes it, for at most `turns` rounds. */
  function SessionAsWritten(failing: set<Demo>, input: seq<string>, turns: nat): (trace: seq<Event>)
    ensures EndOfInput !in trace
    ensures Farewell in trace ==> trace[|trace| - 1] == Farewell
    decreases turns
  {
    if turns == 0 then []
    else
      var t := StepAsWritten(failing, input);
      if t.stop then t.events else t.events + SessionAsWritten(failing, t.rest, turns - 1)
  }

  /** `n` copies of the error report. */
  function Reports(n: nat): (r: seq<Event>)
    ensures |r| == n
    ensures forall k :: 0 <= k < n ==> r[k] == ErrorReported
  {
    if n == 0 then [] else [ErrorReported] + Reports(n - 1)
  }

  /**
   * As written, a turn with no input left reports the `EOFError`, reads
   * nothing and does not stop: the same turn comes round forever. However
   * many turns are taken, the session never ends and only repeats the report.
   */
  lemma {:induction false} AsWrittenNeverEnds(failing: set<Demo>, turns: nat)
    ensures SessionAsWritten(failing, [], turns) == Reports(turns)
    ensures Farewell !in SessionAsWritten(failing, [], turns)
    ensures EndOfInput !in SessionAsWritten(failing, [], turns)
  {
    if turns > 0 {
      AsWrittenNeverEnds(failing, turns - 1);
    }
  }

  /** An `all` run whose pauses meet the end of input falls into the same endless turn. */
  lemma AllAsWrittenNeverEnds(failing: set<Demo>, input: seq<string>)
    requires input != [] && Lower(Strip(input[0])) == "all"
    requires |input| < LastSection
    ensures StepAsWritten(failing, input).rest == [] && !StepAsWritten(failing, input).stop
  {
    AllOrder(LastSection, 1, failing, input[1..]);
  }

  /**
   * The correction changes nothing in a session that never meets the end of
   * input: given a turn more than there are lines, the loop as written
   * produces the same trace.
   */
  lemma {:induction false} SessionAgrees(failing: set<Demo>, input: seq<string>, turns: nat)
    requires EndOfInput !in Session(failing, input)
    requires turns > |input|
    ensures SessionAsWritten(failing, input, turns) == Session(failing, input)
    decreases |input|
  {
    var t := Step(failing, input);
    assert Session(failing, input) == if t.stop then t.events else t.events + Session(failing, t.rest);
    assert EndOfInput !in t.events;
    StepAgrees(failing, input);
    assert SessionAsWritten(failing, input, turns)
        == if t.stop then t.events else t.events + SessionAsWritten(failing, t.rest, turns - 1);
    if !t.stop {
      assert EndOfInput !in Session(failing, t.rest);
      SessionAgrees(failing, t.rest, turns - 1);
    }
  }

  /** With the correction, running out of input ends the session at once. */
  lemma SessionNoInput(failing: set<Demo>)
    ensures Session(failing, []) == [EndOfInput]
  {
  }

  /** The correction changes nothing in a turn that does not meet the end of input. */
  lemma StepAgrees(failing: set<Demo>, input: seq<string>)
    requires EndOfInput !in Step(failing, input).events
    ensures StepAsWritten(failing, input) == Step(failing, input)
  {
  }
}
