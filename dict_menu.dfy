/**
 * The interactive menu of the dictionary guide: a fixed, ordered registry of
 * fourteen entries, a loop that reads a choice, selects the first entry whose
 * key matches it case-insensitively, and then quits, runs the entry's action
 * or reports an invalid choice. Every action runs through `run_example`,
 * which reports an exception instead of letting it end the program.
 *
 * Operator input is a sequence of lines; each `input()` consumes one line,
 * and reading past the last line raises `EOFError`. Output is a trace of
 * events. Each demonstration section is an opaque id; `failing` is the set
 * of sections that raise when run.
 */
module DictionaryMenu {
  import opened Common
  import opened Text

  datatype Action = Section(n: nat) | RunAll | ShowToc

  /** A registry entry: key, title and the function to run (`None` for Quit). */
  datatype Entry = Entry(key: string, title: string, action: Option<Action>)

  datatype Event =
    | Contents                                         // the table of contents
    | Menu                                             // the main menu
    | InvalidChoice                                    // "Invalid choice. Please try again."
    | Running(title: string)                           // "Running: <title>"
    | AllHeader                                        // the "RUNNING ALL SECTIONS" banner
    | SectionStart(index: nat, total: nat, title: string)  // "Running Section i/n: <title>"
    | Outcome(action: Action, raised: bool)            // one `run_example` call; `raised` prints "Error running example"
    | Pause                                            // "Press Enter to continue to the next section..."
    | Farewell                                         // "Thank you for using the Python Dictionaries Guide!"
    | EndOfInput                                       // `input()` raised `EOFError`, ending the program

  /** The section titles, in the order of the menu and of `run_all_sections`. */
  function SectionTitles(): seq<string> {
    ["Dictionary Basics", "Creation Methods", "Basic Operations", "Dictionary Methods",
     "Dictionary Comprehensions", "Iteration Techniques", "Advanced Techniques",
     "Nested Dictionaries", "Real-World Examples", "Quick Reference", "Common Pitfalls"]
  }

  const SectionCount := 11

  /** The registry `show_menu` returns. */
  function MenuItems(): seq<Entry> {
    [Entry("1", "Dictionary Basics", Some(Section(1))),
     Entry("2", "Creation Methods", Some(Section(2))),
     Entry("3", "Basic Operations", Some(Section(3))),
     Entry("4", "Dictionary Methods", Some(Section(4))),
     Entry("5", "Dictionary Comprehensions", Some(Section(5))),
     Entry("6", "Iteration Techniques", Some(Section(6))),
     Entry("7", "Advanced Techniques", Some(Section(7))),
     Entry("8", "Nested Dictionaries", Some(Section(8))),
     Entry("9", "Real-World Examples", Some(Section(9))),
     Entry("10", "Quick Reference", Some(Section(10))),
     Entry("11", "Common Pitfalls", Some(Section(11))),
     Entry("A", "All Sections", Some(RunAll)),
     Entry("T", "Table of Contents", Some(ShowToc)),
     Entry("Q", "Quit", None)]
  }

  // ---------------------------------------------------------------------------
  // Selection

  /** The index of the first entry whose upper-cased key equals `choice`. */
  function FirstMatch(menu: seq<Entry>, choice: string): (r: Option<nat>)
    ensures r.Some? ==> r.value < |menu|
  {
    if menu == [] then None
    else if Upper(menu[0].key) == choice then Some(0)
    else match FirstMatch(menu[1..], choice)
      case None => None
      case Some(i) => Some(i + 1)
  }

  /** The selected entry matches the choice and no earlier one does; with no selection, none matches. */
  lemma {:induction false} FirstMatchSpec(menu: seq<Entry>, choice: string)
    ensures FirstMatch(menu, choice).Some? ==>
      Upper(menu[FirstMatch(menu, choice).value].key) == choice &&
      forall j :: 0 <= j < FirstMatch(menu, choice).value ==> Upper(menu[j].key) != choice
    ensures FirstMatch(menu, choice).None? ==> forall j :: 0 <= j < |menu| ==> Upper(menu[j].key) != choice
  {
    if menu != [] && Upper(menu[0].key) != choice {
      FirstMatchSpec(menu[1..], choice);
    }
  }

  /** The `for ... if key.upper() == choice: ... break` search. */
  method FindSelected(menu: seq<Entry>, choice: string) returns (r: Option<nat>)
    ensures r == FirstMatch(menu, choice)
  {
    r := None;
    for i := 0 to |menu|
      invariant forall j :: 0 <= j < i ==> Upper(menu[j].key) != choice
    {
      if Upper(menu[i].key) == choice {
        r := Some(i);
        break;
      }
    }
    FirstMatchUnique(menu, choice, r);
  }

  /** `FirstMatch` is the only answer meeting its own description. */
  lemma {:induction false} FirstMatchUnique(menu: seq<Entry>, choice: string, r: Option<nat>)
    requires r.Some? ==> r.value < |menu| && Upper(menu[r.value].key) == choice
    requires r.Some? ==> forall j :: 0 <= j < r.value ==> Upper(menu[j].key) != choice
    requires r.None? ==> forall j :: 0 <= j < |menu| ==> Upper(menu[j].key) != choice
    ensures r == FirstMatch(menu, choice)
  {
    FirstMatchSpec(menu, choice);
  }

  // ---------------------------------------------------------------------------
  // run_example and run_all_sections

  /** Events produced and input left over by one piece of the program; `completed` is false when it raised `EOFError`. */
  datatype Run = Run(events: seq<Event>, rest: seq<string>, completed: bool)

  function Prefixed(pre: seq<Event>, r: Run): Run {
    Run(pre + r.events, r.rest, r.completed)
  }

  lemma PrefixedTwice(a: seq<Event>, b: seq<Event>, r: Run)
    ensures Prefixed(a, Prefixed(b, r)) == Prefixed(a + b, r)
  {
    assert a + (b + r.events) == (a + b) + r.events;
  }

  /**
   * Sections `i` onwards of `run_all_sections` over the list `sections`:
   * announce ("Section i/n"), run through `run_example`, and pause (reading a
   * line) after every section but the last. A pause with no line left
   * raises, ending the loop.
   */
  function RunAllFrom(sections: seq<string>, i: nat, failing: set<nat>, input: seq<string>): (r: Run)
    requires 1 <= i <= |sections|
    ensures |r.rest| <= |input| && r.rest == input[|input| - |r.rest|..]
    decreases |sections| - i
  {
    var head := [SectionStart(i, |sections|, sections[i - 1]), Outcome(Section(i), i in failing)];
    if i == |sections| then Run(head, input, true)
    else if input == [] then Run(head + [Pause], [], false)
    else Prefixed(head + [Pause], RunAllFrom(sections, i + 1, failing, input[1..]))
  }

  /** `run_example(func)` for the action of a menu entry. */
  function Perform(a: Action, failing: set<nat>, input: seq<string>): (r: Run)
    ensures |r.rest| <= |input|
  {
    match a
    case Section(n) => Run([Outcome(a, n in failing)], input, true)
    case ShowToc => Run([Contents, Outcome(a, false)], input, true)
    case RunAll =>
      var all := RunAllFrom(SectionTitles(), 1, failing, input);
      Run([AllHeader] + all.events + [Outcome(a, !all.completed)], all.rest, true)
  }

  /** `run_all_sections`, as the source's counted loop over its section list. */
  method RunAllSections(failing: set<nat>, input: seq<string>) returns (events: seq<Event>, rest: seq<string>, completed: bool)
    ensures Run(events, rest, completed) == Prefixed([AllHeader], RunAllFrom(SectionTitles(), 1, failing, input))
  {
    var sections := SectionTitles();
    events := [AllHeader];
    rest := input;
    for i := 1 to |sections| + 1
      invariant i <= |sections| ==>
        Prefixed(events, RunAllFrom(sections, i, failing, rest)) == Prefixed([AllHeader], RunAllFrom(sections, 1, failing, input))
      invariant i == |sections| + 1 ==>
        Run(events, rest, true) == Prefixed([AllHeader], RunAllFrom(sections, 1, failing, input))
    {
      var head := [SectionStart(i, |sections|, sections[i - 1]), Outcome(Section(i), i in failing)];
      if i < |sections| {
        if rest == [] {
          return events + (head + [Pause]), [], false;
        }
        PrefixedTwice(events, head + [Pause], RunAllFrom(sections, i + 1, failing, rest[1..]));
        events := events + (head + [Pause]);
        rest := rest[1..];
      } else {
        events := events + head;
      }
    }
    completed := true;
  }

  /** `run_example` applied to a menu action. */
  method RunExample(a: Action, failing: set<nat>, input: seq<string>) returns (events: seq<Event>, rest: seq<string>)
    ensures Run(events, rest, true) == Perform(a, failing, input)
  {
    match a
    case Section(n) =>
      events, rest := [Outcome(a, n in failing)], input;
    case ShowToc =>
      events, rest := [Contents, Outcome(a, false)], input;
    case RunAll =>
      var completed;
      events, rest, completed := RunAllSections(failing, input);
      events := events + [Outcome(a, !completed)];
  }

  // ---------------------------------------------------------------------------
  // main

  /**
   * The main loop from one menu display on, over the registry `menu`: show
   * the menu, read a choice (`strip().upper()`) and select the first entry
   * whose key matches it, or report an invalid choice.
   */
  function Loop(menu: seq<Entry>, failing: set<nat>, input: seq<string>): (trace: seq<Event>)
    ensures |trace| >= 2 && trace[0] == Menu
    ensures Final(trace[|trace| - 1])
    decreases |input|, 1
  {
    if input == [] then [Menu, EndOfInput]
    else
      match FirstMatch(menu, Upper(Strip(input[0])))
      case None => [Menu, InvalidChoice] + Loop(menu, failing, input[1..])
      case Some(i) => [Menu] + Selected(menu, failing, menu[i], input[1..])
  }

  /**
   * The rest of a turn once entry `e` is selected: say goodbye for `Q`, do
   * nothing for another entry without an action, or announce and run the
   * action, then ask whether to go on.
   */
  function Selected(menu: seq<Entry>, failing: set<nat>, e: Entry, input: seq<string>): (trace: seq<Event>)
    ensures trace != [] && Final(trace[|trace| - 1])
    ensures Upper(e.key) == "Q" <==> trace == [Farewell]
    decreases |input| + 1, 0
  {
    if Upper(e.key) == "Q" then [Farewell]
    else if e.action.None? then Loop(menu, failing, input)
    else
      var r := Perform(e.action.value, failing, input);
      [Running(e.title)] + r.events + AfterRun(menu, failing, r.rest)
  }

  /** What follows an action: the prompt reads a line, and anything but `q` goes back to the menu. */
  function AfterRun(menu: seq<Entry>, failing: set<nat>, rest: seq<string>): (trace: seq<Event>)
    ensures trace != [] && Final(trace[|trace| - 1])
    ensures trace[0] == Menu <==> rest != [] && Lower(Strip(rest[0])) != "q"
    decreases |rest|, 2
  {
    if rest == [] then [EndOfInput]
    else if Lower(Strip(rest[0])) == "q" then [Farewell]
    else Loop(menu, failing, rest[1..])
  }

  /** The `while True` loop of `main`, over the registry `menu` that `show_menu` returns on every turn. */
  method MenuLoop(menu: seq<Entry>, failing: set<nat>, input: seq<string>) returns (trace: seq<Event>)
    ensures trace == Loop(menu, failing, input)
  {
    trace := [];
    var rest := input;
    while true
      invariant trace + Loop(menu, failing, rest) == Loop(menu, failing, input)
      decreases |rest|
    {
      if rest == [] {
        return trace + [Menu, EndOfInput];
      }
      var choice := Upper(Strip(rest[0]));
      var selected := FindSelected(menu, choice);
      if selected.None? {
        LoopNoMatch(menu, failing, rest);
        Associative(trace, [Menu, InvalidChoice], Loop(menu, failing, rest[1..]));
        trace := trace + [Menu, InvalidChoice];
        rest := rest[1..];
        continue;
      }
      var entry := menu[selected.value];
      LoopSelects(menu, failing, rest, selected.value);
      if Upper(entry.key) == "Q" {
        assert [Menu] + [Farewell] == [Menu, Farewell];
        return trace + [Menu, Farewell];
      }
      if entry.action.None? {
        Associative(trace, [Menu], Loop(menu, failing, rest[1..]));
        trace := trace + [Menu];
        rest := rest[1..];
        continue;
      }
      var events, after := RunExample(entry.action.value, failing, rest[1..]);
      var head := [Running(entry.title)] + events;
      assert Selected(menu, failing, entry, rest[1..]) == head + AfterRun(menu, failing, after);
      Associative([Menu], head, AfterRun(menu, failing, after));
      Associative(trace, [Menu] + head, AfterRun(menu, failing, after));
      if after == [] {
        return trace + ([Menu] + head) + [EndOfInput];
      }
      if Lower(Strip(after[0])) == "q" {
        return trace + ([Menu] + head) + [Farewell];
      }
      trace := trace + ([Menu] + head);
      rest := after[1..];
    }
  }

  /** `main`: the table of contents, then the menu loop over the guide's registry. */
  method RunGuide(failing: set<nat>, input: seq<string>) returns (trace: seq<Event>)
    ensures trace == [Contents] + Loop(MenuItems(), failing, input)
  {
    var session := MenuLoop(MenuItems(), failing, input);
    trace := [Contents] + session;
  }

  // ---------------------------------------------------------------------------
  // One turn of the loop, for any registry

  /** A choice that selects a `Q` entry ends the session at once. */
  lemma LoopQuit(menu: seq<Entry>, failing: set<nat>, input: seq<string>, i: nat)
    requires input != [] && FirstMatch(menu, Upper(Strip(input[0]))) == Some(i)
    requires Upper(menu[i].key) == "Q"
    ensures Loop(menu, failing, input) == [Menu, Farewell]
  {
    LoopSelects(menu, failing, input, i);
  }

  /** `line` selects entry `i`, which is not `Q` and runs section `n`. */
  predicate SelectsSection(menu: seq<Entry>, line: string, i: nat, n: nat) {
    FirstMatch(menu, Upper(Strip(line))) == Some(i) && Upper(menu[i].key) != "Q" && menu[i].action == Some(Section(n))
  }

  /**
   * A choice that selects a section runs it once through `run_example`, and
   * an answer other than `q` to the "return to menu" prompt goes back to the
   * loop with the remaining input.
   */
  lemma LoopSection(menu: seq<Entry>, failing: set<nat>, input: seq<string>, i: nat, n: nat)
    requires |input| >= 2
    requires SelectsSection(menu, input[0], i, n)
    requires Lower(Strip(input[1])) != "q"
    ensures Loop(menu, failing, input)
         == [Menu, Running(menu[i].title), Outcome(Section(n), n in failing)] + Loop(menu, failing, input[2..])
  {
    var events := [Running(menu[i].title), Outcome(Section(n), n in failing)];
    LoopSelects(menu, failing, input, i);
    assert input[1..][1..] == input[2..];
    SelectedSection(menu, failing, menu[i], n, input[1..]);
    Associative([Menu], events, Loop(menu, failing, input[2..]));
    assert [Menu] + events == [Menu, Running(menu[i].title), Outcome(Section(n), n in failing)];
  }

  /** A selected section entry: announce, run the section, and go back to the menu on any answer but `q`. */
  lemma SelectedSection(menu: seq<Entry>, failing: set<nat>, e: Entry, n: nat, after: seq<string>)
    requires Upper(e.key) != "Q" && e.action == Some(Section(n))
    requires after != [] && Lower(Strip(after[0])) != "q"
    ensures Selected(menu, failing, e, after)
         == [Running(e.title), Outcome(Section(n), n in failing)] + Loop(menu, failing, after[1..])
  {
    assert [Running(e.title)] + [Outcome(Section(n), n in failing)] == [Running(e.title), Outcome(Section(n), n in failing)];
  }

  /** A choice that selects no entry is reported and the loop reads the next line. */
  lemma LoopNoMatch(menu: seq<Entry>, failing: set<nat>, input: seq<string>)
    requires input != [] && FirstMatch(menu, Upper(Strip(input[0]))).None?
    ensures Loop(menu, failing, input) == [Menu, InvalidChoice] + Loop(menu, failing, input[1..])
  {
  }

  /** The turn that selects entry `i`. */
  lemma LoopSelects(menu: seq<Entry>, failing: set<nat>, input: seq<string>, i: nat)
    requires input != [] && FirstMatch(menu, Upper(Strip(input[0]))) == Some(i)
    ensures Loop(menu, failing, input) == [Menu] + Selected(menu, failing, menu[i], input[1..])
  {
  }



  // ---------------------------------------------------------------------------
  // Properties of the guide's registry

  /** A key is made of digits and capital letters. */
  predicate KeyChars(key: string) {
    key != [] && forall k :: 0 <= k < |key| ==> ('0' <= key[k] <= '9') || ('A' <= key[k] <= 'Z')
  }

  /** Every key is made of digits and capitals, and no two entries share a key. */
  lemma MenuKeys()
    ensures |MenuItems()| == 14
    ensures forall i :: 0 <= i < 14 ==> KeyChars(MenuItems()[i].key)
    ensures forall i, j :: 0 <= i < j < 14 ==> MenuItems()[i].key != MenuItems()[j].key
  {
  }

  /** Upper-casing changes no key, so a key is compared as written. */
  lemma KeysUpper()
    ensures forall j :: 0 <= j < |MenuItems()| ==> Upper(MenuItems()[j].key) == MenuItems()[j].key
  {
    MenuKeys();
    forall j | 0 <= j < 14 ensures Upper(MenuItems()[j].key) == MenuItems()[j].key {
      UpperLower(MenuItems()[j].key);
    }
  }

  /** Typing an entry's key selects that entry and no earlier one. */
  lemma SelectByKey(i: nat)
    requires i < |MenuItems()|
    ensures FirstMatch(MenuItems(), MenuItems()[i].key) == Some(i)
  {
    MenuKeys();
    KeysUpper();
    FirstMatchUnique(MenuItems(), MenuItems()[i].key, Some(i));
  }

  /**
   * The choice is trimmed and upper-cased before the search, so an entry's
   * key typed in lower case and surrounded by blanks still selects it.
   */
  lemma SelectIgnoresCase(i: nat, blanks: string, blanks': string)
    requires i < |MenuItems()|
    requires AllSpace(blanks) && AllSpace(blanks')
    ensures FirstMatch(MenuItems(), Upper(Strip(blanks + Lower(MenuItems()[i].key) + blanks'))) == Some(i)
  {
    var key := MenuItems()[i].key;
    MenuKeys();
    assert KeyChars(key);
    UpperLower(key);
    KeyBorders(key);
    StripPadded(blanks, Lower(key), blanks');
    SelectByKey(i);
  }

  /** A key, lower-cased, neither starts nor ends with whitespace. */
  lemma KeyBorders(key: string)
    requires KeyChars(key)
    ensures !IsSpace(key[0]) && !IsSpace(key[|key| - 1])
    ensures !IsSpace(Lower(key)[0]) && !IsSpace(Lower(key)[|key| - 1])
  {
    CaseKeepsSpace(key[0]);
    CaseKeepsSpace(key[|key| - 1]);
  }

  /** A key typed exactly as listed selects its entry, and is compared as written. */
  lemma SelectTyped(i: nat)
    requires i < |MenuItems()|
    ensures FirstMatch(MenuItems(), Upper(Strip(MenuItems()[i].key))) == Some(i)
    ensures Upper(MenuItems()[i].key) == MenuItems()[i].key
  {
    var key := MenuItems()[i].key;
    assert KeyChars(key) by {
      MenuKeys();
    }
    KeyBorders(key);
    StripClean(key);
    UpperLower(key);
    SelectByKey(i);
  }

  /** Typing the key of section `n`'s entry selects that entry, which runs section `n`. */
  lemma SectionAction(n: nat)
    requires 1 <= n <= SectionCount
    ensures SelectsSection(MenuItems(), MenuItems()[n - 1].key, n - 1, n)
  {
    SectionEntry(n);
    SelectTyped(n - 1);
  }

  /** The entry for section `n`: its title is the section's and its action runs that section. */
  lemma SectionEntry(n: nat)
    requires 1 <= n <= SectionCount
    ensures MenuItems()[n - 1].title == SectionTitles()[n - 1]
    ensures MenuItems()[n - 1].action == Some(Section(n))
    ensures MenuItems()[n - 1].key != "Q"
  {
  }

  /** `Q` (in either case, with any surrounding blanks) ends the session with the farewell and reads nothing more. */
  lemma QuitEnds(failing: set<nat>, input: seq<string>)
    requires input != [] && Upper(Strip(input[0])) == "Q"
    ensures Loop(MenuItems(), failing, input) == [Menu, Farewell]
  {
    SelectByKey(13);
    assert MenuItems()[13].key == "Q";
    LoopQuit(MenuItems(), failing, input, 13);
  }

  /** A choice that matches no key is reported and runs nothing; the loop goes on with the next line. */
  lemma InvalidRunsNothing(failing: set<nat>, input: seq<string>)
    requires input != []
    requires forall i :: 0 <= i < |MenuItems()| ==> MenuItems()[i].key != Upper(Strip(input[0]))
    ensures Loop(MenuItems(), failing, input) == [Menu, InvalidChoice] + Loop(MenuItems(), failing, input[1..])
  {
    KeysUpper();
    FirstMatchUnique(MenuItems(), Upper(Strip(input[0])), None);
    LoopNoMatch(MenuItems(), failing, input);
  }

  /**
   * Typing the key of section `n` runs that section once through
   * `run_example`; when it raises, the error is reported and the session goes
   * on: after the "return to menu" prompt the loop continues exactly as it
   * would from the remaining input.
   */
  lemma ChooseSection(failing: set<nat>, input: seq<string>, n: nat)
    requires 1 <= n <= SectionCount
    requires |input| >= 2 && input[0] == MenuItems()[n - 1].key
    requires Lower(Strip(input[1])) != "q"
    ensures Loop(MenuItems(), failing, input)
         == [Menu, Running(SectionTitles()[n - 1]), Outcome(Section(n), n in failing)] + Loop(MenuItems(), failing, input[2..])
  {
    SectionAction(n);
    SectionEntry(n);
    LoopSection(MenuItems(), failing, input, n - 1, n);
  }

  /** No key of the registry reads `12`, upper-cased or not. */
  lemma NoKeyTwelve()
    ensures forall i :: 0 <= i < |MenuItems()| ==> Upper(MenuItems()[i].key) != "12"
  {
    MenuKeys();
    KeysUpper();
    var menu := MenuItems();
    forall i | 0 <= i < 14 ensures menu[i].key != "12" {
      if i == 9 {
        assert menu[i].key[1] == '0';
      } else if i == 10 {
        assert menu[i].key[1] == '1';
      } else {
        assert |menu[i].key| == 1;
      }
    }
  }

  /** `12` names no entry: there are only eleven sections. */
  lemma NoSectionTwelve()
    ensures FirstMatch(MenuItems(), Upper(Strip("12"))).None?
  {
    assert Upper(Strip("12")) == "12" by {
      StripClean("12");
      UpperLower("12");
    }
    NoKeyTwelve();
    FirstMatchUnique(MenuItems(), "12", None);
  }

  /** A choice that runs a section, answered by `q` at the "return to menu" prompt, runs it once and says goodbye. */
  lemma LoopSectionQuit(menu: seq<Entry>, failing: set<nat>, input: seq<string>, i: nat, n: nat)
    requires |input| >= 2
    requires SelectsSection(menu, input[0], i, n)
    requires Lower(Strip(input[1])) == "q"
    ensures Loop(menu, failing, input)
         == [Menu, Running(menu[i].title), Outcome(Section(n), n in failing), Farewell]
  {
    LoopSelects(menu, failing, input, i);
    assert AfterRun(menu, failing, input[1..]) == [Farewell];
  }

  /** A registry of two sections and a quit entry, to show one session of the loop in full. */
  function SmallMenu(): seq<Entry> {
    [Entry("1", "Basics", Some(Section(1))), Entry("2", "Ops", Some(Section(2))), Entry("Q", "Quit", None)]
  }

  /** In that registry, `9` selects nothing and `1` selects the first section. */
  lemma SmallMenuChoices()
    ensures FirstMatch(SmallMenu(), Upper(Strip("9"))).None?
    ensures SelectsSection(SmallMenu(), "1", 0, 1)
  {
    var menu := SmallMenu();
    assert Upper(Strip("9")) == "9" by { StripClean("9"); UpperLower("9"); }
    assert Upper(Strip("1")) == "1" by { StripClean("1"); UpperLower("1"); }
    assert Upper("1") == "1" && Upper("2") == "2" && Upper("Q") == "Q" by {
      UpperLower("1"); UpperLower("2"); UpperLower("Q");
    }
    FirstMatchUnique(menu, "9", None);
    FirstMatchUnique(menu, "1", Some(0));
  }

  /**
   * The session `9`, `1`, `q` over that registry: the unknown choice is
   * reported and runs nothing, section 1 runs once, and the `q` answered to
   * the "return to menu" prompt ends the session with the farewell.
   */
  lemma SmallMenuSession(failing: set<nat>)
    ensures Loop(SmallMenu(), failing, ["9", "1", "q"])
         == [Menu, InvalidChoice, Menu, Running("Basics"), Outcome(Section(1), 1 in failing), Farewell]
  {
    var input := ["9", "1", "q"];
    SmallMenuChoices();
    assert Lower(Strip("q")) == "q" by { StripClean("q"); }
    LoopNoMatch(SmallMenu(), failing, input);
    assert input[1..] == ["1", "q"];
    LoopSectionQuit(SmallMenu(), failing, ["1", "q"], 0, 1);
  }

  /** The sections `run_example` ran, in order, as the events record them. */
  function SectionsRun(events: seq<Event>): (ns: seq<nat>)
    ensures |ns| <= |events|
  {
    if events == [] then []
    else
      var rest := SectionsRun(events[1..]);
      if events[0].Outcome? && events[0].action.Section? then [events[0].action.n] + rest else rest
  }

  lemma {:induction false} SectionsRunConcat(a: seq<Event>, b: seq<Event>)
    ensures SectionsRun(a + b) == SectionsRun(a) + SectionsRun(b)
  {
    if a == [] {
      assert a + b == b;
    } else {
      assert (a + b)[0] == a[0] && (a + b)[1..] == a[1..] + b;
      SectionsRunConcat(a[1..], b);
    }
  }

  /** One section of `run_all_sections`, with or without the pause after it, records that section alone. */
  lemma SectionsRunHead(i: nat, total: nat, title: string, raised: bool)
    ensures SectionsRun([SectionStart(i, total, title), Outcome(Section(i), raised)]) == [i]
    ensures SectionsRun([SectionStart(i, total, title), Outcome(Section(i), raised)] + [Pause]) == [i]
  {
    var head := [SectionStart(i, total, title), Outcome(Section(i), raised)];
    SectionsRunConcat(head, [Pause]);
  }

  /**
   * `run_all_sections` from section `i` runs the sections in listed order,
   * each once, reading one line per pause: with enough lines all of them, and
   * otherwise up to the section whose pause finds no line left.
   */
  lemma {:induction false} RunAllOrder(sections: seq<string>, i: nat, failing: set<nat>, input: seq<string>)
    requires 1 <= i <= |sections|
    ensures RunAllFrom(sections, i, failing, input).completed <==> |input| >= |sections| - i
    ensures SectionsRun(RunAllFrom(sections, i, failing, input).events) == Range(i, Reached(|sections|, i, input) + 1)
    ensures RunAllFrom(sections, i, failing, input).rest == input[Reached(|sections|, i, input) - i..]
    decreases |sections| - i
  {
    SectionsRunHead(i, |sections|, sections[i - 1], i in failing);
    if i < |sections| && input != [] {
      RunAllStep(sections, i, failing, input);
    } else {
      assert Range(i + 1, Reached(|sections|, i, input) + 1) == [];
    }
  }

  /** The inductive step of `RunAllOrder`: a pause answered, then the remaining sections. */
  lemma {:induction false} RunAllStep(sections: seq<string>, i: nat, failing: set<nat>, input: seq<string>)
    requires 1 <= i < |sections| && input != []
    ensures RunAllFrom(sections, i, failing, input).completed <==> |input| >= |sections| - i
    ensures SectionsRun(RunAllFrom(sections, i, failing, input).events) == Range(i, Reached(|sections|, i, input) + 1)
    ensures RunAllFrom(sections, i, failing, input).rest == input[Reached(|sections|, i, input) - i..]
    decreases |sections| - i, 0
  {
    var head := [SectionStart(i, |sections|, sections[i - 1]), Outcome(Section(i), i in failing)];
    var next := RunAllFrom(sections, i + 1, failing, input[1..]);
    var r := RunAllFrom(sections, i, failing, input);
    var k := Reached(|sections|, i, input);
    assert r == Prefixed(head + [Pause], next);
    assert Reached(|sections|, i + 1, input[1..]) == k;
    RunAllOrder(sections, i + 1, failing, input[1..]);
    assert SectionsRun(r.events) == [i] + SectionsRun(next.events) by {
      SectionsRunHead(i, |sections|, sections[i - 1], i in failing);
      SectionsRunConcat(head + [Pause], next.events);
    }
    assert input[1..][k - (i + 1)..] == input[k - i..];
  }

  /** Choosing "All Sections" with ten lines to answer the pauses runs sections 1 to 11 once each, in order, and completes. */
  lemma RunAllComplete(failing: set<nat>, input: seq<string>)
    requires |input| >= SectionCount - 1
    ensures SectionsRun(Perform(RunAll, failing, input).events) == Range(1, SectionCount + 1)
    ensures Perform(RunAll, failing, input).rest == input[SectionCount - 1..]
    ensures Outcome(RunAll, false) in Perform(RunAll, failing, input).events
  {
    var all := RunAllFrom(SectionTitles(), 1, failing, input);
    RunAllOrder(SectionTitles(), 1, failing, input);
    assert Reached(SectionCount, 1, input) == SectionCount;
    SectionsRunConcat([AllHeader], all.events);
    SectionsRunConcat([AllHeader] + all.events, [Outcome(RunAll, false)]);
    var events := [AllHeader] + all.events + [Outcome(RunAll, false)];
    assert events[|events| - 1] == Outcome(RunAll, false);
  }

  predicate Final(e: Event) {
    e == Farewell || e == EndOfInput
  }

  /** No event of `t` ends the session. */
  predicate NoFinal(t: seq<Event>) {
    forall k :: 0 <= k < |t| ==> !Final(t[k])
  }

  /** `t` ends the session at its last event and not before. */
  predicate EndsOnce(t: seq<Event>) {
    |t| >= 1 && Final(t[|t| - 1]) && NoFinal(t[..|t| - 1])
  }

  lemma NoFinalConcat(a: seq<Event>, b: seq<Event>)
    requires NoFinal(a) && NoFinal(b)
    ensures NoFinal(a + b)
  {
    assert forall k :: 0 <= k < |a + b| ==> (a + b)[k] == if k < |a| then a[k] else b[k - |a|];
  }

  lemma EndsOnceConcat(a: seq<Event>, b: seq<Event>)
    requires NoFinal(a) && EndsOnce(b)
    ensures EndsOnce(a + b)
  {
    var t := a + b;
    assert t[|t| - 1] == b[|b| - 1];
    assert t[..|t| - 1] == a + b[..|b| - 1];
    NoFinalConcat(a, b[..|b| - 1]);
  }

  /** The events of `run_all_sections` never end the session. */
  lemma {:induction false} RunAllNotFinal(sections: seq<string>, i: nat, failing: set<nat>, input: seq<string>)
    requires 1 <= i <= |sections|
    ensures NoFinal(RunAllFrom(sections, i, failing, input).events)
    decreases |sections| - i
  {
    var head := [SectionStart(i, |sections|, sections[i - 1]), Outcome(Section(i), i in failing)];
    if i < |sections| && input != [] {
      RunAllNotFinal(sections, i + 1, failing, input[1..]);
      NoFinalConcat(head + [Pause], RunAllFrom(sections, i + 1, failing, input[1..]).events);
    }
  }

  /** No action's events end the session. */
  lemma PerformNotFinal(a: Action, failing: set<nat>, input: seq<string>)
    ensures NoFinal(Perform(a, failing, input).events)
  {
    if a.RunAll? {
      var all := RunAllFrom(SectionTitles(), 1, failing, input);
      RunAllNotFinal(SectionTitles(), 1, failing, input);
      NoFinalConcat([AllHeader], all.events);
      NoFinalConcat([AllHeader] + all.events, [Outcome(a, !all.completed)]);
    }
  }

  /**
   * Every session ends with the farewell or with the end of input, and
   * neither occurs before the end: quitting and running out of input are the
   * only ways out.
   */
  lemma {:induction false} SessionEnds(menu: seq<Entry>, failing: set<nat>, input: seq<string>)
    ensures |Loop(menu, failing, input)| >= 2
    ensures EndsOnce(Loop(menu, failing, input))
    decreases |input|, 1
  {
    if input == [] {
      assert Loop(menu, failing, input)[..1] == [Menu];
    } else {
      match FirstMatch(menu, Upper(Strip(input[0])))
      case None =>
        var tail := Loop(menu, failing, input[1..]);
        assert Loop(menu, failing, input) == [Menu, InvalidChoice] + tail;
        SessionEnds(menu, failing, input[1..]);
        EndsOnceConcat([Menu, InvalidChoice], tail);
      case Some(i) =>
        var tail := Selected(menu, failing, menu[i], input[1..]);
        assert Loop(menu, failing, input) == [Menu] + tail;
        SelectedEnds(menu, failing, menu[i], input[1..]);
        EndsOnceConcat([Menu], tail);
    }
  }

  /** The rest of a turn also ends with the farewell or the end of input, and only there. */
  lemma {:induction false} SelectedEnds(menu: seq<Entry>, failing: set<nat>, e: Entry, input: seq<string>)
    ensures EndsOnce(Selected(menu, failing, e, input))
    decreases |input| + 1, 0
  {
    if Upper(e.key) == "Q" {
      assert Selected(menu, failing, e, input)[..0] == [];
    } else if e.action.None? {
      SessionEnds(menu, failing, input);
    } else {
      var r := Perform(e.action.value, failing, input);
      var head := [Running(e.title)] + r.events;
      PerformNotFinal(e.action.value, failing, input);
      NoFinalConcat([Running(e.title)], r.events);
      AfterRunEnds(menu, failing, r.rest);
      EndsOnceConcat(head, AfterRun(menu, failing, r.rest));
    }
  }

  /** So does what follows an action. */
  lemma {:induction false} AfterRunEnds(menu: seq<Entry>, failing: set<nat>, rest: seq<string>)
    ensures EndsOnce(AfterRun(menu, failing, rest))
    decreases |rest|, 2
  {
    if rest == [] || Lower(Strip(rest[0])) == "q" {
      assert AfterRun(menu, failing, rest)[..0] == [];
    } else {
      SessionEnds(menu, failing, rest[1..]);
    }
  }

  // ---------------------------------------------------------------------------
  // Failures are isolated

  /** An event with the outcome of its action forgotten. */
  function EraseOne(e: Event): Event {
    if e.Outcome? then Outcome(e.action, false) else e
  }

  /** The events with every outcome's `raised` flag forgotten. */
  function Erase(events: seq<Event>): (r: seq<Event>)
    ensures |r| == |events|
    ensures forall k :: 0 <= k < |events| ==> r[k] == EraseOne(events[k])
  {
    if events == [] then [] else [EraseOne(events[0])] + Erase(events[1..])
  }

  lemma EraseConcat(a: seq<Event>, b: seq<Event>)
    ensures Erase(a + b) == Erase(a) + Erase(b)
  {
  }

  /** Which sections of `run_all_sections` raise changes only their reports. */
  lemma {:induction false} RunAllIsolated(sections: seq<string>, i: nat, f: set<nat>, g: set<nat>, input: seq<string>)
    requires 1 <= i <= |sections|
    ensures Erase(RunAllFrom(sections, i, f, input).events) == Erase(RunAllFrom(sections, i, g, input).events)
    ensures RunAllFrom(sections, i, f, input).rest == RunAllFrom(sections, i, g, input).rest
    ensures RunAllFrom(sections, i, f, input).completed == RunAllFrom(sections, i, g, input).completed
    decreases |sections| - i
  {
    var hf := [SectionStart(i, |sections|, sections[i - 1]), Outcome(Section(i), i in f)];
    var hg := [SectionStart(i, |sections|, sections[i - 1]), Outcome(Section(i), i in g)];
    assert Erase(hf) == Erase(hg);
    if i < |sections| && input != [] {
      var nf := RunAllFrom(sections, i + 1, f, input[1..]);
      var ng := RunAllFrom(sections, i + 1, g, input[1..]);
      RunAllIsolated(sections, i + 1, f, g, input[1..]);
      EraseConcat(hf + [Pause], nf.events);
      EraseConcat(hg + [Pause], ng.events);
      EraseConcat(hf, [Pause]);
      EraseConcat(hg, [Pause]);
    } else if i < |sections| {
      EraseConcat(hf, [Pause]);
      EraseConcat(hg, [Pause]);
    }
  }

  /** Whether an action raises changes only its report, never what it reads. */
  lemma PerformIsolated(a: Action, f: set<nat>, g: set<nat>, input: seq<string>)
    ensures Erase(Perform(a, f, input).events) == Erase(Perform(a, g, input).events)
    ensures Perform(a, f, input).rest == Perform(a, g, input).rest
  {
    if a.RunAll? {
      var af := RunAllFrom(SectionTitles(), 1, f, input);
      var ag := RunAllFrom(SectionTitles(), 1, g, input);
      RunAllIsolated(SectionTitles(), 1, f, g, input);
      EraseConcat([AllHeader], af.events);
      EraseConcat([AllHeader], ag.events);
      EraseConcat([AllHeader] + af.events, [Outcome(a, !af.completed)]);
      EraseConcat([AllHeader] + ag.events, [Outcome(a, !ag.completed)]);
    }
  }

  /**
   * `run_example` catches every exception an action raises, so which actions
   * fail changes only the error reports: the session reads the same lines,
   * runs the same actions in the same order, and ends in the same way.
   */
  lemma {:induction false} LoopIsolated(menu: seq<Entry>, f: set<nat>, g: set<nat>, input: seq<string>)
    ensures Erase(Loop(menu, f, input)) == Erase(Loop(menu, g, input))
    decreases |input|, 1
  {
    if input != [] {
      match FirstMatch(menu, Upper(Strip(input[0])))
      case None =>
        LoopIsolated(menu, f, g, input[1..]);
        EraseConcat([Menu, InvalidChoice], Loop(menu, f, input[1..]));
        EraseConcat([Menu, InvalidChoice], Loop(menu, g, input[1..]));
      case Some(i) =>
        SelectedIsolated(menu, f, g, menu[i], input[1..]);
        EraseConcat([Menu], Selected(menu, f, menu[i], input[1..]));
        EraseConcat([Menu], Selected(menu, g, menu[i], input[1..]));
    }
  }

  lemma {:induction false} SelectedIsolated(menu: seq<Entry>, f: set<nat>, g: set<nat>, e: Entry, input: seq<string>)
    ensures Erase(Selected(menu, f, e, input)) == Erase(Selected(menu, g, e, input))
    decreases |input| + 1, 0
  {
    if Upper(e.key) == "Q" {
    } else if e.action.None? {
      LoopIsolated(menu, f, g, input);
    } else {
      var rf := Perform(e.action.value, f, input);
      var rg := Perform(e.action.value, g, input);
      PerformIsolated(e.action.value, f, g, input);
      AfterRunIsolated(menu, f, g, rf.rest);
      EraseConcat([Running(e.title)] + rf.events, AfterRun(menu, f, rf.rest));
      EraseConcat([Running(e.title)] + rg.events, AfterRun(menu, g, rg.rest));
      EraseConcat([Running(e.title)], rf.events);
      EraseConcat([Running(e.title)], rg.events);
    }
  }

  lemma {:induction false} AfterRunIsolated(menu: seq<Entry>, f: set<nat>, g: set<nat>, rest: seq<string>)
    ensures Erase(AfterRun(menu, f, rest)) == Erase(AfterRun(menu, g, rest))
    decreases |rest|, 2
  {
    if rest != [] && Lower(Strip(rest[0])) != "q" {
      LoopIsolated(menu, f, g, rest[1..]);
    }
  }
}
