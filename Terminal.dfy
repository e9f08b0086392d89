/**
 * The terminal window: its input line with a caret, its command history, its
 * Tab-completion cycle and its output lines. `KeyStep` says what one keydown
 * does to a `Session`; the class `Terminal` runs the same handler on fields.
 * What `open` and `exit` ask of the window manager comes back as a `Request`,
 * which `Perform` carries out on a `WindowManager`.
 */
module Terminal {
  import opened Text
  import opened Wrappers
  import opened Catalog
  import opened Completion
  import opened Shell
  import opened Windows
  import opened WindowManager

  /** A line of terminal output: the start-up banner, an echoed prompt, or a command's result. */
  datatype Line = Banner(date: string) | Prompt(command: string) | Result(response: Response, cls: Cls)

  /** The Tab-completion cycle: candidates, the one shown, the span it fills, and the input it produced. */
  datatype CompletionState = CompletionState(list: seq<string>, index: nat, start: nat, end: nat, snapshot: string)

  /** `resetCompletion()`'s state. */
  const NoCompletion: CompletionState := CompletionState([], 0, 0, 0, "")

  datatype Session = Session(
    value: string,          // the input's text
    caret: nat,             // the input's `selectionStart`
    history: seq<string>,
    historyIndex: int,      // -1 when not browsing
    completion: CompletionState,
    output: seq<Line>)

  /** The terminal as the page loads it: an empty line, no history, the banner with the day's date. */
  function InitialSession(date: string): Session {
    Session("", 0, [], -1, NoCompletion, [Banner(date)])
  }

  /** A keydown as the handler sees it. */
  datatype Key = Key(key: string, ctrl: bool, shift: bool)

  /** Which branch of the keydown handler a key takes. */
  datatype Action = ClearKey | EraseKey | HomeKey | EndKey | UpKey | DownKey | TabKey(backwards: bool) | EnterKey | OtherKey

  /** The handler's tests, in its order: the Ctrl shortcuts first, then the arrows, Tab, Enter. */
  function Classify(k: Key): Action {
    if k.ctrl && (k.key == "l" || k.key == "L") then ClearKey
    else if k.ctrl && (k.key == "u" || k.key == "U") then EraseKey
    else if k.ctrl && (k.key == "a" || k.key == "A") then HomeKey
    else if k.ctrl && (k.key == "e" || k.key == "E") then EndKey
    else if k.key == "ArrowUp" then UpKey
    else if k.key == "ArrowDown" then DownKey
    else if k.key == "Tab" then TabKey(k.shift)
    else if k.key == "Enter" then EnterKey
    else OtherKey
  }

  /** What a keydown asks of the window manager. */
  datatype Request = NoRequest | OpenRequest(id: string) | CloseRequest(id: string)

  /**
   * What the handler keeps: the caret inside the text, the history position
   * within the history or -1, only non-empty commands in the history, and a
   * live completion cycle whose index and span are in range.
   */
  ghost predicate SessionInv(s: Session) {
    && s.caret <= |s.value|
    && -1 <= s.historyIndex <= |s.history|
    && (forall i :: 0 <= i < |s.history| ==> s.history[i] != "")
    && (s.completion.list != [] ==>
          s.completion.index < |s.completion.list| && s.completion.start <= s.completion.end <= |s.completion.snapshot|)
  }

  lemma InitialSessionInv(date: string)
    ensures SessionInv(InitialSession(date))
  { }

  // ---------------------------------------------------------------- history

  /** The history entry at `i`, or the empty string when there is none. */
  function Entry(history: seq<string>, i: int): string {
    if 0 <= i < |history| then history[i] else ""
  }

  /** Shows `v` with the caret at its end, leaving the completion cycle. */
  function ShowLine(s: Session, v: string, index: int): Session {
    s.(value := v, caret := |v|, historyIndex := index, completion := NoCompletion)
  }

  /** ArrowUp: step to the previous entry, starting from the newest, stopping at the oldest. */
  function UpStep(s: Session): Session {
    if |s.history| == 0 then s
    else
      var from := if s.historyIndex == -1 then |s.history| else s.historyIndex;
      var i := if from - 1 < 0 then 0 else from - 1;
      ShowLine(s, Entry(s.history, i), i)
  }

  /** ArrowDown: nothing unless browsing; step to the next entry, and past the newest to an empty line. */
  function DownStep(s: Session): Session {
    if |s.history| == 0 || s.historyIndex == -1 then s
    else
      var i := Min(|s.history|, s.historyIndex + 1);
      ShowLine(s, if i >= |s.history| then "" else Entry(s.history, i), i)
  }

  /** ArrowUp pressed `n` times. */
  function Ups(s: Session, n: nat): Session {
    if n == 0 then s else UpStep(Ups(s, n - 1))
  }

  /**
   * Pressing ArrowUp `n` times from the fresh prompt shows the `n`-th newest
   * command, and the oldest one once `n` exceeds the history.
   */
  lemma {:induction false} UpsWalkBack(s: Session, n: nat)
    requires SessionInv(s) && s.historyIndex == -1 && |s.history| > 0 && n >= 1
    ensures var r := Ups(s, n); var i := if |s.history| - n < 0 then 0 else |s.history| - n;
      && r.historyIndex == i && r.value == s.history[i] && r.caret == |r.value|
      && r.history == s.history && r.output == s.output
  {
    if n > 1 {
      UpsWalkBack(s, n - 1);
    }
  }

  /**
   * ArrowDown from the newest entry, or from past it, shows an empty line and
   * parks the position at the history's length rather than back at -1.
   */
  lemma DownPastNewest(s: Session)
    requires SessionInv(s) && |s.history| > 0 && |s.history| - 1 <= s.historyIndex
    ensures var r := DownStep(s);
      r.value == "" && r.caret == 0 && r.historyIndex == |s.history| && DownStep(r) == r
  { }

  /** ArrowDown before any ArrowUp changes nothing. */
  lemma DownWhenNotBrowsing(s: Session)
    requires s.historyIndex == -1
    ensures DownStep(s) == s
  { }

  /** ArrowUp then ArrowDown at the fresh prompt: the newest command, then an empty line. */
  lemma UpThenDown(s: Session)
    requires SessionInv(s) && s.historyIndex == -1 && |s.history| > 0
    ensures UpStep(s).value == s.history[|s.history| - 1]
    ensures DownStep(UpStep(s)).value == "" && DownStep(UpStep(s)).historyIndex == |s.history|
  { }

  /** ArrowDown while browsing below the newest entry steps to the next one. */
  lemma DownSteps(s: Session)
    requires SessionInv(s) && 0 <= s.historyIndex < |s.history| - 1
    ensures DownStep(s).historyIndex == s.historyIndex + 1
    ensures DownStep(s).value == s.history[s.historyIndex + 1]
    ensures DownStep(s).caret == |DownStep(s).value|
    ensures DownStep(s).history == s.history && DownStep(s).output == s.output
  { }

  /** ArrowDown pressed `k` times. */
  function Downs(s: Session, k: nat): Session {
    if k == 0 then s else DownStep(Downs(s, k - 1))
  }

  /**
   * Pressing ArrowDown `k` times while browsing walks forward one entry a
   * press, then stays on the empty line with the position at the history's length.
   */
  lemma {:induction false} DownsWalkForward(s: Session, k: nat)
    requires SessionInv(s) && 0 <= s.historyIndex && |s.history| > 0 && k >= 1
    ensures var r := Downs(s, k); var i := Min(|s.history|, s.historyIndex + k);
      && r.historyIndex == i && r.value == Entry(s.history, i) && r.caret == |r.value|
      && r.history == s.history && r.output == s.output
  {
    if k > 1 {
      DownsWalkForward(s, k - 1);
    }
  }

  /** `n` ArrowUps from the fresh prompt, then as many ArrowDowns, end on the empty line. */
  lemma UpsThenDowns(s: Session, n: nat)
    requires SessionInv(s) && s.historyIndex == -1 && n >= 1 && |s.history| >= n
    ensures Downs(Ups(s, n), n).value == "" && Downs(Ups(s, n), n).historyIndex == |s.history|
  {
    UpsWalkBack(s, n);
    DownsWalkForward(Ups(s, n), n);
  }

  // ---------------------------------------------------------------- Tab

  /**
   * The completion cycle a Tab press works with: a fresh one computed at the
   * caret when the input is not the one the last completion produced or there
   * are no candidates; otherwise the same one moved one step forward (or back
   * with Shift), wrapping around.
   */
  function NextCompletion(s: Session, backwards: bool, openPool: seq<string>): (c: CompletionState)
    ensures c.list != [] ==> c.index < |c.list|
    ensures s.completion.snapshot != s.value || s.completion.list == [] ==>
      var cands := ComputeCompletions(s.value, s.caret, openPool);
      c.list == cands.list && c.start == cands.start && c.end == cands.end && c.index == 0 && c.snapshot == s.value
    ensures s.completion.snapshot == s.value && s.completion.list != [] ==>
      && c.list == s.completion.list && c.start == s.completion.start && c.end == s.completion.end
      && c.snapshot == s.value && c.index == CycleIndex(s.completion.index, |s.completion.list|, backwards)
  {
    var comp := s.completion;
    if comp.snapshot != s.value || |comp.list| == 0 then
      var cands := ComputeCompletions(s.value, s.caret, openPool);
      CompletionState(cands.list, 0, cands.start, cands.end, s.value)
    else
      comp.(index := CycleIndex(comp.index, |comp.list|, backwards))
  }

  /**
   * One step forward (or back) around a cycle of `n` candidates: the next
   * index, or the first after the last; the previous one, or the last before
   * the first.
   */
  function CycleIndex(i: nat, n: nat, backwards: bool): (j: nat)
    requires n > 0
    ensures j < n
    ensures i < n && !backwards ==> j == if i + 1 == n then 0 else i + 1
    ensures i < n && backwards ==> j == if i == 0 then n - 1 else i - 1
  {
    var delta := if backwards then -1 else 1;
    CycleStep(i, n, delta);
    (i + delta + n) % n
  }

  lemma CycleStep(i: nat, n: nat, delta: int)
    requires n > 0 && (delta == 1 || delta == -1)
    ensures 0 <= (i + delta + n) % n < n
    ensures i < n && delta == 1 ==> (i + delta + n) % n == if i + 1 == n then 0 else i + 1
    ensures i < n && delta == -1 ==> (i + delta + n) % n == if i == 0 then n - 1 else i - 1
  {
    if i < n {
      if delta == 1 && i + 1 == n {
        ModOfTwice(n);
      } else if delta == -1 && i == 0 {
        ModOfSelf(n - 1, n);
      } else {
        ModOfShift(i + delta + n, n);
      }
    }
  }

  /**
   * Splice the chosen candidate over the completion span. No space is inserted;
   * a command that takes an argument only moves the caret one further, which
   * the input clamps to the end of the text. The span then covers the
   * candidate, so a further Tab swaps in the next one.
   */
  function Splice(s: Session): Session
    requires s.completion.list != [] ==> s.completion.index < |s.completion.list|
  {
    var comp := s.completion;
    if |comp.list| == 0 then s
    else
      var choice := comp.list[comp.index];
      var next := ApplyCompletion(s.value, comp.start, comp.end, choice);
      var firstSpace := IndexOf(next[..Min(s.caret, |next|)], ' ');
      var isFirstToken := firstSpace == -1 || s.caret <= firstSpace;
      var expectsArg := choice == "open" || choice == "cat";
      var newCaret := comp.start + |choice| + (if expectsArg && isFirstToken then 1 else 0);
      s.(value := next, caret := Min(newCaret, |next|), completion := comp.(snapshot := next, end := comp.start + |choice|))
  }

  /**
   * What splicing does with a candidate: the text gets the candidate over the
   * span; the caret lands just after it, or one further for `open` and `cat`
   * while the text before the caret has no space, never past the end of the
   * text; the span then ends after the candidate and the snapshot is the new
   * text. Within bounds the candidate stands at the span's start and the caret
   * is not before its end. Nothing else changes.
   */
  lemma SpliceResult(s: Session)
    requires s.completion.list != [] && s.completion.index < |s.completion.list|
    ensures var c := s.completion; var choice := c.list[c.index]; var r := Splice(s);
      var extra := if (choice == "open" || choice == "cat") && ' ' !in r.value[..Min(s.caret, |r.value|)] then 1 else 0;
      && r.value == ApplyCompletion(s.value, c.start, c.end, choice)
      && r.caret == Min(c.start + |choice| + extra, |r.value|)
      && r.completion == c.(end := c.start + |choice|, snapshot := r.value)
      && r.history == s.history && r.historyIndex == s.historyIndex && r.output == s.output
      && (c.start <= c.end <= |s.value| ==>
            r.value[c.start..c.start + |choice|] == choice && c.start + |choice| <= r.caret <= |r.value|)
  {
    var c := s.completion;
    var choice := c.list[c.index];
    var next := ApplyCompletion(s.value, c.start, c.end, choice);
    var k := IndexOf(next[..Min(s.caret, |next|)], ' ');
    assert (k == -1 || s.caret <= k) <==> ' ' !in next[..Min(s.caret, |next|)];
  }

  /** Tab: advance the completion cycle, then splice its current candidate in. */
  function TabStep(s: Session, backwards: bool, openPool: seq<string>): Session {
    Splice(s.(completion := NextCompletion(s, backwards, openPool)))
  }

  /**
   * A live completion cycle: the input is the text the last Tab produced, and
   * the span holds the candidate shown.
   */
  ghost predicate InCycle(s: Session) {
    var c := s.completion;
    && SessionInv(s)
    && c.list != [] && c.snapshot == s.value
    && c.end == c.start + |c.list[c.index]| <= |s.value|
    && s.value[c.start..c.end] == c.list[c.index]
  }

  /** A Tab that finds candidates starts (or continues) a cycle. */
  lemma TabEntersCycle(s: Session, backwards: bool, openPool: seq<string>)
    requires SessionInv(s) && TabStep(s, backwards, openPool).completion.list != []
    ensures InCycle(TabStep(s, backwards, openPool))
  {
    NextCompletionSpan(s, backwards, openPool);
    TabStepInv(s, backwards, openPool);
  }

  /**
   * Within a cycle, Tab replaces the shown candidate by the next one (or the
   * one before with Shift), keeping the cycle's candidates and start.
   */
  lemma TabCycles(s: Session, backwards: bool, openPool: seq<string>)
    requires InCycle(s)
    ensures var c := s.completion; var j := CycleIndex(c.index, |c.list|, backwards);
      var r := TabStep(s, backwards, openPool);
      && r.value == ApplyCompletion(s.value, c.start, c.end, c.list[j])
      && r.completion == CompletionState(c.list, j, c.start, c.start + |c.list[j]|, r.value)
      && InCycle(r)
  {
    TabStepInv(s, backwards, openPool);
  }

  /** Stepping forward then back in a cycle of `n` candidates lands on the same index. */
  lemma ForwardBack(i: nat, n: nat)
    requires i < n
    ensures CycleIndex(CycleIndex(i, n, false), n, true) == i
  {
  }

  // The three `%` facts below are stated apart from CycleStep, which stays cheap
  // when each modular step is a lemma call rather than arithmetic in its own context.
  lemma ModOfShift(a: int, n: int)
    requires 0 < n <= a < 2 * n
    ensures a % n == a - n
  {
    assert a == n + (a - n);
  }

  lemma ModOfTwice(n: int)
    requires 0 < n
    ensures (n + n) % n == 0
  {
  }

  lemma ModOfSelf(a: int, n: int)
    requires 0 <= a < n
    ensures a % n == a
  {
  }

  /**
   * Tab then Shift+Tab inside a cycle restores the text: cycling back puts the
   * earlier candidate in again, whatever stood after the span.
   */
  lemma TabForwardThenBack(s: Session, openPool: seq<string>)
    requires InCycle(s)
    ensures var r := TabStep(TabStep(s, false, openPool), true, openPool);
      r.value == s.value && r.completion.index == s.completion.index
  {
    var c := s.completion;
    var i := c.index;
    var j := CycleIndex(i, |c.list|, false);
    var t := TabStep(s, false, openPool);
    TabCycles(s, false, openPool);
    TabCycles(t, true, openPool);
    ForwardBack(i, |c.list|);
    var r := TabStep(t, true, openPool);
    assert r.completion.index == i;
    calc {
      r.value;
    ==
      ApplyCompletion(ApplyCompletion(s.value, c.start, c.end, c.list[j]), c.start, c.start + |c.list[j]|, c.list[i]);
    == { ApplyTwice(s.value, c.start, c.end, c.list[j], c.list[i]); }
      ApplyCompletion(s.value, c.start, c.end, c.list[i]);
    == { ApplyOwnSpan(s.value, c.start, c.end); }
      s.value;
    }
  }

  /** A live cycle's span lies within the text it will be spliced into. */
  lemma NextCompletionSpan(s: Session, backwards: bool, openPool: seq<string>)
    requires SessionInv(s)
    ensures var c := NextCompletion(s, backwards, openPool);
      c.list != [] ==> c.start <= c.end <= |s.value|
  {
    if !(s.completion.snapshot != s.value || |s.completion.list| == 0) {
      assert s.completion.snapshot == s.value;
    }
  }

  lemma TabStepInv(s: Session, backwards: bool, openPool: seq<string>)
    requires SessionInv(s)
    ensures SessionInv(TabStep(s, backwards, openPool))
  {
    NextCompletionSpan(s, backwards, openPool);
  }

  /** Tab at the end of `op` completes the command to `open`, with the caret at the end and no space added. */
  lemma TabCompletesOpen(openPool: seq<string>, history: seq<string>, index: int, output: seq<Line>)
    ensures var r := TabStep(Session("op", 2, history, index, NoCompletion, output), false, openPool);
      r.value == "open" && r.caret == 4 && r.completion.list == ["open"]
  {
    CompleteOp(openPool);
    var s := Session("op", 2, history, index, NoCompletion, output);
    assert NextCompletion(s, false, openPool) == CompletionState(["open"], 0, 0, 2, "op");
    OpenOverOp();
  }

  // Kept apart so that TabCompletesOpen does not unfold the splice next to the session literal.
  lemma OpenOverOp()
    ensures ApplyCompletion("op", 0, 2, "open") == "open"
  {
    assert "op"[..0] + "open" + "op"[2..] == "open";
  }

  // ---------------------------------------------------------------- Enter

  /**
   * What the page fixes when it loads: the desktop's application ids, the pool
   * `open` completes from, and the ids of the document's elements.
   */
  datatype Page = Page(appIds: seq<string>, openPool: seq<string>, documentIds: set<string>)

  /**
   * The page built from the desktop icons' `data-opens` values and the
   * document's ids: the application ids are the icons' non-empty values, and
   * `open` completes from those ids, first, and from every name of the alias
   * table, each name once.
   */
  function PageOf(opens: seq<Option<string>>, documentIds: set<string>): (p: Page)
    ensures forall x :: x in p.appIds <==> x != "" && Some(x) in opens
    ensures forall x :: x in p.openPool <==>
      (x != "" && Some(x) in opens) || exists i :: 0 <= i < |AliasMap| && Matches(AliasMap[i], x)
    ensures Distinct(p.openPool)
    ensures forall i, j :: 0 <= i < j < |p.openPool| && p.openPool[j] in p.appIds ==> p.openPool[i] in p.appIds
    ensures p.documentIds == documentIds
  {
    var appIds := AppIdsOf(opens);
    Page(appIds, OpenPool(appIds), documentIds)
  }

  /** The output after `processCommand`'s outcome. */
  function Respond(output: seq<Line>, o: Outcome): seq<Line> {
    match o
    case Silent => output
    case Reply(_, response, cls) => output + [Result(response, cls)]
    case ClearScreen => []
    case Exit => output
  }

  /** The window request an outcome makes. */
  function RequestOf(o: Outcome): Request {
    match o
    case Reply(opens, _, _) => if opens.Some? then OpenRequest(opens.value) else NoRequest
    case Exit => CloseRequest(TerminalId)
    case _ => NoRequest
  }

  /**
   * Enter: echo the trimmed line after the prompt, record it in the history
   * when it is not empty (and stop browsing), process it, then clear the input.
   */
  function SubmitStep(s: Session, p: Page, clock: string): (Session, Request) {
    var command := Trim(s.value);
    var o := Process(command, p.appIds, p.documentIds, clock);
    var r := Record(s, command);
    (r.(value := "", caret := 0, completion := NoCompletion, output := Respond(r.output, o)), RequestOf(o))
  }

  /** The echo and the history entry of a submitted line. */
  function Record(s: Session, command: string): Session {
    var h := if command != "" then s.history + [command] else s.history;
    var index := if command != "" then -1 else s.historyIndex;
    s.(history := h, historyIndex := index, output := s.output + [Prompt(command)])
  }

  /**
   * Enter on a line that trims to `help` echoes it, records it, prints the help
   * text and asks nothing of the window manager.
   */
  lemma EnterHelp(s: Session, p: Page, clock: string)
    requires Trim(s.value) == "help"
    ensures var (r, req) := SubmitStep(s, p, clock);
      && r.history == s.history + ["help"] && r.historyIndex == -1 && r.value == ""
      && r.output == s.output + [Prompt("help"), Result(Help, Ok)] && req == NoRequest
  {
    HelpWord();
  }

  // The parse of the literal `help`, kept out of EnterHelp's larger context to keep that proof cheap.
  lemma HelpWord()
    ensures Split("help", ' ') == ["help"] && CommandOf(Lower("help")) == HelpCmd
  {
    assert ' ' !in "help";
    OneWord("help");
    LowerOfLowerCase("help");
  }

  /** `clear` empties the screen, its own prompt line included, but is still recorded. */
  lemma EnterClear(s: Session, p: Page, clock: string)
    requires Trim(s.value) == "clear"
    ensures var (r, req) := SubmitStep(s, p, clock);
      r.output == [] && r.history == s.history + ["clear"] && req == NoRequest
  {
    ClearWord();
  }

  // The parse of the literal `clear`, kept out of EnterClear's larger context to keep that proof cheap.
  lemma ClearWord()
    ensures Split("clear", ' ') == ["clear"] && CommandOf(Lower("clear")) == ClearCmd
  {
    assert ' ' !in "clear";
    OneWord("clear");
    LowerOfLowerCase("clear");
  }

  /** A blank line is echoed with an empty prompt and leaves history and browsing position alone. */
  lemma EnterBlank(s: Session, p: Page, clock: string)
    requires Trim(s.value) == ""
    ensures var (r, req) := SubmitStep(s, p, clock);
      && r.output == s.output + [Prompt("")] && r.history == s.history
      && r.historyIndex == s.historyIndex && req == NoRequest
  { }

  // ---------------------------------------------------------------- the handler

  /**
   * One keydown in the terminal's input. Besides the listed keys, every key
   * leaves the completion cycle and is otherwise left to the browser.
   */
  function KeyStep(s: Session, k: Key, p: Page, clock: string): (Session, Request) {
    Dispatch(s, Classify(k), p, clock)
  }

  /**
   * The handler's branches. Only Enter records history and makes window
   * requests; only Enter and Ctrl+L touch the output.
   */
  function Dispatch(s: Session, a: Action, p: Page, clock: string): (r: (Session, Request))
    ensures r.0.history == s.history || (a == EnterKey && r.0.history == s.history + [Trim(s.value)] && Trim(s.value) != "")
    ensures a == EnterKey && Trim(s.value) != "" ==> r.0.history == s.history + [Trim(s.value)] && r.0.historyIndex == -1
    ensures a != EnterKey ==> r.1 == NoRequest
    ensures a != EnterKey && a != ClearKey ==> r.0.output == s.output
  {
    match a
    case ClearKey => (s.(output := []), NoRequest)
    case EraseKey => (s.(value := "", caret := 0, completion := NoCompletion), NoRequest)
    case HomeKey => (s.(caret := 0), NoRequest)
    case EndKey => (s.(caret := |s.value|), NoRequest)
    case UpKey => (UpStep(s), NoRequest)
    case DownKey => (DownStep(s), NoRequest)
    case TabKey(backwards) => (TabStep(s, backwards, p.openPool), NoRequest)
    case EnterKey => SubmitStep(s, p, clock)
    case OtherKey => (s.(completion := NoCompletion), NoRequest)
  }

  /**
   * Enter, with or without modifiers: the trimmed line is echoed after the
   * prompt followed by what processing it prints, the input is emptied with
   * the caret at its start, the completion cycle ends, a non-empty line is
   * appended to the history and ends browsing, and the request is the
   * command's.
   */
  lemma EnterStep(s: Session, ctrl: bool, shift: bool, p: Page, clock: string)
    ensures var command := Trim(s.value);
      var o := Process(command, p.appIds, p.documentIds, clock);
      var (r, req) := KeyStep(s, Key("Enter", ctrl, shift), p, clock);
      && r.value == "" && r.caret == 0 && r.completion == NoCompletion
      && r.output == Respond(s.output + [Prompt(command)], o) && req == RequestOf(o)
      && (command != "" ==> r.history == s.history + [command] && r.historyIndex == -1)
      && (command == "" ==> r.history == s.history && r.historyIndex == s.historyIndex)
  {
  }

  /**
   * The Ctrl shortcuts, in either letter case and with or without Shift:
   * Ctrl+L empties the screen, Ctrl+U empties the input and ends the
   * completion cycle, Ctrl+A and Ctrl+E put the caret at the start and at the
   * end. Nothing else changes and no window is asked for.
   */
  lemma CtrlShortcuts(s: Session, letter: string, shift: bool, p: Page, clock: string)
    ensures var (r, req) := KeyStep(s, Key(letter, true, shift), p, clock);
      && ((letter == "l" || letter == "L") ==> r == s.(output := []) && req == NoRequest)
      && ((letter == "u" || letter == "U") ==> r == s.(value := "", caret := 0, completion := NoCompletion) && req == NoRequest)
      && ((letter == "a" || letter == "A") ==> r == s.(caret := 0) && req == NoRequest)
      && ((letter == "e" || letter == "E") ==> r == s.(caret := |s.value|) && req == NoRequest)
  {
  }

  /** Ctrl+U then Enter submits a blank line: an empty prompt is echoed and nothing is recorded or asked. */
  lemma EraseThenEnter(s: Session, shift: bool, p: Page, clock: string)
    ensures var e := KeyStep(s, Key("u", true, shift), p, clock).0;
      var (r, req) := KeyStep(e, Key("Enter", false, false), p, clock);
      && r.output == s.output + [Prompt("")] && r.history == s.history
      && r.historyIndex == s.historyIndex && req == NoRequest
  {
    CtrlShortcuts(s, "u", shift, p, clock);
    var e := KeyStep(s, Key("u", true, shift), p, clock).0;
    EnterStep(e, false, false, p, clock);
    assert Trim("") == "";
  }

  /**
   * ArrowUp and ArrowDown, with any modifiers: with an empty history neither
   * changes anything, nor does ArrowDown before browsing starts; when they act
   * they show an entry with the caret at its end and end the completion cycle.
   * History and output stay as they are and no window is asked for.
   */
  lemma ArrowKeys(s: Session, ctrl: bool, shift: bool, p: Page, clock: string)
    ensures var (up, upReq) := KeyStep(s, Key("ArrowUp", ctrl, shift), p, clock);
      var (down, downReq) := KeyStep(s, Key("ArrowDown", ctrl, shift), p, clock);
      && upReq == NoRequest && downReq == NoRequest
      && (|s.history| == 0 ==> up == s && down == s)
      && (s.historyIndex == -1 ==> down == s)
      && (|s.history| > 0 ==>
            up.completion == NoCompletion && up.caret == |up.value| && up.history == s.history && up.output == s.output)
      && (|s.history| > 0 && s.historyIndex != -1 ==>
            down.completion == NoCompletion && down.caret == |down.value| && down.history == s.history && down.output == s.output)
  {
  }

  /** ArrowUp on a non-empty history always lands on one of its entries. */
  lemma UpRecalls(s: Session)
    requires SessionInv(s) && |s.history| > 0
    ensures 0 <= UpStep(s).historyIndex < |s.history|
    ensures UpStep(s).value == s.history[UpStep(s).historyIndex]
  {
  }

  /** The browser's own editing after a key's default action: new text, caret clamped to it. */
  function InputStep(s: Session, v: string, c: nat): Session {
    s.(value := v, caret := Min(c, |v|))
  }

  /** Every keydown and every edit keeps the session invariant. */
  lemma KeyStepInv(s: Session, k: Key, p: Page, clock: string)
    requires SessionInv(s)
    ensures SessionInv(KeyStep(s, k, p, clock).0)
  {
    DispatchInv(s, Classify(k), p, clock);
  }

  lemma DispatchInv(s: Session, a: Action, p: Page, clock: string)
    requires SessionInv(s)
    ensures SessionInv(Dispatch(s, a, p, clock).0)
  {
    match a
    case TabKey(backwards) => TabStepInv(s, backwards, p.openPool);
    case EnterKey => SubmitStepInv(s, p, clock);
    case UpKey => UpStepInv(s);
    case DownKey => DownStepInv(s);
    case _ =>
  }

  lemma SubmitStepInv(s: Session, p: Page, clock: string)
    requires SessionInv(s)
    ensures SessionInv(SubmitStep(s, p, clock).0)
  { }

  lemma UpStepInv(s: Session)
    requires SessionInv(s)
    ensures SessionInv(UpStep(s))
  { }

  lemma DownStepInv(s: Session)
    requires SessionInv(s)
    ensures SessionInv(DownStep(s))
  { }

  lemma InputStepInv(s: Session, v: string, c: nat)
    requires SessionInv(s)
    ensures SessionInv(InputStep(s, v, c))
  { }

  /**
   * Any key the handler does not handle ends the completion cycle and changes
   * nothing else; Shift on its own is such a key, so a Shift+Tab typed after a
   * Tab starts a fresh cycle instead of stepping back.
   */
  lemma OtherKeyResets(s: Session, k: Key, p: Page, clock: string)
    requires Classify(k) == OtherKey
    ensures KeyStep(s, k, p, clock) == (s.(completion := NoCompletion), NoRequest)
  { }

  lemma ShiftIsOtherKey(ctrl: bool)
    ensures Classify(Key("Shift", ctrl, true)) == OtherKey
  { }

  /** The window manager's side of a request. */
  function ApplyRequest(d: Desk, req: Request, measured: Size, desktop: Size): Desk {
    match req
    case NoRequest => d
    case OpenRequest(id) => Open(d, id, measured, desktop)
    case CloseRequest(id) => Close(d, id)
  }

  // ---------------------------------------------------------------- the class

  class Terminal {
    const page: Page
    var value: string
    var caret: nat
    var history: seq<string>
    var historyIndex: int
    var completion: CompletionState
    var output: seq<Line>

    ghost function State(): Session
      reads this
    {
      Session(value, caret, history, historyIndex, completion, output)
    }

    /** The terminal at page load: application ids from the desktop icons, the banner with `date`. */
    constructor (opens: seq<Option<string>>, documentIds: set<string>, date: string)
      ensures page == PageOf(opens, documentIds)
      ensures State() == InitialSession(date)
    {
      page := PageOf(opens, documentIds);
      value := "";
      caret := 0;
      history := [];
      historyIndex := -1;
      completion := NoCompletion;
      output := [Banner(date)];
    }

    /** `printPromptAndCmd(cmd)`. */
    method PrintPromptAndCmd(cmd: string)
      modifies this
      ensures State() == old(State()).(output := old(output) + [Prompt(cmd)])
    {
      output := output + [Prompt(cmd)];
    }

    /** `printLine(response, cls)`. */
    method PrintLine(response: Response, cls: Cls)
      modifies this
      ensures State() == old(State()).(output := old(output) + [Result(response, cls)])
    {
      output := output + [Result(response, cls)];
    }

    method ResetCompletion()
      modifies this
      ensures State() == old(State()).(completion := NoCompletion)
    {
      completion := NoCompletion;
    }

    /**
     * `processCommand(command)`: print the reply or clear the screen, and
     * return what the command asks of the window manager (`Perform` carries it out).
     */
    method ProcessCommand(command: string, clock: string) returns (req: Request)
      modifies this
      ensures var o := Process(command, page.appIds, page.documentIds, clock);
        State() == old(State()).(output := Respond(old(output), o)) && req == RequestOf(o)
    {
      var o := Process(command, page.appIds, page.documentIds, clock);
      match o
      case Silent =>
        req := NoRequest;
      case Reply(opens, response, cls) =>
        req := if opens.Some? then OpenRequest(opens.value) else NoRequest;
        PrintLine(response, cls);
      case ClearScreen =>
        output := [];
        req := NoRequest;
      case Exit =>
        req := CloseRequest(TerminalId);
    }

    /** The terminal input's keydown handler: `Classify` picks the branch, in the handler's order. */
    method KeyDown(k: Key, clock: string) returns (req: Request)
      modifies this
      ensures (State(), req) == KeyStep(old(State()), k, page, clock)
    {
      req := NoRequest;
      match Classify(k)
      case ClearKey =>
        output := [];
      case EraseKey =>
        value := "";
        caret := 0;
        ResetCompletion();
      case HomeKey =>
        caret := 0;
      case EndKey =>
        caret := |value|;
      case UpKey =>
        HistoryUp();
      case DownKey =>
        HistoryDown();
      case TabKey(backwards) =>
        AdvanceCompletion(backwards);
        SpliceCompletion();
      case EnterKey =>
        ResetCompletion();
        req := Submit(clock);
      case OtherKey =>
        ResetCompletion();
    }

    /** The ArrowUp branch of the handler. */
    method HistoryUp()
      modifies this
      ensures State() == UpStep(old(State()))
    {
      if |history| > 0 {
        if historyIndex == -1 {
          historyIndex := |history|;
        }
        historyIndex := if historyIndex - 1 < 0 then 0 else historyIndex - 1;
        value := Entry(history, historyIndex);
        caret := |value|;
        ResetCompletion();
      }
    }

    /** The ArrowDown branch of the handler. */
    method HistoryDown()
      modifies this
      ensures State() == DownStep(old(State()))
    {
      if |history| > 0 {
        if historyIndex == -1 {
          return;
        }
        historyIndex := Min(|history|, historyIndex + 1);
        value := if historyIndex >= |history| then "" else Entry(history, historyIndex);
        caret := |value|;
        ResetCompletion();
      }
    }

    /** The first half of the Tab branch: a fresh or advanced completion cycle. */
    method AdvanceCompletion(backwards: bool)
      modifies this
      ensures State() == old(State()).(completion := NextCompletion(old(State()), backwards, page.openPool))
    {
      if completion.snapshot != value || |completion.list| == 0 {
        var comp := ComputeCompletions(value, caret, page.openPool);
        completion := CompletionState(comp.list, 0, comp.start, comp.end, value);
      } else {
        var delta := if backwards then -1 else 1;
        completion := completion.(index := (completion.index + delta + |completion.list|) % |completion.list|);
        assert completion.index == CycleIndex(old(completion.index), |completion.list|, backwards);
      }
    }

    /** The second half of the Tab branch: the current candidate spliced into the input. */
    method SpliceCompletion()
      requires completion.list != [] ==> completion.index < |completion.list|
      modifies this
      ensures State() == Splice(old(State()))
    {
      if |completion.list| > 0 {
        var choice := completion.list[completion.index];
        var nextValue := ApplyCompletion(value, completion.start, completion.end, choice);
        var firstSpace := IndexOf(nextValue[..Min(caret, |nextValue|)], ' ');
        var isFirstToken := firstSpace == -1 || caret <= firstSpace;
        var expectsArg := choice == "open" || choice == "cat";
        var newCaret := completion.start + |choice| + (if expectsArg && isFirstToken then 1 else 0);
        value := nextValue;
        caret := Min(newCaret, |nextValue|);
        completion := completion.(snapshot := value, end := completion.start + |choice|);
      }
    }

    /** The Enter branch of the handler, after the completion reset. */
    method Submit(clock: string) returns (req: Request)
      modifies this
      ensures (State(), req) == SubmitStep(old(State()), page, clock)
    {
      var command := Trim(value);
      RecordCommand(command);
      req := ProcessCommand(command, clock);
      value := "";
      caret := 0;
      ResetCompletion();
    }

    /** Echo `command` after the prompt and, when it is not empty, append it to the history. */
    method RecordCommand(command: string)
      modifies this
      ensures State() == Record(old(State()), command)
    {
      PrintPromptAndCmd(command);
      if command != "" {
        history := history + [command];
        historyIndex := -1;
      }
    }

    /** The browser edits the input (typing, deleting, moving the caret, pasting). */
    method Input(v: string, c: nat)
      modifies this
      ensures State() == InputStep(old(State()), v, c)
    {
      value := v;
      caret := Min(c, |v|);
    }
  }

  /** `openWindow` or `closeWindow`, as a command asked. */
  method Perform(wm: WindowManager, req: Request, measured: Size, desktop: Size)
    requires wm.Valid()
    modifies wm, wm.wins
    ensures wm.State() == ApplyRequest(old(wm.State()), req, measured, desktop) && wm.Valid()
  {
    match req
    case NoRequest =>
    case OpenRequest(id) => wm.OpenWindow(id, measured, desktop);
    case CloseRequest(id) => wm.CloseWindow(id);
  }
}
