/**
 * `processCommand`: what one submitted command line prints and which window
 * request it makes. The printed text is kept abstract: a response names which
 * reply it is and carries the parts of the text that depend on the input.
 */
module Shell {
  import opened Text
  import opened Wrappers
  import opened Catalog

  /** The class a result line carries. */
  datatype Cls = Ok | Error

  /** One entry of the `ls` listing. */
  datatype Item = Dir(name: string) | File(name: string)

  datatype Response =
    | Help
    | WhoAmI
    | Listing(items: seq<Item>)
    | Opening(target: string)
    | AppNotFound(typed: string)     // the first argument, or empty
    | Status
    | ReadingList
    | NoSuchFile(typed: string)      // the first argument as interpolated: `undefined` when missing
    | Socials
    | Contact
    | ClockText(clock: string)       // the live clock's text at that moment
    | CommandNotFound(command: string)

  /** What processing a command does: nothing, print one result line (after opening a window, maybe), clear the screen, or close the terminal. */
  datatype Outcome =
    | Silent
    | Reply(opens: Option<string>, response: Response, cls: Cls)
    | ClearScreen
    | Exit

  /** The id of the terminal's own window, which `exit` closes. */
  const TerminalId: string := "obvterm"

  predicate IsErrorResponse(r: Response) {
    r.AppNotFound? || r.NoSuchFile? || r.CommandNotFound?
  }

  /** The `ls` listing: a directory per application id in page order, then the readable file. */
  function ListingOf(appIds: seq<string>): (items: seq<Item>)
    ensures |items| == |appIds| + 1 && items[|appIds|] == File(ReadableFile)
    ensures forall i :: 0 <= i < |appIds| ==> items[i] == Dir(appIds[i])
  {
    seq(|appIds|, i requires 0 <= i < |appIds| => Dir(appIds[i])) + [File(ReadableFile)]
  }

  /** The name `open` looks up: the arguments rejoined with spaces, one trailing `.txt` dropped, then trimmed. */
  function OpenTarget(args: seq<string>): string {
    Trim(StripTxtSuffix(Join(args, ' ')))
  }

  /** The commands `processCommand` dispatches on; `clear` and `cls` are one. */
  datatype Command = HelpCmd | WhoAmICmd | LsCmd | OpenCmd | StatusCmd | CatCmd | SocialsCmd
                   | ContactCmd | DateCmd | ClearCmd | ExitCmd | UnknownCmd

  /** The `switch` over the lower-cased first word. */
  function CommandOf(cmd: string): Command {
    if cmd == "help" then HelpCmd
    else if cmd == "whoami" then WhoAmICmd
    else if cmd == "ls" then LsCmd
    else if cmd == "open" then OpenCmd
    else if cmd == "status" then StatusCmd
    else if cmd == "cat" then CatCmd
    else if cmd == "socials" then SocialsCmd
    else if cmd == "contact" then ContactCmd
    else if cmd == "date" then DateCmd
    else if cmd == "clear" || cmd == "cls" then ClearCmd
    else if cmd == "exit" then ExitCmd
    else UnknownCmd
  }

  /** `args[0]`, when there is one. */
  function FirstArg(args: seq<string>): Option<string> {
    if |args| > 0 then Some(args[0]) else None
  }

  /**
   * `processCommand(command)` for a command already trimmed by the caller. The
   * first space-separated word, lower-cased, picks the command; the remaining
   * words are its arguments. `appIds` are the desktop's application ids,
   * `documentIds` every element id of the page, `clock` the live clock's text.
   */
  function Process(command: string, appIds: seq<string>, documentIds: set<string>, clock: string): (o: Outcome)
    ensures command == "" <==> o == Silent
    ensures o.Reply? ==> (o.cls == Error <==> IsErrorResponse(o.response))
    ensures o.Reply? && o.opens.Some? ==> o.response == Opening(o.opens.value) && o.cls == Ok
    ensures o.Reply? && o.opens.None? ==> !o.response.Opening?
  {
    if command == "" then Silent
    else
      var words := Split(command, ' ');
      Execute(CommandOf(Lower(words[0])), command, words[1..], appIds, documentIds, clock)
  }

  /**
   * The `switch` of `processCommand`: what command `c` does with the arguments
   * `args`; `command` is the whole line, which an unknown command echoes.
   */
  function Execute(c: Command, command: string, args: seq<string>, appIds: seq<string>, documentIds: set<string>, clock: string): (o: Outcome)
    ensures o != Silent
    ensures o == ClearScreen <==> c == ClearCmd
    ensures o == Exit <==> c == ExitCmd
    ensures o.Reply? && o.opens.Some? ==> c == OpenCmd
    ensures o.Reply? ==> (o.cls == Error <==> IsErrorResponse(o.response))
    ensures o.Reply? && o.opens.Some? ==> o.response == Opening(o.opens.value) && o.cls == Ok
    ensures o.Reply? && o.opens.None? ==> !o.response.Opening?
  {
    match c
    case HelpCmd => Reply(None, Help, Ok)
    case WhoAmICmd => Reply(None, WhoAmI, Ok)
    case LsCmd => Reply(None, Listing(ListingOf(appIds)), Ok)
    case OpenCmd => OpenOutcome(args, documentIds)
    case StatusCmd => Reply(None, Status, Ok)
    case CatCmd => CatOutcome(FirstArg(args))
    case SocialsCmd => Reply(None, Socials, Ok)
    case ContactCmd => Reply(None, Contact, Ok)
    case DateCmd => Reply(None, ClockText(clock), Ok)
    case ClearCmd => ClearScreen
    case ExitCmd => Exit
    case UnknownCmd => Reply(None, CommandNotFound(command), Error)
  }

  /**
   * `open`: the window `resolveAppId` finds for the arguments, or an error that
   * names the first argument (or nothing).
   */
  function OpenOutcome(args: seq<string>, documentIds: set<string>): (o: Outcome)
    ensures o.Reply? && (o.opens.Some? <==> o.cls == Ok)
    ensures o.opens == ResolveAppId(OpenTarget(args), documentIds)
    ensures o.opens.Some? ==> o.response == Opening(o.opens.value)
    ensures o.opens.None? ==> o.response == AppNotFound(if |args| > 0 then args[0] else "")
  {
    match ResolveAppId(OpenTarget(args), documentIds)
    case Some(target) => Reply(Some(target), Opening(target), Ok)
    case None => Reply(None, AppNotFound(if |args| > 0 then args[0] else ""), Error)
  }

  /**
   * `cat`: the reading list when the argument lower-cases to `reading.txt`,
   * otherwise an error naming the argument, `undefined` when there is none.
   */
  function CatOutcome(arg: Option<string>): (o: Outcome)
    ensures o.Reply? && o.opens.None?
    ensures o.cls == Ok <==> arg.Some? && Lower(arg.value) == "reading.txt"
    ensures o.cls == Ok ==> o.response == ReadingList
    ensures o.cls == Error ==> o.response == NoSuchFile(if arg.Some? then arg.value else "undefined")
  {
    if arg.Some? && Lower(arg.value) == "reading.txt" then Reply(None, ReadingList, Ok)
    else Reply(None, NoSuchFile(if arg.Some? then arg.value else "undefined"), Error)
  }

  /** Whether `name`, lower-cased, is one of the commands the interpreter dispatches on. */
  predicate IsCommand(name: string) {
    CommandOf(Lower(name)) != UnknownCmd
  }

  /**
   * Command names are case-insensitive: two lines whose first words agree up
   * to letter case and whose arguments agree do the same thing, when that word
   * is a command. An unknown word is echoed back as typed, so there case matters.
   */
  lemma ProcessIgnoresCommandCase(c1: string, c2: string, appIds: seq<string>, ids: set<string>, clock: string)
    requires c1 != "" && c2 != ""
    requires Lower(Split(c1, ' ')[0]) == Lower(Split(c2, ' ')[0]) && Split(c1, ' ')[1..] == Split(c2, ' ')[1..]
    ensures IsCommand(Split(c1, ' ')[0]) ==> Process(c1, appIds, ids, clock) == Process(c2, appIds, ids, clock)
    ensures !IsCommand(Split(c1, ' ')[0]) ==>
      Process(c1, appIds, ids, clock) == Reply(None, CommandNotFound(c1), Error)
      && Process(c2, appIds, ids, clock) == Reply(None, CommandNotFound(c2), Error)
  {
  }

  /** `open` opens exactly what `resolveAppId` finds for its arguments, and reports failure otherwise. */
  lemma OpenDispatch(command: string, appIds: seq<string>, ids: set<string>, clock: string)
    requires command != "" && Lower(Split(command, ' ')[0]) == "open"
    ensures var args := Split(command, ' ')[1..];
      Process(command, appIds, ids, clock) ==
        match ResolveAppId(OpenTarget(args), ids)
        case Some(t) => Reply(Some(t), Opening(t), Ok)
        case None => Reply(None, AppNotFound(if |args| > 0 then args[0] else ""), Error)
  {
    var words := Split(command, ' ');
    CommandNames(Lower(words[0]));
    assert CommandOf(Lower(words[0])) == OpenCmd;
  }

  /** Only `open` opens a window. */
  lemma OnlyOpenOpens(command: string, appIds: seq<string>, ids: set<string>, clock: string)
    requires command != ""
    ensures var o := Process(command, appIds, ids, clock);
      (o.Reply? && o.opens.Some?) ==> Lower(Split(command, ' ')[0]) == "open"
  {
    var words := Split(command, ' ');
    CommandNames(Lower(words[0]));
  }

  /** Only `exit` closes the terminal, in any letter case. */
  lemma OnlyExitExits(command: string, appIds: seq<string>, ids: set<string>, clock: string)
    requires command != ""
    ensures Process(command, appIds, ids, clock) == Exit <==> Lower(Split(command, ' ')[0]) == "exit"
  {
    var words := Split(command, ' ');
    CommandNames(Lower(words[0]));
  }

  /** The words that select `open` and `exit`. */
  lemma CommandNames(w: string)
    ensures CommandOf(w) == OpenCmd <==> w == "open"
    ensures CommandOf(w) == ExitCmd <==> w == "exit"
  {
  }

  /** The one command spelled two ways: `clear` and `cls`. */
  lemma ClearNames(w: string)
    ensures CommandOf(w) == ClearCmd <==> w == "clear" || w == "cls"
  {
  }

  /**
   * What each command does, keyed on the lower-cased first word: `clear` and
   * `cls` clear the screen, `exit` closes the terminal, every other command
   * prints exactly one result line; `ls` lists the application ids then the
   * readable file, `date` prints the clock, an unknown word is echoed whole.
   */
  lemma ProcessOutcomes(command: string, appIds: seq<string>, ids: set<string>, clock: string)
    requires command != ""
    ensures var c := CommandOf(Lower(Split(command, ' ')[0]));
      var o := Process(command, appIds, ids, clock);
      && (o == ClearScreen <==> c == ClearCmd)
      && (o == Exit <==> c == ExitCmd)
      && (o.Reply? <==> c != ClearCmd && c != ExitCmd)
      && (c == HelpCmd ==> o == Reply(None, Help, Ok))
      && (c == WhoAmICmd ==> o == Reply(None, WhoAmI, Ok))
      && (c == LsCmd ==> o == Reply(None, Listing(ListingOf(appIds)), Ok))
      && (c == StatusCmd ==> o == Reply(None, Status, Ok))
      && (c == SocialsCmd ==> o == Reply(None, Socials, Ok))
      && (c == ContactCmd ==> o == Reply(None, Contact, Ok))
      && (c == DateCmd ==> o == Reply(None, ClockText(clock), Ok))
      && (c == UnknownCmd ==> o == Reply(None, CommandNotFound(command), Error))
      && (c == OpenCmd ==> o == OpenOutcome(Split(command, ' ')[1..], ids))
      && (c == CatCmd ==> o == CatOutcome(FirstArg(Split(command, ' ')[1..])))
  {
  }

  /** A line of two space-free words splits into those two words. */
  lemma TwoWords(w: string, t: string)
    requires ' ' !in w && ' ' !in t
    ensures Split(w + " " + t, ' ') == [w, t]
  {
    SplitJoin([w, t], ' ');
    assert Join([w, t], ' ') == w + " " + t;
  }

  /** A space-free line is one word. */
  lemma OneWord(w: string)
    requires ' ' !in w
    ensures Split(w, ' ') == [w]
  {
    SplitJoin([w], ' ');
  }

  /** `cat` with no argument reports the file `undefined`. */
  lemma CatWithoutFile(appIds: seq<string>, ids: set<string>, clock: string)
    ensures Process("cat", appIds, ids, clock) == Reply(None, NoSuchFile("undefined"), Error)
  {
    CatWord();
  }

  lemma CatWord()
    ensures Split("cat", ' ') == ["cat"]
    ensures CommandOf(Lower("cat")) == CatCmd
  {
    assert ' ' !in "cat";
    OneWord("cat");
    CatIsCommand();
  }

  /**
   * `cat` with one argument reads the list exactly when the name lower-cases to
   * `reading.txt`, so in any letter case, and otherwise echoes the name in an error.
   */
  lemma CatFile(file: string, appIds: seq<string>, ids: set<string>, clock: string)
    requires ' ' !in file
    ensures Process("cat " + file, appIds, ids, clock) ==
      if Lower(file) == "reading.txt" then Reply(None, ReadingList, Ok) else Reply(None, NoSuchFile(file), Error)
  {
    CatWords(file);
    assert ["cat", file][1..] == [file];
  }

  lemma CatWords(file: string)
    requires ' ' !in file
    ensures Split("cat " + file, ' ') == ["cat", file]
    ensures CommandOf(Lower("cat")) == CatCmd
  {
    assert ' ' !in "cat";
    TwoWords("cat", file);
    assert "cat" + " " + file == "cat " + file;
    CatIsCommand();
  }

  // One fact about the literal `cat`; checking the literal inside CatWords' context costs far more.
  lemma CatIsCommand()
    ensures CommandOf(Lower("cat")) == CatCmd
  {
    LowerOfLowerCase("cat");
  }

  /** The file name `ls` shows lower-cases to the one `cat` reads. */
  lemma ReadableFileName()
    ensures Lower(ReadableFile) == "reading.txt"
  {
  }
}
