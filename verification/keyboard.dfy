/** The interactive main loop: startup validation of the sort option, and
    the two-state keyboard machine that either watches for commands or
    captures a new sort key. */
module Keyboard {
  import opened Outcomes
  import Conn

  /** The options shared between the main loop and the display loop. */
  datatype Opts = Opts(host: string, port: int, conns: int, delay: int, sort: string, header: string)

  /** The main loop's state: the options, and whether a sort key is being entered. */
  datatype Ui = Ui(opts: Opts, waitingSortOption: bool)

  /** What a key line leads to: the next state, or a clean exit. */
  datatype Next = Continue(ui: Ui) | Quit

  /** The table of sort values accepted at startup. */
  const SortingOptions: map<string, bool> := map[
    "cid" := true,
    "subs" := true,
    "pending" := true,
    "msgs_to" := true,
    "msgs_from" := true,
    "bytes_to" := true,
    "bytes_from" := true]

  /** A sort value is valid when it names one of the seven orderings. */
  predicate ValidSort(sort: string) {
    Conn.KeyOfName(sort).Some?
  }

  /** The startup check of the requested sort value: accepted exactly when it
      names an ordering, otherwise the program prints the choices and exits. */
  function ValidateSortOption(sortBy: string): (r: Result<string, string>)
    ensures r.Success? <==> ValidSort(sortBy)
    ensures r.Success? ==> r.value == sortBy
    ensures r.Failure? ==> r.error == sortBy
  {
    if sortBy in SortingOptions && SortingOptions[sortBy] then Success(sortBy) else Failure(sortBy)
  }

  /** The state the main loop starts in, or the rejected sort value. */
  function Start(host: string, port: int, conns: int, delay: int, sortBy: string): (r: Result<Ui, string>)
    ensures r.Success? <==> ValidSort(sortBy)
    ensures r.Success? ==>
      r.value == Ui(Opts(host, port, conns, delay, sortBy, ""), false) && ValidSort(r.value.opts.sort)
  {
    match ValidateSortOption(sortBy)
    case Success(sort) => Success(Ui(Opts(host, port, conns, delay, sort, ""), false))
    case Failure(bad) => Failure(bad)
  }

  const Esc: char := 27 as char

  /** The prompt written over the screen while a sort key is entered; it
      shows the current key. */
  function SortPrompt(sort: string): (r: string)
    ensures |r| >= |sort| + 4 && r[|r| - |sort| - 4..] == "[" + sort + "]: "
  {
    [Esc] + "[1;1H" + [Esc] + "[6;1Hsort by [" + sort + "]: "
  }

  /** The sort value a key line selects at the prompt: the line is the
      name of an ordering followed by a newline. */
  function SortSelection(keys: string): Option<string> {
    if |keys| >= 1 && keys[|keys| - 1] == '\n' && ValidSort(keys[..|keys| - 1])
    then Some(keys[..|keys| - 1])
    else None
  }

  /** One key line read by the main loop. Outside sort entry, "o" starts it
      and "q" quits; everything else is ignored. During sort entry every
      line ends it and clears the prompt, and only a line naming an
      ordering changes the sort value. */
  function OnKeys(ui: Ui, keys: string): (r: Next)
    ensures r.Quit? <==> !ui.waitingSortOption && keys == "q\n"
    ensures !ui.waitingSortOption && keys == "o\n" ==>
      r == Continue(Ui(ui.opts.(header := SortPrompt(ui.opts.sort)), true))
    ensures !ui.waitingSortOption && keys != "o\n" && keys != "q\n" ==> r == Continue(ui)
    ensures ui.waitingSortOption ==>
      && r.Continue?
      && !r.ui.waitingSortOption
      && r.ui.opts == ui.opts.(header := "", sort := match SortSelection(keys)
                                                   case Some(name) => name
                                                   case None => ui.opts.sort)
  {
    if !ui.waitingSortOption && keys == "o\n" then
      Continue(Ui(ui.opts.(header := SortPrompt(ui.opts.sort)), true))
    else if !ui.waitingSortOption && keys == "q\n" then
      Quit
    else if ui.waitingSortOption then
      var sort :=
        if keys == "cid\n" then "cid"
        else if keys == "subs\n" then "subs"
        else if keys == "pending\n" then "pending"
        else if keys == "msgs_to\n" then "msgs_to"
        else if keys == "msgs_from\n" then "msgs_from"
        else if keys == "bytes_to\n" then "bytes_to"
        else if keys == "bytes_from\n" then "bytes_from"
        else ui.opts.sort;
      Continue(Ui(ui.opts.(sort := sort, header := ""), false))
    else
      Continue(ui)
  }

  /** The main loop over a sequence of key lines; a quit ends it. */
  function Session(ui: Ui, inputs: seq<string>): (r: Next)
    ensures r.Quit? ==> exists i :: 0 <= i < |inputs| && inputs[i] == "q\n"
    decreases |inputs|
  {
    if |inputs| == 0 then Continue(ui)
    else
      match OnKeys(ui, inputs[0])
      case Quit => Quit
      case Continue(next) => Session(next, inputs[1..])
  }

  /** The sort value stays one of the seven names through every key line,
      and the connection settings are never touched. */
  lemma {:induction false} SessionKeepsSortValid(ui: Ui, inputs: seq<string>)
    requires ValidSort(ui.opts.sort)
    ensures Session(ui, inputs).Continue? ==>
      && ValidSort(Session(ui, inputs).ui.opts.sort)
      && Session(ui, inputs).ui.opts.host == ui.opts.host
      && Session(ui, inputs).ui.opts.port == ui.opts.port
      && Session(ui, inputs).ui.opts.conns == ui.opts.conns
      && Session(ui, inputs).ui.opts.delay == ui.opts.delay
    decreases |inputs|
  {
    if |inputs| > 0 {
      match OnKeys(ui, inputs[0])
      case Quit =>
      case Continue(next) =>
        if ui.waitingSortOption {
          var keys := inputs[0];
          if SortSelection(keys).Some? {
            assert ValidSort(keys[..|keys| - 1]);
          }
        }
        SessionKeepsSortValid(next, inputs[1..]);
    }
  }

  /** Entering sort mode and then naming an ordering selects it and clears the prompt. */
  lemma SortEntrySelects(ui: Ui, k: Conn.SortKey)
    requires !ui.waitingSortOption
    ensures Session(ui, ["o\n", Conn.Name(k) + "\n"])
      == Continue(Ui(ui.opts.(header := "", sort := Conn.Name(k)), false))
  {
    var keys := Conn.Name(k) + "\n";
    assert keys[..|keys| - 1] == Conn.Name(k);
    Conn.NameRoundTrip(k);
    SortEntryThen(ui, keys);
  }

  /** An unrecognised line at the prompt leaves the sort value as it was. */
  lemma UnrecognisedSortKeepsSort(ui: Ui, keys: string)
    requires !ui.waitingSortOption && SortSelection(keys).None?
    ensures Session(ui, ["o\n", keys]) == Continue(Ui(ui.opts.(header := ""), false))
  {
    SortEntryThen(ui, keys);
  }

  /** "q" at the prompt is taken as an (unknown) sort entry, not as quit. */
  lemma QuitIgnoredDuringSortEntry(ui: Ui)
    requires !ui.waitingSortOption
    ensures Session(ui, ["o\n", "q\n"]) == Continue(Ui(ui.opts.(header := ""), false))
  {
    assert !ValidSort("q");
    UnrecognisedSortKeepsSort(ui, "q\n");
  }

  /** Two key lines: "o", then one entry at the prompt. */
  lemma SortEntryThen(ui: Ui, keys: string)
    requires !ui.waitingSortOption
    ensures Session(ui, ["o\n", keys]) == OnKeys(Ui(ui.opts.(header := SortPrompt(ui.opts.sort)), true), keys)
  {
    var prompt := Ui(ui.opts.(header := SortPrompt(ui.opts.sort)), true);
    assert ["o\n", keys][1..] == [keys];
    assert [keys][1..] == [];
    var inputs := ["o\n", keys];
    assert inputs[0] == "o\n";
    assert OnKeys(ui, inputs[0]) == Continue(prompt);
    assert Session(ui, inputs) == Session(prompt, [keys]);
    assert OnKeys(prompt, keys).Continue?;
    assert Session(prompt, [keys]) == Session(OnKeys(prompt, keys).ui, []);
  }
}
