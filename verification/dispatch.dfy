/** The event loop of src/main.rs with its terminal I/O stripped away: which
    key reaches which `App` command on which screen, the global Ctrl+C exit,
    the quit check and the rule that ticks the statistics while typing. The
    per-screen handlers are the only screen guard; the commands themselves
    never look at the screen. */
module Dispatch {
  import opened Snippets
  import opened Session

  /** The key codes the handlers tell apart; `Other` stands for every other
      code the terminal can deliver (arrows left and right, Tab, function keys,
      ...), none of which any handler reacts to. */
  datatype KeyCode = Up | Down | Enter | Esc | BackspaceKey | Char(c: char) | Other

  /** A key press; of all modifiers only Control is ever consulted. */
  datatype KeyEvent = KeyEvent(code: KeyCode, control: bool)

  predicate IsMenuUp(key: KeyCode) { key == Up || key == Char('k') }
  predicate IsMenuDown(key: KeyCode) { key == Down || key == Char('j') }
  predicate IsMenuStart(key: KeyCode) { key == Enter || key == Char(' ') }
  predicate IsRetry(key: KeyCode) { key == Enter || key == Char('r') }
  predicate IsLeave(key: KeyCode) { key == Esc || key == Char('q') }

  /** `handle_menu`: Up/k and Down/j move the selection, Enter/space starts a
      round, q asks to quit; any other key is ignored. */
  function HandleMenu(app: App, key: KeyCode, pick: nat): (r: App)
    requires IsMenuStart(key) ==> app.selectedMenu < |MenuOptions|
    ensures IsMenuUp(key) ==> r == MenuPrev(app)
    ensures IsMenuDown(key) ==> r == MenuNext(app)
    ensures IsMenuStart(key) ==> r == StartSession(app, pick)
    ensures key == Char('q') ==> r == Quit(app)
    ensures !IsMenuUp(key) && !IsMenuDown(key) && !IsMenuStart(key) && key != Char('q') ==> r == app
    ensures r.shouldQuit <==> app.shouldQuit || key == Char('q')
    ensures !IsMenuStart(key) ==> r.chars == app.chars && r.cursor == app.cursor && r.screen == app.screen
  {
    if IsMenuUp(key) then MenuPrev(app)
    else if IsMenuDown(key) then MenuNext(app)
    else if IsMenuStart(key) then StartSession(app, pick)
    else if key == Char('q') then Quit(app)
    else app
  }

  /** `handle_typing`: Esc leaves for the menu, Backspace erases, and every
      character key, q, r and n included, is typed; any other key is ignored.
      The two clock readings are those of `TypeChar`. */
  function HandleTyping(app: App, key: KeyCode, now: Instant, later: Instant): (r: App)
    requires key == BackspaceKey ==> CanErase(app)
    requires key.Char? ==> CanType(app, key.c, now)
    ensures key == Esc ==> r == GoToMenu(app)
    ensures key == BackspaceKey ==> r == Backspace(app, later)
    ensures key.Char? ==> r == TypeChar(app, key.c, now, later)
    ensures key.Char? && app.cursor < |app.chars| ==> r.cursor == app.cursor + 1
    ensures key == Up || key == Down || key == Enter || key == Other ==> r == app
    ensures r.shouldQuit == app.shouldQuit && r.chars == app.chars && r.language == app.language
  {
    match key
    case Esc => GoToMenu(app)
    case BackspaceKey => Backspace(app, later)
    case Char(c) => TypeChar(app, c, now, later)
    case _ => app
  }

  /** `handle_results`: Enter/r retries, n asks for a new text, Esc/q leaves
      for the menu; any other key is ignored. No key types or erases. */
  function HandleResults(app: App, key: KeyCode, pick: nat): (r: App)
    ensures IsRetry(key) ==> r == RestartSession(app, pick)
    ensures key == Char('n') ==> r == NewSnippet(app, pick)
    ensures IsLeave(key) ==> r == GoToMenu(app)
    ensures !IsRetry(key) && key != Char('n') && !IsLeave(key) ==> r == app
    ensures r == app || r == GoToMenu(app) || (r.screen == Typing && FreshRound(r))
    ensures r.shouldQuit == app.shouldQuit && r.language == app.language
  {
    if IsRetry(key) then RestartSession(app, pick)
    else if key == Char('n') then NewSnippet(app, pick)
    else if IsLeave(key) then GoToMenu(app)
    else app
  }

  /** The states the event loop can be in. Besides the round invariant (and
      `errors <= cursor`, which it implies and which keeps the accuracy formula
      defined): the text is never empty, the menu selection is in range, the
      statistics are in their ranges, a round being typed is not finished,
      and the results screen shows a completed, timed round. */
  predicate Valid(app: App)
  {
    && WellFormed(app)
    && app.errors <= app.cursor
    && |app.chars| > 0
    && app.selectedMenu < |MenuOptions|
    && app.wpm >= 0.0
    && 0.0 <= app.accuracy <= 100.0
    && !app.shouldQuit
    && (app.screen == Typing ==> app.finishedAt.None?)
    && (app.screen == Results ==>
          app.cursor == |app.chars| && app.startedAt.Some? && app.finishedAt.Some?)
  }

  /** Whether the loop keeps going, and the state it leaves behind. */
  datatype Loop = Running(app: App) | Stopped(app: App)

  /** Ctrl+C, which ends the program on every screen before any handler runs. */
  predicate IsInterrupt(key: KeyEvent)
  {
    key.code == Char('c') && key.control
  }

  /** The handler of the current screen. Only q in the menu asks to quit,
      only the menu changes the language, and the text changes only when a
      round is loaded from the menu or the results screen. */
  function HandleKey(app: App, key: KeyCode, now: Instant, later: Instant, pick: nat): (r: App)
    requires Valid(app)
    ensures r.shouldQuit <==> app.screen == Menu && key == Char('q')
    ensures app.screen != Menu ==> r.language == app.language
    ensures app.screen == Typing ==> r.chars == app.chars
  {
    WellFormedIsSafe(app, if key.Char? then key.c else ' ', now);
    match app.screen
    case Menu => HandleMenu(app, key, pick)
    case Typing => HandleTyping(app, key, now, later)
    case Results => HandleResults(app, key, pick)
  }

  /** One iteration of `run` after drawing: `event` is the key read, or None
      when the poll timed out or delivered something other than a key. A key
      goes to the handler of the current screen unless it is Ctrl+C; the loop
      stops on Ctrl+C or once the quit flag is up; otherwise the statistics
      tick if the typing screen is showing. `now` is the clock reading that
      stamps the start of a round; `later` is the one the statistics, the
      finish stamp and the tick are taken at. */
  function Step(app: App, event: Option<KeyEvent>, now: Instant, later: Instant, pick: nat): (l: Loop)
    requires Valid(app)
    ensures l.Running? ==> Valid(l.app)
    ensures l.Stopped? ==> Valid(l.app.(shouldQuit := false))
  {
    match event
    case None =>
      if app.screen == Typing then TickKeepsValid(app, later); Running(Tick(app, later))
      else Running(app)
    case Some(key) =>
      if IsInterrupt(key) then Stopped(app)
      else
        var next := HandleKey(app, key.code, now, later, pick);
        ValidAfterKey(app, key.code, now, later, pick);
        if next.shouldQuit then Stopped(next)
        else if next.screen == Typing then TickKeepsValid(next, later); Running(Tick(next, later))
        else Running(next)
  }

  /** The tick on the typing screen keeps the loop invariant. */
  lemma TickKeepsValid(app: App, now: Instant)
    requires Valid(app) && app.screen == Typing
    ensures SubtractionSafe(app) && Valid(Tick(app, now))
  {
  }

  /** Ctrl+C stops the loop on every screen, before any handler runs. */
  lemma InterruptStops(app: App, key: KeyEvent, now: Instant, later: Instant, pick: nat)
    requires Valid(app) && IsInterrupt(key)
    ensures Step(app, Some(key), now, later, pick) == Stopped(app)
  {
  }

  /** The loop stops exactly on Ctrl+C or on q in the menu, and q in the menu
      is the only way the quit flag goes up. */
  lemma StopsOnlyOnInterruptOrMenuQuit(app: App, event: Option<KeyEvent>, now: Instant, later: Instant,
                                       pick: nat)
    requires Valid(app)
    ensures Step(app, event, now, later, pick).Stopped? <==>
              event.Some? && (IsInterrupt(event.value)
                              || (app.screen == Menu && event.value.code == Char('q')))
    ensures Step(app, event, now, later, pick).app.shouldQuit ==>
              event.Some? && app.screen == Menu && event.value.code == Char('q')
  {
  }

  /** Without a key the loop only ticks, and only on the typing screen. */
  lemma TickOnlyWhileTyping(app: App, now: Instant, later: Instant, pick: nat)
    requires Valid(app)
    ensures app.screen != Typing ==> Step(app, None, now, later, pick) == Running(app)
    ensures app.screen == Typing ==> Step(app, None, now, later, pick) == Running(Tick(app, later))
  {
  }

  /** Typing is entered only on a fresh round. */
  lemma TypingEntersFresh(app: App, event: Option<KeyEvent>, now: Instant, later: Instant, pick: nat)
    requires Valid(app)
    ensures var next := Step(app, event, now, later, pick).app;
            app.screen != Typing && next.screen == Typing ==> FreshRound(next)
  {
  }

  /** Results are entered only by typing the last character of the text. */
  lemma ResultsOnlyOnCompletion(app: App, event: Option<KeyEvent>, now: Instant, later: Instant, pick: nat)
    requires Valid(app)
    ensures var next := Step(app, event, now, later, pick).app;
            app.screen != Results && next.screen == Results ==>
              && app.screen == Typing
              && event.Some? && event.value.code.Char?
              && next.cursor == app.cursor + 1 == |next.chars|
  {
    if app.screen == Typing && event.Some? && !IsInterrupt(event.value) {
      ValidAfterTyping(app, event.value.code, now, later);
    }
  }

  /** Results are left only for the typing screen or the menu; a state that
      stays on the results screen is unchanged. */
  lemma ResultsStayPut(app: App, event: Option<KeyEvent>, now: Instant, later: Instant, pick: nat)
    requires Valid(app)
    ensures var next := Step(app, event, now, later, pick).app;
            app.screen == Results && next.screen == Results ==> next == app
  {
  }

  /** Every handler keeps the loop's invariant, up to the quit flag. */
  lemma ValidAfterKey(app: App, key: KeyCode, now: Instant, later: Instant, pick: nat)
    requires Valid(app)
    ensures Valid(HandleKey(app, key, now, later, pick).(shouldQuit := false))
  {
    match app.screen
    case Menu => ValidAfterMenu(app, key, pick);
    case Typing => ValidAfterTyping(app, key, now, later);
    case Results => ValidAfterResults(app, key, pick);
  }

  /** The menu handler keeps the loop invariant, the quit flag aside. */
  lemma ValidAfterMenu(app: App, key: KeyCode, pick: nat)
    requires Valid(app) && app.screen == Menu
    ensures Valid(HandleMenu(app, key, pick).(shouldQuit := false))
  {
  }

  /** The results handler keeps the loop invariant. */
  lemma ValidAfterResults(app: App, key: KeyCode, pick: nat)
    requires Valid(app) && app.screen == Results
    ensures Valid(HandleResults(app, key, pick))
  {
  }

  /** On the typing screen the handler's preconditions hold, and every key
      keeps the loop invariant. */
  lemma ValidAfterTyping(app: App, key: KeyCode, now: Instant, later: Instant)
    requires Valid(app) && app.screen == Typing
    ensures CanErase(app) && (key.Char? ==> CanType(app, key.c, now))
    ensures Valid(HandleTyping(app, key, now, later))
  {
    WellFormedIsSafe(app, if key.Char? then key.c else ' ', now);
    match key
    case Char(c) => ValidAfterTypeChar(app, c, now, later);
    case BackspaceKey => ValidAfterBackspace(app, later);
    case _ =>
  }

  /** Typing a character keeps the loop invariant; the last one reaches a
      completed, timed round on the results screen. */
  lemma ValidAfterTypeChar(app: App, c: char, now: Instant, later: Instant)
    requires Valid(app) && app.screen == Typing && CanType(app, c, now)
    ensures Valid(TypeChar(app, c, now, later))
  {
    var next := TypeChar(app, c, now, later);
    WellFormedIsSafe(next, ' ', now);
    if app.cursor < |app.chars| {
      assert next.cursor > 0;
    }
  }

  /** Erasing keeps the loop invariant. */
  lemma ValidAfterBackspace(app: App, now: Instant)
    requires Valid(app) && app.screen == Typing && CanErase(app)
    ensures Valid(Backspace(app, now))
  {
    WellFormedIsSafe(Backspace(app, now), ' ', now);
  }

  /** The program starts in a state the loop can be in. */
  lemma NewIsValid(pick: nat)
    ensures Valid(New(pick))
  {
  }

  /** One poll of the loop: what was read, the two clock readings of the
      iteration, and what the random draw would return should a text be
      loaded. */
  datatype Input = Input(event: Option<KeyEvent>, now: Instant, later: Instant, pick: nat)

  /** `run` over a finite sequence of polls: stops at the first iteration
      that ends the program, and every state it passes through is valid. */
  function Run(app: App, inputs: seq<Input>): (l: Loop)
    requires Valid(app)
    ensures l.Running? ==> Valid(l.app)
    ensures l.Stopped? ==> Valid(l.app.(shouldQuit := false))
    ensures inputs == [] ==> l == Running(app)
    decreases |inputs|
  {
    if inputs == [] then Running(app)
    else
      match Step(app, inputs[0].event, inputs[0].now, inputs[0].later, inputs[0].pick)
      case Stopped(last) => Stopped(last)
      case Running(next) => Run(next, inputs[1..])
  }
}
