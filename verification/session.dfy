/** The typing-session engine of src/app.rs: the screen state machine, the
    per-character bookkeeping of one round and the live statistics derived
    from it. Every `&mut self` method becomes a pure function from the old
    `App` to the new one; every clock read becomes an `Instant` parameter and
    every random draw a `pick` parameter. */
module Session {
  import opened Snippets

  datatype Option<T> = None | Some(value: T)

  datatype Screen = Menu | Typing | Results

  datatype CharState = Untyped | Correct | Wrong

  /** A reading of the monotonic clock, in seconds. */
  type Instant = real

  datatype App = App(
    screen: Screen,
    selectedMenu: nat,
    language: Language,
    // the round: the text, one state per character, the next position to
    // type and the number of positions currently marked wrong
    chars: seq<char>,
    charStates: seq<CharState>,
    cursor: nat,
    errors: nat,
    startedAt: Option<Instant>,
    finishedAt: Option<Instant>,
    // live statistics
    wpm: real,
    accuracy: real,
    shouldQuit: bool)

  /* ---------------------------------------------------------------------- */
  /* Counting character states                                                */
  /* ---------------------------------------------------------------------- */

  /** The number of positions of `s` in state `x`. */
  function Count(s: seq<CharState>, x: CharState): (n: nat)
    ensures n <= |s|
    ensures n == 0 <==> forall i :: 0 <= i < |s| ==> s[i] != x
    ensures n == |s| <==> forall i :: 0 <= i < |s| ==> s[i] == x
    decreases |s|
  {
    if s == [] then 0 else (if s[0] == x then 1 else 0) + Count(s[1..], x)
  }

  lemma {:induction false} CountAppend(a: seq<CharState>, b: seq<CharState>, x: CharState)
    ensures Count(a + b, x) == Count(a, x) + Count(b, x)
    decreases |a|
  {
    if a == [] {
      assert a + b == b;
    } else {
      assert (a + b)[1..] == a[1..] + b;
      CountAppend(a[1..], b, x);
    }
  }

  /** Overwriting one position moves it from one count to another. */
  lemma CountUpdate(s: seq<CharState>, i: nat, y: CharState, x: CharState)
    requires i < |s|
    ensures Count(s[i := y], x)
            == Count(s, x) - (if s[i] == x then 1 else 0) + (if y == x then 1 else 0)
  {
    var pre, post := s[..i], s[i + 1..];
    assert s == pre + [s[i]] + post;
    assert s[i := y] == pre + [y] + post;
    CountAppend(pre + [s[i]], post, x);
    CountAppend(pre, [s[i]], x);
    CountAppend(pre + [y], post, x);
    CountAppend(pre, [y], x);
  }

  /** Every position is in exactly one of the three states. */
  lemma {:induction false} CountPartition(s: seq<CharState>)
    ensures Count(s, Untyped) + Count(s, Correct) + Count(s, Wrong) == |s|
    decreases |s|
  {
    if s != [] {
      CountPartition(s[1..]);
    }
  }

  /* ---------------------------------------------------------------------- */
  /* The round invariant                                                      */
  /* ---------------------------------------------------------------------- */

  /** One state per character; the typed prefix `[0, cursor)` holds no
      `Untyped` position, the rest holds nothing else; `errors` counts the
      `Wrong` positions. */
  predicate WellFormed(app: App)
  {
    && |app.charStates| == |app.chars|
    && app.cursor <= |app.chars|
    && (forall i :: 0 <= i < app.cursor ==> app.charStates[i] != Untyped)
    && (forall i :: app.cursor <= i < |app.charStates| ==> app.charStates[i] == Untyped)
    && app.errors == Count(app.charStates, Wrong)
  }

  /** In a well-formed round every typed position is either correct or wrong. */
  lemma TypedSplit(app: App)
    requires WellFormed(app)
    ensures Count(app.charStates, Correct) + Count(app.charStates, Wrong) == app.cursor
    ensures Count(app.charStates, Untyped) == |app.chars| - app.cursor
  {
    var s := app.charStates;
    var typed, rest := s[..app.cursor], s[app.cursor..];
    assert s == typed + rest;
    CountAppend(typed, rest, Untyped);
    CountAppend(typed, rest, Correct);
    CountAppend(typed, rest, Wrong);
    CountPartition(typed);
    assert Count(typed, Untyped) == 0;
    assert Count(rest, Untyped) == |rest|;
  }

  /* ---------------------------------------------------------------------- */
  /* Statistics                                                               */
  /* ---------------------------------------------------------------------- */

  /** `Instant::duration_since` in seconds, which saturates at zero when the
      later reading is not later. */
  function Since(start: Instant, now: Instant): (d: real)
    ensures d >= 0.0
    ensures start <= now ==> start + d == now
  {
    if now > start then now - start else 0.0
  }

  /** The `usize` subtraction `typed - errors` in `update_stats` is reached
      only once a round has started and something is typed; there it must
      not underflow. */
  predicate SubtractionSafe(app: App)
  {
    app.startedAt.None? || app.cursor == 0 || app.errors <= app.cursor
  }

  /** `wpm` words per minute over `elapsed` seconds make `correct`
      characters, five characters to a word. */
  predicate RateMatches(wpm: real, correct: nat, elapsed: real)
  {
    wpm * (elapsed / 60.0) == correct as real / 5.0
  }

  /** Words per minute, five characters to a word: `correct` characters
      typed in `elapsed` seconds. */
  function WordsPerMinute(correct: nat, elapsed: real): (w: real)
    requires elapsed > 0.0
    ensures w >= 0.0
    ensures RateMatches(w, correct, elapsed)
  {
    (correct as real / 5.0) / (elapsed / 60.0)
  }

  /** `accuracy` percent of `typed` positions are the ones not in `errors`. */
  predicate AccuracyMatches(accuracy: real, typed: nat, errors: nat)
  {
    accuracy * typed as real == 100.0 * (typed - errors) as real
  }

  /** The percentage of the `typed` positions that are not errors. */
  function AccuracyPercent(typed: nat, errors: nat): (a: real)
    requires 0 < typed && errors <= typed
    ensures 0.0 <= a <= 100.0
    ensures AccuracyMatches(a, typed, errors)
    ensures errors == 0 ==> a == 100.0
  {
    var share := (typed - errors) as real / typed as real;
    assert share * typed as real == (typed - errors) as real;
    assert 0.0 <= share <= 1.0;
    assert errors == 0 ==> share == 1.0;
    share * 100.0
  }

  /** `update_stats`: with a started round, words per minute over the correct
      positions when some time has passed, and the share of typed positions
      not counted as errors when something is typed. */
  function UpdateStats(app: App, now: Instant): (r: App)
    requires SubtractionSafe(app)
    ensures r == app.(wpm := r.wpm, accuracy := r.accuracy)
    ensures app.startedAt.None? ==> r == app
    ensures app.startedAt.Some? && Since(app.startedAt.value, now) > 0.0 ==>
              && r.wpm >= 0.0
              && RateMatches(r.wpm, Count(app.charStates, Correct), Since(app.startedAt.value, now))
    ensures app.startedAt.Some? && Since(app.startedAt.value, now) == 0.0 ==> r.wpm == app.wpm
    ensures app.startedAt.Some? && app.cursor > 0 ==>
              && 0.0 <= r.accuracy <= 100.0
              && AccuracyMatches(r.accuracy, app.cursor, app.errors)
    ensures app.startedAt.Some? && app.cursor > 0 && app.errors == 0 ==> r.accuracy == 100.0
    ensures app.cursor == 0 ==> r.accuracy == app.accuracy
  {
    match app.startedAt
    case None => app
    case Some(start) =>
      var elapsed := Since(start, now);
      var wpm :=
        if elapsed > 0.0 then WordsPerMinute(Count(app.charStates, Correct), elapsed) else app.wpm;
      var accuracy :=
        if app.cursor > 0 then AccuracyPercent(app.cursor, app.errors) else app.accuracy;
      app.(wpm := wpm, accuracy := accuracy)
  }

  /** The statistics of `r` are what `update_stats` makes of `r`'s own round
      at the clock reading `now`: the rate over its correct positions once
      time has passed, and its accuracy once something is typed. Where
      `update_stats` computes nothing, the figures of `before` are kept. */
  predicate StatsRefreshed(r: App, before: App, now: Instant)
  {
    && (r.startedAt.Some? && Since(r.startedAt.value, now) > 0.0 ==>
          r.wpm >= 0.0 && RateMatches(r.wpm, Count(r.charStates, Correct), Since(r.startedAt.value, now)))
    && (r.startedAt.None? || Since(r.startedAt.value, now) == 0.0 ==> r.wpm == before.wpm)
    && (r.startedAt.Some? && r.cursor > 0 ==>
          0.0 <= r.accuracy <= 100.0 && AccuracyMatches(r.accuracy, r.cursor, r.errors))
    && (r.startedAt.None? || r.cursor == 0 ==> r.accuracy == before.accuracy)
  }

  /** `tick`: recompute the live statistics while a round is running. */
  function Tick(app: App, now: Instant): (r: App)
    requires SubtractionSafe(app)
    ensures r == app.(wpm := r.wpm, accuracy := r.accuracy)
    ensures app.startedAt.None? || app.finishedAt.Some? ==> r == app
    ensures app.startedAt.Some? && app.finishedAt.None? ==> r == UpdateStats(app, now)
  {
    if app.startedAt.Some? && app.finishedAt.None? then UpdateStats(app, now) else app
  }

  /** `elapsed`: the duration of the round, frozen once it is finished. */
  function Elapsed(app: App, now: Instant): (d: real)
    ensures d >= 0.0
    ensures app.startedAt.None? ==> d == 0.0
    ensures app.startedAt.Some? && app.finishedAt.Some?
            && app.startedAt.value <= app.finishedAt.value ==>
              app.startedAt.value + d == app.finishedAt.value
    ensures app.startedAt.Some? && app.finishedAt.None? && app.startedAt.value <= now ==>
              app.startedAt.value + d == now
  {
    match (app.startedAt, app.finishedAt)
    case (Some(start), Some(end)) => Since(start, end)
    case (Some(start), None) => Since(start, now)
    case _ => 0.0
  }

  /** Once a round is finished, neither the clock nor `tick` moves its
      statistics or its elapsed time. */
  lemma StatsFreeze(app: App, now: Instant, later: Instant)
    requires app.finishedAt.Some? && SubtractionSafe(app)
    ensures Tick(app, later) == app
    ensures Elapsed(app, later) == Elapsed(app, now)
  {
  }

  /** `progress`: the fraction of the text typed so far. */
  function Progress(app: App): (p: real)
    ensures |app.chars| == 0 ==> p == 0.0
    ensures |app.chars| > 0 ==> p * |app.chars| as real == app.cursor as real
    ensures app.cursor <= |app.chars| ==> 0.0 <= p <= 1.0
    ensures |app.chars| > 0 ==> (p == 1.0 <==> app.cursor == |app.chars|)
  {
    if |app.chars| == 0 then 0.0
    else
      var p := app.cursor as real / |app.chars| as real;
      assert p * |app.chars| as real == app.cursor as real;
      p
  }

  /* ---------------------------------------------------------------------- */
  /* Rounds and the menu                                                      */
  /* ---------------------------------------------------------------------- */

  /** A round that has just been loaded: nothing typed, no timestamps, the
      initial statistics, and a non-empty text. */
  predicate FreshRound(app: App)
  {
    && WellFormed(app)
    && |app.chars| > 0
    && app.cursor == 0
    && app.errors == 0
    && app.startedAt.None?
    && app.finishedAt.None?
    && app.wpm == 0.0
    && app.accuracy == 100.0
  }

  /** `load_snippet`: draw a text for the current language and reset the round. */
  function LoadSnippet(app: App, pick: nat): (r: App)
    ensures FreshRound(r)
    ensures r.chars == RandomSnippet(app.language, pick)
    ensures forall i :: 0 <= i < |r.charStates| ==> r.charStates[i] == Untyped
    ensures r.screen == app.screen && r.selectedMenu == app.selectedMenu
    ensures r.language == app.language && r.shouldQuit == app.shouldQuit
  {
    var chars := RandomSnippet(app.language, pick);
    app.(chars := chars, charStates := seq(|chars|, _ => Untyped), cursor := 0, errors := 0,
         startedAt := None, finishedAt := None, wpm := 0.0, accuracy := 100.0)
  }

  /** `App::new`: the menu, its first entry selected, an English text loaded. */
  function New(pick: nat): (r: App)
    ensures r.screen == Menu && r.selectedMenu == 0 && !r.shouldQuit
    ensures r.language == English && r.chars == RandomSnippet(English, pick)
    ensures FreshRound(r)
  {
    var chars := RandomSnippet(English, pick);
    App(Menu, 0, English, chars, seq(|chars|, _ => Untyped), 0, 0, None, None, 0.0, 100.0, false)
  }

  /** `menu_next`: the selection moves down one entry, wrapping to the top. */
  function MenuNext(app: App): (r: App)
    ensures r == app.(selectedMenu := r.selectedMenu)
    ensures r.selectedMenu < |MenuOptions|
    ensures app.selectedMenu + 1 < |MenuOptions| ==> r.selectedMenu == app.selectedMenu + 1
    ensures app.selectedMenu == |MenuOptions| - 1 ==> r.selectedMenu == 0
  {
    app.(selectedMenu := (app.selectedMenu + 1) % |MenuOptions|)
  }

  /** `menu_prev`: the selection moves up one entry, wrapping to the bottom. */
  function MenuPrev(app: App): (r: App)
    ensures r == app.(selectedMenu := r.selectedMenu)
    ensures app.selectedMenu < |MenuOptions| ==> r.selectedMenu < |MenuOptions|
    ensures app.selectedMenu > 0 ==> r.selectedMenu + 1 == app.selectedMenu
    ensures app.selectedMenu == 0 ==> r.selectedMenu == |MenuOptions| - 1
  {
    if app.selectedMenu == 0 then app.(selectedMenu := |MenuOptions| - 1)
    else app.(selectedMenu := app.selectedMenu - 1)
  }

  /** Moving down and up the menu undo each other. */
  lemma MenuNextPrevInverse(app: App)
    requires app.selectedMenu < |MenuOptions|
    ensures MenuPrev(MenuNext(app)) == app
    ensures MenuNext(MenuPrev(app)) == app
  {
  }

  /** `start_session`: adopt the selected language and begin a fresh round of it. */
  function StartSession(app: App, pick: nat): (r: App)
    requires app.selectedMenu < |MenuOptions|
    ensures r.screen == Typing && FreshRound(r)
    ensures r.language == MenuOptions[app.selectedMenu]
    ensures r.chars == RandomSnippet(r.language, pick)
    ensures r.selectedMenu == app.selectedMenu && r.shouldQuit == app.shouldQuit
  {
    LoadSnippet(app.(language := MenuOptions[app.selectedMenu]), pick).(screen := Typing)
  }

  /** `go_to_menu`: only the screen changes; the round is left as it is. */
  function GoToMenu(app: App): (r: App)
    ensures r.screen == Menu
    ensures r.(screen := app.screen) == app
  {
    app.(screen := Menu)
  }

  /** `quit`: raise the quit flag and nothing else. */
  function Quit(app: App): (r: App)
    ensures r.shouldQuit
    ensures r.(shouldQuit := app.shouldQuit) == app
  {
    app.(shouldQuit := true)
  }

  /** `restart_session`: a fresh round in the same language, with a new draw. */
  function RestartSession(app: App, pick: nat): (r: App)
    ensures r.screen == Typing && FreshRound(r)
    ensures r.language == app.language && r.chars == RandomSnippet(app.language, pick)
    ensures r.selectedMenu == app.selectedMenu && r.shouldQuit == app.shouldQuit
  {
    LoadSnippet(app, pick).(screen := Typing)
  }

  /** `new_snippet`: a fresh round in the same language, with a new draw. */
  function NewSnippet(app: App, pick: nat): (r: App)
    ensures r.screen == Typing && FreshRound(r)
    ensures r.language == app.language && r.chars == RandomSnippet(app.language, pick)
    ensures r.selectedMenu == app.selectedMenu && r.shouldQuit == app.shouldQuit
  {
    LoadSnippet(app, pick).(screen := Typing)
  }

  /** Retrying and asking for a new text are the same command: the retried
      text is a new draw and owes nothing to the text just typed. */
  lemma RestartIsNewSnippet(app: App, other: App, pick: nat)
    requires other.language == app.language
    ensures RestartSession(app, pick) == NewSnippet(app, pick)
    ensures RestartSession(app, pick).chars == RestartSession(other, pick).chars
  {
  }

  /* ---------------------------------------------------------------------- */
  /* Typing and erasing                                                       */
  /* ---------------------------------------------------------------------- */

  /** Lines 117-127 of `type_char`: stamp the start of the round, judge the
      character against the text, move the cursor on. */
  function Advance(app: App, c: char, now: Instant): (r: App)
    requires app.cursor < |app.chars| && app.cursor < |app.charStates|
    ensures r == app.(charStates := r.charStates, cursor := r.cursor, errors := r.errors,
                      startedAt := r.startedAt)
    ensures r.cursor == app.cursor + 1 && |r.charStates| == |app.charStates|
    ensures forall i :: 0 <= i < |app.charStates| && i != app.cursor ==>
              r.charStates[i] == app.charStates[i]
    ensures r.charStates[app.cursor] == Correct <==> c == app.chars[app.cursor]
    ensures r.charStates[app.cursor] == Wrong <==> c != app.chars[app.cursor]
    ensures r.errors == app.errors + (if c == app.chars[app.cursor] then 0 else 1)
    ensures r.startedAt == (if app.startedAt.Some? then app.startedAt else Some(now))
  {
    var started := if app.startedAt.None? then Some(now) else app.startedAt;
    var k := app.cursor;
    if app.chars[k] == c then
      app.(startedAt := started, charStates := app.charStates[k := Correct], cursor := k + 1)
    else
      app.(startedAt := started, charStates := app.charStates[k := Wrong],
           errors := app.errors + 1, cursor := k + 1)
  }

  lemma AdvanceKeepsWellFormed(app: App, c: char, now: Instant)
    requires app.cursor < |app.chars| && app.cursor < |app.charStates|
    ensures WellFormed(app) ==> WellFormed(Advance(app, c, now))
  {
    if WellFormed(app) {
      var k := app.cursor;
      var y := if app.chars[k] == c then Correct else Wrong;
      CountUpdate(app.charStates, k, y, Wrong);
    }
  }

  /** What `type_char` needs of the state it is given: the position it
      writes exists, and the subtraction in the `update_stats` it then runs
      does not underflow. */
  predicate CanType(app: App, c: char, now: Instant)
  {
    app.cursor < |app.chars| ==>
      app.cursor < |app.charStates| && SubtractionSafe(Advance(app, c, now))
  }

  /** `type_char`: past the end nothing happens; otherwise the character at
      the cursor is judged, the cursor advances, the statistics are refreshed
      and, on the last character, the round is finished and the results are
      shown. The command reads the clock more than once: `now` is the reading
      that stamps the start of the round, `later` the one `update_stats`
      measures the elapsed time with, which also stamps the finish. */
  function TypeChar(app: App, c: char, now: Instant, later: Instant): (r: App)
    requires CanType(app, c, now)
    ensures app.cursor >= |app.chars| ==> r == app
    ensures app.cursor < |app.chars| ==>
              && r.cursor == app.cursor + 1
              && |r.charStates| == |app.charStates|
              && (forall i :: 0 <= i < |app.charStates| && i != app.cursor ==>
                    r.charStates[i] == app.charStates[i])
              && (r.charStates[app.cursor] == Correct <==> c == app.chars[app.cursor])
              && (r.charStates[app.cursor] == Wrong <==> c != app.chars[app.cursor])
              && r.errors == app.errors + (if c == app.chars[app.cursor] then 0 else 1)
              && r.startedAt == (if app.startedAt.Some? then app.startedAt else Some(now))
    ensures app.cursor < |app.chars| && r.cursor == |r.chars| ==>
              r.screen == Results && r.finishedAt == Some(later)
    ensures r.cursor < |r.chars| ==> r.screen == app.screen && r.finishedAt == app.finishedAt
    ensures r.chars == app.chars && r.language == app.language
    ensures r.selectedMenu == app.selectedMenu && r.shouldQuit == app.shouldQuit
    ensures app.cursor < |app.chars| ==> StatsRefreshed(r, app, later)
    ensures WellFormed(app) ==> WellFormed(r)
  {
    if app.cursor >= |app.chars| then app
    else
      AdvanceKeepsWellFormed(app, c, now);
      var a := UpdateStats(Advance(app, c, now), later);
      if a.cursor == |a.chars| then a.(finishedAt := Some(later), screen := Results) else a
  }

  /** `usize::saturating_sub(1)`: one less, but never below zero. */
  function SaturatingDec(n: nat): (r: nat)
    ensures r <= n && n - r <= 1
    ensures r == n <==> n == 0
  {
    if n == 0 then 0 else n - 1
  }

  /** Lines 140-144 of `backspace`: step back and clear the vacated position,
      dropping an error if it was wrong. */
  function Retreat(app: App): (r: App)
    requires 0 < app.cursor <= |app.charStates|
    ensures r == app.(charStates := r.charStates, cursor := r.cursor, errors := r.errors)
    ensures r.cursor + 1 == app.cursor && |r.charStates| == |app.charStates|
    ensures r.charStates[r.cursor] == Untyped
    ensures forall i :: 0 <= i < |app.charStates| && i != r.cursor ==>
              r.charStates[i] == app.charStates[i]
    ensures app.charStates[r.cursor] == Wrong ==> r.errors == SaturatingDec(app.errors)
    ensures app.charStates[r.cursor] != Wrong ==> r.errors == app.errors
  {
    var k := app.cursor - 1;
    var errors := if app.charStates[k] == Wrong then SaturatingDec(app.errors) else app.errors;
    app.(cursor := k, errors := errors, charStates := app.charStates[k := Untyped])
  }

  lemma RetreatKeepsWellFormed(app: App)
    requires 0 < app.cursor <= |app.charStates|
    ensures WellFormed(app) ==> WellFormed(Retreat(app))
  {
    if WellFormed(app) {
      CountUpdate(app.charStates, app.cursor - 1, Untyped, Wrong);
    }
  }

  /** What `backspace` needs of the state it is given: the position it clears
      exists, and the subtraction in the `update_stats` it then runs does not
      underflow. */
  predicate CanErase(app: App)
  {
    app.cursor > 0 ==> app.cursor <= |app.charStates| && SubtractionSafe(Retreat(app))
  }

  /** `backspace`: at the start nothing happens; otherwise the cursor steps
      back, that position becomes untyped and stops counting as an error,
      and the statistics are refreshed at the clock reading `now`. The screen
      and the timestamps are never touched. */
  function Backspace(app: App, now: Instant): (r: App)
    requires CanErase(app)
    ensures app.cursor == 0 ==> r == app
    ensures app.cursor > 0 ==>
              && r.cursor + 1 == app.cursor
              && |r.charStates| == |app.charStates|
              && r.charStates[r.cursor] == Untyped
              && (forall i :: 0 <= i < |app.charStates| && i != r.cursor ==>
                    r.charStates[i] == app.charStates[i])
              && r.errors == (if app.charStates[r.cursor] == Wrong then SaturatingDec(app.errors)
                              else app.errors)
    ensures WellFormed(app) && app.cursor > 0 ==>
              (r.errors + 1 == app.errors <==> app.charStates[app.cursor - 1] == Wrong)
    ensures app.cursor > 0 ==> StatsRefreshed(r, app, now)
    ensures r.screen == app.screen && r.startedAt == app.startedAt && r.finishedAt == app.finishedAt
    ensures r.chars == app.chars && r.language == app.language
    ensures r.selectedMenu == app.selectedMenu && r.shouldQuit == app.shouldQuit
    ensures WellFormed(app) ==> WellFormed(r)
  {
    if app.cursor == 0 then app
    else
      RetreatKeepsWellFormed(app);
      UpdateStats(Retreat(app), now)
  }

  /** In a well-formed round neither command can index out of range, and the
      subtraction `typed - errors` cannot underflow: errors never exceed the
      typed positions, and erase only a correct position when some typed
      position is not an error. */
  lemma WellFormedIsSafe(app: App, c: char, now: Instant)
    requires WellFormed(app)
    ensures app.errors <= app.cursor
    ensures CanType(app, c, now)
    ensures CanErase(app)
  {
    TypedSplit(app);
    if app.cursor > 0 {
      var k := app.cursor - 1;
      if app.charStates[k] != Wrong {
        assert app.charStates[k] == Correct;
        assert Count(app.charStates, Correct) > 0;
      }
    }
  }

  /** Typing a character and erasing it again restores the round's
      bookkeeping; the start time, once stamped, stays. */
  lemma TypeThenBackspace(app: App, c: char, t1: Instant, t2: Instant, t3: Instant)
    requires WellFormed(app) && app.cursor < |app.chars|
    ensures CanType(app, c, t1)
    ensures CanErase(TypeChar(app, c, t1, t2))
    ensures Backspace(TypeChar(app, c, t1, t2), t3).cursor == app.cursor
    ensures Backspace(TypeChar(app, c, t1, t2), t3).charStates == app.charStates
    ensures Backspace(TypeChar(app, c, t1, t2), t3).errors == app.errors
    ensures Backspace(TypeChar(app, c, t1, t2), t3).startedAt.Some?
  {
    WellFormedIsSafe(app, c, t1);
    var typed := TypeChar(app, c, t1, t2);
    WellFormedIsSafe(typed, c, t2);
    var undone := Backspace(typed, t3);
    assert undone.charStates == app.charStates;
  }

  /** The rate after the first correct keystroke is measured over the gap
      between the two clock readings of that keystroke: one fifth of a word
      in `later - now` seconds, so the closer the readings, the larger the
      rate shown. */
  lemma FirstKeystrokeRate(app: App, now: Instant, later: Instant)
    requires FreshRound(app) && now < later
    ensures CanType(app, app.chars[0], now)
    ensures TypeChar(app, app.chars[0], now, later).wpm * (later - now) == 12.0
  {
    WellFormedIsSafe(app, app.chars[0], now);
    var r := TypeChar(app, app.chars[0], now, later);
    assert Count(app.charStates, Correct) == 0;
    CountUpdate(app.charStates, 0, Correct, Correct);
    assert r.charStates == app.charStates[0 := Correct];
    assert Count(r.charStates, Correct) == 1;
    assert Since(now, later) == later - now;
    assert r.wpm * ((later - now) / 60.0) == 1.0 / 5.0;
  }

  /** Erasing the only typed position leaves nothing typed and no errors,
      yet keeps the accuracy shown before, whatever it was. */
  lemma ErasingAllKeepsAccuracy(app: App, now: Instant)
    requires WellFormed(app) && app.cursor == 1
    ensures CanErase(app)
    ensures Backspace(app, now).cursor == 0 && Backspace(app, now).errors == 0
    ensures Backspace(app, now).accuracy == app.accuracy
  {
    WellFormedIsSafe(app, ' ', now);
  }
}
