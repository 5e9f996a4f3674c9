/** The program around the counter: the main key loop of `main_real` and the
    exit status `main` turns its result into. */
module Controller {
  import opened Optional
  import opened Int64
  import opened Decimal
  import opened Keys
  import opened Counter

  /** Where the main loop stands when the input is used up: it quit (with
      the input after the quit key), or it is still waiting for a key. */
  datatype Session = Quit(counter: FileCounter, rest: seq<Event>) | Waiting(counter: FileCounter)

  /** The loop of `main_real`: read a choice from the main map, apply it,
      and stop at the first quit. Quitting persists nothing. */
  function RunLoop(c: FileCounter, events: seq<Event>): (s: Session)
    ensures Persisted(c) ==> Persisted(s.counter)
    ensures s.counter.dataSync == c.dataSync
    decreases |events|
  {
    match NextChoice(MenuKeys, events)
    case None => Waiting(c)
    case Some(Pick(ch, n)) =>
      if ch == '+' then RunLoop(Increment(c), events[n..])
      else if ch == '-' then RunLoop(Decrement(c), events[n..])
      else if ch == 'q' then Quit(c, events[n..])
      else assert false; Waiting(c)
  }

  // ---------------------------------------------------------------------------
  // The key bindings as a per-event state machine
  // ---------------------------------------------------------------------------

  const IncrementKeys: set<KeyEvent> := {CharKey('+'), CharKey('='), CharKey(' ')}
  const DecrementKeys: set<KeyEvent> := {CharKey('-'), CharKey('_'), PlainKey(Backspace)}

  lemma KeySetsDisjoint()
    ensures IncrementKeys !! DecrementKeys
    ensures IncrementKeys !! QuitKeys
    ensures DecrementKeys !! QuitKeys
  {
  }

  predicate IsQuit(e: Event)
  {
    e.Key? && e.key in QuitKeys
  }

  datatype LoopState = Running(counter: FileCounter) | Quitting(counter: FileCounter)

  /** One event: increment keys increment, decrement keys decrement, quit
      keys stop, and every other event, or any event after a quit, changes
      nothing. */
  function Step(s: LoopState, e: Event): LoopState
  {
    if s.Quitting? || !e.Key? then s
    else if e.key in IncrementKeys then Running(Increment(s.counter))
    else if e.key in DecrementKeys then Running(Decrement(s.counter))
    else if e.key in QuitKeys then Quitting(s.counter)
    else s
  }

  /** Step applied to each event in turn. */
  function Fold(s: LoopState, events: seq<Event>): (t: LoopState)
    ensures s.Quitting? ==> t == s
    ensures Persisted(s.counter) ==> Persisted(t.counter)
    decreases |events|
  {
    if |events| == 0 then s else Fold(Step(s, events[0]), events[1..])
  }

  lemma FoldCons(s: LoopState, events: seq<Event>)
    requires |events| > 0
    ensures Fold(s, events) == Fold(Step(s, events[0]), events[1..])
  {
  }

  /** The main map binds exactly the increment, decrement and quit presses,
      each to its choice; with crossterm's case normalisation a quit press
      may be q or Q with or without Shift. */
  lemma MenuKeysMatchBindings(k: KeyEvent)
    ensures Bound(MenuKeys, Key(k)) <==> k in IncrementKeys || k in DecrementKeys || k in QuitKeys
    ensures Bound(MenuKeys, Key(k)) ==> (MenuKeys[Normalize(k)] == '+' <==> k in IncrementKeys)
    ensures Bound(MenuKeys, Key(k)) ==> (MenuKeys[Normalize(k)] == '-' <==> k in DecrementKeys)
    ensures Bound(MenuKeys, Key(k)) ==> (MenuKeys[Normalize(k)] == 'q' <==> k in QuitKeys)
  {
    NormalizeUnshifted(k, CharKey('+'));
    NormalizeUnshifted(k, CharKey('='));
    NormalizeUnshifted(k, CharKey(' '));
    NormalizeUnshifted(k, CharKey('-'));
    NormalizeUnshifted(k, CharKey('_'));
    NormalizeUnshifted(k, PlainKey(Backspace));
    NormalizeUnshifted(k, CharKey('q'));
    NormalizeUnshifted(k, CtrlC);
    NormalizeCapital(k, 'q');
  }

  lemma {:induction false} FoldSkipsUnbound(c: FileCounter, events: seq<Event>, j: nat)
    requires j <= |events|
    requires forall i :: 0 <= i < j ==> !Bound(MenuKeys, events[i])
    ensures Fold(Running(c), events) == Fold(Running(c), events[j..])
    decreases j
  {
    if j > 0 {
      StepUnbound(c, events[0]);
      assert events[1..][j - 1..] == events[j..];
      FoldSkipsUnbound(c, events[1..], j - 1);
    }
  }

  /** The loop built on the choice map and the blocking reader behaves as the
      key bindings say, event by event. */
  lemma {:induction false} LoopIsFold(c: FileCounter, events: seq<Event>)
    ensures RunLoop(c, events).counter == Fold(Running(c), events).counter
    ensures RunLoop(c, events).Quit? <==> Fold(Running(c), events).Quitting?
    decreases |events|
  {
    match NextChoice(MenuKeys, events)
    case None =>
      FoldSkipsUnbound(c, events, |events|);
    case Some(Pick(ch, n)) =>
      FoldSkipsUnbound(c, events, n - 1);
      var e := events[n - 1];
      MenuKeysMatchBindings(e.key);
      assert events[n - 1..][1..] == events[n..];
      assert Fold(Running(c), events) == Fold(Step(Running(c), e), events[n..]);
      if ch == '+' {
        LoopIsFold(Increment(c), events[n..]);
      } else if ch == '-' {
        LoopIsFold(Decrement(c), events[n..]);
      }
  }

  /** The loop quits exactly when a quit key appears in the input. */
  lemma QuitsIffQuitKey(c: FileCounter, events: seq<Event>)
    ensures RunLoop(c, events).Quit? <==> exists i :: 0 <= i < |events| && IsQuit(events[i])
  {
    LoopIsFold(c, events);
    FoldQuitsIffQuitKey(c, events);
  }

  lemma {:induction false} FoldQuitsIffQuitKey(c: FileCounter, events: seq<Event>)
    ensures Fold(Running(c), events).Quitting? <==> exists i :: 0 <= i < |events| && IsQuit(events[i])
    decreases |events|
  {
    if |events| > 0 {
      var t := Step(Running(c), events[0]);
      FoldCons(Running(c), events);
      QuitKeyInCons(events);
      StepCases(c, events[0]);
      if !IsQuit(events[0]) {
        FoldQuitsIffQuitKey(t.counter, events[1..]);
      }
    }
  }

  /** What one event does to a running loop. */
  lemma StepCases(c: FileCounter, e: Event)
    ensures e.Key? && e.key in IncrementKeys ==> Step(Running(c), e) == Running(Increment(c))
    ensures e.Key? && e.key in DecrementKeys ==> Step(Running(c), e) == Running(Decrement(c))
    ensures IsQuit(e) ==> Step(Running(c), e) == Quitting(c)
    ensures !IsQuit(e) ==> Step(Running(c), e).Running?
    ensures !(e.Key? && (e.key in IncrementKeys || e.key in DecrementKeys || e.key in QuitKeys)) ==>
              Step(Running(c), e) == Running(c)
  {
    KeySetsDisjoint();
  }

  /** An event the main map does not bind leaves a running loop as it is. */
  lemma StepUnbound(c: FileCounter, e: Event)
    requires !Bound(MenuKeys, e)
    ensures Step(Running(c), e) == Running(c)
  {
    if e.Key? {
      MenuKeysMatchBindings(e.key);
    }
  }

  lemma QuitKeyInCons(events: seq<Event>)
    requires |events| > 0
    ensures (exists i :: 0 <= i < |events| && IsQuit(events[i])) <==>
            IsQuit(events[0]) || exists i :: 0 <= i < |events[1..]| && IsQuit(events[1..][i])
  {
    if exists i :: 0 <= i < |events| && IsQuit(events[i]) {
      var i :| 0 <= i < |events| && IsQuit(events[i]);
      if i > 0 {
        assert IsQuit(events[1..][i - 1]);
      }
    }
    if exists i :: 0 <= i < |events[1..]| && IsQuit(events[1..][i]) {
      var i :| 0 <= i < |events[1..]| && IsQuit(events[1..][i]);
      assert IsQuit(events[i + 1]);
    }
  }

  /** How many of the given keys are pressed before the first quit key. */
  function Presses(events: seq<Event>, keys: set<KeyEvent>): nat
    decreases |events|
  {
    if |events| == 0 || IsQuit(events[0]) then 0
    else (if events[0].Key? && events[0].key in keys then 1 else 0) + Presses(events[1..], keys)
  }

  /** Starting from count n, no increment before the first quit key is
      pressed at MAX and no decrement at MIN: the running count stays in
      the i64 range after every press, though it may touch either limit. */
  predicate NoLimitHit(n: int, events: seq<Event>)
    decreases |events|
  {
    if |events| == 0 || IsQuit(events[0]) then true
    else
      var e := events[0];
      var inc := if e.Key? && e.key in IncrementKeys then 1 else 0;
      var dec := if e.Key? && e.key in DecrementKeys then 1 else 0;
      MIN <= n + inc - dec <= MAX && NoLimitHit(n + inc - dec, events[1..])
  }

  /** While no limit is reached, the final count is the start plus the
      increment presses minus the decrement presses before the quit. */
  lemma {:induction false} NetCount(c: FileCounter, events: seq<Event>)
    requires NoLimitHit(c.count, events)
    ensures Fold(Running(c), events).counter.count ==
              c.count + Presses(events, IncrementKeys) - Presses(events, DecrementKeys)
    decreases |events|
  {
    if |events| == 0 {
    } else if IsQuit(events[0]) {
      StepCases(c, events[0]);
      FoldCons(Running(c), events);
    } else {
      var e := events[0];
      PressesCons(events);
      StepCount(c, e);
      var t := Step(Running(c), e);
      FoldCons(Running(c), events);
      NetCount(t.counter, events[1..]);
    }
  }

  /** Room for every increment and, separately, for every decrement is
      enough for no limit to be hit. */
  lemma {:induction false} HeadroomNoLimitHit(n: int, events: seq<Event>)
    requires n + Presses(events, IncrementKeys) <= MAX
    requires n - Presses(events, DecrementKeys) >= MIN
    ensures NoLimitHit(n, events)
    decreases |events|
  {
    if |events| > 0 && !IsQuit(events[0]) {
      var e := events[0];
      var inc := if e.Key? && e.key in IncrementKeys then 1 else 0;
      var dec := if e.Key? && e.key in DecrementKeys then 1 else 0;
      PressesCons(events);
      HeadroomNoLimitHit(n + inc - dec, events[1..]);
    }
  }

  /** A count may come near a limit and back: from MAX - 1, pressing
      minus, plus, minus, plus ends where it started. */
  lemma NearLimitAndBack(c: FileCounter)
    requires c.count == MAX - 1
    ensures var events := [Key(CharKey('-')), Key(CharKey('+')), Key(CharKey('-')), Key(CharKey('+'))];
            Fold(Running(c), events).counter.count == MAX - 1
  {
    var minus, plus := Key(CharKey('-')), Key(CharKey('+'));
    var events := [minus, plus, minus, plus];
    KeySetsDisjoint();
    assert !IsQuit(minus) && !IsQuit(plus);
    assert events[1..] == [plus, minus, plus];
    assert events[1..][1..] == [minus, plus];
    assert events[1..][1..][1..] == [plus];
    assert minus.key in DecrementKeys && minus.key !in IncrementKeys;
    assert plus.key in IncrementKeys && plus.key !in DecrementKeys;
    assert NoLimitHit(MAX - 1, []);
    assert NoLimitHit(MAX - 2, [plus]);
    assert NoLimitHit(MAX - 1, [minus, plus]);
    assert NoLimitHit(MAX - 2, [plus, minus, plus]);
    assert NoLimitHit(c.count, events);
    NetCount(c, events);
  }

  /** What one event that is not a quit key does to the count, away from
      the limits. */
  lemma StepCount(c: FileCounter, e: Event)
    requires !IsQuit(e)
    requires e.Key? && e.key in IncrementKeys ==> c.count < MAX
    requires e.Key? && e.key in DecrementKeys ==> c.count > MIN
    ensures Step(Running(c), e).Running?
    ensures var inc := if e.Key? && e.key in IncrementKeys then 1 else 0;
            var dec := if e.Key? && e.key in DecrementKeys then 1 else 0;
            Step(Running(c), e).counter.count == c.count + inc - dec
  {
    StepCases(c, e);
    KeySetsDisjoint();
  }

  /** The first event's share of the presses, for input that does not start
      with a quit key. */
  lemma PressesCons(events: seq<Event>)
    requires |events| > 0 && !IsQuit(events[0])
    ensures var e := events[0];
            var inc := if e.Key? && e.key in IncrementKeys then 1 else 0;
            var dec := if e.Key? && e.key in DecrementKeys then 1 else 0;
            && Presses(events, IncrementKeys) == inc + Presses(events[1..], IncrementKeys)
            && Presses(events, DecrementKeys) == dec + Presses(events[1..], DecrementKeys)
            && inc + dec <= 1
  {
    KeySetsDisjoint();
  }

  /** A key the main map does not bind, or a non-key event, changes neither
      the count nor the file. */
  lemma UnboundEventIgnored(c: FileCounter, e: Event, rest: seq<Event>)
    requires !Bound(MenuKeys, e)
    ensures RunLoop(c, [e] + rest) == RunLoop(c, rest)
  {
    NextChoiceSkipsUnbound(MenuKeys, e, rest);
    match NextChoice(MenuKeys, rest)
    case None =>
    case Some(Pick(ch, n)) =>
      assert ([e] + rest)[n + 1..] == rest[n..];
  }

  /** A quit key ends the loop with the counter, and so the file, as it was. */
  lemma QuitKeyStops(c: FileCounter, k: KeyEvent, rest: seq<Event>)
    requires k in QuitKeys
    ensures RunLoop(c, [Key(k)] + rest) == Quit(c, rest)
  {
    assert ([Key(k)] + rest)[1..] == rest;
  }

  // ---------------------------------------------------------------------------
  // The whole program
  // ---------------------------------------------------------------------------

  /** How the process ends, with the file's final content: an exit status,
      or still blocked waiting for a key when the input ran out. */
  datatype ProcessEnd = Exit(status: int, disk: seq<char>) | Blocked(disk: seq<char>)

  /** `main`: run `main_real` (start the counter, set up the terminal, then
      the loop) and exit with 1 on an error, 0 on a quit. `terminalOk` says
      whether the terminal calls succeed; when they fail, the first one
      (in the confirmation, or the raw mode at the start of the loop)
      returns an error. */
  function RunProgram(stored: seq<char>, startValue: Option<I64>, noSync: bool, lineReadable: bool,
                      terminalOk: bool, events: seq<Event>): (r: ProcessEnd)
    ensures r.Exit? ==> r.status == 0 || r.status == 1
    ensures r.Exit? && r.status == 1 && terminalOk ==> r.disk == stored
    ensures !terminalOk ==> r.Exit? && r.status == 1
    ensures !terminalOk && startValue.Some? ==> r.disk == Render(startValue.value)
  {
    match New(stored, startValue, !noSync, lineReadable, terminalOk, events)
    case Started(c, rest) =>
      if !terminalOk then Exit(1, c.file.content)
      else
        (match RunLoop(c, rest)
         case Quit(c', _) => Exit(0, c'.file.content)
         case Waiting(c') => Blocked(c'.file.content))
    case Refused(disk) => Exit(1, disk)
    case Exited(status, disk) => Exit(status, disk)
    case Prompting(disk) => Blocked(disk)
    case Failed(disk) => Exit(1, disk)
  }

  /** Without a usable terminal the process exits with 1 before reading a
      key, and the file holds either what it held or a loadable count: the
      one `new` wrote before the terminal failed. */
  lemma UnusableTerminal(stored: seq<char>, startValue: Option<I64>, noSync: bool, lineReadable: bool,
                         events: seq<Event>)
    ensures var r := RunProgram(stored, startValue, noSync, lineReadable, false, events);
            r.disk == stored || LoadedValue(r.disk).Some?
  {
    var s := New(stored, startValue, !noSync, lineReadable, false, events);
    if s.Started? {
      assert Render(s.counter.count) + [] == Render(s.counter.count);
      LoadRenderRoundTrip(s.counter.count, []);
    }
  }

  /** After a normal exit the file holds a count that the next start loads,
      without asking, and leaves as it is. */
  lemma NormalExitRestarts(stored: seq<char>, startValue: Option<I64>, noSync: bool, lineReadable: bool,
                           terminalOk: bool, events: seq<Event>, dataSync: bool, nextTerminalOk: bool,
                           keys: seq<Event>)
    requires RunProgram(stored, startValue, noSync, lineReadable, terminalOk, events).Exit?
    requires RunProgram(stored, startValue, noSync, lineReadable, terminalOk, events).status == 0
    ensures var d := RunProgram(stored, startValue, noSync, lineReadable, terminalOk, events).disk;
            && LoadedValue(d).Some?
            && New(d, None, dataSync, true, nextTerminalOk, keys).Started?
            && New(d, None, dataSync, true, nextTerminalOk, keys).rest == keys
            && New(d, None, dataSync, true, nextTerminalOk, keys).counter.file.content == d
  {
    var s := New(stored, startValue, !noSync, lineReadable, terminalOk, events);
    var q := RunLoop(s.counter, s.rest);
    var n := q.counter.count;
    assert Render(n) + [] == Render(n);
    StartFromRenderedFile(n, [], dataSync, nextTerminalOk, keys);
    LoadRenderRoundTrip(n, []);
  }

  /** Quitting straight after starting with an explicit value leaves the
      file holding that value. */
  lemma QuitAtOnce(stored: seq<char>, v: I64, noSync: bool, lineReadable: bool, k: KeyEvent, rest: seq<Event>)
    requires k in QuitKeys
    ensures RunProgram(stored, Some(v), noSync, lineReadable, true, [Key(k)] + rest) == Exit(0, Render(v))
  {
    var s := New(stored, Some(v), !noSync, lineReadable, true, [Key(k)] + rest);
    QuitKeyStops(s.counter, k, rest);
  }
}
