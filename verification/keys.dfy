/** Key events, the two key-to-choice maps, and the blocking
    "read keys until one is in the map" primitive (`get_character_choice`),
    with the terminal input given as a finite sequence of events. */
module Keys {
  import opened Optional

  /** crossterm's `KeyModifiers` bit set, one flag per modifier. */
  datatype Modifiers = Modifiers(shift: bool, control: bool, alt: bool, super: bool, hyper: bool, meta: bool)

  const NoModifiers: Modifiers := Modifiers(false, false, false, false, false, false)

  datatype KeyKind = Press | Repeat | Release

  /** The key codes the counter binds; every other code is `OtherCode`. */
  datatype KeyCode = Char(ch: char) | Backspace | OtherCode(id: nat)

  datatype KeyEvent = KeyEvent(code: KeyCode, modifiers: Modifiers, kind: KeyKind)

  /** A terminal event: a key event, or anything else the terminal reports
      (focus, mouse, paste, resize). */
  datatype Event = Key(key: KeyEvent) | NonKey

  /** The source's `keycode` helper, `KeyEvent::new(code, KeyModifiers::empty())`:
      a plain press. */
  function PlainKey(c: KeyCode): KeyEvent
  {
    KeyEvent(c, NoModifiers, Press)
  }

  /** A plain press of a character key. */
  function CharKey(c: char): KeyEvent
  {
    PlainKey(Char(c))
  }

  /** A press of a character key reported with Shift and nothing else, as
      terminals report a typed capital letter. */
  function ShiftedKey(c: char): KeyEvent
  {
    KeyEvent(Char(c), NoModifiers.(shift := true), Press)
  }

  const CtrlC: KeyEvent := KeyEvent(Char('c'), NoModifiers.(control := true), Press)

  /** `char::to_ascii_uppercase`. */
  function AsciiUpper(c: char): char
  {
    if 'a' <= c <= 'z' then (c as int - 32) as char else c
  }

  /** crossterm's `KeyEvent::normalize_case`, which its `PartialEq` and `Hash`
      apply to both sides: an upper-case ASCII letter always carries Shift,
      and a character key carrying Shift is upper-cased. Two events are equal
      for crossterm, and so for a `HashMap` lookup, exactly when their
      normalised forms are. */
  function Normalize(k: KeyEvent): KeyEvent
  {
    match k.code
    case Char(c) =>
      if 'A' <= c <= 'Z' then k.(modifiers := k.modifiers.(shift := true))
      else if k.modifiers.shift then k.(code := Char(AsciiUpper(c)))
      else k
    case _ => k
  }

  /** The only event equal to a target without Shift and without an
      upper-case letter is the target itself. */
  lemma NormalizeUnshifted(k: KeyEvent, target: KeyEvent)
    requires !target.modifiers.shift
    requires target.code.Char? ==> !('A' <= target.code.ch <= 'Z')
    ensures Normalize(target) == target
    ensures Normalize(k) == Normalize(target) <==> k == target
  {
  }

  /** Three events are equal to `key(C)` for an upper-case letter C: C with
      or without Shift, and the lower-case letter with Shift. */
  lemma NormalizeCapital(k: KeyEvent, c: char)
    requires 'a' <= c <= 'z'
    ensures var cap := AsciiUpper(c);
            Normalize(k) == Normalize(CharKey(cap)) <==>
              k == CharKey(cap) || k == ShiftedKey(cap) || k == ShiftedKey(c)
  {
    var cap := AsciiUpper(c);
    if Normalize(k) == Normalize(CharKey(cap)) && k.code.Char? && !('A' <= k.code.ch <= 'Z') {
      assert AsciiUpper(k.code.ch) == cap;
    }
  }

  /** The characters the main map returns: increment, decrement, quit. */
  type MenuChoice = c: char | c == '+' || c == '-' || c == 'q' witness '+'

  /** The characters the confirmation map returns: yes, no, quit. */
  type ConfirmChoice = c: char | c == 'y' || c == 'n' || c == 'q' witness 'y'

  /** The main prompt's map. A `HashMap` compares keys after normalising
      them, so the map is keyed by the normalised events. */
  const MenuKeys: map<KeyEvent, MenuChoice> := map[
    Normalize(CharKey('+')) := '+', Normalize(CharKey('=')) := '+', Normalize(CharKey(' ')) := '+',
    Normalize(CharKey('-')) := '-', Normalize(CharKey('_')) := '-', Normalize(PlainKey(Backspace)) := '-',
    Normalize(CharKey('q')) := 'q', Normalize(CharKey('Q')) := 'q', Normalize(CtrlC) := 'q'
  ]

  /** The overwrite confirmation's map, keyed by normalised events. */
  const ConfirmKeys: map<KeyEvent, ConfirmChoice> := map[
    Normalize(CharKey('y')) := 'y', Normalize(CharKey('Y')) := 'y',
    Normalize(CharKey('n')) := 'n', Normalize(CharKey('N')) := 'n',
    Normalize(CharKey('q')) := 'q', Normalize(CharKey('Q')) := 'q', Normalize(CtrlC) := 'q'
  ]

  /** The key presses that quit, in both dialogs: q, Q (with or without
      Shift), q with Shift, and Ctrl-C. */
  const QuitKeys: set<KeyEvent> := {CharKey('q'), CharKey('Q'), ShiftedKey('Q'), ShiftedKey('q'), CtrlC}

  /** The key presses that answer yes, and those that answer no. */
  const YesKeys: set<KeyEvent> := {CharKey('y'), CharKey('Y'), ShiftedKey('Y'), ShiftedKey('y')}
  const NoKeys: set<KeyEvent> := {CharKey('n'), CharKey('N'), ShiftedKey('N'), ShiftedKey('n')}

  /** Whether the event is a key event that `HashMap::get` finds in the map. */
  predicate Bound<T>(m: map<KeyEvent, T>, e: Event)
  {
    e.Key? && Normalize(e.key) in m
  }

  /** The choice read and the number of events consumed to read it. */
  datatype Pick<T> = Pick(choice: T, used: nat)

  /** `get_character_choice`: skips events until one is bound in the map and
      returns its choice. None means the input ran out first, where the
      program would go on waiting. */
  function NextChoice<T>(m: map<KeyEvent, T>, events: seq<Event>): (r: Option<Pick<T>>)
    ensures r.None? <==> forall i :: 0 <= i < |events| ==> !Bound(m, events[i])
    ensures r.Some? ==>
              && 1 <= r.value.used <= |events|
              && Bound(m, events[r.value.used - 1])
              && m[Normalize(events[r.value.used - 1].key)] == r.value.choice
              && forall i :: 0 <= i < r.value.used - 1 ==> !Bound(m, events[i])
    decreases |events|
  {
    if |events| == 0 then None
    else if Bound(m, events[0]) then Some(Pick(m[Normalize(events[0].key)], 1))
    else
      match NextChoice(m, events[1..])
      case None => None
      case Some(p) => Some(Pick(p.choice, p.used + 1))
  }

  /** An unbound first event only adds one to the events consumed. */
  lemma NextChoiceSkipsUnbound<T>(m: map<KeyEvent, T>, e: Event, rest: seq<Event>)
    requires !Bound(m, e)
    ensures NextChoice(m, [e] + rest) ==
              match NextChoice(m, rest)
              case None => None
              case Some(p) => Some(Pick(p.choice, p.used + 1))
  {
    assert ([e] + rest)[1..] == rest;
  }

  /** Outcome of the overwrite confirmation. `ExitRequested` is the
      `std::process::exit(1)` taken on quit; `Unanswered` means the input ran
      out while the dialog was still waiting. */
  datatype Confirmation =
    | Answered(ok: bool, rest: seq<Event>)
    | ExitRequested(rest: seq<Event>)
    | Unanswered

  /** `user_ok_with_overwrite`: reads one bound key of the confirmation map. */
  function UserOkWithOverwrite(events: seq<Event>): (r: Confirmation)
    ensures r.Unanswered? <==> forall i :: 0 <= i < |events| ==> !Bound(ConfirmKeys, events[i])
    ensures !r.Unanswered? ==> |r.rest| < |events| && r.rest == events[|events| - |r.rest|..]
  {
    match NextChoice(ConfirmKeys, events)
    case None => Unanswered
    case Some(Pick(c, n)) =>
      if c == 'y' then Answered(true, events[n..])
      else if c == 'n' then Answered(false, events[n..])
      else if c == 'q' then ExitRequested(events[n..])
      else assert false; Unanswered
  }

  /** Keys without an entry, and non-key events, are skipped by the dialog. */
  lemma ConfirmSkipsUnbound(e: Event, rest: seq<Event>)
    requires !Bound(ConfirmKeys, e)
    ensures UserOkWithOverwrite([e] + rest) == UserOkWithOverwrite(rest)
  {
    NextChoiceSkipsUnbound(ConfirmKeys, e, rest);
    match NextChoice(ConfirmKeys, rest)
    case None =>
    case Some(Pick(c, n)) =>
      assert ([e] + rest)[n + 1..] == rest[n..];
  }

  /** The confirmation map binds exactly the yes, no and quit presses,
      each to its answer. */
  lemma ConfirmKeysMatchBindings(k: KeyEvent)
    ensures Bound(ConfirmKeys, Key(k)) <==> k in YesKeys || k in NoKeys || k in QuitKeys
    ensures Bound(ConfirmKeys, Key(k)) ==> (ConfirmKeys[Normalize(k)] == 'y' <==> k in YesKeys)
    ensures Bound(ConfirmKeys, Key(k)) ==> (ConfirmKeys[Normalize(k)] == 'n' <==> k in NoKeys)
    ensures Bound(ConfirmKeys, Key(k)) ==> (ConfirmKeys[Normalize(k)] == 'q' <==> k in QuitKeys)
  {
    NormalizeUnshifted(k, CharKey('y'));
    NormalizeUnshifted(k, CharKey('n'));
    NormalizeUnshifted(k, CharKey('q'));
    NormalizeUnshifted(k, CtrlC);
    NormalizeCapital(k, 'y');
    NormalizeCapital(k, 'n');
    NormalizeCapital(k, 'q');
  }

  /** The first bound key decides the dialog: a yes press accepts, a no
      press refuses, a quit press exits the process. */
  lemma ConfirmFirstBoundKey(k: KeyEvent, rest: seq<Event>)
    ensures k in YesKeys ==> UserOkWithOverwrite([Key(k)] + rest) == Answered(true, rest)
    ensures k in NoKeys ==> UserOkWithOverwrite([Key(k)] + rest) == Answered(false, rest)
    ensures k in QuitKeys ==> UserOkWithOverwrite([Key(k)] + rest) == ExitRequested(rest)
  {
    ConfirmKeysMatchBindings(k);
    assert ([Key(k)] + rest)[1..] == rest;
  }
}
