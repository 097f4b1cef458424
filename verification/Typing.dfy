/** Remote typing, from apps/mobile/src/MobileRemoteInputController.cpp: text becomes key events, and
    a keyboard that receives them produces characters. */
module Typing {
  import Characters
  import Packable

  /** A UTF-16 code unit. */
  type Unit = n: int | 0 <= n < 0x1_0000

  // ---------------------------------------------------------------------------------------
  // Keys, as utilities/remote-input/inc/common/InputTypes.h numbers them
  // ---------------------------------------------------------------------------------------

  type Key = n: int | 0 <= n < 256

  const A: Key := 0
  const NUM0: Key := 26
  const GRAVE: Key := 36
  const MINUS: Key := 37
  const EQUAL: Key := 38
  const LEFT_BRACKET: Key := 39
  const RIGHT_BRACKET: Key := 40
  const BACKSLASH: Key := 41
  const SEMICOLON: Key := 42
  const APOSTROPHE: Key := 43
  const COMMA: Key := 44
  const PERIOD: Key := 45
  const SLASH: Key := 46
  const ESCAPE: Key := 47
  const TAB: Key := 48
  const SPACE: Key := 50
  const BACKSPACE: Key := 51
  const ENTER: Key := 52
  const LEFT_SHIFT: Key := 53
  const RIGHT_SHIFT: Key := 54
  const LEFT_CONTROL: Key := 55
  const RIGHT_CONTROL: Key := 56
  const LEFT_ALT: Key := 57
  const RIGHT_ALT: Key := 58
  const LEFT_SUPER: Key := 59
  const RIGHT_SUPER: Key := 60
  const DELETE: Key := 90
  const NUMPAD0: Key := 100
  const NUMPAD_ADD: Key := 110
  const NUMPAD_SUBTRACT: Key := 111
  const NUMPAD_MULTIPLY: Key := 112
  const NUMPAD_DIVIDE: Key := 113
  const NUMPAD_DECIMAL: Key := 114
  const NUMPAD_ENTER: Key := 115

  const INVALID_KEY: int := -1

  datatype KeyMapping = KeyMapping(key: int, requiresShift: bool)

  const NO_KEY: KeyMapping := KeyMapping(INVALID_KEY, false)

  /** What QChar knows about letters.  For ASCII it is fixed; beyond, nothing is assumed. */
  datatype Letters = Letters(isLetter: Unit -> bool, lower: Unit -> Unit, isUpper: Unit -> bool)

  ghost predicate KnowsAscii(u: Letters) {
    forall c: Unit :: c < 128 ==>
      && u.isLetter(c) == (65 <= c <= 90 || 97 <= c <= 122)
      && u.lower(c) == (if 65 <= c <= 90 then c + 32 else c)
      && u.isUpper(c) == (65 <= c <= 90)
  }

  predicate IsDigit(c: Unit) {
    !(0xD800 <= c < 0xE000) && Characters.IsDigit(c as char)
  }

  function MapSymbol(c: Unit): KeyMapping {
    match c
    case 0x20 => KeyMapping(SPACE, false)
    case 0x2D => KeyMapping(MINUS, false)
    case 0x5F => KeyMapping(MINUS, true)
    case 0x3D => KeyMapping(EQUAL, false)
    case 0x2B => KeyMapping(EQUAL, true)
    case 0x5B => KeyMapping(LEFT_BRACKET, false)
    case 0x7B => KeyMapping(LEFT_BRACKET, true)
    case 0x5D => KeyMapping(RIGHT_BRACKET, false)
    case 0x7D => KeyMapping(RIGHT_BRACKET, true)
    case 0x5C => KeyMapping(BACKSLASH, false)
    case 0x7C => KeyMapping(BACKSLASH, true)
    case 0x3B => KeyMapping(SEMICOLON, false)
    case 0x3A => KeyMapping(SEMICOLON, true)
    case 0x27 => KeyMapping(APOSTROPHE, false)
    case 0x22 => KeyMapping(APOSTROPHE, true)
    case 0x2C => KeyMapping(COMMA, false)
    case 0x3C => KeyMapping(COMMA, true)
    case 0x2E => KeyMapping(PERIOD, false)
    case 0x3E => KeyMapping(PERIOD, true)
    case 0x2F => KeyMapping(SLASH, false)
    case 0x3F => KeyMapping(SLASH, true)
    case 0x60 => KeyMapping(GRAVE, false)
    case 0x7E => KeyMapping(GRAVE, true)
    case 0x21 => KeyMapping(NUM0 + 1, true)
    case 0x40 => KeyMapping(NUM0 + 2, true)
    case 0x23 => KeyMapping(NUM0 + 3, true)
    case 0x24 => KeyMapping(NUM0 + 4, true)
    case 0x25 => KeyMapping(NUM0 + 5, true)
    case 0x5E => KeyMapping(NUM0 + 6, true)
    case 0x26 => KeyMapping(NUM0 + 7, true)
    case 0x2A => KeyMapping(NUM0 + 8, true)
    case 0x28 => KeyMapping(NUM0 + 9, true)
    case 0x29 => KeyMapping(NUM0, true)
    case 0x0A => KeyMapping(ENTER, false)
    case 0x0D => KeyMapping(ENTER, false)
    case _ => NO_KEY
  }

  function MapCharacter(u: Letters, c: Unit): KeyMapping {
    if u.isLetter(c) then
      var lower := u.lower(c);
      if lower < 97 || lower > 122 then NO_KEY else KeyMapping(A + lower - 97, u.isUpper(c))
    else if IsDigit(c) then KeyMapping(NUM0 + c - 48, false)
    else MapSymbol(c)
  }

  // ---------------------------------------------------------------------------------------
  // Sending
  // ---------------------------------------------------------------------------------------

  datatype Event = Press(key: Key) | Release(key: Key) | PressAndRelease(key: Key)

  datatype Modifiers = Modifiers(shift: bool, control: bool, alt: bool, meta: bool)

  const NO_MODIFIERS: Modifiers := Modifiers(false, false, false, false)

  /** The modifier keys held while a key is struck, in the order in which they are pressed. */
  function Chord(requiresShift: bool, m: Modifiers): seq<Key> {
    (if m.control then [LEFT_CONTROL] else []) + (if m.alt then [LEFT_ALT] else [])
    + (if m.meta then [LEFT_SUPER] else []) + (if requiresShift || m.shift then [LEFT_SHIFT] else [])
  }

  /** Brackets around a stroke: what is pressed first is released last. */
  function Around(chord: seq<Key>, stroke: Event): seq<Event> {
    if chord == [] then [stroke] else [Press(chord[0])] + Around(chord[1..], stroke) + [Release(chord[0])]
  }

  /** The cast of an int to the 8-bit enumeration Key. */
  function ToKey(key: int): Key {
    key % 256
  }

  function Burst(mapping: KeyMapping, m: Modifiers): seq<Event> {
    if mapping.key == INVALID_KEY then []
    else Around(Chord(mapping.requiresShift, m), PressAndRelease(ToKey(mapping.key)))
  }

  function TextEvents(u: Letters, text: seq<Unit>, m: Modifiers): seq<Event> {
    if text == [] then [] else Burst(MapCharacter(u, text[0]), m) + TextEvents(u, text[1..], m)
  }

  class MobileRemoteInputController {
    const letters: Letters
    /** The events that RemoteInputModule has been given. */
    var sent: seq<Event>

    constructor (letters: Letters)
      ensures sent == [] && this.letters == letters
    {
      this.letters, sent := letters, [];
    }

    method SendInput(event: Event)
      modifies this
      ensures sent == old(sent) + [event]
    {
      sent := sent + [event];
    }

    method SendMappedKey(key: int, requiresShift: bool, modifiers: Modifiers) returns (ok: bool)
      modifies this
      ensures ok == (key != INVALID_KEY) && sent == old(sent) + Burst(KeyMapping(key, requiresShift), modifiers)
    {
      if key == INVALID_KEY {
        return false;
      }
      hide Chord, Pressed, Released, Around;
      var mappedKey := ToKey(key);
      var pressShift := requiresShift || modifiers.shift;
      ghost var chord := Chord(requiresShift, modifiers);
      SameChord(requiresShift, modifiers);
      PressModifiers(pressShift, modifiers);
      SendInput(PressAndRelease(mappedKey));
      ReleaseModifiers(pressShift, modifiers);
      AroundIs(chord, PressAndRelease(mappedKey));
      Packable.Associative(old(sent) + Pressed(chord), [PressAndRelease(mappedKey)], Released(chord));
      Packable.Associative(old(sent), Pressed(chord), [PressAndRelease(mappedKey)] + Released(chord));
      Packable.Associative(Pressed(chord), [PressAndRelease(mappedKey)], Released(chord));
      return true;
    }

    method PressModifiers(pressShift: bool, m: Modifiers)
      modifies this
      ensures sent == old(sent) + Pressed(Chord(pressShift, m.(shift := false)))
    {
      hide Pressed, Chord;
      PressedChord(pressShift, m);
      if m.control {
        SendInput(Press(LEFT_CONTROL));
      }
      if m.alt {
        SendInput(Press(LEFT_ALT));
      }
      if m.meta {
        SendInput(Press(LEFT_SUPER));
      }
      if pressShift {
        SendInput(Press(LEFT_SHIFT));
      }
    }

    method ReleaseModifiers(pressShift: bool, m: Modifiers)
      modifies this
      ensures sent == old(sent) + Released(Chord(pressShift, m.(shift := false)))
    {
      hide Released, Chord;
      ReleasedChord(pressShift, m);
      if pressShift {
        SendInput(Release(LEFT_SHIFT));
      }
      if m.meta {
        SendInput(Release(LEFT_SUPER));
      }
      if m.alt {
        SendInput(Release(LEFT_ALT));
      }
      if m.control {
        SendInput(Release(LEFT_CONTROL));
      }
    }

    method SendCharacter(c: Unit, modifiers: Modifiers) returns (ok: bool)
      modifies this
      ensures sent == old(sent) + Burst(MapCharacter(letters, c), modifiers)
      ensures ok == (MapCharacter(letters, c).key != INVALID_KEY)
    {
      hide MapCharacter;
      var mapping := MapCharacter(letters, c);
      if mapping.key == INVALID_KEY {
        return false;
      }
      ok := SendMappedKey(mapping.key, mapping.requiresShift, modifiers);
    }

    /** The text loop of sendQtKeyEvent. */
    method SendText(text: seq<Unit>, modifiers: Modifiers) returns (anySent: bool)
      modifies this
      ensures sent == old(sent) + TextEvents(letters, text, modifiers)
    {
      hide Burst, MapCharacter;
      anySent := false;
      assert text[0..] == text;
      ghost var before := sent;
      var i := 0;
      while i < |text|
        invariant 0 <= i <= |text|
        invariant before + TextEvents(letters, text, modifiers) == sent + TextEvents(letters, text[i..], modifiers)
      {
        assert text[i..][1..] == text[i + 1..];
        ghost var soFar := sent;
        var ok := SendCharacter(text[i], modifiers);
        Packable.Associative(soFar, Burst(MapCharacter(letters, text[i]), modifiers),
          TextEvents(letters, text[i + 1..], modifiers));
        if ok {
          anySent := true;
        }
        i := i + 1;
      }
    }
  }

  function Pressed(chord: seq<Key>): seq<Event> {
    if chord == [] then [] else [Press(chord[0])] + Pressed(chord[1..])
  }

  function Released(chord: seq<Key>): seq<Event> {
    if chord == [] then [] else Released(chord[1..]) + [Release(chord[0])]
  }

  lemma {:induction false} AroundIs(chord: seq<Key>, stroke: Event)
    ensures Around(chord, stroke) == Pressed(chord) + [stroke] + Released(chord)
  {
    if chord != [] {
      AroundIs(chord[1..], stroke);
    }
  }

  lemma SameChord(requiresShift: bool, m: Modifiers)
    ensures Chord(requiresShift, m) == Chord(requiresShift || m.shift, m.(shift := false))
  {
  }

  lemma {:induction false} PressedAppend(a: seq<Key>, b: seq<Key>)
    ensures Pressed(a + b) == Pressed(a) + Pressed(b)
  {
    if a == [] {
      assert a + b == b;
    } else {
      PressedAppend(a[1..], b);
      assert (a + b)[1..] == a[1..] + b && (a + b)[0] == a[0];
      Packable.Associative([Press(a[0])], Pressed(a[1..]), Pressed(b));
    }
  }

  lemma {:induction false} ReleasedAppend(a: seq<Key>, b: seq<Key>)
    ensures Released(a + b) == Released(b) + Released(a)
  {
    if a == [] {
      assert a + b == b;
    } else {
      ReleasedAppend(a[1..], b);
      assert (a + b)[1..] == a[1..] + b && (a + b)[0] == a[0];
      Packable.Associative(Released(b), Released(a[1..]), [Release(a[0])]);
    }
  }

  function One(wanted: bool, key: Key): seq<Key> {
    if wanted then [key] else []
  }

  lemma PressedOne(wanted: bool, key: Key)
    ensures Pressed(One(wanted, key)) == if wanted then [Press(key)] else []
    ensures Released(One(wanted, key)) == if wanted then [Release(key)] else []
  {
    assert [key][1..] == [];
  }

  lemma PressedChord(pressShift: bool, m: Modifiers)
    ensures Pressed(Chord(pressShift, m.(shift := false))) ==
      (if m.control then [Press(LEFT_CONTROL)] else []) + (if m.alt then [Press(LEFT_ALT)] else [])
      + (if m.meta then [Press(LEFT_SUPER)] else []) + (if pressShift then [Press(LEFT_SHIFT)] else [])
  {
    hide Pressed, One;
    var c, a, s, h := One(m.control, LEFT_CONTROL), One(m.alt, LEFT_ALT), One(m.meta, LEFT_SUPER),
      One(pressShift, LEFT_SHIFT);
    ChordIs(pressShift, m);
    PressedAppend(c + a + s, h);
    PressedAppend(c + a, s);
    PressedAppend(c, a);
    PressedOne(m.control, LEFT_CONTROL);
    PressedOne(m.alt, LEFT_ALT);
    PressedOne(m.meta, LEFT_SUPER);
    PressedOne(pressShift, LEFT_SHIFT);
  }

  lemma ChordIs(pressShift: bool, m: Modifiers)
    ensures Chord(pressShift, m.(shift := false)) ==
      One(m.control, LEFT_CONTROL) + One(m.alt, LEFT_ALT) + One(m.meta, LEFT_SUPER) + One(pressShift, LEFT_SHIFT)
  {
  }

  lemma ReleasedChord(pressShift: bool, m: Modifiers)
    ensures Released(Chord(pressShift, m.(shift := false))) ==
      (if pressShift then [Release(LEFT_SHIFT)] else []) + (if m.meta then [Release(LEFT_SUPER)] else [])
      + (if m.alt then [Release(LEFT_ALT)] else []) + (if m.control then [Release(LEFT_CONTROL)] else [])
  {
    hide Released, One;
    var c, a, s, h := One(m.control, LEFT_CONTROL), One(m.alt, LEFT_ALT), One(m.meta, LEFT_SUPER),
      One(pressShift, LEFT_SHIFT);
    ChordIs(pressShift, m);
    ReleasedAppend(c + a + s, h);
    ReleasedAppend(c + a, s);
    ReleasedAppend(c, a);
    PressedOne(m.control, LEFT_CONTROL);
    PressedOne(m.alt, LEFT_ALT);
    PressedOne(m.meta, LEFT_SUPER);
    PressedOne(pressShift, LEFT_SHIFT);
    Packable.Associative(Released(s), Released(a), Released(c));
    Packable.Associative(Released(h), Released(s), Released(a) + Released(c));
    Packable.Associative(Released(h) + Released(s), Released(a), Released(c));
  }

  // ---------------------------------------------------------------------------------------
  // A keyboard
  // ---------------------------------------------------------------------------------------

  /** The keys that are down and the characters produced so far, on a US layout and without lock
      keys.  Backspace, Tab, Escape and Delete produce control characters. */
  datatype Keyboard = Keyboard(held: set<Key>, produced: seq<int>)

  const DIGIT_SYMBOLS: string := ")!@#$%^&*("
  const PLAIN_SYMBOLS: string := "`-=[]\\;',./"
  const SHIFTED_SYMBOLS: string := "~_+{}|:\"<>?"

  /** The character of a key, if it has one. */
  function Produces(k: Key, shift: bool): seq<int> {
    if k < NUM0 then [if shift then 65 + k else 97 + k]
    else if k < GRAVE then [if shift then DIGIT_SYMBOLS[k - NUM0] as int else 48 + k - NUM0]
    else if k <= SLASH then [if shift then SHIFTED_SYMBOLS[k - GRAVE] as int else PLAIN_SYMBOLS[k - GRAVE] as int]
    else if k == ESCAPE then [27]
    else if k == TAB then [9]
    else if k == SPACE then [32]
    else if k == BACKSPACE then [8]
    else if k == ENTER || k == NUMPAD_ENTER then [10]
    else if k == DELETE then [127]
    else if NUMPAD0 <= k < NUMPAD_ADD then [48 + k - NUMPAD0]
    else if k == NUMPAD_ADD then [43]
    else if k == NUMPAD_SUBTRACT then [45]
    else if k == NUMPAD_MULTIPLY then [42]
    else if k == NUMPAD_DIVIDE then [47]
    else if k == NUMPAD_DECIMAL then [46]
    else []
  }

  function Strike(kb: Keyboard, k: Key): seq<int> {
    if kb.held !! {LEFT_CONTROL, RIGHT_CONTROL, LEFT_ALT, RIGHT_ALT, LEFT_SUPER, RIGHT_SUPER}
    then kb.produced + Produces(k, LEFT_SHIFT in kb.held || RIGHT_SHIFT in kb.held)
    else kb.produced
  }

  function Apply(kb: Keyboard, e: Event): Keyboard {
    match e
    case Press(k) => Keyboard(kb.held + {k}, Strike(kb, k))
    case Release(k) => kb.(held := kb.held - {k})
    case PressAndRelease(k) => Keyboard(kb.held - {k}, Strike(kb, k))
  }

  function Play(kb: Keyboard, events: seq<Event>): Keyboard
    decreases |events|
  {
    if events == [] then kb else Play(Apply(kb, events[0]), events[1..])
  }

  lemma {:induction false} PlayAppend(kb: Keyboard, a: seq<Event>, b: seq<Event>)
    ensures Play(kb, a + b) == Play(Play(kb, a), b)
    decreases |a|
  {
    if a == [] {
      assert a + b == b;
    } else {
      PlayAppend(Apply(kb, a[0]), a[1..], b);
      assert (a + b)[1..] == a[1..] + b;
    }
  }

  // ---------------------------------------------------------------------------------------
  // Typing without modifiers
  // ---------------------------------------------------------------------------------------

  /** What typing a code unit should produce: itself if it is printable ASCII, a line feed for
      either line end, and nothing otherwise. */
  function Expected(c: Unit): seq<int> {
    if 32 <= c <= 126 then [c] else if c == 10 || c == 13 then [10] else []
  }

  function ExpectedText(text: seq<Unit>): seq<int> {
    if text == [] then [] else Expected(text[0]) + ExpectedText(text[1..])
  }

  function Output(u: Letters, c: Unit): seq<int> {
    var m := MapCharacter(u, c);
    if m.key == INVALID_KEY then [] else Produces(ToKey(m.key), m.requiresShift)
  }

  /** The keys that produce a character. */
  predicate HasCharacter(k: Key) {
    || k <= TAB || k in {SPACE, BACKSPACE, ENTER, DELETE} || NUMPAD0 <= k <= NUMPAD_ENTER
  }

  /** A code unit beyond ASCII that is a letter with its lower case in a to z, or a decimal digit
      whose distance from 22, modulo 256, is the number of a key that produces a character. */
  predicate Stray(u: Letters, c: Unit) {
    c >= 128 &&
    if u.isLetter(c) then 97 <= u.lower(c) <= 122 else IsDigit(c) && HasCharacter((c - 22) % 256)
  }

  lemma ProducesExactly(k: Key, shift: bool)
    ensures HasCharacter(k) ==> |Produces(k, shift)| == 1
    ensures !HasCharacter(k) ==> Produces(k, shift) == []
  {
  }

  lemma NoSymbolBeyondAscii(c: Unit)
    requires c >= 128
    ensures MapSymbol(c) == NO_KEY
  {
  }

  /** Beyond ASCII exactly the strays produce something. */
  lemma StrayProduces(u: Letters, c: Unit)
    requires c >= 128
    ensures |Output(u, c)| == if Stray(u, c) then 1 else 0
  {
    hide MapSymbol, Produces, HasCharacter;
    NoSymbolBeyondAscii(c);
    var m := MapCharacter(u, c);
    if m.key != INVALID_KEY {
      ProducesExactly(ToKey(m.key), m.requiresShift);
      assert u.isLetter(c) ==> HasCharacter(ToKey(m.key)) by { LettersHaveCharacters(m.key); }
    }
  }

  lemma LettersHaveCharacters(key: int)
    ensures 0 <= key < 26 ==> HasCharacter(ToKey(key))
  {
  }

  function Strays(u: Letters, text: seq<Unit>): nat {
    if text == [] then 0 else (if Stray(u, text[0]) then 1 else 0) + Strays(u, text[1..])
  }

  function SymbolOutput(c: Unit): seq<int> {
    var m := MapSymbol(c);
    if m.key == INVALID_KEY then [] else Produces(ToKey(m.key), m.requiresShift)
  }

  lemma ControlsAreRight(c: Unit)
    requires c < 33 || c == 127
    ensures SymbolOutput(c) == Expected(c)
  {
  }

  lemma FirstSymbolsAreRight(c: Unit)
    requires 33 <= c < 41
    ensures SymbolOutput(c) == Expected(c)
  {
  }

  lemma SecondSymbolsAreRight(c: Unit)
    requires 41 <= c < 48
    ensures SymbolOutput(c) == Expected(c)
  {
  }

  lemma ThirdSymbolsAreRight(c: Unit)
    requires 58 <= c < 65
    ensures SymbolOutput(c) == Expected(c)
  {
  }

  lemma FourthSymbolsAreRight(c: Unit)
    requires 91 <= c < 97
    ensures SymbolOutput(c) == Expected(c)
  {
  }

  lemma LastSymbolsAreRight(c: Unit)
    requires 123 <= c < 127
    ensures SymbolOutput(c) == Expected(c)
  {
  }

  lemma AsciiDigits(c: Unit)
    requires c < 128
    ensures Characters.IsDigit(c as char) == (48 <= c <= 57)
  {
  }

  lemma AsciiIsRight(u: Letters, c: Unit)
    requires KnowsAscii(u) && c < 128
    ensures Output(u, c) == Expected(c)
  {
    hide MapSymbol, Characters.IsDigit;
    assert IsDigit(c) == (48 <= c <= 57) by { AsciiDigits(c); }
    if c < 33 || c == 127 {
      ControlsAreRight(c);
    } else if c < 41 {
      FirstSymbolsAreRight(c);
    } else if c < 48 {
      SecondSymbolsAreRight(c);
    } else if 58 <= c < 65 {
      ThirdSymbolsAreRight(c);
    } else if 91 <= c < 97 {
      FourthSymbolsAreRight(c);
    } else if 123 <= c {
      LastSymbolsAreRight(c);
    }
  }

  lemma BurstProduces(kb: Keyboard, mapping: KeyMapping)
    requires kb.held == {}
    ensures Play(kb, Burst(mapping, NO_MODIFIERS)) ==
      if mapping.key == INVALID_KEY then kb
      else kb.(produced := kb.produced + Produces(ToKey(mapping.key), mapping.requiresShift))
  {
    if mapping.key != INVALID_KEY {
      hide Produces, ToKey;
      var k := ToKey(mapping.key);
      if mapping.requiresShift {
        ShiftedProduces(kb, k);
      } else {
        PlainProduces(kb, k);
      }
    }
  }

  lemma PlainProduces(kb: Keyboard, k: Key)
    requires kb.held == {}
    ensures Around(Chord(false, NO_MODIFIERS), PressAndRelease(k)) == [PressAndRelease(k)]
    ensures Play(kb, [PressAndRelease(k)]) == kb.(produced := kb.produced + Produces(k, false))
  {
    hide Produces;
    assert [PressAndRelease(k)][1..] == [];
    assert kb.held - {k} == {};
  }

  lemma ShiftedProduces(kb: Keyboard, k: Key)
    requires kb.held == {}
    ensures var events := [Press(LEFT_SHIFT), PressAndRelease(k), Release(LEFT_SHIFT)];
      && Around(Chord(true, NO_MODIFIERS), PressAndRelease(k)) == events
      && Play(kb, events) == kb.(produced := kb.produced + Produces(k, true))
  {
    assert Produces(LEFT_SHIFT, false) == [];
    assert Chord(true, NO_MODIFIERS) == [LEFT_SHIFT] && [LEFT_SHIFT][1..] == [];
    AroundIs([LEFT_SHIFT], PressAndRelease(k));
    var down := Keyboard({LEFT_SHIFT}, kb.produced);
    assert Apply(kb, Press(LEFT_SHIFT)) == down;
    var struck := Apply(down, PressAndRelease(k));
    assert struck.produced == kb.produced + Produces(k, true);
    assert Apply(struck, Release(LEFT_SHIFT)) == Keyboard({}, struck.produced);
    var events := [Press(LEFT_SHIFT), PressAndRelease(k), Release(LEFT_SHIFT)];
    assert events[1..] == [PressAndRelease(k), Release(LEFT_SHIFT)] && events[1..][1..] == [Release(LEFT_SHIFT)];
    assert [Release(LEFT_SHIFT)][1..] == [];
    hide Produces, Apply;
    assert Play(struck, [Release(LEFT_SHIFT)]) == Apply(struck, Release(LEFT_SHIFT));
    assert Play(down, events[1..]) == Play(struck, events[1..][1..]);
  }

  /** What the keyboard produces is right, but for what strays add to it. */
  lemma {:induction false} TextProduces(u: Letters, text: seq<Unit>, kb: Keyboard)
    requires KnowsAscii(u) && kb.held == {}
    ensures var after := Play(kb, TextEvents(u, text, NO_MODIFIERS));
      && after.held == {} && kb.produced <= after.produced
      && |after.produced| == |kb.produced| + |ExpectedText(text)| + Strays(u, text)
      && (Strays(u, text) == 0 ==> after.produced == kb.produced + ExpectedText(text))
    decreases |text|
  {
    hide KnowsAscii, MapCharacter, Burst, Output, Stray;
    if text != [] {
      var c, rest := text[0], text[1..];
      var next := kb.(produced := kb.produced + Output(u, c));
      OneProduces(u, c, kb);
      PlayAppend(kb, Burst(MapCharacter(u, c), NO_MODIFIERS), TextEvents(u, rest, NO_MODIFIERS));
      OutputIs(u, c);
      TextProduces(u, rest, next);
      Packable.Associative(kb.produced, Expected(c), ExpectedText(rest));
    }
  }

  lemma OneProduces(u: Letters, c: Unit, kb: Keyboard)
    requires kb.held == {}
    ensures Play(kb, Burst(MapCharacter(u, c), NO_MODIFIERS)) == kb.(produced := kb.produced + Output(u, c))
  {
    hide MapCharacter, Burst, Produces;
    BurstProduces(kb, MapCharacter(u, c));
  }

  lemma OutputIs(u: Letters, c: Unit)
    requires KnowsAscii(u)
    ensures !Stray(u, c) ==> Output(u, c) == Expected(c)
    ensures |Output(u, c)| == |Expected(c)| + if Stray(u, c) then 1 else 0
  {
    hide Output, Stray;
    if c < 128 {
      AsciiIsRight(u, c);
      AsciiIsNoStray(u, c);
    } else {
      StrayProduces(u, c);
    }
  }

  lemma AsciiIsNoStray(u: Letters, c: Unit)
    requires c < 128
    ensures !Stray(u, c)
  {
  }

  /** Typing text without modifiers produces exactly its printable characters and line ends, if and
      only if no code unit of it is a stray; either way no key stays down. */
  lemma TypingRoundTripExactly(u: Letters, text: seq<Unit>)
    requires KnowsAscii(u)
    ensures var after := Play(Keyboard({}, []), TextEvents(u, text, NO_MODIFIERS));
      && after.held == {}
      && (after.produced == ExpectedText(text) <==> forall i :: 0 <= i < |text| ==> !Stray(u, text[i]))
  {
    TextProduces(u, text, Keyboard({}, []));
    NoStrays(u, text);
    hide TextEvents, Play, Stray;
    assert [] + ExpectedText(text) == ExpectedText(text);
  }

  lemma {:induction false} NoStrays(u: Letters, text: seq<Unit>)
    ensures Strays(u, text) == 0 <==> forall i :: 0 <= i < |text| ==> !Stray(u, text[i])
  {
    hide Stray;
    if text != [] {
      NoStrays(u, text[1..]);
      assert forall i :: 0 < i < |text| ==> text[i] == text[1..][i - 1];
      assert forall i :: 0 <= i < |text[1..]| ==> text[1..][i] == text[i + 1];
    }
  }

  /** The Tibetan digit zero types the letter k, and so does the Kelvin sign when it is a letter
      whose lower case is k. */
  lemma StrayExamples(u: Letters)
    requires !u.isLetter(0x0F20) && u.isLetter(0x212A) && u.lower(0x212A) == 0x6B && u.isUpper(0x212A)
    ensures Output(u, 0x0F20) == [0x6B] && Stray(u, 0x0F20)
    ensures Output(u, 0x212A) == [0x4B] && Stray(u, 0x212A)
  {
    assert Characters.DigitValueFrom(0x0F20 as char, Characters.ZEROS) == 0 by { TibetanZero(); }
  }

  lemma TibetanZero()
    ensures Characters.DigitValueFrom(0x0F20 as char, Characters.ZEROS) == 0
  {
    SkipToBlock(0x0F20 as char, Characters.ZEROS, 15);
  }

  // ---------------------------------------------------------------------------------------
  // Typing with modifiers
  // ---------------------------------------------------------------------------------------

  /** No key is pressed or struck that is down, and none is released that is up. */
  predicate Clean(held: set<Key>, events: seq<Event>)
    decreases |events|
  {
    events == [] ||
    (match events[0]
     case Press(k) => k !in held && Clean(held + {k}, events[1..])
     case Release(k) => k in held && Clean(held - {k}, events[1..])
     case PressAndRelease(k) => k !in held && Clean(held, events[1..]))
  }

  function HeldAfter(held: set<Key>, events: seq<Event>): set<Key>
    decreases |events|
  {
    if events == [] then held
    else
      HeldAfter(
        match events[0]
        case Press(k) => held + {k}
        case Release(k) => held - {k}
        case PressAndRelease(k) => held - {k},
        events[1..])
  }

  predicate Different(chord: seq<Key>) {
    forall i, j :: 0 <= i < j < |chord| ==> chord[i] != chord[j]
  }

  lemma {:induction false} CleanAppend(held: set<Key>, a: seq<Event>, b: seq<Event>)
    ensures Clean(held, a + b) ==> Clean(held, a)
    ensures Clean(held, a) ==> (Clean(held, a + b) <==> Clean(HeldAfter(held, a), b))
    ensures HeldAfter(held, a + b) == HeldAfter(HeldAfter(held, a), b)
    decreases |a|
  {
    if a == [] {
      assert a + b == b;
    } else {
      assert (a + b)[1..] == a[1..] + b;
      match a[0]
      case Press(k) => CleanAppend(held + {k}, a[1..], b);
      case Release(k) => CleanAppend(held - {k}, a[1..], b);
      case PressAndRelease(k) =>
        assert k !in held ==> held - {k} == held;
        CleanAppend(held - {k}, a[1..], b);
    }
  }

  /** A stroke inside a chord of different keys that are up: afterwards they are up again, and the
      burst is clean exactly when the key struck is neither down already nor one of the chord. */
  lemma {:induction false} AroundClean(held: set<Key>, chord: seq<Key>, k: Key)
    requires Different(chord) && forall i :: 0 <= i < |chord| ==> chord[i] !in held
    ensures var events := Around(chord, PressAndRelease(k));
      HeldAfter(held, events) == held - {k} && (Clean(held, events) <==> k !in held && k !in chord)
    decreases |chord|
  {
    var stroke := PressAndRelease(k);
    if chord == [] {
      assert [stroke][1..] == [];
    } else {
      var c, inner := chord[0], Around(chord[1..], stroke);
      assert forall i :: 0 <= i < |chord[1..]| ==> chord[1..][i] == chord[i + 1];
      AroundClean(held + {c}, chord[1..], k);
      var events := [Press(c)] + inner + [Release(c)];
      assert events[1..] == inner + [Release(c)];
      CleanAppend(held + {c}, inner, [Release(c)]);
      assert [Release(c)][1..] == [];
      assert chord == [c] + chord[1..];
      assert held + {c} - {k} - {c} == held - {k};
      hide Around;
    }
  }

  lemma BurstCleanExactly(mapping: KeyMapping, m: Modifiers)
    ensures HeldAfter({}, Burst(mapping, m)) == {}
    ensures mapping.key != INVALID_KEY ==>
      (Clean({}, Burst(mapping, m)) <==> ToKey(mapping.key) !in Chord(mapping.requiresShift, m))
    ensures mapping.key == INVALID_KEY ==> Clean({}, Burst(mapping, m))
  {
    if mapping.key != INVALID_KEY {
      assert Different(Chord(mapping.requiresShift, m));
      AroundClean({}, Chord(mapping.requiresShift, m), ToKey(mapping.key));
    }
  }

  /** A decimal digit, which is no letter, whose distance from 22, modulo 256, is the number of one
      of the modifier keys that are held. */
  predicate Clashes(u: Letters, c: Unit, m: Modifiers) {
    !u.isLetter(c) && IsDigit(c) && (c - 22) % 256 in Chord(false, m)
  }

  lemma ChordKeys(requiresShift: bool, m: Modifiers)
    ensures forall k <- Chord(requiresShift, m) :: LEFT_SHIFT <= k <= LEFT_SUPER
  {
  }

  /** The key of a code unit is one of the modifiers held for it exactly in a clash. */
  lemma ClashesExactly(u: Letters, c: Unit, m: Modifiers)
    ensures var mapping := MapCharacter(u, c);
      Clashes(u, c, m) <==> mapping.key != INVALID_KEY && ToKey(mapping.key) in Chord(mapping.requiresShift, m)
  {
    hide MapSymbol, Chord;
    SymbolKeys(c);
    var mapping := MapCharacter(u, c);
    ChordKeys(mapping.requiresShift, m);
  }

  /** With any modifiers text leaves no key down, and its events are clean exactly when no digit in it
      clashes with a modifier that is held. */
  lemma {:induction false} TextCleanExactly(u: Letters, text: seq<Unit>, m: Modifiers)
    ensures HeldAfter({}, TextEvents(u, text, m)) == {}
    ensures Clean({}, TextEvents(u, text, m)) <==> forall i :: 0 <= i < |text| ==> !Clashes(u, text[i], m)
    decreases |text|
  {
    hide MapCharacter, Burst, Chord, ToKey, Clashes;
    if text != [] {
      ClashesExactly(u, text[0], m);
      var first, rest := Burst(MapCharacter(u, text[0]), m), TextEvents(u, text[1..], m);
      BurstCleanExactly(MapCharacter(u, text[0]), m);
      TextCleanExactly(u, text[1..], m);
      CleanAppend({}, first, rest);
      assert forall i :: 0 < i < |text| ==> text[i] == text[1..][i - 1];
      assert forall i :: 0 <= i < |text[1..]| ==> text[1..][i] == text[i + 1];
    }
  }

  /** Text of ASCII never clashes. */
  lemma AsciiIsClean(u: Letters, c: Unit, m: Modifiers)
    requires c < 128
    ensures !Clashes(u, c, m)
  {
    hide Chord;
    AsciiDigits(c);
    ChordKeys(false, m);
  }

  lemma SymbolKeys(c: Unit)
    ensures MapSymbol(c).key == INVALID_KEY || 0 <= MapSymbol(c).key < LEFT_SHIFT
  {
  }

  /** The Thai digit one is mapped to the left Super key, which is then struck while it is held. */
  lemma ClashExample(u: Letters)
    requires !u.isLetter(0x0E51)
    ensures Clashes(u, 0x0E51, NO_MODIFIERS.(meta := true))
  {
    assert Characters.DigitValueFrom(0x0E51 as char, Characters.ZEROS) == 1 by { ThaiOne(); }
  }

  lemma ThaiOne()
    ensures Characters.DigitValueFrom(0x0E51 as char, Characters.ZEROS) == 1
  {
    SkipToBlock(0x0E51 as char, Characters.ZEROS, 13);
  }

  lemma {:induction false} SkipToBlock(c: char, zeros: seq<int>, k: nat)
    requires k < |zeros| && zeros[k] <= c as int <= zeros[k] + 9 && forall i :: 0 <= i < k ==> zeros[i] + 9 < c as int
    ensures Characters.DigitValueFrom(c, zeros) == c as int - zeros[k]
  {
    if k > 0 {
      SkipToBlock(c, zeros[1..], k - 1);
    }
  }
}
