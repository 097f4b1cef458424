/** The contact list of apps/desktop/src/SmsBridgeController.cpp, kept free of duplicates under a
    relation on phone numbers that is not transitive. */
module Contacts {
  import opened Characters
  import RemotePath

  // ---------------------------------------------------------------------------------------
  // Equivalent phone keys
  // ---------------------------------------------------------------------------------------

  function DigitsOnly(number: string): string {
    if number == "" then ""
    else (if IsDigit(number[0]) then [number[0]] else "") + DigitsOnly(number[1..])
  }

  predicate EndsWith(s: string, end: string) {
    |end| <= |s| && s[|s| - |end|..] == end
  }

  predicate Equivalent(lhs: string, rhs: string) {
    lhs == rhs ||
    (var l, r := DigitsOnly(lhs), DigitsOnly(rhs);
     && l != "" && r != ""
     && |l| >= 7 && |r| >= 7
     && (EndsWith(l, r) || EndsWith(r, l)))
  }

  lemma {:induction false} DigitsOfDigits(s: string)
    requires forall i :: 0 <= i < |s| ==> IsAsciiDigit(s[i])
    ensures DigitsOnly(s) == s
  {
    hide DigitValue;
    if s != "" {
      assert IsDigit(s[0]);
      DigitsOfDigits(s[1..]);
    }
  }

  /** Two numbers may be equivalent to a third, a shorter one, without being equivalent. */
  lemma NotTransitive()
    ensures Equivalent("491234567", "1234567") && Equivalent("1234567", "331234567")
    ensures !Equivalent("491234567", "331234567")
  {
    hide DigitsOnly, IsDigit, DigitValue;
    DigitsOfDigits("491234567");
    DigitsOfDigits("1234567");
    DigitsOfDigits("331234567");
    assert "491234567"[2..] == "1234567" && "331234567"[2..] == "1234567";
    assert "491234567"[0..][0] == '4';
  }

  // ---------------------------------------------------------------------------------------
  // The list
  // ---------------------------------------------------------------------------------------

  datatype Contact = Contact(key: string, name: string, number: string)

  datatype State = State(contacts: seq<Contact>, selected: string)

  function FindContact(cs: seq<Contact>, key: string): (i: int)
    ensures -1 <= i < |cs|
    ensures i >= 0 ==> cs[i].key == key
    ensures i < 0 ==> forall k :: 0 <= k < |cs| ==> cs[k].key != key
  {
    if cs == [] then -1
    else if cs[0].key == key then 0
    else
      var i := FindContact(cs[1..], key);
      assert forall k :: 1 <= k < |cs| ==> cs[k] == cs[1..][k - 1];
      if i < 0 then -1 else i + 1
  }

  function FindEquivalent(cs: seq<Contact>, key: string): (i: int)
    ensures -1 <= i < |cs|
    ensures i >= 0 ==> Equivalent(cs[i].key, key) && forall k :: 0 <= k < i ==> !Equivalent(cs[k].key, key)
    ensures i < 0 ==> forall k :: 0 <= k < |cs| ==> !Equivalent(cs[k].key, key)
  {
    if cs == [] then -1
    else if Equivalent(cs[0].key, key) then 0
    else
      var i := FindEquivalent(cs[1..], key);
      assert forall k :: 1 <= k < |cs| ==> cs[k] == cs[1..][k - 1];
      if i < 0 then -1 else i + 1
  }

  predicate StartsWithPlus(s: string) {
    s != "" && s[0] == '+'
  }

  /** What is learnt about a contact that exists already. */
  function Updated(c: Contact, key: string, displayName: string, dialNumber: string): Contact {
    var name, number := RemotePath.Trimmed(displayName), RemotePath.Trimmed(dialNumber);
    var newName :=
      if name != "" && (!Equivalent(name, key) || Equivalent(c.name, c.key)) then name
      else if c.name == "" then dialNumber
      else c.name;
    var newNumber :=
      if number != "" && (c.number == "" || (!StartsWithPlus(c.number) && StartsWithPlus(number)))
      then number else c.number;
    Contact(c.key, newName, newNumber)
  }

  function Created(key: string, displayName: string, dialNumber: string): Contact {
    var name, number := RemotePath.Trimmed(displayName), RemotePath.Trimmed(dialNumber);
    Contact(key, if name == "" then number else name, number)
  }

  /** The contact that stands for a key, or -1. */
  function Existing(cs: seq<Contact>, key: string): (i: int)
    ensures -1 <= i < |cs|
  {
    var i := FindContact(cs, key);
    if i < 0 then FindEquivalent(cs, key) else i
  }

  function EnsureContact(s: State, key: string, displayName: string, dialNumber: string): State {
    var i := Existing(s.contacts, key);
    if i < 0 then s.(contacts := s.contacts + [Created(key, displayName, dialNumber)])
    else
      State(s.contacts[i := Updated(s.contacts[i], key, displayName, dialNumber)],
            if s.selected == key && s.contacts[i].key != key then s.contacts[i].key else s.selected)
  }

  /** The key under which fetched messages are filed. */
  function ConversationKey(cs: seq<Contact>, key: string): string {
    var i := FindEquivalent(cs, key);
    if i >= 0 then cs[i].key else key
  }

  class ContactList {
    var contacts: seq<Contact>
    var selectedContactKey: string

    ghost function View(): State
      reads this
    {
      State(contacts, selectedContactKey)
    }

    constructor ()
      ensures View() == State([], "")
    {
      contacts, selectedContactKey := [], "";
    }

    method FindContactIndex(key: string) returns (index: int)
      ensures index == FindContact(contacts, key)
    {
      assert contacts[0..] == contacts;
      var i := 0;
      while i < |contacts|
        invariant 0 <= i <= |contacts|
        invariant FindContact(contacts, key) == var k := FindContact(contacts[i..], key); if k < 0 then -1 else i + k
      {
        assert contacts[i..][1..] == contacts[i + 1..];
        if contacts[i].key == key {
          return i;
        }
        i := i + 1;
      }
      return -1;
    }

    method FindEquivalentContactIndex(key: string) returns (index: int)
      ensures index == FindEquivalent(contacts, key)
    {
      hide Equivalent;
      assert contacts[0..] == contacts;
      var i := 0;
      while i < |contacts|
        invariant 0 <= i <= |contacts|
        invariant FindEquivalent(contacts, key) ==
          var k := FindEquivalent(contacts[i..], key); if k < 0 then -1 else i + k
      {
        assert contacts[i..][1..] == contacts[i + 1..];
        if Equivalent(contacts[i].key, key) {
          return i;
        }
        i := i + 1;
      }
      return -1;
    }

    method EnsureContactExists(key: string, displayName: string, dialNumber: string)
      modifies this
      ensures View() == EnsureContact(old(View()), key, displayName, dialNumber)
    {
      hide Equivalent, FindContact, FindEquivalent, RemotePath.Trimmed;
      var existingIndex := FindContactIndex(key);
      if existingIndex < 0 {
        existingIndex := FindEquivalentContactIndex(key);
      }
      if existingIndex >= 0 {
        var existing := contacts[existingIndex];
        var trimmedDisplayName := RemotePath.Trimmed(displayName);
        var trimmedDialNumber := RemotePath.Trimmed(dialNumber);
        var displayNameLooksLikeNumber := Equivalent(trimmedDisplayName, key);
        var existingNameLooksLikeNumber := Equivalent(existing.name, existing.key);
        if trimmedDisplayName != "" && (!displayNameLooksLikeNumber || existingNameLooksLikeNumber) {
          existing := existing.(name := trimmedDisplayName);
        } else if existing.name == "" {
          existing := existing.(name := dialNumber);
        }
        if trimmedDialNumber != "" &&
           (existing.number == "" || (!StartsWithPlus(existing.number) && StartsWithPlus(trimmedDialNumber))) {
          existing := existing.(number := trimmedDialNumber);
        }
        contacts := contacts[existingIndex := existing];
        if selectedContactKey == key && existing.key != key {
          selectedContactKey := existing.key;
        }
        return;
      }
      var name := RemotePath.Trimmed(displayName);
      var number := RemotePath.Trimmed(dialNumber);
      contacts := contacts + [Contact(key, if name == "" then number else name, number)];
    }
  }

  // ---------------------------------------------------------------------------------------
  // No two contacts are equivalent, and nobody is missing
  // ---------------------------------------------------------------------------------------

  predicate Independent(cs: seq<Contact>) {
    forall i, j :: 0 <= i < j < |cs| ==> !Equivalent(cs[i].key, cs[j].key)
  }

  predicate Covers(cs: seq<Contact>, key: string) {
    exists i :: 0 <= i < |cs| && Equivalent(cs[i].key, key)
  }

  lemma EquivalentIsSymmetric(a: string, b: string)
    ensures Equivalent(a, b) <==> Equivalent(b, a)
    ensures Equivalent(a, a)
  {
    hide DigitsOnly, EndsWith;
  }

  lemma EnsureKeepsIndependent(s: State, key: string, displayName: string, dialNumber: string)
    requires Independent(s.contacts)
    ensures var t := EnsureContact(s, key, displayName, dialNumber);
      && Independent(t.contacts) && Covers(t.contacts, key)
      && |s.contacts| <= |t.contacts| <= |s.contacts| + 1
      && (forall i :: 0 <= i < |s.contacts| ==> t.contacts[i].key == s.contacts[i].key)
      && (|t.contacts| > |s.contacts| ==> t.contacts[|s.contacts|].key == key)
  {
    hide Equivalent, RemotePath.Trimmed;
    var t := EnsureContact(s, key, displayName, dialNumber);
    var i := Existing(s.contacts, key);
    EquivalentIsSymmetric(key, key);
    assert Equivalent(t.contacts[if i < 0 then |s.contacts| else i].key, key);
  }

  datatype Event =
    | Ensure(key: string, displayName: string, dialNumber: string)
    | Reorder(order: seq<Contact>)
    | Select(key: string)
    | Cleared

  /** sortContacts leaves the same contacts in another order; which of the possible orders depends
      on what std::sort does with equal contacts. */
  predicate Possible(s: State, e: Event) {
    e.Reorder? ==> multiset(e.order) == multiset(s.contacts)
  }

  function Step(s: State, e: Event): State {
    match e
    case Ensure(key, displayName, dialNumber) => EnsureContact(s, key, displayName, dialNumber)
    case Reorder(order) => s.(contacts := order)
    case Select(key) => s.(selected := ConversationKey(s.contacts, key))
    case Cleared => State([], "")
  }

  predicate PossibleRun(s: State, events: seq<Event>)
    decreases |events|
  {
    events != [] ==> Possible(s, events[0]) && PossibleRun(Step(s, events[0]), events[1..])
  }

  function Run(s: State, events: seq<Event>): State
    decreases |events|
  {
    if events == [] then s else Run(Step(s, events[0]), events[1..])
  }

  /** The keys ensured since the list was cleared last, after those of `before`. */
  function Ensured(before: set<string>, events: seq<Event>): set<string>
    decreases |events|
  {
    if events == [] then before
    else
      Ensured(
        match events[0]
        case Ensure(key, _, _) => before + {key}
        case Cleared => {}
        case _ => before,
        events[1..])
  }

  /** The contacts' keys are among `ensured`, no two of them equivalent, and each of `ensured` is
      equivalent to one of them. */
  predicate StandFor(cs: seq<Contact>, ensured: set<string>) {
    Independent(cs) && KeysAmong(cs, ensured) && CoversAll(cs, ensured)
  }

  predicate KeysAmong(cs: seq<Contact>, ensured: set<string>) {
    forall i :: 0 <= i < |cs| ==> cs[i].key in ensured
  }

  predicate CoversAll(cs: seq<Contact>, ensured: set<string>) {
    forall key <- ensured :: Covers(cs, key)
  }

  /** Independent, without the order of the list. */
  predicate Apart(cs: multiset<Contact>) {
    && (forall a <- cs :: cs[a] == 1)
    && (forall a <- cs, b <- cs :: a != b ==> !Equivalent(a.key, b.key))
  }

  lemma {:induction false} IndependentIsApart(cs: seq<Contact>)
    requires Independent(cs)
    ensures Apart(multiset(cs))
  {
    hide Equivalent;
    if cs != [] {
      var front, last := cs[..|cs| - 1], cs[|cs| - 1];
      IndependentIsApart(front);
      assert cs == front + [last];
      assert last !in front by { EquivalentIsSymmetric(last.key, last.key); }
      forall a: Contact | a in multiset(front) ensures !Equivalent(a.key, last.key) && !Equivalent(last.key, a.key) {
        assert a in front;
        EquivalentIsSymmetric(a.key, last.key);
      }
    }
  }

  lemma {:induction false} ApartIsIndependent(cs: seq<Contact>)
    requires Apart(multiset(cs))
    ensures Independent(cs)
  {
    hide Equivalent;
    if cs != [] {
      var front, last := cs[..|cs| - 1], cs[|cs| - 1];
      assert cs == front + [last];
      assert forall a :: a in multiset(front) ==> a in multiset(cs) && multiset(front)[a] <= multiset(cs)[a];
      ApartIsIndependent(front);
      forall i | 0 <= i < |front| ensures !Equivalent(front[i].key, last.key) {
        assert front[i] in multiset(front) && last in multiset(cs);
        assert front[i] != last;
      }
    }
  }

  lemma Reordered(cs: seq<Contact>, order: seq<Contact>, ensured: set<string>)
    requires multiset(order) == multiset(cs) && StandFor(cs, ensured)
    ensures StandFor(order, ensured)
  {
    hide Independent, Apart, KeysAmong, CoversAll;
    IndependentIsApart(cs);
    ApartIsIndependent(order);
    KeysReordered(cs, order, ensured);
    AllCoveredReordered(cs, order, ensured);
  }

  lemma KeysReordered(cs: seq<Contact>, order: seq<Contact>, ensured: set<string>)
    requires multiset(order) == multiset(cs) && KeysAmong(cs, ensured)
    ensures KeysAmong(order, ensured)
  {
    forall i | 0 <= i < |order| ensures order[i].key in ensured {
      assert order[i] in multiset(cs);
    }
  }

  lemma AllCoveredReordered(cs: seq<Contact>, order: seq<Contact>, ensured: set<string>)
    requires multiset(order) == multiset(cs) && CoversAll(cs, ensured)
    ensures CoversAll(order, ensured)
  {
    hide Covers;
    forall key <- ensured ensures Covers(order, key) {
      CoversReordered(cs, order, key);
    }
  }

  lemma CoversReordered(cs: seq<Contact>, order: seq<Contact>, key: string)
    requires multiset(order) == multiset(cs) && Covers(cs, key)
    ensures Covers(order, key)
  {
    hide Equivalent;
    var i :| 0 <= i < |cs| && Equivalent(cs[i].key, key);
    assert cs[i] in multiset(order);
    var j :| 0 <= j < |order| && order[j] == cs[i];
  }

  /** After any run, and whatever orders sorting produced, no two contacts have equivalent keys, and
      everyone who was ever mentioned is still represented by an equivalent contact. */
  lemma {:induction false} RunStandsFor(s: State, events: seq<Event>, ensured: set<string>)
    requires StandFor(s.contacts, ensured) && PossibleRun(s, events)
    ensures StandFor(Run(s, events).contacts, Ensured(ensured, events))
    decreases |events|
  {
    hide Step, StandFor;
    if events != [] {
      StepStandsFor(s, events[0], ensured);
      RunStandsFor(Step(s, events[0]), events[1..], Ensured(ensured, [events[0]]));
      assert [events[0]][1..] == [];
    }
  }

  lemma StepStandsFor(s: State, e: Event, ensured: set<string>)
    requires StandFor(s.contacts, ensured) && Possible(s, e)
    ensures StandFor(Step(s, e).contacts, Ensured(ensured, [e]))
  {
    assert [e][1..] == [];
    match e
    case Ensure(key, displayName, dialNumber) =>
      hide StandFor, EnsureContact;
      EnsureStandsFor(s, key, displayName, dialNumber, ensured);
    case Reorder(order) =>
      hide StandFor, EnsureContact;
      Reordered(s.contacts, order, ensured);
    case Select(key) =>
      hide StandFor, EnsureContact;
    case Cleared =>
  }

  lemma EnsureStandsFor(s: State, key: string, displayName: string, dialNumber: string, ensured: set<string>)
    requires StandFor(s.contacts, ensured)
    ensures StandFor(EnsureContact(s, key, displayName, dialNumber).contacts, ensured + {key})
  {
    hide Independent, EnsureContact, Equivalent, Covers;
    EnsureKeepsIndependent(s, key, displayName, dialNumber);
    var t := EnsureContact(s, key, displayName, dialNumber);
    forall k <- ensured ensures Covers(t.contacts, k) {
      CoversMore(s.contacts, t.contacts, k);
    }
  }

  lemma CoversMore(cs: seq<Contact>, more: seq<Contact>, key: string)
    requires Covers(cs, key) && |cs| <= |more| && forall i :: 0 <= i < |cs| ==> more[i].key == cs[i].key
    ensures Covers(more, key)
  {
    hide Equivalent;
    var i :| 0 <= i < |cs| && Equivalent(cs[i].key, key);
    assert Equivalent(more[i].key, key);
  }

  // ---------------------------------------------------------------------------------------
  // Where messages are filed
  // ---------------------------------------------------------------------------------------

  /** Fetched messages are filed under the key of a contact. */
  lemma FetchedAreFiled(s: State, key: string, number: string)
    ensures FindContact(EnsureContact(s, ConversationKey(s.contacts, key), "", number).contacts,
                        ConversationKey(s.contacts, key)) >= 0
  {
    hide Equivalent, RemotePath.Trimmed;
    var filed := ConversationKey(s.contacts, key);
    var t := EnsureContact(s, filed, "", number);
    var i := FindEquivalent(s.contacts, key);
    if i < 0 {
      EquivalentIsSymmetric(key, key);
      assert t.contacts[|t.contacts| - 1].key == key;
    } else {
      assert s.contacts[i].key == filed;
      assert FindContact(s.contacts, filed) >= 0;
      assert t.contacts[i].key == filed;
    }
  }

  /** A received message is filed under the sender's own key.  That is a contact's key exactly when
      every contact equivalent to the sender has that very key. */
  lemma ReceivedIsFiledExactly(s: State, key: string, number: string)
    requires Independent(s.contacts)
    ensures FindContact(EnsureContact(s, key, "", number).contacts, key) >= 0 <==>
      forall i :: 0 <= i < |s.contacts| && Equivalent(s.contacts[i].key, key) ==> s.contacts[i].key == key
  {
    hide Equivalent, RemotePath.Trimmed;
    EnsureKeepsIndependent(s, key, "", number);
    EquivalentIsSymmetric(key, key);
    var t := EnsureContact(s, key, "", number);
    var i := Existing(s.contacts, key);
    var f := FindContact(s.contacts, key);
    if f >= 0 {
      assert t.contacts[f].key == key;
      forall k | 0 <= k < |s.contacts| && Equivalent(s.contacts[k].key, key) ensures s.contacts[k].key == key {
        EquivalentIsSymmetric(s.contacts[k].key, key);
      }
    } else if i < 0 {
      assert t.contacts[|s.contacts|].key == key;
    } else {
      assert forall k :: 0 <= k < |t.contacts| ==> t.contacts[k].key == s.contacts[k].key;
    }
  }

  /** A contact whose number is written with a plus; a message from the number without it is filed
      where the contact's conversation does not show it. */
  lemma MisfiledExample()
    ensures var s := State([Contact("+1234567", "Ann", "+1234567")], "+1234567");
      FindContact(EnsureContact(s, "1234567", "", "1234567").contacts, "1234567") < 0
  {
    var s := State([Contact("+1234567", "Ann", "+1234567")], "+1234567");
    PlusDoesNotMatter();
    hide Equivalent;
    ReceivedIsFiledExactly(s, "1234567", "1234567");
    assert s.contacts[0].key == "+1234567";
  }

  lemma PlusDoesNotMatter()
    ensures Equivalent("+1234567", "1234567")
  {
    DigitsOfDigits("1234567");
    assert !IsDigit('+');
    hide IsDigit, DigitValue;
    assert "+1234567"[1..] == "1234567";
    assert DigitsOnly("+1234567") == DigitsOnly("1234567");
  }
}
