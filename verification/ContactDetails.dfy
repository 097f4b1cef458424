/** What the contacts of apps/desktop/src/SmsBridgeController.cpp are called and which number they have,
    after whatever has been heard about them. */
module ContactDetails {
  import opened Contacts
  import RemotePath

  /** What has been heard about a contact: a key, a name and a number. */
  datatype Telling = Telling(key: string, displayName: string, dialNumber: string)

  // ---------------------------------------------------------------------------------------
  // The number
  // ---------------------------------------------------------------------------------------

  predicate FirstWithPlus(numbers: seq<string>, i: nat) {
    i < |numbers| && StartsWithPlus(numbers[i]) && forall k :: 0 <= k < i ==> !StartsWithPlus(numbers[k])
  }

  predicate FirstAtAll(numbers: seq<string>, i: nat) {
    i < |numbers| && numbers[i] != "" && forall k :: 0 <= k < i ==> numbers[k] == ""
  }

  predicate NonePlus(numbers: seq<string>) {
    forall k :: 0 <= k < |numbers| ==> !StartsWithPlus(numbers[k])
  }

  predicate NoneAtAll(numbers: seq<string>) {
    forall k :: 0 <= k < |numbers| ==> numbers[k] == ""
  }

  /** The first of these numbers that starts with a plus, or else the first that is not empty. */
  ghost predicate Best(number: string, numbers: seq<string>) {
    || (exists i: nat :: FirstWithPlus(numbers, i) && number == numbers[i])
    || (NonePlus(numbers) && exists i: nat :: FirstAtAll(numbers, i) && number == numbers[i])
    || (NoneAtAll(numbers) && number == "")
  }

  lemma BestOfMore(number: string, numbers: seq<string>, last: string)
    requires Best(number, numbers)
    ensures Best(if last != "" && (number == "" || (!StartsWithPlus(number) && StartsWithPlus(last))) then last
                 else number, numbers + [last])
  {
    var more := numbers + [last];
    assert forall k :: 0 <= k < |numbers| ==> more[k] == numbers[k];
    if i: nat :| FirstWithPlus(numbers, i) && number == numbers[i] {
      assert FirstWithPlus(more, i);
    } else if StartsWithPlus(last) {
      assert FirstWithPlus(more, |numbers|);
    } else if i: nat :| NonePlus(numbers) && FirstAtAll(numbers, i) && number == numbers[i] {
      assert FirstAtAll(more, i);
    } else if last != "" {
      assert FirstAtAll(more, |numbers|);
    }
  }

  /** The contact after what has been heard about it, the latest last. */
  function Learnt(c: Contact, tellings: seq<Telling>): (r: Contact)
    ensures r.key == c.key
  {
    if tellings == [] then c
    else
      var last := tellings[|tellings| - 1];
      Updated(Learnt(c, tellings[..|tellings| - 1]), last.key, last.displayName, last.dialNumber)
  }

  function Numbers(tellings: seq<Telling>): (r: seq<string>)
    ensures |r| == |tellings|
  {
    seq(|tellings|, i requires 0 <= i < |tellings| => RemotePath.Trimmed(tellings[i].dialNumber))
  }

  /** The number of a contact is the best of all it has had and heard. */
  lemma {:induction false} NumberIsBest(c: Contact, tellings: seq<Telling>)
    ensures Best(Learnt(c, tellings).number, [c.number] + Numbers(tellings))
    decreases |tellings|
  {
    hide RemotePath.Trimmed, Best, Equivalent;
    if tellings == [] {
      assert [c.number] + Numbers(tellings) == [c.number];
      BestOfOne(c.number);
    } else {
      var front, last := tellings[..|tellings| - 1], tellings[|tellings| - 1];
      NumberIsBest(c, front);
      BestOfMore(Learnt(c, front).number, [c.number] + Numbers(front), RemotePath.Trimmed(last.dialNumber));
      assert [c.number] + Numbers(front) + [RemotePath.Trimmed(last.dialNumber)] == [c.number] + Numbers(tellings);
    }
  }

  lemma BestOfOne(number: string)
    ensures Best(number, [number])
  {
    if StartsWithPlus(number) {
      assert FirstWithPlus([number], 0);
    } else if number != "" {
      assert FirstAtAll([number], 0);
    }
  }

  // ---------------------------------------------------------------------------------------
  // The name
  // ---------------------------------------------------------------------------------------

  /** A name that is not just the number again. */
  predicate Proper(name: string, key: string) {
    name != "" && !Equivalent(name, key)
  }

  /** The telling has a name that is not just its number again. */
  predicate Names(t: Telling) {
    Proper(RemotePath.Trimmed(t.displayName), t.key)
  }

  /** The last proper name heard is the name of the contact; and one that has a proper name keeps it
      while only numbers and empty names are heard. */
  lemma {:induction false} NameIsLastProper(c: Contact, tellings: seq<Telling>, i: nat)
    requires i <= |tellings| && forall k :: i <= k < |tellings| ==> !Names(tellings[k])
    requires i > 0 ==> Names(tellings[i - 1])
    ensures var name := if i == 0 then c.name else RemotePath.Trimmed(tellings[i - 1].displayName);
      Proper(name, c.key) || (i > 0 && i == |tellings|) ==> Learnt(c, tellings).name == name
    decreases |tellings|
  {
    hide RemotePath.Trimmed, Equivalent;
    if i < |tellings| {
      var front := tellings[..|tellings| - 1];
      assert forall k :: i <= k < |front| ==> front[k] == tellings[k];
      NameIsLastProper(c, front, i);
      assert !Names(tellings[|tellings| - 1]);
    }
  }

  predicate GivesName(t: Telling, name: string) {
    name == RemotePath.Trimmed(t.displayName) || name == t.dialNumber
  }

  /** A contact that has a name never loses it for nothing: it is called what it was called before, or
      by a name or a number that it heard. */
  lemma {:induction false} NameWasHeard(c: Contact, tellings: seq<Telling>)
    ensures var name := Learnt(c, tellings).name;
      && (c.name != "" ==> name != "")
      && (name == c.name || exists k :: 0 <= k < |tellings| && GivesName(tellings[k], name))
    decreases |tellings|
  {
    hide RemotePath.Trimmed, Equivalent;
    if tellings != [] {
      var front := tellings[..|tellings| - 1];
      NameWasHeard(c, front);
      var name := Learnt(c, front).name;
      if name != c.name {
        var k :| 0 <= k < |front| && GivesName(front[k], name);
        assert front[k] == tellings[k];
      }
    }
  }

  // ---------------------------------------------------------------------------------------
  // Who hears it
  // ---------------------------------------------------------------------------------------

  /** The contact `i` is the one meant by the key: it has that very key, or else nobody has and it is the
      first with an equivalent one. */
  predicate Meant(cs: seq<Contact>, key: string, i: nat) {
    i < |cs| &&
    if exists k :: 0 <= k < |cs| && cs[k].key == key then
      cs[i].key == key && forall k :: 0 <= k < i ==> cs[k].key != key
    else Equivalent(cs[i].key, key) && forall k :: 0 <= k < i ==> !Equivalent(cs[k].key, key)
  }

  /** The one meant hears it, all others stay as they are; when nobody is meant a contact is added, with
      the name it is given, or else the number. */
  lemma EnsureMeans(s: State, key: string, displayName: string, dialNumber: string)
    ensures var cs, t := s.contacts, EnsureContact(s, key, displayName, dialNumber);
      var name, number := RemotePath.Trimmed(displayName), RemotePath.Trimmed(dialNumber);
      && (forall i: nat :: Meant(cs, key, i) ==>
            && t.contacts == cs[i := Learnt(cs[i], [Telling(key, displayName, dialNumber)])]
            && t.selected == if s.selected == key then cs[i].key else s.selected)
      && ((forall i: nat :: !Meant(cs, key, i)) ==>
            && |t.contacts| == |cs| + 1 && cs < t.contacts && t.selected == s.selected
            && t.contacts[|cs|].key == key && t.contacts[|cs|].number == number
            && (name != "" ==> t.contacts[|cs|].name == name) && (name == "" ==> t.contacts[|cs|].name == number))
  {
    hide Equivalent, RemotePath.Trimmed, Updated;
    var cs := s.contacts;
    var e := Existing(cs, key);
    if e >= 0 {
      ExistingIsMeant(cs, key);
      var told := [Telling(key, displayName, dialNumber)];
      assert told[..|told| - 1] == [];
      assert Learnt(cs[e], told) == Updated(cs[e], key, displayName, dialNumber);
      forall i: nat | Meant(cs, key, i) ensures i == e {
        MeantIsOne(cs, key, i, e);
      }
    } else {
      NobodyMeant(cs, key);
    }
  }

  lemma MeantIsOne(cs: seq<Contact>, key: string, i: nat, j: nat)
    requires Meant(cs, key, i) && Meant(cs, key, j)
    ensures i == j
  {
    hide Equivalent;
  }

  lemma ExistingIsMeant(cs: seq<Contact>, key: string)
    requires Existing(cs, key) >= 0
    ensures Meant(cs, key, Existing(cs, key))
  {
    hide Equivalent;
    FirstFound(cs, key);
  }

  lemma {:induction false} FirstFound(cs: seq<Contact>, key: string)
    ensures forall k :: 0 <= k < FindContact(cs, key) ==> cs[k].key != key
  {
    if cs != [] && cs[0].key != key {
      FirstFound(cs[1..], key);
      assert forall k :: 1 <= k < |cs| ==> cs[k] == cs[1..][k - 1];
    }
  }

  lemma NobodyMeant(cs: seq<Contact>, key: string)
    requires Existing(cs, key) < 0
    ensures forall i: nat :: !Meant(cs, key, i)
  {
    hide Equivalent;
  }

  // ---------------------------------------------------------------------------------------
  // Runs
  // ---------------------------------------------------------------------------------------

  predicate HasContact(cs: seq<Contact>, c: Contact) {
    exists i :: 0 <= i < |cs| && cs[i] == c
  }

  /** What a contact with this key hears along a run. */
  function Heard(s: State, events: seq<Event>, key: string): seq<Telling>
    decreases |events|
  {
    if events == [] then []
    else
      (match events[0]
       case Ensure(k, displayName, dialNumber) =>
         var i := Existing(s.contacts, k);
         if i >= 0 && s.contacts[i].key == key then [Telling(k, displayName, dialNumber)] else []
       case _ => [])
      + Heard(Step(s, events[0]), events[1..], key)
  }

  lemma {:induction false} LearntOn(c: Contact, first: seq<Telling>, more: seq<Telling>)
    ensures Learnt(Learnt(c, first), more) == Learnt(c, first + more)
    decreases |more|
  {
    hide Updated;
    if more == [] {
      assert first + more == first;
    } else {
      LearntOn(c, first, more[..|more| - 1]);
      assert (first + more)[..|first + more| - 1] == first + more[..|more| - 1];
    }
  }

  lemma StepLearns(s: State, e: Event, c: Contact)
    requires Independent(s.contacts) && Possible(s, e) && HasContact(s.contacts, c) && !e.Cleared?
    ensures HasContact(Step(s, e).contacts, Learnt(c, Heard(s, [e], c.key)))
  {
    hide Updated, Equivalent, RemotePath.Trimmed;
    assert [e][1..] == [] && Heard(Step(s, e), [], c.key) == [];
    var j :| 0 <= j < |s.contacts| && s.contacts[j] == c;
    match e
    case Ensure(key, displayName, dialNumber) =>
      var told := [Telling(key, displayName, dialNumber)];
      var nothing: seq<Telling> := [];
      assert told[..0] == nothing && told + nothing == told && nothing + nothing == nothing;
      assert Learnt(c, told) == Updated(c, key, displayName, dialNumber);
      var t := EnsureContact(s, key, displayName, dialNumber);
      var i := Existing(s.contacts, key);
      if i >= 0 && s.contacts[i].key == c.key {
        EquivalentIsSymmetric(c.key, c.key);
        assert i == j;
      }
      assert t.contacts[j] == Learnt(c, Heard(s, [e], c.key));
    case Reorder(order) =>
      assert c in multiset(order);
      var i :| 0 <= i < |order| && order[i] == c;
    case Select(_) =>
  }

  lemma StepKeepsIndependent(s: State, e: Event)
    requires Independent(s.contacts) && Possible(s, e)
    ensures Independent(Step(s, e).contacts)
  {
    hide Independent, EnsureContact;
    match e
    case Ensure(key, displayName, dialNumber) => EnsureKeepsIndependent(s, key, displayName, dialNumber);
    case Reorder(order) =>
      IndependentIsApart(s.contacts);
      hide Apart;
      ApartIsIndependent(order);
    case Select(_) =>
    case Cleared => assert Independent([]) by { NoContacts(); }
  }

  lemma NoContacts()
    ensures Independent([])
  {
  }

  lemma HeardFirst(s: State, events: seq<Event>, key: string)
    requires events != []
    ensures Heard(s, events, key) == Heard(s, [events[0]], key) + Heard(Step(s, events[0]), events[1..], key)
  {
    hide Existing, Step;
    assert [events[0]][1..] == [] && Heard(Step(s, events[0]), [], key) == [];
  }

  /** Over any run without a new connection, and whatever orders sorting produced, a contact stays and
      has learnt exactly what was heard about it. */
  lemma {:induction false} RunLearns(s: State, events: seq<Event>, c: Contact)
    requires Independent(s.contacts) && PossibleRun(s, events) && HasContact(s.contacts, c)
    requires forall i :: 0 <= i < |events| ==> !events[i].Cleared?
    ensures HasContact(Run(s, events).contacts, Learnt(c, Heard(s, events, c.key)))
    decreases |events|
  {
    hide Step, HasContact, Independent, Learnt, Possible;
    if events == [] {
      assert Learnt(c, []) == c by { NothingHeard(c); }
    } else {
      var first := Heard(s, [events[0]], c.key);
      var next, d := Step(s, events[0]), Learnt(c, first);
      StepLearns(s, events[0], c);
      StepKeepsIndependent(s, events[0]);
      assert forall i :: 0 <= i < |events[1..]| ==> events[1..][i] == events[i + 1];
      RunLearns(next, events[1..], d);
      HeardFirst(s, events, c.key);
      LearntOn(c, first, Heard(next, events[1..], c.key));
    }
  }

  lemma NothingHeard(c: Contact)
    ensures Learnt(c, []) == c
  {
  }
}
