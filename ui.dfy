/** The info card and subject list of `UIManager`, with the DOM reduced to a
    visibility flag, the three displayed fields and the list of items. */
module Ui {
  import opened Base
  import opened Catalog

  /** What the card shows: `currentDino`, whether the `hidden` class is absent,
      and the name, height (rendered as the number followed by "m") and
      description text. */
  datatype Card = Card(current: Option<string>, visible: bool, name: string, height: real, desc: string)

  /** JavaScript truthiness of `currentDino`: `null` and the empty string are falsy. */
  predicate HasCurrent(c: Card) {
    c.current.Some? && c.current.value != ""
  }

  /** `showInfo(d)`: nothing changes when the card already names `d.name`;
      otherwise the card takes `d`'s fields and becomes visible. */
  function Shown(c: Card, d: Record): (r: Card)
    ensures r.current == Some(d.name)
    ensures c.current == Some(d.name) ==> r == c
    ensures c.current != Some(d.name) ==> r.visible && r.name == d.name && r.height == d.height && r.desc == d.desc
  {
    if c.current == Some(d.name) then c
    else Card(Some(d.name), true, d.name, d.height, d.desc)
  }

  /** `hideInfo()`: a no-op without a (truthy) current subject; otherwise it
      clears the subject and hides the card, leaving the text fields as they were. */
  function Hidden(c: Card): (r: Card)
    ensures !HasCurrent(c) ==> r == c
    ensures HasCurrent(c) ==> r.current.None? && !r.visible
    ensures r.name == c.name && r.height == c.height && r.desc == c.desc
  {
    if !HasCurrent(c) then c else c.(current := None, visible := false)
  }

  /** One pick outcome delivered to the card per frame. */
  datatype PickEvent = Show(subject: Record) | Hide

  function Apply(c: Card, e: PickEvent): Card {
    match e
    case Show(d) => Shown(c, d)
    case Hide => Hidden(c)
  }

  /** The card after a sequence of events, oldest first. */
  function Run(c: Card, events: seq<PickEvent>): Card
    decreases |events|
  {
    if events == [] then c else Apply(Run(c, events[..|events| - 1]), events[|events| - 1])
  }

  /** The card is visible exactly when it has a current subject, and then it
      displays that subject's name. */
  predicate Coherent(c: Card) {
    && (c.visible <==> c.current.Some?)
    && (c.current.Some? ==> c.current.value != "" && c.name == c.current.value)
  }

  predicate NamedEvents(events: seq<PickEvent>) {
    forall k :: 0 <= k < |events| && events[k].Show? ==> events[k].subject.name != ""
  }

  lemma ShowIsDeduplicated(c: Card, d: Record)
    ensures Shown(Shown(c, d), d) == Shown(c, d)
  {}

  /** Deduplication is by name: a second record with the same name leaves the
      first record's height and description on the card. */
  lemma ShowDeduplicatesByName(c: Card, d1: Record, d2: Record)
    requires d1.name == d2.name
    ensures Shown(Shown(c, d1), d2) == Shown(c, d1)
  {}

  lemma HideIsIdempotent(c: Card)
    ensures Hidden(Hidden(c)) == Hidden(c)
  {}

  /** Show, hide, show again: the hide takes effect and the second show
      re-displays the subject. */
  lemma ShowHideShow(c: Card, d: Record)
    requires d.name != ""
    ensures Hidden(Shown(c, d)).current.None? && !Hidden(Shown(c, d)).visible
    ensures Shown(Hidden(Shown(c, d)), d) == Card(Some(d.name), true, d.name, d.height, d.desc)
  {}

  /** What the falsiness test means for a subject named "": hiding leaves it on screen. */
  lemma EmptyNameIsNeverHidden(c: Card, d: Record)
    requires d.name == "" && c.current != Some("")
    ensures Hidden(Shown(c, d)).visible
  {}

  lemma {:induction false} RunKeepsCoherent(c: Card, events: seq<PickEvent>)
    requires Coherent(c) && NamedEvents(events)
    ensures Coherent(Run(c, events))
    decreases |events|
  {
    if events != [] {
      var prefix := events[..|events| - 1];
      assert NamedEvents(prefix) by {
        forall k | 0 <= k < |prefix| && prefix[k].Show? ensures prefix[k].subject.name != "" {
          assert prefix[k] == events[k];
        }
      }
      RunKeepsCoherent(c, prefix);
    }
  }

  /** After any run of named events from a coherent card, the card reflects the
      last event: shown with that subject's name, or hidden with no subject. */
  lemma RunReflectsLastEvent(c: Card, events: seq<PickEvent>)
    requires Coherent(c) && NamedEvents(events) && events != []
    ensures var r := Run(c, events);
      match events[|events| - 1]
      case Show(d) => r.visible && r.current == Some(d.name) && r.name == d.name
      case Hide => !r.visible && r.current.None?
  {
    var prefix := events[..|events| - 1];
    assert NamedEvents(prefix) by {
      forall k | 0 <= k < |prefix| && prefix[k].Show? ensures prefix[k].subject.name != "" {
        assert prefix[k] == events[k];
      }
    }
    RunKeepsCoherent(c, prefix);
  }

  /** A list entry: its text, and the index its click handler passes on. */
  datatype ListItem = ListItem(text: string, index: nat)

  class UIManager {
    var currentDino: Option<string>
    var cardVisible: bool
    var nameText: string
    var heightValue: real
    var descText: string
    var listItems: seq<ListItem>

    function CardState(): Card
      reads this
    {
      Card(currentDino, cardVisible, nameText, heightValue, descText)
    }

    /** The card starts hidden with no subject and empty fields; the list starts empty. */
    constructor ()
      ensures CardState() == Card(None, false, "", 0.0, "") && Coherent(CardState())
      ensures listItems == []
    {
      currentDino := None;
      cardVisible := false;
      nameText, heightValue, descText := "", 0.0, "";
      listItems := [];
    }

    /** Appends one item per record, in order; item k shows `dinoData[k].name`
        and its click passes k to the callback. */
    method PopulateList(dinoData: seq<Record>)
      modifies this`listItems
      ensures |listItems| == |old(listItems)| + |dinoData|
      ensures listItems[..|old(listItems)|] == old(listItems)
      ensures forall k :: 0 <= k < |dinoData| ==> listItems[|old(listItems)| + k] == ListItem(dinoData[k].name, k)
    {
      var index := 0;
      while index < |dinoData|
        invariant 0 <= index <= |dinoData|
        invariant |listItems| == |old(listItems)| + index
        invariant listItems[..|old(listItems)|] == old(listItems)
        invariant forall k :: 0 <= k < index ==> listItems[|old(listItems)| + k] == ListItem(dinoData[k].name, k)
      {
        listItems := listItems + [ListItem(dinoData[index].name, index)];
        index := index + 1;
      }
    }

    method ShowInfo(d: Record)
      modifies this`currentDino, this`cardVisible, this`nameText, this`heightValue, this`descText
      ensures CardState() == Shown(old(CardState()), d)
    {
      if currentDino == Some(d.name) {
        return;
      }
      currentDino := Some(d.name);
      nameText := d.name;
      heightValue := d.height;
      descText := d.desc;
      cardVisible := true;
    }

    method HideInfo()
      modifies this`currentDino, this`cardVisible
      ensures CardState() == Hidden(old(CardState()))
    {
      if currentDino.None? || currentDino == Some("") {
        return;
      }
      currentDino := None;
      cardVisible := false;
    }
  }
}
