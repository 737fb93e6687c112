/** The browser side of the portfolio: the project filter buttons that show
    and hide project cards, and the typing effect of the hero title. */
module Frontend {
  import opened Text

  // --------------------------------------------------------- ProjectFilter

  /** A project card of the grid. Its data-category and data-tech attributes
      (empty when absent) never change; filtering sets its display style. */
  class Card {
    const category: string
    const tech: string
    var display: string

    constructor (category: string, tech: string)
      ensures this.category == category && this.tech == tech && display == ""
    {
      this.category := category;
      this.tech := tech;
      display := "";
    }
  }

  /** Whether filterProjects shows a card: every card for "all", otherwise a
      card whose category contains the filter (case-sensitive) or whose
      lower-cased tech contains the lower-cased filter. */
  predicate ShouldShow(filter: string, category: string, tech: string) {
    filter == "all" || Contains(category, filter) || Contains(Lower(tech), Lower(filter))
  }

  /** The display style filterProjects gives a card. */
  function DisplayFor(filter: string, category: string, tech: string): string {
    if ShouldShow(filter, category, tech) then "" else "none"
  }

  /** A card is shown exactly when the filter is "all" or occurs in its
      category, or its lower-cased form occurs in the lower-cased tech; an
      empty filter shows every card. */
  lemma ShouldShowSpec(filter: string, category: string, tech: string)
    ensures ShouldShow(filter, category, tech) <==>
      || filter == "all"
      || (exists i :: OccursAt(category, filter, i))
      || (exists i :: OccursAt(Lower(tech), Lower(filter), i))
    ensures filter == "" ==> ShouldShow(filter, category, tech)
  {
    ContainsOccurs(category, filter);
    ContainsOccurs(Lower(tech), Lower(filter));
    ContainsEmpty(category);
  }

  /** The tech match ignores the case of ASCII letters in the filter. */
  lemma TechMatchIgnoresCase(filter: string, other: string, category: string, tech: string)
    requires Lower(filter) == Lower(other) && filter != "all" && other != "all"
    requires !Contains(category, filter) && !Contains(category, other)
    ensures ShouldShow(filter, category, tech) == ShouldShow(other, category, tech)
  {
  }

  /** ProjectFilter.filterProjects: walks the cards and sets each one's
      display; nothing else about the cards changes. */
  method FilterProjects(cards: seq<Card>, filter: string)
    modifies set c | c in cards
    ensures forall c :: c in cards ==> c.display == DisplayFor(filter, c.category, c.tech)
  {
    var i := 0;
    while i < |cards|
      invariant 0 <= i <= |cards|
      invariant forall k :: 0 <= k < i ==> cards[k].display == DisplayFor(filter, cards[k].category, cards[k].tech)
    {
      var card := cards[i];
      if ShouldShow(filter, card.category, card.tech) {
        card.display := "";
      } else {
        card.display := "none";
      }
      i := i + 1;
    }
  }

  /** A filter button: its data-filter attribute and whether it is active. */
  class FilterButton {
    const filter: string
    var active: bool

    constructor (filter: string, active: bool)
      ensures this.filter == filter && this.active == active
    {
      this.filter := filter;
      this.active := active;
    }
  }

  /** The click handler of a filter button: every button loses "active", the
      clicked one gains it, and the cards are filtered by its data-filter. */
  method OnFilterClick(buttons: seq<FilterButton>, clicked: FilterButton, cards: seq<Card>)
    requires clicked in buttons
    modifies set b | b in buttons
    modifies set c | c in cards
    ensures forall b :: b in buttons ==> b.active == (b == clicked)
    ensures forall c :: c in cards ==> c.display == DisplayFor(clicked.filter, c.category, c.tech)
  {
    var i := 0;
    while i < |buttons|
      invariant 0 <= i <= |buttons|
      invariant forall k :: 0 <= k < i ==> !buttons[k].active
    {
      buttons[i].active := false;
      i := i + 1;
    }
    clicked.active := true;
    FilterProjects(cards, clicked.filter);
  }

  // ----------------------------------------------------------- TypingEffect

  /** The closure variables of the typing effect. */
  datatype TypingState = TypingState(wordIndex: nat, charIndex: int, isDeleting: bool)

  /** The result of one tick: the next state, the text shown, and the delay
      in milliseconds before the next tick. */
  datatype Tick = Tick(next: TypingState, text: string, delay: nat)

  const TypeDelay: nat := 100
  const DeleteDelay: nat := 50
  const PauseAtEnd: nat := 2000
  const PauseBeforeNext: nat := 500

  /** String.prototype.substring(0, end): the prefix of the clamped length. */
  function Prefix(word: string, end: int): (r: string)
    ensures |r| == if end < 0 then 0 else if end > |word| then |word| else end
    ensures r == word[..|r|]
  {
    if end < 0 then "" else if end > |word| then word else word[..end]
  }

  /** One run of type(): show one more or one fewer character, then switch to
      deleting at the end of the word or to the next word at its start. */
  function Step(words: seq<string>, s: TypingState): Tick
    requires s.wordIndex < |words|
  {
    var word := words[s.wordIndex];
    var text := if s.isDeleting then Prefix(word, s.charIndex - 1) else Prefix(word, s.charIndex + 1);
    var c := if s.isDeleting then s.charIndex - 1 else s.charIndex + 1;
    var speed := if s.isDeleting then DeleteDelay else TypeDelay;
    if !s.isDeleting && c == |word| then
      Tick(TypingState(s.wordIndex, c, true), text, PauseAtEnd)
    else if s.isDeleting && c == 0 then
      Tick(TypingState((s.wordIndex + 1) % |words|, c, false), text, PauseBeforeNext)
    else
      Tick(TypingState(s.wordIndex, c, s.isDeleting), text, speed)
  }

  /** The states reachable from the start when every word is non-empty:
      while typing 0 <= charIndex < length, while deleting
      1 <= charIndex <= length, and the word index is in range. */
  predicate InRange(words: seq<string>, s: TypingState) {
    && s.wordIndex < |words|
    && (if s.isDeleting then 1 <= s.charIndex <= |words[s.wordIndex]|
        else 0 <= s.charIndex < |words[s.wordIndex]|)
  }

  predicate AllNonEmpty(words: seq<string>) {
    forall i :: 0 <= i < |words| ==> words[i] != ""
  }

  /** With non-empty words, a tick keeps the state in range, and the text
      shown is the current word cut at the new charIndex. */
  lemma StepInRange(words: seq<string>, s: TypingState)
    requires AllNonEmpty(words) && InRange(words, s)
    ensures var t := Step(words, s);
      && InRange(words, t.next)
      && 0 <= t.next.charIndex <= |words[t.next.wordIndex]|
      && t.text == words[t.next.wordIndex][..t.next.charIndex]
  {
    var t := Step(words, s);
    if s.isDeleting && s.charIndex == 1 {
      assert words[t.next.wordIndex] != "";
    }
  }

  /** With non-empty words every state the effect reaches from its start is
      in range. */
  lemma {:induction false} RunInRange(words: seq<string>, k: nat)
    requires |words| >= 1 && AllNonEmpty(words)
    ensures InRange(words, Run(words, TypingState(0, 0, false), k))
  {
    if k > 0 {
      RunInRange(words, k - 1);
      var start := TypingState(0, 0, false);
      RunSplit(words, start, k - 1, 1);
      StepInRange(words, Run(words, start, k - 1));
    }
  }

  /** The delays and switches of a tick: the full word switches to deleting
      after 2000 ms, the emptied word switches to the next word (cyclically)
      after 500 ms, any other tick waits 50 ms deleting and 100 ms typing. */
  lemma StepDelays(words: seq<string>, s: TypingState)
    requires s.wordIndex < |words|
    ensures var t := Step(words, s); var n := |words[s.wordIndex]|;
      && (!s.isDeleting && s.charIndex + 1 == n ==>
            t.next == TypingState(s.wordIndex, n, true) && t.delay == PauseAtEnd)
      && (s.isDeleting && s.charIndex == 1 ==>
            t.next == TypingState((s.wordIndex + 1) % |words|, 0, false) && t.delay == PauseBeforeNext)
      && (!s.isDeleting && s.charIndex + 1 != n ==>
            t.next == s.(charIndex := s.charIndex + 1) && t.delay == TypeDelay)
      && (s.isDeleting && s.charIndex != 1 ==>
            t.next == s.(charIndex := s.charIndex - 1) && t.delay == DeleteDelay)
  {
  }

  /** k ticks from state s. */
  function Run(words: seq<string>, s: TypingState, k: nat): TypingState
    requires s.wordIndex < |words|
    decreases k
  {
    if k == 0 then s
    else
      var t := Step(words, s).next;
      assert t.wordIndex < |words|;
      Run(words, t, k - 1)
  }

  /** Typing a non-empty word from its start takes one tick per character,
      deleting it one more per character, and then the next word starts:
      the effect cycles through all the words. */
  lemma {:induction false} WordCycle(words: seq<string>, i: nat)
    requires i < |words| && words[i] != ""
    ensures Run(words, TypingState(i, 0, false), 2 * |words[i]|) == TypingState((i + 1) % |words|, 0, false)
  {
    var n := |words[i]|;
    TypeRun(words, i, 0, n - 1);
    RunSplit(words, TypingState(i, 0, false), n - 1, n + 1);
    assert Step(words, TypingState(i, n - 1, false)).next == TypingState(i, n, true);
    assert Run(words, TypingState(i, n - 1, false), n + 1) == Run(words, TypingState(i, n, true), n);
    DeleteRun(words, i, n, n - 1);
    assert Run(words, TypingState(i, 1, true), 1) == TypingState((i + 1) % |words|, 0, false);
    RunSplit(words, TypingState(i, n, true), n - 1, 1);
  }

  lemma {:induction false} RunSplit(words: seq<string>, s: TypingState, a: nat, b: nat)
    requires s.wordIndex < |words|
    ensures Run(words, s, a).wordIndex < |words|
    ensures Run(words, s, a + b) == Run(words, Run(words, s, a), b)
    decreases a
  {
    if a > 0 {
      var t := Step(words, s).next;
      RunSplit(words, t, a - 1, b);
      assert Run(words, s, a) == Run(words, t, a - 1);
      assert Run(words, s, a + b) == Run(words, t, a - 1 + b);
    }
  }

  /** k typing ticks below the end of the word add k characters. */
  lemma {:induction false} TypeRun(words: seq<string>, i: nat, c: nat, k: nat)
    requires i < |words| && c + k < |words[i]|
    ensures Run(words, TypingState(i, c, false), k) == TypingState(i, c + k, false)
    decreases k
  {
    if k > 0 {
      TypeRun(words, i, c + 1, k - 1);
    }
  }

  /** k deleting ticks that stay above 0 remove k characters. */
  lemma {:induction false} DeleteRun(words: seq<string>, i: nat, c: nat, k: nat)
    requires i < |words| && k < c
    ensures Run(words, TypingState(i, c, true), k) == TypingState(i, c - k, true)
    decreases k
  {
    if k > 0 {
      DeleteRun(words, i, c - 1, k - 1);
    }
  }

  /** An empty word (from "a,,b" or a trailing comma) is never finished:
      charIndex only grows past its length and the effect stays on it. */
  lemma {:induction false} EmptyWordNeverFinishes(words: seq<string>, i: nat, c: nat, k: nat)
    requires i < |words| && words[i] == ""
    ensures Run(words, TypingState(i, c, false), k) == TypingState(i, c + k, false)
    decreases k
  {
    if k > 0 {
      EmptyWordNeverFinishes(words, i, c + 1, k - 1);
    }
  }

  /** The typing effect bound to the element carrying data-typing. */
  class TypingEffect {
    var words: seq<string>
    var wordIndex: nat
    var charIndex: int
    var isDeleting: bool
    var text: string

    ghost predicate Valid()
      reads this
    {
      |words| >= 1 && wordIndex < |words|
    }

    function State(): TypingState
      reads this
    {
      TypingState(wordIndex, charIndex, isDeleting)
    }

    /** The set-up part of TypingEffect.init: the words are the attribute
        split on commas, typing starts at the first character of the first
        word, and the element still shows the text it had (shown). */
    constructor (data: string, shown: string)
      ensures Valid()
      ensures words == Split(data, ',') && State() == TypingState(0, 0, false) && text == shown
    {
      words := Split(data, ',');
      wordIndex, charIndex, isDeleting := 0, 0, false;
      text := shown;
    }

    /** One run of type(): updates the closure state and the element's text
        and returns the delay before the next run. */
    method Type() returns (delay: nat)
      requires Valid()
      modifies this
      ensures Valid() && words == old(words)
      ensures Tick(State(), text, delay) == Step(words, old(State()))
    {
      var currentWord := words[wordIndex];
      if isDeleting {
        text := Prefix(currentWord, charIndex - 1);
        charIndex := charIndex - 1;
      } else {
        text := Prefix(currentWord, charIndex + 1);
        charIndex := charIndex + 1;
      }
      delay := if isDeleting then DeleteDelay else TypeDelay;
      if !isDeleting && charIndex == |currentWord| {
        delay := PauseAtEnd;
        isDeleting := true;
      } else if isDeleting && charIndex == 0 {
        isDeleting := false;
        wordIndex := (wordIndex + 1) % |words|;
        delay := PauseBeforeNext;
      }
    }
  }

  /** TypingEffect.init on an element carrying the attribute: the set-up,
      then the first run of type(), which shows the first character. */
  method StartTyping(data: string, shown: string) returns (effect: TypingEffect, delay: nat)
    ensures fresh(effect) && effect.Valid() && effect.words == Split(data, ',')
    ensures Tick(effect.State(), effect.text, delay) == Step(Split(data, ','), TypingState(0, 0, false))
  {
    effect := new TypingEffect(data, shown);
    delay := effect.Type();
  }
}
