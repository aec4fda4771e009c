/**
 * The typewriter text: after a start delay the shown text grows by one
 * character per tick until it is the whole text, with a cursor while it
 * is still typing.
 */
module Typewriter {

  class TypewriterText {
    const text: string
    var displayText: string
    var currentIndex: nat
    var started: bool

    /** The shown text is always the first `currentIndex` characters of the text. */
    predicate Valid()
      reads this
    {
      currentIndex <= |text| && displayText == text[..currentIndex]
    }

    constructor(text: string)
      ensures Valid()
      ensures this.text == text && displayText == "" && currentIndex == 0 && !started
    {
      this.text := text;
      displayText := "";
      currentIndex := 0;
      started := false;
    }

    /** The start timer fires. */
    method Start()
      requires Valid()
      modifies this
      ensures Valid()
      ensures started
      ensures displayText == old(displayText) && currentIndex == old(currentIndex)
    {
      started := true;
    }

    /**
     * Typing goes on while started and short of the end; the cursor is
     * drawn under the same condition.
     */
    predicate Typing()
      reads this
    {
      started && currentIndex < |text|
    }

    /**
     * One tick of the typing effect: when typing, one more character is
     * shown; otherwise nothing changes.
     */
    method Tick()
      requires Valid()
      modifies this
      ensures Valid()
      ensures started == old(started)
      ensures old(Typing()) ==> currentIndex == old(currentIndex) + 1
      ensures !old(Typing()) ==> currentIndex == old(currentIndex) && displayText == old(displayText)
    {
      if !started || currentIndex >= |text| {
        return;
      }
      displayText := text[..currentIndex + 1];
      currentIndex := currentIndex + 1;
    }

    /** Ticking until typing stops shows the whole text, and the cursor is gone. */
    method TypeToEnd()
      requires Valid() && started
      modifies this
      ensures Valid()
      ensures displayText == text && currentIndex == |text|
      ensures !Typing()
    {
      while currentIndex < |text|
        invariant Valid() && started
        decreases |text| - currentIndex
      {
        Tick();
      }
    }
  }
}
