/** The locator queue as the single producer sees it (mem_locators.hpp). What the consumers make of
    it, step by step and interleaved, is in LocatorQueue.dfy. */
module Locators {
  import opened MemConfig
  import opened RowStream

  class MemLocators {
    const locators: array<Locator>
    var writePos: nat
    var readPos: nat
    var completed: bool

    ghost predicate Valid()
      reads this
    {
      locators.Length == MAX_LOCATORS && readPos <= writePos <= MAX_LOCATORS
    }

    ghost function Pushed(): seq<Locator>
      requires Valid()
      reads this, locators
    {
      locators[..writePos]
    }

    constructor ()
      ensures Valid() && Pushed() == [] && !completed && fresh(locators)
    {
      locators := new Locator[MAX_LOCATORS](_ => Locator(0, 0, 0, 0));
      writePos, readPos, completed := 0, 0, false;
    }

    /** The array is not checked for room in the source; that there is some is the caller's part. */
    method PushLocator(thread: nat, offset: nat, cpos: nat, skip: nat)
      requires Valid() && writePos < MAX_LOCATORS
      modifies this`writePos, locators
      ensures Valid() && Pushed() == old(Pushed()) + [Locator(thread, offset, cpos, skip)]
    {
      locators[writePos] := Locator(thread, offset, cpos, skip);
      writePos := writePos + 1;
    }

    /** A lone consumer's claim: its compare-and-swap succeeds at once. None if nothing is left. */
    method GetLocator() returns (claim: Option<(nat, Locator)>)
      requires Valid()
      modifies this`readPos
      ensures Valid()
      ensures claim == None <==> old(readPos) == |Pushed()|
      ensures claim.Some? ==> claim.value == (old(readPos), Pushed()[old(readPos)]) && readPos == old(readPos) + 1
      ensures claim == None ==> readPos == old(readPos)
    {
      var currentRead := readPos;
      if currentRead == writePos {
        return None;
      }
      var item := locators[currentRead];
      readPos := currentRead + 1;
      return Some((currentRead, item));
    }

    method SetCompleted()
      requires Valid()
      modifies this`completed
      ensures Valid() && completed
    {
      completed := true;
    }
  }
}
