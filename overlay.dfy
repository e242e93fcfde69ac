/** The application shell's search overlay: whether the palette is open
    (`searchActive`), whether its input is highlighted, and the global keyboard
    shortcut and clicks that open and close it. */
module Overlay {

  datatype KeyEvent = KeyEvent(key: string, metaKey: bool, ctrlKey: bool)

  /** Ctrl+K or Cmd+K (the key value is compared with lower-case "k" only). */
  predicate IsShortcut(e: KeyEvent) {
    (e.metaKey || e.ctrlKey) && e.key == "k"
  }

  /** Where a click on the overlay lands: on the dimmed backdrop, inside the wrapper around the
      search bar, or elsewhere on the overlay. */
  datatype ClickTarget = Backdrop | InsideWrapper | Elsewhere

  /** The window `keydown` listener as written: the shortcut sets the negation of `seen`, the
      value of `searchActive` the listener closed over; Escape closes the palette; every other
      key changes nothing. */
  function KeyDownNext(seen: bool, active: bool, e: KeyEvent): (r: bool)
    ensures e.key == "Escape" ==> !r
    ensures !IsShortcut(e) && e.key != "Escape" ==> r == active
    ensures IsShortcut(e) ==> r == !seen
  {
    var afterShortcut := if IsShortcut(e) then !seen else active;
    if e.key == "Escape" then false else afterShortcut
  }

  /** The listener is registered once, at mount, when `searchActive` was false; so as written the
      shortcut opens a closed palette and leaves an open one open. */
  lemma ShortcutOnlyOpens(active: bool, e: KeyEvent)
    requires IsShortcut(e)
    ensures KeyDownNext(false, active, e)
    ensures active ==> KeyDownNext(false, active, e) == active
  {
  }

  /** The evidently intended listener, which reads the current `searchActive`. */
  function KeyDownIntended(active: bool, e: KeyEvent): (r: bool)
    ensures IsShortcut(e) ==> r == !active
    ensures e.key == "Escape" ==> !r
    ensures !IsShortcut(e) && e.key != "Escape" ==> r == active
  {
    KeyDownNext(active, active, e)
  }

  /** With the intended listener the shortcut is a toggle: pressing it twice restores the state. */
  lemma ShortcutToggles(active: bool, e: KeyEvent)
    requires IsShortcut(e)
    ensures KeyDownIntended(active, e) != active
    ensures KeyDownIntended(KeyDownIntended(active, e), e) == active
  {
  }

  /** A click on the overlay: the backdrop's own handler closes the palette, then the click
      bubbles to the overlay's `handleClickOutside`, which closes it unless the click landed
      inside the search wrapper. */
  function ClickNext(active: bool, target: ClickTarget): (r: bool)
    ensures r <==> active && target == InsideWrapper
  {
    var afterBackdrop := if target == Backdrop then false else active;
    if target != InsideWrapper then false else afterBackdrop
  }

  class App {
    var searchActive: bool
    var highlightSearchInput: bool
    /** The `searchActive` the keydown listener closed over when it was registered. */
    const listenerSeen: bool

    constructor ()
      ensures !searchActive && !highlightSearchInput && !listenerSeen
    {
      searchActive := false;
      highlightSearchInput := false;
      listenerSeen := false;
    }

    /** The window `keydown` listener. */
    method KeyDown(e: KeyEvent)
      modifies this`searchActive
      ensures searchActive == KeyDownNext(listenerSeen, old(searchActive), e)
    {
      if IsShortcut(e) {
        searchActive := !listenerSeen;
      }
      if e.key == "Escape" {
        searchActive := false;
      }
    }

    /** A click on the overlay. */
    method Click(target: ClickTarget)
      modifies this`searchActive
      ensures searchActive == ClickNext(old(searchActive), target)
    {
      if target == Backdrop {
        searchActive := false;
      }
      if target != InsideWrapper {
        searchActive := false;
      }
    }

    /** `setSearchActive`, the setter handed to the search bar and the navigation bar. */
    method SetSearchActive(value: bool)
      modifies this`searchActive
      ensures searchActive == value
    {
      searchActive := value;
    }

    /** The `[searchActive]` effect: the highlight flag follows the open state. */
    method HighlightEffect()
      modifies this`highlightSearchInput
      ensures highlightSearchInput == searchActive
    {
      if searchActive {
        highlightSearchInput := true;
      } else {
        highlightSearchInput := false;
      }
    }
  }
}
