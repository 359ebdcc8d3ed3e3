/**
 * The exit prompt: shown at most once per browser, when the mouse cursor leaves
 * the page through its top edge, and unmounted by the page once closed
 * (src/components/ExitIntent.tsx, src/App.tsx).
 */
module ExitIntent {
  /** The `localStorage` key that records that the prompt was shown. */
  const SeenKey := "exitIntentSeen"

  /** `localStorage.getItem(key)` is truthy: present and not empty. */
  predicate Truthy(storage: map<string, string>, key: string) {
    key in storage && storage[key] != ""
  }

  /** The prompt, with the page's `localStorage` and the parent's `onClose` it talks to. */
  class Prompt {
    var isVisible: bool
    /** The `mouseleave` listener is attached. */
    var listening: bool
    /** The parent still renders the prompt (`showExitIntent`). */
    var mounted: bool
    var storage: map<string, string>
    /** How often the parent's `onClose` was called. */
    var closeCalls: nat

    /**
     * The prompt shows only while mounted and listening, and once it has
     * shown the browser remembers it.
     */
    ghost predicate Valid()
      reads this
    {
      (isVisible ==> mounted && Truthy(storage, SeenKey))
      && (listening ==> mounted)
    }

    /** Mount: the listener is attached only when the seen flag is not set. */
    constructor (stored: map<string, string>)
      ensures Valid()
      ensures mounted && !isVisible && storage == stored && closeCalls == 0
      ensures listening <==> !Truthy(stored, SeenKey)
    {
      isVisible := false;
      mounted := true;
      storage := stored;
      closeCalls := 0;
      listening := !Truthy(stored, SeenKey);
    }

    /** `handleMouseLeave`: leaving through the top edge shows the prompt and sets the flag. */
    method MouseLeave(clientY: int)
      requires Valid()
      modifies this
      ensures Valid()
      ensures listening == old(listening) && mounted == old(mounted) && closeCalls == old(closeCalls)
      ensures old(listening) && clientY <= 0 ==> isVisible && storage == old(storage)[SeenKey := "true"]
      ensures !(old(listening) && clientY <= 0) ==> isVisible == old(isVisible) && storage == old(storage)
    {
      if listening && clientY <= 0 {
        isVisible := true;
        storage := storage[SeenKey := "true"];
      }
    }

    /** `handleClose`: hide, call `onClose` once; the parent then unmounts the prompt, detaching the listener. */
    method HandleClose()
      requires Valid() && mounted
      modifies this
      ensures Valid()
      ensures !isVisible && !mounted && !listening
      ensures closeCalls == old(closeCalls) + 1 && storage == old(storage)
    {
      isVisible := false;
      closeCalls := closeCalls + 1;
      mounted := false;
      listening := false;
    }

    /** `handleJoinWaitlist`: scroll to the signup form (not modelled), then close. */
    method HandleJoinWaitlist()
      requires Valid() && mounted
      modifies this
      ensures Valid()
      ensures !isVisible && !mounted && !listening
      ensures closeCalls == old(closeCalls) + 1 && storage == old(storage)
    {
      HandleClose();
    }
  }

  /**
   * Once shown, a later visit from the same browser mounts the prompt
   * without a listener: a top-edge leave on a listening prompt stores the
   * flag, and a new mount over that storage never listens, so it cannot show.
   */
  method ShownOnce(p: Prompt, clientY: int) returns (q: Prompt)
    requires p.Valid() && p.listening && clientY <= 0
    modifies p
    ensures p.isVisible && Truthy(p.storage, SeenKey)
    ensures q.Valid() && q.mounted && !q.listening && !q.isVisible && q.storage == p.storage
  {
    p.MouseLeave(clientY);
    q := new Prompt(p.storage);
  }
}
