/** The records the kernel allocates: threads, events and cleanup entries. */
module Objects {

  /** The life of a thread, in the order of the source's enumeration. */
  datatype ThreadState = Created | Running | Stopped | StoppedToFinish | Finished | Cleanup {

    /** The numeric value of the enumerator; the source compares states with `<`. */
    function Rank(): (r: nat)
      ensures r <= 5
    {
      match this
      case Created => 0
      case Running => 1
      case Stopped => 2
      case StoppedToFinish => 3
      case Finished => 4
      case Cleanup => 5
    }

    /** `if (state < s) state = s`, the form of every state change except the first run. */
    function Raise(s: ThreadState): ThreadState {
      if Rank() < s.Rank() then s else this
    }
  }

  /** One entry of a thread's event combination: the event waited for and the slot it occupies there. */
  datatype Handle = Handle(event: Event, idx: nat)

  /** An event owns the queue of threads waiting for it. A slot is overwritten with null when its
      thread stops waiting; the queue only shrinks by being cleared. */
  class Event {
    var slots: seq<Thread?>
    var cleanupSelf: CleanupEntry?

    constructor ()
      ensures slots == [] && cleanupSelf == null
    {
      slots := [];
      cleanupSelf := null;
    }
  }

  class Thread {
    var handles: seq<Handle>   // event_combination->events
    var any: bool              // event_combination->any
    var timer: bool            // call_handle != NULL
    var timeout: bool
    var state: ThreadState
    var resumeOnFinish: bool
    var cleanupQueue: seq<nat> // the thread's own cleanup callbacks, newest first
    ghost var called: nat      // how many of these have been called
    var cleanupSelf: CleanupEntry

    constructor (entry: CleanupEntry)
      ensures handles == [] && any && !timer && !timeout
      ensures state == Created && !resumeOnFinish && cleanupQueue == [] && called == 0
      ensures cleanupSelf == entry
    {
      handles, any, timer, timeout := [], true, false, false;
      state, resumeOnFinish := Created, false;
      cleanupQueue, called, cleanupSelf := [], 0, entry;
    }
  }

  /** What the callback of a cleanup entry tears down. */
  datatype Target = OfThread(thread: Thread) | OfEvent(event: Event) | OfUser

  class CleanupEntry {
    var target: Target
    var cancel: bool

    constructor ()
      ensures target == OfUser && !cancel
    {
      target := OfUser;
      cancel := false;
    }
  }
}
