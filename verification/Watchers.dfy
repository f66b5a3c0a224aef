/** The watcher structure that every libev watcher begins with, and the fields timers add. */
module Watchers {

  /** One bit of an event mask. */
  datatype Event = Read | Write | Timer | Error | Iofdset | Other(id: nat)

  type Events = set<Event>

  class Watcher {
    var active: nat   // 0 while stopped; a timer's position in the heap while started
    var pending: nat  // 0, or one more than its slot in the pending queue of its priority
    const priority: int
    var at: int       // when a timer expires: relative while stopped, absolute while started
    var repeat: int

    constructor (priority: int, at: int, repeat: int)
      ensures active == 0 && pending == 0
      ensures this.priority == priority && this.at == at && this.repeat == repeat
    {
      active, pending := 0, 0;
      this.priority, this.at, this.repeat := priority, at, repeat;
    }
  }
}
