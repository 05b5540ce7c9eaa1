/** sync.RWMutex, as threads see it one step at a time. */
module Locks {
  import opened Options

  /** The lock: the thread that has it for writing, and those that have it for reading. */
  datatype Mutex<T(==)> = Mutex(writer: Option<T>, readers: set<T>)

  datatype LockOp = Keep | Lock | Unlock | RLock | RUnlock

  /** What a thread holds. */
  datatype Hold = Nothing | Write | Read

  /** The lock behind an operation of thread t; None when t has to wait. */
  function Through<T(==)>(mu: Mutex<T>, op: LockOp, t: T): Option<Mutex<T>> {
    match op
    case Keep => Some(mu)
    case Lock => if mu.writer.None? && mu.readers == {} then Some(mu.(writer := Some(t))) else None
    case Unlock => Some(mu.(writer := None))
    case RLock => if mu.writer.None? then Some(mu.(readers := mu.readers + {t})) else None
    case RUnlock => Some(mu.(readers := mu.readers - {t}))
  }

  /** The thread uses the lock as it should: what it holds fits the operation. */
  predicate Fits(before: Hold, op: LockOp, after: Hold) {
    match op
    case Keep => after == before
    case Lock => before == Nothing && after == Write
    case Unlock => before == Write && after == Nothing
    case RLock => before == Nothing && after == Read
    case RUnlock => before == Read && after == Nothing
  }

  /** The lock knows exactly who holds it, and a writer is alone. */
  ghost predicate Consistent<T(!new)>(mu: Mutex<T>, holds: T -> Hold) {
    && (forall t :: holds(t) == Write <==> mu.writer == Some(t))
    && (forall t :: holds(t) == Read <==> t in mu.readers)
    && (mu.writer.Some? ==> mu.readers == {})
  }

  lemma ThroughKeepsConsistent<T(!new)>(mu: Mutex<T>, holds: T -> Hold, op: LockOp, t: T, holds': T -> Hold)
    requires Consistent(mu, holds) && Fits(holds(t), op, holds'(t)) && Through(mu, op, t).Some?
    requires forall x :: x != t ==> holds'(x) == holds(x)
    ensures Consistent(Through(mu, op, t).value, holds')
  {}
}
