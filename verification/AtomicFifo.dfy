/** The specification object: a bounded FIFO whose operations take effect in one step, somewhere
    between their call and their return. */
module AtomicFifo {
  import opened Wrappers

  datatype PushState<+T> = PushIdle | PushCalled(item: T) | PushDone(ok: bool)

  datatype PopState<+T> = PopIdle | PopCalled | PopDone(result: Option<T>)

  datatype Fifo<T> = Fifo(cap: nat, items: seq<T>, p: PushState<T>, c: PopState<T>)

  datatype Event<+T> =
    | CallPush(item: T) | PushEffect | ReturnPush(ok: bool)
    | CallPop | PopEffect | ReturnPop(result: Option<T>)
    | Internal

  ghost predicate Step<T>(s: Fifo<T>, e: Event<T>, t: Fifo<T>) {
    match e
    case CallPush(item) => s.p.PushIdle? && t == s.(p := PushCalled(item))
    case PushEffect =>
      && s.p.PushCalled?
      && t == (if |s.items| < s.cap then s.(items := s.items + [s.p.item], p := PushDone(true))
               else s.(p := PushDone(false)))
    case ReturnPush(ok) => s.p == PushDone(ok) && t == s.(p := PushIdle)
    case CallPop => s.c.PopIdle? && t == s.(c := PopCalled)
    case PopEffect =>
      && s.c.PopCalled?
      && t == (if s.items == [] then s.(c := PopDone(None))
               else s.(items := s.items[1..], c := PopDone(Some(s.items[0]))))
    case ReturnPop(result) => s.c == PopDone(result) && t == s.(c := PopIdle)
    case Internal => t == s
  }

  /** The same object, except that an operation may also fail for no reason. */
  ghost predicate LossyStep<T>(s: Fifo<T>, e: Event<T>, t: Fifo<T>) {
    || Step(s, e, t)
    || (e.PushEffect? && s.p.PushCalled? && t == s.(p := PushDone(false)))
    || (e.PopEffect? && s.c.PopCalled? && t == s.(c := PopDone(None)))
  }
}
