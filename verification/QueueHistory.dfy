/** Sequences of queue operations and what a queue that executes them one after the other does. */
module QueueHistory {
  import opened Wrappers

  /** A value has been put in, or a pop has returned; `None` stands for a pop that returns null. */
  datatype Event<T> = Put(e: T) | Got(ret: Option<T>)

  /** What is in the queue after these operations, if a queue allows them in this order. */
  function Replay<T(==)>(h: seq<Event<T>>): Option<seq<T>> {
    if h == [] then Some([])
    else
      var before := Replay(h[..|h| - 1]);
      if before.None? then None
      else
        match h[|h| - 1]
        case Put(e) => Some(before.value + [e])
        case Got(None) => if before.value == [] then before else None
        case Got(Some(e)) =>
          if before.value != [] && before.value[0] == e then Some(before.value[1..]) else None
  }

  /** The values put in, in order. */
  function Puts<T>(h: seq<Event<T>>): seq<T> {
    if h == [] then []
    else
      var last := h[|h| - 1];
      Puts(h[..|h| - 1]) + if last.Put? then [last.e] else []
  }

  /** The values that came out, in order. */
  function Gets<T>(h: seq<Event<T>>): seq<T> {
    if h == [] then []
    else
      var last := h[|h| - 1];
      Gets(h[..|h| - 1]) + if last.Got? && last.ret.Some? then [last.ret.value] else []
  }

  /** First in, first out: what came out and what is still there are what was put in, in order. */
  lemma {:induction false} FirstInFirstOut<T>(h: seq<Event<T>>)
    requires Replay(h).Some?
    ensures Puts(h) == Gets(h) + Replay(h).value
  {
    if h == [] {
    } else {
      FirstInFirstOut(h[..|h| - 1]);
    }
  }

  lemma OneMore<T>(h: seq<Event<T>>, event: Event<T>)
    ensures Puts(h + [event]) == Puts(h) + if event.Put? then [event.e] else []
    ensures Gets(h + [event]) == Gets(h) + if event.Got? && event.ret.Some? then [event.ret.value] else []
    ensures Replay(h).Some? ==>
              var q := Replay(h).value;
              Replay(h + [event]) ==
              match event
              case Put(e) => Some(q + [e])
              case Got(None) => if q == [] then Some(q) else None
              case Got(Some(e)) => if q != [] && q[0] == e then Some(q[1..]) else None
  {
    assert (h + [event])[..|h|] == h;
  }
}
