/** The events of one frame, as the event queue delivers them. */
module Input {
  import opened Geometry
  import opened SnakeBody

  datatype Event =
    | Quit
    | KeyPress(key: Key)
    | MouseButtonDown(button: int, pos: Point)
    | MouseButtonUp(button: int, pos: Point)
    | OtherEvent

  /** The keys of the key-down events, in the order they arrived. */
  function KeysOf(events: seq<Event>): (keys: seq<Key>)
    ensures |keys| <= |events|
    ensures forall k :: k in keys ==> KeyPress(k) in events
    decreases |events|
  {
    if events == [] then []
    else
      var rest := KeysOf(events[1..]);
      assert forall e :: e in events[1..] ==> e in events;
      (if events[0].KeyPress? then [events[0].key] else []) + rest
  }

  /** A key-down event contributes exactly its key; any other event none. */
  lemma KeysOfOne(e: Event)
    ensures e.KeyPress? ==> KeysOf([e]) == [e.key]
    ensures !e.KeyPress? ==> KeysOf([e]) == []
  {
  }

  /** Taking keys distributes over concatenation of batches: every key-down
      event's key is kept, and in the order the events arrived. */
  lemma {:induction false} KeysOfAppend(a: seq<Event>, b: seq<Event>)
    ensures KeysOf(a + b) == KeysOf(a) + KeysOf(b)
    decreases |a|
  {
    if a == [] {
      assert a + b == b;
    } else {
      assert (a + b)[0] == a[0] && (a + b)[1..] == a[1..] + b;
      KeysOfAppend(a[1..], b);
    }
  }
}
