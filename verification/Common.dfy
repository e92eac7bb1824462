/** What the models share: optional values, bytes, and facts about sizes and bounded deques. */
module Common {
  datatype Option<+T> = None | Some(value: T)

  type Byte = x: int | 0 <= x < 256
  type Bytes = seq<Byte>

  lemma {:induction false} SubsetSize<T>(a: set<T>, b: set<T>)
    requires a <= b
    ensures |a| <= |b|
  {
    if x :| x in a {
      SubsetSize(a - {x}, b - {x});
    }
  }

  /** What a deque with `maxlen` max keeps of a sequence: its last `max` items. */
  function Bounded<T>(s: seq<T>, max: nat): seq<T> {
    if |s| <= max then s else Bounded(s[1..], max)
  }

  lemma {:induction false} BoundedSuffix<T>(s: seq<T>, max: nat)
    ensures Bounded(s, max) == if |s| <= max then s else s[|s| - max..]
    decreases |s|
  {
    if |s| > max {
      BoundedSuffix(s[1..], max);
    }
  }

  lemma BoundedLast<T>(s: seq<T>, max: nat)
    requires s != [] && max > 0
    ensures 0 < |Bounded(s, max)| <= max && |Bounded(s, max)| <= |s|
    ensures Bounded(s, max)[|Bounded(s, max)| - 1] == s[|s| - 1]
  {
  }

  /** Appending to a bounded deque keeps the end of everything appended so far. */
  lemma BoundedPush<T>(s: seq<T>, x: T, max: nat)
    ensures Bounded(Bounded(s, max) + [x], max) == Bounded(s + [x], max)
  {
    BoundedSuffix(s, max);
    BoundedSuffix(Bounded(s, max) + [x], max);
    BoundedSuffix(s + [x], max);
  }
}
