/** Store-and-forward of src/external_mqtt_client.py: what cannot be published at once waits in a
    bounded ring and is drained, in order, after a reconnection.  Whether a publish succeeds,
    and whether the connection drops between two of them, is up to the broker. */
module StoreForward {
  /** Messages are numbered in the order in which they are submitted. */
  datatype Message = Message(id: nat, topic: string, payload: string)

  datatype State = State(
    connected: bool, ring: seq<Message>,
    totalPublished: nat, totalBuffered: nat, totalDroppedBuffer: nat,
    submitted: seq<Message>, published: seq<Message>, dropped: seq<Message>, direct: nat)     // history

  const MAX_BUFFER_SIZE := 100

  const INIT := State(false, [], 0, 0, 0, [], [], [], 0)

  /** One turn of the draining loop: the connection is found lost, or a publish is tried. */
  datatype Turn = Lost | Try(accepted: bool)

  datatype Step =
    | Submit(topic: string, payload: string, accepted: bool)
    | Connect
    | Disconnect
    | Drain(turns: seq<Turn>)

  function Published(s: State, m: Message): State {
    s.(totalPublished := s.totalPublished + 1, published := s.published + [m])
  }

  function Buffered(s: State, m: Message): State {
    var s1 := s.(ring := s.ring + [m], totalBuffered := s.totalBuffered + 1);
    if |s.ring| < MAX_BUFFER_SIZE then s1
    else s1.(ring := s.ring[1..] + [m], totalDroppedBuffer := s.totalDroppedBuffer + 1, dropped := s.dropped + [s.ring[0]])
  }

  /** `_send_or_buffer` */
  function Send(s: State, m: Message, accepted: bool): State {
    var s1 := s.(submitted := s.submitted + [m]);
    if s.connected && s.ring == [] && accepted then Published(s1, m).(direct := s1.direct + 1) else Buffered(s1, m)
  }

  /** The loop of `_drain_ring_buffer`. */
  function Drained(s: State, turns: seq<Turn>): State
    decreases |turns|
  {
    if s.ring == [] || turns == [] then s
    else if turns[0].Lost? then s.(connected := false)
    else if !turns[0].accepted then s
    else Drained(Published(s.(ring := s.ring[1..]), s.ring[0]), turns[1..])
  }

  function Next(s: State, step: Step): State {
    match step
    case Submit(topic, payload, accepted) => Send(s, Message(|s.submitted|, topic, payload), accepted)
    case Connect => s.(connected := true)
    case Disconnect => s.(connected := false)
    case Drain(turns) => if s.connected then Drained(s, turns) else s
  }

  function Run(steps: seq<Step>): State {
    if steps == [] then INIT else Next(Run(steps[..|steps| - 1]), steps[|steps| - 1])
  }

  // ---------------------------------------------------------------- order and conservation

  /** A part of what was submitted: in the same order, none twice, and none altered. */
  ghost predicate InOrder(ms: seq<Message>, submitted: seq<Message>) {
    && (forall i, j | 0 <= i < j < |ms| :: ms[i].id < ms[j].id)
    && (forall i | 0 <= i < |ms| :: ms[i].id < |submitted| && submitted[ms[i].id] == ms[i])
  }

  ghost predicate Has(ms: seq<Message>, id: nat) {
    exists i :: 0 <= i < |ms| && ms[i].id == id
  }

  /** Each submitted message is in exactly one place. */
  ghost predicate Accounted(s: State) {
    && |s.submitted| == s.totalPublished + |s.ring| + s.totalDroppedBuffer
    && s.totalPublished == |s.published| && s.totalDroppedBuffer == |s.dropped|
    && s.totalBuffered == |s.submitted| - s.direct && s.direct <= s.totalPublished
    && (forall id: nat :: id < |s.submitted| ==> Has(s.published, id) || Has(s.ring, id) || Has(s.dropped, id))
    && Apart(s.published, s.dropped)
  }

  ghost predicate Apart(a: seq<Message>, b: seq<Message>) {
    forall id :: !(Has(a, id) && Has(b, id))
  }

  ghost predicate Inv(s: State) {
    && |s.ring| <= MAX_BUFFER_SIZE
    && InOrder(s.published + s.ring, s.submitted)
    && InOrder(s.dropped + s.ring, s.submitted)
    && Accounted(s)
  }

  lemma HasAppend(ms: seq<Message>, m: Message)
    ensures forall id :: Has(ms + [m], id) <==> Has(ms, id) || id == m.id
  {
    forall id
      ensures Has(ms + [m], id) <==> Has(ms, id) || id == m.id
    {
      assert (ms + [m])[|ms|] == m;
      if i :| 0 <= i < |ms| && ms[i].id == id {
        assert (ms + [m])[i].id == id;
      }
    }
  }

  lemma HasFirst(ms: seq<Message>)
    requires ms != []
    ensures forall id :: Has(ms, id) <==> id == ms[0].id || Has(ms[1..], id)
  {
  }

  /** The two parts of an ordered list have no message in common. */
  lemma InOrderApart(a: seq<Message>, b: seq<Message>, log: seq<Message>)
    requires InOrder(a + b, log)
    ensures Apart(a, b)
    ensures forall id: nat :: Has(a, id) ==> id < |log|
  {
    forall i, j | 0 <= i < |a| && 0 <= j < |b|
      ensures a[i].id < b[j].id
    {
      assert (a + b)[i] == a[i] && (a + b)[|a| + j] == b[j];
    }
    forall i | 0 <= i < |a|
      ensures a[i].id < |log|
    {
      assert (a + b)[i] == a[i];
    }
  }

  /** Appending the message just submitted. */
  lemma InOrderAppend(a: seq<Message>, b: seq<Message>, m: Message, log: seq<Message>)
    requires InOrder(a + b, log) && m.id == |log|
    ensures InOrder(a + (b + [m]), log + [m])
  {
    assert a + (b + [m]) == (a + b) + [m];
  }

  /** Dropping the first of the waiting. */
  lemma InOrderRemove(a: seq<Message>, b: seq<Message>, log: seq<Message>)
    requires InOrder(a + b, log) && b != []
    ensures InOrder(a + b[1..], log)
  {
    var r := a + b[1..];
    assert forall i | 0 <= i < |r| :: r[i] == (a + b)[if i < |a| then i else i + 1];
  }

  /** Moving the first of the waiting to the end of what is before them. */
  lemma InOrderMove(a: seq<Message>, b: seq<Message>, log: seq<Message>)
    requires InOrder(a + b, log) && b != []
    ensures InOrder((a + [b[0]]) + b[1..], log)
  {
    assert (a + [b[0]]) + b[1..] == a + b;
  }

  lemma PublishKeeps(s: State, m: Message)
    requires Inv(s) && m.id == |s.submitted| && s.ring == []
    ensures Inv(Published(s.(submitted := s.submitted + [m]), m).(direct := s.direct + 1))
  {
    assert s.published + s.ring == s.published && s.dropped + s.ring == s.dropped;
    InOrderAppend(s.published, [], m, s.submitted);
    assert (s.published + [m]) + s.ring == s.published + ([] + [m]);
    HasAppend(s.published, m);
    InOrderApart(s.dropped, s.ring, s.submitted);
  }

  lemma BufferKeeps(s: State, m: Message)
    requires Inv(s) && m.id == |s.submitted|
    ensures Inv(Buffered(s.(submitted := s.submitted + [m]), m))
  {
    if |s.ring| < MAX_BUFFER_SIZE {
      InOrderAppend(s.published, s.ring, m, s.submitted);
      InOrderAppend(s.dropped, s.ring, m, s.submitted);
      HasAppend(s.ring, m);
    } else {
      InOrderRemove(s.published, s.ring, s.submitted);
      InOrderAppend(s.published, s.ring[1..], m, s.submitted);
      InOrderMove(s.dropped, s.ring, s.submitted);
      InOrderAppend(s.dropped + [s.ring[0]], s.ring[1..], m, s.submitted);
      HasFirst(s.ring);
      HasAppend(s.ring[1..], m);
      HasAppend(s.dropped, s.ring[0]);
      InOrderApart(s.published, s.ring, s.submitted);
    }
  }

  lemma TurnKeeps(s: State)
    requires Inv(s) && s.ring != []
    ensures Inv(Published(s.(ring := s.ring[1..]), s.ring[0]))
  {
    InOrderMove(s.published, s.ring, s.submitted);
    InOrderRemove(s.dropped, s.ring, s.submitted);
    HasFirst(s.ring);
    HasAppend(s.published, s.ring[0]);
    InOrderApart(s.dropped, s.ring, s.submitted);
  }

  lemma {:induction false} DrainKeeps(s: State, turns: seq<Turn>)
    requires Inv(s)
    ensures Inv(Drained(s, turns))
    decreases |turns|
  {
    if s.ring != [] && turns != [] && turns[0].Try? && turns[0].accepted {
      TurnKeeps(s);
      DrainKeeps(Published(s.(ring := s.ring[1..]), s.ring[0]), turns[1..]);
    }
  }

  lemma StepKeeps(s: State, step: Step)
    requires Inv(s)
    ensures Inv(Next(s, step))
  {
    match step
    case Submit(topic, payload, accepted) =>
      if s.connected && s.ring == [] && accepted {
        PublishKeeps(s, Message(|s.submitted|, topic, payload));
      } else {
        BufferKeeps(s, Message(|s.submitted|, topic, payload));
      }
    case Connect =>
    case Disconnect =>
    case Drain(turns) => DrainKeeps(s, turns);
  }

  /** Over every run of submissions, connections, disconnections and drains: what was published,
      followed by what waits, is part of what was submitted, in order and without repetition, and each
      message is published, waiting or dropped, and only one of these. */
  lemma {:induction false} RunsKeepOrder(steps: seq<Step>)
    ensures var s := Run(steps);
            && InOrder(s.published + s.ring, s.submitted)
            && |s.submitted| == s.totalPublished + |s.ring| + s.totalDroppedBuffer
            && s.totalBuffered == |s.ring| + s.totalDroppedBuffer + (s.totalPublished - s.direct)
            && (forall id: nat :: id < |s.submitted| ==> Has(s.published, id) || Has(s.ring, id) || Has(s.dropped, id))
            && Apart(s.published, s.ring) && Apart(s.dropped, s.ring) && Apart(s.published, s.dropped)
    ensures Inv(Run(steps))
  {
    if steps != [] {
      RunsKeepOrder(steps[..|steps| - 1]);
      StepKeeps(Run(steps[..|steps| - 1]), steps[|steps| - 1]);
    }
    InOrderApart(Run(steps).published, Run(steps).ring, Run(steps).submitted);
    InOrderApart(Run(steps).dropped, Run(steps).ring, Run(steps).submitted);
  }

  /** Only the oldest waiting message is ever dropped, and only for want of room. */
  lemma OnlyTheOldestIsDropped(s: State, step: Step)
    requires Inv(s)
    ensures var t := Next(s, step);
            t.dropped == s.dropped || (|s.ring| == MAX_BUFFER_SIZE && t.dropped == s.dropped + [s.ring[0]])
    ensures var t := Next(s, step); s.published <= t.published
  {
    if step.Drain? {
      DrainOnlyPublishes(s, step.turns);
    }
  }

  lemma {:induction false} DrainOnlyPublishes(s: State, turns: seq<Turn>)
    ensures var t := Drained(s, turns);
            t.dropped == s.dropped && s.published <= t.published && t.published + t.ring == s.published + s.ring
    decreases |turns|
  {
    if s.ring != [] && turns != [] && turns[0].Try? && turns[0].accepted {
      var s1 := Published(s.(ring := s.ring[1..]), s.ring[0]);
      DrainOnlyPublishes(s1, turns[1..]);
      assert s1.published + s1.ring == s.published + s.ring;
    }
  }

  /** The number of accepted publishes before the first that is refused or not tried. */
  function Accepted(turns: seq<Turn>): (n: nat)
    ensures n <= |turns| && (forall i | 0 <= i < n :: turns[i] == Try(true)) && (n < |turns| ==> turns[n] != Try(true))
  {
    if turns == [] || turns[0] != Try(true) then 0
    else
      var n := Accepted(turns[1..]);
      assert forall i | 1 <= i < n + 1 :: turns[i] == turns[1..][i - 1];
      n + 1
  }

  /** A drain goes on: it publishes the longest run of waiting messages that the broker accepts. */
  ghost predicate Drains(s: State, turns: seq<Turn>, t: State) {
    var k := if Accepted(turns) < |s.ring| then Accepted(turns) else |s.ring|;
    && t.published == s.published + s.ring[..k] && t.ring == s.ring[k..]
    && t.totalPublished == s.totalPublished + k
    && (t.connected <==> k == |s.ring| || k == |turns| || turns[k] != Lost)
    && (Accepted(turns) >= |s.ring| ==> t.ring == [] && t.connected)
  }

  lemma MovingOne(published: seq<Message>, ring: seq<Message>, k: nat)
    requires k < |ring|
    ensures (published + [ring[0]]) + ring[1..][..k] == published + ring[..k + 1] && ring[1..][k..] == ring[k + 1..]
  {
    assert [ring[0]] + ring[1..][..k] == ring[..k + 1];
  }

  lemma {:induction false} DrainGoesOn(s: State, turns: seq<Turn>)
    requires s.connected
    ensures Drains(s, turns, Drained(s, turns))
    decreases |turns|
  {
    if s.ring != [] && turns != [] && turns[0] == Try(true) {
      var s1 := Published(s.(ring := s.ring[1..]), s.ring[0]);
      DrainGoesOn(s1, turns[1..]);
      MovingOne(s.published, s.ring, if Accepted(turns[1..]) < |s1.ring| then Accepted(turns[1..]) else |s1.ring|);
    }
  }

  // ---------------------------------------------------------------- the program

  class ExternalClient {
    var isConnected: bool
    var ring: seq<Message>
    var totalPublished: nat
    var totalBuffered: nat
    var totalDroppedBuffer: nat
    ghost var submitted: seq<Message>
    ghost var published: seq<Message>
    ghost var dropped: seq<Message>
    ghost var direct: nat           // published without waiting

    ghost function View(): State
      reads this
    {
      State(isConnected, ring, totalPublished, totalBuffered, totalDroppedBuffer, submitted, published, dropped, direct)
    }

    constructor ()
      ensures View() == INIT
    {
      isConnected, ring := false, [];
      totalPublished, totalBuffered, totalDroppedBuffer := 0, 0, 0;
      submitted, published, dropped, direct := [], [], [], 0;
    }

    /** `accepted` is what the broker makes of a publish, if one is tried. */
    method SendOrBuffer(m: Message, accepted: bool) returns (sent: bool)
      modifies this
      ensures View() == Send(old(View()), m, accepted)
      ensures sent <==> old(isConnected) && old(ring) == [] && accepted
      ensures submitted == old(submitted) + [m] && isConnected == old(isConnected)
      ensures sent ==> published == old(published) + [m] && ring == old(ring) && dropped == old(dropped)
      ensures !sent ==> published == old(published)
      ensures !sent && |old(ring)| < MAX_BUFFER_SIZE ==> ring == old(ring) + [m] && dropped == old(dropped)
      ensures !sent && |old(ring)| >= MAX_BUFFER_SIZE ==> ring == old(ring)[1..] + [m] && dropped == old(dropped) + [old(ring)[0]]
    {
      submitted := submitted + [m];
      if isConnected && ring == [] {
        if accepted {
          totalPublished := totalPublished + 1;
          published, direct := published + [m], direct + 1;
          return true;
        }
      }
      if |ring| >= MAX_BUFFER_SIZE {
        totalDroppedBuffer := totalDroppedBuffer + 1;
        dropped := dropped + [ring[0]];
        ring := ring[1..];
      }
      ring := ring + [m];
      totalBuffered := totalBuffered + 1;
      return false;
    }

    /** `turns` is what the loop meets: each time round the connection may be found lost. */
    method DrainRingBuffer(turns: seq<Turn>)
      modifies this
      ensures View() == Next(old(View()), Drain(turns))
      ensures !old(isConnected) ==> View() == old(View())
      ensures old(isConnected) ==> Drains(old(View()), turns, View())
    {
      if isConnected {
        DrainGoesOn(View(), turns);
      }
      if !isConnected {
        return;
      }
      var i := 0;
      while ring != [] && i < |turns|
        invariant 0 <= i <= |turns|
        invariant Drained(View(), turns[i..]) == Drained(old(View()), turns)
        decreases |turns| - i
      {
        if turns[i].Lost? {
          isConnected := false;
          return;
        }
        var m := ring[0];
        ring := ring[1..];
        if !turns[i].accepted {
          ring := [m] + ring;
          return;
        }
        totalPublished := totalPublished + 1;
        published := published + [m];
        assert turns[i..][1..] == turns[i + 1..];
        i := i + 1;
      }
    }
  }
}
