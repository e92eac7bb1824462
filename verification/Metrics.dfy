/** The minute buckets of src/metrics_aggregator.py, proved against a plain log of events.
    Times are whole seconds, and every call takes the wall clock as `now`.  Minutes are
    numbered: a bucket's `minute` is the program's `timestamp`, a multiple of 60, divided by 60. */
module Metrics {
  import opened Common

  datatype Kind = Chat | Advert | Telemetry | Traceroute | Ping | Admin | OtherKind
  datatype Fault = Crc | Timeout | Overflow | Cutoff | OtherFault

  datatype Packet = Packet(isRx: bool, isFlood: bool, kind: Kind, size: int)

  /** What one call reports, filed under the minute it was counted in. */
  datatype Event = Event(minute: int, packet: Option<Packet>, fault: Option<Fault>)

  datatype Column =
    | Rx | Tx | RxBytes | TxBytes | FloodRx | FloodTx | DirectRx | DirectTx
    | OfKind(kind: Kind) | Errors | OfFault(fault: Fault)

  datatype Window = Always | Span(lo: int, hi: int) {
    predicate Has(minute: int) {
      Always? || lo <= minute < hi
    }
  }

  function MinuteAt(m: int): Window {
    Span(m, m + 1)
  }

  // ---------------------------------------------------------------- the log

  function One(b: bool): nat {
    if b then 1 else 0
  }

  /** What an event adds to a column. */
  function Amount(e: Event, col: Column): int {
    match col
    case Errors => One(e.fault.Some?)
    case OfFault(f) => One(e.fault == Some(f))
    case _ => if e.packet == None then 0 else PacketAmount(e.packet.value, col)
  }

  function PacketAmount(p: Packet, col: Column): int {
    match col
    case Rx => One(p.isRx)
    case Tx => One(!p.isRx)
    case RxBytes => if p.isRx then p.size else 0
    case TxBytes => if p.isRx then 0 else p.size
    case FloodRx => One(p.isFlood && p.isRx)
    case FloodTx => One(p.isFlood && !p.isRx)
    case DirectRx => One(!p.isFlood && p.isRx)
    case DirectTx => One(!p.isFlood && !p.isRx)
    case OfKind(k) => One(p.kind == k)
    case _ => 0
  }

  /** The sum of a column over the logged events of a window. */
  function LogSum(log: seq<Event>, w: Window, col: Column): int {
    if log == [] then 0
    else
      var e := log[|log| - 1];
      LogSum(log[..|log| - 1], w, col) + if w.Has(e.minute) then Amount(e, col) else 0
  }

  lemma {:induction false} LogSumSplits(log: seq<Event>, lo: int, mid: int, hi: int, col: Column)
    requires lo <= mid <= hi
    ensures LogSum(log, Span(lo, hi), col) == LogSum(log, Span(lo, mid), col) + LogSum(log, Span(mid, hi), col)
  {
    if log != [] {
      LogSumSplits(log[..|log| - 1], lo, mid, hi, col);
    }
  }

  lemma {:induction false} NothingLogged(log: seq<Event>, w: Window, col: Column)
    requires forall e | e in log :: !w.Has(e.minute)
    ensures LogSum(log, w, col) == 0
  {
    if log != [] {
      assert log[|log| - 1] in log;
      NothingLogged(log[..|log| - 1], w, col);
    }
  }

  /** Every packet is received or sent, by flood or directly. */
  lemma {:induction false} RoutesBalance(log: seq<Event>, w: Window)
    ensures LogSum(log, w, Rx) == LogSum(log, w, FloodRx) + LogSum(log, w, DirectRx)
    ensures LogSum(log, w, Tx) == LogSum(log, w, FloodTx) + LogSum(log, w, DirectTx)
  {
    if log != [] {
      RoutesBalance(log[..|log| - 1], w);
    }
  }

  function LogKinds(log: seq<Event>, w: Window): int {
    LogSum(log, w, OfKind(Chat)) + LogSum(log, w, OfKind(Advert)) + LogSum(log, w, OfKind(Telemetry))
    + LogSum(log, w, OfKind(Traceroute)) + LogSum(log, w, OfKind(Ping)) + LogSum(log, w, OfKind(Admin))
    + LogSum(log, w, OfKind(OtherKind))
  }

  lemma OneKind(e: Event)
    ensures Amount(e, OfKind(Chat)) + Amount(e, OfKind(Advert)) + Amount(e, OfKind(Telemetry))
            + Amount(e, OfKind(Traceroute)) + Amount(e, OfKind(Ping)) + Amount(e, OfKind(Admin))
            + Amount(e, OfKind(OtherKind))
         == Amount(e, Rx) + Amount(e, Tx)
  {
  }

  /** Every packet has exactly one type. */
  lemma {:induction false} KindsBalance(log: seq<Event>, w: Window)
    ensures LogKinds(log, w) == LogSum(log, w, Rx) + LogSum(log, w, Tx)
  {
    if log != [] {
      KindsBalance(log[..|log| - 1], w);
      OneKind(log[|log| - 1]);
    }
  }

  // ---------------------------------------------------------------- counters

  /** The packet counters of a bucket, and of the session. */
  datatype Traffic = Traffic(
    rxPackets: nat, txPackets: nat, rxBytes: int, txBytes: int,
    floodRx: nat, floodTx: nat, directRx: nat, directTx: nat, types: map<Kind, nat>)
  {
    function Get(col: Column): int {
      match col
      case Rx => rxPackets
      case Tx => txPackets
      case RxBytes => rxBytes
      case TxBytes => txBytes
      case FloodRx => floodRx
      case FloodTx => floodTx
      case DirectRx => directRx
      case DirectTx => directTx
      case OfKind(k) => if k in types then types[k] else 0
      case _ => 0
    }

    function Add(p: Packet): Traffic {
      Traffic(rxPackets + One(p.isRx), txPackets + One(!p.isRx),
              rxBytes + (if p.isRx then p.size else 0), txBytes + (if p.isRx then 0 else p.size),
              floodRx + One(p.isRx && p.isFlood), floodTx + One(!p.isRx && p.isFlood),
              directRx + One(p.isRx && !p.isFlood), directTx + One(!p.isRx && !p.isFlood),
              types[p.kind := (if p.kind in types then types[p.kind] else 0) + 1])
    }
  }

  /** The fault counters of a bucket, which has none for the category "other". */
  datatype Faults = Faults(errors: nat, crc: nat, timeouts: nat, queueOverflow: nat, airtimeCutoff: nat) {
    function Get(col: Column): int {
      match col
      case Errors => errors
      case OfFault(Crc) => crc
      case OfFault(Timeout) => timeouts
      case OfFault(Overflow) => queueOverflow
      case OfFault(Cutoff) => airtimeCutoff
      case OfFault(OtherFault) => errors - crc - timeouts - queueOverflow - airtimeCutoff
      case _ => 0
    }

    function Add(f: Fault): Faults {
      Faults(errors + 1, crc + One(f.Crc?), timeouts + One(f.Timeout?),
             queueOverflow + One(f.Overflow?), airtimeCutoff + One(f.Cutoff?))
    }
  }

  const NO_TRAFFIC := Traffic(0, 0, 0, 0, 0, 0, 0, 0,
    map[Chat := 0, Advert := 0, Telemetry := 0, Traceroute := 0, Ping := 0, Admin := 0, OtherKind := 0])

  const NO_FAULTS := Faults(0, 0, 0, 0, 0)

  const NO_ERRORS: map<Fault, nat> := map[Crc := 0, Timeout := 0, Overflow := 0, Cutoff := 0, OtherFault := 0]

  function TrafficOf(log: seq<Event>, w: Window): Traffic {
    if log == [] then NO_TRAFFIC
    else
      var t, e := TrafficOf(log[..|log| - 1], w), log[|log| - 1];
      if w.Has(e.minute) && e.packet.Some? then t.Add(e.packet.value) else t
  }

  function FaultsOf(log: seq<Event>, w: Window): Faults {
    if log == [] then NO_FAULTS
    else
      var t, e := FaultsOf(log[..|log| - 1], w), log[|log| - 1];
      if w.Has(e.minute) && e.fault.Some? then t.Add(e.fault.value) else t
  }

  function Tick(errors: map<Fault, nat>, f: Fault): map<Fault, nat> {
    errors[f := (if f in errors then errors[f] else 0) + 1]
  }

  function ErrorsOf(log: seq<Event>): map<Fault, nat> {
    if log == [] then NO_ERRORS
    else
      var t, e := ErrorsOf(log[..|log| - 1]), log[|log| - 1];
      if e.fault.Some? then Tick(t, e.fault.value) else t
  }

  lemma AddCounts(t: Traffic, p: Packet, col: Column)
    requires !col.Errors? && !col.OfFault?
    ensures t.Add(p).Get(col) == t.Get(col) + PacketAmount(p, col)
  {
  }

  lemma AddFaultCounts(t: Faults, f: Fault, col: Column)
    requires col.Errors? || col.OfFault?
    ensures t.Add(f).Get(col) == t.Get(col) + One(col.Errors? || col.fault == f)
  {
  }

  /** The counters mean what their names say: each is the sum of its column over the log. */
  lemma {:induction false} TrafficIsLogSum(log: seq<Event>, w: Window, col: Column)
    requires !col.Errors? && !col.OfFault?
    ensures TrafficOf(log, w).Get(col) == LogSum(log, w, col)
  {
    if log != [] {
      var front, e := log[..|log| - 1], log[|log| - 1];
      TrafficIsLogSum(front, w, col);
      if e.packet.Some? {
        AddCounts(TrafficOf(front, w), e.packet.value, col);
      }
    }
  }

  lemma {:induction false} FaultsAreLogSums(log: seq<Event>, w: Window, col: Column)
    requires col.Errors? || col.OfFault?
    ensures FaultsOf(log, w).Get(col) == LogSum(log, w, col)
  {
    if log != [] {
      var front, e := log[..|log| - 1], log[|log| - 1];
      FaultsAreLogSums(front, w, col);
      if e.fault.Some? {
        AddFaultCounts(FaultsOf(front, w), e.fault.value, col);
      }
    }
  }

  lemma {:induction false} SessionErrorsAreLogSums(log: seq<Event>, f: Fault)
    ensures f in ErrorsOf(log) && ErrorsOf(log)[f] == LogSum(log, Always, OfFault(f))
  {
    if log != [] {
      SessionErrorsAreLogSums(log[..|log| - 1], f);
    }
  }

  lemma CountersAppend(log: seq<Event>, e: Event, w: Window)
    ensures TrafficOf(log + [e], w)
         == if w.Has(e.minute) && e.packet.Some? then TrafficOf(log, w).Add(e.packet.value) else TrafficOf(log, w)
    ensures FaultsOf(log + [e], w)
         == if w.Has(e.minute) && e.fault.Some? then FaultsOf(log, w).Add(e.fault.value) else FaultsOf(log, w)
    ensures ErrorsOf(log + [e]) == if e.fault.Some? then Tick(ErrorsOf(log), e.fault.value) else ErrorsOf(log)
  {
  }

  lemma {:induction false} NothingCounted(log: seq<Event>, w: Window)
    requires forall e | e in log :: !w.Has(e.minute)
    ensures TrafficOf(log, w) == NO_TRAFFIC && FaultsOf(log, w) == NO_FAULTS
  {
    if log != [] {
      assert log[|log| - 1] in log;
      NothingCounted(log[..|log| - 1], w);
    }
  }

  // ---------------------------------------------------------------- minutes

  function MinuteOf(ts: int): int {
    ts / 60
  }

  /** The minute a report is filed under: only a report that meets a non-empty deque, and is
      not for its last minute, has a date ahead of the clock pulled back. */
  function EffectiveMinute(last: Option<int>, ts: int, now: int): int {
    if last == None || last == Some(MinuteOf(ts)) || MinuteOf(ts) <= MinuteOf(now) + 1 then MinuteOf(ts)
    else MinuteOf(now)
  }

  /** A report is filed under its own minute, except for one that meets a deque with another last
      minute and is two minutes or more ahead of the clock's minute `n`: that one is filed under `n`. */
  lemma FiledUnder(last: Option<int>, ts: int, now: int, n: int)
    requires 60 * n <= now < 60 * n + 60
    ensures var m := EffectiveMinute(last, ts, now);
            if last.Some? && !(60 * last.value <= ts < 60 * last.value + 60) && ts >= 60 * n + 120 then m == n
            else 60 * m <= ts < 60 * m + 60
  {
  }

  function Later(last: Option<int>, m: int): int {
    if last.Some? && last.value > m then last.value else m
  }

  datatype Report = Report(ts: int, now: int)

  /** The last minute of the deque after a run of reports on an empty one. */
  function EndAfter(reports: seq<Report>): Option<int> {
    if reports == [] then None
    else
      var last, r := EndAfter(reports[..|reports| - 1]), reports[|reports| - 1];
      Some(Later(last, EffectiveMinute(last, r.ts, r.now)))
  }

  /** The deque ends no more than a minute ahead of the clock of the last report. */
  predicate WithClock(reports: seq<Report>) {
    reports != [] ==> EndAfter(reports).value <= MinuteOf(reports[|reports| - 1].now) + 1
  }

  predicate ClockRuns(reports: seq<Report>) {
    forall i, j | 0 <= i < j < |reports| :: reports[i].now <= reports[j].now
  }

  predicate Ahead(r: Report) {
    MinuteOf(r.ts) > MinuteOf(r.now) + 1
  }

  lemma {:induction false} EndFollowsClock(reports: seq<Report>)
    requires ClockRuns(reports) && reports != [] && !Ahead(reports[0])
    ensures WithClock(reports)
  {
    var front := reports[..|reports| - 1];
    if front != [] {
      EndFollowsClock(front);
      assert front[|front| - 1] == reports[|reports| - 2];
      assert reports[|reports| - 2].now <= reports[|reports| - 1].now;
    }
  }

  /** Since a reset, with a clock that does not go back, the end of the deque always stays within a
      minute of the clock if and only if the first report was not ahead of it. */
  lemma EndStaysWithClock(reports: seq<Report>)
    requires ClockRuns(reports) && reports != []
    ensures (forall n | 0 < n <= |reports| :: WithClock(reports[..n])) <==> !Ahead(reports[0])
  {
    if Ahead(reports[0]) {
      assert EndAfter(reports[..1][..0]) == None && reports[..1][0] == reports[0];
      assert !WithClock(reports[..1]);
    } else {
      forall n | 0 < n <= |reports|
        ensures WithClock(reports[..n])
      {
        EndFollowsClock(reports[..n]);
      }
    }
  }

  /** Dated with the clock. */
  predicate Timely(r: Report) {
    MinuteOf(r.ts) == MinuteOf(r.now)
  }

  /** After these reports the next one falls in the last `max` minutes of the deque. */
  predicate InWindow(reports: seq<Report>, max: nat, r: Report) {
    var last := EndAfter(reports);
    last.Some? ==> EffectiveMinute(last, r.ts, r.now) > last.value - max
  }

  /** The deque ends with its first report or with the clock. */
  lemma {:induction false} EndIsFirstOrClock(reports: seq<Report>)
    requires ClockRuns(reports) && reports != []
    ensures EndAfter(reports).value <= MinuteOf(reports[0].ts)
         || EndAfter(reports).value <= MinuteOf(reports[|reports| - 1].now) + 1
  {
    var front := reports[..|reports| - 1];
    if front != [] {
      EndIsFirstOrClock(front);
      assert front[|front| - 1] == reports[|reports| - 2];
      assert reports[|reports| - 2].now <= reports[|reports| - 1].now;
    } else {
      assert EndAfter(front) == None;
    }
  }

  lemma NearFirstKeepsWindow(reports: seq<Report>, max: nat, r: Report)
    requires max >= 2 && reports != [] && ClockRuns(reports + [r]) && Timely(r)
    requires MinuteOf(reports[0].ts) - MinuteOf(reports[0].now) < max
    ensures InWindow(reports, max, r)
  {
    var all, n := reports + [r], |reports|;
    assert all[0] == reports[0] && all[n - 1] == reports[n - 1] && all[n] == r;
    assert all[0].now <= all[n].now && (n - 1 < n ==> all[n - 1].now <= all[n].now);
    forall i, j | 0 <= i < j < n
      ensures reports[i].now <= reports[j].now
    {
      assert all[i] == reports[i] && all[j] == reports[j];
    }
    EndIsFirstOrClock(reports);
  }

  /** Which first reports do no damage: with a clock that does not go back and two minutes or more,
      every later report that is dated with the clock falls in the window of the deque if and only if
      the first one was ahead by less than the window.  In the window it is given a bucket
      (`InWindowHasMinute`); outside of it, right after the first report, it is not (`StaleAfterFirst`). */
  lemma TimelyReportsAreCounted(first: Report, max: nat)
    requires max >= 2
    ensures MinuteOf(first.ts) - MinuteOf(first.now) < max <==>
              forall reports: seq<Report>, r: Report
                | reports != [] && reports[0] == first && ClockRuns(reports + [r]) && Timely(r) ::
                InWindow(reports, max, r)
  {
    if MinuteOf(first.ts) - MinuteOf(first.now) < max {
      forall reports: seq<Report>, r: Report
        | reports != [] && reports[0] == first && ClockRuns(reports + [r]) && Timely(r)
        ensures InWindow(reports, max, r)
      {
        NearFirstKeepsWindow(reports, max, r);
      }
    } else {
      var r := Report(first.now, first.now);
      assert [first][..0] == [] && EndAfter([first]) == Some(MinuteOf(first.ts));
      assert ClockRuns([first] + [r]) && Timely(r) && [first][0] == first;
      assert !InWindow([first], max, r);
    }
  }

  // ---------------------------------------------------------------- buckets

  class MinuteBucket {
    const minute: int
    var traffic: Traffic
    var faults: Faults

    constructor (minute: int)
      ensures this.minute == minute && Blank()
    {
      this.minute := minute;
      traffic, faults := NO_TRAFFIC, NO_FAULTS;
    }

    predicate Blank()
      reads this
    {
      traffic == NO_TRAFFIC && faults == NO_FAULTS
    }

    method Add(p: Option<Packet>, f: Option<Fault>)
      modifies this
      ensures traffic == if p.Some? then old(traffic).Add(p.value) else old(traffic)
      ensures faults == if f.Some? then old(faults).Add(f.value) else old(faults)
    {
      if p.Some? {
        traffic := CountPacket(traffic, p.value);
      }
      if f.Some? {
        faults := faults.(errors := faults.errors + 1);
        match f.value
        case Crc => faults := faults.(crc := faults.crc + 1);
        case Timeout => faults := faults.(timeouts := faults.timeouts + 1);
        case Overflow => faults := faults.(queueOverflow := faults.queueOverflow + 1);
        case Cutoff => faults := faults.(airtimeCutoff := faults.airtimeCutoff + 1);
        case OtherFault =>
      }
    }
  }

  /** The branches of `record_packet`, which it applies to the session and to the bucket. */
  method CountPacket(t: Traffic, p: Packet) returns (r: Traffic)
    ensures r == t.Add(p)
  {
    if p.isRx {
      r := t.(rxPackets := t.rxPackets + 1, rxBytes := t.rxBytes + p.size);
      if p.isFlood {
        r := r.(floodRx := r.floodRx + 1);
      } else {
        r := r.(directRx := r.directRx + 1);
      }
    } else {
      r := t.(txPackets := t.txPackets + 1, txBytes := t.txBytes + p.size);
      if p.isFlood {
        r := r.(floodTx := r.floodTx + 1);
      } else {
        r := r.(directTx := r.directTx + 1);
      }
    }
    r := r.(types := r.types[p.kind := (if p.kind in r.types then r.types[p.kind] else 0) + 1]);
  }

  ghost predicate Sorted(bs: seq<MinuteBucket>) {
    forall i, j | 0 <= i < j < |bs| :: bs[i].minute < bs[j].minute
  }

  /** The pigeonhole: a bucket `j - i` places later is at least as many minutes later. */
  lemma {:induction false} Spread(bs: seq<MinuteBucket>, i: nat, j: nat)
    requires Sorted(bs) && i <= j < |bs|
    ensures bs[j].minute - bs[i].minute >= j - i
    decreases j - i
  {
    if i < j {
      Spread(bs, i, j - 1);
      assert bs[j - 1].minute < bs[j].minute;
    }
  }

  ghost predicate HasMinute(bs: seq<MinuteBucket>, m: int) {
    exists i | 0 <= i < |bs| :: bs[i].minute == m
  }

  /** `sorted` of a sorted sequence with one item appended. */
  function Insert(bs: seq<MinuteBucket>, b: MinuteBucket): seq<MinuteBucket> {
    if bs == [] || bs[|bs| - 1].minute <= b.minute then bs + [b]
    else Insert(bs[..|bs| - 1], b) + [bs[|bs| - 1]]
  }

  /** Where `Insert` puts the new item. */
  lemma {:induction false} InsertPlace(bs: seq<MinuteBucket>, b: MinuteBucket) returns (p: nat)
    ensures p <= |bs| && Insert(bs, b) == bs[..p] + [b] + bs[p..]
    ensures p > 0 ==> bs[p - 1].minute <= b.minute
    ensures p < |bs| ==> b.minute < bs[p].minute
  {
    if bs == [] || bs[|bs| - 1].minute <= b.minute {
      p := |bs|;
    } else {
      var front := bs[..|bs| - 1];
      p := InsertPlace(front, b);
      assert bs[p..] == front[p..] + [bs[|bs| - 1]];
    }
  }

  lemma InsertSorts(bs: seq<MinuteBucket>, b: MinuteBucket, p: nat)
    requires Sorted(bs) && !HasMinute(bs, b.minute)
    requires p <= |bs| && (p > 0 ==> bs[p - 1].minute <= b.minute) && (p < |bs| ==> b.minute < bs[p].minute)
    ensures Sorted(bs[..p] + [b] + bs[p..])
  {
    var r := bs[..p] + [b] + bs[p..];
    assert p > 0 ==> bs[p - 1].minute != b.minute;
    assert forall i | 0 <= i < p :: r[i] == bs[i] && r[i].minute < b.minute;
    assert forall i | p < i < |r| :: r[i] == bs[i - 1] && b.minute < r[i].minute;
  }

  // ---------------------------------------------------------------- deque against log

  /** The bucket holds exactly what the log says about its minute. */
  ghost predicate Exact(b: MinuteBucket, log: seq<Event>)
    reads b
  {
    && b.traffic == TrafficOf(log, MinuteAt(b.minute))
    && b.faults == FaultsOf(log, MinuteAt(b.minute))
  }

  ghost predicate Faithful(bs: seq<MinuteBucket>, log: seq<Event>)
    reads bs
  {
    forall i | 0 <= i < |bs| :: Exact(bs[i], log)
  }

  /** No event lies after the last bucket, and each event of the last `max` minutes has one. */
  ghost predicate Covered(bs: seq<MinuteBucket>, max: nat, log: seq<Event>) {
    bs != [] ==>
      var last := bs[|bs| - 1].minute;
      forall e | e in log ::
        e.minute <= last && (e.minute > last - max ==> HasMinute(bs, e.minute))
  }

  ghost predicate Shaped(bs: seq<MinuteBucket>, max: nat, log: seq<Event>)
    reads bs
  {
    |bs| <= max && Sorted(bs) && Faithful(bs, log) && Covered(bs, max, log)
  }

  lemma BoundedSorted(bs: seq<MinuteBucket>, max: nat)
    requires Sorted(bs)
    ensures Sorted(Bounded(bs, max))
  {
  }

  lemma KeptAt(bs: seq<MinuteBucket>, max: nat, i: nat) returns (j: nat)
    requires i < |bs| <= i + max
    ensures j < |Bounded(bs, max)| && Bounded(bs, max)[j] == bs[i]
  {
    BoundedSuffix(bs, max);
    j := i - (|bs| - |Bounded(bs, max)|);
  }

  /** A deque of `max` buckets never drops one of the last `max` minutes. */
  lemma RecentIsKept(bs: seq<MinuteBucket>, max: nat, i: nat)
    requires Sorted(bs) && i < |bs| && bs[i].minute > bs[|bs| - 1].minute - max
    ensures bs[i] in Bounded(bs, max) && HasMinute(Bounded(bs, max), bs[i].minute)
  {
    Spread(bs, i, |bs| - 1);
    var j := KeptAt(bs, max, i);
  }

  /** What falls out of a growing deque lies before the last `max` minutes, so no event of
      the window loses its bucket. */
  lemma GrowingStaysCovered(bs: seq<MinuteBucket>, all: seq<MinuteBucket>, max: nat, log: seq<Event>)
    requires bs != [] && Covered(bs, max, log) && max > 0
    requires Sorted(all) && forall b | b in bs :: b in all
    requires |all| > 0 && all[|all| - 1].minute >= bs[|bs| - 1].minute
    ensures Covered(Bounded(all, max), max, log)
  {
    BoundedLast(all, max);
    var kept := Bounded(all, max);
    assert kept[|kept| - 1] == all[|all| - 1];
    var last := all[|all| - 1].minute;
    forall e | e in log
      ensures e.minute > last - max ==> HasMinute(kept, e.minute)
    {
      if e.minute > last - max {
        var i :| 0 <= i < |bs| && bs[i].minute == e.minute;
        assert bs[i] in all;
        var j :| 0 <= j < |all| && all[j] == bs[i];
        RecentIsKept(all, max, j);
      }
    }
  }

  /** The first minute that `_get_or_create_bucket` fills in on its way from `last` to `m`. */
  function FillStart(last: int, m: int, max: nat): int {
    if last + 1 >= m - (max - 1) then last + 1 else m - (max - 1)
  }

  ghost predicate Filling(news: seq<MinuteBucket>, start: int) {
    forall k | 0 <= k < |news| :: news[k].minute == start + k
  }

  /** The buckets that moving on to minute `m` appends: one for each minute of the window that
      the deque had not reached, the last of them for `m`. */
  ghost predicate Advanced(bs: seq<MinuteBucket>, news: seq<MinuteBucket>, m: int, max: nat) {
    && bs != [] && news != [] && news[|news| - 1].minute == m
    && Filling(news, FillStart(bs[|bs| - 1].minute, m, max))
  }

  lemma AdvanceKeeps(bs: seq<MinuteBucket>, news: seq<MinuteBucket>, m: int, max: nat, log: seq<Event>)
    requires Shaped(bs, max, log) && Advanced(bs, news, m, max)
    requires m > bs[|bs| - 1].minute
    requires forall k | 0 <= k < |news| :: news[k].Blank()
    ensures var kept := Bounded(bs + news, max);
            Shaped(kept, max, log) && kept != [] && kept[|kept| - 1] == news[|news| - 1]
  {
    FillingShape(bs, news, m, max, log);
    FilledFaithful(bs, news, max, log);
    BoundedLast(bs + news, max);
  }

  /** No minute between the old end of the deque and `m` is left out, as far as the window goes. */
  lemma FillingLeavesNoGap(bs: seq<MinuteBucket>, news: seq<MinuteBucket>, m: int, max: nat)
    requires Sorted(bs) && Advanced(bs, news, m, max) && m > bs[|bs| - 1].minute
    ensures forall x | bs[|bs| - 1].minute < x <= m && x > m - max :: HasMinute(Bounded(bs + news, max), x)
  {
    var start, all := FillStart(bs[|bs| - 1].minute, m, max), bs + news;
    FillingSorts(bs, news, start);
    forall x | bs[|bs| - 1].minute < x <= m && x > m - max
      ensures HasMinute(Bounded(all, max), x)
    {
      var i := |bs| + (x - start);
      assert all[i] == news[x - start] && all[|all| - 1] == news[|news| - 1];
      RecentIsKept(all, max, i);
    }
  }

  lemma FillingSorts(bs: seq<MinuteBucket>, news: seq<MinuteBucket>, start: int)
    requires Sorted(bs) && Filling(news, start)
    requires bs != [] && bs[|bs| - 1].minute < start
    ensures Sorted(bs + news)
  {
  }

  lemma FillingShape(bs: seq<MinuteBucket>, news: seq<MinuteBucket>, m: int, max: nat, log: seq<Event>)
    requires Sorted(bs) && bs != [] && |bs| <= max && Covered(bs, max, log)
    requires m > bs[|bs| - 1].minute
    requires Filling(news, FillStart(bs[|bs| - 1].minute, m, max))
    requires |news| > 0 && news[|news| - 1].minute == m
    ensures |news| <= max && Sorted(Bounded(bs + news, max)) && Covered(Bounded(bs + news, max), max, log)
  {
    var all := bs + news;
    FillingSorts(bs, news, FillStart(bs[|bs| - 1].minute, m, max));
    assert all[|all| - 1] == news[|news| - 1];
    BoundedSorted(all, max);
    GrowingStaysCovered(bs, all, max, log);
  }

  /** A late bucket is never the one that sort-and-truncate cuts off. */
  lemma LateShape(bs: seq<MinuteBucket>, b: MinuteBucket, max: nat, log: seq<Event>) returns (p: nat)
    requires Sorted(bs) && bs != [] && |bs| <= max && Covered(bs, max, log)
    requires !HasMinute(bs, b.minute)
    requires bs[|bs| - 1].minute - (max - 1) <= b.minute < bs[|bs| - 1].minute
    ensures p < |bs| && Insert(bs, b) == bs[..p] + [b] + bs[p..]
    ensures var kept := Bounded(Insert(bs, b), max);
            Sorted(kept) && Covered(kept, max, log) && b in kept && kept[|kept| - 1] == bs[|bs| - 1]
  {
    p := InsertPlace(bs, b);
    InsertSorts(bs, b, p);
    var all := bs[..p] + [b] + bs[p..];
    assert all[p] == b && all[|all| - 1] == bs[|bs| - 1];
    BoundedLast(all, max);
    BoundedSorted(all, max);
    assert forall x | x in bs :: x in bs[..p] || x in bs[p..];
    GrowingStaysCovered(bs, all, max, log);
    RecentIsKept(all, max, p);
  }

  /** What `_get_or_create_bucket` does for minute `m` to the deque `bs`, leaving `after`.  No
      bucket is handed out exactly when the minute is older than the last `max` minutes and has
      none; otherwise the minute's own bucket is, appended or inserted if need be. */
  ghost predicate HandedOut(bs: seq<MinuteBucket>, after: seq<MinuteBucket>, max: nat, m: int, b: MinuteBucket?, news: seq<MinuteBucket>) {
    if b == null then bs != [] && Stale(bs, max, m) && after == bs
    else
      && b.minute == m
      && if bs == [] then after == Bounded([b], max)
         else if m > bs[|bs| - 1].minute then
           Advanced(bs, news, m, max) && news[|news| - 1] == b && after == Bounded(bs + news, max)
         else if b in bs then after == bs
         else !HasMinute(bs, m) && !Stale(bs, max, m) && after == Bounded(Insert(bs, b), max)
  }

  ghost predicate Stale(bs: seq<MinuteBucket>, max: nat, m: int)
    requires bs != []
  {
    m < bs[|bs| - 1].minute - (max - 1) && !HasMinute(bs, m)
  }

  /** All buckets lie in the last `max` minutes before some minute `f` or after it, and the deque
      has reached `f`. */
  ghost predicate Floored(bs: seq<MinuteBucket>, max: nat, f: int) {
    bs != [] && bs[|bs| - 1].minute >= f && forall i | 0 <= i < |bs| :: bs[i].minute > f - max
  }

  lemma FilledFrom(bs: seq<MinuteBucket>, news: seq<MinuteBucket>, max: nat)
    ensures var kept := Bounded(bs + news, max); forall i | 0 <= i < |kept| :: kept[i] in bs || kept[i] in news
  {
    var all, kept := bs + news, Bounded(bs + news, max);
    BoundedSuffix(all, max);
    forall i | 0 <= i < |kept|
      ensures kept[i] in bs || kept[i] in news
    {
      var j := |all| - |kept| + i;
      assert kept[i] == all[j] == if j < |bs| then bs[j] else news[j - |bs|];
    }
  }

  lemma InsertedFrom(bs: seq<MinuteBucket>, b: MinuteBucket, max: nat)
    ensures var kept := Bounded(Insert(bs, b), max); forall i | 0 <= i < |kept| :: kept[i] in bs || kept[i] == b
  {
    var p := InsertPlace(bs, b);
    var all, kept := Insert(bs, b), Bounded(Insert(bs, b), max);
    BoundedSuffix(all, max);
    forall i | 0 <= i < |kept|
      ensures kept[i] in bs || kept[i] == b
    {
      var j := |all| - |kept| + i;
      assert kept[i] == all[j] == if j < p then bs[j] else if j == p then b else bs[j - 1];
    }
  }

  lemma FlooredFilling(bs: seq<MinuteBucket>, news: seq<MinuteBucket>, m: int, max: nat, f: int)
    requires Floored(bs, max, f) && Advanced(bs, news, m, max) && m > bs[|bs| - 1].minute && max > 0
    ensures Floored(Bounded(bs + news, max), max, f)
  {
    FilledFrom(bs, news, max);
    BoundedLast(bs + news, max);
  }

  lemma FlooredInsert(bs: seq<MinuteBucket>, b: MinuteBucket, max: nat, f: int)
    requires Floored(bs, max, f) && max > 0
    requires bs[|bs| - 1].minute - (max - 1) <= b.minute <= bs[|bs| - 1].minute
    ensures Floored(Bounded(Insert(bs, b), max), max, f)
  {
    InsertedFrom(bs, b, max);
    InsertLast(bs, b);
    BoundedLast(Insert(bs, b), max);
  }

  /** A report for minute `m` leaves every floor of the deque a floor. */
  ghost predicate KeepsFloors(bs: seq<MinuteBucket>, after: seq<MinuteBucket>, max: nat, m: int) {
    forall f: int :: (if bs == [] then f == m else Floored(bs, max, f)) ==> Floored(after, max, f)
  }

  /** A report for minute `m` has a bucket, unless the minute is too old. */
  ghost predicate HasMinuteUnlessStale(bs: seq<MinuteBucket>, max: nat, m: int) {
    bs != [] && (HasMinute(bs, m) || Stale(bs, max, m))
  }

  lemma GivenBucket(bs: seq<MinuteBucket>, max: nat, m: int, b: MinuteBucket?)
    requires bs != [] && if b == null then Stale(bs, max, m) else b.minute == m && b in bs
    ensures HasMinuteUnlessStale(bs, max, m)
  {
  }

  lemma InWindowHasMinute(bs: seq<MinuteBucket>, max: nat, m: int)
    requires HasMinuteUnlessStale(bs, max, m) && m > bs[|bs| - 1].minute - max
    ensures HasMinute(bs, m)
  {
  }

  /** Where the deque ends after a report for minute `m`, and what it leaves alone. */
  ghost predicate Moved(bs: seq<MinuteBucket>, after: seq<MinuteBucket>, max: nat, m: int) {
    max > 0 ==>
      && after != [] && after[|after| - 1].minute == Later(EndOf(bs), m)
      && KeepsFloors(bs, after, max, m)
  }

  function EndOf(bs: seq<MinuteBucket>): Option<int> {
    if bs == [] then None else Some(bs[|bs| - 1].minute)
  }

  /** The deque never reaches back: a new bucket lies in the last `max` minutes. */
  lemma HandedOutFloored(bs: seq<MinuteBucket>, after: seq<MinuteBucket>, max: nat, m: int, b: MinuteBucket?,
                         news: seq<MinuteBucket>)
    requires HandedOut(bs, after, max, m, b, news) && max > 0
    ensures KeepsFloors(bs, after, max, m)
  {
    forall f: int | if bs == [] then f == m else Floored(bs, max, f)
      ensures Floored(after, max, f)
    {
      if bs == [] {
        BoundedSuffix([b], max);
      } else if b != null {
        if m > bs[|bs| - 1].minute {
          FlooredFilling(bs, news, m, max, f);
        } else if b !in bs {
          FlooredInsert(bs, b, max, f);
        }
      }
    }
  }

  /** Right after a first report for minute `f`, an on-time report goes uncounted exactly when its
      minute lies `max` or more before `f`. */
  lemma StaleAfterFirst(bs: seq<MinuteBucket>, max: nat, ts: int, now: int)
    requires |bs| == 1 && max > 0 && !Ahead(Report(ts, now))
    ensures Stale(bs, max, EffectiveMinute(Some(bs[0].minute), ts, now)) <==> MinuteOf(ts) <= bs[0].minute - max
  {
    assert HasMinute(bs, MinuteOf(ts)) <==> bs[0].minute == MinuteOf(ts);
  }

  /** With the default capacity: a first report dated two days ahead of a clock at zero, then one
      dated with the clock. */
  lemma TwoDaysAhead(bs: seq<MinuteBucket>)
    requires |bs| == 1 && Some(bs[0].minute) == EndAfter([Report(172_800, 0)])
    ensures bs[0].minute == 2_880 && !WithClock([Report(172_800, 0)])
    ensures Stale(bs, 1440, EffectiveMinute(Some(bs[0].minute), 0, 0))
  {
    assert [Report(172_800, 0)][..0] == [];
    StaleAfterFirst(bs, 1440, 0, 0);
  }

  lemma BlankIsExact(b: MinuteBucket, log: seq<Event>)
    requires b.Blank() && forall e | e in log :: e.minute != b.minute
    ensures Exact(b, log)
  {
    NothingCounted(log, MinuteAt(b.minute));
  }

  lemma FaithfulParts(s: seq<MinuteBucket>, t: seq<MinuteBucket>, max: nat, log: seq<Event>)
    requires Faithful(s, log) && Faithful(t, log)
    ensures Faithful(s + t, log) && Faithful(Bounded(s + t, max), log)
  {
    BoundedSuffix(s + t, max);
    var kept := Bounded(s + t, max);
    assert forall i | 0 <= i < |s + t| :: Exact((s + t)[i], log);
    assert forall i | 0 <= i < |kept| :: kept[i] == (s + t)[|s + t| - |kept| + i];
  }

  lemma FilledFaithful(bs: seq<MinuteBucket>, news: seq<MinuteBucket>, max: nat, log: seq<Event>)
    requires Faithful(bs, log) && bs != [] && Covered(bs, max, log)
    requires forall k | 0 <= k < |news| :: news[k].Blank() && news[k].minute > bs[|bs| - 1].minute
    ensures Faithful(Bounded(bs + news, max), log)
  {
    forall k | 0 <= k < |news|
      ensures Exact(news[k], log)
    {
      BlankIsExact(news[k], log);
    }
    FaithfulParts(bs, news, max, log);
  }

  lemma LateFaithful(bs: seq<MinuteBucket>, b: MinuteBucket, p: nat, max: nat, log: seq<Event>)
    requires Faithful(bs, log) && bs != [] && Covered(bs, max, log) && max > 0
    requires b.Blank() && !HasMinute(bs, b.minute)
    requires b.minute >= bs[|bs| - 1].minute - (max - 1)
    requires p <= |bs| && Insert(bs, b) == bs[..p] + [b] + bs[p..]
    ensures Faithful(Bounded(Insert(bs, b), max), log)
  {
    forall e | e in log
      ensures e.minute != b.minute
    {
    }
    BlankIsExact(b, log);
    FaithfulParts(bs[..p], [b], max, log);
    FaithfulParts(bs[..p] + [b], bs[p..], max, log);
  }

  lemma InsertLast(bs: seq<MinuteBucket>, b: MinuteBucket)
    requires bs != [] && b.minute <= bs[|bs| - 1].minute
    ensures Insert(bs, b) != [] && Insert(bs, b)[|Insert(bs, b)| - 1].minute == bs[|bs| - 1].minute
  {
  }

  lemma HandedOutLast(bs: seq<MinuteBucket>, after: seq<MinuteBucket>, max: nat, m: int, b: MinuteBucket?, news: seq<MinuteBucket>)
    requires HandedOut(bs, after, max, m, b, news) && max > 0
    ensures after != []
    ensures after[|after| - 1].minute
         == if bs != [] && bs[|bs| - 1].minute > m then bs[|bs| - 1].minute else m
  {
    if b != null {
      if bs == [] {
        BoundedLast([b], max);
      } else if m > bs[|bs| - 1].minute {
        BoundedLast(bs + news, max);
      } else if b !in bs {
        InsertLast(bs, b);
        BoundedLast(Insert(bs, b), max);
      }
    }
  }

  /** All that a report needs to know of the look-up. */
  lemma HandedOutMoves(bs: seq<MinuteBucket>, after: seq<MinuteBucket>, max: nat, m: int, b: MinuteBucket?, news: seq<MinuteBucket>)
    requires HandedOut(bs, after, max, m, b, news)
    ensures Moved(bs, after, max, m)
    ensures b == null ==> after != [] && Stale(after, max, m)
    ensures b != null ==> b.minute == m
  {
    if max > 0 {
      HandedOutLast(bs, after, max, m, b, news);
      HandedOutFloored(bs, after, max, m, b, news);
    }
  }

  /** `log'` says about minute `m` what `log` does, plus one report. */
  ghost predicate Extended(m: int, log: seq<Event>, p: Option<Packet>, f: Option<Fault>, log': seq<Event>) {
    var w := MinuteAt(m);
    && TrafficOf(log', w) == (if p.Some? then TrafficOf(log, w).Add(p.value) else TrafficOf(log, w))
    && FaultsOf(log', w) == (if f.Some? then FaultsOf(log, w).Add(f.value) else FaultsOf(log, w))
  }

  /** All that counting a report needs to know before it changes the bucket it was given. */
  lemma CountingKeeps(bs: seq<MinuteBucket>, max: nat, b: MinuteBucket?, log: seq<Event>, e: Event)
    requires Shaped(bs, max, log)
    requires bs != [] ==> e.minute <= bs[|bs| - 1].minute
    requires b == null ==> bs != [] && Stale(bs, max, e.minute)
    requires b != null ==> b.minute == e.minute && (bs != [] ==> b in bs)
    ensures forall i | 0 <= i < |bs| && bs[i] != b :: Exact(bs[i], log + [e])
    ensures Covered(bs, max, log + [e])
    ensures b != null ==> Extended(b.minute, log, e.packet, e.fault, log + [e])
  {
  }

  // ---------------------------------------------------------------- time series

  datatype Range = Hour | SixHours | Day {
    function Points(): nat {
      match this
      case Hour => 60
      case SixHours => 72
      case Day => 96
    }

    /** The minutes of one point. */
    function Step(): nat {
      match this
      case Hour => 1
      case SixHours => 5
      case Day => 15
    }

    function Start(now: int): int {
      MinuteOf(now) + 1 - Points() * Step()
    }
  }

  /** The five columns of a time series. */
  datatype Sums = Sums(rx: int, tx: int, flood: int, direct: int, errors: int) {
    function Plus(s: Sums): Sums {
      Sums(rx + s.rx, tx + s.tx, flood + s.flood, direct + s.direct, errors + s.errors)
    }
  }

  const ZERO := Sums(0, 0, 0, 0, 0)

  datatype Point = Point(minute: int, sums: Sums, isPartial: bool)

  /** A bucket as `get_time_series` copies it under the lock. */
  datatype Row = Row(minute: int, sums: Sums)

  function RowOf(b: MinuteBucket): Row
    reads b
  {
    Row(b.minute, Sums(b.traffic.rxPackets, b.traffic.txPackets, b.traffic.floodRx + b.traffic.floodTx,
                       b.traffic.directRx + b.traffic.directTx, b.faults.errors))
  }

  function Rows(bs: seq<MinuteBucket>): (rows: seq<Row>)
    reads bs
    ensures |rows| == |bs|
  {
    if bs == [] then [] else Rows(bs[..|bs| - 1]) + [RowOf(bs[|bs| - 1])]
  }

  lemma {:induction false} RowsAt(bs: seq<MinuteBucket>)
    ensures forall i | 0 <= i < |bs| :: Rows(bs)[i] == RowOf(bs[i])
  {
    if bs != [] {
      RowsAt(bs[..|bs| - 1]);
    }
  }

  lemma RowsSorted(bs: seq<MinuteBucket>)
    requires Sorted(bs)
    ensures SortedRows(Rows(bs))
  {
    RowsAt(bs);
  }

  predicate SortedRows(rows: seq<Row>) {
    forall i, j | 0 <= i < j < |rows| :: rows[i].minute < rows[j].minute
  }

  /** What the rows of lo <= minute < hi hold together. */
  function Retained(rows: seq<Row>, lo: int, hi: int): Sums {
    if rows == [] then ZERO
    else
      var rest, row := Retained(rows[..|rows| - 1], lo, hi), rows[|rows| - 1];
      if lo <= row.minute < hi then rest.Plus(row.sums) else rest
  }

  /** An event as a row of its own, so that the same sum runs over log and deque. */
  function EventRow(e: Event): Row {
    Row(e.minute, Sums(Amount(e, Rx), Amount(e, Tx), Amount(e, FloodRx) + Amount(e, FloodTx),
                       Amount(e, DirectRx) + Amount(e, DirectTx), Amount(e, Errors)))
  }

  function EventRows(log: seq<Event>): (rows: seq<Row>)
    ensures |rows| == |log|
  {
    if log == [] then [] else EventRows(log[..|log| - 1]) + [EventRow(log[|log| - 1])]
  }

  lemma {:induction false} EventRowsAt(log: seq<Event>)
    ensures forall k | 0 <= k < |log| :: EventRows(log)[k].minute == log[k].minute
  {
    if log != [] {
      EventRowsAt(log[..|log| - 1]);
    }
  }

  /** What the log says about a window, in the five columns. */
  function LogSums(log: seq<Event>, w: Window): Sums {
    Sums(LogSum(log, w, Rx), LogSum(log, w, Tx), LogSum(log, w, FloodRx) + LogSum(log, w, FloodTx),
         LogSum(log, w, DirectRx) + LogSum(log, w, DirectTx), LogSum(log, w, Errors))
  }

  /** The sum over the event rows is the sum of each column over the log. */
  lemma {:induction false} EventRowsAreLogSums(log: seq<Event>, lo: int, hi: int)
    ensures Retained(EventRows(log), lo, hi) == LogSums(log, Span(lo, hi))
  {
    if log != [] {
      EventRowsAreLogSums(log[..|log| - 1], lo, hi);
      assert EventRows(log)[..|log| - 1] == EventRows(log[..|log| - 1]);
    }
  }

  lemma {:induction false} RetainedSplits(rows: seq<Row>, lo: int, mid: int, hi: int)
    requires lo <= mid <= hi
    ensures Retained(rows, lo, hi) == Retained(rows, lo, mid).Plus(Retained(rows, mid, hi))
    ensures lo == hi ==> Retained(rows, lo, hi) == ZERO
  {
    if rows != [] {
      RetainedSplits(rows[..|rows| - 1], lo, mid, hi);
    }
  }

  lemma {:induction false} RetainedNothing(rows: seq<Row>, m: int)
    requires forall i | 0 <= i < |rows| :: rows[i].minute != m
    ensures Retained(rows, m, m + 1) == ZERO
  {
    if rows != [] {
      RetainedNothing(rows[..|rows| - 1], m);
    }
  }

  lemma {:induction false} RetainedMinute(rows: seq<Row>, i: nat)
    requires SortedRows(rows) && i < |rows|
    ensures Retained(rows, rows[i].minute, rows[i].minute + 1) == rows[i].sums
  {
    var front := rows[..|rows| - 1];
    if i == |rows| - 1 {
      RetainedNothing(front, rows[i].minute);
    } else {
      RetainedMinute(front, i);
    }
  }

  lemma ExactRow(b: MinuteBucket, log: seq<Event>)
    requires Exact(b, log)
    ensures RowOf(b) == Row(b.minute, Retained(EventRows(log), b.minute, b.minute + 1))
  {
    var w := MinuteAt(b.minute);
    TrafficIsLogSum(log, w, Rx);
    TrafficIsLogSum(log, w, Tx);
    TrafficIsLogSum(log, w, FloodRx);
    TrafficIsLogSum(log, w, FloodTx);
    TrafficIsLogSum(log, w, DirectRx);
    TrafficIsLogSum(log, w, DirectTx);
    FaultsAreLogSums(log, w, Errors);
    EventRowsAreLogSums(log, b.minute, b.minute + 1);
  }

  /** A sum over intervals: what lies in [lo, hi). */
  type Interval = (int, int) -> Sums

  ghost predicate Additive(f: Interval) {
    && (forall lo :: Starts(f, lo))
    && (forall lo, mid, hi :: lo <= mid <= hi ==> Splits(f, lo, mid, hi))
  }

  ghost predicate Starts(f: Interval, lo: int) {
    f(lo, lo) == ZERO
  }

  ghost predicate Splits(f: Interval, lo: int, mid: int, hi: int) {
    f(lo, hi) == f(lo, mid).Plus(f(mid, hi))
  }

  ghost predicate Agree(f: Interval, g: Interval, m: int) {
    f(m, m + 1) == g(m, m + 1)
  }

  function Over(rows: seq<Row>): Interval {
    (lo, hi) => Retained(rows, lo, hi)
  }

  lemma OverIsAdditive(rows: seq<Row>)
    ensures Additive(Over(rows))
  {
    forall lo, mid, hi | lo <= mid <= hi
      ensures Splits(Over(rows), lo, mid, hi)
    {
      RetainedSplits(rows, lo, mid, hi);
    }
    forall lo
      ensures Starts(Over(rows), lo)
    {
      RetainedSplits(rows, lo, lo, lo);
    }
  }

  lemma {:induction false} MinuteByMinute(f: Interval, g: Interval, lo: int, hi: int)
    requires Additive(f) && Additive(g) && lo <= hi
    requires forall m | lo <= m < hi :: Agree(f, g, m)
    ensures f(lo, hi) == g(lo, hi)
    decreases hi - lo
  {
    if lo < hi {
      MinuteByMinute(f, g, lo, hi - 1);
      assert Agree(f, g, hi - 1);
      assert Splits(f, lo, hi - 1, hi) && Splits(g, lo, hi - 1, hi);
    } else {
      assert Starts(f, lo) && Starts(g, lo);
    }
  }

  ghost predicate HasRow(rows: seq<Row>, m: int) {
    exists i :: 0 <= i < |rows| && rows[i].minute == m
  }

  lemma BucketIsLogged(rows: seq<Row>, i: nat, all: seq<Row>)
    requires SortedRows(rows) && i < |rows|
    requires rows[i].sums == Retained(all, rows[i].minute, rows[i].minute + 1)
    ensures Agree(Over(rows), Over(all), rows[i].minute)
  {
    RetainedMinute(rows, i);
  }

  lemma GapIsLogged(bs: seq<MinuteBucket>, log: seq<Event>, m: int)
    requires !HasMinute(bs, m) && forall e | e in log :: e.minute != m
    ensures Agree(Over(Rows(bs)), Over(EventRows(log)), m)
  {
    RowsAt(bs);
    EventRowsAt(log);
    RetainedNothing(Rows(bs), m);
    RetainedNothing(EventRows(log), m);
  }

  lemma NoEventWithoutBucket(bs: seq<MinuteBucket>, max: nat, log: seq<Event>, m: int)
    requires Covered(bs, max, log) && !HasMinute(bs, m)
    requires if bs == [] then log == [] else m > bs[|bs| - 1].minute - max
    ensures forall e | e in log :: e.minute != m
  {
  }

  lemma ExactIsLogged(bs: seq<MinuteBucket>, log: seq<Event>, i: nat)
    requires Sorted(bs) && i < |bs| && Exact(bs[i], log)
    ensures Agree(Over(Rows(bs)), Over(EventRows(log)), bs[i].minute)
  {
    ExactRow(bs[i], log);
    RowsAt(bs);
    RowsSorted(bs);
    BucketIsLogged(Rows(bs), i, EventRows(log));
  }

  /** A minute of the last `max` holds in the deque what the log says about it. */
  lemma MinuteIsLogged(bs: seq<MinuteBucket>, max: nat, log: seq<Event>, m: int)
    requires Shaped(bs, max, log)
    requires if bs == [] then log == [] else m > bs[|bs| - 1].minute - max
    ensures Agree(Over(Rows(bs)), Over(EventRows(log)), m)
  {
    if HasMinute(bs, m) {
      var i :| 0 <= i < |bs| && bs[i].minute == m;
      ExactIsLogged(bs, log, i);
    } else {
      NoEventWithoutBucket(bs, max, log, m);
      GapIsLogged(bs, log, m);
    }
  }

  lemma MinutesAreLogged(bs: seq<MinuteBucket>, max: nat, log: seq<Event>, lo: int, hi: int)
    requires Shaped(bs, max, log)
    requires if bs == [] then log == [] else lo > bs[|bs| - 1].minute - max
    ensures forall m | lo <= m < hi :: Agree(Over(Rows(bs)), Over(EventRows(log)), m)
  {
    forall m | lo <= m < hi
      ensures Agree(Over(Rows(bs)), Over(EventRows(log)), m)
    {
      MinuteIsLogged(bs, max, log, m);
    }
  }

  function SumPoints(points: seq<Point>): Sums {
    if points == [] then ZERO else SumPoints(points[..|points| - 1]).Plus(points[|points| - 1].sums)
  }

  /** Where the `i`th step of a series starts. */
  function Cut(start: int, step: nat, i: nat): int {
    if i == 0 then start else Cut(start, step, i - 1) + step
  }

  lemma {:induction false} CutIs(start: int, step: nat, i: nat)
    ensures Cut(start, step, i) == start + i * step
  {
    if i > 0 {
      CutIs(start, step, i - 1);
      assert i * step == (i - 1) * step + step;
    }
  }

  /** The points of a series tile its interval: they start one step apart, and each holds what
      lies in its own step. */
  ghost predicate Tiles(points: seq<Point>, f: Interval, start: int, step: nat) {
    forall i | 0 <= i < |points| :: Tile(points[i], f, Cut(start, step, i), step)
  }

  ghost predicate Tile(p: Point, f: Interval, minute: int, step: nat) {
    p.minute == minute && p.sums == f(minute, minute + step)
  }

  /** The points of the three ranges: sixty single minutes, 72 of five and 96 of fifteen, and the
      last minute of the last point is the current one. */
  ghost predicate PointsOf(points: seq<Point>, range: Range, now: int) {
    match range
    case Hour => |points| == 60 && forall i | 0 <= i < 60 :: points[i].minute == MinuteOf(now) - 59 + i
    case SixHours => |points| == 72 && forall i | 0 <= i < 72 :: points[i].minute == MinuteOf(now) - 359 + 5 * i
    case Day => |points| == 96 && forall i | 0 <= i < 96 :: points[i].minute == MinuteOf(now) - 1439 + 15 * i
  }

  lemma TilesArePoints(points: seq<Point>, f: Interval, range: Range, now: int)
    requires |points| == range.Points() && Tiles(points, f, range.Start(now), range.Step())
    ensures PointsOf(points, range, now)
  {
    forall i | 0 <= i < |points|
      ensures points[i].minute == range.Start(now) + i * range.Step()
    {
      assert Tile(points[i], f, Cut(range.Start(now), range.Step(), i), range.Step());
      CutIs(range.Start(now), range.Step(), i);
    }
  }

  /** Nothing of the interval is lost or counted twice. */
  lemma {:induction false} SeriesConserves(points: seq<Point>, f: Interval, start: int, step: nat)
    requires Tiles(points, f, start, step) && Additive(f)
    ensures SumPoints(points) == f(start, Cut(start, step, |points|)) && start <= Cut(start, step, |points|)
  {
    if points != [] {
      var n := |points| - 1;
      SeriesConserves(points[..n], f, start, step);
      assert Tile(points[n], f, Cut(start, step, n), step);
      assert Splits(f, start, Cut(start, step, n), Cut(start, step, n) + step);
    } else {
      assert Starts(f, start);
    }
  }

  lemma AgreeingTile(p: Point, rows: seq<Row>, all: seq<Row>, minute: int, step: nat)
    requires Tile(p, Over(rows), minute, step)
    requires forall m | minute <= m < minute + step :: Agree(Over(rows), Over(all), m)
    ensures Tile(p, Over(all), minute, step)
  {
    OverIsAdditive(rows);
    OverIsAdditive(all);
    MinuteByMinute(Over(rows), Over(all), minute, minute + step);
  }

  /** A point of a series counts exactly the events of its step, as long as the step lies in
      the last `max` minutes of the deque. */
  lemma PointIsLogged(p: Point, bs: seq<MinuteBucket>, max: nat, log: seq<Event>, minute: int, step: nat)
    requires Shaped(bs, max, log) && Tile(p, Over(Rows(bs)), minute, step)
    requires if bs == [] then log == [] else minute > bs[|bs| - 1].minute - max
    ensures Tile(p, Over(EventRows(log)), minute, step)
  {
    MinutesAreLogged(bs, max, log, minute, minute + step);
    AgreeingTile(p, Rows(bs), EventRows(log), minute, step);
  }

  /** A whole series counts exactly the events of its interval, as long as the interval starts in
      the last `max` minutes of the deque. */
  lemma SeriesIsLogged(points: seq<Point>, bs: seq<MinuteBucket>, max: nat, log: seq<Event>, start: int, step: nat)
    requires Shaped(bs, max, log) && Tiles(points, Over(Rows(bs)), start, step)
    requires if bs == [] then log == [] else start > bs[|bs| - 1].minute - max
    ensures SumPoints(points) == LogSums(log, Span(start, Cut(start, step, |points|)))
  {
    var f, g, end := Over(Rows(bs)), Over(EventRows(log)), Cut(start, step, |points|);
    OverIsAdditive(Rows(bs));
    OverIsAdditive(EventRows(log));
    SeriesConserves(points, f, start, step);
    MinutesAreLogged(bs, max, log, start, end);
    MinuteByMinute(f, g, start, end);
    EventRowsAreLogSums(log, start, end);
  }

  lemma RangeEnds(range: Range, now: int)
    ensures Cut(range.Start(now), range.Step(), range.Points()) == MinuteOf(now) + 1
  {
    CutIs(range.Start(now), range.Step(), range.Points());
  }

  lemma RangeIsLogged(points: seq<Point>, bs: seq<MinuteBucket>, max: nat, log: seq<Event>, range: Range, now: int)
    requires Shaped(bs, max, log) && |points| == range.Points()
    requires Tiles(points, Over(Rows(bs)), range.Start(now), range.Step())
    requires if bs == [] then log == [] else range.Start(now) > bs[|bs| - 1].minute - max
    ensures SumPoints(points) == LogSums(log, Span(range.Start(now), MinuteOf(now) + 1))
  {
    SeriesIsLogged(points, bs, max, log, range.Start(now), range.Step());
    RangeEnds(range, now);
  }

  /** When a range starts in the window: with the default of 1440 minutes the two shorter ranges
      always do while the deque ends with the clock, and the day does exactly when the deque does
      not run ahead of the clock. */
  lemma DayFitsOnTime(now: int, last: int)
    ensures Day.Start(now) > last - 1440 <==> last <= MinuteOf(now)
    ensures last <= MinuteOf(now) + 1 ==> Hour.Start(now) > last - 1440 && SixHours.Start(now) > last - 1440
  {
  }

  /** One minute ahead of the clock, a late report for the first minute of the day has no bucket to
      be counted in, unless the minute has one already: the series of the day misses it. */
  lemma FirstMinuteOfDayIsStale(bs: seq<MinuteBucket>, now: int)
    requires bs != [] && bs[|bs| - 1].minute == MinuteOf(now) + 1
    ensures Stale(bs, 1440, Day.Start(now)) <==> !HasMinute(bs, Day.Start(now))
  {
  }

  // ---------------------------------------------------------------- the program

  class MetricsAggregator {
    const maxMinutes: nat
    var buckets: seq<MinuteBucket>
    var totals: Traffic
    var errorTotals: map<Fault, nat>
    ghost var log: seq<Event>    // everything recorded since the last reset

    ghost predicate Valid()
      reads this, buckets
    {
      && Shaped(buckets, maxMinutes, log)
      && (maxMinutes > 0 && buckets == [] ==> log == [])
      && totals == TrafficOf(log, Always)
      && errorTotals == ErrorsOf(log)
    }

    function Last(): Option<int>
      reads this
    {
      EndOf(buckets)
    }

    constructor (maxMinutes: nat)
      ensures Valid() && this.maxMinutes == maxMinutes && log == [] && buckets == []
    {
      this.maxMinutes := maxMinutes;
      buckets, totals, errorTotals, log := [], NO_TRAFFIC, NO_ERRORS, [];
    }

    method Reset()
      modifies this
      ensures Valid() && log == [] && buckets == []
    {
      buckets, totals, errorTotals, log := [], NO_TRAFFIC, NO_ERRORS, [];
    }

    /** Whatever is new in the deque was made for it. */
    twostate predicate Grown(before: seq<MinuteBucket>)
      reads this`buckets
    {
      forall i | 0 <= i < |buckets| :: buckets[i] in before || fresh(buckets[i])
    }

    /** `_buckets.append(MinuteBucket(...))` on the bounded deque. */
    method AppendBucket(minute: int) returns (b: MinuteBucket)
      modifies this`buckets
      ensures fresh(b) && b.Blank() && b.minute == minute
      ensures buckets == Bounded(old(buckets) + [b], maxMinutes)
    {
      b := new MinuteBucket(minute);
      buckets := Bounded(buckets + [b], maxMinutes);
    }

    /** The buckets for the minutes from `start` up to `m`, appended one at a time. */
    method FillUpTo(start: int, m: int) returns (b: MinuteBucket, ghost news: seq<MinuteBucket>)
      requires start <= m && |buckets| <= maxMinutes
      modifies this`buckets
      ensures |news| > 0 && news[|news| - 1] == b && Filling(news, start) && b.minute == m
      ensures buckets == Bounded(old(buckets) + news, maxMinutes)
      ensures forall k | 0 <= k < |news| :: fresh(news[k]) && news[k].Blank()
      ensures Grown(old(buckets))
    {
      news := [];
      assert old(buckets) + [] == old(buckets);
      var cur := start;
      while cur < m
        invariant cur == start + |news| <= m
        invariant Filling(news, start)
        invariant buckets == Bounded(old(buckets) + news, maxMinutes)
        invariant forall k | 0 <= k < |news| :: fresh(news[k]) && news[k].Blank()
      {
        b := AppendBucket(cur);
        BoundedPush(old(buckets) + news, b, maxMinutes);
        assert old(buckets) + (news + [b]) == (old(buckets) + news) + [b];
        news := news + [b];
        cur := cur + 1;
      }
      b := AppendBucket(m);
      BoundedPush(old(buckets) + news, b, maxMinutes);
      assert old(buckets) + (news + [b]) == (old(buckets) + news) + [b];
      news := news + [b];
      FilledFrom(old(buckets), news, maxMinutes);
    }

    /** The branch for a minute after the last bucket: fill the gap, then append. */
    method Advance(m: int) returns (b: MinuteBucket, ghost news: seq<MinuteBucket>)
      requires Valid() && buckets != [] && m > buckets[|buckets| - 1].minute
      modifies this`buckets
      ensures Valid() && buckets != [] && buckets[|buckets| - 1] == b
      ensures HandedOut(old(buckets), buckets, maxMinutes, m, b, news)
      ensures forall x | old(buckets[|buckets| - 1].minute) < x <= m && x > m - maxMinutes :: HasMinute(buckets, x)
      ensures fresh(b) && Grown(old(buckets))
    {
      var last := buckets[|buckets| - 1].minute;
      b, news := FillUpTo(FillStart(last, m, maxMinutes), m);
      AdvanceKeeps(old(buckets), news, m, maxMinutes, log);
      FillingLeavesNoGap(old(buckets), news, m, maxMinutes);
    }

    /** The search of the late branch. */
    method Find(m: int) returns (b: MinuteBucket?)
      ensures b == null <==> !HasMinute(buckets, m)
      ensures b != null ==> b.minute == m && b in buckets
    {
      var i := |buckets|;
      while i > 0
        invariant 0 <= i <= |buckets|
        invariant forall j | i <= j < |buckets| :: buckets[j].minute != m
      {
        i := i - 1;
        if buckets[i].minute == m {
          return buckets[i];
        }
      }
      return null;
    }

    /** Sort-and-truncate of the late branch. */
    method InsertLate(m: int) returns (b: MinuteBucket)
      requires Valid() && buckets != [] && !HasMinute(buckets, m)
      requires buckets[|buckets| - 1].minute - (maxMinutes - 1) <= m < buckets[|buckets| - 1].minute
      modifies this`buckets
      ensures Valid() && fresh(b) && b in buckets && b.minute == m && Last() == old(Last())
      ensures buckets == Bounded(Insert(old(buckets), b), maxMinutes) && Grown(old(buckets))
    {
      b := new MinuteBucket(m);
      ghost var p := LateShape(buckets, b, maxMinutes, log);
      LateFaithful(buckets, b, p, maxMinutes, log);
      InsertedFrom(buckets, b, maxMinutes);
      buckets := Bounded(Insert(buckets, b), maxMinutes);
    }

    /** The first bucket of an empty deque. */
    method FirstBucket(m: int) returns (b: MinuteBucket)
      requires Valid() && buckets == [] && (maxMinutes > 0 ==> log == [])
      modifies this`buckets
      ensures Valid() && HandedOut([], buckets, maxMinutes, m, b, [])
      ensures (b in buckets || (maxMinutes == 0 && buckets == [])) && fresh(b) && Grown([])
    {
      b := AppendBucket(m);
      assert [] + [b] == [b];
      BoundedSuffix([b], maxMinutes);
    }

    /** The late branch: the minute's bucket, or a new one unless the minute is too old. */
    method FindOrInsert(m: int) returns (b: MinuteBucket?)
      requires Valid() && buckets != [] && m <= buckets[|buckets| - 1].minute
      modifies this`buckets
      ensures Valid() && HandedOut(old(buckets), buckets, maxMinutes, m, b, [])
      ensures (b == null || b in buckets) && (b == null || b in old(buckets) || fresh(b)) && Grown(old(buckets))
    {
      b := Find(m);
      if b != null || m < buckets[|buckets| - 1].minute - (maxMinutes - 1) {
        return;
      }
      b := InsertLate(m);
    }

    /** `_get_or_create_bucket`; `news` are the buckets it appends in order. */
    method GetOrCreateBucket(ts: int, now: int) returns (b: MinuteBucket?, ghost news: seq<MinuteBucket>)
      requires Valid()
      modifies this`buckets
      ensures Valid()
      ensures HandedOut(old(buckets), buckets, maxMinutes, EffectiveMinute(old(Last()), ts, now), b, news)
      ensures b == null || b in buckets || (maxMinutes == 0 && buckets == [])
      ensures (b == null || b in old(buckets) || fresh(b)) && Grown(old(buckets))
    {
      news := [];
      var m := MinuteOf(ts);
      if buckets == [] {
        b := FirstBucket(m);
        return;
      }
      var last := buckets[|buckets| - 1];
      if last.minute == m {
        b := last;
        return;
      }
      if m > MinuteOf(now) + 1 {
        m := MinuteOf(now);
      }
      if m > last.minute {
        b, news := Advance(m);
        return;
      }
      b := FindOrInsert(m);
    }

    method CountInSession(p: Option<Packet>, f: Option<Fault>, ghost m: int)
      requires totals == TrafficOf(log, Always) && errorTotals == ErrorsOf(log)
      modifies this`totals, this`errorTotals
      ensures totals == TrafficOf(log + [Event(m, p, f)], Always) && errorTotals == ErrorsOf(log + [Event(m, p, f)])
    {
      CountersAppend(log, Event(m, p, f), Always);
      if p.Some? {
        totals := CountPacket(totals, p.value);
      }
      if f.Some? {
        errorTotals := Tick(errorTotals, f.value);
      }
    }

    method CountInBucket(b: MinuteBucket, p: Option<Packet>, f: Option<Fault>, ghost log': seq<Event>)
      requires b in buckets ==> Exact(b, log)
      requires forall i | 0 <= i < |buckets| && buckets[i] != b :: Exact(buckets[i], log')
      requires Extended(b.minute, log, p, f, log')
      modifies b
      ensures Faithful(buckets, log')
    {
      b.Add(p, f);
    }

    /** The increments of `record_packet` and `record_error`, under the lock. */
    method Count(b: MinuteBucket?, p: Option<Packet>, f: Option<Fault>, ghost m: int)
      requires Valid()
      requires maxMinutes > 0 ==> buckets != [] && m <= buckets[|buckets| - 1].minute
      requires b == null ==> buckets != [] && Stale(buckets, maxMinutes, m)
      requires b != null ==> b.minute == m && (b in buckets || (maxMinutes == 0 && buckets == []))
      modifies this`totals, this`errorTotals, this`log, b
      ensures Valid() && log == old(log) + [Event(m, p, f)]
    {
      ghost var log' := log + [Event(m, p, f)];
      CountingKeeps(buckets, maxMinutes, b, log, Event(m, p, f));
      CountInSession(p, f, m);
      if b != null {
        CountInBucket(b, p, f, log');
      }
      log := log';
    }

    /** Where a report is to be counted. */
    method Locate(ts: int, now: int) returns (b: MinuteBucket?, ghost m: int)
      requires Valid()
      modifies this`buckets
      ensures Valid()
      ensures m == EffectiveMinute(old(Last()), ts, now)
      ensures maxMinutes > 0 ==> buckets != [] && m <= buckets[|buckets| - 1].minute
      ensures b == null ==> buckets != [] && Stale(buckets, maxMinutes, m)
      ensures b != null ==> b.minute == m && (b in buckets || (maxMinutes == 0 && buckets == []))
      ensures (b == null || b in old(buckets) || fresh(b)) && Grown(old(buckets))
      ensures Moved(old(buckets), buckets, maxMinutes, m)
    {
      ghost var news;
      b, news := GetOrCreateBucket(ts, now);
      m := EffectiveMinute(old(Last()), ts, now);
      HandedOutMoves(old(buckets), buckets, maxMinutes, m, b, news);
    }

    method Record(p: Option<Packet>, f: Option<Fault>, ts: int, now: int)
      requires Valid()
      modifies this, buckets
      ensures Valid() && log == old(log) + [Event(EffectiveMinute(old(Last()), ts, now), p, f)]
      ensures Grown(old(buckets))
      ensures Moved(old(buckets), buckets, maxMinutes, EffectiveMinute(old(Last()), ts, now))
      ensures maxMinutes > 0 ==> HasMinuteUnlessStale(buckets, maxMinutes, EffectiveMinute(old(Last()), ts, now))
    {
      var b, m := Locate(ts, now);
      if maxMinutes > 0 {
        GivenBucket(buckets, maxMinutes, m, b);
      }
      Count(b, p, f, m);
    }

    /** `record_packet`, with an optional error category. */
    method RecordPacket(p: Packet, error: Option<Fault>, ts: int, now: int)
      requires Valid()
      modifies this, buckets
      ensures Valid() && log == old(log) + [Event(EffectiveMinute(old(Last()), ts, now), Some(p), error)]
      ensures Grown(old(buckets))
      ensures Moved(old(buckets), buckets, maxMinutes, EffectiveMinute(old(Last()), ts, now))
      ensures maxMinutes > 0 ==> HasMinuteUnlessStale(buckets, maxMinutes, EffectiveMinute(old(Last()), ts, now))
    {
      Record(Some(p), error, ts, now);
    }

    method RecordError(category: Fault, ts: int, now: int)
      requires Valid()
      modifies this, buckets
      ensures Valid() && log == old(log) + [Event(EffectiveMinute(old(Last()), ts, now), None, Some(category))]
      ensures Grown(old(buckets))
      ensures Moved(old(buckets), buckets, maxMinutes, EffectiveMinute(old(Last()), ts, now))
      ensures maxMinutes > 0 ==> HasMinuteUnlessStale(buckets, maxMinutes, EffectiveMinute(old(Last()), ts, now))
    {
      Record(None, Some(category), ts, now);
    }

    /** The packets of the session. */
    method Packets() returns (n: nat)
      requires Valid()
      ensures n == totals.rxPackets + totals.txPackets
      ensures AllPackets(log) ==> n == |log|
    {
      if AllPackets(log) {
        EveryPacketCounts(log);
        TrafficIsLogSum(log, Always, Rx);
        TrafficIsLogSum(log, Always, Tx);
      }
      n := totals.rxPackets + totals.txPackets;
    }

    method GetTimeSeries(range: Range, now: int) returns (points: seq<Point>)
      requires Valid()
      ensures PointsOf(points, range, now)
      ensures |points| == range.Points() && Tiles(points, Over(Rows(buckets)), range.Start(now), range.Step())
      ensures forall i | 0 <= i < |points| :: points[i].isPartial <==> i == |points| - 1
      ensures SumPoints(points) == Retained(Rows(buckets), range.Start(now), MinuteOf(now) + 1)
      ensures Fits(range, now, maxMinutes) ==> SumPoints(points) == LogSums(log, Span(range.Start(now), MinuteOf(now) + 1))
    {
      var rows := Rows(buckets);
      RowsSorted(buckets);
      points := Series(rows, range, now);
      TilesArePoints(points, Over(rows), range, now);
      if Fits(range, now, maxMinutes) {
        RangeIsLogged(points, buckets, maxMinutes, log, range, now);
      }
    }

    /** The range lies in the window of the deque. */
    ghost predicate Fits(range: Range, now: int, max: nat)
      reads this
    {
      if buckets == [] then log == [] else range.Start(now) > buckets[|buckets| - 1].minute - max
    }
  }

  /** One lookup of the inner loop: what the minute holds, or nothing. */
  ghost predicate Looks(f: Interval, bucketMap: map<int, Sums>, m: int) {
    f(m, m + 1) == if m in bucketMap then bucketMap[m] else ZERO
  }

  lemma MapOfRows(rows: seq<Row>, bucketMap: map<int, Sums>, m: int)
    requires SortedRows(rows)
    requires forall k :: k in bucketMap <==> HasRow(rows, k)
    requires forall i | 0 <= i < |rows| :: rows[i].minute in bucketMap && bucketMap[rows[i].minute] == rows[i].sums
    ensures Looks(Over(rows), bucketMap, m)
  {
    if m in bucketMap {
      var i :| 0 <= i < |rows| && rows[i].minute == m;
      RetainedMinute(rows, i);
    } else {
      RetainedNothing(rows, m);
    }
  }

  /** The look-up table of the buckets, by minute. */
  method BucketMap(rows: seq<Row>) returns (bucketMap: map<int, Sums>)
    requires SortedRows(rows)
    ensures forall m :: Looks(Over(rows), bucketMap, m)
  {
    bucketMap := map i | 0 <= i < |rows| :: rows[i].minute := rows[i].sums;
    forall m
      ensures Looks(Over(rows), bucketMap, m)
    {
      MapOfRows(rows, bucketMap, m);
    }
  }

  /** The loops of `get_time_series`, outside the lock. */
  method Series(rows: seq<Row>, range: Range, now: int) returns (points: seq<Point>)
    requires SortedRows(rows)
    ensures |points| == range.Points() && Tiles(points, Over(rows), range.Start(now), range.Step())
    ensures forall i | 0 <= i < |points| :: points[i].isPartial <==> i == |points| - 1
    ensures SumPoints(points) == Retained(rows, range.Start(now), MinuteOf(now) + 1)
  {
    var bucketMap := BucketMap(rows);
    ghost var f := Over(rows);
    OverIsAdditive(rows);
    var start, step, count := range.Start(now), range.Step(), range.Points();
    points := [];
    for i := 0 to count
      invariant |points| == i && Tiles(points, f, start, step)
      invariant forall k | 0 <= k < i :: points[k].isPartial <==> k == count - 1
    {
      var slotStart := start + i * step;
      CutIs(start, step, i);
      var sums := SumSlot(f, bucketMap, slotStart, slotStart + step);
      points := points + [Point(slotStart, sums, i == count - 1)];
    }
    SeriesConserves(points, f, start, step);
    CutIs(start, step, count);
  }

  /** The inner loop: the minutes of one point. */
  method SumSlot(ghost f: Interval, bucketMap: map<int, Sums>, slotStart: int, slotEnd: int) returns (sums: Sums)
    requires Additive(f) && slotStart <= slotEnd
    requires forall m :: Looks(f, bucketMap, m)
    ensures sums == f(slotStart, slotEnd)
  {
    sums := ZERO;
    var cur := slotStart;
    assert Starts(f, cur);
    while cur < slotEnd
      invariant slotStart <= cur <= slotEnd && sums == f(slotStart, cur)
    {
      assert Splits(f, slotStart, cur, cur + 1) && Looks(f, bucketMap, cur);
      if cur in bucketMap {
        sums := sums.Plus(bucketMap[cur]);
      }
      cur := cur + 1;
    }
  }

  lemma {:induction false} NothingRetained(rows: seq<Row>, lo: int, hi: int)
    requires forall i | 0 <= i < |rows| :: rows[i].minute >= hi
    ensures Retained(rows, lo, hi) == ZERO
  {
    if rows != [] {
      NothingRetained(rows[..|rows| - 1], lo, hi);
    }
  }

  /** Nothing is retained before the floor of a deque. */
  lemma NothingBelowFloor(bs: seq<MinuteBucket>, max: nat, f: int, lo: int, hi: int)
    requires Floored(bs, max, f) && hi <= f - max + 1
    ensures Retained(Rows(bs), lo, hi) == ZERO
  {
    RowsAt(bs);
    NothingRetained(Rows(bs), lo, hi);
  }

  ghost predicate AllPackets(log: seq<Event>) {
    forall k | 0 <= k < |log| :: log[k].packet.Some?
  }

  lemma {:induction false} EveryPacketCounts(log: seq<Event>)
    requires AllPackets(log)
    ensures LogSum(log, Always, Rx) + LogSum(log, Always, Tx) == |log|
  {
    if log != [] {
      EveryPacketCounts(log[..|log| - 1]);
    }
  }

  method RecordAll(aggregator: MetricsAggregator, p: Packet, reports: seq<Report>, ghost floor: int)
    requires aggregator.Valid() && AllPackets(aggregator.log)
    requires aggregator.maxMinutes > 0 && Floored(aggregator.buckets, aggregator.maxMinutes, floor)
    modifies aggregator, aggregator.buckets
    ensures aggregator.Valid() && AllPackets(aggregator.log) && |aggregator.log| == old(|aggregator.log|) + |reports|
    ensures Floored(aggregator.buckets, aggregator.maxMinutes, floor)
  {
    if reports != [] {
      aggregator.RecordPacket(p, None, reports[0].ts, reports[0].now);
      RecordAll(aggregator, p, reports[1..], floor);
    }
  }

  lemma EndAfterOneMore(reports: seq<Report>, i: nat)
    requires i < |reports|
    ensures EndAfter(reports[..i + 1])
         == Some(Later(EndAfter(reports[..i]), EffectiveMinute(EndAfter(reports[..i]), reports[i].ts, reports[i].now)))
  {
    assert reports[..i + 1][..i] == reports[..i];
  }

  /** The deque of the program ends where the run of its reports says. */
  method RecordRun(maxMinutes: nat, p: Packet, reports: seq<Report>) returns (aggregator: MetricsAggregator)
    requires maxMinutes > 0
    ensures fresh(aggregator) && aggregator.Valid() && |aggregator.log| == |reports|
    ensures aggregator.Last() == EndAfter(reports)
  {
    aggregator := new MetricsAggregator(maxMinutes);
    for i := 0 to |reports|
      invariant fresh(aggregator) && fresh(aggregator.buckets) && aggregator.maxMinutes == maxMinutes
      invariant aggregator.Valid() && |aggregator.log| == i && aggregator.Last() == EndAfter(reports[..i])
    {
      EndAfterOneMore(reports, i);
      aggregator.RecordPacket(p, None, reports[i].ts, reports[i].now);
    }
    assert reports[..|reports|] == reports;
  }

  method StartAhead(maxMinutes: nat, p: Packet, first: Report) returns (aggregator: MetricsAggregator)
    requires maxMinutes > 0
    ensures fresh(aggregator) && fresh(aggregator.buckets) && aggregator.maxMinutes == maxMinutes
    ensures aggregator.Valid() && AllPackets(aggregator.log) && |aggregator.log| == 1
    ensures Floored(aggregator.buckets, maxMinutes, MinuteOf(first.ts))
  {
    aggregator := new MetricsAggregator(maxMinutes);
    aggregator.RecordPacket(p, None, first.ts, first.now);
  }

  method SeriesBelowFloor(aggregator: MetricsAggregator, range: Range, now: int, ghost floor: int) returns (points: seq<Point>)
    requires aggregator.Valid() && Floored(aggregator.buckets, aggregator.maxMinutes, floor)
    requires MinuteOf(now) <= floor - aggregator.maxMinutes
    ensures |points| == range.Points() && SumPoints(points) == ZERO
  {
    points := aggregator.GetTimeSeries(range, now);
    NothingBelowFloor(aggregator.buckets, aggregator.maxMinutes, floor, range.Start(now), MinuteOf(now) + 1);
  }

  /** What a first report far ahead of the clock does: whatever is reported after it, every series
      asked for `maxMinutes` or more before its date is empty, although the session counts all. */
  method SeriesAfterFirstAhead(maxMinutes: nat, p: Packet, first: Report, later: seq<Report>, range: Range, now: int)
    returns (points: seq<Point>, packets: nat)
    requires maxMinutes > 0 && MinuteOf(now) <= MinuteOf(first.ts) - maxMinutes
    ensures |points| == range.Points() && SumPoints(points) == ZERO
    ensures packets == 1 + |later|
  {
    var aggregator := StartAhead(maxMinutes, p, first);
    RecordAll(aggregator, p, later, MinuteOf(first.ts));
    points := SeriesBelowFloor(aggregator, range, now, MinuteOf(first.ts));
    packets := aggregator.Packets();
  }
}
