/** Matching radio responses to the futures that wait for them, src/admin_handler.py.  Keys and
    senders are stripped and in lower case; the registries are dictionaries in insertion order,
    and the registry's canonical key of a key is a parameter. */
module ResponseWaiters {
  import opened Common

  type Key = string

  /** A future with the attributes set on it; a registered future may be under several keys. */
  datatype Waiter = Waiter(id: nat, target: Key, commandTag: Option<string>)

  datatype Slot = Slot(key: Key, waiters: seq<Waiter>)

  type Slots = seq<Slot>

  /** `tagged` says that the text itself carried the tag. */
  datatype Response = Response(sender: Key, canonical: Key, tag: string, tagged: bool)

  type Canon = Key -> Key

  const FULL_KEY := 32

  // ---------------------------------------------------------------- what fits

  predicate MatchesKey(canon: Canon, k: Key, r: Response, forCommand: bool) {
    if (r.tag != "" && k == r.tag) || k == r.sender || canon(k) == r.canonical then true
    else if |r.canonical| >= FULL_KEY && |canon(k)| >= FULL_KEY then false
    else
      || (|k| >= 8 && k <= r.sender) || (|r.sender| >= 8 && r.sender <= k)
      || (forCommand && ((|canon(k)| >= 8 && canon(k) <= r.canonical) || (|r.canonical| >= 8 && r.canonical <= canon(k))))
  }

  predicate RightTarget(w: Waiter, r: Response) {
    !(w.target != "" && |r.canonical| >= FULL_KEY && |w.target| >= FULL_KEY && w.target != r.canonical)
  }

  predicate RightTag(w: Waiter, r: Response) {
    w.commandTag.Some? ==> r.tag == w.commandTag.value
  }

  predicate Fits(w: Waiter, r: Response) {
    RightTarget(w, r) && RightTag(w, r)
  }

  /** One key is the other or continues it, and they have at least eight digits in common. */
  ghost predicate ShareEight(a: Key, b: Key) {
    (a <= b || b <= a) && exists eight: Key :: |eight| == 8 && eight <= a && eight <= b
  }

  lemma ShareEightMeans(a: Key, b: Key)
    ensures ShareEight(a, b) <==> (|a| >= 8 && a <= b) || (|b| >= 8 && b <= a)
  {
    if |a| >= 8 && a <= b {
      assert |a[..8]| == 8 && a[..8] <= a && a[..8] <= b;
    }
    if |b| >= 8 && b <= a {
      assert |b[..8]| == 8 && b[..8] <= a && b[..8] <= b;
    }
  }

  /** Which registered keys a response concerns: its tag, its sender, a key of the same station, and,
      unless both stations are known by their full keys, one that shares eight digits. */
  lemma KeyMatchMeans(canon: Canon, k: Key, r: Response, forCommand: bool)
    ensures MatchesKey(canon, k, r, forCommand)
            <==> || (k == r.tag && k != "") || k == r.sender || canon(k) == r.canonical
                 || ((|r.canonical| < 32 || |canon(k)| < 32)
                     && (ShareEight(k, r.sender) || (forCommand && ShareEight(canon(k), r.canonical))))
  {
    ShareEightMeans(k, r.sender);
    ShareEightMeans(canon(k), r.canonical);
  }

  /** Which futures a response may resolve: untagged ones and those with its tag, unless both full
      keys are known and differ. */
  lemma FitsMeans(w: Waiter, r: Response)
    ensures Fits(w, r) <==> (w.commandTag == None || w.commandTag == Some(r.tag)) && RightTarget(w, r)
    ensures RightTarget(w, r) <==> (|w.target| >= 32 && |r.canonical| >= 32 ==> w.target == r.canonical)
  {
  }

  // ---------------------------------------------------------------- the scans

  datatype Found = Found(rest: seq<Waiter>, hit: Option<Waiter>)
  datatype Scan = Scan(slots: Slots, hit: Option<Waiter>) {
    function After(before: Slots): Scan {
      Scan(before + slots, hit)
    }
  }

  /** One list of command waiters: those that do not fit stay, those that fit but are done go,
      the first that fits and is pending is the one to resolve. */
  function ScanList(ws: seq<Waiter>, done: set<Waiter>, r: Response): Found {
    if ws == [] then Found([], None)
    else if !Fits(ws[0], r) then
      var f := ScanList(ws[1..], done, r);
      f.(rest := [ws[0]] + f.rest)
    else if ws[0] in done then ScanList(ws[1..], done, r)
    else Found(ws[1..], Some(ws[0]))
  }

  /** One list of ping waiters: whatever is passed over goes. */
  function ScanPings(ws: seq<Waiter>, done: set<Waiter>, r: Response): Found {
    if ws == [] then Found([], None)
    else if !RightTarget(ws[0], r) || ws[0] in done then ScanPings(ws[1..], done, r)
    else Found(ws[1..], Some(ws[0]))
  }

  function Slotted(k: Key, ws: seq<Waiter>): Slots {
    if ws == [] then [] else [Slot(k, ws)]
  }

  function ScanPingSlots(canon: Canon, slots: Slots, done: set<Waiter>, r: Response): Scan {
    if slots == [] then Scan([], None)
    else if !MatchesKey(canon, slots[0].key, r, false) then
      var s := ScanPingSlots(canon, slots[1..], done, r);
      s.After([slots[0]])
    else
      var f := ScanPings(slots[0].waiters, done, r);
      if f.hit.Some? then Scan(Slotted(slots[0].key, f.rest) + slots[1..], f.hit)
      else
        var s := ScanPingSlots(canon, slots[1..], done, r);
        s.After(Slotted(slots[0].key, f.rest))
  }

  /** The scan over the command slots.  It stops after the first matching slot when a ping waiter
      was already resolved (`matched`), found or not. */
  function ScanSlots(canon: Canon, slots: Slots, done: set<Waiter>, r: Response, matched: bool): Scan {
    if slots == [] then Scan([], None)
    else if !MatchesKey(canon, slots[0].key, r, true) then
      var s := ScanSlots(canon, slots[1..], done, r, matched);
      s.After([slots[0]])
    else
      var f := ScanList(slots[0].waiters, done, r);
      if f.hit.Some? || matched then Scan(Slotted(slots[0].key, f.rest) + slots[1..], f.hit)
      else
        var s := ScanSlots(canon, slots[1..], done, r, matched);
        s.After(Slotted(slots[0].key, f.rest))
  }

  // ---------------------------------------------------------------- what the scans keep

  /** The waiters of a list that are still pending. */
  function Pending(ws: seq<Waiter>, done: set<Waiter>): seq<Waiter> {
    if ws == [] then []
    else if ws[0] in done then Pending(ws[1..], done)
    else [ws[0]] + Pending(ws[1..], done)
  }

  /** The pending waiters of every slot, in order; slots with none of them leave no trace. */
  function PendingSlots(slots: Slots, done: set<Waiter>): Slots {
    if slots == [] then []
    else Slotted(slots[0].key, Pending(slots[0].waiters, done)) + PendingSlots(slots[1..], done)
  }

  function Resolved(done: set<Waiter>, hit: Option<Waiter>): set<Waiter> {
    if hit.Some? then done + {hit.value} else done
  }

  lemma {:induction false} ScanListKeeps(ws: seq<Waiter>, done: set<Waiter>, r: Response)
    ensures var f := ScanList(ws, done, r);
            var done' := Resolved(done, f.hit);
            && Pending(f.rest, done') == Pending(ws, done')
            && (f.hit.Some? ==> f.hit.value in ws && f.hit.value !in done && Fits(f.hit.value, r))
            && (f.hit.None? ==> forall w | w in ws && Fits(w, r) :: w in done)
  {
    if ws != [] {
      ScanListKeeps(ws[1..], done, r);
    }
  }

  lemma PendingSlotted(k: Key, ws: seq<Waiter>, rest: Slots, done: set<Waiter>)
    ensures PendingSlots(Slotted(k, ws) + rest, done) == Slotted(k, Pending(ws, done)) + PendingSlots(rest, done)
  {
    if ws == [] {
      assert Slotted(k, ws) + rest == rest;
    } else {
      assert (Slotted(k, ws) + rest)[1..] == rest;
    }
  }

  /** A command response leaves every waiter that is still pending afterwards registered, under
      the same keys and in the same order. */
  lemma {:induction false} ScanSlotsKeeps(canon: Canon, slots: Slots, done: set<Waiter>, r: Response, matched: bool)
    ensures var s := ScanSlots(canon, slots, done, r, matched);
            var done' := Resolved(done, s.hit);
            PendingSlots(s.slots, done') == PendingSlots(slots, done')
  {
    if slots != [] {
      var k, ws, rest := slots[0].key, slots[0].waiters, slots[1..];
      ScanSlotsKeeps(canon, rest, done, r, matched);
      ScanListKeeps(ws, done, r);
      var s := ScanSlots(canon, rest, done, r, matched);
      var done' := Resolved(done, s.hit);
      if !MatchesKey(canon, k, r, true) {
        assert ([slots[0]] + s.slots)[1..] == s.slots;
      } else {
        var f := ScanList(ws, done, r);
        if f.hit.Some? || matched {
          PendingSlotted(k, f.rest, rest, Resolved(done, f.hit));
        } else {
          NoHitNoPending(ws, done, r, done');
          PendingSlotted(k, f.rest, s.slots, done');
        }
      }
    }
  }

  lemma {:induction false} NoHitNoPending(ws: seq<Waiter>, done: set<Waiter>, r: Response, done': set<Waiter>)
    requires ScanList(ws, done, r).hit.None? && done <= done'
    ensures Pending(ScanList(ws, done, r).rest, done') == Pending(ws, done')
  {
    if ws != [] {
      NoHitNoPending(ws[1..], done, r, done');
    }
  }

  /** Some waiter of the slot is pending and fits. */
  ghost predicate Awaited(slot: Slot, done: set<Waiter>, r: Response) {
    exists w :: w in slot.waiters && w !in done && Fits(w, r)
  }

  ghost predicate FirstMatch(canon: Canon, slots: Slots, r: Response, i: nat) {
    && i < |slots| && MatchesKey(canon, slots[i].key, r, true)
    && forall j | 0 <= j < i :: !MatchesKey(canon, slots[j].key, r, true)
  }

  /** Which responses find a command waiter: any matching slot will do, except that after a
      resolved ping only the first matching slot is looked at. */
  lemma {:induction false} ScanFindsExactly(canon: Canon, slots: Slots, done: set<Waiter>, r: Response, matched: bool)
    ensures ScanSlots(canon, slots, done, r, matched).hit.Some? <==>
              exists i :: 0 <= i < |slots| && MatchesKey(canon, slots[i].key, r, true) && Awaited(slots[i], done, r)
                          && (matched ==> FirstMatch(canon, slots, r, i))
  {
    if slots != [] {
      var rest := slots[1..];
      ScanFindsExactly(canon, rest, done, r, matched);
      ScanListKeeps(slots[0].waiters, done, r);
      var f := ScanList(slots[0].waiters, done, r);
      assert f.hit.Some? <==> Awaited(slots[0], done, r) by {
        if f.hit.Some? {
          assert f.hit.value in slots[0].waiters && f.hit.value !in done;
        }
      }
      forall i | 0 <= i < |rest|
        ensures rest[i] == slots[i + 1]
        ensures !MatchesKey(canon, slots[0].key, r, true) ==> (FirstMatch(canon, rest, r, i) <==> FirstMatch(canon, slots, r, i + 1))
      {
        if !MatchesKey(canon, slots[0].key, r, true) {
          FirstMatchShift(canon, slots, r, i);
        }
      }
    }
  }

  lemma FirstMatchShift(canon: Canon, slots: Slots, r: Response, i: nat)
    requires slots != [] && i < |slots| - 1 && !MatchesKey(canon, slots[0].key, r, true)
    ensures FirstMatch(canon, slots[1..], r, i) <==> FirstMatch(canon, slots, r, i + 1)
  {
  }

  lemma {:induction false} HitFits(canon: Canon, slots: Slots, done: set<Waiter>, r: Response, matched: bool)
    ensures var s := ScanSlots(canon, slots, done, r, matched);
            s.hit.Some? ==> s.hit.value !in done && Fits(s.hit.value, r)
  {
    if slots != [] {
      HitFits(canon, slots[1..], done, r, matched);
      ScanListKeeps(slots[0].waiters, done, r);
    }
  }

  /** The waiters that do not fit. */
  function Unfit(ws: seq<Waiter>, r: Response): seq<Waiter> {
    if ws == [] then [] else (if Fits(ws[0], r) then [] else [ws[0]]) + Unfit(ws[1..], r)
  }

  ghost predicate FirstFit(ws: seq<Waiter>, done: set<Waiter>, r: Response, j: nat) {
    && j < |ws| && ws[j] !in done && Fits(ws[j], r)
    && forall i | 0 <= i < j :: ws[i] in done || !Fits(ws[i], r)
  }

  /** A list gives up its first pending waiter that fits, and with it the done ones before it. */
  lemma {:induction false} ListGivesUpFirst(ws: seq<Waiter>, done: set<Waiter>, r: Response, j: nat)
    requires FirstFit(ws, done, r, j)
    ensures ScanList(ws, done, r) == Found(Unfit(ws[..j], r) + ws[j + 1..], Some(ws[j]))
  {
    if j > 0 {
      FirstFitAfter(ws, done, r, j);
      ListGivesUpFirst(ws[1..], done, r, j - 1);
      assert ws[..j][1..] == ws[1..][..j - 1];
    }
  }

  lemma FirstFitAfter(ws: seq<Waiter>, done: set<Waiter>, r: Response, j: nat)
    requires ws != [] && 0 < j && (!Fits(ws[0], r) || ws[0] in done)
    ensures FirstFit(ws, done, r, j) <==> FirstFit(ws[1..], done, r, j - 1)
    ensures j < |ws| ==> ws[1..][j - 1] == ws[j] && ws[1..][j..] == ws[j + 1..]
  {
    assert forall i | 0 < i < |ws| :: ws[i] == ws[1..][i - 1];
  }

  lemma {:induction false} ListHitIsFirst(ws: seq<Waiter>, done: set<Waiter>, r: Response) returns (j: nat)
    ensures var f := ScanList(ws, done, r);
            && (f.hit.Some? ==> FirstFit(ws, done, r, j) && f.hit == Some(ws[j]))
            && (f.hit.None? ==> f.rest == Unfit(ws, r))
  {
    j := 0;
    if ws != [] && (!Fits(ws[0], r) || ws[0] in done) {
      j := ListHitIsFirst(ws[1..], done, r);
      j := j + 1;
      FirstFitAfter(ws, done, r, j);
    }
  }

  /** The first matching slot that has a pending waiter that fits, and its first such waiter. */
  ghost predicate FirstAt(canon: Canon, slots: Slots, done: set<Waiter>, r: Response, i: nat, j: nat) {
    && i < |slots| && MatchesKey(canon, slots[i].key, r, true) && FirstFit(slots[i].waiters, done, r, j)
    && forall i' | 0 <= i' < i :: !MatchesKey(canon, slots[i'].key, r, true) || !Awaited(slots[i'], done, r)
  }

  /** The command waiter that is resolved is the first in line. */
  lemma {:induction false} HitIsFirst(canon: Canon, slots: Slots, done: set<Waiter>, r: Response, matched: bool)
    returns (i: nat, j: nat)
    ensures var s := ScanSlots(canon, slots, done, r, matched);
            s.hit.Some? ==> FirstAt(canon, slots, done, r, i, j) && s.hit == Some(slots[i].waiters[j])
  {
    i, j := 0, 0;
    if slots != [] {
      if MatchesKey(canon, slots[0].key, r, true) && ScanList(slots[0].waiters, done, r).hit.Some? {
        j := ListHitIsFirst(slots[0].waiters, done, r);
      } else if ScanSlots(canon, slots, done, r, matched).hit.Some? {
        ScanListKeeps(slots[0].waiters, done, r);
        i, j := HitIsFirst(canon, slots[1..], done, r, matched);
        LaterIsFirst(canon, slots, done, r, i, j);
        i := i + 1;
      }
    }
  }

  lemma LaterIsFirst(canon: Canon, slots: Slots, done: set<Waiter>, r: Response, i: nat, j: nat)
    requires slots != [] && FirstAt(canon, slots[1..], done, r, i, j)
    requires !MatchesKey(canon, slots[0].key, r, true) || !Awaited(slots[0], done, r)
    ensures FirstAt(canon, slots, done, r, i + 1, j) && slots[i + 1] == slots[1..][i]
  {
    assert forall k | 0 < k < |slots| :: slots[k] == slots[1..][k - 1];
  }

  lemma {:induction false} PingHitFits(canon: Canon, slots: Slots, done: set<Waiter>, r: Response)
    ensures var s := ScanPingSlots(canon, slots, done, r);
            s.hit.Some? ==> s.hit.value !in done && RightTarget(s.hit.value, r)
  {
    if slots != [] {
      PingHitFits(canon, slots[1..], done, r);
      PingListHitFits(slots[0].waiters, done, r);
    }
  }

  lemma {:induction false} PingListHitFits(ws: seq<Waiter>, done: set<Waiter>, r: Response)
    ensures var f := ScanPings(ws, done, r);
            && (f.hit.Some? ==> f.hit.value !in done && RightTarget(f.hit.value, r))
            && (f.hit.Some? <==> exists w :: w in ws && w !in done && RightTarget(w, r))
  {
    if ws != [] {
      PingListHitFits(ws[1..], done, r);
      assert forall w | w in ws :: w == ws[0] || w in ws[1..];
    }
  }

  /** A list of pings gives up its first pending one for the sender, and whatever stood before it. */
  lemma {:induction false} PingListHitIsFirst(ws: seq<Waiter>, done: set<Waiter>, r: Response) returns (j: nat)
    ensures var f := ScanPings(ws, done, r);
            && (f.hit.Some? ==>
                  && j < |ws| && ws[j] !in done && RightTarget(ws[j], r) && f == Found(ws[j + 1..], Some(ws[j]))
                  && forall i | 0 <= i < j :: ws[i] in done || !RightTarget(ws[i], r))
            && (f.hit.None? ==> f.rest == [])
  {
    j := 0;
    if ws != [] && (!RightTarget(ws[0], r) || ws[0] in done) {
      j := PingListHitIsFirst(ws[1..], done, r);
      j := j + 1;
      assert forall i | 0 < i < |ws| :: ws[i] == ws[1..][i - 1];
    }
  }

  /** Some ping of the slot is pending and addressed to the sender. */
  ghost predicate PingAwaited(slot: Slot, done: set<Waiter>, r: Response) {
    exists w :: w in slot.waiters && w !in done && RightTarget(w, r)
  }

  ghost predicate PingAnswered(canon: Canon, slots: Slots, done: set<Waiter>, r: Response) {
    exists i :: 0 <= i < |slots| && MatchesKey(canon, slots[i].key, r, false) && PingAwaited(slots[i], done, r)
  }

  /** A ping is resolved exactly when some matching key holds a pending one for the sender. */
  lemma {:induction false} PingScanFindsExactly(canon: Canon, slots: Slots, done: set<Waiter>, r: Response)
    ensures ScanPingSlots(canon, slots, done, r).hit.Some? <==> PingAnswered(canon, slots, done, r)
  {
    if slots != [] {
      var rest := slots[1..];
      PingScanFindsExactly(canon, rest, done, r);
      PingListHitFits(slots[0].waiters, done, r);
      assert forall i | 0 <= i < |rest| :: rest[i] == slots[i + 1];
      if i :| 0 <= i < |rest| && MatchesKey(canon, rest[i].key, r, false) && PingAwaited(rest[i], done, r) {
        assert PingAwaited(slots[i + 1], done, r);
      }
    }
  }

  // ---------------------------------------------------------------- the whole notification

  function PingPart(canon: Canon, pings: Slots, done: set<Waiter>, r: Response): Scan {
    if r.sender == "" || r.tagged then Scan(pings, None) else ScanPingSlots(canon, pings, done, r)
  }

  function CommandPart(canon: Canon, cmds: Slots, done: set<Waiter>, r: Response, matched: bool): Scan {
    if r.sender == "" then Scan(cmds, None) else ScanSlots(canon, cmds, done, r, matched)
  }

  /** One response resolves at most one ping waiter and at most one command waiter, both pending
      before; a command waiter that is resolved has the response's tag if it has one and, where
      both keys are full, is addressed to the sender; and every command waiter that is pending
      afterwards is still registered, in its place. */
  lemma NotificationKeeps(canon: Canon, pings: Slots, cmds: Slots, done: set<Waiter>, r: Response)
    ensures var p := PingPart(canon, pings, done, r);
            var done1 := Resolved(done, p.hit);
            var c := CommandPart(canon, cmds, done1, r, p.hit.Some?);
            var done2 := Resolved(done1, c.hit);
            && (p.hit.Some? ==> !r.tagged && p.hit.value !in done && RightTarget(p.hit.value, r))
            && (c.hit.Some? ==>
                  && c.hit.value !in done1 && c.hit != p.hit
                  && (c.hit.value.commandTag.Some? ==> r.tag == c.hit.value.commandTag.value)
                  && (|c.hit.value.target| >= FULL_KEY && |r.canonical| >= FULL_KEY ==> c.hit.value.target == r.canonical))
            && PendingSlots(c.slots, done2) == PendingSlots(cmds, done2)
  {
    PingHitFits(canon, pings, done, r);
    var p := PingPart(canon, pings, done, r);
    HitFits(canon, cmds, Resolved(done, p.hit), r, p.hit.Some?);
    ScanSlotsKeeps(canon, cmds, Resolved(done, p.hit), r, p.hit.Some?);
  }

  ghost predicate CommandAwaited(canon: Canon, cmds: Slots, done: set<Waiter>, r: Response) {
    exists i :: 0 <= i < |cmds| && MatchesKey(canon, cmds[i].key, r, true) && Awaited(cmds[i], done, r)
  }

  ghost predicate FirstAwaited(canon: Canon, cmds: Slots, done: set<Waiter>, r: Response) {
    exists i :: 0 <= i < |cmds| && MatchesKey(canon, cmds[i].key, r, true) && Awaited(cmds[i], done, r)
                && FirstMatch(canon, cmds, r, i)
  }

  /** When a response leaves behind a command waiter that it fits: exactly when it also answers a
      ping, and the first command key that it matches holds no waiter that it fits. */
  lemma LeftBehindWhen(canon: Canon, pings: Slots, cmds: Slots, done: set<Waiter>, r: Response)
    requires r.sender != ""
    ensures var p := PingPart(canon, pings, done, r);
            var done1 := Resolved(done, p.hit);
            var c := CommandPart(canon, cmds, done1, r, p.hit.Some?);
            CommandAwaited(canon, cmds, done1, r) ==>
              (c.hit.None? <==>
                 !r.tagged && PingAnswered(canon, pings, done, r) && !FirstAwaited(canon, cmds, done1, r))
  {
    PingScanFindsExactly(canon, pings, done, r);
    var p := PingPart(canon, pings, done, r);
    ScanFindsExactly(canon, cmds, Resolved(done, p.hit), r, p.hit.Some?);
  }

  const SENDER: Key := "aabbccdd11223344"

  const NO_CANON: Canon := k => k

  /** It happens: a station is asked for a ping and for two commands, one of them tagged and under a
      shorter key.  Its untagged answer resolves the ping, looks at the tagged command only, and
      leaves the plain one waiting; without the ping it would have resolved the plain one. */
  lemma PingHidesCommandWaiter()
    ensures var r := Response(SENDER, SENDER, "", false);
            var ping, tagged, plain := Waiter(0, SENDER, None), Waiter(1, SENDER, Some("01")), Waiter(2, SENDER, None);
            var cmds := [Slot("aabbccdd", [tagged]), Slot(SENDER, [plain])];
            var p := PingPart(NO_CANON, [Slot(SENDER, [ping])], {}, r);
            && p.hit == Some(ping)
            && CommandPart(NO_CANON, cmds, Resolved({}, p.hit), r, p.hit.Some?).hit == None
            && CommandPart(NO_CANON, cmds, {}, r, false).hit == Some(plain)
  {
    var r := Response(SENDER, SENDER, "", false);
    var ping, tagged, plain := Waiter(0, SENDER, None), Waiter(1, SENDER, Some("01")), Waiter(2, SENDER, None);
    var cmds, rest := [Slot("aabbccdd", [tagged]), Slot(SENDER, [plain])], [Slot(SENDER, [plain])];
    assert "aabbccdd" <= SENDER;
    assert MatchesKey(NO_CANON, "aabbccdd", r, true) && MatchesKey(NO_CANON, SENDER, r, true);
    assert cmds[1..] == rest && [tagged][1..] == [] && !Fits(tagged, r) && Fits(plain, r);
    ScanListKeeps([tagged], {}, r);
    ScanListKeeps([tagged], {ping}, r);
    assert ScanList([plain], {}, r).hit == Some(plain);
    assert ScanSlots(NO_CANON, rest, {}, r, false).hit == Some(plain);
    assert ScanSlots(NO_CANON, cmds, {}, r, false).hit == Some(plain);
    var pings := [Slot(SENDER, [ping])];
    assert MatchesKey(NO_CANON, pings[0].key, r, false) && RightTarget(ping, r) && pings[0].waiters == [ping];
    assert ScanPings([ping], {}, r).hit == Some(ping);
    assert ScanPingSlots(NO_CANON, pings, {}, r).hit == Some(ping);
    assert Resolved({}, Some(ping)) == {ping};
    assert ScanSlots(NO_CANON, cmds, {ping}, r, true).hit == None;
  }

  // ---------------------------------------------------------------- the program

  lemma AfterAfter(s: Scan, a: Slots, b: Slots)
    ensures s.After(b).After(a) == s.After(a + b)
  {
  }

  /** The loop over one list of ping waiters. */
  method PopPings(waiters: seq<Waiter>, done: set<Waiter>, r: Response) returns (rest: seq<Waiter>, hit: Option<Waiter>)
    ensures Found(rest, hit) == ScanPings(waiters, done, r)
  {
    rest, hit := waiters, None;
    while rest != []
      invariant hit.None? && ScanPings(rest, done, r) == ScanPings(waiters, done, r)
      decreases |rest|
    {
      var fut := rest[0];
      rest := rest[1..];
      if !RightTarget(fut, r) {
        continue;
      }
      if fut !in done {
        hit := Some(fut);
        return;
      }
    }
  }

  /** The loop over one list of command waiters. */
  method TakeCommand(waiters: seq<Waiter>, done: set<Waiter>, r: Response) returns (rest: seq<Waiter>, hit: Option<Waiter>)
    ensures Found(rest, hit) == ScanList(waiters, done, r)
  {
    rest, hit := [], None;
    var i := 0;
    while i < |waiters|
      invariant 0 <= i <= |waiters| && hit.None?
      invariant ScanList(waiters, done, r)
             == Found(rest + ScanList(waiters[i..], done, r).rest, ScanList(waiters[i..], done, r).hit)
    {
      var fut := waiters[i];
      assert waiters[i..][1..] == waiters[i + 1..];
      if !RightTarget(fut, r) || !RightTag(fut, r) {
        rest := rest + [fut];
      } else if fut !in done {
        hit := Some(fut);
        rest := rest + waiters[i + 1..];
        return;
      }
      i := i + 1;
    }
  }

  /** The loop over the ping slots. */
  method PingLoop(canon: Canon, slots: Slots, done: set<Waiter>, r: Response) returns (s: Scan)
    ensures s == ScanPingSlots(canon, slots, done, r)
  {
    var checked: Slots := [];
    var todo := slots;
    while todo != []
      invariant ScanPingSlots(canon, slots, done, r) == ScanPingSlots(canon, todo, done, r).After(checked)
      decreases |todo|
    {
      var slot := todo[0];
      ghost var later := ScanPingSlots(canon, todo[1..], done, r);
      if MatchesKey(canon, slot.key, r, false) {
        var rest, hit := PopPings(slot.waiters, done, r);
        if hit.Some? {
          AfterAfter(Scan(todo[1..], hit), checked, Slotted(slot.key, rest));
          return Scan(checked + Slotted(slot.key, rest) + todo[1..], hit);
        }
        AfterAfter(later, checked, Slotted(slot.key, rest));
        checked := checked + Slotted(slot.key, rest);
      } else {
        AfterAfter(later, checked, [slot]);
        checked := checked + [slot];
      }
      todo := todo[1..];
    }
    return Scan(checked, None);
  }

  /** The loop over the command slots. */
  method CommandLoop(canon: Canon, slots: Slots, done: set<Waiter>, r: Response, matched: bool) returns (s: Scan)
    ensures s == ScanSlots(canon, slots, done, r, matched)
  {
    var checked: Slots := [];
    var todo := slots;
    while todo != []
      invariant ScanSlots(canon, slots, done, r, matched) == ScanSlots(canon, todo, done, r, matched).After(checked)
      decreases |todo|
    {
      var slot := todo[0];
      ghost var later := ScanSlots(canon, todo[1..], done, r, matched);
      if MatchesKey(canon, slot.key, r, true) {
        var rest, hit := TakeCommand(slot.waiters, done, r);
        if hit.Some? || matched {
          AfterAfter(Scan(todo[1..], hit), checked, Slotted(slot.key, rest));
          return Scan(checked + Slotted(slot.key, rest) + todo[1..], hit);
        }
        AfterAfter(later, checked, Slotted(slot.key, rest));
        checked := checked + Slotted(slot.key, rest);
      } else {
        AfterAfter(later, checked, [slot]);
        checked := checked + [slot];
      }
      todo := todo[1..];
    }
    return Scan(checked, None);
  }

  class AdminHandler {
    const canon: Canon
    var pingWaiters: Slots
    var cmdWaiters: Slots
    var done: set<Waiter>      // the futures that answer `done()`

    constructor (canon: Canon)
      ensures this.canon == canon && pingWaiters == [] && cmdWaiters == [] && done == {}
    {
      this.canon := canon;
      pingWaiters, cmdWaiters, done := [], [], {};
    }

    method NotifyPingResponse(r: Response) returns (matched: bool)
      modifies this`pingWaiters, this`done
      ensures var s := if r.sender == "" then Scan(old(pingWaiters), None) else ScanPingSlots(canon, old(pingWaiters), old(done), r);
              matched == s.hit.Some? && pingWaiters == s.slots && done == Resolved(old(done), s.hit)
    {
      if r.sender == "" || pingWaiters == [] {
        return false;
      }
      var s := PingLoop(canon, pingWaiters, done, r);
      pingWaiters := s.slots;
      done := Resolved(done, s.hit);
      return s.hit.Some?;
    }

    method NotifyCommandResponse(r: Response) returns (matched: bool)
      modifies this
      ensures var p := PingPart(canon, old(pingWaiters), old(done), r);
              var c := CommandPart(canon, old(cmdWaiters), Resolved(old(done), p.hit), r, p.hit.Some?);
              && matched == (p.hit.Some? || c.hit.Some?)
              && pingWaiters == p.slots && cmdWaiters == c.slots
              && done == Resolved(Resolved(old(done), p.hit), c.hit)
    {
      matched := false;
      if !r.tagged {
        matched := NotifyPingResponse(r);
      }
      if r.sender == "" || cmdWaiters == [] {
        return;
      }
      var s := CommandLoop(canon, cmdWaiters, done, r, matched);
      cmdWaiters := s.slots;
      done := Resolved(done, s.hit);
      matched := matched || s.hit.Some?;
    }
  }
}
