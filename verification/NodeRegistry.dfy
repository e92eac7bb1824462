/** The contact directory of src/contact_manager.py: keys that are prefixes of one another are
    merged, and the station's own entry is kept unique.  Keys are stripped and in lower case.
    Of a contact, the fields that these operations read are kept: key, name, role (in upper
    case), local flag and last sighting. */
module NodeRegistry {
  import opened Common

  type Key = string

  datatype Role = Local | Client | Repeater | Router | OtherRole(name: string)

  datatype Node = Node(publicKey: Key, name: string, role: Role, isLocal: bool, lastSeen: int)

  /** The fields of an update; `heard` says that it carries a signal reading. */
  datatype Update = Update(name: string, role: Option<Role>, isLocal: Option<bool>, lastSeen: Option<int>, heard: bool)

  datatype Registry = Registry(nodes: map<Key, Node>, local: Key)

  const EMPTY := Registry(map[], "")

  // ---------------------------------------------------------------- keys

  const INVALID_NODE_KEYS: set<Key> :=
    {"unknown", "broadcast", "none", "null", "system", "00000000", "000000000000", "ffff", "0xffff", ""}

  predicate IsHex(k: Key) {
    forall i | 0 <= i < |k| :: '0' <= k[i] <= '9' || 'a' <= k[i] <= 'f'
  }

  predicate IsValidKey(k: Key) {
    && k !in INVALID_NODE_KEYS && |k| >= 4
    && (k == "local" || (!("unknow" <= k) && !("broadcast" <= k) && !("0x0000" <= k) && IsHex(k)))
  }

  predicate IsLocalKey(local: Key, k: Key) {
    && k != ""
    && (k == "local" || k == "000000000000" ||
        (local != "" && (k == local || (|local| >= 6 && |k| >= 6 && (k <= local || local <= k)))))
  }

  /** The test for a local entry, by flag, key or role. */
  predicate IsLocalEntry(r: Registry, k: Key)
    requires k in r.nodes
  {
    r.nodes[k].isLocal || IsLocalKey(r.local, k) || r.nodes[k].role == Local
  }

  function LocalEntries(r: Registry): set<Key> {
    set k | k in r.nodes && IsLocalEntry(r, k)
  }

  function PrefixMatches(nodes: map<Key, Node>, k: Key): set<Key> {
    set x | x in nodes && (x < k || k < x)
  }

  /** `_find_existing_key` for a key: the key itself, or the one key it shares a prefix with. */
  ghost function Existing(nodes: map<Key, Node>, k: Key): Option<Key> {
    if k in nodes then Some(k)
    else if IsValidKey(k) && |PrefixMatches(nodes, k)| == 1 then Some(Only(PrefixMatches(nodes, k)))
    else None
  }

  ghost function Only(s: set<Key>): (k: Key)
    requires |s| == 1
    ensures s == {k}
  {
    var k :| k in s;
    assert |s - {k}| == 0;
    k
  }

  // ---------------------------------------------------------------- add_or_update

  predicate Flagged(r: Registry, k: Key, u: Update) {
    IsLocalKey(r.local, k) || u.isLocal == Some(true) || u.role == Some(Local)
  }

  function Prefix(k: Key, n: nat): string {
    if |k| <= n then k else k[..n]
  }

  function Max(a: int, b: int): int {
    if a >= b then a else b
  }

  /** An empty role counts as none. */
  function RoleOrClient(role: Role): Role {
    if role == OtherRole("") then Client else role
  }

  function Build(canonical: Key, u: Update, existing: Option<Node>, flag: bool, now: int): Node {
    Node(
      canonical,
      if u.name != "" then u.name else if existing.Some? then existing.value.name else "Node_" + Prefix(canonical, 6),
      if flag then Local else if u.role.Some? then u.role.value else if existing.Some? then RoleOrClient(existing.value.role) else Client,
      flag,
      if u.lastSeen.Some? then
        if existing.Some? && existing.value.lastSeen > 0 then Max(existing.value.lastSeen, u.lastSeen.value) else u.lastSeen.value
      else if flag || u.heard then now
      else if existing.Some? && existing.value.lastSeen > 0 then existing.value.lastSeen
      else 0)
  }

  function Get(nodes: map<Key, Node>, k: Option<Key>): Option<Node> {
    if k.Some? && k.value in nodes then Some(nodes[k.value]) else None
  }

  /** The entry a local update continues; there is at most one. */
  ghost function TheLocal(r: Registry): Option<Key> {
    if |LocalEntries(r)| == 1 then Some(Only(LocalEntries(r))) else None
  }

  function LocalHome(r: Registry, k: Key): Key {
    if r.local != "" && |r.local| >= |k| then r.local else k
  }

  function MergedKey(k: Key, existing: Option<Key>): Key {
    if existing.Some? && |existing.value| > |k| then existing.value else k
  }

  ghost function AddLocal(r: Registry, k: Key, u: Update, now: int): Registry {
    var home := LocalHome(r, k);
    r.(nodes := (r.nodes - (LocalEntries(r) - {home}))[home := Build(home, u, Get(r.nodes, TheLocal(r)), true, now)])
  }

  ghost function AddOther(r: Registry, k: Key, u: Update, now: int): Registry {
    var ek := Existing(r.nodes, k);
    var home := MergedKey(k, ek);
    var kept := if ek.Some? then r.nodes - {ek.value} else r.nodes;
    r.(nodes := kept[home := Build(home, u, Get(r.nodes, ek), false, now)])
  }

  ghost function Added(r: Registry, k: Key, u: Update, now: int): Registry {
    if !IsValidKey(k) then r
    else if Flagged(r, k, u) then AddLocal(r, k, u, now)
    else AddOther(r, k, u, now)
  }

  // ---------------------------------------------------------------- the other operations

  /** `set_local_pubkey`; when several entries turn out local, the fields are those of `primary`. */
  function WithLocal(r: Registry, key: Key, primary: Key): Registry {
    var r1 := r.(local := key);
    var locals := LocalEntries(r1);
    if key == "" || primary !in locals then r1
    else r1.(nodes := (r1.nodes - locals)[key := r1.nodes[primary].(publicKey := key, role := Local, isLocal := true)])
  }

  datatype Event = Event(key: Key, name: string, role: Role, lastSeen: Option<int>, isImport: bool, heard: bool)

  /** The `add_or_update` call that `discover_node` makes for a valid key. */
  ghost function Discovery(r: Registry, e: Event, now: int): (Key, Update) {
    var name := if e.name != "" then e.name else "Node_" + Prefix(e.key, 6);
    var seen := if e.lastSeen.Some? then e.lastSeen else if e.isImport then None else Some(now);
    var ek := Existing(r.nodes, e.key);
    if IsLocalKey(r.local, e.key) then
      (e.key, Update(name, Some(Local), Some(true), None, false))
    else if ek.Some? then
      (MergedKey(e.key, ek),
       Update(if ek.value in r.nodes && e.name == r.nodes[ek.value].name then "" else e.name,
              Some(RoleOrClient(e.role)), None, seen, e.heard))
    else
      (e.key, Update(name, Some(RoleOrClient(e.role)), None, if seen.Some? then seen else Some(0), e.heard))
  }

  ghost function Discovered(r: Registry, e: Event, now: int): Registry {
    if !IsValidKey(e.key) then r
    else
      var (k, u) := Discovery(r, e, now);
      Added(r, k, u, now)
  }

  /** The `add_or_update` call of the registry's `record_packet`. */
  ghost function Recording(r: Registry, k: Key, isRx: bool, heard: bool, now: int): (Key, Update) {
    var ek := Existing(r.nodes, k);
    var target := MergedKey(k, ek);
    (target, Update(if ek.Some? && ek.value in r.nodes then r.nodes[ek.value].name else "Node_" + Prefix(target, 6),
                    None, None, if isRx then Some(now) else None, isRx && heard))
  }

  ghost function Recorded(r: Registry, k: Key, isRx: bool, heard: bool, now: int): Registry {
    if !IsValidKey(k) || (IsLocalKey(r.local, k) && isRx) then r
    else
      var (x, u) := Recording(r, k, isRx, heard, now);
      Added(r, x, u, now)
  }

  ghost function Accepted(r: Registry, k: Key, now: int): Registry {
    var ek := Existing(r.nodes, k);
    if ek == None then r else Added(r, ek.value, Update("", None, None, None, false), now)
  }

  ghost function Removed(r: Registry, k: Key): Registry {
    if !IsValidKey(k) then r
    else
      var ek := Existing(r.nodes, k);
      r.(nodes := r.nodes - {if ek.Some? then ek.value else k})
  }

  function Inactive(r: Registry, maxIdle: int, now: int): set<Key> {
    set k | k in r.nodes && r.nodes[k].lastSeen > 0 && now - r.nodes[k].lastSeen > maxIdle && !IsLocalEntry(r, k)
  }

  function Cleaned(r: Registry, maxIdle: int, now: int): Registry {
    r.(nodes := r.nodes - Inactive(r, maxIdle, now))
  }

  // ---------------------------------------------------------------- runs

  datatype Op =
    | SetLocal(key: Key, primary: Key)
    | Add(key: Key, update: Update, now: int)
    | Discover(event: Event, now: int)
    | RecordPacket(key: Key, isRx: bool, heard: bool, now: int)
    | Accept(key: Key, now: int)
    | Remove(key: Key)
    | Cleanup(maxIdle: int, now: int)
    | ResetAnalytics                        // touches traffic counters only, and marks

  ghost function Apply(r: Registry, op: Op): Registry {
    match op
    case SetLocal(key, primary) => WithLocal(r, key, primary)
    case Add(key, update, now) => Added(r, key, update, now)
    case Discover(event, now) => Discovered(r, event, now)
    case RecordPacket(key, isRx, heard, now) => Recorded(r, key, isRx, heard, now)
    case Accept(key, now) => Accepted(r, key, now)
    case Remove(key) => Removed(r, key)
    case Cleanup(maxIdle, now) => Cleaned(r, maxIdle, now)
    case ResetAnalytics => r
  }

  /** Which operations mark the directory dirty in the lock section that changes it. */
  ghost predicate Marks(r: Registry, op: Op) {
    match op
    case SetLocal(key, primary) => key != ""
    case Add(key, update, now) => IsValidKey(key)
    case Discover(event, now) => IsValidKey(event.key) && IsValidKey(Discovery(r, event, now).0)
    case RecordPacket(key, isRx, heard, now) =>
      IsValidKey(key) && !(IsLocalKey(r.local, key) && isRx) && IsValidKey(Recording(r, key, isRx, heard, now).0)
    case Accept(key, now) => Existing(r.nodes, key).Some? && IsValidKey(Existing(r.nodes, key).value)
    case Remove(key) => IsValidKey(key) && Existing(r.nodes, key).Some?
    case Cleanup(maxIdle, now) => false
    case ResetAnalytics => true
  }

  /** What is not marked changes nothing, but for clearing the local key and for a clean-up, which
      is marked in a lock section of its own. */
  lemma UnmarkedChangesNothing(r: Registry, op: Op)
    requires !Marks(r, op) && !op.SetLocal? && !op.Cleanup?
    ensures Apply(r, op) == r
  {
    if op.Remove? && IsValidKey(op.key) {
      assert r.nodes - {op.key} == r.nodes;
    }
  }

  /** `primary` is one of the entries that become local, if there are any. */
  predicate Possible(r: Registry, op: Op) {
    op.SetLocal? ==> op.key == "" || op.primary in LocalEntries(r.(local := op.key)) || LocalEntries(r.(local := op.key)) == {}
  }

  ghost function Run(r: Registry, ops: seq<Op>): Registry {
    if ops == [] then r
    else
      var r' := Run(r, ops[..|ops| - 1]);
      if Possible(r', ops[|ops| - 1]) then Apply(r', ops[|ops| - 1]) else r'
  }

  // ---------------------------------------------------------------- one entry per key, one local entry

  ghost predicate OwnKeys(r: Registry) {
    forall k | k in r.nodes :: r.nodes[k].publicKey == k
  }

  ghost predicate OneLocal(r: Registry) {
    forall k, k' | k in r.nodes && k' in r.nodes && IsLocalEntry(r, k) && IsLocalEntry(r, k') :: k == k'
  }

  /** A flagged entry also has the role. */
  ghost predicate FlagHasRole(r: Registry) {
    forall k | k in r.nodes && r.nodes[k].isLocal :: r.nodes[k].role == Local
  }

  ghost predicate Inv(r: Registry) {
    OwnKeys(r) && OneLocal(r) && FlagHasRole(r)
  }

  lemma AddLocalKeeps(r: Registry, k: Key, u: Update, now: int)
    requires Inv(r)
    ensures Inv(AddLocal(r, k, u, now))
  {
  }

  lemma ExistingIsThere(nodes: map<Key, Node>, k: Key)
    ensures Existing(nodes, k).Some? ==> Existing(nodes, k).value in nodes
    ensures Existing(nodes, k).Some? ==> Existing(nodes, k).value == k || Existing(nodes, k).value < k || k < Existing(nodes, k).value
  {
  }

  /** One entry takes the place of another, or of none. */
  lemma ReplacingKeeps(r: Registry, gone: Option<Key>, home: Key, node: Node)
    requires Inv(r) && node.publicKey == home && !node.isLocal
    requires home in r.nodes ==> gone == Some(home)
    requires IsLocalKey(r.local, home) || node.role == Local ==>
               gone.Some? && gone.value in r.nodes && IsLocalEntry(r, gone.value)
    ensures Inv(r.(nodes := (if gone.Some? then r.nodes - {gone.value} else r.nodes)[home := node]))
  {
  }

  /** Merging with an entry that shares a prefix replaces that entry: if it was the local one,
      the merged entry is the only local one afterwards. */
  lemma AddOtherKeeps(r: Registry, k: Key, u: Update, now: int)
    requires Inv(r) && !Flagged(r, k, u)
    ensures Inv(AddOther(r, k, u, now))
  {
    ExistingIsThere(r.nodes, k);
    var ek := Existing(r.nodes, k);
    ReplacingKeeps(r, ek, MergedKey(k, ek), Build(MergedKey(k, ek), u, Get(r.nodes, ek), false, now));
  }

  lemma AddedKeeps(r: Registry, k: Key, u: Update, now: int)
    requires Inv(r)
    ensures Inv(Added(r, k, u, now))
  {
    if IsValidKey(k) {
      if Flagged(r, k, u) {
        AddLocalKeeps(r, k, u, now);
      } else {
        AddOtherKeeps(r, k, u, now);
      }
    }
  }

  lemma WithLocalKeeps(r: Registry, key: Key, primary: Key)
    requires Inv(r) && Possible(r, SetLocal(key, primary))
    ensures Inv(WithLocal(r, key, primary))
  {
    var r1, r2 := r.(local := key), WithLocal(r, key, primary);
    if key == "" {
      assert forall k | k in r1.nodes && IsLocalEntry(r1, k) :: IsLocalEntry(r, k);
    } else {
      forall k | k in r2.nodes && k != key
        ensures !IsLocalEntry(r2, k)
      {
        assert k in r1.nodes ==> (k in LocalEntries(r1) <==> IsLocalEntry(r1, k));
      }
    }
  }

  lemma FewerKeep(r: Registry, gone: set<Key>)
    requires Inv(r)
    ensures Inv(r.(nodes := r.nodes - gone))
  {
  }

  lemma RemovedKeeps(r: Registry, k: Key)
    requires Inv(r)
    ensures Inv(Removed(r, k))
  {
    if IsValidKey(k) {
      var ek := Existing(r.nodes, k);
      FewerKeep(r, {if ek.Some? then ek.value else k});
    }
  }

  lemma ApplyKeeps(r: Registry, op: Op)
    requires Inv(r) && Possible(r, op)
    ensures Inv(Apply(r, op))
  {
    match op
    case SetLocal(key, primary) => WithLocalKeeps(r, key, primary);
    case Add(key, update, now) => AddedKeeps(r, key, update, now);
    case Discover(event, now) =>
      var (k, u) := Discovery(r, event, now);
      AddedKeeps(r, k, u, now);
    case RecordPacket(key, isRx, heard, now) =>
      var (k, u) := Recording(r, key, isRx, heard, now);
      AddedKeeps(r, k, u, now);
    case Accept(key, now) =>
      var ek := Existing(r.nodes, key);
      if ek.Some? {
        AddedKeeps(r, ek.value, Update("", None, None, None, false), now);
      }
    case Remove(key) => RemovedKeeps(r, key);
    case Cleanup(maxIdle, now) => FewerKeep(r, Inactive(r, maxIdle, now));
    case ResetAnalytics =>
  }

  /** Whatever the operations and their order, each node stays under its own public key and at
      most one entry is local. */
  lemma {:induction false} RunsKeepInv(ops: seq<Op>)
    ensures Inv(Run(EMPTY, ops))
    decreases |ops|
  {
    if ops != [] {
      RunsKeepInv(ops[..|ops| - 1]);
      var r := Run(EMPTY, ops[..|ops| - 1]);
      if Possible(r, ops[|ops| - 1]) {
        ApplyKeeps(r, ops[|ops| - 1]);
      }
    }
  }

  // ---------------------------------------------------------------- what a contact carries

  /** What `add_or_update` leaves of an update and of the entry `from` that it continues. */
  ghost predicate Carries(c: Node, from: Option<Node>, u: Update, flag: bool, now: int) {
    && (u.name != "" ==> c.name == u.name)
    && (u.name == "" && from.Some? ==> c.name == from.value.name)
    && (u.name == "" && from.None? ==> c.name == "Node_" + (if |c.publicKey| < 6 then c.publicKey else c.publicKey[..6]))
    && c.isLocal == flag && (flag ==> c.role == Local)
    && (!flag && u.role.Some? ==> c.role == u.role.value)
    && (!flag && u.role.None? && from.Some? && from.value.role != OtherRole("") ==> c.role == from.value.role)
    && (!flag && u.role.None? && (from.None? || from.value.role == OtherRole("")) ==> c.role == Client)
    && CarriesSighting(c.lastSeen, from, u.lastSeen, flag || u.heard, now)
  }

  /** A reported sighting counts unless a later one is known; without one, being heard counts as now. */
  ghost predicate CarriesSighting(seen: int, from: Option<Node>, reported: Option<int>, heard: bool, now: int) {
    var known := from.Some? && from.value.lastSeen > 0;
    && (reported.Some? && known && from.value.lastSeen >= reported.value ==> seen == from.value.lastSeen)
    && (reported.Some? && (!known || from.value.lastSeen <= reported.value) ==> seen == reported.value)
    && (reported.None? && heard ==> seen == now)
    && (reported.None? && !heard && known ==> seen == from.value.lastSeen)
    && (reported.None? && !heard && !known ==> seen == 0)
  }

  lemma BuildCarries(canonical: Key, u: Update, existing: Option<Node>, flag: bool, now: int)
    ensures Carries(Build(canonical, u, existing, flag, now), existing, u, flag, now)
    ensures Build(canonical, u, existing, flag, now).publicKey == canonical
  {
  }

  /** Where an update goes, what it continues and what is there afterwards. */
  ghost predicate Updated(before: Registry, nodes: map<Key, Node>, k: Key, u: Update, now: int, c: Node) {
    var flag := IsLocalKey(before.local, k) || u.isLocal == Some(true) || u.role == Some(Local);
    var ek := if flag then TheLocal(before) else Existing(before.nodes, k);
    var home := if flag then (if before.local != "" && |before.local| >= |k| then before.local else k)
                else (if ek.Some? && |ek.value| > |k| then ek.value else k);
    home in nodes && nodes[home] == c && c.publicKey == home && Carries(c, Get(before.nodes, ek), u, flag, now)
  }

  lemma AddedIsUpdated(r: Registry, k: Key, u: Update, now: int) returns (c: Node)
    requires Inv(r) && IsValidKey(k)
    ensures Updated(r, Added(r, k, u, now).nodes, k, u, now, c)
  {
    if Flagged(r, k, u) {
      c := Build(LocalHome(r, k), u, Get(r.nodes, TheLocal(r)), true, now);
      BuildCarries(LocalHome(r, k), u, Get(r.nodes, TheLocal(r)), true, now);
    } else {
      var ek := Existing(r.nodes, k);
      c := Build(MergedKey(k, ek), u, Get(r.nodes, ek), false, now);
      BuildCarries(MergedKey(k, ek), u, Get(r.nodes, ek), false, now);
    }
  }

  /** What is known after a discovery of a node that is not the station. */
  ghost predicate Discovers(c: Node, from: Option<Node>, e: Event, now: int) {
    var seen := if e.lastSeen.Some? then e.lastSeen.value else now;
    && (e.name != "" ==> c.name == e.name)
    && (e.name == "" && from.Some? ==> c.name == from.value.name)
    && (e.name == "" && from.None? ==> c.name == "Node_" + (if |c.publicKey| < 6 then c.publicKey else c.publicKey[..6]))
    && !c.isLocal && c.role == (if e.role == OtherRole("") then Client else e.role)
    && (e.lastSeen.Some? || !e.isImport ==> CarriesSighting(c.lastSeen, from, Some(seen), e.heard, now))
    && (e.lastSeen.None? && e.isImport && from.Some? ==> CarriesSighting(c.lastSeen, from, None, e.heard, now))
    && (e.lastSeen.None? && e.isImport && from.None? ==> c.lastSeen == 0)
  }

  /** The entry of the station after it was discovered. */
  lemma StationDiscovered(r: Registry, e: Event, now: int)
    requires Inv(r) && IsValidKey(e.key) && IsLocalKey(r.local, e.key)
    ensures var home := if r.local != "" && |r.local| >= |e.key| then r.local else e.key;
            Get(Discovered(r, e, now).nodes, Some(home))
            == Some(Node(home, if e.name != "" then e.name else "Node_" + (if |e.key| < 6 then e.key else e.key[..6]), Local, true, now))
  {
    var (k, u) := Discovery(r, e, now);
    var c := AddedIsUpdated(r, k, u, now);
    assert u.name != "" && u.lastSeen == None && Flagged(r, k, u);
    assert |e.key| == 6 ==> e.key[..6] == e.key;
  }

  /** The entry of another node after it was discovered, under the longer of two keys. */
  lemma OtherDiscovered(r: Registry, e: Event, now: int)
    requires Inv(r) && IsValidKey(e.key) && !IsLocalKey(r.local, e.key) && e.role != Local
    ensures var ek := Existing(r.nodes, e.key);
            var x := if ek.Some? && |ek.value| > |e.key| then ek.value else e.key;
            IsValidKey(x) && !IsLocalKey(r.local, x) ==>
              x in Discovered(r, e, now).nodes && Discovers(Discovered(r, e, now).nodes[x], Get(r.nodes, ek), e, now)
  {
    var (k, u) := Discovery(r, e, now);
    ExistingIsThere(r.nodes, e.key);
    ResolvedKeyFinds(r, e.key);
    if IsValidKey(k) && !IsLocalKey(r.local, k) {
      var c := AddedIsUpdated(r, k, u, now);
      assert Updated(r, Discovered(r, e, now).nodes, k, u, now, c);
    }
  }

  /** What a packet changes of a node that is not the station: a received one its last sighting, a
      sent one nothing. */
  lemma RecordedFields(r: Registry, k: Key, isRx: bool, heard: bool, now: int)
    requires Inv(r) && IsValidKey(k) && !IsLocalKey(r.local, k)
    ensures var ek := Existing(r.nodes, k);
            var x, from := MergedKey(k, ek), Get(r.nodes, Existing(r.nodes, k));
            var r' := Recorded(r, k, isRx, heard, now);
            IsValidKey(x) && !IsLocalKey(r.local, x) ==>
              && x in r'.nodes && !r'.nodes[x].isLocal
              && r'.nodes[x].name == (if from.Some? then from.value.name else "Node_" + (if |x| < 6 then x else x[..6]))
              && r'.nodes[x].role == (if from.Some? && from.value.role != OtherRole("") then from.value.role else Client)
              && CarriesSighting(r'.nodes[x].lastSeen, from, if isRx then Some(now) else None, false, now)
  {
    var (x, u) := Recording(r, k, isRx, heard, now);
    ExistingIsThere(r.nodes, k);
    ResolvedKeyFinds(r, k);
    if IsValidKey(x) {
      var _ := AddedIsUpdated(r, x, u, now);
    }
  }

  /** The station: what it receives under its own key is not recorded; what it sends is a sighting
      of the one entry it has. */
  lemma RecordedStation(r: Registry, k: Key, isRx: bool, heard: bool, now: int)
    requires Inv(r) && IsValidKey(k) && IsLocalKey(r.local, k)
    ensures var x, r' := MergedKey(k, Existing(r.nodes, k)), Recorded(r, k, isRx, heard, now);
            && (isRx ==> r' == r)
            && (!isRx && IsValidKey(x) && IsLocalKey(r.local, x) ==>
                  var home := if r.local != "" && |r.local| >= |x| then r.local else x;
                  home in r'.nodes && r'.nodes[home].isLocal && r'.nodes[home].role == Local && r'.nodes[home].lastSeen == now)
  {
    var (x, u) := Recording(r, k, isRx, heard, now);
    if !isRx && IsValidKey(x) {
      var _ := AddedIsUpdated(r, x, u, now);
    }
  }

  /** A resolved key finds the same entry, or the same absence of one. */
  lemma ResolvedKeyFinds(r: Registry, k: Key)
    requires IsValidKey(k)
    ensures var x := MergedKey(k, Existing(r.nodes, k)); Existing(r.nodes, x) == Existing(r.nodes, k)
  {
    ExistingIsThere(r.nodes, k);
  }

  /** Which entry a key finds: itself, or the only one that continues it or that it continues. */
  lemma ExistingMeans(nodes: map<Key, Node>, k: Key, x: Key)
    ensures k in nodes ==> (Existing(nodes, k) == Some(x) <==> x == k)
    ensures k !in nodes && IsValidKey(k) ==>
              (Existing(nodes, k) == Some(x) <==>
                 && x in nodes && (x <= k || k <= x)
                 && forall y | y in nodes && (y <= k || k <= y) :: y == x)
    ensures k !in nodes && !IsValidKey(k) ==> Existing(nodes, k) == None
  {
    if k !in nodes && IsValidKey(k) {
      var ms := PrefixMatches(nodes, k);
      forall y
        ensures y in ms <==> y in nodes && (y <= k || k <= y)
      {
        SamePrefix(y, k);
      }
      if |ms| == 1 {
        assert ms == {Only(ms)};
      }
      if x in ms && forall y | y in ms :: y == x {
        assert ms == {x};
      }
    }
  }

  /** Accepting an entry leaves its name and its sighting, and puts a client where no role was known. */
  lemma AcceptedMeans(r: Registry, k: Key, x: Key, now: int)
    requires Inv(r) && Existing(r.nodes, k) == Some(x) && IsValidKey(x) && !IsLocalKey(r.local, x)
    ensures var role := r.nodes[x].role;
            Accepted(r, k, now).nodes
            == r.nodes[x := Node(x, r.nodes[x].name, if role == OtherRole("") then Client else role, false,
                                 if r.nodes[x].lastSeen > 0 then r.nodes[x].lastSeen else 0)]
  {
    assert Existing(r.nodes, x) == Some(x);
  }

  /** What setting a local key leaves: the entries that are local under it, by flag, role or key,
      give way to one entry under the key. */
  ghost predicate MadeLocal(before: map<Key, Node>, nodes: map<Key, Node>, key: Key, primary: Key) {
    && (forall x | x != key :: (x in nodes <==> x in before && !IsStation(before, key, x)) && (x in nodes ==> nodes[x] == before[x]))
    && (key in nodes <==> exists x :: IsStation(before, key, x))
    && (key in nodes ==> IsStation(before, key, primary)
                         && nodes[key] == Node(key, before[primary].name, Local, true, before[primary].lastSeen))
  }

  ghost predicate IsStation(nodes: map<Key, Node>, key: Key, x: Key) {
    x in nodes && (nodes[x].isLocal || nodes[x].role == Local || IsLocalKey(key, x))
  }

  lemma WithLocalMeans(r: Registry, key: Key, primary: Key)
    requires Inv(r) && Possible(r, SetLocal(key, primary))
    ensures WithLocal(r, key, primary).local == key
    ensures key == "" ==> WithLocal(r, key, primary).nodes == r.nodes
    ensures key != "" ==> MadeLocal(r.nodes, WithLocal(r, key, primary).nodes, key, primary)
  {
    var locals := LocalEntries(r.(local := key));
    assert forall x :: x in locals <==> IsStation(r.nodes, key, x);
    if key != "" && locals == {} {
      assert key in r.nodes ==> key in locals;
    }
  }

  /** Which keys count: the reserved word of the station, and at least four hexadecimal digits but
      for three fillers. */
  lemma ValidKeyMeans(k: Key)
    ensures IsValidKey(k)
            <==> k == "local" || (|k| >= 4 && IsHex(k) && k != "ffff" && k != "00000000" && k != "000000000000")
  {
    if IsHex(k) && |k| >= 4 {
      assert k[0] != 'u' && k[0] != 'n' && k[0] != 's' && k[1] != 'r' && k[1] != 'x';
    }
  }

  lemma SamePrefix(a: Key, b: Key)
    ensures a <= b || b <= a <==> a == b || a < b || b < a
  {
    assert a <= b && |a| == |b| ==> a == b;
    assert b <= a && |a| == |b| ==> a == b;
  }

  /** Which keys stand for the station: two reserved ones, its own, and those that share at least
      six digits with it. */
  lemma LocalKeyMeans(local: Key, k: Key)
    ensures k == "" ==> !IsLocalKey(local, k)
    ensures k == "local" || k == "000000000000" ==> IsLocalKey(local, k)
    ensures k != "" && k == local ==> IsLocalKey(local, k)
    ensures k != "local" && k != "000000000000" && k != local && k != "" ==>
              (IsLocalKey(local, k) <==> exists six: Key :: |six| == 6 && six <= k && six <= local && (k <= local || local <= k))
  {
    if |k| >= 6 && |local| >= 6 && (k <= local || local <= k) {
      var six := k[..6];
      assert |six| == 6 && six <= k && six <= local;
    }
  }

  // ---------------------------------------------------------------- what an update touches

  /** Merging keeps the longer of two keys that continue each other, and touches no other entry. */
  lemma AddedTouchesOne(r: Registry, k: Key, u: Update, now: int)
    requires Inv(r) && IsValidKey(k) && !Flagged(r, k, u)
    ensures var ek, r' := Existing(r.nodes, k), Added(r, k, u, now);
            var home := MergedKey(k, ek);
            && k <= home && (ek.Some? ==> ek.value <= home)
            && home in r'.nodes && (ek.Some? && ek.value != home ==> ek.value !in r'.nodes)
            && forall x | x != home && ek != Some(x) :: Get(r'.nodes, Some(x)) == Get(r.nodes, Some(x))
  {
    ExistingIsThere(r.nodes, k);
  }

  /** A local update touches local entries only, and leaves one of them. */
  lemma LocalUpdateTouchesLocals(r: Registry, k: Key, u: Update, now: int)
    requires Inv(r) && IsValidKey(k) && Flagged(r, k, u)
    ensures var r' := Added(r, k, u, now);
            && LocalEntries(r') == {LocalHome(r, k)}
            && forall x | x != LocalHome(r, k) && x !in LocalEntries(r) :: Get(r'.nodes, Some(x)) == Get(r.nodes, Some(x))
  {
    AddLocalKeeps(r, k, u, now);
    assert LocalHome(r, k) in LocalEntries(Added(r, k, u, now));
  }

  /** The time of the last sighting never goes back, unless the clock does. */
  lemma LastSeenNeverGoesBack(r: Registry, k: Key, u: Update, now: int)
    requires Inv(r) && IsValidKey(k)
    ensures var from := if Flagged(r, k, u) then TheLocal(r) else Existing(r.nodes, k);
            var home := if Flagged(r, k, u) then LocalHome(r, k) else MergedKey(k, from);
            from.Some? && from.value in r.nodes && 0 < r.nodes[from.value].lastSeen <= now ==>
              home in Added(r, k, u, now).nodes && r.nodes[from.value].lastSeen <= Added(r, k, u, now).nodes[home].lastSeen
  {
    ExistingIsThere(r.nodes, k);
  }

  /** A node that is known by a key that continues `x`, was heard at `seen` or later, and is not
      the station. */
  ghost predicate Known(r: Registry, x: Key, seen: int) {
    seen > 0 && exists h :: KnownAs(r, h, x, seen)
  }

  ghost predicate KnownAs(r: Registry, h: Key, x: Key, seen: int) {
    h in r.nodes && x <= h && r.nodes[h].lastSeen >= seen && !IsLocalEntry(r, h)
  }

  /** The update does not take the node for the station, and the clock has not gone back. */
  ghost predicate SparesAdded(r: Registry, k: Key, u: Update, now: int, x: Key, seen: int) {
    now >= seen && (Flagged(r, k, u) ==> !(x <= LocalHome(r, k)))
  }

  /** An operation that neither removes the node nor takes it for the station, and a clean-up
      that comes before its idle time is over. */
  ghost predicate Spares(r: Registry, op: Op, x: Key, seen: int) {
    match op
    case SetLocal(key, primary) => forall h | h in r.nodes && x <= h :: !IsLocalKey(key, h)
    case Add(key, update, now) => SparesAdded(r, key, update, now, x, seen)
    case Discover(event, now) =>
      var (k, u) := Discovery(r, event, now);
      SparesAdded(r, k, u, now, x, seen)
    case RecordPacket(key, isRx, heard, now) =>
      var (k, u) := Recording(r, key, isRx, heard, now);
      SparesAdded(r, k, u, now, x, seen)
    case Accept(key, now) =>
      var ek := Existing(r.nodes, key);
      ek.Some? ==> SparesAdded(r, ek.value, Update("", None, None, None, false), now, x, seen)
    case Remove(key) =>
      var ek := Existing(r.nodes, key);
      !(x <= if ek.Some? then ek.value else key)
    case Cleanup(maxIdle, now) => now - seen <= maxIdle
    case ResetAnalytics => true
  }

  lemma AddedKeepsKnown(r: Registry, k: Key, u: Update, now: int, x: Key, seen: int, h: Key) returns (h': Key)
    requires Inv(r) && seen > 0 && KnownAs(r, h, x, seen) && SparesAdded(r, k, u, now, x, seen)
    ensures KnownAs(Added(r, k, u, now), h', x, seen)
  {
    h' := h;
    if IsValidKey(k) && !Flagged(r, k, u) {
      ExistingIsThere(r.nodes, k);
      if Existing(r.nodes, k) == Some(h) {
        h' := MergedKey(k, Some(h));
      }
    }
  }

  lemma StepKeepsKnown(r: Registry, op: Op, x: Key, seen: int)
    requires Inv(r) && Known(r, x, seen) && Spares(r, op, x, seen)
    ensures Known(Apply(r, op), x, seen)
  {
    var h :| KnownAs(r, h, x, seen);
    var h' := h;
    match op
    case Add(key, update, now) => h' := AddedKeepsKnown(r, key, update, now, x, seen, h);
    case Discover(event, now) =>
      var (k, u) := Discovery(r, event, now);
      if IsValidKey(event.key) {
        h' := AddedKeepsKnown(r, k, u, now, x, seen, h);
      }
    case RecordPacket(key, isRx, heard, now) =>
      var (k, u) := Recording(r, key, isRx, heard, now);
      if Recorded(r, key, isRx, heard, now) != r {
        h' := AddedKeepsKnown(r, k, u, now, x, seen, h);
      }
    case Accept(key, now) =>
      var ek := Existing(r.nodes, key);
      if ek.Some? {
        h' := AddedKeepsKnown(r, ek.value, Update("", None, None, None, false), now, x, seen, h);
      }
    case SetLocal(key, primary) =>
      LocalKeepsKnown(r, key, primary, x, seen, h);
    case _ =>
      assert KnownAs(Apply(r, op), h, x, seen);
    assert KnownAs(Apply(r, op), h', x, seen);
  }

  lemma LocalKeepsKnown(r: Registry, key: Key, primary: Key, x: Key, seen: int, h: Key)
    requires KnownAs(r, h, x, seen) && !IsLocalKey(key, h)
    ensures KnownAs(WithLocal(r, key, primary), h, x, seen)
  {
  }

  ghost predicate SparingRun(r: Registry, ops: seq<Op>, x: Key, seen: int)
    decreases |ops|
  {
    ops != [] ==>
      SparingRun(r, ops[..|ops| - 1], x, seen) && Spares(Run(r, ops[..|ops| - 1]), ops[|ops| - 1], x, seen)
  }

  lemma {:induction false} RunKeepsKnown(r: Registry, ops: seq<Op>, x: Key, seen: int)
    requires Inv(r) && Known(r, x, seen) && SparingRun(r, ops, x, seen)
    ensures Inv(Run(r, ops)) && Known(Run(r, ops), x, seen)
    decreases |ops|
  {
    if ops != [] {
      var r', op := Run(r, ops[..|ops| - 1]), ops[|ops| - 1];
      RunKeepsKnown(r, ops[..|ops| - 1], x, seen);
      if Possible(r', op) {
        StepKeepsKnown(r', op, x, seen);
        ApplyKeeps(r', op);
      }
    }
  }

  /** A node whose packet was received stays in the directory through any run of later operations,
      clean-ups among them, that spares it: under its key or one that continues it, and with a
      last sighting no earlier than that packet. */
  lemma HeardNodeSurvives(r: Registry, k: Key, heard: bool, now: int, ops: seq<Op>)
    requires Inv(r) && now > 0 && IsValidKey(k) && IsValidKey(MergedKey(k, Existing(r.nodes, k)))
    requires !IsLocalKey(r.local, k) && !IsLocalKey(r.local, MergedKey(k, Existing(r.nodes, k)))
    requires Get(r.nodes, Existing(r.nodes, k)).Some? ==> !IsLocalEntry(r, Existing(r.nodes, k).value)
    requires SparingRun(Recorded(r, k, true, heard, now), ops, MergedKey(k, Existing(r.nodes, k)), now)
    ensures Known(Run(Recorded(r, k, true, heard, now), ops), MergedKey(k, Existing(r.nodes, k)), now)
  {
    ExistingIsThere(r.nodes, k);
    var (x, u) := Recording(r, k, true, heard, now);
    ResolvedKeyStays(r, k);
    AddedKeeps(r, x, u, now);
    assert KnownAs(Recorded(r, k, true, heard, now), x, x, now);
    RunKeepsKnown(Recorded(r, k, true, heard, now), ops, x, now);
  }

  /** Resolving a resolved key changes nothing. */
  lemma ResolvedKeyStays(r: Registry, k: Key)
    requires IsValidKey(k)
    ensures var x := MergedKey(k, Existing(r.nodes, k)); MergedKey(x, Existing(r.nodes, x)) == x
  {
    ExistingIsThere(r.nodes, k);
  }

  // ---------------------------------------------------------------- the client list

  predicate NameHidden(name: string) {
    "Node_unknow" <= name
  }

  /** `_snapshot_contacts`, when at most one entry is local. */
  function Snapshot(r: Registry): set<Key> {
    set k | k in r.nodes && IsValidKey(r.nodes[k].publicKey) && !NameHidden(r.nodes[k].name)
  }

  predicate IsRepeater(n: Node) {
    !n.isLocal && (n.role == Repeater || n.role == Router)
  }

  /** `list_client_contacts` */
  function ClientContacts(r: Registry): set<Key> {
    set k | k in Snapshot(r) && !r.nodes[k].isLocal && r.nodes[k].role == Client && !IsRepeater(r.nodes[k])
  }

  /** What the list is for: every client but the station itself. */
  function OtherClients(r: Registry): set<Key> {
    set k | k in r.nodes && !IsLocalEntry(r, k) && r.nodes[k].role == Client
  }

  /** The local entry carries the LOCAL role. */
  ghost predicate Marked(r: Registry) {
    forall k | k in r.nodes && IsLocalKey(r.local, k) :: r.nodes[k].role == Local
  }

  ghost predicate Showable(r: Registry) {
    && (r.local == "" || IsValidKey(r.local))
    && (forall k | k in r.nodes :: IsValidKey(k) && !NameHidden(r.nodes[k].name))
  }

  /** No entry under a key of the station passes for a client. */
  ghost predicate NoLocalClient(r: Registry) {
    forall k | k in r.nodes && IsLocalKey(r.local, k) && !r.nodes[k].isLocal :: r.nodes[k].role != Client
  }

  ghost predicate ListIsExact(r: Registry) {
    ClientContacts(r) == OtherClients(r)
  }

  /** The list is exact if and only if no entry under a key of the station is an unflagged client. */
  lemma ListIsExactWhen(r: Registry)
    requires Inv(r) && Showable(r)
    ensures ListIsExact(r) <==> NoLocalClient(r)
  {
    forall k | k in r.nodes
      ensures k in ClientContacts(r) <==> r.nodes[k].role == Client && !r.nodes[k].isLocal
      ensures k in OtherClients(r) <==> r.nodes[k].role == Client && !r.nodes[k].isLocal && !IsLocalKey(r.local, k)
    {
    }
    if k :| k in r.nodes && IsLocalKey(r.local, k) && !r.nodes[k].isLocal && r.nodes[k].role == Client {
      assert k in ClientContacts(r) && k !in OtherClients(r);
    }
  }

  /** The update that takes the LOCAL mark off the station's own entry: it names a role, its key
      is too short to count as the station's, but only the station's key continues it. */
  ghost predicate Demotes(r: Registry, k: Key, u: Update) {
    && IsValidKey(k) && !Flagged(r, k, u) && u.role.Some?
    && var ek := Existing(r.nodes, k); ek.Some? && |ek.value| > |k| && IsLocalKey(r.local, ek.value)
  }

  /** Exactly the demoting updates lose the mark. */
  lemma MarkLostOnlyByDemotion(r: Registry, k: Key, u: Update, now: int)
    requires Inv(r) && Marked(r)
    ensures Marked(Added(r, k, u, now)) <==> !Demotes(r, k, u)
  {
  }

  /** A demoted station is then listed among its own clients. */
  lemma DemotedStationIsListed(r: Registry, k: Key, u: Update, now: int)
    requires Inv(r) && Showable(r) && Demotes(r, k, u) && u.role == Some(Client) && !NameHidden(u.name)
    ensures var r', own := Added(r, k, u, now), Existing(r.nodes, k).value;
            own in ClientContacts(r') && own !in OtherClients(r')
  {
    ExistingIsThere(r.nodes, k);
  }

  const STATION: Key := "aabbccddeeff"

  /** The shortest way there: announce the station, then update it by its first four digits. */
  function Demotion(): seq<Op> {
    [SetLocal(STATION, STATION), Add(STATION, Update("Base", None, None, None, false), 0),
     Add("aabb", Update("", Some(Client), None, None, false), 0)]
  }

  lemma StationIsAdded()
    ensures var r := Added(Registry(map[], STATION), STATION, Update("Base", None, None, None, false), 0);
            r == Registry(map[STATION := Node(STATION, "Base", Local, true, 0)], STATION)
  {
    StationKeysAreValid();
  }

  lemma StationKeysAreValid()
    ensures IsValidKey(STATION) && IsValidKey("aabb")
  {
    assert STATION[0] == "aabb"[0] == 'a';
    assert forall x | x in INVALID_NODE_KEYS && |x| > 0 :: x[0] != 'a';
    assert IsHex(STATION) && IsHex("aabb");
  }

  lemma DemotionHappens()
    ensures ClientContacts(Run(EMPTY, Demotion())) != OtherClients(Run(EMPTY, Demotion()))
  {
    var ops := Demotion();
    var r1 := Registry(map[], STATION);
    var r2 := Registry(map[STATION := Node(STATION, "Base", Local, true, 0)], STATION);
    assert ops[..1][..0] == [] && ops[..2][..1] == ops[..1] && ops[..3] == ops;
    assert Run(EMPTY, []) == EMPTY;
    assert Run(EMPTY, ops[..1]) == r1;
    StationIsAdded();
    assert Run(EMPTY, ops[..2]) == r2;
    StationIsDemoted(r2, ops[2].update);
  }

  lemma StationIsDemoted(r: Registry, u: Update)
    requires r == Registry(map[STATION := Node(STATION, "Base", Local, true, 0)], STATION)
    requires u == Update("", Some(Client), None, None, false)
    ensures ClientContacts(Added(r, "aabb", u, 0)) != OtherClients(Added(r, "aabb", u, 0))
  {
    StationKeysAreValid();
    assert PrefixMatches(r.nodes, "aabb") == {STATION};
    assert "Base"[0] != "Node_unknow"[0];
    DemotedStationIsListed(r, "aabb", u, 0);
  }

  // ---------------------------------------------------------------- when the list is exact

  /** The update that lists the station: its key is too short to count as the station's, only the
      station's key continues it, and the entry comes out as a client. */
  ghost predicate ListsStation(r: Registry, k: Key, u: Update) {
    && IsValidKey(k) && !Flagged(r, k, u)
    && var ek := Existing(r.nodes, k);
       ek.Some? && IsLocalKey(r.local, MergedKey(k, ek)) && MergedRole(r, ek, u) == Client
  }

  function MergedRole(r: Registry, ek: Option<Key>, u: Update): Role {
    if u.role.Some? then u.role.value
    else if ek.Some? && ek.value in r.nodes then RoleOrClient(r.nodes[ek.value].role)
    else Client
  }

  lemma DefaultNameShows(k: Key)
    requires IsValidKey(k)
    ensures !NameHidden("Node_" + Prefix(k, 6))
  {
    assert ("Node_" + Prefix(k, 6))[5] == k[0] && "Node_unknow"[5] == 'u';
  }

  lemma AddedShows(r: Registry, k: Key, u: Update, now: int)
    requires Showable(r) && !NameHidden(u.name)
    ensures Showable(Added(r, k, u, now))
  {
    if IsValidKey(k) {
      ExistingIsThere(r.nodes, k);
      if Flagged(r, k, u) {
        DefaultNameShows(LocalHome(r, k));
      } else {
        DefaultNameShows(MergedKey(k, Existing(r.nodes, k)));
      }
    }
  }

  lemma AddLocalListsNone(r: Registry, k: Key, u: Update, now: int)
    requires Inv(r)
    ensures NoLocalClient(AddLocal(r, k, u, now))
  {
  }

  lemma AddOtherLists(r: Registry, k: Key, u: Update, now: int)
    requires Inv(r) && NoLocalClient(r) && IsValidKey(k) && !Flagged(r, k, u)
    ensures NoLocalClient(AddOther(r, k, u, now)) <==> !ListsStation(r, k, u)
  {
    ExistingIsThere(r.nodes, k);
    var ek, r' := Existing(r.nodes, k), AddOther(r, k, u, now);
    var home := MergedKey(k, ek);
    assert r'.nodes[home].role == MergedRole(r, ek, u) && !r'.nodes[home].isLocal;
    assert ek == None ==> home == k;
    forall x | x in r'.nodes && x != home
      ensures x in r.nodes && r'.nodes[x] == r.nodes[x]
    {
    }
  }

  /** The listing updates are exactly those that spoil an exact list. */
  lemma ListSpoiltOnlyByListing(r: Registry, k: Key, u: Update, now: int)
    requires Inv(r) && Showable(r) && ListIsExact(r) && !NameHidden(u.name)
    ensures ListIsExact(Added(r, k, u, now)) <==> !ListsStation(r, k, u)
  {
    ListIsExactWhen(r);
    AddedListsStation(r, k, u, now);
    AddedKeeps(r, k, u, now);
    AddedShows(r, k, u, now);
    ListIsExactWhen(Added(r, k, u, now));
  }

  lemma AddedListsStation(r: Registry, k: Key, u: Update, now: int)
    requires Inv(r) && NoLocalClient(r)
    ensures NoLocalClient(Added(r, k, u, now)) <==> !ListsStation(r, k, u)
  {
    if IsValidKey(k) {
      if Flagged(r, k, u) {
        AddLocalListsNone(r, k, u, now);
      } else {
        AddOtherLists(r, k, u, now);
      }
    }
  }

  /** While the station's entry is marked, they are the demoting updates to the role CLIENT; after a
      demotion to another role the list is still exact. */
  lemma MarkedListSpoiltByDemotion(r: Registry, k: Key, u: Update, now: int)
    requires Inv(r) && Marked(r) && Showable(r) && !NameHidden(u.name)
    ensures ListIsExact(Added(r, k, u, now)) <==> !(Demotes(r, k, u) && u.role == Some(Client))
  {
    ListIsExactWhen(r);
    ListSpoiltOnlyByListing(r, k, u, now);
    ExistingIsThere(r.nodes, k);
  }

  /** Operations that resolve the key first never list the station, nor demote it. */
  lemma ResolvedKeyIsHarmless(r: Registry, k: Key, u: Update)
    requires IsValidKey(k)
    ensures var x := MergedKey(k, Existing(r.nodes, k)); !ListsStation(r, x, u) && !Demotes(r, x, u)
  {
    ExistingIsThere(r.nodes, k);
    ResolvedKeyStays(r, k);
    ExistingIsThere(r.nodes, MergedKey(k, Existing(r.nodes, k)));
  }

  ghost predicate Lists(r: Registry, op: Op) {
    op.Add? && ListsStation(r, op.key, op.update)
  }

  /** Operations that bring in no invalid local key and no hidden name. */
  predicate Visible(op: Op) {
    match op
    case SetLocal(key, primary) => key == "" || IsValidKey(key)
    case Add(key, update, now) => !NameHidden(update.name)
    case Discover(event, now) => !NameHidden(event.name)
    case _ => true
  }

  ghost predicate Shown(r: Registry) {
    Inv(r) && NoLocalClient(r) && Showable(r)
  }

  lemma AddKeepsShown(r: Registry, k: Key, u: Update, now: int)
    requires Shown(r) && !NameHidden(u.name)
    ensures Inv(Added(r, k, u, now)) && Showable(Added(r, k, u, now))
    ensures NoLocalClient(Added(r, k, u, now)) <==> !ListsStation(r, k, u)
  {
    AddedKeeps(r, k, u, now);
    AddedShows(r, k, u, now);
    AddedListsStation(r, k, u, now);
  }

  lemma DiscoverKeepsShown(r: Registry, e: Event, now: int)
    requires Shown(r) && !NameHidden(e.name)
    ensures Shown(Discovered(r, e, now))
  {
    if IsValidKey(e.key) {
      var (k, u) := Discovery(r, e, now);
      DefaultNameShows(e.key);
      AddKeepsShown(r, k, u, now);
      if !IsLocalKey(r.local, e.key) {
        ResolvedKeyIsHarmless(r, e.key, u);
      }
    }
  }

  lemma RecordKeepsShown(r: Registry, k: Key, isRx: bool, heard: bool, now: int)
    requires Shown(r)
    ensures Shown(Recorded(r, k, isRx, heard, now))
  {
    if IsValidKey(k) {
      var (x, u) := Recording(r, k, isRx, heard, now);
      ExistingIsThere(r.nodes, k);
      DefaultNameShows(x);
      AddKeepsShown(r, x, u, now);
      ResolvedKeyIsHarmless(r, k, u);
    }
  }

  lemma AcceptKeepsShown(r: Registry, k: Key, now: int)
    requires Shown(r)
    ensures Shown(Accepted(r, k, now))
  {
    var ek, u := Existing(r.nodes, k), Update("", None, None, None, false);
    if ek.Some? {
      ExistingIsThere(r.nodes, k);
      AddKeepsShown(r, ek.value, u, now);
      if IsValidKey(ek.value) {
        ResolvedKeyIsHarmless(r, ek.value, u);
      }
    }
  }

  lemma SetLocalKeepsShown(r: Registry, key: Key, primary: Key)
    requires Shown(r) && Possible(r, SetLocal(key, primary)) && (key == "" || IsValidKey(key))
    ensures Shown(WithLocal(r, key, primary))
  {
    WithLocalKeeps(r, key, primary);
    var r1, r2 := r.(local := key), WithLocal(r, key, primary);
    forall k | k in r2.nodes && IsLocalKey(key, k) && !r2.nodes[k].isLocal
      ensures r2.nodes[k].role != Client
    {
      assert k in r.nodes ==> (k in LocalEntries(r1) <==> IsLocalEntry(r1, k));
    }
  }

  /** One operation on an exact list spoils it exactly when it lists the station. */
  lemma StepListsStation(r: Registry, op: Op)
    requires Shown(r) && Possible(r, op) && Visible(op)
    ensures Inv(Apply(r, op)) && Showable(Apply(r, op))
    ensures NoLocalClient(Apply(r, op)) <==> !Lists(r, op)
  {
    match op
    case SetLocal(key, primary) => SetLocalKeepsShown(r, key, primary);
    case Add(key, update, now) => AddKeepsShown(r, key, update, now);
    case Discover(event, now) => DiscoverKeepsShown(r, event, now);
    case RecordPacket(key, isRx, heard, now) => RecordKeepsShown(r, key, isRx, heard, now);
    case Accept(key, now) => AcceptKeepsShown(r, key, now);
    case Remove(key) => RemovedKeeps(r, key);
    case Cleanup(maxIdle, now) => FewerKeep(r, Inactive(r, maxIdle, now));
    case ResetAnalytics =>
  }

  ghost predicate AlwaysExact(ops: seq<Op>)
    decreases |ops|
  {
    ListIsExact(Run(EMPTY, ops)) && (ops != [] ==> AlwaysExact(ops[..|ops| - 1]))
  }

  ghost predicate NeverLists(ops: seq<Op>)
    decreases |ops|
  {
    ops != [] ==> NeverLists(ops[..|ops| - 1]) && !Lists(Run(EMPTY, ops[..|ops| - 1]), ops[|ops| - 1])
  }

  /** Over every run from the empty directory, the client list is exact all along if and only if no
      update lists the station. */
  lemma {:induction false} ExactUnlessListed(ops: seq<Op>)
    requires forall i | 0 <= i < |ops| :: Visible(ops[i])
    ensures AlwaysExact(ops) <==> NeverLists(ops)
    ensures NeverLists(ops) ==> Shown(Run(EMPTY, ops))
    decreases |ops|
  {
    if ops == [] {
      ListIsExactWhen(EMPTY);
    } else {
      var front, op := ops[..|ops| - 1], ops[|ops| - 1];
      var r := Run(EMPTY, front);
      ExactUnlessListed(front);
      if NeverLists(front) && Possible(r, op) {
        StepListsStation(r, op);
        ListIsExactWhen(Apply(r, op));
      } else if NeverLists(front) {
        ListIsExactWhen(r);
      }
    }
  }

  // ---------------------------------------------------------------- the program

  class Directory {
    var nodes: map<Key, Node>
    var localPubkey: Key
    var dirty: bool
    var generation: nat

    function View(): Registry
      reads this
    {
      Registry(nodes, localPubkey)
    }

    constructor ()
      ensures View() == EMPTY && !dirty && generation == 0
    {
      nodes, localPubkey, dirty, generation := map[], "", false, 0;
    }

    /** Marked, with one generation more, or left as it was. */
    twostate predicate Tracked(marked: bool)
      reads this
    {
      if marked then dirty && generation == old(generation) + 1 else dirty == old(dirty) && generation == old(generation)
    }

    method MarkDirty()
      modifies this`dirty, this`generation
      ensures dirty && generation == old(generation) + 1
    {
      generation := generation + 1;
      dirty := true;
    }

    method FindExistingKey(k: Key) returns (existing: Option<Key>)
      ensures existing == Existing(nodes, k)
    {
      if k in nodes {
        return Some(k);
      }
      if IsValidKey(k) {
        var matches := PrefixMatches(nodes, k);
        if |matches| == 1 {
          var x :| x in matches;
          return Some(x);
        }
      }
      return None;
    }

    /** The loops that delete the listed keys one by one. */
    method Drop(keys: set<Key>)
      modifies this`nodes
      ensures nodes == old(nodes) - keys
    {
      var todo := keys;
      while todo != {}
        invariant todo <= keys && nodes == old(nodes) - (keys - todo)
        decreases todo
      {
        var k :| k in todo;
        nodes := nodes - {k};
        todo := todo - {k};
      }
    }

    /** Hands out the local entry and removes those that are not at `home`. */
    method DropOtherLocals(home: Key) returns (existing: Option<Node>)
      requires Inv(View())
      modifies this`nodes
      ensures nodes == old(nodes) - (LocalEntries(old(View())) - {home})
      ensures existing == Get(old(nodes), TheLocal(old(View())))
    {
      var locals := LocalEntries(View());
      existing := None;
      if locals != {} {
        var x :| x in locals;
        existing := Some(nodes[x]);
        OnlyLocal(View(), x);
      }
      Drop(locals - {home});
    }

    method AddOrUpdate(k: Key, u: Update, now: int) returns (contact: Option<Node>)
      requires Inv(View())
      modifies this
      ensures View() == Added(old(View()), k, u, now) && Inv(View())
      ensures if IsValidKey(k) then contact.Some? && contact == Get(nodes, Some(contact.value.publicKey)) else contact == None
      ensures IsValidKey(k) ==> Updated(old(View()), nodes, k, u, now, contact.value)
      ensures !IsValidKey(k) ==> nodes == old(nodes)
      ensures localPubkey == old(localPubkey)
      ensures Tracked(Marks(old(View()), Add(k, u, now)))
    {
      AddedKeeps(View(), k, u, now);
      if !IsValidKey(k) {
        return None;
      }
      ghost var c := AddedIsUpdated(View(), k, u, now);
      var flag := Flagged(View(), k, u);
      var home, existing;
      if flag {
        home := LocalHome(View(), k);
        existing := DropOtherLocals(home);
      } else {
        var existingKey := FindExistingKey(k);
        ExistingIsThere(nodes, k);
        home, existing := k, Get(nodes, existingKey);
        if existing.Some? && |existingKey.value| > |k| {
          home := existingKey.value;
        } else if existing.Some? && existingKey.value != k {
          nodes := nodes - {existingKey.value};
        }
      }
      var node := Build(home, u, existing, flag, now);
      nodes := nodes[home := node];
      MarkDirty();
      return Some(node);
    }

    /** Clearing the key is the one change of the persisted state that does not mark it dirty. */
    method SetLocalPubkey(key: Key) returns (ghost primary: Key)
      requires Inv(View())
      modifies this
      ensures Possible(old(View()), SetLocal(key, primary)) && View() == WithLocal(old(View()), key, primary) && Inv(View())
      ensures key == "" ==> nodes == old(nodes)
      ensures key != "" ==> MadeLocal(old(nodes), nodes, key, primary)
      ensures Tracked(Marks(old(View()), SetLocal(key, primary)))
    {
      primary := "";
      localPubkey := key;
      if key == "" {
        WithLocalKeeps(old(View()), key, primary);
        return;
      }
      MarkDirty();
      var locals := LocalEntries(View());
      if locals != {} {
        var chosen :| chosen in locals;
        primary := chosen;
        var merged := nodes[chosen].(publicKey := key, role := Local, isLocal := true);
        Drop(locals);
        nodes := nodes[key := merged];
      }
      WithLocalKeeps(old(View()), key, primary);
      WithLocalMeans(old(View()), key, primary);
    }

    method DiscoverNode(e: Event, now: int)
      requires Inv(View())
      modifies this
      ensures View() == Discovered(old(View()), e, now) && Inv(View())
      ensures !IsValidKey(e.key) ==> nodes == old(nodes)
      ensures Tracked(Marks(old(View()), Discover(e, now)))
    {
      if !IsValidKey(e.key) {
        return;
      }
      var name := if e.name != "" then e.name else "Node_" + Prefix(e.key, 6);
      if IsLocalKey(localPubkey, e.key) {
        var _ := AddOrUpdate(e.key, Update(name, Some(Local), Some(true), None, false), now);
        return;
      }
      var existingKey := FindExistingKey(e.key);
      ExistingIsThere(nodes, e.key);
      var seen := if e.lastSeen.Some? then e.lastSeen else if e.isImport then None else Some(now);
      if existingKey.Some? {
        var existing := nodes[existingKey.value];
        var target := if |e.key| >= |existingKey.value| then e.key else existingKey.value;
        var _ := AddOrUpdate(target,
          Update(if e.name == existing.name then "" else e.name, Some(RoleOrClient(e.role)), None, seen, e.heard), now);
      } else {
        var _ := AddOrUpdate(e.key,
          Update(name, Some(RoleOrClient(e.role)), None, if seen.Some? then seen else Some(0), e.heard), now);
      }
    }

    method RecordPacket(k: Key, isRx: bool, heard: bool, now: int)
      requires Inv(View())
      modifies this
      ensures View() == Recorded(old(View()), k, isRx, heard, now) && Inv(View())
      ensures !IsValidKey(k) || (isRx && IsLocalKey(localPubkey, k)) ==> nodes == old(nodes)
      ensures Tracked(Marks(old(View()), Op.RecordPacket(k, isRx, heard, now)))
    {
      if !IsValidKey(k) {
        return;
      }
      if IsLocalKey(localPubkey, k) && isRx {
        return;
      }
      var existingKey := FindExistingKey(k);
      ExistingIsThere(nodes, k);
      var existing := Get(nodes, existingKey);
      var target := if existingKey.Some? && |k| <= |existingKey.value| then existingKey.value else k;
      assert existingKey.Some? && |k| == |existingKey.value| ==> existingKey.value == k;
      var _ := AddOrUpdate(target,
        Update(if existing.Some? then existing.value.name else "Node_" + Prefix(target, 6), None, None,
               if isRx then Some(now) else None, isRx && heard), now);
    }

    method AcceptDiscoveredContact(k: Key, now: int) returns (accepted: bool)
      requires Inv(View())
      modifies this
      ensures View() == Accepted(old(View()), k, now) && Inv(View())
      ensures Tracked(Marks(old(View()), Accept(k, now)))
      ensures accepted <==> Existing(old(nodes), k).Some?
    {
      var existingKey := FindExistingKey(k);
      if existingKey == None {
        return false;
      }
      var _ := AddOrUpdate(existingKey.value, Update("", None, None, None, false), now);
      return true;
    }

    method RemoveNode(k: Key) returns (removed: bool)
      requires Inv(View())
      modifies this
      ensures View() == Removed(old(View()), k) && Inv(View())
      ensures removed <==> IsValidKey(k) && Existing(old(nodes), k).Some?
      ensures if removed then nodes == old(nodes) - {Existing(old(nodes), k).value} else nodes == old(nodes)
      ensures Tracked(Marks(old(View()), Remove(k)))
    {
      RemovedKeeps(View(), k);
      if !IsValidKey(k) {
        return false;
      }
      var existingKey := FindExistingKey(k);
      ExistingIsThere(nodes, k);
      if existingKey == None {
        assert nodes - {k} == nodes;
        return false;
      }
      nodes := nodes - {existingKey.value};
      MarkDirty();
      return true;
    }

    /** The first lock section of `cleanup_inactive`, which does not mark what it removed. */
    method RemoveInactive(maxIdle: int, now: int) returns (removed: nat)
      requires Inv(View())
      modifies this`nodes
      ensures View() == Cleaned(old(View()), maxIdle, now) && Inv(View())
      ensures removed == |Inactive(old(View()), maxIdle, now)|
      ensures forall x :: x in nodes <==>
                x in old(nodes) && (old(nodes)[x].lastSeen <= 0 || now - old(nodes)[x].lastSeen <= maxIdle || IsStation(old(nodes), localPubkey, x))
      ensures forall x | x in nodes :: nodes[x] == old(nodes)[x]
    {
      FewerKeep(View(), Inactive(View(), maxIdle, now));
      var toRemove := Inactive(View(), maxIdle, now);
      removed := |toRemove|;
      Drop(toRemove);
    }

    /** Any of the operations; `done` is the same, with the local entry that turned out primary. */
    method Perform(op: Op) returns (ghost done: Op)
      requires Inv(View())
      modifies this
      ensures View() == Apply(old(View()), done) && Inv(View())
      ensures done == op || (op.SetLocal? && done.SetLocal? && done.key == op.key && Possible(old(View()), done))
      ensures Tracked(Marks(old(View()), done) || (op.Cleanup? && Inactive(old(View()), op.maxIdle, op.now) != {}))
    {
      done := op;
      match op {
        case SetLocal(key, _) =>
          ghost var primary := SetLocalPubkey(key);
          done := SetLocal(key, primary);
        case Add(key, update, now) =>
          var _ := AddOrUpdate(key, update, now);
        case Discover(event, now) => DiscoverNode(event, now);
        case RecordPacket(key, isRx, heard, now) => RecordPacket(key, isRx, heard, now);
        case Accept(key, now) =>
          var _ := AcceptDiscoveredContact(key, now);
        case Remove(key) =>
          var _ := RemoveNode(key);
        case Cleanup(maxIdle, now) =>
          var removed := RemoveInactive(maxIdle, now);
          if removed > 0 {
            MarkDirty();
          }
        case ResetAnalytics => MarkDirty();
      }
    }

    method ListClientContacts() returns (clients: set<Key>)
      requires Inv(View())
      ensures clients == ClientContacts(View())
      ensures Showable(View()) ==> (clients == OtherClients(View()) <==> NoLocalClient(View()))
    {
      clients := ClientContacts(View());
      if Showable(View()) {
        ListIsExactWhen(View());
      }
    }
  }

  lemma OnlyLocal(r: Registry, k: Key)
    requires OneLocal(r) && k in LocalEntries(r)
    ensures LocalEntries(r) == {k} && TheLocal(r) == Some(k)
  {
  }
}
