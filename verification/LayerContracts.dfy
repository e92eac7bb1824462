/** The import contracts of scripts/check_layer_contracts.py: a worklist search over the import
    graph, one search for each source module of each contract. */
module LayerContracts {
  type Name = string
  type Graph = map<Name, set<Name>>
  type Trail = seq<Name>

  datatype Contract = Contract(name: string, kind: string, sources: seq<Name>, forbidden: seq<Name>)

  datatype Error =
    | Unsupported(kind: string)
    | Missing(source: Name)
    | Violation(contract: string, chain: Trail)

  /** A module stands for itself and everything below it. */
  predicate InSubtree(m: Name, root: Name) {
    m == root || root + "." <= m
  }

  lemma InSubtreeMeans(m: Name, root: Name)
    ensures InSubtree(m, root) <==> m == root || exists below: Name :: m == (root + ".") + below
  {
    if root + "." <= m {
      assert m == (root + ".") + m[|root| + 1..];
    }
  }

  predicate IsForbidden(m: Name, forbidden: seq<Name>) {
    exists i :: 0 <= i < |forbidden| && InSubtree(m, forbidden[i])
  }

  function Imports(g: Graph, m: Name): set<Name> {
    if m in g then g[m] else {}
  }

  function Roots(g: Graph, source: Name): set<Name> {
    set m | m in g && InSubtree(m, source)
  }

  function Last(p: Trail): Name
    requires p != []
  {
    p[|p| - 1]
  }

  /** A chain of imports that starts in the source's subtree. */
  ghost predicate Chain(g: Graph, source: Name, p: Trail) {
    && p != [] && p[0] in Roots(g, source)
    && forall i | 0 <= i < |p| - 1 :: p[i + 1] in Imports(g, p[i])
  }

  /** A chain that meets no forbidden module after its start. */
  ghost predicate Clean(g: Graph, source: Name, forbidden: seq<Name>, p: Trail) {
    Chain(g, source, p) && forall i | 1 <= i < |p| :: !IsForbidden(p[i], forbidden)
  }

  /** An import chain of length at least one leads from the source's subtree to a forbidden one. */
  ghost predicate Broken(g: Graph, source: Name, forbidden: seq<Name>) {
    exists p :: Chain(g, source, p) && |p| >= 2 && IsForbidden(Last(p), forbidden)
  }

  /** The forbidden imports that a search has to report: those of the modules it gets to. */
  ghost predicate ForbiddenImport(g: Graph, source: Name, forbidden: seq<Name>, m: Name, d: Name) {
    && d in Imports(g, m) && IsForbidden(d, forbidden)
    && exists p :: Clean(g, source, forbidden, p) && Last(p) == m
  }

  // ---------------------------------------------------------------- reports

  ghost predicate GoodReport(g: Graph, source: Name, forbidden: seq<Name>, e: Trail) {
    && |e| >= 2 && Clean(g, source, forbidden, e[..|e| - 1])
    && Last(e) in Imports(g, e[|e| - 2]) && IsForbidden(Last(e), forbidden)
  }

  function EdgeOf(e: Trail): (Name, Name)
    requires |e| >= 2
  {
    (e[|e| - 2], Last(e))
  }

  ghost predicate Reported(reports: seq<Trail>, m: Name, d: Name) {
    exists i :: 0 <= i < |reports| && |reports[i]| >= 2 && EdgeOf(reports[i]) == (m, d)
  }

  /** Every report is a real chain to a forbidden module, and no edge is reported twice. */
  ghost predicate GoodReports(g: Graph, source: Name, forbidden: seq<Name>, reports: seq<Trail>) {
    && (forall i | 0 <= i < |reports| :: GoodReport(g, source, forbidden, reports[i]))
    && (forall i, j | 0 <= i < j < |reports| :: EdgeOf(reports[i]) != EdgeOf(reports[j]))
  }

  lemma GoodReportIsChain(g: Graph, source: Name, forbidden: seq<Name>, e: Trail)
    requires GoodReport(g, source, forbidden, e)
    ensures Chain(g, source, e)
    ensures ForbiddenImport(g, source, forbidden, EdgeOf(e).0, EdgeOf(e).1)
  {
    var p := e[..|e| - 1];
    assert Last(p) == e[|e| - 2];
    forall i | 0 <= i < |e| - 1
      ensures e[i + 1] in Imports(g, e[i])
    {
      if i < |e| - 2 {
        assert p[i] == e[i] && p[i + 1] == e[i + 1];
      }
    }
  }

  /** The first forbidden module on a chain is reached by a clean chain. */
  lemma {:induction false} FirstForbidden(g: Graph, source: Name, forbidden: seq<Name>, p: Trail)
    requires Chain(g, source, p) && |p| >= 2 && IsForbidden(Last(p), forbidden)
    ensures exists m, d :: ForbiddenImport(g, source, forbidden, m, d)
    decreases |p|
  {
    var front := p[..|p| - 1];
    assert Chain(g, source, front);
    if i :| 1 <= i < |front| && IsForbidden(front[i], forbidden) {
      assert Chain(g, source, p[..i + 1]);
      FirstForbidden(g, source, forbidden, p[..i + 1]);
    } else {
      assert Clean(g, source, forbidden, front);
      assert ForbiddenImport(g, source, forbidden, Last(front), Last(p));
    }
  }

  /** Reporting every forbidden import once is enough: the list is empty exactly when no chain
      leads to a forbidden subtree. */
  lemma NoReportsMeansKept(g: Graph, source: Name, forbidden: seq<Name>, reports: seq<Trail>)
    requires GoodReports(g, source, forbidden, reports)
    requires forall m, d | ForbiddenImport(g, source, forbidden, m, d) :: Reported(reports, m, d)
    ensures reports == [] <==> !Broken(g, source, forbidden)
  {
    if reports != [] {
      GoodReportIsChain(g, source, forbidden, reports[0]);
    }
    if Broken(g, source, forbidden) {
      var p :| Chain(g, source, p) && |p| >= 2 && IsForbidden(Last(p), forbidden);
      FirstForbidden(g, source, forbidden, p);
    }
  }

  // ---------------------------------------------------------------- what the search keeps

  datatype Entry = Entry(m: Name, trail: Trail)

  ghost predicate Queued(pending: seq<Entry>, m: Name) {
    exists i :: 0 <= i < |pending| && pending[i].m == m
  }

  ghost predicate GoodEntries(g: Graph, source: Name, forbidden: seq<Name>, pending: seq<Entry>) {
    forall i | 0 <= i < |pending| ::
      Clean(g, source, forbidden, pending[i].trail) && Last(pending[i].trail) == pending[i].m
  }

  /** A dependency has been dealt with: reported, or on its way. */
  ghost predicate Settled(forbidden: seq<Name>, seen: set<Name>, pending: seq<Entry>, reports: seq<Trail>, m: Name, d: Name) {
    if IsForbidden(d, forbidden) then Reported(reports, m, d) else d in seen || Queued(pending, d)
  }

  /** Everything the loops keep; `m` is the module whose imports are being gone through, of
      which `todo` are left. */
  ghost predicate Searching(g: Graph, source: Name, forbidden: seq<Name>, seen: set<Name>, pending: seq<Entry>,
                            reports: seq<Trail>, m: Name, todo: set<Name>)
  {
    && GoodEntries(g, source, forbidden, pending)
    && GoodReports(g, source, forbidden, reports)
    && (forall r | r in Roots(g, source) :: r in seen || Queued(pending, r))
    && (forall x, d | x in seen && d in Imports(g, x) && !(x == m && d in todo) :: Settled(forbidden, seen, pending, reports, x, d))
    && (forall i | 0 <= i < |reports| :: EdgeOf(reports[i]).0 in seen)
    && (forall d | d in todo :: !Reported(reports, m, d))
  }

  lemma {:induction false} CleanIsSeen(g: Graph, source: Name, forbidden: seq<Name>, seen: set<Name>, reports: seq<Trail>, p: Trail)
    requires Searching(g, source, forbidden, seen, [], reports, "", {}) && Clean(g, source, forbidden, p)
    ensures Last(p) in seen
    decreases |p|
  {
    if |p| > 1 {
      var front := p[..|p| - 1];
      CleanIsSeen(g, source, forbidden, seen, reports, front);
      assert Settled(forbidden, seen, [], reports, Last(front), Last(p));
    } else {
      assert p[0] in seen || Queued([], p[0]);
    }
  }

  lemma SearchIsComplete(g: Graph, source: Name, forbidden: seq<Name>, seen: set<Name>, reports: seq<Trail>)
    requires Searching(g, source, forbidden, seen, [], reports, "", {})
    ensures forall m, d | ForbiddenImport(g, source, forbidden, m, d) :: Reported(reports, m, d)
  {
    forall m, d | ForbiddenImport(g, source, forbidden, m, d)
      ensures Reported(reports, m, d)
    {
      var p :| Clean(g, source, forbidden, p) && Last(p) == m;
      CleanIsSeen(g, source, forbidden, seen, reports, p);
      assert Settled(forbidden, seen, [], reports, m, d);
    }
  }

  lemma SkipKeeps(g: Graph, source: Name, forbidden: seq<Name>, seen: set<Name>, pending: seq<Entry>, reports: seq<Trail>)
    requires Searching(g, source, forbidden, seen, pending, reports, "", {}) && pending != []
    requires pending[|pending| - 1].m in seen
    ensures Searching(g, source, forbidden, seen, pending[..|pending| - 1], reports, "", {})
  {
    QueuedButLast(pending);
    var rest := pending[..|pending| - 1];
    forall x, d | x in seen && d in Imports(g, x)
      ensures Settled(forbidden, seen, rest, reports, x, d)
    {
      assert Settled(forbidden, seen, pending, reports, x, d);
    }
  }

  lemma QueuedButLast(pending: seq<Entry>)
    requires pending != []
    ensures forall x :: Queued(pending, x) <==> x == pending[|pending| - 1].m || Queued(pending[..|pending| - 1], x)
  {
    var rest := pending[..|pending| - 1];
    forall x
      ensures Queued(pending, x) <==> x == pending[|pending| - 1].m || Queued(rest, x)
    {
      if x == pending[|pending| - 1].m {
        assert Queued(pending, x);
      }
      if i :| 0 <= i < |rest| && rest[i].m == x {
        assert pending[i].m == x;
      }
    }
  }

  lemma OpenKeeps(g: Graph, source: Name, forbidden: seq<Name>, seen: set<Name>, pending: seq<Entry>, reports: seq<Trail>)
    requires Searching(g, source, forbidden, seen, pending, reports, "", {}) && pending != []
    requires pending[|pending| - 1].m !in seen
    ensures var m := pending[|pending| - 1].m;
            Searching(g, source, forbidden, seen + {m}, pending[..|pending| - 1], reports, m, Imports(g, m))
  {
    QueuedButLast(pending);
    var m, rest := pending[|pending| - 1].m, pending[..|pending| - 1];
    forall x, d | x in seen + {m} && d in Imports(g, x) && !(x == m && d in Imports(g, m))
      ensures Settled(forbidden, seen + {m}, rest, reports, x, d)
    {
      assert Settled(forbidden, seen, pending, reports, x, d);
    }
  }

  lemma ReportKeeps(g: Graph, source: Name, forbidden: seq<Name>, seen: set<Name>, pending: seq<Entry>, reports: seq<Trail>,
                    trail: Trail, todo: set<Name>, d: Name)
    requires Clean(g, source, forbidden, trail) && Last(trail) in seen
    requires Searching(g, source, forbidden, seen, pending, reports, Last(trail), todo)
    requires d in todo && d in Imports(g, Last(trail)) && IsForbidden(d, forbidden)
    ensures Searching(g, source, forbidden, seen, pending, reports + [trail + [d]], Last(trail), todo - {d})
  {
    var m, e := Last(trail), trail + [d];
    var reports' := reports + [e];
    assert e[..|e| - 1] == trail && EdgeOf(e) == (m, d);
    forall i | 0 <= i < |reports|
      ensures EdgeOf(reports[i]) != (m, d)
    {
      assert !Reported(reports, m, d);
    }
    ReportedAppend(reports, e);
    forall x, y | x in seen && y in Imports(g, x) && !(x == m && y in todo - {d})
      ensures Settled(forbidden, seen, pending, reports', x, y)
    {
      if (x, y) != (m, d) {
        assert Settled(forbidden, seen, pending, reports, x, y);
      }
    }
  }

  lemma ReportedAppend(reports: seq<Trail>, e: Trail)
    requires |e| >= 2
    ensures forall m, d :: Reported(reports + [e], m, d) <==> Reported(reports, m, d) || EdgeOf(e) == (m, d)
  {
    var reports' := reports + [e];
    forall m, d
      ensures Reported(reports', m, d) <==> Reported(reports, m, d) || EdgeOf(e) == (m, d)
    {
      assert reports'[|reports|] == e;
      if i :| 0 <= i < |reports| && |reports[i]| >= 2 && EdgeOf(reports[i]) == (m, d) {
        assert EdgeOf(reports'[i]) == (m, d);
      }
    }
  }

  lemma PushKeeps(g: Graph, source: Name, forbidden: seq<Name>, seen: set<Name>, pending: seq<Entry>, reports: seq<Trail>,
                  trail: Trail, todo: set<Name>, d: Name)
    requires Clean(g, source, forbidden, trail) && Last(trail) in seen
    requires Searching(g, source, forbidden, seen, pending, reports, Last(trail), todo)
    requires d in todo && d in Imports(g, Last(trail)) && !IsForbidden(d, forbidden)
    ensures Searching(g, source, forbidden, seen, pending + [Entry(d, trail + [d])], reports, Last(trail), todo - {d})
  {
    var m, pending' := Last(trail), pending + [Entry(d, trail + [d])];
    assert pending'[..|pending|] == pending;
    QueuedButLast(pending');
    forall x, y | x in seen && y in Imports(g, x) && !(x == m && y in todo - {d})
      ensures Settled(forbidden, seen, pending', reports, x, y)
    {
      if (x, y) != (m, d) {
        assert Settled(forbidden, seen, pending, reports, x, y);
      }
    }
  }

  // ---------------------------------------------------------------- the program

  /** The entries for the roots, in any order. */
  method QueueRoots(ghost g: Graph, ghost source: Name, ghost forbidden: seq<Name>, roots: set<Name>) returns (pending: seq<Entry>)
    requires roots == Roots(g, source)
    ensures GoodEntries(g, source, forbidden, pending)
    ensures forall r :: r in roots <==> Queued(pending, r)
  {
    pending := [];
    var todo := roots;
    while todo != {}
      invariant todo <= roots && GoodEntries(g, source, forbidden, pending)
      invariant forall r :: r in roots - todo <==> Queued(pending, r)
      decreases todo
    {
      var r :| r in todo;
      todo := todo - {r};
      ghost var before := pending;
      pending := pending + [Entry(r, [r])];
      assert pending[..|before|] == before;
      QueuedButLast(pending);
    }
  }

  /** The inner loop, over the imports of one module in any order. */
  method Expand(g: Graph, ghost source: Name, forbidden: seq<Name>, ghost seen: set<Name>, trail: Trail,
                pending0: seq<Entry>, reports0: seq<Trail>) returns (pending: seq<Entry>, reports: seq<Trail>)
    requires Clean(g, source, forbidden, trail) && Last(trail) in seen
    requires Searching(g, source, forbidden, seen, pending0, reports0, Last(trail), Imports(g, Last(trail)))
    ensures Searching(g, source, forbidden, seen, pending, reports, Last(trail), {})
  {
    pending, reports := pending0, reports0;
    var todo := Imports(g, Last(trail));
    while todo != {}
      invariant todo <= Imports(g, Last(trail))
      invariant Searching(g, source, forbidden, seen, pending, reports, Last(trail), todo)
      decreases todo
    {
      var dependency :| dependency in todo;
      var chain := trail + [dependency];
      if exists i | 0 <= i < |forbidden| :: InSubtree(dependency, forbidden[i]) {
        ReportKeeps(g, source, forbidden, seen, pending, reports, trail, todo, dependency);
        reports := reports + [chain];
      } else {
        PushKeeps(g, source, forbidden, seen, pending, reports, trail, todo, dependency);
        pending := pending + [Entry(dependency, chain)];
      }
      todo := todo - {dependency};
    }
  }

  /** The worklist search of one source: whatever the iteration order, each forbidden import
      it can reach is reported exactly once, by a real chain. */
  method Search(g: Graph, source: Name, forbidden: seq<Name>) returns (reports: seq<Trail>)
    ensures GoodReports(g, source, forbidden, reports)
    ensures forall m, d :: Reported(reports, m, d) <==> ForbiddenImport(g, source, forbidden, m, d)
    ensures reports == [] <==> !Broken(g, source, forbidden)
  {
    var pending := QueueRoots(g, source, forbidden, Roots(g, source));
    var seen: set<Name> := {};
    reports := [];
    while pending != []
      invariant Searching(g, source, forbidden, seen, pending, reports, "", {})
      invariant seen <= Modules(g) && forall i | 0 <= i < |pending| :: pending[i].m in Modules(g)
      decreases Modules(g) - seen, |pending|
    {
      var entry := pending[|pending| - 1];
      if entry.m in seen {
        SkipKeeps(g, source, forbidden, seen, pending, reports);
        pending := pending[..|pending| - 1];
        continue;
      }
      OpenKeeps(g, source, forbidden, seen, pending, reports);
      seen := seen + {entry.m};
      pending, reports := Expand(g, source, forbidden, seen, entry.trail, pending[..|pending| - 1], reports);
      EntriesAreModules(g, source, forbidden, pending);
    }
    SearchIsComplete(g, source, forbidden, seen, reports);
    ReportsAreForbiddenImports(g, source, forbidden, reports);
    NoReportsMeansKept(g, source, forbidden, reports);
  }

  /** Every module a search can meet. */
  ghost function Modules(g: Graph): set<Name> {
    g.Keys + set m, d | m in g && d in g[m] :: d
  }

  lemma EntriesAreModules(g: Graph, source: Name, forbidden: seq<Name>, pending: seq<Entry>)
    requires GoodEntries(g, source, forbidden, pending)
    ensures forall i | 0 <= i < |pending| :: pending[i].m in Modules(g)
  {
    forall i | 0 <= i < |pending|
      ensures pending[i].m in Modules(g)
    {
      var p := pending[i].trail;
      if |p| > 1 {
        assert p[|p| - 2 + 1] in Imports(g, p[|p| - 2]);
      }
    }
  }

  lemma ReportsAreForbiddenImports(g: Graph, source: Name, forbidden: seq<Name>, reports: seq<Trail>)
    requires GoodReports(g, source, forbidden, reports)
    ensures forall m, d | Reported(reports, m, d) :: ForbiddenImport(g, source, forbidden, m, d)
  {
    forall m, d | Reported(reports, m, d)
      ensures ForbiddenImport(g, source, forbidden, m, d)
    {
      var i :| 0 <= i < |reports| && |reports[i]| >= 2 && EdgeOf(reports[i]) == (m, d);
      GoodReportIsChain(g, source, forbidden, reports[i]);
    }
  }

  /** A contract holds: it is of the supported kind, its sources exist, and nothing they
      contain imports, directly or not, what it forbids. */
  ghost predicate Holds(g: Graph, c: Contract, n: nat)
    requires n <= |c.sources|
  {
    c.kind == "forbidden" && forall i | 0 <= i < n :: c.sources[i] in g && !Broken(g, c.sources[i], c.forbidden)
  }

  /** An error line that the first `n` sources of a contract account for. */
  ghost predicate Legit(g: Graph, c: Contract, n: nat, e: Error)
    requires n <= |c.sources|
  {
    match e
    case Unsupported(_) => false
    case Missing(s) => s in c.sources[..n] && s !in g
    case Violation(name, chain) =>
      name == c.name && exists i :: 0 <= i < n && c.sources[i] in g && GoodReport(g, c.sources[i], c.forbidden, chain)
  }

  /** A violation of the named contract by way of the import of `d` in `m`. */
  ghost predicate Listed(errors: seq<Error>, name: string, m: Name, d: Name) {
    exists e :: e in errors && LinesUp(e, name, m, d)
  }

  predicate LinesUp(e: Error, name: string, m: Name, d: Name) {
    e.Violation? && e.contract == name && |e.chain| >= 2 && EdgeOf(e.chain) == (m, d)
  }

  /** What the first `n` sources have to answer for is in the list. */
  ghost predicate Complete(g: Graph, c: Contract, n: nat, errors: seq<Error>)
    requires n <= |c.sources|
  {
    forall i | 0 <= i < n ::
      if c.sources[i] !in g then Missing(c.sources[i]) in errors
      else forall m, d | ForbiddenImport(g, c.sources[i], c.forbidden, m, d) :: Listed(errors, c.name, m, d)
  }

  ghost predicate Sound(g: Graph, c: Contract, n: nat, errors: seq<Error>)
    requires n <= |c.sources|
  {
    forall k | 0 <= k < |errors| :: Legit(g, c, n, errors[k])
  }

  function Violations(name: string, reports: seq<Trail>): (errors: seq<Error>)
    ensures |errors| == |reports| && forall k | 0 <= k < |errors| :: errors[k] == Violation(name, reports[k])
  {
    seq(|reports|, k requires 0 <= k < |reports| => Violation(name, reports[k]))
  }

  lemma CompleteStays(g: Graph, c: Contract, n: nat, errors: seq<Error>, all: seq<Error>)
    requires n <= |c.sources| && Complete(g, c, n, errors) && forall e | e in errors :: e in all
    ensures Complete(g, c, n, all)
  {
    forall i, m, d | 0 <= i < n && c.sources[i] in g && ForbiddenImport(g, c.sources[i], c.forbidden, m, d)
      ensures Listed(all, c.name, m, d)
    {
      assert Listed(errors, c.name, m, d);
    }
  }

  lemma SoundStays(g: Graph, c: Contract, n: nat, errors: seq<Error>, found: seq<Error>)
    requires n < |c.sources| && Sound(g, c, n, errors)
    requires forall k | 0 <= k < |found| :: Legit(g, c, n + 1, found[k])
    ensures Sound(g, c, n + 1, errors + found)
  {
    forall k | 0 <= k < |errors|
      ensures Legit(g, c, n + 1, errors[k])
    {
      assert Legit(g, c, n, errors[k]);
      assert forall x | x in c.sources[..n] :: x in c.sources[..n + 1];
    }
  }

  lemma ReportedIsListed(name: string, reports: seq<Trail>, m: Name, d: Name)
    requires Reported(reports, m, d)
    ensures Listed(Violations(name, reports), name, m, d)
  {
    var k :| 0 <= k < |reports| && |reports[k]| >= 2 && EdgeOf(reports[k]) == (m, d);
    var e := Violations(name, reports)[k];
    assert e in Violations(name, reports) && LinesUp(e, name, m, d);
  }

  /** The error lines of source `n` alone. */
  ghost predicate SourceErrors(g: Graph, c: Contract, n: nat, found: seq<Error>)
    requires n < |c.sources|
  {
    && (forall k | 0 <= k < |found| :: Legit(g, c, n + 1, found[k]))
    && (if c.sources[n] !in g then found == [Missing(c.sources[n])]
        else forall m, d | ForbiddenImport(g, c.sources[n], c.forbidden, m, d) :: Listed(found, c.name, m, d))
    && (found == [] <==> c.sources[n] in g && !Broken(g, c.sources[n], c.forbidden))
  }

  method CheckSource(g: Graph, c: Contract, n: nat) returns (found: seq<Error>)
    requires n < |c.sources|
    ensures SourceErrors(g, c, n, found)
  {
    if c.sources[n] !in g {
      return [Missing(c.sources[n])];
    }
    var reports := Search(g, c.sources[n], c.forbidden);
    found := Violations(c.name, reports);
    forall m, d | ForbiddenImport(g, c.sources[n], c.forbidden, m, d)
      ensures Listed(found, c.name, m, d)
    {
      ReportedIsListed(c.name, reports, m, d);
    }
  }

  /** Every line is a missing source or a real forbidden chain of this contract, none that the
      sources have to answer for is missing, and there is none exactly when the contract holds. */
  ghost predicate Checked(g: Graph, c: Contract, n: nat, errors: seq<Error>)
    requires n <= |c.sources|
  {
    Sound(g, c, n, errors) && Complete(g, c, n, errors) && (errors == [] <==> Holds(g, c, n))
  }

  lemma AddedIsComplete(g: Graph, c: Contract, n: nat, errors: seq<Error>, found: seq<Error>)
    requires n < |c.sources| && Complete(g, c, n, errors) && SourceErrors(g, c, n, found)
    ensures Complete(g, c, n + 1, errors + found)
  {
    CompleteStays(g, c, n, errors, errors + found);
    assert forall e | e in found :: e in errors + found;
    if c.sources[n] in g {
      forall m, d | ForbiddenImport(g, c.sources[n], c.forbidden, m, d)
        ensures Listed(errors + found, c.name, m, d)
      {
        assert Listed(found, c.name, m, d);
      }
    } else {
      assert Missing(c.sources[n]) in found;
    }
  }

  lemma SourceIsChecked(g: Graph, c: Contract, n: nat, errors: seq<Error>, found: seq<Error>)
    requires n < |c.sources| && Checked(g, c, n, errors) && SourceErrors(g, c, n, found)
    ensures Checked(g, c, n + 1, errors + found)
  {
    SoundStays(g, c, n, errors, found);
    AddedIsComplete(g, c, n, errors, found);
    assert Holds(g, c, n + 1) <==> Holds(g, c, n) && c.sources[n] in g && !Broken(g, c.sources[n], c.forbidden);
  }

  method CheckContract(g: Graph, c: Contract) returns (errors: seq<Error>)
    requires c.kind == "forbidden"
    ensures Checked(g, c, |c.sources|, errors)
  {
    errors := [];
    for i := 0 to |c.sources|
      invariant Checked(g, c, i, errors)
    {
      var found := CheckSource(g, c, i);
      SourceIsChecked(g, c, i, errors, found);
      errors := errors + found;
    }
  }

  /** An error line that some contract accounts for. */
  ghost predicate Due(g: Graph, contracts: seq<Contract>, e: Error) {
    exists k :: 0 <= k < |contracts| && DueTo(g, contracts[k], e)
  }

  ghost predicate DueTo(g: Graph, c: Contract, e: Error) {
    if c.kind == "forbidden" then Legit(g, c, |c.sources|, e) else e == Unsupported(c.kind)
  }

  /** What a contract has to answer for is in the list. */
  ghost predicate Answered(g: Graph, c: Contract, errors: seq<Error>) {
    if c.kind == "forbidden" then Complete(g, c, |c.sources|, errors) else Unsupported(c.kind) in errors
  }

  lemma AnsweredStays(g: Graph, c: Contract, errors: seq<Error>, all: seq<Error>)
    requires Answered(g, c, errors) && forall e | e in errors :: e in all
    ensures Answered(g, c, all)
  {
    if c.kind == "forbidden" {
      CompleteStays(g, c, |c.sources|, errors, all);
    }
  }

  /** The errors of one contract. */
  ghost predicate ContractErrors(g: Graph, c: Contract, found: seq<Error>) {
    && Answered(g, c, found) && (forall i | 0 <= i < |found| :: DueTo(g, c, found[i]))
    && (found == [] <==> Holds(g, c, |c.sources|))
  }

  method CheckOne(g: Graph, c: Contract) returns (found: seq<Error>)
    ensures ContractErrors(g, c, found)
  {
    if c.kind != "forbidden" {
      found := [Unsupported(c.kind)];
    } else {
      found := CheckContract(g, c);
    }
  }

  /** The list holds every error that the first `n` contracts have to answer for, and no other. */
  ghost predicate AllChecked(g: Graph, contracts: seq<Contract>, n: nat, errors: seq<Error>)
    requires n <= |contracts|
  {
    && (forall i | 0 <= i < |errors| :: Due(g, contracts, errors[i]))
    && (forall k | 0 <= k < n :: Answered(g, contracts[k], errors))
    && (errors == [] <==> forall k | 0 <= k < n :: Holds(g, contracts[k], |contracts[k].sources|))
  }

  lemma DueStays(g: Graph, contracts: seq<Contract>, n: nat, found: seq<Error>)
    requires n < |contracts| && ContractErrors(g, contracts[n], found)
    ensures forall i | 0 <= i < |found| :: Due(g, contracts, found[i])
  {
    forall i | 0 <= i < |found|
      ensures Due(g, contracts, found[i])
    {
      assert DueTo(g, contracts[n], found[i]);
    }
  }

  lemma AllAnswered(g: Graph, contracts: seq<Contract>, n: nat, errors: seq<Error>, found: seq<Error>)
    requires n < |contracts| && Answered(g, contracts[n], found)
    requires forall k | 0 <= k < n :: Answered(g, contracts[k], errors)
    ensures forall k | 0 <= k < n + 1 :: Answered(g, contracts[k], errors + found)
  {
    forall k | 0 <= k < n + 1
      ensures Answered(g, contracts[k], errors + found)
    {
      AnsweredStays(g, contracts[k], if k < n then errors else found, errors + found);
    }
  }

  lemma ContractIsChecked(g: Graph, contracts: seq<Contract>, n: nat, errors: seq<Error>, found: seq<Error>)
    requires n < |contracts| && AllChecked(g, contracts, n, errors) && ContractErrors(g, contracts[n], found)
    ensures AllChecked(g, contracts, n + 1, errors + found)
  {
    DueStays(g, contracts, n, found);
    AllAnswered(g, contracts, n, errors, found);
    NoneIffAllHold(g, contracts, n, errors, found);
  }

  lemma NoneIffAllHold(g: Graph, contracts: seq<Contract>, n: nat, errors: seq<Error>, found: seq<Error>)
    requires n < |contracts|
    requires errors == [] <==> forall k | 0 <= k < n :: Holds(g, contracts[k], |contracts[k].sources|)
    requires found == [] <==> Holds(g, contracts[n], |contracts[n].sources|)
    ensures errors + found == [] <==> forall k | 0 <= k < n + 1 :: Holds(g, contracts[k], |contracts[k].sources|)
  {
  }

  /** `main`: the list holds every error that is due and no other, and the exit status is nonzero
      exactly when some contract does not hold. */
  method CheckContracts(g: Graph, contracts: seq<Contract>) returns (errors: seq<Error>, failed: bool)
    ensures AllChecked(g, contracts, |contracts|, errors)
    ensures !failed <==> forall k | 0 <= k < |contracts| :: Holds(g, contracts[k], |contracts[k].sources|)
  {
    errors := [];
    for n := 0 to |contracts|
      invariant AllChecked(g, contracts, n, errors)
    {
      var found := CheckOne(g, contracts[n]);
      ContractIsChecked(g, contracts, n, errors, found);
      errors := errors + found;
    }
    failed := errors != [];
  }
}
