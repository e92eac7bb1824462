/** The radio mesh of scripts/simulate_tcp_mesh_network.py: symmetric links and the
    breadth-first `find_route`.  Keys are already in lower case. */
module MeshRouting {
  type Key = string
  type Links = map<Key, set<Key>>
  type Path = seq<Key>

  function Neighbors(links: Links, k: Key): set<Key> {
    if k in links then links[k] else {}
  }

  function Last(p: Path): Key
    requires p != []
  {
    p[|p| - 1]
  }

  /** A walk over existing links that starts at `src`. */
  ghost predicate Route(links: Links, p: Path, src: Key) {
    && p != [] && p[0] == src
    && forall i | 0 <= i < |p| - 1 :: p[i + 1] in Neighbors(links, p[i])
  }

  ghost predicate Simple(p: Path) {
    forall i, j | 0 <= i < j < |p| :: p[i] != p[j]
  }

  /** No walk from `src` reaches the end of `p` in fewer hops. */
  ghost predicate Shortest(links: Links, p: Path, src: Key)
    requires p != []
  {
    forall q | Route(links, q, src) && Last(q) == Last(p) :: |p| <= |q|
  }

  ghost predicate NoRoute(links: Links, src: Key, dst: Key) {
    forall q | Route(links, q, src) :: Last(q) != dst
  }

  // ---------------------------------------------------------------- what the search keeps

  ghost predicate GoodPath(links: Links, p: Path, src: Key, visited: set<Key>) {
    && Route(links, p, src) && Simple(p) && Shortest(links, p, src)
    && forall x | x in p :: x in visited
  }

  /** Everything within `d - 1` hops has been visited. */
  ghost predicate Within(links: Links, src: Key, visited: set<Key>, d: nat) {
    forall q | Route(links, q, src) && |q| <= d :: Last(q) in visited
  }

  /** `x` needs no more work, or is the end of a queued path. */
  ghost predicate Handled(links: Links, queue: seq<Path>, visited: set<Key>, x: Key) {
    Neighbors(links, x) <= visited || exists i :: 0 <= i < |queue| && queue[i] != [] && Last(queue[i]) == x
  }

  /** Queued paths come in order of length, in at most two lengths. */
  ghost predicate TwoLayers(queue: seq<Path>, d: nat) {
    && (forall i | 0 <= i < |queue| :: d <= |queue[i]| <= d + 1)
    && (forall i, j | 0 <= i < j < |queue| :: |queue[i]| <= |queue[j]|)
  }

  ghost predicate Frontier(links: Links, src: Key, queue: seq<Path>, visited: set<Key>) {
    && src in visited
    && (forall i | 0 <= i < |queue| :: GoodPath(links, queue[i], src, visited))
    && (forall x | x in visited :: Handled(links, queue, visited, x))
    && (queue != [] ==> TwoLayers(queue, |queue[0]|) && Within(links, src, visited, |queue[0]|))
  }

  /** While the neighbours of the end of `path` are being looked at. */
  ghost predicate Expanding(links: Links, src: Key, path: Path, queue: seq<Path>, visited: set<Key>) {
    && src in visited
    && GoodPath(links, path, src, visited)
    && (forall i | 0 <= i < |queue| :: GoodPath(links, queue[i], src, visited))
    && (forall x | x in visited && x != Last(path) :: Handled(links, queue, visited, x))
    && TwoLayers(queue, |path|) && Within(links, src, visited, |path|)
  }

  lemma StartOfSearch(links: Links, src: Key)
    ensures Frontier(links, src, [[src]], {src})
  {
  }

  lemma PopKeeps(links: Links, src: Key, queue: seq<Path>, visited: set<Key>)
    requires queue != [] && Frontier(links, src, queue, visited)
    ensures Expanding(links, src, queue[0], queue[1..], visited)
  {
  }

  /** A neighbour seen for the first time extends the path to a shortest simple one. */
  lemma ExtensionIsGood(links: Links, src: Key, path: Path, visited: set<Key>, n: Key)
    requires GoodPath(links, path, src, visited) && Within(links, src, visited, |path|)
    requires n in Neighbors(links, Last(path)) && n !in visited
    ensures GoodPath(links, path + [n], src, visited + {n})
  {
  }

  lemma PushKeeps(links: Links, src: Key, path: Path, queue: seq<Path>, visited: set<Key>, n: Key)
    requires Expanding(links, src, path, queue, visited)
    requires n in Neighbors(links, Last(path)) && n !in visited
    ensures Expanding(links, src, path, queue + [path + [n]], visited + {n})
  {
    ExtensionIsGood(links, src, path, visited, n);
    var queue' := queue + [path + [n]];
    forall x | x in visited + {n} && x != Last(path)
      ensures Handled(links, queue', visited + {n}, x)
    {
      if x == n {
        assert Last(queue'[|queue|]) == n;
      } else {
        assert Handled(links, queue, visited, x);
        if !(Neighbors(links, x) <= visited) {
          var i :| 0 <= i < |queue| && queue[i] != [] && Last(queue[i]) == x;
          assert queue'[i] == queue[i];
        }
      }
    }
  }

  /** No path of a later layer ends where a shorter walk already leads. */
  lemma EndsOfNextLayer(links: Links, src: Key, queue: seq<Path>, visited: set<Key>, q: Path)
    requires Route(links, q, src)
    requires forall i | 0 <= i < |queue| :: GoodPath(links, queue[i], src, visited) && |q| < |queue[i]|
    ensures forall i | 0 <= i < |queue| && queue[i] != [] :: Last(queue[i]) != Last(q)
  {
  }

  /** When the queue moves on to the next layer, the layer before it has been expanded whole. */
  lemma NextLayer(links: Links, src: Key, path: Path, queue: seq<Path>, visited: set<Key>)
    requires Expanding(links, src, path, queue, visited) && Neighbors(links, Last(path)) <= visited
    requires queue != [] && |queue[0]| == |path| + 1
    ensures Within(links, src, visited, |path| + 1)
  {
    forall q | Route(links, q, src) && |q| <= |path| + 1
      ensures Last(q) in visited
    {
      if |q| == |path| + 1 {
        var q' := q[..|path|];
        assert Route(links, q', src);
        EndsOfNextLayer(links, src, queue, visited, q');
        assert Last(q') in visited;
        assert Last(q') == Last(path) || Handled(links, queue, visited, Last(q'));
        assert Last(q) in Neighbors(links, Last(q'));
      }
    }
  }

  lemma ExpandedKeeps(links: Links, src: Key, path: Path, queue: seq<Path>, visited: set<Key>)
    requires Expanding(links, src, path, queue, visited) && Neighbors(links, Last(path)) <= visited
    ensures Frontier(links, src, queue, visited)
  {
    if queue != [] && |queue[0]| == |path| + 1 {
      NextLayer(links, src, path, queue, visited);
    }
  }

  /** A walk cannot leave a set that is closed under links. */
  lemma {:induction false} ClosedUnderLinks(links: Links, src: Key, visited: set<Key>, q: Path)
    requires src in visited && forall x | x in visited :: Neighbors(links, x) <= visited
    requires Route(links, q, src)
    ensures Last(q) in visited
    decreases |q|
  {
    if |q| > 1 {
      var q' := q[..|q| - 1];
      assert Route(links, q', src);
      ClosedUnderLinks(links, src, visited, q');
      assert Last(q) in Neighbors(links, Last(q'));
    }
  }

  lemma ExhaustedMeansNoRoute(links: Links, src: Key, dst: Key, visited: set<Key>)
    requires Frontier(links, src, [], visited) && dst !in visited
    ensures NoRoute(links, src, dst)
  {
    forall x | x in visited
      ensures Neighbors(links, x) <= visited
    {
      assert Handled(links, [], visited, x);
    }
    forall q | Route(links, q, src)
      ensures Last(q) != dst
    {
      ClosedUnderLinks(links, src, visited, q);
    }
  }

  /** What `find_route` promises of a route that it finds. */
  ghost predicate Best(links: Links, route: Path, src: Key, dst: Key) {
    && Route(links, route, src) && Last(route) == dst && Simple(route) && Shortest(links, route, src)
  }

  lemma FoundIsBest(links: Links, src: Key, path: Path, visited: set<Key>, dst: Key)
    requires GoodPath(links, path, src, visited) && Within(links, src, visited, |path|)
    requires dst in Neighbors(links, Last(path)) && dst !in visited
    ensures Best(links, path + [dst], src, dst) && !NoRoute(links, src, dst)
  {
    ExtensionIsGood(links, src, path, visited, dst);
    assert Last(path + [dst]) == dst;
  }

  // ---------------------------------------------------------------- the program

  /** The inner loop, over the neighbours of the end of `path` in any order. */
  method Expand(links: Links, ghost src: Key, path: Path, queue0: seq<Path>, visited0: set<Key>, dst: Key, ghost universe: set<Key>)
    returns (found: bool, queue: seq<Path>, visited: set<Key>)
    requires Expanding(links, src, path, queue0, visited0)
    requires dst !in visited0 && visited0 <= universe && Neighbors(links, Last(path)) <= universe
    ensures Expanding(links, src, path, queue, visited) && dst !in visited && visited0 <= visited <= universe
    ensures found ==> dst in Neighbors(links, Last(path))
    ensures !found ==> Neighbors(links, Last(path)) <= visited
    ensures visited == visited0 ==> queue == queue0
  {
    found, queue, visited := false, queue0, visited0;
    var todo := Neighbors(links, Last(path));
    while todo != {}
      invariant Expanding(links, src, path, queue, visited) && dst !in visited && visited0 <= visited <= universe
      invariant todo <= Neighbors(links, Last(path)) <= todo + visited
      invariant visited == visited0 ==> queue == queue0
      decreases todo
    {
      var neighbor :| neighbor in todo;
      todo := todo - {neighbor};
      if neighbor == dst {
        return true, queue, visited;
      }
      if neighbor !in visited {
        PushKeeps(links, src, path, queue, visited, neighbor);
        visited := visited + {neighbor};
        queue := queue + [path + [neighbor]];
      }
    }
  }

  class MeshNetwork {
    var nodes: set<Key>
    var links: Links

    ghost predicate Valid()
      reads this
    {
      && nodes <= links.Keys
      && (forall a, b | a in links && b in links[a] :: b in links && a in links[b])
    }

    constructor ()
      ensures Valid() && nodes == {} && links == map[]
    {
      nodes, links := {}, map[];
    }

    method AddNode(k: Key)
      requires Valid()
      modifies this
      ensures Valid() && nodes == old(nodes) + {k}
      ensures forall x :: Neighbors(links, x) == Neighbors(old(links), x)
    {
      nodes := nodes + {k};
      if k !in links {
        links := links[k := {}];
      }
    }

    /** Links stay symmetric, and only the given pair is added, when both ends are known. */
    method AddBidirectionalLink(a: Key, b: Key)
      requires Valid()
      modifies this`links
      ensures Valid()
      ensures forall x, y :: y in Neighbors(links, x) <==>
                y in Neighbors(old(links), x) || (a in nodes && b in nodes && ((x == a && y == b) || (x == b && y == a)))
    {
      if a in nodes && b in nodes {
        links := links[a := links[a] + {b}];
        links := links[b := links[b] + {a}];
      }
    }

    /** A shortest simple path, `[src]` for the node itself, `[]` exactly when there is none. */
    method FindRoute(src: Key, dst: Key) returns (route: Path)
      requires Valid()
      ensures route == [] <==> NoRoute(links, src, dst)
      ensures route != [] ==> Best(links, route, src, dst)
      ensures src == dst ==> route == [src]
    {
      if src == dst {
        assert Route(links, [src], src) && Last([src]) == dst;
        return [src];
      }
      var queue, visited := [[src]], {src};
      StartOfSearch(links, src);
      ghost var universe := {src} + links.Keys;
      while queue != []
        invariant Frontier(links, src, queue, visited) && dst !in visited && visited <= universe
        decreases universe - visited, |queue|
      {
        var path := queue[0];
        PopKeeps(links, src, queue, visited);
        var found;
        found, queue, visited := Expand(links, src, path, queue[1..], visited, dst, universe);
        if found {
          FoundIsBest(links, src, path, visited, dst);
          return path + [dst];
        }
        ExpandedKeeps(links, src, path, queue, visited);
      }
      ExhaustedMeansNoRoute(links, src, dst, visited);
      return [];
    }
  }
}
