/** Day 12, the passage pathing: an undirected cave graph read from "a-b" lines, and the
    number of routes from "start" to "end" that visit each small (lower-case) cave at
    most once while big (upper-case) caves may be passed any number of times. */
module Caves {
  import opened Wrappers
  import opened Text
  import opened Grid

  // ----- caves -------------------------------------------------------------------------

  /** `to_uppercase` of one character; only ASCII letters change case. */
  function UpperChar(c: char): char {
    if 'a' <= c <= 'z' then (c as int - 'a' as int + 'A' as int) as char else c
  }

  function Upper(name: string): (u: string)
    ensures |u| == |name| && forall k :: 0 <= k < |name| ==> u[k] == UpperChar(name[k])
  {
    seq(|name|, k requires 0 <= k < |name| => UpperChar(name[k]))
  }

  /** `name == name.to_uppercase()`. */
  predicate IsBig(name: string) {
    name == Upper(name)
  }

  /** A cave is big exactly when its name has no lower-case letter. */
  lemma BigIffNoLowerCase(name: string)
    ensures IsBig(name) <==> forall k :: 0 <= k < |name| ==> !('a' <= name[k] <= 'z')
  {
    if IsBig(name) {
      forall k | 0 <= k < |name| ensures !('a' <= name[k] <= 'z') {
        assert Upper(name)[k] == name[k];
      }
    } else {
      var u := Upper(name);
      var k :| 0 <= k < |name| && u[k] != name[k];
    }
  }

  datatype Cave = Cave(name: string, isBig: bool, neighbors: seq<string>)

  /** `Cave::new`. */
  function NewCave(name: string): (c: Cave)
    ensures c.name == name && c.neighbors == []
    ensures c.isBig <==> forall k :: 0 <= k < |name| ==> !('a' <= name[k] <= 'z')
  {
    BigIffNoLowerCase(name);
    Cave(name, IsBig(name), [])
  }

  /** The cave system, keyed by cave name. */
  type System = map<string, Cave>

  // ----- parsing -----------------------------------------------------------------------

  datatype CaveError = InvalidEdge(line: string)

  /** `entry(a).or_insert(Cave::new(a)).neighbors.push(b)`. */
  function AddNeighbour(sys: System, a: string, b: string): System {
    var c := if a in sys then sys[a] else NewCave(a);
    sys[a := c.(neighbors := c.neighbors + [b])]
  }

  /** One edge line: both ends learn of each other, `a` first. */
  function AddEdge(sys: System, a: string, b: string): System {
    AddNeighbour(AddNeighbour(sys, a, b), b, a)
  }

  /** The caves built from the edges so far, one edge after another. */
  function Build(edges: seq<(string, string)>): System {
    if |edges| == 0 then map[]
    else
      var e := edges[|edges| - 1];
      AddEdge(Build(edges[..|edges| - 1]), e.0, e.1)
  }

  /** The neighbour list a cave should have: for each edge in order, the other end of
      every end that is `x`. */
  function NeighboursOf(edges: seq<(string, string)>, x: string): seq<string> {
    if |edges| == 0 then []
    else
      var e := edges[|edges| - 1];
      NeighboursOf(edges[..|edges| - 1], x) + (if e.0 == x then [e.1] else []) + (if e.1 == x then [e.0] else [])
  }

  predicate Mentions(edges: seq<(string, string)>, x: string) {
    exists k :: 0 <= k < |edges| && (edges[k].0 == x || edges[k].1 == x)
  }

  /** The caves are exactly the names the edges mention. */
  lemma {:induction false} BuildKeys(edges: seq<(string, string)>)
    ensures forall x :: x in Build(edges) <==> Mentions(edges, x)
  {
    if |edges| > 0 {
      var front := edges[..|edges| - 1];
      var e := edges[|edges| - 1];
      BuildKeys(front);
      forall x ensures Mentions(edges, x) <==> Mentions(front, x) || x == e.0 || x == e.1 {
        if Mentions(edges, x) {
          var k :| 0 <= k < |edges| && (edges[k].0 == x || edges[k].1 == x);
          if k < |front| {
            assert front[k] == edges[k];
          }
        }
        if Mentions(front, x) {
          var k :| 0 <= k < |front| && (front[k].0 == x || front[k].1 == x);
          assert edges[k] == front[k];
        }
      }
    }
  }

  lemma {:induction false} UnmentionedHasNoNeighbours(edges: seq<(string, string)>, x: string)
    requires !Mentions(edges, x)
    ensures NeighboursOf(edges, x) == []
  {
    if |edges| > 0 {
      var front := edges[..|edges| - 1];
      UnmentionedHasNoNeighbours(front, x);
    }
  }

  /** Each cave is keyed by its own name, sized by its name, and lists the other end of
      every edge it is on, in input order. */
  lemma {:induction false} BuildEntry(edges: seq<(string, string)>, x: string)
    requires x in Build(edges)
    ensures Build(edges)[x] == Cave(x, IsBig(x), NeighboursOf(edges, x))
  {
    var front := edges[..|edges| - 1];
    if x in Build(front) {
      BuildEntry(front, x);
    } else {
      BuildKeys(front);
      UnmentionedHasNoNeighbours(front, x);
    }
  }

  lemma BuildSpec(edges: seq<(string, string)>)
    ensures forall x :: x in Build(edges) <==> Mentions(edges, x)
    ensures forall x :: x in Build(edges) ==> Build(edges)[x] == Cave(x, IsBig(x), NeighboursOf(edges, x))
  {
    BuildKeys(edges);
    forall x | x in Build(edges) ensures Build(edges)[x] == Cave(x, IsBig(x), NeighboursOf(edges, x)) {
      BuildEntry(edges, x);
    }
  }

  /** An edge line splits on "-" into exactly two names. */
  function ParseEdge(line: string): (r: Result<(string, string), CaveError>)
    ensures r.Ok? <==> |Split(line, "-")| == 2
    ensures r.Ok? ==> r.value.0 + "-" + r.value.1 == line && '-' !in r.value.0 && '-' !in r.value.1
    ensures r.Err? ==> r.error == InvalidEdge(line)
  {
    var parts := Split(line, "-");
    if |parts| != 2 then Err(InvalidEdge(line))
    else
      assert Join(parts, "-") == parts[0] + "-" + parts[1] by {
        assert Join(parts[..1], "-") == parts[0];
      }
      assert parts[0] in parts && parts[1] in parts;
      NoCharWithoutMatch(parts[0], '-');
      NoCharWithoutMatch(parts[1], '-');
      Ok((parts[0], parts[1]))
  }

  /** Every line read as an edge. */
  function ReadEdges(lines: seq<string>): (rs: seq<Result<(string, string), CaveError>>)
    ensures |rs| == |lines| && forall k :: 0 <= k < |lines| ==> rs[k] == ParseEdge(lines[k])
  {
    seq(|lines|, k requires 0 <= k < |lines| => ParseEdge(lines[k]))
  }

  /** The edges of the lines, stopping at the first line that is not an edge. */
  function ParseEdges(lines: seq<string>): (r: Result<seq<(string, string)>, CaveError>)
    ensures r.Ok? <==> forall k :: 0 <= k < |lines| ==> ParseEdge(lines[k]).Ok?
    ensures r.Ok? ==> |r.value| == |lines| && forall k :: 0 <= k < |lines| ==> r.value[k] == ParseEdge(lines[k]).value
    ensures r.Err? ==> exists k :: 0 <= k < |lines| && ParseEdge(lines[k]) == Err(r.error)
                                   && forall j :: 0 <= j < k ==> ParseEdge(lines[j]).Ok?
  {
    CollectFrom(ReadEdges(lines), 0)
  }

  /** `CaveSystem::from_str`: every line must be an edge "a-b"; the system holds each
      named cave with its neighbour list. An empty input is an empty system. */
  function Parse(s: string): (r: Result<System, CaveError>)
    ensures r.Ok? <==> forall k :: 0 <= k < |Lines(s)| ==> |Split(Lines(s)[k], "-")| == 2
    ensures r.Ok? ==> ParseEdges(Lines(s)).Ok? && r.value == Build(ParseEdges(Lines(s)).value)
  {
    match ParseEdges(Lines(s))
    case Err(e) => Err(e)
    case Ok(edges) => Ok(Build(edges))
  }

  /** Every neighbour a cave is given is a name some edge mentions. */
  lemma {:induction false} NeighboursMentioned(edges: seq<(string, string)>, x: string)
    ensures forall y :: y in NeighboursOf(edges, x) ==> Mentions(edges, y)
  {
    if |edges| > 0 {
      var front := edges[..|edges| - 1];
      var e := edges[|edges| - 1];
      NeighboursMentioned(front, x);
      forall y | y in NeighboursOf(edges, x) ensures Mentions(edges, y) {
        if y in NeighboursOf(front, x) {
          var k :| 0 <= k < |front| && (front[k].0 == y || front[k].1 == y);
          assert edges[k] == front[k];
        } else {
          assert e.0 == y || e.1 == y;
          assert edges[|edges| - 1] == e;
        }
      }
    }
  }

  /** A built system is keyed by its caves' own names and lists only caves it holds as
      neighbours. */
  lemma {:induction false} BuildShape(edges: seq<(string, string)>)
    ensures forall x :: x in Build(edges) ==> Build(edges)[x].name == x
    ensures forall x, k :: x in Build(edges) && 0 <= k < |Build(edges)[x].neighbors| ==>
              Build(edges)[x].neighbors[k] in Build(edges)
  {
    var sys := Build(edges);
    BuildKeys(edges);
    forall x | x in sys ensures sys[x].name == x {
      BuildEntry(edges, x);
    }
    forall x, k | x in sys && 0 <= k < |sys[x].neighbors| ensures sys[x].neighbors[k] in sys {
      BuildEntry(edges, x);
      NeighboursMentioned(edges, x);
      assert sys[x].neighbors[k] in NeighboursOf(edges, x);
    }
  }

  /** A parsed system meets the first two demands of `Navigable`: each cave is keyed by
      its own name, and every neighbour is a cave of the system. Only the demand that no
      big cave is next to a big cave depends on the input. */
  lemma ParseNavigableShape(s: string)
    requires Parse(s).Ok?
    ensures forall x :: x in Parse(s).value ==> Parse(s).value[x].name == x
    ensures forall x, k :: x in Parse(s).value && 0 <= k < |Parse(s).value[x].neighbors| ==>
              Parse(s).value[x].neighbors[k] in Parse(s).value
  {
    BuildShape(ParseEdges(Lines(s)).value);
  }

  // ----- counting routes ---------------------------------------------------------------

  /** What `count_routes` needs of a system: every cave is keyed by its own name and every
      neighbour is a cave (`unwrap` panics otherwise), and no big cave is next to a big
      cave, itself included (the recursion would never end otherwise). */
  predicate Navigable(sys: System) {
    && (forall x :: x in sys ==> sys[x].name == x)
    && (forall x, k :: x in sys && 0 <= k < |sys[x].neighbors| ==> sys[x].neighbors[k] in sys)
    && (forall x, k :: x in sys && 0 <= k < |sys[x].neighbors| && sys[x].isBig ==>
          !sys[sys[x].neighbors[k]].isBig)
  }

  /** The small caves of the system. */
  function Smalls(sys: System): set<string> {
    set x | x in sys && !sys[x].isBig
  }

  /** The visited set the children of `cur` receive: `cur` joins it when small. */
  function Grow(sys: System, visited: set<string>, cur: string): set<string>
    requires cur in sys
  {
    if sys[cur].isBig then visited else visited + {cur}
  }

  /** The neighbours still to visit, in list order. */
  function Unvisited(ns: seq<string>, visited: set<string>): (r: seq<string>)
    ensures forall x :: x in r <==> x in ns && x !in visited
    ensures Distinct(ns) ==> Distinct(r)
  {
    if |ns| == 0 then []
    else
      var rest := Unvisited(ns[1..], visited);
      assert forall x :: x in ns <==> x == ns[0] || x in ns[1..];
      if ns[0] in visited then rest
      else
        assert Distinct(ns) ==> ns[0] !in ns[1..] && Distinct(ns[1..]) by {
          if Distinct(ns) {
            forall k | 0 <= k < |ns[1..]| ensures ns[1..][k] != ns[0] {
              assert ns[1..][k] == ns[k + 1];
            }
          }
        }
        [ns[0]] + rest
  }

  /** A measure that every recursive call of `inner` lowers: three per small cave not yet
      visited, plus 1 at a big cave and 2 at a small cave that is already visited (which
      only a small cave listed as its own neighbour reaches). */
  function Measure(sys: System, cur: string, visited: set<string>): nat
    requires cur in sys
  {
    3 * |Smalls(sys) - visited| + (if sys[cur].isBig then 1 else if cur in visited then 2 else 0)
  }

  lemma MeasureDrops(sys: System, cur: string, visited: set<string>, next: string)
    requires Navigable(sys) && cur in sys
    requires next in sys[cur].neighbors && next !in visited
    ensures next in sys && Measure(sys, next, Grow(sys, visited, cur)) < Measure(sys, cur, visited)
  {
    var k :| 0 <= k < |sys[cur].neighbors| && sys[cur].neighbors[k] == next;
    assert next in sys;
    if !sys[cur].isBig && cur !in visited {
      assert Smalls(sys) - (visited + {cur}) == (Smalls(sys) - visited) - {cur};
    } else if !sys[cur].isBig {
      assert visited + {cur} == visited;
    }
  }

  /** `inner`: the number of routes from `cur` to "end" that enter no cave of `visited`. */
  function Inner(sys: System, cur: string, visited: set<string>): nat
    requires Navigable(sys) && cur in sys
    decreases Measure(sys, cur, visited), 1, 0
  {
    if cur == "end" then 1
    else
      var toVisit := Unvisited(sys[cur].neighbors, visited);
      if |toVisit| == 0 then 0
      else Branches(sys, cur, visited, toVisit)
  }

  /** The loop of `inner`: pop the neighbours still to visit from the back and add up
      their routes, each branch starting from the same grown visited set. */
  function Branches(sys: System, cur: string, visited: set<string>, todo: seq<string>): nat
    requires Navigable(sys) && cur in sys
    requires forall x :: x in todo ==> x in sys[cur].neighbors && x !in visited
    decreases Measure(sys, cur, visited), 0, |todo|
  {
    if |todo| == 0 then 0
    else
      var next := todo[|todo| - 1];
      MeasureDrops(sys, cur, visited, next);
      Inner(sys, next, Grow(sys, visited, cur)) + Branches(sys, cur, visited, todo[..|todo| - 1])
  }

  /** `count_routes`: the routes from "start", which must be a cave (`unwrap`). */
  function CountRoutes(sys: System): nat
    requires Navigable(sys) && "start" in sys
  {
    Inner(sys, "start", {})
  }

  // ----- routes ------------------------------------------------------------------------

  /** A route from `r[0]` to "end": it stops at the first "end", each step goes to a
      neighbour, and the cave entered is neither in `visited` nor a small cave the route
      left before the step (`cur` joins the visited set only after its own neighbours were
      filtered, so a small cave that is its own neighbour can be entered twice in a row). */
  predicate IsRoute(sys: System, visited: set<string>, r: seq<string>)
    decreases |r|
  {
    && |r| > 0 && r[0] in sys
    && if r[0] == "end" then |r| == 1
       else
         && |r| >= 2
         && r[1] in sys[r[0]].neighbors && r[1] !in visited
         && IsRoute(sys, Grow(sys, visited, r[0]), r[1..])
  }

  /** Every route from `cur`, in the order `inner` explores them. */
  function Routes(sys: System, cur: string, visited: set<string>): seq<seq<string>>
    requires Navigable(sys) && cur in sys
    decreases Measure(sys, cur, visited), 1, 0
  {
    if cur == "end" then [["end"]]
    else
      var toVisit := Unvisited(sys[cur].neighbors, visited);
      if |toVisit| == 0 then []
      else BranchRoutes(sys, cur, visited, toVisit)
  }

  /** Each route of `rs` with `cur` put in front. */
  function Prefixed(cur: string, rs: seq<seq<string>>): (ps: seq<seq<string>>)
    ensures |ps| == |rs| && forall k :: 0 <= k < |rs| ==> ps[k] == [cur] + rs[k]
  {
    seq(|rs|, k requires 0 <= k < |rs| => [cur] + rs[k])
  }

  function BranchRoutes(sys: System, cur: string, visited: set<string>, todo: seq<string>): seq<seq<string>>
    requires Navigable(sys) && cur in sys
    requires forall x :: x in todo ==> x in sys[cur].neighbors && x !in visited
    decreases Measure(sys, cur, visited), 0, |todo|
  {
    if |todo| == 0 then []
    else
      var next := todo[|todo| - 1];
      MeasureDrops(sys, cur, visited, next);
      Prefixed(cur, Routes(sys, next, Grow(sys, visited, cur))) + BranchRoutes(sys, cur, visited, todo[..|todo| - 1])
  }

  /** `inner` counts the routes list. */
  lemma {:induction false} InnerCounts(sys: System, cur: string, visited: set<string>)
    requires Navigable(sys) && cur in sys
    ensures Inner(sys, cur, visited) == |Routes(sys, cur, visited)|
    decreases Measure(sys, cur, visited), 1, 0
  {
    if cur != "end" {
      var toVisit := Unvisited(sys[cur].neighbors, visited);
      if |toVisit| > 0 {
        BranchesCount(sys, cur, visited, toVisit);
      }
    }
  }

  lemma {:induction false} BranchesCount(sys: System, cur: string, visited: set<string>, todo: seq<string>)
    requires Navigable(sys) && cur in sys
    requires forall x :: x in todo ==> x in sys[cur].neighbors && x !in visited
    ensures Branches(sys, cur, visited, todo) == |BranchRoutes(sys, cur, visited, todo)|
    decreases Measure(sys, cur, visited), 0, |todo|
  {
    if |todo| > 0 {
      var next := todo[|todo| - 1];
      MeasureDrops(sys, cur, visited, next);
      InnerCounts(sys, next, Grow(sys, visited, cur));
      BranchesCount(sys, cur, visited, todo[..|todo| - 1]);
    }
  }

  /** Everything listed is a route from `cur`. */
  lemma {:induction false} RoutesSound(sys: System, cur: string, visited: set<string>)
    requires Navigable(sys) && cur in sys
    ensures forall r :: r in Routes(sys, cur, visited) ==> IsRoute(sys, visited, r) && r[0] == cur
    decreases Measure(sys, cur, visited), 1, 0
  {
    if cur == "end" {
      assert IsRoute(sys, visited, ["end"]);
    } else {
      var toVisit := Unvisited(sys[cur].neighbors, visited);
      if |toVisit| > 0 {
        BranchesSound(sys, cur, visited, toVisit);
      }
    }
  }

  lemma {:induction false} BranchesSound(sys: System, cur: string, visited: set<string>, todo: seq<string>)
    requires Navigable(sys) && cur in sys && cur != "end"
    requires forall x :: x in todo ==> x in sys[cur].neighbors && x !in visited
    ensures forall r :: r in BranchRoutes(sys, cur, visited, todo) ==>
              IsRoute(sys, visited, r) && r[0] == cur && r[1] in todo
    decreases Measure(sys, cur, visited), 0, |todo|
  {
    if |todo| > 0 {
      var next := todo[|todo| - 1];
      var front := todo[..|todo| - 1];
      MeasureDrops(sys, cur, visited, next);
      var grown := Grow(sys, visited, cur);
      RoutesSound(sys, next, grown);
      BranchesSound(sys, cur, visited, front);
      var mine := Prefixed(cur, Routes(sys, next, grown));
      forall r | r in mine ensures IsRoute(sys, visited, r) && r[0] == cur && r[1] in todo {
        var k :| 0 <= k < |mine| && mine[k] == r;
        var tail := Routes(sys, next, grown)[k];
        assert tail in Routes(sys, next, grown);
        assert r == [cur] + tail && r[1..] == tail;
      }
      forall r | r in BranchRoutes(sys, cur, visited, front) ensures r[1] in todo {
        assert r[1] in front;
      }
    }
  }

  /** Every route from `cur` is listed. */
  lemma {:induction false} RoutesComplete(sys: System, cur: string, visited: set<string>, r: seq<string>)
    requires Navigable(sys) && cur in sys
    requires IsRoute(sys, visited, r) && r[0] == cur
    ensures r in Routes(sys, cur, visited)
    decreases Measure(sys, cur, visited), 1, 0
  {
    if cur == "end" {
      assert r == ["end"];
    } else {
      var toVisit := Unvisited(sys[cur].neighbors, visited);
      assert r[1] in toVisit;
      BranchesComplete(sys, cur, visited, toVisit, r);
    }
  }

  lemma {:induction false} BranchesComplete(sys: System, cur: string, visited: set<string>, todo: seq<string>, r: seq<string>)
    requires Navigable(sys) && cur in sys && cur != "end"
    requires forall x :: x in todo ==> x in sys[cur].neighbors && x !in visited
    requires IsRoute(sys, visited, r) && r[0] == cur && r[1] in todo
    ensures r in BranchRoutes(sys, cur, visited, todo)
    decreases Measure(sys, cur, visited), 0, |todo|
  {
    var next := todo[|todo| - 1];
    var front := todo[..|todo| - 1];
    MeasureDrops(sys, cur, visited, next);
    var grown := Grow(sys, visited, cur);
    if r[1] == next {
      RoutesComplete(sys, next, grown, r[1..]);
      var rs := Routes(sys, next, grown);
      var k :| 0 <= k < |rs| && rs[k] == r[1..];
      assert Prefixed(cur, rs)[k] == r;
    } else {
      assert r[1] in front;
      BranchesComplete(sys, cur, visited, front, r);
    }
  }

  /** With no cave listing a neighbour twice, no route is listed twice. */
  lemma {:induction false} RoutesDistinct(sys: System, cur: string, visited: set<string>)
    requires Navigable(sys) && cur in sys
    requires forall x :: x in sys ==> Distinct(sys[x].neighbors)
    ensures Distinct(Routes(sys, cur, visited))
    decreases Measure(sys, cur, visited), 1, 0
  {
    if cur != "end" {
      var toVisit := Unvisited(sys[cur].neighbors, visited);
      if |toVisit| > 0 {
        BranchesDistinct(sys, cur, visited, toVisit);
      }
    }
  }

  lemma {:induction false} BranchesDistinct(sys: System, cur: string, visited: set<string>, todo: seq<string>)
    requires Navigable(sys) && cur in sys && cur != "end"
    requires forall x :: x in sys ==> Distinct(sys[x].neighbors)
    requires forall x :: x in todo ==> x in sys[cur].neighbors && x !in visited
    requires Distinct(todo)
    ensures Distinct(BranchRoutes(sys, cur, visited, todo))
    decreases Measure(sys, cur, visited), 0, |todo|
  {
    if |todo| > 0 {
      var next := todo[|todo| - 1];
      var front := todo[..|todo| - 1];
      MeasureDrops(sys, cur, visited, next);
      var grown := Grow(sys, visited, cur);
      RoutesDistinct(sys, next, grown);
      RoutesSound(sys, next, grown);
      assert Distinct(front);
      BranchesDistinct(sys, cur, visited, front);
      BranchesSound(sys, cur, visited, front);
      var mine := Prefixed(cur, Routes(sys, next, grown));
      var rest := BranchRoutes(sys, cur, visited, front);
      assert Distinct(mine) by {
        forall i, j | 0 <= i < j < |mine| ensures mine[i] != mine[j] {
          assert mine[i][1..] == Routes(sys, next, grown)[i];
          assert mine[j][1..] == Routes(sys, next, grown)[j];
        }
      }
      forall r | r in mine ensures r !in rest {
        var k :| 0 <= k < |mine| && mine[k] == r;
        assert r[1..] == Routes(sys, next, grown)[k];
      }
      DistinctConcat(mine, rest);
    }
  }

  /** `count_routes` is the number of routes from "start" to "end": the routes list holds
      exactly the routes, and, when no neighbour is listed twice, each only once. */
  lemma CountRoutesIsRoutes(sys: System)
    requires Navigable(sys) && "start" in sys
    ensures CountRoutes(sys) == |Routes(sys, "start", {})|
    ensures forall r :: r in Routes(sys, "start", {}) <==> |r| > 0 && r[0] == "start" && IsRoute(sys, {}, r)
    ensures (forall x :: x in sys ==> Distinct(sys[x].neighbors)) ==> Distinct(Routes(sys, "start", {}))
  {
    InnerCounts(sys, "start", {});
    RoutesSound(sys, "start", {});
    forall r | |r| > 0 && r[0] == "start" && IsRoute(sys, {}, r) ensures r in Routes(sys, "start", {}) {
      RoutesComplete(sys, "start", {}, r);
    }
    if forall x :: x in sys ==> Distinct(sys[x].neighbors) {
      RoutesDistinct(sys, "start", {});
    }
  }
}
