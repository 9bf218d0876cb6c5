/** Grouping records into histories: a union-find over predecessor links, with path halving
    and the least identifier as the root. An identifier stands for its rank in the string
    order that the program compares by. */
module RecordComponents {
  import opened Text

  type Id = nat

  datatype Row = Row(id: Id, predecessor: Option<Id>)

  // ---- links and connection ----

  function Ids(rows: seq<Row>): seq<Id> {
    seq(|rows|, i requires 0 <= i < |rows| => rows[i].id)
  }

  /** The predecessor links between rows of the table. */
  function Links(ids: seq<Id>, rows: seq<Row>): seq<(Id, Id)> {
    if rows == [] then []
    else
      var row := rows[|rows| - 1];
      Links(ids, rows[..|rows| - 1])
      + (if row.predecessor.Some? && row.predecessor.value in ids then [(row.id, row.predecessor.value)] else [])
  }

  ghost predicate Adjacent(links: seq<(Id, Id)>, a: Id, b: Id) {
    (a, b) in links || (b, a) in links
  }

  ghost predicate IsPath(links: seq<(Id, Id)>, p: seq<Id>) {
    p != [] && forall i | 0 <= i < |p| - 1 :: Adjacent(links, p[i], p[i + 1])
  }

  /** Linked by predecessor links in either direction, through any number of records. */
  ghost predicate Connected(links: seq<(Id, Id)>, a: Id, b: Id) {
    exists p :: IsPath(links, p) && p[0] == a && p[|p| - 1] == b
  }

  lemma ConnectedReflexive(links: seq<(Id, Id)>, a: Id)
    ensures Connected(links, a, a)
  {
    assert IsPath(links, [a]);
  }

  lemma ConnectedSymmetric(links: seq<(Id, Id)>, a: Id, b: Id)
    requires Connected(links, a, b)
    ensures Connected(links, b, a)
  {
    var p :| IsPath(links, p) && p[0] == a && p[|p| - 1] == b;
    var q := seq(|p|, i requires 0 <= i < |p| => p[|p| - 1 - i]);
    forall i | 0 <= i < |q| - 1 ensures Adjacent(links, q[i], q[i + 1]) {
      var j := |p| - 2 - i;
      assert Adjacent(links, p[j], p[j + 1]);
    }
    assert IsPath(links, q);
  }

  lemma ConnectedTransitive(links: seq<(Id, Id)>, a: Id, b: Id, c: Id)
    requires Connected(links, a, b) && Connected(links, b, c)
    ensures Connected(links, a, c)
  {
    var p :| IsPath(links, p) && p[0] == a && p[|p| - 1] == b;
    var q :| IsPath(links, q) && q[0] == b && q[|q| - 1] == c;
    var r := p + q[1..];
    forall i | 0 <= i < |r| - 1 ensures Adjacent(links, r[i], r[i + 1]) {
      if i < |p| - 1 {
        assert Adjacent(links, p[i], p[i + 1]);
      } else {
        var j := i - |p| + 1;
        assert Adjacent(links, q[j], q[j + 1]);
      }
    }
    assert IsPath(links, r);
  }

  lemma ConnectedGrows(links: seq<(Id, Id)>, more: seq<(Id, Id)>, a: Id, b: Id)
    requires Connected(links, a, b)
    ensures Connected(links + more, a, b)
  {
    var p :| IsPath(links, p) && p[0] == a && p[|p| - 1] == b;
    forall i | 0 <= i < |p| - 1 ensures Adjacent(links + more, p[i], p[i + 1]) {
      assert Adjacent(links, p[i], p[i + 1]);
    }
    assert IsPath(links + more, p);
  }

  lemma LinkConnects(links: seq<(Id, Id)>, a: Id, b: Id)
    requires Adjacent(links, a, b)
    ensures Connected(links, a, b)
  {
    assert IsPath(links, [a, b]);
  }

  // ---- the parent map ----

  /** Every parent is in the map and not greater than its child. */
  ghost predicate WellFormed(parent: map<Id, Id>) {
    forall x {:trigger ParentOk(parent, x)} | x in parent :: ParentOk(parent, x)
  }

  ghost predicate ParentOk(parent: map<Id, Id>, x: Id)
    requires x in parent
  {
    parent[x] in parent && parent[x] <= x
  }

  ghost predicate Over(parent: map<Id, Id>, ids: seq<Id>) {
    forall x :: x in parent <==> x in ids
  }

  ghost function Root(parent: map<Id, Id>, x: Id): (r: Id)
    requires WellFormed(parent) && x in parent
    ensures r in parent && parent[r] == r && r <= x
    decreases x
  {
    assert ParentOk(parent, x);
    if parent[x] == x then x else Root(parent, parent[x])
  }

  /** The same identifiers with the same roots. */
  ghost predicate SameRoots(before: map<Id, Id>, after: map<Id, Id>) {
    && WellFormed(before) && WellFormed(after) && after.Keys == before.Keys
    && forall x | x in before :: Root(after, x) == Root(before, x)
  }

  lemma LowerParent(parent: map<Id, Id>, x: Id, p: Id)
    requires WellFormed(parent) && x in parent && p in parent && p <= x
    ensures WellFormed(parent[x := p])
  {
    forall z | z in parent ensures ParentOk(parent[x := p], z) {
      assert ParentOk(parent, z);
    }
  }

  /** `parent[x] = parent[parent[x]]`. */
  ghost function Halved(parent: map<Id, Id>, x: Id): (after: map<Id, Id>)
    requires WellFormed(parent) && x in parent
    ensures WellFormed(after) && after.Keys == parent.Keys
  {
    assert ParentOk(parent, x) && ParentOk(parent, parent[x]);
    LowerParent(parent, x, parent[parent[x]]);
    parent[x := parent[parent[x]]]
  }

  lemma {:induction false} HalvingKeepsRoot(parent: map<Id, Id>, x: Id, y: Id)
    requires WellFormed(parent) && x in parent && y in parent
    ensures Root(Halved(parent, x), y) == Root(parent, y)
    decreases y
  {
    assert ParentOk(parent, x) && ParentOk(parent, y) && ParentOk(parent, parent[x]);
    var after := Halved(parent, x);
    if after[y] != y {
      HalvingKeepsRoot(parent, x, after[y]);
    }
  }

  /** Path halving never changes any root. */
  lemma HalvingKeepsRoots(parent: map<Id, Id>, x: Id)
    requires WellFormed(parent) && x in parent
    ensures SameRoots(parent, Halved(parent, x))
  {
    forall y | y in parent ensures Root(Halved(parent, x), y) == Root(parent, y) {
      HalvingKeepsRoot(parent, x, y);
    }
  }

  /** `parent[high] = low` for two roots, the lesser above the greater. */
  ghost function Hung(parent: map<Id, Id>, high: Id, low: Id): (after: map<Id, Id>)
    requires WellFormed(parent) && high in parent && low in parent && low < high
    ensures WellFormed(after) && after.Keys == parent.Keys
  {
    LowerParent(parent, high, low);
    parent[high := low]
  }

  lemma {:induction false} HangingMovesRoot(parent: map<Id, Id>, high: Id, low: Id, y: Id)
    requires WellFormed(parent) && high in parent && low in parent && y in parent
    requires parent[high] == high && parent[low] == low && low < high
    ensures Root(Hung(parent, high, low), y) == if Root(parent, y) == high then low else Root(parent, y)
    decreases y
  {
    assert ParentOk(parent, y);
    if y != high && parent[y] != y {
      HangingMovesRoot(parent, high, low, parent[y]);
    }
  }

  lemma HangingMerges(parent: map<Id, Id>, u: Id, v: Id)
    requires WellFormed(parent) && u in parent && v in parent && Root(parent, u) != Root(parent, v)
    ensures var ru, rv := Root(parent, u), Root(parent, v);
            var high, low := if ru > rv then ru else rv, if ru > rv then rv else ru;
            Merged(parent, Hung(parent, high, low), u, v)
  {
    var ru, rv := Root(parent, u), Root(parent, v);
    var high, low := if ru > rv then ru else rv, if ru > rv then rv else ru;
    forall y | y in parent
      ensures Root(Hung(parent, high, low), y) == if Root(parent, y) == high then low else Root(parent, y)
    {
      HangingMovesRoot(parent, high, low, y);
    }
  }

  /** Two identifiers have the same root exactly when the links seen so far connect them. */
  ghost predicate Represents(parent: map<Id, Id>, links: seq<(Id, Id)>) {
    && WellFormed(parent)
    && (forall l | l in links :: l.0 in parent && l.1 in parent)
    && (forall a, b | a in parent && b in parent :: Root(parent, a) == Root(parent, b) <==> Connected(links, a, b))
  }

  /** An equivalence that holds across every link holds between connected identifiers. */
  lemma {:induction false} PathKeepsRoot(parent: map<Id, Id>, links: seq<(Id, Id)>, p: seq<Id>)
    requires WellFormed(parent) && IsPath(links, p) && p[0] in parent
    requires forall l | l in links :: l.0 in parent && l.1 in parent && Root(parent, l.0) == Root(parent, l.1)
    ensures p[|p| - 1] in parent && Root(parent, p[|p| - 1]) == Root(parent, p[0])
    decreases |p|
  {
    if |p| > 1 {
      assert Adjacent(links, p[0], p[1]);
      forall i | 0 <= i < |p[1..]| - 1 ensures Adjacent(links, p[1..][i], p[1..][i + 1]) {
        assert Adjacent(links, p[i + 1], p[i + 2]);
      }
      PathKeepsRoot(parent, links, p[1..]);
    }
  }

  lemma StartsSeparate(parent: map<Id, Id>)
    requires forall x | x in parent :: parent[x] == x
    ensures Represents(parent, [])
  {
    forall a, b | a in parent && b in parent
      ensures Root(parent, a) == Root(parent, b) <==> Connected([], a, b)
    {
      ConnectedReflexive([], a);
      if Connected([], a, b) {
        var p :| IsPath([], p) && p[0] == a && p[|p| - 1] == b;
        PathKeepsRoot(parent, [], p);
      }
    }
  }

  /** The parent map after one more link. */
  ghost predicate Merged(before: map<Id, Id>, after: map<Id, Id>, u: Id, v: Id) {
    && WellFormed(before) && WellFormed(after) && after.Keys == before.Keys && u in before && v in before
    && var ru, rv := Root(before, u), Root(before, v);
       var low := if ru < rv then ru else rv;
       forall y | y in before ::
         Root(after, y) == if Root(before, y) == ru || Root(before, y) == rv then low else Root(before, y)
  }

  lemma MergedConnects(before: map<Id, Id>, after: map<Id, Id>, links: seq<(Id, Id)>, u: Id, v: Id, a: Id, b: Id)
    requires Represents(before, links) && Merged(before, after, u, v)
    requires a in before && b in before && Root(after, a) == Root(after, b)
    ensures Connected(links + [(u, v)], a, b)
  {
    var all := links + [(u, v)];
    LinkConnects(all, u, v);
    LinkConnects(all, v, u);
    if Root(before, a) == Root(before, b) {
      ConnectedGrows(links, [(u, v)], a, b);
    } else if Root(before, a) == Root(before, u) {
      ConnectedGrows(links, [(u, v)], a, u);
      ConnectedGrows(links, [(u, v)], v, b);
      ConnectedTransitive(all, a, u, v);
      ConnectedTransitive(all, a, v, b);
    } else {
      ConnectedGrows(links, [(u, v)], a, v);
      ConnectedGrows(links, [(u, v)], u, b);
      ConnectedTransitive(all, a, v, u);
      ConnectedTransitive(all, a, u, b);
    }
  }

  lemma MergedRepresents(before: map<Id, Id>, after: map<Id, Id>, links: seq<(Id, Id)>, u: Id, v: Id)
    requires Represents(before, links) && Merged(before, after, u, v)
    ensures Represents(after, links + [(u, v)])
  {
    var all := links + [(u, v)];
    forall l | l in all ensures l.0 in after && l.1 in after && Root(after, l.0) == Root(after, l.1) {
      if l in links {
        LinkConnects(links, l.0, l.1);
        assert Root(before, l.0) == Root(before, l.1);
      }
    }
    forall a, b | a in after && b in after
      ensures Root(after, a) == Root(after, b) <==> Connected(all, a, b)
    {
      if Root(after, a) == Root(after, b) {
        MergedConnects(before, after, links, u, v, a, b);
      }
      if Connected(all, a, b) {
        var p :| IsPath(all, p) && p[0] == a && p[|p| - 1] == b;
        PathKeepsRoot(after, all, p);
      }
    }
  }

  /** `r` is the least identifier of the component of `x`. */
  ghost predicate LeastOf(ids: seq<Id>, links: seq<(Id, Id)>, x: Id, r: Id) {
    r in ids && Connected(links, x, r) && forall y | y in ids && Connected(links, x, y) :: r <= y
  }

  lemma RootIsLeast(parent: map<Id, Id>, ids: seq<Id>, links: seq<(Id, Id)>, x: Id)
    requires Represents(parent, links) && Over(parent, ids) && x in ids
    ensures LeastOf(ids, links, x, Root(parent, x))
  {
    var r := Root(parent, x);
    assert Root(parent, r) == r;
  }

  // ---- the running algorithm ----

  class Forest {
    var parent: map<Id, Id>

    constructor (ids: seq<Id>)
      ensures Over(parent, ids) && Represents(parent, [])
    {
      parent := map i | i in ids :: i;
      new;
      StartsSeparate(parent);
    }

    /** Walk to the root, halving the path: no root changes, and the walk ends because
        parents only get smaller. */
    method Find(identifier: Id) returns (root: Id)
      requires WellFormed(parent) && identifier in parent
      modifies this
      ensures SameRoots(old(parent), parent) && root == Root(parent, identifier)
    {
      root := identifier;
      while parent[root] != root
        invariant SameRoots(old(parent), parent)
        invariant root in parent && Root(parent, root) == Root(parent, identifier)
        decreases root
      {
        HalvingKeepsRoots(parent, root);
        assert ParentOk(parent, root) && ParentOk(parent, parent[root]);
        ghost var halved := Halved(parent, root);
        parent := parent[root := parent[parent[root]]];
        assert parent == halved && ParentOk(parent, root);
        root := parent[root];
      }
    }

    /** Hang the greater of the two roots under the lesser. */
    method Union(left: Id, right: Id)
      requires WellFormed(parent) && left in parent && right in parent
      modifies this
      ensures Merged(old(parent), parent, left, right)
    {
      var leftRoot := Find(left);
      var rightRoot := Find(right);
      if leftRoot != rightRoot {
        var high, low := if leftRoot > rightRoot then leftRoot else rightRoot,
                         if leftRoot > rightRoot then rightRoot else leftRoot;
        HangingMerges(parent, left, right);
        parent := parent[high := low];
      }
    }
  }

  lemma LeastIsRoot(parent: map<Id, Id>, ids: seq<Id>, links: seq<(Id, Id)>, x: Id, r: Id)
    requires Represents(parent, links) && Over(parent, ids) && x in ids
    ensures LeastOf(ids, links, x, r) <==> Root(parent, x) == r
  {
    RootIsLeast(parent, ids, links, x);
  }

  /** The identifiers of `ids` in the component of `r`, in the order of `ids`. */
  ghost function Members(ids: seq<Id>, links: seq<(Id, Id)>, r: Id): seq<Id> {
    if ids == [] then []
    else Members(ids[..|ids| - 1], links, r)
         + (if Connected(links, ids[|ids| - 1], r) then [ids[|ids| - 1]] else [])
  }

  ghost predicate Placed(ids: seq<Id>, links: seq<(Id, Id)>, roots: seq<Id>, x: Id) {
    exists r | r in roots :: LeastOf(ids, links, x, r)
  }

  ghost predicate Distinct(s: seq<Id>) {
    forall i, j | 0 <= i < j < |s| :: s[i] != s[j]
  }

  /** The groups are the components of the link graph, each under its least identifier. */
  ghost predicate Partition(ids: seq<Id>, links: seq<(Id, Id)>, roots: seq<Id>, groups: map<Id, seq<Id>>) {
    && Distinct(roots) && (forall r :: r in groups <==> r in roots)
    && (forall r | r in roots :: LeastOf(ids, links, r, r) && groups[r] == Members(ids, links, r))
    && (forall x | x in ids :: Placed(ids, links, roots, x))
  }

  /** The visited identifiers with a given root, in order. */
  ghost function WithRoot(parent: map<Id, Id>, visited: seq<Id>, r: Id): seq<Id>
    requires WellFormed(parent) && forall x | x in visited :: x in parent
  {
    if visited == [] then []
    else
      var x := visited[|visited| - 1];
      WithRoot(parent, visited[..|visited| - 1], r) + (if Root(parent, x) == r then [x] else [])
  }

  /** What the grouping loop has built after visiting `visited`. */
  ghost predicate Grouped(parent: map<Id, Id>, visited: seq<Id>, roots: seq<Id>, groups: map<Id, seq<Id>>) {
    && WellFormed(parent) && (forall x | x in visited :: x in parent)
    && Distinct(roots) && (forall r :: r in groups <==> r in roots)
    && (forall r | r in roots :: r in parent && parent[r] == r && groups[r] == WithRoot(parent, visited, r))
    && (forall x | x in visited :: Root(parent, x) in roots)
  }

  lemma {:induction false} NoneWithRoot(parent: map<Id, Id>, visited: seq<Id>, r: Id)
    requires WellFormed(parent) && forall x | x in visited :: x in parent && Root(parent, x) != r
    ensures WithRoot(parent, visited, r) == []
  {
    if visited != [] {
      NoneWithRoot(parent, visited[..|visited| - 1], r);
    }
  }

  lemma WithRootStep(parent: map<Id, Id>, visited: seq<Id>, x: Id, r: Id)
    requires WellFormed(parent) && x in parent && forall y | y in visited :: y in parent
    ensures WithRoot(parent, visited + [x], r)
            == WithRoot(parent, visited, r) + (if Root(parent, x) == r then [x] else [])
  {
    assert (visited + [x])[..|visited|] == visited;
  }

  /** A visited identifier joins the group of its root. */
  lemma JoinGroup(parent: map<Id, Id>, visited: seq<Id>, x: Id, roots: seq<Id>, groups: map<Id, seq<Id>>)
    requires Grouped(parent, visited, roots, groups) && x in parent && Root(parent, x) in groups
    ensures var root := Root(parent, x);
            Grouped(parent, visited + [x], roots, groups[root := groups[root] + [x]])
  {
    var root := Root(parent, x);
    forall r | r in roots
      ensures groups[root := groups[root] + [x]][r] == WithRoot(parent, visited + [x], r)
    {
      WithRootStep(parent, visited, x, r);
    }
  }

  /** The first identifier met of a component opens its group. */
  lemma OpenGroup(parent: map<Id, Id>, visited: seq<Id>, root: Id, roots: seq<Id>, groups: map<Id, seq<Id>>)
    requires Grouped(parent, visited, roots, groups) && root in parent && parent[root] == root && root !in groups
    ensures Grouped(parent, visited, roots + [root], groups[root := []])
  {
    NoneWithRoot(parent, visited, root);
  }

  lemma {:induction false} WithRootIsMembers(parent: map<Id, Id>, ids: seq<Id>, links: seq<(Id, Id)>,
                                             visited: seq<Id>, r: Id)
    requires Represents(parent, links) && r in parent && parent[r] == r && forall x | x in visited :: x in parent
    ensures WithRoot(parent, visited, r) == Members(visited, links, r)
  {
    if visited != [] {
      WithRootIsMembers(parent, ids, links, visited[..|visited| - 1], r);
    }
  }

  lemma GroupedIsPartition(parent: map<Id, Id>, ids: seq<Id>, links: seq<(Id, Id)>, roots: seq<Id>,
                           groups: map<Id, seq<Id>>)
    requires Represents(parent, links) && Over(parent, ids) && Grouped(parent, ids, roots, groups)
    ensures Partition(ids, links, roots, groups)
  {
    forall r | r in roots ensures LeastOf(ids, links, r, r) && groups[r] == Members(ids, links, r) {
      LeastIsRoot(parent, ids, links, r, r);
      WithRootIsMembers(parent, ids, links, ids, r);
    }
    forall x | x in ids ensures Placed(ids, links, roots, x) {
      LeastIsRoot(parent, ids, links, x, Root(parent, x));
    }
  }

  /** The `for row in rows` loop: one union for every link. */
  method UniteAll(forest: Forest, ids: seq<Id>, rows: seq<Row>)
    requires ids == Ids(rows) && Over(forest.parent, ids) && Represents(forest.parent, [])
    modifies forest
    ensures Over(forest.parent, ids) && Represents(forest.parent, Links(ids, rows))
  {
    for i := 0 to |rows|
      invariant Over(forest.parent, ids)
      invariant Represents(forest.parent, Links(ids, rows[..i]))
    {
      assert rows[..i + 1][..i] == rows[..i];
      var row := rows[i];
      assert ids[i] == row.id;
      ghost var links := Links(ids, rows[..i]);
      if row.predecessor.Some? && row.predecessor.value in ids {
        ghost var before := forest.parent;
        forest.Union(row.id, row.predecessor.value);
        MergedRepresents(before, forest.parent, links, row.id, row.predecessor.value);
      } else {
        assert links + [] == links;
      }
    }
    assert rows[..|rows|] == rows;
  }

  /** `_components`: the groups under their roots, in the order in which the roots were first
      met. Two identifiers are in the same group exactly when predecessor links connect
      them, and the root of a group is its least identifier. */
  method Components(rows: seq<Row>) returns (roots: seq<Id>, groups: map<Id, seq<Id>>)
    ensures Partition(Ids(rows), Links(Ids(rows), rows), roots, groups)
  {
    var ids := Ids(rows);
    var forest := new Forest(ids);
    UniteAll(forest, ids, rows);
    ghost var united := forest.parent;
    roots, groups := [], map[];
    for i := 0 to |ids|
      invariant SameRoots(united, forest.parent) && Grouped(united, ids[..i], roots, groups)
    {
      TakeNext(ids, i);
      var root := forest.Find(ids[i]);
      if root !in groups {
        OpenGroup(united, ids[..i], root, roots, groups);
        roots, groups := roots + [root], groups[root := []];
      }
      JoinGroup(united, ids[..i], ids[i], roots, groups);
      groups := groups[root := groups[root] + [ids[i]]];
    }
    assert ids[..|ids|] == ids;
    GroupedIsPartition(united, ids, Links(ids, rows), roots, groups);
  }

  lemma {:induction false} MembersAre(ids: seq<Id>, links: seq<(Id, Id)>, r: Id, x: Id)
    ensures x in Members(ids, links, r) <==> x in ids && Connected(links, x, r)
  {
    if ids != [] {
      MembersAre(ids[..|ids| - 1], links, r, x);
    }
  }

  ghost predicate Together(roots: seq<Id>, groups: map<Id, seq<Id>>, x: Id, y: Id) {
    exists r | r in roots :: r in groups && x in groups[r] && y in groups[r]
  }

  /** Two records are in one of the groups together exactly when links connect them. */
  lemma SameGroup(ids: seq<Id>, links: seq<(Id, Id)>, roots: seq<Id>, groups: map<Id, seq<Id>>, x: Id, y: Id)
    requires Partition(ids, links, roots, groups) && x in ids && y in ids
    ensures Together(roots, groups, x, y) <==> Connected(links, x, y)
  {
    if Together(roots, groups, x, y) {
      var r :| r in roots && r in groups && x in groups[r] && y in groups[r];
      MembersAre(ids, links, r, x);
      MembersAre(ids, links, r, y);
      ConnectedSymmetric(links, y, r);
      ConnectedTransitive(links, x, r, y);
    }
    if Connected(links, x, y) {
      assert Placed(ids, links, roots, x);
      var r :| r in roots && LeastOf(ids, links, x, r);
      ConnectedSymmetric(links, x, y);
      ConnectedTransitive(links, y, x, r);
      MembersAre(ids, links, r, x);
      MembersAre(ids, links, r, y);
    }
  }
}
