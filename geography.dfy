/**
  The city graph: directions, the four optional links of a city, and the
  link surgery that `City.destroy` performs (alien_invasion.py:37-60).

  Cities live in an arena: a city is a `CityId`, an index into the
  sequence of link records held by the board.
*/
module Geography {

  datatype Option<T> = None | Some(value: T)

  type CityId = nat

  datatype Direction = North | South | East | West

  /** The order in which the source lists the directions everywhere. */
  const Directions: seq<Direction> := [North, South, East, West]

  function Opposite(d: Direction): Direction {
    match d
    case North => South
    case South => North
    case East => West
    case West => East
  }

  /** Position of a direction in `Directions`. */
  function Rank(d: Direction): nat {
    match d
    case North => 0
    case South => 1
    case East => 2
    case West => 3
  }

  /** The `north`, `south`, `east` and `west` attributes of a city. Before
      name resolution they hold raw names (`Links<string>`), after it city
      ids (`Links<CityId>`). */
  datatype Links<T> = Links(north: Option<T>, south: Option<T>, east: Option<T>, west: Option<T>) {

    /** `getattr(city, direction)` */
    function Get(d: Direction): Option<T> {
      match d
      case North => north
      case South => south
      case East => east
      case West => west
    }

    /** `setattr(city, direction, v)`: one field changes, the other three stay. */
    function Set(d: Direction, v: Option<T>): (r: Links<T>)
      ensures r.Get(d) == v
      ensures forall e :: e != d ==> r.Get(e) == Get(e)
    {
      match d
      case North => this.(north := v)
      case South => this.(south := v)
      case East => this.(east := v)
      case West => this.(west := v)
    }
  }

  function NoLinks<T>(): Links<T> {
    Links(None, None, None, None)
  }

  /** The directions a city has a link in, in north, south, east, west
      order (the list comprehension of alien_invasion.py:122-123). */
  function ValidMoves<T>(l: Links<T>): (r: seq<Direction>)
    ensures forall d :: d in r <==> l.Get(d).Some?
    ensures |r| == 0 <==> l == NoLinks()
  {
    (if l.north.Some? then [North] else [])
    + (if l.south.Some? then [South] else [])
    + (if l.east.Some? then [East] else [])
    + (if l.west.Some? then [West] else [])
  }

  /** The available directions come in north, south, east, west order. */
  lemma ValidMovesOrdered<T>(l: Links<T>)
    ensures var r := ValidMoves(l); forall i, j :: 0 <= i < j < |r| ==> Rank(r[i]) < Rank(r[j])
  {
  }

  /** Every link of every city names a city of the arena. */
  ghost predicate InRange(ls: seq<Links<CityId>>) {
    forall c, d :: 0 <= c < |ls| && ls[c].Get(d).Some? ==> ls[c].Get(d).value < |ls|
  }

  /** The map is geographically valid: a link from `c` towards `d` is
      matched by a link back from its target towards the opposite
      direction (alien_invasion.py:153-167 assumes this of every map). */
  ghost predicate Reciprocal(ls: seq<Links<CityId>>) {
    && InRange(ls)
    && forall c, d, t :: 0 <= c < |ls| && ls[c].Get(d) == Some(t) ==> ls[t].Get(Opposite(d)) == Some(c)
  }

  /** One line of `destroy`: `if self.d: self.d.opposite = None`. The
      neighbour in direction `d` loses its link in the opposite direction,
      whatever that link pointed at; nothing else changes. */
  function ClearBack(ls: seq<Links<CityId>>, x: CityId, d: Direction): (r: seq<Links<CityId>>)
    requires InRange(ls) && x < |ls|
    ensures |r| == |ls| && InRange(r)
  {
    match ls[x].Get(d)
    case None => ls
    case Some(t) => ls[t := ls[t].Set(Opposite(d), None)]
  }

  /** `ClearBack` changes one field: the opposite-direction field of the
      city that `x` links to in direction `d`, which becomes None. */
  lemma ClearBackFields(ls: seq<Links<CityId>>, x: CityId, d: Direction)
    requires InRange(ls) && x < |ls|
    ensures forall c, e :: 0 <= c < |ls| ==>
      ClearBack(ls, x, d)[c].Get(e) == if ls[x].Get(d) == Some(c) && e == Opposite(d) then None else ls[c].Get(e)
  {
  }

  /** The four `ClearBack` steps of `destroy`, with their field facts. */
  lemma DetachSteps(ls: seq<Links<CityId>>, x: CityId)
    requires InRange(ls) && x < |ls|
    ensures var l1 := ClearBack(ls, x, North);
      var l2 := ClearBack(l1, x, South);
      var l3 := ClearBack(l2, x, East);
      && (forall c, e :: 0 <= c < |ls| ==>
           l1[c].Get(e) == if ls[x].Get(North) == Some(c) && e == South then None else ls[c].Get(e))
      && (forall c, e :: 0 <= c < |ls| ==>
           l2[c].Get(e) == if l1[x].Get(South) == Some(c) && e == North then None else l1[c].Get(e))
      && (forall c, e :: 0 <= c < |ls| ==>
           l3[c].Get(e) == if l2[x].Get(East) == Some(c) && e == West then None else l2[c].Get(e))
      && (forall c, e :: 0 <= c < |ls| ==>
           ClearBack(l3, x, West)[c].Get(e) == if l3[x].Get(West) == Some(c) && e == East then None else l3[c].Get(e))
  {
    var l1 := ClearBack(ls, x, North);
    var l2 := ClearBack(l1, x, South);
    var l3 := ClearBack(l2, x, East);
    ClearBackFields(ls, x, North);
    ClearBackFields(l1, x, South);
    ClearBackFields(l2, x, East);
    ClearBackFields(l3, x, West);
  }

  /** The links after `destroy` of city `x`: the four neighbour updates in
      north, south, east, west order, each looking at `x`'s link as it is
      at that moment, then `x`'s own four links cleared. */
  function Detach(ls: seq<Links<CityId>>, x: CityId): (r: seq<Links<CityId>>)
    requires InRange(ls) && x < |ls|
    ensures |r| == |ls| && InRange(r)
    ensures r[x] == NoLinks()
  {
    var l1 := ClearBack(ls, x, North);
    var l2 := ClearBack(l1, x, South);
    var l3 := ClearBack(l2, x, East);
    var l4 := ClearBack(l3, x, West);
    l4[x := NoLinks()]
  }

  /** `x` has no link to itself. */
  ghost predicate NoSelfLink(ls: seq<Links<CityId>>, x: CityId)
    requires x < |ls|
  {
    forall d :: ls[x].Get(d) != Some(x)
  }

  /** A field that `destroy` of `x` changes goes from some value to None,
      and it is the opposite-direction field of a city that `x` linked to. */
  lemma DetachOnlyBackLinks(ls: seq<Links<CityId>>, x: CityId, c: CityId, e: Direction)
    requires InRange(ls) && x < |ls| && c < |ls| && c != x
    ensures Detach(ls, x)[c].Get(e) == ls[c].Get(e)
         || (Detach(ls, x)[c].Get(e) == None && ls[x].Get(Opposite(e)) == Some(c))
  {
    var l1 := ClearBack(ls, x, North);
    var l2 := ClearBack(l1, x, South);
    var l3 := ClearBack(l2, x, East);
    var l4 := ClearBack(l3, x, West);
    DetachSteps(ls, x);
    assert forall f :: l1[x].Get(f) == ls[x].Get(f) || l1[x].Get(f) == None;
    assert forall f :: l2[x].Get(f) == ls[x].Get(f) || l2[x].Get(f) == None;
    assert forall f :: l3[x].Get(f) == ls[x].Get(f) || l3[x].Get(f) == None;
  }

  /** Each city that `x` linked to in direction `d` loses its link in the
      opposite direction, provided the map is reciprocal or `x` has no
      self-link. (With a self-link `x.north == x` and no reciprocity, the
      `south` step is skipped, because the `north` step already cleared
      `x.south`: the code reads the field after its own update.) */
  lemma DetachClearsBackLinks(ls: seq<Links<CityId>>, x: CityId, d: Direction)
    requires InRange(ls) && x < |ls|
    requires ls[x].Get(d).Some? && ls[x].Get(d).value != x
    requires Reciprocal(ls) || NoSelfLink(ls, x)
    ensures Detach(ls, x)[ls[x].Get(d).value].Get(Opposite(d)) == None
  {
    var t := ls[x].Get(d).value;
    var l1 := ClearBack(ls, x, North);
    var l2 := ClearBack(l1, x, South);
    var l3 := ClearBack(l2, x, East);
    var l4 := ClearBack(l3, x, West);
    DetachSteps(ls, x);
    // x's own links stay as they were through the four steps, except where
    // an earlier step pointed back at x itself.
    assert Reciprocal(ls) ==> forall f :: ls[x].Get(f) == Some(x) ==> ls[x].Get(Opposite(f)) == Some(x);
    match d
    case North =>
    case South =>
      assert l1[x].Get(South) == ls[x].Get(South);
    case East =>
      assert l2[x].Get(East) == ls[x].Get(East);
    case West =>
      assert l2[x].Get(West) == ls[x].Get(West);
      assert l3[x].Get(West) == ls[x].Get(West);
  }

  /** Drop every link of a city that points into `gone`. */
  function Cut(l: Links<CityId>, gone: set<CityId>): Links<CityId> {
    Links(CutOne(l.north, gone), CutOne(l.south, gone), CutOne(l.east, gone), CutOne(l.west, gone))
  }

  function CutOne(o: Option<CityId>, gone: set<CityId>): Option<CityId> {
    if o.Some? && o.value in gone then None else o
  }

  lemma CutGet(l: Links<CityId>, gone: set<CityId>, d: Direction)
    ensures Cut(l, gone).Get(d) == CutOne(l.Get(d), gone)
  {
  }

  /** City `c`'s links once the cities of `gone` are deleted. */
  function PrunedCity(c: CityId, l: Links<CityId>, gone: set<CityId>): Links<CityId> {
    if c in gone then NoLinks() else Cut(l, gone)
  }

  /** The graph with the cities of `gone` deleted: they lose all their
      links, and every other city loses exactly its links into `gone`. */
  function Prune(ls: seq<Links<CityId>>, gone: set<CityId>): (r: seq<Links<CityId>>)
    ensures |r| == |ls|
    decreases |ls|
  {
    if |ls| == 0 then [] else Prune(ls[..|ls| - 1], gone) + [PrunedCity(|ls| - 1, ls[|ls| - 1], gone)]
  }

  /** `Prune` deletes city by city. */
  lemma {:induction false} PruneAt(ls: seq<Links<CityId>>, gone: set<CityId>)
    ensures forall c :: 0 <= c < |ls| ==> Prune(ls, gone)[c] == PrunedCity(c, ls[c], gone)
    decreases |ls|
  {
    if |ls| > 0 {
      var n := |ls| - 1;
      PruneAt(ls[..n], gone);
      forall c | 0 <= c < |ls| ensures Prune(ls, gone)[c] == PrunedCity(c, ls[c], gone) {
        if c < n {
          assert ls[..n][c] == ls[c];
        }
      }
    }
  }

  /** Each field after deleting `gone`: None at a deleted city and for a
      link into `gone`, as before otherwise. */
  lemma PruneFields(ls: seq<Links<CityId>>, gone: set<CityId>)
    ensures forall c, d :: 0 <= c < |ls| ==>
      Prune(ls, gone)[c].Get(d) == if c in gone || (ls[c].Get(d).Some? && ls[c].Get(d).value in gone) then None else ls[c].Get(d)
  {
    PruneAt(ls, gone);
  }

  /** On a reciprocal map `destroy` deletes the city from the graph: it
      clears exactly the links at both ends of each edge of `x`. */
  lemma DetachIsPrune(ls: seq<Links<CityId>>, x: CityId)
    requires Reciprocal(ls) && x < |ls|
    ensures Detach(ls, x) == Prune(ls, {x})
  {
    var r, p := Detach(ls, x), Prune(ls, {x});
    forall c | 0 <= c < |ls| ensures r[c] == p[c] {
      DetachPrunesCity(ls, x, c);
    }
  }

  /** One city of `DetachIsPrune`. */
  lemma DetachPrunesCity(ls: seq<Links<CityId>>, x: CityId, c: CityId)
    requires Reciprocal(ls) && x < |ls| && c < |ls|
    ensures Detach(ls, x)[c] == PrunedCity(c, ls[c], {x}) == Prune(ls, {x})[c]
  {
    PruneAt(ls, {x});
    if c != x {
      var r := Detach(ls, x)[c];
      forall e ensures r.Get(e) == Cut(ls[c], {x}).Get(e) {
        DetachPrunesField(ls, x, c, e);
        CutGet(ls[c], {x}, e);
      }
      SameFields(r, Cut(ls[c], {x}));
    }
  }

  /** Links records with the same four fields are equal. */
  lemma SameFields<T>(a: Links<T>, b: Links<T>)
    requires forall d :: a.Get(d) == b.Get(d)
    ensures a == b
  {
    assert a.north == a.Get(North) && a.south == a.Get(South);
    assert a.east == a.Get(East) && a.west == a.Get(West);
  }

  /** One field of `DetachIsPrune`. */
  lemma DetachPrunesField(ls: seq<Links<CityId>>, x: CityId, c: CityId, e: Direction)
    requires Reciprocal(ls) && x < |ls| && c < |ls| && c != x
    ensures Detach(ls, x)[c].Get(e) == if ls[c].Get(e) == Some(x) then None else ls[c].Get(e)
  {
    assert Opposite(Opposite(e)) == e;
    DetachOnlyBackLinks(ls, x, c, e);
    if ls[c].Get(e) == Some(x) {
      DetachClearsBackLinks(ls, x, Opposite(e));
    }
  }

  /** Deleting cities keeps the map reciprocal. */
  lemma PruneReciprocal(ls: seq<Links<CityId>>, gone: set<CityId>)
    requires Reciprocal(ls)
    ensures Reciprocal(Prune(ls, gone))
  {
    var p := Prune(ls, gone);
    PruneFields(ls, gone);
    forall c, d | 0 <= c < |p| && p[c].Get(d).Some?
      ensures p[c].Get(d).value < |p| && p[p[c].Get(d).value].Get(Opposite(d)) == Some(c)
    {
      var t := p[c].Get(d).value;
      assert ls[c].Get(d) == Some(t) && t !in gone && c !in gone;
      assert ls[t].Get(Opposite(d)) == Some(c);
    }
  }

  /** Deleting no city changes nothing. */
  lemma PruneNothing(ls: seq<Links<CityId>>)
    ensures Prune(ls, {}) == ls
  {
    PruneAt(ls, {});
    forall c | 0 <= c < |ls| ensures Prune(ls, {})[c] == ls[c] {
      SameFields(Cut(ls[c], {}), ls[c]);
    }
  }

  /** Deleting `a` and then `b` is deleting both at once. */
  lemma PruneUnion(ls: seq<Links<CityId>>, a: set<CityId>, b: set<CityId>)
    ensures Prune(Prune(ls, a), b) == Prune(ls, a + b)
  {
    var l, r := Prune(Prune(ls, a), b), Prune(ls, a + b);
    PruneFields(ls, a);
    PruneFields(Prune(ls, a), b);
    PruneFields(ls, a + b);
    forall c | 0 <= c < |ls| ensures l[c] == r[c] {
      SameFields(l[c], r[c]);
    }
  }
}
