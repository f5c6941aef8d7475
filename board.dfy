/**
  The invasion board (alien_invasion.py:11-267): cities and aliens in an
  arena, the board's membership sets, and the operations of `City`,
  `Alien`, `check_occupancy`, `run_game`, `setup_game`, the name
  resolution of `parse_map_and_setup_board` and `write_cities`.

  City `c` is index `c` of `name`, `links` and `occupants`; alien `a` is
  index `a` of `location` (its `current_city`), `moves` and `alive`.
  Alien `a` is the alien the source names `str(a)`.
*/
module Invasion {
  import opened Geography
  import opened MapFormat

  type AlienId = nat

  /** The move count `run_game` compares against (alien_invasion.py:252).
      The `max_moves` argument is never read. */
  const MoveLimit: nat := 10000

  /** The cities of `cs` with more than one occupant. */
  function Crowded(cs: set<CityId>, occupants: seq<set<AlienId>>): set<CityId> {
    set c | c in cs && c < |occupants| && |occupants[c]| > 1
  }

  /** One more city: it is crowded or not. */
  lemma CrowdedStep(cs: set<CityId>, occupants: seq<set<AlienId>>, c: CityId)
    requires c < |occupants|
    ensures Crowded(cs + {c}, occupants) == if |occupants[c]| > 1 then Crowded(cs, occupants) + {c} else Crowded(cs, occupants)
  {
  }

  /** Visiting every city of `cs` finds all its crowded cities. */
  lemma CrowdedAll(done: set<CityId>, cs: set<CityId>, occupants: seq<set<AlienId>>)
    requires done <= cs && forall c :: c in cs ==> c in done
    ensures Crowded(done, occupants) == Crowded(cs, occupants)
  {
  }

  /** The aliens of `aliens` standing in a city of `fought`. */
  function Victims(aliens: set<AlienId>, location: seq<CityId>, fought: set<CityId>): set<AlienId> {
    set a | a in aliens && a < |location| && location[a] in fought
  }

  /** The move counts after every alien of `movers` has made one more
      move. */
  function Bumped(m: seq<nat>, movers: set<AlienId>): (r: seq<nat>)
    ensures |r| == |m|
  {
    seq(|m|, i requires 0 <= i < |m| => m[i] + (if i in movers then 1 else 0))
  }

  /** A mover has one move more, every other alien as many as before. */
  lemma BumpedAt(m: seq<nat>, movers: set<AlienId>)
    ensures forall i :: 0 <= i < |m| ==> Bumped(m, movers)[i] == m[i] + (if i in movers then 1 else 0)
  {
  }

  /** Every alien of `s` has made at least `MoveLimit` moves. */
  ghost predicate AllAtLimit(m: seq<nat>, s: set<AlienId>) {
    forall a :: a in s ==> a < |m| && m[a] >= MoveLimit
  }

  /** Adding one alien to `s` adds its own count to the test. */
  lemma AllAtLimitStep(m: seq<nat>, s: set<AlienId>, a: AlienId, cur: seq<nat>)
    requires a < |m| && a !in s && cur == Bumped(m, s)
    ensures AllAtLimit(m, s + {a}) <==> AllAtLimit(m, s) && cur[a] >= MoveLimit
  {
    BumpedAt(m, s);
  }

  // ---------------------------------------------------------------------
  // The board invariant, on the values of the board's fields.
  // ---------------------------------------------------------------------

  /** Living and destroyed cities partition the arena, a destroyed city
      has no links, and the map is reciprocal. */
  ghost predicate GraphOk(links: seq<Links<CityId>>, living: set<CityId>, destroyed: set<CityId>) {
    && Reciprocal(links)
    && (forall c :: 0 <= c < |links| ==> (c in living <==> c !in destroyed))
    && (forall c :: c in destroyed ==> c < |links| && links[c] == NoLinks())
  }

  /** A living city is in the occupied set exactly when its occupant set
      is not empty. */
  ghost predicate OccupancyOk(occupied: set<CityId>, living: set<CityId>, occupants: seq<set<AlienId>>) {
    && occupied <= living
    && (forall c :: c in living ==> c < |occupants| && (c in occupied <==> occupants[c] != {}))
  }

  /** The occupant sets after alien `a` leaves `from` and enters `to`
      (`remove_alien` followed by `add_alien`). */
  function Relocated(o: seq<set<AlienId>>, a: AlienId, from: CityId, to: CityId): (r: seq<set<AlienId>>)
    requires from < |o| && to < |o|
    ensures |r| == |o|
  {
    var left := o[from := o[from] - {a}];
    left[to := left[to] + {a}]
  }

  /** City `to` is where one move can take an alien from city `from`,
      whose links are `l`: `from` itself when it has no links, a linked
      neighbour otherwise. */
  ghost predicate Reached(l: Links<CityId>, from: CityId, to: CityId) {
    if l == NoLinks() then to == from else exists d :: l.Get(d) == Some(to)
  }

  /** Every alien of `movers` has made one move from where it stood in
      `loc0`, and every other alien stands where it stood. */
  ghost predicate Moved(links: seq<Links<CityId>>, loc0: seq<CityId>, loc: seq<CityId>, movers: set<AlienId>) {
    && |loc| == |loc0|
    && (forall b :: b in movers ==> b < |loc0| && loc0[b] < |links| && Reached(links[loc0[b]], loc0[b], loc[b]))
    && (forall b :: 0 <= b < |loc| && b !in movers ==> loc[b] == loc0[b])
  }

  /** The occupant sets of the cities that are not living are as in `o0`. */
  ghost predicate RuinsKept(o0: seq<set<AlienId>>, o: seq<set<AlienId>>, living: set<CityId>) {
    |o| == |o0| && forall c :: 0 <= c < |o| && c !in living ==> o[c] == o0[c]
  }

  /** Alien `a` is in the occupant set of city `c`. (Named, so that the
      invariants below speak about it only where a proof mentions it.) */
  ghost predicate Occupies(occupants: seq<set<AlienId>>, c: CityId, a: AlienId) {
    c < |occupants| && a in occupants[c]
  }

  /** Living and dead aliens partition the aliens as the alive flags say;
      a living alien stands in a living city and is in the occupant set of
      that city only; a living city is occupied by living aliens only. */
  ghost predicate AliensOk(alive: seq<bool>, livingAliens: set<AlienId>, deadAliens: set<AlienId>,
                           location: seq<CityId>, occupants: seq<set<AlienId>>, livingCities: set<CityId>) {
    && (forall a :: 0 <= a < |alive| ==> (alive[a] <==> a in livingAliens) && (a in livingAliens <==> a !in deadAliens))
    && (forall a :: a in livingAliens ==>
          a < |location| && location[a] in livingCities && location[a] < |occupants| && a in occupants[location[a]])
    && (forall c: CityId, a: AlienId :: Occupies(occupants, c, a) && a in livingAliens && a < |location| ==> c == location[a])
    && (forall c: CityId, a: AlienId :: c in livingCities && Occupies(occupants, c, a) ==> a in livingAliens)
  }

  /** How many moves a living alien still lacks to reach the limit. */
  function Shortfall(m: nat, live: bool): nat {
    if live && m < MoveLimit then MoveLimit - m else 0
  }

  /** Total shortfall of the living aliens: the loop of `run_game` ends
      at the latest when it reaches 0. */
  function Deficit(moves: seq<nat>, alive: seq<bool>): nat
    requires |moves| == |alive|
  {
    if |moves| == 0 then 0
    else Deficit(moves[..|moves| - 1], alive[..|alive| - 1]) + Shortfall(moves[|moves| - 1], alive[|alive| - 1])
  }

  /** No alien's shortfall grows, so neither does the total. */
  lemma {:induction false} DeficitNoGrowth(m1: seq<nat>, a1: seq<bool>, m2: seq<nat>, a2: seq<bool>)
    requires |m1| == |a1| == |m2| == |a2|
    requires forall i :: 0 <= i < |m1| ==> Shortfall(m2[i], a2[i]) <= Shortfall(m1[i], a1[i])
    ensures Deficit(m2, a2) <= Deficit(m1, a1)
  {
    if |m1| > 0 {
      var n := |m1| - 1;
      DeficitNoGrowth(m1[..n], a1[..n], m2[..n], a2[..n]);
    }
  }

  /** No alien's shortfall grows and alien `k`'s shrinks, so the total
      shrinks. */
  lemma {:induction false} DeficitShrinks(m1: seq<nat>, a1: seq<bool>, m2: seq<nat>, a2: seq<bool>, k: nat)
    requires |m1| == |a1| == |m2| == |a2|
    requires forall i :: 0 <= i < |m1| ==> Shortfall(m2[i], a2[i]) <= Shortfall(m1[i], a1[i])
    requires k < |m1| && Shortfall(m2[k], a2[k]) < Shortfall(m1[k], a1[k])
    ensures Deficit(m2, a2) < Deficit(m1, a1)
  {
    var n := |m1| - 1;
    if k == n {
      DeficitNoGrowth(m1[..n], a1[..n], m2[..n], a2[..n]);
    } else {
      DeficitShrinks(m1[..n], a1[..n], m2[..n], a2[..n], k);
    }
  }

  /** One more mover. */
  lemma BumpedStep(m: seq<nat>, movers: set<AlienId>, a: AlienId, before: seq<nat>, after: seq<nat>)
    requires a < |m| && a !in movers
    requires before == Bumped(m, movers) && after == before[a := before[a] + 1]
    ensures after == Bumped(m, movers + {a})
  {
  }

  /** A round in which every living alien moves once and some of them
      die lowers the total shortfall, provided one of the movers was
      below the limit. */
  lemma RoundLowersDeficit(m0: seq<nat>, al0: seq<bool>, la0: set<AlienId>,
                           m1: seq<nat>, al1: seq<bool>, la1: set<AlienId>)
    requires |m0| == |al0| == |al1| && m1 == Bumped(m0, la0)
    requires forall i :: 0 <= i < |al0| ==> (al0[i] <==> i in la0) && (al1[i] <==> i in la1)
    requires la1 <= la0 && !AllAtLimit(m0, la0)
    requires forall a :: a in la0 ==> a < |m0|
    ensures Deficit(m1, al1) < Deficit(m0, al0)
  {
    var a :| a in la0 && m0[a] < MoveLimit;
    forall i | 0 <= i < |m0| ensures Shortfall(m1[i], al1[i]) <= Shortfall(m0[i], al0[i]) {
      if al1[i] {
        assert i in la1;
      }
    }
    DeficitShrinks(m0, al0, m1, al1, a);
  }

  class Board {
    var name: seq<string>
    var links: seq<Links<CityId>>
    var occupants: seq<set<AlienId>>
    var occupiedCities: set<CityId>
    var livingCities: set<CityId>
    var destroyedCities: set<CityId>
    var livingAliens: set<AlienId>
    var deadAliens: set<AlienId>
    var location: seq<CityId>
    var moves: seq<nat>
    var alive: seq<bool>

    /** The city records line up and every link names a city. */
    ghost predicate CityShape()
      reads this`name, this`links, this`occupants
    {
      |name| == |links| == |occupants| && InRange(links)
    }

    /** The three city sets hold cities of the arena. */
    ghost predicate CitySets()
      reads this`links, this`occupiedCities, this`livingCities, this`destroyedCities
    {
      && (forall c :: c in occupiedCities ==> c < |links|)
      && (forall c :: c in livingCities ==> c < |links|)
      && (forall c :: c in destroyedCities ==> c < |links|)
    }

    /** The alien records line up, and the alien sets, locations and
        occupant sets hold ids of the arena. */
    ghost predicate AlienShape()
      reads this`links, this`occupants, this`location, this`moves, this`alive, this`livingAliens, this`deadAliens
    {
      && |location| == |moves| == |alive|
      && (forall a :: a in livingAliens ==> a < |location|)
      && (forall a :: a in deadAliens ==> a < |location|)
      && (forall a :: 0 <= a < |location| ==> location[a] < |links|)
      && (forall c: CityId, a: AlienId :: Occupies(occupants, c, a) ==> a < |location|)
    }

    /** Every id stored anywhere names a city or alien of the arena. */
    ghost predicate Shape()
      reads this
    {
      CityShape() && CitySets() && AlienShape()
    }

    ghost predicate GraphValid()
      reads this`links, this`livingCities, this`destroyedCities
    {
      GraphOk(links, livingCities, destroyedCities)
    }

    ghost predicate OccupancyValid()
      reads this`occupiedCities, this`livingCities, this`occupants
    {
      OccupancyOk(occupiedCities, livingCities, occupants)
    }

    ghost predicate AliensValid()
      reads this`alive, this`livingAliens, this`deadAliens, this`location, this`occupants, this`livingCities
    {
      AliensOk(alive, livingAliens, deadAliens, location, occupants, livingCities)
    }

    /** The board invariant. */
    ghost predicate Valid()
      reads this
    {
      Shape() && GraphValid() && OccupancyValid() && AliensValid()
    }

    /** `Board.__init__` */
    constructor ()
      ensures Valid()
      ensures name == [] && links == [] && occupants == [] && location == [] && moves == [] && alive == []
      ensures occupiedCities == {} && livingCities == {} && destroyedCities == {}
      ensures livingAliens == {} && deadAliens == {}
    {
      name, links, occupants := [], [], [];
      occupiedCities, livingCities, destroyedCities := {}, {}, {};
      livingAliens, deadAliens := {}, {};
      location, moves, alive := [], [], [];
    }

    /** `City.__init__`: a new city with no occupants joins the living
        cities. Its links may name any city, itself included. */
    method NewCity(nm: string, l: Links<CityId>) returns (c: CityId)
      requires Shape()
      requires forall d :: l.Get(d).Some? ==> l.Get(d).value <= |links|
      modifies this`name, this`links, this`occupants, this`livingCities
      ensures Shape()
      ensures c == old(|links|)
      ensures name == old(name) + [nm] && links == old(links) + [l] && occupants == old(occupants) + [{}]
      ensures livingCities == old(livingCities) + {c}
    {
      c := |links|;
      name, links, occupants := name + [nm], links + [l], occupants + [{}];
      livingCities := livingCities + {c};
      assert forall c': CityId, b: AlienId :: Occupies(occupants, c', b) ==> Occupies(old(occupants), c', b);
    }

    /** `setattr(city, direction, target)`; the only field that changes. */
    method SetLink(c: CityId, d: Direction, t: Option<CityId>)
      requires Shape() && c < |links|
      requires t.Some? ==> t.value < |links|
      modifies this`links
      ensures Shape()
      ensures links == old(links)[c := old(links[c]).Set(d, t)]
    {
      links := links[c := links[c].Set(d, t)];
    }

    /** The first loop of `parse_map_and_setup_board`: city `i` is a new
        city named after record `i`, with no links yet. */
    method AddCities(records: seq<RawCity>)
      requires Shape() && name == [] && livingCities == {}
      modifies this`name, this`links, this`occupants, this`livingCities
      ensures Shape()
      ensures |name| == |records| && forall j :: 0 <= j < |records| ==> name[j] == records[j].name
      ensures forall j :: 0 <= j < |records| ==> links[j] == NoLinks() && occupants[j] == {}
      ensures forall c: nat :: c in livingCities <==> c < |records|
    {
      var i := 0;
      while i < |records|
        invariant 0 <= i <= |records| && Shape()
        invariant |name| == i && forall j :: 0 <= j < i ==> name[j] == records[j].name
        invariant forall j :: 0 <= j < i ==> links[j] == NoLinks() && occupants[j] == {}
        invariant forall c: nat :: c in livingCities <==> c < i
      {
        var _ := NewCity(records[i].name, NoLinks());
        i := i + 1;
      }
    }

    /** The second loop of `parse_map_and_setup_board`
        (alien_invasion.py:183-187): every city's links are resolved by
        name. */
    method ResolveAll(records: seq<RawCity>, index: map<string, CityId>)
      requires Shape() && |name| == |records| && IndexOf(index, name)
      requires forall c: nat :: c in livingCities <==> c < |records|
      requires forall j :: 0 <= j < |records| ==> links[j] == NoLinks()
      modifies this`links
      ensures Shape()
      ensures forall c, d :: 0 <= c < |records| ==> ResolvedLink(name, records[c].links.Get(d), links[c].Get(d))
    {
      var todo := livingCities;
      ghost var done: set<CityId> := {};
      while todo != {}
        invariant todo <= livingCities && todo !! done && Shape() && |links| == |records|
        invariant forall c: nat :: c < |records| ==> c in todo || c in done
        invariant forall c :: c in todo ==> links[c] == NoLinks()
        invariant forall c :: c in done ==> c < |records|
        invariant forall c, d :: c in done ==> ResolvedLink(name, records[c].links.Get(d), links[c].Get(d))
        decreases todo
      {
        var c :| c in todo;
        ghost var before := links;
        ResolveCity(c, records[c].links, index);
        assert forall c' :: c' in done ==> links[c'] == before[c'];
        todo, done := todo - {c}, done + {c};
      }
    }

    /** The inner loop of alien_invasion.py:183-187 for city `c`: each
        raw link name is looked up in `index`, and the link of `c` in that
        direction is set to the city found, or None. */
    method ResolveCity(c: CityId, raw: Links<string>, index: map<string, CityId>)
      requires Shape() && c < |links| && links[c] == NoLinks() && IndexOf(index, name)
      modifies this`links
      ensures Shape() && |links| == old(|links|)
      ensures links == old(links)[c := links[c]]
      ensures forall d :: ResolvedLink(name, raw.Get(d), links[c].Get(d))
    {
      var k := 0;
      while k < |Directions|
        invariant 0 <= k <= |Directions| && Shape() && |links| == old(|links|)
        invariant links == old(links)[c := links[c]]
        invariant forall j :: 0 <= j < k ==> ResolvedLink(name, raw.Get(Directions[j]), links[c].Get(Directions[j]))
        invariant forall j :: k <= j < |Directions| ==> links[c].Get(Directions[j]) == None
      {
        var d := Directions[k];
        var target := Lookup(index, raw.Get(d));
        LookupResolves(index, name, raw.Get(d));
        SetLink(c, d, target);
        k := k + 1;
      }
      forall d ensures ResolvedLink(name, raw.Get(d), links[c].Get(d)) {
        assert d == Directions[Rank(d)];
      }
    }

    /** `City.destroy` (alien_invasion.py:37-60): each of the four
        neighbour updates (`ClearBack`) in north, south, east, west order,
        then the city's own links are cleared and it leaves the living and
        occupied cities for the destroyed ones. */
    method Destroy(x: CityId)
      requires Shape() && x < |links|
      modifies this`links, this`livingCities, this`occupiedCities, this`destroyedCities
      ensures Shape()
      ensures links == Detach(old(links), x)
      ensures livingCities == old(livingCities) - {x}
      ensures occupiedCities == old(occupiedCities) - {x}
      ensures destroyedCities == old(destroyedCities) + {x}
    {
      var ls := ClearBack(links, x, North);
      ls := ClearBack(ls, x, South);
      ls := ClearBack(ls, x, East);
      ls := ClearBack(ls, x, West);
      links, livingCities, occupiedCities, destroyedCities :=
        ls[x := NoLinks()], livingCities - {x}, occupiedCities - {x}, destroyedCities + {x};
    }

    /** `City.add_alien`: the alien joins the city's occupants and the
        city is occupied. */
    method AddAlien(c: CityId, a: AlienId)
      requires Shape() && c < |links| && a < |location|
      modifies this`occupants, this`occupiedCities
      ensures Shape()
      ensures occupants == old(occupants)[c := old(occupants[c]) + {a}]
      ensures occupiedCities == old(occupiedCities) + {c}
    {
      occupants := occupants[c := occupants[c] + {a}];
      occupiedCities := occupiedCities + {c};
      assert forall c': CityId, b: AlienId :: Occupies(occupants, c', b) ==> Occupies(old(occupants), c', b) || b == a;
    }

    /** `City.remove_alien`: `set.remove` raises unless the alien is an
        occupant; the city stops being occupied exactly when its last
        occupant leaves. */
    method RemoveAlien(c: CityId, a: AlienId)
      requires Shape() && c < |links| && a in occupants[c]
      modifies this`occupants, this`occupiedCities
      ensures Shape()
      ensures occupants == old(occupants)[c := old(occupants[c]) - {a}]
      ensures occupiedCities == if old(occupants[c]) == {a} then old(occupiedCities) - {c} else old(occupiedCities)
    {
      occupants := occupants[c := occupants[c] - {a}];
      if |occupants[c]| < 1 {
        occupiedCities := occupiedCities - {c};
      }
      assert forall c': CityId, b: AlienId :: Occupies(occupants, c', b) ==> Occupies(old(occupants), c', b);
    }

    /** `Alien.__init__`: a new living alien with no moves, standing in `c`. */
    method NewAlien(c: CityId) returns (a: AlienId)
      requires Shape() && c < |links|
      modifies this`occupants, this`occupiedCities, this`livingAliens, this`location, this`moves, this`alive
      ensures Shape()
      ensures a == old(|location|)
      ensures location == old(location) + [c] && moves == old(moves) + [0] && alive == old(alive) + [true]
      ensures occupants == old(occupants)[c := old(occupants[c]) + {a}]
      ensures occupiedCities == old(occupiedCities) + {c}
      ensures livingAliens == old(livingAliens) + {a}
    {
      a := |location|;
      location, moves, alive := location + [c], moves + [0], alive + [true];
      assert AlienShape();
      AddAlien(c, a);
      livingAliens := livingAliens + {a};
      assert AlienShape();
    }

    /** `Alien.kill`: `set.remove` raises unless the alien is living. Its
        occupancy is left as it is. */
    method Kill(a: AlienId)
      requires Shape() && a in livingAliens
      modifies this`alive, this`livingAliens, this`deadAliens
      ensures Shape()
      ensures alive == old(alive)[a := false]
      ensures livingAliens == old(livingAliens) - {a}
      ensures deadAliens == old(deadAliens) + {a}
    {
      alive := alive[a := false];
      livingAliens := livingAliens - {a};
      deadAliens := deadAliens + {a};
    }

    /** Where `Alien.move` takes a living alien standing in `from`: the
        `idx`-th available direction, or nowhere when there is none. */
    static function Destination(l: Links<CityId>, from: CityId, idx: nat): (to: CityId)
      requires ValidMoves(l) == [] || idx < |ValidMoves(l)|
      ensures l == NoLinks() ==> to == from
      ensures l != NoLinks() ==> exists d :: l.Get(d) == Some(to)
    {
      var vm := ValidMoves(l);
      if vm == [] then from else l.Get(vm[idx]).value
    }

    /** `Alien.move` (alien_invasion.py:110-131), with `random.choice`
        replaced by `idx`, an index into the available directions. A dead
        alien does not move; a living one leaves its city, takes the
        `idx`-th link if there is one, enters the city it ends up in and
        counts a move. */
    method Move(a: AlienId, idx: nat)
      requires Valid() && a < |location|
      requires alive[a] ==> ValidMoves(links[location[a]]) == [] || idx < |ValidMoves(links[location[a]])|
      modifies this`occupants, this`occupiedCities, this`location, this`moves
      ensures Valid()
      ensures !old(alive[a]) ==>
        occupants == old(occupants) && occupiedCities == old(occupiedCities) && location == old(location) && moves == old(moves)
      ensures old(alive[a]) ==>
        var from := old(location[a]);
        var to := Destination(links[from], from, idx);
        && location == old(location)[a := to]
        && moves == old(moves)[a := old(moves[a]) + 1]
        && occupants == Relocated(old(occupants), a, from, to)
        && occupiedCities == (old(occupiedCities) - (if old(occupants[from]) == {a} then {from} else {})) + {to}
    {
      if !alive[a] {
        return;
      }
      ghost var from, o0, occ0, loc0 := location[a], occupants, occupiedCities, location;
      LivingLinksLiving(this);
      Walk(a, idx);
      MoveKeeps(alive, livingAliens, deadAliens, loc0, o0, occ0, livingCities, a, location[a], location, occupants, occupiedCities);
    }

    /** The steps of `Alien.move` after the `alive` test: the alien leaves
        city `from`, takes the `idx`-th available link if there is one,
        enters the city it ends up in and counts a move. */
    method Walk(a: AlienId, idx: nat)
      requires Shape() && a < |location| && a in occupants[location[a]]
      requires ValidMoves(links[location[a]]) == [] || idx < |ValidMoves(links[location[a]])|
      modifies this`occupants, this`occupiedCities, this`location, this`moves
      ensures Shape()
      ensures var from := old(location[a]);
        var to := Destination(links[from], from, idx);
        && location == old(location)[a := to]
        && moves == old(moves)[a := old(moves[a]) + 1]
        && occupants == Relocated(old(occupants), a, from, to)
        && occupiedCities == (old(occupiedCities) - (if old(occupants[from]) == {a} then {from} else {})) + {to}
    {
      var from := location[a];
      RemoveAlien(from, a);
      var vm := ValidMoves(links[from]);
      if |vm| > 0 {
        location := location[a := links[from].Get(vm[idx]).value];
      }
      AddAlien(location[a], a);
      moves := moves[a := moves[a] + 1];
    }

    /** The index `random.choice` picks among the available directions,
        with the draw replaced by `choice`. */
    static function ChoiceIndex(l: Links<CityId>, choice: nat): (idx: nat)
      ensures ValidMoves(l) == [] || idx < |ValidMoves(l)|
    {
      var vm := ValidMoves(l);
      if |vm| == 0 then 0 else choice % |vm|
    }

    /** `alien.move()` with the direction drawn by `random.choice`
        replaced by `choice`, taken modulo the number of available
        directions: living alien `a` makes one more move, to a city one
        move away; no other alien moves, and no occupant set of a city
        that is not living changes. */
    method MoveBy(a: AlienId, choice: nat, ghost m0: seq<nat>, ghost movers: set<AlienId>)
      requires Valid() && a in livingAliens && a !in movers
      requires |m0| == |moves| && moves == Bumped(m0, movers)
      modifies this`occupants, this`occupiedCities, this`location, this`moves
      ensures Valid()
      ensures moves == Bumped(m0, movers + {a})
      ensures var from := old(location[a]);
        var to := Destination(links[from], from, ChoiceIndex(links[from], choice));
        && location == old(location)[a := to]
        && occupants == Relocated(old(occupants), a, from, to)
        && occupiedCities == (old(occupiedCities) - (if old(occupants[from]) == {a} then {from} else {})) + {to}
      ensures |location| == old(|location|) && |occupants| == old(|occupants|)
      ensures Reached(links[old(location[a])], old(location[a]), location[a])
      ensures forall b :: 0 <= b < |location| && b != a ==> location[b] == old(location[b])
      ensures forall c :: 0 <= c < |occupants| && c !in livingCities ==> occupants[c] == old(occupants[c])
    {
      var idx := ChoiceIndex(links[location[a]], choice);
      ghost var before := moves;
      Move(a, idx);
      BumpedStep(m0, movers, a, before, moves);
    }

    /** One pass of the `for` loop of `run_game`: living alien `a`, not
        among the aliens `done` that have already moved, moves. */
    method MoveNext(a: AlienId, choice: nat, ghost m0: seq<nat>, ghost loc0: seq<CityId>,
                    ghost o0: seq<set<AlienId>>, ghost done: set<AlienId>)
      requires Valid() && a in livingAliens && a !in done
      requires |m0| == |moves| && moves == Bumped(m0, done)
      requires Moved(links, loc0, location, done) && RuinsKept(o0, occupants, livingCities)
      modifies this`occupants, this`occupiedCities, this`location, this`moves
      ensures Valid()
      ensures moves == Bumped(m0, done + {a})
      ensures Moved(links, loc0, location, done + {a}) && RuinsKept(o0, occupants, livingCities)
    {
      MoveBy(a, choice, m0, done);
    }

    /** The loop of `check_occupancy` that kills every occupant of city
        `c` (alien_invasion.py:221-222); every occupant must be living. */
    method KillOccupants(c: CityId)
      requires Shape() && c < |occupants| && occupants[c] <= livingAliens
      modifies this`alive, this`livingAliens, this`deadAliens
      ensures Shape()
      ensures livingAliens == old(livingAliens) - occupants[c] && deadAliens == old(deadAliens) + occupants[c]
      ensures |alive| == old(|alive|)
      ensures forall a :: 0 <= a < |alive| ==> alive[a] == (old(alive[a]) && a !in occupants[c])
    {
      var victims := occupants[c];
      while victims != {}
        invariant Shape() && victims <= occupants[c] && victims <= livingAliens
        invariant livingAliens == old(livingAliens) - (occupants[c] - victims)
        invariant deadAliens == old(deadAliens) + (occupants[c] - victims)
        invariant |alive| == old(|alive|)
        invariant forall a :: 0 <= a < |alive| ==> alive[a] == (old(alive[a]) && a !in occupants[c] - victims)
        decreases victims
      {
        var a :| a in victims;
        Kill(a);
        victims := victims - {a};
      }
    }

    /** The body of the `if` in `check_occupancy` (alien_invasion.py:220-239):
        every occupant of a crowded city dies, then the city is destroyed. */
    method Fight(c: CityId)
      requires Valid() && c in livingCities && |occupants[c]| > 1
      modifies this`alive, this`livingAliens, this`deadAliens
      modifies this`links, this`livingCities, this`occupiedCities, this`destroyedCities
      ensures Valid()
      ensures links == Prune(old(links), {c})
      ensures livingCities == old(livingCities) - {c} && destroyedCities == old(destroyedCities) + {c}
      ensures occupiedCities == old(occupiedCities) - {c}
      ensures livingAliens == old(livingAliens) - occupants[c] && deadAliens == old(deadAliens) + occupants[c]
      ensures |alive| == old(|alive|)
      ensures forall a :: 0 <= a < |alive| ==> alive[a] == (old(alive[a]) && a !in occupants[c])
    {
      assert occupants[c] <= livingAliens;
      KillOccupants(c);
      Destroy(c);
      DetachIsPrune(old(links), c);
      FightKeeps(old(links), old(livingCities), old(destroyedCities), old(occupiedCities),
                 old(alive), old(livingAliens), old(deadAliens), location, occupants, c, alive);
    }

    /** `check_occupancy` (alien_invasion.py:211-239): over a snapshot of
        the occupied cities, every city with more than one occupant is
        destroyed and all its occupants die: the aliens that were living
        and stood in one of those cities. Cities with one occupant are
        left standing, and the dead stay in their city's occupant set. */
    method CheckOccupancy()
      requires Valid()
      modifies this`alive, this`livingAliens, this`deadAliens
      modifies this`links, this`livingCities, this`occupiedCities, this`destroyedCities
      ensures Valid()
      ensures Fought(old(links), old(livingCities), old(destroyedCities), old(occupiedCities),
                     old(livingAliens), old(deadAliens), Crowded(old(occupiedCities), occupants))
      ensures |alive| == old(|alive|)
      ensures forall c, a :: c in Crowded(old(occupiedCities), occupants) && a in occupants[c] ==> a !in livingAliens
    {
      ghost var al0, la0, da0, lc0, occ0 := alive, livingAliens, deadAliens, livingCities, occupiedCities;
      assert AliensOk(al0, la0, da0, location, occupants, lc0) && OccupancyOk(occ0, lc0, occupants);
      CheckCities();
      OccupantsDie(al0, la0, da0, location, occupants, lc0, occ0, Crowded(occ0, occupants), livingAliens);
    }

    /** The loop of `check_occupancy` over the snapshot of the occupied
        cities. */
    method CheckCities()
      requires Valid()
      modifies this`alive, this`livingAliens, this`deadAliens
      modifies this`links, this`livingCities, this`occupiedCities, this`destroyedCities
      ensures Valid() && |alive| == old(|alive|)
      ensures Fought(old(links), old(livingCities), old(destroyedCities), old(occupiedCities),
                     old(livingAliens), old(deadAliens), Crowded(old(occupiedCities), occupants))
    {
      PruneNothing(links);
      assert Crowded({}, occupants) == {} && Victims(livingAliens, location, {}) == {};
      var remaining := occupiedCities;
      ghost var done: set<CityId> := {};
      while remaining != {}
        invariant Valid() && |alive| == old(|alive|)
        invariant remaining <= old(occupiedCities) && done <= old(occupiedCities) && remaining !! done
        invariant forall c :: c in old(occupiedCities) ==> c in remaining || c in done
        invariant Fought(old(links), old(livingCities), old(destroyedCities), old(occupiedCities),
                         old(livingAliens), old(deadAliens), Crowded(done, occupants))
        decreases remaining
      {
        var c :| c in remaining;
        CheckCity(c, old(links), old(livingCities), old(destroyedCities), old(occupiedCities),
                  old(livingAliens), old(deadAliens), done);
        remaining, done := remaining - {c}, done + {c};
      }
      CrowdedAll(done, old(occupiedCities), occupants);
    }

    /** The cities of `fought` are destroyed, as `Prune` says, and the
        aliens that were living in them are dead; everything else is as in
        the snapshot `L0`, `lc0`, `dc0`, `occ0`, `la0`, `da0`. */
    ghost predicate Fought(L0: seq<Links<CityId>>, lc0: set<CityId>, dc0: set<CityId>, occ0: set<CityId>,
                           la0: set<AlienId>, da0: set<AlienId>, fought: set<CityId>)
      reads this`links, this`livingCities, this`destroyedCities, this`occupiedCities
      reads this`livingAliens, this`deadAliens, this`location
    {
      && links == Prune(L0, fought)
      && livingCities == lc0 - fought && destroyedCities == dc0 + fought && occupiedCities == occ0 - fought
      && livingAliens == la0 - Victims(la0, location, fought) && deadAliens == da0 + Victims(la0, location, fought)
    }

    /** One pass of the loop of `check_occupancy` (alien_invasion.py:217-239):
        city `c` of the snapshot of occupied cities is fought in when it
        has more than one occupant. `done` are the cities already visited. */
    method CheckCity(c: CityId, ghost L0: seq<Links<CityId>>, ghost lc0: set<CityId>, ghost dc0: set<CityId>,
                     ghost occ0: set<CityId>, ghost la0: set<AlienId>, ghost da0: set<AlienId>, ghost done: set<CityId>)
      requires Valid() && c in occ0 && c !in done && done <= occ0
      requires Fought(L0, lc0, dc0, occ0, la0, da0, Crowded(done, occupants))
      modifies this`alive, this`livingAliens, this`deadAliens
      modifies this`links, this`livingCities, this`occupiedCities, this`destroyedCities
      ensures Valid() && |alive| == old(|alive|)
      ensures Fought(L0, lc0, dc0, occ0, la0, da0, Crowded(done + {c}, occupants))
    {
      assert c in occupiedCities;
      CrowdedStep(done, occupants, c);
      if |occupants[c]| > 1 {
        FightIn(c, L0, lc0, dc0, occ0, la0, da0, Crowded(done, occupants));
      }
    }

    /** A fight in city `c`, one more city of the snapshot to be fought
        in: the cities fought in so far are `fought`. */
    method FightIn(c: CityId, ghost L0: seq<Links<CityId>>, ghost lc0: set<CityId>, ghost dc0: set<CityId>,
                   ghost occ0: set<CityId>, ghost la0: set<AlienId>, ghost da0: set<AlienId>, ghost fought: set<CityId>)
      requires Valid() && c in livingCities && |occupants[c]| > 1 && c !in fought
      requires Fought(L0, lc0, dc0, occ0, la0, da0, fought)
      modifies this`alive, this`livingAliens, this`deadAliens
      modifies this`links, this`livingCities, this`occupiedCities, this`destroyedCities
      ensures Valid() && |alive| == old(|alive|)
      ensures Fought(L0, lc0, dc0, occ0, la0, da0, fought + {c})
    {
      VictimsStep(la0, livingAliens, deadAliens, da0, location, occupants, fought, c, alive, livingCities);
      Fight(c);
      PruneUnion(L0, fought, {c});
    }

    /** The `for` loop of `run_game` (alien_invasion.py:251-255): every
        living alien moves once, the `k`-th move of the game picking
        direction `oracle(k)` modulo the number available. `end` tells
        whether every living alien had already made `MoveLimit` moves. */
    method MoveAliens(oracle: nat -> nat, k: nat) returns (end: bool, k': nat)
      requires Valid()
      modifies this`occupants, this`occupiedCities, this`location, this`moves
      ensures Valid()
      ensures end <==> AllAtLimit(old(moves), livingAliens)
      ensures moves == Bumped(old(moves), livingAliens)
      ensures Moved(links, old(location), location, livingAliens)
      ensures RuinsKept(old(occupants), occupants, livingCities)
    {
      end := true;
      k' := k;
      var todo := livingAliens;
      ghost var done: set<AlienId> := {};
      while todo != {}
        invariant Valid()
        invariant todo <= livingAliens && done <= livingAliens && todo !! done
        invariant forall a :: a in livingAliens ==> a in todo || a in done
        invariant moves == Bumped(old(moves), done)
        invariant end <==> AllAtLimit(old(moves), done)
        invariant Moved(links, old(location), location, done)
        invariant RuinsKept(old(occupants), occupants, livingCities)
        decreases todo
      {
        var a :| a in todo;
        AllAtLimitStep(old(moves), done, a, moves);
        if moves[a] < MoveLimit {
          end := false;
        }
        MoveNext(a, oracle(k'), old(moves), old(location), old(occupants), done);
        k' := k' + 1;
        done, todo := done + {a}, todo - {a};
      }
      assert done == livingAliens;
    }

    /** `run_game`'s loop body (alien_invasion.py:249-265): every living
        alien moves, then fights are resolved. The round ends the game
        exactly when no alien is left living, or every alien that moved
        had reached `MoveLimit` moves before its move.
        (`len(board.living_cities) < 0` never holds.) A round that does
        not end the game lowers the total shortfall. `occ1` are the
        occupied cities after the moves, as `MoveAndFight` states. */
    method PlayRound(oracle: nat -> nat, k: nat) returns (end: bool, k': nat, ghost occ1: set<CityId>)
      requires Valid()
      modifies this`occupants, this`occupiedCities, this`location, this`moves
      modifies this`alive, this`livingAliens, this`deadAliens
      modifies this`links, this`livingCities, this`destroyedCities
      ensures Valid()
      ensures end <==> livingAliens == {} || AllAtLimit(old(moves), old(livingAliens))
      ensures moves == Bumped(old(moves), old(livingAliens))
      ensures livingAliens <= old(livingAliens)
      ensures !end ==> Deficit(moves, alive) < old(Deficit(moves, alive))
      ensures Moved(old(links), old(location), location, old(livingAliens))
      ensures RuinsKept(old(occupants), occupants, old(livingCities))
      ensures OccupancyOk(occ1, old(livingCities), occupants)
      ensures Fought(old(links), old(livingCities), old(destroyedCities), occ1,
                     old(livingAliens), old(deadAliens), Crowded(occ1, occupants))
    {
      ghost var al0, la0 := alive, livingAliens;
      end, k', occ1 := MoveAndFight(oracle, k);
      if |livingCities| < 0 {
        end := true;
      }
      if |livingAliens| < 1 {
        end := true;
      }
      if !end {
        RoundLowersDeficit(old(moves), al0, la0, moves, alive, livingAliens);
      }
    }

    /** The moves and fights of one round (alien_invasion.py:251-258):
        each living alien makes one move, the occupant sets of the ruins
        are unchanged, and the fights then delete exactly the cities of
        `occ1`, the occupied cities after the moves, with more than one
        occupant, killing the aliens that stood there. `end` says whether
        every alien that moved had reached `MoveLimit` moves before. */
    method MoveAndFight(oracle: nat -> nat, k: nat) returns (end: bool, k': nat, ghost occ1: set<CityId>)
      requires Valid()
      modifies this`occupants, this`occupiedCities, this`location, this`moves
      modifies this`alive, this`livingAliens, this`deadAliens
      modifies this`links, this`livingCities, this`destroyedCities
      ensures Valid()
      ensures end <==> AllAtLimit(old(moves), old(livingAliens))
      ensures moves == Bumped(old(moves), old(livingAliens))
      ensures livingAliens <= old(livingAliens) && |alive| == old(|alive|)
      ensures Moved(old(links), old(location), location, old(livingAliens))
      ensures RuinsKept(old(occupants), occupants, old(livingCities))
      ensures OccupancyOk(occ1, old(livingCities), occupants)
      ensures Fought(old(links), old(livingCities), old(destroyedCities), occ1,
                     old(livingAliens), old(deadAliens), Crowded(occ1, occupants))
    {
      end, k' := MoveAliens(oracle, k);
      occ1 := occupiedCities;
      CheckOccupancy();
    }

    /** `run_game` (alien_invasion.py:241-267): rounds until one ends the
        game. It stops, because each round that does not end the game
        brings some living alien closer to the move limit. At the end
        every surviving alien has made more than `MoveLimit` moves.
        `maxMoves` is accepted and ignored, as in the source. */
    method RunGame(maxMoves: nat, oracle: nat -> nat)
      requires Valid()
      modifies this`occupants, this`occupiedCities, this`location, this`moves
      modifies this`alive, this`livingAliens, this`deadAliens
      modifies this`links, this`livingCities, this`destroyedCities
      ensures Valid()
      ensures forall a :: a in livingAliens ==> moves[a] > MoveLimit
    {
      var k := 0;
      while true
        invariant Valid()
        decreases Deficit(moves, alive)
      {
        var end;
        ghost var occ1;
        end, k, occ1 := PlayRound(oracle, k);
        if end {
          break;
        }
      }
    }

    /** `setup_game` (alien_invasion.py:199-209) on a board with no aliens
        yet. It refuses more aliens than living cities before creating
        any; otherwise alien `i` starts in `starts[i]`, the distinct
        living cities `random.sample` would have drawn, listed in the
        order `setup_aliens` visits them. */
    method SetupGame(aliens: nat, starts: seq<CityId>) returns (ok: bool)
      requires Valid() && |location| == 0
      requires aliens <= |livingCities| ==>
        && |starts| == aliens
        && (forall i, j :: 0 <= i < j < |starts| ==> starts[i] != starts[j])
        && (forall i :: 0 <= i < |starts| ==> starts[i] in livingCities)
      modifies this`occupants, this`occupiedCities, this`livingAliens, this`location, this`moves, this`alive
      ensures ok <==> aliens <= |livingCities|
      ensures !ok ==> occupants == old(occupants) && occupiedCities == old(occupiedCities)
      ensures !ok ==> livingAliens == old(livingAliens) && location == old(location) && moves == old(moves) && alive == old(alive)
      ensures ok ==> Valid()
      ensures ok ==> location == starts && |livingAliens| == aliens && deadAliens == {}
      ensures ok ==> forall a :: 0 <= a < |moves| ==> moves[a] == 0 && alive[a]
      ensures ok ==> forall i :: 0 <= i < |starts| ==> occupants[starts[i]] == {i}
      ensures ok ==> occupiedCities == set i | 0 <= i < |starts| :: starts[i]
    {
      if aliens > |livingCities| {
        return false;
      }
      occupiedCities := set i | 0 <= i < |starts| :: starts[i];
      SetupAliens(starts);
      IdsSize(livingAliens, |starts|);
      ok := true;
    }

    /** `setup_aliens` (alien_invasion.py:191-197) on a board with no
        aliens yet, whose occupied cities are those of `starts`: alien `i`
        is created in city `starts[i]`, the order in which the loop visits
        the occupied cities. */
    method SetupAliens(starts: seq<CityId>)
      requires Shape() && GraphValid() && |location| == 0 && livingAliens == {} && deadAliens == {}
      requires forall i, j :: 0 <= i < j < |starts| ==> starts[i] != starts[j]
      requires forall i :: 0 <= i < |starts| ==> starts[i] in livingCities
      requires occupiedCities == set i | 0 <= i < |starts| :: starts[i]
      modifies this`occupants, this`occupiedCities, this`livingAliens, this`location, this`moves, this`alive
      ensures Valid() && occupiedCities == old(occupiedCities)
      ensures location == starts && forall a: nat :: a in livingAliens <==> a < |starts|
      ensures forall a :: 0 <= a < |moves| ==> moves[a] == 0 && alive[a]
      ensures forall i :: 0 <= i < |starts| ==> occupants[starts[i]] == {i}
    {
      var i := 0;
      while i < |starts|
        invariant 0 <= i <= |starts| && Shape()
        invariant location == starts[..i] && |moves| == i
        invariant forall a :: 0 <= a < i ==> moves[a] == 0 && alive[a]
        invariant forall a: nat :: a in livingAliens <==> a < i
        invariant |occupants| == old(|occupants|) && occupiedCities == old(occupiedCities)
        invariant forall c: CityId, a: AlienId :: c < |occupants| ==> (Occupies(occupants, c, a) <==> a < i && starts[a] == c)
      {
        ghost var o := occupants;
        var a := NewAlien(starts[i]);
        assert forall c: CityId, b: AlienId :: c < |occupants| ==>
          (Occupies(occupants, c, b) <==> Occupies(o, c, b) || (b == a && c == starts[i]));
        i := i + 1;
      }
      assert location == starts;
      SetupKeeps(starts, alive, livingAliens, occupants, occupiedCities, livingCities);
    }

    /** `write_cities` (alien_invasion.py:269-280): one line per living
        city, in the set's iteration order `order`. */
    method WriteCities() returns (lines: seq<string>, ghost order: seq<CityId>)
      requires CityShape() && CitySets()
      ensures Enumerates(order, livingCities)
      ensures |lines| == |livingCities| && |order| == |lines|
      ensures forall i :: 0 <= i < |order| ==> order[i] < |links|
      ensures forall i :: 0 <= i < |order| ==> lines[i] == Line(Export(name, links, order)[i])
    {
      lines, order := [], [];
      var todo := livingCities;
      ghost var done: set<CityId> := {};
      while todo != {}
        invariant todo <= livingCities && done <= livingCities && todo !! done
        invariant forall c :: c in livingCities ==> c in todo || c in done
        invariant Enumerates(order, done)
        invariant |lines| == |order|
        invariant forall i :: 0 <= i < |order| ==> lines[i] == Line(RawCity(name[order[i]], Named(links[order[i]], name)))
        decreases todo
      {
        var c :| c in todo;
        var line := FormatLine(name[c], links[c], name);
        lines, order := lines + [line], order + [c];
        todo, done := todo - {c}, done + {c};
      }
      assert done == livingCities;
      EnumerationSize(order, livingCities);
    }
  }

  /** `parse_map_and_setup_board` (alien_invasion.py:149-189) from the
      matched records onwards: city `i` is made from record `i`, then
      every city's four links are looked up by name among the living
      cities, a name no city has giving no link. */
  method ParseMap(records: seq<RawCity>) returns (b: Board)
    ensures fresh(b) && b.Shape()
    ensures Resolved(records, b.name, b.links)
    ensures forall c: nat :: c in b.livingCities <==> c < |records|
    ensures b.occupiedCities == {} && b.destroyedCities == {}
    ensures b.livingAliens == {} && b.deadAliens == {} && b.location == []
    ensures Reciprocal(b.links) ==> b.Valid()
  {
    b := new Board();
    b.AddCities(records);
    var index := NameIndex(b.name, b.livingCities);
    b.ResolveAll(records, index);
    if Reciprocal(b.links) {
      assert b.GraphValid();
      assert b.OccupancyValid();
      assert b.AliensValid();
    }
  }

  /** `{c.name: c for c in board.living_cities}`: every city of `cities`
      has its name in the index, and each name maps to a city of that
      name. */
  method NameIndex(names: seq<string>, cities: set<CityId>) returns (index: map<string, CityId>)
    requires forall c :: c in cities ==> c < |names|
    ensures forall s :: s in index ==> index[s] in cities && names[index[s]] == s
    ensures forall c :: c in cities ==> names[c] in index
  {
    index := map[];
    var todo := cities;
    while todo != {}
      invariant todo <= cities
      invariant forall s :: s in index ==> index[s] in cities && names[index[s]] == s
      invariant forall c :: c in cities - todo ==> names[c] in index
      decreases todo
    {
      var c :| c in todo;
      index := index[names[c] := c];
      todo := todo - {c};
    }
  }

  /** The board `setup_aliens` leaves: alien `i` alive in `starts[i]`,
      alone there, every start city occupied. */
  lemma SetupKeeps(starts: seq<CityId>, alive: seq<bool>, la: set<AlienId>, o: seq<set<AlienId>>,
                   occ: set<CityId>, lc: set<CityId>)
    requires forall i, j :: 0 <= i < j < |starts| ==> starts[i] != starts[j]
    requires forall i :: 0 <= i < |starts| ==> starts[i] in lc && starts[i] < |o|
    requires occ == set i | 0 <= i < |starts| :: starts[i]
    requires |alive| == |starts| && forall a :: 0 <= a < |alive| ==> alive[a]
    requires forall a: nat :: a in la <==> a < |starts|
    requires forall c :: c in lc ==> c < |o|
    requires forall c: CityId, a: AlienId :: c < |o| ==> (Occupies(o, c, a) <==> a < |starts| && starts[a] == c)
    ensures forall i :: 0 <= i < |starts| ==> o[starts[i]] == {i}
    ensures OccupancyOk(occ, lc, o)
    ensures AliensOk(alive, la, {}, starts, o, lc)
  {
    forall j | 0 <= j < |starts| ensures o[starts[j]] == {j} {
      forall b: AlienId | b in o[starts[j]] ensures b == j {
        assert Occupies(o, starts[j], b);
      }
      assert Occupies(o, starts[j], j);
    }
    forall c | c in lc ensures c in occ <==> o[c] != {} {
      if c in occ {
        var j :| 0 <= j < |starts| && starts[j] == c;
        assert Occupies(o, c, j);
      } else if o[c] != {} {
        var b: AlienId :| b in o[c];
        assert Occupies(o, c, b);
      }
    }
    forall a | a in la ensures a < |starts| && starts[a] in lc && starts[a] < |o| && a in o[starts[a]] {
      assert Occupies(o, starts[a], a);
    }
  }

  /** The ids below `n` are `n` ids. */
  lemma {:induction false} IdsSize(s: set<AlienId>, n: nat)
    requires forall a: nat :: a in s <==> a < n
    ensures |s| == n
  {
    if n > 0 {
      IdsSize(s - {n - 1}, n - 1);
    } else {
      assert s == {};
    }
  }

  /** No living city links to a destroyed one. */
  lemma LivingLinksLiving(b: Board)
    requires b.Valid()
    ensures forall c, d :: c in b.livingCities && b.links[c].Get(d).Some? ==> b.links[c].Get(d).value in b.livingCities
  {
    forall c, d | c in b.livingCities && b.links[c].Get(d).Some?
      ensures b.links[c].Get(d).value in b.livingCities
    {
      var t := b.links[c].Get(d).value;
      assert b.links[t].Get(Opposite(d)) == Some(c);
    }
  }

  /** A living alien is in the occupant set of its own city only. */
  lemma OnlyOneCity(alive: seq<bool>, la: set<AlienId>, da: set<AlienId>, location: seq<CityId>,
                    occupants: seq<set<AlienId>>, lc: set<CityId>, a: AlienId)
    requires AliensOk(alive, la, da, location, occupants, lc) && a in la
    ensures a < |location| && location[a] < |occupants|
    ensures forall c :: 0 <= c < |occupants| ==> (a in occupants[c] <==> c == location[a])
  {
    forall c | 0 <= c < |occupants| && a in occupants[c] ensures c == location[a] {
      assert Occupies(occupants, c, a);
    }
  }

  /** After relocating living alien `a` to `to`, `a` occupies `to` and
      no other city; every other alien's occupancy is unchanged. */
  lemma RelocatedAt(alive: seq<bool>, la: set<AlienId>, da: set<AlienId>, location: seq<CityId>,
                    o: seq<set<AlienId>>, lc: set<CityId>, a: AlienId, to: CityId)
    requires AliensOk(alive, la, da, location, o, lc) && a in la && to < |o|
    ensures location[a] < |o|
    ensures forall c :: 0 <= c < |o| ==>
      Relocated(o, a, location[a], to)[c] == (o[c] - {a}) + (if c == to then {a} else {})
  {
    OnlyOneCity(alive, la, da, location, o, lc, a);
  }

  /** `City.add_alien` in a living city keeps the occupancy invariant:
      the city gains an occupant and is occupied. */
  lemma AddKeepsOccupancy(occ: set<CityId>, living: set<CityId>, o: seq<set<AlienId>>, c: CityId, a: AlienId)
    requires OccupancyOk(occ, living, o) && c in living
    ensures OccupancyOk(occ + {c}, living, o[c := o[c] + {a}])
  {
  }

  /** `City.remove_alien` keeps the occupancy invariant: the city stops
      being occupied exactly when its last occupant leaves. */
  lemma RemoveKeepsOccupancy(occ: set<CityId>, living: set<CityId>, o: seq<set<AlienId>>, c: CityId, a: AlienId)
    requires OccupancyOk(occ, living, o) && c < |o| && a in o[c]
    ensures OccupancyOk(if o[c] == {a} then occ - {c} else occ, living, o[c := o[c] - {a}])
  {
  }

  /** `Alien.move` keeps the occupancy and alien invariants: the alien
      leaves its city and enters a living one. */
  lemma MoveKeeps(alive: seq<bool>, la: set<AlienId>, da: set<AlienId>, loc: seq<CityId>,
                  o0: seq<set<AlienId>>, occ0: set<CityId>, lc: set<CityId>, a: AlienId, to: CityId,
                  loc1: seq<CityId>, o1: seq<set<AlienId>>, occ1: set<CityId>)
    requires AliensOk(alive, la, da, loc, o0, lc) && OccupancyOk(occ0, lc, o0)
    requires a in la && to in lc && to < |o0|
    requires a < |loc| && loc1 == loc[a := to]
    requires loc[a] < |o0| && o1 == Relocated(o0, a, loc[a], to)
    requires occ1 == (occ0 - (if o0[loc[a]] == {a} then {loc[a]} else {})) + {to}
    ensures AliensOk(alive, la, da, loc1, o1, lc)
    ensures OccupancyOk(occ1, lc, o1)
  {
    var from := loc[a];
    RelocatedAt(alive, la, da, loc, o0, lc, a, to);
    forall c | c in lc ensures c < |o1| && (c in occ1 <==> o1[c] != {}) {
      if c != from {
        assert !Occupies(o0, c, a);
      }
      if c == from && c != to {
        assert a in o0[c];
        assert o1[c] == o0[c] - {a};
        if o0[c] != {a} {
          var b :| b in o0[c] && b != a;
          assert b in o1[c];
        }
      }
    }
    forall c: CityId, b: AlienId | c in lc && Occupies(o1, c, b) ensures b in la {
      if b != a {
        assert Occupies(o0, c, b);
      }
    }
    forall b | b in la ensures b < |loc1| && loc1[b] in lc && loc1[b] < |o1| && b in o1[loc1[b]] {
      if b != a {
        assert b in o0[loc[b]];
      }
    }
    forall c: CityId, b: AlienId | Occupies(o1, c, b) && b in la && b < |loc1| ensures c == loc1[b] {
      if b != a {
        assert Occupies(o0, c, b);
      }
    }
  }

  /** Deleting living city `c` from the graph moves it to the destroyed
      cities and keeps the graph invariant. */
  lemma PruneGraphOk(links: seq<Links<CityId>>, lc: set<CityId>, dc: set<CityId>, c: CityId)
    requires GraphOk(links, lc, dc) && c in lc && c < |links|
    ensures GraphOk(Prune(links, {c}), lc - {c}, dc + {c})
  {
    PruneReciprocal(links, {c});
    PruneAt(links, {c});
    forall c' | c' in dc ensures Cut(links[c'], {c}) == NoLinks() {
      SameFields(Cut(links[c'], {c}), NoLinks());
    }
  }

  /** A fight in living city `c` keeps the board invariant: `c` is
      deleted from the graph, its occupants die and nothing else changes. */
  lemma FightKeeps(links: seq<Links<CityId>>, lc: set<CityId>, dc: set<CityId>, occ: set<CityId>,
                   alive: seq<bool>, la: set<AlienId>, da: set<AlienId>, loc: seq<CityId>,
                   o: seq<set<AlienId>>, c: CityId, alive1: seq<bool>)
    requires GraphOk(links, lc, dc) && OccupancyOk(occ, lc, o) && AliensOk(alive, la, da, loc, o, lc)
    requires c in lc && c < |links|
    requires |alive1| == |alive| && forall a :: 0 <= a < |alive| ==> alive1[a] == (alive[a] && a !in o[c])
    ensures GraphOk(Prune(links, {c}), lc - {c}, dc + {c})
    ensures OccupancyOk(occ - {c}, lc - {c}, o)
    ensures AliensOk(alive1, la - o[c], da + o[c], loc, o, lc - {c})
  {
    PruneGraphOk(links, lc, dc, c);
    forall a | a in la - o[c] ensures loc[a] != c {
      assert a in o[loc[a]];
    }
    forall c': CityId, a: AlienId | c' in lc - {c} && Occupies(o, c', a) ensures a in la - o[c] {
      assert !Occupies(o, c, a);
    }
  }

  /** Before fighting in city `c`, the living aliens are those not yet
      killed; killing `c`'s occupants kills exactly the aliens standing in
      `c` as well. */
  lemma VictimsStep(la0: set<AlienId>, la: set<AlienId>, da: set<AlienId>, da0: set<AlienId>,
                    loc: seq<CityId>, o: seq<set<AlienId>>, fought: set<CityId>, c: CityId,
                    alive: seq<bool>, lc: set<CityId>)
    requires la == la0 - Victims(la0, loc, fought) && da == da0 + Victims(la0, loc, fought)
    requires AliensOk(alive, la, da, loc, o, lc) && c in lc && c < |o| && c !in fought
    ensures la - o[c] == la0 - Victims(la0, loc, fought + {c})
    ensures da + o[c] == da0 + Victims(la0, loc, fought + {c})
  {
    forall a | a in o[c] ensures a in la && a in Victims(la0, loc, fought + {c}) {
      assert Occupies(o, c, a);
    }
    forall a | a in Victims(la0, loc, fought + {c}) && a !in Victims(la0, loc, fought) ensures a in o[c] {
      assert a in la && loc[a] == c;
    }
  }

  /** Every occupant of a city that `check_occupancy` fights in was a
      living alien standing there, so it is dead afterwards. */
  lemma OccupantsDie(alive: seq<bool>, la0: set<AlienId>, da: set<AlienId>, loc: seq<CityId>,
                     o: seq<set<AlienId>>, lc: set<CityId>, occ: set<CityId>, fought: set<CityId>, la: set<AlienId>)
    requires AliensOk(alive, la0, da, loc, o, lc) && OccupancyOk(occ, lc, o) && fought <= occ
    requires la == la0 - Victims(la0, loc, fought)
    ensures forall c, a :: c in fought && a in o[c] ==> a !in la
  {
    forall c, a | c in fought && a in o[c] ensures a in Victims(la0, loc, fought) {
      assert Occupies(o, c, a);
    }
  }

  /** Exporting the board's living cities and resolving the exported
      records again gives back its living cities with the same links,
      provided the living cities have distinct names. */
  lemma SaveReload(b: Board, order: seq<CityId>, rnames: seq<string>, rlinks: seq<Links<CityId>>)
    requires b.Valid() && Enumerates(order, b.livingCities)
    requires forall c, c' :: c in b.livingCities && c' in b.livingCities && b.name[c] == b.name[c'] ==> c == c'
    requires Resolved(Export(b.name, b.links, order), rnames, rlinks)
    ensures |rlinks| == |b.livingCities|
    ensures forall i, d :: 0 <= i < |order| ==> (rlinks[i].Get(d).Some? <==> b.links[order[i]].Get(d).Some?)
    ensures forall i, d :: 0 <= i < |order| && rlinks[i].Get(d).Some? ==>
      rlinks[i].Get(d).value < |order| && order[rlinks[i].Get(d).value] == b.links[order[i]].Get(d).value
  {
    LivingLinksLiving(b);
    ExportRoundTrip(b.name, b.links, b.livingCities, order, rnames, rlinks);
  }

  /** With no living city left no alien is living either, so the never-true
      `len(board.living_cities) < 0` test of `run_game` loses nothing. */
  lemma NoCitiesNoAliens(b: Board)
    requires b.Valid()
    ensures b.livingCities == {} ==> b.livingAliens == {}
  {
  }
}
