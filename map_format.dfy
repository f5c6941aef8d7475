/**
  The map text format seen from the graph: the records a map file is
  split into, the resolution of link names to cities
  (alien_invasion.py:183-187) and the one-line-per-city export
  (alien_invasion.py:269-280).

  Splitting the file text into records is done by a regular expression in
  the source; here a map is already a sequence of `RawCity` records.
*/
module MapFormat {
  import opened Geography

  /** One matched map line: the city name and the raw names after
      `north=`, `south=`, `east=`, `west=` (None for a group that did not
      match). */
  datatype RawCity = RawCity(name: string, links: Links<string>)

  /** `city_name_mapping.get(raw, None)`: an absent raw name is never a key. */
  function Lookup(index: map<string, CityId>, raw: Option<string>): Option<CityId> {
    if raw.Some? && raw.value in index then Some(index[raw.value]) else None
  }

  /** `index` maps the name of some city to that city, for every city
      name (`{c.name: c for c in board.living_cities}`; with two cities of
      one name, the one visited last wins). */
  ghost predicate IndexOf(index: map<string, CityId>, names: seq<string>) {
    && (forall s :: s in index ==> index[s] < |names| && names[index[s]] == s)
    && (forall i :: 0 <= i < |names| ==> names[i] in index)
  }

  /** A resolved link holds a city whose name is the raw name, and is None
      exactly when there was no raw name or no city has that name. */
  ghost predicate ResolvedLink(names: seq<string>, raw: Option<string>, r: Option<CityId>) {
    && (r.Some? ==> raw.Some? && r.value < |names| && names[r.value] == raw.value)
    && (r.None? ==> raw.None? || raw.value !in names)
  }

  /** The board built from `records`: city `i` is record `i`, and each of
      its four links is resolved against the names of all cities. */
  ghost predicate Resolved(records: seq<RawCity>, names: seq<string>, links: seq<Links<CityId>>) {
    && |names| == |records| && |links| == |records|
    && (forall i :: 0 <= i < |records| ==> names[i] == records[i].name)
    && (forall i, d :: 0 <= i < |records| ==> ResolvedLink(names, records[i].links.Get(d), links[i].Get(d)))
  }

  /** Looking a raw name up in a name index resolves it. */
  lemma LookupResolves(index: map<string, CityId>, names: seq<string>, raw: Option<string>)
    requires IndexOf(index, names)
    ensures ResolvedLink(names, raw, Lookup(index, raw))
  {
    if raw.Some? && raw.value !in index {
      forall i | 0 <= i < |names| ensures names[i] != raw.value {
        assert names[i] in index;
      }
    }
  }

  function DirectionName(d: Direction): string {
    match d
    case North => "north"
    case South => "south"
    case East => "east"
    case West => "west"
  }

  /** `" {}={}".format(direction, linked_city.name)`, or nothing when the
      link is None. */
  function Token(d: Direction, o: Option<string>): string {
    match o
    case None => ""
    case Some(n) => " " + DirectionName(d) + "=" + n
  }

  /** The tokens of the first `k` directions of north, south, east,
      west, in that order. */
  function Tokens(k: nat, l: Links<string>): string
    requires k <= |Directions|
  {
    if k == 0 then "" else Tokens(k - 1, l) + Token(Directions[k - 1], l.Get(Directions[k - 1]))
  }

  /** The line `write_cities` writes for a city: its name, a token per
      present link in north, south, east, west order, and a newline. */
  function Line(r: RawCity): string {
    r.name + Tokens(|Directions|, r.links) + "\n"
  }

  /** A city's links with each target replaced by its name. */
  function Named(l: Links<CityId>, names: seq<string>): Links<string>
    requires forall d :: l.Get(d).Some? ==> l.Get(d).value < |names|
  {
    Links(NameOf(l.Get(North), names), NameOf(l.Get(South), names), NameOf(l.Get(East), names), NameOf(l.Get(West), names))
  }

  function NameOf(o: Option<CityId>, names: seq<string>): Option<string>
    requires o.Some? ==> o.value < |names|
  {
    if o.Some? then Some(names[o.value]) else None
  }

  /** The inner loop of `write_cities`: builds the line of a city whose
      name is `name` and whose links are `l`, looking the neighbours'
      names up in `names`. */
  method FormatLine(name: string, l: Links<CityId>, names: seq<string>) returns (line: string)
    requires forall d :: l.Get(d).Some? ==> l.Get(d).value < |names|
    ensures line == Line(RawCity(name, Named(l, names)))
  {
    ghost var named := Named(l, names);
    line := name;
    var i := 0;
    while i < |Directions|
      invariant 0 <= i <= |Directions|
      invariant line == name + Tokens(i, named)
    {
      var d := Directions[i];
      var linked := l.Get(d);
      assert named.Get(d) == NameOf(linked, names);
      if linked.Some? {
        Concat(name, Tokens(i, named), " " + DirectionName(d) + "=" + names[linked.value]);
        line := line + (" " + DirectionName(d) + "=" + names[linked.value]);
      }
      i := i + 1;
    }
    Concat(name, Tokens(|Directions|, named), "\n");
    line := line + "\n";
  }

  /** Concatenation is associative; stated once so that the loop of
      `FormatLine` appends to the line without re-deriving it. */
  lemma Concat(a: string, b: string, c: string)
    ensures (a + b) + c == a + (b + c)
  {
  }

  predicate NoNewline(s: string) {
    forall i :: 0 <= i < |s| ==> s[i] != '\n'
  }

  lemma DirectionNameNoNewline(d: Direction)
    ensures NoNewline(DirectionName(d))
  {
    var dn := DirectionName(d);
    match d
    case North => assert dn == ['n', 'o', 'r', 't', 'h'];
    case South => assert dn == ['s', 'o', 'u', 't', 'h'];
    case East => assert dn == ['e', 'a', 's', 't'];
    case West => assert dn == ['w', 'e', 's', 't'];
  }

  /** Tokens of newline-free names hold no newline. */
  lemma {:induction false} TokensNoNewline(k: nat, l: Links<string>)
    requires k <= |Directions|
    requires forall d :: l.Get(d).Some? ==> NoNewline(l.Get(d).value)
    ensures NoNewline(Tokens(k, l))
  {
    if k > 0 {
      TokensNoNewline(k - 1, l);
      var d := Directions[k - 1];
      DirectionNameNoNewline(d);
      var t := Token(d, l.Get(d));
      assert NoNewline(t);
      assert Tokens(k, l) == Tokens(k - 1, l) + t;
    }
  }

  /** Each exported city is exactly one line: the only newline is the last
      character, provided no city name contains a newline (names read by
      the map pattern never do). */
  lemma LineIsOneLine(r: RawCity)
    requires NoNewline(r.name)
    requires forall d :: r.links.Get(d).Some? ==> NoNewline(r.links.Get(d).value)
    ensures |Line(r)| > 0 && Line(r)[|Line(r)| - 1] == '\n'
    ensures NoNewline(Line(r)[..|Line(r)| - 1])
  {
    TokensNoNewline(|Directions|, r.links);
    var body := r.name + Tokens(|Directions|, r.links);
    assert Line(r) == body + "\n";
    assert Line(r)[..|Line(r)| - 1] == body;
  }

  /** `order` lists the cities of `cs`, each once. */
  ghost predicate Enumerates(order: seq<CityId>, cs: set<CityId>) {
    && (forall i, j :: 0 <= i < j < |order| ==> order[i] != order[j])
    && (forall i :: 0 <= i < |order| ==> order[i] in cs)
    && (forall c :: c in cs ==> c in order)
  }

  /** An enumeration has one entry per element. */
  lemma {:induction false} EnumerationSize(order: seq<CityId>, cs: set<CityId>)
    requires Enumerates(order, cs)
    ensures |order| == |cs|
  {
    if |order| > 0 {
      var last := order[|order| - 1];
      var rest := order[..|order| - 1];
      forall c | c in cs - {last} ensures c in rest {
        var i :| 0 <= i < |order| && order[i] == c;
        assert i < |order| - 1;
        assert rest[i] == c;
      }
      EnumerationSize(rest, cs - {last});
    } else {
      assert cs == {};
    }
  }

  /** The records of the exported cities, in export order. */
  function Export(names: seq<string>, links: seq<Links<CityId>>, order: seq<CityId>): (r: seq<RawCity>)
    requires |names| == |links| && InRange(links)
    requires forall i :: 0 <= i < |order| ==> order[i] < |links|
    ensures |r| == |order|
  {
    seq(|order|, i requires 0 <= i < |order| => RawCity(names[order[i]], Named(links[order[i]], names)))
  }

  /** Exporting the living cities and resolving the exported records again
      gives one city per living city with the same link structure: record
      `i` is living city `order[i]`, and each of its links leads to the
      record of the same neighbour. Needs distinct names among the
      living cities and no living link into a destroyed city. */
  lemma ExportRoundTrip(names: seq<string>, links: seq<Links<CityId>>, living: set<CityId>,
                        order: seq<CityId>, rnames: seq<string>, rlinks: seq<Links<CityId>>)
    requires |names| == |links| && InRange(links)
    requires Enumerates(order, living)
    requires forall c :: c in living ==> c < |links|
    requires forall c, d :: c in living && links[c].Get(d).Some? ==> links[c].Get(d).value in living
    requires forall c, c' :: c in living && c' in living && names[c] == names[c'] ==> c == c'
    requires Resolved(Export(names, links, order), rnames, rlinks)
    ensures |rlinks| == |living|
    ensures forall i, d :: 0 <= i < |order| ==>
      (rlinks[i].Get(d).Some? <==> links[order[i]].Get(d).Some?)
    ensures forall i, d :: 0 <= i < |order| && rlinks[i].Get(d).Some? ==>
      rlinks[i].Get(d).value < |order| && order[rlinks[i].Get(d).value] == links[order[i]].Get(d).value
  {
    EnumerationSize(order, living);
    var records := Export(names, links, order);
    forall i, d | 0 <= i < |order|
      ensures rlinks[i].Get(d).Some? <==> links[order[i]].Get(d).Some?
      ensures rlinks[i].Get(d).Some? ==>
        rlinks[i].Get(d).value < |order| && order[rlinks[i].Get(d).value] == links[order[i]].Get(d).value
    {
      var raw := records[i].links.Get(d);
      assert ResolvedLink(rnames, raw, rlinks[i].Get(d));
      var o := links[order[i]].Get(d);
      if o.Some? {
        var t := o.value;
        assert t in living;
        var j :| 0 <= j < |order| && order[j] == t;
        assert raw == Some(names[t]);
        assert rnames[j] == names[t];
        assert raw.value in rnames;
        var k := rlinks[i].Get(d).value;
        assert rnames[k] == names[t];
        assert names[order[k]] == names[t];
      } else {
        assert raw.None?;
      }
    }
  }
}
