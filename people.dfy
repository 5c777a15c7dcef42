// The people map of the Java tracker, as the `/pf/*` message handlers
// change it (`pfupdate`, `pfbody`, `pfleg`, `pfexit`, `pfentry`).
//
// The `People` and `Person` classes are not part of this model; a person is
// the record of what the messages last said about it, keyed by its id.

module People {
  import opened Common

  /** One leg of a person: where it is and how fast it moves. */
  datatype LegTrack = LegTrack(origin: Point, velocity: Point)

  /** What the tracker keeps about one person. */
  datatype Person = Person(
    id: int, channel: int,
    origin: Point, velocity: Point,
    groupid: int, groupsize: int, elapsed: real,
    legSeparation: real, legDiameter: real,
    legs: seq<LegTrack>)

  type PeopleMap = map<int, Person>

  /** A person that has just appeared: at rest at the origin, with two legs
      (the front end always reports two legs per person). */
  function Fresh(id: int, channel: int): (p: Person)
    ensures p.id == id && p.channel == channel && |p.legs| == 2
  {
    Person(id, channel, Origin, Origin, 0, 0, 0.0, 0.0, 0.0,
           [LegTrack(Origin, Origin), LegTrack(Origin, Origin)])
  }

  /** Every person is filed under its own id and has two legs. */
  ghost predicate WellFormed(ps: PeopleMap)
  {
    forall id :: id in ps ==> ps[id].id == id && |ps[id].legs| == 2
  }

  /** `pfupdate`: get-or-create the person `id`, then move it. */
  function Update(ps: PeopleMap, id: int, channel: int, pos: Point, vel: Point,
                  groupid: int, groupsize: int, elapsed: real): (r: PeopleMap)
    ensures r.Keys == ps.Keys + {id}
    ensures r[id].origin == pos && r[id].velocity == vel
    ensures r[id].groupid == groupid && r[id].groupsize == groupsize && r[id].elapsed == elapsed
    ensures id in ps ==> r[id].channel == ps[id].channel && r[id].legs == ps[id].legs
    ensures id !in ps ==> r[id].channel == channel && |r[id].legs| == 2
    ensures forall k :: k in ps && k != id ==> r[k] == ps[k]
  {
    var p := if id in ps then ps[id] else Fresh(id, channel);
    ps[id := p.(origin := pos, velocity := vel, groupid := groupid,
                groupsize := groupsize, elapsed := elapsed)]
  }

  /** `pfbody`: leg separation and diameter of a known person; an unknown id
      changes nothing. */
  function Body(ps: PeopleMap, id: int, sep: real, diam: real): (r: PeopleMap)
    ensures r.Keys == ps.Keys
    ensures id !in ps ==> r == ps
    ensures id in ps ==> r[id] == ps[id].(legSeparation := sep, legDiameter := diam)
    ensures forall k :: k in ps && k != id ==> r[k] == ps[k]
  {
    if id in ps then ps[id := ps[id].(legSeparation := sep, legDiameter := diam)] else ps
  }

  /** The velocity `pfleg` rebuilds from a speed and a heading:
      (-spd sin h, spd cos h), with sin h and cos h given. */
  function LegVelocity(spd: real, sinH: real, cosH: real): (v: Point)
    ensures v.Dot(Point(cosH, sinH)) == 0.0
    ensures sinH * sinH + cosH * cosH == 1.0 ==> v.NormSq() == spd * spd
  {
    Point(-spd * sinH, spd * cosH)
  }

  /** `pfleg`: move one leg of a known person. An unknown id changes nothing;
      a leg index outside the person's legs throws, reported as `None`. */
  function Leg(ps: PeopleMap, id: int, leg: int, pos: Point, spd: real, sinH: real, cosH: real)
    : (r: Option<PeopleMap>)
    ensures id !in ps ==> r == Some(ps)
    ensures id in ps ==> (r.None? <==> !(0 <= leg < |ps[id].legs|))
    ensures r.Some? ==> r.value.Keys == ps.Keys
    ensures r.Some? ==> forall k :: k in ps && k != id ==> r.value[k] == ps[k]
    ensures r.Some? && id in ps ==>
      |r.value[id].legs| == |ps[id].legs| &&
      r.value[id].legs[leg] == LegTrack(pos, LegVelocity(spd, sinH, cosH)) &&
      forall i :: 0 <= i < |ps[id].legs| && i != leg ==> r.value[id].legs[i] == ps[id].legs[i]
  {
    if id !in ps then Some(ps)
    else if 0 <= leg < |ps[id].legs| then
      var p := ps[id];
      Some(ps[id := p.(legs := p.legs[leg := LegTrack(pos, LegVelocity(spd, sinH, cosH))])])
    else None
  }

  /** `pfexit`: forget the person. */
  function Exit(ps: PeopleMap, id: int): (r: PeopleMap)
    ensures id !in r
    ensures r.Keys == ps.Keys - {id}
    ensures forall k :: k in r ==> r[k] == ps[k]
  {
    ps - {id}
  }

  /** `pfentry`: create the person if it is absent; an entry for a known
      person changes nothing. */
  function Entry(ps: PeopleMap, id: int, channel: int): (r: PeopleMap)
    ensures r.Keys == ps.Keys + {id}
    ensures id in ps ==> r == ps
    ensures id !in ps ==> r[id] == Fresh(id, channel)
    ensures forall k :: k in ps ==> r[k] == ps[k]
  {
    if id in ps then ps else ps[id := Fresh(id, channel)]
  }

  // ---------------------------------------------------------------------

  /** Every handler keeps the map well formed. */
  lemma HandlersPreserveWellFormed(ps: PeopleMap, id: int, channel: int, pos: Point, vel: Point,
                                   g: int, gs: int, el: real, leg: int, spd: real, s: real, c: real)
    requires WellFormed(ps)
    ensures WellFormed(Update(ps, id, channel, pos, vel, g, gs, el))
    ensures WellFormed(Body(ps, id, spd, el))
    ensures Leg(ps, id, leg, pos, spd, s, c).Some? ==> WellFormed(Leg(ps, id, leg, pos, spd, s, c).value)
    ensures WellFormed(Exit(ps, id))
    ensures WellFormed(Entry(ps, id, channel))
  {
  }

  /** On a well-formed map, the leg index of `pfleg` fails exactly outside 0..1. */
  lemma LegFailsOnlyOutsideTwoLegs(ps: PeopleMap, id: int, leg: int, pos: Point, spd: real, s: real, c: real)
    requires WellFormed(ps) && id in ps
    ensures Leg(ps, id, leg, pos, spd, s, c).None? <==> (leg < 0 || leg > 1)
  {
  }

  /** After `pfexit`, body and leg messages for the same id are no-ops, and a
      later entry creates a fresh person. */
  lemma {:induction false} ExitThenMessagesAreNoOps(ps: PeopleMap, id: int, channel: int, leg: int,
                                                   pos: Point, spd: real, s: real, c: real)
    ensures var e := Exit(ps, id);
      Body(e, id, spd, spd) == e &&
      Leg(e, id, leg, pos, spd, s, c) == Some(e) &&
      Entry(e, id, channel)[id] == Fresh(id, channel)
  {
    var e := Exit(ps, id);
    assert id !in e;
  }

  /** An entry followed by an exit of a new id restores the map. */
  lemma {:induction false} EntryExitRoundTrip(ps: PeopleMap, id: int, channel: int)
    requires id !in ps
    ensures Exit(Entry(ps, id, channel), id) == ps
  {
    var r := Exit(Entry(ps, id, channel), id);
    assert r.Keys == ps.Keys;
  }

  /** `pfupdate` is the permissive path: on a new id it creates the same
      person as an entry would, then moves it. */
  lemma UpdateIsEntryThenMove(ps: PeopleMap, id: int, channel: int, pos: Point, vel: Point,
                              g: int, gs: int, el: real)
    ensures Update(ps, id, channel, pos, vel, g, gs, el) == Update(Entry(ps, id, channel), id, channel, pos, vel, g, gs, el)
  {
  }

  /** Entry is idempotent. */
  lemma EntryIdempotent(ps: PeopleMap, id: int, channel: int, channel2: int)
    ensures Entry(Entry(ps, id, channel), id, channel2) == Entry(ps, id, channel)
  {
  }
}
