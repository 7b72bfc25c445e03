/** The sea-cucumber map as the program keeps it: a two-dimensional array
    of cells and the two herds' cell sets, updated in place move by move.
    Every method is proved to compute the value functions of module Day25. */
module Day25Map {
  import opened Common
  import opened Day25

  /** Map: Spots[x, y] and the herds' cells, kept in step with each other. */
  class Map {
    const spots: array2<char>
    var easties: set<Point>
    var southies: set<Point>

    ghost function Value(): (g: Grid)
      reads spots
      ensures Shaped(g) && g.width == spots.Length0 && g.height == spots.Length1
      ensures forall p :: InGrid(spots.Length0, spots.Length1, p) ==> At(g, p) == spots[p.0, p.1]
    {
      Grid(spots.Length0, spots.Length1,
        seq(spots.Length0, x requires 0 <= x < spots.Length0 reads spots =>
          seq(spots.Length1, y requires 0 <= y < spots.Length1 reads spots => spots[x, y])))
    }

    /** The herd's cells. */
    function Herd(d: Herd): set<Point>
      reads this
    {
      if d == East then easties else southies
    }

    /** Easties and Southies hold exactly the cells holding '>' and 'v'. */
    ghost predicate Valid()
      reads this, spots
    {
      Tracks(Value(), easties, southies)
    }

    /** An empty map of the given size: every cell holds the default char. */
    constructor (width: nat, height: nat)
      ensures Valid() && fresh(spots)
      ensures spots.Length0 == width && spots.Length1 == height
      ensures forall x, y :: 0 <= x < width && 0 <= y < height ==> spots[x, y] == '\0'
      ensures easties == {} && southies == {}
    {
      spots := new char[width, height]((x, y) => '\0');
      easties, southies := {}, {};
    }

    function GetValue(p: Point): char
      requires InGrid(spots.Length0, spots.Length1, p)
      reads spots
    {
      spots[p.0, p.1]
    }

    method SetValue(p: Point, value: char)
      requires InGrid(spots.Length0, spots.Length1, p)
      modifies spots
      ensures spots[p.0, p.1] == value
      ensures forall x, y :: 0 <= x < spots.Length0 && 0 <= y < spots.Length1 && (x, y) != p ==>
        spots[x, y] == old(spots[x, y])
    {
      spots[p.0, p.1] := value;
    }

    /** Move: the cucumber at from moves to to. The move fails, changing
        nothing, when from is empty or to is not. */
    method Move(from: Point, to: Point) returns (r: Result<()>)
      requires Valid() && InGrid(spots.Length0, spots.Length1, from) && InGrid(spots.Length0, spots.Length1, to)
      modifies this, spots
      ensures Valid()
      ensures r.Err? <==> old(spots[from.0, from.1]) == '.' || old(spots[to.0, to.1]) != '.'
      ensures r.Err? ==> unchanged(this, spots)
      ensures r.Ok? ==> MovedCell(old(Value()), Value(), from, to)
      ensures r.Ok? ==> easties == (if old(spots[from.0, from.1]) == '>' then old(easties) - {from} + {to} else old(easties))
      ensures r.Ok? ==> southies == (if old(spots[from.0, from.1]) == 'v' then old(southies) - {from} + {to} else old(southies))
      ensures |easties| == old(|easties|) && |southies| == old(|southies|)
    {
      var fromValue := GetValue(from);
      var toValue := GetValue(to);
      if fromValue == '.' {
        return Err("ArgumentException: Moving empty space!");
      }
      if toValue != '.' {
        return Err("ArgumentException: Attempted move to filled space.");
      }
      Relocate(from, to, fromValue);
      r := Ok(());
    }

    /** The rest of a Move that does not fail: the herd sets and the two
        cells are updated. */
    method Relocate(from: Point, to: Point, fromValue: char)
      requires Valid() && InGrid(spots.Length0, spots.Length1, from) && InGrid(spots.Length0, spots.Length1, to)
      requires fromValue == spots[from.0, from.1] && fromValue != '.' && spots[to.0, to.1] == '.'
      modifies this, spots
      ensures Valid() && MovedCell(old(Value()), Value(), from, to)
      ensures easties == (if fromValue == '>' then old(easties) - {from} + {to} else old(easties))
      ensures southies == (if fromValue == 'v' then old(southies) - {from} + {to} else old(southies))
      ensures |easties| == old(|easties|) && |southies| == old(|southies|)
    {
      ghost var a, e, s := Value(), easties, southies;
      assert At(a, from) == fromValue && At(a, to) == '.';
      easties := if fromValue == '>' then easties - {from} + {to} else easties;
      southies := if fromValue == 'v' then southies - {from} + {to} else southies;
      SetValue(to, fromValue);
      SetValue(from, '.');
      assert MovedCell(a, Value(), from, to);
      MoveTracks(a, Value(), e, s, from, to);
    }

    /** NextEast (d = East) and NextSouth (d = South): the herd's movers are
        picked from the grid before any of them moves, then each is moved;
        none of the moves fails, and the result is the number moved. */
    method Advance(d: Herd) returns (moved: nat)
      requires Valid()
      modifies this, spots
      ensures Valid()
      ensures Value() == Shift(old(Value()), d)
      ensures moved == |Movers(old(Value()), d)|
      ensures |easties| == old(|easties|) && |southies| == old(|southies|)
    {
      ghost var g := Value();
      var shouldMove := PickMovers(d);
      MoveEach(d, shouldMove, g);
      moved := |shouldMove|;
    }

    /** The first loop of NextEast / NextSouth: the herd's cells whose
        target is empty, each once. */
    method PickMovers(d: Herd) returns (shouldMove: seq<Point>)
      requires Valid()
      ensures forall p :: p in shouldMove <==> p in Movers(Value(), d)
      ensures Distinct(shouldMove)
      ensures |shouldMove| == |Movers(Value(), d)|
    {
      ghost var g := Value();
      var w, h := spots.Length0, spots.Length1;
      shouldMove := [];
      var herd := Herd(d);
      var rest := herd;
      while rest != {}
        invariant rest <= herd
        invariant forall p :: p in shouldMove <==> p in herd && p !in rest && Mover(g, d, p)
        invariant Distinct(shouldMove)
        decreases |rest|
      {
        var p :| p in rest;
        HerdMover(g, easties, southies, d, p);
        rest := rest - {p};
        var q := Adjacent(w, h, d, p);
        if GetValue(q) == '.' {
          DistinctAppend(shouldMove, p);
          shouldMove := shouldMove + [p];
        }
      }
      MoversInHerd(g, easties, southies, d);
      PrefixAll(shouldMove);
      PrefixCount(shouldMove, |shouldMove|);
      assert Prefix(shouldMove, |shouldMove|) == Movers(g, d);
    }

    /** The second loop of NextEast / NextSouth: each picked mover moves,
        and none of the moves fails. */
    method MoveEach(d: Herd, shouldMove: seq<Point>, ghost g: Grid)
      requires Valid() && g == Value()
      requires forall p :: p in shouldMove <==> p in Movers(g, d)
      requires Distinct(shouldMove)
      modifies this, spots
      ensures Valid()
      ensures Value() == Shift(g, d)
      ensures |easties| == old(|easties|) && |southies| == old(|southies|)
    {
      var w, h := spots.Length0, spots.Length1;
      PartShiftStart(g, d);
      for i := 0 to |shouldMove|
        invariant Valid() && PartShift(Value(), g, d, Prefix(shouldMove, i))
        invariant |easties| == old(|easties|) && |southies| == old(|southies|)
      {
        PrefixFresh(shouldMove, i);
        MoveOne(d, shouldMove[i], g, Prefix(shouldMove, i));
      }
      PrefixAll(shouldMove);
      assert Prefix(shouldMove, |shouldMove|) == Movers(g, d);
      PartShiftDone(Value(), g, d);
    }

    /** One turn of MoveEach's loop: the mover p moves to its target. */
    method MoveOne(d: Herd, p: Point, ghost g: Grid, ghost done: set<Point>)
      requires Valid() && PartShift(Value(), g, d, done) && p in Movers(g, d) && p !in done
      modifies this, spots
      ensures Valid() && PartShift(Value(), g, d, done + {p})
      ensures |easties| == old(|easties|) && |southies| == old(|southies|)
    {
      ghost var cur := Value();
      PartShiftReady(cur, g, d, done, p);
      var r := Move(p, Adjacent(spots.Length0, spots.Length1, d, p));
      assert r.Ok?;
      PartShiftStep(cur, Value(), g, d, done, p);
    }

    /** NextStep: the east herd moves, then the south herd; the result is
        the number of cucumbers moved. */
    method NextStep() returns (moved: nat)
      requires Valid()
      modifies this, spots
      ensures Valid()
      ensures Value() == Step(old(Value()))
      ensures moved == StepMoves(old(Value()))
      ensures |easties| == old(|easties|) && |southies| == old(|southies|)
    {
      var east := Advance(East);
      var south := Advance(South);
      moved := east + south;
    }

    /** StepsToEquilibirum, which loops until a step moves nothing, cut off
        after fuel steps (None). */
    method StepsToEquilibrium(fuel: nat) returns (r: Option<nat>)
      requires Valid()
      modifies this, spots
      ensures Valid()
      ensures r == FirstStill(MovesFrom(old(Value())), fuel)
      ensures r.Some? ==> Value() == Steps(old(Value()), r.value)
    {
      ghost var g := Value();
      var steps: nat := 0;
      while true
        invariant Valid() && steps <= fuel
        invariant Value() == Steps(g, steps)
        invariant FirstStill(MovesFrom(g), steps) == None
        decreases fuel - steps
      {
        if steps == fuel {
          return None;
        }
        StillStep(g, steps, fuel, Value());
        var moveCount := NextStep();
        if moveCount == 0 {
          break;
        }
        steps := steps + 1;
      }
      return Some(steps + 1);
    }
  }
}
