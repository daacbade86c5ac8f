/** Day 12: ship navigation. Part 1 moves the ship itself and turns its
    heading; part 2 moves a waypoint relative to the ship, rotates it about
    the ship and sails towards it. Both report the Manhattan distance from the
    start. Coordinates are `isize`, modelled as `int`. North is +y, east +x. */
module Day12 {
  import opened Text

  datatype Dir = North | East | South | West

  /** `Dir::to_angle`: clockwise degrees from east. */
  function ToAngle(d: Dir): (a: nat)
    ensures a < 360 && a % 90 == 0
  {
    match d
    case North => 270
    case East => 0
    case South => 90
    case West => 180
  }

  /** `Dir::from_angle`: reduces the angle modulo 360; the source reaches
      `unreachable!` unless the angle is a multiple of 90. */
  function FromAngle(angle: nat): Dir
    requires angle % 90 == 0
  {
    var a := angle % 360;
    if a == 270 then North else if a == 0 then East else if a == 90 then South else West
  }

  /** The two conversions are inverse, and whole turns are ignored. */
  lemma AngleRoundTrip(d: Dir, angle: nat)
    requires angle % 90 == 0
    ensures FromAngle(ToAngle(d)) == d
    ensures ToAngle(FromAngle(angle)) == angle % 360
    ensures (angle + 360) % 90 == 0 && FromAngle(angle + 360) == FromAngle(angle)
  {
    QuarterTurns(angle);
  }

  /** A multiple of 90 is 0, 90, 180 or 270 modulo 360. */
  lemma QuarterTurns(angle: nat)
    requires angle % 90 == 0
    ensures angle % 360 == 0 || angle % 360 == 90 || angle % 360 == 180 || angle % 360 == 270
    ensures (angle + 360) % 360 == angle % 360 && (angle + 360) % 90 == 0
  {
    var r := angle % 360;
    var q := angle / 360;
    assert angle == 360 * q + r;
    assert 360 * q == 90 * (4 * q);
    var k := angle / 90;
    assert angle == 90 * k;
    assert r == 90 * (k - 4 * q);
  }

  lemma ModSum(a: nat, b: nat)
    requires a % 90 == 0 && b % 90 == 0
    ensures (a + b) % 90 == 0
  {
    assert a == 90 * (a / 90) && b == 90 * (b / 90);
    assert a + b == 90 * (a / 90 + b / 90);
  }

  /** Adding a reduced angle is adding the angle, modulo 360. */
  lemma ModShift(x: nat, y: nat)
    ensures (y + x % 360) % 360 == (y + x) % 360
  {
    var q := x / 360;
    assert x == 360 * q + x % 360;
    assert y + x == 360 * q + (y + x % 360);
  }

  datatype Instr = Turn(degrees: nat) | Forward(distance: nat) | Move(dir: Dir, distance: nat)

  /** `Instr::parse`: a letter and a number. An empty line (`split_at`), a bad
      number, an unknown letter, or `L` of more than 360 (`usize`
      underflow) make the source panic, modelled as `None`. `L n` is the
      clockwise turn of `360 - n`. */
  function ParseInstr(line: string): (r: Option<Instr>)
    ensures |line| == 0 ==> r.None?
    ensures r.Some? ==> ParseNat(line[1..]).Some?
  {
    if |line| == 0 then None
    else
      match ParseNat(line[1..])
      case None => None
      case Some(n) => Letter(line[0], n)
  }

  /** The instruction a letter names, with its number. */
  function Letter(c: char, n: nat): Option<Instr>
  {
    if c == 'N' then Some(Move(North, n))
    else if c == 'E' then Some(Move(East, n))
    else if c == 'S' then Some(Move(South, n))
    else if c == 'W' then Some(Move(West, n))
    else if c == 'R' then Some(Turn(n))
    else if c == 'L' then (if n <= 360 then Some(Turn(360 - n)) else None)
    else if c == 'F' then Some(Forward(n))
    else None
  }

  /** A letter followed by a written number is read as that letter's instruction. */
  lemma ParseLetter(c: char, n: nat)
    ensures ParseInstr([c] + ShowNat(n)) == Letter(c, n)
  {
    ParseShowNat(n);
    var line := [c] + ShowNat(n);
    assert line[0] == c && line[1..] == ShowNat(n);
  }

  /** `R n` is the clockwise turn of n and `L n` that of 360 - n, while n is at most 360. */
  lemma ParseTurns(n: nat)
    ensures ParseInstr(['R'] + ShowNat(n)) == Some(Turn(n))
    ensures ParseInstr(['L'] + ShowNat(n)) == if n <= 360 then Some(Turn(360 - n)) else None
  {
    ParseLetter('R', n);
    ParseLetter('L', n);
  }

  /** `F n` sails forward and `N n` moves north by n. */
  lemma ParseMoves(n: nat)
    ensures ParseInstr(['F'] + ShowNat(n)) == Some(Forward(n))
    ensures ParseInstr(['N'] + ShowNat(n)) == Some(Move(North, n))
  {
    ParseLetter('F', n);
    ParseLetter('N', n);
  }

  /** `parse`: one instruction per line. */
  function Parse(lines: seq<string>): (r: Option<seq<Instr>>)
    ensures r.Some? <==> forall i :: 0 <= i < |lines| ==> ParseInstr(lines[i]).Some?
    ensures r.Some? ==> |r.value| == |lines| && forall i :: 0 <= i < |lines| ==> ParseInstr(lines[i]) == Some(r.value[i])
  {
    ParseEach(lines, ParseInstr)
  }

  /** The state of a `Position`. */
  datatype Pos = Pos(x: int, y: int, wx: int, wy: int, orientation: Dir)

  /** `Position::new`: at the origin, heading east, the waypoint 10 east and 1 north. */
  const Start := Pos(0, 0, 10, 1, East)

  /** `move_towards` on the state. */
  function Towards(p: Pos, d: Dir, n: nat): Pos
  {
    match d
    case North => p.(y := p.y + n)
    case East => p.(x := p.x + n)
    case South => p.(y := p.y - n)
    case West => p.(x := p.x - n)
  }

  /** The turns `step` accepts: `from_angle` needs a multiple of 90. */
  predicate ShipTurn(instr: Instr)
  {
    instr.Turn? ==> instr.degrees % 90 == 0
  }

  /** `step` on the state. */
  function Next(p: Pos, instr: Instr): Pos
    requires ShipTurn(instr)
  {
    match instr
    case Move(d, n) => Towards(p, d, n)
    case Forward(n) => Towards(p, p.orientation, n)
    case Turn(n) => p.(orientation := FromAngle(n + ToAngle(p.orientation)))
  }

  /** A move changes one coordinate of the ship by its distance, forward moves
      along the heading, a turn changes only the heading; the waypoint stays. */
  lemma NextEffects(p: Pos, instr: Instr)
    requires ShipTurn(instr)
    ensures var q := Next(p, instr);
      q.wx == p.wx && q.wy == p.wy
      && (instr.Turn? ==> q.x == p.x && q.y == p.y)
      && (!instr.Turn? ==> q.orientation == p.orientation)
      && (instr.Move? && (instr.dir == North || instr.dir == South) ==> q.x == p.x)
      && (instr.Move? && (instr.dir == East || instr.dir == West) ==> q.y == p.y)
      && (instr.Forward? ==> q == Next(p, Move(p.orientation, instr.distance)))
      && (!instr.Turn? ==> Abs(q.x - p.x) + Abs(q.y - p.y) == instr.distance)
  {
  }

  /** Two turns in a row are one turn by their sum. */
  lemma TurnsAdd(p: Pos, a: nat, b: nat)
    requires a % 90 == 0 && b % 90 == 0
    ensures (a + b) % 90 == 0 && Next(Next(p, Turn(a)), Turn(b)) == Next(p, Turn(a + b))
  {
    ModSum(a, b);
    var t := ToAngle(p.orientation);
    ModSum(a, t);
    ModSum(a + b, t);
    var d := FromAngle(a + t);
    AngleRoundTrip(d, a + t);
    assert ToAngle(d) == (a + t) % 360;
    ModSum(b, ToAngle(d));
    ModShift(a + t, b);
    assert (b + ToAngle(d)) % 360 == (a + b + t) % 360;
  }

  /** The rotations `step_waypoint` accepts: exactly 0, 90, 180 or 270. */
  predicate WaypointTurn(instr: Instr)
  {
    instr.Turn? ==> instr.degrees in {0, 90, 180, 270}
  }

  /** `step_waypoint` on the state. */
  function NextWaypoint(p: Pos, instr: Instr): Pos
    requires WaypointTurn(instr)
  {
    match instr
    case Move(d, n) =>
      (match d
       case North => p.(wy := p.wy + n)
       case East => p.(wx := p.wx + n)
       case South => p.(wy := p.wy - n)
       case West => p.(wx := p.wx - n))
    case Forward(n) => p.(x := p.x + n * p.wx, y := p.y + n * p.wy)
    case Turn(n) =>
      if n == 0 then p
      else if n == 90 then p.(wx := p.wy, wy := -p.wx)
      else if n == 180 then p.(wx := -p.wx, wy := -p.wy)
      else p.(wx := -p.wy, wy := p.wx)
  }

  function Abs(n: int): nat { if n < 0 then -n else n }

  /** A quarter turn maps (wx, wy) to (wy, -wx); a half turn is two quarter
      turns and a three-quarter turn three; four are the identity. A turn
      keeps the waypoint's Manhattan size and the ship where it is. */
  lemma Rotations(p: Pos)
    ensures var q := NextWaypoint(p, Turn(90)); q == p.(wx := p.wy, wy := -p.wx)
    ensures NextWaypoint(p, Turn(180)) == NextWaypoint(NextWaypoint(p, Turn(90)), Turn(90))
    ensures NextWaypoint(p, Turn(270)) == NextWaypoint(NextWaypoint(NextWaypoint(p, Turn(90)), Turn(90)), Turn(90))
    ensures NextWaypoint(NextWaypoint(NextWaypoint(NextWaypoint(p, Turn(90)), Turn(90)), Turn(90)), Turn(90)) == p
    ensures forall n :: n in {0, 90, 180, 270} ==>
      var q := NextWaypoint(p, Turn(n));
      Abs(q.wx) + Abs(q.wy) == Abs(p.wx) + Abs(p.wy) && q.x == p.x && q.y == p.y && q.orientation == p.orientation
  {
  }

  /** Sailing forward adds `n` times the waypoint to the ship and leaves the waypoint. */
  lemma ForwardWaypoint(p: Pos, n: nat)
    ensures var q := NextWaypoint(p, Forward(n));
      q.x == p.x + n * p.wx && q.y == p.y + n * p.wy && q.wx == p.wx && q.wy == p.wy
  {
  }

  /** The state after the instructions, each applied by `next`. */
  function SailShip(instrs: seq<Instr>): Pos
    requires forall i :: 0 <= i < |instrs| ==> ShipTurn(instrs[i])
  {
    if instrs == [] then Start else Next(SailShip(instrs[..|instrs| - 1]), instrs[|instrs| - 1])
  }

  function SailWaypoint(instrs: seq<Instr>): Pos
    requires forall i :: 0 <= i < |instrs| ==> WaypointTurn(instrs[i])
  {
    if instrs == [] then Start else NextWaypoint(SailWaypoint(instrs[..|instrs| - 1]), instrs[|instrs| - 1])
  }

  /** `Position::manhattan` */
  function Manhattan(p: Pos): nat
  {
    Abs(p.x) + Abs(p.y)
  }

  /** `Position`, with the fields the source updates in place. */
  class Position {
    var x: int
    var y: int
    var wx: int
    var wy: int
    var orientation: Dir

    function State(): Pos
      reads this
    {
      Pos(x, y, wx, wy, orientation)
    }

    /** `Position::new` */
    constructor ()
      ensures State() == Start
    {
      x, y, wx, wy, orientation := 0, 0, 10, 1, East;
    }

    /** `move_towards` */
    method MoveTowards(d: Dir, n: nat)
      modifies this
      ensures State() == Towards(old(State()), d, n)
    {
      match d
      case North => y := y + n;
      case East => x := x + n;
      case South => y := y - n;
      case West => x := x - n;
    }

    /** `step` */
    method Step(instr: Instr)
      requires ShipTurn(instr)
      modifies this
      ensures State() == Next(old(State()), instr)
    {
      match instr
      case Move(d, n) => MoveTowards(d, n);
      case Forward(n) =>
        var heading := orientation;
        MoveTowards(heading, n);
      case Turn(n) => orientation := FromAngle(n + ToAngle(orientation));
    }

    /** `move_waypoint` */
    method MoveWaypoint(d: Dir, n: nat)
      modifies this
      ensures State() == NextWaypoint(old(State()), Move(d, n))
    {
      match d
      case North => wy := wy + n;
      case East => wx := wx + n;
      case South => wy := wy - n;
      case West => wx := wx - n;
    }

    /** `step_waypoint` */
    method StepWaypoint(instr: Instr)
      requires WaypointTurn(instr)
      modifies this
      ensures State() == NextWaypoint(old(State()), instr)
    {
      match instr
      case Move(d, n) => MoveWaypoint(d, n);
      case Forward(n) =>
        x := x + n * wx;
        y := y + n * wy;
      case Turn(n) =>
        if n == 90 {
          var w := wx;
          wx := wy;
          wy := -w;
        } else if n == 180 {
          wx := -wx;
          wy := -wy;
        } else if n == 270 {
          var w := wx;
          wx := -wy;
          wy := w;
        }
    }

    /** `Position::manhattan` */
    function Distance(): (n: nat)
      reads this
      ensures n == Manhattan(State())
    {
      Abs(x) + Abs(y)
    }
  }

  /** `part_1`: steps a new position through the instructions. */
  method Part1(instrs: seq<Instr>) returns (n: nat)
    requires forall i :: 0 <= i < |instrs| ==> ShipTurn(instrs[i])
    ensures n == Manhattan(SailShip(instrs))
  {
    var position := new Position();
    for i := 0 to |instrs|
      invariant position.State() == SailShip(instrs[..i])
    {
      assert instrs[..i + 1][..i] == instrs[..i];
      position.Step(instrs[i]);
    }
    assert instrs[..|instrs|] == instrs;
    n := position.Distance();
  }

  /** `part_2`: steps a new position's waypoint through the instructions. */
  method Part2(instrs: seq<Instr>) returns (n: nat)
    requires forall i :: 0 <= i < |instrs| ==> WaypointTurn(instrs[i])
    ensures n == Manhattan(SailWaypoint(instrs))
  {
    var position := new Position();
    for i := 0 to |instrs|
      invariant position.State() == SailWaypoint(instrs[..i])
    {
      assert instrs[..i + 1][..i] == instrs[..i];
      position.StepWaypoint(instrs[i]);
    }
    assert instrs[..|instrs|] == instrs;
    n := position.Distance();
  }

  const Example: seq<Instr> := [Forward(10), Move(North, 3), Forward(7), Turn(90), Forward(11)]

  lemma SailShipSnoc(instrs: seq<Instr>, instr: Instr)
    requires forall i :: 0 <= i < |instrs| ==> ShipTurn(instrs[i])
    requires ShipTurn(instr)
    ensures forall i :: 0 <= i < |instrs + [instr]| ==> ShipTurn((instrs + [instr])[i])
    ensures SailShip(instrs + [instr]) == Next(SailShip(instrs), instr)
  {
    assert (instrs + [instr])[..|instrs|] == instrs;
  }

  lemma SailWaypointSnoc(instrs: seq<Instr>, instr: Instr)
    requires forall i :: 0 <= i < |instrs| ==> WaypointTurn(instrs[i])
    requires WaypointTurn(instr)
    ensures forall i :: 0 <= i < |instrs + [instr]| ==> WaypointTurn((instrs + [instr])[i])
    ensures SailWaypoint(instrs + [instr]) == NextWaypoint(SailWaypoint(instrs), instr)
  {
    assert (instrs + [instr])[..|instrs|] == instrs;
  }

  /** On the example, the ship ends 17 east and 8 south: distance 25. */
  lemma ExamplePart1()
    ensures Manhattan(SailShip(Example)) == 25
  {
    var e := Example;
    SailShipSnoc([], e[0]);
    assert [] + [e[0]] == e[..1];
    SailShipSnoc(e[..1], e[1]);
    assert e[..1] + [e[1]] == e[..2];
    SailShipSnoc(e[..2], e[2]);
    assert e[..2] + [e[2]] == e[..3];
    assert SailShip(e[..3]) == Pos(17, 3, 10, 1, East);
    SailShipSnoc(e[..3], e[3]);
    assert e[..3] + [e[3]] == e[..4];
    SailShipSnoc(e[..4], e[4]);
    assert e[..4] + [e[4]] == e;
    assert SailShip(e[..4]) == Pos(17, 3, 10, 1, South);
    assert SailShip(e) == Pos(17, -8, 10, 1, South);
  }

  /** With the waypoint, the ship ends 214 east and 72 south: distance 286. */
  lemma ExamplePart2()
    ensures Manhattan(SailWaypoint(Example)) == 286
  {
    var e := Example;
    SailWaypointSnoc([], e[0]);
    assert [] + [e[0]] == e[..1];
    SailWaypointSnoc(e[..1], e[1]);
    assert e[..1] + [e[1]] == e[..2];
    SailWaypointSnoc(e[..2], e[2]);
    assert e[..2] + [e[2]] == e[..3];
    assert SailWaypoint(e[..3]) == Pos(170, 38, 10, 4, East);
    SailWaypointSnoc(e[..3], e[3]);
    assert e[..3] + [e[3]] == e[..4];
    SailWaypointSnoc(e[..4], e[4]);
    assert e[..4] + [e[4]] == e;
    assert SailWaypoint(e[..4]) == Pos(170, 38, 4, -10, East);
    assert SailWaypoint(e) == Pos(214, -72, 4, -10, East);
  }
}
