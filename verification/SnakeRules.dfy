/**
 The rules of the snake game on values: a 31 by 15 field on which the snake turns
 only at cells with two even coordinates.
 */
module SnakeRules {

  /** Coordinates are one byte wide and wrap. */
  datatype Point = Point(x: nat, y: nat)

  datatype Direction = Up | Right | Down | Left

  datatype GameState = Life | LastChance | GameOver

  const MAX_SNAKE_LEN: nat := 253

  /** `len` is the counter the game shows; `body` the cells the snake lies on, head first. */
  datatype Snake = Snake(
    body: seq<Point>,
    len: nat,
    movement: Direction,
    wanted: Direction,
    fruit: Point,
    state: GameState)

  predicate IsVertical(d: Direction) {
    d == Up || d == Down
  }

  function Opposite(d: Direction): Direction {
    match d
    case Up => Down
    case Down => Up
    case Left => Right
    case Right => Left
  }

  /** The snake may turn aside, never around. */
  function Turned(movement: Direction, wanted: Direction): Direction {
    if IsVertical(movement) != IsVertical(wanted) then wanted else movement
  }

  function Ahead(p: Point, d: Direction): Point {
    match d
    case Up => p.(y := (p.y + 255) % 256)
    case Right => p.(x := (p.x + 1) % 256)
    case Down => p.(y := (p.y + 1) % 256)
    case Left => p.(x := (p.x + 255) % 256)
  }

  predicate InField(p: Point) {
    p.x <= 30 && p.y <= 14
  }

  /** A cell where the snake can turn and fruit can lie. */
  predicate IsNode(p: Point) {
    p.x % 2 == 0 && p.y % 2 == 0
  }

  /** A cell the snake can ever be on: a node, or between two nodes. */
  predicate OnTrack(p: Point) {
    InField(p) && (p.x % 2 == 0 || p.y % 2 == 0)
  }

  predicate Adjacent(p: Point, q: Point) {
    || (p.x == q.x && (p.y == q.y + 1 || q.y == p.y + 1))
    || (p.y == q.y && (p.x == q.x + 1 || q.x == p.x + 1))
  }

  // ---------------------------------------------------------------- the fruit

  const NODES: nat := 8 * 16

  /** The nodes are numbered row by row, sixteen to a row. */
  function Node(i: nat): Point {
    Point(2 * (i % 16), 2 * (i / 16))
  }

  /** The nodes among the first `n` that the body leaves free, in order. */
  function FreeNodes(body: seq<Point>, n: nat): seq<Point> {
    if n == 0 then [] else
      FreeNodes(body, n - 1) + if Node(n - 1) in body then [] else [Node(n - 1)]
  }

  function NodeCount(body: seq<Point>): nat {
    if body == [] then 0 else NodeCount(body[..|body| - 1]) + if IsNode(body[|body| - 1]) then 1 else 0
  }

  /** The fruit a draw selects. */
  function Drawn(body: seq<Point>, draw: nat): Point
    requires FreeNodes(body, NODES) != []
  {
    FreeNodes(body, NODES)[draw % |FreeNodes(body, NODES)|]
  }

  lemma {:induction false} NodeNumbering(i: nat, j: nat)
    ensures Node(i) == Node(j) <==> i == j
    ensures IsNode(Node(i))
    ensures i < NODES ==> InField(Node(i))
  {
    assert i == 16 * (i / 16) + i % 16 && j == 16 * (j / 16) + j % 16;
  }

  lemma {:induction false} NodeHasNumber(p: Point)
    requires IsNode(p) && InField(p)
    ensures exists i :: 0 <= i < NODES && Node(i) == p
  {
    var i := 16 * (p.y / 2) + p.x / 2;
    assert i / 16 == p.y / 2 && i % 16 == p.x / 2;
    assert Node(i) == p;
  }

  /** Drawing ranges over exactly the free nodes, each once: a bijection from draws onto free nodes. */
  lemma {:induction false} FreeNodesAreFree(body: seq<Point>, n: nat)
    ensures forall p :: p in FreeNodes(body, n) <==> p !in body && exists i :: 0 <= i < n && p == Node(i)
    ensures forall i, j :: 0 <= i < j < |FreeNodes(body, n)| ==> FreeNodes(body, n)[i] != FreeNodes(body, n)[j]
  {
    if n > 0 {
      FreeNodesAreFree(body, n - 1);
      forall i: nat | i < n - 1
        ensures Node(i) != Node(n - 1)
      {
        NodeNumbering(i, n - 1);
      }
      forall p
        ensures p in FreeNodes(body, n) <==> p !in body && exists i :: 0 <= i < n && p == Node(i)
      {
        if i :| 0 <= i < n && p == Node(i) {
          assert i < n - 1 || i == n - 1;
        }
      }
    }
  }

  /** Covering one more free node uses up exactly that one. */
  lemma {:induction false} CoveringANode(body: seq<Point>, p: Point, j: nat, n: nat)
    requires p !in body && p == Node(j)
    ensures |FreeNodes(body + [p], n)| == |FreeNodes(body, n)| - if j < n then 1 else 0
  {
    if n > 0 {
      CoveringANode(body, p, j, n - 1);
      NodeNumbering(n - 1, j);
    }
  }

  lemma {:induction false} CoveringNoNode(body: seq<Point>, p: Point, n: nat)
    requires !IsNode(p)
    ensures FreeNodes(body + [p], n) == FreeNodes(body, n)
  {
    if n > 0 {
      CoveringNoNode(body, p, n - 1);
      NodeNumbering(n - 1, n - 1);
    }
  }

  lemma {:induction false} AllNodesFree(n: nat)
    ensures |FreeNodes([], n)| == n
  {
    if n > 0 {
      AllNodesFree(n - 1);
    }
  }

  predicate Distinct(body: seq<Point>) {
    forall i, j :: 0 <= i < j < |body| ==> body[i] != body[j]
  }

  /** A body without repeats leaves free exactly the nodes it does not count. */
  lemma {:induction false} FreeNodesCounted(body: seq<Point>)
    requires Distinct(body) && forall p | p in body :: InField(p)
    ensures |FreeNodes(body, NODES)| == NODES - NodeCount(body)
  {
    if body == [] {
      AllNodesFree(NODES);
    } else {
      var init, p := body[..|body| - 1], body[|body| - 1];
      assert body == init + [p];
      FreeNodesCounted(init);
      if IsNode(p) {
        assert p in body;
        NodeHasNumber(p);
        var j :| 0 <= j < NODES && Node(j) == p;
        CoveringANode(init, p, j, NODES);
      } else {
        CoveringNoNode(init, p, NODES);
      }
    }
  }

  // ---------------------------------------------------------------- the invariant

  /** A self-avoiding path on the track. */
  ghost predicate IsPath(body: seq<Point>) {
    && (forall p | p in body :: OnTrack(p))
    && (forall i :: 0 <= i < |body| - 1 ==> Adjacent(body[i], body[i + 1]))
    && Distinct(body)
  }

  /** Nodes and the cells between them alternate along a path, so at most every other cell is a node. */
  lemma {:induction false} NodesAlternate(body: seq<Point>)
    requires IsPath(body)
    ensures 2 * NodeCount(body) <= |body| + 1
    ensures body != [] && !IsNode(body[|body| - 1]) ==> 2 * NodeCount(body) <= |body|
  {
    if body != [] {
      var n := |body| - 1;
      var init := body[..n];
      assert forall p | p in init :: p in body;
      NodesAlternate(init);
      if n > 0 {
        assert body[n - 1] in body && body[n] in body;
        assert Adjacent(body[n - 1], body[n]);
      }
    }
  }

  /** At most 126 of the 128 nodes are covered while the snake can still grow. */
  lemma {:induction false} SomeNodeIsFree(body: seq<Point>)
    requires IsPath(body) && |body| < MAX_SNAKE_LEN
    ensures |FreeNodes(body, NODES)| == NODES - NodeCount(body) >= 2
  {
    NodesAlternate(body);
    assert forall p | p in body :: OnTrack(p);
    FreeNodesCounted(body);
  }

  /** Between two nodes the snake moves along the line that joins them. */
  predicate Aligned(head: Point, movement: Direction) {
    && (head.x % 2 != 0 ==> !IsVertical(movement))
    && (head.y % 2 != 0 ==> IsVertical(movement))
  }

  /** The direction from the neck to the head. */
  function Facing(body: seq<Point>): Direction
    requires |body| >= 2
  {
    if body[0].y == body[1].y then
      if body[0].x > body[1].x then Right else Left
    else
      if body[0].y > body[1].y then Down else Up
  }

  ghost predicate Good(s: Snake) {
    && 7 <= |s.body| < MAX_SNAKE_LEN
    && (s.len == |s.body| || (s.state == GameOver && s.len == MAX_SNAKE_LEN == |s.body| + 1))
    && IsPath(s.body)
    && Aligned(s.body[0], s.movement)
    && IsNode(s.fruit) && InField(s.fruit) && s.fruit !in s.body
    && (s.state == Life ==> s.movement == Facing(s.body))
    && (s.state == LastChance ==>
          IsNode(s.body[0]) && s.movement != Opposite(Facing(s.body)) && !InField(Ahead(s.body[0], s.movement)))
  }

  function Start(): Snake {
    Snake([Point(8, 6), Point(7, 6), Point(6, 6), Point(5, 6), Point(4, 6), Point(3, 6), Point(2, 6)],
          7, Right, Right, Point(18, 6), Life)
  }

  /** The direction the head takes on the next tick. */
  function Heading(s: Snake): Direction
    requires s.body != []
  {
    if IsNode(s.body[0]) then Turned(s.movement, s.wanted) else s.movement
  }

  function Target(s: Snake): Point
    requires s.body != []
  {
    Ahead(s.body[0], Heading(s))
  }

  /** The body after the head has moved on, with or without the tail following. */
  function Moved(body: seq<Point>, p: Point, grows: bool): seq<Point>
    requires body != []
  {
    [p] + if grows then body else body[..|body| - 1]
  }

  /** One tick of the game, with the number drawn should new fruit be needed. */
  ghost function Tick(s: Snake, draw: nat): Snake
    requires Good(s)
  {
    var p := Target(s);
    var eats := p == s.fruit;
    if s.state == GameOver then s
    else if !InField(p) then
      s.(movement := Heading(s), state := if s.state == Life then LastChance else GameOver)
    else if p in s.body then
      s.(movement := Heading(s), state := GameOver)
    else if eats && s.len + 1 == MAX_SNAKE_LEN then
      s.(movement := Heading(s), state := GameOver, len := MAX_SNAKE_LEN)
    else
      var body := Moved(s.body, p, eats);
      StepKeepsPath(s);
      if eats then SomeNodeIsFree(body); assert |body| < MAX_SNAKE_LEN;
        s.(body := body, movement := Heading(s), state := Life, len := s.len + 1, fruit := Drawn(body, draw))
      else
        s.(body := body, movement := Heading(s), state := Life)
  }

  /** Inside the field the eight-bit wrap does not show, and a step off the field leaves it. */
  lemma {:induction false} AheadIsPlain(p: Point, d: Direction)
    requires InField(p)
    ensures Ahead(p, d) == match d
                           case Up => if p.y == 0 then Point(p.x, 255) else Point(p.x, p.y - 1)
                           case Right => Point(p.x + 1, p.y)
                           case Down => Point(p.x, p.y + 1)
                           case Left => if p.x == 0 then Point(255, p.y) else Point(p.x - 1, p.y)
  {
  }

  lemma {:induction false} StepStaysOnTrack(s: Snake)
    requires Good(s) && InField(Target(s))
    ensures OnTrack(Target(s)) && Adjacent(Target(s), s.body[0])
    ensures Aligned(Target(s), Heading(s))
  {
    assert s.body[0] in s.body;
    AheadIsPlain(s.body[0], Heading(s));
  }

  /** Stepping onto a free cell of the field keeps the body a self-avoiding path. */
  lemma {:induction false} StepKeepsPath(s: Snake)
    requires Good(s)
    ensures InField(Target(s)) && Target(s) !in s.body ==>
              IsPath(Moved(s.body, Target(s), true)) && IsPath(Moved(s.body, Target(s), false))
  {
    if InField(Target(s)) && Target(s) !in s.body {
      StepStaysOnTrack(s);
      PathGrows(s.body, Target(s));
      var grown := Moved(s.body, Target(s), true);
      assert Moved(s.body, Target(s), false) == grown[..|grown| - 1];
      PathShrinks(grown);
    }
  }

  lemma {:induction false} PathGrows(body: seq<Point>, p: Point)
    requires IsPath(body) && body != [] && p !in body && OnTrack(p) && Adjacent(p, body[0])
    ensures IsPath([p] + body)
  {
    var grown := [p] + body;
    forall i | 0 <= i < |grown| - 1
      ensures Adjacent(grown[i], grown[i + 1])
    {
      if i > 0 {
        assert Adjacent(body[i - 1], body[i]);
      }
    }
  }

  lemma {:induction false} PathShrinks(body: seq<Point>)
    requires IsPath(body) && body != []
    ensures IsPath(body[..|body| - 1])
  {
    var less := body[..|body| - 1];
    assert forall p | p in less :: p in body;
    forall i | 0 <= i < |less| - 1
      ensures Adjacent(less[i], less[i + 1])
    {
      assert Adjacent(body[i], body[i + 1]);
    }
  }

  // ---------------------------------------------------------------- runs

  lemma {:induction false} DrawIsFreeNode(body: seq<Point>, draw: nat)
    requires FreeNodes(body, NODES) != []
    ensures var p := Drawn(body, draw); IsNode(p) && InField(p) && p !in body
  {
    var free := FreeNodes(body, NODES);
    FreeNodesAreFree(body, 128);
    assert Drawn(body, draw) in free;
    var i :| 0 <= i < NODES && Drawn(body, draw) == Node(i);
    NodeNumbering(i, i);
  }

  /** A turn the frame refuses: the direction changes although the head stays. */
  lemma {:induction false} FrameKeepsGood(s: Snake)
    requires Good(s) && s.state != GameOver && !InField(Target(s))
    ensures Good(s.(movement := Heading(s), state := if s.state == Life then LastChance else GameOver))
  {
    assert s.body[0] in s.body;
  }

  lemma {:induction false} EndKeepsGood(s: Snake, len: nat)
    requires Good(s) && s.state != GameOver
    requires len == s.len || len == MAX_SNAKE_LEN == s.len + 1
    ensures Good(s.(movement := Heading(s), state := GameOver, len := len))
  {
    assert s.body[0] in s.body;
  }

  /** After a move the head faces the way it went. */
  lemma {:induction false} MoveFacesHeading(s: Snake, grows: bool)
    requires Good(s) && InField(Target(s))
    ensures Facing(Moved(s.body, Target(s), grows)) == Heading(s)
  {
    StepStaysOnTrack(s);
    var body := Moved(s.body, Target(s), grows);
    assert s.body[0] in s.body;
    assert body[0] == Target(s) && body[1] == s.body[0];
  }

  lemma {:induction false} MoveKeepsGood(s: Snake)
    requires Good(s) && s.state != GameOver && InField(Target(s)) && Target(s) !in s.body && Target(s) != s.fruit
    ensures Good(s.(body := Moved(s.body, Target(s), false), movement := Heading(s), state := Life))
  {
    StepStaysOnTrack(s);
    StepKeepsPath(s);
    MoveFacesHeading(s, false);
    assert s.fruit !in Moved(s.body, Target(s), false);
  }

  lemma {:induction false} MealKeepsGood(s: Snake, draw: nat)
    requires Good(s) && s.state != GameOver && InField(Target(s)) && Target(s) !in s.body && s.len + 1 < MAX_SNAKE_LEN
    ensures var body := Moved(s.body, Target(s), true);
            FreeNodes(body, NODES) != []
            && Good(s.(body := body, movement := Heading(s), state := Life, len := s.len + 1, fruit := Drawn(body, draw)))
  {
    StepStaysOnTrack(s);
    StepKeepsPath(s);
    MoveFacesHeading(s, true);
    SomeNodeIsFree(Moved(s.body, Target(s), true));
    DrawIsFreeNode(Moved(s.body, Target(s), true), draw);
  }

  /** Every tick keeps the invariant, whatever is drawn. */
  lemma {:induction false} TickKeepsGood(s: Snake, draw: nat)
    requires Good(s)
    ensures Good(Tick(s, draw))
  {
    var p := Target(s);
    if s.state == GameOver {
    } else if !InField(p) {
      FrameKeepsGood(s);
    } else if p in s.body {
      EndKeepsGood(s, s.len);
    } else if p == s.fruit && s.len + 1 == MAX_SNAKE_LEN {
      EndKeepsGood(s, MAX_SNAKE_LEN);
    } else if p == s.fruit {
      MealKeepsGood(s, draw);
    } else {
      MoveKeepsGood(s);
    }
  }

  /**
   When the game ends: at a second hit of the frame, at the body, or with the
   meal that makes the snake as long as it may get; and never otherwise.
   */
  lemma {:induction false} EndsExactlyWhen(s: Snake, draw: nat)
    requires Good(s) && s.state != GameOver
    ensures var p := Target(s);
            Tick(s, draw).state == GameOver
            <==> ((p.x > 30 || p.y > 14) && s.state == LastChance) || p in s.body
                 || (p == s.fruit && s.len == 252)
  {
    if Target(s) in s.body {
      assert OnTrack(Target(s));
    }
  }

  /** What a tick changes: nothing but the heading at the frame; one cell on a free one, and one more to a meal. */
  lemma {:induction false} TickMeans(s: Snake, draw: nat)
    requires Good(s) && s.state != GameOver
    ensures var p, t := Target(s), Tick(s, draw);
            && t.wanted == s.wanted
            && t.movement == (if s.body[0].x % 2 == 0 && s.body[0].y % 2 == 0 then Turned(s.movement, s.wanted)
                              else s.movement)
            && p == Ahead(s.body[0], t.movement)
            && (!InField(p) ==> t.body == s.body && t.len == s.len && t.fruit == s.fruit)
            && (!InField(p) && s.state == Life ==> t.state == LastChance)
            && (t.state == GameOver ==> t.body == s.body && t.fruit == s.fruit)
            && (InField(p) && t.state != GameOver ==>
                  && t.state == Life && |t.body| == t.len && t.body[0] == p
                  && (p != s.fruit ==> t.len == s.len && t.fruit == s.fruit)
                  && (p == s.fruit ==> t.len == s.len + 1 && t.fruit !in t.body)
                  && forall i :: 1 <= i < |t.body| ==> t.body[i] == s.body[i - 1])
  {
    TickKeepsGood(s, draw);
  }

  /** A finished game stands still until it is started again, and only then; wishes change nothing but the wish. */
  lemma {:induction false} PlayMeans(s: Snake, input: Input)
    requires Good(s)
    ensures s.state == GameOver && input.Ticks? ==> Play(s, input) == s
    ensures input.Wants? ==> Play(s, input) == s.(wanted := input.direction)
    ensures input == PressOk ==> Play(s, input) == if s.state == GameOver then Start() else s
    ensures Play(s, input).state == GameOver && s.state != GameOver ==> input.Ticks?
  {
  }

  /** Where a direction leads, x to the right and y down. */
  function Leads(d: Direction): (int, int) {
    match d
    case Up => (0, -1)
    case Down => (0, 1)
    case Right => (1, 0)
    case Left => (-1, 0)
  }

  /** A wish is followed exactly when it is at right angles, and one step goes one cell, as bytes. */
  lemma {:induction false} StepsOneCell(p: Point, movement: Direction, wanted: Direction)
    requires p.x < 256 && p.y < 256
    ensures var (x, y) := Leads(movement);
            var (u, v) := Leads(wanted);
            && Turned(movement, wanted) == (if x * u + y * v == 0 then wanted else movement)
            && Ahead(p, movement).x == (p.x + x) % 256 && Ahead(p, movement).y == (p.y + y) % 256
  {
  }

  /** Draws below the number of free nodes select each free node exactly once; larger ones go by their remainder. */
  lemma {:induction false} DrawsAreFreeNodes(body: seq<Point>, draw: nat, other: nat, p: Point)
    requires FreeNodes(body, NODES) != []
    ensures var n := |FreeNodes(body, NODES)|;
            && Drawn(body, draw) == Drawn(body, draw % n)
            && (draw < n && other < n && draw != other ==> Drawn(body, draw) != Drawn(body, other))
            && (IsNode(p) && InField(p) && p !in body ==> exists k :: 0 <= k < n && Drawn(body, k) == p)
  {
    var n := |FreeNodes(body, NODES)|;
    FreeNodesAreFree(body, NODES);
    DrawnInOrder(body, draw % n);
    if draw < n && other < n && draw != other {
      DrawnInOrder(body, draw);
      DrawnInOrder(body, other);
    }
    if IsNode(p) && InField(p) && p !in body {
      FreeNodeIsDrawn(body, p);
    }
  }

  lemma {:induction false} DrawnInOrder(body: seq<Point>, draw: nat)
    requires draw < |FreeNodes(body, NODES)|
    ensures Drawn(body, draw) == FreeNodes(body, NODES)[draw]
  {
    SmallRest(draw, |FreeNodes(body, NODES)|);
  }

  lemma {:induction false} FreeNodeIsDrawn(body: seq<Point>, p: Point)
    requires IsNode(p) && InField(p) && p !in body
    ensures exists k :: 0 <= k < |FreeNodes(body, NODES)| && Drawn(body, k) == p
  {
    NodeHasNumber(p);
    FreeNodesAreFree(body, NODES);
    assert p in FreeNodes(body, NODES);
    var k :| 0 <= k < |FreeNodes(body, NODES)| && FreeNodes(body, NODES)[k] == p;
    DrawnInOrder(body, k);
  }

  lemma {:induction false} NoLess(n: nat, q: nat)
    requires q >= 1
    ensures n * q >= n
  {
    assert n * q == n + n * (q - 1);
  }

  lemma {:induction false} SmallRest(x: nat, n: nat)
    requires x < n
    ensures x % n == x
  {
    var q := x / n;
    assert x == n * q + x % n;
    if q >= 1 {
      NoLess(n, q);
    }
  }

  /** What the game loop receives: a timer tick, a press of an arrow, or a press of OK. */
  datatype Input = Ticks(draw: nat) | Wants(direction: Direction) | PressOk

  ghost function Play(s: Snake, input: Input): (t: Snake)
    requires Good(s)
    ensures Good(t)
  {
    match input
    case Ticks(draw) => TickKeepsGood(s, draw); Tick(s, draw)
    case Wants(d) => s.(wanted := d)
    case PressOk => if s.state == GameOver then StartIsGood(); Start() else s
  }

  lemma {:induction false} StartIsGood()
    ensures Good(Start())
  {
    var body := Start().body;
    forall i, j | 0 <= i < j < |body|
      ensures body[i] != body[j]
    {
      assert body[i].x == 8 - i && body[j].x == 8 - j;
    }
  }

  ghost function Game(inputs: seq<Input>): (s: Snake)
    ensures Good(s)
  {
    if inputs == [] then StartIsGood(); Start() else Play(Game(inputs[..|inputs| - 1]), inputs[|inputs| - 1])
  }

  /** The step of the head lands on the fruit. */
  predicate Eats(s: Snake, input: Input)
    requires s.body != []
  {
    input.Ticks? && s.state != GameOver && Target(s) == s.fruit
  }

  /** Fruits eaten since the game was last started. */
  ghost function Eaten(inputs: seq<Input>): nat {
    if inputs == [] then 0 else
      var before, input := inputs[..|inputs| - 1], inputs[|inputs| - 1];
      if input == PressOk && Game(before).state == GameOver then 0
      else Eaten(before) + if Eats(Game(before), input) then 1 else 0
  }

  lemma {:induction false} MealsGrow(s: Snake, input: Input)
    requires Good(s) && !(input == PressOk && s.state == GameOver)
    ensures Play(s, input).len == s.len + if Eats(s, input) then 1 else 0
  {
  }

  /** The shown length is seven plus the fruits eaten. */
  lemma {:induction false} LengthCountsFruits(inputs: seq<Input>)
    ensures Game(inputs).len == 7 + Eaten(inputs)
  {
    if inputs != [] {
      var before, input := inputs[..|inputs| - 1], inputs[|inputs| - 1];
      LengthCountsFruits(before);
      if !(input == PressOk && Game(before).state == GameOver) {
        MealsGrow(Game(before), input);
      }
    }
  }

  /**
   In every reachable game that is not over: the snake is a self-avoiding path
   inside the field, of the shown length; the fruit is a node off the snake;
   and a node would be free for the next fruit even if the snake grew now.
   */
  lemma {:induction false} GameIsSound(inputs: seq<Input>, p: Point)
    requires Game(inputs).state != GameOver
    ensures var s := Game(inputs);
            && IsPath(s.body) && |s.body| == s.len == 7 + Eaten(inputs) < MAX_SNAKE_LEN
            && IsNode(s.fruit) && InField(s.fruit) && s.fruit !in s.body
            && (p == Target(s) && InField(p) && p !in s.body && s.len + 1 < MAX_SNAKE_LEN ==>
                  |FreeNodes(Moved(s.body, p, true), NODES)| == NODES - NodeCount(Moved(s.body, p, true)) >= 2)
  {
    var s := Game(inputs);
    LengthCountsFruits(inputs);
    if p == Target(s) && InField(p) && p !in s.body && s.len + 1 < MAX_SNAKE_LEN {
      StepKeepsPath(s);
      SomeNodeIsFree(Moved(s.body, p, true));
    }
  }

  /** From the head, the neck is the next cell in the direction opposite to the one faced. */
  lemma {:induction false} NeckIsBehind(body: seq<Point>, d: Direction)
    requires |body| >= 2 && InField(body[0]) && InField(body[1]) && Adjacent(body[0], body[1])
    ensures Ahead(body[0], d) == body[1] <==> d == Opposite(Facing(body))
  {
    AheadIsPlain(body[0], d);
  }

  /** The heading is opposite to the one faced only after a refused turn at the frame. */
  lemma {:induction false} HeadsBackExactlyWhen(s: Snake)
    requires Good(s) && s.state != GameOver
    ensures Heading(s) == Opposite(Facing(s.body)) <==>
              s.state == LastChance && s.movement != Facing(s.body) && s.wanted == Opposite(Facing(s.body))
  {
  }

  /**
   The snake runs back into its neck exactly when, at the frame, a first turn
   was refused by the frame and the next one points backward.
   */
  lemma {:induction false} TurnsBackExactlyWhen(s: Snake)
    requires Good(s) && s.state != GameOver
    ensures Target(s) == s.body[1] <==>
              s.state == LastChance && s.movement != Facing(s.body) && s.wanted == Opposite(Facing(s.body))
  {
    assert s.body[0] in s.body && s.body[1] in s.body;
    assert Adjacent(s.body[0], s.body[1]);
    NeckIsBehind(s.body, Heading(s));
    HeadsBackExactlyWhen(s);
  }

  // A game in which it happens: up to the frame, two cells right, then Up and Left.

  function Trail(i: nat): Point {
    if i <= 6 then Point(2 + i, 6) else if i <= 12 then Point(8, 12 - i) else Point(i - 4, 0)
  }

  function TrailBody(n: nat): seq<Point> {
    seq(7, j requires 0 <= j < 7 => Trail(6 + n - j))
  }

  function OnTrail(n: nat, wanted: Direction): Snake {
    Snake(TrailBody(n), 7, if 1 <= n <= 6 then Up else Right, wanted, Point(18, 6), Life)
  }

  lemma {:induction false} MovesAlongTrail(n: nat)
    requires n < 8 && Good(OnTrail(n, if n < 6 then Up else Right))
    ensures Tick(OnTrail(n, if n < 6 then Up else Right), 0) == OnTrail(n + 1, if n < 6 then Up else Right)
  {
    var s := OnTrail(n, if n < 6 then Up else Right);
    assert s.body[0] == Trail(6 + n);
    assert Target(s) == Trail(7 + n);
    forall j | 0 <= j < 7
      ensures TrailBody(n)[j] != Trail(7 + n)
    {
      assert TrailBody(n)[j] == Trail(6 + n - j);
    }
    assert Moved(s.body, Trail(7 + n), false) == TrailBody(n + 1);
  }

  lemma {:induction false} PlayPush(inputs: seq<Input>, input: Input)
    ensures Game(inputs + [input]) == Play(Game(inputs), input)
  {
    assert (inputs + [input])[..|inputs|] == inputs;
  }

  lemma {:induction false} GameStartsOnTrail()
    ensures Game([Wants(Up)]) == OnTrail(0, Up)
  {
    PlayPush([], Wants(Up));
    assert [] + [Wants(Up)] == [Wants(Up)];
    assert Start().body == TrailBody(0);
  }

  lemma {:induction false} GameMovesOn(before: seq<Input>, n: nat)
    requires n < 8 && Game(before) == OnTrail(n, if n < 6 then Up else Right)
    ensures Game(before + [Ticks(0)]) == OnTrail(n + 1, if n < 6 then Up else Right)
  {
    MovesAlongTrail(n);
    PlayPush(before, Ticks(0));
  }

  lemma {:induction false} GameTurns(before: seq<Input>)
    requires Game(before) == OnTrail(6, Up)
    ensures Game(before + [Wants(Right)]) == OnTrail(6, Right)
  {
    PlayPush(before, Wants(Right));
  }

  lemma {:induction false} GameAlongTrail(n: nat) returns (inputs: seq<Input>)
    requires n <= 8
    ensures Game(inputs) == OnTrail(n, if n < 6 then Up else Right)
  {
    if n == 0 {
      GameStartsOnTrail();
      inputs := [Wants(Up)];
    } else {
      inputs := GameAlongTrail(n - 1);
      GameMovesOn(inputs, n - 1);
      inputs := inputs + [Ticks(0)];
      if n == 6 {
        GameTurns(inputs);
        inputs := inputs + [Wants(Right)];
      }
    }
  }

  lemma {:induction false} TurnsBackAtFrame(s: Snake)
    requires Good(s) && s.state == Life && s.movement == Right && s.wanted == Up
    requires s.body[0].y == 0 && s.body[0].x % 2 == 0
    ensures var t := Tick(s, 0);
            && Good(t) && t.state == LastChance
            && var u := t.(wanted := Left); Good(u) && Target(u) == u.body[1] && Tick(u, 0).state == GameOver
  {
    TickKeepsGood(s, 0);
    assert s.body[0] in s.body && s.body[1] in s.body;
    assert Adjacent(s.body[0], s.body[1]);
  }

  lemma {:induction false} TurnsBackFrom(before: seq<Input>) returns (inputs: seq<Input>)
    requires Game(before) == OnTrail(8, Right)
    ensures Game(inputs).state == LastChance && Target(Game(inputs)) == Game(inputs).body[1]
    ensures Game(inputs + [Ticks(0)]).state == GameOver
  {
    var s := OnTrail(8, Up);
    PlayPush(before, Wants(Up));
    var first := before + [Wants(Up)];
    assert Game(first) == s;
    assert s.body[0] == Trail(14) == Point(10, 0);
    TurnsBackAtFrame(s);
    PlayPush(first, Ticks(0));
    PlayPush(first + [Ticks(0)], Wants(Left));
    inputs := first + [Ticks(0)] + [Wants(Left)];
    PlayPush(inputs, Ticks(0));
  }

  /** Turning back is reachable, and the tail check then ends the game. */
  lemma {:induction false} TurningBackIsReachable()
    ensures exists inputs :: Game(inputs).state == LastChance && Target(Game(inputs)) == Game(inputs).body[1]
              && Game(inputs + [Ticks(0)]).state == GameOver
  {
    var before := GameAlongTrail(8);
    var inputs := TurnsBackFrom(before);
  }
}
