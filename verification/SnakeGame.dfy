/** The snake game as it stands in memory: an array of points shifted by one each step, and a bitmap of used nodes. */
module SnakeGame {
  import opened SnakeRules

  function ShiftLeft(m: bv16): bv16 {
    m << 1
  }

  /** `1 << x` in sixteen bits. */
  function Mask(x: nat): bv16 {
    if x == 0 then 1 else ShiftLeft(Mask(x - 1))
  }

  method NextMask(mask: bv16, ghost x: nat) returns (next: bv16)
    requires mask == Mask(x)
    ensures next == Mask(x + 1)
  {
    next := ShiftLeft(mask);
  }

  function MaskTable(x: nat): bv16
    requires x < 16
  {
    if x == 0 then 0x1 else if x == 1 then 0x2 else if x == 2 then 0x4 else if x == 3 then 0x8
    else if x == 4 then 0x10 else if x == 5 then 0x20 else if x == 6 then 0x40 else if x == 7 then 0x80
    else if x == 8 then 0x100 else if x == 9 then 0x200 else if x == 10 then 0x400 else if x == 11 then 0x800
    else if x == 12 then 0x1000 else if x == 13 then 0x2000 else if x == 14 then 0x4000 else 0x8000
  }

  lemma {:induction false} MaskIsTabled(x: nat)
    requires x < 16
    ensures Mask(x) == MaskTable(x)
  {
    if x > 0 {
      MaskIsTabled(x - 1);
    }
  }

  predicate HasBit(row: bv16, m: bv16) {
    row & m != 0
  }

  predicate Apart(m: bv16, n: bv16) {
    m & n == 0
  }

  /** Setting the bits `m` leaves the bits `n` as they were. */
  predicate Spares(row: bv16, m: bv16, n: bv16) {
    HasBit(row | m, n) == HasBit(row, n)
  }

  lemma {:induction false} ApartSpares(row: bv16, m: bv16, n: bv16)
    requires Apart(m, n)
    ensures Spares(row, m, n)
  {
    assert (row | m) & n == row & n;
  }

  lemma {:induction false} SetsItself(row: bv16, n: bv16)
    requires n != 0
    ensures HasBit(row | n, n)
  {
    assert (row | n) & n == n;
  }

  lemma {:induction false} ShiftKeepsApart(m: bv16, n: bv16)
    ensures Apart(1, ShiftLeft(n)) && Apart(ShiftLeft(n), 1)
    ensures Apart(m, n) ==> Apart(ShiftLeft(m), ShiftLeft(n))
  {
  }

  lemma {:induction false} MasksApart(x: nat, z: nat)
    requires x != z
    ensures Apart(Mask(x), Mask(z))
  {
    if x == 0 {
      ShiftKeepsApart(1, Mask(z - 1));
    } else if z == 0 {
      ShiftKeepsApart(1, Mask(x - 1));
    } else {
      MasksApart(x - 1, z - 1);
      ShiftKeepsApart(Mask(x - 1), Mask(z - 1));
    }
  }

  lemma {:induction false} SparesOthers(row: bv16, x: nat, z: nat)
    requires x != z
    ensures Spares(row, Mask(x), Mask(z))
  {
    MasksApart(x, z);
    ApartSpares(row, Mask(x), Mask(z));
  }

  lemma {:induction false} SetsOwn(row: bv16, x: nat)
    requires x < 16
    ensures HasBit(row | Mask(x), Mask(x))
  {
    MaskIsTabled(x);
    SetsItself(row, Mask(x));
  }

  /** Bit x of row y is set exactly when the body is on node (2x, 2y). */
  ghost predicate Marks(rows: seq<bv16>, body: seq<Point>) {
    |rows| == 8 &&
    forall y, x :: 0 <= y < 8 && 0 <= x < 16 ==> (HasBit(rows[y], Mask(x)) <==> Point(2 * x, 2 * y) in body)
  }

  lemma {:induction false} MarkedBit(row: bv16, x: nat, u: nat, was: bool)
    requires x < 16 && (HasBit(row, Mask(u)) <==> was)
    ensures HasBit(row | Mask(x), Mask(u)) <==> was || x == u
  {
    if x == u {
      SetsOwn(row, x);
    } else {
      SparesOthers(row, x, u);
    }
  }

  lemma {:induction false} MarkedNode(rows: seq<bv16>, body: seq<Point>, x: nat, y: nat, row: bv16)
    requires Marks(rows, body) && x < 16 && y < 8 && row == rows[y] | Mask(x)
    ensures Marks(rows[y := row], body + [Point(2 * x, 2 * y)])
  {
    var p, marked := Point(2 * x, 2 * y), rows[y := row];
    forall v, u | 0 <= v < 8 && 0 <= u < 16
      ensures HasBit(marked[v], Mask(u)) <==> Point(2 * u, 2 * v) in body + [p]
    {
      MarkOf(rows, body, u, v);
      if v == y {
        MarkedBit(rows[y], x, u, Point(2 * u, 2 * y) in body);
        assert marked[v] == row;
      } else {
        assert marked[v] == rows[v];
      }
    }
  }

  lemma {:induction false} MarkOf(rows: seq<bv16>, body: seq<Point>, x: nat, y: nat)
    requires Marks(rows, body) && x < 16 && y < 8
    ensures HasBit(rows[y], Mask(x)) <==> Point(2 * x, 2 * y) in body
  {
  }

  lemma {:induction false} NothingMarked(rows: seq<bv16>)
    requires |rows| == 8 && forall y :: 0 <= y < 8 ==> rows[y] == 0
    ensures Marks(rows, [])
  {
    forall y, x | 0 <= y < 8 && 0 <= x < 16
      ensures !HasBit(rows[y], Mask(x))
    {
      NoBits(Mask(x));
    }
  }

  lemma {:induction false} NoBits(m: bv16)
    ensures !HasBit(0, m)
  {
  }

  lemma {:induction false} MarkedEdge(rows: seq<bv16>, body: seq<Point>, p: Point)
    requires Marks(rows, body) && !IsNode(p)
    ensures Marks(rows, body + [p])
  {
    forall y, x | 0 <= y < 8 && 0 <= x < 16
      ensures HasBit(rows[y], Mask(x)) <==> Point(2 * x, 2 * y) in body + [p]
    {
      assert IsNode(Point(2 * x, 2 * y));
    }
  }

  lemma {:induction false} NextNode(body: seq<Point>, x: nat, y: nat, i: nat)
    requires x < 16 && y < 8 && i == 16 * y + x
    ensures var p, free, all := Point(2 * x, 2 * y), FreeNodes(body, i), FreeNodes(body, NODES);
            && (p in body ==> |FreeNodes(body, i + 1)| == |free|)
            && (p !in body ==> |FreeNodes(body, i + 1)| == |free| + 1
                               && |free| < |all| && all[|free|] == p)
  {
    assert Node(i) == Point(2 * x, 2 * y);
    FreeNodesPrefix(body, i + 1, NODES);
  }

  lemma {:induction false} FreeNodesPrefix(body: seq<Point>, m: nat, n: nat)
    requires m <= n
    ensures FreeNodes(body, m) <= FreeNodes(body, n)
  {
    if m < n {
      FreeNodesPrefix(body, m, n - 1);
    }
  }

  class SnakeState {
    const points: array<Point>
    var len: nat
    var movement: Direction
    var wanted: Direction
    var fruit: Point
    var state: GameState

    ghost function Model(): Snake
      requires points.Length == MAX_SNAKE_LEN && len <= MAX_SNAKE_LEN
      reads this, points
    {
      Snake(points[..if len < MAX_SNAKE_LEN then len else MAX_SNAKE_LEN - 1], len, movement, wanted, fruit, state)
    }

    ghost predicate Valid()
      reads this, points
    {
      points.Length == MAX_SNAKE_LEN && len <= MAX_SNAKE_LEN && Good(Model())
    }

    constructor ()
      ensures Valid() && fresh(points) && Model() == Start()
    {
      points := new Point[MAX_SNAKE_LEN];
      len, movement, wanted, fruit, state := 7, Right, Right, Point(18, 6), Life;
      new;
      InitGame();
    }

    /** Seven cells in a row in the upper left, heading right, and a first fruit ahead. */
    method InitGame()
      requires points.Length == MAX_SNAKE_LEN
      modifies this, points
      ensures Valid() && Model() == Start()
      ensures len == 7 && movement == wanted == Right && fruit == Point(18, 6) && state == Life
      ensures forall i :: 0 <= i < 7 ==> points[i] == Point(8 - i, 6)
    {
      points[0], points[1], points[2], points[3] := Point(8, 6), Point(7, 6), Point(6, 6), Point(5, 6);
      points[4], points[5], points[6] := Point(4, 6), Point(3, 6), Point(2, 6);
      len := 7;
      movement := Right;
      wanted := Right;
      fruit := Point(18, 6);
      state := Life;
      StartIsGood();
      assert points[..7] == Start().body;
    }

    method MarkNode(buffer: array<bv16>, x: nat, y: nat, ghost body: seq<Point>)
      requires Marks(buffer[..], body) && x < 16 && y < 8
      modifies buffer
      ensures Marks(buffer[..], body + [Point(2 * x, 2 * y)])
    {
      ghost var rows := buffer[..];
      var row := buffer[y] | Mask(x);
      MarkedNode(rows, body, x, y, row);
      buffer[y] := row;
      assert buffer[..] == rows[y := row];
    }

    /** Counts and marks the nodes the snake uses. */
    method MarkUsed(buffer: array<bv16>) returns (empty: int)
      requires points.Length == MAX_SNAKE_LEN && len < MAX_SNAKE_LEN && IsPath(points[..len])
      requires Marks(buffer[..], [])
      modifies buffer
      ensures Marks(buffer[..], points[..len]) && empty == |FreeNodes(points[..len], NODES)| >= 2
    {
      empty := NODES;
      ghost var body := points[..len];
      var i := 0;
      while i < len
        invariant 0 <= i <= len && points[..len] == body
        invariant Marks(buffer[..], body[..i]) && empty == NODES - NodeCount(body[..i])
      {
        var p := points[i];
        assert p == body[i] && p in body;
        assert body[..i + 1] == body[..i] + [p] && body[..i + 1][..i] == body[..i];
        if p.x % 2 != 0 || p.y % 2 != 0 {
          MarkedEdge(buffer[..], body[..i], p);
        } else {
          MarkNode(buffer, p.x / 2, p.y / 2, body[..i]);
          assert Point(2 * (p.x / 2), 2 * (p.y / 2)) == p;
          empty := empty - 1;
        }
        i := i + 1;
      }
      assert body[..len] == body;
      SomeNodeIsFree(body);
    }

    /** Tests the bit of node `i`: set, it leaves the count of free nodes behind, clear, it is the next free node. */
    method IsMarked(buffer: array<bv16>, mask: bv16, x: nat, y: nat, ghost body: seq<Point>, ghost i: nat)
      returns (used: bool)
      requires Marks(buffer[..], body) && x < 16 && y < 8 && mask == Mask(x) && i == 16 * y + x
      ensures used ==> |FreeNodes(body, i + 1)| == |FreeNodes(body, i)|
      ensures !used ==>
                && |FreeNodes(body, i + 1)| == |FreeNodes(body, i)| + 1 <= |FreeNodes(body, NODES)|
                && FreeNodes(body, NODES)[|FreeNodes(body, i)|] == Point(x * 2, y * 2)
    {
      MarkOf(buffer[..], body, x, y);
      used := HasBit(buffer[y], mask);
      NextNode(body, x, y, i);
    }

    /** Runs through row `y` with `newFruit` clear bits still to skip, `n` nodes being behind. */
    method SkipInRow(buffer: array<bv16>, y: nat, newFruit: nat, ghost body: seq<Point>, ghost n: nat)
      returns (found: bool, p: Point, left: nat)
      requires Marks(buffer[..], body) && y < 8 && n == 16 * y
      ensures var skip := newFruit + |FreeNodes(body, n)|;
              if found then skip < |FreeNodes(body, NODES)| && p == FreeNodes(body, NODES)[skip]
              else skip == left + |FreeNodes(body, n + 16)|
    {
      found, p, left := false, Point(0, 0), newFruit;
      var x, mask := 0, 1 as bv16;
      ghost var free := |FreeNodes(body, n)|;
      ghost var i, skip := n, newFruit + free;
      while x < 16
        invariant 0 <= x <= 16 && mask == Mask(x) && i == n + x
        invariant skip == left + free && free == |FreeNodes(body, i)|
      {
        var used := IsMarked(buffer, mask, x, y, body, i);
        if !used {
          if left == 0 {
            found, p := true, Point(x * 2, y * 2);
            return;
          }
          left, free := left - 1, free + 1;
        }
        mask := NextMask(mask, x);
        x, i := x + 1, i + 1;
      }
    }

    /** Skips `skip` clear bits of the bitmap, row by row, and returns the node of the next one. */
    method SelectClear(buffer: array<bv16>, skip: nat, ghost body: seq<Point>) returns (p: Point)
      requires Marks(buffer[..], body) && skip < |FreeNodes(body, NODES)|
      ensures p == FreeNodes(body, NODES)[skip]
    {
      var newFruit: nat := skip;
      var found, y := false, 0;
      p := Point(0, 0);
      ghost var n, behind := 0, 0;
      while y < 8
        invariant 0 <= y <= 8 && n == 16 * y
        invariant behind == |FreeNodes(body, n)| && skip == newFruit + behind
      {
        found, p, newFruit := SkipInRow(buffer, y, newFruit, body, n);
        if found {
          return;
        }
        y, n, behind := y + 1, n + 16, skip - newFruit;
      }
      assert false;
    }

    /** Draws a free node. */
    method GetNewFruit(draw: nat) returns (p: Point)
      requires points.Length == MAX_SNAKE_LEN && len < MAX_SNAKE_LEN && IsPath(points[..len])
      ensures FreeNodes(points[..len], NODES) != [] && p == Drawn(points[..len], draw)
    {
      ghost var body := points[..len];
      var buffer := new bv16[8](_ => 0);
      NothingMarked(buffer[..]);
      var empty := MarkUsed(buffer);
      assert body == points[..len];
      p := SelectClear(buffer, draw % empty, body);
    }

    method CollidesWithTail(p: Point) returns (hit: bool)
      requires len <= points.Length
      ensures hit <==> p in points[..len]
    {
      var i := 0;
      while i < len
        invariant 0 <= i <= len && p !in points[..i]
      {
        if points[i].x == p.x && points[i].y == p.y {
          assert points[..len][i] == p;
          return true;
        }
        i := i + 1;
      }
      return false;
    }

    /** Shifts the first `len` points up by one place, inside the array, and puts the new head in front. */
    method MoveSnake(p: Point)
      requires len < points.Length
      modifies points
      ensures points[..len + 1] == [p] + old(points[..len])
      ensures points[len + 1..] == old(points[len + 1..])
    {
      forall i | 0 <= i < len {
        points[i + 1] := points[i];
      }
      points[0] := p;
    }

    method GetTurn() returns (d: Direction)
      ensures d == Turned(movement, wanted)
    {
      match movement {
        case Up => d := match wanted case Right => Right case Left => Left case _ => movement;
        case Right => d := match wanted case Up => Up case Down => Down case _ => movement;
        case Down => d := match wanted case Right => Right case Left => Left case _ => movement;
        case Left => d := match wanted case Up => Up case Down => Down case _ => movement;
      }
    }

    /** Turns at a node, and says where the head would go. */
    method Steer() returns (p: Point)
      requires Valid()
      modifies this`movement
      ensures p == Target(old(Model())) && movement == Heading(old(Model()))
      ensures Model().body == old(Model().body)
    {
      if points[0].x % 2 == 0 && points[0].y % 2 == 0 {
        movement := GetTurn();
      }
      p := Ahead(points[0], movement);
    }

    /** Grows if the head meets the fruit, and moves on. */
    method Advance(p: Point, draw: nat)
      requires points.Length == MAX_SNAKE_LEN && 0 < len < MAX_SNAKE_LEN
      requires IsPath(Moved(points[..len], p, true)) && IsPath(Moved(points[..len], p, false))
      modifies this`len, this`state, this`fruit, points
      ensures points.Length == MAX_SNAKE_LEN
      ensures var eats, body := p == old(fruit), old(points[..len]);
              if eats && |body| + 1 == MAX_SNAKE_LEN then
                len == MAX_SNAKE_LEN && state == GameOver && fruit == old(fruit) && points[..MAX_SNAKE_LEN - 1] == body
              else
                && len == (if eats then |body| + 1 else |body|) < MAX_SNAKE_LEN && state == old(state)
                && points[..len] == Moved(body, p, eats)
                && (if eats then FreeNodes(points[..len], NODES) != [] && fruit == Drawn(points[..len], draw)
                    else fruit == old(fruit))
    {
      ghost var body := points[..len];
      var eats := p.x == fruit.x && p.y == fruit.y;
      if eats {
        len := len + 1;
        if len >= MAX_SNAKE_LEN {
          state := GameOver;
          return;
        }
      }
      MoveSnake(p);
      assert points[..len] == points[..len + 1][..len];
      assert points[..len] == Moved(body, p, eats);
      if eats {
        fruit := GetNewFruit(draw);
      }
    }

    method ProcessGameStep(draw: nat)
      requires Valid()
      modifies this, points
      ensures Valid() && Model() == Tick(old(Model()), draw)
    {
      ghost var before := Model();
      TickKeepsGood(before, draw);
      if state == GameOver {
        return;
      }
      var p := Steer();
      if p.x > 30 || p.y > 14 {
        if state == Life {
          state := LastChance;
          return;
        } else if state == LastChance {
          state := GameOver;
          return;
        }
      } else if state == LastChance {
        state := Life;
      }
      var hit := CollidesWithTail(p);
      if hit {
        state := GameOver;
        return;
      }
      StepKeepsPath(before);
      assert points[..len] == before.body;
      Advance(p, draw);
    }
  }
}
