/**
  The single fish of the aquarium and its one-dimensional bounce: it swims
  left or right one column per tick and, on the tick it reaches a wall,
  turns around in place instead of moving.
*/
module FishMotion {

  datatype Direction = Left | Right

  /** A fish: the glyph it is drawn with, its cell, and the way it faces. */
  datatype Fish = Fish(sprite: char, x: nat, y: nat, direction: Direction)

  /** The glyph that belongs to a facing. */
  function SpriteFor(d: Direction): char
  {
    match d
    case Left => '<'
    case Right => '>'
  }

  function Flip(d: Direction): Direction
  {
    match d
    case Left => Right
    case Right => Left
  }

  /** The sprite agrees with the direction: `>` exactly when facing right. */
  predicate SpriteAgrees(f: Fish)
  {
    f.sprite == SpriteFor(f.direction)
  }

  /** The fish is strictly inside the side walls of a `w`-wide tank. */
  predicate Inside(f: Fish, w: nat)
  {
    1 <= f.x <= w - 2
  }

  /** The fish's column can be indexed in a `w`-wide line without reaching column 0. */
  predicate Indexable(f: Fish, w: nat)
  {
    1 <= f.x < w
  }

  /**
    The fish created at start-up: facing right, drawn as `>`, in the middle
    of the terminal (integer halves of width and height).
  */
  function Spawn(w: nat, h: nat): (f: Fish)
    ensures f.direction == Right && SpriteAgrees(f)
    ensures 2 * f.x <= w <= 2 * f.x + 1
    ensures 2 * f.y <= h <= 2 * f.y + 1
    ensures w >= 2 ==> Indexable(f, w)
    ensures w >= 3 ==> Inside(f, w)
    ensures h >= 3 ==> 1 <= f.y < h - 1
  {
    Fish('>', w / 2, h / 2, Right)
  }

  /**
    The start row `h / 2` is an interior row of the tank from height 5 on.
    At heights 3 and 4 it is the bottom `=` row, which the fish then covers;
    at height 3 the tank has no interior row at all.
  */
  lemma SpawnRow(w: nat, h: nat)
    requires h >= 3
    ensures h >= 5 ==> 1 <= Spawn(w, h).y <= h - 3
    ensures h <= 4 ==> Spawn(w, h).y == h - 2
  {
  }

  /**
    One tick of movement in a `w`-wide terminal. The source compares against
    the unsigned `w - 2`, so it needs `w >= 2`.
  */
  function MoveFish(f: Fish, w: nat): (r: Fish)
    requires w >= 2
    ensures r.y == f.y
    ensures f.direction == Left && f.x <= 1 ==>
              r.direction == Right && r.sprite == '>' && r.x == f.x
    ensures f.direction == Left && f.x > 1 ==>
              r.x + 1 == f.x && r.direction == f.direction && r.sprite == f.sprite
    ensures f.direction == Right && f.x >= w - 2 ==>
              r.direction == Left && r.sprite == '<' && r.x == f.x
    ensures f.direction == Right && f.x < w - 2 ==>
              r.x == f.x + 1 && r.direction == f.direction && r.sprite == f.sprite
    ensures f.x - 1 <= r.x <= f.x + 1
    ensures SpriteAgrees(f) ==> SpriteAgrees(r)
    ensures w >= 3 && Inside(f, w) ==> Inside(r, w)
    ensures Indexable(f, w) ==> Indexable(r, w)
  {
    match f.direction
    case Left =>
      if f.x <= 1 then f.(direction := Right, sprite := '>')
      else f.(x := f.x - 1)
    case Right =>
      if f.x >= w - 2 then f.(direction := Left, sprite := '<')
      else f.(x := f.x + 1)
  }

  /**
    The fish after `n` ticks of the main loop: still on its row, and at most
    `n` columns away from where it started.
  */
  function Ticks(f: Fish, w: nat, n: nat): (r: Fish)
    requires w >= 2
    ensures r.y == f.y
    ensures f.x - n <= r.x <= f.x + n
    decreases n
  {
    if n == 0 then f else MoveFish(Ticks(f, w, n - 1), w)
  }

  /** Ticking `a` times and then `b` times is ticking `a + b` times. */
  lemma {:induction false} TicksAdd(f: Fish, w: nat, a: nat, b: nat)
    requires w >= 2
    ensures Ticks(Ticks(f, w, a), w, b) == Ticks(f, w, a + b)
    decreases b
  {
    if b > 0 {
      TicksAdd(f, w, a, b - 1);
    }
  }

  /**
    Any number of ticks keeps the row, the sprite/direction agreement, an
    indexable column, and (in a tank at least three wide) the inside bounds.
  */
  lemma {:induction false} TicksKeepInvariants(f: Fish, w: nat, n: nat)
    requires w >= 2
    ensures Ticks(f, w, n).y == f.y
    ensures SpriteAgrees(f) ==> SpriteAgrees(Ticks(f, w, n))
    ensures Indexable(f, w) ==> Indexable(Ticks(f, w, n), w)
    ensures w >= 3 && Inside(f, w) ==> Inside(Ticks(f, w, n), w)
    decreases n
  {
    if n > 0 {
      TicksKeepInvariants(f, w, n - 1);
    }
  }

  /** The fish spawned at start-up stays inside and correctly drawn forever. */
  lemma SpawnedFishStaysValid(w: nat, h: nat, n: nat)
    requires w >= 2 && h >= 3
    ensures SpriteAgrees(Ticks(Spawn(w, h), w, n))
    ensures Indexable(Ticks(Spawn(w, h), w, n), w)
    ensures Ticks(Spawn(w, h), w, n).y == h / 2
    ensures w >= 3 ==> Inside(Ticks(Spawn(w, h), w, n), w)
  {
    TicksKeepInvariants(Spawn(w, h), w, n);
  }

  /** A right-facing fish with room to swim moves one column per tick. */
  lemma {:induction false} SwimRight(f: Fish, w: nat, k: nat)
    requires w >= 2
    requires f.direction == Right && f.x + k <= w - 2
    ensures Ticks(f, w, k) == f.(x := f.x + k)
    decreases k
  {
    if k > 0 {
      SwimRight(f, w, k - 1);
    }
  }

  /** A left-facing fish with room to swim moves one column per tick. */
  lemma {:induction false} SwimLeft(f: Fish, w: nat, k: nat)
    requires w >= 2
    requires f.direction == Left && f.x >= k + 1
    ensures Ticks(f, w, k) == f.(x := f.x - k)
    decreases k
  {
    if k > 0 {
      SwimLeft(f, w, k - 1);
    }
  }

  /** One tick of the loop is one call of `MoveFish`. */
  lemma OneTick(f: Fish, w: nat)
    requires w >= 2
    ensures Ticks(f, w, 1) == MoveFish(f, w)
  {
  }

  /** Reaching `g` in `a` ticks and then `e` in `b` ticks is reaching `e` in `a + b`. */
  lemma Chain(f: Fish, g: Fish, e: Fish, w: nat, a: nat, b: nat)
    requires w >= 2
    requires Ticks(f, w, a) == g && Ticks(g, w, b) == e
    ensures Ticks(f, w, a + b) == e
  {
    TicksAdd(f, w, a, b);
  }

  /** A right-facing fish swims to column `w - 2` and turns there on the next tick. */
  lemma SwimRightAndTurn(f: Fish, w: nat)
    requires w >= 2 && f.direction == Right && f.x <= w - 2
    ensures Ticks(f, w, w - 1 - f.x) == Fish('<', w - 2, f.y, Left)
  {
    var atWall := f.(x := w - 2);
    SwimRight(f, w, w - 2 - f.x);
    OneTick(atWall, w);
    Chain(f, atWall, Fish('<', w - 2, f.y, Left), w, w - 2 - f.x, 1);
  }

  /** A left-facing fish swims to column 1 and turns there on the next tick. */
  lemma SwimLeftAndTurn(f: Fish, w: nat)
    requires w >= 2 && f.direction == Left && f.x >= 1
    ensures Ticks(f, w, f.x) == Fish('>', 1, f.y, Right)
  {
    var atWall := f.(x := 1);
    SwimLeft(f, w, f.x - 1);
    OneTick(atWall, w);
    Chain(f, atWall, Fish('>', 1, f.y, Right), w, f.x - 1, 1);
  }

  /** A right-facing fish goes round the whole bounce in `2 * (w - 2)` ticks. */
  lemma PeriodFromRight(f: Fish, w: nat)
    requires w >= 3 && Inside(f, w) && f == Fish('>', f.x, f.y, Right)
    ensures Ticks(f, w, 2 * (w - 2)) == f
  {
    var turned := Fish('<', w - 2, f.y, Left);
    var back := Fish('>', 1, f.y, Right);
    SwimRightAndTurn(f, w);
    SwimLeftAndTurn(turned, w);
    Chain(f, turned, back, w, w - 1 - f.x, w - 2);
    SwimRight(back, w, f.x - 1);
    Chain(f, back, f, w, 2 * (w - 2) + 1 - f.x, f.x - 1);
  }

  /** A left-facing fish goes round the whole bounce in `2 * (w - 2)` ticks. */
  lemma PeriodFromLeft(f: Fish, w: nat)
    requires w >= 3 && Inside(f, w) && f == Fish('<', f.x, f.y, Left)
    ensures Ticks(f, w, 2 * (w - 2)) == f
  {
    var turned := Fish('>', 1, f.y, Right);
    var back := Fish('<', w - 2, f.y, Left);
    SwimLeftAndTurn(f, w);
    SwimRightAndTurn(turned, w);
    Chain(f, turned, back, w, f.x, w - 2);
    SwimLeft(back, w, w - 2 - f.x);
    Chain(f, back, f, w, f.x + w - 2, w - 2 - f.x);
  }

  /**
    In a tank at least three wide, a correctly drawn fish inside the walls
    returns to exactly its state after `2 * (w - 2)` ticks: it swims to one
    wall, turns, swims to the other, turns, and comes back.
  */
  lemma Period(f: Fish, w: nat)
    requires w >= 3 && Inside(f, w) && SpriteAgrees(f)
    ensures Ticks(f, w, 2 * (w - 2)) == f
  {
    if f.direction == Right {
      PeriodFromRight(f, w);
    } else {
      PeriodFromLeft(f, w);
    }
  }

  /**
    Helper for stating the symmetry of `MoveFish`: the fish reflected across
    the vertical centre line of a `w`-wide tank. The program never computes it.
  */
  function Mirror(f: Fish, w: nat): (r: Fish)
    requires f.x < w
    ensures r.x + f.x == w - 1 && r.y == f.y
    ensures r.direction != f.direction && SpriteAgrees(r)
  {
    Fish(SpriteFor(Flip(f.direction)), w - 1 - f.x, f.y, Flip(f.direction))
  }

  /**
    The two branches of the movement are reflections of each other: moving
    the mirrored fish is mirroring the moved fish.
  */
  lemma MoveCommutesWithMirror(f: Fish, w: nat)
    requires w >= 2 && f.x < w
    ensures MoveFish(f, w).x < w
    ensures MoveFish(Mirror(f, w), w) == Mirror(MoveFish(f, w), w)
  {
  }

  /**
    A 10-wide tank with the fish at column 5 facing right: it reaches column
    8 (`w - 2`) after three ticks, turns there on the fourth without moving,
    and swims back left from the fifth.
  */
  lemma TenWideBounce()
    ensures Ticks(Fish('>', 5, 5, Right), 10, 3) == Fish('>', 8, 5, Right)
    ensures Ticks(Fish('>', 5, 5, Right), 10, 4) == Fish('<', 8, 5, Left)
    ensures Ticks(Fish('>', 5, 5, Right), 10, 5) == Fish('<', 7, 5, Left)
  {
    var f := Fish('>', 5, 5, Right);
    SwimRight(f, 10, 3);
  }
}
