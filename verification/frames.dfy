/**
  One pass of the render loop: a fresh tank is built, the fish moves one
  tick, and its sprite is written into the single cell it occupies.
*/
module Frames {
  import opened Aquarium
  import opened FishMotion

  /** The fish's cell is a valid index into the grid. */
  predicate Fits(g: Grid, f: Fish)
  {
    f.y < |g| && f.x < |g[f.y]|
  }

  /**
    The grid with the fish's sprite written at row `f.y`, column `f.x`.
    The source indexes the grid directly, which panics outside it, so the
    cell must exist.
  */
  function Overlay(g: Grid, f: Fish): (r: Grid)
    requires Fits(g, f)
    ensures |r| == |g|
    ensures forall i :: 0 <= i < |g| ==> |r[i]| == |g[i]|
    ensures r[f.y][f.x] == f.sprite
    ensures forall i, j :: 0 <= i < |g| && 0 <= j < |g[i]| && (i != f.y || j != f.x) ==>
              r[i][j] == g[i][j]
  {
    g[f.y := g[f.y][f.x := f.sprite]]
  }

  /** Writing back the cell's old character undoes the overlay. */
  lemma OverlayUndo(g: Grid, f: Fish)
    requires Fits(g, f)
    ensures Overlay(Overlay(g, f), f.(sprite := g[f.y][f.x])) == g
  {
    var r := Overlay(Overlay(g, f), f.(sprite := g[f.y][f.x]));
    assert forall i :: 0 <= i < |g| ==> r[i] == g[i];
  }

  /** Overlaying the same fish twice is overlaying it once. */
  lemma OverlayIdempotent(g: Grid, f: Fish)
    requires Fits(g, f)
    ensures Overlay(Overlay(g, f), f) == Overlay(g, f)
  {
    var once := Overlay(g, f);
    var twice := Overlay(once, f);
    assert forall i :: 0 <= i < |g| ==> twice[i] == once[i];
  }

  /**
    One iteration of the main loop in a `w` by `h` terminal: the fish after
    one tick, and the frame that is printed. The fish must start on a cell
    of the tank, as every fish the loop ever holds does.
  */
  function Frame(f: Fish, w: nat, h: nat): (r: (Fish, Grid))
    requires w >= 2 && h >= 3
    requires f.x < w && f.y < h - 1
    ensures r.0 == MoveFish(f, w)
    ensures Rectangular(r.1, h - 1, w)
    ensures r.1[r.0.y][r.0.x] == r.0.sprite
    ensures forall i, j :: 0 <= i < h - 1 && 0 <= j < w && (i != r.0.y || j != r.0.x) ==>
              r.1[i][j] == TankCell(w, h, i, j)
  {
    AquariumMatchesTankCell(w, h);
    var moved := MoveFish(f, w);
    (moved, Overlay(CalculateAquarium(w, h), moved))
  }

  /**
    In a tank at least three wide the fish never covers a side wall, and
    the top row is never covered: only the fish's own cell differs from the
    empty tank.
  */
  lemma FrameKeepsWalls(f: Fish, w: nat, h: nat)
    requires w >= 3 && h >= 3 && Inside(f, w) && 1 <= f.y < h - 1
    ensures var (moved, g) := Frame(f, w, h);
            && (forall i :: 0 <= i < h - 1 ==> g[i][0] == TankCell(w, h, i, 0))
            && (forall i :: 0 <= i < h - 1 ==> g[i][w - 1] == TankCell(w, h, i, w - 1))
            && (forall j :: 0 <= j < w ==> g[0][j] == '=')
  {
  }

  /**
    The `k`-th printed frame (counting from zero) of a `w` by `h` run: the
    empty tank with the sprite of the fish after `k + 1` ticks at its cell.
  */
  function NthFrame(w: nat, h: nat, k: nat): (g: Grid)
    requires w >= 2 && h >= 3
    ensures Rectangular(g, h - 1, w)
    ensures var f := Ticks(Spawn(w, h), w, k + 1);
            && f.y < h - 1 && f.x < w
            && g[f.y][f.x] == f.sprite
            && forall i, j :: 0 <= i < h - 1 && 0 <= j < w && (i != f.y || j != f.x) ==>
                 g[i][j] == TankCell(w, h, i, j)
  {
    SpawnedFishStaysValid(w, h, k);
    Frame(Ticks(Spawn(w, h), w, k), w, h).1
  }

  /**
    The first `n` iterations of the main loop, starting from the fish
    spawned in the middle of the terminal. Returns the fish afterwards and
    every printed frame, in order.
  */
  method Animate(w: nat, h: nat, n: nat) returns (fish: Fish, frames: seq<Grid>)
    requires w >= 2 && h >= 3
    ensures fish == Ticks(Spawn(w, h), w, n)
    ensures |frames| == n
    ensures forall k :: 0 <= k < n ==> frames[k] == NthFrame(w, h, k)
    ensures forall k :: 0 <= k < n ==> Rectangular(frames[k], h - 1, w)
    ensures SpriteAgrees(fish) && fish.y == h / 2
    ensures w >= 3 ==> Inside(fish, w)
  {
    fish := Spawn(w, h);
    frames := [];
    var i := 0;
    while i < n
      invariant i <= n
      invariant fish == Ticks(Spawn(w, h), w, i)
      invariant Indexable(fish, w) && fish.y == h / 2 && SpriteAgrees(fish)
      invariant w >= 3 ==> Inside(fish, w)
      invariant |frames| == i
      invariant forall k :: 0 <= k < i ==> frames[k] == NthFrame(w, h, k)
      invariant forall k :: 0 <= k < i ==> Rectangular(frames[k], h - 1, w)
    {
      var (moved, grid) := Frame(fish, w, h);
      fish := moved;
      frames := frames + [grid];
      i := i + 1;
    }
  }
}
