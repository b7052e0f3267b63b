# rustiquarium core in Dafny

rustiquarium draws an ASCII fish tank filling the terminal, with one fish
that swims from wall to wall. This project models the two pure parts of
`src/main.rs` and the one line that joins them:

- `calculate_aquarium` builds the empty tank. It is `h - 1` lines of `w`
  characters. The top and bottom lines are all `=`. Every line between them
  is `|`, then `w - 2` spaces, then `|`. This is module `Aquarium` in
  `aquarium.dfy`, together with Rust's `vec![x; n]` and `Vec::splice`,
  which the source uses to build the tank.
- `move_fish` is one tick of a bounce state machine over
  `(sprite, x, y, direction)`. A fish facing left steps left. When its
  column is already `<= 1`, it instead turns right and becomes `>`,
  staying in place for that tick. The right-facing case is the mirror
  image, with the wall at `w - 2`. This is module `FishMotion` in
  `fish_motion.dfy`, together with the fish spawned at start-up
  (`w / 2`, `h / 2`, facing right, `>`) and `Ticks`, which gives the
  fish after `n` iterations of the main loop.
- Each iteration of the main loop builds a fresh tank, moves the fish, and
  writes its sprite into the one cell `[y][x]`. This is module `Frames` in
  `frames.dfy`: `Overlay` writes the cell, `Frame` is one iteration, and
  `Animate` runs `n` iterations and collects the frames that would be
  printed.

The `usize` arithmetic of the source is modelled with `nat`. Every
unsigned subtraction is guarded by a precondition: `w >= 2` and `h >= 3`
for `calculate_aquarium`, and `w >= 2` for `move_fish`. The source would
panic or wrap outside these ranges. Each increment and decrement of the
fish column is guarded by the wall test, so it cannot overflow or
underflow.

The behaviour follows the code. The code turns the fish on the wall tick
without moving it, so a fish at column `w - 2` facing right becomes `<`
at `w - 2` and only steps left on the tick after. `src/main.rs` has one
fish with no random motion and no colour, so none of these is modelled.

## Model

| member | source | states |
|---|---|---|
| Aquarium.CalculateAquarium | src/main.rs:58-67 | for `w >= 2`, `h >= 3`: exactly `h - 1` rows of exactly `w` characters; rows 0 and `h - 2` are all `=`; every row strictly between them has `|` at columns 0 and `w - 1` and a space at every column strictly between |
| Aquarium.Repeat | src/main.rs:59-65 | `vec![x; n]` is exactly `n` elements, every one equal to `x` |
| Aquarium.Sides | src/main.rs:61-62 | the middle line built by splicing `w - 2` spaces into `w` bars has length `w`, `|` at both ends and spaces everywhere between |
| Aquarium.Splice | src/main.rs:62 | `Vec::splice(lo..hi, ins)` keeps the prefix before `lo`, puts `ins` in place of `lo..hi`, and shifts the suffix from `hi`; the length changes by `|ins| - (hi - lo)` |
| Aquarium.AquariumMatchesTankCell | src/main.rs:58-66 | the tank is a `(h - 1) x w` rectangle whose every cell equals the independent border/interior description `TankCell` |
| Aquarium.SmallestAquarium | src/main.rs:58-66 | the smallest accepted terminal (2 by 3) gives two lines of `==` and no walled line |
| Aquarium.SixByFiveAquarium | src/main.rs:58-66 | a 6 by 5 terminal gives exactly the lines `======`, `\|    \|`, `\|    \|`, `======` |
| FishMotion.Spawn | src/main.rs:34-39 | the start-up fish faces right with sprite `>`, so its sprite agrees with its direction; it sits at the integer middle of the terminal; its cell is inside the walls for `w >= 3` and on a tank row for `h >= 3` |
| FishMotion.SpawnRow | src/main.rs:37 | the start row is an interior row for `h >= 5`; for `h == 3` and `h == 4` it is the bottom border row |
| FishMotion.MoveFish | src/main.rs:70-86 | facing left at `x <= 1`: turns right, becomes `>`, keeps `x`; facing left at `x > 1`: `x` drops by one with direction and sprite kept; facing right at `x >= w - 2`: turns left, becomes `<`, keeps `x`; otherwise `x` rises by one. `y` never changes, `x` moves by at most one, and sprite/direction agreement, the `[1, w - 2]` bounds (for `w >= 3`) and the `[1, w)` bounds are all preserved |
| FishMotion.Ticks | src/main.rs:41-55 | the fish after `n` passes of the loop (each pass calls `move_fish` once, line 48) is on its starting row and at most `n` columns from its starting column |
| FishMotion.TicksAdd | src/main.rs:41-55 | running the loop `a` times and then `b` times is running it `a + b` times |
| FishMotion.TicksKeepInvariants | src/main.rs:70-86 | after any number of ticks the row is unchanged, and sprite/direction agreement, `1 <= x < w`, and (for `w >= 3`) `1 <= x <= w - 2` still hold when they held at the start |
| FishMotion.SpawnedFishStaysValid | src/main.rs:34-48 | the fish the program spawns stays on row `h / 2`, drawn consistently with its direction and within the tank's columns, after every number of loop iterations |
| FishMotion.SwimRight | src/main.rs:78-85 | a right-facing fish with `k` columns of room is, after `k` ticks, the same fish `k` columns further right |
| FishMotion.SwimLeft | src/main.rs:71-77 | a left-facing fish with `k` columns of room is, after `k` ticks, the same fish `k` columns further left |
| FishMotion.SwimRightAndTurn | src/main.rs:78-85 | a right-facing fish at `x <= w - 2` is, after `w - 1 - x` ticks, at column `w - 2` facing left as `<` |
| FishMotion.SwimLeftAndTurn | src/main.rs:71-77 | a left-facing fish at `x >= 1` is, after `x` ticks, at column 1 facing right as `>` |
| FishMotion.Period | src/main.rs:70-86 | for `w >= 3`, a fish inside the walls whose sprite agrees with its direction is back in exactly its starting state after `2 * (w - 2)` ticks |
| FishMotion.MoveCommutesWithMirror | src/main.rs:71-85 | the left branch and the right branch of the movement are reflections of each other: moving the mirrored fish gives the mirror of the moved fish |
| FishMotion.TenWideBounce | src/main.rs:78-85 | in a 10-wide terminal a fish at column 5 facing right reaches column 8 after 3 ticks, turns to `<` there on the 4th without moving, and is at column 7 after the 5th |
| Frames.Overlay | src/main.rs:50 | writing the sprite keeps the grid's shape, puts the sprite in cell `[y][x]`, and leaves every other cell unchanged |
| Frames.OverlayUndo | src/main.rs:50 | writing back the cell's previous character restores the original grid |
| Frames.OverlayIdempotent | src/main.rs:50 | writing the same sprite twice is the same as writing it once |
| Frames.Frame | src/main.rs:46-50 | one loop iteration from a fish on a tank cell yields the moved fish and a `(h - 1) x w` frame that shows the sprite at the moved fish's cell and the empty tank everywhere else |
| Frames.FrameKeepsWalls | src/main.rs:46-50 | for `w >= 3`, a fish inside the walls on a row below the top never covers the left wall, the right wall or the top border |
| Frames.NthFrame | src/main.rs:46-54 | the `k`-th printed frame is a `(h - 1) x w` rectangle showing the sprite of the fish after `k + 1` ticks at that fish's cell, which lies inside the grid, and the empty tank everywhere else |
| Frames.Animate | src/main.rs:34-55 | `n` loop iterations from the spawned fish produce exactly `n` frames, each a `(h - 1) x w` rectangle equal to the frame of the corresponding tick; the final fish is the spawned fish after `n` ticks, keeps row `h / 2`, its sprite agrees with its direction, and it is inside the walls for `w >= 3` |

## Left out

- Querying the terminal size with `term_size::dimensions` and panicking when it fails (src/main.rs:27-32) is an operating-system call. The width and height are parameters instead.
- Clearing the screen with the ANSI escape, the 100 ms `sleep`, and printing each line (src/main.rs:43-44, 52-54) are I/O and timing. The model returns the frames that would be printed.
- The main loop never ends. `Animate` runs a given number `n` of iterations, which covers every finite prefix of the run.
- The hand-written `PartialEq` for `Direction` (src/main.rs:17-21) is replaced by Dafny's built-in datatype equality, which agrees with it.
- `move_fish` also takes the terminal height, but never reads it. `FishMotion.MoveFish` omits that parameter.
- Behaviour below `w = 2` or `h = 3` is left out. There the source's unsigned subtractions panic or wrap before a frame is drawn, and the model states these bounds as preconditions.
