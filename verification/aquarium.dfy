/**
  The empty tank of the aquarium: a grid of `h - 1` rows of `w` characters,
  framed by `=` rows on top and bottom and `|` walls on the left and right.
*/
module Aquarium {

  /** A rendered frame, one inner sequence per terminal line. */
  type Grid = seq<seq<char>>

  /** `n` copies of `x` (Rust's `vec![x; n]`). */
  function Repeat<T>(x: T, n: nat): (r: seq<T>)
    ensures |r| == n
    ensures forall i :: 0 <= i < n ==> r[i] == x
  {
    seq(n, _ => x)
  }

  /**
    Rust's `Vec::splice(lo..hi, ins)`: the elements `s[lo..hi]` are replaced
    by `ins`. Rust panics when `lo > hi` or `hi > |s|`, hence the requires.
  */
  function Splice<T>(s: seq<T>, lo: nat, hi: nat, ins: seq<T>): (r: seq<T>)
    requires lo <= hi <= |s|
    ensures |r| == |s| - (hi - lo) + |ins|
    ensures forall j :: 0 <= j < lo ==> r[j] == s[j]
    ensures forall j :: lo <= j < lo + |ins| ==> r[j] == ins[j - lo]
    ensures forall j :: lo + |ins| <= j < |r| ==> r[j] == s[j - lo - |ins| + hi]
  {
    s[..lo] + ins + s[hi..]
  }

  /** A middle line of the tank: `|`, then `w - 2` spaces, then `|`. */
  function Sides(w: nat): (row: seq<char>)
    requires w >= 2
    ensures |row| == w
    ensures row[0] == '|' && row[w - 1] == '|'
    ensures forall j :: 0 < j < w - 1 ==> row[j] == ' '
  {
    Splice(Repeat('|', w), 1, w - 1, Repeat(' ', w - 2))
  }

  /**
    The tank of a `w` by `h` terminal. The two subtractions `w - 2` and
    `h - 3` are unsigned in the source, so it needs `w >= 2` and `h >= 3`.
  */
  function CalculateAquarium(w: nat, h: nat): (g: Grid)
    requires w >= 2 && h >= 3
    ensures |g| == h - 1
    ensures forall i :: 0 <= i < |g| ==> |g[i]| == w
    ensures forall j :: 0 <= j < w ==> g[0][j] == '=' && g[h - 2][j] == '='
    ensures forall i :: 0 < i < h - 2 ==> g[i][0] == '|' && g[i][w - 1] == '|'
    ensures forall i, j :: 0 < i < h - 2 && 0 < j < w - 1 ==> g[i][j] == ' '
  {
    var bottomTop := Repeat('=', w);
    Splice(Repeat(bottomTop, h - 1), 1, h - 2, Repeat(Sides(w), h - 3))
  }

  /** The character at row `i`, column `j` of an empty `w` by `h` tank. */
  function TankCell(w: nat, h: nat, i: nat, j: nat): char
  {
    if i == 0 || i == h - 2 then '='
    else if j == 0 || j == w - 1 then '|'
    else ' '
  }

  /** A grid with `rows` rows, each exactly `cols` characters wide. */
  predicate Rectangular(g: Grid, rows: nat, cols: nat)
  {
    |g| == rows && forall i :: 0 <= i < |g| ==> |g[i]| == cols
  }

  /** The tank is exactly the border/interior picture `TankCell` describes. */
  lemma AquariumMatchesTankCell(w: nat, h: nat)
    requires w >= 2 && h >= 3
    ensures Rectangular(CalculateAquarium(w, h), h - 1, w)
    ensures forall i, j :: 0 <= i < h - 1 && 0 <= j < w ==>
              CalculateAquarium(w, h)[i][j] == TankCell(w, h, i, j)
  {
  }

  /** The smallest tank the source accepts: two rows of `=` and nothing between. */
  lemma SmallestAquarium()
    ensures CalculateAquarium(2, 3) == ["==", "=="]
  {
    var g := CalculateAquarium(2, 3);
    assert g[0] == "==";
    assert g[1] == "==";
  }

  /** A 6 by 5 terminal gives four lines: two `=` rows around two walled rows. */
  lemma SixByFiveAquarium()
    ensures CalculateAquarium(6, 5) == ["======", "|    |", "|    |", "======"]
  {
    var g := CalculateAquarium(6, 5);
    assert g[0] == "======";
    assert g[1] == "|    |";
    assert g[2] == "|    |";
    assert g[3] == "======";
  }
}
