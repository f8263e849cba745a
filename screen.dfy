/** The 64x32 monochrome framebuffer of src/display.cpp, as values: sprite
    drawing by XOR with clipping at the edges, and the collision flag. */
module Screen {

  const Width := 64
  const Height := 32
  /** Bits per sprite row: a sprite row is 8 pixels wide. */
  const SpriteWidth := 8

  /** Rows of pixels, row 0 at the top; `true` is a lit pixel. */
  type Grid = seq<seq<bool>>

  predicate WellFormed(g: Grid)
  {
    |g| == Height && forall r :: 0 <= r < Height ==> |g[r]| == Width
  }

  /** The grid with every pixel off (the constructor's m_display and clear_screen). */
  function Blank(): (g: Grid)
    ensures WellFormed(g)
    ensures forall r, c :: 0 <= r < Height && 0 <= c < Width ==> !g[r][c]
  {
    seq(Height, _ => seq(Width, _ => false))
  }

  /** Column where drawing starts: x reduced modulo the width. */
  function StartColumn(x: bv8): (c: nat)
    ensures c < Width
  {
    (x % 64) as nat
  }

  /** Row where drawing starts: y reduced modulo the height. */
  function StartRow(y: bv8): (r: nat)
    ensures r < Height
  {
    (y % 32) as nat
  }

  /** The bit of a sprite row that holds pixel j: the most significant bit
      is the leftmost pixel. */
  const BitMasks: seq<bv8> := [0x80, 0x40, 0x20, 0x10, 0x08, 0x04, 0x02, 0x01]

  /** Pixel `j` of a sprite row. */
  predicate PixelBit(row: bv8, j: nat)
    requires j < SpriteWidth
  {
    row & BitMasks[j] != 0
  }

  /** The mask test is draw_sprite's `row >> (7 - j) & 1`. */
  lemma PixelBitIsShift(row: bv8, j: bv8)
    requires j < 8
    ensures PixelBit(row, j as nat) <==> (row >> (7 - j)) & 1 == 1
  {
    var k := j as nat;
    assert BitMasks[k] == (1 as bv8) << (7 - j);
  }

  /** Whether a set sprite bit lands on cell (r, c) when the sprite is drawn
      with its top-left corner at (x0, y0): only cells inside the grid and
      inside the sprite's rectangle qualify, so nothing wraps around. */
  predicate Covers(sprite: seq<bv8>, x0: nat, y0: nat, r: int, c: int)
  {
    y0 <= r < y0 + |sprite| && r < Height &&
    x0 <= c < x0 + SpriteWidth && c < Width &&
    PixelBit(sprite[r - y0], c - x0)
  }

  /** The grid after XOR-ing the sprite in at (x0, y0). */
  function Draw(g: Grid, sprite: seq<bv8>, x0: nat, y0: nat): (d: Grid)
    requires WellFormed(g)
    ensures WellFormed(d)
  {
    seq(Height, r requires 0 <= r < Height =>
      seq(Width, c requires 0 <= c < Width => g[r][c] != Covers(sprite, x0, y0, r, c)))
  }

  /** Drawing flips exactly the cells of the sprite's rectangle whose sprite
      bit is set, clipped at the edges; every other cell keeps its value. */
  lemma DrawCells(g: Grid, sprite: seq<bv8>, x0: nat, y0: nat)
    requires WellFormed(g)
    ensures forall r, c :: 0 <= r < Height && 0 <= c < Width && !(y0 <= r < y0 + |sprite| && x0 <= c < x0 + SpriteWidth) ==>
      Draw(g, sprite, x0, y0)[r][c] == g[r][c]
    ensures forall r, c :: 0 <= r < Height && 0 <= c < Width && y0 <= r < y0 + |sprite| && x0 <= c < x0 + SpriteWidth ==>
      Draw(g, sprite, x0, y0)[r][c] == (g[r][c] != PixelBit(sprite[r - y0], c - x0))
  {
  }

  /** Whether drawing at (x0, y0) turns off a lit pixel. */
  predicate Collision(g: Grid, sprite: seq<bv8>, x0: nat, y0: nat)
    requires WellFormed(g)
  {
    exists r, c :: 0 <= r < Height && 0 <= c < Width && Covers(sprite, x0, y0, r, c) && g[r][c]
  }

  /** Whether any set sprite bit falls inside the grid. */
  predicate Visible(sprite: seq<bv8>, x0: nat, y0: nat)
  {
    exists r, c :: 0 <= r < Height && 0 <= c < Width && Covers(sprite, x0, y0, r, c)
  }

  /** Drawing the same sprite twice at the same place restores the grid. */
  lemma DrawTwice(g: Grid, sprite: seq<bv8>, x0: nat, y0: nat)
    requires WellFormed(g)
    ensures Draw(Draw(g, sprite, x0, y0), sprite, x0, y0) == g
  {
    var d := Draw(Draw(g, sprite, x0, y0), sprite, x0, y0);
    forall r | 0 <= r < Height ensures d[r] == g[r] {
      forall c | 0 <= c < Width ensures d[r][c] == g[r][c] {
      }
    }
  }

  /** Whether drawing at (x0, y0) turns on a pixel that was off. */
  predicate LightsUp(g: Grid, sprite: seq<bv8>, x0: nat, y0: nat)
    requires WellFormed(g)
  {
    exists r, c :: 0 <= r < Height && 0 <= c < Width && Covers(sprite, x0, y0, r, c) && !g[r][c]
  }

  /** The second of two identical draws reports a collision exactly when the
      first one turned some pixel on. */
  lemma SecondDrawCollides(g: Grid, sprite: seq<bv8>, x0: nat, y0: nat)
    requires WellFormed(g)
    ensures Collision(Draw(g, sprite, x0, y0), sprite, x0, y0) <==> LightsUp(g, sprite, x0, y0)
  {
    var d := Draw(g, sprite, x0, y0);
    if LightsUp(g, sprite, x0, y0) {
      var r, c :| 0 <= r < Height && 0 <= c < Width && Covers(sprite, x0, y0, r, c) && !g[r][c];
      assert d[r][c];
    }
    if Collision(d, sprite, x0, y0) {
      var r, c :| 0 <= r < Height && 0 <= c < Width && Covers(sprite, x0, y0, r, c) && d[r][c];
      assert !g[r][c];
    }
  }

  /** From a blank grid, a sprite drawn twice collides the second time exactly
      when some set bit of it lies inside the grid. */
  lemma DrawTwiceFromBlank(sprite: seq<bv8>, x0: nat, y0: nat)
    ensures Collision(Draw(Blank(), sprite, x0, y0), sprite, x0, y0) <==> Visible(sprite, x0, y0)
  {
    SecondDrawCollides(Blank(), sprite, x0, y0);
  }

  /** Drawing on a blank grid never collides. */
  lemma DrawOnBlank(sprite: seq<bv8>, x0: nat, y0: nat)
    ensures !Collision(Blank(), sprite, x0, y0)
  {
  }

  // ----- Drawing cell by cell, in the order draw_sprite visits cells -----

  /** Cell (r, c) is visited before the cell of sprite row i, bit j. */
  predicate Before(x0: nat, y0: nat, i: nat, j: nat, r: int, c: int)
  {
    r < y0 + i || (r == y0 + i && c < x0 + j)
  }

  /** Some cell visited before sprite row i, bit j was lit and covered. */
  predicate CollisionBefore(g: Grid, sprite: seq<bv8>, x0: nat, y0: nat, i: nat, j: nat)
    requires WellFormed(g)
  {
    exists r, c :: 0 <= r < Height && 0 <= c < Width &&
      Before(x0, y0, i, j, r, c) && Covers(sprite, x0, y0, r, c) && g[r][c]
  }

  /** Visiting one more cell adds that cell to the collision test. */
  lemma CollisionBeforeStep(g: Grid, sprite: seq<bv8>, x0: nat, y0: nat, i: nat, j: nat)
    requires WellFormed(g) && y0 + i < Height && x0 + j < Width
    ensures CollisionBefore(g, sprite, x0, y0, i, j + 1) <==>
      (CollisionBefore(g, sprite, x0, y0, i, j) || (Covers(sprite, x0, y0, y0 + i, x0 + j) && g[y0 + i][x0 + j]))
  {
    if CollisionBefore(g, sprite, x0, y0, i, j + 1) {
      var r, c :| 0 <= r < Height && 0 <= c < Width &&
        Before(x0, y0, i, j + 1, r, c) && Covers(sprite, x0, y0, r, c) && g[r][c];
      if !(r == y0 + i && c == x0 + j) {
        assert Before(x0, y0, i, j, r, c);
      }
    }
    if Covers(sprite, x0, y0, y0 + i, x0 + j) && g[y0 + i][x0 + j] {
      assert Before(x0, y0, i, j + 1, y0 + i, x0 + j);
    }
  }

  /** Past the last bit of a row that lands inside the grid, the rest of the
      row is not covered, so the next row starts with the same coverage. */
  lemma CoverRowEnd(sprite: seq<bv8>, x0: nat, y0: nat, i: nat, j: nat, r: int, c: int)
    requires j == SpriteWidth || x0 + j == Width
    ensures (Before(x0, y0, i, j, r, c) && Covers(sprite, x0, y0, r, c)) <==>
      (Before(x0, y0, i + 1, 0, r, c) && Covers(sprite, x0, y0, r, c))
  {
  }

  lemma CollisionRowEnd(g: Grid, sprite: seq<bv8>, x0: nat, y0: nat, i: nat, j: nat)
    requires WellFormed(g) && (j == SpriteWidth || x0 + j == Width)
    ensures CollisionBefore(g, sprite, x0, y0, i, j) <==> CollisionBefore(g, sprite, x0, y0, i + 1, 0)
  {
    if CollisionBefore(g, sprite, x0, y0, i, j) {
      var r, c :| 0 <= r < Height && 0 <= c < Width &&
        Before(x0, y0, i, j, r, c) && Covers(sprite, x0, y0, r, c) && g[r][c];
      CoverRowEnd(sprite, x0, y0, i, j, r, c);
    }
    if CollisionBefore(g, sprite, x0, y0, i + 1, 0) {
      var r, c :| 0 <= r < Height && 0 <= c < Width &&
        Before(x0, y0, i + 1, 0, r, c) && Covers(sprite, x0, y0, r, c) && g[r][c];
      CoverRowEnd(sprite, x0, y0, i, j, r, c);
    }
  }

  /** Once every sprite row has been visited, or the bottom edge reached,
      every covered cell has been visited. */
  lemma CoverDone(sprite: seq<bv8>, x0: nat, y0: nat, i: nat, r: int, c: int)
    requires i == |sprite| || y0 + i == Height
    requires r < Height
    ensures (Before(x0, y0, i, 0, r, c) && Covers(sprite, x0, y0, r, c)) <==> Covers(sprite, x0, y0, r, c)
  {
  }

  lemma CollisionDone(g: Grid, sprite: seq<bv8>, x0: nat, y0: nat, i: nat)
    requires WellFormed(g) && (i == |sprite| || y0 + i == Height)
    ensures CollisionBefore(g, sprite, x0, y0, i, 0) <==> Collision(g, sprite, x0, y0)
  {
    if Collision(g, sprite, x0, y0) {
      var r, c :| 0 <= r < Height && 0 <= c < Width && Covers(sprite, x0, y0, r, c) && g[r][c];
      CoverDone(sprite, x0, y0, i, r, c);
    }
  }

  /** The cell of sprite row i, bit j, is flipped exactly when that bit is set. */
  lemma DrawCell(g: Grid, sprite: seq<bv8>, x0: nat, y0: nat, i: nat, j: nat)
    requires WellFormed(g) && i < |sprite| && j < SpriteWidth && y0 + i < Height && x0 + j < Width
    ensures Covers(sprite, x0, y0, y0 + i, x0 + j) == PixelBit(sprite[i], j)
    ensures Draw(g, sprite, x0, y0)[y0 + i][x0 + j] == (g[y0 + i][x0 + j] != PixelBit(sprite[i], j))
  {
  }

  /** A cell no set sprite bit lands on keeps its value. */
  lemma DrawUncovered(g: Grid, sprite: seq<bv8>, x0: nat, y0: nat, r: int, c: int)
    requires WellFormed(g) && 0 <= r < Height && 0 <= c < Width && !Covers(sprite, x0, y0, r, c)
    ensures Draw(g, sprite, x0, y0)[r][c] == g[r][c]
  {
  }

  /** Before the first sprite row is visited, the drawn grid agrees with the
      original on every visited cell. */
  lemma DrawBeforeStart(g: Grid, sprite: seq<bv8>, x0: nat, y0: nat)
    requires WellFormed(g)
    ensures forall r, c :: 0 <= r < Height && 0 <= c < Width && Before(x0, y0, 0, 0, r, c) ==>
      Draw(g, sprite, x0, y0)[r][c] == g[r][c]
  {
    forall r, c | 0 <= r < Height && 0 <= c < Width && Before(x0, y0, 0, 0, r, c)
      ensures Draw(g, sprite, x0, y0)[r][c] == g[r][c]
    {
      DrawUncovered(g, sprite, x0, y0, r, c);
    }
  }

  /** Once every row has been visited, the drawn grid agrees with the
      original on every cell not yet visited. */
  lemma DrawAfterEnd(g: Grid, sprite: seq<bv8>, x0: nat, y0: nat, i: nat)
    requires WellFormed(g) && (i == |sprite| || y0 + i == Height)
    ensures forall r, c :: 0 <= r < Height && 0 <= c < Width && !Before(x0, y0, i, 0, r, c) ==>
      Draw(g, sprite, x0, y0)[r][c] == g[r][c]
  {
    forall r, c | 0 <= r < Height && 0 <= c < Width && !Before(x0, y0, i, 0, r, c)
      ensures Draw(g, sprite, x0, y0)[r][c] == g[r][c]
    {
      CoverDone(sprite, x0, y0, i, r, c);
      DrawUncovered(g, sprite, x0, y0, r, c);
    }
  }
}
