/** The 64x32 monochrome framebuffer and the XOR sprite semantics of
    draw_sprite, as a transformation of framebuffer values. */
module Display {
  import opened Words

  const SCREEN_W: int := 64
  const SCREEN_H: int := 32
  const SCREEN_SURF: int := SCREEN_W * SCREEN_H

  /** The framebuffer is row-major: pixel (x, y) is cell x + y * SCREEN_W. */
  function PixelIndex(x: int, y: int): int
    requires 0 <= x < SCREEN_W && 0 <= y < SCREEN_H
  {
    x + y * SCREEN_W
  }

  /** An all-dark framebuffer, as after start-up or 00E0. */
  function Blank(): seq<bool>
  {
    seq(SCREEN_SURF, _ => false)
  }

  /** The pixel a sprite cell (row, col) lands on when the sprite's top-left
      corner is (sx, sy): coordinates wrap around the screen, never clip. */
  function Target(sx: int, sy: int, row: int, col: int): (p: int)
    ensures 0 <= p < SCREEN_SURF
  {
    PixelIndex((sx + col) % SCREEN_W, (sy + row) % SCREEN_H)
  }

  /** The sprite row and column that would land on pixel p: the inverse of
      Target, as differences modulo the screen size. */
  function RowAt(sy: int, p: int): int { (p / SCREEN_W - sy) % SCREEN_H }

  function ColAt(sx: int, p: int): int { (p % SCREEN_W - sx) % SCREEN_W }

  /** Some set bit of the sprite lands on pixel p. */
  predicate Covers(sprite: seq<U8>, sx: int, sy: int, p: int)
  {
    RowAt(sy, p) < |sprite| && ColAt(sx, p) < 8 && Bit(sprite[RowAt(sy, p)], ColAt(sx, p))
  }

  /** The framebuffer after drawing: every covered pixel is toggled. */
  function DrawScreen(screen: seq<bool>, sprite: seq<U8>, sx: int, sy: int): (r: seq<bool>)
    requires |screen| == SCREEN_SURF
    ensures |r| == SCREEN_SURF
  {
    seq(SCREEN_SURF, p requires 0 <= p < SCREEN_SURF => screen[p] != Covers(sprite, sx, sy, p))
  }

  /** Some set bit of the sprite lands on a pixel that is already lit. */
  predicate Collides(screen: seq<bool>, sprite: seq<U8>, sx: int, sy: int)
    requires |screen| == SCREEN_SURF
  {
    exists p :: 0 <= p < SCREEN_SURF && screen[p] && Covers(sprite, sx, sy, p)
  }

  /** Covers, restricted to the cells draw_sprite has visited before cell
      (row, col): it goes row by row, each row from column 0 to 7. */
  predicate CoveredBefore(sprite: seq<U8>, sx: int, sy: int, row: int, col: int, p: int)
  {
    Covers(sprite, sx, sy, p) &&
    (RowAt(sy, p) < row || (RowAt(sy, p) == row && ColAt(sx, p) < col))
  }

  /** Some cell visited before (row, col) hit a pixel lit in screen. */
  predicate HitBefore(screen: seq<bool>, sprite: seq<U8>, sx: int, sy: int, row: int, col: int)
    requires |screen| == SCREEN_SURF
  {
    exists p :: 0 <= p < SCREEN_SURF && screen[p] && CoveredBefore(sprite, sx, sy, row, col, p)
  }

  /** Two residues modulo m that differ by a multiple of m are equal. */
  lemma SameResidue(a: int, b: int, k: int, m: int)
    requires 0 <= a < m && 0 <= b < m && a == b + k * m
    ensures a == b
  {
  }

  /** Target and (RowAt, ColAt) are inverse: the cell (row, col) lands on
      exactly one pixel, and no other pixel reads back as that cell. */
  lemma TargetCell(sx: U8, sy: U8, row: int, col: int)
    requires 0 <= row < SCREEN_H && 0 <= col < SCREEN_W
    ensures 0 <= Target(sx, sy, row, col) < SCREEN_SURF
    ensures RowAt(sy, Target(sx, sy, row, col)) == row
    ensures ColAt(sx, Target(sx, sy, row, col)) == col
    ensures forall p :: 0 <= p < SCREEN_SURF && RowAt(sy, p) == row && ColAt(sx, p) == col ==>
      p == Target(sx, sy, row, col)
  {
    var x, y := (sx + col) % SCREEN_W, (sy + row) % SCREEN_H;
    var ey, ex := (sy + row) / SCREEN_H, (sx + col) / SCREEN_W;
    var q := Target(sx, sy, row, col);
    assert q / SCREEN_W == y && q % SCREEN_W == x;
    var ry, rx := (y - sy) % SCREEN_H, (x - sx) % SCREEN_W;
    assert y - sy == row - ey * SCREEN_H;
    SameResidue(ry, row, ((y - sy) / SCREEN_H) + ey, SCREEN_H);
    assert x - sx == col - ex * SCREEN_W;
    SameResidue(rx, col, ((x - sx) / SCREEN_W) + ex, SCREEN_W);
    forall p | 0 <= p < SCREEN_SURF && RowAt(sy, p) == row && ColAt(sx, p) == col
      ensures p == q
    {
      var py, px := p / SCREEN_W, p % SCREEN_W;
      assert py - sy == (py - sy) / SCREEN_H * SCREEN_H + row;
      SameResidue(py, y, (py - sy) / SCREEN_H + ey, SCREEN_H);
      assert px - sx == (px - sx) / SCREEN_W * SCREEN_W + col;
      SameResidue(px, x, (px - sx) / SCREEN_W + ex, SCREEN_W);
    }
  }

  /** Covers agrees with the loop-wise reading of draw_sprite: pixel p is
      covered exactly when some set bit (row, col) of the sprite lands on it. */
  lemma CoversIff(sprite: seq<U8>, sx: U8, sy: U8, p: int)
    requires |sprite| <= SCREEN_H && 0 <= p < SCREEN_SURF
    ensures Covers(sprite, sx, sy, p) <==>
      exists row, col :: 0 <= row < |sprite| && 0 <= col < 8 && Bit(sprite[row], col) &&
        p == Target(sx, sy, row, col)
  {
    if Covers(sprite, sx, sy, p) {
      var row, col := RowAt(sy, p), ColAt(sx, p);
      TargetCell(sx, sy, row, col);
      assert Bit(sprite[row], col) && p == Target(sx, sy, row, col);
    }
    if exists row, col :: 0 <= row < |sprite| && 0 <= col < 8 && Bit(sprite[row], col) &&
        p == Target(sx, sy, row, col) {
      var row, col :| 0 <= row < |sprite| && 0 <= col < 8 && Bit(sprite[row], col) &&
        p == Target(sx, sy, row, col);
      TargetCell(sx, sy, row, col);
    }
  }

  /** Visiting cell (row, col) adds exactly its target pixel, and only if the
      cell's bit is set: the step of draw_sprite's inner loop. */
  lemma CoverStep(sprite: seq<U8>, sx: U8, sy: U8, row: int, col: int, p: int)
    requires 0 <= row < |sprite| <= SCREEN_H && 0 <= col < 8 && 0 <= p < SCREEN_SURF
    ensures CoveredBefore(sprite, sx, sy, row, col + 1, p) ==
      (CoveredBefore(sprite, sx, sy, row, col, p) ||
       (p == Target(sx, sy, row, col) && Bit(sprite[row], col)))
  {
    TargetCell(sx, sy, row, col);
  }

  /** Drawing the same sprite twice at the same place restores the framebuffer. */
  lemma DrawTwice(screen: seq<bool>, sprite: seq<U8>, sx: U8, sy: U8)
    requires |screen| == SCREEN_SURF
    ensures DrawScreen(DrawScreen(screen, sprite, sx, sy), sprite, sx, sy) == screen
  {
  }

  /** A draw changes exactly the pixels ((sx + col) % 64, (sy + row) % 32)
      of the sprite's set bits, and no other pixel. */
  lemma DrawChanges(screen: seq<bool>, sprite: seq<U8>, sx: U8, sy: U8, p: int)
    requires |screen| == SCREEN_SURF && |sprite| <= SCREEN_H && 0 <= p < SCREEN_SURF
    ensures DrawScreen(screen, sprite, sx, sy)[p] != screen[p] <==>
      exists row, col :: 0 <= row < |sprite| && 0 <= col < 8 && Bit(sprite[row], col) &&
        p == Target(sx, sy, row, col)
  {
    CoversIff(sprite, sx, sy, p);
  }

  /** Collides, read cell by cell: some set bit of the sprite lands on a lit pixel. */
  lemma CollidesIff(screen: seq<bool>, sprite: seq<U8>, sx: U8, sy: U8)
    requires |screen| == SCREEN_SURF && |sprite| <= SCREEN_H
    ensures Collides(screen, sprite, sx, sy) <==>
      exists row, col :: 0 <= row < |sprite| && 0 <= col < 8 && Bit(sprite[row], col) &&
        screen[Target(sx, sy, row, col)]
  {
    if Collides(screen, sprite, sx, sy) {
      var p :| 0 <= p < SCREEN_SURF && screen[p] && Covers(sprite, sx, sy, p);
      var row, col := RowAt(sy, p), ColAt(sx, p);
      TargetCell(sx, sy, row, col);
      assert Bit(sprite[row], col) && screen[Target(sx, sy, row, col)];
    }
    if exists row, col :: 0 <= row < |sprite| && 0 <= col < 8 && Bit(sprite[row], col) &&
        screen[Target(sx, sy, row, col)] {
      var row, col :| 0 <= row < |sprite| && 0 <= col < 8 && Bit(sprite[row], col) &&
        screen[Target(sx, sy, row, col)];
      TargetCell(sx, sy, row, col);
      assert Covers(sprite, sx, sy, Target(sx, sy, row, col));
    }
  }

  /** Redrawing collides exactly when the first draw lit some pixel; in
      particular a draw that did not collide is always followed by a
      colliding redraw, unless the sprite has no set bit at all. */
  lemma RedrawCollides(screen: seq<bool>, sprite: seq<U8>, sx: U8, sy: U8)
    requires |screen| == SCREEN_SURF
    ensures Collides(DrawScreen(screen, sprite, sx, sy), sprite, sx, sy) <==>
      exists p :: 0 <= p < SCREEN_SURF && !screen[p] && Covers(sprite, sx, sy, p)
    ensures !Collides(screen, sprite, sx, sy) ==>
      (Collides(DrawScreen(screen, sprite, sx, sy), sprite, sx, sy) <==>
       exists p :: 0 <= p < SCREEN_SURF && Covers(sprite, sx, sy, p))
  {
    var after := DrawScreen(screen, sprite, sx, sy);
    if exists p :: 0 <= p < SCREEN_SURF && !screen[p] && Covers(sprite, sx, sy, p) {
      var p :| 0 <= p < SCREEN_SURF && !screen[p] && Covers(sprite, sx, sy, p);
      assert after[p];
    }
    if !Collides(screen, sprite, sx, sy) && exists p :: 0 <= p < SCREEN_SURF && Covers(sprite, sx, sy, p) {
      var p :| 0 <= p < SCREEN_SURF && Covers(sprite, sx, sy, p);
      assert !screen[p];
    }
  }

  /** On a blank framebuffer a draw lights exactly the covered pixels and
      never collides. */
  lemma DrawOnBlank(sprite: seq<U8>, sx: U8, sy: U8)
    ensures forall p :: 0 <= p < SCREEN_SURF ==>
      DrawScreen(Blank(), sprite, sx, sy)[p] == Covers(sprite, sx, sy, p)
    ensures !Collides(Blank(), sprite, sx, sy)
  {
  }

  /** Visiting cell (row, col) adds a hit exactly when its bit is set and its
      target pixel was lit: the update of VF in draw_sprite's inner loop. */
  lemma HitStep(screen: seq<bool>, sprite: seq<U8>, sx: U8, sy: U8, row: int, col: int)
    requires |screen| == SCREEN_SURF && 0 <= row < |sprite| <= SCREEN_H && 0 <= col < 8
    ensures HitBefore(screen, sprite, sx, sy, row, col + 1) ==
      (HitBefore(screen, sprite, sx, sy, row, col) ||
       (Bit(sprite[row], col) && screen[Target(sx, sy, row, col)]))
  {
    var q := Target(sx, sy, row, col);
    if HitBefore(screen, sprite, sx, sy, row, col + 1) {
      var p :| 0 <= p < SCREEN_SURF && screen[p] && CoveredBefore(sprite, sx, sy, row, col + 1, p);
      CoverStep(sprite, sx, sy, row, col, p);
    }
    if HitBefore(screen, sprite, sx, sy, row, col) {
      var p :| 0 <= p < SCREEN_SURF && screen[p] && CoveredBefore(sprite, sx, sy, row, col, p);
      CoverStep(sprite, sx, sy, row, col, p);
    }
    if Bit(sprite[row], col) && screen[q] {
      CoverStep(sprite, sx, sy, row, col, q);
    }
  }

  /** Some bit of the sprite is set. */
  predicate HasSetBit(sprite: seq<U8>)
  {
    exists row, col :: 0 <= row < |sprite| && 0 <= col < 8 && Bit(sprite[row], col)
  }

  /** A sprite of at most SCREEN_H rows covers some pixel exactly when it has
      a set bit: no set bit is ever clipped away. */
  lemma CoversSomeIff(sprite: seq<U8>, sx: U8, sy: U8)
    requires |sprite| <= SCREEN_H
    ensures (exists p :: 0 <= p < SCREEN_SURF && Covers(sprite, sx, sy, p)) <==> HasSetBit(sprite)
  {
    if HasSetBit(sprite) {
      var row, col :| 0 <= row < |sprite| && 0 <= col < 8 && Bit(sprite[row], col);
      TargetCell(sx, sy, row, col);
      assert Covers(sprite, sx, sy, Target(sx, sy, row, col));
    }
    if exists p :: 0 <= p < SCREEN_SURF && Covers(sprite, sx, sy, p) {
      var p :| 0 <= p < SCREEN_SURF && Covers(sprite, sx, sy, p);
      assert Bit(sprite[RowAt(sy, p)], ColAt(sx, p));
    }
  }
}
