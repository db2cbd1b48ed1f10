/**
 The frame the steam renderer draws: which particle lands in which cell,
 what a correctly drawn grid looks like, and how the grid is turned into text
 (rows bottom-up, each followed by a newline).
 */
module Raster {
  import opened Numeric
  import opened Particles

  /** Particle `s` is drawn at grid row `row`, buffer column `col`: its truncated
      position lies inside `[0, width) x [0, height)` and, shifted right by
      `offset`, names that cell. */
  predicate Lands(s: ParticleState, row: int, col: int, width: nat, height: nat, offset: nat)
  {
    var c := Trunc(s.position.x);
    var r := Trunc(s.position.y);
    0 <= c < width && 0 <= r < height && r == row && c + offset == col
  }

  /** Cell `(row, col)` holds `ch` as drawn from the particles of `ps` whose ids are
      in `ids`: a space when none of them lands there, otherwise the glyph of one
      that does (which one is left open, as in the source the last one visited wins). */
  ghost predicate CellShows(ch: char, ps: map<nat, ParticleState>, ids: set<nat>,
                            row: int, col: int, width: nat, height: nat, offset: nat)
  {
    || (ch == ' ' && forall id :: id in ids && id in ps ==> !Lands(ps[id], row, col, width, height, offset))
    || (exists id :: id in ids && id in ps && Lands(ps[id], row, col, width, height, offset) && ch == ps[id].ToAscii())
  }

  /** `grid` is a frame of the particles `ps`: `height` rows of `width + offset`
      cells, each cell drawn as `CellShows` says. */
  ghost predicate IsFrame(grid: seq<seq<char>>, ps: map<nat, ParticleState>, width: nat, height: nat, offset: nat)
  {
    && |grid| == height
    && (forall r :: 0 <= r < height ==> |grid[r]| == width + offset)
    && (forall r, c :: 0 <= r < height && 0 <= c < width + offset ==>
          CellShows(grid[r][c], ps, ps.Keys, r, c, width, height, offset))
  }

  /** The text of a grid: the rows in reverse order, each followed by `'\n'`. */
  function FrameText(rows: seq<seq<char>>): (s: string)
    ensures rows != [] ==> |s| > 0 && s[|s| - 1] == '\n'
  {
    if rows == [] then [] else FrameText(rows[1..]) + rows[0] + ['\n']
  }

  /** A grid of `n` rows of `width` cells is `n * (width + 1)` characters of text. */
  lemma {:induction false} FrameTextLength(rows: seq<seq<char>>, width: nat)
    requires forall r :: 0 <= r < |rows| ==> |rows[r]| == width
    ensures |FrameText(rows)| == |rows| * (width + 1)
  {
    if rows != [] {
      FrameTextLength(rows[1..], width);
    }
  }

  /** Line `k` of the text is grid row `|rows| - 1 - k`: character `c < width` of
      the line is that row's cell `c`, and character `width` is the newline. */
  lemma {:induction false} FrameTextAt(rows: seq<seq<char>>, width: nat, k: nat, c: nat)
    requires forall r :: 0 <= r < |rows| ==> |rows[r]| == width
    requires k < |rows| && c <= width
    ensures k * (width + 1) + c < |FrameText(rows)|
    ensures FrameText(rows)[k * (width + 1) + c] == if c == width then '\n' else rows[|rows| - 1 - k][c]
  {
    var n, w1 := |rows|, width + 1;
    var prefix, line := FrameText(rows[1..]), rows[0] + ['\n'];
    FrameTextLength(rows[1..], width);
    assert |prefix| == (n - 1) * w1;
    assert FrameText(rows) == prefix + line;
    var i := k * w1 + c;
    if k < n - 1 {
      FrameTextAt(rows[1..], width, k, c);
      MulStrictBound(k, n - 1, w1, c);
      assert i < |prefix|;
      assert rows[1..][n - 2 - k] == rows[n - 1 - k];
    } else {
      assert i - |prefix| == c;
    }
  }

  /** `k * m + c < n * m` whenever `k < n` and `c < m`. */
  lemma MulStrictBound(k: nat, n: nat, m: nat, c: nat)
    requires k < n && c < m
    ensures k * m + c < n * m
  {
    assert (k + 1) * m <= n * m by {
      assert n * m == (k + 1) * m + (n - k - 1) * m;
    }
  }

  /** The rasterised frame, read as text: it has `height` lines of
      `width + offset` cells and a newline each; character `c` of line `k` is
      the cell of grid row `height - 1 - k` (the rows are printed bottom-up); it
      is the glyph of some particle landing there, or a space exactly when no
      particle lands there. */
  lemma FrameTextShows(grid: seq<seq<char>>, ps: map<nat, ParticleState>, width: nat, height: nat, offset: nat,
                       k: nat, c: nat)
    requires IsFrame(grid, ps, width, height, offset)
    requires k < height && c < width + offset
    ensures |FrameText(grid)| == height * (width + offset + 1)
    ensures k * (width + offset + 1) + width + offset < |FrameText(grid)|
    ensures var ch := FrameText(grid)[k * (width + offset + 1) + c];
      && (ch == ' ' <==> forall id :: id in ps ==> !Lands(ps[id], height - 1 - k, c, width, height, offset))
      && (ch != ' ' ==> exists id :: id in ps && Lands(ps[id], height - 1 - k, c, width, height, offset) && ch == ps[id].ToAscii())
    ensures FrameText(grid)[k * (width + offset + 1) + width + offset] == '\n'
  {
    var w := width + offset;
    FrameTextLength(grid, w);
    FrameTextAt(grid, w, k, c);
    FrameTextAt(grid, w, k, w);
    CellMeaning(grid[height - 1 - k][c], ps, height - 1 - k, c, width, height, offset);
  }

  /** A drawn cell is blank exactly when no particle lands in it, and otherwise
      holds the glyph of one that does. */
  lemma CellMeaning(ch: char, ps: map<nat, ParticleState>, row: int, col: int, width: nat, height: nat, offset: nat)
    requires CellShows(ch, ps, ps.Keys, row, col, width, height, offset)
    ensures ch == ' ' <==> forall id :: id in ps ==> !Lands(ps[id], row, col, width, height, offset)
    ensures ch != ' ' ==> exists id :: id in ps && Lands(ps[id], row, col, width, height, offset) && ch == ps[id].ToAscii()
  {
  }

  /** Culling: a particle whose truncated position is outside the grid is drawn
      nowhere. */
  lemma CulledNowhere(s: ParticleState, width: nat, height: nat, offset: nat, row: int, col: int)
    requires !(0 <= Trunc(s.position.x) < width && 0 <= Trunc(s.position.y) < height)
    ensures !Lands(s, row, col, width, height, offset)
  {
  }

  /** A visible particle makes its own cell non-blank in every frame. */
  lemma VisibleIsDrawn(grid: seq<seq<char>>, ps: map<nat, ParticleState>, width: nat, height: nat, offset: nat, id: nat)
    requires IsFrame(grid, ps, width, height, offset)
    requires id in ps
    requires 0 <= Trunc(ps[id].position.x) < width && 0 <= Trunc(ps[id].position.y) < height
    ensures var r, c := Trunc(ps[id].position.y), Trunc(ps[id].position.x) + offset;
      0 <= r < |grid| && 0 <= c < |grid[r]| && grid[r][c] != ' '
  {
    var r, c := Trunc(ps[id].position.y), Trunc(ps[id].position.x) + offset;
    assert Lands(ps[id], r, c, width, height, offset);
    assert CellShows(grid[r][c], ps, ps.Keys, r, c, width, height, offset);
  }

  /** A particle alone in its cell is drawn with its own glyph. */
  lemma SoleParticleGlyph(grid: seq<seq<char>>, ps: map<nat, ParticleState>, width: nat, height: nat, offset: nat, id: nat)
    requires IsFrame(grid, ps, width, height, offset)
    requires id in ps
    requires 0 <= Trunc(ps[id].position.x) < width && 0 <= Trunc(ps[id].position.y) < height
    requires forall j :: j in ps && j != id ==> !Lands(ps[j], Trunc(ps[id].position.y), Trunc(ps[id].position.x) + offset, width, height, offset)
    ensures var r, c := Trunc(ps[id].position.y), Trunc(ps[id].position.x) + offset;
      0 <= r < |grid| && 0 <= c < |grid[r]| && grid[r][c] == ps[id].ToAscii()
  {
    var r, c := Trunc(ps[id].position.y), Trunc(ps[id].position.x) + offset;
    assert Lands(ps[id], r, c, width, height, offset);
    assert CellShows(grid[r][c], ps, ps.Keys, r, c, width, height, offset);
  }

  /** With no particles, the frame is all spaces: nothing is left over from an
      earlier frame. */
  lemma EmptyFrameIsBlank(grid: seq<seq<char>>, width: nat, height: nat, offset: nat)
    requires IsFrame(grid, map[], width, height, offset)
    ensures forall r, c :: 0 <= r < height && 0 <= c < width + offset ==> grid[r][c] == ' '
  {
    forall r, c | 0 <= r < height && 0 <= c < width + offset
      ensures grid[r][c] == ' '
    {
      assert CellShows(grid[r][c], map[], {}, r, c, width, height, offset);
    }
  }
}
