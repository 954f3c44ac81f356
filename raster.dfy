/**
 * renderFrame in main.go: a z-buffered scan of the projected points into a
 * 30 x 60 character buffer, then row-major serialisation to text.
 *
 * The reference definition is Winner: for each cell, the index of the first
 * point that reaches the greatest depth among the points landing on it.
 * The Canvas class holds the two buffers the source updates in place and is
 * proved to agree with that definition after every point.
 */
module Raster {
  import opened Wrappers
  import opened Projection

  /** Glyph chosen for a winning depth (far/near highlight, shadow or default). */
  function Glyph(d: real): (g: char)
    ensures g == '@' || g == '*' || g == '.'
  {
    if d > 5.0 then '@' else if d < -5.0 then '.' else '*'
  }

  /** The strict depth test: a point beats an empty cell and any smaller depth value. */
  predicate Beats(d: real, cur: Option<real>)
  {
    cur.None? || d > cur.value
  }

  /** One serialised line: Width glyphs and the newline that ends it. */
  const LineLength: int := Width + 1

  /** Characters a rendered frame may contain. */
  predicate InAlphabet(ch: char)
  {
    ch == ' ' || ch == '*' || ch == '@' || ch == '.' || ch == '\n'
  }

  /**
   * The index of the point that holds cell (r, c) after the points of ps are
   * scanned in order, or None when no point reaches the cell.
   */
  function Winner(ps: seq<Screen>, r: int, c: int): (w: Option<nat>)
    ensures w.Some? ==> w.value < |ps| && Hits(ps[w.value], r, c)
    decreases |ps|
  {
    if ps == [] then None
    else
      var prev := Winner(ps[..|ps| - 1], r, c);
      var q := ps[|ps| - 1];
      if Hits(q, r, c) && (prev.None? || q.depth > ps[prev.value].depth) then Some(|ps| - 1)
      else prev
  }

  /** The depth-buffer value the scan leaves in cell (r, c). */
  function CellDepth(ps: seq<Screen>, r: int, c: int): Option<real>
  {
    match Winner(ps, r, c)
    case None => None
    case Some(k) => Some(ps[k].depth)
  }

  /** The character-buffer value the scan leaves in cell (r, c). */
  function CellGlyph(ps: seq<Screen>, r: int, c: int): char
  {
    match Winner(ps, r, c)
    case None => ' '
    case Some(k) => Glyph(ps[k].depth)
  }

  /**
   * k is the first index among the points landing on (r, c) whose depth is
   * the greatest of them all.
   */
  predicate IsFirstMax(ps: seq<Screen>, r: int, c: int, k: int)
  {
    0 <= k < |ps| && Hits(ps[k], r, c) &&
    (forall j :: 0 <= j < |ps| && Hits(ps[j], r, c) ==> ps[j].depth <= ps[k].depth) &&
    (forall j :: 0 <= j < k && Hits(ps[j], r, c) ==> ps[j].depth < ps[k].depth)
  }

  /** A cell stays empty exactly when no point lands on it. */
  lemma {:induction false} WinnerNoneIff(ps: seq<Screen>, r: int, c: int)
    ensures Winner(ps, r, c).None? <==> forall k :: 0 <= k < |ps| ==> !Hits(ps[k], r, c)
    decreases |ps|
  {
    if ps != [] {
      var init := ps[..|ps| - 1];
      WinnerNoneIff(init, r, c);
      assert forall k :: 0 <= k < |init| ==> init[k] == ps[k];
    }
  }

  /** The winner is the first point reaching the maximum depth of its cell. */
  lemma {:induction false} WinnerIsFirstMax(ps: seq<Screen>, r: int, c: int)
    ensures Winner(ps, r, c).Some? ==> IsFirstMax(ps, r, c, Winner(ps, r, c).value)
    decreases |ps|
  {
    if ps != [] {
      var init := ps[..|ps| - 1];
      var q := ps[|ps| - 1];
      WinnerIsFirstMax(init, r, c);
      WinnerNoneIff(init, r, c);
      assert forall k :: 0 <= k < |init| ==> init[k] == ps[k];
    }
  }

  /** The first maximum is unique, so it characterises Winner in both directions. */
  lemma WinnerCharacterised(ps: seq<Screen>, r: int, c: int, k: int)
    ensures Winner(ps, r, c) == Some(k) <==> IsFirstMax(ps, r, c, k)
  {
    WinnerIsFirstMax(ps, r, c);
    WinnerNoneIff(ps, r, c);
    if IsFirstMax(ps, r, c, k) {
      assert Hits(ps[k], r, c);
      var w := Winner(ps, r, c).value;
      assert IsFirstMax(ps, r, c, w);
      assert !(w < k) && !(k < w);
    }
  }

  /**
   * After the scan, a cell's depth is the greatest depth among the points
   * projected to it, and it is empty exactly when none was.
   */
  lemma CellDepthIsMax(ps: seq<Screen>, r: int, c: int)
    ensures CellDepth(ps, r, c).None? <==> forall k :: 0 <= k < |ps| ==> !Hits(ps[k], r, c)
    ensures CellDepth(ps, r, c).Some? ==>
      (exists k :: 0 <= k < |ps| && Hits(ps[k], r, c) && ps[k].depth == CellDepth(ps, r, c).value) &&
      (forall k :: 0 <= k < |ps| && Hits(ps[k], r, c) ==> ps[k].depth <= CellDepth(ps, r, c).value)
  {
    WinnerNoneIff(ps, r, c);
    WinnerIsFirstMax(ps, r, c);
  }

  /** A cell shows a blank exactly when no point was projected to it. */
  lemma CellBlankIff(ps: seq<Screen>, r: int, c: int)
    ensures CellGlyph(ps, r, c) == ' ' <==> forall k :: 0 <= k < |ps| ==> !Hits(ps[k], r, c)
  {
    WinnerNoneIff(ps, r, c);
  }

  /** A filled cell's glyph is chosen by the depth band of its winning depth. */
  lemma FilledCellBand(ps: seq<Screen>, r: int, c: int)
    requires CellDepth(ps, r, c).Some?
    ensures CellGlyph(ps, r, c) == '@' <==> CellDepth(ps, r, c).value > 5.0
    ensures CellGlyph(ps, r, c) == '.' <==> CellDepth(ps, r, c).value < -5.0
    ensures CellGlyph(ps, r, c) == '*' <==> -5.0 <= CellDepth(ps, r, c).value <= 5.0
  {
  }

  /**
   * Scanning one more point q: cell (r, c) changes only when q lands on it and
   * strictly beats its depth; then it takes q's depth and glyph.
   */
  lemma ScanStep(ps: seq<Screen>, q: Screen, r: int, c: int)
    ensures CellDepth(ps + [q], r, c) ==
      if Hits(q, r, c) && Beats(q.depth, CellDepth(ps, r, c)) then Some(q.depth) else CellDepth(ps, r, c)
    ensures CellGlyph(ps + [q], r, c) ==
      if Hits(q, r, c) && Beats(q.depth, CellDepth(ps, r, c)) then Glyph(q.depth) else CellGlyph(ps, r, c)
  {
    var qs := ps + [q];
    assert qs[..|qs| - 1] == ps;
    var prev := Winner(ps, r, c);
    if prev.Some? {
      assert qs[prev.value] == ps[prev.value];
    }
  }

  /**
   * The tie rule: a later point at exactly the cell's current depth changes
   * neither buffer, so the earlier point keeps the cell.
   */
  lemma EqualDepthKeepsEarlier(ps: seq<Screen>, q: Screen, r: int, c: int)
    requires CellDepth(ps, r, c) == Some(q.depth)
    ensures Winner(ps + [q], r, c) == Winner(ps, r, c)
  {
    var qs := ps + [q];
    assert qs[..|qs| - 1] == ps;
    var k := Winner(ps, r, c).value;
    assert qs[k] == ps[k];
  }

  /** The two buffers of one frame, updated in place. */
  class Canvas {
    const glyphs: array2<char>
    const depths: array2<Option<real>>

    ghost predicate Valid()
      reads this
    {
      glyphs.Length0 == Height && glyphs.Length1 == Width &&
      depths.Length0 == Height && depths.Length1 == Width
    }

    /** The buffers hold what scanning ps leaves in every cell. */
    ghost predicate Shows(ps: seq<Screen>)
      reads this, glyphs, depths
      requires Valid()
    {
      forall r, c :: 0 <= r < Height && 0 <= c < Width ==>
        glyphs[r, c] == CellGlyph(ps, r, c) && depths[r, c] == CellDepth(ps, r, c)
    }

    /** Allocate both buffers: every glyph blank, every depth empty. */
    constructor ()
      ensures Valid() && fresh(glyphs) && fresh(depths)
      ensures forall r, c :: 0 <= r < Height && 0 <= c < Width ==> glyphs[r, c] == ' ' && depths[r, c] == None
      ensures Shows([])
    {
      glyphs := new char[Height, Width];
      depths := new Option<real>[Height, Width];
      new;
      var i := 0;
      while i < Height
        invariant 0 <= i <= Height
        invariant forall r, c :: 0 <= r < i && 0 <= c < Width ==> glyphs[r, c] == ' '
      {
        var j := 0;
        while j < Width
          invariant 0 <= j <= Width
          invariant forall r, c :: 0 <= r < i && 0 <= c < Width ==> glyphs[r, c] == ' '
          invariant forall c :: 0 <= c < j ==> glyphs[i, c] == ' '
        {
          glyphs[i, j] := ' ';
          j := j + 1;
        }
        i := i + 1;
      }
      i := 0;
      while i < Height
        invariant 0 <= i <= Height
        invariant forall r, c :: 0 <= r < Height && 0 <= c < Width ==> glyphs[r, c] == ' '
        invariant forall r, c :: 0 <= r < i && 0 <= c < Width ==> depths[r, c] == None
      {
        var j := 0;
        while j < Width
          invariant 0 <= j <= Width
          invariant forall r, c :: 0 <= r < Height && 0 <= c < Width ==> glyphs[r, c] == ' '
          invariant forall r, c :: 0 <= r < i && 0 <= c < Width ==> depths[r, c] == None
          invariant forall c :: 0 <= c < j ==> depths[i, c] == None
        {
          depths[i, j] := None;
          j := j + 1;
        }
        i := i + 1;
      }
    }

    /**
     * One point of the scan: clip to the grid, then the strict depth test,
     * then the glyph of the depth band. Only cell (q.sy, q.sx) may change.
     */
    method Plot(q: Screen)
      requires Valid()
      modifies glyphs, depths
      ensures Valid()
      ensures forall r, c :: 0 <= r < Height && 0 <= c < Width ==>
        if Hits(q, r, c) && Beats(q.depth, old(depths[r, c]))
        then glyphs[r, c] == Glyph(q.depth) && depths[r, c] == Some(q.depth)
        else glyphs[r, c] == old(glyphs[r, c]) && depths[r, c] == old(depths[r, c])
    {
      if 0 <= q.sx < Width && 0 <= q.sy < Height {
        var cur := depths[q.sy, q.sx];
        if cur.None? || q.depth > cur.value {
          depths[q.sy, q.sx] := Some(q.depth);
          var ch := '*';
          if q.depth > 5.0 {
            ch := '@';
          } else if q.depth < -5.0 {
            ch := '.';
          }
          glyphs[q.sy, q.sx] := ch;
        }
      }
    }

    /**
     * Row-major serialisation: 30 lines of 60 glyphs, each followed by a
     * newline; character r * LineLength + c is the glyph of cell (r, c).
     */
    method Serialize() returns (s: string)
      requires Valid()
      ensures |s| == Height * LineLength
      ensures forall r, c :: 0 <= r < Height && 0 <= c < Width ==> s[r * LineLength + c] == glyphs[r, c]
      ensures forall r :: 0 <= r < Height ==> s[r * LineLength + Width] == '\n'
    {
      s := [];
      var i := 0;
      while i < Height
        invariant 0 <= i <= Height
        invariant |s| == i * LineLength
        invariant forall r, c :: 0 <= r < i && 0 <= c < Width ==> s[r * LineLength + c] == glyphs[r, c]
        invariant forall r :: 0 <= r < i ==> s[r * LineLength + Width] == '\n'
      {
        var j := 0;
        while j < Width
          invariant 0 <= j <= Width
          invariant |s| == i * LineLength + j
          invariant forall r, c :: 0 <= r < i && 0 <= c < Width ==> s[r * LineLength + c] == glyphs[r, c]
          invariant forall r :: 0 <= r < i ==> s[r * LineLength + Width] == '\n'
          invariant forall c :: 0 <= c < j ==> s[i * LineLength + c] == glyphs[i, c]
        {
          s := s + [glyphs[i, j]];
          j := j + 1;
        }
        s := s + "\n";
        i := i + 1;
      }
    }
  }

  /**
   * renderFrame with cos(angle) and sin(angle) given: the frame is 30 lines of
   * 60 characters each ended by a newline, a newline appears nowhere else,
   * every character is in the frame's alphabet, and each cell shows what the
   * reference scan leaves in it.
   */
  method RenderFrame(points: seq<Point3D>, cosA: real, sinA: real) returns (frame: string)
    ensures |frame| == Height * LineLength
    ensures forall r, c :: 0 <= r < Height && 0 <= c < Width ==>
      frame[r * LineLength + c] == CellGlyph(Screens(points, cosA, sinA), r, c)
    ensures forall i :: 0 <= i < |frame| ==> (frame[i] == '\n' <==> i % LineLength == Width)
    ensures forall i :: 0 <= i < |frame| ==> InAlphabet(frame[i])
  {
    var canvas := new Canvas();
    ghost var ps := Screens(points, cosA, sinA);
    var n := 0;
    while n < |points|
      invariant 0 <= n <= |points|
      invariant canvas.Valid()
      invariant canvas.Shows(ps[..n])
    {
      var q := Project(points[n], cosA, sinA);
      canvas.Plot(q);
      assert ps[..n + 1] == ps[..n] + [q];
      forall r, c | 0 <= r < Height && 0 <= c < Width
        ensures canvas.glyphs[r, c] == CellGlyph(ps[..n + 1], r, c)
        ensures canvas.depths[r, c] == CellDepth(ps[..n + 1], r, c)
      {
        ScanStep(ps[..n], q, r, c);
      }
      n := n + 1;
    }
    assert ps[..n] == ps;
    frame := canvas.Serialize();
    forall i | 0 <= i < |frame|
      ensures (frame[i] == '\n' <==> i % LineLength == Width) && InAlphabet(frame[i])
    {
      var r, c := i / LineLength, i % LineLength;
      assert i == r * LineLength + c;
      if c < Width {
        assert frame[i] == CellGlyph(ps, r, c);
      }
    }
  }
}
