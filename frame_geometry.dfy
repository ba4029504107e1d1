/** Frame geometry of a character sprite (`Sprite_Character#refresh_graphic`
    and `#update`): how wide and tall one frame of the sheet is, which row a
    facing direction selects, and which rectangle of the sheet is shown. */
module FrameGeometry {
  import opened Text
  import opened SpriteNames
  import opened Wrappers
  import opened StepAnimation

  /** Tile ids from this one up draw a tile graphic instead of a charset. */
  const TILE_GRAPHIC_MIN := 384

  /** The number of frame columns per direction row the name declares: one
      for a standing sheet, forty for an idle sheet, eight otherwise. */
  function FrameDivisor(name: string): (n: int)
    ensures n == 1 <==> Contains(name, STAND)
    ensures n == 40 <==> !Contains(name, STAND) && Contains(name, IDLE)
    ensures n == 8 <==> !Contains(name, STAND) && !Contains(name, IDLE)
  {
    if Contains(name, STAND) then 1 else if Contains(name, IDLE) then 40 else 8
  }

  /** Size of one frame, as `refresh_graphic` stores it in @cw and @ch. */
  datatype FrameSize = FrameSize(cw: int, ch: int)

  /** The frame size for a character: a tile graphic spans its width and
      height in tiles; a charset is cut into FrameDivisor columns and four
      rows; a character without graphic has no frame. Integer division
      truncates as Ruby's does on non-negative sizes. */
  function RefreshFrameSize(tileId: int, name: string, sheetWidth: nat, sheetHeight: nat,
                            tileWidth: nat, tileHeight: nat, widthInTiles: nat, heightInTiles: nat)
    : (r: FrameSize)
    ensures tileId >= TILE_GRAPHIC_MIN ==>
              r == FrameSize(tileWidth * widthInTiles, tileHeight * heightInTiles)
    ensures tileId < TILE_GRAPHIC_MIN && name != "" ==>
              0 <= r.cw && r.cw * FrameDivisor(name) <= sheetWidth < (r.cw + 1) * FrameDivisor(name)
              && 0 <= r.ch && 4 * r.ch <= sheetHeight < 4 * r.ch + 4
    ensures tileId < TILE_GRAPHIC_MIN && name == "" ==> r == FrameSize(0, 0)
  {
    if tileId >= TILE_GRAPHIC_MIN then FrameSize(tileWidth * widthInTiles, tileHeight * heightInTiles)
    else if name != "" then FrameSize(sheetWidth / FrameDivisor(name), sheetHeight / 4)
    else FrameSize(0, 0)
  }

  /** The sheet row for a facing direction, `(direction - 2) / 2` with Ruby's
      floor division: directions 2, 4, 6 and 8 (down, left, right, up) select
      rows 0, 1, 2 and 3. */
  function Row(direction: int): (row: int)
    ensures 2 * row + 2 <= direction < 2 * row + 4
    ensures direction == 2 ==> row == 0
    ensures direction == 4 ==> row == 1
    ensures direction == 6 ==> row == 2
    ensures direction == 8 ==> row == 3
  {
    (direction - 2) / 2
  }

  /** A rectangle of the sheet: left, top, width, height. */
  datatype Rect = Rect(x: int, y: int, w: int, h: int)

  /** The source rectangle `update` selects for a charset character (tile id
      0): column `pattern`, the direction's row, one frame in size. */
  function SrcRect(pattern: int, direction: int, size: FrameSize): (r: Rect)
    ensures r.w == size.cw && r.h == size.ch
    ensures pattern >= 0 && size.cw >= 0 ==> r.x >= 0
  {
    Rect(pattern * size.cw, Row(direction) * size.ch, size.cw, size.ch)
  }

  /** The direction codes a character can face. */
  predicate IsDirection(direction: int)
  {
    direction == 2 || direction == 4 || direction == 6 || direction == 8
  }

  /** A rectangle lies inside a sheet of the given size. */
  predicate InsideSheet(r: Rect, sheetWidth: int, sheetHeight: int)
  {
    0 <= r.x && r.x + r.w <= sheetWidth && 0 <= r.y && r.y + r.h <= sheetHeight
  }

  lemma MulLeMul(a: int, b: int, c: int)
    requires 0 <= a <= b && 0 <= c
    ensures a * c <= b * c
  {
  }

  /** For a pattern below the name's frame count and any of the four
      directions, the source rectangle lies within the sheet, whatever the
      sheet's size. */
  lemma SrcRectInsideSheet(name: string, sheetWidth: nat, sheetHeight: nat,
                           tileWidth: nat, tileHeight: nat, widthInTiles: nat, heightInTiles: nat,
                           pattern: int, direction: int)
    requires name != ""
    requires 0 <= pattern < FrameDivisor(name) && IsDirection(direction)
    ensures InsideSheet(SrcRect(pattern, direction,
                                RefreshFrameSize(0, name, sheetWidth, sheetHeight, tileWidth, tileHeight,
                                                 widthInTiles, heightInTiles)),
                        sheetWidth, sheetHeight)
  {
    var size := RefreshFrameSize(0, name, sheetWidth, sheetHeight, tileWidth, tileHeight,
                                 widthInTiles, heightInTiles);
    var r := SrcRect(pattern, direction, size);
    var d := FrameDivisor(name);
    MulLeMul(pattern + 1, d, size.cw);
    assert r.x + r.w == (pattern + 1) * size.cw;
    var row := Row(direction);
    MulLeMul(row + 1, 4, size.ch);
    assert r.y + r.h == (row + 1) * size.ch;
    MulLeMul(0, row, size.ch);
  }

  /** Two different frames of the same sheet never overlap. */
  lemma FramesDisjoint(p1: int, d1: int, p2: int, d2: int, size: FrameSize)
    requires 0 <= p1 && 0 <= p2 && IsDirection(d1) && IsDirection(d2)
    requires size.cw > 0 && size.ch > 0
    requires p1 != p2 || d1 != d2
    ensures var r1, r2 := SrcRect(p1, d1, size), SrcRect(p2, d2, size);
            r1.x + r1.w <= r2.x || r2.x + r2.w <= r1.x || r1.y + r1.h <= r2.y || r2.y + r2.h <= r1.y
  {
    if p1 < p2 {
      MulLeMul(p1 + 1, p2, size.cw);
    } else if p2 < p1 {
      MulLeMul(p2 + 1, p1, size.cw);
    } else {
      var row1, row2 := Row(d1), Row(d2);
      if row1 < row2 {
        MulLeMul(row1 + 1, row2, size.ch);
      } else {
        MulLeMul(row2 + 1, row1, size.ch);
      }
    }
  }

  /** The rectangle a sprite shows after `update`: a tile graphic shows its
      whole bitmap; a charset character (tile id 0) with a sheet shows its
      current frame; any other tile id, and a character with neither tile
      graphic nor sheet (`update` returns before touching it), leaves the
      rectangle as it was (None). */
  function ShownRect(tileId: int, name: string, pattern: int, direction: int, size: FrameSize): (r: Option<Rect>)
    ensures tileId >= TILE_GRAPHIC_MIN ==> r == Some(Rect(0, 0, size.cw, size.ch))
    ensures tileId == 0 && name != "" ==> r == Some(SrcRect(pattern, direction, size))
    ensures tileId < TILE_GRAPHIC_MIN && (tileId != 0 || name == "") ==> r == None
  {
    if tileId >= TILE_GRAPHIC_MIN then Some(Rect(0, 0, size.cw, size.ch))
    else if name == "" then None
    else if tileId == 0 then Some(SrcRect(pattern, direction, size))
    else None
  }

  /** Whatever is shown lies on the bitmap it is cut from: a tile graphic's
      whole bitmap, or a charset frame whose pattern is below the sheet's
      column count. */
  lemma ShownRectInsideSheet(tileId: int, name: string, sheetWidth: nat, sheetHeight: nat,
                             tileWidth: nat, tileHeight: nat, widthInTiles: nat, heightInTiles: nat,
                             pattern: int, direction: int)
    requires tileId >= TILE_GRAPHIC_MIN || (0 <= pattern < FrameDivisor(name) && IsDirection(direction))
    ensures var size := RefreshFrameSize(tileId, name, sheetWidth, sheetHeight, tileWidth, tileHeight,
                                         widthInTiles, heightInTiles);
            var r := ShownRect(tileId, name, pattern, direction, size);
            && (tileId >= TILE_GRAPHIC_MIN ==>
                  r.Some? && InsideSheet(r.value, tileWidth * widthInTiles, tileHeight * heightInTiles))
            && (tileId == 0 && name != "" ==> r.Some? && InsideSheet(r.value, sheetWidth, sheetHeight))
  {
    if tileId == 0 && name != "" {
      SrcRectInsideSheet(name, sheetWidth, sheetHeight, tileWidth, tileHeight, widthInTiles, heightInTiles,
                         pattern, direction);
    }
  }

  /** ASCII lower case, for the case-insensitive /offset/i test. */
  function Lower(s: string): (r: string)
    ensures |r| == |s|
    ensures forall i :: 0 <= i < |s| ==> r[i] == if 'A' <= s[i] <= 'Z' then (s[i] as int + 32) as char else s[i]
  {
    if s == [] then [] else [if 'A' <= s[0] <= 'Z' then (s[0] as int + 32) as char else s[0]] + Lower(s[1..])
  }

  /** The name asks for its frame to be drawn 16 pixels lower. */
  predicate OffsetMarked(name: string)
  {
    Contains(Lower(name), "offset")
  }

  /** The pivot (`ox`, `oy`) of a sprite after `refresh_graphic` and
      `update`, given the pivot it had: a tile graphic pivots on the middle
      of its bottom edge; a charset character on the middle of its frame,
      and with tile id 0 also on its bottom edge (16 pixels higher for names
      marked "offset") raised by the bob height; a character with neither
      keeps its pivot. */
  function Origin(tileId: int, name: string, size: FrameSize, bobHeight: int, previous: (int, int)): (r: (int, int))
    ensures tileId >= TILE_GRAPHIC_MIN ==> 2 * r.0 <= size.cw < 2 * r.0 + 2 && r.1 == size.ch
    ensures tileId < TILE_GRAPHIC_MIN && name == "" ==> r == previous
    ensures tileId < TILE_GRAPHIC_MIN && name != "" ==> 2 * r.0 <= size.cw < 2 * r.0 + 2
    ensures tileId == 0 && name != "" ==>
              r.1 + bobHeight == if OffsetMarked(name) then size.ch - 16 else size.ch
    ensures 0 < tileId < TILE_GRAPHIC_MIN && name != "" ==> r.1 == previous.1
  {
    if tileId >= TILE_GRAPHIC_MIN then (size.cw / 2, size.ch)
    else if name == "" then previous
    else if tileId == 0 then (size.cw / 2, (if OffsetMarked(name) then size.ch - 16 else size.ch) - bobHeight)
    else (size.cw / 2, previous.1)
  }

  /** The sheets the idle selector switches between are cut as the naming
      convention says: a plain name into eight columns, the same name with
      "_stand" into one, and with any idle tag into forty. */
  lemma DivisorOfEachSheet(base: string, k: IdleKind)
    requires !Contains(base, STAND) && !Contains(base, IDLE)
    ensures FrameDivisor(base) == 8
    ensures FrameDivisor(base + STAND) == 1
    ensures FrameDivisor(base + k.Tag()) == 40
  {
    assert StartsWith(STAND, STAND);
    ContainsInRight(base, STAND, STAND);
    TagHasNoStand(base, k);
    TagFacts(k);
    ContainsInRight(base, k.Tag(), IDLE);
  }

  /** Off the standing sheet, the count the step animation wraps the pattern
      at is the count the sheet is cut into; a standing sheet is cut into one
      column while the pattern still wraps at eight. */
  lemma WrapMatchesColumns(name: string)
    ensures !Contains(name, STAND) ==> FrameCount(name) == FrameDivisor(name)
    ensures Contains(name, STAND) ==> FrameDivisor(name) == 1 && FrameCount(name) >= 8
  {
  }

  /** However many ticks of the step animation run, on a sheet that is not a
      standing sheet the frame shown for any facing direction lies within the
      sheet, provided the pattern and the resting pattern start on it. */
  lemma AnimatedFrameInsideSheet(name: string, f: Frame, originalPattern: int, speed: real, ticks: seq<Tick>,
                                 sheetWidth: nat, sheetHeight: nat, direction: int)
    requires name != "" && !Contains(name, STAND) && IsDirection(direction)
    requires 0 <= f.pattern < FrameCount(name) && 0 <= originalPattern < FrameCount(name)
    ensures InsideSheet(SrcRect(Run(f, originalPattern, name, speed, ticks).pattern, direction,
                                RefreshFrameSize(0, name, sheetWidth, sheetHeight, 0, 0, 0, 0)),
                        sheetWidth, sheetHeight)
  {
    RunStaysOnSheet(f, originalPattern, name, speed, ticks);
    var p := Run(f, originalPattern, name, speed, ticks).pattern;
    SrcRectInsideSheet(name, sheetWidth, sheetHeight, 0, 0, 0, 0, p, direction);
  }

  /** Reverting from an idle sheet leaves the pattern alone (the reversion
      modifies no pattern), so a column that is on a base name's idle sheet
      can lie beyond the right edge of its movement sheet: for a sheet at
      least 64 pixels wide, any pattern from 8 to 39 is on the idle sheet and
      off the movement sheet the name reverts to. */
  lemma PatternCarriedOffSheet(base: string, k: IdleKind, pattern: int, direction: int,
                               sheetWidth: nat, sheetHeight: nat)
    requires PlainName(base) && base != "" && IsDirection(direction)
    requires 8 <= pattern < 40 && 64 <= sheetWidth
    ensures InsideSheet(SrcRect(pattern, direction, RefreshFrameSize(0, base + k.Tag(), sheetWidth, sheetHeight,
                                                                     0, 0, 0, 0)),
                        sheetWidth, sheetHeight)
    ensures NormalName(base + k.Tag()) == base
    ensures !InsideSheet(SrcRect(pattern, direction, RefreshFrameSize(0, base, sheetWidth, sheetHeight,
                                                                      0, 0, 0, 0)),
                         sheetWidth, sheetHeight)
  {
    DivisorOfEachSheet(base, k);
    SrcRectInsideSheet(base + k.Tag(), sheetWidth, sheetHeight, 0, 0, 0, 0, pattern, direction);
    RevertIdleTag(base, k);
    var size := RefreshFrameSize(0, base, sheetWidth, sheetHeight, 0, 0, 0, 0);
    assert 8 <= size.cw;
    MulLeMul(9, pattern + 1, size.cw);
    assert SrcRect(pattern, direction, size).x + size.cw == (pattern + 1) * size.cw;
  }
}
