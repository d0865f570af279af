/**
 * The move notation: `Fa1`, `Sc3`, `Ce5` place a flat, a wall or a
 * capstone; `3c2+12` picks up three stones from c2, steps in direction
 * '+' and drops one stone, then two.
 */
module Notation {
  import opened Stones

  /** Moves travel through the engine as their text. */
  type Move = string

  function ColChar(x: int): char
    requires 0 <= x < N
  {
    (x + 'a' as int) as char
  }

  function RowChar(y: int): char
    requires 0 <= y < N
  {
    (y + '1' as int) as char
  }

  /** `make_sqr`: the column letter and row digit of a cell. */
  function MakeSqr(x: int, y: int): (s: string)
    requires InBounds(x, y)
    ensures |s| == 2 && IsSquare(s[0], s[1]) && MakeXY(s[0], s[1]) == (x, y)
  {
    [ColChar(x), RowChar(y)]
  }

  predicate IsSquare(c: char, r: char) {
    'a' <= c <= 'e' && '1' <= r <= '5'
  }

  /** `make_xy`: letters a-e name columns 0-4, digits 1-5 rows 0-4. */
  function MakeXY(c: char, r: char): (int, int) {
    (c as int - 'a' as int, r as int - '1' as int)
  }

  lemma SquareInBounds(c: char, r: char)
    requires IsSquare(c, r)
    ensures var (x, y) := MakeXY(c, r); InBounds(x, y) && MakeSqr(x, y) == [c, r]
  {
  }

  predicate IsDigit(c: char) { '0' <= c <= '9' }

  /** `to_string(n)` for a single-digit n. */
  function Digit(n: int): (c: char)
    requires 0 <= n <= 9
    ensures IsDigit(c) && DigitValue(c) == n
  {
    (n + '0' as int) as char
  }

  /** `c - '0'`. */
  function DigitValue(c: char): int {
    c as int - '0' as int
  }

  /** The values of a run of digits, in order. */
  function DigitValues(s: string): (r: seq<int>)
    ensures |r| == |s|
    ensures forall i :: 0 <= i < |s| ==> r[i] == DigitValue(s[i])
  {
    if s == [] then [] else DigitValues(s[..|s| - 1]) + [DigitValue(s[|s| - 1])]
  }

  /** `perform_move` and `undo_move` treat a move starting with F, S or C as a placement. */
  predicate IsPlacement(m: Move) {
    |m| > 0 && (m[0] == 'F' || m[0] == 'S' || m[0] == 'C')
  }

  /** A placement: kind letter, then a square. */
  predicate PlacementText(m: Move) {
    |m| >= 3 && IsPlacement(m) && IsSquare(m[1], m[2])
  }

  /** A slide: count digit, square, direction, then one digit per drop. */
  predicate SlideText(m: Move) {
    && |m| >= 4
    && IsDigit(m[0])
    && IsSquare(m[1], m[2])
    && IsDir(m[3])
    && forall i :: 4 <= i < |m| ==> IsDigit(m[i])
  }

  /** The cell a move names (placement target or slide origin). */
  function Square(m: Move): (int, int)
    requires |m| >= 3
  {
    MakeXY(m[1], m[2])
  }

  /** The number of stones a slide picks up: `move[0] - '0'`. */
  function Count(m: Move): int
    requires |m| >= 1
  {
    DigitValue(m[0])
  }

  /** The drop counts of a slide: `move[i] - '0'` for i >= 4. */
  function Drops(m: Move): seq<int>
    requires |m| >= 4
  {
    DigitValues(m[4..])
  }

  /** The text of a slide that starts with the given count, square and direction. */
  function SlidePrefix(h: int, x: int, y: int, d: char): (s: string)
    requires 0 <= h <= 9 && InBounds(x, y)
  {
    [Digit(h)] + MakeSqr(x, y) + [d]
  }

  lemma SlidePrefixParts(h: int, x: int, y: int, d: char, rest: string)
    requires 0 <= h <= 9 && InBounds(x, y) && IsDir(d)
    requires forall i :: 0 <= i < |rest| ==> IsDigit(rest[i])
    ensures var m := SlidePrefix(h, x, y, d) + rest;
      && SlideText(m) && !IsPlacement(m)
      && Count(m) == h && Square(m) == (x, y) && m[3] == d
      && Drops(m) == DigitValues(rest)
  {
    var m := SlidePrefix(h, x, y, d) + rest;
    assert m[4..] == rest;
  }
}
