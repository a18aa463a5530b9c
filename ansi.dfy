/** The ECMA-48 control sequences the canvas writes: the control sequence
    introducer ESC '[', decimal parameters as Go's strconv.Itoa prints them,
    and the four relative cursor motions CUF, CUB, CUD and CUU of
    section 8.3 of ECMA-48. */
module Ansi {

  /** The escape character, written "\033" in canvas.go. */
  const Esc: char := '\U{1B}'

  /** Final bytes of the relative cursor motions (ECMA-48 section 8.3). */
  const CursorForward: char := 'C'   // CUF
  const CursorBackward: char := 'D'  // CUB
  const CursorDown: char := 'B'      // CUD
  const CursorUp: char := 'A'        // CUU

  /** Final byte of SGR, Select Graphic Rendition (ECMA-48 section 8.3.117). */
  const SelectGraphicRendition: char := 'm'

  predicate IsDigit(c: char) {
    '0' <= c <= '9'
  }

  predicate IsDigits(s: string) {
    forall i :: 0 <= i < |s| ==> IsDigit(s[i])
  }

  function DigitValue(c: char): nat {
    if IsDigit(c) then c as int - '0' as int else 0
  }

  function Digit(d: nat): (c: char)
    requires d < 10
    ensures IsDigit(c) && DigitValue(c) == d
  {
    ('0' as int + d) as char
  }

  /** The decimal numeral of n, most significant digit first: strconv.Itoa
      for the non-negative numbers the canvas prints. */
  function Decimal(n: nat): string
    decreases n
  {
    if n < 10 then [Digit(n)] else Decimal(n / 10) + [Digit(n % 10)]
  }

  /** A numeral is a non-empty string of digits, with no leading zero. */
  lemma {:induction false} DecimalDigits(n: nat)
    ensures |Decimal(n)| >= 1 && IsDigits(Decimal(n))
    ensures Decimal(n)[0] == '0' ==> n == 0
    decreases n
  {
    if n >= 10 {
      DecimalDigits(n / 10);
    }
  }

  /** The number a string of decimal digits denotes. */
  function DecimalValue(s: string): nat
    decreases |s|
  {
    if s == [] then 0 else 10 * DecimalValue(s[..|s| - 1]) + DigitValue(s[|s| - 1])
  }

  /** Reading back a printed numeral gives the number that was printed. */
  lemma {:induction false} DecimalRoundTrip(n: nat)
    ensures DecimalValue(Decimal(n)) == n
    decreases n
  {
    if n >= 10 {
      DecimalRoundTrip(n / 10);
      var s := Decimal(n);
      assert s[..|s| - 1] == Decimal(n / 10);
    }
  }

  /** Distinct counts give distinct numerals. */
  lemma DecimalInjective(m: nat, n: nat)
    requires Decimal(m) == Decimal(n)
    ensures m == n
  {
    DecimalRoundTrip(m);
    DecimalRoundTrip(n);
  }

  /** A control sequence: CSI, the parameter string, the final byte. */
  function Csi(params: string, final: char): string {
    [Esc, '['] + params + [final]
  }

  /** An SGR control sequence with the given parameter string. */
  function Sgr(params: string): string {
    Csi(params, SelectGraphicRendition)
  }

  /** One relative cursor motion repeated n times: the `write` closure of
      Canvas.Move, "ESC[" + strconv.Itoa(n) + op. */
  function CursorMotion(n: nat, op: char): string {
    Csi(Decimal(n), op)
  }

  /** The `move` closure of Canvas.Move along one axis: forward by the
      difference when the target lies ahead, backward when it lies behind,
      nothing when the two coincide. */
  function AxisMotion(curr: int, given: int, forward: char, backward: char): string {
    if curr < given then CursorMotion(given - curr, forward)
    else if curr > given then CursorMotion(curr - given, backward)
    else []
  }

  /** What Canvas.Move writes to go from (fromX, fromY) to (toX, toY): the
      horizontal fragment, then the vertical one. */
  function Motion(fromX: int, fromY: int, toX: int, toY: int): string {
    AxisMotion(fromX, toX, CursorForward, CursorBackward) + AxisMotion(fromY, toY, CursorDown, CursorUp)
  }

  /** A motion is one control sequence: ESC, '[', the numeral of the count,
      the final byte. */
  lemma CursorMotionShape(n: nat, op: char)
    ensures var r := CursorMotion(n, op);
      |r| >= 4 && r[0] == Esc && r[1] == '[' && r[|r| - 1] == op &&
      IsDigits(r[2..|r| - 1]) && DecimalValue(r[2..|r| - 1]) == n
  {
    DecimalDigits(n);
    DecimalRoundTrip(n);
    var r := CursorMotion(n, op);
    assert r[2..|r| - 1] == Decimal(n);
  }

  /** Along one axis the canvas writes nothing exactly when the target
      coordinate is the current one, and otherwise a sequence ending in the
      final byte of the direction that leads to the target. */
  lemma AxisMotionShape(curr: int, given: int, forward: char, backward: char)
    ensures var r := AxisMotion(curr, given, forward, backward);
      (r == [] <==> curr == given) &&
      (curr < given ==> r != [] && r[|r| - 1] == forward) &&
      (curr > given ==> r != [] && r[|r| - 1] == backward)
  {
    if curr != given {
      CursorMotionShape(if curr < given then given - curr else curr - given, if curr < given then forward else backward);
    }
  }

  /** Move writes nothing exactly when the target is the current cell. */
  lemma MotionEmpty(fromX: int, fromY: int, toX: int, toY: int)
    ensures Motion(fromX, fromY, toX, toY) == [] <==> fromX == toX && fromY == toY
  {
    AxisMotionShape(fromX, toX, CursorForward, CursorBackward);
    AxisMotionShape(fromY, toY, CursorDown, CursorUp);
  }
}
