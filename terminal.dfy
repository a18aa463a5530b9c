/** A reference terminal: what an ECMA-48 terminal does with the characters
    the canvas writes. It is the independent meaning against which the emitted
    fragments are proved.

    The screen is seen relative to the canvas: column 0 is the column the
    canvas starts in, rows count down from the canvas's first row, and no
    motion is stopped by a margin (the canvas lies inside the screen).
    Understood are graphic characters (each takes one column), the line
    feed (which the tty driver turns into carriage return and line feed),
    and the control sequences CSI P..P F without intermediate bytes (the
    subset of section 5.4 of ECMA-48 the canvas writes), among them
    CUF, CUB, CUD, CUU and SGR with the parameters 0, 1, 2, 4, 5, 7, 8, 39,
    49 and the xterm forms 38;5;N and 48;5;N. Other characters and other
    such control sequences leave the screen as it is; an ESC that begins no
    such sequence is a stray character, and what follows it is read on its
    own. */
module Terminal {
  import opened Ansi
  import opened Colors
  import opened Styles

  /** The cursor, the current colours and the set of SGR attribute codes
      in force. */
  datatype Screen = Screen(col: int, row: int, fg: Paint, bg: Paint, attrs: set<nat>)

  /** The terminal where the canvas starts: at its top-left corner, in the
      terminal's default rendition. */
  const Home: Screen := Screen(0, 0, DefaultPaint, DefaultPaint, {})

  /** Parameter bytes 03/00 to 03/15 and final bytes 04/00 to 07/14. */
  predicate IsParamByte(c: char) {
    '0' <= c <= '?'
  }

  predicate IsFinalByte(c: char) {
    '@' <= c <= '~'
  }

  predicate IsParamString(s: string) {
    forall i :: 0 <= i < |s| ==> IsParamByte(s[i])
  }

  /** The characters this terminal prints, each in one column: printable
      ASCII and everything from U+00A0 on (C0, DEL and C1 controls
      excluded). One column for every one of them is a simplification: real
      terminals give wide characters two columns and combining marks none;
      the canvas, counting runes, makes the same one. */
  predicate IsGraphic(c: char) {
    (' ' <= c <= '~') || c >= '\U{A0}'
  }

  predicate IsGraphicString(s: string) {
    forall i :: 0 <= i < |s| ==> IsGraphic(s[i])
  }

  datatype Token =
    | Print(c: char)
    | Newline
    | Control(params: string, final: char)
    | Ignored
    | Stray   // an ESC that does not begin a complete control sequence

  /** Length of the run of parameter bytes at the start of s. */
  function ParamLength(s: string): (n: nat)
    ensures n <= |s|
    decreases |s|
  {
    if s == [] || !IsParamByte(s[0]) then 0 else 1 + ParamLength(s[1..])
  }

  /** The first token of s and the number of characters it takes. */
  function Scan(s: string): (r: (Token, nat))
    requires s != []
    ensures 1 <= r.1 <= |s|
  {
    if s[0] == Esc then
      if |s| >= 2 && s[1] == '[' then
        var n := ParamLength(s[2..]);
        if 2 + n < |s| && IsFinalByte(s[2 + n]) then (Control(s[2..2 + n], s[2 + n]), 3 + n)
        else (Stray, 1)
      else (Stray, 1)
    else if s[0] == '\n' then (Newline, 1)
    else if IsGraphic(s[0]) then (Print(s[0]), 1)
    else (Ignored, 1)
  }

  /** Length of the field of s before the first ';'. */
  function FieldLength(s: string): (n: nat)
    ensures n <= |s|
    decreases |s|
  {
    if s == [] || s[0] == ';' then 0 else 1 + FieldLength(s[1..])
  }

  /** The numeric parameters of a parameter string: the ';'-separated
      fields, an empty field standing for 0. */
  function Params(s: string): (ps: seq<nat>)
    ensures |ps| >= 1
    decreases |s|
  {
    var n := FieldLength(s);
    if n == |s| then [DecimalValue(s)] else [DecimalValue(s[..n])] + Params(s[n + 1..])
  }

  /** SGR: the parameters applied left to right. */
  function Render(ps: seq<nat>, t: Screen): Screen
    decreases |ps|
  {
    if ps == [] then t
    else if ps[0] == 0 then Render(ps[1..], t.(fg := DefaultPaint, bg := DefaultPaint, attrs := {}))
    else if ps[0] in {1, 2, 4, 5, 7, 8} then Render(ps[1..], t.(attrs := t.attrs + {ps[0]}))
    else if ps[0] == 39 then Render(ps[1..], t.(fg := DefaultPaint))
    else if ps[0] == 49 then Render(ps[1..], t.(bg := DefaultPaint))
    else if (ps[0] == 38 || ps[0] == 48) && |ps| >= 3 && ps[1] == 5 && ps[2] < 0x100 then
      Render(ps[3..], if ps[0] == 38 then t.(fg := Indexed(ps[2])) else t.(bg := Indexed(ps[2])))
    else Render(ps[1..], t)
  }

  /** The effect of the control sequence CSI p f. A cursor motion moves by
      its first parameter, 0 standing for 1 as ECMA-48 prescribes. */
  function Perform(p: string, f: char, t: Screen): Screen {
    var ps := Params(p);
    var n := if ps[0] == 0 then 1 else ps[0];
    if f == CursorForward then t.(col := t.col + n)
    else if f == CursorBackward then t.(col := t.col - n)
    else if f == CursorDown then t.(row := t.row + n)
    else if f == CursorUp then t.(row := t.row - n)
    else if f == SelectGraphicRendition then Render(ps, t)
    else t
  }

  function Apply(tok: Token, t: Screen): Screen {
    match tok
    case Print(_) => t.(col := t.col + 1)
    case Newline => t.(col := 0, row := t.row + 1)
    case Control(p, f) => Perform(p, f, t)
    case Ignored => t
    case Stray => t
  }

  /** The screen after the terminal has read s. */
  function Run(s: string, t: Screen): Screen
    decreases |s|
  {
    if s == [] then t
    else
      var (tok, n) := Scan(s);
      Run(s[n..], Apply(tok, t))
  }

  /** s ends on a token boundary: every ESC in it begins a control sequence
      that is complete within s, so what follows cannot change how s reads. */
  predicate Complete(s: string)
    decreases |s|
  {
    s == [] || (var (tok, n) := Scan(s); !tok.Stray? && Complete(s[n..]))
  }

  // ----- reading a concatenation -----

  lemma {:induction false} ParamLengthAppend(s: string, b: string)
    requires ParamLength(s) < |s|
    ensures ParamLength(s + b) == ParamLength(s)
    decreases |s|
  {
    if IsParamByte(s[0]) {
      assert (s + b)[1..] == s[1..] + b;
      ParamLengthAppend(s[1..], b);
    }
  }

  /** A complete first token reads the same whatever follows it. */
  lemma ScanAppend(a: string, b: string)
    requires a != [] && !Scan(a).0.Stray?
    ensures Scan(a + b) == Scan(a)
  {
    if a[0] == Esc {
      var n := ParamLength(a[2..]);
      assert 2 + n < |a|;
      assert (a + b)[2..] == a[2..] + b;
      ParamLengthAppend(a[2..], b);
      assert (a + b)[2..2 + n] == a[2..2 + n];
    }
  }

  /** Reading a + b is reading a, then b. */
  lemma {:induction false} RunAppend(a: string, b: string, t: Screen)
    requires Complete(a)
    ensures Run(a + b, t) == Run(b, Run(a, t))
    decreases |a|
  {
    if a == [] {
      assert a + b == b;
    } else {
      var (tok, n) := Scan(a);
      ScanAppend(a, b);
      assert (a + b)[n..] == a[n..] + b;
      RunAppend(a[n..], b, Apply(tok, t));
    }
  }

  lemma {:induction false} CompleteAppend(a: string, b: string)
    requires Complete(a) && Complete(b)
    ensures Complete(a + b)
    decreases |a|
  {
    if a == [] {
      assert a + b == b;
    } else {
      var (tok, n) := Scan(a);
      ScanAppend(a, b);
      assert (a + b)[n..] == a[n..] + b;
      CompleteAppend(a[n..], b);
    }
  }

  /** Appending a complete fragment to a complete history: the result is
      complete and reads as the history followed by the fragment. */
  lemma Extend(history: string, frag: string, t: Screen)
    requires Complete(history) && Complete(frag)
    ensures Complete(history + frag)
    ensures Run(history + frag, t) == Run(frag, Run(history, t))
  {
    CompleteAppend(history, frag);
    RunAppend(history, frag, t);
  }

  /** Reading three complete pieces one after the other. */
  lemma Chain(a: string, b: string, c: string, t: Screen, t1: Screen, t2: Screen, t3: Screen)
    requires Complete(a) && Run(a, t) == t1
    requires Complete(b) && Run(b, t1) == t2
    requires Complete(c) && Run(c, t2) == t3
    ensures Complete(a + b + c) && Run(a + b + c, t) == t3
  {
    Extend(a, b, t);
    Extend(a + b, c, t);
  }

  // ----- the fragments the canvas writes -----

  lemma {:induction false} ParamLengthOf(p: string, rest: string)
    requires IsParamString(p) && rest != [] && !IsParamByte(rest[0])
    ensures ParamLength(p + rest) == |p|
    decreases |p|
  {
    if p == [] {
      assert p + rest == rest;
    } else {
      assert (p + rest)[1..] == p[1..] + rest;
      ParamLengthOf(p[1..], rest);
    }
  }

  /** A control sequence with a parameter string and a final byte is one
      complete token. */
  lemma RunCsi(p: string, f: char, t: Screen)
    requires IsParamString(p) && IsFinalByte(f)
    ensures Complete(Csi(p, f))
    ensures Run(Csi(p, f), t) == Perform(p, f, t)
  {
    var s := Csi(p, f);
    assert s[2..] == p + [f];
    ParamLengthOf(p, [f]);
    assert s[2..2 + |p|] == p;
    assert s[|p| + 3..] == [];
  }

  /** An SGR sequence renders its parameters. */
  lemma RunSgr(p: string, t: Screen)
    requires IsParamString(p)
    ensures Complete(Sgr(p))
    ensures Run(Sgr(p), t) == Render(Params(p), t)
  {
    RunCsi(p, SelectGraphicRendition, t);
  }

  lemma {:induction false} FieldLengthOf(a: string, rest: string)
    requires forall i :: 0 <= i < |a| ==> a[i] != ';'
    ensures FieldLength(a + ";" + rest) == |a|
    decreases |a|
  {
    if a != [] {
      assert (a + ";" + rest)[1..] == a[1..] + ";" + rest;
      FieldLengthOf(a[1..], rest);
    }
  }

  lemma ParamsSingle(s: string)
    requires forall i :: 0 <= i < |s| ==> s[i] != ';'
    ensures Params(s) == [DecimalValue(s)]
  {
    FieldLengthWhole(s);
  }

  lemma {:induction false} FieldLengthWhole(s: string)
    requires forall i :: 0 <= i < |s| ==> s[i] != ';'
    ensures FieldLength(s) == |s|
    decreases |s|
  {
    if s != [] {
      FieldLengthWhole(s[1..]);
    }
  }

  lemma ParamsCons(a: string, rest: string)
    requires forall i :: 0 <= i < |a| ==> a[i] != ';'
    ensures Params(a + ";" + rest) == [DecimalValue(a)] + Params(rest)
  {
    var s := a + ";" + rest;
    FieldLengthOf(a, rest);
    assert s[..|a|] == a;
    assert s[|a| + 1..] == rest;
  }

  /** A single decimal parameter reads back as the number printed. */
  lemma ParamsDecimal(n: nat)
    ensures Params(Decimal(n)) == [n]
  {
    DecimalDigits(n);
    ParamsSingle(Decimal(n));
    DecimalRoundTrip(n);
  }

  /** A motion of n >= 1 steps moves the cursor n cells in its direction. */
  lemma RunCursorMotion(n: nat, op: char, t: Screen)
    requires n >= 1 && op in {CursorForward, CursorBackward, CursorDown, CursorUp}
    ensures Complete(CursorMotion(n, op))
    ensures Run(CursorMotion(n, op), t) ==
      if op == CursorForward then t.(col := t.col + n)
      else if op == CursorBackward then t.(col := t.col - n)
      else if op == CursorDown then t.(row := t.row + n)
      else t.(row := t.row - n)
  {
    DecimalDigits(n);
    RunCsi(Decimal(n), op, t);
    ParamsDecimal(n);
  }

  lemma RunForward(n: nat, t: Screen)
    requires n >= 1
    ensures Complete(CursorMotion(n, CursorForward))
    ensures Run(CursorMotion(n, CursorForward), t) == t.(col := t.col + n)
  {
    RunCursorMotion(n, CursorForward, t);
  }

  lemma RunBackward(n: nat, t: Screen)
    requires n >= 1
    ensures Complete(CursorMotion(n, CursorBackward))
    ensures Run(CursorMotion(n, CursorBackward), t) == t.(col := t.col - n)
  {
    RunCursorMotion(n, CursorBackward, t);
  }

  lemma RunDown(n: nat, t: Screen)
    requires n >= 1
    ensures Complete(CursorMotion(n, CursorDown))
    ensures Run(CursorMotion(n, CursorDown), t) == t.(row := t.row + n)
  {
    RunCursorMotion(n, CursorDown, t);
  }

  lemma RunUp(n: nat, t: Screen)
    requires n >= 1
    ensures Complete(CursorMotion(n, CursorUp))
    ensures Run(CursorMotion(n, CursorUp), t) == t.(row := t.row - n)
  {
    RunCursorMotion(n, CursorUp, t);
  }

  /** The horizontal fragment of Move shifts the cursor's column by exactly
      the displacement, and leaves everything else as it was. */
  lemma RunHorizontal(curr: int, given: int, t: Screen)
    ensures Complete(AxisMotion(curr, given, CursorForward, CursorBackward))
    ensures Run(AxisMotion(curr, given, CursorForward, CursorBackward), t) == t.(col := t.col + (given - curr))
  {
    var m := AxisMotion(curr, given, CursorForward, CursorBackward);
    if curr < given {
      assert m == CursorMotion(given - curr, CursorForward);
      RunForward(given - curr, t);
    } else if curr > given {
      assert m == CursorMotion(curr - given, CursorBackward);
      RunBackward(curr - given, t);
    } else {
      assert m == [];
    }
  }

  /** The vertical fragment of Move shifts the cursor's row by exactly the
      displacement. */
  lemma RunVertical(curr: int, given: int, t: Screen)
    ensures Complete(AxisMotion(curr, given, CursorDown, CursorUp))
    ensures Run(AxisMotion(curr, given, CursorDown, CursorUp), t) == t.(row := t.row + (given - curr))
  {
    var m := AxisMotion(curr, given, CursorDown, CursorUp);
    if curr < given {
      assert m == CursorMotion(given - curr, CursorDown);
      RunDown(given - curr, t);
    } else if curr > given {
      assert m == CursorMotion(curr - given, CursorUp);
      RunUp(curr - given, t);
    } else {
      assert m == [];
    }
  }

  /** What Move writes takes a terminal cursor at (fromX, fromY) to
      (toX, toY), relative to wherever it stands, and changes nothing else. */
  lemma RunMotion(fromX: int, fromY: int, toX: int, toY: int, t: Screen)
    ensures Complete(Motion(fromX, fromY, toX, toY))
    ensures Run(Motion(fromX, fromY, toX, toY), t) ==
      t.(col := t.col + (toX - fromX), row := t.row + (toY - fromY))
  {
    var h := AxisMotion(fromX, toX, CursorForward, CursorBackward);
    var v := AxisMotion(fromY, toY, CursorDown, CursorUp);
    RunHorizontal(fromX, toX, t);
    RunVertical(fromY, toY, Run(h, t));
    Extend(h, v, t);
  }

  /** The screen with one channel's colour replaced. */
  function Painted(t: Screen, layer: Layer, p: Paint): Screen {
    if layer == Foreground then t.(fg := p) else t.(bg := p)
  }

  lemma DecimalValuePair(a: char, b: char)
    ensures DecimalValue([a, b]) == 10 * DigitValue(a) + DigitValue(b)
  {
    assert [a, b][..1] == [a];
    assert [a][..0] == [];
    assert DecimalValue([a]) == 10 * DecimalValue([]) + DigitValue(a);
    assert DecimalValue([a, b]) == 10 * DecimalValue([a]) + DigitValue(b);
  }

  lemma DefaultCodeParams(layer: Layer)
    ensures Params([LayerDigit(layer), '9']) == [if layer == Foreground then 39 else 49]
  {
    ParamsSingle([LayerDigit(layer), '9']);
    DecimalValuePair(LayerDigit(layer), '9');
  }

  /** The ";5;N" tail of an indexed colour code. */
  lemma PaletteParams(n: UInt8)
    ensures Params("5" + ";" + Decimal(n)) == [5, n]
  {
    ParamsCons("5", Decimal(n));
    ParamsDecimal(n);
    assert "5"[..0] == [];
    assert DecimalValue("5") == 5;
  }

  /** The fields of an indexed colour code: "d8", "5", then the index. */
  lemma IndexedCodeFields(d: char, digits: string)
    ensures [d] + "8;5;" + digits == [d, '8'] + ";" + ("5" + ";" + digits)
  {
    assert [d] + "8;5;" == [d, '8'] + ";" + "5" + ";";
  }

  lemma IndexedCodeParams(layer: Layer, n: UInt8)
    ensures Params([LayerDigit(layer)] + "8;5;" + Decimal(n)) == [if layer == Foreground then 38 else 48, 5, n]
  {
    var d := LayerDigit(layer);
    var lead := [d, '8'];
    var tail := "5" + ";" + Decimal(n);
    var code := if layer == Foreground then 38 else 48;
    IndexedCodeFields(d, Decimal(n));
    assert Params(tail) == [5, n] by {
      PaletteParams(n);
    }
    assert Params(lead + ";" + tail) == [DecimalValue(lead)] + Params(tail) by {
      ParamsCons(lead, tail);
    }
    assert DecimalValue(lead) == code by {
      DecimalValuePair(d, '8');
    }
    assert [code] + [5, n] == [code, 5, n];
  }

  lemma RunDefaultCode(layer: Layer, t: Screen)
    ensures Complete(Sgr([LayerDigit(layer), '9']))
    ensures Run(Sgr([LayerDigit(layer), '9']), t) == Painted(t, layer, DefaultPaint)
  {
    RunSgr([LayerDigit(layer), '9'], t);
    DefaultCodeParams(layer);
    var ps := [if layer == Foreground then 39 else 49];
    assert ps[1..] == [];
  }

  lemma RenderIndexed(layer: Layer, n: UInt8, t: Screen)
    ensures Render([if layer == Foreground then 38 else 48, 5, n], t) == Painted(t, layer, Indexed(n))
  {
    var ps := [if layer == Foreground then 38 else 48, 5, n];
    assert ps[3..] == [];
  }

  lemma RunIndexedCode(layer: Layer, n: UInt8, t: Screen)
    ensures Complete(Sgr([LayerDigit(layer)] + "8;5;" + Decimal(n)))
    ensures Run(Sgr([LayerDigit(layer)] + "8;5;" + Decimal(n)), t) == Painted(t, layer, Indexed(n))
  {
    var digits := Decimal(n);
    DecimalDigits(n);
    var p := [LayerDigit(layer)] + "8;5;" + digits;
    forall i | 0 <= i < |p| ensures IsParamByte(p[i]) {
      if i >= 5 {
        assert p[i] == digits[i - 5];
      }
    }
    RunSgr(p, t);
    IndexedCodeParams(layer, n);
    RenderIndexed(layer, n, t);
  }

  /** The fragment setBgFg writes sets the terminal's colour on its channel
      to the colour the request resolves to, and touches nothing else. */
  lemma RunColorCode(clr: Color, layer: Layer, index: Rgba -> UInt8, t: Screen)
    ensures Complete(ColorCode(clr, layer, index))
    ensures Run(ColorCode(clr, layer, index), t) == Painted(t, layer, Resolve(clr, index))
  {
    match Resolve(clr, index)
    case DefaultPaint => RunDefaultCode(layer, t);
    case Indexed(n) => RunIndexedCode(layer, n, t);
  }

  /** The screen after an SGR reset (when Normal is set) followed by the
      attribute codes of the style. */
  function Restyled(t: Screen, style: int): Screen {
    var base := if Has(style, StyleNormal) then t.(fg := DefaultPaint, bg := DefaultPaint, attrs := {}) else t;
    base.(attrs := base.attrs + AttributeCodes(style))
  }

  lemma RunAttribute(on: bool, code: nat, t: Screen)
    requires code in {1, 2, 4, 5, 7, 8}
    ensures Complete(Optional(on, Sgr([Digit(code)])))
    ensures Run(Optional(on, Sgr([Digit(code)])), t) == if on then t.(attrs := t.attrs + {code}) else t
  {
    if on {
      RunSgr([Digit(code)], t);
      ParamsSingle([Digit(code)]);
      assert [Digit(code)][..0] == [];
      assert Params([Digit(code)]) == [code];
    }
  }

  lemma {:induction false} RunFlagCodes(style: int, table: seq<(int, nat)>, t: Screen)
    requires IsAttributeTable(table)
    ensures Complete(FlagCodes(style, table))
    ensures Run(FlagCodes(style, table), t) == t.(attrs := t.attrs + FlagSet(style, table))
    decreases |table|
  {
    if table != [] {
      var head := Optional(Has(style, table[0].0), Sgr([Digit(table[0].1)]));
      RunAttribute(Has(style, table[0].0), table[0].1, t);
      var t1 := Run(head, t);
      RunFlagCodes(style, table[1..], t1);
      Extend(head, FlagCodes(style, table[1..]), t);
    }
  }

  /** The fragments SetStyle writes leave the terminal in the rendition the
      style names: a reset to defaults when Normal is set (which also resets
      both colours), with the style's attributes added to what was in force. */
  lemma RunStyleCodes(style: int, t: Screen)
    ensures Complete(StyleCodes(style))
    ensures Run(StyleCodes(style), t) == Restyled(t, style)
  {
    RunResetThen(Has(style, StyleNormal), FlagCodes(style, Attributes), FlagSet(style, Attributes), t) by {
      forall u: Screen ensures Complete(FlagCodes(style, Attributes)) && Run(FlagCodes(style, Attributes), u) == u.(attrs := u.attrs + FlagSet(style, Attributes)) {
        RunFlagCodes(style, Attributes, u);
      }
    }
  }

  /** An optional reset followed by fragments that add a set of attributes. */
  lemma RunResetThen(reset: bool, rest: string, codes: set<nat>, t: Screen)
    requires Complete(rest)
    requires forall u: Screen :: Run(rest, u) == u.(attrs := u.attrs + codes)
    ensures Complete(Optional(reset, Sgr("0")) + rest)
    ensures Run(Optional(reset, Sgr("0")) + rest, t) ==
      var base := if reset then t.(fg := DefaultPaint, bg := DefaultPaint, attrs := {}) else t;
      base.(attrs := base.attrs + codes)
  {
    var head := Optional(reset, Sgr("0"));
    if reset {
      RunSgr("0", t);
      ParamsSingle("0");
      assert "0"[..0] == [];
    } else {
      assert head == [];
    }
    Extend(head, rest, t);
  }

  /** Graphic text moves the cursor one column per character. */
  lemma {:induction false} RunGraphic(s: string, t: Screen)
    requires IsGraphicString(s)
    ensures Complete(s)
    ensures Run(s, t) == t.(col := t.col + |s|)
    decreases |s|
  {
    if s != [] {
      assert Scan(s) == (Print(s[0]), 1);
      RunGraphic(s[1..], t.(col := t.col + 1));
    }
  }

  /** A line feed returns to the canvas's first column on the next row. */
  lemma RunNewline(t: Screen)
    ensures Complete("\n")
    ensures Run("\n", t) == t.(col := 0, row := t.row + 1)
  {
    assert Scan("\n") == (Newline, 1);
  }
}
