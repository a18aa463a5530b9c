/** The canvas engine: a fixed-size grid of cells drawn in-line on a
    terminal. It caches the cursor, the colours and the style it has last
    written, and for every drawing call appends to its buffer only the
    control sequences that change something; Flush hands the buffer over
    to the terminal. */
module Canvas {
  import opened Ansi
  import opened Colors
  import opened Styles
  import Terminal

  /** What Move returns: nil, or ErrorOutOfBounds. */
  datatype Status = Ok | OutOfBounds

  function Min(a: int, b: int): int {
    if a <= b then a else b
  }

  /** n blanks. */
  function Blank(n: nat): (s: string)
    ensures |s| == n
    decreases n
  {
    if n == 0 then [] else Blank(n - 1) + " "
  }

  /** Blanks are graphic: each takes one column. */
  lemma {:induction false} BlankIsGraphic(n: nat)
    ensures Terminal.IsGraphicString(Blank(n))
    decreases n
  {
    if n > 0 {
      BlankIsGraphic(n - 1);
      assert Blank(n) == Blank(n - 1) + " ";
    }
  }

  /** Go's Write cuts an over-long text at byte offset `room`; that keeps
      exactly `room` characters when each of them is a single UTF-8 byte. */
  predicate ByteSafe(text: string, room: int) {
    |text| > room ==> forall i :: 0 <= i < room && i < |text| ==> text[i] < '\U{80}'
  }

  /** What NewCanvas writes between two rows: the background reset to the
      default (so that the rest of the terminal line is not coloured), the
      line feed, and the background again. */
  function RowSeparator(background: Color, index: Rgba -> UInt8): string {
    ColorUpdate(background, ColorDefault, Layer.Background, index) + "\n" +
    ColorUpdate(ColorDefault, background, Layer.Background, index)
  }

  /** The first i rows NewCanvas writes: `width` blanks each, every row but
      the last followed by the separator. */
  function PrefillRows(width: int, height: int, separator: string, i: nat): string
    decreases i
  {
    if i == 0 then []
    else PrefillRows(width, height, separator, i - 1) + Blank(if width > 0 then width else 0) +
         (if i - 1 < height - 1 then separator else [])
  }

  /** NewCanvas's buffer after one more row. */
  lemma PrefillRowsAppend(width: int, height: int, separator: string, i: nat,
                          head: string, rowStart: string, filled: string, after: string)
    requires rowStart == head + PrefillRows(width, height, separator, i)
    requires filled == rowStart + Blank(if width > 0 then width else 0)
    requires after == filled + (if i < height - 1 then separator else [])
    ensures after == head + PrefillRows(width, height, separator, i + 1)
  {
    var blank := Blank(if width > 0 then width else 0);
    var tail := if i < height - 1 then separator else [];
    Associative(head, PrefillRows(width, height, separator, i), blank);
    Associative(head, PrefillRows(width, height, separator, i) + blank, tail);
  }

  /** Everything NewCanvas writes before it moves to the origin: the
      background and the Normal style from the zero-valued cache, then the
      blank rows. */
  function Prefill(width: int, height: int, background: Color, index: Rgba -> UInt8): string {
    ColorUpdate(ColorBlack, background, Layer.Background, index) + StyleUpdate(0, StyleNormal) +
    PrefillRows(width, height, RowSeparator(background, index), if height > 0 then height else 0)
  }

  class Canvas {
    const Width: int
    const Height: int
    const Background: Color
    /** The RGBA-to-palette quantizer (Colors.Index). */
    const Index: Rgba -> UInt8
    /** When set, Flush first moves the cursor to the last cell. */
    var CursorOnEnd: bool

    /** Output not yet flushed. */
    var buf: string
    /** The cached cursor, colours and style. */
    var x: int
    var y: int
    var fg: Color
    var bg: Color
    var style: int
    /** Everything Flush has handed to the terminal. */
    ghost var out: string

    predicate InBounds(px: int, py: int) {
      0 <= px < Width && 0 <= py < Height
    }

    /** The cursor is on the canvas, or at the one position off it that
        NewCanvas sets on purpose, one past the end of the last row (where
        it stays only when the canvas has no cells). */
    ghost predicate Valid()
      reads this
    {
      InBounds(x, y) || (x == Width && y == Height - 1)
    }

    /** Whether Move(px, py) succeeds from the cached cursor. */
    predicate Reaches(px: int, py: int)
      reads this
    {
      (x == px && y == py) || InBounds(px, py)
    }

    /** How many of `count` characters Write keeps at column px. */
    function Kept(px: int, count: nat): (k: nat)
      requires px <= Width
      ensures k <= count && px + k <= Width
      ensures k < count ==> px + k == Width
    {
      if count > Width - px then Width - px else count
    }

    /** What Write appends at (px, py): the text, cut at the right edge, and
        the step back onto the last column when the text reaches the edge. */
    function WriteCodes(px: int, py: int, text: string): string
      requires px <= Width
    {
      var k := Kept(px, |text|);
      text[..k] + (if px + k >= Width && InBounds(Width - 1, py) then Motion(px + k, py, Width - 1, py) else [])
    }

    /** The cursor column after Write at (px, py). */
    function WriteColumn(px: int, py: int, text: string): (c: int)
      requires px <= Width
      ensures c <= Width
    {
      var k := Kept(px, |text|);
      if px + k >= Width && InBounds(Width - 1, py) then Width - 1 else px + k
    }

    /** From a cell of the canvas, Write draws as much of the text as fits
        in the row and leaves the cursor after it, or on the last column
        when the text reaches the edge, with the one step back CUB 1. */
    lemma WriteOnCanvas(px: int, py: int, text: string)
      requires InBounds(px, py)
      ensures WriteColumn(px, py, text) == Min(px + |text|, Width - 1)
      ensures WriteCodes(px, py, text) == text[..Min(|text|, Width - px)] +
        (if px + |text| >= Width then CursorMotion(1, CursorBackward) else [])
    {
      var k := Kept(px, |text|);
      if px + k >= Width {
        assert Motion(px + k, py, Width - 1, py) == CursorMotion(1, CursorBackward) + [];
      }
    }

    /** What Clear's first j writes of a blank put out on a row: j blanks,
        and once the last column is written the step back onto it. */
    function ClearedCells(j: nat): string {
      Blank(j) + (if j == Width then CursorMotion(1, CursorBackward) else [])
    }

    /** What Clear writes on row r: the whole row of blanks with the step
        back, and, but on the last row, the move to the next row's start. */
    function ClearRow(r: int): string
      requires Width >= 1
    {
      ClearedCells(Width) + (if r < Height - 1 then Motion(Width - 1, r, 0, r + 1) else [])
    }

    /** One more blank written by Clear extends the row. */
    lemma ClearCellStep(j: nat, r: int)
      requires j < Width && 0 <= r < Height
      ensures ClearedCells(j) + WriteCodes(j, r, " ") == ClearedCells(j + 1)
      ensures WriteColumn(j, r, " ") == if j + 1 == Width then Width - 1 else j + 1
    {
      WriteOnCanvas(j, r, " ");
      assert " "[..1] == " ";
      assert ClearedCells(j) == Blank(j);
      if j + 1 < Width {
        assert Blank(j) + (" " + []) == Blank(j + 1) + [];
      } else {
        assert Blank(j) + (" " + CursorMotion(1, CursorBackward)) == Blank(j + 1) + CursorMotion(1, CursorBackward);
      }
    }

    function ClearRows(n: nat): string
      requires Width >= 1
      decreases n
    {
      if n == 0 then [] else ClearRows(n - 1) + ClearRow(n - 1)
    }

    /** Clear's buffer after one more blank of row r. */
    lemma ClearedAppend(rowStart: string, before: string, after: string, j: nat, r: int)
      requires j < Width && 0 <= r < Height
      requires before == rowStart + ClearedCells(j) && after == before + WriteCodes(j, r, " ")
      ensures after == rowStart + ClearedCells(j + 1)
    {
      ClearCellStep(j, r);
      Associative(rowStart, ClearedCells(j), WriteCodes(j, r, " "));
    }

    /** Clear's buffer after the row r. */
    lemma ClearRowAppend(rowStart: string, rowEnd: string, after: string, r: int)
      requires Width >= 1
      requires rowEnd == rowStart + ClearedCells(Width)
      requires after == rowEnd + (if r < Height - 1 then Motion(Width - 1, r, 0, r + 1) else [])
      ensures after == rowStart + ClearRow(r)
    {
      var next := if r < Height - 1 then Motion(Width - 1, r, 0, r + 1) else [];
      Associative(rowStart, ClearedCells(Width), next);
    }

    // ----- what a terminal makes of Write and Clear -----

    /** What Write puts out takes a terminal cursor standing at (px, py) to
        the column Write caches, and changes nothing else on the screen. */
    lemma RunWriteCodes(px: int, py: int, text: string, t: Terminal.Screen)
      requires InBounds(px, py) && Terminal.IsGraphicString(text)
      ensures Terminal.Complete(WriteCodes(px, py, text))
      ensures Terminal.Run(WriteCodes(px, py, text), t) == t.(col := t.col + (WriteColumn(px, py, text) - px))
    {
      WriteOnCanvas(px, py, text);
      var kept := text[..Min(|text|, Width - px)];
      assert Terminal.IsGraphicString(kept);
      Terminal.RunGraphic(kept, t);
      if px + |text| >= Width {
        Terminal.RunCursorMotion(1, CursorBackward, Terminal.Run(kept, t));
        Terminal.Extend(kept, CursorMotion(1, CursorBackward), t);
      } else {
        assert kept + [] == kept;
      }
    }

    /** A whole row of blanks and the step back leave a terminal cursor on
        the row's last cell. */
    lemma RunClearedRow(t: Terminal.Screen)
      requires Width >= 1
      ensures Terminal.Complete(ClearedCells(Width))
      ensures Terminal.Run(ClearedCells(Width), t) == t.(col := t.col + (Width - 1))
    {
      var blank := Blank(Width);
      BlankIsGraphic(Width);
      Terminal.RunGraphic(blank, t);
      Terminal.RunCursorMotion(1, CursorBackward, Terminal.Run(blank, t));
      Terminal.Extend(blank, CursorMotion(1, CursorBackward), t);
    }

    /** Clear's row r: a terminal cursor at the row's start ends on the
        start of the next row, or, after the last row, on its last cell. */
    lemma RunClearRow(r: int, t: Terminal.Screen)
      requires Width >= 1
      ensures Terminal.Complete(ClearRow(r))
      ensures Terminal.Run(ClearRow(r), t) ==
        if r < Height - 1 then t.(row := t.row + 1) else t.(col := t.col + (Width - 1))
    {
      var cells := ClearedCells(Width);
      RunClearedRow(t);
      var u := Terminal.Run(cells, t);
      if r < Height - 1 {
        var next := Motion(Width - 1, r, 0, r + 1);
        assert ClearRow(r) == cells + next;
        Terminal.RunMotion(Width - 1, r, 0, r + 1, u);
        Terminal.Extend(cells, next, t);
      } else {
        assert ClearRow(r) == cells + [];
        assert cells + [] == cells;
      }
    }

    /** The first n rows of Clear, read from the start of the first one. */
    lemma {:induction false} RunClearRows(n: nat, t: Terminal.Screen)
      requires Width >= 1 && 1 <= n <= Height
      ensures Terminal.Complete(ClearRows(n))
      ensures Terminal.Run(ClearRows(n), t) ==
        if n < Height then t.(row := t.row + n) else t.(col := t.col + (Width - 1), row := t.row + (n - 1))
      decreases n
    {
      var before := ClearRows(n - 1);
      var row := ClearRow(n - 1);
      var u := t.(row := t.row + (n - 1));
      if n > 1 {
        assert Terminal.Complete(before) && Terminal.Run(before, t) == u by {
          RunClearRows(n - 1, t);
        }
      } else {
        assert before == [] && u == t;
      }
      assert Terminal.Complete(row) && Terminal.Run(row, u) ==
        if n < Height then t.(row := t.row + n) else t.(col := t.col + (Width - 1), row := t.row + (n - 1)) by {
        RunClearRow(n - 1, u);
      }
      Terminal.Extend(before, row, t);
    }

    /** What Clear writes from a cached cursor (px, py) takes a terminal
        cursor standing there back to the origin, and changes no colour and
        no attribute. */
    lemma RunClear(px: int, py: int, t: Terminal.Screen)
      requires Width >= 1 && Height >= 1
      ensures Terminal.Complete(Motion(px, py, 0, 0) + ClearRows(Height) + Motion(Width - 1, Height - 1, 0, 0))
      ensures Terminal.Run(Motion(px, py, 0, 0) + ClearRows(Height) + Motion(Width - 1, Height - 1, 0, 0), t) ==
        t.(col := t.col - px, row := t.row - py)
    {
      var home := Motion(px, py, 0, 0);
      var rows := ClearRows(Height);
      var back := Motion(Width - 1, Height - 1, 0, 0);
      var t1 := t.(col := t.col - px, row := t.row - py);
      var t2 := t1.(col := t1.col + (Width - 1), row := t1.row + (Height - 1));
      assert Terminal.Complete(home) && Terminal.Run(home, t) == t1 by {
        Terminal.RunMotion(px, py, 0, 0, t);
      }
      assert Terminal.Complete(rows) && Terminal.Run(rows, t1) == t2 by {
        RunClearRows(Height, t1);
      }
      assert Terminal.Complete(back) && Terminal.Run(back, t2) == t1 by {
        Terminal.RunMotion(Width - 1, Height - 1, 0, 0, t2);
      }
      Terminal.Chain(home, rows, back, t, t1, t2, t1);
    }

    /** NewCanvas. */
    constructor (width: int, height: int, background: Color, index: Rgba -> UInt8)
      ensures Width == width && Height == height && Background == background && Index == index
      ensures !CursorOnEnd && buf == []
      ensures fg == ColorBlack && bg == background && style == StyleNormal
      ensures Valid()
      ensures width >= 1 && height >= 1 ==>
        x == 0 && y == 0 && out == Prefill(width, height, background, index) + Motion(width, height - 1, 0, 0)
      ensures !(width >= 1 && height >= 1) ==>
        x == width && y == height - 1 && out == Prefill(width, height, background, index)
    {
      Width, Height, Background, Index := width, height, background, index;
      CursorOnEnd := false;
      buf, out := [], [];
      x, y := 0, 0;
      fg, bg := ColorBlack, ColorBlack;  // the zero value of Color
      style := 0;
      new;
      SetBackground(background);
      SetStyle(StyleNormal);
      ghost var head := buf;
      assert head == ColorUpdate(ColorBlack, background, Layer.Background, index) + StyleUpdate(0, StyleNormal);
      FillRows();
      ghost var filled := buf;
      assert filled == Prefill(width, height, background, index);
      x, y := width, height - 1;  // the one time x is out of bounds on purpose
      var _ := Move(0, 0);
      ghost var moved := buf;
      if width >= 1 && height >= 1 {
        assert x == 0 && y == 0 && moved == filled + Motion(width, height - 1, 0, 0);
      } else {
        assert x == width && y == height - 1 && moved == filled;
      }
      Flush();
      assert out == moved by {
        assert out == [] + moved;
      }
    }

    /** The rows NewCanvas writes: Width blanks each and, after every row
        but the last, the background switched to the default around the
        line feed. */
    method FillRows()
      requires bg == Background
      modifies this`bg, this`buf
      ensures bg == Background
      ensures buf == old(buf) + PrefillRows(Width, Height, RowSeparator(Background, Index), if Height > 0 then Height else 0)
    {
      ghost var head := buf;
      ghost var separator := RowSeparator(Background, Index);
      var i := 0;
      while i < Height
        invariant 0 <= i && (i <= Height || i == 0)
        invariant bg == Background
        invariant buf == head + PrefillRows(Width, Height, separator, i)
      {
        ghost var rowStart := buf;
        var j := 0;
        while j < Width
          modifies this`buf
          invariant 0 <= j && (j <= Width || j == 0)
          invariant buf == rowStart + Blank(j)
        {
          Associative(rowStart, Blank(j), " ");
          buf := buf + " ";
          j := j + 1;
        }
        ghost var filled := buf;
        if i < Height - 1 {
          SetBackground(ColorDefault);  // keep the rest of the terminal line uncoloured
          buf := buf + "\n";
          SetBackground(Background);
          Associative(filled, ColorUpdate(Background, ColorDefault, Layer.Background, Index), "\n");
          Associative(filled, ColorUpdate(Background, ColorDefault, Layer.Background, Index) + "\n",
            ColorUpdate(ColorDefault, Background, Layer.Background, Index));
          assert buf == filled + separator;
        } else {
          assert buf == filled + [];
        }
        PrefillRowsAppend(Width, Height, separator, i, head, rowStart, filled, buf);
        i := i + 1;
      }
    }

    /** Move: nothing when (px, py) is the cached cursor; OutOfBounds, with
        nothing changed, when it lies off the canvas; otherwise the relative
        motion from the cached cursor, which is then updated. */
    method Move(px: int, py: int) returns (status: Status)
      modifies this`x, this`y, this`buf
      ensures old(Valid()) ==> Valid()
      ensures old(InBounds(x, y)) ==> InBounds(x, y)
      ensures status == (if old(Reaches(px, py)) then Ok else OutOfBounds)
      ensures status == Ok ==> x == px && y == py && buf == old(buf) + Motion(old(x), old(y), px, py)
      ensures status == OutOfBounds ==> x == old(x) && y == old(y) && buf == old(buf)
    {
      if x == px && y == py {
        return Ok;
      }
      if px > Width - 1 || px < 0 || py > Height - 1 || py < 0 {
        return OutOfBounds;
      }
      buf := buf + AxisMotion(x, px, CursorForward, CursorBackward);
      buf := buf + AxisMotion(y, py, CursorDown, CursorUp);
      x, y := px, py;
      status := Ok;
    }

    /** setBgFg: the SGR fragment selecting clr on one channel. */
    method SetBgFg(clr: Color, layer: Layer)
      modifies this`buf
      ensures buf == old(buf) + ColorCode(clr, layer, Index)
    {
      var op := if layer == Layer.Background then "4" else "3";
      if clr.isDefault {
        buf := buf + [Esc, '['];
        buf := buf + op;
        buf := buf + "9m";
      } else {
        var x256Clr: UInt8;
        if clr.rgba.Some? {
          x256Clr := Index(clr.rgba.value);
        } else {
          x256Clr := clr.term256;
        }
        buf := buf + [Esc, '['];
        buf := buf + op;
        buf := buf + "8;5;";
        buf := buf + Decimal(x256Clr);
        buf := buf + "m";
      }
      assert buf == old(buf) + ColorCode(clr, layer, Index);
    }

    /** SetBackground: nothing when clr is the cached background; otherwise
        its SGR fragment, and clr becomes the cached background. */
    method SetBackground(clr: Color)
      modifies this`bg, this`buf
      ensures bg == clr
      ensures buf == old(buf) + ColorUpdate(old(bg), clr, Layer.Background, Index)
    {
      if bg == clr {
        return;
      }
      SetBgFg(clr, Layer.Background);
      bg := clr;
    }

    /** SetForeground: as SetBackground, on the foreground channel. */
    method SetForeground(clr: Color)
      modifies this`fg, this`buf
      ensures fg == clr
      ensures buf == old(buf) + ColorUpdate(old(fg), clr, Layer.Foreground, Index)
    {
      if fg == clr {
        return;
      }
      SetBgFg(clr, Layer.Foreground);
      fg := clr;
    }

    /** SetStyle: nothing when the style is the cached one; otherwise the
        style's SGR fragments, and the style becomes the cached one. */
    method SetStyle(style: int)
      modifies this`style, this`buf
      ensures this.style == style
      ensures buf == old(buf) + StyleUpdate(old(this.style), style)
    {
      if this.style == style {
        return;
      }
      AppendStyleCodes(style);
      this.style := style;
    }

    /** The seven flag tests of SetStyle, each writing its SGR fragment when
        the flag is set, in the order SetStyle makes them. */
    method AppendStyleCodes(style: int)
      modifies this`buf
      ensures buf == old(buf) + StyleCodes(style)
    {
      ghost var b0 := buf;
      ghost var o0, o1, o2 := Optional(Has(style, StyleNormal), Sgr("0")), Optional(Has(style, StyleBold), Sgr("1")),
        Optional(Has(style, StyleDim), Sgr("2"));
      ghost var o3, o4 := Optional(Has(style, StyleUnderlined), Sgr("4")), Optional(Has(style, StyleBlink), Sgr("5"));
      ghost var o5, o6 := Optional(Has(style, StyleInverted), Sgr("7")), Optional(Has(style, StyleHidden), Sgr("8"));
      buf := buf + Optional(Has(style, StyleNormal), Sgr("0"));
      buf := buf + Optional(Has(style, StyleBold), Sgr("1"));
      Associative(b0, o0, o1);
      buf := buf + Optional(Has(style, StyleDim), Sgr("2"));
      Associative(b0, o0 + o1, o2);
      buf := buf + Optional(Has(style, StyleUnderlined), Sgr("4"));
      Associative(b0, o0 + o1 + o2, o3);
      buf := buf + Optional(Has(style, StyleBlink), Sgr("5"));
      Associative(b0, o0 + o1 + o2 + o3, o4);
      buf := buf + Optional(Has(style, StyleInverted), Sgr("7"));
      Associative(b0, o0 + o1 + o2 + o3 + o4, o5);
      buf := buf + Optional(Has(style, StyleHidden), Sgr("8"));
      Associative(b0, o0 + o1 + o2 + o3 + o4 + o5, o6);
      StyleCodesUnfold(style);
    }

    /** Set: Move, and on success Write of the one character. */
    method Set(px: int, py: int, ch: char)
      requires Valid()
      modifies this`x, this`y, this`buf
      ensures Valid() && (old(InBounds(x, y)) ==> InBounds(x, y))
      ensures !old(Reaches(px, py)) ==> x == old(x) && y == old(y) && buf == old(buf)
      ensures old(Reaches(px, py)) ==>
        y == py && x == WriteColumn(px, py, [ch]) &&
        buf == old(buf) + Motion(old(x), old(y), px, py) + WriteCodes(px, py, [ch])
    {
      var err := Move(px, py);
      if err == Ok {
        Write([ch]);
      }
    }

    /** Write: the text at the cursor, cut at the right edge of the row; the
        cursor advances by what was written and is clamped to the last
        column by the Move that steps back onto it. */
    method Write(text: string)
      requires Valid()
      requires ByteSafe(text, Width - x)
      modifies this`x, this`y, this`buf
      ensures Valid() && y == old(y)
      ensures x == WriteColumn(old(x), y, text)
      ensures buf == old(buf) + WriteCodes(old(x), y, text)
    {
      ghost var x0, b0 := x, buf;
      ghost var k := Kept(x, |text|);
      ghost var tail := if x + k >= Width && InBounds(Width - 1, y) then Motion(x + k, y, Width - 1, y) else [];
      var t := text;
      var r, l := Width - x, |text|;
      if l > r {
        t := text[0..r];  // by ByteSafe this byte slice keeps r whole characters
      }
      assert t == text[..k];
      buf := buf + t;
      x := x + |t|;
      ghost var mid := buf;
      if x >= Width {
        var _ := Move(Width - 1, y);
        assert buf == mid + tail;
      } else {
        assert buf == mid + tail by {
          assert tail == [];
        }
      }
      assert buf == b0 + WriteCodes(x0, y, text) by {
        assert WriteCodes(x0, y, text) == t + tail;
        Associative(b0, t, tail);
      }
    }

    /** WriteAt: Move; if that fails nothing else happens; otherwise
        SetStyle, SetForeground, SetBackground and Write, in that order. */
    method WriteAt(px: int, py: int, foreground: Color, background: Color, style: int, text: string)
      requires Valid()
      requires Reaches(px, py) ==> ByteSafe(text, Width - px)
      modifies this`x, this`y, this`buf, this`fg, this`bg, this`style
      ensures Valid() && (old(InBounds(x, y)) ==> InBounds(x, y))
      ensures !old(Reaches(px, py)) ==>
        x == old(x) && y == old(y) && buf == old(buf) &&
        fg == old(fg) && bg == old(bg) && this.style == old(this.style)
      ensures old(Reaches(px, py)) ==>
        y == py && x == WriteColumn(px, py, text) &&
        this.style == style && fg == foreground && bg == background &&
        buf == old(buf) + Motion(old(x), old(y), px, py) + StyleUpdate(old(this.style), style) +
               ColorUpdate(old(fg), foreground, Layer.Foreground, Index) +
               ColorUpdate(old(bg), background, Layer.Background, Index) + WriteCodes(px, py, text)
    {
      var err := Move(px, py);
      if err != Ok {
        return;
      }
      SetStyle(style);
      SetForeground(foreground);
      SetBackground(background);
      Write(text);
    }

    /** SetStyle as evidently intended: the same fragments, and when they
        begin with the reset ESC[0m the colour cache follows the terminal
        back to the default colours, so that the next SetForeground and
        SetBackground write their codes again. */
    method SetStyleSynced(style: int)
      modifies this`style, this`buf, this`fg, this`bg
      ensures this.style == style
      ensures buf == old(buf) + StyleUpdate(old(this.style), style)
      ensures fg == ColorAfterStyle(old(this.style), style, old(fg))
      ensures bg == ColorAfterStyle(old(this.style), style, old(bg))
    {
      if this.style == style {
        return;
      }
      AppendStyleCodes(style);
      if Has(style, StyleNormal) {
        fg, bg := ColorDefault, ColorDefault;
      }
      this.style := style;
    }

    /** WriteAt with SetStyleSynced in place of SetStyle. */
    method WriteAtSynced(px: int, py: int, foreground: Color, background: Color, style: int, text: string)
      requires Valid()
      requires Reaches(px, py) ==> ByteSafe(text, Width - px)
      modifies this`x, this`y, this`buf, this`fg, this`bg, this`style
      ensures Valid() && (old(InBounds(x, y)) ==> InBounds(x, y))
      ensures !old(Reaches(px, py)) ==>
        x == old(x) && y == old(y) && buf == old(buf) &&
        fg == old(fg) && bg == old(bg) && this.style == old(this.style)
      ensures old(Reaches(px, py)) ==>
        y == py && x == WriteColumn(px, py, text) &&
        this.style == style && fg == foreground && bg == background &&
        buf == old(buf) + Motion(old(x), old(y), px, py) + StyleUpdate(old(this.style), style) +
               ColorUpdate(ColorAfterStyle(old(this.style), style, old(fg)), foreground, Layer.Foreground, Index) +
               ColorUpdate(ColorAfterStyle(old(this.style), style, old(bg)), background, Layer.Background, Index) +
               WriteCodes(px, py, text)
    {
      var err := Move(px, py);
      if err != Ok {
        return;
      }
      SetStyleSynced(style);
      SetForeground(foreground);
      SetBackground(background);
      Write(text);
    }

    /** Clear: blanks on every cell, row by row, in the cached colours and
        style, then the cursor back at the origin. */
    method Clear()
      requires Valid()
      modifies this`x, this`y, this`buf
      ensures Valid()
      ensures !(Width >= 1 && Height >= 1) ==> x == old(x) && y == old(y) && buf == old(buf)
      ensures Width >= 1 && Height >= 1 ==>
        x == 0 && y == 0 &&
        buf == old(buf) + Motion(old(x), old(y), 0, 0) + ClearRows(Height) + Motion(Width - 1, Height - 1, 0, 0)
    {
      var _ := Move(0, 0);
      ClearLines();
      var _ := Move(0, 0);
    }

    /** Clear's outer loop: ClearLine for every row, from the origin. */
    method ClearLines()
      requires Valid()
      modifies this`x, this`y, this`buf
      ensures Valid()
      ensures !(Width >= 1 && Height >= 1) ==> x == old(x) && y == old(y) && buf == old(buf)
      ensures Width >= 1 && Height >= 1 && old(x) == 0 && old(y) == 0 ==>
        x == Width - 1 && y == Height - 1 && buf == old(buf) + ClearRows(Height)
    {
      ghost var live := Width >= 1 && Height >= 1 && x == 0 && y == 0;
      ghost var start := buf;
      var i := 0;
      while i < Height
        invariant 0 <= i && (i <= Height || i == 0) && Valid()
        invariant (i == 0 || Width < 1) ==> x == old(x) && y == old(y) && buf == start
        invariant live ==> buf == start + ClearRows(i)
        invariant live ==> if i < Height then x == 0 && y == i else x == Width - 1 && y == Height - 1
      {
        ClearLine(i);
        if live {
          assert buf == start + ClearRows(i + 1) by {
            Associative(start, ClearRows(i), ClearRow(i));
          }
        }
        i := i + 1;
      }
    }

    /** One pass of Clear's outer loop for row i: Width writes of a blank,
        then, but on the last row, the move to the start of row i + 1. */
    method ClearLine(i: int)
      requires Valid()
      modifies this`x, this`y, this`buf
      ensures Valid()
      ensures Width < 1 ==> x == old(x) && y == old(y) && buf == old(buf)
      ensures Width >= 1 && old(x) == 0 && old(y) == i && 0 <= i < Height ==>
        buf == old(buf) + ClearRow(i) &&
        if i < Height - 1 then x == 0 && y == i + 1 else x == Width - 1 && y == i
    {
      ghost var rowStart := buf;
      ghost var start := x == 0 && y == i && InBounds(0, i);
      assert rowStart + [] == rowStart;
      var j := 0;
      while j < Width
        invariant 0 <= j && (j <= Width || j == 0) && Valid()
        invariant j == 0 ==> x == old(x) && y == old(y) && buf == rowStart
        invariant start ==> y == i && x == (if j == Width then Width - 1 else j)
        invariant start ==> buf == rowStart + ClearedCells(j)
      {
        ghost var before := buf;
        Write(" ");
        if start {
          assert buf == rowStart + ClearedCells(j + 1) && x == (if j + 1 == Width then Width - 1 else j + 1) by {
            ClearCellStep(j, i);
            ClearedAppend(rowStart, before, buf, j, i);
          }
        }
        j := j + 1;
      }
      ghost var rowEnd := buf;
      if i < Height - 1 {
        MotionEmpty(x, y, 0, i + 1);
        var _ := Move(0, i + 1);
      }
      if start {
        assert buf == rowStart + ClearRow(i) by {
          ClearRowAppend(rowStart, rowEnd, buf, i);
        }
      }
    }

    /** Flush: with CursorOnEnd, first the move to the last cell; then the
        whole buffer goes to the terminal and the buffer is emptied. */
    method Flush()
      requires Valid()
      modifies this`x, this`y, this`buf, this`out
      ensures Valid() && buf == [] && (old(InBounds(x, y)) ==> InBounds(x, y))
      ensures old(CursorOnEnd) && InBounds(Width - 1, Height - 1) ==>
        x == Width - 1 && y == Height - 1 &&
        out == old(out) + old(buf) + Motion(old(x), old(y), Width - 1, Height - 1)
      ensures !(old(CursorOnEnd) && InBounds(Width - 1, Height - 1)) ==>
        x == old(x) && y == old(y) && out == old(out) + old(buf)
    {
      if CursorOnEnd {
        var _ := Move(Width - 1, Height - 1);
      }
      out := out + buf;
      buf := [];
    }
  }

  lemma Associative(a: string, b: string, c: string)
    ensures (a + b) + c == a + (b + c)
  {
  }

  // ----- the terminal reading the canvas's output, one fragment at a time -----

  /** A Move fragment appended to a complete output shifts the terminal
      cursor by the displacement the cache records. */
  lemma MotionFollows(s: string, fromX: int, fromY: int, toX: int, toY: int)
    requires Terminal.Complete(s)
    ensures Terminal.Complete(s + Motion(fromX, fromY, toX, toY))
    ensures var t := Terminal.Run(s, Terminal.Home);
      Terminal.Run(s + Motion(fromX, fromY, toX, toY), Terminal.Home) ==
      t.(col := t.col + (toX - fromX), row := t.row + (toY - fromY))
  {
    Terminal.RunMotion(fromX, fromY, toX, toY, Terminal.Run(s, Terminal.Home));
    Terminal.Extend(s, Motion(fromX, fromY, toX, toY), Terminal.Home);
  }

  /** A colour fragment appended to a complete output paints its channel
      with the colour's palette entry or default. */
  lemma ColorFollows(s: string, clr: Color, layer: Layer, index: Rgba -> UInt8)
    requires Terminal.Complete(s)
    ensures Terminal.Complete(s + ColorCode(clr, layer, index))
    ensures Terminal.Run(s + ColorCode(clr, layer, index), Terminal.Home) ==
      Terminal.Painted(Terminal.Run(s, Terminal.Home), layer, Resolve(clr, index))
  {
    Terminal.RunColorCode(clr, layer, index, Terminal.Run(s, Terminal.Home));
    Terminal.Extend(s, ColorCode(clr, layer, index), Terminal.Home);
  }

  /** A style's fragments appended to a complete output give the rendition
      the style names. */
  lemma StyleFollows(s: string, style: int)
    requires Terminal.Complete(s)
    ensures Terminal.Complete(s + StyleCodes(style))
    ensures Terminal.Run(s + StyleCodes(style), Terminal.Home) ==
      Terminal.Restyled(Terminal.Run(s, Terminal.Home), style)
  {
    Terminal.RunStyleCodes(style, Terminal.Run(s, Terminal.Home));
    Terminal.Extend(s, StyleCodes(style), Terminal.Home);
  }

  /** Graphic text appended to a complete output moves the terminal cursor
      one column per character. */
  lemma GraphicFollows(s: string, text: string)
    requires Terminal.Complete(s) && Terminal.IsGraphicString(text)
    ensures Terminal.Complete(s + text)
    ensures var t := Terminal.Run(s, Terminal.Home);
      Terminal.Run(s + text, Terminal.Home) == t.(col := t.col + |text|)
  {
    Terminal.RunGraphic(text, Terminal.Run(s, Terminal.Home));
    Terminal.Extend(s, text, Terminal.Home);
  }

  // ----- the colour cache after a reset -----

  /** The colour a channel holds on the terminal once SetStyle has moved
      from `cachedStyle` to `style`: the reset ESC[0m, written when the style
      changes to one with Normal, restores the terminal's default colour. */
  function ColorAfterStyle(cachedStyle: int, style: int, clr: Color): Color {
    if cachedStyle != style && Has(style, StyleNormal) then ColorDefault else clr
  }

  /** As written, SetStyle's reset and the early returns of SetForeground
      and SetBackground disagree: when WriteAt changes to a style with
      Normal and keeps the cached colours, its text is drawn in the
      terminal's default colours, not in the colours the cache records. */
  lemma ResetDropsCachedColors(h: string, cachedStyle: int, style: int, fg: Color, bg: Color, index: Rgba -> UInt8)
    requires Terminal.Complete(h)
    requires cachedStyle != style && Has(style, StyleNormal)
    ensures var u := Terminal.Run(h + StyleUpdate(cachedStyle, style) +
        ColorUpdate(fg, fg, Layer.Foreground, index) + ColorUpdate(bg, bg, Layer.Background, index), Terminal.Home);
      u.fg == DefaultPaint && u.bg == DefaultPaint &&
      (!fg.isDefault ==> u.fg != Resolve(fg, index)) &&
      (!bg.isDefault ==> u.bg != Resolve(bg, index))
  {
    StyleFollows(h, style);
    assert h + StyleUpdate(cachedStyle, style) + ColorUpdate(fg, fg, Layer.Foreground, index) +
      ColorUpdate(bg, bg, Layer.Background, index) == h + StyleCodes(style);
  }

  /** As written, NewCanvas sets the background and then the Normal style,
      whose reset clears it again: the first row's blanks are drawn in the
      terminal's default background while the cache records `background`. */
  lemma PrefillHeadUnpainted(background: Color, index: Rgba -> UInt8)
    ensures var u := Terminal.Run(ColorUpdate(ColorBlack, background, Layer.Background, index) +
        StyleUpdate(0, StyleNormal), Terminal.Home);
      u.bg == DefaultPaint && (!background.isDefault ==> u.bg != Resolve(background, index))
  {
    var c := ColorUpdate(ColorBlack, background, Layer.Background, index);
    if ColorBlack != background {
      Terminal.RunColorCode(background, Layer.Background, index, Terminal.Home);
    }
    Terminal.RunStyleCodes(StyleNormal, Terminal.Run(c, Terminal.Home));
    Terminal.Extend(c, StyleUpdate(0, StyleNormal), Terminal.Home);
  }

  /** NewCanvas's opening as evidently intended: the Normal style first,
      then the background, with the cache following the reset. Before the
      first blank the terminal shows `background`, at the cursor it had. */
  lemma SyncedHeadPaints(background: Color, index: Rgba -> UInt8, t: Terminal.Screen)
    ensures var head := StyleUpdate(0, StyleNormal) +
        ColorUpdate(ColorAfterStyle(0, StyleNormal, ColorBlack), background, Layer.Background, index);
      Terminal.Complete(head) &&
      Terminal.Run(head, t).fg == DefaultPaint && Terminal.Run(head, t).bg == Resolve(background, index) &&
      Terminal.Run(head, t).col == t.col && Terminal.Run(head, t).row == t.row
  {
    var reset := StyleUpdate(0, StyleNormal);
    var c := ColorUpdate(ColorDefault, background, Layer.Background, index);
    Terminal.RunStyleCodes(StyleNormal, t);
    var t1 := Terminal.Run(reset, t);
    if ColorDefault != background {
      Terminal.RunColorCode(background, Layer.Background, index, t1);
    }
    Terminal.Extend(reset, c, t);
  }

  /** The row separator leaves the foreground as it was and the background
      at `background` (a default background writes no code at all). */
  lemma SeparatorColors(background: Color, index: Rgba -> UInt8, t: Terminal.Screen)
    ensures Terminal.Complete(RowSeparator(background, index))
    ensures Terminal.Run(RowSeparator(background, index), t).fg == t.fg
    ensures Terminal.Run(RowSeparator(background, index), t).bg ==
      if background == ColorDefault then t.bg else Resolve(background, index)
  {
    var a := ColorUpdate(background, ColorDefault, Layer.Background, index);
    var b := ColorUpdate(ColorDefault, background, Layer.Background, index);
    if background != ColorDefault {
      Terminal.RunColorCode(ColorDefault, Layer.Background, index, t);
    }
    var t1 := Terminal.Run(a, t);
    Terminal.RunNewline(t1);
    var t2 := Terminal.Run("\n", t1);
    if background != ColorDefault {
      Terminal.RunColorCode(background, Layer.Background, index, t2);
    }
    Terminal.Extend(a, "\n", t);
    Terminal.Extend(a + "\n", b, t);
  }

  /** A separator that keeps the foreground and keeps the background p
      where it is in force. */
  ghost predicate KeepsColours(sep: string, p: Paint) {
    Terminal.Complete(sep) &&
    forall t: Terminal.Screen :: Terminal.Run(sep, t).fg == t.fg && (t.bg == p ==> Terminal.Run(sep, t).bg == p)
  }

  /** NewCanvas's separator keeps the resolved background: it resets the
      background to the default and sets it again after the line feed. */
  lemma RowSeparatorKeepsColours(background: Color, index: Rgba -> UInt8)
    ensures KeepsColours(RowSeparator(background, index), Resolve(background, index))
  {
    forall t: Terminal.Screen
      ensures Terminal.Run(RowSeparator(background, index), t).fg == t.fg
      ensures t.bg == Resolve(background, index) ==> Terminal.Run(RowSeparator(background, index), t).bg == Resolve(background, index)
    {
      SeparatorColors(background, index, t);
    }
    SeparatorColors(background, index, Terminal.Home);
  }

  /** Blanks change no colour. */
  lemma BlankKeepsColours(before: string, width: int, t: Terminal.Screen)
    requires Terminal.Complete(before)
    ensures Terminal.Complete(before + Blank(if width > 0 then width else 0))
    ensures Terminal.Run(before + Blank(if width > 0 then width else 0), t).fg == Terminal.Run(before, t).fg
    ensures Terminal.Run(before + Blank(if width > 0 then width else 0), t).bg == Terminal.Run(before, t).bg
  {
    var blank := Blank(if width > 0 then width else 0);
    BlankIsGraphic(if width > 0 then width else 0);
    Terminal.RunGraphic(blank, Terminal.Run(before, t));
    Terminal.Extend(before, blank, t);
  }

  /** The prefill rows keep the foreground, and the background p where it
      is in force, when the separator does. */
  lemma {:induction false} RunPrefillColors(width: int, height: int, sep: string, p: Paint, i: nat, t: Terminal.Screen)
    requires KeepsColours(sep, p)
    ensures Terminal.Complete(PrefillRows(width, height, sep, i))
    ensures Terminal.Run(PrefillRows(width, height, sep, i), t).fg == t.fg
    ensures t.bg == p ==> Terminal.Run(PrefillRows(width, height, sep, i), t).bg == p
    decreases i
  {
    if i > 0 {
      var before := PrefillRows(width, height, sep, i - 1);
      var blank := Blank(if width > 0 then width else 0);
      var tail := if i - 1 < height - 1 then sep else [];
      assert PrefillRows(width, height, sep, i) == before + blank + tail;
      RunPrefillColors(width, height, sep, p, i - 1, t);
      BlankKeepsColours(before, width, t);
      if i - 1 < height - 1 {
        Terminal.Extend(before + blank, sep, t);
      } else {
        assert before + blank + tail == before + blank;
      }
    }
  }

  /** As written, NewCanvas never writes a foreground code: the cache keeps
      the zero value ColorBlack, palette entry 0, while the reset leaves
      the terminal in its default foreground. A later request for black
      then writes nothing. */
  lemma PrefillForegroundUnset(width: int, height: int, background: Color, index: Rgba -> UInt8)
    ensures Terminal.Complete(Prefill(width, height, background, index))
    ensures Terminal.Run(Prefill(width, height, background, index), Terminal.Home).fg == DefaultPaint
    ensures Resolve(ColorBlack, index) != DefaultPaint
    ensures ColorUpdate(ColorBlack, ColorBlack, Layer.Foreground, index) == []
  {
    var head := ColorUpdate(ColorBlack, background, Layer.Background, index) + StyleUpdate(0, StyleNormal);
    var t0 := Terminal.Run(head, Terminal.Home);
    assert Terminal.Complete(head) && t0.fg == DefaultPaint by {
      var c := ColorUpdate(ColorBlack, background, Layer.Background, index);
      if ColorBlack != background {
        Terminal.RunColorCode(background, Layer.Background, index, Terminal.Home);
      }
      Terminal.RunStyleCodes(StyleNormal, Terminal.Run(c, Terminal.Home));
      Terminal.Extend(c, StyleUpdate(0, StyleNormal), Terminal.Home);
    }
    var sep := RowSeparator(background, index);
    var n := if height > 0 then height else 0;
    var rows := PrefillRows(width, height, sep, n);
    assert Terminal.Complete(rows) && Terminal.Run(rows, t0).fg == DefaultPaint by {
      RowSeparatorKeepsColours(background, index);
      RunPrefillColors(width, height, sep, Resolve(background, index), n, t0);
    }
    assert Prefill(width, height, background, index) == head + rows;
    Terminal.Extend(head, rows, Terminal.Home);
  }

  /** Everything the corrected NewCanvas writes before it moves to the
      origin: SetStyleSynced(StyleNormal) from the zero-valued cache, then
      SetBackground(background) from the cache that leaves, then the rows. */
  function SyncedPrefill(width: int, height: int, background: Color, index: Rgba -> UInt8): string {
    StyleUpdate(0, StyleNormal) +
    ColorUpdate(ColorAfterStyle(0, StyleNormal, ColorBlack), background, Layer.Background, index) +
    PrefillRows(width, height, RowSeparator(background, index), if height > 0 then height else 0)
  }

  /** The corrected NewCanvas leaves the cache (fg = ColorAfterStyle of the
      zero value, that is ColorDefault, and bg = background) in agreement
      with the terminal: the base case SyncedColorsReach starts from. The
      final move to the origin changes no colour. */
  lemma SyncedPrefillAgrees(width: int, height: int, background: Color, index: Rgba -> UInt8)
    ensures ColorAfterStyle(0, StyleNormal, ColorBlack) == ColorDefault
    ensures var out := SyncedPrefill(width, height, background, index) + Motion(width, height - 1, 0, 0);
      Terminal.Complete(out) &&
      Terminal.Run(out, Terminal.Home).fg == Resolve(ColorDefault, index) &&
      Terminal.Run(out, Terminal.Home).bg == Resolve(background, index)
  {
    var head := StyleUpdate(0, StyleNormal) +
      ColorUpdate(ColorAfterStyle(0, StyleNormal, ColorBlack), background, Layer.Background, index);
    var t0 := Terminal.Run(head, Terminal.Home);
    assert Terminal.Complete(head) && t0.fg == DefaultPaint && t0.bg == Resolve(background, index) by {
      SyncedHeadPaints(background, index, Terminal.Home);
    }
    var sep := RowSeparator(background, index);
    var n := if height > 0 then height else 0;
    var rows := PrefillRows(width, height, sep, n);
    assert Terminal.Complete(rows) && Terminal.Run(rows, t0).fg == t0.fg && Terminal.Run(rows, t0).bg == t0.bg by {
      RowSeparatorKeepsColours(background, index);
      RunPrefillColors(width, height, sep, Resolve(background, index), n, t0);
    }
    assert SyncedPrefill(width, height, background, index) == head + rows;
    Terminal.Extend(head, rows, Terminal.Home);
    MotionFollows(head + rows, width, height - 1, 0, 0);
  }

  /** The cache holds `cached` on a channel and the terminal agrees; then
      the channel's update for `clr` leaves the terminal showing `clr` on it
      and the other channel as it was. */
  lemma ColorUpdateFollows(s: string, cached: Color, clr: Color, layer: Layer, index: Rgba -> UInt8)
    requires Terminal.Complete(s)
    requires Terminal.Run(s, Terminal.Home) == Terminal.Painted(Terminal.Run(s, Terminal.Home), layer, Resolve(cached, index))
    ensures Terminal.Complete(s + ColorUpdate(cached, clr, layer, index))
    ensures Terminal.Run(s + ColorUpdate(cached, clr, layer, index), Terminal.Home) ==
      Terminal.Painted(Terminal.Run(s, Terminal.Home), layer, Resolve(clr, index))
  {
    if cached == clr {
      assert s + ColorUpdate(cached, clr, layer, index) == s;
    } else {
      ColorFollows(s, clr, layer, index);
    }
  }

  /** With SetStyleSynced the colour cache keeps agreeing with the terminal
      across WriteAt's style and colour updates: if the terminal showed the
      cached colours before, it shows the requested ones after, which is
      what the cache then holds. */
  lemma SyncedColorsReach(h: string, cachedStyle: int, cachedFg: Color, cachedBg: Color,
      style: int, fg: Color, bg: Color, index: Rgba -> UInt8)
    requires Terminal.Complete(h)
    requires Terminal.Run(h, Terminal.Home).fg == Resolve(cachedFg, index)
    requires Terminal.Run(h, Terminal.Home).bg == Resolve(cachedBg, index)
    ensures var codes := h + StyleUpdate(cachedStyle, style) +
        ColorUpdate(ColorAfterStyle(cachedStyle, style, cachedFg), fg, Layer.Foreground, index) +
        ColorUpdate(ColorAfterStyle(cachedStyle, style, cachedBg), bg, Layer.Background, index);
      Terminal.Complete(codes) &&
      Terminal.Run(codes, Terminal.Home).fg == Resolve(fg, index) &&
      Terminal.Run(codes, Terminal.Home).bg == Resolve(bg, index)
  {
    var s1 := h + StyleUpdate(cachedStyle, style);
    var f1 := ColorAfterStyle(cachedStyle, style, cachedFg);
    var b1 := ColorAfterStyle(cachedStyle, style, cachedBg);
    if cachedStyle == style {
      assert s1 == h;
    } else {
      StyleFollows(h, style);
    }
    var t1 := Terminal.Run(s1, Terminal.Home);
    assert t1.fg == Resolve(f1, index) && t1.bg == Resolve(b1, index);
    ColorUpdateFollows(s1, f1, fg, Layer.Foreground, index);
    var s2 := s1 + ColorUpdate(f1, fg, Layer.Foreground, index);
    ColorUpdateFollows(s2, b1, bg, Layer.Background, index);
  }

  /** SetStyle's seven tests are the table-driven StyleCodes. */
  lemma StyleCodesUnfold(style: int)
    ensures StyleCodes(style) ==
      Optional(Has(style, StyleNormal), Sgr("0")) + Optional(Has(style, StyleBold), Sgr("1")) +
      Optional(Has(style, StyleDim), Sgr("2")) + Optional(Has(style, StyleUnderlined), Sgr("4")) +
      Optional(Has(style, StyleBlink), Sgr("5")) + Optional(Has(style, StyleInverted), Sgr("7")) +
      Optional(Has(style, StyleHidden), Sgr("8"))
  {
    var none: seq<(int, nat)> := [];
    var t6: seq<(int, nat)> := [(StyleHidden, 8)] + none;
    var t5: seq<(int, nat)> := [(StyleInverted, 7)] + t6;
    var t4: seq<(int, nat)> := [(StyleBlink, 5)] + t5;
    var t3: seq<(int, nat)> := [(StyleUnderlined, 4)] + t4;
    var t2: seq<(int, nat)> := [(StyleDim, 2)] + t3;
    assert Attributes == [(StyleBold, 1)] + t2;
    FlagStep(style, StyleHidden, 8, none);
    FlagStep(style, StyleInverted, 7, t6);
    FlagStep(style, StyleBlink, 5, t5);
    FlagStep(style, StyleUnderlined, 4, t4);
    FlagStep(style, StyleDim, 2, t3);
    FlagStep(style, StyleBold, 1, t2);
    var o0, o1, o2 := Optional(Has(style, StyleNormal), Sgr("0")), Optional(Has(style, StyleBold), Sgr("1")),
      Optional(Has(style, StyleDim), Sgr("2"));
    var o3, o4 := Optional(Has(style, StyleUnderlined), Sgr("4")), Optional(Has(style, StyleBlink), Sgr("5"));
    var o5, o6 := Optional(Has(style, StyleInverted), Sgr("7")), Optional(Has(style, StyleHidden), Sgr("8"));
    // the table unfolds nested to the right; regroup it to the left
    assert FlagCodes(style, t6) == o6 by {
      assert o6 + [] == o6;
    }
    var r5 := o5 + o6;
    var r4 := o4 + r5;
    var r3 := o3 + r4;
    var r2 := o2 + r3;
    assert FlagCodes(style, t5) == r5;
    assert FlagCodes(style, t4) == r4;
    assert FlagCodes(style, t3) == r3;
    assert FlagCodes(style, t2) == r2;
    assert StyleCodes(style) == o0 + (o1 + r2);
    Associative(o0, o1, r2);
    Associative(o0 + o1, o2, r3);
    Associative(o0 + o1 + o2, o3, r4);
    Associative(o0 + o1 + o2 + o3, o4, r5);
    Associative(o0 + o1 + o2 + o3 + o4, o5, o6);
  }

  /** One entry of the attribute table, taken off its front. */
  lemma FlagStep(style: int, flag: int, code: nat, rest: seq<(int, nat)>)
    requires flag > 0 && code in {1, 2, 4, 5, 7, 8} && IsAttributeTable(rest)
    ensures IsAttributeTable([(flag, code)] + rest)
    ensures FlagCodes(style, [(flag, code)] + rest) ==
      Optional(Has(style, flag), Sgr([Digit(code)])) + FlagCodes(style, rest)
  {
    var table := [(flag, code)] + rest;
    assert table[1..] == rest;
  }

  /** The background and style NewCanvas writes first move no cursor. */
  lemma HeadKeepsCursor(background: Color, index: Rgba -> UInt8, t: Terminal.Screen)
    ensures Terminal.Complete(ColorUpdate(ColorBlack, background, Layer.Background, index) + StyleUpdate(0, StyleNormal))
    ensures var u := Terminal.Run(ColorUpdate(ColorBlack, background, Layer.Background, index) + StyleUpdate(0, StyleNormal), t);
      u.col == t.col && u.row == t.row
  {
    var c := ColorUpdate(ColorBlack, background, Layer.Background, index);
    if ColorBlack != background {
      Terminal.RunColorCode(background, Layer.Background, index, t);
    }
    var t1 := Terminal.Run(c, t);
    Terminal.RunStyleCodes(StyleNormal, t1);
    Terminal.Extend(c, StyleUpdate(0, StyleNormal), t);
  }

  /** The row separator returns to the first column of the next row. */
  lemma SeparatorEffect(background: Color, index: Rgba -> UInt8, t: Terminal.Screen)
    ensures Terminal.Complete(RowSeparator(background, index))
    ensures Terminal.Run(RowSeparator(background, index), t).col == 0
    ensures Terminal.Run(RowSeparator(background, index), t).row == t.row + 1
  {
    var a := ColorUpdate(background, ColorDefault, Layer.Background, index);
    var b := ColorUpdate(ColorDefault, background, Layer.Background, index);
    if background != ColorDefault {
      Terminal.RunColorCode(ColorDefault, Layer.Background, index, t);
    }
    var t1 := Terminal.Run(a, t);
    Terminal.RunNewline(t1);
    var t2 := Terminal.Run("\n", t1);
    if background != ColorDefault {
      Terminal.RunColorCode(background, Layer.Background, index, t2);
    }
    Terminal.Extend(a, "\n", t);
    Terminal.Extend(a + "\n", b, t);
  }

  /** A separator: complete, and it takes a terminal cursor to the first
      column of the next row. */
  ghost predicate Separates(sep: string) {
    Terminal.Complete(sep) &&
    forall t: Terminal.Screen :: Terminal.Run(sep, t).col == 0 && Terminal.Run(sep, t).row == t.row + 1
  }

  /** Reading the prefill rows from the start of a row r0: after i < height
      rows the cursor starts row r0 + i; after all of them it stands one past
      the end of the last row. */
  lemma {:induction false} RunPrefillRows(width: int, height: int, sep: string, i: nat, t: Terminal.Screen)
    requires width >= 0 && Separates(sep) && 1 <= i <= height && t.col == 0
    ensures Terminal.Complete(PrefillRows(width, height, sep, i))
    ensures Terminal.Run(PrefillRows(width, height, sep, i), t).col == if i < height then 0 else width
    ensures Terminal.Run(PrefillRows(width, height, sep, i), t).row == t.row + (if i < height then i else i - 1)
    decreases i
  {
    var before := PrefillRows(width, height, sep, i - 1);
    var blank := Blank(width);
    var tail := if i < height then sep else [];
    assert PrefillRows(width, height, sep, i) == before + blank + tail;
    var u := Terminal.Run(before, t);
    if i > 1 {
      assert Terminal.Complete(before) && u.col == 0 && u.row == t.row + (i - 1) by {
        RunPrefillRows(width, height, sep, i - 1, t);
      }
    } else {
      assert before == [] && u == t;
    }
    assert Terminal.Complete(blank) && Terminal.Run(blank, u) == u.(col := width) by {
      BlankIsGraphic(width);
      Terminal.RunGraphic(blank, u);
    }
    Terminal.Extend(before, blank, t);
    if i < height {
      Terminal.Extend(before + blank, sep, t);
    } else {
      assert before + blank + tail == before + blank;
    }
  }

  /** The terminal cursor after everything NewCanvas writes on a canvas
      with cells is on the origin, where NewCanvas's cache puts it. */
  lemma PrefillSync(width: int, height: int, background: Color, index: Rgba -> UInt8)
    requires width >= 1 && height >= 1
    ensures Terminal.Complete(Prefill(width, height, background, index) + Motion(width, height - 1, 0, 0))
    ensures Terminal.Run(Prefill(width, height, background, index) + Motion(width, height - 1, 0, 0), Terminal.Home).col == 0
    ensures Terminal.Run(Prefill(width, height, background, index) + Motion(width, height - 1, 0, 0), Terminal.Home).row == 0
  {
    var sep := RowSeparator(background, index);
    var head := ColorUpdate(ColorBlack, background, Layer.Background, index) + StyleUpdate(0, StyleNormal);
    var rows := PrefillRows(width, height, sep, height);
    var p := Prefill(width, height, background, index);
    var back := Motion(width, height - 1, 0, 0);
    assert p == head + rows;
    var t0 := Terminal.Run(head, Terminal.Home);
    assert Terminal.Complete(head) && t0.col == 0 && t0.row == 0 by {
      HeadKeepsCursor(background, index, Terminal.Home);
    }
    assert Separates(sep) by {
      forall t: Terminal.Screen ensures Terminal.Run(sep, t).col == 0 && Terminal.Run(sep, t).row == t.row + 1 {
        SeparatorEffect(background, index, t);
      }
      SeparatorEffect(background, index, Terminal.Home);
    }
    var t1 := Terminal.Run(rows, t0);
    assert Terminal.Complete(rows) && t1.col == width && t1.row == height - 1 by {
      RunPrefillRows(width, height, sep, height, t0);
    }
    Terminal.Extend(head, rows, Terminal.Home);
    assert Terminal.Complete(back) && Terminal.Run(back, t1) == t1.(col := t1.col - width, row := t1.row - (height - 1)) by {
      Terminal.RunMotion(width, height - 1, 0, 0, t1);
    }
    Terminal.Extend(p, back, Terminal.Home);
  }
}
