/** The text grid of the console: a cell buffer that scrolls. It shows the last rows of a page
    that has no end. */
module Console {
  import opened Machine
  import opened Arithmetic
  import opened Utf8

  const BELL: byte := 7
  const BACKSPACE: byte := 8
  const TAB: byte := 9
  const NEWLINE: byte := 10
  const RETURN: byte := 13

  /** term_cell_t; `wide` is the flag ANSI_WIDE, `flags` are the others. */
  datatype Cell = Cell(c: nat, fg: nat, bg: nat, flags: nat, wide: bool)

  /** What MemSet leaves in a cell. */
  const BLANK := Cell(0, 0, 0, 0, false)

  /** The second half of a wide character. */
  const FILLER := 0xFFFF

  /** is_wide: from 256 on, the characters for which wcwidth says 2. */
  predicate IsWide(c: nat) {
    || 0x1100 <= c < 0x115a || 0x115f <= c < 0x1160 || 0x2329 <= c < 0x232b || 0x2e80 <= c < 0x2e9a
    || 0x2e9b <= c < 0x2ef4 || 0x2f00 <= c < 0x2fd6 || 0x2ff0 <= c < 0x2ffc || 0x3000 <= c < 0x302a
    || 0x3030 <= c < 0x303f || 0x3041 <= c < 0x3097 || 0x309b <= c < 0x3100 || 0x3105 <= c < 0x312e
    || 0x3131 <= c < 0x318f || 0x3190 <= c < 0x31b8 || 0x31c0 <= c < 0x31d0 || 0x31f0 <= c < 0x321f
    || 0x3220 <= c < 0x3244 || 0x3250 <= c < 0x32ff || 0x3300 <= c < 0x4db6 || 0x4dc0 <= c < 0x9fbc
    || 0xa000 <= c < 0xa48d || 0xa490 <= c < 0xa4c7 || 0xac00 <= c < 0xd7a4 || 0xf900 <= c < 0xfa2e
    || 0xfa30 <= c < 0xfa6b || 0xfa70 <= c < 0xfada || 0xfe10 <= c < 0xfe1a || 0xfe30 <= c < 0xfe53
    || 0xfe54 <= c < 0xfe67 || 0xfe68 <= c < 0xfe6c || 0xff01 <= c < 0xff61 || 0xffe0 <= c < 0xffe7
    || 0x20000 <= c < 0x2a6d7 || 0x2f800 <= c < 0x2fa1e
  }

  /** All of ASCII, Latin and what follows up to Hangul is narrow, and so are box drawings; ideographs,
      kana, Hangul syllables and full-width forms are wide. */
  lemma WideAre(c: nat)
    ensures c < 0x1100 || 0x2400 <= c < 0x2e80 ==> !IsWide(c)
    ensures 0x4e00 <= c < 0x9fbc || 0x3041 <= c < 0x3097 || 0x30a0 <= c < 0x30ff ==> IsWide(c)
    ensures 0xac00 <= c < 0xd7a4 || 0xff01 <= c < 0xff61 || 0x20000 <= c < 0x2a6d7 ==> IsWide(c)
  {
  }

  // ---------------------------------------------------------------- the page

  /** A page of endless rows with the place where the next character goes, and `top`, the
      number of rows that have left the screen. */
  datatype Page = Page(cells: map<(nat, nat), Cell>, row: nat, x: nat, top: nat, hold: bool, decoder: Decoder)

  function CellAt(cells: map<(nat, nat), Cell>, row: nat, x: nat): Cell {
    if (row, x) in cells then cells[(row, x)] else BLANK
  }

  /** The screen of `height` rows follows a cursor that has left its last row. */
  function Settled(p: Page, height: nat): (r: Page)
    ensures r.decoder == p.decoder
  {
    if p.row == p.top + height then p.(top := p.top + 1) else p
  }

  function NextRow(p: Page, height: nat): Page {
    Settled(p.(row := p.row + 1), height)
  }

  /** A full row is left only when something follows. */
  function Wrapped(p: Page, width: nat, height: nat): (r: Page)
    ensures r.decoder == p.decoder
  {
    Settled(if p.x == width then p.(x := 0, row := p.row + 1) else p, height)
  }

  /** cell_set, which does nothing outside the screen, and the step to the next column. */
  function Put(p: Page, height: nat, cell: Cell): Page {
    if p.row < p.top + height then p.(cells := p.cells[(p.row, p.x) := cell], x := p.x + 1) else p.(x := p.x + 1)
  }

  /** A wide character leaves the last column for the next row, and the screen does not follow. */
  function Broken(p: Page, width: nat, cell: Cell): Page
    requires width > 0
  {
    if IsWide(cell.c) && p.x == width - 1 then p.(x := 0, row := p.row + 1) else p
  }

  /** A character that is shown: one cell, or two for a wide one. */
  function Shown(p: Page, width: nat, height: nat, cell: Cell): (r: Page)
    requires width > 0
    ensures r.decoder == p.decoder
  {
    if IsWide(cell.c) then
      var q := Put(Broken(p, width, cell), height, cell.(wide := true));
      if q.x != width then Put(q, height, cell.(c := FILLER)) else q
    else
      Put(p, height, cell)
  }

  /** A character other than a carriage return, after the wrap. */
  function Placed(p: Page, width: nat, height: nat, b: byte, cell: Cell): (r: Page)
    requires width > 0
    ensures r.decoder == p.decoder
  {
    if b == NEWLINE then
      if p.x == 0 && p.hold then p.(hold := false) else NextRow(p, height)
    else if b == BELL then p
    else if b == BACKSPACE then p.(x := if p.x > 0 then p.x - 1 else 0)
    else if b == TAB then p.(x := p.x + (8 - p.x % 8))
    else Shown(p, width, height, cell)
  }

  /** One byte. Characters take effect when the decoder accepts; a rejected sequence is dropped. */
  function Write(p: Page, width: nat, height: nat, b: byte, fg: nat, bg: nat, flags: nat): (r: Page)
    requires Ok(p.decoder) && width > 0
    ensures Ok(r.decoder)
  {
    var d := Step(p.decoder, b);
    var q := p.(decoder := d);
    if d.state == UTF8_ACCEPT then
      if b == RETURN then q.(x := 0)
      else Placed(Wrapped(q, width, height), width, height, b, Cell(d.codepoint, fg, bg, flags, false))
    else if d.state == UTF8_REJECT then p.(decoder := d.(state := UTF8_ACCEPT))
    else q
  }

  function WriteAll(p: Page, width: nat, height: nat, bytes: seq<byte>, fg: nat, bg: nat, flags: nat): (r: Page)
    requires Ok(p.decoder) && width > 0
    ensures Ok(r.decoder)
    decreases |bytes|
  {
    if bytes == [] then p
    else Write(WriteAll(p, width, height, bytes[..|bytes| - 1], fg, bg, flags), width, height, bytes[|bytes| - 1], fg,
               bg, flags)
  }

  /** A stream is its bytes one after the other. */
  lemma {:induction false} StreamIs(p: Page, width: nat, height: nat, a: seq<byte>, b: seq<byte>, fg: nat, bg: nat,
                                    flags: nat)
    requires Ok(p.decoder) && width > 0
    ensures WriteAll(p, width, height, a + b, fg, bg, flags)
            == WriteAll(WriteAll(p, width, height, a, fg, bg, flags), width, height, b, fg, bg, flags)
    ensures |b| == 1 ==> WriteAll(p, width, height, b, fg, bg, flags) == Write(p, width, height, b[0], fg, bg, flags)
    decreases |b|
  {
    hide Write;
    if b == [] {
      assert a + b == a;
    } else {
      var before := b[..|b| - 1];
      StreamIs(p, width, height, a, before, fg, bg, flags);
      assert (a + b)[..|a + b| - 1] == a + before;
      assert |b| == 1 ==> before == [];
    }
  }

  /** The cursor is on the screen or behind the last column, or a wide character took it below the
      last row; below the screen all is blank. */
  ghost predicate PageOk(p: Page, width: nat, height: nat) {
    && Ok(p.decoder) && p.x <= width && p.top <= p.row <= p.top + height && (p.row == p.top + height ==> p.x < width)
    && NothingBelow(p, height)
  }

  ghost predicate NothingBelow(p: Page, height: nat) {
    forall row, x {:trigger (row, x) in p.cells} :: row >= p.top + height ==> (row, x) !in p.cells
  }

  /** The width is a multiple of 8, as the tab stops need it. */
  predicate SizeOk(width: nat, height: nat) {
    width > 0 && width % 8 == 0 && height >= 2
  }

  predicate OnScreen(p: Page, height: nat) {
    p.row < p.top + height
  }

  lemma WrappedOk(p: Page, width: nat, height: nat)
    requires PageOk(p, width, height) && SizeOk(width, height)
    ensures PageOk(Wrapped(p, width, height), width, height) && OnScreen(Wrapped(p, width, height), height)
    ensures Wrapped(p, width, height).x < width
  {
  }

  /** Where a character leaves the cursor: below the screen exactly when it is wide and breaks in
      the last row. */
  lemma ShownOk(p: Page, width: nat, height: nat, cell: Cell)
    requires PageOk(p, width, height) && SizeOk(width, height) && OnScreen(p, height) && p.x < width
    ensures PageOk(Shown(p, width, height, cell), width, height)
    ensures OnScreen(Shown(p, width, height, cell), height) <==>
            !(IsWide(cell.c) && p.x == width - 1 && p.row == p.top + height - 1)
  {
    hide IsWide;
  }

  lemma PlacedOk(p: Page, width: nat, height: nat, b: byte, cell: Cell)
    requires PageOk(p, width, height) && SizeOk(width, height) && OnScreen(p, height) && p.x < width
    ensures PageOk(Placed(p, width, height, b, cell), width, height)
  {
    hide IsWide, Shown;
    ShownOk(p, width, height, cell);
  }

  /** No byte moves the cursor out of reach. */
  lemma WriteKeepsOk(p: Page, width: nat, height: nat, b: byte, fg: nat, bg: nat, flags: nat)
    requires PageOk(p, width, height) && SizeOk(width, height)
    ensures PageOk(Write(p, width, height, b, fg, bg, flags), width, height)
  {
    hide IsWide, Placed, Wrapped;
    var q := p.(decoder := Step(p.decoder, b));
    WrappedOk(q, width, height);
    PlacedOk(Wrapped(q, width, height), width, height, b, Cell(q.decoder.codepoint, fg, bg, flags, false));
  }

  /** The character of this byte is wide, and breaks in the last row of the screen. */
  predicate BreaksBelow(p: Page, width: nat, height: nat, b: byte)
    requires Ok(p.decoder)
  {
    var d := Step(p.decoder, b);
    var q := Wrapped(p.(decoder := d), width, height);
    && d.state == UTF8_ACCEPT && b !in {RETURN, NEWLINE, BELL, BACKSPACE, TAB}
    && IsWide(d.codepoint) && q.x + 1 == width && q.row + 1 == q.top + height
  }

  /** From a cursor on the screen, a byte moves it off the screen exactly in this case. */
  lemma StaysOnScreenIff(p: Page, width: nat, height: nat, b: byte, fg: nat, bg: nat, flags: nat)
    requires PageOk(p, width, height) && SizeOk(width, height) && OnScreen(p, height)
    ensures OnScreen(Write(p, width, height, b, fg, bg, flags), height) <==> !BreaksBelow(p, width, height, b)
  {
    hide IsWide, Shown;
    var d := Step(p.decoder, b);
    var q := p.(decoder := d);
    WrappedOk(q, width, height);
    ShownOk(Wrapped(q, width, height), width, height, Cell(d.codepoint, fg, bg, flags, false));
  }

  /** The decoder after a byte, as the page keeps it. */
  function NextDecoder(d: Decoder, b: byte): (r: Decoder)
    requires Ok(d)
    ensures Ok(r)
  {
    var t := Step(d, b);
    if t.state == UTF8_REJECT then t.(state := UTF8_ACCEPT) else t
  }

  function Decoded(d: Decoder, bytes: seq<byte>): (r: Decoder)
    requires Ok(d)
    ensures Ok(r)
    decreases |bytes|
  {
    if bytes == [] then d else NextDecoder(Decoded(d, bytes[..|bytes| - 1]), bytes[|bytes| - 1])
  }

  /** None of the characters that these bytes complete is wide. */
  predicate AllNarrow(d: Decoder, bytes: seq<byte>)
    requires Ok(d)
    decreases |bytes|
  {
    bytes == []
      || (&& AllNarrow(d, bytes[..|bytes| - 1])
          && var t := Step(Decoded(d, bytes[..|bytes| - 1]), bytes[|bytes| - 1]);
          && (t.state == UTF8_ACCEPT ==> !IsWide(t.codepoint)))
  }

  /** A stream of narrow characters keeps the cursor on the screen, after every byte of it. */
  lemma {:induction false} NarrowStaysOnScreen(p: Page, width: nat, height: nat, bytes: seq<byte>, fg: nat, bg: nat,
                                               flags: nat)
    requires PageOk(p, width, height) && SizeOk(width, height) && OnScreen(p, height) && AllNarrow(p.decoder, bytes)
    ensures var q := WriteAll(p, width, height, bytes, fg, bg, flags);
            PageOk(q, width, height) && OnScreen(q, height) && q.decoder == Decoded(p.decoder, bytes)
    decreases |bytes|
  {
    if bytes != [] {
      hide Write, PageOk, OnScreen, IsWide;
      var b, q := bytes[|bytes| - 1], WriteAll(p, width, height, bytes[..|bytes| - 1], fg, bg, flags);
      NarrowStaysOnScreen(p, width, height, bytes[..|bytes| - 1], fg, bg, flags);
      WriteKeepsOk(q, width, height, b, fg, bg, flags);
      StaysOnScreenIff(q, width, height, b, fg, bg, flags);
      WriteDecodes(q, width, height, b, fg, bg, flags);
    }
  }

  lemma WriteDecodes(p: Page, width: nat, height: nat, b: byte, fg: nat, bg: nat, flags: nat)
    requires Ok(p.decoder) && width > 0
    ensures Write(p, width, height, b, fg, bg, flags).decoder == NextDecoder(p.decoder, b)
  {
    hide IsWide, Step, Wrapped, Placed;
  }

  /** How many rows have left the screen: those above the last `height` rows, or one less as long
      as the cursor is below the screen. */
  predicate TopOk(p: Page, height: nat) {
    if !OnScreen(p, height) then p.row >= height && p.top == p.row - height
    else p.top == if p.row < height then 0 else p.row - height + 1
  }

  lemma ShownKeepsTop(p: Page, width: nat, height: nat, cell: Cell)
    requires SizeOk(width, height) && OnScreen(p, height) && TopOk(p, height)
    ensures TopOk(Shown(p, width, height, cell), height)
  {
    hide IsWide;
  }

  lemma WriteKeepsTop(p: Page, width: nat, height: nat, b: byte, fg: nat, bg: nat, flags: nat)
    requires PageOk(p, width, height) && SizeOk(width, height) && TopOk(p, height)
    ensures TopOk(Write(p, width, height, b, fg, bg, flags), height)
  {
    hide IsWide, Step, Shown;
    var d := Step(p.decoder, b);
    var q := p.(decoder := d);
    WrappedOk(q, width, height);
    ShownKeepsTop(Wrapped(q, width, height), width, height, Cell(d.codepoint, fg, bg, flags, false));
  }

  /** From the top of the page on, this holds after every stream of bytes. */
  lemma {:induction false} TopIsRow(p: Page, width: nat, height: nat, bytes: seq<byte>, fg: nat, bg: nat, flags: nat)
    requires PageOk(p, width, height) && SizeOk(width, height) && TopOk(p, height)
    ensures var q := WriteAll(p, width, height, bytes, fg, bg, flags);
            PageOk(q, width, height) && TopOk(q, height)
    decreases |bytes|
  {
    if bytes != [] {
      hide Write, PageOk, TopOk;
      var q := WriteAll(p, width, height, bytes[..|bytes| - 1], fg, bg, flags);
      TopIsRow(p, width, height, bytes[..|bytes| - 1], fg, bg, flags);
      WriteKeepsOk(q, width, height, bytes[|bytes| - 1], fg, bg, flags);
      WriteKeepsTop(q, width, height, bytes[|bytes| - 1], fg, bg, flags);
    }
  }

  /** The bytes before the last one of a character leave the page alone. */
  lemma {:induction false} NothingYet(p: Page, width: nat, height: nat, bytes: seq<byte>, fg: nat, bg: nat, flags: nat)
    requires Ok(p.decoder) && width > 0
    requires forall k :: 0 < k <= |bytes| ==>
               Run(p.decoder, bytes[..k]).state != UTF8_ACCEPT && Run(p.decoder, bytes[..k]).state != UTF8_REJECT
    ensures WriteAll(p, width, height, bytes, fg, bg, flags) == p.(decoder := Run(p.decoder, bytes))
    decreases |bytes|
  {
    hide Placed, Wrapped, IsWide;
    if bytes != [] {
      var before := bytes[..|bytes| - 1];
      assert forall k :: 0 < k <= |before| ==> before[..k] == bytes[..k];
      NothingYet(p, width, height, before, fg, bg, flags);
      assert bytes == before + [bytes[|bytes| - 1]] && bytes[..|bytes|] == bytes;
      RunMore(p.decoder, before, bytes[|bytes| - 1]);
    }
  }

  /** The wrap: a cursor behind the last column goes to the start of the next row, and the screen
      follows a cursor that has left its last row. */
  lemma WrappedIs(p: Page, width: nat, height: nat)
    ensures var q := Wrapped(p, width, height);
            && q.cells == p.cells && q.hold == p.hold && q.decoder == p.decoder
            && q.row == (if p.x == width then p.row + 1 else p.row) && q.x == (if p.x == width then 0 else p.x)
            && q.top == if q.row == p.top + height then p.top + 1 else p.top
  {
  }

  /** The control characters, on the cursor after the wrap. A newline goes to the next row and stays
      in its column, but in column 0 it may be held back once; a tab goes to the next multiple of 8, a
      backspace one column to the left, and the bell nowhere. A return goes to column 0 without a wrap. */
  lemma ControlIs(p: Page, width: nat, height: nat, b: byte, fg: nat, bg: nat, flags: nat)
    requires PageOk(p, width, height) && SizeOk(width, height) && p.decoder.state == UTF8_ACCEPT
    requires b in {7, 8, 9, 10, 13}
    ensures var q := Write(p, width, height, b, fg, bg, flags);
            var row, x := if p.x == width then p.row + 1 else p.row, if p.x == width then 0 else p.x;
            && q.cells == p.cells && q.decoder.state == UTF8_ACCEPT
            && (b == 10 && x == 0 && p.hold ==> q.row == row && q.x == 0 && !q.hold)
            && (b == 10 && !(x == 0 && p.hold) ==> q.row == row + 1 && q.x == x && q.hold == p.hold)
            && (b == 9 ==> q.row == row && x < q.x <= x + 8 && q.x % 8 == 0 && q.hold == p.hold)
            && (b == 8 ==> q.row == row && q.x == (if x > 0 then x - 1 else 0) && q.hold == p.hold)
            && (b == 7 ==> q.row == row && q.x == x && q.hold == p.hold)
            && (b == 13 ==> q.row == p.row && q.x == 0 && q.hold == p.hold)
  {
    hide IsWide, Shown;
    AsciiIs(p.decoder, b);
  }

  lemma AsciiIs(d: Decoder, b: byte)
    requires Ok(d) && d.state == UTF8_ACCEPT && b < 128
    ensures Step(d, b).state == UTF8_ACCEPT
  {
  }

  /** A byte that does not complete a character shows nothing; after one that cannot belong to any the
      decoder starts anew. */
  lemma IncompleteIs(p: Page, width: nat, height: nat, b: byte, fg: nat, bg: nat, flags: nat)
    requires Ok(p.decoder) && width > 0 && Step(p.decoder, b).state != UTF8_ACCEPT
    ensures var q := Write(p, width, height, b, fg, bg, flags);
            && q.cells == p.cells && q.row == p.row && q.x == p.x && q.top == p.top && q.hold == p.hold
            && q.decoder.state ==
               if Step(p.decoder, b).state == UTF8_REJECT then UTF8_ACCEPT else Step(p.decoder, b).state
  {
    hide Step;
  }

  /** A character that is not one of these. */
  predicate IsShown(c: nat) {
    IsScalar(c) && c !in {7, 8, 9, 10, 13}
  }

  /** The encoding of a character puts the character itself where the cursor is, and behind it a
      filler if it is wide. */
  lemma CharacterIsPlaced(p: Page, width: nat, height: nat, c: nat, fg: nat, bg: nat, flags: nat)
    requires PageOk(p, width, height) && SizeOk(width, height)
    requires p.decoder.state == UTF8_ACCEPT && IsShown(c)
    ensures var q := Wrapped(p.(decoder := Decoder(UTF8_ACCEPT, c)), width, height);
            && WriteAll(p, width, height, Encode(c), fg, bg, flags)
              == Shown(q, width, height, Cell(c, fg, bg, flags, false))
            && (!IsWide(c) ==> WriteAll(p, width, height, Encode(c), fg, bg, flags)
                               == q.(cells := q.cells[(q.row, q.x) := Cell(c, fg, bg, flags, false)], x := q.x + 1))
    ensures var q := WriteAll(p, width, height, Encode(c), fg, bg, flags);
            var row, x := if p.x == width then p.row + 1 else p.row, if p.x == width then 0 else p.x;
            !IsWide(c) ==>
              q.row == row && q.x == x + 1 && q.hold == p.hold
              && q.cells == p.cells[(row, x) := Cell(c, fg, bg, flags, false)]
  {
    EncodingIsWritten(p, width, height, c, fg, bg, flags);
    WrappedOk(p.(decoder := Decoder(UTF8_ACCEPT, c)), width, height);
  }

  /** The first of the CJK ideographs, written in the last column of the last row, leaves the cursor
      below the screen. */
  lemma WideLeavesScreen(p: Page, width: nat, height: nat, fg: nat, bg: nat, flags: nat)
    requires PageOk(p, width, height) && SizeOk(width, height) && p.decoder.state == UTF8_ACCEPT
    requires p.x == width - 1 && p.row == p.top + height - 1
    ensures IsScalar(0x4e00) && IsWide(0x4e00)
    ensures !OnScreen(WriteAll(p, width, height, Encode(0x4e00), fg, bg, flags), height)
  {
    var q := p.(decoder := Decoder(UTF8_ACCEPT, 0x4e00));
    CharacterIsPlaced(p, width, height, 0x4e00, fg, bg, flags);
    ShownOk(q, width, height, Cell(0x4e00, fg, bg, flags, false));
  }

  lemma LastByte(c: nat)
    requires IsShown(c)
    ensures Encode(c)[|Encode(c)| - 1] !in {RETURN, NEWLINE, BELL, BACKSPACE, TAB}
  {
  }

  lemma EncodingIsWritten(p: Page, width: nat, height: nat, c: nat, fg: nat, bg: nat, flags: nat)
    requires Ok(p.decoder) && p.decoder.state == UTF8_ACCEPT && width > 0 && IsShown(c)
    ensures WriteAll(p, width, height, Encode(c), fg, bg, flags)
            == Shown(Wrapped(p.(decoder := Decoder(UTF8_ACCEPT, c)), width, height), width, height,
                     Cell(c, fg, bg, flags, false))
  {
    var e := Encode(c);
    var before, last := e[..|e| - 1], e[|e| - 1];
    LastByte(c);
    AcceptsEncoding(c, p.decoder.codepoint);
    hide Encode, Step, Run, Wrapped, Shown, IsScalar;
    assert forall k :: 0 < k <= |before| ==> before[..k] == e[..k];
    NothingYet(p, width, height, before, fg, bg, flags);
    assert e == before + [last];
    RunMore(p.decoder, before, last);
  }

  /** A wide character is in two cells of one row, and is lost exactly when it breaks in the last
      row of the screen. */
  lemma WideIsShownIff(q: Page, width: nat, height: nat, c: nat, fg: nat, bg: nat, flags: nat)
    requires PageOk(q, width, height) && SizeOk(width, height) && OnScreen(q, height) && q.x < width && IsWide(c)
    ensures var r := Shown(q, width, height, Cell(c, fg, bg, flags, false));
            var row, x := if q.x == width - 1 then q.row + 1 else q.row, if q.x == width - 1 then 0 else q.x;
            var left, right := Cell(c, fg, bg, flags, true), Cell(0xFFFF, fg, bg, flags, false);
            && x + 1 < width && r.row == row && r.x == x + 2 && r.hold == q.hold && r.top == q.top
            && r.cells == if q.x == width - 1 && q.row == q.top + height - 1 then q.cells
                          else q.cells[(row, x) := left][(row, x + 1) := right]
  {
    hide IsWide;
  }

  // ---------------------------------------------------------------- the unit

  /** A cell of the buffer. */
  function Index(width: nat, y: nat, x: nat): nat {
    Times(width, y) + x
  }

  lemma IndexFits(width: nat, height: nat, y: nat, x: nat)
    requires y < height && x < width
    ensures Index(width, y, x) < Times(width, height) && Times(width, y + 1) == Times(width, y) + width
  {
    TimesMonotone(width, y + 1, height);
  }

  lemma IndexApart(width: nat, y: nat, x: nat, y': nat, x': nat)
    requires x < width && x' < width && Index(width, y, x) == Index(width, y', x')
    ensures y == y' && x == x'
  {
    RestAt(y, x, width);
    RestAt(y', x', width);
  }

  /** struct ConsoleUnit, with the static variables of term_write. Drawing is left out. */
  class ConsoleUnit {
    const width: nat
    const height: nat
    const buffer: array<Cell>
    var x: nat            // csr_x
    var y: nat            // csr_y
    var holdOut: bool
    var unicodeState: nat
    var codepoint: nat
    const fg: nat
    const bg: nat
    const flags: nat

    constructor (width: nat, height: nat, fg: nat, bg: nat, flags: nat)
      requires SizeOk(width, height)
      ensures this.width == width && this.height == height && this.fg == fg && this.bg == bg && this.flags == flags
      ensures fresh(buffer) && Shows(Page(map[], 0, 0, 0, false, Decoder(UTF8_ACCEPT, 0)))
    {
      this.width, this.height, this.fg, this.bg, this.flags := width, height, fg, bg, flags;
      x, y, holdOut, unicodeState, codepoint := 0, 0, false, 0, 0;
      buffer := new Cell[Times(width, height)](_ => BLANK);
      new;
      forall row: nat, col: nat {:trigger Index(width, row, col)} | row < height && col < width
        ensures Index(width, row, col) < buffer.Length
      {
        IndexFits(width, height, row, col);
      }
    }

    /** The buffer shows rows top to top + height - 1 of the page, and the cursor is where the
        page says. */
    ghost predicate Shows(p: Page)
      reads this, buffer
    {
      && SizeOk(width, height)
      && PageOk(p, width, height)
      && buffer.Length == Times(width, height)
      && x == p.x && y == p.row - p.top && holdOut == p.hold
      && unicodeState == p.decoder.state && codepoint == p.decoder.codepoint
      && BufferShows(p)
    }

    ghost predicate BufferShows(p: Page)
      reads buffer
    {
      CellsShow(buffer[..], p.cells, p.top)
    }

    /** The cells `now` are those of the screen that starts at row `top`. */
    ghost predicate CellsShow(now: seq<Cell>, cells: map<(nat, nat), Cell>, top: nat) {
      forall row: nat, col: nat {:trigger Index(width, row, col)} :: row < height && col < width ==>
        Index(width, row, col) < |now| && now[Index(width, row, col)] == CellAt(cells, top + row, col)
    }

    /** MemMove between places of the buffer, counted in cells. */
    method MemMove(to: nat, from: nat, n: nat)
      requires to + n <= buffer.Length && from + n <= buffer.Length
      modifies buffer
      ensures MovedBy(old(buffer[..]), to, from, to, to + n, buffer[..])
    {
      ghost var was := buffer[..];
      if to <= from {
        MoveForward(to, from, n, was);
      } else {
        MoveBackward(to, from, n, was);
      }
    }

    method MoveForward(to: nat, from: nat, n: nat, ghost was: seq<Cell>)
      requires to + n <= buffer.Length && from + n <= buffer.Length && to <= from && was == buffer[..]
      modifies buffer
      ensures MovedBy(was, to, from, to, to + n, buffer[..])
    {
      var k := 0;
      while k < n
        invariant 0 <= k <= n
        invariant MovedBy(was, to, from, to, to + k, buffer[..])
      {
        assert buffer[..][from + k] == was[from + k];
        buffer[to + k] := buffer[from + k];
        k := k + 1;
      }
    }

    method MoveBackward(to: nat, from: nat, n: nat, ghost was: seq<Cell>)
      requires to + n <= buffer.Length && from + n <= buffer.Length && from < to && was == buffer[..]
      modifies buffer
      ensures MovedBy(was, to, from, to, to + n, buffer[..])
    {
      var k := n;
      while k > 0
        invariant 0 <= k <= n
        invariant MovedBy(was, to, from, to + k, to + n, buffer[..])
      {
        k := k - 1;
        assert buffer[..][from + k] == was[from + k];
        buffer[to + k] := buffer[from + k];
      }
    }

    /** term_scroll by one row. */
    method ScrollUp()
      requires height >= 2 && buffer.Length == Times(width, height)
      modifies buffer
      ensures Scrolled(width, height, old(buffer[..]), buffer[..])
    {
      ghost var was := buffer[..];
      assert Times(width, height) == width + Times(width, height - 1);
      MemMove(0, width, Times(width, height - 1));
      ghost var moved := buffer[..];
      assert forall i :: 0 <= i < Times(width, height - 1) ==> moved[i] == was[i + width];
      forall i | Times(width, height - 1) <= i < buffer.Length {
        buffer[i] := BLANK;
      }
      assert forall i :: 0 <= i < Times(width, height - 1) ==> buffer[i] == moved[i];
    }

    /** What Shows says apart from the cells. */
    ghost predicate CursorAt(p: Page)
      reads this
    {
      x == p.x && y == p.row - p.top && holdOut == p.hold && unicodeState == p.decoder.state
        && codepoint == p.decoder.codepoint
    }

    /** The scroll that term_write does when the cursor has left the last row. */
    method ScrollIfNeeded(ghost p: Page)
      requires SizeOk(width, height) && NothingBelow(p, height) && p.top <= p.row <= p.top + height
      requires buffer.Length == Times(width, height) && BufferShows(p) && CursorAt(p)
      modifies buffer, this`y
      ensures BufferShows(Settled(p, height)) && CursorAt(Settled(p, height))
    {
      hide CellsShow, Scrolled, NothingBelow;
      if y != height {
        return;
      }
      ghost var was := buffer[..];
      ScrollUp();
      y := height - 1;
      ScrolledCells(p, was, buffer[..]);
    }

    lemma ScrolledCells(p: Page, was: seq<Cell>, now: seq<Cell>)
      requires NothingBelow(p, height) && height >= 2 && |was| == |now| == Times(width, height)
      requires CellsShow(was, p.cells, p.top) && Scrolled(width, height, was, now)
      ensures CellsShow(now, p.cells, p.top + 1)
    {
      forall row: nat, col: nat {:trigger Index(width, row, col)} | row < height && col < width
        ensures Index(width, row, col) < |now| && now[Index(width, row, col)] == CellAt(p.cells, p.top + 1 + row, col)
      {
        ScrolledCell(p, was, now, row, col);
      }
    }

    /** A cell after the scroll is the one a row below before it, or a new one. */
    lemma ScrolledCell(p: Page, was: seq<Cell>, now: seq<Cell>, row: nat, col: nat)
      requires NothingBelow(p, height) && height >= 2 && row < height && col < width
      requires |was| == |now| == Times(width, height)
      requires CellsShow(was, p.cells, p.top) && Scrolled(width, height, was, now)
      ensures Index(width, row, col) < |now| && now[Index(width, row, col)] == CellAt(p.cells, p.top + 1 + row, col)
    {
      IndexFits(width, height, row, col);
      if row + 1 < height {
        IndexFits(width, height - 1, row, col);
        IndexFits(width, height, row + 1, col);
        assert Index(width, row + 1, col) == Index(width, row, col) + width;
      } else {
        assert Index(width, row, col) >= Times(width, height - 1);
        assert (p.top + height, col) !in p.cells;
      }
    }

    /** cell_set */
    method CellSet(x: nat, y: nat, c: nat, wide: bool)
      requires buffer.Length == Times(width, height)
      modifies buffer
      ensures forall row: nat, col: nat {:trigger Index(width, row, col)} ::
                row < height && col < width && Index(width, row, col) < buffer.Length ==>
                buffer[Index(width, row, col)]
                == if row == y && col == x then Cell(c, fg, bg, flags, wide) else old(buffer[Index(width, row, col)])
    {
      if x >= width || y >= height {
        return;
      }
      IndexFits(width, height, y, x);
      buffer[Index(width, y, x)] := Cell(c, fg, bg, flags, wide);
      forall row: nat, col: nat {:trigger Index(width, row, col)} | row < height && col < width
        && Index(width, row, col) == Index(width, y, x)
        ensures row == y && col == x
      {
        IndexApart(width, row, col, y, x);
      }
    }

    /** cell_set at the cursor and the step to the next column, against the page. */
    method SetAndStep(c: nat, wide: bool, ghost p: Page)
      requires SizeOk(width, height) && buffer.Length == Times(width, height) && BufferShows(p) && CursorAt(p)
      requires p.x < width
      modifies buffer, this`x
      ensures BufferShows(Put(p, height, Cell(c, fg, bg, flags, wide)))
      ensures CursorAt(Put(p, height, Cell(c, fg, bg, flags, wide)))
    {
      CellSet(x, y, c, wide);
      x := x + 1;
      ghost var q := Put(p, height, Cell(c, fg, bg, flags, wide));
      forall row: nat, col: nat {:trigger Index(width, row, col)} | row < height && col < width
        ensures Index(width, row, col) < buffer.Length
        ensures buffer[Index(width, row, col)] == CellAt(q.cells, q.top + row, col)
      {
        IndexFits(width, height, row, col);
      }
    }

    /** The start of a new row, for a newline. */
    method NewRow(ghost p: Page)
      requires Shows(p) && OnScreen(p, height)
      modifies buffer, this`y
      ensures BufferShows(NextRow(p, height)) && CursorAt(NextRow(p, height))
    {
      hide CellsShow;
      y := y + 1;
      ScrollIfNeeded(p.(row := p.row + 1));
    }

    /** The wrap at the end of a full row, and the scroll. */
    method Wrap(ghost p: Page)
      requires Shows(p)
      modifies buffer, this`x, this`y
      ensures Shows(Wrapped(p, width, height)) && x < width && y < height
    {
      hide CellsShow;
      WrappedOk(p, width, height);
      if x == width {
        x := 0;
        y := y + 1;
        ScrollIfNeeded(p.(x := 0, row := p.row + 1));
      } else {
        ScrollIfNeeded(p);
      }
    }

    /** What term_write does with a character that is shown. */
    method PlaceChar(ghost p: Page)
      requires Shows(p) && x < width && y < height
      modifies buffer, this`x, this`y
      ensures BufferShows(Shown(p, width, height, Cell(codepoint, fg, bg, flags, false)))
      ensures CursorAt(Shown(p, width, height, Cell(codepoint, fg, bg, flags, false)))
    {
      hide IsWide;
      if !IsWide(codepoint) {
        SetAndStep(codepoint, false, p);
        return;
      }
      ghost var cell := Cell(codepoint, fg, bg, flags, false);
      ghost var q := Broken(p, width, cell);
      if x == width - 1 {
        x := 0;
        y := y + 1;
      }
      SetAndStep(codepoint, true, q);
      if x != width {
        SetAndStep(FILLER, false, Put(q, height, cell.(wide := true)));
      }
    }

    /** What term_write does with a character after the wrap. */
    method Place(c: byte, ghost p: Page)
      requires Shows(p) && x < width && y < height
      modifies buffer, this`x, this`y, this`holdOut
      ensures Shows(Placed(p, width, height, c, Cell(codepoint, fg, bg, flags, false)))
    {
      hide IsWide, Shown, Settled;
      PlacedOk(p, width, height, c, Cell(codepoint, fg, bg, flags, false));
      if c == NEWLINE {
        if x == 0 && holdOut {
          holdOut := false;
          return;
        }
        NewRow(p);
      } else if c == BELL {
        return;
      } else if c == BACKSPACE {
        if x > 0 {
          x := x - 1;
        }
      } else if c == TAB {
        x := x + (8 - x % 8);
      } else {
        PlaceChar(p);
      }
    }

    /** decode */
    method Decode(b: byte)
      requires unicodeState < 9
      modifies this`unicodeState, this`codepoint
      ensures Decoder(unicodeState, codepoint) == Step(Decoder(old(unicodeState), old(codepoint)), b)
    {
      var kind := Class(b);
      codepoint := if unicodeState != UTF8_ACCEPT
        then (b as nat % 64 + codepoint * 64) % 0x1_0000_0000 else b as nat % (Mask(kind) + 1);
      unicodeState := TRANSITIONS[unicodeState][kind];
    }

    /** term_write of one byte, against the page. */
    method TermWrite(c: byte, ghost p: Page)
      requires Shows(p)
      modifies buffer, this`x, this`y, this`holdOut, this`unicodeState, this`codepoint
      ensures Shows(Write(p, width, height, c, fg, bg, flags))
      ensures x <= width && y <= height
    {
      hide IsWide, Placed, Wrapped, CellsShow;
      ghost var q := p.(decoder := Step(p.decoder, c));
      Decode(c);
      if unicodeState != UTF8_ACCEPT {
        if unicodeState == UTF8_REJECT {
          unicodeState := UTF8_ACCEPT;
        }
        return;
      }
      if c == RETURN {
        x := 0;
        return;
      }
      Wrap(q);
      Place(c, Wrapped(q, width, height));
    }

    /** A stream of bytes: after every byte the screen is the part of the page that starts at
        the row counted by the scrolls. */
    method WriteStream(bytes: seq<byte>, ghost p: Page)
      requires Shows(p)
      modifies buffer, this`x, this`y, this`holdOut, this`unicodeState, this`codepoint
      ensures Shows(WriteAll(p, width, height, bytes, fg, bg, flags))
    {
      hide Write;
      var i := 0;
      while i < |bytes|
        invariant 0 <= i <= |bytes|
        invariant Shows(WriteAll(p, width, height, bytes[..i], fg, bg, flags))
      {
        assert bytes[..i + 1][..i] == bytes[..i];
        TermWrite(bytes[i], WriteAll(p, width, height, bytes[..i], fg, bg, flags));
        i := i + 1;
      }
      assert bytes[..i] == bytes;
    }
  }

  /** Every row but the last comes from the row below it, and the last is blank. */
  ghost predicate Scrolled(width: nat, height: nat, was: seq<Cell>, now: seq<Cell>)
    requires height > 0
  {
    && |now| == |was|
    && forall i {:trigger now[i]} :: 0 <= i < |now| ==>
         if i < Times(width, height - 1) then i + width < |was| && now[i] == was[i + width] else now[i] == BLANK
  }

  /** Elements `lo` to `hi` come from as far away as `from` is from `to`; the others stay. */
  ghost predicate MovedBy(was: seq<Cell>, to: nat, from: nat, lo: nat, hi: nat, now: seq<Cell>) {
    && |now| == |was|
    && forall i {:trigger now[i]} :: 0 <= i < |now| ==>
         if lo <= i < hi then 0 <= i - to + from < |was| && now[i] == was[i - to + from] else now[i] == was[i]
  }
}
