/** The terminal renderer (src/display.ts). A printed line is a sequence of
    pieces, each an ANSI escape or visible text, so that widths and contents
    are stated about the visible text alone. Each `display*` function returns
    the lines it would print, one per `console.log` call. Percentages are
    reals: `Math.floor` is `.Floor` and `Math.round(x)` is `(x + 0.5).Floor`.
    The clock is the parameter `now`, in milliseconds. */
module Display {
  import opened Common
  import opened Text
  import ClaudeProvider
  import CodexProvider

  const LineWidth := 62
  const BarWidth := 20
  const FullBlock := '█'

  /** The glyph of a cell filled to `eighths` eighths: a blank, or one of the
      block elements U+258F (one eighth) down to U+2588 (full). */
  function Block(eighths: int): char
    requires 0 <= eighths <= 8
  {
    if eighths == 0 then ' ' else (0x2590 - eighths) as char
  }

  /** The glyph table, from empty to full. */
  lemma BlockTable()
    ensures seq(9, i requires 0 <= i < 9 => Block(i)) == [' ', '▏', '▎', '▍', '▌', '▋', '▊', '▉', '█']
  {
  }

  /** The ANSI escapes the renderer emits (their byte sequences are not modelled). */
  datatype Style = Dim | Reset | Bold | Red | Yellow | Green | BarBackground

  datatype Piece = Esc(style: Style) | Txt(text: string)

  type Line = seq<Piece>

  function TextOf(p: Piece): string {
    if p.Txt? then p.text else ""
  }

  /** What the terminal shows: the text pieces, escapes dropped. */
  function Visible(l: Line): string
    decreases |l|
  {
    if |l| == 0 then "" else TextOf(l[0]) + Visible(l[1..])
  }

  lemma {:induction false} VisibleConcat(a: Line, b: Line)
    ensures Visible(a + b) == Visible(a) + Visible(b)
    decreases |a|
  {
    if a == [] {
      assert a + b == b;
    } else {
      assert (a + b)[0] == a[0];
      assert (a + b)[1..] == a[1..] + b;
      VisibleConcat(a[1..], b);
    }
  }

  lemma VisibleOne(a: Piece)
    ensures Visible([a]) == TextOf(a)
  {
    assert [a][1..] == [];
  }

  lemma VisibleThree(a: Piece, b: Piece, c: Piece)
    ensures Visible([a, b, c]) == TextOf(a) + TextOf(b) + TextOf(c)
  {
    assert [a, b, c][1..] == [b, c];
    assert [b, c][1..] == [c];
    VisibleOne(c);
  }

  lemma VisibleFour(a: Piece, b: Piece, c: Piece, d: Piece)
    ensures Visible([a, b, c, d]) == TextOf(a) + TextOf(b) + TextOf(c) + TextOf(d)
  {
    assert [a, b, c, d][1..] == [b, c, d];
    VisibleThree(b, c, d);
  }

  function JsRound(x: real): int {
    (x + 0.5).Floor
  }

  // ---------------------------------------------------------------- severity


  /** The three-tier colour: red from 80, yellow from 50, green below; a
      boundary value takes the higher tier. */
  function ColorForPercent(pct: real): (c: Style)
    ensures c == Red <==> pct >= 80.0
    ensures c == Yellow <==> 50.0 <= pct < 80.0
    ensures c == Green <==> pct < 50.0
  {
    if pct >= 80.0 then Red
    else if pct >= 50.0 then Yellow
    else Green
  }

  function Severity(c: Style): nat {
    match c
    case Red => 2
    case Yellow => 1
    case _ => 0
  }

  /** A higher percentage never gets a milder colour. */
  lemma ColorMonotone(p: real, q: real)
    requires p <= q
    ensures Severity(ColorForPercent(p)) <= Severity(ColorForPercent(q))
  {
  }

  /** A status dot in the given colour. */
  function DotOf(color: Style): (l: Line)
    ensures |l| == 3 && l[0] == Esc(color) && Visible(l) == "●"
  {
    VisibleThree(Esc(color), Txt("●"), Esc(Reset));
    [Esc(color), Txt("●"), Esc(Reset)]
  }

  /** `dot`: the status dot in the colour of the percentage. */
  function Dot(pct: real): (l: Line)
    ensures Visible(l) == "●" && l[0] == Esc(ColorForPercent(pct))
  {
    DotOf(ColorForPercent(pct))
  }

  // ---------------------------------------------------------------- bar

  /** The cell counts `bar` computes: whole cells, the rounded eighth of the
      next cell, whether that eighth is drawn, and the blank cells. */
  datatype BarCells = BarCells(full: int, partialIndex: int, hasPartial: bool, empty: int)

  function CellsOf(percent: real): BarCells {
    var total := percent / 100.0 * BarWidth as real;
    var full := total.Floor;
    var partialIndex := JsRound((total - full as real) * 8.0);
    var hasPartial := 0 < partialIndex < 8;
    BarCells(full, partialIndex, hasPartial, BarWidth - full - if hasPartial then 1 else 0)
  }

  /** For a percentage in range the three kinds of cell are non-negative and
      fill the bar exactly; a drawn partial glyph is neither blank nor full. */
  lemma CellsInRange(percent: real)
    requires 0.0 <= percent <= 100.0
    ensures var c := CellsOf(percent);
      && 0 <= c.full <= BarWidth && 0 <= c.empty && 0 <= c.partialIndex <= 8
      && c.full + (if c.hasPartial then 1 else 0) + c.empty == BarWidth
      && (c.hasPartial ==> 0 < c.partialIndex < 8
                           && Block(c.partialIndex) != ' ' && Block(c.partialIndex) != FullBlock)
  {
    var total := percent / 100.0 * BarWidth as real;
    assert 0.0 <= total <= 20.0;
    var c := CellsOf(percent);
    assert c.full == 20 ==> total == 20.0;
  }

  function PartialGlyph(c: BarCells): string {
    if c.hasPartial && 0 < c.partialIndex < 8 then [Block(c.partialIndex)] else ""
  }

  /** One group of cells: its colour, the grey background, the cells, a reset. */
  function CellGroup(lead: Style, cells: string): (l: Line)
    ensures Visible(l) == cells
  {
    VisibleFour(Esc(lead), Esc(BarBackground), Txt(cells), Esc(Reset));
    [Esc(lead), Esc(BarBackground), Txt(cells), Esc(Reset)]
  }

  /** Every run of cells is drawn over the grey background, in `fill` when
      it is filled and dimmed when it is blank. */
  predicate CellsStyled(l: Line, fill: Style) {
    forall k :: 0 <= k < |l| && l[k].Txt? ==>
      && 2 <= k && |l[k].text| > 0 && l[k - 1] == Esc(BarBackground)
      && l[k - 2] == Esc(if l[k].text[0] == ' ' then Dim else fill)
  }

  lemma CellGroupStyled(lead: Style, cells: string, fill: Style)
    requires |cells| > 0 && lead == (if cells[0] == ' ' then Dim else fill)
    ensures CellsStyled(CellGroup(lead, cells), fill)
  {
  }

  lemma {:induction false} CellsStyledConcat(a: Line, b: Line, fill: Style)
    requires CellsStyled(a, fill) && CellsStyled(b, fill)
    ensures CellsStyled(a + b, fill)
  {
    forall k | 0 <= k < |a + b| && (a + b)[k].Txt?
      ensures 2 <= k && |(a + b)[k].text| > 0 && (a + b)[k - 1] == Esc(BarBackground)
      ensures (a + b)[k - 2] == Esc(if (a + b)[k].text[0] == ' ' then Dim else fill)
    {
      if k < |a| {
        assert (a + b)[k] == a[k] && (a + b)[k - 1] == a[k - 1] && (a + b)[k - 2] == a[k - 2];
      } else {
        var j := k - |a|;
        assert (a + b)[k] == b[j] && b[j].Txt?;
        assert (a + b)[k - 1] == b[j - 1] && (a + b)[k - 2] == b[j - 2];
      }
    }
  }

  /** The groups of `bar`, styled: full cells and the partial glyph in the
      percentage's colour, blanks dimmed, all over the grey background. */
  lemma BarGroupsStyled(percent: real)
    ensures var c := CellsOf(percent);
      var color := ColorForPercent(percent);
      && CellsStyled(if c.full > 0 then CellGroup(color, Repeat(FullBlock, c.full)) else [], color)
      && CellsStyled(if c.hasPartial then CellGroup(color, PartialGlyph(c)) else [], color)
      && CellsStyled(if c.empty > 0 then CellGroup(Dim, Spaces(c.empty)) else [], color)
  {
    var c := CellsOf(percent);
    var color := ColorForPercent(percent);
    if c.full > 0 {
      CellGroupStyled(color, Repeat(FullBlock, c.full), color);
    }
    if c.hasPartial {
      assert Block(c.partialIndex) != ' ';
      CellGroupStyled(color, PartialGlyph(c), color);
    }
    if c.empty > 0 {
      CellGroupStyled(Dim, Spaces(c.empty), color);
    }
  }

  /** `bar`: coloured full cells, at most one partial glyph, dimmed blanks,
      each group omitted when it has no cell. The cells are drawn in the
      colour tier of the percentage, the blanks dimmed, all over the grey
      background. */
  function Bar(percent: real): (l: Line)
    ensures var c := CellsOf(percent);
      Visible(l) == (if c.full > 0 then Repeat(FullBlock, c.full) else "")
                    + (if c.hasPartial then PartialGlyph(c) else "")
                    + (if c.empty > 0 then Spaces(c.empty) else "")
    ensures CellsStyled(l, ColorForPercent(percent))
    ensures CellsOf(percent).full > 0 ==> l[0] == Esc(ColorForPercent(percent))
  {
    var c := CellsOf(percent);
    var color := ColorForPercent(percent);
    var fullPart := if c.full > 0 then CellGroup(color, Repeat(FullBlock, c.full)) else [];
    var partialPart := if c.hasPartial then CellGroup(color, PartialGlyph(c)) else [];
    var emptyPart := if c.empty > 0 then CellGroup(Dim, Spaces(c.empty)) else [];
    VisibleConcat(fullPart + partialPart, emptyPart);
    VisibleConcat(fullPart, partialPart);
    BarGroupsStyled(percent);
    CellsStyledConcat(fullPart, partialPart, color);
    CellsStyledConcat(fullPart + partialPart, emptyPart, color);
    fullPart + partialPart + emptyPart
  }

  /** For a percentage in range the bar shows exactly 20 cells: `full` full
      blocks, then the partial glyph if any, then `empty` blanks. */
  lemma BarVisible(percent: real)
    requires 0.0 <= percent <= 100.0
    ensures var c := CellsOf(percent);
      && Visible(Bar(percent)) == Repeat(FullBlock, c.full) + PartialGlyph(c) + Spaces(c.empty)
      && |Visible(Bar(percent))| == BarWidth
  {
    CellsInRange(percent);
  }

  // ---------------------------------------------------------------- durations

  /** Whole minutes split into days, hours of the day and minutes of the hour. */
  datatype Span = Span(days: nat, hours: nat, mins: nat)

  function SplitMinutes(totalMin: nat): (s: Span)
    ensures s.hours < 24 && s.mins < 60
    ensures totalMin == s.days * 1440 + s.hours * 60 + s.mins
  {
    var days := totalMin / 1440;
    var rest := totalMin % 1440;
    var hours := rest / 60;
    var mins := rest % 60;
    assert totalMin == days * 1440 + rest;
    assert rest == hours * 60 + mins;
    assert totalMin == (days * 24 + hours) * 60 + mins;
    assert totalMin % 60 == mins;
    Span(days, hours, totalMin % 60)
  }

  function UnitToken(v: nat, unit: char): (t: string)
    ensures |t| >= 2 && t[|t| - 1] == unit && t[..|t| - 1] == NatToString(v)
    ensures IsDigit(t[0]) && (IsUnitToken(t, unit) <==> v > 0)
  {
    NatToString(v) + [unit]
  }

  function OptToken(v: nat, unit: char): seq<string> {
    if v > 0 then [UnitToken(v, unit)] else []
  }

  /** The minutes a label shows: none once there is a day. */
  function ShownMinutes(s: Span): nat {
    if s.days > 0 then 0 else s.mins
  }

  /** The non-zero components in the order days, hours, minutes. */
  function DurationWords(s: Span): seq<string> {
    OptToken(s.days, 'd') + OptToken(s.hours, 'h') + OptToken(ShownMinutes(s), 'm')
  }

  /** For a positive delta the joined components are empty exactly under a
      minute, and otherwise start with a digit, so they are never "now" or "< 1m". */
  lemma JoinedWords(ms: int)
    requires ms > 0
    ensures var joined := Join(DurationWords(SplitMinutes(ms / 60000)), " ");
      && (|joined| == 0 <==> ms < 60000)
      && (ms >= 60000 ==> IsDigit(joined[0]) && joined != "now" && joined != "< 1m")
  {
    var s := SplitMinutes(ms / 60000);
    var words := DurationWords(s);
    if ms >= 60000 {
      DurationWordsShape(s);
      assert words[0][0] == Join(words, " ")[0];
      assert !IsDigit("now"[0]) && !IsDigit("< 1m"[0]);
    } else {
      assert words == [];
    }
  }

  /** `formatDuration`: the label for a delta of `ms` milliseconds; "now"
      exactly for a delta that is not positive, "< 1m" exactly for a positive
      delta under a minute. */
  function DurationLabel(ms: int): (r: string)
    ensures r == "now" <==> ms <= 0
    ensures r == "< 1m" <==> 0 < ms < 60000
  {
    if ms <= 0 then "now"
    else
      JoinedWords(ms);
      var joined := Join(DurationWords(SplitMinutes(ms / 60000)), " ");
      if |joined| == 0 then "< 1m" else joined
  }

  /** `formatDuration`, as the source writes it: components pushed onto a list
      one by one, then joined, with "< 1m" when nothing was pushed. */
  method FormatDuration(ms: int) returns (shown: string)
    ensures shown == DurationLabel(ms)
  {
    if ms <= 0 {
      return "now";
    }
    var totalMin := ms / 60000;
    var days := totalMin / 1440;
    var hours := (totalMin % 1440) / 60;
    var mins := totalMin % 60;
    var parts: seq<string> := [];
    if days > 0 {
      parts := parts + [NatToString(days) + "d"];
    }
    if hours > 0 {
      parts := parts + [NatToString(hours) + "h"];
    }
    if mins > 0 && days == 0 {
      parts := parts + [NatToString(mins) + "m"];
    }
    assert parts == DurationWords(SplitMinutes(totalMin));
    shown := Join(parts, " ");
    if shown == "" {
      shown := "< 1m";
    }
  }

  /** A token the label can contain: a positive numeral without leading
      zero, followed by the unit letter. */
  predicate IsUnitToken(tok: string, unit: char) {
    |tok| >= 2 && tok[|tok| - 1] == unit && AllDigits(tok[..|tok| - 1]) && tok[0] != '0'
  }

  /** Reads one leading token carrying `unit`, if there is one: its value and
      the tokens after it; otherwise 0 and the tokens unchanged. */
  function TakeUnit(toks: seq<string>, unit: char): (nat, seq<string>) {
    if |toks| > 0 && IsUnitToken(toks[0], unit) then (ParseNat(toks[0][..|toks[0]| - 1]), toks[1..])
    else (0, toks)
  }

  /** The reader never reads a zero: a unit reads as 0 exactly when its token
      is absent, and then nothing is consumed. */
  lemma TakeUnitPositive(toks: seq<string>, unit: char)
    ensures var (v, rest) := TakeUnit(toks, unit);
      && (v > 0 <==> |toks| > 0 && IsUnitToken(toks[0], unit))
      && rest == if v > 0 then toks[1..] else toks
  {
    if |toks| > 0 && IsUnitToken(toks[0], unit) {
      ParseNatLeading(toks[0][..|toks[0]| - 1]);
    }
  }

  /** Reads tokens as optional days, hours and minutes, in that order, and
      nothing else; yields [days, hours, minutes], 0 for a missing unit. */
  function ReadUnits(toks: seq<string>): Option<seq<nat>> {
    var (days, afterDays) := TakeUnit(toks, 'd');
    var (hours, afterHours) := TakeUnit(afterDays, 'h');
    var (mins, rest) := TakeUnit(afterHours, 'm');
    if |rest| == 0 then Some([days, hours, mins]) else None
  }

  /** Reads a duration label back as [days, hours, minutes]. */
  function ParseDurationLabel(shown: string): Option<seq<nat>> {
    ReadUnits(SplitOn(shown, ' '))
  }

  lemma TakeUnitStep(v: nat, u: char, rest: seq<string>)
    requires |rest| == 0 || !IsUnitToken(rest[0], u)
    ensures TakeUnit(OptToken(v, u) + rest, u) == (v, rest)
  {
    var toks := OptToken(v, u) + rest;
    if v > 0 {
      ParseNatToString(v);
      assert toks[0] == UnitToken(v, u) && toks[1..] == rest;
    } else {
      assert toks == rest;
    }
  }

  /** The words of a label read back as the days, the hours and the shown minutes. */
  lemma ParseDurationWords(s: Span)
    ensures ReadUnits(DurationWords(s)) == Some([s.days, s.hours, ShownMinutes(s)])
  {
    var m := OptToken(ShownMinutes(s), 'm');
    var hm := OptToken(s.hours, 'h') + m;
    assert DurationWords(s) == OptToken(s.days, 'd') + hm;
    TakeUnitStep(s.days, 'd', hm);
    TakeUnitStep(s.hours, 'h', m);
    assert m == m + [];
    TakeUnitStep(ShownMinutes(s), 'm', []);
  }

  lemma UnitTokenHasNoSpace(v: nat, u: char)
    requires u != ' '
    ensures ' ' !in UnitToken(v, u)
  {
    var t := UnitToken(v, u);
    forall i | 0 <= i < |t| ensures t[i] != ' ' {
      if i < |t| - 1 { assert t[i] == NatToString(v)[i]; }
    }
  }

  lemma DurationWordsShape(s: Span)
    ensures forall i :: 0 <= i < |DurationWords(s)| ==>
      |DurationWords(s)[i]| >= 2 && ' ' !in DurationWords(s)[i] && IsDigit(DurationWords(s)[i][0])
    ensures s.days > 0 || s.hours > 0 || s.mins > 0 ==> DurationWords(s) != []
  {
    UnitTokenHasNoSpace(s.days, 'd');
    UnitTokenHasNoSpace(s.hours, 'h');
    UnitTokenHasNoSpace(ShownMinutes(s), 'm');
  }

  /** The label shows the nonzero components of the split (minutes only when
      there is no day), in order, one word each, and each can be read back. */
  lemma {:induction false} DurationLabelRoundTrip(ms: int)
    requires ms >= 60000
    ensures var s := SplitMinutes(ms / 60000);
      ParseDurationLabel(DurationLabel(ms)) == Some([s.days, s.hours, ShownMinutes(s)])
    ensures var s := SplitMinutes(ms / 60000);
      |SplitOn(DurationLabel(ms), ' ')|
      == (if s.days > 0 then 1 else 0) + (if s.hours > 0 then 1 else 0) + (if ShownMinutes(s) > 0 then 1 else 0)
  {
    var s := SplitMinutes(ms / 60000);
    var words := DurationWords(s);
    DurationWordsShape(s);
    SplitJoin(words, ' ');
    var joined := Join(words, " ");
    assert joined != "" by {
      assert |SplitOn(joined, ' ')[0]| >= 2;
    }
    assert DurationLabel(ms) == joined;
    ParseDurationWords(s);
  }

  /** `timeUntil`: the label for the time left until `at`. An invalid date
      gives NaN arithmetic, where every comparison fails and no component is
      pushed. */
  function TimeUntil(at: Instant, now: int): (r: string)
    ensures r == "now" <==> at.At? && at.ms <= now
    ensures r == "< 1m" <==> at.InvalidDate? || (at.At? && now < at.ms < now + 60000)
  {
    match at
    case At(ms) => DurationLabel(ms - now)
    case InvalidDate => "< 1m"
  }

  // ---------------------------------------------------------------- lines

  /** The right-aligned percentage, `${Math.round(percent)}%`.padStart(4). */
  function PercentText(percent: real): string {
    PadStart(IntToString(JsRound(percent)) + "%", 4)
  }

  function LabelCell(title: string): (cell: string)
    ensures |cell| >= 17
  {
    "  " + PadEnd(title, 14) + " "
  }

  /** The percentage after the bar, in the colour tier of the percentage. */
  function PercentTail(percent: real): (l: Line)
    ensures Visible(l) == " " + PercentText(percent)
  {
    VisibleFour(Txt(" "), Esc(ColorForPercent(percent)), Txt(PercentText(percent)), Esc(Reset));
    [Txt(" "), Esc(ColorForPercent(percent)), Txt(PercentText(percent)), Esc(Reset)]
  }

  /** The percentage is opened by the escape of its colour tier. */
  lemma PercentTailColor(percent: real)
    ensures |PercentTail(percent)| == 4 && PercentTail(percent)[1] == Esc(ColorForPercent(percent))
  {
  }

  /** The left part of a window line: padded label, bar, percentage. */
  function LineLeft(title: string, percent: real): Line {
    [Txt(LabelCell(title))] + Bar(percent) + PercentTail(percent)
  }

  function ResetText(at: Instant, now: int): string {
    "resets " + TimeUntil(at, now)
  }

  /** The width the source assumes for the left part (a label of at most 14
      characters and a 20-cell bar). */
  function AssumedLeftWidth(percent: real): int {
    2 + 14 + 1 + BarWidth + 1 + |PercentText(percent)|
  }

  /** The gap before the reset annotation: fills up to the line width, and is
      never below two. */
  function ResetPad(percent: real, resetText: string): (pad: nat)
    ensures pad >= 2 && pad >= LineWidth - AssumedLeftWidth(percent) - |resetText|
    ensures pad == 2 || pad == LineWidth - AssumedLeftWidth(percent) - |resetText|
  {
    Max(2, LineWidth - AssumedLeftWidth(percent) - |resetText|)
  }

  function ResetTail(pad: nat, resetText: string): (l: Line)
    ensures Visible(l) == Spaces(pad) + resetText
  {
    VisibleFour(Txt(Spaces(pad)), Esc(Dim), Txt(resetText), Esc(Reset));
    [Txt(Spaces(pad)), Esc(Dim), Txt(resetText), Esc(Reset)]
  }

  predicate IsWindowLineOf(l: Line, title: string) {
    |l| >= 1 && l[0] == Txt(LabelCell(title))
  }

  /** The layout of `line` once the reset annotation is known: the left part,
      then, when there is an annotation, the gap and the dimmed annotation. */
  function WindowLayout(title: string, percent: real, resetText: Option<string>): (r: Line)
    ensures IsWindowLineOf(r, title)
  {
    var left := LineLeft(title, percent);
    if resetText.None? then left
    else left + ResetTail(ResetPad(percent, resetText.value), resetText.value)
  }

  /** `line`: a window line, annotated with the time left when a reset instant is given. */
  function WindowLine(title: string, percent: real, resetAt: Option<Instant>, now: int): (r: Line)
    ensures IsWindowLineOf(r, title)
  {
    WindowLayout(title, percent, if resetAt.Some? then Some(ResetText(resetAt.value, now)) else None)
  }

  /** Without an annotation only the left part is printed; with one, the
      visible line is the left part, a gap of at least two, and the annotation. */
  lemma WindowLineLayout(title: string, percent: real, resetText: Option<string>)
    ensures resetText.None? ==> WindowLayout(title, percent, resetText) == LineLeft(title, percent)
    ensures resetText.Some? ==>
      Visible(WindowLayout(title, percent, resetText))
      == Visible(LineLeft(title, percent)) + Spaces(ResetPad(percent, resetText.value)) + resetText.value
  {
    if resetText.Some? {
      VisibleConcat(LineLeft(title, percent), ResetTail(ResetPad(percent, resetText.value), resetText.value));
    }
  }

  /** The left part shows the padded label cell, the bar and the percentage. */
  lemma LineLeftVisible(title: string, percent: real)
    ensures Visible(LineLeft(title, percent)) == LabelCell(title) + Visible(Bar(percent)) + " " + PercentText(percent)
  {
    var head := [Txt(LabelCell(title))];
    VisibleConcat(head + Bar(percent), PercentTail(percent));
    VisibleConcat(head, Bar(percent));
    VisibleOne(Txt(LabelCell(title)));
  }

  /** `line` without a reset instant is only the left part; with one, the
      visible line is the left part, the gap, and "resets " with the time left
      until the instant at `now`. */
  lemma WindowLineText(title: string, percent: real, resetAt: Option<Instant>, now: int)
    ensures resetAt.None? ==> WindowLine(title, percent, resetAt, now) == LineLeft(title, percent)
    ensures resetAt.Some? ==>
      var annotation := "resets " + TimeUntil(resetAt.value, now);
      Visible(WindowLine(title, percent, resetAt, now))
      == Visible(LineLeft(title, percent)) + Spaces(ResetPad(percent, annotation)) + annotation
  {
    WindowLineLayout(title, percent, if resetAt.Some? then Some(ResetText(resetAt.value, now)) else None);
  }

  /** A percentage in range prints in exactly the four columns it is padded to. */
  lemma PercentTextWidth(percent: real)
    requires 0.0 <= percent <= 100.0
    ensures |PercentText(percent)| == 4
  {
    var n := JsRound(percent);
    assert 0 <= n <= 100;
    NatToStringShort(n);
  }

  /** With a label of at most 14 characters and a percentage in range the left
      part is 42 characters wide. */
  lemma LineLeftWidth(title: string, percent: real)
    requires |title| <= 14 && 0.0 <= percent <= 100.0
    ensures |Visible(LineLeft(title, percent))| == AssumedLeftWidth(percent) == 42
  {
    LineLeftVisible(title, percent);
    BarVisible(percent);
    PercentTextWidth(percent);
    assert |LabelCell(title)| == 17;
  }

  /** Under the same conditions a line with an annotation is exactly 62
      characters wide when the annotation fits, and otherwise overflows by
      keeping the two-character gap. */
  lemma WindowLineWidth(title: string, percent: real, resetText: string)
    requires |title| <= 14 && 0.0 <= percent <= 100.0
    ensures |Visible(WindowLayout(title, percent, Some(resetText)))| == Max(LineWidth, 44 + |resetText|)
  {
    WindowLineLayout(title, percent, Some(resetText));
    LineLeftWidth(title, percent);
    var pad := ResetPad(percent, resetText);
    assert |Spaces(pad)| == pad;
    assert |Visible(WindowLayout(title, percent, Some(resetText)))| == 42 + pad + |resetText|;
  }

  predicate IsSubLineOf(l: Line, title: string) {
    |l| >= 3 && l[0] == Txt("    ") && l[1] == Esc(Dim) && l[2] == Txt(PadEnd(title, 12))
  }

  /** `subLine`: an indented, dimmed label, then the rounded percentage in its colour. */
  function SubLine(title: string, percent: real): (r: Line)
    ensures IsSubLineOf(r, title) && |r| == 8 && r[5] == Esc(ColorForPercent(percent))
    ensures Visible(r) == "    " + PadEnd(title, 12) + " " + IntToString(JsRound(percent)) + "%"
  {
    VisibleEight(PadEnd(title, 12), ColorForPercent(percent), IntToString(JsRound(percent)) + "%");
    [Txt("    "), Esc(Dim), Txt(PadEnd(title, 12)), Esc(Reset),
     Txt(" "), Esc(ColorForPercent(percent)), Txt(IntToString(JsRound(percent)) + "%"), Esc(Reset)]
  }

  lemma VisibleEight(cell: string, color: Style, pct: string)
    ensures Visible([Txt("    "), Esc(Dim), Txt(cell), Esc(Reset), Txt(" "), Esc(color), Txt(pct), Esc(Reset)])
         == "    " + cell + " " + pct
  {
    var a := [Txt("    "), Esc(Dim), Txt(cell), Esc(Reset)];
    var b := [Txt(" "), Esc(color), Txt(pct), Esc(Reset)];
    assert a + b == [Txt("    "), Esc(Dim), Txt(cell), Esc(Reset), Txt(" "), Esc(color), Txt(pct), Esc(Reset)];
    VisibleConcat(a, b);
    VisibleFour(a[0], a[1], a[2], a[3]);
    VisibleFour(b[0], b[1], b[2], b[3]);
  }

  /** Whenever the label fits its 12 columns, the rounded percentage starts at
      column 17 and runs to the end of the line. */
  lemma SubLineText(title: string, percent: real)
    requires |title| <= 12
    ensures var v := Visible(SubLine(title, percent));
      |v| >= 17 && v[17..] == IntToString(JsRound(percent)) + "%"
  {
    var cell := PadEnd(title, 12);
    var pct := IntToString(JsRound(percent)) + "%";
    var v := "    " + cell + " " + pct;
    assert |"    " + cell + " "| == 17;
    assert v[17..] == pct;
  }

  predicate IsBalanceLine(l: Line, title: string) {
    |l| >= 3 && l[0] == Txt("    ") && l[1] == Esc(Dim) && l[2] == Txt(title)
  }

  /** An amount line: the indented, dimmed title, six spaces, then the
      amounts after a dollar sign. */
  function BalanceLine(title: string, amounts: string): (r: Line)
    ensures IsBalanceLine(r, title)
    ensures Visible(r) == "    " + title + "      $" + amounts
  {
    var head := [Txt("    "), Esc(Dim), Txt(title), Esc(Reset)];
    var tail := [Txt("      $" + amounts)];
    VisibleConcat(head, tail);
    VisibleFour(Txt("    "), Esc(Dim), Txt(title), Esc(Reset));
    VisibleOne(Txt("      $" + amounts));
    head + tail
  }

  /** The overage amounts in dollars, `used / limit`, each with two decimals. */
  function OverageLine(used: real, limit: real): Line {
    BalanceLine("Overage", ToFixed2(used) + " / $" + ToFixed2(limit))
  }

  function CreditsLine(balance: real): Line {
    BalanceLine("Credits", ToFixed2(balance))
  }

  // ---------------------------------------------------------------- blocks

  /** The pieces of a header: the status dot in `color`, then the name in bold. */
  function HeaderPieces(color: Style, name: string): (l: Line)
    ensures |l| == 8 && l[0] == Txt("\n  ") && l[1] == Esc(color)
  {
    [Txt("\n  ")] + DotOf(color) + [Txt(" "), Esc(Bold), Txt(name), Esc(Reset)]
  }

  lemma HeaderVisible(color: Style, name: string)
    ensures Visible(HeaderPieces(color, name)) == "\n  ● " + name
  {
    var a := [Txt("\n  ")] + DotOf(color);
    var b := [Txt(" "), Esc(Bold), Txt(name), Esc(Reset)];
    VisibleOne(Txt("\n  "));
    VisibleConcat([Txt("\n  ")], DotOf(color));
    VisibleFour(Txt(" "), Esc(Bold), Txt(name), Esc(Reset));
    VisibleConcat(a, b);
  }

  /** A block's first line: a dot in `color`, then the bold name, then `suffix`. */
  function HeaderLine(color: Style, name: string, suffix: Line): (r: Line)
    ensures |r| >= 2 && r[0] == Txt("\n  ") && r[1] == Esc(color)
    ensures Visible(r) == "\n  ● " + name + Visible(suffix)
  {
    HeaderVisible(color, name);
    VisibleConcat(HeaderPieces(color, name), suffix);
    HeaderPieces(color, name) + suffix
  }

  /** The dimmed plan type in parentheses. */
  function PlanTag(planType: string): (l: Line)
    ensures Visible(l) == "  (" + planType + ")"
  {
    VisibleFour(Txt("  "), Esc(Dim), Txt("(" + planType + ")"), Esc(Reset));
    [Txt("  "), Esc(Dim), Txt("(" + planType + ")"), Esc(Reset)]
  }

  /** One `console.log` call of a provider block: the formatter it goes
      through and the values it is given. */
  datatype Row =
    | HeaderRow(color: Style, name: string, plan: Option<string>)
    | WindowRow(title: string, percent: real, resetAt: Option<Instant>)
    | SubRow(title: string, percent: real)
    | OverageRow(used: real, limit: real)
    | CreditsRow(balance: real)

  /** The line a row prints when it is printed at the instant `now`. */
  function RenderRow(row: Row, now: int): Line {
    match row
    case HeaderRow(color, name, plan) => HeaderLine(color, name, if plan.Some? then PlanTag(plan.value) else [])
    case WindowRow(title, percent, resetAt) => WindowLine(title, percent, resetAt, now)
    case SubRow(title, percent) => SubLine(title, percent)
    case OverageRow(used, limit) => OverageLine(used, limit)
    case CreditsRow(balance) => CreditsLine(balance)
  }

  /** The lines printed for `rows`, in order. */
  function Print(rows: seq<Row>, now: int): (lines: seq<Line>)
    ensures |lines| == |rows|
    ensures forall i :: 0 <= i < |rows| ==> lines[i] == RenderRow(rows[i], now)
  {
    seq(|rows|, i requires 0 <= i < |rows| => RenderRow(rows[i], now))
  }

  /** A header row shows the dot, the provider's name and, when there is
      one, the plan type in parentheses. */
  lemma HeaderRowText(color: Style, name: string, plan: Option<string>, now: int)
    ensures Visible(RenderRow(HeaderRow(color, name, plan), now))
         == "\n  ● " + name + (if plan.Some? then "  (" + plan.value + ")" else "")
  {
    if plan.None? {
      assert Visible([]) == "";
    }
  }

  /** The dot of a block takes the more severe of the two colours. */
  lemma MaxColor(p: real, q: real)
    ensures Severity(ColorForPercent(MaxReal(p, q)))
         == Max(Severity(ColorForPercent(p)), Severity(ColorForPercent(q)))
  {
    if p <= q {
      ColorMonotone(p, q);
    } else {
      ColorMonotone(q, p);
    }
  }

  /** The rows `displayClaude` prints: the header, whose dot takes the colour
      of the larger of the two windows; both windows; a sub-line per model
      share the record has; and the overage only when it exists and is enabled. */
  function ClaudeRows(usage: ClaudeProvider.ClaudeUsage): (rows: seq<Row>)
    ensures |rows| == 3 + (if usage.sonnet.Some? then 1 else 0) + (if usage.opus.Some? then 1 else 0)
                        + (if usage.extraUsage.Some? && usage.extraUsage.value.enabled then 1 else 0)
    ensures rows[0] == HeaderRow(ColorForPercent(MaxReal(usage.fiveHour.percent, usage.sevenDay.percent)), "Claude", None)
    ensures rows[1] == WindowRow("5h window", usage.fiveHour.percent, Some(usage.fiveHour.resetsAt))
    ensures rows[2] == WindowRow("7d window", usage.sevenDay.percent, Some(usage.sevenDay.resetsAt))
    ensures rows[3..] == ClaudeOptional(usage)
  {
    [HeaderRow(ColorForPercent(MaxReal(usage.fiveHour.percent, usage.sevenDay.percent)), "Claude", None),
     WindowRow("5h window", usage.fiveHour.percent, Some(usage.fiveHour.resetsAt)),
     WindowRow("7d window", usage.sevenDay.percent, Some(usage.sevenDay.resetsAt))]
    + ClaudeOptional(usage)
  }

  /** `displayClaude`: the Claude block as printed at the instant `now`. */
  function DisplayClaude(usage: ClaudeProvider.ClaudeUsage, now: int): seq<Line> {
    Print(ClaudeRows(usage), now)
  }

  predicate HasSubRow(rows: seq<Row>, title: string) {
    exists i :: 0 <= i < |rows| && rows[i].SubRow? && rows[i].title == title
  }

  predicate HasOverageRow(rows: seq<Row>) {
    exists i :: 0 <= i < |rows| && rows[i].OverageRow?
  }

  /** The optional part of the Claude rows: model shares, then overage. */
  function ClaudeOptional(usage: ClaudeProvider.ClaudeUsage): seq<Row> {
    SonnetRows(usage) + OpusRows(usage) + OverageRows(usage)
  }

  function SonnetRows(usage: ClaudeProvider.ClaudeUsage): seq<Row> {
    if usage.sonnet.Some? then [SubRow("Sonnet", usage.sonnet.value.percent)] else []
  }

  function OpusRows(usage: ClaudeProvider.ClaudeUsage): seq<Row> {
    if usage.opus.Some? then [SubRow("Opus", usage.opus.value.percent)] else []
  }

  function OverageRows(usage: ClaudeProvider.ClaudeUsage): seq<Row> {
    if usage.extraUsage.Some? && usage.extraUsage.value.enabled
    then [OverageRow(usage.extraUsage.value.used, usage.extraUsage.value.limit)] else []
  }

  /** Where each row of a Claude block comes from. */
  lemma ClaudeRowOrigin(usage: ClaudeProvider.ClaudeUsage, i: int)
    requires 0 <= i < |ClaudeRows(usage)|
    ensures var row := ClaudeRows(usage)[i];
      && (row.SubRow? && row.title == "Sonnet" ==> usage.sonnet.Some?)
      && (row.SubRow? && row.title == "Opus" ==> usage.opus.Some?)
      && (row.OverageRow? ==> usage.extraUsage.Some? && usage.extraUsage.value.enabled)
  {
    var rows := ClaudeRows(usage);
    var sonnet, opus, overage := SonnetRows(usage), OpusRows(usage), OverageRows(usage);
    assert rows == rows[..3] + (sonnet + opus + overage);
    if i < 3 {
      assert rows[i] == rows[..3][i];
    } else if i < 3 + |sonnet| {
      assert rows[i] == sonnet[i - 3];
    } else if i < 3 + |sonnet| + |opus| {
      assert rows[i] == opus[i - 3 - |sonnet|];
    } else {
      assert rows[i] == overage[i - 3 - |sonnet| - |opus|];
    }
  }

  /** Each optional Claude row appears exactly when the record has its part
      and then carries that part's values: a Sonnet and then an Opus sub-line
      right after the windows, one per model share, and the overage row only
      for overage that exists and is enabled, as the last row. */
  lemma ClaudeOptionalRows(usage: ClaudeProvider.ClaudeUsage)
    ensures var rows := ClaudeRows(usage);
      && (HasSubRow(rows, "Sonnet") <==> usage.sonnet.Some?)
      && (usage.sonnet.Some? ==> rows[3] == SubRow("Sonnet", usage.sonnet.value.percent))
      && (HasSubRow(rows, "Opus") <==> usage.opus.Some?)
      && (usage.opus.Some? ==>
            rows[if usage.sonnet.Some? then 4 else 3] == SubRow("Opus", usage.opus.value.percent))
      && (HasOverageRow(rows) <==> usage.extraUsage.Some? && usage.extraUsage.value.enabled)
      && (HasOverageRow(rows) ==>
            rows[|rows| - 1] == OverageRow(usage.extraUsage.value.used, usage.extraUsage.value.limit))
  {
    var rows := ClaudeRows(usage);
    var sonnet, opus, overage := SonnetRows(usage), OpusRows(usage), OverageRows(usage);
    assert rows == rows[..3] + sonnet + opus + overage;
    if HasSubRow(rows, "Sonnet") {
      var i :| 0 <= i < |rows| && rows[i].SubRow? && rows[i].title == "Sonnet";
      ClaudeRowOrigin(usage, i);
    }
    if HasSubRow(rows, "Opus") {
      var i :| 0 <= i < |rows| && rows[i].SubRow? && rows[i].title == "Opus";
      ClaudeRowOrigin(usage, i);
    }
    if HasOverageRow(rows) {
      var i :| 0 <= i < |rows| && rows[i].OverageRow?;
      ClaudeRowOrigin(usage, i);
    }
    if usage.sonnet.Some? {
      assert rows[3] == sonnet[0];
    }
    if usage.opus.Some? {
      assert rows[3 + |sonnet|] == opus[0];
    }
    if usage.extraUsage.Some? && usage.extraUsage.value.enabled {
      assert rows[|rows| - 1] == overage[0];
    }
  }

  /** The rows `displayCodex` prints: the header with the plan type, whose dot
      takes the colour of the larger window (a missing secondary counts as 0);
      the primary window; the secondary window only when it exists; and the
      credits only when they exist and are not unlimited. */
  function CodexRows(usage: CodexProvider.CodexUsage): (rows: seq<Row>)
    ensures |rows| == 2 + (if usage.secondary.Some? then 1 else 0)
                        + (if usage.credits.Some? && !usage.credits.value.unlimited then 1 else 0)
    ensures rows[0] == HeaderRow(ColorForPercent(MaxReal(usage.primary.percent,
                                   if usage.secondary.Some? then usage.secondary.value.percent else 0.0)),
                                 "Codex", Some(usage.planType))
    ensures rows[1] == WindowRow("Primary", usage.primary.percent, Some(usage.primary.resetsAt))
  {
    var maxPct := MaxReal(usage.primary.percent, if usage.secondary.Some? then usage.secondary.value.percent else 0.0);
    [HeaderRow(ColorForPercent(maxPct), "Codex", Some(usage.planType)),
     WindowRow("Primary", usage.primary.percent, Some(usage.primary.resetsAt))]
    + (if usage.secondary.Some?
       then [WindowRow("Secondary", usage.secondary.value.percent, Some(usage.secondary.value.resetsAt))] else [])
    + (if usage.credits.Some? && !usage.credits.value.unlimited then [CreditsRow(usage.credits.value.balance)] else [])
  }

  /** `displayCodex`: the Codex block as printed at the instant `now`. */
  function DisplayCodex(usage: CodexProvider.CodexUsage, now: int): seq<Line> {
    Print(CodexRows(usage), now)
  }

  predicate HasWindowRow(rows: seq<Row>, title: string) {
    exists i :: 0 <= i < |rows| && rows[i].WindowRow? && rows[i].title == title
  }

  predicate HasCreditsRow(rows: seq<Row>) {
    exists i :: 0 <= i < |rows| && rows[i].CreditsRow?
  }

  /** The secondary window row appears exactly when the record has a
      secondary window, and shows it; the credits row exactly when credits
      exist and are not unlimited, as the last row, with their balance. */
  lemma CodexOptionalRows(usage: CodexProvider.CodexUsage)
    ensures var rows := CodexRows(usage);
      && (HasWindowRow(rows, "Secondary") <==> usage.secondary.Some?)
      && (usage.secondary.Some? ==>
            rows[2] == WindowRow("Secondary", usage.secondary.value.percent, Some(usage.secondary.value.resetsAt)))
      && (HasCreditsRow(rows) <==> usage.credits.Some? && !usage.credits.value.unlimited)
      && (HasCreditsRow(rows) ==> rows[|rows| - 1] == CreditsRow(usage.credits.value.balance))
  {
    var rows := CodexRows(usage);
    var head := rows[..2];
    var secondary := if usage.secondary.Some?
                     then [WindowRow("Secondary", usage.secondary.value.percent, Some(usage.secondary.value.resetsAt))]
                     else [];
    var credits := if usage.credits.Some? && !usage.credits.value.unlimited
                   then [CreditsRow(usage.credits.value.balance)] else [];
    assert rows == head + secondary + credits;
    forall i | 0 <= i < |rows|
      ensures rows[i].WindowRow? && rows[i].title == "Secondary" ==> usage.secondary.Some?
      ensures rows[i].CreditsRow? ==> usage.credits.Some? && !usage.credits.value.unlimited
    {
      if i < 2 {
        assert rows[i] == head[i];
      } else if i < 2 + |secondary| {
        assert rows[i] == secondary[i - 2];
      } else {
        assert rows[i] == credits[i - 2 - |secondary|];
      }
    }
    if usage.secondary.Some? {
      assert rows[2] == secondary[0];
    }
    if usage.credits.Some? && !usage.credits.value.unlimited {
      assert rows[|rows| - 1] == credits[0];
    }
  }

  // Each line of a printed row list, by the kind of its row. Stated for any
  // row list so that the concrete blocks below need not unfold `RenderRow`.

  lemma PrintHeaderRow(rows: seq<Row>, now: int, color: Style, name: string, plan: Option<string>)
    requires |rows| >= 1 && rows[0] == HeaderRow(color, name, plan)
    ensures |Print(rows, now)[0]| >= 2 && Print(rows, now)[0][1] == Esc(color)
    ensures Visible(Print(rows, now)[0]) == "\n  ● " + name + (if plan.Some? then "  (" + plan.value + ")" else "")
  {
    HeaderRowText(color, name, plan, now);
  }

  lemma PrintWindowRow(rows: seq<Row>, now: int, i: int, title: string, percent: real, resetAt: Option<Instant>)
    requires 0 <= i < |rows| && rows[i] == WindowRow(title, percent, resetAt)
    ensures Print(rows, now)[i] == WindowLine(title, percent, resetAt, now)
  {
  }

  lemma PrintSubRow(rows: seq<Row>, now: int, i: int, title: string, percent: real)
    requires 0 <= i < |rows| && rows[i] == SubRow(title, percent)
    ensures Print(rows, now)[i] == SubLine(title, percent)
  {
  }

  lemma PrintOverageRow(rows: seq<Row>, now: int, i: int, used: real, limit: real)
    requires 0 <= i < |rows| && rows[i] == OverageRow(used, limit)
    ensures Print(rows, now)[i] == OverageLine(used, limit)
  {
  }

  lemma PrintCreditsRow(rows: seq<Row>, now: int, i: int, balance: real)
    requires 0 <= i < |rows| && rows[i] == CreditsRow(balance)
    ensures Print(rows, now)[i] == CreditsLine(balance)
  {
  }

  // The two literal identities below carry no meaning of their own: proved
  // apart, they keep the block lemmas' solver cost low.

  lemma ClaudeHeaderLiteral()
    ensures "\n  ● " + "Claude" + "" == "\n  ● Claude"
  {
    assert ("\n  ● " + "Claude" + "")[..] == "\n  ● Claude";
  }

  lemma CodexHeaderLiteral(plan: string)
    ensures "\n  ● " + "Codex" + ("  (" + plan + ")") == "\n  ● Codex  (" + plan + ")"
  {
  }

  /** The first three lines of a Claude block: the header "● Claude" whose dot
      takes the colour of the larger window, then the 5h and 7d window lines
      annotated with their resets. */
  lemma ClaudeBlockHead(usage: ClaudeProvider.ClaudeUsage, now: int)
    ensures var lines := DisplayClaude(usage, now);
      && |lines| >= 3
      && Visible(lines[0]) == "\n  ● Claude"
      && lines[0][1] == Esc(ColorForPercent(MaxReal(usage.fiveHour.percent, usage.sevenDay.percent)))
      && lines[1] == WindowLine("5h window", usage.fiveHour.percent, Some(usage.fiveHour.resetsAt), now)
      && lines[2] == WindowLine("7d window", usage.sevenDay.percent, Some(usage.sevenDay.resetsAt), now)
  {
    var rows := ClaudeRows(usage);
    var color := ColorForPercent(MaxReal(usage.fiveHour.percent, usage.sevenDay.percent));
    PrintHeaderRow(rows, now, color, "Claude", None);
    ClaudeHeaderLiteral();
    PrintWindowRow(rows, now, 1, "5h window", usage.fiveHour.percent, Some(usage.fiveHour.resetsAt));
    PrintWindowRow(rows, now, 2, "7d window", usage.sevenDay.percent, Some(usage.sevenDay.resetsAt));
  }

  /** The model-share lines of a Claude block: the Sonnet and then the Opus
      sub-line, right after the windows, when the record has those shares. */
  lemma ClaudeBlockShares(usage: ClaudeProvider.ClaudeUsage, now: int)
    ensures var lines := DisplayClaude(usage, now);
      && (usage.sonnet.Some? ==> |lines| >= 4 && lines[3] == SubLine("Sonnet", usage.sonnet.value.percent))
      && (usage.opus.Some? ==>
            var i := if usage.sonnet.Some? then 4 else 3;
            |lines| > i && lines[i] == SubLine("Opus", usage.opus.value.percent))
  {
    var rows := ClaudeRows(usage);
    ClaudeOptionalRows(usage);
    if usage.sonnet.Some? {
      PrintSubRow(rows, now, 3, "Sonnet", usage.sonnet.value.percent);
    }
    if usage.opus.Some? {
      PrintSubRow(rows, now, if usage.sonnet.Some? then 4 else 3, "Opus", usage.opus.value.percent);
    }
  }

  /** A Claude block has one line per part shown, and with enabled overage its
      last line is the overage line. */
  lemma ClaudeBlockOverage(usage: ClaudeProvider.ClaudeUsage, now: int)
    ensures var lines := DisplayClaude(usage, now);
      && |lines| == 3 + (if usage.sonnet.Some? then 1 else 0) + (if usage.opus.Some? then 1 else 0)
                      + (if usage.extraUsage.Some? && usage.extraUsage.value.enabled then 1 else 0)
      && (usage.extraUsage.Some? && usage.extraUsage.value.enabled ==>
            lines[|lines| - 1] == OverageLine(usage.extraUsage.value.used, usage.extraUsage.value.limit))
  {
    var rows := ClaudeRows(usage);
    if usage.extraUsage.Some? && usage.extraUsage.value.enabled {
      ClaudeOptionalRows(usage);
      PrintOverageRow(rows, now, |rows| - 1, usage.extraUsage.value.used, usage.extraUsage.value.limit);
    }
  }

  /** The first two lines of a Codex block: the header "● Codex  (plan)" whose
      dot takes the colour of the larger window, then the Primary window line. */
  lemma CodexBlockHead(usage: CodexProvider.CodexUsage, now: int)
    ensures var lines := DisplayCodex(usage, now);
      && |lines| >= 2
      && Visible(lines[0]) == "\n  ● Codex  (" + usage.planType + ")"
      && lines[0][1] == Esc(ColorForPercent(MaxReal(usage.primary.percent,
                              if usage.secondary.Some? then usage.secondary.value.percent else 0.0)))
      && lines[1] == WindowLine("Primary", usage.primary.percent, Some(usage.primary.resetsAt), now)
  {
    var rows := CodexRows(usage);
    var color := ColorForPercent(MaxReal(usage.primary.percent,
                   if usage.secondary.Some? then usage.secondary.value.percent else 0.0));
    PrintHeaderRow(rows, now, color, "Codex", Some(usage.planType));
    CodexHeaderLiteral(usage.planType);
    PrintWindowRow(rows, now, 1, "Primary", usage.primary.percent, Some(usage.primary.resetsAt));
  }

  /** The optional lines of a Codex block: the Secondary window line third when
      the record has one, and the credits line last when credits exist and are
      not unlimited. */
  lemma CodexBlockTail(usage: CodexProvider.CodexUsage, now: int)
    ensures var lines := DisplayCodex(usage, now);
      && |lines| == 2 + (if usage.secondary.Some? then 1 else 0)
                      + (if usage.credits.Some? && !usage.credits.value.unlimited then 1 else 0)
      && (usage.secondary.Some? ==>
            lines[2] == WindowLine("Secondary", usage.secondary.value.percent, Some(usage.secondary.value.resetsAt), now))
      && (usage.credits.Some? && !usage.credits.value.unlimited ==>
            lines[|lines| - 1] == CreditsLine(usage.credits.value.balance))
  {
    var rows := CodexRows(usage);
    CodexOptionalRows(usage);
    if usage.secondary.Some? {
      var w := usage.secondary.value;
      PrintWindowRow(rows, now, 2, "Secondary", w.percent, Some(w.resetsAt));
    }
    if usage.credits.Some? && !usage.credits.value.unlimited {
      assert rows[|rows| - 1].CreditsRow?;
      PrintCreditsRow(rows, now, |rows| - 1, usage.credits.value.balance);
    }
  }

  /** The red message line under a failed provider's name. */
  function ErrorMessage(error: string): (l: Line)
    ensures Visible(l) == "    " + error
  {
    VisibleFour(Txt("    "), Esc(Red), Txt(error), Esc(Reset));
    [Txt("    "), Esc(Red), Txt(error), Esc(Reset)]
  }

  /** `displayError`: a red dot with the provider's name, then the message. */
  function DisplayError(provider: string, error: string): (r: seq<Line>)
    ensures |r| == 2 && |r[0]| >= 2 && r[0][1] == Esc(Red)
    ensures Visible(r[0]) == "\n  ● " + provider && Visible(r[1]) == "    " + error
  {
    [HeaderLine(Red, provider, []), ErrorMessage(error)]
  }

  /** The dimmed rule of 62 box-drawing characters. */
  function Separator(): (r: Line)
    ensures Visible(r) == Repeat('─', LineWidth)
  {
    VisibleThree(Esc(Dim), Txt(Repeat('─', LineWidth)), Esc(Reset));
    [Esc(Dim), Txt(Repeat('─', LineWidth)), Esc(Reset)]
  }

  /** The bold title line. */
  function TitleLine(): (r: Line)
    ensures Visible(r) == "\n  OpenCode Usage"
  {
    VisibleFour(Txt("\n"), Esc(Bold), Txt("  OpenCode Usage"), Esc(Reset));
    [Txt("\n"), Esc(Bold), Txt("  OpenCode Usage"), Esc(Reset)]
  }

  /** `displayHeader`: the bold title line, then the rule. */
  function DisplayHeader(): (r: seq<Line>)
    ensures |r| == 2 && Visible(r[0]) == "\n  OpenCode Usage" && r[1] == Separator()
  {
    [TitleLine(), Separator()]
  }

  /** `displayFooter`: the rule, then an empty line. */
  function DisplayFooter(): (r: seq<Line>)
    ensures |r| == 2 && r[0] == Separator() && Visible(r[1]) == ""
  {
    [Separator(), []]
  }

  // ---------------------------------------------------------------- end to end

  function Cents(c: nat): string {
    NatToString(c / 100) + "." + TwoDigits(c % 100)
  }

  /** Overage amounts in whole cents are printed in dollars and cents. */
  lemma OverageLineCents(used: nat, limit: nat)
    ensures Visible(OverageLine(used as real / 100.0, limit as real / 100.0))
         == "    Overage      $" + Cents(used) + " / $" + Cents(limit)
  {
    ToFixed2Cents(used);
    ToFixed2Cents(limit);
  }

  lemma RenderOverageRow(used: real, limit: real, now: int)
    ensures RenderRow(OverageRow(used, limit), now) == OverageLine(used, limit)
  {
  }

  /** The last Claude line of a record with enabled overage shows its
      amounts; a record without enabled overage has no overage row. */
  lemma ClaudeOverageLine(usage: ClaudeProvider.ClaudeUsage, now: int, used: nat, limit: nat)
    requires usage.extraUsage.Some?
    requires usage.extraUsage.value.used == used as real / 100.0
    requires usage.extraUsage.value.limit == limit as real / 100.0
    ensures var rows := ClaudeRows(usage);
      if usage.extraUsage.value.enabled
      then Visible(RenderRow(rows[|rows| - 1], now)) == "    Overage      $" + Cents(used) + " / $" + Cents(limit)
      else !HasOverageRow(rows)
  {
    var rows := ClaudeRows(usage);
    if usage.extraUsage.value.enabled {
      var front := rows[..3] + SonnetRows(usage) + OpusRows(usage);
      var overage := OverageRows(usage);
      assert overage == [OverageRow(used as real / 100.0, limit as real / 100.0)];
      assert rows == front + overage;
      assert rows[|rows| - 1] == overage[0];
      RenderOverageRow(used as real / 100.0, limit as real / 100.0, now);
      assert RenderRow(rows[|rows| - 1], now) == OverageLine(used as real / 100.0, limit as real / 100.0);
      OverageLineCents(used, limit);
    } else if HasOverageRow(rows) {
      var i :| 0 <= i < |rows| && rows[i].OverageRow?;
      ClaudeRowOrigin(usage, i);
    }
  }

  /** An enabled overage reported in whole cents is printed, as the last
      Claude line, with those amounts in dollars and cents; a disabled one
      prints no overage line whatever the amounts. */
  lemma OverageFromResponse(data: ClaudeProvider.ClaudeUsageResponse, parseDate: string -> Instant, now: int,
                            used: nat, limit: nat)
    requires data.extra_usage.Some?
    requires data.extra_usage.value.used_credits == used as real
    requires data.extra_usage.value.monthly_limit == limit as real
    ensures var rows := ClaudeRows(ClaudeProvider.MapUsage(data, parseDate));
      if data.extra_usage.value.is_enabled
      then Visible(RenderRow(rows[|rows| - 1], now)) == "    Overage      $" + Cents(used) + " / $" + Cents(limit)
      else !HasOverageRow(rows)
  {
    var usage := ClaudeProvider.MapUsage(data, parseDate);
    ClaudeOverageLine(usage, now, used, limit);
  }
}
