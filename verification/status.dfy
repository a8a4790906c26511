/**
 * The status page pushed to every WebSocket client: `getStatusHTML` renders one table row
 * per channel, the four motors and then the eight servos, and the result is escaped and
 * wrapped in the JSON envelope `{"type": "status", "content": "..."}`.
 *
 * Besides the renderer, the module holds a reader for what it produces (`ReadTable`,
 * `ReadEnvelope`), and the lemmas that reading the rendered message gives back exactly the
 * twelve rows, in their fixed order.
 */
module Status {
  import opened Wrappers
  import opened Actuators
  import opened JsonEscape
  import opened Commands

  /** One line of the status table: channel name, enable flag and setpoint. */
  datatype Row = Row(name: string, enabled: bool, value: real)

  /** The names of the rows (the `types` array of `getStatusHTML`). */
  const ChannelNames: seq<string> :=
    ["M0", "M1", "M2", "M3", "S0", "S1", "S2", "S3", "S4", "S5", "S6", "S7"]

  /** The rows of the table: motors 0..3, then servos 0..7. */
  function Snapshot(st: RegistryState): (rows: seq<Row>)
    requires Valid(st)
    ensures |rows| == MotorCount + ServoCount
    ensures forall i :: 0 <= i < MotorCount ==>
              rows[i] == Row(ChannelNames[i], st.motorEnable[i], st.motorSet[i])
    ensures forall i :: 0 <= i < ServoCount ==>
              rows[MotorCount + i] == Row(ChannelNames[MotorCount + i], st.servoEnable[i], st.servoSet[i])
  {
    seq(MotorCount, i requires 0 <= i < MotorCount => Row(ChannelNames[i], st.motorEnable[i], st.motorSet[i]))
    + seq(ServoCount, i requires 0 <= i < ServoCount =>
            Row(ChannelNames[MotorCount + i], st.servoEnable[i], st.servoSet[i]))
  }

  function Names(rows: seq<Row>): (names: seq<string>)
    ensures |names| == |rows|
  {
    seq(|rows|, i requires 0 <= i < |rows| => rows[i].name)
  }

  /** Row k of any snapshot is the channel named `ChannelNames[k]`. */
  lemma SnapshotNames(st: RegistryState)
    requires Valid(st)
    ensures Names(Snapshot(st)) == ChannelNames
  {
    var rows := Snapshot(st);
    forall i | 0 <= i < |rows| ensures Names(rows)[i] == ChannelNames[i] {
      if i >= MotorCount {
        assert rows[MotorCount + (i - MotorCount)] == rows[i];
      }
    }
  }

  /** No channel name holds a `<` or a control character. */
  lemma ChannelNamesPlain()
    ensures forall k :: 0 <= k < |ChannelNames| ==> '<' !in ChannelNames[k] && NoBareControl(ChannelNames[k])
  {
  }

  /** The names in a snapshot, one by one. */
  lemma SnapshotNamesPlain(st: RegistryState)
    requires Valid(st)
    ensures forall i :: 0 <= i < |Snapshot(st)| ==>
              '<' !in Snapshot(st)[i].name && NoBareControl(Snapshot(st)[i].name)
  {
    SnapshotNames(st);
    ChannelNamesPlain();
    forall i | 0 <= i < |Snapshot(st)|
      ensures '<' !in Snapshot(st)[i].name && NoBareControl(Snapshot(st)[i].name)
    {
      assert Snapshot(st)[i].name == Names(Snapshot(st))[i];
    }
  }

  /**
   * The table always has the same twelve rows in the same order, M0..M3 then S0..S7,
   * whatever commands were applied before and in whatever order.
   */
  lemma SnapshotOrder(st: RegistryState, lines: seq<string>, atof: string -> real)
    requires Valid(st)
    ensures Valid(OnMessages(st, lines, atof))
    ensures Names(Snapshot(OnMessages(st, lines, atof))) == ChannelNames
  {
    SnapshotNames(OnMessages(st, lines, atof));
  }

  /** The enabled column. */
  function YN(on: bool): (r: string)
    ensures r == "Y" <==> on
    ensures r == "N" <==> !on
  {
    if on then "Y" else "N"
  }

  /** An opening tag with an inline style, `<name style='style'>`. */
  function Tag(name: string, style: string): string {
    "<" + name + " style='" + style + "'>"
  }

  function Close(name: string): string {
    "</" + name + ">"
  }

  function Spaces(n: nat): (r: string)
    ensures |r| == n && forall i :: 0 <= i < n ==> r[i] == ' '
  {
    seq(n, _ => ' ')
  }

  /** A line of the raw string literal: a line break, the indentation, then the text. */
  function Line(indent: nat, text: string): string {
    "\n" + Spaces(indent) + text
  }

  const ThinBorder: string := "border: 1px solid black;"
  const TableStyle: string := "border-collapse: collapse; " + "border: 2px solid black; " + "text-align: center;"
  const HeadRowStyle: string := "background-color: green;"
  const HeadCellStyle: string := "color: white; " + ThinBorder

  function HeadCell(title: string): string {
    Tag("th", HeadCellStyle) + title + Close("th")
  }

  /**
   * The fixed text in front of the rows, line by line as in the raw string literal of
   * `getStatusHTML`: it starts with a line break and ends with a line break and four spaces.
   */
  const Header: string := HeaderOpen + HeaderTitles + HeaderClose
  const HeaderOpen: string := Line(6, Tag("table", TableStyle)) + Line(8, Tag("tr", HeadRowStyle))
  const HeaderTitles: string :=
    Line(10, HeadCell("motor")) + Line(10, HeadCell("enabled")) + Line(10, HeadCell("setting"))
  const HeaderClose: string := Line(8, Close("tr")) + Line(4, "")

  const CellOpen: string := Tag("td", ThinBorder)
  const CellClose: string := Close("td")
  const RowOpen: string := "<tr>"
  const RowClose: string := Close("tr")
  const TableClose: string := Close("table")

  function Cell(x: string): string {
    CellOpen + x + CellClose
  }

  /** One row; `fmt` stands for the float-to-text conversion `String(float)`. */
  function RowHtml(r: Row, fmt: real -> string): string {
    RowOpen + Cell(r.name) + Cell(YN(r.enabled)) + Cell(fmt(r.value)) + RowClose
  }

  function RowsHtml(rows: seq<Row>, fmt: real -> string): string
    decreases |rows|
  {
    if rows == [] then [] else RowHtml(rows[0], fmt) + RowsHtml(rows[1..], fmt)
  }

  /** Appending one more row to the rendered rows renders the longer sequence. */
  lemma {:induction false} RowsHtmlAppend(rows: seq<Row>, r: Row, fmt: real -> string)
    ensures RowsHtml(rows + [r], fmt) == RowsHtml(rows, fmt) + RowHtml(r, fmt)
    decreases |rows|
  {
    if rows == [] {
      assert [] + [r] == [r];
      assert RowsHtml([r], fmt) == RowHtml(r, fmt) + RowsHtml([], fmt);
    } else {
      assert (rows + [r])[0] == rows[0];
      assert (rows + [r])[1..] == rows[1..] + [r];
      RowsHtmlAppend(rows[1..], r, fmt);
    }
  }

  /** `getStatusHTML`: the header, the twelve rows, and the closing tag. */
  function StatusHtml(st: RegistryState, fmt: real -> string): string
    requires Valid(st)
  {
    Header + RowsHtml(Snapshot(st), fmt) + TableClose
  }

  /** The status message: the table, escaped, inside the JSON envelope. */
  const EnvelopeOpen: string := "{\"type\": \"status\", \"content\": \""
  const EnvelopeClose: string := "\"}"

  function Envelope(content: string): string {
    EnvelopeOpen + Escape(content) + EnvelopeClose
  }

  lemma EnvelopeOf(content: string, escaped: string)
    requires escaped == Escape(content)
    ensures EnvelopeOpen + escaped + EnvelopeClose == Envelope(content)
  {
  }

  function StatusMessage(st: RegistryState, fmt: real -> string): string
    requires Valid(st)
  {
    Envelope(StatusHtml(st, fmt))
  }

  // ---------------------------------------------------------------------------------------
  // Reading the message back

  /** A row as the page shows it: three cell texts. */
  datatype RowText = RowText(name: string, flag: string, value: string)

  /** What a row should read as. */
  function Rendered(rows: seq<Row>, fmt: real -> string): (texts: seq<RowText>)
    ensures |texts| == |rows|
  {
    seq(|rows|, i requires 0 <= i < |rows| => RowText(rows[i].name, YN(rows[i].enabled), fmt(rows[i].value)))
  }

  /** Consumes a fixed piece of text. */
  function Skip(tag: string, s: string): (r: Option<string>)
    ensures r.Some? <==> tag <= s
    ensures r.Some? ==> r.value == s[|tag|..]
  {
    if tag <= s then Some(s[|tag|..]) else None
  }

  lemma SkipTag(tag: string, rest: string)
    ensures Skip(tag, tag + rest) == Some(rest)
  {
    assert (tag + rest)[..|tag|] == tag;
    assert (tag + rest)[|tag|..] == rest;
  }

  /** The text up to the next tag. */
  function TextRun(s: string): (r: string)
    ensures r <= s && '<' !in r
    ensures |r| == |s| || s[|r|] == '<'
  {
    if s == [] || s[0] == '<' then []
    else
      var t := TextRun(s[1..]);
      assert [s[0]] + t == s[..|t| + 1];
      [s[0]] + t
  }

  lemma {:induction false} TextRunOf(x: string, rest: string)
    requires '<' !in x
    requires rest == [] || rest[0] == '<'
    ensures TextRun(x + rest) == x
  {
    if x == [] {
      assert x + rest == rest;
    } else {
      assert (x + rest)[0] == x[0];
      assert (x + rest)[1..] == x[1..] + rest;
      assert x[0] in x;
      TextRunOf(x[1..], rest);
      assert [x[0]] + x[1..] == x;
    }
  }

  /**
   * Regrouping a row followed by more text, stated over plain parameters: with the literal
   * tags in scope the same fact is much more expensive for the solver.
   */
  lemma Regroup(a: string, b: string, c: string, d: string, e: string, rest: string)
    ensures a + b + c + d + e + rest == a + (b + (c + (d + (e + rest))))
  {
  }

  /** Reads the text between an opening and a closing tag. */
  function ReadBetween(open: string, close: string, s: string): (r: Option<(string, string)>)
    requires close != []
    ensures r.Some? ==> |r.value.1| < |s|
  {
    match Skip(open, s)
    case None => None
    case Some(t) =>
      var x := TextRun(t);
      match Skip(close, t[|x|..])
      case None => None
      case Some(u) => Some((x, u))
  }

  lemma BetweenRead(open: string, close: string, x: string, rest: string)
    requires close != [] && close[0] == '<' && '<' !in x
    ensures ReadBetween(open, close, open + x + close + rest) == Some((x, rest))
  {
    var t := x + (close + rest);
    assert open + x + close + rest == open + t;
    SkipTag(open, t);
    TextRunOf(x, close + rest);
    assert t[|x|..] == close + rest;
    SkipTag(close, rest);
  }

  function ReadCell(s: string): (r: Option<(string, string)>)
    ensures r.Some? ==> |r.value.1| < |s|
  {
    ReadBetween(CellOpen, CellClose, s)
  }

  lemma CellRead(x: string, rest: string)
    requires '<' !in x
    ensures ReadCell(Cell(x) + rest) == Some((x, rest))
  {
    assert CellClose[0] == '<';
    BetweenRead(CellOpen, CellClose, x, rest);
  }

  function ReadRow(s: string): (r: Option<(RowText, string)>)
    ensures r.Some? ==> |r.value.1| < |s|
  {
    match Skip(RowOpen, s)
    case None => None
    case Some(s1) =>
      match ReadCell(s1)
      case None => None
      case Some((name, s2)) =>
        match ReadCell(s2)
        case None => None
        case Some((flag, s3)) =>
          match ReadCell(s3)
          case None => None
          case Some((value, s4)) =>
            match Skip(RowClose, s4)
            case None => None
            case Some(s5) => Some((RowText(name, flag, value), s5))
  }

  /** The cell texts of a rendered row have no tag inside them. */
  predicate Plain(r: Row, fmt: real -> string) {
    '<' !in r.name && '<' !in fmt(r.value)
  }

  lemma ReadRowOf(s1: string, name: string, s2: string, flag: string, s3: string, value: string, rest: string)
    requires ReadCell(s1) == Some((name, s2))
    requires ReadCell(s2) == Some((flag, s3))
    requires ReadCell(s3) == Some((value, RowClose + rest))
    ensures ReadRow(RowOpen + s1) == Some((RowText(name, flag, value), rest))
  {
    SkipTag(RowOpen, s1);
    SkipTag(RowClose, rest);
  }

  lemma RowRead(r: Row, fmt: real -> string, rest: string)
    requires Plain(r, fmt)
    ensures RowOpen <= RowHtml(r, fmt) + rest
    ensures ReadRow(RowHtml(r, fmt) + rest) == Some((RowText(r.name, YN(r.enabled), fmt(r.value)), rest))
  {
    var flag := YN(r.enabled);
    assert '<' !in flag;
    var s4 := RowClose + rest;
    var s3 := Cell(fmt(r.value)) + s4;
    var s2 := Cell(flag) + s3;
    var s1 := Cell(r.name) + s2;
    Regroup(RowOpen, Cell(r.name), Cell(flag), Cell(fmt(r.value)), RowClose, rest);
    SkipTag(RowOpen, s1);
    CellRead(r.name, s2);
    CellRead(flag, s3);
    CellRead(fmt(r.value), s4);
    ReadRowOf(s1, r.name, s2, flag, s3, fmt(r.value), rest);
  }

  /** Reads rows for as long as the text starts with a row tag. */
  function ReadRows(s: string): Option<(seq<RowText>, string)>
    decreases |s|
  {
    if RowOpen <= s then
      match ReadRow(s)
      case None => None
      case Some((row, rest)) =>
        match ReadRows(rest)
        case None => None
        case Some((more, tail)) => Some(([row] + more, tail))
    else Some(([], s))
  }

  /** A rendered row followed by text that reads as rows reads as one more row. */
  lemma ReadRowsStep(r: Row, fmt: real -> string, tail: string, more: seq<RowText>, rest: string)
    requires Plain(r, fmt)
    requires ReadRows(tail) == Some((more, rest))
    ensures ReadRows(RowHtml(r, fmt) + tail) ==
              Some(([RowText(r.name, YN(r.enabled), fmt(r.value))] + more, rest))
  {
    RowRead(r, fmt, tail);
  }

  lemma RenderedCons(rows: seq<Row>, fmt: real -> string)
    requires rows != []
    ensures Rendered(rows, fmt) ==
              [RowText(rows[0].name, YN(rows[0].enabled), fmt(rows[0].value))] + Rendered(rows[1..], fmt)
  {
  }

  lemma {:induction false} RowsRead(rows: seq<Row>, fmt: real -> string, rest: string)
    requires forall i :: 0 <= i < |rows| ==> Plain(rows[i], fmt)
    requires !(RowOpen <= rest)
    ensures ReadRows(RowsHtml(rows, fmt) + rest) == Some((Rendered(rows, fmt), rest))
    decreases |rows|
  {
    if rows == [] {
      assert RowsHtml(rows, fmt) + rest == rest;
    } else {
      var tail := RowsHtml(rows[1..], fmt) + rest;
      assert RowsHtml(rows, fmt) + rest == RowHtml(rows[0], fmt) + tail;
      RowsRead(rows[1..], fmt, rest);
      ReadRowsStep(rows[0], fmt, tail, Rendered(rows[1..], fmt), rest);
      RenderedCons(rows, fmt);
    }
  }

  lemma TableCloseIsNotRow()
    ensures !(RowOpen <= TableClose)
  {
    assert TableClose[1] != RowOpen[1];
  }

  /** Reads a whole table: the header, the rows, and nothing after the closing tag. */
  function ReadTable(html: string): Option<seq<RowText>> {
    match Skip(Header, html)
    case None => None
    case Some(body) =>
      match ReadRows(body)
      case None => None
      case Some((rows, rest)) => if rest == TableClose then Some(rows) else None
  }

  /**
   * The rendered status table reads back as exactly the twelve rows of the snapshot, each
   * with its name, "Y" or "N" for its flag and its formatted setpoint, provided the number
   * formatter never produces a `<`.
   */
  lemma StatusTableRead(st: RegistryState, fmt: real -> string)
    requires Valid(st)
    requires forall v :: '<' !in fmt(v)
    ensures ReadTable(StatusHtml(st, fmt)) == Some(Rendered(Snapshot(st), fmt))
  {
    var rows := Snapshot(st);
    SnapshotNamesPlain(st);
    var body := RowsHtml(rows, fmt) + TableClose;
    assert StatusHtml(st, fmt) == Header + body;
    SkipTag(Header, body);
    TableCloseIsNotRow();
    RowsRead(rows, fmt, TableClose);
  }

  /** The envelope reader: the fixed prefix, a JSON string, then `}` and nothing else. */
  function ReadEnvelope(msg: string): Option<string> {
    match Skip(EnvelopeOpen, msg)
    case None => None
    case Some(body) =>
      match ReadString(body)
      case None => None
      case Some((content, rest)) => if rest == "}" then Some(content) else None
  }

  /**
   * The envelope carries its content intact exactly when the content has no control
   * character other than the newline; otherwise a JSON reader rejects the message.
   */
  lemma EnvelopeRead(content: string)
    ensures NoBareControl(content) ==> ReadEnvelope(Envelope(content)) == Some(content)
    ensures !NoBareControl(content) ==> ReadEnvelope(Envelope(content)) == None
  {
    var body := Escape(content) + ['"'] + "}";
    assert Envelope(content) == EnvelopeOpen + body;
    SkipTag(EnvelopeOpen, body);
    if NoBareControl(content) {
      ReadEscaped(content, "}");
    } else {
      ReadEscapedRejectsControl(content, "}");
    }
  }

  lemma NoBareControlAppend(a: string, b: string)
    requires NoBareControl(a) && NoBareControl(b)
    ensures NoBareControl(a + b)
  {
    forall i | 0 <= i < |a + b| ensures !IsBareControl((a + b)[i]) {
      if i >= |a| {
        assert (a + b)[i] == b[i - |a|];
      }
    }
  }

  lemma NoBareControl3(a: string, b: string, c: string)
    requires NoBareControl(a) && NoBareControl(b) && NoBareControl(c)
    ensures NoBareControl(a + b + c)
  {
    NoBareControlAppend(a, b);
    NoBareControlAppend(a + b, c);
  }

  lemma TagNoControl(name: string, style: string)
    requires NoBareControl(name) && NoBareControl(style)
    ensures NoBareControl(Tag(name, style))
  {
    assert NoBareControl("<") && NoBareControl(" style='") && NoBareControl("'>");
    NoBareControl3("<", name, " style='");
    NoBareControl3("<" + name + " style='", style, "'>");
  }

  lemma CloseNoControl(name: string)
    requires NoBareControl(name)
    ensures NoBareControl(Close(name))
  {
    assert NoBareControl("</") && NoBareControl(">");
    NoBareControl3("</", name, ">");
  }

  lemma LineNoControl(indent: nat, text: string)
    requires NoBareControl(text)
    ensures NoBareControl(Line(indent, text))
  {
    assert NoBareControl("\n");
    assert NoBareControl(Spaces(indent));
    NoBareControl3("\n", Spaces(indent), text);
  }

  lemma HeadCellNoControl(title: string)
    requires NoBareControl(title)
    ensures NoBareControl(Line(10, HeadCell(title)))
  {
    assert NoBareControl("th") && NoBareControl(ThinBorder) && NoBareControl("color: white; ");
    NoBareControlAppend("color: white; ", ThinBorder);
    TagNoControl("th", HeadCellStyle);
    CloseNoControl("th");
    NoBareControl3(Tag("th", HeadCellStyle), title, Close("th"));
    LineNoControl(10, HeadCell(title));
  }

  lemma TableStyleNoControl()
    ensures NoBareControl(TableStyle)
  {
    assert NoBareControl("border-collapse: collapse; ");
    assert NoBareControl("border: 2px solid black; ");
    assert NoBareControl("text-align: center;");
    NoBareControl3("border-collapse: collapse; ", "border: 2px solid black; ", "text-align: center;");
  }

  lemma HeaderOpenNoControl()
    ensures NoBareControl(HeaderOpen)
  {
    TableStyleNoControl();
    assert NoBareControl("table") && NoBareControl("tr") && NoBareControl(HeadRowStyle);
    TagNoControl("table", TableStyle);
    TagNoControl("tr", HeadRowStyle);
    LineNoControl(6, Tag("table", TableStyle));
    LineNoControl(8, Tag("tr", HeadRowStyle));
    NoBareControlAppend(Line(6, Tag("table", TableStyle)), Line(8, Tag("tr", HeadRowStyle)));
  }

  lemma HeaderTitlesNoControl()
    ensures NoBareControl(HeaderTitles)
  {
    assert NoBareControl("motor") && NoBareControl("enabled") && NoBareControl("setting");
    HeadCellNoControl("motor");
    HeadCellNoControl("enabled");
    HeadCellNoControl("setting");
    NoBareControl3(Line(10, HeadCell("motor")), Line(10, HeadCell("enabled")), Line(10, HeadCell("setting")));
  }

  lemma HeaderCloseNoControl()
    ensures NoBareControl(HeaderClose)
  {
    assert NoBareControl("tr") && NoBareControl("");
    CloseNoControl("tr");
    LineNoControl(8, Close("tr"));
    LineNoControl(4, "");
    NoBareControlAppend(Line(8, Close("tr")), Line(4, ""));
  }

  lemma HeaderNoControl()
    ensures NoBareControl(Header)
  {
    HeaderOpenNoControl();
    HeaderTitlesNoControl();
    HeaderCloseNoControl();
    NoBareControl3(HeaderOpen, HeaderTitles, HeaderClose);
  }

  lemma CellNoControl(x: string)
    requires NoBareControl(x)
    ensures NoBareControl(Cell(x))
  {
    assert NoBareControl("td") && NoBareControl(ThinBorder);
    TagNoControl("td", ThinBorder);
    CloseNoControl("td");
    NoBareControl3(CellOpen, x, CellClose);
  }

  lemma RowNoControl(r: Row, fmt: real -> string)
    requires NoBareControl(r.name) && NoBareControl(fmt(r.value))
    ensures NoBareControl(RowHtml(r, fmt))
  {
    assert NoBareControl(YN(r.enabled)) && NoBareControl(RowOpen) && NoBareControl("tr");
    CloseNoControl("tr");
    CellNoControl(r.name);
    CellNoControl(YN(r.enabled));
    CellNoControl(fmt(r.value));
    NoBareControl3(RowOpen, Cell(r.name), Cell(YN(r.enabled)));
    NoBareControl3(RowOpen + Cell(r.name) + Cell(YN(r.enabled)), Cell(fmt(r.value)), RowClose);
  }

  lemma {:induction false} RowsHtmlNoControl(rows: seq<Row>, fmt: real -> string)
    requires forall i :: 0 <= i < |rows| ==> NoBareControl(rows[i].name) && NoBareControl(fmt(rows[i].value))
    ensures NoBareControl(RowsHtml(rows, fmt))
    decreases |rows|
  {
    if rows != [] {
      RowNoControl(rows[0], fmt);
      RowsHtmlNoControl(rows[1..], fmt);
      NoBareControlAppend(RowHtml(rows[0], fmt), RowsHtml(rows[1..], fmt));
    }
  }

  lemma StatusHtmlNoControl(st: RegistryState, fmt: real -> string)
    requires Valid(st)
    requires forall v :: NoBareControl(fmt(v))
    ensures NoBareControl(StatusHtml(st, fmt))
  {
    var rows := Snapshot(st);
    SnapshotNamesPlain(st);
    RowsHtmlNoControl(rows, fmt);
    HeaderNoControl();
    assert NoBareControl("table");
    CloseNoControl("table");
    NoBareControl3(Header, RowsHtml(rows, fmt), TableClose);
  }

  /**
   * The status message a client receives decodes, through the JSON envelope and then the
   * table, to exactly the twelve rows of the registry in their fixed order, provided the
   * number formatter writes neither a `<` nor a control character.
   */
  lemma StatusMessageRead(st: RegistryState, fmt: real -> string)
    requires Valid(st)
    requires forall v :: '<' !in fmt(v) && NoBareControl(fmt(v))
    ensures ReadEnvelope(StatusMessage(st, fmt)).Some?
    ensures ReadTable(ReadEnvelope(StatusMessage(st, fmt)).value) == Some(Rendered(Snapshot(st), fmt))
  {
    StatusHtmlNoControl(st, fmt);
    EnvelopeRead(StatusHtml(st, fmt));
    StatusTableRead(st, fmt);
  }
}
