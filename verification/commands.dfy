/**
 * `onMessage`: one line of text from a client becomes at most one change of the registry.
 * The line is cut at its first NUL (`data.c_str()`), split into tokens, and dispatched on
 * the first token. `atof` is a parameter: floating-point parsing is not modelled.
 */
module Commands {
  import opened CText
  import opened Tokenizer
  import opened Actuators

  /**
   * What a line asks for. The channel letter and index are kept as read, so that a letter
   * other than `M` or `S` and an index out of range are dropped by `Execute`, as in the
   * firmware, not by the parser.
   */
  datatype Command =
    | Empty                                              // no tokens, or the token "none"
    | Enable(letter: char, index: int, on: bool)
    | Incr(letter: char, index: int, delta: real)
    | Bad                                                // unknown keyword or token count != 3

  /** The index of a channel token: `atoi` of everything after its letter. */
  function ChannelIndex(channel: string): int
    requires channel != []
  {
    Atoi(channel[1..])
  }

  function Parse(line: string, atof: string -> real): Command {
    var tokens := Tokens(CString(line));
    var cmd := if tokens == [] then "none" else tokens[0];
    if cmd == "none" then Empty
    else if cmd == "enable" && |tokens| == 3 then
      Enable(tokens[1][0], ChannelIndex(tokens[1]), Atoi(tokens[2]) != 0)
    else if cmd == "incr" && |tokens| == 3 then
      Incr(tokens[1][0], ChannelIndex(tokens[1]), atof(tokens[2]))
    else Bad
  }

  /** A channel that exists: motors 0..3 under `M`, servos 0..7 under `S`. */
  predicate InRange(letter: char, index: int) {
    (letter == 'M' && 0 <= index < MotorCount) || (letter == 'S' && 0 <= index < ServoCount)
  }

  function Execute(st: RegistryState, c: Command): (st': RegistryState)
    requires Valid(st)
    ensures Valid(st')
  {
    match c
    case Enable(letter, i, on) =>
      if letter == 'M' && 0 <= i <= 3 then st.(motorEnable := st.motorEnable[i := on])
      else if letter == 'S' && 0 <= i <= 7 then st.(servoEnable := st.servoEnable[i := on])
      else st
    case Incr(letter, i, delta) =>
      if letter == 'M' && 0 <= i <= 3 then SetMotor(st, i, st.motorSet[i] + delta)
      else if letter == 'S' && 0 <= i <= 7 then st.(servoSet := st.servoSet[i := st.servoSet[i] + delta])
      else st
    case _ => st
  }

  /** The effect of one message on the registry. */
  function OnMessage(st: RegistryState, line: string, atof: string -> real): (st': RegistryState)
    requires Valid(st)
    ensures Valid(st')
  {
    Execute(st, Parse(line, atof))
  }

  /** The effect of several messages, handled one after the other. */
  function OnMessages(st: RegistryState, lines: seq<string>, atof: string -> real): (st': RegistryState)
    requires Valid(st)
    ensures Valid(st')
    decreases |lines|
  {
    if lines == [] then st else OnMessages(OnMessage(st, lines[0], atof), lines[1..], atof)
  }

  /** The three keywords differ from one another. */
  lemma KeywordsDistinct()
    ensures "none" != "enable" && "none" != "incr" && "enable" != "incr"
  {
    assert "none"[0] != "incr"[0];
    assert |"enable"| != |"none"| && |"enable"| != |"incr"|;
  }

  lemma ParseIncr(line: string, channel: string, arg: string, atof: string -> real)
    requires Tokens(CString(line)) == ["incr", channel, arg] && channel != []
    ensures Parse(line, atof) == Incr(channel[0], ChannelIndex(channel), atof(arg))
  {
    KeywordsDistinct();
  }

  lemma ParseEnable(line: string, channel: string, arg: string, atof: string -> real)
    requires Tokens(CString(line)) == ["enable", channel, arg] && channel != []
    ensures Parse(line, atof) == Enable(channel[0], ChannelIndex(channel), Atoi(arg) != 0)
  {
    KeywordsDistinct();
  }

  lemma OnMessageOf(st: RegistryState, line: string, atof: string -> real, c: Command)
    requires Valid(st) && Parse(line, atof) == c
    ensures OnMessage(st, line, atof) == Execute(st, c)
  {
  }

  lemma ExecuteIncrMotor(st: RegistryState, i: int, d: real)
    requires Valid(st) && 0 <= i < MotorCount
    ensures Execute(st, Incr('M', i, d)) == st.(motorSet := st.motorSet[i := Clamp(st.motorSet[i] + d)])
  {
  }

  lemma ExecuteIncrServo(st: RegistryState, i: int, d: real)
    requires Valid(st) && 0 <= i < ServoCount
    ensures Execute(st, Incr('S', i, d)) == st.(servoSet := st.servoSet[i := st.servoSet[i] + d])
  {
  }

  /**
   * `incr M<i> d`, where `atof` reads `d` as `delta`: motor i becomes clamp(old + delta);
   * every other setpoint and every enable flag is unchanged.
   */
  lemma IncrMotor(st: RegistryState, line: string, channel: string, arg: string, i: int, delta: real,
                  atof: string -> real)
    requires Valid(st)
    requires Tokens(CString(line)) == ["incr", channel, arg] && atof(arg) == delta
    requires channel != [] && channel[0] == 'M' && ChannelIndex(channel) == i && 0 <= i < MotorCount
    ensures OnMessage(st, line, atof) == st.(motorSet := st.motorSet[i := Clamp(st.motorSet[i] + delta)])
  {
    ParseIncr(line, channel, arg, atof);
    OnMessageOf(st, line, atof, Incr('M', i, delta));
    ExecuteIncrMotor(st, i, delta);
  }

  /** `incr S<i> d`: servo i becomes old + delta, without clamping; nothing else changes. */
  lemma IncrServo(st: RegistryState, line: string, channel: string, arg: string, i: int, delta: real,
                  atof: string -> real)
    requires Valid(st)
    requires Tokens(CString(line)) == ["incr", channel, arg] && atof(arg) == delta
    requires channel != [] && channel[0] == 'S' && ChannelIndex(channel) == i && 0 <= i < ServoCount
    ensures OnMessage(st, line, atof) == st.(servoSet := st.servoSet[i := st.servoSet[i] + delta])
  {
    ParseIncr(line, channel, arg, atof);
    IncrServoParsed(st, line, atof, i, delta);
  }

  lemma IncrServoParsed(st: RegistryState, line: string, atof: string -> real, i: int, delta: real)
    requires Valid(st) && 0 <= i < ServoCount && Parse(line, atof) == Incr('S', i, delta)
    ensures OnMessage(st, line, atof) == st.(servoSet := st.servoSet[i := st.servoSet[i] + delta])
  {
    OnMessageOf(st, line, atof, Incr('S', i, delta));
    ExecuteIncrServo(st, i, delta);
  }

  /**
   * `enable M<i> x` / `enable S<i> x`: the channel's flag becomes `atoi(x) != 0` (so "2"
   * enables too); no setpoint and no other flag changes.
   */
  lemma EnableChannel(st: RegistryState, line: string, channel: string, arg: string, atof: string -> real)
    requires Valid(st)
    requires Tokens(CString(line)) == ["enable", channel, arg]
    requires channel != [] && InRange(channel[0], ChannelIndex(channel))
    ensures var i, on := ChannelIndex(channel), Atoi(arg) != 0;
            OnMessage(st, line, atof) ==
              if channel[0] == 'M' then st.(motorEnable := st.motorEnable[i := on])
              else st.(servoEnable := st.servoEnable[i := on])
  {
    ParseEnable(line, channel, arg, atof);
  }

  /**
   * Only a well-formed command changes anything: three tokens, the keyword `enable` or
   * `incr`, and an existing channel. Empty input, an unknown keyword, a wrong token count,
   * another channel letter and an out-of-range or negative index all leave the state as is.
   */
  lemma OnlyWellFormedCommandsChange(st: RegistryState, line: string, atof: string -> real)
    requires Valid(st)
    ensures var tokens := Tokens(CString(line));
            OnMessage(st, line, atof) != st ==>
              && |tokens| == 3
              && (tokens[0] == "enable" || tokens[0] == "incr")
              && InRange(tokens[1][0], ChannelIndex(tokens[1]))
  {
  }

  /** Empty or whitespace-only input (the "none" case) changes nothing. */
  lemma BlankLineIsNoOp(st: RegistryState, line: string, atof: string -> real)
    requires Valid(st)
    requires AllSpace(CString(line))
    ensures Parse(line, atof) == Empty
    ensures OnMessage(st, line, atof) == st
  {
    TokensEmpty(CString(line));
  }

  /**
   * The index is whatever `atoi` makes of the text after the letter: a channel token with
   * no number after its letter ("M", "Mx") addresses channel 0.
   */
  lemma BareLetterIsChannelZero(letter: char, rest: string)
    requires rest == [] || (!IsDigit(rest[0]) && !IsSpace(rest[0]) && rest[0] != '-' && rest[0] != '+')
    ensures ChannelIndex([letter] + rest) == 0
  {
    assert ([letter] + rest)[1..] == rest;
    AtoiNoNumber(rest);
  }

  /** A decimal number after the letter is the index, and text after the number is ignored ("M2x" is M2). */
  lemma NumberedChannel(letter: char, n: nat, rest: string)
    requires rest == [] || !IsDigit(rest[0])
    ensures ChannelIndex([letter] + Decimal(n) + rest) == n
  {
    var t := [letter] + Decimal(n) + rest;
    assert t[1..] == Decimal(n) + rest;
    AtoiDecimal(n, rest);
  }

  /** A line written as tokens separated by single spaces, without NUL, splits into them. */
  lemma LineTokens(line: string, ws: seq<string>)
    requires forall k :: 0 <= k < |ws| ==> ws[k] != [] && NoSpace(ws[k])
    requires line == Join(ws) && '\0' !in line
    ensures Tokens(CString(line)) == ws
  {
    CStringWithoutNul(line);
    TokensJoin(ws);
  }

  /** `incr M1 0.5` is a text that meets the first requires of `ClampedIncrements` below. */
  lemma IncrM1Text()
    ensures Tokens(CString("incr M1 0.5")) == ["incr", "M1", "0.5"]
  {
    assert NoSpace("incr") && NoSpace("M1") && NoSpace("0.5");
    assert "incr M1 0.5" == Join(["incr", "M1", "0.5"]) && '\0' !in "incr M1 0.5";
    LineTokens("incr M1 0.5", ["incr", "M1", "0.5"]);
  }

  /** A letter followed by one digit addresses the channel of that number. */
  lemma SingleDigitChannel(letter: char, d: char)
    requires IsDigit(d)
    ensures ChannelIndex([letter, d]) == DigitValue(d)
  {
    assert [letter, d][1..] == [d] + [];
    AtoiDigits([d], []);
    assert [d][..0] == [];
  }

  /** Messages are applied in the order they arrive. */
  lemma OnMessagesAppend(st: RegistryState, lines: seq<string>, line: string, atof: string -> real)
    requires Valid(st)
    ensures OnMessages(st, lines + [line], atof) == OnMessage(OnMessages(st, lines, atof), line, atof)
    decreases |lines|
  {
    if lines == [] {
      assert [] + [line] == [line];
    } else {
      assert (lines + [line])[1..] == lines[1..] + [line];
      OnMessagesAppend(OnMessage(st, lines[0], atof), lines[1..], line, atof);
    }
  }

  /** Handling line j after the first j is handling the first j + 1. */
  lemma OnMessagesStep(st0: RegistryState, lines: seq<string>, j: nat, atof: string -> real)
    requires Valid(st0) && j < |lines|
    ensures OnMessage(OnMessages(st0, lines[..j], atof), lines[j], atof) == OnMessages(st0, lines[..j + 1], atof)
  {
    var done := lines[..j];
    assert done + [lines[j]] == lines[..j + 1];
    OnMessagesAppend(st0, done, lines[j], atof);
  }

  /** Handling `a` and then `b` is handling `a + b`. */
  lemma {:induction false} OnMessagesConcat(st: RegistryState, a: seq<string>, b: seq<string>, atof: string -> real)
    requires Valid(st)
    ensures OnMessages(st, a + b, atof) == OnMessages(OnMessages(st, a, atof), b, atof)
    decreases |a|
  {
    if a == [] {
      assert a + b == b;
    } else {
      assert (a + b)[0] == a[0];
      assert (a + b)[1..] == a[1..] + b;
      OnMessagesConcat(OnMessage(st, a[0], atof), a[1..], b, atof);
    }
  }

  lemma TwoMessages(st: RegistryState, a: string, b: string, atof: string -> real)
    requires Valid(st)
    ensures OnMessages(st, [a, b], atof) == OnMessage(OnMessage(st, a, atof), b, atof)
  {
    OnMessagesAppend(st, [a], b, atof);
    assert [a] + [b] == [a, b];
  }

  lemma ThreeMessages(st: RegistryState, a: string, b: string, c: string, atof: string -> real)
    requires Valid(st)
    ensures OnMessages(st, [a, b, c], atof) == OnMessage(OnMessage(OnMessage(st, a, atof), b, atof), c, atof)
  {
    OnMessagesAppend(st, [a, b], c, atof);
    TwoMessages(st, a, b, atof);
    assert [a, b] + [c] == [a, b, c];
  }

  /**
   * `incr M1 0.5` then `incr M1 0.6` leaves motor 1 at 1.0 (clamped), not 1.1, however
   * the two lines are spaced.
   */
  lemma ClampedIncrements(st: RegistryState, first: string, second: string, atof: string -> real)
    requires Valid(st) && st.motorSet[1] == 0.0
    requires Tokens(CString(first)) == ["incr", "M1", "0.5"]
    requires Tokens(CString(second)) == ["incr", "M1", "0.6"]
    requires atof("0.5") == 0.5 && atof("0.6") == 0.6
    ensures OnMessages(st, [first, second], atof).motorSet[1] == 1.0
  {
    SingleDigitChannel('M', '1');
    IncrMotor(st, first, "M1", "0.5", 1, 0.5, atof);
    var st1 := OnMessage(st, first, atof);
    IncrMotor(st1, second, "M1", "0.6", 1, 0.6, atof);
    TwoMessages(st, first, second, atof);
  }

  /** `enable S3 1` then `enable S3 0` leaves servo 3 disabled and every setpoint untouched. */
  lemma EnableThenDisable(st: RegistryState, first: string, second: string, atof: string -> real)
    requires Valid(st)
    requires Tokens(CString(first)) == ["enable", "S3", "1"]
    requires Tokens(CString(second)) == ["enable", "S3", "0"]
    ensures var st' := OnMessages(st, [first, second], atof);
            !st'.servoEnable[3] && st'.servoSet == st.servoSet && st'.motorSet == st.motorSet
  {
    SingleDigitChannel('S', '3');
    AtoiOneDigit('1');
    AtoiOneDigit('0');
    EnableChannel(st, first, "S3", "1", atof);
    var st1 := OnMessage(st, first, atof);
    EnableChannel(st1, second, "S3", "0", atof);
    TwoMessages(st, first, second, atof);
  }

  /** A command with the wrong number of tokens, such as `incr M1`, changes nothing. */
  lemma MissingArgumentIsNoOp(st: RegistryState, line: string, atof: string -> real)
    requires Valid(st)
    requires Tokens(CString(line)) == ["incr", "M1"]
    ensures Parse(line, atof) == Bad
    ensures OnMessage(st, line, atof) == st
  {
    KeywordsDistinct();
  }

  /**
   * From power-up, `enable M0 1`, `incr M0 0.3`, `incr S2 -0.2` leave M0 enabled at 0.3,
   * S2 disabled at -0.2, and every other channel at its default.
   */
  lemma StartupSequence(a: string, b: string, c: string, atof: string -> real)
    requires Tokens(CString(a)) == ["enable", "M0", "1"]
    requires Tokens(CString(b)) == ["incr", "M0", "0.3"]
    requires Tokens(CString(c)) == ["incr", "S2", "-0.2"]
    requires atof("0.3") == 0.3 && atof("-0.2") == -0.2
    ensures var init := Initial();
            OnMessages(init, [a, b, c], atof) ==
              init.(motorEnable := init.motorEnable[0 := true],
                    motorSet := init.motorSet[0 := 0.3],
                    servoSet := init.servoSet[2 := -0.2])
  {
    var st0 := Initial();
    StartupEnable(st0, a, atof);
    var st1 := OnMessage(st0, a, atof);
    StartupMotor(st1, b, atof);
    var st2 := OnMessage(st1, b, atof);
    StartupServo(st2, c, atof);
    ThreeMessages(st0, a, b, c, atof);
  }

  lemma StartupEnable(st: RegistryState, a: string, atof: string -> real)
    requires Valid(st)
    requires Tokens(CString(a)) == ["enable", "M0", "1"]
    ensures OnMessage(st, a, atof) == st.(motorEnable := st.motorEnable[0 := true])
  {
    SingleDigitChannel('M', '0');
    AtoiOneDigit('1');
    EnableChannel(st, a, "M0", "1", atof);
  }

  lemma StartupMotor(st: RegistryState, b: string, atof: string -> real)
    requires Valid(st) && st.motorSet[0] == 0.0
    requires Tokens(CString(b)) == ["incr", "M0", "0.3"]
    requires atof("0.3") == 0.3
    ensures OnMessage(st, b, atof) == st.(motorSet := st.motorSet[0 := 0.3])
  {
    SingleDigitChannel('M', '0');
    IncrMotor(st, b, "M0", "0.3", 0, 0.3, atof);
  }

  lemma StartupServo(st: RegistryState, c: string, atof: string -> real)
    requires Valid(st) && st.servoSet[2] == 0.0
    requires Tokens(CString(c)) == ["incr", "S2", "-0.2"]
    requires atof("-0.2") == -0.2
    ensures OnMessage(st, c, atof) == st.(servoSet := st.servoSet[2 := -0.2])
  {
    SingleDigitChannel('S', '2');
    IncrServo(st, c, "S2", "-0.2", 2, -0.2, atof);
  }
}
