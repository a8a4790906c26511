/**
 * The firmware's mutable state and the routines that change it in place: the actuator
 * globals with `SetMotor`, `onMessage` and `getStatusHTML`, and the WebSocket client list
 * with the static `last_send` of `handleWebSockets`.
 *
 * Every method here is proved to compute what the pure definitions of the other modules
 * say; the properties of those definitions are proved there.
 */
module Firmware {
  import opened Wrappers
  import opened CText
  import opened Tokenizer
  import opened JsonEscape
  import opened Actuators
  import opened Commands
  import opened Status
  import opened Connections

  /**
   * The globals `MOTOR_ENABLE[4]`, `MOTOR_SET[5]`, `SERVO_ENABLE[8]` and `SERVO_SET[8]`.
   * `MOTOR_SET` has one slot more than there are motors; nothing ever writes slot 4, so it
   * keeps its zero initial value.
   */
  class Registry {
    const motorEnable: array<bool>
    const motorSet: array<real>
    const servoEnable: array<bool>
    const servoSet: array<real>

    ghost function Repr(): set<object> {
      {motorEnable, motorSet, servoEnable, servoSet}
    }

    ghost predicate Valid()
      reads Repr()
    {
      && motorEnable != servoEnable && motorSet != servoSet
      && motorEnable.Length == MotorCount && motorSet.Length == MotorCount + 1
      && servoEnable.Length == ServoCount && servoSet.Length == ServoCount
      && motorSet[MotorCount] == 0.0
      && Actuators.Valid(State())
    }

    /** The registry as a value; the spare slot of `MOTOR_SET` is not part of it. */
    ghost function State(): RegistryState
      reads Repr()
      requires motorSet.Length >= MotorCount
    {
      RegistryState(motorEnable[..], motorSet[..MotorCount], servoEnable[..], servoSet[..])
    }

    /** Globals start zeroed: every channel disabled at 0. */
    constructor ()
      ensures Valid() && fresh(Repr())
      ensures State() == Initial()
    {
      motorEnable := new bool[MotorCount](_ => false);
      motorSet := new real[MotorCount + 1](_ => 0.0);
      servoEnable := new bool[ServoCount](_ => false);
      servoSet := new real[ServoCount](_ => 0.0);
      new;
      assert motorSet[..MotorCount] == Initial().motorSet;
    }

    /** `SetMotor`: a bad index changes nothing; otherwise the clamped value is stored. */
    method SetMotor(idx: int, val: real)
      requires Valid()
      modifies motorSet
      ensures Valid()
      ensures State() == Actuators.SetMotor(old(State()), idx, val)
    {
      if idx < 0 || idx > 3 {
        return;
      }
      var v := val;
      if v < -1.0 {
        v := -1.0;
      }
      if v > 1.0 {
        v := 1.0;
      }
      motorSet[idx] := v;
      assert motorSet[..MotorCount] == old(motorSet[..MotorCount])[idx := Clamp(val)];
    }

    /** `onMessage`: one received line, interpreted as in `Commands.OnMessage`. */
    method OnMessage(data: string, atof: string -> real)
      requires Valid()
      modifies Repr()
      ensures Valid()
      ensures State() == Commands.OnMessage(old(State()), data, atof)
    {
      var tokens := SplitByWhitespace(CString(data));
      ghost var command := Parse(data, atof);
      var cmd := if |tokens| == 0 then "none" else tokens[0];
      if cmd == "none" {
        assert command == Empty;
      } else if cmd == "enable" && |tokens| == 3 {
        var idx := ChannelIndex(tokens[1]);
        var enable := Atoi(tokens[2]) != 0;
        assert command == Enable(tokens[1][0], idx, enable);
        EnableBranch(tokens[1][0], idx, enable);
      } else if cmd == "incr" && |tokens| == 3 {
        var idx := ChannelIndex(tokens[1]);
        var delta := atof(tokens[2]);
        assert command == Incr(tokens[1][0], idx, delta);
        IncrBranch(tokens[1][0], idx, delta);
      } else {
        assert command == Bad;
      }
    }

    /** The enable/disable branch of `onMessage`, after the index and flag are read. */
    method EnableBranch(letter: char, idx: int, enable: bool)
      requires Valid()
      modifies motorEnable, servoEnable
      ensures Valid()
      ensures State() == Execute(old(State()), Enable(letter, idx, enable))
    {
      if letter == 'M' {
        if idx >= 0 && idx <= 3 {
          motorEnable[idx] := enable;
          assert motorEnable[..] == old(motorEnable[..])[idx := enable];
        }
      }
      if letter == 'S' {
        if idx >= 0 && idx <= 7 {
          servoEnable[idx] := enable;
          assert servoEnable[..] == old(servoEnable[..])[idx := enable];
        }
      }
    }

    /** The increment branch of `onMessage`: motors through `SetMotor`, servos unclamped. */
    method IncrBranch(letter: char, idx: int, delta: real)
      requires Valid()
      modifies motorSet, servoSet
      ensures Valid()
      ensures State() == Execute(old(State()), Incr(letter, idx, delta))
    {
      if letter == 'M' {
        if idx >= 0 && idx <= 3 {
          SetMotor(idx, motorSet[idx] + delta);
        }
      }
      if letter == 'S' {
        if idx >= 0 && idx <= 7 {
          servoSet[idx] := servoSet[idx] + delta;
          assert servoSet[..] == old(servoSet[..])[idx := old(servoSet[idx]) + delta];
        }
      }
    }

    /**
     * The text `handleWebSockets` sends: the status HTML, escaped, inside the
     * `{"type": "status", "content": ...}` envelope.
     */
    method StatusMessageText(fmt: real -> string) returns (message: string)
      requires Valid()
      ensures message == StatusMessage(State(), fmt)
    {
      var html := GetStatusHtml(fmt);
      var escaped := EscapeJsonString(html);
      message := EnvelopeOpen + escaped + EnvelopeClose;
      EnvelopeOf(html, escaped);
    }

    /** `getStatusHTML`: the header, a row per motor, a row per servo, the closing tag. */
    method GetStatusHtml(fmt: real -> string) returns (html: string)
      requires Valid()
      ensures html == StatusHtml(State(), fmt)
    {
      ghost var st := State();
      ghost var rows := Snapshot(st);
      html := Header;
      assert rows[..0] == [];
      for i := 0 to 4
        invariant html == Header + RowsHtml(rows[..i], fmt)
      {
        ghost var before := html;
        html := html + RowOpen;
        html := html + Cell(ChannelNames[i]);
        html := html + Cell(YN(motorEnable[i]));
        html := html + Cell(fmt(motorSet[i]));
        html := html + RowClose;
        MotorRow(st, i, before, Header, fmt);
      }
      for i := 0 to 8
        invariant html == Header + RowsHtml(rows[..MotorCount + i], fmt)
      {
        ghost var before := html;
        html := html + RowOpen;
        html := html + Cell(ChannelNames[i + 4]);
        html := html + Cell(YN(servoEnable[i]));
        html := html + Cell(fmt(servoSet[i]));
        html := html + RowClose;
        ServoRow(st, i, before, Header, fmt);
      }
      html := html + TableClose;
      assert rows[..MotorCount + ServoCount] == rows;
    }
  }

  /**
   * `handleWebSockets` with its state: the client vector `webSocketClients`, the static
   * `last_send`, and the messages handed to the transport so far. The registry is the one
   * the received commands act on and the status reports.
   */
  class WebSocketHub {
    var clients: seq<Client>
    var lastSend: Millis
    var sent: seq<Outgoing>
    const registry: Registry

    ghost function Hub(): Connections.Hub
      reads this
    {
      Connections.Hub(clients, lastSend, sent)
    }

    ghost predicate Valid()
      reads this, registry.Repr()
    {
      registry.Valid()
    }

    /** `last_send` is set from the clock the first time `handleWebSockets` runs. */
    constructor (registry: Registry, start: Millis)
      requires registry.Valid()
      ensures Valid() && this.registry == registry
      ensures Hub() == Connections.Hub([], start, [])
    {
      this.registry := registry;
      clients := [];
      lastSend := start;
      sent := [];
    }

    /** A pending connection is added only if it is available. */
    method Accept(pending: Option<Client>)
      modifies this
      ensures clients == Accepted(old(clients), pending)
      ensures lastSend == old(lastSend) && sent == old(sent)
    {
      match pending
      case Some(client) =>
        if client.available {
          clients := clients + [client];
        }
      case None =>
    }

    /**
     * Polls every client in list order; each delivers its lines, and each line goes through
     * `onMessage`. The transport marks the clients in `closed` as no longer available.
     */
    method PollAll(inbox: map<nat, seq<string>>, closed: set<nat>, atof: string -> real)
      requires Valid()
      modifies this, registry.Repr()
      ensures Valid()
      ensures registry.State() == OnMessages(old(registry.State()), Inbound(old(clients), inbox), atof)
      ensures clients == Polled(old(clients), closed)
      ensures lastSend == old(lastSend) && sent == old(sent)
    {
      DeliverAll(clients, inbox, atof);
      clients := Polled(clients, closed);
    }

    /** The loop over the client list: each client delivers its lines in turn. */
    method DeliverAll(input: seq<Client>, inbox: map<nat, seq<string>>, atof: string -> real)
      requires Valid()
      modifies registry.Repr()
      ensures Valid()
      ensures registry.State() == OnMessages(old(registry.State()), Inbound(input, inbox), atof)
    {
      ghost var st0 := registry.State();
      for i := 0 to |input|
        invariant registry.Valid()
        invariant registry.State() == OnMessages(st0, Inbound(input[..i], inbox), atof)
      {
        var lines := if input[i].id in inbox then inbox[input[i].id] else [];
        Deliver(lines, atof);
        PollStep(st0, input, i, inbox, atof);
      }
      assert input[..|input|] == input;
    }

    /** What one `client.poll()` does with the lines that arrived: each goes through `onMessage`. */
    method Deliver(lines: seq<string>, atof: string -> real)
      requires Valid()
      modifies registry.Repr()
      ensures Valid()
      ensures registry.State() == OnMessages(old(registry.State()), lines, atof)
    {
      ghost var st0 := registry.State();
      for j := 0 to |lines|
        invariant registry.Valid()
        invariant registry.State() == OnMessages(st0, lines[..j], atof)
      {
        registry.OnMessage(lines[j], atof);
        OnMessagesStep(st0, lines, j, atof);
      }
      assert lines[..|lines|] == lines;
    }

    /** The erase-remove idiom: the available clients are moved to the front, the rest erased. */
    method Reap()
      modifies this
      ensures clients == Reaped(old(clients))
      ensures lastSend == old(lastSend) && sent == old(sent)
    {
      var input := clients;
      var buf := input;
      var w := 0;
      for r := 0 to |input|
        invariant clients == input && lastSend == old(lastSend) && sent == old(sent)
        invariant |buf| == |input| && w <= r
        invariant buf[..w] == Reaped(input[..r])
        invariant buf[r..] == input[r..]
      {
        ReapedAppend(input[..r], [input[r]]);
        assert input[..r + 1] == input[..r] + [input[r]];
        ghost var prev := buf;
        assert prev[r + 1..] == input[r + 1..] by {
          assert prev[r + 1..] == prev[r..][1..] && input[r + 1..] == input[r..][1..];
        }
        if buf[r].available {
          buf := buf[w := buf[r]];
          w := w + 1;
          assert buf[r + 1..] == prev[r + 1..];
        }
      }
      assert input[..|input|] == input;
      clients := buf[..w];
    }

    /**
     * The periodic status send: when more than 1000 ms passed since `last_send` (in 32-bit
     * unsigned arithmetic), the status message goes to every client and `last_send` takes
     * the clock reading `later`.
     */
    method SendStatus(now: Millis, later: Millis, fmt: real -> string)
      requires Valid()
      modifies this
      ensures Valid()
      ensures Hub() == Cadence(old(Hub()), now, later, StatusMessage(registry.State(), fmt))
    {
      if (now - lastSend) % Modulus > 1000 {
        var message := registry.StatusMessageText(fmt);
        SendToAll(message);
        lastSend := later;
      }
    }

    /** `client.send(statusMessage)` for every client, in list order. */
    method SendToAll(message: string)
      modifies this
      ensures sent == old(sent) + Broadcast(clients, message)
      ensures clients == old(clients) && lastSend == old(lastSend)
    {
      for i := 0 to |clients|
        invariant clients == old(clients) && lastSend == old(lastSend)
        invariant sent == old(sent) + Broadcast(clients[..i], message)
      {
        BroadcastAppend(clients, i, message);
        sent := sent + [Outgoing(clients[i].id, message)];
      }
      assert clients[..|clients|] == clients;
    }

    /**
     * One call of `handleWebSockets`: accept, poll (running the commands), reap, and the
     * periodic status send. The status sent reflects every command received in this call.
     */
    method HandleWebSockets(pending: Option<Client>, inbox: map<nat, seq<string>>, closed: set<nat>,
                            now: Millis, later: Millis, fmt: real -> string, atof: string -> real)
      requires Valid()
      modifies this, registry.Repr()
      ensures Valid()
      ensures registry.State() ==
                OnMessages(old(registry.State()), Inbound(Accepted(old(clients), pending), inbox), atof)
      ensures Hub() == Step(old(Hub()), pending, closed, now, later, StatusMessage(registry.State(), fmt))
    {
      Accept(pending);
      PollAll(inbox, closed, atof);
      Reap();
      SendStatus(now, later, fmt);
    }
  }

  /** Polling client i after the first i delivers its lines after theirs. */
  lemma PollStep(st0: RegistryState, input: seq<Client>, i: nat, inbox: map<nat, seq<string>>, atof: string -> real)
    requires Actuators.Valid(st0) && i < |input|
    ensures var lines := if input[i].id in inbox then inbox[input[i].id] else [];
            OnMessages(OnMessages(st0, Inbound(input[..i], inbox), atof), lines, atof)
            == OnMessages(st0, Inbound(input[..i + 1], inbox), atof)
  {
    var lines := if input[i].id in inbox then inbox[input[i].id] else [];
    var done := input[..i];
    assert input[..i + 1] == done + [input[i]];
    InboundAppend(done, input[i], inbox);
    OnMessagesConcat(st0, Inbound(done, inbox), lines, atof);
  }

  /** The five appends of the first loop add the row of motor i. */
  lemma MotorRow(st: RegistryState, i: nat, before: string, header: string, fmt: real -> string)
    requires Actuators.Valid(st) && i < MotorCount
    requires before == header + RowsHtml(Snapshot(st)[..i], fmt)
    ensures before + RowOpen + Cell(ChannelNames[i]) + Cell(YN(st.motorEnable[i])) + Cell(fmt(st.motorSet[i])) + RowClose
            == header + RowsHtml(Snapshot(st)[..i + 1], fmt)
  {
    AppendRow(before, header, Snapshot(st), i, fmt);
  }

  /** The five appends of the second loop add the row of servo i. */
  lemma ServoRow(st: RegistryState, i: nat, before: string, header: string, fmt: real -> string)
    requires Actuators.Valid(st) && i < ServoCount
    requires before == header + RowsHtml(Snapshot(st)[..MotorCount + i], fmt)
    ensures before + RowOpen + Cell(ChannelNames[i + 4]) + Cell(YN(st.servoEnable[i]))
              + Cell(fmt(st.servoSet[i])) + RowClose
            == header + RowsHtml(Snapshot(st)[..MotorCount + i + 1], fmt)
  {
    AppendRow(before, header, Snapshot(st), MotorCount + i, fmt);
  }

  /** The five appends of one loop iteration add the next row. */
  lemma AppendRow(before: string, header: string, rows: seq<Row>, i: nat, fmt: real -> string)
    requires i < |rows| && before == header + RowsHtml(rows[..i], fmt)
    ensures var r := rows[i];
            before + RowOpen + Cell(r.name) + Cell(YN(r.enabled)) + Cell(fmt(r.value)) + RowClose
            == header + RowsHtml(rows[..i + 1], fmt)
  {
    var r := rows[i];
    assert rows[..i + 1] == rows[..i] + [r];
    RowsHtmlAppend(rows[..i], r, fmt);
    AppendAssoc(before, RowOpen, Cell(r.name), Cell(YN(r.enabled)), Cell(fmt(r.value)), RowClose);
    RegroupAssoc(header, RowsHtml(rows[..i], fmt), RowHtml(r, fmt));
  }

  /**
   * Regrouping the five appends of a row. Stated over plain parameters: with the literal
   * tags in scope the same fact is much more expensive for the solver.
   */
  lemma AppendAssoc(p: string, a: string, b: string, c: string, d: string, e: string)
    ensures p + a + b + c + d + e == p + (a + b + c + d + e)
  {
  }

  lemma RegroupAssoc(a: string, b: string, c: string)
    ensures a + b + c == a + (b + c)
  {
  }
}
