/**
 * The connection bookkeeping of `handleWebSockets`: accepting a pending client, polling
 * every client for messages, reaping the clients that are no longer available, and sending
 * the status message to every client once more than a second has passed since the last send.
 *
 * The transport is abstract: a client is an identity and an `available` flag, a send is a
 * record in the list of outgoing messages, and the clock is the 32-bit millisecond counter
 * of `millis()`.
 */
module Connections {
  import opened Wrappers

  /** A WebSocket client as the hub sees it: an identity and `available()`. */
  datatype Client = Client(id: nat, available: bool)

  /** A message handed to the transport for one client. */
  datatype Outgoing = Outgoing(to: nat, payload: string)

  // ---------------------------------------------------------------------------------------
  // Accept

  /** A newly accepted connection joins the list only if it is available. */
  function Accepted(clients: seq<Client>, pending: Option<Client>): seq<Client> {
    match pending
    case Some(c) => if c.available then clients + [c] else clients
    case None => clients
  }

  /**
   * Accepting keeps every existing client in place and adds at most one, at the end, and
   * only an available one.
   */
  lemma AcceptAppendsOnlyAvailable(clients: seq<Client>, pending: Option<Client>)
    ensures var r := Accepted(clients, pending);
            && clients <= r && |r| <= |clients| + 1
            && (|r| == |clients| + 1 <==> pending.Some? && pending.value.available)
            && (|r| == |clients| + 1 ==> r[|clients|] == pending.value)
  {
  }

  // ---------------------------------------------------------------------------------------
  // Poll

  /** The transport marks the clients whose connection closed during the poll. */
  function Polled(clients: seq<Client>, closed: set<nat>): (r: seq<Client>)
    ensures |r| == |clients|
    ensures forall i :: 0 <= i < |r| ==>
              r[i].id == clients[i].id && (r[i].available <==> clients[i].available && clients[i].id !in closed)
  {
    seq(|clients|, i requires 0 <= i < |clients| =>
          clients[i].(available := clients[i].available && clients[i].id !in closed))
  }

  /** The lines each client delivered, in the order the clients are polled. */
  function Inbound(clients: seq<Client>, inbox: map<nat, seq<string>>): seq<string>
    decreases |clients|
  {
    if clients == [] then []
    else (if clients[0].id in inbox then inbox[clients[0].id] else []) + Inbound(clients[1..], inbox)
  }

  lemma {:induction false} InboundAppend(clients: seq<Client>, c: Client, inbox: map<nat, seq<string>>)
    ensures Inbound(clients + [c], inbox) == Inbound(clients, inbox) + (if c.id in inbox then inbox[c.id] else [])
    decreases |clients|
  {
    if clients == [] {
      assert [] + [c] == [c];
      assert Inbound([c], inbox) == (if c.id in inbox then inbox[c.id] else []) + Inbound([], inbox);
    } else {
      assert (clients + [c])[0] == clients[0];
      assert (clients + [c])[1..] == clients[1..] + [c];
      InboundAppend(clients[1..], c, inbox);
    }
  }

  /**
   * Messages are handled client by client, in list order: the lines of the clients in `a`
   * all come before those of the clients in `b`.
   */
  lemma {:induction false} InboundConcat(a: seq<Client>, b: seq<Client>, inbox: map<nat, seq<string>>)
    ensures Inbound(a + b, inbox) == Inbound(a, inbox) + Inbound(b, inbox)
    decreases |a|
  {
    if a == [] {
      assert a + b == b;
    } else {
      assert (a + b)[0] == a[0];
      assert (a + b)[1..] == a[1..] + b;
      InboundConcat(a[1..], b, inbox);
    }
  }

  // ---------------------------------------------------------------------------------------
  // Reap

  /** The erase-remove idiom: drop every client that is not available, keeping the others in order. */
  function Reaped(clients: seq<Client>): seq<Client>
    decreases |clients|
  {
    if clients == [] then []
    else (if clients[0].available then [clients[0]] else []) + Reaped(clients[1..])
  }

  lemma {:induction false} ReapedAppend(a: seq<Client>, b: seq<Client>)
    ensures Reaped(a + b) == Reaped(a) + Reaped(b)
    decreases |a|
  {
    if a == [] {
      assert a + b == b;
    } else {
      assert (a + b)[0] == a[0];
      assert (a + b)[1..] == a[1..] + b;
      ReapedAppend(a[1..], b);
    }
  }

  /** A client survives reaping exactly when it was in the list and available. */
  lemma {:induction false} ReapedMembers(clients: seq<Client>)
    ensures forall c :: c in Reaped(clients) <==> c in clients && c.available
    decreases |clients|
  {
    if clients != [] {
      ReapedMembers(clients[1..]);
      assert clients == [clients[0]] + clients[1..];
    }
  }

  /** Reaping keeps every available client as often as it occurs, and none of the others. */
  lemma {:induction false} ReapedCount(clients: seq<Client>)
    ensures forall c :: multiset(Reaped(clients))[c] == if c.available then multiset(clients)[c] else 0
    decreases |clients|
  {
    if clients != [] {
      ReapedCount(clients[1..]);
      assert clients == [clients[0]] + clients[1..];
    }
  }

  /** `a` is `b` with some elements left out, the rest in their original order. */
  predicate IsSubsequence(a: seq<Client>, b: seq<Client>)
    decreases |b|
  {
    if a == [] then true
    else if b == [] then false
    else if a[0] == b[0] then IsSubsequence(a[1..], b[1..])
    else IsSubsequence(a, b[1..])
  }

  /** Reaping keeps the surviving clients in their original relative order. */
  lemma {:induction false} ReapedInOrder(clients: seq<Client>)
    ensures IsSubsequence(Reaped(clients), clients)
    decreases |clients|
  {
    if clients != [] {
      ReapedInOrder(clients[1..]);
      var rest := Reaped(clients[1..]);
      if clients[0].available {
        assert Reaped(clients) == [clients[0]] + rest;
        assert ([clients[0]] + rest)[1..] == rest;
      } else {
        assert Reaped(clients) == rest;
        SkipAhead(rest, clients);
      }
    }
  }

  /** A subsequence of the tail is a subsequence of the whole. */
  lemma {:induction false} SkipAhead(a: seq<Client>, b: seq<Client>)
    requires b != [] && IsSubsequence(a, b[1..])
    ensures IsSubsequence(a, b)
    decreases 2 * |b|
  {
    if a != [] && a[0] == b[0] {
      DropHead(a, b[1..]);
    }
  }

  /** Leaving out the first element of a subsequence leaves a subsequence. */
  lemma {:induction false} DropHead(a: seq<Client>, b: seq<Client>)
    requires a != [] && IsSubsequence(a, b)
    ensures IsSubsequence(a[1..], b)
    decreases 2 * |b| + 1
  {
    if a[0] == b[0] {
      SkipAhead(a[1..], b);
    } else {
      DropHead(a, b[1..]);
      SkipAhead(a[1..], b);
    }
  }

  /** Reaping twice is reaping once. */
  lemma {:induction false} ReapedIdempotent(clients: seq<Client>)
    ensures Reaped(Reaped(clients)) == Reaped(clients)
    decreases |clients|
  {
    if clients != [] {
      ReapedIdempotent(clients[1..]);
      var head := if clients[0].available then [clients[0]] else [];
      ReapedAppend(head, Reaped(clients[1..]));
      if clients[0].available {
        assert Reaped(head) == [clients[0]] + Reaped([]) by {
          assert head[1..] == [];
        }
      }
    }
  }

  /**
   * One closed connection is removed and nobody else is: of three clients where only the
   * middle one closed, the first and the last remain, in that order.
   */
  lemma ReapMiddle(a: Client, b: Client, c: Client)
    requires a.available && !b.available && c.available
    ensures Reaped([a, b, c]) == [a, c]
  {
    ReapedAppend([a], [b, c]);
    ReapedAppend([b], [c]);
    assert [a] + [b, c] == [a, b, c] && [b] + [c] == [b, c];
  }

  // ---------------------------------------------------------------------------------------
  // Status cadence

  /** `millis()` and `last_send` are 32-bit unsigned counters. */
  const Modulus: nat := 0x1_0000_0000

  type Millis = n: nat | n < Modulus

  /** `millis() - last_send` in unsigned arithmetic: the difference modulo 2^32. */
  function Elapsed(now: Millis, last: Millis): (d: Millis) {
    (now - last) % Modulus
  }

  /** The status is due when more than 1000 ms have passed since the last send. */
  predicate Due(now: Millis, last: Millis) {
    Elapsed(now, last) > 1000
  }

  /**
   * The unsigned subtraction measures the true time since the last send, across a
   * wrap-around of the counter, as long as less than 2^32 ms (about 49.7 days) passed.
   */
  lemma ElapsedAcrossWrap(last: Millis, t: nat)
    requires t < Modulus
    ensures Elapsed((last + t) % Modulus, last) == t
    ensures Due((last + t) % Modulus, last) <==> t > 1000
  {
    var now := (last + t) % Modulus;
    if last + t < Modulus {
      assert now == last + t;
    } else {
      assert now == last + t - Modulus;
      assert now - last == t - Modulus;
      assert (t - Modulus) % Modulus == t;
    }
  }

  /** 600 ms before the counter wraps, then 500 ms after it: 1100 ms passed, so the status is sent. */
  lemma WrapExample()
    ensures Elapsed(500, Modulus - 600) == 1100 && Due(500, Modulus - 600)
  {
    ElapsedAcrossWrap(Modulus - 600, 1100);
  }

  /** The same message to every client, in list order. */
  function Broadcast(clients: seq<Client>, payload: string): (out: seq<Outgoing>)
    ensures |out| == |clients|
    ensures forall i :: 0 <= i < |out| ==> out[i] == Outgoing(clients[i].id, payload)
  {
    seq(|clients|, i requires 0 <= i < |clients| => Outgoing(clients[i].id, payload))
  }

  lemma BroadcastAppend(clients: seq<Client>, i: nat, payload: string)
    requires i < |clients|
    ensures Broadcast(clients[..i + 1], payload) == Broadcast(clients[..i], payload) + [Outgoing(clients[i].id, payload)]
  {
  }

  /** The state the hub keeps between calls: the client list, `last_send`, and everything sent so far. */
  datatype Hub = Hub(clients: seq<Client>, lastSend: Millis, sent: seq<Outgoing>)

  /**
   * The periodic send: when the status is due at `now`, every client gets the message and
   * `last_send` becomes `later`, the clock read again after the sends; otherwise nothing
   * happens.
   */
  function Cadence(h: Hub, now: Millis, later: Millis, payload: string): Hub {
    if Due(now, h.lastSend) then h.(sent := h.sent + Broadcast(h.clients, payload), lastSend := later)
    else h
  }

  /**
   * The status goes out only when due, then to every client exactly once and in order,
   * and `last_send` moves only when it goes out.
   */
  lemma CadenceSendsWhenDue(h: Hub, now: Millis, later: Millis, payload: string)
    ensures var r := Cadence(h, now, later, payload);
            && r.clients == h.clients
            && h.sent <= r.sent
            && (Due(now, h.lastSend) ==> |r.sent| == |h.sent| + |h.clients| && r.lastSend == later)
            && (!Due(now, h.lastSend) ==> r == h)
            && forall i :: |h.sent| <= i < |r.sent| ==>
                 r.sent[i] == Outgoing(h.clients[i - |h.sent|].id, payload)
  {
  }

  /**
   * One pass of `handleWebSockets` on the bookkeeping: accept, the transport's closes seen
   * while polling, reaping, then the periodic send of `payload`.
   */
  function Step(h: Hub, pending: Option<Client>, closed: set<nat>, now: Millis, later: Millis, payload: string): Hub {
    var clients := Reaped(Polled(Accepted(h.clients, pending), closed));
    Cadence(h.(clients := clients), now, later, payload)
  }

  /**
   * After a pass, every client in the list is available, and every message sent in that
   * pass went to a client that is still in the list: closed connections are never sent to.
   */
  lemma StepSendsOnlyToLiveClients(h: Hub, pending: Option<Client>, closed: set<nat>,
                                   now: Millis, later: Millis, payload: string)
    ensures var r := Step(h, pending, closed, now, later, payload);
            && h.sent <= r.sent
            && (forall c :: c in r.clients ==> c.available && c.id !in closed)
            && (forall i :: |h.sent| <= i < |r.sent| ==>
                  r.sent[i].payload == payload && exists c :: c in r.clients && c.id == r.sent[i].to)
  {
    var polled := Polled(Accepted(h.clients, pending), closed);
    var clients := Reaped(polled);
    ReapedMembers(polled);
    forall c | c in clients ensures c.available && c.id !in closed {
      var i :| 0 <= i < |polled| && polled[i] == c;
    }
    var h' := h.(clients := clients);
    var r := Step(h, pending, closed, now, later, payload);
    assert r == Cadence(h', now, later, payload);
    CadenceSendsWhenDue(h', now, later, payload);
    forall i | |h.sent| <= i < |r.sent|
      ensures r.sent[i].payload == payload && exists c :: c in r.clients && c.id == r.sent[i].to
    {
      var c := clients[i - |h.sent|];
      assert r.sent[i] == Outgoing(c.id, payload);
      assert c in r.clients;
    }
  }
}
