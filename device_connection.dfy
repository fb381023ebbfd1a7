/** The class `DeviceConnection` of src/xs/DeviceConnection.ts: its
    connection-retry counter, request ids and pending-reply table, the text
    and binary commands it sends and the messages it receives.  The socket,
    the timer and the connection promise are abstract: the socket's events
    are method calls, `socket.send` appends to `sent`, and every hook the
    class calls (`onOpen`, `onError`, `onLogin`, a reply callback, …) is
    appended to `events`. */
module DeviceConnectionModel {
  import opened Wrappers
  import opened BinaryFrames
  import opened XsbugParser
  import XsbugCommands

  /** A reply callback, known by an opaque name. */
  type Callback = nat

  datatype PendingRequest = PendingRequest(id: int, callback: Callback)

  /** What `socket.send` was given. */
  datatype Outgoing = TextOut(text: string) | BinaryOut(bytes: seq<byte>)

  /** The hooks and promise settlements the class triggers. */
  datatype Event =
    | SocketClosed             // `disconnect` closed the current socket
    | Opened                   // the `onOpen` hook
    | Resolved                 // `deferredConnection.resolve(this)`
    | ConnectionError          // the `onConnectionError` hook
    | Rejected                 // `deferredConnection.reject(err)`
    | SocketError              // the `onError` hook
    | CloseHook                // the `onClose` hook
    | Delivered(message: XsbugMessage)  // `onLogin`, `onLog`, `onBreak`, …
    | Replied(callback: Callback, reply: Reply)

  /** An exception a handler throws, ending it early. */
  datatype Thrown =
    | NullDeferred             // `this.deferredConnection` is null
    | NoSocket                 // `this.socket` is undefined: no `connect` yet
    | ReadPastEnd              // a `DataView` read past the frame's end
    | BadDocument(error: ParseError)

  datatype Outcome = Done | Threw(thrown: Thrown)

  /** The six message kinds `_onMessage` hands to a hook; frames, global
      and grammar messages are dropped. */
  predicate IsHandled(m: XsbugMessage) {
    m.LoginMessage? || m.LogMessage? || m.BreakMessage? || m.LocalMessage?
    || m.InstrumentMessage? || m.InstrumentSampleMessage?
  }

  /** The hook calls for a parsed document, in document order. */
  function Deliveries(ms: seq<XsbugMessage>): seq<Event> {
    if ms == [] then []
    else (if IsHandled(ms[0]) then [Delivered(ms[0])] else []) + Deliveries(ms[1..])
  }

  /** `idx` picks the messages the hook calls `r` are for: one call per
      handled message, each for its own position, positions ascending. */
  ghost predicate DeliveredAt(ms: seq<XsbugMessage>, r: seq<Event>, idx: seq<int>) {
    && |idx| == |r|
    && (forall j :: 0 <= j < |idx| ==> 0 <= idx[j] < |ms| && IsHandled(ms[idx[j]]) && r[j] == Delivered(ms[idx[j]]))
    && (forall j, k :: 0 <= j < k < |idx| ==> idx[j] < idx[k])
    && (forall i :: 0 <= i < |ms| && IsHandled(ms[i]) ==> i in idx)
  }

  /** The hook calls are the handled messages of the document, each called
      once, in document order. */
  lemma {:induction false} DeliveriesShape(ms: seq<XsbugMessage>)
    ensures exists idx :: DeliveredAt(ms, Deliveries(ms), idx)
  {
    if ms == [] {
      assert Deliveries(ms) == [];
      assert DeliveredAt(ms, [], []);
    } else {
      DeliveriesShape(ms[1..]);
      var idx' :| DeliveredAt(ms[1..], Deliveries(ms[1..]), idx');
      var idx := DeliveredCons(ms, idx');
    }
  }

  /** The positions of the hook calls for `ms`, from those for `ms[1..]`. */
  lemma DeliveredCons(ms: seq<XsbugMessage>, idx': seq<int>) returns (idx: seq<int>)
    requires ms != [] && DeliveredAt(ms[1..], Deliveries(ms[1..]), idx')
    ensures DeliveredAt(ms, Deliveries(ms), idx)
  {
    var h := if IsHandled(ms[0]) then 1 else 0;
    idx := seq(h + |idx'|, k requires 0 <= k < h + |idx'| => if k < h then 0 else idx'[k - h] + 1);
    assert Deliveries(ms) == (if IsHandled(ms[0]) then [Delivered(ms[0])] else []) + Deliveries(ms[1..]);
    ShiftDelivers(ms, Deliveries(ms[1..]), idx', idx, h);
    ShiftOrdered(ms, idx', idx, h);
    forall i | 0 <= i < |ms| && IsHandled(ms[i]) ensures i in idx {
      if i > 0 {
        assert IsHandled(ms[1..][i - 1]);
        ShiftCovers(idx', idx, h, i);
      } else {
        assert idx[0] == 0;
      }
    }
  }

  /** Each shifted position names the message whose event sits there. */
  lemma ShiftDelivers(ms: seq<XsbugMessage>, rest: seq<Event>, idx': seq<int>, idx: seq<int>, h: nat)
    requires ms != [] && DeliveredAt(ms[1..], rest, idx')
    requires h == if IsHandled(ms[0]) then 1 else 0
    requires |idx| == h + |idx'|
    requires forall k :: 0 <= k < |idx| ==> idx[k] == if k < h then 0 else idx'[k - h] + 1
    ensures var r := (if IsHandled(ms[0]) then [Delivered(ms[0])] else []) + rest;
      forall k :: 0 <= k < |idx| ==> 0 <= idx[k] < |ms| && IsHandled(ms[idx[k]]) && r[k] == Delivered(ms[idx[k]])
  {
    var r := (if IsHandled(ms[0]) then [Delivered(ms[0])] else []) + rest;
    forall k | 0 <= k < |idx|
      ensures 0 <= idx[k] < |ms| && IsHandled(ms[idx[k]]) && r[k] == Delivered(ms[idx[k]])
    {
      if k >= h {
        assert r[k] == rest[k - h];
        assert ms[1..][idx'[k - h]] == ms[idx[k]];
      }
    }
  }

  /** Shifting keeps the positions strictly increasing. */
  lemma ShiftOrdered(ms: seq<XsbugMessage>, idx': seq<int>, idx: seq<int>, h: nat)
    requires ms != [] && DeliveredAt(ms[1..], Deliveries(ms[1..]), idx')
    requires h <= 1 && |idx| == h + |idx'|
    requires forall k :: 0 <= k < |idx| ==> idx[k] == if k < h then 0 else idx'[k - h] + 1
    ensures forall j, k :: 0 <= j < k < |idx| ==> idx[j] < idx[k]
  {
    forall j, k | 0 <= j < k < |idx| ensures idx[j] < idx[k] {
      if j >= h {
        assert idx'[j - h] < idx'[k - h];
      } else {
        assert 0 <= idx'[k - h];
      }
    }
  }

  lemma ShiftCovers(idx': seq<int>, idx: seq<int>, h: nat, i: int)
    requires |idx| == h + |idx'|
    requires forall k :: h <= k < |idx| ==> idx[k] == idx'[k - h] + 1
    requires i - 1 in idx'
    ensures i in idx
  {
    var j :| 0 <= j < |idx'| && idx'[j] == i - 1;
    assert idx[h + j] == i;
  }

  /** When every message is handled, every message is handed on, in order. */
  lemma {:induction false} DeliveriesAllHandled(ms: seq<XsbugMessage>)
    requires forall i :: 0 <= i < |ms| ==> IsHandled(ms[i])
    ensures Deliveries(ms) == seq(|ms|, i requires 0 <= i < |ms| => Delivered(ms[i]))
  {
    if ms != [] {
      DeliveriesAllHandled(ms[1..]);
    }
  }

  /** When no message is handled, no hook is called. */
  lemma {:induction false} DeliveriesNoneHandled(ms: seq<XsbugMessage>)
    requires forall i :: 0 <= i < |ms| ==> !IsHandled(ms[i])
    ensures Deliveries(ms) == []
  {
    if ms != [] {
      DeliveriesNoneHandled(ms[1..]);
    }
  }

  lemma DeliveriesAppend(ms: seq<XsbugMessage>, m: XsbugMessage)
    ensures Deliveries(ms + [m]) == Deliveries(ms) + (if IsHandled(m) then [Delivered(m)] else [])
  {
    if ms != [] {
      assert (ms + [m])[1..] == ms[1..] + [m];
      DeliveriesAppend(ms[1..], m);
    } else {
      assert Deliveries([m]) == (if IsHandled(m) then [Delivered(m)] else []) + Deliveries([]);
    }
  }

  /** `this.pending.findIndex(pending => id === pending.id)`. */
  function FindPending(pending: seq<PendingRequest>, id: int): (i: int)
    ensures -1 <= i < |pending|
    ensures i == -1 <==> forall j :: 0 <= j < |pending| ==> pending[j].id != id
    ensures 0 <= i ==> pending[i].id == id && forall j :: 0 <= j < i ==> pending[j].id != id
  {
    if pending == [] then -1
    else if pending[0].id == id then 0
    else
      var i := FindPending(pending[1..], id);
      if i < 0 then -1 else i + 1
  }

  /** A pending request whose id is 65536 or more never gets its reply:
      the reply's id is read as 16 bits. */
  lemma HighIdsNeverMatch(pending: seq<PendingRequest>, data: seq<byte>)
    requires forall j :: 0 <= j < |pending| ==> pending[j].id >= 0x1_0000
    requires DecodeBinary(data).Ok? && DecodeBinary(data).value.Some?
    ensures FindPending(pending, DecodeBinary(data).value.value.id) == -1
  {
  }

  /** The frames `doInstall(offset, data)` sends, one per chunk. */
  function InstallFrames(offset: int, data: seq<byte>): (r: seq<Outgoing>)
    ensures |r| == ChunkCount(|data|)
  {
    var n := ChunkCount(|data|);
    seq(n, k requires 0 <= k < n => BinaryOut(BinaryFrame(3, 0, false, Some(InstallPayload(offset, data, k)))))
  }

  /** A snapshot of the fields, for contracts that say "nothing else changes". */
  datatype Fields = Fields(
    connectionAttempt: nat,
    requestID: int,
    pending: seq<PendingRequest>,
    timerArmed: bool,
    hasSocket: bool,
    deferred: bool,
    sent: seq<Outgoing>,
    events: seq<Event>)

  class DeviceConnection {
    var connectionAttempt: nat
    var requestID: int
    var pending: seq<PendingRequest>
    /** `connectTimer` is armed and has not fired or been cleared. */
    var timerArmed: bool
    /** `this.socket` has been assigned. */
    var hasSocket: bool
    /** `deferredConnection` is not null. */
    var deferred: bool
    var sent: seq<Outgoing>
    var events: seq<Event>

    function State(): Fields
      reads this
    {
      Fields(connectionAttempt, requestID, pending, timerArmed, hasSocket, deferred, sent, events)
    }

    /** The source never assigns `pending`; here it starts empty. The source
        leaves `requestID` undefined until the first `initSocket`. */
    constructor ()
      ensures State() == Fields(0, 1, [], false, false, false, [], [])
    {
      connectionAttempt := 0;
      requestID := 1;
      pending := [];
      timerArmed := false;
      hasSocket := false;
      deferred := false;
      sent := [];
      events := [];
    }

    /** `disconnect`: clear the timer and close the socket if there is one. */
    method Disconnect()
      modifies this
      ensures State() == old(State()).(timerArmed := false,
                                       events := old(events) + if old(hasSocket) then [SocketClosed] else [])
    {
      timerArmed := false;
      if hasSocket {
        events := events + [SocketClosed];
      }
    }

    /** `initSocket`: a new socket, request ids from 1 again, one more attempt. */
    method InitSocket()
      modifies this
      ensures State() == old(State()).(requestID := 1, hasSocket := true,
                                       connectionAttempt := old(connectionAttempt) + 1)
    {
      requestID := 1;
      hasSocket := true;
      connectionAttempt := connectionAttempt + 1;
    }

    /** `connect`: disconnect, open a new socket and await it. */
    method Connect()
      modifies this
      ensures State() == old(State()).(
        timerArmed := false, requestID := 1, hasSocket := true, deferred := true,
        connectionAttempt := old(connectionAttempt) + 1,
        events := old(events) + if old(hasSocket) then [SocketClosed] else [])
    {
      Disconnect();
      InitSocket();
      deferred := true;
    }

    /** `_onOpen`: clear the timer, call the hook, resolve the connection. */
    method OnOpen() returns (outcome: Outcome)
      modifies this
      ensures outcome == if old(deferred) then Done else Threw(NullDeferred)
      ensures State() == old(State()).(
        timerArmed := false, deferred := false,
        events := old(events) + [Opened] + if old(deferred) then [Resolved] else [])
    {
      timerArmed := false;
      events := events + [Opened];
      if !deferred {
        return Threw(NullDeferred);
      }
      events := events + [Resolved];
      deferred := false;
      outcome := Done;
    }

    /** `_onError`: a closed socket (`readyState` 3) is retried while at most
        10 attempts have been made; after that the connection is rejected.
        Any other error goes to the `onError` hook. */
    method OnError(readyState: int) returns (outcome: Outcome)
      modifies this
      ensures readyState != 3 ==>
        outcome == Done && State() == old(State()).(events := old(events) + [SocketError])
      ensures readyState == 3 && old(connectionAttempt) <= 10 ==>
        outcome == Done && State() == old(State()).(timerArmed := true)
      ensures readyState == 3 && old(connectionAttempt) > 10 ==>
        && outcome == (if old(deferred) then Done else Threw(NullDeferred))
        && State() == old(State()).(deferred := false,
             events := old(events) + [ConnectionError] + if old(deferred) then [Rejected] else [])
    {
      outcome := Done;
      if readyState == 3 {
        if connectionAttempt <= 10 {
          timerArmed := true;
        } else {
          events := events + [ConnectionError];
          if !deferred {
            return Threw(NullDeferred);
          }
          events := events + [Rejected];
          deferred := false;
        }
      } else {
        events := events + [SocketError];
      }
    }

    /** `_onClose`: only the `onClose` hook is called. */
    method OnClose()
      modifies this
      ensures State() == old(State()).(events := old(events) + [CloseHook])
    {
      events := events + [CloseHook];
    }

    /** The retry timer's callback: `initSocket` once more. */
    method FireTimer()
      modifies this
      ensures old(timerArmed) ==>
        State() == old(State()).(timerArmed := false, requestID := 1, hasSocket := true,
                                 connectionAttempt := old(connectionAttempt) + 1)
      ensures !old(timerArmed) ==> State() == old(State())
    {
      if timerArmed {
        timerArmed := false;
        InitSocket();
      }
    }

    /** `send`: `this.socket.send(data)`, which throws while no socket has
        been assigned. */
    method Send(data: Outgoing) returns (outcome: Outcome)
      modifies this
      ensures outcome == if old(hasSocket) then Done else Threw(NoSocket)
      ensures State() == old(State()).(sent := old(sent) + if old(hasSocket) then [data] else [])
    {
      if !hasSocket {
        return Threw(NoSocket);
      }
      sent := sent + [data];
      outcome := Done;
    }

    /** `sendCommand`: the text framed by CRLF. */
    method SendCommand(msg: string) returns (outcome: Outcome)
      modifies this
      ensures outcome == if old(hasSocket) then Done else Threw(NoSocket)
      ensures State() == old(State()).(
        sent := old(sent) + if old(hasSocket) then [TextOut(XsbugCommands.Framed(msg))] else [])
    {
      outcome := Send(TextOut(XsbugCommands.Framed(msg)));
    }

    /** The text `do*` commands: `doGo`, `doStep`, `doSetAllBreakpoints`, … */
    method DoCommand(c: XsbugCommands.Command) returns (outcome: Outcome)
      modifies this
      ensures outcome == if old(hasSocket) then Done else Threw(NoSocket)
      ensures State() == old(State()).(
        sent := old(sent) + if old(hasSocket) then [TextOut(XsbugCommands.Framed(XsbugCommands.Text(c)))] else [])
    {
      outcome := SendCommand(XsbugCommands.Text(c));
    }

    /** `sendBinaryCommand`: build the frame in a `Uint8Array`; a callback
        takes the current request id, which then advances. The request is
        recorded before `send`, so it stays pending when `send` throws. */
    method SendBinaryCommand(command: int, payload: Option<seq<byte>>, callback: Option<Callback>) returns (outcome: Outcome)
      modifies this
      ensures outcome == if old(hasSocket) then Done else Threw(NoSocket)
      ensures sent == old(sent) + if old(hasSocket) then [BinaryOut(BinaryFrame(command, old(requestID), callback.Some?, payload))] else []
      ensures callback.Some? ==>
        pending == old(pending) + [PendingRequest(old(requestID), callback.value)] && requestID == old(requestID) + 1
      ensures callback.None? ==> pending == old(pending) && requestID == old(requestID)
      ensures State() == old(State()).(sent := sent, pending := pending, requestID := requestID)
    {
      var needed := 1;
      if payload.Some? {
        needed := needed + 2 + |payload.value|;
      } else if callback.Some? {
        needed := needed + 2;
      }
      var msg := new byte[needed](_ => 0);
      msg[0] := ToUint8(command);
      if callback.Some? {
        msg[1] := IdHi(requestID);
        msg[2] := IdLo(requestID);
        pending := pending + [PendingRequest(requestID, callback.value)];
        requestID := requestID + 1;
      }
      if payload.Some? {
        CopyBytes(msg, 3, payload.value);
      }
      ghost var expected := BinaryFrame(command, old(requestID), callback.Some?, payload);
      assert msg[..] == expected by {
        assert |msg[..]| == |expected|;
        forall k | 0 <= k < msg.Length ensures msg[k] == expected[k] {
          if k >= 3 {
            assert expected[k] == expected[3..][k - 3];
          }
        }
      }
      outcome := Send(BinaryOut(msg[..]));
    }

    /** `doGetPreference`: opcode 6 with domain NUL key NUL. */
    method DoGetPreference(domain: string, key: string, callback: Option<Callback>) returns (outcome: Outcome)
      modifies this
      ensures outcome == if old(hasSocket) then Done else Threw(NoSocket)
      ensures sent == old(sent) +
        if old(hasSocket) then [BinaryOut(BinaryFrame(6, old(requestID), callback.Some?, Some(GetPreferencePayload(domain, key))))] else []
      ensures callback.Some? ==>
        pending == old(pending) + [PendingRequest(old(requestID), callback.value)] && requestID == old(requestID) + 1
      ensures callback.None? ==> pending == old(pending) && requestID == old(requestID)
      ensures State() == old(State()).(sent := sent, pending := pending, requestID := requestID)
    {
      var payload := new byte[|domain| + 1 + |key| + 1](_ => 0);
      CopyChars(payload, 0, domain);
      CopyChars(payload, |domain| + 1, key);
      assert payload[..] == GetPreferencePayload(domain, key) by {
        var expected := GetPreferencePayload(domain, key);
        forall k | 0 <= k < payload.Length ensures payload[k] == expected[k] {
          PreferenceAt2(domain, key, k);
        }
      }
      outcome := SendBinaryCommand(6, Some(payload[..]), callback);
    }

    /** `doSetPreference`: opcode 4 with domain NUL key NUL value NUL, no reply. */
    method DoSetPreference(domain: string, key: string, value: string) returns (outcome: Outcome)
      modifies this
      ensures outcome == if old(hasSocket) then Done else Threw(NoSocket)
      ensures State() == old(State()).(
        sent := old(sent) + if old(hasSocket) then [BinaryOut(BinaryFrame(4, 0, false, Some(SetPreferencePayload(domain, key, value))))] else [])
    {
      var payload := new byte[|domain| + 1 + |key| + 1 + |value| + 1](_ => 0);
      CopyChars(payload, 0, domain);
      CopyChars(payload, |domain| + 1, key);
      CopyChars(payload, |domain| + 1 + |key| + 1, value);
      assert payload[..] == SetPreferencePayload(domain, key, value) by {
        var expected := SetPreferencePayload(domain, key, value);
        forall k | 0 <= k < payload.Length ensures payload[k] == expected[k] {
          PreferenceAt3(domain, key, value, k);
        }
      }
      outcome := SendBinaryCommand(4, Some(payload[..]), None);
      NoCallbackFrame(4, old(requestID), payload[..]);
    }

    /** `doRestart`: the bare opcode 1. */
    method DoRestart() returns (outcome: Outcome)
      modifies this
      ensures outcome == if old(hasSocket) then Done else Threw(NoSocket)
      ensures State() == old(State()).(sent := old(sent) + if old(hasSocket) then [BinaryOut([1])] else [])
    {
      outcome := SendBinaryCommand(1, None, None);
      assert BinaryFrame(1, old(requestID), false, None) == [1];
    }

    /** `doUninstall`: opcode 2, with the request id when given a callback. */
    method DoUninstall(callback: Option<Callback>) returns (outcome: Outcome)
      modifies this
      ensures outcome == if old(hasSocket) then Done else Threw(NoSocket)
      ensures sent == old(sent) + if old(hasSocket) then [BinaryOut(BinaryFrame(2, old(requestID), callback.Some?, None))] else []
      ensures callback.Some? ==>
        pending == old(pending) + [PendingRequest(old(requestID), callback.value)] && requestID == old(requestID) + 1
      ensures callback.None? ==> pending == old(pending) && requestID == old(requestID)
      ensures State() == old(State()).(sent := sent, pending := pending, requestID := requestID)
    {
      outcome := SendBinaryCommand(2, None, callback);
    }

    /** `doInstall`: the image in 512-byte chunks, each after its 4-byte
        big-endian offset, sent back to back with opcode 3. Without a socket
        the first chunk throws and nothing is sent. */
    method DoInstall(offset: int, data: seq<byte>) returns (outcome: Outcome)
      modifies this
      ensures outcome == if old(hasSocket) || data == [] then Done else Threw(NoSocket)
      ensures State() == old(State()).(sent := old(sent) + if old(hasSocket) then InstallFrames(offset, data) else [])
    {
      var i, at := 0, offset;
      ghost var k := 0;
      ghost var frames := InstallFrames(offset, data);
      while i < |data|
        invariant k <= ChunkCount(|data|)
        invariant i == k * ChunkSize && at == offset + k * ChunkSize
        invariant hasSocket == old(hasSocket) && (k > 0 ==> hasSocket)
        invariant State() == old(State()).(sent := old(sent) + frames[..k])
        decreases |data| - i
      {
        outcome := SendInstallChunk(offset, data, k, at, i);
        if outcome.Threw? {
          assert k == 0 && frames[..k] == [];
          return;
        }
        assert frames[..k + 1] == frames[..k] + [frames[k]];
        assert (k + 1) * ChunkSize == i + ChunkSize by { NextChunk(k); }
        i, at, k := i + ChunkSize, at + ChunkSize, k + 1;
      }
      ChunkCountExit(|data|, k);
      assert frames[..k] == frames;
      if data == [] {
        assert frames == [];
      }
      outcome := Done;
    }

    /** One pass of the `doInstall` loop: chunk `k`, at byte `i` and offset `at`. */
    method SendInstallChunk(ghost offset: int, data: seq<byte>, ghost k: nat, at: int, i: nat) returns (outcome: Outcome)
      requires i == k * ChunkSize && i < |data| && at == offset + k * ChunkSize
      modifies this
      ensures k < ChunkCount(|data|)
      ensures outcome == if old(hasSocket) then Done else Threw(NoSocket)
      ensures State() == old(State()).(sent := old(sent) + if old(hasSocket) then [InstallFrames(offset, data)[k]] else [])
    {
      var payload := InstallPayloadAt(at, data, i);
      assert k < ChunkCount(|data|) && payload == InstallPayload(offset, data, k) by {
        InstallChunkAt(offset, data, k);
      }
      outcome := SendBinaryCommand(3, Some(payload), None);
      NoCallbackFrame(3, old(requestID), payload);
    }

    /** `_onMessage` for a text message: parse the document, then call the
        hook of each handled message in document order. A document that does
        not parse throws before any hook is called. */
    method OnTextMessage(root: Node) returns (outcome: Outcome)
      modifies this
      ensures ParseDocument(root).Err? ==>
        outcome == Threw(BadDocument(ParseDocument(root).error)) && State() == old(State())
      ensures ParseDocument(root).Ok? ==>
        outcome == Done && State() == old(State()).(events := old(events) + Deliveries(ParseDocument(root).value))
    {
      var parsed := ParseDocument(root);
      if parsed.Err? {
        return Threw(BadDocument(parsed.error));
      }
      Deliver(parsed.value);
      outcome := Done;
    }

    /** The `msg.forEach(…)` dispatch loop. */
    method Deliver(ms: seq<XsbugMessage>)
      modifies this
      ensures State() == old(State()).(events := old(events) + Deliveries(ms))
    {
      var delivered := events;
      var i := 0;
      while i < |ms|
        invariant 0 <= i <= |ms|
        invariant delivered == events + Deliveries(ms[..i])
        modifies {}
      {
        assert Deliveries(ms[..i + 1]) == Deliveries(ms[..i]) + (if IsHandled(ms[i]) then [Delivered(ms[i])] else []) by {
          DeliveriesAppend(ms[..i], ms[i]);
          assert ms[..i + 1] == ms[..i] + [ms[i]];
        }
        if IsHandled(ms[i]) {
          delivered := delivered + [Delivered(ms[i])];
        }
        i := i + 1;
      }
      assert ms[..i] == ms;
      events := delivered;
    }

    /** `_onMessage` for a binary message: an opcode-5 reply removes the first
        pending request with its id and calls that request's callback; a reply
        nobody waits for, and any other opcode, change nothing. */
    method OnBinaryMessage(data: seq<byte>) returns (outcome: Outcome)
      modifies this
      ensures DecodeBinary(data).Err? ==> outcome == Threw(ReadPastEnd) && State() == old(State())
      ensures DecodeBinary(data).Ok? ==> outcome == Done
      ensures DecodeBinary(data).Ok? && DecodeBinary(data).value.None? ==> State() == old(State())
      ensures DecodeBinary(data).Ok? && DecodeBinary(data).value.Some? ==>
        var rep := DecodeBinary(data).value.value;
        var i := FindPending(old(pending), rep.id);
        && (i < 0 ==> State() == old(State()))
        && (0 <= i ==> State() == old(State()).(
              pending := old(pending)[..i] + old(pending)[i + 1..],
              events := old(events) + [Replied(old(pending)[i].callback, rep)]))
    {
      var decoded := DecodeBinary(data);
      if decoded.Err? {
        return Threw(ReadPastEnd);
      }
      outcome := Done;
      if decoded.value.Some? {
        var rep := decoded.value.value;
        var index := FindPending(pending, rep.id);
        if index >= 0 {
          var request := pending[index];
          pending := pending[..index] + pending[index + 1..];
          events := events + [Replied(request.callback, rep)];
        }
      }
    }
  }

  /** `msg.set(bytes, at)`. */
  method CopyBytes(msg: array<byte>, at: nat, bytes: seq<byte>)
    requires at + |bytes| <= msg.Length
    modifies msg
    ensures msg[..] == old(msg[..at]) + bytes + old(msg[at + |bytes|..])
  {
    var i := 0;
    while i < |bytes|
      invariant 0 <= i <= |bytes|
      invariant msg[..] == old(msg[..at]) + bytes[..i] + old(msg[at + i..])
    {
      msg[at + i] := bytes[i];
      assert bytes[..i + 1] == bytes[..i] + [bytes[i]];
      i := i + 1;
    }
  }

  /** `for (…) payload[j++] = s.charCodeAt(i)` from position `at`. */
  method CopyChars(payload: array<byte>, at: nat, s: string)
    requires at + |s| <= payload.Length
    modifies payload
    ensures forall k :: 0 <= k < |s| ==> payload[at + k] == ToUint8(s[k] as int)
    ensures forall k :: 0 <= k < payload.Length && !(at <= k < at + |s|) ==> payload[k] == old(payload[k])
  {
    var i, j := 0, at;
    while i < |s|
      invariant 0 <= i <= |s| && j == at + i
      invariant forall k :: 0 <= k < i ==> payload[at + k] == ToUint8(s[k] as int)
      invariant forall k :: 0 <= k < payload.Length && !(at <= k < at + i) ==> payload[k] == old(payload[k])
    {
      payload[j] := ToUint8(s[i] as int);
      i, j := i + 1, j + 1;
    }
  }

  /** The payload `doInstall` builds for the chunk at byte `i`, whose offset is `at`. */
  method InstallPayloadAt(at: int, data: seq<byte>, i: nat) returns (payload: seq<byte>)
    requires i < |data|
    ensures payload == Be32(at) + data[i..Min(|data|, i + ChunkSize)]
  {
    var use := Min(ChunkSize, |data| - i);
    var buffer := new byte[4 + use](_ => 0);
    buffer[0] := ShiftedByte(at, 0x100_0000);
    buffer[1] := ShiftedByte(at, 0x1_0000);
    buffer[2] := ShiftedByte(at, 0x100);
    buffer[3] := ShiftedByte(at, 1);
    CopyBytes(buffer, 4, data[i..i + use]);
    assert buffer[..4] == Be32(at);
    assert buffer[..] == buffer[..4] + buffer[4..];
    payload := buffer[..];
  }

  /** The chunk that starts at byte `512k` of the image is chunk `k`. */
  lemma InstallChunkAt(offset: int, data: seq<byte>, k: nat)
    requires k * ChunkSize < |data|
    ensures k < ChunkCount(|data|)
    ensures InstallPayload(offset, data, k) == Be32(offset + k * ChunkSize) + data[k * ChunkSize..Min(|data|, k * ChunkSize + ChunkSize)]
  {
  }

  lemma NextChunk(k: nat)
    ensures (k + 1) * ChunkSize == k * ChunkSize + ChunkSize
  {
  }

  /** The `doInstall` loop stops after exactly `Math.ceil(n / 512)` chunks. */
  lemma ChunkCountExit(n: nat, k: nat)
    requires k <= ChunkCount(n) && k * ChunkSize >= n
    ensures k == ChunkCount(n)
  {
  }

  /** Without a callback the request id does not appear in the frame. */
  lemma NoCallbackFrame(command: int, id: int, payload: seq<byte>)
    ensures BinaryFrame(command, id, false, Some(payload)) == BinaryFrame(command, 0, false, Some(payload))
  {
  }

  /** Byte `k` of the get-preference payload. */
  lemma PreferenceAt2(domain: string, key: string, k: nat)
    requires k < |domain| + 1 + |key| + 1
    ensures GetPreferencePayload(domain, key)[k] ==
      if k < |domain| then ToUint8(domain[k] as int)
      else if k == |domain| then 0
      else if k < |domain| + 1 + |key| then ToUint8(key[k - |domain| - 1] as int)
      else 0
  {
  }

  /** Byte `k` of the set-preference payload. */
  lemma PreferenceAt3(domain: string, key: string, value: string, k: nat)
    requires k < |domain| + 1 + |key| + 1 + |value| + 1
    ensures SetPreferencePayload(domain, key, value)[k] ==
      var second := |domain| + 1;
      var third := second + |key| + 1;
      if k < |domain| then ToUint8(domain[k] as int)
      else if k == |domain| then 0
      else if k < second + |key| then ToUint8(key[k - second] as int)
      else if k == second + |key| then 0
      else if k < third + |value| then ToUint8(value[k - third] as int)
      else 0
  {
  }

  // ------------------------------------------------------ `pending` as written

  /** The `pending` field as the source's constructor leaves it: it is
      declared but never assigned, so it stays `undefined`. */
  datatype PendingField = Undefined | Assigned(requests: seq<PendingRequest>)

  /** The bookkeeping of `sendBinaryCommand` on that field: with a callback,
      `this.pending.push(...)` throws on `undefined`, before the id
      advances and before the frame is sent (None); otherwise the new field
      and the next id. */
  function RegisterAsWritten(field: PendingField, requestID: int, callback: Option<Callback>): (r: Option<(PendingField, int)>)
    ensures callback.None? ==> r == Some((field, requestID))
  {
    if callback.None? then Some((field, requestID))
    else
      match field
      case Undefined => None
      case Assigned(rs) => Some((Assigned(rs + [PendingRequest(requestID, callback.value)]), requestID + 1))
  }

  /** As written, the first command that carries a callback throws, so no
      reply can ever be matched; starting from an empty table, as the model
      does, the request is recorded. */
  lemma PendingAsWrittenThrows(requestID: int, cb: Callback)
    ensures RegisterAsWritten(Undefined, requestID, Some(cb)) == None
    ensures RegisterAsWritten(Assigned([]), requestID, Some(cb)) == Some((Assigned([PendingRequest(requestID, cb)]), requestID + 1))
  {
    assert [] + [PendingRequest(requestID, cb)] == [PendingRequest(requestID, cb)];
  }

  // ------------------------------------------------------------ scenarios

  /** A fresh connection whose socket keeps closing is retried ten times:
      the eleventh attempt's error rejects the connection. */
  method RetryUntilRejected() returns (c: DeviceConnection)
    ensures fresh(c)
    ensures c.connectionAttempt == 11
    ensures c.events == [ConnectionError, Rejected] && !c.deferred && !c.timerArmed && c.hasSocket
  {
    c := new DeviceConnection();
    c.Connect();
    var retries := 0;
    while retries < 10
      invariant 0 <= retries <= 10
      invariant c.connectionAttempt == retries + 1
      invariant c.deferred && !c.timerArmed && c.events == [] && c.hasSocket
    {
      var _ := c.OnError(3);
      c.FireTimer();
      retries := retries + 1;
    }
    var outcome := c.OnError(3);
  }

  /** The attempt counter is never reset: a second `connect` after a
      rejection is rejected at its first error, without any retry. */
  method NoRetryAfterRejection() returns (c: DeviceConnection)
    ensures c.connectionAttempt == 12 && !c.timerArmed
    ensures c.events == [ConnectionError, Rejected, SocketClosed, ConnectionError, Rejected]
  {
    c := RetryUntilRejected();
    c.Connect();
    var outcome := c.OnError(3);
  }
}
