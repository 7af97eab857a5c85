/**
 The server's state and handlers: the registry of connected devices (the
 dict `app.wss` from device id to websocket), the websocket connect and
 disconnect handling that writes it, the two HTTP command handlers that read
 it, and shutdown.

 Transport effects are explicit: a connection is an opaque handle, the
 outcome of a `send_json` is passed in as `sendOk`, and a handler returns
 the message it sent, the reply and the HTTP status as a `Dispatch` value.
 */
module Server {
  import opened Options
  import opened Resolver
  import opened Messages

  /** A handle for one accepted websocket. */
  type ConnId = nat

  /** Websocket close code 1001, "going away". */
  const GoingAway: int := 1001

  /**
   How the connect handler ends its admission step: the new socket is kept,
   it is closed with a code, or the transport closed under it and the
   handler went straight to its disconnect clean-up.
   */
  datatype Admission = Accepted | ClosedWith(code: int) | Aborted

  /** Why a command handler answered 404. */
  datatype NotFoundReason = TableDoesNotExist | TableInvalid | DeviceNotConnected

  /**
   The outcome of a command handler: 200 with the reply, the connection the
   command went to and the command sent; 404 with its reason; or 500 when
   the send failed.
   */
  datatype Dispatch = Ok(reply: Json, sentTo: ConnId, sent: Json) | NotFound404(reason: NotFoundReason) | SendFailed500
  {
    function Status(): int {
      match this
      case Ok(_, _, _) => 200
      case NotFound404(_) => 404
      case SendFailed500 => 500
    }
  }

  /** The mode a successful resolution yields, `None` when no range applies. */
  function ModeOf(res: Resolution): Option<string>
    requires res.Mode? || res.NoMode?
  {
    if res.Mode? then Some(res.m) else None
  }

  class Registry {
    /** Device id to its live connection. */
    var wss: map<string, ConnId>

    /** Startup: the registry starts empty. */
    constructor ()
      ensures wss == map[]
    {
      wss := map[];
    }

    /**
     A device connects under `deviceId` with the freshly accepted socket
     `ws`. `transportClosed` says that `accept`, or the 1001 close of a
     duplicate, raised one of the disconnect exceptions; the handler's
     clean-up then pops `deviceId`, by id, whichever connection owns the
     entry. Otherwise a second connection for an id already registered is
     closed with "going away" and the registry is left as it was, and a new
     id gets `ws` stored under it with no other entry changed.
     */
    method Connect(deviceId: string, ws: ConnId, transportClosed: bool) returns (admission: Admission)
      modifies this
      ensures transportClosed ==> admission == Aborted && wss == old(wss) - {deviceId}
      ensures !transportClosed && deviceId in old(wss) ==> admission == ClosedWith(GoingAway) && wss == old(wss)
      ensures !transportClosed && deviceId !in old(wss) ==> admission == Accepted && wss == old(wss)[deviceId := ws]
    {
      if transportClosed {
        Disconnect(deviceId);
        return Aborted;
      }
      if deviceId in wss.Keys {
        return ClosedWith(GoingAway);
      }
      wss := wss[deviceId := ws];
      admission := Accepted;
    }

    /** The device's socket closed: its id is removed; an absent id is a no-op. */
    method Disconnect(deviceId: string)
      modifies this
      ensures deviceId !in wss
      ensures wss == old(wss) - {deviceId}
      ensures deviceId !in old(wss) ==> wss == old(wss)
    {
      wss := wss - {deviceId};
    }

    /**
     GET /cmd/{device_id}/qsy/{qrg}: 404 if the device is not connected
     (nothing is sent), 500 if the send fails, otherwise the qsy command is
     sent to the device's connection and the reply echoes the id and qrg.
     */
    method Qsy(deviceId: string, qrg: int, sendOk: bool) returns (r: Dispatch)
      ensures deviceId !in wss ==> r == NotFound404(DeviceNotConnected)
      ensures deviceId in wss && !sendOk ==> r == SendFailed500
      ensures deviceId in wss && sendOk ==> r == Ok(QsyReply(deviceId, qrg), wss[deviceId], QsyCommand(qrg))
      ensures r.Status() == 200 <==> deviceId in wss && sendOk
    {
      if deviceId !in wss {
        return NotFound404(DeviceNotConnected);
      }
      var clientSocket := wss[deviceId];
      var command := QsyCommand(qrg);
      if !sendOk {
        return SendFailed500;
      }
      r := Ok(QsyReply(deviceId, qrg), clientSocket, command);
    }

    /**
     GET /cmd/{device_id}/qsy-with-mode/{table}/{qrg}: the mode is resolved
     first, and a missing or invalid table answers 404 whether or not the
     device is connected. Then it proceeds as `Qsy`, with the resolved mode,
     possibly `None`, in both the command and the reply.
     */
    method QsyWithMode(deviceId: string, tableExists: bool, content: Content, qrg: int, sendOk: bool)
      returns (r: Dispatch)
      ensures var res := Resolve(tableExists, content, qrg);
        && (res == DoesNotExist ==> r == NotFound404(TableDoesNotExist))
        && (res == Invalid ==> r == NotFound404(TableInvalid))
        && (!res.DoesNotExist? && !res.Invalid? && deviceId !in wss ==> r == NotFound404(DeviceNotConnected))
        && (!res.DoesNotExist? && !res.Invalid? && deviceId in wss && !sendOk ==> r == SendFailed500)
        && (!res.DoesNotExist? && !res.Invalid? && deviceId in wss && sendOk ==>
              r == Ok(QsyWithModeReply(deviceId, qrg, ModeOf(res)), wss[deviceId], QsyWithModeCommand(qrg, ModeOf(res))))
    {
      var resolved := GetModeFromQrg(tableExists, content, qrg);
      if resolved == DoesNotExist {
        return NotFound404(TableDoesNotExist);
      } else if resolved == Invalid {
        return NotFound404(TableInvalid);
      }
      var resolvedMode := ModeOf(resolved);
      if deviceId !in wss {
        return NotFound404(DeviceNotConnected);
      }
      var clientSocket := wss[deviceId];
      var command := QsyWithModeCommand(qrg, resolvedMode);
      if !sendOk {
        return SendFailed500;
      }
      r := Ok(QsyWithModeReply(deviceId, qrg, resolvedMode), clientSocket, command);
    }

    /**
     Shutdown closes the registered connections one after another. `order`
     lists the ids reached, without repetition, and `closed[i]` is the
     connection of `order[i]` on which `close` was called. `failAt` is the
     position, in iteration order, of the first close that raises: nothing
     catches it, so the loop stops there and the later connections stay
     open (`failAt >= |wss|` means every close succeeds). `stopped` says
     that a close raised. The registry itself is not changed.
     */
    method Shutdown(failAt: nat) returns (order: seq<string>, closed: seq<ConnId>, stopped: bool)
      ensures stopped <==> failAt < |wss.Keys|
      ensures |order| == |closed| == (if stopped then failAt + 1 else |wss.Keys|)
      ensures forall i :: 0 <= i < |order| ==> order[i] in wss && closed[i] == wss[order[i]]
      ensures forall i, j :: 0 <= i < j < |order| ==> order[i] != order[j]
      ensures !stopped ==> forall id :: id in wss ==> id in order
    {
      var remaining := wss.Keys;
      order, closed, stopped := [], [], false;
      while remaining != {} && !stopped
        invariant remaining <= wss.Keys
        invariant |order| == |closed| && |order| + |remaining| == |wss.Keys|
        invariant stopped <==> |order| == failAt + 1
        invariant |order| <= failAt + 1
        invariant forall i :: 0 <= i < |order| ==> order[i] in wss && order[i] !in remaining && closed[i] == wss[order[i]]
        invariant forall i, j :: 0 <= i < j < |order| ==> order[i] != order[j]
        invariant forall id :: id in wss && id !in remaining ==> id in order
        decreases remaining
      {
        var id :| id in remaining;
        order, closed := order + [id], closed + [wss[id]];
        remaining := remaining - {id};
        if |order| == failAt + 1 {
          stopped := true;
        }
      }
    }
  }
}

/**
 A device's lifecycle seen through the registry's contracts.
 */
module Lifecycle {
  import opened Resolver
  import opened Server

  /**
   A duplicate connection is turned away while the first stays registered;
   once the first disconnects, both command handlers answer 404 for its id.
   */
  method DuplicateThenDisconnect(reg: Registry, deviceId: string, first: ConnId, second: ConnId,
                                 items: seq<RangeItem>, qrg: int, sendOk: bool)
    returns (a1: Admission, a2: Admission, r1: Dispatch, r2: Dispatch)
    requires deviceId !in reg.wss
    modifies reg
    ensures a1 == Accepted && a2 == ClosedWith(GoingAway)
    ensures r1 == NotFound404(DeviceNotConnected)
    ensures Scan(items, qrg) != Invalid ==> r2 == NotFound404(DeviceNotConnected)
    ensures Scan(items, qrg) == Invalid ==> r2 == NotFound404(TableInvalid)
    ensures reg.wss == old(reg.wss)
  {
    a1 := reg.Connect(deviceId, first, false);
    a2 := reg.Connect(deviceId, second, false);
    assert reg.wss[deviceId] == first;
    reg.Disconnect(deviceId);
    r1 := reg.Qsy(deviceId, qrg, sendOk);
    r2 := reg.QsyWithMode(deviceId, true, Ranges(items), qrg, sendOk);
    assert reg.wss == old(reg.wss)[deviceId := first] - {deviceId};
  }

  /**
   A duplicate whose 1001 close raises a disconnect exception evicts the
   first device's entry, because the clean-up pops by id: the first
   connection is still open but no longer reachable by the command
   handlers, and a third connection under the same id is then accepted
   beside it.
   */
  method FailedDuplicateEvictsFirst(reg: Registry, deviceId: string, first: ConnId, second: ConnId, third: ConnId,
                                    qrg: int, sendOk: bool)
    returns (a1: Admission, a2: Admission, r: Dispatch, a3: Admission)
    requires deviceId !in reg.wss
    modifies reg
    ensures a1 == Accepted && a2 == Aborted && a3 == Accepted
    ensures r == NotFound404(DeviceNotConnected)
    ensures reg.wss == old(reg.wss)[deviceId := third]
  {
    a1 := reg.Connect(deviceId, first, false);
    a2 := reg.Connect(deviceId, second, true);
    r := reg.Qsy(deviceId, qrg, sendOk);
    a3 := reg.Connect(deviceId, third, false);
    assert reg.wss == (old(reg.wss)[deviceId := first] - {deviceId})[deviceId := third];
  }
}
