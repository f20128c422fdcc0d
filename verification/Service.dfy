/**
The clustered service around the pointer-based book: a session table, a
broadcast order and the offers made so far. Every callback is proved to be the
step of the state machine in `Sessions.dfy`.
*/
module Service {
  import opened Events
  import opened Book
  import opened Invariant
  import opened Bytes
  import opened Marshalling
  import opened Codec
  import opened Wire
  import opened Sessions
  import opened OrderBooks
  import opened LevelSlices
  import Snapshot
  import Persistence

  class MatchingService {
    var book: OrderBook
    var sessions: set<int>
    var sessionIds: seq<int>
    var offered: seq<Delivery>
    const marshaller: Marshaller

    ghost predicate Valid()
      reads this, book, book.bids, book.asks, book.Objects()
    {
      book.Valid() && marshaller.b8.Length == 8 && {this, marshaller.b8} !! book.Objects()
    }

    ghost function Now(alive: bool): State
      reads this, book, book.bids, book.asks
    {
      State(book.View(), sessions, sessionIds, alive)
    }

    constructor ()
      ensures Valid() && Now(true) == START && offered == [] && fresh(book.Objects()) && fresh(marshaller.b8)
    {
      hide OrderBook.Valid, OrderBook.View;
      book := new OrderBook(Go);
      marshaller := new Marshaller();
      sessions, sessionIds, offered := {}, [], [];
    }

    // --- Sessions ------------------------------------------------------------

    method OnSessionOpen(id: int)
      requires Valid()
      modifies this`sessions, this`sessionIds
      ensures Valid() && Now(true) == Serve(old(Now(true)), Open(id)).state
    {
      hide OrderBook.Valid;
      sessions := sessions + {id};
      sessionIds := sessionIds + [id];
    }

    method OnSessionClose(id: int)
      requires Valid()
      modifies this`sessions, this`sessionIds
      ensures Valid() && Now(true) == Serve(old(Now(true)), Close(id)).state
    {
      hide OrderBook.Valid;
      sessions := sessions - {id};
      for i := 0 to |sessionIds|
        invariant sessionIds == old(sessionIds)
        invariant forall j :: 0 <= j < i ==> sessionIds[j] != id
      {
        if sessionIds[i] == id {
          ForgetAt(sessionIds, id, i);
          sessionIds := sessionIds[..i] + sessionIds[i + 1..];
          return;
        }
      }
      ForgetNone(sessionIds, id);
    }

    // --- Egress --------------------------------------------------------------

    method SendTo(id: int, frame: seq<byte>)
      modifies this`offered
      ensures offered == old(offered) + Sessions.SendTo(sessions, id, frame)
    {
      if id in sessions {
        offered := offered + [Delivery(id, frame)];
      }
    }

    method Broadcast(frame: seq<byte>)
      modifies this`offered
      ensures offered == old(offered) + Sessions.Broadcast(sessions, sessionIds, frame)
    {
      for i := 0 to |sessionIds|
        invariant offered == old(offered) + Sessions.Broadcast(sessions, sessionIds[..i], frame)
      {
        assert sessionIds[..i + 1][..i] == sessionIds[..i];
        SendTo(sessionIds[i], frame);
      }
      assert sessionIds[..|sessionIds|] == sessionIds;
    }

    // Encodes and sends the events in turn; false when one cannot be encoded.
    method RouteAll(events: seq<Event>, ts: int) returns (ok: bool)
      requires marshaller.b8.Length == 8
      modifies this`offered, marshaller.b8
      ensures var r := Route(sessions, sessionIds, events, ts);
              ok == r.ok && offered == old(offered) + r.sent
    {
      RouteNone(sessions, sessionIds, events, ts);
      hide MessageOf, Frame, Route, Sessions.Broadcast, Sessions.SendTo;
      for i := 0 to |events|
        invariant Route(sessions, sessionIds, events[..i], ts).ok
        invariant offered == old(offered) + Route(sessions, sessionIds, events[..i], ts).sent
      {
        RouteNext(sessions, sessionIds, events, ts, i);
        var frame := EncodeFrame(marshaller, MessageOf(events[i], ts));
        if frame.None? {
          return false;
        }
        if Public(events[i]) {
          Broadcast(frame.value);
        } else {
          SendTo(events[i].owner, frame.value);
        }
      }
      assert events[..|events|] == events;
      return true;
    }

    // --- Ingress -------------------------------------------------------------

    // Decodes the command in a frame; anything malformed gives none.
    method Ingest(session: int, frame: seq<byte>) returns (cmd: Option<Command>)
      requires marshaller.b8.Length == 8
      modifies marshaller.b8
      ensures cmd == Ingress(frame, session)
    {
      if |frame| < FRAME_HEADER {
        return None;
      }
      hide Decode, Unsigned;
      var templateId, schemaId, version := Unsigned(frame[2..4]), Unsigned(frame[4..6]), Unsigned(frame[6..8]);
      if schemaId != SCHEMA {
        return None;
      }
      var body := frame[FRAME_HEADER..];
      if templateId == NEW_ORDER {
        var m := DecodeNewOrder(marshaller, body, version);
        if m.Some? {
          Shape(NEW_ORDER, body, version);
          return Some(NewOrder(m.value.clientOrderId, session, m.value.side, m.value.price, m.value.qty));
        }
      } else if templateId == CANCEL_ORDER {
        var m := DecodeCancelOrder(marshaller, body, version);
        if m.Some? {
          Shape(CANCEL_ORDER, body, version);
          return Some(Cancel(m.value.orderId, session));
        }
      }
      return None;
    }

    // One message: the book, the offers and whether the process survives are
    // those of the state machine.
    method OnSessionMessage(session: int, ts: int, frame: seq<byte>) returns (alive: bool)
      requires Valid()
      modifies this`offered, marshaller.b8, book.Objects()
      ensures Valid() && book == old(book) && fresh(book.Objects() - old(book.Objects()))
      ensures var r := Serve(old(Now(true)), Message(session, ts, frame));
              Now(alive) == r.state && offered == old(offered) + r.sent
    {
      hide Ingress, Step, Route, OrderBook.Valid, OrderBook.View;
      var cmd := Ingest(session, frame);
      if cmd.None? {
        return true;
      }
      var events := book.Apply(cmd.value);
      alive := RouteAll(events, ts);
    }

    // A whole log of inputs, until the process stops; from the start, or from
    // whatever state a restore left.
    method Replay(inputs: seq<Input>) returns (alive: bool)
      requires Valid()
      modifies this`sessions, this`sessionIds, this`offered, marshaller.b8, book.Objects()
      ensures Valid() && book == old(book)
      ensures var r := ServeAll(old(Now(true)), inputs);
              Now(alive) == r.state && offered == old(offered) + r.sent
    {
      ghost var start := Now(true);
      ServeNone(start, inputs);
      hide Serve, ServeAll, OrderBook.Valid, OrderBook.View;
      alive := true;
      for i := 0 to |inputs|
        invariant Valid() && book == old(book) && fresh(book.Objects() - old(book.Objects()))
        invariant Now(alive) == ServeAll(start, inputs[..i]).state && offered == old(offered) + ServeAll(start, inputs[..i]).sent
      {
        ServeNext(start, inputs, i);
        if alive {
          match inputs[i]
          case Open(id) => OnSessionOpen(id);
          case Close(id) => OnSessionClose(id);
          case Message(session, ts, frame) => alive := OnSessionMessage(session, ts, frame);
        }
      }
      assert inputs[..|inputs|] == inputs;
    }

    // --- Snapshots -----------------------------------------------------------

    method WriteSnapshot() returns (chunks: seq<seq<byte>>)
      requires Valid()
      ensures Persistence.Packed(chunks) && Persistence.Join(chunks) == Snapshot.SnapshotBytes(book.View())
    {
      hide Snapshot.SnapshotBytes;
      var data := Persistence.SnapshotOf(book);
      chunks := Persistence.Chunks(data);
    }

    // Starts afresh, or from the fragments of a snapshot image in order.
    method OnStart(image: Option<seq<seq<byte>>>) returns (ok: bool)
      requires Valid()
      modifies this`book
      ensures image.None? ==> ok && book == old(book) && Valid()
      ensures image.Some? ==> var r := Snapshot.Restore(Persistence.Join(image.value));
                              && (ok <==> r.Ok?)
                              && (ok ==> book.Linked() && book.View() == r.value)
                              && (ok && WellFormed(r.value) ==> Valid())
    {
      if image.None? {
        return true;
      }
      hide Snapshot.Restore, OrderBook.Valid, OrderBook.View, OrderBook.Linked, WellFormed;
      var stream := [];
      for i := 0 to |image.value|
        invariant stream == Persistence.Join(image.value[..i])
      {
        assert image.value[..i + 1][..i] == image.value[..i];
        stream := stream + image.value[i];
      }
      assert image.value[..|image.value|] == image.value;
      ok := RestoreSnapshot(stream);
    }

    // Starts from the bytes of a snapshot image; false stands for the panic on a
    // snapshot that cannot be restored.
    method RestoreSnapshot(stream: seq<byte>) returns (ok: bool)
      requires Valid()
      modifies this`book
      ensures ok <==> Snapshot.Restore(stream).Ok?
      ensures !ok ==> book == old(book)
      ensures ok ==> fresh(book.Objects()) && book.Linked() && book.View() == Snapshot.Restore(stream).value
      ensures ok ==> book.Listed() == Snapshot.IndexOrders(stream[Snapshot.HEADER..], Snapshot.CountOf(stream), map[])
      ensures !ok || WellFormed(Snapshot.Restore(stream).value) ==> Valid()
    {
      hide Snapshot.Restore, OrderBook.Valid, OrderBook.View, OrderBook.Linked, OrderBook.Listed, Snapshot.IndexOrders, WellFormed;
      var restored := Persistence.RestoreOrderBook(stream);
      if restored.Err? {
        return false;
      }
      book := restored.value;
      return true;
    }
  }

  lemma {:induction false} Shape(t: int, bs: seq<byte>, acting: int)
    requires KnownTemplate(t) && Decode(t, bs, acting).Some?
    ensures TemplateOf(Decode(t, bs, acting).value) == t
  {
  }

  lemma {:induction false} ServeNone(start: State, inputs: seq<Input>)
    ensures ServeAll(start, inputs[..0]) == Served(start, [])
  {
  }

  lemma {:induction false} ServeNext(start: State, inputs: seq<Input>, i: nat)
    requires i < |inputs|
    ensures var before := ServeAll(start, inputs[..i]);
            var last := Serve(before.state, inputs[i]);
            && (before.state.alive ==> ServeAll(start, inputs[..i + 1]) == Served(last.state, before.sent + last.sent))
            && (!before.state.alive ==> ServeAll(start, inputs[..i + 1]) == before)
            && (!inputs[i].Message? ==> last.state.alive == before.state.alive && last.sent == [])
  {
    hide Step, Ingress, Route, Forget;
    assert inputs[..i + 1][..i] == inputs[..i];
  }

  lemma {:induction false} RouteNone(open: set<int>, ids: seq<int>, events: seq<Event>, ts: int)
    ensures Route(open, ids, events[..0], ts) == Routed([], true)
  {
  }

  lemma {:induction false} RouteNext(open: set<int>, ids: seq<int>, events: seq<Event>, ts: int, i: nat)
    requires i < |events| && Route(open, ids, events[..i], ts).ok
    ensures var before, ev := Route(open, ids, events[..i], ts), events[i];
            Route(open, ids, events[..i + 1], ts) == match EventFrame(ev, ts)
                                                     case Some(frame) => Routed(before.sent + Send(open, ids, ev, frame), true)
                                                     case None => Routed(before.sent, false)
    ensures !Route(open, ids, events[..i + 1], ts).ok ==> Route(open, ids, events, ts) == Route(open, ids, events[..i + 1], ts)
  {
    hide EventFrame, Send;
    assert events[..i + 1][..i] == events[..i];
    if !Route(open, ids, events[..i + 1], ts).ok {
      Stopped(open, ids, events, ts, i + 1);
    }
  }

  // Nothing is sent after an event that cannot be encoded.
  lemma {:induction false} Stopped(open: set<int>, ids: seq<int>, events: seq<Event>, ts: int, i: nat)
    requires i <= |events| && !Route(open, ids, events[..i], ts).ok
    ensures Route(open, ids, events, ts) == Route(open, ids, events[..i], ts)
  {
    hide EventFrame, Send;
    if i < |events| {
      var n := |events| - 1;
      assert events[..n][..i] == events[..i];
      Stopped(open, ids, events[..n], ts, i);
    } else {
      assert events[..i] == events;
    }
  }
}
