/**
The reply a session gets to its own command, told from the command alone: the
first frame after it reaches that session's listener with the codes and fields
written out here.
*/
module Replies {
  import opened Events
  import opened Book
  import opened Invariant
  import opened Lifecycle
  import opened Bytes
  import opened Codec
  import opened Wire
  import opened Sessions
  import opened Answers

  // A session's own report that opens a batch is the first it sees of it.
  lemma {:induction false} FirstVisible(events: seq<Event>, ts: int, s: int, k: nat)
    requires events != [] && !Public(events[0]) && events[0].owner == s
    ensures Visible(events, ts, s, k) != [] && Visible(events, ts, s, k)[0] == Notice(events[0], ts)
    ensures |events| == 1 ==> |Visible(events, ts, s, k)| == 1
  {
    if |events| > 1 {
      FirstVisible(events[..|events| - 1], ts, s, k);
    } else {
      assert events[..0] == [] && Visible([], ts, s, k) == [];
    }
  }

  // The batch of the last input is what its command is answered with.
  lemma {:induction false} BatchAnswers(before: seq<Input>, s: int, ts: int, frame: seq<byte>, cmd: Command)
    requires Ingress(frame, s) == Some(cmd)
    ensures var inputs, cmds := before + [Message(s, ts, frame)], Commands(before) + [cmd];
            && Commands(inputs) == cmds
            && Batch(START, inputs) == EventsOf(cmds, |Commands(before)|)
  {
    hide Ingress, Run, Step;
    var inputs, n := before + [Message(s, ts, frame)], |before|;
    assert inputs[..n] == before && inputs[n] == Message(s, ts, frame);
    assert (Commands(before) + [cmd])[..|Commands(before)|] == Commands(before);
  }

  lemma {:induction false} FreshBefore(before: seq<Input>, last: Input)
    requires FreshOpens(START, before + [last])
    ensures FreshOpens(START, before)
  {
    hide Copies;
    forall k | 0 <= k < |before| && before[k].Open?
      ensures Copies(START, before[..k], before[k].id) == 0
    {
      assert (before + [last])[k] == before[k] && (before + [last])[..k] == before[..k];
    }
  }

  lemma {:induction false} StartSound(s: int)
    ensures Sound(START) && Count(START.ids, s) <= 1
  {
  }

  // The first frame of the reply, with the event it tells.
  lemma {:induction false} FirstReply(before: seq<Input>, s: int, ts: int, frame: seq<byte>, cmd: Command)
    requires Ingress(frame, s) == Some(cmd) && IsOpen(START, before, s)
    requires FreshOpens(START, before + [Message(s, ts, frame)]) && ServeAll(START, before + [Message(s, ts, frame)]).state.alive
    requires var evs := EventsOf(Commands(before) + [cmd], |Commands(before)|);
             evs != [] && !Public(evs[0]) && evs[0].owner == s
    ensures ServeAll(START, before).state.alive
    ensures var evs := EventsOf(Commands(before) + [cmd], |Commands(before)|);
            var had := |Received(ServeAll(START, before).sent, s)|;
            var frames := Received(ServeAll(START, before + [Message(s, ts, frame)]).sent, s);
            && had < |frames| && Callback(frames[had]).Some? && Tells(Callback(frames[had]).value, evs[0], ts)
            && (|evs| == 1 ==> |frames| == had + 1)
  {
    var last := Message(s, ts, frame);
    var inputs, n := before + [last], |before|;
    assert inputs[..n] == before && inputs[n] == last && Stamp(inputs[n]) == ts;
    BatchAnswers(before, s, ts, frame, cmd);
    StartSound(s);
    hide ServeAll, Ingress, IsOpen, Copies, Batch, Commands, EventsOf, Received, Callback, Tells, Visible, FreshOpens, Sound, Count, MessageOf, Stamp;
    FreshBefore(before, last);
    ServeLast(START, inputs);
    ClientSees(START, before, s);
    ClientSees(START, inputs, s);
    DueSnoc(START, inputs, s);
    FirstVisible(Batch(START, inputs), ts, s, 1);
  }

  lemma {:induction false} SenderOwns(frame: seq<byte>, s: int, cmd: Command)
    requires Ingress(frame, s) == Some(cmd)
    ensures cmd.owner == s
  {
    IngressFits(frame, s);
  }

  // The report to a new order: accepted as sent under `id` with status 0, or
  // rejected with status 1 and reason 1 for the quantity or 2 for the price.
  predicate RepliesToOrder(m: Message, cmd: Command, id: int, ts: int)
    requires cmd.NewOrder?
  {
    && m.ExecutionReport? && m.clientOrderId == cmd.clientOrderId && m.timestamp == ts && m.remainingQty == 0
    && if cmd.qty > 0 && cmd.price > 0 then
         && m.status == 0 && m.reason == 0 && m.orderId == id
         && m.side == cmd.side && m.price == cmd.price && m.qty == cmd.qty
       else
         && m.status == 1 && m.reason == (if cmd.qty <= 0 then 1 else 2)
         && m.orderId == 0 && m.side == 0 && m.price == 0 && m.qty == 0
  }

  lemma {:induction false} OrderTold(m: Message, evs: seq<Event>, cmd: Command, id: int, ts: int)
    requires cmd.NewOrder? && evs != [] && Tells(m, evs[0], ts)
    requires Accepts(evs[0], cmd, id) <==> cmd.qty > 0 && cmd.price > 0
    requires |evs| == 1 && Refuses(evs[0], cmd, BadQty) <==> cmd.qty <= 0
    requires |evs| == 1 && Refuses(evs[0], cmd, BadPrice) <==> cmd.qty > 0 && cmd.price <= 0
    ensures RepliesToOrder(m, cmd, id, ts)
  {
  }

  // What any callback that tells the first event of the answer is.
  lemma {:induction false} OrderAnswerTold(cmds: seq<Command>, cmd: Command, ts: int)
    requires cmd.NewOrder?
    ensures var evs := EventsOf(cmds + [cmd], |cmds|);
            && evs != [] && !Public(evs[0]) && evs[0].owner == cmd.owner
            && (cmd.qty <= 0 || cmd.price <= 0 ==> |evs| == 1)
            && forall m :: Tells(m, evs[0], ts) ==> RepliesToOrder(m, cmd, 1 + Acceptances(Run(EMPTY, cmds).events), ts)
  {
    hide EventsOf, Run, Acceptances;
    var all, k := cmds + [cmd], |cmds|;
    assert all[..k] == cmds && all[k] == cmd;
    OrderAnswered(all, k);
    var evs, id := EventsOf(all, k), 1 + Acceptances(Run(EMPTY, cmds).events);
    forall m | Tells(m, evs[0], ts)
      ensures RepliesToOrder(m, cmd, id, ts)
    {
      OrderTold(m, evs, cmd, id, ts);
    }
  }

  // The reply to a new order reaches its sender first after the order; a rejection
  // is all that reaches it.
  lemma {:induction false} OrderReply(before: seq<Input>, s: int, ts: int, frame: seq<byte>, cmd: Command)
    requires Ingress(frame, s) == Some(cmd) && cmd.NewOrder? && IsOpen(START, before, s)
    requires FreshOpens(START, before + [Message(s, ts, frame)]) && ServeAll(START, before + [Message(s, ts, frame)]).state.alive
    ensures var had := |Received(ServeAll(START, before).sent, s)|;
            var frames := Received(ServeAll(START, before + [Message(s, ts, frame)]).sent, s);
            && had < |frames| && Callback(frames[had]).Some?
            && RepliesToOrder(Callback(frames[had]).value, cmd, 1 + Acceptances(Run(EMPTY, Commands(before)).events), ts)
            && (cmd.qty <= 0 || cmd.price <= 0 ==> |frames| == had + 1)
  {
    hide ServeAll, Ingress, IsOpen, Commands, EventsOf, Received, Callback, FreshOpens, Run, Acceptances, Tells, Public, RepliesToOrder;
    SenderOwns(frame, s, cmd);
    OrderAnswerTold(Commands(before), cmd, ts);
    FirstReply(before, s, ts, frame, cmd);
  }

  // The report to a cancel: canceled with status 4 and what was left of the order,
  // or rejected with status 1 and reason 3 for an unknown or 4 for another's order.
  predicate RepliesToCancel(m: Message, id: int, owner: int, life: Life, ts: int) {
    && m.ExecutionReport? && m.orderId == id && m.timestamp == ts && m.qty == 0
    && if life.Live? && life.terms.owner == owner then
         && m.status == 4 && m.reason == 0 && m.clientOrderId == life.terms.clientOrderId
         && m.side == life.terms.side && m.price == life.terms.limit && m.remainingQty == life.accepted - life.filled
       else
         && m.status == 1 && m.reason == (if life.Live? then 4 else 3)
         && m.clientOrderId == 0 && m.side == 0 && m.price == 0 && m.remainingQty == 0
  }

  lemma {:induction false} CancelAnswerTold(cmds: seq<Command>, cmd: Command, ts: int)
    requires cmd.Cancel?
    ensures var evs, life := EventsOf(cmds + [cmd], |cmds|), LifeOf(cmds, cmd.orderId);
            && evs != [] && !Public(evs[0]) && evs[0].owner == cmd.owner
            && (!(life.Live? && life.terms.owner == cmd.owner) ==> |evs| == 1)
            && forall m :: Tells(m, evs[0], ts) ==> RepliesToCancel(m, cmd.orderId, cmd.owner, life, ts)
  {
    hide EventsOf, LifeOf;
    var all, k := cmds + [cmd], |cmds|;
    assert all[..k] == cmds && all[k] == cmd;
    CancelAnswered(all, k);
  }

  // The reply to a cancel reaches its sender first after the cancel; a rejection is
  // all that reaches it.
  lemma {:induction false} CancelReply(before: seq<Input>, s: int, ts: int, frame: seq<byte>, cmd: Command)
    requires Ingress(frame, s) == Some(cmd) && cmd.Cancel? && IsOpen(START, before, s)
    requires FreshOpens(START, before + [Message(s, ts, frame)]) && ServeAll(START, before + [Message(s, ts, frame)]).state.alive
    ensures var had := |Received(ServeAll(START, before).sent, s)|;
            var frames := Received(ServeAll(START, before + [Message(s, ts, frame)]).sent, s);
            var life := LifeOf(Commands(before), cmd.orderId);
            && had < |frames| && Callback(frames[had]).Some?
            && RepliesToCancel(Callback(frames[had]).value, cmd.orderId, s, life, ts)
            && (!(life.Live? && life.terms.owner == s) ==> |frames| == had + 1)
  {
    hide ServeAll, Ingress, IsOpen, Commands, EventsOf, Received, Callback, FreshOpens, LifeOf, Tells, Public, RepliesToCancel;
    SenderOwns(frame, s, cmd);
    CancelAnswerTold(Commands(before), cmd, ts);
    FirstReply(before, s, ts, frame, cmd);
  }
}
